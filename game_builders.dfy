/** The server's game-message builders (game_builders.c): object ids, and
  * the messages the host writes for ship creation, weapons fire,
  * explosions, chat, scores and state updates. Builders that write through
  * a bc_buffer_t are specified by the image of their writes (see
  * BufferLayout.Built); the two that write the array directly say their
  * bytes outright. Floats and the compressed cv3/cv4/cf16 encodings are
  * opaque byte groups of 4/3/5/2 bytes. */
module GameBuilders {
  import opened Bytes
  import opened BufferModel
  import opened BufferLayout
  import opened Arrays

  const OpObjCreateTeam: byte := 0x03
  const OpDestroyObj: byte := 0x14
  const OpTorpedoFire: byte := 0x19
  const OpBeamFire: byte := 0x1A
  const OpStateUpdate: byte := 0x1C
  const OpExplosion: byte := 0x29
  const MsgChat: byte := 0x2C
  const MsgTeamChat: byte := 0x2D
  const MsgScoreChange: byte := 0x36
  const MsgScore: byte := 0x37
  const MsgEndGame: byte := 0x38

  /** The first object id, and the id range each player slot owns (2^18). */
  const ObjectIdBase := 0x3FFF_FFFF
  const IdsPerSlot := 0x4_0000

  /** Byte widths of the opaque float encodings. */
  const Cv3Size := 3
  const Cv4Size := 5
  const Cf16Size := 2

  /** bc_make_object_id: the sum is taken in u32 arithmetic (the casts of
    * slot and sub to u32 and the additions all wrap modulo 2^32) and the
    * result reinterpreted as i32. */
  function MakeObjectId(slot: i32, sub: i32): (id: i32)
    ensures 0 <= slot && 0 <= sub && ObjectIdBase + slot * IdsPerSlot + sub < 0x8000_0000 ==>
      id == ObjectIdBase + slot * IdsPerSlot + sub
  {
    ToI32((ObjectIdBase + ToU32(slot) * IdsPerSlot + ToU32(sub)) % 0x1_0000_0000)
  }

  /** bc_make_ship_id: a slot's primary ship is the first id of its range. */
  function MakeShipId(slot: i32): (id: i32)
    ensures 0 <= slot < 0x800 ==> id == ObjectIdBase + slot * IdsPerSlot
  {
    MakeObjectId(slot, 0)
  }

  // ---------------------------------------------------------------------
  // Direct builders.

  /** The ObjCreateTeam message: [0x03][owner][team][ship blob]. */
  function ObjectCreateTeamBytes(owner: u8, team: u8, blob: seq<byte>): seq<byte>
  {
    [OpObjCreateTeam, owner, team] + blob
  }

  /** bc_build_object_create_team: -1 with the buffer untouched when
    * 3 + |blob| exceeds bufSize, otherwise the message in front of it. */
  method ObjectCreateTeamBuild(buf: array<byte>, bufSize: int, owner: u8, team: u8, blob: seq<byte>)
    returns (n: int)
    requires bufSize <= buf.Length
    modifies buf
    ensures n == -1 <==> 3 + |blob| > bufSize
    ensures n == -1 ==> buf[..] == old(buf[..])
    ensures n != -1 ==> n == 3 + |blob| && buf[..] == ObjectCreateTeamBytes(owner, team, blob) + old(buf[..])[n..]
  {
    var total := 3 + |blob|;
    if total > bufSize {
      return -1;
    }
    buf[0] := OpObjCreateTeam;
    buf[1] := owner;
    buf[2] := team;
    ghost var header := buf[..];
    assert header[..3] == [OpObjCreateTeam, owner, team];
    assert header[3..] == old(buf[..])[3..];
    CopyAt(buf, 3, blob);
    assert old(buf[..])[3..][|blob|..] == old(buf[..])[total..];
    return total;
  }

  /** An event relayed as [opcode][data]. */
  function EventForwardBytes(opcode: u8, data: seq<byte>): seq<byte>
  {
    [opcode] + data
  }

  /** bc_build_event_forward: -1 with the buffer untouched when 1 + |data|
    * exceeds bufSize, otherwise the opcode and the data in front of it. */
  method EventForwardBuild(buf: array<byte>, bufSize: int, opcode: u8, data: seq<byte>) returns (n: int)
    requires bufSize <= buf.Length
    modifies buf
    ensures n == -1 <==> 1 + |data| > bufSize
    ensures n == -1 ==> buf[..] == old(buf[..])
    ensures n != -1 ==> n == 1 + |data| && buf[..] == EventForwardBytes(opcode, data) + old(buf[..])[n..]
    ensures n != -1 ==> buf[0] == opcode
  {
    var total := 1 + |data|;
    if total > bufSize {
      return -1;
    }
    buf[0] := opcode;
    ghost var header := buf[..];
    assert header == [opcode] + old(buf[..])[1..];
    if |data| > 0 {
      CopyAt(buf, 1, data);
      assert old(buf[..])[1..][|data|..] == old(buf[..])[total..];
    }
    return total;
  }

  // ---------------------------------------------------------------------
  // Builders through a bc_buffer_t.

  /** The writes of bc_build_torpedo_fire: opcode, shooter, subsystem, the
    * flags byte (0x02 exactly when there is a target), the velocity, and
    * the target id and impact point only with a target. */
  function TorpedoFireOps(shooter: i32, subsys: u8, vel: seq<byte>, hasTarget: bool,
                          target: i32, impact: seq<byte>): seq<Op>
  {
    [U8(OpTorpedoFire), I32(shooter), U8(subsys), U8(if hasTarget then 0x02 else 0x00), Raw(vel)]
    + (if hasTarget then [I32(target), Raw(impact)] else [])
  }

  function TorpedoFireBytes(shooter: i32, subsys: u8, vel: seq<byte>, hasTarget: bool,
                            target: i32, impact: seq<byte>): seq<byte>
  {
    [OpTorpedoFire] + LeI32(shooter) + [subsys] + [if hasTarget then 0x02 else 0x00] + vel
    + (if hasTarget then LeI32(target) + impact else [])
  }

  /** The torpedo message is 10 bytes, or 19 with a target, with the flags
    * byte at offset 6. */
  lemma TorpedoFireImage(shooter: i32, subsys: u8, vel: seq<byte>, hasTarget: bool,
                         target: i32, impact: seq<byte>)
    requires |vel| == Cv3Size && |impact| == Cv4Size
    ensures Image(TorpedoFireOps(shooter, subsys, vel, hasTarget, target, impact))
      == TorpedoFireBytes(shooter, subsys, vel, hasTarget, target, impact)
    ensures |TorpedoFireBytes(shooter, subsys, vel, hasTarget, target, impact)| == if hasTarget then 19 else 10
    ensures TorpedoFireBytes(shooter, subsys, vel, hasTarget, target, impact)[6] == 0x02 <==> hasTarget
  {
    var fl: byte := if hasTarget then 0x02 else 0x00;
    var head := [U8(OpTorpedoFire), I32(shooter), U8(subsys), U8(fl), Raw(vel)];
    var tail: seq<Op> := if hasTarget then [I32(target), Raw(impact)] else [];
    Encodings5(U8(OpTorpedoFire), I32(shooter), U8(subsys), U8(fl), Raw(vel));
    if hasTarget {
      Encodings2(I32(target), Raw(impact));
    }
    EncodingsAppend(head, tail);
    ImageOfBytes(head + tail);
  }

  /** bc_build_torpedo_fire. */
  method TorpedoFireBuild(buf: array<byte>, bufSize: nat, shooter: i32, subsys: u8, vel: seq<byte>,
                          hasTarget: bool, target: i32, impact: seq<byte>) returns (n: int)
    requires bufSize <= buf.Length
    modifies buf
    ensures Built(n, buf[..], old(buf[..]), bufSize, TorpedoFireOps(shooter, subsys, vel, hasTarget, target, impact))
  {
    n := Build(buf, bufSize, TorpedoFireOps(shooter, subsys, vel, hasTarget, target, impact));
  }

  /** The writes of bc_build_beam_fire: opcode, shooter, flags, direction,
    * the more-flags byte (0x01 exactly when there is a target), then the
    * target id only with a target. */
  function BeamFireOps(shooter: i32, flags: u8, dir: seq<byte>, hasTarget: bool, target: i32): seq<Op>
  {
    [U8(OpBeamFire), I32(shooter), U8(flags), Raw(dir), U8(if hasTarget then 0x01 else 0x00)]
    + (if hasTarget then [I32(target)] else [])
  }

  function BeamFireBytes(shooter: i32, flags: u8, dir: seq<byte>, hasTarget: bool, target: i32): seq<byte>
  {
    [OpBeamFire] + LeI32(shooter) + [flags] + dir + [if hasTarget then 0x01 else 0x00]
    + (if hasTarget then LeI32(target) else [])
  }

  /** The beam message is 10 bytes, or 14 with a target, with the more-flags
    * byte at offset 9. */
  lemma BeamFireImage(shooter: i32, flags: u8, dir: seq<byte>, hasTarget: bool, target: i32)
    requires |dir| == Cv3Size
    ensures Image(BeamFireOps(shooter, flags, dir, hasTarget, target)) == BeamFireBytes(shooter, flags, dir, hasTarget, target)
    ensures |BeamFireBytes(shooter, flags, dir, hasTarget, target)| == if hasTarget then 14 else 10
    ensures BeamFireBytes(shooter, flags, dir, hasTarget, target)[9] == 0x01 <==> hasTarget
  {
    var mf: byte := if hasTarget then 0x01 else 0x00;
    var head := [U8(OpBeamFire), I32(shooter), U8(flags), Raw(dir), U8(mf)];
    var tail: seq<Op> := if hasTarget then [I32(target)] else [];
    Encodings5(U8(OpBeamFire), I32(shooter), U8(flags), Raw(dir), U8(mf));
    if hasTarget {
      Encodings1(I32(target));
    }
    EncodingsAppend(head, tail);
    ImageOfBytes(head + tail);
  }

  /** bc_build_beam_fire. */
  method BeamFireBuild(buf: array<byte>, bufSize: nat, shooter: i32, flags: u8, dir: seq<byte>,
                       hasTarget: bool, target: i32) returns (n: int)
    requires bufSize <= buf.Length
    modifies buf
    ensures Built(n, buf[..], old(buf[..]), bufSize, BeamFireOps(shooter, flags, dir, hasTarget, target))
  {
    n := Build(buf, bufSize, BeamFireOps(shooter, flags, dir, hasTarget, target));
  }

  /** The writes of bc_build_explosion: opcode, object, impact point,
    * damage and radius. */
  function ExplosionOps(obj: i32, impact: seq<byte>, damage: seq<byte>, radius: seq<byte>): seq<Op>
  {
    [U8(OpExplosion), I32(obj), Raw(impact), Raw(damage), Raw(radius)]
  }

  /** An explosion is always 14 bytes. */
  lemma ExplosionImage(obj: i32, impact: seq<byte>, damage: seq<byte>, radius: seq<byte>)
    requires |impact| == Cv4Size && |damage| == Cf16Size && |radius| == Cf16Size
    ensures Image(ExplosionOps(obj, impact, damage, radius)) == [OpExplosion] + LeI32(obj) + impact + damage + radius
    ensures |Image(ExplosionOps(obj, impact, damage, radius))| == 14
  {
    Encodings5(U8(OpExplosion), I32(obj), Raw(impact), Raw(damage), Raw(radius));
    ImageOfBytes(ExplosionOps(obj, impact, damage, radius));
  }

  /** bc_build_explosion. */
  method ExplosionBuild(buf: array<byte>, bufSize: nat, obj: i32, impact: seq<byte>,
                        damage: seq<byte>, radius: seq<byte>) returns (n: int)
    requires bufSize <= buf.Length
    modifies buf
    ensures Built(n, buf[..], old(buf[..]), bufSize, ExplosionOps(obj, impact, damage, radius))
  {
    n := Build(buf, bufSize, ExplosionOps(obj, impact, damage, radius));
  }

  function DestroyObjOps(obj: i32): seq<Op>
  {
    [U8(OpDestroyObj), I32(obj)]
  }

  /** A destroy message is always 5 bytes. */
  lemma DestroyObjImage(obj: i32)
    ensures Image(DestroyObjOps(obj)) == [OpDestroyObj] + LeI32(obj)
    ensures |Image(DestroyObjOps(obj))| == 5
  {
    Encodings2(U8(OpDestroyObj), I32(obj));
    ImageOfBytes(DestroyObjOps(obj));
  }

  /** bc_build_destroy_obj. */
  method DestroyObjBuild(buf: array<byte>, bufSize: nat, obj: i32) returns (n: int)
    requires bufSize <= buf.Length
    modifies buf
    ensures Built(n, buf[..], old(buf[..]), bufSize, DestroyObjOps(obj))
  {
    n := Build(buf, bufSize, DestroyObjOps(obj));
  }

  /** The writes of bc_build_chat: the opcode (team chat or chat), the
    * sender, three zero bytes, strlen cast to u16, and the whole message. */
  function ChatOps(sender: u8, team: bool, message: seq<byte>): seq<Op>
  {
    [U8(if team then MsgTeamChat else MsgChat), U8(sender), U8(0), U8(0), U8(0),
     U16(|message| % 0x1_0000), Raw(message)]
  }

  function ChatBytes(sender: u8, team: bool, message: seq<byte>): seq<byte>
  {
    [if team then MsgTeamChat else MsgChat, sender, 0, 0, 0] + LeU16(|message| % 0x1_0000) + message
  }

  /** A chat message is 7 bytes plus the text, its opcode 0x2D exactly for
    * team chat. */
  lemma ChatImage(sender: u8, team: bool, message: seq<byte>)
    ensures Image(ChatOps(sender, team, message)) == ChatBytes(sender, team, message)
    ensures |ChatBytes(sender, team, message)| == 7 + |message|
    ensures ChatBytes(sender, team, message)[0] == MsgTeamChat <==> team
  {
    var op: byte := if team then MsgTeamChat else MsgChat;
    var len := |message| % 0x1_0000;
    var five := [U8(op), U8(sender), U8(0), U8(0), U8(0)];
    Encodings5(U8(op), U8(sender), U8(0), U8(0), U8(0));
    assert Encodings(five) == [op, sender, 0, 0, 0];
    EncodingsSnoc(five, U16(len));
    EncodingsSnoc(five + [U16(len)], Raw(message));
    assert five + [U16(len)] + [Raw(message)] == ChatOps(sender, team, message);
    ImageOfBytes(ChatOps(sender, team, message));
  }

  /** bc_build_chat. */
  method ChatBuild(buf: array<byte>, bufSize: nat, sender: u8, team: bool, message: seq<byte>) returns (n: int)
    requires bufSize <= buf.Length
    modifies buf
    ensures Built(n, buf[..], old(buf[..]), bufSize, ChatOps(sender, team, message))
  {
    n := Build(buf, bufSize, ChatOps(sender, team, message));
  }

  function ScoreChangeOps(killer: u8, victim: u8, score: i32): seq<Op>
  {
    [U8(MsgScoreChange), U8(killer), U8(victim), I32(score)]
  }

  /** A score change is [0x36][killer][victim][score i32], 7 bytes. */
  lemma ScoreChangeImage(killer: u8, victim: u8, score: i32)
    ensures Image(ScoreChangeOps(killer, victim, score)) == [MsgScoreChange, killer, victim] + LeI32(score)
    ensures |Image(ScoreChangeOps(killer, victim, score))| == 7
  {
    Encodings4(U8(MsgScoreChange), U8(killer), U8(victim), I32(score));
    assert [MsgScoreChange] + [killer] + [victim] == [MsgScoreChange, killer, victim];
    ImageOfBytes(ScoreChangeOps(killer, victim, score));
  }

  /** bc_build_score_change. */
  method ScoreChangeBuild(buf: array<byte>, bufSize: nat, killer: u8, victim: u8, score: i32) returns (n: int)
    requires bufSize <= buf.Length
    modifies buf
    ensures Built(n, buf[..], old(buf[..]), bufSize, ScoreChangeOps(killer, victim, score))
  {
    n := Build(buf, bufSize, ScoreChangeOps(killer, victim, score));
  }

  function EndGameOps(winner: u8): seq<Op>
  {
    [U8(MsgEndGame), U8(winner)]
  }

  /** The end-of-game message is [0x38][winner]. */
  lemma EndGameImage(winner: u8)
    ensures Image(EndGameOps(winner)) == [MsgEndGame, winner]
  {
    Encodings2(U8(MsgEndGame), U8(winner));
    ImageOfBytes(EndGameOps(winner));
  }

  /** bc_build_end_game. */
  method EndGameBuild(buf: array<byte>, bufSize: nat, winner: u8) returns (n: int)
    requires bufSize <= buf.Length
    modifies buf
    ensures Built(n, buf[..], old(buf[..]), bufSize, EndGameOps(winner))
  {
    n := Build(buf, bufSize, EndGameOps(winner));
  }

  /** The writes of bc_build_state_update: opcode, object, the game time's
    * bit pattern, the dirty flags, then the field data when there is any. */
  function StateUpdateOps(obj: i32, gameTime: u32, dirty: u8, fields: seq<byte>): seq<Op>
  {
    [U8(OpStateUpdate), I32(obj), U32(gameTime), U8(dirty)] + (if |fields| > 0 then [Raw(fields)] else [])
  }

  function StateUpdateBytes(obj: i32, gameTime: u32, dirty: u8, fields: seq<byte>): seq<byte>
  {
    [OpStateUpdate] + LeI32(obj) + LeU32(gameTime) + [dirty] + fields
  }

  /** A state update is 10 bytes of header, dirty flags at offset 9, then
    * the field data. */
  lemma StateUpdateImage(obj: i32, gameTime: u32, dirty: u8, fields: seq<byte>)
    ensures Image(StateUpdateOps(obj, gameTime, dirty, fields)) == StateUpdateBytes(obj, gameTime, dirty, fields)
    ensures |StateUpdateBytes(obj, gameTime, dirty, fields)| == 10 + |fields|
    ensures StateUpdateBytes(obj, gameTime, dirty, fields)[9] == dirty
  {
    var head := [U8(OpStateUpdate), I32(obj), U32(gameTime), U8(dirty)];
    var tail: seq<Op> := if |fields| > 0 then [Raw(fields)] else [];
    Encodings4(U8(OpStateUpdate), I32(obj), U32(gameTime), U8(dirty));
    if |fields| > 0 {
      Encodings1(Raw(fields));
    }
    EncodingsAppend(head, tail);
    ImageOfBytes(head + tail);
  }

  /** bc_build_state_update. */
  method StateUpdateBuild(buf: array<byte>, bufSize: nat, obj: i32, gameTime: u32, dirty: u8,
                          fields: seq<byte>) returns (n: int)
    requires bufSize <= buf.Length
    modifies buf
    ensures Built(n, buf[..], old(buf[..]), bufSize, StateUpdateOps(obj, gameTime, dirty, fields))
  {
    n := Build(buf, bufSize, StateUpdateOps(obj, gameTime, dirty, fields));
  }

  /** The per-player writes of bc_build_score from index i on: the game
    * slot i (as u8) and its score. */
  function ScoreEntryOps(scores: seq<i32>, i: nat): seq<Op>
    requires i <= |scores|
    decreases |scores| - i
  {
    if i == |scores| then [] else [U8(i % 0x100), I32(scores[i])] + ScoreEntryOps(scores, i + 1)
  }

  /** The writes of bc_build_score: [0x37][count as u8] and one entry per
    * player. */
  function ScoreOps(scores: seq<i32>): seq<Op>
  {
    [U8(MsgScore), U8(|scores| % 0x100)] + ScoreEntryOps(scores, 0)
  }

  /** The bytes of the entries from index i on: each player's game slot as
    * a byte, then its score. */
  function ScoreEntryBytes(scores: seq<i32>, i: nat): seq<byte>
    requires i <= |scores|
    decreases |scores| - i
  {
    if i == |scores| then [] else [i % 0x100] + LeI32(scores[i]) + ScoreEntryBytes(scores, i + 1)
  }

  /** The entries from index i on are byte writes whose image is their
    * bytes. */
  lemma {:induction false} ScoreEntryImage(scores: seq<i32>, i: nat)
    requires i <= |scores|
    ensures NoFlags(ScoreEntryOps(scores, i))
    ensures Encodings(ScoreEntryOps(scores, i)) == ScoreEntryBytes(scores, i)
    decreases |scores| - i
  {
    if i < |scores| {
      var e := [U8(i % 0x100), I32(scores[i])];
      ScoreEntryImage(scores, i + 1);
      Encodings2(U8(i % 0x100), I32(scores[i]));
      EncodingsAppend(e, ScoreEntryOps(scores, i + 1));
    }
  }

  /** Every entry takes 5 bytes. */
  lemma {:induction false} ScoreEntryLength(scores: seq<i32>, i: nat)
    requires i <= |scores|
    ensures |ScoreEntryBytes(scores, i)| == 5 * (|scores| - i)
    decreases |scores| - i
  {
    if i < |scores| {
      ScoreEntryLength(scores, i + 1);
    }
  }

  /** Entry j starts 5 (j - i) bytes into the entries from i: first j as a
    * byte, then score j. */
  lemma {:induction false} ScoreEntryAt(scores: seq<i32>, i: nat, j: nat)
    requires i <= j < |scores|
    ensures |ScoreEntryBytes(scores, i)| >= 5 * (j - i) + 5
    ensures ScoreEntryBytes(scores, i)[5 * (j - i)] == j % 0x100
    ensures ScoreEntryBytes(scores, i)[5 * (j - i) + 1..5 * (j - i) + 5] == LeI32(scores[j])
    decreases j - i
  {
    var h := [i % 0x100] + LeI32(scores[i]);
    var t := ScoreEntryBytes(scores, i + 1);
    assert ScoreEntryBytes(scores, i) == h + t;
    if i < j {
      ScoreEntryAt(scores, i + 1, j);
      var k := 5 * (j - (i + 1));
      assert 5 * (j - i) == 5 + k;
      assert (h + t)[5 + k + 1..5 + k + 5] == t[k + 1..k + 5];
    } else {
      assert (h + t)[1..5] == LeI32(scores[i]);
    }
  }

  /** The score message is 2 + 5 * count bytes: the count byte, then for
    * each player its game slot and its score. */
  lemma {:induction false} ScoreImage(scores: seq<i32>)
    ensures |Image(ScoreOps(scores))| == 2 + 5 * |scores|
    ensures Image(ScoreOps(scores))[..2] == [MsgScore, |scores| % 0x100]
    ensures forall j :: 0 <= j < |scores| ==>
      Image(ScoreOps(scores))[2 + 5 * j] == j % 0x100 &&
      Image(ScoreOps(scores))[2 + 5 * j + 1..2 + 5 * j + 5] == LeI32(scores[j])
  {
    var er := ScoreEntryBytes(scores, 0);
    ScoreHead(scores);
    ScoreEntryLength(scores, 0);
    forall j | 0 <= j < |scores|
      ensures ([MsgScore, |scores| % 0x100] + er)[2 + 5 * j] == j % 0x100
      ensures ([MsgScore, |scores| % 0x100] + er)[2 + 5 * j + 1..2 + 5 * j + 5] == LeI32(scores[j])
    {
      ScoreEntryAt(scores, 0, j);
      assert ([MsgScore, |scores| % 0x100] + er)[2 + 5 * j + 1..2 + 5 * j + 5] == er[5 * j + 1..5 * j + 5];
    }
  }

  /** The score message is its two header bytes, then the entries. */
  lemma {:induction false} ScoreHead(scores: seq<i32>)
    ensures Image(ScoreOps(scores)) == [MsgScore, |scores| % 0x100] + ScoreEntryBytes(scores, 0)
  {
    var head := [U8(MsgScore), U8(|scores| % 0x100)];
    ScoreEntryImage(scores, 0);
    Encodings2(U8(MsgScore), U8(|scores| % 0x100));
    EncodingsAppend(head, ScoreEntryOps(scores, 0));
    ImageOfBytes(ScoreOps(scores));
  }

  /** bc_build_score, for the scores of player_count players. */
  method ScoreBuild(buf: array<byte>, bufSize: nat, scores: seq<i32>) returns (n: int)
    requires bufSize <= buf.Length
    modifies buf
    ensures Built(n, buf[..], old(buf[..]), bufSize, ScoreOps(scores))
  {
    n := Build(buf, bufSize, ScoreOps(scores));
  }
}
