/** The server side of the connection handshake (handshake.c): the checksum
  * request, Settings, GameInit, MissionInit, UI-settings, boot and
  * delete-player builders, the recursive checksum-response parser and the
  * validation of a parsed response against the manifest. */
module Handshake {
  import opened Bytes
  import opened BufferModel
  import opened BufferLayout
  import opened Arrays

  const OpSettings: byte := 0x00
  const OpGameInit: byte := 0x01
  const OpBootPlayer: byte := 0x04
  const OpUiSettings: byte := 0x16
  const OpDeletePlayerUi: byte := 0x17
  const OpDeletePlayerAnim: byte := 0x18
  const OpChecksumReq: byte := 0x20
  const OpChecksumResp: byte := 0x21
  const MsgMissionInit: byte := 0x35

  /** BC_CHECKSUM_ROUNDS. */
  const Rounds := 4

  /** One row of the round table: directory, file filter, recursion. */
  datatype Round = Round(directory: seq<byte>, filter: seq<byte>, recursive: bool)

  /** The four checksum rounds. The round-2 and round-3 directories carry no
    * trailing slash; the round-0/1 base "scripts/" does. */
  function RoundTable(round: nat): (r: Round)
    requires round < Rounds
  {
    if round == 0 then Round(Ascii("scripts/"), Ascii("App.pyc"), false)
    else if round == 1 then Round(Ascii("scripts/"), Ascii("Autoexec.pyc"), false)
    else if round == 2 then Round(Ascii("scripts/ships"), Ascii("*.pyc"), true)
    else Round(Ascii("scripts/mainmenu"), Ascii("*.pyc"), false)
  }

  /** The final (0xFF) round: capital-S "Scripts/Multiplayer", recursive. */
  const FinalRound := Round(Ascii("Scripts/Multiplayer"), Ascii("*.pyc"), true)

  /** The writes of a checksum request for a round index and a table row:
    * [0x20][index][dirLen u16][dir][filterLen u16][filter][recursive bit]. */
  function RequestOps(index: u8, r: Round): seq<Op>
    requires |r.directory| < 0x1_0000 && |r.filter| < 0x1_0000
  {
    [U8(OpChecksumReq), U8(index), U16(|r.directory|), Raw(r.directory),
     U16(|r.filter|), Raw(r.filter), Flag(r.recursive)]
  }

  /** The request layout: seven framing bytes around the two strings, the
    * recursive flag alone in a fresh bit byte (0x01 or 0x00). */
  lemma RequestImage(index: u8, r: Round)
    requires |r.directory| < 0x1_0000 && |r.filter| < 0x1_0000
    ensures Image(RequestOps(index, r)) ==
      [OpChecksumReq, index] + LeU16(|r.directory|) + r.directory
      + LeU16(|r.filter|) + r.filter + [if r.recursive then 1 else 0]
    ensures |Image(RequestOps(index, r))| == 7 + |r.directory| + |r.filter|
  {
    var d, f := r.directory, r.filter;
    var head := [U8(OpChecksumReq), U8(index), U16(|d|), Raw(d), U16(|f|), Raw(f)];
    assert RequestOps(index, r) == head + [Flag(r.recursive)];
    Encodings3(U8(OpChecksumReq), U8(index), U16(|d|));
    Encodings3(Raw(d), U16(|f|), Raw(f));
    EncodingsAppend([U8(OpChecksumReq), U8(index), U16(|d|)], [Raw(d), U16(|f|), Raw(f)]);
    assert [U8(OpChecksumReq), U8(index), U16(|d|)] + [Raw(d), U16(|f|), Raw(f)] == head;
    BytesThenFlag(head, r.recursive);
  }

  /** bc_checksum_request_build: -1 for a round outside [0, 4) (buffer
    * untouched); otherwise the request for that table row. */
  method RequestBuild(buf: array<byte>, bufSize: nat, round: int) returns (n: int)
    requires bufSize <= buf.Length
    modifies buf
    ensures !(0 <= round < Rounds) ==> n == -1 && buf[..] == old(buf[..])
    ensures 0 <= round < Rounds ==>
      Built(n, buf[..], old(buf[..]), bufSize, RequestOps(round, RoundTable(round)))
  {
    if round < 0 || round >= Rounds {
      return -1;
    }
    n := Build(buf, bufSize, RequestOps(round, RoundTable(round)));
  }

  /** bc_checksum_request_final_build: round 0xFF for Scripts/Multiplayer. */
  method RequestFinalBuild(buf: array<byte>, bufSize: nat) returns (n: int)
    requires bufSize <= buf.Length
    modifies buf
    ensures Built(n, buf[..], old(buf[..]), bufSize, RequestOps(0xFF, FinalRound))
  {
    n := Build(buf, bufSize, RequestOps(0xFF, FinalRound));
  }

  /** The writes of bc_settings_build: the game time as raw f32 bits, the
    * collision and friendly-fire bits, the slot, the map name behind a u16
    * length (strlen cast to u16, so only that many bytes are written) and
    * the checksum-correction bit, always false. */
  function SettingsOps(gameTime: u32, collision: bool, friendlyFire: bool, slot: u8, mapName: seq<byte>): seq<Op>
  {
    var len := |mapName| % 0x1_0000;
    [U8(OpSettings), U32(gameTime), Flag(collision), Flag(friendlyFire),
     U8(slot), U16(len), Raw(mapName[..len]), Flag(false)]
  }

  /** The Settings layout: the three bits share one bit-pack byte at offset 5
    * (count field 2, so 0x40, plus collision in bit 0 and friendly fire in
    * bit 1), so the message is 9 bytes plus the written map name. */
  lemma SettingsImage(gameTime: u32, collision: bool, friendlyFire: bool, slot: u8, mapName: seq<byte>)
    ensures var m := mapName[..|mapName| % 0x1_0000];
      Image(SettingsOps(gameTime, collision, friendlyFire, slot, mapName)) ==
      [OpSettings] + LeU32(gameTime)
      + [0x40 + (if collision then 1 else 0) + (if friendlyFire then 2 else 0)]
      + ([slot] + LeU16(|m|) + m)
  {
    var len := |mapName| % 0x1_0000;
    var m := mapName[..len];
    var a := [U8(OpSettings), U32(gameTime)];
    var c: byte := if collision then 1 else 0;
    var mid := [U8(slot), U16(len), Raw(m)];
    assert SettingsOps(gameTime, collision, friendlyFire, slot, mapName)
      == a + [Flag(c == 1), Flag(friendlyFire)] + mid + [Flag(false)];
    EmitFour(Empty, a, [Flag(c == 1), Flag(friendlyFire)], mid, [Flag(false)]);
    SettingsHead(gameTime);
    Encodings3(U8(slot), U16(len), Raw(m));
    SettingsTail([OpSettings] + LeU32(gameTime), c, friendlyFire, mid);
  }

  /** After the five header bytes: the two bits open a group at offset 5,
    * the byte writes follow it, and the last bit joins the group. */
  lemma SettingsTail(e: seq<byte>, c: byte, f: bool, mid: seq<Op>)
    requires |e| == 5 && c < 2 && NoFlags(mid)
    ensures Emit(Emit(Emit(Layout(e, 0, 0), [Flag(c == 1), Flag(f)]), mid), [Flag(false)])
      == Layout(e + [0x40 + c + (if f then 2 else 0)] + Encodings(mid), 5, 3)
  {
    var low := c + (if f then 2 else 0);
    var rest := Encodings(mid);
    var s2 := Layout(e + [0x20 + low], 5, 2);
    var s3 := Layout(e + [0x20 + low] + rest, 5, 2);
    assert Emit(Layout(e, 0, 0), [Flag(c == 1), Flag(f)]) == s2 by {
      TwoFreshBits(e, 0, c, f);
    }
    assert Emit(s2, mid) == s3 by {
      EmitBytes(s2, mid);
    }
    assert Emit(s3, [Flag(false)]) == Layout(e + [0x40 + low] + rest, 5, 3) by {
      JoinClearBit(e, low, rest, 2);
    }
  }

  lemma SettingsHead(gameTime: u32)
    ensures Emit(Empty, [U8(OpSettings), U32(gameTime)]) == Layout([OpSettings] + LeU32(gameTime), 0, 0)
  {
    var a := [U8(OpSettings), U32(gameTime)];
    assert a[1..][1..] == [] && NoFlags(a[1..]) && NoFlags(a);
    assert Encodings(a) == [OpSettings] + LeU32(gameTime) + Encodings([]);
    EmitBytes(Empty, a);
  }

  /** bc_settings_build. */
  method SettingsBuild(buf: array<byte>, bufSize: nat, gameTime: u32, collision: bool,
                       friendlyFire: bool, slot: u8, mapName: seq<byte>) returns (n: int)
    requires bufSize <= buf.Length
    modifies buf
    ensures Built(n, buf[..], old(buf[..]), bufSize, SettingsOps(gameTime, collision, friendlyFire, slot, mapName))
  {
    n := Build(buf, bufSize, SettingsOps(gameTime, collision, friendlyFire, slot, mapName));
  }

  /** bc_ui_collision_build: [0x16] and the collision bit in a fresh group. */
  function UiCollisionOps(enabled: bool): seq<Op>
  {
    [U8(OpUiSettings), Flag(enabled)]
  }

  lemma UiCollisionImage(enabled: bool)
    ensures Image(UiCollisionOps(enabled)) == [OpUiSettings, if enabled then 1 else 0]
  {
    assert UiCollisionOps(enabled) == [U8(OpUiSettings)] + [Flag(enabled)];
    assert [U8(OpUiSettings)][1..] == [];
    assert Encodings([U8(OpUiSettings)]) == [OpUiSettings];
    BytesThenFlag([U8(OpUiSettings)], enabled);
  }

  method UiCollisionBuild(buf: array<byte>, bufSize: nat, enabled: bool) returns (n: int)
    requires bufSize <= buf.Length
    modifies buf
    ensures Built(n, buf[..], old(buf[..]), bufSize, UiCollisionOps(enabled))
  {
    n := Build(buf, bufSize, UiCollisionOps(enabled));
  }

  /** The fields of a MissionInit message as a client reads them: 255 in
    * the time-limit byte means no limit and no end time follows. */
  datatype MissionInit = MissionInit(players: byte, system: byte, limit: Option<(byte, i32)>, fragLimit: byte)

  /** The reading side of the MissionInit wire format, consuming the whole
    * payload: [0x35][players][system][timeLimit][endTime i32 unless
    * timeLimit is 255][fragLimit]. */
  function DecodeMissionInit(p: seq<byte>): Option<MissionInit>
  {
    if |p| < 5 || p[0] != MsgMissionInit then None
    else if p[3] == 0xFF then
      if |p| == 5 then Some(MissionInit(p[1], p[2], None, p[4])) else None
    else if |p| == 9 then Some(MissionInit(p[1], p[2], Some((p[3], I32At(p, 4))), p[8]))
    else None
  }

  /** The time-limit writes of bc_mission_init_build as written: a negative
    * limit is the 0xFF marker alone, any other the low byte of the limit
    * followed by the end time. */
  function TimeLimitOps(timeLimit: int, endTime: i32): seq<Op>
  {
    if timeLimit < 0 then [U8(0xFF)] else [U8(timeLimit % 0x100), I32(endTime)]
  }

  /** The writes of bc_mission_init_build; `& 0xFF` of a C int is the
    * two's-complement low byte, which is Dafny's Euclidean `% 0x100`. */
  function MissionInitOps(system: int, players: int, timeLimit: int, endTime: i32, fragLimit: int): seq<Op>
  {
    [U8(MsgMissionInit), U8(players % 0x100), U8(system % 0x100)]
    + TimeLimitOps(timeLimit, endTime)
    + [U8(if fragLimit < 0 then 0xFF else fragLimit % 0x100)]
  }

  lemma {:induction false} MissionInitImage(system: int, players: int, timeLimit: int, endTime: i32, fragLimit: int)
    ensures Image(MissionInitOps(system, players, timeLimit, endTime, fragLimit)) ==
      [MsgMissionInit, players % 0x100, system % 0x100]
      + (if timeLimit < 0 then [0xFF] else [timeLimit % 0x100] + LeI32(endTime))
      + [if fragLimit < 0 then 0xFF else fragLimit % 0x100]
  {
    var head := [U8(MsgMissionInit), U8(players % 0x100), U8(system % 0x100)];
    var t := TimeLimitOps(timeLimit, endTime);
    var f := [U8(if fragLimit < 0 then 0xFF else fragLimit % 0x100)];
    Encodings3(head[0], head[1], head[2]);
    assert [head[0], head[1], head[2]] == head;
    if timeLimit < 0 {
      Encodings1(U8(0xFF));
    } else {
      Encodings2(U8(timeLimit % 0x100), I32(endTime));
    }
    Encodings1(f[0]);
    assert [f[0]] == f;
    EncodingsAppend(head, t);
    EncodingsAppend(head + t, f);
    ImageOfBytes(head + t + f);
  }

  /** The message as built decodes to its fields whenever the time limit's
    * low byte is not 255. */
  lemma MissionInitDecodes(system: int, players: int, timeLimit: int, endTime: i32, fragLimit: int)
    requires timeLimit < 0 || timeLimit % 0x100 != 0xFF
    ensures DecodeMissionInit(Image(MissionInitOps(system, players, timeLimit, endTime, fragLimit))) ==
      Some(MissionInit(players % 0x100, system % 0x100,
                       if timeLimit < 0 then None else Some((timeLimit % 0x100, endTime)),
                       if fragLimit < 0 then 0xFF else fragLimit % 0x100))
  {
    MissionInitImage(system, players, timeLimit, endTime, fragLimit);
    if timeLimit >= 0 {
      var pre := [MsgMissionInit, players % 0x100, system % 0x100, timeLimit % 0x100];
      var fb := if fragLimit < 0 then 0xFF else fragLimit % 0x100;
      assert [MsgMissionInit, players % 0x100, system % 0x100] + ([timeLimit % 0x100] + LeI32(endTime)) + [fb]
        == pre + LeI32(endTime) + [fb];
      I32RoundTripAt(endTime, pre, [fb]);
    }
  }

  /** A non-negative time limit whose low byte is 255 (255 itself, say)
    * writes the no-limit marker and then an end time anyway: the nine bytes
    * built do not decode. */
  lemma MissionInitMarkerClash(system: int, players: int, endTime: i32, fragLimit: int)
    ensures DecodeMissionInit(Image(MissionInitOps(system, players, 255, endTime, fragLimit))).None?
  {
    MissionInitImage(system, players, 255, endTime, fragLimit);
  }

  /** The time-limit writes as the wire format asks for them: the 0xFF
    * marker, alone, whenever the limit byte would read as "no limit". */
  function TimeLimitOpsFixed(timeLimit: int, endTime: i32): seq<Op>
  {
    if timeLimit < 0 || timeLimit % 0x100 == 0xFF then [U8(0xFF)]
    else [U8(timeLimit % 0x100), I32(endTime)]
  }

  function MissionInitOpsFixed(system: int, players: int, timeLimit: int, endTime: i32, fragLimit: int): seq<Op>
  {
    [U8(MsgMissionInit), U8(players % 0x100), U8(system % 0x100)]
    + TimeLimitOpsFixed(timeLimit, endTime)
    + [U8(if fragLimit < 0 then 0xFF else fragLimit % 0x100)]
  }

  /** With the corrected time-limit writes every message decodes, a limit
    * byte of 255 reading back as no limit. */
  lemma MissionInitFixedDecodes(system: int, players: int, timeLimit: int, endTime: i32, fragLimit: int)
    ensures DecodeMissionInit(Image(MissionInitOpsFixed(system, players, timeLimit, endTime, fragLimit))) ==
      Some(MissionInit(players % 0x100, system % 0x100,
                       if timeLimit < 0 || timeLimit % 0x100 == 0xFF then None
                       else Some((timeLimit % 0x100, endTime)),
                       if fragLimit < 0 then 0xFF else fragLimit % 0x100))
  {
    if timeLimit < 0 || timeLimit % 0x100 == 0xFF {
      assert MissionInitOpsFixed(system, players, timeLimit, endTime, fragLimit)
        == MissionInitOps(system, players, -1, endTime, fragLimit);
      MissionInitDecodes(system, players, -1, endTime, fragLimit);
    } else {
      assert MissionInitOpsFixed(system, players, timeLimit, endTime, fragLimit)
        == MissionInitOps(system, players, timeLimit, endTime, fragLimit);
      MissionInitDecodes(system, players, timeLimit, endTime, fragLimit);
    }
  }

  /** bc_mission_init_build, as written. */
  method MissionInitBuild(buf: array<byte>, bufSize: nat, system: int, players: int,
                          timeLimit: int, endTime: i32, fragLimit: int) returns (n: int)
    requires bufSize <= buf.Length
    modifies buf
    ensures Built(n, buf[..], old(buf[..]), bufSize, MissionInitOps(system, players, timeLimit, endTime, fragLimit))
  {
    n := Build(buf, bufSize, MissionInitOps(system, players, timeLimit, endTime, fragLimit));
  }

  /** bc_gameinit_build: the single opcode byte, -1 when there is no room. */
  method GameInitBuild(buf: array<byte>, bufSize: int) returns (n: int)
    requires bufSize <= buf.Length
    modifies buf
    ensures bufSize < 1 ==> n == -1 && buf[..] == old(buf[..])
    ensures bufSize >= 1 ==> n == 1 && buf[..] == old(buf[..])[0 := OpGameInit]
  {
    if bufSize < 1 {
      return -1;
    }
    buf[0] := OpGameInit;
    return 1;
  }

  /** The two-byte [opcode][value] builders: bc_bootplayer_build (reason)
    * and bc_delete_player_ui_build (game slot). */
  method TwoByteBuild(buf: array<byte>, bufSize: int, opcode: byte, value: u8) returns (n: int)
    requires bufSize <= buf.Length
    modifies buf
    ensures bufSize < 2 ==> n == -1 && buf[..] == old(buf[..])
    ensures bufSize >= 2 ==> n == 2 && buf[..] == [opcode, value] + old(buf[..])[2..]
  {
    if bufSize < 2 {
      return -1;
    }
    buf[0] := opcode;
    buf[1] := value;
    assert buf[..] == [opcode, value] + old(buf[..])[2..];
    return 2;
  }

  method BootPlayerBuild(buf: array<byte>, bufSize: int, reason: u8) returns (n: int)
    requires bufSize <= buf.Length
    modifies buf
    ensures bufSize < 2 ==> n == -1 && buf[..] == old(buf[..])
    ensures bufSize >= 2 ==> n == 2 && buf[..] == [OpBootPlayer, reason] + old(buf[..])[2..]
  {
    n := TwoByteBuild(buf, bufSize, OpBootPlayer, reason);
  }

  method DeletePlayerUiBuild(buf: array<byte>, bufSize: int, slot: u8) returns (n: int)
    requires bufSize <= buf.Length
    modifies buf
    ensures bufSize < 2 ==> n == -1 && buf[..] == old(buf[..])
    ensures bufSize >= 2 ==> n == 2 && buf[..] == [OpDeletePlayerUi, slot] + old(buf[..])[2..]
  {
    n := TwoByteBuild(buf, bufSize, OpDeletePlayerUi, slot);
  }

  /** The DeletePlayerAnim message: [0x18][name length as u16][name]. The
    * length field keeps the low 16 bits of the length; the whole name is
    * copied. */
  function DeletePlayerAnimBytes(name: seq<byte>): seq<byte>
  {
    [OpDeletePlayerAnim] + LeU16(|name| % 0x1_0000) + name
  }

  /** bc_delete_player_anim_build (a NULL name is the empty name): -1 when
    * 3 + |name| exceeds bufSize, else the message in front of the buffer. */
  method DeletePlayerAnimBuild(buf: array<byte>, bufSize: int, name: seq<byte>) returns (n: int)
    requires bufSize <= buf.Length
    modifies buf
    ensures n == -1 <==> 3 + |name| > bufSize
    ensures n == -1 ==> buf[..] == old(buf[..])
    ensures n != -1 ==> n == 3 + |name| && buf[..] == DeletePlayerAnimBytes(name) + old(buf[..])[n..]
  {
    var total := 3 + |name|;
    if total > bufSize {
      return -1;
    }
    var len := |name| % 0x1_0000;
    buf[0] := OpDeletePlayerAnim;
    buf[1] := len % 0x100;
    buf[2] := len / 0x100;
    ghost var header := buf[..];
    assert header[..3] == [OpDeletePlayerAnim] + LeU16(len);
    assert header[3..] == old(buf[..])[3..];
    CopyAt(buf, 3, name);
    assert old(buf[..])[3..][|name|..] == old(buf[..])[total..];
    return total;
  }
}
