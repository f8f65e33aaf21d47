/** The read-only game-event parsers of game_events.c: the object-id to
  * player-slot arithmetic and the parsers that pull the logged fields out
  * of relayed payloads. Each parser is a method reading through a
  * bc_buffer_t over the payload, proved to return what a reference
  * function reading the same fields at their fixed offsets returns; the
  * lemmas give the length each message needs and the builder-to-parser
  * round trips. Floats are their 32-bit patterns; cv3/cv4/cf16 fields are
  * opaque 3/5/2-byte groups. */
module GameEvents {
  import opened Bytes
  import opened BufferModel
  import opened GameBuilders
  import opened BufferLayout
  import PlayerIds
  import opened Reader
  import ByteBuffer

  const OpObjCreate: byte := 0x02
  const OpCollisionEffect: byte := 0x15

  // ---------------------------------------------------------------------
  // Object ids.

  /** bc_object_id_to_slot: -1 below the base id, otherwise the slot whose
    * 2^18-id range holds the id, or -1 past the last player slot. The
    * subtraction is exact here; where i32 arithmetic would wrap (ids more
    * than 2^30 below the base) the wrapped offset still gives -1, see
    * ObjectIdToSlotWrapped. */
  function ObjectIdToSlot(id: i32): (slot: int)
  {
    var offset := id - ObjectIdBase;
    if offset < 0 then -1
    else if offset / IdsPerSlot >= PlayerIds.MaxPlayers then -1
    else offset / IdsPerSlot
  }

  /** A slot comes back exactly for the ids of the seven player ranges, and
    * the id lies in the range of the slot returned. */
  lemma ObjectIdToSlotRange(id: i32)
    ensures ObjectIdToSlot(id) == -1 || 0 <= ObjectIdToSlot(id) < PlayerIds.MaxPlayers
    ensures ObjectIdToSlot(id) >= 0 <==> ObjectIdBase <= id < ObjectIdBase + PlayerIds.MaxPlayers * IdsPerSlot
    ensures ObjectIdToSlot(id) >= 0 ==>
      ObjectIdBase + ObjectIdToSlot(id) * IdsPerSlot <= id < ObjectIdBase + (ObjectIdToSlot(id) + 1) * IdsPerSlot
  {
  }

  /** The same mapping with the offset computed as a wrapping i32
    * subtraction and shifted as a u32. */
  function ObjectIdToSlotWrapping(id: i32): int
  {
    var offset := ToI32(ToU32(id - ObjectIdBase));
    if offset < 0 then -1
    else if offset / IdsPerSlot >= PlayerIds.MaxPlayers then -1
    else offset / IdsPerSlot
  }

  /** Wrapping changes no answer. */
  lemma ObjectIdToSlotWrapped(id: i32)
    ensures ObjectIdToSlotWrapping(id) == ObjectIdToSlot(id)
  {
    if id - ObjectIdBase < -0x8000_0000 {
      assert ToU32(id - ObjectIdBase) == id - ObjectIdBase + 0x1_0000_0000;
    } else {
      assert ToU32(id - ObjectIdBase) % 0x1_0000_0000 == (id - ObjectIdBase) % 0x1_0000_0000;
    }
  }

  /** Object ids made for a player slot map back to it: the two functions
    * are inverse on the seven slots and the 2^18 sub-indexes of each. */
  lemma SlotOfMadeId(slot: int, sub: int)
    requires 0 <= slot < PlayerIds.MaxPlayers && 0 <= sub < IdsPerSlot
    ensures ObjectIdToSlot(MakeObjectId(slot, sub)) == slot
  {
    var id := ObjectIdBase + slot * IdsPerSlot + sub;
    assert id < 0x8000_0000;
    assert (id - ObjectIdBase) / IdsPerSlot == slot;
  }

  /** Slot 6 is a valid slot: its primary ship id is recognised. */
  lemma SlotSixRecognised()
    ensures ObjectIdToSlot(MakeShipId(6)) == 6
    ensures ObjectIdToSlot(ObjectIdBase + 7 * IdsPerSlot) == -1
  {
    SlotOfMadeId(6, 0);
  }

  // ---------------------------------------------------------------------
  // Reading fields at fixed offsets.

  /** flags & (1 << k) != 0. */
  predicate HasBit(flags: byte, k: nat)
  {
    Bit(flags, k)
  }

  // ---------------------------------------------------------------------
  // TorpedoFire.

  /** bc_torpedo_event_t: with no target the target id is 0 and no impact
    * point is read. */
  datatype TorpedoEvent = TorpedoEvent(shooter: i32, subsys: u8, flags: u8, vel: seq<byte>,
                                       hasTarget: bool, target: i32, impact: seq<byte>)

  /** [0x19][shooter i32][subsys][flags][velocity cv3], then with flags bit
    * 1 [target i32][impact cv4]. */
  function TorpedoFire(p: seq<byte>): (r: Option<TorpedoEvent>)
  {
    if |p| < 10 || p[0] != OpTorpedoFire then None
    else
      var has := HasBit(p[6], 1);
      if has && |p| < 19 then None
      else Some(TorpedoEvent(I32At(p, 1), p[5], p[6], p[7..10], has,
                             if has then I32At(p, 10) else 0, if has then p[14..19] else []))
  }

  /** The parse succeeds exactly for a TorpedoFire opcode and 10 bytes, 19
    * when flags bit 1 announces a target; has_target is that bit. */
  lemma TorpedoFireAccepts(p: seq<byte>)
    ensures TorpedoFire(p).Some? <==>
      |p| >= 10 && p[0] == OpTorpedoFire && (HasBit(p[6], 1) ==> |p| >= 19)
    ensures TorpedoFire(p).Some? ==> TorpedoFire(p).value.hasTarget == HasBit(p[6], 1)
  {
  }

  /** bc_parse_torpedo_fire. */
  method ParseTorpedoFire(payload: array<byte>, len: nat) returns (ok: bool, ev: TorpedoEvent)
    requires len <= payload.Length
    ensures ok <==> TorpedoFire(payload[..len]).Some?
    ensures ok ==> ev == TorpedoFire(payload[..len]).value
  {
    ev := TorpedoEvent(0, 0, 0, [], false, 0, []);
    ghost var p := payload[..len];
    var b := Reader.Open(payload, len);
    var good, opcode := GetU8(b, p);
    if !good || opcode != OpTorpedoFire {
      return false, ev;
    }
    var shooter: i32;
    good, shooter := GetI32(b, p);
    if !good {
      return false, ev;
    }
    var subsys, flags: u8;
    good, subsys := GetU8(b, p);
    if !good {
      return false, ev;
    }
    good, flags := GetU8(b, p);
    if !good {
      return false, ev;
    }
    var vel: seq<byte>;
    good, vel := GetBytes(b, p, Cv3Size);
    if !good {
      return false, ev;
    }
    var has := HasBit(flags, 1);
    var target: i32 := 0;
    var impact: seq<byte> := [];
    if has {
      good, target := GetI32(b, p);
      if !good {
        return false, ev;
      }
      good, impact := GetBytes(b, p, Cv4Size);
      if !good {
        return false, ev;
      }
    }
    ev := TorpedoEvent(shooter, subsys, flags, vel, has, target, impact);
    ok := true;
  }

  /** A built TorpedoFire parses back to what was built. */
  lemma TorpedoFireRoundTrip(shooter: i32, subsys: u8, vel: seq<byte>, hasTarget: bool,
                             target: i32, impact: seq<byte>)
    requires |vel| == Cv3Size && |impact| == Cv4Size
    ensures TorpedoFire(TorpedoFireBytes(shooter, subsys, vel, hasTarget, target, impact)) ==
      Some(TorpedoEvent(shooter, subsys, if hasTarget then 0x02 else 0x00, vel, hasTarget,
                        if hasTarget then target else 0, if hasTarget then impact else []))
  {
    var fl: byte := if hasTarget then 0x02 else 0x00;
    var p := TorpedoFireBytes(shooter, subsys, vel, hasTarget, target, impact);
    TorpedoFireImage(shooter, subsys, vel, hasTarget, target, impact);
    assert HasBit(fl, 1) == hasTarget;
    assert p[1..5] == LeI32(shooter);
    I32AtWindow(p, 1, shooter);
    assert p[7..10] == vel;
    if hasTarget {
      assert p[10..14] == LeI32(target);
      I32AtWindow(p, 10, target);
      assert p[14..19] == impact;
    }
  }

  // ---------------------------------------------------------------------
  // BeamFire.

  /** bc_beam_event_t: with no target the target id is 0. */
  datatype BeamEvent = BeamEvent(shooter: i32, flags: u8, dir: seq<byte>, moreFlags: u8,
                                 hasTarget: bool, target: i32)

  /** [0x1A][shooter i32][flags][direction cv3][more flags], then with
    * more-flags bit 0 [target i32]. */
  function BeamFire(p: seq<byte>): (r: Option<BeamEvent>)
  {
    if |p| < 10 || p[0] != OpBeamFire then None
    else
      var has := HasBit(p[9], 0);
      if has && |p| < 14 then None
      else Some(BeamEvent(I32At(p, 1), p[5], p[6..9], p[9], has, if has then I32At(p, 10) else 0))
  }

  /** The parse succeeds exactly for a BeamFire opcode and 10 bytes, 14
    * when more-flags bit 0 announces a target. */
  lemma BeamFireAccepts(p: seq<byte>)
    ensures BeamFire(p).Some? <==>
      |p| >= 10 && p[0] == OpBeamFire && (HasBit(p[9], 0) ==> |p| >= 14)
    ensures BeamFire(p).Some? ==> BeamFire(p).value.hasTarget == HasBit(p[9], 0)
  {
  }

  /** bc_parse_beam_fire. */
  method ParseBeamFire(payload: array<byte>, len: nat) returns (ok: bool, ev: BeamEvent)
    requires len <= payload.Length
    ensures ok <==> BeamFire(payload[..len]).Some?
    ensures ok ==> ev == BeamFire(payload[..len]).value
  {
    ev := BeamEvent(0, 0, [], 0, false, 0);
    ghost var p := payload[..len];
    var b := Reader.Open(payload, len);
    var good, opcode := GetU8(b, p);
    if !good || opcode != OpBeamFire {
      return false, ev;
    }
    var shooter: i32;
    good, shooter := GetI32(b, p);
    if !good {
      return false, ev;
    }
    var flags: u8;
    good, flags := GetU8(b, p);
    if !good {
      return false, ev;
    }
    var dir: seq<byte>;
    good, dir := GetBytes(b, p, Cv3Size);
    if !good {
      return false, ev;
    }
    var more: u8;
    good, more := GetU8(b, p);
    if !good {
      return false, ev;
    }
    var has := HasBit(more, 0);
    var target: i32 := 0;
    if has {
      good, target := GetI32(b, p);
      if !good {
        return false, ev;
      }
    }
    ev := BeamEvent(shooter, flags, dir, more, has, target);
    ok := true;
  }

  /** A built BeamFire parses back to what was built. */
  lemma BeamFireRoundTrip(shooter: i32, flags: u8, dir: seq<byte>, hasTarget: bool, target: i32)
    requires |dir| == Cv3Size
    ensures BeamFire(BeamFireBytes(shooter, flags, dir, hasTarget, target)) ==
      Some(BeamEvent(shooter, flags, dir, if hasTarget then 0x01 else 0x00, hasTarget,
                     if hasTarget then target else 0))
  {
    var mf: byte := if hasTarget then 0x01 else 0x00;
    var p := BeamFireBytes(shooter, flags, dir, hasTarget, target);
    BeamFireImage(shooter, flags, dir, hasTarget, target);
    assert HasBit(mf, 0) == hasTarget;
    assert p[1..5] == LeI32(shooter);
    I32AtWindow(p, 1, shooter);
    assert p[6..9] == dir;
    if hasTarget {
      assert p[10..14] == LeI32(target);
      I32AtWindow(p, 10, target);
    }
  }

  // ---------------------------------------------------------------------
  // Explosion and DestroyObject.

  datatype ExplosionEvent = ExplosionEvent(obj: i32, impact: seq<byte>, damage: seq<byte>, radius: seq<byte>)

  /** [0x29][object i32][impact cv4][damage cf16][radius cf16]. */
  function Explosion(p: seq<byte>): (r: Option<ExplosionEvent>)
    ensures r.Some? <==> |p| >= 14 && p[0] == OpExplosion
  {
    if |p| < 14 || p[0] != OpExplosion then None
    else Some(ExplosionEvent(I32At(p, 1), p[5..10], p[10..12], p[12..14]))
  }

  /** bc_parse_explosion. */
  method ParseExplosion(payload: array<byte>, len: nat) returns (ok: bool, ev: ExplosionEvent)
    requires len <= payload.Length
    ensures ok <==> Explosion(payload[..len]).Some?
    ensures ok ==> ev == Explosion(payload[..len]).value
  {
    ev := ExplosionEvent(0, [], [], []);
    ghost var p := payload[..len];
    var b := Reader.Open(payload, len);
    var good, opcode := GetU8(b, p);
    if !good || opcode != OpExplosion {
      return false, ev;
    }
    var obj: i32;
    good, obj := GetI32(b, p);
    if !good {
      return false, ev;
    }
    var impact, damage, radius: seq<byte>;
    good, impact := GetBytes(b, p, Cv4Size);
    if !good {
      return false, ev;
    }
    good, damage := GetBytes(b, p, Cf16Size);
    if !good {
      return false, ev;
    }
    good, radius := GetBytes(b, p, Cf16Size);
    if !good {
      return false, ev;
    }
    ev := ExplosionEvent(obj, impact, damage, radius);
    ok := true;
  }

  /** A built Explosion parses back to what was built. */
  lemma ExplosionRoundTrip(obj: i32, impact: seq<byte>, damage: seq<byte>, radius: seq<byte>)
    requires |impact| == Cv4Size && |damage| == Cf16Size && |radius| == Cf16Size
    ensures Explosion(Image(ExplosionOps(obj, impact, damage, radius))) ==
      Some(ExplosionEvent(obj, impact, damage, radius))
  {
    ExplosionImage(obj, impact, damage, radius);
    var p := [OpExplosion] + LeI32(obj) + impact + damage + radius;
    assert p[1..5] == LeI32(obj);
    I32AtWindow(p, 1, obj);
    assert p[5..10] == impact && p[10..12] == damage && p[12..14] == radius;
  }

  /** [0x14][object i32]. */
  function DestroyObj(p: seq<byte>): (r: Option<i32>)
    ensures r.Some? <==> |p| >= 5 && p[0] == OpDestroyObj
  {
    if |p| < 5 || p[0] != OpDestroyObj then None else Some(I32At(p, 1))
  }

  /** bc_parse_destroy_obj. */
  method ParseDestroyObj(payload: array<byte>, len: nat) returns (ok: bool, obj: i32)
    requires len <= payload.Length
    ensures ok <==> DestroyObj(payload[..len]).Some?
    ensures ok ==> obj == DestroyObj(payload[..len]).value
  {
    ghost var p := payload[..len];
    var b := Reader.Open(payload, len);
    var good, opcode := GetU8(b, p);
    if !good || opcode != OpDestroyObj {
      return false, 0;
    }
    good, obj := GetI32(b, p);
    if !good {
      return false, 0;
    }
    ok := true;
  }

  /** A built DestroyObject parses back to its object id. */
  lemma DestroyObjRoundTrip(obj: i32)
    ensures DestroyObj(Image(DestroyObjOps(obj))) == Some(obj)
  {
    DestroyObjImage(obj);
    var p := [OpDestroyObj] + LeI32(obj);
    assert p[1..5] == LeI32(obj);
    I32AtWindow(p, 1, obj);
  }

  // ---------------------------------------------------------------------
  // ObjectCreate / ObjectCreateTeam header.

  /** bc_object_create_header_t: the team is 0 unless has_team. */
  datatype CreateHeader = CreateHeader(tag: u8, owner: u8, team: u8, hasTeam: bool)

  /** [tag 2 or 3][owner], and [team] when the tag is 3. */
  function ObjectCreateHeader(p: seq<byte>): (r: Option<CreateHeader>)
    ensures r.Some? <==> |p| >= 2 && (p[0] == OpObjCreate || (p[0] == OpObjCreateTeam && |p| >= 3))
    ensures r.Some? ==> (r.value.hasTeam <==> r.value.tag == OpObjCreateTeam)
  {
    if |p| < 1 || (p[0] != OpObjCreate && p[0] != OpObjCreateTeam) || |p| < 2 then None
    else if p[0] == OpObjCreateTeam then
      if |p| < 3 then None else Some(CreateHeader(p[0], p[1], p[2], true))
    else Some(CreateHeader(p[0], p[1], 0, false))
  }

  /** bc_parse_object_create_header. */
  method ParseObjectCreateHeader(payload: array<byte>, len: nat) returns (ok: bool, h: CreateHeader)
    requires len <= payload.Length
    ensures ok <==> ObjectCreateHeader(payload[..len]).Some?
    ensures ok ==> h == ObjectCreateHeader(payload[..len]).value
  {
    h := CreateHeader(0, 0, 0, false);
    ghost var p := payload[..len];
    var b := Reader.Open(payload, len);
    var good, tag := GetU8(b, p);
    if !good || (tag != OpObjCreate && tag != OpObjCreateTeam) {
      return false, h;
    }
    var owner: u8;
    good, owner := GetU8(b, p);
    if !good {
      return false, h;
    }
    if tag == OpObjCreateTeam {
      var team: u8;
      good, team := GetU8(b, p);
      if !good {
        return false, h;
      }
      h := CreateHeader(tag, owner, team, true);
    } else {
      h := CreateHeader(tag, owner, 0, false);
    }
    ok := true;
  }

  /** The header of a built ObjCreateTeam message reads back the owner and
    * the team. */
  lemma ObjectCreateTeamRoundTrip(owner: u8, team: u8, blob: seq<byte>)
    ensures ObjectCreateHeader(ObjectCreateTeamBytes(owner, team, blob)) ==
      Some(CreateHeader(OpObjCreateTeam, owner, team, true))
  {
  }

  // ---------------------------------------------------------------------
  // CollisionEffect.

  /** bc_collision_event_t, the force as its f32 bits. */
  datatype CollisionEvent = CollisionEvent(source: i32, target: i32, contactCount: u8, force: u32)

  /** [0x15][class i32][code i32][source i32][target i32][count][count
    * 4-byte contact points][force f32], at least 22 bytes. */
  function CollisionEffect(p: seq<byte>): (r: Option<CollisionEvent>)
  {
    if |p| < 22 || p[0] != OpCollisionEffect then None
    else
      var n: u8 := p[17];
      if 22 + 4 * (n as int) > |p| then None
      else Some(CollisionEvent(I32At(p, 9), I32At(p, 13), n, U32At(p, 18 + 4 * (n as int))))
  }

  /** The parse needs 22 bytes plus 4 per contact point. */
  lemma CollisionEffectAccepts(p: seq<byte>)
    ensures CollisionEffect(p).Some? <==>
      |p| >= 22 && p[0] == OpCollisionEffect && |p| >= 22 + 4 * (p[17] as int)
  {
  }

  /** Skip n bytes one bc_buf_read_u8 at a time, as the collision and ship
    * blob parsers do. */
  method SkipBytes(b: ByteBuffer.Buffer, ghost p: seq<byte>, n: nat) returns (ok: bool)
    requires Over(b, p)
    modifies b
    ensures Over(b, p)
    ensures ok <==> old(b.pos) + n <= |p|
    ensures ok ==> b.pos == old(b.pos) + n
  {
    ok := true;
    for i := 0 to n
      invariant Over(b, p) && b.pos == old(b.pos) + i
    {
      var skip: u8;
      ok, skip := GetU8(b, p);
      if !ok {
        return;
      }
    }
  }

  /** bc_parse_collision_effect: the contact points are skipped one byte
    * read at a time. */
  method ParseCollisionEffect(payload: array<byte>, len: nat) returns (ok: bool, ev: CollisionEvent)
    requires len <= payload.Length
    ensures ok <==> CollisionEffect(payload[..len]).Some?
    ensures ok ==> ev == CollisionEffect(payload[..len]).value
  {
    ev := CollisionEvent(0, 0, 0, 0);
    if len < 22 {
      return false, ev;
    }
    ghost var p := payload[..len];
    CollisionEffectAccepts(p);
    var b := Reader.Open(payload, len);
    var good, opcode := GetU8(b, p);
    if !good || opcode != OpCollisionEffect {
      return false, ev;
    }
    var source, target: i32;
    var count: u8;
    good, source, target, count := GetCollisionHead(b, p);
    if !good {
      return false, ev;
    }
    assert b.pos == 18 && p[17] == count;
    var points: int := count as int * 4;
    good := SkipBytes(b, p, points);
    if !good {
      return false, ev;
    }
    var force: u32;
    good, force := GetF32(b, p);
    if !good {
      return false, ev;
    }
    ev := CollisionEvent(source, target, count, force);
    ok := true;
  }

  /** The class id, the collision code, the source and target ids and the
    * contact count, in order; the first two are read and dropped. */
  method GetCollisionHead(b: ByteBuffer.Buffer, ghost p: seq<byte>)
    returns (ok: bool, source: i32, target: i32, count: u8)
    requires Over(b, p)
    modifies b
    ensures Over(b, p)
    ensures ok <==> old(b.pos) + 17 <= |p|
    ensures ok ==> b.pos == old(b.pos) + 17
    ensures ok ==> source == I32At(p, old(b.pos) + 8) && target == I32At(p, old(b.pos) + 12)
    ensures ok ==> count == p[old(b.pos) + 16]
  {
    source, target, count := 0, 0, 0;
    var classId, code: i32;
    ok, classId := GetI32(b, p);
    if !ok {
      return;
    }
    ok, code := GetI32(b, p);
    if !ok {
      return;
    }
    ok, source := GetI32(b, p);
    if !ok {
      return;
    }
    ok, target := GetI32(b, p);
    if !ok {
      return;
    }
    ok, count := GetU8(b, p);
  }

  // ---------------------------------------------------------------------
  // Ship blob header.

  /** bc_ship_blob_header_t: the species byte widened to u16, the position
    * as three f32 bit patterns. */
  datatype ShipBlobHeader = ShipBlobHeader(obj: i32, species: u16, x: u32, y: u32, z: u32)

  /** [prefix 4 bytes][object i32][species u8][x f32][y f32][z f32]. */
  function ShipBlob(p: seq<byte>): (r: Option<ShipBlobHeader>)
    ensures r.Some? <==> |p| >= 21
  {
    if |p| < 21 then None
    else Some(ShipBlobHeader(I32At(p, 4), p[8], U32At(p, 9), U32At(p, 13), U32At(p, 17)))
  }

  /** bc_parse_ship_blob_header: the prefix is skipped one byte read at a
    * time. */
  method ParseShipBlobHeader(blob: array<byte>, len: nat) returns (ok: bool, h: ShipBlobHeader)
    requires len <= blob.Length
    ensures ok <==> ShipBlob(blob[..len]).Some?
    ensures ok ==> h == ShipBlob(blob[..len]).value
  {
    h := ShipBlobHeader(0, 0, 0, 0, 0);
    ghost var p := blob[..len];
    var b := Reader.Open(blob, len);
    var good := SkipBytes(b, p, 4);
    if !good {
      return false, h;
    }
    var obj: i32;
    good, obj := GetI32(b, p);
    if !good {
      return false, h;
    }
    var species: u8;
    good, species := GetU8(b, p);
    if !good {
      return false, h;
    }
    var x, y, z: u32;
    good, x := GetF32(b, p);
    if !good {
      return false, h;
    }
    good, y := GetF32(b, p);
    if !good {
      return false, h;
    }
    good, z := GetF32(b, p);
    if !good {
      return false, h;
    }
    h := ShipBlobHeader(obj, species, x, y, z);
    ok := true;
  }

  // ---------------------------------------------------------------------
  // StateUpdate.

  /** bc_state_update_t: the fields whose dirty bit is clear are None (the
    * C struct leaves them zero). The delta position is read and dropped. */
  datatype StateUpdateEvent = StateUpdateEvent(obj: i32, gameTime: u32, dirty: u8,
                                               pos: Option<(u32, u32, u32)>, fwd: Option<seq<byte>>,
                                               up: Option<seq<byte>>, speed: Option<seq<byte>>)

  /** The bytes a dirty mask's fields take: 12 for the absolute position,
    * 5 for the delta, 3 each for the two orientation vectors, 2 for the
    * speed; bits 0x20, 0x40 and 0x80 are not read. */
  function FieldBytes(dirty: byte): (n: nat)
    ensures n <= 25
  {
    (if HasBit(dirty, 0) then 12 else 0) + (if HasBit(dirty, 1) then 5 else 0)
    + (if HasBit(dirty, 2) then 3 else 0) + (if HasBit(dirty, 3) then 3 else 0)
    + (if HasBit(dirty, 4) then 2 else 0)
  }

  /** The optional fields of a state update: position, forward, up, speed. */
  type StateFieldValues = (Option<(u32, u32, u32)>, Option<seq<byte>>, Option<seq<byte>>, Option<seq<byte>>)

  /** The bytes the orientation and speed fields take. */
  function LaterBytes(d: byte): (n: nat)
  {
    (if HasBit(d, 2) then 3 else 0) + (if HasBit(d, 3) then 3 else 0) + (if HasBit(d, 4) then 2 else 0)
  }

  /** The fields after the 10 header bytes, in bit order, for the set bits
    * of dirty: the position as three u32 bit patterns, the delta (skipped),
    * then the later fields; None when the payload is too short for them. */
  function StateFields(p: seq<byte>, d: byte): (r: Option<StateFieldValues>)
    requires |p| >= 10
    ensures r.Some? <==> 10 + FieldBytes(d) <= |p|
  {
    var o3 := 10 + (if HasBit(d, 0) then 12 else 0) + (if HasBit(d, 1) then 5 else 0);
    if o3 > |p| then None
    else
      match LaterFields(p, o3, d)
      case None => None
      case Some((fwd, up, speed)) =>
        Some((if HasBit(d, 0) then Some((U32At(p, 10), U32At(p, 14), U32At(p, 18))) else None, fwd, up, speed))
  }

  /** The forward and up vectors and the speed, from offset o3 on. */
  function LaterFields(p: seq<byte>, o3: nat, d: byte): (r: Option<(Option<seq<byte>>, Option<seq<byte>>, Option<seq<byte>>)>)
    ensures r.Some? <==> o3 + LaterBytes(d) <= |p|
  {
    var o4 := o3 + (if HasBit(d, 2) then 3 else 0);
    var o5 := o4 + (if HasBit(d, 3) then 3 else 0);
    var end := o5 + (if HasBit(d, 4) then 2 else 0);
    if end > |p| then None
    else Some((if HasBit(d, 2) then Some(p[o3..o3 + 3]) else None,
               if HasBit(d, 3) then Some(p[o4..o4 + 3]) else None,
               if HasBit(d, 4) then Some(p[o5..o5 + 2]) else None))
  }

  /** [0x1C][object i32][game time f32][dirty], then the fields of the set
    * bits in bit order. */
  function StateUpdate(p: seq<byte>): (r: Option<StateUpdateEvent>)
  {
    if |p| < 10 || p[0] != OpStateUpdate then None
    else
      match StateFields(p, p[9])
      case None => None
      case Some((pos, fwd, up, speed)) =>
        Some(StateUpdateEvent(I32At(p, 1), U32At(p, 5), p[9], pos, fwd, up, speed))
  }

  /** The parse needs the 10 header bytes plus the bytes of the fields the
    * dirty mask announces. */
  lemma StateUpdateAccepts(p: seq<byte>)
    ensures StateUpdate(p).Some? <==>
      |p| >= 10 && p[0] == OpStateUpdate && |p| >= 10 + FieldBytes(p[9])
  {
  }

  /** A built StateUpdate parses exactly when its field data covers the
    * fields its dirty mask announces, and gives back the object, the game
    * time and the mask. */
  lemma StateUpdateRoundTrip(obj: i32, gameTime: u32, dirty: u8, fields: seq<byte>)
    ensures StateUpdate(StateUpdateBytes(obj, gameTime, dirty, fields)).Some? <==> |fields| >= FieldBytes(dirty)
    ensures StateUpdate(StateUpdateBytes(obj, gameTime, dirty, fields)).Some? ==>
      var e := StateUpdate(StateUpdateBytes(obj, gameTime, dirty, fields)).value;
      e.obj == obj && e.gameTime == gameTime && e.dirty == dirty
  {
    var p := StateUpdateBytes(obj, gameTime, dirty, fields);
    StateUpdateImage(obj, gameTime, dirty, fields);
    assert p[1..5] == LeI32(obj);
    I32AtWindow(p, 1, obj);
    assert p[5..9] == LeU32(gameTime);
    U32AtWindow(p, 5, gameTime);
    StateUpdateAccepts(p);
  }

  /** One optional field of a state update: read n bytes when present,
    * nothing otherwise. */
  method GetField(b: ByteBuffer.Buffer, ghost p: seq<byte>, present: bool, n: nat)
    returns (ok: bool, v: Option<seq<byte>>)
    requires Over(b, p)
    modifies b
    ensures Over(b, p)
    ensures ok <==> old(b.pos) + (if present then n else 0) <= |p|
    ensures ok ==> b.pos == old(b.pos) + (if present then n else 0)
    ensures ok ==> v == if present then Some(p[old(b.pos)..old(b.pos) + n]) else None
  {
    v := None;
    ok := true;
    if present {
      var bytes: seq<byte>;
      ok, bytes := GetBytes(b, p, n);
      v := Some(bytes);
    }
  }

  /** The position field of a state update: three f32 when present. */
  method GetPosition(b: ByteBuffer.Buffer, ghost p: seq<byte>, present: bool)
    returns (ok: bool, v: Option<(u32, u32, u32)>)
    requires Over(b, p)
    modifies b
    ensures Over(b, p)
    ensures ok <==> old(b.pos) + (if present then 12 else 0) <= |p|
    ensures ok ==> b.pos == old(b.pos) + (if present then 12 else 0)
    ensures ok && present ==>
      v == Some((U32At(p, old(b.pos)), U32At(p, old(b.pos) + 4), U32At(p, old(b.pos) + 8)))
    ensures ok && !present ==> v == None
  {
    v := None;
    ok := true;
    if present {
      var x, y, z: u32;
      ok, x := GetF32(b, p);
      if ok {
        ok, y := GetF32(b, p);
        if ok {
          ok, z := GetF32(b, p);
          v := Some((x, y, z));
        }
      }
    }
  }

  /** The field data of a state update, read from just after the header
    * of a payload whose header is already known good. */
  method GetStateFields(b: ByteBuffer.Buffer, ghost p: seq<byte>, dirty: u8)
    returns (ok: bool, pos: Option<(u32, u32, u32)>, fwd: Option<seq<byte>>,
             up: Option<seq<byte>>, speed: Option<seq<byte>>)
    requires Over(b, p) && b.pos == 10 <= |p|
    modifies b
    ensures ok <==> StateFields(p, dirty).Some?
    ensures ok ==> StateFields(p, dirty).value == (pos, fwd, up, speed)
  {
    fwd, up, speed := None, None, None;
    var delta: Option<seq<byte>>;
    ok, pos := GetPosition(b, p, HasBit(dirty, 0));
    if ok {
      ok, delta := GetField(b, p, HasBit(dirty, 1), Cv4Size);
    }
    if ok {
      ok, fwd, up, speed := GetLaterFields(b, p, dirty);
    }
  }

  /** The forward and up vectors and the speed, read from the cursor. */
  method GetLaterFields(b: ByteBuffer.Buffer, ghost p: seq<byte>, dirty: u8)
    returns (ok: bool, fwd: Option<seq<byte>>, up: Option<seq<byte>>, speed: Option<seq<byte>>)
    requires Over(b, p)
    modifies b
    ensures ok <==> LaterFields(p, old(b.pos), dirty).Some?
    ensures ok ==> LaterFields(p, old(b.pos), dirty).value == (fwd, up, speed)
  {
    up, speed := None, None;
    ok, fwd := GetField(b, p, HasBit(dirty, 2), Cv3Size);
    if ok {
      ok, up := GetField(b, p, HasBit(dirty, 3), Cv3Size);
    }
    if ok {
      ok, speed := GetField(b, p, HasBit(dirty, 4), Cf16Size);
    }
  }

  /** bc_parse_state_update. */
  method ParseStateUpdate(payload: array<byte>, len: nat) returns (ok: bool, ev: StateUpdateEvent)
    requires len <= payload.Length
    ensures ok <==> StateUpdate(payload[..len]).Some?
    ensures ok ==> ev == StateUpdate(payload[..len]).value
  {
    ev := StateUpdateEvent(0, 0, 0, None, None, None, None);
    ghost var p := payload[..len];
    var b := Reader.Open(payload, len);
    var good, opcode := GetU8(b, p);
    if !good || opcode != OpStateUpdate {
      return false, ev;
    }
    var obj: i32;
    good, obj := GetI32(b, p);
    if !good {
      return false, ev;
    }
    var gameTime: u32;
    good, gameTime := GetF32(b, p);
    if !good {
      return false, ev;
    }
    var dirty: u8;
    good, dirty := GetU8(b, p);
    if !good {
      return false, ev;
    }
    var pos: Option<(u32, u32, u32)>;
    var fwd, up, speed: Option<seq<byte>>;
    ok, pos, fwd, up, speed := GetStateFields(b, p, dirty);
    if ok {
      ev := StateUpdateEvent(obj, gameTime, dirty, pos, fwd, up, speed);
    }
  }

  // ---------------------------------------------------------------------
  // Chat.

  /** bc_chat_event_t: the message without its NUL; message_len is its
    * length. */
  datatype ChatEvent = ChatEvent(sender: u8, message: seq<byte>)

  /** [0x2C or 0x2D][sender][3 pad bytes][length u16][text]: the text is
    * cut to 255 bytes and to what the payload holds. */
  function ChatMessage(p: seq<byte>): (r: Option<ChatEvent>)
    ensures r.Some? <==> |p| >= 7 && (p[0] == MsgChat || p[0] == MsgTeamChat)
    ensures r.Some? ==> |r.value.message| <= 255 && |r.value.message| <= U16At(p, 5)
  {
    if |p| < 7 || (p[0] != MsgChat && p[0] != MsgTeamChat) then None
    else
      var n := Min(Min(U16At(p, 5), 255), |p| - 7);
      Some(ChatEvent(p[1], p[7..7 + n]))
  }

  function Min(a: int, b: int): int
  {
    if a < b then a else b
  }

  /** bc_parse_chat_message. */
  method ParseChatMessage(payload: array<byte>, len: nat) returns (ok: bool, ev: ChatEvent)
    requires len <= payload.Length
    ensures ok <==> ChatMessage(payload[..len]).Some?
    ensures ok ==> ev == ChatMessage(payload[..len]).value
  {
    ev := ChatEvent(0, []);
    ghost var p := payload[..len];
    var b := Reader.Open(payload, len);
    var good, opcode := GetU8(b, p);
    if !good || (opcode != MsgChat && opcode != MsgTeamChat) {
      return false, ev;
    }
    var sender: u8;
    good, sender := GetU8(b, p);
    if !good {
      return false, ev;
    }
    var pad: seq<byte>;
    good, pad := GetBytes(b, p, 3);
    if !good {
      return false, ev;
    }
    var strLen: u16;
    good, strLen := GetU16(b, p);
    if !good {
      return false, ev;
    }
    var copyLen := strLen;
    if copyLen > 255 {
      copyLen := 255;
    }
    if copyLen > b.Remaining() {
      copyLen := b.Remaining();
    }
    var message: seq<byte> := [];
    if copyLen > 0 {
      good, message := GetBytes(b, p, copyLen);
    }
    assert message == p[7..7 + copyLen];
    ev := ChatEvent(sender, message);
    ok := true;
  }

  /** A built chat message parses back to its sender and text, the text cut
    * to 255 bytes. */
  lemma ChatRoundTrip(sender: u8, team: bool, message: seq<byte>)
    requires |message| < 0x1_0000
    ensures ChatMessage(ChatBytes(sender, team, message)) ==
      Some(ChatEvent(sender, message[..Min(|message|, 255)]))
  {
    var p := ChatBytes(sender, team, message);
    ChatImage(sender, team, message);
    var pre := [if team then MsgTeamChat else MsgChat, sender, 0, 0, 0];
    assert p == pre + LeU16(|message|) + message;
    U16RoundTrip(|message|, pre, message);
    var n := Min(|message|, 255);
    assert p[7..7 + n] == message[..n];
  }
}
