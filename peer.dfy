/** The peer slot table of peer.c: seven slots, each empty or holding a
  * client in some stage of its session, and a count of the occupied slots. */
module Peer {
  import opened Bytes

  /** BC_MAX_PLAYERS. */
  const MaxPeers := 7

  datatype PeerState = Empty | Connecting | Checksumming | ChecksummingFinal | Lobby | InGame

  /** An IPv4 address and port, both as stored (network byte order). */
  datatype Addr = Addr(ip: u32, port: u16)

  /** The slot fields these operations set: the session state, the address,
    * the last receive time, the ship object id and class index (-1 for
    * none), and the outbox cursor and message count. */
  datatype Slot = Slot(state: PeerState, addr: Addr, lastRecv: u32, objectId: i32,
                       classIndex: int, outboxPos: int, outboxCount: int)

  /** A slot zeroed, then given no ship: as init and remove leave it. */
  const Blank := Slot(Empty, Addr(0, 0), 0, -1, -1, 0, 0)

  /** A slot as add fills it: connecting, with the address and a fresh outbox
    * whose cursor sits past the two header bytes. */
  function Joined(addr: Addr): Slot
  {
    Slot(Connecting, addr, 0, -1, -1, 2, 0)
  }

  /** One for an occupied slot, zero for an empty one. */
  function Flag(p: Slot): nat
  {
    if p.state != Empty then 1 else 0
  }

  /** The number of occupied slots. */
  function Occupied(ps: seq<Slot>): (n: nat)
    ensures n <= |ps|
  {
    if ps == [] then 0 else Flag(ps[0]) + Occupied(ps[1..])
  }

  /** Whether occupied slot p holds the address (bc_addr_equal: ip and port). */
  predicate Holds(p: Slot, addr: Addr)
  {
    p.state != Empty && p.addr == addr
  }

  /** bc_peers_find on the slot table. */
  function FindSpec(ps: seq<Slot>, addr: Addr): (r: Option<nat>)
    ensures r.Some? ==> r.value < |ps| && Holds(ps[r.value], addr)
    ensures r.Some? ==> forall j :: 0 <= j < r.value ==> !Holds(ps[j], addr)
    ensures r.None? <==> forall j :: 0 <= j < |ps| ==> !Holds(ps[j], addr)
  {
    if ps == [] then None
    else if Holds(ps[0], addr) then Some(0)
    else match FindSpec(ps[1..], addr)
      case None => None
      case Some(k) => Some(k + 1)
  }

  /** The lowest empty slot. */
  function FirstEmpty(ps: seq<Slot>): (r: Option<nat>)
    ensures r.Some? ==> r.value < |ps| && ps[r.value].state == Empty
    ensures r.Some? ==> forall j :: 0 <= j < r.value ==> ps[j].state != Empty
    ensures r.None? <==> forall j :: 0 <= j < |ps| ==> ps[j].state != Empty
  {
    if ps == [] then None
    else if ps[0].state == Empty then Some(0)
    else match FirstEmpty(ps[1..])
      case None => None
      case Some(k) => Some(k + 1)
  }

  /** bc_peers_add on the slot table: the slot taken, or -1 when full. */
  function AddSpec(ps: seq<Slot>, addr: Addr): (int, seq<Slot>)
  {
    match FirstEmpty(ps)
    case None => (-1, ps)
    case Some(i) => (i as int, ps[i := Joined(addr)])
  }

  /** bc_peers_remove on the slot table. */
  function RemoveSpec(ps: seq<Slot>, slot: int): seq<Slot>
  {
    if slot < 0 || slot >= |ps| || ps[slot].state == Empty then ps
    else ps[slot := Blank]
  }

  /** Whether an occupied slot has been silent for longer than the timeout,
    * measured as an unsigned 32-bit difference. */
  predicate Expired(p: Slot, now: u32, timeout: u32)
  {
    p.state != Empty && (now - p.lastRecv) % 0x1_0000_0000 > timeout
  }

  /** bc_peers_timeout on the slot table: every expired slot cleared. */
  function Swept(ps: seq<Slot>, now: u32, timeout: u32): seq<Slot>
  {
    if ps == [] then []
    else [if Expired(ps[0], now, timeout) then Blank else ps[0]] + Swept(ps[1..], now, timeout)
  }

  /** The number of expired slots. */
  function ExpiredCount(ps: seq<Slot>, now: u32, timeout: u32): (n: nat)
    ensures n <= Occupied(ps)
  {
    if ps == [] then 0
    else (if Expired(ps[0], now, timeout) then 1 else 0) + ExpiredCount(ps[1..], now, timeout)
  }

  // ---------------------------------------------------------------------
  // Properties of the slot-table operations

  /** Replacing one slot moves the occupied count by the change in that
    * slot's flag. */
  lemma {:induction false} OccupiedUpdate(ps: seq<Slot>, i: nat, p: Slot)
    requires i < |ps|
    ensures Occupied(ps[i := p]) + Flag(ps[i]) == Occupied(ps) + Flag(p)
  {
    if i == 0 {
      assert ps[i := p][1..] == ps[1..];
    } else {
      assert ps[i := p][1..] == ps[1..][i - 1 := p];
      OccupiedUpdate(ps[1..], i - 1, p);
    }
  }

  /** The table is full exactly when every slot is occupied. */
  lemma {:induction false} FullIff(ps: seq<Slot>)
    ensures FirstEmpty(ps).None? <==> Occupied(ps) == |ps|
  {
    if ps != [] {
      FullIff(ps[1..]);
    }
  }

  /** A table of blank slots has no occupied slot. */
  lemma {:induction false} BlankCount(n: nat)
    ensures Occupied(seq(n, _ => Blank)) == 0
  {
    if n > 0 {
      assert seq(n, _ => Blank)[1..] == seq(n - 1, _ => Blank);
      BlankCount(n - 1);
    }
  }

  /** add fails exactly when every slot is occupied; otherwise it occupies
    * one more slot, the lowest empty one, and changes no other. */
  lemma AddCount(ps: seq<Slot>, addr: Addr)
    ensures AddSpec(ps, addr).0 == -1 <==> Occupied(ps) == |ps|
    ensures AddSpec(ps, addr).0 != -1 ==> Occupied(AddSpec(ps, addr).1) == Occupied(ps) + 1
    ensures AddSpec(ps, addr).0 == -1 ==> AddSpec(ps, addr).1 == ps
  {
    FullIff(ps);
    if FirstEmpty(ps).Some? {
      OccupiedUpdate(ps, FirstEmpty(ps).value, Joined(addr));
    }
  }

  /** remove of an occupied slot in range frees it; anything else changes
    * nothing. */
  lemma RemoveCount(ps: seq<Slot>, slot: int)
    ensures 0 <= slot < |ps| && ps[slot].state != Empty ==>
      RemoveSpec(ps, slot)[slot] == Blank && Occupied(RemoveSpec(ps, slot)) + 1 == Occupied(ps)
    ensures !(0 <= slot < |ps| && ps[slot].state != Empty) ==> RemoveSpec(ps, slot) == ps
  {
    if 0 <= slot < |ps| && ps[slot].state != Empty {
      OccupiedUpdate(ps, slot, Blank);
    }
  }

  /** A newly added address that was not already present is found at the
    * slot add chose. */
  lemma AddThenFind(ps: seq<Slot>, addr: Addr)
    requires AddSpec(ps, addr).0 != -1 && FindSpec(ps, addr).None?
    ensures FindSpec(AddSpec(ps, addr).1, addr) == Some(AddSpec(ps, addr).0 as nat)
  {
    var i := FirstEmpty(ps).value;
    var ps' := ps[i := Joined(addr)];
    assert AddSpec(ps, addr) == (i as int, ps');
    assert Holds(ps'[i], addr);
    assert forall j :: 0 <= j < i ==> ps'[j] == ps[j];
  }

  /** Once the only slot holding an address is removed, the address is no
    * longer found. */
  lemma RemoveThenFind(ps: seq<Slot>, addr: Addr)
    requires FindSpec(ps, addr).Some?
    requires forall j :: 0 <= j < |ps| && Holds(ps[j], addr) ==> j == FindSpec(ps, addr).value
    ensures FindSpec(RemoveSpec(ps, FindSpec(ps, addr).value), addr).None?
  {
    var i := FindSpec(ps, addr).value;
    var ps' := ps[i := Blank];
    assert RemoveSpec(ps, i) == ps';
    assert forall j :: 0 <= j < |ps'| ==> !Holds(ps'[j], addr) by {
      forall j | 0 <= j < |ps'|
        ensures !Holds(ps'[j], addr)
      {
        if j != i {
          assert ps'[j] == ps[j];
        }
      }
    }
  }

  /** The timeout sweep clears exactly the expired slots, leaves every other
    * slot as it was, and frees as many slots as it counts. */
  lemma {:induction false} SweptFacts(ps: seq<Slot>, now: u32, timeout: u32)
    ensures |Swept(ps, now, timeout)| == |ps|
    ensures forall j :: 0 <= j < |ps| ==>
      Swept(ps, now, timeout)[j] == if Expired(ps[j], now, timeout) then Blank else ps[j]
    ensures Occupied(Swept(ps, now, timeout)) + ExpiredCount(ps, now, timeout) == Occupied(ps)
  {
    if ps != [] {
      SweptFacts(ps[1..], now, timeout);
      var s := Swept(ps, now, timeout);
      assert s[1..] == Swept(ps[1..], now, timeout);
    }
  }

  /** After the sweep no slot is expired. */
  lemma SweptClean(ps: seq<Slot>, now: u32, timeout: u32)
    ensures forall j :: 0 <= j < |Swept(ps, now, timeout)| ==> !Expired(Swept(ps, now, timeout)[j], now, timeout)
  {
    SweptFacts(ps, now, timeout);
  }

  /** The sweep of a prefix extended by one slot. */
  lemma {:induction false} SweptSnoc(ps: seq<Slot>, p: Slot, now: u32, timeout: u32)
    ensures Swept(ps + [p], now, timeout) == Swept(ps, now, timeout) + Swept([p], now, timeout)
    ensures ExpiredCount(ps + [p], now, timeout) == ExpiredCount(ps, now, timeout) + ExpiredCount([p], now, timeout)
  {
    if ps != [] {
      assert (ps + [p])[1..] == ps[1..] + [p];
      SweptSnoc(ps[1..], p, now, timeout);
    }
  }

  /** One step of the sweep loop: slot i is cleared if it has expired, and
    * the count of removals grows by one exactly then. */
  lemma SweepStep(ps: seq<Slot>, i: nat, now: u32, timeout: u32)
    requires i < |ps|
    ensures var cur := Swept(ps[..i], now, timeout) + ps[i..];
      && |cur| == |ps| && cur[i] == ps[i]
      && Swept(ps[..i + 1], now, timeout) + ps[i + 1..]
         == cur[i := if Expired(ps[i], now, timeout) then Blank else ps[i]]
    ensures ExpiredCount(ps[..i + 1], now, timeout)
         == ExpiredCount(ps[..i], now, timeout) + (if Expired(ps[i], now, timeout) then 1 else 0)
  {
    assert ps[..i + 1] == ps[..i] + [ps[i]];
    SweptSnoc(ps[..i], ps[i], now, timeout);
    SweptFacts(ps[..i], now, timeout);
    assert ps[i..] == [ps[i]] + ps[i + 1..];
  }

  // ---------------------------------------------------------------------
  // The peer manager object

  class Manager {
    var peers: seq<Slot>
    var count: int

    /** Seven slots and count = occupied slots. */
    ghost predicate Valid()
      reads this
    {
      |peers| == MaxPeers && count == Occupied(peers)
    }

    /** bc_peers_init. */
    constructor ()
      ensures Valid() && peers == seq(MaxPeers, _ => Blank) && count == 0
    {
      peers := seq(MaxPeers, _ => Blank);
      count := 0;
      new;
      BlankCount(MaxPeers);
    }

    /** bc_peers_find. */
    method Find(addr: Addr) returns (index: int)
      requires Valid()
      ensures index == -1 <==> forall j :: 0 <= j < |peers| ==> !Holds(peers[j], addr)
      ensures index != -1 ==> 0 <= index < |peers| && Holds(peers[index], addr)
      ensures index != -1 ==> forall j :: 0 <= j < index ==> !Holds(peers[j], addr)
      ensures FindSpec(peers, addr) == if index == -1 then None else Some(index)
    {
      var i := 0;
      while i < MaxPeers
        invariant 0 <= i <= MaxPeers
        invariant forall j :: 0 <= j < i ==> !Holds(peers[j], addr)
      {
        if peers[i].state != Empty && peers[i].addr == addr {
          return i;
        }
        i := i + 1;
      }
      return -1;
    }

    /** bc_peers_add. */
    method Add(addr: Addr) returns (index: int)
      requires Valid()
      modifies this
      ensures Valid()
      ensures (index, peers) == AddSpec(old(peers), addr)
    {
      var i := 0;
      while i < MaxPeers
        invariant 0 <= i <= MaxPeers && peers == old(peers) && count == old(count)
        invariant forall j :: 0 <= j < i ==> peers[j].state != Empty
      {
        if peers[i].state == Empty {
          assert FirstEmpty(peers) == Some(i);
          AddCount(peers, addr);
          peers := peers[i := Joined(addr)];
          count := count + 1;
          return i;
        }
        i := i + 1;
      }
      return -1;
    }

    /** bc_peers_remove. */
    method Remove(slot: int)
      requires Valid()
      modifies this
      ensures Valid()
      ensures peers == RemoveSpec(old(peers), slot)
    {
      if slot < 0 || slot >= MaxPeers {
        return;
      }
      if peers[slot].state == Empty {
        return;
      }
      RemoveCount(peers, slot);
      peers := peers[slot := Blank];
      count := count - 1;
    }

    /** bc_peers_timeout. */
    method Timeout(now: u32, timeout: u32) returns (removed: int)
      requires Valid()
      modifies this
      ensures Valid()
      ensures peers == Swept(old(peers), now, timeout)
      ensures removed == ExpiredCount(old(peers), now, timeout)
    {
      removed := 0;
      var i := 0;
      while i < MaxPeers
        invariant 0 <= i <= MaxPeers && Valid()
        invariant peers == Swept(old(peers)[..i], now, timeout) + old(peers)[i..]
        invariant removed == ExpiredCount(old(peers)[..i], now, timeout)
      {
        SweepStep(old(peers), i, now, timeout);
        if peers[i].state != Empty && (now - peers[i].lastRecv) % 0x1_0000_0000 > timeout {
          Remove(i);
          removed := removed + 1;
        }
        i := i + 1;
      }
      assert old(peers)[..i] == old(peers) && old(peers)[i..] == [];
    }
  }
}
