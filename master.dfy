/** The master-server list: the masters the server heartbeats to, which of
  * them have answered, and the heartbeat texts it sends them. Name
  * resolution and the sends themselves are left to the caller: Add takes
  * the resolved address (or None when resolution failed), and the sending
  * operations return the indices of the entries they send to. */
module Master {
  import opened Bytes
  import Decimal
  import GameSpy

  /** Sixty seconds between heartbeats. */
  const HeartbeatInterval: nat := 60000

  datatype Addr = Addr(ip: u32, port: u16)

  datatype MasterEntry = MasterEntry(
    hostname: string,
    addr: Addr,
    enabled: bool,
    verified: bool,
    lastBeat: u32,
    statusChecks: nat)

  /** A datagram from ip comes from this master: masters are matched by
    * address only, since they may answer from another port. */
  predicate Matches(e: MasterEntry, ip: u32)
  {
    e.enabled && e.addr.ip == ip
  }

  predicate FromMaster(es: seq<MasterEntry>, ip: u32)
  {
    exists k :: 0 <= k < |es| && Matches(es[k], ip)
  }

  /** The first entry from index i on that matches ip. */
  function FirstMatchFrom(es: seq<MasterEntry>, ip: u32, i: nat): (r: Option<nat>)
    requires i <= |es|
    ensures r.Some? ==> i <= r.value < |es| && Matches(es[r.value], ip)
    ensures forall k :: i <= k < (if r.Some? then r.value else |es|) ==> !Matches(es[k], ip)
    decreases |es| - i
  {
    if i == |es| then None
    else if Matches(es[i], ip) then Some(i)
    else FirstMatchFrom(es, ip, i + 1)
  }

  function FirstMatch(es: seq<MasterEntry>, ip: u32): (r: Option<nat>)
    ensures r.Some? <==> FromMaster(es, ip)
    ensures r.Some? ==> r.value < |es| && Matches(es[r.value], ip)
    ensures r.Some? ==> forall k :: 0 <= k < r.value ==> !Matches(es[k], ip)
  {
    FirstMatchFrom(es, ip, 0)
  }

  /** mark_verified on a list: the first matching entry becomes verified;
    * its hostname is reported only when it was not verified before. */
  function Verify(es: seq<MasterEntry>, ip: u32): (seq<MasterEntry>, Option<string>)
  {
    match FirstMatch(es, ip)
    case None => (es, None)
    case Some(k) =>
      (es[k := es[k].(verified := true)], if es[k].verified then None else Some(es[k].hostname))
  }

  /** record_status_check on a list: the first matching entry counts one
    * more status check and becomes verified; its hostname is reported on
    * the first check only. */
  function StatusCheck(es: seq<MasterEntry>, ip: u32): (seq<MasterEntry>, Option<string>)
  {
    match FirstMatch(es, ip)
    case None => (es, None)
    case Some(k) =>
      var n := es[k].statusChecks + 1;
      (es[k := es[k].(statusChecks := n, verified := true)], if n == 1 then Some(es[k].hostname) else None)
  }

  /** The entry is owed a heartbeat at now: enabled, and at least the
    * interval has passed since the last one in u32 tick arithmetic. */
  predicate Due(e: MasterEntry, now: u32)
  {
    e.enabled && ToU32(now - e.lastBeat) >= HeartbeatInterval
  }

  function TickEntry(e: MasterEntry, now: u32): MasterEntry
  {
    if Due(e, now) then e.(lastBeat := now) else e
  }

  function Ticked(es: seq<MasterEntry>, now: u32): (r: seq<MasterEntry>)
    ensures |r| == |es|
  {
    seq(|es|, i requires 0 <= i < |es| => TickEntry(es[i], now))
  }

  /** The indices among the first k entries that satisfy the predicate,
    * in order. */
  function DueAmong(es: seq<MasterEntry>, now: u32, k: nat): seq<nat>
    requires k <= |es|
  {
    if k == 0 then [] else DueAmong(es, now, k - 1) + (if Due(es[k - 1], now) then [k - 1] else [])
  }

  function EnabledAmong(es: seq<MasterEntry>, k: nat): seq<nat>
    requires k <= |es|
  {
    if k == 0 then [] else EnabledAmong(es, k - 1) + (if es[k - 1].enabled then [k - 1] else [])
  }

  function Disabled(es: seq<MasterEntry>): (r: seq<MasterEntry>)
    ensures |r| == |es|
  {
    seq(|es|, i requires 0 <= i < |es| => es[i].(enabled := false))
  }

  /** The entry bc_master_add appends for a resolved host. */
  function Fresh(hostPort: string, addr: Addr): MasterEntry
  {
    MasterEntry(hostPort, addr, true, false, 0, 0)
  }

  /** The masters contacted by default: the 333networks affiliates and
    * OpenSpy, all on port 27900. */
  const DefaultMasters: seq<string> := [
    "master.333networks.com:27900",
    "master.errorist.eu:27900",
    "master.gonespy.com:27900",
    "master.newbiesplayground.net:27900",
    "master-au.unrealarchive.org:27900",
    "master.noccer.de:27900",
    "master.eatsleeput.com:27900",
    "master.frag-net.com:27900",
    "master.exsurge.net:27900",
    "master.openspy.net:27900"]

  /** The list after adding the first n hosts one by one: a host joins
    * when its address resolved and the list still has room. */
  function Admitted(hosts: seq<string>, resolved: seq<Option<Addr>>, capacity: nat, n: nat): seq<MasterEntry>
    requires n <= |hosts| == |resolved|
  {
    if n == 0 then []
    else
      var es := Admitted(hosts, resolved, capacity, n - 1);
      if |es| < capacity && resolved[n - 1].Some? then es + [Fresh(hosts[n - 1], resolved[n - 1].value)] else es
  }

  /** What a master's datagram is to the probe: a secure challenge (with
    * whether the validate reply could be built and sent), a status or
    * basic query, or anything else. */
  datatype Reply = Challenge(answered: bool) | Query | Other

  /** The probe's handling of one datagram from ip: a answered challenge
    * verifies the master, a query counts a status check and verifies it;
    * the flag says whether the master has just become registered. */
  function ProbeReply(es: seq<MasterEntry>, ip: u32, reply: Reply): (seq<MasterEntry>, bool)
  {
    match FirstMatch(es, ip)
    case None => (es, false)
    case Some(k) =>
      match reply
      case Challenge(answered) =>
        if answered then (es[k := es[k].(verified := true)], !es[k].verified) else (es, false)
      case Query =>
        (es[k := es[k].(statusChecks := es[k].statusChecks + 1, verified := true)], !es[k].verified)
      case Other => (es, false)
  }

  class MasterList {
    var entries: seq<MasterEntry>
    var gamePort: u16
    /** The capacity of the list. */
    const capacity: nat

    ghost predicate Valid()
      reads this
    {
      |entries| <= capacity
    }

    /** An empty list, as bc_master_init_defaults starts from. */
    constructor(capacity: nat, gamePort: u16)
      ensures Valid() && entries == [] && this.gamePort == gamePort && this.capacity == capacity
    {
      this.capacity := capacity;
      this.gamePort := gamePort;
      entries := [];
    }

    /** bc_master_add: refused when the list is full; otherwise the game
      * port is recorded, and the entry joins the list only when its
      * address resolved. */
    method Add(hostPort: string, resolved: Option<Addr>, port: u16) returns (ok: bool)
      requires Valid()
      modifies this
      ensures Valid()
      ensures ok <==> old(|entries|) < capacity && resolved.Some?
      ensures gamePort == (if old(|entries|) < capacity then port else old(gamePort))
      ensures entries == if ok then old(entries) + [MasterEntry(hostPort, resolved.value, true, false, 0, 0)]
                         else old(entries)
    {
      if |entries| >= capacity {
        return false;
      }
      gamePort := port;
      if resolved.None? {
        return false;
      }
      entries := entries + [MasterEntry(hostPort, resolved.value, true, false, 0, 0)];
      ok := true;
    }

    /** bc_master_init_defaults: the list is emptied, then each default
      * master is added in turn; resolved gives the outcome of each
      * host's name resolution. */
    method InitDefaults(resolved: seq<Option<Addr>>, port: u16) returns (count: nat)
      requires Valid() && |resolved| == |DefaultMasters|
      modifies this
      ensures Valid() && gamePort == port
      ensures entries == Admitted(DefaultMasters, resolved, capacity, |DefaultMasters|)
      ensures count == |entries|
    {
      entries := [];
      gamePort := port;
      var i := 0;
      while i < |DefaultMasters|
        invariant 0 <= i <= |DefaultMasters| && Valid() && gamePort == port
        invariant entries == Admitted(DefaultMasters, resolved, capacity, i)
      {
        var ok := Add(DefaultMasters[i], resolved[i], port);
        i := i + 1;
      }
      count := |entries|;
    }

    /** The opening of bc_master_probe: a heartbeat to every enabled entry,
      * and every entry's last beat set to now; an empty list is left
      * alone. */
    method ProbeStart(now: u32) returns (sent: seq<nat>)
      requires Valid()
      modifies this
      ensures Valid() && gamePort == old(gamePort) && |entries| == |old(entries)|
      ensures forall k :: 0 <= k < |entries| ==> entries[k] == old(entries[k]).(lastBeat := now)
      ensures sent == EnabledAmong(old(entries), |old(entries)|)
    {
      ghost var es := entries;
      sent := [];
      var i := 0;
      while i < |entries|
        invariant 0 <= i <= |entries| == |es| && gamePort == old(gamePort)
        invariant forall k :: 0 <= k < i ==> entries[k] == es[k].(lastBeat := now)
        invariant forall k :: i <= k < |es| ==> entries[k] == es[k]
        invariant sent == EnabledAmong(es, i)
      {
        var e := entries[i];
        if e.enabled {
          sent := sent + [i];
        }
        entries := entries[i := e.(lastBeat := now)];
        i := i + 1;
      }
    }

    /** One datagram received while probing, from ip. */
    method ProbeDatagram(ip: u32, reply: Reply) returns (registered: bool)
      requires Valid()
      modifies this
      ensures Valid() && gamePort == old(gamePort)
      ensures (entries, registered) == ProbeReply(old(entries), ip, reply)
    {
      var k := Find(ip);
      if k.None? {
        return false;
      }
      var i := k.value;
      var e := entries[i];
      match reply
      case Challenge(answered) =>
        if answered {
          entries := entries[i := e.(verified := true)];
          registered := !e.verified;
        } else {
          registered := false;
        }
      case Query =>
        entries := entries[i := e.(statusChecks := e.statusChecks + 1, verified := true)];
        registered := !e.verified;
      case Other =>
        registered := false;
    }

    /** bc_master_is_from_master. */
    method IsFromMaster(ip: u32) returns (r: bool)
      ensures r <==> FromMaster(entries, ip)
    {
      var i := 0;
      while i < |entries|
        invariant 0 <= i <= |entries|
        invariant forall k :: 0 <= k < i ==> !Matches(entries[k], ip)
      {
        if entries[i].enabled && entries[i].addr.ip == ip {
          return true;
        }
        i := i + 1;
      }
      return false;
    }

    /** The scan the three lookups share: the first enabled entry with
      * that address. */
    method Find(ip: u32) returns (r: Option<nat>)
      ensures r == FirstMatch(entries, ip)
    {
      var i := 0;
      while i < |entries|
        invariant 0 <= i <= |entries|
        invariant FirstMatchFrom(entries, ip, i) == FirstMatch(entries, ip)
      {
        if entries[i].enabled && entries[i].addr.ip == ip {
          return Some(i);
        }
        i := i + 1;
      }
      return None;
    }

    /** bc_master_mark_verified. */
    method MarkVerified(ip: u32) returns (name: Option<string>)
      requires Valid()
      modifies this
      ensures Valid() && gamePort == old(gamePort)
      ensures (entries, name) == Verify(old(entries), ip)
    {
      var k := Find(ip);
      if k.None? {
        return None;
      }
      var i := k.value;
      if !entries[i].verified {
        entries := entries[i := entries[i].(verified := true)];
        return Some(entries[i].hostname);
      }
      entries := entries[i := entries[i].(verified := true)];
      return None;
    }

    /** bc_master_record_status_check. */
    method RecordStatusCheck(ip: u32) returns (name: Option<string>)
      requires Valid()
      modifies this
      ensures Valid() && gamePort == old(gamePort)
      ensures (entries, name) == StatusCheck(old(entries), ip)
    {
      var k := Find(ip);
      if k.None? {
        return None;
      }
      var i := k.value;
      var e := entries[i];
      entries := entries[i := e.(statusChecks := e.statusChecks + 1, verified := true)];
      if e.statusChecks + 1 == 1 {
        return Some(e.hostname);
      }
      return None;
    }

    /** bc_master_tick: a heartbeat to every entry that is owed one. */
    method Tick(now: u32) returns (sent: seq<nat>)
      requires Valid()
      modifies this
      ensures Valid() && gamePort == old(gamePort)
      ensures entries == Ticked(old(entries), now)
      ensures sent == DueAmong(old(entries), now, |old(entries)|)
    {
      ghost var es := entries;
      sent := [];
      var i := 0;
      while i < |entries|
        invariant 0 <= i <= |entries| == |es| && gamePort == old(gamePort)
        invariant forall k :: 0 <= k < i ==> entries[k] == TickEntry(es[k], now)
        invariant forall k :: i <= k < |es| ==> entries[k] == es[k]
        invariant sent == DueAmong(es, now, i)
      {
        var e := entries[i];
        if e.enabled && ToU32(now - e.lastBeat) >= HeartbeatInterval {
          sent := sent + [i];
          entries := entries[i := e.(lastBeat := now)];
        }
        i := i + 1;
      }
      assert forall k :: 0 <= k < |es| ==> entries[k] == Ticked(es, now)[k];
    }

    /** bc_master_shutdown: a final heartbeat to every enabled entry, which
      * is then disabled. */
    method Shutdown() returns (sent: seq<nat>)
      requires Valid()
      modifies this
      ensures Valid() && gamePort == old(gamePort)
      ensures entries == Disabled(old(entries))
      ensures sent == EnabledAmong(old(entries), |old(entries)|)
    {
      ghost var es := entries;
      sent := [];
      var i := 0;
      while i < |entries|
        invariant 0 <= i <= |entries| == |es| && gamePort == old(gamePort)
        invariant forall k :: 0 <= k < i ==> entries[k] == es[k].(enabled := false)
        invariant forall k :: i <= k < |es| ==> entries[k] == es[k]
        invariant sent == EnabledAmong(es, i)
      {
        var e := entries[i];
        if e.enabled {
          sent := sent + [i];
          entries := entries[i := e.(enabled := false)];
        }
        i := i + 1;
      }
      assert forall k :: 0 <= k < |es| ==> entries[k] == Disabled(es)[k];
    }

    /** bc_master_statechanged: a statechanged heartbeat to every enabled
      * entry; nothing in the list changes. */
    method StateChanged() returns (sent: seq<nat>)
      ensures sent == EnabledAmong(entries, |entries|)
    {
      sent := [];
      var i := 0;
      while i < |entries|
        invariant 0 <= i <= |entries|
        invariant sent == EnabledAmong(entries, i)
      {
        if entries[i].enabled {
          sent := sent + [i];
        }
        i := i + 1;
      }
    }
  }

  /** Adding the defaults never overfills the list, admits only resolved
    * hosts, in order, and leaves out a resolved host only once the list
    * is full. */
  lemma {:induction false} AdmittedEntries(hosts: seq<string>, resolved: seq<Option<Addr>>, capacity: nat, n: nat)
    requires n <= |hosts| == |resolved|
    ensures var r := Admitted(hosts, resolved, capacity, n);
      |r| <= capacity && |r| <= n &&
      (forall e :: e in r ==> exists j :: 0 <= j < n && resolved[j].Some? && e == Fresh(hosts[j], resolved[j].value)) &&
      (|r| < capacity ==> forall j :: 0 <= j < n && resolved[j].Some? ==> Fresh(hosts[j], resolved[j].value) in r)
  {
    if n > 0 {
      AdmittedEntries(hosts, resolved, capacity, n - 1);
      var es := Admitted(hosts, resolved, capacity, n - 1);
      var r := Admitted(hosts, resolved, capacity, n);
      assert forall e :: e in es ==> e in r;
      if |r| < capacity {
        assert |es| < capacity;
      }
    }
  }

  /** Under the probe only the replying master changes; a master counts as
    * registered exactly when this datagram turned it from unverified to
    * verified, so none is registered twice. */
  lemma ProbeReplyEffect(es: seq<MasterEntry>, ip: u32, reply: Reply)
    ensures var (r, reg) := ProbeReply(es, ip, reply);
      |r| == |es| &&
      (forall k :: 0 <= k < |es| && Some(k) != FirstMatch(es, ip) ==> r[k] == es[k]) &&
      (reg <==> exists k :: FirstMatch(es, ip) == Some(k) && !es[k].verified && r[k].verified)
  {
  }

  /** Only the matched entry changes, and only its verified flag; the
    * hostname comes back exactly when it was unverified. */
  lemma VerifyEffect(es: seq<MasterEntry>, ip: u32)
    ensures var (r, name) := Verify(es, ip);
      |r| == |es| &&
      (forall k :: 0 <= k < |es| && Some(k) != FirstMatch(es, ip) ==> r[k] == es[k]) &&
      (name.Some? <==> exists k :: FirstMatch(es, ip) == Some(k) && !es[k].verified) &&
      (forall k :: FirstMatch(es, ip) == Some(k) ==> r[k] == es[k].(verified := true) && (name.Some? ==> name.value == es[k].hostname))
  {
  }

  /** A master is reported as newly verified at most once: verifying the
    * same address again reports nothing and changes nothing. */
  lemma VerifyOnce(es: seq<MasterEntry>, ip: u32)
    ensures var r := Verify(es, ip).0;
      Verify(r, ip) == (r, None)
  {
    var r := Verify(es, ip).0;
    match FirstMatch(es, ip)
    case None =>
    case Some(k) =>
      assert forall j :: 0 <= j < |r| ==> (Matches(r[j], ip) <==> Matches(es[j], ip));
      FirstMatchSame(es, r, ip);
      assert r[k] == es[k].(verified := true);
      assert r[k := r[k].(verified := true)] == r;
  }

  /** Two lists whose entries match the same addresses give the same
    * first match. */
  lemma FirstMatchSame(a: seq<MasterEntry>, b: seq<MasterEntry>, ip: u32)
    requires |a| == |b|
    requires forall j :: 0 <= j < |a| ==> (Matches(a[j], ip) <==> Matches(b[j], ip))
    ensures FirstMatch(a, ip) == FirstMatch(b, ip)
  {
    var i := |a|;
    while i > 0
      invariant 0 <= i <= |a|
      invariant FirstMatchFrom(a, ip, i) == FirstMatchFrom(b, ip, i)
    {
      i := i - 1;
    }
  }

  /** The hostname is reported on the first status check of a master and
    * never on a later one; the check also leaves the master verified. */
  lemma StatusCheckEffect(es: seq<MasterEntry>, ip: u32)
    ensures var (r, name) := StatusCheck(es, ip);
      |r| == |es| &&
      (FirstMatch(es, ip).None? ==> r == es && name.None?) &&
      (forall k :: FirstMatch(es, ip) == Some(k) ==>
         r[k].verified && r[k].statusChecks == es[k].statusChecks + 1 &&
         (name.Some? <==> es[k].statusChecks == 0) &&
         (forall j :: 0 <= j < |es| && j != k ==> r[j] == es[j]))
  {
  }

  /** After a tick no enabled entry is still owed a heartbeat, the ones
    * sent to are exactly those that were, and nothing else changes. */
  lemma TickEffect(es: seq<MasterEntry>, now: u32)
    ensures forall k :: 0 <= k < |es| ==> !Due(Ticked(es, now)[k], now)
    ensures forall k :: 0 <= k < |es| ==>
      Ticked(es, now)[k] == (if Due(es[k], now) then es[k].(lastBeat := now) else es[k])
    ensures forall k :: k in DueAmong(es, now, |es|) <==> 0 <= k < |es| && Due(es[k], now)
  {
    DueAmongMembers(es, now, |es|);
  }

  lemma {:induction false} DueAmongMembers(es: seq<MasterEntry>, now: u32, n: nat)
    requires n <= |es|
    ensures forall k :: k in DueAmong(es, now, n) <==> 0 <= k < n && Due(es[k], now)
  {
    if n > 0 {
      DueAmongMembers(es, now, n - 1);
    }
  }

  lemma {:induction false} EnabledAmongMembers(es: seq<MasterEntry>, n: nat)
    requires n <= |es|
    ensures forall k :: k in EnabledAmong(es, n) <==> 0 <= k < n && es[k].enabled
  {
    if n > 0 {
      EnabledAmongMembers(es, n - 1);
    }
  }

  /** After shutdown no datagram counts as coming from a master, and the
    * final heartbeat went to exactly the entries that were enabled. */
  lemma ShutdownEffect(es: seq<MasterEntry>, ip: u32)
    ensures !FromMaster(Disabled(es), ip)
    ensures forall k :: k in EnabledAmong(es, |es|) <==> 0 <= k < |es| && es[k].enabled
  {
    EnabledAmongMembers(es, |es|);
  }

  const HeartbeatKey: seq<byte> := GameSpy.Key("heartbeat")
  const StateChangedKey: seq<byte> := GameSpy.Key("statechanged")
  const One: seq<byte> := GameSpy.Key("1")

  /** The heartbeat fields: \heartbeat\<port>\gamename\bcommander\, with
    * final\ added on shutdown; the last, empty field gives the closing
    * backslash. */
  function HeartbeatFields(port: u16, final: bool): seq<seq<byte>>
  {
    [HeartbeatKey, Decimal.Digits(port), GameSpy.GameNameKey, GameSpy.GameName]
      + (if final then [GameSpy.FinalKey, []] else [[]])
  }

  function Heartbeat(port: u16, final: bool): seq<byte>
  {
    GameSpy.Join(HeartbeatFields(port, final))
  }

  /** \heartbeat\<port>\gamename\bcommander\statechanged\1 */
  function StateChangedFields(port: u16): seq<seq<byte>>
  {
    [HeartbeatKey, Decimal.Digits(port), GameSpy.GameNameKey, GameSpy.GameName, StateChangedKey, One]
  }

  lemma DigitsArePlain(n: nat)
    ensures GameSpy.Plain(Decimal.Digits(n))
    ensures |Decimal.Digits(n)| > 0 && Decimal.IsDigit(Decimal.Digits(n)[0])
  {
  }

  /** The first bytes that tell the heartbeat's keys apart. */
  lemma KeyStarts()
    ensures HeartbeatKey[0] == 104 && GameSpy.GameNameKey[0] == 103 && GameSpy.GameName[0] == 98
    ensures GameSpy.FinalKey[0] == 102 && StateChangedKey[0] == 115 && |One| == 1
  {
  }

  /** A master reading a heartbeat with the query reader finds the game
    * port under heartbeat. */
  lemma HeartbeatReadsPort(port: u16, final: bool)
    ensures GameSpy.Lookup(Heartbeat(port, final), HeartbeatKey) == Some(Decimal.Digits(port))
  {
    var fs := HeartbeatFields(port, final);
    DigitsArePlain(port);
    assert GameSpy.AllPlain(fs);
    GameSpy.LookupJoin(fs, HeartbeatKey);
  }

  /** ... and bcommander under gamename. */
  lemma HeartbeatReadsGame(port: u16, final: bool)
    ensures GameSpy.Lookup(Heartbeat(port, final), GameSpy.GameNameKey) == Some(GameSpy.GameName)
  {
    var fs := HeartbeatFields(port, final);
    DigitsArePlain(port);
    KeyStarts();
    assert GameSpy.AllPlain(fs);
    GameSpy.LookupJoin(fs, GameSpy.GameNameKey);
    assert fs[1..][1..] == fs[2..];
    assert GameSpy.FieldAfter(fs, GameSpy.GameNameKey) == GameSpy.FieldAfter(fs[1..], GameSpy.GameNameKey);
    assert GameSpy.FieldAfter(fs[1..], GameSpy.GameNameKey) == GameSpy.FieldAfter(fs[2..], GameSpy.GameNameKey);
  }

  /** ... and a final field exactly in the shutdown heartbeat. */
  lemma HeartbeatReadsFinal(port: u16, final: bool)
    ensures GameSpy.Lookup(Heartbeat(port, final), GameSpy.FinalKey).Some? <==> final
  {
    var fs := HeartbeatFields(port, final);
    var key := GameSpy.FinalKey;
    DigitsArePlain(port);
    KeyStarts();
    assert GameSpy.AllPlain(fs);
    GameSpy.LookupJoin(fs, key);
    assert fs[1..][1..] == fs[2..];
    assert fs[2..][1..] == fs[3..];
    assert fs[3..][1..] == fs[4..];
    assert GameSpy.FieldAfter(fs, key) == GameSpy.FieldAfter(fs[1..], key);
    assert GameSpy.FieldAfter(fs[1..], key) == GameSpy.FieldAfter(fs[2..], key);
    assert GameSpy.FieldAfter(fs[2..], key) == GameSpy.FieldAfter(fs[3..], key);
    assert GameSpy.FieldAfter(fs[3..], key) == GameSpy.FieldAfter(fs[4..], key);
    if final {
      assert fs[4..] == [key, []];
    } else {
      assert fs[4..] == [[]];
    }
  }

  /** The statechanged heartbeat carries statechanged=1 after the port. */
  lemma StateChangedReads(port: u16)
    ensures GameSpy.Lookup(GameSpy.Join(StateChangedFields(port)), StateChangedKey) == Some(One)
    ensures GameSpy.Lookup(GameSpy.Join(StateChangedFields(port)), HeartbeatKey) == Some(Decimal.Digits(port))
  {
    var fs := StateChangedFields(port);
    var key := StateChangedKey;
    DigitsArePlain(port);
    KeyStarts();
    assert GameSpy.AllPlain(fs);
    GameSpy.LookupJoin(fs, HeartbeatKey);
    GameSpy.LookupJoin(fs, key);
    assert fs[1..][1..] == fs[2..];
    assert fs[2..][1..] == fs[3..];
    assert fs[3..][1..] == fs[4..];
    assert GameSpy.FieldAfter(fs, key) == GameSpy.FieldAfter(fs[1..], key);
    assert GameSpy.FieldAfter(fs[1..], key) == GameSpy.FieldAfter(fs[2..], key);
    assert GameSpy.FieldAfter(fs[2..], key) == GameSpy.FieldAfter(fs[3..], key);
    assert GameSpy.FieldAfter(fs[3..], key) == GameSpy.FieldAfter(fs[4..], key);
  }
}
