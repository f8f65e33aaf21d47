/** The reliable-delivery queue of reliable.c: sixteen slots of unacknowledged
  * outgoing messages, each with its sequence number, last send time and
  * retry count, and a count of the active slots. */
module Reliable {
  import opened Bytes

  const QueueSize := 16
  const MaxPayload := 512
  const RetransmitMs := 2000
  const MaxRetries := 8

  datatype Entry = Entry(payload: seq<byte>, seqNum: u16, sendTime: u32, retries: u8, active: bool)

  /** A zeroed slot, as memset leaves it. */
  const Blank := Entry([], 0, 0, 0, false)

  /** One for an active slot, zero for a free one. */
  function Flag(e: Entry): nat
  {
    if e.active then 1 else 0
  }

  /** The number of active slots. */
  function ActiveCount(es: seq<Entry>): (n: nat)
    ensures n <= |es|
  {
    if es == [] then 0 else Flag(es[0]) + ActiveCount(es[1..])
  }

  /** Unsigned 32-bit difference now - sent, as the C subtraction of two u32
    * values computes it. */
  function Elapsed(now: u32, sent: u32): u32
  {
    (now - sent) % 0x1_0000_0000
  }

  /** The lowest inactive slot. */
  function FirstFree(es: seq<Entry>): (r: Option<nat>)
    ensures r.Some? ==> r.value < |es| && !es[r.value].active
    ensures r.Some? ==> forall j :: 0 <= j < r.value ==> es[j].active
    ensures r.None? <==> forall j :: 0 <= j < |es| ==> es[j].active
  {
    if es == [] then None
    else if !es[0].active then Some(0)
    else match FirstFree(es[1..])
      case None => None
      case Some(k) => Some(k + 1)
  }

  /** The lowest active slot with the sequence number. */
  function FirstWithSeq(es: seq<Entry>, s: u16): (r: Option<nat>)
    ensures r.Some? ==> r.value < |es| && es[r.value].active && es[r.value].seqNum == s
    ensures r.Some? ==> forall j :: 0 <= j < r.value ==> !(es[j].active && es[j].seqNum == s)
    ensures r.None? <==> forall j :: 0 <= j < |es| ==> !(es[j].active && es[j].seqNum == s)
  {
    if es == [] then None
    else if es[0].active && es[0].seqNum == s then Some(0)
    else match FirstWithSeq(es[1..], s)
      case None => None
      case Some(k) => Some(k + 1)
  }

  /** Whether slot e is due for retransmission at now. */
  predicate Due(e: Entry, now: u32)
  {
    e.active && Elapsed(now, e.sendTime) >= RetransmitMs
  }

  /** The lowest slot due for retransmission. */
  function FirstDue(es: seq<Entry>, now: u32): (r: Option<nat>)
    ensures r.Some? ==> r.value < |es| && Due(es[r.value], now)
    ensures r.Some? ==> forall j :: 0 <= j < r.value ==> !Due(es[j], now)
    ensures r.None? <==> forall j :: 0 <= j < |es| ==> !Due(es[j], now)
  {
    if es == [] then None
    else if Due(es[0], now) then Some(0)
    else match FirstDue(es[1..], now)
      case None => None
      case Some(k) => Some(k + 1)
  }

  /** bc_reliable_add on the slot table. */
  function AddSpec(es: seq<Entry>, payload: seq<byte>, s: u16, now: u32): (bool, seq<Entry>)
  {
    if |payload| > MaxPayload then (false, es)
    else match FirstFree(es)
      case None => (false, es)
      case Some(i) => (true, es[i := Entry(payload, s, now, 0, true)])
  }

  /** bc_reliable_ack on the slot table. */
  function AckSpec(es: seq<Entry>, s: u16): (bool, seq<Entry>)
  {
    match FirstWithSeq(es, s)
    case None => (false, es)
    case Some(i) => (true, es[i := es[i].(active := false)])
  }

  /** A slot after its retransmission: one more retry, counted in a u8 that
    * wraps, and the send time restamped. */
  function Resent(e: Entry, now: u32): Entry
  {
    e.(retries := (e.retries + 1) % 0x100, sendTime := now)
  }

  /** bc_reliable_check_retransmit on the slot table: the index, or -1. */
  function RetransmitSpec(es: seq<Entry>, now: u32): (int, seq<Entry>)
  {
    match FirstDue(es, now)
    case None => (-1, es)
    case Some(i) => (i as int, es[i := Resent(es[i], now)])
  }

  /** bc_reliable_check_timeout on the slot table. */
  predicate TimedOut(es: seq<Entry>)
  {
    exists i :: 0 <= i < |es| && es[i].active && es[i].retries >= MaxRetries
  }

  // ---------------------------------------------------------------------
  // Properties of the slot-table operations

  /** Replacing one slot changes the active count by the change in that
    * slot's flag. */
  lemma {:induction false} ActiveCountUpdate(es: seq<Entry>, i: nat, e: Entry)
    requires i < |es|
    ensures ActiveCount(es[i := e]) + Flag(es[i]) == ActiveCount(es) + Flag(e)
  {
    if i == 0 {
      assert es[i := e][1..] == es[1..];
    } else {
      assert es[i := e][1..] == es[1..][i - 1 := e];
      ActiveCountUpdate(es[1..], i - 1, e);
    }
  }

  /** The table is full exactly when every slot is active. */
  lemma {:induction false} FullIff(es: seq<Entry>)
    ensures FirstFree(es).None? <==> ActiveCount(es) == |es|
  {
    if es != [] {
      FullIff(es[1..]);
    }
  }

  /** add succeeds exactly when the payload fits and some slot is free; it
    * then adds one active slot. */
  lemma AddCount(es: seq<Entry>, payload: seq<byte>, s: u16, now: u32)
    ensures AddSpec(es, payload, s, now).0 <==> |payload| <= MaxPayload && ActiveCount(es) < |es|
    ensures AddSpec(es, payload, s, now).0 ==>
      ActiveCount(AddSpec(es, payload, s, now).1) == ActiveCount(es) + 1
    ensures !AddSpec(es, payload, s, now).0 ==> AddSpec(es, payload, s, now).1 == es
  {
    FullIff(es);
    if AddSpec(es, payload, s, now).0 {
      var i := FirstFree(es).value;
      ActiveCountUpdate(es, i, Entry(payload, s, now, 0, true));
    }
  }

  /** ack succeeds exactly when some active slot has the sequence number; it
    * then deactivates one slot. */
  lemma AckCount(es: seq<Entry>, s: u16)
    ensures AckSpec(es, s).0 <==> exists j :: 0 <= j < |es| && es[j].active && es[j].seqNum == s
    ensures AckSpec(es, s).0 ==> ActiveCount(AckSpec(es, s).1) + 1 == ActiveCount(es)
    ensures !AckSpec(es, s).0 ==> AckSpec(es, s).1 == es
  {
    if AckSpec(es, s).0 {
      var i := FirstWithSeq(es, s).value;
      ActiveCountUpdate(es, i, es[i].(active := false));
    }
  }

  /** Acknowledging a freshly added sequence number that was not already
    * pending frees exactly the slot the add took. */
  lemma AddThenAck(es: seq<Entry>, payload: seq<byte>, s: u16, now: u32)
    requires AddSpec(es, payload, s, now).0
    requires forall j :: 0 <= j < |es| ==> !(es[j].active && es[j].seqNum == s)
    ensures var i := FirstFree(es).value;
      AckSpec(AddSpec(es, payload, s, now).1, s) == (true, es[i := Entry(payload, s, now, 0, false)])
  {
    var i := FirstFree(es).value;
    var added := es[i := Entry(payload, s, now, 0, true)];
    assert AddSpec(es, payload, s, now) == (true, added);
    var r := FirstWithSeq(added, s);
    assert r == Some(i) by {
      assert added[i].active && added[i].seqNum == s;
    }
    assert AckSpec(added, s) == (true, added[i := added[i].(active := false)]);
    assert added[i := added[i].(active := false)] == es[i := Entry(payload, s, now, 0, false)];
  }

  /** A retransmission reports -1 exactly when no slot is due, and otherwise
    * the index of a due slot, whose retry count it bumps (wrapping as a u8)
    * and whose send time it restamps. */
  lemma RetransmitChoice(es: seq<Entry>, now: u32)
    ensures RetransmitSpec(es, now).0 == -1 <==> forall j :: 0 <= j < |es| ==> !Due(es[j], now)
    ensures var (i, es') := RetransmitSpec(es, now);
      i != -1 ==>
        && 0 <= i < |es| == |es'| && Due(es[i], now)
        && es'[i].retries == (es[i].retries + 1) % 0x100 && es'[i].sendTime == now
  {
  }

  /** A retransmission leaves every other slot as it was, makes no slot
    * active or inactive, and so keeps the active count. */
  lemma RetransmitFrame(es: seq<Entry>, now: u32)
    ensures var (i, es') := RetransmitSpec(es, now);
      && |es'| == |es|
      && (forall j :: 0 <= j < |es| && j != i ==> es'[j] == es[j])
      && (forall j :: 0 <= j < |es| ==> es'[j].active == es[j].active)
      && ActiveCount(es') == ActiveCount(es)
  {
    if FirstDue(es, now).Some? {
      var i := FirstDue(es, now).value;
      ActiveCountUpdate(es, i, Resent(es[i], now));
    }
  }

  /** A retransmitted slot is not due again at the same time, so calling
    * again at the same now moves strictly forward until -1. */
  lemma RetransmitProgress(es: seq<Entry>, now: u32)
    requires RetransmitSpec(es, now).0 != -1
    ensures var (i, es') := RetransmitSpec(es, now);
      FirstDue(es', now).None? || FirstDue(es', now).value > i
  {
    var i := FirstDue(es, now).value;
    var es' := es[i := Resent(es[i], now)];
    assert RetransmitSpec(es, now) == (i, es');
    assert !Due(es'[i], now) by { assert Elapsed(now, now) == 0; }
    assert forall j :: 0 <= j < i ==> es'[j] == es[j];
  }

  /** The elapsed time is the plain difference when the clock has not
    * wrapped, and the difference plus 2^32 when it has. */
  lemma ElapsedWraps(now: u32, sent: u32)
    ensures now >= sent ==> Elapsed(now, sent) == now - sent
    ensures now < sent ==> Elapsed(now, sent) == now - sent + 0x1_0000_0000
  {
  }

  // ---------------------------------------------------------------------
  // The queue object

  class Queue {
    var entries: seq<Entry>
    var count: int

    /** The queue's invariant: sixteen slots and count = active slots. */
    ghost predicate Valid()
      reads this
    {
      |entries| == QueueSize && count == ActiveCount(entries)
    }

    /** bc_reliable_init. */
    constructor ()
      ensures Valid() && entries == seq(QueueSize, _ => Blank) && count == 0
    {
      entries := seq(QueueSize, _ => Blank);
      count := 0;
      new;
      assert FirstFree(entries) == Some(0);
      FullIff(entries);
      ZeroCount(entries);
    }

    /** bc_reliable_add. */
    method Add(payload: seq<byte>, s: u16, now: u32) returns (ok: bool)
      requires Valid()
      modifies this
      ensures Valid()
      ensures (ok, entries) == AddSpec(old(entries), payload, s, now)
    {
      ok := false;
      if |payload| > MaxPayload {
        return;
      }
      var i := 0;
      while i < QueueSize
        invariant 0 <= i <= QueueSize && entries == old(entries) && count == old(count)
        invariant forall k :: 0 <= k < i ==> entries[k].active
      {
        if !entries[i].active {
          assert FirstFree(entries) == Some(i);
          AddCount(entries, payload, s, now);
          entries := entries[i := Entry(payload, s, now, 0, true)];
          count := count + 1;
          ok := true;
          return;
        }
        i := i + 1;
      }
    }

    /** bc_reliable_ack. */
    method Ack(s: u16) returns (ok: bool)
      requires Valid()
      modifies this
      ensures Valid()
      ensures (ok, entries) == AckSpec(old(entries), s)
    {
      ok := false;
      var i := 0;
      while i < QueueSize
        invariant 0 <= i <= QueueSize && entries == old(entries) && count == old(count)
        invariant forall k :: 0 <= k < i ==> !(entries[k].active && entries[k].seqNum == s)
      {
        if entries[i].active && entries[i].seqNum == s {
          assert FirstWithSeq(entries, s) == Some(i);
          AckCount(entries, s);
          entries := entries[i := entries[i].(active := false)];
          count := count - 1;
          ok := true;
          return;
        }
        i := i + 1;
      }
    }

    /** bc_reliable_check_retransmit. */
    method CheckRetransmit(now: u32) returns (index: int)
      requires Valid()
      modifies this
      ensures Valid() && count == old(count)
      ensures (index, entries) == RetransmitSpec(old(entries), now)
    {
      var i := 0;
      while i < QueueSize
        invariant 0 <= i <= QueueSize && entries == old(entries) && count == old(count)
        invariant forall k :: 0 <= k < i ==> !Due(entries[k], now)
      {
        var e := entries[i];
        if e.active && (now - e.sendTime) % 0x1_0000_0000 >= RetransmitMs {
          assert FirstDue(entries, now) == Some(i);
          RetransmitFrame(entries, now);
          entries := entries[i := Resent(e, now)];
          return i;
        }
        i := i + 1;
      }
      return -1;
    }

    /** bc_reliable_check_timeout. */
    method CheckTimeout() returns (dead: bool)
      requires Valid()
      ensures dead <==> exists i :: 0 <= i < |entries| && entries[i].active && entries[i].retries >= MaxRetries
    {
      var i := 0;
      while i < QueueSize
        invariant 0 <= i <= QueueSize
        invariant forall k :: 0 <= k < i ==> !(entries[k].active && entries[k].retries >= MaxRetries)
      {
        if entries[i].active && entries[i].retries >= MaxRetries {
          return true;
        }
        i := i + 1;
      }
      return false;
    }
  }

  /** A table of blank slots has no active slot. */
  lemma {:induction false} ZeroCount(es: seq<Entry>)
    requires forall j :: 0 <= j < |es| ==> !es[j].active
    ensures ActiveCount(es) == 0
  {
    if es != [] {
      ZeroCount(es[1..]);
    }
  }
}
