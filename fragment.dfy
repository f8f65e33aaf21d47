/** Fragment reassembly of transport.c: a reliable message too large for one
  * packet arrives as fragments whose first payload byte is the fragment
  * count (first fragment) or an index (later ones); the data bytes after it
  * are collected in a 4096-byte buffer until the count is reached. */
module Reassembly {
  import opened Bytes
  import opened Transport

  /** BC_FRAGMENT_BUF_SIZE. */
  const FragmentBufSize := 4096

  /** The observable state of bc_fragment_buf_t: the collected bytes, the
    * expected and received fragment counts (u8) and whether a message is
    * being collected. */
  datatype FragState = FragState(data: seq<byte>, expected: u8, received: u8, active: bool)

  /** The state bc_fragment_reset leaves. */
  const Idle := FragState([], 0, 0, false)

  /** bc_fragment_receive on a state: whether the message is complete, and
    * the next state. An empty payload changes nothing; a first fragment
    * announcing fewer than 2 fragments, or data that does not fit the
    * buffer, resets; the received count wraps at 256 like its u8 field. */
  function ReceiveSpec(s: FragState, payload: seq<byte>): (r: (bool, FragState))
    ensures |payload| < 1 ==> r == (false, s)
    ensures r.0 ==> r.1.active && r.1.received >= r.1.expected
    ensures |payload| >= 1 && !r.1.active ==> r == (false, Idle)
    ensures |s.data| <= FragmentBufSize ==> |r.1.data| <= FragmentBufSize
  {
    if |payload| < 1 then (false, s)
    else if !s.active then
      if payload[0] < 2 then (false, Idle)
      else if |payload| - 1 > FragmentBufSize then (false, Idle)
      else
        var t := FragState(payload[1..], payload[0], 1, true);
        (t.received >= t.expected, t)
    else if |s.data| + (|payload| - 1) > FragmentBufSize then (false, Idle)
    else
      var t := FragState(s.data + payload[1..], s.expected, (s.received + 1) % 0x100, true);
      (t.received >= t.expected, t)
  }

  /** The continuation index byte is not looked at: fragments are taken in
    * arrival order. */
  lemma IndexIgnored(s: FragState, a: byte, b: byte, data: seq<byte>)
    requires s.active
    ensures ReceiveSpec(s, [a] + data) == ReceiveSpec(s, [b] + data)
  {
    assert ([a] + data)[1..] == data == ([b] + data)[1..];
  }

  /** A first fragment never completes a message on its own. */
  lemma FirstNeverCompletes(payload: seq<byte>)
    ensures !ReceiveSpec(Idle, payload).0
  {
  }

  /** Results and final state of feeding fragments one after another. */
  function Feed(s: FragState, frags: seq<seq<byte>>): (r: (seq<bool>, FragState))
    ensures |r.0| == |frags|
    decreases |frags|
  {
    if frags == [] then ([], s)
    else
      var (d, t) := ReceiveSpec(s, frags[0]);
      var (ds, u) := Feed(t, frags[1..]);
      ([d] + ds, u)
  }

  /** Every fragment carries its index or count byte. */
  predicate AllNonEmpty(frags: seq<seq<byte>>)
  {
    forall i :: 0 <= i < |frags| ==> |frags[i]| >= 1
  }

  /** The data bytes of the fragments, in order. */
  function Payloads(frags: seq<seq<byte>>): seq<byte>
    requires AllNonEmpty(frags)
  {
    if frags == [] then [] else frags[0][1..] + Payloads(frags[1..])
  }

  /** Continuation fragments that fit the buffer are appended in order, the
    * count goes up by one each, and each reports completion exactly when the
    * count has reached the expected one. */
  lemma {:induction false} ContinueAll(s: FragState, frags: seq<seq<byte>>)
    requires s.active && AllNonEmpty(frags)
    requires s.received + |frags| < 0x100
    requires |s.data| + |Payloads(frags)| <= FragmentBufSize
    ensures Feed(s, frags).1 == FragState(s.data + Payloads(frags), s.expected, s.received + |frags|, true)
    ensures forall i :: 0 <= i < |frags| ==> (Feed(s, frags).0[i] <==> s.received + i + 1 >= s.expected)
    decreases |frags|
  {
    if frags != [] {
      var t := FragState(s.data + frags[0][1..], s.expected, s.received + 1, true);
      assert ReceiveSpec(s, frags[0]) == (t.received >= t.expected, t);
      assert AllNonEmpty(frags[1..]);
      ContinueAll(t, frags[1..]);
      assert t.data + Payloads(frags[1..]) == s.data + Payloads(frags);
      var r := Feed(s, frags);
      assert r.0 == [t.received >= t.expected] + Feed(t, frags[1..]).0;
      forall i | 0 <= i < |frags|
        ensures r.0[i] <==> s.received + i + 1 >= s.expected
      {
        if i > 0 {
          assert r.0[i] == Feed(t, frags[1..]).0[i - 1];
        }
      }
    }
  }

  /** A message split into a first fragment announcing k fragments and k - 1
    * continuations is reassembled from an idle buffer: no fragment but the
    * last reports completion, the last one does, and the buffer then holds
    * the data of all fragments in order. */
  lemma Reassemble(first: seq<byte>, rest: seq<seq<byte>>)
    requires 1 <= |rest| < 0xFF && AllNonEmpty(rest)
    requires |first| + |Payloads(rest)| <= FragmentBufSize
    ensures var r := Feed(Idle, [[|rest| + 1] + first] + rest);
      r.1.data == first + Payloads(rest) &&
      r.0[|rest|] && forall i :: 0 <= i < |rest| ==> !r.0[i]
  {
    var k := |rest| + 1;
    var head := [k] + first;
    var frags := [head] + rest;
    var t := FragState(first, k, 1, true);
    assert head[1..] == first;
    assert ReceiveSpec(Idle, head) == (false, t);
    assert frags[1..] == rest;
    ContinueAll(t, rest);
    var r := Feed(Idle, frags);
    assert r.0 == [false] + Feed(t, rest).0;
    assert r.0[|rest|] == Feed(t, rest).0[|rest| - 1];
    forall i | 0 <= i < |rest|
      ensures !r.0[i]
    {
      if i > 0 {
        assert r.0[i] == Feed(t, rest).0[i - 1];
      }
    }
  }

  /** bc_fragment_buf_t. */
  class FragmentBuf {
    const buf: array<byte>
    var bufLen: int
    var expected: int
    var received: int
    var active: bool

    ghost predicate Valid()
      reads this
    {
      buf.Length == FragmentBufSize && 0 <= bufLen <= FragmentBufSize &&
      0 <= expected < 0x100 && 0 <= received < 0x100
    }

    ghost function State(): FragState
      requires Valid()
      reads this, buf
    {
      FragState(buf[..bufLen], expected, received, active)
    }

    constructor()
      ensures Valid() && State() == Idle && fresh(buf)
    {
      buf := new byte[FragmentBufSize](_ => 0);
      bufLen := 0;
      expected := 0;
      received := 0;
      active := false;
    }

    /** bc_fragment_reset. */
    method Reset()
      requires buf.Length == FragmentBufSize
      modifies this
      ensures Valid() && State() == Idle
    {
      active := false;
      bufLen := 0;
      expected := 0;
      received := 0;
    }

    /** bc_fragment_receive. */
    method Receive(payload: seq<byte>) returns (done: bool)
      requires Valid()
      modifies this, buf
      ensures Valid()
      ensures (done, State()) == ReceiveSpec(old(State()), payload)
    {
      if |payload| < 1 {
        return false;
      }
      if !active {
        active := true;
        expected := payload[0];
        received := 1;
        bufLen := 0;
        if expected < 2 {
          Reset();
          return false;
        }
        var dataLen := |payload| - 1;
        if dataLen > FragmentBufSize {
          Reset();
          return false;
        }
        CopyIn(buf, 0, payload[1..]);
        bufLen := dataLen;
        assert buf[..bufLen] == payload[1..];
      } else {
        var dataLen := |payload| - 1;
        if bufLen + dataLen > FragmentBufSize {
          Reset();
          return false;
        }
        ghost var before := buf[..];
        CopyIn(buf, bufLen, payload[1..]);
        assert buf[..bufLen + dataLen] == before[..bufLen] + payload[1..];
        bufLen := bufLen + dataLen;
        received := (received + 1) % 0x100;
      }
      done := received >= expected;
    }
  }
}
