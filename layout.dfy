/** The bytes a sequence of bc_buffer_t writes lays out, computed without a
  * capacity: byte writes append their encoding, and a bit either joins the
  * open group (rewriting its byte) or appends a new group byte. Builders
  * that write through a buffer are specified by this image, and the lemmas
  * here tie it to BufferModel.WriteAll (which fails exactly when the image
  * does not fit) and to the reads that recover what was written. */
module BufferLayout {
  import opened Bytes
  import opened BufferModel
  import ByteBuffer

  /** The written prefix, the open group's byte and its bit count. */
  datatype Layout = Layout(out: seq<byte>, bookmark: nat, count: nat)

  predicate LValid(s: Layout)
  {
    s.count <= 5 && (s.count > 0 ==> s.bookmark < |s.out| && Total(s.out[s.bookmark]) == s.count)
  }

  const Empty := Layout([], 0, 0)

  /** One write appended to the layout. */
  function EmitOp(s: Layout, op: Op): (r: Layout)
    requires LValid(s)
    ensures LValid(r) && |r.out| >= |s.out|
  {
    if !op.Flag? then s.(out := s.out + Encoding(op))
    else if 0 < s.count < 5 then
      var b := s.out[s.bookmark];
      var b1 := if op.bit then SetBit(b, s.count) else b;
      s.(out := s.out[s.bookmark := Pack(b1, s.count + 1)], count := s.count + 1)
    else
      Layout(s.out + [if op.bit then 1 else 0], |s.out|, 1)
  }

  function Emit(s: Layout, ops: seq<Op>): (r: Layout)
    requires LValid(s)
    ensures LValid(r) && |r.out| >= |s.out|
    decreases |ops|
  {
    if ops == [] then s else Emit(EmitOp(s, ops[0]), ops[1..])
  }

  /** The bytes the writes ops lay out from a fresh buffer. */
  function Image(ops: seq<Op>): seq<byte>
  {
    Emit(Empty, ops).out
  }

  /** A cursor that has laid out s over the initial memory base. */
  predicate Tracks(c: Cursor, s: Layout, base: seq<byte>)
  {
    Valid(c) && LValid(s) && |c.data| == |base| && c.pos == |s.out| && c.pos <= |base|
    && c.data == s.out + base[c.pos..] && c.count == s.count
    && (s.count > 0 ==> c.bookmark == s.bookmark)
  }

  lemma TracksStep(c: Cursor, s: Layout, base: seq<byte>, op: Op)
    requires Tracks(c, s, base)
    ensures WriteOp(c, op).0 <==> |EmitOp(s, op).out| <= c.capacity
    ensures WriteOp(c, op).0 ==> Tracks(WriteOp(c, op).1, EmitOp(s, op), base)
  {
    if !op.Flag? {
      TracksBytes(c, s, base, op);
    } else if 0 < s.count < 5 {
      TracksJoin(c, s, base, op.bit);
    } else {
      TracksNew(c, s, base, op.bit);
    }
  }

  lemma TracksBytes(c: Cursor, s: Layout, base: seq<byte>, op: Op)
    requires Tracks(c, s, base) && !op.Flag?
    ensures WriteOp(c, op).0 <==> |EmitOp(s, op).out| <= c.capacity
    ensures WriteOp(c, op).0 ==> Tracks(WriteOp(c, op).1, EmitOp(s, op), base)
  {
    var e := Encoding(op);
    assert WriteOp(c, op) == WriteRaw(c, e);
    assert EmitOp(s, op) == s.(out := s.out + e);
    if c.pos + |e| <= c.capacity {
      var c1 := WriteRaw(c, e).1;
      assert c1.data == Put(c.data, c.pos, e) == c.data[..c.pos] + e + c.data[c.pos + |e|..];
      assert c.data[..c.pos] == s.out;
      assert c.data[c.pos + |e|..] == base[c.pos + |e|..];
      assert c1.pos == c.pos + |e|;
    }
  }

  lemma TracksJoin(c: Cursor, s: Layout, base: seq<byte>, v: bool)
    requires Tracks(c, s, base) && 0 < s.count < 5
    ensures WriteOp(c, Flag(v)).0
    ensures Tracks(WriteOp(c, Flag(v)).1, EmitOp(s, Flag(v)), base)
  {
    WriteBitShape(c, v);
    var b := s.out[s.bookmark];
    assert c.data[c.bookmark] == b;
    var x := Pack(if v then SetBit(b, s.count) else b, s.count + 1);
    UpdateInPrefix(s.out, base[c.pos..], s.bookmark, x);
  }

  lemma UpdateInPrefix(a: seq<byte>, t: seq<byte>, k: nat, x: byte)
    requires k < |a|
    ensures (a + t)[k := x] == a[k := x] + t
  {
  }

  lemma TracksNew(c: Cursor, s: Layout, base: seq<byte>, v: bool)
    requires Tracks(c, s, base) && !(0 < s.count < 5)
    ensures WriteOp(c, Flag(v)).0 <==> |EmitOp(s, Flag(v)).out| <= c.capacity
    ensures WriteOp(c, Flag(v)).0 ==> Tracks(WriteOp(c, Flag(v)).1, EmitOp(s, Flag(v)), base)
  {
    WriteBitShape(c, v);
    if c.pos + 1 <= c.capacity {
      var c1 := WriteBit(c, v).1;
      var s1 := EmitOp(s, Flag(v));
      assert base[c.pos..] == [base[c.pos]] + base[c.pos + 1..];
      assert c1.data == s1.out + base[c1.pos..];
    }
  }

  /** WriteAll succeeds exactly when the image fits, and then has laid it out. */
  lemma {:induction false} TracksAll(c: Cursor, s: Layout, base: seq<byte>, ops: seq<Op>)
    requires Tracks(c, s, base)
    ensures WriteAll(c, ops).0 <==> |Emit(s, ops).out| <= c.capacity
    ensures WriteAll(c, ops).0 ==> Tracks(WriteAll(c, ops).1, Emit(s, ops), base)
    decreases |ops|
  {
    if ops != [] {
      TracksStep(c, s, base, ops[0]);
      var s1 := EmitOp(s, ops[0]);
      if WriteOp(c, ops[0]).0 {
        TracksAll(WriteOp(c, ops[0]).1, s1, base, ops[1..]);
      }
    }
  }

  /** Writing ops into a fresh buffer over data with the given capacity
    * succeeds iff the image fits; the buffer then holds the image followed
    * by the untouched rest of data, with the cursor just past the image. */
  lemma WriteImage(data: seq<byte>, capacity: nat, ops: seq<Op>)
    requires capacity <= |data|
    ensures WriteAll(Init(data, capacity), ops).0 <==> |Image(ops)| <= capacity
    ensures WriteAll(Init(data, capacity), ops).0 ==>
      WriteAll(Init(data, capacity), ops).1.pos == |Image(ops)|
      && WriteAll(Init(data, capacity), ops).1.data == Image(ops) + data[|Image(ops)|..]
  {
    assert data[0..] == data;
    TracksAll(Init(data, capacity), Empty, data, ops);
  }

  /** Reading the image of ops, as a payload of exactly its length, with the
    * same sequence of reads returns every value written. */
  lemma ReadImage(ops: seq<Op>)
    ensures ReadAll(Init(Image(ops), |Image(ops)|), ops).Some?
    ensures ReadAll(Init(Image(ops), |Image(ops)|), ops).value.0 == ops
  {
    var img := Image(ops);
    WriteImage(img, |img|, ops);
    assert img[|img|..] == [];
    assert img + [] == img;
    RoundTrip(img, |img|, ops);
    assert Reset(WriteAll(Init(img, |img|), ops).1) == Init(img, |img|);
  }

  /** Byte writes only, no bits. */
  predicate NoFlags(ops: seq<Op>)
    decreases |ops|
  {
    ops == [] || (!ops[0].Flag? && NoFlags(ops[1..]))
  }

  /** The image of a sequence of byte writes is their encodings in order. */
  function Encodings(ops: seq<Op>): seq<byte>
    requires NoFlags(ops)
  {
    if ops == [] then [] else Encoding(ops[0]) + Encodings(ops[1..])
  }

  lemma {:induction false} EmitBytes(s: Layout, ops: seq<Op>)
    requires LValid(s) && NoFlags(ops)
    ensures Emit(s, ops) == s.(out := s.out + Encodings(ops))
    decreases |ops|
  {
    if ops != [] {
      var e := Encoding(ops[0]);
      assert EmitOp(s, ops[0]) == s.(out := s.out + e);
      EmitBytes(EmitOp(s, ops[0]), ops[1..]);
      assert s.out + e + Encodings(ops[1..]) == s.out + Encodings(ops);
    }
  }

  lemma {:induction false} EncodingsAppend(a: seq<Op>, b: seq<Op>)
    requires NoFlags(a) && NoFlags(b)
    ensures NoFlags(a + b) && Encodings(a + b) == Encodings(a) + Encodings(b)
    decreases |a|
  {
    if a == [] {
      assert a + b == b;
    } else {
      assert (a + b)[1..] == a[1..] + b;
      EncodingsAppend(a[1..], b);
    }
  }

  lemma Encodings1(a: Op)
    requires !a.Flag?
    ensures NoFlags([a]) && Encodings([a]) == Encoding(a)
  {
    assert [a][1..] == [];
  }

  lemma Encodings2(a: Op, b: Op)
    requires !a.Flag? && !b.Flag?
    ensures NoFlags([a, b]) && Encodings([a, b]) == Encoding(a) + Encoding(b)
  {
    assert [a, b][1..] == [b] && [b][1..] == [];
    assert NoFlags([b]);
    assert Encodings([b]) == Encoding(b);
  }

  /** Byte writes alone lay out their encodings. */
  lemma ImageOfBytes(ops: seq<Op>)
    requires NoFlags(ops)
    ensures Image(ops) == Encodings(ops)
  {
    EmitBytes(Empty, ops);
  }

  /** One more byte write adds its encoding at the end. */
  lemma EncodingsSnoc(ops: seq<Op>, z: Op)
    requires NoFlags(ops) && !z.Flag?
    ensures NoFlags(ops + [z]) && Encodings(ops + [z]) == Encodings(ops) + Encoding(z)
  {
    Encodings1(z);
    EncodingsAppend(ops, [z]);
  }

  lemma Encodings3(a: Op, b: Op, c: Op)
    requires !a.Flag? && !b.Flag? && !c.Flag?
    ensures NoFlags([a, b, c])
    ensures Encodings([a, b, c]) == Encoding(a) + Encoding(b) + Encoding(c)
  {
    Encodings2(a, b);
    EncodingsSnoc([a, b], c);
    assert [a, b] + [c] == [a, b, c];
  }

  lemma Encodings4(a: Op, b: Op, c: Op, d: Op)
    requires !a.Flag? && !b.Flag? && !c.Flag? && !d.Flag?
    ensures NoFlags([a, b, c, d])
    ensures Encodings([a, b, c, d]) == Encoding(a) + Encoding(b) + Encoding(c) + Encoding(d)
  {
    Encodings3(a, b, c);
    EncodingsSnoc([a, b, c], d);
    assert [a, b, c] + [d] == [a, b, c, d];
  }

  lemma Encodings5(a: Op, b: Op, c: Op, d: Op, e: Op)
    requires !a.Flag? && !b.Flag? && !c.Flag? && !d.Flag? && !e.Flag?
    ensures NoFlags([a, b, c, d, e])
    ensures Encodings([a, b, c, d, e]) == Encoding(a) + Encoding(b) + Encoding(c) + Encoding(d) + Encoding(e)
  {
    Encodings4(a, b, c, d);
    EncodingsSnoc([a, b, c, d], e);
    assert [a, b, c, d] + [e] == [a, b, c, d, e];
  }

  /** Byte writes followed by one bit: their encodings, then a fresh group
    * byte holding the bit. */
  lemma BytesThenFlag(ops: seq<Op>, v: bool)
    requires NoFlags(ops)
    ensures Image(ops + [Flag(v)]) == Encodings(ops) + [if v then 1 else 0]
  {
    EmitAppend(Empty, ops, [Flag(v)]);
    EmitBytes(Empty, ops);
    var s := Emit(Empty, ops);
    assert s == Layout(Encodings(ops), 0, 0);
    assert Emit(s, [Flag(v)]) == EmitOp(s, Flag(v));
  }

  lemma EmitOne(s: Layout, op: Op)
    requires LValid(s)
    ensures Emit(s, [op]) == EmitOp(s, op)
  {
    assert [op][1..] == [];
  }

  /** Two bits written with no group open share one new byte: count field 1
    * (0x20), the first bit in bit 0 and the second in bit 1. */
  lemma TwoFreshBits(e: seq<byte>, bm: nat, c: byte, y: bool)
    requires c < 2
    ensures Emit(Layout(e, bm, 0), [Flag(c == 1), Flag(y)]) ==
      Layout(e + [0x20 + c + (if y then 2 else 0)], |e|, 2)
  {
    EmitTwo(Layout(e, bm, 0), Flag(c == 1), Flag(y));
    assert EmitOp(Layout(e, bm, 0), Flag(c == 1)) == Layout(e + [c], |e|, 1);
    SecondBit(e, c, y);
    SecondBitPacked(c, y);
  }

  lemma SecondBit(e: seq<byte>, c: byte, y: bool)
    requires c < 2
    ensures EmitOp(Layout(e + [c], |e|, 1), Flag(y)) ==
      Layout(e + [Pack(if y then SetBit(c, 1) else c, 2)], |e|, 2)
  {
    JoinBitAt(e, c, [], 1, y);
    assert e + [c] + [] == e + [c];
  }

  lemma SecondBitPacked(c: byte, y: bool)
    requires c < 2
    ensures Pack(if y then SetBit(c, 1) else c, 2) == 0x20 + c + (if y then 2 else 0)
  {
    SetBitOne(c);
    PackLow(if y then SetBit(c, 1) else c, 2);
  }

  lemma EmitTwo(s: Layout, a: Op, b: Op)
    requires LValid(s)
    ensures Emit(s, [a, b]) == EmitOp(EmitOp(s, a), b)
  {
    assert [a, b][1..] == [b];
    EmitOne(EmitOp(s, a), b);
  }

  /** A bit joining an open group of k bits whose byte b sits after prefix e
    * and before rest: bit k is set for a true bit and the count field grows. */
  lemma JoinBitAt(e: seq<byte>, b: byte, rest: seq<byte>, k: nat, v: bool)
    requires 0 < k < 5 && Total(b) == k
    ensures EmitOp(Layout(e + [b] + rest, |e|, k), Flag(v)) ==
      Layout(e + [Pack(if v then SetBit(b, k) else b, k + 1)] + rest, |e|, k + 1)
  {
    var x := Pack(if v then SetBit(b, k) else b, k + 1);
    assert (e + [b] + rest)[|e|] == b;
    UpdateInPrefix(e + [b], rest, |e|, x);
    assert (e + [b])[|e| := x] == e + [x];
  }

  /** A false bit joining an open group of k bits only raises the count
    * field of its byte (low holds the group's bits). */
  lemma JoinClearBit(e: seq<byte>, low: nat, rest: seq<byte>, k: nat)
    requires 0 < k < 5 && low < 32
    ensures Emit(Layout(e + [low + (k - 1) * 32] + rest, |e|, k), [Flag(false)]) ==
      Layout(e + [low + k * 32] + rest, |e|, k + 1)
  {
    var b := low + (k - 1) * 32;
    EmitOne(Layout(e + [b] + rest, |e|, k), Flag(false));
    assert Total(b) == k by { DivPlusMultiple(low, k - 1); }
    JoinBitAt(e, b, rest, k, false);
    assert Pack(b, k + 1) == low + k * 32 by { ModPlusMultiple(low, k - 1); }
  }

  lemma DivPlusMultiple(low: nat, t: nat)
    requires low < 32
    ensures (low + t * 32) / 32 == t
  {
  }

  lemma ModPlusMultiple(low: nat, t: nat)
    requires low < 32
    ensures (low + t * 32) % 32 == low
  {
  }

  lemma EmitFour(s: Layout, a: seq<Op>, b: seq<Op>, c: seq<Op>, d: seq<Op>)
    requires LValid(s)
    ensures Emit(s, a + b + c + d) == Emit(Emit(Emit(Emit(s, a), b), c), d)
  {
    EmitAppend(s, a + b + c, d);
    EmitAppend(s, a + b, c);
    EmitAppend(s, a, b);
  }

  lemma {:induction false} EmitAppend(s: Layout, a: seq<Op>, b: seq<Op>)
    requires LValid(s)
    ensures Emit(s, a + b) == Emit(Emit(s, a), b)
    decreases |a|
  {
    if a != [] {
      assert (a + b)[1..] == a[1..] + b;
      EmitAppend(EmitOp(s, a[0]), a[1..], b);
    } else {
      assert a + b == b;
    }
  }

  /** One step of a write sequence: a failing first write fails the whole
    * sequence, a succeeding one leaves the rest to run from its result. */
  lemma WriteAllStep(c: Cursor, op: Op, rest: seq<Op>, ok: bool, c1: Cursor)
    requires Valid(c) && (ok, c1) == WriteOp(c, op)
    ensures !ok ==> !WriteAll(c, [op] + rest).0
    ensures ok ==> WriteAll(c, [op] + rest) == WriteAll(c1, rest)
  {
    assert ([op] + rest)[1..] == rest;
  }

  /** What a buffer-based builder promises: -1 exactly when the image of its
    * writes does not fit in bufSize bytes, and otherwise that image at the
    * start of the buffer, its length returned, and nothing after it touched. */
  ghost predicate Built(n: int, now: seq<byte>, before: seq<byte>, bufSize: nat, ops: seq<Op>)
  {
    (n == -1 <==> |Image(ops)| > bufSize)
    && (n >= 0 ==> n == |Image(ops)| && n <= |before| && now == Image(ops) + before[n..])
  }

  /** bc_buf_init over buf, the writes ops in order with -1 on the first
    * failure, then the cursor position as the length. */
  method Build(buf: array<byte>, bufSize: nat, ops: seq<Op>) returns (n: int)
    requires bufSize <= buf.Length
    modifies buf
    ensures Built(n, buf[..], old(buf[..]), bufSize, ops)
  {
    WriteImage(buf[..], bufSize, ops);
    var b := new ByteBuffer.Buffer(buf, bufSize);
    var ok := b.WriteOps(ops);
    if !ok {
      return -1;
    }
    return b.pos;
  }
}
