/** The position-tracked byte stream of buffer.c (bc_buffer_t) as a value:
  * little-endian integer and raw-byte reads and writes that fail without
  * moving when they would pass the capacity, and the packing of up to five
  * booleans into one byte laid out as [count-1:3][bits:5].
  *
  * Every primitive is a function on the value type Cursor; the class
  * ByteBuffer.Buffer performs the same steps in place on an array and is
  * proved to follow these functions. Bit operations on a byte are written
  * arithmetically: bit k of b is b halved k times, modulo 2; b & 0x1F is
  * b % 32 and (b >> 5) & 7 is b / 32, which agree with the C operators on
  * [0, 256). */
module BufferModel {
  import opened Bytes

  /** 1 << k. */
  function Pow2(k: nat): (p: nat)
    ensures p >= 1
  {
    if k == 0 then 1 else 2 * Pow2(k - 1)
  }

  /** Bit k of a byte: (b >> k) & 1. */
  predicate Bit(b: nat, k: nat)
  {
    if k == 0 then b % 2 == 1 else Bit(b / 2, k - 1)
  }

  /** b | (1 << k). */
  function SetBit(b: byte, k: nat): (r: byte)
    requires k < 5
  {
    if Bit(b, k) then b else SetBitClear(b, k)
  }

  /** Adding 2^k to a byte whose bit k is clear stays below 256. */
  function SetBitClear(b: byte, k: nat): (r: byte)
    requires k < 5 && !Bit(b, k)
  {
    Pow2Byte();
    AddClearBitAt(b, k, k, 8);
    b + Pow2(k)
  }

  /** The number of booleans recorded in a bit-pack byte: ((b >> 5) & 7) + 1. */
  function Total(b: byte): (n: nat)
    ensures 1 <= n <= 8
  {
    b / 32 + 1
  }

  /** A bit-pack byte holding the low five bits of b and the count n. */
  function Pack(b: byte, n: nat): (r: byte)
    requires 1 <= n <= 5
    ensures Total(r) == n
  {
    b % 32 + (n - 1) * 32
  }

  /** The state of a bc_buffer_t: its bytes, capacity, cursor and bit-pack
    * bookkeeping (the bookmark byte and the count of bits in its group). */
  datatype Cursor = Cursor(payload: Memory, capacity: nat, pos: nat, bookmark: nat, count: nat)
  {
    /** The buffer's bytes. */
    const data: seq<byte> := payload.bytes
  }

  /** The bytes a buffer works over, wrapped so that every cursor over the
    * same memory holds the same value. */
  datatype Memory = Memory(bytes: seq<byte>)

  /** What every primitive preserves: the cursor is within the capacity, and
    * an open bit group has its byte before the cursor and counts no more
    * bits than that byte records. */
  predicate Valid(c: Cursor)
  {
    c.capacity <= |c.data| && c.pos <= c.capacity && c.count <= 7
    && (c.count > 0 ==> c.bookmark < c.pos && c.count <= Total(c.data[c.bookmark]))
  }

  /** A buffer over existing memory, as bc_buf_init leaves it. */
  function Init(data: seq<byte>, capacity: nat): (c: Cursor)
    requires capacity <= |data|
    ensures Valid(c) && c.pos == 0 && c.count == 0
  {
    Cursor(Memory(data), capacity, 0, 0, 0)
  }

  /** bc_buf_reset: rewind the cursor and close any bit group; data is kept. */
  function Reset(c: Cursor): (r: Cursor)
    requires Valid(c)
    ensures Valid(r) && r.data == c.data && r.capacity == c.capacity
    ensures r.pos == 0 && r.bookmark == 0 && r.count == 0
  {
    c.(pos := 0, bookmark := 0, count := 0)
  }

  /** bc_buf_remaining. */
  function Remaining(c: Cursor): (n: nat)
    ensures c.pos < c.capacity ==> n == c.capacity - c.pos
    ensures c.pos >= c.capacity ==> n == 0
  {
    if c.pos < c.capacity then c.capacity - c.pos else 0
  }

  /** s with bytes overwritten from index at. */
  function Put(s: seq<byte>, at: nat, bytes: seq<byte>): (r: seq<byte>)
    requires at + |bytes| <= |s|
    ensures |r| == |s| && r[at..at + |bytes|] == bytes
    ensures forall i :: 0 <= i < |s| && !(at <= i < at + |bytes|) ==> r[i] == s[i]
  {
    s[..at] + bytes + s[at + |bytes|..]
  }

  /** Writing a run of bytes at the cursor: the shared shape of
    * bc_buf_write_u8/u16/i32/f32/bytes. */
  function WriteRaw(c: Cursor, bytes: seq<byte>): (r: (bool, Cursor))
    requires Valid(c)
    ensures Valid(r.1) && r.1.capacity == c.capacity && r.1.count == c.count
    ensures r.1.bookmark == c.bookmark && |r.1.data| == |c.data|
    ensures r.0 <==> c.pos + |bytes| <= c.capacity
    ensures !r.0 ==> r.1 == c
    ensures r.0 ==> r.1.pos == c.pos + |bytes| && r.1.data[c.pos..r.1.pos] == bytes
    ensures forall i :: 0 <= i < |c.data| && !(c.pos <= i < r.1.pos) ==> r.1.data[i] == c.data[i]
  {
    if c.pos + |bytes| > c.capacity then (false, c)
    else (true, c.(payload := Memory(Put(c.data, c.pos, bytes)), pos := c.pos + |bytes|))
  }

  function WriteU8(c: Cursor, v: u8): (r: (bool, Cursor))
    requires Valid(c)
  {
    WriteRaw(c, [v])
  }

  function WriteU16(c: Cursor, v: u16): (r: (bool, Cursor))
    requires Valid(c)
  {
    WriteRaw(c, LeU16(v))
  }

  function WriteI32(c: Cursor, v: i32): (r: (bool, Cursor))
    requires Valid(c)
  {
    WriteRaw(c, LeI32(v))
  }

  function WriteU32(c: Cursor, v: u32): (r: (bool, Cursor))
    requires Valid(c)
  {
    WriteRaw(c, LeU32(v))
  }

  /** bc_buf_write_bit. With no open group (or a full one) it opens a group at
    * the cursor; otherwise it ORs the value into the bookmark byte at the next
    * bit position and rewrites the count. */
  function WriteBit(c: Cursor, val: bool): (r: (bool, Cursor))
    requires Valid(c)
    ensures Valid(r.1) && r.1.capacity == c.capacity && |r.1.data| == |c.data|
    decreases c.count
  {
    if c.count == 0 then
      if c.pos + 1 > c.capacity then (false, c)
      else (true, c.(payload := Memory(c.data[c.pos := if val then 1 else 0]), bookmark := c.pos,
                     pos := c.pos + 1, count := 1))
    else if c.count < 5 then
      var b := c.data[c.bookmark];
      var b1 := if val then SetBit(b, c.count) else b;
      (true, c.(payload := Memory(c.data[c.bookmark := Pack(b1, c.count + 1)]), count := c.count + 1))
    else
      WriteBit(c.(count := 0), val)
  }

  /** write_bit fails only when it must open a group and the buffer is full,
    * and then it leaves everything but the bit count (reset to 0) alone; a first bit, or a sixth, opens a new group byte at the
    * cursor holding count 1 and the value in bit 0; any other bit joins the
    * open group's byte, which then records one more bit. */
  lemma WriteBitShape(c: Cursor, val: bool)
    requires Valid(c)
    ensures !WriteBit(c, val).0 <==> !Open(c) && c.pos + 1 > c.capacity
    ensures !WriteBit(c, val).0 ==> WriteBit(c, val).1 == c.(count := 0)
    ensures !Open(c) && c.pos + 1 <= c.capacity ==>
      WriteBit(c, val).1 == c.(payload := Memory(c.data[c.pos := if val then 1 else 0]), bookmark := c.pos,
                               pos := c.pos + 1, count := 1)
    ensures Open(c) ==>
      var b := c.data[c.bookmark];
      WriteBit(c, val).1 == c.(payload := Memory(c.data[c.bookmark := Pack(if val then SetBit(b, c.count) else b, c.count + 1)]),
                               count := c.count + 1)
  {
  }

  /** Reading a run of n bytes at the cursor: the shared shape of
    * bc_buf_read_u8/u16/i32/f32/bytes. None is the false return, which
    * leaves the cursor where it was. */
  function ReadRaw(c: Cursor, n: nat): (r: Option<(seq<byte>, Cursor)>)
    requires Valid(c)
    ensures r.None? <==> c.pos + n > c.capacity
    ensures r.Some? ==> Valid(r.value.1) && r.value.1 == c.(pos := c.pos + n)
    ensures r.Some? ==> r.value.0 == c.data[c.pos..c.pos + n]
  {
    if c.pos + n > c.capacity then None
    else Some((c.data[c.pos..c.pos + n], c.(pos := c.pos + n)))
  }

  function ReadU8(c: Cursor): (r: Option<(u8, Cursor)>)
    requires Valid(c)
  {
    match ReadRaw(c, 1)
    case None => None
    case Some((s, c1)) => Some((s[0], c1))
  }

  function ReadU16(c: Cursor): (r: Option<(u16, Cursor)>)
    requires Valid(c)
  {
    match ReadRaw(c, 2)
    case None => None
    case Some((s, c1)) => Some((U16At(s, 0), c1))
  }

  function ReadI32(c: Cursor): (r: Option<(i32, Cursor)>)
    requires Valid(c)
  {
    match ReadRaw(c, 4)
    case None => None
    case Some((s, c1)) => Some((I32At(s, 0), c1))
  }

  function ReadU32(c: Cursor): (r: Option<(u32, Cursor)>)
    requires Valid(c)
  {
    match ReadRaw(c, 4)
    case None => None
    case Some((s, c1)) => Some((U32At(s, 0), c1))
  }

  /** bc_buf_read_bit. With no bits left in the group it takes the byte at the
    * cursor as a new group and returns its bit 0; otherwise it returns bit
    * (total - count) of the bookmark byte. */
  function ReadBit(c: Cursor): (r: Option<(bool, Cursor)>)
    requires Valid(c)
    ensures r.Some? ==> Valid(r.value.1) && r.value.1.data == c.data
    ensures r.None? <==> c.count == 0 && c.pos + 1 > c.capacity
  {
    if c.count == 0 then
      if c.pos + 1 > c.capacity then None
      else
        var b := c.data[c.pos];
        Some((Bit(b, 0), c.(pos := c.pos + 1, bookmark := c.pos, count := Total(b) - 1)))
    else
      var b := c.data[c.bookmark];
      Some((Bit(b, Total(b) - c.count), c.(count := c.count - 1)))
  }

  // ---------------------------------------------------------------------
  // Sequences of writes and the reads that mirror them.

  /** One write primitive with its argument (an f32 is written as its 32-bit
    * pattern, bc_buf_write_f32 being bc_buf_write_i32 of those bits). */
  datatype Op = U8(u8v: u8) | U16(u16v: u16) | I32(i32v: i32) | U32(u32v: u32)
              | Raw(bytes: seq<byte>) | Flag(bit: bool)

  /** The bytes a non-bit write puts at the cursor. */
  function Encoding(op: Op): (e: seq<byte>)
    requires !op.Flag?
  {
    match op
    case U8(v) => [v]
    case U16(v) => LeU16(v)
    case I32(v) => LeI32(v)
    case U32(v) => LeU32(v)
    case Raw(s) => s
  }

  function WriteOp(c: Cursor, op: Op): (r: (bool, Cursor))
    requires Valid(c)
    ensures Valid(r.1) && r.1.capacity == c.capacity && |r.1.data| == |c.data|
  {
    match op
    case U8(v) => WriteU8(c, v)
    case U16(v) => WriteU16(c, v)
    case I32(v) => WriteI32(c, v)
    case U32(v) => WriteU32(c, v)
    case Raw(s) => WriteRaw(c, s)
    case Flag(v) => WriteBit(c, v)
  }

  /** The same read primitive as op's write, returning what it read as an Op. */
  function ReadOp(c: Cursor, op: Op): (r: Option<(Op, Cursor)>)
    requires Valid(c)
    ensures r.Some? ==> Valid(r.value.1) && r.value.1.data == c.data && r.value.1.capacity == c.capacity
  {
    match op
    case U8(_) => (match ReadU8(c) case None => None case Some((v, c1)) => Some((U8(v), c1)))
    case U16(_) => (match ReadU16(c) case None => None case Some((v, c1)) => Some((U16(v), c1)))
    case I32(_) => (match ReadI32(c) case None => None case Some((v, c1)) => Some((I32(v), c1)))
    case U32(_) => (match ReadU32(c) case None => None case Some((v, c1)) => Some((U32(v), c1)))
    case Raw(s) => (match ReadRaw(c, |s|) case None => None case Some((v, c1)) => Some((Raw(v), c1)))
    case Flag(_) => (match ReadBit(c) case None => None case Some((v, c1)) => Some((Flag(v), c1)))
  }

  /** Writes performed in order; false as soon as one fails. */
  function WriteAll(c: Cursor, ops: seq<Op>): (r: (bool, Cursor))
    requires Valid(c)
    ensures Valid(r.1) && r.1.capacity == c.capacity && |r.1.data| == |c.data|
    decreases |ops|
  {
    if ops == [] then (true, c)
    else
      var (ok, c1) := WriteOp(c, ops[0]);
      if !ok then (false, c1) else WriteAll(c1, ops[1..])
  }

  /** Reads of the same kinds in the same order; None as soon as one fails. */
  function ReadAll(c: Cursor, ops: seq<Op>): (r: Option<(seq<Op>, Cursor)>)
    requires Valid(c)
    decreases |ops|
  {
    if ops == [] then Some(([], c))
    else
      match ReadOp(c, ops[0])
      case None => None
      case Some((o, c1)) =>
        match ReadAll(c1, ops[1..])
        case None => None
        case Some((os, c2)) => Some(([o] + os, c2))
  }

  /** A bit group that the next write_bit would join. */
  predicate Open(c: Cursor)
  {
    0 < c.count < 5
  }

  /** A writer's open group has no bit set at or above its count. */
  predicate Clean(c: Cursor)
    requires Valid(c)
  {
    Open(c) ==> forall j :: c.count <= j < 5 ==> !Bit(c.data[c.bookmark], j)
  }

  /** What later writes can do to bytes already written: only the byte of the
    * open bit group changes, and in it only the count and the bits not yet
    * used. */
  lemma {:induction false} Preserve(w: Cursor, ops: seq<Op>)
    requires Valid(w) && WriteAll(w, ops).0
    ensures forall i :: 0 <= i < w.pos && !(Open(w) && i == w.bookmark) ==>
      WriteAll(w, ops).1.data[i] == w.data[i]
    ensures Open(w) ==> Total(WriteAll(w, ops).1.data[w.bookmark]) >= w.count
    ensures Open(w) ==> forall j :: 0 <= j < w.count ==>
      (Bit(WriteAll(w, ops).1.data[w.bookmark], j) <==> Bit(w.data[w.bookmark], j))
    decreases |ops|
  {
    if ops != [] {
      var w1 := WriteOp(w, ops[0]).1;
      var d := WriteAll(w, ops).1.data;
      assert d == WriteAll(w1, ops[1..]).1.data;
      Preserve(w1, ops[1..]);
      if !ops[0].Flag? {
        assert WriteOp(w, ops[0]) == WriteRaw(w, Encoding(ops[0]));
      } else if !Open(w) {
        WriteBitShape(w, ops[0].bit);
      } else {
        JoinKeepsBits(w, ops[0].bit);
        if !Open(w1) {
          assert d[w.bookmark] == w1.data[w.bookmark];
        }
      }
    }
  }

  /** Adding a bit to an open group rewrites the group's byte alone, raises
    * its total by one and keeps the bits already there. */
  lemma JoinKeepsBits(w: Cursor, val: bool)
    requires Valid(w) && Open(w)
    ensures WriteBit(w, val).0
    ensures var w1 := WriteBit(w, val).1;
      w1.bookmark == w.bookmark && w1.pos == w.pos && w1.count == w.count + 1
      && |w1.data| == |w.data| && Total(w1.data[w.bookmark]) == w.count + 1
    ensures forall i :: 0 <= i < |w.data| && i != w.bookmark ==>
      WriteBit(w, val).1.data[i] == w.data[i]
    ensures forall j :: 0 <= j < w.count ==>
      (Bit(WriteBit(w, val).1.data[w.bookmark], j) <==> Bit(w.data[w.bookmark], j))
  {
    WriteBitShape(w, val);
    var b := w.data[w.bookmark];
    var b1 := if val then SetBit(b, w.count) else b;
    forall j | 0 <= j < w.count
      ensures Bit(Pack(b1, w.count + 1), j) <==> Bit(b, j)
    {
      PackBits(b1, w.count + 1, j);
      SetBitBits(b, w.count, j);
    }
  }

  /** The reader and the writer in step: same bytes (the final ones), same
    * cursor, and the reader has exactly the bits of the writer's open group
    * that the writer has yet to add. */
  predicate Coupled(w: Cursor, r: Cursor, d: seq<byte>)
  {
    Valid(w) && Valid(r) && Clean(w) && r.data == d && |d| == |w.data|
    && r.capacity == w.capacity && r.pos == w.pos
    && (!Open(w) ==> r.count == 0)
    && (Open(w) ==> r.bookmark == w.bookmark && r.count + w.count == Total(d[w.bookmark]))
  }

  lemma SmallBits(j: nat)
    ensures !Bit(0, j) && (Bit(1, j) <==> j == 0)
  {
    if j > 0 {
      assert Bit(1, j) == Bit(0, j - 1);
      SmallBits(j - 1);
    }
  }

  lemma DecodeEncoding(op: Op)
    requires !op.Flag?
    ensures op.U16? ==> U16At(Encoding(op), 0) == op.u16v
    ensures op.I32? ==> I32At(Encoding(op), 0) == op.i32v
    ensures op.U32? ==> U32At(Encoding(op), 0) == op.u32v
  {
    var e := Encoding(op);
    assert [] + e + [] == e;
    match op
    case U16(v) => U16RoundTrip(v, [], []);
    case I32(v) => I32RoundTripAt(v, [], []);
    case U32(v) => U32RoundTrip(v, [], []);
    case _ =>
  }

  /** One step of the round trip: reading op where the writer wrote it gives
    * op back and keeps the two in step. */
  lemma ReadStep(w: Cursor, r: Cursor, op: Op, rest: seq<Op>)
    requires Valid(w) && WriteOp(w, op).0 && WriteAll(WriteOp(w, op).1, rest).0
    requires Coupled(w, r, WriteAll(WriteOp(w, op).1, rest).1.data)
    ensures ReadOp(r, op).Some? && ReadOp(r, op).value.0 == op
    ensures Coupled(WriteOp(w, op).1, ReadOp(r, op).value.1, r.data)
  {
    Preserve(WriteOp(w, op).1, rest);
    if op.Flag? {
      if Open(w) {
        ReadStepJoin(w, r, op.bit);
      } else {
        ReadStepNew(w, r, op.bit);
      }
    } else {
      ReadStepBytes(w, r, op);
    }
  }

  /** The facts Preserve gives about the final bytes d after write w1. */
  predicate Kept(w1: Cursor, d: seq<byte>)
    requires Valid(w1)
  {
    |d| == |w1.data|
    && (forall i :: 0 <= i < w1.pos && !(Open(w1) && i == w1.bookmark) ==> d[i] == w1.data[i])
    && (Open(w1) ==> Total(d[w1.bookmark]) >= w1.count)
    && (Open(w1) ==> forall j :: 0 <= j < w1.count ==>
          (Bit(d[w1.bookmark], j) <==> Bit(w1.data[w1.bookmark], j)))
  }

  lemma ReadStepBytes(w: Cursor, r: Cursor, op: Op)
    requires Valid(w) && !op.Flag? && WriteOp(w, op).0
    requires Coupled(w, r, r.data) && Kept(WriteOp(w, op).1, r.data)
    ensures ReadOp(r, op).Some? && ReadOp(r, op).value.0 == op
    ensures Coupled(WriteOp(w, op).1, ReadOp(r, op).value.1, r.data)
  {
    var e := Encoding(op);
    assert WriteOp(w, op) == WriteRaw(w, e);
    WrittenBytesKept(w, e, r.data);
    ReadEncoding(r, op);
  }

  lemma WrittenBytesKept(w: Cursor, e: seq<byte>, d: seq<byte>)
    requires Valid(w) && WriteRaw(w, e).0 && Kept(WriteRaw(w, e).1, d)
    ensures d[w.pos..w.pos + |e|] == e
  {
    var w1 := WriteRaw(w, e).1;
    forall i | w.pos <= i < w.pos + |e|
      ensures d[i] == w1.data[i]
    {
    }
  }

  /** Reading where an encoding lies gives back the op it encodes. */
  lemma ReadEncoding(r: Cursor, op: Op)
    requires Valid(r) && !op.Flag? && r.pos + |Encoding(op)| <= r.capacity
    requires r.data[r.pos..r.pos + |Encoding(op)|] == Encoding(op)
    ensures ReadOp(r, op) == Some((op, r.(pos := r.pos + |Encoding(op)|)))
  {
    DecodeEncoding(op);
  }

  lemma ReadStepNew(w: Cursor, r: Cursor, v: bool)
    requires Valid(w) && !Open(w) && WriteBit(w, v).0
    requires Coupled(w, r, r.data) && Kept(WriteBit(w, v).1, r.data)
    ensures ReadBit(r).Some? && ReadBit(r).value.0 == v
    ensures Coupled(WriteBit(w, v).1, ReadBit(r).value.1, r.data)
  {
    var w1 := WriteBit(w, v).1;
    WriteBitShape(w, v);
    SmallBits(0);
    forall j | 1 <= j < 5
      ensures !Bit(w1.data[w1.bookmark], j)
    {
      SmallBits(j);
    }
  }

  lemma ReadStepJoin(w: Cursor, r: Cursor, v: bool)
    requires Valid(w) && Open(w) && Coupled(w, r, r.data) && Kept(WriteBit(w, v).1, r.data)
    ensures ReadBit(r).Some? && ReadBit(r).value.0 == v
    ensures Coupled(WriteBit(w, v).1, ReadBit(r).value.1, r.data)
  {
    var w1 := WriteBit(w, v).1;
    var d := r.data;
    WriteBitShape(w, v);
    var c := w.count;
    var b := w.data[w.bookmark];
    var b1 := if v then SetBit(b, c) else b;
    if !Open(w1) {
      assert d[w.bookmark] == w1.data[w.bookmark];
    }
    PackBits(b1, c + 1, c);
    SetBitBits(b, c, c);
    assert Bit(d[w.bookmark], c) <==> v;
    forall j | c + 1 <= j < 5
      ensures !Bit(w1.data[w1.bookmark], j)
    {
      PackBits(b1, c + 1, j);
      SetBitBits(b, c, j);
    }
  }

  lemma {:induction false} ReadBack(w: Cursor, r: Cursor, ops: seq<Op>)
    requires Valid(w) && WriteAll(w, ops).0
    requires Coupled(w, r, WriteAll(w, ops).1.data)
    ensures ReadAll(r, ops).Some? && ReadAll(r, ops).value.0 == ops
    decreases |ops|
  {
    if ops != [] {
      var w1 := WriteOp(w, ops[0]).1;
      assert WriteAll(w, ops) == WriteAll(w1, ops[1..]);
      ReadStep(w, r, ops[0], ops[1..]);
      var r1 := ReadOp(r, ops[0]).value.1;
      ReadBack(w1, r1, ops[1..]);
      assert ops == [ops[0]] + ops[1..];
    }
  }

  /** Write-then-read: after bc_buf_init, a sequence of writes that all
    * succeed, and bc_buf_reset, the same sequence of reads succeeds and
    * returns every value written, bits included. */
  lemma RoundTrip(data: seq<byte>, capacity: nat, ops: seq<Op>)
    requires capacity <= |data| && WriteAll(Init(data, capacity), ops).0
    ensures ReadAll(Reset(WriteAll(Init(data, capacity), ops).1), ops).Some?
    ensures ReadAll(Reset(WriteAll(Init(data, capacity), ops).1), ops).value.0 == ops
  {
    var w := Init(data, capacity);
    var r := Reset(WriteAll(w, ops).1);
    ReadBack(w, r, ops);
  }

  /** A byte write between two bit writes does not close the group: the
    * second bit joins the first one's byte (count 2, bits 0b11 = 0x23) instead
    * of opening a new one, so three writes take two bytes. */
  lemma BitGroupSpansByteWrites(data: seq<byte>)
    requires |data| == 4
    ensures WriteAll(Init(data, 4), [Flag(true), U8(3), Flag(true)]).1.pos == 2
    ensures WriteAll(Init(data, 4), [Flag(true), U8(3), Flag(true)]).1.data[..2] == [0x23, 3]
  {
    var ops := [Flag(true), U8(3), Flag(true)];
    var c0 := Init(data, 4);
    WriteBitShape(c0, true);
    var c1 := WriteBit(c0, true).1;
    assert WriteAll(c0, ops) == WriteAll(c1, ops[1..]);
    var c2 := WriteU8(c1, 3).1;
    assert c2.data[0] == 1 && c2.data[1] == 3 && c2.pos == 2 && c2.count == 1 && c2.bookmark == 0;
    assert WriteAll(c1, ops[1..]) == WriteAll(c2, ops[2..]);
    SecondBitJoins(c2);
    assert WriteAll(c2, ops[2..]) == WriteAll(WriteBit(c2, true).1, []);
  }

  lemma SecondBitJoins(c: Cursor)
    requires Valid(c) && c.count == 1 && c.bookmark == 0 && c.data[0] == 1
    ensures WriteBit(c, true).1 == c.(payload := Memory(c.data[0 := 0x23]), count := 2)
  {
    WriteBitShape(c, true);
    assert Bit(1, 1) == Bit(0, 0);
    assert SetBit(1, 1) == 3;
    assert Pack(SetBit(1, 1), 2) == 0x23;
  }

  // ---------------------------------------------------------------------
  // Arithmetic facts about bit-pack bytes.

  /** Setting a clear bit k adds 2^k, changes bit k alone, and keeps a value
    * below 2^m below 2^m. */
  lemma {:induction false} AddClearBitAt(b: nat, k: nat, j: nat, m: nat)
    requires k < m && b < Pow2(m) && !Bit(b, k)
    ensures b + Pow2(k) < Pow2(m)
    ensures Bit(b + Pow2(k), j) <==> j == k || Bit(b, j)
    decreases k
  {
    var h, r := b / 2, b % 2;
    var pm := Pow2(m - 1);
    assert b == 2 * h + r && Pow2(m) == 2 * pm;
    if k == 0 {
      assert r == 0 && Pow2(k) == 1;
      if j > 0 {
        assert (b + 1) / 2 == h;
      }
    } else {
      var p := Pow2(k - 1);
      assert Pow2(k) == 2 * p;
      assert b + Pow2(k) == 2 * (h + p) + r;
      assert (b + Pow2(k)) / 2 == h + p && (b + Pow2(k)) % 2 == r;
      if j > 0 {
        AddClearBitAt(h, k - 1, j - 1, m - 1);
      } else {
        AddClearBitAt(h, k - 1, k - 1, m - 1);
      }
    }
  }

  lemma Pow2Byte()
    ensures Pow2(8) == 0x100
  {
    assert Pow2(2) == 4 && Pow2(4) == 16 && Pow2(6) == 64;
  }

  /** Packing a byte whose count field is clear only adds the count. */
  lemma PackLow(b: byte, n: nat)
    requires b < 32 && 1 <= n <= 5
    ensures Pack(b, n) == b + (n - 1) * 32
  {
  }

  /** Setting bit 1 of a byte that holds at most bit 0 adds 2. */
  lemma SetBitOne(c: byte)
    requires c < 2
    ensures SetBit(c, 1) == c + 2
  {
    assert !Bit(c, 1) by { assert c / 2 == 0; }
    assert Pow2(1) == 2;
  }

  /** SetBit changes bit k alone, and sets it. */
  lemma SetBitBits(b: byte, k: nat, j: nat)
    requires k < 5
    ensures Bit(SetBit(b, k), j) <==> j == k || Bit(b, j)
  {
    if !Bit(b, k) {
      Pow2Byte();
      AddClearBitAt(b, k, j, 8);
    }
  }

  /** Adding a multiple of 2^m leaves the bits below m alone. */
  lemma {:induction false} HighAddKeepsLowBits(a: nat, t: nat, m: nat, j: nat)
    requires j < m
    ensures Bit(a + Pow2(m) * t, j) <==> Bit(a, j)
    decreases j
  {
    var p := Pow2(m - 1) * t;
    assert Pow2(m) * t == 2 * p;
    if j > 0 {
      assert (a + 2 * p) / 2 == a / 2 + p;
      HighAddKeepsLowBits(a / 2, t, m - 1, j - 1);
    }
  }

  /** HighAddKeepsLowBits for the five bits of a bit-pack byte. */
  lemma AddMultipleOf32(a: nat, t: nat, j: nat)
    requires j < 5
    ensures Bit(a + 32 * t, j) <==> Bit(a, j)
  {
    assert Pow2(3) == 8 && Pow2(5) == 32;
    HighAddKeepsLowBits(a, t, 5, j);
  }

  /** Pack keeps the five low bits. */
  lemma PackBits(b: byte, n: nat, j: nat)
    requires 1 <= n <= 5 && j < 5
    ensures Bit(Pack(b, n), j) <==> Bit(b, j)
  {
    var lo, hi := b % 32, b / 32;
    assert b == lo + 32 * hi;
    AddMultipleOf32(lo, n - 1, j);
    AddMultipleOf32(lo, hi, j);
  }
}
