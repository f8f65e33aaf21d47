/** The read side of bc_buffer_t as the message parsers use it: a buffer
  * initialised over a payload of known bytes, read field by field with no
  * bit group open. Each read is stated in terms of the payload and the
  * cursor offset, so a parser's proof is about offsets alone. */
module Reader {
  import opened Bytes
  import ByteBuffer
  import BufferModel

  /** b reads the payload p: its capacity is |p|, its first |p| bytes are
    * p, and no bit group is open. */
  ghost predicate Over(b: ByteBuffer.Buffer, p: seq<byte>)
    reads b, b.data
  {
    b.capacity == |p| <= b.data.Length && b.data[..b.capacity] == p
    && b.bitCount == 0 && b.pos <= b.capacity
  }

  /** bc_buf_init over the first len bytes of payload. */
  method Open(payload: array<byte>, len: nat) returns (b: ByteBuffer.Buffer)
    requires len <= payload.Length
    ensures fresh(b) && Over(b, payload[..len]) && b.pos == 0
  {
    b := new ByteBuffer.Buffer(payload, len);
  }

  method GetU8(b: ByteBuffer.Buffer, ghost p: seq<byte>) returns (ok: bool, v: u8)
    requires Over(b, p)
    modifies b
    ensures Over(b, p)
    ensures ok <==> old(b.pos) + 1 <= |p|
    ensures ok ==> v == p[old(b.pos)] && b.pos == old(b.pos) + 1
    ensures !ok ==> b.pos == old(b.pos)
  {
    ok, v := b.ReadU8();
  }

  method GetU16(b: ByteBuffer.Buffer, ghost p: seq<byte>) returns (ok: bool, v: u16)
    requires Over(b, p)
    modifies b
    ensures Over(b, p)
    ensures ok <==> old(b.pos) + 2 <= |p|
    ensures ok ==> v == U16At(p, old(b.pos)) && b.pos == old(b.pos) + 2
    ensures !ok ==> b.pos == old(b.pos)
  {
    ok, v := b.ReadU16();
    if ok {
      assert b.data[old(b.pos)..old(b.pos) + 2] == p[old(b.pos)..old(b.pos) + 2];
    }
  }

  method GetI32(b: ByteBuffer.Buffer, ghost p: seq<byte>) returns (ok: bool, v: i32)
    requires Over(b, p)
    modifies b
    ensures Over(b, p)
    ensures ok <==> old(b.pos) + 4 <= |p|
    ensures ok ==> v == I32At(p, old(b.pos)) && b.pos == old(b.pos) + 4
    ensures !ok ==> b.pos == old(b.pos)
  {
    ok, v := b.ReadI32();
    if ok {
      assert b.data[old(b.pos)..old(b.pos) + 4] == p[old(b.pos)..old(b.pos) + 4];
    }
  }

  /** bc_buf_read_f32, the float kept as its bit pattern. */
  method GetF32(b: ByteBuffer.Buffer, ghost p: seq<byte>) returns (ok: bool, v: u32)
    requires Over(b, p)
    modifies b
    ensures Over(b, p)
    ensures ok <==> old(b.pos) + 4 <= |p|
    ensures ok ==> v == U32At(p, old(b.pos)) && b.pos == old(b.pos) + 4
    ensures !ok ==> b.pos == old(b.pos)
  {
    ok, v := b.ReadF32();
    if ok {
      assert b.data[old(b.pos)..old(b.pos) + 4] == p[old(b.pos)..old(b.pos) + 4];
    }
  }

  /** bc_buf_read_bytes, and the reads of the opaque cv3/cv4/cf16 groups. */
  method GetBytes(b: ByteBuffer.Buffer, ghost p: seq<byte>, n: nat) returns (ok: bool, v: seq<byte>)
    requires Over(b, p)
    modifies b
    ensures Over(b, p)
    ensures ok <==> old(b.pos) + n <= |p|
    ensures ok ==> v == p[old(b.pos)..old(b.pos) + n] && b.pos == old(b.pos) + n
    ensures !ok ==> b.pos == old(b.pos)
  {
    ok, v := b.ReadBytes(n);
    if ok {
      assert b.data[old(b.pos)..old(b.pos) + n] == p[old(b.pos)..old(b.pos) + n];
    }
  }

  /** bc_buf_read_bit with no bit group open: the next byte opens a group
    * and its bit 0 is the value. The buffer is then inside that group, so
    * this is the last read a parser makes through Over. */
  method GetBit(b: ByteBuffer.Buffer, ghost p: seq<byte>) returns (ok: bool, v: bool)
    requires Over(b, p)
    modifies b
    ensures ok <==> old(b.pos) + 1 <= |p|
    ensures ok ==> v == BufferModel.Bit(p[old(b.pos)], 0)
  {
    ok, v := b.ReadBit();
  }
}
