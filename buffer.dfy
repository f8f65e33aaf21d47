/** bc_buffer_t of buffer.c as an object: the primitives move the cursor and
  * the bit-pack bookkeeping in place and write into the backing array. Each
  * method is proved to take the buffer exactly to the state the matching
  * BufferModel function computes, so the model's lemmas (failure leaves the
  * cursor alone, little-endian layout, the write/read round trip) hold of
  * the object. */
module ByteBuffer {
  import opened Bytes
  import M = BufferModel

  class Buffer {
    const data: array<byte>
    const capacity: nat
    var pos: nat
    var bitBookmark: nat
    var bitCount: nat

    /** The buffer as a BufferModel value. */
    function State(): M.Cursor
      reads this, data
    {
      M.Cursor(M.Memory(data[..]), capacity, pos, bitBookmark, bitCount)
    }

    ghost predicate Valid()
      reads this, data
    {
      M.Valid(State())
    }

    /** bc_buf_init over caller-owned memory. */
    constructor (mem: array<byte>, capacity: nat)
      requires capacity <= mem.Length
      ensures data == mem && State() == M.Init(mem[..], capacity) && Valid()
    {
      data := mem;
      this.capacity := capacity;
      pos := 0;
      bitBookmark := 0;
      bitCount := 0;
    }

    /** bc_buf_reset. */
    method Reset()
      requires Valid()
      modifies this
      ensures State() == M.Reset(old(State())) && Valid()
    {
      pos := 0;
      bitBookmark := 0;
      bitCount := 0;
    }

    /** bc_buf_remaining. */
    function Remaining(): (n: nat)
      reads this
      ensures pos < capacity ==> n == capacity - pos
      ensures pos >= capacity ==> n == 0
    {
      if pos < capacity then capacity - pos else 0
    }

    method WriteU8(val: u8) returns (ok: bool)
      requires Valid()
      modifies this, data
      ensures (ok, State()) == M.WriteU8(old(State()), val) && Valid()
    {
      if pos + 1 > capacity {
        return false;
      }
      data[pos] := val;
      pos := pos + 1;
      assert data[..] == M.Put(old(data[..]), old(pos), [val]);
      return true;
    }

    method WriteU16(val: u16) returns (ok: bool)
      requires Valid()
      modifies this, data
      ensures (ok, State()) == M.WriteU16(old(State()), val) && Valid()
    {
      if pos + 2 > capacity {
        return false;
      }
      data[pos] := val % 0x100;
      pos := pos + 1;
      data[pos] := (val / 0x100) % 0x100;
      pos := pos + 1;
      assert data[..] == M.Put(old(data[..]), old(pos), LeU16(val));
      return true;
    }

    method WriteI32(val: i32) returns (ok: bool)
      requires Valid()
      modifies this, data
      ensures (ok, State()) == M.WriteI32(old(State()), val) && Valid()
    {
      if pos + 4 > capacity {
        return false;
      }
      var v := ToU32(val);
      LeI32Bytes(val);
      Store4(v % 0x100, (v / 0x100) % 0x100, (v / 0x1_0000) % 0x100, (v / 0x100_0000) % 0x100);
      return true;
    }

    /** The four byte stores and cursor advances of bc_buf_write_i32. */
    method Store4(b0: byte, b1: byte, b2: byte, b3: byte)
      requires Valid() && pos + 4 <= capacity
      modifies this, data
      ensures State() == M.WriteRaw(old(State()), [b0, b1, b2, b3]).1 && Valid()
    {
      ghost var p := pos;
      data[pos] := b0;
      pos := pos + 1;
      data[pos] := b1;
      pos := pos + 1;
      data[pos] := b2;
      pos := pos + 1;
      data[pos] := b3;
      pos := pos + 1;
      assert data[p..p + 4] == [b0, b1, b2, b3];
      assert data[..] == M.Put(old(data[..]), p, [b0, b1, b2, b3]);
    }

    /** bc_buf_write_u32 (declared beside the i32 writer, which it mirrors):
      * four little-endian bytes. */
    method WriteU32(val: u32) returns (ok: bool)
      requires Valid()
      modifies this, data
      ensures (ok, State()) == M.WriteU32(old(State()), val) && Valid()
    {
      if pos + 4 > capacity {
        return false;
      }
      LeU32Bytes(val);
      var e := [val % 0x100, (val / 0x100) % 0x100, (val / 0x1_0000) % 0x100, val / 0x100_0000];
      assert e == LeU32(val);
      Store4(e[0], e[1], e[2], e[3]);
      return true;
    }

    /** bc_buf_write_f32 writes the float's bit pattern as an i32. */
    method WriteF32(bits: u32) returns (ok: bool)
      requires Valid()
      modifies this, data
      ensures (ok, State()) == M.WriteU32(old(State()), bits) && Valid()
    {
      ok := WriteI32(ToI32(bits));
      assert ToU32(ToI32(bits)) == bits;
    }

    method WriteBytes(src: seq<byte>) returns (ok: bool)
      requires Valid()
      modifies this, data
      ensures (ok, State()) == M.WriteRaw(old(State()), src) && Valid()
    {
      if pos + |src| > capacity {
        return false;
      }
      CopyIn(src);
      pos := pos + |src|;
      return true;
    }

    /** The memcpy of bc_buf_write_bytes: src lands at the cursor and no other
      * byte or field changes. */
    method CopyIn(src: seq<byte>)
      requires pos + |src| <= data.Length
      modifies data
      ensures data[..] == M.Put(old(data[..]), pos, src)
    {
      var i := 0;
      while i < |src|
        invariant 0 <= i <= |src|
        invariant forall k :: 0 <= k < i ==> data[pos + k] == src[k]
        invariant forall k :: 0 <= k < data.Length && !(pos <= k < pos + i) ==> data[k] == old(data[k])
      {
        data[pos + i] := src[i];
        i := i + 1;
      }
      assert data[pos..pos + |src|] == src;
    }

    /** bc_buf_write_bit. */
    method WriteBit(val: bool) returns (ok: bool)
      requires Valid()
      modifies this, data
      ensures (ok, State()) == M.WriteBit(old(State()), val) && Valid()
      decreases bitCount
    {
      M.WriteBitShape(State(), val);
      if bitCount == 0 {
        if pos + 1 > capacity {
          return false;
        }
        bitBookmark := pos;
        data[pos] := 0;
        pos := pos + 1;
        bitCount := 1;
        data[bitBookmark] := if val then 1 else 0;
        assert data[..] == old(data[..])[old(pos) := if val then 1 else 0];
      } else if bitCount < 5 {
        var b := data[bitBookmark];
        if val {
          b := M.SetBit(b, bitCount);
        }
        bitCount := bitCount + 1;
        assert b % 0x20 + ((bitCount - 1) % 8) * 0x20 == M.Pack(b, bitCount);
        b := b % 0x20 + ((bitCount - 1) % 8) * 0x20;
        data[bitBookmark] := b;
      } else {
        ghost var c := old(State());
        bitCount := 0;
        assert M.WriteBit(c, val) == M.WriteBit(State(), val);
        ok := WriteBit(val);
        return;
      }
      return true;
    }

    /** One write primitive chosen by the kind of op. */
    method WriteOp(op: M.Op) returns (ok: bool)
      requires Valid()
      modifies this, data
      ensures (ok, State()) == M.WriteOp(old(State()), op) && Valid()
    {
      match op
      case U8(v) => ok := WriteU8(v);
      case U16(v) => ok := WriteU16(v);
      case I32(v) => ok := WriteI32(v);
      case U32(v) => ok := WriteU32(v);
      case Raw(src) => ok := WriteBytes(src);
      case Flag(v) => ok := WriteBit(v);
    }

    /** The chain `if (!bc_buf_write_...(&b, ...)) return -1;` of every
      * buffer-based builder: the writes in order, stopping at the first that
      * fails. */
    method WriteOps(ops: seq<M.Op>) returns (ok: bool)
      requires Valid()
      modifies this, data
      ensures (ok, State()) == M.WriteAll(old(State()), ops) && Valid()
    {
      var i := 0;
      while i < |ops|
        invariant 0 <= i <= |ops| && Valid()
        invariant M.WriteAll(old(State()), ops) == M.WriteAll(State(), ops[i..])
      {
        assert ops[i..][0] == ops[i] && ops[i..][1..] == ops[i + 1..];
        ok := WriteOp(ops[i]);
        if !ok {
          return;
        }
        i := i + 1;
      }
      return true;
    }

    method ReadU8() returns (ok: bool, val: u8)
      requires Valid()
      modifies this
      ensures ok <==> M.ReadU8(old(State())).Some?
      ensures ok ==> (val, State()) == M.ReadU8(old(State())).value
      ensures !ok ==> State() == old(State())
      ensures Valid()
    {
      if pos + 1 > capacity {
        return false, 0;
      }
      val := data[pos];
      pos := pos + 1;
      ok := true;
    }

    method ReadU16() returns (ok: bool, val: u16)
      requires Valid()
      modifies this
      ensures ok <==> M.ReadU16(old(State())).Some?
      ensures ok ==> (val, State()) == M.ReadU16(old(State())).value
      ensures !ok ==> State() == old(State())
      ensures Valid()
    {
      if pos + 2 > capacity {
        return false, 0;
      }
      val := data[pos] as int + 0x100 * (data[pos + 1] as int);
      pos := pos + 2;
      ok := true;
    }

    method ReadI32() returns (ok: bool, val: i32)
      requires Valid()
      modifies this
      ensures ok <==> M.ReadI32(old(State())).Some?
      ensures ok ==> (val, State()) == M.ReadI32(old(State())).value
      ensures !ok ==> State() == old(State())
      ensures Valid()
    {
      if pos + 4 > capacity {
        return false, 0;
      }
      var v := data[pos] as int + 0x100 * (data[pos + 1] as int)
        + 0x1_0000 * (data[pos + 2] as int + 0x100 * (data[pos + 3] as int));
      assert v == U32At(data[pos..pos + 4], 0);
      pos := pos + 4;
      val := ToI32(v);
      ok := true;
    }

    /** bc_buf_read_u32 (declared beside the i32 reader, which it mirrors). */
    method ReadU32() returns (ok: bool, val: u32)
      requires Valid()
      modifies this
      ensures ok <==> M.ReadU32(old(State())).Some?
      ensures ok ==> (val, State()) == M.ReadU32(old(State())).value
      ensures !ok ==> State() == old(State())
      ensures Valid()
    {
      if pos + 4 > capacity {
        return false, 0;
      }
      val := data[pos] as int + 0x100 * (data[pos + 1] as int)
        + 0x1_0000 * (data[pos + 2] as int + 0x100 * (data[pos + 3] as int));
      assert val == U32At(data[pos..pos + 4], 0);
      pos := pos + 4;
      ok := true;
    }

    /** bc_buf_read_f32: the i32 read, its bits kept as the float's pattern. */
    method ReadF32() returns (ok: bool, bits: u32)
      requires Valid()
      modifies this
      ensures ok <==> M.ReadU32(old(State())).Some?
      ensures ok ==> (bits, State()) == M.ReadU32(old(State())).value
      ensures !ok ==> State() == old(State())
      ensures Valid()
    {
      var v: i32;
      ok, v := ReadI32();
      bits := ToU32(v);
    }

    method ReadBytes(len: nat) returns (ok: bool, dst: seq<byte>)
      requires Valid()
      modifies this
      ensures ok <==> M.ReadRaw(old(State()), len).Some?
      ensures ok ==> (dst, State()) == M.ReadRaw(old(State()), len).value
      ensures !ok ==> State() == old(State())
      ensures Valid()
    {
      if pos + len > capacity {
        return false, [];
      }
      dst := data[pos..pos + len];
      pos := pos + len;
      ok := true;
    }

    /** bc_buf_read_bit. */
    method ReadBit() returns (ok: bool, out: bool)
      requires Valid()
      modifies this
      ensures ok <==> M.ReadBit(old(State())).Some?
      ensures ok ==> (out, State()) == M.ReadBit(old(State())).value
      ensures !ok ==> State() == old(State())
      ensures Valid()
    {
      if bitCount == 0 {
        if pos + 1 > capacity {
          return false, false;
        }
        var b := data[pos];
        pos := pos + 1;
        bitBookmark := pos - 1;
        var count := (b / 0x20) % 8 + 1;
        bitCount := count;
        out := b % 2 != 0;
        bitCount := bitCount - 1;
      } else {
        var b := data[bitBookmark];
        var total := (b / 0x20) % 8 + 1;
        var bitIdx := total - bitCount;
        out := M.Bit(b, bitIdx);
        bitCount := bitCount - 1;
      }
      ok := true;
    }
  }
}
