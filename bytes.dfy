/** Byte-level vocabulary shared by every wire-format module: the fixed-width
  * integer ranges of the C sources, their little-endian encodings and the
  * Option/Result wrappers used for error returns. */
module Bytes {

  /** One octet of a packet, as an integer in [0, 256). */
  type byte = x: int | 0 <= x < 0x100

  /** Unsigned and signed integer ranges of the C types u8/u16/u32/i32. */
  type u8 = x: int | 0 <= x < 0x100
  type u16 = x: int | 0 <= x < 0x1_0000
  type u32 = x: int | 0 <= x < 0x1_0000_0000
  type i32 = x: int | -0x8000_0000 <= x < 0x8000_0000

  datatype Option<T> = None | Some(value: T)

  /** Truncation to the low 8 bits, as a C cast to u8 does (Euclidean % keeps
    * negative inputs in range, which is what two's complement truncation gives). */
  function Low8(x: int): (b: byte)
    ensures b == x % 0x100
  {
    x % 0x100
  }

  /** Reinterpretation of a 32-bit pattern as a C int32 and back. */
  function ToI32(x: u32): (v: i32)
    ensures v % 0x1_0000_0000 == x
    ensures v >= 0 <==> x < 0x8000_0000
  {
    if x < 0x8000_0000 then x else x - 0x1_0000_0000
  }

  function ToU32(v: int): (x: u32)
    ensures (x - v) % 0x1_0000_0000 == 0
  {
    v % 0x1_0000_0000
  }

  lemma I32RoundTrip(v: i32)
    ensures ToI32(ToU32(v)) == v
  {
  }

  /** Little-endian encodings. */
  function LeU16(v: u16): (s: seq<byte>)
    ensures |s| == 2
  {
    [v % 0x100, v / 0x100]
  }

  function LeU32(v: u32): (s: seq<byte>)
    ensures |s| == 4
  {
    LeU16(v % 0x1_0000) + LeU16(v / 0x1_0000)
  }

  function LeI32(v: i32): (s: seq<byte>)
    ensures |s| == 4
  {
    LeU32(ToU32(v))
  }

  /** Little-endian decoding at an offset. */
  function U16At(s: seq<byte>, i: nat): (v: u16)
    requires i + 2 <= |s|
  {
    s[i] as int + 0x100 * (s[i + 1] as int)
  }

  function U32At(s: seq<byte>, i: nat): (v: u32)
    requires i + 4 <= |s|
  {
    U16At(s, i) + 0x1_0000 * U16At(s, i + 2)
  }

  function I32At(s: seq<byte>, i: nat): (v: i32)
    requires i + 4 <= |s|
  {
    ToI32(U32At(s, i))
  }

  lemma U16RoundTrip(v: u16, pre: seq<byte>, post: seq<byte>)
    ensures U16At(pre + LeU16(v) + post, |pre|) == v
  {
    var s := pre + LeU16(v) + post;
    assert s[|pre|] == v % 0x100 && s[|pre| + 1] == v / 0x100;
  }

  lemma U32RoundTrip(v: u32, pre: seq<byte>, post: seq<byte>)
    ensures U32At(pre + LeU32(v) + post, |pre|) == v
  {
    var lo, hi := v % 0x1_0000, v / 0x1_0000;
    assert pre + LeU32(v) + post == pre + LeU16(lo) + (LeU16(hi) + post);
    assert pre + LeU32(v) + post == (pre + LeU16(lo)) + LeU16(hi) + post;
    U16RoundTrip(lo, pre, LeU16(hi) + post);
    U16RoundTrip(hi, pre + LeU16(lo), post);
  }

  lemma I32RoundTripAt(v: i32, pre: seq<byte>, post: seq<byte>)
    ensures I32At(pre + LeI32(v) + post, |pre|) == v
  {
    U32RoundTrip(ToU32(v), pre, post);
  }

  /** An i32 read at k from bytes whose window at k is its encoding. */
  lemma I32AtWindow(s: seq<byte>, k: nat, v: i32)
    requires k + 4 <= |s| && s[k..k + 4] == LeI32(v)
    ensures I32At(s, k) == v
  {
    I32RoundTripAt(v, [], []);
    assert [] + LeI32(v) + [] == LeI32(v);
    assert s[k] == LeI32(v)[0] && s[k + 1] == LeI32(v)[1] && s[k + 2] == LeI32(v)[2] && s[k + 3] == LeI32(v)[3];
  }

  /** A u32 read at k from bytes whose window at k is its encoding. */
  lemma U32AtWindow(s: seq<byte>, k: nat, v: u32)
    requires k + 4 <= |s| && s[k..k + 4] == LeU32(v)
    ensures U32At(s, k) == v
  {
    U32RoundTrip(v, [], []);
    assert [] + LeU32(v) + [] == LeU32(v);
    assert s[k] == LeU32(v)[0] && s[k + 1] == LeU32(v)[1] && s[k + 2] == LeU32(v)[2] && s[k + 3] == LeU32(v)[3];
  }

  /** The bytes of a u16/u32 encoding depend only on the value, not on context. */
  lemma LeU32Bytes(v: u32)
    ensures LeU32(v)[0] == v % 0x100
    ensures LeU32(v)[1] == (v / 0x100) % 0x100
    ensures LeU32(v)[2] == (v / 0x1_0000) % 0x100
    ensures LeU32(v)[3] == v / 0x100_0000
  {
  }

  lemma LeI32Bytes(v: i32)
    ensures LeI32(v) == [ToU32(v) % 0x100, (ToU32(v) / 0x100) % 0x100,
                         (ToU32(v) / 0x1_0000) % 0x100, (ToU32(v) / 0x100_0000) % 0x100]
  {
    LeU32Bytes(ToU32(v));
  }

  /** The bytes of an ASCII string literal, as the C sources store them. */
  function Ascii(s: string): (r: seq<byte>)
    requires forall i :: 0 <= i < |s| ==> s[i] as int < 0x80
    ensures |r| == |s| && forall i :: 0 <= i < |s| ==> r[i] == s[i] as int
  {
    seq(|s|, i requires 0 <= i < |s| => s[i] as int)
  }

  /** The text of a C string held in s: the bytes before its first NUL, or
    * all of s when it holds none. */
  function CText(s: seq<byte>): (t: seq<byte>)
    ensures t <= s && 0 !in t
    ensures |t| < |s| ==> s[|t|] == 0
  {
    if |s| == 0 || s[0] == 0 then [] else [s[0]] + CText(s[1..])
  }
}
