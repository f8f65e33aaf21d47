/** Byte copies into caller-owned arrays, the memcpy of the builders. */
module Arrays {
  import opened Bytes

  /** memcpy(buf + at, src, |src|). */
  method CopyAt(buf: array<byte>, at: nat, src: seq<byte>)
    requires at + |src| <= buf.Length
    modifies buf
    ensures buf[..] == old(buf[..])[..at] + src + old(buf[..])[at + |src|..]
  {
    var i := 0;
    while i < |src|
      invariant 0 <= i <= |src|
      invariant buf[..] == old(buf[..])[..at] + src[..i] + old(buf[..])[at + i..]
    {
      buf[at + i] := src[i];
      assert src[..i + 1] == src[..i] + [src[i]];
      i := i + 1;
    }
    assert src[..i] == src;
  }
}
