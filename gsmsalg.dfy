/** The GameSpy master-server validation hash (gsmsalg, enctype 0), which
  * answers a master server's "\secure\" challenge. An RC4-style key schedule
  * over the secret key sets up a 256-byte state, a stream cipher whose
  * index also advances by each challenge byte encrypts the challenge, and the
  * cipher text is base64-encoded (the alphabet of section 4 of RFC 4648) after
  * padding with zero bytes instead of '='. */
module Gsmsalg {
  import opened Bytes

  /** The state before the key schedule: enctmp[i] = i. */
  function Identity(): (s: seq<byte>)
    ensures |s| == 256 && forall i :: 0 <= i < 256 ==> s[i] == i
  {
    seq(256, i requires 0 <= i < 256 => i)
  }

  /** Exchange of two entries of the state. */
  function Swap(s: seq<byte>, i: nat, j: nat): (r: seq<byte>)
    requires i < |s| && j < |s|
    ensures |r| == |s|
  {
    s[i := s[j]][j := s[i]]
  }

  /** The key schedule's state: the table and the running index a. */
  datatype Keyed = Keyed(s: seq<byte>, a: byte)

  /** Round i of the key schedule: a advances by s[i] and key[i % |key|]
    * (mod 256), then s[a] and s[i] are exchanged. */
  function Round(st: Keyed, i: nat, key: seq<byte>): (r: Keyed)
    requires |st.s| == 256 && i < 256 && |key| > 0
    ensures |r.s| == 256
  {
    var a := (st.a + st.s[i] + key[i % |key|]) % 256;
    Keyed(Swap(st.s, a, i), a)
  }

  /** The state after the first n rounds. */
  function Rounds(key: seq<byte>, n: nat): (r: Keyed)
    requires n <= 256 && |key| > 0
    ensures |r.s| == 256
  {
    if n == 0 then Keyed(Identity(), 0) else Round(Rounds(key, n - 1), n - 1, key)
  }

  /** The table after all 256 rounds. */
  function KeySchedule(key: seq<byte>): (r: seq<byte>)
    requires |key| > 0
    ensures |r| == 256
  {
    Rounds(key, 256).s
  }

  /** Every round only exchanges entries, so the table stays a permutation of
    * 0..255. */
  lemma {:induction false} RoundsPermute(key: seq<byte>, n: nat)
    requires n <= 256 && |key| > 0
    ensures multiset(Rounds(key, n).s) == multiset(Identity())
  {
    if n > 0 {
      RoundsPermute(key, n - 1);
      var st := Rounds(key, n - 1);
      var a := (st.a + st.s[n - 1] + key[(n - 1) % |key|]) % 256;
      SwapPermutes(st.s, a, n - 1);
    }
  }

  lemma SwapPermutes(s: seq<byte>, i: nat, j: nat)
    requires i < |s| && j < |s|
    ensures multiset(Swap(s, i, j)) == multiset(s)
  {
  }

  /** The stream cipher's state: the 256-byte table and the indices a and b. */
  datatype Cipher = Cipher(s: seq<byte>, a: byte, b: byte)

  function Pow2(k: nat): (p: nat)
    ensures p >= 1
  {
    if k == 0 then 1 else 2 * Pow2(k - 1)
  }

  /** Exclusive or of two naturals, bit by bit from the least significant. */
  function XorNat(p: nat, q: nat): nat
    decreases p + q
  {
    if p == 0 && q == 0 then 0 else (p + q) % 2 + 2 * XorNat(p / 2, q / 2)
  }

  lemma {:induction false} XorBelow(p: nat, q: nat, k: nat)
    requires p < Pow2(k) && q < Pow2(k)
    ensures XorNat(p, q) < Pow2(k)
    decreases k
  {
    if k > 0 && !(p == 0 && q == 0) {
      XorBelow(p / 2, q / 2, k - 1);
    }
  }

  /** p ^ q on bytes. */
  function Xor(p: byte, q: byte): byte
  {
    XorBelow(p, q, 8);
    XorNat(p, q)
  }

  /** One challenge byte: a advances by the byte plus one, b by the entry at a,
    * the entries at a and b are exchanged, and the byte is xored with the entry
    * at (x + y) mod 256 of the new table. */
  function Step(st: Cipher, ch: byte): (r: (Cipher, byte))
    requires |st.s| == 256
    ensures |r.0.s| == 256
  {
    var a := (st.a as int + ch + 1) % 256;
    var x: int := st.s[a];
    var b := (st.b as int + x) % 256;
    var y: int := st.s[b];
    var s := Swap(st.s, b, a);
    (Cipher(s, a, b), Xor(ch, s[(x + y) % 256]))
  }

  /** The state after, and the cipher text of, a run of challenge bytes. */
  function Encipher(st: Cipher, text: seq<byte>): (r: (Cipher, seq<byte>))
    requires |st.s| == 256
    ensures |r.0.s| == 256 && |r.1| == |text|
    decreases |text|
  {
    if |text| == 0 then (st, [])
    else
      var before := Encipher(st, text[..|text| - 1]);
      var next := Step(before.0, text[|text| - 1]);
      (next.0, before.1 + [next.1])
  }

  /** The stream cipher only exchanges entries, so the table stays a
    * permutation of what the key schedule left. */
  lemma {:induction false} EncipherPermutes(st: Cipher, text: seq<byte>)
    requires |st.s| == 256
    ensures multiset(Encipher(st, text).0.s) == multiset(st.s)
    decreases |text|
  {
    if |text| > 0 {
      var before := Encipher(st, text[..|text| - 1]);
      EncipherPermutes(st, text[..|text| - 1]);
      var a := (before.0.a as int + text[|text| - 1] + 1) % 256;
      var b := (before.0.b as int + before.0.s[a]) % 256;
      SwapPermutes(before.0.s, b, a);
    }
  }

  /** The cipher text of a challenge, one byte per challenge byte. */
  function Stream(st: Cipher, text: seq<byte>): (r: seq<byte>)
    requires |st.s| == 256
    ensures |r| == |text|
  {
    Encipher(st, text).1
  }

  /** Zero bytes appended up to the next multiple of three. */
  function Pad3(t: seq<byte>): (r: seq<byte>)
    ensures |r| == (|t| + 2) / 3 * 3 && |r| % 3 == 0 && |t| <= |r| < |t| + 3
    ensures r[..|t|] == t && forall k :: |t| <= k < |r| ==> r[k] == 0
  {
    RoundUp(|t|);
    t + seq((|t| + 2) / 3 * 3 - |t|, _ => 0)
  }

  lemma RoundUp(n: nat)
    ensures n <= (n + 2) / 3 * 3 < n + 3 && ((n + 2) / 3 * 3) % 3 == 0
  {
  }

  /** gsvalfunc: the character for a 6-bit value. */
  function Sextet(v: int): (c: byte)
  {
    if v < 26 then Low8(v + 65)
    else if v < 52 then Low8(v + 71)
    else if v < 62 then Low8(v - 4)
    else if v == 62 then 43
    else if v == 63 then 47
    else 0
  }

  /** count consecutive character codes from first. */
  function Codes(first: nat, count: nat): (r: seq<byte>)
    requires first + count <= 256
    ensures |r| == count && forall k :: 0 <= k < count ==> r[k] == first + k
  {
    seq(count, k requires 0 <= k < count => first + k)
  }

  /** The base64 alphabet of section 4 of RFC 4648: 'A'..'Z', 'a'..'z',
    * '0'..'9', '+', '/'. */
  function Alphabet(): (r: seq<byte>)
    ensures |r| == 64
  {
    Codes(65, 26) + Codes(97, 26) + Codes(48, 10) + [43, 47]
  }

  predicate IsBase64(c: byte)
  {
    65 <= c <= 90 || 97 <= c <= 122 || 48 <= c <= 57 || c == 43 || c == 47
  }

  /** gsvalfunc maps the 64 values to the RFC 4648 alphabet, in its order. */
  lemma SextetIsAlphabet(v: int)
    requires 0 <= v < 64
    ensures Sextet(v) == Alphabet()[v] && IsBase64(Sextet(v))
  {
  }

  lemma {:induction false} EncodeIsBase64(t: seq<byte>)
    ensures forall k :: 0 <= k < |Encode(t)| ==> IsBase64(Encode(t)[k])
    decreases |t|
  {
    if |t| >= 3 {
      var n := |t| - 3;
      var x, y, z := t[n], t[n + 1], t[n + 2];
      EncodeIsBase64(t[..n]);
      SextetIsAlphabet(x / 4);
      SextetIsAlphabet(x % 4 * 16 + y / 16);
      SextetIsAlphabet(y % 16 * 4 + z / 64);
      SextetIsAlphabet(z % 64);
    }
  }

  /** The value of a base64 character (0 for any other byte). */
  function Index(c: byte): (v: int)
    ensures 0 <= v < 64
  {
    if 65 <= c <= 90 then c - 65
    else if 97 <= c <= 122 then c - 71
    else if 48 <= c <= 57 then c + 4
    else if c == 47 then 63
    else if c == 43 then 62
    else 0
  }

  lemma IndexOfSextet(v: int)
    requires 0 <= v < 64
    ensures Index(Sextet(v)) == v
  {
  }

  /** Three bytes x, y, z as four characters: x >> 2, ((x & 3) << 4) | (y >> 4),
    * ((y & 15) << 2) | (z >> 6) and z & 63 (the ors join disjoint bits, so
    * they are written as sums). */
  function Quad(x: byte, y: byte, z: byte): (r: seq<byte>)
    ensures |r| == 4
  {
    [Sextet(x / 4), Sextet(x % 4 * 16 + y / 16), Sextet(y % 16 * 4 + z / 64), Sextet(z % 64)]
  }

  /** The base64 text of a padded byte string, three bytes at a time (a
    * short tail is dropped; the padding makes sure there is none). */
  function Encode(t: seq<byte>): (r: seq<byte>)
    decreases |t|
  {
    if |t| < 3 then []
    else
      var n := |t| - 3;
      Encode(t[..n]) + Quad(t[n], t[n + 1], t[n + 2])
  }

  /** Four characters back to the three bytes they carry. */
  function Unquad(e: seq<byte>): (r: seq<byte>)
    requires |e| == 4
    ensures |r| == 3
  {
    var v0, v1, v2, v3 := Index(e[0]), Index(e[1]), Index(e[2]), Index(e[3]);
    [v0 * 4 + v1 / 16, v1 % 16 * 16 + v2 / 4, v2 % 4 * 64 + v3]
  }

  /** Base64 text back to bytes, four characters at a time (a short tail is
    * dropped). */
  function Decode(e: seq<byte>): (r: seq<byte>)
    decreases |e|
  {
    if |e| < 4 then []
    else Decode(e[..|e| - 4]) + Unquad(e[|e| - 4..])
  }

  lemma QuadRoundTrip(x: byte, y: byte, z: byte)
    ensures Unquad(Quad(x, y, z)) == [x, y, z]
  {
    IndexOfSextet(x / 4);
    IndexOfSextet(x % 4 * 16 + y / 16);
    IndexOfSextet(y % 16 * 4 + z / 64);
    IndexOfSextet(z % 64);
    Digit16(x % 4, y / 16);
    Digit4(y % 16, z / 64);
    var u := Unquad(Quad(x, y, z));
    assert u[0] == x / 4 * 4 + x % 4;
    assert u[1] == y / 16 * 16 + y % 16;
    assert u[2] == z / 64 * 64 + z % 64;
  }

  /** Two base-16 digits give back their values. */
  lemma Digit16(hi: int, lo: int)
    requires 0 <= lo < 16
    ensures (hi * 16 + lo) / 16 == hi && (hi * 16 + lo) % 16 == lo
  {
  }

  /** Two base-4 digits give back their values. */
  lemma Digit4(hi: int, lo: int)
    requires 0 <= lo < 4
    ensures (hi * 4 + lo) / 4 == hi && (hi * 4 + lo) % 4 == lo
  {
  }

  lemma {:induction false} EncodeLength(t: seq<byte>, k: nat)
    requires |t| == 3 * k
    ensures |Encode(t)| == 4 * k
    decreases k
  {
    if k > 0 {
      EncodeLength(t[..|t| - 3], k - 1);
    }
  }

  lemma {:induction false} EncodeRoundTrip(t: seq<byte>, k: nat)
    requires |t| == 3 * k
    ensures Decode(Encode(t)) == t
    decreases k
  {
    if k > 0 {
      var n := |t| - 3;
      var e := Encode(t);
      var q := Quad(t[n], t[n + 1], t[n + 2]);
      EncodeLength(t[..n], k - 1);
      assert e[..|e| - 4] == Encode(t[..n]) && e[|e| - 4..] == q;
      EncodeRoundTrip(t[..n], k - 1);
      QuadRoundTrip(t[n], t[n + 1], t[n + 2]);
      assert t == t[..n] + [t[n], t[n + 1], t[n + 2]];
    }
  }

  /** The NUL-terminated text bc_gsmsalg writes: empty for a challenge of
    * fewer than 1 or more than 65 characters, otherwise the base64 text of the
    * padded cipher text of the challenge under the keyed state. */
  function Hash(challenge: seq<byte>, key: seq<byte>): (r: seq<byte>)
    requires 1 <= |CText(challenge)| <= 65 ==> |CText(key)| > 0
  {
    var c := CText(challenge);
    if |c| < 1 || |c| > 65 then []
    else Encode(Pad3(Stream(Cipher(KeySchedule(CText(key)), 0, 0), c)))
  }

  /** The hash's length is 4 * ceil(n / 3) for an accepted challenge of n
    * characters, every character is in the base64 alphabet (so the text holds
    * no NUL and no backslash), and decoding it gives back the padded cipher
    * text. */
  lemma HashShape(challenge: seq<byte>, key: seq<byte>)
    requires 1 <= |CText(challenge)| <= 65 ==> |CText(key)| > 0
    ensures var n := |CText(challenge)|;
      |Hash(challenge, key)| == if 1 <= n <= 65 then (n + 2) / 3 * 4 else 0
    ensures forall k :: 0 <= k < |Hash(challenge, key)| ==> IsBase64(Hash(challenge, key)[k])
    ensures 1 <= |CText(challenge)| <= 65 ==>
      Decode(Hash(challenge, key)) == Pad3(Stream(Cipher(KeySchedule(CText(key)), 0, 0), CText(challenge)))
  {
    var c := CText(challenge);
    if 1 <= |c| <= 65 {
      EncodeIsBase64(Pad3(Stream(Cipher(KeySchedule(CText(key)), 0, 0), c)));
      EncodeRoundTrip(Pad3(Stream(Cipher(KeySchedule(CText(key)), 0, 0), c)), (|c| + 2) / 3);
      EncodeLength(Pad3(Stream(Cipher(KeySchedule(CText(key)), 0, 0), c)), (|c| + 2) / 3);
    }
  }

  /** strlen. */
  method Strlen(s: seq<byte>) returns (n: nat)
    ensures n == |CText(s)|
  {
    n := 0;
    while n < |s| && s[n] != 0
      invariant n <= |CText(s)|
    {
      n := n + 1;
    }
  }

  /** bc_gsmsalg(dst, challenge, secret_key, 0): dst receives Hash and its NUL,
    * and nothing after the NUL changes. */
  method Run(dst: array<byte>, challenge: seq<byte>, key: seq<byte>)
    requires dst.Length >= 89
    requires 1 <= |CText(challenge)| <= 65 ==> |CText(key)| > 0
    modifies dst
    ensures var h := Hash(challenge, key);
      |h| < dst.Length && dst[..|h|] == h && dst[|h|] == 0 && dst[|h| + 1..] == old(dst[|h| + 1..])
  {
    var size := Strlen(challenge);
    if size < 1 || size > 65 {
      dst[0] := 0;
    } else {
      var keysz := Strlen(key);
      var enctmp := KeyTable(key, keysz);
      var tmp, n := Encrypt(enctmp, challenge, size);
      var p := Base64Into(dst, tmp, n, (size + 2) / 3);
      HashShape(challenge, key);
      assert Hash(challenge, key) == dst[..p];
    }
  }

  /** The key schedule loop over a fresh 256-byte table. */
  method KeyTable(key: seq<byte>, keysz: nat) returns (enctmp: array<byte>)
    requires keysz == |CText(key)| && keysz > 0
    ensures fresh(enctmp) && enctmp[..] == KeySchedule(CText(key))
  {
    ghost var k := CText(key);
    enctmp := new byte[256];
    for i := 0 to 256
      invariant enctmp[..i] == Identity()[..i]
    {
      enctmp[i] := i;
    }
    assert enctmp[..] == enctmp[..256];
    var a: byte := 0;
    for i := 0 to 256
      invariant enctmp.Length == 256
      invariant Keyed(enctmp[..], a) == Rounds(k, i)
    {
      assert key[i % keysz] == k[i % keysz];
      a := KeyRound(enctmp, a, i, k, key[i % keysz]);
    }
  }

  /** One pass of the key schedule loop, as Round says. */
  method KeyRound(enctmp: array<byte>, a0: byte, i: nat, ghost key: seq<byte>, kb: byte)
    returns (a: byte)
    requires enctmp.Length == 256 && i < 256 && |key| > 0 && kb == key[i % |key|]
    modifies enctmp
    ensures Round(Keyed(old(enctmp[..]), a0), i, key) == Keyed(enctmp[..], a)
  {
    ghost var before := Keyed(enctmp[..], a0);
    a := (a0 + enctmp[i] + kb) % 256;
    var x := enctmp[a];
    enctmp[a] := enctmp[i];
    enctmp[i] := x;
    RoundStep(before, i, key, enctmp[..], a);
  }

  lemma RoundStep(st: Keyed, i: nat, key: seq<byte>, s: seq<byte>, a: byte)
    requires |st.s| == 256 && i < 256 && |key| > 0
    requires a == (st.a + st.s[i] + key[i % |key|]) % 256
    requires s == st.s[a := st.s[i]][i := st.s[a]]
    ensures Round(st, i, key) == Keyed(s, a)
  {
  }

  /** The stream cipher loop and the zero padding: tmp[..n] is the padded
    * cipher text. */
  method Encrypt(enctmp: array<byte>, challenge: seq<byte>, size: nat)
    returns (tmp: array<byte>, n: nat)
    requires enctmp.Length == 256 && size == |CText(challenge)| && size <= 65
    modifies enctmp
    ensures fresh(tmp) && tmp.Length == 66
    ensures n <= 66 && tmp[..n] == Pad3(Stream(Cipher(old(enctmp[..]), 0, 0), CText(challenge)))
  {
    ghost var c := CText(challenge);
    ghost var init := Cipher(enctmp[..], 0, 0);
    tmp := new byte[66];
    var a: byte, b: byte := 0, 0;
    var i := 0;
    while i < |challenge| && challenge[i] != 0
      invariant i <= size && enctmp.Length == 256
      invariant Encipher(init, c[..i]).0 == Cipher(enctmp[..], a, b)
      invariant Encipher(init, c[..i]).1 == tmp[..i]
      decreases |challenge| - i
    {
      CTextAt(challenge, i);
      var o;
      a, b, o := CipherByte(enctmp, a, b, challenge[i]);
      tmp[i] := o;
      EncipherSnoc(init, c, i);
      assert tmp[..i + 1] == tmp[..i] + [o];
      i := i + 1;
    }
    assert c[..i] == c;
    n := PadZeros(tmp, i);
  }

  lemma CTextAt(s: seq<byte>, i: nat)
    requires i < |s| && s[i] != 0 && i <= |CText(s)|
    ensures i < |CText(s)| && CText(s)[i] == s[i]
  {
  }

  /** One pass of the stream cipher loop: the table, a and b move on as Step
    * says and o is the cipher byte. */
  method CipherByte(enctmp: array<byte>, a0: byte, b0: byte, ch: byte)
    returns (a: byte, b: byte, o: byte)
    requires enctmp.Length == 256
    modifies enctmp
    ensures Step(Cipher(old(enctmp[..]), a0, b0), ch) == (Cipher(enctmp[..], a, b), o)
  {
    ghost var st := Cipher(enctmp[..], a0, b0);
    a := (a0 as int + ch + 1) % 256;
    var x: int := enctmp[a];
    b := (b0 as int + x) % 256;
    var y: int := enctmp[b];
    enctmp[b] := x;
    enctmp[a] := y;
    o := Xor(ch, enctmp[(x + y) % 256]);
    StepIs(st, ch, enctmp[..], a, b, o);
  }

  /** Zero bytes from tmp[i] up to the next multiple of three. */
  method PadZeros(tmp: array<byte>, i: nat) returns (n: nat)
    requires i <= 65 && tmp.Length == 66
    modifies tmp
    ensures n <= 66 && tmp[..n] == Pad3(old(tmp[..i]))
  {
    ghost var padded := Pad3(tmp[..i]);
    RoundUp(i);
    n := i;
    while n % 3 != 0
      invariant i <= n <= |padded|
      invariant tmp[..n] == padded[..n]
      decreases |padded| - n
    {
      tmp[n] := 0;
      n := n + 1;
    }
  }

  lemma EncipherSnoc(init: Cipher, c: seq<byte>, i: nat)
    requires |init.s| == 256 && i < |c|
    ensures var prev := Encipher(init, c[..i]);
      Encipher(init, c[..i + 1]) == (Step(prev.0, c[i]).0, prev.1 + [Step(prev.0, c[i]).1])
  {
    assert c[..i + 1][..i] == c[..i];
  }

  lemma StepIs(st: Cipher, ch: byte, s: seq<byte>, a: byte, b: byte, o: byte)
    requires |st.s| == 256
    requires a == (st.a as int + ch + 1) % 256 && b == (st.b as int + st.s[a]) % 256
    requires s == st.s[b := st.s[a]][a := st.s[b]]
    requires o == Xor(ch, s[(st.s[a] as int + st.s[b]) % 256])
    ensures Step(st, ch) == (Cipher(s, a, b), o)
  {
    assert Swap(st.s, b, a) == s;
  }

  /** The encoding loop: four characters for every three bytes of tmp[..n],
    * then the NUL; p is where the NUL went. */
  method Base64Into(dst: array<byte>, tmp: array<byte>, n: nat, ghost groups: nat)
    returns (p: nat)
    requires n == 3 * groups && n <= tmp.Length && 4 * groups < dst.Length && dst != tmp
    modifies dst
    ensures p == 4 * groups
    ensures dst[..p] == Encode(tmp[..n]) && dst[p] == 0
    ensures dst[p + 1..] == old(dst[p + 1..])
  {
    ghost var k := 0;
    var i := 0;
    p := 0;
    while i < n
      invariant i == 3 * k && p == 4 * k && k <= groups
      invariant dst[..p] == Encode(tmp[..i])
      invariant dst[p..] == old(dst[p..])
    {
      PutQuad(dst, p, tmp[i], tmp[i + 1], tmp[i + 2]);
      EncodeSnoc(tmp[..], i);
      assert dst[..p + 4] == dst[..p] + dst[p..p + 4];
      i, p, k := i + 3, p + 4, k + 1;
    }
    dst[p] := 0;
  }

  lemma EncodeSnoc(t: seq<byte>, i: nat)
    requires i + 3 <= |t|
    ensures Encode(t[..i + 3]) == Encode(t[..i]) + Quad(t[i], t[i + 1], t[i + 2])
  {
    assert t[..i + 3][..i] == t[..i];
  }

  /** Four stores through the output pointer. */
  method PutQuad(dst: array<byte>, p: nat, x: byte, y: byte, z: byte)
    requires p + 4 <= dst.Length
    modifies dst
    ensures dst[..p] == old(dst[..p]) && dst[p..p + 4] == Quad(x, y, z)
    ensures dst[p + 4..] == old(dst[p + 4..])
  {
    dst[p] := Sextet(x / 4);
    dst[p + 1] := Sextet(x % 4 * 16 + y / 16);
    dst[p + 2] := Sextet(y % 16 * 4 + z / 64);
    dst[p + 3] := Sextet(z % 64);
  }
}
