/** The rotate-XOR content hash of file_hash.c. The data is read as
  * little-endian 32-bit words; every word except word 1 (bytes 4..7, the
  * timestamp of a .pyc file) is XORed into the hash, which is then rotated
  * left by one. The len % 4 trailing bytes are sign-extended to 32 bits and
  * folded in the same way. */
module FileHash {

  function Rotl1(h: bv32): bv32
  {
    (h << 1) | (h >> 31)
  }

  /** Little-endian word i of the data. */
  function Word(data: seq<bv8>, i: nat): bv32
    requires 4 * i + 4 <= |data|
  {
    data[4 * i] as bv32 | (data[4 * i + 1] as bv32 << 8)
      | (data[4 * i + 2] as bv32 << 16) | (data[4 * i + 3] as bv32 << 24)
  }

  /** MOVSX of a byte: bytes >= 0x80 get their upper 24 bits set. */
  function SignExtend(b: bv8): bv32
  {
    if b < 0x80 then b as bv32 else 0xFFFF_FF00 | b as bv32
  }

  /** The hash after the first k words (word 1 skipped). */
  function Words(data: seq<bv8>, k: nat): bv32
    requires 4 * k <= |data|
  {
    if k == 0 then 0
    else if k - 1 == 1 then Words(data, k - 1)
    else Rotl1(Words(data, k - 1) ^ Word(data, k - 1))
  }

  /** The index where the trailing bytes start. */
  function TailStart(data: seq<bv8>): nat
  {
    |data| / 4 * 4
  }

  lemma TailStartBounds(data: seq<bv8>)
    ensures TailStart(data) <= |data| < TailStart(data) + 4
    ensures TailStart(data) == 4 * (|data| / 4) == |data| - |data| % 4
    ensures |data| >= 8 ==> TailStart(data) >= 8
  {
  }

  /** Folding the trailing bytes data[TailStart(data)..j] into h. */
  function Tail(h: bv32, data: seq<bv8>, j: nat): bv32
    requires TailStart(data) <= j <= |data|
    decreases j
  {
    if j == TailStart(data) then h
    else Rotl1(Tail(h, data, j - 1) ^ SignExtend(data[j - 1]))
  }

  /** The value file_hash returns for data[0..len). */
  function Hash(data: seq<bv8>): bv32
  {
    Tail(Words(data, |data| / 4), data, |data|)
  }

  /** file_hash: the word loop, then the tail loop. */
  method FileHashLoop(data: seq<bv8>) returns (hash: bv32)
    ensures hash == Hash(data)
  {
    hash := HashWords(data);
    hash := HashTail(hash, data);
  }

  /** The first loop of file_hash: every complete word except word 1. */
  method HashWords(data: seq<bv8>) returns (hash: bv32)
    ensures hash == Words(data, |data| / 4)
  {
    hash := 0;
    var dwordCount := |data| / 4;
    var i := 0;
    while i < dwordCount
      invariant 0 <= i <= dwordCount
      invariant hash == Words(data, i)
    {
      if i != 1 {
        var at := 4 * i;
        var dword := data[at] as bv32 | (data[at + 1] as bv32 << 8)
          | (data[at + 2] as bv32 << 16) | (data[at + 3] as bv32 << 24);
        assert dword == Word(data, i);
        hash := hash ^ dword;
        hash := (hash << 1) | (hash >> 31);
      }
      i := i + 1;
    }
  }

  /** The second loop of file_hash: the sign-extended trailing bytes,
    * data[|data| / 4 * 4 + j] for j below |data| % 4. */
  method HashTail(words: bv32, data: seq<bv8>) returns (hash: bv32)
    ensures hash == Tail(words, data, |data|)
  {
    hash := words;
    TailStartBounds(data);
    var remainder := |data| % 4;
    var tail := |data| / 4 * 4;
    var j := 0;
    while j < remainder
      invariant 0 <= j <= remainder
      invariant hash == Tail(words, data, tail + j)
    {
      hash := Rotl1(hash ^ SignExtend(data[tail + j]));
      j := j + 1;
    }
  }

  /** Words of two buffers that agree outside bytes 4..7 agree, except word 1. */
  lemma WordAgrees(a: seq<bv8>, b: seq<bv8>, i: nat)
    requires 4 * i + 4 <= |a| == |b| && i != 1
    requires forall k :: 0 <= k < |a| && !(4 <= k < 8) ==> a[k] == b[k]
    ensures Word(a, i) == Word(b, i)
  {
    assert a[4 * i] == b[4 * i] && a[4 * i + 1] == b[4 * i + 1];
    assert a[4 * i + 2] == b[4 * i + 2] && a[4 * i + 3] == b[4 * i + 3];
  }

  lemma {:induction false} WordsIgnoreTimestamp(a: seq<bv8>, b: seq<bv8>, k: nat)
    requires 4 * k <= |a| == |b|
    requires forall i :: 0 <= i < |a| && !(4 <= i < 8) ==> a[i] == b[i]
    ensures Words(a, k) == Words(b, k)
  {
    if k > 0 {
      WordsIgnoreTimestamp(a, b, k - 1);
      if k - 1 != 1 {
        WordAgrees(a, b, k - 1);
      }
    }
  }

  lemma {:induction false} TailAgrees(h: bv32, a: seq<bv8>, b: seq<bv8>, j: nat)
    requires |a| == |b| && TailStart(a) <= j <= |a| && (|a| <= 4 || |a| >= 8)
    requires forall i :: 0 <= i < |a| && !(4 <= i < 8) ==> a[i] == b[i]
    ensures Tail(h, a, j) == Tail(h, b, j)
    decreases j
  {
    if j > TailStart(a) {
      TailAgrees(h, a, b, j - 1);
      TailStartBounds(a);
      assert !(4 <= j - 1 < 8);
    }
  }

  /** The .pyc timestamp (bytes 4..7) never affects the hash of a buffer in
    * which those bytes form word 1, that is, one of at least 8 bytes (and,
    * trivially, one of at most 4). */
  lemma TimestampInsensitive(a: seq<bv8>, b: seq<bv8>)
    requires |a| == |b| && (|a| <= 4 || |a| >= 8)
    requires forall i :: 0 <= i < |a| && !(4 <= i < 8) ==> a[i] == b[i]
    ensures Hash(a) == Hash(b)
  {
    WordsIgnoreTimestamp(a, b, |a| / 4);
    TailAgrees(Words(a, |a| / 4), a, b, |a|);
  }

  /** In a 5..7 byte buffer, bytes 4.. are trailing bytes and are hashed. */
  lemma ShortBufferTimestampCounts()
    ensures Hash([0, 0, 0, 0, 1]) != Hash([0, 0, 0, 0, 0])
  {
    var a: seq<bv8> := [0, 0, 0, 0, 1];
    var b: seq<bv8> := [0, 0, 0, 0, 0];
    assert Words(a, 1) == 0 && Words(b, 1) == 0;
    assert TailStart(a) == 4 && TailStart(b) == 4;
    assert Tail(0, a, 4) == 0 && Tail(0, b, 4) == 0;
    assert Hash(a) == Rotl1(SignExtend(1)) == 2;
    assert Hash(b) == Rotl1(SignExtend(0)) == 0;
  }

  /** An empty buffer hashes to 0. */
  lemma EmptyIsZero()
    ensures Hash([]) == 0
  {
  }

  /** One word: 0 ^ 1 = 1, rotated gives 2. */
  lemma OneWord()
    ensures Hash([0x01, 0x00, 0x00, 0x00]) == 0x0000_0002
  {
    var d: seq<bv8> := [0x01, 0x00, 0x00, 0x00];
    assert Word(d, 0) == 1;
    assert Words(d, 1) == 2;
  }

  /** A second word is skipped whatever it holds. */
  lemma SecondWordSkipped()
    ensures Hash([0x01, 0x00, 0x00, 0x00, 0xFF, 0xFF, 0xFF, 0xFF]) == 0x0000_0002
  {
    var d: seq<bv8> := [0x01, 0x00, 0x00, 0x00, 0xFF, 0xFF, 0xFF, 0xFF];
    assert Word(d, 0) == 1;
    assert Words(d, 1) == 2;
    assert Words(d, 2) == 2;
  }

  /** A trailing 0x80 is sign-extended to 0xFFFFFF80 before the rotate. */
  lemma NegativeTailByte()
    ensures Hash([0x80]) == 0xFFFF_FF01
  {
    var d: seq<bv8> := [0x80];
    assert TailStart(d) == 0;
    assert Tail(0, d, 1) == Rotl1(0xFFFF_FF80);
  }

  /** A trailing 0x7F stays positive. */
  lemma PositiveTailByte()
    ensures Hash([0x7F]) == 0x0000_00FE
  {
    var d: seq<bv8> := [0x7F];
    assert TailStart(d) == 0;
    assert Tail(0, d, 1) == Rotl1(0x7F);
  }
}
