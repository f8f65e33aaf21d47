/** The AlbyRules stream cipher of cipher.c: every packet byte is XORed with
  * the 10-byte key "AlbyRules!", repeating. */
module Cipher {

  /** "AlbyRules!" in ASCII. */
  const Key: seq<bv8> := [0x41, 0x6C, 0x62, 0x79, 0x52, 0x75, 0x6C, 0x65, 0x73, 0x21]

  /** The key byte applied at packet offset i. */
  function KeyAt(i: nat): bv8
  {
    Key[i % 10]
  }

  /** The enciphered image of a packet prefix. */
  function Encrypt(s: seq<bv8>): (r: seq<bv8>)
    ensures |r| == |s|
  {
    seq(|s|, i requires 0 <= i < |s| => s[i] ^ KeyAt(i))
  }

  /** alby_rules_cipher: XOR data[0..len) in place; nothing past len moves. */
  method AlbyRulesCipher(data: array<bv8>, len: nat)
    requires len <= data.Length
    modifies data
    ensures data[..len] == Encrypt(old(data[..len]))
    ensures data[len..] == old(data[len..])
  {
    var i := 0;
    while i < len
      invariant 0 <= i <= len
      invariant forall k :: 0 <= k < i ==> data[k] == old(data[k]) ^ KeyAt(k)
      invariant forall k :: i <= k < data.Length ==> data[k] == old(data[k])
    {
      data[i] := data[i] ^ KeyAt(i);
      i := i + 1;
    }
  }

  /** Applying the cipher twice restores the input. */
  lemma Involution(s: seq<bv8>)
    ensures Encrypt(Encrypt(s)) == s
  {
    forall i | 0 <= i < |s|
      ensures Encrypt(Encrypt(s))[i] == s[i]
    {
      var k := KeyAt(i);
      assert (s[i] ^ k) ^ k == s[i];
    }
  }

  /** Enciphering zeros yields the key stream itself. */
  lemma ZerosGiveKey(s: seq<bv8>, i: nat)
    requires i < |s| && s[i] == 0
    ensures Encrypt(s)[i] == KeyAt(i)
  {
    assert (0 as bv8) ^ KeyAt(i) == KeyAt(i);
  }

  /** On a zero buffer the output repeats with period 10. */
  lemma ZeroPeriod(s: seq<bv8>, i: nat)
    requires i + 10 < |s| && s[i] == 0 && s[i + 10] == 0
    ensures Encrypt(s)[i] == Encrypt(s)[i + 10]
  {
    ZerosGiveKey(s, i);
    ZerosGiveKey(s, i + 10);
    assert KeyAt(i + 10) == KeyAt(i);
  }

  /** The cipher acts byte by byte: enciphering a prefix is a prefix of
    * enciphering the whole. */
  lemma PrefixStable(s: seq<bv8>, n: nat)
    requires n <= |s|
    ensures Encrypt(s[..n]) == Encrypt(s)[..n]
  {
  }

  /** Known key bytes: a zero block of 10 enciphers to "AlbyRules!". */
  lemma ZeroBlockIsKey()
    ensures Encrypt([0, 0, 0, 0, 0, 0, 0, 0, 0, 0]) == Key
  {
    var z: seq<bv8> := [0, 0, 0, 0, 0, 0, 0, 0, 0, 0];
    forall i | 0 <= i < 10
      ensures Encrypt(z)[i] == Key[i]
    {
      ZerosGiveKey(z, i);
      assert i % 10 == i;
    }
  }
}
