/** Decimal text as printf's %u, %d and %02u write it, with the readers
  * that take it back. */
module Decimal {
  import opened Bytes

  predicate IsDigit(c: byte) { 48 <= c <= 57 }

  predicate AllDigits(s: seq<byte>) { forall k :: 0 <= k < |s| ==> IsDigit(s[k]) }

  /** %u: the shortest decimal spelling of n, most significant digit first. */
  function Digits(n: nat): (r: seq<byte>)
    ensures 1 <= |r| && AllDigits(r)
    ensures n < 10 <==> |r| == 1
    decreases n
  {
    if n < 10 then [48 + n] else Digits(n / 10) + [48 + n % 10]
  }

  /** The number a run of decimal digits spells. */
  function Value(s: seq<byte>): nat
    requires AllDigits(s)
  {
    if |s| == 0 then 0 else Value(s[..|s| - 1]) * 10 + (s[|s| - 1] - 48)
  }

  lemma {:induction false} DigitsRoundTrip(n: nat)
    ensures Value(Digits(n)) == n
    decreases n
  {
    if n >= 10 {
      var d := Digits(n / 10);
      assert (d + [48 + n % 10])[..|d|] == d;
      DigitsRoundTrip(n / 10);
    }
  }

  /** No leading zero: Digits never starts with '0' unless it spells 0. */
  lemma {:induction false} DigitsNoLeadingZero(n: nat)
    ensures Digits(n)[0] == 48 <==> n == 0
    decreases n
  {
    if n >= 10 {
      DigitsNoLeadingZero(n / 10);
    }
  }

  function Pow10(k: nat): (p: nat)
    ensures p >= 1
  {
    if k == 0 then 1 else 10 * Pow10(k - 1)
  }

  /** A number below 10^k never takes more than k digits, so a buffer sized
    * for k digits is never overrun. */
  lemma {:induction false} DigitsFit(n: nat, k: nat)
    requires 1 <= k && n < Pow10(k)
    ensures |Digits(n)| <= k
    decreases k
  {
    if n >= 10 {
      assert k >= 2;
      DigitsFit(n / 10, k - 1);
    }
  }

  /** %d: a minus sign before the digits of a negative value. */
  function Signed(v: int): (r: seq<byte>)
    ensures 1 <= |r|
    ensures forall k :: 0 <= k < |r| ==> IsDigit(r[k]) || r[k] == 45
  {
    if v < 0 then [45] + Digits(-v) else Digits(v)
  }

  function SignedValue(s: seq<byte>): int
  {
    if 1 <= |s| && s[0] == 45 && AllDigits(s[1..]) then -(Value(s[1..]) as int)
    else if AllDigits(s) then Value(s)
    else 0
  }

  lemma SignedRoundTrip(v: int)
    ensures SignedValue(Signed(v)) == v
  {
    if v < 0 {
      assert Signed(v)[1..] == Digits(-v);
      DigitsRoundTrip(-v);
    } else {
      DigitsRoundTrip(v);
    }
  }

  /** %02u: at least two digits, padded with a leading '0'. */
  function Pad2(n: nat): (r: seq<byte>)
    ensures AllDigits(r) && 2 <= |r|
  {
    if n < 10 then [48] + Digits(n) else Digits(n)
  }

  lemma Pad2RoundTrip(n: nat)
    ensures Value(Pad2(n)) == n
    ensures n < 100 ==> |Pad2(n)| == 2
  {
    if n < 10 {
      var r := Pad2(n);
      assert r == [48, 48 + n];
      assert r[..1] == [48] && r[..1][..0] == [];
      assert Value(r[..1]) == 0;
    } else {
      DigitsRoundTrip(n);
      if n < 100 {
        DigitsFit(n, 2);
      }
    }
  }
}
