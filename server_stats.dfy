/** The session summary's arithmetic: tick differences, the two time
  * formats it prints, and the opcode tables it builds by collecting the
  * non-zero counters and insertion-sorting them by count. */
module ServerStats {
  import opened Bytes
  import opened Decimal

  const Wrap: int := 0x1_0000_0000

  /** now - start in u32 arithmetic: the tick counter may have wrapped
    * once between the two readings. */
  function Elapsed(now: u32, start: u32): (r: u32)
    ensures (start + r) % Wrap == now
    ensures start <= now ==> r == now - start
  {
    (now - start) % Wrap
  }

  /** Whole seconds split into hours, minutes below 60 and seconds below 60. */
  function Split(secs: nat): (t: (nat, nat, nat))
    ensures t.0 * 3600 + t.1 * 60 + t.2 == secs && t.1 < 60 && t.2 < 60
  {
    (secs / 3600, secs % 3600 / 60, secs % 60)
  }

  /** "h ", "m ", "s" and ":" as bytes. */
  const HourMark: seq<byte> := [104, 32]
  const MinuteMark: seq<byte> := [109, 32]
  const SecondMark: seq<byte> := [115]
  const Colon: seq<byte> := [58]

  /** One "<digits><mark>" piece of a formatted time. */
  datatype Piece = Piece(digits: seq<byte>, mark: seq<byte>)

  /** The text of a list of pieces, one after the other. */
  function Render(ps: seq<Piece>): seq<byte>
  {
    if |ps| == 0 then [] else ps[0].digits + ps[0].mark + Render(ps[1..])
  }

  /** The text of one, two and three pieces written out. */
  lemma RenderSmall(a: Piece, b: Piece, c: Piece)
    ensures Render([c]) == c.digits + c.mark
    ensures Render([b, c]) == b.digits + b.mark + (c.digits + c.mark)
    ensures Render([a, b, c]) == a.digits + a.mark + (b.digits + b.mark + (c.digits + c.mark))
  {
    assert [c][1..] == [];
    assert [b, c][1..] == [c];
    assert [a, b, c][1..] == [b, c];
    assert Render([c]) == c.digits + c.mark + [];
  }

  /** format_duration: "Xh Ym Zs", dropping the hours when there are none
    * and the minutes too when there are none of either. */
  function FormatDuration(ms: u32): seq<byte>
  {
    var t := Split(ms / 1000);
    Render(DurationPieces(t.0, t.1, t.2))
  }

  function DurationPieces(h: nat, m: nat, s: nat): seq<Piece>
  {
    if h > 0 then [Piece(Digits(h), HourMark), Piece(Digits(m), MinuteMark), Piece(Digits(s), SecondMark)]
    else if m > 0 then [Piece(Digits(m), MinuteMark), Piece(Digits(s), SecondMark)]
    else [Piece(Digits(s), SecondMark)]
  }

  /** format_time_offset: "H:MM:SS". */
  function FormatTimeOffset(ms: u32): seq<byte>
  {
    var t := Split(ms / 1000);
    Render(OffsetPieces(t.0, t.1, t.2))
  }

  function OffsetPieces(h: nat, m: nat, s: nat): seq<Piece>
  {
    [Piece(Digits(h), Colon), Piece(Pad2(m), Colon), Piece(Pad2(s), [])]
  }

  /** The longest run of digits s starts with. */
  function DigitRun(s: seq<byte>): (r: seq<byte>)
    ensures |r| <= |s| && AllDigits(r)
    ensures |r| < |s| ==> !IsDigit(s[|r|])
  {
    if |s| == 0 || !IsDigit(s[0]) then [] else [s[0]] + DigitRun(s[1..])
  }

  predicate NoDigits(s: seq<byte>)
  {
    |s| == 0 || (!IsDigit(s[0]) && NoDigits(s[1..]))
  }

  /** The longest run of non-digits s starts with. */
  function MarkRun(s: seq<byte>): (r: seq<byte>)
    ensures |r| <= |s| && NoDigits(r)
    ensures |r| < |s| ==> IsDigit(s[|r|])
  {
    if |s| == 0 || IsDigit(s[0]) then [] else [s[0]] + MarkRun(s[1..])
  }

  lemma {:induction false} DigitRunOf(d: seq<byte>, rest: seq<byte>)
    requires AllDigits(d) && (|rest| == 0 || !IsDigit(rest[0]))
    ensures DigitRun(d + rest) == d
    decreases |d|
  {
    if |d| > 0 {
      assert (d + rest)[1..] == d[1..] + rest;
      DigitRunOf(d[1..], rest);
    } else {
      assert d + rest == rest;
    }
  }

  lemma {:induction false} MarkRunOf(m: seq<byte>, rest: seq<byte>)
    requires NoDigits(m) && (|rest| == 0 || IsDigit(rest[0]))
    ensures MarkRun(m + rest) == m
    decreases |m|
  {
    if |m| > 0 {
      assert (m + rest)[1..] == m[1..] + rest;
      MarkRunOf(m[1..], rest);
    } else {
      assert m + rest == rest;
    }
  }

  /** Splits a text into its pieces; None when a piece has no digits. */
  function Pieces(t: seq<byte>): Option<seq<Piece>>
    decreases |t|
  {
    if |t| == 0 then Some([])
    else
      var d := DigitRun(t);
      if |d| == 0 then None
      else
        var m := MarkRun(t[|d|..]);
        match Pieces(t[|d| + |m|..])
        case Some(ps) => Some([Piece(d, m)] + ps)
        case None => None
  }

  lemma PieceOf(d: seq<byte>, mark: seq<byte>, rest: seq<byte>)
    requires |d| > 0 && AllDigits(d) && NoDigits(mark)
    requires |rest| == 0 || IsDigit(rest[0])
    requires |mark| > 0 || |rest| == 0
    ensures Pieces(d + mark + rest) ==
      match Pieces(rest)
      case Some(ps) => Some([Piece(d, mark)] + ps)
      case None => None
  {
    var t := d + mark + rest;
    assert t == d + (mark + rest);
    assert |mark + rest| > 0 ==> !IsDigit((mark + rest)[0]);
    DigitRunOf(d, mark + rest);
    assert t[|d|..] == mark + rest;
    MarkRunOf(mark, rest);
    assert t[|d| + |mark|..] == rest;
  }

  /** Pieces a text can be split back into: each has digits, marks hold
    * none, and only the last mark may be empty. */
  predicate Readable(ps: seq<Piece>)
  {
    forall i :: 0 <= i < |ps| ==>
      |ps[i].digits| > 0 && AllDigits(ps[i].digits) && NoDigits(ps[i].mark) &&
      (|ps[i].mark| > 0 || i == |ps| - 1)
  }

  lemma ReadableTail(ps: seq<Piece>)
    requires Readable(ps) && |ps| > 0
    ensures Readable(ps[1..])
  {
    forall i | 0 <= i < |ps[1..]|
      ensures |ps[1..][i].digits| > 0 && AllDigits(ps[1..][i].digits) && NoDigits(ps[1..][i].mark)
      ensures |ps[1..][i].mark| > 0 || i == |ps[1..]| - 1
    {
      assert ps[1..][i] == ps[i + 1];
    }
  }

  /** A rendered list starts with the first piece's first digit. */
  lemma RenderStart(ps: seq<Piece>)
    requires Readable(ps)
    ensures |ps| == 0 ==> Render(ps) == []
    ensures |ps| > 0 ==> |Render(ps)| > 0 && IsDigit(Render(ps)[0])
  {
    if |ps| > 0 {
      assert Render(ps)[0] == ps[0].digits[0];
    }
  }

  /** Splitting a rendered list of pieces gives the pieces back. */
  lemma {:induction false} RenderBack(ps: seq<Piece>)
    requires Readable(ps)
    ensures Pieces(Render(ps)) == Some(ps)
    decreases |ps|
  {
    if |ps| > 0 {
      ReadableTail(ps);
      RenderBack(ps[1..]);
      RenderStart(ps[1..]);
      PieceOf(ps[0].digits, ps[0].mark, Render(ps[1..]));
      assert [ps[0]] + ps[1..] == ps;
    }
  }

  /** The value of the digits of a piece, when it has any. */
  function PieceValue(p: Piece): nat
  {
    if AllDigits(p.digits) then Value(p.digits) else 0
  }

  /** The seconds a duration text spells, if it has one of the three
    * shapes format_duration writes. */
  function ReadDuration(t: seq<byte>): Option<nat>
  {
    match Pieces(t)
    case Some(ps) => DurationOf(ps)
    case None => None
  }

  function DurationOf(ps: seq<Piece>): Option<nat>
  {
    if |ps| == 3 && ps[0].mark == HourMark && ps[1].mark == MinuteMark && ps[2].mark == SecondMark
    then Some(PieceValue(ps[0]) * 3600 + PieceValue(ps[1]) * 60 + PieceValue(ps[2]))
    else if |ps| == 2 && ps[0].mark == MinuteMark && ps[1].mark == SecondMark
    then Some(PieceValue(ps[0]) * 60 + PieceValue(ps[1]))
    else if |ps| == 1 && ps[0].mark == SecondMark
    then Some(PieceValue(ps[0]))
    else None
  }

  lemma ReadDurationOf(t: seq<byte>, ps: seq<Piece>)
    requires Pieces(t) == Some(ps)
    ensures ReadDuration(t) == DurationOf(ps)
  {
  }

  lemma MarksHaveNoDigits()
    ensures NoDigits(HourMark) && NoDigits(MinuteMark) && NoDigits(SecondMark) && NoDigits(Colon) && NoDigits([])
  {
  }

  /** The duration text reads back as the seconds it was made from. */
  lemma DurationPiecesBack(h: nat, m: nat, s: nat)
    ensures ReadDuration(Render(DurationPieces(h, m, s))) == Some(h * 3600 + m * 60 + s)
  {
    MarksHaveNoDigits();
    var ps := DurationPieces(h, m, s);
    RenderBack(ps);
    ReadDurationOf(Render(ps), ps);
    DurationOfPieces(h, m, s);
  }

  lemma DurationOfPieces(h: nat, m: nat, s: nat)
    ensures DurationOf(DurationPieces(h, m, s)) == Some(h * 3600 + m * 60 + s)
  {
    var a, b, c := Piece(Digits(h), HourMark), Piece(Digits(m), MinuteMark), Piece(Digits(s), SecondMark);
    ValueOfPiece(h, HourMark);
    ValueOfPiece(m, MinuteMark);
    ValueOfPiece(s, SecondMark);
    if h > 0 {
      DurationOfThree(a, b, c);
    } else if m > 0 {
      DurationOfTwo(b, c);
    } else {
      DurationOfOne(c);
    }
  }

  lemma DurationOfThree(a: Piece, b: Piece, c: Piece)
    requires a.mark == HourMark && b.mark == MinuteMark && c.mark == SecondMark
    ensures DurationOf([a, b, c]) == Some(PieceValue(a) * 3600 + PieceValue(b) * 60 + PieceValue(c))
  {
  }

  lemma DurationOfTwo(b: Piece, c: Piece)
    requires b.mark == MinuteMark && c.mark == SecondMark
    ensures DurationOf([b, c]) == Some(PieceValue(b) * 60 + PieceValue(c))
  {
  }

  lemma DurationOfOne(c: Piece)
    requires c.mark == SecondMark
    ensures DurationOf([c]) == Some(PieceValue(c))
  {
  }

  lemma ValueOfPiece(n: nat, mark: seq<byte>)
    ensures PieceValue(Piece(Digits(n), mark)) == n
  {
    DigitsRoundTrip(n);
  }

  /** The duration text reads back as the elapsed whole seconds. */
  lemma DurationRoundTrip(ms: u32)
    ensures ReadDuration(FormatDuration(ms)) == Some(ms / 1000)
  {
    var t := Split(ms / 1000);
    DurationPiecesBack(t.0, t.1, t.2);
  }

  /** The longest duration a u32 of milliseconds holds, 1193h 2m 47s,
    * takes 13 bytes, so the 32-byte buffer never truncates it. */
  lemma DurationFits(ms: u32)
    ensures |FormatDuration(ms)| <= 13
  {
    var t := Split(ms / 1000);
    assert t.0 <= 1193;
    DigitsFit(t.0, 4);
    DigitsFit(t.1, 2);
    DigitsFit(t.2, 2);
    RenderSmall(Piece(Digits(t.0), HourMark), Piece(Digits(t.1), MinuteMark), Piece(Digits(t.2), SecondMark));
  }

  /** The seconds an "H:MM:SS" text spells. */
  function ReadTimeOffset(t: seq<byte>): Option<nat>
  {
    match Pieces(t)
    case Some(ps) => OffsetOf(ps)
    case None => None
  }

  function OffsetOf(ps: seq<Piece>): Option<nat>
  {
    if |ps| == 3 && ps[0].mark == Colon && ps[1].mark == Colon && ps[2].mark == []
       && |ps[1].digits| == 2 && |ps[2].digits| == 2
    then Some(PieceValue(ps[0]) * 3600 + PieceValue(ps[1]) * 60 + PieceValue(ps[2]))
    else None
  }

  lemma ReadTimeOffsetOf(t: seq<byte>, ps: seq<Piece>)
    requires Pieces(t) == Some(ps)
    ensures ReadTimeOffset(t) == OffsetOf(ps)
  {
  }

  /** The offset text reads back as the whole seconds, with minutes and
    * seconds always two digits wide. */
  lemma TimeOffsetRoundTrip(ms: u32)
    ensures ReadTimeOffset(FormatTimeOffset(ms)) == Some(ms / 1000)
  {
    var t := Split(ms / 1000);
    OffsetPiecesBack(t.0, t.1, t.2);
  }

  lemma OffsetPiecesBack(h: nat, m: nat, s: nat)
    requires m < 60 && s < 60
    ensures ReadTimeOffset(Render(OffsetPieces(h, m, s))) == Some(h * 3600 + m * 60 + s)
  {
    MarksHaveNoDigits();
    var ps := OffsetPieces(h, m, s);
    RenderBack(ps);
    ReadTimeOffsetOf(Render(ps), ps);
    OffsetOfPieces(h, m, s);
  }

  lemma OffsetOfPieces(h: nat, m: nat, s: nat)
    requires m < 60 && s < 60
    ensures OffsetOf(OffsetPieces(h, m, s)) == Some(h * 3600 + m * 60 + s)
  {
    DigitsRoundTrip(h);
    Pad2RoundTrip(m);
    Pad2RoundTrip(s);
  }

  /** The longest offset, 1193:02:47, takes 10 bytes of the 16 given. */
  lemma TimeOffsetFits(ms: u32)
    ensures |FormatTimeOffset(ms)| <= 10
  {
    var t := Split(ms / 1000);
    assert t.0 <= 1193;
    DigitsFit(t.0, 4);
    Pad2RoundTrip(t.1);
    Pad2RoundTrip(t.2);
    RenderSmall(Piece(Digits(t.0), Colon), Piece(Pad2(t.1), Colon), Piece(Pad2(t.2), []));
  }

  /** One row of an opcode table: the opcode and how often it was seen. */
  datatype Entry = Entry(opcode: int, count: u32)

  /** The rows for the non-zero counters among the first k, in opcode order. */
  function Nonzero(counts: seq<u32>, k: nat): seq<Entry>
    requires k <= |counts|
  {
    if k == 0 then []
    else Nonzero(counts, k - 1) + (if counts[k - 1] > 0 then [Entry(k - 1, counts[k - 1])] else [])
  }

  /** A row is collected exactly when its counter is non-zero, with that
    * counter as its count, and rows come in increasing opcode order. */
  lemma {:induction false} NonzeroRows(counts: seq<u32>, k: nat)
    requires k <= |counts|
    ensures forall e :: e in Nonzero(counts, k) <==> 0 <= e.opcode < k && e.count == counts[e.opcode] && e.count > 0
    ensures Ascending(Nonzero(counts, k))
    ensures forall e :: e in Nonzero(counts, k) ==> e.opcode < k
  {
    if k > 0 {
      NonzeroRows(counts, k - 1);
    }
  }

  predicate Ascending(s: seq<Entry>)
  {
    forall i, j :: 0 <= i < j < |s| ==> s[i].opcode < s[j].opcode
  }

  /** The collection loop: fills entries[..n] with the non-zero counters. */
  method Collect(counts: seq<u32>, entries: array<Entry>) returns (n: int)
    requires |counts| == 256 && entries.Length == 256
    modifies entries
    ensures 0 <= n <= 256 && entries[..n] == Nonzero(counts, 256)
    ensures entries[n..] == old(entries[n..])
  {
    n := 0;
    var i := 0;
    while i < 256
      invariant 0 <= i <= 256 && n == |Nonzero(counts, i)| && n <= i
      invariant entries[..n] == Nonzero(counts, i)
      invariant entries[n..] == old(entries[n..])
    {
      if counts[i] > 0 {
        entries[n] := Entry(i, counts[i]);
        n := n + 1;
      }
      i := i + 1;
    }
  }

  /** Places x after every row whose count is at least its own: the step
    * of the insertion sort, scanning from the right. */
  function Insert(s: seq<Entry>, x: Entry): (r: seq<Entry>)
  {
    if |s| == 0 || s[|s| - 1].count >= x.count then s + [x]
    else Insert(s[..|s| - 1], x) + [s[|s| - 1]]
  }

  /** Insertion sort by decreasing count. */
  function Sort(s: seq<Entry>): seq<Entry>
  {
    if |s| == 0 then [] else Insert(Sort(s[..|s| - 1]), s[|s| - 1])
  }

  lemma {:induction false} InsertPermutes(s: seq<Entry>, x: Entry)
    ensures multiset(Insert(s, x)) == multiset(s) + multiset{x}
    decreases |s|
  {
    if |s| > 0 && s[|s| - 1].count < x.count {
      var p := s[..|s| - 1];
      InsertPermutes(p, x);
      assert s == p + [s[|s| - 1]];
    }
  }

  /** The sort rearranges the rows and loses or adds none. */
  lemma {:induction false} SortPermutes(s: seq<Entry>)
    ensures multiset(Sort(s)) == multiset(s)
    decreases |s|
  {
    if |s| > 0 {
      var p := s[..|s| - 1];
      SortPermutes(p);
      InsertPermutes(Sort(p), s[|s| - 1]);
      assert s == p + [s[|s| - 1]];
    }
  }

  predicate Descending(s: seq<Entry>)
  {
    forall i, j :: 0 <= i < j < |s| ==> s[i].count >= s[j].count
  }

  lemma {:induction false} InsertDescending(s: seq<Entry>, x: Entry)
    requires Descending(s)
    ensures Descending(Insert(s, x))
    decreases |s|
  {
    if |s| > 0 && s[|s| - 1].count < x.count {
      var p := s[..|s| - 1];
      InsertDescending(p, x);
      InsertPermutes(p, x);
      var q := Insert(p, x);
      forall i | 0 <= i < |q|
        ensures q[i].count >= s[|s| - 1].count
      {
        assert q[i] in multiset(q);
        assert q[i] in p || q[i] == x;
      }
    }
  }

  /** The rows come out by decreasing count, whatever the input order. */
  lemma {:induction false} SortDescending(s: seq<Entry>)
    ensures Descending(Sort(s))
    decreases |s|
  {
    if |s| > 0 {
      SortDescending(s[..|s| - 1]);
      InsertDescending(Sort(s[..|s| - 1]), s[|s| - 1]);
    }
  }

  /** a comes before b in the table: a larger count, or the same count and
    * a smaller opcode. */
  predicate Before(a: Entry, b: Entry)
  {
    a.count > b.count || (a.count == b.count && a.opcode < b.opcode)
  }

  predicate Ordered(s: seq<Entry>)
  {
    forall i, j :: 0 <= i < j < |s| ==> Before(s[i], s[j])
  }

  lemma {:induction false} InsertOrdered(s: seq<Entry>, x: Entry)
    requires Ordered(s)
    requires forall e :: e in s ==> e.opcode < x.opcode
    ensures Ordered(Insert(s, x))
    decreases |s|
  {
    if |s| > 0 && s[|s| - 1].count < x.count {
      var p := s[..|s| - 1];
      assert forall e :: e in p ==> e in s;
      InsertOrdered(p, x);
      InsertPermutes(p, x);
      var q := Insert(p, x);
      forall i | 0 <= i < |q|
        ensures Before(q[i], s[|s| - 1])
      {
        assert q[i] in multiset(q);
        assert q[i] in p || q[i] == x;
      }
    }
  }

  /** The sort is stable: rows with equal counts keep their order, so a
    * table collected in opcode order lists equal counts by opcode. */
  lemma {:induction false} SortOrdered(s: seq<Entry>)
    requires Ascending(s)
    ensures Ordered(Sort(s))
    decreases |s|
  {
    if |s| > 0 {
      var p := s[..|s| - 1];
      SortOrdered(p);
      SortPermutes(p);
      forall e | e in Sort(p)
        ensures e.opcode < s[|s| - 1].opcode
      {
        assert e in multiset(Sort(p));
        var i :| 0 <= i < |p| && p[i] == e;
      }
      InsertOrdered(Sort(p), s[|s| - 1]);
    }
  }

  /** Where Insert puts x: after the first k rows, when those end with a
    * count at least x's and every later row has a smaller count. */
  lemma {:induction false} InsertAt(s: seq<Entry>, x: Entry, k: nat)
    requires k <= |s|
    requires k == 0 || s[k - 1].count >= x.count
    requires forall m :: k <= m < |s| ==> s[m].count < x.count
    ensures Insert(s, x) == s[..k] + [x] + s[k..]
    decreases |s|
  {
    if k < |s| {
      var p := s[..|s| - 1];
      InsertAt(p, x, k);
      assert p[..k] == s[..k];
      assert p[k..] + [s[|s| - 1]] == s[k..];
    } else {
      assert s[..k] == s;
    }
  }

  /** One pass of the outer loop: entries[i] moves left past every row
    * with a smaller count. */
  method InsertStep(entries: array<Entry>, i: int)
    requires 0 < i < entries.Length
    modifies entries
    ensures entries[..i + 1] == Insert(old(entries[..i]), old(entries[i]))
    ensures entries[i + 1..] == old(entries[i + 1..])
  {
    ghost var s := entries[..i];
    var tmp := entries[i];
    var j := i - 1;
    while j >= 0 && entries[j].count < tmp.count
      invariant -1 <= j <= i - 1
      invariant forall m :: 0 <= m <= j ==> entries[m] == s[m]
      invariant forall m :: j + 2 <= m <= i ==> entries[m] == s[m - 1]
      invariant entries[i + 1..] == old(entries[i + 1..])
      invariant forall m :: j + 1 <= m < i ==> s[m].count < tmp.count
      decreases j
    {
      entries[j + 1] := entries[j];
      j := j - 1;
    }
    entries[j + 1] := tmp;
    InsertAt(s, tmp, j + 1);
    ghost var r := s[..j + 1] + [tmp] + s[j + 1..];
    assert forall m :: 0 <= m <= i ==> entries[m] == r[m];
    assert entries[..i + 1] == r;
  }

  /** The insertion sort of entries[..n], in place. */
  method InsertionSort(entries: array<Entry>, n: int)
    requires 0 <= n <= entries.Length
    modifies entries
    ensures entries[..n] == Sort(old(entries[..n]))
    ensures entries[n..] == old(entries[n..])
  {
    if n == 0 {
      return;
    }
    ghost var s := entries[..n];
    assert s[..1][..0] == [];
    var i := 1;
    while i < n
      invariant 1 <= i <= n
      invariant entries[..i] == Sort(s[..i])
      invariant entries[i..] == old(entries[i..])
    {
      assert s[..i + 1][..i] == s[..i];
      InsertStep(entries, i);
      i := i + 1;
    }
    assert s[..n] == s;
  }

  /** The opcode table of the session summary: the non-zero counters,
    * highest count first. */
  method OpcodeTable(counts: seq<u32>) returns (entries: array<Entry>, n: int)
    requires |counts| == 256
    ensures 0 <= n <= entries.Length == 256
    ensures entries[..n] == Sort(Nonzero(counts, 256))
  {
    entries := new Entry[256](_ => Entry(0, 0));
    n := Collect(counts, entries);
    InsertionSort(entries, n);
  }

  /** What the table holds: each non-zero counter once, by decreasing
    * count and, among equal counts, by opcode. */
  lemma TableRows(counts: seq<u32>)
    requires |counts| == 256
    ensures forall e :: e in Sort(Nonzero(counts, 256)) <==> 0 <= e.opcode < 256 && e.count == counts[e.opcode] && e.count > 0
    ensures Ordered(Sort(Nonzero(counts, 256)))
  {
    NonzeroRows(counts, 256);
    SortPermutes(Nonzero(counts, 256));
    SortOrdered(Nonzero(counts, 256));
    forall e
      ensures e in Sort(Nonzero(counts, 256)) <==> e in Nonzero(counts, 256)
    {
      assert e in Sort(Nonzero(counts, 256)) <==> e in multiset(Sort(Nonzero(counts, 256)));
    }
  }
}
