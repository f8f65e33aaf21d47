/** The small DOM-style JSON reader used for manifests: literals, strings
  * with the simple escapes, numbers, arrays and objects, read by recursive
  * descent over a C string. The reading is given here as functions on the
  * unread suffix of the text; Parser below is the cursor-based descent,
  * proved to compute them. Numbers keep their text (the decimal forms that
  * strtod reads); their double value is not modelled. */
module Json {
  import opened Bytes

  datatype Json =
    | Null
    | Bool(b: bool)
    | Number(lexeme: seq<byte>)
    | Str(s: seq<byte>)
    | Array(items: seq<Json>)
    | Object(members: seq<Member>)

  datatype Member = Member(key: seq<byte>, value: Json)

  const Quote: byte := 34
  const Backslash: byte := 92
  const Comma: byte := 44
  const Colon: byte := 58
  const Minus: byte := 45
  const Dot: byte := 46
  const LBracket: byte := 91
  const RBracket: byte := 93
  const LBrace: byte := 123
  const RBrace: byte := 125

  /** "null", "true" and "false" as bytes. */
  const NullText: seq<byte> := [110, 117, 108, 108]
  const TrueText: seq<byte> := [116, 114, 117, 101]
  const FalseText: seq<byte> := [102, 97, 108, 115, 101]

  /** isspace in the C locale: space, tab, newline, vertical tab, form
    * feed and carriage return. */
  predicate IsSpace(c: byte)
  {
    c == 32 || 9 <= c <= 13
  }

  predicate IsDigit(c: byte)
  {
    48 <= c <= 57
  }

  /** The byte under the cursor: the terminating NUL past the end. */
  function Head(s: seq<byte>): byte
  {
    if |s| == 0 then 0 else s[0]
  }

  /** skip_ws: the text from the first byte that is not white space. */
  function SkipWs(s: seq<byte>): (r: seq<byte>)
    ensures |r| <= |s|
    ensures |r| == 0 || !IsSpace(r[0])
  {
    if |s| > 0 && IsSpace(s[0]) then
      SkipWs(s[1..])
    else s
  }

  /** The byte an escape sequence \c stands for: \n, \t and \r give the
    * control characters, every other byte (among them '"', '\' and '/')
    * stands for itself; there are no \u escapes. */
  function Unescape(c: byte): (r: byte)
    ensures r == 0 <==> c == 0
  {
    if c == 110 then 10 else if c == 116 then 9 else if c == 114 then 13 else c
  }

  /** The body of a string after its opening quote: the decoded bytes and
    * the text after the closing quote; None when the text ends first,
    * including right after a backslash. */
  function ReadChars(s: seq<byte>): (r: Option<(seq<byte>, seq<byte>)>)
    ensures r.Some? ==> |r.value.1| < |s|
    ensures r.Some? && 0 !in s ==> 0 !in r.value.0
  {
    if |s| == 0 then None
    else if s[0] == Quote then Some(([], s[1..]))
    else if s[0] == Backslash then
      if |s| == 1 then None
      else
        match ReadChars(s[2..])
        case None => None
        case Some((d, rest)) =>
          Some(([Unescape(s[1])] + d, rest))
    else
      match ReadChars(s[1..])
      case None => None
      case Some((d, rest)) =>
        Some(([s[0]] + d, rest))
  }

  /** parse_string_raw: white space, then a quoted string. */
  function ReadString(s: seq<byte>): (r: Option<(seq<byte>, seq<byte>)>)
    ensures r.Some? ==> |r.value.1| < |s|
  {
    var w := SkipWs(s);
    if Head(w) != Quote then None
    else
      ReadChars(w[1..])
  }

  /** The number of leading digits. */
  function DigitRun(s: seq<byte>): (n: nat)
    ensures n <= |s| && (n < |s| ==> !IsDigit(s[n]))
  {
    if |s| > 0 && IsDigit(s[0]) then 1 + DigitRun(s[1..]) else 0
  }

  /** How much of the text strtod reads as a decimal number: an optional
    * minus, digits with an optional fraction (at least one digit in all),
    * and an exponent only when digits follow its sign. None when there is
    * no digit, so that strtod reads nothing. */
  function NumberLength(s: seq<byte>): (r: Option<nat>)
    ensures r.Some? ==> 0 < r.value <= |s|
  {
    var a := if Head(s) == Minus then 1 else 0;
    var b := a + DigitRun(s[a..]);
    var c := FractionEnd(s, b);
    if b == a && c <= b + 1 then None
    else Some(ExponentEnd(s, c))
  }

  /** Where a fraction that starts at b ends: b when no '.' follows. */
  function FractionEnd(s: seq<byte>, b: nat): (c: nat)
    requires b <= |s|
    ensures b <= c <= |s| && (c == b + 1 ==> s[b] == Dot)
  {
    if Head(s[b..]) == Dot then b + 1 + DigitRun(s[b + 1..]) else b
  }

  /** Where an exponent that starts at c ends: c when none is readable. */
  function ExponentEnd(s: seq<byte>, c: nat): (e: nat)
    requires c <= |s|
    ensures c <= e <= |s|
  {
    if Head(s[c..]) == 101 || Head(s[c..]) == 69 then
      var e := if Head(s[c + 1..]) == 43 || Head(s[c + 1..]) == 45 then c + 2 else c + 1;
      var k := DigitRun(s[e..]);
      if k > 0 then e + k else c
    else c
  }

  /** match_str for a literal: the word must follow in full. */
  function ReadWord(w: seq<byte>, word: seq<byte>, v: Json): (r: Option<(Json, seq<byte>)>)
    requires |word| > 0
    ensures r.Some? ==> |r.value.1| < |w|
    ensures r.Some? <==> |w| >= |word| && w[..|word|] == word
  {
    if |w| >= |word| && w[..|word|] == word then Some((v, w[|word|..])) else None
  }

  /** parse_number: the text strtod reads, kept as the number. */
  function ReadNumber(w: seq<byte>): (r: Option<(Json, seq<byte>)>)
    ensures r.Some? ==> |r.value.1| < |w|
  {
    match NumberLength(w)
    case None => None
    case Some(n) => Some((Number(w[..n]), w[n..]))
  }

  /** parse_value: white space, then one value chosen by its first byte. */
  function ReadValue(s: seq<byte>): (r: Option<(Json, seq<byte>)>)
    ensures r.Some? ==> |r.value.1| < |s|
    decreases |s|, 0
  {
    var w := SkipWs(s);
    if |w| == 0 then None
    else if w[0] == Quote then
      match ReadString(w)
      case None => None
      case Some((d, rest)) => Some((Str(d), rest))
    else if w[0] == LBrace then
      ReadObject(w[1..])
    else if w[0] == LBracket then
      ReadArray(w[1..])
    else if w[0] == 116 then ReadWord(w, TrueText, Bool(true))
    else if w[0] == 102 then ReadWord(w, FalseText, Bool(false))
    else if w[0] == 110 then ReadWord(w, NullText, Null)
    else if w[0] == Minus || IsDigit(w[0]) then ReadNumber(w)
    else None
  }

  /** parse_array after its '[': empty, or elements up to the ']'. */
  function ReadArray(s: seq<byte>): (r: Option<(Json, seq<byte>)>)
    ensures r.Some? ==> |r.value.1| < |s| && r.value.0.Array?
    decreases |s|, 2
  {
    var w := SkipWs(s);
    if Head(w) == RBracket then
      Some((Array([]), w[1..]))
    else ReadElements(w, [])
  }

  /** The element loop of parse_array: acc holds the elements read so
    * far; each element is followed by ',' and another, or by ']'. */
  function ReadElements(s: seq<byte>, acc: seq<Json>): (r: Option<(Json, seq<byte>)>)
    ensures r.Some? ==> |r.value.1| < |s| && r.value.0.Array?
    decreases |s|, 1
  {
    match ReadValue(s)
    case None => None
    case Some((item, rest)) =>
      var w := SkipWs(rest);
      if Head(w) == Comma then
        ReadElements(w[1..], acc + [item])
      else if Head(w) == RBracket then
        Some((Array(acc + [item]), w[1..]))
      else None
  }

  /** parse_object after its '{': empty, or members up to the '}'. */
  function ReadObject(s: seq<byte>): (r: Option<(Json, seq<byte>)>)
    ensures r.Some? ==> |r.value.1| < |s| && r.value.0.Object?
    decreases |s|, 2
  {
    var w := SkipWs(s);
    if Head(w) == RBrace then
      Some((Object([]), w[1..]))
    else ReadMembers(w, [])
  }

  /** One member of an object: a string key, ':' and a value. */
  function ReadMember(s: seq<byte>): (r: Option<(Member, seq<byte>)>)
    ensures r.Some? ==> |r.value.1| < |s|
    decreases |s|, 0
  {
    match ReadString(s)
    case None => None
    case Some((key, rest)) =>
      var w := SkipWs(rest);
      if Head(w) != Colon then None
      else
        match ReadValue(w[1..])
        case None => None
        case Some((value, rest2)) => Some((Member(key, value), rest2))
  }

  /** The member loop of parse_object: acc holds the members read so far;
    * each member is followed by ',' and another, or by '}'. */
  function ReadMembers(s: seq<byte>, acc: seq<Member>): (r: Option<(Json, seq<byte>)>)
    ensures r.Some? ==> |r.value.1| < |s| && r.value.0.Object?
    decreases |s|, 1
  {
    match ReadMember(s)
    case None => None
    case Some((m, rest)) =>
      var w := SkipWs(rest);
      if Head(w) == Comma then
        ReadMembers(w[1..], acc + [m])
      else if Head(w) == RBrace then
        Some((Object(acc + [m]), w[1..]))
      else None
  }

  /** One step of each loop of the reader, as the cursor parser takes it. */
  lemma CharsStep(s: seq<byte>)
    requires |s| > 0 && s[0] != Quote && ReadChars(s).Some?
    ensures s[0] == Backslash ==> (|s| > 1 && ReadChars(s[2..]).Some? &&
      ReadChars(s).value == ([Unescape(s[1])] + ReadChars(s[2..]).value.0, ReadChars(s[2..]).value.1))
    ensures s[0] != Backslash ==> (ReadChars(s[1..]).Some? &&
      ReadChars(s).value == ([s[0]] + ReadChars(s[1..]).value.0, ReadChars(s[1..]).value.1))
  {
  }

  lemma ElementsStep(s: seq<byte>, acc: seq<Json>)
    ensures ReadValue(s).None? ==> ReadElements(s, acc).None?
    ensures ReadValue(s).Some? ==>
      var item := ReadValue(s).value.0;
      var w := SkipWs(ReadValue(s).value.1);
      ReadElements(s, acc) ==
        if Head(w) == Comma then ReadElements(w[1..], acc + [item])
        else if Head(w) == RBracket then Some((Array(acc + [item]), w[1..]))
        else None
  {
  }

  lemma MemberStep(s: seq<byte>)
    ensures ReadString(s).None? ==> ReadMember(s).None?
    ensures ReadString(s).Some? ==>
      var w := SkipWs(ReadString(s).value.1);
      ReadMember(s) ==
        if Head(w) != Colon || ReadValue(w[1..]).None? then None
        else Some((Member(ReadString(s).value.0, ReadValue(w[1..]).value.0), ReadValue(w[1..]).value.1))
  {
  }

  lemma MembersStep(s: seq<byte>, acc: seq<Member>)
    ensures ReadMember(s).None? ==> ReadMembers(s, acc).None?
    ensures ReadMember(s).Some? ==>
      var m := ReadMember(s).value.0;
      var w := SkipWs(ReadMember(s).value.1);
      ReadMembers(s, acc) ==
        if Head(w) == Comma then ReadMembers(w[1..], acc + [m])
        else if Head(w) == RBrace then Some((Object(acc + [m]), w[1..]))
        else None
  {
  }

  /** json_parse: the first value of the text; what follows it is not
    * looked at. */
  function Parse(text: seq<byte>): Option<Json>
  {
    match ReadValue(text)
    case None => None
    case Some((v, _)) => Some(v)
  }

  /** A compact writer, the partner of the reader: no white space,
    * strings escape '"' and '\', numbers are written as their text. */
  function Escape(s: seq<byte>): seq<byte>
  {
    if |s| == 0 then []
    else (if s[0] == Quote || s[0] == Backslash then [Backslash, s[0]] else [s[0]]) + Escape(s[1..])
  }

  function WriteString(s: seq<byte>): seq<byte>
  {
    [Quote] + Escape(s) + [Quote]
  }

  function Write(v: Json): seq<byte>
    decreases v
  {
    match v
    case Null => NullText
    case Bool(b) => if b then TrueText else FalseText
    case Number(l) => l
    case Str(s) => WriteString(s)
    case Array(items) => [LBracket] + WriteItems(items) + [RBracket]
    case Object(ms) => [LBrace] + WriteMembers(ms) + [RBrace]
  }

  function WriteItems(items: seq<Json>): seq<byte>
    decreases items
  {
    if |items| == 0 then []
    else if |items| == 1 then Write(items[0])
    else Write(items[0]) + [Comma] + WriteItems(items[1..])
  }

  function WriteMember(m: Member): seq<byte>
    decreases m
  {
    WriteString(m.key) + [Colon] + Write(m.value)
  }

  function WriteMembers(ms: seq<Member>): seq<byte>
    decreases ms
  {
    if |ms| == 0 then []
    else if |ms| == 1 then WriteMember(ms[0])
    else WriteMember(ms[0]) + [Comma] + WriteMembers(ms[1..])
  }

  /** An integer lexeme: an optional minus, then at least one digit. */
  predicate IntLexeme(l: seq<byte>)
  {
    |l| > 0 && AllDigits(if l[0] == Minus then l[1..] else l)
      && (l[0] == Minus ==> |l| > 1)
  }

  predicate AllDigits(d: seq<byte>)
  {
    forall k :: 0 <= k < |d| ==> IsDigit(d[k])
  }

  /** The values the writer can write so that they read back: integer
    * numbers, and strings and keys that are C strings. */
  predicate Writable(v: Json)
    decreases v
  {
    match v
    case Number(l) => IntLexeme(l)
    case Str(s) => 0 !in s
    case Array(items) => ItemsWritable(items)
    case Object(ms) => MembersWritable(ms)
    case _ => true
  }

  predicate ItemsWritable(items: seq<Json>)
    decreases items
  {
    |items| == 0 || (Writable(items[0]) && ItemsWritable(items[1..]))
  }

  predicate MembersWritable(ms: seq<Member>)
    decreases ms
  {
    |ms| == 0 || (0 !in ms[0].key && Writable(ms[0].value) && MembersWritable(ms[1..]))
  }

  /** Text that cannot continue a number, so that a number before it ends
    * where it was written. */
  predicate Delimited(rest: seq<byte>)
  {
    !IsDigit(Head(rest)) && Head(rest) != Dot && Head(rest) != 101 && Head(rest) != 69
  }

  lemma SkipNone(t: seq<byte>)
    requires |t| > 0 && !IsSpace(t[0])
    ensures SkipWs(t) == t
  {
  }

  lemma {:induction false} EscapeBack(s: seq<byte>, rest: seq<byte>)
    requires 0 !in s
    ensures ReadChars(Escape(s) + [Quote] + rest) == Some((s, rest))
    ensures 0 !in Escape(s)
  {
    var t := Escape(s) + [Quote] + rest;
    if |s| == 0 {
      assert t == [Quote] + rest;
    } else {
      EscapeBack(s[1..], rest);
      var u := Escape(s[1..]) + [Quote] + rest;
      if s[0] == Quote || s[0] == Backslash {
        assert t == [Backslash, s[0]] + u;
        assert t[2..] == u;
      } else {
        assert t == [s[0]] + u;
        assert t[1..] == u;
      }
      assert [s[0]] + s[1..] == s;
    }
  }

  lemma StringBack(s: seq<byte>, rest: seq<byte>)
    requires 0 !in s
    ensures ReadString(WriteString(s) + rest) == Some((s, rest))
  {
    var t := WriteString(s) + rest;
    EscapeBack(s, rest);
    SkipNone(t);
    assert t[1..] == Escape(s) + [Quote] + rest;
  }

  lemma {:induction false} DigitRunOf(d: seq<byte>, rest: seq<byte>)
    requires AllDigits(d) && !IsDigit(Head(rest))
    ensures DigitRun(d + rest) == |d|
  {
    if |d| > 0 {
      assert (d + rest)[1..] == d[1..] + rest;
      DigitRunOf(d[1..], rest);
    } else {
      assert d + rest == rest;
    }
  }

  lemma NumberBack(l: seq<byte>, rest: seq<byte>)
    requires IntLexeme(l) && Delimited(rest)
    ensures ReadNumber(l + rest) == Some((Number(l), rest))
  {
    var t := l + rest;
    var a := if l[0] == Minus then 1 else 0;
    assert t[a..] == l[a..] + rest;
    DigitRunOf(l[a..], rest);
    assert t[|l|..] == rest;
    assert t[..|l|] == l;
  }

  /** The first byte of a written value opens it: never white space and
    * never a closing bracket or brace. */
  lemma WriteStart(v: Json)
    requires Writable(v)
    ensures |Write(v)| > 0 && !IsSpace(Write(v)[0])
    ensures Write(v)[0] != RBracket && Write(v)[0] != RBrace
  {
  }

  lemma ItemsStart(items: seq<Json>)
    requires |items| > 0 && ItemsWritable(items)
    ensures |Write(items[0])| > 0 && |WriteItems(items)| > 0
    ensures WriteItems(items)[0] == Write(items[0])[0]
    ensures !IsSpace(WriteItems(items)[0]) && WriteItems(items)[0] != RBracket
  {
    WriteStart(items[0]);
  }

  /** The branches of parse_value, each chosen by the first byte of text
    * that does not start with white space. */
  lemma ValueOpens(t: seq<byte>)
    requires |t| > 0 && !IsSpace(t[0])
    ensures t[0] == Quote && ReadString(t).Some? ==>
      ReadValue(t) == Some((Str(ReadString(t).value.0), ReadString(t).value.1))
    ensures t[0] == LBracket ==> ReadValue(t) == ReadArray(t[1..])
    ensures t[0] == LBrace ==> ReadValue(t) == ReadObject(t[1..])
  {
    SkipNone(t);
  }

  lemma ElementsLast(s: seq<byte>, acc: seq<Json>, item: Json, y: seq<byte>)
    requires ReadValue(s) == Some((item, y)) && |y| > 0 && y[0] == RBracket
    ensures ReadElements(s, acc) == Some((Array(acc + [item]), y[1..]))
  {
    SkipNone(y);
  }

  lemma ElementsMore(s: seq<byte>, acc: seq<Json>, item: Json, y: seq<byte>)
    requires ReadValue(s) == Some((item, y)) && |y| > 0 && y[0] == Comma
    ensures ReadElements(s, acc) == ReadElements(y[1..], acc + [item])
  {
    SkipNone(y);
  }

  lemma MembersLast(s: seq<byte>, acc: seq<Member>, m: Member, y: seq<byte>)
    requires ReadMember(s) == Some((m, y)) && |y| > 0 && y[0] == RBrace
    ensures ReadMembers(s, acc) == Some((Object(acc + [m]), y[1..]))
  {
    SkipNone(y);
  }

  lemma MembersMore(s: seq<byte>, acc: seq<Member>, m: Member, y: seq<byte>)
    requires ReadMember(s) == Some((m, y)) && |y| > 0 && y[0] == Comma
    ensures ReadMembers(s, acc) == ReadMembers(y[1..], acc + [m])
  {
    SkipNone(y);
  }

  /** A written value reads back, with the text after it left unread. */
  lemma {:induction false} WriteBack(v: Json, rest: seq<byte>)
    requires Writable(v) && Delimited(rest)
    ensures ReadValue(Write(v) + rest) == Some((v, rest))
    decreases v, 0
  {
    var t := Write(v) + rest;
    WriteStart(v);
    match v
    case Null =>
      SkipNone(t);
      assert t[..4] == NullText && t[4..] == rest;
    case Bool(b) =>
      SkipNone(t);
      if b {
        assert t[..4] == TrueText && t[4..] == rest;
      } else {
        assert t[..5] == FalseText && t[5..] == rest;
      }
    case Number(l) =>
      SkipNone(t);
      NumberBack(l, rest);
    case Str(s) =>
      ValueOpens(t);
      StringBack(s, rest);
    case Array(items) =>
      ValueOpens(t);
      ArrayBack(items, rest);
    case Object(ms) =>
      ValueOpens(t);
      ObjectBack(ms, rest);
  }

  lemma ArrayBack(items: seq<Json>, rest: seq<byte>)
    requires ItemsWritable(items)
    ensures ReadArray(WriteItems(items) + [RBracket] + rest) == Some((Array(items), rest))
    ensures ([LBracket] + WriteItems(items) + [RBracket] + rest)[1..] == WriteItems(items) + [RBracket] + rest
    decreases items, 1
  {
    var u := WriteItems(items) + [RBracket] + rest;
    assert ([LBracket] + WriteItems(items) + [RBracket] + rest)[1..] == u;
    if |items| == 0 {
      assert u == [RBracket] + rest;
      SkipNone(u);
    } else {
      ItemsStart(items);
      assert u[0] == WriteItems(items)[0];
      SkipNone(u);
      ItemsBack(items, [], rest);
      assert [] + items == items;
    }
  }

  lemma ItemLast(item: Json, acc: seq<Json>, rest: seq<byte>)
    requires Writable(item)
    ensures ReadElements(Write(item) + [RBracket] + rest, acc) == Some((Array(acc + [item]), rest))
    decreases item, 1
  {
    var y := [RBracket] + rest;
    WriteBack(item, y);
    assert Write(item) + [RBracket] + rest == Write(item) + y;
    ElementsLast(Write(item) + y, acc, item, y);
    assert y[1..] == rest;
  }

  lemma ItemMore(item: Json, acc: seq<Json>, u: seq<byte>)
    requires Writable(item)
    ensures ReadElements(Write(item) + [Comma] + u, acc) == ReadElements(u, acc + [item])
    decreases item, 1
  {
    var y := [Comma] + u;
    WriteBack(item, y);
    assert Write(item) + [Comma] + u == Write(item) + y;
    ElementsMore(Write(item) + y, acc, item, y);
    assert y[1..] == u;
  }

  lemma {:induction false} ItemsBack(items: seq<Json>, acc: seq<Json>, rest: seq<byte>)
    requires |items| > 0 && ItemsWritable(items)
    ensures ReadElements(WriteItems(items) + [RBracket] + rest, acc) == Some((Array(acc + items), rest))
    decreases items, 0
  {
    if |items| == 1 {
      ItemLast(items[0], acc, rest);
      assert acc + items == acc + [items[0]];
    } else {
      var u := WriteItems(items[1..]) + [RBracket] + rest;
      assert WriteItems(items) + [RBracket] + rest == Write(items[0]) + [Comma] + u;
      ItemMore(items[0], acc, u);
      ItemsBack(items[1..], acc + [items[0]], rest);
      assert acc + [items[0]] + items[1..] == acc + items;
    }
  }

  lemma MembersStart(ms: seq<Member>)
    requires |ms| > 0
    ensures |WriteMembers(ms)| > 0 && WriteMembers(ms)[0] == Quote
  {
  }

  lemma ObjectBack(ms: seq<Member>, rest: seq<byte>)
    requires MembersWritable(ms)
    ensures ReadObject(WriteMembers(ms) + [RBrace] + rest) == Some((Object(ms), rest))
    ensures ([LBrace] + WriteMembers(ms) + [RBrace] + rest)[1..] == WriteMembers(ms) + [RBrace] + rest
    decreases ms, 1
  {
    var u := WriteMembers(ms) + [RBrace] + rest;
    assert ([LBrace] + WriteMembers(ms) + [RBrace] + rest)[1..] == u;
    if |ms| == 0 {
      assert u == [RBrace] + rest;
      SkipNone(u);
    } else {
      MembersStart(ms);
      assert u[0] == WriteMembers(ms)[0];
      SkipNone(u);
      MembersBack(ms, [], rest);
      assert [] + ms == ms;
    }
  }

  lemma MemberBack(m: Member, rest: seq<byte>)
    requires 0 !in m.key && Writable(m.value) && Delimited(rest)
    ensures ReadMember(WriteMember(m) + rest) == Some((m, rest))
    decreases m, 0
  {
    var u := [Colon] + Write(m.value) + rest;
    assert WriteMember(m) + rest == WriteString(m.key) + u;
    StringBack(m.key, u);
    SkipNone(u);
    assert u[1..] == Write(m.value) + rest;
    WriteBack(m.value, rest);
  }

  lemma MemberLast(m: Member, acc: seq<Member>, rest: seq<byte>)
    requires 0 !in m.key && Writable(m.value)
    ensures ReadMembers(WriteMember(m) + [RBrace] + rest, acc) == Some((Object(acc + [m]), rest))
    decreases m, 1
  {
    var y := [RBrace] + rest;
    MemberBack(m, y);
    assert WriteMember(m) + [RBrace] + rest == WriteMember(m) + y;
    MembersLast(WriteMember(m) + y, acc, m, y);
    assert y[1..] == rest;
  }

  lemma MemberMore(m: Member, acc: seq<Member>, u: seq<byte>)
    requires 0 !in m.key && Writable(m.value)
    ensures ReadMembers(WriteMember(m) + [Comma] + u, acc) == ReadMembers(u, acc + [m])
    decreases m, 1
  {
    var y := [Comma] + u;
    MemberBack(m, y);
    assert WriteMember(m) + [Comma] + u == WriteMember(m) + y;
    MembersMore(WriteMember(m) + y, acc, m, y);
    assert y[1..] == u;
  }

  lemma {:induction false} MembersBack(ms: seq<Member>, acc: seq<Member>, rest: seq<byte>)
    requires |ms| > 0 && MembersWritable(ms)
    ensures ReadMembers(WriteMembers(ms) + [RBrace] + rest, acc) == Some((Object(acc + ms), rest))
    decreases ms, 0
  {
    if |ms| == 1 {
      MemberLast(ms[0], acc, rest);
      assert acc + ms == acc + [ms[0]];
    } else {
      var u := WriteMembers(ms[1..]) + [RBrace] + rest;
      assert WriteMembers(ms) + [RBrace] + rest == WriteMember(ms[0]) + [Comma] + u;
      MemberMore(ms[0], acc, u);
      MembersBack(ms[1..], acc + [ms[0]], rest);
      assert acc + [ms[0]] + ms[1..] == acc + ms;
    }
  }

  /** The written text is a C string: no NUL inside it. */
  lemma {:induction false} WriteNoNul(v: Json)
    requires Writable(v)
    ensures 0 !in Write(v)
    decreases v, 1
  {
    match v
    case Str(s) => EscapeBack(s, []);
    case Array(items) => ItemsNoNul(items);
    case Object(ms) => MembersNoNul(ms);
    case _ =>
  }

  lemma {:induction false} ItemsNoNul(items: seq<Json>)
    requires ItemsWritable(items)
    ensures 0 !in WriteItems(items)
    decreases items, 0
  {
    if |items| > 0 {
      WriteNoNul(items[0]);
      ItemsNoNul(items[1..]);
    }
  }

  lemma {:induction false} MembersNoNul(ms: seq<Member>)
    requires MembersWritable(ms)
    ensures 0 !in WriteMembers(ms)
    decreases ms, 0
  {
    if |ms| > 0 {
      EscapeBack(ms[0].key, []);
      WriteNoNul(ms[0].value);
      MembersNoNul(ms[1..]);
    }
  }

  /** What the manifest tool writes, json_parse reads back. */
  lemma RoundTrip(v: Json)
    requires Writable(v)
    ensures Parse(Write(v)) == Some(v)
    ensures 0 !in Write(v)
  {
    WriteBack(v, []);
    WriteNoNul(v);
    assert Write(v) + [] == Write(v);
  }

  /** json_parse does not look past the first value: any text after it is
    * ignored. */
  lemma TrailingIgnored(v: Json, rest: seq<byte>)
    requires Writable(v) && Delimited(rest)
    ensures Parse(Write(v) + rest) == Some(v)
  {
    WriteBack(v, rest);
  }

  /** Concrete texts, written byte by byte. "[1,]": a comma must be
    * followed by another element. */
  lemma TrailingCommaRefused()
    ensures Parse([91, 49, 44, 93]) == None
  {
    var t: seq<byte> := [91, 49, 44, 93];
    SkipNone(t);
    SkipNone(t[1..]);
    SkipNone(t[3..]);
    assert ReadValue(t[3..]) == None;
    assert t[1..][1..] == t[2..];
    assert DigitRun(t[1..]) == 1;
    assert NumberLength(t[1..]) == Some(1);
    assert t[1..][..1] == [49];
    assert ReadNumber(t[1..]) == Some((Number([49]), t[2..]));
    assert ReadValue(t[1..]) == Some((Number([49]), t[2..]));
    SkipNone(t[2..]);
    assert t[2..][1..] == t[3..];
    assert ReadElements(t[1..], []) == None;
  }

  /** "[1 2]": elements must be separated by commas. */
  lemma MissingCommaRefused()
    ensures Parse([91, 49, 32, 50, 93]) == None
  {
    var t: seq<byte> := [91, 49, 32, 50, 93];
    SkipNone(t);
    SkipNone(t[1..]);
    assert t[1..][1..] == t[2..];
    assert DigitRun(t[2..]) == 0;
    assert DigitRun(t[1..]) == 1;
    assert NumberLength(t[1..]) == Some(1);
    assert t[1..][..1] == [49];
    assert ReadNumber(t[1..]) == Some((Number([49]), t[2..]));
    assert ReadValue(t[1..]) == Some((Number([49]), t[2..]));
    SkipNone(t[3..]);
    assert t[2..][1..] == t[3..];
    assert SkipWs(t[2..]) == t[3..];
    ElementsStep(t[1..], []);
    assert ReadElements(t[1..], []) == None;
  }

  /** "{"a" 1}": a key must be followed by a colon. */
  lemma MissingColonRefused()
    ensures Parse([123, 34, 97, 34, 32, 49, 125]) == None
  {
    var t: seq<byte> := [123, 34, 97, 34, 32, 49, 125];
    ValueOpens(t);
    SkipNone(t[1..]);
    assert t[1..][1..] == t[2..] && t[2..][1..] == t[3..] && t[3..][1..] == t[4..] && t[4..][1..] == t[5..];
    assert ReadChars(t[3..]) == Some(([], t[4..]));
    assert [t[2]] + [] == [97];
    assert ReadChars(t[2..]) == Some(([97], t[4..]));
    assert ReadString(t[1..]) == Some(([97], t[4..]));
    SkipNone(t[5..]);
    assert SkipWs(t[4..]) == t[5..];
    MemberStep(t[1..]);
    assert ReadMember(t[1..]) == None;
    MembersStep(t[1..], []);
    assert ReadObject(t[1..]) == None;
  }

  /** "\"ab": a string must be closed. */
  lemma UnterminatedRefused()
    ensures Parse([34, 97, 98]) == None
  {
  }

  /** "{} x": what follows the first value is not looked at. */
  lemma TrailingTextIgnored()
    ensures Parse([123, 125, 32, 120]) == Some(Object([]))
  {
  }

  /** "\"a\nb\"": an escape is decoded. */
  lemma EscapeDecoded()
    ensures Parse([34, 97, 92, 110, 98, 34]) == Some(Str([97, 10, 98]))
  {
    var t: seq<byte> := [34, 97, 92, 110, 98, 34];
    SkipNone(t);
    var c5: seq<byte>, c4: seq<byte>, c2: seq<byte>, c1: seq<byte> := [34], [98, 34], [92, 110, 98, 34], [97, 92, 110, 98, 34];
    assert t[1..] == c1 && c1[1..] == c2 && c2[2..] == c4 && c4[1..] == c5 && c5[1..] == [];
    assert ReadChars(c5) == Some(([], []));
    assert [98] + [] == [98] && [10] + [98] == [10, 98] && [97] + [10, 98] == [97, 10, 98];
    assert ReadChars(c4) == Some(([98], []));
    assert Unescape(110) == 10;
    assert ReadChars(c2) == Some(([10, 98], []));
    assert ReadChars(c1) == Some(([97, 10, 98], []));
  }

  /** "-1.5e3": strtod reads the exponent too. */
  lemma ExponentRead()
    ensures Parse([45, 49, 46, 53, 101, 51]) == Some(Number([45, 49, 46, 53, 101, 51]))
  {
    var t: seq<byte> := [45, 49, 46, 53, 101, 51];
    SkipNone(t);
    assert t[1..][1..] == t[2..] && t[3..][1..] == t[4..] && t[5..][1..] == t[6..];
    assert DigitRun(t[2..]) == 0;
    assert DigitRun(t[1..]) == 1;
    assert DigitRun(t[4..]) == 0;
    assert DigitRun(t[3..]) == 1;
    assert FractionEnd(t, 2) == 4;
    assert DigitRun(t[6..]) == 0;
    assert DigitRun(t[5..]) == 1;
    assert ExponentEnd(t, 4) == 6;
    assert NumberLength(t) == Some(6);
    assert t[..6] == t;
  }

  /** "1e,": an 'e' without digits after it is not part of the number. */
  lemma BareExponentLeft()
    ensures Parse([49, 101, 44]) == Some(Number([49]))
  {
    var t: seq<byte> := [49, 101, 44];
    SkipNone(t);
    assert t[1..][1..] == t[2..];
    assert DigitRun(t[1..]) == 0;
    assert DigitRun(t) == 1;
    assert FractionEnd(t, 1) == 1;
    assert DigitRun(t[2..]) == 0;
    assert ExponentEnd(t, 1) == 1;
    assert NumberLength(t) == Some(1);
    assert t[..1] == [49];
  }
}
