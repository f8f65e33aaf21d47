/** The recursive descent of json_parse: a cursor over the text that each
  * parsing step advances, proved to read exactly what the functions of
  * module Json describe; and the accessors on the parsed tree. */
module JsonParse {
  import opened Bytes
  import opened Json

  /** What follows an element or a member. */
  datatype Sep = Next | Close | Bad

  class Parser {
    /** The text before its terminating NUL. */
    const text: seq<byte>
    var pos: nat

    ghost predicate Valid()
      reads this
    {
      pos <= |text|
    }

    /** What is left to read. */
    ghost function Rest(): seq<byte>
      reads this
      requires Valid()
    {
      text[pos..]
    }

    constructor(text: seq<byte>)
      ensures Valid() && this.text == text && pos == 0
    {
      this.text := text;
      pos := 0;
    }

    /** skip_ws */
    method SkipSpace()
      requires Valid()
      modifies this
      ensures Valid() && old(pos) <= pos
      ensures Rest() == SkipWs(old(Rest()))
    {
      while pos < |text| && IsSpace(text[pos])
        invariant old(pos) <= pos <= |text|
        invariant SkipWs(text[pos..]) == SkipWs(old(Rest()))
      {
        assert text[pos..][1..] == text[pos + 1..];
        pos := pos + 1;
      }
    }

    /** match_str: the word is consumed only when it follows in full. */
    method MatchWord(word: seq<byte>) returns (ok: bool)
      requires Valid() && |word| > 0
      modifies this
      ensures Valid() && old(pos) <= pos
      ensures ok <==> |old(Rest())| >= |word| && old(Rest())[..|word|] == word
      ensures ok ==> Rest() == old(Rest())[|word|..]
    {
      ghost var s := Rest();
      if pos + |word| <= |text| && text[pos..pos + |word|] == word {
        assert s[..|word|] == text[pos..pos + |word|];
        assert s[|word|..] == text[pos + |word|..];
        pos := pos + |word|;
        return true;
      }
      if |s| >= |word| {
        assert s[..|word|] == text[pos..pos + |word|];
      }
      return false;
    }

    /** The length scan of parse_string_raw, stopping, unlike the C loop,
      * when a backslash is the last byte: whether the string is closed,
      * and how many bytes it decodes to. */
    method ScanString() returns (closed: bool, len: nat)
      requires Valid()
      ensures closed <==> ReadChars(Rest()).Some?
      ensures closed ==> len == |ReadChars(Rest()).value.0|
    {
      var scan := pos;
      len := 0;
      while scan < |text| && text[scan] != Quote
        invariant pos <= scan <= |text|
        invariant ReadChars(Rest()).Some? == ReadChars(text[scan..]).Some?
        invariant ReadChars(text[scan..]).Some? ==>
          |ReadChars(Rest()).value.0| == len + |ReadChars(text[scan..]).value.0|
      {
        if text[scan] == Backslash {
          if scan + 1 == |text| {
            return false, len;
          }
          assert text[scan..][2..] == text[scan + 2..];
          scan := scan + 2;
        } else {
          assert text[scan..][1..] == text[scan + 1..];
          scan := scan + 1;
        }
        len := len + 1;
      }
      closed := scan < |text|;
    }

    /** parse_string_raw: white space, a quote, then the body. */
    method ParseStringRaw() returns (r: Option<seq<byte>>)
      requires Valid()
      modifies this
      ensures Valid() && old(pos) <= pos
      ensures r.Some? <==> ReadString(old(Rest())).Some?
      ensures r.Some? ==> r.value == ReadString(old(Rest())).value.0 && Rest() == ReadString(old(Rest())).value.1
    {
      SkipSpace();
      if pos == |text| || text[pos] != Quote {
        return None;
      }
      assert Rest()[1..] == text[pos + 1..];
      pos := pos + 1;
      var closed, len := ScanString();
      if !closed {
        return None;
      }
      var d := CopyChars(len);
      return Some(d);
    }

    /** The copy loop of parse_string_raw: the body decoded into a buffer
      * of exactly the scanned length plus the NUL, and the closing quote
      * consumed. */
    method CopyChars(len: nat) returns (d: seq<byte>)
      requires Valid() && ReadChars(Rest()).Some? && len == |ReadChars(Rest()).value.0|
      modifies this
      ensures Valid() && old(pos) <= pos
      ensures d == ReadChars(old(Rest())).value.0 && Rest() == ReadChars(old(Rest())).value.1
    {
      ghost var whole := ReadChars(Rest()).value;
      ghost var cur := whole;
      var buf := new byte[len + 1];
      var i := 0;
      while text[pos] != Quote
        invariant Valid() && old(pos) <= pos && i <= len
        invariant ReadChars(text[pos..]) == Some(cur)
        invariant cur.0 == whole.0[i..] && cur.1 == whole.1
        invariant forall j :: 0 <= j < i ==> buf[j] == whole.0[j]
        decreases |text| - pos
      {
        var c := NextChar();
        ghost var next := ReadChars(text[pos..]).value;
        assert whole.0[i + 1..] == whole.0[i..][1..];
        buf[i] := c;
        cur := next;
        i := i + 1;
      }
      d := buf[..i];
      assert d == whole.0;
      buf[i] := 0;
      assert Rest()[1..] == text[pos + 1..];
      pos := pos + 1;
    }

    /** One byte of a string body, an escape decoded. */
    method NextChar() returns (c: byte)
      requires Valid() && ReadChars(Rest()).Some? && pos < |text| && text[pos] != Quote
      modifies this
      ensures Valid() && old(pos) < pos
      ensures ReadChars(Rest()).Some?
      ensures ReadChars(old(Rest())).value == ([c] + ReadChars(Rest()).value.0, ReadChars(Rest()).value.1)
    {
      CharsStep(Rest());
      if text[pos] == Backslash {
        assert Rest()[2..] == text[pos + 2..];
        c := Unescape(text[pos + 1]);
        pos := pos + 2;
      } else {
        assert Rest()[1..] == text[pos + 1..];
        c := text[pos];
        pos := pos + 1;
      }
    }

    /** parse_number: strtod reads a number or nothing. */
    method ParseNumber() returns (r: Option<Json>)
      requires Valid()
      modifies this
      ensures Valid() && old(pos) <= pos
      ensures r.Some? <==> ReadNumber(old(Rest())).Some?
      ensures r.Some? ==> r.value == ReadNumber(old(Rest())).value.0 && Rest() == ReadNumber(old(Rest())).value.1
    {
      ghost var s := Rest();
      var n := NumberLength(text[pos..]);
      if n.None? {
        return None;
      }
      var lexeme := text[pos..pos + n.value];
      assert lexeme == s[..n.value];
      pos := pos + n.value;
      assert Rest() == s[n.value..];
      return Some(Number(lexeme));
    }

    /** parse_value */
    method ParseValue() returns (r: Option<Json>)
      requires Valid()
      modifies this
      ensures Valid() && old(pos) <= pos
      ensures r.Some? <==> ReadValue(old(Rest())).Some?
      ensures r.Some? ==> r.value == ReadValue(old(Rest())).value.0 && Rest() == ReadValue(old(Rest())).value.1
      decreases |text| - pos, 0
    {
      ghost var s := Rest();
      SkipSpace();
      ghost var w := Rest();
      if pos == |text| {
        return None;
      }
      var c := text[pos];
      if c == Quote {
        var str := ParseStringRaw();
        r := if str.Some? then Some(Str(str.value)) else None;
      } else if c == LBrace {
        assert w[1..] == text[pos + 1..];
        pos := pos + 1;
        r := ParseObject();
      } else if c == LBracket {
        assert w[1..] == text[pos + 1..];
        pos := pos + 1;
        r := ParseArray();
      } else if c == 116 {
        var ok := MatchWord(TrueText);
        r := if ok then Some(Bool(true)) else None;
      } else if c == 102 {
        var ok := MatchWord(FalseText);
        r := if ok then Some(Bool(false)) else None;
      } else if c == 110 {
        var ok := MatchWord(NullText);
        r := if ok then Some(Null) else None;
      } else if c == Minus || IsDigit(c) {
        r := ParseNumber();
      } else {
        r := None;
      }
    }

    /** The byte after an element or a member, past white space: a comma
      * that announces another, the closing bracket, or anything else. */
    method Separator(close: byte) returns (k: Sep)
      requires Valid() && close != 0
      modifies this
      ensures Valid() && old(pos) <= pos
      ensures k == Next <==> Head(SkipWs(old(Rest()))) == Comma
      ensures k == Close <==> Head(SkipWs(old(Rest()))) != Comma && Head(SkipWs(old(Rest()))) == close
      ensures k != Bad ==> |SkipWs(old(Rest()))| > 0 && Rest() == SkipWs(old(Rest()))[1..]
    {
      SkipSpace();
      if pos < |text| && text[pos] == Comma {
        k := Next;
      } else if pos < |text| && text[pos] == close {
        k := Close;
      } else {
        return Bad;
      }
      assert Rest()[1..] == text[pos + 1..];
      pos := pos + 1;
    }

    /** parse_array after its '['. The growing item array is a sequence
      * here; its capacity doubling is not modelled. */
    method ParseArray() returns (r: Option<Json>)
      requires Valid()
      modifies this
      ensures Valid() && old(pos) <= pos
      ensures r.Some? <==> ReadArray(old(Rest())).Some?
      ensures r.Some? ==> r.value == ReadArray(old(Rest())).value.0 && Rest() == ReadArray(old(Rest())).value.1
      decreases |text| - pos, 2
    {
      ghost var s := Rest();
      SkipSpace();
      if pos < |text| && text[pos] == RBracket {
        assert Rest()[1..] == text[pos + 1..];
        pos := pos + 1;
        return Some(Array([]));
      }
      var items: seq<Json> := [];
      while true
        invariant Valid() && old(pos) <= pos
        invariant ReadArray(s) == ReadElements(Rest(), items)
        decreases |text| - pos
      {
        ElementsStep(Rest(), items);
        var item := ParseValue();
        if item.None? {
          return None;
        }
        var k := Separator(RBracket);
        if k == Bad {
          return None;
        }
        items := items + [item.value];
        if k == Close {
          return Some(Array(items));
        }
      }
    }

    /** One member of parse_object: a key, ':' and a value. */
    method ParseMember() returns (r: Option<Member>)
      requires Valid()
      modifies this
      ensures Valid() && old(pos) <= pos
      ensures r.Some? <==> ReadMember(old(Rest())).Some?
      ensures r.Some? ==> r.value == ReadMember(old(Rest())).value.0 && Rest() == ReadMember(old(Rest())).value.1
      decreases |text| - pos, 1
    {
      MemberStep(Rest());
      var key := ParseStringRaw();
      if key.None? {
        return None;
      }
      SkipSpace();
      if pos == |text| || text[pos] != Colon {
        return None;
      }
      assert Rest()[1..] == text[pos + 1..];
      pos := pos + 1;
      var value := ParseValue();
      if value.None? {
        return None;
      }
      return Some(Member(key.value, value.value));
    }

    /** parse_object after its '{'. */
    method ParseObject() returns (r: Option<Json>)
      requires Valid()
      modifies this
      ensures Valid() && old(pos) <= pos
      ensures r.Some? <==> ReadObject(old(Rest())).Some?
      ensures r.Some? ==> r.value == ReadObject(old(Rest())).value.0 && Rest() == ReadObject(old(Rest())).value.1
      decreases |text| - pos, 2
    {
      ghost var s := Rest();
      SkipSpace();
      if pos < |text| && text[pos] == RBrace {
        assert Rest()[1..] == text[pos + 1..];
        pos := pos + 1;
        return Some(Object([]));
      }
      var members: seq<Member> := [];
      while true
        invariant Valid() && old(pos) <= pos
        invariant ReadObject(s) == ReadMembers(Rest(), members)
        decreases |text| - pos
      {
        MembersStep(Rest(), members);
        var m := ParseMember();
        if m.None? {
          return None;
        }
        var k := Separator(RBrace);
        if k == Bad {
          return None;
        }
        members := members + [m.value];
        if k == Close {
          return Some(Object(members));
        }
      }
    }
  }

  /** json_parse */
  method JsonParse(text: seq<byte>) returns (r: Option<Json>)
    ensures r == Parse(text)
  {
    var p := new Parser(text);
    r := p.ParseValue();
  }

  /** The first member with the given key, as json_get's loop finds it.
    * Keys and the looked-up key hold no NUL, so strcmp equality is
    * sequence equality. */
  function Lookup(ms: seq<Member>, key: seq<byte>): Option<Json>
  {
    if |ms| == 0 then None
    else if ms[0].key == key then Some(ms[0].value)
    else Lookup(ms[1..], key)
  }

  /** Lookup finds a member exactly when one has the key, and then the
    * value of the first such member. */
  lemma {:induction false} LookupFirst(ms: seq<Member>, key: seq<byte>)
    ensures Lookup(ms, key).Some? <==> exists i :: 0 <= i < |ms| && ms[i].key == key
    ensures Lookup(ms, key).Some? ==> exists i :: (0 <= i < |ms| && ms[i].key == key
      && Lookup(ms, key).value == ms[i].value && forall j :: 0 <= j < i ==> ms[j].key != key)
  {
    if |ms| > 0 && ms[0].key != key {
      LookupFirst(ms[1..], key);
      if Lookup(ms, key).Some? {
        var i :| 0 <= i < |ms| - 1 && ms[1..][i].key == key
          && Lookup(ms, key).value == ms[1..][i].value && forall j :: 0 <= j < i ==> ms[1..][j].key != key;
        assert ms[i + 1].key == key && forall j :: 0 <= j < i + 1 ==> ms[j].key != key by {
          forall j | 0 <= j < i + 1
            ensures ms[j].key != key
          {
            if j > 0 {
              assert ms[j] == ms[1..][j - 1];
            }
          }
        }
      } else {
        forall i | 0 <= i < |ms|
          ensures ms[i].key != key
        {
          if i > 0 {
            assert ms[i] == ms[1..][i - 1];
          }
        }
      }
    }
  }

  /** What json_get returns, as a function for the specifications that
    * read trees. */
  function Field(obj: Option<Json>, key: seq<byte>): Option<Json>
  {
    if obj.Some? && obj.value.Object? then Lookup(obj.value.members, key) else None
  }

  /** json_get: None for a missing value or one that is not an object,
    * otherwise the first member with the key. */
  method Get(obj: Option<Json>, key: seq<byte>) returns (r: Option<Json>)
    ensures obj.None? || !obj.value.Object? ==> r.None?
    ensures obj.Some? && obj.value.Object? ==> r == Lookup(obj.value.members, key)
    ensures r == Field(obj, key)
  {
    if obj.None? || !obj.value.Object? {
      return None;
    }
    var ms := obj.value.members;
    var i := 0;
    while i < |ms|
      invariant i <= |ms|
      invariant Lookup(ms, key) == Lookup(ms[i..], key)
    {
      if ms[i].key == key {
        return Some(ms[i].value);
      }
      assert ms[i..][1..] == ms[i + 1..];
      i := i + 1;
    }
    return None;
  }

  /** json_array_len: 0 for anything but an array. */
  function ArrayLen(v: Option<Json>): (n: nat)
    ensures n > 0 ==> v.Some? && v.value.Array?
  {
    if v.Some? && v.value.Array? then |v.value.items| else 0
  }

  /** json_array_get: None for anything but an array, and for an index
    * past its end. */
  function ArrayGet(v: Option<Json>, index: nat): (r: Option<Json>)
    ensures r.Some? <==> index < ArrayLen(v)
    ensures r.Some? ==> r.value in v.value.items
  {
    if v.Some? && v.value.Array? && index < |v.value.items| then Some(v.value.items[index]) else None
  }

  /** json_string: None for anything but a string. */
  function StringOf(v: Option<Json>): (r: Option<seq<byte>>)
    ensures r.Some? <==> v.Some? && v.value.Str?
  {
    if v.Some? && v.value.Str? then Some(v.value.s) else None
  }

  /** json_number: the text strtod converted, and "0" for anything but a
    * number. */
  function NumberOf(v: Option<Json>): (r: seq<byte>)
    ensures |r| > 0 || (v.Some? && v.value.Number?)
  {
    if v.Some? && v.value.Number? then v.value.lexeme else [48]
  }

  /** json_bool: false for anything but a boolean. */
  function BoolOf(v: Option<Json>): (r: bool)
    ensures r ==> v == Some(Bool(true))
  {
    v.Some? && v.value.Bool? && v.value.b
  }

  /** The accessors on a tree read back from its written text give back
    * the parts it was written from. */
  lemma AccessorsOnWritten(v: Json, key: seq<byte>, index: nat)
    requires Writable(v)
    ensures v.Array? ==> ArrayLen(Parse(Write(v))) == |v.items|
    ensures v.Array? && index < |v.items| ==> ArrayGet(Parse(Write(v)), index) == Some(v.items[index])
    ensures v.Object? ==> Parse(Write(v)).Some? && Parse(Write(v)).value.Object? && Lookup(Parse(Write(v)).value.members, key) == Lookup(v.members, key)
    ensures StringOf(Parse(Write(v))).Some? <==> v.Str?
    ensures v.Str? ==> StringOf(Parse(Write(v))) == Some(v.s)
    ensures v.Number? ==> NumberOf(Parse(Write(v))) == v.lexeme
    ensures BoolOf(Parse(Write(v))) <==> v == Bool(true)
  {
    RoundTrip(v);
  }

  /** The length scan of parse_string_raw as written: over the text and
    * its terminating NUL, a backslash skips the next byte whatever it is,
    * the NUL included. The index where the scan stops, or None when it
    * reads past the terminator. */
  function ScanAsWritten(buf: seq<byte>, scan: nat): (r: Option<nat>)
    ensures r.Some? ==> scan <= r.value < |buf| && (buf[r.value] == 0 || buf[r.value] == Quote)
    decreases |buf| - scan
  {
    if scan >= |buf| then None
    else if buf[scan] == 0 || buf[scan] == Quote then Some(scan)
    else if buf[scan] == Backslash then ScanAsWritten(buf, scan + 2)
    else ScanAsWritten(buf, scan + 1)
  }

  /** The text '"\' (a quote, then a backslash as its last byte): the
    * scan as written steps over the terminating NUL and reads past the
    * end of the text, while the corrected scan refuses the string. */
  lemma BackslashAtEnd()
    ensures ScanAsWritten([34, 92] + [0], 1) == None
    ensures ReadString([34, 92]) == None
  {
    var t: seq<byte> := [34, 92];
    SkipNone(t);
    assert t[1..] == [92];
  }

  /** The corrected scan refuses every string that is not closed. */
  lemma {:induction false} UnterminatedIsNone(s: seq<byte>)
    requires Quote !in s
    ensures ReadChars(s) == None
    decreases |s|
  {
    if |s| > 1 {
      if s[0] == Backslash {
        UnterminatedIsNone(s[2..]);
      } else {
        UnterminatedIsNone(s[1..]);
      }
    }
  }

  /** Where the scan as written stays within the text, it agrees with
    * the corrected one: it stops at a quote exactly when the string is
    * closed. */
  lemma {:induction false} ScanAgrees(s: seq<byte>, scan: nat)
    requires 0 !in s && scan <= |s| && ScanAsWritten(s + [0], scan).Some?
    ensures ReadChars(s[scan..]).Some? <==> ScanAsWritten(s + [0], scan).value < |s|
    decreases |s| - scan
  {
    var buf := s + [0];
    if scan < |s| && buf[scan] != Quote {
      assert buf[scan] == s[scan];
      if buf[scan] == Backslash {
        if scan + 1 < |s| {
          assert s[scan..][2..] == s[scan + 2..];
          ScanAgrees(s, scan + 2);
        }
      } else {
        assert s[scan..][1..] == s[scan + 1..];
        ScanAgrees(s, scan + 1);
      }
    }
  }
}
