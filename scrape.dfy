/** The checksum-manifest scanner of tools/scrape_bc.py. Four fixed rounds
  * each name a directory under the game directory, a file-name filter and
  * whether one level of subdirectories is also walked. For every file that
  * matches, in sorted order, the scanner records its name, the string hash
  * of its name and the rotate-XOR hash of its contents. The file system is
  * an abstract tree of nodes; a listing is the unsorted result of listdir. */
module Scrape {
  import opened Bytes
  import StringHash
  import FileHash
  import Handshake

  // ---------------------------------------------------------------------
  // string_hash and file_hash, the Python twins of the C hashes
  // ---------------------------------------------------------------------

  /** s.encode("ascii"): the code points as bytes, or None when one of them
    * is not ASCII (the UnicodeEncodeError). */
  function Encode(s: string): Option<seq<bv8>>
    decreases |s|
  {
    if s == [] then Some([])
    else if s[0] as int >= 0x80 then None
    else match Encode(s[1..])
      case None => None
      case Some(t) => Some([s[0] as int as bv8] + t)
  }

  /** The encoding succeeds exactly on ASCII strings and then keeps every
    * code point as its byte. */
  lemma {:induction false} EncodeAscii(s: string)
    ensures Encode(s).Some? <==> forall i :: 0 <= i < |s| ==> s[i] as int < 0x80
    ensures Encode(s).Some? ==> |Encode(s).value| == |s|
    ensures Encode(s).Some? ==> forall i :: 0 <= i < |s| ==> Encode(s).value[i] == s[i] as int as bv8
    decreases |s|
  {
    if s == [] {
    } else if s[0] as int >= 0x80 {
    } else {
      var tail := s[1..];
      EncodeAscii(tail);
      match Encode(tail)
      case None =>
        var j :| 0 <= j < |tail| && tail[j] as int >= 0x80;
        assert s[j + 1] == tail[j];
      case Some(t) =>
        var r := [s[0] as int as bv8] + t;
        assert Encode(s) == Some(r);
        forall i | 1 <= i < |s|
          ensures r[i] == s[i] as int as bv8
        {
          assert r[i] == t[i - 1] && s[i] == tail[i - 1];
        }
    }
  }

  /** The value string_hash returns, None where the encoding raises. */
  function NameHash(s: string): Option<bv32>
  {
    match Encode(s)
    case None => None
    case Some(b) => Some(StringHash.Pack(StringHash.Fold(StringHash.Start, b)))
  }

  /** string_hash raises exactly on a string with a non-ASCII character. */
  lemma NameHashRaises(s: string)
    ensures NameHash(s).None? <==> exists i :: 0 <= i < |s| && s[i] as int >= 0x80
  {
    EncodeAscii(s);
  }

  /** string_hash: encode, then advance the four lanes byte by byte. */
  method StringHashPy(s: string) returns (h: Option<bv32>)
    ensures h == NameHash(s)
  {
    var enc := Encode(s);
    if enc.None? {
      return None;
    }
    var b := enc.value;
    var h0: bv8, h1: bv8, h2: bv8, h3: bv8 := 0, 0, 0, 0;
    var i := 0;
    while i < |b|
      invariant 0 <= i <= |b|
      invariant StringHash.Lanes(h0, h1, h2, h3) == StringHash.Fold(StringHash.Start, b[..i])
    {
      StringHash.FoldSnoc(StringHash.Start, b[..i], b[i]);
      assert b[..i + 1] == b[..i] + [b[i]];
      var next := StringHash.Step(StringHash.Lanes(h0, h1, h2, h3), b[i]);
      h0, h1, h2, h3 := next.h0, next.h1, next.h2, next.h3;
      i := i + 1;
    }
    assert b[..i] == b;
    h := Some((h0 as bv32 << 24) | (h1 as bv32 << 16) | (h2 as bv32 << 8) | h3 as bv32);
  }

  /** On an ASCII string without NUL the Python hash is the C string_hash
    * of the same bytes; the C walk would stop early at a NUL. */
  lemma NameHashAgreesWithC(s: string)
    requires forall i :: 0 <= i < |s| ==> 0 < s[i] as int < 0x80
    ensures Encode(s).Some?
    ensures NameHash(s) == Some(StringHash.Hash(Encode(s).value))
  {
    EncodeAscii(s);
    var b := Encode(s).value;
    assert 0 !in b by {
      forall i | 0 <= i < |b|
        ensures b[i] != 0
      {
        assert b[i] == s[i] as int as bv8;
        NonNulByte(s[i]);
      }
    }
    StringHash.HashOfNulFree(b);
  }

  lemma NonNulByte(c: char)
    requires 0 < c as int < 0x80
    ensures c as int as bv8 != 0
  {
  }

  /** Python's b - 256 for a byte above 127, masked with 0xFFFFFFFF (the
    * 32-bit two's complement), is the C sign extension. */
  function PyExtend(b: bv8): (w: bv32)
    ensures w == FileHash.SignExtend(b)
  {
    if b < 128 then b as bv32 else b as bv32 - 256
  }

  /** file_hash: one pass over the words with word 1 skipped by continue,
    * then the tail bytes when the length is not a multiple of four. */
  method FileHashPy(data: seq<bv8>) returns (h: bv32)
    ensures h == FileHash.Hash(data)
  {
    h := 0;
    var dwordCount := |data| / 4;
    for i := 0 to dwordCount
      invariant h == FileHash.Words(data, i)
    {
      if i == 1 {
        continue;
      }
      var dword := FileHash.Word(data, i);
      h := h ^ dword;
      h := FileHash.Rotl1(h);
    }
    h := TailPy(h, data);
  }

  /** The tail part of file_hash: when the length is not a multiple of
    * four, each trailing byte is sign-extended (PyExtend shows the Python
    * expression is SignExtend), XORed in and rotated. */
  method TailPy(words: bv32, data: seq<bv8>) returns (h: bv32)
    ensures h == FileHash.Tail(words, data, |data|)
  {
    h := words;
    var dwordCount := |data| / 4;
    var remainder := |data| % 4;
    if remainder > 0 {
      var start := dwordCount * 4;
      TailBounds(words, data);
      for j := 0 to remainder
        invariant h == FileHash.Tail(words, data, start + j)
      {
        TailStep(words, data, start + j);
        h := FileHash.Rotl1(h ^ FileHash.SignExtend(data[start + j]));
      }
    } else {
      TailBounds(words, data);
    }
  }

  /** The tail starts at 4 * (len / 4); with nothing past it the hash is
    * unchanged. */
  lemma TailBounds(words: bv32, data: seq<bv8>)
    ensures FileHash.TailStart(data) == |data| / 4 * 4 && |data[|data| / 4 * 4..]| == |data| % 4
    ensures |data| % 4 == 0 ==> FileHash.Tail(words, data, |data|) == words
  {
    FileHash.TailStartBounds(data);
  }

  /** One more trailing byte: sign-extend, XOR in, rotate. */
  lemma TailStep(words: bv32, data: seq<bv8>, k: nat)
    requires FileHash.TailStart(data) <= k < |data|
    ensures FileHash.Tail(words, data, k + 1)
      == FileHash.Rotl1(FileHash.Tail(words, data, k) ^ FileHash.SignExtend(data[k]))
  {
  }

  // ---------------------------------------------------------------------
  // Directory names
  // ---------------------------------------------------------------------

  /** dir.rstrip("/"). */
  function StripSlashes(s: string): (r: string)
    ensures r <= s && (r == [] || r[|r| - 1] != '/')
    ensures forall i :: |r| <= i < |s| ==> s[i] == '/'
    decreases |s|
  {
    if s != [] && s[|s| - 1] == '/' then StripSlashes(s[..|s| - 1]) else s
  }

  /** The index just past the last '/' of s, 0 when there is none. */
  function AfterLastSlash(s: string): (k: nat)
    ensures k <= |s| && '/' !in s[k..]
    ensures k > 0 ==> s[k - 1] == '/'
    decreases |s|
  {
    if s == [] then 0
    else if s[|s| - 1] == '/' then |s|
    else
      var k := AfterLastSlash(s[..|s| - 1]);
      assert s[k..] == s[..|s| - 1][k..] + [s[|s| - 1]];
      k
  }

  /** The leaf name dir_hash is taken from: the part after the last '/'
    * once the trailing slashes are stripped (the whole path if none). */
  function Leaf(dir: string): string
  {
    var p := StripSlashes(dir);
    p[AfterLastSlash(p)..]
  }

  /** The leaf is the longest slash-free tail of the stripped path. */
  lemma LeafSpec(dir: string)
    ensures var p, r := StripSlashes(dir), Leaf(dir);
      && '/' !in r && |r| <= |p| && r == p[|p| - |r|..]
      && (|r| < |p| ==> p[|p| - |r| - 1] == '/')
  {
  }

  /** The path components the joined path names: the '/'-separated
    * segments, empty segments dropped. */
  function Segments(s: string): seq<string>
    decreases |s|
  {
    var p := StripSlashes(s);
    if p == [] then []
    else
      var k := AfterLastSlash(p);
      assert k < |p|;
      Segments(p[..k]) + [p[k..]]
  }

  /** Every component is a non-empty name without '/'. */
  lemma {:induction false} SegmentsSpec(s: string)
    ensures forall i :: 0 <= i < |Segments(s)| ==> Segments(s)[i] != [] && '/' !in Segments(s)[i]
    decreases |s|
  {
    var p := StripSlashes(s);
    if p != [] {
      var k := AfterLastSlash(p);
      SegmentsSpec(p[..k]);
    }
  }

  /** The name dir_hash hashes is the last component of the scanned path. */
  lemma LeafIsLastSegment(dir: string)
    ensures Segments(dir) == [] <==> Leaf(dir) == []
    ensures Segments(dir) != [] ==> Leaf(dir) == Segments(dir)[|Segments(dir)| - 1]
  {
    var p := StripSlashes(dir);
    if p != [] {
      assert p[|p| - 1] != '/';
      assert AfterLastSlash(p) < |p|;
    }
  }

  /** A single name is one component and its own leaf. */
  lemma SingleName(n: string)
    requires n != [] && '/' !in n
    ensures Segments(n) == [n] && Leaf(n) == n
  {
    assert n[|n| - 1] in n;
    assert StripSlashes(n) == n;
    assert AfterLastSlash(n) == 0;
    assert n[..0] == [];
  }

  /** A trailing '/' changes neither the components nor the leaf. */
  lemma TrailingSlash(s: string)
    ensures Segments(s + "/") == Segments(s) && Leaf(s + "/") == Leaf(s)
  {
    assert (s + "/")[..|s|] == s;
    assert StripSlashes(s + "/") == StripSlashes(s);
  }

  /** Joining a name on with '/' adds it as the last component, and it
    * becomes the leaf. */
  lemma AppendName(p: string, n: string)
    requires n != [] && '/' !in n
    ensures Segments(p + "/" + n) == Segments(p) + [n]
    ensures Leaf(p + "/" + n) == n
  {
    var q := p + "/" + n;
    assert q[|q| - 1] == n[|n| - 1] && n[|n| - 1] in n;
    assert StripSlashes(q) == q;
    var k := AfterLastSlash(q);
    assert q[|p|] == '/';
    assert k == |p| + 1;
    assert q[..k] == p + "/" && q[k..] == n;
    TrailingSlash(p);
  }

  /** A directory written as two names, each followed by '/'. */
  lemma TwoNames(a: string, b: string)
    requires a != [] && '/' !in a && b != [] && '/' !in b
    ensures Segments(a + "/" + b + "/") == [a, b] && Leaf(a + "/" + b + "/") == b
  {
    SingleName(a);
    AppendName(a, b);
    TrailingSlash(a + "/" + b);
  }

  /** A directory written as three names, each followed by '/'. */
  lemma ThreeNames(a: string, b: string, c: string)
    requires a != [] && '/' !in a && b != [] && '/' !in b && c != [] && '/' !in c
    ensures Segments(a + "/" + b + "/" + c + "/") == [a, b, c]
    ensures Leaf(a + "/" + b + "/" + c + "/") == c
  {
    var p := a + "/" + b;
    assert Segments(p) == [a, b] by {
      SingleName(a);
      AppendName(a, b);
    }
    assert Segments(p + "/" + c) == [a, b, c] && Leaf(p + "/" + c) == c by {
      AppendName(p, c);
    }
    TrailingSlash(p + "/" + c);
  }

  // ---------------------------------------------------------------------
  // The abstract file system and Python's string order
  // ---------------------------------------------------------------------

  /** A node is a regular file with its bytes, a directory with its listing
    * in listdir order, or anything else (isfile and isdir both false). */
  datatype Node = File(data: seq<bv8>) | Dir(listing: seq<Entry>) | Special
  datatype Entry = Entry(name: string, node: Node)

  /** The node listed under name, the first one if the listing repeats it. */
  function Lookup(listing: seq<Entry>, name: string): Option<Node>
    decreases |listing|
  {
    if listing == [] then None
    else if listing[0].name == name then Some(listing[0].node)
    else Lookup(listing[1..], name)
  }

  /** A name is found exactly when the listing has it, with that entry's node. */
  lemma {:induction false} LookupSpec(listing: seq<Entry>, name: string)
    ensures Lookup(listing, name).Some? <==> exists i :: 0 <= i < |listing| && listing[i].name == name
    ensures Lookup(listing, name).Some? ==>
      exists i :: 0 <= i < |listing| && listing[i] == Entry(name, Lookup(listing, name).value)
    decreases |listing|
  {
    if listing != [] && listing[0].name != name {
      LookupSpec(listing[1..], name);
      assert forall i :: 1 <= i < |listing| ==> listing[i] == listing[1..][i - 1];
    }
  }

  /** os.path.isdir on the path below node: the listing when every component
    * exists and the last one is a directory. */
  function Resolve(node: Node, path: seq<string>): Option<seq<Entry>>
    decreases |path|
  {
    if !node.Dir? then None
    else if path == [] then Some(node.listing)
    else match Lookup(node.listing, path[0])
      case None => None
      case Some(child) => Resolve(child, path[1..])
  }

  /** Python's str order: code point by code point, a proper prefix first. */
  predicate Below(a: string, b: string)
    decreases |a|
  {
    b != [] && (a == [] || a[0] < b[0] || (a[0] == b[0] && Below(a[1..], b[1..])))
  }

  lemma BelowIrreflexive(a: string)
    ensures !Below(a, a)
  {
  }

  lemma BelowTransitive(a: string, b: string, c: string)
    requires Below(a, b) && Below(b, c)
    ensures Below(a, c)
  {
  }

  lemma {:induction false} BelowTotal(a: string, b: string)
    ensures a == b || Below(a, b) || Below(b, a)
    decreases |a|
  {
    if a != [] && b != [] && a[0] == b[0] {
      BelowTotal(a[1..], b[1..]);
      if a[1..] == b[1..] {
        assert a == [a[0]] + a[1..] && b == [b[0]] + b[1..];
      }
    }
  }

  /** The entries in non-decreasing name order. */
  predicate Sorted(es: seq<Entry>)
  {
    forall i, j :: 0 <= i < j < |es| ==> !Below(es[j].name, es[i].name)
  }

  /** No entry of es is below x, which may therefore go in front. */
  predicate AtMost(x: Entry, es: seq<Entry>)
  {
    forall k :: 0 <= k < |es| ==> !Below(es[k].name, x.name)
  }

  lemma ConsSorted(x: Entry, es: seq<Entry>)
    requires Sorted(es) && AtMost(x, es)
    ensures Sorted([x] + es)
  {
    var r := [x] + es;
    forall i, j | 0 <= i < j < |r|
      ensures !Below(r[j].name, r[i].name)
    {
      assert r[j] == es[j - 1];
      if i > 0 {
        assert r[i] == es[i - 1];
      }
    }
  }

  /** An entry not above the head of a sorted sequence is below none of it. */
  lemma HeadBound(e: Entry, es: seq<Entry>)
    requires Sorted(es) && es != [] && !Below(es[0].name, e.name)
    ensures AtMost(e, es)
  {
    forall k | 0 <= k < |es|
      ensures !Below(es[k].name, e.name)
    {
      if Below(es[k].name, e.name) {
        BelowTotal(es[0].name, es[k].name);
        if Below(es[0].name, es[k].name) {
          BelowTransitive(es[0].name, es[k].name, e.name);
        }
      }
    }
  }

  /** A bound on every entry of es and on e bounds any arrangement of them. */
  lemma BoundPermuted(x: Entry, e: Entry, es: seq<Entry>, r: seq<Entry>)
    requires AtMost(x, es) && !Below(e.name, x.name)
    requires multiset(r) == multiset(es) + multiset{e}
    ensures AtMost(x, r)
  {
    forall k | 0 <= k < |r|
      ensures !Below(r[k].name, x.name)
    {
      assert r[k] in multiset(r);
      if r[k] != e {
        assert r[k] in multiset(es);
        var m :| 0 <= m < |es| && es[m] == r[k];
      }
    }
  }

  function Insert(e: Entry, es: seq<Entry>): seq<Entry>
    decreases |es|
  {
    if es == [] || !Below(es[0].name, e.name) then [e] + es
    else [es[0]] + Insert(e, es[1..])
  }

  /** Insertion keeps a sorted sequence sorted and adds exactly e. */
  lemma {:induction false} InsertSpec(e: Entry, es: seq<Entry>)
    requires Sorted(es)
    ensures Sorted(Insert(e, es)) && multiset(Insert(e, es)) == multiset(es) + multiset{e}
    decreases |es|
  {
    if es == [] || !Below(es[0].name, e.name) {
      if es != [] {
        HeadBound(e, es);
      }
      ConsSorted(e, es);
    } else {
      assert es == [es[0]] + es[1..];
      InsertSpec(e, es[1..]);
      var rest := Insert(e, es[1..]);
      assert AtMost(es[0], es[1..]) by {
        forall k | 0 <= k < |es[1..]|
          ensures !Below(es[1..][k].name, es[0].name)
        {
          assert es[1..][k] == es[k + 1];
        }
      }
      BelowTotal(e.name, es[0].name);
      if Below(e.name, es[0].name) {
        BelowTransitive(e.name, es[0].name, e.name);
        BelowIrreflexive(e.name);
      }
      BoundPermuted(es[0], e, es[1..], rest);
      ConsSorted(es[0], rest);
    }
  }

  /** sorted(os.listdir(d)): the listing in name order. */
  function Sort(listing: seq<Entry>): seq<Entry>
    decreases |listing|
  {
    if listing == [] then [] else Insert(listing[0], Sort(listing[1..]))
  }

  /** The sorted listing is in name order with nothing added or lost. */
  lemma {:induction false} SortSpec(listing: seq<Entry>)
    ensures Sorted(Sort(listing)) && multiset(Sort(listing)) == multiset(listing)
    decreases |listing|
  {
    if listing != [] {
      assert listing == [listing[0]] + listing[1..];
      SortSpec(listing[1..]);
      InsertSpec(listing[0], Sort(listing[1..]));
    }
  }

  // ---------------------------------------------------------------------
  // match_filter
  // ---------------------------------------------------------------------

  function LowerChar(c: char): char
  {
    if 'A' <= c <= 'Z' then (c as int + 32) as char else c
  }

  /** str.lower on the ASCII letters. */
  function Lower(s: string): (r: string)
    ensures |r| == |s| && forall i :: 0 <= i < |s| ==> r[i] == LowerChar(s[i])
  {
    seq(|s|, i requires 0 <= i < |s| => LowerChar(s[i]))
  }

  /** match_filter: a leading '*' asks for a case-insensitive suffix, any
    * other filter for case-insensitive equality. */
  predicate MatchFilter(filter: string, name: string)
  {
    if |filter| > 0 && filter[0] == '*' then
      var suffix := Lower(filter[1..]);
      var lowered := Lower(name);
      |suffix| <= |lowered| && lowered[|lowered| - |suffix|..] == suffix
    else Lower(name) == Lower(filter)
  }

  /** The names of the ASCII letters fold together under match_filter. */
  lemma MatchIgnoresCase(filter: string, a: string, b: string)
    requires Lower(a) == Lower(b)
    ensures MatchFilter(filter, a) <==> MatchFilter(filter, b)
  {
  }

  /** "*.pyc" is a suffix test in any case. */
  lemma SuffixFilterExamples()
    ensures MatchFilter("*.pyc", "Galaxy.PYC") && MatchFilter("*.pyc", ".pyc")
    ensures !MatchFilter("*.pyc", "Galaxy.py") && !MatchFilter("*.pyc", "pyc")
  {
    assert MatchFilter("*.pyc", "Galaxy.PYC") by {
      assert Lower("Galaxy.PYC")[6..] == ".pyc";
    }
    assert MatchFilter("*.pyc", ".pyc") by {
      assert Lower(".pyc") == ".pyc";
    }
    assert !MatchFilter("*.pyc", "Galaxy.py") by {
      assert Lower("Galaxy.py")[5..][0] == 'y';
    }
  }

  /** "App.pyc" only accepts the whole name, in any case. */
  lemma NameFilterExamples()
    ensures MatchFilter("App.pyc", "APP.pyc") && !MatchFilter("App.pyc", "MyApp.pyc")
  {
    assert Lower("APP.pyc") == "app.pyc" && Lower("App.pyc") == "app.pyc";
    assert |Lower("MyApp.pyc")| != |Lower("App.pyc")|;
  }

  // ---------------------------------------------------------------------
  // scan_manifest
  // ---------------------------------------------------------------------

  datatype RoundSpec = RoundSpec(dir: string, filter: string, recursive: bool)

  /** The rounds table: directory, filter and recursion of each round. The
    * directories are "scripts/", "scripts/Custom/Multiplayer/",
    * "scripts/ships/" and "scripts/ships/Hardpoints/", written out here
    * component by component. */
  const Rounds: seq<RoundSpec> := [
    RoundSpec("scripts" + "/", "App.pyc", false),
    RoundSpec("scripts" + "/" + "Custom" + "/" + "Multiplayer" + "/", "*.pyc", false),
    RoundSpec("scripts" + "/" + "ships" + "/", "*.pyc", true),
    RoundSpec("scripts" + "/" + "ships" + "/" + "Hardpoints" + "/", "*.pyc", true)
  ]

  datatype FileRecord = FileRecord(name: string, nameHash: bv32, contentHash: bv32)
  datatype SubdirRecord = SubdirRecord(name: string, nameHash: bv32, files: seq<FileRecord>)

  /** One round of the manifest; subdirs is None where the key is omitted. */
  datatype RoundData = RoundData(index: nat, directory: string, filter: string,
                                 recursive: bool, dirHash: bv32,
                                 files: seq<FileRecord>, subdirs: Option<seq<SubdirRecord>>)

  /** A scan completes, or stops at the first name string_hash cannot encode. */
  datatype Scanned<T> = Ok(value: T) | NonAscii(name: string)

  /** The entries of es that p accepts, in order. */
  function Where(es: seq<Entry>, p: Entry -> bool): seq<Entry>
    decreases |es|
  {
    if es == [] then []
    else Where(es[..|es| - 1], p) + (if p(es[|es| - 1]) then [es[|es| - 1]] else [])
  }

  lemma {:induction false} WhereMembers(es: seq<Entry>, p: Entry -> bool)
    ensures forall e :: e in Where(es, p) <==> e in es && p(e)
    decreases |es|
  {
    if es != [] {
      var init := es[..|es| - 1];
      WhereMembers(init, p);
      assert es == init + [es[|es| - 1]];
    }
  }

  lemma {:induction false} WhereSorted(es: seq<Entry>, p: Entry -> bool)
    requires Sorted(es)
    ensures Sorted(Where(es, p))
    decreases |es|
  {
    if es != [] {
      var n := |es| - 1;
      var init := es[..n];
      assert Sorted(init);
      WhereSorted(init, p);
      WhereMembers(init, p);
      var w := Where(init, p);
      if p(es[n]) {
        var r := w + [es[n]];
        forall i, j | 0 <= i < j < |r|
          ensures !Below(r[j].name, r[i].name)
        {
          if j == |w| {
            assert r[i] in init;
            var k :| 0 <= k < n && init[k] == r[i];
          }
        }
      }
    }
  }

  /** A file the round records: a regular file whose name matches. */
  predicate Selected(filter: string, e: Entry)
  {
    e.node.File? && MatchFilter(filter, e.name)
  }

  function Picked(filter: string, es: seq<Entry>): seq<Entry>
  {
    Where(es, e => Selected(filter, e))
  }

  /** The file loop over the sorted entries es: one record per selected
    * entry, in order. */
  function FilesOf(filter: string, es: seq<Entry>): Scanned<seq<FileRecord>>
    decreases |es|
  {
    if es == [] then Ok([])
    else match FilesOf(filter, es[..|es| - 1])
      case NonAscii(n) => NonAscii(n)
      case Ok(fs) =>
        var e := es[|es| - 1];
        if !Selected(filter, e) then Ok(fs)
        else match NameHash(e.name)
          case None => NonAscii(e.name)
          case Some(h) => Ok(fs + [FileRecord(e.name, h, FileHash.Hash(e.node.data))])
  }

  /** r is the record of the file entry e: its name, the string hash of the
    * name and the content hash of its bytes. */
  predicate Describes(r: FileRecord, e: Entry)
  {
    e.node.File? && r.name == e.name && NameHash(e.name) == Some(r.nameHash)
    && r.contentHash == FileHash.Hash(e.node.data)
  }

  /** The file list is exactly the selected entries, in order, each with its
    * name hash and content hash; it fails exactly when one of them has a
    * non-ASCII name, and then names it. */
  lemma {:induction false} FilesOfExact(filter: string, es: seq<Entry>)
    ensures var ps := Picked(filter, es);
      && (forall k :: 0 <= k < |ps| ==> ps[k].node.File? && MatchFilter(filter, ps[k].name))
      && (FilesOf(filter, es).Ok? <==> forall k :: 0 <= k < |ps| ==> NameHash(ps[k].name).Some?)
      && (FilesOf(filter, es).Ok? ==>
            |FilesOf(filter, es).value| == |ps|
            && forall k :: 0 <= k < |ps| ==> Describes(FilesOf(filter, es).value[k], ps[k]))
      && (FilesOf(filter, es).NonAscii? ==>
            exists k :: 0 <= k < |ps| && ps[k].name == FilesOf(filter, es).name
                        && NameHash(ps[k].name).None?)
    decreases |es|
  {
    if es != [] {
      var init := es[..|es| - 1];
      FilesOfExact(filter, init);
      var e := es[|es| - 1];
      var ps := Picked(filter, init);
      var all := Picked(filter, es);
      assert all == ps + (if Selected(filter, e) then [e] else []);
      assert forall k :: 0 <= k < |ps| ==> all[k] == ps[k];
      if Selected(filter, e) {
        assert all[|ps|] == e;
      }
    }
  }

  /** Once the loop has raised on a prefix, the rest of the listing is never
    * reached. */
  lemma {:induction false} FilesOfFailed(filter: string, es: seq<Entry>, i: nat)
    requires i <= |es| && FilesOf(filter, es[..i]).NonAscii?
    ensures FilesOf(filter, es) == FilesOf(filter, es[..i])
    decreases |es| - i
  {
    if i < |es| {
      assert es[..i + 1][..i] == es[..i];
      FilesOfFailed(filter, es, i + 1);
    } else {
      assert es[..i] == es;
    }
  }

  /** The file loop of scan_manifest over sorted(os.listdir(d)). */
  method ScanFiles(filter: string, es: seq<Entry>) returns (r: Scanned<seq<FileRecord>>)
    ensures r == FilesOf(filter, es)
  {
    var files: seq<FileRecord> := [];
    var i := 0;
    while i < |es|
      invariant 0 <= i <= |es|
      invariant FilesOf(filter, es[..i]) == Ok(files)
    {
      assert es[..i + 1][..i] == es[..i];
      var e := es[i];
      if e.node.File? && MatchFilter(filter, e.name) {
        var nameHash := StringHashPy(e.name);
        if nameHash.None? {
          FilesOfFailed(filter, es, i + 1);
          return NonAscii(e.name);
        }
        var contentHash := FileHashPy(e.node.data);
        files := files + [FileRecord(e.name, nameHash.value, contentHash)];
      }
      i := i + 1;
    }
    assert es[..i] == es;
    r := Ok(files);
  }

  predicate Hidden(name: string)
  {
    |name| > 0 && name[0] == '.'
  }

  /** A subdirectory the round records: a directory whose name does not
    * start with '.' and which holds at least one selected file. */
  predicate KeptDir(filter: string, e: Entry)
  {
    e.node.Dir? && !Hidden(e.name) && SubFiles(filter, e) != Ok([])
  }

  /** The file loop over a directory entry's own sorted listing. */
  function SubFiles(filter: string, e: Entry): Scanned<seq<FileRecord>>
  {
    if e.node.Dir? then FilesOf(filter, Sort(e.node.listing)) else Ok([])
  }

  function Kept(filter: string, es: seq<Entry>): seq<Entry>
  {
    Where(es, e => KeptDir(filter, e))
  }

  /** The subdirectory loop over the sorted entries es. */
  function SubdirsOf(filter: string, es: seq<Entry>): Scanned<seq<SubdirRecord>>
    decreases |es|
  {
    if es == [] then Ok([])
    else match SubdirsOf(filter, es[..|es| - 1])
      case NonAscii(n) => NonAscii(n)
      case Ok(ds) =>
        var e := es[|es| - 1];
        if !e.node.Dir? || Hidden(e.name) then Ok(ds)
        else match SubFiles(filter, e)
          case NonAscii(n) => NonAscii(n)
          case Ok(fs) =>
            if fs == [] then Ok(ds)
            else match NameHash(e.name)
              case None => NonAscii(e.name)
              case Some(h) => Ok(ds + [SubdirRecord(e.name, h, fs)])
  }

  /** The subdirectory list is exactly the kept directories, in order, each
    * with its name hash and the non-empty file list of its own sorted
    * listing; deeper directories are never entered. */
  lemma {:induction false} SubdirsOfExact(filter: string, es: seq<Entry>)
    ensures var ks := Kept(filter, es);
      && (SubdirsOf(filter, es).Ok? <==>
            forall k :: 0 <= k < |ks| ==>
              SubFiles(filter, ks[k]).Ok? && NameHash(ks[k].name).Some?)
      && (SubdirsOf(filter, es).Ok? ==>
            var ds := SubdirsOf(filter, es).value;
            |ds| == |ks|
            && forall k :: 0 <= k < |ks| ==>
                 ds[k].name == ks[k].name && Some(ds[k].nameHash) == NameHash(ks[k].name)
                 && ds[k].files != [] && SubFiles(filter, ks[k]) == Ok(ds[k].files))
    decreases |es|
  {
    if es != [] {
      var init := es[..|es| - 1];
      SubdirsOfExact(filter, init);
      var e := es[|es| - 1];
      var ks := Kept(filter, init);
      var all := Kept(filter, es);
      assert all == ks + (if KeptDir(filter, e) then [e] else []);
      assert forall k :: 0 <= k < |ks| ==> all[k] == ks[k];
      if KeptDir(filter, e) {
        assert all[|ks|] == e;
      }
    }
  }

  /** A kept entry is a directory of es whose name does not start with '.'
    * and which holds a selected file; every such directory is kept. */
  lemma KeptMembers(filter: string, es: seq<Entry>)
    ensures forall e :: e in Kept(filter, es) <==>
      e in es && e.node.Dir? && !Hidden(e.name) && SubFiles(filter, e) != Ok([])
  {
    WhereMembers(es, e => KeptDir(filter, e));
  }

  lemma {:induction false} SubdirsOfFailed(filter: string, es: seq<Entry>, i: nat)
    requires i <= |es| && SubdirsOf(filter, es[..i]).NonAscii?
    ensures SubdirsOf(filter, es) == SubdirsOf(filter, es[..i])
    decreases |es| - i
  {
    if i < |es| {
      assert es[..i + 1][..i] == es[..i];
      SubdirsOfFailed(filter, es, i + 1);
    } else {
      assert es[..i] == es;
    }
  }

  /** The subdirectory loop of a recursive round: one level down, the file
    * loop over each directory's own sorted listing. */
  method ScanSubdirs(filter: string, es: seq<Entry>) returns (r: Scanned<seq<SubdirRecord>>)
    ensures r == SubdirsOf(filter, es)
  {
    var subdirs: seq<SubdirRecord> := [];
    var i := 0;
    while i < |es|
      invariant 0 <= i <= |es|
      invariant SubdirsOf(filter, es[..i]) == Ok(subdirs)
    {
      assert es[..i + 1][..i] == es[..i];
      var e := es[i];
      if e.node.Dir? && !Hidden(e.name) {
        var subFiles := ScanFiles(filter, Sort(e.node.listing));
        if subFiles.NonAscii? {
          SubdirsOfFailed(filter, es, i + 1);
          return NonAscii(subFiles.name);
        }
        if subFiles.value != [] {
          var nameHash := StringHashPy(e.name);
          if nameHash.None? {
            SubdirsOfFailed(filter, es, i + 1);
            return NonAscii(e.name);
          }
          subdirs := subdirs + [SubdirRecord(e.name, nameHash.value, subFiles.value)];
        }
      }
      i := i + 1;
    }
    assert es[..i] == es;
    r := Ok(subdirs);
  }

  /** One round: None when its directory is missing, otherwise its record
    * built from the sorted listing. */
  function RoundOf(root: Node, index: nat, spec: RoundSpec): Scanned<Option<RoundData>>
  {
    match Resolve(root, Segments(spec.dir))
    case None => Ok(None)
    case Some(listing) =>
      match NameHash(Leaf(spec.dir))
      case None => NonAscii(Leaf(spec.dir))
      case Some(dirHash) =>
        var es := Sort(listing);
        match FilesOf(spec.filter, es)
        case NonAscii(n) => NonAscii(n)
        case Ok(files) =>
          if !spec.recursive then
            Ok(Some(RoundData(index, spec.dir, spec.filter, false, dirHash, files, None)))
          else match SubdirsOf(spec.filter, es)
            case NonAscii(n) => NonAscii(n)
            case Ok(ds) =>
              Ok(Some(RoundData(index, spec.dir, spec.filter, true, dirHash, files,
                                if ds == [] then None else Some(ds))))
  }

  /** A round is None exactly when its directory is missing; otherwise it
    * carries its own index and table entry, the hash of the leaf name, the
    * file list of the sorted listing, and a subdirectory list only when the
    * round is recursive and the list is not empty. */
  lemma RoundShape(root: Node, index: nat, spec: RoundSpec)
    ensures RoundOf(root, index, spec) == Ok(None) <==> Resolve(root, Segments(spec.dir)).None?
    ensures RoundOf(root, index, spec).Ok? && RoundOf(root, index, spec).value.Some? ==>
      var d := RoundOf(root, index, spec).value.value;
      var es := Sort(Resolve(root, Segments(spec.dir)).value);
      && d.index == index && d.directory == spec.dir
      && d.filter == spec.filter && d.recursive == spec.recursive
      && NameHash(Leaf(d.directory)) == Some(d.dirHash)
      && FilesOf(d.filter, es) == Ok(d.files)
      && (!d.recursive ==> d.subdirs.None?)
      && (d.recursive ==> SubdirsOf(d.filter, es) == Ok(if d.subdirs.None? then [] else d.subdirs.value))
      && (d.subdirs.Some? ==> d.subdirs.value != [])
  {
  }

  /** The body of the rounds loop of scan_manifest. */
  method ScanRound(root: Node, index: nat, spec: RoundSpec) returns (r: Scanned<Option<RoundData>>)
    ensures r == RoundOf(root, index, spec)
  {
    var listing := Resolve(root, Segments(spec.dir));
    if listing.None? {
      return Ok(None);
    }
    var dirHash := StringHashPy(Leaf(spec.dir));
    if dirHash.None? {
      return NonAscii(Leaf(spec.dir));
    }
    var es := Sort(listing.value);
    var files := ScanFiles(spec.filter, es);
    if files.NonAscii? {
      return NonAscii(files.name);
    }
    var subdirs: seq<SubdirRecord> := [];
    if spec.recursive {
      var scanned := ScanSubdirs(spec.filter, es);
      if scanned.NonAscii? {
        return NonAscii(scanned.name);
      }
      subdirs := scanned.value;
    }
    r := Ok(Some(RoundData(index, spec.dir, spec.filter, spec.recursive, dirHash.value,
                           files.value, if subdirs == [] then None else Some(subdirs))));
  }

  /** Sorting a listing keeps exactly its entries. */
  lemma SortKeepsEntries(listing: seq<Entry>)
    ensures forall e :: e in Sort(listing) <==> e in listing
  {
    SortSpec(listing);
    forall e
      ensures e in Sort(listing) <==> e in listing
    {
      assert e in Sort(listing) <==> e in multiset(Sort(listing));
      assert e in listing <==> e in multiset(listing);
    }
  }

  /** The k-th selected entry has the k-th record of a successful file loop. */
  lemma PickedRecord(filter: string, es: seq<Entry>, k: nat)
    requires FilesOf(filter, es).Ok? && k < |Picked(filter, es)|
    ensures k < |FilesOf(filter, es).value|
    ensures Describes(FilesOf(filter, es).value[k], Picked(filter, es)[k])
  {
    FilesOfExact(filter, es);
  }

  /** Every regular file of the directory whose name matches has its record
    * in the round's file list. */
  lemma FilesCoverMatches(filter: string, listing: seq<Entry>)
    ensures var es := Sort(listing);
      FilesOf(filter, es).Ok? ==>
        forall e :: e in listing && e.node.File? && MatchFilter(filter, e.name) ==>
          exists k :: 0 <= k < |FilesOf(filter, es).value| && Describes(FilesOf(filter, es).value[k], e)
  {
    var es := Sort(listing);
    if FilesOf(filter, es).Ok? {
      SortKeepsEntries(listing);
      WhereMembers(es, e => Selected(filter, e));
      var ps := Picked(filter, es);
      var fs := FilesOf(filter, es).value;
      forall e | e in listing && e.node.File? && MatchFilter(filter, e.name)
        ensures exists k :: 0 <= k < |fs| && Describes(fs[k], e)
      {
        assert e in ps;
        var k :| 0 <= k < |ps| && ps[k] == e;
        PickedRecord(filter, es, k);
      }
    }
  }

  /** A successful file loop has one record per selected entry. */
  lemma PickedCount(filter: string, es: seq<Entry>)
    requires FilesOf(filter, es).Ok?
    ensures |FilesOf(filter, es).value| == |Picked(filter, es)|
  {
    FilesOfExact(filter, es);
  }

  /** Every record of the round's file list is that of a regular file of
    * the directory whose name matches. */
  lemma FilesOnlyMatches(filter: string, listing: seq<Entry>)
    ensures FilesOf(filter, Sort(listing)).Ok? ==>
      forall r :: r in FilesOf(filter, Sort(listing)).value ==>
        exists e :: e in listing && e.node.File? && MatchFilter(filter, e.name) && Describes(r, e)
  {
    if FilesOf(filter, Sort(listing)).Ok? {
      var fs := FilesOf(filter, Sort(listing)).value;
      forall r | r in fs
        ensures exists e :: e in listing && e.node.File? && MatchFilter(filter, e.name) && Describes(r, e)
      {
        var k :| 0 <= k < |fs| && fs[k] == r;
        RecordFromListing(filter, listing, k);
      }
    }
  }

  /** The k-th record of a round's file list comes from the listing. */
  lemma RecordFromListing(filter: string, listing: seq<Entry>, k: nat)
    requires FilesOf(filter, Sort(listing)).Ok? && k < |FilesOf(filter, Sort(listing)).value|
    ensures |Picked(filter, Sort(listing))| == |FilesOf(filter, Sort(listing)).value|
    ensures var e := Picked(filter, Sort(listing))[k];
      e in listing && e.node.File? && MatchFilter(filter, e.name)
      && Describes(FilesOf(filter, Sort(listing)).value[k], e)
  {
    var es := Sort(listing);
    SortKeepsEntries(listing);
    PickedCount(filter, es);
    WhereMembers(es, e => Selected(filter, e));
    var ps := Picked(filter, es);
    assert ps[k] in ps;
    PickedRecord(filter, es, k);
  }

  /** The round's file list is in sorted name order. */
  lemma FilesInOrder(filter: string, listing: seq<Entry>)
    ensures var es := Sort(listing);
      FilesOf(filter, es).Ok? ==>
        var fs := FilesOf(filter, es).value;
        forall i, j :: 0 <= i < j < |fs| ==> !Below(fs[j].name, fs[i].name)
  {
    var es := Sort(listing);
    SortSpec(listing);
    FilesOfExact(filter, es);
    WhereSorted(es, e => Selected(filter, e));
    var ps := Picked(filter, es);
    if FilesOf(filter, es).Ok? {
      var fs := FilesOf(filter, es).value;
      forall i, j | 0 <= i < j < |fs|
        ensures !Below(fs[j].name, fs[i].name)
      {
        assert fs[i].name == ps[i].name && fs[j].name == ps[j].name;
      }
    }
  }

  /** Every directory of the listing that is kept has its record, with the
    * file list of its own listing, in the round's subdirectory list. */
  lemma SubdirsCoverKept(filter: string, listing: seq<Entry>)
    ensures var es := Sort(listing);
      SubdirsOf(filter, es).Ok? ==>
        var ds := SubdirsOf(filter, es).value;
        forall e :: e in listing && KeptDir(filter, e) ==>
          exists k :: 0 <= k < |ds| && ds[k].name == e.name && Ok(ds[k].files) == SubFiles(filter, e)
  {
    var es := Sort(listing);
    SortKeepsEntries(listing);
    SubdirsOfExact(filter, es);
    WhereMembers(es, e => KeptDir(filter, e));
    var ks := Kept(filter, es);
    if SubdirsOf(filter, es).Ok? {
      var ds := SubdirsOf(filter, es).value;
      forall e | e in listing && KeptDir(filter, e)
        ensures exists k :: 0 <= k < |ds| && ds[k].name == e.name && Ok(ds[k].files) == SubFiles(filter, e)
      {
        assert e in ks;
        var k :| 0 <= k < |ks| && ks[k] == e;
        assert ds[k].name == e.name;
      }
    }
  }

  /** Every record of the round's subdirectory list is that of a directory
    * of the listing whose name does not start with '.', with the non-empty
    * file list of its own listing. */
  lemma SubdirsOnlyKept(filter: string, listing: seq<Entry>)
    ensures SubdirsOf(filter, Sort(listing)).Ok? ==>
      forall d :: d in SubdirsOf(filter, Sort(listing)).value ==>
        d.files != [] &&
        exists e :: e in listing && e.node.Dir? && !Hidden(e.name) && d.name == e.name
                    && Ok(d.files) == SubFiles(filter, e)
  {
    var es := Sort(listing);
    if SubdirsOf(filter, es).Ok? {
      SortKeepsEntries(listing);
      SubdirsOfExact(filter, es);
      WhereMembers(es, e => KeptDir(filter, e));
      var ks := Kept(filter, es);
      var ds := SubdirsOf(filter, es).value;
      forall d | d in ds
        ensures d.files != [] &&
          exists e :: e in listing && e.node.Dir? && !Hidden(e.name) && d.name == e.name
                      && Ok(d.files) == SubFiles(filter, e)
      {
        var k :| 0 <= k < |ds| && ds[k] == d;
        var e := ks[k];
        assert e in ks;
        assert e in listing && e.node.Dir? && !Hidden(e.name) && d.name == e.name
               && Ok(d.files) == SubFiles(filter, e);
      }
    }
  }

  /** The round's subdirectory list is in sorted name order. */
  lemma SubdirsInOrder(filter: string, listing: seq<Entry>)
    ensures var es := Sort(listing);
      SubdirsOf(filter, es).Ok? ==>
        var ds := SubdirsOf(filter, es).value;
        forall i, j :: 0 <= i < j < |ds| ==> !Below(ds[j].name, ds[i].name)
  {
    var es := Sort(listing);
    SortSpec(listing);
    SubdirsOfExact(filter, es);
    WhereSorted(es, e => KeptDir(filter, e));
    var ks := Kept(filter, es);
    if SubdirsOf(filter, es).Ok? {
      var ds := SubdirsOf(filter, es).value;
      forall i, j | 0 <= i < j < |ds|
        ensures !Below(ds[j].name, ds[i].name)
      {
        assert ds[i].name == ks[i].name && ds[j].name == ks[j].name;
      }
    }
  }

  /** A file whose name starts with '.' is recorded like any other. */
  lemma HiddenFileRecorded(filter: string, f: Entry)
    requires f.node.File? && Hidden(f.name) && MatchFilter(filter, f.name)
    requires forall i :: 0 <= i < |f.name| ==> f.name[i] as int < 0x80
    ensures FilesOf(filter, [f]).Ok? && |FilesOf(filter, [f]).value| == 1
    ensures Describes(FilesOf(filter, [f]).value[0], f)
  {
    NameHashRaises(f.name);
    assert [f][..0] == [];
  }

  /** A directory whose name starts with '.' is never entered. */
  lemma HiddenDirSkipped()
    ensures SubdirsOf("*.pyc", [Entry(".svn", Dir([Entry("a.pyc", File([]))]))]) == Ok([])
  {
    var es := [Entry(".svn", Dir([Entry("a.pyc", File([]))]))];
    assert es[..0] == [];
    assert Hidden(es[0].name);
  }

  /** A match two levels down does not keep its grandparent. */
  lemma DeepMatchIgnored()
    ensures SubdirsOf("*.pyc", [Entry("a", Dir([Entry("b", Dir([Entry("c.pyc", File([]))]))]))]) == Ok([])
  {
    var deep := Entry("b", Dir([Entry("c.pyc", File([]))]));
    assert Sort([deep]) == [deep];
    assert [deep][..0] == [];
    assert FilesOf("*.pyc", [deep]) == Ok([]);
    var es := [Entry("a", Dir([deep]))];
    assert es[..0] == [];
    assert SubFiles("*.pyc", es[0]) == Ok([]);
  }

  /** The directory names of the rounds: their components and leaves. */
  lemma Round0Names()
    ensures Segments(Rounds[0].dir) == ["scripts"] && Leaf(Rounds[0].dir) == "scripts"
  {
    SingleName("scripts");
    TrailingSlash("scripts");
  }

  lemma Round1Names()
    ensures Segments(Rounds[1].dir) == ["scripts", "Custom", "Multiplayer"]
    ensures Leaf(Rounds[1].dir) == "Multiplayer"
  {
    ThreeNames("scripts", "Custom", "Multiplayer");
  }

  lemma Round2Names()
    ensures Segments(Rounds[2].dir) == ["scripts", "ships"] && Leaf(Rounds[2].dir) == "ships"
  {
    TwoNames("scripts", "ships");
  }

  lemma Round3Names()
    ensures Segments(Rounds[3].dir) == ["scripts", "ships", "Hardpoints"]
    ensures Leaf(Rounds[3].dir) == "Hardpoints"
  {
    ThreeNames("scripts", "ships", "Hardpoints");
  }

  /** A string of ASCII characters encodes to their codes. */
  lemma EncodesAs(s: string, b: seq<bv8>)
    requires |s| == |b|
    requires forall i :: 0 <= i < |s| ==> s[i] as int < 0x80 && s[i] as int == b[i] as int
    ensures Encode(s) == Some(b)
  {
    EncodeAscii(s);
    var e := Encode(s).value;
    forall i | 0 <= i < |s|
      ensures e[i] == b[i]
    {
      assert b[i] as int < 0x100;
    }
    assert e == b;
  }

  lemma ScriptsEncodes()
    ensures Encode("scripts") == Some([0x73, 0x63, 0x72, 0x69, 0x70, 0x74, 0x73])
  {
    EncodesAs("scripts", [0x73, 0x63, 0x72, 0x69, 0x70, 0x74, 0x73]);
  }

  /** Round 0 hashes the leaf "scripts" to 0x4DAFCB2F. */
  lemma Round0DirHash()
    ensures NameHash(Leaf(Rounds[0].dir)) == Some(0x4DAFCB2F)
  {
    var b: seq<bv8> := [0x73, 0x63, 0x72, 0x69, 0x70, 0x74, 0x73];
    assert Leaf(Rounds[0].dir) == "scripts" by {
      Round0Names();
    }
    assert NameHash("scripts") == Some(StringHash.Hash(b)) by {
      NameHashAgreesWithC("scripts");
      ScriptsEncodes();
    }
    StringHash.KnownScripts();
  }

  /** This table is not the one the server sends: round 1 scans another
    * directory with another filter, round 3 another directory without
    * recursion, and round 2 keeps a trailing '/' the server's lacks. */
  lemma TableDiffersFromServer()
    ensures Ascii(Rounds[1].filter) != Handshake.RoundTable(1).filter
    ensures Ascii(Rounds[1].dir) != Handshake.RoundTable(1).directory
    ensures Ascii(Rounds[3].dir) != Handshake.RoundTable(3).directory
    ensures Rounds[3].recursive != Handshake.RoundTable(3).recursive
    ensures Ascii(Rounds[2].dir) != Handshake.RoundTable(2).directory
    ensures Leaf(Rounds[2].dir) == "ships"
  {
    Round2Names();
  }

  /** The results of a sequence of steps that stops at the first failure. */
  function Collect<T>(results: seq<Scanned<T>>): Scanned<seq<T>>
    decreases |results|
  {
    if results == [] then Ok([])
    else match Collect(results[..|results| - 1])
      case NonAscii(n) => NonAscii(n)
      case Ok(rs) =>
        match results[|results| - 1]
        case NonAscii(n) => NonAscii(n)
        case Ok(r) => Ok(rs + [r])
  }

  /** Collect keeps every result, in order, when all succeed, and otherwise
    * reports the first failure: every result before it succeeded. */
  lemma {:induction false} CollectShape<T>(results: seq<Scanned<T>>)
    ensures Collect(results).Ok? <==> forall i :: 0 <= i < |results| ==> results[i].Ok?
    ensures Collect(results).Ok? ==>
      |Collect(results).value| == |results|
      && forall i :: 0 <= i < |results| ==> results[i] == Ok(Collect(results).value[i])
    ensures Collect(results).NonAscii? ==>
      exists i :: 0 <= i < |results| && results[i] == NonAscii(Collect(results).name)
        && forall j :: 0 <= j < i ==> results[j].Ok?
    decreases |results|
  {
    if results != [] {
      var init := results[..|results| - 1];
      CollectShape(init);
      assert forall i :: 0 <= i < |init| ==> results[i] == init[i];
      var prev := Collect(init);
      var last := results[|results| - 1];
      if prev.Ok? && last.Ok? {
        var rs := prev.value + [last.value];
        assert Collect(results) == Ok(rs);
        assert forall i :: 0 <= i < |init| ==> rs[i] == prev.value[i];
      } else if prev.Ok? {
        var k := |results| - 1;
        assert results[k] == NonAscii(Collect(results).name);
        assert forall j :: 0 <= j < k ==> results[j].Ok?;
      } else {
        var k :| 0 <= k < |init| && init[k] == NonAscii(prev.name) && forall j :: 0 <= j < k ==> init[j].Ok?;
        assert results[k] == NonAscii(Collect(results).name);
        assert forall j :: 0 <= j < k ==> results[j].Ok?;
      }
    }
  }

  lemma {:induction false} CollectFailed<T>(results: seq<Scanned<T>>, k: nat)
    requires k <= |results| && Collect(results[..k]).NonAscii?
    ensures Collect(results) == Collect(results[..k])
    decreases |results| - k
  {
    if k < |results| {
      assert results[..k + 1][..k] == results[..k];
      CollectFailed(results, k + 1);
    } else {
      assert results[..k] == results;
    }
  }

  /** The result of every round of the table. */
  function RoundResults(root: Node, table: seq<RoundSpec>): (r: seq<Scanned<Option<RoundData>>>)
    ensures |r| == |table|
  {
    seq(|table|, i requires 0 <= i < |table| => RoundOf(root, i, table[i]))
  }

  /** What scan_manifest returns, or the name it raises on. */
  function Manifest(root: Node): Scanned<seq<Option<RoundData>>>
  {
    Collect(RoundResults(root, Rounds))
  }

  /** The manifest has one entry per round of the table, in table order, a
    * missing directory keeping its place as None; it fails exactly when
    * some round does, with the name of the first round that fails. */
  lemma RoundsInOrder(root: Node, table: seq<RoundSpec>)
    ensures var m := Collect(RoundResults(root, table));
      && (m.Ok? <==> forall i :: 0 <= i < |table| ==> RoundOf(root, i, table[i]).Ok?)
      && (m.NonAscii? ==>
            exists i :: 0 <= i < |table| && RoundOf(root, i, table[i]) == NonAscii(m.name)
              && forall j :: 0 <= j < i ==> RoundOf(root, j, table[j]).Ok?)
      && (m.Ok? ==>
            |m.value| == |table|
            && forall i :: 0 <= i < |table| ==>
                 RoundOf(root, i, table[i]) == Ok(m.value[i])
                 && (m.value[i].None? <==> Resolve(root, Segments(table[i].dir)).None?)
                 && (m.value[i].Some? ==> m.value[i].value.index == i))
  {
    var results := RoundResults(root, table);
    CollectShape(results);
    assert forall i :: 0 <= i < |table| ==> results[i] == RoundOf(root, i, table[i]);
    forall i | 0 <= i < |table| {
      RoundShape(root, i, table[i]);
    }
  }

  /** scan_manifest yields exactly four rounds. */
  lemma FourRounds(root: Node)
    ensures Manifest(root).Ok? ==> |Manifest(root).value| == 4
  {
    RoundsInOrder(root, Rounds);
  }

  /** One more successful step extends the collected results. */
  lemma CollectOkStep<T>(results: seq<Scanned<T>>, k: nat, rs: seq<T>, r: T)
    requires k < |results| && Collect(results[..k]) == Ok(rs) && results[k] == Ok(r)
    ensures Collect(results[..k + 1]) == Ok(rs + [r])
  {
    assert results[..k + 1][..k] == results[..k];
  }

  /** A failing step after successful ones is what Collect reports. */
  lemma CollectFailStep<T>(results: seq<Scanned<T>>, k: nat)
    requires k < |results| && Collect(results[..k]).Ok? && results[k].NonAscii?
    ensures Collect(results) == NonAscii(results[k].name)
  {
    assert results[..k + 1][..k] == results[..k];
    CollectFailed(results, k + 1);
  }

  /** scan_manifest: the rounds loop. */
  method ScanManifest(root: Node) returns (r: Scanned<seq<Option<RoundData>>>)
    ensures r == Manifest(root)
  {
    ghost var results := RoundResults(root, Rounds);
    var rounds: seq<Option<RoundData>> := [];
    for k := 0 to |Rounds|
      invariant Collect(results[..k]) == Ok(rounds)
    {
      var round := ScanRound(root, k, Rounds[k]);
      assert results[k] == round;
      if round.NonAscii? {
        CollectFailStep(results, k);
        return NonAscii(round.name);
      }
      CollectOkStep(results, k, rounds, round.value);
      rounds := rounds + [round.value];
    }
    assert results[..|Rounds|] == results;
    r := Ok(rounds);
  }
}
