/** The directory scan of the client side (client_transport.c): which files
  * a checksum request's filter selects, and the leaf name whose string hash
  * identifies a scanned directory. */
module ClientScan {
  import opened Bytes
  import StringHash

  // ---------------------------------------------------------------------
  // File filter.

  /** tolower of the C locale. */
  function Lower(c: byte): byte
  {
    if 'A' as int <= c <= 'Z' as int then c + 32 else c
  }

  /** strcasecmp(a, b) == 0. */
  predicate SameIgnoringCase(a: seq<byte>, b: seq<byte>)
  {
    |a| == |b| && forall i :: 0 <= i < |a| ==> Lower(a[i]) == Lower(b[i])
  }

  const Star: byte := '*' as int
  const Dot: byte := '.' as int

  /** filter_match: a filter starting "*." matches a name ending with the
    * filter's ".ext" in any case; any other filter matches a name equal to
    * it in any case. */
  predicate FilterMatch(name: seq<byte>, filter: seq<byte>)
  {
    if |filter| >= 2 && filter[0] == Star && filter[1] == Dot then
      var ext := filter[1..];
      |name| >= |ext| && SameIgnoringCase(name[|name| - |ext|..], ext)
    else SameIgnoringCase(name, filter)
  }

  function LowerAll(s: seq<byte>): (r: seq<byte>)
    ensures |r| == |s| && forall i :: 0 <= i < |s| ==> r[i] == Lower(s[i])
  {
    seq(|s|, i requires 0 <= i < |s| => Lower(s[i]))
  }

  lemma SameIgnoringCaseLower(a: seq<byte>, b: seq<byte>)
    ensures SameIgnoringCase(a, b) == SameIgnoringCase(LowerAll(a), LowerAll(b))
  {
    if |a| == |b| {
      assert forall i :: 0 <= i < |a| ==> Lower(LowerAll(a)[i]) == Lower(a[i]);
      assert forall i :: 0 <= i < |b| ==> Lower(LowerAll(b)[i]) == Lower(b[i]);
    }
  }

  lemma LowerAllDrop(s: seq<byte>, k: nat)
    requires k <= |s|
    ensures LowerAll(s)[k..] == LowerAll(s[k..])
  {
  }

  /** Matching ignores case on both sides: lower-casing the name or the
    * filter changes no answer. */
  lemma FilterMatchIgnoresCase(name: seq<byte>, filter: seq<byte>)
    ensures FilterMatch(name, filter) == FilterMatch(LowerAll(name), LowerAll(filter))
  {
    var ln, lf := LowerAll(name), LowerAll(filter);
    if |filter| >= 2 && filter[0] == Star && filter[1] == Dot {
      assert lf[0] == Star && lf[1] == Dot;
      var ext := filter[1..];
      LowerAllDrop(filter, 1);
      if |name| >= |ext| {
        LowerAllDrop(name, |name| - |ext|);
        SameIgnoringCaseLower(name[|name| - |ext|..], ext);
      }
    } else {
      assert !(|lf| >= 2 && lf[0] == Star && lf[1] == Dot);
      SameIgnoringCaseLower(name, filter);
    }
  }

  /** Every filter matches a file named as the filter itself. */
  lemma FilterMatchesItself(filter: seq<byte>)
    ensures FilterMatch(filter, filter)
  {
    if |filter| >= 2 && filter[0] == Star && filter[1] == Dot {
      assert filter[|filter| - |filter[1..]|..] == filter[1..];
    }
  }

  /** "*.pyc" matches exactly the names with a ".pyc" suffix in any case,
    * and a name that is only the extension matches too. */
  lemma PycFilter(name: seq<byte>)
    ensures FilterMatch(name, Ascii("*.pyc")) <==>
      |name| >= 4 && SameIgnoringCase(name[|name| - 4..], Ascii(".pyc"))
  {
    assert Ascii("*.pyc")[1..] == Ascii(".pyc");
  }

  // ---------------------------------------------------------------------
  // Leaf directory name.

  predicate IsSep(c: byte)
  {
    c == '/' as int || c == '\\' as int
  }

  /** The copy into dir_for_hash[64]: at most 63 characters. */
  function Truncate63(s: seq<byte>): (r: seq<byte>)
  {
    if |s| <= 63 then s else s[..63]
  }

  /** Trailing separators removed. */
  function StripSeps(s: seq<byte>): (r: seq<byte>)
    ensures |r| <= |s| && r == s[..|r|]
    ensures r == [] || !IsSep(r[|r| - 1])
    ensures forall i :: |r| <= i < |s| ==> IsSep(s[i])
  {
    if s != [] && IsSep(s[|s| - 1]) then StripSeps(s[..|s| - 1]) else s
  }

  /** The index just after the last separator, 0 when there is none. */
  function LeafStart(s: seq<byte>): (k: nat)
    ensures k <= |s|
    ensures k > 0 ==> IsSep(s[k - 1])
    ensures forall i :: k <= i < |s| ==> !IsSep(s[i])
  {
    if s == [] then 0
    else if IsSep(s[|s| - 1]) then |s|
    else LeafStart(s[..|s| - 1])
  }

  /** The leaf name bc_client_scan_directory hashes. */
  function Leaf(subDir: seq<byte>): seq<byte>
  {
    var t := StripSeps(Truncate63(subDir));
    t[LeafStart(t)..]
  }

  /** The loop that drops trailing separators by shortening the length. */
  method StripLength(t: seq<byte>) returns (dlen: nat)
    ensures dlen == |StripSeps(t)|
  {
    dlen := |t|;
    while dlen > 0 && IsSep(t[dlen - 1])
      invariant dlen <= |t|
      invariant StripSeps(t[..dlen]) == StripSeps(t)
    {
      assert t[..dlen][..dlen - 1] == t[..dlen - 1];
      dlen := dlen - 1;
    }
    assert t[..dlen] == StripSeps(t[..dlen]);
  }

  /** The scan for the last separator: one past it, or 0. */
  method LastSepEnd(t: seq<byte>) returns (start: nat)
    ensures start == LeafStart(t)
  {
    start := 0;
    for i := 0 to |t|
      invariant start == LeafStart(t[..i])
    {
      assert t[..i + 1][..i] == t[..i];
      if IsSep(t[i]) {
        start := i + 1;
      }
    }
    assert t[..|t|] == t;
  }

  /** The leaf-name extraction of bc_client_scan_directory. */
  method LeafName(subDir: seq<byte>) returns (leaf: seq<byte>)
    ensures leaf == Leaf(subDir)
  {
    var t := if |subDir| <= 63 then subDir else subDir[..63];
    var dlen := StripLength(t);
    var start := LastSepEnd(t[..dlen]);
    leaf := t[..dlen][start..];
  }

  /** The leaf is what follows the last separator of the path without its
    * trailing separators: it holds no separator, it ends the stripped path,
    * and what precedes it in the path is empty or ends in a separator. */
  lemma LeafCharacterized(subDir: seq<byte>)
    ensures var t := StripSeps(Truncate63(subDir));
      var leaf := Leaf(subDir);
      |leaf| <= |t| && t[|t| - |leaf|..] == leaf
      && (forall i :: 0 <= i < |leaf| ==> !IsSep(leaf[i]))
      && (|leaf| < |t| ==> IsSep(t[|t| - |leaf| - 1]))
      && (leaf == [] ==> t == [] || |t| == LeafStart(t))
  {
    var t := StripSeps(Truncate63(subDir));
    TailAfterLastSep(t, LeafStart(t));
  }

  /** What follows index k, when k is 0 or just after a separator and no
    * separator comes later, is the suffix of separator-free bytes. */
  lemma TailAfterLastSep(t: seq<byte>, k: nat)
    requires k <= |t| && (k > 0 ==> IsSep(t[k - 1]))
    requires forall i :: k <= i < |t| ==> !IsSep(t[i])
    ensures var leaf := t[k..];
      |leaf| <= |t| && t[|t| - |leaf|..] == leaf
      && (forall i :: 0 <= i < |leaf| ==> !IsSep(leaf[i]))
      && (|leaf| < |t| ==> IsSep(t[|t| - |leaf| - 1]))
  {
    var leaf := t[k..];
    assert |t| - |leaf| == k;
    forall i | 0 <= i < |leaf|
      ensures !IsSep(leaf[i])
    {
      assert leaf[i] == t[k + i];
    }
  }

  /** Trailing separators do not change the leaf of a short path. */
  lemma LeafIgnoresTrailingSep(subDir: seq<byte>)
    requires |subDir| < 63
    ensures Leaf(subDir + ['/' as int]) == Leaf(subDir)
  {
    var s := subDir + ['/' as int];
    assert Truncate63(s) == s && Truncate63(subDir) == subDir;
    assert s[..|s| - 1] == subDir;
  }

  function ToBv8(s: seq<byte>): (r: seq<bv8>)
    ensures |r| == |s|
  {
    seq(|s|, i requires 0 <= i < |s| => s[i] as bv8)
  }

  /** scan->dir_hash: the string hash of the leaf. */
  function DirHash(subDir: seq<byte>): bv32
  {
    StringHash.Hash(ToBv8(Leaf(subDir)))
  }

  /** After a separator, a run of non-separators does not move the leaf
    * start. */
  lemma {:induction false} LeafStartAfterSep(s: seq<byte>, t: seq<byte>)
    requires s != [] && IsSep(s[|s| - 1])
    requires forall i :: 0 <= i < |t| ==> !IsSep(t[i])
    ensures LeafStart(s + t) == |s|
    decreases |t|
  {
    if t == [] {
      assert s + t == s;
    } else {
      assert (s + t)[..|s + t| - 1] == s + t[..|t| - 1];
      LeafStartAfterSep(s, t[..|t| - 1]);
    }
  }

  /** A path of at most 63 bytes that does not end in a separator and has
    * its last separator just before index k has the leaf s[k..]. */
  lemma LeafAfterLastSep(s: seq<byte>, k: nat)
    requires 0 < k <= |s| <= 63 && IsSep(s[k - 1]) && !IsSep(s[|s| - 1])
    requires forall i :: k <= i < |s| ==> !IsSep(s[i])
    ensures Leaf(s) == s[k..]
  {
    assert Truncate63(s) == s && StripSeps(s) == s;
    assert s[..k] + s[k..] == s;
    LeafStartAfterSep(s[..k], s[k..]);
  }

  /** The leaves of the round directories: "scripts/" hashes as "scripts",
    * "scripts/ships" as "ships" and "Scripts/Multiplayer" as "Multiplayer". */
  lemma ScriptsLeaf()
    ensures Leaf(Ascii("scripts/")) == Ascii("scripts")
  {
    AsciiNoSep("scripts");
    LeafOfName(Ascii("scripts"));
    AsciiAppend("scripts", "/");
    assert "scripts" + "/" == "scripts/";
    LeafIgnoresTrailingSep(Ascii("scripts"));
  }

  /** A name of at most 63 bytes with no separator is its own leaf. */
  lemma LeafOfName(s: seq<byte>)
    requires 0 < |s| <= 63 && forall i :: 0 <= i < |s| ==> !IsSep(s[i])
    ensures Leaf(s) == s
  {
    assert Truncate63(s) == s && StripSeps(s) == s;
  }

  /** A string without '/' and '\\' has no separator byte. */
  lemma AsciiNoSep(s: string)
    requires forall i :: 0 <= i < |s| ==> s[i] as int < 0x80
    requires '/' !in s && '\\' !in s
    ensures forall i :: 0 <= i < |s| ==> !IsSep(Ascii(s)[i])
  {
  }

  /** The bytes of two strings one after the other. */
  lemma AsciiAppend(s: string, t: string)
    requires forall i :: 0 <= i < |s| ==> s[i] as int < 0x80
    requires forall i :: 0 <= i < |t| ==> t[i] as int < 0x80
    ensures forall i :: 0 <= i < |s + t| ==> (s + t)[i] as int < 0x80
    ensures Ascii(s + t) == Ascii(s) + Ascii(t)
  {
  }

  /** The bytes of a string from index k on are the bytes of its tail. */
  lemma AsciiDrop(s: string, k: nat)
    requires k <= |s| && forall i :: 0 <= i < |s| ==> s[i] as int < 0x80
    ensures Ascii(s)[k..] == Ascii(s[k..])
  {
  }

  lemma ShipsLeaf()
    ensures Leaf(Ascii("scripts/ships")) == Ascii("ships")
  {
    var str := "scripts/ships";
    LeafAfterLastSep(Ascii(str), 8);
    AsciiDrop(str, 8);
    assert str[8..] == "ships";
  }

  lemma MultiplayerLeaf()
    ensures Leaf(Ascii("Scripts/Multiplayer")) == Ascii("Multiplayer")
  {
    var str := "Scripts/Multiplayer";
    LeafAfterLastSep(Ascii(str), 8);
    AsciiDrop(str, 8);
    assert str[8..] == "Multiplayer";
  }
}
