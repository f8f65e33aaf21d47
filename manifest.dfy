/** The hash manifest (manifest.c / manifest.h): per checksum directory the
  * expected name and content hashes of its files and of the files of its
  * subdirectories, the first-match lookups over them, and the count limits
  * the loader enforces while filling its fixed arrays. */
module Manifest {
  import opened Bytes

  const MaxDirs := 4
  const MaxFiles := 256
  const MaxSubdirs := 8
  const MaxSubFiles := 128

  datatype FileEntry = FileEntry(nameHash: u32, contentHash: u32)

  datatype Subdir = Subdir(nameHash: u32, files: seq<FileEntry>)

  /** One checksum directory; file_count and subdir_count are the lengths. */
  datatype Dir = Dir(dirHash: u32, recursive: bool, files: seq<FileEntry>, subdirs: seq<Subdir>)

  /** The lowest index whose entry has the name hash, or None when no entry
    * has it: bc_manifest_find_file and bc_manifest_find_subdir_file (a
    * returned pointer is files[index]). */
  function FindFile(files: seq<FileEntry>, nameHash: u32): (r: Option<nat>)
    ensures r.Some? ==> r.value < |files| && files[r.value].nameHash == nameHash
    ensures r.Some? ==> forall j :: 0 <= j < r.value ==> files[j].nameHash != nameHash
    ensures r.None? <==> forall j :: 0 <= j < |files| ==> files[j].nameHash != nameHash
  {
    if files == [] then None
    else if files[0].nameHash == nameHash then Some(0)
    else
      match FindFile(files[1..], nameHash)
      case None => None
      case Some(i) => Some(i + 1)
  }

  /** bc_manifest_find_subdir: the lowest subdirectory index with the hash. */
  function FindSubdir(subdirs: seq<Subdir>, nameHash: u32): (r: Option<nat>)
    ensures r.Some? ==> r.value < |subdirs| && subdirs[r.value].nameHash == nameHash
    ensures r.Some? ==> forall j :: 0 <= j < r.value ==> subdirs[j].nameHash != nameHash
    ensures r.None? <==> forall j :: 0 <= j < |subdirs| ==> subdirs[j].nameHash != nameHash
  {
    if subdirs == [] then None
    else if subdirs[0].nameHash == nameHash then Some(0)
    else
      match FindSubdir(subdirs[1..], nameHash)
      case None => None
      case Some(i) => Some(i + 1)
  }

  /** Whether some file has the name hash. */
  predicate HasFile(files: seq<FileEntry>, nameHash: u32)
  {
    exists j :: 0 <= j < |files| && files[j].nameHash == nameHash
  }

  /** The file entries of one JSON "files" array, as their name and content
    * hash strings (None where the key or the string is missing). */
  datatype JsonFile = JsonFile(nameHash: Option<string>, contentHash: Option<string>)

  datatype JsonSubdir = JsonSubdir(nameHash: Option<string>, files: seq<JsonFile>)

  /** parse_files: -1 (None) when the array holds more than max entries,
    * otherwise one entry per element with its hashes converted. */
  method ParseFiles(arr: seq<JsonFile>, max: nat) returns (r: Option<seq<FileEntry>>)
    ensures r.None? <==> |arr| > max
    ensures r.Some? ==> |r.value| == |arr|
    ensures r.Some? ==> forall i :: 0 <= i < |arr| ==>
      r.value[i] == FileEntry(HexToU32(arr[i].nameHash), HexToU32(arr[i].contentHash))
  {
    if |arr| > max {
      return None;
    }
    var out: seq<FileEntry> := [];
    var i := 0;
    while i < |arr|
      invariant 0 <= i <= |arr| && |out| == i
      invariant forall k :: 0 <= k < i ==>
        out[k] == FileEntry(HexToU32(arr[k].nameHash), HexToU32(arr[k].contentHash))
    {
      out := out + [FileEntry(HexToU32(arr[i].nameHash), HexToU32(arr[i].contentHash))];
      i := i + 1;
    }
    return Some(out);
  }

  /** A stored subdirectory holds the converted name hash of its JSON
    * element and, in order, the converted hashes of each of its files. */
  predicate SubdirOf(sd: Subdir, j: JsonSubdir)
  {
    sd.nameHash == HexToU32(j.nameHash) && |sd.files| == |j.files|
    && forall k :: 0 <= k < |j.files| ==>
      sd.files[k] == FileEntry(HexToU32(j.files[k].nameHash), HexToU32(j.files[k].contentHash))
  }

  /** parse_subdirs: -1 when there are more than max subdirectories or when
    * any one of them has more than 128 files. */
  method ParseSubdirs(arr: seq<JsonSubdir>, max: nat) returns (r: Option<seq<Subdir>>)
    ensures r.None? <==> |arr| > max || exists i :: 0 <= i < |arr| && |arr[i].files| > MaxSubFiles
    ensures r.Some? ==> |r.value| == |arr|
    ensures r.Some? ==> forall i :: 0 <= i < |arr| ==> SubdirOf(r.value[i], arr[i])
  {
    if |arr| > max {
      return None;
    }
    var out: seq<Subdir> := [];
    var i := 0;
    while i < |arr|
      invariant 0 <= i <= |arr| && |out| == i
      invariant forall k :: 0 <= k < i ==> |arr[k].files| <= MaxSubFiles
      invariant forall k :: 0 <= k < i ==> SubdirOf(out[k], arr[k])
    {
      var files := ParseFiles(arr[i].files, MaxSubFiles);
      if files.None? {
        return None;
      }
      out := out + [Subdir(HexToU32(arr[i].nameHash), files.value)];
      i := i + 1;
    }
    return Some(out);
  }

  // ---------------------------------------------------------------------
  // hex_to_u32: strtoul(s, NULL, 16) cast to u32

  predicate IsHexDigit(c: char)
  {
    '0' <= c <= '9' || 'a' <= c <= 'f' || 'A' <= c <= 'F'
  }

  function HexValue(c: char): (v: nat)
    requires IsHexDigit(c)
    ensures v < 16
  {
    if '0' <= c <= '9' then c as int - '0' as int
    else if 'a' <= c <= 'f' then c as int - 'a' as int + 10
    else c as int - 'A' as int + 10
  }

  /** The number of leading hex digits. */
  function DigitRun(s: string): (n: nat)
    ensures n <= |s|
    ensures forall i :: 0 <= i < n ==> IsHexDigit(s[i])
    ensures n < |s| ==> !IsHexDigit(s[n])
  {
    if s == [] || !IsHexDigit(s[0]) then 0 else 1 + DigitRun(s[1..])
  }

  /** The value of a run of hex digits, most significant first. */
  function HexNumber(s: string): nat
    requires forall i :: 0 <= i < |s| ==> IsHexDigit(s[i])
  {
    if s == [] then 0 else HexNumber(s[..|s| - 1]) * 16 + HexValue(s[|s| - 1])
  }

  const ULongMax := 0xFFFF_FFFF_FFFF_FFFF

  /** hex_to_u32: NULL gives 0; otherwise an optional 0x/0X prefix, then the
    * leading hex digits as a number (0 when there are none), saturated at
    * ULONG_MAX by strtoul and then truncated to 32 bits by the cast. */
  function HexToU32(s: Option<string>): u32
  {
    match s
    case None => 0
    case Some(t) =>
      var body := if |t| >= 3 && t[0] == '0' && (t[1] == 'x' || t[1] == 'X') && IsHexDigit(t[2]) then t[2..] else t;
      var v := HexNumber(body[..DigitRun(body)]);
      if v > ULongMax then 0xFFFF_FFFF else v % 0x1_0000_0000
  }

  const HexUpper := "0123456789ABCDEF"

  /** The low n hex digits of v, upper case, most significant first. */
  function HexDigits(v: nat, n: nat): (s: string)
    ensures |s| == n && forall i :: 0 <= i < n ==> IsHexDigit(s[i])
  {
    if n == 0 then [] else HexDigits(v / 16, n - 1) + [HexUpper[v % 16]]
  }

  /** "%08X". */
  function Hex8(v: u32): (s: string)
    ensures |s| == 8
  {
    HexDigits(v, 8)
  }

  function Pow16(n: nat): (p: nat)
    ensures p >= 1
  {
    if n == 0 then 1 else 16 * Pow16(n - 1)
  }

  /** The manifest's hash strings ("0x" and eight hex digits) convert back to
    * the value they print. */
  lemma HexRoundTrip(v: u32)
    ensures HexToU32(Some("0x" + Hex8(v))) == v
  {
    var h := Hex8(v);
    Pow16Eight();
    HexDigitsValue(v, 8);
    assert HexNumber(h) == v;
    PrefixedDigits(h);
  }

  lemma Pow16Eight()
    ensures Pow16(8) == 0x1_0000_0000
  {
    assert Pow16(2) == 0x100;
    assert Pow16(4) == 0x1_0000 by { assert Pow16(4) == 16 * 16 * Pow16(2); }
    assert Pow16(6) == 0x100_0000 by { assert Pow16(6) == 16 * 16 * Pow16(4); }
    assert Pow16(8) == 16 * 16 * Pow16(6);
  }

  /** "0x" and eight hex digits read as their number, which always fits in
    * 32 bits. */
  lemma PrefixedDigits(h: string)
    requires |h| == 8 && forall i :: 0 <= i < |h| ==> IsHexDigit(h[i])
    ensures HexToU32(Some("0x" + h)) == HexNumber(h)
  {
    var t := "0x" + h;
    assert t[0] == '0' && t[1] == 'x' && t[2] == h[0] && IsHexDigit(t[2]);
    assert t[2..] == h;
    DigitRunAll(h);
    assert h[..DigitRun(h)] == h;
    HexNumberBound(h);
    Pow16Eight();
  }

  lemma {:induction false} HexNumberBound(s: string)
    requires forall i :: 0 <= i < |s| ==> IsHexDigit(s[i])
    ensures HexNumber(s) < Pow16(|s|)
  {
    if s != [] {
      HexNumberBound(s[..|s| - 1]);
    }
  }

  lemma {:induction false} DigitRunAll(s: string)
    requires forall i :: 0 <= i < |s| ==> IsHexDigit(s[i])
    ensures DigitRun(s) == |s|
  {
    if s != [] {
      DigitRunAll(s[1..]);
    }
  }

  lemma HexUpperDigit(d: nat)
    requires d < 16
    ensures IsHexDigit(HexUpper[d]) && HexValue(HexUpper[d]) == d
  {
  }

  /** n hex digits of a number below 16^n read back as that number. */
  lemma {:induction false} HexDigitsValue(v: nat, n: nat)
    requires v < Pow16(n)
    ensures HexNumber(HexDigits(v, n)) == v
  {
    if n > 0 {
      var s := HexDigits(v, n);
      assert s[..|s| - 1] == HexDigits(v / 16, n - 1);
      HexDigitsValue(v / 16, n - 1);
      HexUpperDigit(v % 16);
    }
  }
}
