/** Validation of a parsed checksum response against the manifest directory
  * (bc_checksum_response_validate and bc_checksum_result_name in
  * handshake.c). The checks run in a fixed order and the first failing one
  * decides the result: the directory hash, the content of every response
  * file the manifest knows, the presence of every manifest file, the same
  * two checks per stored response subdirectory in response order, and last
  * the presence of every manifest subdirectory. */
module ChecksumValidate {
  import opened Bytes
  import opened Manifest
  import opened ChecksumResponse

  datatype ChecksumResult = Ok | EmptyDir | DirMismatch | FileMissing | FileMismatch | ParseError

  /** bc_checksum_result_name. */
  function ResultName(r: ChecksumResult): string
  {
    match r
    case Ok => "OK"
    case EmptyDir => "empty directory"
    case DirMismatch => "directory hash mismatch"
    case FileMissing => "required file missing"
    case FileMismatch => "file content hash mismatch"
    case ParseError => "parse error"
  }

  /** Distinct results have distinct names. */
  lemma ResultNamesDistinct(a: ChecksumResult, b: ChecksumResult)
    requires a != b
    ensures ResultName(a) != ResultName(b)
  {
  }

  /** Response file k is known to the manifest under a different content hash
    * (the manifest entry is the first one with the name). */
  predicate MismatchAt(got: seq<FileEntry>, want: seq<FileEntry>, k: nat)
    requires k < |got|
  {
    match FindFile(want, got[k].nameHash)
    case None => false
    case Some(m) => want[m].contentHash != got[k].contentHash
  }

  /** The verdict of the two file checks of one level: a content mismatch
    * anywhere wins over a missing file. */
  function FilesVerdict(got: seq<FileEntry>, want: seq<FileEntry>): ChecksumResult
  {
    if exists k :: 0 <= k < |got| && MismatchAt(got, want, k) then FileMismatch
    else if exists k :: 0 <= k < |want| && !HasFile(got, want[k].nameHash) then FileMissing
    else Ok
  }

  /** The files of one response subdirectory against the manifest
    * subdirectory of the same name; a subdirectory the manifest does not
    * list is accepted. */
  function SubdirVerdict(s: SubdirResp, want: seq<Subdir>): ChecksumResult
  {
    match FindSubdir(want, s.nameHash)
    case None => Ok
    case Some(m) => FilesVerdict(s.files, want[m].files)
  }

  /** The first failing subdirectory's verdict, in response order. */
  function SubdirsVerdict(got: seq<SubdirResp>, want: seq<Subdir>): (r: ChecksumResult)
    ensures r in {Ok, FileMismatch, FileMissing}
  {
    if got == [] then Ok
    else if SubdirVerdict(got[0], want) != Ok then SubdirVerdict(got[0], want)
    else SubdirsVerdict(got[1..], want)
  }

  /** Whether a response subdirectory record has the name hash. */
  predicate HasSubdir(got: seq<SubdirResp>, nameHash: u32)
  {
    exists j :: 0 <= j < |got| && got[j].nameHash == nameHash
  }

  /** The specification of bc_checksum_response_validate. */
  function Verdict(resp: Response, dir: Dir): (r: ChecksumResult)
    ensures r != EmptyDir && r != ParseError
  {
    if resp.empty then (if |dir.files| > 0 then FileMissing else Ok)
    else if resp.dirHash != dir.dirHash then DirMismatch
    else if FilesVerdict(resp.files, dir.files) != Ok then FilesVerdict(resp.files, dir.files)
    else if SubdirsVerdict(resp.subdirs, dir.subdirs) != Ok then SubdirsVerdict(resp.subdirs, dir.subdirs)
    else if exists k :: 0 <= k < |dir.subdirs| && !HasSubdir(resp.subdirs, dir.subdirs[k].nameHash) then FileMissing
    else Ok
  }

  /** Every response subdirectory passes exactly when none of them fails. */
  lemma {:induction false} SubdirsOk(got: seq<SubdirResp>, want: seq<Subdir>)
    ensures SubdirsVerdict(got, want) == Ok <==> forall s :: 0 <= s < |got| ==> SubdirVerdict(got[s], want) == Ok
  {
    var i := |got|;
    while i > 0
      invariant 0 <= i <= |got|
      invariant SubdirsVerdict(got[i..], want) == Ok <==> forall s :: i <= s < |got| ==> SubdirVerdict(got[s], want) == Ok
    {
      i := i - 1;
      assert got[i..][1..] == got[i + 1..];
    }
  }

  /** What an accepted response satisfies, stated check by check: the
    * directory hash agrees, no file the manifest knows differs in content,
    * every manifest file and subdirectory is present, and the same holds
    * inside every stored subdirectory the manifest lists; an empty-directory
    * response is acceptable exactly when the manifest lists no files. */
  predicate Acceptable(resp: Response, dir: Dir)
  {
    if resp.empty then |dir.files| == 0
    else
      resp.dirHash == dir.dirHash
      && (forall k :: 0 <= k < |resp.files| ==> !MismatchAt(resp.files, dir.files, k))
      && (forall k :: 0 <= k < |dir.files| ==> HasFile(resp.files, dir.files[k].nameHash))
      && (forall s :: 0 <= s < |resp.subdirs| ==> SubdirVerdict(resp.subdirs[s], dir.subdirs) == Ok)
      && (forall k :: 0 <= k < |dir.subdirs| ==> HasSubdir(resp.subdirs, dir.subdirs[k].nameHash))
  }

  /** The validator accepts exactly the acceptable responses. */
  lemma AcceptedIff(resp: Response, dir: Dir)
    ensures Verdict(resp, dir) == Ok <==> Acceptable(resp, dir)
  {
    SubdirsOk(resp.subdirs, dir.subdirs);
  }

  /** A response file whose name the manifest does not list changes nothing:
    * mod files may be present. */
  lemma ExtraFileIgnored(resp: Response, dir: Dir, f: FileEntry)
    requires !HasFile(dir.files, f.nameHash)
    ensures Verdict(resp.(files := resp.files + [f]), dir) == Verdict(resp, dir)
  {
    var got := resp.files;
    var more := got + [f];
    assert FindFile(dir.files, f.nameHash).None?;
    assert (exists k :: 0 <= k < |more| && MismatchAt(more, dir.files, k))
      <==> (exists k :: 0 <= k < |got| && MismatchAt(got, dir.files, k)) by {
      forall k | 0 <= k < |got|
        ensures MismatchAt(more, dir.files, k) == MismatchAt(got, dir.files, k)
      {
        assert more[k] == got[k];
      }
      assert !MismatchAt(more, dir.files, |got|);
    }
    forall k | 0 <= k < |dir.files|
      ensures HasFile(more, dir.files[k].nameHash) == HasFile(got, dir.files[k].nameHash)
    {
      if HasFile(more, dir.files[k].nameHash) {
        var j :| 0 <= j < |more| && more[j].nameHash == dir.files[k].nameHash;
        assert j < |got|;
        assert got[j] == more[j];
      }
      if HasFile(got, dir.files[k].nameHash) {
        var j :| 0 <= j < |got| && got[j].nameHash == dir.files[k].nameHash;
        assert more[j] == got[j];
      }
    }
  }

  /** The inline presence loop: whether a file entry has the name hash. */
  method ContainsFile(got: seq<FileEntry>, nameHash: u32) returns (found: bool)
    ensures found == HasFile(got, nameHash)
  {
    found := false;
    var j := 0;
    while j < |got| && !found
      invariant j <= |got|
      invariant found == HasFile(got[..j], nameHash)
    {
      found := got[j].nameHash == nameHash;
      assert got[..j + 1] == got[..j] + [got[j]];
      j := j + 1;
    }
    if !found {
      assert got[..j] == got;
    }
  }

  /** The inline presence loop over the stored subdirectory records. */
  method ContainsSubdir(got: seq<SubdirResp>, nameHash: u32) returns (found: bool)
    ensures found == HasSubdir(got, nameHash)
  {
    found := false;
    var j := 0;
    while j < |got| && !found
      invariant j <= |got|
      invariant found == HasSubdir(got[..j], nameHash)
    {
      found := got[j].nameHash == nameHash;
      assert got[..j + 1] == got[..j] + [got[j]];
      j := j + 1;
    }
    if !found {
      assert got[..j] == got;
    }
  }

  /** The two file loops of one level. */
  method CheckFiles(got: seq<FileEntry>, want: seq<FileEntry>) returns (r: ChecksumResult)
    ensures r == FilesVerdict(got, want)
  {
    var i := 0;
    while i < |got|
      invariant i <= |got|
      invariant forall k :: 0 <= k < i ==> !MismatchAt(got, want, k)
    {
      var m := FindFile(want, got[i].nameHash);
      if m.Some? && got[i].contentHash != want[m.value].contentHash {
        assert MismatchAt(got, want, i);
        return FileMismatch;
      }
      i := i + 1;
    }
    i := 0;
    while i < |want|
      invariant i <= |want|
      invariant forall k :: 0 <= k < i ==> HasFile(got, want[k].nameHash)
    {
      var found := ContainsFile(got, want[i].nameHash);
      if !found { return FileMissing; }
      i := i + 1;
    }
    return Ok;
  }

  /** bc_checksum_response_validate. */
  method Validate(resp: Response, dir: Dir) returns (r: ChecksumResult)
    ensures r == Verdict(resp, dir)
  {
    if resp.empty {
      if |dir.files| > 0 { return FileMissing; }
      return Ok;
    }
    if resp.dirHash != dir.dirHash { return DirMismatch; }
    r := CheckFiles(resp.files, dir.files);
    if r != Ok { return; }
    var s := 0;
    while s < |resp.subdirs|
      invariant s <= |resp.subdirs|
      invariant SubdirsVerdict(resp.subdirs, dir.subdirs) == SubdirsVerdict(resp.subdirs[s..], dir.subdirs)
    {
      assert resp.subdirs[s..][1..] == resp.subdirs[s + 1..];
      var m := FindSubdir(dir.subdirs, resp.subdirs[s].nameHash);
      if m.Some? {
        r := CheckFiles(resp.subdirs[s].files, dir.subdirs[m.value].files);
        if r != Ok { return; }
      }
      s := s + 1;
    }
    var k := 0;
    while k < |dir.subdirs|
      invariant k <= |dir.subdirs|
      invariant forall j :: 0 <= j < k ==> HasSubdir(resp.subdirs, dir.subdirs[j].nameHash)
    {
      var found := ContainsSubdir(resp.subdirs, dir.subdirs[k].nameHash);
      if !found { return FileMissing; }
      k := k + 1;
    }
    return Ok;
  }
}
