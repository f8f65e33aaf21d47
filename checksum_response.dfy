/** The server's reading of a checksum response (handshake.c): the header,
  * the self-describing recursive file tree, what of it is stored in the
  * fixed-size response record, and the validation of that record against
  * the manifest directory of the round. */
module ChecksumResponse {
  import opened Bytes
  import opened BufferModel
  import opened Manifest
  import ByteBuffer

  /** BC_CHECKSUM_MAX_RESP_FILES, _MAX_RESP_SUBDIRS and _MAX_SUB_FILES: the
    * capacities of the response record's arrays. */
  datatype Limits = Limits(maxFiles: nat, maxSubdirs: nat, maxSubFiles: nat)

  /** How parse_file_tree is called: at the top (files stored, subdirectory
    * data stored in the record), for a stored first-level subdirectory
    * (files stored, nothing below kept), or to skip a tree. */
  datatype Mode = Top | Stored | Skipped

  /** A file tree as it is on the wire: files, then all subdirectory name
    * hashes, then one tree per subdirectory. */
  datatype Tree = Tree(files: seq<FileEntry>, names: seq<u32>, children: seq<Tree>)

  datatype SubdirResp = SubdirResp(nameHash: u32, files: seq<FileEntry>)

  /** bc_checksum_resp_t: empty is never set by the parser (it stays false
    * after the memset). */
  datatype Response = Response(roundIndex: u8, refHash: u32, dirHash: u32,
                               files: seq<FileEntry>, subdirs: seq<SubdirResp>, empty: bool)

  /** The mode a child tree is parsed in. */
  function ChildMode(m: Mode, i: nat, lim: Limits): Mode
  {
    if m.Top? && i < lim.maxSubdirs then Stored else Skipped
  }

  /** The file-count limit checked at a level, if any. */
  function FileLimit(m: Mode, lim: Limits): Option<nat>
  {
    match m
    case Top => Some(lim.maxFiles)
    case Stored => Some(lim.maxSubFiles)
    case Skipped => None
  }

  /** c2 is c moved forward by reads only (so c2 is valid when c is). */
  predicate Ahead(c: Cursor, c2: Cursor)
  {
    c2.data == c.data && c2.capacity == c.capacity && c.pos <= c2.pos <= c2.capacity
    && c2.count == c.count && c2.bookmark == c.bookmark
  }

  function ReadEntry(c: Cursor): (r: Option<(FileEntry, Cursor)>)
    requires Valid(c)
    ensures r.Some? ==> Ahead(c, r.value.1) && r.value.1.pos == c.pos + 8
  {
    match ReadU32(c)
    case None => None
    case Some((nh, c1)) =>
      match ReadU32(c1)
      case None => None
      case Some((ch, c2)) => Some((FileEntry(nh, ch), c2))
  }

  /** n file entries read one after the other. */
  function ReadEntries(c: Cursor, n: nat): (r: Option<(seq<FileEntry>, Cursor)>)
    requires Valid(c)
    ensures r.Some? ==> Ahead(c, r.value.1) && |r.value.0| == n
  {
    if n == 0 then Some(([], c))
    else
      match ReadEntries(c, n - 1)
      case None => None
      case Some((fs, c1)) =>
        match ReadEntry(c1)
        case None => None
        case Some((f, c2)) => Some((fs + [f], c2))
  }

  /** n u32 name hashes. */
  function ReadNames(c: Cursor, n: nat): (r: Option<(seq<u32>, Cursor)>)
    requires Valid(c)
    ensures r.Some? ==> Ahead(c, r.value.1) && |r.value.0| == n
  {
    if n == 0 then Some(([], c))
    else
      match ReadNames(c, n - 1)
      case None => None
      case Some((ns, c1)) =>
        match ReadU32(c1)
        case None => None
        case Some((v, c2)) => Some((ns + [v], c2))
  }

  /** The start of every level of parse_file_tree: the u16 file count (over
    * the level's limit fails), the entries and the u8 subdirectory count. */
  function ReadHead(c: Cursor, m: Mode, lim: Limits): (r: Option<(seq<FileEntry>, u8, Cursor)>)
    requires Valid(c)
    ensures r.Some? ==> Ahead(c, r.value.2) && r.value.2.pos > c.pos
    ensures r.Some? && FileLimit(m, lim).Some? ==> |r.value.0| <= FileLimit(m, lim).value
  {
    match ReadU16(c)
    case None => None
    case Some((fc, c1)) =>
      if FileLimit(m, lim).Some? && fc > FileLimit(m, lim).value then None
      else
        match ReadEntries(c1, fc)
        case None => None
        case Some((files, c2)) =>
          match ReadU8(c2)
          case None => None
          case Some((sc, c3)) => Some((files, sc, c3))
  }

  /** parse_file_tree: the head of the level; a subdirectory count of 0 ends
    * the tree, otherwise all the name hashes follow, then each child tree in
    * its mode. */
  function ReadTree(c: Cursor, m: Mode, lim: Limits): (r: Option<(Tree, Cursor)>)
    requires Valid(c)
    ensures r.Some? ==> Ahead(c, r.value.1) && r.value.1.pos > c.pos
    ensures r.Some? ==> |r.value.0.names| == |r.value.0.children|
    ensures r.Some? && FileLimit(m, lim).Some? ==> |r.value.0.files| <= FileLimit(m, lim).value
    decreases c.capacity - c.pos, 0, 0
  {
    match ReadHead(c, m, lim)
    case None => None
    case Some((files, sc, c3)) =>
      if sc == 0 then Some((Tree(files, [], []), c3))
      else
        match ReadNames(c3, sc)
        case None => None
        case Some((names, c4)) =>
          match ReadTrees(c4, sc, m, lim)
          case None => None
          case Some((kids, c5)) => Some((Tree(files, names, kids), c5))
  }

  /** The first n child trees of a level parsed in mode m. */
  function ReadTrees(c: Cursor, n: nat, m: Mode, lim: Limits): (r: Option<(seq<Tree>, Cursor)>)
    requires Valid(c)
    ensures r.Some? ==> Ahead(c, r.value.1) && |r.value.0| == n
    decreases c.capacity - c.pos, 1, n
  {
    if n == 0 then Some(([], c))
    else
      match ReadTrees(c, n - 1, m, lim)
      case None => None
      case Some((ts, c1)) =>
        match ReadTree(c1, ChildMode(m, n - 1, lim), lim)
        case None => None
        case Some((t, c2)) => Some((ts + [t], c2))
  }

  function Min(a: nat, b: nat): nat
  {
    if a < b then a else b
  }

  /** Subdirectory records pairing each name with the files of its tree, as
    * far as both go and at most cap of them. */
  function Records(names: seq<u32>, kids: seq<Tree>, cap: nat): (r: seq<SubdirResp>)
  {
    seq(Min(Min(|names|, |kids|), cap), j requires 0 <= j < Min(Min(|names|, |kids|), cap) =>
      SubdirResp(names[j], kids[j].files))
  }

  /** What the top level keeps of its subdirectories: the first
    * min(count, maxSubdirs) names with the files of their trees. */
  function StoredSubdirs(t: Tree, lim: Limits): (r: seq<SubdirResp>)
  {
    Records(t.names, t.children, lim.maxSubdirs)
  }

  lemma RecordsSnoc(names: seq<u32>, kids: seq<Tree>, kid: Tree, cap: nat)
    ensures Records(names, kids + [kid], cap) ==
      if |kids| < |names| && |kids| < cap then Records(names, kids, cap) + [SubdirResp(names[|kids|], kid.files)]
      else Records(names, kids, cap)
  {
  }

  /** The hashes after the round index: the reference hash (round 0 only;
    * 0 otherwise), then the directory hash. */
  function ReadHashes(c: Cursor, index: u8): (r: Option<(u32, u32, Cursor)>)
    requires Valid(c)
    ensures r.Some? ==> Ahead(c, r.value.2)
  {
    var ref := if index == 0 then ReadU32(c) else Some((0, c));
    match ref
    case None => None
    case Some((rh, c1)) =>
      match ReadU32(c1)
      case None => None
      case Some((dh, c2)) => Some((rh, dh, c2))
  }

  /** The header fields before the tree: opcode 0x21, the round index and
    * the two hashes. */
  function ReadHeader(c: Cursor): (r: Option<(u8, u32, u32, Cursor)>)
    requires Valid(c)
    ensures r.Some? ==> Ahead(c, r.value.3)
  {
    match ReadU8(c)
    case None => None
    case Some((op, c1)) =>
      if op != 0x21 then None
      else
        match ReadU8(c1)
        case None => None
        case Some((index, c2)) =>
          match ReadHashes(c2, index)
          case None => None
          case Some((rh, dh, c3)) => Some((index, rh, dh, c3))
  }

  /** bc_checksum_response_parse: None for the false return. Bytes after
    * the tree are not looked at. */
  function ParseResponse(payload: seq<byte>, lim: Limits): Option<Response>
  {
    if |payload| < 2 then None
    else
      match ReadHeader(Init(payload, |payload|))
      case None => None
      case Some((index, rh, dh, c)) =>
        match ReadTree(c, Top, lim)
        case None => None
        case Some((t, _)) => Some(Response(index, rh, dh, t.files, StoredSubdirs(t, lim), false))
  }

  /** Every child a level parses in Stored mode keeps within maxSubFiles. */
  predicate StoredFit(ts: seq<Tree>, m: Mode, lim: Limits)
  {
    forall k :: 0 <= k < |ts| && ChildMode(m, k, lim).Stored? ==> |ts[k].files| <= lim.maxSubFiles
  }

  lemma TreesFit(c: Cursor, n: nat, m: Mode, lim: Limits)
    requires Valid(c)
    ensures ReadTrees(c, n, m, lim).Some? ==> StoredFit(ReadTrees(c, n, m, lim).value.0, m, lim)
  {
    var i := 0;
    while i < n
      invariant i <= n
      invariant ReadTrees(c, i, m, lim).Some? ==> StoredFit(ReadTrees(c, i, m, lim).value.0, m, lim)
    {
      if ReadTrees(c, i + 1, m, lim).Some? {
        var ts := ReadTrees(c, i, m, lim).value.0;
        var c1 := ReadTrees(c, i, m, lim).value.1;
        var t := ReadTree(c1, ChildMode(m, i, lim), lim).value.0;
        assert ReadTrees(c, i + 1, m, lim).value.0 == ts + [t];
      }
      i := i + 1;
    }
  }

  /** Every stored array stays within its capacity: a parsed response never
    * holds more files, subdirectories or subdirectory files than the
    * record can. */
  lemma ParsedFits(payload: seq<byte>, lim: Limits)
    requires ParseResponse(payload, lim).Some?
    ensures var r := ParseResponse(payload, lim).value;
      |r.files| <= lim.maxFiles && |r.subdirs| <= lim.maxSubdirs
      && forall i :: 0 <= i < |r.subdirs| ==> |r.subdirs[i].files| <= lim.maxSubFiles
  {
    var c := ReadHeader(Init(payload, |payload|)).value.3;
    var t := ReadTree(c, Top, lim).value.0;
    var r := ParseResponse(payload, lim).value;
    assert r.subdirs == Records(t.names, t.children, lim.maxSubdirs);
    var (_, sc, c3) := ReadHead(c, Top, lim).value;
    if sc != 0 {
      var c4 := ReadNames(c3, sc as nat).value.1;
      assert t.children == ReadTrees(c4, sc as nat, Top, lim).value.0;
      TreesFit(c4, sc as nat, Top, lim);
      forall i | 0 <= i < |r.subdirs|
        ensures |r.subdirs[i].files| <= lim.maxSubFiles
      {
        assert r.subdirs[i].files == t.children[i].files;
        assert ChildMode(Top, i, lim).Stored?;
      }
    }
  }

  lemma EntriesStayFailed(c: Cursor, k: nat, n: nat)
    requires Valid(c) && k <= n && ReadEntries(c, k).None?
    ensures ReadEntries(c, n).None?
  {
    var i := k;
    while i < n
      invariant k <= i <= n && ReadEntries(c, i).None?
    {
      i := i + 1;
    }
  }

  lemma NamesStayFailed(c: Cursor, k: nat, n: nat)
    requires Valid(c) && k <= n && ReadNames(c, k).None?
    ensures ReadNames(c, n).None?
  {
    var i := k;
    while i < n
      invariant k <= i <= n && ReadNames(c, i).None?
    {
      i := i + 1;
    }
  }

  lemma TreesStayFailed(c: Cursor, k: nat, n: nat, m: Mode, lim: Limits)
    requires Valid(c) && k <= n && ReadTrees(c, k, m, lim).None?
    ensures ReadTrees(c, n, m, lim).None?
  {
    var i := k;
    while i < n
      invariant k <= i <= n && ReadTrees(c, i, m, lim).None?
    {
      i := i + 1;
    }
  }

  // ---------------------------------------------------------------------
  // parse_file_tree over the buffer object

  /** The entry loop of parse_file_tree: fc pairs of u32. */
  method ParseEntries(b: ByteBuffer.Buffer, fc: nat) returns (ok: bool, files: seq<FileEntry>)
    requires b.Valid()
    modifies b
    ensures b.Valid()
    ensures ok <==> ReadEntries(old(b.State()), fc).Some?
    ensures ok ==> (files, b.State()) == ReadEntries(old(b.State()), fc).value
  {
    ghost var c0 := b.State();
    files := [];
    var i := 0;
    while i < fc
      invariant b.Valid() && i <= fc
      invariant ReadEntries(c0, i) == Some((files, b.State()))
    {
      ghost var ci := b.State();
      var ok1, nh := b.ReadU32();
      if !ok1 {
        assert ReadEntries(c0, i + 1).None? by { EntryFails(c0, i, files, ci); }
        EntriesStayFailed(c0, i + 1, fc);
        return false, files;
      }
      ghost var cm := b.State();
      var ok2, ch := b.ReadU32();
      if !ok2 {
        assert ReadEntries(c0, i + 1).None? by { EntryFails(c0, i, files, ci); }
        EntriesStayFailed(c0, i + 1, fc);
        return false, files;
      }
      assert ReadEntries(c0, i + 1) == Some((files + [FileEntry(nh, ch)], b.State())) by {
        EntryStep(c0, i, files, ci, nh, cm, ch, b.State());
      }
      files := files + [FileEntry(nh, ch)];
      i := i + 1;
    }
    return true, files;
  }

  lemma EntryStep(c0: Cursor, i: nat, all: seq<FileEntry>, ci: Cursor, nh: u32, cm: Cursor, ch: u32, c2: Cursor)
    requires Valid(c0) && ReadEntries(c0, i) == Some((all, ci))
    requires Valid(ci) && ReadU32(ci) == Some((nh, cm))
    requires Valid(cm) && ReadU32(cm) == Some((ch, c2))
    ensures ReadEntries(c0, i + 1) == Some((all + [FileEntry(nh, ch)], c2))
  {
    assert ReadEntry(ci) == Some((FileEntry(nh, ch), c2));
  }

  lemma EntryFails(c0: Cursor, i: nat, all: seq<FileEntry>, ci: Cursor)
    requires Valid(c0) && ReadEntries(c0, i) == Some((all, ci))
    requires Valid(ci) && (ReadU32(ci).None? || ReadU32(ReadU32(ci).value.1).None?)
    ensures ReadEntries(c0, i + 1).None?
  {
    assert ReadEntry(ci).None?;
  }

  /** The name loop: sc u32 hashes. */
  method ParseNames(b: ByteBuffer.Buffer, sc: nat) returns (ok: bool, names: seq<u32>)
    requires b.Valid()
    modifies b
    ensures b.Valid()
    ensures ok <==> ReadNames(old(b.State()), sc).Some?
    ensures ok ==> (names, b.State()) == ReadNames(old(b.State()), sc).value
  {
    ghost var c0 := b.State();
    names := [];
    var i := 0;
    while i < sc
      invariant b.Valid() && i <= sc
      invariant ReadNames(c0, i) == Some((names, b.State()))
    {
      var ok1, nh := ParseName(b, c0, i, names);
      if !ok1 {
        NamesStayFailed(c0, i + 1, sc);
        return false, names;
      }
      names := names + [nh];
      i := i + 1;
    }
    return true, names;
  }

  /** One pass of the name loop. */
  method ParseName(b: ByteBuffer.Buffer, ghost c0: Cursor, ghost i: nat, ghost all: seq<u32>) returns (ok: bool, nh: u32)
    requires b.Valid() && Valid(c0) && ReadNames(c0, i) == Some((all, b.State()))
    modifies b
    ensures b.Valid()
    ensures ok <==> ReadNames(c0, i + 1).Some?
    ensures ok ==> ReadNames(c0, i + 1) == Some((all + [nh], b.State()))
  {
    ghost var ci := b.State();
    ok, nh := b.ReadU32();
    NameStep(c0, i, all, ci);
  }

  lemma NameStep(c0: Cursor, i: nat, all: seq<u32>, ci: Cursor)
    requires Valid(c0) && ReadNames(c0, i) == Some((all, ci))
    ensures ReadU32(ci).None? ==> ReadNames(c0, i + 1).None?
    ensures ReadU32(ci).Some? ==> ReadNames(c0, i + 1) == Some((all + [ReadU32(ci).value.0], ReadU32(ci).value.1))
  {
  }

  /** The head of a level over the buffer object. */
  method ParseHead(b: ByteBuffer.Buffer, m: Mode, lim: Limits) returns (ok: bool, files: seq<FileEntry>, sc: u8)
    requires b.Valid()
    modifies b
    ensures b.Valid()
    ensures ok <==> ReadHead(old(b.State()), m, lim).Some?
    ensures ok ==> (files, sc, b.State()) == ReadHead(old(b.State()), m, lim).value
  {
    ghost var c := b.State();
    files, sc := [], 0;
    var fc;
    ok, fc := b.ReadU16();
    if ok && ((m.Top? && fc as nat > lim.maxFiles) || (m.Stored? && fc as nat > lim.maxSubFiles)) {
      ok := false;
    } else if ok {
      ghost var c1 := b.State();
      ok, files := ParseEntries(b, fc as nat);
      if ok {
        ghost var c2 := b.State();
        ok, sc := b.ReadU8();
        HeadSteps(c, m, lim, fc, c1, files, c2);
      }
    }
  }

  lemma HeadSteps(c: Cursor, m: Mode, lim: Limits, fc: u16, c1: Cursor, files: seq<FileEntry>, c2: Cursor)
    requires Valid(c) && ReadU16(c) == Some((fc, c1))
    requires FileLimit(m, lim).None? || fc as nat <= FileLimit(m, lim).value
    requires ReadEntries(c1, fc as nat) == Some((files, c2))
    ensures Valid(c2)
    ensures ReadHead(c, m, lim).Some? <==> ReadU8(c2).Some?
    ensures ReadU8(c2).Some? ==> ReadHead(c, m, lim).value == (files, ReadU8(c2).value.0, ReadU8(c2).value.1)
  {
  }

  /** parse_file_tree: the files of this level (the caller drops them for a
    * skipped tree) and, at the top, the stored subdirectory records. */
  method ParseTree(b: ByteBuffer.Buffer, m: Mode, lim: Limits) returns (ok: bool, files: seq<FileEntry>, subdirs: seq<SubdirResp>)
    requires b.Valid()
    modifies b
    decreases b.capacity - b.pos, 0
    ensures b.Valid()
    ensures ok <==> ReadTree(old(b.State()), m, lim).Some?
    ensures ok ==> b.State() == ReadTree(old(b.State()), m, lim).value.1
    ensures ok ==> files == ReadTree(old(b.State()), m, lim).value.0.files
    ensures ok ==> subdirs == if m.Top? then StoredSubdirs(ReadTree(old(b.State()), m, lim).value.0, lim) else []
  {
    ghost var c := b.State();
    var sc;
    subdirs := [];
    ok, files, sc := ParseHead(b, m, lim);
    if ok && sc == 0 {
      TreeLeaf(c, m, lim, files, b.State());
    } else if ok {
      ghost var c3 := b.State();
      var names;
      ok, names := ParseNames(b, sc as nat);
      if ok {
        TreeBranch(c, m, lim, files, sc, c3, names, b.State());
        ok, subdirs := ParseChildren(b, sc as nat, m, lim, names);
      } else {
        TreeNoNames(c, m, lim, files, sc, c3);
      }
    }
  }

  lemma TreeLeaf(c: Cursor, m: Mode, lim: Limits, files: seq<FileEntry>, c3: Cursor)
    requires Valid(c) && ReadHead(c, m, lim) == Some((files, 0, c3))
    ensures ReadTree(c, m, lim) == Some((Tree(files, [], []), c3))
    ensures StoredSubdirs(Tree(files, [], []), lim) == []
  {
  }

  lemma TreeNoNames(c: Cursor, m: Mode, lim: Limits, files: seq<FileEntry>, sc: u8, c3: Cursor)
    requires Valid(c) && ReadHead(c, m, lim) == Some((files, sc, c3)) && sc != 0
    requires ReadNames(c3, sc as nat).None?
    ensures ReadTree(c, m, lim).None?
  {
  }

  lemma TreeBranch(c: Cursor, m: Mode, lim: Limits, files: seq<FileEntry>, sc: u8, c3: Cursor, names: seq<u32>, c4: Cursor)
    requires Valid(c) && ReadHead(c, m, lim) == Some((files, sc, c3)) && sc != 0
    requires ReadNames(c3, sc as nat) == Some((names, c4))
    ensures Valid(c4)
    ensures ReadTree(c, m, lim).Some? <==> ReadTrees(c4, sc as nat, m, lim).Some?
    ensures ReadTrees(c4, sc as nat, m, lim).Some? ==>
      ReadTree(c, m, lim).value.1 == ReadTrees(c4, sc as nat, m, lim).value.1
      && ReadTree(c, m, lim).value.0.files == files
      && StoredSubdirs(ReadTree(c, m, lim).value.0, lim) == Records(names, ReadTrees(c4, sc as nat, m, lim).value.0, lim.maxSubdirs)
  {
  }

  /** The subtree loop of parse_file_tree: sc trees in their modes; at the
    * top, the first |names| of them become stored subdirectory records. */
  method ParseChildren(b: ByteBuffer.Buffer, sc: nat, m: Mode, lim: Limits, names: seq<u32>)
    returns (ok: bool, subdirs: seq<SubdirResp>)
    requires b.Valid()
    requires |names| == sc
    modifies b
    decreases b.capacity - b.pos, 2
    ensures b.Valid()
    ensures ok <==> ReadTrees(old(b.State()), sc, m, lim).Some?
    ensures ok ==> b.State() == ReadTrees(old(b.State()), sc, m, lim).value.1
    ensures ok ==> subdirs == if m.Top? then Records(names, ReadTrees(old(b.State()), sc, m, lim).value.0, lim.maxSubdirs) else []
  {
    ghost var c0 := b.State();
    ghost var kids: seq<Tree> := [];
    subdirs := [];
    ok := true;
    ProgressStart(c0, m, lim, names);
    var i := 0;
    while i < sc && ok
      invariant b.Valid() && i <= sc
      invariant ok ==> Progress(c0, i, m, lim, names, kids, subdirs, b.State()) && b.pos >= c0.pos
      invariant !ok ==> ReadTrees(c0, i, m, lim).None?
    {
      ghost var kid;
      ok, subdirs, kid := ParseChild(b, i, m, lim, names, subdirs, c0, kids);
      kids := kids + [kid];
      i := i + 1;
    }
    if ok {
      ProgressDone(c0, sc, m, lim, names, kids, subdirs, b.State());
    } else {
      TreesStayFailed(c0, i, sc, m, lim);
    }
  }

  /** After i children of the subtree loop: they are the first i trees from
    * c0, the buffer is at c, and the records so far are stored. */
  ghost predicate Progress(c0: Cursor, i: nat, m: Mode, lim: Limits, names: seq<u32>, kids: seq<Tree>,
                           subdirs: seq<SubdirResp>, c: Cursor)
  {
    Valid(c0) && ReadTrees(c0, i, m, lim) == Some((kids, c)) && |kids| == i
    && subdirs == if m.Top? then Records(names, kids, lim.maxSubdirs) else []
  }

  lemma ProgressStart(c0: Cursor, m: Mode, lim: Limits, names: seq<u32>)
    requires Valid(c0)
    ensures Progress(c0, 0, m, lim, names, [], [], c0)
  {
  }

  lemma ProgressDone(c0: Cursor, n: nat, m: Mode, lim: Limits, names: seq<u32>, kids: seq<Tree>,
                     subdirs: seq<SubdirResp>, c: Cursor)
    requires Progress(c0, n, m, lim, names, kids, subdirs, c)
    ensures ReadTrees(c0, n, m, lim).Some? && c == ReadTrees(c0, n, m, lim).value.1
    ensures subdirs == if m.Top? then Records(names, ReadTrees(c0, n, m, lim).value.0, lim.maxSubdirs) else []
  {
  }

  /** One pass of the subtree loop: child i parsed in its mode, and at the
    * top its record stored when i < maxSubdirs. */
  method ParseChild(b: ByteBuffer.Buffer, i: nat, m: Mode, lim: Limits, names: seq<u32>, subdirs: seq<SubdirResp>,
                    ghost c0: Cursor, ghost kids: seq<Tree>)
    returns (ok: bool, subdirs': seq<SubdirResp>, ghost kid: Tree)
    requires b.Valid() && i < |names| && Progress(c0, i, m, lim, names, kids, subdirs, b.State())
    modifies b
    decreases b.capacity - b.pos, 1
    ensures b.Valid()
    ensures ok ==> Progress(c0, i + 1, m, lim, names, kids + [kid], subdirs', b.State()) && b.pos >= c0.pos
    ensures !ok ==> ReadTrees(c0, i + 1, m, lim).None?
  {
    ghost var ci := b.State();
    var okt, files, _ := ParseTree(b, ChildMode(m, i, lim), lim);
    TreeStep(c0, i, m, lim, kids, ci);
    subdirs' := subdirs;
    kid := Tree([], [], []);
    ok := okt;
    if ok {
      kid := ReadTree(ci, ChildMode(m, i, lim), lim).value.0;
      RecordsSnoc(names, kids, kid, lim.maxSubdirs);
      if m.Top? && i < lim.maxSubdirs {
        subdirs' := subdirs + [SubdirResp(names[i], files)];
      }
    }
  }

  lemma TreeStep(c0: Cursor, i: nat, m: Mode, lim: Limits, kids: seq<Tree>, ci: Cursor)
    requires Valid(c0) && ReadTrees(c0, i, m, lim) == Some((kids, ci))
    ensures ReadTree(ci, ChildMode(m, i, lim), lim).None? ==> ReadTrees(c0, i + 1, m, lim).None?
    ensures ReadTree(ci, ChildMode(m, i, lim), lim).Some? ==>
      ReadTrees(c0, i + 1, m, lim) == Some((kids + [ReadTree(ci, ChildMode(m, i, lim), lim).value.0], ReadTree(ci, ChildMode(m, i, lim), lim).value.1))
  {
  }

  /** The hash reads of bc_checksum_response_parse. */
  method ParseHashes(b: ByteBuffer.Buffer, index: u8) returns (ok: bool, rh: u32, dh: u32)
    requires b.Valid()
    modifies b
    ensures b.Valid()
    ensures ok <==> ReadHashes(old(b.State()), index).Some?
    ensures ok ==> (rh, dh, b.State()) == ReadHashes(old(b.State()), index).value
  {
    rh, dh := 0, 0;
    ok := true;
    if index == 0 {
      ok, rh := b.ReadU32();
    }
    if ok {
      ok, dh := b.ReadU32();
    }
  }

  /** The header reads of bc_checksum_response_parse. */
  method ParseHeader(b: ByteBuffer.Buffer) returns (ok: bool, index: u8, rh: u32, dh: u32)
    requires b.Valid()
    modifies b
    ensures b.Valid()
    ensures ok <==> ReadHeader(old(b.State())).Some?
    ensures ok ==> (index, rh, dh, b.State()) == ReadHeader(old(b.State())).value
  {
    index, rh, dh := 0, 0, 0;
    var opcode;
    ok, opcode := b.ReadU8();
    ok := ok && opcode == 0x21;
    if ok {
      ok, index := b.ReadU8();
      if ok {
        ok, rh, dh := ParseHashes(b, index);
      }
    }
  }

  /** bc_checksum_response_parse over a buffer on the payload's memory; the
    * whole array is the payload_len bytes of the message. */
  method ResponseParse(payload: array<byte>, lim: Limits) returns (r: Option<Response>)
    ensures r == ParseResponse(payload[..], lim)
  {
    r := None;
    if payload.Length >= 2 {
      var b := new ByteBuffer.Buffer(payload, payload.Length);
      assert b.State() == Init(payload[..], |payload[..]|);
      var ok, index, rh, dh := ParseHeader(b);
      if ok {
        var files, subdirs;
        ok, files, subdirs := ParseTree(b, Top, lim);
        if ok {
          r := Some(Response(index, rh, dh, files, subdirs, false));
        }
      }
    }
  }
}
