/** The client's checksum responses (client_transport.c): the flat, the
  * recursive and the final response builders, the bytes each lays out, and
  * what the server's response parser reads back from them. */
module ClientChecksum {
  import opened Bytes
  import opened BufferModel
  import opened BufferLayout
  import opened Manifest
  import opened ChecksumResponse

  const OpChecksumResp: byte := 0x21
  const FinalIndex: u8 := 0xFF

  // ---------------------------------------------------------------------
  // The writes of each builder.

  /** The (u16) cast of a file count: the count modulo 2^16. */
  function Count16(n: nat): (r: u16)
    ensures n < 0x1_0000 ==> r == n
  {
    n % 0x1_0000
  }

  /** The (u8) cast of a subdirectory count: the count modulo 2^8. */
  function Count8(n: nat): (r: u8)
    ensures n < 0x100 ==> r == n
  {
    n % 0x100
  }

  /** The file loop: name hash then content hash, file after file. */
  function EntryOps(fs: seq<FileEntry>): (ops: seq<Op>)
    ensures NoFlags(ops)
  {
    if fs == [] then []
    else
      var f := fs[|fs| - 1];
      var front := EntryOps(fs[..|fs| - 1]);
      EncodingsAppend(front, [U32(f.nameHash), U32(f.contentHash)]);
      front + [U32(f.nameHash), U32(f.contentHash)]
  }

  /** Opcode, round, the reference hash for round 0 only, the directory
    * hash. */
  function HeaderOps(round: u8, refHash: u32, dirHash: u32): (ops: seq<Op>)
    ensures NoFlags(ops)
  {
    var mid := if round == 0 then [U32(refHash)] else [];
    Encodings2(U8(OpChecksumResp), U8(round));
    Encodings1(U32(refHash));
    Encodings1(U32(dirHash));
    EncodingsAppend([U8(OpChecksumResp), U8(round)], mid);
    EncodingsAppend([U8(OpChecksumResp), U8(round)] + mid, [U32(dirHash)]);
    [U8(OpChecksumResp), U8(round)] + mid + [U32(dirHash)]
  }

  /** A level's file list: the count as a u16 (C cast), then the entries. */
  function FilesOps(fs: seq<FileEntry>): (ops: seq<Op>)
    ensures NoFlags(ops)
  {
    EncodingsAppend([U16(Count16(|fs|))], EntryOps(fs));
    [U16(Count16(|fs|))] + EntryOps(fs)
  }

  /** The header and the top-level file list, which every response starts
    * with. */
  function TopOps(round: u8, refHash: u32, dirHash: u32, fs: seq<FileEntry>): (ops: seq<Op>)
    ensures NoFlags(ops)
  {
    EncodingsAppend(HeaderOps(round, refHash, dirHash), FilesOps(fs));
    HeaderOps(round, refHash, dirHash) + FilesOps(fs)
  }

  /** bc_client_build_checksum_resp: header, files, subdirectory count 0. */
  function FlatOps(round: u8, refHash: u32, dirHash: u32, fs: seq<FileEntry>): (ops: seq<Op>)
    ensures NoFlags(ops)
  {
    EncodingsAppend(TopOps(round, refHash, dirHash, fs), [U8(0)]);
    TopOps(round, refHash, dirHash, fs) + [U8(0)]
  }

  /** The name loop of the recursive builder. */
  function NameOps(ss: seq<SubdirResp>): (ops: seq<Op>)
    ensures NoFlags(ops)
  {
    if ss == [] then []
    else
      var front := NameOps(ss[..|ss| - 1]);
      EncodingsAppend(front, [U32(ss[|ss| - 1].nameHash)]);
      front + [U32(ss[|ss| - 1].nameHash)]
  }

  /** The subtree loop: per subdirectory its files and a 0 subdirectory
    * count. */
  function TreeOps(ss: seq<SubdirResp>): (ops: seq<Op>)
    ensures NoFlags(ops)
  {
    if ss == [] then []
    else
      var front := TreeOps(ss[..|ss| - 1]);
      var last := FilesOps(ss[|ss| - 1].files);
      EncodingsAppend(last, [U8(0)]);
      EncodingsAppend(front, last + [U8(0)]);
      front + (last + [U8(0)])
  }

  /** The subdirectory count as a u8 (C cast), all names, then all
    * subtrees. */
  function SubdirOps(ss: seq<SubdirResp>): (ops: seq<Op>)
    ensures NoFlags(ops)
  {
    EncodingsAppend([U8(Count8(|ss|))], NameOps(ss));
    EncodingsAppend([U8(Count8(|ss|))] + NameOps(ss), TreeOps(ss));
    [U8(Count8(|ss|))] + NameOps(ss) + TreeOps(ss)
  }

  /** bc_client_build_checksum_resp_recursive: header, top files, then the
    * subdirectories. */
  function RecursiveOps(round: u8, refHash: u32, dirHash: u32, fs: seq<FileEntry>, ss: seq<SubdirResp>): (ops: seq<Op>)
    ensures NoFlags(ops)
  {
    EncodingsAppend(TopOps(round, refHash, dirHash, fs), SubdirOps(ss));
    TopOps(round, refHash, dirHash, fs) + SubdirOps(ss)
  }


  /** bc_client_build_checksum_final. */
  function FinalOps(dirHash: u32): (ops: seq<Op>)
  {
    [U8(OpChecksumResp), U8(FinalIndex), U32(dirHash), U16(0), U8(0)]
  }

  // ---------------------------------------------------------------------
  // The builders.

  method BuildChecksumResp(buf: array<byte>, bufSize: nat, round: u8, refHash: u32, dirHash: u32,
                           fs: seq<FileEntry>) returns (n: int)
    requires bufSize <= buf.Length
    modifies buf
    ensures Built(n, buf[..], old(buf[..]), bufSize, FlatOps(round, refHash, dirHash, fs))
  {
    n := Build(buf, bufSize, FlatOps(round, refHash, dirHash, fs));
  }

  method BuildChecksumRespRecursive(buf: array<byte>, bufSize: nat, round: u8, refHash: u32, dirHash: u32,
                                    fs: seq<FileEntry>, ss: seq<SubdirResp>) returns (n: int)
    requires bufSize <= buf.Length
    modifies buf
    ensures Built(n, buf[..], old(buf[..]), bufSize, RecursiveOps(round, refHash, dirHash, fs, ss))
  {
    n := Build(buf, bufSize, RecursiveOps(round, refHash, dirHash, fs, ss));
  }

  method BuildChecksumFinal(buf: array<byte>, bufSize: nat, dirHash: u32) returns (n: int)
    requires bufSize <= buf.Length
    modifies buf
    ensures Built(n, buf[..], old(buf[..]), bufSize, FinalOps(dirHash))
  {
    n := Build(buf, bufSize, FinalOps(dirHash));
  }

  // ---------------------------------------------------------------------
  // How the builders relate.

  /** The recursive builder with no subdirectories writes exactly what the
    * flat builder writes. */
  lemma {:induction false} RecursiveWithoutSubdirsIsFlat(round: u8, refHash: u32, dirHash: u32, fs: seq<FileEntry>)
    ensures RecursiveOps(round, refHash, dirHash, fs, []) == FlatOps(round, refHash, dirHash, fs)
  {
    assert NameOps([]) == [] && TreeOps([]) == [];
    assert SubdirOps([]) == [U8(0)];
  }

  /** The final response is the flat response of round 0xFF with no files,
    * whatever reference hash is passed (it is written for round 0 only). */
  lemma {:induction false} FinalIsFlat(dirHash: u32, refHash: u32)
    ensures FinalOps(dirHash) == FlatOps(FinalIndex, refHash, dirHash, [])
  {
    assert EntryOps([]) == [];
  }

  // ---------------------------------------------------------------------
  // The bytes.

  /** One file entry: its name hash, then its content hash. */
  function FileBytes(f: FileEntry): (e: seq<byte>)
    ensures |e| == 8
  {
    LeU32(f.nameHash) + LeU32(f.contentHash)
  }

  function EntryBytes(fs: seq<FileEntry>): (e: seq<byte>)
    ensures |e| == 8 * |fs|
  {
    if fs == [] then [] else EntryBytes(fs[..|fs| - 1]) + FileBytes(fs[|fs| - 1])
  }

  function HeaderBytes(round: u8, refHash: u32, dirHash: u32): (e: seq<byte>)
    ensures |e| == 2 + (if round == 0 then 4 else 0) + 4
  {
    [OpChecksumResp, round] + (if round == 0 then LeU32(refHash) else []) + LeU32(dirHash)
  }

  function FilesBytes(fs: seq<FileEntry>): (e: seq<byte>)
    ensures |e| == 2 + 8 * |fs|
  {
    LeU16(Count16(|fs|)) + EntryBytes(fs)
  }

  lemma {:induction false} EntryImage(fs: seq<FileEntry>)
    ensures Encodings(EntryOps(fs)) == EntryBytes(fs)
    decreases |fs|
  {
    if fs != [] {
      var f := fs[|fs| - 1];
      EntryImage(fs[..|fs| - 1]);
      EncodingsAppend(EntryOps(fs[..|fs| - 1]), [U32(f.nameHash), U32(f.contentHash)]);
      Encodings2(U32(f.nameHash), U32(f.contentHash));
    }
  }

  lemma {:induction false} FilesImage(fs: seq<FileEntry>)
    ensures Encodings(FilesOps(fs)) == FilesBytes(fs)
  {
    EncodingsAppend([U16(Count16(|fs|))], EntryOps(fs));
    Encodings1(U16(Count16(|fs|)));
    EntryImage(fs);
  }

  lemma {:induction false} HeaderImage(round: u8, refHash: u32, dirHash: u32)
    ensures Encodings(HeaderOps(round, refHash, dirHash)) == HeaderBytes(round, refHash, dirHash)
  {
    if round == 0 {
      assert HeaderOps(round, refHash, dirHash) == [U8(OpChecksumResp), U8(round)] + [U32(refHash), U32(dirHash)];
      EncodingsAppend([U8(OpChecksumResp), U8(round)], [U32(refHash), U32(dirHash)]);
      Encodings2(U8(OpChecksumResp), U8(round));
      Encodings2(U32(refHash), U32(dirHash));
    } else {
      assert HeaderOps(round, refHash, dirHash) == [U8(OpChecksumResp), U8(round), U32(dirHash)];
      Encodings3(U8(OpChecksumResp), U8(round), U32(dirHash));
    }
  }

  /** The flat response on the wire: header, [u16 count][8 bytes per file],
    * then the subdirectory count 0. */
  function FlatBytes(round: u8, refHash: u32, dirHash: u32, fs: seq<FileEntry>): seq<byte>
  {
    HeaderBytes(round, refHash, dirHash) + FilesBytes(fs) + [0]
  }

  /** The image of the flat builder's writes, and its length
    * 2 + (round 0 ? 4 : 0) + 4 + 2 + 8n + 1. */
  lemma {:induction false} FlatImage(round: u8, refHash: u32, dirHash: u32, fs: seq<FileEntry>)
    ensures Image(FlatOps(round, refHash, dirHash, fs)) == FlatBytes(round, refHash, dirHash, fs)
    ensures |Image(FlatOps(round, refHash, dirHash, fs))| == 2 + (if round == 0 then 4 else 0) + 4 + 2 + 8 * |fs| + 1
  {
    ImageOfBytes(FlatOps(round, refHash, dirHash, fs));
    EncodingsAppend(TopOps(round, refHash, dirHash, fs), [U8(0)]);
    Encodings1(U8(0));
    TopImage(round, refHash, dirHash, fs);
  }

  function NameBytes(ss: seq<SubdirResp>): (e: seq<byte>)
    ensures |e| == 4 * |ss|
  {
    if ss == [] then [] else NameBytes(ss[..|ss| - 1]) + LeU32(ss[|ss| - 1].nameHash)
  }

  /** One subtree: its files and a subdirectory count of 0. */
  function LeafBytes(s: SubdirResp): (e: seq<byte>)
    ensures |e| == 3 + 8 * |s.files|
  {
    FilesBytes(s.files) + [0]
  }

  /** The length of the subtrees: three bytes of counts and eight per file
    * in each. */
  function TreeLen(ss: seq<SubdirResp>): nat
  {
    if ss == [] then 0 else TreeLen(ss[..|ss| - 1]) + 3 + 8 * |ss[|ss| - 1].files|
  }

  function TreeBytes(ss: seq<SubdirResp>): (e: seq<byte>)
    ensures |e| == TreeLen(ss)
  {
    if ss == [] then [] else TreeBytes(ss[..|ss| - 1]) + LeafBytes(ss[|ss| - 1])
  }

  lemma {:induction false} NameImage(ss: seq<SubdirResp>)
    ensures Encodings(NameOps(ss)) == NameBytes(ss)
    decreases |ss|
  {
    if ss != [] {
      NameImage(ss[..|ss| - 1]);
      EncodingsAppend(NameOps(ss[..|ss| - 1]), [U32(ss[|ss| - 1].nameHash)]);
      Encodings1(U32(ss[|ss| - 1].nameHash));
    }
  }

  lemma {:induction false} TreeImage(ss: seq<SubdirResp>)
    ensures Encodings(TreeOps(ss)) == TreeBytes(ss)
    decreases |ss|
  {
    if ss != [] {
      var last := FilesOps(ss[|ss| - 1].files);
      TreeImage(ss[..|ss| - 1]);
      Encodings1(U8(0));
      EncodingsAppend(last, [U8(0)]);
      EncodingsAppend(TreeOps(ss[..|ss| - 1]), last + [U8(0)]);
      FilesImage(ss[|ss| - 1].files);
    }
  }

  /** The recursive response on the wire: header, top files, the u8
    * subdirectory count, every name hash, then every subtree. */
  function RecursiveBytes(round: u8, refHash: u32, dirHash: u32, fs: seq<FileEntry>, ss: seq<SubdirResp>): seq<byte>
  {
    (HeaderBytes(round, refHash, dirHash) + FilesBytes(fs)) + ([Count8(|ss|)] + NameBytes(ss) + TreeBytes(ss))
  }

  lemma {:induction false} RecursiveImage(round: u8, refHash: u32, dirHash: u32, fs: seq<FileEntry>, ss: seq<SubdirResp>)
    ensures Image(RecursiveOps(round, refHash, dirHash, fs, ss)) == RecursiveBytes(round, refHash, dirHash, fs, ss)
  {
    ImageOfBytes(RecursiveOps(round, refHash, dirHash, fs, ss));
    EncodingsAppend(TopOps(round, refHash, dirHash, fs), SubdirOps(ss));
    TopImage(round, refHash, dirHash, fs);
    SubdirImage(ss);
  }

  /** The header and the top-level files. */
  lemma {:induction false} TopImage(round: u8, refHash: u32, dirHash: u32, fs: seq<FileEntry>)
    ensures Encodings(TopOps(round, refHash, dirHash, fs)) == HeaderBytes(round, refHash, dirHash) + FilesBytes(fs)
  {
    EncodingsAppend(HeaderOps(round, refHash, dirHash), FilesOps(fs));
    HeaderImage(round, refHash, dirHash);
    FilesImage(fs);
  }

  /** The subdirectory count, the names and the subtrees. */
  lemma {:induction false} SubdirImage(ss: seq<SubdirResp>)
    ensures Encodings(SubdirOps(ss)) == [Count8(|ss|)] + NameBytes(ss) + TreeBytes(ss)
  {
    var c, n, t := [U8(Count8(|ss|))], NameOps(ss), TreeOps(ss);
    EncodingsAppend(c, n);
    EncodingsAppend(c + n, t);
    Encodings1(U8(Count8(|ss|)));
    NameImage(ss);
    TreeImage(ss);
  }


  // ---------------------------------------------------------------------
  // Reading the bytes back.

  /** c reads e next: no bit group is open and e is at the cursor. Stated
    * byte by byte, so that a proof sees the bytes only as far as it
    * unfolds them; AtSlice gives the whole window at once. */
  predicate At(c: Cursor, e: seq<byte>)
    decreases |e|
  {
    c.count == 0 && c.capacity <= |c.data| && c.pos + |e| <= c.capacity
    && (e == [] || (At(c, e[..|e| - 1]) && c.data[c.pos + |e| - 1] == e[|e| - 1]))
  }

  lemma {:induction false} AtSlice(c: Cursor, e: seq<byte>)
    ensures At(c, e) <==>
      c.count == 0 && c.capacity <= |c.data| && c.pos + |e| <= c.capacity && c.data[c.pos..c.pos + |e|] == e
    decreases |e|
  {
    if e != [] && c.pos + |e| <= c.capacity <= |c.data| {
      AtSlice(c, e[..|e| - 1]);
      assert c.data[c.pos..c.pos + |e|] == c.data[c.pos..c.pos + |e| - 1] + [c.data[c.pos + |e| - 1]];
      assert e == e[..|e| - 1] + [e[|e| - 1]];
    }
  }

  /** The cursor k bytes further on. */
  function Skip(c: Cursor, k: nat): Cursor
  {
    c.(pos := c.pos + k)
  }

  lemma {:induction false} SkipSkip(c: Cursor, a: nat, b: nat)
    ensures Skip(Skip(c, a), b) == Skip(c, a + b)
  {
  }

  /** What follows a prefix of k bytes is read k bytes further on. */
  lemma {:induction false} AtSplit(c: Cursor, a: seq<byte>, b: seq<byte>, k: nat)
    requires At(c, a + b) && |a| == k
    ensures At(c, a) && At(Skip(c, k), b)
    decreases |b|
  {
    if b == [] {
      assert a + b == a;
    } else {
      var b' := b[..|b| - 1];
      assert (a + b)[..|a + b| - 1] == a + b';
      AtSplit(c, a, b', k);
    }
  }

  /** Three pieces one after the other. */
  lemma {:induction false} AtSplit3(c: Cursor, a: seq<byte>, b: seq<byte>, d: seq<byte>)
    requires At(c, a + b + d)
    ensures At(c, a) && At(Skip(c, |a|), b) && At(Skip(Skip(c, |a|), |b|), d)
  {
    AtSplit(c, a + b, d, |a| + |b|);
    AtSplit(c, a, b, |a|);
    SkipSkip(c, |a|, |b|);
  }

  lemma {:induction false} ReadU8At(c: Cursor, v: u8)
    requires At(c, [v])
    ensures Valid(c) && ReadU8(c) == Some((v, Skip(c, 1)))
  {
    assert [v][..0] == [];
  }

  /** Two single bytes. */
  lemma {:induction false} ReadPairAt(c: Cursor, a: u8, b: u8)
    requires At(c, [a, b])
    ensures Valid(c) && ReadU8(c) == Some((a, Skip(c, 1)))
    ensures Valid(Skip(c, 1)) && ReadU8(Skip(c, 1)) == Some((b, Skip(c, 2)))
  {
    assert [a, b] == [a] + [b];
    AtSplit(c, [a], [b], 1);
    ReadU8At(c, a);
    ReadU8At(Skip(c, 1), b);
  }

  lemma {:induction false} ReadU16At(c: Cursor, v: u16)
    requires At(c, LeU16(v))
    ensures Valid(c) && ReadU16(c) == Some((v, Skip(c, 2)))
  {
    AtSlice(c, LeU16(v));
    U16RoundTrip(v, [], []);
    assert [] + LeU16(v) + [] == LeU16(v);
  }

  lemma {:induction false} ReadU32At(c: Cursor, v: u32)
    requires At(c, LeU32(v))
    ensures Valid(c) && ReadU32(c) == Some((v, Skip(c, 4)))
  {
    AtSlice(c, LeU32(v));
    U32RoundTrip(v, [], []);
    assert [] + LeU32(v) + [] == LeU32(v);
  }

  lemma {:induction false} ReadEntriesAt(c: Cursor, fs: seq<FileEntry>)
    requires At(c, EntryBytes(fs))
    ensures Valid(c) && ReadEntries(c, |fs|) == Some((fs, Skip(c, 8 * |fs|)))
    decreases |fs|
  {
    if fs == [] {
      assert Skip(c, 0) == c;
    } else {
      var i := |fs| - 1;
      var front, f := fs[..i], fs[i];
      assert front + [f] == fs;
      AtSplit(c, EntryBytes(front), FileBytes(f), 8 * i);
      ReadEntriesAt(c, front);
      ReadFileAt(Skip(c, 8 * i), f);
      SkipSkip(c, 8 * i, 8);
      EntryAfter(c, i, front, Skip(c, 8 * i), f, Skip(c, 8 * i + 8));
    }
  }

  /** One more entry after the others. */
  lemma {:induction false} EntryAfter(c: Cursor, i: nat, front: seq<FileEntry>, c1: Cursor, f: FileEntry, c2: Cursor)
    requires Valid(c) && ReadEntries(c, i) == Some((front, c1))
    requires Valid(c1) && ReadEntry(c1) == Some((f, c2))
    ensures ReadEntries(c, i + 1) == Some((front + [f], c2))
  {
  }

  /** A file entry reads back as itself. */
  lemma {:induction false} ReadFileAt(c: Cursor, f: FileEntry)
    requires At(c, FileBytes(f))
    ensures Valid(c) && ReadEntry(c) == Some((f, Skip(c, 8)))
  {
    AtSplit(c, LeU32(f.nameHash), LeU32(f.contentHash), 4);
    ReadU32At(c, f.nameHash);
    ReadU32At(Skip(c, 4), f.contentHash);
    SkipSkip(c, 4, 4);
    FileFields(c, f.nameHash, Skip(c, 4), f.contentHash, Skip(c, 8));
  }

  /** An entry is its two hashes in order. */
  lemma {:induction false} FileFields(c: Cursor, nh: u32, cm: Cursor, ch: u32, c2: Cursor)
    requires Valid(c) && ReadU32(c) == Some((nh, cm))
    requires Valid(cm) && ReadU32(cm) == Some((ch, c2))
    ensures ReadEntry(c) == Some((FileEntry(nh, ch), c2))
  {
  }

  /** A file list the server accepts at a level. */
  predicate FitsLevel(fs: seq<FileEntry>, m: Mode, lim: Limits)
  {
    |fs| < 0x1_0000 && (FileLimit(m, lim).Some? ==> |fs| <= FileLimit(m, lim).value)
  }

  lemma {:induction false} FilesBytesShort(fs: seq<FileEntry>)
    requires |fs| < 0x1_0000
    ensures FilesBytes(fs) == LeU16(|fs|) + EntryBytes(fs)
  {
  }

  /** A file list: the count, then the entries. */
  lemma {:induction false} ReadFilesAt(c: Cursor, fs: seq<FileEntry>)
    requires At(c, FilesBytes(fs)) && |fs| < 0x1_0000
    ensures Valid(c) && ReadU16(c) == Some((|fs|, Skip(c, 2)))
    ensures Valid(Skip(c, 2)) && ReadEntries(Skip(c, 2), |fs|) == Some((fs, Skip(c, 2 + 8 * |fs|)))
  {
    FilesBytesShort(fs);
    AtSplit(c, LeU16(|fs|), EntryBytes(fs), 2);
    ReadU16At(c, |fs|);
    ReadEntriesAt(Skip(c, 2), fs);
    SkipSkip(c, 2, 8 * |fs|);
  }

  /** The head of a level: its files, then the subdirectory count. */
  lemma {:induction false} ReadHeadAt(c: Cursor, fs: seq<FileEntry>, sc: u8, m: Mode, lim: Limits)
    requires At(c, FilesBytes(fs)) && At(Skip(c, 2 + 8 * |fs|), [sc]) && FitsLevel(fs, m, lim)
    ensures Valid(c) && ReadHead(c, m, lim) == Some((fs, sc, Skip(c, 3 + 8 * |fs|)))
  {
    ReadFilesAt(c, fs);
    ReadU8At(Skip(c, 2 + 8 * |fs|), sc);
    SkipSkip(c, 2 + 8 * |fs|, 1);
    HeadSteps(c, fs, sc, m, lim, Skip(c, 2), Skip(c, 2 + 8 * |fs|), Skip(c, 3 + 8 * |fs|));
  }

  lemma {:induction false} HeadSteps(c: Cursor, fs: seq<FileEntry>, sc: u8, m: Mode, lim: Limits, c1: Cursor, c2: Cursor, c3: Cursor)
    requires Valid(c) && FitsLevel(fs, m, lim)
    requires ReadU16(c) == Some((|fs|, c1)) && ReadEntries(c1, |fs|) == Some((fs, c2)) && ReadU8(c2) == Some((sc, c3))
    ensures ReadHead(c, m, lim) == Some((fs, sc, c3))
  {
  }

  /** A level whose subdirectory count is 0 is a tree with its files and no
    * subdirectories. */
  lemma {:induction false} ReadLeafAt(c: Cursor, fs: seq<FileEntry>, m: Mode, lim: Limits)
    requires At(c, FilesBytes(fs)) && At(Skip(c, 2 + 8 * |fs|), [0]) && FitsLevel(fs, m, lim)
    ensures Valid(c) && ReadTree(c, m, lim) == Some((Tree(fs, [], []), Skip(c, 3 + 8 * |fs|)))
  {
    ReadHeadAt(c, fs, 0, m, lim);
    LeafSteps(c, m, lim, fs, Skip(c, 3 + 8 * |fs|));
  }

  lemma {:induction false} LeafSteps(c: Cursor, m: Mode, lim: Limits, fs: seq<FileEntry>, c3: Cursor)
    requires Valid(c) && ReadHead(c, m, lim) == Some((fs, 0, c3))
    ensures ReadTree(c, m, lim) == Some((Tree(fs, [], []), c3))
  {
  }

  /** The header fields in order. */
  lemma {:induction false} HeaderSteps(c: Cursor, round: u8, rh: u32, dh: u32, c2: Cursor, c3: Cursor)
    requires Valid(c) && ReadU8(c) == Some((OpChecksumResp, Skip(c, 1)))
    requires ReadU8(Skip(c, 1)) == Some((round, c2)) && ReadHashes(c2, round) == Some((rh, dh, c3))
    ensures ReadHeader(c) == Some((round, rh, dh, c3))
  {
  }

  /** The header of round 0: opcode, round, reference hash, directory hash. */
  lemma {:induction false} ReadHeader0At(c: Cursor, refHash: u32, dirHash: u32)
    requires At(c, [OpChecksumResp, 0] + LeU32(refHash) + LeU32(dirHash))
    ensures Valid(c) && ReadHeader(c) == Some((0, refHash, dirHash, Skip(c, 10)))
  {
    AtSplit3(c, [OpChecksumResp, 0], LeU32(refHash), LeU32(dirHash));
    ReadPairAt(c, OpChecksumResp, 0);
    ReadHashes0At(Skip(c, 2), refHash, dirHash);
    SkipSkip(c, 2, 8);
    HeaderSteps(c, 0, refHash, dirHash, Skip(c, 2), Skip(c, 10));
  }

  /** Round 0 carries both hashes. */
  lemma {:induction false} ReadHashes0At(c: Cursor, refHash: u32, dirHash: u32)
    requires At(c, LeU32(refHash)) && At(Skip(c, 4), LeU32(dirHash))
    ensures Valid(c) && ReadHashes(c, 0) == Some((refHash, dirHash, Skip(c, 8)))
  {
    ReadU32At(c, refHash);
    ReadU32At(Skip(c, 4), dirHash);
    SkipSkip(c, 4, 4);
  }

  /** The header of a later round: opcode, round, directory hash. */
  lemma {:induction false} ReadHeaderNAt(c: Cursor, round: u8, dirHash: u32)
    requires round != 0 && At(c, [OpChecksumResp, round] + LeU32(dirHash))
    ensures Valid(c) && ReadHeader(c) == Some((round, 0, dirHash, Skip(c, 6)))
  {
    AtSplit(c, [OpChecksumResp, round], LeU32(dirHash), 2);
    ReadPairAt(c, OpChecksumResp, round);
    ReadHashesNAt(Skip(c, 2), round, dirHash);
    SkipSkip(c, 2, 4);
    HeaderSteps(c, round, 0, dirHash, Skip(c, 2), Skip(c, 6));
  }

  /** Later rounds carry the directory hash alone. */
  lemma {:induction false} ReadHashesNAt(c: Cursor, round: u8, dirHash: u32)
    requires round != 0 && At(c, LeU32(dirHash))
    ensures Valid(c) && ReadHashes(c, round) == Some((0, dirHash, Skip(c, 4)))
  {
    ReadU32At(c, dirHash);
  }

  lemma {:induction false} ReadHeaderAt(c: Cursor, round: u8, refHash: u32, dirHash: u32)
    requires At(c, HeaderBytes(round, refHash, dirHash))
    ensures Valid(c) && ReadHeader(c) ==
      Some((round, if round == 0 then refHash else 0, dirHash, Skip(c, |HeaderBytes(round, refHash, dirHash)|)))
  {
    if round == 0 {
      ReadHeader0At(c, refHash, dirHash);
    } else {
      assert HeaderBytes(round, refHash, dirHash) == [OpChecksumResp, round] + LeU32(dirHash);
      ReadHeaderNAt(c, round, dirHash);
    }
  }

  /** The start of a parse: a buffer over the whole payload. */
  lemma {:induction false} AtStart(payload: seq<byte>)
    ensures At(Init(payload, |payload|), payload)
  {
    AtSlice(Init(payload, |payload|), payload);
  }

  /** The parse of a payload at least two bytes long: the header, then the
    * tree at the top level. */
  lemma {:induction false} ParseSteps(payload: seq<byte>, lim: Limits, round: u8, rh: u32, dh: u32, c: Cursor, t: Tree, c5: Cursor)
    requires |payload| >= 2
    requires ReadHeader(Init(payload, |payload|)) == Some((round, rh, dh, c))
    requires ReadTree(c, Top, lim) == Some((t, c5))
    ensures ParseResponse(payload, lim) == Some(Response(round, rh, dh, t.files, StoredSubdirs(t, lim), false))
  {
  }

  // ---------------------------------------------------------------------
  // What the server reads back.

  /** A payload that starts with a flat response parses as that response. */
  lemma {:induction false} FlatFrom(p: seq<byte>, round: u8, refHash: u32, dirHash: u32, fs: seq<FileEntry>, lim: Limits)
    requires |fs| <= lim.maxFiles && |fs| < 0x1_0000
    requires At(Init(p, |p|), HeaderBytes(round, refHash, dirHash) + FilesBytes(fs) + [0])
    ensures ParseResponse(p, lim) == Some(Response(round, if round == 0 then refHash else 0, dirHash, fs, [], false))
  {
    var c0 := Init(p, |p|);
    var rh: u32 := if round == 0 then refHash else 0;
    AtSplit3(c0, HeaderBytes(round, refHash, dirHash), FilesBytes(fs), [0]);
    ReadHeaderAt(c0, round, refHash, dirHash);
    FlatBody(p, round, rh, dirHash, fs, lim, Skip(c0, |HeaderBytes(round, refHash, dirHash)|));
  }

  /** After the header: the files, then a subdirectory count of 0. */
  lemma {:induction false} FlatBody(p: seq<byte>, round: u8, rh: u32, dh: u32, fs: seq<FileEntry>, lim: Limits, c: Cursor)
    requires |p| >= 2 && ReadHeader(Init(p, |p|)) == Some((round, rh, dh, c))
    requires At(c, FilesBytes(fs)) && At(Skip(c, |FilesBytes(fs)|), [0]) && FitsLevel(fs, Top, lim)
    ensures ParseResponse(p, lim) == Some(Response(round, rh, dh, fs, [], false))
  {
    ReadLeafAt(c, fs, Top, lim);
    FlatSteps(p, lim, round, rh, dh, c, fs, Skip(c, 3 + 8 * |fs|));
  }

  /** The parse of a payload whose top level has files and no
    * subdirectories. */
  lemma {:induction false} FlatSteps(p: seq<byte>, lim: Limits, round: u8, rh: u32, dh: u32, c: Cursor, fs: seq<FileEntry>, c5: Cursor)
    requires |p| >= 2 && ReadHeader(Init(p, |p|)) == Some((round, rh, dh, c))
    requires ReadTree(c, Top, lim) == Some((Tree(fs, [], []), c5))
    ensures ParseResponse(p, lim) == Some(Response(round, rh, dh, fs, [], false))
  {
    ParseSteps(p, lim, round, rh, dh, c, Tree(fs, [], []), c5);
    assert Records([], [], lim.maxSubdirs) == [];
  }

  /** The server's parse of a flat response gives back the round, the
    * reference hash for round 0 (0 otherwise), the directory hash and the
    * files, with no subdirectories, when the files fit the response
    * record. */
  lemma {:induction false} FlatParses(round: u8, refHash: u32, dirHash: u32, fs: seq<FileEntry>, lim: Limits)
    requires |fs| <= lim.maxFiles && |fs| < 0x1_0000
    ensures ParseResponse(FlatBytes(round, refHash, dirHash, fs), lim) ==
      Some(Response(round, if round == 0 then refHash else 0, dirHash, fs, [], false))
  {
    AtStart(FlatBytes(round, refHash, dirHash, fs));
    FlatFrom(FlatBytes(round, refHash, dirHash, fs), round, refHash, dirHash, fs, lim);
  }

  /** The final response reads back as round 0xFF with the directory hash,
    * no reference hash, no files and no subdirectories. */
  lemma {:induction false} FinalParses(dirHash: u32, lim: Limits)
    ensures ParseResponse(Image(FinalOps(dirHash)), lim) == Some(Response(FinalIndex, 0, dirHash, [], [], false))
  {
    FinalIsFlat(dirHash, 0);
    FlatImage(FinalIndex, 0, dirHash, []);
    FlatParses(FinalIndex, 0, dirHash, [], lim);
  }
}
