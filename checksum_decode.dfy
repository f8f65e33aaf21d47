/** The checksum-response decoder tool: a round-0xFF response is read
  * with one global cursor under three guesses at the directory-tree
  * grammar, and a guess is accepted only when it consumes the payload
  * exactly. A read past the end raises, which either stops the script
  * (outside the guarded parts) or is reported with the cursor where the
  * failing read began. */
module ChecksumDecode {
  import opened Bytes

  /** Where a parse ended, or the cursor of the read that raised. */
  datatype Outcome = Done(end: nat) | Error(at: nat)

  function Out(ok: bool, pos: nat): Outcome
  {
    if ok then Done(pos) else Error(pos)
  }

  function Min(a: nat, b: nat): nat
  {
    if a < b then a else b
  }

  /** count u32 reads from pos: the end, or the first read that does not fit. */
  function Words(data: seq<byte>, pos: nat, count: nat): (r: Outcome)
    requires pos <= |data|
    ensures r.Done? ==> r.end == pos + 4 * count && r.end <= |data|
    ensures r.Error? ==> pos <= r.at <= |data| < r.at + 4 && (r.at - pos) % 4 == 0 && r.at < pos + 4 * count
    decreases count
  {
    if count == 0 then Done(pos)
    else if pos + 4 > |data| then Error(pos)
    else Words(data, pos + 4, count - 1)
  }

  // ---------------------------------------------------------------
  // Hypothesis D: [fc:u16][files][sc:u8][sc names:u32][sc trees]

  /** One tree under hypothesis D, read from pos. At most 100 file
    * entries are read; data that ends right after them ends the tree. */
  function TreeD(data: seq<byte>, pos: nat): (r: Outcome)
    requires pos <= |data|
    ensures r.Done? ==> pos + 2 <= r.end <= |data|
    ensures r.Error? ==> pos <= r.at <= |data|
    decreases |data| - pos, 0
  {
    if pos + 2 > |data| then Error(pos)
    else
      var files := Words(data, pos + 2, 2 * Min(U16At(data, pos), 100));
      if files.Error? then files
      else if files.end >= |data| then files
      else if data[files.end] == 0 then Done(files.end + 1)
      else
        var names := Words(data, files.end + 1, data[files.end]);
        if names.Error? then names
        else TreesD(data, names.end, data[files.end])
  }

  /** n trees in a row under hypothesis D. */
  function TreesD(data: seq<byte>, pos: nat, n: nat): (r: Outcome)
    requires pos <= |data|
    ensures r.Done? ==> pos <= r.end <= |data|
    ensures r.Error? ==> pos <= r.at <= |data|
    decreases |data| - pos, 1
  {
    if n == 0 then Done(pos)
    else
      var t := TreeD(data, pos);
      if t.Error? then t else TreesD(data, t.end, n - 1)
  }

  // ---------------------------------------------------------------
  // Hypothesis B: [fc:u16][files][sc:u8] then sc times [name:u32][tree]

  /** One tree under hypothesis B: at most 50 file entries and 20
    * subdirectories are read. */
  function TreeB(data: seq<byte>, pos: nat): (r: Outcome)
    requires pos <= |data|
    ensures r.Done? ==> pos + 3 <= r.end <= |data|
    ensures r.Error? ==> pos <= r.at <= |data|
    decreases |data| - pos, 0
  {
    if pos + 2 > |data| then Error(pos)
    else
      var files := Words(data, pos + 2, 2 * Min(U16At(data, pos), 50));
      if files.Error? then files
      else if files.end >= |data| then Error(files.end)
      else SubdirsB(data, files.end + 1, Min(data[files.end], 20), true)
  }

  /** n subdirectories under hypothesis B, each a name and its tree. A
    * guarded run stops quietly when the data is used up. */
  function SubdirsB(data: seq<byte>, pos: nat, n: nat, guarded: bool): (r: Outcome)
    requires pos <= |data|
    ensures r.Done? ==> pos <= r.end <= |data|
    ensures r.Error? ==> pos <= r.at <= |data|
    decreases |data| - pos, 1
  {
    if n == 0 then Done(pos)
    else if guarded && pos >= |data| then Done(pos)
    else if pos + 4 > |data| then Error(pos)
    else
      var t := TreeB(data, pos + 4);
      if t.Error? then t else SubdirsB(data, t.end, n - 1, guarded)
  }

  // ---------------------------------------------------------------
  // The script

  /** What a guess amounts to. */
  datatype Verdict = Perfect | Remaining(left: nat) | Failed(at: nat) | NotTried

  /** A parse is perfect only when it ends exactly at the end of the data. */
  function Judge(o: Outcome, len: nat): (v: Verdict)
    requires o.Done? ==> o.end <= len
    ensures v == Perfect <==> o == Done(len)
    ensures v.Remaining? <==> o.Done? && o.end < len
    ensures v.Remaining? ==> v.left == len - o.end
    ensures v.Failed? <==> o.Error?
  {
    match o
    case Done(e) => if e == len then Perfect else Remaining(len - e)
    case Error(a) => Failed(a)
  }

  /** The header: opcode, round, the reference hash in round 0 only,
    * then the directory hash; its end, or None when the data is short. */
  datatype Header = Header(opcode: byte, round: byte, refHash: Option<u32>, dirHash: u32, end: nat)

  function ReadHeader(data: seq<byte>): (h: Option<Header>)
    ensures h.Some? ==> |data| >= 2 && h.value.end <= |data| && h.value.round == data[1]
    ensures h.Some? ==> h.value.end == (if data[1] == 0 then 10 else 6)
    ensures h.None? <==> |data| < 2 || |data| < (if data[1] == 0 then 10 else 6)
  {
    if |data| < 2 then None
    else if data[1] == 0 then
      if |data| < 10 then None else Some(Header(data[0], 0, Some(U32At(data, 2)), U32At(data, 6), 10))
    else if |data| < 6 then None
    else Some(Header(data[0], data[1], None, U32At(data, 2), 6))
  }

  /** Hypothesis A: [fc:u16][fc entries][sc:u16]; the subdirectory count
    * it reads, or None when a read raises (which stops the script). */
  function HypothesisA(data: seq<byte>, start: nat): (sc: Option<u16>)
    requires start <= |data|
  {
    if start + 2 > |data| then None
    else
      var files := Words(data, start + 2, 2 * U16At(data, start));
      if files.Error? || files.end + 2 > |data| then None
      else Some(U16At(data, files.end))
  }

  /** A's count is plausible only up to 100. */
  predicate CountPlausible(sc: u16)
  {
    sc <= 100
  }

  /** Hypothesis B from the same start: the root's files and u8 count are
    * read unguarded; a count from 1 to 49 leads to that many
    * subdirectories, judged for exact consumption. */
  function HypothesisB(data: seq<byte>, start: nat): (v: Option<Verdict>)
    requires start <= |data|
  {
    if start + 2 > |data| then None
    else
      var files := Words(data, start + 2, 2 * U16At(data, start));
      if files.Error? || files.end >= |data| then None
      else
        var sc := data[files.end];
        if 0 < sc < 50 then
          var r := SubdirsB(data, files.end + 1, sc, false);
          Some(Judge(r, |data|))
        else Some(NotTried)
  }

  /** The report of a run: A's count, B's and D's verdicts. */
  datatype Report = Report(header: Header, countA: u16, verdictB: Verdict, verdictD: Verdict)

  /** The whole script; None when a read outside the guarded parts raises.
    * Hypothesis D always starts at offset 6. */
  function Decode(data: seq<byte>): (r: Option<Report>)
  {
    var h := ReadHeader(data);
    if h.None? then None
    else
      var a := HypothesisA(data, h.value.end);
      var b := HypothesisB(data, h.value.end);
      if a.None? || b.None? then None
      else Some(Report(h.value, a.value, b.value, Judge(TreeD(data, 6), |data|)))
  }

  // ---------------------------------------------------------------
  // The cursor and the parsers that drive it

  class Decoder {
    const data: seq<byte>
    var pos: nat

    ghost predicate Valid()
      reads this
    {
      pos <= |data|
    }

    constructor(data: seq<byte>)
      ensures this.data == data && pos == 0 && Valid()
    {
      this.data := data;
      pos := 0;
    }

    /** read_u8: the byte at the cursor, or a raise with the cursor kept. */
    method ReadU8() returns (ok: bool, v: byte)
      requires Valid()
      modifies this
      ensures Valid()
      ensures ok <==> old(pos) < |data|
      ensures ok ==> v == data[old(pos)] && pos == old(pos) + 1
      ensures !ok ==> pos == old(pos)
    {
      ok := pos < |data|;
      v := 0;
      if ok {
        v := data[pos];
        pos := pos + 1;
      }
    }

    /** read_u16: a little-endian u16 at the cursor, or a raise. */
    method ReadU16() returns (ok: bool, v: u16)
      requires Valid()
      modifies this
      ensures Valid()
      ensures ok <==> old(pos) + 2 <= |data|
      ensures ok ==> v == U16At(data, old(pos)) && pos == old(pos) + 2
      ensures !ok ==> pos == old(pos)
    {
      ok := pos + 2 <= |data|;
      v := 0;
      if ok {
        v := U16At(data, pos);
        pos := pos + 2;
      }
    }

    /** read_u32: a little-endian u32 at the cursor, or a raise. */
    method ReadU32() returns (ok: bool, v: u32)
      requires Valid()
      modifies this
      ensures Valid()
      ensures ok <==> old(pos) + 4 <= |data|
      ensures ok ==> v == U32At(data, old(pos)) && pos == old(pos) + 4
      ensures !ok ==> pos == old(pos)
    {
      ok := pos + 4 <= |data|;
      v := 0;
      if ok {
        v := U32At(data, pos);
        pos := pos + 4;
      }
    }

    /** count file entries, each a name hash and a content hash. */
    method SkipFiles(count: nat) returns (ok: bool)
      requires Valid()
      modifies this
      ensures Valid()
      ensures Out(ok, pos) == Words(data, old(pos), 2 * count)
    {
      var i := 0;
      while i < count
        invariant i <= count && Valid()
        invariant Words(data, old(pos), 2 * count) == Words(data, pos, 2 * (count - i))
      {
        var ok1, nameHash := ReadU32();
        if !ok1 {
          return false;
        }
        var ok2, contentHash := ReadU32();
        if !ok2 {
          return false;
        }
        i := i + 1;
      }
      ok := true;
    }

    /** count subdirectory name hashes read in a row. */
    method SkipNames(count: nat) returns (ok: bool)
      requires Valid()
      modifies this
      ensures Valid()
      ensures Out(ok, pos) == Words(data, old(pos), count)
    {
      var i := 0;
      while i < count
        invariant i <= count && Valid()
        invariant Words(data, old(pos), count) == Words(data, pos, count - i)
      {
        var ok1, name := ReadU32();
        if !ok1 {
          return false;
        }
        i := i + 1;
      }
      ok := true;
    }

    /** parse_tree_d: one tree under hypothesis D. */
    method ParseTreeD() returns (ok: bool)
      requires Valid()
      modifies this
      ensures Valid()
      ensures Out(ok, pos) == TreeD(data, old(pos))
      decreases |data| - pos, 0
    {
      ghost var start := pos;
      var okc, fc := ReadU16();
      if !okc {
        return false;
      }
      ok := SkipFiles(Min(fc, 100));
      ghost var files := Words(data, start + 2, 2 * Min(U16At(data, start), 100));
      assert files == Out(ok, pos);
      if !ok {
        return;
      }
      if pos >= |data| {
        return true;
      }
      var _, sc := ReadU8();
      if sc == 0 {
        return true;
      }
      ok := SkipNames(sc);
      if !ok {
        return;
      }
      assert TreeD(data, start) == TreesD(data, pos, sc);
      ok := ParseTreesD(sc);
    }

    /** The subdirectory trees that follow the names, one after another. */
    method ParseTreesD(n: nat) returns (ok: bool)
      requires Valid()
      modifies this
      ensures Valid()
      ensures Out(ok, pos) == TreesD(data, old(pos), n)
      decreases |data| - pos, 1
    {
      var i := 0;
      while i < n
        invariant i <= n && Valid() && old(pos) <= pos
        invariant TreesD(data, old(pos), n) == TreesD(data, pos, n - i)
        decreases n - i
      {
        ghost var before := pos;
        ok := ParseTreeD();
        if !ok {
          return;
        }
        assert TreesD(data, before, n - i) == TreesD(data, pos, n - i - 1);
        i := i + 1;
      }
      ok := true;
    }

    /** parse_tree under hypothesis B. */
    method ParseTreeB() returns (ok: bool)
      requires Valid()
      modifies this
      ensures Valid()
      ensures Out(ok, pos) == TreeB(data, old(pos))
      decreases |data| - pos, 0
    {
      var okc, fc := ReadU16();
      if !okc {
        return false;
      }
      ok := SkipFiles(Min(fc, 50));
      if !ok {
        return;
      }
      var oks, sc := ReadU8();
      if !oks {
        return false;
      }
      ok := ParseSubdirsB(Min(sc, 20), true);
    }

    /** n subdirectories under hypothesis B, each a name then its tree;
      * a guarded run returns quietly once the data is used up. */
    method ParseSubdirsB(n: nat, guarded: bool) returns (ok: bool)
      requires Valid()
      modifies this
      ensures Valid()
      ensures Out(ok, pos) == SubdirsB(data, old(pos), n, guarded)
      decreases |data| - pos, 1
    {
      var i := 0;
      while i < n
        invariant i <= n && Valid() && old(pos) <= pos
        invariant SubdirsB(data, old(pos), n, guarded) == SubdirsB(data, pos, n - i, guarded)
        decreases n - i
      {
        if guarded && pos >= |data| {
          return true;
        }
        ghost var before := pos;
        var okn, name := ReadU32();
        if !okn {
          return false;
        }
        ok := ParseTreeB();
        if !ok {
          return;
        }
        assert SubdirsB(data, before, n - i, guarded) == SubdirsB(data, pos, n - i - 1, guarded);
        i := i + 1;
      }
      ok := true;
    }

    /** The header: opcode, round, the reference hash in round 0, the
      * directory hash. */
    method ParseHeader() returns (h: Option<Header>)
      requires Valid() && pos == 0
      modifies this
      ensures Valid()
      ensures h == ReadHeader(data) && (h.Some? ==> pos == h.value.end)
    {
      var ok, opcode := ReadU8();
      if !ok {
        return None;
      }
      var round;
      ok, round := ReadU8();
      if !ok {
        return None;
      }
      var refHash: Option<u32> := None;
      if round == 0 {
        var ref;
        ok, ref := ReadU32();
        if !ok {
          return None;
        }
        refHash := Some(ref);
      }
      var dirHash;
      ok, dirHash := ReadU32();
      if !ok {
        return None;
      }
      h := Some(Header(opcode, round, refHash, dirHash, pos));
    }

    /** Hypothesis A from start. */
    method TryA(start: nat) returns (sc: Option<u16>)
      requires Valid() && start <= |data|
      modifies this
      ensures Valid()
      ensures sc == HypothesisA(data, start)
    {
      pos := start;
      var ok, fc := ReadU16();
      if !ok {
        return None;
      }
      ok := SkipFiles(fc);
      if !ok {
        return None;
      }
      var count;
      ok, count := ReadU16();
      if !ok {
        return None;
      }
      sc := Some(count);
    }

    /** Hypothesis B from start. */
    method TryB(start: nat) returns (v: Option<Verdict>)
      requires Valid() && start <= |data|
      modifies this
      ensures Valid()
      ensures v == HypothesisB(data, start)
    {
      pos := start;
      var ok, fc := ReadU16();
      if !ok {
        return None;
      }
      ok := SkipFiles(fc);
      if !ok {
        return None;
      }
      var sc;
      ok, sc := ReadU8();
      if !ok {
        return None;
      }
      v := Some(NotTried);
      if 0 < sc < 50 {
        ok := ParseSubdirsB(sc, false);
        v := Some(Judge(Out(ok, pos), |data|));
      }
    }

    /** Hypothesis D, which always restarts at offset 6. */
    method TryD() returns (v: Verdict)
      requires Valid() && 6 <= |data|
      modifies this
      ensures Valid()
      ensures v == Judge(TreeD(data, 6), |data|)
    {
      pos := 6;
      var ok := ParseTreeD();
      v := Judge(Out(ok, pos), |data|);
    }
  }

  /** The script over one payload: the header, then hypotheses A, B and D. */
  method DecodeScript(data: seq<byte>) returns (r: Option<Report>)
    ensures r == Decode(data)
  {
    var d := new Decoder(data);
    var h := d.ParseHeader();
    if h.None? {
      return None;
    }
    var a := d.TryA(h.value.end);
    if a.None? {
      return None;
    }
    var b := d.TryB(h.value.end);
    if b.None? {
      return None;
    }
    var verdictD := d.TryD();
    r := Some(Report(h.value, a.value, b.value, verdictD));
  }

  // ---------------------------------------------------------------
  // Trees as the server writes them, and what each guess makes of them

  datatype FileEntry = FileEntry(nameHash: u32, contentHash: u32)
  datatype Tree = Tree(files: seq<FileEntry>, subdirs: seq<Subdir>)
  datatype Subdir = Subdir(nameHash: u32, tree: Tree)

  function EncodeFiles(fs: seq<FileEntry>): (b: seq<byte>)
    ensures |b| == 8 * |fs|
  {
    if |fs| == 0 then [] else LeU32(fs[0].nameHash) + LeU32(fs[0].contentHash) + EncodeFiles(fs[1..])
  }

  function EncodeNames(ds: seq<Subdir>): (b: seq<byte>)
    ensures |b| == 4 * |ds|
  {
    if |ds| == 0 then [] else LeU32(ds[0].nameHash) + EncodeNames(ds[1..])
  }

  /** The counts each grammar can carry: D reads at most 100 file
    * entries per tree, B at most 50 and at most 20 subdirectories. */
  predicate Fits(t: Tree, maxFiles: nat, maxSubdirs: nat)
    decreases t
  {
    |t.files| <= maxFiles && |t.subdirs| <= maxSubdirs
    && forall i :: 0 <= i < |t.subdirs| ==> Fits(t.subdirs[i].tree, maxFiles, maxSubdirs)
  }

  predicate FitsD(t: Tree)
  {
    Fits(t, 100, 0xFF)
  }

  predicate FitsB(t: Tree)
  {
    Fits(t, 50, 20)
  }

  /** Grammar D: counts, the file entries, every name, then every tree. */
  function EncodeD(t: Tree): seq<byte>
    requires FitsD(t)
    decreases t, |t.subdirs| + 1
  {
    LeU16(|t.files|) + EncodeFiles(t.files) + [|t.subdirs| as byte] + EncodeNames(t.subdirs)
      + EncodeTreesD(t, 0)
  }

  /** The trees of t's subdirectories from the i-th on. */
  function EncodeTreesD(t: Tree, i: nat): seq<byte>
    requires FitsD(t) && i <= |t.subdirs|
    decreases t, |t.subdirs| - i
  {
    if i == |t.subdirs| then [] else EncodeD(t.subdirs[i].tree) + EncodeTreesD(t, i + 1)
  }

  /** Grammar B: counts, the file entries, then each name with its tree. */
  function EncodeB(t: Tree): seq<byte>
    requires FitsB(t)
    decreases t, |t.subdirs| + 1
  {
    LeU16(|t.files|) + EncodeFiles(t.files) + [|t.subdirs| as byte] + EncodeSubdirsB(t, 0)
  }

  /** t's subdirectories from the i-th on, each its name and its tree. */
  function EncodeSubdirsB(t: Tree, i: nat): seq<byte>
    requires FitsB(t) && i <= |t.subdirs|
    decreases t, |t.subdirs| - i
  {
    if i == |t.subdirs| then []
    else LeU32(t.subdirs[i].nameHash) + EncodeB(t.subdirs[i].tree) + EncodeSubdirsB(t, i + 1)
  }

  lemma {:induction false} WordsFit(data: seq<byte>, pos: nat, count: nat)
    requires pos + 4 * count <= |data|
    ensures Words(data, pos, count) == Done(pos + 4 * count)
    decreases count
  {
    if count > 0 {
      WordsFit(data, pos + 4, count - 1);
    }
  }

  /** A count and the entries that follow it read back, and what follows
    * them is next. */
  lemma CountedBack(s: seq<byte>, pos: nat, n: u16, entries: seq<byte>, post: seq<byte>)
    requires pos <= |s| && s[pos..] == LeU16(n) + entries + post
    ensures pos + 2 + |entries| <= |s| && U16At(s, pos) == n && s[pos + 2 + |entries|..] == post
  {
    assert s == s[..pos] + LeU16(n) + (entries + post);
    U16RoundTrip(n, s[..pos], entries + post);
    assert s[pos + 2..] == entries + post;
  }

  lemma SkipBack(s: seq<byte>, pos: nat, a: seq<byte>, post: seq<byte>)
    requires pos <= |s| && s[pos..] == a + post
    ensures pos + |a| <= |s| && s[pos + |a|..] == post
  {
    assert s[pos + |a|..] == s[pos..][|a|..];
  }

  /** A byte and the entries that follow it read back, and what follows
    * them is next. */
  lemma ByteBack(s: seq<byte>, pos: nat, b: byte, entries: seq<byte>, post: seq<byte>)
    requires pos <= |s| && s[pos..] == [b] + entries + post
    ensures pos + 1 + |entries| <= |s| && s[pos] == b && s[pos + 1 + |entries|..] == post
  {
    assert s[pos..][0] == b;
    assert s[pos + 1..] == entries + post;
  }

  /** Where the parts of a tree written under grammar D lie. */
  lemma LayoutD(s: seq<byte>, pos: nat, t: Tree, post: seq<byte>)
    requires FitsD(t) && pos <= |s| && s[pos..] == EncodeD(t) + post
    ensures var p := pos + 2 + 8 * |t.files|; var q := p + 1 + 4 * |t.subdirs|;
      q <= |s| && U16At(s, pos) == |t.files| && s[p] == |t.subdirs|
      && s[q..] == EncodeTreesD(t, 0) + post && |EncodeD(t)| == q - pos + |EncodeTreesD(t, 0)|
  {
    var files := EncodeFiles(t.files);
    var sc := |t.subdirs| as byte;
    var names := EncodeNames(t.subdirs);
    var trees := EncodeTreesD(t, 0);
    assert s[pos..] == LeU16(|t.files|) + files + ([sc] + names + trees + post);
    CountedBack(s, pos, |t.files|, files, [sc] + names + trees + post);
    ByteBack(s, pos + 2 + |files|, sc, names, trees + post);
  }

  /** Where the first tree of a run written under grammar D ends. */
  lemma LayoutTreesD(s: seq<byte>, pos: nat, t: Tree, i: nat, post: seq<byte>)
    requires FitsD(t) && i < |t.subdirs| && pos <= |s| && s[pos..] == EncodeTreesD(t, i) + post
    ensures FitsD(t.subdirs[i].tree)
    ensures var next := pos + |EncodeD(t.subdirs[i].tree)|;
      s[pos..] == EncodeD(t.subdirs[i].tree) + (EncodeTreesD(t, i + 1) + post)
      && next <= |s| && s[next..] == EncodeTreesD(t, i + 1) + post
  {
    var first := EncodeD(t.subdirs[i].tree);
    var rest := EncodeTreesD(t, i + 1);
    assert s[pos..] == first + (rest + post);
    SkipBack(s, pos, first, rest + post);
  }

  lemma TreesDStep(s: seq<byte>, pos: nat, n: nat, next: nat)
    requires 0 < n && pos <= |s| && TreeD(s, pos) == Done(next)
    ensures TreesD(s, pos, n) == TreesD(s, next, n - 1)
  {
  }

  /** The counts of t and of all its subtrees sit from pos on where
    * grammar D puts them, with room for the entries they announce. */
  ghost predicate PlacedD(s: seq<byte>, pos: nat, t: Tree)
    requires FitsD(t)
    decreases t, |t.subdirs| + 1
  {
    var p := pos + 2 + 8 * |t.files|;
    p + 1 + 4 * |t.subdirs| <= |s| && U16At(s, pos) == |t.files| && s[p] == |t.subdirs|
    && PlacedTreesD(s, p + 1 + 4 * |t.subdirs|, t, 0)
  }

  /** The trees of t's subdirectories from the i-th on are placed one
    * after the other from pos on. */
  ghost predicate PlacedTreesD(s: seq<byte>, pos: nat, t: Tree, i: nat)
    requires FitsD(t) && i <= |t.subdirs|
    decreases t, |t.subdirs| - i
  {
    i == |t.subdirs|
    || (PlacedD(s, pos, t.subdirs[i].tree)
        && PlacedTreesD(s, pos + |EncodeD(t.subdirs[i].tree)|, t, i + 1))
  }

  /** A tree written under grammar D has its counts placed. */
  lemma {:induction false} WrittenPlacedD(s: seq<byte>, pos: nat, t: Tree, post: seq<byte>)
    requires FitsD(t) && pos <= |s| && s[pos..] == EncodeD(t) + post
    ensures PlacedD(s, pos, t)
    decreases t, |t.subdirs| + 1
  {
    LayoutD(s, pos, t, post);
    WrittenPlacedTreesD(s, pos + 3 + 8 * |t.files| + 4 * |t.subdirs|, t, 0, post);
  }

  lemma {:induction false} WrittenPlacedTreesD(s: seq<byte>, pos: nat, t: Tree, i: nat, post: seq<byte>)
    requires FitsD(t) && i <= |t.subdirs| && pos <= |s| && s[pos..] == EncodeTreesD(t, i) + post
    ensures PlacedTreesD(s, pos, t, i)
    decreases t, |t.subdirs| - i
  {
    if i < |t.subdirs| {
      LayoutTreesD(s, pos, t, i, post);
      WrittenPlacedD(s, pos, t.subdirs[i].tree, EncodeTreesD(t, i + 1) + post);
      WrittenPlacedTreesD(s, pos + |EncodeD(t.subdirs[i].tree)|, t, i + 1, post);
    }
  }

  /** TreeD once the file entries and the names were read. */
  lemma TreeDSteps(s: seq<byte>, pos: nat, p: nat, q: nat)
    requires pos + 2 <= |s| && p < |s|
    requires Words(s, pos + 2, 2 * Min(U16At(s, pos), 100)) == Done(p)
    requires Words(s, p + 1, s[p]) == Done(q)
    ensures TreeD(s, pos) == if s[p] == 0 then Done(p + 1) else TreesD(s, q, s[p])
  {
  }

  lemma LengthD(t: Tree)
    requires FitsD(t)
    ensures |EncodeD(t)| == 3 + 8 * |t.files| + 4 * |t.subdirs| + |EncodeTreesD(t, 0)|
  {
  }

  /** Reading a tree whose counts are placed under grammar D comes down
    * to reading its subdirectories' trees, which follow its names. */
  lemma PlacedHeadD(s: seq<byte>, pos: nat, t: Tree)
    requires FitsD(t) && pos <= |s| && PlacedD(s, pos, t)
    ensures var q := pos + 3 + 8 * |t.files| + 4 * |t.subdirs|;
      q <= |s| && PlacedTreesD(s, q, t, 0)
      && TreeD(s, pos) == if |t.subdirs| == 0 then Done(q) else TreesD(s, q, |t.subdirs|)
  {
    var p := pos + 2 + 8 * |t.files|;
    WordsFit(s, pos + 2, 2 * |t.files|);
    WordsFit(s, p + 1, |t.subdirs|);
    TreeDSteps(s, pos, p, p + 1 + 4 * |t.subdirs|);
  }

  /** A tree whose counts are placed reads back under grammar D, up to
    * the end of its encoding. */
  lemma {:induction false} PlacedReadD(s: seq<byte>, pos: nat, t: Tree)
    requires FitsD(t) && pos <= |s| && PlacedD(s, pos, t)
    ensures TreeD(s, pos) == Done(pos + |EncodeD(t)|)
    decreases t, |t.subdirs| + 1
  {
    var q := pos + 3 + 8 * |t.files| + 4 * |t.subdirs|;
    PlacedHeadD(s, pos, t);
    LengthD(t);
    if |t.subdirs| == 0 {
      assert EncodeTreesD(t, 0) == [];
    } else {
      PlacedReadTreesD(s, q, t, 0, |t.subdirs|);
    }
  }

  lemma {:induction false} PlacedReadTreesD(s: seq<byte>, pos: nat, t: Tree, i: nat, n: nat)
    requires FitsD(t) && i + n == |t.subdirs| && pos <= |s| && PlacedTreesD(s, pos, t, i)
    ensures TreesD(s, pos, n) == Done(pos + |EncodeTreesD(t, i)|)
    decreases t, |t.subdirs| - i
  {
    if i < |t.subdirs| {
      var sub := t.subdirs[i].tree;
      var next := pos + |EncodeD(sub)|;
      assert TreesD(s, pos, n) == TreesD(s, next, n - 1) by {
        PlacedReadD(s, pos, sub);
        TreesDStep(s, pos, n, next);
      }
      PlacedReadTreesD(s, next, t, i + 1, n - 1);
    } else {
      assert EncodeTreesD(t, i) == [];
    }
  }

  /** Under grammar D a tree reads back exactly, whatever follows it. */
  lemma TreeDBack(s: seq<byte>, pos: nat, t: Tree, post: seq<byte>)
    requires FitsD(t) && pos <= |s| && s[pos..] == EncodeD(t) + post
    ensures TreeD(s, pos) == Done(pos + |EncodeD(t)|)
  {
    WrittenPlacedD(s, pos, t, post);
    PlacedReadD(s, pos, t);
  }

  /** Where the parts of a tree written under grammar B lie. */
  lemma LayoutB(s: seq<byte>, pos: nat, t: Tree, post: seq<byte>)
    requires FitsB(t) && pos <= |s| && s[pos..] == EncodeB(t) + post
    ensures var p := pos + 2 + 8 * |t.files|;
      p < |s| && U16At(s, pos) == |t.files| && s[p] == |t.subdirs| <= 20
      && s[p + 1..] == EncodeSubdirsB(t, 0) + post && |EncodeB(t)| == p + 1 - pos + |EncodeSubdirsB(t, 0)|
  {
    var files := EncodeFiles(t.files);
    var sc := |t.subdirs| as byte;
    var subs := EncodeSubdirsB(t, 0);
    assert s[pos..] == LeU16(|t.files|) + files + ([sc] + subs + post);
    CountedBack(s, pos, |t.files|, files, [sc] + subs + post);
    ByteBack(s, pos + 2 + |files|, sc, [], subs + post);
  }

  /** Where the first subdirectory of a run written under grammar B lies. */
  lemma LayoutSubdirsB(s: seq<byte>, pos: nat, t: Tree, i: nat, post: seq<byte>)
    requires FitsB(t) && i < |t.subdirs| && pos <= |s| && s[pos..] == EncodeSubdirsB(t, i) + post
    ensures FitsB(t.subdirs[i].tree)
    ensures var next := pos + 4 + |EncodeB(t.subdirs[i].tree)|;
      pos + 4 <= |s| && s[pos + 4..] == EncodeB(t.subdirs[i].tree) + (EncodeSubdirsB(t, i + 1) + post)
      && next <= |s| && s[next..] == EncodeSubdirsB(t, i + 1) + post
  {
    var tree := EncodeB(t.subdirs[i].tree);
    var rest := EncodeSubdirsB(t, i + 1);
    assert s[pos..] == LeU32(t.subdirs[i].nameHash) + (tree + (rest + post));
    SkipBack(s, pos, LeU32(t.subdirs[i].nameHash), tree + (rest + post));
    SkipBack(s, pos + 4, tree, rest + post);
  }

  /** The counts of t and of all its subtrees sit from pos on where
    * grammar B puts them, with room for the entries and names. */
  ghost predicate PlacedB(s: seq<byte>, pos: nat, t: Tree)
    requires FitsB(t)
    decreases t, |t.subdirs| + 1
  {
    var p := pos + 2 + 8 * |t.files|;
    p < |s| && U16At(s, pos) == |t.files| && s[p] == |t.subdirs| && PlacedSubdirsB(s, p + 1, t, 0)
  }

  /** t's subdirectories from the i-th on, each a name and its tree, are
    * placed one after the other from pos on. */
  ghost predicate PlacedSubdirsB(s: seq<byte>, pos: nat, t: Tree, i: nat)
    requires FitsB(t) && i <= |t.subdirs|
    decreases t, |t.subdirs| - i
  {
    i == |t.subdirs|
    || (pos + 4 <= |s| && PlacedB(s, pos + 4, t.subdirs[i].tree)
        && PlacedSubdirsB(s, pos + 4 + |EncodeB(t.subdirs[i].tree)|, t, i + 1))
  }

  /** A tree written under grammar B has its counts placed. */
  lemma {:induction false} WrittenPlacedB(s: seq<byte>, pos: nat, t: Tree, post: seq<byte>)
    requires FitsB(t) && pos <= |s| && s[pos..] == EncodeB(t) + post
    ensures PlacedB(s, pos, t)
    decreases t, |t.subdirs| + 1
  {
    LayoutB(s, pos, t, post);
    WrittenPlacedSubdirsB(s, pos + 3 + 8 * |t.files|, t, 0, post);
  }

  lemma {:induction false} WrittenPlacedSubdirsB(s: seq<byte>, pos: nat, t: Tree, i: nat, post: seq<byte>)
    requires FitsB(t) && i <= |t.subdirs| && pos <= |s| && s[pos..] == EncodeSubdirsB(t, i) + post
    ensures PlacedSubdirsB(s, pos, t, i)
    decreases t, |t.subdirs| - i
  {
    if i < |t.subdirs| {
      var sub := t.subdirs[i].tree;
      LayoutSubdirsB(s, pos, t, i, post);
      assert PlacedB(s, pos + 4, sub) by {
        WrittenPlacedB(s, pos + 4, sub, EncodeSubdirsB(t, i + 1) + post);
      }
      assert PlacedSubdirsB(s, pos + 4 + |EncodeB(sub)|, t, i + 1) by {
        WrittenPlacedSubdirsB(s, pos + 4 + |EncodeB(sub)|, t, i + 1, post);
      }
      PlacedSubdirsBStep(s, pos, t, i);
    }
  }

  lemma PlacedSubdirsBStep(s: seq<byte>, pos: nat, t: Tree, i: nat)
    requires FitsB(t) && i < |t.subdirs| && pos + 4 <= |s| && FitsB(t.subdirs[i].tree)
    requires PlacedB(s, pos + 4, t.subdirs[i].tree)
    requires PlacedSubdirsB(s, pos + 4 + |EncodeB(t.subdirs[i].tree)|, t, i + 1)
    ensures PlacedSubdirsB(s, pos, t, i)
  {
  }

  /** TreeB once the file entries were read. */
  lemma TreeBSteps(s: seq<byte>, pos: nat, p: nat)
    requires pos + 2 <= |s| && p < |s|
    requires Words(s, pos + 2, 2 * Min(U16At(s, pos), 50)) == Done(p)
    ensures TreeB(s, pos) == SubdirsB(s, p + 1, Min(s[p], 20), true)
  {
  }

  lemma SubdirsBStep(s: seq<byte>, pos: nat, n: nat, guarded: bool, next: nat)
    requires 0 < n && pos + 4 <= |s| && TreeB(s, pos + 4) == Done(next)
    ensures SubdirsB(s, pos, n, guarded) == SubdirsB(s, next, n - 1, guarded)
  {
  }

  lemma LengthB(t: Tree)
    requires FitsB(t)
    ensures |EncodeB(t)| == 3 + 8 * |t.files| + |EncodeSubdirsB(t, 0)|
  {
  }

  /** A tree whose counts are placed reads back under grammar B, up to
    * the end of its encoding. */
  lemma {:induction false} PlacedReadB(s: seq<byte>, pos: nat, t: Tree)
    requires FitsB(t) && pos <= |s| && PlacedB(s, pos, t)
    ensures TreeB(s, pos) == Done(pos + |EncodeB(t)|)
    decreases t, |t.subdirs| + 1
  {
    var p := pos + 2 + 8 * |t.files|;
    assert TreeB(s, pos) == SubdirsB(s, p + 1, |t.subdirs|, true) by {
      WordsFit(s, pos + 2, 2 * |t.files|);
      TreeBSteps(s, pos, p);
    }
    assert SubdirsB(s, p + 1, |t.subdirs|, true) == Done(p + 1 + |EncodeSubdirsB(t, 0)|) by {
      PlacedReadSubdirsB(s, p + 1, t, 0, |t.subdirs|, true);
    }
    LengthB(t);
  }

  lemma {:induction false} PlacedReadSubdirsB(s: seq<byte>, pos: nat, t: Tree, i: nat, n: nat, guarded: bool)
    requires FitsB(t) && i + n == |t.subdirs| && pos <= |s| && PlacedSubdirsB(s, pos, t, i)
    ensures SubdirsB(s, pos, n, guarded) == Done(pos + |EncodeSubdirsB(t, i)|)
    decreases t, |t.subdirs| - i
  {
    if i < |t.subdirs| {
      var sub := t.subdirs[i].tree;
      var next := pos + 4 + |EncodeB(sub)|;
      assert SubdirsB(s, pos, n, guarded) == SubdirsB(s, next, n - 1, guarded) by {
        PlacedReadB(s, pos + 4, sub);
        SubdirsBStep(s, pos, n, guarded, next);
      }
      PlacedReadSubdirsB(s, next, t, i + 1, n - 1, guarded);
    } else {
      assert EncodeSubdirsB(t, i) == [];
    }
  }

  /** Under grammar B a tree reads back exactly, whatever follows it. */
  lemma TreeBBack(s: seq<byte>, pos: nat, t: Tree, post: seq<byte>)
    requires FitsB(t) && pos <= |s| && s[pos..] == EncodeB(t) + post
    ensures TreeB(s, pos) == Done(pos + |EncodeB(t)|)
  {
    WrittenPlacedB(s, pos, t, post);
    PlacedReadB(s, pos, t);
  }

  // ---------------------------------------------------------------
  // What the script makes of written payloads

  /** A payload of a round other than 0, a 6-byte header then a tree
    * written under grammar D, is consumed exactly by hypothesis D. */
  lemma DFromOffsetSix(opcode: byte, round: byte, dirHash: u32, t: Tree)
    requires round != 0 && FitsD(t)
    ensures var data := [opcode, round] + LeU32(dirHash) + EncodeD(t);
      Judge(TreeD(data, 6), |data|) == Perfect
      && (Decode(data).Some? ==> Decode(data).value.verdictD == Perfect)
  {
    var data := [opcode, round] + LeU32(dirHash) + EncodeD(t);
    assert data[6..] == EncodeD(t) + [];
    TreeDBack(data, 6, t, []);
  }

  /** Hypothesis D starts at offset 6 whatever the round: in a round-0
    * payload that is inside the two hashes, so even a written empty tree
    * after a header of zero hashes is not consumed exactly. */
  lemma DIgnoresRoundZeroHeader(opcode: byte)
    ensures var data := [opcode, 0] + LeU32(0) + LeU32(0) + EncodeD(Tree([], []));
      ReadHeader(data).Some? && ReadHeader(data).value.end == 10
      && TreeD(data, 6) == Done(9) && Judge(TreeD(data, 6), |data|) == Remaining(4)
  {
    var data := [opcode, 0] + LeU32(0) + LeU32(0) + EncodeD(Tree([], []));
    assert data == [opcode, 0, 0, 0, 0, 0, 0, 0, 0, 0, 0, 0, 0];
    assert Words(data, 8, 0) == Done(8);
  }

  /** Data that ends right after a tree's file entries ends that tree
    * without a subdirectory count. */
  lemma DAcceptsMissingCount(s: seq<byte>, pos: nat, fs: seq<FileEntry>)
    requires |fs| <= 100 && pos <= |s| && s[pos..] == LeU16(|fs|) + EncodeFiles(fs)
    ensures TreeD(s, pos) == Done(|s|)
  {
    assert s[pos..] == LeU16(|fs|) + EncodeFiles(fs) + [];
    CountedBack(s, pos, |fs|, EncodeFiles(fs), []);
    WordsFit(s, pos + 2, 2 * |fs|);
  }

  /** Only 100 file entries are read under D: with 101 zero entries and
    * no subdirectories the tree ends inside the last entry. */
  lemma FileCapD()
    ensures var data := LeU16(101) + seq(808, _ => 0) + [0];
      TreeD(data, 0) == Done(803) && Judge(TreeD(data, 0), |data|) == Remaining(8)
  {
    var data := LeU16(101) + seq(808, _ => 0) + [0];
    assert U16At(data, 0) == 101;
    WordsFit(data, 2, 200);
    assert data[802] == 0;
  }

  /** A root written under grammar B after the header, with 1 to 20
    * subdirectories, is consumed exactly by hypothesis B. */
  lemma HypothesisBBack(s: seq<byte>, start: nat, t: Tree)
    requires FitsB(t) && 0 < |t.subdirs| && start <= |s| && s[start..] == EncodeB(t)
    ensures HypothesisB(s, start) == Some(Perfect)
  {
    var p := start + 2 + 8 * |t.files|;
    assert p < |s| && U16At(s, start) == |t.files| && s[p] == |t.subdirs|
      && s[p + 1..] == EncodeSubdirsB(t, 0) + [] && |s| == p + 1 + |EncodeSubdirsB(t, 0)| by {
      assert s[start..] == EncodeB(t) + [];
      LayoutB(s, start, t, []);
    }
    assert Words(s, start + 2, 2 * U16At(s, start)) == Done(p) by {
      WordsFit(s, start + 2, 2 * |t.files|);
    }
    assert SubdirsB(s, p + 1, s[p], false) == Done(|s|) by {
      WrittenPlacedSubdirsB(s, p + 1, t, 0, []);
      PlacedReadSubdirsB(s, p + 1, t, 0, |t.subdirs|, false);
    }
  }
}
