/** The trace comparison tool: the OBCTRACE record file read into
  * per-opcode lists, and the structural checks of one payload against
  * its opcode's layout and a reference payload. Only which checks are
  * made and whether each passes is modelled; their detail texts and the
  * report printing are not. */
module TraceCompare {
  import opened Bytes

  /** The file magic, the ASCII text OBCTRACE. */
  const Magic: seq<byte> := [0x4F, 0x42, 0x43, 0x54, 0x52, 0x41, 0x43, 0x45]

  /** One record: tick, direction character, slot and game payload. */
  datatype Record = Record(tick: u32, dir: byte, slot: byte, payload: seq<byte>)

  /** The complete records from pos on: each an 8-byte header (tick u32,
    * direction, slot, payload length u16, all little-endian) and its
    * payload. A short header or a short payload ends the file. */
  function RecordsFrom(data: seq<byte>, pos: nat): seq<Record>
    requires pos <= |data|
    decreases |data| - pos
  {
    if pos + 8 > |data| then []
    else
      var len := U16At(data, pos + 6);
      if pos + 8 + len > |data| then []
      else ([Record(U32At(data, pos), data[pos + 4], data[pos + 5], data[pos + 8..pos + 8 + len])]
        + RecordsFrom(data, pos + 8 + len))
  }

  /** The records of a file: none unless it starts with the magic. */
  function Records(data: seq<byte>): seq<Record>
  {
    if |data| >= 8 && data[..8] == Magic then RecordsFrom(data, 8) else []
  }

  /** The per-opcode lists: every record with a payload, under its first
    * byte, in file order. */
  function ByOpcode(rs: seq<Record>): map<byte, seq<Record>>
  {
    if |rs| == 0 then map[]
    else
      File(ByOpcode(rs[..|rs| - 1]), rs[|rs| - 1])
  }

  /** parse_obctrace over the file's bytes: the per-opcode lists and the
    * number of complete records, those with empty payloads included. */
  method ParseTrace(data: seq<byte>) returns (opcodes: map<byte, seq<Record>>, total: nat)
    ensures total == |Records(data)| && opcodes == ByOpcode(Records(data))
  {
    opcodes := map[];
    total := 0;
    if |data| < 8 || data[..8] != Magic {
      return;
    }
    var pos := 8;
    ghost var done: seq<Record> := [];
    ghost var whole := RecordsFrom(data, 8);
    while pos + 8 <= |data|
      invariant 8 <= pos <= |data|
      invariant whole == done + RecordsFrom(data, pos)
      invariant total == |done| && opcodes == ByOpcode(done)
      decreases |data| - pos
    {
      var complete, r, next := ReadRecord(data, pos);
      if !complete {
        assert done + [] == done;
        break;
      }
      total := total + 1;
      opcodes := File(opcodes, r);
      ByOpcodeAppend(done, r);
      Regroup(done, [r], RecordsFrom(data, next));
      done := done + [r];
      pos := next;
    }
    assert done + RecordsFrom(data, pos) == done;
  }

  lemma Regroup(a: seq<Record>, b: seq<Record>, c: seq<Record>)
    ensures a + (b + c) == (a + b) + c
  {
  }

  /** One record read at pos: the header, then the payload, which may
    * be cut off. */
  method ReadRecord(data: seq<byte>, pos: nat) returns (complete: bool, r: Record, next: nat)
    requires pos + 8 <= |data|
    ensures complete <==> pos + 8 + U16At(data, pos + 6) <= |data|
    ensures complete ==> pos < next <= |data| && RecordsFrom(data, pos) == [r] + RecordsFrom(data, next)
    ensures !complete ==> RecordsFrom(data, pos) == []
  {
    var len := U16At(data, pos + 6);
    r := Record(U32At(data, pos), data[pos + 4], data[pos + 5], []);
    next := pos + 8;
    complete := pos + 8 + len <= |data|;
    if complete {
      r := r.(payload := data[pos + 8..pos + 8 + len]);
      next := pos + 8 + len;
    }
  }

  /** One record filed under its opcode, when it has a payload. */
  function File(m: map<byte, seq<Record>>, r: Record): map<byte, seq<Record>>
  {
    if |r.payload| == 0 then m
    else m[r.payload[0] := (if r.payload[0] in m then m[r.payload[0]] else []) + [r]]
  }

  lemma ByOpcodeAppend(rs: seq<Record>, r: Record)
    ensures ByOpcode(rs + [r]) == File(ByOpcode(rs), r)
  {
    assert (rs + [r])[..|rs|] == rs;
  }

  /** The records with a payload that starts with op, in file order. */
  function Filter(rs: seq<Record>, op: byte): seq<Record>
  {
    if |rs| == 0 then []
    else
      var r := rs[|rs| - 1];
      Filter(rs[..|rs| - 1], op) + (if |r.payload| > 0 && r.payload[0] == op then [r] else [])
  }

  /** The number of records with an empty payload. */
  function Empty(rs: seq<Record>): nat
  {
    if |rs| == 0 then 0
    else Empty(rs[..|rs| - 1]) + (if |rs[|rs| - 1].payload| == 0 then 1 else 0)
  }

  /** The per-opcode lists hold exactly the records of each opcode, in
    * file order, and an opcode has a list only when it has a record. */
  lemma {:induction false} ListsAreFilters(rs: seq<Record>)
    ensures forall op: byte :: (op in ByOpcode(rs) <==> |Filter(rs, op)| > 0)
    ensures forall op :: op in ByOpcode(rs) ==> ByOpcode(rs)[op] == Filter(rs, op)
  {
    if |rs| > 0 {
      ListsAreFilters(rs[..|rs| - 1]);
    }
  }

  /** The total of the list lengths over the opcodes from op on. */
  function SumLists(rs: seq<Record>, op: nat): nat
    requires op <= 0x100
    decreases 0x100 - op
  {
    if op == 0x100 then 0 else |Filter(rs, op)| + SumLists(rs, op + 1)
  }

  lemma {:induction false} SumAppend(rs: seq<Record>, r: Record, op: nat)
    requires op <= 0x100
    ensures SumLists(rs + [r], op)
      == SumLists(rs, op) + (if |r.payload| > 0 && r.payload[0] >= op then 1 else 0)
    decreases 0x100 - op
  {
    if op < 0x100 {
      assert (rs + [r])[..|rs|] == rs;
      SumAppend(rs, r, op + 1);
    }
  }

  lemma {:induction false} SumNone(op: nat)
    requires op <= 0x100
    ensures SumLists([], op) == 0
    decreases 0x100 - op
  {
    if op < 0x100 {
      SumNone(op + 1);
    }
  }

  /** Every counted record is in one list except those with an empty
    * payload: the list lengths add up to the total less those. */
  lemma {:induction false} ListsCount(rs: seq<Record>)
    ensures SumLists(rs, 0) + Empty(rs) == |rs|
  {
    if |rs| == 0 {
      SumNone(0);
    } else {
      var init := rs[..|rs| - 1];
      ListsCount(init);
      assert rs == init + [rs[|rs| - 1]];
      SumAppend(init, rs[|rs| - 1], 0);
      assert Empty(rs) == Empty(init) + (if |rs[|rs| - 1].payload| == 0 then 1 else 0);
    }
  }

  /** A record as the tracer writes it. */
  function EncodeRecord(r: Record): seq<byte>
    requires |r.payload| < 0x1_0000
  {
    LeU32(r.tick) + [r.dir, r.slot] + LeU16(|r.payload|) + r.payload
  }

  ghost predicate Encodable(rs: seq<Record>)
  {
    forall i :: 0 <= i < |rs| ==> |rs[i].payload| < 0x1_0000
  }

  function Encode(rs: seq<Record>): seq<byte>
    requires Encodable(rs)
  {
    if |rs| == 0 then [] else EncodeRecord(rs[0]) + Encode(rs[1..])
  }

  /** Bytes that do not hold a complete record: a cut-off header or a
    * header whose payload is cut off. */
  predicate Partial(tail: seq<byte>)
  {
    |tail| < 8 || 8 + U16At(tail, 6) > |tail|
  }

  lemma RecordAt(pre: seq<byte>, r: Record, post: seq<byte>)
    requires |r.payload| < 0x1_0000
    ensures var s := pre + EncodeRecord(r) + post;
      |pre| + 8 + |r.payload| <= |s|
      && U16At(s, |pre| + 6) == |r.payload|
      && Record(U32At(s, |pre|), s[|pre| + 4], s[|pre| + 5], s[|pre| + 8..|pre| + 8 + |r.payload|]) == r
  {
    var s := pre + EncodeRecord(r) + post;
    assert s == pre + LeU32(r.tick) + ([r.dir, r.slot] + LeU16(|r.payload|) + r.payload + post);
    U32RoundTrip(r.tick, pre, [r.dir, r.slot] + LeU16(|r.payload|) + r.payload + post);
    assert s == pre + LeU32(r.tick) + [r.dir, r.slot] + LeU16(|r.payload|) + (r.payload + post);
    U16RoundTrip(|r.payload|, pre + LeU32(r.tick) + [r.dir, r.slot], r.payload + post);
    assert s[|pre| + 8..|pre| + 8 + |r.payload|] == r.payload;
  }

  lemma PartialAt(s: seq<byte>, pos: nat, tail: seq<byte>)
    requires Partial(tail) && pos <= |s| && s[pos..] == tail
    ensures RecordsFrom(s, pos) == []
  {
    if |tail| >= 8 {
      assert s[pos + 6] == tail[6] && s[pos + 7] == tail[7];
    }
  }

  /** A record written at pos reads back, with what follows it after. */
  lemma RecordIn(s: seq<byte>, pos: nat, r: Record, post: seq<byte>)
    requires |r.payload| < 0x1_0000 && pos <= |s| && s[pos..] == EncodeRecord(r) + post
    ensures pos + 8 + |r.payload| <= |s| && U16At(s, pos + 6) == |r.payload|
    ensures Record(U32At(s, pos), s[pos + 4], s[pos + 5], s[pos + 8..pos + 8 + |r.payload|]) == r
    ensures s[pos + 8 + |r.payload|..] == post
  {
    assert s == s[..pos] + EncodeRecord(r) + post;
    RecordAt(s[..pos], r, post);
  }

  lemma RecordFirst(s: seq<byte>, pos: nat, r: Record)
    requires pos + 8 + |r.payload| <= |s| && U16At(s, pos + 6) == |r.payload|
    requires Record(U32At(s, pos), s[pos + 4], s[pos + 5], s[pos + 8..pos + 8 + |r.payload|]) == r
    ensures RecordsFrom(s, pos) == [r] + RecordsFrom(s, pos + 8 + |r.payload|)
  {
  }

  /** Reading back what the tracer wrote gives the records back, and a
    * partial record at the end is not counted. */
  lemma {:induction false} RecordsBack(s: seq<byte>, pos: nat, rs: seq<Record>, tail: seq<byte>)
    requires Encodable(rs) && Partial(tail)
    requires pos <= |s| && s[pos..] == Encode(rs) + tail
    ensures RecordsFrom(s, pos) == rs
    decreases |rs|
  {
    if |rs| == 0 {
      PartialAt(s, pos, tail);
    } else {
      var r := rs[0];
      assert Encodable(rs[1..]);
      RecordIn(s, pos, r, Encode(rs[1..]) + tail);
      RecordFirst(s, pos, r);
      RecordsBack(s, pos + 8 + |r.payload|, rs[1..], tail);
      assert rs == [r] + rs[1..];
    }
  }

  /** A whole trace file: the magic, the records, perhaps a partial one. */
  lemma TraceBack(rs: seq<Record>, tail: seq<byte>)
    requires Encodable(rs) && Partial(tail)
    ensures Records(Magic + Encode(rs) + tail) == rs
  {
    var s := Magic + Encode(rs) + tail;
    assert s[..8] == Magic;
    assert s[8..] == Encode(rs) + tail;
    RecordsBack(s, 8, rs, tail);
  }
}
