/** The structural comparison of the trace tool: each opcode's wire layout,
  * the checks made on one of our payloads against it and against the
  * reference payload, and the pass/fail totals of a run. */
module TraceChecks {
  import opened Bytes
  import opened TraceCompare

  datatype Kind = U8 | I32 | F32 | Cv3 | Cv4 | Cf16 | Var

  /** A layout field; size 0 marks the variable-length tail. */
  datatype Field = Field(name: string, size: nat, kind: Kind)

  datatype LenRule = Exact(n: nat) | Min(n: nat)

  datatype Layout = Layout(name: string, fields: seq<Field>, rule: LenRule)

  const ObjectIdOnly: seq<Field> := [Field("opcode", 1, U8), Field("object_id", 4, I32)]
  const EventForward: seq<Field> :=
    [Field("opcode", 1, U8), Field("event_obj_id", 4, I32), Field("event_data", 0, Var)]

  /** The opcodes with a layout, in ascending order. */
  const LayoutOpcodes: seq<byte> := [0x03, 0x07, 0x08, 0x0A, 0x0E, 0x0F, 0x14, 0x19, 0x1A, 0x1C, 0x29]

  /** The layout table. */
  function LayoutOf(op: byte): (r: Option<Layout>)
    ensures r.Some? <==> op in LayoutOpcodes
  {
    match op
    case 0x03 => Some(Layout("ObjCreateTeam",
        [Field("opcode", 1, U8), Field("owner_slot", 1, U8), Field("team_id", 1, U8), Field("ship_blob", 0, Var)],
        Min(3)))
    case 0x07 => Some(Layout("StartFiring", EventForward, Min(5)))
    case 0x08 => Some(Layout("StopFiring", EventForward, Min(5)))
    case 0x0A => Some(Layout("SubsysStatus", EventForward, Min(5)))
    case 0x0E => Some(Layout("StartCloak", ObjectIdOnly, Exact(5)))
    case 0x0F => Some(Layout("StopCloak", ObjectIdOnly, Exact(5)))
    case 0x14 => Some(Layout("DestroyObject", ObjectIdOnly, Exact(5)))
    case 0x19 => Some(Layout("TorpedoFire",
        [Field("opcode", 1, U8), Field("shooter_id", 4, I32), Field("subsys_index", 1, U8),
         Field("flags", 1, U8), Field("velocity", 3, Cv3)],
        Min(10)))
    case 0x1A => Some(Layout("BeamFire",
        [Field("opcode", 1, U8), Field("shooter_id", 4, I32), Field("flags", 1, U8),
         Field("direction", 3, Cv3), Field("more_flags", 1, U8)],
        Min(10)))
    case 0x1C => Some(Layout("StateUpdate",
        [Field("opcode", 1, U8), Field("object_id", 4, I32), Field("game_time", 4, F32),
         Field("dirty_flags", 1, U8), Field("field_data", 0, Var)],
        Min(10)))
    case 0x29 => Some(Layout("Explosion",
        [Field("opcode", 1, U8), Field("object_id", 4, I32), Field("impact", 5, Cv4),
         Field("damage", 2, Cf16), Field("radius", 2, Cf16)],
        Exact(14)))
    case _ => None
  }

  /** The reference payloads of the recorded battle; [] where there is
    * none (an empty reference and a missing one are treated alike). */
  function RefOf(op: byte): seq<byte>
  {
    match op
    case 0x1A => [0x1A, 0x77, 0x00, 0x00, 0x40, 0x02, 0x75, 0x0E, 0xD2, 0x03, 0x68, 0x00, 0x08, 0x40]
    case 0x19 => [0x19, 0x0D, 0x00, 0x00, 0x40, 0x02, 0x01, 0xDF, 0x87, 0x11,
                  0xFF, 0xFF, 0x03, 0x40, 0x00, 0x88, 0xD8, 0x5C]
    case 0x29 => [0x29, 0xFF, 0xFF, 0xFF, 0x3F, 0x1D, 0x7A, 0x0C, 0x95, 0x61, 0x1B, 0x57, 0xE2, 0x78]
    case 0x03 => [0x03, 0x00, 0x02, 0x08, 0x80, 0x00, 0x00, 0xFF, 0xFF, 0xFF, 0x3F,
                  0x01, 0x00, 0x00, 0xB0, 0x42, 0x00, 0x00, 0x84, 0xC2, 0x00, 0x00, 0x92, 0xC2]
    case 0x07 => [0x07, 0x28, 0x81, 0x00, 0x00, 0xD8, 0x00, 0x80, 0x00, 0x00, 0x00, 0x00, 0x00,
                  0x05, 0x00, 0x00, 0x40, 0x00, 0x00, 0x00, 0x00, 0x00, 0x00, 0x00, 0x00]
    case 0x08 => [0x08, 0x01, 0x01, 0x00, 0x00, 0xDA, 0x00, 0x80, 0x00, 0x00, 0x00, 0x00, 0x00,
                  0x05, 0x00, 0x00, 0x40]
    case _ => []
  }

  datatype CheckName =
    | OpcodeByte | ExactLength | RefLengthMatch | MinLength
    | FieldPresent(field: string) | FieldAt(field: string, offset: nat)
    | TargetAt | HasTargetMatch | TotalLengthMatch
    | FlagMode | HasTargetTrailing | HasArcTrailing
    | LayoutMatch | FieldDataPresent | DirtyFlagsDecode

  /** One check as reported: its name and whether it passed. */
  datatype Check = Check(name: CheckName, passed: bool)

  predicate AllPass(cs: seq<Check>)
  {
    forall i :: 0 <= i < |cs| ==> cs[i].passed
  }

  /** Bit 0 and bit 1 of a flag byte. */
  function Bit0(x: byte): bool { x % 2 == 1 }
  function Bit1(x: byte): bool { (x / 2) % 2 == 1 }

  /** The length checks: the exact length and, with a reference, the
    * reference's length; or the minimum length. */
  function LengthChecks(rule: LenRule, ref: seq<byte>, obc: seq<byte>): seq<Check>
  {
    match rule
    case Exact(n) =>
      [Check(ExactLength, |obc| == n)] + (if |ref| > 0 then [Check(RefLengthMatch, |obc| == |ref|)] else [])
    case Min(n) => [Check(MinLength, |obc| >= n)]
  }

  /** The field walk from field k at offset pos: one passing check per
    * fixed field that fits, a failing presence check for the first one
    * that does not, and an end at the variable-length tail. A field
    * both payloads hold is reported only for the kinds the tool
    * describes, which every fixed field of the table is. */
  function Walk(fields: seq<Field>, k: nat, pos: nat, ref: seq<byte>, obc: seq<byte>): seq<Check>
    decreases |fields| - k
  {
    if k >= |fields| || fields[k].size == 0 then []
    else
      var f := fields[k];
      if pos + f.size > |obc| then [Check(FieldPresent(f.name), false)]
      else
        var here := if |ref| > 0 && pos + f.size <= |ref| && f.kind == Var then []
          else [Check(FieldAt(f.name, pos), true)];
        here + Walk(fields, k + 1, pos + f.size, ref, obc)
  }

  /** The checks particular to beam fire, torpedo fire, explosion and
    * state update payloads. */
  function SpecificChecks(op: byte, ref: seq<byte>, obc: seq<byte>): seq<Check>
  {
    if op == 0x1A then
      if |obc| >= 10 then
        var has := Bit0(obc[9]);
        (if has && |obc| >= 14 then [Check(TargetAt, true)] else [])
        + (if |ref| >= 10
           then [Check(HasTargetMatch, has == Bit0(ref[9])), Check(TotalLengthMatch, |obc| == |ref|)]
           else [])
      else []
    else if op == 0x19 then
      if |obc| >= 10 && |ref| >= 10 then
        [Check(FlagMode, true)]
        + (if |obc| - 10 > 0 then
             (if Bit1(obc[6]) then [Check(HasTargetTrailing, |obc| - 10 == 9)]
              else if Bit0(obc[6]) then [Check(HasArcTrailing, true)]
              else [])
           else [])
      else []
    else if op == 0x29 then
      if |ref| > 0 && |obc| == 14 && |ref| == 14 then [Check(LayoutMatch, true)] else []
    else if op == 0x1C then
      if |obc| >= 10 then [Check(FieldDataPresent, |obc| > 10), Check(DirtyFlagsDecode, true)] else []
    else []
  }

  /** All checks of one payload, in the order they are reported. */
  function Compare(op: byte, ref: seq<byte>, obc: seq<byte>, layout: Layout): seq<Check>
    requires |obc| > 0
  {
    [Check(OpcodeByte, obc[0] == op)] + LengthChecks(layout.rule, ref, obc)
      + Walk(layout.fields, 0, 0, ref, obc) + SpecificChecks(op, ref, obc)
  }

  /** compare_opcode: the checks of one of our payloads. */
  method CompareOpcode(op: byte, ref: seq<byte>, obc: seq<byte>, layout: Layout) returns (checks: seq<Check>)
    requires |obc| > 0
    ensures checks == Compare(op, ref, obc, layout)
  {
    checks := [Check(OpcodeByte, obc[0] == op)] + LengthChecks(layout.rule, ref, obc);
    ghost var head := checks;
    var pos: nat := 0;
    var k: nat := 0;
    while k < |layout.fields|
      invariant k <= |layout.fields|
      invariant head + Walk(layout.fields, 0, 0, ref, obc) == checks + Walk(layout.fields, k, pos, ref, obc)
      decreases |layout.fields| - k
    {
      var f := layout.fields[k];
      if f.size == 0 {
        break;
      }
      if pos + f.size > |obc| {
        checks := checks + [Check(FieldPresent(f.name), false)];
        break;
      }
      ghost var rest := Walk(layout.fields, k + 1, pos + f.size, ref, obc);
      if !(|ref| > 0 && pos + f.size <= |ref| && f.kind == Var) {
        assert checks + ([Check(FieldAt(f.name, pos), true)] + rest)
          == (checks + [Check(FieldAt(f.name, pos), true)]) + rest;
        checks := checks + [Check(FieldAt(f.name, pos), true)];
      }
      pos := pos + f.size;
      k := k + 1;
    }
    checks := checks + SpecificChecks(op, ref, obc);
  }

  /** The size of the fixed fields, up to the variable-length tail. */
  function FixedSize(fields: seq<Field>, k: nat): nat
    decreases |fields| - k
  {
    if k >= |fields| || fields[k].size == 0 then 0 else fields[k].size + FixedSize(fields, k + 1)
  }

  /** The walk passes exactly when the payload holds every fixed field;
    * only its last check can fail, and that one is a presence check. */
  lemma {:induction false} WalkPasses(fields: seq<Field>, k: nat, pos: nat, ref: seq<byte>, obc: seq<byte>)
    requires pos <= |obc|
    ensures var w := Walk(fields, k, pos, ref, obc);
      (AllPass(w) <==> pos + FixedSize(fields, k) <= |obc|)
      && (forall i :: 0 <= i < |w| - 1 ==> w[i].passed)
      && (|w| > 0 && !w[|w| - 1].passed ==> w[|w| - 1].name.FieldPresent?)
    decreases |fields| - k
  {
    var w := Walk(fields, k, pos, ref, obc);
    if k < |fields| && fields[k].size > 0 {
      var f := fields[k];
      if pos + f.size > |obc| {
        assert w == [Check(FieldPresent(f.name), false)];
        assert !w[0].passed;
      } else {
        var rest := Walk(fields, k + 1, pos + f.size, ref, obc);
        WalkPasses(fields, k + 1, pos + f.size, ref, obc);
        var here := if |ref| > 0 && pos + f.size <= |ref| && f.kind == Var then []
          else [Check(FieldAt(f.name, pos), true)];
        assert w == here + rest;
        assert AllPass(here);
        AllPassConcat(here, rest);
        forall i | 0 <= i < |w| - 1
          ensures w[i].passed
        {
          if i >= |here| {
            assert w[i] == rest[i - |here|];
          }
        }
      }
    }
  }

  /** Every layout's fixed fields make up its length rule: the minimum
    * length, or the exact one. */
  lemma LayoutsConsistent(op: byte)
    requires LayoutOf(op).Some?
    ensures FixedSize(LayoutOf(op).value.fields, 0) == LayoutOf(op).value.rule.n
  {
    var fs := LayoutOf(op).value.fields;
    assert FixedSize(fs, |fs|) == 0;
  }

  /** So, for a minimum-length layout, the field walk passes exactly when
    * the length check does; for an exact one, a payload of the exact
    * length passes the walk. */
  lemma WalkMatchesLength(l: Layout, ref: seq<byte>, obc: seq<byte>)
    requires FixedSize(l.fields, 0) == l.rule.n
    ensures l.rule.Min? ==> (AllPass(Walk(l.fields, 0, 0, ref, obc)) <==> AllPass(LengthChecks(l.rule, ref, obc)))
    ensures l.rule.Exact? && |obc| == l.rule.n ==> AllPass(Walk(l.fields, 0, 0, ref, obc))
  {
    WalkPasses(l.fields, 0, 0, ref, obc);
    if l.rule.Min? {
      assert LengthChecks(l.rule, ref, obc)[0].passed <==> |obc| >= l.rule.n;
    }
  }

  /** Every fixed field is of a kind the tool describes, so a payload that
    * holds all of them gets one check per field. */
  lemma {:induction false} WalkCount(fields: seq<Field>, k: nat, pos: nat, ref: seq<byte>, obc: seq<byte>)
    requires forall j :: k <= j < |fields| && fields[j].size > 0 ==> fields[j].kind != Var
    requires pos + FixedSize(fields, k) <= |obc|
    ensures |Walk(fields, k, pos, ref, obc)| == FixedCount(fields, k)
    decreases |fields| - k
  {
    if k < |fields| && fields[k].size > 0 {
      WalkCount(fields, k + 1, pos + fields[k].size, ref, obc);
    }
  }

  /** The number of fixed fields, up to the variable-length tail. */
  function FixedCount(fields: seq<Field>, k: nat): nat
    decreases |fields| - k
  {
    if k >= |fields| || fields[k].size == 0 then 0 else 1 + FixedCount(fields, k + 1)
  }

  lemma AllPassConcat(a: seq<Check>, b: seq<Check>)
    ensures AllPass(a + b) <==> AllPass(a) && AllPass(b)
  {
    if AllPass(a + b) {
      forall i | 0 <= i < |a|
        ensures a[i].passed
      {
        assert (a + b)[i] == a[i];
      }
      forall i | 0 <= i < |b|
        ensures b[i].passed
      {
        assert (a + b)[|a| + i] == b[i];
      }
    }
    if AllPass(a) && AllPass(b) {
      forall i | 0 <= i < |a + b|
        ensures (a + b)[i].passed
      {
        if i < |a| {
          assert (a + b)[i] == a[i];
        } else {
          assert (a + b)[i] == b[i - |a|];
        }
      }
    }
  }

  /** A payload passes every check when it starts with the opcode, meets
    * the length rule and the particular checks, and the layout's fixed
    * fields make up its length rule. */
  lemma ComparePasses(op: byte, ref: seq<byte>, obc: seq<byte>, l: Layout)
    requires |obc| > 0 && obc[0] == op && FixedSize(l.fields, 0) == l.rule.n
    requires AllPass(LengthChecks(l.rule, ref, obc)) && AllPass(SpecificChecks(op, ref, obc))
    ensures AllPass(Compare(op, ref, obc, l))
  {
    var head: seq<Check> := [Check(OpcodeByte, true)];
    var len := LengthChecks(l.rule, ref, obc);
    var walk := Walk(l.fields, 0, 0, ref, obc);
    WalkMatchesLength(l, ref, obc);
    assert LengthChecks(l.rule, ref, obc)[0].passed;
    assert AllPass(walk);
    AllPassConcat(head, len);
    AllPassConcat(head + len, walk);
    AllPassConcat(head + len + walk, SpecificChecks(op, ref, obc));
  }

  /** Each recorded reference payload passes every check against itself. */
  lemma ReferencesPass(op: byte)
    requires LayoutOf(op).Some? && |RefOf(op)| > 0
    ensures AllPass(Compare(op, RefOf(op), RefOf(op), LayoutOf(op).value))
  {
    LayoutsConsistent(op);
    ComparePasses(op, RefOf(op), RefOf(op), LayoutOf(op).value);
  }

  /** A beam fire without a target (ten bytes) passes the layout checks but
    * fails the has-target bit match and the total length match against
    * the recorded fourteen-byte beam. */
  lemma UntargetedBeamFails(obc: seq<byte>)
    requires |obc| == 10 && obc[0] == 0x1A && !Bit0(obc[9])
    ensures var c := Compare(0x1A, RefOf(0x1A), obc, LayoutOf(0x1A).value);
      |c| == 9 && AllPass(c[..7]) && c[7..] == [Check(HasTargetMatch, false), Check(TotalLengthMatch, false)]
  {
    var l := LayoutOf(0x1A).value;
    var ref := RefOf(0x1A);
    LayoutsConsistent(0x1A);
    WalkMatchesLength(l, ref, obc);
    var head := [Check(OpcodeByte, true)] + LengthChecks(l.rule, ref, obc) + Walk(l.fields, 0, 0, ref, obc);
    WalkCount(l.fields, 0, 0, ref, obc);
    assert FixedCount(l.fields, 5) == 0;
    AllPassConcat([Check(OpcodeByte, true)], LengthChecks(l.rule, ref, obc));
    AllPassConcat([Check(OpcodeByte, true)] + LengthChecks(l.rule, ref, obc), Walk(l.fields, 0, 0, ref, obc));
    assert |head| == 7 && AllPass(head);
    var c := head + SpecificChecks(0x1A, ref, obc);
    assert c[..7] == head;
  }

  /** A torpedo with the target flag passes only with nine trailing bytes;
    * the recorded reference (arc flag, eight trailing bytes) reports the
    * arc data instead. */
  lemma TorpedoTrailing(obc: seq<byte>)
    requires |obc| > 10 && Bit1(obc[6])
    ensures SpecificChecks(0x19, RefOf(0x19), obc)
      == [Check(FlagMode, true), Check(HasTargetTrailing, |obc| == 19)]
    ensures SpecificChecks(0x19, RefOf(0x19), RefOf(0x19)) == [Check(FlagMode, true), Check(HasArcTrailing, true)]
  {
  }

  /** The payload a run compares for an opcode: the first one we sent,
    * or else the first one of any direction. */
  function Sample(list: seq<Record>): (r: Option<Record>)
    ensures r.Some? <==> |list| > 0
    ensures r.Some? ==> r.value in list
    ensures r.Some? && r.value.dir != 'S' as byte ==> forall i :: 0 <= i < |list| ==> list[i].dir != 'S' as byte
    ensures r.Some? && r.value.dir != 'S' as byte ==> r.value == list[0]
    ensures r.Some? && r.value.dir == 'S' as byte ==>
      exists i :: 0 <= i < |list| && list[i] == r.value && forall j :: 0 <= j < i ==> list[j].dir != 'S' as byte
  {
    if |list| == 0 then None
    else
      var first := FirstSent(list, 0);
      if first < |list| then Some(list[first]) else Some(list[0])
  }

  /** The index of the first sent record from i on, or |list|. */
  function FirstSent(list: seq<Record>, i: nat): (j: nat)
    requires i <= |list|
    ensures i <= j <= |list|
    ensures j < |list| ==> list[j].dir == 'S' as byte
    ensures forall m :: i <= m < j ==> list[m].dir != 'S' as byte
    decreases |list| - i
  {
    if i == |list| then i
    else if list[i].dir == 'S' as byte then i
    else FirstSent(list, i + 1)
  }

  /** Every record under an opcode has a payload that starts with it. */
  ghost predicate Indexed(m: map<byte, seq<Record>>)
  {
    forall op, i :: op in m && 0 <= i < |m[op]| ==> |m[op][i].payload| > 0 && m[op][i].payload[0] == op
  }

  lemma {:induction false} ByOpcodeIndexed(rs: seq<Record>)
    ensures Indexed(ByOpcode(rs))
  {
    if |rs| > 0 {
      ByOpcodeIndexed(rs[..|rs| - 1]);
    }
  }

  /** The checks made for one layout opcode: none when we sent nothing
    * under it. */
  function OpcodeChecks(op: byte, obc: map<byte, seq<Record>>): seq<Check>
    requires Indexed(obc)
  {
    var sample := Sample(if op in obc then obc[op] else []);
    if LayoutOf(op).Some? && sample.Some? then Compare(op, RefOf(op), sample.value.payload, LayoutOf(op).value)
    else []
  }

  /** The checks of a run over the opcodes ops[k..]. */
  function RunChecks(ops: seq<byte>, k: nat, obc: map<byte, seq<Record>>): seq<Check>
    requires Indexed(obc)
    decreases |ops| - k
  {
    if k >= |ops| then [] else OpcodeChecks(ops[k], obc) + RunChecks(ops, k + 1, obc)
  }

  /** The number of checks that passed. */
  function Passed(cs: seq<Check>): (n: nat)
    ensures n <= |cs|
    ensures n == |cs| <==> AllPass(cs)
  {
    if |cs| == 0 then 0
    else
      var init := cs[..|cs| - 1];
      var n := Passed(init) + (if cs[|cs| - 1].passed then 1 else 0);
      assert forall i :: 0 <= i < |cs| - 1 ==> init[i] == cs[i];
      n
  }

  lemma {:induction false} PassedAppend(a: seq<Check>, b: seq<Check>)
    ensures Passed(a + b) == Passed(a) + Passed(b)
    decreases |b|
  {
    if |b| > 0 {
      assert (a + b)[..|a + b| - 1] == a + b[..|b| - 1];
      PassedAppend(a, b[..|b| - 1]);
    } else {
      assert a + b == a;
    }
  }

  /** The checks of one opcode: the sample it compares and its checks. */
  method CheckOpcode(op: byte, obc: map<byte, seq<Record>>) returns (checks: seq<Check>)
    requires Indexed(obc)
    ensures checks == OpcodeChecks(op, obc)
  {
    var list := if op in obc then obc[op] else [];
    var sample := Sample(list);
    var layout := LayoutOf(op);
    checks := [];
    if layout.Some? && sample.Some? {
      checks := CompareOpcode(op, RefOf(op), sample.value.payload, layout.value);
    }
  }

  /** The tally of a list of checks, one at a time. */
  method Tally(checks: seq<Check>) returns (total: nat, passed: nat, allPass: bool)
    ensures total == |checks| && passed == Passed(checks) && (allPass <==> AllPass(checks))
  {
    total, passed, allPass := 0, 0, true;
    while total < |checks|
      invariant total <= |checks|
      invariant passed == Passed(checks[..total]) && (allPass <==> passed == total)
    {
      assert checks[..total + 1][..total] == checks[..total];
      if checks[total].passed {
        passed := passed + 1;
      } else {
        allPass := false;
      }
      total := total + 1;
    }
    assert checks[..total] == checks;
  }

  lemma Regroup(a: seq<Check>, b: seq<Check>, c: seq<Check>)
    ensures a + (b + c) == (a + b) + c
  {
  }

  /** The run over every layout opcode in ascending order: the number of
    * checks, the number passed, and whether all passed. */
  method RunComparison(obc: map<byte, seq<Record>>) returns (total: nat, passed: nat, allPass: bool)
    requires Indexed(obc)
    ensures total == |RunChecks(LayoutOpcodes, 0, obc)|
    ensures passed == Passed(RunChecks(LayoutOpcodes, 0, obc))
    ensures allPass <==> AllPass(RunChecks(LayoutOpcodes, 0, obc))
  {
    total, passed, allPass := RunOver(LayoutOpcodes, obc);
  }

  method RunOver(ops: seq<byte>, obc: map<byte, seq<Record>>) returns (total: nat, passed: nat, allPass: bool)
    requires Indexed(obc)
    ensures total == |RunChecks(ops, 0, obc)|
    ensures passed == Passed(RunChecks(ops, 0, obc))
    ensures allPass <==> AllPass(RunChecks(ops, 0, obc))
  {
    total, passed, allPass := 0, 0, true;
    ghost var done: seq<Check> := [];
    var k := 0;
    while k < |ops|
      invariant k <= |ops|
      invariant done + RunChecks(ops, k, obc) == RunChecks(ops, 0, obc)
      invariant total == |done| && passed == Passed(done) && (allPass <==> passed == total)
    {
      var checks := CheckOpcode(ops[k], obc);
      var n, p, all := Tally(checks);
      PassedAppend(done, checks);
      Regroup(done, checks, RunChecks(ops, k + 1, obc));
      total, passed, allPass := total + n, passed + p, allPass && all;
      done := done + checks;
      k := k + 1;
    }
    assert done + [] == done;
  }

  /** The index of a parsed trace meets the run's precondition, and the
    * sample compared for each opcode passes the opcode byte check. */
  lemma OpcodeCheckPasses(rs: seq<Record>, op: byte)
    requires op in ByOpcode(rs) && LayoutOf(op).Some?
    ensures Indexed(ByOpcode(rs))
    ensures Sample(ByOpcode(rs)[op]).Some?
    ensures Compare(op, RefOf(op), Sample(ByOpcode(rs)[op]).value.payload, LayoutOf(op).value)[0]
      == Check(OpcodeByte, true)
  {
    ByOpcodeIndexed(rs);
    ListsAreFilters(rs);
  }
}
