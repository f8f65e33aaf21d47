/** The ship registry: lookups by index, species and projectile type, and
  * the serialization list of a ship class, whose entries and children are
  * matched by name to the flat subsystem array or given fresh health
  * slots. Floating-point fields are not part of this model. */
module ShipData {
  import opened Bytes
  import opened Json
  import opened JsonParse

  const MaxShips: nat := 16
  const MaxProjectiles: nat := 16
  const MaxSubsystems: nat := 64
  const MaxEntries: nat := 16
  const MaxChildren: nat := 12

  /** The three serialization formats of a list entry. */
  const FormatBase: nat := 0
  const FormatPowered: nat := 1
  const FormatPower: nat := 2

  const NameKey: seq<byte> := Ascii("name")
  const FormatKey: seq<byte> := Ascii("format")
  const ChildrenKey: seq<byte> := Ascii("children")
  const PoweredText: seq<byte> := Ascii("powered")
  const PowerText: seq<byte> := Ascii("power")

  /** A subsystem of the flat array: its name and the health slot of the
    * list entry it is a child of (-1 until the list is loaded). */
  datatype Subsystem = Subsystem(name: seq<byte>, parentIdx: int)

  /** A top-level serialization entry: its format, its health slot and the
    * health slots of its children. */
  datatype SsEntry = SsEntry(format: nat, hpIndex: int, childHpIndex: seq<int>)

  datatype SsList = SsList(entries: seq<SsEntry>, totalHpSlots: int, reactorEntryIdx: int)

  datatype Projectile = Projectile(name: seq<byte>, netTypeId: u8)

  /** A ship class: the values read from its JSON object that this model
    * keeps, and the two parts the list loader updates in place. */
  class ShipClass {
    const name: seq<byte>
    const speciesId: u16
    var subsystems: seq<Subsystem>
    var serList: SsList

    constructor(name: seq<byte>, speciesId: u16, subsystems: seq<Subsystem>)
      ensures this.name == name && this.speciesId == speciesId
      ensures this.subsystems == subsystems && serList == SsList([], 0, -1)
    {
      this.name := name;
      this.speciesId := speciesId;
      this.subsystems := subsystems;
      serList := SsList([], 0, -1);
    }

    /** find_subsys_by_name */
    method FindSubsystem(name: seq<byte>) returns (i: int)
      ensures i == FindName(subsystems, name)
    {
      i := 0;
      while i < |subsystems|
        invariant 0 <= i <= |subsystems|
        invariant FindName(subsystems, name) == FindFrom(subsystems, name, i)
      {
        if subsystems[i].name == name {
          return i;
        }
        i := i + 1;
      }
      return -1;
    }

    /** One name placed: the index of the subsystem it names, or the next
      * fresh slot, the counter stopping at MaxSubsystems. */
    method Place(name: Option<seq<byte>>, next: int) returns (idx: int, next': int)
      ensures (idx, next') == PlaceName(subsystems, name, next)
    {
      var found := -1;
      if name.Some? {
        found := FindSubsystem(name.value);
      }
      if found >= 0 {
        return found, next;
      }
      return next, Bump(next);
    }

    /** The children loop of load_serialization_list for one entry whose
      * health slot is hp: each child found by name gets that slot as its
      * parent. */
    method LoadChildren(children: Option<Json>, hp: int, next: int) returns (idx: seq<int>, next': int)
      modifies this
      ensures serList == old(serList)
      ensures Kids(subsystems, next', idx) == AllKids(Kids(old(subsystems), next, []), Capped(children, MaxChildren), hp)
    {
      var cn := ArrayLen(children);
      if cn > MaxChildren {
        cn := MaxChildren;
      }
      ghost var kids := Capped(children, MaxChildren);
      ghost var start := Kids(subsystems, next, []);
      assert |kids| == cn;
      idx := [];
      next' := next;
      var c := 0;
      while c < cn
        invariant c <= cn && serList == old(serList)
        invariant Kids(subsystems, next', idx) == AfterKids(start, kids, hp, c)
      {
        var child := ArrayGet(children, c);
        assert child == Some(kids[c]);
        var nameField := Get(child, NameKey);
        var cname := StringOf(nameField);
        var cidx := -1;
        if cname.Some? {
          cidx := FindSubsystem(cname.value);
        }
        if cidx >= 0 {
          idx := idx + [cidx];
          subsystems := subsystems[cidx := subsystems[cidx].(parentIdx := hp)];
        } else {
          idx := idx + [next'];
          next' := Bump(next');
        }
        c := c + 1;
      }
    }

    /** load_serialization_list */
    method LoadSerializationList(arr: Option<Json>)
      modifies this
      ensures (serList, subsystems) == LoadList(old(subsystems), arr)
    {
      var n := ArrayLen(arr);
      if n > MaxEntries {
        n := MaxEntries;
      }
      ghost var items := Capped(arr, MaxEntries);
      ghost var subs0 := subsystems;
      assert |items| == n;
      var entries: seq<SsEntry> := [];
      var reactor := -1;
      var next := |subsystems|;
      var i := 0;
      while i < n
        invariant i <= n
        invariant Load(subsystems, next, entries, reactor) == AfterEntries(subs0, items, i)
      {
        var entry := ArrayGet(arr, i);
        assert entry == Some(items[i]);
        var formatField := Get(entry, FormatKey);
        var format := ParseFormat(formatField);
        var nameField := Get(entry, NameKey);
        var hp, next1 := Place(StringOf(nameField), next);
        if format == FormatPower {
          reactor := i;
        }
        var children := Get(entry, ChildrenKey);
        var idx, next2 := LoadChildren(children, hp, next1);
        entries := entries + [SsEntry(format, hp, idx)];
        next := next2;
        i := i + 1;
      }
      serList := SsList(entries, next, reactor);
    }
  }

  /** The first index from i on whose subsystem has the name, or -1. */
  function FindFrom(subs: seq<Subsystem>, name: seq<byte>, i: nat): (r: int)
    requires i <= |subs|
    ensures r == -1 || (i <= r < |subs| && subs[r].name == name)
    decreases |subs| - i
  {
    if i == |subs| then -1
    else if subs[i].name == name then i
    else FindFrom(subs, name, i + 1)
  }

  function FindName(subs: seq<Subsystem>, name: seq<byte>): (r: int)
    ensures r == -1 || (0 <= r < |subs| && subs[r].name == name)
  {
    FindFrom(subs, name, 0)
  }

  /** FindName gives the first subsystem with the name, and -1 exactly
    * when none has it. */
  lemma {:induction false} FindFirst(subs: seq<Subsystem>, name: seq<byte>, i: nat)
    requires i <= |subs|
    ensures FindFrom(subs, name, i) == -1 <==> forall j :: i <= j < |subs| ==> subs[j].name != name
    ensures FindFrom(subs, name, i) != -1 ==>
      forall j :: i <= j < FindFrom(subs, name, i) ==> subs[j].name != name
    decreases |subs| - i
  {
    if i < |subs| && subs[i].name != name {
      FindFirst(subs, name, i + 1);
    }
  }

  /** Finding depends only on the names, so setting a parent index does
    * not change it. */
  lemma {:induction false} FindKeepsOverParents(subs: seq<Subsystem>, k: nat, p: int, name: seq<byte>, i: nat)
    requires k < |subs| && i <= |subs|
    ensures FindFrom(subs[k := subs[k].(parentIdx := p)], name, i) == FindFrom(subs, name, i)
    decreases |subs| - i
  {
    if i < |subs| {
      FindKeepsOverParents(subs, k, p, name, i + 1);
    }
  }

  /** The subsystem a name finds, or -1 for a name that is missing. */
  function Found(subs: seq<Subsystem>, name: Option<seq<byte>>): (r: int)
    ensures r == -1 || (name.Some? && 0 <= r < |subs| && subs[r].name == name.value)
  {
    if name.Some? then FindName(subs, name.value) else -1
  }

  /** Finding looks only at the names. */
  lemma {:induction false} FindByNames(a: seq<Subsystem>, b: seq<Subsystem>, name: seq<byte>, i: nat)
    requires NamesKept(a, b) && i <= |a|
    ensures FindFrom(b, name, i) == FindFrom(a, name, i)
    decreases |a| - i
  {
    if i < |a| {
      FindByNames(a, b, name, i + 1);
    }
  }

  lemma FoundByNames(a: seq<Subsystem>, b: seq<Subsystem>, name: Option<seq<byte>>)
    requires NamesKept(a, b)
    ensures Found(b, name) == Found(a, name)
  {
    if name.Some? {
      FindByNames(a, b, name.value, 0);
    }
  }

  /** parse_ss_format: "powered" and "power" name their formats; any
    * other value, a missing one included, is the base format. */
  function ParseFormat(v: Option<Json>): (f: nat)
    ensures f <= FormatPower
    ensures f == FormatPowered <==> StringOf(v) == Some(PoweredText)
    ensures f == FormatPower <==> StringOf(v) == Some(PowerText)
  {
    var s := StringOf(v);
    if s.None? then FormatBase
    else if s.value == PoweredText then FormatPowered
    else if s.value == PowerText then FormatPower
    else FormatBase
  }

  /** The items of an array, at most cap of them; none for a value that
    * is missing or not an array. */
  function Capped(v: Option<Json>, cap: nat): (items: seq<Json>)
    ensures |items| == if ArrayLen(v) > cap then cap else ArrayLen(v)
    ensures forall i :: 0 <= i < |items| ==> ArrayGet(v, i) == Some(items[i])
  {
    if v.Some? && v.value.Array? then
      if |v.value.items| > cap then v.value.items[..cap] else v.value.items
    else []
  }

  /** The slot counter after a fresh slot is handed out: it stops at
    * MaxSubsystems, so that slot can be handed out again. */
  function Bump(next: int): int
  {
    if next < MaxSubsystems then next + 1 else next
  }

  function PlaceName(subs: seq<Subsystem>, name: Option<seq<byte>>, next: int): (int, int)
  {
    var found := if name.Some? then FindName(subs, name.value) else -1;
    if found >= 0 then (found, next) else (next, Bump(next))
  }

  /** The name of a list entry or child, when it has a string one. */
  function NameOf(v: Json): Option<seq<byte>>
  {
    StringOf(Field(Some(v), NameKey))
  }

  /** The state of the children loop: the subsystems with the parents set
    * so far, the slot counter, and the children's slots. */
  datatype Kids = Kids(subs: seq<Subsystem>, next: int, idx: seq<int>)

  function ChildStep(k: Kids, child: Json, hp: int): Kids
  {
    var name := NameOf(child);
    var found := if name.Some? then FindName(k.subs, name.value) else -1;
    if found >= 0 then
      Kids(k.subs[found := k.subs[found].(parentIdx := hp)], k.next, k.idx + [found])
    else
      Kids(k.subs, Bump(k.next), k.idx + [k.next])
  }

  function AfterKids(start: Kids, kids: seq<Json>, hp: int, c: nat): Kids
    requires c <= |kids|
  {
    if c == 0 then start else ChildStep(AfterKids(start, kids, hp, c - 1), kids[c - 1], hp)
  }

  function AllKids(start: Kids, kids: seq<Json>, hp: int): Kids
  {
    AfterKids(start, kids, hp, |kids|)
  }

  /** The state of the entry loop: the subsystems, the slot counter, the
    * entries so far and the reactor entry. */
  datatype Load = Load(subs: seq<Subsystem>, next: int, entries: seq<SsEntry>, reactor: int)

  function EntryStep(st: Load, item: Json, i: nat): Load
  {
    var format := ParseFormat(Field(Some(item), FormatKey));
    var (hp, next1) := PlaceName(st.subs, NameOf(item), st.next);
    var k := AllKids(Kids(st.subs, next1, []), Capped(Field(Some(item), ChildrenKey), MaxChildren), hp);
    Load(k.subs, k.next, st.entries + [SsEntry(format, hp, k.idx)], if format == FormatPower then i else st.reactor)
  }

  function AfterEntries(subs: seq<Subsystem>, items: seq<Json>, n: nat): Load
    requires n <= |items|
  {
    if n == 0 then Load(subs, |subs|, [], -1)
    else EntryStep(AfterEntries(subs, items, n - 1), items[n - 1], n - 1)
  }

  /** load_serialization_list as a function of the subsystems and the
    * list value: the list it builds and the subsystems with their parents
    * set. */
  function LoadList(subs: seq<Subsystem>, arr: Option<Json>): (SsList, seq<Subsystem>)
  {
    var items := Capped(arr, MaxEntries);
    var st := AfterEntries(subs, items, |items|);
    (SsList(st.entries, st.next, st.reactor), st.subs)
  }

  /** Placing a name: a name some subsystem has takes the index of the
    * first such subsystem and leaves the counter alone; any other entry,
    * a nameless one included, takes the counter's slot, and the counter
    * moves on unless it has reached MaxSubsystems. */
  lemma PlaceEffect(subs: seq<Subsystem>, name: Option<seq<byte>>, next: int)
    ensures name.Some? && (exists j :: 0 <= j < |subs| && subs[j].name == name.value) ==>
      var (idx, next') := PlaceName(subs, name, next);
      0 <= idx < |subs| && subs[idx].name == name.value && next' == next
      && forall j :: 0 <= j < idx ==> subs[j].name != name.value
    ensures !(name.Some? && exists j :: 0 <= j < |subs| && subs[j].name == name.value) ==>
      PlaceName(subs, name, next) == (next, if next < MaxSubsystems then next + 1 else next)
  {
    if name.Some? {
      FindFirst(subs, name.value, 0);
    }
  }

  /** The subsystems keep their names and their number. */
  ghost predicate NamesKept(before: seq<Subsystem>, after: seq<Subsystem>)
  {
    |after| == |before| && forall j :: 0 <= j < |before| ==> after[j].name == before[j].name
  }

  /** A slot is a subsystem's own index, or a fresh one handed out by the
    * counter, which started at count and stands at next. */
  predicate SlotIn(s: int, count: nat, next: int)
  {
    (0 <= s < count) || count <= s <= next
  }

  /** The children an entry's item lists, at most MaxChildren of them. */
  function KidsOf(item: Json): seq<Json>
  {
    Capped(Field(Some(item), ChildrenKey), MaxChildren)
  }

  /** The slot given to a name: the index of the first subsystem with it
    * when there is one, otherwise a fresh slot, at or past the count. */
  ghost predicate MatchedSlot(s: int, subs: seq<Subsystem>, name: Option<seq<byte>>)
  {
    if Found(subs, name) >= 0 then s == Found(subs, name) else |subs| <= s
  }

  lemma MatchedByNames(a: seq<Subsystem>, b: seq<Subsystem>, s: int, name: Option<seq<byte>>)
    requires NamesKept(a, b)
    ensures MatchedSlot(s, b, name) == MatchedSlot(s, a, name)
  {
    FoundByNames(a, b, name);
  }

  /** An entry matched against the flat subsystems: its own slot and the
    * slot of each of its children are given by name. */
  ghost predicate EntryMatches(e: SsEntry, item: Json, subs: seq<Subsystem>)
  {
    MatchedSlot(e.hpIndex, subs, NameOf(item))
    && |e.childHpIndex| == |KidsOf(item)|
    && forall c :: 0 <= c < |e.childHpIndex| ==> MatchedSlot(e.childHpIndex[c], subs, NameOf(KidsOf(item)[c]))
  }

  /** The parent subsystem q ends with: the slot of the last entry that
    * lists q among its children, or dflt when no entry does. */
  function LastParent(entries: seq<SsEntry>, q: int, dflt: int): int
  {
    if entries == [] then dflt
    else if q in entries[|entries| - 1].childHpIndex then entries[|entries| - 1].hpIndex
    else LastParent(entries[..|entries| - 1], q, dflt)
  }

  /** Every subsystem's parent is its old one, or the slot of an entry
    * that lists it among its children. */
  ghost predicate ParentsFrom(before: seq<Subsystem>, after: seq<Subsystem>, entries: seq<SsEntry>)
    requires |after| == |before|
  {
    forall k :: 0 <= k < |after| ==> (after[k].parentIdx == before[k].parentIdx
      || exists j :: 0 <= j < |entries| && k in entries[j].childHpIndex && after[k].parentIdx == entries[j].hpIndex)
  }

  /** The reactor entry is the last entry of the power format, or -1 when
    * there is none. */
  ghost predicate LastPower(entries: seq<SsEntry>, r: int)
  {
    (r == -1 && forall j :: 0 <= j < |entries| ==> entries[j].format != FormatPower)
    || (0 <= r < |entries| && entries[r].format == FormatPower
        && forall j :: r < j < |entries| ==> entries[j].format != FormatPower)
  }

  /** One child: a child some subsystem names gets that subsystem's index
    * and the entry's slot as its parent; any other takes the counter's
    * slot. */
  lemma ChildStepEffect(base: seq<Subsystem>, k: Kids, child: Json, hp: int)
    requires NamesKept(base, k.subs)
    ensures var k' := ChildStep(k, child, hp);
      var f := Found(base, NameOf(child));
      NamesKept(base, k'.subs)
      && (f >= 0 ==>
            (k'.idx == k.idx + [f] && k'.next == k.next && k'.subs == k.subs[f := k.subs[f].(parentIdx := hp)]))
      && (f < 0 ==> (k'.idx == k.idx + [k.next] && k'.next == Bump(k.next) && k'.subs == k.subs))
  {
    FoundByNames(base, k.subs, NameOf(child));
  }

  /** The counting of the children loop: one slot per child, names kept,
    * and the counter moved on but not past MaxSubsystems. */
  lemma {:induction false} KidsCount(start: Kids, kids: seq<Json>, hp: int, c: nat)
    requires c <= |kids| && start.idx == []
    ensures var k := AfterKids(start, kids, hp, c);
      |k.idx| == c && NamesKept(start.subs, k.subs)
      && start.next <= k.next && (start.next <= MaxSubsystems ==> k.next <= MaxSubsystems)
  {
    if c > 0 {
      KidsCount(start, kids, hp, c - 1);
      ChildStepEffect(start.subs, AfterKids(start, kids, hp, c - 1), kids[c - 1], hp);
    }
  }

  /** The slot s of a child: the index of the first subsystem with its
    * name when there is one, otherwise a fresh slot from lo to hi. */
  ghost predicate ChildSlot(subs: seq<Subsystem>, lo: int, child: Json, s: int, hi: int)
  {
    ((0 <= s < |subs|) || lo <= s <= hi)
    && if Found(subs, NameOf(child)) >= 0 then s == Found(subs, NameOf(child)) else lo <= s <= hi
  }

  /** The slots of the children loop: one per child, each the index of
    * the first subsystem with the child's name, or a fresh one. */
  lemma {:induction false} KidsSlots(start: Kids, kids: seq<Json>, hp: int, c: nat)
    requires c <= |kids| && start.idx == []
    ensures var k := AfterKids(start, kids, hp, c);
      |k.idx| == c && forall j :: 0 <= j < c ==> ChildSlot(start.subs, start.next, kids[j], k.idx[j], k.next)
  {
    KidsCount(start, kids, hp, c);
    if c > 0 {
      var k := AfterKids(start, kids, hp, c - 1);
      var k' := AfterKids(start, kids, hp, c);
      assert k' == ChildStep(k, kids[c - 1], hp);
      KidsSlots(start, kids, hp, c - 1);
      assert NamesKept(start.subs, k.subs) && start.next <= k.next by {
        KidsCount(start, kids, hp, c - 1);
      }
      ChildStepEffect(start.subs, k, kids[c - 1], hp);
      assert k.next <= k'.next;
      assert k'.idx[..c - 1] == k.idx;
      forall j | 0 <= j < c - 1
        ensures ChildSlot(start.subs, start.next, kids[j], k'.idx[j], k'.next)
      {
        assert k'.idx[j] == k.idx[j];
        assert ChildSlot(start.subs, start.next, kids[j], k.idx[j], k.next);
      }
    }
  }

  /** The parents of the children loop: a subsystem no child found is
    * untouched, and one a child found has the entry's slot as parent. */
  lemma {:induction false} KidsParents(start: Kids, kids: seq<Json>, hp: int, c: nat)
    requires c <= |kids| && start.idx == []
    ensures var k := AfterKids(start, kids, hp, c);
      |k.subs| == |start.subs|
      && (forall q :: 0 <= q < |k.subs| && q !in k.idx ==> k.subs[q] == start.subs[q])
      && (forall q :: 0 <= q < |k.subs| && q < start.next && q in k.idx ==> k.subs[q].parentIdx == hp)
  {
    if c > 0 {
      var k := AfterKids(start, kids, hp, c - 1);
      var k' := AfterKids(start, kids, hp, c);
      assert k' == ChildStep(k, kids[c - 1], hp);
      assert NamesKept(start.subs, k.subs) && start.next <= k.next by {
        KidsCount(start, kids, hp, c - 1);
      }
      KidsParents(start, kids, hp, c - 1);
      var f := Found(start.subs, NameOf(kids[c - 1]));
      ChildStepEffect(start.subs, k, kids[c - 1], hp);
      if f >= 0 {
        assert k'.idx == k.idx + [f] && k'.subs == k.subs[f := k.subs[f].(parentIdx := hp)];
        assert k'.subs[f].parentIdx == hp;
        forall q | 0 <= q < |k'.subs| && q !in k'.idx
          ensures k'.subs[q] == start.subs[q]
        {
          assert q !in k.idx && q != f;
        }
      } else {
        assert k'.idx == k.idx + [k.next] && k'.subs == k.subs;
        assert forall q :: q in k'.idx && q < start.next ==> q in k.idx;
      }
    }
  }

  /** The children loop: one slot per child, names kept, and slots that
    * are either found subsystems or counted out. A child some subsystem
    * names gets the index of the first subsystem with that name, and
    * that subsystem gets the entry's slot as its parent; any other child
    * gets a fresh slot. Only found subsystems change, and only their
    * parents. */
  lemma KidsShape(start: Kids, kids: seq<Json>, hp: int, c: nat)
    requires c <= |kids| && start.idx == []
    ensures var k := AfterKids(start, kids, hp, c);
      |k.idx| == c && NamesKept(start.subs, k.subs)
      && start.next <= k.next && (start.next <= MaxSubsystems ==> k.next <= MaxSubsystems)
      && (forall j :: 0 <= j < c ==> (0 <= k.idx[j] < |start.subs|) || start.next <= k.idx[j] <= k.next)
      && (forall j :: 0 <= j < c ==>
            if Found(start.subs, NameOf(kids[j])) >= 0 then k.idx[j] == Found(start.subs, NameOf(kids[j]))
            else start.next <= k.idx[j] <= k.next)
      && (forall j :: 0 <= j < |k.subs| ==> (k.subs[j].parentIdx == start.subs[j].parentIdx
          || (k.subs[j].parentIdx == hp && j in k.idx)))
      && (forall q :: 0 <= q < |k.subs| && q !in k.idx ==> k.subs[q] == start.subs[q])
      && (forall q :: 0 <= q < |k.subs| && q < start.next && q in k.idx ==> k.subs[q].parentIdx == hp)
  {
    KidsCount(start, kids, hp, c);
    KidsSlots(start, kids, hp, c);
    KidsParents(start, kids, hp, c);
  }

  /** An entry read from item has the item's format, at most
    * MaxChildren children, and slots that are subsystem indices below
    * count or fresh ones up to next. */
  ghost predicate EntryFits(e: SsEntry, item: Json, count: nat, next: int)
  {
    e.format == ParseFormat(Field(Some(item), FormatKey))
    && |e.childHpIndex| <= MaxChildren
    && SlotIn(e.hpIndex, count, next)
    && forall c :: 0 <= c < |e.childHpIndex| ==> SlotIn(e.childHpIndex[c], count, next)
  }

  /** One entry, matched against the subsystems it starts from: its own
    * slot and its children's slots are given by name. */
  lemma StepMatches(st: Load, item: Json, i: nat)
    requires |st.subs| <= st.next
    ensures var st' := EntryStep(st, item, i);
      |st'.entries| == |st.entries| + 1 && EntryMatches(st'.entries[|st.entries|], item, st.subs)
  {
    var (hp, next1) := PlaceName(st.subs, NameOf(item), st.next);
    assert st.next <= next1;
    var kids := KidsOf(item);
    var start := Kids(st.subs, next1, []);
    KidsSlots(start, kids, hp, |kids|);
    var k := AllKids(start, kids, hp);
    var e := SsEntry(ParseFormat(Field(Some(item), FormatKey)), hp, k.idx);
    assert EntryStep(st, item, i).entries == st.entries + [e];
    assert MatchedSlot(hp, st.subs, NameOf(item));
    forall c | 0 <= c < |k.idx|
      ensures MatchedSlot(k.idx[c], st.subs, NameOf(kids[c]))
    {
      assert ChildSlot(st.subs, next1, kids[c], k.idx[c], k.next);
    }
  }

  /** One entry: appended, fitting its item, with names kept and the
    * counter moved on but not past MaxSubsystems; its own slot and its
    * children's slots are given by name. */
  lemma StepShape(st: Load, item: Json, i: nat, count: nat)
    requires |st.subs| == count && count <= st.next <= MaxSubsystems
    ensures var st' := EntryStep(st, item, i);
      |st'.entries| == |st.entries| + 1 && st'.entries[..|st.entries|] == st.entries
      && NamesKept(st.subs, st'.subs) && st.next <= st'.next <= MaxSubsystems
      && EntryFits(st'.entries[|st.entries|], item, count, st'.next)
      && EntryMatches(st'.entries[|st.entries|], item, st.subs)
  {
    StepMatches(st, item, i);
    var (hp, next1) := PlaceName(st.subs, NameOf(item), st.next);
    var kids := Capped(Field(Some(item), ChildrenKey), MaxChildren);
    var start := Kids(st.subs, next1, []);
    KidsShape(start, kids, hp, |kids|);
    var k := AllKids(start, kids, hp);
    assert EntryStep(st, item, i).entries == st.entries + [SsEntry(ParseFormat(Field(Some(item), FormatKey)), hp, k.idx)];
  }

  /** The entry loop after n entries: one fitting entry per item, names
    * kept, and the counter between count and MaxSubsystems. */
  lemma {:induction false} EntriesShape(subs: seq<Subsystem>, items: seq<Json>, n: nat)
    requires n <= |items| && |subs| <= MaxSubsystems
    ensures var st := AfterEntries(subs, items, n);
      |st.entries| == n && NamesKept(subs, st.subs) && |subs| <= st.next <= MaxSubsystems
      && forall j :: 0 <= j < n ==> EntryFits(st.entries[j], items[j], |subs|, st.next)
  {
    if n > 0 {
      EntriesShape(subs, items, n - 1);
      var st := AfterEntries(subs, items, n - 1);
      StepShape(st, items[n - 1], n - 1, |subs|);
      var st' := AfterEntries(subs, items, n);
      assert st' == EntryStep(st, items[n - 1], n - 1);
      forall j | 0 <= j < n - 1
        ensures EntryFits(st'.entries[j], items[j], |subs|, st'.next)
      {
        assert st'.entries[j] == st.entries[j];
      }
    }
  }

  /** The entry loop after n entries: the reactor is the last power entry
    * so far. */
  lemma {:induction false} EntriesReactor(subs: seq<Subsystem>, items: seq<Json>, n: nat)
    requires n <= |items|
    ensures var st := AfterEntries(subs, items, n);
      |st.entries| == n && LastPower(st.entries, st.reactor)
  {
    if n > 0 {
      EntriesReactor(subs, items, n - 1);
      var st := AfterEntries(subs, items, n - 1);
      var st' := AfterEntries(subs, items, n);
      assert st' == EntryStep(st, items[n - 1], n - 1);
      assert forall j :: 0 <= j < n - 1 ==> st'.entries[j] == st.entries[j];
    }
  }

  /** An entry matched against subsystems with the same names is matched
    * against the originals. */
  lemma MatchesByNames(a: seq<Subsystem>, b: seq<Subsystem>, e: SsEntry, item: Json)
    requires NamesKept(a, b)
    ensures EntryMatches(e, item, b) == EntryMatches(e, item, a)
  {
    MatchedByNames(a, b, e.hpIndex, NameOf(item));
    forall c | 0 <= c < |e.childHpIndex| && c < |KidsOf(item)|
      ensures MatchedSlot(e.childHpIndex[c], b, NameOf(KidsOf(item)[c])) == MatchedSlot(e.childHpIndex[c], a, NameOf(KidsOf(item)[c]))
    {
      MatchedByNames(a, b, e.childHpIndex[c], NameOf(KidsOf(item)[c]));
    }
  }

  /** The entry loop after n entries: every entry's slot and its
    * children's slots are given by name in the flat array it started
    * from, and the counter has not gone below the subsystem count. */
  lemma {:induction false} EntriesMatch(subs: seq<Subsystem>, items: seq<Json>, n: nat)
    requires n <= |items|
    ensures var st := AfterEntries(subs, items, n);
      |st.entries| == n && NamesKept(subs, st.subs) && |subs| <= st.next
      && forall j :: 0 <= j < n ==> EntryMatches(st.entries[j], items[j], subs)
  {
    if n > 0 {
      EntriesMatch(subs, items, n - 1);
      var st := AfterEntries(subs, items, n - 1);
      var item := items[n - 1];
      var st' := AfterEntries(subs, items, n);
      assert st' == EntryStep(st, item, n - 1);
      var (hp, next1) := PlaceName(st.subs, NameOf(item), st.next);
      var start := Kids(st.subs, next1, []);
      KidsCount(start, KidsOf(item), hp, |KidsOf(item)|);
      StepMatches(st, item, n - 1);
      MatchesByNames(subs, st.subs, st'.entries[n - 1], item);
      assert NamesKept(subs, st'.subs);
      forall j | 0 <= j < n - 1
        ensures EntryMatches(st'.entries[j], items[j], subs)
      {
        assert st'.entries[j] == st.entries[j];
      }
    }
  }

  /** The entry loop after n entries: each subsystem's parent is the slot
    * of the last entry so far that lists it among its children, or its
    * old parent when none does. */
  lemma {:induction false} EntriesLastParent(subs: seq<Subsystem>, items: seq<Json>, n: nat)
    requires n <= |items|
    ensures var st := AfterEntries(subs, items, n);
      |st.entries| == n && |st.subs| == |subs|
      && forall q :: 0 <= q < |subs| ==> st.subs[q].parentIdx == LastParent(st.entries, q, subs[q].parentIdx)
  {
    if n > 0 {
      EntriesLastParent(subs, items, n - 1);
      var st := AfterEntries(subs, items, n - 1);
      assert |subs| <= st.next by {
        EntriesMatch(subs, items, n - 1);
      }
      var item := items[n - 1];
      var st' := AfterEntries(subs, items, n);
      assert st' == EntryStep(st, item, n - 1);
      var (hp, next1) := PlaceName(st.subs, NameOf(item), st.next);
      assert st.next <= next1;
      var start := Kids(st.subs, next1, []);
      KidsParents(start, KidsOf(item), hp, |KidsOf(item)|);
      var k := AllKids(start, KidsOf(item), hp);
      var e := SsEntry(ParseFormat(Field(Some(item), FormatKey)), hp, k.idx);
      assert st'.entries == st.entries + [e];
      assert st'.entries[..n - 1] == st.entries;
      forall q | 0 <= q < |subs|
        ensures st'.subs[q].parentIdx == LastParent(st'.entries, q, subs[q].parentIdx)
      {
        if q in k.idx {
          assert st'.subs[q].parentIdx == hp;
        } else {
          assert st'.subs[q] == st.subs[q];
        }
      }
    }
  }

  /** The entry loop after n entries: parents set only from the
    * children of the entries so far, each subsystem ending with the slot
    * of the last entry that lists it, or with its old parent. */
  lemma {:induction false} EntriesParents(subs: seq<Subsystem>, items: seq<Json>, n: nat)
    requires n <= |items|
    ensures var st := AfterEntries(subs, items, n);
      |st.entries| == n && NamesKept(subs, st.subs) && ParentsFrom(subs, st.subs, st.entries)
      && forall q :: 0 <= q < |subs| ==> st.subs[q].parentIdx == LastParent(st.entries, q, subs[q].parentIdx)
  {
    EntriesLastParent(subs, items, n);
    if n > 0 {
      EntriesParents(subs, items, n - 1);
      var st := AfterEntries(subs, items, n - 1);
      var item := items[n - 1];
      var (hp, next1) := PlaceName(st.subs, NameOf(item), st.next);
      var kids := Capped(Field(Some(item), ChildrenKey), MaxChildren);
      var start := Kids(st.subs, next1, []);
      KidsShape(start, kids, hp, |kids|);
      var k := AllKids(start, kids, hp);
      var st' := AfterEntries(subs, items, n);
      assert st' == EntryStep(st, item, n - 1);
      assert st'.entries == st.entries + [SsEntry(ParseFormat(Field(Some(item), FormatKey)), hp, k.idx)];
      forall q | 0 <= q < |st'.subs|
        ensures st'.subs[q].parentIdx == subs[q].parentIdx
          || exists j :: 0 <= j < n && q in st'.entries[j].childHpIndex && st'.subs[q].parentIdx == st'.entries[j].hpIndex
      {
        if st'.subs[q].parentIdx != st.subs[q].parentIdx {
          assert q in st'.entries[n - 1].childHpIndex;
        } else if st.subs[q].parentIdx != subs[q].parentIdx {
          var j :| 0 <= j < n - 1 && q in st.entries[j].childHpIndex && st.subs[q].parentIdx == st.entries[j].hpIndex;
          assert st'.entries[j] == st.entries[j];
        }
      }
    }
  }

  /** load_serialization_list as a whole, for a ship whose subsystem
    * count is within MaxSubsystems as load_ship leaves it: at most
    * MaxEntries entries, in list order, each with its format and at most
    * MaxChildren children; every slot is a subsystem's index or a fresh
    * one; the slot total is where the counter stopped, between the
    * subsystem count and MaxSubsystems; an entry or child some subsystem
    * names takes the index of the first subsystem with that name; the
    * reactor is the last power entry; names are kept, and each subsystem
    * ends with the slot of the last entry listing it as a child, or with
    * its old parent. */
  lemma ListLoaded(subs: seq<Subsystem>, arr: Option<Json>)
    requires |subs| <= MaxSubsystems
    ensures var (l, after) := LoadList(subs, arr);
      |l.entries| == (if ArrayLen(arr) > MaxEntries then MaxEntries else ArrayLen(arr))
      && |subs| <= l.totalHpSlots <= MaxSubsystems
      && (forall j :: 0 <= j < |l.entries| ==>
            (ArrayGet(arr, j).Some?
             && EntryFits(l.entries[j], ArrayGet(arr, j).value, |subs|, l.totalHpSlots)
             && EntryMatches(l.entries[j], ArrayGet(arr, j).value, subs)))
      && LastPower(l.entries, l.reactorEntryIdx)
      && NamesKept(subs, after) && ParentsFrom(subs, after, l.entries)
      && (forall q :: 0 <= q < |subs| ==> after[q].parentIdx == LastParent(l.entries, q, subs[q].parentIdx))
  {
    var items := Capped(arr, MaxEntries);
    EntriesShape(subs, items, |items|);
    EntriesReactor(subs, items, |items|);
    EntriesParents(subs, items, |items|);
    EntriesMatch(subs, items, |items|);
  }

  /** Without a list, or with an empty one: no entries, no reactor, and
    * exactly the flat subsystems' slots. */
  lemma NoList(subs: seq<Subsystem>, arr: Option<Json>)
    requires ArrayLen(arr) == 0
    ensures LoadList(subs, arr) == (SsList([], |subs|, -1), subs)
  {
    assert Capped(arr, MaxEntries) == [];
  }

  /** With all MaxSubsystems subsystems loaded, the counter is already
    * saturated: two nameless entries both get slot MaxSubsystems, one
    * past the flat array. */
  lemma SaturatedSlotShared()
    ensures var subs := seq(MaxSubsystems, _ => Subsystem([], -1));
      LoadList(subs, Some(Array([Object([]), Object([])]))).0
        == SsList([SsEntry(FormatBase, 64, []), SsEntry(FormatBase, 64, [])], 64, -1)
  {
    var subs := seq(MaxSubsystems, _ => Subsystem([], -1));
    var items := [Object([]), Object([])];
    assert Capped(Some(Array(items)), MaxEntries) == items;
    assert Capped(Field(Some(Object([])), ChildrenKey), MaxChildren) == [];
    assert NameOf(Object([])) == None;
    assert ParseFormat(Field(Some(Object([])), FormatKey)) == FormatBase;
    assert AfterEntries(subs, items, 1) == Load(subs, 64, [SsEntry(FormatBase, 64, [])], -1);
  }

  /** bc_registry_get_ship: a ship exactly for an index within the
    * loaded ones. */
  function GetShip(ships: seq<ShipClass>, index: int): (r: Option<ShipClass>)
    ensures r.Some? <==> 0 <= index < |ships|
    ensures r.Some? ==> r.value == ships[index]
  {
    if index < 0 || index >= |ships| then None else Some(ships[index])
  }

  /** The first ship of the species, or -1. */
  function FirstSpecies(ships: seq<ShipClass>, species: u16, i: nat): (r: int)
    requires i <= |ships|
    ensures r == -1 || (i <= r < |ships| && ships[r].speciesId == species)
    decreases |ships| - i
  {
    if i == |ships| then -1
    else if ships[i].speciesId == species then i
    else FirstSpecies(ships, species, i + 1)
  }

  /** FirstSpecies gives the first ship of the species, and -1 exactly
    * when none is of it. */
  lemma {:induction false} FirstSpeciesFirst(ships: seq<ShipClass>, species: u16, i: nat)
    requires i <= |ships|
    ensures FirstSpecies(ships, species, i) == -1 <==> forall j :: i <= j < |ships| ==> ships[j].speciesId != species
    ensures forall j :: i <= j < FirstSpecies(ships, species, i) ==> ships[j].speciesId != species
    decreases |ships| - i
  {
    if i < |ships| && ships[i].speciesId != species {
      FirstSpeciesFirst(ships, species, i + 1);
    }
  }

  /** bc_registry_find_ship_index */
  method FindShipIndex(ships: seq<ShipClass>, species: u16) returns (r: int)
    ensures r == FirstSpecies(ships, species, 0)
  {
    var i := 0;
    while i < |ships|
      invariant i <= |ships|
      invariant FirstSpecies(ships, species, 0) == FirstSpecies(ships, species, i)
    {
      if ships[i].speciesId == species {
        return i;
      }
      i := i + 1;
    }
    return -1;
  }

  /** bc_registry_find_ship: the same first ship as FindShipIndex. */
  method FindShip(ships: seq<ShipClass>, species: u16) returns (r: Option<ShipClass>)
    ensures r.Some? <==> FirstSpecies(ships, species, 0) >= 0
    ensures r.Some? ==> r.value == ships[FirstSpecies(ships, species, 0)]
  {
    var i := 0;
    while i < |ships|
      invariant i <= |ships|
      invariant FirstSpecies(ships, species, 0) == FirstSpecies(ships, species, i)
    {
      if ships[i].speciesId == species {
        return Some(ships[i]);
      }
      i := i + 1;
    }
    return None;
  }

  /** The first projectile of the network type, or -1. */
  function FirstProjectile(projs: seq<Projectile>, netType: u8, i: nat): (r: int)
    requires i <= |projs|
    ensures r == -1 || (i <= r < |projs| && projs[r].netTypeId == netType)
    decreases |projs| - i
  {
    if i == |projs| then -1
    else if projs[i].netTypeId == netType then i
    else FirstProjectile(projs, netType, i + 1)
  }

  lemma {:induction false} FirstProjectileFirst(projs: seq<Projectile>, netType: u8, i: nat)
    requires i <= |projs|
    ensures FirstProjectile(projs, netType, i) == -1 <==> forall j :: i <= j < |projs| ==> projs[j].netTypeId != netType
    ensures forall j :: i <= j < FirstProjectile(projs, netType, i) ==> projs[j].netTypeId != netType
    decreases |projs| - i
  {
    if i < |projs| && projs[i].netTypeId != netType {
      FirstProjectileFirst(projs, netType, i + 1);
    }
  }

  /** bc_registry_get_projectile */
  method GetProjectile(projs: seq<Projectile>, netType: u8) returns (r: Option<Projectile>)
    ensures r.Some? <==> FirstProjectile(projs, netType, 0) >= 0
    ensures r.Some? ==> r.value == projs[FirstProjectile(projs, netType, 0)]
  {
    var i := 0;
    while i < |projs|
      invariant i <= |projs|
      invariant FirstProjectile(projs, netType, 0) == FirstProjectile(projs, netType, i)
    {
      if projs[i].netTypeId == netType {
        return Some(projs[i]);
      }
      i := i + 1;
    }
    return None;
  }
}
