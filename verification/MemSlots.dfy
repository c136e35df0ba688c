/** The table of memory slots: sections of guest memory cut into chunks, registered and removed in
    transactions. */
module MemSlots {
  import opened Wrappers
  import opened Arithmetic

  /** A slot with size 0 is free; ram is the host address of its first byte. */
  datatype Slot = Slot(start: nat, size: nat, ram: nat)

  /** A section of the flat view; ram is the host address of its first byte. */
  datatype Section = Section(start: nat, size: nat, ram: nat, isRam: bool, writable: bool)

  /** Constants of the accelerator: page size, largest slot, and whether read-only slots exist. */
  datatype Config = Config(psize: nat, maxSlot: nat, readonlyAllowed: bool)

  predicate GoodConfig(c: Config) {
    c.psize > 0 && c.maxSlot > 0
  }

  // --------------------------------------------------------------- alignment

  /** kvm_align_section: the first whole page and the length in whole pages. */
  function AlignSection(s: Section, psize: nat): (nat, nat)
    requires psize > 0
  {
    var aligned := Div(s.start + psize - 1, psize) * psize;
    var delta := aligned - s.start;
    if delta > s.size then (aligned, 0) else (aligned, RoundDown(s.size - delta, psize))
  }

  /** The aligned part consists of exactly the pages that lie wholly inside the section. */
  lemma AlignedIsExact(s: Section, psize: nat, page: nat)
    requires psize > 0 && page % psize == 0
    ensures
      var (start, size) := AlignSection(s, psize);
      && start % psize == 0 && size % psize == 0 && s.start <= start
      && (size > 0 ==> start + size <= s.start + s.size)
      && (start <= page && page + psize <= start + size <==> s.start <= page && page + psize <= s.start + s.size)
  {
    var (start, size) := AlignSection(s, psize);
    Multiple(Div(s.start + psize - 1, psize), psize);
    ApartIf(page, start, psize);
    NextMultiple(page, psize);
    if start - s.start <= s.size {
      var rest := s.size - (start - s.start);
      WholePart(rest, psize);
      SumMultiple(start, size, psize);
      ApartIf(start + size, page + psize, psize);
    }
  }

  lemma WholePart(x: nat, d: nat)
    requires d > 0
    ensures RoundDown(x, d) % d == 0 && x < RoundDown(x, d) + d
  {
    LessFactor(-1, x / d, d);
    Multiple(x / d, d);
    assert x - x % d == x / d * d;
  }

  lemma SumMultiple(x: nat, y: nat, d: nat)
    requires d > 0 && x % d == 0 && y % d == 0
    ensures (x + y) % d == 0
  {
    var a, b := Div(x, d), Div(y, d);
    assert x == a * d && y == b * d;
    Distribute(a, b, d);
    Multiple(a + b, d);
  }

  // ------------------------------------------------------------------ chunks

  /** The slots for an aligned range: full-size ones and a rest. */
  function Chunks(start: nat, size: nat, ram: nat, max: nat): seq<Slot>
    requires max > 0
    decreases size
  {
    if size == 0 then []
    else
      var n := if max < size then max else size;
      [Slot(start, n, ram)] + Chunks(start + n, size - n, ram + n, max)
  }

  predicate Holds(s: Slot, x: nat) {
    s.start <= x < s.start + s.size
  }

  ghost predicate ChunkOk(s: Slot, start: nat, size: nat, ram: nat, max: nat) {
    && 0 < s.size <= max && start <= s.start && s.start + s.size <= start + size
    && s.ram - s.start == ram - start
  }

  lemma ChunksStep(start: nat, size: nat, ram: nat, max: nat)
    requires max > 0 && size > 0
    ensures
      var n := if max < size then max else size;
      var c, rest := Chunks(start, size, ram, max), Chunks(start + n, size - n, ram + n, max);
      c == [Slot(start, n, ram)] + rest && c[0] == Slot(start, n, ram) && c[1..] == rest && |c| == |rest| + 1
  {
  }

  lemma {:induction false} ChunksShape(start: nat, size: nat, ram: nat, max: nat)
    requires max > 0
    ensures
      var c := Chunks(start, size, ram, max);
      && (forall i :: 0 <= i < |c| ==> ChunkOk(c[i], start, size, ram, max))
      && (forall i, j :: 0 <= i < j < |c| ==> c[i].start + c[i].size <= c[j].start)
    decreases size
  {
    if size > 0 {
      var n := if max < size then max else size;
      ChunksStep(start, size, ram, max);
      ChunksShape(start + n, size - n, ram + n, max);
      var c, rest := Chunks(start, size, ram, max), Chunks(start + n, size - n, ram + n, max);
      hide Chunks;
      forall i | 0 <= i < |c| ensures ChunkOk(c[i], start, size, ram, max) {
        if i > 0 { assert c[i] == rest[i - 1]; }
      }
      forall i, j | 0 <= i < j < |c| ensures c[i].start + c[i].size <= c[j].start {
        assert c[j] == rest[j - 1];
        if i > 0 { assert c[i] == rest[i - 1]; }
      }
    }
  }

  lemma {:induction false} ChunksCover(start: nat, size: nat, ram: nat, max: nat, x: nat)
    requires max > 0 && start <= x < start + size
    ensures exists s :: s in Chunks(start, size, ram, max) && Holds(s, x)
    decreases size
  {
    var n := if max < size then max else size;
    ChunksStep(start, size, ram, max);
    var c := Chunks(start, size, ram, max);
    if x < start + n {
      assert c[0] in c && Holds(c[0], x);
    } else {
      ChunksCover(start + n, size - n, ram + n, max, x);
      var s :| s in Chunks(start + n, size - n, ram + n, max) && Holds(s, x);
      assert s in c;
    }
  }

  /** A range is tiled exactly by its chunks, with one linear map to host memory: every address of
      it is in exactly one chunk, which sends it where the section does. */
  lemma ChunksTile(start: nat, size: nat, ram: nat, max: nat, x: nat)
    requires max > 0
    ensures
      var c := Chunks(start, size, ram, max);
      && (start <= x < start + size <==> exists i :: 0 <= i < |c| && Holds(c[i], x))
      && (forall i :: 0 <= i < |c| && Holds(c[i], x) ==> c[i].ram + (x - c[i].start) == ram + (x - start))
      && (forall i, j :: 0 <= i < j < |c| ==> !(Holds(c[i], x) && Holds(c[j], x)))
  {
    ChunksShape(start, size, ram, max);
    if start <= x < start + size {
      ChunksCover(start, size, ram, max, x);
      var c := Chunks(start, size, ram, max);
      var s :| s in c && Holds(s, x);
      var i :| 0 <= i < |c| && c[i] == s;
    }
    hide Chunks;
    forall i | 0 <= i < |Chunks(start, size, ram, max)|
      ensures ChunkOk(Chunks(start, size, ram, max)[i], start, size, ram, max)
    {
    }
  }

  // --------------------------------------------------------------- the table

  /** slots has a fixed length; used is nr_used_slots. */
  datatype Table = Table(slots: seq<Slot>, used: int)

  predicate Clash(a: Slot, b: Slot) {
    a.size > 0 && b.size > 0 && a.start < b.start + b.size && b.start < a.start + a.size
  }

  ghost predicate Disjoint(slots: seq<Slot>) {
    forall i, j :: 0 <= i < |slots| && 0 <= j < |slots| && i != j ==> !Clash(slots[i], slots[j])
  }

  function CountUsed(slots: seq<Slot>): (n: nat)
    ensures n <= |slots|
  {
    if slots == [] then 0 else CountUsed(slots[..|slots| - 1]) + (if slots[|slots| - 1].size > 0 then 1 else 0)
  }

  ghost function Active(slots: seq<Slot>): set<Slot> {
    set s | s in slots && s.size > 0
  }

  lemma {:induction false} CountUpdate(slots: seq<Slot>, i: nat, s: Slot)
    requires i < |slots|
    ensures CountUsed(slots[i := s])
      == CountUsed(slots) - (if slots[i].size > 0 then 1 else 0) + (if s.size > 0 then 1 else 0)
  {
    var k := |slots| - 1;
    if i == k {
      assert slots[i := s][..k] == slots[..k];
    } else {
      assert slots[i := s][..k] == slots[..k][i := s];
      CountUpdate(slots[..k], i, s);
    }
  }

  /** kvm_get_free_slot. */
  function FindFree(slots: seq<Slot>, i: nat): (r: Option<nat>)
    ensures r.Some? ==>
      i <= r.value < |slots| && slots[r.value].size == 0 && forall j :: i <= j < r.value ==> slots[j].size > 0
    ensures r.None? ==> forall j :: i <= j < |slots| ==> slots[j].size > 0
    decreases |slots| - i
  {
    if i >= |slots| then None
    else if slots[i].size == 0 then Some(i)
    else FindFree(slots, i + 1)
  }

  /** kvm_lookup_matching_slot. */
  function FindMatch(slots: seq<Slot>, i: nat, start: nat, size: nat): (r: Option<nat>)
    ensures r.Some? ==> i <= r.value < |slots| && slots[r.value].start == start && slots[r.value].size == size
    ensures r.None? ==> forall j :: i <= j < |slots| ==> slots[j].start != start || slots[j].size != size
    decreases |slots| - i
  {
    if i >= |slots| then None
    else if slots[i].start == start && slots[i].size == size then Some(i)
    else FindMatch(slots, i + 1, start, size)
  }

  /** Register one chunk after the other; None is the abort when no slot is free. */
  function AddChunks(t: Table, start: nat, size: nat, ram: nat, max: nat): Option<Table>
    requires max > 0
    decreases size
  {
    if size == 0 then Some(t)
    else
      var n := if max < size then max else size;
      match FindFree(t.slots, 0)
      case None => None
      case Some(i) => AddChunks(Table(t.slots[i := Slot(start, n, ram)], t.used + 1), start + n, size - n, ram + n, max)
  }

  /** Unregister one chunk after the other, as far as they are found. */
  function RemoveChunks(t: Table, start: nat, size: nat, max: nat): Table
    requires max > 0
    decreases size
  {
    if size == 0 then t
    else
      var n := if max < size then max else size;
      match FindMatch(t.slots, 0, start, n)
      case None => t
      case Some(i) =>
        RemoveChunks(Table(t.slots[i := t.slots[i].(size := 0)], t.used - 1), start + n, size - n, max)
  }

  /** What to do with a section: None to ignore it, else whether to add. */
  function Decide(c: Config, s: Section, romd: bool, add: bool): Option<bool> {
    if s.isRam then Some(add)
    else if s.writable || !c.readonlyAllowed then None
    else Some(add && romd)
  }

  /** kvm_set_phys_mem; None is the abort. */
  function SetPhysMem(t: Table, c: Config, s: Section, romd: bool, add: bool): Option<Table>
    requires GoodConfig(c)
  {
    var (start, size) := AlignSection(s, c.psize);
    if size == 0 then Some(t)
    else match Decide(c, s, romd, add)
      case None => Some(t)
      case Some(true) => AddChunks(t, start, size, s.ram + (start - s.start), c.maxSlot)
      case Some(false) => Some(RemoveChunks(t, start, size, c.maxSlot))
  }

  // ------------------------------------------------------------ what they do

  /** Memory that the guest reads without an exit: RAM, or read-only memory where read-only slots
      exist, as long as the device is in the mode in which it reads as memory. */
  predicate Backed(c: Config, s: Section, romd: bool) {
    s.isRam || (!s.writable && c.readonlyAllowed && romd)
  }

  predicate CanBeBacked(c: Config, s: Section) {
    s.isRam || (!s.writable && c.readonlyAllowed)
  }

  predicate Apart1(s: Slot, start: nat, size: nat) {
    s.start + s.size <= start || start + size <= s.start
  }

  /** No active slot reaches into the range. */
  ghost predicate RangeFree(slots: seq<Slot>, start: nat, size: nat) {
    forall i :: 0 <= i < |slots| ==> slots[i].size > 0 ==> Apart1(slots[i], start, size)
  }

  lemma AddOne(slots: seq<Slot>, i: nat, s: Slot)
    requires Disjoint(slots) && i < |slots| && slots[i].size == 0 && s.size > 0 && RangeFree(slots, s.start, s.size)
    ensures Disjoint(slots[i := s]) && Active(slots[i := s]) == Active(slots) + {s}
    ensures s !in Active(slots) && CountUsed(slots[i := s]) == CountUsed(slots) + 1
  {
    CountUpdate(slots, i, s);
    var slots' := slots[i := s];
    forall x ensures x in Active(slots') <==> x in Active(slots) + {s} {
      if x in Active(slots) {
        var k :| 0 <= k < |slots| && slots[k] == x;
        assert slots'[k] == x;
      }
      if x == s { assert slots'[i] == s; }
    }
  }

  lemma {:induction false} FullTable(slots: seq<Slot>)
    ensures CountUsed(slots) == |slots| <==> forall i :: 0 <= i < |slots| ==> slots[i].size > 0
  {
    if slots != [] {
      var k := |slots| - 1;
      FullTable(slots[..k]);
      assert forall i :: 0 <= i < k ==> slots[..k][i] == slots[i];
    }
  }

  ghost function Elems(c: seq<Slot>): set<Slot> {
    set s | s in c
  }

  lemma ElemsCons(s: Slot, rest: seq<Slot>)
    ensures Elems([s] + rest) == {s} + Elems(rest)
  {
  }

  /** Adding a range registers exactly its chunks; it succeeds exactly if enough slots are free. */
  lemma {:induction false} AddChunksIs(t: Table, start: nat, size: nat, ram: nat, max: nat)
    requires max > 0 && Disjoint(t.slots) && RangeFree(t.slots, start, size)
    ensures
      var c := Chunks(start, size, ram, max);
      var r := AddChunks(t, start, size, ram, max);
      && (r.Some? <==> CountUsed(t.slots) + |c| <= |t.slots|)
      && (r.Some? ==>
           && |r.value.slots| == |t.slots| && Disjoint(r.value.slots)
           && Active(r.value.slots) == Active(t.slots) + Elems(c)
           && CountUsed(r.value.slots) == CountUsed(t.slots) + |c|
           && r.value.used == t.used + |c|)
    decreases size
  {
    hide CountUsed, Active, Disjoint, FindFree, Elems;
    if size == 0 {
      NoElems();
    } else {
      var n := if max < size then max else size;
      ChunksStep(start, size, ram, max);
      FullTable(t.slots);
      var f := FindFree(t.slots, 0);
      if f.Some? {
        var s := Slot(start, n, ram);
        var slots' := t.slots[f.value := s];
        AddOne(t.slots, f.value, s);
        assert RangeFree(slots', start + n, size - n);
        AddChunksIs(Table(slots', t.used + 1), start + n, size - n, ram + n, max);
        ElemsCons(s, Chunks(start + n, size - n, ram + n, max));
      }
    }
  }

  /** A slot of a disjoint table is found at its own place only. */
  lemma RemoveOne(slots: seq<Slot>, i: nat)
    requires Disjoint(slots) && i < |slots| && slots[i].size > 0
    ensures var slots' := slots[i := slots[i].(size := 0)];
      && Disjoint(slots') && Active(slots') == Active(slots) - {slots[i]}
      && CountUsed(slots') == CountUsed(slots) - 1
  {
    var slots' := slots[i := slots[i].(size := 0)];
    CountUpdate(slots, i, slots[i].(size := 0));
    forall x ensures x in Active(slots') <==> x in Active(slots) - {slots[i]} {
      if x in Active(slots) && x != slots[i] {
        var k :| 0 <= k < |slots| && slots[k] == x;
        assert slots'[k] == x;
      }
      if x in Active(slots') {
        var k :| 0 <= k < |slots'| && slots'[k] == x;
        assert k != i && slots[k] == x;
        assert !Clash(slots[k], slots[i]);
      }
    }
  }

  /** Removing a range that is registered with these chunks unregisters exactly them. */
  lemma {:induction false} RemoveChunksIs(t: Table, start: nat, size: nat, ram: nat, max: nat)
    requires max > 0 && Disjoint(t.slots) && Elems(Chunks(start, size, ram, max)) <= Active(t.slots)
    ensures
      var c := Chunks(start, size, ram, max);
      var r := RemoveChunks(t, start, size, max);
      && |r.slots| == |t.slots| && Disjoint(r.slots)
      && Active(r.slots) == Active(t.slots) - Elems(c)
      && CountUsed(r.slots) == CountUsed(t.slots) - |c|
      && r.used == t.used - |c|
    decreases size
  {
    hide CountUsed, Disjoint, FindMatch, Active;
    if size == 0 {
      assert Elems(Chunks(start, size, ram, max)) == {};
    } else {
      var n := if max < size then max else size;
      var s, rest := Slot(start, n, ram), Chunks(start + n, size - n, ram + n, max);
      ChunksStep(start, size, ram, max);
      hide Chunks;
      var c := Chunks(start, size, ram, max);
      ElemsCons(s, rest);
      assert c == [s] + rest;
      hide Elems;
      assert s in Active(t.slots);
      MatchIs(t.slots, s);
      var i := FindMatch(t.slots, 0, start, n).value;
      RemoveOne(t.slots, i);
      NotInRest(start, size, ram, max);
      assert s.size > 0;
      RemoveChunksIs(Table(t.slots[i := t.slots[i].(size := 0)], t.used - 1), start + n, size - n, ram + n, max);
    }
  }

  lemma MatchIs(slots: seq<Slot>, s: Slot)
    requires Disjoint(slots) && s in Active(slots)
    ensures var r := FindMatch(slots, 0, s.start, s.size); r.Some? && slots[r.value] == s
  {
    var k :| 0 <= k < |slots| && slots[k] == s;
    var r := FindMatch(slots, 0, s.start, s.size);
    assert r.Some?;
    assert r.value != k ==> !Clash(slots[r.value], slots[k]);
  }

  lemma NotInRest(start: nat, size: nat, ram: nat, max: nat)
    requires max > 0 && size > 0
    ensures
      var n := if max < size then max else size;
      Slot(start, n, ram) !in Elems(Chunks(start + n, size - n, ram + n, max))
  {
    var n := if max < size then max else size;
    ChunksShape(start + n, size - n, ram + n, max);
  }

  /** Nothing matching is registered: removing changes nothing. */
  lemma RemoveNothing(t: Table, start: nat, size: nat, max: nat)
    requires max > 0 && RangeFree(t.slots, start, size)
    ensures RemoveChunks(t, start, size, max) == t
  {
  }

  /** Deleting a section undoes its add: the same slots are active, and as many are used. */
  lemma DeleteUndoesAdd(t: Table, c: Config, s: Section, romd: bool, romd': bool)
    requires GoodConfig(c) && Disjoint(t.slots) && Backed(c, s, romd)
    requires var (start, size) := AlignSection(s, c.psize); RangeFree(t.slots, start, size)
    requires SetPhysMem(t, c, s, romd, true).Some?
    ensures
      var t1 := SetPhysMem(t, c, s, romd, true).value;
      var r := SetPhysMem(t1, c, s, romd', false);
      && r.Some? && Active(r.value.slots) == Active(t.slots) && r.value.used == t.used && Disjoint(r.value.slots)
  {
    var (start, size) := AlignSection(s, c.psize);
    if size > 0 {
      AlignedStart(s, c.psize);
      var ram := s.ram + (start - s.start);
      UndoChunks(t, start, size, ram, c.maxSlot);
    }
    hide AddChunks, RemoveChunks, AlignSection, Active, Disjoint;
  }

  lemma UndoChunks(t: Table, start: nat, size: nat, ram: nat, max: nat)
    requires max > 0 && Disjoint(t.slots) && RangeFree(t.slots, start, size)
      && AddChunks(t, start, size, ram, max).Some?
    ensures
      var r := RemoveChunks(AddChunks(t, start, size, ram, max).value, start, size, max);
      Active(r.slots) == Active(t.slots) && r.used == t.used && Disjoint(r.slots)
  {
    hide AddChunks, RemoveChunks, Active, Disjoint, RangeFree, CountUsed, Chunks, Elems;
    AddChunksIs(t, start, size, ram, max);
    ChunksFresh(t.slots, start, size, ram, max);
    RemoveChunksIs(AddChunks(t, start, size, ram, max).value, start, size, ram, max);
    var a, e := Active(t.slots), Elems(Chunks(start, size, ram, max));
    assert a + e - e == a;
  }

  lemma AlignedStart(s: Section, psize: nat)
    requires psize > 0
    ensures s.start <= AlignSection(s, psize).0
  {
  }

  lemma ChunksFresh(slots: seq<Slot>, start: nat, size: nat, ram: nat, max: nat)
    requires max > 0 && RangeFree(slots, start, size)
    ensures Active(slots) !! Elems(Chunks(start, size, ram, max))
  {
    forall s | s in Active(slots) ensures s !in Elems(Chunks(start, size, ram, max)) {
      var i :| 0 <= i < |slots| && slots[i] == s;
      assert Apart1(slots[i], start, size);
      if s in Chunks(start, size, ram, max) { ChunkWithin(start, size, ram, max, s); }
    }
  }

  lemma ChunkWithin(start: nat, size: nat, ram: nat, max: nat, s: Slot)
    requires max > 0 && s in Chunks(start, size, ram, max)
    ensures ChunkOk(s, start, size, ram, max)
  {
    ChunksShape(start, size, ram, max);
    hide Chunks;
  }

  // ------------------------------------------------------------ transactions

  /** What is registered: each backed section of the current view, and nothing else. */
  ghost function Registered(c: Config, view: set<Section>): set<Slot>
    requires GoodConfig(c)
  {
    set s, k | s in view && k in SectionSlots(c, s) :: k
  }

  function SectionSlots(c: Config, s: Section): seq<Slot>
    requires GoodConfig(c)
  {
    var (start, size) := AlignSection(s, c.psize);
    if size == 0 then [] else Chunks(start, size, s.ram + (start - s.start), c.maxSlot)
  }

  predicate Separate(s: Section, u: Section) {
    s.start + s.size <= u.start || u.start + u.size <= s.start
  }

  /** The flat view keeps its sections apart. */
  ghost predicate Flat(view: set<Section>) {
    forall s, u :: s in view && u in view && s != u ==> Separate(s, u)
  }

  ghost predicate TableOk(t: Table, c: Config, view: set<Section>)
    requires GoodConfig(c)
  {
    && Disjoint(t.slots) && t.used == CountUsed(t.slots)
    && Active(t.slots) == Registered(c, view)
  }

  /** Where a registered slot comes from. */
  lemma Origin(t: Table, c: Config, view: set<Section>, i: nat)
    requires GoodConfig(c) && TableOk(t, c, view) && i < |t.slots| && t.slots[i].size > 0
    ensures exists s :: s in view && t.slots[i] in SectionSlots(c, s)
  {
    assert t.slots[i] in Active(t.slots);
  }

  lemma SlotWithin(c: Config, s: Section, k: Slot)
    requires GoodConfig(c) && k in SectionSlots(c, s)
    ensures k.size > 0 && s.start <= k.start && k.start + k.size <= s.start + s.size
  {
    var (start, size) := AlignSection(s, c.psize);
    AlignedStart(s, c.psize);
    AlignedIsExact(s, c.psize, 0);
    ChunkWithin(start, size, s.ram + (start - s.start), c.maxSlot, k);
    hide AlignSection, Chunks;
  }

  /** A section apart from the whole view finds its range free. */
  lemma ViewLeavesFree(t: Table, c: Config, view: set<Section>, s: Section)
    requires GoodConfig(c) && TableOk(t, c, view) && forall u :: u in view ==> Separate(s, u)
    ensures var (start, size) := AlignSection(s, c.psize); size > 0 ==> RangeFree(t.slots, start, size)
  {
    var (start, size) := AlignSection(s, c.psize);
    AlignedStart(s, c.psize);
    AlignedIsExact(s, c.psize, 0);
    hide AlignSection, SectionSlots, TableOk;
    forall i | 0 <= i < |t.slots| && t.slots[i].size > 0 && size > 0 ensures Apart1(t.slots[i], start, size) {
      Origin(t, c, view, i);
      var u :| u in view && t.slots[i] in SectionSlots(c, u);
      SlotWithin(c, u, t.slots[i]);
    }
  }

  lemma AddKeeps(t: Table, c: Config, view: set<Section>, s: Section, romd: bool)
    requires GoodConfig(c) && TableOk(t, c, view) && forall u :: u in view ==> Separate(s, u)
    requires Backed(c, s, romd) && SetPhysMem(t, c, s, romd, true).Some?
    ensures TableOk(SetPhysMem(t, c, s, romd, true).value, c, view + {s})
    ensures |SetPhysMem(t, c, s, romd, true).value.slots| == |t.slots|
  {
    hide AlignSection, AddChunks, Registered, Active, Disjoint, CountUsed, Chunks, Elems, RangeFree, Separate;
    var (start, size) := AlignSection(s, c.psize);
    RegisteredAdd(c, view, s);
    ViewLeavesFree(t, c, view, s);
    if size > 0 {
      AlignedStart(s, c.psize);
      AddChunksIs(t, start, size, s.ram + (start - s.start), c.maxSlot);
    } else {
      NoElems();
    }
  }

  lemma RegisteredAdd(c: Config, view: set<Section>, s: Section)
    requires GoodConfig(c)
    ensures Registered(c, view + {s}) == Registered(c, view) + Elems(SectionSlots(c, s))
  {
    hide SectionSlots;
  }

  lemma RemoveKeeps(t: Table, c: Config, view: set<Section>, s: Section, romd: bool)
    requires GoodConfig(c) && TableOk(t, c, view) && Flat(view) && s in view && CanBeBacked(c, s)
    ensures SetPhysMem(t, c, s, romd, false).Some?
    ensures TableOk(SetPhysMem(t, c, s, romd, false).value, c, view - {s})
    ensures |SetPhysMem(t, c, s, romd, false).value.slots| == |t.slots|
  {
    hide AlignSection, RemoveChunks, Registered, Active, Disjoint, CountUsed, Chunks, Elems;
    var (start, size) := AlignSection(s, c.psize);
    RegisteredAdd(c, view - {s}, s);
    assert view - {s} + {s} == view;
    RegisteredApart(c, view - {s}, s);
    if size > 0 {
      AlignedStart(s, c.psize);
      RemoveChunksIs(t, start, size, s.ram + (start - s.start), c.maxSlot);
    }
    if size == 0 { NoElems(); }
    var a, e := Registered(c, view - {s}), Elems(SectionSlots(c, s));
    assert a + e - e == a;
  }

  lemma NoElems()
    ensures Elems([]) == {}
  {
  }

  lemma RegisteredApart(c: Config, view: set<Section>, s: Section)
    requires GoodConfig(c) && forall u :: u in view ==> Separate(s, u)
    ensures Registered(c, view) !! Elems(SectionSlots(c, s))
  {
    hide SectionSlots;
    forall k | k in Registered(c, view) ensures k !in Elems(SectionSlots(c, s)) {
      var u :| u in view && k in SectionSlots(c, u);
      SlotWithin(c, u, k);
      if k in SectionSlots(c, s) { SlotWithin(c, s, k); }
    }
  }

  /** A section with the romd mode of its region at the time of the call. */
  type Update = (Section, bool)

  function DelAll(t: Table, c: Config, dels: seq<Update>): Table
    requires GoodConfig(c)
    decreases |dels|
  {
    if dels == [] then t
    else
      match SetPhysMem(t, c, dels[0].0, dels[0].1, false)
      case Some(t1) => DelAll(t1, c, dels[1..])
      case None => t
  }

  function AddAll(t: Table, c: Config, adds: seq<Update>): Option<Table>
    requires GoodConfig(c)
    decreases |adds|
  {
    if adds == [] then Some(t)
    else
      match SetPhysMem(t, c, adds[0].0, adds[0].1, true)
      case Some(t1) => AddAll(t1, c, adds[1..])
      case None => None
  }

  /** kvm_region_commit: all removals, then all additions. */
  function Commit(t: Table, c: Config, dels: seq<Update>, adds: seq<Update>): Option<Table>
    requires GoodConfig(c)
  {
    AddAll(DelAll(t, c, dels), c, adds)
  }

  /** The sections that are registered after the removals, and after the additions. */
  function ViewDel(view: set<Section>, dels: seq<Update>): set<Section>
    decreases |dels|
  {
    if dels == [] then view else ViewDel(view - {dels[0].0}, dels[1..])
  }

  function ViewAdd(view: set<Section>, c: Config, adds: seq<Update>): set<Section>
    decreases |adds|
  {
    if adds == [] then view
    else ViewAdd(if Backed(c, adds[0].0, adds[0].1) then view + {adds[0].0} else view, c, adds[1..])
  }

  /** What the memory core promises: it removes sections of the view, or ones apart from it that
      were never registered, and adds sections apart from all that are left. */
  ghost predicate LegalDels(view: set<Section>, dels: seq<Update>)
    decreases |dels|
  {
    dels != [] ==>
      && (dels[0].0 in view || forall u :: u in view ==> Separate(dels[0].0, u))
      && LegalDels(view - {dels[0].0}, dels[1..])
  }

  ghost predicate LegalAdds(view: set<Section>, c: Config, adds: seq<Update>)
    decreases |adds|
  {
    adds != [] ==>
      && (forall u :: u in view ==> Separate(adds[0].0, u))
      && LegalAdds(ViewAdd(view, c, adds[..1]), c, adds[1..])
  }

  /** The view keeps its sections apart and holds only what can be backed. */
  ghost predicate ViewOk(c: Config, view: set<Section>) {
    Flat(view) && forall s :: s in view ==> CanBeBacked(c, s)
  }

  lemma DelOne(t: Table, c: Config, view: set<Section>, u: Update)
    requires GoodConfig(c) && TableOk(t, c, view) && ViewOk(c, view)
    requires u.0 in view || forall v :: v in view ==> Separate(u.0, v)
    ensures
      var r := SetPhysMem(t, c, u.0, u.1, false);
      r.Some? && TableOk(r.value, c, view - {u.0}) && ViewOk(c, view - {u.0})
  {
    if u.0 in view {
      RemoveKeeps(t, c, view, u.0, u.1);
    } else {
      ViewLeavesFree(t, c, view, u.0);
      assert view - {u.0} == view;
      var (start, size) := AlignSection(u.0, c.psize);
      if size > 0 { RemoveNothing(t, start, size, c.maxSlot); }
    }
    hide TableOk, AlignSection, RemoveChunks;
  }

  lemma AddOneSection(t: Table, c: Config, view: set<Section>, u: Update)
    requires GoodConfig(c) && TableOk(t, c, view) && ViewOk(c, view)
    requires forall v :: v in view ==> Separate(u.0, v)
    ensures
      var r := SetPhysMem(t, c, u.0, u.1, true);
      var view' := if Backed(c, u.0, u.1) then view + {u.0} else view;
      r.Some? ==> TableOk(r.value, c, view') && ViewOk(c, view')
  {
    hide TableOk, AddChunks, RemoveChunks;
    if Backed(c, u.0, u.1) {
      if SetPhysMem(t, c, u.0, u.1, true).Some? { AddKeeps(t, c, view, u.0, u.1); }
    } else {
      ViewLeavesFree(t, c, view, u.0);
      var (start, size) := AlignSection(u.0, c.psize);
      if size > 0 { RemoveNothing(t, start, size, c.maxSlot); }
    }
  }

  lemma {:induction false} DelAllOk(t: Table, c: Config, view: set<Section>, dels: seq<Update>)
    requires GoodConfig(c) && TableOk(t, c, view) && ViewOk(c, view) && LegalDels(view, dels)
    ensures TableOk(DelAll(t, c, dels), c, ViewDel(view, dels)) && ViewOk(c, ViewDel(view, dels))
    decreases |dels|
  {
    hide TableOk, SetPhysMem, ViewOk;
    if dels != [] {
      DelOne(t, c, view, dels[0]);
      DelAllOk(SetPhysMem(t, c, dels[0].0, dels[0].1, false).value, c, view - {dels[0].0}, dels[1..]);
    }
  }

  lemma {:induction false} AddAllOk(t: Table, c: Config, view: set<Section>, adds: seq<Update>)
    requires GoodConfig(c) && TableOk(t, c, view) && ViewOk(c, view) && LegalAdds(view, c, adds)
    ensures AddAll(t, c, adds).Some? ==>
      TableOk(AddAll(t, c, adds).value, c, ViewAdd(view, c, adds)) && ViewOk(c, ViewAdd(view, c, adds))
    decreases |adds|
  {
    hide TableOk, SetPhysMem, ViewOk;
    if adds != [] {
      AddOneSection(t, c, view, adds[0]);
      var view' := if Backed(c, adds[0].0, adds[0].1) then view + {adds[0].0} else view;
      assert ViewAdd(view, c, adds[..1]) == view';
      var r := SetPhysMem(t, c, adds[0].0, adds[0].1, true);
      if r.Some? { AddAllOk(r.value, c, view', adds[1..]); }
    }
  }

  datatype Transaction = Transaction(dels: seq<Update>, adds: seq<Update>)

  function RunCommits(t: Table, c: Config, ts: seq<Transaction>): Option<Table>
    requires GoodConfig(c)
    decreases |ts|
  {
    if ts == [] then Some(t)
    else
      match Commit(t, c, ts[0].dels, ts[0].adds)
      case Some(t1) => RunCommits(t1, c, ts[1..])
      case None => None
  }

  function ViewAfter(view: set<Section>, c: Config, ts: seq<Transaction>): set<Section>
    decreases |ts|
  {
    if ts == [] then view else ViewAfter(ViewAdd(ViewDel(view, ts[0].dels), c, ts[0].adds), c, ts[1..])
  }

  ghost predicate LegalRun(view: set<Section>, c: Config, ts: seq<Transaction>)
    decreases |ts|
  {
    ts != [] ==>
      && LegalDels(view, ts[0].dels)
      && LegalAdds(ViewDel(view, ts[0].dels), c, ts[0].adds)
      && LegalRun(ViewAdd(ViewDel(view, ts[0].dels), c, ts[0].adds), c, ts[1..])
  }

  lemma {:induction false} RunCommitsOk(t: Table, c: Config, view: set<Section>, ts: seq<Transaction>)
    requires GoodConfig(c) && TableOk(t, c, view) && ViewOk(c, view) && LegalRun(view, c, ts)
    ensures RunCommits(t, c, ts).Some? ==> TableOk(RunCommits(t, c, ts).value, c, ViewAfter(view, c, ts))
    decreases |ts|
  {
    hide TableOk, ViewOk, DelAll, AddAll, LegalDels, LegalAdds, ViewDel, ViewAdd;
    if ts != [] {
      DelAllOk(t, c, view, ts[0].dels);
      AddAllOk(DelAll(t, c, ts[0].dels), c, ViewDel(view, ts[0].dels), ts[0].adds);
      var r := Commit(t, c, ts[0].dels, ts[0].adds);
      if r.Some? { RunCommitsOk(r.value, c, ViewAdd(ViewDel(view, ts[0].dels), c, ts[0].adds), ts[1..]); }
    }
  }

  // ------------------------------------------------ what has become of a section

  /** s is removed in transaction i. */
  ghost predicate Removes(ts: seq<Transaction>, i: nat, s: Section)
    requires i < |ts|
  {
    exists k :: 0 <= k < |ts[i].dels| && ts[i].dels[k].0 == s
  }

  ghost predicate AddsBacked(c: Config, adds: seq<Update>, s: Section) {
    exists k :: 0 <= k < |adds| && adds[k].0 == s && Backed(c, s, adds[k].1)
  }

  /** s was added as memory in transaction i and has not been removed since. */
  ghost predicate AddedAt(c: Config, ts: seq<Transaction>, i: nat, s: Section)
    requires i < |ts|
  {
    AddsBacked(c, ts[i].adds, s) && forall j :: i < j < |ts| ==> !Removes(ts, j, s)
  }

  lemma {:induction false} ViewDelIs(view: set<Section>, dels: seq<Update>, s: Section)
    ensures s in ViewDel(view, dels) <==> s in view && forall k :: 0 <= k < |dels| ==> dels[k].0 != s
    decreases |dels|
  {
    if dels != [] { ViewDelIs(view - {dels[0].0}, dels[1..], s); }
  }

  lemma {:induction false} ViewAddIs(view: set<Section>, c: Config, adds: seq<Update>, s: Section)
    ensures s in ViewAdd(view, c, adds) <==> s in view || AddsBacked(c, adds, s)
    decreases |adds|
  {
    if adds != [] {
      ViewAddIs(if Backed(c, adds[0].0, adds[0].1) then view + {adds[0].0} else view, c, adds[1..], s);
      hide ViewAdd, Backed;
      assert forall k :: 0 <= k < |adds[1..]| ==> adds[1..][k] == adds[k + 1];
      assert forall k :: 0 < k < |adds| ==> adds[k] == adds[1..][k - 1];
    }
  }

  lemma {:induction false} ViewAfterIs(view: set<Section>, c: Config, ts: seq<Transaction>, s: Section)
    ensures s in ViewAfter(view, c, ts) <==>
      || (s in view && forall j :: 0 <= j < |ts| ==> !Removes(ts, j, s))
      || (exists i :: 0 <= i < |ts| && AddedAt(c, ts, i, s))
    decreases |ts|
  {
    hide ViewDel, ViewAdd, Backed, AddsBacked;
    if ts != [] {
      ViewDelIs(view, ts[0].dels, s);
      ViewAddIs(ViewDel(view, ts[0].dels), c, ts[0].adds, s);
      var rest := ts[1..];
      ViewAfterIs(ViewAdd(ViewDel(view, ts[0].dels), c, ts[0].adds), c, rest, s);
      assert Removes(ts, 0, s) <==> !(forall k :: 0 <= k < |ts[0].dels| ==> ts[0].dels[k].0 != s);
      forall i | 0 < i < |ts| ensures Removes(ts, i, s) == Removes(rest, i - 1, s) { assert ts[i] == rest[i - 1]; }
      forall i | 0 <= i < |rest| ensures Removes(ts, i + 1, s) == Removes(rest, i, s) { assert ts[i + 1] == rest[i]; }
      hide Removes;
      forall i | 0 < i < |ts| ensures AddedAt(c, ts, i, s) == AddedAt(c, rest, i - 1, s) { ShiftAdded(c, ts, i, s); }
      forall i | 0 <= i < |rest| ensures AddedAt(c, ts, i + 1, s) == AddedAt(c, rest, i, s) {
        ShiftAdded(c, ts, i + 1, s);
      }
      assert AddedAt(c, ts, 0, s) <==> AddsBacked(c, ts[0].adds, s) && forall j ::
        0 <= j < |rest| ==> !Removes(rest, j, s);
      hide AddedAt;
    }
  }

  lemma ShiftAdded(c: Config, ts: seq<Transaction>, i: nat, s: Section)
    requires 0 < i < |ts|
    ensures AddedAt(c, ts, i, s) == AddedAt(c, ts[1..], i - 1, s)
  {
    hide AddsBacked;
    var rest := ts[1..];
    forall j | 0 < j < |ts| ensures Removes(ts, j, s) == Removes(rest, j - 1, s) { assert ts[j] == rest[j - 1]; }
    forall j | 0 <= j < |rest| ensures Removes(ts, j + 1, s) == Removes(rest, j, s) { assert ts[j + 1] == rest[j]; }
    hide Removes;
  }

  /** Over any sequence of commits that does not run out of slots, active slots are disjoint, their
      number is nr_used_slots, and they are exactly the chunks of the sections that were added as
      RAM, or as read-only memory that reads as memory where read-only slots exist, and have not been
      removed since. */
  lemma SlotTableStaysExact(n: nat, c: Config, ts: seq<Transaction>)
    requires GoodConfig(c) && LegalRun({}, c, ts)
    requires RunCommits(Table(seq(n, _ => Slot(0, 0, 0)), 0), c, ts).Some?
    ensures
      var t := RunCommits(Table(seq(n, _ => Slot(0, 0, 0)), 0), c, ts).value;
      && (forall i, j :: 0 <= i < |t.slots| && 0 <= j < |t.slots| && i != j ==> !Clash(t.slots[i], t.slots[j]))
      && t.used == CountUsed(t.slots)
      && (forall k :: k in t.slots && k.size > 0
            <==> exists i, s :: 0 <= i < |ts| && AddedAt(c, ts, i, s) && k in SectionSlots(c, s))
  {
    var t0 := Table(seq(n, _ => Slot(0, 0, 0)), 0);
    NoneUsed(t0.slots);
    assert Active(t0.slots) == {};
    RunCommitsOk(t0, c, {}, ts);
    var t := RunCommits(t0, c, ts).value;
    hide RunCommits, ViewAfter, SectionSlots, LegalRun, AddedAt;
    forall k ensures k in t.slots && k.size > 0
        <==> exists i, s :: 0 <= i < |ts| && AddedAt(c, ts, i, s) && k in SectionSlots(c, s) {
      assert k in Active(t.slots) <==> k in Registered(c, ViewAfter({}, c, ts));
      forall s ensures s in ViewAfter({}, c, ts) <==> exists i :: 0 <= i < |ts| && AddedAt(c, ts, i, s) {
        ViewAfterIs({}, c, ts, s);
      }
    }
  }

  // ---------------------------------------------------------- what a guest sees

  /** The page of an address lies wholly inside the section. */
  predicate PageInside(c: Config, s: Section, x: nat)
    requires GoodConfig(c)
  {
    var page := RoundDown(x, c.psize);
    s.start <= page && page + c.psize <= s.start + s.size
  }

  /** The slots of a section hold the addresses of its whole pages, each where the section puts it. */
  lemma SectionMaps(c: Config, s: Section, x: nat)
    requires GoodConfig(c)
    ensures (exists k :: k in SectionSlots(c, s) && Holds(k, x)) <==> PageInside(c, s, x)
    ensures forall k :: k in SectionSlots(c, s) && Holds(k, x) ==>
      s.start <= x && k.ram + (x - k.start) == s.ram + (x - s.start) && k.size <= c.maxSlot
  {
    var (start, size) := AlignSection(s, c.psize);
    var page := RoundDown(x, c.psize);
    WholePart(x, c.psize);
    AlignedIsExact(s, c.psize, page);
    InWholePages(start, size, c.psize, page, x);
    var ram := s.ram + (start - s.start);
    ChunksTile(start, size, ram, c.maxSlot, x);
    var slots := Chunks(start, size, ram, c.maxSlot);
    hide AlignSection, Chunks, RoundDown;
    forall k | k in slots ensures k.size <= c.maxSlot { ChunkWithin(start, size, ram, c.maxSlot, k); }
    assert start <= x < start + size <==> PageInside(c, s, x);
    assert size == 0 ==> SectionSlots(c, s) == [];
    assert size > 0 ==> SectionSlots(c, s) == slots;
    hide SectionSlots, PageInside;
    forall k | k in slots && Holds(k, x) ensures start <= x < start + size {
      ChunkWithin(start, size, ram, c.maxSlot, k);
    }
  }

  lemma InWholePages(start: nat, size: nat, psize: nat, page: nat, x: nat)
    requires psize > 0 && start % psize == 0 && size % psize == 0 && page % psize == 0 && page <= x < page + psize
    ensures start <= x < start + size <==> start <= page && page + psize <= start + size
  {
    SumMultiple(start, size, psize);
    ApartIf(page, start, psize);
    ApartIf(page, start + size, psize);
  }

  /** Over any sequence of commits that does not run out of slots, the guest addresses that a slot
      holds are exactly those of whole pages inside a section that was added as memory and has not
      been removed since, and the slot sends each of them to the host address where that section has
      it; no slot is larger than the largest allowed. */
  lemma MemoryIsMapped(n: nat, c: Config, ts: seq<Transaction>, x: nat)
    requires GoodConfig(c) && LegalRun({}, c, ts)
    requires RunCommits(Table(seq(n, _ => Slot(0, 0, 0)), 0), c, ts).Some?
    ensures
      var t := RunCommits(Table(seq(n, _ => Slot(0, 0, 0)), 0), c, ts).value;
      && ((exists k :: k in t.slots && Holds(k, x))
            <==> exists i, s :: 0 <= i < |ts| && AddedAt(c, ts, i, s) && PageInside(c, s, x))
      && (forall k :: k in t.slots && Holds(k, x) ==>
            exists i, s :: 0 <= i < |ts| && AddedAt(c, ts, i, s) && s.start <= x
                           && k.ram + (x - k.start) == s.ram + (x - s.start) && k.size <= c.maxSlot)
  {
    SlotTableStaysExact(n, c, ts);
    hide RunCommits, LegalRun, SectionSlots, AddedAt, PageInside;
    var t := RunCommits(Table(seq(n, _ => Slot(0, 0, 0)), 0), c, ts).value;
    forall s ensures (exists k :: k in SectionSlots(c, s) && Holds(k, x)) <==> PageInside(c, s, x) {
      SectionMaps(c, s, x);
    }
    forall k | k in t.slots && Holds(k, x)
      ensures exists i, s :: 0 <= i < |ts| && AddedAt(c, ts, i, s) && s.start <= x
                             && k.ram + (x - k.start) == s.ram + (x - s.start) && k.size <= c.maxSlot
                             && PageInside(c, s, x)
    {
      var i, s :| 0 <= i < |ts| && AddedAt(c, ts, i, s) && k in SectionSlots(c, s);
      SectionMaps(c, s, x);
    }
    forall i, s | 0 <= i < |ts| && AddedAt(c, ts, i, s) && PageInside(c, s, x)
      ensures exists k :: k in t.slots && Holds(k, x)
    {
      var k :| k in SectionSlots(c, s) && Holds(k, x);
      assert k in t.slots;
    }
  }

  // ------------------------------------------------------- when slots run out

  /** Disjoint active slots are all different. */
  lemma {:induction false} CountIsSize(slots: seq<Slot>)
    requires Disjoint(slots)
    ensures CountUsed(slots) == |Active(slots)|
  {
    if slots == [] {
      assert Active(slots) == {};
    } else {
      var k := |slots| - 1;
      forall i, j | 0 <= i < k && 0 <= j < k && i != j ensures !Clash(slots[..k][i], slots[..k][j]) {
        assert slots[..k][i] == slots[i] && slots[..k][j] == slots[j];
      }
      CountIsSize(slots[..k]);
      LastActive(slots);
      hide Active;
    }
  }

  lemma LastActive(slots: seq<Slot>)
    requires Disjoint(slots) && slots != []
    ensures
      var k := |slots| - 1;
      if slots[k].size > 0 then
        Active(slots) == Active(slots[..k]) + {slots[k]} && slots[k] !in Active(slots[..k])
      else Active(slots) == Active(slots[..k])
  {
    var k := |slots| - 1;
    forall s ensures s in Active(slots) <==> s in Active(slots[..k]) || (s == slots[k] && s.size > 0) {
      if s in slots {
        var i :| 0 <= i < |slots| && slots[i] == s;
        if i < k { assert slots[..k][i] == s; }
      }
    }
    forall i | 0 <= i < k && slots[k].size > 0 ensures slots[..k][i] != slots[k] {
      assert !Clash(slots[i], slots[k]);
    }
  }

  lemma {:induction false} ChunksDiffer(start: nat, size: nat, ram: nat, max: nat)
    requires max > 0
    ensures |Elems(Chunks(start, size, ram, max))| == |Chunks(start, size, ram, max)|
    decreases size
  {
    if size > 0 {
      var n := if max < size then max else size;
      ChunksStep(start, size, ram, max);
      ChunksDiffer(start + n, size - n, ram + n, max);
      NotInRest(start, size, ram, max);
      OneMore(Slot(start, n, ram), Chunks(start + n, size - n, ram + n, max));
      hide Chunks;
    }
  }

  lemma OneMore(s: Slot, rest: seq<Slot>)
    requires s !in Elems(rest)
    ensures |Elems([s] + rest)| == |Elems(rest)| + 1
  {
    ElemsCons(s, rest);
    hide Elems;
  }

  /** Adding a section succeeds exactly if there are slots for all that is then registered. */
  lemma AddSucceeds(t: Table, c: Config, view: set<Section>, u: Update)
    requires GoodConfig(c) && TableOk(t, c, view) && ViewOk(c, view)
    requires forall v :: v in view ==> Separate(u.0, v)
    ensures
      var r := SetPhysMem(t, c, u.0, u.1, true);
      var view' := if Backed(c, u.0, u.1) then view + {u.0} else view;
      && (r.Some? <==> |Registered(c, view')| <= |t.slots|)
      && (r.Some? ==> |r.value.slots| == |t.slots|)
  {
    hide AlignSection, AddChunks, RemoveChunks, Registered, Active, Disjoint, CountUsed, Chunks, Elems, RangeFree,
      Separate;
    var (start, size) := AlignSection(u.0, c.psize);
    AlignedStart(u.0, c.psize);
    ViewLeavesFree(t, c, view, u.0);
    CountIsSize(t.slots);
    RoomForUsed(t.slots);
    if Backed(c, u.0, u.1) {
      RegisteredAdd(c, view, u.0);
      if size > 0 {
        var ram := u.0.ram + (start - u.0.start);
        AddChunksIs(t, start, size, ram, c.maxSlot);
        ChunksDiffer(start, size, ram, c.maxSlot);
        ChunksFresh(t.slots, start, size, ram, c.maxSlot);
      } else {
        NoElems();
        assert Registered(c, view) + {} == Registered(c, view);
      }
    } else if size > 0 {
      RemoveNothing(t, start, size, c.maxSlot);
    }
  }

  lemma RoomForUsed(slots: seq<Slot>)
    ensures CountUsed(slots) <= |slots|
  {
  }

  lemma {:induction false} ViewGrows(view: set<Section>, c: Config, adds: seq<Update>)
    ensures view <= ViewAdd(view, c, adds)
    decreases |adds|
  {
    if adds != [] { ViewGrows(if Backed(c, adds[0].0, adds[0].1) then view + {adds[0].0} else view, c, adds[1..]); }
  }

  lemma RegisteredGrows(c: Config, view: set<Section>, view': set<Section>)
    requires GoodConfig(c) && view <= view'
    ensures |Registered(c, view)| <= |Registered(c, view')|
  {
    hide SectionSlots;
    var a, b := Registered(c, view), Registered(c, view');
    assert a <= b;
    hide Registered;
    assert b == a + (b - a);
  }

  lemma {:induction false} AddAllSucceeds(t: Table, c: Config, view: set<Section>, adds: seq<Update>)
    requires GoodConfig(c) && TableOk(t, c, view) && ViewOk(c, view) && LegalAdds(view, c, adds)
    ensures
      var r := AddAll(t, c, adds);
      && (r.Some? <==> |Registered(c, ViewAdd(view, c, adds))| <= |t.slots|)
      && (r.Some? ==> |r.value.slots| == |t.slots|)
    decreases |adds|
  {
    hide SetPhysMem, ViewOk, Registered, Backed;
    if adds == [] {
      CountIsSize(t.slots);
      RoomForUsed(t.slots);
    } else {
      hide TableOk;
      AddOneSection(t, c, view, adds[0]);
      AddSucceeds(t, c, view, adds[0]);
      var view' := if Backed(c, adds[0].0, adds[0].1) then view + {adds[0].0} else view;
      assert ViewAdd(view, c, adds[..1]) == view';
      var r := SetPhysMem(t, c, adds[0].0, adds[0].1, true);
      if r.Some? {
        AddAllSucceeds(r.value, c, view', adds[1..]);
      } else {
        ViewGrows(view', c, adds[1..]);
        RegisteredGrows(c, view', ViewAdd(view', c, adds[1..]));
      }
    }
  }

  lemma {:induction false} DelAllLength(t: Table, c: Config, dels: seq<Update>)
    requires GoodConfig(c)
    ensures |DelAll(t, c, dels).slots| == |t.slots|
    decreases |dels|
  {
    if dels != [] {
      var (start, size) := AlignSection(dels[0].0, c.psize);
      RemoveLength(t, start, size, c.maxSlot);
      hide AlignSection, RemoveChunks;
      DelAllLength(SetPhysMem(t, c, dels[0].0, dels[0].1, false).value, c, dels[1..]);
    }
  }

  lemma {:induction false} RemoveLength(t: Table, start: nat, size: nat, max: nat)
    requires max > 0
    ensures |RemoveChunks(t, start, size, max).slots| == |t.slots|
    decreases size
  {
    if size > 0 {
      var n := if max < size then max else size;
      var i := FindMatch(t.slots, 0, start, n);
      if i.Some? {
        RemoveLength(Table(t.slots[i.value := t.slots[i.value].(size := 0)], t.used - 1), start + n, size - n, max);
      }
    }
  }

  ghost predicate AlwaysRoom(n: nat, c: Config, view: set<Section>, ts: seq<Transaction>)
    requires GoodConfig(c)
  {
    forall i :: 0 < i <= |ts| ==> |Registered(c, ViewAfter(view, c, ts[..i]))| <= n
  }

  lemma RoomStep(n: nat, c: Config, view: set<Section>, ts: seq<Transaction>)
    requires GoodConfig(c) && ts != []
    ensures
      var view' := ViewAdd(ViewDel(view, ts[0].dels), c, ts[0].adds);
      AlwaysRoom(n, c, view, ts) <==> |Registered(c, view')| <= n && AlwaysRoom(n, c, view', ts[1..])
  {
    hide Registered, ViewAdd, ViewDel;
    var view' := ViewAdd(ViewDel(view, ts[0].dels), c, ts[0].adds);
    forall i | 0 < i <= |ts| ensures ViewAfter(view, c, ts[..i]) == ViewAfter(view', c, ts[1..][..i - 1]) {
      assert ts[..i][1..] == ts[1..][..i - 1];
    }
    assert ts[1..][..0] == [];
    forall i | 0 < i <= |ts[1..]| ensures ViewAfter(view, c, ts[..i + 1]) == ViewAfter(view', c, ts[1..][..i]) {
      assert ts[..i + 1][1..] == ts[1..][..i];
    }
    assert AlwaysRoom(n, c, view, ts) ==> |Registered(c, ViewAfter(view, c, ts[..1]))| <= n;
    hide ViewAfter;
  }

  lemma {:induction false} RunSucceeds(t: Table, c: Config, view: set<Section>, ts: seq<Transaction>)
    requires GoodConfig(c) && TableOk(t, c, view) && ViewOk(c, view) && LegalRun(view, c, ts)
    ensures RunCommits(t, c, ts).Some? <==> AlwaysRoom(|t.slots|, c, view, ts)
    decreases |ts|
  {
    hide TableOk, ViewOk, DelAll, AddAll, LegalDels, LegalAdds, ViewDel, ViewAdd, Registered;
    if ts != [] {
      hide AlwaysRoom;
      var view1 := ViewDel(view, ts[0].dels);
      DelAllOk(t, c, view, ts[0].dels);
      DelAllLength(t, c, ts[0].dels);
      AddAllOk(DelAll(t, c, ts[0].dels), c, view1, ts[0].adds);
      AddAllSucceeds(DelAll(t, c, ts[0].dels), c, view1, ts[0].adds);
      RoomStep(|t.slots|, c, view, ts);
      var r := Commit(t, c, ts[0].dels, ts[0].adds);
      if r.Some? { RunSucceeds(r.value, c, ViewAdd(view1, c, ts[0].adds), ts[1..]); }
    }
  }

  /** A run of commits goes through exactly if after each of them there are slots for everything
      that is registered then: neither the removals nor chunks left behind use up any. */
  lemma {:induction false} SlotsRunOutExactly(n: nat, c: Config, ts: seq<Transaction>)
    requires GoodConfig(c) && LegalRun({}, c, ts)
    ensures RunCommits(Table(seq(n, _ => Slot(0, 0, 0)), 0), c, ts).Some?
      <==> forall i :: 0 < i <= |ts| ==> |Registered(c, ViewAfter({}, c, ts[..i]))| <= n
  {
    var t0 := Table(seq(n, _ => Slot(0, 0, 0)), 0);
    NoneUsed(t0.slots);
    assert Active(t0.slots) == {};
    RunSucceeds(t0, c, {}, ts);
    hide RunCommits, LegalRun, Registered, ViewAfter;
  }

  lemma {:induction false} NoneUsed(slots: seq<Slot>)
    requires forall i :: 0 <= i < |slots| ==> slots[i].size == 0
    ensures CountUsed(slots) == 0
  {
    if slots != [] { NoneUsed(slots[..|slots| - 1]); }
  }

  // ------------------------------------------------------- host to guest lookup

  /** kvm_physical_memory_addr_from_host. */
  function AddrFromHost(slots: seq<Slot>, i: nat, ram: nat): Option<nat>
    decreases |slots| - i
  {
    if i >= |slots| then None
    else if slots[i].ram <= ram < slots[i].ram + slots[i].size then Some(slots[i].start + (ram - slots[i].ram))
    else AddrFromHost(slots, i + 1, ram)
  }

  /** The lookup inverts the guest-to-host map when the host ranges of the slots are apart. */
  lemma {:induction false} AddrFromHostInverts(slots: seq<Slot>, i: nat, k: nat, x: nat)
    requires i <= k < |slots| && Holds(slots[k], x)
    requires forall a, b :: 0 <= a < |slots| && 0 <= b < |slots| && a != b ==>
      slots[a].ram + slots[a].size <= slots[b].ram || slots[b].ram + slots[b].size <= slots[a].ram
    ensures AddrFromHost(slots, i, slots[k].ram + (x - slots[k].start)) == Some(x)
    decreases k - i
  {
    if i < k { AddrFromHostInverts(slots, i + 1, k, x); }
  }

  lemma {:induction false} AddrFromHostFails(slots: seq<Slot>, i: nat, ram: nat)
    ensures AddrFromHost(slots, i, ram).None?
      <==> forall k :: i <= k < |slots| ==> !(slots[k].ram <= ram < slots[k].ram + slots[k].size)
    decreases |slots| - i
  {
    if i < |slots| { AddrFromHostFails(slots, i + 1, ram); }
  }

  // --------------------------------------------------------------- as it runs

  predicate Touch(s: Section, u: Section) {
    s.start < u.start + u.size && u.start < s.start + s.size
  }

  predicate Inside(s: Section, x: nat) {
    s.start <= x < s.start + s.size
  }

  /** Two sections touch exactly if they have an address in common. */
  lemma TouchIs(s: Section, u: Section)
    requires s.size > 0 && u.size > 0
    ensures Touch(s, u) <==> exists x: nat :: Inside(s, x) && Inside(u, x)
  {
    var x := if s.start < u.start then u.start else s.start;
    if Touch(s, u) { assert Inside(s, x) && Inside(u, x); }
  }

  predicate Sorted(us: seq<Update>) {
    forall i, j :: 0 <= i <= j < |us| ==> us[i].0.start <= us[j].0.start
  }

  /** The scan of kvm_region_commit: one pass over two lists sorted by start finds out whether any
      removed section overlaps any added one. */
  method NeedInhibit(dels: seq<Update>, adds: seq<Update>) returns (found: bool)
    requires Sorted(dels) && Sorted(adds)
    requires forall i :: 0 <= i < |dels| ==> dels[i].0.size > 0
    requires forall i :: 0 <= i < |adds| ==> adds[i].0.size > 0
    ensures found <==>
      exists i, j, x: nat :: 0 <= i < |dels| && 0 <= j < |adds| && Inside(dels[i].0, x) && Inside(adds[j].0, x)
  {
    var i, j := 0, 0;
    found := false;
    while i < |dels| && j < |adds|
      invariant 0 <= i <= |dels| && 0 <= j <= |adds|
      invariant forall a, b :: 0 <= a < |dels| && 0 <= b < |adds| && (a < i || b < j) ==> !Touch(dels[a].0, adds[b].0)
      decreases |dels| - i + |adds| - j
    {
      TouchIs(dels[i].0, adds[j].0);
      if Touch(dels[i].0, adds[j].0) { return true; }
      if dels[i].0.start < adds[j].0.start { i := i + 1; } else { j := j + 1; }
    }
    forall a, b | 0 <= a < |dels| && 0 <= b < |adds|
      ensures forall x: nat :: !(Inside(dels[a].0, x) && Inside(adds[b].0, x))
    {
      TouchIs(dels[a].0, adds[b].0);
    }
  }

  class MemoryListener {
    var slots: seq<Slot>
    var used: int
    const config: Config

    function Now(): Table
      reads this
    {
      Table(slots, used)
    }

    constructor (n: nat, config: Config)
      ensures Now() == Table(seq(n, _ => Slot(0, 0, 0)), 0) && this.config == config
    {
      slots, used := seq(n, _ => Slot(0, 0, 0)), 0;
      this.config := config;
    }

    method GetFreeSlot() returns (r: Option<nat>)
      ensures r == FindFree(slots, 0)
    {
      var i := 0;
      while i < |slots|
        invariant 0 <= i <= |slots| && FindFree(slots, i) == FindFree(slots, 0)
      {
        if slots[i].size == 0 { return Some(i); }
        i := i + 1;
      }
      return None;
    }

    method LookupMatchingSlot(start: nat, size: nat) returns (r: Option<nat>)
      ensures r == FindMatch(slots, 0, start, size)
    {
      var i := 0;
      while i < |slots|
        invariant 0 <= i <= |slots| && FindMatch(slots, i, start, size) == FindMatch(slots, 0, start, size)
      {
        if slots[i].start == start && slots[i].size == size { return Some(i); }
        i := i + 1;
      }
      return None;
    }

    method PhysicalAddrFromHost(ram: nat) returns (r: Option<nat>)
      ensures r == AddrFromHost(slots, 0, ram)
    {
      var i := 0;
      while i < |slots|
        invariant 0 <= i <= |slots| && AddrFromHost(slots, i, ram) == AddrFromHost(slots, 0, ram)
      {
        if slots[i].ram <= ram < slots[i].ram + slots[i].size { return Some(slots[i].start + (ram - slots[i].ram)); }
        i := i + 1;
      }
      return None;
    }

    /** The loop of kvm_set_phys_mem that unregisters a range in chunks; it stops at one that is not
        there. */
    method RemoveSlots(from: nat, length: nat)
      requires GoodConfig(config)
      modifies this`slots, this`used
      ensures Now() == RemoveChunks(old(Now()), from, length, config.maxSlot)
    {
      var start: nat, size: nat := from, length;
      while size > 0
        invariant RemoveChunks(Now(), start, size, config.maxSlot)
          == RemoveChunks(old(Now()), from, length, config.maxSlot)
        decreases size
      {
        var n := if config.maxSlot < size then config.maxSlot else size;
        var r := LookupMatchingSlot(start, n);
        if r.None? { return; }
        slots := slots[r.value := slots[r.value].(size := 0)];
        start, size := start + n, size - n;
        used := used - 1;
      }
    }

    /** The loop that registers a range in chunks, as long as there is a free slot. */
    method AddSlots(from: nat, length: nat, host: nat) returns (ok: bool)
      requires GoodConfig(config)
      modifies this`slots, this`used
      ensures ok <==> AddChunks(old(Now()), from, length, host, config.maxSlot).Some?
      ensures ok ==> Now() == AddChunks(old(Now()), from, length, host, config.maxSlot).value
    {
      var start: nat, size: nat, ram: nat := from, length, host;
      while size > 0
        invariant AddChunks(Now(), start, size, ram, config.maxSlot)
          == AddChunks(old(Now()), from, length, host, config.maxSlot)
        decreases size
      {
        var n := if config.maxSlot < size then config.maxSlot else size;
        var r := GetFreeSlot();
        if r.None? { return false; }
        slots := slots[r.value := Slot(start, n, ram)];
        start, ram, size := start + n, ram + n, size - n;
        used := used + 1;
      }
      return true;
    }

    /** kvm_set_phys_mem; ok is false where kvm_set_phys_mem aborts for lack of a slot. */
    method SetPhys(s: Section, romd: bool, add: bool) returns (ok: bool)
      requires GoodConfig(config)
      modifies this`slots, this`used
      ensures ok <==> SetPhysMem(old(Now()), config, s, romd, add).Some?
      ensures ok ==> Now() == SetPhysMem(old(Now()), config, s, romd, add).value
    {
      hide AlignSection, AddChunks, RemoveChunks;
      var adding := add;
      if !s.isRam {
        if s.writable || !config.readonlyAllowed { return true; }
        if !romd { adding := false; }
      }
      var aligned := AlignSection(s, config.psize);
      var start: nat, size: nat := aligned.0, aligned.1;
      if size == 0 { return true; }
      AlignedStart(s, config.psize);
      if adding {
        ok := AddSlots(start, size, s.ram + (start - s.start));
      } else {
        RemoveSlots(start, size);
        ok := true;
      }
    }

    /** kvm_region_commit. */
    method RegionCommit(dels: seq<Update>, adds: seq<Update>) returns (ok: bool)
      requires GoodConfig(config)
      modifies this`slots, this`used
      ensures ok <==> Commit(old(Now()), config, dels, adds).Some?
      ensures ok ==> Now() == Commit(old(Now()), config, dels, adds).value
    {
      hide SetPhysMem;
      var queue := dels;
      while queue != []
        invariant DelAll(Now(), config, queue) == DelAll(old(Now()), config, dels)
        decreases |queue|
      {
        RemovalSucceeds(Now(), config, queue[0].0, queue[0].1);
        var done := SetPhys(queue[0].0, queue[0].1, false);
        queue := queue[1..];
      }
      queue := adds;
      while queue != []
        invariant AddAll(Now(), config, queue) == Commit(old(Now()), config, dels, adds)
        decreases |queue|
      {
        ok := SetPhys(queue[0].0, queue[0].1, true);
        if !ok { return; }
        queue := queue[1..];
      }
      ok := true;
    }
  }

  lemma RemovalSucceeds(t: Table, c: Config, s: Section, romd: bool)
    requires GoodConfig(c)
    ensures SetPhysMem(t, c, s, romd, false).Some?
  {
  }
}
