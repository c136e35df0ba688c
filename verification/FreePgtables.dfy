/** Tearing down the page tables of a list of vmas: which table pages go, that each goes once, and
    that nothing is cut off. */
module FreePgtables {
  import opened PageTables

  /** The part of a vma that matters here: [start, end). */
  datatype Range = Range(start: Word, end: Word)

  /** The list a caller passes: non-empty ranges, sorted and disjoint, between floor and ceiling. */
  ghost predicate Listed(vmas: seq<Range>, floor: Word, ceiling: Word) {
    && (forall i :: 0 <= i < |vmas| ==> floor <= vmas[i].start < vmas[i].end <= Top(ceiling))
    && (forall i, j :: 0 <= i < j < |vmas| ==> vmas[i].end <= vmas[j].start)
  }

  /** Neighbours close enough to be gathered into one call. */
  predicate Joined(v: Range, w: Range) {
    w.start <= Plus(v.end, PMD_SIZE)
  }

  /** The first n vmas with the gaps between gathered neighbours. */
  ghost predicate Touched(vmas: seq<Range>, n: nat, t: Table)
    requires n <= |vmas|
  {
    || (exists k :: 0 <= k < n && Meets(t, vmas[k].start, vmas[k].end))
    || (exists k :: 0 <= k < n - 1 && Joined(vmas[k], vmas[k + 1]) && Meets(t, vmas[k].end, vmas[k + 1].start))
  }

  /** The ceiling of the calls for the first n vmas. */
  function CeilingAt(vmas: seq<Range>, n: nat, ceiling: Word): Word {
    if n < |vmas| then vmas[n].start else ceiling
  }

  ghost function Gone(tables: set<Table>, vmas: seq<Range>, n: nat, floor: Word, ceiling: Word): set<Table>
    requires n <= |vmas|
  {
    set t | t in tables && Touched(vmas, n, t) && Inside(t, floor, CeilingAt(vmas, n, ceiling))
  }

  ghost predicate Radix(tables: set<Table>) {
    forall t :: t in tables && t.level < 3 ==> Parent(t) in tables
  }

  /** A group [i, j) of gathered vmas is one range with its gaps. */
  ghost predicate Group(vmas: seq<Range>, i: nat, j: nat) {
    && i < j <= |vmas|
    && (forall k :: i < k < j ==> Joined(vmas[k - 1], vmas[k]))
    && (i > 0 ==> !Joined(vmas[i - 1], vmas[i]))
  }

  /** A table meets a group's range exactly if it meets one of its vmas or one of its gaps. */
  lemma {:induction false} GroupRange(vmas: seq<Range>, floor: Word, ceiling: Word, i: nat, j: nat, t: Table)
    requires Listed(vmas, floor, ceiling) && i < j <= |vmas|
    ensures Meets(t, vmas[i].start, vmas[j - 1].end) <==>
      || (exists k :: i <= k < j && Meets(t, vmas[k].start, vmas[k].end))
      || (exists k :: i <= k < j - 1 && Meets(t, vmas[k].end, vmas[k + 1].start))
    decreases j - i
  {
    if i + 1 < j {
      GroupRange(vmas, floor, ceiling, i, j - 1, t);
      var lo, mid, mid', hi := vmas[i].start, vmas[j - 2].end, vmas[j - 1].start, vmas[j - 1].end;
      assert lo < mid <= mid' < hi;
      assert Meets(t, lo, hi) <==> Meets(t, lo, mid) || Meets(t, mid, mid') || Meets(t, mid', hi);
    }
  }

  lemma TouchedSplit(vmas: seq<Range>, floor: Word, ceiling: Word, i: nat, j: nat, t: Table)
    requires Listed(vmas, floor, ceiling) && Group(vmas, i, j)
    ensures Touched(vmas, j, t) <==> Touched(vmas, i, t) || Meets(t, vmas[i].start, vmas[j - 1].end)
  {
    hide Meets, Joined, Listed;
    GroupRange(vmas, floor, ceiling, i, j, t);
    forall k | i <= k < j - 1 ensures Joined(vmas[k], vmas[k + 1]) { assert Joined(vmas[k + 1 - 1], vmas[k + 1]); }
  }

  lemma TouchedBefore(vmas: seq<Range>, floor: Word, ceiling: Word, i: nat, t: Table)
    requires Listed(vmas, floor, ceiling) && i < |vmas|
    ensures Touched(vmas, i, t) ==> t.start < vmas[i].start
  {
    hide Joined;
  }

  /** One round: what the call for a group adds to what is gone already. */
  lemma GroupGone(tables: set<Table>, vmas: seq<Range>, floor: Word, ceiling: Word, i: nat, j: nat)
    requires AllPlaced(tables) && Listed(vmas, floor, ceiling) && Group(vmas, i, j)
    ensures
      Gone(tables, vmas, j, floor, ceiling)
      == Gone(tables, vmas, i, floor, ceiling)
         + Doom(tables - Gone(tables, vmas, i, floor, ceiling), 3, vmas[i].start, vmas[j - 1].end, floor,
             CeilingAt(vmas, j, ceiling))
  {
    forall t | t in tables ensures
      Touched(vmas, j, t) && Inside(t, floor, CeilingAt(vmas, j, ceiling)) <==>
        || (Touched(vmas, i, t) && Inside(t, floor, CeilingAt(vmas, i, ceiling)))
        || (Meets(t, vmas[i].start, vmas[j - 1].end) && Inside(t, floor, CeilingAt(vmas, j, ceiling)))
    {
      TouchedSplit(vmas, floor, ceiling, i, j, t);
      TouchedBefore(vmas, floor, ceiling, i, t);
      hide Touched;
    }
    hide Touched, Meets, Inside;
  }

  /** The tables of a group still hang together when its turn comes: what earlier calls freed ends
      before the group. */
  lemma GroupRooted(tables: set<Table>, vmas: seq<Range>, floor: Word, ceiling: Word, i: nat, hi: nat)
    requires AllPlaced(tables) && Radix(tables) && Listed(vmas, floor, ceiling) && i < |vmas| && vmas[i].start < hi
    ensures Rooted(tables - Gone(tables, vmas, i, floor, ceiling), 3, vmas[i].start, hi)
  {
    var left := tables - Gone(tables, vmas, i, floor, ceiling);
    forall t | t in left && t.level < 3 && Meets(t, vmas[i].start, hi) ensures Parent(t) in left {
      ParentHolds(t);
    }
  }

  /** free_pgtables for a list without huge-page vmas. */
  method FreePgtables(tlb: MmuGather, vmas: seq<Range>, floor: Word, ceiling: Word)
    requires tlb.Valid() && Radix(tlb.tables) && vmas != [] && Listed(vmas, floor, ceiling)
    modifies tlb
    ensures tlb.Valid() && tlb.Seen() == old(tlb.Seen())
    ensures tlb.tables == old(tlb.tables) - Gone(old(tlb.tables), vmas, |vmas|, floor, ceiling)
  {
    var i := 0;
    ghost var was := tlb.tables;
    assert Gone(was, vmas, 0, floor, ceiling) == {};
    while i < |vmas|
      invariant 0 <= i <= |vmas| && tlb.Valid() && tlb.Seen() == old(tlb.Seen())
      invariant i > 0 && i < |vmas| ==> !Joined(vmas[i - 1], vmas[i])
      invariant tlb.tables == was - Gone(was, vmas, i, floor, ceiling)
    {
      var addr := vmas[i].start;
      var j := i + 1;
      while j < |vmas| && Joined(vmas[j - 1], vmas[j])
        invariant i < j <= |vmas| && Group(vmas, i, j)
      {
        j := j + 1;
      }
      GroupRooted(was, vmas, floor, ceiling, i, vmas[j - 1].end);
      GroupGone(was, vmas, floor, ceiling, i, j);
      tlb.FreePgdRange(addr, vmas[j - 1].end, floor, if j < |vmas| then vmas[j].start else ceiling);
      i := j;
    }
  }

  // ------------------------------------------------------------------ what that means

  /** A table page is freed if and only if it lies wholly between floor and ceiling and it meets a
      listed vma, or is the one PTE page that exactly fills the gap between two neighbours. */
  lemma FreedExactly(tables: set<Table>, vmas: seq<Range>, floor: Word, ceiling: Word, t: Table)
    requires AllPlaced(tables) && Listed(vmas, floor, ceiling)
    ensures t in Gone(tables, vmas, |vmas|, floor, ceiling) <==>
      && t in tables && floor <= t.start && End(t) <= Top(ceiling)
      && (|| (exists k :: 0 <= k < |vmas| && Meets(t, vmas[k].start, vmas[k].end))
          || (exists k :: 0 <= k < |vmas| - 1 && FillsGap(vmas, k, t)))
  {
    if t in tables {
      forall k | 0 <= k < |vmas| - 1
        ensures Joined(vmas[k], vmas[k + 1]) && Meets(t, vmas[k].end, vmas[k + 1].start)
          && !Meets(t, vmas[k].start, vmas[k].end) && !Meets(t, vmas[k + 1].start, vmas[k + 1].end)
          ==> FillsGap(vmas, k, t)
        ensures FillsGap(vmas, k, t) ==> Meets(t, vmas[k].end, vmas[k + 1].start) && Joined(vmas[k], vmas[k + 1])
      {
        SmallestSpan(t);
      }
    }
  }

  ghost predicate FillsGap(vmas: seq<Range>, k: nat, t: Table)
    requires k + 1 < |vmas|
  {
    t.level == 0 && t.start == vmas[k].end && End(t) == vmas[k + 1].start
  }

  lemma SmallestSpan(t: Table)
    requires WellPlaced(t)
    ensures Span(t.level) >= PMD_SIZE && (t.level > 0 ==> Span(t.level) > PMD_SIZE)
  {
  }

  /** A page-table page with the parent it hangs on, when the parent goes and it does not. */
  ghost predicate Orphan(tables: set<Table>, vmas: seq<Range>, floor: Word, ceiling: Word, t: Table) {
    && t in tables && t.level < 3
    && Inside(Parent(t), floor, ceiling) && Serves(vmas, Parent(t))
    && !Serves(vmas, t) && !(exists k :: 0 <= k < |vmas| - 1 && FillsGap(vmas, k, t))
  }

  ghost predicate Serves(vmas: seq<Range>, t: Table) {
    exists k :: 0 <= k < |vmas| && Meets(t, vmas[k].start, vmas[k].end)
  }

  /** What stays is still reachable from the top if and only if no page that serves none of the
      listed vmas hangs on a page between the bounds that serves one. */
  lemma StaysReachableIff(tables: set<Table>, vmas: seq<Range>, floor: Word, ceiling: Word)
    requires AllPlaced(tables) && Radix(tables) && Listed(vmas, floor, ceiling)
    ensures Radix(tables - Gone(tables, vmas, |vmas|, floor, ceiling))
      <==> forall t :: !Orphan(tables, vmas, floor, ceiling, t)
  {
    var gone := Gone(tables, vmas, |vmas|, floor, ceiling);
    forall t | t in tables && t.level < 3
      ensures Parent(t) in gone && t !in gone <==> Orphan(tables, vmas, floor, ceiling, t)
    {
      ParentHolds(t);
      FreedExactly(tables, vmas, floor, ceiling, t);
      FreedExactly(tables, vmas, floor, ceiling, Parent(t));
    }
    hide Gone, Inside, Serves, FillsGap, Listed, AllPlaced, Parent;
    if forall t :: !Orphan(tables, vmas, floor, ceiling, t) {
      forall t | t in tables - gone && t.level < 3 ensures Parent(t) in tables - gone {
        assert !Orphan(tables, vmas, floor, ceiling, t);
      }
    } else {
      var t :| Orphan(tables, vmas, floor, ceiling, t);
      assert t in tables - gone && Parent(t) !in tables - gone;
    }
  }

  /** Such a page: the call for a vma of one PTE page takes the upper levels with it and leaves the
      neighbouring PTE page behind. */
  lemma CanCutOff()
    ensures
      var tables := {Table(0, 0x40_0000), Table(1, 0), Table(2, 0), Table(3, 0)};
      var vmas := [Range(0, 0x20_0000)];
      && AllPlaced(tables) && Radix(tables) && Listed(vmas, 0, 0)
      && !Radix(tables - Gone(tables, vmas, 1, 0, 0))
  {
    var tables := {Table(0, 0x40_0000), Table(1, 0), Table(2, 0), Table(3, 0)};
    var vmas := [Range(0, 0x20_0000)];
    var t := Table(0, 0x40_0000);
    assert Parent(t) == Table(1, 0);
    assert Meets(Parent(t), vmas[0].start, vmas[0].end);
    assert Orphan(tables, vmas, 0, 0, t);
    StaysReachableIff(tables, vmas, 0, 0);
  }

  /** If every table page between the bounds serves a listed vma, then exactly the pages between the
      bounds go, and every page that stays is still reachable from the top.  That every page does is
      shown in PageTableLifetime for every run. */
  lemma NothingIsCutOff(tables: set<Table>, vmas: seq<Range>, floor: Word, ceiling: Word)
    requires AllPlaced(tables) && Radix(tables) && Listed(vmas, floor, ceiling)
    requires forall t :: t in tables && Inside(t, floor, ceiling) ==> Serves(vmas, t)
    ensures
      var left := tables - Gone(tables, vmas, |vmas|, floor, ceiling);
      && Radix(left)
      && left == set t | t in tables && !Inside(t, floor, ceiling)
  {
    var left := tables - Gone(tables, vmas, |vmas|, floor, ceiling);
    forall t | t in left && t.level < 3 ensures Parent(t) in left { ParentHolds(t); }
  }
}
