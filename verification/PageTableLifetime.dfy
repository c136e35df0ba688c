/** The page tables of one address space over its whole life.  Table pages are made only for
    addresses of vmas; every unmap calls free_pgtables with the end of the vma before as floor and
    the start of the vma after as ceiling, 0 where there is none.  So every table page always
    serves a vma and hangs on its parent, and when the last vma goes nothing is left. */
module PageTableLifetime {
  import opened PageTables
  import opened FreePgtables

  datatype State = State(tables: set<Table>, live: seq<Range>)

  datatype Step =
    | Map(i: nat, r: Range)
    | Split(i: nat, mid: Word)
    | Merge(i: nat)
    | Fault(addr: Word, lowest: nat)
    | Unmap(i: nat, j: nat)

  /** The bounds that the caller of free_pgtables passes. */
  function Floor(live: seq<Range>, i: nat): Word
    requires i <= |live|
  {
    if i > 0 then live[i - 1].end else 0
  }

  function Ceiling(live: seq<Range>, j: nat): Word
    requires j <= |live|
  {
    if j < |live| then live[j].start else 0
  }

  /** The range fits into the gap before vma i. */
  predicate Between(live: seq<Range>, i: nat, r: Range)
    requires i <= |live|
  {
    r.start < r.end && (i > 0 ==> live[i - 1].end <= r.start) && (i < |live| ==> r.end <= live[i].start)
  }

  predicate InVma(live: seq<Range>, addr: Word) {
    exists k :: 0 <= k < |live| && live[k].start <= addr < live[k].end
  }

  /** The table page of a level that maps an address. */
  function TableOf(addr: Word, level: nat): Table {
    Table(level, Align(addr, level))
  }

  /** What a fault makes, from the top down; it stops early if an allocation fails. */
  ghost function Levels(addr: Word, lowest: nat): set<Table> {
    set level: nat | lowest <= level <= 3 :: TableOf(addr, level)
  }

  ghost function Next(st: State, step: Step): State {
    var live := st.live;
    match step
    case Map(i, r) =>
      if i <= |live| && Between(live, i, r)
      then st.(live := live[..i] + [r] + live[i..]) else st
    case Split(i, mid) =>
      if i < |live| && live[i].start < mid < live[i].end
      then st.(live := live[..i] + [Range(live[i].start, mid), Range(mid, live[i].end)] + live[i + 1..]) else st
    case Merge(i) =>
      if i + 1 < |live| && live[i].end == live[i + 1].start
      then st.(live := live[..i] + [Range(live[i].start, live[i + 1].end)] + live[i + 2..]) else st
    case Fault(addr, lowest) =>
      if InVma(live, addr) then st.(tables := st.tables + Levels(addr, lowest)) else st
    case Unmap(i, j) =>
      if i < j <= |live|
      then
        var vmas := live[i..j];
        State(st.tables - Gone(st.tables, vmas, |vmas|, Floor(live, i), Ceiling(live, j)), live[..i] + live[j..])
      else st
  }

  ghost function Run(st: State, steps: seq<Step>): State
    decreases |steps|
  {
    if steps == [] then st else Run(Next(st, steps[0]), steps[1..])
  }

  const BOOT := State({}, [])

  /** Every table page hangs on its parent and serves a vma. */
  ghost predicate Ok(st: State) {
    && AllPlaced(st.tables) && Radix(st.tables) && Listed(st.live, 0, 0)
    && forall t :: t in st.tables ==> Serves(st.live, t)
  }

  // ------------------------------------------------------------- the vma list

  lemma Ordered(live: seq<Range>, k: int, m: int)
    requires Listed(live, 0, 0)
    ensures 0 <= k <= m < |live| ==>
      && live[k].start <= live[m].start && live[k].end <= live[m].end
      && (k < m ==> 0 < live[k].end <= live[m].start)
  {
  }

  /** Ranges that do not overlap their neighbours do not overlap at all. */
  ghost predicate Chained(live: seq<Range>) {
    && (forall i :: 0 <= i < |live| ==> live[i].start < live[i].end)
    && (forall i :: 0 < i < |live| ==> live[i - 1].end <= live[i].start)
  }

  lemma {:induction false} ChainedApart(live: seq<Range>, i: nat, j: nat)
    requires Chained(live) && i < j < |live|
    ensures live[i].end <= live[j].start
  {
    if i < j - 1 { ChainedApart(live, i, j - 1); }
  }

  lemma ChainedIsListed(live: seq<Range>)
    requires Chained(live)
    ensures Listed(live, 0, 0)
  {
    forall i, j | 0 <= i < j < |live| ensures live[i].end <= live[j].start { ChainedApart(live, i, j); }
  }

  /** A sorted list with a range put in its gap i. */
  lemma MapListed(live: seq<Range>, i: nat, r: Range)
    requires Listed(live, 0, 0) && i <= |live| && Between(live, i, r)
    ensures Listed(live[..i] + [r] + live[i..], 0, 0)
  {
    var more := live[..i] + [r] + live[i..];
    forall k | 0 < k < |more| ensures more[k - 1].end <= more[k].start {
      if k < i {
        assert more[k - 1] == live[k - 1] && more[k] == live[k];
      } else if k > i + 1 {
        assert more[k - 1] == live[k - 2] && more[k] == live[k - 1];
      }
    }
    ChainedIsListed(more);
  }

  lemma MapOk(st: State, i: nat, r: Range)
    requires Ok(st)
    ensures Ok(Next(st, Map(i, r)))
  {
    hide AllPlaced, Radix, Meets, Listed, Between;
    var live, live' := st.live, Next(st, Map(i, r)).live;
    if live' != live {
      MapListed(live, i, r);
      forall t | t in st.tables ensures Serves(live', t) {
        var k :| 0 <= k < |live| && Meets(t, live[k].start, live[k].end);
        var m := if k < i then k else k + 1;
        assert live'[m] == live[k];
      }
    }
  }

  /** A range split in two: cut short, and the rest put behind it. */
  lemma SplitListed(live: seq<Range>, i: nat, mid: Word)
    requires Listed(live, 0, 0) && i < |live| && live[i].start < mid < live[i].end
    ensures Listed(live[..i] + [Range(live[i].start, mid), Range(mid, live[i].end)] + live[i + 1..], 0, 0)
  {
    var cut := live[i := Range(live[i].start, mid)];
    var rest := Range(mid, live[i].end);
    MapListed(cut, i + 1, rest);
    assert cut[..i + 1] + [rest] + cut[i + 1..] == live[..i] + [Range(live[i].start, mid), rest] + live[i + 1..];
  }

  lemma SplitOk(st: State, i: nat, mid: Word)
    requires Ok(st)
    ensures Ok(Next(st, Split(i, mid)))
  {
    hide AllPlaced, Radix, Listed;
    var live, live' := st.live, Next(st, Split(i, mid)).live;
    if live' != live {
      SplitListed(live, i, mid);
      forall t | t in st.tables ensures Serves(live', t) {
        var k :| 0 <= k < |live| && Meets(t, live[k].start, live[k].end);
        var m := if k < i || (k == i && Meets(t, live[i].start, mid)) then k else k + 1;
        assert Meets(t, live'[m].start, live'[m].end);
      }
    }
  }

  /** The first of two taken to the end of the second, and the second taken out. */
  lemma MergeListed(live: seq<Range>, i: nat)
    requires Listed(live, 0, 0) && i + 1 < |live| && live[i].end == live[i + 1].start
    ensures Listed(live[..i] + [Range(live[i].start, live[i + 1].end)] + live[i + 2..], 0, 0)
  {
    var less := live[..i] + [Range(live[i].start, live[i + 1].end)] + live[i + 2..];
    forall k | 0 < k < |less| ensures less[k - 1].end <= less[k].start {
      if k < i {
        assert less[k - 1] == live[k - 1] && less[k] == live[k];
      } else if k > i + 1 {
        assert less[k - 1] == live[k] && less[k] == live[k + 1];
      }
    }
    ChainedIsListed(less);
  }

  lemma MergeOk(st: State, i: nat)
    requires Ok(st)
    ensures Ok(Next(st, Merge(i)))
  {
    hide AllPlaced, Radix, Listed;
    var live, live' := st.live, Next(st, Merge(i)).live;
    if live' != live {
      MergeListed(live, i);
      Ordered(live, i, i + 1);
      forall t | t in st.tables ensures Serves(live', t) {
        var k :| 0 <= k < |live| && Meets(t, live[k].start, live[k].end);
        var m := if k <= i then k else k - 1;
        assert Meets(t, live'[m].start, live'[m].end);
      }
    }
  }

  // ------------------------------------------------------------------- a fault

  lemma TableOfIs(addr: Word, level: nat)
    requires level <= 3
    ensures WellPlaced(TableOf(addr, level)) && Meets(TableOf(addr, level), addr, addr + 1)
    ensures level < 3 ==> Parent(TableOf(addr, level)) == TableOf(addr, level + 1)
  {
    ChildMeets(addr, level, addr + 1);
    if level < 3 {
      var t := TableOf(addr, level);
      ParentHolds(t);
      AlignIs(addr, level + 1);
      OnlyTable(Parent(t), addr, addr + 1);
    }
  }

  lemma FaultOk(st: State, addr: Word, lowest: nat)
    requires Ok(st)
    ensures Ok(Next(st, Fault(addr, lowest)))
  {
    hide Listed, Align, Span;
    if InVma(st.live, addr) {
      var k :| 0 <= k < |st.live| && st.live[k].start <= addr < st.live[k].end;
      forall level: nat | level <= 3
        ensures Serves(st.live, TableOf(addr, level)) && WellPlaced(TableOf(addr, level))
        ensures level < 3 ==> Parent(TableOf(addr, level)) == TableOf(addr, level + 1)
      {
        TableOfIs(addr, level);
        assert Meets(TableOf(addr, level), st.live[k].start, st.live[k].end);
      }
      hide Serves, InVma, WellPlaced, Meets, Parent;
      var more := Levels(addr, lowest);
      forall t | t in more && t.level < 3 ensures Parent(t) in more {
        var level: nat :| lowest <= level < 3 && t == TableOf(addr, level);
        assert TableOf(addr, level + 1) in more;
      }
    }
  }

  // ------------------------------------------------------------------ an unmap

  /** What a caller passes is what free_pgtables asks for, and every table page between the bounds
      serves one of the vmas that go. */
  lemma UnmapIsSafe(st: State, i: nat, j: nat)
    requires Ok(st) && i < j <= |st.live|
    ensures
      var (vmas, floor, ceiling) := (st.live[i..j], Floor(st.live, i), Ceiling(st.live, j));
      && Listed(vmas, floor, ceiling)
      && forall t :: t in st.tables && Inside(t, floor, ceiling) ==> Serves(vmas, t)
  {
    var live := st.live;
    var vmas, floor, ceiling := live[i..j], Floor(live, i), Ceiling(live, j);
    forall t | t in st.tables && Inside(t, floor, ceiling) ensures Serves(vmas, t) {
      var k :| 0 <= k < |live| && Meets(t, live[k].start, live[k].end);
      Ordered(live, k, i - 1);
      Ordered(live, i, j);
      Ordered(live, j, k);
      assert vmas[k - i] == live[k];
    }
  }

  /** A table page across a bound also serves the vma beyond it. */
  lemma OthersServe(st: State, i: nat, j: nat, t: Table)
    requires Ok(st) && i < j <= |st.live| && t in st.tables
    requires !Inside(t, Floor(st.live, i), Ceiling(st.live, j))
    ensures Serves(st.live[..i] + st.live[j..], t)
  {
    var live, rest := st.live, st.live[..i] + st.live[j..];
    var k :| 0 <= k < |live| && Meets(t, live[k].start, live[k].end);
    if k < i {
      assert rest[k] == live[k];
    } else if k >= j {
      assert rest[k - (j - i)] == live[k];
    } else if t.start < Floor(live, i) {
      assert rest[i - 1] == live[i - 1] && Meets(t, live[i - 1].start, live[i - 1].end);
    } else {
      assert rest[i] == live[j] && Meets(t, live[j].start, live[j].end);
    }
  }

  lemma UnmapOk(st: State, i: nat, j: nat)
    requires Ok(st)
    ensures Ok(Next(st, Unmap(i, j)))
  {
    if i < j <= |st.live| {
      var vmas, floor, ceiling := st.live[i..j], Floor(st.live, i), Ceiling(st.live, j);
      var st' := Next(st, Unmap(i, j));
      UnmapIsSafe(st, i, j);
      NothingIsCutOff(st.tables, vmas, floor, ceiling);
      hide Gone;
      forall t | t in st'.tables ensures Serves(st'.live, t) { OthersServe(st, i, j, t); }
      hide Radix, Serves, Inside;
    }
  }

  // ------------------------------------------------------------------ all runs

  lemma NextOk(st: State, step: Step)
    requires Ok(st)
    ensures Ok(Next(st, step))
  {
    match step
    case Map(i, r) => MapOk(st, i, r);
    case Split(i, mid) => SplitOk(st, i, mid);
    case Merge(i) => MergeOk(st, i);
    case Fault(addr, lowest) => FaultOk(st, addr, lowest);
    case Unmap(i, j) => UnmapOk(st, i, j);
  }

  lemma {:induction false} RunOk(st: State, steps: seq<Step>)
    requires Ok(st)
    ensures Ok(Run(st, steps))
    decreases |steps|
  {
    hide Ok, Next;
    if steps != [] {
      NextOk(st, steps[0]);
      RunOk(Next(st, steps[0]), steps[1..]);
    }
  }

  /** Over every run of maps, splits, merges, faults and unmaps: no table page is ever unreachable
      from the top, every table page serves a vma, and without vmas there are no table pages. */
  lemma TablesFollowVmas(steps: seq<Step>)
    ensures
      var st := Run(BOOT, steps);
      && Radix(st.tables)
      && (forall t :: t in st.tables ==> WellPlaced(t) && Serves(st.live, t))
      && (st.live == [] ==> st.tables == {})
  {
    RunOk(BOOT, steps);
  }

  /** And every unmap is a call that free_pgtables accepts, which frees exactly the table pages
      between its bounds: those that serve no vma that stays. */
  lemma UnmapFreesTheUnserved(steps: seq<Step>, i: nat, j: nat)
    requires i < j <= |Run(BOOT, steps).live|
    ensures
      var st := Run(BOOT, steps);
      var st' := Next(st, Unmap(i, j));
      && Listed(st.live[i..j], Floor(st.live, i), Ceiling(st.live, j))
      && st'.tables == set t | t in st.tables && Serves(st'.live, t)
  {
    var st := Run(BOOT, steps);
    RunOk(BOOT, steps);
    UnmapIsSafe(st, i, j);
    NothingIsCutOff(st.tables, st.live[i..j], Floor(st.live, i), Ceiling(st.live, j));
    hide Gone, Run;
    forall t | t in st.tables
      ensures Inside(t, Floor(st.live, i), Ceiling(st.live, j)) <==> !Serves(st.live[..i] + st.live[j..], t)
    {
      if !Inside(t, Floor(st.live, i), Ceiling(st.live, j)) {
        OthersServe(st, i, j, t);
      } else {
        StayAway(st, i, j, t);
      }
    }
  }

  /** A table page between the bounds meets no vma that stays. */
  lemma StayAway(st: State, i: nat, j: nat, t: Table)
    requires Ok(st) && i < j <= |st.live| && Inside(t, Floor(st.live, i), Ceiling(st.live, j))
    ensures !Serves(st.live[..i] + st.live[j..], t)
  {
    var live, rest := st.live, st.live[..i] + st.live[j..];
    forall k | 0 <= k < |rest| ensures !Meets(t, rest[k].start, rest[k].end) {
      if k < i {
        assert rest[k] == live[k];
        Ordered(live, k, i - 1);
      } else {
        assert rest[k] == live[k + (j - i)];
        Ordered(live, i, j);
        Ordered(live, j, k + (j - i));
      }
    }
  }

  /** A fault inside a vma that gets all it allocates has a table page of every level for its address,
      and adds no other. */
  lemma FaultReaches(st: State, addr: Word, t: Table)
    requires InVma(st.live, addr)
    ensures
      var st' := Next(st, Fault(addr, 0));
      && (t in st'.tables <==> t in st.tables || (t.level <= 3 && t.start == Align(addr, t.level)))
      && st'.live == st.live
  {
    hide Align, InVma;
    if t.level <= 3 && t.start == Align(addr, t.level) {
      assert t == TableOf(addr, t.level);
      assert t in Levels(addr, 0);
    }
  }
}
