/** What ReverseMap takes for granted about exclusivity, unused slots and unused pages holds
    wherever the code acts on it: the code looks at reference counts and exclusive marks, and in
    every reachable state of PrivateMemory those say the truth about the page tables. */
module ReverseMapGuards {
  import opened Wrappers
  import opened PrivateMemory
  import opened PrivateMemoryInvariant
  import opened PrivateMemoryViews
  import opened PrivateMemoryRefinement
  import opened PrivateMemoryAccounting
  import R = ReverseMap

  /** Which vma and page index an address belongs to. */
  type Layout = Addr -> R.Place

  ghost predicate Injective(loc: Layout) {
    forall a, b :: loc(a) == loc(b) ==> a == b
  }

  predicate Shown(ptes: map<Addr, Pte>, a: Addr) {
    EntryAt(ptes, a).Present? || EntryAt(ptes, a).Swap?
  }

  function EntryOf(e: Pte): R.Entry
    requires e.Present? || e.Swap?
  {
    if e.Present? then R.Mapped(e.page) else R.Swapped(e.slot)
  }

  ghost function Entries(ptes: map<Addr, Pte>, loc: Layout): map<R.Place, R.Entry>
    requires Injective(loc)
  {
    map a | a in ptes && Shown(ptes, a) :: loc(a) := EntryOf(ptes[a])
  }

  /** The page tables and the swap cache as ReverseMap has them; vmas and what pages name are its own. */
  ghost function Project(st: State, loc: Layout, rest: R.State): R.State
    requires Injective(loc)
  {
    rest.(entries := Entries(st.ptes, loc), cache := st.cache)
  }

  lemma EntriesAt(ptes: map<Addr, Pte>, loc: Layout, a: Addr)
    requires Injective(loc)
    ensures loc(a) in Entries(ptes, loc) <==> Shown(ptes, a)
    ensures Shown(ptes, a) ==> Entries(ptes, loc)[loc(a)] == EntryOf(EntryAt(ptes, a))
  {
  }

  lemma EntriesFrom(ptes: map<Addr, Pte>, loc: Layout, b: R.Place) returns (a: Addr)
    requires Injective(loc) && b in Entries(ptes, loc)
    ensures loc(a) == b && Shown(ptes, a) && Entries(ptes, loc)[b] == EntryOf(EntryAt(ptes, a))
  {
    a :| a in ptes && Shown(ptes, a) && loc(a) == b;
  }

  /** An entry that no other address has is the only one. */
  lemma OnlyHere(st: State, loc: Layout, rest: R.State, a: Addr)
    requires Injective(loc) && Shown(st.ptes, a)
    requires forall b :: Shown(st.ptes, b) && EntryOf(PteAt(st, b)) == EntryOf(PteAt(st, a)) ==> b == a
    ensures R.OnlyEntry(Project(st, loc, rest), loc(a))
  {
    var rm := Project(st, loc, rest);
    EntriesAt(st.ptes, loc, a);
    forall b | b in rm.entries && b != loc(a) ensures rm.entries[b] != rm.entries[loc(a)] {
      var x := EntriesFrom(st.ptes, loc, b);
    }
  }

  /** A page without mappings has no entry. */
  lemma Unmapped(st: State, loc: Layout, rest: R.State, p: nat)
    requires Inv(st) && Injective(loc) && p in st.folios && st.folios[p].mapcount == 0
    ensures !R.InUse(Project(st, loc, rest), R.Mapped(p))
  {
    hide View, Zeros;
    var rm := Project(st, loc, rest);
    forall b | b in rm.entries ensures rm.entries[b] != R.Mapped(p) {
      var x := EntriesFrom(st.ptes, loc, b);
      if Maps(PteAt(st, x), p) { MappedCounts(st, x); }
    }
  }

  lemma Unreferenced(st: State, loc: Layout, rest: R.State, s: nat)
    requires Inv(st) && Injective(loc) && (s in st.slots ==> st.slots[s].count == 0)
    ensures !R.InUse(Project(st, loc, rest), R.Swapped(s))
  {
    hide View, Zeros;
    var rm := Project(st, loc, rest);
    forall b | b in rm.entries ensures rm.entries[b] != R.Swapped(s) {
      var x := EntriesFrom(st.ptes, loc, b);
      assert PteOk(st, x);
      if Refers(PteAt(st, x), s) { ReferencedCounts(st, x); }
    }
  }

  // -------------------------------------------------------------------- exclusivity

  /** A mapping whose page has no other reference is the only one. */
  lemma SoleMapping(st: State, a: Addr, loc: Layout, rest: R.State)
    requires Inv(st) && Injective(loc)
    requires PteAt(st, a).Present? && PteAt(st, a).page in st.folios && st.folios[PteAt(st, a).page].refs == 1
    ensures
      var p, rm := PteAt(st, a).page, Project(st, loc, rest);
      R.OnlyEntry(rm, loc(a)) && rm.entries[loc(a)] == R.Mapped(p) && !R.Cached(rm, p)
  {
    hide View, Mappers, SwapRefs, AnonOf, SwapOf, Zeros;
    var p := PteAt(st, a).page;
    SoleOwner(st, a);
    assert FolioOk(st, p);
    forall b | Shown(st.ptes, b) && EntryOf(PteAt(st, b)) == R.Mapped(p) ensures b == a { OnlyMapper(st, a, b); }
    OnlyHere(st, loc, rest, a);
    EntriesAt(st.ptes, loc, a);
    forall s | s in st.cache ensures st.cache[s] != p { assert CacheOk(st, s); }
  }

  /** When wp_can_reuse_anon_folio says yes, and the page is moved to the vma's own anon_vma and
      marked exclusive, this mapping is the page's only one and the page is in no swap cache. */
  lemma ReuseIsSole(st: State, a: Addr, trylock: bool, loc: Layout, rest: R.State)
    requires Reachable(st) && Injective(loc)
    requires PteAt(st, a).Present? && PteAt(st, a).page in st.folios
    requires TryReuse(st, PteAt(st, a).page, trylock).1
    ensures
      var p := PteAt(st, a).page;
      var rm := Project(TryReuse(st, p, trylock).0, loc, rest);
      R.OnlyEntry(rm, loc(a)) && rm.entries[loc(a)] == R.Mapped(p) && !R.Cached(rm, p)
  {
    ReachableInv(st);
    var p := PteAt(st, a).page;
    var st1 := TryReuse(st, p, trylock).0;
    assert PteAt(st1, a) == PteAt(st, a);
    hide Inv, SlotRelease, DropFromCache, PteAt, Same, EntryOf, R.OnlyEntry, R.Cached;
    if CanFreeSwap(st, p) { FolioFreeSwapOk(st, p); }
    SoleMapping(st1, a, loc, rest);
  }

  /** Whether do_swap_page is about to mark the page of the swap cache exclusive. */
  predicate MarksExclusive(st: State, a: Addr, h: Holder, write: bool, swapFull: bool)
    requires SwapInEnabled(st, a, h)
  {
    var e := PteAt(st, a);
    var p := st.cache[e.slot];
    var f := st.folios[p];
    var st3 := SwapInTaken(st, a, h, swapFull || (write && f.refs + 1 == 2));
    || (e.exclusive && !(f.writeback && st.slots[e.slot].stableWrites))
    || (p in st3.folios && st3.folios[p].refs == 1)
  }

  lemma MarksExclusiveIs(st: State, a: Addr, h: Holder, write: bool, vmWrite: bool, swapFull: bool)
    requires Inv(st) && SwapInEnabled(st, a, h)
    ensures IsExclusive(SwapIn(st, a, h, write, vmWrite, swapFull), st.cache[PteAt(st, a).slot])
       <==> MarksExclusive(st, a, h, write, swapFull)
  {
    hide View, Zeros, Inv, SameBut, FolioFreeSwap, GetRef, UnmapSwap, Lonely, SureExclusive;
    var free := swapFull || (write && st.folios[st.cache[PteAt(st, a).slot]].refs + 1 == 2);
    SwapInTakenOk(st, a, h, free);
    hide SwapInTaken;
  }

  /** When do_swap_page marks a page exclusive, for the mark in the entry or for the reference
      count, the swap entry it replaces was its slot's only one, and nothing else maps the page. */
  lemma ExclusiveSwapInIsSole(st: State, a: Addr, h: Holder, write: bool, vmWrite: bool, swapFull: bool, loc: Layout,
                              rest: R.State)
    requires Reachable(st) && Injective(loc)
    requires SwapInEnabled(st, a, h)
    requires IsExclusive(SwapIn(st, a, h, write, vmWrite, swapFull), st.cache[PteAt(st, a).slot])
    ensures
      var rm, s := Project(st, loc, rest), PteAt(st, a).slot;
      && R.OnlyEntry(rm, loc(a)) && rm.entries[loc(a)] == R.Swapped(s)
      && !R.InUse(rm, R.Mapped(st.cache[s]))
  {
    hide View, Zeros;
    ReachableInv(st);
    MarksExclusiveIs(st, a, h, write, vmWrite, swapFull);
    var s, p := PteAt(st, a).slot, st.cache[PteAt(st, a).slot];
    var free := swapFull || (write && st.folios[p].refs + 1 == 2);
    SoleSwapEntry(st, a, h, free);
    assert SlotOk(st, s) && FolioOk(st, p);
    forall b | Shown(st.ptes, b) && EntryOf(PteAt(st, b)) == R.Swapped(s) ensures b == a { OnlyReference(st, a, b); }
    OnlyHere(st, loc, rest, a);
    EntriesAt(st.ptes, loc, a);
    Unmapped(st, loc, rest, p);
  }

  lemma SoleSwapEntry(st: State, a: Addr, h: Holder, free: bool)
    requires Inv(st) && SwapInEnabled(st, a, h)
    requires
      var p := st.cache[PteAt(st, a).slot];
      var st3 := SwapInTaken(st, a, h, free);
      PteAt(st, a).exclusive || (p in st3.folios && st3.folios[p].refs == 1)
    ensures var s := PteAt(st, a).slot;
      s in st.slots && st.slots[s].count == 1 && st.folios[st.cache[s]].mapcount == 0
  {
    hide View, Zeros;
    var s, p := PteAt(st, a).slot, st.cache[PteAt(st, a).slot];
    SwapInTakenOk(st, a, h, free);
    var st3 := SwapInTaken(st, a, h, free);
    assert PteOk(st, a) && CacheOk(st, s) && FolioOk(st3, p);
    if !PteAt(st, a).exclusive {
      SetSizes({h}, st3.folios[p].holders);
      MapcountNotNegative(st3, p);
      assert st3.folios[p].swap.None?;
    }
  }

  // ------------------------------------------------------- giving up and giving back

  /** The tests the code makes before it gives up swap space, takes a new slot, reclaims a page or
      frees one: each means that no entry is left, or none is there yet. */
  lemma ReleasesAreUnused(st: State, p: nat, s: nat, h: Holder, loc: Layout, rest: R.State)
    requires Reachable(st) && Injective(loc) && p in st.folios
    ensures
      var rm, f := Project(st, loc, rest), st.folios[p];
      && (CanFreeSwap(st, p) ==> !R.InUse(rm, R.Swapped(f.swap.value)))
      && (s !in st.slots ==> !R.InUse(rm, R.Swapped(s)) && s !in rm.cache)
      && (f.mapcount == 0 ==> !R.InUse(rm, R.Mapped(p)))
      && (f.refs == 1 && h in f.holders ==> !R.InUse(rm, R.Mapped(p)) && !R.Cached(rm, p))
      && (f.swap.None? ==> !R.Cached(rm, p))
  {
    hide View, Zeros;
    ReachableInv(st);
    var f := st.folios[p];
    assert FolioOk(st, p) && CacheOk(st, s);
    if f.refs == 1 && h in f.holders {
      SetSizes({h}, f.holders);
      MapcountNotNegative(st, p);
    }
    if f.mapcount == 0 { Unmapped(st, loc, rest, p); }
    if s !in st.slots { Unreferenced(st, loc, rest, s); }
    if CanFreeSwap(st, p) { Unreferenced(st, loc, rest, f.swap.value); }
    forall t | t in st.cache && st.cache[t] == p ensures f.swap == Some(t) { assert CacheOk(st, t); }
  }

  // ------------------------------------------------------------ the moves are taken

  /** So a reuse in the page tables is a move in ReverseMap: it is taken, gives the page to the
      vma's own anon_vma, and reverse maps stay complete. */
  lemma ReuseMoves(st: State, a: Addr, trylock: bool, loc: Layout, rest: R.State)
    requires Reachable(st) && Injective(loc) && R.Complete(Project(st, loc, rest))
    requires PteAt(st, a).Present? && PteAt(st, a).page in st.folios
    requires TryReuse(st, PteAt(st, a).page, trylock).1
    ensures
      var p := PteAt(st, a).page;
      var moved := R.MoveAnon(Project(TryReuse(st, p, trylock).0, loc, rest), loc(a));
      && R.Complete(moved) && R.HasAnon(moved, loc(a).v)
      && p in moved.pages && moved.pages[p].Some? && moved.pages[p].value.av == R.Vmas(moved)[loc(a).v].anon.value
  {
    var p := PteAt(st, a).page;
    var st1 := TryReuse(st, p, trylock).0;
    var rm, rm1 := Project(st, loc, rest), Project(st1, loc, rest);
    ReuseOnlyUncaches(st, p, trylock);
    hide TryReuse, Entries, R.MoveAnon, R.OnlyEntry, R.Cached, R.Complete, Reachable;
    ReuseIsSole(st, a, trylock, loc, rest);
    hide Injective;
    StaysComplete(rm, rm1);
    MappedIsNamed(rm1, loc(a));
    R.MoveAnonKeeps(rm1, loc(a));
    MoveAnonMoves(rm1, loc(a));
  }

  lemma ReuseOnlyUncaches(st: State, p: nat, trylock: bool)
    requires p in st.folios
    ensures var st1 := TryReuse(st, p, trylock).0;
      st1.ptes == st.ptes && forall s :: s in st1.cache ==> s in st.cache && st1.cache[s] == st.cache[s]
  {
  }

  lemma MappedIsNamed(rm: R.State, at: R.Place)
    requires R.Complete(rm) && at in rm.entries && rm.entries[at].Mapped?
    ensures R.HasAnon(rm, at.v) && rm.entries[at].page in rm.pages
  {
    assert R.EntryOk(rm, at);
  }

  lemma MoveAnonMoves(rm: R.State, at: R.Place)
    requires R.HasAnon(rm, at.v) && R.OnlyEntry(rm, at) && rm.entries[at].Mapped? && rm.entries[at].page in rm.pages
    requires !R.Cached(rm, rm.entries[at].page)
    ensures var moved, p := R.MoveAnon(rm, at), rm.entries[at].page;
      moved.forest == rm.forest && p in moved.pages && moved.pages[p].Some?
      && moved.pages[p].value.av == R.Vmas(rm)[at.v].anon.value
  {
  }

  lemma StaysComplete(rm: R.State, rm1: R.State)
    requires R.Complete(rm) && rm1 == rm.(cache := rm1.cache)
    requires forall s :: s in rm1.cache ==> s in rm.cache && rm1.cache[s] == rm.cache[s]
    ensures R.Complete(rm1)
  {
    forall s ensures s in rm1.cache ==> rm1.cache[s] in rm1.pages { assert R.CacheOk(rm, s, 0); }
    forall b ensures b in rm1.entries && rm1.entries[b].Mapped? ==> rm1.entries[b].page in rm1.pages {
      assert R.EntryOk(rm, b);
    }
    hide R.Complete;
    R.LessKeeps(rm, rm1);
  }

  /** And a swap-in, marked exclusive or not, is a swap-in there. */
  lemma SwapInMoves(st: State, a: Addr, h: Holder, write: bool, vmWrite: bool, swapFull: bool, loc: Layout,
                    rest: R.State)
    requires Reachable(st) && Injective(loc) && R.Complete(Project(st, loc, rest))
    requires SwapInEnabled(st, a, h)
    ensures
      var p := st.cache[PteAt(st, a).slot];
      var moved := R.SwapIn(Project(st, loc, rest), loc(a), IsExclusive(SwapIn(st, a, h, write, vmWrite, swapFull), p));
      R.Complete(moved) && loc(a) in moved.entries && moved.entries[loc(a)] == R.Mapped(p)
  {
    var s := PteAt(st, a).slot;
    var p, rm := st.cache[s], Project(st, loc, rest);
    var exclusive := IsExclusive(SwapIn(st, a, h, write, vmWrite, swapFull), p);
    hide Reachable, SwapIn, Injective;
    if exclusive { ExclusiveSwapInIsSole(st, a, h, write, vmWrite, swapFull, loc, rest); }
    EntriesAt(st.ptes, loc, a);
    assert R.EntryOk(rm, loc(a)) && R.CacheOk(rm, s, 0);
    hide R.Complete, R.OnlyEntry, Entries;
    R.SwapInKeeps(rm, loc(a), exclusive);
  }
}
