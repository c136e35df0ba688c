/** What each small operation of the private-memory machine does to the contents that
    processes see: nothing, except at the one address it is about. */
module PrivateMemoryViews {
  import opened Wrappers
  import opened PrivateMemory
  import opened PrivateMemoryInvariant

  /** Every address other than a shows what it showed before. */
  ghost predicate SameBut(st: State, st': State, a: Addr) {
    forall b :: SeesSame(st, st', b) || b == a
  }

  ghost predicate Same(st: State, st': State) {
    forall b :: SeesSame(st, st', b)
  }

  ghost predicate SeesSame(st: State, st': State, b: Addr) {
    View(st', b) == View(st, b)
  }

  lemma SameThen(st: State, st1: State, st2: State)
    requires Same(st, st1) && Same(st1, st2)
    ensures Same(st, st2)
  {
    hide View;
    forall b ensures SeesSame(st, st2, b) { assert SeesSame(st, st1, b) && SeesSame(st1, st2, b); }
  }

  lemma SameThenBut(st: State, st1: State, st2: State, a: Addr)
    requires Same(st, st1) && SameBut(st1, st2, a)
    ensures SameBut(st, st2, a)
  {
    hide View;
    forall b ensures SeesSame(st, st2, b) || b == a {
      assert SeesSame(st, st1, b) && (SeesSame(st1, st2, b) || b == a);
    }
  }

  lemma ButThenSame(st: State, st1: State, st2: State, a: Addr)
    requires SameBut(st, st1, a) && Same(st1, st2)
    ensures SameBut(st, st2, a) && View(st2, a) == View(st1, a)
  {
    hide View;
    assert SeesSame(st1, st2, a);
    forall b ensures SeesSame(st, st2, b) || b == a {
      assert SeesSame(st1, st2, b) && (SeesSame(st, st1, b) || b == a);
    }
  }

  lemma ButThenBut(st: State, st1: State, st2: State, a: Addr)
    requires SameBut(st, st1, a) && SameBut(st1, st2, a)
    ensures SameBut(st, st2, a)
  {
    hide View;
    forall b ensures SeesSame(st, st2, b) || b == a {
      assert (SeesSame(st, st1, b) && SeesSame(st1, st2, b)) || b == a;
    }
  }

  lemma ButRestored(st: State, st': State, a: Addr)
    requires SameBut(st, st', a) && View(st', a) == View(st, a)
    ensures Same(st, st')
  {
    hide View;
    forall b ensures SeesSame(st, st', b) { assert SeesSame(st, st', b) || b == a; }
  }

  lemma GetRefViews(st: State, p: nat, h: Holder)
    ensures Same(st, GetRef(st, p, h))
  {
  }

  lemma FreeFolioViews(st: State, p0: nat)
    requires Inv(st)
    requires p0 in st.folios && st.folios[p0].mapcount == 0 && st.folios[p0].swap.None?
    ensures Same(st, st.(folios := st.folios - {p0}))
  {
    var st' := st.(folios := st.folios - {p0});
    hide Mappers, SwapRefs, AnonOf, SwapOf, Zeros;
    forall b ensures SeesSame(st, st', b) {
      assert PteOk(st, b);
      if Maps(PteAt(st, b), p0) { MappedCounts(st, b); }
      if PteAt(st, b).Swap? { assert CacheOk(st, PteAt(st, b).slot); }
    }
  }

  lemma PutRefViews(st: State, p0: nat, h: Holder)
    requires Inv(st)
    ensures Same(st, PutRef(st, p0, h))
  {
    if p0 in st.folios && h in st.folios[p0].holders && st.folios[p0].refs == 1 {
      assert FolioOk(st, p0);
      SetSizes({h}, st.folios[p0].holders);
      MapcountNotNegative(st, p0);
      FreeFolioViews(st, p0);
    }
  }

  lemma SlotReleaseViews(st: State, s0: nat)
    requires Inv(st)
    ensures Same(st, SlotRelease(st, s0))
  {
    var st' := SlotRelease(st, s0);
    hide Mappers, SwapRefs, AnonOf, SwapOf, Zeros;
    forall b ensures SeesSame(st, st', b) {
      assert PteOk(st, b);
      if Refers(PteAt(st, b), s0) && s0 in st.slots { ReferencedCounts(st, b); }
    }
  }

  /** Dropping a folio from the swap cache is safe if its slot is unused or up to date. */
  lemma DropFromCacheViews(st: State, p0: nat)
    requires Inv(st)
    requires p0 in st.folios && st.folios[p0].swap.Some?
    requires
      || (st.folios[p0].swap.value in st.slots && st.slots[st.folios[p0].swap.value].count == 0)
      || (!st.folios[p0].dirty && !st.folios[p0].writeback)
    ensures Same(st, DropFromCache(st, p0))
  {
    var st' := DropFromCache(st, p0);
    var s0 := st.folios[p0].swap.value;
    assert FolioOk(st, p0);
    assert CacheOk(st, s0);
    hide Mappers, SwapRefs, AnonOf, SwapOf, Zeros;
    forall b ensures SeesSame(st, st', b) {
      assert PteOk(st, b);
      if Refers(PteAt(st, b), s0) { ReferencedCounts(st, b); }
    }
  }

  lemma MapNewViews(st: State, a: Addr, np: nat, d: PageData, w: bool)
    requires Inv(st)
    requires np !in st.folios
    ensures SameBut(st, MapNew(st, a, np, d, w), a)
    ensures View(MapNew(st, a, np, d, w), a) == d
  {
    var st' := MapNew(st, a, np, d, w);
    forall b | b != a ensures SeesSame(st, st', b) {
      assert PteOk(st, b);
      if PteAt(st, b).Swap? { assert CacheOk(st, PteAt(st, b).slot); }
    }
  }

  lemma MapHeldViews(st: State, a: Addr, p0: nat, h: Holder)
    requires p0 in st.folios
    ensures SameBut(st, MapHeld(st, a, p0, h), a)
    ensures View(MapHeld(st, a, p0, h), a) == st.folios[p0].data
  {
  }

  lemma UnmapHeldViews(st: State, a: Addr, h: Holder)
    ensures SameBut(st, UnmapHeld(st, a, h), a)
  {
  }

  lemma DemoteViews(st: State, a: Addr)
    ensures Same(st, Demote(st, a))
  {
  }

  lemma PromoteViews(st: State, a: Addr, w: bool)
    ensures Same(st, Promote(st, a, w))
  {
  }

  lemma MarkSwapViews(st: State, a: Addr, x: bool)
    ensures Same(st, MarkSwap(st, a, x))
  {
  }

  lemma MapSwapViews(st: State, a: Addr, s: nat)
    requires s in st.slots
    ensures SameBut(st, MapSwap(st, a, s), a)
    ensures View(MapSwap(st, a, s), a) == SlotData(st, s)
  {
  }

  lemma UnmapSwapViews(st: State, a: Addr)
    ensures SameBut(st, UnmapSwap(st, a), a)
  {
  }

  /** Writing to an exclusive folio is seen at its one mapping and nowhere else, not even
      through a swap entry. */
  lemma WriteFolioViews(st: State, p0: nat, off: nat, x: int)
    requires Inv(st)
    requires p0 in st.folios && st.folios[p0].anonExclusive
    ensures forall b :: View(WriteFolio(st, p0, off, x), b)
                     == if Maps(PteAt(st, b), p0) then Poke(View(st, b), off, x) else View(st, b)
  {
    var st' := WriteFolio(st, p0, off, x);
    hide Mappers, SwapRefs, AnonOf, SwapOf, Zeros;
    forall b ensures View(st', b) == if Maps(PteAt(st, b), p0) then Poke(View(st, b), off, x) else View(st, b) {
      assert PteOk(st, b);
      if PteAt(st, b).Swap? { ReferencedCounts(st, b); assert CacheOk(st, PteAt(st, b).slot); }
    }
  }

  lemma ReadSwapViews(st: State, s0: nat, np: nat)
    requires Inv(st)
    ensures Same(st, ReadSwap(st, s0, np))
  {
    var st' := ReadSwap(st, s0, np);
    hide Mappers, SwapRefs, AnonOf, SwapOf, Zeros;
    forall b ensures SeesSame(st, st', b) {
      assert PteOk(st, b);
      if PteAt(st, b).Swap? { assert CacheOk(st, PteAt(st, b).slot); }
    }
  }

  lemma AddToSwapViews(st: State, p0: nat, s0: nat, stable: bool, junk: PageData)
    requires Inv(st)
    ensures Same(st, AddToSwap(st, p0, s0, stable, junk))
  {
    var st' := AddToSwap(st, p0, s0, stable, junk);
    hide Mappers, SwapRefs, AnonOf, SwapOf, Zeros;
    forall b ensures SeesSame(st, st', b) {
      assert PteOk(st, b);
      if PteAt(st, b).Swap? { assert CacheOk(st, PteAt(st, b).slot); }
    }
  }

  lemma EndWritebackViews(st: State, p0: nat, junk: PageData)
    requires Inv(st)
    ensures Same(st, EndWriteback(st, p0, junk))
  {
    var st' := EndWriteback(st, p0, junk);
    assert FolioOk(st, p0);
    hide Mappers, SwapRefs, AnonOf, SwapOf, Zeros;
    forall b ensures SeesSame(st, st', b) {
      assert PteOk(st, b);
      if PteAt(st, b).Swap? { assert CacheOk(st, PteAt(st, b).slot); }
    }
  }

  lemma FolioFreeSwapOk(st: State, p0: nat)
    requires Inv(st)
    requires p0 in st.folios && st.folios[p0].refs > 1
    ensures Inv(FolioFreeSwap(st, p0)) && Same(st, FolioFreeSwap(st, p0))
    ensures p0 in FolioFreeSwap(st, p0).folios
    ensures
      var f, g := st.folios[p0], FolioFreeSwap(st, p0).folios[p0];
      && g == if CanFreeSwap(st, p0) then f.(swap := None, dirty := true, refs := f.refs - 1) else f
  {
    if CanFreeSwap(st, p0) {
      var s0 := st.folios[p0].swap.value;
      var st1 := DropFromCache(st, p0);
      DropFromCacheKeeps(st, p0);
      DropFromCacheViews(st, p0);
      SlotReleaseKeeps(st1, s0);
      SlotReleaseViews(st1, s0);
      forall b ensures SeesSame(st, FolioFreeSwap(st, p0), b) {
        assert SeesSame(st, st1, b);
        assert SeesSame(st1, SlotRelease(st1, s0), b);
      }
    }
  }
}
