/** What the private-memory machine gets done: nothing that is unused stays behind, a page that
    nobody else uses goes out to swap and comes back, a write fault ends in a copy of one's own, and
    what is taken for a while is given back. */
module PrivateMemoryProgress {
  import opened Wrappers
  import opened PrivateMemory
  import opened PrivateMemoryInvariant
  import opened PrivateMemoryRefinement
  import opened PrivateMemoryAccounting
  import opened PrivateMemoryAccess
  import V = PrivateMemoryViews

  // ---------------------------------------------------------- out to swap and back

  /** Entries, folios, slots and the swap cache; copies and direct reads are those of st. */
  ghost predicate Shows(st: State, st': State, ptes: map<Addr, Pte>, folios: map<nat, Folio>,
                        slots: map<nat, SwapSlot>, cache: map<nat, nat>)
  {
    && st'.ptes == ptes && st'.folios == folios && st'.slots == slots && st'.cache == cache
    && st'.copies == st.copies && st'.direct == st.direct
  }

  lemma SlotIsFree(st: State, s: nat)
    requires Inv(st) && s !in st.slots
    ensures s !in st.cache && s !in st.direct
  {
    assert CacheOk(st, s) && DirectOk(st, s);
  }

  /** A folio with one reference is held by its one mapping. */
  lemma OneReference(st: State, a: Addr)
    requires Inv(st) && PteAt(st, a).Present?
    ensures PteAt(st, a).page in st.folios
    ensures var f := st.folios[PteAt(st, a).page]; f.refs == 1 ==> f.mapcount == 1 && f.holders == {} && f.swap.None?
  {
    assert PteOk(st, a) && FolioOk(st, PteAt(st, a).page);
    MappedCounts(st, a);
  }

  lemma SwapAdded(st: State, p: nat, s: nat, stable: bool, junk: PageData)
    requires p in st.folios && st.folios[p].swap.None? && s !in st.slots
    ensures
      var f, st' := st.folios[p], Next(st, SAddToSwap(p, s, stable, junk));
      Shows(st, st', st.ptes, st.folios[p := f.(swap := Some(s), refs := f.refs + 1, dirty := true)],
            st.slots[s := SwapSlot(0, junk, stable)], st.cache[s := p])
  {
  }

  lemma Cleared(st: State, a: Addr, h: Holder, p: nat)
    requires Maps(PteAt(st, a), p) && p in st.folios && st.folios[p].holders == {}
    ensures
      var f := st.folios[p];
      Shows(st, UnmapHeld(Demote(st, a), a, h), st.ptes[a := Empty],
            st.folios[p := f.(anonExclusive := false, mapcount := f.mapcount - 1, holders := {h})], st.slots, st.cache)
  {
    var f := st.folios[p];
    assert f.holders + {h} == {h};
    var st1 := Demote(st, a);
    assert st1.folios == st.folios[p := f.(anonExclusive := false)] && PteAt(st1, a).page == p;
    hide Demote;
  }

  lemma Swapped(st: State, a: Addr, s: nat, x: bool)
    requires s in st.slots
    ensures
      var slot := st.slots[s];
      Shows(st, MarkSwap(MapSwap(st, a, s), a, x), st.ptes[a := Swap(s, x)], st.folios,
            st.slots[s := slot.(count := slot.count + 1)], st.cache)
  {
  }

  lemma Dropped(st: State, p: nat, h: Holder)
    requires p in st.folios && st.folios[p].holders == {h} && st.folios[p].refs == 2
    ensures Shows(st, PutRef(st, p, h), st.ptes, st.folios[p := st.folios[p].(refs := 1, holders := {})], st.slots,
        st.cache)
  {
    assert {h} - {h} == {};
  }

  lemma Unmapped(st: State, a: Addr, h: Holder, p: nat, s: nat)
    requires Maps(PteAt(st, a), p) && p in st.folios && s in st.slots && h.Transient?
    requires var f := st.folios[p]; f.swap == Some(s) && f.holders == {} && f.refs == 2
    ensures
      var f, slot, st' := st.folios[p], st.slots[s], Next(st, SUnmap(a, h, {}));
      Shows(st, st', st.ptes[a := Swap(s, f.anonExclusive)],
            st.folios[p := f.(anonExclusive := false, mapcount := f.mapcount - 1, refs := 1)],
            st.slots[s := slot.(count := slot.count + 1)], st.cache)
  {
    hide Demote, UnmapHeld, MapSwap, MarkSwap, PutRef;
    var f := st.folios[p];
    var st1 := UnmapHeld(Demote(st, a), a, h);
    Cleared(st, a, h, p);
    Swapped(st1, a, s, f.anonExclusive);
    var st2 := MarkSwap(MapSwap(st1, a, s), a, f.anonExclusive);
    Dropped(st2, p, h);
    assert Unmap(st, a, h, {}) == PutRef(st2, p, h);
  }

  lemma Written(st: State, p: nat, s: nat, junk: PageData)
    requires p in st.folios && s in st.slots
    requires var f := st.folios[p]; f.swap == Some(s) && f.holders == {} && f.mapcount == 0 && f.dirty && !f.writeback
    ensures
      var f, slot := st.folios[p], st.slots[s];
      var st' := Next(Next(st, SStartWriteback(p)), SEndWriteback(p, junk));
      Shows(st, st', st.ptes, st.folios[p := f.(dirty := false)], st.slots[s := slot.(data := f.data)], st.cache)
  {
    var f := st.folios[p];
    var st1 := Next(st, SStartWriteback(p));
    assert st1 == st.(folios := st.folios[p := f.(dirty := false, writeback := true)]);
    hide StartWriteback;
    assert st1.folios[p := f.(dirty := false)] == st.folios[p := f.(dirty := false)];
  }

  lemma Reclaimed(st: State, p: nat, s: nat, h: Holder)
    requires p in st.folios && s in st.slots && s in st.cache && st.slots[s].count > 0 && h.Transient?
    requires var f := st.folios[p];
      f.swap == Some(s) && f.holders == {} && f.mapcount == 0 && f.refs == 1 && !f.dirty && !f.writeback
    ensures Shows(st, Next(st, SReclaim(p, h)), st.ptes, st.folios - {p}, st.slots, st.cache - {s})
  {
    var f := st.folios[p];
    var st1 := DropFromCache(GetRef(st, p, h), p);
    assert st1.folios[p].refs == 1 && st1.folios[p].holders == {h} && st1.cache == st.cache - {s};
    assert st1.folios - {p} == st.folios - {p};
    hide GetRef, DropFromCache;
  }

  /** A page with no user but its one mapping goes out to any free slot: the entry names the slot, and
      says whether the page was exclusive; the slot holds the page, and the folio is gone. */
  lemma SwapsOut(st: State, a: Addr, s: nat, stable: bool, h: Holder, junk: PageData)
    requires Reachable(st) && PteAt(st, a).Present? && PteAt(st, a).page in st.folios
    requires st.folios[PteAt(st, a).page].refs == 1 && s !in st.slots && h.Transient?
    ensures
      var p := PteAt(st, a).page;
      var f := st.folios[p];
      var st1 := Next(st, SAddToSwap(p, s, stable, junk));
      var st2 := Next(st1, SUnmap(a, h, {}));
      var st4 := Next(Next(st2, SStartWriteback(p)), SEndWriteback(p, junk));
      var st5 := Next(st4, SReclaim(p, h));
      Shows(st, st5, st.ptes[a := Swap(s, f.anonExclusive)], st.folios - {p},
            st.slots[s := SwapSlot(1, f.data, stable)], st.cache)
  {
    hide Next, Inv;
    ReachableInv(st);
    OneReference(st, a);
    SlotIsFree(st, s);
    var p := PteAt(st, a).page;
    var f := st.folios[p];
    assert NotWritten(st, p) by { FreshIsClean(st, p); }
    SwapAdded(st, p, s, stable, junk);
    var st1 := Next(st, SAddToSwap(p, s, stable, junk));
    Unmapped(st1, a, h, p, s);
    var st2 := Next(st1, SUnmap(a, h, {}));
    Written(st2, p, s, junk);
    var st4 := Next(Next(st2, SStartWriteback(p)), SEndWriteback(p, junk));
    Reclaimed(st4, p, s, h);
    assert st.cache[s := p] - {s} == st.cache;
    assert st4.folios - {p} == st.folios - {p};
  }

  ghost predicate NotWritten(st: State, p: nat)
    requires p in st.folios
  {
    !st.folios[p].writeback
  }

  lemma FreshIsClean(st: State, p: nat)
    requires Inv(st) && p in st.folios && st.folios[p].swap.None?
    ensures NotWritten(st, p)
  {
    assert FolioOk(st, p);
  }

  lemma ReadIn(st: State, s: nat, np: nat)
    requires s in st.slots && s !in st.cache && s !in st.direct && np !in st.folios
    ensures Shows(st, Next(st, SReadSwap(s, np)), st.ptes,
                  st.folios[np := Folio(st.slots[s].data, 1, 0, false, Some(s), false, false, {})], st.slots,
                  st.cache[s := np])
  {
  }

  /** The swap entry goes, and with it the swap cache if that can be given up. */
  lemma TakenIn(st: State, a: Addr, h: Holder, s: nat, np: nat, free: bool)
    requires Refers(PteAt(st, a), s) && s in st.slots && s in st.cache && st.cache[s] == np && s !in st.direct
    requires np in st.folios && h.Transient?
    requires var f := st.folios[np]; f.swap == Some(s) && f.refs == 1 && f.holders == {} && !f.writeback
    ensures SwapInEnabled(st, a, h)
    ensures
      var f, slot, st' := st.folios[np], st.slots[s], SwapInTaken(st, a, h, free);
      if free && slot.count == 1 then
        Shows(st, st', st.ptes[a := Empty], st.folios[np := f.(swap := None, dirty := true, refs := 1, holders := {h})],
              st.slots - {s}, st.cache - {s})
      else
        Shows(st, st', st.ptes[a := Empty], st.folios[np := f.(refs := 2, holders := {h})],
              st.slots[s := slot.(count := slot.count - 1)], st.cache)
  {
    var f, slot := st.folios[np], st.slots[s];
    assert f.holders + {h} == {h};
    var st2 := UnmapSwap(GetRef(st, np, h), a);
    assert Shows(st, st2, st.ptes[a := Empty], st.folios[np := f.(refs := 2, holders := {h})],
      st.slots[s := slot.(count := slot.count - 1)], st.cache);
    hide GetRef, UnmapSwap;
    FreeIs(st2, np, s);
    hide FolioFreeSwap;
    assert st.slots[s := slot.(count := slot.count - 1)] - {s} == st.slots - {s};
  }

  lemma FreeIs(st: State, p: nat, s: nat)
    requires p in st.folios && st.folios[p].swap == Some(s) && !st.folios[p].writeback && s in st.slots
    requires s !in st.direct
    ensures
      if st.slots[s].count == 0 then
        Shows(st, FolioFreeSwap(st, p), st.ptes,
              st.folios[p := st.folios[p].(swap := None, dirty := true, refs := st.folios[p].refs - 1)], st.slots - {s},
              st.cache - {s})
      else FolioFreeSwap(st, p) == st
  {
  }

  lemma MappedIn(st: State, a: Addr, h: Holder, np: nat, exclusive: bool, vmWrite: bool)
    requires np in st.folios && st.folios[np].holders == {h} && !st.folios[np].anonExclusive
    ensures
      var f, st4 := st.folios[np], MapHeld(st, a, np, h);
      Shows(st, if exclusive then Promote(st4, a, vmWrite) else st4, st.ptes[a := Present(np, exclusive && vmWrite)],
            st.folios[np := f.(mapcount := f.mapcount + 1, holders := {}, anonExclusive := exclusive)], st.slots,
            st.cache)
  {
    var f, st4 := st.folios[np], MapHeld(st, a, np, h);
    assert f.holders - {h} == {};
    assert st4.ptes == st.ptes[a := Present(np, false)];
    assert st4.folios == st.folios[np := f.(mapcount := f.mapcount + 1, holders := {})];
    hide MapHeld;
  }

  lemma EntryHasSlot(st: State, a: Addr)
    requires Inv(st) && PteAt(st, a).Swap?
    ensures PteAt(st, a).slot in st.slots
  {
    assert PteOk(st, a);
  }

  lemma SwapInIs(st: State, a: Addr, h: Holder, s: nat, np: nat, write: bool, vmWrite: bool, swapFull: bool)
    requires SwapInEnabled(st, a, h) && PteAt(st, a).slot == s && st.cache[s] == np
    requires st.folios[np].refs == 1 && !st.folios[np].writeback
    ensures
      var st3 := SwapInTaken(st, a, h, swapFull || write);
      np in st3.folios ==>
        var st4 := MapHeld(st3, a, np, h);
        Next(st, SSwapIn(a, h, write, vmWrite, swapFull))
        == if PteAt(st, a).exclusive || st3.folios[np].refs == 1 then Promote(st4, a, vmWrite) else st4
  {
    hide SwapInTaken, MapHeld, Promote;
  }

  /** The swap-in of a folio that has just been read. */
  lemma ComesIn(st: State, a: Addr, s: nat, np: nat, h: Holder, write: bool, vmWrite: bool, swapFull: bool, d: PageData)
    requires Refers(PteAt(st, a), s) && s in st.slots && s in st.cache && st.cache[s] == np && s !in st.direct
    requires np in st.folios && st.folios[np] == Folio(d, 1, 0, false, Some(s), false, false, {}) && h.Transient?
    ensures
      var slot, x, st' := st.slots[s], PteAt(st, a).exclusive, Next(st, SSwapIn(a, h, write, vmWrite, swapFull));
      if slot.count == 1 && (write || swapFull) then
        Shows(st, st', st.ptes[a := Present(np, vmWrite)],
              st.folios[np := Folio(d, 1, 1, true, None, true, false, {})], st.slots - {s}, st.cache - {s})
      else
        Shows(st, st', st.ptes[a := Present(np, x && vmWrite)],
              st.folios[np := Folio(d, 2, 1, x, Some(s), false, false, {})],
              st.slots[s := slot.(count := slot.count - 1)], st.cache)
  {
    hide Next, SwapInTaken, Promote, MapHeld, SwapInEnabled;
    var free := swapFull || write;
    TakenIn(st, a, h, s, np, free);
    var st3 := SwapInTaken(st, a, h, free);
    MappedIn(st3, a, h, np, PteAt(st, a).exclusive || st3.folios[np].refs == 1, vmWrite);
    SwapInIs(st, a, h, s, np, write, vmWrite, swapFull);
    assert st3.ptes[a := Present(np, vmWrite)] == st.ptes[a := Present(np, vmWrite)];
    assert st3.ptes[a := Present(np, false)] == st.ptes[a := Present(np, false)];
  }

  /** A slot that is not cached is read into a new folio, which is then mapped.  If nobody else refers
      to the slot and the page is to be written, or swap space is short, the slot is free afterwards
      and the page exclusive; else the page stays in the swap cache, and is exclusive if the entry
      said so. */
  lemma SwapsIn(st: State, a: Addr, s: nat, np: nat, h: Holder, write: bool, vmWrite: bool, swapFull: bool)
    requires Reachable(st) && Refers(PteAt(st, a), s) && s !in st.cache && s !in st.direct && np !in st.folios
    requires h.Transient?
    ensures s in st.slots
    ensures
      var slot, x := st.slots[s], PteAt(st, a).exclusive;
      var st2 := Next(Next(st, SReadSwap(s, np)), SSwapIn(a, h, write, vmWrite, swapFull));
      if slot.count == 1 && (write || swapFull) then
        Shows(st, st2, st.ptes[a := Present(np, vmWrite)],
              st.folios[np := Folio(slot.data, 1, 1, true, None, true, false, {})], st.slots - {s}, st.cache)
      else
        Shows(st, st2, st.ptes[a := Present(np, x && vmWrite)],
              st.folios[np := Folio(slot.data, 2, 1, x, Some(s), false, false, {})],
              st.slots[s := slot.(count := slot.count - 1)], st.cache[s := np])
  {
    hide Next, Inv;
    ReachableInv(st);
    EntryHasSlot(st, a);
    ReadIn(st, s, np);
    var st1 := Next(st, SReadSwap(s, np));
    ComesIn(st1, a, s, np, h, write, vmWrite, swapFull, st.slots[s].data);
    assert st.cache[s := np] - {s} == st.cache;
  }

  // ------------------------------------------------------------ nothing is left over

  /** Every slot but one has a reference, is cached or is being read directly. */
  ghost predicate NoneLeft(st: State, but: Option<nat>) {
    forall s :: s in st.slots && but != Some(s) ==> st.slots[s].count != 0 || s in st.cache || s in st.direct
  }

  predicate SameSwap(st: State, st': State) {
    st'.slots == st.slots && st'.cache == st.cache && st'.direct == st.direct
  }

  lemma SameLeft(st: State, st': State, but: Option<nat>)
    requires NoneLeft(st, but) && SameSwap(st, st')
    ensures NoneLeft(st', but)
  {
  }

  lemma RefsSame(st: State, p: nat, h: Holder)
    ensures SameSwap(st, GetRef(st, p, h)) && SameSwap(st, PutRef(st, p, h))
  {
    if p in st.folios && h in st.folios[p].holders && st.folios[p].refs == 1 {
      assert PutRef(st, p, h) == st.(folios := st.folios - {p});
    }
  }

  lemma NewSame(st: State, a: Addr, p: nat, d: PageData, w: bool)
    ensures SameSwap(st, MapNew(st, a, p, d, w))
  {
  }

  lemma HeldSame(st: State, a: Addr, p: nat, h: Holder)
    ensures SameSwap(st, MapHeld(st, a, p, h)) && SameSwap(st, UnmapHeld(st, a, h))
  {
  }

  lemma MarksSame(st: State, a: Addr, w: bool)
    ensures SameSwap(st, Demote(st, a)) && SameSwap(st, Promote(st, a, w)) && SameSwap(st, MarkSwap(st, a, w))
  {
  }

  lemma EndCopySame(st: State, t: nat, h: Holder)
    ensures SameSwap(st, EndCopy(st, t, h))
  {
    if t in st.copies {
      var e := st.copies[t].orig;
      assert SameSwap(st, ForgetCopy(st, t, h));
      hide ForgetCopy, PutRef;
      if e.Present? { RefsSame(ForgetCopy(st, t, h), e.page, h); }
    }
  }

  lemma FreeLeft(st: State, p: nat)
    requires NoneLeft(st, None)
    ensures NoneLeft(FolioFreeSwap(st, p), None)
  {
  }

  lemma ReleaseLeft(st: State, s: nat)
    requires NoneLeft(st, Some(s))
    ensures NoneLeft(SlotRelease(st, s), None)
  {
  }

  lemma UnmapLeft(st: State, a: Addr)
    requires NoneLeft(st, None) && PteAt(st, a).Swap?
    ensures NoneLeft(UnmapSwap(st, a), Some(PteAt(st, a).slot))
    ensures UnmapSwap(st, a).cache == st.cache && UnmapSwap(st, a).direct == st.direct
  {
  }

  lemma StillNeeded(st: State, s: nat)
    requires NoneLeft(st, Some(s)) && (s in st.cache || s in st.direct)
    ensures NoneLeft(st, None)
  {
  }

  lemma MapSwapLeft(st: State, a: Addr, s: nat)
    requires NoneLeft(st, None) && (s in st.slots ==> st.slots[s].count >= 0)
    ensures NoneLeft(MapSwap(st, a, s), None)
  {
  }

  lemma CountNotNegative(st: State, s: nat)
    requires Inv(st) && s in st.slots
    ensures st.slots[s].count >= 0
  {
    assert SlotOk(st, s);
  }

  lemma ShareSame(st: State, src: Addr, dst: Addr, p: nat, h: Holder)
    ensures SameSwap(st, MapHeld(Demote(GetRef(st, p, h), src), dst, p, h))
  {
    hide MapHeld, Demote, GetRef;
    RefsSame(st, p, h);
    MarksSame(GetRef(st, p, h), src, false);
    HeldSame(Demote(GetRef(st, p, h), src), dst, p, h);
  }

  lemma CopySwapLeft(st: State, src: Addr, dst: Addr, s: nat)
    requires Inv(st) && NoneLeft(st, None)
    ensures NoneLeft(MapSwap(MarkSwap(st, src, false), dst, s), None)
  {
    hide Inv, NoneLeft, MarkSwap, MapSwap;
    MarksSame(st, src, false);
    SameLeft(st, MarkSwap(st, src, false), None);
    if s in st.slots { CountNotNegative(st, s); }
    MapSwapLeft(MarkSwap(st, src, false), dst, s);
  }

  lemma CopyEntryLeft(st: State, src: Addr, dst: Addr, h: Holder, maybePinned: bool, prealloc: Option<nat>,
                      dupFails: bool, vmWrite: bool)
    requires Inv(st) && NoneLeft(st, None)
    ensures NoneLeft(CopyEntry(st, src, dst, h, maybePinned, prealloc, dupFails, vmWrite), None)
  {
    hide Inv, MapNew, MapHeld, Demote, GetRef, MapSwap, MarkSwap, HasGup, NoneLeft;
    var st' := CopyEntry(st, src, dst, h, maybePinned, prealloc, dupFails, vmWrite);
    match PteAt(st, src)
    case Present(p, _) =>
      ShareSame(st, src, dst, p, h);
      if p in st.folios && prealloc.Some? { NewSame(st, dst, prealloc.value, st.folios[p].data, vmWrite); }
      SameLeft(st, st', None);
    case Swap(s, _) => CopySwapLeft(st, src, dst, s);
    case _ => SameLeft(st, st', None);
  }

  lemma WpFaultLeft(st: State, t: nat, a: Addr, unshare: bool, vmWrite: bool, trylock: bool)
    requires NoneLeft(st, None)
    ensures NoneLeft(WpFault(st, t, a, unshare, vmWrite, trylock), None)
  {
    hide NoneLeft, FolioFreeSwap, Promote;
    var e := PteAt(st, a);
    if e.Present? && e.page in st.folios {
      FreeLeft(st, e.page);
      var st1 := TryReuse(st, e.page, trylock).0;
      hide TryReuse;
      MarksSame(st1, a, !unshare && vmWrite);
      MarksSame(st, a, vmWrite);
      SameLeft(st1, BeginCopy(st1, t, a, unshare), None);
      SameLeft(st1, Promote(st1, a, !unshare && vmWrite), None);
      SameLeft(st, Promote(st, a, vmWrite), None);
    } else {
      SameLeft(st, WpFault(st, t, a, unshare, vmWrite, trylock), None);
    }
  }

  /** The page is switched to the copy. */
  lemma SwitchLeft(st: State, t: nat, a: Addr, p: nat, np: nat, h: Holder, d: PageData, w: bool, trylock: bool)
    requires NoneLeft(st, None)
    ensures
      var st3 := PutRef(MapNew(UnmapHeld(st, a, h), a, np, d, w), p, h);
      var st4 := if trylock && p in st3.folios && st3.folios[p].mapcount == 0 then FolioFreeSwap(st3, p) else st3;
      NoneLeft(EndCopy(st4, t, h), None)
  {
    hide NoneLeft, FolioFreeSwap, MapNew, UnmapHeld, PutRef, EndCopy;
    var st1 := UnmapHeld(st, a, h);
    HeldSame(st, a, p, h);
    NewSame(st1, a, np, d, w);
    var st3 := PutRef(MapNew(st1, a, np, d, w), p, h);
    RefsSame(MapNew(st1, a, np, d, w), p, h);
    SameLeft(st, st3, None);
    FreeLeft(st3, p);
    var st4 := if trylock && p in st3.folios && st3.folios[p].mapcount == 0 then FolioFreeSwap(st3, p) else st3;
    EndCopySame(st4, t, h);
    SameLeft(st4, EndCopy(st4, t, h), None);
  }

  lemma WpFinishLeft(st: State, t: nat, np: nat, h: Holder, vmWrite: bool, trylock: bool)
    requires NoneLeft(st, None)
    ensures NoneLeft(WpFinish(st, t, np, h, vmWrite, trylock), None)
  {
    hide NoneLeft, FolioFreeSwap, MapNew, UnmapHeld, PutRef, EndCopy;
    EndCopySame(st, t, h);
    SameLeft(st, EndCopy(st, t, h), None);
    if t in st.copies && st.copies[t].copied.Some? {
      var c := st.copies[t];
      var w := !c.unshare && vmWrite;
      var st1 := MapNew(st, c.addr, np, c.copied.value, w);
      NewSame(st, c.addr, np, c.copied.value, w);
      EndCopySame(st1, t, h);
      SameLeft(st, EndCopy(st1, t, h), None);
      if c.orig.Present? { SwitchLeft(st, t, c.addr, c.orig.page, np, h, c.copied.value, w, trylock); }
    }
  }

  lemma SwapInLeft(st: State, a: Addr, h: Holder, write: bool, vmWrite: bool, swapFull: bool)
    requires NoneLeft(st, None)
    ensures NoneLeft(SwapIn(st, a, h, write, vmWrite, swapFull), None)
  {
    hide NoneLeft, FolioFreeSwap, MapHeld, Promote, GetRef, UnmapSwap;
    if SwapInEnabled(st, a, h) {
      var p := st.cache[PteAt(st, a).slot];
      RefsSame(st, p, h);
      var st1 := GetRef(st, p, h);
      SameLeft(st, st1, None);
      GetRefEntries(st, p, h);
      UnmapLeft(st1, a);
      var st2 := UnmapSwap(st1, a);
      StillNeeded(st2, PteAt(st, a).slot);
      FreeLeft(st2, p);
      var st3 := SwapInTaken(st, a, h, swapFull || (write && st.folios[p].refs + 1 == 2));
      hide SwapInTaken;
      HeldSame(st3, a, p, h);
      MarksSame(MapHeld(st3, a, p, h), a, vmWrite);
      SameLeft(st3, SwapIn(st, a, h, write, vmWrite, swapFull), None);
    }
  }

  lemma DirectLeft(st: State, s: nat)
    requires NoneLeft(st, None) || NoneLeft(st, Some(s))
    ensures NoneLeft(DirectClear(st, s), None)
  {
    hide SlotRelease;
    ReleaseLeft(st.(direct := st.direct - {s}), s);
  }

  lemma DirectFinishLeft(st: State, a: Addr, np: nat, vmWrite: bool)
    requires NoneLeft(st, None)
    ensures NoneLeft(DirectFinish(st, a, np, vmWrite), None)
  {
    hide NoneLeft, MapNew, UnmapSwap, DirectClear;
    var e := PteAt(st, a);
    if e.Swap? && e.slot in st.direct {
      UnmapLeft(st, a);
      var st1 := UnmapSwap(st, a);
      NewSame(st1, a, np, st.direct[e.slot], vmWrite);
      SameLeft(st1, MapNew(st1, a, np, st.direct[e.slot], vmWrite), Some(e.slot));
      DirectLeft(MapNew(st1, a, np, st.direct[e.slot], vmWrite), e.slot);
    }
  }

  lemma UnmapStepLeft(st: State, a: Addr, h: Holder, fails: set<UnmapFailure>)
    requires Inv(st) && NoneLeft(st, None)
    ensures NoneLeft(Unmap(st, a, h, fails), None)
  {
    hide Inv, NoneLeft, UnmapHeld, Demote, MapSwap, MarkSwap, PutRef, HasGup;
    var e := PteAt(st, a);
    if e.Present? && e.page in st.folios && st.folios[e.page].swap.Some? {
      var p, s, x := e.page, st.folios[e.page].swap.value, st.folios[e.page].anonExclusive;
      MarksSame(st, a, false);
      HeldSame(Demote(st, a), a, p, h);
      var st1 := UnmapHeld(Demote(st, a), a, h);
      SameLeft(st, st1, None);
      if s in st.slots { CountNotNegative(st, s); }
      MapSwapLeft(st1, a, s);
      var st2 := MapSwap(st1, a, s);
      MarksSame(st2, a, x);
      RefsSame(MarkSwap(st2, a, x), p, h);
      SameLeft(st2, PutRef(MarkSwap(st2, a, x), p, h), None);
    }
  }

  lemma ReclaimLeft(st: State, p: nat, h: Holder)
    requires NoneLeft(st, None)
    ensures NoneLeft(Reclaim(st, p, h), None) && NoneLeft(FreeSwap(st, p, h), None)
  {
    hide NoneLeft, GetRef, PutRef, FolioFreeSwap, SlotRelease;
    if p in st.folios {
      var st1 := GetRef(st, p, h);
      RefsSame(st, p, h);
      SameLeft(st, st1, None);
      FreeLeft(st1, p);
      RefsSame(FolioFreeSwap(st1, p), p, h);
      SameLeft(FolioFreeSwap(st1, p), PutRef(FolioFreeSwap(st1, p), p, h), None);
      if st.folios[p].swap.Some? {
        var s := st.folios[p].swap.value;
        HeldSwap(st, p, h);
        DropLeft(st1, p, s);
        hide DropFromCache;
        RefsSame(DropFromCache(st1, p), p, h);
        SameLeft(DropFromCache(st1, p), PutRef(DropFromCache(st1, p), p, h), Some(s));
        ReleaseLeft(PutRef(DropFromCache(st1, p), p, h), s);
      }
    }
  }

  lemma HeldSwap(st: State, p: nat, h: Holder)
    requires p in st.folios
    ensures p in GetRef(st, p, h).folios && GetRef(st, p, h).folios[p].swap == st.folios[p].swap
  {
  }

  lemma DropLeft(st: State, p: nat, s: nat)
    requires NoneLeft(st, None) && (p in st.folios ==> st.folios[p].swap == Some(s))
    ensures NoneLeft(DropFromCache(st, p), Some(s))
  {
  }

  lemma ZapLeft(st: State, a: Addr, h: Holder)
    requires NoneLeft(st, None)
    ensures NoneLeft(Zap(st, a, h), None)
  {
    hide NoneLeft, UnmapHeld, UnmapSwap, SlotRelease;
    HeldSame(st, a, 0, h);
    SameLeft(st, UnmapHeld(st, a, h), None);
    match PteAt(st, a)
    case Swap(s, _) =>
      UnmapLeft(st, a);
      ReleaseLeft(UnmapSwap(st, a), s);
    case ZeroPage => SameLeft(st, SetPte(st, a, Empty), None);
    case _ =>
  }

  predicate TouchesSwap(step: Step) {
    || step.SReadSwap? || step.SDirectPrepare? || step.SDirectAbort? || step.SAddToSwap? || step.SReclaim?
    || step.SFreeSwap? || step.SZap? || step.SEndWriteback?
  }

  lemma SlotReadLeft(st: State, p: nat, s: nat)
    requires NoneLeft(st, None)
    ensures NoneLeft(ReadSwap(st, s, p), None) && NoneLeft(DirectPrepare(st, s), None)
  {
  }

  lemma SlotWriteLeft(st: State, p: nat, s: nat, stable: bool, junk: PageData)
    requires NoneLeft(st, None)
    ensures NoneLeft(AddToSwap(st, p, s, stable, junk), None) && NoneLeft(EndWriteback(st, p, junk), None)
  {
  }

  lemma SwapStepLeft(st: State, step: Step)
    requires NoneLeft(st, None) && TouchesSwap(step)
    ensures NoneLeft(Next(st, step), None)
  {
    hide NoneLeft, DirectClear, Reclaim, FreeSwap, Zap, ReadSwap, DirectPrepare, AddToSwap, EndWriteback;
    match step
    case SDirectAbort(s) => DirectLeft(st, s);
    case SReclaim(p, h) => ReclaimLeft(st, p, h);
    case SFreeSwap(p, h) => ReclaimLeft(st, p, h);
    case SZap(a, h) => ZapLeft(st, a, h);
    case SReadSwap(s, np) => SlotReadLeft(st, np, s);
    case SDirectPrepare(s) => SlotReadLeft(st, 0, s);
    case SAddToSwap(p, s, stable, junk) => SlotWriteLeft(st, p, s, stable, junk);
    case SEndWriteback(p, junk) => SlotWriteLeft(st, p, 0, false, junk);
    case _ =>
  }

  predicate LeavesSwap(step: Step) {
    || step.SAnonFault? || step.SStore? || step.SCopyData? || step.SWpAbort? || step.SStartWriteback?
    || step.SPinPage? || step.STakeRef? || step.SLeaveRef? || step.SDmaWrite?
  }

  lemma CopyDataSame(st: State, t: nat)
    ensures SameSwap(st, CopyData(st, t))
  {
  }

  lemma WritebackSame(st: State, p: nat)
    ensures SameSwap(st, StartWriteback(st, p))
  {
  }

  lemma StoreSame(st: State, a: Addr, p: nat, i: nat, off: nat, b: int)
    ensures SameSwap(st, Store(st, a, off, b)) && SameSwap(st, DmaWrite(st, p, i, off, b))
  {
    hide Poke;
  }

  lemma RefStepsSame(st: State, a: Addr, p: nat, i: nat, h: Holder)
    ensures SameSwap(st, PinPage(st, a, i)) && SameSwap(st, TakeRef(st, p, i)) && SameSwap(st, LeaveRef(st, p, h))
  {
    hide GetRef, PutRef;
    RefsSame(st, p, Transient(i));
    RefsSame(st, p, h);
    if PteAt(st, a).Present? { RefsSame(st, PteAt(st, a).page, Gup(i)); }
  }

  lemma AnonFaultSame(st: State, a: Addr, write: bool, vmWrite: bool, np: nat)
    ensures SameSwap(st, AnonFault(st, a, write, vmWrite, np))
  {
    hide MapNew;
    NewSame(st, a, np, Zeros(), vmWrite);
  }

  predicate IsRefStep(step: Step) {
    step.SPinPage? || step.STakeRef? || step.SLeaveRef? || step.SDmaWrite?
  }

  lemma RefStepLeft(st: State, step: Step)
    requires IsRefStep(step)
    ensures SameSwap(st, Next(st, step))
  {
    hide PinPage, TakeRef, LeaveRef, DmaWrite;
    match step
    case SPinPage(a, i) => RefStepsSame(st, a, 0, i, Transient(0));
    case STakeRef(p, i) => RefStepsSame(st, Addr(0, 0), p, i, Transient(0));
    case SLeaveRef(p, h) => RefStepsSame(st, Addr(0, 0), p, 0, h);
    case SDmaWrite(p, i, off, b) => StoreSame(st, Addr(0, 0), p, i, off, b);
  }

  lemma OtherLeft(st: State, step: Step)
    requires LeavesSwap(step)
    ensures SameSwap(st, Next(st, step))
  {
    hide AnonFault, Store, CopyData, EndCopy, StartWriteback;
    if IsRefStep(step) {
      hide Next;
      RefStepLeft(st, step);
    } else {
      match step
      case SAnonFault(a, write, vmWrite, np) => AnonFaultSame(st, a, write, vmWrite, np);
      case SStore(a, off, b) => StoreSame(st, a, 0, 0, off, b);
      case SCopyData(t) => CopyDataSame(st, t);
      case SStartWriteback(p) => WritebackSame(st, p);
      case SWpAbort(t, h) => EndCopySame(st, t, h);
    }
  }

  lemma NextLeft(st: State, step: Step)
    requires Inv(st) && NoneLeft(st, None)
    ensures NoneLeft(Next(st, step), None)
  {
    hide NoneLeft, Inv, CopyEntry, WpFault, WpFinish, SwapIn, DirectFinish, Unmap;
    match step
    case SCopyEntry(src, dst, h, maybePinned, prealloc, dupFails, vmWrite) =>
      CopyEntryLeft(st, src, dst, h, maybePinned, prealloc, dupFails, vmWrite);
    case SWpFault(t, a, unshare, vmWrite, trylock) => WpFaultLeft(st, t, a, unshare, vmWrite, trylock);
    case SWpFinish(t, np, h, vmWrite, trylock) => WpFinishLeft(st, t, np, h, vmWrite, trylock);
    case SSwapIn(a, h, write, vmWrite, swapFull) => SwapInLeft(st, a, h, write, vmWrite, swapFull);
    case SDirectFinish(a, np, vmWrite) => DirectFinishLeft(st, a, np, vmWrite);
    case SUnmap(a, h, fails) => UnmapStepLeft(st, a, h, fails);
    case _ => ElseLeft(st, step);
  }

  lemma ElseLeft(st: State, step: Step)
    requires NoneLeft(st, None) && (TouchesSwap(step) || LeavesSwap(step))
    ensures NoneLeft(Next(st, step), None)
  {
    hide Next, NoneLeft;
    if TouchesSwap(step) {
      SwapStepLeft(st, step);
    } else {
      OtherLeft(st, step);
      SameLeft(st, Next(st, step), None);
    }
  }

  lemma {:induction false} RunLeft(steps: seq<Step>)
    ensures NoneLeft(Run(BOOT, steps), None)
    decreases |steps|
  {
    if steps != [] {
      var n := |steps| - 1;
      hide Run, Next, Inv, NoneLeft;
      RunLast(BOOT, steps);
      RunLeft(steps[..n]);
      ReachableInv(Run(BOOT, steps[..n]));
      NextLeft(Run(BOOT, steps[..n]), steps[n]);
    }
  }

  /** Over every run nothing is left over: every slot in use has an entry that names it, is cached or
      is being read, and every folio is mapped, cached or held by somebody. */
  lemma NothingIsLeft(steps: seq<Step>, s: nat, p: nat)
    ensures
      var st := Run(BOOT, steps);
      && (s in st.slots ==> s in st.cache || s in st.direct || exists a :: a in SwapRefs(st.ptes, s))
      && (p in st.folios ==>
            || st.folios[p].swap.Some? || st.folios[p].holders != {} || exists a :: a in Mappers(st.ptes, p))
  {
    hide Run, Inv;
    RunLeft(steps);
    var st := Run(BOOT, steps);
    ReachableInv(st);
    CountsAreExact(st, p, s, 0);
    FolioCounts(st, p);
    hide Mappers, SwapRefs;
    if s in st.slots && st.slots[s].count != 0 { var a :| a in SwapRefs(st.ptes, s); }
    if p in st.folios && |Mappers(st.ptes, p)| != 0 { var a :| a in Mappers(st.ptes, p); }
  }

  lemma FolioCounts(st: State, p: nat)
    requires Inv(st)
    ensures p in st.folios ==> st.folios[p].refs > 0
  {
    assert FolioOk(st, p);
  }

  // -------------------------------------------------------- copies and references

  /** The fault has begun to copy: the entry stays, and the folio is held for it. */
  lemma CopyBegins(st: State, t: nat, a: Addr, unshare: bool, vmWrite: bool, trylock: bool)
    requires Inv(st) && t !in st.copies
    requires
      var e := PteAt(st, a);
      e.ZeroPage? || (e.Present? && !e.writable && e.page in st.folios
                      && !st.folios[e.page].anonExclusive && !OnlyMapping(st, e.page, trylock))
    ensures
      var e, st1 := PteAt(st, a), WpFault(st, t, a, unshare, vmWrite, trylock);
      && st1.ptes == st.ptes && st1.copies == st.copies[t := Copy(a, e, unshare, None)]
      && (e.Present? ==>
            e.page in st1.folios && st1.folios[e.page].holders == st.folios[e.page].holders + {Copier(t)})
      && st1.folios.Keys == st.folios.Keys
  {
    var e := PteAt(st, a);
    if e.Present? {
      ReuseIs(st, a, trylock);
      FreeKeepsHolders(st, e.page);
      var st1 := TryReuse(st, e.page, trylock).0;
      assert st1.folios.Keys == st.folios.Keys && st1.folios[e.page].holders == st.folios[e.page].holders;
    }
    hide Inv, TryReuse, OnlyMapping;
  }

  lemma FreeKeepsHolders(st: State, p: nat)
    requires p in st.folios
    ensures FolioFreeSwap(st, p).folios.Keys == st.folios.Keys
    ensures FolioFreeSwap(st, p).folios[p].holders == st.folios[p].holders
  {
  }

  lemma DataCopied(st: State, t: nat)
    requires t in st.copies
    ensures
      var c, st1 := st.copies[t], Next(st, SCopyData(t));
      st1 == st.(copies := st.copies[t := c.(copied := Some(EntryData(st, c.orig)))])
  {
  }

  lemma CopyGivenUp(st: State, t: nat, h: Holder)
    requires t in st.copies && h.Transient? && Nameable(st, st.copies[t].orig, h)
    ensures EndCopy(st, t, h).copies == st.copies - {t}
  {
    hide PutRef;
    var e := st.copies[t].orig;
    var st1 := ForgetCopy(st, t, h);
    assert st1.copies == st.copies - {t};
    hide ForgetCopy;
    if e.Present? { PutKeepsCopies(st1, e.page, h); }
  }

  lemma PutKeepsCopies(st: State, p: nat, h: Holder)
    ensures PutRef(st, p, h).copies == st.copies
  {
    if p in st.folios && h in st.folios[p].holders && st.folios[p].refs == 1 {
      assert PutRef(st, p, h) == st.(folios := st.folios - {p});
    }
  }

  lemma BecomesFrom(st: State, st1: State, st2: State, a: Addr, e: Pte)
    requires st1.ptes == st.ptes && Becomes(st1, st2, a, e)
    ensures Becomes(st, st2, a, e)
  {
  }

  lemma SameAll(st: State, st1: State, st2: State, st3: State, a: Addr)
    requires V.Same(st, st1) && V.Same(st1, st2) && V.Same(st2, st3)
    ensures View(st3, a) == View(st, a)
  {
    hide View;
    assert V.SeesSame(st, st1, a) && V.SeesSame(st1, st2, a) && V.SeesSame(st2, st3, a);
  }

  predicate NeedsCopy(st: State, e: Pte, trylock: bool) {
    e.ZeroPage?
    || (e.Present? && !e.writable && e.page in st.folios
        && !st.folios[e.page].anonExclusive && !OnlyMapping(st, e.page, trylock))
  }

  lemma CopyFinishes(st: State, t: nat, a: Addr, unshare: bool, vmWrite: bool, trylock: bool, np: nat, h: Holder)
    requires Inv(st) && t !in st.copies && np !in st.folios && Nameable(st, PteAt(st, a), h)
    requires NeedsCopy(st, PteAt(st, a), trylock)
    ensures
      var st2 := CopyData(WpFault(st, t, a, unshare, vmWrite, trylock), t);
      var st3 := WpFinish(st2, t, np, h, vmWrite, trylock);
      Becomes(st, st3, a, Present(np, !unshare && vmWrite)) && View(st3, a) == View(st, a)
  {
    hide Inv, WpFault, WpFinish, View, OnlyMapping, Becomes, V.Same;
    var st1 := WpFault(st, t, a, unshare, vmWrite, trylock);
    CopyBegins(st, t, a, unshare, vmWrite, trylock);
    WpFaultOk(st, t, a, unshare, vmWrite, trylock);
    hide NeedsCopy;
    DataCopied(st1, t);
    var st2 := CopyData(st1, t);
    HiddenStep(st1, SCopyData(t));
    hide CopyData;
    WpFinishEntry(st2, t, np, h, vmWrite, trylock);
    BecomesFrom(st, st2, WpFinish(st2, t, np, h, vmWrite, trylock), a, Present(np, !unshare && vmWrite));
    WpFinishOk(st2, t, np, h, vmWrite, trylock);
    SameAll(st, st1, st2, WpFinish(st2, t, np, h, vmWrite, trylock), a);
  }

  lemma CopyStops(st: State, t: nat, a: Addr, unshare: bool, vmWrite: bool, trylock: bool, h: Holder)
    requires Inv(st) && t !in st.copies && Nameable(st, PteAt(st, a), h) && NeedsCopy(st, PteAt(st, a), trylock)
    ensures
      var st' := EndCopy(WpFault(st, t, a, unshare, vmWrite, trylock), t, h);
      st'.ptes == st.ptes && st'.copies == st.copies
  {
    hide Inv, WpFault, EndCopy, OnlyMapping;
    var st1 := WpFault(st, t, a, unshare, vmWrite, trylock);
    CopyBegins(st, t, a, unshare, vmWrite, trylock);
    EndCopyEntries(st1, t, h);
    CopyGivenUp(st1, t, h);
    assert st.copies[t := Copy(a, PteAt(st, a), unshare, None)] - {t} == st.copies;
  }

  /** A write fault that is not met by reuse ends, if nothing comes between, in the entry mapping the
      copy; giving up instead leaves every entry as it was and nothing to finish. */
  lemma WriteFaultCopies(st: State, t: nat, a: Addr, unshare: bool, vmWrite: bool, trylock: bool, np: nat, h: Holder)
    requires Reachable(st) && t !in st.copies && np !in st.folios && Nameable(st, PteAt(st, a), h)
    requires
      var e := PteAt(st, a);
      e.ZeroPage?
        || (e.Present? && !e.writable && !st.folios[e.page].anonExclusive && !OnlyMapping(st, e.page, trylock))
    ensures
      var st1 := Next(st, SWpFault(t, a, unshare, vmWrite, trylock));
      var st3 := Next(Next(st1, SCopyData(t)), SWpFinish(t, np, h, vmWrite, trylock));
      var st' := Next(st1, SWpAbort(t, h));
      && Becomes(st, st3, a, Present(np, !unshare && vmWrite)) && View(st3, a) == View(st, a)
      && st'.ptes == st.ptes && st'.copies == st.copies
  {
    hide Inv, WpFault, WpFinish, EndCopy, CopyData, View, OnlyMapping, Becomes;
    ReachableInv(st);
    CopyFinishes(st, t, a, unshare, vmWrite, trylock, np, h);
    CopyStops(st, t, a, unshare, vmWrite, trylock, h);
  }

  lemma TakenAndLeft(st: State, p: nat, h: Holder)
    requires p in st.folios && h !in st.folios[p].holders && st.folios[p].refs > 0
    ensures var st1 := GetRef(st, p, h);
      && p in st1.folios && st1.folios[p].refs == st.folios[p].refs + 1 && h in st1.folios[p].holders
      && PutRef(st1, p, h) == st && PutRef(st, p, h) == st
  {
    var f := st.folios[p];
    assert f.holders + {h} - {h} == f.holders;
    assert st.folios[p := f] == st.folios;
  }

  /** A reference that is taken and dropped leaves no trace. */
  lemma RefComesBack(st: State, p: nat, i: nat)
    requires Reachable(st) && p in st.folios && Transient(i) !in st.folios[p].holders
    ensures
      var st1 := Next(st, STakeRef(p, i));
      && p in st1.folios && st1.folios[p].refs == st.folios[p].refs + 1
      && Next(st1, SLeaveRef(p, Transient(i))) == st
  {
    ReachableInv(st);
    FolioCounts(st, p);
    hide Inv;
    TakenAndLeft(st, p, Transient(i));
    hide GetRef, PutRef;
  }

  /** Neither does a pin, which is taken exactly on a page that is exclusive. */
  lemma PinComesBack(st: State, a: Addr, i: nat)
    requires Reachable(st) && PteAt(st, a).Present? && PteAt(st, a).page in st.folios
    requires Gup(i) !in st.folios[PteAt(st, a).page].holders
    ensures
      var p, st1 := PteAt(st, a).page, Next(st, SPinPage(a, i));
      && p in st1.folios && (Gup(i) in st1.folios[p].holders <==> st.folios[p].anonExclusive)
      && Next(st1, SLeaveRef(p, Gup(i))) == st
  {
    ReachableInv(st);
    FolioCounts(st, PteAt(st, a).page);
    hide Inv;
    TakenAndLeft(st, PteAt(st, a).page, Gup(i));
    hide GetRef, PutRef;
  }

  /** Neither does a direct read that is given up, while something refers to the slot. */
  lemma DirectComesBack(st: State, s: nat)
    requires s in st.slots && st.slots[s].count != 0 && s !in st.cache && s !in st.direct
    ensures
      var st1 := Next(st, SDirectPrepare(s));
      s in st1.direct && st1.direct[s] == st.slots[s].data && Next(st1, SDirectAbort(s)) == st
  {
    assert st.direct[s := st.slots[s].data] - {s} == st.direct;
  }

  // ------------------------------------------------------------------- swap space

  /** Nobody keeps swap space for a folio that it could be taken from. */
  predicate CanGiveUp(st: State, p: nat)
    requires p in st.folios
  {
    var f := st.folios[p];
    f.swap.Some? && !f.writeback && f.swap.value in st.slots && st.slots[f.swap.value].count == 0
  }

  /** free_swap_cache takes the folio's swap space exactly if it is not being written and no entry
      refers to the slot. */
  lemma SwapGivenUp(st: State, p: nat, h: Holder)
    requires Reachable(st) && p in st.folios && h.Transient? && h !in st.folios[p].holders
    ensures
      var st' := Next(st, SFreeSwap(p, h));
      if CanGiveUp(st, p) then
        var s := st.folios[p].swap.value;
        s !in st'.slots && s !in st'.cache && (p in st'.folios ==> st'.folios[p].swap.None?)
      else st' == st
  {
    ReachableInv(st);
    FolioCounts(st, p);
    CachedNotDirect(st, p);
    hide Inv;
    TakenAndLeft(st, p, h);
    var st1 := GetRef(st, p, h);
    GetRefSlots(st, p, h);
    hide GetRef;
    GivenUp(st1, p);
    hide FolioFreeSwap;
    PutSlots(FolioFreeSwap(st1, p), p, h);
    hide PutRef;
  }

  lemma CachedNotDirect(st: State, p: nat)
    requires Inv(st) && p in st.folios
    ensures st.folios[p].swap.Some? ==> st.folios[p].swap.value !in st.direct
  {
    if st.folios[p].swap.Some? { assert FolioOk(st, p) && CacheOk(st, st.folios[p].swap.value); }
  }

  lemma GetRefSlots(st: State, p: nat, h: Holder)
    requires p in st.folios
    ensures var st1 := GetRef(st, p, h);
      && SameSwap(st, st1) && p in st1.folios && st1.folios[p].swap == st.folios[p].swap
      && st1.folios[p].writeback == st.folios[p].writeback
  {
  }

  lemma PutSlots(st: State, p: nat, h: Holder)
    ensures var st1 := PutRef(st, p, h);
      && SameSwap(st, st1)
      && (p in st1.folios ==> p in st.folios && st1.folios[p].swap == st.folios[p].swap)
  {
    RefsSame(st, p, h);
    if p in st.folios && h in st.folios[p].holders && st.folios[p].refs == 1 {
      assert PutRef(st, p, h) == st.(folios := st.folios - {p});
    }
  }

  lemma GivenUp(st: State, p: nat)
    requires p in st.folios && (st.folios[p].swap.Some? ==> st.folios[p].swap.value !in st.direct)
    ensures
      var st' := FolioFreeSwap(st, p);
      if CanGiveUp(st, p) then
        var s := st.folios[p].swap.value;
        s !in st'.slots && s !in st'.cache && p in st'.folios && st'.folios[p].swap.None?
      else st' == st
  {
  }

  /** The folio is mapped, or no swap space could be taken from it. */
  predicate NoneToGive(st: State, p: nat) {
    p in st.folios ==> st.folios[p].mapcount != 0 || !CanGiveUp(st, p)
  }

  lemma GivesAll(st: State, p: nat)
    ensures NoneToGive(if p in st.folios && st.folios[p].mapcount == 0 then FolioFreeSwap(st, p) else st, p)
  {
  }

  lemma PutGives(st: State, p: nat, q: nat, h: Holder)
    requires NoneToGive(st, p)
    ensures NoneToGive(PutRef(st, q, h), p)
  {
    if q in st.folios && h in st.folios[q].holders && st.folios[q].refs == 1 {
      assert PutRef(st, q, h) == st.(folios := st.folios - {q});
    }
  }

  lemma EndCopyGives(st: State, t: nat, p: nat, h: Holder)
    requires NoneToGive(st, p)
    ensures NoneToGive(EndCopy(st, t, h), p)
  {
    if t in st.copies {
      var e := st.copies[t].orig;
      assert NoneToGive(ForgetCopy(st, t, h), p);
      hide ForgetCopy, PutRef, NoneToGive;
      if e.Present? { PutGives(ForgetCopy(st, t, h), p, e.page, h); }
    }
  }

  /** When a copy has taken the place of the last mapping of a page, the page's swap space goes if
      nobody refers to it and the page's lock can be had. */
  lemma CopyGivesUpSwap(st: State, t: nat, np: nat, h: Holder, vmWrite: bool)
    requires t in st.copies && st.copies[t].copied.Some? && np !in st.folios && st.copies[t].orig.Present?
    requires PteAt(st, st.copies[t].addr) == st.copies[t].orig && Nameable(st, st.copies[t].orig, h)
    ensures
      var p, st' := st.copies[t].orig.page, Next(st, SWpFinish(t, np, h, vmWrite, true));
      p in st'.folios && st'.folios[p].mapcount == 0 ==> !CanGiveUp(st', p)
  {
    hide UnmapHeld, MapNew, PutRef, FolioFreeSwap, EndCopy;
    var c := st.copies[t];
    var p := c.orig.page;
    var st3 := PutRef(MapNew(UnmapHeld(st, c.addr, h), c.addr, np, c.copied.value, !c.unshare && vmWrite), p, h);
    GivesAll(st3, p);
    EndCopyGives(if p in st3.folios && st3.folios[p].mapcount == 0 then FolioFreeSwap(st3, p) else st3, t, p, h);
  }
}
