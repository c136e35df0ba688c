/** Which entries a step leaves writable: exactly those that a fault or a fork opened under a vma
    that allows writing, and those that were writable and were not write-protected or cleared. */
module PrivateMemoryAccess {
  import opened Wrappers
  import opened PrivateMemory
  import opened PrivateMemoryInvariant
  import opened PrivateMemoryRefinement
  import opened PrivateMemoryAccounting

  predicate Writable(st: State, a: Addr) {
    PteAt(st, a).Present? && PteAt(st, a).writable
  }

  /** Who holds the folio, as the counts say: the mapping alone, or the mapping and a swap cache
      that can be given up. */
  predicate OnlyMapping(st: State, p: nat, trylock: bool)
    requires p in st.folios
  {
    var f := st.folios[p];
    && trylock
    && match f.swap
       case None => f.refs == 1
       case Some(s) => f.refs == 2 && !f.writeback && s in st.slots && st.slots[s].count == 0
  }

  /** A swapped-in page has no other user: the entry says so and the page may be written now, or the
      swap cache was its only holder, this entry the slot's only one, and the slot is given up. */
  predicate OnlyUser(st: State, e: Pte, write: bool, swapFull: bool)
    requires e.Swap? && e.slot in st.cache && e.slot in st.slots && st.cache[e.slot] in st.folios
  {
    var f, s := st.folios[st.cache[e.slot]], st.slots[e.slot];
    || (e.exclusive && !(f.writeback && s.stableWrites))
    || (f.refs == 1 && s.count == 1 && !f.writeback && (swapFull || write))
  }

  /** h can name a reference to what the entry maps. */
  predicate Nameable(st: State, e: Pte, h: Holder) {
    h.Transient? && (e.Present? ==> e.page in st.folios && h !in st.folios[e.page].holders)
  }

  /** The page may be pinned, so a fork has to copy it. */
  predicate CopiedAtFork(st: State, p: nat, maybePinned: bool)
    requires p in st.folios
  {
    st.folios[p].anonExclusive && (maybePinned || HasGup(st.folios[p]))
  }

  /** The step gives write access at a. */
  predicate Opens(st: State, step: Step, a: Addr) {
    var e := PteAt(st, a);
    match step
    case SAnonFault(b, write, vmWrite, np) => b == a && e.Empty? && np !in st.folios && write && vmWrite
    case SCopyEntry(src, dst, h, maybePinned, prealloc, _, vmWrite) =>
      && dst == a && e.Empty? && PteAt(st, src).Present? && Nameable(st, PteAt(st, src), h)
      && CopiedAtFork(st, PteAt(st, src).page, maybePinned)
      && prealloc.Some? && prealloc.value !in st.folios && vmWrite
    case SWpFault(t, b, unshare, vmWrite, trylock) =>
      && b == a && t !in st.copies && e.Present? && !e.writable && e.page in st.folios
      && (st.folios[e.page].anonExclusive || OnlyMapping(st, e.page, trylock))
      && !unshare && vmWrite
    case SWpFinish(t, np, h, vmWrite, _) =>
      && t in st.copies && st.copies[t].addr == a && e == st.copies[t].orig && st.copies[t].copied.Some?
      && np !in st.folios && Nameable(st, e, h)
      && !st.copies[t].unshare && vmWrite
    case SSwapIn(b, h, write, vmWrite, swapFull) =>
      b == a && SwapInEnabled(st, a, h) && OnlyUser(st, e, write, swapFull) && vmWrite
    case SDirectFinish(b, np, vmWrite) => b == a && e.Swap? && e.slot in st.direct && np !in st.folios && vmWrite
    case _ => false
  }

  /** The step takes the entry at a away or write-protects it. */
  predicate Closes(st: State, step: Step, a: Addr) {
    var e := PteAt(st, a);
    match step
    case SCopyEntry(src, dst, h, maybePinned, _, _, _) =>
      && src == a && PteAt(st, dst).Empty? && e.Present? && Nameable(st, e, h)
      && !CopiedAtFork(st, e.page, maybePinned)
    case SUnmap(b, h, fails) =>
      && b == a && e.Present? && Nameable(st, e, h) && st.folios[e.page].swap.Some?
      && !(DupFails in fails) && !(ArchFails in fails) && !CopiedAtFork(st, e.page, MaybePinned in fails)
    case SZap(b, h) => b == a && e.Present? && Nameable(st, e, h)
    case _ => false
  }

  // ------------------------------------------------------------ entry by entry

  /** The entry at a becomes e and every other stays. */
  ghost predicate Becomes(st: State, st': State, a: Addr, e: Pte) {
    PteAt(st', a) == e && forall b :: b != a ==> PteAt(st', b) == PteAt(st, b)
  }

  ghost predicate NoneMoved(st: State, st': State) {
    forall b :: PteAt(st', b) == PteAt(st, b)
  }

  // What the small operations do to the entries.

  lemma PutRefEntries(st: State, p: nat, h: Holder)
    ensures PutRef(st, p, h).ptes == st.ptes
  {
    if p in st.folios && h in st.folios[p].holders {
      if st.folios[p].refs == 1 {
        assert PutRef(st, p, h) == st.(folios := st.folios - {p});
      }
    }
  }

  lemma GetRefEntries(st: State, p: nat, h: Holder)
    ensures GetRef(st, p, h).ptes == st.ptes && (p in st.folios ==> p in GetRef(st, p, h).folios)
  {
  }

  lemma UnmapHeldEntries(st: State, a: Addr, h: Holder)
    requires PteAt(st, a).Present? && PteAt(st, a).page in st.folios
    ensures UnmapHeld(st, a, h).ptes == st.ptes[a := Empty] && UnmapHeld(st, a, h).slots == st.slots
  {
  }

  lemma DemoteEntries(st: State, a: Addr)
    requires PteAt(st, a).Present? && PteAt(st, a).page in st.folios
    ensures
      var p, st' := PteAt(st, a).page, Demote(st, a);
      st'.ptes == st.ptes[a := Present(p, false)] && p in st'.folios && st'.slots == st.slots
  {
  }

  lemma PromoteEntry(st: State, a: Addr, w: bool)
    requires PteAt(st, a).Present? && PteAt(st, a).page in st.folios
    ensures Promote(st, a, w).ptes == st.ptes[a := Present(PteAt(st, a).page, w)]
    ensures Promote(st, a, w).copies == st.copies
  {
  }

  lemma BeginCopyIs(st: State, t: nat, a: Addr, unshare: bool)
    ensures BeginCopy(st, t, a, unshare).ptes == st.ptes
    ensures BeginCopy(st, t, a, unshare).copies == st.copies[t := Copy(a, PteAt(st, a), unshare, None)]
  {
    var e := PteAt(st, a);
    if e.Present? && e.page in st.folios {
      var f := st.folios[e.page];
      var held := st.folios[e.page := f.(refs := f.refs + 1, holders := f.holders + {Copier(t)})];
      assert BeginCopy(st, t, a, unshare) == st.(copies := st.copies[t := Copy(a, e, unshare, None)], folios := held);
      hide BeginCopy;
    }
  }

  lemma MapSwapEntries(st: State, a: Addr, s: nat)
    requires s in st.slots
    ensures MapSwap(st, a, s).ptes == st.ptes[a := Swap(s, false)]
  {
  }

  lemma MarkSwapEntries(st: State, a: Addr, x: bool)
    requires PteAt(st, a).Swap?
    ensures MarkSwap(st, a, x).ptes == st.ptes[a := Swap(PteAt(st, a).slot, x)] && MarkSwap(st, a, x).slots == st.slots
  {
  }

  lemma AnonFaultEntry(st: State, a: Addr, write: bool, vmWrite: bool, np: nat)
    requires PteAt(st, a).Empty? && np !in st.folios
    ensures Becomes(st, AnonFault(st, a, write, vmWrite, np), a, if write then Present(np, vmWrite) else ZeroPage)
  {
    hide Zeros;
  }

  /** What giving up the swap cache does to the folio's references. */
  lemma FreeSwapCounts(st: State, p: nat)
    requires p in st.folios
    ensures var st' := FolioFreeSwap(st, p);
      && st'.ptes == st.ptes && p in st'.folios
      && st'.folios[p].refs == st.folios[p].refs - (if CanFreeSwap(st, p) then 1 else 0)
  {
  }

  lemma TakenCounts(st: State, a: Addr, h: Holder, free: bool)
    requires SwapInEnabled(st, a, h)
    requires st.folios[st.cache[PteAt(st, a).slot]].swap == Some(PteAt(st, a).slot)
    ensures
      var s := PteAt(st, a).slot;
      var f, st3 := st.folios[st.cache[s]], SwapInTaken(st, a, h, free);
      && st3.ptes == st.ptes[a := Empty] && st.cache[s] in st3.folios
      && st3.folios[st.cache[s]].refs
         == f.refs + 1 - (if free && st.slots[s].count == 1 && !f.writeback then 1 else 0)
  {
    var p := st.cache[PteAt(st, a).slot];
    var st2 := UnmapSwap(GetRef(st, p, h), a);
    assert st2.ptes == st.ptes[a := Empty] && st2.folios[p].refs == st.folios[p].refs + 1;
    FreeSwapCounts(st2, p);
    hide FolioFreeSwap;
  }

  /** The last part of the swap-in: map the page, then open it. */
  lemma MapAndOpen(st: State, a: Addr, p: nat, h: Holder, exclusive: bool, vmWrite: bool)
    requires p in st.folios
    ensures
      var st4 := MapHeld(st, a, p, h);
      var st5 := if exclusive then Promote(st4, a, vmWrite) else st4;
      Becomes(st, st5, a, Present(p, vmWrite && exclusive))
  {
  }

  lemma CachedRefs(st: State, s: nat)
    requires Inv(st) && s in st.cache
    ensures st.cache[s] in st.folios && st.folios[st.cache[s]].swap == Some(s) && st.folios[st.cache[s]].refs >= 1
  {
    assert CacheOk(st, s) && FolioOk(st, st.cache[s]);
  }

  /** The page is mapped with write access exactly if the vma allows it and the page has no other
      user; a read-only vma never gets a writable entry. */
  lemma SwapInEntry(st: State, a: Addr, h: Holder, write: bool, vmWrite: bool, swapFull: bool)
    requires Inv(st) && SwapInEnabled(st, a, h)
    ensures
      var e := PteAt(st, a);
      Becomes(st, SwapIn(st, a, h, write, vmWrite, swapFull), a,
              Present(st.cache[e.slot], vmWrite && OnlyUser(st, e, write, swapFull)))
  {
    hide Inv, SwapInTaken, MapHeld, Promote;
    var e := PteAt(st, a);
    var p := st.cache[e.slot];
    CachedRefs(st, e.slot);
    var f := st.folios[p];
    var free := swapFull || (write && f.refs + 1 == 2);
    TakenCounts(st, a, h, free);
    var st3 := SwapInTaken(st, a, h, free);
    var sure := e.exclusive && !(f.writeback && st.slots[e.slot].stableWrites);
    MapAndOpen(st3, a, p, h, sure || st3.folios[p].refs == 1, vmWrite);
    assert OnlyUser(st, e, write, swapFull) <==> sure || st3.folios[p].refs == 1;
    hide OnlyUser;
  }

  lemma ReuseIs(st: State, a: Addr, trylock: bool)
    requires Inv(st) && PteAt(st, a).Present?
    ensures PteAt(st, a).page in st.folios
    ensures
      var p := PteAt(st, a).page;
      var (st1, reuse) := TryReuse(st, p, trylock);
      && (reuse <==> OnlyMapping(st, p, trylock))
      && st1.ptes == st.ptes && st1.copies == st.copies && p in st1.folios
  {
    var p := PteAt(st, a).page;
    assert PteOk(st, a) && FolioOk(st, p);
    MappedCounts(st, a);
    hide Inv;
    FreeSwapCounts(st, p);
    assert FolioFreeSwap(st, p).copies == st.copies;
    hide FolioFreeSwap;
  }

  /** A write fault on a page that is not writable yet: an exclusive page is opened; so is one whose
      only user is this mapping; any other is to be copied. */
  lemma WpFaultEntry(st: State, t: nat, a: Addr, unshare: bool, vmWrite: bool, trylock: bool)
    requires Inv(st) && t !in st.copies && PteAt(st, a).Present? && !PteAt(st, a).writable
    ensures PteAt(st, a).page in st.folios
    ensures
      var e, st' := PteAt(st, a), WpFault(st, t, a, unshare, vmWrite, trylock);
      if st.folios[e.page].anonExclusive || OnlyMapping(st, e.page, trylock) then
        Becomes(st, st', a, Present(e.page, !unshare && vmWrite)) && st'.copies == st.copies
      else
        NoneMoved(st, st') && st'.copies == st.copies[t := Copy(a, e, unshare, None)]
  {
    hide Inv, TryReuse, OnlyMapping, Promote, BeginCopy;
    ReuseIs(st, a, trylock);
    var st1 := TryReuse(st, PteAt(st, a).page, trylock).0;
    PromoteEntry(st, a, vmWrite);
    PromoteEntry(st1, a, !unshare && vmWrite);
    BeginCopyIs(st1, t, a, unshare);
  }

  /** A write fault on the zero page, or on nothing that can be written, opens nothing. */
  lemma WpFaultElse(st: State, t: nat, a: Addr, unshare: bool, vmWrite: bool, trylock: bool)
    requires t in st.copies || !PteAt(st, a).Present? || PteAt(st, a).writable
    ensures NoneMoved(st, WpFault(st, t, a, unshare, vmWrite, trylock))
  {
    hide TryReuse;
  }

  lemma EndCopyEntries(st: State, t: nat, h: Holder)
    ensures EndCopy(st, t, h).ptes == st.ptes
  {
    if t in st.copies {
      var e := st.copies[t].orig;
      assert ForgetCopy(st, t, h).ptes == st.ptes;
      hide ForgetCopy, PutRef;
      if e.Present? { PutRefEntries(ForgetCopy(st, t, h), e.page, h); }
    }
  }

  /** The copy takes the place of a page. */
  lemma PageSwitched(st: State, t: nat, np: nat, h: Holder, vmWrite: bool, trylock: bool)
    requires t in st.copies && st.copies[t].copied.Some? && np !in st.folios && st.copies[t].orig.Present?
    requires var c := st.copies[t]; PteAt(st, c.addr) == c.orig && Nameable(st, c.orig, h)
    ensures
      var c := st.copies[t];
      Becomes(st, WpFinish(st, t, np, h, vmWrite, trylock), c.addr, Present(np, !c.unshare && vmWrite))
  {
    hide MapNew, UnmapHeld, PutRef, FolioFreeSwap, EndCopy;
    var c := st.copies[t];
    var p := c.orig.page;
    SwitchEntries(st, c.addr, np, h, c.copied.value, !c.unshare && vmWrite);
    var st3 := PutRef(MapNew(UnmapHeld(st, c.addr, h), c.addr, np, c.copied.value, !c.unshare && vmWrite), p, h);
    var st4 := if trylock && p in st3.folios && st3.folios[p].mapcount == 0 then FolioFreeSwap(st3, p) else st3;
    if p in st3.folios { FreeSwapCounts(st3, p); }
    EndCopyEntries(st4, t, h);
    assert WpFinish(st, t, np, h, vmWrite, trylock) == EndCopy(st4, t, h);
    hide WpFinish;
  }

  /** The copy is mapped exactly if the entry is still the one the fault saw. */
  lemma WpFinishEntry(st: State, t: nat, np: nat, h: Holder, vmWrite: bool, trylock: bool)
    requires Inv(st) && t in st.copies && st.copies[t].copied.Some? && np !in st.folios && h.Transient?
    ensures
      var c, st' := st.copies[t], WpFinish(st, t, np, h, vmWrite, trylock);
      if PteAt(st, c.addr) == c.orig && Nameable(st, c.orig, h)
      then Becomes(st, st', c.addr, Present(np, !c.unshare && vmWrite)) else NoneMoved(st, st')
  {
    hide Inv, CopyOk, MapNew, UnmapHeld, PutRef, FolioFreeSwap, EndCopy;
    var c := st.copies[t];
    EndCopyEntries(st, t, h);
    if PteAt(st, c.addr) == c.orig && Nameable(st, c.orig, h) {
      if c.orig.Present? {
        PageSwitched(st, t, np, h, vmWrite, trylock);
        hide WpFinish;
      } else {
        SwitchEntries(st, c.addr, np, h, c.copied.value, !c.unshare && vmWrite);
        EndCopyEntries(MapNew(st, c.addr, np, c.copied.value, !c.unshare && vmWrite), t, h);
      }
    }
  }

  lemma NewEntry(st: State, a: Addr, np: nat, d: PageData, w: bool)
    ensures MapNew(st, a, np, d, w).ptes == st.ptes[a := Present(np, w)]
  {
  }

  lemma SwitchEntries(st: State, a: Addr, np: nat, h: Holder, d: PageData, w: bool)
    ensures Becomes(st, MapNew(st, a, np, d, w), a, Present(np, w))
    ensures PteAt(st, a).Present? && PteAt(st, a).page in st.folios ==>
      Becomes(st, PutRef(MapNew(UnmapHeld(st, a, h), a, np, d, w), PteAt(st, a).page, h), a, Present(np, w))
  {
    hide UnmapHeld, PutRef, MapNew;
    NewEntry(st, a, np, d, w);
    if PteAt(st, a).Present? && PteAt(st, a).page in st.folios {
      UnmapHeldEntries(st, a, h);
      NewEntry(UnmapHeld(st, a, h), a, np, d, w);
      PutRefEntries(MapNew(UnmapHeld(st, a, h), a, np, d, w), PteAt(st, a).page, h);
    }
  }

  lemma ShareEntries(st: State, src: Addr, dst: Addr, h: Holder)
    requires PteAt(st, src).Present? && PteAt(st, src).page in st.folios && src != dst
    ensures
      var p := PteAt(st, src).page;
      MapHeld(Demote(GetRef(st, p, h), src), dst, p, h).ptes
        == st.ptes[src := Present(p, false)][dst := Present(p, false)]
  {
    var p := PteAt(st, src).page;
    GetRefEntries(st, p, h);
    hide GetRef;
    DemoteEntries(GetRef(st, p, h), src);
    hide Demote;
  }

  /** A fork shares a page by write-protecting both entries, or copies it and leaves the parent's. */
  lemma CopyEntries(st: State, src: Addr, dst: Addr, h: Holder, maybePinned: bool, prealloc: Option<nat>,
                    dupFails: bool, vmWrite: bool)
    requires PteAt(st, dst).Empty? && PteAt(st, src).Present? && Nameable(st, PteAt(st, src), h)
    ensures
      var e, st' := PteAt(st, src), CopyEntry(st, src, dst, h, maybePinned, prealloc, dupFails, vmWrite);
      if !CopiedAtFork(st, e.page, maybePinned) then
        && PteAt(st', src) == Present(e.page, false) && PteAt(st', dst) == Present(e.page, false)
        && (forall b :: b != src && b != dst ==> PteAt(st', b) == PteAt(st, b))
      else if prealloc.Some? && prealloc.value !in st.folios then
        Becomes(st, st', dst, Present(prealloc.value, vmWrite))
      else NoneMoved(st, st')
  {
    hide HasGup, MapHeld, Demote, GetRef, MapNew;
    if src != dst { ShareEntries(st, src, dst, h); }
    if prealloc.Some? { NewEntry(st, dst, prealloc.value, st.folios[PteAt(st, src).page].data, vmWrite); }
  }

  /** Swap entries are copied without the exclusive mark, and neither side keeps it. */
  lemma CopyElse(st: State, src: Addr, dst: Addr, h: Holder, maybePinned: bool, prealloc: Option<nat>,
                 dupFails: bool, vmWrite: bool)
    requires !PteAt(st, dst).Empty? || !PteAt(st, src).Present? || !Nameable(st, PteAt(st, src), h)
    ensures
      var e, st' := PteAt(st, src), CopyEntry(st, src, dst, h, maybePinned, prealloc, dupFails, vmWrite);
      if PteAt(st, dst).Empty? && e.ZeroPage? then Becomes(st, st', dst, ZeroPage)
      else if PteAt(st, dst).Empty? && e.Swap? && e.slot in st.slots && !dupFails then
        && PteAt(st', src) == Swap(e.slot, false) && PteAt(st', dst) == Swap(e.slot, false)
        && (forall b :: b != src && b != dst ==> PteAt(st', b) == PteAt(st, b))
      else !PteAt(st, dst).Empty? || !e.Swap? || dupFails ==> NoneMoved(st, st')
  {
    hide HasGup, MapHeld, Demote, GetRef, MapNew, MapSwap, MarkSwap;
    var e := PteAt(st, src);
    if PteAt(st, dst).Empty? && e.Swap? && e.slot in st.slots {
      MarkSwapEntries(st, src, false);
      MapSwapEntries(MarkSwap(st, src, false), dst, e.slot);
    }
  }

  lemma DirectEntry(st: State, a: Addr, np: nat, vmWrite: bool)
    requires Inv(st) && PteAt(st, a).Swap? && PteAt(st, a).slot in st.direct && np !in st.folios
    ensures Becomes(st, DirectFinish(st, a, np, vmWrite), a, Present(np, vmWrite))
  {
    assert PteOk(st, a);
    hide Inv, PteOk;
  }

  lemma UnmapHeldEntry(st: State, a: Addr, h: Holder, p: nat, s: nat, exclusive: bool)
    requires PteAt(st, a).Present? && p in st.folios && PteAt(st, a).page == p && s in st.slots
    ensures
      var st1 := UnmapHeld(Demote(st, a), a, h);
      Becomes(st, PutRef(MarkSwap(MapSwap(st1, a, s), a, exclusive), p, h), a, Swap(s, exclusive))
  {
    hide UnmapHeld, Demote, PutRef, MarkSwap, MapSwap;
    DemoteEntries(st, a);
    UnmapHeldEntries(Demote(st, a), a, h);
    var st1 := UnmapHeld(Demote(st, a), a, h);
    MapSwapEntries(st1, a, s);
    MarkSwapEntries(MapSwap(st1, a, s), a, exclusive);
    PutRefEntries(MarkSwap(MapSwap(st1, a, s), a, exclusive), p, h);
  }

  /** Reclaim leaves a swap entry, exclusive if the page was. */
  lemma UnmapEntry(st: State, a: Addr, h: Holder, fails: set<UnmapFailure>)
    requires Inv(st) && PteAt(st, a).Present? && Nameable(st, PteAt(st, a), h)
    requires st.folios[PteAt(st, a).page].swap.Some?
    ensures
      var f, st' := st.folios[PteAt(st, a).page], Unmap(st, a, h, fails);
      if DupFails in fails || ArchFails in fails || CopiedAtFork(st, PteAt(st, a).page, MaybePinned in fails)
      then NoneMoved(st, st') else Becomes(st, st', a, Swap(f.swap.value, f.anonExclusive))
  {
    var p := PteAt(st, a).page;
    assert FolioOk(st, p) && CacheOk(st, st.folios[p].swap.value);
    hide Inv, FolioOk, CacheOk, HasGup;
    UnmapHeldEntry(st, a, h, p, st.folios[p].swap.value, st.folios[p].anonExclusive);
    hide UnmapHeld, Demote, PutRef, MarkSwap, MapSwap;
  }

  /** The walk goes on exactly if the mapping has become a swap entry. */
  lemma UnmapAnswer(st: State, a: Addr, h: Holder, fails: set<UnmapFailure>)
    requires Inv(st) && PteAt(st, a).Present?
    ensures var (st', more) := UnmapOne(st, a, h, fails); more <==> PteAt(st', a).Swap?
  {
    MappedIsThere(st, a);
    var p := PteAt(st, a).page;
    assert FolioOk(st, p);
    if st.folios[p].swap.Some? {
      assert CacheOk(st, st.folios[p].swap.value);
      UnmapHeldEntry(st, a, h, p, st.folios[p].swap.value, st.folios[p].anonExclusive);
    }
    hide Inv, FolioOk, CacheOk, MustKeep, UnmapHeld, Demote, PutRef, MarkSwap, MapSwap;
  }

  lemma ZapEntry(st: State, a: Addr, h: Holder)
    ensures
      var e, st' := PteAt(st, a), Zap(st, a, h);
      if e.ZeroPage? || (e.Present? && Nameable(st, e, h)) || (e.Swap? && e.slot in st.slots)
      then Becomes(st, st', a, Empty) else NoneMoved(st, st')
  {
  }

  // ---------------------------------------------------------------- theorems

  ghost predicate Exact(st: State, step: Step, a: Addr) {
    var st' := Next(st, step);
    && (Writable(st', a) <==> Opens(st, step, a) || (Writable(st, a) && !Closes(st, step, a)))
    && (Writable(st', a) && !Opens(st, step, a) ==> PteAt(st', a) == PteAt(st, a))
  }

  lemma AnonFaultExact(st: State, step: Step, a: Addr)
    requires step.SAnonFault?
    ensures Exact(st, step, a)
  {
    hide MapNew, Zeros;
    if PteAt(st, step.a).Empty? && step.np !in st.folios {
      AnonFaultEntry(st, step.a, step.write, step.vmWrite, step.np);
    }
  }

  lemma SwapInExact(st: State, step: Step, a: Addr)
    requires Inv(st) && (step.SSwapIn? || step.SDirectFinish?)
    ensures Exact(st, step, a)
  {
    hide Inv, SwapInTaken, MapHeld, Promote, MapNew, UnmapSwap, DirectClear, OnlyUser;
    if step.SSwapIn? {
      if SwapInEnabled(st, step.a, step.h) {
        SwapInEntry(st, step.a, step.h, step.write, step.vmWrite, step.swapFull);
      }
    } else if PteAt(st, step.a).Swap? && PteAt(st, step.a).slot in st.direct && step.np !in st.folios {
      DirectEntry(st, step.a, step.np, step.vmWrite);
    }
  }

  lemma WpFaultExact(st: State, t: nat, b: Addr, unshare: bool, vmWrite: bool, trylock: bool, a: Addr)
    requires Inv(st)
    ensures Exact(st, SWpFault(t, b, unshare, vmWrite, trylock), a)
  {
    hide WpFault, Inv, OnlyMapping;
    if t !in st.copies && PteAt(st, b).Present? && !PteAt(st, b).writable {
      WpFaultEntry(st, t, b, unshare, vmWrite, trylock);
    } else {
      WpFaultElse(st, t, b, unshare, vmWrite, trylock);
    }
  }

  /** A page that is being copied is not mapped writable anywhere. */
  lemma CopiedIsClosed(st: State, t: nat)
    requires Inv(st) && t in st.copies
    ensures st.copies[t].orig.Present? ==> !st.copies[t].orig.writable
  {
    assert CopyOk(st, t);
  }

  lemma WpFinishExact(st: State, t: nat, np: nat, h: Holder, vmWrite: bool, trylock: bool, a: Addr)
    requires Inv(st)
    ensures Exact(st, SWpFinish(t, np, h, vmWrite, trylock), a)
  {
    hide UnmapHeld, MapNew, PutRef, FolioFreeSwap, EndCopy, Inv;
    if t in st.copies {
      CopiedIsClosed(st, t);
      if st.copies[t].copied.Some? && np !in st.folios && h.Transient? {
        WpFinishEntry(st, t, np, h, vmWrite, trylock);
        hide WpFinish;
      }
    }
  }

  lemma MappedIsThere(st: State, a: Addr)
    requires Inv(st) && PteAt(st, a).Present?
    ensures PteAt(st, a).page in st.folios
  {
    assert PteOk(st, a);
  }

  lemma CopyEntryExact(st: State, src: Addr, dst: Addr, h: Holder, maybePinned: bool, prealloc: Option<nat>,
                       dupFails: bool, vmWrite: bool, a: Addr)
    requires Inv(st)
    ensures Exact(st, SCopyEntry(src, dst, h, maybePinned, prealloc, dupFails, vmWrite), a)
  {
    hide CopyEntry, HasGup, Inv, CopiedAtFork;
    if PteAt(st, src).Present? { MappedIsThere(st, src); }
    if PteAt(st, dst).Empty? && PteAt(st, src).Present? && Nameable(st, PteAt(st, src), h) {
      CopyEntries(st, src, dst, h, maybePinned, prealloc, dupFails, vmWrite);
    } else {
      if PteAt(st, src).Swap? { EntrySlotIsThere(st, src); }
      CopyElse(st, src, dst, h, maybePinned, prealloc, dupFails, vmWrite);
    }
  }

  lemma EntrySlotIsThere(st: State, a: Addr)
    requires Inv(st) && PteAt(st, a).Swap?
    ensures PteAt(st, a).slot in st.slots
  {
    assert PteOk(st, a);
  }

  lemma ClearExact(st: State, step: Step, a: Addr)
    requires Inv(st) && (step.SUnmap? || step.SZap?)
    ensures Exact(st, step, a)
  {
    hide UnmapOne, Zap, HasGup, Inv;
    if step.SZap? {
      ZapEntry(st, step.a, step.h);
    } else {
      var e := PteAt(st, step.a);
      if e.Present? && Nameable(st, e, step.h) && st.folios[e.page].swap.Some? {
        UnmapEntry(st, step.a, step.h, step.fails);
        hide Unmap;
      }
    }
  }

  lemma ReclaimEntries(st: State, p: nat, h: Holder)
    ensures Reclaim(st, p, h).ptes == st.ptes && FreeSwap(st, p, h).ptes == st.ptes
  {
    if p in st.folios {
      GetRefEntries(st, p, h);
      var st1 := GetRef(st, p, h);
      FreeSwapCounts(st1, p);
      assert DropFromCache(st1, p).ptes == st1.ptes;
      hide PutRef, GetRef, DropFromCache, FolioFreeSwap;
      PutRefEntries(DropFromCache(st1, p), p, h);
      PutRefEntries(FolioFreeSwap(st1, p), p, h);
    }
  }

  predicate Moves(step: Step) {
    || step.SAnonFault? || step.SCopyEntry? || step.SWpFault? || step.SWpFinish? || step.SSwapIn?
    || step.SDirectFinish? || step.SUnmap? || step.SZap?
  }

  /** Every other step leaves all entries alone. */
  lemma OthersMoveNone(st: State, step: Step)
    requires !Moves(step)
    ensures Next(st, step).ptes == st.ptes
  {
    hide PutRef, GetRef, DropFromCache, FolioFreeSwap, EndCopy, HasGup, CopyEntry, Unmap, WpFault, WpFinish, SwapIn;
    match step
    case SWpAbort(t, h) => EndCopyEntries(st, t, h);
    case SReclaim(p, h) => ReclaimEntries(st, p, h);
    case SFreeSwap(p, h) => ReclaimEntries(st, p, h);
    case SPinPage(a, i) => if PteAt(st, a).Present? { GetRefEntries(st, PteAt(st, a).page, Gup(i)); }
    case STakeRef(p, i) => GetRefEntries(st, p, Transient(i));
    case SLeaveRef(p, h) => PutRefEntries(st, p, h);
    case _ =>
  }

  lemma StepExact(st: State, step: Step, a: Addr)
    requires Inv(st)
    ensures Exact(st, step, a)
  {
    hide Exact, Inv, Opens, Closes;
    if step.SAnonFault? {
      AnonFaultExact(st, step, a);
    } else if step.SSwapIn? || step.SDirectFinish? {
      SwapInExact(st, step, a);
    } else if step.SWpFault? {
      WpFaultExact(st, step.t, step.a, step.unshare, step.vmWrite, step.trylock, a);
    } else if step.SWpFinish? {
      WpFinishExact(st, step.t, step.np, step.h, step.vmWrite, step.trylock, a);
    } else if step.SCopyEntry? {
      CopyEntryExact(st, step.src, step.dst, step.h, step.maybePinned, step.prealloc, step.dupFails, step.vmWrite, a);
    } else if step.SUnmap? || step.SZap? {
      ClearExact(st, step, a);
    } else {
      OtherExact(st, step, a);
    }
  }

  lemma OtherExact(st: State, step: Step, a: Addr)
    requires !Moves(step)
    ensures Exact(st, step, a)
  {
    hide Next;
    OthersMoveNone(st, step);
  }

  /** In every reachable state, over every step: an entry is writable afterwards exactly if the step
      opens it, which takes a vma that allows writing, or if it was writable, for the same page, and
      the step neither write-protects nor clears it. */
  lemma AccessIsExact(st: State, step: Step, a: Addr)
    requires Reachable(st)
    ensures var st' := Next(st, step);
      && (Writable(st', a) <==> Opens(st, step, a) || (Writable(st, a) && !Closes(st, step, a)))
      && (Writable(st', a) && !Opens(st, step, a) ==> PteAt(st', a) == PteAt(st, a))
  {
    hide Next, Inv, Opens, Closes;
    ReachableInv(st);
    StepExact(st, step, a);
  }

  /** The vma that the step works on allows writing. */
  predicate VmWrite(step: Step) {
    match step
    case SAnonFault(_, _, vmWrite, _) => vmWrite
    case SCopyEntry(_, _, _, _, _, _, vmWrite) => vmWrite
    case SWpFault(_, _, _, vmWrite, _) => vmWrite
    case SWpFinish(_, _, _, vmWrite, _) => vmWrite
    case SSwapIn(_, _, _, vmWrite, _) => vmWrite
    case SDirectFinish(_, _, vmWrite) => vmWrite
    case _ => false
  }

  /** Step k opened the entry and none has closed it since. */
  ghost predicate OpenSince(steps: seq<Step>, a: Addr, k: nat)
    requires k < |steps|
  {
    && VmWrite(steps[k]) && Opens(Run(BOOT, steps[..k]), steps[k], a)
    && forall j :: k < j < |steps| ==> !Closes(Run(BOOT, steps[..j]), steps[j], a)
  }

  lemma {:induction false} RunLast(st: State, steps: seq<Step>)
    requires steps != []
    ensures Run(st, steps) == Next(Run(st, steps[..|steps| - 1]), steps[|steps| - 1])
    decreases |steps|
  {
    hide Next;
    if |steps| > 1 {
      assert steps[..|steps| - 1][1..] == steps[1..][..|steps| - 2];
      RunLast(Next(st, steps[0]), steps[1..]);
    } else {
      assert steps[1..] == [] && steps[..0] == [];
    }
  }

  lemma OpensUnderVmWrite(st: State, step: Step, a: Addr)
    ensures Opens(st, step, a) ==> VmWrite(step)
  {
    hide Nameable, CopiedAtFork, OnlyMapping, SwapInEnabled, OnlyUser;
  }

  lemma OpenStays(steps: seq<Step>, a: Addr, k: nat)
    requires k < |steps| - 1
    ensures OpenSince(steps, a, k) <==>
      OpenSince(steps[..|steps| - 1], a, k)
      && !Closes(Run(BOOT, steps[..|steps| - 1]), steps[|steps| - 1], a)
  {
    hide Run, Opens, Closes, VmWrite;
    var less := steps[..|steps| - 1];
    assert less[..k] == steps[..k];
    forall j | k < j < |less| ensures less[..j] == steps[..j] { }
  }

  ghost predicate Granted(steps: seq<Step>, a: Addr) {
    exists k :: 0 <= k < |steps| && OpenSince(steps, a, k)
  }

  lemma GrantedStep(steps: seq<Step>, a: Addr)
    requires steps != []
    ensures
      var less := steps[..|steps| - 1];
      var st, last := Run(BOOT, less), steps[|steps| - 1];
      Granted(steps, a) <==> Opens(st, last, a) || (Granted(less, a) && !Closes(st, last, a))
  {
    hide Run, Opens, Closes, VmWrite;
    var n := |steps| - 1;
    var less, st := steps[..n], Run(BOOT, steps[..n]);
    OpensUnderVmWrite(st, steps[n], a);
    assert OpenSince(steps, a, n) <==> Opens(st, steps[n], a);
    forall k | 0 <= k < n ensures OpenSince(steps, a, k) <==> OpenSince(less, a, k) && !Closes(st, steps[n], a) {
      OpenStays(steps, a, k);
    }
    hide OpenSince;
  }

  lemma {:induction false} WritableExactly(steps: seq<Step>, a: Addr)
    ensures Writable(Run(BOOT, steps), a) <==> Granted(steps, a)
    decreases |steps|
  {
    hide Next, Opens, Closes, OpenSince;
    if steps != [] {
      hide Run, Granted, Writable;
      var n := |steps| - 1;
      RunLast(BOOT, steps);
      AccessIsExact(Run(BOOT, steps[..n]), steps[n], a);
      WritableExactly(steps[..n], a);
      GrantedStep(steps, a);
    }
  }

  /** Over every run: an entry is writable exactly if some step opened it under a vma that allows
      writing, and no step since has write-protected or cleared it. */
  lemma WritableIsGranted(steps: seq<Step>, a: Addr)
    ensures Writable(Run(BOOT, steps), a)
      <==> exists k :: 0 <= k < |steps| && VmWrite(steps[k]) && OpenSince(steps, a, k)
  {
    WritableExactly(steps, a);
    hide Run, Writable, Opens, Closes, VmWrite;
  }
}
