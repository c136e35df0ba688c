/** The fault, fork, unmap and zap paths as they run: in place, on page tables, folio
    descriptors, the swap map and the counters of the mm.  Each method is tied to the step of
    PrivateMemory it carries out; the two range walks are tied to what their caller relies on. */
module AnonMemory {
  import opened Wrappers
  import opened PrivateMemory
  import opened PrivateMemoryInvariant
  import opened PrivateMemoryViews
  import opened PrivateMemoryRefinement

  lemma Overwrite<K, V>(m: map<K, V>, k: K, v: V, w: V)
    ensures m[k := v][k := w] == m[k := w]
  {
  }

  /** Mapping and promoting at once is setting the entry once. */
  lemma MapThenPromote(st: State, a: Addr, p: nat, h: Holder, w: bool)
    requires p in st.folios
    ensures var f := st.folios[p];
      Promote(MapHeld(st, a, p, h), a, w) == st.(
        ptes := st.ptes[a := Present(p, w)],
        folios := st.folios[p := f.(mapcount := f.mapcount + 1, holders := f.holders - {h}, anonExclusive := true)],
        anonPages := Bump(st.anonPages, a.mm, 1))
  {
    var f := st.folios[p];
    var g := f.(mapcount := f.mapcount + 1, holders := f.holders - {h});
    Overwrite(st.ptes, a, Present(p, false), Present(p, w));
    Overwrite(st.folios, p, g, g.(anonExclusive := true));
  }

  /** try_to_unmap_one on its way through, before the last folio_put. */
  lemma UnmapShape(st: State, a: Addr, h: Holder)
    requires PteAt(st, a).Present? && PteAt(st, a).page in st.folios
    requires var f := st.folios[PteAt(st, a).page]; f.swap.Some? && f.swap.value in st.slots
    ensures
      var p := PteAt(st, a).page;
      var f := st.folios[p];
      var s := f.swap.value;
      MarkSwap(MapSwap(UnmapHeld(Demote(st, a), a, h), a, s), a, f.anonExclusive) == st.(
        ptes := st.ptes[a := Swap(s, f.anonExclusive)],
        folios := st.folios[p := f.(anonExclusive := false, mapcount := f.mapcount - 1, holders := f.holders + {h})],
        slots := st.slots[s := st.slots[s].(count := st.slots[s].count + 1)],
        anonPages := Bump(st.anonPages, a.mm, -1),
        swapEnts := Bump(st.swapEnts, a.mm, 1))
  {
    var p := PteAt(st, a).page;
    var f := st.folios[p];
    var s, x := f.swap.value, f.anonExclusive;
    Overwrite(st.ptes, a, Present(p, false), Empty);
    Overwrite(st.ptes, a, Empty, Swap(s, false));
    Overwrite(st.ptes, a, Swap(s, false), Swap(s, x));
    var f1 := f.(anonExclusive := false);
    Overwrite(st.folios, p, f1, f1.(mapcount := f.mapcount - 1, holders := f.holders + {h}));
  }

  /** What the rest of the system contributes to copying one entry. */
  datatype CopyEnv = CopyEnv(maybePinned: bool, prealloc: Option<nat>, dupFails: bool, vmWrite: bool)

  ghost predicate Unheld(st: State, h: Holder) {
    forall p :: p in st.folios ==> h !in st.folios[p].holders
  }

  /** Sharing an entry, in one update. */
  lemma ShareShape(st: State, src: Addr, dst: Addr, h: Holder)
    requires PteAt(st, src).Present? && PteAt(st, src).page in st.folios && src != dst
    requires h !in st.folios[PteAt(st, src).page].holders
    ensures
      var p := PteAt(st, src).page;
      var f := st.folios[p];
      MapHeld(Demote(GetRef(st, p, h), src), dst, p, h) == st.(
        ptes := st.ptes[src := Present(p, false)][dst := Present(p, false)],
        folios := st.folios[p := f.(refs := f.refs + 1, mapcount := f.mapcount + 1, anonExclusive := false)],
        anonPages := Bump(st.anonPages, dst.mm, 1))
  {
    var p := PteAt(st, src).page;
    var f := st.folios[p];
    var f1 := f.(refs := f.refs + 1, holders := f.holders + {h});
    var f2 := f1.(anonExclusive := false);
    assert f1.holders - {h} == f.holders;
    Overwrite(st.folios, p, f1, f2);
    Overwrite(st.folios, p, f2, f2.(mapcount := f.mapcount + 1, holders := f.holders));
  }

  lemma DupSwapShape(st: State, src: Addr, dst: Addr)
    requires PteAt(st, src).Swap? && PteAt(st, src).slot in st.slots
    ensures var s := PteAt(st, src).slot;
      MapSwap(MarkSwap(st, src, false), dst, s) == st.(
        ptes := st.ptes[src := Swap(s, false)][dst := Swap(s, false)],
        slots := st.slots[s := st.slots[s].(count := st.slots[s].count + 1)],
        swapEnts := Bump(st.swapEnts, dst.mm, 1))
  {
  }

  /** copy_pte_range cannot go on with this entry until something has been allocated. */
  predicate MustAllocate(st: State, e: Pte, env: CopyEnv) {
    match e
    case Present(p, _) =>
      && p in st.folios && Pinned(st, p, env)
      && (env.prealloc.None? || env.prealloc.value in st.folios)
    case Swap(_, _) => env.dupFails
    case _ => false
  }

  function CopyIn(st: State, src: Addr, dst: Addr, h: Holder, env: CopyEnv): State {
    CopyEntry(st, src, dst, h, env.maybePinned, env.prealloc, env.dupFails, env.vmWrite)
  }

  predicate Pinned(st: State, p: nat, env: CopyEnv)
    requires p in st.folios
  {
    st.folios[p].anonExclusive && (env.maybePinned || HasGup(st.folios[p]))
  }

  lemma CopyInShared(st: State, src: Addr, dst: Addr, h: Holder, env: CopyEnv)
    requires src != dst && PteAt(st, dst).Empty? && PteAt(st, src).Present? && h.Transient?
    requires var p := PteAt(st, src).page; p in st.folios && h !in st.folios[p].holders && !Pinned(st, p, env)
    ensures
      var p := PteAt(st, src).page;
      var f := st.folios[p];
      CopyIn(st, src, dst, h, env) == st.(
        ptes := st.ptes[src := Present(p, false)][dst := Present(p, false)],
        folios := st.folios[p := f.(refs := f.refs + 1, mapcount := f.mapcount + 1, anonExclusive := false)],
        anonPages := Bump(st.anonPages, dst.mm, 1))
  {
    ShareShape(st, src, dst, h);
    hide MapHeld, Demote, GetRef;
  }

  lemma CopyInPinned(st: State, src: Addr, dst: Addr, h: Holder, env: CopyEnv)
    requires src != dst && PteAt(st, dst).Empty? && PteAt(st, src).Present? && h.Transient?
    requires var p := PteAt(st, src).page; p in st.folios && h !in st.folios[p].holders && Pinned(st, p, env)
    ensures CopyIn(st, src, dst, h, env) ==
      if env.prealloc.None? || env.prealloc.value in st.folios then st
      else MapNew(st, dst, env.prealloc.value, st.folios[PteAt(st, src).page].data, env.vmWrite)
  {
    hide MapNew;
  }

  lemma CopyInSwap(st: State, src: Addr, dst: Addr, h: Holder, env: CopyEnv)
    requires src != dst && PteAt(st, dst).Empty? && PteAt(st, src).Swap? && PteAt(st, src).slot in st.slots
    ensures var s := PteAt(st, src).slot;
      CopyIn(st, src, dst, h, env) ==
      if env.dupFails then st
      else st.(
        ptes := st.ptes[src := Swap(s, false)][dst := Swap(s, false)],
        slots := st.slots[s := st.slots[s].(count := st.slots[s].count + 1)],
        swapEnts := Bump(st.swapEnts, dst.mm, 1))
  {
    DupSwapShape(st, src, dst);
    hide MapSwap, MarkSwap;
  }

  lemma CopyInNone(st: State, src: Addr, dst: Addr, h: Holder, env: CopyEnv)
    requires src != dst && PteAt(st, dst).Empty?
    ensures PteAt(st, src).Empty? ==> CopyIn(st, src, dst, h, env) == st
    ensures PteAt(st, src).ZeroPage? ==> CopyIn(st, src, dst, h, env) == SetPte(st, dst, ZeroPage)
  {
  }

  /** What copying an entry touches: the two entries, and no reference stays with h. */
  ghost predicate Touches(st: State, st': State, src: Addr, dst: Addr, h: Holder, refused: bool) {
    && Unheld(st', h)
    && (forall b :: b != src && b != dst ==> EntryAt(st'.ptes, b) == EntryAt(st.ptes, b))
    && (refused ==> st' == st)
    && (EntryAt(st'.ptes, dst).Empty? <==> EntryAt(st.ptes, src).Empty? || refused)
  }

  lemma CopyTouchesPage(st: State, src: Addr, dst: Addr, h: Holder, env: CopyEnv)
    requires src != dst && PteAt(st, dst).Empty? && h.Transient? && Unheld(st, h)
    requires PteAt(st, src).Present? && PteAt(st, src).page in st.folios
    ensures Touches(st, CopyIn(st, src, dst, h, env), src, dst, h, MustAllocate(st, PteAt(st, src), env))
  {
    hide CopyIn, HasGup;
    if Pinned(st, PteAt(st, src).page, env) {
      CopyInPinned(st, src, dst, h, env);
    } else {
      CopyInShared(st, src, dst, h, env);
    }
  }

  lemma CopyTouches(st: State, src: Addr, dst: Addr, h: Holder, env: CopyEnv)
    requires Inv(st) && src != dst && PteAt(st, dst).Empty? && h.Transient? && Unheld(st, h)
    ensures Touches(st, CopyIn(st, src, dst, h, env), src, dst, h, MustAllocate(st, PteAt(st, src), env))
  {
    hide Inv, CopyIn, Pinned;
    EntryBacked(st, src);
    match PteAt(st, src)
    case Swap(s, _) => CopyInSwap(st, src, dst, h, env);
    case Present(p, _) => CopyTouchesPage(st, src, dst, h, env);
    case _ => CopyInNone(st, src, dst, h, env);
  }

  lemma EntryBacked(st: State, a: Addr)
    requires Inv(st)
    ensures PteAt(st, a).Present? ==> PteAt(st, a).page in st.folios
    ensures PteAt(st, a).Swap? ==> PteAt(st, a).slot in st.slots
  {
    assert PteOk(st, a);
  }

  lemma ZapEmpties(st: State, a: Addr, h: Holder)
    requires Inv(st) && h.Transient? && Unheld(st, h)
    ensures PteAt(Zap(st, a, h), a).Empty?
    ensures forall b :: b != a ==> PteAt(Zap(st, a, h), b) == PteAt(st, b)
    ensures forall x :: x != h && Unheld(st, x) ==> Unheld(Zap(st, a, h), x)
  {
    hide Inv, SlotRelease, UnmapSwap, UnmapHeld;
    EntryBacked(st, a);
    match PteAt(st, a)
    case Present(p, _) => UnmapTouches(st, a, h);
    case Swap(s, _) =>
      UnmapSwapTouches(st, a);
      ReleaseTouches(UnmapSwap(st, a), s);
    case _ =>
  }

  lemma UnmapTouches(st: State, a: Addr, h: Holder)
    requires PteAt(st, a).Present? && PteAt(st, a).page in st.folios
    ensures UnmapHeld(st, a, h).ptes == st.ptes[a := Empty]
    ensures forall x :: x != h && Unheld(st, x) ==> Unheld(UnmapHeld(st, a, h), x)
  {
  }

  lemma UnmapSwapTouches(st: State, a: Addr)
    requires PteAt(st, a).Swap? && PteAt(st, a).slot in st.slots
    ensures UnmapSwap(st, a).ptes == st.ptes[a := Empty]
    ensures UnmapSwap(st, a).folios == st.folios
  {
  }

  lemma ReleaseTouches(st: State, s: nat)
    ensures SlotRelease(st, s).ptes == st.ptes && SlotRelease(st, s).folios == st.folios
  {
  }

  class Memory {
    var ptes: map<Addr, Pte>
    var folios: map<nat, Folio>
    var cache: map<nat, nat>
    var slots: map<nat, SwapSlot>
    var anonPages: map<nat, int>
    var swapEnts: map<nat, int>
    var copies: map<nat, Copy>
    var direct: map<nat, PageData>

    function Now(): State
      reads this
    {
      State(ptes, folios, cache, slots, anonPages, swapEnts, copies, direct)
    }

    ghost predicate Valid()
      reads this
    {
      Inv(Now())
    }

    constructor ()
      ensures Valid() && Now() == BOOT
    {
      ptes, folios, cache, slots := map[], map[], map[], map[];
      anonPages, swapEnts, copies, direct := map[], map[], map[], map[];
      new;
      BootOk();
    }

    function Get(a: Addr): Pte
      reads this
    {
      EntryAt(ptes, a)
    }

    // ------------------------------------------------------ folio and slot helpers

    method IncRef(p: nat, h: Holder)
      modifies this`folios
      ensures Now() == GetRef(old(Now()), p, h)
    {
      if p in folios && h !in folios[p].holders {
        var f := folios[p];
        folios := folios[p := f.(refs := f.refs + 1, holders := f.holders + {h})];
      }
    }

    method Put(p: nat, h: Holder)
      modifies this`folios
      ensures Now() == PutRef(old(Now()), p, h)
    {
      if p in folios && h in folios[p].holders {
        var f := folios[p];
        if f.refs == 1 {
          folios := folios - {p};
        } else {
          folios := folios[p := f.(refs := f.refs - 1, holders := f.holders - {h})];
        }
      }
    }

    method ReleaseSlot(s: nat)
      modifies this`slots
      ensures Now() == SlotRelease(old(Now()), s)
    {
      if s in slots && slots[s].count == 0 && s !in cache && s !in direct {
        slots := slots - {s};
      }
    }

    method TryFreeSwap(p: nat)
      modifies this`cache, this`folios, this`slots
      ensures Now() == FolioFreeSwap(old(Now()), p)
    {
      if p !in folios || folios[p].swap.None? || folios[p].writeback { return; }
      var s := folios[p].swap.value;
      if s !in slots || slots[s].count != 0 { return; }
      cache := cache - {s};
      folios := folios[p := folios[p].(swap := None, dirty := true, refs := folios[p].refs - 1)];
      ReleaseSlot(s);
    }

    method AddNewAnonRmap(a: Addr, np: nat, d: PageData, writable: bool)
      modifies this`ptes, this`folios, this`anonPages
      ensures Now() == MapNew(old(Now()), a, np, d, writable)
    {
      anonPages := Bump(anonPages, a.mm, 1);
      folios := folios[np := Folio(d, 1, 1, true, None, true, false, {})];
      ptes := ptes[a := Present(np, writable)];
    }

    // --------------------------------------------------------------------- faults

    method DoAnonymousPage(a: Addr, write: bool, vmWrite: bool, np: nat)
      requires Valid()
      modifies this
      ensures Now() == AnonFault(old(Now()), a, write, vmWrite, np)
      ensures Valid() && Same(old(Now()), Now())
    {
      hide Inv, Same;
      AnonFaultOk(Now(), a, write, vmWrite, np);
      if Get(a) == Empty && np !in folios {
        if !write {
          ptes := ptes[a := ZeroPage];
        } else {
          AddNewAnonRmap(a, np, Zeros(), vmWrite);
        }
      }
    }

    /** do_wp_page up to the copy; copying is true when the caller must go on with wp_page_copy. */
    method DoWpPage(t: nat, a: Addr, unshare: bool, vmWrite: bool, trylock: bool) returns (copying: bool)
      requires Valid() && t !in copies
      modifies this
      ensures Now() == WpFault(old(Now()), t, a, unshare, vmWrite, trylock)
      ensures copying == (t in copies)
      ensures Valid() && Same(old(Now()), Now())
    {
      hide Inv, Same, Promote, TryReuse, BeginCopy;
      WpFaultOk(Now(), t, a, unshare, vmWrite, trylock);
      var e := Get(a);
      if e.ZeroPage? {
        StartCopy(t, a, unshare);
        return true;
      }
      if !e.Present? || e.writable || e.page !in folios { return false; }
      var reuse := folios[e.page].anonExclusive;
      if reuse && unshare { return false; }
      if !reuse { reuse := CanReuse(e.page, trylock); }
      if reuse {
        ReuseFolio(a, !unshare && vmWrite);
        return false;
      }
      StartCopy(t, a, unshare);
      return true;
    }

    method ReuseFolio(a: Addr, writable: bool)
      requires Get(a).Present? && Get(a).page in folios
      modifies this`ptes, this`folios
      ensures Now() == Promote(old(Now()), a, writable)
    {
      var p := Get(a).page;
      folios := folios[p := folios[p].(anonExclusive := true)];
      ptes := ptes[a := Present(p, writable)];
    }

    method StartCopy(t: nat, a: Addr, unshare: bool)
      modifies this`folios, this`copies
      ensures Now() == BeginCopy(old(Now()), t, a, unshare) && t in copies
    {
      var e := Get(a);
      if e.Present? && e.page in folios {
        var f := folios[e.page];
        folios := folios[e.page := f.(refs := f.refs + 1, holders := f.holders + {Copier(t)})];
      }
      copies := copies[t := Copy(a, e, unshare, None)];
    }

    method CanReuse(p: nat, trylock: bool) returns (ok: bool)
      requires p in folios
      modifies this`cache, this`folios, this`slots
      ensures (Now(), ok) == TryReuse(old(Now()), p, trylock)
      ensures ok ==> p in folios
      ensures ptes == old(ptes) && copies == old(copies)
    {
      if folios[p].refs > 3 { return false; }
      if folios[p].refs > 1 + (if folios[p].swap.Some? then 1 else 0) { return false; }
      if !trylock { return false; }
      if folios[p].swap.Some? { TryFreeSwap(p); }
      ok := p in folios && folios[p].refs == 1;
    }

    /** try_to_unmap_one for one anonymous mapping: clear the entry first, and put it back if the
        slot cannot be duplicated, the architecture refuses or the folio may be pinned.  A walk
        that stops has put everything back if and only if the folio has a slot. */
    method TryToUnmapOne(a: Addr, h: Holder, fails: set<UnmapFailure>) returns (ok: bool)
      requires Get(a).Present? && Get(a).page in folios
      requires var f := folios[Get(a).page]; f.swap.Some? ==> f.swap.value in slots
      modifies this
      ensures (Now(), ok) == UnmapOne(old(Now()), a, h, fails)
      ensures !ok ==> (Now() == old(Now()) <==> old(folios[Get(a).page].swap.Some?))
    {
      hide Demote, UnmapHeld, MapSwap, MarkSwap, PutRef;
      if folios[Get(a).page].swap.Some? { UnmapShape(Now(), a, h); }
      var pte := Get(a);
      var p := pte.page;
      var exclusive := folios[p].anonExclusive;
      ptes := ptes[a := Empty];
      if folios[p].swap.None? {
        return false;
      }
      var s := folios[p].swap.value;
      if DupFails in fails {
        ptes := ptes[a := pte];
        assert ptes == old(ptes);
        return false;
      }
      slots := slots[s := slots[s].(count := slots[s].count + 1)];
      if ArchFails in fails || (exclusive && (MaybePinned in fails || HasGup(folios[p]))) {
        slots := slots[s := slots[s].(count := slots[s].count - 1)];
        ptes := ptes[a := pte];
        assert ptes == old(ptes) && slots == old(slots);
        return false;
      }
      anonPages := Bump(anonPages, a.mm, -1);
      swapEnts := Bump(swapEnts, a.mm, 1);
      ptes := ptes[a := Swap(s, exclusive)];
      var f := folios[p];
      folios := folios[p := f.(anonExclusive := false, mapcount := f.mapcount - 1, holders := f.holders + {h})];
      Overwrite(old(ptes), a, Empty, Swap(s, exclusive));
      Put(p, h);
      ok := true;
    }

    /** do_swap_page for a folio of the swap cache. */
    method DoSwapPage(a: Addr, h: Holder, write: bool, vmWrite: bool, swapFull: bool)
      requires Valid() && SwapInEnabled(Now(), a, h)
      modifies this
      ensures Now() == SwapIn(old(Now()), a, h, write, vmWrite, swapFull)
      ensures Valid() && Same(old(Now()), Now())
    {
      hide Inv, Same, SameBut, GetRef, UnmapSwap, FolioFreeSwap, MapHeld, Promote;
      ghost var was := Now();
      var orig := Get(a);
      var s, p := orig.slot, cache[orig.slot];
      var free := swapFull || (write && folios[p].refs + 1 == 2);
      SwapInOk(was, a, h, write, vmWrite, swapFull);
      SwapInTakenOk(was, a, h, free);
      var exclusive := orig.exclusive && !(folios[p].writeback && slots[s].stableWrites);
      IncRef(p, h);
      RemoveSwapEntry(a);
      if free { TryFreeSwap(p); }
      assert Now() == SwapInTaken(was, a, h, free);
      exclusive := exclusive || folios[p].refs == 1;
      AddAnonRmap(a, p, h, exclusive, vmWrite);
    }

    method RemoveSwapEntry(a: Addr)
      requires Get(a).Swap? && Get(a).slot in slots
      modifies this`ptes, this`slots, this`swapEnts
      ensures Now() == UnmapSwap(old(Now()), a)
    {
      var s := Get(a).slot;
      slots := slots[s := slots[s].(count := slots[s].count - 1)];
      swapEnts := Bump(swapEnts, a.mm, -1);
      ptes := ptes[a := Empty];
    }

    method AddAnonRmap(a: Addr, p: nat, h: Holder, exclusive: bool, vmWrite: bool)
      requires p in folios
      modifies this`ptes, this`folios, this`anonPages
      ensures Now() == var st := MapHeld(old(Now()), a, p, h); if exclusive then Promote(st, a, vmWrite) else st
    {
      var f := folios[p];
      anonPages := Bump(anonPages, a.mm, 1);
      f := f.(mapcount := f.mapcount + 1, holders := f.holders - {h});
      folios := folios[p := if exclusive then f.(anonExclusive := true) else f];
      ptes := ptes[a := Present(p, exclusive && vmWrite)];
      MapThenPromote(old(Now()), a, p, h, vmWrite);
      hide Promote;
    }

    /** wp_page_copy from the recheck under the lock. */
    method WpPageCopyFinish(t: nat, np: nat, h: Holder, vmWrite: bool, trylock: bool)
      requires Valid()
      requires t in copies && copies[t].copied.Some? && np !in folios && h.Transient?
      requires var e := copies[t].orig; e.Present? && e.page in folios ==> h !in folios[e.page].holders
      modifies this
      ensures Now() == WpFinish(old(Now()), t, np, h, vmWrite, trylock)
      ensures Valid() && Same(old(Now()), Now())
    {
      hide Inv, Same, PutRef, FolioFreeSwap, UnmapHeld, MapNew, EndCopy;
      ghost var was := Now();
      WpFinishOk(was, t, np, h, vmWrite, trylock);
      OrigPresent(was, t);
      var c := copies[t];
      if Get(c.addr) == c.orig {
        if c.orig.Present? { ClearEntry(c.addr, h); }
        AddNewAnonRmap(c.addr, np, c.copied.value, !c.unshare && vmWrite);
        if c.orig.Present? {
          Put(c.orig.page, h);
          if trylock && c.orig.page in folios && folios[c.orig.page].mapcount == 0 { TryFreeSwap(c.orig.page); }
        }
      }
      FinishCopy(t, h);
    }

    lemma OrigPresent(st: State, t: nat)
      requires Inv(st) && t in st.copies
      ensures st.copies[t].orig.Present? ==> st.copies[t].orig.page in st.folios
    {
      assert CopyOk(st, t);
    }

    method ClearEntry(a: Addr, h: Holder)
      requires Get(a).Present? && Get(a).page in folios
      modifies this`ptes, this`folios, this`anonPages
      ensures Now() == UnmapHeld(old(Now()), a, h)
    {
      var p := Get(a).page;
      var f := folios[p];
      ptes := ptes[a := Empty];
      anonPages := Bump(anonPages, a.mm, -1);
      folios := folios[p := f.(mapcount := f.mapcount - 1, holders := f.holders + {h})];
    }

    method FinishCopy(t: nat, h: Holder)
      modifies this`copies, this`folios
      ensures Now() == EndCopy(old(Now()), t, h)
    {
      hide PutRef;
      if t !in copies { return; }
      var e := copies[t].orig;
      if e.Present? && (!h.Transient? || e.page !in folios || h in folios[e.page].holders) { return; }
      copies := copies - {t};
      if e.Present? {
        var f := folios[e.page];
        folios := folios[e.page := f.(holders := f.holders - {Copier(t)} + {h})];
        Put(e.page, h);
      }
    }

    // ----------------------------------------------------------------- range walks

    method DupSwapEntry(src: Addr, dst: Addr)
      requires Get(src).Swap? && Get(src).slot in slots
      modifies this`ptes, this`slots, this`swapEnts
      ensures ptes == var s := old(Get(src)).slot; old(ptes)[src := Swap(s, false)][dst := Swap(s, false)]
      ensures slots == var s := old(Get(src)).slot; old(slots)[s := old(slots)[s].(count := old(slots)[s].count + 1)]
      ensures swapEnts == Bump(old(swapEnts), dst.mm, 1)
    {
      var s := Get(src).slot;
      slots := slots[s := slots[s].(count := slots[s].count + 1)];
      ptes := ptes[src := Swap(s, false)];
      swapEnts := Bump(swapEnts, dst.mm, 1);
      ptes := ptes[dst := Swap(s, false)];
    }

    /** One entry of copy_pte_range; ok is false when a page or a swap-count continuation must be
        allocated first. */
    method CopyOne(src: Addr, dst: Addr, h: Holder, env: CopyEnv) returns (ok: bool)
      requires Valid()
      requires src != dst && Get(dst).Empty?
      requires h.Transient? && Unheld(Now(), h)
      modifies this
      ensures Now() == CopyIn(old(Now()), src, dst, h, env)
      ensures ok == !MustAllocate(old(Now()), old(Get(src)), env)
    {
      hide Inv, CopyIn, MapNew;
      EntryBacked(Now(), src);
      var e := Get(src);
      match e {
        case Empty => CopyInNone(Now(), src, dst, h, env);
        case ZeroPage =>
          CopyInNone(Now(), src, dst, h, env);
          ptes := ptes[dst := ZeroPage];
        case Swap(s, _) =>
          CopyInSwap(Now(), src, dst, h, env);
          if env.dupFails { return false; }
          DupSwapEntry(src, dst);
        case Present(p, _) =>
          ok := CopyPresent(src, dst, h, env);
          return;
      }
      ok := true;
    }

    /** copy_present_ptes, or copy_present_page when the folio may be pinned. */
    method CopyPresent(src: Addr, dst: Addr, h: Holder, env: CopyEnv) returns (ok: bool)
      requires src != dst && Get(dst).Empty? && Get(src).Present? && Get(src).page in folios
      requires h.Transient? && h !in folios[Get(src).page].holders
      modifies this
      ensures Now() == CopyIn(old(Now()), src, dst, h, env)
      ensures ok == !MustAllocate(old(Now()), old(Get(src)), env)
    {
      hide CopyIn, MapNew;
      var p := Get(src).page;
      if folios[p].anonExclusive && (env.maybePinned || HasGup(folios[p])) {
        CopyInPinned(Now(), src, dst, h, env);
        if env.prealloc.None? || env.prealloc.value in folios { return false; }
        AddNewAnonRmap(dst, env.prealloc.value, folios[p].data, env.vmWrite);
      } else {
        CopyInShared(Now(), src, dst, h, env);
        Share(src, dst);
      }
      ok := true;
    }

    /** copy_present_ptes: reference, map count and counter, then both entries read-only. */
    method Share(src: Addr, dst: Addr)
      requires Get(src).Present? && Get(src).page in folios && src != dst
      modifies this`ptes, this`folios, this`anonPages
      ensures ptes == var p := old(Get(src)).page; old(ptes)[src := Present(p, false)][dst := Present(p, false)]
      ensures folios == var p := old(Get(src)).page; var f := old(folios)[p];
        old(folios)[p := f.(refs := f.refs + 1, mapcount := f.mapcount + 1, anonExclusive := false)]
      ensures anonPages == Bump(old(anonPages), dst.mm, 1)
    {
      var p := Get(src).page;
      var f := folios[p];
      f := f.(refs := f.refs + 1);
      f := f.(mapcount := f.mapcount + 1, anonExclusive := false);
      folios := folios[p := f];
      anonPages := Bump(anonPages, dst.mm, 1);
      ptes := ptes[src := Present(p, false)];
      ptes := ptes[dst := Present(p, false)];
    }

    /** copy_pte_range: as far as it gets, the child sees what the parent saw, nobody else sees a
        difference, and it stops early only where something must be allocated. */
    method CopyPteRange(parent: nat, child: nat, lo: nat, hi: nat, h: Holder, envs: seq<CopyEnv>) returns (done: nat)
      requires Valid()
      requires parent != child && lo <= hi && |envs| == hi - lo
      requires h.Transient? && Unheld(Now(), h)
      requires forall pg :: lo <= pg < hi ==> Get(Addr(child, pg)).Empty?
      modifies this
      ensures Valid() && Unheld(Now(), h)
      ensures lo <= done <= hi
      ensures done < hi ==> MustAllocate(Now(), Get(Addr(parent, done)), envs[done - lo])
      ensures forall pg :: lo <= pg < done ==> View(Now(), Addr(child, pg)) == old(View(Now(), Addr(parent, pg)))
      ensures forall b: Addr :: b.mm != child || !(lo <= b.pg < done) ==> View(Now(), b) == old(View(Now(), b))
    {
      hide Inv, View, CopyEntry, CopyIn, MustAllocate, Unheld;
      done := lo;
      while done < hi
        invariant lo <= done <= hi
        invariant Valid() && Unheld(Now(), h)
        invariant forall pg :: done <= pg < hi ==> Get(Addr(child, pg)).Empty?
        invariant forall pg :: lo <= pg < done ==> View(Now(), Addr(child, pg)) == old(View(Now(), Addr(parent, pg)))
        invariant forall b: Addr :: b.mm != child || !(lo <= b.pg < done) ==> View(Now(), b) == old(View(Now(), b))
      {
        ghost var was := Now();
        var src, dst, env := Addr(parent, done), Addr(child, done), envs[done - lo];
        CopyShows(was, src, dst, h, env);
        var ok := CopyOne(src, dst, h, env);
        if !ok { return; }
        done := done + 1;
      }
    }

    lemma CopyShows(st: State, src: Addr, dst: Addr, h: Holder, env: CopyEnv)
      requires Inv(st) && src != dst && PteAt(st, dst).Empty? && h.Transient? && Unheld(st, h)
      ensures var st' := CopyIn(st, src, dst, h, env);
        && Inv(st') && Unheld(st', h)
        && (MustAllocate(st, PteAt(st, src), env) ==> st' == st)
        && (forall b :: b != src && b != dst ==> EntryAt(st'.ptes, b) == EntryAt(st.ptes, b))
        && (forall b :: b != dst ==> View(st', b) == View(st, b))
        && (!MustAllocate(st, PteAt(st, src), env) ==> View(st', dst) == View(st, src))
    {
      hide Inv, View, CopyEntry, MustAllocate, Unheld;
      var st' := CopyIn(st, src, dst, h, env);
      CopyTouches(st, src, dst, h, env);
      CopyEntryOk(st, src, dst, h, env.maybePinned, env.prealloc, env.dupFails, env.vmWrite);
      EmptyView(st, src);
      EmptyView(st, dst);
      forall b | b != dst ensures View(st', b) == View(st, b) { assert SeesSame(st, st', b); }
      assert SeesSame(st, st', dst) || PteAt(st', dst) != PteAt(st, dst);
    }

    /** zap_pte_range: the mapping references go to the gather; the range reads as zeros and
        nobody else sees a difference. */
    method ZapPteRange(mm: nat, lo: nat, hi: nat, gather: seq<Holder>)
      requires Valid()
      requires lo <= hi && |gather| == hi - lo
      requires forall i :: 0 <= i < |gather| ==> gather[i].Transient? && Unheld(Now(), gather[i])
      requires forall i, j :: 0 <= i < j < |gather| ==> gather[i] != gather[j]
      modifies this
      ensures Valid()
      ensures forall pg :: lo <= pg < hi ==> Get(Addr(mm, pg)).Empty?
      ensures forall b: Addr ::
        b.mm != mm || !(lo <= b.pg < hi) ==> Get(b) == old(Get(b)) && View(Now(), b) == old(View(Now(), b))
    {
      var pg := lo;
      while pg < hi
        invariant lo <= pg <= hi
        invariant Valid()
        invariant forall i :: pg - lo <= i < |gather| ==> Unheld(Now(), gather[i])
        invariant forall x :: lo <= x < pg ==> Get(Addr(mm, x)).Empty?
        invariant forall b: Addr ::
          b.mm != mm || !(lo <= b.pg < pg) ==> Get(b) == old(Get(b)) && View(Now(), b) == old(View(Now(), b))
      {
        hide Inv, View, Zap, Unheld;
        var a, h := Addr(mm, pg), gather[pg - lo];
        ZapShows(Now(), a, h);
        ZapOne(a, h);
        pg := pg + 1;
      }
    }

    lemma ZapShows(st: State, a: Addr, h: Holder)
      requires Inv(st) && h.Transient? && Unheld(st, h)
      ensures var st' := Zap(st, a, h);
        && Inv(st') && EntryAt(st'.ptes, a).Empty?
        && (forall b :: b != a ==> EntryAt(st'.ptes, b) == EntryAt(st.ptes, b) && View(st', b) == View(st, b))
        && (forall x :: x != h && Unheld(st, x) ==> Unheld(st', x))
    {
      hide Inv, View, Zap, Unheld;
      ZapOk(st, a, h);
      ZapEmpties(st, a, h);
      forall b | b != a
        ensures EntryAt(Zap(st, a, h).ptes, b) == EntryAt(st.ptes, b) && View(Zap(st, a, h), b) == View(st, b)
      {
        assert SeesSame(st, Zap(st, a, h), b);
        assert PteAt(Zap(st, a, h), b) == PteAt(st, b);
      }
    }

    method ZapOne(a: Addr, h: Holder)
      requires Valid() && h.Transient? && Unheld(Now(), h)
      modifies this
      ensures Now() == Zap(old(Now()), a, h)
    {
      hide Inv, UnmapHeld, UnmapSwap, SlotRelease;
      EntryBacked(Now(), a);
      match Get(a) {
        case Empty =>
        case ZeroPage => ptes := ptes[a := Empty];
        case Present(p, _) => ClearEntry(a, h);
        case Swap(s, _) =>
          RemoveSwapEntry(a);
          ReleaseSlot(s);
      }
    }
  }
}
