/** The private-memory machine refines one private byte map per process: over every run, what
    a process finds at an address is what it would find if nothing were ever shared, swapped
    or copied on write. */
module PrivateMemoryRefinement {
  import opened Wrappers
  import opened PrivateMemory
  import opened PrivateMemoryInvariant
  import opened PrivateMemoryViews

  // -------------------------------------------------- the simple memory model

  /** What the processes themselves do: write a byte, inherit a page at fork, give one up. */
  datatype Event =
    | Silent
    | Write(a: Addr, off: nat, b: int)
    | Inherit(src: Addr, dst: Addr)
    | Forget(a: Addr)

  type PrivateMap = map<Addr, PageData>

  function Recall(m: PrivateMap, a: Addr): PageData {
    if a in m then m[a] else Zeros()
  }

  function Apply(m: PrivateMap, e: Event): PrivateMap {
    match e
    case Silent => m
    case Write(a, off, b) => m[a := Poke(Recall(m, a), off, b)]
    case Inherit(src, dst) => m[dst := Recall(m, src)]
    case Forget(a) => m[a := Zeros()]
  }

  /** The event a step stands for.  Faults, copies, reclaim and swap-in stand for none. */
  ghost function EventOf(st: State, step: Step): Event {
    match step
    case SStore(a, off, b) =>
      if PteAt(st, a).Present? && PteAt(st, a).writable then Write(a, off, b) else Silent
    case SCopyEntry(src, dst, _, _, _, _, _) =>
      if PteAt(Next(st, step), dst) != PteAt(st, dst) then Inherit(src, dst) else Silent
    case SZap(a, _) =>
      if PteAt(Next(st, step), a) != PteAt(st, a) then Forget(a) else Silent
    case SDmaWrite(p, i, off, b) =>
      if p in st.folios && Gup(i) in st.folios[p].holders && exists a :: Maps(PteAt(st, a), p)
      then var a :| Maps(PteAt(st, a), p); Write(a, off, b)
      else Silent
    case _ => Silent
  }

  ghost function Events(st: State, steps: seq<Step>): seq<Event>
    decreases |steps|
  {
    if steps == [] then [] else [EventOf(st, steps[0])] + Events(Next(st, steps[0]), steps[1..])
  }

  function ApplyAll(m: PrivateMap, events: seq<Event>): PrivateMap
    decreases |events|
  {
    if events == [] then m else ApplyAll(Apply(m, events[0]), events[1..])
  }

  ghost predicate Agrees(st: State, m: PrivateMap) {
    forall a :: View(st, a) == Recall(m, a)
  }

  // ---------------------------------------------------------- steps, one by one

  lemma AnonFaultOk(st: State, a: Addr, write: bool, vmWrite: bool, np: nat)
    requires Inv(st)
    ensures Inv(AnonFault(st, a, write, vmWrite, np)) && Same(st, AnonFault(st, a, write, vmWrite, np))
  {
    if PteAt(st, a).Empty? && np !in st.folios {
      if write {
        MapNewKeeps(st, a, np, Zeros(), vmWrite);
        MapNewViews(st, a, np, Zeros(), vmWrite);
        var st' := MapNew(st, a, np, Zeros(), vmWrite);
        forall b ensures SeesSame(st, st', b) { assert SeesSame(st, st', b) || b == a; }
      } else {
        SetPteKeeps(st, a, ZeroPage);
      }
    }
  }

  /** Nothing is noticed but at dst, and there only what src shows. */
  ghost predicate Inherited(st: State, st': State, src: Addr, dst: Addr) {
    && Inv(st')
    && if PteAt(st', dst) == PteAt(st, dst) then Same(st, st')
       else SameBut(st, st', dst) && View(st', dst) == View(st, src)
  }

  lemma CopyZeroOk(st: State, src: Addr, dst: Addr)
    requires Inv(st) && PteAt(st, dst).Empty? && PteAt(st, src).ZeroPage?
    ensures Inherited(st, SetPte(st, dst, ZeroPage), src, dst)
  {
    SetPteKeeps(st, dst, ZeroPage);
  }

  lemma CopyPinnedOk(st: State, src: Addr, dst: Addr, np: nat, vmWrite: bool)
    requires Inv(st) && PteAt(st, dst).Empty? && PteAt(st, src).Present? && PteAt(st, src).page in st.folios
      && np !in st.folios
    ensures Inherited(st, MapNew(st, dst, np, st.folios[PteAt(st, src).page].data, vmWrite), src, dst)
  {
    hide View, Mappers, SwapRefs, AnonOf, SwapOf, Zeros, Same, SameBut;
    var d := st.folios[PteAt(st, src).page].data;
    MapNewKeeps(st, dst, np, d, vmWrite);
    MapNewViews(st, dst, np, d, vmWrite);
    MappedView(st, src);
  }

  lemma CopyEntryOk(st: State, src: Addr, dst: Addr, h: Holder, maybePinned: bool, prealloc: Option<nat>,
                    dupFails: bool, vmWrite: bool)
    requires Inv(st)
    ensures Inherited(st, CopyEntry(st, src, dst, h, maybePinned, prealloc, dupFails, vmWrite), src, dst)
  {
    hide View, Inv, MapNew, MapHeld, Demote, GetRef, MapSwap, MarkSwap, SetPte;
    if PteAt(st, dst).Empty? && src != dst {
      match PteAt(st, src)
      case Empty =>
      case ZeroPage => CopyZeroOk(st, src, dst);
      case Swap(s, x) =>
        if !dupFails { CopySwapOk(st, src, dst); }
      case Present(p, w) =>
        if p in st.folios && h.Transient? && h !in st.folios[p].holders {
          if st.folios[p].anonExclusive && (maybePinned || HasGup(st.folios[p])) {
            if prealloc.Some? && prealloc.value !in st.folios {
              CopyPinnedOk(st, src, dst, prealloc.value, vmWrite);
            }
          } else {
            CopySharedOk(st, src, dst, h);
          }
        }
    }
  }

  lemma CopySwapOk(st: State, src: Addr, dst: Addr)
    requires Inv(st)
    requires PteAt(st, dst).Empty? && src != dst && PteAt(st, src).Swap?
    ensures var st' := MapSwap(MarkSwap(st, src, false), dst, PteAt(st, src).slot);
      Inv(st') && SameBut(st, st', dst) && View(st', dst) == View(st, src) && PteAt(st', dst) != PteAt(st, dst)
  {
    hide View, Mappers, SwapRefs, AnonOf, SwapOf, Zeros;
    var s := PteAt(st, src).slot;
    var st1 := MarkSwap(st, src, false);
    var st2 := MapSwap(st1, dst, s);
    MarkSwapKeeps(st, src, false);
    MarkSwapViews(st, src, false);
    SlotView(st1, src);
    assert PteOk(st1, src);
    ReferencedCounts(st1, src);
    assert CacheOk(st1, s);
    forall b ensures PteAt(st1, b) != Swap(s, true) {
      assert PteOk(st1, b);
      if PteAt(st1, b) == Swap(s, true) { OnlyReference(st1, b, src); }
    }
    MapSwapKeeps(st1, dst, s);
    MapSwapViews(st1, dst, s);
    assert SeesSame(st, st1, src);
    forall b ensures SeesSame(st, st2, b) || b == dst {
      assert SeesSame(st, st1, b);
      assert SeesSame(st1, st2, b) || b == dst;
    }
  }

  lemma CopySharedOk(st: State, src: Addr, dst: Addr, h: Holder)
    requires Inv(st)
    requires PteAt(st, dst).Empty? && src != dst && PteAt(st, src).Present?
    requires var p := PteAt(st, src).page;
      && p in st.folios && h.Transient? && h !in st.folios[p].holders
      && (st.folios[p].anonExclusive ==> !HasGup(st.folios[p]))
    ensures var p := PteAt(st, src).page;
      var st' := MapHeld(Demote(GetRef(st, p, h), src), dst, p, h);
      Inv(st') && SameBut(st, st', dst) && View(st', dst) == View(st, src) && PteAt(st', dst) != PteAt(st, dst)
  {
    hide View, Mappers, SwapRefs, AnonOf, SwapOf, Zeros;
    var p := PteAt(st, src).page;
    var st1 := GetRef(st, p, h);
    var st2 := Demote(st1, src);
    var st3 := MapHeld(st2, dst, p, h);
    MappedView(st, src);
    GetRefKeeps(st, p, h);
    GetRefViews(st, p, h);
    assert HasGup(st1.folios[p]) ==> HasGup(st.folios[p]);
    DemoteKeeps(st1, src);
    DemoteViews(st1, src);
    assert PteOk(st2, src);
    MappedCounts(st2, src);
    forall b ensures Lonely(st2, b, p) { assert PteOk(st2, b); }
    MapHeldKeeps(st2, dst, p, h);
    MapHeldViews(st2, dst, p, h);
    assert st2.folios[p].data == st.folios[p].data;
    forall b ensures SeesSame(st, st3, b) || b == dst {
      assert SeesSame(st, st1, b);
      assert SeesSame(st1, st2, b);
      assert SeesSame(st2, st3, b) || b == dst;
    }
  }

  lemma WpFaultOk(st: State, t: nat, a: Addr, unshare: bool, vmWrite: bool, trylock: bool)
    requires Inv(st)
    ensures Inv(WpFault(st, t, a, unshare, vmWrite, trylock)) && Same(st, WpFault(st, t, a, unshare, vmWrite, trylock))
  {
    hide View, Mappers, SwapRefs, AnonOf, SwapOf, Zeros;
    if t !in st.copies {
      match PteAt(st, a)
      case ZeroPage => BeginCopyKeeps(st, t, a, unshare); BeginCopyViews(st, t, a, unshare);
      case Present(p, w) =>
        if !w && p in st.folios {
          assert FolioOk(st, p);
          MappedCounts(st, a);
          if st.folios[p].anonExclusive {
            if !unshare { PromoteExclusiveOk(st, a, vmWrite); }
          } else {
            ReuseOrCopyOk(st, t, a, unshare, vmWrite, trylock);
          }
        }
      case _ =>
    }
  }

  lemma PromoteExclusiveOk(st: State, a: Addr, vmWrite: bool)
    requires Inv(st)
    requires PteAt(st, a).Present? && IsExclusive(st, PteAt(st, a).page)
    ensures Inv(Promote(st, a, vmWrite)) && Same(st, Promote(st, a, vmWrite))
  {
    var p := PteAt(st, a).page;
    assert FolioOk(st, p);
    MappedCounts(st, a);
    if st.folios[p].swap.Some? { assert CacheOk(st, st.folios[p].swap.value); }
    PromoteKeeps(st, a, vmWrite);
    PromoteViews(st, a, vmWrite);
  }

  /** A folio whose one reference is its mapping's is known to nobody else. */
  lemma SoleOwner(st: State, a: Addr)
    requires Inv(st)
    requires PteAt(st, a).Present? && PteAt(st, a).page in st.folios && st.folios[PteAt(st, a).page].refs == 1
    ensures CanBeExclusive(st, PteAt(st, a).page)
    ensures st.folios[PteAt(st, a).page].swap.None? && st.folios[PteAt(st, a).page].holders == {}
  {
    var p := PteAt(st, a).page;
    assert FolioOk(st, p);
    MappedCounts(st, a);
    assert |st.folios[p].holders| == 0;
  }

  lemma ReuseOrCopyOk(st: State, t: nat, a: Addr, unshare: bool, vmWrite: bool, trylock: bool)
    requires Inv(st)
    requires t !in st.copies
    requires PteAt(st, a).Present? && !PteAt(st, a).writable
    requires PteAt(st, a).page in st.folios && !st.folios[PteAt(st, a).page].anonExclusive
    ensures var (st1, reuse) := TryReuse(st, PteAt(st, a).page, trylock);
      var st' := if reuse then Promote(st1, a, !unshare && vmWrite) else BeginCopy(st1, t, a, unshare);
      Inv(st') && Same(st, st')
  {
    hide View, Mappers, SwapRefs, AnonOf, SwapOf, Zeros;
    var p := PteAt(st, a).page;
    assert FolioOk(st, p);
    MappedCounts(st, a);
    var (st1, reuse) := TryReuse(st, p, trylock);
    if CanFreeSwap(st, p) { FolioFreeSwapOk(st, p); }
    assert Inv(st1) && Same(st, st1) && PteAt(st1, a) == PteAt(st, a) && st1.copies == st.copies;
    assert p in st1.folios && !st1.folios[p].anonExclusive;
    var st2 := if reuse then Promote(st1, a, !unshare && vmWrite) else BeginCopy(st1, t, a, unshare);
    if reuse {
      SoleOwner(st1, a);
      PromoteKeeps(st1, a, !unshare && vmWrite);
      PromoteViews(st1, a, !unshare && vmWrite);
    } else {
      BeginCopyKeeps(st1, t, a, unshare);
      BeginCopyViews(st1, t, a, unshare);
    }
    forall b ensures SeesSame(st, st2, b) { assert SeesSame(st, st1, b); assert SeesSame(st1, st2, b); }
  }

  /** Nothing is seen of the copies under way, or of a folio's other fields. */
  lemma CopiesUnseen(st: State, c: map<nat, Copy>)
    ensures Same(st, st.(copies := c))
  {
  }

  lemma FieldsUnseen(st: State, c: map<nat, Copy>, p: nat, f: Folio)
    requires p in st.folios && f.data == st.folios[p].data
    ensures Same(st, st.(copies := c, folios := st.folios[p := f]))
  {
  }

  lemma ForgetCopyViews(st: State, t: nat, h: Holder)
    ensures Same(st, ForgetCopy(st, t, h))
  {
    hide Same;
    if t in st.copies {
      var e, c := st.copies[t].orig, st.copies - {t};
      if e.Present? && e.page in st.folios {
        var f := st.folios[e.page];
        FieldsUnseen(st, c, e.page, f.(holders := f.holders - {Copier(t)} + {h}));
      } else {
        CopiesUnseen(st, c);
      }
    } else {
      CopiesUnseen(st, st.copies);
    }
  }

  lemma BeginCopyViews(st: State, t: nat, a: Addr, unshare: bool)
    ensures Same(st, BeginCopy(st, t, a, unshare))
  {
    hide Same;
    var e := PteAt(st, a);
    var c := st.copies[t := Copy(a, e, unshare, None)];
    if e.Present? && e.page in st.folios {
      var f := st.folios[e.page];
      FieldsUnseen(st, c, e.page, f.(refs := f.refs + 1, holders := f.holders + {Copier(t)}));
    } else {
      CopiesUnseen(st, c);
    }
  }

  lemma EndCopyOk(st: State, t: nat, h: Holder)
    requires Inv(st)
    ensures Inv(EndCopy(st, t, h)) && Same(st, EndCopy(st, t, h))
  {
    hide View, Mappers, SwapRefs, AnonOf, SwapOf, Zeros;
    EndCopyKeeps(st, t, h);
    if EndCopy(st, t, h) != st {
      var st1 := ForgetCopy(st, t, h);
      ForgetCopyViews(st, t, h);
      if st.copies[t].orig.Present? {
        ForgetHeldKeeps(st, t, h);
        PutRefViews(st1, st.copies[t].orig.page, h);
      }
      forall b ensures SeesSame(st, EndCopy(st, t, h), b) {
        assert SeesSame(st, st1, b);
        assert SeesSame(st1, EndCopy(st, t, h), b);
      }
    }
  }

  lemma WpFinishOk(st: State, t: nat, np: nat, h: Holder, vmWrite: bool, trylock: bool)
    requires Inv(st)
    ensures Inv(WpFinish(st, t, np, h, vmWrite, trylock)) && Same(st, WpFinish(st, t, np, h, vmWrite, trylock))
  {
    hide View, Mappers, SwapRefs, AnonOf, SwapOf, Zeros;
    if t in st.copies && st.copies[t].copied.Some? && np !in st.folios && h.Transient? {
      var c := st.copies[t];
      assert CopyOk(st, t);
      if PteAt(st, c.addr) != c.orig {
        EndCopyOk(st, t, h);
      } else if !c.orig.Present? {
        var w := !c.unshare && vmWrite;
        var st1 := MapNew(st, c.addr, np, c.copied.value, w);
        MapNewKeeps(st, c.addr, np, c.copied.value, w);
        MapNewViews(st, c.addr, np, c.copied.value, w);
        ZeroView(st, c.addr);
        EndCopyOk(st1, t, h);
        forall b ensures SeesSame(st, EndCopy(st1, t, h), b) {
          assert SeesSame(st, st1, b) || b == c.addr;
          assert SeesSame(st1, EndCopy(st1, t, h), b);
        }
      } else if c.orig.page in st.folios && h !in st.folios[c.orig.page].holders {
        SwitchToCopyOk(st, t, np, h, vmWrite, trylock);
      }
    }
  }

  lemma CopierNotLast(st: State, p: nat, t: nat)
    requires Inv(st)
    requires p in st.folios && Copier(t) in st.folios[p].holders && st.folios[p].swap.Some?
    ensures st.folios[p].refs > 1
  {
    assert FolioOk(st, p);
    SetSizes({Copier(t)}, st.folios[p].holders);
    MapcountNotNegative(st, p);
  }

  /** The switch itself: the old mapping goes, the copy is mapped, and the old mapping's reference
      is dropped. */
  lemma SwitchOk(st: State, t: nat, np: nat, h: Holder, w: bool)
    requires Inv(st)
    requires t in st.copies && st.copies[t].copied.Some? && np !in st.folios && h.Transient?
    requires PteAt(st, st.copies[t].addr) == st.copies[t].orig
    requires st.copies[t].orig.Present? && st.copies[t].orig.page in st.folios
    requires h !in st.folios[st.copies[t].orig.page].holders
    ensures
      var c := st.copies[t];
      var st' := PutRef(MapNew(UnmapHeld(st, c.addr, h), c.addr, np, c.copied.value, w), c.orig.page, h);
      && Inv(st') && Same(st, st') && st'.copies == st.copies
      && c.orig.page in st'.folios && Copier(t) in st'.folios[c.orig.page].holders
  {
    hide View, Mappers, SwapRefs, AnonOf, SwapOf, Zeros;
    var c := st.copies[t];
    var p, a := c.orig.page, c.addr;
    assert CopyOk(st, t);
    assert FolioOk(st, p);
    MappedCounts(st, a);
    MappedView(st, a);
    SetSizes({Copier(t)}, st.folios[p].holders);
    hide Inv, CopyOk, FolioOk, Same, SameBut;
    var st1 := UnmapHeld(st, a, h);
    var st2 := MapNew(st1, a, np, c.copied.value, w);
    var st3 := PutRef(st2, p, h);
    UnmapHeldKeeps(st, a, h);
    UnmapHeldViews(st, a, h);
    MapNewKeeps(st1, a, np, c.copied.value, w);
    MapNewViews(st1, a, np, c.copied.value, w);
    PutRefKeeps(st2, p, h);
    PutRefViews(st2, p, h);
    assert st2.folios[p].refs == st.folios[p].refs > 1;
    ButThenBut(st, st1, st2, a);
    ButThenSame(st, st2, st3, a);
    ButRestored(st, st3, a);
  }

  /** The copy takes the place of the old folio with the same contents, because the reference
      taken before the lock was dropped kept the old folio shared and so unchanged. */
  lemma SwitchToCopyOk(st: State, t: nat, np: nat, h: Holder, vmWrite: bool, trylock: bool)
    requires Inv(st)
    requires t in st.copies && st.copies[t].copied.Some? && np !in st.folios && h.Transient?
    requires PteAt(st, st.copies[t].addr) == st.copies[t].orig
    requires st.copies[t].orig.Present? && st.copies[t].orig.page in st.folios
    requires h !in st.folios[st.copies[t].orig.page].holders
    ensures Inv(WpFinish(st, t, np, h, vmWrite, trylock)) && Same(st, WpFinish(st, t, np, h, vmWrite, trylock))
  {
    hide View, Same, Inv, UnmapHeld, MapNew, PutRef, EndCopy;
    var c := st.copies[t];
    var p, w := c.orig.page, !c.unshare && vmWrite;
    SwitchOk(st, t, np, h, w);
    var st3 := PutRef(MapNew(UnmapHeld(st, c.addr, h), c.addr, np, c.copied.value, w), p, h);
    if st3.folios[p].swap.Some? { CopierNotLast(st3, p, t); }
    var free := trylock && st3.folios[p].mapcount == 0;
    var st4 := if free then FolioFreeSwap(st3, p) else st3;
    if free && CanFreeSwap(st3, p) {
      FolioFreeSwapOk(st3, p);
      SameThen(st, st3, st4);
    }
    EndCopyOk(st4, t, h);
    SameThen(st, st4, EndCopy(st4, t, h));
  }

  lemma CachedView(st: State, a: Addr)
    requires PteAt(st, a).Swap? && PteAt(st, a).slot in st.cache && st.cache[PteAt(st, a).slot] in st.folios
    ensures View(st, a) == st.folios[st.cache[PteAt(st, a).slot]].data
  {
  }

  lemma UncachedView(st: State, a: Addr)
    requires PteAt(st, a).Swap? && PteAt(st, a).slot !in st.cache && PteAt(st, a).slot in st.slots
    ensures View(st, a) == st.slots[PteAt(st, a).slot].data
  {
  }

  lemma SlotView(st: State, a: Addr)
    requires PteAt(st, a).Swap?
    ensures View(st, a) == SlotData(st, PteAt(st, a).slot)
  {
  }

  lemma ZeroView(st: State, a: Addr)
    ensures PteAt(st, a).ZeroPage? ==> View(st, a) == Zeros()
  {
  }

  lemma MappedView(st: State, a: Addr)
    requires PteAt(st, a).Present? && PteAt(st, a).page in st.folios
    ensures View(st, a) == st.folios[PteAt(st, a).page].data
  {
  }

  lemma SwapInTakenOk(st: State, a: Addr, h: Holder, free: bool)
    requires Inv(st) && SwapInEnabled(st, a, h)
    ensures var p := st.cache[PteAt(st, a).slot];
      var st3 := SwapInTaken(st, a, h, free);
      && Inv(st3) && SameBut(st, st3, a)
      && PteAt(st3, a).Empty? && p in st3.folios && h in st3.folios[p].holders && !st3.folios[p].anonExclusive
      && (forall b :: Lonely(st3, b, p))
      && st3.folios[p].data == View(st, a)
    ensures PteAt(st, a).exclusive ==> SureExclusive(st, SwapInTaken(st, a, h, free), PteAt(st, a).slot)
  {
    hide View, Mappers, SwapRefs, AnonOf, SwapOf, Zeros;
    var s, p := PteAt(st, a).slot, st.cache[PteAt(st, a).slot];
    assert PteOk(st, a);
    assert CacheOk(st, s);
    assert FolioOk(st, p);
    ReferencedCounts(st, a);
    CachedView(st, a);
    var st1 := GetRef(st, p, h);
    var st2 := UnmapSwap(st1, a);
    GetRefKeeps(st, p, h);
    GetRefViews(st, p, h);
    UnmapSwapKeeps(st1, a);
    UnmapSwapViews(st1, a);
    FolioFreeSwapOk(st2, p);
    var st3 := SwapInTaken(st, a, h, free);
    assert Same(st2, st3);
    assert HasCopier(st3.folios[p]) ==> HasCopier(st.folios[p]);
    forall b ensures Lonely(st3, b, p) {
      var e := PteAt(st3, b);
      if e.Swap? && e.exclusive && e.slot in st3.cache && st3.cache[e.slot] == p {
        assert CacheOk(st, e.slot);
        assert PteOk(st, b);
        OnlyReference(st, b, a);
      }
    }
    forall b ensures SeesSame(st, st3, b) || b == a {
      assert SeesSame(st, st1, b);
      assert SeesSame(st1, st2, b) || b == a;
      assert SeesSame(st2, st3, b);
    }
  }

  /** An exclusive entry leaves nobody else with a claim on slot or folio. */
  ghost predicate SureExclusive(st: State, st3: State, s: nat) {
    s in st.cache && st.cache[s] in st.folios && st.cache[s] in st3.folios && s in st.slots &&
    var f, g := st.folios[st.cache[s]], st3.folios[st.cache[s]];
    && g.mapcount == 0 && !HasCopier(g)
    && (g.swap.Some? ==>
          && g.swap == Some(s) && s in st3.slots && st3.slots[s].count == 0
          && g.writeback == f.writeback && st3.slots[s].stableWrites == st.slots[s].stableWrites)
  }

  lemma SwapInOk(st: State, a: Addr, h: Holder, write: bool, vmWrite: bool, swapFull: bool)
    requires Inv(st)
    ensures Inv(SwapIn(st, a, h, write, vmWrite, swapFull)) && Same(st, SwapIn(st, a, h, write, vmWrite, swapFull))
  {
    hide View, Mappers, SwapRefs, AnonOf, SwapOf, Zeros, SwapInTaken, Inv;
    if SwapInEnabled(st, a, h) {
      var s, p := PteAt(st, a).slot, st.cache[PteAt(st, a).slot];
      var f := st.folios[p];
      var sure := PteAt(st, a).exclusive && !(f.writeback && st.slots[s].stableWrites);
      var free := swapFull || (write && f.refs + 1 == 2);
      var st3 := SwapInTaken(st, a, h, free);
      SwapInTakenOk(st, a, h, free);
      var exclusive := sure || st3.folios[p].refs == 1;
      var st4 := MapHeld(st3, a, p, h);
      var st5 := if exclusive then Promote(st4, a, vmWrite) else st4;
      MapHeldKeeps(st3, a, p, h);
      MapHeldViews(st3, a, p, h);
      if exclusive {
        ExclusiveSwapIn(st3, st4, a, p, h, sure, s);
        PromoteKeeps(st4, a, vmWrite);
        PromoteViews(st4, a, vmWrite);
      }
      forall b ensures SeesSame(st, st5, b) {
        assert SeesSame(st, st3, b) || b == a;
        assert SeesSame(st3, st4, b) || b == a;
        assert SeesSame(st4, st5, b);
      }
    }
  }

  /** Either the entry said so, or our reference was the only one left. */
  lemma ExclusiveSwapIn(st3: State, st4: State, a: Addr, p: nat, h: Holder, sure: bool, s: nat)
    requires Inv(st3) && Inv(st4)
    requires p in st3.folios && h in st3.folios[p].holders && h.Transient?
    requires st4 == MapHeld(st3, a, p, h)
    requires sure || st3.folios[p].refs == 1
    requires sure ==>
      && st3.folios[p].mapcount == 0 && !HasCopier(st3.folios[p])
      && (st3.folios[p].swap.Some? ==>
            && st3.folios[p].swap == Some(s) && s in st3.slots
            && st3.slots[s].count == 0 && !(st3.folios[p].writeback && st3.slots[s].stableWrites))
    ensures CanBeExclusive(st4, p)
  {
    assert FolioOk(st3, p);
    assert FolioOk(st4, p);
    assert HasCopier(st4.folios[p]) ==> HasCopier(st3.folios[p]);
    if !sure {
      SetSizes({h}, st3.folios[p].holders);
      MapcountNotNegative(st3, p);
      SoleHolder(st3.folios[p].holders, h);
    }
  }

  lemma DirectFinishOk(st: State, a: Addr, np: nat, vmWrite: bool)
    requires Inv(st)
    ensures Inv(DirectFinish(st, a, np, vmWrite)) && Same(st, DirectFinish(st, a, np, vmWrite))
  {
    hide View, Mappers, SwapRefs, AnonOf, SwapOf, Zeros;
    var e := PteAt(st, a);
    if e.Swap? && e.slot in st.direct && np !in st.folios {
      var s := e.slot;
      var st1 := UnmapSwap(st, a);
      var st2 := MapNew(st1, a, np, st.direct[s], vmWrite);
      assert DirectOk(st, s);
      assert CacheOk(st, s);
      assert PteOk(st, a);
      UncachedView(st, a);
      UnmapSwapKeeps(st, a);
      UnmapSwapViews(st, a);
      MapNewKeeps(st1, a, np, st.direct[s], vmWrite);
      MapNewViews(st1, a, np, st.direct[s], vmWrite);
      DirectClearOk(st2, s);
      var st3 := DirectClear(st2, s);
      forall b ensures SeesSame(st, st3, b) {
        assert SeesSame(st, st1, b) || b == a;
        assert SeesSame(st1, st2, b) || b == a;
        assert SeesSame(st2, st3, b);
      }
    }
  }

  lemma DirectClearOk(st: State, s: nat)
    requires Inv(st)
    ensures Inv(DirectClear(st, s)) && Same(st, DirectClear(st, s))
  {
    var st1 := st.(direct := st.direct - {s});
    DirectUnpinKeeps(st, s);
    SlotReleaseKeeps(st1, s);
    SlotReleaseViews(st1, s);
    assert Same(st, st1);
    forall b ensures SeesSame(st, DirectClear(st, s), b) {
      assert SeesSame(st, st1, b);
      assert SeesSame(st1, DirectClear(st, s), b);
    }
  }

  /** The entry is cleared. */
  lemma UnmapClears(st: State, a: Addr, h: Holder)
    requires Inv(st)
    requires PteAt(st, a).Present? && PteAt(st, a).page in st.folios && st.folios[PteAt(st, a).page].swap.Some?
    requires h.Transient? && h !in st.folios[PteAt(st, a).page].holders
    requires st.folios[PteAt(st, a).page].anonExclusive ==> !HasGup(st.folios[PteAt(st, a).page])
    ensures
      var p := PteAt(st, a).page;
      var f, st2 := st.folios[p], UnmapHeld(Demote(st, a), a, h);
      && Inv(st2) && SameBut(st, st2, a) && View(st, a) == f.data
      && st2.ptes == st.ptes[a := Empty] && st2.slots == st.slots && st2.cache == st.cache
      && p in st2.folios
      && st2.folios[p] == f.(anonExclusive := false, mapcount := f.mapcount - 1, holders := f.holders + {h})
  {
    hide View, Mappers, SwapRefs, AnonOf, SwapOf, Zeros, Same, SameBut;
    var p := PteAt(st, a).page;
    MappedView(st, a);
    var st1 := Demote(st, a);
    DemoteKeeps(st, a);
    DemoteViews(st, a);
    hide Inv;
    UnmapHeldKeeps(st1, a, h);
    UnmapHeldViews(st1, a, h);
    SameThenBut(st, st1, UnmapHeld(st1, a, h), a);
  }

  /** The swap entry takes its place and the mapping's reference is dropped. */
  lemma UnmapSwaps(st: State, a: Addr, h: Holder, p: nat, s: nat, x: bool)
    requires Inv(st) && PteAt(st, a).Empty? && s in st.slots && s in st.cache && st.cache[s] == p && p in st.folios
    requires !st.folios[p].anonExclusive && h.Transient?
    requires forall b :: PteAt(st, b) != Swap(s, true)
    requires x ==> CanMarkExclusive(MapSwap(st, a, s), s)
    ensures
      var st' := PutRef(MarkSwap(MapSwap(st, a, s), a, x), p, h);
      Inv(st') && SameBut(st, st', a) && View(st', a) == st.folios[p].data
  {
    hide View, Mappers, SwapRefs, AnonOf, SwapOf, Zeros, Same, SameBut;
    MapSwapKeeps(st, a, s);
    hide Inv;
    MapSwapViews(st, a, s);
    var st1 := MapSwap(st, a, s);
    MarkSwapKeeps(st1, a, x);
    MarkSwapViews(st1, a, x);
    var st2 := MarkSwap(st1, a, x);
    hide MapSwap, MarkSwap;
    PutRefKeeps(st2, p, h);
    PutRefViews(st2, p, h);
    ButThenSame(st, st1, st2, a);
    ButThenSame(st, st2, PutRef(st2, p, h), a);
  }

  lemma UnmapOk(st: State, a: Addr, h: Holder, fails: set<UnmapFailure>)
    requires Inv(st)
    ensures Inv(Unmap(st, a, h, fails)) && Same(st, Unmap(st, a, h, fails))
  {
    hide View, Mappers, SwapRefs, AnonOf, SwapOf, Zeros;
    var e := PteAt(st, a);
    if e.Present? && e.page in st.folios && st.folios[e.page].swap.Some?
       && h.Transient? && h !in st.folios[e.page].holders && !MustKeep(st, e.page, fails) {
      var p, x := e.page, st.folios[e.page].anonExclusive;
      var s := st.folios[p].swap.value;
      assert FolioOk(st, p);
      assert CacheOk(st, s);
      MappedCounts(st, a);
      assert x ==>
        st.slots[s].count == 0 && st.folios[p].mapcount == 1 && !HasCopier(st.folios[p]) && !HasGup(st.folios[p]);
      UnmapClears(st, a, h);
      var st2 := UnmapHeld(Demote(st, a), a, h);
      hide Inv, FolioOk, CacheOk, Same, SameBut, UnmapHeld, Demote, PutRef, MarkSwap;
      NoExclusiveReference(st, st2, a, p, s);
      assert HasCopier(st2.folios[p]) ==> HasCopier(st.folios[p]);
      UnmapSwaps(st2, a, h, p, s, x);
      var st5 := PutRef(MarkSwap(MapSwap(st2, a, s), a, x), p, h);
      ButThenBut(st, st2, st5, a);
      ButRestored(st, st5, a);
    }
  }

  lemma NoExclusiveReference(st: State, st2: State, a: Addr, p: nat, s: nat)
    requires Inv(st)
    requires Maps(PteAt(st, a), p) && p in st.folios && st.folios[p].swap == Some(s)
    requires st2.ptes == st.ptes[a := Empty]
    ensures forall b :: PteAt(st2, b) != Swap(s, true)
  {
    assert FolioOk(st, p);
    MappedCounts(st, a);
    forall b ensures PteAt(st2, b) != Swap(s, true) { assert PteOk(st, b); }
  }

  lemma ReclaimOk(st: State, p: nat, h: Holder)
    requires Inv(st)
    ensures Inv(Reclaim(st, p, h)) && Same(st, Reclaim(st, p, h))
  {
    hide View, Mappers, SwapRefs, AnonOf, SwapOf, Zeros;
    if Reclaim(st, p, h) != st {
      var s := st.folios[p].swap.value;
      var st1 := GetRef(st, p, h);
      assert FolioOk(st, p);
      GetRefKeeps(st, p, h);
      GetRefViews(st, p, h);
      var st2 := DropFromCache(st1, p);
      DropFromCacheKeeps(st1, p);
      DropFromCacheViews(st1, p);
      var st3 := PutRef(st2, p, h);
      PutRefKeeps(st2, p, h);
      PutRefViews(st2, p, h);
      var st4 := SlotRelease(st3, s);
      SlotReleaseKeeps(st3, s);
      SlotReleaseViews(st3, s);
      forall b ensures SeesSame(st, st4, b) {
        assert SeesSame(st, st1, b);
        assert SeesSame(st1, st2, b);
        assert SeesSame(st2, st3, b);
        assert SeesSame(st3, st4, b);
      }
    }
  }

  lemma FreeSwapOk(st: State, p: nat, h: Holder)
    requires Inv(st)
    ensures Inv(FreeSwap(st, p, h)) && Same(st, FreeSwap(st, p, h))
  {
    hide View, Mappers, SwapRefs, AnonOf, SwapOf, Zeros;
    if p in st.folios && h.Transient? && h !in st.folios[p].holders {
      var st1 := GetRef(st, p, h);
      assert FolioOk(st, p);
      GetRefKeeps(st, p, h);
      GetRefViews(st, p, h);
      FolioFreeSwapOk(st1, p);
      var st2 := FolioFreeSwap(st1, p);
      PutRefKeeps(st2, p, h);
      PutRefViews(st2, p, h);
      forall b ensures SeesSame(st, PutRef(st2, p, h), b) {
        assert SeesSame(st, st1, b);
        assert SeesSame(st1, st2, b);
        assert SeesSame(st2, PutRef(st2, p, h), b);
      }
    }
  }

  lemma EmptyViews(st: State, a: Addr)
    ensures SameBut(st, SetPte(st, a, Empty), a) && View(SetPte(st, a, Empty), a) == Zeros()
  {
  }

  lemma EmptyView(st: State, a: Addr)
    ensures PteAt(st, a).Empty? ==> View(st, a) == Zeros()
  {
  }

  /** Giving up the page at a: nobody else notices, and if the entry goes, zeros are left. */
  ghost predicate GivenUp(st: State, st': State, a: Addr) {
    && Inv(st') && SameBut(st, st', a)
    && (PteAt(st', a) == PteAt(st, a) ==> Same(st, st'))
    && (PteAt(st', a) != PteAt(st, a) ==> View(st', a) == Zeros())
  }

  lemma ZapSwapOk(st: State, a: Addr)
    requires Inv(st) && PteAt(st, a).Swap?
    ensures GivenUp(st, SlotRelease(UnmapSwap(st, a), PteAt(st, a).slot), a)
  {
    hide View, Mappers, SwapRefs, AnonOf, SwapOf, Zeros, SameBut, Same;
    var s, st1 := PteAt(st, a).slot, UnmapSwap(st, a);
    assert PteOk(st, a);
    UnmapSwapKeeps(st, a);
    UnmapSwapViews(st, a);
    SlotReleaseKeeps(st1, s);
    SlotReleaseViews(st1, s);
    ButThenSame(st, st1, SlotRelease(st1, s), a);
    EmptyView(SlotRelease(st1, s), a);
  }

  lemma ZapPresentOk(st: State, a: Addr, h: Holder)
    requires Inv(st) && PteAt(st, a).Present? && PteAt(st, a).page in st.folios
    requires h.Transient? && h !in st.folios[PteAt(st, a).page].holders
    ensures GivenUp(st, UnmapHeld(st, a, h), a)
  {
    hide View, Mappers, SwapRefs, AnonOf, SwapOf, Zeros, SameBut, Same;
    UnmapHeldKeeps(st, a, h);
    UnmapHeldViews(st, a, h);
    EmptyView(UnmapHeld(st, a, h), a);
  }

  lemma ZapOk(st: State, a: Addr, h: Holder)
    requires Inv(st)
    ensures GivenUp(st, Zap(st, a, h), a)
  {
    hide View, Zeros;
    match PteAt(st, a)
    case Empty =>
    case ZeroPage => SetPteKeeps(st, a, Empty); EmptyViews(st, a);
    case Present(p, _) =>
      if p in st.folios && h.Transient? && h !in st.folios[p].holders {
        hide Inv, UnmapHeld;
        ZapPresentOk(st, a, h);
      }
    case Swap(s, _) =>
      hide Inv, SlotRelease, UnmapSwap;
      ZapSwapOk(st, a);
  }

  // ------------------------------------------------------------------ all steps

  lemma StoreOk(st: State, a: Addr, off: nat, b: int)
    requires Inv(st)
    requires PteAt(st, a).Present? && PteAt(st, a).writable
    ensures Inv(Store(st, a, off, b)) && SameBut(st, Store(st, a, off, b), a)
    ensures View(Store(st, a, off, b), a) == Poke(View(st, a), off, b)
  {
    hide View, Mappers, SwapRefs, AnonOf, SwapOf, Zeros;
    var p := PteAt(st, a).page;
    assert PteOk(st, a);
    assert FolioOk(st, p);
    MappedCounts(st, a);
    WriteFolioKeeps(st, p, off, b);
    WriteFolioViews(st, p, off, b);
    var st' := WriteFolio(st, p, off, b);
    forall x ensures SeesSame(st, st', x) || x == a {
      if Maps(PteAt(st, x), p) { OnlyMapper(st, a, x); }
    }
  }

  lemma DmaWriteOk(st: State, p: nat, i: nat, off: nat, b: int)
    requires Inv(st)
    requires p in st.folios && Gup(i) in st.folios[p].holders
    ensures Inv(DmaWrite(st, p, i, off, b))
    ensures forall a :: Maps(PteAt(st, a), p) ==>
      SameBut(st, DmaWrite(st, p, i, off, b), a) && View(DmaWrite(st, p, i, off, b), a) == Poke(View(st, a), off, b)
    ensures (forall a :: !Maps(PteAt(st, a), p)) ==> Same(st, DmaWrite(st, p, i, off, b))
  {
    hide View, Mappers, SwapRefs, AnonOf, SwapOf, Zeros;
    assert FolioOk(st, p);
    assert HasGup(st.folios[p]);
    WriteFolioKeeps(st, p, off, b);
    WriteFolioViews(st, p, off, b);
    var st' := WriteFolio(st, p, off, b);
    forall a | Maps(PteAt(st, a), p) ensures SameBut(st, st', a) {
      forall x ensures SeesSame(st, st', x) || x == a {
        if Maps(PteAt(st, x), p) { OnlyMapper(st, a, x); }
      }
    }
  }

  lemma PinPageOk(st: State, a: Addr, i: nat)
    requires Inv(st)
    ensures Inv(PinPage(st, a, i)) && Same(st, PinPage(st, a, i))
  {
    var e := PteAt(st, a);
    if e.Present? && e.page in st.folios && st.folios[e.page].anonExclusive {
      MappedCounts(st, a);
      GetRefKeeps(st, e.page, Gup(i));
      GetRefViews(st, e.page, Gup(i));
    }
  }

  lemma CopyDataViews(st: State, t: nat)
    ensures Same(st, CopyData(st, t))
  {
  }

  lemma DirectPrepareViews(st: State, s: nat)
    ensures Same(st, DirectPrepare(st, s))
  {
  }

  lemma StartWritebackViews(st: State, p: nat)
    ensures Same(st, StartWriteback(st, p))
  {
  }

  /** The steps no process can notice: faults, copying, swapping, reclaim, references. */
  predicate Hidden(step: Step) {
    !step.SStore? && !step.SCopyEntry? && !step.SZap? && !step.SDmaWrite?
  }

  lemma HiddenStep(st: State, step: Step)
    requires Inv(st) && Hidden(step)
    ensures Inv(Next(st, step)) && Same(st, Next(st, step))
  {
    hide View, Inv, AnonFault, WpFault, WpFinish, EndCopy, SwapIn, DirectFinish, DirectClear, Unmap, Reclaim, FreeSwap;
    match step
    case SAnonFault(a, write, vmWrite, np) => AnonFaultOk(st, a, write, vmWrite, np);
    case SWpFault(t, a, unshare, vmWrite, trylock) => WpFaultOk(st, t, a, unshare, vmWrite, trylock);
    case SCopyData(t) => CopyDataKeeps(st, t); CopyDataViews(st, t);
    case SWpFinish(t, np, h, vmWrite, trylock) => WpFinishOk(st, t, np, h, vmWrite, trylock);
    case SWpAbort(t, h) => EndCopyOk(st, t, h);
    case SReadSwap(s, np) => ReadSwapKeeps(st, s, np); ReadSwapViews(st, s, np);
    case SSwapIn(a, h, write, vmWrite, swapFull) => SwapInOk(st, a, h, write, vmWrite, swapFull);
    case SDirectPrepare(s) => DirectPrepareKeeps(st, s); DirectPrepareViews(st, s);
    case SDirectFinish(a, np, vmWrite) => DirectFinishOk(st, a, np, vmWrite);
    case SDirectAbort(s) => DirectClearOk(st, s);
    case SAddToSwap(p, s, stable, junk) =>
      AddToSwapKeeps(st, p, s, stable, junk);
      AddToSwapViews(st, p, s, stable, junk);
    case SUnmap(a, h, fails) => UnmapOk(st, a, h, fails);
    case SStartWriteback(p) => StartWritebackKeeps(st, p); StartWritebackViews(st, p);
    case SEndWriteback(p, junk) => EndWritebackKeeps(st, p, junk); EndWritebackViews(st, p, junk);
    case SReclaim(p, h) => ReclaimOk(st, p, h);
    case SFreeSwap(p, h) => FreeSwapOk(st, p, h);
    case SPinPage(a, i) => PinPageOk(st, a, i);
    case STakeRef(p, i) => GetRefKeeps(st, p, Transient(i)); GetRefViews(st, p, Transient(i));
    case SLeaveRef(p, h) =>
      if !h.Copier? { PutRefKeeps(st, p, h); PutRefViews(st, p, h); }
  }

  lemma StoreRefines(st: State, a: Addr, off: nat, b: int, m: PrivateMap)
    requires Inv(st) && Agrees(st, m)
    ensures var step := SStore(a, off, b);
      Inv(Next(st, step)) && Agrees(Next(st, step), Apply(m, EventOf(st, step)))
  {
    if PteAt(st, a).Present? && PteAt(st, a).writable {
      hide View, Inv, Store;
      StoreOk(st, a, off, b);
      ChangedAt(st, Store(st, a, off, b), m, a, Poke(Recall(m, a), off, b));
    }
  }

  lemma CopyEntryRefines(st: State, step: Step, m: PrivateMap)
    requires Inv(st) && Agrees(st, m) && step.SCopyEntry?
    ensures Inv(Next(st, step)) && Agrees(Next(st, step), Apply(m, EventOf(st, step)))
  {
    hide View, Inv, CopyEntry;
    var st' := Next(st, step);
    CopyEntryOk(st, step.src, step.dst, step.h, step.maybePinned, step.prealloc, step.dupFails, step.vmWrite);
    if PteAt(st', step.dst) != PteAt(st, step.dst) { ChangedAt(st, st', m, step.dst, Recall(m, step.src)); }
    else { Unchanged(st, st', m); }
  }

  lemma ZapRefines(st: State, a: Addr, h: Holder, m: PrivateMap)
    requires Inv(st) && Agrees(st, m)
    ensures var step := SZap(a, h);
      Inv(Next(st, step)) && Agrees(Next(st, step), Apply(m, EventOf(st, step)))
  {
    hide View, Inv, Zap;
    var st' := Zap(st, a, h);
    ZapOk(st, a, h);
    if PteAt(st', a) != PteAt(st, a) { ChangedAt(st, st', m, a, Zeros()); }
    else { Unchanged(st, st', m); }
  }

  lemma DmaRefines(st: State, p: nat, i: nat, off: nat, b: int, m: PrivateMap)
    requires Inv(st) && Agrees(st, m)
    ensures var step := SDmaWrite(p, i, off, b);
      Inv(Next(st, step)) && Agrees(Next(st, step), Apply(m, EventOf(st, step)))
  {
    var step := SDmaWrite(p, i, off, b);
    var st' := Next(st, step);
    if p in st.folios && Gup(i) in st.folios[p].holders {
      hide View, Inv, WriteFolio;
      DmaWriteOk(st, p, i, off, b);
      var e := EventOf(st, step);
      if e.Write? {
        ChangedAt(st, st', m, e.a, Poke(Recall(m, e.a), off, b));
      } else {
        Unchanged(st, st', m);
      }
    }
  }

  /** Each step does to what processes see exactly what its event does to private memory. */
  lemma NextRefines(st: State, step: Step, m: PrivateMap)
    requires Inv(st) && Agrees(st, m)
    ensures Inv(Next(st, step)) && Agrees(Next(st, step), Apply(m, EventOf(st, step)))
  {
    match step
    case SStore(a, off, b) => StoreRefines(st, a, off, b, m);
    case SCopyEntry(_, _, _, _, _, _, _) => CopyEntryRefines(st, step, m);
    case SZap(a, h) => ZapRefines(st, a, h, m);
    case SDmaWrite(p, i, off, b) => DmaRefines(st, p, i, off, b, m);
    case _ =>
      hide View, Inv, Next;
      HiddenStep(st, step);
      Unchanged(st, Next(st, step), m);
  }

  lemma ChangedAt(st: State, st': State, m: PrivateMap, a: Addr, d: PageData)
    requires Agrees(st, m) && SameBut(st, st', a) && View(st', a) == d
    ensures Agrees(st', m[a := d])
  {
    forall b ensures View(st', b) == Recall(m[a := d], b) { assert SeesSame(st, st', b) || b == a; }
  }

  lemma Unchanged(st: State, st': State, m: PrivateMap)
    requires Agrees(st, m) && Same(st, st')
    ensures Agrees(st', m)
  {
    forall b ensures View(st', b) == Recall(m, b) { assert SeesSame(st, st', b); }
  }

  // ------------------------------------------------------------------- all runs

  lemma BootOk()
    ensures Inv(BOOT) && Agrees(BOOT, map[])
  {
    forall mm: nat ensures CountersOk(BOOT, mm) {
      assert AnonOf(BOOT.ptes, mm) == {};
      assert SwapOf(BOOT.ptes, mm) == {};
    }
  }

  lemma {:induction false} RunRefinesFrom(st: State, steps: seq<Step>, m: PrivateMap)
    requires Inv(st) && Agrees(st, m)
    ensures Inv(Run(st, steps)) && Agrees(Run(st, steps), ApplyAll(m, Events(st, steps)))
    decreases |steps|
  {
    if steps != [] {
      NextRefines(st, steps[0], m);
      RunRefinesFrom(Next(st, steps[0]), steps[1..], Apply(m, EventOf(st, steps[0])));
      var events := Events(st, steps);
      assert events[0] == EventOf(st, steps[0]) && events[1..] == Events(Next(st, steps[0]), steps[1..]);
    }
  }

  /** Over every run of faults, forks, swap-outs, swap-ins, reuse, copies and reclaim, each
      process finds at each address what it would find in a byte map of its own. */
  lemma PrivateMemoryHolds(steps: seq<Step>, a: Addr)
    ensures View(Run(BOOT, steps), a) == Recall(ApplyAll(map[], Events(BOOT, steps)), a)
  {
    BootOk();
    RunRefinesFrom(BOOT, steps, map[]);
  }

  /** So a process's write can change what is seen at its own address only. */
  lemma WritesStayPrivate(steps: seq<Step>, a: Addr, off: nat, b: int, other: Addr)
    requires other != a
    ensures View(Next(Run(BOOT, steps), SStore(a, off, b)), other) == View(Run(BOOT, steps), other)
  {
    BootOk();
    RunRefinesFrom(BOOT, steps, map[]);
    var st := Run(BOOT, steps);
    if PteAt(st, a).Present? && PteAt(st, a).writable {
      StoreOk(st, a, off, b);
      assert SeesSame(st, Store(st, a, off, b), other) || other == a;
    }
  }
}
