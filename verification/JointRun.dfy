/** Page tables and reverse maps in one run.  Each step of PrivateMemory is matched by moves of
    ReverseMap, where what the page tables decide by counting references decides which moves are
    made; so both machines always show the same entries, and the reverse-map walk finds every entry
    there is in the page tables. */
module JointRun {
  import opened Wrappers
  import opened PrivateMemory
  import opened PrivateMemoryInvariant
  import opened PrivateMemoryViews
  import opened PrivateMemoryRefinement
  import opened PrivateMemoryAccounting
  import opened ReverseMapGuards
  import R = ReverseMap
  import V = AnonVma

  datatype Joint = Joint(pm: State, rm: R.State, loc: Layout)

  /** Both machines show the same entries and the same swap cache, and know the same pages. */
  ghost predicate Match(pm: State, rm: R.State, loc: Layout) {
    && Injective(loc) && rm.entries == Entries(pm.ptes, loc)
    && rm.cache == pm.cache && rm.pages.Keys == pm.folios.Keys
  }

  // ------------------------------------------------------------------- the moves

  /** Give up swap slots and free pages. */
  ghost function FreeAll(slots: set<nat>, pages: set<nat>): seq<R.Move>
    decreases |slots| + |pages|
  {
    if slots != {} then
      var s :| s in slots;
      [R.MFreeSwap(s)] + FreeAll(slots - {s}, pages)
    else if pages != {} then
      var p :| p in pages;
      [R.MFreePage(p)] + FreeAll(slots, pages - {p})
    else []
  }

  /** What is left of the swap cache and the pages of rm is that of pm. */
  ghost function Sweep(pm: State, rm: R.State): seq<R.Move> {
    FreeAll(rm.cache.Keys - pm.cache.Keys, rm.pages.Keys - pm.folios.Keys)
  }

  /** What happens to the entries in a step from pm to pm'. */
  ghost function MainMoves(pm: State, pm': State, loc: Layout, step: Step): seq<R.Move> {
    match step
    case SAnonFault(a, write, _, np) =>
      if write && PteAt(pm, a).Empty? && np !in pm.folios then [R.MFault(loc(a), np)] else []
    case SCopyEntry(_, dst, _, _, _, _, _) =>
      if !Shown(pm.ptes, dst) && Shown(pm'.ptes, dst)
      then [R.MCopy(loc(dst).v, loc(dst).index, NewPage(pm, PteAt(pm', dst)))] else []
    case SWpFinish(t, np, h, _, _) =>
      if Switches(pm, t, np, h)
      then [if pm.copies[t].orig.Present? then R.MWriteCopy(loc(pm.copies[t].addr), np)
            else R.MFault(loc(pm.copies[t].addr), np)]
      else []
    case SReadSwap(s, np) =>
      if s in pm.slots && s !in pm.cache && s !in pm.direct && np !in pm.folios then [R.MReadSwap(s, np)] else []
    case SSwapIn(a, h, _, _, _) =>
      if SwapInEnabled(pm, a, h) then [R.MSwapIn(loc(a), IsExclusive(pm', pm.cache[PteAt(pm, a).slot]))] else []
    case SDirectFinish(a, np, _) =>
      if PteAt(pm, a).Swap? && PteAt(pm, a).slot in pm.direct && np !in pm.folios
      then [R.MDirectSwapIn(loc(a), np)] else []
    case SAddToSwap(p, s, _, _) =>
      if p in pm.folios && pm.folios[p].swap.None? && s !in pm.slots then [R.MAddToSwap(p, s)] else []
    case SUnmap(a, _, _) =>
      if PteAt(pm, a).Present? && PteAt(pm', a).Swap? then [R.MUnmap(loc(a), PteAt(pm', a).slot)] else []
    case SReclaim(p, _) =>
      if p in pm.folios && p !in pm'.folios
           && pm.folios[p].swap.Some? then [R.MReclaim(pm.folios[p].swap.value)] else []
    case SZap(a, _) => if Shown(pm.ptes, a) && !Shown(pm'.ptes, a) then [R.MZap(loc(a))] else []
    case _ => []
  }

  /** The recheck of wp_page_copy has found the entry unchanged. */
  predicate Switches(pm: State, t: nat, np: nat, h: Holder) {
    && t in pm.copies && pm.copies[t].copied.Some? && np !in pm.folios && h.Transient?
    && var c := pm.copies[t];
       PteAt(pm, c.addr) == c.orig
       && (c.orig.Present? ==> c.orig.page in pm.folios && h !in pm.folios[c.orig.page].holders)
  }

  function NewPage(pm: State, e: Pte): Option<nat> {
    if e.Present? && e.page !in pm.folios then Some(e.page) else None
  }

  /** wp_can_reuse_anon_folio has said yes, and the page was not exclusive before. */
  predicate Reuses(pm: State, step: Step) {
    step.SWpFault? && step.t !in pm.copies
    && PteAt(pm, step.a).Present? && !PteAt(pm, step.a).writable
    && var p := PteAt(pm, step.a).page;
       p in pm.folios && !pm.folios[p].anonExclusive && TryReuse(pm, p, step.trylock).1
  }

  /** Only then is the page given to the vma's own anon_vma. */
  function PostMoves(pm: State, loc: Layout, step: Step): (ms: seq<R.Move>)
    ensures ms == [] || (|ms| == 1 && ms[0].MMoveAnon?)
  {
    if Reuses(pm, step) then [R.MMoveAnon(loc(step.a))] else []
  }

  ghost function Moves(pm: State, rm: R.State, loc: Layout, step: Step): seq<R.Move> {
    var pm' := Next(pm, step);
    var main := MainMoves(pm, pm', loc, step);
    main + Sweep(pm', R.Play(rm, main)) + PostMoves(pm, loc, step)
  }

  // --------------------------------------------------------------------- the run

  /** What the fault and fork paths have seen to: a vma that gets its first page has an anon_vma of
      its own, and entries are copied between a vma and the one that was forked from it. */
  predicate Prepared(j: Joint, step: Step) {
    match step
    case SAnonFault(a, write, _, _) => write ==> R.HasAnon(j.rm, j.loc(a).v)
    case SCopyEntry(src, dst, _, _, _, _, _) =>
      j.loc(dst).v in j.rm.forks && j.loc(src) == R.Place(j.rm.forks[j.loc(dst).v], j.loc(dst).index)
    case SWpFinish(t, _, _, _, _) =>
      t in j.pm.copies && PteAt(j.pm, j.pm.copies[t].addr).ZeroPage? ==> R.HasAnon(j.rm, j.loc(j.pm.copies[t].addr).v)
    case _ => true
  }

  datatype JointStep =
    | Mem(step: Step)
    | Vma(move: R.Move)
    | Split(dst: nat, src: nat, budget: nat, pivot: nat)
    | Relocate(loc: Layout)

  /** __split_vma has got its links. */
  predicate Splits(rm: R.State, dst: nat, src: nat, budget: nat) {
    && V.IsBlank(rm.forest, dst) && src in R.Vmas(rm) && dst != src && !R.Locked(rm, dst) && !R.Locked(rm, src)
    && V.Clone(rm.forest, dst, src, R.Vmas(rm)[src].anon, budget).1
  }

  /** The moves that are about vmas alone. */
  predicate IsVmaMove(move: R.Move) {
    move.MForest? || move.MFork? || move.MEndFork?
  }

  /** Where addresses are after a split; places of the new vma that were given out to addresses
      without an entry are exchanged. */
  function Exchanged(x: R.Place, dst: nat, src: nat, pivot: nat): R.Place {
    if x.index < pivot then x
    else if x.v == src then R.Place(dst, x.index)
    else if x.v == dst then R.Place(src, x.index)
    else x
  }

  ghost function JointNext(j: Joint, js: JointStep): Joint {
    match js
    case Mem(step) =>
      if Prepared(j, step)
      then Joint(Next(j.pm, step), R.Play(j.rm, Moves(j.pm, j.rm, j.loc, step)), j.loc) else j
    case Vma(move) => if IsVmaMove(move) then j.(rm := R.Advance(j.rm, move)) else j
    case Split(dst, src, budget, pivot) =>
      var loc := if Splits(j.rm, dst, src, budget) then a => Exchanged(j.loc(a), dst, src, pivot) else j.loc;
      j.(rm := R.Advance(j.rm, R.MSplit(dst, src, budget, pivot)), loc := loc)
    case Relocate(loc) =>
      if Injective(loc) && forall a :: Shown(j.pm.ptes, a) ==> loc(a) == j.loc(a) then j.(loc := loc) else j
  }

  ghost function JointRunFrom(j: Joint, steps: seq<JointStep>): Joint
    decreases |steps|
  {
    if steps == [] then j else JointRunFrom(JointNext(j, steps[0]), steps[1..])
  }

  ghost predicate Played(rm: R.State) {
    exists moves :: R.Play(R.START, moves) == rm
  }

  /** Each machine is where a run of its own leads, and they match. */
  ghost predicate Ok(j: Joint) {
    Reachable(j.pm) && Played(j.rm) && Match(j.pm, j.rm, j.loc)
  }

  // ------------------------------------------------------------------- entries

  /** The same page or slot, or nothing that is shown. */
  predicate Alike(e: Pte, e': Pte) {
    && (e.Present? <==> e'.Present?) && (e.Present? ==> e.page == e'.page)
    && (e.Swap? <==> e'.Swap?) && (e.Swap? ==> e.slot == e'.slot)
  }

  ghost predicate OnlyAt(ptes: map<Addr, Pte>, ptes': map<Addr, Pte>, a: Addr) {
    forall b :: b != a ==> Alike(EntryAt(ptes, b), EntryAt(ptes', b))
  }

  lemma EntriesSame(ptes: map<Addr, Pte>, ptes': map<Addr, Pte>, loc: Layout)
    requires Injective(loc) && forall b :: Alike(EntryAt(ptes, b), EntryAt(ptes', b))
    ensures Entries(ptes', loc) == Entries(ptes, loc)
  {
    EntriesWithin(ptes, ptes', loc);
    EntriesWithin(ptes', ptes, loc);
  }

  lemma EntriesWithin(ptes: map<Addr, Pte>, ptes': map<Addr, Pte>, loc: Layout)
    requires Injective(loc) && forall b :: Alike(EntryAt(ptes, b), EntryAt(ptes', b))
    ensures forall x ::
      x in Entries(ptes, loc) ==> x in Entries(ptes', loc) && Entries(ptes', loc)[x] == Entries(ptes, loc)[x]
  {
    forall x | x in Entries(ptes, loc)
      ensures x in Entries(ptes', loc) && Entries(ptes', loc)[x] == Entries(ptes, loc)[x]
    {
      var a := EntriesFrom(ptes, loc, x);
      EntriesAt(ptes', loc, a);
    }
  }

  /** One entry is changed. */
  ghost function Changed(entries: map<R.Place, R.Entry>, ptes': map<Addr, Pte>, loc: Layout, a: Addr)
    : map<R.Place, R.Entry>
  {
    if Shown(ptes', a) then entries[loc(a) := EntryOf(EntryAt(ptes', a))] else entries - {loc(a)}
  }

  lemma EntriesChange(ptes: map<Addr, Pte>, ptes': map<Addr, Pte>, loc: Layout, a: Addr)
    requires Injective(loc) && OnlyAt(ptes, ptes', a)
    ensures Entries(ptes', loc) == Changed(Entries(ptes, loc), ptes', loc, a)
  {
    var e, e' := Changed(Entries(ptes, loc), ptes', loc, a), Entries(ptes', loc);
    hide Entries;
    forall x | x in e ensures x in e' && e'[x] == e[x] {
      EntriesAt(ptes', loc, a);
      if x != loc(a) {
        var b := EntriesFrom(ptes, loc, x);
        EntriesAt(ptes', loc, b);
      }
    }
    forall x | x in e' ensures x in e {
      var b := EntriesFrom(ptes', loc, x);
      EntriesAt(ptes, loc, b);
    }
  }

  // ------------------------------------------------------------------- sweeping

  lemma {:induction false} PlayConcat(rm: R.State, ms: seq<R.Move>, ns: seq<R.Move>)
    ensures R.Play(rm, ms + ns) == R.Play(R.Play(rm, ms), ns)
    decreases |ms|
  {
    hide R.Advance;
    if ms == [] {
      assert ms + ns == ns;
    } else {
      assert (ms + ns)[0] == ms[0] && (ms + ns)[1..] == ms[1..] + ns;
      PlayConcat(R.Advance(rm, ms[0]), ms[1..], ns);
    }
  }

  lemma PlayOne(rm: R.State, m: R.Move)
    ensures R.Play(rm, [m]) == R.Advance(rm, m)
  {
    assert R.Play(R.Advance(rm, m), []) == R.Advance(rm, m);
  }

  /** Nobody refers to the slots, nobody maps the pages, and no other slot caches them. */
  ghost predicate Unused(rm: R.State, slots: set<nat>, pages: set<nat>) {
    && (forall s :: s in slots ==> !R.InUse(rm, R.Swapped(s)))
    && (forall p :: p in pages ==> !R.InUse(rm, R.Mapped(p)))
    && (forall t :: t in rm.cache && t !in slots ==> rm.cache[t] !in pages)
  }

  lemma FreeSlotOk(rm: R.State, slots: set<nat>, pages: set<nat>, s: nat)
    requires Unused(rm, slots, pages) && s in slots
    ensures R.Advance(rm, R.MFreeSwap(s)) == rm.(cache := rm.cache - {s})
    ensures Unused(rm.(cache := rm.cache - {s}), slots - {s}, pages)
  {
  }

  lemma FreePageOk(rm: R.State, pages: set<nat>, p: nat)
    requires Unused(rm, {}, pages) && p in pages
    ensures R.Advance(rm, R.MFreePage(p)) == rm.(pages := rm.pages - {p})
    ensures Unused(rm.(pages := rm.pages - {p}), {}, pages - {p})
  {
    forall q ensures R.InUse(rm.(pages := rm.pages - {p}), R.Mapped(q)) == R.InUse(rm, R.Mapped(q)) { }
  }

  lemma {:induction false} FreePagesOk(rm: R.State, pages: set<nat>)
    requires Unused(rm, {}, pages)
    ensures R.Play(rm, FreeAll({}, pages)) == rm.(pages := rm.pages - pages)
    decreases |pages|
  {
    hide R.Advance, Unused;
    if pages == {} {
      assert rm.pages - pages == rm.pages;
    } else {
      var ms := FreeAll({}, pages);
      var p := ms[0].p;
      var rm1 := rm.(pages := rm.pages - {p});
      FreePageOk(rm, pages, p);
      FreePagesOk(rm1, pages - {p});
      assert rm.pages - {p} - (pages - {p}) == rm.pages - pages;
    }
  }

  lemma {:induction false} FreeAllOk(rm: R.State, slots: set<nat>, pages: set<nat>)
    requires Unused(rm, slots, pages)
    ensures R.Play(rm, FreeAll(slots, pages)) == rm.(cache := rm.cache - slots, pages := rm.pages - pages)
    decreases |slots|
  {
    hide R.Advance, Unused;
    if slots == {} {
      FreePagesOk(rm, pages);
      assert rm.cache - slots == rm.cache;
    } else {
      var ms := FreeAll(slots, pages);
      var s := ms[0].s;
      var rm1 := rm.(cache := rm.cache - {s});
      FreeSlotOk(rm, slots, pages, s);
      FreeAllOk(rm1, slots - {s}, pages);
      assert rm.cache - {s} - (slots - {s}) == rm.cache - slots;
    }
  }

  /** All that is missing is that what pm has given up is given up in rm. */
  ghost predicate Ready(pm: State, rm: R.State, loc: Layout) {
    && Injective(loc) && rm.entries == Entries(pm.ptes, loc)
    && (forall s :: s in pm.cache ==> s in rm.cache && rm.cache[s] == pm.cache[s])
    && (forall s :: s in rm.cache && s !in pm.cache ==> s !in pm.slots)
    && pm.folios.Keys <= rm.pages.Keys
  }

  lemma SweptUnused(pm: State, rm: R.State, loc: Layout)
    requires Inv(pm) && Ready(pm, rm, loc)
    ensures Unused(rm, rm.cache.Keys - pm.cache.Keys, rm.pages.Keys - pm.folios.Keys)
  {
    hide Entries, FolioOk, SlotOk, CopyOk, HolderOk, DirectOk, CountersOk;
    var slots, pages := rm.cache.Keys - pm.cache.Keys, rm.pages.Keys - pm.folios.Keys;
    forall b | b in rm.entries
      ensures rm.entries[b].Swapped? ==> rm.entries[b].slot !in slots
      ensures rm.entries[b].Mapped? ==> rm.entries[b].page !in pages
    {
      var a := EntriesFrom(pm.ptes, loc, b);
      assert PteOk(pm, a);
    }
    forall t | t in rm.cache && t !in slots ensures rm.cache[t] !in pages { assert CacheOk(pm, t); }
  }

  lemma SweepOk(pm: State, rm: R.State, loc: Layout)
    requires Inv(pm) && Ready(pm, rm, loc)
    ensures Match(pm, R.Play(rm, Sweep(pm, rm)), loc)
  {
    hide Inv, Entries, FreeAll, Unused, R.Play, Injective;
    var slots, pages := rm.cache.Keys - pm.cache.Keys, rm.pages.Keys - pm.folios.Keys;
    SweptUnused(pm, rm, loc);
    FreeAllOk(rm, slots, pages);
    assert (rm.cache - slots) == pm.cache;
    assert (rm.pages - pages).Keys == pm.folios.Keys;
  }

  // ----------------------------------------------------------------- giving up

  /** Slots are only given up, and one that leaves the swap cache is free. */
  ghost predicate Less(st: State, st': State) {
    && (forall s :: s in st'.cache ==> s in st.cache && st'.cache[s] == st.cache[s])
    && (forall s :: s in st.cache && s !in st'.cache ==> s !in st'.slots)
    && (forall s :: s in st'.slots ==> s in st.slots)
  }

  /** Nothing is shown differently but at a, and slots and pages are only given up. */
  ghost predicate EasesBut(st: State, st': State, a: Addr) {
    Less(st, st') && st'.folios.Keys <= st.folios.Keys && OnlyAt(st.ptes, st'.ptes, a)
  }

  ghost predicate Eases(st: State, st': State) {
    Less(st, st') && st'.folios.Keys <= st.folios.Keys && forall b :: Alike(EntryAt(st.ptes, b), EntryAt(st'.ptes, b))
  }

  lemma EasesThen(st: State, st1: State, st2: State)
    requires Eases(st, st1) && Eases(st1, st2)
    ensures Eases(st, st2)
  {
  }

  lemma EasesButThen(st: State, st1: State, st2: State, a: Addr)
    requires EasesBut(st, st1, a) && EasesBut(st1, st2, a)
    ensures EasesBut(st, st2, a)
  {
  }

  lemma EasesEven(st: State, st': State, a: Addr)
    requires Eases(st, st')
    ensures EasesBut(st, st', a)
  {
  }

  lemma ReadyEases(st: State, st': State, rm: R.State, loc: Layout)
    requires Ready(st, rm, loc) && Eases(st, st')
    ensures Ready(st', rm, loc)
  {
    EntriesSame(st.ptes, st'.ptes, loc);
    hide Entries;
  }

  /** The folio's slot is not being read directly. */
  predicate NotDirect(st: State, p: nat) {
    p in st.folios && st.folios[p].swap.Some? ==> st.folios[p].swap.value !in st.direct
  }

  lemma CachedNotDirect(st: State, p: nat)
    requires Inv(st)
    ensures NotDirect(st, p)
  {
    assert FolioOk(st, p);
    if p in st.folios && st.folios[p].swap.Some? { assert CacheOk(st, st.folios[p].swap.value); }
  }

  /** Only references and marks have changed, or a page is gone. */
  ghost predicate Counts(st: State, st': State) {
    && st'.ptes == st.ptes && st'.cache == st.cache && st'.slots == st.slots && st'.folios.Keys <= st.folios.Keys
  }

  lemma CountsEase(st: State, st': State)
    requires Counts(st, st')
    ensures Eases(st, st')
  {
  }

  lemma FreeSwapEases(st: State, p: nat)
    requires NotDirect(st, p)
    ensures Eases(st, FolioFreeSwap(st, p))
  {
  }

  lemma GetRefEases(st: State, p: nat, h: Holder)
    ensures Eases(st, GetRef(st, p, h))
  {
    assert Counts(st, GetRef(st, p, h));
    hide *;
    CountsEase(st, GetRef(st, p, h));
  }

  lemma PutRefEases(st: State, p: nat, h: Holder)
    ensures Eases(st, PutRef(st, p, h)) && PutRef(st, p, h).ptes == st.ptes
  {
    hide Eases;
    if p in st.folios && h in st.folios[p].holders {
      var f := st.folios[p];
      var less := if f.refs == 1 then st.folios - {p}
                  else st.folios[p := f.(refs := f.refs - 1, holders := f.holders - {h})];
      assert less.Keys <= st.folios.Keys;
      assert PutRef(st, p, h) == st.(folios := less);
      hide PutRef;
      CountsEase(st, st.(folios := less));
    } else {
      StaysEased(st);
    }
  }

  lemma DirectClearEases(st: State, s: nat)
    ensures Eases(st, DirectClear(st, s))
  {
  }

  lemma PromoteEases(st: State, a: Addr, w: bool)
    ensures Eases(st, Promote(st, a, w))
  {
  }

  lemma BeginCopyEases(st: State, t: nat, a: Addr, unshare: bool)
    ensures Eases(st, BeginCopy(st, t, a, unshare))
  {
    assert Counts(st, BeginCopy(st, t, a, unshare));
    hide *;
    CountsEase(st, BeginCopy(st, t, a, unshare));
  }

  lemma ForgetCopyEases(st: State, t: nat, h: Holder)
    ensures Eases(st, ForgetCopy(st, t, h))
  {
    hide Eases;
    assert Counts(st, ForgetCopy(st, t, h));
    hide *;
    CountsEase(st, ForgetCopy(st, t, h));
  }

  lemma EndCopyEases(st: State, t: nat, h: Holder)
    ensures Eases(st, EndCopy(st, t, h))
  {
    hide PutRef, ForgetCopy, Eases;
    StaysEased(st);
    if t in st.copies {
      var p, st1 := st.copies[t].orig, ForgetCopy(st, t, h);
      ForgetCopyEases(st, t, h);
      if p.Present? {
        PutRefEases(st1, p.page, h);
        EasesThen(st, st1, PutRef(st1, p.page, h));
      }
    }
  }

  lemma FreeSwapStepEases(st: State, p: nat, h: Holder)
    requires Inv(st)
    ensures Eases(st, FreeSwap(st, p, h))
  {
    if p in st.folios && h.Transient? && h !in st.folios[p].holders {
      var st1 := GetRef(st, p, h);
      CachedNotDirect(st, p);
      assert NotDirect(st1, p);
      hide Inv, GetRef, FolioFreeSwap, PutRef, Eases, NotDirect;
      GetRefEases(st, p, h);
      FreeSwapEases(st1, p);
      PutRefEases(FolioFreeSwap(st1, p), p, h);
      EasesThen(st, st1, FolioFreeSwap(st1, p));
      EasesThen(st, FolioFreeSwap(st1, p), FreeSwap(st, p, h));
    }
  }

  lemma WpFaultEases(st: State, t: nat, a: Addr, unshare: bool, vmWrite: bool, trylock: bool)
    requires Inv(st)
    ensures Eases(st, WpFault(st, t, a, unshare, vmWrite, trylock))
  {
    var e := PteAt(st, a);
    if e.Present? { CachedNotDirect(st, e.page); }
    hide Inv, NotDirect, FolioFreeSwap, Promote, BeginCopy, Eases;
    StaysEased(st);
    if t !in st.copies {
      match e
      case ZeroPage => BeginCopyEases(st, t, a, unshare);
      case Present(p, w) =>
        if !w && p in st.folios {
          if st.folios[p].anonExclusive {
            PromoteEases(st, a, vmWrite);
          } else {
            var (st1, reuse) := TryReuse(st, p, trylock);
            FreeSwapEases(st, p);
            assert Eases(st, st1);
            PromoteEases(st1, a, !unshare && vmWrite);
            BeginCopyEases(st1, t, a, unshare);
            EasesThen(st, st1, WpFault(st, t, a, unshare, vmWrite, trylock));
          }
        }
      case _ =>
    }
  }

  lemma StaysEased(st: State)
    ensures Eases(st, st)
  {
  }

  // --------------------------------------------------- small operations at one entry

  /** One entry is set, and for the rest only counts change or something is given up. */
  ghost predicate Sets(st: State, st': State, a: Addr, e: Pte) {
    && st'.ptes == st.ptes[a := e] && st'.cache == st.cache && st'.slots.Keys == st.slots.Keys
    && st'.folios.Keys == st.folios.Keys
  }

  lemma SetsEases(st: State, st': State, a: Addr, e: Pte)
    requires Sets(st, st', a, e)
    ensures EasesBut(st, st', a) && PteAt(st', a) == e
    ensures Alike(PteAt(st, a), e) ==> Eases(st, st')
  {
    assert Less(st, st');
  }

  lemma UnmapHeldSets(st: State, a: Addr, h: Holder)
    requires PteAt(st, a).Present? && PteAt(st, a).page in st.folios
    ensures Sets(st, UnmapHeld(st, a, h), a, Empty)
  {
  }

  lemma MapHeldSets(st: State, a: Addr, p: nat, h: Holder)
    requires p in st.folios
    ensures Sets(st, MapHeld(st, a, p, h), a, Present(p, false))
  {
  }

  lemma UnmapSwapSets(st: State, a: Addr)
    requires PteAt(st, a).Swap? && PteAt(st, a).slot in st.slots
    ensures Sets(st, UnmapSwap(st, a), a, Empty)
  {
  }

  lemma MapSwapSets(st: State, a: Addr, s: nat)
    requires s in st.slots
    ensures Sets(st, MapSwap(st, a, s), a, Swap(s, false))
  {
  }

  lemma MarkSwapEases(st: State, a: Addr, x: bool)
    ensures Eases(st, MarkSwap(st, a, x))
      && (PteAt(st, a).Swap? ==> PteAt(MarkSwap(st, a, x), a) == Swap(PteAt(st, a).slot, x))
  {
    hide Eases;
    StaysEased(st);
    if PteAt(st, a).Swap? { SetsEases(st, MarkSwap(st, a, x), a, Swap(PteAt(st, a).slot, x)); }
  }

  lemma DemoteEases(st: State, a: Addr)
    ensures Eases(st, Demote(st, a))
  {
    hide Eases;
    StaysEased(st);
    var e := PteAt(st, a);
    if e.Present? && e.page in st.folios { SetsEases(st, Demote(st, a), a, Present(e.page, false)); }
  }

  lemma SlotReleaseEases(st: State, s: nat)
    ensures Eases(st, SlotRelease(st, s))
  {
  }

  /** A new page at one address. */
  ghost predicate Adds(st: State, st': State, a: Addr, np: nat) {
    Less(st, st') && st'.folios.Keys <= st.folios.Keys + {np} && OnlyAt(st.ptes, st'.ptes, a) && Maps(PteAt(st', a), np)
  }

  lemma MapNewAdds(st: State, a: Addr, np: nat, d: PageData, w: bool)
    ensures Adds(st, MapNew(st, a, np, d, w), a, np)
  {
  }

  lemma AddsThen(st: State, st1: State, st2: State, a: Addr, np: nat)
    requires EasesBut(st, st1, a) && Adds(st1, st2, a, np)
    ensures Adds(st, st2, a, np)
  {
  }

  lemma AddsEases(st: State, st1: State, st2: State, a: Addr, np: nat)
    requires Adds(st, st1, a, np) && Eases(st1, st2)
    ensures Adds(st, st2, a, np)
  {
  }

  lemma EasesButEases(st: State, st1: State, st2: State, a: Addr)
    requires EasesBut(st, st1, a) && Eases(st1, st2)
    ensures EasesBut(st, st2, a) && Alike(PteAt(st1, a), PteAt(st2, a))
  {
  }

  // ------------------------------------------------------------- steps with moves

  lemma NewReady(pm: State, pm': State, rm: R.State, loc: Layout, a: Addr, np: nat)
    requires Match(pm, rm, loc) && Adds(pm, pm', a, np) && np !in pm.folios && R.HasAnon(rm, loc(a).v)
    ensures Ready(pm', R.MapNew(rm, loc(a), np), loc)
  {
    EntriesChange(pm.ptes, pm'.ptes, loc, a);
    hide Entries;
  }

  /** Another entry at one address. */
  lemma SetReady(pm: State, pm': State, rm: R.State, rm1: R.State, loc: Layout, a: Addr)
    requires Match(pm, rm, loc) && EasesBut(pm, pm', a)
    requires rm1.entries == Changed(rm.entries, pm'.ptes, loc, a)
    requires rm1.cache == rm.cache && rm1.pages.Keys == rm.pages.Keys
    ensures Ready(pm', rm1, loc)
  {
    EntriesChange(pm.ptes, pm'.ptes, loc, a);
    hide Entries, Changed;
  }

  /** What is shown is there, in a vma with an anon_vma of its own. */
  lemma ShownIsThere(pm: State, rm: R.State, loc: Layout, a: Addr)
    requires Match(pm, rm, loc) && R.Complete(rm)
    ensures loc(a) in rm.entries <==> Shown(pm.ptes, a)
    ensures Shown(pm.ptes, a) ==> rm.entries[loc(a)] == EntryOf(PteAt(pm, a)) && R.HasAnon(rm, loc(a).v)
  {
    EntriesAt(pm.ptes, loc, a);
    assert R.EntryOk(rm, loc(a));
    hide Entries;
  }

  ghost predicate Together(pm: State, rm: R.State, loc: Layout) {
    Inv(pm) && R.Complete(rm) && Match(pm, rm, loc)
  }

  /** What is to be shown of a step before anything is given up. */
  ghost predicate StepReady(pm: State, rm: R.State, loc: Layout, step: Step) {
    Ready(Next(pm, step), R.Play(rm, MainMoves(pm, Next(pm, step), loc, step)), loc)
  }

  lemma ByMove(pm: State, rm: R.State, loc: Layout, step: Step, m: R.Move)
    requires MainMoves(pm, Next(pm, step), loc, step) == [m] && Ready(Next(pm, step), R.Advance(rm, m), loc)
    ensures StepReady(pm, rm, loc, step)
  {
    PlayOne(rm, m);
    hide Ready, MainMoves, Next, R.Play;
  }

  lemma ByNone(pm: State, rm: R.State, loc: Layout, step: Step)
    requires MainMoves(pm, Next(pm, step), loc, step) == [] && Match(pm, rm, loc) && Eases(pm, Next(pm, step))
    ensures StepReady(pm, rm, loc, step)
  {
    MatchReady(pm, rm, loc);
    hide Ready, MainMoves, Next, Eases, Match;
    ReadyEases(pm, Next(pm, step), rm, loc);
  }

  lemma MatchReady(pm: State, rm: R.State, loc: Layout)
    requires Match(pm, rm, loc)
    ensures Ready(pm, rm, loc)
  {
  }

  lemma AnonFaultNew(pm: State, rm: R.State, loc: Layout, step: Step)
    requires Together(pm, rm, loc) && step.SAnonFault? && Prepared(Joint(pm, rm, loc), step)
    requires step.write && PteAt(pm, step.a).Empty? && step.np !in pm.folios
    ensures StepReady(pm, rm, loc, step)
  {
    hide Inv, R.Complete, Entries, MapNew, R.MapNew, Match, Ready, Adds, Eases, Zeros, StepReady;
    ShownIsThere(pm, rm, loc, step.a);
    MapNewAdds(pm, step.a, step.np, Zeros(), step.vmWrite);
    NewReady(pm, Next(pm, step), rm, loc, step.a, step.np);
    ByMove(pm, rm, loc, step, R.MFault(loc(step.a), step.np));
  }

  lemma AnonFaultEases(pm: State, a: Addr, write: bool, vmWrite: bool, np: nat)
    requires !(write && PteAt(pm, a).Empty? && np !in pm.folios)
    ensures Eases(pm, AnonFault(pm, a, write, vmWrite, np))
  {
    hide Eases, MapNew;
    StaysEased(pm);
    SetsEases(pm, SetPte(pm, a, ZeroPage), a, ZeroPage);
  }

  lemma AnonFaultReady(pm: State, rm: R.State, loc: Layout, step: Step)
    requires Together(pm, rm, loc) && step.SAnonFault? && Prepared(Joint(pm, rm, loc), step)
    ensures StepReady(pm, rm, loc, step)
  {
    hide Inv, R.Complete, Match, Eases, StepReady, Prepared, AnonFault;
    if step.write && PteAt(pm, step.a).Empty? && step.np !in pm.folios {
      AnonFaultNew(pm, rm, loc, step);
    } else {
      AnonFaultEases(pm, step.a, step.write, step.vmWrite, step.np);
      ByNone(pm, rm, loc, step);
    }
  }

  lemma ReadSwapReady(pm: State, rm: R.State, loc: Layout, step: Step)
    requires Together(pm, rm, loc) && step.SReadSwap?
    ensures StepReady(pm, rm, loc, step)
  {
    hide Inv, R.Complete, Entries, StepReady, Eases;
    StaysEased(pm);
    var s, np := step.s, step.np;
    if s in pm.slots && s !in pm.cache && s !in pm.direct && np !in pm.folios {
      ByMove(pm, rm, loc, step, R.MReadSwap(s, np));
    } else {
      ByNone(pm, rm, loc, step);
    }
  }

  /** A free slot is in use nowhere, and a page without a slot is not cached. */
  lemma FreeSlot(pm: State, rm: R.State, loc: Layout, p: nat, s: nat)
    requires Together(pm, rm, loc) && s !in pm.slots && p in pm.folios && pm.folios[p].swap.None?
    ensures !R.InUse(rm, R.Swapped(s)) && s !in pm.cache && !R.Cached(rm, p)
  {
    hide Entries, R.Complete;
    forall b | b in rm.entries ensures rm.entries[b] != R.Swapped(s) {
      var a := EntriesFrom(pm.ptes, loc, b);
      assert PteOk(pm, a);
    }
    forall t | t in pm.cache ensures t != s && pm.cache[t] != p { assert CacheOk(pm, t); }
  }

  lemma AddToSwapReady(pm: State, rm: R.State, loc: Layout, step: Step)
    requires Together(pm, rm, loc) && step.SAddToSwap?
    ensures StepReady(pm, rm, loc, step)
  {
    hide Inv, R.Complete, Entries, StepReady, Eases, R.InUse, R.Cached;
    StaysEased(pm);
    var p, s := step.p, step.s;
    if p in pm.folios && pm.folios[p].swap.None? && s !in pm.slots {
      FreeSlot(pm, rm, loc, p, s);
      ByMove(pm, rm, loc, step, R.MAddToSwap(p, s));
    } else {
      ByNone(pm, rm, loc, step);
    }
  }

  /** What reclaim leaves: the page is gone, and its slot keeps the contents. */
  lemma ReclaimIs(pm: State, p: nat, h: Holder)
    requires Inv(pm) && p in pm.folios
    requires Reclaim(pm, p, h) != pm
    ensures pm.folios[p].swap.Some? && pm.folios[p].mapcount == 0
    ensures var s, pm' := pm.folios[p].swap.value, Reclaim(pm, p, h);
      && s in pm.cache && pm.cache[s] == p && pm'.ptes == pm.ptes && pm'.cache == pm.cache - {s}
      && pm'.folios.Keys == pm.folios.Keys - {p}
  {
    assert FolioOk(pm, p);
    hide Inv, FolioOk;
    var f := pm.folios[p];
    assert f.refs == 1;
    var st1 := GetRef(pm, p, h);
    assert st1.folios[p].refs == 2 && st1.folios[p].swap == f.swap;
    var st2 := DropFromCache(st1, p);
    assert st2.cache == pm.cache - {f.swap.value} && st2.folios[p].refs == 1 && st2.folios[p].holders == {h};
    var st3 := PutRef(st2, p, h);
    assert st3.folios.Keys == pm.folios.Keys - {p} && st3.cache == st2.cache;
    hide GetRef, DropFromCache, PutRef;
  }

  lemma ReclaimReady(pm: State, rm: R.State, loc: Layout, step: Step)
    requires Together(pm, rm, loc) && step.SReclaim?
    ensures StepReady(pm, rm, loc, step)
  {
    hide Inv, R.Complete, Entries, StepReady, Eases, R.InUse, Reclaim;
    var p, h := step.p, step.h;
    StaysEased(pm);
    if p in pm.folios && Reclaim(pm, p, h) != pm {
      ReclaimIs(pm, p, h);
      Unmapped(pm, loc, rm, p);
      assert Project(pm, loc, rm) == rm;
      ByMove(pm, rm, loc, step, R.MReclaim(pm.folios[p].swap.value));
    } else {
      ReclaimNothing(pm, p, h);
      ByNone(pm, rm, loc, step);
    }
  }

  lemma ReclaimNothing(pm: State, p: nat, h: Holder)
    ensures p !in pm.folios ==> Reclaim(pm, p, h) == pm
  {
  }

  // --------------------------------------------------------------------- zapping

  lemma ZapEases(pm: State, a: Addr, h: Holder)
    requires Inv(pm)
    ensures var pm' := Zap(pm, a, h);
      if Shown(pm.ptes, a) && !Shown(pm'.ptes, a) then EasesBut(pm, pm', a) else Eases(pm, pm')
  {
    assert PteOk(pm, a);
    hide Inv, PteOk, Eases, UnmapHeld, UnmapSwap, SlotRelease;
    StaysEased(pm);
    match PteAt(pm, a)
    case Empty =>
    case ZeroPage => SetsEases(pm, Zap(pm, a, h), a, Empty);
    case Present(p, _) =>
      if p in pm.folios {
        UnmapHeldSets(pm, a, h);
        SetsEases(pm, UnmapHeld(pm, a, h), a, Empty);
      }
    case Swap(s, _) => ZapSwapEases(pm, a);
  }

  lemma ZapSwapEases(pm: State, a: Addr)
    requires PteAt(pm, a).Swap? && PteAt(pm, a).slot in pm.slots
    ensures var pm' := SlotRelease(UnmapSwap(pm, a), PteAt(pm, a).slot);
      EasesBut(pm, pm', a) && PteAt(pm', a).Empty?
  {
    hide Eases, EasesBut, UnmapSwap, SlotRelease;
    var st1 := UnmapSwap(pm, a);
    UnmapSwapSets(pm, a);
    SetsEases(pm, st1, a, Empty);
    SlotReleaseEases(st1, PteAt(pm, a).slot);
    EasesButEases(pm, st1, SlotRelease(st1, PteAt(pm, a).slot), a);
    SlotReleasePtes(st1, PteAt(pm, a).slot);
  }

  lemma SlotReleasePtes(st: State, s: nat)
    ensures SlotRelease(st, s).ptes == st.ptes
  {
  }

  lemma ZapReady(pm: State, rm: R.State, loc: Layout, step: Step)
    requires Together(pm, rm, loc) && step.SZap?
    ensures StepReady(pm, rm, loc, step)
  {
    hide Inv, R.Complete, Entries, StepReady, Eases, EasesBut, Zap, Ready, Injective;
    var a := step.a;
    ZapEases(pm, a, step.h);
    if Shown(pm.ptes, a) && !Shown(Next(pm, step).ptes, a) {
      SetReady(pm, Next(pm, step), rm, R.Zap(rm, loc(a)), loc, a);
      ByMove(pm, rm, loc, step, R.MZap(loc(a)));
    } else {
      ByNone(pm, rm, loc, step);
    }
  }

  // ------------------------------------------------------------------- unmapping

  /** Either nothing happens or the mapping becomes an entry for the slot of the page. */
  lemma UnmapEases(pm: State, a: Addr, h: Holder, fails: set<UnmapFailure>)
    requires Inv(pm)
    ensures var pm' := Unmap(pm, a, h, fails);
      pm' == pm || (
        && PteAt(pm, a).Present? && EasesBut(pm, pm', a) && PteAt(pm', a).Swap?
        && var s := PteAt(pm', a).slot;
           s in pm.cache && pm.cache[s] == PteAt(pm, a).page)
  {
    var pm' := Unmap(pm, a, h, fails);
    var e := PteAt(pm, a);
    if pm' != pm {
      var p, s := e.page, pm.folios[e.page].swap.value;
      assert FolioOk(pm, p);
      assert CacheOk(pm, s);
      hide Inv, FolioOk, CacheOk, EasesBut, Demote, UnmapHeld, MapSwap, MarkSwap, PutRef, SlotRelease, MustKeep, Eases;
      UnmapRest(pm, a, h, s, pm.folios[p].anonExclusive);
    }
  }

  lemma UnmapRest(pm: State, a: Addr, h: Holder, s: nat, x: bool)
    requires PteAt(pm, a).Present? && PteAt(pm, a).page in pm.folios && s in pm.slots
    ensures
      var pm' := PutRef(MarkSwap(MapSwap(UnmapHeld(Demote(pm, a), a, h), a, s), a, x), PteAt(pm, a).page, h);
      EasesBut(pm, pm', a) && PteAt(pm', a) == Swap(s, x)
  {
    var p := PteAt(pm, a).page;
    var st1 := Demote(pm, a);
    var st2 := UnmapHeld(st1, a, h);
    assert PteAt(st1, a) == Present(p, false) && p in st1.folios && st1.slots == pm.slots && st2.slots == pm.slots;
    hide EasesBut, Eases, Demote, UnmapHeld, MapSwap, MarkSwap, PutRef;
    var st3 := MapSwap(st2, a, s);
    var st4 := MarkSwap(st3, a, x);
    DemoteEases(pm, a);
    EasesEven(pm, st1, a);
    UnmapHeldSets(st1, a, h);
    SetsEases(st1, st2, a, Empty);
    EasesButThen(pm, st1, st2, a);
    MapSwapSets(st2, a, s);
    SetsEases(st2, st3, a, Swap(s, false));
    EasesButThen(pm, st2, st3, a);
    MarkSwapEases(st3, a, x);
    EasesButEases(pm, st3, st4, a);
    PutRefEases(st4, p, h);
    EasesButEases(pm, st4, PutRef(st4, p, h), a);
  }

  lemma UnmapReady(pm: State, rm: R.State, loc: Layout, step: Step)
    requires Together(pm, rm, loc) && step.SUnmap?
    ensures StepReady(pm, rm, loc, step)
  {
    hide Inv, R.Complete, Entries, StepReady, Eases, EasesBut, Unmap, Ready, Injective;
    var a, pm' := step.a, Next(pm, step);
    UnmapEases(pm, a, step.h, step.fails);
    ShownIsThere(pm, rm, loc, a);
    if pm' == pm {
      StaysEased(pm);
      ByNone(pm, rm, loc, step);
    } else {
      var s := PteAt(pm', a).slot;
      SetReady(pm, pm', rm, R.Unmap(rm, loc(a), s), loc, a);
      ByMove(pm, rm, loc, step, R.MUnmap(loc(a), s));
    }
  }

  // -------------------------------------------------- swapping in past the cache

  lemma DirectFinishAdds(pm: State, a: Addr, np: nat, vmWrite: bool)
    requires Inv(pm) && PteAt(pm, a).Swap? && PteAt(pm, a).slot in pm.direct && np !in pm.folios
    ensures Adds(pm, DirectFinish(pm, a, np, vmWrite), a, np)
    ensures PteAt(pm, a).slot !in pm.cache
  {
    var s := PteAt(pm, a).slot;
    assert PteOk(pm, a) && CacheOk(pm, s);
    hide Inv, PteOk, CacheOk, Adds, Eases, EasesBut, UnmapSwap, MapNew, DirectClear;
    var st1 := UnmapSwap(pm, a);
    var st2 := MapNew(st1, a, np, pm.direct[s], vmWrite);
    UnmapSwapSets(pm, a);
    SetsEases(pm, st1, a, Empty);
    MapNewAdds(st1, a, np, pm.direct[s], vmWrite);
    AddsThen(pm, st1, st2, a, np);
    DirectClearEases(st2, s);
    AddsEases(pm, st2, DirectClear(st2, s), a, np);
  }

  lemma DirectFinishReady(pm: State, rm: R.State, loc: Layout, step: Step)
    requires Together(pm, rm, loc) && step.SDirectFinish?
    ensures StepReady(pm, rm, loc, step)
  {
    hide Inv, R.Complete, Entries, StepReady, Eases, Adds, Ready, Injective, UnmapSwap, MapNew, DirectClear, R.MapNew;
    var a, np := step.a, step.np;
    ShownIsThere(pm, rm, loc, a);
    if PteAt(pm, a).Swap? && PteAt(pm, a).slot in pm.direct && np !in pm.folios {
      DirectFinishAdds(pm, a, np, step.vmWrite);
      NewReady(pm, Next(pm, step), rm, loc, a, np);
      ByMove(pm, rm, loc, step, R.MDirectSwapIn(loc(a), np));
    } else {
      StaysEased(pm);
      ByNone(pm, rm, loc, step);
    }
  }

  // -------------------------------------------------- swapping in from the cache

  lemma SwapInTakenEases(pm: State, a: Addr, h: Holder, free: bool)
    requires Inv(pm) && SwapInEnabled(pm, a, h)
    ensures EasesBut(pm, SwapInTaken(pm, a, h, free), a)
  {
    var s, p := PteAt(pm, a).slot, pm.cache[PteAt(pm, a).slot];
    CachedNotDirect(pm, p);
    hide Inv;
    var st1 := GetRef(pm, p, h);
    assert PteAt(st1, a) == PteAt(pm, a) && st1.slots == pm.slots && st1.direct == pm.direct;
    assert p in st1.folios && st1.folios[p].swap == pm.folios[p].swap;
    hide Eases, EasesBut, GetRef, FolioFreeSwap;
    var st2 := UnmapSwap(st1, a);
    assert st2.folios == st1.folios && st2.direct == st1.direct;
    GetRefEases(pm, p, h);
    EasesEven(pm, st1, a);
    UnmapSwapSets(st1, a);
    SetsEases(st1, st2, a, Empty);
    EasesButThen(pm, st1, st2, a);
    FreeSwapEases(st2, p);
    EasesButEases(pm, st2, FolioFreeSwap(st2, p), a);
  }

  lemma SwapInEases(pm: State, a: Addr, h: Holder, write: bool, vmWrite: bool, swapFull: bool)
    requires Inv(pm) && SwapInEnabled(pm, a, h)
    ensures var pm' := SwapIn(pm, a, h, write, vmWrite, swapFull);
      EasesBut(pm, pm', a) && Maps(PteAt(pm', a), pm.cache[PteAt(pm, a).slot])
  {
    var p := pm.cache[PteAt(pm, a).slot];
    var free := swapFull || (write && pm.folios[p].refs + 1 == 2);
    hide Inv, View, Zeros, Eases, EasesBut, SwapInTaken, MapHeld, Promote, SameBut, Lonely, SureExclusive;
    SwapInTakenOk(pm, a, h, free);
    SwapInTakenEases(pm, a, h, free);
    var st3 := SwapInTaken(pm, a, h, free);
    var st4 := MapHeld(st3, a, p, h);
    MapHeldSets(st3, a, p, h);
    SetsEases(st3, st4, a, Present(p, false));
    EasesButThen(pm, st3, st4, a);
    PromoteEases(st4, a, vmWrite);
    EasesButEases(pm, st4, Promote(st4, a, vmWrite), a);
  }

  lemma SwapInReady(pm: State, rm: R.State, loc: Layout, step: Step)
    requires Together(pm, rm, loc) && Reachable(pm) && step.SSwapIn?
    ensures StepReady(pm, rm, loc, step)
  {
    hide Inv, R.Complete, Entries, StepReady, Eases, EasesBut, SwapIn, Ready, Injective, Reachable, SwapInTaken,
      R.SwapIn;
    var a, h := step.a, step.h;
    if SwapInEnabled(pm, a, h) {
      var p, pm' := pm.cache[PteAt(pm, a).slot], Next(pm, step);
      SwapInEases(pm, a, h, step.write, step.vmWrite, step.swapFull);
      SwapInIs(pm, pm', rm, loc, step);
      var rm1 := R.SwapIn(rm, loc(a), IsExclusive(pm', p));
      SetReady(pm, pm', rm, rm1, loc, a);
      ByMove(pm, rm, loc, step, R.MSwapIn(loc(a), IsExclusive(pm', p)));
    } else {
      SwapInNothing(pm, step);
      StaysEased(pm);
      ByNone(pm, rm, loc, step);
    }
  }

  lemma SwapInNothing(pm: State, step: Step)
    requires step.SSwapIn? && !SwapInEnabled(pm, step.a, step.h)
    ensures Next(pm, step) == pm
  {
  }

  /** The move is taken: when the page tables mark the page exclusive, the entry is the only one. */
  lemma SwapInIs(pm: State, pm': State, rm: R.State, loc: Layout, step: Step)
    requires Together(pm, rm, loc) && Reachable(pm) && step.SSwapIn? && SwapInEnabled(pm, step.a, step.h)
    requires pm' == SwapIn(pm, step.a, step.h, step.write, step.vmWrite, step.swapFull)
    ensures
      var p := pm.cache[PteAt(pm, step.a).slot];
      var rm1 := R.SwapIn(rm, loc(step.a), IsExclusive(pm', p));
      && rm1.entries == rm.entries[loc(step.a) := R.Mapped(p)] && rm1.cache == rm.cache
      && rm1.pages.Keys == rm.pages.Keys
  {
    hide Inv, R.Complete, Match, SwapIn, Reachable, SwapInTaken, R.OnlyEntry, Injective;
    var a, p := step.a, pm.cache[PteAt(pm, step.a).slot];
    ShownIsThere(pm, rm, loc, a);
    CachedIsKnown(pm, rm, loc, PteAt(pm, a).slot);
    if IsExclusive(pm', p) {
      ExclusiveSwapInIsSole(pm, a, step.h, step.write, step.vmWrite, step.swapFull, loc, rm);
      ProjectMatch(pm, pm, rm, loc);
    }
  }

  lemma CachedIsKnown(pm: State, rm: R.State, loc: Layout, s: nat)
    requires Match(pm, rm, loc) && R.Complete(rm) && s in pm.cache
    ensures rm.cache == pm.cache && Injective(loc) && pm.cache[s] in rm.pages
  {
    assert R.CacheOk(rm, s, 0);
    hide Entries, Injective;
  }

  // ---------------------------------------------------- copying an entry at fork

  lemma CopyIsThere(pm: State, rm: R.State, loc: Layout, step: Step)
    requires Together(pm, rm, loc) && step.SCopyEntry? && Prepared(Joint(pm, rm, loc), step)
    requires Shown(pm.ptes, step.src) && !Shown(pm.ptes, step.dst)
    ensures
      var dst := loc(step.dst);
      && dst.v in rm.forks && loc(step.src) == R.Place(rm.forks[dst.v], dst.index)
      && loc(step.src) in rm.entries && dst !in rm.entries
      && rm.entries[loc(step.src)] == EntryOf(PteAt(pm, step.src)) && R.HasAnon(rm, dst.v)
  {
    ShownIsThere(pm, rm, loc, step.src);
    ShownIsThere(pm, rm, loc, step.dst);
    assert R.ForkedOk(rm, loc(step.dst).v);
    hide Inv, Entries;
  }

  /** The entry is shown at dst as it is at src. */
  lemma CopySame(pm: State, rm: R.State, loc: Layout, step: Step)
    requires Together(pm, rm, loc) && step.SCopyEntry? && Prepared(Joint(pm, rm, loc), step)
    requires Shown(pm.ptes, step.src) && !Shown(pm.ptes, step.dst)
    requires EasesBut(pm, Next(pm, step), step.dst) && Alike(PteAt(Next(pm, step), step.dst), PteAt(pm, step.src))
    requires PteAt(pm, step.src).Present? ==> PteAt(pm, step.src).page in pm.folios
    ensures StepReady(pm, rm, loc, step)
  {
    hide Inv, R.Complete, Entries, StepReady, Eases, EasesBut, Ready, Injective, CopyEntry, R.HasAnon, R.MapNew;
    CopyIsThere(pm, rm, loc, step);
    var dst := loc(step.dst);
    SetReady(pm, Next(pm, step), rm, R.CopyEntry(rm, dst.v, dst.index, None), loc, step.dst);
    ByMove(pm, rm, loc, step, R.MCopy(dst.v, dst.index, None));
  }

  lemma CopyNew(pm: State, rm: R.State, loc: Layout, step: Step, np: nat)
    requires Together(pm, rm, loc) && step.SCopyEntry? && Prepared(Joint(pm, rm, loc), step)
    requires PteAt(pm, step.src).Present? && !Shown(pm.ptes, step.dst)
    requires Adds(pm, Next(pm, step), step.dst, np) && np !in pm.folios
    ensures StepReady(pm, rm, loc, step)
  {
    hide Inv, R.Complete, Entries, StepReady, Ready, Injective, CopyEntry, R.HasAnon, R.MapNew, Less, OnlyAt;
    CopyIsThere(pm, rm, loc, step);
    var dst := loc(step.dst);
    NewReady(pm, Next(pm, step), rm, loc, step.dst, np);
    ByMove(pm, rm, loc, step, R.MCopy(dst.v, dst.index, Some(np)));
  }

  lemma CopySwapEases(pm: State, src: Addr, dst: Addr)
    requires src != dst && PteAt(pm, src).Swap? && PteAt(pm, src).slot in pm.slots
    ensures var s := PteAt(pm, src).slot;
      var pm' := MapSwap(MarkSwap(pm, src, false), dst, s);
      EasesBut(pm, pm', dst) && PteAt(pm', dst) == Swap(s, false)
  {
    var s, st1 := PteAt(pm, src).slot, MarkSwap(pm, src, false);
    assert st1.slots == pm.slots;
    hide Eases, EasesBut, MarkSwap, MapSwap;
    MarkSwapEases(pm, src, false);
    EasesEven(pm, st1, dst);
    MapSwapSets(st1, dst, s);
    SetsEases(st1, MapSwap(st1, dst, s), dst, Swap(s, false));
    EasesButThen(pm, st1, MapSwap(st1, dst, s), dst);
  }

  lemma CopySharedEases(pm: State, src: Addr, dst: Addr, p: nat, h: Holder)
    requires p in pm.folios
    ensures var pm' := MapHeld(Demote(GetRef(pm, p, h), src), dst, p, h);
      EasesBut(pm, pm', dst) && PteAt(pm', dst) == Present(p, false)
  {
    var st1 := GetRef(pm, p, h);
    assert p in st1.folios;
    var st2 := Demote(st1, src);
    assert p in st2.folios;
    hide Eases, EasesBut, GetRef, Demote, MapHeld;
    GetRefEases(pm, p, h);
    DemoteEases(st1, src);
    EasesThen(pm, st1, st2);
    EasesEven(pm, st2, dst);
    MapHeldSets(st2, dst, p, h);
    SetsEases(st2, MapHeld(st2, dst, p, h), dst, Present(p, false));
    EasesButThen(pm, st2, MapHeld(st2, dst, p, h), dst);
  }

  lemma SlotIsKnown(pm: State, a: Addr)
    requires Inv(pm)
    ensures PteAt(pm, a).Swap? ==> PteAt(pm, a).slot in pm.slots
  {
    assert PteOk(pm, a);
  }

  lemma CopyNothingEases(pm: State, step: Step)
    requires step.SCopyEntry? && !PteAt(pm, step.src).Present?
    requires !PteAt(pm, step.dst).Empty? || step.src == step.dst || !PteAt(pm, step.src).Swap? || step.dupFails
    ensures Eases(pm, Next(pm, step)) && (Shown(pm.ptes, step.dst) || !Shown(Next(pm, step).ptes, step.dst))
  {
    hide Eases, MapSwap, MarkSwap;
    StaysEased(pm);
    SetsEases(pm, SetPte(pm, step.dst, ZeroPage), step.dst, ZeroPage);
  }

  lemma CopyEntryReady(pm: State, rm: R.State, loc: Layout, step: Step)
    requires Together(pm, rm, loc) && step.SCopyEntry? && Prepared(Joint(pm, rm, loc), step)
    ensures StepReady(pm, rm, loc, step)
  {
    hide Inv, R.Complete, StepReady, Eases, EasesBut, Prepared, MapHeld, Demote, GetRef, MapSwap, MarkSwap, MapNew,
      Match;
    var src, dst := step.src, step.dst;
    SlotIsKnown(pm, src);
    if PteAt(pm, src).Present? {
      CopyPresentReady(pm, rm, loc, step);
    } else if PteAt(pm, dst).Empty? && src != dst && PteAt(pm, src).Swap? && !step.dupFails {
      CopySwapEases(pm, src, dst);
      CopySame(pm, rm, loc, step);
    } else {
      CopyNothingEases(pm, step);
      hide Next;
      ByNone(pm, rm, loc, step);
    }
  }

  lemma CopyPresentReady(pm: State, rm: R.State, loc: Layout, step: Step)
    requires Together(pm, rm, loc) && step.SCopyEntry? && Prepared(Joint(pm, rm, loc), step)
    requires PteAt(pm, step.src).Present?
    ensures StepReady(pm, rm, loc, step)
  {
    hide Inv, R.Complete, StepReady, Eases, EasesBut, Adds, Prepared, MapHeld, Demote, GetRef, MapNew, Match;
    StaysEased(pm);
    var src, dst, h, p := step.src, step.dst, step.h, PteAt(pm, step.src).page;
    if !PteAt(pm, dst).Empty? || src == dst || p !in pm.folios || !h.Transient? || h in pm.folios[p].holders {
      ByNone(pm, rm, loc, step);
    } else if pm.folios[p].anonExclusive && (step.maybePinned || HasGup(pm.folios[p])) {
      if step.prealloc.None? || step.prealloc.value in pm.folios {
        ByNone(pm, rm, loc, step);
      } else {
        MapNewAdds(pm, dst, step.prealloc.value, pm.folios[p].data, step.vmWrite);
        CopyNew(pm, rm, loc, step, step.prealloc.value);
      }
    } else {
      CopySharedEases(pm, src, dst, p, h);
      CopySame(pm, rm, loc, step);
    }
  }

  // ------------------------------------------ the second half of a copy on write

  lemma WpFinishAdds(pm: State, t: nat, np: nat, h: Holder, vmWrite: bool, trylock: bool)
    requires Inv(pm) && Switches(pm, t, np, h)
    ensures Adds(pm, WpFinish(pm, t, np, h, vmWrite, trylock), pm.copies[t].addr, np)
  {
    var c := pm.copies[t];
    var a, w := c.addr, !c.unshare && vmWrite;
    if c.orig.Present? { CachedNotDirect(pm, c.orig.page); }
    hide Inv, Adds, Eases, EasesBut, EndCopy, MapNew;
    if !c.orig.Present? {
      var st1 := MapNew(pm, a, np, c.copied.value, w);
      MapNewAdds(pm, a, np, c.copied.value, w);
      EndCopyEases(st1, t, h);
      AddsEases(pm, st1, EndCopy(st1, t, h), a, np);
    } else {
      SwitchAdds(pm, a, c.orig.page, np, h, c.copied.value, w);
      hide UnmapHeld, PutRef, FolioFreeSwap, NotDirect;
      var p := c.orig.page;
      var st3 := PutRef(MapNew(UnmapHeld(pm, a, h), a, np, c.copied.value, w), p, h);
      var st4 := if trylock && p in st3.folios && st3.folios[p].mapcount == 0 then FolioFreeSwap(st3, p) else st3;
      StaysEased(st3);
      FreeSwapEases(st3, p);
      AddsEases(pm, st3, st4, a, np);
      EndCopyEases(st4, t, h);
      AddsEases(pm, st4, EndCopy(st4, t, h), a, np);
    }
  }

  lemma SwitchAdds(pm: State, a: Addr, p: nat, np: nat, h: Holder, d: PageData, w: bool)
    requires Maps(PteAt(pm, a), p) && p in pm.folios && np !in pm.folios && NotDirect(pm, p)
    ensures var st3 := PutRef(MapNew(UnmapHeld(pm, a, h), a, np, d, w), p, h);
      Adds(pm, st3, a, np) && NotDirect(st3, p)
  {
    var st1 := UnmapHeld(pm, a, h);
    var st2 := MapNew(st1, a, np, d, w);
    assert p in st2.folios && st2.folios[p].swap == pm.folios[p].swap && st2.direct == pm.direct;
    PutRefKeepsSlot(st2, p, h);
    hide Adds, Eases, EasesBut, UnmapHeld, MapNew, PutRef;
    UnmapHeldSets(pm, a, h);
    SetsEases(pm, st1, a, Empty);
    MapNewAdds(st1, a, np, d, w);
    AddsThen(pm, st1, st2, a, np);
    PutRefEases(st2, p, h);
    AddsEases(pm, st2, PutRef(st2, p, h), a, np);
  }

  lemma PutRefKeepsSlot(st: State, p: nat, h: Holder)
    requires NotDirect(st, p)
    ensures NotDirect(PutRef(st, p, h), p)
  {
  }

  lemma WpFinishSwitch(pm: State, rm: R.State, loc: Layout, step: Step)
    requires Together(pm, rm, loc) && step.SWpFinish? && Prepared(Joint(pm, rm, loc), step)
    requires Switches(pm, step.t, step.np, step.h)
    ensures StepReady(pm, rm, loc, step)
  {
    hide Inv, R.Complete, Match, StepReady, Adds, WpFinish, Ready, R.MapNew, R.HasAnon;
    var t, np := step.t, step.np;
    var a := pm.copies[t].addr;
    CopiedFrom(pm, t);
    ShownIsThere(pm, rm, loc, a);
    WpFinishAdds(pm, t, np, step.h, step.vmWrite, step.trylock);
    NewReady(pm, Next(pm, step), rm, loc, a, np);
    ByMove(pm, rm, loc, step, if pm.copies[t].orig.Present? then R.MWriteCopy(loc(a), np) else R.MFault(loc(a), np));
  }

  lemma CopiedFrom(pm: State, t: nat)
    requires Inv(pm) && t in pm.copies
    ensures pm.copies[t].orig.Present? || pm.copies[t].orig.ZeroPage?
  {
    assert CopyOk(pm, t);
  }

  lemma WpFinishReady(pm: State, rm: R.State, loc: Layout, step: Step)
    requires Together(pm, rm, loc) && step.SWpFinish? && Prepared(Joint(pm, rm, loc), step)
    ensures StepReady(pm, rm, loc, step)
  {
    hide Inv, R.Complete, Match, StepReady, Eases, WpFinish, Switches, Prepared;
    if Switches(pm, step.t, step.np, step.h) {
      WpFinishSwitch(pm, rm, loc, step);
    } else {
      WpFinishGivesUp(pm, step.t, step.np, step.h, step.vmWrite, step.trylock);
      ByNone(pm, rm, loc, step);
    }
  }

  lemma WpFinishGivesUp(pm: State, t: nat, np: nat, h: Holder, vmWrite: bool, trylock: bool)
    requires !Switches(pm, t, np, h)
    ensures Eases(pm, WpFinish(pm, t, np, h, vmWrite, trylock))
  {
    hide Eases, EndCopy, MapNew, UnmapHeld, PutRef, FolioFreeSwap;
    StaysEased(pm);
    EndCopyEases(pm, t, h);
  }

  // ------------------------------------------------- the steps that show nothing

  predicate Quiet(step: Step) {
    step.SStore? || step.SCopyData? || step.SDirectPrepare? || step.SStartWriteback? || step.SEndWriteback?
    || step.SDmaWrite?
  }

  predicate Passing(step: Step) {
    step.SWpFault? || step.SWpAbort? || step.SDirectAbort? || step.SFreeSwap? || step.SPinPage? || step.STakeRef?
    || step.SLeaveRef?
  }

  lemma FieldsEase(st: State, st': State)
    requires st'.ptes == st.ptes && st'.cache == st.cache && st'.slots.Keys == st.slots.Keys
    requires st'.folios.Keys == st.folios.Keys
    ensures Eases(st, st')
  {
    assert Less(st, st');
  }

  lemma WriteFolioEases(st: State, p: nat, off: nat, b: int)
    ensures Eases(st, WriteFolio(st, p, off, b))
  {
    hide Eases, Poke;
    FieldsEase(st, WriteFolio(st, p, off, b));
  }

  lemma StartWritebackEases(st: State, p: nat)
    ensures Eases(st, StartWriteback(st, p))
  {
    hide Eases;
    FieldsEase(st, StartWriteback(st, p));
  }

  lemma EndWritebackEases(st: State, p: nat, junk: PageData)
    ensures Eases(st, EndWriteback(st, p, junk))
  {
    hide Eases;
    FieldsEase(st, EndWriteback(st, p, junk));
  }

  lemma CopyDataEases(st: State, t: nat)
    ensures Eases(st, CopyData(st, t))
  {
    hide Eases, EntryData;
    FieldsEase(st, CopyData(st, t));
  }

  lemma QuietEases(pm: State, step: Step)
    requires Quiet(step)
    ensures Eases(pm, Next(pm, step))
  {
    hide Eases, WriteFolio, StartWriteback, EndWriteback, CopyData;
    StaysEased(pm);
    match step
    case SStore(a, off, b) => if PteAt(pm, a).Present? { WriteFolioEases(pm, PteAt(pm, a).page, off, b); }
    case SDmaWrite(p, i, off, b) => WriteFolioEases(pm, p, off, b);
    case SCopyData(t) => CopyDataEases(pm, t);
    case SDirectPrepare(s) => FieldsEase(pm, DirectPrepare(pm, s));
    case SStartWriteback(p) => StartWritebackEases(pm, p);
    case SEndWriteback(p, junk) => EndWritebackEases(pm, p, junk);
  }

  lemma PassingEases(pm: State, step: Step)
    requires Inv(pm) && Passing(step)
    ensures Eases(pm, Next(pm, step))
  {
    hide Inv, Eases, WpFault, EndCopy, DirectClear, FreeSwap, GetRef, PutRef;
    StaysEased(pm);
    match step
    case SWpFault(t, a, unshare, vmWrite, trylock) => WpFaultEases(pm, t, a, unshare, vmWrite, trylock);
    case SWpAbort(t, h) => EndCopyEases(pm, t, h);
    case SDirectAbort(s) => DirectClearEases(pm, s);
    case SFreeSwap(p, h) => FreeSwapStepEases(pm, p, h);
    case SPinPage(a, i) => if PteAt(pm, a).Present? { GetRefEases(pm, PteAt(pm, a).page, Gup(i)); }
    case STakeRef(p, i) => GetRefEases(pm, p, Transient(i));
    case SLeaveRef(p, h) => PutRefEases(pm, p, h);
  }

  lemma StepIsReady(pm: State, rm: R.State, loc: Layout, step: Step)
    requires Together(pm, rm, loc) && Reachable(pm) && Prepared(Joint(pm, rm, loc), step)
    ensures StepReady(pm, rm, loc, step)
  {
    hide Inv, R.Complete, Match, Reachable, Prepared, StepReady, Eases, Next;
    match step
    case SAnonFault(_, _, _, _) => AnonFaultReady(pm, rm, loc, step);
    case SCopyEntry(_, _, _, _, _, _, _) => CopyEntryReady(pm, rm, loc, step);
    case SWpFinish(_, _, _, _, _) => WpFinishReady(pm, rm, loc, step);
    case SReadSwap(_, _) => ReadSwapReady(pm, rm, loc, step);
    case SSwapIn(_, _, _, _, _) => SwapInReady(pm, rm, loc, step);
    case SDirectFinish(_, _, _) => DirectFinishReady(pm, rm, loc, step);
    case SAddToSwap(_, _, _, _) => AddToSwapReady(pm, rm, loc, step);
    case SUnmap(_, _, _) => UnmapReady(pm, rm, loc, step);
    case SReclaim(_, _) => ReclaimReady(pm, rm, loc, step);
    case SZap(_, _) => ZapReady(pm, rm, loc, step);
    case _ =>
      if Quiet(step) { QuietEases(pm, step); } else { PassingEases(pm, step); }
      ByNone(pm, rm, loc, step);
  }

  // ------------------------------------------------------------------- joint runs

  lemma {:induction false} RunMore(st: State, steps: seq<Step>, step: Step)
    ensures Run(st, steps + [step]) == Next(Run(st, steps), step)
    decreases |steps|
  {
    hide Next;
    if steps == [] {
      assert steps + [step] == [step];
      assert Run(Next(st, step), []) == Next(st, step);
    } else {
      assert (steps + [step])[0] == steps[0] && (steps + [step])[1..] == steps[1..] + [step];
      RunMore(Next(st, steps[0]), steps[1..], step);
    }
  }

  lemma ReachableMore(st: State, step: Step)
    requires Reachable(st)
    ensures Reachable(Next(st, step))
  {
    var steps :| Run(BOOT, steps) == st;
    RunMore(BOOT, steps, step);
    hide Next, Run;
  }

  lemma PlayedMore(rm: R.State, moves: seq<R.Move>)
    requires Played(rm)
    ensures Played(R.Play(rm, moves))
  {
    var ms :| R.Play(R.START, ms) == rm;
    PlayConcat(R.START, ms, moves);
    hide R.Play;
  }

  lemma PlayedComplete(rm: R.State)
    requires Played(rm)
    ensures R.Complete(rm)
  {
    var ms :| R.Play(R.START, ms) == rm;
    R.StartComplete();
    R.PlayKeeps(R.START, ms);
  }

  lemma MoveAnonMatch(pm: State, rm: R.State, loc: Layout, at: R.Place)
    requires Match(pm, rm, loc)
    ensures Match(pm, R.MoveAnon(rm, at), loc)
  {
    hide Entries, Injective, R.Cached, R.HasAnon;
  }

  lemma MemOk(j: Joint, step: Step)
    requires Ok(j) && Prepared(j, step)
    ensures Ok(JointNext(j, Mem(step)))
  {
    hide Reachable, Played, Match, Prepared, StepReady, Inv, R.Complete, Next, R.Play, MainMoves, Sweep, PostMoves;
    var pm', main := Next(j.pm, step), MainMoves(j.pm, Next(j.pm, step), j.loc, step);
    var rm1 := R.Play(j.rm, main);
    var sweep := Sweep(pm', rm1);
    var post := PostMoves(j.pm, j.loc, step);
    assert Moves(j.pm, j.rm, j.loc, step) == main + sweep + post;
    ReachableMore(j.pm, step);
    ReachableInv(j.pm);
    ReachableInv(pm');
    PlayedComplete(j.rm);
    PlayedMore(j.rm, main + sweep + post);
    StepIsReady(j.pm, j.rm, j.loc, step);
    ReadyIs(j.pm, j.rm, j.loc, step);
    SweepOk(pm', rm1, j.loc);
    PlayConcat(j.rm, main, sweep);
    PlayConcat(j.rm, main + sweep, post);
    PostMatch(pm', R.Play(rm1, sweep), j.loc, post);
  }

  lemma ReadyIs(pm: State, rm: R.State, loc: Layout, step: Step)
    requires StepReady(pm, rm, loc, step)
    ensures Ready(Next(pm, step), R.Play(rm, MainMoves(pm, Next(pm, step), loc, step)), loc)
  {
  }

  lemma PostMatch(pm: State, rm: R.State, loc: Layout, post: seq<R.Move>)
    requires Match(pm, rm, loc) && (post == [] || (|post| == 1 && post[0].MMoveAnon?))
    ensures Match(pm, R.Play(rm, post), loc)
  {
    hide Match, R.MoveAnon;
    if post != [] {
      assert post == [post[0]];
      PlayOne(rm, post[0]);
      MoveAnonMatch(pm, rm, loc, post[0].at);
    }
  }

  /** When the reference count allows a reuse, the move that goes with it is taken: the page comes
      to name the vma's own anon_vma. */
  lemma ReuseIsTaken(j: Joint, step: Step)
    requires Ok(j) && Reuses(j.pm, step)
    ensures
      var j', p := JointNext(j, Mem(step)), PteAt(j.pm, step.a).page;
      && R.HasAnon(j'.rm, j.loc(step.a).v) && p in j'.rm.pages && j'.rm.pages[p].Some?
      && j'.rm.pages[p].value.av == R.Vmas(j'.rm)[j.loc(step.a).v].anon.value
  {
    var at, p := j.loc(step.a), PteAt(j.pm, step.a).page;
    var rm2 := R.Play(j.rm, Sweep(Next(j.pm, step), j.rm));
    hide Reachable, Played, Match, Inv, R.Complete, R.Play, Sweep, R.MoveAnon, R.Cached, R.OnlyEntry, R.HasAnon;
    ReuseLast(j, step);
    BeforeReuse(j, step);
    hide JointNext, Reuses;
    MappedIsNamed(rm2, at);
    MoveAnonMoves(rm2, at);
  }

  lemma ReuseNext(pm: State, step: Step)
    requires Reuses(pm, step)
    ensures Next(pm, step)
      == Promote(TryReuse(pm, PteAt(pm, step.a).page, step.trylock).0, step.a, !step.unshare && step.vmWrite)
  {
    hide TryReuse, Promote;
  }

  lemma ReuseMovesAre(j: Joint, step: Step)
    requires Reuses(j.pm, step)
    ensures Moves(j.pm, j.rm, j.loc, step) == Sweep(Next(j.pm, step), j.rm) + [R.MMoveAnon(j.loc(step.a))]
  {
    assert R.Play(j.rm, []) == j.rm;
    hide R.Play, Sweep, Next, TryReuse;
  }

  lemma ReuseLast(j: Joint, step: Step)
    requires Reuses(j.pm, step)
    ensures JointNext(j, Mem(step)).rm
      == R.MoveAnon(R.Play(j.rm, Sweep(Next(j.pm, step), j.rm)), j.loc(step.a))
  {
    ReuseMovesAre(j, step);
    var sweep := Sweep(Next(j.pm, step), j.rm);
    hide R.Play, Sweep, Next, Moves, R.MoveAnon;
    PlayConcat(j.rm, sweep, [R.MMoveAnon(j.loc(step.a))]);
    PlayOne(R.Play(j.rm, sweep), R.MMoveAnon(j.loc(step.a)));
  }

  lemma BeforeReuse(j: Joint, step: Step)
    requires Ok(j) && Reuses(j.pm, step)
    ensures
      var at, p := j.loc(step.a), PteAt(j.pm, step.a).page;
      var rm2 := R.Play(j.rm, Sweep(Next(j.pm, step), j.rm));
      && R.Complete(rm2) && R.OnlyEntry(rm2, at) && rm2.entries[at] == R.Mapped(p) && !R.Cached(rm2, p)
  {
    var a, at, p := step.a, j.loc(step.a), PteAt(j.pm, step.a).page;
    var pm', st1 := Next(j.pm, step), TryReuse(j.pm, p, step.trylock).0;
    var sweep := Sweep(pm', j.rm);
    var rm2 := R.Play(j.rm, sweep);
    ReuseNext(j.pm, step);
    hide Inv, R.Complete, Match, Reachable, Played, Next, TryReuse, R.Play, Sweep, MainMoves, Moves, PostMoves;
    hide R.MoveAnon, R.OnlyEntry, R.Cached, Injective, Entries, Promote;
    SweptMatch(j, step);
    PlayedMore(j.rm, sweep);
    PlayedComplete(rm2);
    ReuseIsSole(j.pm, a, step.trylock, j.loc, rm2);
    PromoteShows(st1, a, !step.unshare && step.vmWrite, j.loc);
    ProjectMatch(pm', st1, rm2, j.loc);
  }

  lemma SweptMatch(j: Joint, step: Step)
    requires Ok(j) && Reuses(j.pm, step)
    ensures Injective(j.loc) && Match(Next(j.pm, step), R.Play(j.rm, Sweep(Next(j.pm, step), j.rm)), j.loc)
  {
    hide Inv, Reachable, Played, Next, R.Play, Sweep, Ready, Eases;
    ReachableInv(j.pm);
    ReachableMore(j.pm, step);
    ReachableInv(Next(j.pm, step));
    PassingEases(j.pm, step);
    MatchReady(j.pm, j.rm, j.loc);
    ReadyEases(j.pm, Next(j.pm, step), j.rm, j.loc);
    SweepOk(Next(j.pm, step), j.rm, j.loc);
  }

  lemma PromoteShows(st: State, a: Addr, w: bool, loc: Layout)
    requires Injective(loc)
    ensures Promote(st, a, w).cache == st.cache && Entries(Promote(st, a, w).ptes, loc) == Entries(st.ptes, loc)
  {
    PromoteEases(st, a, w);
    EntriesSame(st.ptes, Promote(st, a, w).ptes, loc);
    hide Entries;
  }

  lemma ProjectMatch(pm: State, st1: State, rm: R.State, loc: Layout)
    requires Match(pm, rm, loc) && st1.cache == pm.cache && Entries(st1.ptes, loc) == Entries(pm.ptes, loc)
    ensures Project(st1, loc, rm) == rm
  {
    hide Entries;
  }

  lemma VmaOk(j: Joint, move: R.Move)
    requires Ok(j)
    ensures Ok(JointNext(j, Vma(move)))
  {
    hide Reachable, Played, R.Advance;
    if IsVmaMove(move) {
      VmaMove(j.rm, move);
      PlayedMore(j.rm, [move]);
      PlayOne(j.rm, move);
    }
  }

  lemma VmaMove(rm: R.State, move: R.Move)
    requires IsVmaMove(move)
    ensures var rm1 := R.Advance(rm, move); rm1.entries == rm.entries && rm1.cache == rm.cache && rm1.pages == rm.pages
  {
    hide V.Next, V.Fork, R.MayStep;
  }

  lemma ExchangedInjective(loc: Layout, dst: nat, src: nat, pivot: nat)
    requires Injective(loc) && dst != src
    ensures Injective(a => Exchanged(loc(a), dst, src, pivot))
  {
    forall a, b | Exchanged(loc(a), dst, src, pivot) == Exchanged(loc(b), dst, src, pivot) ensures a == b {
      ExchangedBack(loc(a), dst, src, pivot);
      ExchangedBack(loc(b), dst, src, pivot);
      assert loc(a) == loc(b);
    }
  }

  lemma ExchangedBack(x: R.Place, dst: nat, src: nat, pivot: nat)
    requires dst != src
    ensures Exchanged(Exchanged(x, dst, src, pivot), dst, src, pivot) == x
  {
  }

  /** The new vma has no entries before. */
  lemma BlankIsEmpty(rm: R.State, dst: nat, b: R.Place)
    requires R.Complete(rm) && V.IsBlank(rm.forest, dst)
    ensures b in rm.entries ==> b.v != dst
  {
    assert R.EntryOk(rm, b);
  }

  lemma SplitEntries(pm: State, rm: R.State, loc: Layout, dst: nat, src: nat, budget: nat, pivot: nat)
    requires Match(pm, rm, loc) && R.Complete(rm) && Splits(rm, dst, src, budget)
    ensures
      var loc' := a => Exchanged(loc(a), dst, src, pivot);
      Injective(loc') && R.Split(rm, dst, src, budget, pivot).entries == Entries(pm.ptes, loc')
  {
    hide R.Complete, Entries, Injective, V.Clone, R.Locked;
    var loc': Layout := a => Exchanged(loc(a), dst, src, pivot);
    ExchangedInjective(loc, dst, src, pivot);
    var e, e' := R.Split(rm, dst, src, budget, pivot).entries, Entries(pm.ptes, loc');
    forall x | x in e ensures x in e' && e'[x] == e[x] {
      var y := R.There(x, dst, src, pivot);
      BlankIsEmpty(rm, dst, x);
      BlankIsEmpty(rm, dst, y);
      assert y in rm.entries && e[x] == rm.entries[y] && Exchanged(y, dst, src, pivot) == x;
      var a := EntriesFrom(pm.ptes, loc, y);
      EntriesAt(pm.ptes, loc', a);
    }
    forall x | x in e' ensures x in e {
      var a := EntriesFrom(pm.ptes, loc', x);
      EntriesAt(pm.ptes, loc, a);
      BlankIsEmpty(rm, dst, loc(a));
      ExchangedBack(loc(a), dst, src, pivot);
      assert R.There(x, dst, src, pivot) == loc(a);
      assert x in R.Here(rm.entries, dst, src, pivot);
    }
  }

  lemma SplitOk(j: Joint, dst: nat, src: nat, budget: nat, pivot: nat)
    requires Ok(j)
    ensures Ok(JointNext(j, Split(dst, src, budget, pivot)))
  {
    hide Reachable, Played, Entries, Injective, V.Clone, R.Complete, R.Play;
    var m := R.MSplit(dst, src, budget, pivot);
    PlayedComplete(j.rm);
    PlayedMore(j.rm, [m]);
    PlayOne(j.rm, m);
    if Splits(j.rm, dst, src, budget) { SplitEntries(j.pm, j.rm, j.loc, dst, src, budget, pivot); }
  }

  lemma RelocateOk(j: Joint, loc: Layout)
    requires Ok(j)
    ensures Ok(JointNext(j, Relocate(loc)))
  {
    hide Reachable, Played, Entries, Injective;
    if Injective(loc) && forall a :: Shown(j.pm.ptes, a) ==> loc(a) == j.loc(a) {
      var e, e' := Entries(j.pm.ptes, j.loc), Entries(j.pm.ptes, loc);
      forall x | x in e ensures x in e' && e'[x] == e[x] {
        var a := EntriesFrom(j.pm.ptes, j.loc, x);
        EntriesAt(j.pm.ptes, loc, a);
      }
      forall x | x in e' ensures x in e {
        var a := EntriesFrom(j.pm.ptes, loc, x);
        EntriesAt(j.pm.ptes, j.loc, a);
      }
    }
  }

  lemma JointNextOk(j: Joint, js: JointStep)
    requires Ok(j)
    ensures Ok(JointNext(j, js))
  {
    hide Ok, Prepared, R.Play, Moves, Next, R.Advance;
    match js
    case Mem(step) => if Prepared(j, step) { MemOk(j, step); }
    case Vma(move) => VmaOk(j, move);
    case Split(dst, src, budget, pivot) => SplitOk(j, dst, src, budget, pivot);
    case Relocate(loc) => RelocateOk(j, loc);
  }

  lemma {:induction false} JointRunOk(j: Joint, steps: seq<JointStep>)
    requires Ok(j)
    ensures Ok(JointRunFrom(j, steps))
    decreases |steps|
  {
    hide Ok, JointNext;
    if steps != [] {
      JointNextOk(j, steps[0]);
      JointRunOk(JointNext(j, steps[0]), steps[1..]);
    }
  }

  ghost function JointRun(loc: Layout, steps: seq<JointStep>): Joint {
    JointRunFrom(Joint(BOOT, R.START, loc), steps)
  }

  lemma StartOk(loc: Layout)
    requires Injective(loc)
    ensures Ok(Joint(BOOT, R.START, loc))
  {
    hide Injective;
    assert Run(BOOT, []) == BOOT;
    assert R.Play(R.START, []) == R.START;
    var none: map<R.Place, R.Entry> := map[];
    assert Entries(BOOT.ptes, loc) == none;
    assert R.START.entries == none;
  }

  /** Over every joint run of faults, forks, copies, reuse, swapping, zapping, splits and unlinks:
      both machines are where a run of their own leads, they show the same entries, and the reverse
      maps are complete, although exclusivity is decided by reference counts alone. */
  lemma JointHolds(loc: Layout, steps: seq<JointStep>)
    requires Injective(loc)
    ensures
      var j := JointRun(loc, steps);
      && Reachable(j.pm) && Played(j.rm) && Match(j.pm, j.rm, j.loc) && R.Complete(j.rm)
  {
    StartOk(loc);
    JointRunOk(Joint(BOOT, R.START, loc), steps);
    hide Match, Reachable, JointRunFrom, R.Complete, Played;
    PlayedComplete(JointRun(loc, steps).rm);
  }

  /** So for every entry of the page tables whose place its vma covers, the walk from the page it
      maps comes by, and so does the walk from the page that is cached for it, if that page names an
      anon_vma. */
  lemma EveryEntryIsFound(loc: Layout, steps: seq<JointStep>, extent: nat -> R.Extent, a: Addr)
    requires Injective(loc)
    ensures
      var j := JointRun(loc, steps);
      R.Covers(extent(j.loc(a).v), j.loc(a).index) ==>
        match PteAt(j.pm, a)
        case Present(p, _) => j.loc(a) in R.Walk(j.rm, extent, p)
        case Swap(s, _) =>
          s in j.pm.cache && j.pm.cache[s] in j.rm.pages && j.rm.pages[j.pm.cache[s]].Some?
          ==> j.loc(a) in R.Walk(j.rm, extent, j.pm.cache[s])
        case _ => true
  {
    JointHolds(loc, steps);
    var j := JointRun(loc, steps);
    hide JointRun, JointRunFrom, Reachable, Played, Injective, R.Walk;
    if Shown(j.pm.ptes, a) && R.Covers(extent(j.loc(a).v), j.loc(a).index) {
      EntriesAt(j.pm.ptes, j.loc, a);
      assert R.EntryOk(j.rm, j.loc(a));
      hide Entries;
      match PteAt(j.pm, a)
      case Present(p, _) => R.InTree(j.rm, extent, p, j.loc(a));
      case Swap(s, _) =>
        if s in j.pm.cache && j.pm.cache[s] in j.rm.pages && j.rm.pages[j.pm.cache[s]].Some? {
          R.InTree(j.rm, extent, j.pm.cache[s], j.loc(a));
        }
    }
  }
}
