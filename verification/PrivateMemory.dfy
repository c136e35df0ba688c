/** Private anonymous memory under fork, copy-on-write and swap, for order-0 folios.

    The state holds what the kernel keeps: page-table entries, folios with their
    reference and map counts, the swap cache, the swap slots, the per-process
    counters, and the two things a fault handler remembers while it holds no lock
    (a copy in progress, a slot pinned for a direct swap-in).  Each step is what one
    critical section of the fault, fork, unmap and reclaim paths does, written as the
    sequence of small operations that section performs.
 */
module PrivateMemory {
  import opened Wrappers

  type PageData = seq<int>

  const PAGE_SIZE := 4096

  function Zeros(): PageData {
    seq(PAGE_SIZE, _ => 0)
  }

  /** What a store of one byte does to a page. */
  function Poke(d: PageData, off: nat, b: int): PageData {
    if off < |d| then d[off := b] else d
  }

  // ---------------------------------------------------------------- state

  /** A virtual page: address space and page number in it. */
  datatype Addr = Addr(mm: nat, pg: nat)

  datatype Pte =
    | Empty
    | ZeroPage
    | Present(page: nat, writable: bool)
    | Swap(slot: nat, exclusive: bool)

  /** Who took a reference that is neither a mapping's nor the swap cache's.  The code
      sees only the resulting count; the set says whom a reference belongs to. */
  datatype Holder = Copier(tid: nat) | Gup(pin: nat) | Transient(id: nat)

  datatype Folio = Folio(
    data: PageData,
    refs: int,
    mapcount: int,
    anonExclusive: bool,
    swap: Option<nat>,
    dirty: bool,
    writeback: bool,
    holders: set<Holder>)

  datatype SwapSlot = SwapSlot(count: int, data: PageData, stableWrites: bool)

  /** What a write fault keeps while it copies without the page-table lock. */
  datatype Copy = Copy(addr: Addr, orig: Pte, unshare: bool, copied: Option<PageData>)

  datatype State = State(
    ptes: map<Addr, Pte>,
    folios: map<nat, Folio>,
    cache: map<nat, nat>,
    slots: map<nat, SwapSlot>,
    anonPages: map<nat, int>,
    swapEnts: map<nat, int>,
    copies: map<nat, Copy>,
    direct: map<nat, PageData>)

  function EntryAt(ptes: map<Addr, Pte>, a: Addr): Pte {
    if a in ptes then ptes[a] else Empty
  }

  function PteAt(st: State, a: Addr): Pte {
    EntryAt(st.ptes, a)
  }

  function Counter(m: map<nat, int>, mm: nat): int {
    if mm in m then m[mm] else 0
  }

  function Bump(m: map<nat, int>, mm: nat, delta: int): map<nat, int> {
    m[mm := Counter(m, mm) + delta]
  }

  predicate HasGup(f: Folio) {
    exists h :: h in f.holders && h.Gup?
  }

  predicate HasCopier(f: Folio) {
    exists h :: h in f.holders && h.Copier?
  }

  // ------------------------------------------------- what a process can read

  function FolioData(st: State, p: nat): PageData {
    if p in st.folios then st.folios[p].data else Zeros()
  }

  /** A swapped-out page is read from the swap cache if it is there, else from the device. */
  function SlotData(st: State, s: nat): PageData {
    if s in st.cache then FolioData(st, st.cache[s])
    else if s in st.slots then st.slots[s].data
    else Zeros()
  }

  function EntryData(st: State, e: Pte): PageData {
    match e
    case Empty => Zeros()
    case ZeroPage => Zeros()
    case Present(p, _) => FolioData(st, p)
    case Swap(s, _) => SlotData(st, s)
  }

  /** The page that a process finds at an address, wherever it currently is. */
  function View(st: State, a: Addr): PageData {
    EntryData(st, PteAt(st, a))
  }

  // --------------------------------------------------------- small operations

  function SetPte(st: State, a: Addr, e: Pte): State {
    st.(ptes := st.ptes[a := e])
  }

  /** folio_get on behalf of h. */
  function GetRef(st: State, p: nat, h: Holder): State {
    if p !in st.folios || h in st.folios[p].holders then st
    else
      var f := st.folios[p];
      st.(folios := st.folios[p := f.(refs := f.refs + 1, holders := f.holders + {h})])
  }

  /** folio_put of the reference h holds: the last one frees the folio. */
  function PutRef(st: State, p: nat, h: Holder): State {
    if p !in st.folios || h !in st.folios[p].holders then st
    else
      var f := st.folios[p];
      if f.refs == 1 then st.(folios := st.folios - {p})
      else st.(folios := st.folios[p := f.(refs := f.refs - 1, holders := f.holders - {h})])
  }

  /** A slot that nobody refers to, caches or has pinned goes back to the free pool. */
  function SlotRelease(st: State, s: nat): State {
    if s in st.slots && st.slots[s].count == 0 && s !in st.cache && s !in st.direct
    then st.(slots := st.slots - {s}) else st
  }

  /** Leave the swap cache; the caller holds a reference of its own. */
  function DropFromCache(st: State, p: nat): State {
    if p !in st.folios || st.folios[p].swap.None? then st
    else
      var f := st.folios[p];
      st.(cache := st.cache - {f.swap.value},
          folios := st.folios[p := f.(swap := None, dirty := true, refs := f.refs - 1)])
  }

  /** When folio_free_swap succeeds: cached, not under writeback, slot count zero. */
  predicate CanFreeSwap(st: State, p: nat) {
    && p in st.folios
    && st.folios[p].swap.Some?
    && !st.folios[p].writeback
    && st.folios[p].swap.value in st.slots
    && st.slots[st.folios[p].swap.value].count == 0
  }

  function FolioFreeSwap(st: State, p: nat): State {
    if CanFreeSwap(st, p) then SlotRelease(DropFromCache(st, p), st.folios[p].swap.value) else st
  }

  /** Map a new folio that nobody else can know (folio_add_new_anon_rmap, RMAP_EXCLUSIVE). */
  function MapNew(st: State, a: Addr, np: nat, d: PageData, writable: bool): State {
    st.(ptes := st.ptes[a := Present(np, writable)],
        folios := st.folios[np := Folio(d, 1, 1, true, None, true, false, {})],
        anonPages := Bump(st.anonPages, a.mm, 1))
  }

  /** Map a known folio without write access; the reference h holds becomes the mapping's. */
  function MapHeld(st: State, a: Addr, p: nat, h: Holder): State {
    if p !in st.folios then st
    else
      var f := st.folios[p];
      st.(ptes := st.ptes[a := Present(p, false)],
          folios := st.folios[p := f.(mapcount := f.mapcount + 1, holders := f.holders - {h})],
          anonPages := Bump(st.anonPages, a.mm, 1))
  }

  /** Clear an entry that maps a folio; the mapping's reference is left to h. */
  function UnmapHeld(st: State, a: Addr, h: Holder): State {
    var e := PteAt(st, a);
    if !e.Present? || e.page !in st.folios then st
    else
      var f := st.folios[e.page];
      st.(ptes := st.ptes[a := Empty],
          folios := st.folios[e.page := f.(mapcount := f.mapcount - 1, holders := f.holders + {h})],
          anonPages := Bump(st.anonPages, a.mm, -1))
  }

  /** Write-protect an entry and clear the folio's exclusive mark. */
  function Demote(st: State, a: Addr): State {
    var e := PteAt(st, a);
    if !e.Present? || e.page !in st.folios then st
    else
      st.(ptes := st.ptes[a := Present(e.page, false)],
          folios := st.folios[e.page := st.folios[e.page].(anonExclusive := false)])
  }

  /** Mark the folio exclusive and give its one entry the access the vma allows. */
  function Promote(st: State, a: Addr, writable: bool): State {
    var e := PteAt(st, a);
    if !e.Present? || e.page !in st.folios then st
    else
      st.(ptes := st.ptes[a := Present(e.page, writable)],
          folios := st.folios[e.page := st.folios[e.page].(anonExclusive := true)])
  }

  /** Put a swap entry where there was none (swap_duplicate). */
  function MapSwap(st: State, a: Addr, s: nat): State {
    if s !in st.slots then st
    else
      st.(ptes := st.ptes[a := Swap(s, false)],
          slots := st.slots[s := st.slots[s].(count := st.slots[s].count + 1)],
          swapEnts := Bump(st.swapEnts, a.mm, 1))
  }

  /** Clear a swap entry (swap_free, before the slot is considered for release). */
  function UnmapSwap(st: State, a: Addr): State {
    var e := PteAt(st, a);
    if !e.Swap? || e.slot !in st.slots then st
    else
      st.(ptes := st.ptes[a := Empty],
          slots := st.slots[e.slot := st.slots[e.slot].(count := st.slots[e.slot].count - 1)],
          swapEnts := Bump(st.swapEnts, a.mm, -1))
  }

  function MarkSwap(st: State, a: Addr, exclusive: bool): State {
    var e := PteAt(st, a);
    if e.Swap? then SetPte(st, a, Swap(e.slot, exclusive)) else st
  }

  // -------------------------------------------------------------------- steps

  /** do_anonymous_page. */
  function AnonFault(st: State, a: Addr, write: bool, vmWrite: bool, np: nat): State {
    if !PteAt(st, a).Empty? || np in st.folios then st
    else if write then MapNew(st, a, np, Zeros(), vmWrite)
    else SetPte(st, a, ZeroPage)
  }

  /** The processor stores through a writable entry. */
  function Store(st: State, a: Addr, off: nat, b: int): State {
    var e := PteAt(st, a);
    if !e.Present? || !e.writable then st else WriteFolio(st, e.page, off, b)
  }

  function WriteFolio(st: State, p: nat, off: nat, b: int): State {
    if p !in st.folios then st
    else st.(folios := st.folios[p := st.folios[p].(data := Poke(st.folios[p].data, off, b), dirty := true)])
  }

  /** One entry of copy_pte_range; h names the reference taken for the new mapping.  A folio
      that may be pinned is copied at once, which needs a preallocated page; maybePinned can be
      a false alarm but never misses a pin. */
  function CopyEntry(st: State, src: Addr, dst: Addr, h: Holder, maybePinned: bool, prealloc: Option<nat>,
                     dupFails: bool, vmWrite: bool): State
  {
    if !PteAt(st, dst).Empty? || src == dst then st
    else match PteAt(st, src)
      case Empty => st
      case ZeroPage => SetPte(st, dst, ZeroPage)
      case Swap(s, _) =>
        if dupFails then st
        else MapSwap(MarkSwap(st, src, false), dst, s)
      case Present(p, _) =>
        if p !in st.folios || !h.Transient? || h in st.folios[p].holders then st
        else if st.folios[p].anonExclusive && (maybePinned || HasGup(st.folios[p])) then
          if prealloc.None? || prealloc.value in st.folios then st
          else MapNew(st, dst, prealloc.value, st.folios[p].data, vmWrite)
        else MapHeld(Demote(GetRef(st, p, h), src), dst, p, h)
  }

  /** wp_can_reuse_anon_folio: the resulting state and whether the folio may be reused.
      Giving up the swap cache is not undone when the answer is no. */
  function TryReuse(st: State, p: nat, trylock: bool): (State, bool)
    requires p in st.folios
  {
    var f := st.folios[p];
    if f.refs > 3 then (st, false)
    else if f.refs > 1 + (if f.swap.Some? then 1 else 0) then (st, false)
    else if !trylock then (st, false)
    else
      var st1 := if f.swap.Some? then FolioFreeSwap(st, p) else st;
      (st1, p in st1.folios && st1.folios[p].refs == 1)
  }

  /** Remember the entry, take a reference, drop the lock. */
  function BeginCopy(st: State, t: nat, a: Addr, unshare: bool): State {
    var e := PteAt(st, a);
    var c := st.copies[t := Copy(a, e, unshare, None)];
    if e.Present? && e.page in st.folios then
      var f := st.folios[e.page];
      st.(copies := c, folios := st.folios[e.page := f.(refs := f.refs + 1, holders := f.holders + {Copier(t)})])
    else st.(copies := c)
  }

  /** do_wp_page on a private mapping, up to where the lock is dropped. */
  function WpFault(st: State, t: nat, a: Addr, unshare: bool, vmWrite: bool, trylock: bool): State {
    if t in st.copies then st
    else match PteAt(st, a)
      case ZeroPage => BeginCopy(st, t, a, unshare)
      case Present(p, w) =>
        if w || p !in st.folios then st
        else if st.folios[p].anonExclusive then
          if unshare then st else Promote(st, a, vmWrite)
        else
          var (st1, reuse) := TryReuse(st, p, trylock);
          if reuse then Promote(st1, a, !unshare && vmWrite)
          else BeginCopy(st1, t, a, unshare)
      case _ => st
  }

  /** The copying itself, done with no lock held. */
  function CopyData(st: State, t: nat): State {
    if t !in st.copies then st
    else st.(copies := st.copies[t := st.copies[t].(copied := Some(EntryData(st, st.copies[t].orig)))])
  }

  /** Forget a copy; the reference that protected it is left to h. */
  function ForgetCopy(st: State, t: nat, h: Holder): State {
    if t !in st.copies then st
    else
      var e := st.copies[t].orig;
      if e.Present? && e.page in st.folios then
        var f := st.folios[e.page];
        st.(copies := st.copies - {t},
            folios := st.folios[e.page := f.(holders := f.holders - {Copier(t)} + {h})])
      else st.(copies := st.copies - {t})
  }

  /** The last folio_put of wp_page_copy. */
  function EndCopy(st: State, t: nat, h: Holder): State {
    if t !in st.copies then st
    else
      var e := st.copies[t].orig;
      if e.Present? && (!h.Transient? || e.page !in st.folios || h in st.folios[e.page].holders) then st
      else
        var st1 := ForgetCopy(st, t, h);
        if e.Present? then PutRef(st1, e.page, h) else st1
  }

  /** wp_page_copy from the recheck under the lock: if the entry is still the one the fault saw,
      switch it to the copy; either way drop the reference.  h names the references on their way
      out: the old mapping's, then the copier's. */
  function WpFinish(st: State, t: nat, np: nat, h: Holder, vmWrite: bool, trylock: bool): State {
    if t !in st.copies || st.copies[t].copied.None? || np in st.folios || !h.Transient? then st
    else
      var c := st.copies[t];
      if PteAt(st, c.addr) != c.orig then EndCopy(st, t, h)
      else if !c.orig.Present? then
        EndCopy(MapNew(st, c.addr, np, c.copied.value, !c.unshare && vmWrite), t, h)
      else if c.orig.page !in st.folios || h in st.folios[c.orig.page].holders then st
      else
        var p := c.orig.page;
        var st1 := UnmapHeld(st, c.addr, h);
        var st2 := MapNew(st1, c.addr, np, c.copied.value, !c.unshare && vmWrite);
        var st3 := PutRef(st2, p, h);
        var st4 := if trylock && p in st3.folios && st3.folios[p].mapcount == 0 then FolioFreeSwap(st3, p) else st3;
        EndCopy(st4, t, h)
  }

  /** swapin_readahead: read a slot into a new folio of the swap cache. */
  function ReadSwap(st: State, s: nat, np: nat): State {
    if s !in st.slots || s in st.cache || s in st.direct || np in st.folios then st
    else st.(
      cache := st.cache[s := np],
      folios := st.folios[np := Folio(st.slots[s].data, 1, 0, false, Some(s), false, false, {})])
  }

  predicate SwapInEnabled(st: State, a: Addr, h: Holder) {
    var e := PteAt(st, a);
    && e.Swap? && e.slot in st.cache && e.slot in st.slots && st.cache[e.slot] in st.folios
    && h.Transient? && h !in st.folios[st.cache[e.slot]].holders
  }

  /** do_swap_page up to where the folio is mapped; h names our reference. */
  function SwapInTaken(st: State, a: Addr, h: Holder, free: bool): State
    requires SwapInEnabled(st, a, h)
  {
    var p := st.cache[PteAt(st, a).slot];
    var st2 := UnmapSwap(GetRef(st, p, h), a);
    if free then FolioFreeSwap(st2, p) else st2
  }

  /** do_swap_page with the folio in the swap cache and locked. */
  function SwapIn(st: State, a: Addr, h: Holder, write: bool, vmWrite: bool, swapFull: bool): State {
    if !SwapInEnabled(st, a, h) then st
    else
      var e := PteAt(st, a);
      var p := st.cache[e.slot];
      var f := st.folios[p];
      var st3 := SwapInTaken(st, a, h, swapFull || (write && f.refs + 1 == 2));
      var sure := e.exclusive && !(f.writeback && st.slots[e.slot].stableWrites);
      var exclusive := sure || (p in st3.folios && st3.folios[p].refs == 1);
      var st4 := MapHeld(st3, a, p, h);
      if exclusive then Promote(st4, a, vmWrite) else st4
  }

  /** swapcache_prepare for a slot that is to be read without the swap cache.  That its count is 1
      has been tested before, without the lock, and nothing depends on it. */
  function DirectPrepare(st: State, s: nat): State {
    if s !in st.slots || s in st.cache || s in st.direct then st
    else st.(direct := st.direct[s := st.slots[s].data])
  }

  /** swapcache_clear. */
  function DirectClear(st: State, s: nat): State {
    SlotRelease(st.(direct := st.direct - {s}), s)
  }

  /** do_swap_page with a fresh folio read directly from the slot. */
  function DirectFinish(st: State, a: Addr, np: nat, vmWrite: bool): State {
    var e := PteAt(st, a);
    if !e.Swap? || e.slot !in st.direct || np in st.folios then st
    else DirectClear(MapNew(UnmapSwap(st, a), a, np, st.direct[e.slot], vmWrite), e.slot)
  }

  /** add_to_swap: a free slot becomes the folio's. */
  function AddToSwap(st: State, p: nat, s: nat, stable: bool, junk: PageData): State {
    if p !in st.folios || st.folios[p].swap.Some? || s in st.slots then st
    else
      var f := st.folios[p];
      st.(slots := st.slots[s := SwapSlot(0, junk, stable)],
          cache := st.cache[s := p],
          folios := st.folios[p := f.(swap := Some(s), refs := f.refs + 1, dirty := true)])
  }

  /** The ways out of try_to_unmap_one for one anonymous mapping. */
  datatype UnmapFailure = DupFails | ArchFails | MaybePinned

  predicate MustKeep(st: State, p: nat, fails: set<UnmapFailure>)
    requires p in st.folios
  {
    || DupFails in fails
    || ArchFails in fails
    || (st.folios[p].anonExclusive && (MaybePinned in fails || HasGup(st.folios[p])))
  }

  /** try_to_unmap_one: the state afterwards and whether the walk goes on.  A folio that is not
      in the swap cache is not expected here: the entry has been cleared by then and stays so. */
  function UnmapOne(st: State, a: Addr, h: Holder, fails: set<UnmapFailure>): (State, bool) {
    var e := PteAt(st, a);
    if !e.Present? || e.page !in st.folios then (st, true)
    else if st.folios[e.page].swap.None? then (SetPte(st, a, Empty), false)
    else if MustKeep(st, e.page, fails) then (st, false)
    else
      var s := st.folios[e.page].swap.value;
      var exclusive := st.folios[e.page].anonExclusive;
      var st1 := UnmapHeld(Demote(st, a), a, h);
      (PutRef(MarkSwap(MapSwap(st1, a, s), a, exclusive), e.page, h), true)
  }

  /** Reclaim unmaps a folio only after it has been given a slot. */
  function Unmap(st: State, a: Addr, h: Holder, fails: set<UnmapFailure>): State {
    var e := PteAt(st, a);
    if e.Present? && e.page in st.folios && st.folios[e.page].swap.Some?
       && h.Transient? && h !in st.folios[e.page].holders
    then UnmapOne(st, a, h, fails).0 else st
  }

  /** pageout: writing starts when no mapping and no extra reference is left. */
  function StartWriteback(st: State, p: nat): State {
    if p !in st.folios then st
    else
      var f := st.folios[p];
      if f.swap.None? || f.mapcount != 0 || f.holders != {} || f.writeback || !f.dirty then st
      else st.(folios := st.folios[p := f.(dirty := false, writeback := true)])
  }

  /** The device finishes; what it wrote is arbitrary if the folio changed meanwhile. */
  function EndWriteback(st: State, p: nat, junk: PageData): State {
    if p !in st.folios || !st.folios[p].writeback || st.folios[p].swap.None? || st.folios[p].swap.value !in st.slots
    then st
    else
      var f := st.folios[p];
      var s := f.swap.value;
      st.(folios := st.folios[p := f.(writeback := false)],
          slots := st.slots[s := st.slots[s].(data := if f.dirty then junk else f.data)])
  }

  /** __remove_mapping: reclaim frees a clean, unused folio; its slot keeps the contents. */
  function Reclaim(st: State, p: nat, h: Holder): State {
    if p !in st.folios then st
    else
      var f := st.folios[p];
      if f.swap.None? || f.mapcount != 0 || f.holders != {} || f.writeback || f.dirty || !h.Transient? then st
      else SlotRelease(PutRef(DropFromCache(GetRef(st, p, h), p), p, h), f.swap.value)
  }

  /** free_swap_cache by somebody who only passes by. */
  function FreeSwap(st: State, p: nat, h: Holder): State {
    if p !in st.folios || !h.Transient? || h in st.folios[p].holders then st
    else PutRef(FolioFreeSwap(GetRef(st, p, h), p), p, h)
  }

  /** zap_pte_range for one entry; the mapping's reference goes to the mmu_gather, here h,
      which drops it later. */
  function Zap(st: State, a: Addr, h: Holder): State {
    match PteAt(st, a)
    case Empty => st
    case ZeroPage => SetPte(st, a, Empty)
    case Present(p, _) =>
      if p !in st.folios || !h.Transient? || h in st.folios[p].holders then st else UnmapHeld(st, a, h)
    case Swap(s, _) => SlotRelease(UnmapSwap(st, a), s)
  }

  /** GUP pins only exclusive anonymous folios. */
  function PinPage(st: State, a: Addr, i: nat): State {
    var e := PteAt(st, a);
    if !e.Present? || e.page !in st.folios || !st.folios[e.page].anonExclusive then st
    else GetRef(st, e.page, Gup(i))
  }

  /** Anybody may look a folio up and hold it for a while. */
  function TakeRef(st: State, p: nat, i: nat): State {
    GetRef(st, p, Transient(i))
  }

  function LeaveRef(st: State, p: nat, h: Holder): State {
    if h.Copier? then st else PutRef(st, p, h)
  }

  /** A device writes to a page it has pinned. */
  function DmaWrite(st: State, p: nat, i: nat, off: nat, b: int): State {
    if p !in st.folios || Gup(i) !in st.folios[p].holders then st else WriteFolio(st, p, off, b)
  }

  datatype Step =
    | SAnonFault(a: Addr, write: bool, vmWrite: bool, np: nat)
    | SStore(a: Addr, off: nat, b: int)
    | SCopyEntry(src: Addr, dst: Addr, h: Holder, maybePinned: bool, prealloc: Option<nat>, dupFails: bool,
                 vmWrite: bool)
    | SWpFault(t: nat, a: Addr, unshare: bool, vmWrite: bool, trylock: bool)
    | SCopyData(t: nat)
    | SWpFinish(t: nat, np: nat, h: Holder, vmWrite: bool, trylock: bool)
    | SWpAbort(t: nat, h: Holder)
    | SReadSwap(s: nat, np: nat)
    | SSwapIn(a: Addr, h: Holder, write: bool, vmWrite: bool, swapFull: bool)
    | SDirectPrepare(s: nat)
    | SDirectFinish(a: Addr, np: nat, vmWrite: bool)
    | SDirectAbort(s: nat)
    | SAddToSwap(p: nat, s: nat, stable: bool, junk: PageData)
    | SUnmap(a: Addr, h: Holder, fails: set<UnmapFailure>)
    | SStartWriteback(p: nat)
    | SEndWriteback(p: nat, junk: PageData)
    | SReclaim(p: nat, h: Holder)
    | SFreeSwap(p: nat, h: Holder)
    | SZap(a: Addr, h: Holder)
    | SPinPage(a: Addr, i: nat)
    | STakeRef(p: nat, i: nat)
    | SLeaveRef(p: nat, h: Holder)
    | SDmaWrite(p: nat, i: nat, off: nat, b: int)

  /** A step whose guard does not hold changes nothing, so every list of steps is a run. */
  function Next(st: State, step: Step): State {
    match step
    case SAnonFault(a, write, vmWrite, np) => AnonFault(st, a, write, vmWrite, np)
    case SStore(a, off, b) => Store(st, a, off, b)
    case SCopyEntry(src, dst, h, maybePinned, prealloc, dupFails, vmWrite) =>
      CopyEntry(st, src, dst, h, maybePinned, prealloc, dupFails, vmWrite)
    case SWpFault(t, a, unshare, vmWrite, trylock) => WpFault(st, t, a, unshare, vmWrite, trylock)
    case SCopyData(t) => CopyData(st, t)
    case SWpFinish(t, np, h, vmWrite, trylock) => WpFinish(st, t, np, h, vmWrite, trylock)
    case SWpAbort(t, h) => EndCopy(st, t, h)
    case SReadSwap(s, np) => ReadSwap(st, s, np)
    case SSwapIn(a, h, write, vmWrite, swapFull) => SwapIn(st, a, h, write, vmWrite, swapFull)
    case SDirectPrepare(s) => DirectPrepare(st, s)
    case SDirectFinish(a, np, vmWrite) => DirectFinish(st, a, np, vmWrite)
    case SDirectAbort(s) => DirectClear(st, s)
    case SAddToSwap(p, s, stable, junk) => AddToSwap(st, p, s, stable, junk)
    case SUnmap(a, h, fails) => Unmap(st, a, h, fails)
    case SStartWriteback(p) => StartWriteback(st, p)
    case SEndWriteback(p, junk) => EndWriteback(st, p, junk)
    case SReclaim(p, h) => Reclaim(st, p, h)
    case SFreeSwap(p, h) => FreeSwap(st, p, h)
    case SZap(a, h) => Zap(st, a, h)
    case SPinPage(a, i) => PinPage(st, a, i)
    case STakeRef(p, i) => TakeRef(st, p, i)
    case SLeaveRef(p, h) => LeaveRef(st, p, h)
    case SDmaWrite(p, i, off, b) => DmaWrite(st, p, i, off, b)
  }

  const BOOT := State(map[], map[], map[], map[], map[], map[], map[], map[])

  function Run(st: State, steps: seq<Step>): State
    decreases |steps|
  {
    if steps == [] then st else Run(Next(st, steps[0]), steps[1..])
  }
}
