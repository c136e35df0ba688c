/** Completeness of the reverse map: whatever forks, reuse, copies and swapping have done, the
    anon_vma a page names leads to every vma that maps the page, and, while the page is in the
    swap cache, to every vma with a swap entry for it. */
module ReverseMap {
  import opened Wrappers
  import opened AnonVma
  import opened AnonVmaLifetime
  import opened AnonVmaReuse

  /** A place in a vma; index is the linear page index, which fork and split preserve. */
  datatype Place = Place(v: nat, index: nat)

  datatype Entry = Mapped(page: nat) | Swapped(slot: nat)

  /** folio->mapping and folio->index of an anonymous page. */
  datatype Anon = Anon(av: nat, index: nat)

  /** forks maps a child vma to the parent vma while dup_mmap holds both locks. */
  datatype State = State(
    forest: AnonVma.State,
    entries: map<Place, Entry>,
    pages: map<nat, Option<Anon>>,
    cache: map<nat, nat>,
    forks: map<nat, nat>)

  function Vmas(st: State): map<nat, Vma> {
    st.forest.vmas
  }

  predicate HasAnon(st: State, v: nat) {
    v in Vmas(st) && Vmas(st)[v].anon.Some?
  }

  /** __folio_set_anon: a page that others may share gets the oldest anon_vma there is. */
  function SetAnon(st: State, at: Place, exclusive: bool): Anon
    requires HasAnon(st, at.v)
  {
    var x := Vmas(st)[at.v].anon.value;
    Anon(if exclusive || x !in st.forest.avs then x else st.forest.avs[x].root, at.index)
  }

  predicate OnlyEntry(st: State, at: Place) {
    at in st.entries && forall b :: b in st.entries && b != at ==> st.entries[b] != st.entries[at]
  }

  predicate InUse(st: State, e: Entry) {
    exists b :: b in st.entries && st.entries[b] == e
  }

  predicate Cached(st: State, p: nat) {
    exists s :: s in st.cache && st.cache[s] == p
  }

  /** The mmap lock of a vma under fork is held by the fork. */
  predicate Locked(st: State, v: nat) {
    v in st.forks || exists d :: d in st.forks && st.forks[d] == v
  }

  predicate Occupied(st: State, v: nat) {
    exists b :: b in st.entries && b.v == v
  }

  // ------------------------------------------------------------ the vma side

  /** Prepare, unlink and the like: not on a vma whose lock is held, and unlinking only after
      the page tables of the vma have been emptied. */
  predicate MayStep(st: State, step: Step) {
    match step
    case SPrepare(v, _, _, _, _) => !Locked(st, v)
    case SUnlink(v) => !Locked(st, v) && !Occupied(st, v)
    case SDropVma(v) => !Locked(st, v)
    case SSplit(_, _, _) => false
    case SFork(_, _, _, _, _, _) => false
    case _ => true
  }

  function ForestStep(st: State, step: Step): State {
    if MayStep(st, step) then st.(forest := Next(st.forest, step)) else st
  }

  /** __split_vma: the upper part of the entries goes with the new vma. */
  function Split(st: State, dst: nat, src: nat, budget: nat, at: nat): State {
    if !IsBlank(st.forest, dst) || src !in Vmas(st) || dst == src || Locked(st, dst) || Locked(st, src) then st
    else
      var (forest, ok) := Clone(st.forest, dst, src, Vmas(st)[src].anon, budget);
      if !ok then st.(forest := forest)
      else
        st.(forest := forest,
            entries := map b | b in Here(st.entries, dst, src, at) && There(b, dst, src, at) in st.entries
                         :: st.entries[There(b, dst, src, at)])
  }

  /** Where an entry was before the split. */
  function There(b: Place, dst: nat, src: nat, at: nat): Place {
    if b.v == dst && b.index >= at then Place(src, b.index) else b
  }

  function Here(entries: map<Place, Entry>, dst: nat, src: nat, at: nat): set<Place> {
    (set b | b in entries && !(b.v == src && b.index >= at))
    + (set b | b in entries && b.v == src && b.index >= at :: Place(dst, b.index))
  }

  /** anon_vma_fork; the entries are copied afterwards, one by one. */
  function BeginFork(st: State, dst: nat, src: nat, budget: nat, np: nat, avOk: bool, avcOk: bool): State {
    if !IsBlank(st.forest, dst) || src !in Vmas(st) || dst == src || np in st.forest.avs
       || Locked(st, dst) || Locked(st, src)
    then st
    else
      var (forest, ok) := Fork(st.forest, dst, src, budget, np, avOk, avcOk);
      if ok then st.(forest := forest, forks := st.forks[dst := src]) else st.(forest := forest)
  }

  /** One entry of copy_pte_range.  A page that may be pinned is copied into a new one. */
  function CopyEntry(st: State, dst: nat, index: nat, copy: Option<nat>): State {
    if dst !in st.forks then st
    else
      var from, to := Place(st.forks[dst], index), Place(dst, index);
      if from !in st.entries || to in st.entries then st
      else if st.entries[from].Mapped? && copy.Some? then MapNew(st, to, copy.value)
      else st.(entries := st.entries[to := st.entries[from]])
  }

  function EndFork(st: State, dst: nat): State {
    st.(forks := st.forks - {dst})
  }

  // ----------------------------------------------------------- the page side

  /** A new page, exclusive to its vma. */
  function MapNew(st: State, at: Place, p: nat): State {
    if !HasAnon(st, at.v) || p in st.pages then st
    else st.(pages := st.pages[p := Some(SetAnon(st, at, true))], entries := st.entries[at := Mapped(p)])
  }

  function AnonFault(st: State, at: Place, p: nat): State {
    if at in st.entries then st else MapNew(st, at, p)
  }

  function WriteCopy(st: State, at: Place, p: nat): State {
    if at in st.entries && st.entries[at].Mapped? then MapNew(st, at, p) else st
  }

  /** folio_move_anon_rmap, when the reference count has shown that this mapping is the only
      reference to the page; ReverseMapGuards proves what the count shows. */
  function MoveAnon(st: State, at: Place): State {
    if HasAnon(st, at.v) && OnlyEntry(st, at) && st.entries[at].Mapped? && st.entries[at].page in st.pages
       && !Cached(st, st.entries[at].page)
    then
      var p := st.entries[at].page;
      var index := if st.pages[p].Some? then st.pages[p].value.index else at.index;
      st.(pages := st.pages[p := Some(Anon(Vmas(st)[at.v].anon.value, index))])
    else st
  }

  function AddToSwap(st: State, p: nat, s: nat): State {
    if p !in st.pages || Cached(st, p) || s in st.cache || InUse(st, Swapped(s)) then st
    else st.(cache := st.cache[s := p])
  }

  /** try_to_unmap_one for a page of the swap cache. */
  function Unmap(st: State, at: Place, s: nat): State {
    if at in st.entries && s in st.cache && st.entries[at] == Mapped(st.cache[s])
    then st.(entries := st.entries[at := Swapped(s)]) else st
  }

  /** A slot is read into a page that has no anon mapping yet. */
  function ReadSwap(st: State, s: nat, p: nat): State {
    if s in st.cache || p in st.pages then st
    else st.(cache := st.cache[s := p], pages := st.pages[p := None])
  }

  /** do_swap_page: an exclusive entry is its slot's only one, as ReverseMapGuards proves. */
  function SwapIn(st: State, at: Place, exclusive: bool): State {
    if !HasAnon(st, at.v) || at !in st.entries || !st.entries[at].Swapped? || st.entries[at].slot !in st.cache
       || (exclusive && !OnlyEntry(st, at))
    then st
    else
      var p := st.cache[st.entries[at].slot];
      if p !in st.pages then st
      else
        st.(entries := st.entries[at := Mapped(p)],
            pages := if st.pages[p].None? then st.pages[p := Some(SetAnon(st, at, exclusive))] else st.pages)
  }

  /** do_swap_page without the swap cache, into a new page. */
  function DirectSwapIn(st: State, at: Place, p: nat): State {
    if at in st.entries && st.entries[at].Swapped? && st.entries[at].slot !in st.cache then MapNew(st, at, p) else st
  }

  /** folio_free_swap. */
  function FreeSwap(st: State, s: nat): State {
    if InUse(st, Swapped(s)) then st else st.(cache := st.cache - {s})
  }

  /** Reclaim of a page that is no longer mapped. */
  function Reclaim(st: State, s: nat): State {
    if s !in st.cache || InUse(st, Mapped(st.cache[s])) then st
    else st.(cache := st.cache - {s}, pages := st.pages - {st.cache[s]})
  }

  function FreePage(st: State, p: nat): State {
    if InUse(st, Mapped(p)) || Cached(st, p) then st else st.(pages := st.pages - {p})
  }

  function Zap(st: State, at: Place): State {
    st.(entries := st.entries - {at})
  }

  datatype Move =
    | MForest(step: Step)
    | MSplit(dst: nat, src: nat, budget: nat, pivot: nat)
    | MFork(dst: nat, src: nat, budget: nat, np: nat, avOk: bool, avcOk: bool)
    | MCopy(dst: nat, index: nat, copy: Option<nat>)
    | MEndFork(dst: nat)
    | MFault(at: Place, p: nat)
    | MWriteCopy(at: Place, p: nat)
    | MMoveAnon(at: Place)
    | MAddToSwap(p: nat, s: nat)
    | MUnmap(at: Place, s: nat)
    | MReadSwap(s: nat, p: nat)
    | MSwapIn(at: Place, exclusive: bool)
    | MDirectSwapIn(at: Place, p: nat)
    | MFreeSwap(s: nat)
    | MReclaim(s: nat)
    | MFreePage(p: nat)
    | MZap(at: Place)

  function Advance(st: State, move: Move): State {
    match move
    case MForest(step) => ForestStep(st, step)
    case MSplit(dst, src, budget, pivot) => Split(st, dst, src, budget, pivot)
    case MFork(dst, src, budget, np, avOk, avcOk) => BeginFork(st, dst, src, budget, np, avOk, avcOk)
    case MCopy(dst, index, copy) => CopyEntry(st, dst, index, copy)
    case MEndFork(dst) => EndFork(st, dst)
    case MFault(at, p) => AnonFault(st, at, p)
    case MWriteCopy(at, p) => WriteCopy(st, at, p)
    case MMoveAnon(at) => MoveAnon(st, at)
    case MAddToSwap(p, s) => AddToSwap(st, p, s)
    case MUnmap(at, s) => Unmap(st, at, s)
    case MReadSwap(s, p) => ReadSwap(st, s, p)
    case MSwapIn(at, exclusive) => SwapIn(st, at, exclusive)
    case MDirectSwapIn(at, p) => DirectSwapIn(st, at, p)
    case MFreeSwap(s) => FreeSwap(st, s)
    case MReclaim(s) => Reclaim(st, s)
    case MFreePage(p) => FreePage(st, p)
    case MZap(at) => Zap(st, at)
  }

  const START := State.State(BOOT, map[], map[], map[], map[])

  function Play(st: State, moves: seq<Move>): State
    decreases |moves|
  {
    if moves == [] then st else Play(Advance(st, moves[0]), moves[1..])
  }

  // --------------------------------------------------------------- invariant

  /** The anon_vma a page names is in the vma's chain, and the index is the entry's own. */
  ghost predicate Leads(st: State, a: Anon, b: Place) {
    b.v in Vmas(st) && a.av in Vmas(st)[b.v].chain && a.index == b.index
  }

  ghost predicate EntryOk(st: State, b: Place) {
    b in st.entries ==>
      && HasAnon(st, b.v)
      && match st.entries[b]
         case Mapped(p) => p in st.pages && st.pages[p].Some? && Leads(st, st.pages[p].value, b)
         case Swapped(s) =>
           s in st.cache && st.cache[s] in st.pages && st.pages[st.cache[s]].Some?
           ==> Leads(st, st.pages[st.cache[s]].value, b)
  }

  ghost function Oldest(st: State, v: nat): nat {
    if v in Vmas(st) && Vmas(st)[v].chain != [] then Vmas(st)[v].chain[|Vmas(st)[v].chain| - 1] else 0
  }

  /** The holders of one slot share a root and the index. */
  ghost predicate SlotOk(st: State, b: Place, c: Place) {
    b in st.entries && c in st.entries && st.entries[b].Swapped? && st.entries[c] == st.entries[b]
    ==> b.index == c.index && Oldest(st, b.v) == Oldest(st, c.v)
  }

  ghost predicate CacheOk(st: State, s: nat, t: nat) {
    s in st.cache ==> st.cache[s] in st.pages && (t in st.cache && t != s ==> st.cache[t] != st.cache[s])
  }

  ghost predicate ForkedOk(st: State, d: nat) {
    d in st.forks ==>
      var s := st.forks[d];
      && d in Vmas(st) && s in Vmas(st)
      && (forall x :: x in Vmas(st)[s].chain ==> x in Vmas(st)[d].chain)
      && (HasAnon(st, s) ==> HasAnon(st, d) && Oldest(st, d) == Oldest(st, s))
  }

  ghost predicate Complete(st: State) {
    && Inv(st.forest)
    && (forall b :: EntryOk(st, b))
    && (forall b, c :: SlotOk(st, b, c))
    && (forall s, t :: CacheOk(st, s, t))
    && (forall d :: ForkedOk(st, d))
  }

  // ------------------------------------------------------- the vma side keeps it

  /** A change of the forest is harmless if it leaves alone the vmas that hold entries or are
      under fork. */
  ghost predicate Harmless(st: State, forest: AnonVma.State) {
    && Inv(forest)
    && (forall v ::
         v in Vmas(st) && (Occupied(st, v) || Locked(st, v)) ==> v in forest.vmas && forest.vmas[v] == Vmas(st)[v])
  }

  lemma HarmlessKeeps(st: State, forest: AnonVma.State)
    requires Complete(st) && Harmless(st, forest)
    ensures Complete(st.(forest := forest))
  {
    hide Inv;
    var st' := st.(forest := forest);
    forall b ensures EntryOk(st', b) {
      assert EntryOk(st, b);
      assert b in st.entries ==> Occupied(st, b.v);
    }
    forall b, c ensures SlotOk(st', b, c) {
      assert SlotOk(st, b, c) && EntryOk(st, b) && EntryOk(st, c);
      assert b in st.entries ==> Occupied(st, b.v);
      assert c in st.entries ==> Occupied(st, c.v);
    }
    forall s, t ensures CacheOk(st', s, t) { assert CacheOk(st, s, t); }
    forall d ensures ForkedOk(st', d) {
      assert ForkedOk(st, d);
      assert d in st.forks ==> Locked(st, d) && Locked(st, st.forks[d]);
    }
  }

  /** No step of the forest touches a vma it is not about. */
  lemma NextOnly(st: AnonVma.State, step: Step, v: nat)
    requires Inv(st) && v in st.vmas && !step.SSplit? && !step.SFork?
    requires step.SPrepare? ==> step.v != v || st.vmas[v].anon.Some?
    requires step.SUnlink? || step.SDropVma? ==> step.v != v
    ensures v in Next(st, step).vmas && Next(st, step).vmas[v] == st.vmas[v]
  {
    hide Inv;
    match step
    case SPrepare(w, near, np, avcOk, avOk) => PrepareOnly(st, w, near, np, avcOk, avOk, v);
    case SUnlink(w) => UnlinkOnly(st, w);
    case SUnpin(x) =>
      if Pins(st, x) != 0 {
        var st1 := st.(pins := st.pins[x := Pins(st, x) - 1]);
        PutVmas(st1, x);
      }
    case _ =>
  }

  lemma PutVmas(st: AnonVma.State, x: nat)
    ensures Put(st, x).vmas == st.vmas
  {
  }

  lemma PrepareOnly(st: AnonVma.State, w: nat, near: Option<nat>, np: nat, avcOk: bool, avOk: bool, v: nat)
    requires v in st.vmas && (w != v || st.vmas[v].anon.Some?)
    ensures var st' := Prepare(st, w, near, np, avcOk, avOk).0; v in st'.vmas && st'.vmas[v] == st.vmas[v]
  {
    hide Put;
    PutVmas(NewRoot(st, np), np);
  }

  lemma ForestStepKeeps(st: State, step: Step)
    requires Complete(st)
    ensures Complete(ForestStep(st, step))
  {
    if MayStep(st, step) {
      NextOk(st.forest, step);
      forall v | v in Vmas(st) && (Occupied(st, v) || Locked(st, v))
        ensures v in Next(st.forest, step).vmas && Next(st.forest, step).vmas[v] == Vmas(st)[v]
      {
        OccupiedHasAnon(st, v);
        if step.SDropVma? && step.v == v {
          NotBlank(st, v);
        } else {
          NextOnly(st.forest, step, v);
        }
      }
      hide Next, Complete;
      HarmlessKeeps(st, Next(st.forest, step));
    }
  }

  lemma OccupiedHasAnon(st: State, v: nat)
    requires Complete(st)
    ensures Occupied(st, v) ==> HasAnon(st, v)
  {
    if Occupied(st, v) {
      var b :| b in st.entries && b.v == v;
      assert EntryOk(st, b);
    }
  }

  lemma NotBlank(st: State, v: nat)
    requires HasAnon(st, v)
    ensures Next(st.forest, SDropVma(v)) == st.forest
  {
  }

  /** Every vma but v is as it was. */
  ghost predicate OthersStay(st: AnonVma.State, st': AnonVma.State, v: nat) {
    forall w :: w in st.vmas && w != v ==> w in st'.vmas && st'.vmas[w] == st.vmas[w]
  }

  lemma {:induction false} CloneLinksOnly(st: AnonVma.State, dst: nat, list: seq<nat>, root: Option<nat>,
                                          pick: Option<nat>, reuse: bool, budget: nat)
    ensures OthersStay(st, CloneLinks(st, dst, list, root, pick, reuse, budget).0, dst)
    decreases |list|
  {
    if list != [] && budget > 0 {
      var x := list[|list| - 1];
      var st1 := Link(LockRoot(st, root, x), dst, x);
      assert OthersStay(st, st1, dst);
      hide Link, LockRoot, CanReuse;
      var pick1 := if pick.None? && reuse && CanReuse(st1, x) then Some(x) else pick;
      CloneLinksOnly(st1, dst, list[..|list| - 1], RootOf(st, x), pick1, reuse, budget - 1);
    }
  }

  lemma CloneOnly(st: AnonVma.State, dst: nat, src: nat, preset: Option<nat>, budget: nat)
    ensures OthersStay(st, Clone(st, dst, src, preset, budget).0, dst)
  {
    hide CloneLinks, Unlink;
    if src in st.vmas {
      CloneLinksOnly(st, dst, st.vmas[src].chain, None, preset, st.vmas[src].anon.Some?, budget);
      var st1 := CloneLinks(st, dst, st.vmas[src].chain, None, preset, st.vmas[src].anon.Some?, budget).0;
      UnlinkOnly(st1, dst);
    }
  }

  lemma ForkOnly(st: AnonVma.State, dst: nat, src: nat, budget: nat, np: nat, avOk: bool, avcOk: bool)
    ensures OthersStay(st, Fork(st, dst, src, budget, np, avOk, avcOk).0, dst)
  {
    hide Clone, Unlink, Put;
    CloneOnly(st, dst, src, None, budget);
    var st1 := Clone(st, dst, src, None, budget).0;
    UnlinkOnly(st1, dst);
    var st2 := st1.(avs := st1.avs[np := Av(1, 0, 1, np, np, {})]);
    PutVmas(st2, np);
    UnlinkOnly(Put(st2, np), dst);
  }

  /** Where an entry came from. */
  lemma SplitPlace(st: State, dst: nat, src: nat, budget: nat, pivot: nat, b: Place)
    requires Complete(st) && IsBlank(st.forest, dst) && src in Vmas(st) && dst != src && !Locked(st, dst)
      && !Locked(st, src)
    requires Clone(st.forest, dst, src, Vmas(st)[src].anon, budget).1
    ensures var st' := Split(st, dst, src, budget, pivot);
      b in st'.entries ==>
        var b0 := There(b, dst, src, pivot);
        && b0 in st.entries && st'.entries[b] == st.entries[b0] && b0.index == b.index
        && HasAnon(st', b.v) && HasAnon(st, b0.v) && Vmas(st')[b.v].chain == Vmas(st)[b0.v].chain
  {
    hide Inv;
    var st' := Split(st, dst, src, budget, pivot);
    CloneOk(st.forest, dst, src, Vmas(st)[src].anon, budget);
    hide Clone;
    if b in st'.entries {
      assert EntryOk(st, There(b, dst, src, pivot));
    }
  }

  lemma SplitKeeps(st: State, dst: nat, src: nat, budget: nat, pivot: nat)
    requires Complete(st)
    ensures Complete(Split(st, dst, src, budget, pivot))
  {
    hide Inv, Clone;
    if IsBlank(st.forest, dst) && src in Vmas(st) && dst != src && !Locked(st, dst) && !Locked(st, src) {
      var (forest, ok) := Clone(st.forest, dst, src, Vmas(st)[src].anon, budget);
      CloneOk(st.forest, dst, src, Vmas(st)[src].anon, budget);
      CloneOnly(st.forest, dst, src, Vmas(st)[src].anon, budget);
      OccupiedHasAnon(st, dst);
      if !ok {
        HarmlessKeeps(st, forest);
      } else {
        SplitEntries(st, dst, src, budget, pivot);
        var st' := Split(st, dst, src, budget, pivot);
        forall s, t ensures CacheOk(st', s, t) { assert CacheOk(st, s, t); }
        forall d ensures ForkedOk(st', d) {
          assert ForkedOk(st, d);
          assert d in st.forks ==> Locked(st, d) && Locked(st, st.forks[d]);
        }
      }
    }
  }

  lemma SplitEntries(st: State, dst: nat, src: nat, budget: nat, pivot: nat)
    requires Complete(st) && IsBlank(st.forest, dst) && src in Vmas(st) && dst != src && !Locked(st, dst)
      && !Locked(st, src)
    requires Clone(st.forest, dst, src, Vmas(st)[src].anon, budget).1
    ensures var st' := Split(st, dst, src, budget, pivot);
      (forall b :: EntryOk(st', b)) && (forall b, c :: SlotOk(st', b, c))
  {
    var st' := Split(st, dst, src, budget, pivot);
    assert st'.pages == st.pages && st'.cache == st.cache;
    hide Split;
    forall b ensures EntryOk(st', b) {
      SplitPlace(st, dst, src, budget, pivot, b);
      assert EntryOk(st, There(b, dst, src, pivot));
    }
    forall b, c ensures SlotOk(st', b, c) {
      SplitPlace(st, dst, src, budget, pivot, b);
      SplitPlace(st, dst, src, budget, pivot, c);
      assert SlotOk(st, There(b, dst, src, pivot), There(c, dst, src, pivot));
    }
  }

  lemma BeginForkKeeps(st: State, dst: nat, src: nat, budget: nat, np: nat, avOk: bool, avcOk: bool)
    requires Complete(st)
    ensures Complete(BeginFork(st, dst, src, budget, np, avOk, avcOk))
  {
    hide Inv, Fork;
    if IsBlank(st.forest, dst) && src in Vmas(st) && dst != src && np !in st.forest.avs
       && !Locked(st, dst) && !Locked(st, src)
    {
      var (forest, ok) := Fork(st.forest, dst, src, budget, np, avOk, avcOk);
      ForkOk(st.forest, dst, src, budget, np, avOk, avcOk);
      ForkOnly(st.forest, dst, src, budget, np, avOk, avcOk);
      OccupiedHasAnon(st, dst);
      HarmlessKeeps(st, forest);
      if ok {
        ForkInherits(st.forest, dst, src, budget, np, avOk, avcOk);
        var st1 := st.(forest := forest);
        var st' := st1.(forks := st.forks[dst := src]);
        forall b ensures EntryOk(st', b) { assert EntryOk(st1, b); }
        forall b, c ensures SlotOk(st', b, c) { assert SlotOk(st1, b, c); }
        forall s, t ensures CacheOk(st', s, t) { assert CacheOk(st1, s, t); }
        forall d ensures ForkedOk(st', d) {
          assert ForkedOk(st1, d);
          if d == dst { Inherited(st', dst, src, np, Vmas(st)[src].chain); }
        }
      }
    }
  }

  lemma Inherited(st: State, dst: nat, src: nat, np: nat, c: seq<nat>)
    requires dst in st.forks && st.forks[dst] == src && dst in Vmas(st) && src in Vmas(st) && Vmas(st)[src].chain == c
    requires if Vmas(st)[src].anon.None? then c == []
      else c != [] && Vmas(st)[dst].anon.Some? && (Vmas(st)[dst].chain == c || Vmas(st)[dst].chain == [np] + c)
    ensures ForkedOk(st, dst)
  {
  }

  /** After a fork the child's chain extends the parent's. */
  lemma ForkInherits(st: AnonVma.State, dst: nat, src: nat, budget: nat, np: nat, avOk: bool, avcOk: bool)
    requires Inv(st) && IsBlank(st, dst) && src in st.vmas && dst != src && np !in st.avs
    requires Fork(st, dst, src, budget, np, avOk, avcOk).1
    ensures
      var st' := Fork(st, dst, src, budget, np, avOk, avcOk).0;
      && dst in st'.vmas && src in st'.vmas && st'.vmas[src] == st.vmas[src]
      && (if st.vmas[src].anon.None? then st.vmas[src].chain == []
          else
            && st.vmas[src].chain != [] && st'.vmas[dst].anon.Some?
            && (st'.vmas[dst].chain == st.vmas[src].chain || st'.vmas[dst].chain == [np] + st.vmas[src].chain))
  {
    hide InvMid, Clone, Unlink, Put;
    OwnAnon(st, src);
    if st.vmas[src].anon.Some? {
      CloneOk(st, dst, src, None, budget);
      LiveAnon(st, src);
    }
  }

  // ------------------------------------------------------ the page side keeps it

  /** The vma's own anon_vma and its root are in its chain. */
  lemma OwnLeads(st: State, at: Place, exclusive: bool)
    requires Inv(st.forest) && HasAnon(st, at.v)
    ensures Leads(st, SetAnon(st, at, exclusive), at)
    ensures !exclusive ==> SetAnon(st, at, exclusive) == Anon(Oldest(st, at.v), at.index)
    ensures Vmas(st)[at.v].chain != []
  {
    assert VmaOk(st.forest, None, at.v);
  }

  /** Two vmas that share an anon_vma share the root. */
  lemma SharedRoot(st: State, x: nat, v: nat, w: nat)
    requires Inv(st.forest) && v in Vmas(st) && w in Vmas(st)
    requires x in Vmas(st)[v].chain && x in Vmas(st)[w].chain
    ensures Oldest(st, v) == Oldest(st, w)
  {
    assert VmaOk(st.forest, None, v) && VmaOk(st.forest, None, w);
  }

  lemma MapNewKeeps(st: State, at: Place, p: nat)
    requires Complete(st)
    ensures Complete(MapNew(st, at, p))
  {
    hide Inv;
    if HasAnon(st, at.v) && p !in st.pages {
      var st' := MapNew(st, at, p);
      OwnLeads(st, at, true);
      forall b ensures EntryOk(st', b) {
        assert EntryOk(st, b);
        if b in st.entries && st.entries[b].Swapped? { assert CacheOk(st, st.entries[b].slot, 0); }
      }
      forall b, c ensures SlotOk(st', b, c) { assert SlotOk(st, b, c); }
      forall s, t ensures CacheOk(st', s, t) { assert CacheOk(st, s, t); }
      forall d ensures ForkedOk(st', d) { assert ForkedOk(st, d); }
    }
  }

  lemma CopyEntryKeeps(st: State, dst: nat, index: nat, copy: Option<nat>)
    requires Complete(st)
    ensures Complete(CopyEntry(st, dst, index, copy))
  {
    hide Inv, MapNew;
    if dst in st.forks {
      var from, to := Place(st.forks[dst], index), Place(dst, index);
      if copy.Some? { MapNewKeeps(st, to, copy.value); }
      if from in st.entries && to !in st.entries && !(st.entries[from].Mapped? && copy.Some?) {
        var st' := CopyEntry(st, dst, index, copy);
        assert EntryOk(st, from) && ForkedOk(st, dst);
        forall b ensures EntryOk(st', b) { assert EntryOk(st, b); }
        forall b, c ensures SlotOk(st', b, c) {
          assert SlotOk(st, b, c) && SlotOk(st, from, c) && SlotOk(st, b, from);
        }
        forall s, t ensures CacheOk(st', s, t) { assert CacheOk(st, s, t); }
        forall d ensures ForkedOk(st', d) { assert ForkedOk(st, d); }
      }
    }
  }

  /** A change of what pages name is harmless if no other entry depends on it. */
  lemma RenameKeeps(st: State, at: Place, p: nat, a: Anon, e: Entry)
    requires Complete(st) && p in st.pages && HasAnon(st, at.v) && at in st.entries && Leads(st, a, at)
    requires e == Mapped(p)
    requires forall b :: b in st.entries && b != at ==> st.entries[b] != Mapped(p)
    requires forall b, s ::
      b in st.entries && b != at && st.entries[b] == Swapped(s) && s in st.cache && st.cache[s] == p ==> Leads(st, a, b)
    ensures Complete(st.(pages := st.pages[p := Some(a)], entries := st.entries[at := e]))
  {
    hide Inv;
    var st' := st.(pages := st.pages[p := Some(a)], entries := st.entries[at := e]);
    forall b ensures EntryOk(st', b) { assert EntryOk(st, b); }
    forall b, c ensures SlotOk(st', b, c) { assert SlotOk(st, b, c); }
    forall s, t ensures CacheOk(st', s, t) { assert CacheOk(st, s, t); }
    forall d ensures ForkedOk(st', d) { assert ForkedOk(st, d); }
  }

  lemma MoveAnonKeeps(st: State, at: Place)
    requires Complete(st)
    ensures Complete(MoveAnon(st, at))
  {
    hide Inv;
    if HasAnon(st, at.v) && OnlyEntry(st, at) && st.entries[at].Mapped? && st.entries[at].page in st.pages
       && !Cached(st, st.entries[at].page)
    {
      var p := st.entries[at].page;
      assert EntryOk(st, at);
      OwnLeads(st, at, true);
      var a := Anon(Vmas(st)[at.v].anon.value, at.index);
      assert Leads(st, a, at);
      RenameKeeps(st, at, p, a, Mapped(p));
      assert st.entries[at := Mapped(p)] == st.entries;
    }
  }

  lemma AddToSwapKeeps(st: State, p: nat, s0: nat)
    requires Complete(st)
    ensures Complete(AddToSwap(st, p, s0))
  {
    hide Inv;
    var st' := AddToSwap(st, p, s0);
    forall b ensures EntryOk(st', b) { assert EntryOk(st, b); }
    forall b, c ensures SlotOk(st', b, c) { assert SlotOk(st, b, c); }
    forall s, t ensures CacheOk(st', s, t) { assert CacheOk(st, s, t) && CacheOk(st, t, s); }
    forall d ensures ForkedOk(st', d) { assert ForkedOk(st, d); }
  }

  lemma UnmapKeeps(st: State, at: Place, s0: nat)
    requires Complete(st)
    ensures Complete(Unmap(st, at, s0))
  {
    hide Inv, Oldest;
    if at in st.entries && s0 in st.cache && st.entries[at] == Mapped(st.cache[s0]) {
      var st' := Unmap(st, at, s0);
      assert EntryOk(st, at);
      forall b ensures EntryOk(st', b) { assert EntryOk(st, b); }
      forall b, c ensures SlotOk(st', b, c) {
        assert SlotOk(st, b, c);
        SlotMate(st, at, s0, b);
        SlotMate(st, at, s0, c);
        SameOldest(st, st', b.v);
        SameOldest(st, st', c.v);
      }
      forall s, t ensures CacheOk(st', s, t) { assert CacheOk(st, s, t); }
      forall d ensures ForkedOk(st', d) {
        assert ForkedOk(st, d);
        SameOldest(st, st', d);
        if d in st.forks { SameOldest(st, st', st.forks[d]); }
      }
    }
  }

  lemma SameOldest(st: State, st': State, v: nat)
    requires st'.forest == st.forest
    ensures Oldest(st', v) == Oldest(st, v)
  {
  }

  /** A holder of the slot of a cached page shares root and index with one that maps the page. */
  lemma SlotMate(st: State, at: Place, s0: nat, b: Place)
    requires Complete(st) && at in st.entries && s0 in st.cache && st.entries[at] == Mapped(st.cache[s0])
    ensures b in st.entries && st.entries[b] == Swapped(s0) ==>
      b.index == at.index && Oldest(st, b.v) == Oldest(st, at.v)
  {
    hide Inv;
    assert EntryOk(st, at) && EntryOk(st, b);
    if b in st.entries && st.entries[b] == Swapped(s0) {
      SharedRoot(st, st.pages[st.cache[s0]].value.av, b.v, at.v);
    }
  }

  lemma ReadSwapKeeps(st: State, s0: nat, p: nat)
    requires Complete(st)
    ensures Complete(ReadSwap(st, s0, p))
  {
    hide Inv;
    var st' := ReadSwap(st, s0, p);
    forall b ensures EntryOk(st', b) {
      assert EntryOk(st, b);
      if b in st.entries && st.entries[b].Swapped? { assert CacheOk(st, st.entries[b].slot, 0); }
    }
    forall b, c ensures SlotOk(st', b, c) { assert SlotOk(st, b, c); }
    forall s, t ensures CacheOk(st', s, t) { assert CacheOk(st, s, t) && CacheOk(st, t, s); }
    forall d ensures ForkedOk(st', d) { assert ForkedOk(st, d); }
  }

  lemma SwapInKeeps(st: State, at: Place, exclusive: bool)
    requires Complete(st)
    ensures Complete(SwapIn(st, at, exclusive))
  {
    hide Inv;
    if HasAnon(st, at.v) && at in st.entries && st.entries[at].Swapped? && st.entries[at].slot in st.cache
       && (exclusive ==> OnlyEntry(st, at)) && st.cache[st.entries[at].slot] in st.pages
    {
      var s := st.entries[at].slot;
      var p := st.cache[s];
      assert EntryOk(st, at);
      if st.pages[p].None? {
        var a := SetAnon(st, at, exclusive);
        OwnLeads(st, at, exclusive);
        forall b | b in st.entries && b != at ensures st.entries[b] != Mapped(p) { assert EntryOk(st, b); }
        forall b, t | b in st.entries && b != at && st.entries[b] == Swapped(t) && t in st.cache && st.cache[t] == p
          ensures Leads(st, a, b)
        {
          assert CacheOk(st, s, t) && EntryOk(st, b) && SlotOk(st, at, b);
          OwnLeads(st, b, false);
        }
        RenameKeeps(st, at, p, a, Mapped(p));
      } else {
        MapAgainKeeps(st, at);
      }
    }
  }

  /** Mapping a page of the swap cache that already names an anon_vma. */
  lemma MapAgainKeeps(st: State, at: Place)
    requires Complete(st) && at in st.entries && st.entries[at].Swapped? && st.entries[at].slot in st.cache
    requires var p := st.cache[st.entries[at].slot]; p in st.pages && st.pages[p].Some?
    ensures Complete(st.(entries := st.entries[at := Mapped(st.cache[st.entries[at].slot])]))
  {
    hide Inv;
    var st' := st.(entries := st.entries[at := Mapped(st.cache[st.entries[at].slot])]);
    assert EntryOk(st, at);
    forall b ensures EntryOk(st', b) { assert EntryOk(st, b); }
    forall b, c ensures SlotOk(st', b, c) { assert SlotOk(st, b, c); }
    forall s, t ensures CacheOk(st', s, t) { assert CacheOk(st, s, t); }
    forall d ensures ForkedOk(st', d) { assert ForkedOk(st, d); }
  }

  /** Taking away entries, slots and unused pages loses nothing. */
  lemma LessKeeps(st: State, st': State)
    requires Complete(st) && st'.forest == st.forest
    requires forall b :: b in st'.entries ==> b in st.entries && st'.entries[b] == st.entries[b]
    requires forall s :: s in st'.cache ==> s in st.cache && st'.cache[s] == st.cache[s] && st'.cache[s] in st'.pages
    requires forall p :: p in st'.pages ==> p in st.pages && st'.pages[p] == st.pages[p]
    requires forall b :: b in st'.entries && st'.entries[b].Mapped? ==> st'.entries[b].page in st'.pages
    requires forall d :: d in st'.forks ==> d in st.forks && st'.forks[d] == st.forks[d]
    ensures Complete(st')
  {
    hide Inv;
    forall b ensures EntryOk(st', b) { assert EntryOk(st, b); }
    forall b, c ensures SlotOk(st', b, c) { assert SlotOk(st, b, c); }
    forall s, t ensures CacheOk(st', s, t) { assert CacheOk(st, s, t); }
    forall d ensures ForkedOk(st', d) { assert ForkedOk(st, d); }
  }

  lemma TakeAwayKeeps(st: State, move: Move)
    requires Complete(st)
    requires move.MEndFork? || move.MFreeSwap? || move.MReclaim? || move.MFreePage? || move.MZap?
    ensures Complete(Advance(st, move))
  {
    hide Inv;
    forall b ensures b in st.entries && st.entries[b].Mapped? ==> st.entries[b].page in st.pages {
      assert EntryOk(st, b);
    }
    forall s ensures s in st.cache ==> st.cache[s] in st.pages { assert CacheOk(st, s, 0); }
    if move.MReclaim? && move.s in st.cache {
      forall t | t in st.cache && t != move.s ensures st.cache[t] != st.cache[move.s] { assert CacheOk(st, move.s, t); }
    }
    LessKeeps(st, Advance(st, move));
  }

  lemma AdvanceKeeps(st: State, move: Move)
    requires Complete(st)
    ensures Complete(Advance(st, move))
  {
    hide Complete, ForestStep, Split, BeginFork, CopyEntry, MapNew, MoveAnon, AddToSwap, Unmap, ReadSwap, SwapIn;
    match move
    case MForest(step) => ForestStepKeeps(st, step);
    case MSplit(dst, src, budget, pivot) => SplitKeeps(st, dst, src, budget, pivot);
    case MFork(dst, src, budget, np, avOk, avcOk) => BeginForkKeeps(st, dst, src, budget, np, avOk, avcOk);
    case MCopy(dst, index, copy) => CopyEntryKeeps(st, dst, index, copy);
    case MFault(at, p) => MapNewKeeps(st, at, p);
    case MWriteCopy(at, p) => MapNewKeeps(st, at, p);
    case MMoveAnon(at) => MoveAnonKeeps(st, at);
    case MAddToSwap(p, s) => AddToSwapKeeps(st, p, s);
    case MUnmap(at, s) => UnmapKeeps(st, at, s);
    case MReadSwap(s, p) => ReadSwapKeeps(st, s, p);
    case MSwapIn(at, exclusive) => SwapInKeeps(st, at, exclusive);
    case MDirectSwapIn(at, p) => MapNewKeeps(st, at, p);
    case _ => TakeAwayKeeps(st, move);
  }

  lemma {:induction false} PlayKeeps(st: State, moves: seq<Move>)
    requires Complete(st)
    ensures Complete(Play(st, moves))
    decreases |moves|
  {
    hide Complete, Advance;
    if moves != [] {
      AdvanceKeeps(st, moves[0]);
      PlayKeeps(Advance(st, moves[0]), moves[1..]);
    }
  }

  // ----------------------------------------------------------------- the theorem

  /** The page indexes that a vma covers, as the interval tree has them. */
  datatype Extent = Extent(start: nat, end: nat)

  predicate Covers(e: Extent, index: nat) {
    e.start <= index < e.end
  }

  /** What rmap_walk_anon visits for a page: the page's index in every vma that covers it and is
      in the tree of the anon_vma that the page names. */
  function Walk(st: State, extent: nat -> Extent, p: nat): set<Place> {
    if p in st.pages && st.pages[p].Some? && st.pages[p].value.av in st.forest.avs
    then
      var a := st.pages[p].value;
      set v | v in st.forest.avs[a.av].tree && Covers(extent(v), a.index) :: Place(v, a.index)
    else {}
  }

  /** In every reachable state the walk visits every mapping of the page and, while the page is
      in the swap cache and names an anon_vma, every swap entry for it; vmas may cover what they
      like as long as an entry lies in its own vma. */
  lemma WalkFindsAll(moves: seq<Move>, extent: nat -> Extent, at: Place)
    requires at in Play(START, moves).entries && Covers(extent(at.v), at.index)
    ensures
      var st := Play(START, moves);
      match st.entries[at]
      case Mapped(p) => at in Walk(st, extent, p)
      case Swapped(s) =>
        s in st.cache && st.cache[s] in st.pages && st.pages[st.cache[s]].Some? ==> at in Walk(st, extent, st.cache[s])
  {
    var st := Play(START, moves);
    BootOk();
    StartComplete();
    PlayKeeps(START, moves);
    assert EntryOk(st, at);
    match st.entries[at]
    case Mapped(p) => InTree(st, extent, p, at);
    case Swapped(s) =>
      if s in st.cache && st.cache[s] in st.pages && st.pages[st.cache[s]].Some? {
        InTree(st, extent, st.cache[s], at);
      }
  }

  lemma StartComplete()
    ensures Complete(START)
  {
    BootOk();
    hide Inv;
  }

  lemma InTree(st: State, extent: nat -> Extent, p: nat, at: Place)
    requires Complete(st) && p in st.pages && st.pages[p].Some? && Leads(st, st.pages[p].value, at)
    requires Covers(extent(at.v), at.index)
    ensures at in Walk(st, extent, p)
  {
    assert LinkOk(st.forest, st.pages[p].value.av, at.v);
  }

  // ------------------------------------------------------------- what pages name

  /** p is named for the first time in this step, for the place at. */
  ghost predicate NamedFor(st: State, st': State, p: nat, at: Place) {
    && at in st'.entries && st'.entries[at] == Mapped(p) && HasAnon(st, at.v)
    && p in st'.pages && st'.pages[p].Some? && st'.pages[p].value.index == at.index
  }

  /** A page gets its name when it is first mapped: the vma's own anon_vma, or the oldest of its
      chain if it was swapped in and may be shared. */
  ghost predicate NewName(st: State, move: Move, st': State, p: nat) {
    p in st'.pages && st'.pages[p].Some? && (p !in st.pages || st.pages[p].None?) ==>
      exists at ::
        && NamedFor(st, st', p, at)
        && st'.pages[p].value.av
           == if move.MSwapIn? && !move.exclusive then Oldest(st, at.v) else Vmas(st)[at.v].anon.value
  }

  /** It keeps the name until the page is reused. */
  ghost predicate OldName(st: State, move: Move, st': State, p: nat) {
    p in st'.pages && p in st.pages && st.pages[p].Some? && st'.pages[p] != st.pages[p] ==>
      && move.MMoveAnon? && move.at in st.entries && st.entries[move.at] == Mapped(p) && HasAnon(st, move.at.v)
      && st'.pages[p] == Some(Anon(Vmas(st)[move.at.v].anon.value, st.pages[p].value.index))
  }

  lemma MapNewNames(st: State, at: Place, p: nat, q: nat)
    requires Complete(st)
    ensures
      var st' := MapNew(st, at, p);
      && (q in st'.pages && st'.pages[q].Some? && (q !in st.pages || st.pages[q].None?) ==>
            NamedFor(st, st', q, at) && st'.pages[q].value.av == Vmas(st)[at.v].anon.value)
      && (q in st.pages ==> q in st'.pages && st'.pages[q] == st.pages[q])
  {
    hide Complete;
  }

  lemma SwapInNames(st: State, at: Place, exclusive: bool, q: nat)
    requires Complete(st)
    ensures
      var st' := SwapIn(st, at, exclusive);
      && (q in st'.pages && st'.pages[q].Some? && (q !in st.pages || st.pages[q].None?) ==>
            && NamedFor(st, st', q, at)
            && st'.pages[q].value.av == if !exclusive then Oldest(st, at.v) else Vmas(st)[at.v].anon.value)
      && (q in st.pages && st.pages[q].Some? ==> q in st'.pages && st'.pages[q] == st.pages[q])
  {
    if HasAnon(st, at.v) { OwnLeads(st, at, exclusive); }
    hide Complete, Oldest, OnlyEntry;
  }

  predicate Maps(move: Move) {
    move.MCopy? || move.MFault? || move.MWriteCopy? || move.MDirectSwapIn?
  }

  lemma MappingNames(st: State, move: Move, p: nat)
    requires Complete(st) && Maps(move)
    ensures NewName(st, move, Advance(st, move), p) && OldName(st, move, Advance(st, move), p)
  {
    hide Complete, MapNew, NamedFor, Oldest;
    match move
    case MCopy(dst, index, copy) => if copy.Some? { MapNewNames(st, Place(dst, index), copy.value, p); }
    case MFault(at, q) => MapNewNames(st, at, q, p);
    case MWriteCopy(at, q) => MapNewNames(st, at, q, p);
    case MDirectSwapIn(at, q) => MapNewNames(st, at, q, p);
  }

  /** What every move does to the name of a page, in every reachable state. */
  lemma NamingIsExact(moves: seq<Move>, move: Move, p: nat)
    ensures
      var st := Play(START, moves);
      var st' := Advance(st, move);
      && (p in st'.pages && st'.pages[p].Some? && (p !in st.pages || st.pages[p].None?) ==>
            exists at ::
              && NamedFor(st, st', p, at)
              && st'.pages[p].value.av
                 == if move.MSwapIn? && !move.exclusive then Oldest(st, at.v) else Vmas(st)[at.v].anon.value)
      && (p in st'.pages && p in st.pages && st.pages[p].Some? && st'.pages[p] != st.pages[p] ==>
            && move.MMoveAnon? && move.at in st.entries && st.entries[move.at] == Mapped(p) && HasAnon(st, move.at.v)
            && st'.pages[p] == Some(Anon(Vmas(st)[move.at.v].anon.value, st.pages[p].value.index)))
  {
    StartComplete();
    PlayKeeps(START, moves);
    var st := Play(START, moves);
    hide Play, Complete;
    MoveNames(st, move, p);
    hide Advance, NamedFor, Oldest;
  }

  lemma MoveNames(st: State, move: Move, p: nat)
    requires Complete(st)
    ensures NewName(st, move, Advance(st, move), p) && OldName(st, move, Advance(st, move), p)
  {
    if Maps(move) {
      hide *;
      MappingNames(st, move, p);
    } else {
      hide Complete, NamedFor, Oldest, Clone, Fork, Split, SwapIn, OnlyEntry;
      match move
      case MSwapIn(at, exclusive) => SwapInNames(st, at, exclusive, p);
      case MSplit(dst, src, budget, pivot) => SplitPages(st, dst, src, budget, pivot);
      case MMoveAnon(at) => MoveAnonNames(st, at, p);
      case _ =>
    }
  }

  lemma MoveAnonNames(st: State, at: Place, p: nat)
    requires Complete(st)
    ensures var st' := MoveAnon(st, at);
      && st'.pages.Keys == st.pages.Keys
      && (p in st.pages && st'.pages[p] != st.pages[p] ==>
            && at in st.entries && st.entries[at] == Mapped(p) && HasAnon(st, at.v) && st.pages[p].Some?
            && st'.pages[p] == Some(Anon(Vmas(st)[at.v].anon.value, st.pages[p].value.index)))
  {
    assert EntryOk(st, at);
    hide Complete, Leads;
  }

  lemma SplitPages(st: State, dst: nat, src: nat, budget: nat, pivot: nat)
    ensures Split(st, dst, src, budget, pivot).pages == st.pages
  {
    hide Clone;
  }
}
