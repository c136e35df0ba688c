/** What every state of the private-memory machine satisfies, and that each small operation
    keeps it. */
module PrivateMemoryInvariant {
  import opened Wrappers
  import opened PrivateMemory

  // ---------------------------------------------------------------- counting

  predicate Maps(e: Pte, p: nat) {
    e.Present? && e.page == p
  }

  predicate Refers(e: Pte, s: nat) {
    e.Swap? && e.slot == s
  }

  /** The entries that map folio p. */
  function Mappers(ptes: map<Addr, Pte>, p: nat): set<Addr> {
    set a | a in ptes && Maps(ptes[a], p)
  }

  /** The swap entries that name slot s. */
  function SwapRefs(ptes: map<Addr, Pte>, s: nat): set<Addr> {
    set a | a in ptes && Refers(ptes[a], s)
  }

  function AnonOf(ptes: map<Addr, Pte>, mm: nat): set<Addr> {
    set a | a in ptes && a.mm == mm && ptes[a].Present?
  }

  function SwapOf(ptes: map<Addr, Pte>, mm: nat): set<Addr> {
    set a | a in ptes && a.mm == mm && ptes[a].Swap?
  }

  function Bit(b: bool): int {
    if b then 1 else 0
  }

  lemma SameButOne<T>(S: set<T>, S': set<T>, a: T)
    requires S - {a} == S' - {a}
    ensures |S'| == |S| + Bit(a in S') - Bit(a in S)
  {
    assert |S| == |S - {a}| + Bit(a in S) by {
      if a in S { assert S == (S - {a}) + {a}; } else { assert S == S - {a}; }
    }
    assert |S'| == |S' - {a}| + Bit(a in S') by {
      if a in S' { assert S' == (S' - {a}) + {a}; } else { assert S' == S' - {a}; }
    }
  }

  /** Changing one entry changes each count by what the entry was and what it becomes. */
  lemma CountUpdate(ptes: map<Addr, Pte>, a: Addr, e: Pte)
    ensures forall p: nat ::
      |Mappers(ptes[a := e], p)| == |Mappers(ptes, p)| + Bit(Maps(e, p)) - Bit(Maps(EntryAt(ptes, a), p))
    ensures forall s: nat ::
      |SwapRefs(ptes[a := e], s)| == |SwapRefs(ptes, s)| + Bit(Refers(e, s)) - Bit(Refers(EntryAt(ptes, a), s))
    ensures forall mm: nat ::
      |AnonOf(ptes[a := e], mm)|
      == |AnonOf(ptes, mm)| + Bit(a.mm == mm && e.Present?) - Bit(a.mm == mm && EntryAt(ptes, a).Present?)
    ensures forall mm: nat ::
      |SwapOf(ptes[a := e], mm)|
      == |SwapOf(ptes, mm)| + Bit(a.mm == mm && e.Swap?) - Bit(a.mm == mm && EntryAt(ptes, a).Swap?)
  {
    var q := ptes[a := e];
    forall p: nat ensures |Mappers(q, p)| == |Mappers(ptes, p)| + Bit(Maps(e, p)) - Bit(Maps(EntryAt(ptes, a), p)) {
      SameButOne(Mappers(ptes, p), Mappers(q, p), a);
    }
    forall s: nat
      ensures |SwapRefs(q, s)| == |SwapRefs(ptes, s)| + Bit(Refers(e, s)) - Bit(Refers(EntryAt(ptes, a), s))
    {
      SameButOne(SwapRefs(ptes, s), SwapRefs(q, s), a);
    }
    forall mm: nat
      ensures |AnonOf(q, mm)|
        == |AnonOf(ptes, mm)| + Bit(a.mm == mm && e.Present?) - Bit(a.mm == mm && EntryAt(ptes, a).Present?)
    {
      SameButOne(AnonOf(ptes, mm), AnonOf(q, mm), a);
    }
    forall mm: nat
      ensures |SwapOf(q, mm)|
        == |SwapOf(ptes, mm)| + Bit(a.mm == mm && e.Swap?) - Bit(a.mm == mm && EntryAt(ptes, a).Swap?)
    {
      SameButOne(SwapOf(ptes, mm), SwapOf(q, mm), a);
    }
  }

  // --------------------------------------------------------------- invariant

  predicate IsExclusive(st: State, p: nat) {
    p in st.folios && st.folios[p].anonExclusive
  }

  /** A writable entry maps an exclusive folio.  An exclusive swap entry is its slot's only
      reference, and the folio cached for it is neither mapped nor being copied. */
  ghost predicate PteOk(st: State, a: Addr) {
    match PteAt(st, a)
    case Empty => true
    case ZeroPage => true
    case Present(p, w) => p in st.folios && (w ==> st.folios[p].anonExclusive)
    case Swap(s, e) =>
      && s in st.slots
      && (e ==> st.slots[s].count == 1)
      && (e && s in st.cache && st.cache[s] in st.folios ==>
            st.folios[st.cache[s]].mapcount == 0 && !HasCopier(st.folios[st.cache[s]]))
  }

  /** Counts are exact; an exclusive folio has one mapping at most and is not being copied;
      a pinned folio is exclusive. */
  ghost predicate FolioOk(st: State, p: nat) {
    p in st.folios ==>
      var f := st.folios[p];
      && f.mapcount == |Mappers(st.ptes, p)|
      && f.refs == f.mapcount + Bit(f.swap.Some?) + |f.holders|
      && f.refs > 0
      && (f.swap.Some? ==> f.swap.value in st.cache && st.cache[f.swap.value] == p)
      && (f.writeback ==> f.swap.Some?)
      && (HasGup(f) ==> f.anonExclusive)
      && (f.anonExclusive ==> f.mapcount <= 1 && !HasCopier(f))
  }

  ghost predicate SlotOk(st: State, s: nat) {
    s in st.slots ==>
      st.slots[s].count == |SwapRefs(st.ptes, s)|
  }

  /** The slot's copy is current unless the folio is dirty or being written; on a device that
      needs stable pages a folio under writeback cannot change; nobody can swap in a folio
      that is exclusive. */
  ghost predicate CacheOk(st: State, s: nat) {
    s in st.cache ==>
      && s in st.slots
      && s !in st.direct
      && st.cache[s] in st.folios
      && var f := st.folios[st.cache[s]];
      && f.swap == Some(s)
      && (!f.dirty && !f.writeback ==> st.slots[s].data == f.data)
      && (f.anonExclusive ==> st.slots[s].count == 0)
      && (f.writeback && st.slots[s].stableWrites ==>
            !f.dirty && (f.anonExclusive ==> f.mapcount == 0 && !HasGup(f)))
  }

  /** The folio being copied is held and shared, and what was copied is still its contents. */
  ghost predicate CopyOk(st: State, t: nat) {
    t in st.copies ==>
      var c := st.copies[t];
      match c.orig
      case ZeroPage => c.copied.Some? ==> c.copied.value == Zeros()
      case Present(p, w) =>
        && !w
        && p in st.folios
        && Copier(t) in st.folios[p].holders
        && (c.copied.Some? ==> c.copied.value == st.folios[p].data)
      case _ => false
  }

  /** A copier's reference belongs to a copy of that folio. */
  ghost predicate HolderOk(st: State, p: nat, t: nat) {
    p in st.folios && Copier(t) in st.folios[p].holders ==>
      t in st.copies && Maps(st.copies[t].orig, p)
  }

  ghost predicate DirectOk(st: State, s: nat) {
    s in st.direct ==> s in st.slots && st.slots[s].data == st.direct[s]
  }

  ghost predicate CountersOk(st: State, mm: nat) {
    && Counter(st.anonPages, mm) == |AnonOf(st.ptes, mm)|
    && Counter(st.swapEnts, mm) == |SwapOf(st.ptes, mm)|
  }

  ghost predicate Inv(st: State) {
    && (forall a :: PteOk(st, a))
    && (forall p :: FolioOk(st, p))
    && (forall s :: SlotOk(st, s))
    && (forall s :: CacheOk(st, s))
    && (forall t :: CopyOk(st, t))
    && (forall p, t :: HolderOk(st, p, t))
    && (forall s :: DirectOk(st, s))
    && (forall mm :: CountersOk(st, mm))
  }

  lemma MappedCounts(st: State, a: Addr)
    requires forall p :: FolioOk(st, p)
    requires PteAt(st, a).Present? && PteAt(st, a).page in st.folios
    ensures st.folios[PteAt(st, a).page].mapcount >= 1
  {
    var p := PteAt(st, a).page;
    assert FolioOk(st, p);
    assert a in Mappers(st.ptes, p);
  }

  lemma OnlyMapper(st: State, a: Addr, b: Addr)
    requires forall p :: FolioOk(st, p)
    requires PteAt(st, a).Present? && Maps(PteAt(st, b), PteAt(st, a).page)
    requires PteAt(st, a).page in st.folios && st.folios[PteAt(st, a).page].mapcount <= 1
    ensures a == b
  {
    var p := PteAt(st, a).page;
    assert FolioOk(st, p);
    if a != b {
      assert {a, b} <= Mappers(st.ptes, p);
      SetSizes({a, b}, Mappers(st.ptes, p));
    }
  }

  lemma OnlyReference(st: State, a: Addr, b: Addr)
    requires forall s :: SlotOk(st, s)
    requires PteAt(st, a).Swap? && Refers(PteAt(st, b), PteAt(st, a).slot)
    requires PteAt(st, a).slot in st.slots && st.slots[PteAt(st, a).slot].count <= 1
    ensures a == b
  {
    var s := PteAt(st, a).slot;
    assert SlotOk(st, s);
    if a != b {
      assert {a, b} <= SwapRefs(st.ptes, s);
      SetSizes({a, b}, SwapRefs(st.ptes, s));
    }
  }

  lemma SetSizes<T>(A: set<T>, B: set<T>)
    requires A <= B
    ensures |A| <= |B|
  {
    assert B == A + (B - A);
  }

  lemma ReferencedCounts(st: State, a: Addr)
    requires forall s :: SlotOk(st, s)
    requires PteAt(st, a).Swap? && PteAt(st, a).slot in st.slots
    ensures st.slots[PteAt(st, a).slot].count >= 1
  {
    var s := PteAt(st, a).slot;
    assert SlotOk(st, s);
    assert a in SwapRefs(st.ptes, s);
  }

  lemma NoMappers(st: State, p: nat)
    requires (forall a :: PteOk(st, a)) && p !in st.folios
    ensures |Mappers(st.ptes, p)| == 0
  {
    forall x | x in st.ptes ensures !Maps(st.ptes[x], p) {
      assert PteOk(st, x);
    }
    assert Mappers(st.ptes, p) == {};
  }

  lemma NoReferences(st: State, s: nat)
    requires (forall a :: PteOk(st, a)) && s !in st.slots
    ensures |SwapRefs(st.ptes, s)| == 0
  {
    forall x | x in st.ptes ensures !Refers(st.ptes[x], s) {
      assert PteOk(st, x);
    }
    assert SwapRefs(st.ptes, s) == {};
  }

  /** The entry at b does not claim to be the only way to folio p. */
  ghost predicate Lonely(st: State, b: Addr, p: nat) {
    PteAt(st, b).Swap? && PteAt(st, b).exclusive && PteAt(st, b).slot in st.cache ==>
      st.cache[PteAt(st, b).slot] != p
  }

  /** When a mapped folio may be marked exclusive. */
  ghost predicate CanBeExclusive(st: State, p: nat) {
    && p in st.folios
    && st.folios[p].mapcount <= 1
    && !HasCopier(st.folios[p])
    && (st.folios[p].swap.Some? && st.folios[p].swap.value in st.slots ==>
          && st.slots[st.folios[p].swap.value].count == 0
          && !(st.folios[p].writeback && st.slots[st.folios[p].swap.value].stableWrites))
  }

  /** When a swap entry may be marked exclusive. */
  ghost predicate CanMarkExclusive(st: State, s: nat) {
    && s in st.slots
    && st.slots[s].count == 1
    && (s in st.cache && st.cache[s] in st.folios ==>
          st.folios[st.cache[s]].mapcount == 0 && !HasCopier(st.folios[st.cache[s]]))
  }

  // ------------------------------------------------- each operation keeps it

  lemma SetPteKeeps(st: State, a: Addr, e: Pte)
    requires Inv(st)
    requires PteAt(st, a).Empty? || PteAt(st, a).ZeroPage?
    requires e.Empty? || e.ZeroPage?
    ensures Inv(SetPte(st, a, e))
  {
    var st' := SetPte(st, a, e);
    CountUpdate(st.ptes, a, e);
    hide Mappers, SwapRefs, AnonOf, SwapOf, Zeros;
    forall b ensures PteOk(st', b) { assert PteOk(st, b); }
    forall p ensures FolioOk(st', p) { assert FolioOk(st, p); }
    forall s ensures SlotOk(st', s) { assert SlotOk(st, s); }
    forall s ensures CacheOk(st', s) { assert CacheOk(st, s); }
    forall t ensures CopyOk(st', t) { assert CopyOk(st, t); }
    forall p, t ensures HolderOk(st', p, t) { assert HolderOk(st, p, t); }
    forall s ensures DirectOk(st', s) { assert DirectOk(st, s); }
    forall mm ensures CountersOk(st', mm) { assert CountersOk(st, mm); }
  }

  lemma SoleHolder(S: set<Holder>, h: Holder)
    requires h in S && |S| <= 1
    ensures S == {h}
  {
    forall x | x in S ensures x == h {
      SetSizes({h, x}, S);
    }
  }

  /** Changing only a folio's flags, holders and count of extra references. */
  lemma SetFolioKeeps(st: State, p0: nat, f: Folio)
    requires Inv(st)
    requires p0 in st.folios
    requires var g := st.folios[p0];
      && f.data == g.data && f.mapcount == g.mapcount && f.anonExclusive == g.anonExclusive && f.swap == g.swap
      && f.refs - |f.holders| == g.refs - |g.holders|
      && f.refs > 0
      && (HasCopier(f) ==> HasCopier(g))
      && (forall t :: Copier(t) in f.holders <==> Copier(t) in g.holders)
      && (HasGup(f) && !HasGup(g) ==> f.anonExclusive && f.mapcount > 0)
      && ((f.dirty == g.dirty && f.writeback == g.writeback)
          || (f.swap.Some? && f.mapcount == 0 && f.holders == {} && !f.dirty && f.writeback))
    ensures Inv(st.(folios := st.folios[p0 := f]))
  {
    var st' := st.(folios := st.folios[p0 := f]);
    hide Mappers, SwapRefs, AnonOf, SwapOf, Zeros;
    forall b ensures PteOk(st', b) { assert PteOk(st, b); }
    forall p ensures FolioOk(st', p) { assert FolioOk(st, p); }
    forall s ensures SlotOk(st', s) { assert SlotOk(st, s); }
    forall s ensures CacheOk(st', s) { assert CacheOk(st, s); }
    forall t ensures CopyOk(st', t) { assert CopyOk(st, t); }
    forall p, t ensures HolderOk(st', p, t) { assert HolderOk(st, p, t); }
    forall s ensures DirectOk(st', s) { assert DirectOk(st, s); }
    forall mm ensures CountersOk(st', mm) { assert CountersOk(st, mm); }
  }

  lemma GetRefKeeps(st: State, p0: nat, h: Holder)
    requires Inv(st)
    requires h.Transient? || (h.Gup? && IsExclusive(st, p0) && st.folios[p0].mapcount > 0)
    ensures Inv(GetRef(st, p0, h))
  {
    if p0 in st.folios && h !in st.folios[p0].holders {
      var f := st.folios[p0];
      assert FolioOk(st, p0);
      SetFolioKeeps(st, p0, f.(refs := f.refs + 1, holders := f.holders + {h}));
    }
  }

  lemma StartWritebackKeeps(st: State, p0: nat)
    requires Inv(st)
    ensures Inv(StartWriteback(st, p0))
  {
    if StartWriteback(st, p0) != st {
      assert FolioOk(st, p0);
      SetFolioKeeps(st, p0, st.folios[p0].(dirty := false, writeback := true));
    }
  }

  lemma FreeFolioKeeps(st: State, p0: nat)
    requires Inv(st)
    requires p0 in st.folios
    requires st.folios[p0].mapcount == 0 && st.folios[p0].swap.None? && !HasCopier(st.folios[p0])
    ensures Inv(st.(folios := st.folios - {p0}))
  {
    var st' := st.(folios := st.folios - {p0});
    hide Mappers, SwapRefs, AnonOf, SwapOf, Zeros;
    forall b ensures PteOk(st', b) { assert PteOk(st, b); if Maps(PteAt(st, b), p0) { MappedCounts(st, b); } }
    forall p ensures FolioOk(st', p) { assert FolioOk(st, p); }
    forall s ensures SlotOk(st', s) { assert SlotOk(st, s); }
    forall s ensures CacheOk(st', s) { assert CacheOk(st, s); }
    forall t ensures CopyOk(st', t) { assert CopyOk(st, t); }
    forall p, t ensures HolderOk(st', p, t) { assert HolderOk(st, p, t); }
    forall s ensures DirectOk(st', s) { assert DirectOk(st, s); }
    forall mm ensures CountersOk(st', mm) { assert CountersOk(st, mm); }
  }

  lemma PutRefKeeps(st: State, p0: nat, h: Holder)
    requires Inv(st)
    requires !h.Copier?
    ensures Inv(PutRef(st, p0, h))
  {
    if p0 in st.folios && h in st.folios[p0].holders {
      var f := st.folios[p0];
      assert FolioOk(st, p0);
      if f.refs == 1 {
        SetSizes({h}, f.holders);
        MapcountNotNegative(st, p0);
        SoleHolder(f.holders, h);
        FreeFolioKeeps(st, p0);
      } else {
        SetFolioKeeps(st, p0, f.(refs := f.refs - 1, holders := f.holders - {h}));
      }
    }
  }

  lemma MapcountNotNegative(st: State, p: nat)
    requires FolioOk(st, p) && p in st.folios
    ensures st.folios[p].mapcount >= 0
  {
  }

  lemma SlotReleaseKeeps(st: State, s0: nat)
    requires Inv(st)
    ensures Inv(SlotRelease(st, s0))
  {
    var st' := SlotRelease(st, s0);
    hide Mappers, SwapRefs, AnonOf, SwapOf, Zeros;
    forall b ensures PteOk(st', b) {
      assert PteOk(st, b);
      if Refers(PteAt(st, b), s0) && s0 in st.slots { ReferencedCounts(st, b); }
    }
    forall p ensures FolioOk(st', p) { assert FolioOk(st, p); }
    forall s ensures SlotOk(st', s) { assert SlotOk(st, s); }
    forall s ensures CacheOk(st', s) { assert CacheOk(st, s); }
    forall t ensures CopyOk(st', t) { assert CopyOk(st, t); }
    forall p, t ensures HolderOk(st', p, t) { assert HolderOk(st, p, t); }
    forall s ensures DirectOk(st', s) { assert DirectOk(st, s); }
    forall mm ensures CountersOk(st', mm) { assert CountersOk(st, mm); }
  }

  lemma DropFromCacheKeeps(st: State, p0: nat)
    requires Inv(st)
    requires p0 in st.folios && st.folios[p0].refs > 1 && !st.folios[p0].writeback
    ensures Inv(DropFromCache(st, p0))
  {
    var st' := DropFromCache(st, p0);
    assert FolioOk(st, p0);
    hide Mappers, SwapRefs, AnonOf, SwapOf, Zeros;
    forall b ensures PteOk(st', b) { assert PteOk(st, b); }
    forall p ensures FolioOk(st', p) { assert FolioOk(st, p); }
    forall s ensures SlotOk(st', s) { assert SlotOk(st, s); }
    forall s ensures CacheOk(st', s) { assert CacheOk(st, s); }
    forall t ensures CopyOk(st', t) { assert CopyOk(st, t); }
    forall p, t ensures HolderOk(st', p, t) { assert HolderOk(st, p, t); }
    forall s ensures DirectOk(st', s) { assert DirectOk(st, s); assert CacheOk(st, s); }
    forall mm ensures CountersOk(st', mm) { assert CountersOk(st, mm); }
  }

  lemma MapNewKeeps(st: State, a: Addr, np: nat, d: PageData, w: bool)
    requires Inv(st)
    requires np !in st.folios
    requires PteAt(st, a).Empty? || PteAt(st, a).ZeroPage?
    ensures Inv(MapNew(st, a, np, d, w))
  {
    var st' := MapNew(st, a, np, d, w);
    CountUpdate(st.ptes, a, Present(np, w));
    NoMappers(st, np);
    hide Mappers, SwapRefs, AnonOf, SwapOf, Zeros;
    forall b ensures PteOk(st', b) {
      assert PteOk(st, b);
      if PteAt(st, b).Swap? { assert CacheOk(st, PteAt(st, b).slot); }
    }
    forall p ensures FolioOk(st', p) { assert FolioOk(st, p); }
    forall s ensures SlotOk(st', s) { assert SlotOk(st, s); }
    forall s ensures CacheOk(st', s) { assert CacheOk(st, s); }
    forall t ensures CopyOk(st', t) { assert CopyOk(st, t); }
    forall p, t ensures HolderOk(st', p, t) { assert HolderOk(st, p, t); }
    forall s ensures DirectOk(st', s) { assert DirectOk(st, s); }
    forall mm ensures CountersOk(st', mm) { assert CountersOk(st, mm); }
  }

  lemma MapHeldKeeps(st: State, a: Addr, p0: nat, h: Holder)
    requires Inv(st)
    requires PteAt(st, a).Empty?
    requires p0 in st.folios && h in st.folios[p0].holders && h.Transient?
    requires !st.folios[p0].anonExclusive
    requires forall b :: Lonely(st, b, p0)
    ensures Inv(MapHeld(st, a, p0, h))
  {
    var st' := MapHeld(st, a, p0, h);
    CountUpdate(st.ptes, a, Present(p0, false));
    assert FolioOk(st, p0);
    hide Mappers, SwapRefs, AnonOf, SwapOf, Zeros;
    forall b ensures PteOk(st', b) { assert PteOk(st, b); assert Lonely(st, b, p0); }
    forall p ensures FolioOk(st', p) { assert FolioOk(st, p); }
    forall s ensures SlotOk(st', s) { assert SlotOk(st, s); }
    forall s ensures CacheOk(st', s) { assert CacheOk(st, s); }
    forall t ensures CopyOk(st', t) { assert CopyOk(st, t); }
    forall p, t ensures HolderOk(st', p, t) { assert HolderOk(st, p, t); }
    forall s ensures DirectOk(st', s) { assert DirectOk(st, s); }
    forall mm ensures CountersOk(st', mm) { assert CountersOk(st, mm); }
  }

  lemma UnmapHeldFolios(st: State, a: Addr, h: Holder, p: nat)
    requires Inv(st)
    requires PteAt(st, a).Present? && PteAt(st, a).page in st.folios
    requires h.Transient? && h !in st.folios[PteAt(st, a).page].holders
    ensures FolioOk(UnmapHeld(st, a, h), p)
  {
    CountUpdate(st.ptes, a, Empty);
    MappedCounts(st, a);
    assert FolioOk(st, p);
    hide Mappers, SwapRefs, AnonOf, SwapOf, Zeros, Inv;
  }

  lemma UnmapHeldCaches(st: State, a: Addr, h: Holder, s: nat)
    requires Inv(st)
    requires PteAt(st, a).Present? && PteAt(st, a).page in st.folios
    requires h.Transient? && h !in st.folios[PteAt(st, a).page].holders
    ensures CacheOk(UnmapHeld(st, a, h), s)
  {
    var p := PteAt(st, a).page;
    assert CacheOk(st, s);
    MappedCounts(st, a);
    assert FolioOk(st, p);
    assert HasGup(st.folios[p].(holders := st.folios[p].holders + {h})) ==> HasGup(st.folios[p]);
    hide Mappers, SwapRefs, AnonOf, SwapOf, Zeros, Inv;
  }

  lemma UnmapHeldPtes(st: State, a: Addr, h: Holder, b: Addr)
    requires Inv(st)
    requires PteAt(st, a).Present? && PteAt(st, a).page in st.folios && h.Transient?
    ensures PteOk(UnmapHeld(st, a, h), b)
  {
    assert PteOk(st, b) && FolioOk(st, PteAt(st, a).page);
    MappedCounts(st, a);
    hide Mappers, SwapRefs, AnonOf, SwapOf, Zeros, FolioOk, CacheOk;
  }

  lemma UnmapHeldKeeps(st: State, a: Addr, h: Holder)
    requires Inv(st)
    requires PteAt(st, a).Present? && PteAt(st, a).page in st.folios
    requires h.Transient? && h !in st.folios[PteAt(st, a).page].holders
    ensures Inv(UnmapHeld(st, a, h))
  {
    var st' := UnmapHeld(st, a, h);
    CountUpdate(st.ptes, a, Empty);
    var p0 := PteAt(st, a).page;
    var f := st.folios[p0];
    assert f.anonExclusive ==> f.mapcount <= 1 && !HasCopier(f) by { assert FolioOk(st, p0); }
    MappedCounts(st, a);
    hide Mappers, SwapRefs, AnonOf, SwapOf, Zeros, FolioOk, CacheOk;
    forall p ensures FolioOk(st', p) { UnmapHeldFolios(st, a, h, p); }
    forall b ensures PteOk(st', b) { UnmapHeldPtes(st, a, h, b); }
    forall s ensures SlotOk(st', s) { assert SlotOk(st, s); }
    forall s ensures CacheOk(st', s) { UnmapHeldCaches(st, a, h, s); }
    forall t ensures CopyOk(st', t) { assert CopyOk(st, t); }
    forall p, t ensures HolderOk(st', p, t) { assert HolderOk(st, p, t); }
    forall s ensures DirectOk(st', s) { assert DirectOk(st, s); }
    forall mm ensures CountersOk(st', mm) { assert CountersOk(st, mm); }
  }

  lemma DemoteKeeps(st: State, a: Addr)
    requires Inv(st)
    requires PteAt(st, a).Present? && PteAt(st, a).page in st.folios
    requires !st.folios[PteAt(st, a).page].anonExclusive || !HasGup(st.folios[PteAt(st, a).page])
    ensures Inv(Demote(st, a))
  {
    var st' := Demote(st, a);
    var p0 := PteAt(st, a).page;
    CountUpdate(st.ptes, a, Present(p0, false));
    assert FolioOk(st, p0);
    hide Mappers, SwapRefs, AnonOf, SwapOf, Zeros;
    forall b ensures PteOk(st', b) {
      assert PteOk(st, b);
      if Maps(PteAt(st, b), p0) && IsExclusive(st, p0) { OnlyMapper(st, a, b); }
    }
    forall p ensures FolioOk(st', p) { assert FolioOk(st, p); }
    forall s ensures SlotOk(st', s) { assert SlotOk(st, s); }
    forall s ensures CacheOk(st', s) { assert CacheOk(st, s); }
    forall t ensures CopyOk(st', t) { assert CopyOk(st, t); }
    forall p, t ensures HolderOk(st', p, t) { assert HolderOk(st, p, t); }
    forall s ensures DirectOk(st', s) { assert DirectOk(st, s); }
    forall mm ensures CountersOk(st', mm) { assert CountersOk(st, mm); }
  }

  lemma PromoteKeeps(st: State, a: Addr, w: bool)
    requires Inv(st)
    requires PteAt(st, a).Present? && PteAt(st, a).page in st.folios
    requires CanBeExclusive(st, PteAt(st, a).page)
    ensures Inv(Promote(st, a, w))
  {
    var st' := Promote(st, a, w);
    var p0 := PteAt(st, a).page;
    CountUpdate(st.ptes, a, Present(p0, w));
    assert FolioOk(st, p0);
    hide Mappers, SwapRefs, AnonOf, SwapOf, Zeros;
    forall b ensures PteOk(st', b) { assert PteOk(st, b); }
    forall p ensures FolioOk(st', p) { assert FolioOk(st, p); }
    forall s ensures SlotOk(st', s) { assert SlotOk(st, s); }
    forall s ensures CacheOk(st', s) { assert CacheOk(st, s); }
    forall t ensures CopyOk(st', t) { assert CopyOk(st, t); }
    forall p, t ensures HolderOk(st', p, t) { assert HolderOk(st, p, t); }
    forall s ensures DirectOk(st', s) { assert DirectOk(st, s); }
    forall mm ensures CountersOk(st', mm) { assert CountersOk(st, mm); }
  }

  lemma MapSwapKeeps(st: State, a: Addr, s0: nat)
    requires Inv(st)
    requires PteAt(st, a).Empty?
    requires s0 in st.slots
    requires forall b :: PteAt(st, b) != Swap(s0, true)
    requires s0 in st.cache ==> !IsExclusive(st, st.cache[s0])
    ensures Inv(MapSwap(st, a, s0))
  {
    var st' := MapSwap(st, a, s0);
    CountUpdate(st.ptes, a, Swap(s0, false));
    hide Mappers, SwapRefs, AnonOf, SwapOf, Zeros;
    forall b ensures PteOk(st', b) { assert PteOk(st, b); }
    forall p ensures FolioOk(st', p) { assert FolioOk(st, p); }
    forall s ensures SlotOk(st', s) { assert SlotOk(st, s); }
    forall s ensures CacheOk(st', s) { assert CacheOk(st, s); }
    forall t ensures CopyOk(st', t) { assert CopyOk(st, t); }
    forall p, t ensures HolderOk(st', p, t) { assert HolderOk(st, p, t); }
    forall s ensures DirectOk(st', s) { assert DirectOk(st, s); }
    forall mm ensures CountersOk(st', mm) { assert CountersOk(st, mm); }
  }

  lemma UnmapSwapKeeps(st: State, a: Addr)
    requires Inv(st)
    requires PteAt(st, a).Swap?
    ensures Inv(UnmapSwap(st, a))
  {
    var st' := UnmapSwap(st, a);
    CountUpdate(st.ptes, a, Empty);
    var s0 := PteAt(st, a).slot;
    assert PteOk(st, a);
    assert CacheOk(st, s0);
    ReferencedCounts(st, a);
    hide Mappers, SwapRefs, AnonOf, SwapOf, Zeros;
    forall b ensures PteOk(st', b) {
      assert PteOk(st, b);
      if Refers(PteAt(st, b), s0) && st.slots[s0].count == 1 { OnlyReference(st, a, b); }
    }
    forall p ensures FolioOk(st', p) { assert FolioOk(st, p); }
    forall s ensures SlotOk(st', s) { assert SlotOk(st, s); }
    forall s ensures CacheOk(st', s) { assert CacheOk(st, s); }
    forall t ensures CopyOk(st', t) { assert CopyOk(st, t); }
    forall p, t ensures HolderOk(st', p, t) { assert HolderOk(st, p, t); }
    forall s ensures DirectOk(st', s) { assert DirectOk(st, s); }
    forall mm ensures CountersOk(st', mm) { assert CountersOk(st, mm); }
  }

  lemma MarkSwapKeeps(st: State, a: Addr, x: bool)
    requires Inv(st)
    requires PteAt(st, a).Swap?
    requires x ==> CanMarkExclusive(st, PteAt(st, a).slot)
    ensures Inv(MarkSwap(st, a, x))
  {
    var st' := MarkSwap(st, a, x);
    CountUpdate(st.ptes, a, Swap(PteAt(st, a).slot, x));
    assert PteOk(st, a);
    hide Mappers, SwapRefs, AnonOf, SwapOf, Zeros;
    forall b ensures PteOk(st', b) { assert PteOk(st, b); }
    forall p ensures FolioOk(st', p) { assert FolioOk(st, p); }
    forall s ensures SlotOk(st', s) { assert SlotOk(st, s); }
    forall s ensures CacheOk(st', s) { assert CacheOk(st, s); }
    forall t ensures CopyOk(st', t) { assert CopyOk(st, t); }
    forall p, t ensures HolderOk(st', p, t) { assert HolderOk(st, p, t); }
    forall s ensures DirectOk(st', s) { assert DirectOk(st, s); }
    forall mm ensures CountersOk(st', mm) { assert CountersOk(st, mm); }
  }

  lemma WriteFolioKeeps(st: State, p0: nat, off: nat, x: int)
    requires Inv(st)
    requires p0 in st.folios && st.folios[p0].anonExclusive
    requires st.folios[p0].mapcount > 0 || HasGup(st.folios[p0])
    ensures Inv(WriteFolio(st, p0, off, x))
  {
    var st' := WriteFolio(st, p0, off, x);
    assert FolioOk(st, p0);
    hide Mappers, SwapRefs, AnonOf, SwapOf, Zeros;
    forall b ensures PteOk(st', b) { assert PteOk(st, b); }
    forall p ensures FolioOk(st', p) { assert FolioOk(st, p); }
    forall s ensures SlotOk(st', s) { assert SlotOk(st, s); }
    forall s ensures CacheOk(st', s) { assert CacheOk(st, s); }
    forall t ensures CopyOk(st', t) { assert CopyOk(st, t); }
    forall p, t ensures HolderOk(st', p, t) { assert HolderOk(st, p, t);  }
    forall s ensures DirectOk(st', s) { assert DirectOk(st, s); }
    forall mm ensures CountersOk(st', mm) { assert CountersOk(st, mm); }
  }

  lemma BeginCopyKeeps(st: State, t0: nat, a: Addr, unshare: bool)
    requires Inv(st)
    requires t0 !in st.copies
    requires PteAt(st, a).ZeroPage?
      || (PteAt(st, a).Present? && !PteAt(st, a).writable && !IsExclusive(st, PteAt(st, a).page))
    ensures Inv(BeginCopy(st, t0, a, unshare))
  {
    var st' := BeginCopy(st, t0, a, unshare);
    assert PteOk(st, a);
    if PteAt(st, a).Present? {
      MappedCounts(st, a);
      assert HolderOk(st, PteAt(st, a).page, t0);
      assert FolioOk(st, PteAt(st, a).page);
    }
    hide Mappers, SwapRefs, AnonOf, SwapOf, Zeros;
    forall b ensures PteOk(st', b) { assert PteOk(st, b); }
    forall p ensures FolioOk(st', p) { assert FolioOk(st, p); }
    forall s ensures SlotOk(st', s) { assert SlotOk(st, s); }
    forall s ensures CacheOk(st', s) { assert CacheOk(st, s); }
    forall t ensures CopyOk(st', t) { assert CopyOk(st, t); }
    forall p, t ensures HolderOk(st', p, t) { assert HolderOk(st, p, t); }
    forall s ensures DirectOk(st', s) { assert DirectOk(st, s); }
    forall mm ensures CountersOk(st', mm) { assert CountersOk(st, mm); }
  }

  lemma CopyDataKeeps(st: State, t0: nat)
    requires Inv(st)
    ensures Inv(CopyData(st, t0))
  {
    var st' := CopyData(st, t0);
    assert CopyOk(st, t0);
    hide Mappers, SwapRefs, AnonOf, SwapOf, Zeros;
    forall b ensures PteOk(st', b) { assert PteOk(st, b); }
    forall p ensures FolioOk(st', p) { assert FolioOk(st, p); }
    forall s ensures SlotOk(st', s) { assert SlotOk(st, s); }
    forall s ensures CacheOk(st', s) { assert CacheOk(st, s); }
    forall t ensures CopyOk(st', t) { assert CopyOk(st, t); }
    forall p, t ensures HolderOk(st', p, t) { assert HolderOk(st, p, t); }
    forall s ensures DirectOk(st', s) { assert DirectOk(st, s); }
    forall mm ensures CountersOk(st', mm) { assert CountersOk(st, mm); }
  }

  lemma ReadSwapKeeps(st: State, s0: nat, np: nat)
    requires Inv(st)
    ensures Inv(ReadSwap(st, s0, np))
  {
    var st' := ReadSwap(st, s0, np);
    if np !in st.folios { NoMappers(st, np); }
    hide Mappers, SwapRefs, AnonOf, SwapOf, Zeros;
    forall b ensures PteOk(st', b) { assert PteOk(st, b); }
    forall p ensures FolioOk(st', p) {
      assert FolioOk(st, p);
      if p in st.folios && st.folios[p].swap.Some? { assert CacheOk(st, st.folios[p].swap.value); }
    }
    forall s ensures SlotOk(st', s) { assert SlotOk(st, s); }
    forall s ensures CacheOk(st', s) { assert CacheOk(st, s); }
    forall t ensures CopyOk(st', t) { assert CopyOk(st, t); }
    forall p, t ensures HolderOk(st', p, t) { assert HolderOk(st, p, t); }
    forall s ensures DirectOk(st', s) { assert DirectOk(st, s); }
    forall mm ensures CountersOk(st', mm) { assert CountersOk(st, mm); }
  }

  lemma DirectPrepareKeeps(st: State, s0: nat)
    requires Inv(st)
    ensures Inv(DirectPrepare(st, s0))
  {
    var st' := DirectPrepare(st, s0);
    hide Mappers, SwapRefs, AnonOf, SwapOf, Zeros;
    forall b ensures PteOk(st', b) { assert PteOk(st, b); }
    forall p ensures FolioOk(st', p) { assert FolioOk(st, p); }
    forall s ensures SlotOk(st', s) { assert SlotOk(st, s); }
    forall s ensures CacheOk(st', s) { assert CacheOk(st, s); }
    forall t ensures CopyOk(st', t) { assert CopyOk(st, t); }
    forall p, t ensures HolderOk(st', p, t) { assert HolderOk(st, p, t); }
    forall s ensures DirectOk(st', s) { assert DirectOk(st, s); }
    forall mm ensures CountersOk(st', mm) { assert CountersOk(st, mm); }
  }

  lemma DirectUnpinKeeps(st: State, s0: nat)
    requires Inv(st)
    ensures Inv(st.(direct := st.direct - {s0}))
  {
    var st' := st.(direct := st.direct - {s0});
    hide Mappers, SwapRefs, AnonOf, SwapOf, Zeros;
    forall b ensures PteOk(st', b) { assert PteOk(st, b); }
    forall p ensures FolioOk(st', p) { assert FolioOk(st, p); }
    forall s ensures SlotOk(st', s) { assert SlotOk(st, s); }
    forall s ensures CacheOk(st', s) { assert CacheOk(st, s); }
    forall t ensures CopyOk(st', t) { assert CopyOk(st, t); }
    forall p, t ensures HolderOk(st', p, t) { assert HolderOk(st, p, t); }
    forall s ensures DirectOk(st', s) { assert DirectOk(st, s); }
    forall mm ensures CountersOk(st', mm) { assert CountersOk(st, mm); }
  }

  lemma AddToSwapKeeps(st: State, p0: nat, s0: nat, stable: bool, junk: PageData)
    requires Inv(st)
    ensures Inv(AddToSwap(st, p0, s0, stable, junk))
  {
    var st' := AddToSwap(st, p0, s0, stable, junk);
    if s0 !in st.slots { NoReferences(st, s0); }
    assert CacheOk(st, s0);
    assert DirectOk(st, s0);
    assert FolioOk(st, p0);
    hide Mappers, SwapRefs, AnonOf, SwapOf, Zeros;
    forall b ensures PteOk(st', b) { assert PteOk(st, b); }
    forall p ensures FolioOk(st', p) { assert FolioOk(st, p); }
    forall s ensures SlotOk(st', s) { assert SlotOk(st, s); }
    forall s ensures CacheOk(st', s) { assert CacheOk(st, s); }
    forall t ensures CopyOk(st', t) { assert CopyOk(st, t); }
    forall p, t ensures HolderOk(st', p, t) { assert HolderOk(st, p, t); }
    forall s ensures DirectOk(st', s) { assert DirectOk(st, s); }
    forall mm ensures CountersOk(st', mm) { assert CountersOk(st, mm); }
  }

  lemma EndWritebackKeeps(st: State, p0: nat, junk: PageData)
    requires Inv(st)
    ensures Inv(EndWriteback(st, p0, junk))
  {
    var st' := EndWriteback(st, p0, junk);
    assert FolioOk(st, p0);
    hide Mappers, SwapRefs, AnonOf, SwapOf, Zeros;
    forall b ensures PteOk(st', b) { assert PteOk(st, b); }
    forall p ensures FolioOk(st', p) { assert FolioOk(st, p); }
    forall s ensures SlotOk(st', s) { assert SlotOk(st, s); }
    forall s ensures CacheOk(st', s) { assert CacheOk(st, s); }
    forall t ensures CopyOk(st', t) { assert CopyOk(st, t); }
    forall p, t ensures HolderOk(st', p, t) { assert HolderOk(st, p, t); }
    forall s ensures DirectOk(st', s) { assert DirectOk(st, s); assert CacheOk(st, s); }
    forall mm ensures CountersOk(st', mm) { assert CountersOk(st, mm); }
  }

  lemma ForgetHeldKeeps(st: State, t0: nat, h: Holder)
    requires Inv(st)
    requires t0 in st.copies && h.Transient?
    requires st.copies[t0].orig.Present? && st.copies[t0].orig.page in st.folios
    requires h !in st.folios[st.copies[t0].orig.page].holders
    ensures Inv(ForgetCopy(st, t0, h))
  {
    var st' := ForgetCopy(st, t0, h);
    var p0 := st.copies[t0].orig.page;
    var H, H' := st.folios[p0].holders, st'.folios[p0].holders;
    assert CopyOk(st, t0);
    assert FolioOk(st, p0);
    assert |H'| == |H - {Copier(t0)}| + 1 == |H|;
    assert forall x :: x in H' <==> x == h || (x in H && x != Copier(t0));
    hide Mappers, SwapRefs, AnonOf, SwapOf, Zeros;
    forall b ensures PteOk(st', b) { assert PteOk(st, b); }
    forall p ensures FolioOk(st', p) { assert FolioOk(st, p); }
    forall s ensures SlotOk(st', s) { assert SlotOk(st, s); }
    forall s ensures CacheOk(st', s) { assert CacheOk(st, s); }
    forall t ensures CopyOk(st', t) { assert CopyOk(st, t); }
    forall p, t ensures HolderOk(st', p, t) { assert HolderOk(st, p, t); }
    forall s ensures DirectOk(st', s) { assert DirectOk(st, s); }
    forall mm ensures CountersOk(st', mm) { assert CountersOk(st, mm); }
  }

  lemma ForgetZeroKeeps(st: State, t0: nat)
    requires Inv(st)
    requires t0 in st.copies && !st.copies[t0].orig.Present?
    ensures Inv(st.(copies := st.copies - {t0}))
  {
    var st' := st.(copies := st.copies - {t0});
    assert CopyOk(st, t0);
    hide Mappers, SwapRefs, AnonOf, SwapOf, Zeros;
    forall b ensures PteOk(st', b) { assert PteOk(st, b); }
    forall p ensures FolioOk(st', p) { assert FolioOk(st, p); }
    forall s ensures SlotOk(st', s) { assert SlotOk(st, s); }
    forall s ensures CacheOk(st', s) { assert CacheOk(st, s); }
    forall t ensures CopyOk(st', t) { assert CopyOk(st, t); }
    forall p, t ensures HolderOk(st', p, t) { assert HolderOk(st, p, t); }
    forall s ensures DirectOk(st', s) { assert DirectOk(st, s); }
    forall mm ensures CountersOk(st', mm) { assert CountersOk(st, mm); }
  }

  lemma EndCopyKeeps(st: State, t: nat, h: Holder)
    requires Inv(st)
    ensures Inv(EndCopy(st, t, h))
  {
    if EndCopy(st, t, h) != st {
      var e := st.copies[t].orig;
      if e.Present? {
        ForgetHeldKeeps(st, t, h);
        PutRefKeeps(ForgetCopy(st, t, h), e.page, h);
      } else {
        ForgetZeroKeeps(st, t);
      }
    }
  }
}
