/** Dirty rings: the kernel pushes the pages that vCPUs dirty, QEMU collects them behind a 32-bit
    fetch index and hands the collected entries back with a reset. */
module DirtyRing {
  import opened Arithmetic

  const WRAP := 0x1_0000_0000

  /** slot holds the address space in its upper half. */
  datatype Entry = Entry(slot: nat, offset: nat)

  /** The flags of a ring entry: free, KVM_DIRTY_GFN_F_DIRTY, KVM_DIRTY_GFN_F_RESET. */
  datatype Gfn = Free | Dirty(e: Entry) | Collected

  /** One vCPU's ring.  pushed and reset count what the kernel has put in and taken back; fetched
      counts what QEMU has collected, of which it stores only fetch, modulo 2^32. */
  datatype Ring = Ring(gfns: seq<Gfn>, fetch: nat, pushed: nat, reset: nat, fetched: nat, sent: seq<Entry>,
                       got: seq<Entry>)

  /** A page of QEMU's bitmap: address space, slot and offset. */
  type Page = (nat, nat, nat)

  /** total counts the entries collected since the last reset; pages is QEMU's dirty bitmap. */
  datatype State = State(rings: seq<Ring>, total: nat, pages: set<Page>, resets: seq<nat>, totals: seq<nat>)

  /** How many pages each slot of each address space has. */
  type Sizes = map<(nat, nat), nat>

  /** kvm_dirty_ring_mark_page: entries for slots or pages that are gone are ignored. */
  function MarkPage(sizes: Sizes, pages: set<Page>, e: Entry): set<Page> {
    var a, s := e.slot / 0x1_0000, e.slot % 0x1_0000;
    if (a, s) in sizes && e.offset < sizes[(a, s)] then pages + {(a, s, e.offset)} else pages
  }

  /** The ring entry of an index. */
  function Slot(x: nat, n: nat): (i: nat)
    requires n > 0
    ensures i < n
  {
    x % n
  }

  // ------------------------------------------------------------- the kernel

  /** kvm_dirty_ring_push; a full ring stops the vCPU instead. */
  function Push(r: Ring, e: Entry): Ring
    requires |r.gfns| > 0
  {
    if r.pushed - r.reset >= |r.gfns| then r
    else r.(gfns := r.gfns[Slot(r.pushed, |r.gfns|) := Dirty(e)], pushed := r.pushed + 1, sent := r.sent + [e])
  }

  /** KVM_RESET_DIRTY_RINGS for one ring: everything collected from the reset index on. */
  function ResetRing(r: Ring, fuel: nat): (s: (Ring, nat))
    requires |r.gfns| > 0
    ensures |s.0.gfns| == |r.gfns|
    decreases fuel
  {
    if fuel == 0 || r.gfns[Slot(r.reset, |r.gfns|)] != Collected then (r, 0)
    else
      var (r1, n) := ResetRing(r.(gfns := r.gfns[Slot(r.reset, |r.gfns|) := Free], reset := r.reset + 1), fuel - 1);
      (r1, n + 1)
  }

  // ----------------------------------------------------------------- QEMU

  /** One round of kvm_dirty_ring_reap_one. */
  predicate CanCollect(r: Ring)
    requires |r.gfns| > 0
  {
    r.gfns[Slot(r.fetch, |r.gfns|)].Dirty?
  }

  function Collect(r: Ring): Ring
    requires |r.gfns| > 0 && CanCollect(r)
  {
    var i := Slot(r.fetch, |r.gfns|);
    r.(gfns := r.gfns[i := Collected],
       fetch := (r.fetch + 1) % WRAP,
       fetched := r.fetched + 1,
       got := r.got + [r.gfns[i].e])
  }

  function ResetAll(rings: seq<Ring>): (r: (seq<Ring>, nat))
    requires forall i :: 0 <= i < |rings| ==> |rings[i].gfns| > 0
    ensures |r.0| == |rings| && forall i :: 0 <= i < |rings| ==> |r.0[i].gfns| == |rings[i].gfns|
  {
    if rings == [] then ([], 0)
    else
      var (rest, n) := ResetAll(rings[..|rings| - 1]);
      var (last, m) := ResetRing(rings[|rings| - 1], |rings[|rings| - 1].gfns|);
      (rest + [last], n + m)
  }

  datatype Step =
    | SPush(cpu: nat, e: Entry)
    | SCollect(cpu: nat)
    | SReset

  predicate HaveRings(st: State) {
    forall i :: 0 <= i < |st.rings| ==> |st.rings[i].gfns| > 0
  }

  /** The kernel may push at any time; collecting and resetting happen under the slots lock, and
      the reset is made only if something was collected. */
  function Next(st: State, sizes: Sizes, step: Step): (r: State)
    requires HaveRings(st)
    ensures HaveRings(r) && |r.rings| == |st.rings|
  {
    match step
    case SPush(c, e) => if c < |st.rings| then st.(rings := st.rings[c := Push(st.rings[c], e)]) else st
    case SCollect(c) =>
      if c < |st.rings| && CanCollect(st.rings[c]) then
        var r := st.rings[c];
        st.(rings := st.rings[c := Collect(r)], total := st.total + 1,
            pages := MarkPage(sizes, st.pages, r.gfns[Slot(r.fetch, |r.gfns|)].e))
      else st
    case SReset =>
      if st.total == 0 then st
      else
        var (rings, n) := ResetAll(st.rings);
        st.(rings := rings, total := 0, resets := st.resets + [n], totals := st.totals + [st.total])
  }

  // ---------------------------------------------------------------- windows

  /** Where entry k of a ring's history stands: collected and not yet handed back, waiting to be
      collected, or gone. */
  ghost predicate EntryOk(r: Ring, k: nat)
    requires |r.gfns| > 0
  {
    && (r.reset <= k < r.fetched ==> r.gfns[Slot(k, |r.gfns|)] == Collected)
    && (r.fetched <= k < r.pushed && k < |r.sent| ==> r.gfns[Slot(k, |r.gfns|)] == Dirty(r.sent[k]))
    && (r.pushed <= k < r.reset + |r.gfns| ==> r.gfns[Slot(k, |r.gfns|)] == Free)
  }

  ghost predicate RingOk(r: Ring) {
    && |r.gfns| > 0 && WRAP % |r.gfns| == 0
    && r.reset <= r.fetched <= r.pushed <= r.reset + |r.gfns|
    && r.fetch == r.fetched % WRAP
    && |r.sent| == r.pushed && r.fetched <= |r.sent| && r.got == r.sent[..r.fetched]
    && (forall k :: EntryOk(r, k))
  }

  /** Two places of a window of the ring's size are different entries. */
  lemma Distinct(j: nat, k: nat, n: nat)
    requires n > 0 && j < k < j + n
    ensures j % n != k % n
  {
    var d := k / n - j / n;
    assert k - j == d * n + (k % n - j % n);
    LessFactor(0, d, n);
    LessFactor(d, 1, n);
  }

  /** The fetch index may wrap at 2^32 exactly because the ring size divides it. */
  lemma WrapIsConsistent(n: nat)
    requires 0 < n
    ensures (forall x: nat :: Slot(x % WRAP, n) == Slot(x, n)) <==> WRAP % n == 0
  {
    if WRAP % n == 0 {
      forall x: nat ensures Slot(x % WRAP, n) == Slot(x, n) { ModMod(x, WRAP, n); }
    } else {
      assert WRAP % WRAP == 0;
      assert Slot(WRAP % WRAP, n) != Slot(WRAP, n);
    }
  }

  // --------------------------------------------------------------- the steps

  lemma SlotMod(x: nat, n: nat)
    requires n > 0 && WRAP % n == 0
    ensures Slot(x % WRAP, n) == Slot(x, n)
  {
    ModMod(x, WRAP, n);
  }

  lemma SlotNext(x: nat, n: nat)
    requires n > 0
    ensures Slot(x + n, n) == Slot(x, n)
  {
    AddMultiple(1, n, x);
  }

  lemma Others(r: Ring, i: nat, k: nat)
    requires |r.gfns| > 0 && i != k && i < k + |r.gfns| && k < i + |r.gfns|
    ensures Slot(i, |r.gfns|) != Slot(k, |r.gfns|)
  {
    if i < k { Distinct(i, k, |r.gfns|); } else { Distinct(k, i, |r.gfns|); }
  }

  lemma PushOk(r: Ring, e: Entry)
    requires RingOk(r)
    ensures RingOk(Push(r, e))
    ensures Push(r, e).fetched == r.fetched && Push(r, e).reset == r.reset && Push(r, e).got == r.got
  {
    hide Slot;
    var n := |r.gfns|;
    if r.pushed - r.reset < n {
      var r' := Push(r, e);
      forall k: nat ensures EntryOk(r', k) {
        assert EntryOk(r, k);
        if r.reset <= k < r.reset + n && k != r.pushed { Others(r, r.pushed, k); }
      }
    }
  }

  /** There is something to collect exactly if something pushed has not been collected. */
  lemma CanCollectIs(r: Ring)
    requires RingOk(r)
    ensures CanCollect(r) <==> r.fetched < r.pushed
    ensures CanCollect(r) ==> r.gfns[Slot(r.fetch, |r.gfns|)] == Dirty(r.sent[r.fetched])
  {
    var n := |r.gfns|;
    SlotMod(r.fetched, n);
    hide Slot;
    assert EntryOk(r, r.fetched);
    if r.fetched == r.reset + n {
      assert EntryOk(r, r.reset);
      SlotNext(r.reset, n);
    }
  }

  lemma CollectOk(r: Ring)
    requires RingOk(r) && CanCollect(r)
    ensures RingOk(Collect(r))
  {
    var n := |r.gfns|;
    CanCollectIs(r);
    SlotMod(r.fetched, n);
    hide Slot;
    var r' := Collect(r);
    NextWrap(r.fetched);
    forall k: nat ensures EntryOk(r', k) {
      assert EntryOk(r, k);
      if r.reset <= k < r.reset + n && k != r.fetched { Others(r, r.fetched, k); }
    }
  }

  lemma NextWrap(x: nat)
    ensures (x % WRAP + 1) % WRAP == (x + 1) % WRAP
  {
  }

  /** The reset takes back exactly what has been collected. */
  lemma {:induction false} ResetOk(r: Ring, fuel: nat)
    requires RingOk(r) && fuel >= r.fetched - r.reset
    ensures
      var (r', c) := ResetRing(r, fuel);
      RingOk(r') && c == r.fetched - r.reset && r' == r.(gfns := r'.gfns, reset := r.fetched)
    decreases fuel
  {
    var n := |r.gfns|;
    assert EntryOk(r, r.reset);
    if r.reset != r.fetched {
      var r1 := r.(gfns := r.gfns[Slot(r.reset, n) := Free], reset := r.reset + 1);
      SlotNext(r.reset, n);
      hide Slot;
      forall k: nat ensures EntryOk(r1, k) {
        assert EntryOk(r, k);
        if r.reset < k < r.reset + n { Others(r, r.reset, k); }
      }
      ResetOk(r1, fuel - 1);
    }
  }

  function Outstanding(rings: seq<Ring>): int {
    if rings == [] then 0
    else Outstanding(rings[..|rings| - 1]) + rings[|rings| - 1].fetched - rings[|rings| - 1].reset
  }

  lemma {:induction false} OutstandingUpdate(rings: seq<Ring>, i: nat, r: Ring)
    requires i < |rings|
    ensures Outstanding(rings[i := r])
      == Outstanding(rings) - (rings[i].fetched - rings[i].reset) + (r.fetched - r.reset)
  {
    var k := |rings| - 1;
    if i == k {
      assert rings[i := r][..k] == rings[..k];
    } else {
      assert rings[i := r][..k] == rings[..k][i := r];
      OutstandingUpdate(rings[..k], i, r);
    }
  }

  lemma LastResetOk(rings: seq<Ring>, k: nat)
    requires k < |rings| && RingOk(rings[k])
    ensures |rings[k].gfns| > 0
    ensures
      var (r, c) := ResetRing(rings[k], |rings[k].gfns|);
      RingOk(r) && c == rings[k].fetched - rings[k].reset && r == rings[k].(gfns := r.gfns, reset := rings[k].fetched)
  {
    hide ResetRing, Slot;
    ResetOk(rings[k], |rings[k].gfns|);
  }

  lemma {:induction false} ResetAllOk(rings: seq<Ring>)
    requires forall i :: 0 <= i < |rings| ==> |rings[i].gfns| > 0
    requires forall i :: 0 <= i < |rings| ==> RingOk(rings[i])
    ensures
      var (rings', n) := ResetAll(rings);
      && (forall i :: 0 <= i < |rings| ==>
           RingOk(rings'[i]) && rings'[i] == rings[i].(gfns := rings'[i].gfns, reset := rings[i].fetched))
      && n == Outstanding(rings) && Outstanding(rings') == 0
  {
    if rings != [] {
      hide ResetRing, RingOk, Slot;
      var k := |rings| - 1;
      LastResetOk(rings, k);
      ResetAllOk(rings[..k]);
      var (rest, n) := ResetAll(rings[..k]);
      var (last, m) := ResetRing(rings[k], |rings[k].gfns|);
      assert (rest + [last])[..k] == rest;
    }
  }

  /** The entry is the one that the kernel writes for the page. */
  predicate Names(e: Entry, p: Page) {
    p.1 < 0x1_0000 && e.slot == p.0 * 0x1_0000 + p.1 && e.offset == p.2
  }

  /** The page's slot is there and the page lies in it. */
  predicate IsThere(sizes: Sizes, p: Page) {
    (p.0, p.1) in sizes && p.2 < sizes[(p.0, p.1)]
  }

  /** Some ring's collected entries name the page. */
  ghost predicate Seen(rings: seq<Ring>, p: Page) {
    exists i, k :: 0 <= i < |rings| && 0 <= k < |rings[i].got| && Names(rings[i].got[k], p)
  }

  /** The pages marked are those that are there and that a collected entry names. */
  ghost predicate MarkedExactly(sizes: Sizes, pages: set<Page>, rings: seq<Ring>) {
    forall p :: p in pages <==> IsThere(sizes, p) && Seen(rings, p)
  }

  /** The total is what the rings hold between fetch and reset index, every reset so far returned
      the total it was checked against, and what was collected is marked and nothing else. */
  ghost predicate Ok(st: State, sizes: Sizes) {
    && HaveRings(st)
    && (forall i :: 0 <= i < |st.rings| ==> RingOk(st.rings[i]))
    && MarkedExactly(sizes, st.pages, st.rings)
    && st.total == Outstanding(st.rings)
    && st.resets == st.totals
  }

  /** An entry marks the page that it names, if that is there. */
  lemma MarkIs(sizes: Sizes, pages: set<Page>, e: Entry, p: Page)
    ensures p in MarkPage(sizes, pages, e) <==> p in pages || (IsThere(sizes, p) && Names(e, p))
  {
  }

  lemma SeenSame(rings: seq<Ring>, rings': seq<Ring>, p: Page)
    requires |rings'| == |rings| && forall i :: 0 <= i < |rings| ==> rings'[i].got == rings[i].got
    ensures Seen(rings', p) <==> Seen(rings, p)
  {
    hide Names;
    if Seen(rings, p) {
      var i, k :| 0 <= i < |rings| && 0 <= k < |rings[i].got| && Names(rings[i].got[k], p);
      assert Names(rings'[i].got[k], p);
    }
  }

  lemma SeenOneMore(rings: seq<Ring>, c: nat, r: Ring, e: Entry, p: Page)
    requires c < |rings| && r.got == rings[c].got + [e]
    ensures Seen(rings[c := r], p) <==> Seen(rings, p) || Names(e, p)
  {
    hide Names;
    var rings' := rings[c := r];
    if Seen(rings, p) {
      var i, k :| 0 <= i < |rings| && 0 <= k < |rings[i].got| && Names(rings[i].got[k], p);
      assert Names(rings'[i].got[k], p);
    }
    if Names(e, p) { assert Names(rings'[c].got[|rings[c].got|], p); }
    if Seen(rings', p) {
      var i, k :| 0 <= i < |rings'| && 0 <= k < |rings'[i].got| && Names(rings'[i].got[k], p);
      if i != c || k < |rings[c].got| { assert Names(rings[i].got[k], p); }
    }
  }

  lemma CollectMarks(st: State, sizes: Sizes, c: nat)
    requires Ok(st, sizes) && c < |st.rings| && CanCollect(st.rings[c])
    ensures var st' := Next(st, sizes, SCollect(c)); MarkedExactly(sizes, st'.pages, st'.rings)
  {
    hide RingOk, MarkPage, Names, IsThere, Seen;
    var r := st.rings[c];
    var e := r.gfns[Slot(r.fetch, |r.gfns|)].e;
    forall p ensures p in MarkPage(sizes, st.pages, e) <==> IsThere(sizes, p) && Seen(st.rings[c := Collect(r)], p) {
      MarkIs(sizes, st.pages, e, p);
      SeenOneMore(st.rings, c, Collect(r), e, p);
    }
  }

  lemma StillMarked(sizes: Sizes, pages: set<Page>, rings: seq<Ring>, rings': seq<Ring>)
    requires MarkedExactly(sizes, pages, rings)
    requires |rings'| == |rings| && forall i :: 0 <= i < |rings| ==> rings'[i].got == rings[i].got
    ensures MarkedExactly(sizes, pages, rings')
  {
    hide Seen, IsThere;
    forall p ensures p in pages <==> IsThere(sizes, p) && Seen(rings', p) { SeenSame(rings, rings', p); }
  }

  lemma PushKeeps(st: State, sizes: Sizes, c: nat, e: Entry)
    requires Ok(st, sizes)
    ensures Ok(Next(st, sizes, SPush(c, e)), sizes)
  {
    hide RingOk, Push, MarkedExactly, Outstanding;
    if c < |st.rings| {
      PushOk(st.rings[c], e);
      StillMarked(sizes, st.pages, st.rings, st.rings[c := Push(st.rings[c], e)]);
      OutstandingUpdate(st.rings, c, Push(st.rings[c], e));
    }
  }

  lemma CollectKeeps(st: State, sizes: Sizes, c: nat)
    requires Ok(st, sizes)
    ensures Ok(Next(st, sizes, SCollect(c)), sizes)
  {
    hide RingOk, Collect, MarkPage, MarkedExactly, Outstanding, CanCollect;
    if c < |st.rings| && CanCollect(st.rings[c]) {
      CollectOk(st.rings[c]);
      OutstandingUpdate(st.rings, c, Collect(st.rings[c]));
      CollectCounts(st.rings[c]);
      CollectMarks(st, sizes, c);
    }
  }

  lemma ResetKeeps(st: State, sizes: Sizes)
    requires Ok(st, sizes)
    ensures Ok(Next(st, sizes, SReset), sizes)
  {
    hide RingOk, ResetAll, MarkedExactly, Outstanding;
    ResetAllOk(st.rings);
    StillMarked(sizes, st.pages, st.rings, ResetAll(st.rings).0);
  }

  lemma NextOk(st: State, sizes: Sizes, step: Step)
    requires Ok(st, sizes)
    ensures Ok(Next(st, sizes, step), sizes)
  {
    hide Ok, Next;
    match step
    case SPush(c, e) => PushKeeps(st, sizes, c, e);
    case SCollect(c) => CollectKeeps(st, sizes, c);
    case SReset => ResetKeeps(st, sizes);
  }

  lemma CollectCounts(r: Ring)
    requires |r.gfns| > 0 && CanCollect(r)
    ensures Collect(r).fetched == r.fetched + 1 && Collect(r).reset == r.reset
  {
  }

  function Run(st: State, sizes: Sizes, steps: seq<Step>): (r: State)
    requires HaveRings(st)
    ensures HaveRings(r) && |r.rings| == |st.rings|
    decreases |steps|
  {
    if steps == [] then st else Run(Next(st, sizes, steps[0]), sizes, steps[1..])
  }

  lemma {:induction false} RunOk(st: State, sizes: Sizes, steps: seq<Step>)
    requires Ok(st, sizes)
    ensures Ok(Run(st, sizes, steps), sizes)
    decreases |steps|
  {
    if steps != [] {
      NextOk(st, sizes, steps[0]);
      hide Ok, Next;
      RunOk(Next(st, sizes, steps[0]), sizes, steps[1..]);
    }
  }

  function Fresh(size: nat): Ring {
    Ring(seq(size, _ => Free), 0, 0, 0, 0, [], [])
  }

  function Start(n: nat, size: nat): (r: State)
    ensures size > 0 ==> HaveRings(r)
    ensures |r.rings| == n
  {
    State(seq(n, _ => Fresh(size)), 0, {}, [], [])
  }

  lemma FreshOk(size: nat)
    requires size > 0 && WRAP % size == 0
    ensures RingOk(Fresh(size))
  {
    forall k: nat ensures EntryOk(Fresh(size), k) { }
  }

  lemma {:induction false} NoneOutstanding(rings: seq<Ring>)
    requires forall i :: 0 <= i < |rings| ==> rings[i].fetched == rings[i].reset
    ensures Outstanding(rings) == 0
  {
    if rings != [] { NoneOutstanding(rings[..|rings| - 1]); }
  }

  lemma StartOk(n: nat, size: nat, sizes: Sizes)
    requires size > 0 && WRAP % size == 0
    ensures Ok(Start(n, size), sizes)
  {
    hide RingOk;
    FreshOk(size);
    NoneOutstanding(Start(n, size).rings);
  }

  function Pow2(k: nat): (p: nat)
    ensures p > 0
  {
    if k == 0 then 1 else 2 * Pow2(k - 1)
  }

  /** A power of two divides 2^32; the option parser accepts no other size. */
  lemma {:induction false} PowerDivides(k: nat, m: nat)
    requires k <= m
    ensures Pow2(m) % Pow2(k) == 0
    decreases m - k
  {
    if k < m {
      PowerDivides(k, m - 1);
      var p, q := Pow2(k), Div(Pow2(m - 1), Pow2(k));
      assert Pow2(m - 1) == q * p && Pow2(m) == 2 * Pow2(m - 1);
      Regroup(2, q, p);
      Multiple(2 * q, p);
    } else {
      Multiple(1, Pow2(k));
    }
  }

  lemma WrapIsPower()
    ensures Pow2(32) == WRAP
  {
    assert Pow2(8) == 256;
    assert Pow2(16) == 256 * 256;
    assert Pow2(24) == 256 * 256 * 256;
  }

  // ---------------------------------------------------------------- theorems

  /** Over any interleaving of kernel pushes with collecting and resetting, with rings of any
      power-of-two size: the entries of each ring are collected once each and in order, also across
      the wrap-around of the index; there is something to collect exactly while something is left,
      at most a ring's worth between two resets; and every reset returns the number of entries
      collected since the last one. */
  lemma ExactlyOnceInOrder(n: nat, k: nat, sizes: Sizes, steps: seq<Step>, c: nat)
    requires k <= 32 && c < n
    ensures
      var st := Run(Start(n, Pow2(k)), sizes, steps);
      var r := st.rings[c];
      && r.got <= r.sent
      && (CanCollect(r) <==> r.got != r.sent)
      && |r.got| - r.reset <= |r.gfns|
      && st.resets == st.totals
  {
    AnyRunOk(n, k, sizes, steps);
    var size := Pow2(k);
    hide Run, Start, Pow2, MarkedExactly;
    CanCollectIs(Run(Start(n, size), sizes, steps).rings[c]);
  }

  lemma AnyRunOk(n: nat, k: nat, sizes: Sizes, steps: seq<Step>)
    requires k <= 32
    ensures HaveRings(Start(n, Pow2(k))) && Ok(Run(Start(n, Pow2(k)), sizes, steps), sizes)
  {
    var size := Pow2(k);
    WrapIsPower();
    PowerDivides(k, 32);
    hide Pow2, Slot;
    StartOk(n, size, sizes);
    hide Run, Start;
    RunOk(Start(n, size), sizes, steps);
  }

  /** Over any such interleaving, page o of slot s of address space a is in the bitmap exactly if
      there is such a page and some ring has collected the entry for it: the address space in the
      upper half of the slot field, the slot in the lower half, and the offset. */
  lemma PagesAreThoseCollected(n: nat, k: nat, sizes: Sizes, steps: seq<Step>, a: nat, s: nat, o: nat)
    requires k <= 32 && s < 0x1_0000
    ensures
      var st := Run(Start(n, Pow2(k)), sizes, steps);
      (a, s, o) in st.pages <==>
        && (a, s) in sizes && o < sizes[(a, s)]
        && exists c :: 0 <= c < n && Entry(a * 0x1_0000 + s, o) in st.rings[c].got
  {
    AnyRunOk(n, k, sizes, steps);
    hide Run, Pow2, RingOk, Outstanding;
    var st, p := Run(Start(n, Pow2(k)), sizes, steps), (a, s, o);
    assert IsThere(sizes, p) <==> (a, s) in sizes && o < sizes[(a, s)];
    assert p in st.pages <==> IsThere(sizes, p) && Seen(st.rings, p);
    var e := Entry(a * 0x1_0000 + s, o);
    forall d: Entry ensures Names(d, p) <==> d == e { }
    hide Names, MarkedExactly;
    if Seen(st.rings, p) {
      var i, j :| 0 <= i < |st.rings| && 0 <= j < |st.rings[i].got| && Names(st.rings[i].got[j], p);
      assert e in st.rings[i].got;
    }
    if c: nat :| c < n && e in st.rings[c].got {
      var j :| 0 <= j < |st.rings[c].got| && st.rings[c].got[j] == e;
      assert Names(st.rings[c].got[j], p);
    }
  }

  lemma RingTakes(r: Ring, e: Entry)
    requires RingOk(r)
    ensures |r.sent| == r.pushed && |r.got| == r.fetched && r.got <= r.sent
    ensures Push(r, e).sent == if r.pushed - r.reset < |r.gfns| then r.sent + [e] else r.sent
    ensures CanCollect(r) <==> |r.got| < |r.sent|
    ensures CanCollect(r) ==> Collect(r).got == r.got + [r.sent[|r.got|]]
  {
    hide Slot;
    CanCollectIs(r);
    if CanCollect(r) { CollectIs(r); }
  }

  lemma PushTakes(st: State, sizes: Sizes, c: nat, e: Entry)
    requires Ok(st, sizes) && c < |st.rings|
    ensures
      var r := st.rings[c];
      Next(st, sizes, SPush(c, e)).rings[c].sent == if |r.sent| - r.reset < |r.gfns| then r.sent + [e] else r.sent
  {
    hide MarkedExactly, Outstanding, Slot;
    RingTakes(st.rings[c], e);
    hide RingOk, Push;
  }

  lemma CollectTakes(st: State, sizes: Sizes, c: nat)
    requires Ok(st, sizes) && c < |st.rings|
    ensures
      var r := st.rings[c];
      Next(st, sizes, SCollect(c)).rings[c].got == if |r.got| < |r.sent| then r.got + [r.sent[|r.got|]] else r.got
  {
    hide MarkedExactly, Outstanding, Slot, MarkPage;
    RingTakes(st.rings[c], Entry(0, 0));
    hide RingOk, Collect, CanCollect;
  }

  lemma ResetTakes(st: State, sizes: Sizes, c: nat)
    requires Ok(st, sizes) && c < |st.rings| && st.total > 0
    ensures
      var r, st' := st.rings[c], Next(st, sizes, SReset);
      && st'.total == 0 && st'.rings[c].reset == |r.got| && st'.rings[c].got == r.got
      && st'.resets == st.resets + [st.total]
  {
    hide MarkedExactly, Slot, RingOk, ResetAll, Outstanding, CanCollect, Push, Collect;
    RingTakes(st.rings[c], Entry(0, 0));
    ResetAllOk(st.rings);
  }

  /** And every step does its part: a push adds its entry while fewer than a ring's worth are out; a
      collect takes the next entry if there is one; a reset hands back everything that was collected. */
  lemma StepsTakeEffect(n: nat, k: nat, sizes: Sizes, steps: seq<Step>, c: nat, e: Entry)
    requires k <= 32 && c < n
    ensures
      var st := Run(Start(n, Pow2(k)), sizes, steps);
      var r := st.rings[c];
      && Next(st, sizes, SPush(c, e)).rings[c].sent
         == (if |r.sent| - r.reset < |r.gfns| then r.sent + [e] else r.sent)
      && Next(st, sizes, SCollect(c)).rings[c].got
         == (if |r.got| < |r.sent| then r.got + [r.sent[|r.got|]] else r.got)
      && (st.total > 0 ==>
            var st' := Next(st, sizes, SReset);
            && st'.total == 0 && st'.rings[c].reset == |r.got| && st'.rings[c].got == r.got
            && st'.resets == st.resets + [st.total])
  {
    AnyRunOk(n, k, sizes, steps);
    hide Run, Start, Pow2, Ok, Next;
    var st := Run(Start(n, Pow2(k)), sizes, steps);
    PushTakes(st, sizes, c, e);
    CollectTakes(st, sizes, c);
    if st.total > 0 { ResetTakes(st, sizes, c); }
  }

  // -------------------------------------------------------------- as it runs

  /** Entries that come one after the other. */
  function PushMany(r: Ring, es: seq<Entry>): (s: Ring)
    requires |r.gfns| > 0
    ensures |s.gfns| == |r.gfns|
  {
    if es == [] then r else Push(PushMany(r, es[..|es| - 1]), es[|es| - 1])
  }

  /** What comes before round k of the loop. */
  function Arrival(arrivals: seq<seq<Entry>>, k: nat): seq<Entry> {
    if k < |arrivals| then arrivals[k] else []
  }

  /** The ring after n rounds, in each of which some entries come and then one is collected. */
  function Rounds(r: Ring, arrivals: seq<seq<Entry>>, n: nat): (s: Ring)
    requires |r.gfns| > 0
    ensures |s.gfns| == |r.gfns|
  {
    if n == 0 then r
    else
      var s := PushMany(Rounds(r, arrivals, n - 1), Arrival(arrivals, n - 1));
      if CanCollect(s) then Collect(s) else s
  }

  /** What a run of entries adds to the bitmap. */
  ghost predicate Marks(sizes: Sizes, before: set<Page>, es: seq<Entry>, after: set<Page>) {
    forall p :: p in after <==> p in before || (IsThere(sizes, p) && exists k :: 0 <= k < |es| && Names(es[k], p))
  }

  lemma MarksMore(sizes: Sizes, before: set<Page>, es: seq<Entry>, now: set<Page>, e: Entry, after: set<Page>)
    requires Marks(sizes, before, es, now) && Marks(sizes, now, [e], after)
    ensures Marks(sizes, before, es + [e], after)
  {
    hide Names, IsThere;
    forall p ensures p in after <==>
        p in before || (IsThere(sizes, p) && exists k :: 0 <= k < |es + [e]| && Names((es + [e])[k], p)) {
      assert [e][0] == e;
      if Names(e, p) { assert (es + [e])[|es|] == e; }
      if k: nat :| k < |es| && Names(es[k], p) { assert (es + [e])[k] == es[k]; }
    }
  }

  lemma {:induction false} PushManyOk(r: Ring, es: seq<Entry>)
    requires RingOk(r)
    ensures var s := PushMany(r, es);
      RingOk(s) && s.fetched == r.fetched && s.reset == r.reset && s.fetch == r.fetch && s.got == r.got
    decreases |es|
  {
    hide RingOk, Slot;
    Sane(r);
    if es != [] {
      PushManyOk(r, es[..|es| - 1]);
      PushOk(PushMany(r, es[..|es| - 1]), es[|es| - 1]);
    }
  }

  /** One ring in shared memory, QEMU's end of it, and the kernel's two indexes. */
  class Reaper {
    const gfns: array<Gfn>
    var fetch: nat
    var pages: set<Page>
    var pushed: nat
    var reset: nat

    constructor (gfns: array<Gfn>)
      ensures this.gfns == gfns && fetch == 0 && pages == {} && pushed == 0 && reset == 0
    {
      this.gfns := gfns;
      fetch, pages, pushed, reset := 0, {}, 0, 0;
    }

    /** The memory is that of a ring as the model has it. */
    ghost predicate Shows(r: Ring)
      reads this, gfns
    {
      RingOk(r) && r.gfns == gfns[..] && r.fetch == fetch && r.pushed == pushed && r.reset == reset
    }

    /** The kernel pushes while there is room. */
    method Arrive(es: seq<Entry>, ghost r: Ring)
      requires Shows(r)
      modifies this`pushed, gfns
      ensures |r.gfns| > 0 && Shows(PushMany(r, es))
    {
      hide RingOk, Slot;
      Sane(r);
      for k := 0 to |es|
        invariant Shows(PushMany(r, es[..k]))
      {
        ghost var now := PushMany(r, es[..k]);
        PushOk(now, es[k]);
        assert es[..k + 1][..k] == es[..k];
        if pushed - reset < gfns.Length {
          gfns[Slot(pushed, gfns.Length)] := Dirty(es[k]);
          pushed := pushed + 1;
        }
        assert gfns[..] == Push(now, es[k]).gfns;
      }
      assert es[..|es|] == es;
    }

    /** One round of the loop: the entry at the fetch index, if it is dirty. */
    method TakeOne(sizes: Sizes, ghost r: Ring) returns (taken: bool)
      requires Shows(r)
      modifies this`fetch, this`pages, gfns
      ensures |r.gfns| > 0 && taken == CanCollect(r)
      ensures Shows(if taken then Collect(r) else r)
      ensures taken ==>
        Collect(r).got == r.got + [Collect(r).got[|r.got|]]
        && Marks(sizes, old(pages), [Collect(r).got[|r.got|]], pages)
      ensures !taken ==> pages == old(pages)
    {
      hide RingOk, Slot;
      Sane(r);
      var i := Slot(fetch, gfns.Length);
      if !gfns[i].Dirty? { return false; }
      CollectOk(r);
      CollectIs(r);
      forall p ensures p in MarkPage(sizes, pages, gfns[i].e) <==>
        p in pages || (IsThere(sizes, p) && Names(gfns[i].e, p))
      {
        MarkIs(sizes, pages, gfns[i].e, p);
      }
      pages := MarkPage(sizes, pages, gfns[i].e);
      gfns[i] := Collected;
      fetch := (fetch + 1) % WRAP;
      return true;
    }

    /** The loop of kvm_dirty_ring_reap_one, with the kernel pushing before each of its rounds.  It
        ends when everything that has come has been collected, and has marked exactly the pages of
        what it collected. */
    method ReapOne(sizes: Sizes, arrivals: seq<seq<Entry>>, ghost r: Ring) returns (count: nat)
      requires Shows(r)
      modifies this, gfns
      ensures |r.gfns| > 0
      ensures
        var s := PushMany(Rounds(r, arrivals, count), Arrival(arrivals, count));
        && Shows(s) && s.fetched == s.pushed && count == s.fetched - r.fetched
        && r.got <= s.got && Marks(sizes, old(pages), s.got[|r.got|..], pages)
    {
      hide RingOk, Collect, PushMany, Slot;
      Sane(r);
      count := 0;
      ghost var now := r;
      assert r.got[|r.got|..] == [];
      while true
        invariant Shows(now) && now == Rounds(r, arrivals, count) && now.fetched == r.fetched + count
        invariant r.got <= now.got && Marks(sizes, old(pages), now.got[|r.got|..], pages)
        decreases if count < |arrivals| then |arrivals| - count else 0, now.pushed - now.fetched
      {
        PushManyOk(now, Arrival(arrivals, count));
        NoneCome(now, arrivals, count);
        Arrive(Arrival(arrivals, count), now);
        now := PushMany(now, Arrival(arrivals, count));
        CanCollectIs(now);
        Sane(now);
        ghost var before := pages;
        var taken := TakeOne(sizes, now);
        if !taken { break; }
        CollectIs(now);
        GotOneMore(r.got, now.got, Collect(now).got[|now.got|]);
        MarksMore(sizes, old(pages), now.got[|r.got|..], before, Collect(now).got[|now.got|], pages);
        count := count + 1;
        now := Collect(now);
      }
    }
  }

  lemma Sane(r: Ring)
    requires RingOk(r)
    ensures |r.gfns| > 0 && r.fetched <= r.pushed == |r.sent|
  {
  }

  lemma NoneCome(r: Ring, arrivals: seq<seq<Entry>>, k: nat)
    requires |r.gfns| > 0
    ensures k >= |arrivals| ==> PushMany(r, Arrival(arrivals, k)) == r
  {
  }

  lemma GotOneMore(before: seq<Entry>, got: seq<Entry>, e: Entry)
    requires before <= got
    ensures before <= got + [e]
    ensures (got + [e])[|before|..] == got[|before|..] + [e]
  {
  }

  lemma CollectIs(r: Ring)
    requires RingOk(r) && CanCollect(r)
    ensures
      var i := Slot(r.fetch, |r.gfns|);
      && Collect(r).gfns == r.gfns[i := Collected] && Collect(r).fetch == (r.fetch + 1) % WRAP
      && Collect(r).fetched == r.fetched + 1 && Collect(r).pushed == r.pushed && Collect(r).reset == r.reset
      && Collect(r).got == r.got + [r.gfns[i].e]
  {
  }
}
