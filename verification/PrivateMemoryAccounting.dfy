/** Accounting, exclusivity and the two-phase copy, in every state a run can reach. */
module PrivateMemoryAccounting {
  import opened Wrappers
  import opened PrivateMemory
  import opened PrivateMemoryInvariant
  import opened PrivateMemoryViews
  import opened PrivateMemoryRefinement

  ghost predicate Reachable(st: State) {
    exists steps :: Run(BOOT, steps) == st
  }

  lemma ReachableInv(st: State)
    requires Reachable(st)
    ensures Inv(st)
  {
    var steps :| Run(BOOT, steps) == st;
    BootOk();
    RunRefinesFrom(BOOT, steps, map[]);
  }

  /** Every count the code keeps is the number of entries it stands for. */
  lemma CountsAreExact(st: State, p: nat, s: nat, mm: nat)
    requires Reachable(st)
    ensures p in st.folios ==>
      && st.folios[p].mapcount == |Mappers(st.ptes, p)|
      && st.folios[p].refs == |Mappers(st.ptes, p)| + Bit(st.folios[p].swap.Some?) + |st.folios[p].holders|
    ensures s in st.slots ==> st.slots[s].count == |SwapRefs(st.ptes, s)|
    ensures Counter(st.anonPages, mm) == |AnonOf(st.ptes, mm)|
    ensures Counter(st.swapEnts, mm) == |SwapOf(st.ptes, mm)|
  {
    ReachableInv(st);
    assert FolioOk(st, p) && SlotOk(st, s) && CountersOk(st, mm);
  }

  /** A writable entry is the one mapping of an exclusive folio. */
  lemma WritableMeansExclusive(st: State, a: Addr)
    requires Reachable(st)
    requires PteAt(st, a).Present? && PteAt(st, a).writable
    ensures IsExclusive(st, PteAt(st, a).page)
    ensures Mappers(st.ptes, PteAt(st, a).page) == {a}
  {
    ReachableInv(st);
    var p := PteAt(st, a).page;
    assert PteOk(st, a) && FolioOk(st, p);
    forall b | b in Mappers(st.ptes, p) ensures b == a { OnlyMapper(st, a, b); }
    assert a in Mappers(st.ptes, p);
  }

  /** An exclusive swap entry is its slot's only reference, and no mapping is left of the folio. */
  lemma ExclusiveSwapMeansSole(st: State, a: Addr)
    requires Reachable(st)
    requires PteAt(st, a).Swap? && PteAt(st, a).exclusive
    ensures SwapRefs(st.ptes, PteAt(st, a).slot) == {a}
    ensures PteAt(st, a).slot in st.cache ==> Mappers(st.ptes, st.cache[PteAt(st, a).slot]) == {}
  {
    ReachableInv(st);
    var s := PteAt(st, a).slot;
    assert PteOk(st, a) && SlotOk(st, s) && CacheOk(st, s);
    forall b | b in SwapRefs(st.ptes, s) ensures b == a { OnlyReference(st, a, b); }
    assert a in SwapRefs(st.ptes, s);
    if s in st.cache { assert FolioOk(st, st.cache[s]); }
  }

  /** The check in do_swap_page that a folio found in the swap cache is not exclusive never fires. */
  lemma SwapInFindsSharedFolio(st: State, a: Addr)
    requires Reachable(st)
    requires PteAt(st, a).Swap? && PteAt(st, a).slot in st.cache
    ensures !IsExclusive(st, st.cache[PteAt(st, a).slot])
  {
    ReachableInv(st);
    assert PteOk(st, a) && CacheOk(st, PteAt(st, a).slot);
    ReferencedCounts(st, a);
  }

  /** Where the device needs stable pages, nobody can write to a folio under writeback. */
  lemma StablePagesStayStable(st: State, p: nat)
    requires Reachable(st)
    requires p in st.folios && st.folios[p].writeback
    ensures st.folios[p].swap.Some? && st.folios[p].swap.value in st.slots
    ensures st.slots[st.folios[p].swap.value].stableWrites ==>
      && !st.folios[p].dirty
      && !HasGup(st.folios[p])
      && (forall a :: Maps(PteAt(st, a), p) ==> !PteAt(st, a).writable)
  {
    ReachableInv(st);
    assert FolioOk(st, p);
    var s := st.folios[p].swap.value;
    assert CacheOk(st, s);
    forall a | Maps(PteAt(st, a), p) && PteAt(st, a).writable ensures !st.slots[s].stableWrites {
      assert PteOk(st, a);
      MappedCounts(st, a);
    }
  }

  /** Two-phase copying.  Whatever faults, forks, reclaim and swap-ins other threads completed
      since the lock was dropped, the page copied then is the page the old folio holds now; so if
      the entry is found unchanged, the copy is what the process sees at that address. */
  lemma CopiedPageIsCurrent(st: State, t: nat)
    requires Reachable(st)
    requires t in st.copies && st.copies[t].copied.Some?
    ensures EntryData(st, st.copies[t].orig) == st.copies[t].copied.value
    ensures PteAt(st, st.copies[t].addr) == st.copies[t].orig ==>
      View(st, st.copies[t].addr) == st.copies[t].copied.value
  {
    ReachableInv(st);
    assert CopyOk(st, t);
  }

  /** The reason: while the copier holds its reference, the folio is never exclusive. */
  lemma CopiedFolioStaysShared(st: State, t: nat)
    requires Reachable(st)
    requires t in st.copies && st.copies[t].orig.Present?
    ensures var p := st.copies[t].orig.page;
      p in st.folios && !st.folios[p].anonExclusive && st.folios[p].refs > st.folios[p].mapcount
  {
    ReachableInv(st);
    assert CopyOk(st, t);
    var p := st.copies[t].orig.page;
    assert FolioOk(st, p);
    SetSizes({Copier(t)}, st.folios[p].holders);
  }

  /** A slot read directly still holds what was read, even if its last reference went meanwhile. */
  lemma DirectReadIsCurrent(st: State, s: nat)
    requires Reachable(st)
    requires s in st.direct
    ensures s in st.slots && st.slots[s].data == st.direct[s] && s !in st.cache
  {
    ReachableInv(st);
    assert DirectOk(st, s) && CacheOk(st, s);
  }

  /** try_to_unmap_one that gives up has restored the entry only if the folio is in the swap cache:
      the branch that warns about the other case leaves after the entry has been cleared.  The
      process then reads zeros where its page was, and the folio keeps a map count with no entry
      behind it. */
  lemma AbortedUnmapCanLosePage()
    ensures exists steps, a, h, fails ::
      var st := Run(BOOT, steps);
      var (st', ok) := UnmapOne(st, a, h, fails);
      !ok && View(st', a) != View(st, a)
  {
    var a := Addr(0, 0);
    var steps := [SAnonFault(a, true, true, 7), SStore(a, 0, 1)];
    var st1 := Next(BOOT, steps[0]);
    var st2 := Next(st1, steps[1]);
    assert Run(st2, []) == st2;
    assert steps[1..] == [steps[1]] && steps[1..][1..] == [];
    assert Run(st1, steps[1..]) == Run(st2, []);
    assert Run(BOOT, steps) == st2;
    assert View(st2, a) == Poke(Zeros(), 0, 1);
    var (st3, ok) := UnmapOne(st2, a, Transient(0), {});
    assert View(st3, a) == Zeros();
    assert View(st2, a)[0] == 1 && View(st3, a)[0] == 0;
    assert !ok && View(st3, a) != View(st2, a);
    assert var (s', k) := UnmapOne(Run(BOOT, steps), a, Transient(0), {});
      !k && View(s', a) != View(Run(BOOT, steps), a);
  }
}
