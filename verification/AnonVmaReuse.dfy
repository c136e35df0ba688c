/** Reuse of anon_vmas at fork: which one is taken, when a new one is made, and why a process
    that keeps forking and exiting does not grow its chain. */
module AnonVmaReuse {
  import opened Wrappers
  import opened AnonVma
  import opened AnonVmaLifetime

  /** Everything is given back once no vma is linked and no pin is left. */
  lemma NothingLeaks(steps: seq<Step>)
    requires forall v :: v in Run(BOOT, steps).vmas ==> Run(BOOT, steps).vmas[v].chain == []
    requires forall x :: Pins(Run(BOOT, steps), x) == 0
    ensures Run(BOOT, steps).avs == map[]
  {
    var st := Run(BOOT, steps);
    BootOk();
    RunOk(BOOT, steps);
    forall x | x in st.avs ensures st.avs[x].tree == {} {
      forall v: nat ensures v !in st.avs[x].tree { assert LinkOk(st, x, v); }
    }
    forall x | x in st.avs
      ensures Tenants(st, x) != {} && st.avs[x].root in st.avs && st.avs[st.avs[x].root].root == st.avs[x].root
    {
      assert AvOk(st, {}, x);
    }
    forall x: nat ensures x !in st.avs {
    }
  }

  // ------------------------------------------------------------ the choice

  /** The oldest anon_vma of a chain that fork may reuse. */
  function OldestReusable(st: State, c: seq<nat>): Option<nat>
    decreases |c|
  {
    if c == [] then None
    else if CanReuse(st, c[|c| - 1]) then Some(c[|c| - 1])
    else OldestReusable(st, c[..|c| - 1])
  }

  lemma {:induction false} OldestReusableIs(st: State, c: seq<nat>)
    ensures match OldestReusable(st, c)
      case Some(x) =>
        CanReuse(st, x) && exists i :: 0 <= i < |c| && c[i] == x && forall j :: i < j < |c| ==> !CanReuse(st, c[j])
      case None => forall x :: x in c ==> !CanReuse(st, x)
    decreases |c|
  {
    if c != [] {
      var k := |c| - 1;
      if !CanReuse(st, c[k]) {
        OldestReusableIs(st, c[..k]);
        var r := OldestReusable(st, c[..k]);
        if r.Some? {
          var i :| 0 <= i < k && c[..k][i] == r.value && forall j :: i < j < k ==> !CanReuse(st, c[..k][j]);
          assert c[i] == r.value && forall j :: i < j < |c| ==> !CanReuse(st, c[j]) by {
            forall j | i < j < |c| ensures !CanReuse(st, c[j]) { if j < k { assert c[..k][j] == c[j]; } }
          }
        } else {
          forall x | x in c ensures !CanReuse(st, x) { if x != c[k] { assert x in c[..k]; } }
        }
      } else {
        assert CanReuse(st, c[k]) && c[k] in c;
      }
    }
  }

  ghost predicate SameCounts(st: State, st': State) {
    forall x :: CanReuse(st', x) == CanReuse(st, x)
  }

  lemma LinkCounts(st: State, root: Option<nat>, v: nat, x: nat)
    ensures SameCounts(st, Link(LockRoot(st, root, x), v, x))
  {
  }

  lemma {:induction false} SameChoice(st: State, st': State, c: seq<nat>)
    requires SameCounts(st, st')
    ensures OldestReusable(st', c) == OldestReusable(st, c)
    decreases |c|
  {
    if c != [] { SameChoice(st, st', c[..|c| - 1]); }
  }

  lemma {:induction false} CloneChoice(st: State, dst: nat, list: seq<nat>, root: Option<nat>, pick: Option<nat>,
                                       budget: nat)
    ensures var (st', pick', ok) := CloneLinks(st, dst, list, root, pick, true, budget);
      ok ==> pick' == (if pick.Some? then pick else OldestReusable(st, list))
    decreases |list|
  {
    if list != [] && budget > 0 {
      hide Link, LockRoot, CanReuse;
      var x := list[|list| - 1];
      var st1 := Link(LockRoot(st, root, x), dst, x);
      LinkCounts(st, root, dst, x);
      var pick1 := if pick.None? && CanReuse(st1, x) then Some(x) else pick;
      CloneChoice(st1, dst, list[..|list| - 1], RootOf(st, x), pick1, budget - 1);
      SameChoice(st, st1, list[..|list| - 1]);
    }
  }

  /** The root is never reused: it counts itself as a child, and either a child of it or itself
      is in use by the vma being copied. */
  lemma RootIsNotReusable(st: State, v: nat)
    requires Inv(st) && v in st.vmas && st.vmas[v].anon.Some?
    ensures var c := st.vmas[v].chain;
      c != [] && c[|c| - 1] in st.avs && st.avs[c[|c| - 1]].root == c[|c| - 1] && !CanReuse(st, c[|c| - 1])
  {
    var c := st.vmas[v].chain;
    assert VmaOk(st, None, v);
    var r := c[|c| - 1];
    assert LinkOk(st, r, v) && AvOk(st, {}, r);
    if |c| == 1 {
      assert v in Actives(st, r);
    } else {
      var y := c[|c| - 2];
      assert c[|c| - 1..] == [r];
      assert st.avs[y].parent in c[|c| - 1..];
      assert LinkOk(st, y, v);
      SubsetSize({r, y}, Kids(st, r));
    }
  }

  lemma {:induction false} CloneSucceeds(st: State, dst: nat, list: seq<nat>, root: Option<nat>, pick: Option<nat>,
                                         reuse: bool, budget: nat)
    requires |list| <= budget
    ensures CloneLinks(st, dst, list, root, pick, reuse, budget).2
    decreases |list|
  {
    if list != [] {
      hide Link, LockRoot, CanReuse;
      var x := list[|list| - 1];
      var st1 := Link(LockRoot(st, root, x), dst, x);
      var pick1 := if pick.None? && reuse && CanReuse(st1, x) then Some(x) else pick;
      CloneSucceeds(st1, dst, list[..|list| - 1], RootOf(st, x), pick1, reuse, budget - 1);
    }
  }

  /** The clone that fork makes: the parent's chain, and the oldest reusable anon_vma. */
  lemma ForkClone(st: State, dst: nat, src: nat, budget: nat)
    requires Inv(st) && IsBlank(st, dst) && src in st.vmas && dst != src && st.vmas[src].anon.Some?
    requires Clone(st, dst, src, None, budget).1
    ensures
      var c := st.vmas[src].chain;
      var st1 := Clone(st, dst, src, None, budget).0;
      && dst in st1.vmas && st1.vmas[dst] == Vma(c, OldestReusable(st, c))
      && st1.vmas == st.vmas[dst := st1.vmas[dst]] && st1.pins == st.pins
      && st1.avs.Keys == st.avs.Keys && SameParents(st.avs, st1.avs)
  {
    hide InvMid, CanReuse, OldestReusable;
    var c := st.vmas[src].chain;
    CloneOk(st, dst, src, None, budget);
    CloneChoice(st, dst, c, None, None, budget);
    assert c == c + [];
    Settled(st, dst, {});
    CloneLinksOk(st, dst, src, c, None, None, true, budget);
    OldestInChain(st, src);
  }

  /** What may be reused is in the chain, allocated, and not a root. */
  lemma OldestInChain(st: State, src: nat)
    requires Inv(st) && src in st.vmas && st.vmas[src].anon.Some?
    ensures var c := st.vmas[src].chain;
      var x := OldestReusable(st, c);
      x.Some? ==> x.value in c && x.value in st.avs && st.avs[x.value].root != x.value
  {
    hide CanReuse;
    var c := st.vmas[src].chain;
    OldestReusableIs(st, c);
    RootIsNotReusable(st, src);
    assert VmaOk(st, None, src);
  }

  /** With a link for each element of the chain, fork succeeds. */
  lemma ForkSucceeds(st: State, dst: nat, src: nat, budget: nat, np: nat)
    requires Inv(st) && IsBlank(st, dst) && src in st.vmas && dst != src && np !in st.avs
    requires |st.vmas[src].chain| <= budget
    ensures Fork(st, dst, src, budget, np, true, true).1
  {
    hide InvMid, CloneLinks, Activate, Unlink;
    CloneSucceeds(st, dst, st.vmas[src].chain, None, None, st.vmas[src].anon.Some?, budget);
    CloneOk(st, dst, src, None, budget);
  }

  lemma ForkShape(st: State, dst: nat, src: nat, budget: nat, np: nat, avOk: bool, avcOk: bool)
    requires Inv(st) && IsBlank(st, dst) && src in st.vmas && dst != src && np !in st.avs && st.vmas[src].anon.Some?
    requires Fork(st, dst, src, budget, np, avOk, avcOk).1
    ensures
      var c := st.vmas[src].chain;
      var st' := Fork(st, dst, src, budget, np, avOk, avcOk).0;
      && dst in st'.vmas && st'.vmas == st.vmas[dst := st'.vmas[dst]]
      && SameParents(st.avs, st'.avs) && st'.pins == st.pins
      && (match OldestReusable(st, c)
          case Some(x) => st'.vmas[dst] == Vma(c, Some(x)) && st'.avs.Keys == st.avs.Keys
          case None =>
            && st'.vmas[dst] == Vma([np] + c, Some(np)) && st'.avs.Keys == st.avs.Keys + {np}
            && st'.avs[np].parent == st.vmas[src].anon.value)
  {
    var c := st.vmas[src].chain;
    hide InvMid, Clone, Adopt, CanReuse, Unlink, Put;
    ForkClone(st, dst, src, budget);
    OldestInChain(st, src);
    var st1 := Clone(st, dst, src, None, budget).0;
    OwnAnon(st, src);
    LiveAnon(st, src);
    if OldestReusable(st, c).None? { AdoptShape(st1, dst, st.vmas[src].anon.value, np); }
  }

  /** What fork does when nothing runs out: it reuses the oldest anon_vma of the parent's chain
      that is inactive and has at most one child, never a root; a new one is made exactly when
      every anon_vma of the chain is active or has two children. */
  lemma ForkReuses(steps: seq<Step>, dst: nat, src: nat, budget: nat, np: nat)
    requires var st := Run(BOOT, steps);
      && IsBlank(st, dst) && src in st.vmas && dst != src && np !in st.avs && st.vmas[src].anon.Some?
      && |st.vmas[src].chain| <= budget
    ensures
      var st := Run(BOOT, steps);
      var c := st.vmas[src].chain;
      var (st', ok) := Fork(st, dst, src, budget, np, true, true);
      && ok && dst in st'.vmas && st'.vmas[dst].anon.Some?
      && (if exists x :: x in c && CanReuse(st, x) then
            var x := st'.vmas[dst].anon.value;
            && st'.vmas[dst].chain == c && st'.avs.Keys == st.avs.Keys
            && x in c && CanReuse(st, x) && st.avs[x].root != x
            && (forall y :: y in c && CanReuse(st, y) ==> Newer(c, y, x))
          else st'.vmas[dst] == Vma([np] + c, Some(np)) && st'.avs.Keys == st.avs.Keys + {np})
  {
    var st := Run(BOOT, steps);
    BootOk();
    RunOk(BOOT, steps);
    hide Run, InvMid, Fork, CanReuse;
    ForkSucceeds(st, dst, src, budget, np);
    ForkShape(st, dst, src, budget, np, true, true);
    OldestReusableIs(st, st.vmas[src].chain);
    OldestInChain(st, src);
  }

  /** x stands no earlier in the chain than y does. */
  ghost predicate Newer(c: seq<nat>, y: nat, x: nat) {
    exists i, j :: 0 <= j <= i < |c| && c[j] == y && c[i] == x
  }

  // ------------------------------------------------------------ what is watched

  lemma FreeWatched(st: State, x: nat)
    requires x in st.avs
    ensures
      var f := Free(st, x).faults;
      && st.faults <= f
      && (FreedLinked(x) in f <==> FreedLinked(x) in st.faults || st.avs[x].tree != {})
      && (FreedBeforeTenants(x) in f <==>
            FreedBeforeTenants(x) in st.faults || exists y :: y in st.avs && y != x && st.avs[y].root == x)
  {
  }

  lemma PutWatched(st: State, x: nat)
    ensures st.faults <= Put(st, x).faults && (x !in st.avs ==> UseAfterFree(x) in Put(st, x).faults)
  {
    hide Free;
    if x in st.avs && st.avs[x].refcount == 1 {
      FreeWatched(st, x);
      var st1, r := Free(st, x), st.avs[x].root;
      if r in st1.avs { FreeWatched(st1, r); }
    }
  }

  /** What LifetimeSafety excludes is what it says: linking, unlinking, taking or putting an anon_vma
      that is not there, freeing one that is linked or that others have as root, putting an emptied
      one with children or active vmas, and locking a second root each leave their mark. */
  lemma FaultsLeaveMarks(st: State, v: nat, x: nat, root: Option<nat>)
    ensures x !in st.avs ==>
      UseAfterFree(x) in Link(st, v, x).faults && UseAfterFree(x) in DropLink(st, v, x).faults
      && UseAfterFree(x) in Put(st, x).faults
      && (v in st.vmas ==> UseAfterFree(x) in Activate(st, v, Some(x)).faults)
      && (v in st.vmas && st.vmas[v].anon == Some(x) ==> UseAfterFree(x) in Deactivate(st, v).faults)
    ensures x in st.avs ==>
      && (st.avs[x].children != 0 ==> ChildrenLeft(x) in PutEmpty(st, x).faults)
      && (st.avs[x].active != 0 ==> ActiveLeft(x) in PutEmpty(st, x).faults)
      && (root.Some? && st.avs[x].root != root.value ==> RootMismatch(x) in LockRoot(st, root, x).faults)
      && (st.avs[x].tree != {} ==> FreedLinked(x) in Free(st, x).faults)
      && ((exists y :: y in st.avs && y != x && st.avs[y].root == x) ==> FreedBeforeTenants(x) in Free(st, x).faults)
  {
    PutWatched(st, x);
    if x in st.avs {
      FreeWatched(st, x);
      var left, active := st.avs[x].children != 0, st.avs[x].active != 0;
      PutWatched(Blame(Blame(st, left, ChildrenLeft(x)), active, ActiveLeft(x)), x);
    }
    hide Free, Put;
  }

  // ------------------------------------------------------------------ prepare

  /** The neighbour's anon_vma can be shared: it is the only one of its chain. */
  predicate HasMergeable(st: State, near: Option<nat>) {
    && near.Some? && near.value in st.vmas
    && |st.vmas[near.value].chain| == 1 && st.vmas[near.value].anon.Some?
  }

  /** Linking v to x, which it takes as its own, changes nothing else. */
  ghost predicate TakesOver(st: State, st': State, v: nat, x: nat, a: Av) {
    st' == st.(vmas := st.vmas[v := Vma([x], Some(x))],
               avs := st.avs[x := a.(active := a.active + 1, tree := a.tree + {v})])
  }

  lemma AttachIs(st: State, v: nat, x: nat)
    requires v in st.vmas && x in st.avs && st.vmas[v] == Vma([], None)
    ensures TakesOver(st, Attach(st, v, x), v, x, st.avs[x])
  {
    var a := st.avs[x];
    var st1 := Link(st, v, x);
    assert [x] + st.vmas[v].chain == [x];
    assert st1 == st.(avs := st.avs[x := a.(tree := a.tree + {v})], vmas := st.vmas[v := Vma([x], None)]);
    assert st1.avs[x := st1.avs[x].(active := a.active + 1)]
      == st.avs[x := a.(active := a.active + 1, tree := a.tree + {v})];
    assert st1.vmas[v := Vma([x], Some(x))] == st.vmas[v := Vma([x], Some(x))];
  }

  /** What prepare does in every reachable state.  It fails exactly when something cannot be
      allocated, and then changes nothing.  If it succeeds, the vma has an anon_vma: the one it had,
      with nothing changed; else its chain consists of the mergeable neighbour's, or of a new root if
      there is no such neighbour, and that one counts one active vma more.  No other vma and no
      other anon_vma changes. */
  lemma PrepareGives(steps: seq<Step>, v: nat, near: Option<nat>, np: nat, avcOk: bool, avOk: bool)
    requires v in Run(BOOT, steps).vmas && np !in Run(BOOT, steps).avs
    ensures
      var st := Run(BOOT, steps);
      var (st', ok) := Prepare(st, v, near, np, avcOk, avOk);
      && (ok <==> avcOk && (avOk || HasMergeable(st, near)))
      && (!ok || st.vmas[v].anon.Some? ==> st' == st)
      && (ok ==> v in st'.vmas && st'.vmas[v].anon.Some?)
      && (ok && st.vmas[v].anon.None? ==>
            if HasMergeable(st, near) then
              var x := st.vmas[near.value].anon.value;
              x in st.avs && TakesOver(st, st', v, x, st.avs[x])
            else TakesOver(st, st', v, np, Av(1, 1, 0, np, np, {})))
  {
    var st := Run(BOOT, steps);
    BootOk();
    RunOk(BOOT, steps);
    hide Run, InvMid, Attach, Put, TakesOver;
    OwnAnon(st, v);
    if HasMergeable(st, near) {
      LiveAnon(st, near.value);
      if st.vmas[v].anon.None? { AttachIs(st, v, st.vmas[near.value].anon.value); }
    } else if avcOk && avOk {
      var st1 := st.(avs := st.avs[np := Av(1, 1, 0, np, np, {})]);
      if st.vmas[v].anon.None? {
        AttachIs(st1, v, np);
        NewIsTaken(st, Attach(st1, v, np), v, np);
      } else {
        UndoAlloc(st, None, np, Av(1, 1, 0, np, np, {}));
      }
    }
  }

  lemma NewIsTaken(st: State, st': State, v: nat, np: nat)
    requires TakesOver(st.(avs := st.avs[np := Av(1, 1, 0, np, np, {})]), st', v, np, Av(1, 1, 0, np, np, {}))
    ensures TakesOver(st, st', v, np, Av(1, 1, 0, np, np, {}))
  {
    assert st.avs[np := Av(1, 1, 0, np, np, {})][np := Av(1, 1, 1, np, np, {v})]
      == st.avs[np := Av(1, 1, 1, np, np, {v})];
  }

  /** In every reachable state an anon_vma that is pinned from outside is still there; a pin on one that
      is there adds one, and dropping it brings the forest back as it was. */
  lemma PinsHold(steps: seq<Step>, x: nat)
    ensures
      var st := Run(BOOT, steps);
      && (Pins(st, x) > 0 ==> x in st.avs)
      && (x in st.avs ==>
            var st1 := Next(st, SPin(x));
            && Pins(st1, x) == Pins(st, x) + 1 && x in st1.avs && st1.avs[x].refcount == st.avs[x].refcount + 1
            && var st2 := Next(st1, SUnpin(x));
            st2.avs == st.avs && st2.vmas == st.vmas && Pins(st2, x) == Pins(st, x) && st2.faults == {})
  {
    var st := Run(BOOT, steps);
    BootOk();
    RunOk(BOOT, steps);
    assert AvOk(st, {}, x);
    hide Run, InvMid, Free, Tenants, Kids, Actives;
  }

  // ------------------------------------------------- fork, then parent exits

  /** Nothing outside v's entry changes among the vmas, and no anon_vma appears or changes its
      place in the forest. */
  ghost predicate OnlyUnlinks(st: State, st': State, v: nat) {
    && st'.vmas.Keys == st.vmas.Keys
    && (forall w :: w in st.vmas && w != v ==> st'.vmas[w] == st.vmas[w])
    && SameParents(st'.avs, st.avs)
    && st'.pins == st.pins
  }

  lemma FreeOnly(st: State, v: nat, x: nat)
    requires x in st.avs
    ensures OnlyUnlinks(st, Free(st, x), v)
  {
  }

  lemma PutRootOnly(st: State, v: nat, r: nat)
    ensures OnlyUnlinks(st, PutRoot(st, r), v)
  {
    if r in st.avs { FreeOnly(st, v, r); }
    hide Free;
  }

  lemma PutOnly(st: State, v: nat, x: nat)
    ensures OnlyUnlinks(st, PutEmpty(st, x), v)
  {
    hide Free, PutRoot;
    var left := x in st.avs && st.avs[x].children != 0;
    var active := x in st.avs && st.avs[x].active != 0;
    var st1 := Blame(Blame(st, left, ChildrenLeft(x)), active, ActiveLeft(x));
    if x in st1.avs {
      FreeOnly(st1, v, x);
      PutRootOnly(Free(st1, x), v, st1.avs[x].root);
    }
  }

  lemma {:induction false} PutEmptiesOnly(st: State, v: nat, empties: seq<nat>)
    ensures OnlyUnlinks(st, PutEmpties(st, empties), v)
    decreases |empties|
  {
    if empties != [] {
      PutOnly(st, v, empties[0]);
      hide PutEmpty;
      PutEmptiesOnly(PutEmpty(st, empties[0]), v, empties[1..]);
    }
  }

  lemma DropOnly(st: State, v: nat, root: Option<nat>, x: nat)
    ensures OnlyUnlinks(st, DropLink(LockRoot(st, root, x), v, x), v)
  {
  }

  lemma {:induction false} TreesOnly(st: State, v: nat, list: seq<nat>, root: Option<nat>, empties: seq<nat>)
    ensures OnlyUnlinks(st, UnlinkTrees(st, v, list, root, empties).0, v)
    decreases |list|
  {
    if list != [] {
      var x := list[0];
      DropOnly(st, v, root, x);
      var st1 := DropLink(LockRoot(st, root, x), v, x);
      hide DropLink, LockRoot;
      TreesOnly(st1, v, list[1..], RootOf(st, x), if IsEmpty(st1, x) then empties + [x] else empties);
    }
  }

  lemma UnlinkOnly(st: State, v: nat)
    ensures OnlyUnlinks(st, Unlink(st, v), v)
  {
    if v in st.vmas {
      var (st1, empties) := UnlinkTrees(st, v, st.vmas[v].chain, None, []);
      TreesOnly(st, v, st.vmas[v].chain, None, []);
      DeactivateOnly(st1, v);
      PutEmptiesOnly(Deactivate(st1, v), v, empties);
      hide UnlinkTrees, PutEmpties, Deactivate;
    }
  }

  lemma DeactivateOnly(st: State, v: nat)
    ensures OnlyUnlinks(st, Deactivate(st, v), v)
  {
  }

  /** One process is left, with at most three anon_vmas in a line. */
  ghost predicate Lineage(st: State, v: nat) {
    && st.vmas.Keys == {v} && st.vmas[v].anon.Some?
    && (forall x :: Pins(st, x) == 0)
    && var c := st.vmas[v].chain;
    && |c| <= 3
    && (|c| == 3 && c[0] in st.avs ==> st.avs[c[0]].parent == c[1])
  }

  /** The live anon_vmas are those of the one chain. */
  lemma LineageLive(st: State, v: nat)
    requires Inv(st) && Lineage(st, v)
    ensures st.avs.Keys == Elems(st.vmas[v].chain)
    ensures |st.avs| <= |st.vmas[v].chain|
  {
    var c := st.vmas[v].chain;
    assert VmaOk(st, None, v);
    assert OneRoot(st, v, c);
    forall x: nat ensures x in st.avs <==> x in c {
      LiveIsLinked(st, v, x);
    }
    ElemsSize(c);
    assert st.avs.Keys == Elems(c);
  }

  ghost predicate OneRoot(st: State, v: nat, c: seq<nat>) {
    forall x :: x in c ==> x in st.avs && st.avs[x].root in c
  }

  lemma LiveIsLinked(st: State, v: nat, x: nat)
    requires Inv(st) && Lineage(st, v) && OneRoot(st, v, st.vmas[v].chain)
    ensures x in st.avs ==> x in st.vmas[v].chain
  {
    if x in st.avs && st.avs[x].tree == {} {
      assert AvOk(st, {}, x);
      assert Tenants(st, x) != {};
      var y :| y in Tenants(st, x);
      assert AvOk(st, {}, y);
      NoTenants(st, y);
      LinkedInChain(st, v, y);
    } else if x in st.avs {
      LinkedInChain(st, v, x);
    }
  }

  lemma NoTenants(st: State, y: nat)
    requires Inv(st) && y in st.avs && st.avs[y].root != y
    ensures Tenants(st, y) == {}
  {
    forall z | z in st.avs ensures st.avs[z].root != y { assert AvOk(st, {}, z); }
  }

  lemma LinkedInChain(st: State, v: nat, y: nat)
    requires Inv(st) && st.vmas.Keys == {v} && y in st.avs && st.avs[y].tree != {}
    ensures y in st.vmas[v].chain
  {
    var w :| w in st.avs[y].tree;
    assert LinkOk(st, y, w);
  }

  lemma {:induction false} ElemsSize(c: seq<nat>)
    ensures |Elems(c)| <= |c|
  {
    if c == [] {
      assert Elems(c) == {};
    } else {
      ElemsSize(c[1..]);
      assert Elems(c) == {c[0]} + Elems(c[1..]);
    }
  }

  /** A line of three: a root, its child and its grandchild. */
  lemma LineOfThree(st: State, v: nat)
    requires Inv(st) && Lineage(st, v) && |st.vmas[v].chain| == 3
    ensures
      var c := st.vmas[v].chain;
      && (forall x :: x in st.avs <==> x == c[0] || x == c[1] || x == c[2])
      && st.avs[c[0]].parent == c[1] && st.avs[c[1]].parent == c[2] && st.avs[c[2]].parent == c[2]
      && c[0] != c[1] && c[1] != c[2] && c[0] != c[2]
      && (st.vmas[v].anon == Some(c[0]) || st.vmas[v].anon == Some(c[1]) || st.vmas[v].anon == Some(c[2]))
  {
    var c := st.vmas[v].chain;
    LineageLive(st, v);
    assert VmaOk(st, None, v);
    assert c[2..] == [c[2]];
    forall x: nat ensures x in Elems(c) <==> x == c[0] || x == c[1] || x == c[2] { }
  }

  /** In a line of three, whichever anon_vma is active leaves another one to be reused. */
  lemma ThreeAreEnough(st: State, v: nat)
    requires Inv(st) && Lineage(st, v) && |st.vmas[v].chain| == 3
    ensures exists x :: x in st.vmas[v].chain && CanReuse(st, x)
  {
    var c := st.vmas[v].chain;
    LineOfThree(st, v);
    assert AvOk(st, {}, c[0]) && AvOk(st, {}, c[1]);
    hide InvMid;
    if st.vmas[v].anon != Some(c[1]) {
      assert Actives(st, c[1]) == {};
      assert Kids(st, c[1]) <= {c[0]};
      SubsetSize(Kids(st, c[1]), {c[0]});
      assert CanReuse(st, c[1]);
    } else {
      assert Actives(st, c[0]) == {};
      assert Kids(st, c[0]) == {};
      assert CanReuse(st, c[0]);
    }
  }

  /** One generation: who is to come next, the anon_vma it makes if it needs one, and which
      allocations succeed. */
  datatype Gen = Gen(next: nat, np: nat, budget: nat, avOk: bool, avcOk: bool)

  /** The only process forks and, if that succeeds, exits; the vma of a fork that fails is freed. */
  function Succeed(st: State, v: nat, g: Gen): (State, nat) {
    var st0 := Next(st, SNewVma(g.next));
    var st1 := Next(st0, SFork(g.next, v, g.budget, g.np, g.avOk, g.avcOk));
    if Fork(st0, g.next, v, g.budget, g.np, g.avOk, g.avcOk).1
    then (Next(Next(st1, SUnlink(v)), SDropVma(v)), g.next)
    else (Next(st1, SDropVma(g.next)), v)
  }

  /** A fork that fails undoes what it did. */
  lemma FailedFork(st: State, dst: nat, src: nat, budget: nat, np: nat, avOk: bool, avcOk: bool)
    requires Inv(st) && IsBlank(st, dst) && src in st.vmas && dst != src && np !in st.avs && st.vmas[src].anon.Some?
    requires !Fork(st, dst, src, budget, np, avOk, avcOk).1
    ensures var st' := Fork(st, dst, src, budget, np, avOk, avcOk).0;
      Inv(st') && OnlyUnlinks(st, st', dst) && IsBlank(st', dst)
  {
    hide InvMid, Unlink, Put, Adopt, CloneLinks, OnlyUnlinks;
    ForkOk(st, dst, src, budget, np, avOk, avcOk);
    CloneOk(st, dst, src, None, budget);
    var (st1, ok) := Clone(st, dst, src, None, budget);
    if !ok {
      FailedClone(st, dst, src, None, budget);
    } else {
      hide Clone;
      OwnAnon(st, src);
      UndoAlloc(st1, Some(dst), np, Av(1, 0, 1, np, np, {}));
      UnlinkOk(st1, dst);
      ThenUnlinked(st, st1, dst);
    }
  }

  lemma FailedClone(st: State, dst: nat, src: nat, preset: Option<nat>, budget: nat)
    requires Inv(st) && IsBlank(st, dst) && src in st.vmas && dst != src && st.vmas[src].anon.Some?
    requires preset.None? || preset == st.vmas[src].anon
    requires !Clone(st, dst, src, preset, budget).1
    ensures OnlyUnlinks(st, Clone(st, dst, src, preset, budget).0, dst)
  {
    hide InvMid, Unlink, CloneLinks, OnlyUnlinks;
    var c := st.vmas[src].chain;
    assert c == c + [];
    Settled(st, dst, {});
    OwnAnon(st, src);
    CloneLinksOk(st, dst, src, c, None, preset, true, budget);
    ThenUnlinked(st, CloneLinks(st, dst, c, None, preset, true, budget).0, dst);
  }

  lemma {:induction false} CloneFails(st: State, dst: nat, list: seq<nat>, root: Option<nat>, pick: Option<nat>,
                                      reuse: bool, budget: nat)
    requires budget < |list|
    ensures !CloneLinks(st, dst, list, root, pick, reuse, budget).2
    decreases |list|
  {
    if budget > 0 {
      hide Link, LockRoot, CanReuse;
      var x := list[|list| - 1];
      var st1 := Link(LockRoot(st, root, x), dst, x);
      var pick1 := if pick.None? && reuse && CanReuse(st1, x) then Some(x) else pick;
      CloneFails(st1, dst, list[..|list| - 1], RootOf(st, x), pick1, reuse, budget - 1);
    }
  }

  lemma CloneExactly(st: State, dst: nat, src: nat, preset: Option<nat>, budget: nat)
    requires src in st.vmas && dst in st.vmas
    ensures Clone(st, dst, src, preset, budget).1 <==> |st.vmas[src].chain| <= budget
  {
    hide CloneLinks, Activate, Unlink;
    if |st.vmas[src].chain| <= budget {
      CloneSucceeds(st, dst, st.vmas[src].chain, None, preset, st.vmas[src].anon.Some?, budget);
    } else {
      CloneFails(st, dst, st.vmas[src].chain, None, preset, st.vmas[src].anon.Some?, budget);
    }
  }

  lemma ForkSucceedsIf(st: State, dst: nat, src: nat, budget: nat, np: nat, avOk: bool, avcOk: bool)
    requires Inv(st) && IsBlank(st, dst) && src in st.vmas && dst != src && np !in st.avs && st.vmas[src].anon.Some?
    ensures
      var c := st.vmas[src].chain;
      Fork(st, dst, src, budget, np, avOk, avcOk).1 <==>
        |c| <= budget && (OldestReusable(st, c).Some? || (avOk && avcOk))
  {
    hide InvMid, Clone, Unlink, Put, Adopt, OldestReusable;
    CloneExactly(st, dst, src, None, budget);
    if Clone(st, dst, src, None, budget).1 { ForkClone(st, dst, src, budget); }
  }

  lemma OnlyBlank(st: State, st': State, v: nat)
    requires OnlyUnlinks(st, st', v) && IsBlank(st, v) && IsBlank(st', v)
    ensures st'.vmas == st.vmas
  {
  }

  /** Fork onto a new vma, with anything running out.  It succeeds exactly if the parent has no
      anon_vma, or there is a link for each element of its chain and either one of them can be reused
      or a new anon_vma and its link can be had.  The child then has an anon_vma of its own, in front
      of the parent's chain or in it; if it fails the child has no link.  No other vma changes. */
  lemma ForkExactly(steps: seq<Step>, dst: nat, src: nat, budget: nat, np: nat, avOk: bool, avcOk: bool)
    requires var st := Run(BOOT, steps); IsBlank(st, dst) && src in st.vmas && dst != src && np !in st.avs
    ensures
      var st := Run(BOOT, steps);
      var c := st.vmas[src].chain;
      var (st', ok) := Fork(st, dst, src, budget, np, avOk, avcOk);
      && (ok <==> st.vmas[src].anon.None?
                  || (|c| <= budget && ((exists x :: x in c && CanReuse(st, x)) || (avOk && avcOk))))
      && (!ok || st.vmas[src].anon.None? ==> st'.vmas == st.vmas)
      && (ok && st.vmas[src].anon.Some? ==>
            && dst in st'.vmas && st'.vmas == st.vmas[dst := st'.vmas[dst]]
            && (st'.vmas[dst] == Vma([np] + c, Some(np))
                || (st'.vmas[dst].chain == c && st'.vmas[dst].anon.Some? && st'.vmas[dst].anon.value in c)))
  {
    var st := Run(BOOT, steps);
    BootOk();
    RunOk(BOOT, steps);
    hide Run, InvMid, CanReuse, OnlyUnlinks;
    if st.vmas[src].anon.Some? {
      ForkSucceedsIf(st, dst, src, budget, np, avOk, avcOk);
      OldestReusableIs(st, st.vmas[src].chain);
      OldestInChain(st, src);
      hide Fork, OldestReusable;
      var (st', ok) := Fork(st, dst, src, budget, np, avOk, avcOk);
      if ok {
        ForkShape(st, dst, src, budget, np, avOk, avcOk);
      } else {
        FailedFork(st, dst, src, budget, np, avOk, avcOk);
        OnlyBlank(st, st', dst);
      }
    }
  }

  /** A split copies the chain and the anon_vma if there is a link for each element, and else leaves
      the new vma without a link; no other vma changes, and no anon_vma comes or goes. */
  lemma SplitExactly(steps: seq<Step>, dst: nat, src: nat, budget: nat)
    requires var st := Run(BOOT, steps); IsBlank(st, dst) && src in st.vmas && dst != src
    ensures
      var st := Run(BOOT, steps);
      var st' := Next(st, SSplit(dst, src, budget));
      if |st.vmas[src].chain| <= budget then
        st'.vmas == st.vmas[dst := st.vmas[src]] && st'.avs.Keys == st.avs.Keys
      else st'.vmas == st.vmas
  {
    var st := Run(BOOT, steps);
    BootOk();
    RunOk(BOOT, steps);
    hide Run, InvMid, OnlyUnlinks, Clone;
    var preset := st.vmas[src].anon;
    OwnAnon(st, src);
    CloneExactly(st, dst, src, preset, budget);
    CloneOk(st, dst, src, preset, budget);
    if |st.vmas[src].chain| > budget {
      FailedClone(st, dst, src, preset, budget);
      OnlyBlank(st, Clone(st, dst, src, preset, budget).0, dst);
    } else if preset.None? {
      BlankClone(st, dst, src, budget);
    }
  }

  lemma BlankClone(st: State, dst: nat, src: nat, budget: nat)
    requires IsBlank(st, dst) && src in st.vmas && st.vmas[src] == Vma([], None)
    ensures Clone(st, dst, src, None, budget) == (st, true)
  {
    hide Unlink;
  }

  /** An unlink takes the vma out of every tree and takes its anon_vma away; no other vma changes. */
  lemma UnlinkExactly(steps: seq<Step>, v: nat)
    requires v in Run(BOOT, steps).vmas
    ensures
      var st := Run(BOOT, steps);
      var st' := Next(st, SUnlink(v));
      st'.vmas == st.vmas[v := Vma([], None)] && st'.avs.Keys <= st.avs.Keys
  {
    var st := Run(BOOT, steps);
    BootOk();
    RunOk(BOOT, steps);
    Settled(st, v, {});
    hide Run, InvMid, Unlink;
    UnlinkOk(st, v);
    UnlinkOnly(st, v);
    assert forall x :: x in Unlink(st, v).avs ==> x in st.avs;
  }

  lemma ThenUnlinked(st: State, st1: State, v: nat)
    requires v in st.vmas && v in st1.vmas && st1.vmas == st.vmas[v := st1.vmas[v]] && st1.pins == st.pins
    requires SameParents(st.avs, st1.avs) && st1.avs.Keys == st.avs.Keys
    ensures OnlyUnlinks(st, Unlink(st1, v), v)
  {
    UnlinkOnly(st1, v);
    hide Unlink;
  }

  lemma ForkInLine(st: State, v: nat, g: Gen)
    requires Inv(st) && Lineage(st, v) && g.next != v && g.np !in st.avs
    requires Inv(st.(vmas := st.vmas[g.next := Vma([], None)]))
    requires Fork(st.(vmas := st.vmas[g.next := Vma([], None)]), g.next, v, g.budget, g.np, g.avOk, g.avcOk).1
    ensures
      var next := g.next;
      var st' := Fork(st.(vmas := st.vmas[next := Vma([], None)]), next, v, g.budget, g.np, g.avOk, g.avcOk).0;
      && st'.vmas.Keys == {v, next} && st'.vmas[next].anon.Some? && st'.pins == st.pins
      && st'.avs.Keys <= st.avs.Keys + {g.np}
      && var d := st'.vmas[next].chain;
      && |d| <= 3 && (|d| == 3 ==> d[0] in st'.avs && st'.avs[d[0]].parent == d[1])
  {
    var st0 := st.(vmas := st.vmas[g.next := Vma([], None)]);
    var c := st.vmas[v].chain;
    ForkShape(st0, g.next, v, g.budget, g.np, g.avOk, g.avcOk);
    OldestReusableIs(st0, c);
    LineageLive(st, v);
    OwnAnon(st, v);
    RootIsNotReusable(st, v);
    hide Fork, InvMid;
    if |c| == 3 {
      ThreeAreEnough(st, v);
      var x :| x in c && CanReuse(st, x);
      assert CanReuse(st0, x);
    } else if |c| == 2 && OldestReusable(st0, c).None? {
      // the second anon_vma cannot be reused, so it is the active one
      SecondIsActive(st, v);
      assert !CanReuse(st, c[0]);
    }
  }

  /** A childless inactive anon_vma can be reused, so the newer of two that cannot is active. */
  lemma SecondIsActive(st: State, v: nat)
    requires Inv(st) && Lineage(st, v) && |st.vmas[v].chain| == 2
    ensures CanReuse(st, st.vmas[v].chain[0]) || st.vmas[v].anon == Some(st.vmas[v].chain[0])
  {
    var c := st.vmas[v].chain;
    LineageLive(st, v);
    assert VmaOk(st, None, v) && AvOk(st, {}, c[0]);
    assert c[1..] == [c[1]];
    if st.vmas[v].anon != Some(c[0]) {
      assert Actives(st, c[0]) == {};
      forall x | x in st.avs ensures st.avs[x].parent != c[0] { assert x in Elems(c); }
      assert Kids(st, c[0]) == {};
    }
  }

  lemma SucceedKeeps(st: State, v: nat, g: Gen)
    requires Inv(st) && Lineage(st, v) && g.next != v && g.np !in st.avs
    ensures var (st', w) := Succeed(st, v, g); Inv(st') && Lineage(st', w)
  {
    var next, np := g.next, g.np;
    var st0 := st.(vmas := st.vmas[next := Vma([], None)]);
    NewVmaOk(st, next);
    hide InvMid, Fork, Unlink;
    ForkOk(st0, next, v, g.budget, np, g.avOk, g.avcOk);
    var (st1, ok) := Fork(st0, next, v, g.budget, np, g.avOk, g.avcOk);
    assert next !in st.vmas;
    assert Next(st, SNewVma(next)) == st0 && IsBlank(st0, next);
    assert Next(st0, SFork(next, v, g.budget, np, g.avOk, g.avcOk)) == st1;
    if ok {
      ForkInLine(st, v, g);
      forall x: nat ensures Pins(st1, x) == 0 { assert Pins(st, x) == 0; }
      HandOver(st1, v, next);
    } else {
      FailedFork(st0, next, v, g.budget, np, g.avOk, g.avcOk);
      GiveUp(st, st1, v, next);
    }
  }

  /** The parent exits. */
  lemma HandOver(st: State, v: nat, next: nat)
    requires Inv(st) && st.vmas.Keys == {v, next} && v != next && st.vmas[next].anon.Some?
    requires forall x :: Pins(st, x) == 0
    requires var d := st.vmas[next].chain; |d| <= 3 && (|d| == 3 ==> d[0] in st.avs && st.avs[d[0]].parent == d[1])
    ensures var st' := Next(Next(st, SUnlink(v)), SDropVma(v)); Inv(st') && Lineage(st', next)
  {
    hide InvMid, Unlink;
    Settled(st, v, {});
    UnlinkOk(st, v);
    UnlinkOnly(st, v);
    var st2 := Unlink(st, v);
    DropVmaOk(st2, v);
    var st3 := st2.(vmas := st2.vmas - {v});
    assert (st2.vmas - {v}).Keys == {next};
    forall x: nat ensures Pins(st3, x) == 0 { assert Pins(st, x) == 0; }
  }

  /** The fork has failed, and its vma is freed. */
  lemma GiveUp(st: State, st1: State, v: nat, next: nat)
    requires Lineage(st, v) && v != next && Inv(st1) && IsBlank(st1, next)
    requires OnlyUnlinks(st.(vmas := st.vmas[next := Vma([], None)]), st1, next)
    ensures var st' := Next(st1, SDropVma(next)); Inv(st') && Lineage(st', v)
  {
    hide InvMid;
    DropVmaOk(st1, next);
    var st2 := st1.(vmas := st1.vmas - {next});
    assert (st1.vmas - {next}).Keys == {v};
    forall x: nat ensures Pins(st2, x) == 0 { assert Pins(st, x) == 0; }
  }

  /** A line of processes, each forking until it succeeds and then exiting. */
  function Dynasty(gens: seq<Gen>): (State, nat)
    decreases |gens|
  {
    if gens == [] then (Next(Next(BOOT, SNewVma(0)), SPrepare(0, None, 0, true, true)), 0)
    else
      var (st, v) := Dynasty(gens[..|gens| - 1]);
      var g := gens[|gens| - 1];
      if g.next == v || g.np in st.avs then (st, v) else Succeed(st, v, g)
  }

  /** However often a process forks and exits, and whichever allocations fail, at most three
      anon_vmas are alive. */
  lemma {:induction false} DynastyStaysSmall(gens: seq<Gen>)
    ensures var (st, v) := Dynasty(gens);
      Inv(st) && Lineage(st, v) && v in st.vmas && |st.vmas[v].chain| <= 3 && |st.avs| <= 3
    decreases |gens|
  {
    if gens == [] {
      Founder();
    } else {
      DynastyStaysSmall(gens[..|gens| - 1]);
      var (st, v) := Dynasty(gens[..|gens| - 1]);
      var g := gens[|gens| - 1];
      hide Succeed, Inv, Lineage;
      if g.next != v && g.np !in st.avs { SucceedKeeps(st, v, g); }
    }
    var (st, v) := Dynasty(gens);
    LineageLive(st, v);
  }

  lemma Founder()
    ensures var st := Next(Next(BOOT, SNewVma(0)), SPrepare(0, None, 0, true, true)); Inv(st) && Lineage(st, 0)
  {
    BootOk();
    NewVmaOk(BOOT, 0);
    var st0 := Next(BOOT, SNewVma(0));
    PrepareOk(st0, 0, None, 0, true, true);
    NewRootShape(st0, 0, 0);
    hide Attach, Inv;
  }
}
