/** The anon_vma code as it runs: in place, with its list walks as loops.  Each method is tied to
    the function of AnonVma it carries out, and returns whether one of the code's warnings fired,
    which never happens. */
module AnonVmaObjects {
  import opened Wrappers
  import opened AnonVma
  import opened AnonVmaLifetime

  class Forest {
    var avs: map<nat, Av>
    var vmas: map<nat, Vma>
    var pins: map<nat, nat>

    function Now(): State
      reads this
    {
      State(avs, vmas, pins, {})
    }

    constructor ()
      ensures Now() == BOOT && Inv(Now())
    {
      avs, vmas, pins := map[], map[], map[];
      new;
      BootOk();
    }

    lemma Facts(busy: Option<nat>, zs: set<nat>, x: nat)
      requires InvMid(Now(), busy, zs)
      ensures x in zs ==> x in avs
      ensures x in avs && avs[x].tree != {} ==> avs[x].root in avs && avs[x].parent in avs
    {
      assert AvOk(Now(), zs, x);
      if x in avs && avs[x].tree != {} { ParentLinked(Now(), busy, zs, x); }
    }

    // ------------------------------------------------------------- references

    /** put_anon_vma and __put_anon_vma for a reference that is in hand. */
    method PutAnonVma(ghost zs: set<nat>, x: nat)
      requires InvHeld(Now(), None, zs, Some(x))
      modifies this`avs
      ensures Now() == Put(old(Now()), x)
      ensures InvMid(Now(), None, zs)
    {
      hide InvMid, InvHeld;
      PutKeeps(Now(), zs, x);
      PutIsSafe(Now(), zs, x);
      var r := avs[x].root;
      avs := avs[x := avs[x].(refcount := avs[x].refcount - 1)];
      if avs[x].refcount == 0 {
        avs := avs - {x};
        assert avs == old(avs) - {x};
        if r != x {
          avs := avs[r := avs[r].(refcount := avs[r].refcount - 1)];
          if avs[r].refcount == 0 { avs := avs - {r}; }
          assert old(avs)[r].refcount == 1 ==> avs == old(avs) - {x} - {r};
        }
      }
    }

    lemma PutIsSafe(st: State, zs: set<nat>, x: nat)
      requires InvHeld(st, None, zs, Some(x))
      ensures x in st.avs && st.avs[x].root in st.avs
      ensures Put(st, x).faults == {}
    {
      assert AvHeld(st, zs, Some(x), x);
      hide Put, AvHeld;
      PutKeeps(st, zs, x);
    }

    // ----------------------------------------------------------------- unlink

    /** Take v out of the tree of the head of its chain. */
    method RemoveFromTree(v: nat)
      requires v in vmas && vmas[v].chain != []
      requires vmas[v].chain[0] in avs && avs[vmas[v].chain[0]].parent in avs
      modifies this`avs, this`vmas
      ensures Now() == DropLink(old(Now()), v, old(vmas)[v].chain[0])
    {
      var x := vmas[v].chain[0];
      vmas := vmas[v := vmas[v].(chain := vmas[v].chain[1..])];
      avs := avs[x := avs[x].(tree := avs[x].tree - {v})];
      if avs[x].tree == {} {
        var p := avs[x].parent;
        avs := avs[p := avs[p].(children := avs[p].children - 1)];
      }
    }

    method DropOwn(v: nat)
      requires v in vmas && (vmas[v].anon.Some? ==> vmas[v].anon.value in avs)
      modifies this`avs, this`vmas
      ensures Now() == Deactivate(old(Now()), v)
    {
      if vmas[v].anon.Some? {
        var x := vmas[v].anon.value;
        avs := avs[x := avs[x].(active := avs[x].active - 1)];
        vmas := vmas[v := vmas[v].(anon := None)];
      }
    }

    /** unlink_anon_vmas. */
    method UnlinkAnonVmas(v: nat) returns (warned: bool)
      requires InvMid(Now(), Some(v), {}) && v in vmas
      modifies this`avs, this`vmas
      ensures Now() == Unlink(old(Now()), v)
      ensures Inv(Now()) && !warned
    {
      hide InvMid, DropLink, Deactivate;
      ghost var was := Now();
      UnlinkOk(was, v);
      warned := false;
      var root: Option<nat> := None;
      var empties: seq<nat> := [];
      assert Elems(empties) == {};
      while vmas[v].chain != []
        invariant v in vmas && InvMid(Now(), Some(v), Elems(empties)) && Distinct(empties) && !warned
        invariant root.Some? ==> forall i :: 0 <= i < |vmas[v].chain| ==> RootOf(Now(), vmas[v].chain[i]) == root
        invariant UnlinkTrees(Now(), v, vmas[v].chain, root, empties)
          == UnlinkTrees(was, v, was.vmas[v].chain, None, [])
        decreases |vmas[v].chain|
      {
        ghost var st := Now();
        var x := vmas[v].chain[0];
        DropLinkShape(st, v, Elems(empties));
        Facts(Some(v), Elems(empties), x);
        DropLinkKeeps(st, v, Elems(empties));
        DropLinkRoots(st, v, Elems(empties));
        assert Elems(empties + [x]) == Elems(empties) + {x};
        if root.Some? && root.value != avs[x].root { warned := true; }
        assert LockRoot(st, root, x) == st;
        root := Some(avs[x].root);
        RemoveFromTree(v);
        if avs[x].tree == {} { empties := empties + [x]; }
      }
      DeactivateKeeps(Now(), v, Elems(empties));
      OwnAllocated(Now(), v, Elems(empties));
      assert UnlinkTrees(Now(), v, [], root, empties) == (Now(), empties);
      DropOwn(v);
      var bad := PutAll(empties);
      warned := warned || bad;
    }

    lemma OwnAllocated(st: State, v: nat, zs: set<nat>)
      requires InvMid(st, Some(v), zs) && v in st.vmas
      ensures st.vmas[v].anon.Some? ==> st.vmas[v].anon.value in st.avs
    {
      assert VmaOk(st, Some(v), v);
    }

    /** The second loop of unlink_anon_vmas. */
    method PutAll(empties: seq<nat>) returns (warned: bool)
      requires InvMid(Now(), None, Elems(empties)) && Distinct(empties)
      modifies this`avs
      ensures Now() == PutEmpties(old(Now()), empties)
      ensures !warned
    {
      hide InvMid, InvHeld, Put;
      warned := false;
      var i := 0;
      assert empties[0..] == empties;
      while i < |empties|
        invariant 0 <= i <= |empties| && !warned
        invariant InvMid(Now(), None, Elems(empties[i..]))
        invariant PutEmpties(Now(), empties[i..]) == PutEmpties(old(Now()), empties)
      {
        ghost var st := Now();
        var x := empties[i];
        assert empties[i..][0] == x && empties[i..][1..] == empties[i + 1..];
        assert Elems(empties[i..]) - {x} == Elems(empties[i + 1..]);
        ReadyToPut(st, Elems(empties[i..]), x);
        if avs[x].children != 0 { warned := true; }
        if avs[x].active != 0 { warned := true; }
        PutAnonVma(Elems(empties[i + 1..]), x);
        i := i + 1;
      }
      assert empties[i..] == [];
    }

    lemma ReadyToPut(st: State, zs: set<nat>, x: nat)
      requires InvMid(st, None, zs) && x in zs
      ensures x in st.avs && st.avs[x].children == 0 && st.avs[x].active == 0
      ensures InvHeld(st, None, zs - {x}, Some(x))
      ensures PutEmpty(st, x) == Put(st, x)
    {
      assert AvOk(st, zs, x);
      EmptyHasNone(st, None, zs, x);
      forall y: nat ensures AvHeld(st, zs - {x}, Some(x), y) { assert AvOk(st, zs, y); }
    }

    // ---------------------------------------------------------- clone and fork

    method ChainLink(v: nat, x: nat)
      requires v in vmas && x in avs
      modifies this`avs, this`vmas
      ensures Now() == Link(old(Now()), v, x) && v in vmas && x in avs
    {
      vmas := vmas[v := vmas[v].(chain := [x] + vmas[v].chain)];
      avs := avs[x := avs[x].(tree := avs[x].tree + {v})];
    }

    method TakeOwn(v: nat, x: nat)
      requires v in vmas && x in avs
      modifies this`avs, this`vmas
      ensures Now() == Activate(old(Now()), v, Some(x))
    {
      vmas := vmas[v := vmas[v].(anon := Some(x))];
      avs := avs[x := avs[x].(active := avs[x].active + 1)];
    }

    /** anon_vma_clone; ok is false when a link could not be made. */
    method AnonVmaClone(dst: nat, src: nat, preset: Option<nat>, budget: nat) returns (ok: bool, warned: bool)
      requires Inv(Now()) && IsBlank(Now(), dst) && src in vmas && src != dst
      requires preset.None? || preset == vmas[src].anon
      modifies this`avs, this`vmas
      ensures (Now(), ok) == Clone(old(Now()), dst, src, preset, budget)
      ensures !warned
      ensures if ok then InvMid(Now(), Some(dst), {}) else Inv(Now())
    {
      hide InvMid, Link, CanReuse, Activate;
      ghost var was := Now();
      CloneOk(was, dst, src, preset, budget);
      Settled(was, dst, {});
      OwnAnon(was, src);
      warned := false;
      var list, root, pick, left := vmas[src].chain, None, preset, budget;
      var reuse := vmas[src].anon.Some?;
      assert list + [] == list;
      while list != [] && left != 0
        invariant dst in vmas && src in vmas && vmas[src] == was.vmas[src] && vmas[dst].anon.None? && !warned
        invariant InvMid(Now(), Some(dst), {})
        invariant vmas[src].chain == list + vmas[dst].chain
        invariant pick.Some? ==> pick.value in vmas[src].chain
        invariant root.Some? ==> forall i :: 0 <= i < |list| ==> RootOf(Now(), list[i]) == root
        invariant CloneLinks(Now(), dst, list, root, pick, reuse, left)
          == CloneLinks(was, dst, was.vmas[src].chain, None, preset, reuse, budget)
        decreases |list|
      {
        ghost var st := Now();
        var x := list[|list| - 1];
        CloneStep(st, dst, src, list);
        ChainAllocated(st, dst, src);
        if root.Some? && root.value != avs[x].root { warned := true; }
        assert LockRoot(st, root, x) == st;
        root := Some(avs[x].root);
        ChainLink(dst, x);
        if pick.None? && reuse && CanReuse(Now(), x) { pick := Some(x); }
        list, left := list[..|list| - 1], left - 1;
      }
      ChainAllocated(Now(), dst, src);
      if list != [] {
        var bad := UnlinkAnonVmas(dst);
        return false, bad;
      }
      if pick.Some? { TakeOwn(dst, pick.value); } else { ActivateNone(Now(), dst); }
      ok := true;
    }

    lemma ChainAllocated(st: State, dst: nat, src: nat)
      requires InvMid(st, Some(dst), {}) && src in st.vmas
      ensures forall x :: x in st.vmas[src].chain ==> x in st.avs
    {
      assert VmaOk(st, Some(dst), src);
    }

    method MakeOwn(dst: nat, p: nat, np: nat)
      requires p in avs && dst in vmas && avs[p].root in avs && np !in avs
      modifies this`avs, this`vmas
      ensures Now() == Adopt(old(Now()), dst, p, np)
    {
      var r := avs[p].root;
      var own := Av(1, 0, 1, p, r, {dst});
      avs := avs[r := avs[r].(refcount := avs[r].refcount + 1)];
      vmas := vmas[dst := Vma([np] + vmas[dst].chain, Some(np))];
      avs := avs[p := avs[p].(children := avs[p].children + 1)];
      avs := avs[np := own];
    }

    /** anon_vma_fork. */
    method AnonVmaFork(dst: nat, src: nat, budget: nat, np: nat, avOk: bool, avcOk: bool)
      returns (ok: bool, warned: bool)
      requires Inv(Now()) && IsBlank(Now(), dst) && src in vmas && dst != src && np !in avs
      modifies this`avs, this`vmas
      ensures (Now(), ok) == Fork(old(Now()), dst, src, budget, np, avOk, avcOk)
      ensures Inv(Now()) && !warned
    {
      hide InvMid, Clone, Unlink, Put, Adopt;
      ghost var was := Now();
      ForkOk(was, dst, src, budget, np, avOk, avcOk);
      OwnAnon(was, src);
      if vmas[src].anon.None? { return true, false; }
      LiveAnon(was, src);
      CloneOk(was, dst, src, None, budget);
      ok, warned := AnonVmaClone(dst, src, None, budget);
      if !ok || vmas[dst].anon.Some? { return; }
      if avOk && avcOk {
        MakeOwn(dst, vmas[src].anon.value, np);
        return;
      }
      UndoAlloc(Now(), Some(dst), np, Av(1, 0, 1, np, np, {}));
      var bad := UnlinkAnonVmas(dst);
      return false, bad;
    }

    /** __anon_vma_prepare; ok is false for -ENOMEM. */
    method AnonVmaPrepare(v: nat, near: Option<nat>, np: nat, avcOk: bool, avOk: bool) returns (ok: bool)
      requires Inv(Now()) && v in vmas && np !in avs
      modifies this`avs, this`vmas
      ensures (Now(), ok) == Prepare(old(Now()), v, near, np, avcOk, avOk)
      ensures Inv(Now())
    {
      hide InvMid, Link, Activate, Put;
      ghost var was := Now();
      PrepareOk(was, v, near, np, avcOk, avOk);
      if !avcOk { return false; }
      var made := false;
      var x: nat;
      if near.Some? && near.value in vmas && |vmas[near.value].chain| == 1 && vmas[near.value].anon.Some? {
        x := vmas[near.value].anon.value;
        LiveAnon(was, near.value);
      } else {
        if !avOk { return false; }
        x := np;
        avs := avs[np := Av(1, 1, 0, np, np, {})];
        made := true;
      }
      if vmas[v].anon.None? {
        ChainLink(v, x);
        TakeOwn(v, x);
      } else if made {
        UndoAlloc(was, None, np, Av(1, 1, 0, np, np, {}));
        avs := avs - {np};
        assert avs == was.avs;
      }
      ok := true;
    }
  }
}
