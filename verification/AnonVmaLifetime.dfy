/** Lifetime of the anon_vma objects: over every run, counts are exact and nothing is freed
    early, freed twice or used after it was freed. */
module AnonVmaLifetime {
  import opened Wrappers
  import opened AnonVma

  // ------------------------------------------------------------ real counts

  predicate IsLinked(a: Av) {
    a.tree != {}
  }

  /** The anon_vmas, itself included for a root, that count as children of x. */
  ghost function Kids(st: State, x: nat): set<nat> {
    set y | y in st.avs && IsLinked(st.avs[y]) && st.avs[y].parent == x
  }

  ghost function Actives(st: State, x: nat): set<nat> {
    set v | v in st.vmas && st.vmas[v].anon == Some(x)
  }

  /** The other anon_vmas whose lock lives in x. */
  ghost function Tenants(st: State, x: nat): set<nat> {
    set y | y in st.avs && y != x && st.avs[y].root == x
  }

  /** All the vmas whose chain names x. */
  ghost predicate LinkOk(st: State, x: nat, v: nat) {
    (x in st.avs && v in st.avs[x].tree) <==> (v in st.vmas && x in st.vmas[v].chain)
  }

  /** A chain: distinct live anon_vmas with one root, which comes last, and every parent after
      its child. */
  ghost predicate ChainOk(avs: map<nat, Av>, c: seq<nat>) {
    && (forall i :: 0 <= i < |c| ==> c[i] in avs)
    && (forall i, j :: 0 <= i < j < |c| ==> c[i] != c[j])
    && (forall i :: 0 <= i < |c| ==> avs[c[i]].root == c[|c| - 1])
    && (forall i :: 0 <= i < |c| - 1 ==> avs[c[i]].parent in c[i + 1..])
    && (c != [] ==> avs[c[|c| - 1]].parent == c[|c| - 1])
  }

  /** busy is the vma whose chain is being built or taken apart, if any. */
  ghost predicate VmaOk(st: State, busy: Option<nat>, v: nat) {
    v in st.vmas ==>
      var m := st.vmas[v];
      && ChainOk(st.avs, m.chain)
      && (m.anon.Some? ==> m.anon.value in st.avs)
      && (busy != Some(v) ==> (m.anon.None? ==> m.chain == []) && (m.anon.Some? ==> m.anon.value in m.chain))
  }

  /** One reference for being linked, or for waiting to be put. */
  ghost function Hold(st: State, zs: set<nat>, x: nat): int {
    if x in zs || (x in st.avs && st.avs[x].tree != {}) then 1 else 0
  }

  /** zs are the anon_vmas that have been emptied but not yet put; hand is the anon_vma, if any,
      on which one further reference is about to be dropped. */
  ghost predicate AvHeld(st: State, zs: set<nat>, hand: Option<nat>, x: nat) {
    if x in st.avs then
      var a := st.avs[x];
      && a.refcount == Hold(st, zs, x) + Pins(st, x) + |Tenants(st, x)| + (if hand == Some(x) then 1 else 0)
      && a.refcount > 0
      && a.children == |Kids(st, x)|
      && a.active == |Actives(st, x)|
      && a.root in st.avs && st.avs[a.root].root == a.root
      && (a.root == x <==> a.parent == x)
      && (x in zs ==> a.tree == {})
    else x !in zs && Pins(st, x) == 0 && hand != Some(x)
  }

  ghost predicate AvOk(st: State, zs: set<nat>, x: nat) {
    AvHeld(st, zs, None, x)
  }

  ghost predicate InvHeld(st: State, busy: Option<nat>, zs: set<nat>, hand: Option<nat>) {
    && st.faults == {}
    && (forall x :: AvHeld(st, zs, hand, x))
    && (forall v :: VmaOk(st, busy, v))
    && (forall x, v :: LinkOk(st, x, v))
  }

  ghost predicate InvMid(st: State, busy: Option<nat>, zs: set<nat>) {
    && st.faults == {}
    && (forall x :: AvOk(st, zs, x))
    && (forall v :: VmaOk(st, busy, v))
    && (forall x, v :: LinkOk(st, x, v))
  }

  ghost predicate Inv(st: State) {
    InvMid(st, None, {})
  }

  // ------------------------------------------------------- general facts

  lemma SubsetSize(a: set<nat>, b: set<nat>)
    requires a <= b
    ensures |a| <= |b|
  {
    if a != {} {
      var x :| x in a;
      SubsetSize(a - {x}, b - {x});
    }
  }

  /** What the counting sets depend on. */
  ghost predicate SameShape(avs: map<nat, Av>, avs': map<nat, Av>) {
    && avs'.Keys == avs.Keys
    && (forall y :: y in avs ==>
         && avs'[y].parent == avs[y].parent && avs'[y].root == avs[y].root
         && IsLinked(avs'[y]) == IsLinked(avs[y]))
  }

  ghost predicate SameAnon(vmas: map<nat, Vma>, vmas': map<nat, Vma>) {
    && (forall v :: v in vmas && vmas[v].anon.Some? ==> v in vmas' && vmas'[v].anon == vmas[v].anon)
    && (forall v :: v in vmas' && vmas'[v].anon.Some? ==> v in vmas && vmas'[v].anon == vmas[v].anon)
  }

  lemma ShapeCounts(st: State, st': State, x: nat)
    requires SameShape(st.avs, st'.avs)
    ensures Kids(st', x) == Kids(st, x) && Tenants(st', x) == Tenants(st, x)
  {
    hide IsLinked;
  }

  lemma AnonCounts(st: State, st': State, x: nat)
    requires SameAnon(st.vmas, st'.vmas)
    ensures Actives(st', x) == Actives(st, x)
  {
  }

  lemma ParentInChain(avs: map<nat, Av>, c: seq<nat>, y: nat)
    requires ChainOk(avs, c) && y in c
    ensures y in avs && avs[y].parent in c
  {
    var i :| 0 <= i < |c| && c[i] == y;
    if i < |c| - 1 { assert avs[y].parent in c[i + 1..]; }
  }

  /** A linked anon_vma keeps its parent linked. */
  lemma ParentLinked(st: State, busy: Option<nat>, zs: set<nat>, y: nat)
    requires InvMid(st, busy, zs) && y in st.avs && st.avs[y].tree != {}
    ensures st.avs[y].parent in st.avs && st.avs[st.avs[y].parent].tree != {}
  {
    hide AvOk;
    var v :| v in st.avs[y].tree;
    assert LinkOk(st, y, v) && VmaOk(st, busy, v);
    ParentInChain(st.avs, st.vmas[v].chain, y);
    assert LinkOk(st, st.avs[y].parent, v);
  }

  /** Without links an anon_vma has no children and no active vma. */
  lemma EmptyHasNone(st: State, busy: Option<nat>, zs: set<nat>, x: nat)
    requires InvMid(st, busy, zs) && x in st.avs && st.avs[x].tree == {}
    ensures Kids(st, x) == {}
    ensures busy.None? ==> Actives(st, x) == {}
  {
    forall y | y in st.avs && st.avs[y].tree != {} ensures st.avs[y].parent != x {
      ParentLinked(st, busy, zs, y);
    }
    if busy.None? {
      forall v | v in st.vmas ensures st.vmas[v].anon != Some(x) {
        assert VmaOk(st, busy, v) && LinkOk(st, x, v);
      }
    }
  }

  // ---------------------------------------------------------- dropping a link

  /** The head of a chain is linked, and so is its parent. */
  lemma HeadIsLinked(st: State, v: nat, zs: set<nat>)
    requires InvMid(st, Some(v), zs) && v in st.vmas && st.vmas[v].chain != []
    ensures var x := st.vmas[v].chain[0];
      && x in st.avs && x !in zs && v in st.avs[x].tree && st.avs[x].parent in st.avs && st.faults == {}
  {
    var x := st.vmas[v].chain[0];
    assert VmaOk(st, Some(v), v) && LinkOk(st, x, v) && AvOk(st, zs, x);
    ParentLinked(st, Some(v), zs, x);
  }

  lemma DropLinkShape(st: State, v: nat, zs: set<nat>)
    requires InvMid(st, Some(v), zs) && v in st.vmas && st.vmas[v].chain != []
    ensures
      var m := st.vmas[v];
      var x := m.chain[0];
      var st' := DropLink(st, v, x);
      && x in st.avs && x !in zs && v in st.avs[x].tree
      && st'.vmas == st.vmas[v := m.(chain := m.chain[1..])]
      && st'.pins == st.pins && st'.faults == {}
      && st'.avs.Keys == st.avs.Keys
      && (forall y :: y in st.avs ==>
           var a, a' := st.avs[y], st'.avs[y];
           && a'.parent == a.parent && a'.root == a.root && a'.refcount == a.refcount && a'.active == a.active
           && a'.tree == (if y == x then a.tree - {v} else a.tree)
           && a'.children == (if IsEmpty(st', x) && y == st.avs[x].parent then a.children - 1 else a.children))
  {
    HeadIsLinked(st, v, zs);
    hide InvMid;
  }

  /** A chain stays one when only counts and trees change. */
  ghost predicate SameParents(avs: map<nat, Av>, avs': map<nat, Av>) {
    && (forall y :: y in avs ==> y in avs')
    && (forall y :: y in avs ==> avs'[y].parent == avs[y].parent && avs'[y].root == avs[y].root)
  }

  lemma ChainStays(avs: map<nat, Av>, avs': map<nat, Av>, c: seq<nat>)
    requires SameParents(avs, avs') && ChainOk(avs, c)
    ensures ChainOk(avs', c)
    ensures c != [] ==> ChainOk(avs', c[1..])
  {
    ChainTail(avs, c);
    if c != [] { ChainSame(avs, avs', c[1..]); }
    ChainSame(avs, avs', c);
    hide ChainOk;
  }

  lemma ChainTail(avs: map<nat, Av>, c: seq<nat>)
    requires ChainOk(avs, c)
    ensures c != [] ==> ChainOk(avs, c[1..])
  {
    if c != [] {
      var d := c[1..];
      forall i | 0 <= i < |d| - 1 ensures avs[d[i]].parent in d[i + 1..] {
        assert d[i + 1..] == c[i + 2..] && d[i] == c[i + 1];
      }
    }
  }

  lemma ChainSame(avs: map<nat, Av>, avs': map<nat, Av>, c: seq<nat>)
    requires SameParents(avs, avs') && ChainOk(avs, c)
    ensures ChainOk(avs', c)
  {
  }

  lemma SameTenants(st: State, st': State, y: nat)
    requires SameParents(st.avs, st'.avs) && st'.avs.Keys == st.avs.Keys
    ensures Tenants(st', y) == Tenants(st, y)
  {
  }

  lemma KidsWithout(st: State, st': State, x: nat, y: nat)
    requires SameParents(st.avs, st'.avs) && st'.avs.Keys == st.avs.Keys && x in st.avs && IsLinked(st.avs[x])
    requires forall z :: z in st.avs && z != x ==> IsLinked(st'.avs[z]) == IsLinked(st.avs[z])
    ensures
      var gone := !IsLinked(st'.avs[x]) && y == st.avs[x].parent;
      |Kids(st', y)| == |Kids(st, y)| - (if gone then 1 else 0)
  {
    hide IsLinked;
    if !IsLinked(st'.avs[x]) && y == st.avs[x].parent {
      assert Kids(st', y) == Kids(st, y) - {x};
    } else {
      assert Kids(st', y) == Kids(st, y);
    }
  }

  lemma DropLinkCounts(st: State, v: nat, zs: set<nat>, y: nat)
    requires InvMid(st, Some(v), zs) && v in st.vmas && st.vmas[v].chain != []
    ensures
      var x := st.vmas[v].chain[0];
      var st' := DropLink(st, v, x);
      && |Actives(st', y)| == |Actives(st, y)| && |Tenants(st', y)| == |Tenants(st, y)|
      && |Kids(st', y)| == |Kids(st, y)| - (if IsEmpty(st', x) && y == st.avs[x].parent then 1 else 0)
  {
    hide InvMid, Kids, Tenants, Actives;
    var x := st.vmas[v].chain[0];
    var st' := DropLink(st, v, x);
    DropLinkShape(st, v, zs);
    hide DropLink;
    AnonCounts(st, st', y);
    SameTenants(st, st', y);
    KidsWithout(st, st', x, y);
  }

  lemma DropLinkAv(st: State, v: nat, zs: set<nat>, y: nat)
    requires InvMid(st, Some(v), zs) && v in st.vmas && st.vmas[v].chain != []
    ensures
      var x := st.vmas[v].chain[0];
      var st' := DropLink(st, v, x);
      AvOk(st', if IsEmpty(st', x) then zs + {x} else zs, y)
  {
    hide ChainOk, Actives, Tenants, Kids;
    DropLinkShape(st, v, zs);
    DropLinkCounts(st, v, zs, y);
    assert AvOk(st, zs, y);
    hide DropLink, InvMid;
  }

  lemma DropLinkKeeps(st: State, v: nat, zs: set<nat>)
    requires InvMid(st, Some(v), zs) && v in st.vmas && st.vmas[v].chain != []
    ensures
      var x := st.vmas[v].chain[0];
      var st' := DropLink(st, v, x);
      && InvMid(st', Some(v), if IsEmpty(st', x) then zs + {x} else zs)
      && x in st'.avs && x !in zs
      && v in st'.vmas && st'.vmas[v] == st.vmas[v].(chain := st.vmas[v].chain[1..])
      && RootOf(st', x) == RootOf(st, x)
  {
    var m := st.vmas[v];
    var x := m.chain[0];
    var st' := DropLink(st, v, x);
    DropLinkShape(st, v, zs);
    hide DropLink, ChainOk, AvOk;
    var zs' := if IsEmpty(st', x) then zs + {x} else zs;
    forall y: nat ensures AvOk(st', zs', y) {
      DropLinkAv(st, v, zs, y);
    }
    assert SameParents(st.avs, st'.avs);
    forall w ensures VmaOk(st', Some(v), w) {
      assert VmaOk(st, Some(v), w);
      if w in st.vmas { ChainStays(st.avs, st'.avs, st.vmas[w].chain); }
    }
    forall y, w ensures LinkOk(st', y, w) {
      assert LinkOk(st, y, w);
      if w == v { ChainHead(st.avs, st.vmas[v].chain, st, v); }
    }
  }

  lemma ChainHead(avs: map<nat, Av>, c: seq<nat>, st: State, v: nat)
    requires VmaOk(st, Some(v), v) && v in st.vmas && c == st.vmas[v].chain && c != []
    ensures c[0] !in c[1..]
    ensures forall y :: y in c <==> y == c[0] || y in c[1..]
  {
  }

  ghost function Elems(s: seq<nat>): set<nat> {
    set x | x in s
  }

  ghost predicate Distinct(s: seq<nat>) {
    forall i, j :: 0 <= i < j < |s| ==> s[i] != s[j]
  }

  /** The rest of the chain has the root of its head, so the lock is never switched. */
  lemma DropLinkRoots(st: State, v: nat, zs: set<nat>)
    requires InvMid(st, Some(v), zs) && v in st.vmas && st.vmas[v].chain != []
    ensures var c := st.vmas[v].chain;
      forall i :: 0 <= i < |c| - 1 ==> RootOf(DropLink(st, v, c[0]), c[1..][i]) == RootOf(st, c[0])
  {
    DropLinkShape(st, v, zs);
    assert VmaOk(st, Some(v), v);
    hide DropLink;
  }

  lemma {:induction false} UnlinkTreesOk(st: State, v: nat, list: seq<nat>, root: Option<nat>, empties: seq<nat>)
    requires InvMid(st, Some(v), Elems(empties)) && Distinct(empties)
    requires v in st.vmas && st.vmas[v].chain == list
    requires root.Some? ==> forall i :: 0 <= i < |list| ==> RootOf(st, list[i]) == root
    ensures var (st', es) := UnlinkTrees(st, v, list, root, empties);
      && InvMid(st', Some(v), Elems(es)) && Distinct(es)
      && v in st'.vmas && st'.vmas[v] == st.vmas[v].(chain := [])
    decreases |list|
  {
    hide InvMid;
    if list != [] {
      var x := list[0];
      assert LockRoot(st, root, x) == st;
      var st1 := DropLink(st, v, x);
      var es := if IsEmpty(st1, x) then empties + [x] else empties;
      DropLinkKeeps(st, v, Elems(empties));
      DropLinkRoots(st, v, Elems(empties));
      assert Elems(empties + [x]) == Elems(empties) + {x};
      hide DropLink;
      UnlinkTreesOk(st1, v, list[1..], RootOf(st, x), es);
    }
  }

  lemma DeactivateShape(st: State, v: nat, zs: set<nat>)
    requires InvMid(st, Some(v), zs) && v in st.vmas && st.vmas[v].chain == []
    ensures
      var st' := Deactivate(st, v);
      && st'.vmas == st.vmas[v := Vma([], None)] && st'.pins == st.pins && st'.faults == {}
      && st'.avs.Keys == st.avs.Keys
      && forall y :: y in st.avs ==>
           st'.avs[y] == st.avs[y].(active := st.avs[y].active - (if st.vmas[v].anon == Some(y) then 1 else 0))
  {
    hide ChainOk, AvOk;
    assert VmaOk(st, Some(v), v);
  }

  lemma DeactivateAv(st: State, v: nat, zs: set<nat>, y: nat)
    requires InvMid(st, Some(v), zs) && v in st.vmas && st.vmas[v].chain == []
    ensures AvOk(Deactivate(st, v), zs, y)
  {
    var st' := Deactivate(st, v);
    DeactivateShape(st, v, zs);
    assert AvOk(st, zs, y);
    hide Deactivate, InvMid, Kids, Tenants;
    ShapeCounts(st, st', y);
    if st.vmas[v].anon == Some(y) {
      assert Actives(st', y) == Actives(st, y) - {v};
    } else {
      assert Actives(st', y) == Actives(st, y);
    }
  }

  lemma DeactivateKeeps(st: State, v: nat, zs: set<nat>)
    requires InvMid(st, Some(v), zs) && v in st.vmas && st.vmas[v].chain == []
    ensures InvMid(Deactivate(st, v), None, zs)
    ensures Deactivate(st, v).vmas == st.vmas[v := Vma([], None)]
  {
    var st' := Deactivate(st, v);
    DeactivateShape(st, v, zs);
    hide Deactivate, ChainOk, AvOk;
    forall y: nat ensures AvOk(st', zs, y) { DeactivateAv(st, v, zs, y); }
    assert SameParents(st.avs, st'.avs);
    NoChain(st'.avs);
    forall w ensures VmaOk(st', None, w) {
      assert VmaOk(st, Some(v), w);
      if w in st.vmas { ChainStays(st.avs, st'.avs, st.vmas[w].chain); }
    }
    forall y, w ensures LinkOk(st', y, w) { assert LinkOk(st, y, w); }
  }

  lemma NoChain(avs: map<nat, Av>)
    ensures ChainOk(avs, [])
  {
  }

  // ------------------------------------------------------- dropping a reference

  /** Dropping a reference that is not the last. */
  lemma DecKeeps(st: State, zs: set<nat>, x: nat)
    requires InvHeld(st, None, zs, Some(x)) && x in st.avs && st.avs[x].refcount != 1
    ensures InvMid(Put(st, x), None, zs)
  {
    hide ChainOk, Kids, Actives, Tenants;
    var st' := Put(st, x);
    assert AvHeld(st, zs, Some(x), x);
    forall y: nat ensures AvOk(st', zs, y) {
      assert AvHeld(st, zs, Some(x), y);
      ShapeCounts(st, st', y);
      AnonCounts(st, st', y);
    }
    forall w ensures VmaOk(st', None, w) {
      assert VmaOk(st, None, w);
      if w in st.vmas { ChainStays(st.avs, st'.avs, st.vmas[w].chain); }
    }
    forall y, w ensures LinkOk(st', y, w) { assert LinkOk(st, y, w); }
  }

  /** The last reference of an object that nobody needs: it can be freed, and if it is not a
      root it was one of its root's tenants. */
  lemma FreeKeeps(st: State, zs: set<nat>, x: nat)
    requires InvHeld(st, None, zs, Some(x)) && x in st.avs && st.avs[x].refcount == 1
    ensures
      var r := st.avs[x].root;
      var st' := Free(st, x);
      if r == x then InvMid(st', None, zs)
      else InvHeld(st', None, zs, Some(r)) && r in st'.avs && st'.avs[r].root == r
    ensures Free(st, x).vmas == st.vmas
  {
    var st' := Free(st, x);
    var r := st.avs[x].root;
    assert AvHeld(st, zs, Some(x), x);
    assert Tenants(st, x) == {} && st.avs[x].tree == {};
    assert forall y :: y in st.avs && y != x && st.avs[y].root == x ==> y in Tenants(st, x);
    var hand := if r == x then None else Some(r);
    forall y: nat ensures AvHeld(st', zs, hand, y) {
      assert AvHeld(st, zs, Some(x), y);
      assert Kids(st', y) == Kids(st, y);
      assert Actives(st', y) == Actives(st, y);
      if y == r && r != x {
        assert Tenants(st', y) == Tenants(st, y) - {x};
      } else if y != x {
        assert Tenants(st', y) == Tenants(st, y);
      }
    }
    if r == x {
      forall y: nat ensures AvOk(st', zs, y) { assert AvHeld(st', zs, hand, y); }
    }
    forall w ensures VmaOk(st', None, w) {
      assert VmaOk(st, None, w) && LinkOk(st, x, w);
      if w in st.vmas { ChainWithout(st.avs, x, st.vmas[w].chain); }
    }
    forall y, w ensures LinkOk(st', y, w) { assert LinkOk(st, y, w); }
  }

  lemma ChainWithout(avs: map<nat, Av>, x: nat, c: seq<nat>)
    requires ChainOk(avs, c) && x !in c
    ensures ChainOk(avs - {x}, c)
  {
  }

  lemma PutKeeps(st: State, zs: set<nat>, x: nat)
    requires InvHeld(st, None, zs, Some(x))
    ensures InvMid(Put(st, x), None, zs)
    ensures Put(st, x).vmas == st.vmas
  {
    hide InvMid, InvHeld, Free;
    InHand(st, zs, x);
    if st.avs[x].refcount != 1 {
      DecKeeps(st, zs, x);
    } else {
      FreeKeeps(st, zs, x);
      var r := st.avs[x].root;
      if r != x {
        var st1 := Free(st, x);
        assert PutRoot(st1, r) == Put(st1, r);
        if st1.avs[r].refcount != 1 { DecKeeps(st1, zs, r); } else { FreeKeeps(st1, zs, r); }
      }
    }
  }

  lemma InHand(st: State, zs: set<nat>, x: nat)
    requires InvHeld(st, None, zs, Some(x))
    ensures x in st.avs
  {
    assert AvHeld(st, zs, Some(x), x);
  }

  /** An emptied anon_vma is put without a warning. */
  lemma PutEmptyKeeps(st: State, zs: set<nat>, x: nat)
    requires InvMid(st, None, zs) && x in zs
    ensures InvMid(PutEmpty(st, x), None, zs - {x})
    ensures PutEmpty(st, x).vmas == st.vmas
  {
    assert AvOk(st, zs, x);
    EmptyHasNone(st, None, zs, x);
    assert PutEmpty(st, x) == Put(st, x);
    forall y: nat ensures AvHeld(st, zs - {x}, Some(x), y) {
      assert AvOk(st, zs, y);
    }
    PutKeeps(st, zs - {x}, x);
  }

  lemma {:induction false} PutEmptiesOk(st: State, empties: seq<nat>)
    requires InvMid(st, None, Elems(empties)) && Distinct(empties)
    ensures Inv(PutEmpties(st, empties))
    ensures PutEmpties(st, empties).vmas == st.vmas
    decreases |empties|
  {
    hide InvMid;
    if empties == [] {
      assert Elems(empties) == {};
    } else {
      PutEmptyKeeps(st, Elems(empties), empties[0]);
      assert Elems(empties) - {empties[0]} == Elems(empties[1..]);
      hide PutEmpty;
      PutEmptiesOk(PutEmpty(st, empties[0]), empties[1..]);
    }
  }

  /** unlink_anon_vmas, from a state where only v's own pointer may be unsettled. */
  lemma UnlinkOk(st: State, v: nat)
    requires InvMid(st, Some(v), {}) && v in st.vmas
    ensures Inv(Unlink(st, v))
    ensures v in Unlink(st, v).vmas && Unlink(st, v).vmas[v] == Vma([], None)
  {
    hide InvMid;
    assert Elems([]) == {};
    UnlinkTreesOk(st, v, st.vmas[v].chain, None, []);
    var (st1, empties) := UnlinkTrees(st, v, st.vmas[v].chain, None, []);
    DeactivateKeeps(st1, v, Elems(empties));
    hide UnlinkTrees, Deactivate;
    PutEmptiesOk(Deactivate(st1, v), empties);
  }

  lemma Settled(st: State, v: nat, zs: set<nat>)
    requires InvMid(st, None, zs)
    ensures InvMid(st, Some(v), zs)
  {
    forall w ensures VmaOk(st, Some(v), w) { assert VmaOk(st, None, w); }
  }

  // ------------------------------------------------------------ adding links

  lemma ChainSuffix(avs: map<nat, Av>, c: seq<nat>, k: nat)
    requires ChainOk(avs, c) && k <= |c|
    ensures ChainOk(avs, c[k..])
  {
    var d := c[k..];
    forall i | 0 <= i < |d| - 1 ensures avs[d[i]].parent in d[i + 1..] {
      assert d[i] == c[k + i] && avs[c[k + i]].parent in c[k + i + 1..];
      assert d[i + 1..] == c[k + i + 1..];
    }
  }

  lemma AvStays(st: State, st': State, y: nat)
    requires AvOk(st, {}, y) && SameShape(st.avs, st'.avs) && SameAnon(st.vmas, st'.vmas) && st'.pins == st.pins
    requires y in st.avs ==>
      var a, a' := st.avs[y], st'.avs[y];
      a'.refcount == a.refcount && a'.children == a.children && a'.active == a.active
    ensures AvOk(st', {}, y)
  {
    ShapeCounts(st, st', y);
    AnonCounts(st, st', y);
    hide Kids, Actives, Tenants;
  }

  lemma LinkShape(st: State, v: nat, src: nat, k: nat)
    requires InvMid(st, Some(v), {}) && v in st.vmas && src in st.vmas && src != v
    requires k < |st.vmas[src].chain| && st.vmas[v].chain == st.vmas[src].chain[k + 1..]
    ensures
      var c := st.vmas[src].chain;
      var x := c[k];
      && x in st.avs && st.avs[x].tree != {} && ChainOk(st.avs, c)
      && Link(st, v, x) == st.(avs := st.avs[x := st.avs[x].(tree := st.avs[x].tree + {v})],
                               vmas := st.vmas[v := st.vmas[v].(chain := c[k..])])
  {
    var c := st.vmas[src].chain;
    assert VmaOk(st, Some(v), src) && LinkOk(st, c[k], src);
    assert [c[k]] + c[k + 1..] == c[k..];
  }

  lemma LinkLinks(st: State, v: nat, c: seq<nat>, k: nat, y: nat, w: nat)
    requires LinkOk(st, y, w) && k < |c| && c[k] in st.avs && v in st.vmas && st.vmas[v].chain == c[k + 1..]
    ensures LinkOk(st.(avs := st.avs[c[k] := st.avs[c[k]].(tree := st.avs[c[k]].tree + {v})],
                       vmas := st.vmas[v := st.vmas[v].(chain := c[k..])]), y, w)
  {
    assert c[k..] == [c[k]] + c[k + 1..];
  }

  /** One more link, taken from another vma's chain right after the links already there. */
  lemma LinkKeeps(st: State, v: nat, src: nat, k: nat)
    requires InvMid(st, Some(v), {}) && v in st.vmas && src in st.vmas && src != v
    requires k < |st.vmas[src].chain| && st.vmas[v].chain == st.vmas[src].chain[k + 1..]
    ensures
      var c := st.vmas[src].chain;
      var st' := Link(st, v, c[k]);
      && InvMid(st', Some(v), {})
      && st'.vmas == st.vmas[v := st.vmas[v].(chain := c[k..])]
      && SameShape(st.avs, st'.avs) && st'.pins == st.pins
  {
    hide AvOk, VmaOk, LinkOk;
    var c := st.vmas[src].chain;
    var x := c[k];
    var st' := Link(st, v, x);
    LinkShape(st, v, src, k);
    hide Link, ChainOk;
    assert SameShape(st.avs, st'.avs);
    forall y: nat ensures AvOk(st', {}, y) {
      assert AvOk(st, {}, y);
      AvStays(st, st', y);
    }
    forall w: nat ensures VmaOk(st', Some(v), w) {
      assert VmaOk(st, Some(v), w);
      LinkVmas(st, v, c, k, st', w);
    }
    forall y: nat, w: nat ensures LinkOk(st', y, w) {
      assert LinkOk(st, y, w);
      LinkLinks(st, v, c, k, y, w);
    }
  }

  lemma LinkVmas(st: State, v: nat, c: seq<nat>, k: nat, st': State, w: nat)
    requires VmaOk(st, Some(v), w) && k < |c| && ChainOk(st.avs, c) && v in st.vmas
    requires SameShape(st.avs, st'.avs) && st'.vmas == st.vmas[v := st.vmas[v].(chain := c[k..])]
    ensures VmaOk(st', Some(v), w)
  {
    hide ChainOk;
    if w == v {
      ChainSuffix(st.avs, c, k);
      ChainStays(st.avs, st'.avs, c[k..]);
    } else if w in st.vmas {
      ChainStays(st.avs, st'.avs, st.vmas[w].chain);
    }
  }

  lemma ActivateKeeps(st: State, v: nat, x: nat)
    requires InvMid(st, Some(v), {}) && v in st.vmas && st.vmas[v].anon.None? && x in st.vmas[v].chain
    ensures Inv(Activate(st, v, Some(x)))
    ensures Activate(st, v, Some(x)).vmas == st.vmas[v := st.vmas[v].(anon := Some(x))]
  {
    var st' := Activate(st, v, Some(x));
    assert VmaOk(st, Some(v), v);
    assert SameShape(st.avs, st'.avs);
    hide ChainOk, Kids, Actives, Tenants;
    forall y: nat ensures AvOk(st', {}, y) {
      assert AvOk(st, {}, y);
      ShapeCounts(st, st', y);
      GrownActives(st, st', v, x, y);
    }
    forall w ensures VmaOk(st', None, w) {
      assert VmaOk(st, Some(v), w);
      if w in st.vmas { ChainStays(st.avs, st'.avs, st.vmas[w].chain); }
    }
    forall y, w ensures LinkOk(st', y, w) { assert LinkOk(st, y, w); }
  }

  function NewRoot(st: State, np: nat): State {
    st.(avs := st.avs[np := Av(1, 1, 0, np, np, {})])
  }

  lemma NewRootShape(st: State, v: nat, np: nat)
    requires v in st.vmas && st.vmas[v] == Vma([], None) && np !in st.avs
    ensures Attach(NewRoot(st, np), v, np) ==
      st.(avs := st.avs[np := Av(1, 1, 1, np, np, {v})], vmas := st.vmas[v := Vma([np], Some(np))])
  {
    var st1 := Link(NewRoot(st, np), v, np);
    assert [np] + [] == [np];
    assert {} + {v} == {v};
    assert st1.avs == st.avs[np := Av(1, 1, 0, np, np, {v})];
    assert st1.vmas == st.vmas[v := Vma([np], None)];
  }

  ghost predicate Grows(avs: map<nat, Av>, avs': map<nat, Av>, np: nat) {
    && np !in avs && np in avs'
    && (forall z :: z in avs' <==> z in avs || z == np)
    && (forall z :: z in avs ==>
         && avs'[z].parent == avs[z].parent && avs'[z].root == avs[z].root && IsLinked(avs'[z]) == IsLinked(avs[z]))
  }

  lemma GrownKids(st: State, st': State, np: nat, y: nat)
    requires Grows(st.avs, st'.avs, np)
    ensures |Kids(st', y)| == |Kids(st, y)| + if IsLinked(st'.avs[np]) && st'.avs[np].parent == y then 1 else 0
  {
    hide IsLinked;
    var more := if IsLinked(st'.avs[np]) && st'.avs[np].parent == y then {np} else {};
    forall z: nat ensures z in Kids(st', y) <==> z in Kids(st, y) || z in more {
    }
    assert Kids(st', y) == Kids(st, y) + more;
    assert np !in Kids(st, y);
  }

  lemma GrownTenants(st: State, st': State, np: nat, y: nat)
    requires Grows(st.avs, st'.avs, np)
    ensures |Tenants(st', y)| == |Tenants(st, y)| + if np != y && st'.avs[np].root == y then 1 else 0
  {
    if np != y && st'.avs[np].root == y {
      assert Tenants(st', y) == Tenants(st, y) + {np};
    } else {
      assert Tenants(st', y) == Tenants(st, y);
    }
  }

  /** What one more anon_vma adds to the counts. */
  lemma GrownCounts(st: State, st': State, np: nat, y: nat)
    requires Grows(st.avs, st'.avs, np)
    ensures |Kids(st', y)| == |Kids(st, y)| + if IsLinked(st'.avs[np]) && st'.avs[np].parent == y then 1 else 0
    ensures |Tenants(st', y)| == |Tenants(st, y)| + if np != y && st'.avs[np].root == y then 1 else 0
  {
    hide Kids, Tenants, Grows;
    GrownKids(st, st', np, y);
    GrownTenants(st, st', np, y);
  }

  /** What a vma that gets its own anon_vma adds to them. */
  lemma GrownActives(st: State, st': State, v: nat, x: nat, y: nat)
    requires v in st.vmas && st.vmas[v].anon.None? && v in st'.vmas && st'.vmas[v].anon == Some(x)
    requires st'.vmas == st.vmas[v := st'.vmas[v]]
    ensures |Actives(st', y)| == |Actives(st, y)| + if y == x then 1 else 0
  {
    assert Actives(st', y) == Actives(st, y) + if y == x then {v} else {};
  }

  lemma NewRootAv(st: State, v: nat, np: nat, y: nat)
    requires Inv(st) && v in st.vmas && st.vmas[v] == Vma([], None) && np !in st.avs
    ensures AvOk(Attach(NewRoot(st, np), v, np), {}, y)
  {
    var st' := Attach(NewRoot(st, np), v, np);
    NewRootShape(st, v, np);
    assert AvOk(st, {}, y) && AvOk(st, {}, np);
    hide Attach, NewRoot, Kids, Actives, Tenants;
    GrownCounts(st, st', np, y);
    GrownActives(st, st', v, np, y);
    if y == np { NobodyCounts(st, None, np); }
  }

  /** A new root for a vma without links. */
  lemma NewRootKeeps(st: State, v: nat, np: nat)
    requires Inv(st) && v in st.vmas && st.vmas[v].anon.None? && np !in st.avs
    ensures Inv(Attach(NewRoot(st, np), v, np))
  {
    hide ChainOk, Attach, NewRoot, AvOk;
    assert VmaOk(st, None, v);
    NewRootShape(st, v, np);
    var st' := Attach(NewRoot(st, np), v, np);
    forall y: nat ensures AvOk(st', {}, y) { NewRootAv(st, v, np, y); }
    forall w ensures VmaOk(st', None, w) {
      assert VmaOk(st, None, w);
      SingleChain(st'.avs, np);
      if w in st.vmas { ChainStays(st.avs, st'.avs, st.vmas[w].chain); }
    }
    forall y, w ensures LinkOk(st', y, w) { assert LinkOk(st, y, w) && LinkOk(st, np, w); }
  }

  lemma SingleChain(avs: map<nat, Av>, x: nat)
    requires x in avs && avs[x].root == x && avs[x].parent == x
    ensures ChainOk(avs, [x])
  {
  }

  /** An identifier that is not in use is nobody's parent, root or own anon_vma. */
  lemma NobodyNames(st: State, busy: Option<nat>, np: nat)
    requires InvMid(st, busy, {}) && np !in st.avs
    ensures forall y :: y in st.avs && st.avs[y].tree != {} ==> st.avs[y].parent != np
    ensures forall y :: y in st.avs ==> st.avs[y].root != np
    ensures forall v :: v in st.vmas ==> st.vmas[v].anon != Some(np)
  {
    forall y | y in st.avs ensures st.avs[y].root != np { assert AvOk(st, {}, y); }
    forall y | y in st.avs && st.avs[y].tree != {} ensures st.avs[y].parent != np { ParentLinked(st, busy, {}, y); }
    forall v | v in st.vmas ensures st.vmas[v].anon != Some(np) { assert VmaOk(st, busy, v); }
  }

  lemma NobodyCounts(st: State, busy: Option<nat>, np: nat)
    requires InvMid(st, busy, {}) && np !in st.avs
    ensures |Kids(st, np)| == |Actives(st, np)| == |Tenants(st, np)| == 0
  {
    assert Kids(st, np) == {} && Actives(st, np) == {} && Tenants(st, np) == {} by { NobodyNames(st, busy, np); }
  }

  /** fork's own anon_vma. */
  lemma AdoptVma(st: State, dst: nat, p: nat, np: nat, w: nat)
    requires InvMid(st, Some(dst), {}) && dst in st.vmas && p in st.vmas[dst].chain && p in st.avs && np !in st.avs
    requires st.avs[p].root in st.avs
    ensures VmaOk(Adopt(st, dst, p, np), None, w)
  {
    var st' := Adopt(st, dst, p, np);
    assert VmaOk(st, Some(dst), w);
    AdoptShape(st, dst, p, np);
    assert SameParents(st.avs, st'.avs);
    hide Adopt, InvMid, AvOk, ChainOk, SameParents;
    if w == dst {
      NewHead(st.avs, st'.avs, p, np, st.vmas[dst].chain);
    } else if w in st.vmas {
      ChainSame(st.avs, st'.avs, st.vmas[w].chain);
      SameParentsHas(st.avs, st'.avs);
    }
  }

  lemma SameParentsHas(avs: map<nat, Av>, avs': map<nat, Av>)
    requires SameParents(avs, avs')
    ensures forall y :: y in avs ==> y in avs'
  {
  }

  lemma AdoptKeeps(st: State, dst: nat, p: nat, np: nat)
    requires InvMid(st, Some(dst), {}) && dst in st.vmas && st.vmas[dst].anon.None?
    requires p in st.vmas[dst].chain && np !in st.avs
    ensures Inv(Adopt(st, dst, p, np))
  {
    var st' := Adopt(st, dst, p, np);
    assert VmaOk(st, Some(dst), dst);
    assert p in st.avs;
    assert AvOk(st, {}, p);
    AdoptShape(st, dst, p, np);
    hide Adopt, AvOk, VmaOk;
    forall y: nat ensures AvOk(st', {}, y) { AdoptAv(st, dst, p, np, y); }
    forall w ensures VmaOk(st', None, w) { AdoptVma(st, dst, p, np, w); }
    forall y, w ensures LinkOk(st', y, w) { assert LinkOk(st, y, w) && LinkOk(st, np, w); }
  }

  lemma NewHead(avs: map<nat, Av>, avs': map<nat, Av>, p: nat, np: nat, c: seq<nat>)
    requires ChainOk(avs, c) && SameParents(avs, avs') && np !in avs && p in c
    requires np in avs' && avs'[np].parent == p && avs'[np].root == avs[p].root
    ensures ChainOk(avs', [np] + c)
  {
    ChainSame(avs, avs', c);
    assert np !in c;
    hide SameParents;
    OnTop(avs', p, np, c);
  }

  lemma OnTop(avs: map<nat, Av>, p: nat, np: nat, c: seq<nat>)
    requires ChainOk(avs, c) && np !in c && p in c
    requires np in avs && avs[np].parent == p && p in avs && avs[np].root == avs[p].root
    ensures ChainOk(avs, [np] + c)
  {
    var d := [np] + c;
    assert d[1..] == c;
    forall i | 0 <= i < |d| - 1 ensures avs[d[i]].parent in d[i + 1..] {
      if i > 0 { assert d[i] == c[i - 1] && d[i + 1..] == c[i..]; }
    }
  }

  lemma AdoptShape(st: State, dst: nat, p: nat, np: nat)
    requires p in st.avs && dst in st.vmas && st.avs[p].root in st.avs && np !in st.avs
    ensures
      var r := st.avs[p].root;
      var st' := Adopt(st, dst, p, np);
      && st'.vmas == st.vmas[dst := Vma([np] + st.vmas[dst].chain, Some(np))]
      && st'.pins == st.pins && st'.faults == st.faults
      && st'.avs.Keys == st.avs.Keys + {np} && st'.avs[np] == Av(1, 0, 1, p, r, {dst})
      && (forall y :: y in st.avs ==>
           st'.avs[y] == st.avs[y].(refcount := st.avs[y].refcount + (if y == r then 1 else 0),
                                    children := st.avs[y].children + (if y == p then 1 else 0)))
  {
  }

  lemma AdoptAv(st: State, dst: nat, p: nat, np: nat, y: nat)
    requires InvMid(st, Some(dst), {}) && dst in st.vmas && st.vmas[dst].anon.None?
    requires p in st.avs && np !in st.avs
    ensures AvOk(Adopt(st, dst, p, np), {}, y)
  {
    var st' := Adopt(st, dst, p, np);
    assert AvOk(st, {}, y) && AvOk(st, {}, p) && AvOk(st, {}, np);
    AdoptShape(st, dst, p, np);
    hide Adopt, InvMid, Kids, Actives, Tenants;
    GrownCounts(st, st', np, y);
    GrownActives(st, st', dst, np, y);
    if y == np {
      NobodyCounts(st, Some(dst), np);
    }
  }

  // -------------------------------------------------------------- the steps

  lemma MoveLast(list: seq<nat>, done: seq<nat>)
    requires list != []
    ensures list + done == list[..|list| - 1] + ([list[|list| - 1]] + done)
  {
  }

  /** The links of a chain are all under one root. */
  lemma CloneRoots(st: State, st': State, dst: nat, src: nat, list: seq<nat>, done: seq<nat>)
    requires InvMid(st, Some(dst), {})
    requires src in st.vmas && st.vmas[src].chain == list + done && list != [] && SameShape(st.avs, st'.avs)
    ensures forall i :: 0 <= i < |list| ==> RootOf(st, list[i]) == RootOf(st', list[i]) == RootOf(st, list[|list| - 1])
  {
    hide AvOk, LinkOk;
    var c := st.vmas[src].chain;
    assert VmaOk(st, Some(dst), src);
    assert forall i :: 0 <= i < |list| ==> c[i] == list[i];
  }

  /** A round of the clone loop. */
  lemma CloneStep(st: State, dst: nat, src: nat, list: seq<nat>)
    requires InvMid(st, Some(dst), {}) && dst in st.vmas && src in st.vmas && src != dst
    requires st.vmas[src].chain == list + st.vmas[dst].chain && list != []
    ensures
      var x := list[|list| - 1];
      var st' := Link(st, dst, x);
      && InvMid(st', Some(dst), {}) && SameShape(st.avs, st'.avs) && st'.pins == st.pins
      && st'.vmas == st.vmas[dst := st.vmas[dst].(chain := [x] + st.vmas[dst].chain)]
      && st.vmas[src].chain == list[..|list| - 1] + ([x] + st.vmas[dst].chain)
      && x in st.vmas[src].chain
      && (forall i :: 0 <= i < |list| ==> RootOf(st, list[i]) == RootOf(st', list[i]) == RootOf(st, x))
  {
    hide InvMid, SameShape, Link, RootOf;
    var k := |list| - 1;
    var done := st.vmas[dst].chain;
    var c := st.vmas[src].chain;
    MoveLast(list, done);
    assert c[k] == list[k] && c[k + 1..] == done && c[k..] == [list[k]] + done;
    LinkKeeps(st, dst, src, k);
    CloneRoots(st, Link(st, dst, list[k]), dst, src, list, done);
  }

  lemma ParentsRefl(avs: map<nat, Av>)
    ensures SameParents(avs, avs)
  {
  }

  lemma ParentsTrans(avs: map<nat, Av>, avs1: map<nat, Av>, avs2: map<nat, Av>)
    requires SameShape(avs, avs1)
    ensures avs1.Keys == avs.Keys
    ensures SameParents(avs1, avs2) ==> SameParents(avs, avs2)
  {
  }

  /** The loop of anon_vma_clone: dst ends up with the whole chain of the source, or with a part
      of it when a link cannot be allocated; a reused anon_vma is in that chain. */
  lemma {:induction false} CloneLinksOk(st: State, dst: nat, src: nat, list: seq<nat>, root: Option<nat>,
                                        pick: Option<nat>, reuse: bool, budget: nat)
    requires InvMid(st, Some(dst), {}) && dst in st.vmas && src in st.vmas && src != dst && st.vmas[dst].anon.None?
    requires st.vmas[src].chain == list + st.vmas[dst].chain
    requires pick.Some? ==> pick.value in st.vmas[src].chain
    requires root.Some? ==> forall i :: 0 <= i < |list| ==> RootOf(st, list[i]) == root
    ensures
      var c := st.vmas[src].chain;
      var (st', pick', ok) := CloneLinks(st, dst, list, root, pick, reuse, budget);
      && InvMid(st', Some(dst), {})
      && dst in st'.vmas && st'.vmas == st.vmas[dst := st'.vmas[dst]] && st'.vmas[dst].anon.None?
      && (ok ==> st'.vmas[dst].chain == c)
      && (pick'.Some? ==> pick'.value in c)
      && (pick.Some? ==> pick' == pick)
      && SameParents(st.avs, st'.avs) && st'.avs.Keys == st.avs.Keys && st'.pins == st.pins
    decreases |list|
  {
    hide InvMid, SameParents, SameShape, RootOf;
    ParentsRefl(st.avs);
    if list != [] && budget > 0 {
      var x := list[|list| - 1];
      assert LockRoot(st, root, x) == st;
      CloneStep(st, dst, src, list);
      var st1 := Link(st, dst, x);
      hide Link, CanReuse;
      var pick1 := if pick.None? && reuse && CanReuse(st1, x) then Some(x) else pick;
      CloneLinksOk(st1, dst, src, list[..|list| - 1], RootOf(st, x), pick1, reuse, budget - 1);
      ParentsTrans(st.avs, st1.avs,
          CloneLinks(st1, dst, list[..|list| - 1], RootOf(st, x), pick1, reuse, budget - 1).0.avs);
    }
  }

  lemma CloneOk(st: State, dst: nat, src: nat, preset: Option<nat>, budget: nat)
    requires Inv(st) && IsBlank(st, dst) && src in st.vmas && src != dst
    requires preset.None? || preset == st.vmas[src].anon
    ensures
      var (st', ok) := Clone(st, dst, src, preset, budget);
      if ok then
        && InvMid(st', Some(dst), {}) && SameParents(st.avs, st'.avs)
        && st'.avs.Keys == st.avs.Keys && st'.pins == st.pins
        && dst in st'.vmas && st'.vmas == st.vmas[dst := st'.vmas[dst]]
        && st'.vmas[dst].chain == st.vmas[src].chain
        && (st'.vmas[dst].anon.Some? || preset == st.vmas[src].anon ==> Inv(st'))
        && (preset.Some? ==> st'.vmas[dst].anon == preset)
      else Inv(st') && dst in st'.vmas && st'.vmas[dst] == Vma([], None)
  {
    hide InvMid, Activate;
    Settled(st, dst, {});
    OwnAnon(st, src);
    var c := st.vmas[src].chain;
    var reuse := st.vmas[src].anon.Some?;
    assert c == c + [];
    CloneLinksOk(st, dst, src, c, None, preset, reuse, budget);
    var (st1, pick, ok) := CloneLinks(st, dst, c, None, preset, reuse, budget);
    if !ok {
      UnlinkOk(st1, dst);
    } else if pick.Some? {
      ActivateKeeps(st1, dst, pick.value);
      Settled(Activate(st1, dst, pick), dst, {});
      ActivateParents(st1, dst, pick);
    } else {
      ActivateNone(st1, dst);
      if c == [] { Unsettled(st1, dst); }
    }
  }

  lemma ActivateNone(st: State, v: nat)
    ensures Activate(st, v, None) == st
  {
  }

  lemma OwnAnon(st: State, v: nat)
    requires Inv(st) && v in st.vmas
    ensures st.vmas[v].anon.Some? ==> st.vmas[v].anon.value in st.vmas[v].chain
    ensures st.vmas[v].anon.None? ==> st.vmas[v].chain == []
  {
    assert VmaOk(st, None, v);
  }

  lemma LiveAnon(st: State, v: nat)
    requires Inv(st) && v in st.vmas && st.vmas[v].anon.Some?
    ensures var x := st.vmas[v].anon.value; x in st.avs && st.avs[x].root in st.avs
  {
    assert VmaOk(st, None, v);
    assert AvOk(st, {}, st.vmas[v].anon.value);
  }

  lemma ActivateParents(st: State, v: nat, pick: Option<nat>)
    ensures SameParents(st.avs, Activate(st, v, pick).avs) && Activate(st, v, pick).avs.Keys == st.avs.Keys
    ensures Activate(st, v, pick).pins == st.pins
  {
  }

  lemma Unsettled(st: State, v: nat)
    requires InvMid(st, Some(v), {}) && v in st.vmas && st.vmas[v] == Vma([], None)
    ensures Inv(st)
  {
    forall w ensures VmaOk(st, None, w) { assert VmaOk(st, Some(v), w); }
  }

  lemma PrepareOk(st: State, v: nat, near: Option<nat>, np: nat, avcOk: bool, avOk: bool)
    requires Inv(st)
    ensures Inv(Prepare(st, v, near, np, avcOk, avOk).0)
  {
    hide InvMid, Attach, Put;
    if v in st.vmas && np !in st.avs && avcOk {
      match Mergeable(st, near)
      case Some(x) =>
        if st.vmas[v].anon.None? { AttachOk(st, v, near.value); }
      case None =>
        if avOk {
          if st.vmas[v].anon.None? {
            NewRootKeeps(st, v, np);
          } else {
            UndoAlloc(st, None, np, Av(1, 1, 0, np, np, {}));
          }
        }
    }
  }

  lemma AttachOk(st: State, v: nat, near: nat)
    requires Inv(st) && v in st.vmas && st.vmas[v].anon.None?
    requires near in st.vmas && |st.vmas[near].chain| == 1 && st.vmas[near].anon.Some?
    ensures Inv(Attach(st, v, st.vmas[near].anon.value))
  {
    hide InvMid, Link, Activate;
    OwnAnon(st, v);
    OwnAnon(st, near);
    Settled(st, v, {});
    LinkKeeps(st, v, near, 0);
    var x := st.vmas[near].anon.value;
    assert st.vmas[near].chain[0..] == [x];
    ActivateKeeps(Link(st, v, x), v, x);
  }

  /** An anon_vma that was allocated and not linked is given back. */
  lemma UndoAlloc(st: State, busy: Option<nat>, np: nat, a: Av)
    requires InvMid(st, busy, {}) && np !in st.avs && a.refcount == 1 && a.root == np && a.tree == {}
    ensures Put(st.(avs := st.avs[np := a]), np) == st
  {
    NobodyNames(st, busy, np);
    assert st.avs[np := a] - {np} == st.avs;
  }

  lemma ForkOk(st: State, dst: nat, src: nat, budget: nat, np: nat, avOk: bool, avcOk: bool)
    requires Inv(st) && IsBlank(st, dst) && dst != src
    ensures Inv(Fork(st, dst, src, budget, np, avOk, avcOk).0)
  {
    hide InvMid, Clone, Unlink, Put, Adopt;
    if src in st.vmas && np !in st.avs && st.vmas[src].anon.Some? {
      CloneOk(st, dst, src, None, budget);
      var (st1, ok) := Clone(st, dst, src, None, budget);
      if ok && st1.vmas[dst].anon.None? {
        OwnAnon(st, src);
        UndoAlloc(st1, Some(dst), np, Av(1, 0, 1, np, np, {}));
        UnlinkOk(st1, dst);
        AdoptKeeps(st1, dst, st.vmas[src].anon.value, np);
      }
    }
  }

  lemma PinOk(st: State, x: nat)
    requires Inv(st)
    ensures Inv(Pin(st, x))
  {
    var st' := Pin(st, x);
    if x in st.avs {
      assert SameShape(st.avs, st'.avs);
      hide ChainOk, Kids, Actives, Tenants;
      forall y: nat ensures AvOk(st', {}, y) {
        assert AvOk(st, {}, y);
        ShapeCounts(st, st', y);
        AnonCounts(st, st', y);
      }
      forall w ensures VmaOk(st', None, w) {
        assert VmaOk(st, None, w);
        if w in st.vmas { ChainStays(st.avs, st'.avs, st.vmas[w].chain); }
      }
      forall y, w ensures LinkOk(st', y, w) { assert LinkOk(st, y, w); }
    }
  }

  lemma UnpinOk(st: State, x: nat)
    requires Inv(st)
    ensures Inv(Unpin(st, x))
  {
    if Pins(st, x) != 0 {
      var st1 := st.(pins := st.pins[x := Pins(st, x) - 1]);
      hide ChainOk, Kids, Actives, Tenants;
      forall y: nat ensures AvHeld(st1, {}, Some(x), y) {
        assert AvOk(st, {}, y);
        ShapeCounts(st, st1, y);
        AnonCounts(st, st1, y);
      }
      forall w ensures VmaOk(st1, None, w) { assert VmaOk(st, None, w); }
      forall y, w ensures LinkOk(st1, y, w) { assert LinkOk(st, y, w); }
      PutKeeps(st1, {}, x);
    }
  }

  lemma NewVmaOk(st: State, v: nat)
    requires Inv(st) && v !in st.vmas
    ensures Inv(st.(vmas := st.vmas[v := Vma([], None)]))
  {
    var st' := st.(vmas := st.vmas[v := Vma([], None)]);
    forall y: nat ensures AvOk(st', {}, y) {
      assert AvOk(st, {}, y);
      AnonCounts(st, st', y);
      ShapeCounts(st, st', y);
    }
    forall w ensures VmaOk(st', None, w) { assert VmaOk(st, None, w); }
    forall y, w ensures LinkOk(st', y, w) { assert LinkOk(st, y, w); }
  }

  lemma DropVmaOk(st: State, v: nat)
    requires Inv(st) && IsBlank(st, v)
    ensures Inv(st.(vmas := st.vmas - {v}))
  {
    var st' := st.(vmas := st.vmas - {v});
    forall y: nat ensures AvOk(st', {}, y) {
      assert AvOk(st, {}, y);
      AnonCounts(st, st', y);
      ShapeCounts(st, st', y);
    }
    forall w ensures VmaOk(st', None, w) { assert VmaOk(st, None, w); }
    forall y, w ensures LinkOk(st', y, w) { assert LinkOk(st, y, w); }
  }

  lemma NextOk(st: State, step: Step)
    requires Inv(st)
    ensures Inv(Next(st, step))
  {
    hide InvMid, Clone, Fork, Prepare, Unlink, Pin, Unpin;
    match step
    case SNewVma(v) => if v !in st.vmas { NewVmaOk(st, v); }
    case SPrepare(v, near, np, avcOk, avOk) => PrepareOk(st, v, near, np, avcOk, avOk);
    case SSplit(dst, src, budget) =>
      if IsBlank(st, dst) && src in st.vmas && dst != src { CloneOk(st, dst, src, st.vmas[src].anon, budget); }
    case SFork(dst, src, budget, np, avOk, avcOk) =>
      if IsBlank(st, dst) && dst != src { ForkOk(st, dst, src, budget, np, avOk, avcOk); }
    case SUnlink(v) =>
      if v in st.vmas {
        Settled(st, v, {});
        UnlinkOk(st, v);
      } else {
        UnlinkNone(st, v);
      }
    case SDropVma(v) => if IsBlank(st, v) { DropVmaOk(st, v); }
    case SPin(x) => PinOk(st, x);
    case SUnpin(x) => UnpinOk(st, x);
  }

  lemma UnlinkNone(st: State, v: nat)
    requires v !in st.vmas
    ensures Unlink(st, v) == st
  {
  }

  lemma {:induction false} RunOk(st: State, steps: seq<Step>)
    requires Inv(st)
    ensures Inv(Run(st, steps))
    decreases |steps|
  {
    hide Inv, Next;
    if steps != [] {
      NextOk(st, steps[0]);
      RunOk(Next(st, steps[0]), steps[1..]);
    }
  }

  lemma BootOk()
    ensures Inv(BOOT)
  {
    forall x: nat ensures AvOk(BOOT, {}, x) { }
    forall v: nat ensures VmaOk(BOOT, None, v) { }
  }

  // ------------------------------------------------------------- the theorems

  /** Over every run of prepare, split, fork, unlink and pinning, with any allocation failing:
      no anon_vma is used after it was freed, freed while linked, freed before an anon_vma whose
      lock it holds, or put with children or active vmas left, and a chain never has two roots. */
  lemma LifetimeSafety(steps: seq<Step>)
    ensures Run(BOOT, steps).faults == {}
  {
    BootOk();
    RunOk(BOOT, steps);
  }

  /** The counters are the real counts. */
  lemma CountsAreExact(steps: seq<Step>, x: nat)
    requires x in Run(BOOT, steps).avs
    ensures
      var st := Run(BOOT, steps);
      var a := st.avs[x];
      && a.tree == (set v | v in st.vmas && x in st.vmas[v].chain)
      && a.children == |set y | y in st.avs && st.avs[y].tree != {} && st.avs[y].parent == x|
      && a.active == |set v | v in st.vmas && st.vmas[v].anon == Some(x)|
      && a.refcount
         == (if a.tree != {} then 1 else 0) + Pins(st, x) + |set y | y in st.avs && y != x && st.avs[y].root == x|
  {
    var st := Run(BOOT, steps);
    BootOk();
    RunOk(BOOT, steps);
    assert AvOk(st, {}, x);
    forall v: nat ensures v in st.avs[x].tree <==> v in st.vmas && x in st.vmas[v].chain { assert LinkOk(st, x, v); }
    assert Kids(st, x) == (set y | y in st.avs && st.avs[y].tree != {} && st.avs[y].parent == x);
    assert Actives(st, x) == (set v | v in st.vmas && st.vmas[v].anon == Some(x));
    assert Tenants(st, x) == (set y | y in st.avs && y != x && st.avs[y].root == x);
  }

  /** A vma's chain is closed under parent, has one root, which comes last, and contains the
      vma's own anon_vma. */
  lemma ChainsAreClosed(steps: seq<Step>, v: nat, i: nat)
    requires v in Run(BOOT, steps).vmas && i < |Run(BOOT, steps).vmas[v].chain|
    ensures
      var st := Run(BOOT, steps);
      var c := st.vmas[v].chain;
      && c[i] in st.avs && v in st.avs[c[i]].tree
      && st.avs[c[i]].root == c[|c| - 1]
      && (st.avs[c[i]].parent == c[i] <==> i == |c| - 1)
      && (i < |c| - 1 ==> st.avs[c[i]].parent in c[i + 1..])
      && st.vmas[v].anon.Some? && st.vmas[v].anon.value in c
  {
    var st := Run(BOOT, steps);
    BootOk();
    RunOk(BOOT, steps);
    var c := st.vmas[v].chain;
    assert VmaOk(st, None, v) && LinkOk(st, c[i], v) && AvOk(st, {}, c[i]);
  }
}
