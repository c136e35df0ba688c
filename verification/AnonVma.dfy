/** The anon_vma forest: reference counts, child counts and active counts of the objects
    through which the mappings of an anonymous page are found, over prepare, clone, fork and
    unlink with their allocation failures. */
module AnonVma {
  import opened Wrappers

  /** tree is the set of vmas in the interval tree. */
  datatype Av = Av(refcount: int, children: int, active: int, parent: nat, root: nat, tree: set<nat>)

  /** chain lists the anon_vmas from newest to oldest. */
  datatype Vma = Vma(chain: seq<nat>, anon: Option<nat>)

  /** What must never happen. */
  datatype Fault =
    | UseAfterFree(av: nat)
    | FreedLinked(av: nat)
    | FreedBeforeTenants(av: nat)
    | RootMismatch(av: nat)
    | ChildrenLeft(av: nat)
    | ActiveLeft(av: nat)

  /** pins counts the references taken from outside, by rmap walks and migration. */
  datatype State = State(avs: map<nat, Av>, vmas: map<nat, Vma>, pins: map<nat, nat>, faults: set<Fault>)

  function Pins(st: State, x: nat): nat {
    if x in st.pins then st.pins[x] else 0
  }

  function Blame(st: State, bad: bool, f: Fault): State {
    if bad then st.(faults := st.faults + {f}) else st
  }

  // ----------------------------------------------------------- references

  /** anon_vma_free. */
  function Free(st: State, x: nat): State
    requires x in st.avs
  {
    var linked := st.avs[x].tree != {};
    var needed := exists y :: y in st.avs && y != x && st.avs[y].root == x;
    Blame(Blame(st.(avs := st.avs - {x}), linked, FreedLinked(x)), needed, FreedBeforeTenants(x))
  }

  /** put_anon_vma: the last reference frees the object, which then releases its root. */
  function Put(st: State, x: nat): State {
    if x !in st.avs then Blame(st, true, UseAfterFree(x))
    else
      var a := st.avs[x];
      if a.refcount != 1 then st.(avs := st.avs[x := a.(refcount := a.refcount - 1)])
      else if a.root == x then Free(st, x)
      else PutRoot(Free(st, x), a.root)
  }

  function PutRoot(st: State, r: nat): State {
    if r !in st.avs then Blame(st, true, UseAfterFree(r))
    else if st.avs[r].refcount == 1 then Free(st, r)
    else st.(avs := st.avs[r := st.avs[r].(refcount := st.avs[r].refcount - 1)])
  }

  // --------------------------------------------------------------- links

  function RootOf(st: State, x: nat): Option<nat> {
    if x in st.avs then Some(st.avs[x].root) else None
  }

  /** lock_anon_vma_root with root already held. */
  function LockRoot(st: State, root: Option<nat>, x: nat): State {
    Blame(st, root.Some? && RootOf(st, x) != root, RootMismatch(x))
  }

  /** anon_vma_chain_link. */
  function Link(st: State, v: nat, x: nat): State {
    if x !in st.avs || v !in st.vmas then Blame(st, true, UseAfterFree(x))
    else
      var a, m := st.avs[x], st.vmas[v];
      st.(avs := st.avs[x := a.(tree := a.tree + {v})], vmas := st.vmas[v := m.(chain := [x] + m.chain)])
  }

  /** Take v out of the tree of x, the head of its chain; a tree that becomes empty no longer
      counts as a child. */
  function DropLink(st: State, v: nat, x: nat): State {
    if x !in st.avs || v !in st.vmas || st.vmas[v].chain == [] then Blame(st, true, UseAfterFree(x))
    else
      var a, m := st.avs[x], st.vmas[v];
      var avs := st.avs[x := a.(tree := a.tree - {v})];
      var st1 := st.(vmas := st.vmas[v := m.(chain := m.chain[1..])]);
      if a.tree - {v} != {} then st1.(avs := avs)
      else if a.parent !in avs then Blame(st1.(avs := avs), true, UseAfterFree(a.parent))
      else st1.(avs := avs[a.parent := avs[a.parent].(children := avs[a.parent].children - 1)])
  }

  predicate IsEmpty(st: State, x: nat) {
    x in st.avs && st.avs[x].tree == {}
  }

  // -------------------------------------------------------------- unlink

  /** The first loop of unlink_anon_vmas over what is left of the chain; the anon_vmas that
      became empty stay on the list. */
  function UnlinkTrees(st: State, v: nat, list: seq<nat>, root: Option<nat>, empties: seq<nat>): (State, seq<nat>)
    decreases |list|
  {
    if list == [] then (st, empties)
    else
      var x := list[0];
      var st1 := DropLink(LockRoot(st, root, x), v, x);
      UnlinkTrees(st1, v, list[1..], RootOf(st, x), if IsEmpty(st1, x) then empties + [x] else empties)
  }

  /** The vma gives up its own anon_vma. */
  function Deactivate(st: State, v: nat): State {
    if v !in st.vmas || st.vmas[v].anon.None? then st
    else
      var x, m := st.vmas[v].anon.value, st.vmas[v];
      var st1 := st.(vmas := st.vmas[v := m.(anon := None)]);
      if x !in st.avs then Blame(st1, true, UseAfterFree(x))
      else st1.(avs := st.avs[x := st.avs[x].(active := st.avs[x].active - 1)])
  }

  /** One round of the second loop. */
  function PutEmpty(st: State, x: nat): State {
    var left := x in st.avs && st.avs[x].children != 0;
    var active := x in st.avs && st.avs[x].active != 0;
    Put(Blame(Blame(st, left, ChildrenLeft(x)), active, ActiveLeft(x)), x)
  }

  function PutEmpties(st: State, empties: seq<nat>): State
    decreases |empties|
  {
    if empties == [] then st else PutEmpties(PutEmpty(st, empties[0]), empties[1..])
  }

  /** unlink_anon_vmas. */
  function Unlink(st: State, v: nat): State {
    if v !in st.vmas then st
    else
      var (st1, empties) := UnlinkTrees(st, v, st.vmas[v].chain, None, []);
      PutEmpties(Deactivate(st1, v), empties)
  }

  // ------------------------------------------------------ prepare and clone

  function Attach(st: State, v: nat, x: nat): State {
    Activate(Link(st, v, x), v, Some(x))
  }

  function Activate(st: State, v: nat, pick: Option<nat>): State {
    if pick.None? || v !in st.vmas then st
    else if pick.value !in st.avs then Blame(st, true, UseAfterFree(pick.value))
    else
      var x := pick.value;
      st.(avs := st.avs[x := st.avs[x].(active := st.avs[x].active + 1)],
          vmas := st.vmas[v := st.vmas[v].(anon := pick)])
  }

  /** find_mergeable_anon_vma: the neighbour's anon_vma if its chain has one element. */
  function Mergeable(st: State, near: Option<nat>): Option<nat> {
    if near.Some? && near.value in st.vmas && |st.vmas[near.value].chain| == 1 then st.vmas[near.value].anon else None
  }

  /** __anon_vma_prepare; false is -ENOMEM. */
  function Prepare(st: State, v: nat, near: Option<nat>, np: nat, avcOk: bool, avOk: bool): (State, bool) {
    if v !in st.vmas || np in st.avs || !avcOk then (st, false)
    else match Mergeable(st, near)
      case Some(x) => (if st.vmas[v].anon.None? then Attach(st, v, x) else st, true)
      case None =>
        if !avOk then (st, false)
        else
          var st1 := st.(avs := st.avs[np := Av(1, 1, 0, np, np, {})]);
          (if st.vmas[v].anon.None? then Attach(st1, v, np) else Put(st1, np), true)
  }

  predicate CanReuse(st: State, x: nat) {
    x in st.avs && st.avs[x].children < 2 && st.avs[x].active == 0
  }

  /** The loop of anon_vma_clone, oldest anon_vma first; budget is how many links can be
      allocated.  pick is the destination's own anon_vma as found so far. */
  function CloneLinks(st: State, dst: nat, list: seq<nat>, root: Option<nat>, pick: Option<nat>, reuse: bool,
                      budget: nat)
    : (State, Option<nat>, bool)
    decreases |list|
  {
    if list == [] then (st, pick, true)
    else if budget == 0 then (st, pick, false)
    else
      var x := list[|list| - 1];
      var st1 := Link(LockRoot(st, root, x), dst, x);
      var pick1 := if pick.None? && reuse && CanReuse(st1, x) then Some(x) else pick;
      CloneLinks(st1, dst, list[..|list| - 1], RootOf(st, x), pick1, reuse, budget - 1)
  }

  /** anon_vma_clone onto a vma without links; preset is the anon_vma the caller has already
      given the destination (a split), or None (a fork). */
  function Clone(st: State, dst: nat, src: nat, preset: Option<nat>, budget: nat): (State, bool) {
    if src !in st.vmas || dst !in st.vmas then (st, false)
    else
      var (st1, pick, ok) := CloneLinks(st, dst, st.vmas[src].chain, None, preset, st.vmas[src].anon.Some?, budget);
      if ok then (Activate(st1, dst, pick), true) else (Unlink(st1, dst), false)
  }

  // ---------------------------------------------------------------- fork

  /** Give dst an anon_vma of its own, a child of the parent's. */
  function Adopt(st: State, dst: nat, p: nat, np: nat): State {
    if p !in st.avs || dst !in st.vmas || st.avs[p].root !in st.avs then Blame(st, true, UseAfterFree(p))
    else
      var r := st.avs[p].root;
      var pinned := st.avs[r := st.avs[r].(refcount := st.avs[r].refcount + 1)];
      var avs := pinned[p := pinned[p].(children := pinned[p].children + 1)];
      st.(avs := avs[np := Av(1, 0, 1, p, r, {dst})],
          vmas := st.vmas[dst := Vma([np] + st.vmas[dst].chain, Some(np))])
  }

  /** anon_vma_fork. */
  function Fork(st: State, dst: nat, src: nat, budget: nat, np: nat, avOk: bool, avcOk: bool): (State, bool) {
    if src !in st.vmas || dst !in st.vmas || np in st.avs then (st, false)
    else if st.vmas[src].anon.None? then (st, true)
    else
      var (st1, ok) := Clone(st, dst, src, None, budget);
      if !ok || dst !in st1.vmas then (st1, false)
      else if st1.vmas[dst].anon.Some? then (st1, true)
      else if !avOk then (Unlink(st1, dst), false)
      else if !avcOk then (Unlink(Put(st1.(avs := st1.avs[np := Av(1, 0, 1, np, np, {})]), np), dst), false)
      else (Adopt(st1, dst, st.vmas[src].anon.value, np), true)
  }

  // ---------------------------------------------------------------- runs

  datatype Step =
    | SNewVma(v: nat)
    | SPrepare(v: nat, near: Option<nat>, np: nat, avcOk: bool, avOk: bool)
    | SSplit(dst: nat, src: nat, budget: nat)
    | SFork(dst: nat, src: nat, budget: nat, np: nat, avOk: bool, avcOk: bool)
    | SUnlink(v: nat)
    | SDropVma(v: nat)
    | SPin(x: nat)
    | SUnpin(x: nat)

  predicate IsBlank(st: State, v: nat) {
    v in st.vmas && st.vmas[v] == Vma([], None)
  }

  /** Cloning starts from a vma that has no links yet; pins are taken with inc_not_zero. */
  function Next(st: State, step: Step): State {
    match step
    case SNewVma(v) => if v in st.vmas then st else st.(vmas := st.vmas[v := Vma([], None)])
    case SPrepare(v, near, np, avcOk, avOk) => Prepare(st, v, near, np, avcOk, avOk).0
    case SSplit(dst, src, budget) =>
      if IsBlank(st, dst) && src in st.vmas && dst != src then Clone(st, dst, src, st.vmas[src].anon, budget).0 else st
    case SFork(dst, src, budget, np, avOk, avcOk) =>
      if IsBlank(st, dst) && dst != src then Fork(st, dst, src, budget, np, avOk, avcOk).0 else st
    case SUnlink(v) => Unlink(st, v)
    case SDropVma(v) => if IsBlank(st, v) then st.(vmas := st.vmas - {v}) else st
    case SPin(x) => Pin(st, x)
    case SUnpin(x) => Unpin(st, x)
  }

  function Pin(st: State, x: nat): State {
    if x !in st.avs then st
    else st.(avs := st.avs[x := st.avs[x].(refcount := st.avs[x].refcount + 1)], pins := st.pins[x := Pins(st, x) + 1])
  }

  function Unpin(st: State, x: nat): State {
    if Pins(st, x) == 0 then st else Put(st.(pins := st.pins[x := Pins(st, x) - 1]), x)
  }

  const BOOT := State(map[], map[], map[], {})

  function Run(st: State, steps: seq<Step>): State
    decreases |steps|
  {
    if steps == [] then st else Run(Next(st, steps[0]), steps[1..])
  }
}
