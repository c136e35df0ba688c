/** The GSI route table: an array that is filled at the end and emptied by moving the last route
    into the hole, and the allocator of interrupt numbers beside it. */
module IrqRoutes {
  import opened Wrappers

  /** data stands for the rest of a routing entry: type, chip and pin, or the MSI message. */
  datatype Route = Route(gsi: nat, data: nat)

  /** routes are the entries in use, room the allocated ones, used the GSI bitmap. */
  datatype Table = Table(routes: seq<Route>, room: nat, used: set<nat>)

  // ---------------------------------------------------------------- one route

  /** How the array grows when it is full. */
  function Grow(nr: nat, room: nat): nat {
    if nr != room then room else if room * 2 < 64 then 64 else room * 2
  }

  /** kvm_add_routing_entry. */
  function AddEntry(t: Table, e: Route): Table {
    Table(t.routes + [e], Grow(|t.routes|, t.room), t.used + {e.gsi})
  }

  /** The last route takes the place of route i. */
  function SwapOut(routes: seq<Route>, i: nat): seq<Route>
    requires i < |routes|
  {
    routes[i := routes[|routes| - 1]][..|routes| - 1]
  }

  /** The loop of kvm_irqchip_release_virq from index i: it does not look again at the route it
      has just moved into a hole. */
  function Release(routes: seq<Route>, i: nat, virq: nat): seq<Route>
    decreases |routes| - i
  {
    if i >= |routes| then routes
    else if routes[i].gsi == virq then Release(SwapOut(routes, i), i + 1, virq)
    else Release(routes, i + 1, virq)
  }

  function ReleaseVirq(t: Table, virq: nat): Table {
    t.(routes := Release(t.routes, 0, virq), used := t.used - {virq})
  }

  /** kvm_irqchip_get_virq: the lowest unused GSI below count. */
  function LowestUnused(used: set<nat>, i: nat, count: nat): (r: Option<nat>)
    ensures r.Some? ==> i <= r.value < count && r.value !in used && forall j :: i <= j < r.value ==> j in used
    ensures r.None? ==> forall j :: i <= j < count ==> j in used
    decreases count - i
  {
    if i >= count then None else if i !in used then Some(i) else LowestUnused(used, i + 1, count)
  }

  /** kvm_irqchip_add_msi_route; None is -ENOSPC or -EINVAL. */
  function AddMsiRoute(t: Table, count: nat, data: nat, fixupFails: bool): (Table, Option<nat>) {
    match LowestUnused(t.used, 0, count)
    case None => (t, None)
    case Some(virq) =>
      if fixupFails then (ReleaseVirq(t, virq), None)
      else if |t.routes| < count then (AddEntry(t, Route(virq, data)), Some(virq))
      else (ReleaseVirq(t, virq), None)
  }

  /** kvm_update_routing_entry. */
  function Update(routes: seq<Route>, i: nat, e: Route): seq<Route>
    decreases |routes| - i
  {
    if i >= |routes| then routes
    else if routes[i].gsi == e.gsi then routes[i := e]
    else Update(routes, i + 1, e)
  }

  // ------------------------------------------------- when release gets them all

  function Matches(routes: seq<Route>, virq: nat): nat {
    if routes == [] then 0
    else Matches(routes[..|routes| - 1], virq) + (if routes[|routes| - 1].gsi == virq then 1 else 0)
  }

  lemma {:induction false} MatchesUpdate(routes: seq<Route>, i: nat, r: Route, virq: nat)
    requires i < |routes|
    ensures Matches(routes[i := r], virq)
      == Matches(routes, virq) - (if routes[i].gsi == virq then 1 else 0) + (if r.gsi == virq then 1 else 0)
  {
    var k := |routes| - 1;
    if i == k {
      assert routes[i := r][..k] == routes[..k];
    } else {
      assert routes[i := r][..k] == routes[..k][i := r];
      MatchesUpdate(routes[..k], i, r, virq);
    }
  }

  lemma {:induction false} MatchesNone(routes: seq<Route>, virq: nat)
    ensures Matches(routes, virq) == 0 <==> forall k :: 0 <= k < |routes| ==> routes[k].gsi != virq
    ensures Matches(routes, virq) <= |routes|
  {
    if routes != [] {
      var m := |routes| - 1;
      MatchesNone(routes[..m], virq);
      assert forall k :: 0 <= k < m ==> routes[..m][k] == routes[k];
    }
  }

  lemma SwapOutMatches(routes: seq<Route>, i: nat, virq: nat)
    requires i < |routes| && routes[i].gsi == virq
    ensures Matches(SwapOut(routes, i), virq) == Matches(routes, virq) - 1
  {
    var m := |routes| - 1;
    var moved := routes[i := routes[m]];
    MatchesUpdate(routes, i, routes[m], virq);
    assert moved[..m] == SwapOut(routes, i);
  }

  lemma {:induction false} PrefixStays(routes: seq<Route>, i: nat, virq: nat)
    requires i <= |routes|
    ensures |Release(routes, i, virq)| >= i && Release(routes, i, virq)[..i] == routes[..i]
    decreases |routes| - i
  {
    if i < |routes| {
      if routes[i].gsi == virq {
        if i + 1 <= |SwapOut(routes, i)| {
          PrefixStays(SwapOut(routes, i), i + 1, virq);
          var r := Release(routes, i, virq);
          assert r[..i] == r[..i + 1][..i];
          assert SwapOut(routes, i)[..i + 1][..i] == routes[..i];
        }
      } else {
        PrefixStays(routes, i + 1, virq);
        var r := Release(routes, i, virq);
        assert r[..i] == r[..i + 1][..i];
        assert routes[..i + 1][..i] == routes[..i];
      }
    }
  }

  /** The last route of the interrupt and the number of its routes fit before the end. */
  ghost predicate Clean(routes: seq<Route>, virq: nat) {
    forall k :: 0 <= k < |routes| && routes[k].gsi == virq ==> k + Matches(routes, virq) <= |routes|
  }

  lemma {:induction false} ReleaseFrom(routes: seq<Route>, i: nat, virq: nat)
    requires i <= |routes| && forall k :: 0 <= k < i ==> routes[k].gsi != virq
    ensures Matches(Release(routes, i, virq), virq) == 0 <==> Clean(routes, virq)
    decreases |routes| - i
  {
    MatchesNone(routes, virq);
    if i == |routes| {
    } else if routes[i].gsi != virq {
      ReleaseFrom(routes, i + 1, virq);
    } else {
      var m := |routes| - 1;
      SwapOutMatches(routes, i, virq);
      var rest := SwapOut(routes, i);
      if i == m {
        assert rest == routes[..m];
        MatchesNone(rest, virq);
        assert Release(rest, i + 1, virq) == rest;
      } else if routes[m].gsi == virq {
        TwoMatches(routes, i, m, virq);
        PrefixStays(rest, i + 1, virq);
        var r := Release(rest, i + 1, virq);
        assert r[..i + 1][i] == rest[..i + 1][i];
        MatchesNone(r, virq);
      } else {
        ReleaseFrom(rest, i + 1, virq);
        assert forall k :: 0 <= k < m && k != i ==> rest[k] == routes[k];
        CleanCarries(routes, rest, i, virq);
      }
    }
  }

  lemma TwoMatches(routes: seq<Route>, i: nat, m: nat, virq: nat)
    requires i < m == |routes| - 1 && routes[i].gsi == virq && routes[m].gsi == virq
    ensures Matches(routes, virq) >= 2 && !Clean(routes, virq)
  {
    MatchesNone(routes[..m], virq);
    assert routes[..m][i].gsi == virq;
  }

  lemma CleanCarries(routes: seq<Route>, rest: seq<Route>, i: nat, virq: nat)
    requires i < |routes| - 1 && routes[i].gsi == virq && rest == SwapOut(routes, i)
    requires forall k :: 0 <= k < i ==> routes[k].gsi != virq
    requires routes[|routes| - 1].gsi != virq && Matches(rest, virq) == Matches(routes, virq) - 1
    ensures Clean(rest, virq) <==> Clean(routes, virq)
  {
    MatchesNone(rest, virq);
    var n := Matches(routes, virq);
    assert forall k :: 0 <= k < |rest| && k != i ==> rest[k] == routes[k];
    if n > 1 {
      var k :| 0 <= k < |rest| && rest[k].gsi == virq;
      if Clean(rest, virq) {
        forall j | 0 <= j < |routes| && routes[j].gsi == virq ensures j + n <= |routes| {
          if j == i { assert k + (n - 1) <= |rest| && i < k; }
        }
      }
    } else {
      assert i + 1 <= |routes|;
      forall j | 0 <= j < |routes| && routes[j].gsi == virq ensures j == i { }
    }
  }

  /** After a release no route of the interrupt is left if and only if its last route lies at least
      as many places before the end as it has routes. */
  lemma ReleaseClearsAll(t: Table, virq: nat)
    ensures
      var r := ReleaseVirq(t, virq).routes;
      (forall k :: 0 <= k < |r| ==> r[k].gsi != virq)
      <==> (forall k :: 0 <= k < |t.routes| && t.routes[k].gsi == virq ==> k + Matches(t.routes, virq) <= |t.routes|)
  {
    ReleaseFrom(t.routes, 0, virq);
    MatchesNone(ReleaseVirq(t, virq).routes, virq);
    assert Clean(t.routes, virq) <==>
      forall k :: 0 <= k < |t.routes| && t.routes[k].gsi == virq ==> k + Matches(t.routes, virq) <= |t.routes|;
  }

  /** Two routes of one interrupt at the end of the table: one is left. */
  lemma ReleaseCanMiss()
    ensures Release([Route(5, 1), Route(5, 2)], 0, 5) == [Route(5, 2)]
  {
    var routes := [Route(5, 1), Route(5, 2)];
    assert SwapOut(routes, 0) == [Route(5, 2)];
  }

  // ------------------------------------------------------------------- runs

  /** live maps the virqs handed out and not yet released to what was asked for. */
  datatype State = State(table: Table, live: map<nat, nat>)

  datatype Step =
    | AddMsi(data: nat, fixupFails: bool)
    | ReleaseLive(virq: nat)
    | UpdateMsi(virq: nat, data: nat)

  function Next(st: State, count: nat, step: Step): State {
    match step
    case AddMsi(data, fixupFails) =>
      var (t, r) := AddMsiRoute(st.table, count, data, fixupFails);
      State(t, if r.Some? then st.live[r.value := data] else st.live)
    case ReleaseLive(v) =>
      if v in st.live then State(ReleaseVirq(st.table, v), st.live - {v}) else st
    case UpdateMsi(v, data) =>
      if v !in st.live then st
      else State(st.table.(routes := Update(st.table.routes, 0, Route(v, data))), st.live[v := data])
  }

  function Run(st: State, count: nat, steps: seq<Step>): State
    decreases |steps|
  {
    if steps == [] then st else Run(Next(st, count, steps[0]), count, steps[1..])
  }

  function Gsis(routes: seq<Route>): set<nat> {
    set r | r in routes :: r.gsi
  }

  /** Each live virq has its one route, every other route is one of the fixed ones, and the bitmap
      shows exactly the GSIs that have a route. */
  ghost predicate Ok(st: State, fixed: seq<Route>) {
    && (forall r :: multiset(st.table.routes)[r]
         == multiset(fixed)[r] + (if r.gsi in st.live && st.live[r.gsi] == r.data then 1 else 0))
    && (forall v :: v in st.live ==> v !in Gsis(fixed))
    && st.table.used == Gsis(fixed) + st.live.Keys
    && |st.table.routes| <= st.table.room
  }

  lemma BagUpdate(routes: seq<Route>, k: nat, e: Route)
    requires k < |routes|
    ensures multiset(routes[k := e]) == multiset(routes) - multiset{routes[k]} + multiset{e}
  {
    var a, b := routes[..k], routes[k + 1..];
    assert routes == a + [routes[k]] + b;
    assert routes[k := e] == a + [e] + b;
  }

  lemma Cancel(a: multiset<Route>, b: multiset<Route>, x: Route)
    requires a + multiset{x} == b + multiset{x}
    ensures a == b
  {
    forall r ensures a[r] == b[r] { assert (a + multiset{x})[r] == (b + multiset{x})[r]; }
  }

  lemma SwapOutBag(routes: seq<Route>, i: nat)
    requires i < |routes|
    ensures multiset(SwapOut(routes, i)) == multiset(routes) - multiset{routes[i]}
  {
    var m := |routes| - 1;
    var moved := routes[i := routes[m]];
    BagUpdate(routes, i, routes[m]);
    assert moved == SwapOut(routes, i) + [routes[m]];
    Cancel(multiset(SwapOut(routes, i)), multiset(routes) - multiset{routes[i]}, routes[m]);
  }

  /** A route that is the only one of its interrupt is removed, and no other. */
  lemma {:induction false} ReleaseOnly(routes: seq<Route>, i: nat, k: nat)
    requires i <= k < |routes| && forall j :: 0 <= j < |routes| && j != k ==> routes[j].gsi != routes[k].gsi
    ensures multiset(Release(routes, i, routes[k].gsi)) == multiset(routes) - multiset{routes[k]}
    decreases k - i
  {
    var v := routes[k].gsi;
    if i < k {
      ReleaseOnly(routes, i + 1, k);
    } else {
      SwapOutBag(routes, k);
      var rest := SwapOut(routes, k);
      forall j | 0 <= j < |rest| ensures rest[j].gsi != v { }
      ReleaseNone(rest, k + 1, v);
    }
  }

  lemma {:induction false} ReleaseNone(routes: seq<Route>, i: nat, virq: nat)
    requires forall j :: 0 <= j < |routes| ==> routes[j].gsi != virq
    ensures Release(routes, i, virq) == routes
    decreases |routes| - i
  {
    if i < |routes| { ReleaseNone(routes, i + 1, virq); }
  }

  lemma {:induction false} UpdateOnly(routes: seq<Route>, i: nat, k: nat, e: Route)
    requires i <= k < |routes| && routes[k].gsi == e.gsi
    requires forall j :: 0 <= j < |routes| && j != k ==> routes[j].gsi != e.gsi
    ensures Update(routes, i, e) == routes[k := e]
    decreases k - i
  {
    if i < k { UpdateOnly(routes, i + 1, k, e); }
  }

  /** The one route of a live virq. */
  lemma LiveRoute(st: State, fixed: seq<Route>, v: nat) returns (k: nat)
    requires Ok(st, fixed) && v in st.live
    ensures k < |st.table.routes| && st.table.routes[k] == Route(v, st.live[v])
    ensures forall j :: 0 <= j < |st.table.routes| && j != k ==> st.table.routes[j].gsi != v
  {
    var routes := st.table.routes;
    var r := Route(v, st.live[v]);
    NotFixed(fixed, r);
    assert multiset(routes)[r] == 1;
    assert r in routes;
    k :| 0 <= k < |routes| && routes[k] == r;
    forall j | 0 <= j < |routes| && j != k ensures routes[j].gsi != v {
      NotFixed(fixed, routes[j]);
      assert routes[j] in multiset(routes);
      if routes[j] == r { TwoOccurrences(routes, j, k); }
    }
  }

  lemma NotFixed(fixed: seq<Route>, r: Route)
    ensures r.gsi !in Gsis(fixed) ==> multiset(fixed)[r] == 0
  {
    if r in fixed { assert r.gsi in Gsis(fixed); }
  }

  lemma TwoOccurrences(routes: seq<Route>, j: nat, k: nat)
    requires j < |routes| && k < |routes| && j != k && routes[j] == routes[k]
    ensures multiset(routes)[routes[k]] >= 2
  {
    var a, b := if j < k then j else k, if j < k then k else j;
    assert routes == routes[..a] + [routes[a]] + routes[a + 1..b] + [routes[b]] + routes[b + 1..];
  }

  lemma ReleaseOk(st: State, count: nat, fixed: seq<Route>, v: nat)
    requires Ok(st, fixed) && v in st.live
    ensures Ok(Next(st, count, ReleaseLive(v)), fixed)
  {
    var k := LiveRoute(st, fixed, v);
    ReleaseOnly(st.table.routes, 0, k);
    var st' := Next(st, count, ReleaseLive(v));
    hide Release;
    assert |st'.table.routes| == |multiset(st'.table.routes)|;
    assert |multiset(st.table.routes)| == |st.table.routes|;
    forall r
      ensures multiset(st'.table.routes)[r]
        == multiset(fixed)[r] + (if r.gsi in st'.live && st'.live[r.gsi] == r.data then 1 else 0)
    {
      NotFixed(fixed, r);
    }
  }

  lemma UpdateOk(st: State, count: nat, fixed: seq<Route>, v: nat, data: nat)
    requires Ok(st, fixed) && v in st.live
    ensures Ok(Next(st, count, UpdateMsi(v, data)), fixed)
  {
    hide Update;
    var k := LiveRoute(st, fixed, v);
    var e := Route(v, data);
    UpdateOnly(st.table.routes, 0, k, e);
    UpdateBag(st, fixed, v, k, data);
  }

  lemma UpdateBag(st: State, fixed: seq<Route>, v: nat, k: nat, data: nat)
    requires Ok(st, fixed) && v in st.live && k < |st.table.routes| && st.table.routes[k] == Route(v, st.live[v])
    ensures
      var (routes, live) := (st.table.routes[k := Route(v, data)], st.live[v := data]);
      forall r :: multiset(routes)[r] == multiset(fixed)[r] + (if r.gsi in live && live[r.gsi] == r.data then 1 else 0)
  {
    BagUpdate(st.table.routes, k, Route(v, data));
    forall r
      ensures multiset(st.table.routes[k := Route(v, data)])[r] == multiset(fixed)[r]
        + (if r.gsi in st.live[v := data] && st.live[v := data][r.gsi] == r.data then 1 else 0)
    {
      NotFixed(fixed, r);
    }
  }

  /** No route belongs to a GSI that the bitmap shows as unused. */
  lemma UnusedHasNone(st: State, fixed: seq<Route>, v: nat)
    requires Ok(st, fixed) && v !in st.table.used
    ensures forall j :: 0 <= j < |st.table.routes| ==> st.table.routes[j].gsi != v
  {
    var routes := st.table.routes;
    forall j | 0 <= j < |routes| ensures routes[j].gsi != v {
      NotFixed(fixed, routes[j]);
      assert routes[j] in multiset(routes);
    }
  }

  lemma AddMsiOk(st: State, count: nat, fixed: seq<Route>, data: nat, fixupFails: bool)
    requires Ok(st, fixed)
    ensures Ok(Next(st, count, AddMsi(data, fixupFails)), fixed)
    ensures var r := AddMsiRoute(st.table, count, data, fixupFails).1;
      r.Some? ==> r.value < count && r.value !in st.live && r.value !in Gsis(fixed)
  {
    hide Gsis;
    var free := LowestUnused(st.table.used, 0, count);
    if free.Some? {
      var v := free.value;
      var routes := st.table.routes;
      UnusedHasNone(st, fixed, v);
      ReleaseNone(routes, 0, v);
      assert st.table.used - {v} == st.table.used;
      hide Release;
      NotFixed(fixed, Route(v, data));
    }
  }

  lemma NextOk(st: State, count: nat, fixed: seq<Route>, step: Step)
    requires Ok(st, fixed)
    ensures Ok(Next(st, count, step), fixed)
  {
    match step
    case AddMsi(data, fixupFails) => AddMsiOk(st, count, fixed, data, fixupFails);
    case ReleaseLive(v) => if v in st.live { ReleaseOk(st, count, fixed, v); }
    case UpdateMsi(v, data) => if v in st.live { UpdateOk(st, count, fixed, v, data); }
  }

  lemma {:induction false} RunOk(st: State, count: nat, fixed: seq<Route>, steps: seq<Step>)
    requires Ok(st, fixed)
    ensures Ok(Run(st, count, steps), fixed)
    decreases |steps|
  {
    if steps != [] {
      NextOk(st, count, fixed, steps[0]);
      hide Ok, Next;
      RunOk(Next(st, count, steps[0]), count, fixed, steps[1..]);
    }
  }

  function Init(fixed: seq<Route>): Table
    decreases |fixed|
  {
    if fixed == [] then Table([], 0, {}) else AddEntry(Init(fixed[..|fixed| - 1]), fixed[|fixed| - 1])
  }

  lemma GsisStep(routes: seq<Route>, r: Route)
    ensures Gsis(routes + [r]) == Gsis(routes) + {r.gsi}
  {
    forall q | q in routes + [r] ensures q.gsi in Gsis(routes) + {r.gsi} { }
    assert forall q :: q in routes ==> q in routes + [r];
    assert r in routes + [r];
  }

  lemma {:induction false} InitOk(fixed: seq<Route>)
    ensures Init(fixed).routes == fixed && Init(fixed).used == Gsis(fixed) && |fixed| <= Init(fixed).room
    decreases |fixed|
  {
    if fixed != [] {
      hide Gsis, Grow;
      var k := |fixed| - 1;
      var t := Init(fixed[..k]);
      InitOk(fixed[..k]);
      assert Init(fixed) == AddEntry(t, fixed[k]);
      Regrouped(fixed);
      GsisStep(fixed[..k], fixed[k]);
      GrowFits(k, t.room);
    }
  }

  lemma Regrouped(routes: seq<Route>)
    requires routes != []
    ensures routes[..|routes| - 1] + [routes[|routes| - 1]] == routes
  {
  }

  lemma GrowFits(nr: nat, room: nat)
    requires nr <= room
    ensures nr < Grow(nr, room)
  {
  }

  /** From any fixed routes, over any run of adds (which may fail), updates and releases of virqs so
      obtained: the routes are the fixed ones and exactly one for each live virq, a released virq
      has none, every route's GSI is marked used and no other, and the count stays within the
      array. */
  lemma AllocatorIsExact(fixed: seq<Route>, count: nat, steps: seq<Step>)
    ensures
      var st := Run(State(Init(fixed), map[]), count, steps);
      && (forall r :: multiset(st.table.routes)[r]
           == multiset(fixed)[r] + (if r.gsi in st.live && st.live[r.gsi] == r.data then 1 else 0))
      && (forall v :: v in st.live ==> v !in Gsis(fixed))
      && st.table.used == Gsis(fixed) + st.live.Keys
      && |st.table.routes| <= st.table.room
  {
    InitOk(fixed);
    RunOk(State(Init(fixed), map[]), count, fixed, steps);
  }

  /** No virq is handed out that is still live or belongs to a fixed route. */
  lemma NeverHandedOutTwice(fixed: seq<Route>, count: nat, steps: seq<Step>, data: nat, fixupFails: bool)
    ensures
      var st := Run(State(Init(fixed), map[]), count, steps);
      var r := AddMsiRoute(st.table, count, data, fixupFails).1;
      r.Some? ==> r.value < count && r.value !in st.live && r.value !in Gsis(fixed)
  {
    InitOk(fixed);
    RunOk(State(Init(fixed), map[]), count, fixed, steps);
    AddMsiOk(Run(State(Init(fixed), map[]), count, steps), count, fixed, data, fixupFails);
  }

  /** One route for each fixed one and for each live virq. */
  ghost predicate Sized(st: State, fixed: seq<Route>) {
    |st.table.routes| == |fixed| + |st.live|
  }

  lemma AddMsiSized(st: State, count: nat, fixed: seq<Route>, data: nat, fixupFails: bool)
    requires Ok(st, fixed) && Sized(st, fixed)
    ensures Sized(Next(st, count, AddMsi(data, fixupFails)), fixed)
  {
    hide Gsis;
    var free := LowestUnused(st.table.used, 0, count);
    if free.Some? {
      UnusedHasNone(st, fixed, free.value);
      ReleaseNone(st.table.routes, 0, free.value);
      assert free.value !in st.live;
      assert st.live[free.value := data].Keys == st.live.Keys + {free.value};
      hide Release, Ok;
      assert |st.live[free.value := data]| == |st.live| + 1;
    }
  }

  lemma NextSized(st: State, count: nat, fixed: seq<Route>, step: Step)
    requires Ok(st, fixed) && Sized(st, fixed)
    ensures Sized(Next(st, count, step), fixed)
  {
    match step
    case AddMsi(data, fixupFails) => AddMsiSized(st, count, fixed, data, fixupFails);
    case ReleaseLive(v) =>
      if v in st.live {
        var k := LiveRoute(st, fixed, v);
        ReleaseOnly(st.table.routes, 0, k);
        var r := Release(st.table.routes, 0, v);
        assert |r| == |multiset(r)| && |multiset(st.table.routes)| == |st.table.routes|;
        assert (st.live - {v}).Keys == st.live.Keys - {v};
        hide Release, Ok;
      }
    case UpdateMsi(v, data) =>
      if v in st.live {
        var k := LiveRoute(st, fixed, v);
        UpdateOnly(st.table.routes, 0, k, Route(v, data));
        assert st.live[v := data].Keys == st.live.Keys;
        hide Update, Ok;
      }
  }

  lemma {:induction false} RunSized(st: State, count: nat, fixed: seq<Route>, steps: seq<Step>)
    requires Ok(st, fixed) && Sized(st, fixed)
    ensures Sized(Run(st, count, steps), fixed)
    decreases |steps|
  {
    if steps != [] {
      NextOk(st, count, fixed, steps[0]);
      NextSized(st, count, fixed, steps[0]);
      hide Ok, Next, Sized;
      RunSized(Next(st, count, steps[0]), count, fixed, steps[1..]);
    }
  }

  lemma {:induction false} GsisSize(routes: seq<Route>)
    ensures |Gsis(routes)| <= |routes|
  {
    if routes == [] {
      assert Gsis(routes) == {};
    } else {
      var k := |routes| - 1;
      GsisSize(routes[..k]);
      Regrouped(routes);
      GsisStep(routes[..k], routes[k]);
      hide Gsis;
    }
  }

  /** Fewer than count GSIs in use leave one of them free. */
  lemma {:induction false} SomeIsFree(used: set<nat>, count: nat)
    requires |used| < count
    ensures exists v :: 0 <= v < count && v !in used
  {
    if count > 0 && count - 1 in used { SomeIsFree(used - {count - 1}, count - 1); }
  }

  /** Over every run, adding an MSI route succeeds exactly if the architecture accepts the message
      and the fixed routes and the live virqs together are fewer than the GSIs: then a GSI is free,
      and it is the lowest free one that is handed out. */
  lemma AddSucceedsExactly(fixed: seq<Route>, count: nat, steps: seq<Step>, data: nat, fixupFails: bool)
    ensures
      var st := Run(State(Init(fixed), map[]), count, steps);
      var r := AddMsiRoute(st.table, count, data, fixupFails).1;
      && (r.Some? <==> !fixupFails && |fixed| + |st.live| < count)
      && (r.Some? <==>
            !fixupFails && |st.table.routes| < count && exists v ::
              0 <= v < count && v !in st.live && v !in Gsis(fixed))
      && (r.Some? ==> forall v :: 0 <= v < r.value ==> v in st.live || v in Gsis(fixed))
  {
    InitOk(fixed);
    RunOk(State(Init(fixed), map[]), count, fixed, steps);
    RunSized(State(Init(fixed), map[]), count, fixed, steps);
    var st := Run(State(Init(fixed), map[]), count, steps);
    GsisSize(fixed);
    hide Gsis, Run, Init, Release;
    var used := Gsis(fixed) + st.live.Keys;
    assert |used| <= |Gsis(fixed)| + |st.live.Keys|;
    if |fixed| + |st.live| < count { SomeIsFree(used, count); }
  }

  /** In every reachable state: releasing a live virq removes its route and no other, and frees its
      GSI; updating it replaces its route and no other. */
  lemma LiveStepsTakeEffect(fixed: seq<Route>, count: nat, steps: seq<Step>, v: nat, data: nat)
    requires v in Run(State(Init(fixed), map[]), count, steps).live
    ensures
      var st := Run(State(Init(fixed), map[]), count, steps);
      var r, u := Next(st, count, ReleaseLive(v)), Next(st, count, UpdateMsi(v, data));
      var was := Route(v, st.live[v]);
      && multiset(r.table.routes) == multiset(st.table.routes) - multiset{was}
      && v !in r.table.used && v !in r.live
      && multiset(u.table.routes) == multiset(st.table.routes) - multiset{was} + multiset{Route(v, data)}
      && u.table.used == st.table.used
  {
    InitOk(fixed);
    RunOk(State(Init(fixed), map[]), count, fixed, steps);
    hide Run, Init;
    var st := Run(State(Init(fixed), map[]), count, steps);
    var k := LiveRoute(st, fixed, v);
    hide Ok;
    ReleaseOnly(st.table.routes, 0, k);
    UpdateOnly(st.table.routes, 0, k, Route(v, data));
    BagUpdate(st.table.routes, k, Route(v, data));
    hide Release, Update;
  }

  // -------------------------------------------------------------- as it runs

  class RouteTable {
    var entries: array<Route>
    var nr: nat
    var used: set<nat>

    ghost predicate Valid()
      reads this
    {
      nr <= entries.Length
    }

    function Now(): Table
      requires nr <= entries.Length
      reads this, entries
    {
      Table(entries[..nr], entries.Length, used)
    }

    constructor ()
      ensures Valid() && Now() == Table([], 0, {}) && fresh(entries)
    {
      entries := new Route[0];
      nr, used := 0, {};
    }

    /** kvm_add_routing_entry. */
    method AddRoutingEntry(e: Route)
      requires Valid()
      modifies this, entries
      ensures Valid() && Now() == AddEntry(old(Now()), e)
      ensures entries == old(entries) || fresh(entries)
    {
      if nr == entries.Length {
        var n := entries.Length * 2;
        if n < 64 { n := 64; }
        var bigger := new Route[n](_ => e);
        for i := 0 to entries.Length
          invariant bigger[..i] == entries[..i]
          modifies bigger
        {
          bigger[i] := entries[i];
        }
        entries := bigger;
      }
      entries[nr] := e;
      nr := nr + 1;
      used := used + {e.gsi};
      assert entries[..nr] == old(entries[..nr]) + [e];
    }

    /** kvm_irqchip_release_virq. */
    method IrqchipReleaseVirq(virq: nat)
      requires Valid()
      modifies this, entries
      ensures Valid() && Now() == ReleaseVirq(old(Now()), virq) && entries == old(entries)
    {
      var i := 0;
      while i < nr
        invariant Valid() && entries == old(entries) && used == old(used)
        invariant Release(entries[..nr], i, virq) == Release(old(entries[..nr]), 0, virq)
        decreases nr - i
      {
        if entries[i].gsi == virq {
          ghost var was := entries[..nr];
          nr := nr - 1;
          entries[i] := entries[nr];
          assert entries[..nr] == SwapOut(was, i);
        }
        i := i + 1;
      }
      used := used - {virq};
    }

    method GetVirq(count: nat) returns (r: Option<nat>)
      ensures r == LowestUnused(used, 0, count)
    {
      var i := 0;
      while i < count
        invariant LowestUnused(used, i, count) == LowestUnused(used, 0, count)
      {
        if i !in used { return Some(i); }
        i := i + 1;
      }
      return None;
    }

    /** kvm_irqchip_add_msi_route. */
    method AddMsiRouteFor(count: nat, data: nat, fixupFails: bool) returns (r: Option<nat>)
      requires Valid()
      modifies this, entries
      ensures Valid() && (Now(), r) == AddMsiRoute(old(Now()), count, data, fixupFails)
      ensures entries == old(entries) || fresh(entries)
    {
      hide Release;
      r := GetVirq(count);
      if r.None? { return; }
      if fixupFails {
        IrqchipReleaseVirq(r.value);
        return None;
      }
      if nr < count {
        AddRoutingEntry(Route(r.value, data));
      } else {
        IrqchipReleaseVirq(r.value);
        r := None;
      }
    }
  }
}
