/** Map counts of a folio: per-page counts, the count of whole-folio mappings, the packed count of
    mapped pages, and the statistics derived from them. */
module FolioMapcount {

  const ENTIRELY_MAPPED := 0x80_0000

  /** What is really there: how often each page is mapped by a PTE, and the folio by a PMD. */
  datatype Maps = Maps(ptes: seq<nat>, pmds: nat)

  /** The counts of a folio; all but mapped start at -1.  asked counts the requests for a deferred
      split, partial is the flag that such a request sets. */
  datatype Folio = Folio(
    anon: bool,
    pages: seq<int>,
    entire: int,
    large: int,
    mapped: int,
    nrMapped: int,
    nrPmdMapped: int,
    partial: bool,
    asked: nat)

  predicate IsLarge(f: Folio) {
    |f.pages| > 1
  }

  // ----------------------------------------------------------- counting pages

  function Sum(s: seq<nat>): nat {
    if s == [] then 0 else Sum(s[..|s| - 1]) + s[|s| - 1]
  }

  function CountMapped(s: seq<nat>): (n: nat)
    ensures n <= |s|
  {
    if s == [] then 0 else CountMapped(s[..|s| - 1]) + (if s[|s| - 1] > 0 then 1 else 0)
  }

  /** The pages mapped in any way. */
  function MappedPages(m: Maps): nat {
    if m.pmds > 0 then |m.ptes| else CountMapped(m.ptes)
  }

  predicate IsMapped(m: Maps, j: nat)
    requires j < |m.ptes|
  {
    m.pmds > 0 || m.ptes[j] > 0
  }

  lemma {:induction false} UpdateCounts(s: seq<nat>, j: nat, x: nat)
    requires j < |s|
    ensures Sum(s[j := x]) == Sum(s) - s[j] + x
    ensures CountMapped(s[j := x]) == CountMapped(s) - (if s[j] > 0 then 1 else 0) + (if x > 0 then 1 else 0)
  {
    var k := |s| - 1;
    if j == k {
      assert s[j := x][..k] == s[..k];
    } else {
      assert s[j := x][..k] == s[..k][j := x];
      UpdateCounts(s[..k], j, x);
    }
  }

  /** All pages counted, or none, exactly when each is mapped, or none is. */
  lemma {:induction false} CountExtremes(s: seq<nat>)
    ensures CountMapped(s) == 0 <==> forall j :: 0 <= j < |s| ==> s[j] == 0
    ensures CountMapped(s) == |s| <==> forall j :: 0 <= j < |s| ==> s[j] > 0
  {
    if s != [] {
      var k := |s| - 1;
      CountExtremes(s[..k]);
      assert forall j :: 0 <= j < k ==> s[..k][j] == s[j];
    }
  }

  // ------------------------------------------------- what the calls do to the counts

  /** atomic_inc of the map counts of [i, i + k), and how many were the first. */
  function Inc(pages: seq<int>, i: nat, k: nat): (r: (seq<int>, nat))
    requires i + k <= |pages|
    ensures |r.0| == |pages|
  {
    if k == 0 then (pages, 0)
    else
      var (ps, first) := Inc(pages, i, k - 1);
      var c := ps[i + k - 1] + 1;
      (ps[i + k - 1 := c], if c == 0 then first + 1 else first)
  }

  /** atomic_dec of the map counts of [i, i + k), and how many were the last. */
  function Dec(pages: seq<int>, i: nat, k: nat): (r: (seq<int>, nat))
    requires i + k <= |pages|
    ensures |r.0| == |pages|
  {
    if k == 0 then (pages, 0)
    else
      var (ps, last) := Dec(pages, i, k - 1);
      var c := ps[i + k - 1] - 1;
      (ps[i + k - 1 := c], if c < 0 then last + 1 else last)
  }

  function ModStat(f: Folio, nr: int, nrPmd: int): Folio {
    f.(nrMapped := f.nrMapped + nr, nrPmdMapped := f.nrPmdMapped + nrPmd)
  }

  /** deferred_split_folio, unless it has been asked for already. */
  function AskSplit(f: Folio, partially: bool): Folio {
    if partially && f.anon && !f.partial then f.(partial := true, asked := f.asked + 1) else f
  }

  function AddPtes(f: Folio, i: nat, k: nat): Folio
    requires i + k <= |f.pages| && k > 0
  {
    var (pages, first) := Inc(f.pages, i, k);
    if !IsLarge(f) then ModStat(f.(pages := pages), first, 0)
    else
      var mapped := if first > 0 then f.mapped + first else f.mapped;
      var nr := if first > 0 && mapped < ENTIRELY_MAPPED then first else 0;
      ModStat(f.(pages := pages, mapped := mapped, large := f.large + k), nr, 0)
  }

  function AddPmd(f: Folio): Folio {
    var f1 := f.(entire := f.entire + 1, large := f.large + 1);
    if f1.entire != 0 then f1
    else
      var mapped := f.mapped + ENTIRELY_MAPPED;
      var f2 := f1.(mapped := mapped);
      if mapped < ENTIRELY_MAPPED + ENTIRELY_MAPPED then
        var nr := |f.pages| - mapped % ENTIRELY_MAPPED;
        ModStat(f2, if nr < 0 then 0 else nr, |f.pages|)
      else f2
  }

  function RemovePtes(f: Folio, i: nat, k: nat): Folio
    requires i + k <= |f.pages| && k > 0
  {
    var (pages, last) := Dec(f.pages, i, k);
    if !IsLarge(f) then ModStat(f.(pages := pages), -(last as int), 0)
    else
      var mapped := if last > 0 then f.mapped - last else f.mapped;
      var nr := if last > 0 && mapped < ENTIRELY_MAPPED then last else 0;
      var less := f.(pages := pages, mapped := mapped, large := f.large - k);
      ModStat(AskSplit(less, nr != 0 && mapped != 0), -(nr as int), 0)
  }

  function RemovePmd(f: Folio): Folio {
    var f1 := f.(entire := f.entire - 1, large := f.large - 1);
    if f1.entire >= 0 then f1
    else
      var mapped := f.mapped - ENTIRELY_MAPPED;
      var f2 := f1.(mapped := mapped);
      if mapped < ENTIRELY_MAPPED then
        var left := |f.pages| - mapped % ENTIRELY_MAPPED;
        var nr := if left < 0 then 0 else left;
        ModStat(AskSplit(f2, nr != 0 && nr < |f.pages|), -nr, -|f.pages|)
      else f2
  }

  /** A folio before its first mapping. */
  function Unmapped(n: nat, anon: bool): Folio {
    Folio(anon, seq(n, _ => -1), -1, -1, 0, 0, 0, false, 0)
  }

  /** folio_add_new_anon_rmap: every page mapped at once, by PTEs or by a PMD. */
  function AddNew(f: Folio, pmdMappable: bool): Folio {
    var n := |f.pages|;
    if n <= 1 then ModStat(f.(pages := seq(n, _ => 0)), n, 0)
    else if !pmdMappable then ModStat(f.(pages := seq(n, _ => 0), large := n - 1, mapped := n), n, 0)
    else ModStat(f.(entire := 0, large := 0, mapped := ENTIRELY_MAPPED), n, n)
  }

  // ------------------------------------------------------------ the invariant

  /** Every count says what is really mapped. */
  ghost predicate Exact(f: Folio, m: Maps) {
    && 0 < |f.pages| < ENTIRELY_MAPPED
    && PagesOk(f.pages, m.ptes)
    && f.nrMapped == MappedPages(m)
    && f.nrPmdMapped == (if m.pmds > 0 then |m.ptes| else 0)
    && (if IsLarge(f) then
          && f.entire == m.pmds - 1
          && f.large == Sum(m.ptes) + m.pmds - 1
          && f.mapped == CountMapped(m.ptes) + (if m.pmds > 0 then ENTIRELY_MAPPED else 0)
        else m.pmds == 0)
  }

  function MorePtes(s: seq<nat>, i: nat, k: nat): (r: seq<nat>)
    requires i + k <= |s|
    ensures |r| == |s| && forall j :: 0 <= j < |s| ==> r[j] == if i <= j < i + k then s[j] + 1 else s[j]
  {
    seq(|s|, j requires 0 <= j < |s| => if i <= j < i + k then s[j] + 1 else s[j])
  }

  function FewerPtes(s: seq<nat>, i: nat, k: nat): (r: seq<nat>)
    requires i + k <= |s| && forall j :: i <= j < i + k ==> s[j] > 0
    ensures |r| == |s| && forall j :: 0 <= j < |s| ==> r[j] == if i <= j < i + k then s[j] - 1 else s[j]
  {
    seq(|s|, j requires 0 <= j < |s| => if i <= j < i + k then s[j] - 1 else s[j])
  }

  /** The page counts say how often each page is mapped by a PTE. */
  ghost predicate PagesOk(pages: seq<int>, s: seq<nat>) {
    |s| == |pages| && forall j :: 0 <= j < |s| ==> pages[j] + 1 == s[j]
  }

  lemma {:induction false} IncCounts(pages: seq<int>, s: seq<nat>, i: nat, k: nat)
    requires PagesOk(pages, s) && i + k <= |s|
    ensures
      var (ps, first) := Inc(pages, i, k);
      var r := MorePtes(s, i, k);
      PagesOk(ps, r) && Sum(r) == Sum(s) + k && CountMapped(r) == CountMapped(s) + first
  {
    hide Sum, CountMapped;
    if k == 0 {
      assert MorePtes(s, i, 0) == s;
    } else {
      IncCounts(pages, s, i, k - 1);
      var r := MorePtes(s, i, k - 1);
      var j := i + k - 1;
      assert MorePtes(s, i, k) == r[j := r[j] + 1];
      hide MorePtes;
      UpdateCounts(r, j, r[j] + 1);
    }
  }

  lemma {:induction false} DecCounts(pages: seq<int>, s: seq<nat>, i: nat, k: nat)
    requires PagesOk(pages, s) && i + k <= |s|
    requires forall j :: i <= j < i + k ==> s[j] > 0
    ensures
      var (ps, last) := Dec(pages, i, k);
      var r := FewerPtes(s, i, k);
      PagesOk(ps, r) && Sum(r) == Sum(s) - k && CountMapped(r) == CountMapped(s) - last
  {
    hide Sum, CountMapped;
    if k == 0 {
      assert FewerPtes(s, i, 0) == s;
    } else {
      DecCounts(pages, s, i, k - 1);
      var r := FewerPtes(s, i, k - 1);
      var j := i + k - 1;
      assert FewerPtes(s, i, k) == r[j := r[j] - 1];
      hide FewerPtes;
      UpdateCounts(r, j, r[j] - 1);
    }
  }

  // ------------------------------------------------------------------- runs

  datatype Call =
    | AddNewCall(pmdMappable: bool)
    | AddPtesCall(i: nat, k: nat)
    | AddPmdCall
    | RemovePtesCall(i: nat, k: nat)
    | RemovePmdCall

  /** What the callers promise: ranges inside the folio, PMD calls only for large folios, only
      mappings that exist are removed, and folio_add_new only on a folio never mapped. */
  predicate Allowed(m: Maps, call: Call) {
    match call
    case AddNewCall(_) => m == Maps(seq(|m.ptes|, _ => 0), 0)
    case AddPtesCall(i, k) => k > 0 && i + k <= |m.ptes|
    case AddPmdCall => |m.ptes| > 1
    case RemovePtesCall(i, k) => k > 0 && i + k <= |m.ptes| && forall j :: i <= j < i + k ==> m.ptes[j] > 0
    case RemovePmdCall => m.pmds > 0
  }

  function MapsAfter(m: Maps, call: Call): (r: Maps)
    requires Allowed(m, call)
    ensures |r.ptes| == |m.ptes|
  {
    match call
    case AddNewCall(pmd) =>
      if pmd && |m.ptes| > 1 then m.(pmds := 1) else m.(ptes := seq(|m.ptes|, _ => 1))
    case AddPtesCall(i, k) => m.(ptes := MorePtes(m.ptes, i, k))
    case AddPmdCall => m.(pmds := m.pmds + 1)
    case RemovePtesCall(i, k) => m.(ptes := FewerPtes(m.ptes, i, k))
    case RemovePmdCall => m.(pmds := m.pmds - 1)
  }

  function FolioAfter(f: Folio, call: Call): Folio {
    match call
    case AddNewCall(pmd) => AddNew(f, pmd)
    case AddPtesCall(i, k) => if k > 0 && i + k <= |f.pages| then AddPtes(f, i, k) else f
    case AddPmdCall => AddPmd(f)
    case RemovePtesCall(i, k) => if k > 0 && i + k <= |f.pages| then RemovePtes(f, i, k) else f
    case RemovePmdCall => RemovePmd(f)
  }

  /** The call unmapped a page altogether while another one is still mapped. */
  ghost predicate SplitsMapping(m: Maps, m': Maps)
    requires |m'.ptes| == |m.ptes|
  {
    && (exists j :: 0 <= j < |m.ptes| && IsMapped(m, j) && !IsMapped(m', j))
    && (exists j :: 0 <= j < |m.ptes| && IsMapped(m', j))
  }

  lemma {:induction false} Constant(n: nat, x: nat)
    ensures Sum(seq(n, _ => x)) == n * x
    ensures CountMapped(seq(n, _ => x)) == if x > 0 then n else 0
  {
    if n > 0 {
      assert seq(n, _ => x)[..n - 1] == seq(n - 1, _ => x);
      Constant(n - 1, x);
      assert n * x == (n - 1) * x + x;
    }
  }

  // -------------------------------------------------------------- the calls

  lemma AddNewOk(f: Folio, m: Maps, pmd: bool)
    requires Exact(f, m) && Allowed(m, AddNewCall(pmd))
    ensures Exact(AddNew(f, pmd), MapsAfter(m, AddNewCall(pmd)))
  {
    Constant(|m.ptes|, 0);
    Constant(|m.ptes|, 1);
    AllOnes(|m.ptes|);
  }

  lemma AllOnes(n: nat)
    ensures CountMapped(seq(n, _ => 1)) == n && Sum(seq(n, _ => 1)) == n
  {
    Constant(n, 1);
  }

  lemma AddPtesOk(f: Folio, m: Maps, i: nat, k: nat)
    requires Exact(f, m) && Allowed(m, AddPtesCall(i, k))
    ensures Exact(AddPtes(f, i, k), MapsAfter(m, AddPtesCall(i, k)))
  {
    IncCounts(f.pages, m.ptes, i, k);
    hide Sum, CountMapped, Inc, MorePtes, PagesOk;
  }

  lemma AddPmdOk(f: Folio, m: Maps)
    requires Exact(f, m) && Allowed(m, AddPmdCall)
    ensures Exact(AddPmd(f), MapsAfter(m, AddPmdCall))
  {
    hide Sum, CountMapped;
  }

  lemma RemovePtesOk(f: Folio, m: Maps, i: nat, k: nat)
    requires Exact(f, m) && Allowed(m, RemovePtesCall(i, k))
    ensures Exact(RemovePtes(f, i, k), MapsAfter(m, RemovePtesCall(i, k)))
  {
    DecCounts(f.pages, m.ptes, i, k);
    hide Sum, CountMapped, Dec, FewerPtes, PagesOk;
  }

  lemma RemovePmdOk(f: Folio, m: Maps)
    requires Exact(f, m) && Allowed(m, RemovePmdCall)
    ensures Exact(RemovePmd(f), MapsAfter(m, RemovePmdCall))
  {
    hide Sum, CountMapped;
  }

  lemma CallOk(f: Folio, m: Maps, call: Call)
    requires Exact(f, m) && Allowed(m, call)
    ensures Exact(FolioAfter(f, call), MapsAfter(m, call))
  {
    match call
    case AddNewCall(pmd) => AddNewOk(f, m, pmd);
    case AddPtesCall(i, k) => AddPtesOk(f, m, i, k);
    case AddPmdCall => AddPmdOk(f, m);
    case RemovePtesCall(i, k) => RemovePtesOk(f, m, i, k);
    case RemovePmdCall => RemovePmdOk(f, m);
  }

  ghost predicate AllowedAll(m: Maps, calls: seq<Call>)
    decreases |calls|
  {
    calls != [] ==> Allowed(m, calls[0]) && AllowedAll(MapsAfter(m, calls[0]), calls[1..])
  }

  function MapsRun(m: Maps, calls: seq<Call>): (r: Maps)
    requires AllowedAll(m, calls)
    ensures |r.ptes| == |m.ptes|
    decreases |calls|
  {
    if calls == [] then m else MapsRun(MapsAfter(m, calls[0]), calls[1..])
  }

  function FolioRun(f: Folio, calls: seq<Call>): Folio
    decreases |calls|
  {
    if calls == [] then f else FolioRun(FolioAfter(f, calls[0]), calls[1..])
  }

  lemma {:induction false} RunOk(f: Folio, m: Maps, calls: seq<Call>)
    requires Exact(f, m) && AllowedAll(m, calls)
    ensures Exact(FolioRun(f, calls), MapsRun(m, calls))
    decreases |calls|
  {
    hide Exact, FolioAfter, Allowed;
    if calls != [] {
      CallOk(f, m, calls[0]);
      RunOk(FolioAfter(f, calls[0]), MapsAfter(m, calls[0]), calls[1..]);
    }
  }

  // --------------------------------------------------------------- the theorems

  /** Over any sequence of adds and removes the packed count, the large map count and the
      statistics are exact. */
  lemma CountsStayExact(n: nat, anon: bool, calls: seq<Call>)
    requires 0 < n < ENTIRELY_MAPPED && AllowedAll(Maps(seq(n, _ => 0), 0), calls)
    ensures
      var m := MapsRun(Maps(seq(n, _ => 0), 0), calls);
      var f := FolioRun(Unmapped(n, anon), calls);
      && (n > 1 ==> f.mapped == CountMapped(m.ptes) + (if m.pmds > 0 then ENTIRELY_MAPPED else 0))
      && (n > 1 ==> f.large == Sum(m.ptes) + m.pmds - 1)
      && f.nrMapped == MappedPages(m) && f.nrPmdMapped == (if m.pmds > 0 then n else 0)
  {
    Constant(n, 0);
    RunOk(Unmapped(n, anon), Maps(seq(n, _ => 0), 0), calls);
  }

  /** Fewer mappings: a page loses its last one exactly when the count of mapped pages drops. */
  lemma {:induction false} CountDrops(s: seq<nat>, r: seq<nat>)
    requires |r| == |s| && forall j :: 0 <= j < |s| ==> r[j] <= s[j]
    ensures CountMapped(r) <= CountMapped(s)
    ensures CountMapped(r) < CountMapped(s) <==> exists j :: 0 <= j < |s| && s[j] > 0 && r[j] == 0
  {
    if s != [] {
      var k := |s| - 1;
      CountDrops(s[..k], r[..k]);
      assert forall j :: 0 <= j < k ==> s[..k][j] == s[j] && r[..k][j] == r[j];
      if s[k] > 0 && r[k] == 0 { assert CountMapped(r) < CountMapped(s); }
    }
  }

  lemma SplitPtes(f: Folio, m: Maps, i: nat, k: nat)
    requires Exact(f, m) && Allowed(m, RemovePtesCall(i, k))
    ensures
      var f' := RemovePtes(f, i, k);
      var m' := MapsAfter(m, RemovePtesCall(i, k));
      && f'.asked == f.asked + (if f.anon && !f.partial && SplitsMapping(m, m') then 1 else 0)
      && f'.partial == (f.partial || (f.anon && SplitsMapping(m, m')))
  {
    DecCounts(f.pages, m.ptes, i, k);
    var r := FewerPtes(m.ptes, i, k);
    CountDrops(m.ptes, r);
    CountExtremes(r);
    SplitByCount(m, Maps(r, m.pmds));
    hide Sum, CountMapped, Dec, PagesOk, SplitsMapping;
  }

  /** Whether a page was lost while others stay, by the counts. */
  lemma SplitByCount(m: Maps, m': Maps)
    requires |m'.ptes| == |m.ptes| && m'.pmds <= m.pmds && forall j :: 0 <= j < |m.ptes| ==> m'.ptes[j] <= m.ptes[j]
    ensures SplitsMapping(m, m') <==> MappedPages(m') < MappedPages(m) && MappedPages(m') > 0
  {
    CountDrops(m.ptes, m'.ptes);
    CountExtremes(m.ptes);
    CountExtremes(m'.ptes);
    hide CountMapped;
    if m'.pmds == 0 && m.pmds == 0 {
      assert forall j ::
        0 <= j < |m.ptes| ==> (IsMapped(m, j) <==> m.ptes[j] > 0) && (IsMapped(m', j) <==> m'.ptes[j] > 0);
    } else if m'.pmds == 0 {
      assert forall j :: 0 <= j < |m.ptes| ==> IsMapped(m, j) && (IsMapped(m', j) <==> m'.ptes[j] > 0);
    } else {
      assert forall j :: 0 <= j < |m.ptes| ==> IsMapped(m', j);
    }
  }

  lemma SplitPmd(f: Folio, m: Maps)
    requires Exact(f, m) && Allowed(m, RemovePmdCall)
    ensures
      var f' := RemovePmd(f);
      var m' := MapsAfter(m, RemovePmdCall);
      && f'.asked == f.asked + (if f.anon && !f.partial && SplitsMapping(m, m') then 1 else 0)
      && f'.partial == (f.partial || (f.anon && SplitsMapping(m, m')))
  {
    CountExtremes(m.ptes);
    SplitByCount(m, m.(pmds := m.pmds - 1));
    hide Sum, CountMapped, PagesOk, SplitsMapping;
  }

  /** A deferred split is asked for exactly when a call on an anonymous large folio that has not
      asked before unmaps some page while another page stays mapped. */
  lemma SplitAskedExactly(f: Folio, m: Maps, call: Call)
    requires Exact(f, m) && Allowed(m, call)
    ensures
      var f' := FolioAfter(f, call);
      var m' := MapsAfter(m, call);
      && f'.asked == f.asked + (if f.anon && !f.partial && SplitsMapping(m, m') then 1 else 0)
      && f'.partial == (f.partial || (f.anon && SplitsMapping(m, m')))
  {
    match call
    case RemovePtesCall(i, k) => SplitPtes(f, m, i, k);
    case RemovePmdCall => SplitPmd(f, m);
    case _ => assert !SplitsMapping(m, MapsAfter(m, call));
  }

  // ------------------------------------------------------------- as it runs

  class Counts {
    const anon: bool
    const pages: array<int>
    var entire: int
    var large: int
    var mapped: int
    var nrMapped: int
    var nrPmdMapped: int
    var partial: bool
    var asked: nat

    function Now(): Folio
      reads this, pages
    {
      Folio(anon, pages[..], entire, large, mapped, nrMapped, nrPmdMapped, partial, asked)
    }

    constructor (n: nat, anon: bool)
      requires n > 0
      ensures Now() == Unmapped(n, anon) && fresh(pages)
    {
      this.anon := anon;
      pages := new int[n](_ => -1);
      entire, large, mapped := -1, -1, 0;
      nrMapped, nrPmdMapped, partial, asked := 0, 0, false, 0;
    }

    /** __folio_add_rmap for PTEs, with the statistics. */
    method AddRmapPtes(i: nat, k: nat)
      requires k > 0 && i + k <= pages.Length
      modifies this, pages
      ensures Now() == AddPtes(old(Now()), i, k)
    {
      var nr := 0;
      if pages.Length == 1 {
        pages[0] := pages[0] + 1;
        if pages[0] == 0 { nr := 1; }
        assert pages[..] == old(pages[..])[0 := old(pages[0]) + 1];
        assert Inc(old(pages[..]), 0, 1) == (pages[..], nr);
      } else {
        var first, d := 0, 0;
        while d < k
          invariant 0 <= d <= k
          invariant Inc(old(pages[..]), i, d) == (pages[..], first)
          modifies pages
        {
          ghost var was := pages[..];
          pages[i + d] := pages[i + d] + 1;
          if pages[i + d] == 0 { first := first + 1; }
          d := d + 1;
          assert pages[..] == was[i + d - 1 := was[i + d - 1] + 1];
        }
        if first > 0 {
          mapped := mapped + first;
          if mapped < ENTIRELY_MAPPED { nr := first; }
        }
        large := large + k;
      }
      nrMapped := nrMapped + nr;
    }

    /** __folio_add_rmap for a PMD, with the statistics. */
    method AddRmapPmd()
      modifies this
      ensures Now() == AddPmd(old(Now()))
    {
      var nr, nrPmd := 0, 0;
      entire := entire + 1;
      if entire == 0 {
        mapped := mapped + ENTIRELY_MAPPED;
        if mapped < ENTIRELY_MAPPED + ENTIRELY_MAPPED {
          nrPmd := pages.Length;
          nr := nrPmd - mapped % ENTIRELY_MAPPED;
          if nr < 0 { nr := 0; }
        }
      }
      large := large + 1;
      nrMapped, nrPmdMapped := nrMapped + nr, nrPmdMapped + nrPmd;
    }

    method DeferSplit(partially: bool)
      modifies this`partial, this`asked
      ensures Now() == AskSplit(old(Now()), partially)
    {
      if partially && anon && !partial {
        partial := true;
        asked := asked + 1;
      }
    }

    /** __folio_remove_rmap for PTEs, with the statistics. */
    method RemoveRmapPtes(i: nat, k: nat)
      requires k > 0 && i + k <= pages.Length
      modifies this, pages
      ensures Now() == RemovePtes(old(Now()), i, k)
    {
      var nr := 0;
      var partially := false;
      if pages.Length == 1 {
        pages[0] := pages[0] - 1;
        if pages[0] < 0 { nr := 1; }
        assert pages[..] == old(pages[..])[0 := old(pages[0]) - 1];
        assert Dec(old(pages[..]), 0, 1) == (pages[..], nr);
      } else {
        large := large - k;
        var last, d := 0, 0;
        while d < k
          invariant 0 <= d <= k
          invariant Dec(old(pages[..]), i, d) == (pages[..], last)
          modifies pages
        {
          ghost var was := pages[..];
          pages[i + d] := pages[i + d] - 1;
          if pages[i + d] < 0 { last := last + 1; }
          d := d + 1;
          assert pages[..] == was[i + d - 1 := was[i + d - 1] - 1];
        }
        if last > 0 {
          mapped := mapped - last;
          if mapped < ENTIRELY_MAPPED { nr := last; }
        }
        partially := nr != 0 && mapped != 0;
      }
      DeferSplit(partially);
      nrMapped := nrMapped - nr;
    }

    /** __folio_remove_rmap for a PMD, with the statistics. */
    method RemoveRmapPmd()
      modifies this
      ensures Now() == RemovePmd(old(Now()))
    {
      var nr, nrPmd := 0, 0;
      large := large - 1;
      entire := entire - 1;
      if entire < 0 {
        mapped := mapped - ENTIRELY_MAPPED;
        if mapped < ENTIRELY_MAPPED {
          nrPmd := pages.Length;
          nr := nrPmd - mapped % ENTIRELY_MAPPED;
          if nr < 0 { nr := 0; }
        }
      }
      DeferSplit(nr != 0 && nr < nrPmd);
      nrMapped, nrPmdMapped := nrMapped - nr, nrPmdMapped - nrPmd;
    }
  }
}
