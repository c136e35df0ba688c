/** Freeing page tables between a floor and a ceiling: four levels of a radix tree, in 64-bit
    arithmetic where address 0 as an end or a ceiling means the top of the address space. */
module PageTables {

  import opened Arithmetic

  const WORD := 0x1_0000_0000_0000_0000
  const PMD_SIZE := 0x20_0000

  type Word = x: int | 0 <= x < WORD

  /** What a table page of each level maps: PTE, PMD, PUD and P4D pages; level 4 is the PGD. */
  function Span(level: nat): (s: nat)
    ensures s > 0
  {
    if level == 0 then 0x20_0000
    else if level == 1 then 0x4000_0000
    else if level == 2 then 0x80_0000_0000
    else if level == 3 then 0x1_0000_0000_0000
    else WORD
  }

  datatype Table = Table(level: nat, start: nat)

  function End(t: Table): nat {
    t.start + Span(t.level)
  }

  predicate WellPlaced(t: Table) {
    t.level <= 3 && t.start % Span(t.level) == 0 && End(t) <= WORD
  }

  function Align(x: nat, level: nat): nat {
    x / Span(level) * Span(level)
  }

  function Parent(t: Table): Table {
    Table(t.level + 1, Align(t.start, t.level + 1))
  }

  /** 0 as an end or a ceiling is the top. */
  function Top(x: nat): nat {
    if x == 0 then WORD else x
  }

  predicate Meets(t: Table, lo: nat, hi: nat) {
    lo < hi && t.start < hi && lo < End(t)
  }

  predicate Inside(t: Table, floor: nat, ceiling: nat) {
    floor <= t.start && End(t) <= Top(ceiling)
  }

  // ------------------------------------------------------------ word arithmetic

  function Minus1(x: Word): Word {
    (x + WORD - 1) % WORD
  }

  function Plus(x: Word, d: nat): Word {
    (x + d) % WORD
  }

  function Minus(x: Word, d: nat): Word
    requires d <= WORD
  {
    (x + WORD - d) % WORD
  }

  /** pmd_addr_end and its siblings. */
  function AddrEnd(addr: Word, end: Word, level: nat): Word {
    var boundary := Align(Plus(addr, Span(level)), level);
    if boundary < WORD && Minus1(boundary) < Minus1(end) then boundary else end
  }

  lemma Minus1Is(x: Word)
    ensures Minus1(x) == Top(x) - 1
  {
  }

  lemma AlignIs(x: nat, level: nat)
    ensures Align(x, level) <= x < Align(x, level) + Span(level)
    ensures Align(x, level) % Span(level) == 0
  {
    Multiple(x / Span(level), Span(level));
  }

  lemma Nested(b: nat, l: nat, m: nat)
    requires l <= m <= 4 && b % Span(m) == 0
    ensures b % Span(l) == 0
    decreases m - l
  {
    if l < m {
      SpanBelow(b, m);
      Nested(b, l, m - 1);
    }
  }

  lemma SpanBelow(b: nat, m: nat)
    requires 0 < m <= 4 && b % Span(m) == 0
    ensures b % Span(m - 1) == 0
  {
    var f := if m == 4 then 0x1_0000 else 512;
    assert Span(m) == f * Span(m - 1);
    hide Span;
    MultipleOfPart(b, f, Span(m - 1));
  }

  /** No table lies across a multiple of a span at least its own. */
  lemma NoStraddle(t: Table, b: nat, level: nat)
    requires WellPlaced(t) && t.level <= level <= 4 && b % Span(level) == 0
    ensures t.start < b ==> End(t) <= b
  {
    Nested(b, t.level, level);
    if t.start < b { Apart(t.start, b, Span(t.level)); }
  }

  lemma TopAligned(l: nat)
    requires l <= 4
    ensures WORD % Span(l) == 0
  {
    Nested(WORD, l, 4);
  }

  /** A table lies within its parent. */
  lemma ParentHolds(t: Table)
    requires WellPlaced(t) && t.level < 3
    ensures WellPlaced(Parent(t)) && Parent(t).start <= t.start && End(t) <= End(Parent(t))
  {
    var p := Parent(t);
    var l := t.level + 1;
    AlignIs(t.start, l);
    TopAligned(l);
    hide Span;
    NextMultiple(p.start, Span(l));
    NoStraddle(t, End(p), l);
    Apart(p.start, WORD, Span(l));
  }

  /** The boundary after addr, which is 0 at the top. */
  lemma NextBoundary(addr: Word, level: nat)
    requires level <= 3
    ensures
      var b := Align(addr, level) + Span(level);
      b <= WORD && addr < b && Align(Plus(addr, Span(level)), level) == (if b == WORD then 0 else b)
  {
    var s := Span(level);
    var a := Align(addr, level);
    AlignIs(addr, level);
    TopAligned(level);
    Small(level);
    hide Span;
    Apart(a, WORD, s);
    NextMultiple(a, s);
    if addr + s < WORD {
      SameQuotient(addr + s, a + s, s);
      if a + s < WORD { Apart(a + s, WORD, s); }
    } else {
      Apart2(a, WORD, s, addr);
      SameQuotient(addr + s - WORD, 0, s);
    }
  }

  /** The next boundary, or the end if that comes first. */
  lemma AddrEndIs(addr: Word, end: Word, level: nat)
    requires level <= 3 && addr < Top(end)
    ensures
      var next := AddrEnd(addr, end, level);
      var b := Align(addr, level) + Span(level);
      && Top(next) == (if b < Top(end) then b else Top(end))
      && addr < Top(next) <= Top(end) && (next == end <==> Top(end) <= b)
  {
    NextBoundary(addr, level);
    hide Align, Span, Plus;
    Minus1Is(end);
    if Align(Plus(addr, Span(level)), level) != 0 { Minus1Is(Align(addr, level) + Span(level)); } else { Minus1Is(0); }
    hide Minus1;
  }

  lemma Small(level: nat)
    requires level <= 3
    ensures Span(level) < WORD
  {
  }

  // ------------------------------------------------------------ what is to go

  predicate AllPlaced(tables: set<Table>) {
    forall t :: t in tables ==> WellPlaced(t)
  }

  /** The tables up to a level that meet a range and lie wholly between floor and ceiling. */
  function Doom(tables: set<Table>, level: nat, lo: nat, hi: nat, floor: nat, ceiling: nat): set<Table> {
    set t | t in tables && t.level <= level && Meets(t, lo, hi) && Inside(t, floor, ceiling)
  }

  /** Below a level, the tables that meet a range still hang on their parents. */
  ghost predicate Rooted(tables: set<Table>, level: nat, lo: nat, hi: nat) {
    forall t :: t in tables && t.level < level && Meets(t, lo, hi) ==> Parent(t) in tables
  }

  /** Where the parent is absent, nothing is left below it. */
  lemma {:induction false} NoneBelow(tables: set<Table>, level: nat, lo: nat, hi: nat, t: Table)
    requires AllPlaced(tables) && Rooted(tables, level, lo, hi) && level <= 3
    requires t in tables && t.level <= level && Meets(t, lo, hi) && lo < hi
    ensures exists p :: p in tables && p.level == level && Meets(p, lo, hi)
    decreases level - t.level
  {
    if t.level < level {
      ParentHolds(t);
      NoneBelow(tables, level, lo, hi, Parent(t));
    }
  }

  /** A range within one span of a level meets only one table of that level. */
  lemma OnlyTable(t: Table, a: nat, hi: nat)
    requires WellPlaced(t) && Meets(t, a, hi) && a < hi <= Align(a, t.level) + Span(t.level)
    ensures t.start == Align(a, t.level)
  {
    var b := Align(a, t.level);
    AlignIs(a, t.level);
    NextMultiple(b, Span(t.level));
    NoStraddle(t, b, t.level);
    NoStraddle(t, b + Span(t.level), t.level);
  }

  /** What is doomed in two adjoining ranges that meet at a boundary. */
  lemma DoomSplit(tables: set<Table>, level: nat, lo: nat, mid: nat, hi: nat, floor: nat, ceiling: nat)
    requires AllPlaced(tables) && level <= 3 && lo <= mid < hi && (lo == mid || mid % Span(level) == 0)
    ensures Doom(tables, level, lo, mid, floor, ceiling) + Doom(tables, level, mid, hi, floor, ceiling)
      == Doom(tables, level, lo, hi, floor, ceiling)
    ensures Doom(tables, level, lo, mid, floor, ceiling) !! Doom(tables, level, mid, hi, floor, ceiling)
  {
    forall t | t in tables && t.level <= level && lo < mid
      ensures !(Meets(t, lo, mid) && Meets(t, mid, hi))
        && (Meets(t, lo, hi) <==> Meets(t, lo, mid) || Meets(t, mid, hi))
    {
      NoStraddle(t, mid, level);
    }
  }

  /** A child that is present meets the range it is visited for. */
  lemma ChildMeets(a: nat, level: nat, hi: nat)
    requires level <= 3 && a < hi && a < WORD
    ensures
      var t := Table(level, Align(a, level));
      WellPlaced(t) && Meets(t, a, hi)
  {
    AlignIs(a, level);
    TopAligned(level);
    Apart(Align(a, level), WORD, Span(level));
  }

  /** If the child that covers a range is absent, nothing in the range is doomed. */
  lemma AbsentChild(tables: set<Table>, level: nat, a: nat, hi: nat, floor: nat, ceiling: nat)
    requires AllPlaced(tables) && level <= 3 && a < hi <= Align(a, level) + Span(level)
    requires Rooted(tables, level, a, hi) && Table(level, Align(a, level)) !in tables
    ensures Doom(tables, level, a, hi, floor, ceiling) == {}
  {
    forall t | t in tables && t.level <= level ensures !Meets(t, a, hi) {
      if Meets(t, a, hi) {
        NoneBelow(tables, level, a, hi, t);
        var p :| p in tables && p.level == level && Meets(p, a, hi);
        OnlyTable(p, a, hi);
      }
    }
  }

  /** Freed page-table pages need only their own PTE span inside the bounds: the top level has
      cut the range down to whole PTE pages. */
  predicate Fits(addr: nat, hi: nat, floor: nat, ceiling: nat) {
    addr % PMD_SIZE == 0 && floor <= addr && ceiling % PMD_SIZE == 0 && hi <= Top(ceiling)
  }

  lemma PteFits(a: nat, hi: nat, floor: nat, ceiling: nat)
    requires Fits(a, hi, floor, ceiling) && a < hi && a < WORD
    ensures Inside(Table(0, Align(a, 0)), floor, ceiling)
  {
    AlignIs(a, 0);
    NextMultiple(Align(a, 0), PMD_SIZE);
    ApartIf(Align(a, 0), a, PMD_SIZE);
    Apart(a, Top(ceiling), PMD_SIZE);
  }

  /** The doomed tables of a PTE page's own range. */
  lemma DoomPte(tables: set<Table>, a: nat, hi: nat, floor: nat, ceiling: nat)
    requires AllPlaced(tables) && Fits(a, hi, floor, ceiling) && a < hi <= Align(a, 0) + Span(0) && a < WORD
    requires Table(0, Align(a, 0)) in tables
    ensures Doom(tables, 0, a, hi, floor, ceiling) == {Table(0, Align(a, 0))}
  {
    PteFits(a, hi, floor, ceiling);
    ChildMeets(a, 0, hi);
    forall t | t in tables && t.level == 0 && Meets(t, a, hi) ensures t == Table(0, Align(a, 0)) {
      OnlyTable(t, a, hi);
    }
  }

  /** The range that the next step of a walk covers. */
  lemma StepRange(a: Word, end: Word, level: nat)
    requires level <= 3 && a < Top(end)
    ensures
      var hi := Top(AddrEnd(a, end, level));
      && a < hi <= Top(end) && hi <= Align(a, level) + Span(level)
      && (AddrEnd(a, end, level) != end ==> hi < Top(end) && hi % Span(level) == 0)
  {
    AddrEndIs(a, end, level);
    AlignIs(a, level);
    NextMultiple(Align(a, level), Span(level));
  }

  /** What a walk has freed so far does not matter to the rest of it. */
  lemma StepKeeps(was: set<Table>, now: set<Table>, l: nat, lo: nat, a: nat, hi: nat, top: nat, floor: nat,
                  ceiling: nat)
    requires AllPlaced(was) && l <= 3 && lo <= a < hi <= top && (a == lo || a % Span(l) == 0)
    requires now == was - Doom(was, l, lo, a, floor, ceiling) && Rooted(was, l, lo, top)
    ensures Rooted(now, l, a, hi)
    ensures was - Doom(was, l, lo, hi, floor, ceiling) == now - Doom(now, l, a, hi, floor, ceiling)
  {
    DoomSplit(was, l, lo, a, hi, floor, ceiling);
    forall t | t in now && t.level < l && Meets(t, a, hi) ensures Parent(t) in now {
      ParentHolds(t);
      if lo < a { NoStraddle(Parent(t), a, l); }
    }
  }

  lemma StepFits(lo: nat, a: nat, l: nat, hi: nat, top: nat, floor: nat, ceiling: nat)
    requires Fits(lo, top, floor, ceiling) && l <= 3 && lo <= a && hi <= top && (a == lo || a % Span(l) == 0)
    ensures Fits(a, hi, floor, ceiling)
  {
    if a != lo { Nested(a, 0, l); }
  }

  /** The tests after the loop decide whether the table page itself lies inside the bounds. */
  lemma TailDecides(tables: set<Table>, level: nat, addr: Word, end: Word, floor: Word, ceiling: Word)
    requires AllPlaced(tables) && 1 <= level <= 3 && addr < Top(end) <= Align(addr, level) + Span(level)
    requires Table(level, Align(addr, level)) in tables
    ensures
      var t := Table(level, Align(addr, level));
      && Doom(tables, level, addr, Top(end), floor, ceiling)
         == Doom(tables, level - 1, addr, Top(end), floor, ceiling) + (if Inside(t, floor, ceiling) then {t} else {})
      && t !in Doom(tables, level - 1, addr, Top(end), floor, ceiling)
      && (Inside(t, floor, ceiling) <==>
          floor <= t.start && (ceiling == 0 || (Align(ceiling, level) != 0 && Top(end) <= Align(ceiling, level))))
  {
    var t := Table(level, Align(addr, level));
    ChildMeets(addr, level, Top(end));
    forall u | u in tables && u.level == level && Meets(u, addr, Top(end)) ensures u == t {
      OnlyTable(u, addr, Top(end));
    }
    if ceiling != 0 {
      CeilingDown(t, ceiling, Top(end));
    }
  }

  lemma CeilingDown(t: Table, ceiling: Word, hi: nat)
    requires WellPlaced(t) && ceiling != 0 && t.start < hi <= End(t)
    ensures End(t) <= ceiling <==> Align(ceiling, t.level) != 0 && hi <= Align(ceiling, t.level)
  {
    var c := Align(ceiling, t.level);
    var s := Span(t.level);
    AlignIs(ceiling, t.level);
    NextMultiple(t.start, s);
    NextMultiple(c, s);
    ApartIf(t.start, c, s);
    ApartIf(c, End(t), s);
  }

  class MmuGather {
    var tables: set<Table>
    var freed: seq<Table>

    ghost predicate Valid()
      reads this
    {
      && AllPlaced(tables)
      && (forall i, j :: 0 <= i < j < |freed| ==> freed[i] != freed[j])
      && (forall t :: t in freed ==> t !in tables)
    }

    /** A table is in place or has been freed, and Valid says not both. */
    ghost function Seen(): set<Table>
      reads this
    {
      tables + set t | t in freed
    }

    constructor (tables: set<Table>)
      requires AllPlaced(tables)
      ensures Valid() && this.tables == tables && freed == []
    {
      this.tables := tables;
      freed := [];
    }

    method Free(t: Table)
      requires Valid() && t in tables
      modifies this
      ensures Valid() && tables == old(tables) - {t} && freed == old(freed) + [t]
      ensures Seen() == old(Seen())
    {
      tables := tables - {t};
      freed := freed + [t];
    }

    /** The do-while loop shared by the range functions: each present entry of one table page. */
    method FreeEntries(level: nat, addr: Word, end: Word, floor: Word, ceiling: Word)
      requires Valid() && 1 <= level <= 4 && addr < Top(end)
      requires Rooted(tables, level - 1, addr, Top(end)) && Fits(addr, Top(end), floor, ceiling)
      modifies this
      ensures Valid() && Seen() == old(Seen())
      ensures tables == old(tables) - Doom(old(tables), level - 1, addr, Top(end), floor, ceiling)
      decreases level, 0
    {
      var l := level - 1;
      var a := addr;
      var more := true;
      ghost var was := tables;
      assert Doom(was, l, addr, addr, floor, ceiling) == {};
      while more
        invariant Valid() && Seen() == old(Seen())
        invariant more ==> addr <= a < Top(end) && (a == addr || a % Span(l) == 0)
        invariant tables == was - Doom(was, l, addr, if more then a else Top(end), floor, ceiling)
        decreases more, Top(end) - a
      {
        var next := AddrEnd(a, end, l);
        StepRange(a, end, l);
        StepKeeps(was, tables, l, addr, a, Top(next), Top(end), floor, ceiling);
        StepFits(addr, a, l, Top(next), Top(end), floor, ceiling);
        var t := Table(l, Align(a, l));
        ghost var before := tables;
        if t in tables {
          if l == 0 {
            DoomPte(tables, a, Top(next), floor, ceiling);
            Free(t);
          } else {
            FreeRange(l, a, next, floor, ceiling);
          }
        } else {
          AbsentChild(tables, l, a, Top(next), floor, ceiling);
        }
        assert tables == before - Doom(before, l, a, Top(next), floor, ceiling);
        a := next;
        more := a != end;
      }
    }

    /** free_pmd_range, free_pud_range and free_p4d_range for levels 1, 2 and 3. */
    method FreeRange(level: nat, addr: Word, end: Word, floor: Word, ceiling: Word)
      requires Valid() && 1 <= level <= 3 && addr < Top(end) <= Align(addr, level) + Span(level)
      requires Rooted(tables, level, addr, Top(end)) && Fits(addr, Top(end), floor, ceiling)
      requires Table(level, Align(addr, level)) in tables
      modifies this
      ensures Valid() && Seen() == old(Seen())
      ensures tables == old(tables) - Doom(old(tables), level, addr, Top(end), floor, ceiling)
      decreases level, 1
    {
      ghost var was := tables;
      FreeEntries(level, addr, end, floor, ceiling);
      var start := Align(addr, level);
      TailDecides(was, level, addr, end, floor, ceiling);
      Minus1Is(end);
      if start < floor { return; }
      var limit := ceiling;
      if limit != 0 {
        limit := Align(limit, level);
        if limit == 0 { return; }
      }
      Minus1Is(limit);
      if Minus1(end) > Minus1(limit) { return; }
      Free(Table(level, start));
    }

    /** free_pgd_range. */
    method FreePgdRange(addr: Word, end: Word, floor: Word, ceiling: Word)
      requires Valid() && floor <= addr < Top(end) <= Top(ceiling)
      requires Rooted(tables, 3, addr, Top(end))
      modifies this
      ensures Valid() && Seen() == old(Seen())
      ensures tables == old(tables) - Doom(old(tables), 3, addr, Top(end), floor, ceiling)
    {
      CutDown(tables, addr, Top(end), floor, ceiling);
      CutFits(addr, Top(end), floor, ceiling);
      CutWords(addr, end, floor, ceiling);
      hide Doom, Rooted, Fits, Align, Span, Plus, Minus, CutLow, CutHigh, CutCeiling, Minus1, Valid, Seen;
      var lo, limit, hi := Align(addr, 0), ceiling, end;
      if lo < floor {
        lo := Plus(lo, PMD_SIZE);
        if lo == 0 { return; }
      }
      if limit != 0 {
        limit := Align(limit, 0);
        if limit == 0 { return; }
      }
      assert limit == CutCeiling(ceiling) % WORD && Top(limit) == CutCeiling(ceiling) && lo == CutLow(addr, floor);
      Minus1Is(hi);
      Minus1Is(limit);
      if Minus1(hi) > Minus1(limit) { hi := Minus(hi, PMD_SIZE); }
      assert Top(hi) == CutHigh(Top(end), ceiling);
      Minus1Is(hi);
      hide Top;
      if lo > Minus1(hi) { return; }
      FreeEntries(4, lo, hi, floor, limit);
    }
  }

  /** The bounds after free_pgd_range has rounded them to whole PTE pages. */
  function CutLow(addr: nat, floor: nat): nat {
    if Align(addr, 0) < floor then Align(addr, 0) + PMD_SIZE else Align(addr, 0)
  }

  function CutCeiling(ceiling: nat): nat {
    if ceiling == 0 then WORD else Align(ceiling, 0)
  }

  function CutHigh(hi: nat, ceiling: nat): int {
    if hi > CutCeiling(ceiling) then hi - PMD_SIZE else hi
  }

  lemma CutAligned(addr: Word, ceiling: Word)
    ensures Align(addr, 0) % PMD_SIZE == 0 && Align(addr, 0) <= addr < Align(addr, 0) + PMD_SIZE
    ensures (Align(addr, 0) + PMD_SIZE) % PMD_SIZE == 0
    ensures var c := CutCeiling(ceiling); c % PMD_SIZE == 0 && c <= Top(ceiling) < c + PMD_SIZE && c <= WORD
  {
    AlignIs(addr, 0);
    AlignIs(ceiling, 0);
    TopAligned(0);
    NextMultiple(Align(addr, 0), PMD_SIZE);
  }

  lemma TableAligned(t: Table)
    requires WellPlaced(t)
    ensures t.start % PMD_SIZE == 0 && End(t) % PMD_SIZE == 0 && t.start + PMD_SIZE <= End(t)
  {
    NextMultiple(t.start, Span(t.level));
    Nested(t.start, 0, t.level);
    Nested(End(t), 0, t.level);
    Apart(t.start, End(t), PMD_SIZE);
  }

  /** Rounding the range loses no table that can be freed, and admits none that cannot. */
  lemma CutTable(t: Table, addr: Word, hi0: nat, floor: Word, ceiling: Word)
    requires WellPlaced(t) && floor <= addr < hi0 <= Top(ceiling)
    ensures
      var lo, hi, c := CutLow(addr, floor), CutHigh(hi0, ceiling), CutCeiling(ceiling);
      && (Meets(t, addr, hi0) && Inside(t, floor, ceiling)
          <==> lo < hi && Meets(t, lo, hi) && floor <= t.start && End(t) <= c)
      && (lo < hi && Meets(t, lo, hi) ==> Meets(t, addr, hi0))
  {
    var a, c := Align(addr, 0), CutCeiling(ceiling);
    CutAligned(addr, ceiling);
    TableAligned(t);
    hide Align, CutCeiling, Span, End;
    ApartIf(c, End(t), PMD_SIZE);
    ApartIf(a, t.start, PMD_SIZE);
    ApartIf(a, End(t), PMD_SIZE);
  }

  lemma CutFits(addr: Word, hi0: nat, floor: Word, ceiling: Word)
    requires floor <= addr < hi0 <= Top(ceiling)
    ensures
      var lo, hi, c := CutLow(addr, floor), CutHigh(hi0, ceiling), CutCeiling(ceiling);
      && lo <= WORD && 0 <= c <= WORD
      && (c > 0 ==> 0 < hi <= c && (0 <= lo < hi ==> Fits(lo, hi, floor, c % WORD)))
  {
    CutAligned(addr, ceiling);
    TopAligned(0);
    Apart(Align(addr, 0), WORD, PMD_SIZE);
    var c := CutCeiling(ceiling);
    if c > 0 { Apart(0, c, PMD_SIZE); }
    hide Align;
  }

  /** The rounded bounds in word arithmetic. */
  lemma CutWords(addr: Word, end: Word, floor: Word, ceiling: Word)
    requires floor <= addr < Top(end) <= Top(ceiling)
    ensures
      var a, lo, hi, c := Align(addr, 0), CutLow(addr, floor), CutHigh(Top(end), ceiling), CutCeiling(ceiling);
      && a < WORD && Align(ceiling, 0) < WORD && lo <= WORD
      && lo == (if a < floor then (if Plus(a, PMD_SIZE) == 0 then WORD else Plus(a, PMD_SIZE)) else a)
      && (c > 0 <==> ceiling == 0 || Align(ceiling, 0) != 0)
      && c == (if ceiling == 0 then WORD else Align(ceiling, 0))
      && c % WORD == (if ceiling == 0 then 0 else Align(ceiling, 0))
      && (c > 0 ==> hi == if Top(end) > c then Top(Minus(end, PMD_SIZE)) else Top(end))
  {
    AlignIs(ceiling, 0);
    CutAligned(addr, ceiling);
    CutFits(addr, Top(end), floor, ceiling);
    hide Align;
  }

  predicate Within(t: Table, floor: nat, c: nat) {
    floor <= t.start && End(t) <= c
  }

  lemma WithinIs(t: Table, floor: Word, c: nat)
    requires c <= WORD
    ensures 0 < c ==> (Within(t, floor, c) <==> Inside(t, floor, c % WORD))
    ensures c == 0 ==> !Within(t, floor, c)
  {
    if 0 < c { assert Top(c % WORD) == c; }
  }

  /** What free_pgd_range frees after rounding is what it should free. */
  lemma CutDown(tables: set<Table>, addr: Word, hi0: nat, floor: Word, ceiling: Word)
    requires AllPlaced(tables) && floor <= addr < hi0 <= Top(ceiling) && Rooted(tables, 3, addr, hi0)
    ensures
      var lo, hi, c := CutLow(addr, floor), CutHigh(hi0, ceiling), CutCeiling(ceiling);
      if 0 < c && lo < hi then
        && Doom(tables, 3, addr, hi0, floor, ceiling) == Doom(tables, 3, lo, hi, floor, c % WORD)
        && Rooted(tables, 3, lo, hi)
      else Doom(tables, 3, addr, hi0, floor, ceiling) == {}
  {
    hide CutLow, CutHigh, CutCeiling, Align, Span, End, Meets, Inside;
    var lo, hi, c := CutLow(addr, floor), CutHigh(hi0, ceiling), CutCeiling(ceiling);
    CutAligned(addr, ceiling);
    if 0 < c { assert Top(c % WORD) == c; }
    forall t | t in tables
      ensures Meets(t, addr, hi0) && Inside(t, floor, ceiling) <==> lo < hi && Meets(t, lo, hi) && Within(t, floor, c)
      ensures lo < hi && Meets(t, lo, hi) ==> Meets(t, addr, hi0)
      ensures 0 < c ==> (Within(t, floor, c) <==> Inside(t, floor, c % WORD))
      ensures c == 0 ==> !Within(t, floor, c)
    {
      CutTable(t, addr, hi0, floor, ceiling);
      WithinIs(t, floor, c);
    }
    hide Within;
  }
}
