/** Multiples and quotients, for address arithmetic with a variable step. */
module Arithmetic {

  lemma LessFactor(i: int, j: int, s: nat)
    requires s > 0
    ensures i * s < j * s ==> i < j
  {
    if j <= i {
      assert (i - j) * s >= 0;
      assert i * s == j * s + (i - j) * s;
    }
  }

  lemma Distribute(i: int, j: int, s: int)
    ensures (i + j) * s == i * s + j * s
  {
  }

  lemma NotNegative(i: nat, s: nat)
    ensures i * s >= 0
  {
  }

  lemma Multiple(k: nat, s: nat)
    requires s > 0
    ensures k * s % s == 0
  {
    var q, r := k * s / s, k * s % s;
    LessFactor(q, k + 1, s);
    LessFactor(k, q + 1, s);
    assert k * s == q * s + r;
    assert (q + 1) * s == q * s + s && (k + 1) * s == k * s + s;
  }

  /** Between two multiples there is at least one whole step. */
  lemma Apart(x: nat, b: nat, s: nat)
    requires s > 0 && x % s == 0 && b % s == 0 && x < b
    ensures x + s <= b
  {
    var i, j := x / s, b / s;
    assert x == i * s && b == j * s;
    LessFactor(i, j, s);
    Distribute(i, j - i, s);
    Distribute(1, j - i - 1, s);
    NotNegative(j - i - 1, s);
  }

  lemma ApartIf(x: nat, b: nat, s: nat)
    requires s > 0 && x % s == 0 && b % s == 0
    ensures x < b ==> x + s <= b
  {
    if x < b { Apart(x, b, s); }
  }

  lemma Regroup(k: int, f: int, s: int)
    ensures k * (f * s) == (k * f) * s
  {
  }

  /** A multiple of a multiple. */
  lemma MultipleOfPart(b: nat, f: nat, s: nat)
    requires f > 0 && s > 0
    ensures f * s > 0 && (b % (f * s) == 0 ==> b % s == 0)
  {
    LessProduct(0, f, s);
    var k := Div(b, f * s);
    if b % (f * s) == 0 {
      assert b == k * (f * s);
      Regroup(k, f, s);
      LessEqualProduct(0, k, f);
      Multiple(k * f, s);
    }
  }

  lemma NextMultiple(x: nat, s: nat)
    requires s > 0 && x % s == 0
    ensures (x + s) % s == 0
  {
    Multiple(x / s + 1, s);
    assert (x / s + 1) * s == x + s;
  }

  lemma Apart2(a: nat, b: nat, s: nat, x: nat)
    requires s > 0 && a % s == 0 && b % s == 0 && a <= x < a + s && a + s <= b && b <= x + s
    ensures a + s == b
  {
    NextMultiple(a, s);
    if a + s < b { Apart(a + s, b, s); }
  }

  lemma SameQuotient(x: nat, a: nat, s: nat)
    requires s > 0 && a % s == 0 && a <= x < a + s
    ensures x / s * s == a
  {
    var q, k := x / s, a / s;
    assert x == q * s + x % s && a == k * s;
    Distribute(k, 1, s);
    Distribute(q, 1, s);
    LessFactor(q, k + 1, s);
    LessFactor(k, q + 1, s);
  }

  /** Dividing by a multiple of the unit is dividing the number of whole units. */
  lemma UnitQuotient(k: nat, f: nat, p: nat, rest: nat)
    requires f > 0 && p > rest
    ensures f * p > 0 && (k * p + rest) / (f * p) == k / f
  {
    var q, r := k / f, k % f;
    LessFactor(-1, q, f);
    SplitQuotient(q, f, r, p, rest);
    assert k == q * f + r;
  }

  lemma SplitQuotient(q: nat, f: nat, r: nat, p: nat, rest: nat)
    requires r < f && p > rest
    ensures f * p > 0 && ((q * f + r) * p + rest) / (f * p) == q
  {
    LessProduct(0, f, p);
    RestBelow(r, f, p, rest);
    Expand(q, f, r, p);
    var s, t := f * p, r * p + rest;
    QuotientIs(q, s, t);
    assert (q * f + r) * p + rest == q * s + t;
  }

  lemma RestBelow(r: nat, f: nat, p: nat, rest: nat)
    requires r < f && rest < p
    ensures 0 <= r * p + rest < f * p
  {
    LessEqualProduct(r + 1, f, p);
    LessEqualProduct(0, r, p);
    assert (r + 1) * p == r * p + p;
  }

  lemma Expand(q: nat, f: nat, r: nat, p: nat)
    ensures (q * f + r) * p == q * (f * p) + r * p
  {
  }

  lemma LessEqualProduct(r: nat, f: nat, p: nat)
    requires r <= f
    ensures 0 <= r * p <= f * p
  {
    var d := f - r;
    assert d * p >= 0 && r * p >= 0;
    assert (r + d) * p == r * p + d * p;
  }

  lemma UnitRemainder(k: nat, f: nat, p: nat)
    requires f > 0 && p > 0
    ensures f * p > 0 && (k * p) % (f * p) == (k % f) * p
  {
    UnitQuotient(k, f, p, 0);
    var q, r := k / f, k % f;
    assert k == q * f + r;
    assert (q * f + r) * p == q * (f * p) + r * p;
  }

  lemma WholeUnits(k: nat, p: nat)
    requires p > 0
    ensures (k * p) / p == k
  {
    QuotientIs(k, p, 0);
  }

  lemma LessProduct(r: nat, f: nat, p: nat)
    requires r < f && p > 0
    ensures r * p < f * p
  {
    var d := f - r - 1;
    assert d * p >= 0;
    assert (r + d + 1) * p == r * p + d * p + p;
  }

  lemma QuotientIs(q: nat, s: nat, r: nat)
    requires r < s
    ensures (q * s + r) / s == q
  {
    var x := q * s + r;
    var k := x / s;
    assert x == k * s + x % s;
    assert (k + 1) * s == k * s + s && (q + 1) * s == q * s + s;
    LessFactor(k, q + 1, s);
    LessFactor(q, k + 1, s);
  }

  function Div(x: nat, d: nat): (q: nat)
    requires d > 0
    ensures q * d <= x < q * d + d
  {
    LessFactor(-1, x / d, d);
    x / d
  }

  function RoundDown(x: nat, d: nat): (r: nat)
    requires d > 0
    ensures r <= x && x - r == x % d
  {
    LessFactor(-1, x / d, d);
    x - x % d
  }

  lemma DivMono(x: nat, y: nat, d: nat)
    requires d > 0 && x <= y
    ensures Div(x, d) <= Div(y, d)
  {
    var q, k := Div(x, d), Div(y, d);
    assert (k + 1) * d == k * d + d;
    LessFactor(q, k + 1, d);
  }

  lemma AddMultiple(q: nat, n: nat, r: nat)
    requires n > 0
    ensures (q * n + r) % n == r % n
  {
    var k, m := r / n, r % n;
    LessFactor(-1, k, n);
    assert r == k * n + m;
    assert (q + k) * n == q * n + k * n;
    QuotientIs(q + k, n, m);
    assert q * n + r == (q + k) * n + m;
  }

  /** Reducing modulo a multiple first does not change the remainder. */
  lemma ModMod(x: nat, w: nat, n: nat)
    requires n > 0 && w > 0 && w % n == 0
    ensures (x % w) % n == x % n
  {
    var q, k := x / w, w / n;
    LessFactor(-1, q, w);
    LessFactor(-1, k, n);
    assert x == q * w + x % w && w == k * n;
    assert q * w == q * k * n;
    LessEqualProduct(0, q, k);
    AddMultiple(q * k, n, x % w);
  }
}
