/**
Differentiation of real functions: a function has a derivative at a point when its
difference quotients there come as close to it as the distance to the point shrinks.
*/
module Derivatives {
  import opened Tape

  predicate Fits(x: real, c: real) { -c <= x <= c }

  function Size(x: real): (c: real)
    ensures c >= 0.0 && Fits(x, c) && (c == x || c == -x)
  {
    if x < 0.0 then -x else x
  }

  lemma {:induction false} Positive(a: real, b: real)
    requires a >= 0.0 && b >= 0.0
    ensures a * b >= 0.0
  {
  }

  lemma {:induction false} Grows(a: real, b: real, d: real)
    requires 0.0 <= a && b <= d
    ensures a * b <= a * d
  {
    Positive(a, d - b);
  }

  lemma {:induction false} FitsProduct(a: real, b: real, c: real, d: real)
    requires Fits(a, c) && Fits(b, d)
    ensures Fits(a * b, c * d)
  {
    assert (c - a) * (d + b) >= 0.0 && (c + a) * (d - b) >= 0.0;
    assert (c - a) * (d + b) + (c + a) * (d - b) == 2.0 * (c * d) - 2.0 * (a * b);
    assert (c - a) * (d - b) >= 0.0 && (c + a) * (d + b) >= 0.0;
    assert (c - a) * (d - b) + (c + a) * (d + b) == 2.0 * (c * d) + 2.0 * (a * b);
  }

  function Smaller(a: real, b: real): real { if a <= b then a else b }

  // ----- difference quotients -----

  /** s is the slope of the line through a function at x and a step h further. */
  ghost predicate Secant(g: real -> real, x: real, h: real, s: real) {
    g(x + h) - g(x) == h * s
  }

  lemma {:induction false} SecantOf(g: real -> real, x: real, h: real) returns (s: real)
    requires h != 0.0
    ensures Secant(g, x, h, s)
  {
    s := (g(x + h) - g(x)) / h;
  }

  lemma {:induction false} Cancel(k: real, s: real, t: real)
    requires k != 0.0 && k * s == k * t
    ensures s == t
  {
  }

  ghost predicate DerivesWithin(g: real -> real, x: real, d: real, reach: real, bound: real) {
    && reach > 0.0 && bound >= 0.0
    && forall h: real, n: real, s: real :: h != 0.0 && Fits(h, n) && n <= reach && Secant(g, x, h, s) ==> Near(s, d, bound, n)
  }

  // n is at least the size of the step.
  ghost predicate Near(s: real, d: real, bound: real, n: real) {
    Fits(s - d, bound * n)
  }

  /** The difference quotients of g at x tend to d, at a linear rate. */
  ghost predicate Derives(g: real -> real, x: real, d: real) {
    exists reach: real, bound: real :: DerivesWithin(g, x, d, reach, bound)
  }

  lemma {:induction false} NearMore(s: real, d: real, bound: real, more: real, n: real)
    requires Near(s, d, bound, n) && bound <= more && n >= 0.0
    ensures Near(s, d, more, n)
  {
    Positive(more - bound, n);
    assert (more - bound) * n == more * n - bound * n;
  }

  lemma {:induction false} Wider(g: real -> real, x: real, d: real, reach: real, bound: real, less: real, more: real)
    requires DerivesWithin(g, x, d, reach, bound) && 0.0 < less <= reach && bound <= more
    ensures DerivesWithin(g, x, d, less, more)
  {
    forall h: real, n: real, s: real | h != 0.0 && Fits(h, n) && n <= less && Secant(g, x, h, s)
      ensures Near(s, d, more, n)
    {
      NearMore(s, d, bound, more, n);
    }
  }

  lemma {:induction false} SquareFits(k: real, n: real, s: real, d: real, bound: real)
    requires (n == k || n == -k) && Fits(k, n) && Near(s, d, bound, n)
    ensures Fits(k * s - k * d, bound * (k * k))
  {
    FitsProduct(k, s - d, n, bound * n);
    assert n * n == k * k;
    assert n * (bound * n) == bound * (n * n);
  }

  /** The line through `before` with slope d says where a step h leads, up to a multiple
      of the square of the step. */
  predicate Linear(after: real, before: real, d: real, bound: real, h: real) {
    Fits(after - (before + h * d), bound * (h * h))
  }

  lemma {:induction false} LinearAt(before: real, after: real, h: real, s: real, d: real, bound: real)
    requires after - before == h * s && Fits(h * s - h * d, bound * (h * h))
    ensures Linear(after, before, d, bound, h)
  {
  }

  /** A derivative is the linear part of a function. */
  lemma {:induction false} LinearPart(g: real -> real, d: real, reach: real, bound: real, h: real)
    requires DerivesWithin(g, 0.0, d, reach, bound) && Fits(h, reach)
    ensures Linear(g(h), g(0.0), d, bound, h)
  {
    if h != 0.0 {
      var s := SecantOf(g, 0.0, h);
      assert 0.0 + h == h;
      var n := Size(h);
      assert Near(s, d, bound, n);
      SquareFits(h, n, s, d, bound);
      LinearAt(g(0.0), g(h), h, s, d, bound);
    }
  }

  // ----- lines, sums and negations -----

  lemma {:induction false} LineSlope(before: real, after: real, h: real, s: real, d: real)
    requires h != 0.0 && after - before == h * s && after == before + h * d
    ensures s == d
  {
    Cancel(h, s, d);
  }

  lemma {:induction false} LineDerives(g: real -> real, x: real, d: real)
    requires forall y: real :: g(y) == g(x) + (y - x) * d
    ensures Derives(g, x, d)
  {
    forall h: real, n: real, s: real | h != 0.0 && Fits(h, n) && n <= 1.0 && Secant(g, x, h, s) ensures Near(s, d, 0.0, n) {
      var y := x + h;
      assert y - x == h && g(y) == g(x) + (y - x) * d;
      LineSlope(g(x), g(y), h, s, d);
    }
    assert DerivesWithin(g, x, d, 1.0, 0.0);
  }

  lemma {:induction false} SumSlope(k: real, s: real, left: real, right: real)
    requires k != 0.0 && k * s == k * left + k * right
    ensures s == left + right
  {
    assert k * (left + right) == k * left + k * right;
    Cancel(k, s, left + right);
  }

  lemma {:induction false} SumNear(left: real, a: real, p: real, right: real, b: real, q: real, n: real)
    requires Near(left, a, p, n) && Near(right, b, q, n)
    ensures Near(left + right, a + b, p + q, n)
  {
    assert (p + q) * n == p * n + q * n;
  }

  lemma {:induction false} SumSlopeAt(g: real -> real, l: real -> real, r: real -> real, x: real, h: real, s: real, left: real,
      right: real)
    requires h != 0.0 && Secant(g, x, h, s) && Secant(l, x, h, left) && Secant(r, x, h, right)
    requires g(x) == l(x) + r(x) && g(x + h) == l(x + h) + r(x + h)
    ensures s == left + right
  {
    SumSlope(h, s, left, right);
  }

  lemma {:induction false} SumDerives(g: real -> real, l: real -> real, r: real -> real, x: real, a: real, b: real)
    requires Derives(l, x, a) && Derives(r, x, b) && forall y: real :: g(y) == l(y) + r(y)
    ensures Derives(g, x, a + b)
  {
    var u, p :| DerivesWithin(l, x, a, u, p);
    var v, q :| DerivesWithin(r, x, b, v, q);
    forall h: real, n: real, s: real | h != 0.0 && Fits(h, n) && n <= Smaller(u, v) && Secant(g, x, h, s)
      ensures Near(s, a + b, p + q, n)
    {
      var left := SecantOf(l, x, h);
      var right := SecantOf(r, x, h);
      SumSlopeAt(g, l, r, x, h, s, left, right);
      SumNear(left, a, p, right, b, q, n);
    }
    assert DerivesWithin(g, x, a + b, Smaller(u, v), p + q);
  }

  lemma {:induction false} NegativeDerives(g: real -> real, l: real -> real, x: real, a: real)
    requires Derives(l, x, a) && forall y: real :: g(y) == -l(y)
    ensures Derives(g, x, -a)
  {
    var u, p :| DerivesWithin(l, x, a, u, p);
    forall h: real, n: real, s: real | h != 0.0 && Fits(h, n) && n <= u && Secant(g, x, h, s) ensures Near(s, -a, p, n) {
      assert h * -s == -(h * s);
      assert Secant(l, x, h, -s);
      assert Near(-s, a, p, n);
    }
    assert DerivesWithin(g, x, -a, u, p);
  }

  // ----- products -----

  /** A bound for what two derivatives are about. */
  lemma {:induction false} CommonBound(x: real, a: real, p: real, y: real, b: real, q: real) returns (m: real)
    requires p >= 0.0 && q >= 0.0
    ensures m >= 0.0 && Fits(x, m) && Fits(a, m) && p <= m && Fits(y, m) && Fits(b, m) && q <= m
  {
    m := Size(x) + Size(a) + p + Size(y) + Size(b) + q;
  }

  // The step of a function whose secant is near its slope b.
  lemma {:induction false} StepFits(k: real, n: real, s: real, b: real, m: real, step: real)
    requires step == k * s && Fits(k, n) && 0.0 <= n <= 1.0 && Fits(b, m) && m >= 0.0 && Fits(s - b, m * n)
    ensures Fits(s, 2.0 * m) && Fits(step, 2.0 * (m * n)) && m * n <= m
  {
    Grows(m, n, 1.0);
    FitsProduct(k, s, n, 2.0 * m);
    assert n * (2.0 * m) == 2.0 * (m * n);
  }

  lemma {:induction false} FitsTriple(x: real, y: real, m: real, r: real)
    requires Fits(x, r) && Fits(y, 3.0 * m)
    ensures Fits(x * y, 3.0 * (m * r))
  {
    FitsProduct(x, y, r, 3.0 * m);
  }

  lemma {:induction false} FitsDouble(x: real, y: real, m: real, r: real)
    requires Fits(x, m) && Fits(y, 2.0 * r)
    ensures Fits(x * y, 2.0 * (m * r))
  {
    FitsProduct(x, y, m, 2.0 * r);
  }

  lemma {:induction false} SumFits(a: real, b: real, c: real, r: real)
    requires Fits(a, 3.0 * r) && Fits(b, 2.0 * r) && Fits(c, r)
    ensures Fits(a + b + c, 6.0 * r)
  {
  }

  // The product's slope s * right + x * t, without its limit a * y + x * b.
  lemma {:induction false} ProductFits(ds: real, right: real, a: real, step: real, x: real, dt: real, m: real, r: real)
    requires Fits(ds, r) && Fits(right, 3.0 * m) && Fits(a, m) && Fits(step, 2.0 * r) && Fits(x, m) && Fits(dt, r)
    ensures Fits(ds * right + a * step + x * dt, 6.0 * (m * r))
  {
    FitsTriple(ds, right, m, r);
    FitsDouble(a, step, m, r);
    FitsProduct(x, dt, m, r);
    SumFits(ds * right, a * step, x * dt, m * r);
  }

  lemma {:induction false} ProductDifference(s: real, a: real, right: real, y: real, x: real, t: real, b: real)
    ensures s * right + x * t - (a * y + x * b) == (s - a) * right + a * (right - y) + x * (t - b)
  {
  }

  lemma {:induction false} ProductNear(s: real, a: real, right: real, y: real, x: real, t: real, b: real, m: real, r: real)
    requires Fits(right - y, 2.0 * r) && Fits(right, 3.0 * m)
    requires Fits(a, m) && Fits(x, m) && Fits(s - a, r) && Fits(t - b, r)
    ensures Fits(s * right + x * t - (a * y + x * b), 6.0 * (m * r))
  {
    ProductDifference(s, a, right, y, x, t, b);
    ProductFits(s - a, right, a, right - y, x, t - b, m, r);
  }

  lemma {:induction false} ProductStep(x: real, left: real, y: real, right: real)
    ensures left * right - x * y == (left - x) * right + x * (right - y)
  {
  }

  lemma {:induction false} ProductSlope(u: real, v: real, w: real, k: real, sl: real, sr: real, right: real, x: real, s: real)
    requires k != 0.0 && w == u * right + x * v && u == k * sl && v == k * sr && w == k * s
    ensures s == sl * right + x * sr
  {
    assert u * right == k * (sl * right);
    assert x * v == k * (x * sr);
    assert k * (sl * right + x * sr) == k * (sl * right) + k * (x * sr);
    Cancel(k, s, sl * right + x * sr);
  }

  lemma {:induction false} ProductSlopeAt(g: real -> real, l: real -> real, r: real -> real, x: real, h: real, s: real, left: real,
      right: real)
    requires h != 0.0 && Secant(g, x, h, s) && Secant(l, x, h, left) && Secant(r, x, h, right)
    requires g(x) == Times(l(x), r(x)) && g(x + h) == Times(l(x + h), r(x + h))
    ensures s == left * r(x + h) + l(x) * right
  {
    ProductStep(l(x), l(x + h), r(x), r(x + h));
    ProductSlope(l(x + h) - l(x), r(x + h) - r(x), g(x + h) - g(x), h, left, right, r(x + h), l(x), s);
  }

  lemma {:induction false} EndFits(after: real, y: real, m: real, r: real)
    requires Fits(after - y, 2.0 * r) && r <= m && Fits(y, m)
    ensures Fits(after, 3.0 * m)
  {
  }

  lemma {:induction false} StepNear(k: real, n: real, s: real, b: real, m: real, y: real, after: real)
    requires after - y == k * s && Fits(k, n) && 0.0 <= n <= 1.0 && Fits(b, m) && m >= 0.0 && Fits(s - b, m * n) && Fits(y, m)
    ensures Fits(after - y, 2.0 * (m * n)) && Fits(after, 3.0 * m)
  {
    StepFits(k, n, s, b, m, after - y);
    EndFits(after, y, m, m * n);
  }

  lemma {:induction false} StepAt(r: real -> real, x: real, h: real, n: real, right: real, b: real, m: real)
    requires Secant(r, x, h, right) && Near(right, b, m, n) && Fits(h, n) && n <= 1.0 && Fits(b, m) && Fits(r(x), m) && m >= 0.0
    ensures Fits(r(x + h) - r(x), 2.0 * (m * n)) && Fits(r(x + h), 3.0 * m)
  {
    StepNear(h, n, right, b, m, r(x), r(x + h));
  }

  lemma {:induction false} Regrouped(m: real, n: real)
    ensures 6.0 * (m * (m * n)) == (6.0 * (m * m)) * n
  {
  }

  lemma {:induction false} ProductNearBy(left: real, a: real, after: real, y: real, x: real, right: real, b: real, n: real, m: real)
    requires Fits(after - y, 2.0 * (m * n)) && Fits(after, 3.0 * m) && Fits(a, m) && Fits(x, m)
    requires Fits(left - a, m * n) && Fits(right - b, m * n)
    ensures Fits(left * after + x * right - (a * y + x * b), (6.0 * (m * m)) * n)
  {
    ProductNear(left, a, after, y, x, right, b, m, m * n);
    Regrouped(m, n);
  }

  lemma {:induction false} ProductAt(g: real -> real, l: real -> real, r: real -> real, x: real, h: real, n: real, s: real, a: real,
      b: real, left: real, right: real, m: real)
    requires s == left * r(x + h) + l(x) * right
    requires Fits(r(x + h) - r(x), 2.0 * (m * n)) && Fits(r(x + h), 3.0 * m)
    requires Near(left, a, m, n) && Near(right, b, m, n) && Fits(a, m) && Fits(l(x), m)
    ensures Near(s, Times(a, r(x)) + Times(l(x), b), 6.0 * (m * m), n)
  {
    ProductNearBy(left, a, r(x + h), r(x), l(x), right, b, n, m);
  }

  lemma {:induction false} ProductDerives(g: real -> real, l: real -> real, r: real -> real, x: real, a: real, b: real)
    requires Derives(l, x, a) && Derives(r, x, b) && forall y: real :: g(y) == Times(l(y), r(y))
    ensures Derives(g, x, Times(a, r(x)) + Times(l(x), b))
  {
    var u, p :| DerivesWithin(l, x, a, u, p);
    var v, q :| DerivesWithin(r, x, b, v, q);
    var m := CommonBound(l(x), a, p, r(x), b, q);
    var reach, d := Smaller(1.0, Smaller(u, v)), Times(a, r(x)) + Times(l(x), b);
    Wider(l, x, a, u, p, reach, m);
    Wider(r, x, b, v, q, reach, m);
    forall h: real, n: real, s: real | h != 0.0 && Fits(h, n) && n <= reach && Secant(g, x, h, s)
      ensures Near(s, d, 6.0 * (m * m), n)
    {
      var left := SecantOf(l, x, h);
      var right := SecantOf(r, x, h);
      ProductSlopeAt(g, l, r, x, h, s, left, right);
      StepAt(r, x, h, n, right, b, m);
      ProductAt(g, l, r, x, h, n, s, a, b, left, right, m);
    }
    Positive(m, m);
    assert DerivesWithin(g, x, d, reach, 6.0 * (m * m));
  }

  // ----- a function of a function -----

  lemma {:induction false} ChainSlope(h: real, k: real, left: real, right: real, w: real, s: real)
    requires h != 0.0 && k == h * left && w == k * right && w == h * s
    ensures s == left * right
  {
    assert k * right == h * (left * right);
    Cancel(h, s, left * right);
  }

  lemma {:induction false} RightFits(right: real, d: real, m: real, c: real, n: real)
    requires Fits(right - d, c * n) && Fits(d, m) && c >= 0.0 && n <= 1.0
    ensures Fits(right, m + c)
  {
    Grows(c, n, 1.0);
  }

  lemma {:induction false} ChainDifference(left: real, a: real, right: real, d: real)
    ensures left * right - a * d == (left - a) * right + a * (right - d)
  {
  }

  lemma {:induction false} GatherTwo(q: real, v: real, m: real, c: real, n: real)
    ensures (q * n) * v + m * (c * n) == (q * v + m * c) * n
  {
    assert (q * n) * v == (q * v) * n && m * (c * n) == (m * c) * n;
  }

  lemma {:induction false} SumTwo(a: real, b: real, p: real, q: real)
    requires Fits(a, p) && Fits(b, q)
    ensures Fits(a + b, p + q)
  {
  }

  lemma {:induction false} TwoFit(ds: real, right: real, a: real, dr: real, m: real, v: real, q: real, r: real)
    requires Fits(ds, q) && Fits(right, v) && Fits(a, m) && Fits(dr, r)
    ensures Fits(ds * right + a * dr, q * v + m * r)
  {
    FitsProduct(ds, right, q, v);
    FitsProduct(a, dr, m, r);
    SumTwo(ds * right, a * dr, q * v, m * r);
  }

  lemma {:induction false} ChainNear(left: real, a: real, right: real, d: real, m: real, c: real, n: real)
    requires Near(left, a, m, n) && Near(right, d, c, n) && Fits(a, m) && Fits(d, m) && c >= 0.0 && n <= 1.0
    ensures Near(left * right, a * d, m * (m + c) + m * c, n)
  {
    RightFits(right, d, m, c, n);
    TwoFit(left - a, right, a, right - d, m, m + c, m * n, c * n);
    GatherTwo(m, m + c, m, c, n);
    ChainDifference(left, a, right, d);
  }

  // The slope of the outer function over the step the inner one makes.
  lemma {:induction false} OuterSlope(outer: real -> real, x: real, d: real, reach: real, m: real, k: real, n: real)
    returns (right: real)
    requires DerivesWithin(outer, x, d, reach, m) && Fits(k, n) && n <= reach
    ensures Secant(outer, x, k, right) && Near(right, d, m, n)
  {
    if k == 0.0 {
      right := d;
      assert outer(x + k) == outer(x);
      Positive(m, n);
    } else {
      right := SecantOf(outer, x, k);
    }
  }

  lemma {:induction false} ReachOf(m: real, t: real) returns (r: real)
    requires m >= 0.0 && t > 0.0
    ensures r > 0.0 && r * (2.0 * m + 1.0) == t
  {
    r := t / (2.0 * m + 1.0);
  }

  lemma {:induction false} ReachFits(m: real, t: real, r: real, n: real)
    requires m >= 0.0 && 0.0 <= n <= r && r * (2.0 * m + 1.0) == t
    ensures 2.0 * (m * n) <= t
  {
    Grows(m, n, r);
    assert r * (2.0 * m + 1.0) == 2.0 * (m * r) + r;
  }

  lemma {:induction false} ChainSlopeAt(g: real -> real, inner: real -> real, outer: real -> real, x: real, h: real, s: real,
      left: real, right: real)
    requires h != 0.0 && Secant(g, x, h, s) && Secant(inner, x, h, left)
    requires Secant(outer, inner(x), inner(x + h) - inner(x), right)
    requires g(x) == outer(inner(x)) && g(x + h) == outer(inner(x + h))
    ensures s == left * right
  {
    assert inner(x) + (inner(x + h) - inner(x)) == inner(x + h);
    ChainSlope(h, inner(x + h) - inner(x), left, right, g(x + h) - g(x), s);
  }

  lemma {:induction false} Doubled(m: real, n: real)
    ensures m * (2.0 * (m * n)) == (2.0 * (m * m)) * n
  {
  }

  lemma {:induction false} InnerStepAt(inner: real -> real, x: real, h: real, n: real, left: real, a: real, m: real)
    requires Secant(inner, x, h, left) && Near(left, a, m, n) && Fits(h, n) && n <= 1.0 && Fits(a, m) && m >= 0.0
    ensures Fits(inner(x + h) - inner(x), 2.0 * (m * n))
  {
    StepFits(h, n, left, a, m, inner(x + h) - inner(x));
  }

  // What the chain rule's slope may differ by, and the bound that follows.
  lemma {:induction false} ChainBound(m: real) returns (c: real, bound: real)
    requires m >= 0.0
    ensures c == 2.0 * (m * m) && c >= 0.0 && bound == m * (m + c) + m * c && bound >= 0.0
  {
    Positive(m, m);
    c := 2.0 * (m * m);
    Positive(m, m + c);
    Positive(m, c);
    bound := m * (m + c) + m * c;
  }

  lemma {:induction false} NearDoubled(right: real, d: real, m: real, c: real, n: real)
    requires Near(right, d, m, 2.0 * (m * n)) && c == 2.0 * (m * m)
    ensures Near(right, d, c, n)
  {
    Doubled(m, n);
  }

  lemma {:induction false} NearSame(s: real, d: real, p: real, q: real, n: real)
    requires Near(s, d, p, n) && p == q
    ensures Near(s, d, q, n)
  {
  }

  /** The chain rule. */
  lemma {:induction false} ChainDerives(g: real -> real, inner: real -> real, outer: real -> real, x: real, a: real, d: real)
    requires Derives(inner, x, a) && Derives(outer, inner(x), d) && forall y: real :: g(y) == outer(inner(y))
    ensures Derives(g, x, Times(a, d))
  {
    var u, p :| DerivesWithin(inner, x, a, u, p);
    var t, q :| DerivesWithin(outer, inner(x), d, t, q);
    var m := CommonBound(a, a, p, d, d, q);
    var far := ReachOf(m, t);
    var c, bound := ChainBound(m);
    var reach, slope := Smaller(1.0, Smaller(u, far)), Times(a, d);
    Wider(inner, x, a, u, p, reach, m);
    Wider(outer, inner(x), d, t, q, t, m);
    forall h: real, n: real, s: real | h != 0.0 && Fits(h, n) && n <= reach && Secant(g, x, h, s)
      ensures Near(s, slope, bound, n)
    {
      var left := SecantOf(inner, x, h);
      ReachFits(m, t, far, n);
      InnerStepAt(inner, x, h, n, left, a, m);
      var right := OuterSlope(outer, inner(x), d, t, m, inner(x + h) - inner(x), 2.0 * (m * n));
      ChainSlopeAt(g, inner, outer, x, h, s, left, right);
      NearDoubled(right, d, m, c, n);
      ChainNear(left, a, right, d, m, c, n);
      NearSame(left * right, a * d, m * (m + c) + m * c, bound, n);
    }
    assert DerivesWithin(g, x, slope, reach, bound);
  }

  // ----- the inverse -----

  lemma {:induction false} InverseTimes(d: real)
    requires d != 0.0
    ensures d * Inverse(d) == 1.0
  {
  }

  lemma {:induction false} InverseStep(d: real, h: real, i: real, j: real)
    requires d * i == 1.0 && (d + h) * j == 1.0
    ensures j - i == h * -(i * j)
  {
    assert i * ((d + h) * j) - j * (d * i) == h * (i * j);
  }

  lemma {:induction false} InverseDifference(d: real, h: real, i: real, j: real)
    requires d * i == 1.0 && (d + h) * j == 1.0
    ensures -(i * j) - -(i * i) == h * ((i * i) * j)
  {
    InverseStep(d, h, i, j);
    assert i * (j - i) == i * (h * -(i * j));
    assert i * (h * -(i * j)) == -(h * ((i * i) * j));
  }

  lemma {:induction false} InverseSizes(d: real, i: real, y: real, j: real)
    requires d * i == 1.0 && y * j == 1.0 && d / 2.0 <= y && d >= 0.0 && i >= 0.0 && j >= 0.0
    ensures j <= 2.0 * i
  {
    Grows(j, d / 2.0, y);
    assert d * j <= 2.0;
    Grows(i, d * j, 2.0);
    assert i * (d * j) == (d * i) * j;
  }

  lemma {:induction false} Negated(d: real, i: real)
    ensures d * -i == -(d * i) && -d * i == -(d * i)
  {
  }

  lemma {:induction false} InverseSign(d: real, i: real)
    requires d * i == 1.0
    ensures d > 0.0 ==> i > 0.0
    ensures d < 0.0 ==> i < 0.0
  {
    Negated(d, i);
    if d > 0.0 && i <= 0.0 {
      Positive(d, -i);
      assert false;
    }
    if d < 0.0 && i >= 0.0 {
      Positive(-d, i);
      assert false;
    }
  }

  lemma {:induction false} InverseNear(d: real, h: real, i: real, j: real)
    requires d != 0.0 && d * i == 1.0 && (d + h) * j == 1.0 && Fits(h, Size(d) / 2.0)
    ensures Fits(j, 2.0 * Size(i))
  {
    InverseSign(d, i);
    InverseSign(d + h, j);
    if d > 0.0 {
      InverseSizes(d, i, d + h, j);
    } else {
      assert -d * -i == 1.0 && -(d + h) * -j == 1.0;
      InverseSizes(-d, -i, -(d + h), -j);
    }
  }

  lemma {:induction false} InverseFits(h: real, n: real, ii: real, j: real, c: real)
    requires Fits(h, n) && ii >= 0.0 && Fits(j, c)
    ensures Fits(h * (ii * j), (ii * c) * n)
  {
    FitsProduct(ii, j, ii, c);
    FitsProduct(h, ii * j, n, ii * c);
  }

  lemma {:induction false} InverseSlope(h: real, i: real, j: real, s: real)
    requires h != 0.0 && j - i == h * -(i * j) && j - i == h * s
    ensures s == -(i * j)
  {
    Cancel(h, s, -(i * j));
  }

  lemma {:induction false} SquarePositive(x: real)
    ensures x * x >= 0.0
  {
  }

  lemma {:induction false} InverseSlopeNear(d: real, h: real, n: real, i: real, j: real, c: real)
    requires d * i == 1.0 && (d + h) * j == 1.0 && Fits(h, n) && Fits(j, c)
    ensures Near(-(i * j), -(i * i), (i * i) * c, n)
  {
    InverseDifference(d, h, i, j);
    SquarePositive(i);
    InverseFits(h, n, i * i, j, c);
  }

  lemma {:induction false} InverseAt(d: real, h: real, n: real, i: real, j: real, s: real, c: real)
    requires h != 0.0 && d * i == 1.0 && (d + h) * j == 1.0 && Fits(h, n) && Fits(j, c) && j - i == h * s
    ensures Near(s, -(i * i), (i * i) * c, n)
  {
    InverseStep(d, h, i, j);
    InverseSlope(h, i, j, s);
    InverseSlopeNear(d, h, n, i, j, c);
  }

  lemma {:induction false} AwayFromZero(d: real, h: real, n: real)
    requires d != 0.0 && Fits(h, n) && n <= Size(d) / 2.0
    ensures d + h != 0.0
  {
  }

  lemma {:induction false} InverseBound(i: real) returns (bound: real)
    ensures bound == (i * i) * (2.0 * Size(i)) && bound >= 0.0
  {
    SquarePositive(i);
    Positive(i * i, 2.0 * Size(i));
    bound := (i * i) * (2.0 * Size(i));
  }

  lemma {:induction false} InverseSecant(d: real, h: real, n: real, i: real, j: real, s: real, c: real, slope: real, bound: real)
    requires d != 0.0 && h != 0.0 && Fits(h, n) && n <= Size(d) / 2.0 && j - i == h * s
    requires d * i == 1.0 && (d + h) * j == 1.0 && c == 2.0 * Size(i) && slope == -(i * i) && bound == (i * i) * c
    ensures Near(s, slope, bound, n)
  {
    InverseNear(d, h, i, j);
    InverseAt(d, h, n, i, j, s, c);
    NearSame(s, -(i * i), (i * i) * c, bound, n);
  }

  ghost predicate Inverts(f: real -> real) {
    forall y: real :: y != 0.0 ==> y * f(y) == 1.0
  }

  lemma {:induction false} InverseInverts()
    ensures Inverts(Inverse)
  {
    forall y: real | y != 0.0 ensures y * Inverse(y) == 1.0 {
      InverseTimes(y);
    }
  }

  lemma {:induction false} InvertsWithin(f: real -> real, d: real, i: real, c: real, reach: real, slope: real, bound: real)
    requires Inverts(f) && d != 0.0 && i == f(d) && reach == Size(d) / 2.0 && reach > 0.0
    requires c == 2.0 * Size(i) && slope == -(i * i) && bound == (i * i) * c && bound >= 0.0
    ensures DerivesWithin(f, d, slope, reach, bound)
  {
    forall h: real, n: real, s: real | h != 0.0 && Fits(h, n) && n <= reach && Secant(f, d, h, s)
      ensures Near(s, slope, bound, n)
    {
      AwayFromZero(d, h, n);
      InverseSecant(d, h, n, i, f(d + h), s, c, slope, bound);
    }
  }

  /** Away from zero the inverse has its textbook derivative. */
  lemma {:induction false} InverseDerives(f: real -> real, d: real)
    requires Inverts(f) && d != 0.0
    ensures Derives(f, d, -Times(f(d), f(d)))
  {
    var i := f(d);
    var bound := InverseBound(i);
    InvertsWithin(f, d, i, 2.0 * Size(i), Size(d) / 2.0, -(i * i), bound);
    assert DerivesWithin(f, d, -Times(i, i), Size(d) / 2.0, bound);
  }

  // ----- quotients -----

  lemma {:induction false} QuotientIsTimes(a: real, d: real)
    ensures Quotient(a, d) == Times(a, Inverse(d))
  {
    QuotientIsProduct(a, d);
  }

  lemma {:induction false} QuotientSlope(n: real, a: real, d: real, b: real, i: real)
    requires d * i == 1.0
    ensures a * i + n * (b * -(i * i)) == (a * d - n * b) * (i * i)
  {
    assert (a * d - n * b) * (i * i) == (a * i) * (d * i) - n * (b * (i * i));
  }

  lemma {:induction false} QuotientSlopeIs(n: real, a: real, d: real, b: real)
    requires d != 0.0
    ensures var i := Inverse(d);
      Times(a, i) + Times(n, Times(b, -Times(i, i))) == Quotient(Times(a, d) - Times(n, b), Times(d, d))
  {
    var i := Inverse(d);
    InverseTimes(d);
    QuotientSlope(n, a, d, b, i);
    QuotientIsProduct(a * d - n * b, d * d);
    InverseOfProduct(d, d, i, i);
  }

  lemma {:induction false} SameSlope(g: real -> real, x: real, a: real, b: real)
    requires Derives(g, x, a) && a == b
    ensures Derives(g, x, b)
  {
  }

  lemma {:induction false} QuotientBy(g: real -> real, l: real -> real, r: real -> real, inverse: real -> real, x: real, a: real,
      b: real)
    requires Derives(l, x, a) && Derives(r, x, b) && r(x) != 0.0
    requires forall y: real :: inverse(y) == Inverse(r(y))
    requires forall y: real :: g(y) == Times(l(y), inverse(y))
    ensures Derives(g, x, Times(a, Inverse(r(x))) + Times(l(x), Times(b, -Times(Inverse(r(x)), Inverse(r(x))))))
  {
    var i := Inverse(r(x));
    InverseInverts();
    InverseDerives(Inverse, r(x));
    ChainDerives(inverse, r, Inverse, x, b, -Times(i, i));
    ProductDerives(g, l, inverse, x, a, Times(b, -Times(i, i)));
  }

  lemma {:induction false} QuotientFactors(g: real -> real, l: real -> real, r: real -> real) returns (inverse: real -> real)
    requires forall y: real :: g(y) == Quotient(l(y), r(y))
    ensures forall y: real :: inverse(y) == Inverse(r(y))
    ensures forall y: real :: g(y) == Times(l(y), inverse(y))
  {
    inverse := (y: real) => Inverse(r(y));
    forall y: real ensures g(y) == Times(l(y), inverse(y)) {
      QuotientIsTimes(l(y), r(y));
    }
  }

  lemma {:induction false} QuotientDerives(g: real -> real, l: real -> real, r: real -> real, x: real, a: real, b: real)
    requires Derives(l, x, a) && Derives(r, x, b) && r(x) != 0.0 && forall y: real :: g(y) == Quotient(l(y), r(y))
    ensures Derives(g, x, Quotient(Times(a, r(x)) - Times(l(x), b), Times(r(x), r(x))))
  {
    var inverse := QuotientFactors(g, l, r);
    QuotientBy(g, l, r, inverse, x, a, b);
    QuotientSlopeIs(l(x), a, r(x), b);
    var i := Inverse(r(x));
    SameSlope(g, x, Times(a, i) + Times(l(x), Times(b, -Times(i, i))),
              Quotient(Times(a, r(x)) - Times(l(x), b), Times(r(x), r(x))));
  }
}
