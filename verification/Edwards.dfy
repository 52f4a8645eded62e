/** The twisted Edwards group law -x^2 + y^2 = 1 + d x^2 y^2 over a prime field, as
    `_point_add` and `_inv` of tincver/client/esa_client.py compute it. */
module Edwards {
  import opened Numbers

  /** p is the modulus, d the curve constant, i the square root of -1. */
  datatype Curve = Curve(p: int, d: int, i: int) {
    /** The two facts that make addition total: -1 is a square and d is not. */
    ghost predicate Valid() {
      && IsPrime(p)
      && p > 2
      && Cong(i * i, -1, p)
      && forall s: int :: !IsRoot(s)
    }

    ghost predicate IsRoot(s: int)
      requires p > 0
    {
      Cong(s * s, d, p)
    }
  }

  datatype Point = Point(x: int, y: int)

  const NEUTRAL := Point(0, 1)

  predicate Reduced(c: Curve, a: Point) {
    0 <= a.x < c.p && 0 <= a.y < c.p
  }

  predicate OnCurve(c: Curve, a: Point)
    requires c.p > 0
  {
    Reduced(c, a) && Satisfies(c, a.x, a.y)
  }

  predicate Satisfies(c: Curve, x: int, y: int)
    requires c.p > 0
  {
    Cong(y * y - x * x, 1 + c.d * ((x * y) * (x * y)), c.p)
  }

  /** `_inv`: the Fermat inverse pow(value, P - 2, P). */
  function Inv(v: int, p: int): int
    requires p >= 2
  {
    Pow(v, p - 2) % p
  }

  /** `_point_add`, operation by operation. */
  function Add(c: Curve, a: Point, b: Point): Point
    requires c.p >= 2
  {
    var x1x2 := a.x * b.x % c.p;
    var y1y2 := a.y * b.y % c.p;
    var dxxyy := c.d * x1x2 * y1y2 % c.p;
    Point((a.x * b.y + b.x * a.y) * Inv(1 + dxxyy, c.p) % c.p,
          (y1y2 + x1x2) * Inv(1 - dxxyy, c.p) % c.p)
  }

  /** d x1 x2 y1 y2 before any reduction. */
  function Twist(c: Curve, a: Point, b: Point): int {
    c.d * ((a.x * a.y) * (b.x * b.y))
  }

  // ---------------------------------------------------------------- linear combinations of congruences

  lemma Combine1(l: int, r: int, c1: int, a1: int, b1: int, p: int)
    requires p > 0 && Cong(a1, b1, p)
    requires l - r == c1 * (a1 - b1)
    ensures Cong(l, r, p)
  {
    var k1 := CongElim(a1, b1, p);
    assert c1 * (k1 * p) == c1 * k1 * p;
    CongIntro(l, r, c1 * k1, p);
  }

  lemma Combine2(l: int, r: int, c1: int, a1: int, b1: int, c2: int, a2: int, b2: int, p: int)
    requires p > 0 && Cong(a1, b1, p) && Cong(a2, b2, p)
    requires l - r == c1 * (a1 - b1) + c2 * (a2 - b2)
    ensures Cong(l, r, p)
  {
    Combine1(l - c2 * (a2 - b2), r, c1, a1, b1, p);
    Combine1(l, l - c2 * (a2 - b2), c2, a2, b2, p);
  }

  lemma Combine3(l: int, r: int, c1: int, a1: int, b1: int, c2: int, a2: int, b2: int,
                 c3: int, a3: int, b3: int, p: int)
    requires p > 0 && Cong(a1, b1, p) && Cong(a2, b2, p) && Cong(a3, b3, p)
    requires l - r == c1 * (a1 - b1) + c2 * (a2 - b2) + c3 * (a3 - b3)
    ensures Cong(l, r, p)
  {
    Combine2(l - c3 * (a3 - b3), r, c1, a1, b1, c2, a2, b2, p);
    Combine1(l, l - c3 * (a3 - b3), c3, a3, b3, p);
  }

  // ---------------------------------------------------------------- the inverse

  /** `_inv` is the field inverse. */
  lemma InvCorrect(v: int, p: int)
    requires IsPrime(p) && !Cong(v, 0, p)
    ensures 0 <= Inv(v, p) < p
    ensures Cong(v * Inv(v, p), 1, p)
  {
    Fermat(v, p);
    PowUnfold(v, p - 1);
    CongMod(Pow(v, p - 2), p);
    CongScale(v, Inv(v, p), Pow(v, p - 2), p);
  }

  /** The reduced quotient n / v satisfies its defining equation. */
  lemma Quotient(n: int, v: int, w: int, p: int)
    requires IsPrime(p) && !Cong(v, 0, p) && Cong(v, w, p)
    ensures Cong((n * Inv(v, p) % p) * w, n, p)
  {
    InvCorrect(v, p);
    var h := Inv(v, p);
    CongMod(n * h, p);
    CongMul(n * h % p, n * h, w, v, p);
    CongScale(n, v * h, 1, p);
    assert n * h * v == n * (v * h);
  }

  // ---------------------------------------------------------------- completeness

  lemma TwistReduction(c: Curve, a: Point, b: Point)
    requires c.p >= 2
    ensures Cong(c.d * (a.x * b.x % c.p) * (a.y * b.y % c.p) % c.p, Twist(c, a, b), c.p)
  {
    var u, v, p := a.x * b.x, a.y * b.y, c.p;
    CongMod(u, p);
    CongMod(v, p);
    CongScale(c.d, u % p, u, p);
    CongMul(c.d * (u % p), c.d * u, v % p, v, p);
    CongMod(c.d * (u % p) * (v % p), p);
    assert c.d * u * v == Twist(c, a, b) by {
      assert u * v == (a.x * a.y) * (b.x * b.y);
      assert c.d * u * v == c.d * (u * v);
    }
  }

  /** A non-square d is no quotient of squares either. */
  lemma NoRatio(c: Curve, al: int, g: int)
    requires c.Valid() && Cong(al * al, c.d * (g * g), c.p)
    ensures Cong(g, 0, c.p)
  {
    var p := c.p;
    if !Cong(g, 0, p) {
      InvCorrect(g, p);
      var h := Inv(g, p);
      var s := al * h;
      assert s * s - c.d == (h * h) * (al * al - c.d * (g * g)) + c.d * (g * h + 1) * (g * h - 1) by {
        SquareSplit(al, h, g, c.d);
      }
      Combine2(s * s, c.d, h * h, al * al, c.d * (g * g), c.d * (g * h + 1), g * h, 1, p);
      assert c.IsRoot(s);
    }
  }

  lemma SquareSplit(al: int, h: int, g: int, d: int)
    ensures (al * h) * (al * h) - d == (h * h) * (al * al - d * (g * g)) + d * (g * h + 1) * (g * h - 1)
  {
    assert (al * h) * (al * h) == (h * h) * (al * al);
    assert (h * h) * (d * (g * g)) == d * ((g * h) * (g * h));
    assert d * (g * h + 1) * (g * h - 1) == d * ((g * h) * (g * h)) - d;
  }

  /** The identity behind completeness, for either square root j of -1. */
  lemma SidedIdentity(x1: int, y1: int, x2: int, y2: int, d: int, j: int, e: int)
    requires e * e == 1
    ensures
      var p1, p2 := x1 * y1, x2 * y2;
      var al, be, t := y1 + e * j * x1, y2 + j * x2, d * (p1 * p2);
      al * al - d * ((p1 * be) * (p1 * be))
      == (x1 * x1 - d * (p1 * p1) * (x2 * x2)) * (j * j + 1)
         + (y1 * y1 - x1 * x1 - (1 + d * (p1 * p1)))
         - d * (p1 * p1) * (y2 * y2 - x2 * x2 - (1 + d * (p2 * p2)))
         - (e + t + 2 * (j * p1)) * (t - e)
  {
    var p1, p2 := x1 * y1, x2 * y2;
    var m, dd, t := d * (p1 * p1), d * (p2 * p2), d * (p1 * p2);
    SquareOfSum(y1, x1, e, j);
    SquareOfProduct(p1, y2, x2, j, d);
    TwistSquare(d, p1, p2, j);
    SidedLinear(x1 * x1, y1 * y1, x2 * x2, y2 * y2, m, dd, t, j * j, j * p1, j * p2, e);
  }

  lemma TwistSquare(d: int, p1: int, p2: int, j: int)
    ensures (d * (p1 * p1)) * (d * (p2 * p2)) == (d * (p1 * p2)) * (d * (p1 * p2))
    ensures (d * (p1 * p1)) * (j * p2) == (j * p1) * (d * (p1 * p2))
  {
  }

  lemma SquareSplits(a: int, b: int)
    ensures (a * b) * (a * b) == (a * a) * (b * b)
  {
  }

  lemma SquareOfSum(y: int, x: int, e: int, j: int)
    requires e * e == 1
    ensures (y + e * j * x) * (y + e * j * x) == y * y + 2 * (e * (j * (x * y))) + (j * j) * (x * x)
  {
    assert (y + e * j * x) * (y + e * j * x) == y * y + 2 * (e * (j * (x * y))) + (e * e) * ((j * j) * (x * x));
  }

  lemma SquareOfProduct(q: int, y: int, x: int, j: int, d: int)
    ensures d * ((q * (y + j * x)) * (q * (y + j * x)))
         == d * (q * q) * (y * y) + 2 * (d * (q * q) * (j * (x * y))) + d * (q * q) * ((j * j) * (x * x))
  {
    SquareSplits(q, y + j * x);
    SquareOfSum(y, x, 1, j);
    Distribute4(d, q * q, y * y, j * (x * y), (j * j) * (x * x));
  }

  lemma Distribute4(d: int, q: int, u: int, v: int, w: int)
    ensures d * (q * (u + 2 * v + w)) == d * q * u + 2 * (d * q * v) + d * q * w
  {
  }

  lemma SidedLinear(x1: int, y1: int, x2: int, y2: int, m: int, dd: int, t: int, jj: int, jp: int, jq: int, e: int)
    requires m * dd == t * t && m * jq == jp * t && e * e == 1
    ensures y1 + 2 * (e * jp) + jj * x1 - (m * y2 + 2 * (m * jq) + m * (jj * x2))
         == (x1 - m * x2) * (jj + 1) + (y1 - x1 - (1 + m)) - m * (y2 - x2 - (1 + dd)) - (e + t + 2 * jp) * (t - e)
  {
    assert (e + t + 2 * jp) * (t - e) == t * t - e * e + 2 * (jp * t) - 2 * (e * jp);
  }

  lemma Sided(c: Curve, a: Point, b: Point, j: int, e: int)
    requires c.Valid() && Satisfies(c, a.x, a.y) && Satisfies(c, b.x, b.y)
    requires Cong(j * j, -1, c.p) && e * e == 1 && Cong(Twist(c, a, b), e, c.p)
    ensures Cong((a.x * a.y) * (b.y + j * b.x), 0, c.p)
  {
    var p1, p2 := a.x * a.y, b.x * b.y;
    var al, be, t := a.y + e * j * a.x, b.y + j * b.x, Twist(c, a, b);
    var m := c.d * (p1 * p1);
    SidedIdentity(a.x, a.y, b.x, b.y, c.d, j, e);
    SidedCombination(al * al, c.d * ((p1 * be) * (p1 * be)), a.x * a.x - m * (b.x * b.x), j * j,
                     a.y * a.y - a.x * a.x, 1 + m, m, b.y * b.y - b.x * b.x, 1 + c.d * (p2 * p2),
                     e + t + 2 * (j * p1), t, e, c.p);
    NoRatio(c, al, p1 * be);
  }

  lemma SidedCombination(l: int, r: int, k: int, jj: int, u1: int, v1: int, m: int,
                         u2: int, v2: int, z: int, t: int, e: int, p: int)
    requires p > 0 && l - r == k * (jj + 1) + (u1 - v1) - m * (u2 - v2) - z * (t - e)
    requires Cong(jj, -1, p) && Cong(u1, v1, p) && Cong(u2, v2, p) && Cong(t, e, p)
    ensures Cong(l, r, p)
  {
    Combine3(l + z * (t - e), r, k, jj, -1, 1, u1, v1, -m, u2, v2, p);
    Combine1(l, l + z * (t - e), -z, t, e, p);
  }

  /** The twist of two curve points is neither 1 nor -1: no denominator vanishes. */
  lemma TwistIsNotUnit(c: Curve, a: Point, b: Point, e: int)
    requires c.Valid() && Satisfies(c, a.x, a.y) && Satisfies(c, b.x, b.y)
    requires e * e == 1
    ensures !Cong(Twist(c, a, b), e, c.p)
  {
    var p, t := c.p, Twist(c, a, b);
    var p1, p2 := a.x * a.y, b.x * b.y;
    if Cong(t, e, p) {
      UnitFactors(c, p1, p2, e);
      assert (-c.i) * (-c.i) == c.i * c.i;
      Sided(c, a, b, c.i, e);
      Sided(c, a, b, -c.i, e);
      Euclid(p1, b.y + c.i * b.x, p);
      Euclid(p1, b.y + -c.i * b.x, p);
      CongAdd(b.y + c.i * b.x, 0, b.y + -c.i * b.x, 0, p);
      assert b.y + c.i * b.x + (b.y + -c.i * b.x) == 2 * b.y;
      TwoIsUnit(b.y, p);
      CongScale(b.x, b.y, 0, p);
    }
  }

  lemma UnitFactors(c: Curve, p1: int, p2: int, e: int)
    requires c.Valid() && e * e == 1 && Cong(c.d * (p1 * p2), e, c.p)
    ensures !Cong(p1, 0, c.p) && !Cong(p2, 0, c.p)
  {
    var p := c.p;
    OneIsNotZero(p);
    if Cong(p1 * p2, 0, p) {
      Combine2(1, 0, -e, c.d * (p1 * p2), e, e * c.d, p1 * p2, 0, p);
    } else {
      if Cong(p1, 0, p) { CongScale(p2, p1, 0, p); }
      if Cong(p2, 0, p) { CongScale(p1, p2, 0, p); }
    }
  }

  lemma TwoIsUnit(y: int, p: int)
    requires IsPrime(p) && p > 2 && Cong(2 * y, 0, p)
    ensures Cong(y, 0, p)
  {
    Euclid(2, y, p);
    if Cong(2, 0, p) { CongReduced(2, 0, p); }
  }

  /** Both denominators of `_point_add` are units on curve points. */
  lemma Complete(c: Curve, a: Point, b: Point)
    requires c.Valid() && Satisfies(c, a.x, a.y) && Satisfies(c, b.x, b.y)
    ensures !Cong(1 + Twist(c, a, b), 0, c.p)
    ensures !Cong(1 - Twist(c, a, b), 0, c.p)
  {
    var t := Twist(c, a, b);
    TwistIsNotUnit(c, a, b, 1);
    TwistIsNotUnit(c, a, b, -1);
    if Cong(1 + t, 0, c.p) { Combine1(t, -1, 1, 1 + t, 0, c.p); }
    if Cong(1 - t, 0, c.p) { Combine1(t, 1, -1, 1 - t, 0, c.p); }
  }

  /** The quotients of `_point_add` satisfy their defining equations. */
  lemma AddEquations(c: Curve, a: Point, b: Point)
    requires c.Valid() && Satisfies(c, a.x, a.y) && Satisfies(c, b.x, b.y)
    ensures
      var r, t := Add(c, a, b), Twist(c, a, b);
      && Reduced(c, r)
      && Cong(r.x * (1 + t), a.x * b.y + b.x * a.y, c.p)
      && Cong(r.y * (1 - t), a.y * b.y + a.x * b.x, c.p)
  {
    var p, t := c.p, Twist(c, a, b);
    var u, v := a.x * b.x, a.y * b.y;
    var s := c.d * (u % p) * (v % p) % p;
    TwistReduction(c, a, b);
    Complete(c, a, b);
    CongAdd(1, 1, s, t, p);
    CongSub(1, 1, s, t, p);
    Quotient(a.x * b.y + b.x * a.y, 1 + s, 1 + t, p);
    Quotient(v % p + u % p, 1 - s, 1 - t, p);
    CongMod(u, p);
    CongMod(v, p);
    CongAdd(v % p, v, u % p, u, p);
  }

  // ---------------------------------------------------------------- closure

  lemma ClosureIdentity(x1: int, y1: int, x2: int, y2: int, d: int)
    ensures
      var p1, p2 := x1 * y1, x2 * y2;
      var w1, w2, t := y1 * y1 - x1 * x1, y2 * y2 - x2 * x2, d * (p1 * p2);
      var nx, ny := x1 * y2 + x2 * y1, y1 * y2 + x1 * x2;
      (ny * ny) * ((1 + t) * (1 + t)) - (nx * nx) * ((1 - t) * (1 - t)) - d * ((nx * ny) * (nx * ny))
      == w1 * w2 * (1 + t * t) - d * (p1 * p1) * (w2 * w2) - d * (p2 * p2) * (w1 * w1)
  {
    var p1, p2 := x1 * y1, x2 * y2;
    var w1, w2, t := y1 * y1 - x1 * x1, y2 * y2 - x2 * x2, d * (p1 * p2);
    var s1, s2 := y1 * y1 + x1 * x1, y2 * y2 + x2 * x2;
    var nx, ny := x1 * y2 + x2 * y1, y1 * y2 + x1 * x2;
    NumeratorProducts(x1, y1, x2, y2);
    WeightSquare(x1, y1);
    WeightSquare(x2, y2);
    Alternate(ny * ny, nx * nx, t);
    CrossSquare(d, p1, p2, s1, s2, w1, w2);
    assert d * ((nx * ny) * (nx * ny)) == d * ((p1 * s2 + p2 * s1) * (p1 * s2 + p2 * s1));
  }

  lemma NumeratorProducts(x1: int, y1: int, x2: int, y2: int)
    ensures
      var nx, ny := x1 * y2 + x2 * y1, y1 * y2 + x1 * x2;
      && ny * ny - nx * nx == (y1 * y1 - x1 * x1) * (y2 * y2 - x2 * x2)
      && ny * ny + nx * nx == (y1 * y1 + x1 * x1) * (y2 * y2 + x2 * x2) + 4 * ((x1 * y1) * (x2 * y2))
      && nx * ny == (x1 * y1) * (y2 * y2 + x2 * x2) + (x2 * y2) * (y1 * y1 + x1 * x1)
  {
    var xx1, yy1, xx2, yy2 := x1 * x1, y1 * y1, x2 * x2, y2 * y2;
    BinomialSquare(x1 * y2, x2 * y1);
    BinomialSquare(y1 * y2, x1 * x2);
    PairProducts(x1, y1, x2, y2);
    FourTerms(yy1, -xx1, yy2, -xx2);
    FourTerms(yy1, xx1, yy2, xx2);
    FourTerms(x1 * y2, x2 * y1, y1 * y2, x1 * x2);
    FourTerms(x1 * y1, 0, yy2, xx2);
    FourTerms(x2 * y2, 0, yy1, xx1);
  }

  lemma BinomialSquare(a: int, b: int)
    ensures (a + b) * (a + b) == a * a + 2 * (a * b) + b * b
  {
  }

  lemma FourTerms(a: int, b: int, c: int, d: int)
    ensures (a + b) * (c + d) == a * c + a * d + b * c + b * d
  {
  }

  /** Products of two products, regrouped. */
  lemma PairProducts(x1: int, y1: int, x2: int, y2: int)
    ensures (x1 * y2) * (x1 * y2) == (x1 * x1) * (y2 * y2) && (x2 * y1) * (x2 * y1) == (y1 * y1) * (x2 * x2)
    ensures (y1 * y2) * (y1 * y2) == (y1 * y1) * (y2 * y2) && (x1 * x2) * (x1 * x2) == (x1 * x1) * (x2 * x2)
    ensures (x1 * y2) * (x2 * y1) == (x1 * y1) * (x2 * y2) == (y1 * y2) * (x1 * x2)
    ensures (x1 * y2) * (y1 * y2) == (x1 * y1) * (y2 * y2) && (x1 * y2) * (x1 * x2) == (x2 * y2) * (x1 * x1)
    ensures (x2 * y1) * (y1 * y2) == (x2 * y2) * (y1 * y1) && (x2 * y1) * (x1 * x2) == (x1 * y1) * (x2 * x2)
  {
    Interleave(x1, y2, x1, y2);
    Interleave(y1, x2, y1, x2);
    Interleave(y1, y2, y1, y2);
    Interleave(x1, x2, x1, x2);
    MixedProduct(x1, y1, x2, y2);
    SharedFactor(x1, y1, y2);
    SharedFactor(x2, y2, x1);
    SharedFactor(x2, y2, y1);
    SharedFactor(x1, y1, x2);
  }

  lemma MixedProduct(x1: int, y1: int, x2: int, y2: int)
    ensures (x1 * y2) * (x2 * y1) == (x1 * y1) * (x2 * y2) == (y1 * y2) * (x1 * x2)
  {
    Interleave(x1, y2, y1, x2);
    Interleave(x1, x2, y1, y2);
  }

  lemma SharedFactor(x: int, y: int, z: int)
    ensures (x * z) * (y * z) == (x * y) * (z * z)
    ensures (z * y) * (z * x) == (x * y) * (z * z)
    ensures (x * z) * (z * y) == (x * y) * (z * z) && (z * x) * (y * z) == (x * y) * (z * z)
  {
    Interleave(x, z, y, z);
    assert x * z == z * x && y * z == z * y;
  }

  lemma WeightSquare(x: int, y: int)
    ensures (y * y + x * x) * (y * y + x * x) == (y * y - x * x) * (y * y - x * x) + 4 * ((x * y) * (x * y))
  {
  }

  lemma Alternate(n: int, m: int, t: int)
    ensures n * ((1 + t) * (1 + t)) - m * ((1 - t) * (1 - t)) == (n - m) * (1 + t * t) + 2 * (t * (n + m))
  {
  }

  lemma CrossSquare(d: int, p1: int, p2: int, s1: int, s2: int, w1: int, w2: int)
    requires s1 * s1 == w1 * w1 + 4 * (p1 * p1) && s2 * s2 == w2 * w2 + 4 * (p2 * p2)
    ensures d * ((p1 * s2 + p2 * s1) * (p1 * s2 + p2 * s1))
         == d * (p1 * p1) * (w2 * w2) + d * (p2 * p2) * (w1 * w1) + 2 * (d * (p1 * p2) * (s1 * s2 + 4 * (p1 * p2)))
  {
    assert (p1 * s2 + p2 * s1) * (p1 * s2 + p2 * s1)
        == (p1 * p1) * (s2 * s2) + (p2 * p2) * (s1 * s1) + 2 * ((p1 * p2) * (s1 * s2));
    CrossLinear(d, p1 * p1, p2 * p2, p1 * p2, s1 * s1, s2 * s2, s1 * s2, w1 * w1, w2 * w2);
  }

  lemma CrossLinear(d: int, pp: int, qq: int, pq: int, ss: int, zz: int, sz: int, ww: int, vv: int)
    requires ss == ww + 4 * pp && zz == vv + 4 * qq && pp * qq == pq * pq
    ensures d * (pp * zz + qq * ss + 2 * (pq * sz)) == d * pp * vv + d * qq * ww + 2 * (d * pq * (sz + 4 * pq))
  {
    assert pp * zz + qq * ss == pp * vv + qq * ww + 8 * (pq * pq);
  }

  lemma ClosureWeights(q1: int, q2: int, w1: int, w2: int)
    ensures
      var v1, v2, tt := 1 + q1, 1 + q2, q1 * q2;
      w1 * w2 * (1 + tt) - q1 * (w2 * w2) - q2 * (w1 * w1) - (1 - tt) * (1 - tt)
      == (w2 * (1 + tt) - q2 * (w1 + v1)) * (w1 - v1) + (v1 * (1 + tt) - q1 * (w2 + v2)) * (w2 - v2)
  {
    WeightSplit(1 + q1 * q2, w2, q2, w1, 1 + q1);
    WeightSplit(1 + q1 * q2, 1 + q1, q1, w2, 1 + q2);
    WeightConstants(q1, q2);
    Shuffle(w1, w2, 1 + q1 * q2);
    Shuffle(w2, 1 + q1, 1 + q1 * q2);
  }

  lemma Shuffle(x: int, y: int, u: int)
    ensures x * y * u == u * (x * y) == u * (y * x)
  {
  }

  lemma WeightSplit(u: int, m: int, q: int, w: int, v: int)
    ensures (m * u - q * (w + v)) * (w - v) == u * (w * m) - u * (v * m) - q * (w * w) + q * (v * v)
  {
    SubtractTimes(m * u, q * (w + v), w - v);
    assert m * u * (w - v) == u * (w * m) - u * (v * m);
    SquareGap(q, w, v);
  }

  lemma SubtractTimes(a: int, b: int, c: int)
    ensures (a - b) * c == a * c - b * c
  {
  }

  lemma SquareGap(q: int, w: int, v: int)
    ensures q * (w + v) * (w - v) == q * (w * w) - q * (v * v)
  {
    assert (w + v) * (w - v) == w * w - v * v;
    SubtractTimes(w * w, v * v, q);
  }

  lemma WeightConstants(q1: int, q2: int)
    ensures
      var v1, v2, tt := 1 + q1, 1 + q2, q1 * q2;
      q2 * (v1 * v1) + q1 * (v2 * v2) - (1 + tt) * (v2 * v1) == -((1 - tt) * (1 - tt))
  {
    var tt := q1 * q2;
    assert (1 + q2) * (1 + q1) == 1 + q1 + q2 + tt;
    assert (1 + q1) * (1 + q1) == 1 + 2 * q1 + q1 * q1;
    assert (1 + q2) * (1 + q2) == 1 + 2 * q2 + q2 * q2;
    WeightTerm(q2, q1);
    WeightTerm(q1, q2);
    assert (1 - tt) * (1 - tt) == 1 - 2 * tt + tt * tt;
    OnePlus(tt, q1, q2);
  }

  lemma OnePlus(t: int, a: int, b: int)
    ensures (1 + t) * (1 + a + b + t) == 1 + a + b + t + t + a * t + b * t + t * t
  {
  }

  lemma WeightTerm(q: int, r: int)
    ensures q * (1 + 2 * r + r * r) == q + 2 * (r * q) + r * (r * q)
    ensures r * (r * q) == r * (q * r)
  {
  }

  /** Addition is closed on the curve and returns reduced coordinates. */
  lemma Closed(c: Curve, a: Point, b: Point)
    requires c.Valid() && Satisfies(c, a.x, a.y) && Satisfies(c, b.x, b.y)
    ensures OnCurve(c, Add(c, a, b))
  {
    var t, r := Twist(c, a, b), Add(c, a, b);
    AddEquations(c, a, b);
    Complete(c, a, b);
    ScaledEquation(a.x, a.y, b.x, b.y, c.d, c.p);
    ClosedScaled(c.d, r.x, r.y, a.x * b.y + b.x * a.y, a.y * b.y + a.x * b.x, t, c.p);
  }

  lemma ScaledEquation(x1: int, y1: int, x2: int, y2: int, d: int, p: int)
    requires p > 0
    requires Cong(y1 * y1 - x1 * x1, 1 + d * ((x1 * y1) * (x1 * y1)), p)
    requires Cong(y2 * y2 - x2 * x2, 1 + d * ((x2 * y2) * (x2 * y2)), p)
    ensures
      var t := d * ((x1 * y1) * (x2 * y2));
      var nx, ny := x1 * y2 + x2 * y1, y1 * y2 + x1 * x2;
      Cong((ny * ny) * ((1 + t) * (1 + t)) - (nx * nx) * ((1 - t) * (1 - t)) - d * ((nx * ny) * (nx * ny)),
           (1 - t * t) * (1 - t * t), p)
  {
    var t := d * ((x1 * y1) * (x2 * y2));
    var q1, q2 := d * ((x1 * y1) * (x1 * y1)), d * ((x2 * y2) * (x2 * y2));
    TwistSquare(d, x1 * y1, x2 * y2, 0);
    ClosureIdentity(x1, y1, x2, y2, d);
    ClosureCombination(q1, q2, y1 * y1 - x1 * x1, y2 * y2 - x2 * x2, p);
  }

  lemma ClosureCombination(q1: int, q2: int, w1: int, w2: int, p: int)
    requires p > 0 && Cong(w1, 1 + q1, p) && Cong(w2, 1 + q2, p)
    ensures Cong(w1 * w2 * (1 + q1 * q2) - q1 * (w2 * w2) - q2 * (w1 * w1), (1 - q1 * q2) * (1 - q1 * q2), p)
  {
    ClosureWeights(q1, q2, w1, w2);
    Combine2(w1 * w2 * (1 + q1 * q2) - q1 * (w2 * w2) - q2 * (w1 * w1), (1 - q1 * q2) * (1 - q1 * q2),
             w2 * (1 + q1 * q2) - q2 * (w1 + (1 + q1)), w1, 1 + q1,
             (1 + q1) * (1 + q1 * q2) - q1 * (w2 + (1 + q2)), w2, 1 + q2, p);
  }

  /** From the scaled equation back to the curve equation of the quotients. */
  lemma ClosedScaled(d: int, x: int, y: int, nx: int, ny: int, t: int, p: int)
    requires IsPrime(p) && !Cong(1 + t, 0, p) && !Cong(1 - t, 0, p)
    requires Cong(x * (1 + t), nx, p) && Cong(y * (1 - t), ny, p)
    requires Cong((ny * ny) * ((1 + t) * (1 + t)) - (nx * nx) * ((1 - t) * (1 - t)) - d * ((nx * ny) * (nx * ny)),
                  (1 - t * t) * (1 - t * t), p)
    ensures Cong(y * y - x * x, 1 + d * ((x * y) * (x * y)), p)
  {
    var f, g := 1 + t, 1 - t;
    var k := (f * g) * (f * g);
    ScaledSquares(x, y, nx, ny, f, g, p);
    var yk, xk, zk := (ny * ny) * (f * f), (nx * nx) * (g * g), (nx * ny) * (nx * ny);
    CongScale(d, (x * y) * (x * y) * k, zk, p);
    CongSub(y * y * k, yk, x * x * k, xk, p);
    CongSub(y * y * k - x * x * k, yk - xk, d * ((x * y) * (x * y) * k), d * zk, p);
    assert f * g == 1 - t * t;
    CongAdd(y * y * k - x * x * k - d * ((x * y) * (x * y) * k), k,
            d * ((x * y) * (x * y) * k), d * ((x * y) * (x * y) * k), p);
    Regroup(x * x, y * y, (x * y) * (x * y), d, k);
    NonZeroProduct(f, g, p);
    NonZeroProduct(f * g, f * g, p);
    Cancel(y * y - x * x, 1 + d * ((x * y) * (x * y)), k, p);
  }

  lemma Regroup(xx: int, yy: int, zz: int, d: int, k: int)
    ensures yy * k - xx * k - d * (zz * k) + d * (zz * k) == (yy - xx) * k
    ensures k + d * (zz * k) == (1 + d * zz) * k
  {
  }

  lemma ScaledSquares(x: int, y: int, nx: int, ny: int, f: int, g: int, p: int)
    requires p > 0 && Cong(x * f, nx, p) && Cong(y * g, ny, p)
    ensures
      var k := (f * g) * (f * g);
      && Cong(y * y * k, (ny * ny) * (f * f), p)
      && Cong(x * x * k, (nx * nx) * (g * g), p)
      && Cong((x * y) * (x * y) * k, (nx * ny) * (nx * ny), p)
  {
    CongMul(x * f, nx, x * f, nx, p);
    CongMul(y * g, ny, y * g, ny, p);
    CongMul(x * f, nx, y * g, ny, p);
    CongMul((x * f) * (y * g), nx * ny, (x * f) * (y * g), nx * ny, p);
    CongScale(f * f, (y * g) * (y * g), ny * ny, p);
    CongScale(g * g, (x * f) * (x * f), nx * nx, p);
    RearrangeSquares(x, y, f, g);
  }

  lemma RearrangeSquares(x: int, y: int, f: int, g: int)
    ensures
      var k := (f * g) * (f * g);
      && ((y * g) * (y * g)) * (f * f) == y * y * k
      && ((x * f) * (x * f)) * (g * g) == x * x * k
      && ((x * f) * (y * g)) * ((x * f) * (y * g)) == (x * y) * (x * y) * k
  {
    SquareSplits(y, g);
    SquareSplits(x, f);
    SquareSplits(f, g);
    SquareSplits(x * y, f * g);
    assert (x * f) * (y * g) == (x * y) * (f * g);
    Exchange(y * y, g * g, f * f);
    Exchange(x * x, f * f, g * g);
  }

  lemma Exchange(a: int, b: int, c: int)
    ensures (a * b) * c == a * (c * b)
  {
  }
}
