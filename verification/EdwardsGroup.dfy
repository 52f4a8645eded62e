/** The group laws of Edwards addition: neutral element, commutativity and associativity,
    and the n-fold sum they make well defined. */
module EdwardsGroup {
  import opened Numbers
  import opened Edwards

  // ---------------------------------------------------------------- neutral element, commutativity

  /** (0, 1) is neutral. */
  lemma NeutralLeft(c: Curve, a: Point)
    requires c.p >= 2 && Reduced(c, a)
    ensures Add(c, NEUTRAL, a) == a
  {
    PowOne(c.p - 2);
    Vanish(c.d, a.x, a.y, c.p);
    assert NEUTRAL.x * a.y + a.x * NEUTRAL.y == a.x;
  }

  lemma Vanish(d: int, x: int, y: int, p: int)
    requires p >= 2 && 0 <= y < p
    ensures NEUTRAL.x * x % p == 0 && NEUTRAL.y * y % p == y
    ensures d * 0 * y % p == 0 && 1 % p == 1
  {
    assert d * 0 * y == 0;
  }

  lemma Commutes(c: Curve, a: Point, b: Point)
    requires c.p >= 2
    ensures Add(c, a, b) == Add(c, b, a)
  {
    assert a.x * b.x == b.x * a.x && a.y * b.y == b.y * a.y;
    assert a.x * b.y + b.x * a.y == b.x * a.y + a.x * b.y;
  }

  lemma NeutralOnCurve(c: Curve)
    requires c.p >= 2
    ensures OnCurve(c, NEUTRAL)
  {
  }

  // ---------------------------------------------------------------- associativity, first coordinate

  /** One side of the associativity law over a common denominator.  The numerators and the
      denominator are written with q = d p1 p2 and the sums s1, s2 of squares. */
  function Numerator(a: Point, b: Point, e: Point, q: int): int {
    var u, v, w, z := a.x * b.y * e.y, b.x * a.y * e.y, e.x * a.y * b.y, a.x * b.x * e.x;
    u + v + w + z + q * (w + z - u - v)
  }

  function Norm(a: Point): int { a.y * a.y + a.x * a.x }

  function Weight(a: Point): int { a.y * a.y - a.x * a.x }

  function Denominator(c: Curve, a: Point, b: Point, e: Point): int {
    var pa, pb, pe := a.x * a.y, b.x * b.y, e.x * e.y;
    1 - (c.d * (pa * pb)) * (c.d * (pa * pb)) + (c.d * (pa * pe)) * Norm(b) + (c.d * (pb * pe)) * Norm(a)
  }

  /** (a + b) + e: its x coordinate is Numerator / Denominator, with a unit below. */
  lemma LeftX(c: Curve, a: Point, b: Point, e: Point)
    requires c.Valid() && OnCurve(c, a) && OnCurve(c, b) && OnCurve(c, e)
    ensures
      var q, m := Twist(c, a, b), Denominator(c, a, b, e);
      && !Cong(m, 0, c.p)
      && Cong(Add(c, Add(c, a, b), e).x * m, Numerator(a, b, e, q), c.p)
  {
    var p, q, r := c.p, Twist(c, a, b), Add(c, a, b);
    var nx, ny := a.x * b.y + b.x * a.y, a.y * b.y + a.x * b.x;
    AddEquations(c, a, b);
    Complete(c, a, b);
    Closed(c, a, b);
    AddEquations(c, r, e);
    Complete(c, r, e);
    var f, g := 1 + q, 1 - q;
    var l := Add(c, r, e).x;
    DenominatorScaled(c.d, r.x, r.y, nx, ny, f, g, e.x * e.y, p);
    DenominatorExpands(c, a, b, e);
    NonZeroProduct(f, g, p);
    NonZeroProduct(f * g, 1 + Twist(c, r, e), p);
    NumeratorScaled(r.x, r.y, nx, ny, f, g, e.x, e.y, p);
    NumeratorExpands(a, b, e, q);
    ScaleQuotient(l, 1 + Twist(c, r, e), r.x * e.y + e.x * r.y, f * g,
                  Denominator(c, a, b, e), Numerator(a, b, e, q), p);
  }

  lemma ScaleQuotient(l: int, v: int, n: int, k: int, m: int, n': int, p: int)
    requires p > 0 && Cong(l * v, n, p) && Cong(k * v, m, p) && Cong(k * n, n', p)
    ensures Cong(l * m, n', p)
  {
    CongScale(k, l * v, n, p);
    CongScale(l, k * v, m, p);
    assert k * (l * v) == l * (k * v);
  }

  lemma DenominatorScaled(d: int, x: int, y: int, nx: int, ny: int, f: int, g: int, pe: int, p: int)
    requires p > 0 && Cong(x * f, nx, p) && Cong(y * g, ny, p)
    ensures Cong(f * g * (1 + d * ((x * y) * pe)), f * g + d * ((nx * ny) * pe), p)
  {
    CongMul(x * f, nx, y * g, ny, p);
    CongScale(d * pe, (x * f) * (y * g), nx * ny, p);
    CongAdd(f * g, f * g, d * pe * ((x * f) * (y * g)), d * pe * (nx * ny), p);
    DenominatorShape(d, x, y, nx * ny, f, g, pe);
  }

  lemma DenominatorShape(d: int, x: int, y: int, n: int, f: int, g: int, pe: int)
    ensures f * g * (1 + d * ((x * y) * pe)) == f * g + d * pe * ((x * f) * (y * g))
    ensures d * pe * n == d * (n * pe)
  {
    assert (x * f) * (y * g) == (f * g) * (x * y);
  }

  lemma DenominatorExpands(c: Curve, a: Point, b: Point, e: Point)
    ensures
      var q := Twist(c, a, b);
      (1 + q) * (1 - q) + c.d * (((a.x * b.y + b.x * a.y) * (a.y * b.y + a.x * b.x)) * (e.x * e.y))
      == Denominator(c, a, b, e)
  {
    var pa, pb, pe := a.x * a.y, b.x * b.y, e.x * e.y;
    NumeratorProducts(a.x, a.y, b.x, b.y);
    assert (a.x * b.y + b.x * a.y) * (a.y * b.y + a.x * b.x) == pa * Norm(b) + pb * Norm(a);
    DenominatorTerms(c.d, pa, pb, pe, Norm(a), Norm(b));
  }

  lemma DenominatorTerms(d: int, pa: int, pb: int, pe: int, sa: int, sb: int)
    ensures d * ((pa * sb + pb * sa) * pe) == (d * (pa * pe)) * sb + (d * (pb * pe)) * sa
  {
  }

  lemma NumeratorScaled(x: int, y: int, nx: int, ny: int, f: int, g: int, ex: int, ey: int, p: int)
    requires p > 0 && Cong(x * f, nx, p) && Cong(y * g, ny, p)
    ensures Cong(f * g * (x * ey + ex * y), nx * g * ey + ex * (ny * f), p)
  {
    CongScale(g * ey, x * f, nx, p);
    CongScale(ex * f, y * g, ny, p);
    CongAdd(g * ey * (x * f), g * ey * nx, ex * f * (y * g), ex * f * ny, p);
    NumeratorShape(x, y, nx, ny, f, g, ex, ey);
  }

  lemma NumeratorShape(x: int, y: int, nx: int, ny: int, f: int, g: int, ex: int, ey: int)
    ensures f * g * (x * ey + ex * y) == g * ey * (x * f) + ex * f * (y * g)
    ensures nx * g * ey + ex * (ny * f) == g * ey * nx + ex * f * ny
  {
  }

  lemma NumeratorExpands(a: Point, b: Point, e: Point, q: int)
    ensures (a.x * b.y + b.x * a.y) * (1 - q) * e.y + e.x * ((a.y * b.y + a.x * b.x) * (1 + q))
         == Numerator(a, b, e, q)
  {
    var u, v, w, z := a.x * b.y * e.y, b.x * a.y * e.y, e.x * a.y * b.y, a.x * b.x * e.x;
    assert (a.x * b.y + b.x * a.y) * (1 - q) * e.y == u + v - q * (u + v);
    assert e.x * ((a.y * b.y + a.x * b.x) * (1 + q)) == w + z + q * (w + z);
  }

  /** Multiplying by the norm mixes x and y; this is where the curve enters. */
  lemma NormActs(a: Point, m: int)
    ensures Norm(a) * (a.x * m) == -Weight(a) * (a.x * m) + 2 * (a.x * a.y) * (a.y * m)
    ensures Norm(a) * (a.y * m) == Weight(a) * (a.y * m) + 2 * (a.x * a.y) * (a.x * m)
  {
    assert Norm(a) * a.x == -Weight(a) * a.x + 2 * (a.x * a.y) * a.y;
    assert Norm(a) * a.y == Weight(a) * a.y + 2 * (a.x * a.y) * a.x;
    Widen(Norm(a), a.x, -Weight(a), 2 * (a.x * a.y), a.y, m);
    Widen(Norm(a), a.y, Weight(a), 2 * (a.x * a.y), a.x, m);
  }

  lemma Widen(n: int, x: int, k: int, l: int, y: int, m: int)
    requires n * x == k * x + l * y
    ensures n * (x * m) == k * (x * m) + l * (y * m)
  {
    assert n * x * m == (k * x + l * y) * m;
  }

  /** The eight products of one coordinate from each of three points, grouped so that the
      norms act on them linearly. */
  datatype Octet = Octet(u: int, v: int, w: int, z: int, f: int, g: int, h: int, k: int)

  function Products(a: Point, b: Point, e: Point): Octet {
    Octet(a.x * b.y * e.y, b.x * a.y * e.y, e.x * a.y * b.y, a.x * b.x * e.x,
          a.y * b.y * e.y, a.x * b.x * e.y, a.x * e.x * b.y, a.y * b.x * e.x)
  }

  ghost predicate NormRules(o: Octet, s1: int, s2: int, s3: int, w1: int, w2: int, w3: int, p1: int, p2: int, p3: int) {
    && s1 * o.u == -w1 * o.u + 2 * p1 * o.f && s1 * o.v == w1 * o.v + 2 * p1 * o.g
    && s1 * o.w == w1 * o.w + 2 * p1 * o.h && s1 * o.z == -w1 * o.z + 2 * p1 * o.k
    && s2 * o.u == w2 * o.u + 2 * p2 * o.g && s2 * o.v == -w2 * o.v + 2 * p2 * o.f
    && s2 * o.w == w2 * o.w + 2 * p2 * o.k && s2 * o.z == -w2 * o.z + 2 * p2 * o.h
    && s3 * o.u == w3 * o.u + 2 * p3 * o.h && s3 * o.v == w3 * o.v + 2 * p3 * o.k
    && s3 * o.w == -w3 * o.w + 2 * p3 * o.f && s3 * o.z == -w3 * o.z + 2 * p3 * o.g
  }

  lemma ProductRules1(a: Point, b: Point, e: Point)
    ensures
      var o := Products(a, b, e);
      && Norm(a) * o.u == -Weight(a) * o.u + 2 * (a.x * a.y) * o.f
      && Norm(a) * o.v == Weight(a) * o.v + 2 * (a.x * a.y) * o.g
      && Norm(a) * o.w == Weight(a) * o.w + 2 * (a.x * a.y) * o.h
      && Norm(a) * o.z == -Weight(a) * o.z + 2 * (a.x * a.y) * o.k
  {
    NormActs(a, b.y * e.y);
    NormActs(a, b.x * e.y);
    NormActs(a, e.x * b.y);
    NormActs(a, b.x * e.x);
    Shapes(a, b, e);
  }

  lemma Shapes(a: Point, b: Point, e: Point)
    ensures
      var o := Products(a, b, e);
      && o.u == a.x * (b.y * e.y) && o.f == a.y * (b.y * e.y)
      && o.v == a.y * (b.x * e.y) && o.g == a.x * (b.x * e.y)
      && o.w == a.y * (e.x * b.y) && o.h == a.x * (e.x * b.y)
      && o.z == a.x * (b.x * e.x) && o.k == a.y * (b.x * e.x)
  {
    Triples(a, b, e);
  }

  /** The order of three factors does not matter. */
  lemma Triple(x: int, y: int, z: int)
    ensures x * y * z == x * z * y == y * x * z == y * z * x == z * x * y == z * y * x
    ensures x * y * z == x * (y * z) == y * (x * z) == z * (x * y)
  {
  }

  lemma Triples(a: Point, b: Point, e: Point)
    ensures
      var o := Products(a, b, e);
      && o.u == a.x * (b.y * e.y) == b.y * a.x * e.y == e.y * a.x * b.y
      && o.f == a.y * (b.y * e.y) == b.y * a.y * e.y == e.y * a.y * b.y
      && o.v == a.y * (b.x * e.y) == a.y * b.x * e.y == e.y * a.y * b.x == b.x * e.y * a.y
      && o.g == a.x * (b.x * e.y) == b.x * a.x * e.y == e.y * a.x * b.x
      && o.w == a.y * (e.x * b.y) == e.x * b.y * a.y == b.y * a.y * e.x
      && o.h == a.x * (e.x * b.y) == b.y * a.x * e.x == e.x * a.x * b.y
      && o.z == a.x * (b.x * e.x) == b.x * a.x * e.x == e.x * a.x * b.x
      && o.k == a.y * (b.x * e.x) == b.x * e.x * a.y == e.x * b.x * a.y == b.x * a.y * e.x == e.x * a.y * b.x
  {
    Triple(a.x, b.y, e.y);
    Triple(a.y, b.y, e.y);
    Triple(b.x, a.y, e.y);
    Triple(a.x, b.x, e.y);
    Triple(e.x, a.y, b.y);
    Triple(a.x, e.x, b.y);
    Triple(a.x, b.x, e.x);
    Triple(a.y, b.x, e.x);
  }

  lemma ProductsRotate(a: Point, b: Point, e: Point)
    ensures
      var o, o2, o3 := Products(a, b, e), Products(b, a, e), Products(e, a, b);
      && o2 == Octet(o.v, o.u, o.w, o.z, o.f, o.g, o.k, o.h)
      && o3 == Octet(o.w, o.u, o.v, o.z, o.f, o.h, o.k, o.g)
  {
    Triples(a, b, e);
  }

  lemma ProductRules(a: Point, b: Point, e: Point)
    ensures NormRules(Products(a, b, e), Norm(a), Norm(b), Norm(e), Weight(a), Weight(b), Weight(e),
                      a.x * a.y, b.x * b.y, e.x * e.y)
  {
    ProductsRotate(a, b, e);
    ProductRules1(a, b, e);
    ProductRules1(b, a, e);
    ProductRules1(e, a, b);
  }

  /** The difference of the cross products, with every norm in front of a sum of products. */
  lemma CrossExpands(s: int, u: int, v: int, s1: int, s2: int, s3: int, q12: int, q13: int, q23: int)
    ensures (s + q12 * u) * (1 - q23 * q23 + q12 * s3 + q13 * s2)
            - (s + q23 * v) * (1 - q12 * q12 + q13 * s2 + q23 * s1)
         == s * (q12 * q12 - q23 * q23) + u * (q12 * (1 - q23 * q23)) - v * (q23 * (1 - q12 * q12))
            + q12 * (s3 * s) - q23 * (s1 * s) + q12 * (q12 * (s3 * u)) + q12 * (q13 * (s2 * u))
            - q23 * (q13 * (s2 * v)) - q23 * (q23 * (s1 * v))
  {
    SideExpands(s, q12, u, 1 - q23 * q23, q12, s3, q13, s2);
    SideExpands(s, q23, v, 1 - q12 * q12, q13, s2, q23, s1);
    GapOfOnes(s, q12 * q12, q23 * q23);
  }

  lemma GapOfOnes(s: int, a: int, b: int)
    ensures s * (1 - b) - s * (1 - a) == s * (a - b)
  {
  }

  lemma SideExpands(s: int, q: int, u: int, m: int, a: int, n: int, b: int, o: int)
    ensures (s + q * u) * (m + a * n + b * o)
         == s * m + a * (n * s) + b * (o * s) + u * (q * m) + q * (a * (n * u)) + q * (b * (o * u))
  {
    SixTerms(s, q * u, m, a * n, b * o);
    Rotate(s, a, n);
    Rotate(s, b, o);
    Rotate(u, q, m);
    RotateUnder(q, u, a, n);
    RotateUnder(q, u, b, o);
  }

  lemma SixTerms(s: int, t: int, m: int, n: int, o: int)
    ensures (s + t) * (m + n + o) == s * m + s * n + s * o + t * m + t * n + t * o
  {
  }

  lemma Rotate(s: int, a: int, n: int)
    ensures s * (a * n) == a * (n * s) && a * s * n == s * (a * n)
  {
  }

  lemma RotateUnder(q: int, u: int, a: int, n: int)
    ensures q * u * (a * n) == q * (a * (n * u))
  {
    Rotate(u, a, n);
  }

  /** The even products f, g, h, k cancel without using the curve equation. */
  lemma EvenPartCancels(o: Octet, p1: int, p2: int, p3: int, q12: int, q13: int, q23: int)
    requires p3 * q12 == p2 * q13 == p1 * q23
    ensures
      q12 * (2 * p3 * (o.f + o.g + o.h + o.k)) - q23 * (2 * p1 * (o.f + o.g + o.h + o.k))
      + q12 * (q12 * (2 * p3 * (o.f + o.g - o.h - o.k))) + q12 * (q13 * (2 * p2 * (o.k + o.h - o.g - o.f)))
      - q23 * (q13 * (2 * p2 * (o.g + o.h - o.f - o.k))) - q23 * (q23 * (2 * p1 * (o.f + o.k - o.g - o.h))) == 0
  {
    var t := p3 * q12;
    Slide(q12, p3, o.f + o.g + o.h + o.k, t);
    Slide(q23, p1, o.f + o.g + o.h + o.k, t);
    Slide(q12, p3, o.f + o.g - o.h - o.k, t);
    Slide(q13, p2, o.k + o.h - o.g - o.f, t);
    Slide(q13, p2, o.g + o.h - o.f - o.k, t);
    Slide(q23, p1, o.f + o.k - o.g - o.h, t);
    assert q12 * (2 * t * (o.f + o.g - o.h - o.k)) + q12 * (2 * t * (o.k + o.h - o.g - o.f)) == 0;
    assert q23 * (2 * t * (o.g + o.h - o.f - o.k)) + q23 * (2 * t * (o.f + o.k - o.g - o.h)) == 0;
  }

  lemma Slide(q: int, p: int, m: int, t: int)
    requires t == p * q
    ensures q * (2 * p * m) == 2 * t * m
  {
  }

  /** What remains in front of an odd product: iu and iv are its signs in the two numerators,
      i1, i2, i3 its signs under the three norms. */
  function Coefficient(iu: int, iv: int, i1: int, i2: int, i3: int,
                       q12: int, q13: int, q23: int, w1: int, w2: int, w3: int): int
  {
    Signed(iu, iv, i1, i2, i3, q12 * q12 - q23 * q23, q12 * (1 - q23 * q23), q23 * (1 - q12 * q12), q12 * w3, q23 * w1,
           q12 * (q12 * w3), q12 * (q13 * w2), q23 * (q13 * w2), q23 * (q23 * w1))
  }

  function Signed(iu: int, iv: int, i1: int, i2: int, i3: int, c1: int, c2: int, c3: int, c4: int, c5: int,
                  c6: int, c7: int, c8: int, c9: int): int
  {
    c1 + iu * c2 - iv * c3 + i3 * c4 - i1 * c5 + iu * i3 * c6 + iu * i2 * c7 - iv * i2 * c8 - iv * i1 * c9
  }

  lemma CrossDifference(o: Octet, s1: int, s2: int, s3: int, w1: int, w2: int, w3: int, p1: int, p2: int, p3: int,
                        q12: int, q13: int, q23: int)
    requires NormRules(o, s1, s2, s3, w1, w2, w3, p1, p2, p3)
    requires p3 * q12 == p2 * q13 == p1 * q23
    ensures
      var s := o.u + o.v + o.w + o.z;
      (s + q12 * (o.w + o.z - o.u - o.v)) * (1 - q23 * q23 + q12 * s3 + q13 * s2)
      - (s + q23 * (o.u + o.z - o.v - o.w)) * (1 - q12 * q12 + q13 * s2 + q23 * s1)
      == Coefficient(-1, 1, -1, 1, 1, q12, q13, q23, w1, w2, w3) * o.u
         + Coefficient(-1, -1, 1, -1, 1, q12, q13, q23, w1, w2, w3) * o.v
         + Coefficient(1, -1, 1, 1, -1, q12, q13, q23, w1, w2, w3) * o.w
         + Coefficient(1, 1, -1, -1, -1, q12, q13, q23, w1, w2, w3) * o.z
  {
    var s, u, v := o.u + o.v + o.w + o.z, o.w + o.z - o.u - o.v, o.u + o.z - o.v - o.w;
    CrossExpands(s, u, v, s1, s2, s3, q12, q13, q23);
    EvenPartCancels(o, p1, p2, p3, q12, q13, q23);
    NormsOfSums(o, s1, s2, s3, w1, w2, w3, p1, p2, p3);
    SplitOdd(q12, s3 * s, w3 * (o.u + o.v - o.w - o.z), 2 * p3 * (o.f + o.g + o.h + o.k));
    SplitOdd(q23, s1 * s, w1 * (o.v + o.w - o.u - o.z), 2 * p1 * (o.f + o.g + o.h + o.k));
    SplitOdd2(q12, q12, s3 * u, w3 * (-o.u - o.v - o.w - o.z), 2 * p3 * (o.f + o.g - o.h - o.k));
    SplitOdd2(q12, q13, s2 * u, w2 * (o.v + o.w - o.u - o.z), 2 * p2 * (o.k + o.h - o.g - o.f));
    SplitOdd2(q23, q13, s2 * v, w2 * (o.u + o.v - o.w - o.z), 2 * p2 * (o.g + o.h - o.f - o.k));
    SplitOdd2(q23, q23, s1 * v, w1 * (-o.u - o.v - o.w - o.z), 2 * p1 * (o.f + o.k - o.g - o.h));
    OddPart(o.u, o.v, o.w, o.z, q12, q13, q23, w1, w2, w3);
  }

  lemma SplitOdd(q: int, n: int, odd: int, even: int)
    requires n == odd + even
    ensures q * n == q * odd + q * even
  {
  }

  lemma SplitOdd2(q: int, r: int, n: int, odd: int, even: int)
    requires n == odd + even
    ensures q * (r * n) == q * (r * odd) + q * (r * even)
  {
    assert r * n == r * odd + r * even;
  }

  lemma NormsOfSums(o: Octet, s1: int, s2: int, s3: int, w1: int, w2: int, w3: int, p1: int, p2: int, p3: int)
    requires NormRules(o, s1, s2, s3, w1, w2, w3, p1, p2, p3)
    ensures
      var s, u, v := o.u + o.v + o.w + o.z, o.w + o.z - o.u - o.v, o.u + o.z - o.v - o.w;
      && s3 * s == w3 * (o.u + o.v - o.w - o.z) + 2 * p3 * (o.f + o.g + o.h + o.k)
      && s1 * s == w1 * (o.v + o.w - o.u - o.z) + 2 * p1 * (o.f + o.g + o.h + o.k)
      && s3 * u == w3 * (-o.u - o.v - o.w - o.z) + 2 * p3 * (o.f + o.g - o.h - o.k)
      && s2 * u == w2 * (o.v + o.w - o.u - o.z) + 2 * p2 * (o.k + o.h - o.g - o.f)
      && s2 * v == w2 * (o.u + o.v - o.w - o.z) + 2 * p2 * (o.g + o.h - o.f - o.k)
      && s1 * v == w1 * (-o.u - o.v - o.w - o.z) + 2 * p1 * (o.f + o.k - o.g - o.h)
  {
  }

  lemma OddPart(u: int, v: int, w: int, z: int, q12: int, q13: int, q23: int, w1: int, w2: int, w3: int)
    ensures
      (u + v + w + z) * (q12 * q12 - q23 * q23) + (w + z - u - v) * (q12 * (1 - q23 * q23))
      - (u + z - v - w) * (q23 * (1 - q12 * q12))
      + q12 * (w3 * (u + v - w - z)) - q23 * (w1 * (v + w - u - z)) + q12 * (q12 * (w3 * (-u - v - w - z)))
      + q12 * (q13 * (w2 * (v + w - u - z))) - q23 * (q13 * (w2 * (u + v - w - z)))
      - q23 * (q23 * (w1 * (-u - v - w - z)))
      == Coefficient(-1, 1, -1, 1, 1, q12, q13, q23, w1, w2, w3) * u
         + Coefficient(-1, -1, 1, -1, 1, q12, q13, q23, w1, w2, w3) * v
         + Coefficient(1, -1, 1, 1, -1, q12, q13, q23, w1, w2, w3) * w
         + Coefficient(1, 1, -1, -1, -1, q12, q13, q23, w1, w2, w3) * z
  {
    var c1, c2, c3, c4 := q12 * q12 - q23 * q23, q12 * (1 - q23 * q23), q23 * (1 - q12 * q12), q12 * w3;
    var c5, c6, c7, c8, c9 := q23 * w1, q12 * (q12 * w3), q12 * (q13 * w2), q23 * (q13 * w2), q23 * (q23 * w1);
    Reassociate(1, q12, w3, u + v - w - z);
    Reassociate(1, q23, w1, v + w - u - z);
    Reassociate(q12, q12, w3, -u - v - w - z);
    Reassociate(q12, q13, w2, v + w - u - z);
    Reassociate(q23, q13, w2, u + v - w - z);
    Reassociate(q23, q23, w1, -u - v - w - z);
    Collect(u, v, w, z, c1, c2, c3, c4, c5, c6, c7, c8, c9);
  }

  lemma Reassociate(q: int, r: int, w: int, m: int)
    ensures q * (r * (w * m)) == q * (r * w) * m
  {
    assert r * (w * m) == (r * w) * m;
  }

  lemma Collect(u: int, v: int, w: int, z: int, c1: int, c2: int, c3: int, c4: int, c5: int,
                c6: int, c7: int, c8: int, c9: int)
    ensures
      (u + v + w + z) * c1 + (w + z - u - v) * c2 - (u + z - v - w) * c3 + c4 * (u + v - w - z) - c5 * (v + w - u - z)
      + c6 * (-u - v - w - z) + c7 * (v + w - u - z) - c8 * (u + v - w - z) - c9 * (-u - v - w - z)
      == (c1 - c2 - c3 + c4 + c5 - c6 - c7 - c8 + c9) * u
         + (c1 - c2 + c3 + c4 - c5 - c6 + c7 - c8 + c9) * v
         + (c1 + c2 + c3 - c4 - c5 - c6 + c7 + c8 + c9) * w
         + (c1 + c2 - c3 - c4 + c5 - c6 - c7 + c8 + c9) * z
  {
  }

  /** On the curve every coefficient vanishes. */
  lemma CoefficientVanishes(iu: int, iv: int, i1: int, i2: int, i3: int,
                            d: int, p1: int, p2: int, p3: int, w1: int, w2: int, w3: int, p: int)
    requires p > 0
    requires Cong(w1, 1 + d * (p1 * p1), p) && Cong(w2, 1 + d * (p2 * p2), p) && Cong(w3, 1 + d * (p3 * p3), p)
    requires (iu, iv, i1, i2, i3) in {(-1, 1, -1, 1, 1), (-1, -1, 1, -1, 1), (1, -1, 1, 1, -1), (1, 1, -1, -1, -1)}
    ensures Cong(Coefficient(iu, iv, i1, i2, i3, d * (p1 * p2), d * (p1 * p3), d * (p2 * p3), w1, w2, w3), 0, p)
  {
    var q12, q13, q23 := d * (p1 * p2), d * (p1 * p3), d * (p2 * p3);
    var x1, x2, x3 := d * (p1 * p1), d * (p2 * p2), d * (p3 * p3);
    var k1, k2, k3 := -i1 * q23 - iv * i1 * (q23 * q23), iu * i2 * (q12 * q13) - iv * i2 * (q23 * q13),
                      i3 * q12 + iu * i3 * (q12 * q12);
    TwistMix(d, p1, p2, p3);
    TwistMix(d, p2, p1, p3);
    TwistMix(d, p3, p1, p2);
    WeightedCoefficient(iu, iv, i1, i2, i3, q12, q13, q23, x1, x2, x3, w1, w2, w3);
    Combine3(Coefficient(iu, iv, i1, i2, i3, q12, q13, q23, w1, w2, w3), 0,
             k1, w1, 1 + d * (p1 * p1), k2, w2, 1 + d * (p2 * p2), k3, w3, 1 + d * (p3 * p3), p);
  }

  lemma TwistMix(d: int, p1: int, p2: int, p3: int)
    ensures d * (p1 * p1) * (d * (p2 * p3)) == (d * (p1 * p2)) * (d * (p1 * p3))
    ensures p1 * p2 == p2 * p1 && p1 * p3 == p3 * p1 && p2 * p3 == p3 * p2
  {
  }

  lemma WeightedCoefficient(iu: int, iv: int, i1: int, i2: int, i3: int, q12: int, q13: int, q23: int,
                            x1: int, x2: int, x3: int, w1: int, w2: int, w3: int)
    requires x1 * q23 == q12 * q13 && x2 * q13 == q12 * q23 && x3 * q12 == q13 * q23
    requires (iu, iv, i1, i2, i3) in {(-1, 1, -1, 1, 1), (-1, -1, 1, -1, 1), (1, -1, 1, 1, -1), (1, 1, -1, -1, -1)}
    ensures Coefficient(iu, iv, i1, i2, i3, q12, q13, q23, w1, w2, w3)
         == (-i1 * q23 - iv * i1 * (q23 * q23)) * (w1 - (1 + x1))
            + (iu * i2 * (q12 * q13) - iv * i2 * (q23 * q13)) * (w2 - (1 + x2))
            + (i3 * q12 + iu * i3 * (q12 * q12)) * (w3 - (1 + x3))
  {
    var e1, e2, e3 := w1 - (1 + x1), w2 - (1 + x2), w3 - (1 + x3);
    var m12, m13, m23 := q12 * e3, q13 * e2, q23 * e1;
    Offset(q12, x3, w3);
    Offset(q13, x2, w2);
    Offset(q23, x1, w1);
    WeightedProducts(q12, q13, q23, m12, m13, m23);
    Residue(-i1, -iv * i1, q23, q23 * q23, e1);
    Residue(iu * i2, -iv * i2, q12 * q13, q23 * q13, e2);
    Residue(i3, iu * i3, q12, q12 * q12, e3);
    Rotate(q23, q23, e1);
    Rotate(q12, q13, e2);
    Rotate(q23, q13, e2);
    Rotate(q12, q12, e3);
    hide Signed;
    SignCases(iu, iv, i1, i2, i3, q12 * q12, q23 * q23, q12, q23, q12 * (q23 * q23), q23 * (q12 * q12), q12 * q13,
              q23 * q13, q12 * (q13 * q23), m12, m23, q12 * m12, q12 * m13, q23 * m13, q23 * m23);
  }

  lemma Offset(q: int, x: int, w: int)
    ensures q * w == q + x * q + q * (w - (1 + x))
  {
  }

  lemma Distribute3(q: int, a: int, b: int, c: int)
    ensures q * (a + b + c) == q * a + q * b + q * c
  {
  }

  lemma FromOne(q: int, r: int)
    ensures q * (1 - r) == q - q * r
  {
  }

  lemma WeightedProducts(q12: int, q13: int, q23: int, m12: int, m13: int, m23: int)
    ensures q12 * (q12 + q13 * q23 + m12) == q12 * q12 + q12 * (q13 * q23) + q12 * m12
    ensures q12 * (q13 + q12 * q23 + m13) == q12 * q13 + q23 * (q12 * q12) + q12 * m13
    ensures q23 * (q13 + q12 * q23 + m13) == q23 * q13 + q12 * (q23 * q23) + q23 * m13
    ensures q23 * (q23 + q12 * q13 + m23) == q23 * q23 + q12 * (q13 * q23) + q23 * m23
    ensures q12 * (1 - q23 * q23) == q12 - q12 * (q23 * q23)
    ensures q23 * (1 - q12 * q12) == q23 - q23 * (q12 * q12)
  {
    Distribute3(q12, q12, q13 * q23, m12);
    Distribute3(q12, q13, q12 * q23, m13);
    Distribute3(q23, q13, q12 * q23, m13);
    Distribute3(q23, q23, q12 * q13, m23);
    Triple(q12, q12, q23);
    Triple(q23, q12, q23);
    Triple(q23, q12, q13);
    FromOne(q12, q23 * q23);
    FromOne(q23, q12 * q12);
  }

  lemma Residue(i: int, j: int, q: int, r: int, e: int)
    ensures (i * q + j * r) * e == i * (q * e) + j * (r * e)
  {
    Rotate(q, i, e);
    Rotate(r, j, e);
  }

  lemma SignCases(iu: int, iv: int, i1: int, i2: int, i3: int, aa: int, bb: int, a: int, b: int, abb: int, baa: int,
                  ac: int, bc: int, t: int, m12: int, m23: int, am12: int, am13: int, bm13: int, bm23: int)
    requires (iu, iv, i1, i2, i3) in {(-1, 1, -1, 1, 1), (-1, -1, 1, -1, 1), (1, -1, 1, 1, -1), (1, 1, -1, -1, -1)}
    ensures
      Signed(iu, iv, i1, i2, i3, aa - bb, a - abb, b - baa, a + bc + m12, b + ac + m23, aa + t + am12, ac + baa + am13,
             bc + abb + bm13, bb + t + bm23)
      == (-i1 * m23 + -iv * i1 * bm23) + (iu * i2 * am13 + -iv * i2 * bm13) + (i3 * m12 + iu * i3 * am12)
  {
    if iu == -1 {
      if iv == 1 { assert i1 == -1 && i2 == 1 && i3 == 1; } else { assert i1 == 1 && i2 == -1 && i3 == 1; }
    } else {
      if iv == -1 { assert i1 == 1 && i2 == 1 && i3 == -1; } else { assert i1 == -1 && i2 == -1 && i3 == -1; }
    }
  }

  lemma CrossVanishes(c: Curve, a: Point, b: Point, e: Point)
    requires c.p > 0 && Satisfies(c, a.x, a.y) && Satisfies(c, b.x, b.y) && Satisfies(c, e.x, e.y)
    ensures Cong(Numerator(a, b, e, Twist(c, a, b)) * Denominator(c, e, b, a),
                 Numerator(e, b, a, Twist(c, e, b)) * Denominator(c, a, b, e), c.p)
  {
    var o := Products(a, b, e);
    var p1, p2, p3 := a.x * a.y, b.x * b.y, e.x * e.y;
    var q12, q13, q23 := c.d * (p1 * p2), c.d * (p1 * p3), c.d * (p2 * p3);
    var w1, w2, w3 := Weight(a), Weight(b), Weight(e);
    ProductRules(a, b, e);
    TwistExchange(c.d, p1, p2, p3);
    CrossDifference(o, Norm(a), Norm(b), Norm(e), w1, w2, w3, p1, p2, p3, q12, q13, q23);
    CoefficientVanishes(-1, 1, -1, 1, 1, c.d, p1, p2, p3, w1, w2, w3, c.p);
    CoefficientVanishes(-1, -1, 1, -1, 1, c.d, p1, p2, p3, w1, w2, w3, c.p);
    CoefficientVanishes(1, -1, 1, 1, -1, c.d, p1, p2, p3, w1, w2, w3, c.p);
    CoefficientVanishes(1, 1, -1, -1, -1, c.d, p1, p2, p3, w1, w2, w3, c.p);
    var cu := Coefficient(-1, 1, -1, 1, 1, q12, q13, q23, w1, w2, w3);
    var cv := Coefficient(-1, -1, 1, -1, 1, q12, q13, q23, w1, w2, w3);
    var cw := Coefficient(1, -1, 1, 1, -1, q12, q13, q23, w1, w2, w3);
    var cz := Coefficient(1, 1, -1, -1, -1, q12, q13, q23, w1, w2, w3);
    LinearVanishes(cu, o.u, cv, o.v, cw, o.w, cz, o.z, c.p);
    Mirror(c, a, b, e);
    CongZero(Numerator(a, b, e, q12) * Denominator(c, e, b, a), Numerator(e, b, a, q23) * Denominator(c, a, b, e), c.p);
  }

  lemma LinearVanishes(c1: int, m1: int, c2: int, m2: int, c3: int, m3: int, c4: int, m4: int, p: int)
    requires p > 0 && Cong(c1, 0, p) && Cong(c2, 0, p) && Cong(c3, 0, p) && Cong(c4, 0, p)
    ensures Cong(c1 * m1 + c2 * m2 + c3 * m3 + c4 * m4, 0, p)
  {
    CongScale(m1, c1, 0, p);
    CongScale(m2, c2, 0, p);
    CongScale(m3, c3, 0, p);
    CongScale(m4, c4, 0, p);
    CongAdd(c1 * m1, 0, c2 * m2, 0, p);
    CongAdd(c1 * m1 + c2 * m2, 0, c3 * m3, 0, p);
    CongAdd(c1 * m1 + c2 * m2 + c3 * m3, 0, c4 * m4, 0, p);
  }

  lemma TwistExchange(d: int, p1: int, p2: int, p3: int)
    ensures p3 * (d * (p1 * p2)) == p2 * (d * (p1 * p3)) == p1 * (d * (p2 * p3))
  {
  }

  /** Reading the three points backwards only renames the products. */
  lemma Mirror(c: Curve, a: Point, b: Point, e: Point)
    ensures
      var o := Products(a, b, e);
      var p1, p2, p3 := a.x * a.y, b.x * b.y, e.x * e.y;
      var q12, q13, q23 := c.d * (p1 * p2), c.d * (p1 * p3), c.d * (p2 * p3);
      && Twist(c, a, b) == q12 && Twist(c, e, b) == q23
      && Numerator(a, b, e, q12) == o.u + o.v + o.w + o.z + q12 * (o.w + o.z - o.u - o.v)
      && Numerator(e, b, a, q23) == o.u + o.v + o.w + o.z + q23 * (o.u + o.z - o.v - o.w)
      && Denominator(c, a, b, e) == 1 - q12 * q12 + q13 * Norm(b) + q23 * Norm(a)
      && Denominator(c, e, b, a) == 1 - q23 * q23 + q12 * Norm(e) + q13 * Norm(b)
  {
    var o := Products(a, b, e);
    assert e.x * b.y * a.y == o.w && b.x * e.y * a.y == o.v && a.x * e.y * b.y == o.u && e.x * b.x * a.x == o.z;
    assert (e.x * e.y) * (b.x * b.y) == (b.x * b.y) * (e.x * e.y);
    assert (e.x * e.y) * (a.x * a.y) == (a.x * a.y) * (e.x * e.y);
    assert (b.x * b.y) * (a.x * a.y) == (a.x * a.y) * (b.x * b.y);
  }

  lemma AssociativeX(c: Curve, a: Point, b: Point, e: Point)
    requires c.Valid() && OnCurve(c, a) && OnCurve(c, b) && OnCurve(c, e)
    ensures Add(c, Add(c, a, b), e).x == Add(c, a, Add(c, b, e)).x
  {
    var p, r := c.p, Add(c, a, Add(c, b, e));
    Commutes(c, b, e);
    Commutes(c, a, Add(c, e, b));
    LeftX(c, a, b, e);
    LeftX(c, e, b, a);
    CrossVanishes(c, a, b, e);
    var nl, ml := Numerator(a, b, e, Twist(c, a, b)), Denominator(c, a, b, e);
    var nr, mr := Numerator(e, b, a, Twist(c, e, b)), Denominator(c, e, b, a);
    EqualQuotients(Add(c, Add(c, a, b), e).x, nl, ml, r.x, nr, mr, p);
    Closed(c, b, e);
    Closed(c, a, b);
    Closed(c, Add(c, a, b), e);
    Closed(c, a, Add(c, b, e));
    CongReduced(Add(c, Add(c, a, b), e).x, r.x, p);
  }

  lemma EqualQuotients(l: int, nl: int, ml: int, r: int, nr: int, mr: int, p: int)
    requires IsPrime(p) && !Cong(ml, 0, p) && !Cong(mr, 0, p)
    requires Cong(l * ml, nl, p) && Cong(r * mr, nr, p) && Cong(nl * mr, nr * ml, p)
    ensures Cong(l, r, p)
  {
    CongScale(mr, l * ml, nl, p);
    CongScale(ml, r * mr, nr, p);
    assert mr * (l * ml) == l * (ml * mr) && ml * (r * mr) == r * (ml * mr);
    NonZeroProduct(ml, mr, p);
    Cancel(l, r, ml * mr, p);
  }

  // ---------------------------------------------------------------- second coordinate by a quarter turn

  /** Adding the point (i, 0) of order four exchanges the coordinates. */
  function Turn(c: Curve, a: Point): Point
    requires c.p > 0
  {
    Point(c.i * a.y % c.p, c.i * a.x % c.p)
  }

  lemma TurnOnCurve(c: Curve, a: Point)
    requires c.Valid() && OnCurve(c, a)
    ensures OnCurve(c, Turn(c, a))
  {
    var p, i, t := c.p, c.i, Turn(c, a);
    CongMod(i * a.y, p);
    CongMod(i * a.x, p);
    TurnProducts(i, a.x, a.y, t.x, t.y, p);
    TurnSatisfies(c.d, t.x, t.y, a.x, a.y, p);
  }

  lemma TurnSatisfies(d: int, tx: int, ty: int, x: int, y: int, p: int)
    requires p > 0 && Cong(y * y - x * x, 1 + d * ((x * y) * (x * y)), p)
    requires Cong(ty * ty - tx * tx, y * y - x * x, p) && Cong(tx * ty, -(x * y), p)
    ensures Cong(ty * ty - tx * tx, 1 + d * ((tx * ty) * (tx * ty)), p)
  {
    var u, v := tx * ty, x * y;
    CongMul(u, -v, u, -v, p);
    assert -v * -v == v * v;
    CongScale(d, u * u, v * v, p);
    CongAdd(1, 1, d * (u * u), d * (v * v), p);
  }

  lemma TurnProducts(i: int, x: int, y: int, tx: int, ty: int, p: int)
    requires p > 0 && Cong(i * i, -1, p) && Cong(tx, i * y, p) && Cong(ty, i * x, p)
    ensures Cong(ty * ty - tx * tx, y * y - x * x, p)
    ensures Cong(tx * ty, -(x * y), p)
  {
    CongMul(tx, i * y, tx, i * y, p);
    CongMul(ty, i * x, ty, i * x, p);
    CongMul(tx, i * y, ty, i * x, p);
    RootOut(i, y, y, p);
    RootOut(i, x, x, p);
    RootOut(i, y, x, p);
    CongSub(ty * ty, -(x * x), tx * tx, -(y * y), p);
  }

  lemma RootOut(i: int, x: int, y: int, p: int)
    requires p > 0 && Cong(i * i, -1, p)
    ensures Cong((i * x) * (i * y), -(x * y), p) && -(x * y) == -(y * x)
  {
    CongScale(x * y, i * i, -1, p);
    Interleave(i, i, x, y);
  }

  /** Addition commutes with the quarter turn. */
  lemma TurnAdd(c: Curve, a: Point, b: Point)
    requires c.Valid() && OnCurve(c, a) && OnCurve(c, b)
    ensures Add(c, a, Turn(c, b)) == Turn(c, Add(c, a, b))
  {
    var p, i, q, t := c.p, c.i, Twist(c, a, b), Turn(c, b);
    var r, u := Add(c, a, b), Add(c, a, t);
    TurnOnCurve(c, b);
    AddEquations(c, a, b);
    AddEquations(c, a, t);
    Complete(c, a, b);
    CongMod(i * b.y, p);
    CongMod(i * b.x, p);
    TurnProducts(i, b.x, b.y, t.x, t.y, p);
    TwistTurns(c.d, a.x * a.y, t.x * t.y, b.x * b.y, p);
    TurnedQuotient(u.x, Twist(c, a, t), -q, i, r.y, a.x, a.y, t.y, t.x, b.x, b.y, p);
    TurnedQuotient(u.y, -Twist(c, a, t), q, i, r.x, a.y, a.x, t.y, t.x, b.x, b.y, p);
    CongMod(i * r.y, p);
    CongMod(i * r.x, p);
    CongReduced(u.x, i * r.y % p, p);
    CongReduced(u.y, i * r.x % p, p);
  }

  lemma TwistTurns(d: int, pa: int, pt: int, pb: int, p: int)
    requires p > 0 && Cong(pt, -pb, p)
    ensures Cong(d * (pa * pt), -(d * (pa * pb)), p)
    ensures Cong(-(d * (pa * pt)), d * (pa * pb), p)
  {
    CongScale(d * pa, pt, -pb, p);
    assert d * pa * pt == d * (pa * pt) && d * pa * -pb == -(d * (pa * pb));
    CongSub(0, 0, d * (pa * pt), -(d * (pa * pb)), p);
  }

  lemma TurnedQuotient(u: int, s: int, q: int, i: int, r: int, a1: int, a2: int,
                       t1: int, t2: int, b1: int, b2: int, p: int)
    requires IsPrime(p) && Cong(s, q, p) && !Cong(1 + q, 0, p)
    requires Cong(t1, i * b1, p) && Cong(t2, i * b2, p)
    requires Cong(u * (1 + s), a1 * t1 + t2 * a2, p) && Cong(r * (1 + q), a2 * b2 + a1 * b1, p)
    ensures Cong(u, i * r, p)
  {
    CongScale(a1, t1, i * b1, p);
    CongScale(a2, t2, i * b2, p);
    CongAdd(a1 * t1, a1 * (i * b1), t2 * a2, i * b2 * a2, p);
    CongScale(i, r * (1 + q), a2 * b2 + a1 * b1, p);
    FactorTurn(a1, a2, b1, b2, i);
    CongAdd(1, 1, s, q, p);
    CongScale(u, 1 + s, 1 + q, p);
    Reassociate(1, i, r, 1 + q);
    Cancel(u, i * r, 1 + q, p);
  }

  lemma FactorTurn(a1: int, a2: int, b1: int, b2: int, i: int)
    ensures a1 * (i * b1) + i * b2 * a2 == i * (a2 * b2 + a1 * b1)
  {
  }

  /** Addition is associative. */
  lemma Associative(c: Curve, a: Point, b: Point, e: Point)
    requires c.Valid() && OnCurve(c, a) && OnCurve(c, b) && OnCurve(c, e)
    ensures Add(c, Add(c, a, b), e) == Add(c, a, Add(c, b, e))
  {
    var p := c.p;
    var l, r := Add(c, Add(c, a, b), e), Add(c, a, Add(c, b, e));
    Closed(c, a, b);
    Closed(c, b, e);
    Closed(c, Add(c, a, b), e);
    Closed(c, a, Add(c, b, e));
    AssociativeX(c, a, b, e);
    TurnOnCurve(c, e);
    AssociativeX(c, a, b, Turn(c, e));
    TurnAdd(c, Add(c, a, b), e);
    TurnAdd(c, b, e);
    TurnAdd(c, a, Add(c, b, e));
    RootIsUnit(c);
    Cancel(l.y, r.y, c.i, p);
    CongReduced(l.y, r.y, p);
  }

  lemma RootIsUnit(c: Curve)
    requires c.Valid()
    ensures !Cong(c.i, 0, c.p)
  {
    if Cong(c.i, 0, c.p) {
      CongScale(c.i, c.i, 0, c.p);
      CongAdd(c.i * c.i, -1, 1, 1, c.p);
      CongAdd(c.i * c.i, 0, 1, 1, c.p);
      OneIsNotZero(c.p);
    }
  }

  // ---------------------------------------------------------------- n-fold sums

  /** n copies of a, added one at a time. */
  function Times(c: Curve, n: nat, a: Point): Point
    requires c.p >= 2
  {
    if n == 0 then NEUTRAL else Add(c, Times(c, n - 1, a), a)
  }

  lemma {:induction false} TimesOnCurve(c: Curve, n: nat, a: Point)
    requires c.Valid() && OnCurve(c, a)
    ensures OnCurve(c, Times(c, n, a))
  {
    if n == 0 {
      NeutralOnCurve(c);
    } else {
      TimesOnCurve(c, n - 1, a);
      Closed(c, Times(c, n - 1, a), a);
    }
  }

  /** One copy is the point itself. */
  lemma TimesOne(c: Curve, a: Point)
    requires c.Valid() && OnCurve(c, a)
    ensures Times(c, 1, a) == a
  {
    NeutralLeft(c, a);
    assert Times(c, 1, a) == Add(c, Times(c, 0, a), a);
  }

  /** Sums of copies add up: (m + n) a = m a + n a. */
  lemma {:induction false} TimesAdd(c: Curve, m: nat, n: nat, a: Point)
    requires c.Valid() && OnCurve(c, a)
    ensures Times(c, m + n, a) == Add(c, Times(c, m, a), Times(c, n, a))
  {
    TimesOnCurve(c, m, a);
    if n == 0 {
      Commutes(c, Times(c, m, a), NEUTRAL);
      NeutralLeft(c, Times(c, m, a));
    } else {
      TimesAdd(c, m, n - 1, a);
      TimesOnCurve(c, n - 1, a);
      Associative(c, Times(c, m, a), Times(c, n - 1, a), a);
    }
  }

  /** Halving the count doubles the point: 2n copies of a are n copies of a + a. */
  lemma {:induction false} TimesDouble(c: Curve, n: nat, a: Point)
    requires c.Valid() && OnCurve(c, a)
    ensures Times(c, 2 * n, a) == Times(c, n, Add(c, a, a))
  {
    if n != 0 {
      TimesDouble(c, n - 1, a);
      TimesAdd(c, 2 * (n - 1), 2, a);
      NeutralLeft(c, a);
      assert Times(c, 2, a) == Add(c, Times(c, 1, a), a) && Times(c, 1, a) == Add(c, Times(c, 0, a), a);
    }
  }
}
