/** The constants, the scalar multiplication and the byte encodings of
    tincver/client/esa_client.py, on the real field and curve of Ed25519. */
module Ed25519 {
  import opened Numbers
  import opened Edwards
  import opened EdwardsGroup
  import Certificate

  // ---------------------------------------------------------------- constants, as the client computes them

  const P: int := 0x8000000000000000000000000000000000000000000000000000000000000000 - 19
  const D: int := -121665 * Inv(121666, P) % P
  const I: int := Pow(2, (P - 1) / 4) % P
  const B_Y: int := 4 * Inv(5, P) % P
  const B_XX: int := (B_Y * B_Y - 1) * Inv(D * B_Y * B_Y + 1, P)
  const B_X: int := EvenRoot(Root(B_XX))
  const BASE_POINT := Point(B_X, B_Y)
  const ED := Curve(P, D, I)

  /** The candidate square root, corrected by I when its square misses. */
  function Root(u: int): int {
    var r := Pow(u, (P + 3) / 8) % P;
    if (r * r - u) % P != 0 then r * I % P else r
  }

  function EvenRoot(r: int): int {
    if r % 2 == 1 then P - r else r
  }

  const D_VALUE: int := 37095705934669439343138083508754565189542113879843219016388785533085940283555
  const B_X_VALUE: int := 15112221349535400772501151409588531511454012693041857206046113283949847762202
  const B_Y_VALUE: int := 46316835694926478169428394003475163141307993866256225615783033603165251855960

  // ---------------------------------------------------------------- the field

  lemma PIsPrime()
    ensures IsPrime(P)
  {
    Certificate.PrimeP();
  }

  lemma UnitBelow(v: int)
    requires 0 < v < P
    ensures !Cong(v, 0, P)
  {
    if Cong(v, 0, P) { CongReduced(v, 0, P); }
  }

  /** 2 is no square modulo a prime that is 5 modulo 8, so I = 2^((p-1)/4) squares to -1. */
  lemma QuarterPower(j: int, p: int)
    requires IsPrime(p) && p % 8 == 5 && Cong(j * j, -1, p)
    ensures Cong(Pow(2, (p - 1) / 4) * Pow(2, (p - 1) / 4), -1, p)
  {
    HalfPower(j, (p - 1) / 4, p);
  }

  lemma HalfPower(j: int, q: nat, p: int)
    requires IsPrime(p) && p % 8 == 5 && Cong(j * j, -1, p) && p == 4 * q + 1
    ensures Cong(Pow(2, q) * Pow(2, q), -1, p)
  {
    PowAdd(2, q, q);
    TwiceRootPower(j, q + q, p);
    RootPower(j, q, p);
    PowProduct(2, j, q + q);
    SignOut(Pow(2, q + q), Pow(j, q + q), p);
  }

  lemma SignOut(x: int, y: int, p: int)
    requires p > 0 && Cong(x * y, 1, p) && Cong(y, -1, p)
    ensures Cong(x, -1, p)
  {
    Combine2(x, -1, x, y, -1, -1, x * y, 1, p);
  }

  /** (1+j)^2 = 2j, hence (2j)^h = (1+j)^(p-1) = 1. */
  lemma TwiceRootPower(j: int, h: nat, p: int)
    requires IsPrime(p) && p % 8 == 5 && Cong(j * j, -1, p) && 2 * h == p - 1
    ensures Cong(Pow(2 * j, h), 1, p)
  {
    NotUnit(j, p);
    Square(1 + j);
    PowMul(1 + j, 2, h);
    Combine1((1 + j) * (1 + j), 2 * j, 1, j * j, -1, p);
    CongPow((1 + j) * (1 + j), 2 * j, h, p);
    Fermat(1 + j, p);
  }

  /** j^(2q) = (-1)^q = -1 for odd q. */
  lemma RootPower(j: int, q: nat, p: int)
    requires p > 0 && Cong(j * j, -1, p) && q % 2 == 1
    ensures Cong(Pow(j, q + q), -1, p)
  {
    Square(j);
    PowMul(j, 2, q);
    assert q + q == 2 * q;
    CongPow(j * j, -1, q, p);
    OddPower(q);
  }

  lemma Square(j: int)
    ensures Pow(j, 2) == j * j
  {
    PowUnfold(j, 2);
    PowUnfold(j, 1);
  }

  lemma NotUnit(j: int, p: int)
    requires IsPrime(p) && p % 8 == 5 && Cong(j * j, -1, p)
    ensures !Cong(2 * j, 0, p) && !Cong(1 + j, 0, p)
  {
    OneIsNotZero(p);
    if Cong(2 * j, 0, p) {
      TwoIsUnit(j, p);
      CongScale(j, j, 0, p);
      Combine2(1, 0, 1, j * j, 0, -1, j * j, -1, p);
    }
    if Cong(1 + j, 0, p) {
      Combine2(2, 0, 1 - j, 1 + j, 0, 1, j * j, -1, p);
      CongReduced(2, 0, p);
    }
  }

  lemma {:induction false} OddPower(n: nat)
    requires n % 2 == 1
    ensures Pow(-1, n) == -1
  {
    if n > 2 {
      OddPower(n - 2);
      PowUnfold(-1, n);
      PowUnfold(-1, n - 1);
    }
  }

  /** A number whose half power is -1 is no square. */
  lemma NonResidue(b: int, h: nat, s: int, p: int)
    requires IsPrime(p) && p > 2 && 2 * h + 1 == p && Cong(Pow(b, h), -1, p) && !Cong(b, 0, p)
    ensures !Cong(s * s, b, p)
  {
    if Cong(s * s, b, p) {
      if Cong(s, 0, p) {
        CongScale(s, s, 0, p);
      } else {
        CongPow(s * s, b, h, p);
        Square(s);
        PowMul(s, 2, h);
        Fermat(s, p);
        CongSub(1, -1, -1, -1, p);
        CongReduced(2, 0, p);
      }
    }
  }

  /** d * 121666 = -121665 and both numbers are units, so d is a square iff their product is. */
  lemma DIsNonSquare(i: int, d: int, m: int, n: int, h: nat, s: int, p: int)
    requires IsPrime(p) && p > 2 && Cong(i * i, -1, p) && Cong(d * m, -n, p)
    requires 2 * h + 1 == p && Cong(Pow(n * m, h), -1, p) && !Cong(n * m, 0, p)
    ensures !Cong(s * s, d, p)
  {
    if Cong(s * s, d, p) {
      var r := i * s * m;
      SquareOfThree(i, s, m);
      Combine3(r * r, n * m, s * s * (m * m), i * i, -1, -(m * m), s * s, d, -m, d * m, -n, p);
      NonResidue(n * m, h, r, p);
    }
  }

  lemma SquareOfThree(i: int, s: int, m: int)
    ensures (i * s * m) * (i * s * m) == s * s * (m * m) * (i * i)
  {
    assert (i * s * m) * (i * s * m) == (i * i) * ((s * m) * (s * m));
  }

  /** The constants meet every hypothesis of the group law. */
  lemma CurveIsValid()
    ensures ED.Valid()
  {
    PIsPrime();
    var h := Certificate.Euler(14802493890);
    DEquation();
    var j := Pow(14802493890, (P - 1) / 4);
    PowAdd(14802493890, (P - 1) / 4, (P - 1) / 4);
    QuarterPower(j, P);
    var q := Pow(2, (P - 1) / 4);
    CongMod(q, P);
    CongMul(I, q, I, q, P);
    UnitBelow(14802493890);
    forall s: int ensures !ED.IsRoot(s) {
      DIsNonSquare(I, D, 121666, 121665, h, s, P);
    }
  }

  lemma DEquation()
    ensures Cong(D * 121666, -121665, P) && 0 <= D < P
  {
    PIsPrime();
    UnitBelow(121666);
    Quotient(-121665, 121666, 121666, P);
  }

  // ---------------------------------------------------------------- the base point

  /** For p = 5 modulo 8 the candidate u^((p+3)/8), corrected by i, is a square root of every square u. */
  lemma CandidateRoot(u: int, r: int, p: int)
    requires IsPrime(p) && p % 8 == 5 && Cong(r * r, u, p)
    ensures var x := Pow(u, (p + 3) / 8); Cong(x * x, u, p) || Cong(x * x, -u, p)
  {
    var k, q := (p + 3) / 8, (p - 1) / 4;
    PowAdd(u, k, k);
    PowUnfold(u, q + 1);
    if Cong(u, 0, p) {
      CongScale(Pow(u, q), u, 0, p);
    } else {
      if Cong(r, 0, p) { CongScale(r, r, 0, p); }
      FourthPower(u, r, q, p);
      SignedProduct(u, Pow(u, q), p);
    }
  }

  lemma SignedProduct(u: int, g: int, p: int)
    requires IsPrime(p) && Cong(g * g, 1, p)
    ensures Cong(u * g, u, p) || Cong(u * g, -u, p)
  {
    Combine1((g - 1) * (g + 1), 0, 1, g * g, 1, p);
    Euclid(g - 1, g + 1, p);
    if Cong(g - 1, 0, p) {
      Combine1(u * g, u, u, g - 1, 0, p);
    } else {
      Combine1(u * g, -u, u, g + 1, 0, p);
    }
  }

  lemma FourthPower(u: int, r: int, q: nat, p: int)
    requires IsPrime(p) && 4 * q == p - 1 && Cong(r * r, u, p) && !Cong(r, 0, p)
    ensures Cong(Pow(u, q) * Pow(u, q), 1, p)
  {
    PowAdd(u, q, q);
    CongPow(r * r, u, 2 * q, p);
    Square(r);
    PowMul(r, 2, 2 * q);
    Fermat(r, p);
  }

  /** `Root` finds a square root whenever there is one, and `EvenRoot` the even one of the two. */
  lemma RootCorrect(u: int, r: int)
    requires Cong(r * r, u, P)
    ensures
      var x := EvenRoot(Root(u));
      Cong(x * x, u, P) && 0 <= x < P && x % 2 == 0
  {
    RootSquare(u, r);
    OddPrime(P);
    var z, p := Root(u), P;
    hide *;
    Negated(z, u, p);
    EvenRootOf(z, p);
  }

  lemma EvenRootOf(z: int, p: int)
    requires p == P && 0 <= z < p && p % 2 == 1
    ensures EvenRoot(z) == (if z % 2 == 1 then p - z else z) && 0 <= EvenRoot(z) < p && EvenRoot(z) % 2 == 0
  {
    hide P;
  }

  lemma Negated(z: int, u: int, p: int)
    requires p > 0 && Cong(z * z, u, p)
    ensures Cong((p - z) * (p - z), u, p)
  {
    NegatedSquare(p, z);
    AddMultiple(p * (p - 2 * z), p - 2 * z, z * z, u, p);
  }

  lemma NegatedSquare(p: int, z: int)
    ensures (p - z) * (p - z) == p * (p - 2 * z) + z * z
  {
  }

  lemma AddMultiple(m: int, k: int, a: int, b: int, p: int)
    requires p > 0 && m == p * k && Cong(a, b, p)
    ensures Cong(m + a, b, p)
  {
    MultipleVanishes(m, k, p);
    CongAdd(m, 0, a, b, p);
  }

  lemma RootSquare(u: int, r: int)
    requires Cong(r * r, u, P)
    ensures IsPrime(P) && 0 <= Root(u) < P && Cong(Root(u) * Root(u), u, P)
  {
    PIsPrime();
    CurveIsValid();
    CandidateRoot(u, r, P);
    RootOf(Pow(u, (P + 3) / 8), u, I, P);
  }

  lemma RootOf(y: int, u: int, i: int, p: int)
    requires p > 0 && (Cong(y * y, u, p) || Cong(y * y, -u, p)) && Cong(i * i, -1, p)
    ensures
      var c := y % p;
      var x := if (c * c - u) % p != 0 then c * i % p else c;
      0 <= x < p && Cong(x * x, u, p)
  {
    var c := y % p;
    CongMod(y, p);
    CongMul(c, y, c, y, p);
    CongZero(c * c, u, p);
    CongMod(c * i, p);
    if !Cong(c * c, u, p) { Corrected(c, u, i, c * i % p, p); }
  }

  lemma Corrected(c: int, u: int, i: int, x: int, p: int)
    requires p > 0 && Cong(c * c, -u, p) && Cong(i * i, -1, p) && Cong(x, c * i, p)
    ensures Cong(x * x, u, p)
  {
    CongMul(x, c * i, x, c * i, p);
    Combine2((c * i) * (c * i), u, i * i, c * c, -u, -u, i * i, -1, p);
  }

  lemma DValue()
    ensures D == D_VALUE
  {
    DEquation();
    PIsPrime();
    UnitBelow(121666);
    CongIntro(D_VALUE * 121666, -121665, 77955, P);
    Cancel(D, D_VALUE, 121666, P);
    CongReduced(D, D_VALUE, P);
  }

  lemma ByValue()
    ensures B_Y == B_Y_VALUE
  {
    PIsPrime();
    UnitBelow(5);
    Quotient(4, 5, 5, P);
    CongIntro(B_Y_VALUE * 5, 4, 4, P);
    Cancel(B_Y, B_Y_VALUE, 5, P);
    CongReduced(B_Y, B_Y_VALUE, P);
  }

  /** B_X_VALUE is a square root of the quotient that defines the base point's x. */
  lemma BxSquare(d: int, y: int, xx: int, p: int)
    requires IsPrime(p) && p == P && d == D_VALUE && y == B_Y_VALUE
    requires xx == (y * y - 1) * Inv(d * y * y + 1, p)
    ensures Cong(B_X_VALUE * B_X_VALUE, xx, p)
    ensures Cong(xx * (d * y * y + 1), y * y - 1, p)
  {
    var v, n := d * y * y + 1, y * y - 1;
    CongIntro(v, 35320460721920060721965471946471712506633951349663716574434581141966314745466, 1374524573410714785589785963191211000434177453085371460569677947620969033207246416492007109187109545011394350217318973938229280665348699156104528935171715, P);
    UnitBelow(35320460721920060721965471946471712506633951349663716574434581141966314745466);
    InvCorrect(v, P);
    Combine1(xx * v, n, n, v * Inv(v, P), 1, P);
    CongIntro(B_X_VALUE * B_X_VALUE * v, n, 313912869351021175552095638354475319435719866822403256103793839727111434695402522007437748672709022944181123840026140012976076642505601989877288187536393899427418215919658923821043034718165221043996317890960162518762831745378375357102403309936170782468110973434315685750709096189645234905588967493870803545, P);
    Cancel(B_X_VALUE * B_X_VALUE, xx, v, P);
  }

  /** The base point is the one of section 5.1 of RFC 8032, and it lies on the curve. */
  lemma BasePoint()
    ensures BASE_POINT == Point(B_X_VALUE, B_Y_VALUE)
    ensures OnCurve(ED, BASE_POINT)
  {
    PIsPrime();
    DValue();
    ByValue();
    BxSquare(D, B_Y, B_XX, P);
    RootCorrect(B_XX, B_X_VALUE);
    SameEvenRoot(B_X, B_X_VALUE, P);
    BaseEquation(B_X, B_Y, D, B_XX, P);
  }

  lemma SameEvenRoot(x: int, y: int, p: int)
    requires IsPrime(p) && p > 2 && Cong(x * x, y * y, p) && 0 <= x < p && 0 <= y < p && x % 2 == y % 2
    ensures x == y
  {
    CongZero(x * x, y * y, p);
    assert x * x - y * y == (x - y) * (x + y);
    Euclid(x - y, x + y, p);
    if Cong(x - y, 0, p) {
      CongZero(x, y, p);
      CongReduced(x, y, p);
    } else {
      OddPrime(p);
      NotOpposite(x, y, p);
    }
  }

  lemma NotOpposite(x: int, y: int, p: int)
    requires p > 2 && p % 2 == 1 && 0 <= x < p && 0 <= y < p && x % 2 == y % 2 && Cong(x + y, 0, p)
    ensures x == y
  {
    if x + y >= p {
      CongSub(x + y, 0, p, 0, p);
      CongReduced(x + y - p, 0, p);
    } else {
      CongReduced(x + y, 0, p);
    }
  }

  lemma OddPrime(p: int)
    requires IsPrime(p) && p > 2
    ensures p % 2 == 1
  {
    assert p % 2 != 0;
  }

  lemma BaseEquation(x: int, y: int, d: int, xx: int, p: int)
    requires p > 0 && Cong(x * x, xx, p) && Cong(xx * (d * y * y + 1), y * y - 1, p)
    ensures Cong(y * y - x * x, 1 + d * ((x * y) * (x * y)), p)
  {
    var v := d * y * y + 1;
    assert d * ((x * y) * (x * y)) == x * x * (d * y * y);
    Combine2(y * y - x * x, 1 + x * x * (d * y * y), -v, x * x, xx, -1, xx * v, y * y - 1, p);
  }
}
