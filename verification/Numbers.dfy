/** Congruences, powers and primes: the number theory under the Ed25519 client code.
    Everything is stated for unbounded integers, which is what Python computes with. */
module Numbers {

  // ---------------------------------------------------------------- congruences

  /** a and b leave the same remainder modulo p. */
  predicate Cong(a: int, b: int, p: int)
    requires p > 0
  {
    a % p == b % p
  }

  lemma CongIntro(a: int, b: int, k: int, p: int)
    requires p > 0 && a - b == k * p
    ensures Cong(a, b, p)
  {
    var qa, qb := a / p, b / p;
    assert a % p - b % p == (k - qa + qb) * p by {
      assert a == qa * p + a % p && b == qb * p + b % p;
      assert (k - qa + qb) * p == k * p - qa * p + qb * p;
    }
    SmallMultiple(a % p - b % p, k - qa + qb, p);
  }

  lemma SmallMultiple(r: int, k: int, p: int)
    requires p > 0 && r == k * p && -p < r < p
    ensures r == 0
  {
    if k > 0 {
      MulMonotone(1, k, p);
    } else if k < 0 {
      MulMonotone(k, -1, p);
    }
  }

  lemma MulMonotone(x: int, y: int, p: int)
    requires x <= y && 0 <= p
    ensures x * p <= y * p
  {
  }

  lemma CongElim(a: int, b: int, p: int) returns (k: int)
    requires p > 0 && Cong(a, b, p)
    ensures a - b == k * p
  {
    k := a / p - b / p;
    assert a == a / p * p + a % p && b == b / p * p + b % p;
  }

  lemma CongAdd(a: int, b: int, c: int, d: int, p: int)
    requires p > 0 && Cong(a, b, p) && Cong(c, d, p)
    ensures Cong(a + c, b + d, p)
  {
    var k := CongElim(a, b, p);
    var j := CongElim(c, d, p);
    CongIntro(a + c, b + d, k + j, p);
  }

  lemma CongSub(a: int, b: int, c: int, d: int, p: int)
    requires p > 0 && Cong(a, b, p) && Cong(c, d, p)
    ensures Cong(a - c, b - d, p)
  {
    var k := CongElim(a, b, p);
    var j := CongElim(c, d, p);
    CongIntro(a - c, b - d, k - j, p);
  }

  lemma CongMul(a: int, b: int, c: int, d: int, p: int)
    requires p > 0 && Cong(a, b, p) && Cong(c, d, p)
    ensures Cong(a * c, b * d, p)
  {
    var k := CongElim(a, b, p);
    var j := CongElim(c, d, p);
    assert a * c - b * d == (a - b) * c + b * (c - d);
    assert k * p * c + b * (j * p) == (k * c + b * j) * p;
    CongIntro(a * c, b * d, k * c + b * j, p);
  }

  lemma CongScale(c: int, a: int, b: int, p: int)
    requires p > 0 && Cong(a, b, p)
    ensures Cong(c * a, c * b, p) && Cong(a * c, b * c, p)
  {
    CongMul(c, c, a, b, p);
    CongMul(a, b, c, c, p);
  }

  lemma CongMod(a: int, p: int)
    requires p > 0
    ensures Cong(a % p, a, p) && 0 <= a % p < p
  {
    CongIntro(a % p, a, -(a / p), p);
  }

  /** Reduced representatives are unique. */
  lemma CongReduced(a: int, b: int, p: int)
    requires p > 0 && Cong(a, b, p) && 0 <= a < p && 0 <= b < p
    ensures a == b
  {
    var k := CongElim(a, b, p);
    SmallMultiple(a - b, k, p);
  }

  lemma CongZero(a: int, b: int, p: int)
    requires p > 0
    ensures Cong(a, b, p) <==> Cong(a - b, 0, p)
  {
    if Cong(a, b, p) {
      CongSub(a, b, b, b, p);
    }
    if Cong(a - b, 0, p) {
      CongAdd(a - b, 0, b, b, p);
    }
  }

  // ---------------------------------------------------------------- powers

  function Pow(b: int, e: nat): int {
    if e == 0 then 1 else b * Pow(b, e - 1)
  }

  lemma PowUnfold(b: int, e: nat)
    requires e > 0
    ensures Pow(b, e) == b * Pow(b, e - 1) == Pow(b, e - 1) * b
  {
  }

  lemma {:induction false} PowAdd(b: int, m: nat, n: nat)
    ensures Pow(b, m + n) == Pow(b, m) * Pow(b, n)
  {
    if m != 0 {
      PowAdd(b, m - 1, n);
      assert b * (Pow(b, m - 1) * Pow(b, n)) == b * Pow(b, m - 1) * Pow(b, n);
    }
  }

  lemma {:induction false} PowMul(b: int, m: nat, n: nat)
    ensures Pow(b, m * n) == Pow(Pow(b, m), n)
  {
    if n == 0 {
      assert m * 0 == 0;
    } else {
      PowMul(b, m, n - 1);
      assert m * n == m + m * (n - 1);
      PowAdd(b, m, m * (n - 1));
    }
  }

  lemma {:induction false} PowProduct(a: int, b: int, n: nat)
    ensures Pow(a * b, n) == Pow(a, n) * Pow(b, n)
  {
    if n != 0 {
      PowProduct(a, b, n - 1);
      PowUnfold(a, n);
      PowUnfold(b, n);
      PowUnfold(a * b, n);
      hide *;
      Interleave(a, b, Pow(a, n - 1), Pow(b, n - 1));
    }
  }

  lemma Interleave(a: int, b: int, u: int, v: int)
    ensures a * b * (u * v) == (a * u) * (b * v)
  {
    assert b * (u * v) == u * (b * v);
  }

  lemma {:induction false} CongPow(a: int, b: int, n: nat, p: int)
    requires p > 0 && Cong(a, b, p)
    ensures Cong(Pow(a, n), Pow(b, n), p)
  {
    if n != 0 {
      CongPow(a, b, n - 1, p);
      CongMul(a, b, Pow(a, n - 1), Pow(b, n - 1), p);
    }
  }

  lemma {:induction false} PowOne(n: nat)
    ensures Pow(1, n) == 1
  {
    if n != 0 { PowOne(n - 1); }
  }

  lemma {:induction false} PowPositive(b: int, n: nat)
    requires b > 0
    ensures Pow(b, n) > 0
  {
    if n != 0 { PowPositive(b, n - 1); }
  }

  /** A power that is congruent to 1 stays so under every further power. */
  lemma PowOfOne(b: int, m: nat, k: nat, p: int)
    requires p > 0 && Cong(Pow(b, m), 1, p)
    ensures Cong(Pow(b, m * k), 1, p)
  {
    PowMul(b, m, k);
    CongPow(Pow(b, m), 1, k, p);
    PowOne(k);
  }

  // ---------------------------------------------------------------- primes

  ghost predicate IsPrime(p: int) {
    2 <= p && forall m: int {:trigger p % m} :: 2 <= m < p ==> p % m != 0
  }

  lemma OneIsNotZero(p: int)
    requires p >= 2
    ensures !Cong(1, 0, p)
  {
    if Cong(1, 0, p) { CongReduced(1, 0, p); }
  }

  /** Euclid: a prime that divides a product divides one of the factors. */
  lemma {:induction false} EuclidSmall(a: int, b: int, p: int)
    requires IsPrime(p) && 0 < a < p && Cong(a * b, 0, p)
    ensures Cong(b, 0, p)
    decreases a
  {
    if a > 1 {
      var q, r := p / a, p % a;
      assert r != 0;
      var k := CongElim(a * b, 0, p);
      assert r * b == p * b - q * (a * b) by {
        assert p == a * q + r;
        assert (a * q + r) * b == q * (a * b) + r * b;
      }
      assert p * b - q * (k * p) == (b - q * k) * p;
      CongIntro(r * b, 0, b - q * k, p);
      EuclidSmall(r, b, p);
    }
  }

  lemma Euclid(a: int, b: int, p: int)
    requires IsPrime(p) && Cong(a * b, 0, p)
    ensures Cong(a, 0, p) || Cong(b, 0, p)
  {
    CongMod(a, p);
    if a % p != 0 {
      CongScale(b, a % p, a, p);
      EuclidSmall(a % p, b, p);
    }
  }

  /** A factor that is not 0 modulo p cancels. */
  lemma Cancel(a: int, b: int, c: int, p: int)
    requires IsPrime(p) && !Cong(c, 0, p) && Cong(a * c, b * c, p)
    ensures Cong(a, b, p)
  {
    CongZero(a * c, b * c, p);
    assert a * c - b * c == (a - b) * c;
    Euclid(a - b, c, p);
    CongZero(a, b, p);
  }

  lemma NonZeroProduct(a: int, b: int, p: int)
    requires IsPrime(p) && !Cong(a, 0, p) && !Cong(b, 0, p)
    ensures !Cong(a * b, 0, p)
  {
    if Cong(a * b, 0, p) { Euclid(a, b, p); }
  }

  lemma {:induction false} NonZeroPow(a: int, n: nat, p: int)
    requires IsPrime(p) && !Cong(a, 0, p)
    ensures !Cong(Pow(a, n), 0, p)
  {
    if n == 0 {
      OneIsNotZero(p);
    } else {
      NonZeroPow(a, n - 1, p);
      NonZeroProduct(a, Pow(a, n - 1), p);
    }
  }

  // ---------------------------------------------------------------- Fermat's little theorem

  /** Pascal's triangle. */
  function Binom(n: nat, k: nat): (r: nat) {
    if k == 0 then 1
    else if n == 0 then 0
    else Binom(n - 1, k - 1) + Binom(n - 1, k)
  }

  lemma {:induction false} BinomAbove(n: nat, k: nat)
    requires k > n
    ensures Binom(n, k) == 0
  {
    if n != 0 {
      BinomAbove(n - 1, k - 1);
      BinomAbove(n - 1, k);
    }
  }

  /** k * C(n, k) = n * C(n-1, k-1). */
  lemma {:induction false} BinomAbsorb(n: nat, k: nat)
    requires 1 <= k && 1 <= n
    ensures k * Binom(n, k) == n * Binom(n - 1, k - 1)
  {
    if n == 1 {
      if k == 1 {
        assert Binom(1, 1) == Binom(0, 0) + Binom(0, 1) == 1;
      } else {
        BinomAbove(1, k);
        assert Binom(0, k - 1) == 0;
      }
    } else if k == 1 {
      BinomOne(n);
    } else {
      BinomAbsorb(n - 1, k - 1);
      BinomAbsorb(n - 1, k);
      var x, y := Binom(n - 1, k - 1), Binom(n - 1, k);
      var u, v := Binom(n - 2, k - 2), Binom(n - 2, k - 1);
      assert x == u + v;
      assert (k - 1) * x == (n - 1) * u && k * y == (n - 1) * v;
      AbsorbStep(n, k, x, y, u, v);
    }
  }

  lemma AbsorbStep(n: int, k: int, x: int, y: int, u: int, v: int)
    requires x == u + v && (k - 1) * x == (n - 1) * u && k * y == (n - 1) * v
    ensures k * (x + y) == n * x
  {
    assert k * (x + y) == (k - 1) * x + x + k * y;
    assert (n - 1) * u + (n - 1) * v == (n - 1) * (u + v);
  }

  lemma {:induction false} BinomOne(n: nat)
    requires 1 <= n
    ensures Binom(n, 1) == n
  {
    if n > 1 { BinomOne(n - 1); }
  }

  lemma MultipleVanishes(m: int, c: int, p: int)
    requires p > 0 && m == p * c
    ensures Cong(m, 0, p)
  {
    CongIntro(m, 0, c, p);
  }

  lemma BinomPrime(p: int, k: nat)
    requires IsPrime(p) && 1 <= k < p
    ensures Cong(Binom(p, k), 0, p)
  {
    BinomAbsorb(p, k);
    MultipleVanishes(k * Binom(p, k), Binom(p - 1, k - 1), p);
    EuclidSmall(k, Binom(p, k), p);
  }

  /** The first k terms of the expansion of (a+1)^n. */
  function BinomSum(a: int, n: nat, k: nat): int {
    if k == 0 then 0 else BinomSum(a, n, k - 1) + Binom(n, k - 1) * Pow(a, k - 1)
  }

  lemma {:induction false} BinomSumStep(a: int, n: nat, k: nat)
    requires n >= 1
    ensures BinomSum(a, n, k + 1) == BinomSum(a, n - 1, k + 1) + a * BinomSum(a, n - 1, k)
  {
    if k != 0 {
      BinomSumStep(a, n, k - 1);
      var u, v, w := Binom(n - 1, k - 1), Binom(n - 1, k), Pow(a, k - 1);
      var s := BinomSum(a, n - 1, k - 1);
      assert Binom(n, k) == u + v && Pow(a, k) == a * w;
      assert BinomSum(a, n, k + 1) == BinomSum(a, n, k) + (u + v) * (a * w);
      assert BinomSum(a, n - 1, k + 1) == BinomSum(a, n - 1, k) + v * (a * w);
      assert BinomSum(a, n - 1, k) == s + u * w;
      Distribute(a, s, u, v, w);
    }
  }

  lemma Distribute(a: int, s: int, u: int, v: int, w: int)
    ensures (u + v) * (a * w) == v * (a * w) + a * (u * w)
    ensures a * (s + u * w) == a * s + a * (u * w)
  {
    assert (u + v) * (a * w) == u * (a * w) + v * (a * w);
    assert u * (a * w) == a * (u * w);
  }

  lemma {:induction false} BinomialTheorem(a: int, n: nat)
    ensures Pow(a + 1, n) == BinomSum(a, n, n + 1)
  {
    if n == 0 {
      assert BinomSum(a, 0, 1) == BinomSum(a, 0, 0) + Binom(0, 0) * Pow(a, 0);
    } else {
      BinomialTheorem(a, n - 1);
      BinomSumStep(a, n, n);
      BinomAbove(n - 1, n);
      assert BinomSum(a, n - 1, n + 1) == BinomSum(a, n - 1, n);
      PowUnfold(a + 1, n);
      hide *;
      OneMoreTimes(a, BinomSum(a, n - 1, n));
    }
  }

  lemma OneMoreTimes(a: int, s: int)
    ensures (a + 1) * s == s + a * s
  {
  }

  lemma {:induction false} BinomSumPrime(a: int, p: int, k: nat)
    requires IsPrime(p) && 1 <= k <= p
    ensures Cong(BinomSum(a, p, k), 1, p)
  {
    if k == 1 {
      assert BinomSum(a, p, 1) == BinomSum(a, p, 0) + Binom(p, 0) * Pow(a, 0);
    } else {
      BinomSumPrime(a, p, k - 1);
      BinomPrime(p, k - 1);
      CongScale(Pow(a, k - 1), Binom(p, k - 1), 0, p);
      CongAdd(BinomSum(a, p, k - 1), 1, Binom(p, k - 1) * Pow(a, k - 1), 0, p);
    }
  }

  lemma {:induction false} FermatNat(a: nat, p: int)
    requires IsPrime(p)
    ensures Cong(Pow(a, p), a, p)
  {
    if a == 0 {
    } else {
      FermatNat(a - 1, p);
      BinomialTheorem(a - 1, p);
      BinomSumPrime(a - 1, p, p);
      BinomialTop(p);
      CongAdd(BinomSum(a - 1, p, p), 1, Pow(a - 1, p), a - 1, p);
    }
  }

  lemma {:induction false} BinomialTop(n: nat)
    ensures Binom(n, n) == 1
  {
    if n != 0 {
      BinomialTop(n - 1);
      BinomAbove(n - 1, n);
    }
  }

  /** Fermat's little theorem, in full: a^(p-1) = 1 for every a that p does not divide. */
  lemma Fermat(a: int, p: int)
    requires IsPrime(p) && !Cong(a, 0, p)
    ensures Cong(Pow(a, p - 1), 1, p)
  {
    CongMod(a, p);
    FermatNat(a % p, p);
    CongPow(a % p, a, p, p);
    PowUnfold(a, p);
    CancelOne(Pow(a, p - 1), Pow(a, p), Pow(a % p, p), a, p);
  }

  lemma CancelOne(x: int, y: int, r: int, a: int, p: int)
    requires IsPrime(p) && !Cong(a, 0, p) && y == x * a && Cong(r, y, p) && Cong(r, a % p, p) && Cong(a % p, a, p)
    ensures Cong(x, 1, p)
  {
    assert Cong(x * a, 1 * a, p);
    Cancel(x, 1, a, p);
  }

  // ---------------------------------------------------------------- Pocklington's criterion

  /** Every number from 2 up has a prime divisor. */
  lemma {:induction false} PrimeDivisor(n: int, m: int) returns (p: int)
    requires 2 <= m <= n && n % m == 0
    requires forall j: int {:trigger n % j} :: 2 <= j < m ==> n % j != 0
    ensures IsPrime(p) && n % p == 0 && p == m
  {
    p := m;
    forall j: int | 2 <= j < m ensures m % j != 0 {
      if m % j == 0 { DividesOn(n, m, j); }
    }
  }

  lemma DividesOn(n: int, m: int, j: int)
    requires m > 0 && j > 0 && n % m == 0 && m % j == 0
    ensures n % j == 0
  {
    ThirdFactor(n, m, j, m / j, n / m);
  }

  lemma ThirdFactor(n: int, m: int, j: int, s: int, t: int)
    requires j > 0 && n == m * t && m == j * s
    ensures n % j == 0
  {
    assert j * s * t == j * (s * t);
    MultipleVanishes(n, s * t, j);
  }

  /** A composite number has a prime divisor whose square does not exceed it. */
  lemma SmallPrimeDivisor(n: int) returns (p: int)
    requires n >= 2 && !IsPrime(n)
    ensures IsPrime(p) && n % p == 0 && p < n && p * p <= n
  {
    var m: int :| 2 <= m < n && n % m == 0;
    var l := LeastDivisor(n, m);
    p := PrimeDivisor(n, l);
    var t := CongElim(n, 0, p);
    CofactorAtLeast(n, p, t);
  }

  lemma CofactorAtLeast(n: int, p: int, t: int)
    requires 2 <= p < n && n == t * p
    requires forall j: int {:trigger n % j} :: 2 <= j < p ==> n % j != 0
    ensures p * p <= n
  {
    if t <= 1 {
      MulMonotone(t, 1, p);
    } else {
      CongIntro(n, 0, p, t);
      if t >= p { MulMonotone(p, t, p); }
    }
  }

  lemma {:induction false} LeastDivisor(n: int, m: int) returns (l: int)
    requires 2 <= m < n && n % m == 0
    ensures 2 <= l <= m && n % l == 0
    ensures forall j: int {:trigger n % j} :: 2 <= j < l ==> n % j != 0
    decreases m
  {
    if j: int :| 2 <= j < m && n % j == 0 {
      l := LeastDivisor(n, j);
    } else {
      l := m;
    }
  }

  lemma DividesThrough(a: int, b: int, p: int, n: int)
    requires p > 0 && n > 0 && n % p == 0 && Cong(a, b, n)
    ensures Cong(a, b, p)
  {
    var k := CongElim(a, b, n);
    var t := n / p;
    assert k * n == k * t * p by { assert n == t * p; assert k * (t * p) == k * t * p; }
    CongIntro(a, b, k * t, p);
  }

  /** If b^q = 1 and b != 1 modulo the prime p, for a prime q, then q divides p - 1. */
  lemma OrderDivides(b: int, q: int, p: int)
    requires IsPrime(p) && IsPrime(q)
    requires Cong(Pow(b, q), 1, p) && !Cong(b, 1, p)
    ensures (p - 1) % q == 0
  {
    if Cong(b, 0, p) {
      PowUnfold(b, q);
      OneIsNotZero(p);
      CongScale(Pow(b, q - 1), b, 0, p);
    } else if !Cong(p - 1, 0, q) {
      // the inverse k of p-1 modulo q turns b^(k(p-1)) = 1 into b = 1
      Fermat(b, p);
      var k, j := InverseExponent(p - 1, q);
      PowOfOne(b, p - 1, k, p);
      PowOfOne(b, q, j, p);
      PowUnfold(b, (p - 1) * k);
      CongScale(b, Pow(b, q * j), 1, p);
    }
  }

  /** A unit m modulo the prime q has an inverse k, written with natural numbers. */
  lemma InverseExponent(m: nat, q: int) returns (k: nat, j: nat)
    requires IsPrime(q) && !Cong(m, 0, q) && m > 0
    ensures m * k == q * j + 1
  {
    Fermat(m, q);
    PowPositive(m, q - 2);
    k := Pow(m, q - 2);
    PowUnfold(m, q - 1);
    var d := CongElim(m * k, 1, q);
    MulMonotone(1, m, k);
    if d < 0 { MulMonotone(d, -1, q); }
    j := d;
  }

  /** Pocklington: one large prime factor q of n-1, with a witness a, forces every prime
      divisor of n to be 1 modulo q; `inv` shows that a^((n-1)/q) - 1 is a unit. */
  lemma PocklingtonDivisor(n: int, q: int, a: int, e: nat, inv: int, p: int)
    requires n >= 2 && IsPrime(q) && n - 1 == e * q
    requires Cong(Pow(a, n - 1), 1, n) && Cong(inv * (Pow(a, e) - 1), 1, n)
    requires IsPrime(p) && n % p == 0
    ensures (p - 1) % q == 0
  {
    var b := Pow(a, e);
    PowMul(a, e, q);
    DividesThrough(Pow(a, n - 1), 1, p, n);
    DividesThrough(inv * (b - 1), 1, p, n);
    OneIsNotZero(p);
    if Cong(b, 1, p) {
      CongZero(b, 1, p);
      CongScale(inv, b - 1, 0, p);
    } else {
      OrderDivides(b, q, p);
    }
  }

  /** Pocklington's criterion with the cube-root bound: writing e = (n-1)/q in base q as
      c1*q + c0, the number n is prime as soon as c1 + 1 < c0. */
  lemma Pocklington(n: int, q: int, a: int, e: nat, inv: int, c1: nat, c0: nat)
    requires n >= 2 && IsPrime(q) && n - 1 == e * q
    requires Cong(Pow(a, n - 1), 1, n) && Cong(inv * (Pow(a, e) - 1), 1, n)
    requires e == c1 * q + c0 && c1 + 1 < c0 < q
    ensures IsPrime(n)
  {
    if !IsPrime(n) {
      var p := SmallPrimeDivisor(n);
      PocklingtonDivisor(n, q, a, e, inv, p);
      var m := CongElim(n, 0, p);
      var u := CongElim(p - 1, 0, q);
      var v := e - u * m;
      CofactorForm(n, p, m, q, e, u);
      if u < 1 { MulMonotone(u, 0, q); }
      if m < 2 { MulMonotone(m, 1, p); }
      if v < 1 { MulMonotone(v, 0, q); }
      var w := FactorPair(u, v, q, c1);
    }
  }

  lemma CofactorForm(n: int, p: int, m: int, q: int, e: int, u: int)
    requires n == m * p && p == 1 + u * q && n == 1 + e * q
    ensures m == 1 + (e - u * m) * q
  {
    assert m * (u * q) == u * m * q;
    assert (e - u * m) * q == e * q - u * m * q;
  }

  lemma FactorPair(u: int, v: int, q: int, c1: int) returns (w: int)
    requires u >= 1 && v >= 1 && q > 0
    ensures u * (1 + v * q) + v == w * q + u + v && u + v <= w + 1
    ensures if w <= c1 then w * q <= c1 * q else c1 * q + q <= w * q
  {
    w := u * v;
    assert u * (v * q) == w * q;
    MulMonotone(1, u, v - 1);
    assert u * (v - 1) == w - u;
    if w <= c1 { MulMonotone(w, c1, q); } else { MulMonotone(c1 + 1, w, q); }
  }
}
