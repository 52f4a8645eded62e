"""Writes Certificate.dfy: the Pocklington chain for 2^255 - 19 and the Euler criterion
for the curve constant."""

P = 2**255 - 19
Q = 74058212732561358302231226437062788676166966415465897661863160754340907
R = 75445702479781427272750846543864801
T = 1919519569386763
U = 8574133
V = 991
B = 121665 * 121666          # -d times a square
PER = 7
out = []

def emit(line=""):
    out.append(line)

def chain(tag, m, a, e0, x0, digits):
    """Lemmas raising r(e0, x0) through the octal digits; returns (e, x)."""
    e, x = e0, x0
    for j in range(0, len(digits), PER):
        part = digits[j:j + PER]
        body = []
        es, xs = e, x
        for c in part:
            y = pow(x, 8, m) * pow(a, c, m) % m
            body.append(f"    Eighth(r, {m}, {e}, {x}, {c}, {pow(a, c, m)}, {y});")
            e, x = 8 * e + c, y
        emit(f"  lemma {tag}{j // PER}(r: Residues)")
        emit(f"    requires Closed(r, {m}) && r({es}, {xs})")
        emit("    requires " + " && ".join(f"r({c}, {pow(a, c, m)})" for c in sorted(set(part))))
        emit(f"    ensures r({e}, {x})")
        emit("  {")
        emit("    hide *;")
        out.extend(body)
        emit("  }")
        emit()
    return e, x

def octal(n):
    ds = []
    while n:
        ds.append(n % 8)
        n //= 8
    return ds[::-1]

def powers(tag, a, m):
    emit(f"  lemma {tag}Powers(r: Residues)")
    emit(f"    requires Closed(r, {m}) && r(1, {a})")
    for c in range(2, 8):
        emit(f"    ensures r({c}, {pow(a, c, m)})")
    emit("  {")
    emit("    hide *;")
    for c in range(2, 8):
        emit(f"    Next(r, {m}, {a}, {c - 1}, {pow(a, c - 1, m)}, {pow(a, c, m)});")
    emit("  }")
    emit()

def drive(tag, name, m, a, e):
    """The lemmas that take a base a to its power e, and one that runs them all."""
    ds = octal(e)
    powers(tag, a, m)
    chain(tag, m, a, ds[0], pow(a, ds[0], m), ds[1:])
    emit(f"  lemma {name}(r: Residues)")
    emit(f"    requires Closed(r, {m}) && r(0, 1) && r(1, {a})")
    emit(f"    ensures r({e}, {pow(a, e, m)})")
    emit("  {")
    emit("    hide *;")
    emit(f"    {tag}Powers(r);")
    for j in range(0, len(ds) - 1, PER):
        emit(f"    {tag}{j // PER}(r);")
    emit("  }")
    emit()

def level(tag, n, q, qlemma, a):
    e = (n - 1) // q
    w = pow(a, e, n)
    assert pow(w, q, n) == 1
    inv = pow(w - 1, -1, n)
    c1, c0 = divmod(e, q)
    assert c1 + 1 < c0 < q
    emit(f"  // ---------------------------------------------------------------- {n}")
    emit()
    drive(f"{tag}Low", f"{tag}Root", n, a, e)
    drive(f"{tag}High", f"{tag}Unit", n, w, q)
    emit(f"  lemma Prime{tag}()")
    emit(f"    ensures IsPrime({n})")
    emit("  {")
    emit("    hide *;")
    emit(f"    {qlemma}();")
    emit(f"    PowersClosed({a}, {n});")
    emit(f"    {tag}Root(Powers({a}, {n}));")
    emit(f"    PowersClosed({w}, {n});")
    emit(f"    {tag}Unit(Powers({w}, {n}));")
    emit(f"    Criterion({n}, {q}, {a}, {e}, {w}, {inv}, {c1}, {c0});")
    emit("  }")
    emit()

emit("""/** Primality of 2^255 - 19 by a chain of Pocklington certificates, and the Euler criterion
    that makes the curve constant of Ed25519 a non-square.  Each chain raises a base eight-fold
    per line; the numbers are the intermediate residues.  Written by certificate.py. */
module Certificate {
  import opened Numbers

  /** A relation between exponents and residues: r(e, x) says that x is the power e of some base. */
  type Residues = (int, int) -> bool

  function Times(x: int, y: int, m: int): int
    requires m > 0
  {
    x * y % m
  }

  ghost predicate Closed(r: Residues, m: int) {
    && m > 0
    && forall e: int, f: int, x: int, y: int {:trigger r(e, x), r(f, y), Times(x, y, m)} ::
         r(e, x) && r(f, y) ==> r(e + f, Times(x, y, m))
  }

  function Powers(a: int, m: int): Residues
    requires m > 0
  {
    (e: int, x: int) => e >= 0 && Pow(a, e) % m == x
  }

  lemma PowersClosed(a: int, m: int)
    requires 0 <= a < m && m > 1
    ensures Closed(Powers(a, m), m) && Powers(a, m)(0, 1) && Powers(a, m)(1, a)
  {
    var r := Powers(a, m);
    forall e: int, f: int, x: int, y: int | r(e, x) && r(f, y) ensures r(e + f, Times(x, y, m)) {
      CongMod(Pow(a, e), m);
      CongMod(Pow(a, f), m);
      PowAdd(a, e, f);
      CongMul(Pow(a, e), x, Pow(a, f), y, m);
    }
    assert Pow(a, 1) == a;
  }

  /** One step of a chain: from the power e to the power 8e + c. */
  lemma Eighth(r: Residues, m: int, e: int, x: int, c: int, t: int, y: int)
    requires Closed(r, m) && r(e, x) && r(c, t)
    requires x * x * x * x * x * x * x * x * t % m == y
    ensures r(8 * e + c, y)
  {
    var x2 := Times(x, x, m);
    var x4 := Times(x2, x2, m);
    var x8 := Times(x4, x4, m);
    assert r(e + e, x2);
    assert r(e + e + (e + e), x4);
    assert r(e + e + (e + e) + (e + e + (e + e)), x8);
    assert r(e + e + (e + e) + (e + e + (e + e)) + c, Times(x8, t, m));
    EighthValue(x, x2, x4, x8, t, m);
    hide *;
    assert e + e + (e + e) + (e + e + (e + e)) + c == 8 * e + c;
  }

  lemma EighthValue(x: int, x2: int, x4: int, x8: int, t: int, m: int)
    requires m > 0 && x2 == x * x % m && x4 == x2 * x2 % m && x8 == x4 * x4 % m
    ensures x8 * t % m == x * x * x * x * x * x * x * x * t % m
  {
    var y2 := x * x;
    var y4 := y2 * y2;
    Squared(y2, x2, x4, m);
    Squared(y4, x4, x8, m);
    CongMod(y4 * y4, m);
    CongMul(x8, y4 * y4, t, t, m);
    Product8(x);
  }

  lemma Squared(y: int, x: int, z: int, m: int)
    requires m > 0 && x == y % m && z == x * x % m
    ensures z == y * y % m
  {
    CongMod(y, m);
    CongMul(y, x, y, x, m);
  }

  lemma Product8(x: int)
    ensures x * x * (x * x) * (x * x * (x * x)) == x * x * x * x * x * x * x * x
  {
    var f := x * x * x * x;
    assert x * x * (x * x) == f;
    assert f * f == f * (x * x * x) * x;
    assert f * (x * x * x) == f * (x * x) * x;
  }

  lemma Next(r: Residues, m: int, a: int, c: int, t: int, y: int)
    requires Closed(r, m) && r(1, a) && r(c, t) && a * t % m == y
    ensures r(c + 1, y)
  {
    assert r(1 + c, Times(a, t, m));
  }

  /** The criterion in the form the chains end in. */
  lemma Criterion(n: int, q: nat, a: int, e: nat, w: int, inv: int, c1: nat, c0: nat)
    requires n >= 2 && IsPrime(q) && e * q + 1 == n
    requires Powers(a, n)(e, w) && Powers(w, n)(q, 1) && inv * (w - 1) % n == 1
    requires e == c1 * q + c0 && c1 + 1 < c0 < q
    ensures IsPrime(n)
  {
    CongReduced1(n);
    CongMod(Pow(a, e), n);
    CongPow(Pow(a, e), w, q, n);
    PowMul(a, e, q);
    CongSub(Pow(a, e), w, 1, 1, n);
    CongScale(inv, Pow(a, e) - 1, w - 1, n);
    Pocklington(n, q, a, e, inv, c1, c0);
  }

  /** The same, with a^(n-1) = 1 read off Euler's criterion a^h = -1. */
  lemma EulerCriterion(n: int, q: nat, a: int, h: nat, e: nat, w: int, inv: int, c1: nat, c0: nat)
    requires n >= 2 && IsPrime(q) && e * q + 1 == n && 2 * h + 1 == n
    requires Cong(Pow(a, h), -1, n) && Powers(a, n)(e, w) && inv * (w - 1) % n == 1
    requires e == c1 * q + c0 && c1 + 1 < c0 < q
    ensures IsPrime(n)
  {
    CongMul(Pow(a, h), -1, Pow(a, h), -1, n);
    PowAdd(a, h, h);
    CongReduced1(n);
    CongMod(Pow(a, e), n);
    CongSub(Pow(a, e), w, 1, 1, n);
    CongScale(inv, Pow(a, e) - 1, w - 1, n);
    Pocklington(n, q, a, e, inv, c1, c0);
  }

  lemma CongReduced1(n: int)
    requires n >= 2
    ensures 1 % n == 1
  {
  }
""")

emit(f"  // ---------------------------------------------------------------- {V}")
emit()
emit(f"  lemma PrimeV()")
emit(f"    ensures IsPrime({V})")
emit("  {")
emit(f"    if !IsPrime({V}) {{")
emit(f"      var p := SmallPrimeDivisor({V});")
emit("      if p >= 32 { MulMonotone(32, p, p); } else { TrialV(p); }")
emit("    }")
emit("  }")
emit()

emit("  lemma TrialV(p: int)")
emit("    requires 2 <= p < 32")
emit(f"    ensures {V} % p != 0")
emit("  {")
emit("    assert " + " && ".join(f"{V} % {d} != 0" for d in range(2, 32)) + ";")
emit("  }")
emit()

def base(n, q):
    for a in (2, 3, 5, 7, 11):
        w = pow(a, (n - 1) // q, n)
        if pow(w, q, n) == 1 and w != 1:
            return a

level("U", U, V, "PrimeV", base(U, V))
level("T", T, U, "PrimeU", base(T, U))
level("R", R, T, "PrimeT", base(R, T))
level("Q", Q, R, "PrimeR", base(Q, R))

# the field prime itself: base B serves Pocklington and Euler together
e = (P - 1) // Q
w = pow(B, e, P)
inv = pow(w - 1, -1, P)
emit(f"  // ---------------------------------------------------------------- 2^255 - 19")
emit()
drive("PLow", "PRoot", P, B, e)
# B^(2^254) by 84 eighth powers from B^4
x, ex = pow(B, 4, P), 4
per = 7
for j in range(0, 84, per):
    es, xs = ex, x
    body = []
    for _ in range(per):
        y = pow(x, 8, P)
        body.append(f"    Eighth(r, {P}, {ex}, {x}, 0, 1, {y});")
        x, ex = y, ex * 8
    emit(f"  lemma PSquare{j // per}(r: Residues)")
    emit(f"    requires Closed(r, {P}) && r({es}, {xs}) && r(0, 1)")
    emit(f"    ensures r({ex}, {x})")
    emit("  {")
    emit("    hide *;")
    out.extend(body)
    emit("  }")
    emit()
assert ex == 2**254
Z = x
B10 = pow(B, 10, P)
assert Z == (-B10) % P
binv = pow(B10, -1, P)
emit(f"  /** (2^255 - 20)/2 = 2^254 - 10: Euler's criterion for the base {B}. */")
emit(f"  lemma Euler(a: int) returns (h: nat)")
emit(f"    requires a == {B}")
emit(f"    ensures 2 * h + 1 == {P} && Cong(Pow(a, h), -1, {P})")
emit("  {")
emit("    hide *;")
emit(f"    var r := Powers(a, {P});")
emit(f"    PowersClosed(a, {P});")
emit("    PLowPowers(r);")
for j in range(84 // per):
    emit(f"    PSquare{j}(r);")
emit(f"    h := {ex} - 10;")
emit(f"    Join(r, {P}, 7, {pow(B,7,P)}, 3, {pow(B,3,P)}, {B10});")
emit(f"    DivideOut(a, h, 10, {Z}, {B10}, {binv}, {P});")
emit("  }")
emit(f"""
  lemma Join(r: Residues, m: int, e: int, x: int, f: int, y: int, z: int)
    requires Closed(r, m) && r(e, x) && r(f, y) && x * y % m == z
    ensures r(e + f, z)
  {{
    assert r(e + f, Times(x, y, m));
  }}

  /** From a^(h+k) = -a^k, with a^k a unit, follows a^h = -1. */
  lemma DivideOut(a: int, h: nat, k: nat, z: int, t: int, inv: int, p: int)
    requires p >= 2 && Powers(a, p)(h + k, z) && Powers(a, p)(k, t)
    requires (z + t) % p == 0 && inv * t % p == 1
    ensures Cong(Pow(a, h), -1, p)
  {{
    PowAdd(a, h, k);
    DivideOutFactor(Pow(a, h), Pow(a, k), Pow(a, h + k), z, t, inv, p);
  }}

  lemma DivideOutFactor(x: int, y: int, w: int, z: int, t: int, inv: int, p: int)
    requires p >= 2 && w == x * y && w % p == z && y % p == t
    requires (z + t) % p == 0 && inv * t % p == 1
    ensures Cong(x, -1, p)
  {{
    CongMod(w, p);
    CongMod(y, p);
    CongScale(x, y, t, p);
    CongAdd(x * t, z, t, t, p);
    CongReduced1(p);
    UnitTimes(x + 1, x * t + t, t, inv, p);
    CongSub(x + 1, 0, 1, 1, p);
  }}

  lemma UnitTimes(y: int, m: int, t: int, inv: int, p: int)
    requires p > 0 && m == y * t && Cong(m, 0, p) && Cong(inv * t, 1, p)
    ensures Cong(y, 0, p)
  {{
    CongScale(inv, m, 0, p);
    CongScale(y, inv * t, 1, p);
    assert inv * m == y * (inv * t);
  }}
""")
c1, c0 = divmod(e, Q)
emit(f"""  lemma PrimeP()
    ensures IsPrime({P})
  {{
    hide *;
    PrimeQ();
    var h := Euler({B});
    PowersClosed({B}, {P});
    PRoot(Powers({B}, {P}));
    EulerCriterion({P}, {Q}, {B}, h, {e}, {w}, {inv}, {c1}, {c0});
  }}
}}""")
open("Certificate.dfy", "w").write("\n".join(out) + "\n")
