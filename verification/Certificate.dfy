/** Primality of 2^255 - 19 by a chain of Pocklington certificates, and the Euler criterion
    that makes the curve constant of Ed25519 a non-square.  Each chain raises a base eight-fold
    per line; the numbers are the intermediate residues.  Written by certificate.py. */
module Certificate {
  import opened Numbers

  /** A relation between exponents and residues: r(e, x) says that x is the power e of some base. */
  type Residues = (int, int) -> bool

  function Times(x: int, y: int, m: int): int
    requires m > 0
  {
    x * y % m
  }

  ghost predicate Closed(r: Residues, m: int) {
    && m > 0
    && forall e: int, f: int, x: int, y: int {:trigger r(e, x), r(f, y), Times(x, y, m)} ::
         r(e, x) && r(f, y) ==> r(e + f, Times(x, y, m))
  }

  function Powers(a: int, m: int): Residues
    requires m > 0
  {
    (e: int, x: int) => e >= 0 && Pow(a, e) % m == x
  }

  lemma PowersClosed(a: int, m: int)
    requires 0 <= a < m && m > 1
    ensures Closed(Powers(a, m), m) && Powers(a, m)(0, 1) && Powers(a, m)(1, a)
  {
    var r := Powers(a, m);
    forall e: int, f: int, x: int, y: int | r(e, x) && r(f, y) ensures r(e + f, Times(x, y, m)) {
      CongMod(Pow(a, e), m);
      CongMod(Pow(a, f), m);
      PowAdd(a, e, f);
      CongMul(Pow(a, e), x, Pow(a, f), y, m);
    }
    assert Pow(a, 1) == a;
  }

  /** One step of a chain: from the power e to the power 8e + c. */
  lemma Eighth(r: Residues, m: int, e: int, x: int, c: int, t: int, y: int)
    requires Closed(r, m) && r(e, x) && r(c, t)
    requires x * x * x * x * x * x * x * x * t % m == y
    ensures r(8 * e + c, y)
  {
    var x2 := Times(x, x, m);
    var x4 := Times(x2, x2, m);
    var x8 := Times(x4, x4, m);
    assert r(e + e, x2);
    assert r(e + e + (e + e), x4);
    assert r(e + e + (e + e) + (e + e + (e + e)), x8);
    assert r(e + e + (e + e) + (e + e + (e + e)) + c, Times(x8, t, m));
    EighthValue(x, x2, x4, x8, t, m);
    hide *;
    assert e + e + (e + e) + (e + e + (e + e)) + c == 8 * e + c;
  }

  lemma EighthValue(x: int, x2: int, x4: int, x8: int, t: int, m: int)
    requires m > 0 && x2 == x * x % m && x4 == x2 * x2 % m && x8 == x4 * x4 % m
    ensures x8 * t % m == x * x * x * x * x * x * x * x * t % m
  {
    var y2 := x * x;
    var y4 := y2 * y2;
    Squared(y2, x2, x4, m);
    Squared(y4, x4, x8, m);
    CongMod(y4 * y4, m);
    CongMul(x8, y4 * y4, t, t, m);
    Product8(x);
  }

  lemma Squared(y: int, x: int, z: int, m: int)
    requires m > 0 && x == y % m && z == x * x % m
    ensures z == y * y % m
  {
    CongMod(y, m);
    CongMul(y, x, y, x, m);
  }

  lemma Product8(x: int)
    ensures x * x * (x * x) * (x * x * (x * x)) == x * x * x * x * x * x * x * x
  {
    var f := x * x * x * x;
    assert x * x * (x * x) == f;
    assert f * f == f * (x * x * x) * x;
    assert f * (x * x * x) == f * (x * x) * x;
  }

  lemma Next(r: Residues, m: int, a: int, c: int, t: int, y: int)
    requires Closed(r, m) && r(1, a) && r(c, t) && a * t % m == y
    ensures r(c + 1, y)
  {
    assert r(1 + c, Times(a, t, m));
  }

  /** The criterion in the form the chains end in. */
  lemma Criterion(n: int, q: nat, a: int, e: nat, w: int, inv: int, c1: nat, c0: nat)
    requires n >= 2 && IsPrime(q) && e * q + 1 == n
    requires Powers(a, n)(e, w) && Powers(w, n)(q, 1) && inv * (w - 1) % n == 1
    requires e == c1 * q + c0 && c1 + 1 < c0 < q
    ensures IsPrime(n)
  {
    CongReduced1(n);
    CongMod(Pow(a, e), n);
    CongPow(Pow(a, e), w, q, n);
    PowMul(a, e, q);
    CongSub(Pow(a, e), w, 1, 1, n);
    CongScale(inv, Pow(a, e) - 1, w - 1, n);
    Pocklington(n, q, a, e, inv, c1, c0);
  }

  /** The same, with a^(n-1) = 1 read off Euler's criterion a^h = -1. */
  lemma EulerCriterion(n: int, q: nat, a: int, h: nat, e: nat, w: int, inv: int, c1: nat, c0: nat)
    requires n >= 2 && IsPrime(q) && e * q + 1 == n && 2 * h + 1 == n
    requires Cong(Pow(a, h), -1, n) && Powers(a, n)(e, w) && inv * (w - 1) % n == 1
    requires e == c1 * q + c0 && c1 + 1 < c0 < q
    ensures IsPrime(n)
  {
    CongMul(Pow(a, h), -1, Pow(a, h), -1, n);
    PowAdd(a, h, h);
    CongReduced1(n);
    CongMod(Pow(a, e), n);
    CongSub(Pow(a, e), w, 1, 1, n);
    CongScale(inv, Pow(a, e) - 1, w - 1, n);
    Pocklington(n, q, a, e, inv, c1, c0);
  }

  lemma CongReduced1(n: int)
    requires n >= 2
    ensures 1 % n == 1
  {
  }

  // ---------------------------------------------------------------- 991

  lemma PrimeV()
    ensures IsPrime(991)
  {
    if !IsPrime(991) {
      var p := SmallPrimeDivisor(991);
      if p >= 32 { MulMonotone(32, p, p); } else { TrialV(p); }
    }
  }

  lemma TrialV(p: int)
    requires 2 <= p < 32
    ensures 991 % p != 0
  {
    assert 991 % 2 != 0 && 991 % 3 != 0 && 991 % 4 != 0 && 991 % 5 != 0 && 991 % 6 != 0 && 991 % 7 != 0 && 991 % 8 != 0 && 991 % 9 != 0 && 991 % 10 != 0 && 991 % 11 != 0 && 991 % 12 != 0 && 991 % 13 != 0 && 991 % 14 != 0 && 991 % 15 != 0 && 991 % 16 != 0 && 991 % 17 != 0 && 991 % 18 != 0 && 991 % 19 != 0 && 991 % 20 != 0 && 991 % 21 != 0 && 991 % 22 != 0 && 991 % 23 != 0 && 991 % 24 != 0 && 991 % 25 != 0 && 991 % 26 != 0 && 991 % 27 != 0 && 991 % 28 != 0 && 991 % 29 != 0 && 991 % 30 != 0 && 991 % 31 != 0;
  }

  // ---------------------------------------------------------------- 8574133

  lemma ULowPowers(r: Residues)
    requires Closed(r, 8574133) && r(1, 2)
    ensures r(2, 4)
    ensures r(3, 8)
    ensures r(4, 16)
    ensures r(5, 32)
    ensures r(6, 64)
    ensures r(7, 128)
  {
    hide *;
    Next(r, 8574133, 2, 1, 2, 4);
    Next(r, 8574133, 2, 2, 4, 8);
    Next(r, 8574133, 2, 3, 8, 16);
    Next(r, 8574133, 2, 4, 16, 32);
    Next(r, 8574133, 2, 5, 32, 64);
    Next(r, 8574133, 2, 6, 64, 128);
  }

  lemma ULow0(r: Residues)
    requires Closed(r, 8574133) && r(2, 4)
    requires r(0, 1) && r(1, 2) && r(4, 16) && r(7, 128)
    ensures r(8652, 3435729)
  {
    hide *;
    Eighth(r, 8574133, 2, 4, 0, 1, 65536);
    Eighth(r, 8574133, 16, 65536, 7, 128, 430341);
    Eighth(r, 8574133, 135, 430341, 1, 2, 2003323);
    Eighth(r, 8574133, 1081, 2003323, 4, 16, 3435729);
  }

  lemma URoot(r: Residues)
    requires Closed(r, 8574133) && r(0, 1) && r(1, 2)
    ensures r(8652, 3435729)
  {
    hide *;
    ULowPowers(r);
    ULow0(r);
  }

  lemma UHighPowers(r: Residues)
    requires Closed(r, 8574133) && r(1, 3435729)
    ensures r(2, 1932883)
    ensures r(3, 7537281)
    ensures r(4, 3997200)
    ensures r(5, 4243104)
    ensures r(6, 2977832)
    ensures r(7, 8150342)
  {
    hide *;
    Next(r, 8574133, 3435729, 1, 3435729, 1932883);
    Next(r, 8574133, 3435729, 2, 1932883, 7537281);
    Next(r, 8574133, 3435729, 3, 7537281, 3997200);
    Next(r, 8574133, 3435729, 4, 3997200, 4243104);
    Next(r, 8574133, 3435729, 5, 4243104, 2977832);
    Next(r, 8574133, 3435729, 6, 2977832, 8150342);
  }

  lemma UHigh0(r: Residues)
    requires Closed(r, 8574133) && r(1, 3435729)
    requires r(3, 7537281) && r(7, 8150342)
    ensures r(991, 1)
  {
    hide *;
    Eighth(r, 8574133, 1, 3435729, 7, 8150342, 6784828);
    Eighth(r, 8574133, 15, 6784828, 3, 7537281, 6487758);
    Eighth(r, 8574133, 123, 6487758, 7, 8150342, 1);
  }

  lemma UUnit(r: Residues)
    requires Closed(r, 8574133) && r(0, 1) && r(1, 3435729)
    ensures r(991, 1)
  {
    hide *;
    UHighPowers(r);
    UHigh0(r);
  }

  lemma PrimeU()
    ensures IsPrime(8574133)
  {
    hide *;
    PrimeV();
    PowersClosed(2, 8574133);
    URoot(Powers(2, 8574133));
    PowersClosed(3435729, 8574133);
    UUnit(Powers(3435729, 8574133));
    Criterion(8574133, 991, 2, 8652, 3435729, 1014251, 8, 724);
  }

  // ---------------------------------------------------------------- 1919519569386763

  lemma TLowPowers(r: Residues)
    requires Closed(r, 1919519569386763) && r(1, 2)
    ensures r(2, 4)
    ensures r(3, 8)
    ensures r(4, 16)
    ensures r(5, 32)
    ensures r(6, 64)
    ensures r(7, 128)
  {
    hide *;
    Next(r, 1919519569386763, 2, 1, 2, 4);
    Next(r, 1919519569386763, 2, 2, 4, 8);
    Next(r, 1919519569386763, 2, 3, 8, 16);
    Next(r, 1919519569386763, 2, 4, 16, 32);
    Next(r, 1919519569386763, 2, 5, 32, 64);
    Next(r, 1919519569386763, 2, 6, 64, 128);
  }

  lemma TLow0(r: Residues)
    requires Closed(r, 1919519569386763) && r(1, 2)
    requires r(0, 1) && r(2, 4) && r(4, 16) && r(5, 32) && r(6, 64)
    ensures r(3498020, 280066608751023)
  {
    hide *;
    Eighth(r, 1919519569386763, 1, 2, 5, 32, 8192);
    Eighth(r, 1919519569386763, 13, 8192, 2, 4, 1050703024027364);
    Eighth(r, 1919519569386763, 106, 1050703024027364, 6, 64, 1131232746713132);
    Eighth(r, 1919519569386763, 854, 1131232746713132, 0, 1, 1175992818124362);
    Eighth(r, 1919519569386763, 6832, 1175992818124362, 0, 1, 1384618485920380);
    Eighth(r, 1919519569386763, 54656, 1384618485920380, 4, 16, 1538409348524363);
    Eighth(r, 1919519569386763, 437252, 1538409348524363, 4, 16, 280066608751023);
  }

  lemma TLow1(r: Residues)
    requires Closed(r, 1919519569386763) && r(3498020, 280066608751023)
    requires r(2, 4) && r(4, 16)
    ensures r(223873314, 1059928654987441)
  {
    hide *;
    Eighth(r, 1919519569386763, 3498020, 280066608751023, 4, 16, 1001669444392439);
    Eighth(r, 1919519569386763, 27984164, 1001669444392439, 2, 4, 1059928654987441);
  }

  lemma TRoot(r: Residues)
    requires Closed(r, 1919519569386763) && r(0, 1) && r(1, 2)
    ensures r(223873314, 1059928654987441)
  {
    hide *;
    TLowPowers(r);
    TLow0(r);
    TLow1(r);
  }

  lemma THighPowers(r: Residues)
    requires Closed(r, 1919519569386763) && r(1, 1059928654987441)
    ensures r(2, 378404018618345)
    ensures r(3, 1637718672502137)
    ensures r(4, 144327877361125)
    ensures r(5, 1887013484913203)
    ensures r(6, 1015249933133947)
    ensures r(7, 362533234849460)
  {
    hide *;
    Next(r, 1919519569386763, 1059928654987441, 1, 1059928654987441, 378404018618345);
    Next(r, 1919519569386763, 1059928654987441, 2, 378404018618345, 1637718672502137);
    Next(r, 1919519569386763, 1059928654987441, 3, 1637718672502137, 144327877361125);
    Next(r, 1919519569386763, 1059928654987441, 4, 144327877361125, 1887013484913203);
    Next(r, 1919519569386763, 1059928654987441, 5, 1887013484913203, 1015249933133947);
    Next(r, 1919519569386763, 1059928654987441, 6, 1015249933133947, 362533234849460);
  }

  lemma THigh0(r: Residues)
    requires Closed(r, 1919519569386763) && r(4, 144327877361125)
    requires r(0, 1) && r(2, 378404018618345) && r(5, 1887013484913203) && r(6, 1015249933133947)
    ensures r(8574133, 1)
  {
    hide *;
    Eighth(r, 1919519569386763, 4, 144327877361125, 0, 1, 1708865658966864);
    Eighth(r, 1919519569386763, 32, 1708865658966864, 5, 1887013484913203, 1895116067335826);
    Eighth(r, 1919519569386763, 261, 1895116067335826, 5, 1887013484913203, 1815542347366093);
    Eighth(r, 1919519569386763, 2093, 1815542347366093, 2, 378404018618345, 1896718276386001);
    Eighth(r, 1919519569386763, 16746, 1896718276386001, 2, 378404018618345, 690624347585068);
    Eighth(r, 1919519569386763, 133970, 690624347585068, 6, 1015249933133947, 734771387221666);
    Eighth(r, 1919519569386763, 1071766, 734771387221666, 5, 1887013484913203, 1);
  }

  lemma TUnit(r: Residues)
    requires Closed(r, 1919519569386763) && r(0, 1) && r(1, 1059928654987441)
    ensures r(8574133, 1)
  {
    hide *;
    THighPowers(r);
    THigh0(r);
  }

  lemma PrimeT()
    ensures IsPrime(1919519569386763)
  {
    hide *;
    PrimeU();
    PowersClosed(2, 1919519569386763);
    TRoot(Powers(2, 1919519569386763));
    PowersClosed(1059928654987441, 1919519569386763);
    TUnit(Powers(1059928654987441, 1919519569386763));
    Criterion(1919519569386763, 8574133, 2, 223873314, 1059928654987441, 1290547218147893, 26, 945856);
  }

  // ---------------------------------------------------------------- 75445702479781427272750846543864801

  lemma RLowPowers(r: Residues)
    requires Closed(r, 75445702479781427272750846543864801) && r(1, 2)
    ensures r(2, 4)
    ensures r(3, 8)
    ensures r(4, 16)
    ensures r(5, 32)
    ensures r(6, 64)
    ensures r(7, 128)
  {
    hide *;
    Next(r, 75445702479781427272750846543864801, 2, 1, 2, 4);
    Next(r, 75445702479781427272750846543864801, 2, 2, 4, 8);
    Next(r, 75445702479781427272750846543864801, 2, 3, 8, 16);
    Next(r, 75445702479781427272750846543864801, 2, 4, 16, 32);
    Next(r, 75445702479781427272750846543864801, 2, 5, 32, 64);
    Next(r, 75445702479781427272750846543864801, 2, 6, 64, 128);
  }

  lemma RLow0(r: Residues)
    requires Closed(r, 75445702479781427272750846543864801) && r(4, 16)
    requires r(0, 1) && r(2, 4) && r(4, 16) && r(5, 32) && r(6, 64)
    ensures r(8936802, 36418643877802785581023883602796239)
  {
    hide *;
    Eighth(r, 75445702479781427272750846543864801, 4, 16, 2, 4, 17179869184);
    Eighth(r, 75445702479781427272750846543864801, 34, 17179869184, 0, 1, 102469992448);
    Eighth(r, 75445702479781427272750846543864801, 272, 102469992448, 5, 32, 54651969301387637110966512518401958);
    Eighth(r, 75445702479781427272750846543864801, 2181, 54651969301387637110966512518401958, 6, 64, 70907221727050507061373817639835259);
    Eighth(r, 75445702479781427272750846543864801, 17454, 70907221727050507061373817639835259, 5, 32, 64134687226725695320034102205120082);
    Eighth(r, 75445702479781427272750846543864801, 139637, 64134687226725695320034102205120082, 4, 16, 53232007837694667884745803777171609);
    Eighth(r, 75445702479781427272750846543864801, 1117100, 53232007837694667884745803777171609, 2, 4, 36418643877802785581023883602796239);
  }

  lemma RLow1(r: Residues)
    requires Closed(r, 75445702479781427272750846543864801) && r(8936802, 36418643877802785581023883602796239)
    requires r(1, 2) && r(2, 4) && r(3, 8) && r(4, 16) && r(6, 64) && r(7, 128)
    ensures r(18741832562087, 13171760403748371563029534295641160)
  {
    hide *;
    Eighth(r, 75445702479781427272750846543864801, 8936802, 36418643877802785581023883602796239, 1, 2, 62153849922490962393205786330105307);
    Eighth(r, 75445702479781427272750846543864801, 71494417, 62153849922490962393205786330105307, 3, 8, 12989690226474060391927371730921649);
    Eighth(r, 75445702479781427272750846543864801, 571955339, 12989690226474060391927371730921649, 3, 8, 36992927490348523016874968511124417);
    Eighth(r, 75445702479781427272750846543864801, 4575642715, 36992927490348523016874968511124417, 2, 4, 48786791113838861753548469283555870);
    Eighth(r, 75445702479781427272750846543864801, 36605141722, 48786791113838861753548469283555870, 6, 64, 23725588849222751655399262015150642);
    Eighth(r, 75445702479781427272750846543864801, 292841133782, 23725588849222751655399262015150642, 4, 16, 57875049575816904056842656006512377);
    Eighth(r, 75445702479781427272750846543864801, 2342729070260, 57875049575816904056842656006512377, 7, 128, 13171760403748371563029534295641160);
  }

  lemma RLow2(r: Residues)
    requires Closed(r, 75445702479781427272750846543864801) && r(18741832562087, 13171760403748371563029534295641160)
    requires r(0, 1) && r(1, 2) && r(3, 8) && r(4, 16) && r(5, 32) && r(6, 64)
    ensures r(39304471641247389600, 56747016255153332959347766392083459)
  {
    hide *;
    Eighth(r, 75445702479781427272750846543864801, 18741832562087, 13171760403748371563029534295641160, 5, 32, 38877602689008559621761620122014640);
    Eighth(r, 75445702479781427272750846543864801, 149934660496701, 38877602689008559621761620122014640, 6, 64, 52923723913192322483970867785578285);
    Eighth(r, 75445702479781427272750846543864801, 1199477283973614, 52923723913192322483970867785578285, 1, 2, 18935679146042012693248632693634471);
    Eighth(r, 75445702479781427272750846543864801, 9595818271788913, 18935679146042012693248632693634471, 3, 8, 6531672565481006475695702252069745);
    Eighth(r, 75445702479781427272750846543864801, 76766546174311307, 6531672565481006475695702252069745, 6, 64, 1888738652562569663194994370406907);
    Eighth(r, 75445702479781427272750846543864801, 614132369394490462, 1888738652562569663194994370406907, 4, 16, 25373835843271755692855209936742124);
    Eighth(r, 75445702479781427272750846543864801, 4913058955155923700, 25373835843271755692855209936742124, 0, 1, 56747016255153332959347766392083459);
  }

  lemma RRoot(r: Residues)
    requires Closed(r, 75445702479781427272750846543864801) && r(0, 1) && r(1, 2)
    ensures r(39304471641247389600, 56747016255153332959347766392083459)
  {
    hide *;
    RLowPowers(r);
    RLow0(r);
    RLow1(r);
    RLow2(r);
  }

  lemma RHighPowers(r: Residues)
    requires Closed(r, 75445702479781427272750846543864801) && r(1, 56747016255153332959347766392083459)
    ensures r(2, 57392192270217903533858737733785835)
    ensures r(3, 11341082394838988818629815250146301)
    ensures r(4, 69985506292158408382038646329123101)
    ensures r(5, 29181860509579851273005917045187428)
    ensures r(6, 155959012102660387425813834929579)
    ensures r(7, 45583456465271829351709465626533616)
  {
    hide *;
    Next(r, 75445702479781427272750846543864801, 56747016255153332959347766392083459, 1, 56747016255153332959347766392083459, 57392192270217903533858737733785835);
    Next(r, 75445702479781427272750846543864801, 56747016255153332959347766392083459, 2, 57392192270217903533858737733785835, 11341082394838988818629815250146301);
    Next(r, 75445702479781427272750846543864801, 56747016255153332959347766392083459, 3, 11341082394838988818629815250146301, 69985506292158408382038646329123101);
    Next(r, 75445702479781427272750846543864801, 56747016255153332959347766392083459, 4, 69985506292158408382038646329123101, 29181860509579851273005917045187428);
    Next(r, 75445702479781427272750846543864801, 56747016255153332959347766392083459, 5, 29181860509579851273005917045187428, 155959012102660387425813834929579);
    Next(r, 75445702479781427272750846543864801, 56747016255153332959347766392083459, 6, 155959012102660387425813834929579, 45583456465271829351709465626533616);
  }

  lemma RHigh0(r: Residues)
    requires Closed(r, 75445702479781427272750846543864801) && r(6, 155959012102660387425813834929579)
    requires r(3, 11341082394838988818629815250146301) && r(4, 69985506292158408382038646329123101) && r(5, 29181860509579851273005917045187428) && r(6, 155959012102660387425813834929579) && r(7, 45583456465271829351709465626533616)
    ensures r(14301535, 15459152947841197990123288567953340)
  {
    hide *;
    Eighth(r, 75445702479781427272750846543864801, 6, 155959012102660387425813834929579, 6, 155959012102660387425813834929579, 50950134277550388139274988234818420);
    Eighth(r, 75445702479781427272750846543864801, 54, 50950134277550388139274988234818420, 4, 69985506292158408382038646329123101, 36987265762985529521771229289714401);
    Eighth(r, 75445702479781427272750846543864801, 436, 36987265762985529521771229289714401, 3, 11341082394838988818629815250146301, 15332043035409065617477834235825705);
    Eighth(r, 75445702479781427272750846543864801, 3491, 15332043035409065617477834235825705, 4, 69985506292158408382038646329123101, 15937525546816407118415523347669111);
    Eighth(r, 75445702479781427272750846543864801, 27932, 15937525546816407118415523347669111, 5, 29181860509579851273005917045187428, 6496845521168618958985737294532398);
    Eighth(r, 75445702479781427272750846543864801, 223461, 6496845521168618958985737294532398, 3, 11341082394838988818629815250146301, 16007527225797350459071559410994340);
    Eighth(r, 75445702479781427272750846543864801, 1787691, 16007527225797350459071559410994340, 7, 45583456465271829351709465626533616, 15459152947841197990123288567953340);
  }

  lemma RHigh1(r: Residues)
    requires Closed(r, 75445702479781427272750846543864801) && r(14301535, 15459152947841197990123288567953340)
    requires r(0, 1) && r(1, 56747016255153332959347766392083459) && r(2, 57392192270217903533858737733785835) && r(4, 69985506292158408382038646329123101) && r(5, 29181860509579851273005917045187428) && r(6, 155959012102660387425813834929579)
    ensures r(29992493271668, 39861800344642687294082677661917528)
  {
    hide *;
    Eighth(r, 75445702479781427272750846543864801, 14301535, 15459152947841197990123288567953340, 2, 57392192270217903533858737733785835, 14117643248705449579903760955255389);
    Eighth(r, 75445702479781427272750846543864801, 114412282, 14117643248705449579903760955255389, 0, 1, 47927644182980611104525402396880376);
    Eighth(r, 75445702479781427272750846543864801, 915298256, 47927644182980611104525402396880376, 4, 69985506292158408382038646329123101, 37915366180115829456528539631290147);
    Eighth(r, 75445702479781427272750846543864801, 7322386052, 37915366180115829456528539631290147, 5, 29181860509579851273005917045187428, 45709518917089588620588014544046913);
    Eighth(r, 75445702479781427272750846543864801, 58579088421, 45709518917089588620588014544046913, 1, 56747016255153332959347766392083459, 13956964227800546053326728666811534);
    Eighth(r, 75445702479781427272750846543864801, 468632707369, 13956964227800546053326728666811534, 6, 155959012102660387425813834929579, 48911793286778530787684392282451517);
    Eighth(r, 75445702479781427272750846543864801, 3749061658958, 48911793286778530787684392282451517, 4, 69985506292158408382038646329123101, 39861800344642687294082677661917528);
  }

  lemma RHigh2(r: Residues)
    requires Closed(r, 75445702479781427272750846543864801) && r(29992493271668, 39861800344642687294082677661917528)
    requires r(1, 56747016255153332959347766392083459) && r(3, 11341082394838988818629815250146301)
    ensures r(1919519569386763, 1)
  {
    hide *;
    Eighth(r, 75445702479781427272750846543864801, 29992493271668, 39861800344642687294082677661917528, 1, 56747016255153332959347766392083459, 54542960005674162123395106310618746);
    Eighth(r, 75445702479781427272750846543864801, 239939946173345, 54542960005674162123395106310618746, 3, 11341082394838988818629815250146301, 1);
  }

  lemma RUnit(r: Residues)
    requires Closed(r, 75445702479781427272750846543864801) && r(0, 1) && r(1, 56747016255153332959347766392083459)
    ensures r(1919519569386763, 1)
  {
    hide *;
    RHighPowers(r);
    RHigh0(r);
    RHigh1(r);
    RHigh2(r);
  }

  lemma PrimeR()
    ensures IsPrime(75445702479781427272750846543864801)
  {
    hide *;
    PrimeT();
    PowersClosed(2, 75445702479781427272750846543864801);
    RRoot(Powers(2, 75445702479781427272750846543864801));
    PowersClosed(56747016255153332959347766392083459, 75445702479781427272750846543864801);
    RUnit(Powers(56747016255153332959347766392083459, 75445702479781427272750846543864801));
    Criterion(75445702479781427272750846543864801, 1919519569386763, 2, 39304471641247389600, 56747016255153332959347766392083459, 74602835786463724888147869570305675, 20476, 388938484030412);
  }

  // ---------------------------------------------------------------- 74058212732561358302231226437062788676166966415465897661863160754340907

  lemma QLowPowers(r: Residues)
    requires Closed(r, 74058212732561358302231226437062788676166966415465897661863160754340907) && r(1, 2)
    ensures r(2, 4)
    ensures r(3, 8)
    ensures r(4, 16)
    ensures r(5, 32)
    ensures r(6, 64)
    ensures r(7, 128)
  {
    hide *;
    Next(r, 74058212732561358302231226437062788676166966415465897661863160754340907, 2, 1, 2, 4);
    Next(r, 74058212732561358302231226437062788676166966415465897661863160754340907, 2, 2, 4, 8);
    Next(r, 74058212732561358302231226437062788676166966415465897661863160754340907, 2, 3, 8, 16);
    Next(r, 74058212732561358302231226437062788676166966415465897661863160754340907, 2, 4, 16, 32);
    Next(r, 74058212732561358302231226437062788676166966415465897661863160754340907, 2, 5, 32, 64);
    Next(r, 74058212732561358302231226437062788676166966415465897661863160754340907, 2, 6, 64, 128);
  }

  lemma QLow0(r: Residues)
    requires Closed(r, 74058212732561358302231226437062788676166966415465897661863160754340907) && r(5, 32)
    requires r(0, 1) && r(2, 4) && r(4, 16) && r(6, 64) && r(7, 128)
    ensures r(12389652, 26468137062010504766510494899990372716311976644238514025378256550645878)
  {
    hide *;
    Eighth(r, 74058212732561358302231226437062788676166966415465897661863160754340907, 5, 32, 7, 128, 140737488355328);
    Eighth(r, 74058212732561358302231226437062788676166966415465897661863160754340907, 47, 140737488355328, 2, 4, 212676479325586539664609129644855132160);
    Eighth(r, 74058212732561358302231226437062788676166966415465897661863160754340907, 378, 212676479325586539664609129644855132160, 0, 1, 67350303327341567303664872675307345658867663549221305857041082473184575);
    Eighth(r, 74058212732561358302231226437062788676166966415465897661863160754340907, 3024, 67350303327341567303664872675307345658867663549221305857041082473184575, 6, 64, 50018382064960117726139413037012994628874463203589051724205103925874959);
    Eighth(r, 74058212732561358302231226437062788676166966415465897661863160754340907, 24198, 50018382064960117726139413037012994628874463203589051724205103925874959, 4, 16, 31026804441375728781910736262517853733312237591303124398479010334543908);
    Eighth(r, 74058212732561358302231226437062788676166966415465897661863160754340907, 193588, 31026804441375728781910736262517853733312237591303124398479010334543908, 2, 4, 42939280187358984190817754633417682473964471607542586091661680867112701);
    Eighth(r, 74058212732561358302231226437062788676166966415465897661863160754340907, 1548706, 42939280187358984190817754633417682473964471607542586091661680867112701, 4, 16, 26468137062010504766510494899990372716311976644238514025378256550645878);
  }

  lemma QLow1(r: Residues)
    requires Closed(r, 74058212732561358302231226437062788676166966415465897661863160754340907) && r(12389652, 26468137062010504766510494899990372716311976644238514025378256550645878)
    requires r(3, 8) && r(4, 16) && r(6, 64) && r(7, 128)
    ensures r(25982985170716, 31080597194559010657524423485039797717674499604036372503093027172496967)
  {
    hide *;
    Eighth(r, 74058212732561358302231226437062788676166966415465897661863160754340907, 12389652, 26468137062010504766510494899990372716311976644238514025378256550645878, 6, 64, 47260047413850295524340801117859846689527409952507389999000405073549868);
    Eighth(r, 74058212732561358302231226437062788676166966415465897661863160754340907, 99117222, 47260047413850295524340801117859846689527409952507389999000405073549868, 3, 8, 33032251797657976845775598082804288848602308872313537746715500337914680);
    Eighth(r, 74058212732561358302231226437062788676166966415465897661863160754340907, 792937779, 33032251797657976845775598082804288848602308872313537746715500337914680, 6, 64, 9873998029049892886497741387572415978018053328879846957763859972516016);
    Eighth(r, 74058212732561358302231226437062788676166966415465897661863160754340907, 6343502238, 9873998029049892886497741387572415978018053328879846957763859972516016, 7, 128, 27761516180245189731908187747824767962457452781687581946686976166293915);
    Eighth(r, 74058212732561358302231226437062788676166966415465897661863160754340907, 50748017911, 27761516180245189731908187747824767962457452781687581946686976166293915, 4, 16, 51023904306648405031493181512252039755800111751213581856066693820252080);
    Eighth(r, 74058212732561358302231226437062788676166966415465897661863160754340907, 405984143292, 51023904306648405031493181512252039755800111751213581856066693820252080, 3, 8, 73994299027674238557536821761741624074404976648766356356064316312414311);
    Eighth(r, 74058212732561358302231226437062788676166966415465897661863160754340907, 3247873146339, 73994299027674238557536821761741624074404976648766356356064316312414311, 4, 16, 31080597194559010657524423485039797717674499604036372503093027172496967);
  }

  lemma QLow2(r: Residues)
    requires Closed(r, 74058212732561358302231226437062788676166966415465897661863160754340907) && r(25982985170716, 31080597194559010657524423485039797717674499604036372503093027172496967)
    requires r(0, 1) && r(1, 2) && r(2, 4) && r(4, 16) && r(5, 32) && r(7, 128)
    ensures r(54490269316739319912, 12219301287136083619979772169428104279429169654296992171429375052505739)
  {
    hide *;
    Eighth(r, 74058212732561358302231226437062788676166966415465897661863160754340907, 25982985170716, 31080597194559010657524423485039797717674499604036372503093027172496967, 7, 128, 56850440753119798199641765124701563093724562108599945471550834900632544);
    Eighth(r, 74058212732561358302231226437062788676166966415465897661863160754340907, 207863881365735, 56850440753119798199641765124701563093724562108599945471550834900632544, 2, 4, 12607433573230962643467891411585419083539293033581933793753662675160318);
    Eighth(r, 74058212732561358302231226437062788676166966415465897661863160754340907, 1662911050925882, 12607433573230962643467891411585419083539293033581933793753662675160318, 4, 16, 44910072599201880858785016335765272683153853309518365827614176295667456);
    Eighth(r, 74058212732561358302231226437062788676166966415465897661863160754340907, 13303288407407060, 44910072599201880858785016335765272683153853309518365827614176295667456, 4, 16, 15709313432981918239605436276139977726167899692337037488190852642013720);
    Eighth(r, 74058212732561358302231226437062788676166966415465897661863160754340907, 106426307259256484, 15709313432981918239605436276139977726167899692337037488190852642013720, 1, 2, 73006098937535659217249858779868473560363143744827874117540793935541339);
    Eighth(r, 74058212732561358302231226437062788676166966415465897661863160754340907, 851410458074051873, 73006098937535659217249858779868473560363143744827874117540793935541339, 5, 32, 5074814565478457957282033174263980056348248120341405154030853789348128);
    Eighth(r, 74058212732561358302231226437062788676166966415465897661863160754340907, 6811283664592414989, 5074814565478457957282033174263980056348248120341405154030853789348128, 0, 1, 12219301287136083619979772169428104279429169654296992171429375052505739);
  }

  lemma QLow3(r: Residues)
    requires Closed(r, 74058212732561358302231226437062788676166966415465897661863160754340907) && r(54490269316739319912, 12219301287136083619979772169428104279429169654296992171429375052505739)
    requires r(0, 1) && r(2, 4) && r(3, 8) && r(4, 16) && r(6, 64)
    ensures r(114274377278138498233747652, 40688680805101588592102734332792292787896502688139661668364615742469505)
  {
    hide *;
    Eighth(r, 74058212732561358302231226437062788676166966415465897661863160754340907, 54490269316739319912, 12219301287136083619979772169428104279429169654296992171429375052505739, 6, 64, 31449701159615089460857935188139667440059681354380461699459251599772281);
    Eighth(r, 74058212732561358302231226437062788676166966415465897661863160754340907, 435922154533914559302, 31449701159615089460857935188139667440059681354380461699459251599772281, 2, 4, 54980755414433188203062458250353229448483829906751478486261111467667851);
    Eighth(r, 74058212732561358302231226437062788676166966415465897661863160754340907, 3487377236271316474418, 54980755414433188203062458250353229448483829906751478486261111467667851, 4, 16, 24299272528052384420260690148753539293873449786856489604039988297761301);
    Eighth(r, 74058212732561358302231226437062788676166966415465897661863160754340907, 27899017890170531795348, 24299272528052384420260690148753539293873449786856489604039988297761301, 4, 16, 41038390859567015992972922737202606252633949239260025002469908108295730);
    Eighth(r, 74058212732561358302231226437062788676166966415465897661863160754340907, 223192143121364254362788, 41038390859567015992972922737202606252633949239260025002469908108295730, 3, 8, 49193208058566577959104148180871418100167009799773547090851024499038337);
    Eighth(r, 74058212732561358302231226437062788676166966415465897661863160754340907, 1785537144970914034902307, 49193208058566577959104148180871418100167009799773547090851024499038337, 0, 1, 10828997928446210701989189866324491273221686470919068671602815019785289);
    Eighth(r, 74058212732561358302231226437062788676166966415465897661863160754340907, 14284297159767312279218456, 10828997928446210701989189866324491273221686470919068671602815019785289, 4, 16, 40688680805101588592102734332792292787896502688139661668364615742469505);
  }

  lemma QLow4(r: Residues)
    requires Closed(r, 74058212732561358302231226437062788676166966415465897661863160754340907) && r(114274377278138498233747652, 40688680805101588592102734332792292787896502688139661668364615742469505)
    requires r(1, 2) && r(3, 8) && r(4, 16) && r(5, 32) && r(6, 64) && r(7, 128)
    ensures r(239650738857602707847900356845476, 593108134046836163611118372097765501214679492636961049514195218046251)
  {
    hide *;
    Eighth(r, 74058212732561358302231226437062788676166966415465897661863160754340907, 114274377278138498233747652, 40688680805101588592102734332792292787896502688139661668364615742469505, 3, 8, 44777293032195950306999229438824625693916416402529125060476520480059304);
    Eighth(r, 74058212732561358302231226437062788676166966415465897661863160754340907, 914195018225107985869981219, 44777293032195950306999229438824625693916416402529125060476520480059304, 5, 32, 5714243634965736365600732601690172024192946701703246837947486037928481);
    Eighth(r, 74058212732561358302231226437062788676166966415465897661863160754340907, 7313560145800863886959849757, 5714243634965736365600732601690172024192946701703246837947486037928481, 1, 2, 25367839317771031639952215701897139861415218974366781842116251919875393);
    Eighth(r, 74058212732561358302231226437062788676166966415465897661863160754340907, 58508481166406911095678798057, 25367839317771031639952215701897139861415218974366781842116251919875393, 7, 128, 37997587183541663779003367602879257353611870065895468345626288664735173);
    Eighth(r, 74058212732561358302231226437062788676166966415465897661863160754340907, 468067849331255288765430384463, 37997587183541663779003367602879257353611870065895468345626288664735173, 6, 64, 37207812695334010458645991763120351975762241618636847401056575066841294);
    Eighth(r, 74058212732561358302231226437062788676166966415465897661863160754340907, 3744542794650042310123443075710, 37207812695334010458645991763120351975762241618636847401056575066841294, 4, 16, 25627939115667223615495161442228810027303364201690768059766515471224975);
    Eighth(r, 74058212732561358302231226437062788676166966415465897661863160754340907, 29956342357200338480987544605684, 25627939115667223615495161442228810027303364201690768059766515471224975, 4, 16, 593108134046836163611118372097765501214679492636961049514195218046251);
  }

  lemma QLow5(r: Residues)
    requires Closed(r, 74058212732561358302231226437062788676166966415465897661863160754340907) && r(239650738857602707847900356845476, 593108134046836163611118372097765501214679492636961049514195218046251)
    requires r(2, 4) && r(4, 16) && r(5, 32)
    ensures r(981609426360740691344999861639072106, 69490809710348678725736597923071784769591275419387514694139338586948360)
  {
    hide *;
    Eighth(r, 74058212732561358302231226437062788676166966415465897661863160754340907, 239650738857602707847900356845476, 593108134046836163611118372097765501214679492636961049514195218046251, 4, 16, 43572807545398728076739399730915348192078017524923048607277794141141400);
    Eighth(r, 74058212732561358302231226437062788676166966415465897661863160754340907, 1917205910860821662783202854763812, 43572807545398728076739399730915348192078017524923048607277794141141400, 5, 32, 59871792106663572955832521242387634588680708476662779603162677650268597);
    Eighth(r, 74058212732561358302231226437062788676166966415465897661863160754340907, 15337647286886573302265622838110501, 59871792106663572955832521242387634588680708476662779603162677650268597, 5, 32, 44759233612880384862059565985245276826796294382194269589621359021687200);
    Eighth(r, 74058212732561358302231226437062788676166966415465897661863160754340907, 122701178295092586418124982704884013, 44759233612880384862059565985245276826796294382194269589621359021687200, 2, 4, 69490809710348678725736597923071784769591275419387514694139338586948360);
  }

  lemma QRoot(r: Residues)
    requires Closed(r, 74058212732561358302231226437062788676166966415465897661863160754340907) && r(0, 1) && r(1, 2)
    ensures r(981609426360740691344999861639072106, 69490809710348678725736597923071784769591275419387514694139338586948360)
  {
    hide *;
    QLowPowers(r);
    QLow0(r);
    QLow1(r);
    QLow2(r);
    QLow3(r);
    QLow4(r);
    QLow5(r);
  }

  lemma QHighPowers(r: Residues)
    requires Closed(r, 74058212732561358302231226437062788676166966415465897661863160754340907) && r(1, 69490809710348678725736597923071784769591275419387514694139338586948360)
    ensures r(2, 71519616562801892103388382173053960292737390607941439804484891354816892)
    ensures r(3, 60088572800817055067699822372808465038996750913542726491088342583516430)
    ensures r(4, 55030008194384743958181590431271929872476671270259263517961091725645911)
    ensures r(5, 5798665008554761571499949256442297228620330668241050337112549466002860)
    ensures r(6, 17118629486375297366263869992172513952431928154535165163185382980175069)
    ensures r(7, 12146079979694244760788242387473291469587429348895797694501720504168483)
  {
    hide *;
    Next(r, 74058212732561358302231226437062788676166966415465897661863160754340907, 69490809710348678725736597923071784769591275419387514694139338586948360, 1, 69490809710348678725736597923071784769591275419387514694139338586948360, 71519616562801892103388382173053960292737390607941439804484891354816892);
    Next(r, 74058212732561358302231226437062788676166966415465897661863160754340907, 69490809710348678725736597923071784769591275419387514694139338586948360, 2, 71519616562801892103388382173053960292737390607941439804484891354816892, 60088572800817055067699822372808465038996750913542726491088342583516430);
    Next(r, 74058212732561358302231226437062788676166966415465897661863160754340907, 69490809710348678725736597923071784769591275419387514694139338586948360, 3, 60088572800817055067699822372808465038996750913542726491088342583516430, 55030008194384743958181590431271929872476671270259263517961091725645911);
    Next(r, 74058212732561358302231226437062788676166966415465897661863160754340907, 69490809710348678725736597923071784769591275419387514694139338586948360, 4, 55030008194384743958181590431271929872476671270259263517961091725645911, 5798665008554761571499949256442297228620330668241050337112549466002860);
    Next(r, 74058212732561358302231226437062788676166966415465897661863160754340907, 69490809710348678725736597923071784769591275419387514694139338586948360, 5, 5798665008554761571499949256442297228620330668241050337112549466002860, 17118629486375297366263869992172513952431928154535165163185382980175069);
    Next(r, 74058212732561358302231226437062788676166966415465897661863160754340907, 69490809710348678725736597923071784769591275419387514694139338586948360, 6, 17118629486375297366263869992172513952431928154535165163185382980175069, 12146079979694244760788242387473291469587429348895797694501720504168483);
  }

  lemma QHigh0(r: Residues)
    requires Closed(r, 74058212732561358302231226437062788676166966415465897661863160754340907) && r(3, 60088572800817055067699822372808465038996750913542726491088342583516430)
    requires r(0, 1) && r(2, 71519616562801892103388382173053960292737390607941439804484891354816892) && r(3, 60088572800817055067699822372808465038996750913542726491088342583516430) && r(5, 5798665008554761571499949256442297228620330668241050337112549466002860) && r(7, 12146079979694244760788242387473291469587429348895797694501720504168483)
    ensures r(7618069, 43016147267044533255360330744923395071930668403343685849810606499003547)
  {
    hide *;
    Eighth(r, 74058212732561358302231226437062788676166966415465897661863160754340907, 3, 60088572800817055067699822372808465038996750913542726491088342583516430, 5, 5798665008554761571499949256442297228620330668241050337112549466002860, 43721059054021941007937620727309150161093363790991491324210488256659733);
    Eighth(r, 74058212732561358302231226437062788676166966415465897661863160754340907, 29, 43721059054021941007937620727309150161093363790991491324210488256659733, 0, 1, 65005703843471046884297048267651581560333448911250758560582020233644526);
    Eighth(r, 74058212732561358302231226437062788676166966415465897661863160754340907, 232, 65005703843471046884297048267651581560333448911250758560582020233644526, 3, 60088572800817055067699822372808465038996750913542726491088342583516430, 60520719854243219452359807267076029475540889845657328400153334185602050);
    Eighth(r, 74058212732561358302231226437062788676166966415465897661863160754340907, 1859, 60520719854243219452359807267076029475540889845657328400153334185602050, 7, 12146079979694244760788242387473291469587429348895797694501720504168483, 44386420042930672904774800204028633739195555525872125164314896662021219);
    Eighth(r, 74058212732561358302231226437062788676166966415465897661863160754340907, 14879, 44386420042930672904774800204028633739195555525872125164314896662021219, 0, 1, 37661333353264301021608172432500049613005408045974469237840209302286578);
    Eighth(r, 74058212732561358302231226437062788676166966415465897661863160754340907, 119032, 37661333353264301021608172432500049613005408045974469237840209302286578, 2, 71519616562801892103388382173053960292737390607941439804484891354816892, 70800302450674573892742726391040867568412593492343041149342563322990053);
    Eighth(r, 74058212732561358302231226437062788676166966415465897661863160754340907, 952258, 70800302450674573892742726391040867568412593492343041149342563322990053, 5, 5798665008554761571499949256442297228620330668241050337112549466002860, 43016147267044533255360330744923395071930668403343685849810606499003547);
  }

  lemma QHigh1(r: Residues)
    requires Closed(r, 74058212732561358302231226437062788676166966415465897661863160754340907) && r(7618069, 43016147267044533255360330744923395071930668403343685849810606499003547)
    requires r(0, 1) && r(1, 69490809710348678725736597923071784769591275419387514694139338586948360) && r(3, 60088572800817055067699822372808465038996750913542726491088342583516430) && r(6, 17118629486375297366263869992172513952431928154535165163185382980175069) && r(7, 12146079979694244760788242387473291469587429348895797694501720504168483)
    ensures r(15976248932280, 31505606371679734915597632626915222924733724867874634384297152427674762)
  {
    hide *;
    Eighth(r, 74058212732561358302231226437062788676166966415465897661863160754340907, 7618069, 43016147267044533255360330744923395071930668403343685849810606499003547, 1, 69490809710348678725736597923071784769591275419387514694139338586948360, 30138998045167067039545138789380605446470916367358942309560691737030924);
    Eighth(r, 74058212732561358302231226437062788676166966415465897661863160754340907, 60944553, 30138998045167067039545138789380605446470916367358942309560691737030924, 0, 1, 27063767240421245371670393497775576037049557763079395928471369014354921);
    Eighth(r, 74058212732561358302231226437062788676166966415465897661863160754340907, 487556424, 27063767240421245371670393497775576037049557763079395928471369014354921, 7, 12146079979694244760788242387473291469587429348895797694501720504168483, 60522204641388360257719954407151554074121441222322640975335301043935729);
    Eighth(r, 74058212732561358302231226437062788676166966415465897661863160754340907, 3900451399, 60522204641388360257719954407151554074121441222322640975335301043935729, 3, 60088572800817055067699822372808465038996750913542726491088342583516430, 70026358427040506751005012594322903354664875418879215560212674228316401);
    Eighth(r, 74058212732561358302231226437062788676166966415465897661863160754340907, 31203611195, 70026358427040506751005012594322903354664875418879215560212674228316401, 6, 17118629486375297366263869992172513952431928154535165163185382980175069, 9115332237757384932281554698061847565289252530121841209344886891477265);
    Eighth(r, 74058212732561358302231226437062788676166966415465897661863160754340907, 249628889566, 9115332237757384932281554698061847565289252530121841209344886891477265, 7, 12146079979694244760788242387473291469587429348895797694501720504168483, 39029411345767429855283388972154723937832219281437205361763690687083932);
    Eighth(r, 74058212732561358302231226437062788676166966415465897661863160754340907, 1997031116535, 39029411345767429855283388972154723937832219281437205361763690687083932, 0, 1, 31505606371679734915597632626915222924733724867874634384297152427674762);
  }

  lemma QHigh2(r: Residues)
    requires Closed(r, 74058212732561358302231226437062788676166966415465897661863160754340907) && r(15976248932280, 31505606371679734915597632626915222924733724867874634384297152427674762)
    requires r(0, 1) && r(2, 71519616562801892103388382173053960292737390607941439804484891354816892) && r(3, 60088572800817055067699822372808465038996750913542726491088342583516430) && r(5, 5798665008554761571499949256442297228620330668241050337112549466002860) && r(7, 12146079979694244760788242387473291469587429348895797694501720504168483)
    ensures r(33504622400829043759, 8561294054536115214763048862812563300850391688772331354866046657087286)
  {
    hide *;
    Eighth(r, 74058212732561358302231226437062788676166966415465897661863160754340907, 15976248932280, 31505606371679734915597632626915222924733724867874634384297152427674762, 0, 1, 56259855649652985023487455234066437022742588223661817081389133021764288);
    Eighth(r, 74058212732561358302231226437062788676166966415465897661863160754340907, 127809991458240, 56259855649652985023487455234066437022742588223661817081389133021764288, 5, 5798665008554761571499949256442297228620330668241050337112549466002860, 5906885040421737832385902041286875095156901290711012408705425971392033);
    Eighth(r, 74058212732561358302231226437062788676166966415465897661863160754340907, 1022479931665925, 5906885040421737832385902041286875095156901290711012408705425971392033, 3, 60088572800817055067699822372808465038996750913542726491088342583516430, 60542823618953760195985956460082226097793212992085384377238442965085667);
    Eighth(r, 74058212732561358302231226437062788676166966415465897661863160754340907, 8179839453327403, 60542823618953760195985956460082226097793212992085384377238442965085667, 2, 71519616562801892103388382173053960292737390607941439804484891354816892, 25395140090164848658330976235476322931644535928932287388579706368372375);
    Eighth(r, 74058212732561358302231226437062788676166966415465897661863160754340907, 65438715626619226, 25395140090164848658330976235476322931644535928932287388579706368372375, 0, 1, 48158632485780896101307869594086028138883932934278980787520389481349380);
    Eighth(r, 74058212732561358302231226437062788676166966415465897661863160754340907, 523509725012953808, 48158632485780896101307869594086028138883932934278980787520389481349380, 5, 5798665008554761571499949256442297228620330668241050337112549466002860, 28741354823994296104102599167852568318234805925763761286590825576274052);
    Eighth(r, 74058212732561358302231226437062788676166966415465897661863160754340907, 4188077800103630469, 28741354823994296104102599167852568318234805925763761286590825576274052, 7, 12146079979694244760788242387473291469587429348895797694501720504168483, 8561294054536115214763048862812563300850391688772331354866046657087286);
  }

  lemma QHigh3(r: Residues)
    requires Closed(r, 74058212732561358302231226437062788676166966415465897661863160754340907) && r(33504622400829043759, 8561294054536115214763048862812563300850391688772331354866046657087286)
    requires r(0, 1) && r(1, 69490809710348678725736597923071784769591275419387514694139338586948360) && r(3, 60088572800817055067699822372808465038996750913542726491088342583516430) && r(4, 55030008194384743958181590431271929872476671270259263517961091725645911) && r(5, 5798665008554761571499949256442297228620330668241050337112549466002860) && r(7, 12146079979694244760788242387473291469587429348895797694501720504168483)
    ensures r(70264285877143430777593372, 13425488488152914968327258939250946223593136639521399437396685170183724)
  {
    hide *;
    Eighth(r, 74058212732561358302231226437062788676166966415465897661863160754340907, 33504622400829043759, 8561294054536115214763048862812563300850391688772331354866046657087286, 1, 69490809710348678725736597923071784769591275419387514694139338586948360, 33534202839170675392774773078084590756052566323445909790810864890538693);
    Eighth(r, 74058212732561358302231226437062788676166966415465897661863160754340907, 268036979206632350073, 33534202839170675392774773078084590756052566323445909790810864890538693, 1, 69490809710348678725736597923071784769591275419387514694139338586948360, 5933479754957687115263889334557200918118611157100847521435238470274640);
    Eighth(r, 74058212732561358302231226437062788676166966415465897661863160754340907, 2144295833653058800585, 5933479754957687115263889334557200918118611157100847521435238470274640, 5, 5798665008554761571499949256442297228620330668241050337112549466002860, 11741091190541849402442408807575640090437838923264796719928274115084710);
    Eighth(r, 74058212732561358302231226437062788676166966415465897661863160754340907, 17154366669224470404685, 11741091190541849402442408807575640090437838923264796719928274115084710, 7, 12146079979694244760788242387473291469587429348895797694501720504168483, 9609591384533456727184507870268536842446415018177214894865471534977656);
    Eighth(r, 74058212732561358302231226437062788676166966415465897661863160754340907, 137234933353795763237487, 9609591384533456727184507870268536842446415018177214894865471534977656, 0, 1, 2357229829368336086363968184068480706041449792849514555233597382899395);
    Eighth(r, 74058212732561358302231226437062788676166966415465897661863160754340907, 1097879466830366105899896, 2357229829368336086363968184068480706041449792849514555233597382899395, 3, 60088572800817055067699822372808465038996750913542726491088342583516430, 72673651261861536175686475248798047186166162359656255055487502527389771);
    Eighth(r, 74058212732561358302231226437062788676166966415465897661863160754340907, 8783035734642928847199171, 72673651261861536175686475248798047186166162359656255055487502527389771, 4, 55030008194384743958181590431271929872476671270259263517961091725645911, 13425488488152914968327258939250946223593136639521399437396685170183724);
  }

  lemma QHigh4(r: Residues)
    requires Closed(r, 74058212732561358302231226437062788676166966415465897661863160754340907) && r(70264285877143430777593372, 13425488488152914968327258939250946223593136639521399437396685170183724)
    requires r(1, 69490809710348678725736597923071784769591275419387514694139338586948360) && r(2, 71519616562801892103388382173053960292737390607941439804484891354816892) && r(6, 17118629486375297366263869992172513952431928154535165163185382980175069) && r(7, 12146079979694244760788242387473291469587429348895797694501720504168483)
    ensures r(147354887655823100142091497155985, 38488019720988126202545473782025695460388893290946876613681746821203094)
  {
    hide *;
    Eighth(r, 74058212732561358302231226437062788676166966415465897661863160754340907, 70264285877143430777593372, 13425488488152914968327258939250946223593136639521399437396685170183724, 7, 12146079979694244760788242387473291469587429348895797694501720504168483, 49048791545928503446991499418642506651376789147592086617207039224318778);
    Eighth(r, 74058212732561358302231226437062788676166966415465897661863160754340907, 562114287017147446220746983, 49048791545928503446991499418642506651376789147592086617207039224318778, 1, 69490809710348678725736597923071784769591275419387514694139338586948360, 13343515644713718985950547620931362457704974308825894258439671891400686);
    Eighth(r, 74058212732561358302231226437062788676166966415465897661863160754340907, 4496914296137179569765975865, 13343515644713718985950547620931362457704974308825894258439671891400686, 2, 71519616562801892103388382173053960292737390607941439804484891354816892, 20318828662040728653205584238680791815082056623166991293171589060093447);
    Eighth(r, 74058212732561358302231226437062788676166966415465897661863160754340907, 35975314369097436558127806922, 20318828662040728653205584238680791815082056623166991293171589060093447, 6, 17118629486375297366263869992172513952431928154535165163185382980175069, 60482700084958343193604755511764808881061662758304802174614941319599656);
    Eighth(r, 74058212732561358302231226437062788676166966415465897661863160754340907, 287802514952779492465022455382, 60482700084958343193604755511764808881061662758304802174614941319599656, 6, 17118629486375297366263869992172513952431928154535165163185382980175069, 39249534954968383205318994974143953668846356667305428427434957341157166);
    Eighth(r, 74058212732561358302231226437062788676166966415465897661863160754340907, 2302420119622235939720179643062, 39249534954968383205318994974143953668846356667305428427434957341157166, 2, 71519616562801892103388382173053960292737390607941439804484891354816892, 28926930436698826442651590268352887552066052455340698769046093842516466);
    Eighth(r, 74058212732561358302231226437062788676166966415465897661863160754340907, 18419360956977887517761437144498, 28926930436698826442651590268352887552066052455340698769046093842516466, 1, 69490809710348678725736597923071784769591275419387514694139338586948360, 38488019720988126202545473782025695460388893290946876613681746821203094);
  }

  lemma QHigh5(r: Residues)
    requires Closed(r, 74058212732561358302231226437062788676166966415465897661863160754340907) && r(147354887655823100142091497155985, 38488019720988126202545473782025695460388893290946876613681746821203094)
    requires r(1, 69490809710348678725736597923071784769591275419387514694139338586948360) && r(4, 55030008194384743958181590431271929872476671270259263517961091725645911) && r(7, 12146079979694244760788242387473291469587429348895797694501720504168483)
    ensures r(75445702479781427272750846543864801, 1)
  {
    hide *;
    Eighth(r, 74058212732561358302231226437062788676166966415465897661863160754340907, 147354887655823100142091497155985, 38488019720988126202545473782025695460388893290946876613681746821203094, 7, 12146079979694244760788242387473291469587429348895797694501720504168483, 12907812885971884836785182254276701148673432393349214887251598086222170);
    Eighth(r, 74058212732561358302231226437062788676166966415465897661863160754340907, 1178839101246584801136731977247887, 12907812885971884836785182254276701148673432393349214887251598086222170, 4, 55030008194384743958181590431271929872476671270259263517961091725645911, 39285681072268432588821901806463419609608610912967932440633128830786009);
    Eighth(r, 74058212732561358302231226437062788676166966415465897661863160754340907, 9430712809972678409093855817983100, 39285681072268432588821901806463419609608610912967932440633128830786009, 1, 69490809710348678725736597923071784769591275419387514694139338586948360, 1);
  }

  lemma QUnit(r: Residues)
    requires Closed(r, 74058212732561358302231226437062788676166966415465897661863160754340907) && r(0, 1) && r(1, 69490809710348678725736597923071784769591275419387514694139338586948360)
    ensures r(75445702479781427272750846543864801, 1)
  {
    hide *;
    QHighPowers(r);
    QHigh0(r);
    QHigh1(r);
    QHigh2(r);
    QHigh3(r);
    QHigh4(r);
    QHigh5(r);
  }

  lemma PrimeQ()
    ensures IsPrime(74058212732561358302231226437062788676166966415465897661863160754340907)
  {
    hide *;
    PrimeR();
    PowersClosed(2, 74058212732561358302231226437062788676166966415465897661863160754340907);
    QRoot(Powers(2, 74058212732561358302231226437062788676166966415465897661863160754340907));
    PowersClosed(69490809710348678725736597923071784769591275419387514694139338586948360, 74058212732561358302231226437062788676166966415465897661863160754340907);
    QUnit(Powers(69490809710348678725736597923071784769591275419387514694139338586948360, 74058212732561358302231226437062788676166966415465897661863160754340907));
    Criterion(74058212732561358302231226437062788676166966415465897661863160754340907, 75445702479781427272750846543864801, 2, 981609426360740691344999861639072106, 69490809710348678725736597923071784769591275419387514694139338586948360, 70463328703800545008217672123162676565183935400628861884889913886334520, 13, 815294123582136799238856568829693);
  }

  // ---------------------------------------------------------------- 2^255 - 19

  lemma PLowPowers(r: Residues)
    requires Closed(r, 57896044618658097711785492504343953926634992332820282019728792003956564819949) && r(1, 14802493890)
    ensures r(2, 219113825363487332100)
    ensures r(3, 3243431061157548262502650869000)
    ensures r(4, 48010868465420824483075605597175690410000)
    ensures r(5, 710680587112985430689489060260242958550556594900000)
    ensures r(6, 10519845048481579577440180301724088203860137252106455161000000)
    ensures r(7, 155719942053895335472607050756769172103460756088867192150261466290000000)
  {
    hide *;
    Next(r, 57896044618658097711785492504343953926634992332820282019728792003956564819949, 14802493890, 1, 14802493890, 219113825363487332100);
    Next(r, 57896044618658097711785492504343953926634992332820282019728792003956564819949, 14802493890, 2, 219113825363487332100, 3243431061157548262502650869000);
    Next(r, 57896044618658097711785492504343953926634992332820282019728792003956564819949, 14802493890, 3, 3243431061157548262502650869000, 48010868465420824483075605597175690410000);
    Next(r, 57896044618658097711785492504343953926634992332820282019728792003956564819949, 14802493890, 4, 48010868465420824483075605597175690410000, 710680587112985430689489060260242958550556594900000);
    Next(r, 57896044618658097711785492504343953926634992332820282019728792003956564819949, 14802493890, 5, 710680587112985430689489060260242958550556594900000, 10519845048481579577440180301724088203860137252106455161000000);
    Next(r, 57896044618658097711785492504343953926634992332820282019728792003956564819949, 14802493890, 6, 10519845048481579577440180301724088203860137252106455161000000, 155719942053895335472607050756769172103460756088867192150261466290000000);
  }

  lemma PLow0(r: Residues)
    requires Closed(r, 57896044618658097711785492504343953926634992332820282019728792003956564819949) && r(2, 219113825363487332100)
    requires r(0, 1) && r(4, 48010868465420824483075605597175690410000) && r(6, 10519845048481579577440180301724088203860137252106455161000000) && r(7, 155719942053895335472607050756769172103460756088867192150261466290000000)
    ensures r(781764, 20909520643987556847778711110693979710867742264783034635400894742951462752642)
  {
    hide *;
    Eighth(r, 57896044618658097711785492504343953926634992332820282019728792003956564819949, 2, 219113825363487332100, 7, 155719942053895335472607050756769172103460756088867192150261466290000000, 30129256464735735423483020594679295365567492346588100957500846576144663228678);
    Eighth(r, 57896044618658097711785492504343953926634992332820282019728792003956564819949, 23, 30129256464735735423483020594679295365567492346588100957500846576144663228678, 6, 10519845048481579577440180301724088203860137252106455161000000, 506387310611737031035383542174398733194714848832359122430348971807262576793);
    Eighth(r, 57896044618658097711785492504343953926634992332820282019728792003956564819949, 190, 506387310611737031035383542174398733194714848832359122430348971807262576793, 6, 10519845048481579577440180301724088203860137252106455161000000, 28248641501861826476300213997257709382297095456237442080090970525193220430812);
    Eighth(r, 57896044618658097711785492504343953926634992332820282019728792003956564819949, 1526, 28248641501861826476300213997257709382297095456237442080090970525193220430812, 7, 155719942053895335472607050756769172103460756088867192150261466290000000, 53626852941061121108021335973754691501534969915197621652593392377777161077096);
    Eighth(r, 57896044618658097711785492504343953926634992332820282019728792003956564819949, 12215, 53626852941061121108021335973754691501534969915197621652593392377777161077096, 0, 1, 38827674752012472584148166805405754266882464542435400170856957075821349575515);
    Eighth(r, 57896044618658097711785492504343953926634992332820282019728792003956564819949, 97720, 38827674752012472584148166805405754266882464542435400170856957075821349575515, 4, 48010868465420824483075605597175690410000, 20909520643987556847778711110693979710867742264783034635400894742951462752642);
  }

  lemma PRoot(r: Residues)
    requires Closed(r, 57896044618658097711785492504343953926634992332820282019728792003956564819949) && r(0, 1) && r(1, 14802493890)
    ensures r(781764, 20909520643987556847778711110693979710867742264783034635400894742951462752642)
  {
    hide *;
    PLowPowers(r);
    PLow0(r);
  }

  lemma PSquare0(r: Residues)
    requires Closed(r, 57896044618658097711785492504343953926634992332820282019728792003956564819949) && r(4, 48010868465420824483075605597175690410000) && r(0, 1)
    ensures r(8388608, 18670141597465213588469854650757408269989987902898039386038758970848799128808)
  {
    hide *;
    Eighth(r, 57896044618658097711785492504343953926634992332820282019728792003956564819949, 4, 48010868465420824483075605597175690410000, 0, 1, 28509796395938437450018148902051941869721324364730310757136096373123607995766);
    Eighth(r, 57896044618658097711785492504343953926634992332820282019728792003956564819949, 32, 28509796395938437450018148902051941869721324364730310757136096373123607995766, 0, 1, 21588641365131800784030307529687371026995650517593847913954918847981888649339);
    Eighth(r, 57896044618658097711785492504343953926634992332820282019728792003956564819949, 256, 21588641365131800784030307529687371026995650517593847913954918847981888649339, 0, 1, 23156156624548329396856025658006348098523323380759161165970745013797465227618);
    Eighth(r, 57896044618658097711785492504343953926634992332820282019728792003956564819949, 2048, 23156156624548329396856025658006348098523323380759161165970745013797465227618, 0, 1, 13225659751465583117365705250158564021866067028989394863186250540977651289607);
    Eighth(r, 57896044618658097711785492504343953926634992332820282019728792003956564819949, 16384, 13225659751465583117365705250158564021866067028989394863186250540977651289607, 0, 1, 23787184613206323714333605014868489984159387266122361889307654127872763659528);
    Eighth(r, 57896044618658097711785492504343953926634992332820282019728792003956564819949, 131072, 23787184613206323714333605014868489984159387266122361889307654127872763659528, 0, 1, 18325696931974082689110336108779798564527459143394578675072579837989667705052);
    Eighth(r, 57896044618658097711785492504343953926634992332820282019728792003956564819949, 1048576, 18325696931974082689110336108779798564527459143394578675072579837989667705052, 0, 1, 18670141597465213588469854650757408269989987902898039386038758970848799128808);
  }

  lemma PSquare1(r: Residues)
    requires Closed(r, 57896044618658097711785492504343953926634992332820282019728792003956564819949) && r(8388608, 18670141597465213588469854650757408269989987902898039386038758970848799128808) && r(0, 1)
    ensures r(17592186044416, 2192195643855404187405942332697935601727701614866088355410998780467790827985)
  {
    hide *;
    Eighth(r, 57896044618658097711785492504343953926634992332820282019728792003956564819949, 8388608, 18670141597465213588469854650757408269989987902898039386038758970848799128808, 0, 1, 35434404074870892911043591275031300170894958101070123208099791190700647539560);
    Eighth(r, 57896044618658097711785492504343953926634992332820282019728792003956564819949, 67108864, 35434404074870892911043591275031300170894958101070123208099791190700647539560, 0, 1, 32349458201149643812070855263897603186193790407828268369099843449030043078648);
    Eighth(r, 57896044618658097711785492504343953926634992332820282019728792003956564819949, 536870912, 32349458201149643812070855263897603186193790407828268369099843449030043078648, 0, 1, 35101590628532176156773154779560056774545011638699053550812381600632723670865);
    Eighth(r, 57896044618658097711785492504343953926634992332820282019728792003956564819949, 4294967296, 35101590628532176156773154779560056774545011638699053550812381600632723670865, 0, 1, 43860507877426657725586445091939222943145956776169267094321684046286691875012);
    Eighth(r, 57896044618658097711785492504343953926634992332820282019728792003956564819949, 34359738368, 43860507877426657725586445091939222943145956776169267094321684046286691875012, 0, 1, 51863223616670593632819549291408059799142846077979474341034860920294958011143);
    Eighth(r, 57896044618658097711785492504343953926634992332820282019728792003956564819949, 274877906944, 51863223616670593632819549291408059799142846077979474341034860920294958011143, 0, 1, 48577011376682745270928869244563487069638589103018547875964396138529137268390);
    Eighth(r, 57896044618658097711785492504343953926634992332820282019728792003956564819949, 2199023255552, 48577011376682745270928869244563487069638589103018547875964396138529137268390, 0, 1, 2192195643855404187405942332697935601727701614866088355410998780467790827985);
  }

  lemma PSquare2(r: Residues)
    requires Closed(r, 57896044618658097711785492504343953926634992332820282019728792003956564819949) && r(17592186044416, 2192195643855404187405942332697935601727701614866088355410998780467790827985) && r(0, 1)
    ensures r(36893488147419103232, 6577217997784344353569017992259581101466889204027688824012748320079627186858)
  {
    hide *;
    Eighth(r, 57896044618658097711785492504343953926634992332820282019728792003956564819949, 17592186044416, 2192195643855404187405942332697935601727701614866088355410998780467790827985, 0, 1, 52908685067940779494703495206925695161250201715258082965403475999294970451261);
    Eighth(r, 57896044618658097711785492504343953926634992332820282019728792003956564819949, 140737488355328, 52908685067940779494703495206925695161250201715258082965403475999294970451261, 0, 1, 16557057351221596574061797134873939484454735870780860544322103326828681429701);
    Eighth(r, 57896044618658097711785492504343953926634992332820282019728792003956564819949, 1125899906842624, 16557057351221596574061797134873939484454735870780860544322103326828681429701, 0, 1, 46534904662054884494271748988200010071244984021203964208285127858923040093204);
    Eighth(r, 57896044618658097711785492504343953926634992332820282019728792003956564819949, 9007199254740992, 46534904662054884494271748988200010071244984021203964208285127858923040093204, 0, 1, 31072414098919256450867325575716123544154899105242539332268191293609775087627);
    Eighth(r, 57896044618658097711785492504343953926634992332820282019728792003956564819949, 72057594037927936, 31072414098919256450867325575716123544154899105242539332268191293609775087627, 0, 1, 22784587496756082811336585368374336389105008533494191261957719947928519156829);
    Eighth(r, 57896044618658097711785492504343953926634992332820282019728792003956564819949, 576460752303423488, 22784587496756082811336585368374336389105008533494191261957719947928519156829, 0, 1, 18436711691456415550554273904665503245660398419482203184137673720869455870412);
    Eighth(r, 57896044618658097711785492504343953926634992332820282019728792003956564819949, 4611686018427387904, 18436711691456415550554273904665503245660398419482203184137673720869455870412, 0, 1, 6577217997784344353569017992259581101466889204027688824012748320079627186858);
  }

  lemma PSquare3(r: Residues)
    requires Closed(r, 57896044618658097711785492504343953926634992332820282019728792003956564819949) && r(36893488147419103232, 6577217997784344353569017992259581101466889204027688824012748320079627186858) && r(0, 1)
    ensures r(77371252455336267181195264, 29416535819064365306385082352912212692471245353349117034656830043696989804810)
  {
    hide *;
    Eighth(r, 57896044618658097711785492504343953926634992332820282019728792003956564819949, 36893488147419103232, 6577217997784344353569017992259581101466889204027688824012748320079627186858, 0, 1, 54235650249737757562083829352631265888031617245501787882690348161177098515588);
    Eighth(r, 57896044618658097711785492504343953926634992332820282019728792003956564819949, 295147905179352825856, 54235650249737757562083829352631265888031617245501787882690348161177098515588, 0, 1, 55520266936705853631408158197366141231280224092448026706531843080578061928784);
    Eighth(r, 57896044618658097711785492504343953926634992332820282019728792003956564819949, 2361183241434822606848, 55520266936705853631408158197366141231280224092448026706531843080578061928784, 0, 1, 32516219689444680232212048185873366281860104624452852301258450233305448778883);
    Eighth(r, 57896044618658097711785492504343953926634992332820282019728792003956564819949, 18889465931478580854784, 32516219689444680232212048185873366281860104624452852301258450233305448778883, 0, 1, 42260600825171482203622822423352605337567882701057045488422213314179194573358);
    Eighth(r, 57896044618658097711785492504343953926634992332820282019728792003956564819949, 151115727451828646838272, 42260600825171482203622822423352605337567882701057045488422213314179194573358, 0, 1, 30704327130845739476273475892614239936715344213452983195703787584462342880447);
    Eighth(r, 57896044618658097711785492504343953926634992332820282019728792003956564819949, 1208925819614629174706176, 30704327130845739476273475892614239936715344213452983195703787584462342880447, 0, 1, 44146539160509410281568739941642454202352900487653091155404219251585364122803);
    Eighth(r, 57896044618658097711785492504343953926634992332820282019728792003956564819949, 9671406556917033397649408, 44146539160509410281568739941642454202352900487653091155404219251585364122803, 0, 1, 29416535819064365306385082352912212692471245353349117034656830043696989804810);
  }

  lemma PSquare4(r: Residues)
    requires Closed(r, 57896044618658097711785492504343953926634992332820282019728792003956564819949) && r(77371252455336267181195264, 29416535819064365306385082352912212692471245353349117034656830043696989804810) && r(0, 1)
    ensures r(162259276829213363391578010288128, 23714746787264141787829501696795779574827602136028010534113633899025421400374)
  {
    hide *;
    Eighth(r, 57896044618658097711785492504343953926634992332820282019728792003956564819949, 77371252455336267181195264, 29416535819064365306385082352912212692471245353349117034656830043696989804810, 0, 1, 45610942060402854946892865447105350058342305025215870342932220035728506917403);
    Eighth(r, 57896044618658097711785492504343953926634992332820282019728792003956564819949, 618970019642690137449562112, 45610942060402854946892865447105350058342305025215870342932220035728506917403, 0, 1, 25583217903633886759437164697433095467297311189714184777889672013949291599444);
    Eighth(r, 57896044618658097711785492504343953926634992332820282019728792003956564819949, 4951760157141521099596496896, 25583217903633886759437164697433095467297311189714184777889672013949291599444, 0, 1, 45280108911758572225132855436173284179043572913623737511122502225894977647698);
    Eighth(r, 57896044618658097711785492504343953926634992332820282019728792003956564819949, 39614081257132168796771975168, 45280108911758572225132855436173284179043572913623737511122502225894977647698, 0, 1, 8028868165058353769749634507788896458029653107134681156423418816806215499273);
    Eighth(r, 57896044618658097711785492504343953926634992332820282019728792003956564819949, 316912650057057350374175801344, 8028868165058353769749634507788896458029653107134681156423418816806215499273, 0, 1, 8451598941926072993049210137418066890770192915412613699024578555248873207012);
    Eighth(r, 57896044618658097711785492504343953926634992332820282019728792003956564819949, 2535301200456458802993406410752, 8451598941926072993049210137418066890770192915412613699024578555248873207012, 0, 1, 6789253530319727032984415594336998944552525458093767070726273580966589300630);
    Eighth(r, 57896044618658097711785492504343953926634992332820282019728792003956564819949, 20282409603651670423947251286016, 6789253530319727032984415594336998944552525458093767070726273580966589300630, 0, 1, 23714746787264141787829501696795779574827602136028010534113633899025421400374);
  }

  lemma PSquare5(r: Residues)
    requires Closed(r, 57896044618658097711785492504343953926634992332820282019728792003956564819949) && r(162259276829213363391578010288128, 23714746787264141787829501696795779574827602136028010534113633899025421400374) && r(0, 1)
    ensures r(340282366920938463463374607431768211456, 1244366233459195210302767060592252528730427904001475054876284629176444729600)
  {
    hide *;
    Eighth(r, 57896044618658097711785492504343953926634992332820282019728792003956564819949, 162259276829213363391578010288128, 23714746787264141787829501696795779574827602136028010534113633899025421400374, 0, 1, 12281109877604234576461955486987214894146902421471757526728356620168379849024);
    Eighth(r, 57896044618658097711785492504343953926634992332820282019728792003956564819949, 1298074214633706907132624082305024, 12281109877604234576461955486987214894146902421471757526728356620168379849024, 0, 1, 30759582783182974024055067991383623859886512680706137129763025942746858322052);
    Eighth(r, 57896044618658097711785492504343953926634992332820282019728792003956564819949, 10384593717069655257060992658440192, 30759582783182974024055067991383623859886512680706137129763025942746858322052, 0, 1, 20213737929665275122841952051927830190373546201796644686054602823645730843407);
    Eighth(r, 57896044618658097711785492504343953926634992332820282019728792003956564819949, 83076749736557242056487941267521536, 20213737929665275122841952051927830190373546201796644686054602823645730843407, 0, 1, 26975145279993861151471754105538059661891130311148678191177519332359723496349);
    Eighth(r, 57896044618658097711785492504343953926634992332820282019728792003956564819949, 664613997892457936451903530140172288, 26975145279993861151471754105538059661891130311148678191177519332359723496349, 0, 1, 9188627352305638066238217152655274434127290907176039854108229325374748180019);
    Eighth(r, 57896044618658097711785492504343953926634992332820282019728792003956564819949, 5316911983139663491615228241121378304, 9188627352305638066238217152655274434127290907176039854108229325374748180019, 0, 1, 11411467839498883961739076938289650512061843812978038675231653339566409782623);
    Eighth(r, 57896044618658097711785492504343953926634992332820282019728792003956564819949, 42535295865117307932921825928971026432, 11411467839498883961739076938289650512061843812978038675231653339566409782623, 0, 1, 1244366233459195210302767060592252528730427904001475054876284629176444729600);
  }

  lemma PSquare6(r: Residues)
    requires Closed(r, 57896044618658097711785492504343953926634992332820282019728792003956564819949) && r(340282366920938463463374607431768211456, 1244366233459195210302767060592252528730427904001475054876284629176444729600) && r(0, 1)
    ensures r(713623846352979940529142984724747568191373312, 21880281621763267552530355780745638294770186680921237063544281195148333418250)
  {
    hide *;
    Eighth(r, 57896044618658097711785492504343953926634992332820282019728792003956564819949, 340282366920938463463374607431768211456, 1244366233459195210302767060592252528730427904001475054876284629176444729600, 0, 1, 2594001002537911895410131696930750254785462486610948675136444378024206945508);
    Eighth(r, 57896044618658097711785492504343953926634992332820282019728792003956564819949, 2722258935367507707706996859454145691648, 2594001002537911895410131696930750254785462486610948675136444378024206945508, 0, 1, 23504683243347535394697212973960216795420852827578620739532830531348428558857);
    Eighth(r, 57896044618658097711785492504343953926634992332820282019728792003956564819949, 21778071482940061661655974875633165533184, 23504683243347535394697212973960216795420852827578620739532830531348428558857, 0, 1, 18598574981007151875564033152990219461461649784190297352230597012922588926802);
    Eighth(r, 57896044618658097711785492504343953926634992332820282019728792003956564819949, 174224571863520493293247799005065324265472, 18598574981007151875564033152990219461461649784190297352230597012922588926802, 0, 1, 18695519381745534936881613331842326766019604787577012607534316608811552435108);
    Eighth(r, 57896044618658097711785492504343953926634992332820282019728792003956564819949, 1393796574908163946345982392040522594123776, 18695519381745534936881613331842326766019604787577012607534316608811552435108, 0, 1, 26808254997746236971417538231001969641261608694525632454657840691431934340372);
    Eighth(r, 57896044618658097711785492504343953926634992332820282019728792003956564819949, 11150372599265311570767859136324180752990208, 26808254997746236971417538231001969641261608694525632454657840691431934340372, 0, 1, 48606025384422865279234896706743518602166209809699389627922727472278909369173);
    Eighth(r, 57896044618658097711785492504343953926634992332820282019728792003956564819949, 89202980794122492566142873090593446023921664, 48606025384422865279234896706743518602166209809699389627922727472278909369173, 0, 1, 21880281621763267552530355780745638294770186680921237063544281195148333418250);
  }

  lemma PSquare7(r: Residues)
    requires Closed(r, 57896044618658097711785492504343953926634992332820282019728792003956564819949) && r(713623846352979940529142984724747568191373312, 21880281621763267552530355780745638294770186680921237063544281195148333418250) && r(0, 1)
    ensures r(1496577676626844588240573268701473812127674924007424, 32307529280299074329281536758613525223773112183239292625937787910751786309662)
  {
    hide *;
    Eighth(r, 57896044618658097711785492504343953926634992332820282019728792003956564819949, 713623846352979940529142984724747568191373312, 21880281621763267552530355780745638294770186680921237063544281195148333418250, 0, 1, 56233255020895931276605165644689213462345145495839070245163286519996480777703);
    Eighth(r, 57896044618658097711785492504343953926634992332820282019728792003956564819949, 5708990770823839524233143877797980545530986496, 56233255020895931276605165644689213462345145495839070245163286519996480777703, 0, 1, 37396398398717492645148685184264545077259450087201249269007547609629367242834);
    Eighth(r, 57896044618658097711785492504343953926634992332820282019728792003956564819949, 45671926166590716193865151022383844364247891968, 37396398398717492645148685184264545077259450087201249269007547609629367242834, 0, 1, 33861160041426512156662157711653338006560636454898418718139011441744557986383);
    Eighth(r, 57896044618658097711785492504343953926634992332820282019728792003956564819949, 365375409332725729550921208179070754913983135744, 33861160041426512156662157711653338006560636454898418718139011441744557986383, 0, 1, 46212485786632469268317742938898592103767421886095070312100935042794709390170);
    Eighth(r, 57896044618658097711785492504343953926634992332820282019728792003956564819949, 2923003274661805836407369665432566039311865085952, 46212485786632469268317742938898592103767421886095070312100935042794709390170, 0, 1, 7326572153072830451121293030526604872208937934863995078394010081569243251887);
    Eighth(r, 57896044618658097711785492504343953926634992332820282019728792003956564819949, 23384026197294446691258957323460528314494920687616, 7326572153072830451121293030526604872208937934863995078394010081569243251887, 0, 1, 7817437262449338044379776359297426536176092800075335395345038844257003508697);
    Eighth(r, 57896044618658097711785492504343953926634992332820282019728792003956564819949, 187072209578355573530071658587684226515959365500928, 7817437262449338044379776359297426536176092800075335395345038844257003508697, 0, 1, 32307529280299074329281536758613525223773112183239292625937787910751786309662);
  }

  lemma PSquare8(r: Residues)
    requires Closed(r, 57896044618658097711785492504343953926634992332820282019728792003956564819949) && r(1496577676626844588240573268701473812127674924007424, 32307529280299074329281536758613525223773112183239292625937787910751786309662) && r(0, 1)
    ensures r(3138550867693340381917894711603833208051177722232017256448, 13378993340625682808267540934433796501940092296655949330636902533241451993154)
  {
    hide *;
    Eighth(r, 57896044618658097711785492504343953926634992332820282019728792003956564819949, 1496577676626844588240573268701473812127674924007424, 32307529280299074329281536758613525223773112183239292625937787910751786309662, 0, 1, 21803101945728759376857006796496268224038860040287117390373392306163713903083);
    Eighth(r, 57896044618658097711785492504343953926634992332820282019728792003956564819949, 11972621413014756705924586149611790497021399392059392, 21803101945728759376857006796496268224038860040287117390373392306163713903083, 0, 1, 30413974582434954689839211250779142599437767055019369748185235681074019203706);
    Eighth(r, 57896044618658097711785492504343953926634992332820282019728792003956564819949, 95780971304118053647396689196894323976171195136475136, 30413974582434954689839211250779142599437767055019369748185235681074019203706, 0, 1, 32896942762773272168131574045370776735538925913770561981253992303557799589918);
    Eighth(r, 57896044618658097711785492504343953926634992332820282019728792003956564819949, 766247770432944429179173513575154591809369561091801088, 32896942762773272168131574045370776735538925913770561981253992303557799589918, 0, 1, 41558680913697819331222650856938707713162044757033805576101204531152417790577);
    Eighth(r, 57896044618658097711785492504343953926634992332820282019728792003956564819949, 6129982163463555433433388108601236734474956488734408704, 41558680913697819331222650856938707713162044757033805576101204531152417790577, 0, 1, 45938237053818560765668471801922527926861812895539712445482194070351583532171);
    Eighth(r, 57896044618658097711785492504343953926634992332820282019728792003956564819949, 49039857307708443467467104868809893875799651909875269632, 45938237053818560765668471801922527926861812895539712445482194070351583532171, 0, 1, 30679451761757717251924852246688505772903100830431787736780575174406603442546);
    Eighth(r, 57896044618658097711785492504343953926634992332820282019728792003956564819949, 392318858461667547739736838950479151006397215279002157056, 30679451761757717251924852246688505772903100830431787736780575174406603442546, 0, 1, 13378993340625682808267540934433796501940092296655949330636902533241451993154);
  }

  lemma PSquare9(r: Residues)
    requires Closed(r, 57896044618658097711785492504343953926634992332820282019728792003956564819949) && r(3138550867693340381917894711603833208051177722232017256448, 13378993340625682808267540934433796501940092296655949330636902533241451993154) && r(0, 1)
    ensures r(6582018229284824168619876730229402019930943462534319453394436096, 17255744743645042171696307648650651045281229442187800136109127464058208986099)
  {
    hide *;
    Eighth(r, 57896044618658097711785492504343953926634992332820282019728792003956564819949, 3138550867693340381917894711603833208051177722232017256448, 13378993340625682808267540934433796501940092296655949330636902533241451993154, 0, 1, 2006126025644803700337756333214919553165984822010544439831636136108795752468);
    Eighth(r, 57896044618658097711785492504343953926634992332820282019728792003956564819949, 25108406941546723055343157692830665664409421777856138051584, 2006126025644803700337756333214919553165984822010544439831636136108795752468, 0, 1, 27017737527117550733661752702549093510330008598058077818276614513017713433853);
    Eighth(r, 57896044618658097711785492504343953926634992332820282019728792003956564819949, 200867255532373784442745261542645325315275374222849104412672, 27017737527117550733661752702549093510330008598058077818276614513017713433853, 0, 1, 56403049841317064940620961715236205526636431982501570545692676274236957899841);
    Eighth(r, 57896044618658097711785492504343953926634992332820282019728792003956564819949, 1606938044258990275541962092341162602522202993782792835301376, 56403049841317064940620961715236205526636431982501570545692676274236957899841, 0, 1, 53838241668681468117082255473278945494980997767682732575658519167408350315130);
    Eighth(r, 57896044618658097711785492504343953926634992332820282019728792003956564819949, 12855504354071922204335696738729300820177623950262342682411008, 53838241668681468117082255473278945494980997767682732575658519167408350315130, 0, 1, 31146071799088074106899617742194441846815642895324712456127675884039827670987);
    Eighth(r, 57896044618658097711785492504343953926634992332820282019728792003956564819949, 102844034832575377634685573909834406561420991602098741459288064, 31146071799088074106899617742194441846815642895324712456127675884039827670987, 0, 1, 49409784179166213451083974559140130806309689772605989716029598935792051565598);
    Eighth(r, 57896044618658097711785492504343953926634992332820282019728792003956564819949, 822752278660603021077484591278675252491367932816789931674304512, 49409784179166213451083974559140130806309689772605989716029598935792051565598, 0, 1, 17255744743645042171696307648650651045281229442187800136109127464058208986099);
  }

  lemma PSquare10(r: Residues)
    requires Closed(r, 57896044618658097711785492504343953926634992332820282019728792003956564819949) && r(6582018229284824168619876730229402019930943462534319453394436096, 17255744743645042171696307648650651045281229442187800136109127464058208986099) && r(0, 1)
    ensures r(13803492693581127574869511724554050904902217944340773110325048447598592, 11891283767047069373685758169710652240324238311297456303532168920627239979437)
  {
    hide *;
    Eighth(r, 57896044618658097711785492504343953926634992332820282019728792003956564819949, 6582018229284824168619876730229402019930943462534319453394436096, 17255744743645042171696307648650651045281229442187800136109127464058208986099, 0, 1, 34786672983530267810632937592586517557988047760537036189372002794915845238484);
    Eighth(r, 57896044618658097711785492504343953926634992332820282019728792003956564819949, 52656145834278593348959013841835216159447547700274555627155488768, 34786672983530267810632937592586517557988047760537036189372002794915845238484, 0, 1, 23549833513359492507022365311160972244029947579870585466926382331992158519156);
    Eighth(r, 57896044618658097711785492504343953926634992332820282019728792003956564819949, 421249166674228746791672110734681729275580381602196445017243910144, 23549833513359492507022365311160972244029947579870585466926382331992158519156, 0, 1, 57291428567030016954944975830755097181413690905016157665985538278274728665232);
    Eighth(r, 57896044618658097711785492504343953926634992332820282019728792003956564819949, 3369993333393829974333376885877453834204643052817571560137951281152, 57291428567030016954944975830755097181413690905016157665985538278274728665232, 0, 1, 53632167173938847999210452190169076108170334219876732238289368430013038346422);
    Eighth(r, 57896044618658097711785492504343953926634992332820282019728792003956564819949, 26959946667150639794667015087019630673637144422540572481103610249216, 53632167173938847999210452190169076108170334219876732238289368430013038346422, 0, 1, 55633433150661879514242586858649166091422807580873424043300136662524259710099);
    Eighth(r, 57896044618658097711785492504343953926634992332820282019728792003956564819949, 215679573337205118357336120696157045389097155380324579848828881993728, 55633433150661879514242586858649166091422807580873424043300136662524259710099, 0, 1, 3929254949104012520378223658359973534346163905924936826858223791405046976765);
    Eighth(r, 57896044618658097711785492504343953926634992332820282019728792003956564819949, 1725436586697640946858688965569256363112777243042596638790631055949824, 3929254949104012520378223658359973534346163905924936826858223791405046976765, 0, 1, 11891283767047069373685758169710652240324238311297456303532168920627239979437);
  }

  lemma PSquare11(r: Residues)
    requires Closed(r, 57896044618658097711785492504343953926634992332820282019728792003956564819949) && r(13803492693581127574869511724554050904902217944340773110325048447598592, 11891283767047069373685758169710652240324238311297456303532168920627239979437) && r(0, 1)
    ensures r(28948022309329048855892746252171976963317496166410141009864396001978282409984, 54686555176289196283788498487644596145951037016172447251100453756285969235054)
  {
    hide *;
    Eighth(r, 57896044618658097711785492504343953926634992332820282019728792003956564819949, 13803492693581127574869511724554050904902217944340773110325048447598592, 11891283767047069373685758169710652240324238311297456303532168920627239979437, 0, 1, 56278332839605100919800815205515029242304765846791271539269425148179644579444);
    Eighth(r, 57896044618658097711785492504343953926634992332820282019728792003956564819949, 110427941548649020598956093796432407239217743554726184882600387580788736, 56278332839605100919800815205515029242304765846791271539269425148179644579444, 0, 1, 13685878990990155184555541740344666536265541772670324069161917667901199340240);
    Eighth(r, 57896044618658097711785492504343953926634992332820282019728792003956564819949, 883423532389192164791648750371459257913741948437809479060803100646309888, 13685878990990155184555541740344666536265541772670324069161917667901199340240, 0, 1, 22868212329134358456590552500006705590040247975500419907333604691012612289649);
    Eighth(r, 57896044618658097711785492504343953926634992332820282019728792003956564819949, 7067388259113537318333190002971674063309935587502475832486424805170479104, 22868212329134358456590552500006705590040247975500419907333604691012612289649, 0, 1, 37839598401099364931191770058441724611791097766681311163535480401334330263547);
    Eighth(r, 57896044618658097711785492504343953926634992332820282019728792003956564819949, 56539106072908298546665520023773392506479484700019806659891398441363832832, 37839598401099364931191770058441724611791097766681311163535480401334330263547, 0, 1, 39520885367663521732054678253897175312698161401896705204119375818548485453593);
    Eighth(r, 57896044618658097711785492504343953926634992332820282019728792003956564819949, 452312848583266388373324160190187140051835877600158453279131187530910662656, 39520885367663521732054678253897175312698161401896705204119375818548485453593, 0, 1, 31141347363267998024470162607714272485527890081911633256976287351327219343929);
    Eighth(r, 57896044618658097711785492504343953926634992332820282019728792003956564819949, 3618502788666131106986593281521497120414687020801267626233049500247285301248, 31141347363267998024470162607714272485527890081911633256976287351327219343929, 0, 1, 54686555176289196283788498487644596145951037016172447251100453756285969235054);
  }

  /** (2^255 - 20)/2 = 2^254 - 10: Euler's criterion for the base 14802493890. */
  lemma Euler(a: int) returns (h: nat)
    requires a == 14802493890
    ensures 2 * h + 1 == 57896044618658097711785492504343953926634992332820282019728792003956564819949 && Cong(Pow(a, h), -1, 57896044618658097711785492504343953926634992332820282019728792003956564819949)
  {
    hide *;
    var r := Powers(a, 57896044618658097711785492504343953926634992332820282019728792003956564819949);
    PowersClosed(a, 57896044618658097711785492504343953926634992332820282019728792003956564819949);
    PLowPowers(r);
    PSquare0(r);
    PSquare1(r);
    PSquare2(r);
    PSquare3(r);
    PSquare4(r);
    PSquare5(r);
    PSquare6(r);
    PSquare7(r);
    PSquare8(r);
    PSquare9(r);
    PSquare10(r);
    PSquare11(r);
    h := 28948022309329048855892746252171976963317496166410141009864396001978282409984 - 10;
    Join(r, 57896044618658097711785492504343953926634992332820282019728792003956564819949, 7, 155719942053895335472607050756769172103460756088867192150261466290000000, 3, 3243431061157548262502650869000, 3209489442368901427996994016699357780683955316647834768628338247670595584895);
    DivideOut(a, h, 10, 54686555176289196283788498487644596145951037016172447251100453756285969235054, 3209489442368901427996994016699357780683955316647834768628338247670595584895, 22571988531510128932104652350750214285099811992296436618291025342535579339314, 57896044618658097711785492504343953926634992332820282019728792003956564819949);
  }

  lemma Join(r: Residues, m: int, e: int, x: int, f: int, y: int, z: int)
    requires Closed(r, m) && r(e, x) && r(f, y) && x * y % m == z
    ensures r(e + f, z)
  {
    assert r(e + f, Times(x, y, m));
  }

  /** From a^(h+k) = -a^k, with a^k a unit, follows a^h = -1. */
  lemma DivideOut(a: int, h: nat, k: nat, z: int, t: int, inv: int, p: int)
    requires p >= 2 && Powers(a, p)(h + k, z) && Powers(a, p)(k, t)
    requires (z + t) % p == 0 && inv * t % p == 1
    ensures Cong(Pow(a, h), -1, p)
  {
    PowAdd(a, h, k);
    DivideOutFactor(Pow(a, h), Pow(a, k), Pow(a, h + k), z, t, inv, p);
  }

  lemma DivideOutFactor(x: int, y: int, w: int, z: int, t: int, inv: int, p: int)
    requires p >= 2 && w == x * y && w % p == z && y % p == t
    requires (z + t) % p == 0 && inv * t % p == 1
    ensures Cong(x, -1, p)
  {
    CongMod(w, p);
    CongMod(y, p);
    CongScale(x, y, t, p);
    CongAdd(x * t, z, t, t, p);
    CongReduced1(p);
    UnitTimes(x + 1, x * t + t, t, inv, p);
    CongSub(x + 1, 0, 1, 1, p);
  }

  lemma UnitTimes(y: int, m: int, t: int, inv: int, p: int)
    requires p > 0 && m == y * t && Cong(m, 0, p) && Cong(inv * t, 1, p)
    ensures Cong(y, 0, p)
  {
    CongScale(inv, m, 0, p);
    CongScale(y, inv * t, 1, p);
    assert inv * m == y * (inv * t);
  }

  lemma PrimeP()
    ensures IsPrime(57896044618658097711785492504343953926634992332820282019728792003956564819949)
  {
    hide *;
    PrimeQ();
    var h := Euler(14802493890);
    PowersClosed(14802493890, 57896044618658097711785492504343953926634992332820282019728792003956564819949);
    PRoot(Powers(14802493890, 57896044618658097711785492504343953926634992332820282019728792003956564819949));
    EulerCriterion(57896044618658097711785492504343953926634992332820282019728792003956564819949, 74058212732561358302231226437062788676166966415465897661863160754340907, 14802493890, h, 781764, 20909520643987556847778711110693979710867742264783034635400894742951462752642, 3028103445185691201823788458927359826302338697109258327247741379376329895047, 0, 781764);
  }
}
