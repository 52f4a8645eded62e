/** Key generation of tincver/client/esa_client.py: double-and-add, clamping of the digest and
    the 32-byte point encoding. */
module ClientKey {
  import opened Numbers
  import opened Edwards
  import opened EdwardsGroup
  import opened Ed25519

  const TWO_248: nat := 0x1_00000000000000_000000000000000000_00000000000000_0000000000000000
  const TWO_251: nat := 8 * TWO_248
  const TWO_254: nat := 64 * TWO_248
  const TWO_255: nat := 128 * TWO_248

  // ---------------------------------------------------------------- double-and-add

  function BitLength(n: nat): nat {
    if n == 0 then 0 else 1 + BitLength(n / 2)
  }

  /** `_scalar_mult_base`, with the curve and the base point as arguments: the scalar-fold sum of
      the base point, in one turn per bit. */
  method ScalarMultBase(c: Curve, base: Point, scalar: nat) returns (result: Point, ghost turns: nat)
    requires c.Valid() && OnCurve(c, base)
    ensures result == Times(c, scalar, base)
    ensures turns == BitLength(scalar)
  {
    NeutralOnCurve(c);
    result := NEUTRAL;
    var addend, rest := base, scalar;
    turns := 0;
    TimesOnCurve(c, scalar, base);
    NeutralLeft(c, Times(c, scalar, base));
    while rest != 0
      invariant OnCurve(c, result) && OnCurve(c, addend)
      invariant Add(c, result, Times(c, rest, addend)) == Times(c, scalar, base)
      invariant turns + BitLength(rest) == BitLength(scalar)
    {
      Turn(c, result, addend, rest);
      if rest % 2 == 1 {
        result := Add(c, result, addend);
      }
      addend := Add(c, addend, addend);
      rest := rest / 2;
      turns := turns + 1;
    }
    Commutes(c, result, NEUTRAL);
    NeutralLeft(c, result);
  }

  /** One turn of the loop keeps the total. */
  lemma Turn(c: Curve, result: Point, addend: Point, rest: nat)
    requires c.Valid() && OnCurve(c, result) && OnCurve(c, addend) && rest != 0
    ensures
      var next := if rest % 2 == 1 then Add(c, result, addend) else result;
      && OnCurve(c, next) && OnCurve(c, Add(c, addend, addend))
      && Add(c, next, Times(c, rest / 2, Add(c, addend, addend))) == Add(c, result, Times(c, rest, addend))
  {
    var h := rest / 2;
    Closed(c, addend, addend);
    Closed(c, result, addend);
    TimesDouble(c, h, addend);
    if rest % 2 == 1 {
      assert rest == 1 + 2 * h;
      TimesAdd(c, 1, 2 * h, addend);
      NeutralLeft(c, addend);
      assert Times(c, 1, addend) == Add(c, Times(c, 0, addend), addend);
      TimesOnCurve(c, 2 * h, addend);
      Associative(c, result, addend, Times(c, 2 * h, addend));
    } else {
      assert rest == 2 * h;
    }
  }

  lemma {:induction false} BitLengthOf(n: nat, low: nat, bits: nat)
    requires low == Pow(2, bits) && low <= n < 2 * low
    ensures BitLength(n) == bits + 1
  {
    if bits == 0 {
      assert n == 1 && BitLength(0) == 0;
    } else {
      PowUnfold(2, bits);
      PowPositive(2, bits - 1);
      BitLengthOf(n / 2, Pow(2, bits - 1), bits - 1);
    }
  }

  // ---------------------------------------------------------------- little-endian bytes

  function LittleEndian(b: seq<bv8>): nat {
    if b == [] then 0 else b[0] as nat + 256 * LittleEndian(b[1..])
  }

  lemma QuotientBound(v: nat, n: nat)
    requires n > 0 && v < Pow(256, n)
    ensures v / 256 < Pow(256, n - 1)
  {
    PowUnfold(256, n);
  }

  /** A byte from its bits, most significant first. */
  function Byte(x: nat): (b: bv8)
    requires x < 256
    ensures b as nat == x
  {
    if x < 2 then if x == 0 then 0 else 1 else
    var b := Byte(x / 2);
    HighBitClear(b);
    ShiftIn(b, x % 2 == 1)
  }

  function ShiftIn(b: bv8, bit: bool): (r: bv8)
    requires b < 128
    ensures r as nat == 2 * (b as nat) + if bit then 1 else 0
  {
    if bit then b + b + 1 else b + b
  }

  lemma HighBitSet(b: bv8)
    ensures b >= 128 ==> b as nat >= 128
  {
  }

  lemma HighBitClear(b: bv8)
    requires b as nat < 128
    ensures b < 128
  {
    HighBitSet(b);
  }

  function LowByte(v: nat): (b: bv8)
    ensures b as nat + 256 * (v / 256) == v
  {
    Byte(v % 256)
  }

  /** int.to_bytes(n, "little") */
  function ToBytes(v: nat, n: nat): (b: seq<bv8>)
    requires v < Pow(256, n)
    ensures |b| == n && LittleEndian(b) == v
  {
    if n == 0 then [] else
    QuotientBound(v, n);
    var rest := ToBytes(v / 256, n - 1);
    var low := LowByte(v);
    LittleEndianCons(low, rest);
    [low] + rest
  }

  lemma LittleEndianCons(b: bv8, rest: seq<bv8>)
    ensures LittleEndian([b] + rest) == b as nat + 256 * LittleEndian(rest)
  {
    assert ([b] + rest)[1..] == rest;
  }

  lemma ShiftTerm(d: int, k: nat)
    requires k > 0
    ensures 256 * (d * Pow(256, k - 1)) == d * Pow(256, k)
    ensures 256 * Pow(256, k - 1) == Pow(256, k)
  {
    PowUnfold(256, k);
    var p := Pow(256, k - 1);
    assert 256 * (d * p) == d * (256 * p);
  }

  lemma {:induction false} LittleEndianUpdate(b: seq<bv8>, k: nat, v: bv8, d: int)
    requires k < |b| && d == v as int - b[k] as int
    ensures LittleEndian(b[k := v]) == LittleEndian(b) + d * Pow(256, k)
  {
    assert b == [b[0]] + b[1..];
    LittleEndianCons(b[0], b[1..]);
    if k == 0 {
      assert b[0 := v] == [v] + b[1..];
      LittleEndianCons(v, b[1..]);
      PowZero(256, d);
    } else {
      var c := b[1..][k - 1 := v];
      assert b[k := v] == [b[0]] + c;
      LittleEndianCons(b[0], c);
      LittleEndianUpdate(b[1..], k - 1, v, d);
      ShiftTerm(d, k);
    }
    hide Pow, LittleEndian;
  }

  lemma PowZero(b: int, d: int)
    ensures d * Pow(b, 0) == d
  {
  }

  lemma {:induction false} LittleEndianSplit(b: seq<bv8>, k: nat)
    requires k <= |b|
    ensures LittleEndian(b) == LittleEndian(b[..k]) + Pow(256, k) * LittleEndian(b[k..])
    ensures LittleEndian(b[..k]) < Pow(256, k)
  {
    if k == 0 {
      assert b[0..] == b && b[..0] == [];
    } else {
      LittleEndianSplit(b[1..], k - 1);
      assert b[1..][..k - 1] == b[..k][1..] && b[1..][k - 1..] == b[k..];
      ShiftTerm(LittleEndian(b[k..]), k);
      SplitStep(b[0] as nat, LittleEndian(b[1..][..k - 1]), Pow(256, k - 1), LittleEndian(b[k..]));
    }
  }

  lemma SplitStep(b: nat, low: nat, p: int, t: nat)
    requires b < 256 && low < p
    ensures b + 256 * (low + p * t) == b + 256 * low + 256 * p * t
    ensures b + 256 * low < 256 * p
  {
  }

  lemma TopByteWeight()
    ensures Pow(256, 31) == TWO_248 && Pow(256, 32) == 256 * TWO_248
  {
    assert Pow(256, 8) == 0x1_0000000000000000;
    PowAdd(256, 8, 8);
    PowAdd(256, 16, 8);
    assert Pow(256, 7) == 0x1_00000000000000;
    PowAdd(256, 24, 7);
    PowUnfold(256, 32);
  }

  // ---------------------------------------------------------------- clamping

  lemma ClampMasks(b: bv8)
    ensures (b & 248) as int == b as int - b as int % 8
    ensures ((b & 63) | 64) as int == b as int % 64 + 64
  {
  }

  /** Clamping, said by its bits: bits 0 to 2 are clear, bit 254 is the highest, and bits 3 to 253
      are those of the digest's low half. */
  ghost predicate IsClamped(scalar: nat, digest: seq<bv8>)
    requires |digest| == 64
  {
    && scalar % 8 == 0 && TWO_254 <= scalar < TWO_255
    && scalar / 8 % TWO_251 == LittleEndian(digest[..32]) / 8 % TWO_251
  }

  /** That leaves one scalar. */
  lemma ClampedOnce(digest: seq<bv8>, m: nat, n: nat)
    requires |digest| == 64 && IsClamped(m, digest) && IsClamped(n, digest)
    ensures m == n
  {
    KeptBits(m);
    KeptBits(n);
  }

  lemma KeptBits(n: nat)
    requires n % 8 == 0 && TWO_254 <= n < TWO_255
    ensures n == TWO_254 + n / 8 % TWO_251 * 8
  {
    ModUnique(n / 8, n / 8 - TWO_251, 1, TWO_251);
  }

  lemma ClampedKeepsBits(digest: seq<bv8>)
    requires |digest| == 64
    ensures IsClamped(ClampedScalar(digest), digest)
  {
    ClampedRange(digest);
    KeepBits(LittleEndian(digest[..32]));
  }

  lemma KeepBits(v: nat)
    ensures (TWO_254 + v % TWO_254 / 8 * 8) / 8 % TWO_251 == v / 8 % TWO_251
  {
    var r := v % TWO_254;
    var s := TWO_254 + r / 8 * 8;
    assert v == r + v / TWO_254 * TWO_254;
    assert s / 8 == r / 8 + TWO_251;
    assert v / 8 == r / 8 + v / TWO_254 * TWO_251;
    ModUnique(s / 8, r / 8, 1, TWO_251);
    ModUnique(v / 8, r / 8, v / TWO_254, TWO_251);
  }

  /** The scalar a digest yields: bit 254 set, bits 0 to 2 and 255 cleared, the others kept. */
  function ClampedScalar(digest: seq<bv8>): nat
    requires |digest| == 64
  {
    TWO_254 + LittleEndian(digest[..32]) % TWO_254 / 8 * 8
  }

  /** The three masks of generate_ed25519_keypair, in place on the digest. */
  method Clamp(digest: array<bv8>) returns (scalar: nat)
    requires digest.Length == 64
    modifies digest
    ensures scalar == LittleEndian(digest[..32]) == ClampedScalar(old(digest[..]))
    ensures IsClamped(scalar, old(digest[..]))
    ensures forall k | 0 < k < 64 && k != 31 :: digest[k] == old(digest[k])
  {
    ghost var d := digest[..32];
    digest[0] := digest[0] & 248;
    ghost var d0 := digest[..32];
    assert d0 == d[0 := d[0] & 248];
    digest[31] := digest[31] & 63;
    digest[31] := digest[31] | 64;
    assert digest[..32] == d0[31 := (d[31] & 63) | 64];
    scalar := LittleEndian(digest[..32]);
    assert old(digest[..])[..32] == d;
    ClampedValue(d);
    ClampedKeepsBits(old(digest[..]));
  }

  lemma ClampedValue(d: seq<bv8>)
    requires |d| == 32
    ensures LittleEndian(d[0 := d[0] & 248][31 := (d[31] & 63) | 64]) == TWO_254 + LittleEndian(d) % TWO_254 / 8 * 8
  {
    MaskedValue(d);
    EndBytes(d);
    hide LittleEndian;
    ClampArithmetic(LittleEndian(d), LittleEndian(d[..31]), d[31] as int, d[0] as int, LittleEndian(d[1..]));
  }

  lemma MaskedValue(d: seq<bv8>)
    requires |d| == 32
    ensures
      var first, top := d[0] as int, d[31] as int;
      LittleEndian(d[0 := d[0] & 248][31 := (d[31] & 63) | 64])
      == LittleEndian(d) - first % 8 + (top % 64 + 64 - top) * TWO_248
  {
    var first, top := d[0] as int, d[31] as int;
    ClampMasks(d[0]);
    ClampMasks(d[31]);
    LittleEndianUpdate(d, 0, d[0] & 248, -(first % 8));
    LittleEndianUpdate(d[0 := d[0] & 248], 31, (d[31] & 63) | 64, top % 64 + 64 - top);
    PowZero(256, -(first % 8));
    TopByteWeight();
    hide *;
  }

  lemma EndBytes(d: seq<bv8>)
    requires |d| == 32
    ensures LittleEndian(d) == LittleEndian(d[..31]) + TWO_248 * (d[31] as int) && LittleEndian(d[..31]) < TWO_248
    ensures LittleEndian(d) == d[0] as int + 256 * LittleEndian(d[1..])
  {
    TopByteWeight();
    LittleEndianSplit(d, 31);
    assert d[31..] == [d[31]] && LittleEndian([]) == 0;
  }

  lemma ClampArithmetic(v: nat, low: nat, top: int, first: int, rest: nat)
    requires low < TWO_248 && 0 <= top < 256 && v == low + TWO_248 * top && 0 <= first < 256 && v == first + 256 * rest
    ensures v - first % 8 + (top % 64 + 64 - top) * TWO_248 == TWO_254 + v % TWO_254 / 8 * 8
  {
    var q, m := top / 64, v % TWO_254;
    CutAt254(v, low, top);
    LowBits(m, first, rest, q);
    assert m / 8 * 8 == m - m % 8;
  }

  lemma CutAt254(v: nat, low: nat, top: int)
    requires low < TWO_248 && 0 <= top < 256 && v == low + TWO_248 * top
    ensures v == v % TWO_254 + top / 64 * TWO_254
  {
    var q, r := top / 64, top % 64;
    assert top == 64 * q + r && 0 <= r < 64;
    ModUnique(v, low + TWO_248 * r, q, TWO_254);
  }

  lemma LowBits(m: int, first: int, rest: int, q: int)
    requires m + q * TWO_254 == first + 256 * rest
    ensures m % 8 == first % 8
  {
    ModUnique(m, first % 8, 32 * rest + first / 8 - q * (TWO_254 / 8), 8);
  }

  lemma ModUnique(v: int, r: int, q: int, m: int)
    requires v == r + q * m && 0 <= r < m
    ensures v % m == r
  {
    CongIntro(v, r, q, m);
    CongMod(v, m);
    CongReduced(v % m, r, m);
  }

  /** Every clamped scalar is a multiple of 8 in [2^254, 2^255), so the loop runs 255 turns. */
  lemma ClampedRange(digest: seq<bv8>)
    requires |digest| == 64
    ensures var s := ClampedScalar(digest); s % 8 == 0 && TWO_254 <= s < TWO_255 && BitLength(s) == 255
  {
    var s := ClampedScalar(digest);
    var r := LittleEndian(digest[..32]) % TWO_254;
    assert r / 8 * 8 <= r;
    TopByteWeight();
    PowMul(2, 8, 31);
    assert Pow(2, 8) == 256 && Pow(2, 6) == 64;
    PowAdd(2, 248, 6);
    BitLengthOf(s, TWO_254, 254);
  }

  // ---------------------------------------------------------------- point encoding

  /** Section 5.1.2 of RFC 8032: y in little endian, the parity of x in the top bit. */
  ghost predicate Encodes(bytes: seq<bv8>, a: Point) {
    |bytes| == 32 && LittleEndian(bytes) == a.y + a.x % 2 * TWO_255
  }

  lemma ParityBit(b: bv8, x: int)
    requires b < 128
    ensures (b | ((x % 2) as bv8 << 7)) as int == b as int + x % 2 * 128
  {
    if x % 2 == 0 {
      assert (0 as bv8) << 7 == 0;
    } else {
      assert (1 as bv8) << 7 == 128;
    }
  }

  /** `_encode_point` on a point with y < 2^255. */
  method EncodePoint(a: Point) returns (encoded: array<bv8>)
    requires 0 <= a.y < TWO_255
    ensures fresh(encoded) && Encodes(encoded[..], a)
  {
    TopByteWeight();
    var bytes := ToBytes(a.y, 32);
    encoded := new bv8[32](i requires 0 <= i < 32 => bytes[i]);
    assert encoded[..] == bytes;
    TopBitFree(bytes);
    ParityBit(bytes[31], a.x);
    ghost var top := bytes[31] | ((a.x % 2) as bv8 << 7);
    LittleEndianUpdate(bytes, 31, top, a.x % 2 * 128);
    encoded[31] := encoded[31] | ((a.x % 2) as bv8 << 7);
    assert encoded[..] == bytes[31 := top];
    assert a.x % 2 * 128 * TWO_248 == a.x % 2 * TWO_255;
  }

  lemma TopBitFree(b: seq<bv8>)
    requires |b| == 32 && LittleEndian(b) < TWO_255
    ensures b[31] < 128
  {
    LittleEndianSplit(b, 31);
    assert b[31..] == [b[31]] && LittleEndian([]) == 0;
    TopByteWeight();
    if b[31] as int >= 128 { MulMonotone(128, b[31] as int, TWO_248); }
  }

  /** Different curve points have different encodings. */
  lemma EncodingInjective(c: Curve, bytes: seq<bv8>, a: Point, b: Point)
    requires c.Valid() && c.p < TWO_255 && OnCurve(c, a) && OnCurve(c, b)
    requires Encodes(bytes, a) && Encodes(bytes, b)
    ensures a == b
  {
    assert a.y == b.y && a.x % 2 == b.x % 2;
    SameSquare(c, a.x, b.x, a.y);
    SameEvenRoot(a.x, b.x, c.p);
  }

  /** The curve equation fixes x up to sign. */
  lemma SameSquare(c: Curve, x: int, z: int, y: int)
    requires c.Valid() && Satisfies(c, x, y) && Satisfies(c, z, y)
    ensures Cong(x * x, z * z, c.p)
  {
    var p, v := c.p, 1 + c.d * (y * y);
    VNotZero(c, y);
    XSquareForm(x, y, c.d);
    XSquareForm(z, y, c.d);
    Combine2(x * x * v, z * z * v, -1, y * y - x * x, 1 + c.d * ((x * y) * (x * y)),
             1, y * y - z * z, 1 + c.d * ((z * y) * (z * y)), p);
    Cancel(x * x, z * z, v, p);
  }

  lemma XSquareForm(x: int, y: int, d: int)
    ensures x * x * (1 + d * (y * y)) == x * x + d * ((x * y) * (x * y))
  {
  }

  lemma VNotZero(c: Curve, y: int)
    requires c.Valid()
    ensures !Cong(1 + c.d * (y * y), 0, c.p)
  {
    var p := c.p;
    if Cong(1 + c.d * (y * y), 0, p) {
      Combine2(c.i * c.i, c.d * (y * y), 1, c.i * c.i, -1, -1, 1 + c.d * (y * y), 0, p);
      NoRatio(c, c.i, y);
      CongScale(c.d * y, y, 0, p);
      Combine2(1, 0, 1, 1 + c.d * (y * y), 0, -1, c.d * y * y, 0, p);
      OneIsNotZero(p);
    }
  }

  // ---------------------------------------------------------------- the whole key

  /** generate_ed25519_keypair after SHA-512: the key encodes the clamped multiple of the base point. */
  method PublicKey(digest: array<bv8>) returns (key: array<bv8>, ghost scalar: nat, ghost turns: nat)
    requires digest.Length == 64
    modifies digest
    ensures fresh(key) && turns == 255
    ensures ED.Valid() && ED.p < TWO_255
    ensures IsClamped(scalar, old(digest[..]))
    ensures var point := Times(ED, scalar, BASE_POINT); OnCurve(ED, point) && Encodes(key[..], point)
  {
    ClampedRange(digest[..]);
    var n := Clamp(digest);
    scalar := n;
    var point;
    CurveIsValid();
    BasePoint();
    point, turns := ScalarMultBase(ED, BASE_POINT, n);
    TimesOnCurve(ED, scalar, BASE_POINT);
    key := EncodePoint(point);
  }
}
