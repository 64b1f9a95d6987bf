/** The Ed25519 point check that keeps derived metadata addresses off the curve
    (src/enrichment/metaplex-onchain.ts). The specification is section 5.1 of RFC 8032:
    a 32-byte string is a point when it is the encoding of some (x, y) on the curve. */
module MetaplexOnchain {
  import opened Options
  import opened ModularArithmetic

  type Byte = b: int | 0 <= b < 256

  /** A twisted Edwards curve -x^2 + y^2 = 1 + d x^2 y^2 modulo p, with a root i of -1 that only
      the proofs use. */
  datatype Curve = Curve(p: int, d: int, i: int)

  /** What the check needs of the curve, apart from a prime modulus: its coordinates leave the
      top bit of 32 bytes free. */
  ghost predicate Suits(c: Curve) {
    c.p > 0 && c.p % 8 == 5 && c.p <= 128 * Pow(256, 31) && Cong(c.i * c.i, -1, c.p) && (c.d + 1) % c.p != 0
  }

  // 2^255 - 19, and the curve coefficient d = -121665 / 121666 modulo it.
  const P: int := 57896044618658097711785492504343953926634992332820282019728792003956564819949
  const D: int := 37095705934669439343138083508754565189542113879843219016388785533085940283555

  const ED25519: Curve :=
    Curve(P, D, 19681161376707505956807079304988542015446066515923890162744021073123829784752)

  /** The constants are those of RFC 8032, section 5.1: p = 2^255 - 19 and 121666 d = -121665. */
  lemma Constants()
    ensures (D * 121666 + 121665) % P == 0 && 128 * Pow(256, 31) == P + 19
    ensures Suits(ED25519)
  {
    PowersOf256();
    QuotientUnique(-1, -1, P - 1, P);
    QuotientUnique(ED25519.i * ED25519.i, ED25519.i * ED25519.i / P, P - 1, P);
  }

  // ---- Modular exponentiation -----------------------------------------------------------

  /** The remainder operator of the source: it takes the sign of the dividend. */
  function SignedRemainder(a: int, m: int): int
    requires m > 0
  {
    if a >= 0 then a % m else -((-a) % m)
  }

  /** A loop that never runs leaves 1, whatever the modulus. */
  method ModPow(base: int, exp: int, m: int) returns (r: int)
    requires m > 0
    ensures exp <= 0 ==> r == 1
    ensures exp > 0 ==> r == Pow(base, exp) % m
  {
    r := 1;
    var b := SignedRemainder(SignedRemainder(base, m) + m, m);
    BaseReduced(base, m);
    var e := exp;
    if e > 0 { CongPow(b, base, e, m); }
    while e > 0
      invariant exp > 0 ==> e >= 0 && Cong(r * Pow(b, e), Pow(base, exp), m)
      invariant exp > 0 && e == 0 ==> 0 <= r < m
      invariant exp <= 0 ==> e == exp && r == 1
    {
      SquareStep(r, b, e, m);
      if e % 2 == 1 { r := r * b % m; }
      b := b * b % m;
      e := e / 2;
    }
    if exp > 0 { QuotientUnique(r, 0, r, m); }
  }

  lemma BaseReduced(base: int, m: int)
    requires m > 0
    ensures Cong(SignedRemainder(SignedRemainder(base, m) + m, m), base, m)
  {
    if base >= 0 {
      ShiftOnce(base % m, m);
      CongReduce(base, m);
      CongReduce(base % m + m, m);
    } else {
      var s := (-base) % m;
      assert -base == ((-base) / m) * m + s;
      CongReduce(m - s, m);
      CongFromDifference(m - s, base, (-base) / m + 1, m);
    }
  }

  /** One round keeps r * b^e. */
  lemma SquareStep(r: int, b: int, e: int, m: int)
    requires m > 0 && e > 0
    ensures var r' := if e % 2 == 1 then r * b % m else r;
            Cong(r' * Pow(b * b % m, e / 2), r * Pow(b, e), m)
  {
    var h := e / 2;
    CongReduce(b * b, m);
    CongPow(b * b % m, b * b, h, m);
    PowOfSquare(b, h);
    if e % 2 == 1 {
      CongReduce(r * b, m);
      CongMul(r * b % m, r * b, Pow(b * b % m, h), Pow(b, 2 * h), m);
      assert Pow(b, e) == b * Pow(b, 2 * h);
      assert (r * b) * Pow(b, 2 * h) == r * (b * Pow(b, 2 * h));
    } else {
      CongMul(r, r, Pow(b * b % m, h), Pow(b, 2 * h), m);
    }
  }

  // ---- The curve and its encoding -------------------------------------------------------

  /** -x^2 + y^2 = 1 + d x^2 y^2 modulo m. */
  ghost predicate EdwardsEquation(x: int, y: int, d: int, m: int)
    requires m > 0
  {
    Cong(y * y - x * x, 1 + d * (x * x) * (y * y), m)
  }

  ghost predicate OnCurve(x: int, y: int, c: Curve)
    requires c.p > 0
  {
    EdwardsEquation(x, y, c.d, c.p)
  }

  ghost function LittleEndian(n: nat, k: nat): (s: seq<Byte>)
    ensures |s| == k
    decreases n, k
  {
    if k == 0 then [] else [n % 256] + LittleEndian(n / 256, k - 1)
  }

  ghost function FromLittleEndian(s: seq<Byte>): int {
    if |s| == 0 then 0 else s[0] + 256 * FromLittleEndian(s[1..])
  }

  ghost predicate IsCoordinate(z: int, c: Curve) { 0 <= z < c.p }

  /** Section 5.1.2 of RFC 8032: y in 32 little-endian bytes, with the low bit of x in
      the top bit of the last byte. */
  ghost function Encode(x: int, y: int): (s: seq<Byte>)
    requires 0 <= y < 128 * Pow(256, 31)
    ensures |s| == 32
  {
    LastByteSmall(y, 32);
    var s := LittleEndian(y, 32);
    s[31 := s[31] + 128 * (x % 2)]
  }

  ghost predicate IsPoint(x: int, y: int, bytes: seq<Byte>, c: Curve)
    requires Suits(c)
  {
    IsCoordinate(x, c) && IsCoordinate(y, c) && OnCurve(x, y, c) && bytes == Encode(x, y)
  }

  ghost predicate IsEncodedPoint(bytes: seq<Byte>, c: Curve)
    requires Suits(c)
  {
    exists x, y :: IsPoint(x, y, bytes, c)
  }

  lemma {:induction false} LittleEndianInverts(n: nat, k: nat)
    requires 0 <= n < Pow(256, k)
    ensures FromLittleEndian(LittleEndian(n, k)) == n
  {
    if k > 0 {
      assert n / 256 < Pow(256, k - 1);
      LittleEndianInverts(n / 256, k - 1);
      assert LittleEndian(n, k)[1..] == LittleEndian(n / 256, k - 1);
    }
  }

  lemma {:induction false} FromLittleEndianInverts(s: seq<Byte>)
    ensures 0 <= FromLittleEndian(s) < Pow(256, |s|)
    ensures LittleEndian(FromLittleEndian(s), |s|) == s
  {
    if |s| > 0 {
      FromLittleEndianInverts(s[1..]);
      var n := FromLittleEndian(s);
      assert n % 256 == s[0] && n / 256 == FromLittleEndian(s[1..]);
    }
  }

  lemma {:induction false} LastByteSmall(n: nat, k: nat)
    requires k > 0 && 0 <= n < 128 * Pow(256, k - 1)
    ensures LittleEndian(n, k)[k - 1] < 128
  {
    if k > 1 {
      assert n / 256 < 128 * Pow(256, k - 2);
      LastByteSmall(n / 256, k - 1);
    }
  }

  lemma PowersOf256()
    ensures 128 * Pow(256, 31) == P + 19 && Pow(256, 32) == 2 * (P + 19)
  {
    assert Pow(256, 0) == 1;
    assert Pow(256, 1) == 256 * Pow(256, 0);
    assert Pow(256, 2) == 256 * Pow(256, 1);
    PowAdd(256, 2, 2);
    PowAdd(256, 4, 4);
    PowAdd(256, 8, 8);
    PowAdd(256, 16, 8);
    PowAdd(256, 24, 4);
    PowAdd(256, 28, 2);
    PowAdd(256, 30, 1);
    assert Pow(256, 32) == 256 * Pow(256, 31);
  }

  /** The two parts the check reads from a string. */
  ghost function SignOf(bytes: seq<Byte>): int
    requires |bytes| == 32
  {
    bytes[31] / 128
  }

  ghost function YOf(bytes: seq<Byte>): int
    requires |bytes| == 32
  {
    FromLittleEndian(bytes[31 := bytes[31] % 128])
  }

  /** Decoding recovers what was encoded. */
  lemma EncodeThenDecode(x: int, y: int)
    requires 0 <= y < 128 * Pow(256, 31)
    ensures SignOf(Encode(x, y)) == x % 2 && YOf(Encode(x, y)) == y
  {
    LastByteSmall(y, 32);
    var s := LittleEndian(y, 32);
    assert Encode(x, y)[31 := Encode(x, y)[31] % 128] == s;
    assert Pow(256, 32) == 256 * Pow(256, 31);
    LittleEndianInverts(y, 32);
  }

  lemma DecodeThenEncode(bytes: seq<Byte>, x: int)
    requires |bytes| == 32 && 0 <= YOf(bytes) < 128 * Pow(256, 31) && SignOf(bytes) == x % 2
    ensures Encode(x, YOf(bytes)) == bytes
  {
    var buf := bytes[31 := bytes[31] % 128];
    FromLittleEndianInverts(buf);
  }

  // ---- Square roots modulo a prime ------------------------------------------------------

  ghost predicate IsRoot(p: int, x: int, a: int)
    requires p > 0
  {
    0 <= x < p && Cong(x * x, a, p)
  }

  /** Multiplying by v^(p-2) divides by v. */
  lemma FermatInverse(p: int, v: int)
    requires IsPrime(p) && v % p != 0
    ensures Cong(v * (Pow(v, p - 2) % p), 1, p)
  {
    Fermat(p, v);
    CongReduce(Pow(v, p - 2), p);
    CongMul(v, v, Pow(v, p - 2) % p, Pow(v, p - 2), p);
  }

  lemma QuotientSolves(p: int, x: int, u: int, v: int, inverse: int)
    requires IsPrime(p) && v % p != 0 && Cong(v * inverse, 1, p)
    ensures Cong(x * x * v, u, p) <==> Cong(x * x, u * inverse % p, p)
  {
    var q := u * inverse;
    CongReduce(q, p);
    CongMul(u, u, v * inverse, 1, p);
    assert u * (v * inverse) == v * q && u * 1 == u;
    if Cong(x * x, q, p) {
      CongMul(v, v, x * x, q, p);
      assert v * (x * x) == x * x * v;
    }
    if Cong(x * x * v, u, p) {
      assert x * x * v == v * (x * x);
      Cancel(p, v, x * x, q);
    }
  }

  /** Euler's criterion where p = 5 mod 8: a has a root exactly when a^((p-1)/2) is 1. */
  lemma EulerCriterion(p: int, i: int, half: nat, a: int)
    requires IsPrime(p) && p % 8 == 5 && p == 2 * half + 1 && Cong(i * i, -1, p) && a % p != 0
    ensures Cong(Pow(a, half), 1, p) <==> exists x :: IsRoot(p, x, a)
  {
    if Cong(Pow(a, half), 1, p) {
      var x := RootExists(p, i, half, a);
      CongReduce(x, p);
      CongMul(x % p, x, x % p, x, p);
      assert IsRoot(p, x % p, a);
    }
    forall x | IsRoot(p, x, a) ensures Cong(Pow(a, half), 1, p) { RootGivesOne(p, half, a, x); }
  }

  lemma RootGivesOne(p: int, half: nat, a: int, x: int)
    requires IsPrime(p) && p == 2 * half + 1 && a % p != 0 && IsRoot(p, x, a)
    ensures Cong(Pow(a, half), 1, p)
  {
    if x % p == 0 {
      QuotientUnique(x, 0, x, p);
      assert false;
    }
    CongPow(x * x, a, half, p);
    PowOfSquare(x, half);
    Fermat(p, x);
  }

  lemma RootExists(p: int, i: int, half: nat, a: int) returns (x: int)
    requires IsPrime(p) && p % 8 == 5 && p == 2 * half + 1 && Cong(i * i, -1, p)
    requires Cong(Pow(a, half), 1, p)
    ensures Cong(x * x, a, p)
  {
    var k := (p + 3) / 8;
    var r := Pow(a, k);
    FourthPower(p, half, a, k);
    SameSquares(p, r * r, a);
    if Cong(r * r, a, p) {
      x := r;
    } else {
      x := i * r;
      CongMul(i * i, -1, r * r, -a, p);
      Regroup(i, r, i, r);
    }
  }

  lemma SameSquares(p: int, s: int, a: int)
    requires IsPrime(p) && Cong(s * s, a * a, p)
    ensures Cong(s, a, p) || Cong(s, -a, p)
  {
    assert (s - a) * (s + a) == s * s - a * a;
    CongAdd(s * s, a * a, a * a, a * a, p);
    EuclidAny(p, s - a, s + a);
    hide IsPrime;
    if (s - a) % p == 0 {
      CongAdd(s - a, 0, a, a, p);
    } else {
      CongAdd(s + a, 0, a, a, p);
    }
  }

  /** (a^k)^4 = a^2 when 4k = half + 2 and a^half = 1. */
  lemma FourthPower(p: int, half: nat, a: int, k: nat)
    requires p > 0 && 4 * k == half + 2 && Cong(Pow(a, half), 1, p)
    ensures Cong(Pow(a, k) * Pow(a, k) * (Pow(a, k) * Pow(a, k)), a * a, p)
  {
    PowAdd(a, k, k);
    PowAdd(a, 2 * k, 2 * k);
    PowAdd(a, half, 2);
    assert Pow(a, 2) == a * Pow(a, 1) && Pow(a, 1) == a * Pow(a, 0);
    CongMul(Pow(a, half), 1, a * a, a * a, p);
  }

  /** A root of a non-zero residue comes in both parities; zero has only the root zero. */
  lemma RootParities(p: int, a: int, sign: int)
    requires IsPrime(p) && p % 2 == 1 && 0 <= sign <= 1
    ensures a % p != 0 ==>
              ((exists x :: IsRoot(p, x, a)) <==> exists x :: IsRoot(p, x, a) && x % 2 == sign)
    ensures a % p == 0 ==> (sign == 0 <==> exists x :: IsRoot(p, x, a) && x % 2 == sign)
  {
    assert p >= 2;
    hide IsPrime, IsRoot;
    if a % p != 0 {
      forall x | IsRoot(p, x, a) ensures exists z :: IsRoot(p, z, a) && z % 2 == sign {
        if x % 2 != sign { OtherParity(p, x, a); }
      }
    } else {
      ZeroRoots(p, a);
      ZeroIsRoot(p, a);
    }
  }

  lemma OtherParity(p: int, x: int, a: int)
    requires IsPrime(p) && p % 2 == 1 && a % p != 0 && IsRoot(p, x, a)
    ensures IsRoot(p, p - x, a) && (p - x) % 2 != x % 2
  {
    OtherRoot(p, x, a);
  }

  lemma ZeroIsRoot(p: int, a: int)
    requires IsPrime(p) && a % p == 0
    ensures IsRoot(p, 0, a)
  {
  }

  lemma ZeroRoots(p: int, a: int)
    requires IsPrime(p) && a % p == 0
    ensures forall x :: IsRoot(p, x, a) <==> x == 0
  {
    QuotientUnique(0, 0, 0, p);
    assert 0 * 0 == 0 && IsRoot(p, 0, a);
    forall x | IsRoot(p, x, a) ensures x == 0 {
      EuclidAny(p, x, x);
      QuotientUnique(x, 0, x, p);
    }
  }

  lemma OtherRoot(p: int, x: int, a: int)
    requires p > 0 && IsRoot(p, x, a) && a % p != 0
    ensures IsRoot(p, p - x, a)
  {
    if x == 0 { assert false; }
    assert (p - x) * (p - x) - x * x == (p - 2 * x) * p;
    CongFromDifference((p - x) * (p - x), x * x, p - 2 * x, p);
  }

  // ---- The point check ------------------------------------------------------------------

  /** u and v are y^2 - 1 and d y^2 + 1. */
  lemma Numerators(w: int, u: int, v: int, d: int, m: int)
    requires m > 0 && u == (w % m - 1 + m) % m && v == (d * (w % m) % m + 1) % m
    ensures Cong(u, w - 1, m) && Cong(v, d * w + 1, m)
  {
    CongReduce(w, m);
    CongAdd(w % m, w, 1, 1, m);
    ShiftOnce(w % m - 1, m);
    CongReduce(w % m - 1 + m, m);
    CongMul(d, d, w % m, w, m);
    CongReduce(d * (w % m), m);
    CongAdd(d * (w % m) % m, d * w, 1, 1, m);
    CongReduce(d * (w % m) % m + 1, m);
  }

  /** Moving terms across the curve equation. */
  lemma Transpose(w: int, s: int, t: int, m: int)
    requires m > 0
    ensures Cong(w - s, 1 + t, m) <==> Cong(t + s, w - 1, m)
  {
    if Cong(w - s, 1 + t, m) { CongAdd(1 + t, w - s, s - 1, s - 1, m); }
    if Cong(t + s, w - 1, m) { CongAdd(w - 1, t + s, s - 1, s - 1, m); CongAdd(w - 1, t + s, 1 - s, 1 - s, m); }
  }

  /** Solving the curve equation for x^2: x^2 * v = u. */
  lemma CurveEquation(x: int, y: int, u: int, v: int, d: int, m: int)
    requires m > 0 && u == (y * y % m - 1 + m) % m && v == (d * (y * y % m) % m + 1) % m
    ensures EdwardsEquation(x, y, d, m) <==> Cong(x * x * v, u, m)
  {
    var w, s := y * y, x * x;
    Numerators(w, u, v, d, m);
    CongMul(s, s, v, d * w + 1, m);
    assert s * (d * w + 1) == d * s * w + s;
    Transpose(w, s, d * s * w, m);
  }

  /** d is not -1, so u and v never vanish together. */
  lemma NeverBothZero(w: int, d: int, m: int)
    requires m > 1 && 0 <= w < m && (d + 1) % m != 0
    ensures (d * w % m + 1) % m == 0 ==> (w - 1 + m) % m != 0
  {
    if (w - 1 + m) % m == 0 {
      if w > 1 { QuotientUnique(w - 1 + m, 1, w - 1, m); }
      if w == 0 { QuotientUnique(m - 1, 0, m - 1, m); }
      CongReduce(d, m);
      CongAdd(d % m, d, 1, 1, m);
    }
  }

  /** What the check computes from y on the way to its last two branches. */
  ghost predicate Computed(c: Curve, y: int, u: int, v: int)
    requires c.p > 0
  {
    u == (y * y % c.p - 1 + c.p) % c.p && v == (c.d * (y * y % c.p) % c.p + 1) % c.p
  }

  ghost predicate SignedRootOf(bytes: seq<Byte>, x: int, a: int, p: int)
    requires |bytes| == 32 && p > 0
  {
    IsRoot(p, x, a) && x % 2 == SignOf(bytes)
  }

  lemma PointDecodes(x: int, y: int, bytes: seq<Byte>, c: Curve)
    requires Suits(c) && IsPoint(x, y, bytes, c) && |bytes| == 32
    ensures y == YOf(bytes) && x % 2 == SignOf(bytes)
  {
    EncodeThenDecode(x, y);
  }

  lemma NoPointWhenVZero(bytes: seq<Byte>, u: int, v: int, c: Curve)
    requires Suits(c) && |bytes| == 32 && v == 0 && Computed(c, YOf(bytes), u, v)
    ensures !IsEncodedPoint(bytes, c) && u != 0
  {
    var y := YOf(bytes);
    NeverBothZero(y * y % c.p, c.d, c.p);
    forall x, z ensures !IsPoint(x, z, bytes, c) {
      if IsPoint(x, z, bytes, c) {
        PointDecodes(x, z, bytes, c);
        CurveEquation(x, y, u, v, c.d, c.p);
        assert x * x * v == 0;
        QuotientUnique(u, 0, u, c.p);
      }
    }
  }

  lemma PointIffRoot(x: int, y: int, u: int, v: int, x2: int, c: Curve)
    requires Suits(c) && IsPrime(c.p) && 0 < v < c.p && Computed(c, y, u, v)
    requires x2 == u * (Pow(v, c.p - 2) % c.p) % c.p
    ensures OnCurve(x, y, c) <==> Cong(x * x, x2, c.p)
  {
    CurveEquation(x, y, u, v, c.d, c.p);
    QuotientUnique(v, 0, v, c.p);
    FermatInverse(c.p, v);
    QuotientSolves(c.p, x, u, v, Pow(v, c.p - 2) % c.p);
  }

  lemma PointIffSignedRoot(bytes: seq<Byte>, u: int, v: int, x2: int, c: Curve)
    requires Suits(c) && IsPrime(c.p) && |bytes| == 32 && 0 <= YOf(bytes) < c.p
    requires v != 0 && Computed(c, YOf(bytes), u, v)
    requires x2 == u * (Pow(v, c.p - 2) % c.p) % c.p
    ensures IsEncodedPoint(bytes, c) <==> exists x :: SignedRootOf(bytes, x, x2, c.p)
  {
    var y := YOf(bytes);
    if x, z :| IsPoint(x, z, bytes, c) {
      PointDecodes(x, z, bytes, c);
      PointIffRoot(x, y, u, v, x2, c);
      assert SignedRootOf(bytes, x, x2, c.p);
    }
    if x :| SignedRootOf(bytes, x, x2, c.p) {
      PointIffRoot(x, y, u, v, x2, c);
      DecodeThenEncode(bytes, x);
      assert IsPoint(x, y, bytes, c);
    }
  }

  lemma SignedRootIffCheck(bytes: seq<Byte>, x2: int, half: nat, c: Curve)
    requires Suits(c) && IsPrime(c.p) && |bytes| == 32 && 0 <= x2 < c.p && c.p == 2 * half + 1
    ensures (exists x :: SignedRootOf(bytes, x, x2, c.p)) <==>
            if x2 == 0 then SignOf(bytes) == 0 else Pow(x2, half) % c.p == 1
  {
    QuotientUnique(x2, 0, x2, c.p);
    RootParities(c.p, x2, SignOf(bytes));
    forall x ensures SignedRootOf(bytes, x, x2, c.p) <==> IsRoot(c.p, x, x2) && x % 2 == SignOf(bytes) {}
    if x2 != 0 {
      EulerCriterion(c.p, c.i, half, x2);
      QuotientUnique(1, 0, 1, c.p);
    }
  }

  /** What the last two branches of the check decide. */
  lemma CheckIsExact(bytes: seq<Byte>, u: int, v: int, x2: int, half: nat, c: Curve)
    requires Suits(c) && |bytes| == 32 && 0 <= YOf(bytes) < c.p && c.p == 2 * half + 1
    requires v != 0 && Computed(c, YOf(bytes), u, v)
    requires x2 == u * (Pow(v, c.p - 2) % c.p) % c.p
    ensures IsPrime(c.p) ==>
              (IsEncodedPoint(bytes, c) <==> if x2 == 0 then SignOf(bytes) == 0 else Pow(x2, half) % c.p == 1)
  {
    if IsPrime(c.p) {
      PointIffSignedRoot(bytes, u, v, x2, c);
      SignedRootIffCheck(bytes, x2, half, c);
    }
  }

  lemma TooLarge(bytes: seq<Byte>, c: Curve)
    requires Suits(c) && |bytes| == 32 && YOf(bytes) >= c.p
    ensures !IsEncodedPoint(bytes, c)
  {
    forall x, y ensures !IsPoint(x, y, bytes, c) {
      if IsPoint(x, y, bytes, c) { PointDecodes(x, y, bytes, c); }
    }
  }

  /** The y coordinate, read from the last byte down without the sign bit. */
  method ReadY(bytes: seq<Byte>) returns (y: int)
    requires |bytes| == 32
    ensures y == YOf(bytes) >= 0
  {
    var buf := bytes[31 := bytes[31] % 128];
    y := 0;
    for i := 32 downto 0
      invariant y == FromLittleEndian(buf[i..])
    {
      y := y * 256 + buf[i];
      assert buf[i..][1..] == buf[i + 1..];
    }
    assert buf[0..] == buf;
    FromLittleEndianInverts(buf);
  }

  lemma Halves(p: int)
    requires p > 0 && p % 8 == 5
    ensures p >= 5 && p == 2 * ((p - 1) / 2) + 1
  {
  }

  /** y^2 - 1 and d y^2 + 1. */
  method Terms(y: int, c: Curve) returns (u: int, v: int)
    requires c.p > 0
    ensures Computed(c, y, u, v)
  {
    var y2 := y * y % c.p;
    u := (y2 - 1 + c.p) % c.p;
    v := (c.d * y2 % c.p + 1) % c.p;
  }

  /** The check on any suitable curve: accepts exactly the encodings of its points, given that
      the modulus is prime. */
  method IsOnCurve(bytes: seq<Byte>, c: Curve) returns (on: bool)
    requires Suits(c) && |bytes| == 32
    ensures IsPrime(c.p) ==> (on <==> IsEncodedPoint(bytes, c))
  {
    Halves(c.p);
    hide IsEncodedPoint, FromLittleEndian, IsPrime, YOf, Suits, Computed;
    var signX := bytes[31] / 128;
    var y := ReadY(bytes);
    if y >= c.p {
      TooLarge(bytes, c);
      return false;
    }
    var u, v := Terms(y, c);
    if v == 0 {
      NoPointWhenVZero(bytes, u, v, c);
      return u == 0;
    }
    var inverse := ModPow(v, c.p - 2, c.p);
    var x2 := u * inverse % c.p;
    CheckIsExact(bytes, u, v, x2, (c.p - 1) / 2, c);
    if x2 == 0 {
      return signX == 0;
    }
    var euler := ModPow(x2, (c.p - 1) / 2, c.p);
    return euler == 1;
  }

  /** The check with the constants of the source. */
  method IsOnEd25519Curve(bytes: seq<Byte>) returns (on: bool)
    requires |bytes| == 32
    ensures Suits(ED25519) && (IsPrime(P) ==> (on <==> IsEncodedPoint(bytes, ED25519)))
  {
    Constants();
    hide IsEncodedPoint, IsPrime, Suits;
    on := IsOnCurve(bytes, ED25519);
  }

  /** Every point of the curve has an encoding that the check accepts, whatever its sign bit. */
  lemma PointsAreEncodable(x: int, y: int, c: Curve)
    requires Suits(c) && IsCoordinate(x, c) && IsCoordinate(y, c) && OnCurve(x, y, c)
    ensures IsEncodedPoint(Encode(x, y), c)
  {
    assert IsPoint(x, y, Encode(x, y), c);
  }

  // ---- Address derivation ---------------------------------------------------------------

  /** `hash` stands for the SHA-256 of the seeds with one nonce. The result is the hash of
      the largest nonce that is off the curve, and no address when there is none. */
  method DeriveMetadataPda(hash: int -> seq<Byte>, c: Curve) returns (address: Option<seq<Byte>>)
    requires Suits(c) && forall nonce :: |hash(nonce)| == 32
    ensures IsPrime(c.p) ==>
              match address
              case Some(bytes) =>
                && !IsEncodedPoint(bytes, c)
                && exists nonce :: 0 <= nonce <= 255 && bytes == hash(nonce)
                     && forall k :: nonce < k <= 255 ==> IsEncodedPoint(hash(k), c)
              case None => forall k :: 0 <= k <= 255 ==> IsEncodedPoint(hash(k), c)
  {
    hide IsEncodedPoint, IsPrime;
    for nonce := 256 downto 0
      invariant IsPrime(c.p) ==> forall k :: nonce <= k <= 255 ==> IsEncodedPoint(hash(k), c)
    {
      var onCurve := IsOnCurve(hash(nonce), c);
      if !onCurve { return Some(hash(nonce)); }
    }
    return None;
  }
}
