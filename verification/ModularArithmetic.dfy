/** Congruences, powers and primes: what the curve check needs of number theory, up to
    Fermat's little theorem. */
module ModularArithmetic {

  ghost function Pow(b: int, e: nat): int {
    if e == 0 then 1 else b * Pow(b, e - 1)
  }

  ghost predicate Cong(a: int, b: int, m: int)
    requires m > 0
  {
    a % m == b % m
  }

  ghost predicate IsPrime(p: int) {
    p >= 2 && forall k :: 2 <= k < p ==> p % k != 0
  }

  // ---- Remainders -----------------------------------------------------------------------

  lemma {:induction false} ShiftByMultiple(r: int, k: int, m: int)
    requires m > 0
    ensures (r + k * m) % m == r % m
    decreases if k < 0 then -k else k
  {
    if k > 0 {
      ShiftByMultiple(r, k - 1, m);
      assert r + k * m == (r + (k - 1) * m) + m;
      ShiftOnce(r + (k - 1) * m, m);
    } else if k < 0 {
      ShiftByMultiple(r, k + 1, m);
      assert r + (k + 1) * m == (r + k * m) + m;
      ShiftOnce(r + k * m, m);
    }
  }

  lemma ShiftOnce(r: int, m: int)
    requires m > 0
    ensures (r + m) % m == r % m
  {
    var q, s := r / m, r % m;
    assert r == q * m + s;
    assert r + m == (q + 1) * m + s;
    QuotientUnique(r + m, q + 1, s, m);
  }

  lemma QuotientUnique(a: int, q: int, s: int, m: int)
    requires m > 0 && a == q * m + s && 0 <= s < m
    ensures a / m == q && a % m == s
  {
    var q', s' := a / m, a % m;
    assert a == q' * m + s' && 0 <= s' < m;
    assert (q - q') * m == s' - s;
    MultipleIsLarge(q - q', m);
  }

  lemma MultipleIsLarge(k: int, m: int)
    requires m > 0
    ensures k >= 1 ==> k * m >= m
    ensures k <= -1 ==> k * m <= -m
  {
  }

  lemma Regroup(a: int, b: int, x: int, y: int)
    ensures (a * b) * (x * y) == (a * x) * (b * y)
  {
    assert (a * b) * (x * y) == a * (b * (x * y));
    assert b * (x * y) == x * (b * y);
  }

  lemma CongFromDifference(a: int, b: int, k: int, m: int)
    requires m > 0 && a - b == k * m
    ensures Cong(a, b, m)
  {
    ShiftByMultiple(b, k, m);
  }

  lemma DifferenceFromCong(a: int, b: int, m: int) returns (k: int)
    requires m > 0 && Cong(a, b, m)
    ensures a - b == k * m
  {
    k := a / m - b / m;
    assert a == (a / m) * m + a % m && b == (b / m) * m + b % m;
    assert (a / m - b / m) * m == (a / m) * m - (b / m) * m;
  }

  lemma CongReduce(a: int, m: int)
    requires m > 0
    ensures Cong(a % m, a, m)
  {
    assert a - a % m == (a / m) * m;
    CongFromDifference(a, a % m, a / m, m);
  }

  lemma CongMul(a: int, a': int, b: int, b': int, m: int)
    requires m > 0 && Cong(a, a', m) && Cong(b, b', m)
    ensures Cong(a * b, a' * b', m)
  {
    var j := DifferenceFromCong(a, a', m);
    var k := DifferenceFromCong(b, b', m);
    assert a * b - a' * b' == (a - a') * b + a' * (b - b');
    assert (j * m) * b + a' * (k * m) == (j * b + a' * k) * m;
    CongFromDifference(a * b, a' * b', j * b + a' * k, m);
  }

  lemma CongAdd(a: int, a': int, b: int, b': int, m: int)
    requires m > 0 && Cong(a, a', m) && Cong(b, b', m)
    ensures Cong(a + b, a' + b', m) && Cong(a - b, a' - b', m)
  {
    var j := DifferenceFromCong(a, a', m);
    var k := DifferenceFromCong(b, b', m);
    assert j * m + k * m == (j + k) * m && j * m - k * m == (j - k) * m;
    CongFromDifference(a + b, a' + b', j + k, m);
    CongFromDifference(a - b, a' - b', j - k, m);
  }

  lemma {:induction false} CongPow(a: int, a': int, e: nat, m: int)
    requires m > 0 && Cong(a, a', m)
    ensures Cong(Pow(a, e), Pow(a', e), m)
  {
    if e > 0 {
      CongPow(a, a', e - 1, m);
      CongMul(a, a', Pow(a, e - 1), Pow(a', e - 1), m);
    }
  }

  // ---- Powers ---------------------------------------------------------------------------

  lemma {:induction false} PowAdd(b: int, e: nat, f: nat)
    ensures Pow(b, e + f) == Pow(b, e) * Pow(b, f)
  {
    if e > 0 {
      PowAdd(b, e - 1, f);
      assert b * (Pow(b, e - 1) * Pow(b, f)) == (b * Pow(b, e - 1)) * Pow(b, f);
    }
  }

  lemma {:induction false} PowOfProduct(a: int, b: int, e: nat)
    ensures Pow(a * b, e) == Pow(a, e) * Pow(b, e)
  {
    if e > 0 {
      PowOfProduct(a, b, e - 1);
      Regroup(a, b, Pow(a, e - 1), Pow(b, e - 1));
    }
  }

  lemma PowOfSquare(b: int, e: nat)
    ensures Pow(b * b, e) == Pow(b, 2 * e)
  {
    PowOfProduct(b, b, e);
    PowAdd(b, e, e);
  }

  // ---- Primes ---------------------------------------------------------------------------

  /** A prime that divides a product divides a factor. */
  lemma {:induction false} Euclid(p: int, a: int, b: int)
    requires IsPrime(p) && 0 < a < p && (a * b) % p == 0
    ensures b % p == 0
    decreases a
  {
    if a > 1 {
      var q, r := p / a, p % a;
      assert p == q * a + r && 0 < r < a;
      assert r * b == b * p - q * (a * b);
      var k := (a * b) / p;
      assert a * b == k * p;
      assert q * (k * p) == (q * k) * p;
      assert r * b - 0 == (b - q * k) * p;
      CongFromDifference(r * b, 0, b - q * k, p);
      Euclid(p, r, b);
    }
  }

  lemma EuclidAny(p: int, a: int, b: int)
    requires IsPrime(p) && (a * b) % p == 0
    ensures a % p == 0 || b % p == 0
  {
    if a % p != 0 {
      CongReduce(a, p);
      CongMul(a % p, a, b, b, p);
      Euclid(p, a % p, b);
    }
  }

  /** Cancelling a factor the prime does not divide. */
  lemma Cancel(p: int, c: int, a: int, b: int)
    requires IsPrime(p) && c % p != 0 && Cong(c * a, c * b, p)
    ensures Cong(a, b, p)
  {
    var k := DifferenceFromCong(c * a, c * b, p);
    assert c * (a - b) == k * p;
    CongFromDifference(c * (a - b), 0, k, p);
    EuclidAny(p, c, a - b);
    CongFromDifference(a, b, (a - b) / p, p);
  }

  // ---- Fermat's little theorem ----------------------------------------------------------

  /** Product of the members of `s` among 1..n. */
  ghost function ProductOf(s: set<nat>, n: nat): int {
    if n == 0 then 1 else (if n in s then n else 1) * ProductOf(s, n - 1)
  }

  lemma SwapFactors(a: int, b: int, c: int)
    ensures a * (b * c) == b * (a * c)
  {
  }

  lemma {:induction false} ProductWithNew(s: set<nat>, x: int, n: nat)
    requires x !in s && 1 <= x <= n
    ensures ProductOf(s + {x}, n) == x * ProductOf(s, n)
  {
    if x == n {
      ProductIgnores(s, x, n - 1);
    } else {
      ProductWithNew(s, x, n - 1);
      SwapFactors(if n in s then n else 1, x, ProductOf(s, n - 1));
    }
  }

  lemma {:induction false} ProductIgnores(s: set<nat>, x: int, n: nat)
    requires n < x
    ensures ProductOf(s + {x}, n) == ProductOf(s, n)
  {
    if n > 0 { ProductIgnores(s, x, n - 1); }
  }

  ghost function Interval(n: nat): (s: set<nat>)
    ensures |s| == n
    ensures forall x :: x in s <==> 1 <= x <= n
  {
    if n == 0 then {} else Interval(n - 1) + {n}
  }

  /** The residues of a, 2a, ..., ka. */
  ghost function Residues(a: int, k: nat, p: int): set<nat>
    requires p > 0
  {
    if k == 0 then {} else Residues(a, k - 1, p) + {(a * k) % p}
  }

  lemma {:induction false} ResiduesDistinct(a: int, k: nat, j: nat, p: int)
    requires IsPrime(p) && a % p != 0 && k < j < p
    ensures (a * j) % p !in Residues(a, k, p)
  {
    if k > 0 {
      ResiduesDistinct(a, k - 1, j, p);
      if (a * j) % p == (a * k) % p {
        Cancel(p, a, j, k);
        QuotientUnique(j, 0, j, p);
        QuotientUnique(k, 0, k, p);
        assert false;
      }
    }
  }

  lemma {:induction false} ResiduesFill(a: int, k: nat, p: int)
    requires IsPrime(p) && a % p != 0 && k < p
    ensures |Residues(a, k, p)| == k
    ensures Residues(a, k, p) <= Interval(p - 1)
  {
    if k > 0 {
      ResiduesFill(a, k - 1, p);
      ResiduesDistinct(a, k - 1, k, p);
      ResidueIsPositive(a, k, p);
    }
  }

  lemma {:induction false} ResiduesProduct(a: int, k: nat, p: int)
    requires IsPrime(p) && a % p != 0 && k < p
    ensures Cong(ProductOf(Residues(a, k, p), p - 1), Pow(a, k) * Factorial(k), p)
  {
    if k == 0 {
      ProductOfEmpty(p - 1);
    } else {
      ResiduesProduct(a, k - 1, p);
      ResiduesDistinct(a, k - 1, k, p);
      ResidueIsPositive(a, k, p);
      var x, rest := (a * k) % p, Residues(a, k - 1, p);
      ProductWithNew(rest, x, p - 1);
      ResidueProduct(a, k, ProductOf(rest, p - 1), p);
    }
  }

  lemma ResidueIsPositive(a: int, k: nat, p: int)
    requires IsPrime(p) && a % p != 0 && 0 < k < p
    ensures 1 <= (a * k) % p <= p - 1
  {
    if (a * k) % p == 0 {
      EuclidAny(p, a, k);
      QuotientUnique(k, 0, k, p);
      assert false;
    }
  }

  lemma ResidueProduct(a: int, k: nat, product: int, p: int)
    requires p > 0 && k > 0 && Cong(product, Pow(a, k - 1) * Factorial(k - 1), p)
    ensures Cong((a * k) % p * product, Pow(a, k) * Factorial(k), p)
  {
    CongReduce(a * k, p);
    CongMul((a * k) % p, a * k, product, Pow(a, k - 1) * Factorial(k - 1), p);
    Regroup(a, k, Pow(a, k - 1), Factorial(k - 1));
  }

  lemma {:induction false} ProductOfEmpty(n: nat)
    ensures ProductOf({}, n) == 1
  {
    if n > 0 { ProductOfEmpty(n - 1); }
  }

  ghost function Factorial(n: nat): int {
    if n == 0 then 1 else n * Factorial(n - 1)
  }

  lemma {:induction false} ProductOfInterval(n: nat, s: set<nat>)
    requires forall x :: 1 <= x <= n ==> x in s
    ensures ProductOf(s, n) == Factorial(n)
  {
    if n > 0 { ProductOfInterval(n - 1, s); }
  }

  lemma {:induction false} FactorialIsUnit(p: int, k: nat)
    requires IsPrime(p) && k < p
    ensures Factorial(k) % p != 0
  {
    if k == 0 {
      QuotientUnique(1, 0, 1, p);
    } else {
      FactorialIsUnit(p, k - 1);
      if Factorial(k) % p == 0 {
        EuclidAny(p, k, Factorial(k - 1));
        QuotientUnique(k, 0, k, p);
        assert false;
      }
    }
  }

  lemma SubsetOfSameSize(s: set<nat>, t: set<nat>)
    requires s <= t && |s| == |t|
    ensures s == t
  {
    if s != t {
      var x :| x in t && x !in s;
      SizeOfSubset(s, t - {x});
    }
  }

  lemma {:induction false} SizeOfSubset(s: set<nat>, t: set<nat>)
    requires s <= t
    ensures |s| <= |t|
  {
    if s != {} {
      var x :| x in s;
      SizeOfSubset(s - {x}, t - {x});
    }
  }

  /** Fermat: a power p - 1 of anything the prime p does not divide is 1 modulo p. */
  lemma Fermat(p: int, a: int)
    requires IsPrime(p) && a % p != 0
    ensures Cong(Pow(a, p - 1), 1, p)
  {
    var r := Residues(a, p - 1, p);
    ResiduesFill(a, p - 1, p);
    ResiduesProduct(a, p - 1, p);
    SubsetOfSameSize(r, Interval(p - 1));
    ProductOfInterval(p - 1, r);
    FactorialIsUnit(p, p - 1);
    var f := Factorial(p - 1);
    assert f * Pow(a, p - 1) == Pow(a, p - 1) * f && f * 1 == f;
    Cancel(p, f, Pow(a, p - 1), 1);
  }
}
