/** The host's 32-bit `int` and C++'s truncating division and remainder. */
module Int32 {

  const INT_MIN: int := -0x8000_0000
  const INT_MAX: int := 0x7fff_ffff

  predicate InRange(n: int) {
    INT_MIN <= n <= INT_MAX
  }

  /** The values a C++ `int` can hold. */
  type int32 = n: int | -0x8000_0000 <= n <= 0x7fff_ffff

  function Abs(n: int): nat {
    if n < 0 then -n else n
  }

  /** C++ `/` on integers: the quotient rounded toward zero. */
  function TruncDiv(a: int, b: int): int
    requires b != 0
  {
    var q := Abs(a) / Abs(b);
    if (a < 0) == (b < 0) then q else -q
  }

  /** C++ `%` on integers: the remainder left by `TruncDiv`. */
  function TruncRem(a: int, b: int): int
    requires b != 0
  {
    a - b * TruncDiv(a, b)
  }

  /** Truncating division against its defining properties: the quotient times the
      divisor plus the remainder gives back the dividend, the remainder is smaller
      than the divisor in magnitude, and it is zero or has the dividend's sign. */
  lemma TruncDivMod(a: int, b: int)
    requires b != 0
    ensures TruncDiv(a, b) * b + TruncRem(a, b) == a
    ensures Abs(TruncRem(a, b)) < Abs(b)
    ensures TruncRem(a, b) == 0 || (TruncRem(a, b) < 0 <==> a < 0)
    ensures Abs(TruncDiv(a, b)) * Abs(b) <= Abs(a)
  {
    var d: int := Abs(b);
    var q, m, p := EuclidParts(Abs(a), d);
    var t := TruncDiv(a, b);
    assert t == if (a < 0) == (b < 0) then q else -q;
    assert Abs(t) == q;
    SignedProduct(q, d, a < 0, b < 0);
    assert b == if b < 0 then -d else d;
    assert b * t == if a < 0 then -p else p;
    assert t * b == b * t;
    assert TruncRem(a, b) == if a < 0 then -m else m;
  }

  /** Euclidean division of a natural number by a positive one, with the product
      of quotient and divisor named. */
  lemma EuclidParts(n: nat, d: int) returns (q: int, m: int, p: int)
    requires d > 0
    ensures q == n / d && m == n % d && p == q * d
    ensures n == p + m && 0 <= m < d && 0 <= q
  {
    q := n / d;
    m := n % d;
    p := q * d;
  }

  /** The product of a signed quotient with a signed divisor, by cases on the signs. */
  lemma SignedProduct(q: int, d: int, negA: bool, negB: bool)
    ensures (if negB then -d else d) * (if negA == negB then q else -q) == if negA then -(q * d) else q * d
  {
    if negA && negB {
      assert (-d) * q == -(q * d);
    } else if negA {
      assert d * (-q) == -(q * d);
    } else if negB {
      assert (-d) * (-q) == q * d;
    }
  }

  /** The truncated quotient is no larger in magnitude than the dividend. */
  lemma TruncDivBound(a: int, b: int)
    requires b != 0
    ensures Abs(TruncDiv(a, b)) <= Abs(a)
  {
    var d := Abs(b);
    var q := Abs(a) / d;
    assert q * d <= Abs(a);
    NoSmallerThanFactor(q, d);
  }

  lemma NoSmallerThanFactor(q: nat, d: nat)
    requires d >= 1
    ensures q <= q * d
  {
    if d > 1 {
      NoSmallerThanFactor(q, d - 1);
      assert q * d == q * (d - 1) + q;
    }
  }
}
