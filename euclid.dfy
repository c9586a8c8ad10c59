/**
 * `gcd` (src/main.rs): the iterative Euclidean algorithm on `u64`, and what it
 * computes, stated by divisibility.
 */
module Euclid {
  import opened Words

  /** `d` divides `n`; only 0 is a multiple of 0. */
  ghost predicate Divides(d: nat, n: nat)
  {
    if d == 0 then n == 0 else n % d == 0
  }

  /**
   * `g` is a greatest common divisor of `a` and `b`: it divides both, and every
   * common divisor divides it. This also fixes gcd(0, 0) = 0.
   */
  ghost predicate IsGcd(g: nat, a: nat, b: nat)
  {
    && Divides(g, a)
    && Divides(g, b)
    && forall d: nat :: Divides(d, a) && Divides(d, b) ==> Divides(d, g)
  }

  /** Euclidean division has one quotient and one remainder. */
  lemma ModUnique(n: int, d: int, q: int, r: int)
    requires d > 0 && 0 <= r < d && n == q * d + r
    ensures n % d == r
  {
    var q', r' := n / d, n % d;
    assert n == q' * d + r';
    assert (q - q') * d == r' - r;
    if q - q' >= 1 {
      assert false;
    } else if q' - q >= 1 {
      assert false;
    }
  }

  lemma MultipleDivides(d: nat, k: nat)
    requires d > 0
    ensures (d * k) % d == 0
  {
    ModUnique(d * k, d, k, 0);
  }

  /** A nonzero multiple of `d` is at least `d`. */
  lemma DivisorBelow(d: nat, n: nat)
    requires Divides(d, n) && n > 0
    ensures d <= n
  {
  }

  /** Two numbers that divide each other are equal. */
  lemma DividesAntisymmetric(x: nat, y: nat)
    requires Divides(x, y) && Divides(y, x)
    ensures x == y
  {
    if x > 0 && y > 0 {
      DivisorBelow(x, y);
      DivisorBelow(y, x);
    }
  }

  /** One Euclidean step keeps the set of common divisors: (a, b) and (b, a % b) share them. */
  lemma StepKeepsDivisors(a: nat, b: nat, d: nat)
    requires b > 0
    ensures Divides(d, a) && Divides(d, b) <==> Divides(d, b) && Divides(d, a % b)
  {
    var q, r := a / b, a % b;
    assert a == q * b + r;
    if d > 0 && Divides(d, b) {
      var j := b / d;
      assert b == d * j;
      assert q * b == d * (q * j);
      if Divides(d, a) {
        var i := a / d;
        assert a == d * i;
        assert r == d * (i - q * j);
        assert i - q * j >= 0;
        MultipleDivides(d, i - q * j);
      }
      if Divides(d, r) {
        var k := r / d;
        assert r == d * k;
        assert a == d * (q * j + k);
        MultipleDivides(d, q * j + k);
      }
    }
  }

  lemma SameDivisors(a: nat, b: nat)
    requires b > 0
    ensures forall d: nat :: Divides(d, a) && Divides(d, b) <==> Divides(d, b) && Divides(d, a % b)
  {
    forall d: nat
      ensures Divides(d, a) && Divides(d, b) <==> Divides(d, b) && Divides(d, a % b)
    {
      StepKeepsDivisors(a, b, d);
    }
  }

  /** (x, y) and (a, b) have the same common divisors. */
  ghost predicate SameCommonDivisors(x: nat, y: nat, a: nat, b: nat)
  {
    forall d: nat :: Divides(d, x) && Divides(d, y) <==> Divides(d, a) && Divides(d, b)
  }

  /** There is only one greatest common divisor. */
  lemma GcdUnique(g: nat, h: nat, a: nat, b: nat)
    requires IsGcd(g, a, b) && IsGcd(h, a, b)
    ensures g == h
  {
    DividesAntisymmetric(g, h);
  }

  /**
   * The value computed by `gcd`, by recursion on `b`; it is the value
   * `fn gcd` returns when `f2` calls it for the token `gcd`.
   */
  function GcdOf(a: u64, b: u64): u64
    decreases b
  {
    if b == 0 then a else GcdOf(b, a % b)
  }

  /** Each step of the recursion keeps the common divisors, so the result is the gcd. */
  lemma {:induction false} GcdOfIsGcd(a: u64, b: u64)
    ensures IsGcd(GcdOf(a, b) as nat, a as nat, b as nat)
    decreases b
  {
    if b == 0 {
      assert Divides(a as nat, 0);
      assert a > 0 ==> (a as nat) % (a as nat) == 0;
    } else {
      SameDivisors(a as nat, b as nat);
      GcdOfIsGcd(b, a % b);
    }
  }

  /** gcd(a, 0) == a and gcd(0, b) == b */
  lemma GcdWithZero(a: u64)
    ensures GcdOf(a, 0) == a && GcdOf(0, a) == a
  {
  }

  /** `fn gcd(mut a: u64, mut b: u64) -> u64`, the loop as written. */
  method Gcd(a: u64, b: u64) returns (g: u64)
    ensures IsGcd(g as nat, a as nat, b as nat)
    ensures g == GcdOf(a, b)
  {
    var x, y := a, b;
    while y != 0
      invariant SameCommonDivisors(x as nat, y as nat, a as nat, b as nat)
      decreases y
    {
      SameDivisors(x as nat, y as nat);
      var r := x % y;
      x := y;
      y := r;
    }
    assert Divides(x as nat, 0);
    assert x > 0 ==> (x as nat) % (x as nat) == 0;
    g := x;
    GcdOfIsGcd(a, b);
    GcdUnique(g as nat, GcdOf(a, b) as nat, a as nat, b as nat);
  }
}
