/** Exact integer arithmetic shared by the numeric routines: powers, factorials,
    divisibility and primality, and the truncating remainder of decimal.js. */
module Arith {

  datatype Option<T> = None | Some(value: T)

  /** A decimal.js value as the numeric routines see it: a finite number,
      NaN, or a signed infinity. */
  datatype Decimal = Finite(value: real) | NaN | Infinity(negative: bool)

  predicate IsInteger(d: Decimal) {
    d.Finite? && d.value.Floor as real == d.value
  }

  /** `Number.MAX_SAFE_INTEGER`, 2^53 - 1. */
  const MaxSafeInteger: int := 9007199254740991

  function Abs(x: int): nat {
    if x < 0 then -x else x
  }

  function Pow(b: int, e: nat): (r: int)
    ensures b >= 1 ==> r >= 1
    decreases e
  {
    if e == 0 then 1 else b * Pow(b, e - 1)
  }

  lemma {:induction false} PowAdd(b: int, x: nat, y: nat)
    ensures Pow(b, x + y) == Pow(b, x) * Pow(b, y)
    decreases x
  {
    if x > 0 {
      PowAdd(b, x - 1, y);
      MulAssoc(b, Pow(b, x - 1), Pow(b, y));
    }
  }

  lemma {:induction false} PowOfProduct(a: int, b: int, e: nat)
    ensures Pow(a * b, e) == Pow(a, e) * Pow(b, e)
    decreases e
  {
    if e > 0 {
      PowOfProduct(a, b, e - 1);
      var x, y := Pow(a, e - 1), Pow(b, e - 1);
      assert (a * b) * (x * y) == (a * x) * (b * y);
    }
  }

  lemma {:induction false} PowOfPow(b: int, x: nat, e: nat)
    ensures Pow(Pow(b, x), e) == Pow(b, x * e)
    decreases e
  {
    if e > 0 {
      PowOfPow(b, x, e - 1);
      assert x * e == x + x * (e - 1);
      PowAdd(b, x, x * (e - 1));
    }
  }

  lemma {:induction false} PowOne(e: nat)
    ensures Pow(1, e) == 1
    decreases e
  {
    if e > 0 {
      PowOne(e - 1);
    }
  }

  lemma MulMonotone(a: int, b: int, c: int, d: int)
    requires 0 <= a <= b && 0 <= c <= d
    ensures a * c <= b * d
  {
  }

  lemma MulAssoc(a: int, b: int, c: int)
    ensures a * (b * c) == (a * b) * c
  {
  }

  lemma {:induction false} PowPositive(b: int, e: nat)
    requires b >= 1
    ensures Pow(b, e) >= 1
    decreases e
  {
    if e > 0 {
      PowPositive(b, e - 1);
    }
  }

  /** d divides n: n is an integer multiple of d. */
  ghost predicate Divides(d: int, n: int) {
    exists q :: n == d * q
  }

  lemma DividesBy(d: int, n: int, q: int)
    requires n == d * q
    ensures Divides(d, n)
  {
  }

  lemma ModZeroIffDivides(n: int, d: int)
    requires d > 0
    ensures n % d == 0 <==> Divides(d, n)
  {
    if n % d == 0 {
      DividesBy(d, n, n / d);
    }
    if Divides(d, n) {
      var q :| n == d * q;
      assert n == d * q + 0;
      assert n / d == q by {
        DivUnique(n, d, q);
      }
    }
  }

  lemma DivUnique(n: int, d: int, q: int)
    requires d > 0 && n == d * q
    ensures n / d == q && n % d == 0
  {
    var r, p := n % d, n / d;
    assert d * (q - p) == r;
    MulAwayFromZero(d, q - p);
  }

  lemma ModUnique(n: int, d: int, q: int, r: int)
    requires d > 0 && n == d * q + r && 0 <= r < d
    ensures n / d == q && n % d == r
  {
    var q', r' := n / d, n % d;
    assert d * (q - q') == r' - r;
    MulAwayFromZero(d, q - q');
  }

  lemma MulAwayFromZero(d: int, t: int)
    requires d > 0
    ensures t >= 1 ==> d * t >= d
    ensures t <= -1 ==> d * t <= -d
  {
    if t >= 1 {
      assert d * t == d + d * (t - 1);
    } else if t <= -1 {
      assert d * t == -d + d * (t + 1);
    }
  }

  lemma DividesCombination(d: int, a: int, b: int, x: int)
    requires Divides(d, a) && Divides(d, b)
    ensures Divides(d, a - x * b)
  {
    var qa :| a == d * qa;
    var qb :| b == d * qb;
    assert a - x * b == d * (qa - x * qb);
  }

  lemma DividesTransitive(a: int, b: int, c: int)
    requires Divides(a, b) && Divides(b, c)
    ensures Divides(a, c)
  {
    var p :| b == a * p;
    var q :| c == b * q;
    assert c == a * (p * q);
  }

  ghost predicate IsPrime(p: int) {
    p >= 2 && forall d :: 2 <= d < p ==> !Divides(d, p)
  }

  /** Exact division of a positive number by at least 2 leaves a smaller
      positive quotient. */
  lemma QuotientBounds(n: int, d: int)
    requires n >= 1 && d >= 2 && n % d == 0
    ensures n == d * (n / d) && 1 <= n / d < n
  {
    var q := n / d;
    assert n == d * q;
    assert d * q >= 2 * q;
  }

  /** A number at least 2 whose square is at most `n` is below `n`. */
  lemma SquareBelow(k: int, n: int)
    requires k >= 2 && k * k <= n
    ensures k < n
  {
    assert k * k >= 2 * k;
  }

  lemma MaxSafeIsPow()
    ensures MaxSafeInteger == Pow(2, 53) - 1
  {
    assert Pow(2, 10) == 1024;
    PowAdd(2, 10, 10);
    assert Pow(2, 20) == 1048576;
    PowAdd(2, 20, 20);
    assert Pow(2, 40) == 1099511627776;
    PowAdd(2, 40, 10);
    assert Pow(2, 50) == 1125899906842624;
    PowAdd(2, 50, 3);
  }

  function Fact(n: nat): nat {
    if n == 0 then 1 else n * Fact(n - 1)
  }
}
