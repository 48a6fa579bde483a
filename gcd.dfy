/** `gcd` and `lcm` of numeric-bignum.ts over exact integers. */
module GcdLcm {
  import opened Arith

  /** decimal.js `modulo` in its default mode: the remainder of the division
      truncated towards zero, so it carries the sign of the dividend. */
  function TruncMod(a: int, b: int): (r: int)
    requires b != 0
    ensures Abs(r) < Abs(b)
    ensures Divides(b, a - r)
    ensures r != 0 ==> (r < 0 <==> a < 0)
  {
    TruncModFacts(a, b);
    if a < 0 then -(Abs(a) % Abs(b)) else Abs(a) % Abs(b)
  }

  lemma TruncModFacts(a: int, b: int)
    requires b != 0
    ensures var m := Abs(a) % Abs(b);
      0 <= m < Abs(b) && Divides(b, a - (if a < 0 then -m else m))
  {
    var m, q := Abs(a) % Abs(b), Abs(a) / Abs(b);
    assert Abs(a) == Abs(b) * q + m;
    var s := if a < 0 then -1 else 1;
    var t := if b < 0 then -1 else 1;
    assert a - s * m == s * (Abs(a) - m);
    assert Abs(b) == t * b;
    DividesBy(b, a - s * m, s * t * q);
  }

  /** Euclid's algorithm as the source runs it: swap in the remainder until
      the second operand is zero, then take the absolute value. */
  function Euclid(a: int, b: int): int
    decreases Abs(b)
  {
    if b == 0 then Abs(a) else Euclid(b, TruncMod(a, b))
  }

  /** Euclid's result is the greatest common divisor in the divisibility order. */
  lemma {:induction false} EuclidIsGcd(a: int, b: int)
    ensures Euclid(a, b) >= 0
    ensures Divides(Euclid(a, b), a) && Divides(Euclid(a, b), b)
    ensures forall d :: Divides(d, a) && Divides(d, b) ==> Divides(d, Euclid(a, b))
    decreases Abs(b)
  {
    if b == 0 {
      DividesBy(Abs(a), a, if a < 0 then -1 else 1);
      DividesBy(Abs(a), 0, 0);
      forall d | Divides(d, a) ensures Divides(d, Abs(a)) {
        var q :| a == d * q;
        DividesBy(d, Abs(a), if a < 0 then -q else q);
      }
    } else {
      var r := TruncMod(a, b);
      EuclidIsGcd(b, r);
      var g := Euclid(b, r);
      var t :| a - r == b * t;
      DividesCombination(g, r, b, -t);
      assert r - (-t) * b == a;
      forall d | Divides(d, a) && Divides(d, b) ensures Divides(d, g) {
        DividesCombination(d, a, b, t);
      }
    }
  }

  lemma EuclidZero(a: int, b: int)
    ensures Euclid(a, b) == 0 <==> a == 0 && b == 0
  {
    EuclidIsGcd(a, b);
    if Euclid(a, b) == 0 {
      var qa :| a == 0 * qa;
      var qb :| b == 0 * qb;
    }
  }

  /** The source's `gcd`: the Euclidean loop over truncated remainders. */
  method Gcd(a: int, b: int) returns (g: int)
    ensures g == Euclid(a, b)
    ensures g >= 0 && Divides(g, a) && Divides(g, b)
    ensures forall d :: Divides(d, a) && Divides(d, b) ==> Divides(d, g)
    ensures b == 0 ==> g == Abs(a)
  {
    var x, y := a, b;
    while y != 0
      invariant Euclid(x, y) == Euclid(a, b)
      decreases Abs(y)
    {
      x, y := y, TruncMod(x, y);
    }
    g := Abs(x);
    EuclidIsGcd(a, b);
  }

  /** decimal.js `div` of two integers: the exact quotient, NaN for 0 / 0 and
      a signed infinity for any other division by zero. */
  function Div(x: int, y: int): (r: Decimal)
    ensures r.Finite? <==> y != 0
    ensures r.Finite? ==> r.value * y as real == x as real
    ensures r.NaN? <==> x == 0 && y == 0
  {
    if y == 0 then (if x == 0 then NaN else Infinity(x < 0))
    else Finite(x as real / y as real)
  }

  lemma DivExact(x: int, y: int, q: int)
    requires y != 0 && x == y * q
    ensures Div(x, y) == Finite(q as real)
  {
    assert x as real == y as real * q as real;
  }

  lemma CofactorProducts(a: int, b: int, g: int, qa: int, qb: int)
    requires a == g * qa && b == g * qb
    ensures a * b == g * (qa * b) && qa * b == a * qb
    ensures (qa * b) * g == a * b
  {
    calc {
      a * b;
      (g * qa) * b;
      g * (qa * b);
    }
    calc {
      qa * b;
      qa * (g * qb);
      (g * qa) * qb;
    }
  }

  /** The source's `lcm`: the product divided by the gcd. It is NaN exactly
      when both operands are zero, and otherwise an integer multiple of both
      operands whose product with the gcd is the product of the operands. */
  method Lcm(a: int, b: int) returns (r: Decimal)
    ensures r.NaN? <==> a == 0 && b == 0
    ensures !r.Infinity?
    ensures r.Finite? ==> IsInteger(r)
    ensures r.Finite? ==> r.value.Floor * Euclid(a, b) == a * b
    ensures r.Finite? ==> Divides(a, r.value.Floor) && Divides(b, r.value.Floor)
  {
    var g := Gcd(a, b);
    EuclidZero(a, b);
    r := Div(a * b, g);
    if g != 0 {
      var qa :| a == g * qa;
      var qb :| b == g * qb;
      var m := qa * b;
      CofactorProducts(a, b, g, qa, qb);
      DivExact(a * b, g, m);
      assert r.value.Floor == m;
      DividesBy(a, m, qb);
      DividesBy(b, m, qa);
    }
  }
}
