/** `factorial` of numeric-bignum.ts: NaN for anything but a non-negative
    integer, a table below 10, a product loop past `Number.MAX_SAFE_INTEGER`,
    one multiplication for odd numbers, and a pairing loop for even ones. */
module Factorial {
  import opened Arith

  /** The source's table of 0! to 10!. */
  const SmallFactorials: seq<int> := [1, 1, 2, 6, 24, 120, 720, 5040, 40320, 362880, 3628800]

  lemma SmallFactorialsAreFactorials()
    ensures forall k | 0 <= k < |SmallFactorials| :: SmallFactorials[k] == Fact(k)
  {
    assert Fact(10) == 3628800;
  }

  lemma {:induction false} FactPositive(n: nat)
    ensures Fact(n) >= 1
    decreases n
  {
    if n > 0 {
      FactPositive(n - 1);
    }
  }

  /** From 2 on, consecutive factorials differ. */
  lemma FactGrows(n: nat)
    requires n >= 2
    ensures Fact(n - 1) < Fact(n)
  {
    FactPositive(n - 1);
    assert Fact(n) == n * Fact(n - 1);
  }

  /** The loop for numbers past `Number.MAX_SAFE_INTEGER` as written: it
      multiplies 2, 3, ... while `i < n`, so it stops one factor short and
      yields (n - 1)!. */
  method HugeFactorialAsWritten(n: int) returns (val: int)
    requires n >= 2
    ensures val == Fact(n - 1)
    ensures val < Fact(n)
  {
    val := 1;
    var i := 2;
    while i < n
      invariant 2 <= i <= n && val == Fact(i - 1)
    {
      val := val * i;
      i := i + 1;
    }
    FactGrows(n);
  }

  /** The same loop running while `i <= n`: it yields n!. */
  method HugeFactorial(n: int) returns (val: int)
    requires n >= 1
    ensures val == Fact(n)
  {
    val := 1;
    var i := 2;
    while i <= n
      invariant 2 <= i <= n + 1 && val == Fact(i - 1)
    {
      val := val * i;
      i := i + 1;
    }
  }

  /** One step of the even loop: the running sum becomes the product of the
      next pair, (j + 2) * (n - j - 1), and the product keeps its relation to
      n!. */
  lemma PairingStep(n: int, j: nat, sum: int, val: int)
    requires 0 <= j && j + 2 <= n - j
    requires sum == (j + 1) * (n - j)
    requires val * Fact(n - j - 1) == Fact(j + 1) * Fact(n)
    ensures sum + (n - 2 * (j + 1)) == (j + 2) * (n - j - 1)
    ensures val * ((j + 2) * (n - j - 1)) * Fact(n - j - 2) == Fact(j + 2) * Fact(n)
  {
    PairSum(n, j);
    var a, b := Fact(n - j - 2), Fact(j + 1);
    assert Fact(n - j - 1) == (n - j - 1) * a;
    assert Fact(j + 2) == (j + 2) * b;
    MoveFactor(val, j + 2, n - j - 1, a, b, Fact(n));
  }

  lemma PairSum(n: int, j: int)
    ensures (j + 1) * (n - j) + (n - 2 * (j + 1)) == (j + 2) * (n - j - 1)
  {
  }

  lemma MoveFactor(x: int, p: int, q: int, a: int, b: int, f: int)
    requires x * (q * a) == b * f
    ensures x * (p * q) * a == (p * b) * f
  {
    calc {
      x * (p * q) * a;
      p * (x * (q * a));
      p * (b * f);
    }
  }

  /** The loop for even numbers: it multiplies the sums n, n + (n - 2),
      n + (n - 2) + (n - 4), ..., which are the products of the pairs
      1 * n, 2 * (n - 1), 3 * (n - 2), ..., so it ends with n!. */
  method EvenFactorial(n: int) returns (val: int)
    requires n >= 2 && n % 2 == 0
    ensures val == Fact(n)
  {
    var loop, sum := n, n;
    val := n;
    ghost var j: nat := 0;
    assert Fact(n) == n * Fact(n - 1);
    while loop > 2
      invariant loop == n - 2 * j && loop >= 2
      invariant sum == (j + 1) * (n - j)
      invariant val * Fact(n - j - 1) == Fact(j + 1) * Fact(n)
    {
      PairingStep(n, j, sum, val);
      loop := loop - 2;
      sum := sum + loop;
      val := val * sum;
      j := j + 1;
    }
    assert n - j - 1 == j + 1;
    FactPositive(j + 1);
    CancelFactor(val, Fact(j + 1), Fact(n));
  }

  lemma CancelFactor(x: int, f: int, y: int)
    requires f >= 1 && x * f == f * y
    ensures x == y
  {
    assert (x - y) * f == 0;
  }

  /** The source's `factorial` with the loop past `Number.MAX_SAFE_INTEGER`
      running while `i <= n`: NaN exactly for a value that is not a
      non-negative integer, and n! for every non-negative integer n. */
  method Factorial(n: Decimal) returns (r: Decimal)
    ensures r.NaN? <==> !IsInteger(n) || n.value < 0.0
    ensures IsInteger(n) && n.value >= 0.0 ==> r == Finite(Fact(n.value.Floor) as real)
    decreases if n.Finite? && n.value >= 0.0 then n.value.Floor else 0
  {
    if !IsInteger(n) || n.value < 0.0 {
      return NaN;
    }
    var k := n.value.Floor;
    if k < 10 {
      SmallFactorialsAreFactorials();
      return Finite(SmallFactorials[k] as real);
    }
    if k > MaxSafeInteger {
      var val := HugeFactorial(k);
      return Finite(val as real);
    }
    if k % 2 == 1 {
      var p := Factorial(Finite((k - 1) as real));
      return Finite(k as real * p.value);
    }
    var val := EvenFactorial(k);
    r := Finite(val as real);
  }
}
