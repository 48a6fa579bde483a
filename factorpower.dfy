/** `factorPower` of numeric-bignum.ts: split a positive integer into an
    exact power and a remainder, through its prime factorization. */
module FactorPower {
  import opened Arith
  import opened Factorization

  /** Each factor with its multiplicity divided by `e`, rounded down. */
  function Quotients(m: FactorMap, e: nat): FactorMap
    requires e >= 1
    decreases |m|
  {
    if |m| == 0 then []
    else Quotients(m[..|m| - 1], e) + [(m[|m| - 1].0, m[|m| - 1].1 / e)]
  }

  /** Each factor with the remainder of its multiplicity divided by `e`. */
  function Remainders(m: FactorMap, e: nat): (r: FactorMap)
    requires e >= 1
    ensures |r| == |m| && forall t :: 0 <= t < |r| ==> r[t].0 == m[t].0 && r[t].1 < e
    decreases |m|
  {
    if |m| == 0 then []
    else Remainders(m[..|m| - 1], e) + [(m[|m| - 1].0, m[|m| - 1].1 % e)]
  }

  /** The power part raised to `e`, times the remainder part, gives back the
      number the factor map stands for. */
  lemma {:induction false} PowerSplit(m: FactorMap, e: nat)
    requires e >= 1
    ensures Pow(Product(Quotients(m, e)), e) * Product(Remainders(m, e)) == Product(m)
    decreases |m|
  {
    if |m| > 0 {
      var m', k, v := m[..|m| - 1], m[|m| - 1].0, m[|m| - 1].1;
      PowerSplit(m', e);
      LastEntry(m, e);
      EntrySplit(k, v, e);
      Combine(Product(Quotients(m', e)), Pow(k, v / e), Product(Remainders(m', e)),
        Pow(k, v % e), Product(m'), Pow(k, v), e);
    } else {
      PowOne(e);
    }
  }

  /** A prime power splits into an `e`-th power and a remainder. */
  lemma EntrySplit(k: int, v: nat, e: nat)
    requires e >= 1
    ensures Pow(Pow(k, v / e), e) * Pow(k, v % e) == Pow(k, v)
  {
    PowOfPow(k, v / e, e);
    assert v / e * e + v % e == v;
    PowAdd(k, v / e * e, v % e);
  }

  lemma LastEntry(m: FactorMap, e: nat)
    requires e >= 1 && |m| > 0
    ensures var m', k, v := m[..|m| - 1], m[|m| - 1].0, m[|m| - 1].1;
      Product(m) == Product(m') * Pow(k, v)
      && Product(Quotients(m, e)) == Product(Quotients(m', e)) * Pow(k, v / e)
      && Product(Remainders(m, e)) == Product(Remainders(m', e)) * Pow(k, v % e)
  {
    var m', k, v := m[..|m| - 1], m[|m| - 1].0, m[|m| - 1].1;
    ProductAppend(Quotients(m', e), k, v / e);
    ProductAppend(Remainders(m', e), k, v % e);
  }

  lemma Combine(q: int, kq: int, r: int, kr: int, p: int, pk: int, e: nat)
    requires Pow(q, e) * r == p && Pow(kq, e) * kr == pk
    ensures Pow(q * kq, e) * (r * kr) == p * pk
  {
    PowOfProduct(q, kq, e);
    var qe, ke := Pow(q, e), Pow(kq, e);
    assert (qe * ke) * (r * kr) == (qe * r) * (ke * kr);
  }

  /** The loop of `factorPower` over a factor map: it multiplies up each
      factor to the quotient and to the remainder of its multiplicity by the
      exponent, and the two results recombine into the map's product. */
  method SplitFactors(factors: FactorMap, exponent: int) returns (f: int, r: int)
    requires exponent >= 1
    ensures f == Product(Quotients(factors, exponent))
    ensures r == Product(Remainders(factors, exponent))
    ensures Pow(f, exponent) * r == Product(factors)
  {
    f, r := 1, 1;
    for t := 0 to |factors|
      invariant f == Product(Quotients(factors[..t], exponent))
      invariant r == Product(Remainders(factors[..t], exponent))
    {
      var k, v := factors[t].0, factors[t].1;
      assert factors[..t + 1][..t] == factors[..t];
      ProductAppend(Quotients(factors[..t], exponent), k, v / exponent);
      ProductAppend(Remainders(factors[..t], exponent), k, v % exponent);
      f := f * Pow(k, v / exponent);
      r := r * Pow(k, v % exponent);
    }
    assert factors[..|factors|] == factors;
    PowerSplit(factors, exponent);
  }

  /** `factorPower` on the corrected factorization of `PrimeFactors`: for a
      positive integer `n` and a positive integer exponent, a factor `f` and
      a root `r` with `f^exponent * r == n`, where `r` keeps every prime of
      `n` to less than the exponent. */
  method FactorPower(n: int, exponent: int) returns (f: int, r: int)
    requires n >= 1 && exponent >= 1
    ensures Pow(f, exponent) * r == n
    ensures f == Product(Quotients(WheelFactors(n), exponent))
    ensures r == Product(Remainders(WheelFactors(n), exponent))
  {
    var factors := PrimeFactors(n);
    f, r := SplitFactors(factors, exponent);
  }

  /** `factorPower` as written, on the big-number path of `primeFactors` as
      written: `f^exponent * r` gives back `n` exactly when 3 does not
      divide `n`. */
  method FactorPowerAsWritten(n: int, exponent: int) returns (f: int, r: int)
    requires n >= 1 && exponent >= 1
    ensures Pow(f, exponent) * r == Product(WheelFactorsAsWritten(n))
    ensures Pow(f, exponent) * r == n <==> n % 3 != 0
    ensures f == Product(Quotients(WheelFactorsAsWritten(n), exponent))
    ensures r == Product(Remainders(WheelFactorsAsWritten(n), exponent))
  {
    var factors := PrimeFactorsAsWritten(n);
    f, r := SplitFactors(factors, exponent);
  }

  /** For 3 * 2^53 and exponent 2, the code as written returns f = 2^26 and
      r = 30, whose recombination is 5n; the corrected code returns r = 6. */
  lemma FactorPowerAsWrittenOf3TwoTo53()
    ensures Product(Quotients(WheelFactorsAsWritten(3 * TwoTo53), 2)) == Pow(2, 26)
    ensures Product(Remainders(WheelFactorsAsWritten(3 * TwoTo53), 2)) == 30
    ensures Pow(Pow(2, 26), 2) * 30 == 5 * (3 * TwoTo53)
    ensures Product(Quotients(WheelFactors(3 * TwoTo53), 2)) == Pow(2, 26)
    ensures Product(Remainders(WheelFactors(3 * TwoTo53), 2)) == 6
  {
    AsWrittenCountsThreesAsFives();
    SplitWithFive(26);
    SplitWithoutFive(26);
    TwoTo26Squared();
  }

  /** Appending a factor multiplies the power part and the remainder part by
      its share. */
  lemma SplitAppend(m: FactorMap, k: int, v: nat, e: nat)
    requires e >= 1
    ensures Product(Quotients(m + [(k, v)], e)) == Product(Quotients(m, e)) * Pow(k, v / e)
    ensures Product(Remainders(m + [(k, v)], e)) == Product(Remainders(m, e)) * Pow(k, v % e)
  {
    assert (m + [(k, v)])[..|m|] == m;
    ProductAppend(Quotients(m, e), k, v / e);
    ProductAppend(Remainders(m, e), k, v % e);
  }

  /** The split by 2 of k^(2a+1), the first entry of each example. */
  lemma SplitOddTwo(k: int, a: nat)
    ensures Product(Quotients([(k, 2 * a + 1)], 2)) == Pow(k, a)
    ensures Product(Remainders([(k, 2 * a + 1)], 2)) == k
  {
    var s: FactorMap := [(k, 2 * a + 1)];
    ModUnique(2 * a + 1, 2, a, 1);
    assert s[..0] == [];
    assert Quotients(s, 2) == [(k, a)];
    assert Remainders(s, 2) == [(k, 1)];
    ProductAppend([], k, a);
    ProductAppend([], k, 1);
    assert [] + [(k, a)] == [(k, a)] && [] + [(k, 1)] == [(k, 1)];
  }

  lemma SplitWithFive(a: nat)
    ensures Product(Quotients([(2, 2 * a + 1), (3, 1), (5, 1)], 2)) == Pow(2, a)
    ensures Product(Remainders([(2, 2 * a + 1), (3, 1), (5, 1)], 2)) == 30
  {
    SplitWithoutFive(a);
    SplitAppend([(2, 2 * a + 1), (3, 1)], 5, 1, 2);
    assert [(2, 2 * a + 1), (3, 1)] + [(5, 1)] == [(2, 2 * a + 1), (3, 1), (5, 1)];
  }

  lemma SplitWithoutFive(a: nat)
    ensures Product(Quotients([(2, 2 * a + 1), (3, 1)], 2)) == Pow(2, a)
    ensures Product(Remainders([(2, 2 * a + 1), (3, 1)], 2)) == 6
  {
    SplitOddTwo(2, a);
    SplitAppend([(2, 2 * a + 1)], 3, 1, 2);
    assert [(2, 2 * a + 1)] + [(3, 1)] == [(2, 2 * a + 1), (3, 1)];
  }

  /** For 49 * 2^53 and exponent 2, the code as written returns r = 98,
      which still holds the square 49; the corrected code returns
      f = 2^26 * 7 and r = 2. */
  lemma FactorPowerAsWrittenOf49TwoTo53()
    ensures Product(Remainders(WheelFactorsAsWritten(49 * TwoTo53), 2)) == 98
    ensures Product(Quotients(WheelFactors(49 * TwoTo53), 2)) == Pow(2, 26) * 7
    ensures Product(Remainders(WheelFactors(49 * TwoTo53), 2)) == 2
  {
    AsWrittenMissesPrimeSquare();
    SplitWithSquare(26);
    SplitOfSquare(26);
  }

  lemma SplitWithSquare(a: nat)
    ensures Product(Remainders([(2, 2 * a + 1), (49, 1)], 2)) == 98
  {
    SplitOddTwo(2, a);
    SplitAppend([(2, 2 * a + 1)], 49, 1, 2);
    assert [(2, 2 * a + 1)] + [(49, 1)] == [(2, 2 * a + 1), (49, 1)];
  }

  lemma SplitOfSquare(a: nat)
    ensures Product(Quotients([(2, 2 * a + 1), (7, 2)], 2)) == Pow(2, a) * 7
    ensures Product(Remainders([(2, 2 * a + 1), (7, 2)], 2)) == 2
  {
    SplitOddTwo(2, a);
    SplitAppend([(2, 2 * a + 1)], 7, 2, 2);
    assert [(2, 2 * a + 1)] + [(7, 2)] == [(2, 2 * a + 1), (7, 2)];
  }

  lemma TwoTo26Squared()
    ensures Pow(Pow(2, 26), 2) * 2 == TwoTo53
  {
    PowOfPow(2, 26, 2);
    MaxSafeIsPow();
  }

  /** The example of the source's documentation: 75 = 5^2 * 3. */
  lemma FactorPowerOf75()
    ensures WheelFactors(75) == [(3, 1), (5, 2)]
    ensures Product(Quotients(WheelFactors(75), 2)) == 5
    ensures Product(Remainders(WheelFactors(75), 2)) == 3
  {
    assert Strip(75, 2, 0) == (75, 0);
    assert Strip(75, 3, 0) == (25, 1);
    assert Strip(25, 5, 0) == (1, 2);
    assert SmallMap(0, 1, 2) == [(3, 1), (5, 2)];
  }
}
