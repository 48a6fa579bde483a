/** `primeFactors` of numeric-bignum.ts on its big-number path: divide out
    2, 3 and 5, then try the divisors of the 2-3-5 wheel while their square
    is below what is left, and record the leftover as a last factor. */
module Factorization {
  import opened Arith
  import opened Wheel

  /** The insertion-ordered `Map` the source fills: pairs of a factor and its
      multiplicity, in the order the factors were first set. */
  type FactorMap = seq<(int, nat)>

  /** The position of factor `k`, if it is present. */
  function IndexOf(m: FactorMap, k: int): (r: Option<nat>)
    ensures r.Some? ==> r.value < |m| && m[r.value].0 == k
    ensures r.None? ==> forall t :: 0 <= t < |m| ==> m[t].0 != k
    decreases |m|
  {
    if |m| == 0 then None
    else if m[0].0 == k then Some(0)
    else match IndexOf(m[1..], k)
      case None => None
      case Some(t) => Some(t + 1)
  }

  /** `Map.get(k) ?? 0`. */
  function Get(m: FactorMap, k: int): nat {
    match IndexOf(m, k)
    case Some(t) => m[t].1
    case None => 0
  }

  /** `Map.set(k, v)`: a present factor keeps its place and takes the new
      multiplicity; a new factor goes at the end. */
  function SetEntry(m: FactorMap, k: int, v: nat): (r: FactorMap)
    ensures IndexOf(m, k).Some? ==> |r| == |m| && r == m[IndexOf(m, k).value := (k, v)]
    ensures IndexOf(m, k).None? ==> r == m + [(k, v)]
  {
    match IndexOf(m, k)
    case Some(t) => m[t := (k, v)]
    case None => m + [(k, v)]
  }

  /** `Map.set(k, v)` as a map: `k` reads back `v`, every other factor reads
      back what it did, the factors keep their order, and `k` is appended
      exactly when it was missing. */
  lemma SetEntryIsMapSet(m: FactorMap, k: int, v: nat)
    ensures Get(SetEntry(m, k, v), k) == v
    ensures forall x :: x != k ==> Get(SetEntry(m, k, v), x) == Get(m, x)
    ensures |SetEntry(m, k, v)| == |m| + (if IndexOf(m, k).None? then 1 else 0)
    ensures forall t :: 0 <= t < |m| ==> SetEntry(m, k, v)[t].0 == m[t].0
    ensures IndexOf(m, k).None? ==> SetEntry(m, k, v)[|m|].0 == k
  {
    var r := SetEntry(m, k, v);
    match IndexOf(m, k)
    case Some(t) =>
      SameKeysIndexOf(m, r);
      forall x | x != k ensures Get(r, x) == Get(m, x) {
        if IndexOf(m, x).Some? {
          assert IndexOf(m, x).value != t;
        }
      }
    case None =>
      AppendIndexOf(m, (k, v));
      assert r == m + [(k, v)] && r[|m|].0 == k;
      var i := IndexOf(r, k);
      assert i == Some(|m|);
  }

  /** Two maps with the same factor at every position find every factor at
      the same position. */
  lemma {:induction false} SameKeysIndexOf(m: FactorMap, r: FactorMap)
    requires |r| == |m| && forall t :: 0 <= t < |m| ==> r[t].0 == m[t].0
    ensures forall x :: IndexOf(r, x) == IndexOf(m, x)
    decreases |m|
  {
    if |m| > 0 {
      SameKeysIndexOf(m[1..], r[1..]);
    }
  }

  /** Appending an entry moves no factor that was present, and a missing
      factor other than the new one stays missing. */
  lemma {:induction false} AppendIndexOf(m: FactorMap, e: (int, nat))
    ensures forall x :: IndexOf(m, x).Some? ==> IndexOf(m + [e], x) == IndexOf(m, x)
    ensures forall x :: IndexOf(m, x).None? && x != e.0 ==> IndexOf(m + [e], x).None?
    decreases |m|
  {
    if |m| > 0 {
      AppendIndexOf(m[1..], e);
      assert (m + [e])[1..] == m[1..] + [e];
    }
  }

  /** `result.set(k, (result.get(k) ?? 0) + 1)`. */
  function Increment(m: FactorMap, k: int): FactorMap {
    SetEntry(m, k, Get(m, k) + 1)
  }

  /** The number a factor map stands for: the product of its prime powers. */
  function Product(m: FactorMap): int
    decreases |m|
  {
    if |m| == 0 then 1 else Product(m[..|m| - 1]) * Pow(m[|m| - 1].0, m[|m| - 1].1)
  }

  predicate IncreasingKeys(m: FactorMap) {
    forall a, b :: 0 <= a < b < |m| ==> m[a].0 < m[b].0
  }

  predicate PositiveCounts(m: FactorMap) {
    forall t :: 0 <= t < |m| ==> m[t].1 >= 1
  }

  predicate KeysAtMost(m: FactorMap, k: int) {
    forall t :: 0 <= t < |m| ==> m[t].0 <= k
  }

  ghost predicate PrimeKeys(m: FactorMap) {
    forall t :: 0 <= t < |m| ==> IsPrime(m[t].0)
  }

  /** A factorization: increasing prime factors, each at least once. */
  ghost predicate IsFactorization(m: FactorMap) {
    IncreasingKeys(m) && PositiveCounts(m) && PrimeKeys(m)
  }

  lemma ProductAppend(m: FactorMap, k: int, v: nat)
    ensures Product(m + [(k, v)]) == Product(m) * Pow(k, v)
  {
    assert (m + [(k, v)])[..|m|] == m;
  }

  /** Raising the multiplicity of one factor by one multiplies the product by it. */
  lemma {:induction false} ProductBump(m: FactorMap, t: nat)
    requires t < |m|
    ensures Product(m[t := (m[t].0, m[t].1 + 1)]) == Product(m) * m[t].0
    decreases |m|
  {
    var m' := m[t := (m[t].0, m[t].1 + 1)];
    var n := |m| - 1;
    var k := m[t].0;
    if t == n {
      assert m'[..n] == m[..n];
      assert Pow(k, m[t].1 + 1) == k * Pow(k, m[t].1);
      MulRearrange(Product(m[..n]), Pow(k, m[t].1), k);
    } else {
      assert m'[..n] == m[..n][t := (k, m[t].1 + 1)];
      ProductBump(m[..n], t);
      assert m'[n] == m[n];
      MulRearrange(Product(m[..n]), Pow(m[n].0, m[n].1), k);
    }
  }

  lemma MulRearrange(a: int, b: int, c: int)
    ensures a * (c * b) == (a * b) * c
    ensures (a * c) * b == (a * b) * c
  {
  }

  lemma ProductIncrement(m: FactorMap, k: int)
    ensures Product(Increment(m, k)) == Product(m) * k
  {
    match IndexOf(m, k)
    case Some(t) =>
      assert Increment(m, k) == m[t := (m[t].0, m[t].1 + 1)];
      ProductBump(m, t);
    case None =>
      ProductAppend(m, k, 1);
  }

  /** Recording a prime at least as large as every recorded factor keeps the
      map a factorization bounded by that prime. */
  lemma IncrementKeepsFactorization(m: FactorMap, k: int)
    requires IsFactorization(m) && KeysAtMost(m, k) && IsPrime(k)
    ensures IsFactorization(Increment(m, k)) && KeysAtMost(Increment(m, k), k)
  {
  }

  /** One trial-division loop: divide `n` by `p` while the remainder is zero,
      counting the divisions on top of `count`. What is left is not a
      multiple of `p`, and `n` is what is left times `p` to the number of
      divisions. */
  function Strip(n: int, p: int, count: nat): (r: (int, nat))
    requires n >= 1 && p >= 2
    ensures r.0 >= 1 && r.0 % p != 0 && r.1 >= count
    ensures n == r.0 * Pow(p, r.1 - count)
    decreases n
  {
    if n % p == 0 then
      QuotientBounds(n, p);
      var r := Strip(n / p, p, count + 1);
      StripStep(n, p, r.0, r.1 - count);
      r
    else (n, count)
  }

  lemma StripStep(n: int, p: int, rest: int, e: nat)
    requires p >= 2 && e >= 1 && n % p == 0 && n / p == rest * Pow(p, e - 1)
    ensures n == rest * Pow(p, e)
  {
    assert n == p * (n / p);
    assert Pow(p, e) == p * Pow(p, e - 1);
  }

  /** The map the divisions by 2, 3 and 5 leave: each prime that divided is
      set with its count, in the order 2, 3, 5. */
  function SmallMap(c2: nat, c3: nat, c5: nat): FactorMap {
    var m2 := if c2 > 0 then SetEntry([], 2, c2) else [];
    var m3 := if c3 > 0 then SetEntry(m2, 3, c3) else m2;
    if c5 > 0 then SetEntry(m3, 5, c5) else m3
  }

  /** The divisions by 2, 3 and 5 that come before the wheel. With
      `resetCount` the count is set back to zero before the fives (the
      corrected code); without it the count of threes carries over into the
      count of fives (the code as written). */
  function DivideOutSmall(n: int, resetCount: bool): (int, FactorMap)
    requires n >= 1
  {
    var (n2, c2) := Strip(n, 2, 0);
    var (n3, c3) := Strip(n2, 3, 0);
    var (n5, c5) := Strip(n3, 5, if resetCount then 0 else c3);
    (n5, SmallMap(c2, c3, c5))
  }

  /** The wheel loop: while `k * k < n` (or `k * k <= n` when `inclusive`),
      divide `n` by `k` and record `k` when it divides, else move `k` on by
      the next wheel gap. Yields the map and what is left of `n`. */
  function WheelLoop(n: int, k: int, i: nat, m: FactorMap, inclusive: bool): (r: (FactorMap, int))
    requires n >= 1 && k >= 2 && i < 8
    ensures r.1 >= 1
    decreases n, n - k
  {
    if k * k < n || (inclusive && k * k == n) then
      SquareBelow(k, n);
      if n % k == 0 then
        QuotientBounds(n, k);
        WheelLoop(n / k, k, i, Increment(m, k), inclusive)
      else
        WheelLoop(n, k + PrimeWheelInc[i], NextIndex(i), m, inclusive)
    else (m, n)
  }

  /** The big-number path of `primeFactors` as written: the count of threes
      is carried into the fives, the wheel runs while `k * k < n`, and the
      leftover is set with multiplicity 1. */
  function WheelFactorsAsWritten(n: int): FactorMap
    requires n >= 1
  {
    var (n5, m5) := DivideOutSmall(n, false);
    var (m, rest) := WheelLoop(n5, 7, 0, m5, false);
    if rest != 1 then SetEntry(m, rest, 1) else m
  }

  /** The big-number path as evidently intended: the count is reset before
      the fives, the wheel runs while `k * k <= n`, and the leftover is
      counted like any other factor. */
  function WheelFactors(n: int): FactorMap
    requires n >= 1
  {
    var (n5, m5) := DivideOutSmall(n, true);
    var (m, rest) := WheelLoop(n5, 7, 0, m5, true);
    if rest != 1 then Increment(m, rest) else m
  }

  /** No number from 2 below `k` divides `n`. */
  ghost predicate NoFactorBelow(n: int, k: int) {
    forall d :: 2 <= d < k ==> !Divides(d, n)
  }

  lemma TwoThreeFivePrime()
    ensures IsPrime(2) && IsPrime(3) && IsPrime(5)
  {
    forall d | 2 <= d < 5 ensures !Divides(d, 5) && (d < 3 ==> !Divides(d, 3)) {
      ModZeroIffDivides(5, d);
      ModZeroIffDivides(3, d);
    }
  }

  /** A factor of the quotient is a factor of the dividend. */
  lemma QuotientFactor(d: int, n: int, k: int)
    requires k != 0 && Divides(d, n / k) && n % k == 0
    ensures Divides(d, n)
  {
    DividesBy(n / k, n, k);
    DividesTransitive(d, n / k, n);
  }

  /** Setting a new prime above every recorded factor appends it and keeps
      the map a factorization. */
  lemma SetNewPrime(m: FactorMap, k: int, v: nat)
    requires IsFactorization(m) && KeysBelow(m, k) && IsPrime(k) && v >= 1
    ensures SetEntry(m, k, v) == m + [(k, v)]
    ensures IsFactorization(m + [(k, v)]) && KeysAtMost(m + [(k, v)], k)
    ensures Product(m + [(k, v)]) == Product(m) * Pow(k, v)
  {
    ProductAppend(m, k, v);
  }

  lemma SmallMapProduct(c2: nat, c3: nat, c5: nat)
    ensures Product(SmallMap(c2, c3, c5)) == Pow(2, c2) * Pow(3, c3) * Pow(5, c5)
  {
    var m2: FactorMap := if c2 > 0 then [(2, c2)] else [];
    var m3 := if c3 > 0 then m2 + [(3, c3)] else m2;
    ProductAppend([], 2, c2);
    ProductAppend(m2, 3, c3);
    ProductAppend(m3, 5, c5);
    assert Product(m2) == Pow(2, c2);
    assert Product(m3) == Pow(2, c2) * Pow(3, c3);
    assert SmallMap(c2, c3, c5) == if c5 > 0 then m3 + [(5, c5)] else m3;
  }

  /** The small map is a factorization into 2, 3 and 5 with the given
      counts. */
  lemma SmallMapFacts(c2: nat, c3: nat, c5: nat)
    ensures Product(SmallMap(c2, c3, c5)) == Pow(2, c2) * Pow(3, c3) * Pow(5, c5)
    ensures IsFactorization(SmallMap(c2, c3, c5)) && KeysAtMost(SmallMap(c2, c3, c5), 5)
  {
    SmallMapProduct(c2, c3, c5);
    TwoThreeFivePrime();
    var m2: FactorMap := [];
    if c2 > 0 {
      SetNewPrime([], 2, c2);
      m2 := [(2, c2)];
    }
    var m3 := m2;
    if c3 > 0 {
      SetNewPrime(m2, 3, c3);
      m3 := m2 + [(3, c3)];
    }
    if c5 > 0 {
      SetNewPrime(m3, 5, c5);
    }
    assert SmallMap(c2, c3, c5) == if c5 > 0 then m3 + [(5, c5)] else m3;
  }

  /** The corrected small divisions leave a factorization into 2, 3 and 5
      and a rest without any of them as a factor; the map's product times the
      rest is `n`. */
  lemma DivideOutSmallCorrect(n: int)
    requires n >= 1
    ensures var (n5, m5) := DivideOutSmall(n, true);
      n5 >= 1 && Product(m5) * n5 == n && IsFactorization(m5) && KeysAtMost(m5, 5)
      && NoFactorBelow(n5, 7)
  {
    var (n2, c2) := Strip(n, 2, 0);
    var (n3, c3) := Strip(n2, 3, 0);
    var (n5, c5) := Strip(n3, 5, 0);
    SmallMapFacts(c2, c3, c5);
    ChainProduct(n, n2, n3, n5, Pow(2, c2), Pow(3, c3), Pow(5, c5));
    SmallRestHasNoSmallFactor(n2, n3, n5, n);
  }

  lemma ChainProduct(n: int, n2: int, n3: int, n5: int, a: int, b: int, c: int)
    requires n == n2 * a && n2 == n3 * b && n3 == n5 * c
    ensures a * b * c * n5 == n
  {
    calc {
      a * b * c * n5;
      a * (b * (n5 * c));
      a * (b * n3);
      a * n2;
    }
  }

  lemma SmallRestHasNoSmallFactor(n2: int, n3: int, n5: int, n: int)
    requires n2 >= 1 && n3 >= 1 && n5 >= 1
    requires n2 % 2 != 0 && n3 % 3 != 0 && n5 % 5 != 0
    requires Divides(n3, n2) && Divides(n5, n3)
    ensures NoFactorBelow(n5, 7)
  {
    forall d | 2 <= d < 7 ensures !Divides(d, n5) {
      ModZeroIffDivides(n2, 2);
      ModZeroIffDivides(n3, 3);
      ModZeroIffDivides(n5, 5);
      if Divides(d, n5) {
        var p := if d == 5 then 5 else if d == 3 || d == 6 then 3 else 2;
        DividesBy(p, d, d / p);
        DividesTransitive(p, d, n5);
        DividesTransitive(p, n5, n3);
        if p == 2 {
          DividesTransitive(p, n3, n2);
        }
      }
    }
  }

  predicate KeysBelow(m: FactorMap, k: int) {
    forall t :: 0 <= t < |m| ==> m[t].0 < k
  }

  /** A divisor of `n` with no smaller divisor above 1 is prime. */
  lemma SmallestDivisorIsPrime(n: int, k: int)
    requires k >= 2 && Divides(k, n) && NoFactorBelow(n, k)
    ensures IsPrime(k)
  {
    forall d | 2 <= d < k ensures !Divides(d, k) {
      if Divides(d, k) {
        DividesTransitive(d, k, n);
      }
    }
  }

  /** A number above 1 with no divisor from 2 below `k` is at least `k`, and
      prime when it is below `k * k`. */
  lemma LeftoverFacts(n: int, k: int)
    requires n >= 2 && k >= 2 && NoFactorBelow(n, k)
    ensures n >= k
    ensures n < k * k ==> IsPrime(n)
  {
    DividesBy(n, n, 1);
    if n < k * k {
      forall d | 2 <= d < n ensures !Divides(d, n) {
        if Divides(d, n) {
          var q :| n == d * q;
          MulAwayFromZero(d, q);
          DividesBy(q, n, d);
          MulMonotone(k, d, k, q);
        }
      }
    }
  }

  /** Dividing out a factor keeps the quotient free of small factors. */
  lemma NoFactorBelowQuotient(n: int, k: int)
    requires k >= 2 && n % k == 0 && NoFactorBelow(n, k)
    ensures NoFactorBelow(n / k, k)
  {
    forall d | 2 <= d < k ensures !Divides(d, n / k) {
      if Divides(d, n / k) {
        QuotientFactor(d, n, k);
      }
    }
  }

  /** Moving to the next trial divisor skips no factor: the numbers in
      between are multiples of 2, 3 or 5, which `n` no longer has. */
  lemma NoFactorAdvance(n: int, j: nat)
    requires NoFactorBelow(n, Candidate(j)) && !Divides(Candidate(j), n)
    ensures NoFactorBelow(n, Candidate(j + 1))
  {
    CandidateCoprime(j);
    forall d | Candidate(j) < d < Candidate(j + 1) ensures !Divides(d, n) {
      WheelGap(j, d);
      if Divides(d, n) {
        var p := if d % 2 == 0 then 2 else if d % 3 == 0 then 3 else 5;
        ModZeroIffDivides(d, p);
        DividesTransitive(p, d, n);
      }
    }
  }

  lemma ScaleStep(a: int, b: int, k: int, q: int, n: int)
    requires b == a * k && n == k * q
    ensures b * q == a * n
  {
  }

  /** The wheel loop keeps the product: the product of what it records times
      what it leaves equals the product it started with times `n`. */
  lemma {:induction false} WheelLoopProduct(n: int, k: int, i: nat, m: FactorMap, inclusive: bool)
    requires n >= 1 && k >= 2 && i < 8
    ensures var r := WheelLoop(n, k, i, m, inclusive); Product(r.0) * r.1 == Product(m) * n
    decreases n, n - k
  {
    if k * k < n || (inclusive && k * k == n) {
      SquareBelow(k, n);
      if n % k == 0 {
        QuotientBounds(n, k);
        WheelLoopProduct(n / k, k, i, Increment(m, k), inclusive);
        ProductIncrement(m, k);
        ScaleStep(Product(m), Product(Increment(m, k)), k, n / k, n);
      } else {
        WheelLoopProduct(n, k + PrimeWheelInc[i], NextIndex(i), m, inclusive);
      }
    }
  }

  /** Dividing by a divisor `k` found by the wheel: `k` is prime, the
      quotient keeps no factor below `k`, and with the `<` guard it stays
      above `k`. */
  lemma DivisionStep(n: int, k: int, inclusive: bool)
    requires k >= 2 && n >= 1 && n % k == 0 && (k * k < n || (inclusive && k * k == n))
    requires NoFactorBelow(n, k)
    ensures IsPrime(k) && 1 <= n / k < n && NoFactorBelow(n / k, k)
    ensures !inclusive ==> k < n / k
  {
    QuotientBounds(n, k);
    ModZeroIffDivides(n, k);
    SmallestDivisorIsPrime(n, k);
    NoFactorBelowQuotient(n, k);
    if !inclusive && n / k <= k {
      MulMonotone(k, k, n / k, k);
    }
  }

  /** The state the wheel loop keeps once 2, 3 and 5 are gone: `n` has no
      factor below the current trial divisor, the map is a factorization
      into primes no larger than it, and with the `<` guard a recorded trial
      divisor is below what is left. */
  ghost predicate WheelState(n: int, j: nat, m: FactorMap, inclusive: bool) {
    n >= 1 && NoFactorBelow(n, Candidate(j)) && IsFactorization(m)
    && KeysAtMost(m, Candidate(j))
    && (inclusive || KeysBelow(m, Candidate(j)) || Candidate(j) < n)
  }

  /** A prime, or the square of a prime. */
  ghost predicate PrimeOrPrimeSquare(x: int) {
    IsPrime(x) || exists p :: IsPrime(p) && x == p * p
  }

  /** What the wheel loop hands back: a factorization, and a leftover that is
      1 or at least every recorded factor, a prime with the `<=` guard and,
      with the `<` guard, not yet recorded and a prime or a prime's square. */
  ghost predicate WheelOutcome(r: (FactorMap, int), inclusive: bool) {
    IsFactorization(r.0) && (r.1 != 1 ==> KeysAtMost(r.0, r.1))
    && (inclusive && r.1 != 1 ==> IsPrime(r.1))
    && (!inclusive && r.1 != 1 ==> KeysBelow(r.0, r.1) && PrimeOrPrimeSquare(r.1))
  }

  lemma DivideKeepsState(n: int, j: nat, m: FactorMap, inclusive: bool)
    requires WheelState(n, j, m, inclusive) && n % Candidate(j) == 0
    requires Candidate(j) * Candidate(j) < n || (inclusive && Candidate(j) * Candidate(j) == n)
    ensures 1 <= n / Candidate(j) < n
    ensures WheelState(n / Candidate(j), j, Increment(m, Candidate(j)), inclusive)
  {
    var k := Candidate(j);
    CandidateCoprime(j);
    DivisionStep(n, k, inclusive);
    IncrementKeepsFactorization(m, k);
  }

  lemma SquareBound(k: int, n: int)
    requires k >= 7 && k * k <= n
    ensures k + 6 < n
  {
    MulMonotone(7, k, k, k);
  }

  lemma AdvanceKeepsState(n: int, j: nat, m: FactorMap, inclusive: bool)
    requires WheelState(n, j, m, inclusive) && n % Candidate(j) != 0
    requires Candidate(j) * Candidate(j) < n || (inclusive && Candidate(j) * Candidate(j) == n)
    ensures Candidate(j + 1) == Candidate(j) + PrimeWheelInc[j % 8]
    ensures (j + 1) % 8 == NextIndex(j % 8)
    ensures 0 <= n - Candidate(j + 1) < n - Candidate(j)
    ensures WheelState(n, j + 1, m, inclusive)
  {
    CandidateCoprime(j);
    SquareBound(Candidate(j), n);
    CandidateStep(j);
    ModZeroIffDivides(n, Candidate(j));
    NoFactorAdvance(n, j);
  }

  lemma ExitOutcome(n: int, j: nat, m: FactorMap, inclusive: bool)
    requires WheelState(n, j, m, inclusive)
    requires !(Candidate(j) * Candidate(j) < n || (inclusive && Candidate(j) * Candidate(j) == n))
    ensures WheelOutcome((m, n), inclusive)
  {
    var k := Candidate(j);
    CandidateCoprime(j);
    if n != 1 {
      LeftoverFacts(n, k);
      if k * k == n {
        DividesBy(k, n, k);
        SmallestDivisorIsPrime(n, k);
      }
    }
  }

  /** Once 2, 3 and 5 are gone, every divisor the wheel records is a prime no
      smaller than those before it, and the loop ends in a `WheelOutcome`. */
  lemma {:induction false} WheelLoopFactorization(n: int, j: nat, m: FactorMap, inclusive: bool)
    requires WheelState(n, j, m, inclusive)
    ensures WheelOutcome(WheelLoop(n, Candidate(j), j % 8, m, inclusive), inclusive)
    decreases n, n - Candidate(j)
  {
    var k := Candidate(j);
    CandidateCoprime(j);
    if k * k < n || (inclusive && k * k == n) {
      if n % k == 0 {
        DivideKeepsState(n, j, m, inclusive);
        WheelLoopFactorization(n / k, j, Increment(m, k), inclusive);
      } else {
        AdvanceKeepsState(n, j, m, inclusive);
        WheelLoopFactorization(n, j + 1, m, inclusive);
      }
    } else {
      ExitOutcome(n, j, m, inclusive);
    }
  }

  /** The corrected big-number path yields the prime factorization: its
      factors are increasing primes, each with a positive multiplicity, and
      they multiply out to `n`. */
  lemma WheelFactorsCorrect(n: int)
    requires n >= 1
    ensures Product(WheelFactors(n)) == n && IsFactorization(WheelFactors(n))
  {
    var (n5, m5) := DivideOutSmall(n, true);
    DivideOutSmallCorrect(n);
    assert Candidate(0) == 7;
    WheelLoopProduct(n5, 7, 0, m5, true);
    WheelLoopFactorization(n5, 0, m5, true);
    var (m, rest) := WheelLoop(n5, 7, 0, m5, true);
    RecordLeftover(m, rest);
  }

  /** Counting the prime leftover in keeps a factorization, and the product
      picks it up. */
  lemma RecordLeftover(m: FactorMap, rest: int)
    requires IsFactorization(m) && rest >= 1
    requires rest != 1 ==> IsPrime(rest) && KeysAtMost(m, rest)
    ensures var r := if rest != 1 then Increment(m, rest) else m;
      IsFactorization(r) && Product(r) == Product(m) * rest
  {
    if rest != 1 {
      ProductIncrement(m, rest);
      IncrementKeepsFactorization(m, rest);
    }
  }

  /** Starting the count higher shifts the final count and nothing else. */
  lemma {:induction false} StripShift(n: int, p: int, c: nat)
    requires n >= 1 && p >= 2
    ensures Strip(n, p, c) == (Strip(n, p, 0).0, Strip(n, p, 0).1 + c)
    decreases n
  {
    if n % p == 0 {
      QuotientBounds(n, p);
      StripShift(n / p, p, c + 1);
      StripShift(n / p, p, 1);
    }
  }

  lemma PowTwoNotMultipleOfThree(e: nat)
    ensures Pow(2, e) % 3 != 0
  {
    if e > 0 {
      PowTwoNotMultipleOfThree(e - 1);
      NotMultipleOfThree(2, Pow(2, e - 1));
    }
  }

  /** 3 is prime: a product of two numbers that are not multiples of 3 is
      not one either. */
  lemma NotMultipleOfThree(a: int, b: int)
    requires a % 3 != 0 && b % 3 != 0
    ensures (a * b) % 3 != 0
  {
    var p, r, q, s := a / 3, a % 3, b / 3, b % 3;
    assert a * b == 3 * (3 * p * q + p * s + r * q) + r * s;
    assert r * s in {1, 2, 4};
  }

  /** What is left after the twos is a multiple of 3 exactly when `n` is. */
  lemma ThreesSurviveTwos(n: int, n2: int, c2: nat)
    requires n == n2 * Pow(2, c2)
    ensures n2 % 3 == 0 <==> n % 3 == 0
  {
    if n2 % 3 == 0 {
      DivUnique(n, 3, (n2 / 3) * Pow(2, c2));
    } else {
      PowTwoNotMultipleOfThree(c2);
      NotMultipleOfThree(n2, Pow(2, c2));
    }
  }

  /** As written, the small divisions leave the same rest as the corrected
      ones, but the fives are counted on top of the threes: the map's product
      is off by 5 to the number of threes in `n`. */
  lemma AsWrittenSmall(n: int) returns (c: nat)
    requires n >= 1
    ensures var (n5, m5) := DivideOutSmall(n, false);
      n5 == DivideOutSmall(n, true).0
      && Product(m5) == Product(DivideOutSmall(n, true).1) * Pow(5, c)
      && IsFactorization(m5) && KeysAtMost(m5, 5)
    ensures c > 0 <==> n % 3 == 0
  {
    var (n2, c2) := Strip(n, 2, 0);
    var (n3, c3) := Strip(n2, 3, 0);
    var (n5, c5) := Strip(n3, 5, 0);
    StripShift(n3, 5, c3);
    c := c3;
    assert DivideOutSmall(n, false) == (n5, SmallMap(c2, c3, c5 + c3));
    SmallMapFacts(c2, c3, c5 + c3);
    SmallMapProduct(c2, c3, c5);
    PowAdd(5, c5, c3);
    MulRearrange(Pow(2, c2) * Pow(3, c3), Pow(5, c3), Pow(5, c5));
    ThreesSurviveTwos(n, n2, c2);
  }

  /** As written, the wheel's leftover is never a factor already recorded, so
      setting it appends it; the factors multiply out to `n` times 5 to the
      number of threes in `n`. */
  lemma AsWrittenProductIs(n: int) returns (c: nat)
    requires n >= 1
    ensures Product(WheelFactorsAsWritten(n)) == n * Pow(5, c)
    ensures c > 0 <==> n % 3 == 0
  {
    c := AsWrittenSmall(n);
    DivideOutSmallCorrect(n);
    var (n5, m5) := DivideOutSmall(n, false);
    assert Candidate(0) == 7;
    AsWrittenTail(n5, m5);
    SmallProductScaled(Product(DivideOutSmall(n, true).1), Pow(5, c), n5, n, Product(m5));
  }

  /** As written, the wheel and the leftover multiply the small factors out
      by the rest of the small divisions. */
  lemma AsWrittenTail(n5: int, m5: FactorMap)
    requires WheelState(n5, 0, m5, false) && Candidate(0) == 7
    ensures var (m, rest) := WheelLoop(n5, 7, 0, m5, false);
      Product(if rest != 1 then SetEntry(m, rest, 1) else m) == Product(m5) * n5
  {
    WheelLoopProduct(n5, 7, 0, m5, false);
    WheelLoopFactorization(n5, 0, m5, false);
    var (m, rest) := WheelLoop(n5, 7, 0, m5, false);
    if rest != 1 {
      ProductAppend(m, rest, 1);
    }
  }

  /** As written, every recorded multiplicity is positive and the factors
      increase; every factor but the last is prime, and the last (the
      leftover, when one is set) is a prime or the square of a prime. */
  lemma AsWrittenKeys(n: int)
    requires n >= 1
    ensures var r := WheelFactorsAsWritten(n);
      PositiveCounts(r) && IncreasingKeys(r)
      && (forall t :: 0 <= t < |r| - 1 ==> IsPrime(r[t].0))
      && (|r| > 0 ==> PrimeOrPrimeSquare(r[|r| - 1].0))
  {
    var c := AsWrittenSmall(n);
    DivideOutSmallCorrect(n);
    var (n5, m5) := DivideOutSmall(n, false);
    assert Candidate(0) == 7;
    WheelLoopFactorization(n5, 0, m5, false);
    var (m, rest) := WheelLoop(n5, 7, 0, m5, false);
    SetLeftoverKeys(m, rest);
  }

  /** Setting a leftover that is not yet recorded appends it last. */
  lemma SetLeftoverKeys(m: FactorMap, rest: int)
    requires WheelOutcome((m, rest), false)
    ensures var r := if rest != 1 then SetEntry(m, rest, 1) else m;
      PositiveCounts(r) && IncreasingKeys(r)
      && (forall t :: 0 <= t < |r| - 1 ==> IsPrime(r[t].0))
      && (|r| > 0 ==> PrimeOrPrimeSquare(r[|r| - 1].0))
  {
    if rest != 1 {
      assert IndexOf(m, rest).None?;
      assert SetEntry(m, rest, 1) == m + [(rest, 1)];
    }
  }

  lemma SmallProductScaled(p: int, f: int, n5: int, n: int, p': int)
    requires p * n5 == n && p' == p * f
    ensures p' * n5 == n * f
  {
  }

  /** As written, the factors multiply out to `n` exactly when 3 does not
      divide `n`. */
  lemma AsWrittenProduct(n: int)
    requires n >= 1
    ensures Product(WheelFactorsAsWritten(n)) == n <==> n % 3 != 0
  {
    var c := AsWrittenProductIs(n);
    if c > 0 {
      PowPositive(5, c - 1);
      MulMonotone(n, n, 5, Pow(5, c));
    }
  }

  /** 2^53, the first power of two past `Number.MAX_SAFE_INTEGER`. */
  const TwoTo53: int := 9007199254740992

  /** Dividing `m * p^e` by `p` as long as possible passes through `m`. */
  lemma {:induction false} StripPower(m: int, p: int, e: nat, c: nat)
    requires m >= 1 && p >= 2
    ensures Strip(m * Pow(p, e), p, c) == Strip(m, p, c + e)
    decreases e
  {
    if e > 0 {
      var n, q := m * Pow(p, e), m * Pow(p, e - 1);
      MulRearrange(m, Pow(p, e - 1), p);
      assert n == p * q;
      DivUnique(n, p, q);
      StripPower(m, p, e - 1, c + 1);
    }
  }

  lemma StripTwoTo53(m: int)
    requires m >= 1 && m % 2 != 0
    ensures Strip(m * TwoTo53, 2, 0) == (m, 53)
  {
    MaxSafeIsPow();
    StripPower(m, 2, 53, 0);
  }

  /** 3 * 2^53 takes the big-number path. As written it is reported with a
      factor 5 it does not have; the corrected code gives 2^53 * 3. */
  lemma AsWrittenCountsThreesAsFives()
    ensures WheelFactorsAsWritten(3 * TwoTo53) == [(2, 53), (3, 1), (5, 1)]
    ensures Product([(2, 53), (3, 1), (5, 1)]) != 3 * TwoTo53
    ensures WheelFactors(3 * TwoTo53) == [(2, 53), (3, 1)]
  {
    StripTwoTo53(3);
    assert Strip(3, 3, 0) == (1, 1);
    assert Strip(1, 5, 1) == (1, 1);
    assert Strip(1, 5, 0) == (1, 0);
    MaxSafeIsPow();
  }

  /** 49 * 2^53 takes the big-number path. As written the wheel stops before
      trying 7, since 7 * 7 is not below 49, and reports 49 as a prime; the
      corrected code gives 2^53 * 7^2. */
  lemma AsWrittenMissesPrimeSquare()
    ensures WheelFactorsAsWritten(49 * TwoTo53) == [(2, 53), (49, 1)]
    ensures !IsPrime(49)
    ensures WheelFactors(49 * TwoTo53) == [(2, 53), (7, 2)]
  {
    StripTwoTo53(49);
    assert Strip(49, 3, 0) == (49, 0);
    assert Strip(49, 5, 0) == (49, 0);
    DividesBy(7, 49, 7);
    var m: FactorMap := [(2, 53)];
    assert SmallMap(53, 0, 0) == m;
    assert DivideOutSmall(49 * TwoTo53, true) == (49, m);
    assert WheelLoop(7, 7, 0, m + [(7, 1)], true) == (m + [(7, 1)], 7);
    assert WheelLoop(49, 7, 0, m, true) == (m + [(7, 1)], 7);
  }

  /** One of the source's trial-division loops: divide by `p` while it
      divides, counting on from `count`. */
  method DivideOut(n: int, p: int, count: nat) returns (rest: int, total: nat)
    requires n >= 1 && p >= 2
    ensures (rest, total) == Strip(n, p, count)
    ensures rest >= 1 && rest % p != 0 && total >= count
    ensures n == rest * Pow(p, total - count)
  {
    rest, total := n, count;
    while rest % p == 0
      invariant rest >= 1 && Strip(rest, p, total) == Strip(n, p, count)
      decreases rest
    {
      QuotientBounds(rest, p);
      total := total + 1;
      rest := rest / p;
    }
  }

  /** The source's wheel loop from `k = 7`, with the `<` guard as written or
      the `<=` guard when `inclusive`. */
  method WheelDivide(n: int, m: FactorMap, inclusive: bool) returns (result: FactorMap, rest: int)
    requires n >= 1
    ensures (result, rest) == WheelLoop(n, 7, 0, m, inclusive)
    ensures Product(result) * rest == Product(m) * n
  {
    var k, i := 7, 0;
    result, rest := m, n;
    while k * k < rest || (inclusive && k * k == rest)
      invariant rest >= 1 && k >= 2 && i < 8
      invariant WheelLoop(rest, k, i, result, inclusive) == WheelLoop(n, 7, 0, m, inclusive)
      decreases rest, rest - k
    {
      SquareBelow(k, rest);
      if rest % k == 0 {
        QuotientBounds(rest, k);
        result := Increment(result, k);
        rest := rest / k;
      } else {
        k := k + PrimeWheelInc[i];
        i := if i < 7 then i + 1 else 0;
      }
    }
    WheelLoopProduct(n, 7, 0, m, inclusive);
  }

  /** The big-number path of `primeFactors` as written. Its result multiplies
      out to `n` exactly when 3 does not divide `n`. */
  method PrimeFactorsAsWritten(n: int) returns (result: FactorMap)
    requires n >= 1
    ensures result == WheelFactorsAsWritten(n)
    ensures Product(result) == n <==> n % 3 != 0
  {
    var x, count := DivideOut(n, 2, 0);
    var c2 := count;
    result := [];
    if count > 0 {
      result := SetEntry(result, 2, count);
    }
    x, count := DivideOut(x, 3, 0);
    var c3 := count;
    if count > 0 {
      result := SetEntry(result, 3, count);
    }
    x, count := DivideOut(x, 5, count);
    if count > 0 {
      result := SetEntry(result, 5, count);
    }
    assert result == SmallMap(c2, c3, count);
    var rest;
    result, rest := WheelDivide(x, result, false);
    if rest != 1 {
      result := SetEntry(result, rest, 1);
    }
    AsWrittenProduct(n);
  }

  /** The big-number path of `primeFactors` with the count reset before the
      fives, the `<=` guard and the leftover counted in: it yields the prime
      factorization of `n`. */
  method PrimeFactors(n: int) returns (result: FactorMap)
    requires n >= 1
    ensures result == WheelFactors(n)
    ensures Product(result) == n && IsFactorization(result)
  {
    var x, count := DivideOut(n, 2, 0);
    var c2 := count;
    result := [];
    if count > 0 {
      result := SetEntry(result, 2, count);
    }
    x, count := DivideOut(x, 3, 0);
    var c3 := count;
    if count > 0 {
      result := SetEntry(result, 3, count);
    }
    x, count := DivideOut(x, 5, 0);
    if count > 0 {
      result := SetEntry(result, 5, count);
    }
    assert result == SmallMap(c2, c3, count);
    var rest;
    result, rest := WheelDivide(x, result, true);
    if rest != 1 {
      result := Increment(result, rest);
    }
    WheelFactorsCorrect(n);
  }
}
