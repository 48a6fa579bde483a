/** `isInMachineRange` of numeric-bignum.ts: whether a decimal.js value can
    be handed to a 64-bit float without losing digits or overflowing. */
module MachineRange {
  import opened Arith

  /** One decimal.js digit block holds 7 decimal digits. */
  const Block: int := 10000000

  /** The parts of a decimal.js value that `isInMachineRange` reads: whether
      it is finite, its digits in blocks of 7 (most significant first, `d`)
      and its decimal exponent (`e`). */
  datatype DecimalDigits = DecimalDigits(finite: bool, d: seq<int>, e: int)

  /** decimal.js keeps every block below 10^7 and never a leading zero block. */
  predicate WellFormed(d: seq<int>) {
    |d| >= 1 && (forall i | 0 <= i < |d| :: 0 <= d[i] < Block) && (|d| > 1 ==> d[0] >= 1)
  }

  /** The integer the digit blocks spell out. */
  function Coefficient(d: seq<int>): int
    decreases |d|
  {
    if |d| == 0 then 0 else Coefficient(d[..|d| - 1]) * Block + d[|d| - 1]
  }

  /** The largest coefficient the digit test lets through is below
      9 * 10^15, which is below 2^53. */
  const DigitLimit: int := 9000000000000000

  /** The source's `isInMachineRange`. Infinity and NaN count as in range. A
      finite value passes when it has at most three blocks, a leading block
      below 90 if it has three, and an exponent from -305 to 307. A finite
      value that passes has a coefficient that is a safe integer. */
  function IsInMachineRange(x: DecimalDigits): (r: bool)
    ensures !x.finite ==> r
    ensures r && x.finite ==> -306 < x.e < 308
    ensures r && x.finite && WellFormed(x.d) ==> Coefficient(x.d) < DigitLimit <= MaxSafeInteger
  {
    CoefficientLimit(x.d);
    if !x.finite then true
    else if |x.d| > 3 || (|x.d| == 3 && x.d[0] >= 90) then false
    else x.e < 308 && x.e > -306
  }

  /** The coefficient lies between the leading block and the leading block
      plus one, each times 10^7 for every further block. */
  lemma {:induction false} CoefficientBounds(d: seq<int>)
    requires WellFormed(d)
    ensures d[0] * Pow(Block, |d| - 1) <= Coefficient(d) < (d[0] + 1) * Pow(Block, |d| - 1)
    decreases |d|
  {
    if |d| > 1 {
      var d' := d[..|d| - 1];
      assert d'[0] == d[0];
      CoefficientBounds(d');
      var p := Pow(Block, |d'| - 1);
      assert Pow(Block, |d| - 1) == p * Block by {
        assert Pow(Block, |d| - 1) == Block * p;
      }
      ScaleBounds(d[0], p, Coefficient(d'), d[|d| - 1]);
    }
  }

  lemma ScaleBounds(lead: int, p: int, c: int, last: int)
    requires lead * p <= c < (lead + 1) * p && 0 <= last < Block
    ensures lead * (p * Block) <= c * Block + last < (lead + 1) * (p * Block)
  {
    assert c + 1 <= (lead + 1) * p;
    assert (c + 1) * Block <= (lead + 1) * p * Block;
  }

  /** The digit test of `isInMachineRange` holds exactly when the coefficient
      is below 9 * 10^15. */
  lemma CoefficientLimit(d: seq<int>)
    ensures WellFormed(d) ==>
      ((|d| > 3 || (|d| == 3 && d[0] >= 90)) <==> Coefficient(d) >= DigitLimit)
  {
    if WellFormed(d) {
      CoefficientBounds(d);
      if |d| > 3 {
        ManyBlocks(d[0], |d| - 1, Coefficient(d));
      } else if |d| == 3 {
        assert Pow(Block, 2) == 100000000000000;
        ThreeBlocks(d[0], Coefficient(d));
      } else {
        FewerBlocks(d[0], Pow(Block, |d| - 1), Coefficient(d));
      }
    }
  }

  lemma ManyBlocks(lead: int, k: nat, c: int)
    requires lead >= 1 && k >= 3 && lead * Pow(Block, k) <= c
    ensures c >= DigitLimit
  {
    PowAdd(Block, 3, k - 3);
    PowPositive(Block, k - 3);
    assert Pow(Block, 3) == 1000000000000000000000;
    MulGrows(Pow(Block, 3), Pow(Block, k - 3));
    MulGrows(Pow(Block, k), lead);
  }

  lemma MulGrows(a: int, b: int)
    requires a >= 0 && b >= 1
    ensures a * b >= a
  {
  }

  lemma ThreeBlocks(lead: int, c: int)
    requires 0 <= lead && lead * 100000000000000 <= c < (lead + 1) * 100000000000000
    ensures lead >= 90 <==> c >= DigitLimit
  {
  }

  lemma FewerBlocks(lead: int, p: int, c: int)
    requires 0 <= lead < Block && 1 <= p <= Block && c < (lead + 1) * p
    ensures c < DigitLimit
  {
    MulMonotone(lead + 1, Block, p, Block);
  }

  /** With well-formed digits, a finite value is in machine range exactly
      when its coefficient is below 9 * 10^15 and its exponent is from -305
      to 307. */
  lemma MachineRangeExactly(x: DecimalDigits)
    requires WellFormed(x.d)
    ensures IsInMachineRange(x) <==>
      !x.finite || (Coefficient(x.d) < DigitLimit && -306 < x.e < 308)
  {
    CoefficientLimit(x.d);
  }
}
