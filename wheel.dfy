/** The 2-3-5 factorization wheel of numeric-bignum.ts: after 2, 3 and 5 are
    divided out, the trial divisors are 7, 11, 13, 17, 19, 23, 29, 31, 37, ...,
    each obtained from the previous one by the next gap of `PRIME_WHEEL_INC`. */
module Wheel {
  import opened Arith

  /** `PRIME_WHEEL_INC`: the gaps between consecutive trial divisors, one
      turn of the wheel (from 7 round to 37). */
  const PrimeWheelInc: seq<int> := [4, 2, 4, 2, 4, 6, 2, 6]

  /** The source's index update, `i = i < 7 ? i + 1 : 0`. */
  function NextIndex(i: nat): (r: nat)
    requires i < 8
    ensures r < 8 && r == (i + 1) % 8
  {
    if i < 7 then i + 1 else 0
  }

  /** The trial divisors of one turn of the wheel, starting from 7. */
  const Offsets: seq<int> := [7, 11, 13, 17, 19, 23, 29, 31]

  /** The j-th trial divisor, in closed form. */
  function Candidate(j: nat): int {
    30 * (j / 8) + Offsets[j % 8]
  }

  predicate CoprimeTo30(d: int) {
    d % 2 != 0 && d % 3 != 0 && d % 5 != 0
  }

  /** Adding the gap at wheel position `j % 8` to the j-th divisor gives the
      next one, and the source's index update follows `j`. */
  lemma CandidateStep(j: nat)
    ensures Candidate(j + 1) == Candidate(j) + PrimeWheelInc[j % 8]
    ensures (j + 1) % 8 == NextIndex(j % 8)
  {
    var q, t := j / 8, j % 8;
    assert j == 8 * q + t;
    if t < 7 {
      assert (j + 1) / 8 == q && (j + 1) % 8 == t + 1;
    } else {
      assert (j + 1) / 8 == q + 1 && (j + 1) % 8 == 0;
    }
  }

  lemma OffsetMod(q: int, o: int)
    ensures (30 * q + o) % 2 == o % 2
    ensures (30 * q + o) % 3 == o % 3
    ensures (30 * q + o) % 5 == o % 5
  {
    ModUnique(30 * q + o, 2, 15 * q + o / 2, o % 2);
    ModUnique(30 * q + o, 3, 10 * q + o / 3, o % 3);
    ModUnique(30 * q + o, 5, 6 * q + o / 5, o % 5);
  }

  /** Every trial divisor is at least 7 and has no factor 2, 3 or 5. */
  lemma CandidateCoprime(j: nat)
    ensures Candidate(j) >= 7 && CoprimeTo30(Candidate(j))
  {
    OffsetMod(j / 8, Offsets[j % 8]);
  }

  /** The trial divisors strictly increase. */
  lemma {:induction false} CandidateIncreasing(j1: nat, j2: nat)
    requires j1 < j2
    ensures Candidate(j1) < Candidate(j2)
    decreases j2 - j1
  {
    CandidateStep(j1);
    if j1 + 1 < j2 {
      CandidateIncreasing(j1 + 1, j2);
    }
  }

  /** The order of the trial divisors is the order of their positions. */
  lemma CandidateMonotone(j1: nat, j2: nat)
    ensures j1 < j2 <==> Candidate(j1) < Candidate(j2)
  {
    if j1 < j2 {
      CandidateIncreasing(j1, j2);
    } else if j2 < j1 {
      CandidateIncreasing(j2, j1);
    }
  }

  /** Every number from 7 up without a factor 2, 3 or 5 is a trial divisor. */
  lemma CandidateComplete(d: int) returns (j: nat)
    requires d >= 7 && CoprimeTo30(d)
    ensures Candidate(j) == d
  {
    var q, r := d / 30, d % 30;
    assert d == 30 * q + r;
    OffsetMod(q, r);
    assert r in {1, 7, 11, 13, 17, 19, 23, 29};
    if r == 1 {
      j := 8 * (q - 1) + 7;
    } else {
      var t := if r == 7 then 0 else if r == 11 then 1 else if r == 13 then 2
        else if r == 17 then 3 else if r == 19 then 4 else if r == 23 then 5 else 6;
      j := 8 * q + t;
    }
    assert j / 8 == (if r == 1 then q - 1 else q);
  }

  /** No number strictly between two consecutive trial divisors is coprime
      to 30: the wheel skips only multiples of 2, 3 or 5. */
  lemma WheelGap(j: nat, d: int)
    requires Candidate(j) < d < Candidate(j + 1)
    ensures !CoprimeTo30(d)
  {
    CandidateCoprime(j);
    if CoprimeTo30(d) {
      var j' := CandidateComplete(d);
      CandidateMonotone(j, j');
      CandidateMonotone(j', j + 1);
    }
  }
}
