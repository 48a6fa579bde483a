# Exact big-number routines and the domain lattice of the Compute Engine

This project models two parts of the Compute Engine in Dafny and proves properties of the models.

The first part is the exact-integer routines of
`src/compute-engine/numerics/numeric-bignum.ts`. Decimal.js values are exact integers (`int`) throughout. Every operand is taken to fit in the configured precision, so `mod`, `div` and `mul` are exact. The routines are:

- `gcd`: the Euclidean loop on decimal.js's truncating `modulo`.
- `lcm`: a product divided by the gcd. The case 0 / 0 gives NaN, as decimal.js does.
- `PRIME_WHEEL_INC`: the mod-30 wheel.
- the big-number path of `primeFactors`: strip 2, 3 and 5, trial-divide along the wheel from 7, then record the leftover. The insertion-ordered `Map` is a sequence of (factor, multiplicity) pairs.
- `factorPower`.
- `factorial`: its table, its odd recursion, its even "running sum" loop and its loop for huge n.
- `isInMachineRange`: a predicate over decimal.js's digit blocks (`d`, base 10^7) and exponent (`e`).

The routines with loops are methods. Each is proved equal to a recursive specification function, and the properties are proved about those functions.

The second part is the domain lattice of `src/compute-engine/library/domains.ts`:

- the parent table `DOMAIN_LITERAL`, one datatype constructor per literal;
- `isDomainLiteral`;
- `ancestors`, a method of the class `LatticeCache`;
- the module-level memo `gDomainLiterals`, a field of `LatticeCache` holding a `map` from literal to the insertion-ordered elements of its `Set`;
- `isSubdomainLiteral`;
- `domainSetsLibrary`.

The thrown errors become `Err` results. A rank function shows that the parent relation is acyclic, which is also the termination measure of the recursion in `ancestors`. The ancestor set (`Closure`) is the specification of `ancestors`.

Two behaviours of the source are modelled as written:

- the `Interval` constructor asks for `'RealNumberExtended'`, which is not a literal, so it fails as an unknown literal;
- `isSubdomainLiteral` fails for a left-hand side with no memo entry. `Sequence` is one: no literal has it as a parent, so building the lattice from `Void` never reaches it.

Files:

- `arith.dfy`: powers, factorials, divisibility, primality and the `Decimal` value (finite, NaN, signed infinity).
- `gcd.dfy`: `gcd`, `lcm`.
- `wheel.dfy`: `PRIME_WHEEL_INC` and the closed form of its trial divisors.
- `primes.dfy`: `primeFactors`, as written and corrected.
- `factorpower.dfy`: `factorPower`.
- `factorial.dfy`: `factorial`.
- `machinerange.dfy`: `isInMachineRange`.
- `domains.dfy`: everything from `domains.ts`.
- `domainkeys.dfy`: which literal a value names when used as a property key.

## Model

| member | source | states |
|---|---|---|
| GcdLcm.TruncMod | src/compute-engine/numerics/numeric-bignum.ts:8 | decimal.js `modulo`: the remainder is smaller than the divisor in absolute value, differs from the dividend by a multiple of the divisor, and has the dividend's sign |
| GcdLcm.EuclidIsGcd | src/compute-engine/numerics/numeric-bignum.ts:5-10 | the Euclidean result is non-negative, divides both operands, and every common divisor divides it |
| GcdLcm.EuclidZero | src/compute-engine/numerics/numeric-bignum.ts:5-10 | the gcd is 0 exactly when both operands are 0 |
| GcdLcm.Gcd | src/compute-engine/numerics/numeric-bignum.ts:5-10 | the loop yields the greatest common divisor in the divisibility order (non-negative, divides both, every common divisor divides it), and gcd(a, 0) = abs(a) |
| GcdLcm.Div | src/compute-engine/numerics/numeric-bignum.ts:13 | decimal.js division: a finite result exactly for a non-zero divisor, which times the divisor gives the dividend; NaN exactly for 0 / 0 |
| GcdLcm.Lcm | src/compute-engine/numerics/numeric-bignum.ts:12-14 | NaN exactly when both operands are 0, never infinite; otherwise an integer that is a multiple of both operands and whose product with the gcd is a * b |
| Wheel.NextIndex | src/compute-engine/numerics/numeric-bignum.ts:64 | the index update stays below 8 and is the successor modulo 8 |
| Wheel.CandidateStep | src/compute-engine/numerics/numeric-bignum.ts:17 | adding the gap at the current wheel index to a trial divisor gives the next trial divisor, and the index follows |
| Wheel.CandidateCoprime | src/compute-engine/numerics/numeric-bignum.ts:17 | every trial divisor is at least 7 and has no factor 2, 3 or 5 |
| Wheel.CandidateMonotone | src/compute-engine/numerics/numeric-bignum.ts:54-66 | the trial divisors come in strictly increasing order, in both directions of the iff |
| Wheel.CandidateComplete | src/compute-engine/numerics/numeric-bignum.ts:16-17 | every number from 7 on with no factor 2, 3 or 5 is a trial divisor |
| Wheel.WheelGap | src/compute-engine/numerics/numeric-bignum.ts:62-64 | a number strictly between two consecutive trial divisors has a factor 2, 3 or 5, so the wheel skips nothing coprime to 30 |
| Factorization.IndexOf | src/compute-engine/numerics/numeric-bignum.ts:59 | `Map` lookup: a found position holds the key, and a missing key is nowhere in the map |
| Factorization.SetEntryIsMapSet | src/compute-engine/numerics/numeric-bignum.ts:41 | `Map.set(k, v)`: afterwards `get(k)` is v and every other key reads back what it did; the keys keep their order, and k is appended exactly when it was missing |
| Factorization.ProductIncrement | src/compute-engine/numerics/numeric-bignum.ts:59 | counting a factor once more multiplies the map's product by that factor |
| Factorization.Strip | src/compute-engine/numerics/numeric-bignum.ts:37-40 | dividing by p while it divides leaves a positive rest that p does not divide, and n is the rest times p to the number of divisions |
| Factorization.DivideOut | src/compute-engine/numerics/numeric-bignum.ts:43-46 | the division loop computes `Strip`: the rest has no factor p, and n = rest * p^(divisions) |
| Factorization.WheelLoopProduct | src/compute-engine/numerics/numeric-bignum.ts:54-66 | the wheel loop keeps the product of the recorded factors times what is left equal to its starting value |
| Factorization.WheelLoopFactorization | src/compute-engine/numerics/numeric-bignum.ts:54-66 | from a state with no factor below the trial divisor, the loop ends with increasing prime factors and a leftover at least every recorded factor, which is prime under the `<=` guard and not yet recorded under the `<` guard |
| Factorization.WheelDivide | src/compute-engine/numerics/numeric-bignum.ts:54-66 | the source's wheel loop computes `WheelLoop`, and the product of the map times the leftover equals the map's product before times n |
| Factorization.WheelFactorsCorrect | src/compute-engine/numerics/numeric-bignum.ts:19-73 | with the count reset, the `<=` guard and the leftover counted in, the result is a factorization of n (increasing primes, positive multiplicities) whose product is n |
| Factorization.PrimeFactors | src/compute-engine/numerics/numeric-bignum.ts:36-68 | the corrected big-number path returns a map of increasing primes with positive multiplicities whose product is n |
| Factorization.AsWrittenSmall | src/compute-engine/numerics/numeric-bignum.ts:42-52 | as written, the divisions by 2, 3 and 5 leave the correct rest but the map's product is too large by 5^c, with c > 0 exactly when 3 divides n |
| Factorization.AsWrittenTail | src/compute-engine/numerics/numeric-bignum.ts:54-68 | as written, the wheel and the leftover record exactly the rest left by the small divisions |
| Factorization.AsWrittenProductIs | src/compute-engine/numerics/numeric-bignum.ts:36-68 | as written, the factors multiply out to n * 5^c, with c > 0 exactly when 3 divides n |
| Factorization.AsWrittenKeys | src/compute-engine/numerics/numeric-bignum.ts:57-68 | for every n, as written: every multiplicity is positive, the factors increase, every factor but the last is prime, and the last is a prime or the square of a prime |
| Factorization.AsWrittenProduct | src/compute-engine/numerics/numeric-bignum.ts:36-68 | as written, the factors multiply out to n exactly when 3 does not divide n |
| Factorization.PrimeFactorsAsWritten | src/compute-engine/numerics/numeric-bignum.ts:36-68 | the big-number path as written computes `WheelFactorsAsWritten`, whose product is n exactly when 3 does not divide n |
| Factorization.AsWrittenCountsThreesAsFives | src/compute-engine/numerics/numeric-bignum.ts:47-52 | for 3 * 2^53 the code as written reports 2^53 * 3 * 5, which is not n; the corrected code reports 2^53 * 3 |
| Factorization.AsWrittenMissesPrimeSquare | src/compute-engine/numerics/numeric-bignum.ts:57 | for 49 * 2^53 the code as written records 49, which is not prime, as a factor; the corrected code reports 2^53 * 7^2 |
| FactorPower.Remainders | src/compute-engine/numerics/numeric-bignum.ts:94 | the remainder part keeps every factor, each with a multiplicity below the exponent |
| FactorPower.PowerSplit | src/compute-engine/numerics/numeric-bignum.ts:91-95 | the power part raised to the exponent, times the remainder part, is the product of the factor map |
| FactorPower.SplitFactors | src/compute-engine/numerics/numeric-bignum.ts:89-95 | the loop over a factor map yields f = product of k^(v div e) and r = product of k^(v mod e), and f^e * r is the map's product |
| FactorPower.FactorPower | src/compute-engine/numerics/numeric-bignum.ts:81-97 | on the corrected factorization (`PrimeFactors`, not the `primeFactors` as written that line 88 calls): f = product of k^(v div e) and r = product of k^(v mod e) over the prime factors of n, so f^e * r = n |
| FactorPower.FactorPowerAsWritten | src/compute-engine/numerics/numeric-bignum.ts:81-97 | on the factorization as written: f^e * r is the product of that factorization, and it equals n exactly when 3 does not divide n |
| FactorPower.FactorPowerAsWrittenOf3TwoTo53 | src/compute-engine/numerics/numeric-bignum.ts:88 | for 3 * 2^53 and exponent 2 the code as written gives f = 2^26 and r = 30, whose recombination is 5n; the corrected code gives r = 6 |
| FactorPower.FactorPowerAsWrittenOf49TwoTo53 | src/compute-engine/numerics/numeric-bignum.ts:88 | for 49 * 2^53 and exponent 2 the code as written gives r = 98, which still holds the square 49; the corrected code gives f = 2^26 * 7 and r = 2 |
| FactorPower.FactorPowerOf75 | src/compute-engine/numerics/numeric-bignum.ts:78 | 75 factors as 3 * 5^2, and splitting by 2 gives f = 5, r = 3 |
| Factorial.SmallFactorialsAreFactorials | src/compute-engine/numerics/numeric-bignum.ts:101-104 | each entry k of the table is k! |
| Factorial.FactGrows | src/compute-engine/numerics/numeric-bignum.ts:109 | from 2 on, (n - 1)! < n!, so stopping one factor short gives a different result |
| Factorial.HugeFactorialAsWritten | src/compute-engine/numerics/numeric-bignum.ts:106-114 | the loop for huge n as written yields (n - 1)!, which is less than n! |
| Factorial.HugeFactorial | src/compute-engine/numerics/numeric-bignum.ts:106-114 | the loop running while `i <= n` yields n! |
| Factorial.PairingStep | src/compute-engine/numerics/numeric-bignum.ts:124-128 | one step of the even loop turns the running sum into the product of the next pair (j + 2)(n - j - 1) and keeps the product's relation to n! |
| Factorial.EvenFactorial | src/compute-engine/numerics/numeric-bignum.ts:120-129 | the running-sum loop for even n yields n! |
| Factorial.Factorial | src/compute-engine/numerics/numeric-bignum.ts:99-130 | NaN exactly for a value that is not a non-negative integer, and n! for every non-negative integer n, with the huge-n loop corrected as in the Findings row for line 109 (as written, n > 2^53 - 1 gives (n - 1)!) |
| MachineRange.IsInMachineRange | src/compute-engine/numerics/numeric-bignum.ts:223-239 | non-finite values are in range; a finite value in range has an exponent from -305 to 307 and a coefficient below 9 * 10^15, which is at most 2^53 - 1 |
| MachineRange.CoefficientLimit | src/compute-engine/numerics/numeric-bignum.ts:227-230 | the digit-block test rejects a value exactly when its coefficient is at least 9 * 10^15 |
| MachineRange.MachineRangeExactly | src/compute-engine/numerics/numeric-bignum.ts:223-239 | a value is in range exactly when it is not finite, or its coefficient is below 9 * 10^15 and its exponent is from -305 to 307 |
| Domains.RankDecreases | src/compute-engine/library/domains.ts:133-231 | every parent in the table has a smaller rank than its child |
| Domains.AllLiteralsAreKeys | src/compute-engine/library/domains.ts:133-231 | every literal is among the table's keys, in declaration order |
| Domains.Distinct | src/compute-engine/library/domains.ts:312 | `new Set(list)` read back: each element once, the same elements, and the first element kept first |
| Domains.ClosureRanks | src/compute-engine/library/domains.ts:133-231 | every ancestor of a literal has a smaller rank than it |
| Domains.Acyclic | src/compute-engine/library/domains.ts:125-131 | no literal is its own ancestor |
| Domains.ParentsInClosure | src/compute-engine/library/domains.ts:304-310 | every direct parent is an ancestor |
| Domains.ClosureTransitive | src/compute-engine/library/domains.ts:304-310 | the ancestors of an ancestor are ancestors |
| Domains.AnythingIsTop | src/compute-engine/library/domains.ts:125-127 | `Anything` is an ancestor of every other literal |
| Domains.OnlyAnythingIsParentless | src/compute-engine/library/domains.ts:134 | a literal has no ancestors exactly when it is `Anything` |
| Domains.SequenceIsNoAncestor | src/compute-engine/library/domains.ts:133-231 | `Sequence` is an ancestor of no literal |
| Domains.SequenceNotReachedFromVoid | src/compute-engine/library/domains.ts:262-267 | building the lattice from `Void` never reaches `Sequence`, so the memo has no entry for it |
| Domains.KeyLiteral | src/compute-engine/library/domains.ts:280 | a value names a literal only as that literal's string or a one-element array, and then its JavaScript property-key string (arrays joined with commas) is that literal's name |
| DomainKeys.KeyLiteralComplete | src/compute-engine/library/domains.ts:280 | conversely, when no non-literal text in the value spells a literal's name, a value whose property-key string is a literal's name names a literal of that name, as the memo lookup `gDomainLiterals[dom]` finds it |
| Domains.LatticeCache.constructor | src/compute-engine/library/domains.ts:253 | the module starts with no memo |
| Domains.LatticeCache.Ancestors | src/compute-engine/library/domains.ts:272-314 | builds the memo from `Void` on first use. Fails exactly on the source's error cases, answers `['Anything']` for the other constructors, and otherwise returns exactly the ancestors of the literal reached. It adds to the memo exactly that literal and its ancestors and never changes an entry. A memoised key returns its stored elements, and a first-time literal stores the set of its answer |
| Domains.LatticeCache.LiteralAncestors | src/compute-engine/library/domains.ts:280 | a memoised literal answers its stored elements; otherwise the answer is computed and stored, and it has exactly the literal's ancestors |
| Domains.LatticeCache.AncestorsOfForm | src/compute-engine/library/domains.ts:283-301 | each constructor form answers the ancestors of the literal it maps to (`Functions`/`Head`, `Symbol`, `Tuple`, `List`, `Dictionary`, `Range` to `Integer`, `Maybe`/`Sequence` to `dom[1]`). A non-array or an unknown head fails, `Interval` fails as an unknown literal, and the rest answer `['Anything']` |
| Domains.LatticeCache.AncestorsOfLiteral | src/compute-engine/library/domains.ts:304-313 | a literal computed for the first time gets exactly its ancestors, and the memo stores the set of them |
| Domains.LatticeCache.OneParentAncestors | src/compute-engine/library/domains.ts:304-305 | one parent p: the answer is p followed by exactly what `ancestors(p)` answers. That is the memoised sequence when p has an entry; otherwise a fresh answer whose set the memo now stores. Either way its elements are exactly the ancestors of p |
| Domains.LatticeCache.CollectParents | src/compute-engine/library/domains.ts:306-310 | a list of parents: each parent with its ancestors, together exactly the literal's ancestors, and nothing for an empty list |
| Domains.LatticeCache.IsSubdomainLiteral | src/compute-engine/library/domains.ts:261-268 | builds the memo if needed. Defined exactly for a left-hand literal with a memo entry; then true exactly when the right-hand side is an ancestor of it. Never true for equal arguments |
| Domains.FindName | src/compute-engine/library/domains.ts:258 | finds a key with the given name exactly when there is one |
| Domains.IsDomainLiteralAsWritten | src/compute-engine/library/domains.ts:255-259 | as written, the test accepts exactly the literal names and the names every object inherits from `Object.prototype` |
| Domains.ToStringIsDomainLiteralAsWritten | src/compute-engine/library/domains.ts:258 | `toString` names no literal, yet the test as written accepts it |
| Domains.IsDomainLiteral | src/compute-engine/library/domains.ts:255-259 | true exactly when the argument is a string that names a literal; false for null and the empty string |
| Domains.DomainSetsLibrary | src/compute-engine/library/domains.ts:316-334 | the keys are exactly the literal names except `Domain`, `Nothing`, `String`, `Symbol`, `List`, `Tuple` and `Sequence`, each mapped to `{domain: 'Set'}` |

## Left out

- The machine-number path of `primeFactors` (numeric-bignum.ts lines 23-28) calls `primeFactors` of `./numeric`, which is not part of this model. The big-number path is applied to every n >= 1, including the example 75 of `factorPower`.
- Factorization.PrimeFactors: requires n >= 1. Below 2^53 - 1 the source never reaches this path, and for n = 0 its first loop would not end.
- The conversion of the map's string keys back to decimal.js values (numeric-bignum.ts lines 70-72) is not modelled: keys are integers.
- `lngamma`, `gamma`, `gammaG` and the `ce.cache` coefficient cache (numeric-bignum.ts lines 132-217) are approximate transcendental numerics and are not modelled.
- decimal.js precision and rounding are not modelled. All arithmetic is exact, so large products are not rounded to the engine's significant digits.
- GcdLcm.Gcd: takes integers, standing in for the `console.assert` that both operands are integers. Non-integer operands are not modelled.
- GcdLcm.Lcm: states that the result is a common multiple whose product with the gcd is a * b. It does not state that the result is the least common multiple; the sign follows a * b.
- FactorPower.FactorPower: requires n >= 1 and an exponent >= 1. The source asserts only that n is a positive integer. With exponent 0 or a non-integer exponent, decimal.js division does not give an integer multiplicity.
- Factorial.Factorial: decimal.js's negative zero, which `isNegative` reports as negative so that `factorial(-0)` is NaN, is not modelled: -0 is 0 here and gives 1.
- MachineRange.IsInMachineRange: the `console.assert` on the precision (numeric-bignum.ts line 232) has no effect on the result and is not modelled. The facts about the coefficient assume well-formed digit blocks, as decimal.js keeps them.
- Domains.LatticeCache.CollectParents: the order of the answer for a literal with several parents is stated as a set, not as the exact concatenation. That exact sequence depends on the order in which earlier calls filled the memo.
- Domains.KeyLiteral: a string that is not written as `Lit`, or another value whose text spells a literal's name (such as `"Integer"` held by `Other`, or an object whose string is `"Integer"`), names no literal here, although JavaScript's lookup by `String(dom)` finds that literal. The model relies on the convention that such text is always written as `Lit`; `DomainKeys.Conventional` states it, and the converse in `DomainKeys.KeyLiteralComplete` holds only under it. That converse names a literal whose name is the key string; that the 49 names are pairwise distinct is not proved, because comparing them character by character is beyond the solver's resource limit.
- `DOMAIN_ALIAS` and the commented-out entries of the table (domains.ts lines 25-124 and 233-250) are not used by the modelled functions and are not modelled.
- Property names inherited from `Object.prototype` (such as `toString`) are modelled only for `isDomainLiteral` (see Findings). In `ancestors` and `isSubdomainLiteral`, a string that names no literal names no table entry and no memo entry.
- `src/compute-engine/library/complex.ts` (floating-point complex roots) and `src/compute-engine/private.ts` (re-exports only) are not part of this model.

## Findings

| source | as written | input that shows it | evidently intended | confidence | as-written member | corrected member |
|---|---|---|---|---|---|---|
| src/compute-engine/numerics/numeric-bignum.ts:47-52 | `count` is not reset after the threes, so the count of threes is added to the count of fives | n = 3 * 2^53 gives 2^53, 3^1 and 5^1, whose product is 5n | reset `count` to 0 before dividing by 5 | not executed | Factorization.AsWrittenCountsThreesAsFives | Factorization.PrimeFactors |
| src/compute-engine/numerics/numeric-bignum.ts:57 | the wheel runs while `k * k < n`, so a leftover that is the square of a prime is recorded as one factor | n = 49 * 2^53 gives 2^53 and 49^1, and 49 is not prime | run while `k * k <= n` and count the leftover with `get + 1` | not executed | Factorization.AsWrittenMissesPrimeSquare | Factorization.WheelFactorsCorrect |
| src/compute-engine/numerics/numeric-bignum.ts:88 | `factorPower` splits the factorization that `primeFactors` as written returns, so it inherits the two defects above | n = 3 * 2^53 with exponent 2 gives f = 2^26 and r = 30, so f^2 * r = 5n; n = 49 * 2^53 gives r = 98, which still holds the square 49 | split the corrected factorization: r = 6 for the first input; f = 2^26 * 7 and r = 2 for the second | not executed | FactorPower.FactorPowerAsWrittenOf3TwoTo53 | FactorPower.FactorPower |
| src/compute-engine/numerics/numeric-bignum.ts:109 | the loop for huge n runs while `i < n`, so it multiplies 2 to n - 1 | any n > 2^53 - 1 gives (n - 1)!, which is less than n! | run while `i <= n` | not executed | Factorial.HugeFactorialAsWritten | Factorial.HugeFactorial |
| src/compute-engine/library/domains.ts:258 | `DOMAIN_LITERAL[s] !== undefined` also finds the names every object inherits from `Object.prototype` | `isDomainLiteral('toString')` is true | test only the table's own keys | not executed | Domains.ToStringIsDomainLiteralAsWritten | Domains.IsDomainLiteral |
