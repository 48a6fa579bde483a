/** The lattice of domain literals of domains.ts: the parent table
    `DOMAIN_LITERAL`, the ancestors of a domain with the memo
    `gDomainLiterals`, the subdomain test and the library of domain sets. */
module Domains {
  import opened Arith

  /** The keys of `DOMAIN_LITERAL`, one constructor per domain literal. */
  datatype DomainLiteral =
    Anything
    | Values
    | Domain
    | DomainExpression
    | Void
    | Nothing
    | MaybeBoolean
    | Boolean
    | String
    | Symbol
    | Collection
    | List
    | Dictionary
    | Sequence
    | Tuple
    | Set
    | InfiniteSet
    | FiniteSet
    | Functions
    | Predicate
    | LogicOperator
    | RelationalOperator
    | NumericFunctions
    | RealFunctions
    | TrigonometricFunctions
    | Number
    | ExtendedComplexNumber
    | ComplexNumber
    | ImaginaryNumber
    | ExtendedRealNumber
    | RealNumber
    | PositiveNumber
    | NonNegativeNumber
    | NonPositiveNumber
    | NegativeNumber
    | TranscendentalNumber
    | AlgebraicNumber
    | RationalNumber
    | Integer
    | PositiveInteger
    | NonNegativeInteger
    | NonPositiveInteger
    | NegativeInteger
    | Tensor
    | Matrix
    | Scalar
    | Row
    | Column
    | Vector

  /** The name under which a literal is a key of `DOMAIN_LITERAL`. */
  function Name(l: DomainLiteral): string {
    match l
    case Anything => "Anything"
    case Values => "Values"
    case Domain => "Domain"
    case DomainExpression => "DomainExpression"
    case Void => "Void"
    case Nothing => "Nothing"
    case MaybeBoolean => "MaybeBoolean"
    case Boolean => "Boolean"
    case String => "String"
    case Symbol => "Symbol"
    case Collection => "Collection"
    case List => "List"
    case Dictionary => "Dictionary"
    case Sequence => "Sequence"
    case Tuple => "Tuple"
    case Set => "Set"
    case InfiniteSet => "InfiniteSet"
    case FiniteSet => "FiniteSet"
    case Functions => "Functions"
    case Predicate => "Predicate"
    case LogicOperator => "LogicOperator"
    case RelationalOperator => "RelationalOperator"
    case NumericFunctions => "NumericFunctions"
    case RealFunctions => "RealFunctions"
    case TrigonometricFunctions => "TrigonometricFunctions"
    case Number => "Number"
    case ExtendedComplexNumber => "ExtendedComplexNumber"
    case ComplexNumber => "ComplexNumber"
    case ImaginaryNumber => "ImaginaryNumber"
    case ExtendedRealNumber => "ExtendedRealNumber"
    case RealNumber => "RealNumber"
    case PositiveNumber => "PositiveNumber"
    case NonNegativeNumber => "NonNegativeNumber"
    case NonPositiveNumber => "NonPositiveNumber"
    case NegativeNumber => "NegativeNumber"
    case TranscendentalNumber => "TranscendentalNumber"
    case AlgebraicNumber => "AlgebraicNumber"
    case RationalNumber => "RationalNumber"
    case Integer => "Integer"
    case PositiveInteger => "PositiveInteger"
    case NonNegativeInteger => "NonNegativeInteger"
    case NonPositiveInteger => "NonPositiveInteger"
    case NegativeInteger => "NegativeInteger"
    case Tensor => "Tensor"
    case Matrix => "Matrix"
    case Scalar => "Scalar"
    case Row => "Row"
    case Column => "Column"
    case Vector => "Vector"
  }

  /** The entries of `DOMAIN_CONSTRUCTORS` that do not also name a literal
      (`Dictionary`, `Functions`, `List`, `Tuple`, `Sequence`, `Symbol` and
      `Values` do, and are written as literals). */
  datatype ConstructorHead = InvalidDomain | Intersection | Union | Maybe | Interval | Range | Head

  /** A JavaScript string as the lattice code tells strings apart: the name of
      a domain literal (`Lit`), the name of one of the other constructors
      (`Ctor`), or any other text (`Other`). A string that spells a literal or
      a constructor name is always written with `Lit` or `Ctor`, so `Other`
      only ever holds text that names neither; the lattice code relies on
      this convention, which the type itself does not enforce
      (`DomainKeys.Conventional` states it). */
  datatype Text = Lit(literal: DomainLiteral) | Ctor(head: ConstructorHead) | Other(chars: string)

  /** The argument of `ancestors`: a string, an array (a constructor form such
      as `['Maybe', 'Integer']`), or any other value such as `undefined`,
      with `shown` the string JavaScript makes of it. By the same convention
      as for `Other`, `shown` never spells a literal's name. */
  datatype DomainArg = Str(text: Text) | Arr(items: seq<DomainArg>) | OtherValue(shown: string)

  /** A value of `DOMAIN_LITERAL`: one parent, or a list of parents. */
  datatype ParentEntry = One(parent: DomainLiteral) | Many(parents: seq<DomainLiteral>)

  /** `DOMAIN_LITERAL`: the parent entry of every literal. */
  function Table(l: DomainLiteral): ParentEntry {
    match l
    case Anything => Many([])
    case Values => One(Anything)
    case Domain => One(Anything)
    case DomainExpression => One(Domain)
    case Void => One(Nothing)
    case Nothing => Many(
        [DomainExpression, Boolean, String, Symbol, Tuple, List, Dictionary] +
        [InfiniteSet, FiniteSet, ImaginaryNumber, TranscendentalNumber] +
        [PositiveInteger, NegativeInteger, NonPositiveInteger] +
        [NonNegativeInteger, PositiveNumber, NegativeNumber] +
        [NonPositiveNumber, NonNegativeNumber, Scalar] +
        [TrigonometricFunctions, LogicOperator, RelationalOperator])
    case MaybeBoolean => One(Values)
    case Boolean => One(MaybeBoolean)
    case String => One(Boolean)
    case Symbol => One(Boolean)
    case Collection => One(Values)
    case List => One(Collection)
    case Dictionary => One(Collection)
    case Sequence => One(Collection)
    case Tuple => One(Collection)
    case Set => One(Collection)
    case InfiniteSet => One(Set)
    case FiniteSet => One(Set)
    case Functions => One(Anything)
    case Predicate => One(Functions)
    case LogicOperator => One(Predicate)
    case RelationalOperator => One(Predicate)
    case NumericFunctions => One(Functions)
    case RealFunctions => One(NumericFunctions)
    case TrigonometricFunctions => One(RealFunctions)
    case Number => One(Values)
    case ExtendedComplexNumber => One(Number)
    case ComplexNumber => One(ExtendedComplexNumber)
    case ImaginaryNumber => One(ComplexNumber)
    case ExtendedRealNumber => One(ExtendedComplexNumber)
    case RealNumber => Many([ComplexNumber, ExtendedRealNumber])
    case PositiveNumber => One(NonNegativeNumber)
    case NonNegativeNumber => One(RealNumber)
    case NonPositiveNumber => One(NegativeNumber)
    case NegativeNumber => One(RealNumber)
    case TranscendentalNumber => One(RealNumber)
    case AlgebraicNumber => One(RealNumber)
    case RationalNumber => One(AlgebraicNumber)
    case Integer => One(RationalNumber)
    case PositiveInteger => One(NonNegativeInteger)
    case NonNegativeInteger => One(Integer)
    case NonPositiveInteger => One(NegativeInteger)
    case NegativeInteger => One(Integer)
    case Tensor => One(Values)
    case Matrix => One(Tensor)
    case Scalar => Many([Row, Column])
    case Row => One(Vector)
    case Column => One(Vector)
    case Vector => One(Matrix)
  }

  function ParentsOf(l: DomainLiteral): seq<DomainLiteral> {
    match Table(l)
    case One(p) => [p]
    case Many(ps) => ps
  }

  /** `Object.keys(DOMAIN_LITERAL)`: the literals in declaration order. */
  const LiteralKeys: seq<DomainLiteral> :=
    [Anything, Values, Domain, DomainExpression, Void, Nothing] +
    [MaybeBoolean, Boolean, String, Symbol, Collection, List] +
    [Dictionary, Sequence, Tuple, Set, InfiniteSet, FiniteSet] +
    [Functions, Predicate, LogicOperator, RelationalOperator] +
    [NumericFunctions, RealFunctions, TrigonometricFunctions, Number] +
    [ExtendedComplexNumber, ComplexNumber, ImaginaryNumber] +
    [ExtendedRealNumber, RealNumber, PositiveNumber, NonNegativeNumber] +
    [NonPositiveNumber, NegativeNumber, TranscendentalNumber] +
    [AlgebraicNumber, RationalNumber, Integer, PositiveInteger] +
    [NonNegativeInteger, NonPositiveInteger, NegativeInteger, Tensor] +
    [Matrix, Scalar, Row, Column, Vector]

  /** The length of the longest chain of parents from a literal up to
      `Anything`; it strictly drops from a literal to each of its parents. */
  function Rank(l: DomainLiteral): nat {
    match l
    case Anything => 0
    case Values => 1
    case Domain => 1
    case DomainExpression => 2
    case Void => 12
    case Nothing => 11
    case MaybeBoolean => 2
    case Boolean => 3
    case String => 4
    case Symbol => 4
    case Collection => 2
    case List => 3
    case Dictionary => 3
    case Sequence => 3
    case Tuple => 3
    case Set => 3
    case InfiniteSet => 4
    case FiniteSet => 4
    case Functions => 1
    case Predicate => 2
    case LogicOperator => 3
    case RelationalOperator => 3
    case NumericFunctions => 2
    case RealFunctions => 3
    case TrigonometricFunctions => 4
    case Number => 2
    case ExtendedComplexNumber => 3
    case ComplexNumber => 4
    case ImaginaryNumber => 5
    case ExtendedRealNumber => 4
    case RealNumber => 5
    case PositiveNumber => 7
    case NonNegativeNumber => 6
    case NonPositiveNumber => 7
    case NegativeNumber => 6
    case TranscendentalNumber => 6
    case AlgebraicNumber => 6
    case RationalNumber => 7
    case Integer => 8
    case PositiveInteger => 10
    case NonNegativeInteger => 9
    case NonPositiveInteger => 10
    case NegativeInteger => 9
    case Tensor => 2
    case Matrix => 3
    case Scalar => 6
    case Row => 5
    case Column => 5
    case Vector => 4
  }

  lemma RankDecreases(l: DomainLiteral)
    ensures forall p | p in ParentsOf(l) :: Rank(p) < Rank(l)
  {
    if Table(l).One? {
      OneParentRank(l);
    } else {
      ManyParentsRank(l);
    }
  }

  // The checks over all 49 literals below are split into groups of seven
  // (OneParentRank1 to 7, NothingParentsRank1 to 6, SequenceIsNoParent1 to 7)
  // only to keep each proof small for the solver; the groups have no meaning
  // in the table itself.

  lemma OneParentRank(l: DomainLiteral)
    requires Table(l).One?
    ensures Rank(Table(l).parent) < Rank(l)
  {
    if l in {Anything, Values, Domain, DomainExpression, Void, Nothing, MaybeBoolean} {
      OneParentRank1(l);
    } else if l in {Boolean, String, Symbol, Collection, List, Dictionary, Sequence} {
      OneParentRank2(l);
    } else if l in {Tuple, Set, InfiniteSet, FiniteSet, Functions, Predicate, LogicOperator} {
      OneParentRank3(l);
    } else if l in {RelationalOperator, NumericFunctions, RealFunctions, TrigonometricFunctions, Number, ExtendedComplexNumber, ComplexNumber} {
      OneParentRank4(l);
    } else if l in {ImaginaryNumber, ExtendedRealNumber, RealNumber, PositiveNumber, NonNegativeNumber, NonPositiveNumber, NegativeNumber} {
      OneParentRank5(l);
    } else if l in {TranscendentalNumber, AlgebraicNumber, RationalNumber, Integer, PositiveInteger, NonNegativeInteger, NonPositiveInteger} {
      OneParentRank6(l);
    } else {
      OneParentRank7(l);
    }
  }

  lemma OneParentRank1(l: DomainLiteral)
    requires l in {Anything, Values, Domain, DomainExpression, Void, Nothing, MaybeBoolean} && Table(l).One?
    ensures Rank(Table(l).parent) < Rank(l)
  {
  }

  lemma OneParentRank2(l: DomainLiteral)
    requires l in {Boolean, String, Symbol, Collection, List, Dictionary, Sequence} && Table(l).One?
    ensures Rank(Table(l).parent) < Rank(l)
  {
  }

  lemma OneParentRank3(l: DomainLiteral)
    requires l in {Tuple, Set, InfiniteSet, FiniteSet, Functions, Predicate, LogicOperator} && Table(l).One?
    ensures Rank(Table(l).parent) < Rank(l)
  {
  }

  lemma OneParentRank4(l: DomainLiteral)
    requires l in {RelationalOperator, NumericFunctions, RealFunctions, TrigonometricFunctions, Number, ExtendedComplexNumber, ComplexNumber} && Table(l).One?
    ensures Rank(Table(l).parent) < Rank(l)
  {
  }

  lemma OneParentRank5(l: DomainLiteral)
    requires l in {ImaginaryNumber, ExtendedRealNumber, RealNumber, PositiveNumber, NonNegativeNumber, NonPositiveNumber, NegativeNumber} && Table(l).One?
    ensures Rank(Table(l).parent) < Rank(l)
  {
  }

  lemma OneParentRank6(l: DomainLiteral)
    requires l in {TranscendentalNumber, AlgebraicNumber, RationalNumber, Integer, PositiveInteger, NonNegativeInteger, NonPositiveInteger} && Table(l).One?
    ensures Rank(Table(l).parent) < Rank(l)
  {
  }

  lemma OneParentRank7(l: DomainLiteral)
    requires l in {NegativeInteger, Tensor, Matrix, Scalar, Row, Column, Vector} && Table(l).One?
    ensures Rank(Table(l).parent) < Rank(l)
  {
  }

  lemma ManyParentsRank(l: DomainLiteral)
    requires Table(l).Many?
    ensures forall p | p in Table(l).parents :: Rank(p) < Rank(l)
  {
    if l == Nothing {
      NothingParentsRank();
    }
  }

  lemma NothingParentsRank()
    ensures forall p | p in Table(Nothing).parents :: Rank(p) <= 10
  {
    assert Table(Nothing).parents ==
      [DomainExpression, Boolean, String, Symbol, Tuple, List, Dictionary] +
      [InfiniteSet, FiniteSet, ImaginaryNumber, TranscendentalNumber] +
      [PositiveInteger, NegativeInteger, NonPositiveInteger] +
      [NonNegativeInteger, PositiveNumber, NegativeNumber] +
      [NonPositiveNumber, NonNegativeNumber, Scalar] +
      [TrigonometricFunctions, LogicOperator, RelationalOperator];
    NothingParentsRank1();
    NothingParentsRank2();
    NothingParentsRank3();
    NothingParentsRank4();
    NothingParentsRank5();
    NothingParentsRank6();
  }

  lemma NothingParentsRank1()
    ensures forall p | p in [DomainExpression, Boolean, String, Symbol, Tuple, List, Dictionary] :: Rank(p) <= 10
  {
  }

  lemma NothingParentsRank2()
    ensures forall p | p in [InfiniteSet, FiniteSet, ImaginaryNumber, TranscendentalNumber] :: Rank(p) <= 10
  {
  }

  lemma NothingParentsRank3()
    ensures forall p | p in [PositiveInteger, NegativeInteger, NonPositiveInteger] :: Rank(p) <= 10
  {
  }

  lemma NothingParentsRank4()
    ensures forall p | p in [NonNegativeInteger, PositiveNumber, NegativeNumber] :: Rank(p) <= 10
  {
  }

  lemma NothingParentsRank5()
    ensures forall p | p in [NonPositiveNumber, NonNegativeNumber, Scalar] :: Rank(p) <= 10
  {
  }

  lemma NothingParentsRank6()
    ensures forall p | p in [TrigonometricFunctions, LogicOperator, RelationalOperator] :: Rank(p) <= 10
  {
  }

  lemma AllLiteralsAreKeys(l: DomainLiteral)
    ensures l in LiteralKeys
  {
    match l
    case Anything => assert LiteralKeys[0] == Anything;
    case Values => assert LiteralKeys[1] == Values;
    case Domain => assert LiteralKeys[2] == Domain;
    case DomainExpression => assert LiteralKeys[3] == DomainExpression;
    case Void => assert LiteralKeys[4] == Void;
    case Nothing => assert LiteralKeys[5] == Nothing;
    case MaybeBoolean => assert LiteralKeys[6] == MaybeBoolean;
    case Boolean => assert LiteralKeys[7] == Boolean;
    case String => assert LiteralKeys[8] == String;
    case Symbol => assert LiteralKeys[9] == Symbol;
    case Collection => assert LiteralKeys[10] == Collection;
    case List => assert LiteralKeys[11] == List;
    case Dictionary => assert LiteralKeys[12] == Dictionary;
    case Sequence => assert LiteralKeys[13] == Sequence;
    case Tuple => assert LiteralKeys[14] == Tuple;
    case Set => assert LiteralKeys[15] == Set;
    case InfiniteSet => assert LiteralKeys[16] == InfiniteSet;
    case FiniteSet => assert LiteralKeys[17] == FiniteSet;
    case Functions => assert LiteralKeys[18] == Functions;
    case Predicate => assert LiteralKeys[19] == Predicate;
    case LogicOperator => assert LiteralKeys[20] == LogicOperator;
    case RelationalOperator => assert LiteralKeys[21] == RelationalOperator;
    case NumericFunctions => assert LiteralKeys[22] == NumericFunctions;
    case RealFunctions => assert LiteralKeys[23] == RealFunctions;
    case TrigonometricFunctions => assert LiteralKeys[24] == TrigonometricFunctions;
    case Number => assert LiteralKeys[25] == Number;
    case ExtendedComplexNumber => assert LiteralKeys[26] == ExtendedComplexNumber;
    case ComplexNumber => assert LiteralKeys[27] == ComplexNumber;
    case ImaginaryNumber => assert LiteralKeys[28] == ImaginaryNumber;
    case ExtendedRealNumber => assert LiteralKeys[29] == ExtendedRealNumber;
    case RealNumber => assert LiteralKeys[30] == RealNumber;
    case PositiveNumber => assert LiteralKeys[31] == PositiveNumber;
    case NonNegativeNumber => assert LiteralKeys[32] == NonNegativeNumber;
    case NonPositiveNumber => assert LiteralKeys[33] == NonPositiveNumber;
    case NegativeNumber => assert LiteralKeys[34] == NegativeNumber;
    case TranscendentalNumber => assert LiteralKeys[35] == TranscendentalNumber;
    case AlgebraicNumber => assert LiteralKeys[36] == AlgebraicNumber;
    case RationalNumber => assert LiteralKeys[37] == RationalNumber;
    case Integer => assert LiteralKeys[38] == Integer;
    case PositiveInteger => assert LiteralKeys[39] == PositiveInteger;
    case NonNegativeInteger => assert LiteralKeys[40] == NonNegativeInteger;
    case NonPositiveInteger => assert LiteralKeys[41] == NonPositiveInteger;
    case NegativeInteger => assert LiteralKeys[42] == NegativeInteger;
    case Tensor => assert LiteralKeys[43] == Tensor;
    case Matrix => assert LiteralKeys[44] == Matrix;
    case Scalar => assert LiteralKeys[45] == Scalar;
    case Row => assert LiteralKeys[46] == Row;
    case Column => assert LiteralKeys[47] == Column;
    case Vector => assert LiteralKeys[48] == Vector;
  }

  // ---------------------------------------------------------------------
  // Sequences used as JavaScript sets

  function Elems<T>(s: seq<T>): set<T> {
    set x | x in s
  }

  predicate NoDup<T(==)>(s: seq<T>) {
    forall i, j | 0 <= i < j < |s| :: s[i] != s[j]
  }

  /** `new Set(s)` read back with `Array.from`: each element once, in the
      order of its first occurrence. */
  function Distinct<T(==)>(s: seq<T>): (r: seq<T>)
    ensures NoDup(r) && Elems(r) == Elems(s)
    ensures |s| > 0 ==> |r| > 0 && r[0] == s[0]
  {
    if |s| == 0 then []
    else
      var init := s[..|s| - 1];
      var x := s[|s| - 1];
      assert s == init + [x];
      var r := Distinct(init);
      ElemsSnoc(init, x);
      ElemsSnoc(r, x);
      if x in r then r else r + [x]
  }

  /** Pushing a parent and then its ancestors adds the literals it reaches. */
  lemma ElemsPush(list: seq<DomainLiteral>, p: DomainLiteral, r: seq<DomainLiteral>)
    requires Elems(r) == Closure(p)
    ensures Elems(list + [p] + r) == Elems(list) + Reach(p)
  {
    ElemsConcat(list + [p], r);
    ElemsConcat(list, [p]);
  }

  lemma UnionAssoc<T>(a: set<T>, b: set<T>, c: set<T>)
    ensures a + b + c == a + (b + c)
  {
  }

  lemma ElemsConcat<T>(s: seq<T>, t: seq<T>)
    ensures Elems(s + t) == Elems(s) + Elems(t)
  {
  }

  lemma ElemsSnoc<T>(s: seq<T>, x: T)
    ensures Elems(s + [x]) == Elems(s) + {x}
  {
  }

  // ---------------------------------------------------------------------
  // The ancestor relation

  /** The ancestors of a literal: its parents and, recursively, theirs. */
  ghost function Closure(l: DomainLiteral): set<DomainLiteral>
    decreases Rank(l), 0
  {
    RankDecreases(l);
    set p, a | p in ParentsOf(l) && a in Reach(p) :: a
  }

  /** A literal together with its ancestors: the keys that computing its
      ancestors adds to the memo. */
  ghost function Reach(l: DomainLiteral): set<DomainLiteral>
    decreases Rank(l), 1
  {
    {l} + Closure(l)
  }

  /** The literals reached from any of `ps`. */
  ghost function ReachOfAll(ps: seq<DomainLiteral>): set<DomainLiteral> {
    set p, a | p in ps && a in Reach(p) :: a
  }

  lemma ReachOfAllPrefix(ps: seq<DomainLiteral>, i: nat)
    requires i < |ps|
    ensures ReachOfAll(ps[..i + 1]) == ReachOfAll(ps[..i]) + Reach(ps[i])
  {
    assert ps[..i + 1] == ps[..i] + [ps[i]];
    ReachOfAllSnoc(ps[..i], ps[i]);
  }

  lemma ReachOfAllSnoc(ps: seq<DomainLiteral>, x: DomainLiteral)
    ensures ReachOfAll(ps + [x]) == ReachOfAll(ps) + Reach(x)
  {
    var qs := ps + [x];
    assert forall p | p in qs :: p in ps || p == x;
    assert forall p | p in ps :: p in qs;
    assert x in qs;
  }

  /** The parent through which an ancestor is reached. */
  lemma ClosureWitness(l: DomainLiteral, a: DomainLiteral) returns (p: DomainLiteral)
    requires a in Closure(l)
    ensures p in ParentsOf(l) && a in Reach(p)
  {
    p :| p in ParentsOf(l) && a in Reach(p);
  }

  lemma ReachedViaParent(l: DomainLiteral, p: DomainLiteral, b: DomainLiteral)
    requires p in ParentsOf(l) && b in Reach(p)
    ensures b in Closure(l)
  {
  }

  /** Every ancestor of a literal has a smaller rank: the parent relation is acyclic. */
  lemma {:induction false} ClosureRanks(l: DomainLiteral)
    ensures forall a | a in Closure(l) :: Rank(a) < Rank(l)
    decreases Rank(l)
  {
    RankDecreases(l);
    forall a | a in Closure(l) ensures Rank(a) < Rank(l) {
      var p := ClosureWitness(l, a);
      ClosureRanks(p);
    }
  }

  /** No literal is its own ancestor. */
  lemma Acyclic(l: DomainLiteral)
    ensures l !in Closure(l)
  {
    ClosureRanks(l);
  }

  /** Every direct parent is an ancestor. */
  lemma ParentsInClosure(l: DomainLiteral)
    ensures forall p | p in ParentsOf(l) :: p in Closure(l)
  {
    forall p | p in ParentsOf(l) ensures p in Closure(l) {
      assert p in Reach(p);
    }
  }

  /** The ancestors of an ancestor are ancestors: the closure is transitive. */
  lemma {:induction false} ClosureTransitive(l: DomainLiteral, a: DomainLiteral)
    requires a in Closure(l)
    ensures Closure(a) <= Closure(l)
    decreases Rank(l)
  {
    var p := ClosureWitness(l, a);
    RankDecreases(l);
    if a != p {
      assert a in Closure(p);
      ClosureTransitive(p, a);
    }
    forall b | b in Closure(a) ensures b in Closure(l) {
      assert b in Reach(p);
      ReachedViaParent(l, p, b);
    }
  }

  /** `Anything` has no ancestors. */
  lemma AnythingHasNoAncestor()
    ensures Closure(Anything) == {}
  {
    assert ParentsOf(Anything) == [];
    forall a | a in Closure(Anything) ensures false {
    }
  }

  /** `Anything` is the top of the lattice: an ancestor of every other literal. */
  lemma {:induction false} AnythingIsTop(l: DomainLiteral)
    ensures l != Anything ==> Anything in Closure(l)
    decreases Rank(l)
  {
    if l != Anything {
      var p := FirstParent(l);
      RankDecreases(l);
      if p != Anything {
        AnythingIsTop(p);
        ClosureTransitive(l, p);
      }
    }
  }

  /** Exactly `Anything` has no ancestors. */
  lemma OnlyAnythingIsParentless(l: DomainLiteral)
    ensures Closure(l) == {} <==> l == Anything
  {
    AnythingHasNoAncestor();
    AnythingIsTop(l);
  }

  lemma FirstParent(l: DomainLiteral) returns (p: DomainLiteral)
    requires l != Anything
    ensures p in ParentsOf(l) && p in Closure(l)
  {
    HasParent(l);
    p := ParentsOf(l)[0];
    ParentsInClosure(l);
  }

  lemma HasParent(l: DomainLiteral)
    requires l != Anything
    ensures |ParentsOf(l)| > 0
  {
  }

  /** No literal names `Sequence` as a parent, so it is an ancestor of no
      literal, and the memo built from `Void` has no entry for it. */
  lemma {:induction false} SequenceIsNoAncestor(l: DomainLiteral)
    ensures Sequence !in Closure(l)
    decreases Rank(l)
  {
    RankDecreases(l);
    SequenceIsNoParent(l);
    if Sequence in Closure(l) {
      var p := ClosureWitness(l, Sequence);
      SequenceIsNoAncestor(p);
    }
  }

  lemma SequenceIsNoParent(l: DomainLiteral)
    ensures Sequence !in ParentsOf(l)
  {
    if l in {Anything, Values, Domain, DomainExpression, Void, Nothing, MaybeBoolean} {
      SequenceIsNoParent1(l);
    } else if l in {Boolean, String, Symbol, Collection, List, Dictionary, Sequence} {
      SequenceIsNoParent2(l);
    } else if l in {Tuple, Set, InfiniteSet, FiniteSet, Functions, Predicate, LogicOperator} {
      SequenceIsNoParent3(l);
    } else if l in {RelationalOperator, NumericFunctions, RealFunctions, TrigonometricFunctions, Number, ExtendedComplexNumber, ComplexNumber} {
      SequenceIsNoParent4(l);
    } else if l in {ImaginaryNumber, ExtendedRealNumber, RealNumber, PositiveNumber, NonNegativeNumber, NonPositiveNumber, NegativeNumber} {
      SequenceIsNoParent5(l);
    } else if l in {TranscendentalNumber, AlgebraicNumber, RationalNumber, Integer, PositiveInteger, NonNegativeInteger, NonPositiveInteger} {
      SequenceIsNoParent6(l);
    } else {
      SequenceIsNoParent7(l);
    }
  }

  lemma SequenceIsNoParent1(l: DomainLiteral)
    requires l in {Anything, Values, Domain, DomainExpression, Void, Nothing, MaybeBoolean}
    ensures Sequence !in ParentsOf(l)
  {
  }

  lemma SequenceIsNoParent2(l: DomainLiteral)
    requires l in {Boolean, String, Symbol, Collection, List, Dictionary, Sequence}
    ensures Sequence !in ParentsOf(l)
  {
  }

  lemma SequenceIsNoParent3(l: DomainLiteral)
    requires l in {Tuple, Set, InfiniteSet, FiniteSet, Functions, Predicate, LogicOperator}
    ensures Sequence !in ParentsOf(l)
  {
  }

  lemma SequenceIsNoParent4(l: DomainLiteral)
    requires l in {RelationalOperator, NumericFunctions, RealFunctions, TrigonometricFunctions, Number, ExtendedComplexNumber, ComplexNumber}
    ensures Sequence !in ParentsOf(l)
  {
  }

  lemma SequenceIsNoParent5(l: DomainLiteral)
    requires l in {ImaginaryNumber, ExtendedRealNumber, RealNumber, PositiveNumber, NonNegativeNumber, NonPositiveNumber, NegativeNumber}
    ensures Sequence !in ParentsOf(l)
  {
  }

  lemma SequenceIsNoParent6(l: DomainLiteral)
    requires l in {TranscendentalNumber, AlgebraicNumber, RationalNumber, Integer, PositiveInteger, NonNegativeInteger, NonPositiveInteger}
    ensures Sequence !in ParentsOf(l)
  {
  }

  lemma SequenceIsNoParent7(l: DomainLiteral)
    requires l in {NegativeInteger, Tensor, Matrix, Scalar, Row, Column, Vector}
    ensures Sequence !in ParentsOf(l)
  {
  }

  lemma SequenceNotReachedFromVoid()
    ensures Sequence !in Reach(Void)
  {
    SequenceIsNoAncestor(Void);
  }

  // ---------------------------------------------------------------------
  // `ancestors` and its memo

  /** The text of a constructor name. */
  function HeadName(h: ConstructorHead): string {
    match h
    case InvalidDomain => "InvalidDomain"
    case Intersection => "Intersection"
    case Union => "Union"
    case Maybe => "Maybe"
    case Interval => "Interval"
    case Range => "Range"
    case Head => "Head"
  }

  /** The string JavaScript makes of a value used as a property key: a
      string is itself, an array joins the strings of its elements with
      commas, and any other value is its text `shown`. */
  function KeyString(d: DomainArg): string {
    match d
    case Str(t) =>
      (match t
       case Lit(l) => Name(l)
       case Ctor(h) => HeadName(h)
       case Other(c) => c)
    case Arr(items) => Join(seq(|items|, i requires 0 <= i < |items| => KeyString(items[i])))
    case OtherValue(s) => s
  }

  /** `Array.prototype.join` with its default separator `,`. */
  function Join(xs: seq<string>): string {
    if |xs| == 0 then ""
    else if |xs| == 1 then xs[0]
    else xs[0] + "," + Join(xs[1..])
  }

  /** The literal that a value names when used as a property key, if any.
      No literal name holds a comma, so only a one-element array, such as
      `['Integer']`, names a literal, the one its element names. */
  function KeyLiteral(d: DomainArg): (r: Option<DomainLiteral>)
    ensures r.Some? ==> KeyString(d) == Name(r.value)
    ensures r.Some? ==> d == Str(Lit(r.value)) || (d.Arr? && |d.items| == 1)
  {
    match d
    case Str(t) => if t.Lit? then Some(t.literal) else None
    case Arr(items) =>
      if |items| == 1 then
        assert KeyString(d) == KeyString(items[0]);
        KeyLiteral(items[0])
      else None
    case OtherValue(_) => None
  }

  /** `DOMAIN_CONSTRUCTORS.includes(x)`. */
  predicate IsConstructorName(x: DomainArg) {
    x.Str? && (x.text.Ctor? ||
      (x.text.Lit? && x.text.literal in [Dictionary, Functions, List, Tuple, Sequence, Symbol, Values]))
  }

  datatype DomainError =
    | UnknownDomainLiteral     // `Unknown domain literal`
    | UnknownDomainConstructor // `Unknown domain constructor`
    | NoEntry                  // reading `.has` of an entry the memo lacks

  datatype Result<T> = Ok(value: T) | Err(error: DomainError)

  /** What `ancestors(dom)` answers, given the keys `keys` of the memo once
      it is built: the ancestors of a literal, the fixed answer
      `['Anything']`, or an error. */
  datatype Resolution = ViaLiteral(literal: DomainLiteral) | JustAnything | Fails(error: DomainError)

  ghost function Resolve(dom: DomainArg, keys: set<DomainLiteral>): Resolution {
    if KeyLiteral(dom).Some? && KeyLiteral(dom).value in keys then ViaLiteral(KeyLiteral(dom).value)
    else if dom.Str? && dom.text.Lit? then ViaLiteral(dom.text.literal)
    else if !dom.Arr? then Fails(UnknownDomainLiteral)
    else if |dom.items| == 0 || !IsConstructorName(dom.items[0]) then Fails(UnknownDomainConstructor)
    else
      var head := dom.items[0].text;
      if head == Lit(Functions) || head == Ctor(Head) then ViaLiteral(Functions)
      else if head == Lit(Symbol) then ViaLiteral(Symbol)
      else if head == Lit(Tuple) then ViaLiteral(Tuple)
      else if head == Lit(List) then ViaLiteral(List)
      else if head == Lit(Dictionary) then ViaLiteral(Dictionary)
      else if head == Ctor(Range) then ViaLiteral(Integer)
      // `Interval` asks for 'RealNumberExtended', which is not a literal
      else if head == Ctor(Interval) then Fails(UnknownDomainLiteral)
      else if head == Ctor(Maybe) || head == Lit(Sequence) then
        // a missing `dom[1]` is `undefined`, which is no literal
        if |dom.items| < 2 then Fails(UnknownDomainLiteral) else Resolve(dom.items[1], keys)
      else JustAnything
  }

  /** The keys of the memo once the lattice is built: all of them if it was
      built before, else those that computing the ancestors of `Void` adds. */
  ghost function BuiltKeys(wasBuilt: bool, keys: set<DomainLiteral>): set<DomainLiteral> {
    if wasBuilt then keys else Reach(Void)
  }

  /** A literal's rank, and 0 for any other argument: a termination measure. */
  function ArgRank(d: DomainArg): nat {
    if d.Str? && d.text.Lit? then Rank(d.text.literal) else 0
  }

  /** The order of a freshly computed answer: for one parent, the parent
      then its ancestors; for no parents, nothing. */
  ghost predicate Shape(l: DomainLiteral, list: seq<DomainLiteral>) {
    (Table(l).One? ==> |list| > 0 && list[0] == Table(l).parent &&
                       Elems(list[1..]) == Closure(Table(l).parent)) &&
    (ParentsOf(l) == [] ==> list == [])
  }

  /** `b` keeps every entry of `a` unchanged. */
  ghost predicate Extends(a: map<DomainLiteral, seq<DomainLiteral>>, b: map<DomainLiteral, seq<DomainLiteral>>) {
    forall l | l in a :: l in b && b[l] == a[l]
  }

  /** Every entry of `m` holds the ancestors of its key, each once, and the
      ancestors of a key are keys themselves. */
  ghost predicate ValidEntries(m: map<DomainLiteral, seq<DomainLiteral>>) {
    forall l | l in m :: NoDup(m[l]) && Elems(m[l]) == Closure(l) && Closure(l) <= m.Keys
  }

  /** Storing the set of a literal's ancestors keeps the memo valid once its
      ancestors are keys. */
  lemma StoreKeepsValid(m: map<DomainLiteral, seq<DomainLiteral>>, l: DomainLiteral, list: seq<DomainLiteral>)
    requires ValidEntries(m) && Elems(list) == Closure(l) && Closure(l) <= m.Keys
    ensures ValidEntries(m[l := Distinct(list)])
  {
  }

  /** Storing the set of a freshly computed answer for `l` in a memo `b`
      that grew from `a` by the ancestors of `l`: the memo stays valid, keeps
      the entries of `a`, and has grown by `l` and its ancestors. */
  lemma StoreAnswer(a: map<DomainLiteral, seq<DomainLiteral>>, b: map<DomainLiteral, seq<DomainLiteral>>,
                    l: DomainLiteral, list: seq<DomainLiteral>)
    requires ValidEntries(b) && Extends(a, b) && l !in b
    requires Elems(list) == Closure(l) && b.Keys == a.Keys + Closure(l)
    ensures var c := b[l := Distinct(list)];
      ValidEntries(c) && Extends(a, c) && c.Keys == a.Keys + Reach(l)
  {
    StoreKeepsValid(b, l, list);
    StoreExtends(a, b, l, Distinct(list));
  }

  lemma StoreExtends(a: map<DomainLiteral, seq<DomainLiteral>>, b: map<DomainLiteral, seq<DomainLiteral>>,
                     l: DomainLiteral, v: seq<DomainLiteral>)
    requires Extends(a, b) && l !in a
    ensures Extends(a, b[l := v])
  {
  }

  /** The module state of domains.ts: the memo `gDomainLiterals`, which maps
      each literal whose ancestors have been computed to the set of them. */
  class LatticeCache {
    /** Whether `gDomainLiterals` has been created. */
    var built: bool
    /** The entries of `gDomainLiterals`, each set as the sequence of its
        elements in insertion order. */
    var entries: map<DomainLiteral, seq<DomainLiteral>>

    /** Every entry holds the ancestors of its key, each once, and the
        ancestors of a key are keys themselves. */
    ghost predicate Valid()
      reads this
    {
      (!built ==> entries == map[]) && ValidEntries(entries)
    }

    /** The state when the module is loaded: no memo yet. */
    constructor ()
      ensures Valid() && !built && entries == map[]
    {
      built := false;
      entries := map[];
    }

    /** `ancestors(dom)`: builds the memo from `Void` on first use, answers a
        memoised key from the memo, and otherwise computes the answer. */
    method Ancestors(dom: DomainArg) returns (result: Result<seq<DomainLiteral>>)
      requires Valid()
      modifies this
      ensures Valid() && built
      // entries are only added, never changed
      ensures Extends(old(entries), entries)
      // what the call answers, as a set
      ensures var r := Resolve(dom, BuiltKeys(old(built), old(entries).Keys));
        match r
        case Fails(e) => result == Err(e)
        case JustAnything => result == Ok([Anything])
        case ViaLiteral(t) => result.Ok? && Elems(result.value) == Closure(t)
      // the keys it adds: the reached literal and its ancestors
      ensures var k0 := BuiltKeys(old(built), old(entries).Keys);
        var r := Resolve(dom, k0);
        entries.Keys == k0 + (if r.ViaLiteral? then Reach(r.literal) else {})
      // a memoised key answers the elements of its stored set
      ensures var k := KeyLiteral(dom);
        k.Some? && k.value in BuiltKeys(old(built), old(entries).Keys) ==> result == Ok(entries[k.value])
      // a literal seen for the first time: the memo stores the set of the answer
      ensures dom.Str? && dom.text.Lit? && dom.text.literal !in BuiltKeys(old(built), old(entries).Keys) ==>
        result.Ok? && entries[dom.text.literal] == Distinct(result.value)
      decreases if built then 0 else 1, if dom.Arr? then 1 else 0, ArgRank(dom), dom, 3
    {
      if !built {
        built := true;
        entries := map[];
        var _ := LiteralAncestors(Void);
      }
      assert entries.Keys == BuiltKeys(old(built), old(entries).Keys);
      var key := KeyLiteral(dom);
      if key.Some? && key.value in entries {
        ClosureInKeys(key.value);
        return Ok(entries[key.value]);
      }
      if dom.Str? && dom.text.Lit? {
        var list := LiteralAncestors(dom.text.literal);
        result := Ok(list);
      } else {
        result := AncestorsOfForm(dom);
      }
    }

    /** `ancestors(l)` for a literal `l` once the memo exists, as the
        recursion over parents calls it: the memoised set if there is one,
        else the freshly computed answer. */
    method LiteralAncestors(l: DomainLiteral) returns (list: seq<DomainLiteral>)
      requires Valid() && built
      modifies this
      ensures Valid() && built
      ensures Extends(old(entries), entries)
      ensures Elems(list) == Closure(l)
      ensures entries.Keys == old(entries).Keys + Reach(l)
      ensures l in old(entries) ==> list == old(entries)[l]
      ensures l !in old(entries) ==> FirstAnswer(l, list, entries)
      decreases 0, 0, Rank(l), Str(Lit(l)), 2
    {
      if l in entries {
        ClosureInKeys(l);
        return entries[l];
      }
      list := AncestorsOfLiteral(l);
    }

    /** The answer for a literal `l` computed for the first time, and the
        memo storing the set of it. */
    ghost predicate FirstAnswer(l: DomainLiteral, list: seq<DomainLiteral>, m: map<DomainLiteral, seq<DomainLiteral>>) {
      l in m && m[l] == Distinct(list) && Shape(l, list)
    }

    /** The constructor forms: `dom` is not a literal name. */
    method AncestorsOfForm(dom: DomainArg) returns (result: Result<seq<DomainLiteral>>)
      requires Valid() && built
      requires !(dom.Str? && dom.text.Lit?)
      requires KeyLiteral(dom).None? || KeyLiteral(dom).value !in entries
      modifies this
      ensures Valid() && built
      ensures Extends(old(entries), entries)
      ensures var r := Resolve(dom, old(entries).Keys);
        match r
        case Fails(e) => result == Err(e)
        case JustAnything => result == Ok([Anything])
        case ViaLiteral(t) => result.Ok? && Elems(result.value) == Closure(t)
      ensures var r := Resolve(dom, old(entries).Keys);
        entries.Keys == old(entries).Keys + (if r.ViaLiteral? then Reach(r.literal) else {})
      decreases 0, if dom.Arr? then 1 else 0, ArgRank(dom), dom, 2
    {
      if !dom.Arr? {
        return Err(UnknownDomainLiteral);
      }
      var items := dom.items;
      if |items| == 0 || !IsConstructorName(items[0]) {
        return Err(UnknownDomainConstructor);
      }
      var head := items[0].text;
      var target: DomainLiteral;
      if head == Lit(Functions) || head == Ctor(Head) {
        target := Functions;
      } else if head == Lit(Symbol) {
        target := Symbol;
      } else if head == Lit(Tuple) {
        target := Tuple;
      } else if head == Lit(List) {
        target := List;
      } else if head == Lit(Dictionary) {
        target := Dictionary;
      } else if head == Ctor(Range) {
        target := Integer;
      } else if head == Ctor(Interval) {
        result := Ancestors(Str(Other("RealNumberExtended")));
        return;
      } else if head == Ctor(Maybe) || head == Lit(Sequence) {
        if |items| < 2 {
          result := Ancestors(OtherValue("undefined"));
        } else {
          result := Ancestors(items[1]);
        }
        return;
      } else {
        return Ok([Anything]);
      }
      var list := LiteralAncestors(target);
      result := Ok(list);
    }

    /** A literal whose ancestors are not memoised yet: each parent followed
        by that parent's ancestors, then the set of them is memoised. */
    method AncestorsOfLiteral(l: DomainLiteral) returns (list: seq<DomainLiteral>)
      requires Valid() && built && l !in entries
      modifies this
      ensures Valid() && built
      ensures Extends(old(entries), entries)
      ensures Elems(list) == Closure(l)
      ensures entries.Keys == old(entries).Keys + Reach(l)
      ensures FirstAnswer(l, list, entries)
      decreases 0, 0, Rank(l), Str(Lit(l)), 1
    {
      match Table(l) {
        case One(p) =>
          list := OneParentAncestors(l, p);
        case Many(ps) =>
          list := CollectParents(l, ps);
      }
      StoreAnswer(old(entries), entries, l, list);
      entries := entries[l := Distinct(list)];
    }

    /** A single parent `p`: the parent followed by its ancestors. */
    method OneParentAncestors(ghost l: DomainLiteral, p: DomainLiteral) returns (list: seq<DomainLiteral>)
      requires Valid() && built && l !in entries
      requires Table(l) == One(p)
      modifies this
      ensures Valid() && built && l !in entries
      ensures Extends(old(entries), entries)
      ensures Shape(l, list)
      ensures Elems(list) == Closure(l)
      ensures entries.Keys == old(entries).Keys + Closure(l)
      // the tail is exactly what `ancestors(p)` answers: the memoised
      // elements, or a fresh answer whose set the memo now stores
      ensures p in old(entries) ==> list == [p] + old(entries)[p]
      ensures p !in old(entries) ==> p in entries && entries[p] == Distinct(list[1..])
      decreases 0, 0, Rank(l), Str(Lit(l)), 0
    {
      OneParentFacts(l, p);
      var r := LiteralAncestors(p);
      list := [p] + r;
      assert list[1..] == r;
    }

    /** The loop over a list of parents: each parent pushed, followed by its
        ancestors. */
    method CollectParents(ghost l: DomainLiteral, ps: seq<DomainLiteral>) returns (list: seq<DomainLiteral>)
      requires Valid() && built && l !in entries
      requires Table(l) == Many(ps)
      modifies this
      ensures Valid() && built && l !in entries
      ensures Extends(old(entries), entries)
      ensures Elems(list) == Closure(l)
      ensures entries.Keys == old(entries).Keys + Closure(l)
      ensures Shape(l, list)
      decreases 0, 0, Rank(l), Str(Lit(l)), 0
    {
      ManyParentsClosure(l);
      RankDecreases(l);
      ClosureRanks(l);
      list := [];
      for i := 0 to |ps|
        invariant Valid() && built
        invariant Extends(old(entries), entries)
        invariant entries.Keys == old(entries).Keys + ReachOfAll(ps[..i])
        invariant Elems(list) == ReachOfAll(ps[..i])
        invariant i == 0 ==> list == []
        invariant l !in entries
      {
        ghost var keys := entries.Keys;
        var r := LiteralAncestors(ps[i]);
        ElemsPush(list, ps[i], r);
        UnionAssoc(old(entries).Keys, ReachOfAll(ps[..i]), Reach(ps[i]));
        list := list + [ps[i]] + r;
        ReachOfAllPrefix(ps, i);
      }
      assert ps[..|ps|] == ps;
      assert ParentsOf(l) == ps;
    }

    lemma ClosureInKeys(l: DomainLiteral)
      requires Valid() && l in entries
      ensures Reach(l) <= entries.Keys
    {
    }

    /** `isSubdomainLiteral(lhs, rhs)`: builds the memo if needed, then asks
        whether `rhs` is in the stored set of `lhs`. */
    method IsSubdomainLiteral(lhs: Text, rhs: Text) returns (r: Result<bool>)
      requires Valid()
      modifies this
      ensures Valid() && built
      ensures entries.Keys == BuiltKeys(old(built), old(entries).Keys)
      ensures Extends(old(entries), entries)
      ensures r.Ok? <==> lhs.Lit? && lhs.literal in entries.Keys
      ensures r.Ok? ==> (r.value <==> rhs.Lit? && rhs.literal in Closure(lhs.literal))
      ensures lhs == rhs ==> r != Ok(true)
    {
      if !built {
        built := true;
        entries := map[];
        var _ := LiteralAncestors(Void);
      }
      if !(lhs.Lit? && lhs.literal in entries) {
        return Err(NoEntry);
      }
      Acyclic(lhs.literal);
      r := Ok(rhs.Lit? && rhs.literal in entries[lhs.literal]);
    }
  }

  lemma ManyParentsClosure(l: DomainLiteral)
    requires Table(l).Many?
    ensures Closure(l) == ReachOfAll(Table(l).parents)
  {
  }

  /** A literal with the single parent `p`: `p` ranks below it, and its
      ancestors are exactly `p` and the ancestors of `p`, which leave it out. */
  lemma OneParentFacts(l: DomainLiteral, p: DomainLiteral)
    requires Table(l) == One(p)
    ensures Rank(p) < Rank(l) && ParentsOf(l) == [p]
    ensures Closure(l) == Reach(p) && l !in Reach(p)
  {
    OneParentClosure(l);
    RankDecreases(l);
    ClosureRanks(l);
  }

  lemma OneParentClosure(l: DomainLiteral)
    requires Table(l).One?
    ensures Closure(l) == {Table(l).parent} + Closure(Table(l).parent)
  {
    var q := Table(l).parent;
    assert ParentsOf(l) == [q];
    forall a | a in Closure(l) ensures a in Reach(q) {
      var p := ClosureWitness(l, a);
    }
    forall a | a in Reach(q) ensures a in Closure(l) {
      ReachedViaParent(l, q, a);
    }
  }

  // ---------------------------------------------------------------------
  // `isDomainLiteral` and `domainSetsLibrary`

  /** The first key, among `keys`, whose name is `s`. */
  function FindName(s: string, keys: seq<DomainLiteral>): (r: Option<DomainLiteral>)
    ensures r.Some? ==> r.value in keys && Name(r.value) == s
    ensures r.None? ==> forall l | l in keys :: Name(l) != s
  {
    if |keys| == 0 then None
    else if Name(keys[0]) == s then Some(keys[0])
    else FindName(s, keys[1..])
  }

  /** `isDomainLiteral(s)`: `s` (a string or `null`) is a key of `DOMAIN_LITERAL`. */
  function IsDomainLiteral(s: Option<string>): (r: bool)
    ensures r <==> s.Some? && exists l :: Name(l) == s.value
    ensures s == Some("") ==> !r
  {
    if s.None? || s.value == "" then
      NamesNotEmpty();
      false
    else
      var found := FindName(s.value, LiteralKeys);
      if found.None? then
        forall l ensures Name(l) != s.value {
          AllLiteralsAreKeys(l);
        }
        false
      else true
  }

  /** The property names every JavaScript object inherits from
      `Object.prototype`. */
  const PrototypeNames: set<string> := {
    "constructor", "hasOwnProperty", "isPrototypeOf", "propertyIsEnumerable",
    "toLocaleString", "toString", "valueOf", "__proto__", "__defineGetter__",
    "__defineSetter__", "__lookupGetter__", "__lookupSetter__"}

  /** `isDomainLiteral(s)` as written: `DOMAIN_LITERAL[s] !== undefined` is
      also true for a name inherited from `Object.prototype`. */
  function IsDomainLiteralAsWritten(s: Option<string>): (r: bool)
    ensures r <==> IsDomainLiteral(s) || (s.Some? && s.value in PrototypeNames)
  {
    if s.None? || s.value == "" then false
    else FindName(s.value, LiteralKeys).Some? || s.value in PrototypeNames
  }

  /** `toString` names no literal, yet the test as written accepts it. */
  lemma ToStringIsDomainLiteralAsWritten()
    ensures IsDomainLiteralAsWritten(Some("toString"))
    ensures !IsDomainLiteral(Some("toString"))
  {
    NoLiteralIsPrototypeName();
  }

  lemma NamesNotEmpty()
    ensures forall l :: Name(l) != ""
  {
  }

  lemma NoLiteralIsPrototypeName()
    ensures forall l :: Name(l) !in PrototypeNames
  {
  }


  /** The definition that `domainSetsLibrary` gives to each domain set. */
  datatype SetDefinition = SetDefinition(domain: string)

  /** The literals that `domainSetsLibrary` leaves out, whose names clash
      with functions or symbols of the same name. */
  const Excluded: set<DomainLiteral> := {Domain, Nothing, String, Symbol, List, Tuple, Sequence}

  /** `domainSetsLibrary()`: a definition `{domain: 'Set'}` for every key of
      `DOMAIN_LITERAL` but the excluded ones. */
  method DomainSetsLibrary() returns (table: map<string, SetDefinition>)
    ensures table.Keys == set l | l !in Excluded :: Name(l)
    ensures forall s | s in table :: table[s] == SetDefinition("Set")
  {
    table := map[];
    var keys := LiteralKeys;
    for i := 0 to |keys|
      invariant forall s | s in table :: table[s] == SetDefinition("Set")
      invariant table.Keys == IncludedNames(keys[..i])
    {
      var dom := keys[i];
      assert keys[..i + 1] == keys[..i] + [dom];
      if dom != Domain && dom != Nothing && dom != String && dom != Symbol &&
         dom != List && dom != Tuple && dom != Sequence {
        table := table[Name(dom) := SetDefinition("Set")];
      }
      IncludedNamesSnoc(keys[..i], dom);
    }
    assert keys[..|keys|] == keys;
    forall l | l !in Excluded ensures Name(l) in table {
      AllLiteralsAreKeys(l);
    }
  }

  /** The names of the literals of `ks` that are not excluded. */
  ghost function IncludedNames(ks: seq<DomainLiteral>): set<string> {
    set l | l in ks && l !in Excluded :: Name(l)
  }

  lemma IncludedNamesSnoc(ks: seq<DomainLiteral>, x: DomainLiteral)
    ensures IncludedNames(ks + [x]) == IncludedNames(ks) + (if x in Excluded then {} else {Name(x)})
  {
    forall s | s in IncludedNames(ks + [x]) ensures s in IncludedNames(ks) + (if x in Excluded then {} else {Name(x)}) {
      var l :| l in ks + [x] && l !in Excluded && s == Name(l);
    }
    forall s | s in IncludedNames(ks) ensures s in IncludedNames(ks + [x]) {
      var l :| l in ks && l !in Excluded && s == Name(l);
      assert l in ks + [x];
    }
    assert x in ks + [x];
  }
}
