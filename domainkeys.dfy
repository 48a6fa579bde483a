/** What a value used as a key of `DOMAIN_LITERAL` or of the memo names:
    the converse of `Domains.KeyLiteral`'s first ensures. */
module DomainKeys {
  import opened Arith
  import opened Domains

  /** The convention on `Text` and `shown`, over a whole argument: no `Other`
      text and no `shown` text spells a literal's name. */
  ghost predicate Conventional(d: DomainArg) {
    match d
    case Str(t) => t.Other? ==> forall l :: t.chars != Name(l)
    case Arr(items) => forall i :: 0 <= i < |items| ==> Conventional(items[i])
    case OtherValue(s) => forall l :: s != Name(l)
  }

  /** Under the convention, a value whose property-key string is a literal's
      name names a literal of that name: with `KeyLiteral`'s first ensures,
      the value names a literal exactly when its key string spells one. */
  lemma KeyLiteralComplete(d: DomainArg, l: DomainLiteral)
    requires Conventional(d) && KeyString(d) == Name(l)
    ensures KeyLiteral(d).Some? && Name(KeyLiteral(d).value) == Name(l)
  {
    NoComma(l);
    NamesNotEmpty();
    forall h ensures HeadName(h) != Name(l) {
      HeadIsNoName(h, l);
    }
    KeyNamesLiteral(d, Name(l), l);
  }

  /** The induction behind `KeyLiteralComplete`, over a key string `s` of
      which it knows only what the proof needs. */
  lemma {:induction false} KeyNamesLiteral(d: DomainArg, s: string, l: DomainLiteral)
    requires Conventional(d) && KeyString(d) == s && Name(l) == s
    requires s != "" && ',' !in s && forall h :: HeadName(h) != s
    ensures KeyLiteral(d).Some? && Name(KeyLiteral(d).value) == s
  {
    match d
    case Str(t) =>
    case Arr(items) =>
      var xs := seq(|items|, i requires 0 <= i < |items| => KeyString(items[i]));
      assert KeyString(d) == Join(xs);
      if |items| == 1 {
        KeyNamesLiteral(items[0], s, l);
      } else if |items| >= 2 {
        JoinHasComma(xs);
      }
    case OtherValue(_) =>
  }

  lemma JoinHasComma(xs: seq<string>)
    requires |xs| >= 2
    ensures ',' in Join(xs)
  {
    assert Join(xs)[|xs[0]|] == ',';
  }

  /** No constructor name is a literal's name. */
  lemma HeadIsNoName(h: ConstructorHead, l: DomainLiteral)
    ensures HeadName(h) != Name(l)
  {
    assert forall l' :: Name(l') !in {"InvalidDomain", "Intersection", "Union", "Maybe", "Interval", "Range", "Head"};
  }

  /** No literal's name holds a comma. */
  lemma NoComma(l: DomainLiteral)
    ensures ',' !in Name(l)
  {
    NoComma1();
    NoComma2();
    NoComma3();
    NoComma4();
    NoComma5();
    NoComma6();
    NoComma7();
    NoComma8();
    NoComma9();
  }

  // The comma checks are split into groups of names of about seventy
  // letters in all, only to keep each proof small for the solver.

  lemma NoComma1()
    ensures ',' !in "Anything"
      && ',' !in "Values"
      && ',' !in "Domain"
      && ',' !in "DomainExpression"
      && ',' !in "Void"
      && ',' !in "Nothing"
      && ',' !in "MaybeBoolean"
      && ',' !in "Boolean"
  {
  }

  lemma NoComma2()
    ensures ',' !in "String"
      && ',' !in "Symbol"
      && ',' !in "Collection"
      && ',' !in "List"
      && ',' !in "Dictionary"
      && ',' !in "Sequence"
      && ',' !in "Tuple"
      && ',' !in "Set"
      && ',' !in "InfiniteSet"
  {
  }

  lemma NoComma3()
    ensures ',' !in "FiniteSet"
      && ',' !in "Functions"
      && ',' !in "Predicate"
      && ',' !in "LogicOperator"
      && ',' !in "RelationalOperator"
  {
  }

  lemma NoComma4()
    ensures ',' !in "NumericFunctions"
      && ',' !in "RealFunctions"
      && ',' !in "TrigonometricFunctions"
      && ',' !in "Number"
  {
  }

  lemma NoComma5()
    ensures ',' !in "ExtendedComplexNumber"
      && ',' !in "ComplexNumber"
      && ',' !in "ImaginaryNumber"
      && ',' !in "ExtendedRealNumber"
  {
  }

  lemma NoComma6()
    ensures ',' !in "RealNumber"
      && ',' !in "PositiveNumber"
      && ',' !in "NonNegativeNumber"
      && ',' !in "NonPositiveNumber"
  {
  }

  lemma NoComma7()
    ensures ',' !in "NegativeNumber"
      && ',' !in "TranscendentalNumber"
      && ',' !in "AlgebraicNumber"
      && ',' !in "RationalNumber"
      && ',' !in "Integer"
  {
  }

  lemma NoComma8()
    ensures ',' !in "PositiveInteger"
      && ',' !in "NonNegativeInteger"
      && ',' !in "NonPositiveInteger"
      && ',' !in "NegativeInteger"
  {
  }

  lemma NoComma9()
    ensures ',' !in "Tensor"
      && ',' !in "Matrix"
      && ',' !in "Scalar"
      && ',' !in "Row"
      && ',' !in "Column"
      && ',' !in "Vector"
  {
  }
}
