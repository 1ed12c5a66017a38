/**
 * The code fix for redundant arguments (arguments passed with the value
 * their parameter has by default). The arguments are scanned from right to
 * left: every default-valued one is collected, and it can also be removed
 * without naming the others as long as no unnamed non-default argument has
 * been met to its right. Two fixes can follow: removing the arguments that
 * can go without names, or removing every default-valued argument and
 * naming each later argument that stays.
 *
 * Arguments and their expressions carry ids standing for the syntax nodes;
 * which parameter an argument maps to, and whether it carries the
 * parameter's default value, are inputs.
 */
module RedundantArgumentFix {
  import opened Common

  type TypeId = nat

  datatype RefKind = NoRefKind | RefKeyword | OutKeyword

  datatype Expression = Expression(id: nat, text: string, exprType: Option<TypeId>)

  /** An argument: its `name:` prefix if any, its ref or out keyword and its expression. */
  datatype Argument = Argument(id: nat, nameColon: Option<string>, refOrOut: RefKind, expression: Expression)

  datatype ParameterSymbol = ParameterSymbol(name: string, isParams: bool, paramType: TypeId)

  /** An argument, the parameter it maps to (None when none is found) and whether it passes the default. */
  datatype ArgumentMapping = ArgumentMapping(argument: Argument, parameter: Option<ParameterSymbol>, hasDefaultValue: bool)

  const TitleRemove: string := "Remove redundant arguments"
  const TitleRemoveWithNameAdditions: string := "Remove redundant arguments with adding named arguments"

  // -----------------------------------------------------------------------
  // The right-to-left scan.

  datatype ScanState = ScanState(withDefaultValues: seq<Argument>, removableWithoutNamed: seq<Argument>, canBeRemovedWithoutNamed: bool)

  function ScanStep(s: ScanState, m: ArgumentMapping): ScanState
  {
    if m.hasDefaultValue then
      ScanState(s.withDefaultValues + [m.argument],
                if s.canBeRemovedWithoutNamed then s.removableWithoutNamed + [m.argument] else s.removableWithoutNamed,
                s.canBeRemovedWithoutNamed)
    else
      ScanState(s.withDefaultValues, s.removableWithoutNamed, s.canBeRemovedWithoutNamed && m.argument.nameColon.Some?)
  }

  /** The state after the last k mappings, visited from the right. */
  function ScanLast(ms: seq<ArgumentMapping>, k: nat): ScanState
    requires k <= |ms|
  {
    if k == 0 then ScanState([], [], true)
    else ScanStep(ScanLast(ms, k - 1), ms[|ms| - k])
  }

  /** No argument from position i on is both unnamed and without its default value. */
  predicate NoUnnamedNonDefaultFrom(ms: seq<ArgumentMapping>, i: int)
    requires 0 <= i <= |ms|
  {
    forall j | i <= j < |ms| :: ms[j].hasDefaultValue || ms[j].argument.nameColon.Some?
  }

  /** The removable list is a prefix of the default-valued one, and all of it while nothing blocks. */
  predicate PrefixHolds(s: ScanState)
  {
    |s.removableWithoutNamed| <= |s.withDefaultValues| &&
    s.removableWithoutNamed == s.withDefaultValues[..|s.removableWithoutNamed|] &&
    (s.canBeRemovedWithoutNamed ==> s.removableWithoutNamed == s.withDefaultValues)
  }

  /** The flag, stated on its own for the last k mappings. */
  predicate FlagHolds(ms: seq<ArgumentMapping>, k: nat, s: ScanState)
    requires k <= |ms|
  {
    s.canBeRemovedWithoutNamed <==> NoUnnamedNonDefaultFrom(ms, |ms| - k)
  }

  /** The default-valued list, stated on its own for the last k mappings. */
  ghost predicate DefaultsHold(ms: seq<ArgumentMapping>, k: nat, s: ScanState)
    requires k <= |ms|
  {
    forall a :: a in s.withDefaultValues <==>
                exists i | |ms| - k <= i < |ms| :: ms[i].argument == a && ms[i].hasDefaultValue
  }

  /** The removable list, stated on its own for the last k mappings. */
  ghost predicate RemovableHold(ms: seq<ArgumentMapping>, k: nat, s: ScanState)
    requires k <= |ms|
  {
    forall a :: a in s.removableWithoutNamed <==>
                exists i | |ms| - k <= i < |ms| :: ms[i].argument == a && ms[i].hasDefaultValue && NoUnnamedNonDefaultFrom(ms, i + 1)
  }

  /** The removable arguments are always the first ones of the default-valued list. */
  lemma {:induction false} ScanKeepsPrefix(ms: seq<ArgumentMapping>, k: nat)
    requires k <= |ms|
    ensures PrefixHolds(ScanLast(ms, k))
  {
    if k > 0 {
      ScanKeepsPrefix(ms, k - 1);
      var before := ScanLast(ms, k - 1);
      assert PrefixHolds(before);
      var m := ms[|ms| - k];
      var after := ScanLast(ms, k);
      assert after == ScanStep(before, m);
      if m.hasDefaultValue {
        assert after.withDefaultValues[..|before.withDefaultValues|] == before.withDefaultValues;
        if !before.canBeRemovedWithoutNamed {
          assert after.withDefaultValues[..|after.removableWithoutNamed|] == before.withDefaultValues[..|before.removableWithoutNamed|];
        }
      }
    }
  }

  /** The flag drops exactly at the first unnamed non-default argument met. */
  lemma {:induction false} ScanFlag(ms: seq<ArgumentMapping>, k: nat)
    requires k <= |ms|
    ensures FlagHolds(ms, k, ScanLast(ms, k))
  {
    if k > 0 {
      ScanFlag(ms, k - 1);
      assert FlagHolds(ms, k - 1, ScanLast(ms, k - 1));
      var i := |ms| - k;
      var m := ms[i];
      assert ScanLast(ms, k) == ScanStep(ScanLast(ms, k - 1), m);
      assert NoUnnamedNonDefaultFrom(ms, i) <==> NoUnnamedNonDefaultFrom(ms, i + 1) && (m.hasDefaultValue || m.argument.nameColon.Some?);
    }
  }

  /** Every default-valued argument, and no other, is collected. */
  lemma {:induction false} ScanCollectsDefaults(ms: seq<ArgumentMapping>, k: nat)
    requires k <= |ms|
    ensures DefaultsHold(ms, k, ScanLast(ms, k))
  {
    if k > 0 {
      ScanCollectsDefaults(ms, k - 1);
      var before := ScanLast(ms, k - 1);
      assert DefaultsHold(ms, k - 1, before);
      var i := |ms| - k;
      var m := ms[i];
      var after := ScanLast(ms, k);
      assert after == ScanStep(before, m);
      forall a
        ensures a in after.withDefaultValues <==> exists j | i <= j < |ms| :: ms[j].argument == a && ms[j].hasDefaultValue
      {
        if a in after.withDefaultValues && !(a in before.withDefaultValues) {
          assert ms[i].argument == a && ms[i].hasDefaultValue;
        }
        if exists j | i <= j < |ms| :: ms[j].argument == a && ms[j].hasDefaultValue {
          var j :| i <= j < |ms| && ms[j].argument == a && ms[j].hasDefaultValue;
          if j == i {
            assert a == after.withDefaultValues[|after.withDefaultValues| - 1];
          }
        }
      }
    }
  }

  /** A default-valued argument is removable without names iff nothing to its right blocks it. */
  lemma {:induction false} ScanCollectsRemovable(ms: seq<ArgumentMapping>, k: nat)
    requires k <= |ms|
    ensures RemovableHold(ms, k, ScanLast(ms, k))
  {
    if k > 0 {
      ScanCollectsRemovable(ms, k - 1);
      ScanFlag(ms, k - 1);
      var before := ScanLast(ms, k - 1);
      assert RemovableHold(ms, k - 1, before);
      assert FlagHolds(ms, k - 1, before);
      var i := |ms| - k;
      var m := ms[i];
      var after := ScanLast(ms, k);
      assert after == ScanStep(before, m);
      forall a
        ensures a in after.removableWithoutNamed <==>
                exists j | i <= j < |ms| :: ms[j].argument == a && ms[j].hasDefaultValue && NoUnnamedNonDefaultFrom(ms, j + 1)
      {
        if a in after.removableWithoutNamed && !(a in before.removableWithoutNamed) {
          assert ms[i].argument == a && ms[i].hasDefaultValue && NoUnnamedNonDefaultFrom(ms, i + 1);
        }
        if exists j | i <= j < |ms| :: ms[j].argument == a && ms[j].hasDefaultValue && NoUnnamedNonDefaultFrom(ms, j + 1) {
          var j :| i <= j < |ms| && ms[j].argument == a && ms[j].hasDefaultValue && NoUnnamedNonDefaultFrom(ms, j + 1);
          if j == i {
            assert a == after.removableWithoutNamed[|after.removableWithoutNamed| - 1];
          }
        }
      }
    }
  }

  /** The foreach over the reversed mappings. */
  method ScanArguments(ms: seq<ArgumentMapping>) returns (withDefaultValues: seq<Argument>, removableWithoutNamed: seq<Argument>)
    ensures withDefaultValues == ScanLast(ms, |ms|).withDefaultValues
    ensures removableWithoutNamed == ScanLast(ms, |ms|).removableWithoutNamed
  {
    withDefaultValues := [];
    removableWithoutNamed := [];
    var canBeRemovedWithoutNamed := true;
    var i := |ms|;
    while i > 0
      invariant 0 <= i <= |ms|
      invariant ScanLast(ms, |ms| - i) == ScanState(withDefaultValues, removableWithoutNamed, canBeRemovedWithoutNamed)
    {
      i := i - 1;
      var argument := ms[i].argument;
      if ms[i].hasDefaultValue {
        withDefaultValues := withDefaultValues + [argument];
        if canBeRemovedWithoutNamed {
          removableWithoutNamed := removableWithoutNamed + [argument];
        }
      } else {
        if argument.nameColon.None? {
          canBeRemovedWithoutNamed := false;
        }
      }
    }
  }

  /** `argumentsWithDefaultValues.Except(argumentsCanBeRemovedWithoutNamed)`, as far as `Any()` looks. */
  function CannotBeRemoved(withDefaultValues: seq<Argument>, removable: seq<Argument>): (r: seq<Argument>)
    ensures forall a :: a in r <==> a in withDefaultValues && a !in removable
  {
    if withDefaultValues == [] then []
    else CannotBeRemoved(withDefaultValues[..|withDefaultValues| - 1], removable) +
         (if withDefaultValues[|withDefaultValues| - 1] in removable then [] else [withDefaultValues[|withDefaultValues| - 1]])
  }

  // -----------------------------------------------------------------------
  // The two rewrites.

  /** `root.RemoveNodes(arguments)` on the argument list: the others, in order. */
  function RemoveArguments(arguments: seq<Argument>, toRemove: seq<Argument>): (r: seq<Argument>)
    ensures forall a :: a in r <==> a in arguments && a !in toRemove
    ensures |r| <= |arguments|
  {
    if arguments == [] then []
    else RemoveArguments(arguments[..|arguments| - 1], toRemove) +
         (if arguments[|arguments| - 1] in toRemove then [] else [arguments[|arguments| - 1]])
  }

  /** An argument of the rewritten list: kept as it was, given a `name:` prefix, or an implicit array of params values. */
  datatype OutArgument =
    | Kept(argument: Argument)
    | Named(name: string, refOrOut: RefKind, expression: Expression)
    | NamedArray(arrayName: string, elements: seq<Expression>)

  predicate AllMapped(ms: seq<ArgumentMapping>)
  {
    forall i | 0 <= i < |ms| :: ms[i].parameter.Some?
  }

  /** AddArgument: after a removal the argument is re-created with its parameter's name. */
  function AddedArgument(alreadyRemovedOne: bool, parameterName: string, argument: Argument): OutArgument
  {
    if alreadyRemovedOne then Named(parameterName, argument.refOrOut, argument.expression) else Kept(argument)
  }

  /** The loop over the non-params mappings, from the front. */
  function NonParamsRewrite(ms: seq<ArgumentMapping>, toRemove: seq<Argument>, alreadyRemovedOne: bool): seq<OutArgument>
    requires AllMapped(ms)
  {
    if ms == [] then []
    else
      var m := ms[0];
      if m.parameter.value.isParams then NonParamsRewrite(ms[1..], toRemove, alreadyRemovedOne)
      else if m.argument in toRemove then NonParamsRewrite(ms[1..], toRemove, true)
      else [AddedArgument(alreadyRemovedOne, m.parameter.value.name, m.argument)] + NonParamsRewrite(ms[1..], toRemove, alreadyRemovedOne)
  }

  /** The mappings to params parameters, in order. */
  function ParamsMappings(ms: seq<ArgumentMapping>): (r: seq<ArgumentMapping>)
    requires AllMapped(ms)
    ensures AllMapped(r) && forall i | 0 <= i < |r| :: r[i].parameter.value.isParams && r[i] in ms
  {
    if ms == [] then []
    else ParamsMappings(ms[..|ms| - 1]) + (if ms[|ms| - 1].parameter.value.isParams then [ms[|ms| - 1]] else [])
  }

  function ExpressionsOf(ps: seq<ArgumentMapping>): (r: seq<Expression>)
    ensures |r| == |ps| && forall i | 0 <= i < |ps| :: r[i] == ps[i].argument.expression
  {
    if ps == [] then [] else [ps[0].argument.expression] + ExpressionsOf(ps[1..])
  }

  /** AddParamsArguments */
  function ParamsArgument(ps: seq<ArgumentMapping>): OutArgument
    requires ps != [] && AllMapped(ps)
  {
    var first := ps[0].argument;
    var parameter := ps[0].parameter.value;
    if first.nameColon.Some? then Kept(first)
    else if |ps| == 1 && first.expression.exprType == Some(parameter.paramType) then Named(parameter.name, first.refOrOut, first.expression)
    else NamedArray(parameter.name, ExpressionsOf(ps))
  }

  datatype FixError = NullParameter

  /**
   * RemoveArgumentsAndAddNecessaryNames: the non-params arguments that stay,
   * then the params arguments' replacement. A mapping without a parameter
   * makes the original throw when it reads IsParams.
   */
  function NamedRewrite(ms: seq<ArgumentMapping>, toRemove: seq<Argument>): Result<seq<OutArgument>, FixError>
  {
    if !AllMapped(ms) then Failure(NullParameter)
    else
      var ps := ParamsMappings(ms);
      Success(NonParamsRewrite(ms, toRemove, false) + (if ps == [] then [] else [ParamsArgument(ps)]))
  }

  /** The method's loop and the params step. */
  method RemoveArgumentsAndAddNecessaryNames(ms: seq<ArgumentMapping>, toRemove: seq<Argument>)
    returns (r: Result<seq<OutArgument>, FixError>)
    ensures r == NamedRewrite(ms, toRemove)
  {
    if !AllMapped(ms) {
      return Failure(NullParameter);
    }
    var newArguments: seq<OutArgument> := [];
    var alreadyRemovedOne := false;
    for k := 0 to |ms|
      invariant NonParamsRewrite(ms, toRemove, false) == newArguments + NonParamsRewrite(ms[k..], toRemove, alreadyRemovedOne)
    {
      assert ms[k..][1..] == ms[k + 1..];
      var m := ms[k];
      if m.parameter.value.isParams {
        continue;
      }
      if m.argument in toRemove {
        alreadyRemovedOne := true;
        continue;
      }
      newArguments := newArguments + [AddedArgument(alreadyRemovedOne, m.parameter.value.name, m.argument)];
    }
    assert ms[|ms|..] == [];
    assert newArguments == NonParamsRewrite(ms, toRemove, false);
    var ps := ParamsMappings(ms);
    if ps != [] {
      newArguments := newArguments + [ParamsArgument(ps)];
    }
    r := Success(newArguments);
  }

  // -----------------------------------------------------------------------
  // What the named rewrite keeps.

  /** The expression an output argument carries, for a non-array one. */
  function ExpressionOfOut(o: OutArgument): Option<Expression>
  {
    match o
    case Kept(a) => Some(a.expression)
    case Named(_, _, e) => Some(e)
    case NamedArray(_, _) => None
  }

  function ExpressionsOfOut(os: seq<OutArgument>): (r: seq<Option<Expression>>)
    ensures |r| == |os|
  {
    if os == [] then [] else [ExpressionOfOut(os[0])] + ExpressionsOfOut(os[1..])
  }

  /** The non-params mappings whose argument stays, in order. */
  function Staying(ms: seq<ArgumentMapping>, toRemove: seq<Argument>): (r: seq<ArgumentMapping>)
    requires AllMapped(ms)
    ensures AllMapped(r)
  {
    if ms == [] then []
    else if ms[0].parameter.value.isParams || ms[0].argument in toRemove then Staying(ms[1..], toRemove)
    else [ms[0]] + Staying(ms[1..], toRemove)
  }

  function SomeExpressions(ps: seq<ArgumentMapping>): (r: seq<Option<Expression>>)
    ensures |r| == |ps|
  {
    if ps == [] then [] else [Some(ps[0].argument.expression)] + SomeExpressions(ps[1..])
  }

  /** Every removed argument is dropped and the others keep their expressions, in their order. */
  lemma {:induction false} NonParamsRewriteKeepsTheRest(ms: seq<ArgumentMapping>, toRemove: seq<Argument>, alreadyRemovedOne: bool)
    requires AllMapped(ms)
    ensures ExpressionsOfOut(NonParamsRewrite(ms, toRemove, alreadyRemovedOne)) == SomeExpressions(Staying(ms, toRemove))
  {
    if ms != [] {
      var m := ms[0];
      NonParamsRewriteKeepsTheRest(ms[1..], toRemove, alreadyRemovedOne);
      NonParamsRewriteKeepsTheRest(ms[1..], toRemove, true);
      if !m.parameter.value.isParams && m.argument !in toRemove {
        var rest := NonParamsRewrite(ms[1..], toRemove, alreadyRemovedOne);
        var out := [AddedArgument(alreadyRemovedOne, m.parameter.value.name, m.argument)] + rest;
        assert out[1..] == rest;
      }
    }
  }

  /** Each mapping's argument re-created with its parameter's name. */
  function NamedAll(ps: seq<ArgumentMapping>): (r: seq<OutArgument>)
    requires AllMapped(ps)
    ensures |r| == |ps|
    ensures forall i | 0 <= i < |ps| :: r[i] == Named(ps[i].parameter.value.name, ps[i].argument.refOrOut, ps[i].argument.expression)
  {
    if ps == [] then [] else [Named(ps[0].parameter.value.name, ps[0].argument.refOrOut, ps[0].argument.expression)] + NamedAll(ps[1..])
  }

  /** After one removal, every argument that stays is given its parameter's name. */
  lemma {:induction false} AfterARemovalAllAreNamed(ms: seq<ArgumentMapping>, toRemove: seq<Argument>)
    requires AllMapped(ms)
    ensures NonParamsRewrite(ms, toRemove, true) == NamedAll(Staying(ms, toRemove))
  {
    if ms != [] {
      AfterARemovalAllAreNamed(ms[1..], toRemove);
      if !ms[0].parameter.value.isParams && ms[0].argument !in toRemove {
        assert Staying(ms, toRemove) == [ms[0]] + Staying(ms[1..], toRemove);
        assert NamedAll([ms[0]] + Staying(ms[1..], toRemove))[1..] == NamedAll(Staying(ms[1..], toRemove));
      }
    }
  }

  /** A removal at position i splits the rewrite: what comes after it is rewritten as after a removal. */
  lemma {:induction false} RemovalSplitsTheRewrite(ms: seq<ArgumentMapping>, toRemove: seq<Argument>, alreadyRemovedOne: bool, i: nat)
    requires AllMapped(ms) && i < |ms|
    requires !ms[i].parameter.value.isParams && ms[i].argument in toRemove
    ensures NonParamsRewrite(ms, toRemove, alreadyRemovedOne) ==
            NonParamsRewrite(ms[..i], toRemove, alreadyRemovedOne) + NonParamsRewrite(ms[i + 1..], toRemove, true)
  {
    if i > 0 {
      assert ms[1..][i - 1] == ms[i];
      assert ms[1..][..i - 1] == ms[..i][1..];
      assert ms[1..][i..] == ms[i + 1..];
      var m := ms[0];
      if m.parameter.value.isParams {
        RemovalSplitsTheRewrite(ms[1..], toRemove, alreadyRemovedOne, i - 1);
      } else if m.argument in toRemove {
        RemovalSplitsTheRewrite(ms[1..], toRemove, true, i - 1);
        assert NonParamsRewrite(ms[..i], toRemove, alreadyRemovedOne) == NonParamsRewrite(ms[..i][1..], toRemove, true);
      } else {
        RemovalSplitsTheRewrite(ms[1..], toRemove, alreadyRemovedOne, i - 1);
      }
    } else {
      assert ms[..0] == [];
    }
  }

  /** Before any removal, the arguments are kept as they were. */
  lemma {:induction false} BeforeAnyRemovalNoneAreNamed(ms: seq<ArgumentMapping>, toRemove: seq<Argument>)
    requires AllMapped(ms)
    requires forall i | 0 <= i < |ms| :: ms[i].parameter.value.isParams || ms[i].argument !in toRemove
    ensures NonParamsRewrite(ms, toRemove, false) == KeepAll(ArgumentsOf(Staying(ms, toRemove)))
  {
    if ms != [] {
      BeforeAnyRemovalNoneAreNamed(ms[1..], toRemove);
      if !ms[0].parameter.value.isParams {
        assert Staying(ms, toRemove) == [ms[0]] + Staying(ms[1..], toRemove);
        assert ArgumentsOf([ms[0]] + Staying(ms[1..], toRemove))[1..] == ArgumentsOf(Staying(ms[1..], toRemove));
      }
    }
  }

  /** A removed non-params argument at position i: every argument kept after it is named. */
  lemma {:induction false} NamedAfterFirstRemoval(ms: seq<ArgumentMapping>, toRemove: seq<Argument>, i: nat)
    requires AllMapped(ms) && i < |ms|
    requires !ms[i].parameter.value.isParams && ms[i].argument in toRemove
    ensures NonParamsRewrite(ms, toRemove, false) ==
            NonParamsRewrite(ms[..i], toRemove, false) + NamedAll(Staying(ms[i + 1..], toRemove))
  {
    RemovalSplitsTheRewrite(ms, toRemove, false, i);
    AfterARemovalAllAreNamed(ms[i + 1..], toRemove);
  }

  /** The params arguments: kept when the first is named, named when a single one has the parameter's type, packed otherwise. */
  lemma {:induction false} ParamsArgumentCases(ps: seq<ArgumentMapping>)
    requires ps != [] && AllMapped(ps)
    ensures ps[0].argument.nameColon.Some? ==> ParamsArgument(ps) == Kept(ps[0].argument)
    ensures ps[0].argument.nameColon.None? && |ps| == 1 && ps[0].argument.expression.exprType == Some(ps[0].parameter.value.paramType) ==>
              ParamsArgument(ps) == Named(ps[0].parameter.value.name, ps[0].argument.refOrOut, ps[0].argument.expression)
    ensures ParamsArgument(ps).NamedArray? ==>
              ParamsArgument(ps).arrayName == ps[0].parameter.value.name &&
              |ParamsArgument(ps).elements| == |ps| &&
              forall i | 0 <= i < |ps| :: ParamsArgument(ps).elements[i] == ps[i].argument.expression
  {
  }

  // -----------------------------------------------------------------------
  // The offered fixes.

  /** A fix offered for the diagnostic: its title and the argument list it produces. */
  datatype CodeFix = CodeFix(title: string, newArguments: Result<seq<OutArgument>, FixError>)

  function KeepAll(arguments: seq<Argument>): seq<OutArgument>
  {
    if arguments == [] then [] else [Kept(arguments[0])] + KeepAll(arguments[1..])
  }

  /**
   * RegisterCodeFixesAsync, given the mappings of the invocation the
   * diagnostic sits in (None when no such invocation is found) and whether
   * the method symbol is found.
   */
  method RegisterCodeFixes(invocation: Option<seq<ArgumentMapping>>, methodSymbolFound: bool) returns (fixes: seq<CodeFix>)
    ensures fixes == OfferedFixes(invocation, methodSymbolFound)
  {
    fixes := [];
    if invocation.None? || !methodSymbolFound {
      return;
    }
    var ms := invocation.value;
    var withDefaultValues, removableWithoutNamed := ScanArguments(ms);
    if removableWithoutNamed != [] {
      var arguments := ArgumentsOf(ms);
      fixes := fixes + [CodeFix(TitleRemove, Success(KeepAll(RemoveArguments(arguments, removableWithoutNamed))))];
    }
    if CannotBeRemoved(withDefaultValues, removableWithoutNamed) != [] {
      var rewritten := RemoveArgumentsAndAddNecessaryNames(ms, withDefaultValues);
      fixes := fixes + [CodeFix(TitleRemoveWithNameAdditions, rewritten)];
    }
  }

  function ArgumentsOf(ms: seq<ArgumentMapping>): (r: seq<Argument>)
    ensures |r| == |ms| && forall i | 0 <= i < |ms| :: r[i] == ms[i].argument
  {
    if ms == [] then [] else [ms[0].argument] + ArgumentsOf(ms[1..])
  }

  function OfferedFixes(invocation: Option<seq<ArgumentMapping>>, methodSymbolFound: bool): seq<CodeFix>
  {
    if invocation.None? || !methodSymbolFound then []
    else
      var ms := invocation.value;
      var s := ScanLast(ms, |ms|);
      (if s.removableWithoutNamed != []
       then [CodeFix(TitleRemove, Success(KeepAll(RemoveArguments(ArgumentsOf(ms), s.removableWithoutNamed))))] else []) +
      (if CannotBeRemoved(s.withDefaultValues, s.removableWithoutNamed) != []
       then [CodeFix(TitleRemoveWithNameAdditions, NamedRewrite(ms, s.withDefaultValues))] else [])
  }

  /** No fix is offered when the invocation or the method cannot be found. */
  lemma {:induction false} NothingWithoutInvocationOrMethod(invocation: Option<seq<ArgumentMapping>>, methodSymbolFound: bool)
    requires invocation.None? || !methodSymbolFound
    ensures OfferedFixes(invocation, methodSymbolFound) == []
  {
  }

  function Titles(fixes: seq<CodeFix>): (r: seq<string>)
    ensures |r| == |fixes| && forall i | 0 <= i < |fixes| :: r[i] == fixes[i].title
  {
    if fixes == [] then [] else [fixes[0].title] + Titles(fixes[1..])
  }

  /** The titles offered: the plain removal first when something is removable, the named rewrite when something is not. */
  lemma {:induction false} OfferedTitles(ms: seq<ArgumentMapping>)
    ensures var s := ScanLast(ms, |ms|);
            Titles(OfferedFixes(Some(ms), true)) ==
              (if s.removableWithoutNamed != [] then [TitleRemove] else []) +
              (if CannotBeRemoved(s.withDefaultValues, s.removableWithoutNamed) != [] then [TitleRemoveWithNameAdditions] else [])
  {
  }

  /** Some argument can be removed without names iff a default-valued one has no unnamed non-default argument to its right. */
  lemma {:induction false} RemovableIff(ms: seq<ArgumentMapping>)
    ensures ScanLast(ms, |ms|).removableWithoutNamed != [] <==>
            exists i | 0 <= i < |ms| :: ms[i].hasDefaultValue && NoUnnamedNonDefaultFrom(ms, i + 1)
  {
    ScanCollectsRemovable(ms, |ms|);
    var s := ScanLast(ms, |ms|);
    assert RemovableHold(ms, |ms|, s);
    if s.removableWithoutNamed != [] {
      assert s.removableWithoutNamed[0] in s.removableWithoutNamed;
    }
    if exists i | 0 <= i < |ms| :: ms[i].hasDefaultValue && NoUnnamedNonDefaultFrom(ms, i + 1) {
      var i :| 0 <= i < |ms| && ms[i].hasDefaultValue && NoUnnamedNonDefaultFrom(ms, i + 1);
      assert ms[i].argument in s.removableWithoutNamed;
    }
  }

  /** With distinct arguments, a removable argument has nothing blocking it to its right. */
  lemma {:induction false} RemovableIsUnblocked(ms: seq<ArgumentMapping>, i: nat)
    requires NoRepeats(ArgumentsOf(ms)) && i < |ms|
    requires ms[i].argument in ScanLast(ms, |ms|).removableWithoutNamed
    ensures NoUnnamedNonDefaultFrom(ms, i + 1)
  {
    ScanCollectsRemovable(ms, |ms|);
    assert RemovableHold(ms, |ms|, ScanLast(ms, |ms|));
    var j :| 0 <= j < |ms| && ms[j].argument == ms[i].argument && ms[j].hasDefaultValue && NoUnnamedNonDefaultFrom(ms, j + 1);
    assert ArgumentsOf(ms)[i] == ArgumentsOf(ms)[j];
  }

  /** An argument that cannot go without names has an unnamed non-default argument to its right. */
  lemma {:induction false} NotRemovableIsBlocked(ms: seq<ArgumentMapping>)
    requires var s := ScanLast(ms, |ms|); CannotBeRemoved(s.withDefaultValues, s.removableWithoutNamed) != []
    ensures exists i | 0 <= i < |ms| :: ms[i].hasDefaultValue && !NoUnnamedNonDefaultFrom(ms, i + 1)
  {
    ScanCollectsDefaults(ms, |ms|);
    ScanCollectsRemovable(ms, |ms|);
    var s := ScanLast(ms, |ms|);
    assert DefaultsHold(ms, |ms|, s);
    assert RemovableHold(ms, |ms|, s);
    var rest := CannotBeRemoved(s.withDefaultValues, s.removableWithoutNamed);
    var a := rest[0];
    assert a in rest;
    var i :| 0 <= i < |ms| && ms[i].argument == a && ms[i].hasDefaultValue;
    assert !NoUnnamedNonDefaultFrom(ms, i + 1);
  }

  /** With distinct arguments, a blocked default-valued argument is left for the named rewrite. */
  lemma {:induction false} BlockedIsNotRemovable(ms: seq<ArgumentMapping>, i: nat)
    requires NoRepeats(ArgumentsOf(ms)) && i < |ms|
    requires ms[i].hasDefaultValue && !NoUnnamedNonDefaultFrom(ms, i + 1)
    ensures var s := ScanLast(ms, |ms|); ms[i].argument in CannotBeRemoved(s.withDefaultValues, s.removableWithoutNamed)
  {
    ScanCollectsDefaults(ms, |ms|);
    var s := ScanLast(ms, |ms|);
    assert DefaultsHold(ms, |ms|, s);
    assert ms[i].argument in s.withDefaultValues;
    if ms[i].argument in s.removableWithoutNamed {
      RemovableIsUnblocked(ms, i);
      assert false;
    }
  }

  /**
   * With distinct arguments, some default-valued argument cannot go without
   * names iff one has an unnamed non-default argument to its right.
   */
  lemma {:induction false} NotRemovableIff(ms: seq<ArgumentMapping>)
    requires NoRepeats(ArgumentsOf(ms))
    ensures var s := ScanLast(ms, |ms|);
            CannotBeRemoved(s.withDefaultValues, s.removableWithoutNamed) != [] <==>
            exists i | 0 <= i < |ms| :: ms[i].hasDefaultValue && !NoUnnamedNonDefaultFrom(ms, i + 1)
  {
    var s := ScanLast(ms, |ms|);
    if CannotBeRemoved(s.withDefaultValues, s.removableWithoutNamed) != [] {
      NotRemovableIsBlocked(ms);
    }
    forall i: nat | i < |ms| && ms[i].hasDefaultValue && !NoUnnamedNonDefaultFrom(ms, i + 1)
      ensures ms[i].argument in CannotBeRemoved(s.withDefaultValues, s.removableWithoutNamed)
    {
      BlockedIsNotRemovable(ms, i);
    }
  }

  /** The removable arguments are the first of the default-valued ones, in right-to-left order. */
  lemma {:induction false} RemovableArePrefix(ms: seq<ArgumentMapping>)
    ensures var s := ScanLast(ms, |ms|);
            |s.removableWithoutNamed| <= |s.withDefaultValues| &&
            s.removableWithoutNamed == s.withDefaultValues[..|s.removableWithoutNamed|]
  {
    ScanKeepsPrefix(ms, |ms|);
  }
}
