/**
 * The conditional-simplification rule (S3240): an if/else whose branches
 * differ in one place, or a ?: whose branches test an expression against
 * null, can be written with ?: or ??. Syntax is a datatype and syntactic
 * equivalence is equality of values; the semantic model's type and symbol
 * queries are the fields of a Semantics value.
 *
 * Beside the rule itself, the module gives expressions a small evaluation
 * semantics and proves that every ?: the rule reports has the same value as
 * the ?? form it suggests.
 */
module ConditionalSimplification {
  import opened Common
  import opened Diagnostics

  datatype BinaryKind = EqualsExpression | NotEqualsExpression | OtherBinary(code: nat)

  datatype Expr =
    | NullLiteral
      /** an identifier, member access, literal or any other expression the rule does not look into */
    | Name(id: nat)
    | Parenthesized(inner: Expr)
    | Binary(kind: BinaryKind, left: Expr, right: Expr)
    | Assignment(assignmentKind: nat, left: Expr, right: Expr)
      /** target is what is called (`M`, `a.M`); hasArgumentList is false where the argument list is missing */
    | Invocation(target: Expr, hasArgumentList: bool, arguments: seq<Expr>)
    | Conditional(condition: Expr, whenTrue: Expr, whenFalse: Expr)
      /** `left ?? right`, the form the rule suggests */
    | Coalesce(left: Expr, right: Expr)

  datatype Statement =
    | Block(statements: seq<Statement>)
    | ReturnStatement(expression: Expr)
    | ExpressionStatement(expression: Expr)
    | IfStatement(condition: Expr, statement: Statement, elseStatement: Option<Statement>)
    | OtherStatement(id: nat)

  /** The type the semantic model gives an expression. */
  datatype ExprType = NoType | ErrorType | NamedType(id: nat, isReferenceType: bool, isNullableT: bool)

  datatype Semantics = Semantics(typeOf: Expr -> ExprType, symbolOf: Expr -> Option<nat>)

  /** One reported diagnostic: where, its properties, and its message argument. */
  datatype SimplificationIssue = SimplificationIssue(location: Location, properties: map<string, string>,
                                                     messageArg: string)

  const IsNullCoalescingKey := "isNullCoalescing"

  /** Strips every enclosing pair of parentheses. */
  function RemoveParentheses(e: Expr): (r: Expr)
    ensures !r.Parenthesized?
  {
    if e.Parenthesized? then RemoveParentheses(e.inner) else e
  }

  /**
   * A comparison to null: `==` or `!=` with a null literal on one side, the
   * left side tried first. The result is the compared expression and whether
   * the condition holds when it is null.
   */
  function TryGetExpressionComparedToNull(e: Expr): (r: Option<(Expr, bool)>)
    ensures r.Some? <==>
              e.Binary? && (e.kind == EqualsExpression || e.kind == NotEqualsExpression) &&
              (e.left == NullLiteral || e.right == NullLiteral)
    ensures r.Some? ==> r.value.1 == (e.kind == EqualsExpression)
    ensures r.Some? && e.left == NullLiteral ==> r.value.0 == e.right
    ensures r.Some? && e.left != NullLiteral ==> r.value.0 == e.left
  {
    if !e.Binary? || !(e.kind == EqualsExpression || e.kind == NotEqualsExpression) then None
    else
      var comparedIsNullInTrue := e.kind == EqualsExpression;
      if e.left == NullLiteral then Some((e.right, comparedIsNullInTrue))
      else if e.right == NullLiteral then Some((e.left, comparedIsNullInTrue))
      else None
  }

  /** The sole statement of a one-statement block, nothing for any other block, and any other statement itself. */
  function ExtractSingleStatement(s: Statement): (r: Option<Statement>)
    ensures s.Block? ==> (r.Some? <==> |s.statements| == 1)
    ensures s.Block? && r.Some? ==> r.value == s.statements[0]
    ensures !s.Block? ==> r == Some(s)
  {
    if s.Block? then
      if |s.statements| != 1 then None else Some(s.statements[0])
    else Some(s)
  }

  /** Error types are never compatible, an unknown type is compatible with anything, otherwise the types must be equal. */
  predicate AreTypesCompatible(e1: Expr, e2: Expr, sem: Semantics)
  {
    var t1 := sem.typeOf(e1);
    var t2 := sem.typeOf(e2);
    if t1 == ErrorType || t2 == ErrorType then false
    else if t1 == NoType || t2 == NoType then true
    else t1 == t2
  }

  lemma TypesCompatibleSymmetric(e1: Expr, e2: Expr, sem: Semantics)
    ensures AreTypesCompatible(e1, e2, sem) == AreTypesCompatible(e2, e1, sem)
  {
  }

  /** An expression of a reference type or of a Nullable type can be null. */
  predicate ExpressionCanBeNull(e: Expr, sem: Semantics)
  {
    var t := sem.typeOf(e);
    t.NamedType? && (t.isReferenceType || t.isNullableT)
  }

  // -----------------------------------------------------------------------
  // Candidate invocations: the argument scan.

  /** The number of positions from i on where the two argument lists differ. */
  function DifferenceCountFrom(a1: seq<Expr>, a2: seq<Expr>, i: nat): nat
    requires |a1| == |a2| && i <= |a1|
    decreases |a1| - i
  {
    if i == |a1| then 0
    else (if a1[i] != a2[i] then 1 else 0) + DifferenceCountFrom(a1, a2, i + 1)
  }

  /**
   * What position k adds to the count of arguments that match the
   * condition: at a differing position, the argument of the branch taken
   * when the compared expression is not null, if that argument is it.
   */
  function ComparisonAt(a1: seq<Expr>, a2: seq<Expr>, comparedToNull: Option<Expr>, comparedIsNullInTrue: bool,
                        k: nat): nat
    requires |a1| == |a2| && k < |a1|
  {
    if a1[k] == a2[k] || comparedToNull.None? then 0
    else
      (if a1[k] == comparedToNull.value && !comparedIsNullInTrue then 1 else 0) +
      (if a2[k] == comparedToNull.value && comparedIsNullInTrue then 1 else 0)
  }

  function ComparisonCountFrom(a1: seq<Expr>, a2: seq<Expr>, comparedToNull: Option<Expr>,
                               comparedIsNullInTrue: bool, i: nat): nat
    requires |a1| == |a2| && i <= |a1|
    decreases |a1| - i
  {
    if i == |a1| then 0
    else ComparisonAt(a1, a2, comparedToNull, comparedIsNullInTrue, i) +
         ComparisonCountFrom(a1, a2, comparedToNull, comparedIsNullInTrue, i + 1)
  }

  /**
   * The scan stops with false at a position where, with a compared
   * expression, the arguments differ with incompatible types, or agree and
   * are the compared expression itself.
   */
  predicate ScanContinuesAt(a1: seq<Expr>, a2: seq<Expr>, comparedToNull: Option<Expr>, sem: Semantics, k: nat)
    requires |a1| == |a2| && k < |a1|
  {
    if a1[k] != a2[k] then comparedToNull.None? || AreTypesCompatible(a1[k], a2[k], sem)
    else comparedToNull.None? || a1[k] != comparedToNull.value
  }

  /**
   * AreCandidateInvocations as the source writes it: two invocations of the
   * same known method with argument lists of equal length, exactly one
   * differing argument and, with a compared expression, exactly one argument
   * matching the condition. The call targets are not compared.
   */
  predicate CandidateInvocationsAsWritten(e1: Expr, e2: Expr, comparedToNull: Option<Expr>,
                                          comparedIsNullInTrue: bool, sem: Semantics)
  {
    e1.Invocation? && e2.Invocation? &&
    sem.symbolOf(e1).Some? && sem.symbolOf(e2).Some? && sem.symbolOf(e1) == sem.symbolOf(e2) &&
    e1.hasArgumentList && e2.hasArgumentList &&
    |e1.arguments| == |e2.arguments| &&
    var a1 := e1.arguments;
    var a2 := e2.arguments;
    (forall k | 0 <= k < |a1| :: ScanContinuesAt(a1, a2, comparedToNull, sem, k)) &&
    DifferenceCountFrom(a1, a2, 0) == 1 &&
    (comparedToNull.None? || ComparisonCountFrom(a1, a2, comparedToNull, comparedIsNullInTrue, 0) == 1)
  }

  /** The corrected check: as written, and the two invocations call through the same target. */
  predicate CandidateInvocations(e1: Expr, e2: Expr, comparedToNull: Option<Expr>,
                                 comparedIsNullInTrue: bool, sem: Semantics)
  {
    CandidateInvocationsAsWritten(e1, e2, comparedToNull, comparedIsNullInTrue, sem) && e1.target == e2.target
  }

  /** AreCandidateInvocations: the counting loop of the source, with the corrected target check first. */
  method AreCandidateInvocations(e1: Expr, e2: Expr, comparedToNull: Option<Expr>, comparedIsNullInTrue: bool,
                                 sem: Semantics)
    returns (r: bool)
    ensures r == CandidateInvocations(e1, e2, comparedToNull, comparedIsNullInTrue, sem)
  {
    if !e1.Invocation? || !e2.Invocation? {
      return false;
    }
    var symbol1 := sem.symbolOf(e1);
    var symbol2 := sem.symbolOf(e2);
    if symbol1.None? || symbol2.None? || symbol1 != symbol2 {
      return false;
    }
    if e1.target != e2.target {
      return false;
    }
    if !e1.hasArgumentList || !e2.hasArgumentList || |e1.arguments| != |e2.arguments| {
      return false;
    }
    var a1 := e1.arguments;
    var a2 := e2.arguments;
    var numberOfDifferences := 0;
    var numberOfComparisonsToCondition := 0;
    for i := 0 to |a1|
      invariant numberOfDifferences + DifferenceCountFrom(a1, a2, i) == DifferenceCountFrom(a1, a2, 0)
      invariant numberOfComparisonsToCondition + ComparisonCountFrom(a1, a2, comparedToNull, comparedIsNullInTrue, i)
                == ComparisonCountFrom(a1, a2, comparedToNull, comparedIsNullInTrue, 0)
      invariant forall k | 0 <= k < i :: ScanContinuesAt(a1, a2, comparedToNull, sem, k)
    {
      if a1[i] != a2[i] {
        numberOfDifferences := numberOfDifferences + 1;
        if comparedToNull.Some? {
          if a1[i] == comparedToNull.value && !comparedIsNullInTrue {
            numberOfComparisonsToCondition := numberOfComparisonsToCondition + 1;
          }
          if a2[i] == comparedToNull.value && comparedIsNullInTrue {
            numberOfComparisonsToCondition := numberOfComparisonsToCondition + 1;
          }
          if !AreTypesCompatible(a1[i], a2[i], sem) {
            assert !ScanContinuesAt(a1, a2, comparedToNull, sem, i);
            return false;
          }
        }
      } else {
        if comparedToNull.Some? && a1[i] == comparedToNull.value {
          assert !ScanContinuesAt(a1, a2, comparedToNull, sem, i);
          return false;
        }
      }
    }
    return numberOfDifferences == 1 && (comparedToNull.None? || numberOfComparisonsToCondition == 1);
  }

  /**
   * CanExpressionBeNullCoalescing: a branch that is the compared expression
   * decides by the condition's sense; otherwise the branches must be
   * candidate invocations for the comparison.
   */
  predicate CanExpressionBeNullCoalescing(whenTrue: Expr, whenFalse: Expr, comparedToNull: Expr,
                                          comparedIsNullInTrue: bool, sem: Semantics)
  {
    if whenTrue == comparedToNull then !comparedIsNullInTrue
    else if whenFalse == comparedToNull then comparedIsNullInTrue
    else CandidateInvocations(whenTrue, whenFalse, Some(comparedToNull), comparedIsNullInTrue, sem)
  }

  /** The three ways a pair of branches qualifies, in the order the source tries them. */
  lemma NullCoalescingCases(whenTrue: Expr, whenFalse: Expr, compared: Expr, nullInTrue: bool, sem: Semantics)
    ensures whenTrue == compared ==>
              CanExpressionBeNullCoalescing(whenTrue, whenFalse, compared, nullInTrue, sem) == !nullInTrue
    ensures whenTrue != compared && whenFalse == compared ==>
              CanExpressionBeNullCoalescing(whenTrue, whenFalse, compared, nullInTrue, sem) == nullInTrue
    ensures whenTrue != compared && whenFalse != compared ==>
              CanExpressionBeNullCoalescing(whenTrue, whenFalse, compared, nullInTrue, sem)
              == CandidateInvocations(whenTrue, whenFalse, Some(compared), nullInTrue, sem)
  {
  }

  // -----------------------------------------------------------------------
  // The if statement and the ?: expression.

  /** The result of CanBeSimplified and its out-parameter. */
  datatype Simplification = Simplification(canBeSimplified: bool, isNullCoalescing: bool)

  /**
   * AreCandidateAssignments: assignments of the same kind to equivalent left
   * sides with type-compatible right sides; null coalescing when the right
   * sides qualify.
   */
  function AreCandidateAssignments(e1: Expr, e2: Expr, comparedToNull: Option<Expr>, comparedIsNullInTrue: bool,
                                   sem: Semantics): (r: Simplification)
    ensures r.canBeSimplified <==>
              e1.Assignment? && e2.Assignment? && e1.left == e2.left && e1.assignmentKind == e2.assignmentKind &&
              AreTypesCompatible(e1.right, e2.right, sem)
    ensures r.isNullCoalescing <==>
              r.canBeSimplified && comparedToNull.Some? &&
              CanExpressionBeNullCoalescing(e1.right, e2.right, comparedToNull.value, comparedIsNullInTrue, sem)
  {
    if !(e1.Assignment? && e2.Assignment? && e1.left == e2.left && e1.assignmentKind == e2.assignmentKind) then
      Simplification(false, false)
    else if !AreTypesCompatible(e1.right, e2.right, sem) then Simplification(false, false)
    else
      Simplification(true, comparedToNull.Some? &&
                           CanExpressionBeNullCoalescing(e1.right, e2.right, comparedToNull.value,
                                                         comparedIsNullInTrue, sem))
  }

  /**
   * CanBeSimplified: two returns with compatible types; or two expression
   * statements that are candidate assignments, null-coalescing candidates
   * or ternary candidate invocations.
   */
  function CanBeSimplified(s1: Statement, s2: Statement, comparedToNull: Option<Expr>, comparedIsNullInTrue: bool,
                           sem: Semantics): Simplification
  {
    if s1.ReturnStatement? && s2.ReturnStatement? then
      if !AreTypesCompatible(s1.expression, s2.expression, sem) then Simplification(false, false)
      else
        Simplification(true, comparedToNull.Some? &&
                             CanExpressionBeNullCoalescing(RemoveParentheses(s1.expression),
                                                           RemoveParentheses(s2.expression),
                                                           comparedToNull.value, comparedIsNullInTrue, sem))
    else if !(s1.ExpressionStatement? && s2.ExpressionStatement?) then Simplification(false, false)
    else
      var e1 := RemoveParentheses(s1.expression);
      var e2 := RemoveParentheses(s2.expression);
      var assignments := AreCandidateAssignments(e1, e2, comparedToNull, comparedIsNullInTrue, sem);
      if assignments.canBeSimplified then assignments
      else if comparedToNull.Some? &&
              CanExpressionBeNullCoalescing(e1, e2, comparedToNull.value, comparedIsNullInTrue, sem)
      then Simplification(true, true)
      else if CandidateInvocations(e1, e2, None, false, sem) then Simplification(true, false)
      else Simplification(false, false)
  }

  /** Null coalescing is only ever claimed for a simplifiable pair, and only when there is a compared expression. */
  lemma NullCoalescingNeedsComparison(s1: Statement, s2: Statement, comparedToNull: Option<Expr>, nullInTrue: bool,
                                      sem: Semantics)
    ensures var r := CanBeSimplified(s1, s2, comparedToNull, nullInTrue, sem);
            r.isNullCoalescing ==> r.canBeSimplified && comparedToNull.Some?
  {
  }

  /** Without a compared expression the returns are candidates exactly when their types are compatible. */
  lemma ReturnsNeedCompatibleTypes(e1: Expr, e2: Expr, sem: Semantics)
    ensures CanBeSimplified(ReturnStatement(e1), ReturnStatement(e2), None, false, sem)
            == Simplification(AreTypesCompatible(e1, e2, sem), false)
  {
  }

  /** C#'s bool.ToString(). */
  function BoolToString(b: bool): string
  {
    if b then "True" else "False"
  }

  /** The expression CheckIfStatement hands on as compared to null: the compared one, when it can be null. */
  function NullableComparedToNull(condition: Expr, sem: Semantics): (r: Option<Expr>)
    ensures r.Some? <==> TryGetExpressionComparedToNull(condition).Some? &&
                         ExpressionCanBeNull(TryGetExpressionComparedToNull(condition).value.0, sem)
    ensures r.Some? ==> r.value == TryGetExpressionComparedToNull(condition).value.0
  {
    var nullComparison := TryGetExpressionComparedToNull(condition);
    if nullComparison.Some? && ExpressionCanBeNull(nullComparison.value.0, sem) then Some(nullComparison.value.0)
    else None
  }

  /** The comparison's sense, false when the condition is no comparison to null. */
  function ComparedIsNullInTrue(condition: Expr): bool
  {
    TryGetExpressionComparedToNull(condition).Some? && TryGetExpressionComparedToNull(condition).value.1
  }

  /** An if with an else, not itself an else-if, whose branches are single statements that differ. */
  predicate HasDistinctSingleBranches(ifStatement: Statement, parentIsElseClause: bool)
    requires ifStatement.IfStatement?
  {
    ifStatement.elseStatement.Some? && !parentIsElseClause &&
    var whenTrue := ExtractSingleStatement(ifStatement.statement);
    var whenFalse := ExtractSingleStatement(ifStatement.elseStatement.value);
    whenTrue.Some? && whenFalse.Some? && whenTrue != whenFalse
  }

  /** What CanBeSimplified says of the two branches of such an if. */
  function BranchSimplification(ifStatement: Statement, parentIsElseClause: bool, sem: Semantics): Simplification
    requires ifStatement.IfStatement? && HasDistinctSingleBranches(ifStatement, parentIsElseClause)
  {
    CanBeSimplified(ExtractSingleStatement(ifStatement.statement).value,
                    ExtractSingleStatement(ifStatement.elseStatement.value).value,
                    NullableComparedToNull(ifStatement.condition, sem), ComparedIsNullInTrue(ifStatement.condition), sem)
  }

  /**
   * CheckIfStatement: an if with an else that is not itself an else-if, with
   * single-statement branches that differ, is reported at its if keyword
   * exactly when the branches can be simplified; the property and the
   * message say whether ?? applies.
   */
  function IfStatementIssues(ifStatement: Statement, parentIsElseClause: bool, ifKeyword: Location, sem: Semantics)
    : (r: seq<SimplificationIssue>)
    requires ifStatement.IfStatement?
    ensures |r| <= 1
    ensures ifStatement.elseStatement.None? || parentIsElseClause ==> r == []
    ensures r != [] <==> HasDistinctSingleBranches(ifStatement, parentIsElseClause) &&
                         BranchSimplification(ifStatement, parentIsElseClause, sem).canBeSimplified
    ensures r != [] ==>
              var isNullCoalescing := BranchSimplification(ifStatement, parentIsElseClause, sem).isNullCoalescing;
              r[0].location == ifKeyword && r[0].properties.Keys == {IsNullCoalescingKey} &&
              (r[0].messageArg == "??" <==> isNullCoalescing) &&
              (r[0].properties[IsNullCoalescingKey] == "True" <==> isNullCoalescing) &&
              (r[0].messageArg == "??" || r[0].messageArg == "?:")
  {
    if ifStatement.elseStatement.None? || parentIsElseClause then []
    else
      var whenTrue := ExtractSingleStatement(ifStatement.statement);
      var whenFalse := ExtractSingleStatement(ifStatement.elseStatement.value);
      if whenTrue.None? || whenFalse.None? || whenTrue == whenFalse then []
      else
        var nullComparison := TryGetExpressionComparedToNull(ifStatement.condition);
        var possiblyNullCoalescing := nullComparison.Some? && ExpressionCanBeNull(nullComparison.value.0, sem);
        var comparedIsNullInTrue := nullComparison.Some? && nullComparison.value.1;
        var s := CanBeSimplified(whenTrue.value, whenFalse.value,
                                 if possiblyNullCoalescing then Some(nullComparison.value.0) else None,
                                 comparedIsNullInTrue, sem);
        if !s.canBeSimplified then []
        else
          [SimplificationIssue(ifKeyword, map[IsNullCoalescingKey := BoolToString(s.isNullCoalescing)],
                               if s.isNullCoalescing then "??" else "?:")]
  }

  /**
   * CheckConditionalExpression: with parentheses stripped, differing
   * branches, and a condition comparing to null an expression that can be
   * null, the ?: is reported with "??" exactly when its branches qualify.
   */
  function ConditionalExpressionIssues(conditional: Expr, location: Location, sem: Semantics)
    : (r: seq<SimplificationIssue>)
    requires conditional.Conditional?
    ensures |r| <= 1
    ensures r != [] ==> r[0] == SimplificationIssue(location, map[], "??")
    ensures r != [] <==>
              var nullComparison := TryGetExpressionComparedToNull(RemoveParentheses(conditional.condition));
              RemoveParentheses(conditional.whenTrue) != RemoveParentheses(conditional.whenFalse) &&
              nullComparison.Some? && ExpressionCanBeNull(nullComparison.value.0, sem) &&
              CanExpressionBeNullCoalescing(RemoveParentheses(conditional.whenTrue),
                                            RemoveParentheses(conditional.whenFalse),
                                            nullComparison.value.0, nullComparison.value.1, sem)
  {
    var condition := RemoveParentheses(conditional.condition);
    var whenTrue := RemoveParentheses(conditional.whenTrue);
    var whenFalse := RemoveParentheses(conditional.whenFalse);
    if whenTrue == whenFalse then []
    else
      var nullComparison := TryGetExpressionComparedToNull(condition);
      if nullComparison.None? || !ExpressionCanBeNull(nullComparison.value.0, sem) then []
      else if CanExpressionBeNullCoalescing(whenTrue, whenFalse, nullComparison.value.0, nullComparison.value.1, sem)
      then [SimplificationIssue(location, map[], "??")]
      else []
  }

  // -----------------------------------------------------------------------
  // The meaning of the suggestion.

  datatype Value = NullValue | BoolValue(b: bool) | ObjectValue(id: int)

  /** What names evaluate to, and what a call of a method symbol on a target value with argument values returns. */
  datatype Environment = Environment(valueOf: Expr -> Value, call: (Option<nat>, Value, seq<Value>) -> Value)

  /** Side-effect-free evaluation of an expression. */
  function Eval(e: Expr, sem: Semantics, env: Environment): Value
    decreases e
  {
    match e
    case NullLiteral => NullValue
    case Name(_) => env.valueOf(e)
    case Parenthesized(inner) => Eval(inner, sem, env)
    case Binary(kind, l, r) =>
      if kind == EqualsExpression then BoolValue(Eval(l, sem, env) == Eval(r, sem, env))
      else if kind == NotEqualsExpression then BoolValue(Eval(l, sem, env) != Eval(r, sem, env))
      else env.valueOf(e)
    case Assignment(_, _, r) => Eval(r, sem, env)
    case Invocation(t, hasArgumentList, args) =>
      env.call(sem.symbolOf(e), Eval(t, sem, env),
               if !hasArgumentList then [] else seq(|args|, k requires 0 <= k < |args| => Eval(args[k], sem, env)))
    case Conditional(c, t, f) =>
      if Eval(c, sem, env) == BoolValue(true) then Eval(t, sem, env) else Eval(f, sem, env)
    case Coalesce(l, r) =>
      if Eval(l, sem, env) != NullValue then Eval(l, sem, env) else Eval(r, sem, env)
  }

  lemma {:induction false} RemoveParenthesesKeepsValue(e: Expr, sem: Semantics, env: Environment)
    ensures Eval(RemoveParentheses(e), sem, env) == Eval(e, sem, env)
  {
    if e.Parenthesized? {
      RemoveParenthesesKeepsValue(e.inner, sem, env);
    }
  }

  /** A recognised comparison to null is true exactly when the compared expression's null-ness matches its sense. */
  lemma ComparisonToNullMeaning(e: Expr, sem: Semantics, env: Environment)
    requires TryGetExpressionComparedToNull(e).Some?
    ensures var r := TryGetExpressionComparedToNull(e).value;
            Eval(e, sem, env) == BoolValue((Eval(r.0, sem, env) == NullValue) == r.1)
  {
  }

  /** The first position from i on where the argument lists differ, or their length. */
  function FirstDifferenceFrom(a1: seq<Expr>, a2: seq<Expr>, i: nat): (k: nat)
    requires |a1| == |a2| && i <= |a1|
    ensures i <= k <= |a1|
    ensures k < |a1| ==> a1[k] != a2[k]
    ensures forall j | i <= j < k :: a1[j] == a2[j]
    decreases |a1| - i
  {
    if i == |a1| || a1[i] != a2[i] then i else FirstDifferenceFrom(a1, a2, i + 1)
  }

  /**
   * The ?? form of a qualifying ?:. A branch that is the compared expression
   * gives `compared ?? other`. Two invocations give the invocation of the
   * branch taken when the compared expression is not null, with its one
   * differing argument replaced by `compared ?? ` the other branch's
   * argument.
   */
  function CoalescedForm(whenTrue: Expr, whenFalse: Expr, compared: Expr, comparedIsNullInTrue: bool): Expr
  {
    if whenTrue == compared then Coalesce(compared, whenFalse)
    else if whenFalse == compared then Coalesce(compared, whenTrue)
    else if !(whenTrue.Invocation? && whenFalse.Invocation? && whenTrue.hasArgumentList &&
              whenFalse.hasArgumentList && |whenTrue.arguments| == |whenFalse.arguments|)
    then whenTrue
    else
      var nonNull := if comparedIsNullInTrue then whenFalse else whenTrue;
      var ifNull := if comparedIsNullInTrue then whenTrue else whenFalse;
      var k := FirstDifferenceFrom(whenTrue.arguments, whenFalse.arguments, 0);
      if k == |nonNull.arguments| then whenTrue
      else
        Invocation(nonNull.target, true, nonNull.arguments[k := Coalesce(compared, ifNull.arguments[k])])
  }

  /** No difference from i on: the lists agree there and nothing matches the condition. */
  lemma {:induction false} NoDifferenceFrom(a1: seq<Expr>, a2: seq<Expr>, c: Option<Expr>, nullInTrue: bool, i: nat)
    requires |a1| == |a2| && i <= |a1|
    requires DifferenceCountFrom(a1, a2, i) == 0
    ensures forall j | i <= j < |a1| :: a1[j] == a2[j]
    ensures ComparisonCountFrom(a1, a2, c, nullInTrue, i) == 0
    decreases |a1| - i
  {
    if i < |a1| {
      NoDifferenceFrom(a1, a2, c, nullInTrue, i + 1);
    }
  }

  /**
   * Exactly one difference from i on: it is at the first difference, the
   * lists agree everywhere else, and the comparison count is that position's.
   */
  lemma {:induction false} SingleDifferenceFrom(a1: seq<Expr>, a2: seq<Expr>, c: Option<Expr>, nullInTrue: bool,
                                                i: nat)
    requires |a1| == |a2| && i <= |a1|
    requires DifferenceCountFrom(a1, a2, i) == 1
    ensures FirstDifferenceFrom(a1, a2, i) < |a1|
    ensures forall j | i <= j < |a1| && j != FirstDifferenceFrom(a1, a2, i) :: a1[j] == a2[j]
    ensures ComparisonCountFrom(a1, a2, c, nullInTrue, i) == ComparisonAt(a1, a2, c, nullInTrue, FirstDifferenceFrom(a1, a2, i))
    decreases |a1| - i
  {
    if a1[i] != a2[i] {
      NoDifferenceFrom(a1, a2, c, nullInTrue, i + 1);
    } else {
      SingleDifferenceFrom(a1, a2, c, nullInTrue, i + 1);
    }
  }

  /** Replacing one argument by an expression of the same value leaves the argument values unchanged. */
  lemma ArgumentValuesAgree(a: seq<Expr>, b: seq<Expr>, sem: Semantics, env: Environment)
    requires |a| == |b|
    requires forall j | 0 <= j < |a| :: Eval(a[j], sem, env) == Eval(b[j], sem, env)
    ensures seq(|a|, j requires 0 <= j < |a| => Eval(a[j], sem, env))
         == seq(|b|, j requires 0 <= j < |b| => Eval(b[j], sem, env))
  {
  }

  /** The invocation case of the soundness theorem. */
  lemma InvocationRewriteKeepsValue(condition: Expr, whenTrue: Expr, whenFalse: Expr, compared: Expr,
                                    nullInTrue: bool, sem: Semantics, env: Environment)
    requires TryGetExpressionComparedToNull(condition) == Some((compared, nullInTrue))
    requires whenTrue != compared && whenFalse != compared
    requires CandidateInvocations(whenTrue, whenFalse, Some(compared), nullInTrue, sem)
    requires sem.symbolOf(CoalescedForm(whenTrue, whenFalse, compared, nullInTrue)) == sem.symbolOf(whenTrue)
    ensures Eval(Conditional(condition, whenTrue, whenFalse), sem, env)
            == Eval(CoalescedForm(whenTrue, whenFalse, compared, nullInTrue), sem, env)
  {
    var a1 := whenTrue.arguments;
    var a2 := whenFalse.arguments;
    SingleDifferenceFrom(a1, a2, Some(compared), nullInTrue, 0);
    ComparisonToNullMeaning(condition, sem, env);
    var k := FirstDifferenceFrom(a1, a2, 0);
    var nonNull := if nullInTrue then whenFalse else whenTrue;
    var ifNull := if nullInTrue then whenTrue else whenFalse;
    var rewritten := nonNull.arguments[k := Coalesce(compared, ifNull.arguments[k])];
    assert CoalescedForm(whenTrue, whenFalse, compared, nullInTrue) == Invocation(nonNull.target, true, rewritten);
    assert nonNull.arguments[k] == compared;
    var taken := if Eval(compared, sem, env) != NullValue then nonNull else ifNull;
    forall j | 0 <= j < |rewritten|
      ensures Eval(rewritten[j], sem, env) == Eval(taken.arguments[j], sem, env)
    {
    }
    ArgumentValuesAgree(rewritten, taken.arguments, sem, env);
  }

  /**
   * Soundness of the suggestion: when a comparison to null and a pair of
   * branches qualify, the ?: and its ?? form have the same value in every
   * environment, provided the rewritten call binds to the same method.
   */
  lemma NullCoalescingKeepsValue(condition: Expr, whenTrue: Expr, whenFalse: Expr, compared: Expr,
                                 nullInTrue: bool, sem: Semantics, env: Environment)
    requires TryGetExpressionComparedToNull(condition) == Some((compared, nullInTrue))
    requires CanExpressionBeNullCoalescing(whenTrue, whenFalse, compared, nullInTrue, sem)
    requires sem.symbolOf(CoalescedForm(whenTrue, whenFalse, compared, nullInTrue)) == sem.symbolOf(whenTrue)
    ensures Eval(Conditional(condition, whenTrue, whenFalse), sem, env)
            == Eval(CoalescedForm(whenTrue, whenFalse, compared, nullInTrue), sem, env)
  {
    ComparisonToNullMeaning(condition, sem, env);
    if whenTrue != compared && whenFalse != compared {
      InvocationRewriteKeepsValue(condition, whenTrue, whenFalse, compared, nullInTrue, sem, env);
    }
  }

  /** Every ?: the rule reports has the value of the ?? form it suggests. */
  lemma ReportedConditionalKeepsValue(conditional: Expr, location: Location, sem: Semantics, env: Environment)
    requires conditional.Conditional?
    requires ConditionalExpressionIssues(conditional, location, sem) != []
    ensures var nullComparison := TryGetExpressionComparedToNull(RemoveParentheses(conditional.condition)).value;
            var whenTrue := RemoveParentheses(conditional.whenTrue);
            var whenFalse := RemoveParentheses(conditional.whenFalse);
            var form := CoalescedForm(whenTrue, whenFalse, nullComparison.0, nullComparison.1);
            sem.symbolOf(form) == sem.symbolOf(whenTrue) ==> Eval(conditional, sem, env) == Eval(form, sem, env)
  {
    var nullComparison := TryGetExpressionComparedToNull(RemoveParentheses(conditional.condition)).value;
    var whenTrue := RemoveParentheses(conditional.whenTrue);
    var whenFalse := RemoveParentheses(conditional.whenFalse);
    var form := CoalescedForm(whenTrue, whenFalse, nullComparison.0, nullComparison.1);
    if sem.symbolOf(form) == sem.symbolOf(whenTrue) {
      RemoveParenthesesKeepsValue(conditional.condition, sem, env);
      RemoveParenthesesKeepsValue(conditional.whenTrue, sem, env);
      RemoveParenthesesKeepsValue(conditional.whenFalse, sem, env);
      NullCoalescingKeepsValue(RemoveParentheses(conditional.condition), whenTrue, whenFalse,
                               nullComparison.0, nullComparison.1, sem, env);
    }
  }

  /**
   * The two expressions an if with these branches chooses between: the
   * returned expressions, the right sides of the candidate assignments, or
   * the two expression statements themselves; none for other branches.
   */
  function ChosenExpressions(s1: Statement, s2: Statement, sem: Semantics): Option<(Expr, Expr)>
  {
    if s1.ReturnStatement? && s2.ReturnStatement? then
      Some((RemoveParentheses(s1.expression), RemoveParentheses(s2.expression)))
    else if s1.ExpressionStatement? && s2.ExpressionStatement? then
      var e1 := RemoveParentheses(s1.expression);
      var e2 := RemoveParentheses(s2.expression);
      if e1.Assignment? && e2.Assignment? && e1.left == e2.left && e1.assignmentKind == e2.assignmentKind &&
         AreTypesCompatible(e1.right, e2.right, sem)
      then Some((e1.right, e2.right))
      else Some((e1, e2))
    else None
  }

  /**
   * Every if statement the rule reports with "??" chooses by its condition
   * between two expressions whose ?? form has the same value, in every
   * environment, provided the rewritten call binds to the same method.
   */
  lemma ReportedIfKeepsValue(ifStatement: Statement, parentIsElseClause: bool, ifKeyword: Location, sem: Semantics,
                             env: Environment)
    requires ifStatement.IfStatement?
    requires IfStatementIssues(ifStatement, parentIsElseClause, ifKeyword, sem) != []
    requires IfStatementIssues(ifStatement, parentIsElseClause, ifKeyword, sem)[0].messageArg == "??"
    ensures HasDistinctSingleBranches(ifStatement, parentIsElseClause)
    ensures TryGetExpressionComparedToNull(ifStatement.condition).Some?
    ensures ChosenExpressions(ExtractSingleStatement(ifStatement.statement).value,
                              ExtractSingleStatement(ifStatement.elseStatement.value).value, sem).Some?
    ensures var nullComparison := TryGetExpressionComparedToNull(ifStatement.condition).value;
            var chosen := ChosenExpressions(ExtractSingleStatement(ifStatement.statement).value,
                                            ExtractSingleStatement(ifStatement.elseStatement.value).value, sem).value;
            var form := CoalescedForm(chosen.0, chosen.1, nullComparison.0, nullComparison.1);
            sem.symbolOf(form) == sem.symbolOf(chosen.0) ==>
              Eval(Conditional(ifStatement.condition, chosen.0, chosen.1), sem, env) == Eval(form, sem, env)
  {
    var s1 := ExtractSingleStatement(ifStatement.statement).value;
    var s2 := ExtractSingleStatement(ifStatement.elseStatement.value).value;
    var comparedToNull := NullableComparedToNull(ifStatement.condition, sem);
    var nullInTrue := ComparedIsNullInTrue(ifStatement.condition);
    NullCoalescingNeedsComparison(s1, s2, comparedToNull, nullInTrue, sem);
    var nullComparison := TryGetExpressionComparedToNull(ifStatement.condition).value;
    assert comparedToNull == Some(nullComparison.0) && nullInTrue == nullComparison.1;
    var chosen := ChosenExpressions(s1, s2, sem).value;
    assert CanExpressionBeNullCoalescing(chosen.0, chosen.1, nullComparison.0, nullComparison.1, sem);
    var form := CoalescedForm(chosen.0, chosen.1, nullComparison.0, nullComparison.1);
    if sem.symbolOf(form) == sem.symbolOf(chosen.0) {
      NullCoalescingKeepsValue(ifStatement.condition, chosen.0, chosen.1, nullComparison.0, nullComparison.1, sem, env);
    }
  }

  /** Every expression has one reference type; no invocation binds. */
  const OneReferenceTypeSemantics := Semantics(e => NamedType(1, true, false), e => None)

  /** `if (x == null) { return y; } else { return x; }` is reported with "??". */
  lemma NullCheckedReturnsAreReported(ifKeyword: Location)
    ensures var x, y := Name(0), Name(1);
            var ifStatement := IfStatement(Binary(EqualsExpression, x, NullLiteral),
                                           Block([ReturnStatement(y)]), Some(Block([ReturnStatement(x)])));
            var r := IfStatementIssues(ifStatement, false, ifKeyword, OneReferenceTypeSemantics);
            r != [] && r[0].messageArg == "??"
  {
    var x, y := Name(0), Name(1);
    var ifStatement := IfStatement(Binary(EqualsExpression, x, NullLiteral),
                                   Block([ReturnStatement(y)]), Some(Block([ReturnStatement(x)])));
    assert HasDistinctSingleBranches(ifStatement, false);
    assert NullableComparedToNull(ifStatement.condition, OneReferenceTypeSemantics) == Some(x);
  }

  // -----------------------------------------------------------------------
  // The as-written check ignores the call target.

  /** Every invocation binds to method 7; no expression has a known type. */
  const OneMethodSemantics := Semantics(e => NoType, e => Some(7))

  /** x is null, every other name is an object of its own, and a call returns its target. */
  const TargetReturningEnvironment :=
    Environment(e => if e == Name(0) then NullValue else if e.Name? then ObjectValue(e.id) else NullValue,
                (m, target, args) => target)

  /** `x != null ? a.M(x) : b.M(y)` passes the check as written, and not the corrected one. */
  lemma CandidateInvocationsIgnoreTarget()
    ensures var x, a, b, y := Name(0), Name(1), Name(2), Name(3);
            var whenTrue := Invocation(a, true, [x]);
            var whenFalse := Invocation(b, true, [y]);
            CandidateInvocationsAsWritten(whenTrue, whenFalse, Some(x), false, OneMethodSemantics) &&
            !CandidateInvocations(whenTrue, whenFalse, Some(x), false, OneMethodSemantics)
  {
    var x, y := Name(0), Name(3);
    assert DifferenceCountFrom([x], [y], 0) == 1;
    assert ComparisonCountFrom([x], [y], Some(x), false, 0) == 1;
  }

  /** Yet its ?? form `a.M(x ?? y)` calls through a, not b, when x is null, so the values differ. */
  lemma IgnoredTargetChangesValue()
    ensures var x, a, b, y := Name(0), Name(1), Name(2), Name(3);
            var condition := Binary(NotEqualsExpression, x, NullLiteral);
            var whenTrue := Invocation(a, true, [x]);
            var whenFalse := Invocation(b, true, [y]);
            Eval(Conditional(condition, whenTrue, whenFalse), OneMethodSemantics, TargetReturningEnvironment)
              != Eval(CoalescedForm(whenTrue, whenFalse, x, false), OneMethodSemantics, TargetReturningEnvironment)
  {
    var x, a, b, y := Name(0), Name(1), Name(2), Name(3);
    var whenTrue := Invocation(a, true, [x]);
    var whenFalse := Invocation(b, true, [y]);
    assert FirstDifferenceFrom([x], [y], 0) == 0;
    assert [x][0 := Coalesce(x, y)] == [Coalesce(x, y)];
    assert CoalescedForm(whenTrue, whenFalse, x, false) == Invocation(a, true, [Coalesce(x, y)]);
    var sem, env := OneMethodSemantics, TargetReturningEnvironment;
    assert Eval(x, sem, env) == NullValue;
    assert Eval(Binary(NotEqualsExpression, x, NullLiteral), sem, env) == BoolValue(false);
    assert Eval(whenFalse, sem, env) == Eval(b, sem, env) == ObjectValue(2);
    assert Eval(Invocation(a, true, [Coalesce(x, y)]), sem, env) == Eval(a, sem, env) == ObjectValue(1);
  }
}
