/**
 * The rule that a for loop's counters are not updated in its body (S127).
 * The loop counters are the variables the loop declares and the variables
 * its initializers assign; every increment, decrement or assignment in the
 * body whose affected expression binds to one of them is reported.
 *
 * Symbols are numbers; what the semantic model binds an expression or a
 * declarator to is a field of the syntax value (None when it binds to
 * nothing). The body is the list of its nodes in document order.
 */
module ForLoopCounterChanged {
  import opened Common

  type Symbol = nat

  datatype ExpressionKind =
    | PreIncrementExpression | PreDecrementExpression
    | PostIncrementExpression | PostDecrementExpression
    | SimpleAssignmentExpression | AddAssignmentExpression | SubtractAssignmentExpression
    | MultiplyAssignmentExpression | DivideAssignmentExpression | ModuloAssignmentExpression
    | AndAssignmentExpression | ExclusiveOrAssignmentExpression | OrAssignmentExpression
    | LeftShiftAssignmentExpression | RightShiftAssignmentExpression
    | OtherKind(code: nat)

  /** An expression that can be updated: its text, its location and the symbol it binds to. */
  datatype Operand = Operand(text: string, location: nat, symbol: Option<Symbol>)

  /** A node of the loop body: prefix and postfix unary expressions expose their operand, assignments their left side. */
  datatype BodyNode =
    | PrefixUnary(kind: ExpressionKind, operand: Operand)
    | PostfixUnary(kind: ExpressionKind, operand: Operand)
    | Assignment(kind: ExpressionKind, left: Operand)
    | OtherNode(kind: ExpressionKind)

  /** The part of a side-effect expression that it updates. */
  datatype AffectedPart = OperandOfPrefix | OperandOfPostfix | LeftOfAssignment

  datatype SideEffectExpression = SideEffectExpression(kinds: seq<ExpressionKind>, affected: AffectedPart)

  const SideEffectExpressions: seq<SideEffectExpression> := [
    SideEffectExpression([PreIncrementExpression, PreDecrementExpression], OperandOfPrefix),
    SideEffectExpression([PostIncrementExpression, PostDecrementExpression], OperandOfPostfix),
    SideEffectExpression([SimpleAssignmentExpression, AddAssignmentExpression, SubtractAssignmentExpression,
                          MultiplyAssignmentExpression, DivideAssignmentExpression, ModuloAssignmentExpression,
                          AndAssignmentExpression, ExclusiveOrAssignmentExpression, OrAssignmentExpression,
                          LeftShiftAssignmentExpression, RightShiftAssignmentExpression], LeftOfAssignment)
  ]

  /** `SideEffectExpressions.Any(s => s.Kinds.Any(n.IsKind))` */
  predicate HasSideEffect(kind: ExpressionKind)
  {
    exists g | 0 <= g < |SideEffectExpressions| :: kind in SideEffectExpressions[g].kinds
  }

  /** The side-effect kinds are exactly the fifteen named kinds. */
  lemma SideEffectKindsAreExactly(kind: ExpressionKind)
    ensures HasSideEffect(kind) <==> !kind.OtherKind?
  {
    if !kind.OtherKind? {
      if kind.PreIncrementExpression? || kind.PreDecrementExpression? {
        assert kind in SideEffectExpressions[0].kinds;
      } else if kind.PostIncrementExpression? || kind.PostDecrementExpression? {
        assert kind in SideEffectExpressions[1].kinds;
      } else {
        assert kind in SideEffectExpressions[2].kinds;
      }
    }
  }

  /** `SideEffectExpressions.Single(s => s.Kinds.Any(n.IsKind))`: the one group that lists the kind. */
  function GroupOf(kind: ExpressionKind): (g: nat)
    requires HasSideEffect(kind)
    ensures g < |SideEffectExpressions| && kind in SideEffectExpressions[g].kinds
    ensures forall h | 0 <= h < |SideEffectExpressions| && kind in SideEffectExpressions[h].kinds :: h == g
  {
    if kind in SideEffectExpressions[0].kinds then 0
    else if kind in SideEffectExpressions[1].kinds then 1
    else 2
  }

  /** A node of a side-effect kind has the syntax class its group casts it to, as Roslyn guarantees. */
  predicate WellFormedNode(n: BodyNode)
  {
    (n.kind in SideEffectExpressions[0].kinds ==> n.PrefixUnary?) &&
    (n.kind in SideEffectExpressions[1].kinds ==> n.PostfixUnary?) &&
    (n.kind in SideEffectExpressions[2].kinds ==> n.Assignment?)
  }

  predicate WellFormedBody(nodes: seq<BodyNode>)
  {
    forall i | 0 <= i < |nodes| :: WellFormedNode(nodes[i])
  }

  /** The group's AffectedExpression applied to a node of a side-effect kind. */
  function Affected(n: BodyNode): Operand
    requires WellFormedNode(n) && HasSideEffect(n.kind)
  {
    match SideEffectExpressions[GroupOf(n.kind)].affected
    case OperandOfPrefix => n.operand
    case OperandOfPostfix => n.operand
    case LeftOfAssignment => n.left
  }

  predicate IsIncrementOrDecrement(kind: ExpressionKind)
  {
    kind.PreIncrementExpression? || kind.PreDecrementExpression? ||
    kind.PostIncrementExpression? || kind.PostDecrementExpression?
  }

  /** The affected expression is the operand of ++ or --, and the left side of every assignment kind. */
  lemma AffectedIsOperandOrLeft(n: BodyNode)
    requires WellFormedNode(n) && HasSideEffect(n.kind)
    ensures IsIncrementOrDecrement(n.kind) ==> !n.Assignment? && Affected(n) == n.operand
    ensures !IsIncrementOrDecrement(n.kind) ==> n.Assignment? && Affected(n) == n.left
  {
    SideEffectKindsAreExactly(n.kind);
    if IsIncrementOrDecrement(n.kind) {
      if n.kind.PreIncrementExpression? || n.kind.PreDecrementExpression? {
        assert n.kind in SideEffectExpressions[0].kinds;
      } else {
        assert n.kind in SideEffectExpressions[1].kinds;
      }
    } else {
      assert n.kind in SideEffectExpressions[2].kinds;
    }
  }

  /** AffectedExpressions over the first k nodes of the body, in document order. */
  function AffectedUpTo(nodes: seq<BodyNode>, k: nat): seq<Operand>
    requires WellFormedBody(nodes) && k <= |nodes|
  {
    if k == 0 then []
    else AffectedUpTo(nodes, k - 1) + (if HasSideEffect(nodes[k - 1].kind) then [Affected(nodes[k - 1])] else [])
  }

  function AffectedExpressions(nodes: seq<BodyNode>): seq<Operand>
    requires WellFormedBody(nodes)
  {
    AffectedUpTo(nodes, |nodes|)
  }

  ghost predicate AffectedOf(nodes: seq<BodyNode>, k: nat, r: seq<Operand>)
    requires WellFormedBody(nodes) && k <= |nodes|
  {
    |r| <= k &&
    forall o :: o in r <==> exists i | 0 <= i < k :: HasSideEffect(nodes[i].kind) && Affected(nodes[i]) == o
  }

  /** The affected expressions are those of the side-effect nodes, and of no other node. */
  lemma {:induction false} AffectedUpToSelects(nodes: seq<BodyNode>, k: nat)
    requires WellFormedBody(nodes) && k <= |nodes|
    ensures AffectedOf(nodes, k, AffectedUpTo(nodes, k))
  {
    if k > 0 {
      AffectedUpToSelects(nodes, k - 1);
      assert AffectedOf(nodes, k - 1, AffectedUpTo(nodes, k - 1));
    }
  }

  // -----------------------------------------------------------------------
  // The loop counters.

  /** A variable declarator of the loop, with the symbol it declares. */
  datatype Declarator = Declarator(declaredSymbol: Option<Symbol>)

  /** An initializer expression of the loop; for an assignment, the symbol its left side binds to. */
  datatype Initializer = Initializer(kind: ExpressionKind, leftSymbol: Option<Symbol>)

  datatype ForStatement = ForStatement(declaration: Option<seq<Declarator>>, initializers: seq<Initializer>,
                                       condition: seq<BodyNode>, incrementors: seq<BodyNode>,
                                       statement: seq<BodyNode>)

  /** The declared symbols that are not null, in order. */
  function DeclaredFrom(ds: seq<Declarator>): seq<Option<Symbol>>
  {
    if ds == [] then []
    else DeclaredFrom(ds[..|ds| - 1]) + (if ds[|ds| - 1].declaredSymbol.Some? then [ds[|ds| - 1].declaredSymbol] else [])
  }

  function DeclaredVariables(f: ForStatement): seq<Option<Symbol>>
  {
    if f.declaration.None? then [] else DeclaredFrom(f.declaration.value)
  }

  /** The symbols of the simple-assignment initializers' left sides, null ones included. */
  function InitializedFrom(inits: seq<Initializer>): seq<Option<Symbol>>
  {
    if inits == [] then []
    else InitializedFrom(inits[..|inits| - 1]) +
         (if inits[|inits| - 1].kind == SimpleAssignmentExpression then [inits[|inits| - 1].leftSymbol] else [])
  }

  function LoopCounters(f: ForStatement): seq<Option<Symbol>>
  {
    Union(DeclaredVariables(f), InitializedFrom(f.initializers))
  }

  /** A symbol is a counter: the loop declares it or one of its simple-assignment initializers assigns it. */
  predicate IsLoopCounter(f: ForStatement, s: Symbol)
  {
    (f.declaration.Some? && exists j | 0 <= j < |f.declaration.value| :: f.declaration.value[j].declaredSymbol == Some(s)) ||
    (exists j | 0 <= j < |f.initializers| ::
       f.initializers[j].kind == SimpleAssignmentExpression && f.initializers[j].leftSymbol == Some(s))
  }

  lemma {:induction false} DeclaredFromSelects(ds: seq<Declarator>)
    ensures None !in DeclaredFrom(ds)
    ensures forall s: Symbol :: Some(s) in DeclaredFrom(ds) <==> exists j | 0 <= j < |ds| :: ds[j].declaredSymbol == Some(s)
  {
    if ds != [] {
      var init := ds[..|ds| - 1];
      DeclaredFromSelects(init);
      assert forall j | 0 <= j < |init| :: init[j] == ds[j];
    }
  }

  lemma {:induction false} InitializedFromSelects(inits: seq<Initializer>)
    ensures forall s: Symbol :: Some(s) in InitializedFrom(inits) <==>
                        exists j | 0 <= j < |inits| :: inits[j].kind == SimpleAssignmentExpression && inits[j].leftSymbol == Some(s)
  {
    if inits != [] {
      var init := inits[..|inits| - 1];
      InitializedFromSelects(init);
      assert forall j | 0 <= j < |init| :: init[j] == inits[j];
    }
  }

  /**
   * The counters hold each counter once, and nothing else but possibly
   * null: a null symbol enters only from an initializer whose left side
   * binds to nothing.
   */
  lemma LoopCountersSelect(f: ForStatement)
    ensures NoRepeats(LoopCounters(f))
    ensures forall s: Symbol :: Some(s) in LoopCounters(f) <==> IsLoopCounter(f, s)
    ensures None in LoopCounters(f) ==>
              exists j | 0 <= j < |f.initializers| ::
                f.initializers[j].kind == SimpleAssignmentExpression && f.initializers[j].leftSymbol.None?
  {
    UnionKeepsEachOnce(DeclaredVariables(f), InitializedFrom(f.initializers));
    if f.declaration.Some? {
      DeclaredFromSelects(f.declaration.value);
    }
    InitializedFromSelects(f.initializers);
    if None in LoopCounters(f) {
      NullInitializer(f.initializers);
    }
  }

  lemma {:induction false} NullInitializer(inits: seq<Initializer>)
    requires None in InitializedFrom(inits)
    ensures exists j | 0 <= j < |inits| :: inits[j].kind == SimpleAssignmentExpression && inits[j].leftSymbol.None?
  {
    var init := inits[..|inits| - 1];
    if None in InitializedFrom(init) {
      NullInitializer(init);
      var j :| 0 <= j < |init| && init[j].kind == SimpleAssignmentExpression && init[j].leftSymbol.None?;
      assert inits[j] == init[j];
    }
  }

  // -----------------------------------------------------------------------
  // The reports.

  datatype CounterIssue = CounterIssue(location: nat, message: string)

  function CounterMessage(text: string): string
  {
    "Do not update the loop counter \"" + text + "\" within the loop body."
  }

  predicate UpdatesCounter(counters: seq<Option<Symbol>>, o: Operand)
  {
    o.symbol.Some? && o.symbol in counters
  }

  /** The reports for the first k affected expressions. */
  function ReportsUpTo(counters: seq<Option<Symbol>>, affected: seq<Operand>, k: nat): seq<CounterIssue>
    requires k <= |affected|
  {
    if k == 0 then []
    else ReportsUpTo(counters, affected, k - 1) +
         (if UpdatesCounter(counters, affected[k - 1])
          then [CounterIssue(affected[k - 1].location, CounterMessage(affected[k - 1].text))] else [])
  }

  /** The issues of one for statement; nothing is analysed in generated code. */
  function ForIssues(f: ForStatement, isGenerated: bool): seq<CounterIssue>
    requires WellFormedBody(f.statement)
  {
    if isGenerated then []
    else
      var affected := AffectedExpressions(f.statement);
      ReportsUpTo(LoopCounters(f), affected, |affected|)
  }

  ghost predicate ReportsExactly(counters: seq<Option<Symbol>>, affected: seq<Operand>, k: nat, r: seq<CounterIssue>)
    requires k <= |affected|
  {
    |r| <= k &&
    forall issue :: issue in r <==>
      exists i | 0 <= i < k :: UpdatesCounter(counters, affected[i]) &&
                               issue == CounterIssue(affected[i].location, CounterMessage(affected[i].text))
  }

  lemma {:induction false} ReportsUpToSelects(counters: seq<Option<Symbol>>, affected: seq<Operand>, k: nat)
    requires k <= |affected|
    ensures ReportsExactly(counters, affected, k, ReportsUpTo(counters, affected, k))
  {
    if k > 0 {
      ReportsUpToSelects(counters, affected, k - 1);
      assert ReportsExactly(counters, affected, k - 1, ReportsUpTo(counters, affected, k - 1));
    }
  }

  /**
   * An issue is reported iff some side-effect node of the body updates an
   * expression bound to a loop counter; it sits at that expression and
   * quotes its text.
   */
  lemma ForIssuesReportCounterUpdates(f: ForStatement, issue: CounterIssue)
    requires WellFormedBody(f.statement)
    ensures issue in ForIssues(f, false) <==>
            exists i | 0 <= i < |f.statement| ::
              HasSideEffect(f.statement[i].kind) &&
              Affected(f.statement[i]).symbol.Some? && IsLoopCounter(f, Affected(f.statement[i]).symbol.value) &&
              issue == CounterIssue(Affected(f.statement[i]).location, CounterMessage(Affected(f.statement[i]).text))
  {
    var affected := AffectedExpressions(f.statement);
    AffectedUpToSelects(f.statement, |f.statement|);
    ReportsUpToSelects(LoopCounters(f), affected, |affected|);
    LoopCountersSelect(f);
    if issue in ForIssues(f, false) {
      var i :| 0 <= i < |affected| && UpdatesCounter(LoopCounters(f), affected[i]) &&
               issue == CounterIssue(affected[i].location, CounterMessage(affected[i].text));
      assert affected[i] in affected;
    }
    if exists i | 0 <= i < |f.statement| ::
         HasSideEffect(f.statement[i].kind) &&
         Affected(f.statement[i]).symbol.Some? && IsLoopCounter(f, Affected(f.statement[i]).symbol.value) &&
         issue == CounterIssue(Affected(f.statement[i]).location, CounterMessage(Affected(f.statement[i]).text)) {
      var i :| 0 <= i < |f.statement| &&
               HasSideEffect(f.statement[i].kind) &&
               Affected(f.statement[i]).symbol.Some? && IsLoopCounter(f, Affected(f.statement[i]).symbol.value) &&
               issue == CounterIssue(Affected(f.statement[i]).location, CounterMessage(Affected(f.statement[i]).text));
      var o := Affected(f.statement[i]);
      assert o in affected;
      var j :| 0 <= j < |affected| && affected[j] == o;
    }
  }

  /** There is at most one issue per affected expression of the body. */
  lemma ForIssuesAtMostOnePerUpdate(f: ForStatement)
    requires WellFormedBody(f.statement)
    ensures |ForIssues(f, false)| <= |AffectedExpressions(f.statement)| <= |f.statement|
  {
    AffectedUpToSelects(f.statement, |f.statement|);
    ReportsUpToSelects(LoopCounters(f), AffectedExpressions(f.statement), |AffectedExpressions(f.statement)|);
  }

  /** Only the body is searched: the condition and the incrementors never change the issues. */
  lemma OnlyTheBodyIsSearched(f: ForStatement, condition: seq<BodyNode>, incrementors: seq<BodyNode>)
    requires WellFormedBody(f.statement)
    ensures ForIssues(f.(condition := condition, incrementors := incrementors), false) == ForIssues(f, false)
  {
  }

  /** No update reports in generated code. */
  lemma GeneratedCodeIsSkipped(f: ForStatement)
    requires WellFormedBody(f.statement)
    ensures ForIssues(f, true) == []
  {
  }

  /** The syntax-node action on a for statement: the foreach over the affected expressions. */
  method CheckForStatement(f: ForStatement, isGenerated: bool) returns (issues: seq<CounterIssue>)
    requires WellFormedBody(f.statement)
    ensures issues == ForIssues(f, isGenerated)
  {
    issues := [];
    if isGenerated {
      return;
    }
    var loopCounters := LoopCounters(f);
    var affected := AffectedExpressions(f.statement);
    for k := 0 to |affected|
      invariant issues == ReportsUpTo(loopCounters, affected, k)
    {
      var symbol := affected[k].symbol;
      if symbol.Some? && symbol in loopCounters {
        issues := issues + [CounterIssue(affected[k].location, CounterMessage(affected[k].text))];
      }
    }
  }
}
