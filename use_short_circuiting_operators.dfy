/**
 * The Visual Basic rule that asks for the short-circuiting operators: every
 * `And` and `Or` expression is reported with its alternative (`AndAlso`,
 * `OrElse`) as message argument.
 */
module UseShortCircuitingOperators {
  import opened Common

  const DiagnosticId: string := "?XXX"

  datatype VbKind = AndExpression | OrExpression | AndAlsoExpression | OrElseExpression | OtherKind(code: nat)

  /** The enumeration member's name, as SyntaxKind.ToString() gives it. */
  function KindName(k: VbKind): string
  {
    match k
    case AndExpression => "AndExpression"
    case OrExpression => "OrExpression"
    case AndAlsoExpression => "AndAlsoExpression"
    case OrElseExpression => "OrElseExpression"
    case OtherKind(_) => "Other"
  }

  const ShortCircuitingAlternative: map<VbKind, VbKind> := map[AndExpression := AndAlsoExpression, OrExpression := OrElseExpression]

  /** The kinds the action is registered for. */
  const RegisteredKinds: seq<VbKind> := [AndExpression, OrExpression]

  /** The map has exactly two entries, And to AndAlso and Or to OrElse, and covers every registered kind. */
  lemma AlternativesAreExactly()
    ensures ShortCircuitingAlternative.Keys == {AndExpression, OrExpression}
    ensures ShortCircuitingAlternative[AndExpression] == AndAlsoExpression
    ensures ShortCircuitingAlternative[OrExpression] == OrElseExpression
    ensures forall k | k in RegisteredKinds :: k in ShortCircuitingAlternative
  {
  }

  datatype ShortCircuitIssue = ShortCircuitIssue(location: nat, message: string)

  function AlternativeMessage(alternative: VbKind): string
  {
    "Use the short-circuiting alternative " + KindName(alternative) + "."
  }

  /** The issues of one node of the given kind; nothing is analysed in generated code. */
  function NodeIssues(kind: VbKind, location: nat, isGenerated: bool): seq<ShortCircuitIssue>
  {
    if isGenerated || kind !in RegisteredKinds then []
    else [ShortCircuitIssue(location, AlternativeMessage(ShortCircuitingAlternative[kind]))]
  }

  /** Exactly the And and Or nodes of non-generated code get one issue each, at the node, naming the alternative. */
  lemma NodeIssuesSpec(kind: VbKind, location: nat, isGenerated: bool)
    ensures |NodeIssues(kind, location, isGenerated)| <= 1
    ensures NodeIssues(kind, location, isGenerated) != [] <==> !isGenerated && (kind == AndExpression || kind == OrExpression)
    ensures !isGenerated && kind == AndExpression ==>
              NodeIssues(kind, location, isGenerated) == [ShortCircuitIssue(location, AlternativeMessage(AndAlsoExpression))]
    ensures !isGenerated && kind == OrExpression ==>
              NodeIssues(kind, location, isGenerated) == [ShortCircuitIssue(location, AlternativeMessage(OrElseExpression))]
  {
  }
}

/**
 * The code fix for the short-circuiting rule: the reported binary expression
 * is replaced by the short-circuiting one over the same operands, and the
 * rest of the tree is kept.
 *
 * Expressions are trees whose nodes carry an id standing for their span; a
 * context is a tree with a hole, so that `Plug(ctx, e)` is the tree holding
 * e at the hole.
 */
module UseShortCircuitingOperatorsFix {
  import opened Common
  import Rule = UseShortCircuitingOperators

  const FixableDiagnosticIds: seq<string> := [Rule.DiagnosticId]

  datatype VbExpression =
    | Binary(id: nat, kind: Rule.VbKind, left: VbExpression, right: VbExpression)
    | Leaf(id: nat, text: string)

  datatype Context =
    | Hole
    | LeftOf(ctxId: nat, ctxKind: Rule.VbKind, inner: Context, rightSibling: VbExpression)
    | RightOf(ctxId: nat, ctxKind: Rule.VbKind, leftSibling: VbExpression, inner: Context)

  function Plug(ctx: Context, e: VbExpression): VbExpression
  {
    match ctx
    case Hole => e
    case LeftOf(id, kind, inner, right) => Binary(id, kind, Plug(inner, e), right)
    case RightOf(id, kind, left, inner) => Binary(id, kind, left, Plug(inner, e))
  }

  function Ids(e: VbExpression): set<nat>
  {
    match e
    case Binary(id, _, left, right) => {id} + Ids(left) + Ids(right)
    case Leaf(id, _) => {id}
  }

  /** The ids of a context's own nodes and of the siblings along its path. */
  function ContextIds(ctx: Context): set<nat>
  {
    match ctx
    case Hole => {}
    case LeftOf(id, _, inner, right) => {id} + ContextIds(inner) + Ids(right)
    case RightOf(id, _, left, inner) => {id} + Ids(left) + ContextIds(inner)
  }

  /** `root.FindNode(span)` for a span that one node id marks: the node with that id, searched left to right. */
  function FindNode(root: VbExpression, id: nat): Option<VbExpression>
  {
    if root.id == id then Some(root)
    else match root
      case Leaf(_, _) => None
      case Binary(_, _, left, right) =>
        var inLeft := FindNode(left, id);
        if inLeft.Some? then inLeft else FindNode(right, id)
  }

  /** `root.ReplaceNode(node, replacement)` for the node with the given id. */
  function ReplaceNode(root: VbExpression, id: nat, replacement: VbExpression): VbExpression
  {
    if root.id == id then replacement
    else match root
      case Leaf(_, _) => root
      case Binary(i, kind, left, right) => Binary(i, kind, ReplaceNode(left, id, replacement), ReplaceNode(right, id, replacement))
  }

  /** GetShortCircuitingExpressionNode */
  function ShortCircuiting(node: VbExpression): VbExpression
    requires node.Binary?
  {
    if node.kind == Rule.AndExpression then Binary(node.id, Rule.AndAlsoExpression, node.left, node.right)
    else if node.kind == Rule.OrExpression then Binary(node.id, Rule.OrElseExpression, node.left, node.right)
    else node
  }

  /**
   * The rewrite keeps the operands and the position and changes the kind as
   * the analyzer's alternatives say; any other node is returned unchanged.
   */
  lemma ShortCircuitingFollowsTheRule(node: VbExpression)
    requires node.Binary?
    ensures ShortCircuiting(node).Binary? && ShortCircuiting(node).id == node.id
    ensures ShortCircuiting(node).left == node.left && ShortCircuiting(node).right == node.right
    ensures node.kind in Rule.ShortCircuitingAlternative ==>
              ShortCircuiting(node).kind == Rule.ShortCircuitingAlternative[node.kind]
    ensures node.kind !in Rule.ShortCircuitingAlternative ==> ShortCircuiting(node) == node
  {
  }

  /** ReplaceOperator: None when the located node is not a binary expression, where the original throws. */
  function ReplaceOperator(root: VbExpression, id: nat): Option<VbExpression>
  {
    var node := FindNode(root, id);
    if node.None? || !node.value.Binary? then None
    else Some(ReplaceNode(root, id, ShortCircuiting(node.value)))
  }

  lemma {:induction false} ReplaceAbsentIsIdentity(root: VbExpression, id: nat, replacement: VbExpression)
    requires id !in Ids(root)
    ensures ReplaceNode(root, id, replacement) == root
  {
    if root.Binary? {
      ReplaceAbsentIsIdentity(root.left, id, replacement);
      ReplaceAbsentIsIdentity(root.right, id, replacement);
    }
  }

  lemma {:induction false} FindAbsentIsNone(root: VbExpression, id: nat)
    requires id !in Ids(root)
    ensures FindNode(root, id).None?
  {
    if root.Binary? {
      FindAbsentIsNone(root.left, id);
      FindAbsentIsNone(root.right, id);
    }
  }

  /** When no other node carries its id, the node is what FindNode locates and the only node ReplaceNode replaces. */
  lemma {:induction false} ReplaceOnlyTheLocatedNode(ctx: Context, node: VbExpression, replacement: VbExpression)
    requires node.id !in ContextIds(ctx)
    ensures FindNode(Plug(ctx, node), node.id) == Some(node)
    ensures ReplaceNode(Plug(ctx, node), node.id, replacement) == Plug(ctx, replacement)
  {
    match ctx
    case Hole =>
    case LeftOf(id, kind, inner, right) =>
      ReplaceOnlyTheLocatedNode(inner, node, replacement);
      ReplaceAbsentIsIdentity(right, node.id, replacement);
    case RightOf(id, kind, left, inner) =>
      ReplaceOnlyTheLocatedNode(inner, node, replacement);
      ReplaceAbsentIsIdentity(left, node.id, replacement);
      FindAbsentIsNone(left, node.id);
  }

  /**
   * Fixing a reported `And` (or `Or`) node rewrites just that node into
   * `AndAlso` (or `OrElse`) over the same operands.
   */
  lemma FixRewritesTheReportedNode(ctx: Context, id: nat, kind: Rule.VbKind, left: VbExpression, right: VbExpression)
    requires kind == Rule.AndExpression || kind == Rule.OrExpression
    requires id !in ContextIds(ctx)
    ensures ReplaceOperator(Plug(ctx, Binary(id, kind, left, right)), id) ==
            Some(Plug(ctx, Binary(id, Rule.ShortCircuitingAlternative[kind], left, right)))
  {
    var node := Binary(id, kind, left, right);
    ReplaceOnlyTheLocatedNode(ctx, node, ShortCircuiting(node));
  }

  /** The fix handles exactly the rule's own diagnostics. */
  lemma FixesTheRuleOnly()
    ensures FixableDiagnosticIds == [Rule.DiagnosticId]
  {
  }
}
