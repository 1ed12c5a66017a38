/**
 * The code fix that splits a declaration of several variables (`int a, b;`)
 * into one declaration per variable. The declarator the diagnostic points
 * at leads to its declaration; when that declaration belongs to a field or
 * to a local declaration statement, that member or statement is replaced by
 * one copy per variable, each with a single declarator and the original
 * type, in the original order.
 *
 * Syntax nodes carry ids standing for their identity in the tree. A
 * context is a tree with a hole in one of its lists, so that
 * `PlugAll(ctx, nodes)` is the list holding `nodes` at the hole.
 */
module MultipleVariableDeclarationFix {
  import opened Common

  datatype Trivia = Trivia(text: string)

  datatype TypeSyntax = TypeSyntax(text: string, trailingTrivia: seq<Trivia>)

  datatype Declarator = Declarator(id: nat, name: string, leadingTrivia: seq<Trivia>)

  /** A variable declaration; `separatorTrivia[k]` is the trailing trivia of the comma after the k-th variable. */
  datatype VariableDeclaration = VariableDeclaration(declType: TypeSyntax, variables: seq<Declarator>, separatorTrivia: seq<seq<Trivia>>)

  datatype Node =
    | Container(id: nat, children: seq<Node>)
    | FieldDeclaration(id: nat, attributeLists: seq<nat>, modifiers: seq<string>, declaration: VariableDeclaration)
    | LocalDeclarationStatement(id: nat, modifiers: seq<string>, declaration: VariableDeclaration)
    /** A declaration under any other parent: a `for`, `using` or `fixed` statement. */
    | OtherDeclarationHolder(id: nat, declaration: VariableDeclaration)
    | OtherNode(id: nat)

  datatype Root = Root(members: seq<Node>)

  /** What the diagnostic's span locates: a declarator (by id) or some other node. */
  datatype Located = DeclaratorNode(declaratorId: nat) | OtherLocated

  // -----------------------------------------------------------------------
  // Splitting one declaration.

  /** The trailing trivia of the token before the k-th variable: the type's for the first, a comma's otherwise. */
  function PreviousTrailingTrivia(d: VariableDeclaration, k: nat): seq<Trivia>
  {
    if k == 0 then d.declType.trailingTrivia
    else if k - 1 < |d.separatorTrivia| then d.separatorTrivia[k - 1]
    else []
  }

  /** GetLeadingTriviaFor */
  function LeadingTriviaFor(d: VariableDeclaration, k: nat): seq<Trivia>
    requires k < |d.variables|
  {
    PreviousTrailingTrivia(d, k) + d.variables[k].leadingTrivia
  }

  /** One declaration per variable, with the type stripped of its trailing trivia. */
  function SingleDeclarations(d: VariableDeclaration): seq<VariableDeclaration>
  {
    seq(|d.variables|, k requires 0 <= k < |d.variables| =>
      VariableDeclaration(TypeSyntax(d.declType.text, []),
                          [d.variables[k].(leadingTrivia := LeadingTriviaFor(d, k))], []))
  }

  function DeclaratorIds(d: VariableDeclaration): set<nat>
  {
    set k | 0 <= k < |d.variables| :: d.variables[k].id
  }

  predicate IsHolder(n: Node)
  {
    n.FieldDeclaration? || n.LocalDeclarationStatement? || n.OtherDeclarationHolder?
  }

  /**
   * The nodes replacing the declaration's parent: one field (with the
   * attribute lists and modifiers) or one local declaration statement (with
   * the modifiers) per variable; None for any other parent. New nodes keep
   * the replaced node's id.
   */
  function NewNodes(holder: Node): Option<seq<Node>>
    requires IsHolder(holder)
  {
    var ds := SingleDeclarations(holder.declaration);
    match holder
    case FieldDeclaration(id, attributeLists, modifiers, _) =>
      Some(seq(|ds|, k requires 0 <= k < |ds| => FieldDeclaration(id, attributeLists, modifiers, ds[k])))
    case LocalDeclarationStatement(id, modifiers, _) =>
      Some(seq(|ds|, k requires 0 <= k < |ds| => LocalDeclarationStatement(id, modifiers, ds[k])))
    case OtherDeclarationHolder(_, _) => None
  }

  // -----------------------------------------------------------------------
  // The tree.

  function Ids(n: Node): set<nat>
    decreases n
  {
    match n
    case Container(id, children) => {id} + IdsOf(children)
    case FieldDeclaration(id, _, _, d) => {id} + DeclaratorIds(d)
    case LocalDeclarationStatement(id, _, d) => {id} + DeclaratorIds(d)
    case OtherDeclarationHolder(id, d) => {id} + DeclaratorIds(d)
    case OtherNode(id) => {id}
  }

  function IdsOf(ns: seq<Node>): set<nat>
    decreases ns
  {
    if ns == [] then {} else Ids(ns[0]) + IdsOf(ns[1..])
  }

  /** The first node, in document order, whose declaration holds the declarator with the given id. */
  function FindHolder(n: Node, declaratorId: nat): Option<Node>
    decreases n
  {
    match n
    case Container(_, children) => FindHolderIn(children, declaratorId)
    case OtherNode(_) => None
    case _ => if declaratorId in DeclaratorIds(n.declaration) then Some(n) else None
  }

  function FindHolderIn(ns: seq<Node>, declaratorId: nat): Option<Node>
    decreases ns
  {
    if ns == [] then None
    else
      var found := FindHolder(ns[0], declaratorId);
      if found.Some? then found else FindHolderIn(ns[1..], declaratorId)
  }

  /** `root.ReplaceNode(node, newNodes)` on one node: the list it becomes. */
  function ReplaceIn(n: Node, id: nat, newNodes: seq<Node>): seq<Node>
    decreases n
  {
    if n.id == id then newNodes
    else match n
      case Container(i, children) => [Container(i, ReplaceInAll(children, id, newNodes))]
      case _ => [n]
  }

  function ReplaceInAll(ns: seq<Node>, id: nat, newNodes: seq<Node>): seq<Node>
    decreases ns
  {
    if ns == [] then [] else ReplaceIn(ns[0], id, newNodes) + ReplaceInAll(ns[1..], id, newNodes)
  }

  /** CalculateNewRoot */
  function NewRoot(root: Root, node: Located): Root
  {
    match node
    case OtherLocated => root
    case DeclaratorNode(declaratorId) =>
      var holder := FindHolderIn(root.members, declaratorId);
      if holder.None? then root
      else
        assert IsHolder(holder.value) by { FoundIsHolder(root.members, declaratorId); }
        var newNodes := NewNodes(holder.value);
        if newNodes.None? then root
        else Root(ReplaceInAll(root.members, holder.value.id, newNodes.value))
  }

  lemma {:induction false} FoundIsHolderNode(n: Node, declaratorId: nat)
    requires FindHolder(n, declaratorId).Some?
    ensures IsHolder(FindHolder(n, declaratorId).value)
    ensures declaratorId in DeclaratorIds(FindHolder(n, declaratorId).value.declaration)
    decreases n
  {
    if n.Container? {
      FoundIsHolder(n.children, declaratorId);
    }
  }

  lemma {:induction false} FoundIsHolder(ns: seq<Node>, declaratorId: nat)
    requires FindHolderIn(ns, declaratorId).Some?
    ensures IsHolder(FindHolderIn(ns, declaratorId).value)
    ensures declaratorId in DeclaratorIds(FindHolderIn(ns, declaratorId).value.declaration)
    decreases ns
  {
    if FindHolder(ns[0], declaratorId).Some? {
      FoundIsHolderNode(ns[0], declaratorId);
    } else {
      FoundIsHolder(ns[1..], declaratorId);
    }
  }

  // -----------------------------------------------------------------------
  // What the fix produces.

  /**
   * n declarators become n declarations in the same order, each with
   * exactly that one variable (its leading trivia extended by the previous
   * token's trailing trivia) and the original type without trailing trivia.
   */
  lemma {:induction false} SingleDeclarationsSplit(d: VariableDeclaration)
    ensures |SingleDeclarations(d)| == |d.variables|
    ensures forall k | 0 <= k < |d.variables| ::
              |SingleDeclarations(d)[k].variables| == 1 &&
              SingleDeclarations(d)[k].variables[0].id == d.variables[k].id &&
              SingleDeclarations(d)[k].variables[0].name == d.variables[k].name &&
              SingleDeclarations(d)[k].variables[0].leadingTrivia == PreviousTrailingTrivia(d, k) + d.variables[k].leadingTrivia &&
              SingleDeclarations(d)[k].declType == TypeSyntax(d.declType.text, [])
  {
  }

  /** A field's copies carry its attribute lists and modifiers; a local's its modifiers; other parents give nothing. */
  lemma {:induction false} NewNodesCopyTheParent(holder: Node)
    requires IsHolder(holder)
    ensures holder.OtherDeclarationHolder? <==> NewNodes(holder).None?
    ensures NewNodes(holder).Some? ==> |NewNodes(holder).value| == |holder.declaration.variables|
    ensures holder.FieldDeclaration? ==>
              forall k | 0 <= k < |holder.declaration.variables| ::
                NewNodes(holder).value[k] ==
                  FieldDeclaration(holder.id, holder.attributeLists, holder.modifiers, SingleDeclarations(holder.declaration)[k])
    ensures holder.LocalDeclarationStatement? ==>
              forall k | 0 <= k < |holder.declaration.variables| ::
                NewNodes(holder).value[k] ==
                  LocalDeclarationStatement(holder.id, holder.modifiers, SingleDeclarations(holder.declaration)[k])
  {
  }

  /** The root is unchanged unless the node is a declarator whose declaration is a field's or a local statement's. */
  lemma {:induction false} UnchangedUnlessFieldOrLocal(root: Root, node: Located)
    requires NewRoot(root, node) != root
    ensures node.DeclaratorNode?
    ensures FindHolderIn(root.members, node.declaratorId).Some?
    ensures var h := FindHolderIn(root.members, node.declaratorId).value;
            (h.FieldDeclaration? || h.LocalDeclarationStatement?) && node.declaratorId in DeclaratorIds(h.declaration)
  {
    FoundIsHolder(root.members, node.declaratorId);
  }

  // -----------------------------------------------------------------------
  // Only the parent is replaced.

  datatype Context =
    | Here(before: seq<Node>, after: seq<Node>)
    | Within(outerBefore: seq<Node>, containerId: nat, inner: Context, outerAfter: seq<Node>)

  function PlugAll(ctx: Context, nodes: seq<Node>): seq<Node>
  {
    match ctx
    case Here(before, after) => before + nodes + after
    case Within(before, id, inner, after) => before + [Container(id, PlugAll(inner, nodes))] + after
  }

  function ContextIds(ctx: Context): set<nat>
  {
    match ctx
    case Here(before, after) => IdsOf(before) + IdsOf(after)
    case Within(before, id, inner, after) => IdsOf(before) + {id} + ContextIds(inner) + IdsOf(after)
  }

  lemma {:induction false} ReplaceAbsentNode(n: Node, id: nat, newNodes: seq<Node>)
    requires id !in Ids(n)
    ensures ReplaceIn(n, id, newNodes) == [n]
    decreases n
  {
    if n.Container? {
      ReplaceAbsent(n.children, id, newNodes);
    }
  }

  lemma {:induction false} ReplaceAbsent(ns: seq<Node>, id: nat, newNodes: seq<Node>)
    requires id !in IdsOf(ns)
    ensures ReplaceInAll(ns, id, newNodes) == ns
    decreases ns
  {
    if ns != [] {
      ReplaceAbsentNode(ns[0], id, newNodes);
      ReplaceAbsent(ns[1..], id, newNodes);
      assert ns == [ns[0]] + ns[1..];
    }
  }

  lemma {:induction false} FindAbsentNode(n: Node, declaratorId: nat)
    requires declaratorId !in Ids(n)
    ensures FindHolder(n, declaratorId).None?
    decreases n
  {
    if n.Container? {
      FindAbsent(n.children, declaratorId);
    }
  }

  lemma {:induction false} FindAbsent(ns: seq<Node>, declaratorId: nat)
    requires declaratorId !in IdsOf(ns)
    ensures FindHolderIn(ns, declaratorId).None?
    decreases ns
  {
    if ns != [] {
      FindAbsentNode(ns[0], declaratorId);
      FindAbsent(ns[1..], declaratorId);
    }
  }

  lemma {:induction false} ReplaceAppend(a: seq<Node>, b: seq<Node>, id: nat, newNodes: seq<Node>)
    ensures ReplaceInAll(a + b, id, newNodes) == ReplaceInAll(a, id, newNodes) + ReplaceInAll(b, id, newNodes)
  {
    if a != [] {
      assert (a + b)[1..] == a[1..] + b;
      ReplaceAppend(a[1..], b, id, newNodes);
    } else {
      assert a + b == b;
    }
  }

  lemma {:induction false} FindAppend(a: seq<Node>, b: seq<Node>, declaratorId: nat)
    ensures FindHolderIn(a + b, declaratorId) ==
            if FindHolderIn(a, declaratorId).Some? then FindHolderIn(a, declaratorId) else FindHolderIn(b, declaratorId)
  {
    if a != [] {
      assert (a + b)[1..] == a[1..] + b;
      assert (a + b)[0] == a[0];
      FindAppend(a[1..], b, declaratorId);
    } else {
      assert a + b == b;
    }
  }

  lemma {:induction false} IdsAppend(a: seq<Node>, b: seq<Node>)
    ensures IdsOf(a + b) == IdsOf(a) + IdsOf(b)
  {
    if a != [] {
      assert (a + b)[1..] == a[1..] + b;
      assert (a + b)[0] == a[0];
      IdsAppend(a[1..], b);
    } else {
      assert a + b == b;
    }
  }

  /** In a context whose other nodes carry neither id, the holder is what the search finds and the only node replaced. */
  lemma {:induction false} ReplaceOnlyTheHolder(ctx: Context, holder: Node, declaratorId: nat, newNodes: seq<Node>)
    requires IsHolder(holder) && declaratorId in DeclaratorIds(holder.declaration)
    requires holder.id !in ContextIds(ctx) && declaratorId !in ContextIds(ctx)
    ensures FindHolderIn(PlugAll(ctx, [holder]), declaratorId) == Some(holder)
    ensures ReplaceInAll(PlugAll(ctx, [holder]), holder.id, newNodes) == PlugAll(ctx, newNodes)
  {
    assert FindHolderIn([holder], declaratorId) == Some(holder);
    assert ReplaceInAll([holder], holder.id, newNodes) == newNodes;
    match ctx
    case Here(before, after) =>
      FindAbsent(before, declaratorId);
      FindAppend(before + [holder], after, declaratorId);
      FindAppend(before, [holder], declaratorId);
      ReplaceAbsent(before, holder.id, newNodes);
      ReplaceAbsent(after, holder.id, newNodes);
      ReplaceAppend(before + [holder], after, holder.id, newNodes);
      ReplaceAppend(before, [holder], holder.id, newNodes);
    case Within(before, id, inner, after) =>
      ReplaceOnlyTheHolder(inner, holder, declaratorId, newNodes);
      var c := Container(id, PlugAll(inner, [holder]));
      assert FindHolderIn([c], declaratorId) == Some(holder);
      assert ReplaceInAll([c], holder.id, newNodes) == [Container(id, PlugAll(inner, newNodes))];
      FindAbsent(before, declaratorId);
      FindAppend(before + [c], after, declaratorId);
      FindAppend(before, [c], declaratorId);
      ReplaceAbsent(before, holder.id, newNodes);
      ReplaceAbsent(after, holder.id, newNodes);
      ReplaceAppend(before + [c], after, holder.id, newNodes);
      ReplaceAppend(before, [c], holder.id, newNodes);
  }

  /**
   * Fixing a declarator of a field or local declaration replaces exactly
   * that member or statement by its single-variable copies and keeps the
   * rest of the tree.
   */
  lemma {:induction false} FixReplacesOnlyTheParent(ctx: Context, holder: Node, declaratorId: nat)
    requires holder.FieldDeclaration? || holder.LocalDeclarationStatement?
    requires declaratorId in DeclaratorIds(holder.declaration)
    requires holder.id !in ContextIds(ctx) && declaratorId !in ContextIds(ctx)
    ensures NewRoot(Root(PlugAll(ctx, [holder])), DeclaratorNode(declaratorId)) == Root(PlugAll(ctx, NewNodes(holder).value))
  {
    ReplaceOnlyTheHolder(ctx, holder, declaratorId, NewNodes(holder).value);
  }

  /** A declaration under any other parent is left alone. */
  lemma {:induction false} OtherParentsAreLeftAlone(ctx: Context, holder: Node, declaratorId: nat)
    requires holder.OtherDeclarationHolder?
    requires declaratorId in DeclaratorIds(holder.declaration)
    requires holder.id !in ContextIds(ctx) && declaratorId !in ContextIds(ctx)
    ensures NewRoot(Root(PlugAll(ctx, [holder])), DeclaratorNode(declaratorId)) == Root(PlugAll(ctx, [holder]))
  {
    ReplaceOnlyTheHolder(ctx, holder, declaratorId, []);
  }
}
