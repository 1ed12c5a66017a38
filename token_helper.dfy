/**
 * The node a token binds to: starting at the token's parent, the walk
 * climbs through enclosing names, and stops early on the left of a member
 * access or qualified name, or at the alias of an alias-qualified name. The
 * type of an object creation and the text of an interpolated string climb
 * one step further by force.
 *
 * The syntax tree is an arena: a node's parent has a smaller index than the
 * node, and each node records the role it plays in its parent.
 */
module TokenHelper {
  import opened Common

  datatype NodeKind =
    | IdentifierName | GenericName | QualifiedName | AliasQualifiedName
    | MemberAccessExpression | ObjectCreationExpression
    | InterpolatedStringText | InterpolatedStringExpression
    | OtherKind(code: nat)

  /** Which child of its parent a node is. */
  datatype Role =
    | ExpressionOfMemberAccess   // `memberAccess.Expression`
    | LeftOfQualifiedName        // `qualifiedName.Left`
    | AliasOfAliasQualifiedName  // `aliasQualifiedName.Alias`
    | TypeOfObjectCreation       // `objectCreation.Type`
    | OtherRole

  datatype SyntaxNode = SyntaxNode(kind: NodeKind, parent: Option<nat>, role: Role)

  type Tree = seq<SyntaxNode>

  predicate WellFormed(tree: Tree)
  {
    forall i | 0 <= i < |tree| :: tree[i].parent.Some? ==> tree[i].parent.value < i
  }

  /** `parent is NameSyntax`: simple, generic, qualified and alias-qualified names. */
  predicate IsName(k: NodeKind)
  {
    k == IdentifierName || k == GenericName || k == QualifiedName || k == AliasQualifiedName
  }

  /** One node's situation in its parent, as the loop tests it. */
  datatype Step = StopHere | StopAtParent | Ascend

  function StepAt(tree: Tree, i: nat): Step
    requires WellFormed(tree) && i < |tree|
  {
    var p := tree[i].parent;
    if p.None? then StopHere
    else
      var parentKind := tree[p.value].kind;
      var role := tree[i].role;
      if parentKind == MemberAccessExpression && role == ExpressionOfMemberAccess then StopHere
      else if parentKind == QualifiedName && role == LeftOfQualifiedName then StopHere
      else if parentKind == AliasQualifiedName && role == AliasOfAliasQualifiedName then StopHere
      else if parentKind == ObjectCreationExpression && role == TypeOfObjectCreation then StopAtParent
      else if tree[i].kind == InterpolatedStringText && parentKind == InterpolatedStringExpression then StopAtParent
      else if !IsName(parentKind) then StopHere
      else Ascend
  }

  /** The reference definition of the walk from node i. */
  function BindableFrom(tree: Tree, i: nat): nat
    requires WellFormed(tree) && i < |tree|
    decreases i
  {
    match StepAt(tree, i)
    case StopHere => i
    case StopAtParent => tree[i].parent.value
    case Ascend => BindableFrom(tree, tree[i].parent.value)
  }

  /** GetBindableParent, given the token's parent. */
  function BindableParent(tree: Tree, tokenParent: Option<nat>): Option<nat>
    requires WellFormed(tree) && (tokenParent.Some? ==> tokenParent.value < |tree|)
  {
    if tokenParent.None? then None else Some(BindableFrom(tree, tokenParent.value))
  }

  /** The while loop of GetBindableParent. */
  method GetBindableParent(tree: Tree, tokenParent: Option<nat>) returns (r: Option<nat>)
    requires WellFormed(tree) && (tokenParent.Some? ==> tokenParent.value < |tree|)
    ensures r == BindableParent(tree, tokenParent)
  {
    var node := tokenParent;
    while node.Some?
      invariant node.Some? <==> tokenParent.Some?
      invariant node.Some? ==> node.value < |tree| && BindableFrom(tree, node.value) == BindableFrom(tree, tokenParent.value)
      decreases if node.Some? then node.value + 1 else 0
    {
      var parent := tree[node.value].parent;
      if parent.Some? && tree[parent.value].kind == MemberAccessExpression && tree[node.value].role == ExpressionOfMemberAccess {
        break;
      }
      if parent.Some? && tree[parent.value].kind == QualifiedName && tree[node.value].role == LeftOfQualifiedName {
        break;
      }
      if parent.Some? && tree[parent.value].kind == AliasQualifiedName && tree[node.value].role == AliasOfAliasQualifiedName {
        break;
      }
      if parent.Some? && tree[parent.value].kind == ObjectCreationExpression && tree[node.value].role == TypeOfObjectCreation {
        node := parent;
        break;
      }
      if tree[node.value].kind == InterpolatedStringText && parent.Some? && tree[parent.value].kind == InterpolatedStringExpression {
        node := parent;
        break;
      }
      if parent.None? || !IsName(tree[parent.value].kind) {
        break;
      }
      node := parent;
    }
    r := node;
  }

  // -----------------------------------------------------------------------
  // Properties of the walk.

  /** a is i or one of i's ancestors. */
  predicate AncestorOrSelf(tree: Tree, a: nat, i: nat)
    requires WellFormed(tree) && i < |tree|
    decreases i
  {
    a == i || (tree[i].parent.Some? && AncestorOrSelf(tree, a, tree[i].parent.value))
  }

  /** The walk ends at the start node or one of its ancestors. */
  lemma {:induction false} BindableIsAncestorOrSelf(tree: Tree, i: nat)
    requires WellFormed(tree) && i < |tree|
    ensures BindableFrom(tree, i) < |tree|
    ensures AncestorOrSelf(tree, BindableFrom(tree, i), i)
    decreases i
  {
    match StepAt(tree, i)
    case StopHere =>
    case StopAtParent =>
      assert AncestorOrSelf(tree, tree[i].parent.value, tree[i].parent.value);
    case Ascend =>
      BindableIsAncestorOrSelf(tree, tree[i].parent.value);
  }

  /** The result is null iff the token has no parent, and otherwise the parent or one of its ancestors. */
  lemma {:induction false} BindableParentSpec(tree: Tree, tokenParent: Option<nat>)
    requires WellFormed(tree) && (tokenParent.Some? ==> tokenParent.value < |tree|)
    ensures BindableParent(tree, tokenParent).None? <==> tokenParent.None?
    ensures tokenParent.Some? ==> AncestorOrSelf(tree, BindableParent(tree, tokenParent).value, tokenParent.value)
  {
    if tokenParent.Some? {
      BindableIsAncestorOrSelf(tree, tokenParent.value);
    }
  }

  /** On the left of a member access or qualified name, or as an alias, the walk does not ascend. */
  lemma {:induction false} StopsOnTheLeft(tree: Tree, i: nat)
    requires WellFormed(tree) && i < |tree| && tree[i].parent.Some?
    requires var parentKind := tree[tree[i].parent.value].kind;
             (parentKind == MemberAccessExpression && tree[i].role == ExpressionOfMemberAccess) ||
             (parentKind == QualifiedName && tree[i].role == LeftOfQualifiedName) ||
             (parentKind == AliasQualifiedName && tree[i].role == AliasOfAliasQualifiedName)
    ensures BindableFrom(tree, i) == i
  {
  }

  /** The type of an object creation, and interpolated text, bind to their parent. */
  lemma {:induction false} ClimbsOneStepIntoCreationOrInterpolation(tree: Tree, i: nat)
    requires WellFormed(tree) && i < |tree| && tree[i].parent.Some?
    requires var parentKind := tree[tree[i].parent.value].kind;
             (parentKind == ObjectCreationExpression && tree[i].role == TypeOfObjectCreation) ||
             (tree[i].kind == InterpolatedStringText && parentKind == InterpolatedStringExpression)
    ensures BindableFrom(tree, i) == tree[i].parent.value
    ensures tree[i].parent.value < i
  {
  }

  /**
   * Where the walk moves at all, it ends at a name, an object creation or
   * an interpolated string: any other parent stops it.
   */
  lemma {:induction false} AscendsOnlyIntoNames(tree: Tree, i: nat)
    requires WellFormed(tree) && i < |tree|
    ensures BindableFrom(tree, i) < |tree|
    ensures var r := BindableFrom(tree, i);
            r != i ==> IsName(tree[r].kind) || tree[r].kind == ObjectCreationExpression || tree[r].kind == InterpolatedStringExpression
    decreases i
  {
    BindableIsAncestorOrSelf(tree, i);
    if StepAt(tree, i) == Ascend {
      var p := tree[i].parent.value;
      AscendsOnlyIntoNames(tree, p);
      BindableIsAncestorOrSelf(tree, p);
    }
  }

  /** Under a parent that is not a name, and in none of the special places, the node is its own bindable parent. */
  lemma {:induction false} NonNameParentStops(tree: Tree, i: nat)
    requires WellFormed(tree) && i < |tree| && tree[i].parent.Some?
    requires !IsName(tree[tree[i].parent.value].kind)
    requires tree[tree[i].parent.value].kind != ObjectCreationExpression
    requires tree[tree[i].parent.value].kind != InterpolatedStringExpression
    ensures BindableFrom(tree, i) == i
  {
  }

  /** Under a name, outside the special places, the walk continues from the parent. */
  lemma {:induction false} NameParentAscends(tree: Tree, i: nat)
    requires WellFormed(tree) && i < |tree| && tree[i].parent.Some?
    requires IsName(tree[tree[i].parent.value].kind)
    requires !(tree[tree[i].parent.value].kind == QualifiedName && tree[i].role == LeftOfQualifiedName)
    requires !(tree[tree[i].parent.value].kind == AliasQualifiedName && tree[i].role == AliasOfAliasQualifiedName)
    ensures BindableFrom(tree, i) == BindableFrom(tree, tree[i].parent.value)
  {
  }
}
