/**
 * The rule against casting an interface to a concrete class (S3215):
 * a cast `(C)e` or an `e as C` is reported when the
 * expression's type is an interface and the target is a class other than
 * `object`. Types the semantic model cannot find are None.
 */
module CastConcreteTypeToInterface {
  import opened Common

  datatype TypeKind = ClassKind | InterfaceKind | StructKind | EnumKind | DelegateKind | OtherTypeKind

  /** A type: its kind, and whether it is System.Object. */
  datatype TypeSymbol = TypeSymbol(kind: TypeKind, isSystemObject: bool)

  /** The two expressions the rule inspects, each with the types of its parts and its location. */
  datatype CastLike =
    | CastExpression(castType: Option<TypeSymbol>, operand: Option<TypeSymbol>, location: nat)
    | AsExpression(left: Option<TypeSymbol>, right: Option<TypeSymbol>, location: nat)

  /** The type cast to: the cast's type, or the right side of `as`. */
  function CastedTo(e: CastLike): Option<TypeSymbol>
  {
    match e
    case CastExpression(t, _, _) => t
    case AsExpression(_, r, _) => r
  }

  /** The type cast from: the cast's operand, or the left side of `as`. */
  function CastedFrom(e: CastLike): Option<TypeSymbol>
  {
    match e
    case CastExpression(_, o, _) => o
    case AsExpression(l, _, _) => l
  }

  /** CheckForIssue: the condition under which the node is reported. */
  predicate IsIssue(castedTo: Option<TypeSymbol>, castedFrom: Option<TypeSymbol>)
  {
    !(castedFrom.None? || castedTo.None? ||
      castedFrom.value.kind != InterfaceKind ||
      castedTo.value.kind != ClassKind ||
      castedTo.value.isSystemObject)
  }

  /**
   * The issues of one expression. Casts are registered for non-generated
   * code only; `as` expressions are registered everywhere.
   */
  function ExpressionIssues(e: CastLike, isGenerated: bool): (r: seq<nat>)
  {
    if e.CastExpression? && isGenerated then []
    else if IsIssue(CastedTo(e), CastedFrom(e)) then [e.location]
    else []
  }

  /**
   * A node is reported, once and at its own location, iff both types are
   * known, the source is an interface and the target a class other than
   * object (and, for a cast, the code is not generated).
   */
  lemma ExpressionIssuesSpec(e: CastLike, isGenerated: bool)
    ensures |ExpressionIssues(e, isGenerated)| <= 1
    ensures ExpressionIssues(e, isGenerated) != [] <==>
              (e.AsExpression? || !isGenerated) &&
              CastedTo(e).Some? && CastedFrom(e).Some? &&
              CastedFrom(e).value.kind == InterfaceKind &&
              CastedTo(e).value.kind == ClassKind && !CastedTo(e).value.isSystemObject
    ensures ExpressionIssues(e, isGenerated) != [] ==> ExpressionIssues(e, isGenerated)[0] == e.location
  {
  }

  /** The roles: a cast takes its type as target and its operand as source; `as` its right and its left. */
  lemma CastRoles(t: Option<TypeSymbol>, s: Option<TypeSymbol>, location: nat)
    ensures ExpressionIssues(CastExpression(t, s, location), false) == ExpressionIssues(AsExpression(s, t, location), false)
    ensures ExpressionIssues(AsExpression(s, t, location), false) != [] ==> ExpressionIssues(AsExpression(t, s, location), false) == []
  {
  }

  /** Generated code filters casts, not `as` expressions. */
  lemma GeneratedCodeFiltersCastsOnly(e: CastLike)
    ensures e.CastExpression? ==> ExpressionIssues(e, true) == []
    ensures e.AsExpression? ==> ExpressionIssues(e, true) == ExpressionIssues(e, false)
  {
  }

  /** Casting to object, or from a class, never reports. */
  lemma ObjectAndClassSourcesAreSilent(e: CastLike, isGenerated: bool)
    requires (CastedTo(e).Some? && CastedTo(e).value.isSystemObject) ||
             (CastedFrom(e).Some? && CastedFrom(e).value.kind == ClassKind)
    ensures ExpressionIssues(e, isGenerated) == []
  {
  }
}
