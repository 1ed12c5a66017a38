/**
 * The Visual Basic rule against parameters passed by reference (S2361): a
 * parameter with a ByRef modifier is reported at its identifier, quoting the
 * identifier's text.
 */
module ParameterUsesByRef {
  import opened Common

  datatype ModifierKind = ByRefKeyword | ByValKeyword | OptionalKeyword | ParamArrayKeyword | OtherModifier(code: nat)

  datatype Parameter = Parameter(modifiers: seq<ModifierKind>, identifierLocation: nat, identifierText: string)

  datatype ByRefIssue = ByRefIssue(location: nat, message: string)

  function ByRefMessage(name: string): string
  {
    "Refactor the code and pass \"" + name + "\" by value instead."
  }

  /** `parameter.Modifiers.Any(m => m.IsKind(SyntaxKind.ByRefKeyword))` */
  function AnyByRef(modifiers: seq<ModifierKind>): (r: bool)
    ensures r <==> exists i | 0 <= i < |modifiers| :: modifiers[i] == ByRefKeyword
  {
    if modifiers == [] then false
    else modifiers[0] == ByRefKeyword || AnyByRef(modifiers[1..])
  }

  /** The issues of one parameter node; nothing is analysed in generated code. */
  function ParameterIssues(p: Parameter, isGenerated: bool): seq<ByRefIssue>
  {
    if !isGenerated && AnyByRef(p.modifiers) then [ByRefIssue(p.identifierLocation, ByRefMessage(p.identifierText))]
    else []
  }

  /**
   * At most one issue per parameter, present iff the code is not generated
   * and some modifier is ByRef; it sits at the identifier and names it.
   */
  lemma ParameterIssuesSpec(p: Parameter, isGenerated: bool)
    ensures |ParameterIssues(p, isGenerated)| <= 1
    ensures ParameterIssues(p, isGenerated) != [] <==>
              !isGenerated && ByRefKeyword in p.modifiers
    ensures ParameterIssues(p, isGenerated) != [] ==>
              ParameterIssues(p, isGenerated)[0] == ByRefIssue(p.identifierLocation, ByRefMessage(p.identifierText))
  {
  }

  /** Several ByRef modifiers still give one issue, and the order of modifiers does not matter. */
  lemma ModifierOrderIsIrrelevant(p: Parameter, modifiers: seq<ModifierKind>)
    requires multiset(modifiers) == multiset(p.modifiers)
    ensures ParameterIssues(p.(modifiers := modifiers), false) == ParameterIssues(p, false)
  {
    assert ByRefKeyword in modifiers <==> ByRefKeyword in multiset(modifiers);
    assert ByRefKeyword in p.modifiers <==> ByRefKeyword in multiset(p.modifiers);
  }
}
