/**
 * The rule that a property which only reads and writes one field should be
 * an auto-property (S2292). A property is reported when it has exactly a
 * get and a set accessor, the getter returns a field, the setter assigns the
 * implicit `value` parameter to the same field, and that field has no
 * attributes and agrees with the property on static-ness and type.
 *
 * What the semantic model binds an expression to is a field of the
 * expression; symbols are compared by value.
 */
module PropertyToAutoProperty {
  import opened Common

  type TypeId = nat

  datatype FieldSymbol = FieldSymbol(id: nat, hasAttributes: bool, isStatic: bool, fieldType: TypeId)

  /** What an expression binds to: a field, a parameter, a named type or something else. */
  datatype Symbol =
    | FieldSym(field: FieldSymbol)
    | ParameterSym(name: string, isImplicitlyDeclared: bool)
    | NamedTypeSym(typeId: TypeId)
    | OtherSym

  datatype MemberAccessKind = SimpleMemberAccess | PointerMemberAccess

  datatype AssignmentKind = SimpleAssignment | CompoundAssignment

  datatype Expression =
    | IdentifierName(name: string, symbol: Option<Symbol>)
    | MemberAccess(accessKind: MemberAccessKind, target: Expression, accessSymbol: Option<Symbol>)
    | ThisExpression
    | AssignmentExpression(assignmentKind: AssignmentKind, left: Expression, right: Expression)
    | OtherExpression(otherSymbol: Option<Symbol>)

  datatype Statement =
    | ExpressionStatement(expression: Expression)
    | ReturnStatement(returned: Option<Expression>)
    | OtherStatement

  datatype AccessorKind = GetAccessor | SetAccessor | AddAccessor | RemoveAccessor

  /** An accessor: its kind, its block body if any, and the type declaring it. */
  datatype Accessor = Accessor(kind: AccessorKind, body: Option<seq<Statement>>, containingType: TypeId)

  datatype PropertySymbol = PropertySymbol(isStatic: bool, propertyType: TypeId)

  datatype PropertyDeclaration = PropertyDeclaration(accessorList: Option<seq<Accessor>>,
                                                     symbol: Option<PropertySymbol>,
                                                     identifierLocation: nat)

  /** `GetSymbolInfo(expression).Symbol` */
  function SymbolOf(e: Expression): Option<Symbol>
  {
    match e
    case IdentifierName(_, s) => s
    case MemberAccess(_, _, s) => s
    case ThisExpression => None
    case AssignmentExpression(_, _, _) => None
    case OtherExpression(s) => s
  }

  /** `GetSymbolInfo(expression).Symbol as IFieldSymbol` */
  function FieldOf(e: Expression): Option<FieldSymbol>
  {
    var s := SymbolOf(e);
    if s.Some? && s.value.FieldSym? then Some(s.value.field) else None
  }

  /** TryGetField: the field named by a bare identifier, by `this.X`, or by `T.X` with T the declaring type. */
  function TryGetField(e: Expression, declaringType: TypeId): Option<FieldSymbol>
  {
    if e.IdentifierName? then FieldOf(e)
    else if !e.MemberAccess? || e.accessKind != SimpleMemberAccess then None
    else if e.target.ThisExpression? then FieldOf(e)
    else if !e.target.IdentifierName? then None
    else
      var t := e.target.symbol;
      if t.None? || !t.value.NamedTypeSym? || t.value.typeId != declaringType then None
      else FieldOf(e)
  }

  /** The accepted shapes of a field reference, stated on their own. */
  predicate NamesField(e: Expression, declaringType: TypeId, f: FieldSymbol)
  {
    SymbolOf(e) == Some(FieldSym(f)) &&
    (e.IdentifierName? ||
     (e.MemberAccess? && e.accessKind == SimpleMemberAccess &&
      (e.target.ThisExpression? ||
       (e.target.IdentifierName? && e.target.symbol == Some(NamedTypeSym(declaringType))))))
  }

  /** TryGetField finds exactly the fields those three shapes name, and nothing else. */
  lemma TryGetFieldAcceptsExactly(e: Expression, declaringType: TypeId, f: FieldSymbol)
    ensures TryGetField(e, declaringType) == Some(f) <==> NamesField(e, declaringType, f)
  {
  }

  /** TryGetFieldFromGetter: the body is one `return` of an expression naming a field. */
  function FieldFromGetter(getter: Accessor): Option<FieldSymbol>
  {
    if getter.body.None? || |getter.body.value| != 1 then None
    else
      var statement := getter.body.value[0];
      if !statement.ReturnStatement? || statement.returned.None? then None
      else TryGetField(statement.returned.value, getter.containingType)
  }

  /** The implicit `value` parameter of a setter. */
  predicate IsImplicitValue(s: Option<Symbol>)
  {
    s.Some? && s.value.ParameterSym? && s.value.name == "value" && s.value.isImplicitlyDeclared
  }

  /** TryGetFieldFromSetter: the body is one simple assignment of `value` to an expression naming a field. */
  function FieldFromSetter(setter: Accessor): Option<FieldSymbol>
  {
    if setter.body.None? || |setter.body.value| != 1 then None
    else
      var statement := setter.body.value[0];
      if !statement.ExpressionStatement? then None
      else
        var assignment := statement.expression;
        if !assignment.AssignmentExpression? || assignment.assignmentKind != SimpleAssignment then None
        else if !IsImplicitValue(SymbolOf(assignment.right)) then None
        else TryGetField(assignment.left, setter.containingType)
  }

  /** `Accessors.FirstOrDefault(a => a.IsKind(kind))` */
  function FirstOfKind(accessors: seq<Accessor>, kind: AccessorKind): (r: Option<Accessor>)
    ensures r.Some? ==> r.value in accessors && r.value.kind == kind
    ensures r.None? ==> forall j | 0 <= j < |accessors| :: accessors[j].kind != kind
  {
    if accessors == [] then None
    else if accessors[0].kind == kind then Some(accessors[0])
    else FirstOfKind(accessors[1..], kind)
  }

  /** The syntax-node action on a property declaration: the identifier's location when it is reported. */
  function PropertyIssue(p: PropertyDeclaration): Option<nat>
  {
    if p.accessorList.None? || |p.accessorList.value| != 2 || p.symbol.None? then None
    else
      var getter := FirstOfKind(p.accessorList.value, GetAccessor);
      var setter := FirstOfKind(p.accessorList.value, SetAccessor);
      if getter.None? || setter.None? then None
      else
        var getterField := FieldFromGetter(getter.value);
        var setterField := FieldFromSetter(setter.value);
        if getterField.Some? && setterField.Some? && getterField == setterField &&
           !getterField.value.hasAttributes &&
           getterField.value.isStatic == p.symbol.value.isStatic &&
           getterField.value.fieldType == p.symbol.value.propertyType
        then Some(p.identifierLocation)
        else None
  }

  /** The issues of a property; nothing is analysed in generated code. */
  function PropertyIssues(p: PropertyDeclaration, isGenerated: bool): seq<nat>
  {
    if isGenerated then [] else OptionToSeq(PropertyIssue(p))
  }

  /** The getter is one `return` of an expression naming f. */
  ghost predicate GetterReturns(getter: Accessor, f: FieldSymbol)
  {
    getter.body.Some? &&
    exists e :: getter.body.value == [ReturnStatement(Some(e))] && NamesField(e, getter.containingType, f)
  }

  /** The setter is one statement assigning `value` to an expression naming f. */
  ghost predicate SetterAssignsValue(setter: Accessor, f: FieldSymbol)
  {
    setter.body.Some? &&
    exists left, right :: setter.body.value == [ExpressionStatement(AssignmentExpression(SimpleAssignment, left, right))] &&
                          IsImplicitValue(SymbolOf(right)) && NamesField(left, setter.containingType, f)
  }

  /**
   * The property could be an auto-property: exactly a get and a set accessor, the getter returning
   * and the setter assigning `value` to one unattributed field of its staticness and type.
   */
  ghost predicate Convertible(p: PropertyDeclaration)
  {
    p.accessorList.Some? && p.symbol.Some? &&
    exists getter, setter, f ::
      (p.accessorList.value == [getter, setter] || p.accessorList.value == [setter, getter]) &&
      getter.kind == GetAccessor && setter.kind == SetAccessor &&
      GetterReturns(getter, f) && SetterAssignsValue(setter, f) &&
      !f.hasAttributes && f.isStatic == p.symbol.value.isStatic && f.fieldType == p.symbol.value.propertyType
  }

  lemma FieldFromGetterSpec(getter: Accessor, f: FieldSymbol)
    ensures FieldFromGetter(getter) == Some(f) <==> GetterReturns(getter, f)
  {
    if FieldFromGetter(getter) == Some(f) {
      var e := getter.body.value[0].returned.value;
      TryGetFieldAcceptsExactly(e, getter.containingType, f);
      assert getter.body.value == [ReturnStatement(Some(e))];
    }
    if GetterReturns(getter, f) {
      var e :| getter.body.value == [ReturnStatement(Some(e))] && NamesField(e, getter.containingType, f);
      TryGetFieldAcceptsExactly(e, getter.containingType, f);
    }
  }

  lemma FieldFromSetterSpec(setter: Accessor, f: FieldSymbol)
    ensures FieldFromSetter(setter) == Some(f) <==> SetterAssignsValue(setter, f)
  {
    if FieldFromSetter(setter) == Some(f) {
      var assignment := setter.body.value[0].expression;
      TryGetFieldAcceptsExactly(assignment.left, setter.containingType, f);
      assert setter.body.value == [ExpressionStatement(AssignmentExpression(SimpleAssignment, assignment.left, assignment.right))];
    }
    if SetterAssignsValue(setter, f) {
      var left, right :| setter.body.value == [ExpressionStatement(AssignmentExpression(SimpleAssignment, left, right))] &&
                         IsImplicitValue(SymbolOf(right)) && NamesField(left, setter.containingType, f);
      TryGetFieldAcceptsExactly(left, setter.containingType, f);
    }
  }

  /** Two accessors hold a get and a set exactly when the first of each kind exists. */
  lemma GetAndSetOfTwo(accessors: seq<Accessor>)
    requires |accessors| == 2
    ensures (FirstOfKind(accessors, GetAccessor).Some? && FirstOfKind(accessors, SetAccessor).Some?) <==>
            ((accessors[0].kind == GetAccessor && accessors[1].kind == SetAccessor) ||
             (accessors[0].kind == SetAccessor && accessors[1].kind == GetAccessor))
    ensures accessors[0].kind == GetAccessor && accessors[1].kind == SetAccessor ==>
              FirstOfKind(accessors, GetAccessor) == Some(accessors[0]) && FirstOfKind(accessors, SetAccessor) == Some(accessors[1])
    ensures accessors[0].kind == SetAccessor && accessors[1].kind == GetAccessor ==>
              FirstOfKind(accessors, GetAccessor) == Some(accessors[1]) && FirstOfKind(accessors, SetAccessor) == Some(accessors[0])
  {
    assert accessors[1..] == [accessors[1]];
    assert accessors[1..][1..] == [];
  }

  lemma ReportedIsConvertible(p: PropertyDeclaration)
    requires PropertyIssue(p).Some?
    ensures Convertible(p)
  {
    var accessors := p.accessorList.value;
    GetAndSetOfTwo(accessors);
    assert accessors == [accessors[0], accessors[1]];
    var getter := FirstOfKind(accessors, GetAccessor).value;
    var setter := FirstOfKind(accessors, SetAccessor).value;
    var f := FieldFromGetter(getter).value;
    FieldFromGetterSpec(getter, f);
    FieldFromSetterSpec(setter, f);
  }

  lemma ConvertibleIsReported(p: PropertyDeclaration)
    requires Convertible(p)
    ensures PropertyIssue(p).Some?
  {
    var accessors := p.accessorList.value;
    var getter, setter, f :|
      (accessors == [getter, setter] || accessors == [setter, getter]) &&
      getter.kind == GetAccessor && setter.kind == SetAccessor &&
      GetterReturns(getter, f) && SetterAssignsValue(setter, f) &&
      !f.hasAttributes && f.isStatic == p.symbol.value.isStatic && f.fieldType == p.symbol.value.propertyType;
    assert |accessors| == 2 && accessors[0] in {getter, setter} && accessors[1] in {getter, setter};
    GetAndSetOfTwo(accessors);
    FieldFromGetterSpec(getter, f);
    FieldFromSetterSpec(setter, f);
    ReportedFromParts(p, getter, setter, f);
  }

  /** The report, from the first get and set accessors naming the same suitable field. */
  lemma ReportedFromParts(p: PropertyDeclaration, getter: Accessor, setter: Accessor, f: FieldSymbol)
    requires p.accessorList.Some? && |p.accessorList.value| == 2 && p.symbol.Some?
    requires FirstOfKind(p.accessorList.value, GetAccessor) == Some(getter)
    requires FirstOfKind(p.accessorList.value, SetAccessor) == Some(setter)
    requires FieldFromGetter(getter) == Some(f) && FieldFromSetter(setter) == Some(f)
    requires !f.hasAttributes && f.isStatic == p.symbol.value.isStatic && f.fieldType == p.symbol.value.propertyType
    ensures PropertyIssue(p) == Some(p.identifierLocation)
  {
  }

  /** A property is reported iff it is convertible, and then at its identifier. */
  lemma PropertyIssueIffConvertible(p: PropertyDeclaration)
    ensures PropertyIssue(p).Some? <==> Convertible(p)
    ensures PropertyIssue(p).Some? ==> PropertyIssue(p).value == p.identifierLocation
  {
    if PropertyIssue(p).Some? {
      ReportedIsConvertible(p);
    }
    if Convertible(p) {
      ConvertibleIsReported(p);
    }
  }

  /** A reported property has exactly two accessors, one get and one set. */
  lemma ReportedPropertiesHaveGetAndSet(p: PropertyDeclaration)
    requires PropertyIssue(p).Some?
    ensures p.accessorList.Some? && |p.accessorList.value| == 2
    ensures exists i, j | 0 <= i < 2 && 0 <= j < 2 :: p.accessorList.value[i].kind == GetAccessor &&
                                                     p.accessorList.value[j].kind == SetAccessor
  {
    GetAndSetOfTwo(p.accessorList.value);
    if p.accessorList.value[0].kind == GetAccessor {
      assert p.accessorList.value[1].kind == SetAccessor;
    } else {
      assert p.accessorList.value[1].kind == GetAccessor;
    }
  }

  /** A field with attributes is never reported, whatever the accessors. */
  lemma AttributedFieldIsNotReported(p: PropertyDeclaration, f: FieldSymbol)
    requires f.hasAttributes
    requires p.accessorList.Some? && |p.accessorList.value| == 2
    requires FirstOfKind(p.accessorList.value, GetAccessor).Some?
    requires FieldFromGetter(FirstOfKind(p.accessorList.value, GetAccessor).value) == Some(f)
    ensures PropertyIssue(p).None?
  {
  }

  /** No property reports in generated code. */
  lemma GeneratedCodeIsSkipped(p: PropertyDeclaration)
    ensures PropertyIssues(p, true) == []
    ensures |PropertyIssues(p, false)| <= 1
  {
  }
}
