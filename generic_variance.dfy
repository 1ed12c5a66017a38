/**
 * The variance rule (GenericTypeParameterInOut, S3246): an invariant type
 * parameter of an interface or delegate is reported when it could be declared
 * "in" or "out" but not both. Whether it could is the C# variance-safety
 * check: every occurrence of the parameter in the declaration must be safe
 * for the candidate variance in the position it occurs in.
 */
module GenericVariance {
  import opened Common
  import opened Diagnostics

  datatype Variance = NoVariance | In | Out

  datatype TypeKind = ClassKind | StructKind | EnumKind | InterfaceKind | DelegateKind | ErrorKind | OtherKind

  /** A type symbol: a type parameter (by identity), an array, a named or error type, or anything else. */
  datatype TypeSymbol =
    | TypeParameterType(id: nat)
    | ArrayType(elementType: TypeSymbol)
    | Named(named: NamedTypeSymbol)
    | OtherType

  /**
   * A named type: its kind, the type-parameter slots of the type itself, and
   * the type it is nested in, if any.
   */
  datatype NamedTypeSymbol = NamedTypeSymbol(typeKind: TypeKind, slots: seq<Slot>, containingType: Option<NamedTypeSymbol>)

  /** One type parameter of a generic type, with its declared variance, and the type argument given for it. */
  datatype Slot = Slot(variance: Variance, argument: TypeSymbol)

  /** The leaf rule: the parameter itself is unsafe where its candidate variance conflicts with the required safety. */
  predicate LeafSafe(variance: Variance, requireOutputSafety: bool, requireInputSafety: bool)
  {
    !((requireInputSafety && requireOutputSafety && variance != NoVariance) ||
      (requireOutputSafety && variance == In) ||
      (requireInputSafety && variance == Out))
  }

  /** The safety required of a type argument: an out slot keeps it, an in slot swaps it, an invariant slot requires both. */
  function SlotRequirements(slotVariance: Variance, requireOutputSafety: bool, requireInputSafety: bool)
    : (r: (bool, bool))
    ensures slotVariance == NoVariance ==> r == (true, true)
    ensures slotVariance == Out ==> r == (requireOutputSafety, requireInputSafety)
    ensures slotVariance == In ==> r == (requireInputSafety, requireOutputSafety)
  {
    match slotVariance
    case Out => (requireOutputSafety, requireInputSafety)
    case In => (requireInputSafety, requireOutputSafety)
    case NoVariance => (true, true)
  }

  /**
   * CanTypeParameterBeVariant on a type: can the parameter take the
   * candidate variance given this occurrence, with the required safety?
   */
  function CanBeVariant(parameter: nat, variance: Variance, t: TypeSymbol,
                        requireOutputSafety: bool, requireInputSafety: bool): bool
    decreases t, 2
  {
    match t
    case TypeParameterType(id) =>
      id != parameter || LeafSafe(variance, requireOutputSafety, requireInputSafety)
    case ArrayType(e) => CanBeVariant(parameter, variance, e, requireOutputSafety, requireInputSafety)
    case Named(n) => CanBeVariantInNamed(parameter, variance, n, requireOutputSafety, requireInputSafety)
    case OtherType => true
  }

  /** The named-type overload: kinds other than class, struct, enum, interface, delegate and error are safe. */
  function CanBeVariantInNamed(parameter: nat, variance: Variance, n: NamedTypeSymbol,
                               requireOutputSafety: bool, requireInputSafety: bool): bool
    decreases n, 1
  {
    n.typeKind == OtherKind ||
    SlotsSafeFrom(parameter, variance, n, 0, requireOutputSafety, requireInputSafety)
  }

  /**
   * The walk over a named type's slots from slot i on, then over its
   * containing types' slots: a type argument other than the parameter fails at
   * once; the parameter itself must be safe with the requirements its slot
   * imposes.
   */
  function SlotsSafeFrom(parameter: nat, variance: Variance, n: NamedTypeSymbol, i: nat,
                         requireOutputSafety: bool, requireInputSafety: bool): bool
    decreases n, 0, |n.slots| - i
  {
    if i >= |n.slots| then
      match n.containingType
      case None => true
      case Some(c) => SlotsSafeFrom(parameter, variance, c, 0, requireOutputSafety, requireInputSafety)
    else
      var slot := n.slots[i];
      var req := SlotRequirements(slot.variance, requireOutputSafety, requireInputSafety);
      slot.argument == TypeParameterType(parameter) &&
      CanBeVariant(parameter, variance, slot.argument, req.0, req.1) &&
      SlotsSafeFrom(parameter, variance, n, i + 1, requireOutputSafety, requireInputSafety)
  }

  /**
   * The named-type overload as the source computes it: the walk out through
   * the containing types and the loop over each one's slots, returning false
   * at the first unsafe slot.
   */
  method CanTypeParameterBeVariantInNamed(parameter: nat, variance: Variance, namedType: NamedTypeSymbol,
                                          requireOutputSafety: bool, requireInputSafety: bool)
    returns (canBe: bool)
    ensures canBe == CanBeVariant(parameter, variance, Named(namedType), requireOutputSafety, requireInputSafety)
  {
    if namedType.typeKind == OtherKind {
      return true;
    }
    var current: Option<NamedTypeSymbol> := Some(namedType);
    while current.Some?
      invariant current.Some? ==>
                  SlotsSafeFrom(parameter, variance, current.value, 0, requireOutputSafety, requireInputSafety)
                  == CanBeVariant(parameter, variance, Named(namedType), requireOutputSafety, requireInputSafety)
      invariant current.None? ==> CanBeVariant(parameter, variance, Named(namedType), requireOutputSafety, requireInputSafety)
      decreases current
    {
      var n := current.value;
      var i := 0;
      while i < |n.slots|
        invariant 0 <= i <= |n.slots|
        invariant SlotsSafeFrom(parameter, variance, n, i, requireOutputSafety, requireInputSafety)
                  == CanBeVariant(parameter, variance, Named(namedType), requireOutputSafety, requireInputSafety)
      {
        var slot := n.slots[i];
        if slot.argument != TypeParameterType(parameter) {
          return false;
        }
        var req := SlotRequirements(slot.variance, requireOutputSafety, requireInputSafety);
        if !CanBeVariant(parameter, variance, slot.argument, req.0, req.1) {
          return false;
        }
        i := i + 1;
      }
      current := n.containingType;
    }
    return true;
  }

  /**
   * In and out are mirror images: the parameter can be contravariant with
   * some requirements exactly when it can be covariant with the output and
   * input requirements swapped.
   */
  lemma {:induction false} InOutDuality(parameter: nat, t: TypeSymbol, requireOutputSafety: bool,
                                         requireInputSafety: bool)
    ensures CanBeVariant(parameter, In, t, requireOutputSafety, requireInputSafety)
            == CanBeVariant(parameter, Out, t, requireInputSafety, requireOutputSafety)
    decreases t, 2
  {
    match t
    case TypeParameterType(id) =>
    case ArrayType(e) => InOutDuality(parameter, e, requireOutputSafety, requireInputSafety);
    case Named(n) => SlotsDuality(parameter, n, 0, requireOutputSafety, requireInputSafety);
    case OtherType =>
  }

  lemma {:induction false} SlotsDuality(parameter: nat, n: NamedTypeSymbol, i: nat,
                                         requireOutputSafety: bool, requireInputSafety: bool)
    ensures SlotsSafeFrom(parameter, In, n, i, requireOutputSafety, requireInputSafety)
            == SlotsSafeFrom(parameter, Out, n, i, requireInputSafety, requireOutputSafety)
    decreases n, 0, |n.slots| - i
  {
    if i >= |n.slots| {
      if n.containingType.Some? {
        SlotsDuality(parameter, n.containingType.value, 0, requireOutputSafety, requireInputSafety);
      }
    } else {
      var slot := n.slots[i];
      var req := SlotRequirements(slot.variance, requireOutputSafety, requireInputSafety);
      InOutDuality(parameter, slot.argument, req.0, req.1);
      SlotsDuality(parameter, n, i + 1, requireOutputSafety, requireInputSafety);
    }
  }

  /** Requiring less safety never turns a safe occurrence unsafe. */
  lemma {:induction false} WeakerRequirementsStaySafe(parameter: nat, variance: Variance, t: TypeSymbol,
                                                       o: bool, n: bool, o2: bool, n2: bool)
    requires o2 ==> o
    requires n2 ==> n
    requires CanBeVariant(parameter, variance, t, o, n)
    ensures CanBeVariant(parameter, variance, t, o2, n2)
    decreases t, 2
  {
    match t
    case TypeParameterType(id) =>
    case ArrayType(e) => WeakerRequirementsStaySafe(parameter, variance, e, o, n, o2, n2);
    case Named(nt) =>
      if nt.typeKind != OtherKind {
        WeakerSlotsStaySafe(parameter, variance, nt, 0, o, n, o2, n2);
      }
    case OtherType =>
  }

  lemma {:induction false} WeakerSlotsStaySafe(parameter: nat, variance: Variance, nt: NamedTypeSymbol, i: nat,
                                                o: bool, n: bool, o2: bool, n2: bool)
    requires o2 ==> o
    requires n2 ==> n
    requires SlotsSafeFrom(parameter, variance, nt, i, o, n)
    ensures SlotsSafeFrom(parameter, variance, nt, i, o2, n2)
    decreases nt, 0, |nt.slots| - i
  {
    if i >= |nt.slots| {
      if nt.containingType.Some? {
        WeakerSlotsStaySafe(parameter, variance, nt.containingType.value, 0, o, n, o2, n2);
      }
    } else {
      var slot := nt.slots[i];
      var req := SlotRequirements(slot.variance, o, n);
      var req2 := SlotRequirements(slot.variance, o2, n2);
      WeakerRequirementsStaySafe(parameter, variance, slot.argument, req.0, req.1, req2.0, req2.1);
      WeakerSlotsStaySafe(parameter, variance, nt, i + 1, o, n, o2, n2);
    }
  }

  /** A named type with a type argument other than the parameter rules out both variances. */
  lemma ForeignArgumentBlocksVariance(parameter: nat, variance: Variance, kind: TypeKind, other: TypeSymbol,
                                      o: bool, n: bool)
    requires kind != OtherKind && other != TypeParameterType(parameter)
    ensures !CanBeVariant(parameter, variance, Named(NamedTypeSymbol(kind, [Slot(Out, other)], None)), o, n)
  {
    var nt := NamedTypeSymbol(kind, [Slot(Out, other)], None);
    assert !SlotsSafeFrom(parameter, variance, nt, 0, o, n);
  }

  // -----------------------------------------------------------------------
  // Members, interfaces and delegates.

  /** A method or delegate parameter: its type, and whether it is passed by reference. */
  datatype Parameter = Parameter(parameterType: TypeSymbol, byRef: bool)

  datatype Member =
    | MethodMember(returnType: TypeSymbol, parameters: seq<Parameter>)
    | EventMember(eventType: TypeSymbol)
    | OtherMember

  /** A type parameter of the declared interface or delegate. */
  datatype TypeParameter = TypeParameter(id: nat, name: string, variance: Variance,
                                         constraintTypes: seq<TypeSymbol>, declaringSyntax: Option<Location>)

  datatype InterfaceSymbol = InterfaceSymbol(typeParameters: seq<TypeParameter>, allInterfaces: seq<NamedTypeSymbol>,
                                             members: seq<Member>)

  datatype DelegateSymbol = DelegateSymbol(typeParameters: seq<TypeParameter>)

  /** Every constraint type is input-safe. */
  predicate ConstraintsAllow(tp: TypeParameter, variance: Variance)
  {
    forall k | 0 <= k < |tp.constraintTypes| :: CanBeVariant(tp.id, variance, tp.constraintTypes[k], false, true)
  }

  /** Every parameter type is input-safe, and output-safe too when passed by reference. */
  predicate ParametersAllow(tp: TypeParameter, variance: Variance, parameters: seq<Parameter>)
  {
    forall k | 0 <= k < |parameters| ::
      CanBeVariant(tp.id, variance, parameters[k].parameterType, parameters[k].byRef, true)
  }

  /** A method: constraints, then an output-safe return type, then the parameters. */
  predicate MethodAllows(tp: TypeParameter, variance: Variance, returnType: TypeSymbol, parameters: seq<Parameter>)
  {
    ConstraintsAllow(tp, variance) && CanBeVariant(tp.id, variance, returnType, true, false) &&
    ParametersAllow(tp, variance, parameters)
  }

  /** An interface member: methods and events are checked, other members are not. */
  predicate MemberAllows(tp: TypeParameter, variance: Variance, m: Member)
  {
    match m
    case MethodMember(ret, ps) => MethodAllows(tp, variance, ret, ps)
    case EventMember(et) => CanBeVariant(tp.id, variance, et, false, true)
    case OtherMember => true
  }

  /** The interface overload of CheckTypeParameter: an invariant parameter, output-safe in every base interface, allowed by every member. */
  predicate InterfaceAllows(tp: TypeParameter, variance: Variance, iface: InterfaceSymbol)
  {
    tp.variance == NoVariance &&
    (forall k | 0 <= k < |iface.allInterfaces| :: CanBeVariant(tp.id, variance, Named(iface.allInterfaces[k]), true, false)) &&
    (forall k | 0 <= k < |iface.members| :: MemberAllows(tp, variance, iface.members[k]))
  }

  /** CheckTypeParameterContraintsInSymbol: an early-exit loop over the constraint types. */
  method CheckTypeParameterConstraints(tp: TypeParameter, variance: Variance) returns (canBe: bool)
    ensures canBe == ConstraintsAllow(tp, variance)
  {
    var k := 0;
    while k < |tp.constraintTypes|
      invariant 0 <= k <= |tp.constraintTypes|
      invariant forall l | 0 <= l < k :: CanBeVariant(tp.id, variance, tp.constraintTypes[l], false, true)
    {
      if !CanBeVariant(tp.id, variance, tp.constraintTypes[k], false, true) {
        return false;
      }
      k := k + 1;
    }
    return true;
  }

  /** CheckTypeParameterInParameters: an early-exit loop over the parameters. */
  method CheckTypeParameterInParameters(tp: TypeParameter, variance: Variance, parameters: seq<Parameter>)
    returns (canBe: bool)
    ensures canBe == ParametersAllow(tp, variance, parameters)
  {
    var k := 0;
    while k < |parameters|
      invariant 0 <= k <= |parameters|
      invariant forall l | 0 <= l < k :: CanBeVariant(tp.id, variance, parameters[l].parameterType, parameters[l].byRef, true)
    {
      if !CanBeVariant(tp.id, variance, parameters[k].parameterType, parameters[k].byRef, true) {
        return false;
      }
      k := k + 1;
    }
    return true;
  }

  /** CheckTypeParameterInMethod, and the delegate overload of CheckTypeParameter, which checks the same three things. */
  method CheckTypeParameterInMethod(tp: TypeParameter, variance: Variance, returnType: TypeSymbol,
                                    parameters: seq<Parameter>)
    returns (canBe: bool)
    ensures canBe == MethodAllows(tp, variance, returnType, parameters)
  {
    canBe := CheckTypeParameterConstraints(tp, variance);
    if !canBe {
      return false;
    }
    canBe := CanBeVariant(tp.id, variance, returnType, true, false);
    if !canBe {
      return false;
    }
    canBe := CheckTypeParameterInParameters(tp, variance, parameters);
  }

  /** The interface overload of CheckTypeParameter. */
  method CheckTypeParameterInInterface(tp: TypeParameter, variance: Variance, iface: InterfaceSymbol)
    returns (canBe: bool)
    ensures canBe == InterfaceAllows(tp, variance, iface)
  {
    if tp.variance != NoVariance {
      return false;
    }
    var k := 0;
    while k < |iface.allInterfaces|
      invariant 0 <= k <= |iface.allInterfaces|
      invariant forall l | 0 <= l < k :: CanBeVariant(tp.id, variance, Named(iface.allInterfaces[l]), true, false)
    {
      var canBeVariant := CanTypeParameterBeVariantInNamed(tp.id, variance, iface.allInterfaces[k], true, false);
      if !canBeVariant {
        return false;
      }
      k := k + 1;
    }
    k := 0;
    while k < |iface.members|
      invariant 0 <= k <= |iface.members|
      invariant forall l | 0 <= l < k :: MemberAllows(tp, variance, iface.members[l])
    {
      match iface.members[k] {
        case MethodMember(ret, ps) =>
          var canBeVariant := CheckTypeParameterInMethod(tp, variance, ret, ps);
          if !canBeVariant {
            return false;
          }
        case EventMember(et) =>
          if !CanBeVariant(tp.id, variance, et, false, true) {
            return false;
          }
        case OtherMember =>
      }
      k := k + 1;
    }
    return true;
  }

  // -----------------------------------------------------------------------
  // Reporting.

  /**
   * What is reported for an invariant type parameter: one issue at its
   * declaration when exactly one variance is possible, naming that one; none
   * when the parameter has no declaring syntax.
   */
  function ReportFor(tp: TypeParameter, canBeIn: bool, canBeOut: bool): (r: seq<Issue>)
    ensures |r| <= 1
    ensures r != [] <==> canBeIn != canBeOut && tp.declaringSyntax.Some?
    ensures r != [] ==> r[0].location == tp.declaringSyntax.value
    ensures r != [] && canBeIn ==> r[0].messageArgs == ["in", tp.name, "contravariant"]
    ensures r != [] && canBeOut ==> r[0].messageArgs == ["out", tp.name, "covariant"]
  {
    if canBeIn == canBeOut || tp.declaringSyntax.None? then []
    else if canBeIn then [Issue(tp.declaringSyntax.value, ["in", tp.name, "contravariant"])]
    else [Issue(tp.declaringSyntax.value, ["out", tp.name, "covariant"])]
  }

  /** The issue for one type parameter of an interface: only an invariant one is considered. */
  function InterfaceIssueFor(tp: TypeParameter, iface: InterfaceSymbol): seq<Issue>
  {
    if tp.variance == NoVariance
    then ReportFor(tp, InterfaceAllows(tp, In, iface), InterfaceAllows(tp, Out, iface))
    else []
  }

  /** The body of the loop over an interface's type parameters. */
  method CheckInterfaceTypeParameter(tp: TypeParameter, iface: InterfaceSymbol) returns (issues: seq<Issue>)
    ensures issues == InterfaceIssueFor(tp, iface)
  {
    issues := [];
    if tp.variance == NoVariance {
      var canBeIn := CheckTypeParameterInInterface(tp, In, iface);
      var canBeOut := CheckTypeParameterInInterface(tp, Out, iface);
      issues := ReportFor(tp, canBeIn, canBeOut);
    }
  }

  /** The issues for an interface: each invariant type parameter, in order. */
  function InterfaceIssues(iface: InterfaceSymbol, k: nat): seq<Issue>
    requires k <= |iface.typeParameters|
    decreases |iface.typeParameters| - k
  {
    if k == |iface.typeParameters| then []
    else
      InterfaceIssueFor(iface.typeParameters[k], iface) + InterfaceIssues(iface, k + 1)
  }

  /** CheckInterfaceVariance: nothing when the interface symbol is unknown. */
  method CheckInterfaceVariance(interfaceType: Option<InterfaceSymbol>) returns (issues: seq<Issue>)
    ensures interfaceType.None? ==> issues == []
    ensures interfaceType.Some? ==> issues == InterfaceIssues(interfaceType.value, 0)
  {
    if interfaceType.None? {
      return [];
    }
    var iface := interfaceType.value;
    issues := [];
    var k := 0;
    while k < |iface.typeParameters|
      invariant 0 <= k <= |iface.typeParameters|
      invariant issues + InterfaceIssues(iface, k) == InterfaceIssues(iface, 0)
    {
      var step := CheckInterfaceTypeParameter(iface.typeParameters[k], iface);
      issues := issues + step;
      k := k + 1;
    }
    assert issues + [] == issues;
  }

  /** The issue for one type parameter of a delegate: only an invariant one is considered. */
  function DelegateIssueFor(tp: TypeParameter, returnType: TypeSymbol, parameters: seq<Parameter>): seq<Issue>
  {
    if tp.variance == NoVariance
    then ReportFor(tp, MethodAllows(tp, In, returnType, parameters), MethodAllows(tp, Out, returnType, parameters))
    else []
  }

  /** The body of the loop over a delegate's type parameters. */
  method CheckDelegateTypeParameter(tp: TypeParameter, returnType: TypeSymbol, parameters: seq<Parameter>)
    returns (issues: seq<Issue>)
    ensures issues == DelegateIssueFor(tp, returnType, parameters)
  {
    issues := [];
    if tp.variance == NoVariance {
      var canBeIn := CheckTypeParameterInMethod(tp, In, returnType, parameters);
      var canBeOut := CheckTypeParameterInMethod(tp, Out, returnType, parameters);
      issues := ReportFor(tp, canBeIn, canBeOut);
    }
  }

  /** The issues for a delegate with its return type and parameters: each invariant type parameter, in order. */
  function DelegateIssues(d: DelegateSymbol, returnType: TypeSymbol, parameters: seq<Parameter>, k: nat)
    : seq<Issue>
    requires k <= |d.typeParameters|
    decreases |d.typeParameters| - k
  {
    if k == |d.typeParameters| then []
    else
      DelegateIssueFor(d.typeParameters[k], returnType, parameters) + DelegateIssues(d, returnType, parameters, k + 1)
  }

  /** All parameter symbols are known. */
  predicate AllKnown(parameterSymbols: seq<Option<Parameter>>)
  {
    forall k | 0 <= k < |parameterSymbols| :: parameterSymbols[k].Some?
  }

  function KnownParameters(parameterSymbols: seq<Option<Parameter>>): (r: seq<Parameter>)
    requires AllKnown(parameterSymbols)
    ensures |r| == |parameterSymbols| && forall k | 0 <= k < |r| :: parameterSymbols[k] == Some(r[k])
  {
    seq(|parameterSymbols|, k requires 0 <= k < |parameterSymbols| => parameterSymbols[k].value)
  }

  /** The parameter symbols when every one is known, and None when any is not. */
  method CollectParameters(parameterSymbols: seq<Option<Parameter>>) returns (r: Option<seq<Parameter>>)
    ensures r.None? <==> !AllKnown(parameterSymbols)
    ensures r.Some? ==> r.value == KnownParameters(parameterSymbols)
  {
    var k := 0;
    while k < |parameterSymbols|
      invariant 0 <= k <= |parameterSymbols|
      invariant forall l | 0 <= l < k :: parameterSymbols[l].Some?
    {
      if parameterSymbols[k].None? {
        return None;
      }
      k := k + 1;
    }
    return Some(KnownParameters(parameterSymbols));
  }

  /** The loop over a delegate's type parameters, reporting each invariant one that could be exactly one of in and out. */
  method CheckDelegateTypeParameters(d: DelegateSymbol, returnType: TypeSymbol, parameters: seq<Parameter>)
    returns (issues: seq<Issue>)
    ensures issues == DelegateIssues(d, returnType, parameters, 0)
  {
    issues := [];
    var k := 0;
    while k < |d.typeParameters|
      invariant 0 <= k <= |d.typeParameters|
      invariant issues + DelegateIssues(d, returnType, parameters, k) == DelegateIssues(d, returnType, parameters, 0)
    {
      var step := CheckDelegateTypeParameter(d.typeParameters[k], returnType, parameters);
      issues := issues + step;
      k := k + 1;
    }
    assert issues + [] == issues;
  }

  /**
   * CheckDelegateVariance: nothing when the delegate symbol, its return type
   * or any parameter symbol is unknown; a missing parameter list has no
   * parameters.
   */
  method CheckDelegateVariance(declaredSymbol: Option<DelegateSymbol>, returnType: Option<TypeSymbol>,
                               parameterList: Option<seq<Option<Parameter>>>)
    returns (issues: seq<Issue>)
    ensures declaredSymbol.None? || returnType.None? ==> issues == []
    ensures parameterList.Some? && !AllKnown(parameterList.value) ==> issues == []
    ensures declaredSymbol.Some? && returnType.Some? && parameterList.None? ==>
              issues == DelegateIssues(declaredSymbol.value, returnType.value, [], 0)
    ensures declaredSymbol.Some? && returnType.Some? && parameterList.Some? && AllKnown(parameterList.value) ==>
              issues == DelegateIssues(declaredSymbol.value, returnType.value, KnownParameters(parameterList.value), 0)
  {
    if declaredSymbol.None? || returnType.None? {
      return [];
    }
    var parameters: seq<Parameter> := [];
    if parameterList.Some? {
      var known := CollectParameters(parameterList.value);
      if known.None? {
        return [];
      }
      parameters := known.value;
    }
    issues := CheckDelegateTypeParameters(declaredSymbol.value, returnType.value, parameters);
  }

  /** A parameter with a variance already declared is never reported. */
  lemma {:induction false} InterfaceIssuesOnlyForInvariant(iface: InterfaceSymbol, k: nat)
    requires k <= |iface.typeParameters|
    requires forall l | k <= l < |iface.typeParameters| :: iface.typeParameters[l].variance != NoVariance
    ensures InterfaceIssues(iface, k) == []
    decreases |iface.typeParameters| - k
  {
    if k < |iface.typeParameters| {
      InterfaceIssuesOnlyForInvariant(iface, k + 1);
    }
  }

  /** interface IProducer<T> { T Get(); }: T is reported as able to be "out". */
  lemma ProducerInterfaceReportsOut(loc: Location)
    ensures var tp := TypeParameter(0, "T", NoVariance, [], Some(loc));
            InterfaceIssues(InterfaceSymbol([tp], [], [MethodMember(TypeParameterType(0), [])]), 0)
            == [Issue(loc, ["out", "T", "covariant"])]
  {
    var tp := TypeParameter(0, "T", NoVariance, [], Some(loc));
    var iface := InterfaceSymbol([tp], [], [MethodMember(TypeParameterType(0), [])]);
    assert !InterfaceAllows(tp, In, iface) by {
      assert !MemberAllows(tp, In, iface.members[0]);
    }
    assert InterfaceAllows(tp, Out, iface);
  }

  /** interface IConsumer<T> { void Put(T t); }: T is reported as able to be "in". */
  lemma ConsumerInterfaceReportsIn(loc: Location)
    ensures var tp := TypeParameter(0, "T", NoVariance, [], Some(loc));
            InterfaceIssues(InterfaceSymbol([tp], [], [MethodMember(OtherType, [Parameter(TypeParameterType(0), false)])]), 0)
            == [Issue(loc, ["in", "T", "contravariant"])]
  {
    var tp := TypeParameter(0, "T", NoVariance, [], Some(loc));
    var ps := [Parameter(TypeParameterType(0), false)];
    var iface := InterfaceSymbol([tp], [], [MethodMember(OtherType, ps)]);
    assert !InterfaceAllows(tp, Out, iface) by {
      assert !CanBeVariant(0, Out, ps[0].parameterType, ps[0].byRef, true);
      assert !ParametersAllow(tp, Out, ps);
      assert !MemberAllows(tp, Out, iface.members[0]);
    }
    assert InterfaceAllows(tp, In, iface);
  }
}
