/**
 * The member-shadowing rule (S2387): a field, property or method whose name
 * equals, up to case, the name of a non-private member of a base type is
 * reported at its identifier, once, naming the first base type with such a
 * member. Overrides, interface implementations and methods named "Equals"
 * are never reported.
 */
module MemberShadows {
  import opened Common

  datatype MemberSymbol = MemberSymbol(name: string, isPrivate: bool)

  /** A named type with its members and its base type; an error type ends the walk. */
  datatype TypeSymbol = TypeSymbol(name: string, members: seq<MemberSymbol>, isError: bool, baseType: Option<TypeSymbol>)

  /**
   * The declared symbol of the checked member. Whether it implements a member
   * of an interface of its containing type is a semantic query, given here.
   */
  datatype CheckedMember = CheckedMember(name: string, isOverride: bool, implementsInterfaceMember: bool,
                                         containingBaseType: Option<TypeSymbol>)

  datatype ShadowIssue = ShadowIssue(location: nat, message: string)

  /** `"{0}" is the name of a member in "{1}"` */
  function MatchMessage(memberName: string, baseName: string): string
  {
    "\"" + memberName + "\" is the name of a member in \"" + baseName + "\""
  }

  /** `"{0}" differs only by case from "{2}" in "{1}".` */
  function SimilarMessage(memberName: string, baseName: string, similarName: string): string
  {
    "\"" + memberName + "\" differs only by case from \"" + similarName + "\" in \"" + baseName + "\"."
  }

  /**
   * The non-private members whose lowered name is the given one, in
   * declaration order. Lowering keeps the length, so names of another length
   * are passed over without lowering them.
   */
  function SimilarMembers(members: seq<MemberSymbol>, nameLowered: string): seq<MemberSymbol>
  {
    if members == [] then []
    else
      (if !members[0].isPrivate && |members[0].name| == |nameLowered| && Lower(members[0].name) == nameLowered
       then [members[0]] else []) +
      SimilarMembers(members[1..], nameLowered)
  }

  /** SimilarMembers keeps exactly the non-private members with that lowered name; private members never count. */
  lemma {:induction false} SimilarMembersSelect(members: seq<MemberSymbol>, nameLowered: string)
    ensures forall m :: m in SimilarMembers(members, nameLowered) <==>
                        m in members && !m.isPrivate && Lower(m.name) == nameLowered
  {
    if members != [] {
      SimilarMembersSelect(members[1..], nameLowered);
      assert members == [members[0]] + members[1..];
    }
  }

  predicate HasExactName(similar: seq<MemberSymbol>, name: string)
  {
    exists k | 0 <= k < |similar| :: similar[k].name == name
  }

  /** The message for a base type with similar members: an exact name wins, otherwise the first similar one is named. */
  function HitMessage(name: string, baseType: TypeSymbol, similar: seq<MemberSymbol>): string
    requires similar != []
  {
    if HasExactName(similar, name) then MatchMessage(name, baseType.name)
    else SimilarMessage(name, baseType.name, similar[0].name)
  }

  /** The walk from a base type: the message at the first base type with a similar member, if any. */
  function ShadowReport(name: string, baseType: Option<TypeSymbol>): Option<string>
    decreases baseType
  {
    if baseType.None? || baseType.value.isError then None
    else
      var similar := SimilarMembers(baseType.value.members, Lower(name));
      if similar != [] then Some(HitMessage(name, baseType.value, similar))
      else ShadowReport(name, baseType.value.baseType)
  }

  /** The base types the walk can visit: from the immediate base up to the first missing or error type. */
  function BaseChain(baseType: Option<TypeSymbol>): (r: seq<TypeSymbol>)
    ensures forall k | 0 <= k < |r| :: !r[k].isError
    decreases baseType
  {
    if baseType.None? || baseType.value.isError then []
    else [baseType.value] + BaseChain(baseType.value.baseType)
  }

  predicate HasSimilar(t: TypeSymbol, name: string)
  {
    SimilarMembers(t.members, Lower(name)) != []
  }

  ghost predicate NoHit(chain: seq<TypeSymbol>, name: string)
  {
    forall k | 0 <= k < |chain| :: !HasSimilar(chain[k], name)
  }

  ghost predicate FirstHitAt(chain: seq<TypeSymbol>, name: string, k: nat)
  {
    k < |chain| && HasSimilar(chain[k], name) && forall l | 0 <= l < k :: !HasSimilar(chain[l], name)
  }

  /** The walk against the chain of base types: nothing is reported iff no base type in the chain has a similar member. */
  lemma {:induction false} NoReportIffNoHit(name: string, baseType: Option<TypeSymbol>)
    ensures ShadowReport(name, baseType).None? <==> NoHit(BaseChain(baseType), name)
    decreases baseType
  {
    if !(baseType.None? || baseType.value.isError) {
      var b := baseType.value;
      NoReportIffNoHit(name, b.baseType);
      var chain := BaseChain(baseType);
      var rest := BaseChain(b.baseType);
      assert chain == [b] + rest;
      if NoHit(rest, name) && !HasSimilar(b, name) {
        forall k | 0 <= k < |chain| ensures !HasSimilar(chain[k], name) {
          if k > 0 {
            assert chain[k] == rest[k - 1];
          }
        }
      }
      if NoHit(chain, name) {
        assert !HasSimilar(chain[0], name);
        forall k | 0 <= k < |rest| ensures !HasSimilar(rest[k], name) {
          assert rest[k] == chain[k + 1];
        }
      }
    }
  }

  /** Otherwise the report is the message for the first base type in the chain that has a similar member. */
  lemma {:induction false} ReportIsFirstHit(name: string, baseType: Option<TypeSymbol>, k: nat)
    requires FirstHitAt(BaseChain(baseType), name, k)
    ensures var t := BaseChain(baseType)[k];
            ShadowReport(name, baseType) == Some(HitMessage(name, t, SimilarMembers(t.members, Lower(name))))
    decreases k
  {
    var b := baseType.value;
    var chain := BaseChain(baseType);
    var rest := BaseChain(b.baseType);
    assert chain == [b] + rest;
    if k > 0 {
      assert !HasSimilar(chain[0], name);
      assert FirstHitAt(rest, name, k - 1) by {
        assert rest[k - 1] == chain[k];
        forall l | 0 <= l < k - 1 ensures !HasSimilar(rest[l], name) {
          assert rest[l] == chain[l + 1];
        }
      }
      ReportIsFirstHit(name, b.baseType, k - 1);
    }
  }

  /** CheckMember as a function of the declared symbol. */
  function MemberIssues(checkedMember: Option<CheckedMember>, location: nat): seq<ShadowIssue>
  {
    if checkedMember.None? || checkedMember.value.isOverride || checkedMember.value.implementsInterfaceMember then []
    else
      var report := ShadowReport(checkedMember.value.name, checkedMember.value.containingBaseType);
      if report.None? then [] else [ShadowIssue(location, report.value)]
  }

  /**
   * CheckMember: the while loop over the base types, reporting at the first
   * base type with a similar member and stopping there.
   */
  method CheckMember(checkedMember: Option<CheckedMember>, location: nat) returns (issues: seq<ShadowIssue>)
    ensures issues == MemberIssues(checkedMember, location)
  {
    if checkedMember.None? || checkedMember.value.isOverride {
      return [];
    }
    var member := checkedMember.value;
    if member.implementsInterfaceMember {
      return [];
    }
    var memberNameLowered := Lower(member.name);
    var baseType := member.containingBaseType;
    while baseType.Some? && !baseType.value.isError
      invariant ShadowReport(member.name, baseType) == ShadowReport(member.name, member.containingBaseType)
      decreases baseType
    {
      var similarMembers := SimilarMembers(baseType.value.members, memberNameLowered);
      if exists k | 0 <= k < |similarMembers| :: similarMembers[k].name == member.name {
        return [ShadowIssue(location, MatchMessage(member.name, baseType.value.name))];
      }
      if similarMembers != [] {
        return [ShadowIssue(location, SimilarMessage(member.name, baseType.value.name, similarMembers[0].name))];
      }
      baseType := baseType.value.baseType;
    }
    return [];
  }

  /** What CheckMember reports: at most one issue, never for a missing symbol, an override or an interface implementation. */
  lemma MemberIssuesExclusions(checkedMember: Option<CheckedMember>, location: nat)
    ensures |MemberIssues(checkedMember, location)| <= 1
    ensures checkedMember.None? || checkedMember.value.isOverride || checkedMember.value.implementsInterfaceMember ==>
              MemberIssues(checkedMember, location) == []
    ensures forall i | i in MemberIssues(checkedMember, location) :: i.location == location
  {
  }

  /** The method handler: a method named "Equals" is never checked. */
  function MethodIssues(identifier: string, checkedMember: Option<CheckedMember>, location: nat): (r: seq<ShadowIssue>)
    ensures identifier == "Equals" ==> r == []
    ensures |r| <= 1 && forall i | i in r :: i.location == location
  {
    MemberIssuesExclusions(checkedMember, location);
    if identifier == "Equals" then [] else MemberIssues(checkedMember, location)
  }

  /** The field handler's specification: one CheckMember per declarator, in order. */
  function FieldIssues(declarators: seq<(Option<CheckedMember>, nat)>): seq<ShadowIssue>
  {
    if declarators == [] then []
    else
      var d := declarators[|declarators| - 1];
      FieldIssues(declarators[..|declarators| - 1]) + MemberIssues(d.0, d.1)
  }

  /** The field handler: the loop over the declaration's declarators. */
  method CheckFieldDeclaration(declarators: seq<(Option<CheckedMember>, nat)>) returns (issues: seq<ShadowIssue>)
    ensures issues == FieldIssues(declarators)
  {
    issues := [];
    for k := 0 to |declarators|
      invariant issues == FieldIssues(declarators[..k])
    {
      assert declarators[..k + 1][..k] == declarators[..k];
      var found := CheckMember(declarators[k].0, declarators[k].1);
      issues := issues + found;
    }
    assert declarators[..|declarators|] == declarators;
  }

  /** A field declaration gives at most one issue per declarator, each at one of the declarators' identifiers. */
  lemma {:induction false} FieldIssuesPerDeclarator(declarators: seq<(Option<CheckedMember>, nat)>)
    ensures |FieldIssues(declarators)| <= |declarators|
    ensures forall i | i in FieldIssues(declarators) :: exists d | d in declarators :: i.location == d.1
  {
    if declarators != [] {
      var prefix := declarators[..|declarators| - 1];
      var d := declarators[|declarators| - 1];
      FieldIssuesPerDeclarator(prefix);
      MemberIssuesExclusions(d.0, d.1);
      forall i | i in FieldIssues(declarators) ensures exists d | d in declarators :: i.location == d.1 {
        if i in FieldIssues(prefix) {
          var e :| e in prefix && i.location == e.1;
          assert e in declarators;
        } else {
          assert d in declarators;
        }
      }
    }
  }

  // -----------------------------------------------------------------------
  // The rule's own test input.

  const ObjectType := TypeSymbol("Object", [MemberSymbol("Equals", false), MemberSymbol("GetHashCode", false),
                                            MemberSymbol("ToString", false), MemberSymbol("GetType", false)], false, None)

  const Fruit := TypeSymbol("Fruit", [MemberSymbol("ripe", false), MemberSymbol("flesh", false),
                                      MemberSymbol("flesh_color", true), MemberSymbol("GetCost", false),
                                      MemberSymbol("GetCost2", true), MemberSymbol("MyProperty", false),
                                      MemberSymbol("Equals", false), MemberSymbol("SomeMethod", false)],
                                      false, Some(ObjectType))

  function RaspberryMember(name: string): CheckedMember
  {
    CheckedMember(name, false, false, Some(Fruit))
  }

  /** `FLESH` in Raspberry differs only by case from Fruit's protected `flesh`. */
  lemma FleshIsReported()
    ensures MemberIssues(Some(RaspberryMember("FLESH")), 35) == [ShadowIssue(35, SimilarMessage("FLESH", "Fruit", "flesh"))]
  {
    FleshShadowReport();
  }

  lemma FleshShadowReport()
    ensures ShadowReport("FLESH", Some(Fruit)) == Some(SimilarMessage("FLESH", "Fruit", "flesh"))
  {
    assert Lower("FLESH") == "flesh";
    FruitMembersLikeFlesh();
    assert !HasExactName([MemberSymbol("flesh", false)], "FLESH");
  }

  lemma FruitMembersLikeFlesh()
    ensures SimilarMembers(Fruit.members, "flesh") == [MemberSymbol("flesh", false)]
  {
  }

  /** `FLESH_COLOR` is compliant: the only similar member, `flesh_color`, is private, and Object has none. */
  lemma FleshColorIsCompliant()
    ensures MemberIssues(Some(RaspberryMember("FLESH_COLOR")), 36) == []
  {
    assert Lower("FLESH_COLOR") == "flesh_color";
    NoMembersLikeFleshColor();
  }

  lemma NoMembersLikeFleshColor()
    ensures SimilarMembers(Fruit.members, "flesh_color") == []
    ensures SimilarMembers(ObjectType.members, "flesh_color") == []
  {
    assert Lower("GetHashCode")[0] == 'g';
  }

  /** Fruit's `Equals()` clashes with Object's, yet the method handler leaves it alone. */
  lemma EqualsMethodIsCompliant()
    ensures MemberIssues(Some(CheckedMember("Equals", false, false, Some(ObjectType))), 28) != []
    ensures MethodIssues("Equals", Some(CheckedMember("Equals", false, false, Some(ObjectType))), 28) == []
  {
    assert Lower("Equals") == "equals";
    assert SimilarMembers(ObjectType.members, "equals") == [MemberSymbol("Equals", false)];
  }
}
