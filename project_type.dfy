/**
 * Test-project detection (ProjectTypeHelper.IsTest): a compilation is a test
 * project when its assembly name mentions TEST, or when it references one of
 * three unit-test frameworks, both compared on upper-cased names.
 */
module ProjectType {
  import opened Common

  const TestAssemblyNamePattern: string := "TEST"

  const TestAssemblyNames: seq<string> :=
    ["MICROSOFT.VISUALSTUDIO.QUALITYTOOLS.UNITTESTFRAMEWORK", "XUNIT.CORE", "NUNIT.FRAMEWORK"]

  /** Some referenced assembly's upper-cased name is one of the test frameworks. */
  function ReferencesTestFramework(references: seq<string>): (r: bool)
    ensures r <==> exists i | 0 <= i < |references| :: Upper(references[i]) in TestAssemblyNames
  {
    if references == [] then false
    else Upper(references[0]) in TestAssemblyNames || ReferencesTestFramework(references[1..])
  }

  /** IsTest; a missing assembly name counts as the empty one. */
  function IsTest(assemblyName: Option<string>, references: seq<string>): (r: bool)
    ensures assemblyName.Some? && Contains(Upper(assemblyName.value), TestAssemblyNamePattern) ==> r
    ensures (exists i | 0 <= i < |references| :: Upper(references[i]) in TestAssemblyNames) ==> r
    ensures r ==> (assemblyName.Some? && Contains(Upper(assemblyName.value), TestAssemblyNamePattern)) ||
                  exists i | 0 <= i < |references| :: Upper(references[i]) in TestAssemblyNames
  {
    var name := if assemblyName.Some? then assemblyName.value else "";
    Contains(Upper(name), TestAssemblyNamePattern) || ReferencesTestFramework(references)
  }

  /** Characters with the same lower case have the same upper case. */
  lemma UpperCharIgnoresCase(c: char, d: char)
    requires LowerChar(c) == LowerChar(d)
    ensures UpperChar(c) == UpperChar(d)
  {
  }

  /** Upper-casing forgets the case a string was written in. */
  lemma UpperIgnoresCase(a: string, b: string)
    requires EqualsIgnoreCase(a, b)
    ensures Upper(a) == Upper(b)
  {
    assert |a| == |Lower(a)| == |Lower(b)| == |b|;
    forall i | 0 <= i < |a| ensures Upper(a)[i] == Upper(b)[i] {
      assert Lower(a)[i] == Lower(b)[i];
      UpperCharIgnoresCase(a[i], b[i]);
    }
  }

  /** Names that differ only in letter case give the same verdict. */
  lemma {:induction false} IsTestIgnoresCase(name: Option<string>, references: seq<string>,
                                             name2: Option<string>, references2: seq<string>)
    requires name.Some? <==> name2.Some?
    requires name.Some? ==> EqualsIgnoreCase(name.value, name2.value)
    requires |references| == |references2|
    requires forall i | 0 <= i < |references| :: EqualsIgnoreCase(references[i], references2[i])
    ensures IsTest(name, references) == IsTest(name2, references2)
  {
    if name.Some? {
      UpperIgnoresCase(name.value, name2.value);
    }
    forall i | 0 <= i < |references| ensures Upper(references[i]) == Upper(references2[i]) {
      UpperIgnoresCase(references[i], references2[i]);
    }
  }

  /** A test assembly named in lower case is recognised. */
  lemma LowerCaseTestAssembly()
    ensures IsTest(Some("a.tests"), [])
  {
    assert Upper("a.tests") == "A.TESTS";
    assert OccursAt(Upper("a.tests"), TestAssemblyNamePattern, 2);
  }

  /** A reference to xUnit, written in any case, makes a test project. */
  lemma XunitReference()
    ensures IsTest(None, ["xunit.core"])
  {
    assert Upper(["xunit.core"][0]) == "XUNIT.CORE";
  }
}
