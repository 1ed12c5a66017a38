/**
 * The single-top-level-type rule (S1996), shared between C# and Visual Basic:
 * a file with two or more top-level class or interface (and, in Visual
 * Basic, module) declarations has each of them reported at its identifier.
 *
 * A syntax tree is a list of nodes in document order (the order of
 * DescendantNodesAndSelf), each with the index of its parent, which comes
 * before it.
 */
module TopLevelTypes {
  import opened Common

  datatype Language = CSharp | VisualBasic

  datatype SyntaxKind =
    | ClassDeclaration | InterfaceDeclaration | StructDeclaration   // C#
    | ClassBlock | InterfaceBlock | ModuleBlock | StructureBlock    // Visual Basic
    | OtherKind(code: nat)

  datatype TreeNode = TreeNode(kind: SyntaxKind, parent: Option<nat>, identifierLocation: nat)

  /** Parents come before their children, so walking up always ends. */
  predicate WellFormed(tree: seq<TreeNode>)
  {
    forall i | 0 <= i < |tree| :: tree[i].parent.Some? ==> tree[i].parent.value < i
  }

  /** The kind table of each language. */
  function KindsOfInterest(language: Language): seq<SyntaxKind>
  {
    match language
    case CSharp => [ClassDeclaration, InterfaceDeclaration]
    case VisualBasic => [ClassBlock, InterfaceBlock, ModuleBlock]
  }

  predicate OfInterest(language: Language, kind: SyntaxKind)
  {
    kind in KindsOfInterest(language)
  }

  /** The C# kinds of interest are exactly class and interface declarations; the Visual Basic ones class, interface and module blocks. */
  lemma KindsOfInterestAreExactly(language: Language, kind: SyntaxKind)
    ensures OfInterest(language, kind) <==>
            if language == CSharp then kind == ClassDeclaration || kind == InterfaceDeclaration
            else kind == ClassBlock || kind == InterfaceBlock || kind == ModuleBlock
  {
  }

  /** Some node on the way up from p (p itself included) has a kind of interest. */
  predicate HasAncestorOfInterest(language: Language, tree: seq<TreeNode>, p: Option<nat>)
    requires WellFormed(tree) && (p.Some? ==> p.value < |tree|)
    decreases if p.None? then 0 else p.value + 1
  {
    p.Some? && (OfInterest(language, tree[p.value].kind) || HasAncestorOfInterest(language, tree, tree[p.value].parent))
  }

  /** The proper ancestors of a node, nearest first. */
  function Ancestors(tree: seq<TreeNode>, i: nat): (r: seq<nat>)
    requires WellFormed(tree) && i < |tree|
    ensures forall k | 0 <= k < |r| :: r[k] < i
    decreases i
  {
    if tree[i].parent.None? then []
    else [tree[i].parent.value] + Ancestors(tree, tree[i].parent.value)
  }

  predicate IsTopLevel(language: Language, tree: seq<TreeNode>, i: nat)
    requires WellFormed(tree) && i < |tree|
  {
    !HasAncestorOfInterest(language, tree, tree[i].parent)
  }

  ghost predicate NoneOfInterest(language: Language, tree: seq<TreeNode>, nodes: seq<nat>)
    requires forall k | 0 <= k < |nodes| :: nodes[k] < |tree|
  {
    forall k | 0 <= k < |nodes| :: !OfInterest(language, tree[nodes[k]].kind)
  }

  /** A node is top-level iff none of its proper ancestors has a kind of interest. */
  lemma {:induction false} TopLevelIffNoAncestorOfInterest(language: Language, tree: seq<TreeNode>, i: nat)
    requires WellFormed(tree) && i < |tree|
    ensures IsTopLevel(language, tree, i) <==> NoneOfInterest(language, tree, Ancestors(tree, i))
    decreases i
  {
    if tree[i].parent.Some? {
      var p := tree[i].parent.value;
      TopLevelIffNoAncestorOfInterest(language, tree, p);
      var chain := Ancestors(tree, i);
      var rest := Ancestors(tree, p);
      assert chain == [p] + rest;
      assert IsTopLevel(language, tree, i) == (!OfInterest(language, tree[p].kind) && IsTopLevel(language, tree, p));
      if NoneOfInterest(language, tree, chain) {
        assert !OfInterest(language, tree[chain[0]].kind);
        forall k | 0 <= k < |rest| ensures !OfInterest(language, tree[rest[k]].kind) {
          assert rest[k] == chain[k + 1];
        }
      }
      if !OfInterest(language, tree[p].kind) && NoneOfInterest(language, tree, rest) {
        forall k | 0 <= k < |chain| ensures !OfInterest(language, tree[chain[k]].kind) {
          if k > 0 {
            assert chain[k] == rest[k - 1];
          }
        }
      }
    }
  }

  /** IsTopLevel: the while loop up the parents, stopping at the first kind of interest. */
  method CheckIsTopLevel(language: Language, tree: seq<TreeNode>, i: nat) returns (topLevel: bool)
    requires WellFormed(tree) && i < |tree|
    ensures topLevel == IsTopLevel(language, tree, i)
  {
    var parent := tree[i].parent;
    while parent.Some?
      invariant parent.Some? ==> parent.value < |tree|
      invariant HasAncestorOfInterest(language, tree, parent) == HasAncestorOfInterest(language, tree, tree[i].parent)
      decreases if parent.None? then 0 else parent.value + 1
    {
      if OfInterest(language, tree[parent.value].kind) {
        return false;
      }
      parent := tree[parent.value].parent;
    }
    return true;
  }

  /** The nodes of interest without an ancestor of interest among the first n, in document order. */
  function TopLevelTypesUpTo(language: Language, tree: seq<TreeNode>, n: nat): seq<nat>
    requires WellFormed(tree) && n <= |tree|
  {
    if n == 0 then []
    else
      TopLevelTypesUpTo(language, tree, n - 1) +
      (if OfInterest(language, tree[n - 1].kind) && IsTopLevel(language, tree, n - 1) then [n - 1] else [])
  }

  function TopLevelTypes(language: Language, tree: seq<TreeNode>): seq<nat>
    requires WellFormed(tree)
  {
    TopLevelTypesUpTo(language, tree, |tree|)
  }

  /** r lies below n, in increasing order. */
  predicate IncreasingBelow(r: seq<nat>, n: nat)
  {
    (forall k | 0 <= k < |r| :: r[k] < n) &&
    (forall p, q | 0 <= p < q < |r| :: r[p] < r[q])
  }

  /** The collected nodes among the first n lie below n, in increasing order. */
  lemma {:induction false} TopLevelTypesOrdered(language: Language, tree: seq<TreeNode>, n: nat)
    requires WellFormed(tree) && n <= |tree|
    ensures IncreasingBelow(TopLevelTypesUpTo(language, tree, n), n)
  {
    if n > 0 {
      TopLevelTypesOrdered(language, tree, n - 1);
      var prev := TopLevelTypesUpTo(language, tree, n - 1);
      var added := if OfInterest(language, tree[n - 1].kind) && IsTopLevel(language, tree, n - 1) then [n - 1] else [];
      var r := prev + added;
      assert TopLevelTypesUpTo(language, tree, n) == r;
      forall p, q | 0 <= p < q < |r| ensures r[p] < r[q] {
        if q >= |prev| {
          assert r[p] == prev[p] && r[q] == n - 1;
        } else {
          assert r[p] == prev[p] && r[q] == prev[q];
        }
      }
    }
  }

  /** The nodes below n in r are exactly those of interest and top-level. */
  predicate SelectsTopLevel(language: Language, tree: seq<TreeNode>, n: nat, r: seq<nat>)
    requires WellFormed(tree) && n <= |tree|
  {
    forall i | 0 <= i < n :: i in r <==> OfInterest(language, tree[i].kind) && IsTopLevel(language, tree, i)
  }

  /** A node below n is collected iff it is of interest and top-level. */
  lemma {:induction false} TopLevelTypesMembers(language: Language, tree: seq<TreeNode>, n: nat)
    requires WellFormed(tree) && n <= |tree|
    ensures SelectsTopLevel(language, tree, n, TopLevelTypesUpTo(language, tree, n))
  {
    if n > 0 {
      TopLevelTypesMembers(language, tree, n - 1);
      TopLevelTypesOrdered(language, tree, n - 1);
      var prev := TopLevelTypesUpTo(language, tree, n - 1);
      assert n - 1 !in prev;
    }
  }

  /** The collected nodes are exactly the top-level nodes of interest, each once, in document order. */
  lemma TopLevelTypesSelect(language: Language, tree: seq<TreeNode>, n: nat)
    requires WellFormed(tree) && n <= |tree|
    ensures var r := TopLevelTypesUpTo(language, tree, n);
            (forall k | 0 <= k < |r| :: r[k] < n) &&
            (forall p, q | 0 <= p < q < |r| :: r[p] < r[q]) &&
            (forall i | 0 <= i < n :: i in r <==> OfInterest(language, tree[i].kind) && IsTopLevel(language, tree, i))
  {
    TopLevelTypesOrdered(language, tree, n);
    TopLevelTypesMembers(language, tree, n);
    assert SelectsTopLevel(language, tree, n, TopLevelTypesUpTo(language, tree, n));
  }

  /** A type nested in a type of interest is never collected, and so never reported. */
  lemma NestedTypesAreNotTopLevel(language: Language, tree: seq<TreeNode>, i: nat, j: nat)
    requires WellFormed(tree) && j < |tree| && i in Ancestors(tree, j) && OfInterest(language, tree[i].kind)
    ensures j !in TopLevelTypes(language, tree)
  {
    TopLevelTypesSelect(language, tree, |tree|);
    TopLevelIffNoAncestorOfInterest(language, tree, j);
    var k :| 0 <= k < |Ancestors(tree, j)| && Ancestors(tree, j)[k] == i;
    assert !NoneOfInterest(language, tree, Ancestors(tree, j));
  }

  /** GetTopLevelTypes: the filter over the nodes, calling IsTopLevel for each node of interest. */
  method GetTopLevelTypes(language: Language, tree: seq<TreeNode>) returns (r: seq<nat>)
    requires WellFormed(tree)
    ensures r == TopLevelTypes(language, tree)
  {
    r := [];
    for n := 0 to |tree|
      invariant r == TopLevelTypesUpTo(language, tree, n)
    {
      if OfInterest(language, tree[n].kind) {
        var topLevel := CheckIsTopLevel(language, tree, n);
        if topLevel {
          r := r + [n];
        }
      }
    }
  }

  datatype TopLevelIssue = TopLevelIssue(location: nat, kindLabel: string)

  /** The C# report: "class" for a class declaration, "interface" for the other type declarations. */
  function CSharpReport(node: TreeNode): Option<TopLevelIssue>
  {
    if node.kind !in {ClassDeclaration, InterfaceDeclaration, StructDeclaration} then None
    else Some(TopLevelIssue(node.identifierLocation, if node.kind == ClassDeclaration then "class" else "interface"))
  }

  /** The Visual Basic report: the tests for interface, module and class blocks, in that order. */
  function VisualBasicReport(node: TreeNode): Option<TopLevelIssue>
  {
    if node.kind == InterfaceBlock then Some(TopLevelIssue(node.identifierLocation, "interface"))
    else if node.kind == ModuleBlock then Some(TopLevelIssue(node.identifierLocation, "module"))
    else if node.kind == ClassBlock then Some(TopLevelIssue(node.identifierLocation, "class"))
    else None
  }

  function Report(language: Language, node: TreeNode): Option<TopLevelIssue>
  {
    if language == CSharp then CSharpReport(node) else VisualBasicReport(node)
  }

  /** Every node of a kind of interest is reported at its identifier, with the kindLabel of its kind. */
  lemma ReportLabels(language: Language, node: TreeNode)
    requires OfInterest(language, node.kind)
    ensures Report(language, node).Some?
    ensures Report(language, node).value.location == node.identifierLocation
    ensures Report(language, node).value.kindLabel ==
            match node.kind
            case ClassDeclaration => "class"
            case ClassBlock => "class"
            case ModuleBlock => "module"
            case _ => "interface"
  {
    KindsOfInterestAreExactly(language, node.kind);
  }

  function ReportsFor(language: Language, tree: seq<TreeNode>, nodes: seq<nat>): seq<TopLevelIssue>
    requires forall k | 0 <= k < |nodes| :: nodes[k] < |tree|
  {
    if nodes == [] then []
    else
      var last := nodes[|nodes| - 1];
      ReportsFor(language, tree, nodes[..|nodes| - 1]) + OptionToSeq(Report(language, tree[last]))
  }

  /** The syntax-tree action: nothing in generated code, nothing for at most one top-level type. */
  function TreeIssues(language: Language, tree: seq<TreeNode>, isGenerated: bool): seq<TopLevelIssue>
    requires WellFormed(tree)
  {
    var topLevelTypes := TopLevelTypes(language, tree);
    TopLevelTypesSelect(language, tree, |tree|);
    if isGenerated || |topLevelTypes| <= 1 then [] else ReportsFor(language, tree, topLevelTypes)
  }

  ghost predicate ReportsMatch(language: Language, tree: seq<TreeNode>, nodes: seq<nat>, r: seq<TopLevelIssue>)
    requires forall k | 0 <= k < |nodes| :: nodes[k] < |tree|
  {
    |r| == |nodes| && forall k | 0 <= k < |r| :: Report(language, tree[nodes[k]]) == Some(r[k])
  }

  /** Each collected node of interest gives exactly one report, in order. */
  lemma {:induction false} ReportsForEach(language: Language, tree: seq<TreeNode>, nodes: seq<nat>)
    requires forall k | 0 <= k < |nodes| :: nodes[k] < |tree| && OfInterest(language, tree[nodes[k]].kind)
    ensures ReportsMatch(language, tree, nodes, ReportsFor(language, tree, nodes))
  {
    if nodes != [] {
      var prefix := nodes[..|nodes| - 1];
      var last := nodes[|nodes| - 1];
      ReportsForEach(language, tree, prefix);
      ReportLabels(language, tree[last]);
      var before := ReportsFor(language, tree, prefix);
      var issue := Report(language, tree[last]).value;
      assert ReportsFor(language, tree, nodes) == before + [issue];
      assert |before| == |prefix|;
      forall k | 0 <= k < |nodes| ensures Report(language, tree[nodes[k]]) == Some((before + [issue])[k]) {
        if k < |prefix| {
          assert nodes[k] == prefix[k] && (before + [issue])[k] == before[k];
        } else {
          assert nodes[k] == last && (before + [issue])[k] == issue;
        }
      }
    }
  }

  /**
   * With two or more top-level types every one is reported exactly once, at
   * its identifier; with at most one nothing is reported.
   */
  lemma TreeIssuesReportEachTopLevelType(language: Language, tree: seq<TreeNode>)
    requires WellFormed(tree)
    ensures var top := TopLevelTypes(language, tree);
            var r := TreeIssues(language, tree, false);
            (|top| <= 1 ==> r == []) &&
            (|top| > 1 ==> |r| == |top| &&
                           forall k | 0 <= k < |r| :: top[k] < |tree| && r[k].location == tree[top[k]].identifierLocation)
  {
    var top := TopLevelTypes(language, tree);
    TopLevelTypesAreOfInterest(language, tree);
    if |top| > 1 {
      assert TreeIssues(language, tree, false) == ReportsFor(language, tree, top);
      ReportsForEach(language, tree, top);
      forall k | 0 <= k < |top| ensures Report(language, tree[top[k]]).value.location == tree[top[k]].identifierLocation {
        ReportLabels(language, tree[top[k]]);
      }
    }
  }

  /** Every collected node is a node of the tree of a kind of interest. */
  lemma TopLevelTypesAreOfInterest(language: Language, tree: seq<TreeNode>)
    requires WellFormed(tree)
    ensures var top := TopLevelTypes(language, tree);
            forall k | 0 <= k < |top| :: top[k] < |tree| && OfInterest(language, tree[top[k]].kind)
  {
    var top := TopLevelTypes(language, tree);
    TopLevelTypesSelect(language, tree, |tree|);
    forall k | 0 <= k < |top| ensures top[k] < |tree| && OfInterest(language, tree[top[k]].kind) {
      assert top[k] in top;
    }
  }

  /** RegisterSyntaxTreeActionInNonGenerated: a generated tree is never analysed. */
  lemma GeneratedTreesAreSkipped(language: Language, tree: seq<TreeNode>)
    requires WellFormed(tree)
    ensures TreeIssues(language, tree, true) == []
  {
  }

  /** The syntax-tree action, calling GetTopLevelTypes and reporting each one. */
  method AnalyzeTree(language: Language, tree: seq<TreeNode>, isGenerated: bool) returns (issues: seq<TopLevelIssue>)
    requires WellFormed(tree)
    ensures issues == TreeIssues(language, tree, isGenerated)
  {
    if isGenerated {
      return [];
    }
    var topLevelTypes := GetTopLevelTypes(language, tree);
    TopLevelTypesAreOfInterest(language, tree);
    issues := [];
    if |topLevelTypes| > 1 {
      for k := 0 to |topLevelTypes|
        invariant issues == ReportsFor(language, tree, topLevelTypes[..k])
      {
        assert topLevelTypes[..k + 1][..k] == topLevelTypes[..k];
        issues := issues + OptionToSeq(Report(language, tree[topLevelTypes[k]]));
      }
      assert topLevelTypes[..|topLevelTypes|] == topLevelTypes;
    }
  }
}
