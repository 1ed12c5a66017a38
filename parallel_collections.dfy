/**
 * The parallel-collections rule (S3221): inside a for or foreach loop, two or
 * more different collections indexed by the same expression, built from a
 * loop variable, are reported. A table of (collection, index) pairs already
 * reported keeps each pair from being reported twice. Syntactic equivalence
 * is equality of expression values; syntax nodes are told apart by their id.
 */
module ParallelCollections {
  import opened Common

  /** The part of an index expression the rule looks into: identifiers and the nodes around them. */
  datatype Expr =
    | Identifier(name: string)
    | Literal(value: int)
    | Compound(kind: nat, children: seq<Expr>)

  /** A syntax node for the indexed collection: its identity, its syntax and its source text. */
  datatype Node = Node(id: nat, syntax: Expr, text: string)

  /** An element access `collection[arguments]`, and whether it is the left side of an assignment. */
  datatype ElementAccess = ElementAccess(collection: Node, arguments: seq<Expr>, isAssignmentTarget: bool)

  /** A diagnostic at a collection node, with the list of matching collections as its message argument. */
  datatype ParallelIssue = ParallelIssue(location: nat, collectionNames: string)

  /** Some identifier in the expression, or the expression itself, has one of the names. */
  predicate MentionsAny(e: Expr, names: seq<string>)
  {
    match e
    case Identifier(n) => n in names
    case Literal(_) => false
    case Compound(_, children) => exists k | 0 <= k < |children| :: MentionsAny(children[k], names)
  }

  /** GetElementAccesses: the accesses with exactly one argument that are not assigned to, in order. */
  function GetElementAccesses(descendants: seq<ElementAccess>): seq<ElementAccess>
  {
    if descendants == [] then []
    else
      var d := descendants[|descendants| - 1];
      GetElementAccesses(descendants[..|descendants| - 1]) +
      (if IsCandidate(d) then [d] else [])
  }

  predicate IsCandidate(d: ElementAccess)
  {
    |d.arguments| == 1 && !d.isAssignmentTarget
  }

  /** GetElementAccesses keeps exactly the candidate accesses, and nothing else. */
  lemma {:induction false} GetElementAccessesFilters(descendants: seq<ElementAccess>)
    ensures var r := GetElementAccesses(descendants);
            |r| <= |descendants| && OneArgumentEach(r) &&
            (forall d :: d in r <==> d in descendants && IsCandidate(d))
  {
    if descendants != [] {
      var prefix := descendants[..|descendants| - 1];
      GetElementAccessesFilters(prefix);
      assert descendants == prefix + [descendants[|descendants| - 1]];
    }
  }

  predicate OneArgumentEach(accesses: seq<ElementAccess>)
  {
    forall k | 0 <= k < |accesses| :: |accesses[k].arguments| == 1
  }

  function Argument(a: ElementAccess): Expr
    requires |a.arguments| == 1
  {
    a.arguments[0]
  }

  // -----------------------------------------------------------------------
  // The table of reported (collection, argument) pairs.

  /** No two keys are equivalent and no list holds an argument twice, so every SingleOrDefault finds at most one. */
  ghost predicate ValidTable(m: map<Node, seq<Expr>>)
  {
    (forall k1, k2 | k1 in m && k2 in m && k1.syntax == k2.syntax :: k1 == k2) &&
    (forall k | k in m :: forall p, q | 0 <= p < q < |m[k]| :: m[k][p] != m[k][q])
  }

  /** The pairs a table records, up to equivalence. */
  ghost function ReportedOf(m: map<Node, seq<Expr>>): set<(Expr, Expr)>
  {
    set k, a | k in m && a in m[k] :: (k.syntax, a)
  }

  /** Adding a new argument under an existing key records exactly that pair more. */
  lemma AppendArgumentRecordsPair(m: map<Node, seq<Expr>>, key: Node, argument: Expr)
    requires key in m
    ensures ReportedOf(m[key := m[key] + [argument]]) == ReportedOf(m) + {(key.syntax, argument)}
  {
    var m' := m[key := m[key] + [argument]];
    forall p | p in ReportedOf(m) ensures p in ReportedOf(m') {
      var k, a :| k in m && a in m[k] && p == (k.syntax, a);
      assert a in m'[k];
    }
    assert argument in m'[key];
  }

  /** Adding a new key with one argument records exactly that pair more. */
  lemma AddKeyRecordsPair(m: map<Node, seq<Expr>>, key: Node, argument: Expr)
    requires key !in m
    ensures ReportedOf(m[key := [argument]]) == ReportedOf(m) + {(key.syntax, argument)}
  {
    var m' := m[key := [argument]];
    forall p | p in ReportedOf(m) ensures p in ReportedOf(m') {
      var k, a :| k in m && a in m[k] && p == (k.syntax, a);
      assert a in m'[k];
    }
    assert argument in m'[key];
  }

  /**
   * alreadyReportedOn: a dictionary from collection nodes to the argument
   * expressions reported with them, searched by equivalence.
   */
  class AlreadyReportedTable {
    var alreadyReportedOn: map<Node, seq<Expr>>

    ghost predicate Valid()
      reads this
    {
      ValidTable(alreadyReportedOn)
    }

    ghost function Reported(): set<(Expr, Expr)>
      reads this
    {
      ReportedOf(alreadyReportedOn)
    }

    constructor()
      ensures Valid() && Reported() == {}
    {
      alreadyReportedOn := map[];
    }

    /**
     * ContainsOrAdd: true when an equivalent pair is already recorded;
     * otherwise the pair is recorded and the result is false.
     */
    method ContainsOrAdd(collection: Node, argument: Expr) returns (r: bool)
      requires Valid()
      modifies this
      ensures Valid()
      ensures r == ((collection.syntax, argument) in old(Reported()))
      ensures Reported() == old(Reported()) + {(collection.syntax, argument)}
    {
      if k :| k in alreadyReportedOn && k.syntax == collection.syntax {
        var arguments := alreadyReportedOn[k];
        if argument in arguments {
          return true;
        }
        AppendArgumentRecordsPair(alreadyReportedOn, k, argument);
        alreadyReportedOn := alreadyReportedOn[k := arguments + [argument]];
        return false;
      } else {
        AddKeyRecordsPair(alreadyReportedOn, collection, argument);
        alreadyReportedOn := alreadyReportedOn[collection := [argument]];
        return false;
      }
    }
  }

  // -----------------------------------------------------------------------
  // The scan.

  /**
   * The inner loop over the accesses after i, up to j: those indexed by an
   * argument equivalent to access i's go to the matching collections, or to
   * the repeated accesses when an equivalent collection already matches.
   */
  function Scan(accesses: seq<ElementAccess>, i: nat, j: nat): (r: (seq<Node>, seq<Node>))
    requires OneArgumentEach(accesses) && i < j <= |accesses|
    ensures |r.0| >= 1 && r.0[0] == accesses[i].collection
    decreases j
  {
    if j == i + 1 then ([accesses[i].collection], [])
    else
      var previous := Scan(accesses, i, j - 1);
      var other := accesses[j - 1];
      if Argument(other) != Argument(accesses[i]) then previous
      else if exists k | 0 <= k < |previous.0| :: previous.0[k].syntax == other.collection.syntax
      then (previous.0, previous.1 + [other.collection])
      else (previous.0 + [other.collection], previous.1)
  }

  /** Some access from i up to j is to collection n, with an argument equivalent to access i's. */
  ghost predicate IndexedBetween(accesses: seq<ElementAccess>, i: nat, j: nat, n: Node)
    requires OneArgumentEach(accesses) && i < j <= |accesses|
  {
    exists l | i <= l < j :: accesses[l].collection == n && Argument(accesses[l]) == Argument(accesses[i])
  }

  ghost predicate PairwiseNonEquivalent(m: seq<Node>)
  {
    forall p, q | 0 <= p < q < |m| :: m[p].syntax != m[q].syntax
  }

  ghost predicate AllIndexedBetween(accesses: seq<ElementAccess>, i: nat, j: nat, m: seq<Node>)
    requires OneArgumentEach(accesses) && i < j <= |accesses|
  {
    forall p | 0 <= p < |m| :: IndexedBetween(accesses, i, j, m[p])
  }

  ghost predicate EachEquivalentToOneOf(same: seq<Node>, m: seq<Node>)
  {
    forall p | 0 <= p < |same| :: exists q | 0 <= q < |m| :: same[p].syntax == m[q].syntax
  }

  /**
   * What the scan collects: matching collections pairwise non-equivalent and
   * each indexed, by an access from i on, with an argument equivalent to access
   * i's; every repeated access equivalent to one of them.
   */
  lemma ScanCollectsParallelCollections(accesses: seq<ElementAccess>, i: nat, j: nat)
    requires OneArgumentEach(accesses) && i < j <= |accesses|
    ensures var r := Scan(accesses, i, j);
            PairwiseNonEquivalent(r.0) && AllIndexedBetween(accesses, i, j, r.0) && EachEquivalentToOneOf(r.1, r.0)
  {
    ScanMatchingDistinct(accesses, i, j);
    ScanMatchingIndexed(accesses, i, j);
    ScanRepeatsMatch(accesses, i, j);
  }

  lemma {:induction false} ScanMatchingDistinct(accesses: seq<ElementAccess>, i: nat, j: nat)
    requires OneArgumentEach(accesses) && i < j <= |accesses|
    ensures PairwiseNonEquivalent(Scan(accesses, i, j).0)
    decreases j
  {
    if j > i + 1 {
      ScanMatchingDistinct(accesses, i, j - 1);
      var previous := Scan(accesses, i, j - 1).0;
      assert PairwiseNonEquivalent(previous);
      var m := Scan(accesses, i, j).0;
      if m != previous {
        var other := accesses[j - 1].collection;
        assert m == previous + [other];
        assert !exists k | 0 <= k < |previous| :: previous[k].syntax == other.syntax;
        forall p, q | 0 <= p < q < |m| ensures m[p].syntax != m[q].syntax {
          assert m[p] == previous[p];
          if q < |previous| {
            assert m[q] == previous[q];
          }
        }
      }
    }
  }

  lemma {:induction false} ScanMatchingIndexed(accesses: seq<ElementAccess>, i: nat, j: nat)
    requires OneArgumentEach(accesses) && i < j <= |accesses|
    ensures AllIndexedBetween(accesses, i, j, Scan(accesses, i, j).0)
    decreases j
  {
    if j == i + 1 {
      assert IndexedBetween(accesses, i, j, accesses[i].collection);
    } else {
      ScanMatchingIndexed(accesses, i, j - 1);
      var previous := Scan(accesses, i, j - 1).0;
      assert AllIndexedBetween(accesses, i, j - 1, previous);
      var m := Scan(accesses, i, j).0;
      forall p | 0 <= p < |m| ensures IndexedBetween(accesses, i, j, m[p]) {
        if p < |previous| {
          assert m[p] == previous[p];
          assert IndexedBetween(accesses, i, j - 1, previous[p]);
        } else {
          assert m[p] == accesses[j - 1].collection;
        }
      }
    }
  }

  lemma {:induction false} ScanRepeatsMatch(accesses: seq<ElementAccess>, i: nat, j: nat)
    requires OneArgumentEach(accesses) && i < j <= |accesses|
    ensures EachEquivalentToOneOf(Scan(accesses, i, j).1, Scan(accesses, i, j).0)
    decreases j
  {
    if j > i + 1 {
      ScanRepeatsMatch(accesses, i, j - 1);
      var previous := Scan(accesses, i, j - 1);
      assert EachEquivalentToOneOf(previous.1, previous.0);
      var r := Scan(accesses, i, j);
      forall p | 0 <= p < |r.1| ensures exists q | 0 <= q < |r.0| :: r.1[p].syntax == r.0[q].syntax {
        if p < |previous.1| {
          assert r.1[p] == previous.1[p];
          var q :| 0 <= q < |previous.0| && previous.1[p].syntax == previous.0[q].syntax;
          assert r.0[q] == previous.0[q];
        } else {
          var k :| 0 <= k < |previous.0| && previous.0[k].syntax == accesses[j - 1].collection.syntax;
          assert r.0[k] == previous.0[k];
        }
      }
    }
  }

  function Quoted(n: Node): string
  {
    "\"" + n.text + "\""
  }

  /** The message argument: every matching collection, quoted, separated by ", ". */
  function CollectionNames(matching: seq<Node>): string
  {
    Join(", ", seq(|matching|, k requires 0 <= k < |matching| => Quoted(matching[k])))
  }

  function IssuesAt(nodes: seq<Node>, names: string): (r: seq<ParallelIssue>)
    ensures |r| == |nodes| && forall k | 0 <= k < |r| :: r[k] == ParallelIssue(nodes[k].id, names)
  {
    seq(|nodes|, k requires 0 <= k < |nodes| => ParallelIssue(nodes[k].id, names))
  }

  /** The pairs recorded after reporting: each matching collection with the argument. */
  function PairsWith(matching: seq<Node>, argument: Expr): set<(Expr, Expr)>
  {
    set k | 0 <= k < |matching| :: (matching[k].syntax, argument)
  }

  lemma PairsWithExtends(matching: seq<Node>, k: nat, argument: Expr)
    requires k < |matching|
    ensures PairsWith(matching[..k + 1], argument) == PairsWith(matching[..k], argument) + {(matching[k].syntax, argument)}
  {
    assert forall l | 0 <= l < k :: matching[..k + 1][l] == matching[..k][l];
    assert matching[..k + 1][k] == matching[k];
  }

  datatype ScanState = ScanState(reported: set<(Expr, Expr)>, issues: seq<ParallelIssue>)

  /**
   * One turn of the outer loop, for access i. A pair already recorded is
   * skipped; otherwise it is recorded, an argument that mentions no loop
   * identifier is skipped, and when two or more collections match, every
   * matching collection is recorded with the argument and every matching or
   * repeated access is reported.
   */
  function Step(accesses: seq<ElementAccess>, loopIdentifiers: seq<string>, i: nat, st: ScanState): ScanState
    requires OneArgumentEach(accesses) && i < |accesses|
  {
    var collection := accesses[i].collection;
    var argument := Argument(accesses[i]);
    if (collection.syntax, argument) in st.reported then st
    else
      var recorded := st.reported + {(collection.syntax, argument)};
      if !MentionsAny(argument, loopIdentifiers) then ScanState(recorded, st.issues)
      else
        var r := Scan(accesses, i, |accesses|);
        if |r.0| <= 1 then ScanState(recorded, st.issues)
        else ScanState(recorded + PairsWith(r.0, argument), st.issues + IssuesAt(Union(r.0, r.1), CollectionNames(r.0)))
  }

  /** The state after the first n turns of the outer loop. */
  function Process(accesses: seq<ElementAccess>, loopIdentifiers: seq<string>, n: nat): ScanState
    requires OneArgumentEach(accesses) && n <= |accesses|
    decreases n
  {
    if n == 0 then ScanState({}, [])
    else Step(accesses, loopIdentifiers, n - 1, Process(accesses, loopIdentifiers, n - 1))
  }

  /**
   * A turn always records its own pair and never forgets one, and it reports
   * only when its argument mentions a loop identifier and at least two
   * pairwise non-equivalent collections are indexed by equivalent arguments.
   */
  lemma StepReportsOnlyParallelCollections(accesses: seq<ElementAccess>, loopIdentifiers: seq<string>, i: nat,
                                           st: ScanState)
    requires OneArgumentEach(accesses) && i < |accesses|
    ensures var st' := Step(accesses, loopIdentifiers, i, st);
            st.reported <= st'.reported &&
            (accesses[i].collection.syntax, Argument(accesses[i])) in st'.reported &&
            |st.issues| <= |st'.issues| && st'.issues[..|st.issues|] == st.issues
    ensures var st' := Step(accesses, loopIdentifiers, i, st);
            var r := Scan(accesses, i, |accesses|);
            st'.issues != st.issues ==>
              MentionsAny(Argument(accesses[i]), loopIdentifiers) && |r.0| >= 2 &&
              PairwiseNonEquivalent(r.0) && AllIndexedBetween(accesses, i, |accesses|, r.0)
  {
    ScanCollectsParallelCollections(accesses, i, |accesses|);
  }

  /** The recorded pairs only grow from one turn to the next. */
  lemma {:induction false} ProcessRecordsMore(accesses: seq<ElementAccess>, loopIdentifiers: seq<string>, n: nat, n': nat)
    requires OneArgumentEach(accesses) && n <= n' <= |accesses|
    ensures Process(accesses, loopIdentifiers, n).reported <= Process(accesses, loopIdentifiers, n').reported
    decreases n' - n
  {
    if n < n' {
      ProcessRecordsMore(accesses, loopIdentifiers, n, n' - 1);
      StepReportsOnlyParallelCollections(accesses, loopIdentifiers, n' - 1, Process(accesses, loopIdentifiers, n' - 1));
    }
  }

  /** An access whose collection and argument repeat an earlier access's is never reported on its own turn. */
  lemma RepeatedPairAddsNothing(accesses: seq<ElementAccess>, loopIdentifiers: seq<string>, i: nat, l: nat)
    requires OneArgumentEach(accesses) && i < l < |accesses|
    requires accesses[l].collection.syntax == accesses[i].collection.syntax
    requires Argument(accesses[l]) == Argument(accesses[i])
    ensures Process(accesses, loopIdentifiers, l + 1) == Process(accesses, loopIdentifiers, l)
  {
    StepReportsOnlyParallelCollections(accesses, loopIdentifiers, i, Process(accesses, loopIdentifiers, i));
    ProcessRecordsMore(accesses, loopIdentifiers, i + 1, l);
  }

  /** The inner loop of CheckElementAccessExpressions. */
  method ScanFrom(accesses: seq<ElementAccess>, i: nat) returns (matching: seq<Node>, same: seq<Node>)
    requires OneArgumentEach(accesses) && i < |accesses|
    ensures (matching, same) == Scan(accesses, i, |accesses|)
  {
    matching := [accesses[i].collection];
    same := [];
    var argument := Argument(accesses[i]);
    for j := i + 1 to |accesses|
      invariant (matching, same) == Scan(accesses, i, j)
    {
      var other := accesses[j];
      if Argument(other) == argument {
        if exists k | 0 <= k < |matching| :: matching[k].syntax == other.collection.syntax {
          same := same + [other.collection];
        } else {
          matching := matching + [other.collection];
        }
      }
    }
  }

  /** The loop computing the Union of the matching and repeated collections. */
  method UnionOf(a: seq<Node>, b: seq<Node>) returns (r: seq<Node>)
    ensures r == Union(a, b)
  {
    var all := a + b;
    r := [];
    for k := 0 to |all|
      invariant DistinctFrom(r, all[k..]) == Union(a, b)
    {
      assert all[k..][1..] == all[k + 1..];
      if all[k] !in r {
        r := r + [all[k]];
      }
    }
    assert all[|all|..] == [];
  }

  /** Records every matching collection with the argument, as the report branch does. */
  method RecordAll(table: AlreadyReportedTable, matching: seq<Node>, argument: Expr)
    requires table.Valid()
    modifies table
    ensures table.Valid()
    ensures table.Reported() == old(table.Reported()) + PairsWith(matching, argument)
  {
    for k := 0 to |matching|
      invariant table.Valid()
      invariant table.Reported() == old(table.Reported()) + PairsWith(matching[..k], argument)
    {
      var _ := table.ContainsOrAdd(matching[k], argument);
      PairsWithExtends(matching, k, argument);
    }
    assert matching[..|matching|] == matching;
  }

  /** One turn of the outer loop on the table. */
  method CheckAccess(table: AlreadyReportedTable, accesses: seq<ElementAccess>, loopIdentifiers: seq<string>, i: nat,
                     issues: seq<ParallelIssue>)
    returns (issues': seq<ParallelIssue>)
    requires OneArgumentEach(accesses) && i < |accesses|
    requires table.Valid()
    modifies table
    ensures table.Valid()
    ensures ScanState(table.Reported(), issues')
            == Step(accesses, loopIdentifiers, i, ScanState(old(table.Reported()), issues))
  {
    var collection := accesses[i].collection;
    var argument := Argument(accesses[i]);
    var present := table.ContainsOrAdd(collection, argument);
    if present {
      return issues;
    }
    if !MentionsAny(argument, loopIdentifiers) {
      return issues;
    }
    var matching, same := ScanFrom(accesses, i);
    if |matching| <= 1 {
      return issues;
    }
    RecordAll(table, matching, argument);
    var reportedOn := UnionOf(matching, same);
    issues' := issues + IssuesAt(reportedOn, CollectionNames(matching));
  }

  /**
   * CheckElementAccessExpressions: the outer loop over the collected
   * accesses, with a fresh table.
   */
  method CheckElementAccessExpressions(loopIdentifiers: seq<string>, accesses: seq<ElementAccess>)
    returns (issues: seq<ParallelIssue>)
    requires OneArgumentEach(accesses)
    ensures issues == Process(accesses, loopIdentifiers, |accesses|).issues
  {
    var table := new AlreadyReportedTable();
    issues := [];
    for i := 0 to |accesses|
      invariant table.Valid()
      invariant ScanState(table.Reported(), issues) == Process(accesses, loopIdentifiers, i)
    {
      issues := CheckAccess(table, accesses, loopIdentifiers, i, issues);
    }
  }

  /** The issues for a loop body's element accesses with the given loop identifiers. */
  function LoopIssues(loopIdentifiers: seq<string>, descendants: seq<ElementAccess>): seq<ParallelIssue>
  {
    var accesses := GetElementAccesses(descendants);
    GetElementAccessesFilters(descendants);
    Process(accesses, loopIdentifiers, |accesses|).issues
  }

  /** The foreach handler: nothing in a test compilation, otherwise the loop variable is the one identifier. */
  function ForEachIssues(isTestCompilation: bool, identifier: string, descendants: seq<ElementAccess>)
    : seq<ParallelIssue>
  {
    if isTestCompilation then [] else LoopIssues([identifier], descendants)
  }

  /** Outcome of the for handler as written: it dereferences the loop's declaration. */
  datatype HandlerOutcome = Issues(issues: seq<ParallelIssue>) | NullReference

  /**
   * The for handler as written: a for loop without a declaration
   * (`for (i = 0; ...)`, `for (;;)`) has a null Declaration, and reading its
   * variables throws.
   */
  function ForIssuesAsWritten(isTestCompilation: bool, declaredVariables: Option<seq<string>>,
                              descendants: seq<ElementAccess>): HandlerOutcome
  {
    if isTestCompilation then Issues([])
    else if declaredVariables.None? then NullReference
    else Issues(LoopIssues(declaredVariables.value, descendants))
  }

  lemma LoopWithoutDeclarationThrows(descendants: seq<ElementAccess>)
    ensures ForIssuesAsWritten(false, None, descendants) == NullReference
  {
  }

  /** The corrected for handler: a loop without a declaration declares no loop identifier. */
  function ForIssues(isTestCompilation: bool, declaredVariables: Option<seq<string>>, descendants: seq<ElementAccess>)
    : seq<ParallelIssue>
  {
    if isTestCompilation then []
    else LoopIssues(if declaredVariables.None? then [] else declaredVariables.value, descendants)
  }

  /** With no loop identifier nothing is reported, so a for loop without a declaration gives no issue. */
  lemma {:induction false} NoLoopIdentifierNoIssue(accesses: seq<ElementAccess>, n: nat)
    requires OneArgumentEach(accesses) && n <= |accesses|
    ensures Process(accesses, [], n).issues == []
    decreases n
  {
    if n > 0 {
      NoLoopIdentifierNoIssue(accesses, n - 1);
      var argument := Argument(accesses[n - 1]);
      assert !MentionsAny(argument, []) by {
        NothingMentionsNoName(argument);
      }
    }
  }

  lemma {:induction false} NothingMentionsNoName(e: Expr)
    ensures !MentionsAny(e, [])
  {
    match e
    case Identifier(_) =>
    case Literal(_) =>
    case Compound(_, children) =>
      forall k | 0 <= k < |children| ensures !MentionsAny(children[k], []) {
        NothingMentionsNoName(children[k]);
      }
  }

  lemma ForLoopWithoutDeclarationIsSilent(isTestCompilation: bool, descendants: seq<ElementAccess>)
    ensures ForIssues(isTestCompilation, None, descendants) == []
  {
    var accesses := GetElementAccesses(descendants);
    GetElementAccessesFilters(descendants);
    NoLoopIdentifierNoIssue(accesses, |accesses|);
  }

  /** Test compilations are skipped entirely. */
  lemma TestCompilationsAreSkipped(declaredVariables: Option<seq<string>>, identifier: string,
                                   descendants: seq<ElementAccess>)
    ensures ForIssues(true, declaredVariables, descendants) == []
    ensures ForEachIssues(true, identifier, descendants) == []
  {
  }

  // -----------------------------------------------------------------------
  // The rule's own test input.

  /** `creatures[i]` read twice inside `for (var i ...)`: one collection only, so nothing is reported. */
  lemma SameCollectionTwiceIsCompliant()
    ensures var creatures := Identifier("creatures");
            var i := Identifier("i");
            ForIssues(false, Some(["i"]), [ElementAccess(Node(1, creatures, "creatures"), [i], false),
                                           ElementAccess(Node(2, creatures, "creatures"), [i], false)]) == []
  {
    var creatures := Identifier("creatures");
    var i := Identifier("i");
    var a1 := ElementAccess(Node(1, creatures, "creatures"), [i], false);
    var a2 := ElementAccess(Node(2, creatures, "creatures"), [i], false);
    var accesses := [a1, a2];
    assert GetElementAccesses(accesses) == accesses by {
      assert accesses[..1] == [a1];
      assert GetElementAccesses([a1]) == [a1] by {
        assert [a1][..0] == [];
      }
    }
    ghost var s1 := Process(accesses, ["i"], 1);
    assert Scan(accesses, 0, 2).0 == [a1.collection];
    assert s1.issues == [];
    assert (creatures, i) in s1.reported;
  }

  const Key := Identifier("key")
  const Dict1Read1 := ElementAccess(Node(1, Identifier("dict1"), "dict1"), [Key], false)
  const Dict1Read2 := ElementAccess(Node(2, Identifier("dict1"), "dict1"), [Key], false)
  const Dict2Read := ElementAccess(Node(3, Identifier("dict2"), "dict2"), [Key], false)
  const Dict1Read3 := ElementAccess(Node(4, Identifier("dict1"), "dict1"), [Key], false)
  const Dict2Write := ElementAccess(Node(5, Identifier("dict2"), "dict2"), [Key], true)
  const DictionaryReads := [Dict1Read1, Dict1Read2, Dict2Read, Dict1Read3]

  lemma DictionaryScan()
    ensures Scan(DictionaryReads, 0, 4) == ([Dict1Read1.collection, Dict2Read.collection],
                                            [Dict1Read2.collection, Dict1Read3.collection])
  {
    var n1, n2, n3, n4 := Dict1Read1.collection, Dict1Read2.collection, Dict2Read.collection, Dict1Read3.collection;
    assert Scan(DictionaryReads, 0, 1) == ([n1], []);
    assert Argument(Dict1Read2) == Key && Argument(Dict2Read) == Key && Argument(Dict1Read3) == Key;
    assert [n1][0].syntax == n2.syntax;
    assert DictionaryReads[1] == Dict1Read2;
    assert Argument(DictionaryReads[1]) == Argument(DictionaryReads[0]);
    var previous := Scan(DictionaryReads, 0, 1);
    assert previous.0[0].syntax == DictionaryReads[1].collection.syntax;
    assert Scan(DictionaryReads, 0, 2) == (previous.0, previous.1 + [DictionaryReads[1].collection]);
    assert previous.1 + [n2] == [n2];
    assert Scan(DictionaryReads, 0, 2) == ([n1], [n2]);
    assert n1.syntax != n3.syntax by {
      assert n1.syntax.name[4] != n3.syntax.name[4];
    }
    assert [n1] + [n3] == [n1, n3];
    assert Scan(DictionaryReads, 0, 3) == ([n1, n3], [n2]);
    assert [n1, n3][0].syntax == n4.syntax;
    assert [n2] + [n4] == [n2, n4];
  }

  lemma DictionaryFirstTurn()
    ensures Process(DictionaryReads, ["key"], 1).issues
            == IssuesAt([Dict1Read1.collection, Dict2Read.collection, Dict1Read2.collection, Dict1Read3.collection],
                        "\"dict1\", \"dict2\"")
    ensures (Identifier("dict1"), Key) in Process(DictionaryReads, ["key"], 1).reported
    ensures (Identifier("dict2"), Key) in Process(DictionaryReads, ["key"], 1).reported
  {
    var n1, n2, n3, n4 := Dict1Read1.collection, Dict1Read2.collection, Dict2Read.collection, Dict1Read3.collection;
    DictionaryScan();
    assert MentionsAny(Key, ["key"]);
    DictionaryNames();
    DictionaryUnion();
    assert PairsWith([n1, n3], Key) == {(n1.syntax, Key), (n3.syntax, Key)} by {
      assert (n1.syntax, Key) == ([n1, n3][0].syntax, Key);
      assert (n3.syntax, Key) == ([n1, n3][1].syntax, Key);
    }
  }

  lemma DictionaryNames()
    ensures CollectionNames([Dict1Read1.collection, Dict2Read.collection]) == "\"dict1\", \"dict2\""
  {
    var matching := [Dict1Read1.collection, Dict2Read.collection];
    var parts := seq(|matching|, k requires 0 <= k < |matching| => Quoted(matching[k]));
    assert parts[0] == "\"dict1\"" && parts[1] == "\"dict2\"";
    assert parts[1..] == ["\"dict2\""];
    assert Join(", ", parts) == parts[0] + ", " + parts[1];
  }

  lemma DictionaryUnion()
    ensures var n1, n2, n3, n4 := Dict1Read1.collection, Dict1Read2.collection, Dict2Read.collection, Dict1Read3.collection;
            Union([n1, n3], [n2, n4]) == [n1, n3, n2, n4]
  {
    var n1, n2, n3, n4 := Dict1Read1.collection, Dict1Read2.collection, Dict2Read.collection, Dict1Read3.collection;
    var all := [n1, n3] + [n2, n4];
    assert all == [n1, n3, n2, n4];
    assert all[1..] == [n3, n2, n4] && all[2..] == [n2, n4] && all[3..] == [n4] && all[4..] == [];
    assert DistinctFrom([], all) == DistinctFrom([n1], all[1..]) by {
      assert all[0] == n1 && n1 !in [] && [] + [n1] == [n1];
    }
    assert DistinctFrom([n1], all[1..]) == DistinctFrom([n1, n3], all[2..]) by {
      assert n3 !in [n1];
      assert [n1] + [n3] == [n1, n3];
    }
    assert DistinctFrom([n1, n3], all[2..]) == DistinctFrom([n1, n3, n2], all[3..]) by {
      assert n2 !in [n1, n3];
      assert [n1, n3] + [n2] == [n1, n3, n2];
    }
    assert DistinctFrom([n1, n3, n2], all[3..]) == DistinctFrom([n1, n3, n2, n4], all[4..]) by {
      assert n4 !in [n1, n3, n2];
      assert [n1, n3, n2] + [n4] == [n1, n3, n2, n4];
    }
  }

  lemma DictionaryLaterTurnsAreSkipped()
    ensures Process(DictionaryReads, ["key"], 4).issues == Process(DictionaryReads, ["key"], 1).issues
  {
    DictionaryFirstTurn();
  }

  lemma DictionaryAccessesCollected()
    ensures GetElementAccesses(DictionaryReads + [Dict2Write]) == DictionaryReads
  {
    var all := DictionaryReads + [Dict2Write];
    assert all[..4] == DictionaryReads && !IsCandidate(all[4]);
    var r3 := [Dict1Read1, Dict1Read2, Dict2Read];
    var r2 := [Dict1Read1, Dict1Read2];
    assert DictionaryReads[..3] == r3 && IsCandidate(DictionaryReads[3]);
    assert r3[..2] == r2 && IsCandidate(r3[2]);
    assert r2[..1] == [Dict1Read1] && IsCandidate(r2[1]);
    assert [Dict1Read1][..0] == [] && IsCandidate(Dict1Read1);
    assert GetElementAccesses([Dict1Read1]) == [Dict1Read1];
    assert GetElementAccesses(r2) == r2;
    assert GetElementAccesses(r3) == r3;
    assert GetElementAccesses(DictionaryReads) == DictionaryReads;
  }

  /**
   * Three reads of `dict1[key]`, one of `dict2[key]` and the write
   * `dict2[key] = ...` in `foreach (var key ...)`: four issues, one at each
   * read, and none at the write.
   */
  lemma DictionaryReadsAreReported()
    ensures var names := "\"dict1\", \"dict2\"";
            ForEachIssues(false, "key", DictionaryReads + [Dict2Write])
            == [ParallelIssue(1, names), ParallelIssue(3, names), ParallelIssue(2, names), ParallelIssue(4, names)]
  {
    var accesses := DictionaryReads;
    DictionaryAccessesCollected();
    DictionaryLaterTurnsAreSkipped();
    DictionaryFirstTurn();
  }
}
