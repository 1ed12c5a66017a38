/**
 * The one-statement-per-line rule (S122), shared between C# and Visual
 * Basic: the statements of a file that the language does not exclude are
 * grouped by the line they start on, and each line holding more than one of
 * them gets one diagnostic spanning those statements' parts on that line.
 *
 * A syntax tree is a list of nodes in document order, each with the index of
 * its parent (which comes before it), its span and the lines its span starts
 * and ends on. Which statements a language excludes is given per node.
 */
module SingleStatementPerLine {
  import opened Common

  datatype Span = Span(start: int, end: int)

  datatype SyntaxNode = SyntaxNode(isStatement: bool, excluded: bool, parent: Option<nat>, span: Span,
                                   startLine: nat, endLine: nat, lastTokenParent: nat)

  /**
   * Parents come first and every token's parent is a node of the tree; a
   * statement starts inside the text line its start line names.
   */
  predicate WellFormed(tree: seq<SyntaxNode>, lines: seq<Span>)
  {
    forall i | 0 <= i < |tree| ::
      (tree[i].parent.Some? ==> tree[i].parent.value < i) &&
      tree[i].lastTokenParent < |tree| &&
      (tree[i].isStatement ==>
         tree[i].startLine < |lines| && tree[i].span.start <= tree[i].span.end &&
         lines[tree[i].startLine].start <= tree[i].span.start <= lines[tree[i].startLine].end)
  }

  // -----------------------------------------------------------------------
  // GetStatements

  /** The statements among the first n nodes that the language does not exclude, in document order. */
  function StatementsUpTo(tree: seq<SyntaxNode>, n: nat): seq<nat>
    requires n <= |tree|
  {
    if n == 0 then []
    else StatementsUpTo(tree, n - 1) + (if tree[n - 1].isStatement && !tree[n - 1].excluded then [n - 1] else [])
  }

  predicate Collected(tree: seq<SyntaxNode>, i: nat)
    requires i < |tree|
  {
    tree[i].isStatement && !tree[i].excluded
  }

  /** r lists, in increasing order, exactly the collected nodes among the first n. */
  ghost predicate SelectsCollected(tree: seq<SyntaxNode>, n: nat, r: seq<nat>)
    requires n <= |tree|
  {
    (forall k | 0 <= k < |r| :: r[k] < n && Collected(tree, r[k])) &&
    Increasing(r) &&
    (forall i | 0 <= i < n :: i in r <==> Collected(tree, i))
  }

  predicate Increasing(r: seq<nat>)
  {
    forall p, q | 0 <= p < q < |r| :: r[p] < r[q]
  }

  lemma {:induction false} StatementsSelect(tree: seq<SyntaxNode>, n: nat)
    requires n <= |tree|
    ensures SelectsCollected(tree, n, StatementsUpTo(tree, n))
  {
    if n > 0 {
      StatementsSelect(tree, n - 1);
      assert SelectsCollected(tree, n - 1, StatementsUpTo(tree, n - 1));
    }
  }

  // -----------------------------------------------------------------------
  // GetContainingStatement

  /** `node as TStatementSyntax` */
  function AsStatement(tree: seq<SyntaxNode>, node: Option<nat>): Option<nat>
    requires node.Some? ==> node.value < |tree|
  {
    if node.Some? && tree[node.value].isStatement then node else None
  }

  /**
   * The walk up from a node while it is not a statement or is a statement
   * the language keeps, giving the statement it stops at.
   */
  function ContainingStatement(tree: seq<SyntaxNode>, lines: seq<Span>, node: Option<nat>): Option<nat>
    requires WellFormed(tree, lines) && (node.Some? ==> node.value < |tree|)
    decreases if node.None? then 0 else node.value + 1
  {
    var statement := AsStatement(tree, node);
    if node.Some? && (statement.None? || !tree[statement.value].excluded)
    then ContainingStatement(tree, lines, tree[node.value].parent)
    else statement
  }

  /** GetContainingStatement: the while loop that reassigns node and statement. */
  method GetContainingStatement(tree: seq<SyntaxNode>, lines: seq<Span>, tokenParent: nat) returns (statement: Option<nat>)
    requires WellFormed(tree, lines) && tokenParent < |tree|
    ensures statement == ContainingStatement(tree, lines, Some(tokenParent))
  {
    var node: Option<nat> := Some(tokenParent);
    statement := AsStatement(tree, node);
    while node.Some? && (statement.None? || !tree[statement.value].excluded)
      invariant node.Some? ==> node.value < |tree|
      invariant statement == AsStatement(tree, node)
      invariant ContainingStatement(tree, lines, node) == ContainingStatement(tree, lines, Some(tokenParent))
      decreases if node.None? then 0 else node.value + 1
    {
      node := tree[node.value].parent;
      statement := AsStatement(tree, node);
    }
  }

  /** The walk stops only at nothing or at an excluded statement. */
  lemma {:induction false} ContainingStatementIsExcluded(tree: seq<SyntaxNode>, lines: seq<Span>, node: Option<nat>)
    requires WellFormed(tree, lines) && (node.Some? ==> node.value < |tree|)
    ensures var r := ContainingStatement(tree, lines, node);
            r.None? || (r.value < |tree| && tree[r.value].isStatement && tree[r.value].excluded)
    decreases if node.None? then 0 else node.value + 1
  {
    var statement := AsStatement(tree, node);
    if node.Some? && (statement.None? || !tree[statement.value].excluded) {
      ContainingStatementIsExcluded(tree, lines, tree[node.value].parent);
    }
  }

  /** So a collected statement is never its last token's containing statement, and its end line is never added. */
  lemma EndLineBranchNeverFires(tree: seq<SyntaxNode>, lines: seq<Span>, st: nat)
    requires WellFormed(tree, lines) && st < |tree| && Collected(tree, st)
    ensures ContainingStatement(tree, lines, Some(tree[st].lastTokenParent)) != Some(st)
  {
    ContainingStatementIsExcluded(tree, lines, Some(tree[st].lastTokenParent));
  }

  // -----------------------------------------------------------------------
  // The per-line cache: a multi-value dictionary whose values are sets,
  // modelled as duplicate-free lists in insertion order.

  type LineCache = map<int, seq<nat>>

  /** AddWithKey: the statement joins the line's set. */
  function AddWithKey(cache: LineCache, line: int, statement: nat): LineCache
  {
    var present := if line in cache then cache[line] else [];
    if statement in present then cache else cache[line := present + [statement]]
  }

  /** AddStatementToLineCache: the start line, and the end line when the last token belongs to the statement. */
  function AddStatement(tree: seq<SyntaxNode>, lines: seq<Span>, cache: LineCache, st: nat): LineCache
    requires WellFormed(tree, lines) && st < |tree|
  {
    var withStart := AddWithKey(cache, tree[st].startLine, st);
    if ContainingStatement(tree, lines, Some(tree[st].lastTokenParent)) == Some(st)
    then AddWithKey(withStart, tree[st].endLine, st)
    else withStart
  }

  /** The cache after the first k collected statements. */
  function CacheAfter(tree: seq<SyntaxNode>, lines: seq<Span>, statements: seq<nat>, k: nat): LineCache
    requires WellFormed(tree, lines) && k <= |statements| && forall j | 0 <= j < |statements| :: statements[j] < |tree|
  {
    if k == 0 then map[]
    else AddStatement(tree, lines, CacheAfter(tree, lines, statements, k - 1), statements[k - 1])
  }

  /** The statements of a list that start on a line, in order: the reference grouping. */
  function OnLine(tree: seq<SyntaxNode>, statements: seq<nat>, line: int): (r: seq<nat>)
    requires forall j | 0 <= j < |statements| :: statements[j] < |tree|
    ensures forall st | st in r :: st in statements
  {
    if statements == [] then []
    else
      var last := statements[|statements| - 1];
      OnLine(tree, statements[..|statements| - 1], line) + (if tree[last].startLine == line then [last] else [])
  }

  lemma {:induction false} OnLineSelects(tree: seq<SyntaxNode>, statements: seq<nat>, line: int)
    requires forall j | 0 <= j < |statements| :: statements[j] < |tree|
    requires Increasing(statements)
    ensures forall st :: st in OnLine(tree, statements, line) <==> st in statements && tree[st].startLine == line
    ensures Increasing(OnLine(tree, statements, line))
  {
    if statements != [] {
      var prefix := statements[..|statements| - 1];
      OnLineSelects(tree, prefix, line);
      assert Increasing(OnLine(tree, prefix, line));
      var last := statements[|statements| - 1];
      assert statements == prefix + [last];
      var r := OnLine(tree, prefix, line);
      forall k | 0 <= k < |r| ensures r[k] < last {
        assert r[k] in prefix;
      }
    }
  }

  ghost predicate GroupsByStartLine(tree: seq<SyntaxNode>, statements: seq<nat>, cache: LineCache)
    requires forall j | 0 <= j < |statements| :: statements[j] < |tree|
  {
    forall line :: (line in cache <==> OnLine(tree, statements, line) != []) &&
                   (line in cache ==> cache[line] == OnLine(tree, statements, line))
  }

  /** The step below, for one line. */
  lemma GroupsStepAt(tree: seq<SyntaxNode>, prefix: seq<nat>, st: nat, before: LineCache, line: int)
    requires st < |tree| && forall j | 0 <= j < |prefix| :: prefix[j] < |tree|
    requires line in before <==> OnLine(tree, prefix, line) != []
    requires line in before ==> before[line] == OnLine(tree, prefix, line)
    requires tree[st].startLine == line ==> st !in OnLine(tree, prefix, line)
    ensures var after := AddWithKey(before, tree[st].startLine, st);
            (line in after <==> OnLine(tree, prefix + [st], line) != []) &&
            (line in after ==> after[line] == OnLine(tree, prefix + [st], line))
  {
    OnLineSnoc(tree, prefix, st, line);
  }

  /** OnLine of a list extended by one statement. */
  lemma OnLineSnoc(tree: seq<SyntaxNode>, prefix: seq<nat>, st: nat, line: int)
    requires st < |tree| && forall j | 0 <= j < |prefix| :: prefix[j] < |tree|
    ensures OnLine(tree, prefix + [st], line) == OnLine(tree, prefix, line) + (if tree[st].startLine == line then [st] else [])
  {
    var ss := prefix + [st];
    assert ss[..|ss| - 1] == prefix && ss[|ss| - 1] == st;
  }

  /** Adding one more statement, new to its start line, to a grouping cache keeps it grouping. */
  lemma GroupsStep(tree: seq<SyntaxNode>, prefix: seq<nat>, st: nat, before: LineCache)
    requires st < |tree| && forall j | 0 <= j < |prefix| :: prefix[j] < |tree|
    requires GroupsByStartLine(tree, prefix, before)
    requires st !in OnLine(tree, prefix, tree[st].startLine)
    ensures GroupsByStartLine(tree, prefix + [st], AddWithKey(before, tree[st].startLine, st))
  {
    var after := AddWithKey(before, tree[st].startLine, st);
    forall line
      ensures (line in after <==> OnLine(tree, prefix + [st], line) != []) &&
              (line in after ==> after[line] == OnLine(tree, prefix + [st], line))
    {
      GroupsStepAt(tree, prefix, st, before, line);
    }
  }

  /**
   * The cache groups the collected statements by start line: each line's set
   * is exactly the statements starting on it, and there is no other entry.
   */
  lemma {:induction false} CacheGroupsByStartLine(tree: seq<SyntaxNode>, lines: seq<Span>, statements: seq<nat>, k: nat)
    requires WellFormed(tree, lines) && k <= |statements|
    requires forall j | 0 <= j < |statements| :: statements[j] < |tree| && Collected(tree, statements[j])
    requires Increasing(statements)
    ensures GroupsByStartLine(tree, statements[..k], CacheAfter(tree, lines, statements, k))
  {
    if k > 0 {
      CacheGroupsByStartLine(tree, lines, statements, k - 1);
      var before := CacheAfter(tree, lines, statements, k - 1);
      var prefix := statements[..k - 1];
      var st := statements[k - 1];
      assert statements[..k] == prefix + [st];
      EndLineBranchNeverFires(tree, lines, st);
      assert CacheAfter(tree, lines, statements, k) == AddWithKey(before, tree[st].startLine, st);
      NextIsNewToItsLine(tree, statements, k);
      GroupsStep(tree, prefix, st, before);
    }
  }

  /** In an increasing list, a statement is not yet among the earlier ones starting on its line. */
  lemma NextIsNewToItsLine(tree: seq<SyntaxNode>, statements: seq<nat>, k: nat)
    requires 0 < k <= |statements| && forall j | 0 <= j < |statements| :: statements[j] < |tree|
    requires Increasing(statements)
    ensures statements[k - 1] !in OnLine(tree, statements[..k - 1], tree[statements[k - 1]].startLine)
  {
    var prefix := statements[..k - 1];
    assert Increasing(prefix);
    OnLineSelects(tree, prefix, tree[statements[k - 1]].startLine);
  }

  // -----------------------------------------------------------------------
  // CalculateLocationForLine

  /** TextSpan.Intersection of two spans that overlap. */
  function Intersection(a: Span, b: Span): Span
  {
    Span(if a.start < b.start then b.start else a.start, if a.end < b.end then a.end else b.end)
  }

  function MinStart(lineSpan: Span, tree: seq<SyntaxNode>, statements: seq<nat>): int
    requires statements != [] && forall j | 0 <= j < |statements| :: statements[j] < |tree|
  {
    var here := Intersection(lineSpan, tree[statements[0]].span).start;
    if |statements| == 1 then here
    else var rest := MinStart(lineSpan, tree, statements[1..]); if here < rest then here else rest
  }

  function MaxEnd(lineSpan: Span, tree: seq<SyntaxNode>, statements: seq<nat>): int
    requires statements != [] && forall j | 0 <= j < |statements| :: statements[j] < |tree|
  {
    var here := Intersection(lineSpan, tree[statements[0]].span).end;
    if |statements| == 1 then here
    else var rest := MaxEnd(lineSpan, tree, statements[1..]); if here > rest then here else rest
  }

  /** The smallest start and the largest end of the statements' intersections with the line. */
  lemma {:induction false} MinStartMaxEndBounds(lineSpan: Span, tree: seq<SyntaxNode>, statements: seq<nat>)
    requires statements != [] && forall j | 0 <= j < |statements| :: statements[j] < |tree|
    ensures forall j | 0 <= j < |statements| ::
              MinStart(lineSpan, tree, statements) <= Intersection(lineSpan, tree[statements[j]].span).start &&
              Intersection(lineSpan, tree[statements[j]].span).end <= MaxEnd(lineSpan, tree, statements)
    ensures exists j | 0 <= j < |statements| :: MinStart(lineSpan, tree, statements) == Intersection(lineSpan, tree[statements[j]].span).start
    ensures exists j | 0 <= j < |statements| :: MaxEnd(lineSpan, tree, statements) == Intersection(lineSpan, tree[statements[j]].span).end
  {
    if |statements| > 1 {
      var rest := statements[1..];
      MinStartMaxEndBounds(lineSpan, tree, rest);
      forall j | 1 <= j < |statements| ensures statements[j] == rest[j - 1] {}
      var a :| 0 <= a < |rest| && MinStart(lineSpan, tree, rest) == Intersection(lineSpan, tree[rest[a]].span).start;
      var b :| 0 <= b < |rest| && MaxEnd(lineSpan, tree, rest) == Intersection(lineSpan, tree[rest[b]].span).end;
      assert rest[a] == statements[a + 1] && rest[b] == statements[b + 1];
    }
  }

  /** Location.Create(tree, TextSpan.FromBounds(min, max)) */
  function LocationForLine(lineSpan: Span, tree: seq<SyntaxNode>, statements: seq<nat>): Span
    requires statements != [] && forall j | 0 <= j < |statements| :: statements[j] < |tree|
  {
    Span(MinStart(lineSpan, tree, statements), MaxEnd(lineSpan, tree, statements))
  }

  // -----------------------------------------------------------------------
  // The syntax-tree action.

  function LinesWithSeveral(cache: LineCache): set<int>
  {
    set line | line in cache && |cache[line]| > 1
  }

  function TreeCache(tree: seq<SyntaxNode>, lines: seq<Span>): LineCache
    requires WellFormed(tree, lines)
  {
    var statements := StatementsUpTo(tree, |tree|);
    StatementsSelect(tree, |tree|);
    assert forall j | 0 <= j < |statements| :: statements[j] < |tree|;
    CacheAfter(tree, lines, statements, |statements|)
  }

  /** Every entry of a cache is a non-empty list of statements starting on a line of the text. */
  ghost predicate CacheFits(tree: seq<SyntaxNode>, lines: seq<Span>, cache: LineCache)
  {
    forall line | line in cache :: 0 <= line < |lines| && cache[line] != [] &&
                                   forall j | 0 <= j < |cache[line]| :: cache[line][j] < |tree|
  }

  lemma TreeCacheGroups(tree: seq<SyntaxNode>, lines: seq<Span>)
    requires WellFormed(tree, lines)
    ensures SelectsCollected(tree, |tree|, StatementsUpTo(tree, |tree|))
    ensures GroupsByStartLine(tree, StatementsUpTo(tree, |tree|), TreeCache(tree, lines))
    ensures CacheFits(tree, lines, TreeCache(tree, lines))
  {
    var statements := StatementsUpTo(tree, |tree|);
    StatementsSelect(tree, |tree|);
    CacheGroupsByStartLine(tree, lines, statements, |statements|);
    assert statements[..|statements|] == statements;
    var cache := TreeCache(tree, lines);
    forall line | line in cache
      ensures 0 <= line < |lines| && cache[line] != [] && forall j | 0 <= j < |cache[line]| :: cache[line][j] < |tree|
    {
      var r := OnLine(tree, statements, line);
      assert cache[line] == r;
      assert r[0] in r;
      OnLineSelects(tree, statements, line);
      forall j | 0 <= j < |r| ensures r[j] < |tree| {
        assert r[j] in statements;
      }
    }
  }

  /** The reported locations, one per line with more than one statement. Nothing is analysed in generated code. */
  function TreeIssues(tree: seq<SyntaxNode>, lines: seq<Span>, isGenerated: bool): map<int, Span>
    requires WellFormed(tree, lines)
  {
    var cache := TreeCache(tree, lines);
    TreeCacheGroups(tree, lines);
    if isGenerated then map[]
    else map line | line in LinesWithSeveral(cache) :: LocationForLine(lines[line], tree, cache[line])
  }

  /** A line's group has more than one statement iff two different statements of the list start on it. */
  lemma SeveralOnLine(tree: seq<SyntaxNode>, statements: seq<nat>, line: int)
    requires forall j | 0 <= j < |statements| :: statements[j] < |tree|
    requires Increasing(statements)
    ensures |OnLine(tree, statements, line)| > 1 <==>
            exists s1, s2 | s1 in statements && s2 in statements :: s1 < s2 && tree[s1].startLine == line && tree[s2].startLine == line
  {
    var r := OnLine(tree, statements, line);
    OnLineSelects(tree, statements, line);
    if |r| > 1 {
      assert r[0] in r && r[1] in r;
    }
    if exists s1, s2 | s1 in statements && s2 in statements :: s1 < s2 && tree[s1].startLine == line && tree[s2].startLine == line {
      var s1, s2 :| s1 in statements && s2 in statements && s1 < s2 && tree[s1].startLine == line && tree[s2].startLine == line;
      assert s1 in r && s2 in r;
    }
  }

  /** A line is reported iff two different collected statements start on it. */
  lemma TreeIssuesPerLine(tree: seq<SyntaxNode>, lines: seq<Span>, line: int)
    requires WellFormed(tree, lines)
    ensures line in TreeIssues(tree, lines, false) <==>
            exists s1, s2 | 0 <= s1 < s2 < |tree| :: Collected(tree, s1) && Collected(tree, s2) &&
                                                   tree[s1].startLine == line && tree[s2].startLine == line
  {
    var statements := StatementsUpTo(tree, |tree|);
    StatementsSelect(tree, |tree|);
    TreeCacheGroups(tree, lines);
    SeveralOnLine(tree, statements, line);
    assert line in TreeIssues(tree, lines, false) <==> |OnLine(tree, statements, line)| > 1;
  }

  /**
   * For statements that start inside a line, the location lies within the
   * line and starts no later than any of them.
   */
  lemma LocationWithinLine(lineSpan: Span, tree: seq<SyntaxNode>, statements: seq<nat>)
    requires statements != [] && forall j | 0 <= j < |statements| :: statements[j] < |tree|
    requires forall j | 0 <= j < |statements| ::
               tree[statements[j]].span.start <= tree[statements[j]].span.end &&
               lineSpan.start <= tree[statements[j]].span.start <= lineSpan.end
    ensures var span := LocationForLine(lineSpan, tree, statements);
            lineSpan.start <= span.start <= span.end <= lineSpan.end &&
            forall j | 0 <= j < |statements| :: span.start <= tree[statements[j]].span.start
  {
    MinStartMaxEndBounds(lineSpan, tree, statements);
    var a :| 0 <= a < |statements| && MinStart(lineSpan, tree, statements) == Intersection(lineSpan, tree[statements[a]].span).start;
    var b :| 0 <= b < |statements| && MaxEnd(lineSpan, tree, statements) == Intersection(lineSpan, tree[statements[b]].span).end;
    assert Intersection(lineSpan, tree[statements[a]].span).start <= Intersection(lineSpan, tree[statements[a]].span).end;
  }

  /**
   * The reported span lies within the line and starts no later than any of
   * the line's statements.
   */
  lemma TreeIssueSpan(tree: seq<SyntaxNode>, lines: seq<Span>, line: int)
    requires WellFormed(tree, lines)
    requires line in TreeIssues(tree, lines, false)
    ensures 0 <= line < |lines|
    ensures var span := TreeIssues(tree, lines, false)[line];
            lines[line].start <= span.start <= span.end <= lines[line].end &&
            forall st | 0 <= st < |tree| && Collected(tree, st) && tree[st].startLine == line :: span.start <= tree[st].span.start
  {
    var statements := StatementsUpTo(tree, |tree|);
    StatementsSelect(tree, |tree|);
    TreeCacheGroups(tree, lines);
    var onLine := OnLine(tree, statements, line);
    OnLineSelects(tree, statements, line);
    assert TreeIssues(tree, lines, false)[line] == LocationForLine(lines[line], tree, onLine);
    forall j | 0 <= j < |onLine|
      ensures tree[onLine[j]].span.start <= tree[onLine[j]].span.end &&
              lines[line].start <= tree[onLine[j]].span.start <= lines[line].end
    {
      assert onLine[j] in onLine;
    }
    LocationWithinLine(lines[line], tree, onLine);
    forall st | 0 <= st < |tree| && Collected(tree, st) && tree[st].startLine == line
      ensures TreeIssues(tree, lines, false)[line].start <= tree[st].span.start
    {
      assert st in onLine;
      var j :| 0 <= j < |onLine| && onLine[j] == st;
    }
  }

  // -----------------------------------------------------------------------
  // The imperative parts.

  /** The foreach over the statements, filling the multi-value dictionary. */
  method BuildLineCache(tree: seq<SyntaxNode>, lines: seq<Span>, statements: seq<nat>) returns (cache: LineCache)
    requires WellFormed(tree, lines) && forall j | 0 <= j < |statements| :: statements[j] < |tree|
    ensures cache == CacheAfter(tree, lines, statements, |statements|)
  {
    cache := map[];
    for k := 0 to |statements|
      invariant cache == CacheAfter(tree, lines, statements, k)
    {
      var st := statements[k];
      cache := AddWithKey(cache, tree[st].startLine, st);
      var tokenBelongsTo := GetContainingStatement(tree, lines, tree[st].lastTokenParent);
      if tokenBelongsTo == Some(st) {
        cache := AddWithKey(cache, tree[st].endLine, st);
      }
    }
  }

  lemma SomeLineRemains(remaining: set<int>)
    requires remaining != {}
    ensures exists line :: line in remaining
  {
    if forall line :: line !in remaining {
      assert false;
    }
  }

  /** The loop over the lines with more than one statement, one location each. */
  method ReportLines(tree: seq<SyntaxNode>, lines: seq<Span>, cache: LineCache) returns (issues: map<int, Span>)
    requires CacheFits(tree, lines, cache)
    ensures issues == map line | line in LinesWithSeveral(cache) :: LocationForLine(lines[line], tree, cache[line])
  {
    issues := map[];
    var remaining := LinesWithSeveral(cache);
    while remaining != {}
      invariant remaining <= LinesWithSeveral(cache)
      invariant issues == map line | line in LinesWithSeveral(cache) - remaining :: LocationForLine(lines[line], tree, cache[line])
      decreases |remaining|
    {
      SomeLineRemains(remaining);
      var line: int :| line in remaining;
      issues := issues[line := LocationForLine(lines[line], tree, cache[line])];
      remaining := remaining - {line};
    }
  }

  /** The syntax-tree action. */
  method AnalyzeTree(tree: seq<SyntaxNode>, lines: seq<Span>, isGenerated: bool) returns (issues: map<int, Span>)
    requires WellFormed(tree, lines)
    ensures issues == TreeIssues(tree, lines, isGenerated)
  {
    if isGenerated {
      return map[];
    }
    var statements := CollectStatements(tree);
    StatementsSelect(tree, |tree|);
    var cache := BuildLineCache(tree, lines, statements);
    TreeCacheGroups(tree, lines);
    issues := ReportLines(tree, lines, cache);
  }

  /** GetStatements */
  method CollectStatements(tree: seq<SyntaxNode>) returns (statements: seq<nat>)
    ensures statements == StatementsUpTo(tree, |tree|)
  {
    statements := [];
    for n := 0 to |tree|
      invariant statements == StatementsUpTo(tree, n)
    {
      if tree[n].isStatement && !tree[n].excluded {
        statements := statements + [n];
      }
    }
  }
}
