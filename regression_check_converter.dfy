/**
 * The regression-check converter: it reads the issues of one rule from the
 * legacy tab-separated report and from the new JSON expectation files,
 * orders both lists by path, line and message, and writes each issue as
 * its path and line separated by a tab.
 *
 * The lines of the legacy file and the deserialised JSON files are inputs.
 * A missing field, list or location is None.
 */
module RegressionCheckConverter {
  import opened Common

  datatype Issue = Issue(path: string, line: int, message: Option<string>)

  datatype ConvertError = IndexOutOfRange | NullReference

  const LegacyPrefix: string := "C:/dev/sonartv/"
  const DesignerSuffix: string := "designer.vb"

  // -----------------------------------------------------------------------
  // Numbers.

  /** int.TryParse without surrounding white space: an optional sign, then digits, within 32 bits. */
  function TryParseInt32(s: string): (r: Option<int>)
    ensures r.Some? ==> IsInt32(r.value)
  {
    var negative := |s| > 0 && s[0] == '-';
    var digits := if |s| > 0 && (s[0] == '-' || s[0] == '+') then s[1..] else s;
    if digits == [] || !AllDigits(digits) then None
    else
      var v: int := if negative then 0 - (DigitsValue(digits) as int) else DigitsValue(digits) as int;
      if IsInt32(v) then Some(v) else None
  }

  /** The line number field: its value, or -1 when it does not parse. */
  function ParsedLine(s: string): (r: int)
    ensures TryParseInt32(s).Some? ==> r == TryParseInt32(s).value
    ensures TryParseInt32(s).None? ==> r == -1
  {
    var parsed := TryParseInt32(s);
    if parsed.Some? then parsed.value else -1
  }

  /** Printing and parsing back a 32-bit line number gives the number. */
  lemma ParseIntToString(n: int)
    requires IsInt32(n)
    ensures TryParseInt32(IntToString(n)) == Some(n)
  {
    if n < 0 {
      var d := NatToDigits(-n);
      assert ("-" + d)[1..] == d;
    }
  }

  // -----------------------------------------------------------------------
  // The legacy report.

  /** The path rewrite: the legacy prefix removed, spaces escaped, slashes turned into backslashes. */
  function RewritePath(p: string): string
  {
    ReplaceAll(ReplaceAll(ReplaceAll(p, LegacyPrefix, ""), " ", "%20"), "/", "\\")
  }

  /** A rewritten path holds no space and no forward slash. */
  lemma RewrittenPathIsEscaped(p: string)
    ensures ' ' !in RewritePath(p) && '/' !in RewritePath(p)
  {
    var escaped := ReplaceAll(ReplaceAll(p, LegacyPrefix, ""), " ", "%20");
    ReplaceAllRemovesChar(ReplaceAll(p, LegacyPrefix, ""), ' ', "%20");
    ReplaceAllRemovesChar(escaped, '/', "\\");
    ReplaceAllKeepsAbsentChar(escaped, '/', "\\", ' ');
  }

  /** One split line: nothing for another rule or a designer file, an issue otherwise; too few fields throw. */
  function LegacyLine(parts: seq<string>, legacyId: string): Result<Option<Issue>, ConvertError>
    requires |parts| >= 1
  {
    if parts[0] != legacyId then Success(None)
    else if |parts| < 2 then Failure(IndexOutOfRange)
    else if EndsWith(Lower(parts[1]), DesignerSuffix) then Success(None)
    else if |parts| < 4 then Failure(IndexOutOfRange)
    else Success(Some(Issue(RewritePath(parts[1]), ParsedLine(parts[2]), Some(parts[3]))))
  }

  /**
   * A line of the rule gives an issue iff its path does not end with
   * designer.vb in any case; the issue takes the rewritten path, the parsed
   * line (or -1) and the fourth field as message.
   */
  lemma {:induction false} LegacyLineSpec(parts: seq<string>, legacyId: string)
    requires |parts| >= 4
    ensures LegacyLine(parts, legacyId).Success?
    ensures LegacyLine(parts, legacyId).value.Some? <==>
              parts[0] == legacyId && !EndsWith(Lower(parts[1]), "designer.vb")
    ensures LegacyLine(parts, legacyId).value.Some? ==>
              LegacyLine(parts, legacyId).value.value ==
                Issue(RewritePath(parts[1]), if TryParseInt32(parts[2]).Some? then TryParseInt32(parts[2]).value else -1, Some(parts[3]))
  {
  }

  /** Lines with too few fields throw once they belong to the rule (and, with two or three, are not a designer file). */
  lemma {:induction false} ShortLinesThrow(parts: seq<string>, legacyId: string)
    requires 1 <= |parts| < 4 && parts[0] == legacyId
    requires |parts| >= 2 ==> !EndsWith(Lower(parts[1]), DesignerSuffix)
    ensures LegacyLine(parts, legacyId) == Failure(IndexOutOfRange)
  {
  }

  /** The issues of the first k lines; the first line that throws ends the reading. */
  function LegacyIssuesUpTo(lines: seq<string>, legacyId: string, k: nat): Result<seq<Issue>, ConvertError>
    requires k <= |lines|
  {
    if k == 0 then Success([])
    else
      match LegacyIssuesUpTo(lines, legacyId, k - 1)
      case Failure(e) => Failure(e)
      case Success(issues) =>
        match LegacyLine(Split(lines[k - 1], '\t'), legacyId)
        case Failure(e) => Failure(e)
        case Success(found) => Success(issues + OptionToSeq(found))
  }

  function LegacyIssues(lines: seq<string>, legacyId: string): Result<seq<Issue>, ConvertError>
  {
    LegacyIssuesUpTo(lines, legacyId, |lines|)
  }

  lemma {:induction false} FailurePersists(lines: seq<string>, legacyId: string, k: nat, m: nat)
    requires k <= m <= |lines| && LegacyIssuesUpTo(lines, legacyId, k).Failure?
    ensures LegacyIssuesUpTo(lines, legacyId, m) == LegacyIssuesUpTo(lines, legacyId, k)
    decreases m - k
  {
    if k < m {
      FailurePersists(lines, legacyId, k, m - 1);
    }
  }

  /** ReadLegacyFile: the loop over the file's lines, with its `continue`s. */
  method ReadLegacyFile(lines: seq<string>, legacyId: string) returns (r: Result<seq<Issue>, ConvertError>)
    ensures r == LegacyIssues(lines, legacyId)
  {
    var issues: seq<Issue> := [];
    for k := 0 to |lines|
      invariant LegacyIssuesUpTo(lines, legacyId, k) == Success(issues)
    {
      var parts := Split(lines[k], '\t');
      assert LegacyIssuesUpTo(lines, legacyId, k + 1) ==
             match LegacyLine(parts, legacyId)
             case Failure(e) => Failure(e)
             case Success(found) => Success(issues + OptionToSeq(found));
      if parts[0] != legacyId {
        assert issues + OptionToSeq(None) == issues;
        continue;
      }
      if |parts| < 2 {
        FailurePersists(lines, legacyId, k + 1, |lines|);
        return Failure(IndexOutOfRange);
      }
      if EndsWith(Lower(parts[1]), DesignerSuffix) {
        assert issues + OptionToSeq(None) == issues;
        continue;
      }
      if |parts| < 4 {
        FailurePersists(lines, legacyId, k + 1, |lines|);
        return Failure(IndexOutOfRange);
      }
      var lineNumber := TryParseInt32(parts[2]);
      var line := if lineNumber.Some? then lineNumber.value else -1;
      issues := issues + [Issue(RewritePath(parts[1]), line, Some(parts[3]))];
    }
    r := Success(issues);
  }

  /** Every legacy issue has an escaped path and a message. */
  lemma {:induction false} LegacyIssuesAreEscaped(lines: seq<string>, legacyId: string, k: nat)
    requires k <= |lines| && LegacyIssuesUpTo(lines, legacyId, k).Success?
    ensures forall x | x in LegacyIssuesUpTo(lines, legacyId, k).value ::
              ' ' !in x.path && '/' !in x.path && x.message.Some?
  {
    if k > 0 {
      LegacyIssuesAreEscaped(lines, legacyId, k - 1);
      var parts := Split(lines[k - 1], '\t');
      if LegacyLine(parts, legacyId).value.Some? {
        RewrittenPathIsEscaped(parts[1]);
      }
    }
  }

  // -----------------------------------------------------------------------
  // The new expectation files.

  datatype Region = Region(startLine: int)
  datatype Location = Location(uri: Option<string>, region: Option<Region>)
  datatype NewIssue = NewIssue(id: Option<string>, message: Option<string>, location: Option<Location>)
  datatype NewExpectedFile = NewExpectedFile(issues: Option<seq<NewIssue>>)

  /** The filter reads the URI without a null check. */
  predicate Readable(n: NewIssue)
  {
    n.location.Some? && n.location.value.uri.Some?
  }

  predicate IsVbIssue(n: NewIssue)
    requires Readable(n)
  {
    EndsWith(n.location.value.uri.value, ".vb")
  }

  function ConvertNewIssue(n: NewIssue): Issue
    requires Readable(n)
  {
    Issue(n.location.value.uri.value,
          if n.location.value.region.Some? then n.location.value.region.value.startLine else -1,
          n.message)
  }

  function NewIssuesOf(ns: seq<NewIssue>): Result<seq<Issue>, ConvertError>
  {
    if ns == [] then Success([])
    else if !Readable(ns[0]) then Failure(NullReference)
    else
      match NewIssuesOf(ns[1..])
      case Failure(e) => Failure(e)
      case Success(rest) => Success((if IsVbIssue(ns[0]) then [ConvertNewIssue(ns[0])] else []) + rest)
  }

  /** One file's issues; a file without an issue list throws. */
  function NewFileIssues(f: NewExpectedFile): Result<seq<Issue>, ConvertError>
  {
    if f.issues.None? then Failure(NullReference) else NewIssuesOf(f.issues.value)
  }

  /** What one issue contributes: itself converted when it is a readable .vb issue, nothing otherwise. */
  function KeptIssue(n: NewIssue): seq<Issue>
  {
    if Readable(n) && IsVbIssue(n) then [ConvertNewIssue(n)] else []
  }

  function KeptEach(ns: seq<NewIssue>): (r: seq<seq<Issue>>)
    ensures |r| == |ns| && forall i | 0 <= i < |ns| :: r[i] == KeptIssue(ns[i])
  {
    seq(|ns|, i requires 0 <= i < |ns| => KeptIssue(ns[i]))
  }

  /**
   * The list is read iff every issue has a location with a URI; then the
   * issues kept are exactly the .vb ones, converted, in order, each as often
   * as it occurs.
   */
  lemma {:induction false} NewIssuesOfSpec(ns: seq<NewIssue>)
    ensures NewIssuesOf(ns).Success? <==> forall i | 0 <= i < |ns| :: Readable(ns[i])
    ensures NewIssuesOf(ns).Success? ==>
              (forall x | x in NewIssuesOf(ns).value :: EndsWith(x.path, ".vb")) &&
              (forall i | 0 <= i < |ns| && IsVbIssue(ns[i]) :: ConvertNewIssue(ns[i]) in NewIssuesOf(ns).value) &&
              (forall x | x in NewIssuesOf(ns).value :: exists i | 0 <= i < |ns| :: IsVbIssue(ns[i]) && ConvertNewIssue(ns[i]) == x)
    ensures NewIssuesOf(ns).Success? ==> NewIssuesOf(ns).value == Concat(KeptEach(ns))
  {
    if ns != [] {
      NewIssuesOfSpec(ns[1..]);
      assert KeptEach(ns)[1..] == KeptEach(ns[1..]);
      if NewIssuesOf(ns).Success? {
        var rest := NewIssuesOf(ns[1..]).value;
        forall i | 0 <= i < |ns| && IsVbIssue(ns[i])
          ensures ConvertNewIssue(ns[i]) in NewIssuesOf(ns).value
        {
          if i > 0 {
            assert ns[1..][i - 1] == ns[i];
          }
        }
        forall x | x in NewIssuesOf(ns).value
          ensures exists i | 0 <= i < |ns| :: IsVbIssue(ns[i]) && ConvertNewIssue(ns[i]) == x
        {
          if x in rest {
            var j :| 0 <= j < |ns[1..]| && IsVbIssue(ns[1..][j]) && ConvertNewIssue(ns[1..][j]) == x;
            assert ns[j + 1] == ns[1..][j];
          }
        }
      }
    }
  }

  /** A kept issue's line is the region's start line, or -1 without a region. */
  lemma ConvertedLine(n: NewIssue)
    requires Readable(n)
    ensures n.location.value.region.None? ==> ConvertNewIssue(n).line == -1
    ensures n.location.value.region.Some? ==> ConvertNewIssue(n).line == n.location.value.region.value.startLine
    ensures ConvertNewIssue(n).path == n.location.value.uri.value && ConvertNewIssue(n).message == n.message
  {
  }

  /** ReadNewExpectedFolder over the deserialised files, in order. */
  function NewFolderIssues(files: seq<NewExpectedFile>): Result<seq<Issue>, ConvertError>
  {
    if files == [] then Success([])
    else
      match NewFileIssues(files[0])
      case Failure(e) => Failure(e)
      case Success(first) =>
        match NewFolderIssues(files[1..])
        case Failure(e) => Failure(e)
        case Success(rest) => Success(first + rest)
  }

  /** What one file contributes when it is read. */
  function FileIssuesEach(files: seq<NewExpectedFile>): (r: seq<seq<Issue>>)
    requires forall i | 0 <= i < |files| :: NewFileIssues(files[i]).Success?
    ensures |r| == |files| && forall i | 0 <= i < |files| :: r[i] == NewFileIssues(files[i]).value
  {
    seq(|files|, i requires 0 <= i < |files| && NewFileIssues(files[i]).Success? => NewFileIssues(files[i]).value)
  }

  /**
   * The folder is read iff every file is, and then its issues are the files'
   * issues one file after another; the first file that throws ends the read.
   */
  lemma {:induction false} NewFolderIssuesSpec(files: seq<NewExpectedFile>)
    ensures NewFolderIssues(files).Success? <==> forall i | 0 <= i < |files| :: NewFileIssues(files[i]).Success?
    ensures NewFolderIssues(files).Success? ==> NewFolderIssues(files).value == Concat(FileIssuesEach(files))
    ensures NewFolderIssues(files).Failure? ==>
              exists i | 0 <= i < |files| ::
                NewFileIssues(files[i]) == Failure(NewFolderIssues(files).error) &&
                forall j | 0 <= j < i :: NewFileIssues(files[j]).Success?
  {
    if files != [] {
      NewFolderIssuesSpec(files[1..]);
      assert forall i | 1 <= i < |files| :: files[i] == files[1..][i - 1];
      if NewFileIssues(files[0]).Success? {
        if NewFolderIssues(files).Success? {
          assert FileIssuesEach(files)[1..] == FileIssuesEach(files[1..]);
        } else {
          var i :| 0 <= i < |files[1..]| &&
                   NewFileIssues(files[1..][i]) == Failure(NewFolderIssues(files).error) &&
                   forall j | 0 <= j < i :: NewFileIssues(files[1..][j]).Success?;
          assert NewFileIssues(files[i + 1]) == Failure(NewFolderIssues(files).error);
        }
      }
    }
  }

  // -----------------------------------------------------------------------
  // The order: by path, then line, then message.

  /** Ordinal lexicographic order on strings. */
  predicate StringLe(a: string, b: string)
  {
    a == [] || (b != [] && (a[0] < b[0] || (a[0] == b[0] && StringLe(a[1..], b[1..]))))
  }

  lemma {:induction false} StringLeTotal(a: string, b: string)
    ensures StringLe(a, b) || StringLe(b, a)
  {
    if a != [] && b != [] && a[0] == b[0] {
      StringLeTotal(a[1..], b[1..]);
    }
  }

  lemma {:induction false} StringLeAntisymmetric(a: string, b: string)
    requires StringLe(a, b) && StringLe(b, a)
    ensures a == b
  {
    if a != [] && b != [] {
      StringLeAntisymmetric(a[1..], b[1..]);
      assert a == [a[0]] + a[1..] && b == [b[0]] + b[1..];
    }
  }

  lemma {:induction false} StringLeTransitive(a: string, b: string, c: string)
    requires StringLe(a, b) && StringLe(b, c)
    ensures StringLe(a, c)
  {
    if a != [] && b != [] && c != [] && a[0] == b[0] && b[0] == c[0] {
      StringLeTransitive(a[1..], b[1..], c[1..]);
    }
  }

  /** A null message sorts first. */
  predicate MessageLe(a: Option<string>, b: Option<string>)
  {
    a.None? || (b.Some? && StringLe(a.value, b.value))
  }

  predicate IssueLe(x: Issue, y: Issue)
  {
    if x.path != y.path then StringLe(x.path, y.path)
    else if x.line != y.line then x.line < y.line
    else MessageLe(x.message, y.message)
  }

  lemma IssueLeTotal(x: Issue, y: Issue)
    ensures IssueLe(x, y) || IssueLe(y, x)
  {
    StringLeTotal(x.path, y.path);
    if x.message.Some? && y.message.Some? {
      StringLeTotal(x.message.value, y.message.value);
    }
  }

  /** Issues that compare equal both ways are the same issue, so the stability of the sort is unobservable. */
  lemma EqualKeysAreEqualIssues(x: Issue, y: Issue)
    requires IssueLe(x, y) && IssueLe(y, x)
    ensures x == y
  {
    if x.path != y.path {
      StringLeAntisymmetric(x.path, y.path);
    }
    if x.message.Some? && y.message.Some? {
      StringLeAntisymmetric(x.message.value, y.message.value);
    }
  }

  lemma IssueLeTransitive(x: Issue, y: Issue, z: Issue)
    requires IssueLe(x, y) && IssueLe(y, z)
    ensures IssueLe(x, z)
  {
    if x.path != y.path && y.path != z.path {
      StringLeTransitive(x.path, y.path, z.path);
      if x.path == z.path {
        StringLeAntisymmetric(x.path, y.path);
      }
    }
    if x.path == y.path && y.path == z.path && x.line == y.line && y.line == z.line &&
       x.message.Some? && y.message.Some? && z.message.Some? {
      StringLeTransitive(x.message.value, y.message.value, z.message.value);
    }
  }

  predicate Sorted(s: seq<Issue>)
  {
    forall i, j | 0 <= i < j < |s| :: IssueLe(s[i], s[j])
  }

  function Insert(x: Issue, s: seq<Issue>): (r: seq<Issue>)
    ensures multiset(r) == multiset(s) + multiset{x}
  {
    if s == [] then [x]
    else if IssueLe(x, s[0]) then [x] + s
    else
      assert s == [s[0]] + s[1..];
      [s[0]] + Insert(x, s[1..])
  }

  lemma {:induction false} InsertKeepsSorted(x: Issue, s: seq<Issue>)
    requires Sorted(s)
    ensures Sorted(Insert(x, s))
  {
    if s != [] {
      if IssueLe(x, s[0]) {
        forall j | 1 < j < |s| + 1 ensures IssueLe(x, ([x] + s)[j]) {
          IssueLeTransitive(x, s[0], s[j - 1]);
        }
      } else {
        IssueLeTotal(x, s[0]);
        var tail := Insert(x, s[1..]);
        InsertKeepsSorted(x, s[1..]);
        forall j | 0 <= j < |tail| ensures IssueLe(s[0], tail[j]) {
          assert tail[j] in multiset(tail);
          assert tail[j] == x || tail[j] in multiset(s[1..]);
          if tail[j] != x {
            var k :| 0 <= k < |s[1..]| && s[1..][k] == tail[j];
            assert s[k + 1] == tail[j];
          }
        }
        var r := [s[0]] + tail;
        forall i, j | 0 <= i < j < |r| ensures IssueLe(r[i], r[j]) {
          if i > 0 {
            assert r[i] == tail[i - 1] && r[j] == tail[j - 1];
          }
        }
      }
    }
  }

  /** The issues ordered by path, line and message (OrderBy ... ThenBy ... ThenBy ...). */
  function SortIssues(s: seq<Issue>): (r: seq<Issue>)
    ensures multiset(r) == multiset(s)
  {
    if s == [] then []
    else
      assert s == [s[0]] + s[1..];
      Insert(s[0], SortIssues(s[1..]))
  }

  /** The sorted list is ordered and holds the same issues. */
  lemma {:induction false} SortIssuesSorts(s: seq<Issue>)
    ensures Sorted(SortIssues(s)) && multiset(SortIssues(s)) == multiset(s)
  {
    if s != [] {
      SortIssuesSorts(s[1..]);
      InsertKeepsSorted(s[0], SortIssues(s[1..]));
    }
  }

  // -----------------------------------------------------------------------
  // The output.

  /** Issue.ToString: the path and the line, separated by a tab; the message is left out. */
  function IssueText(i: Issue): string
  {
    i.path + "\t" + IntToString(i.line)
  }

  /** WriteIssues: one line per issue, in order. */
  method WriteIssues(issues: seq<Issue>) returns (lines: seq<string>)
    ensures |lines| == |issues|
    ensures forall k | 0 <= k < |issues| :: lines[k] == IssueText(issues[k])
  {
    lines := [];
    for k := 0 to |issues|
      invariant |lines| == k
      invariant forall j | 0 <= j < k :: lines[j] == IssueText(issues[j])
    {
      lines := lines + [IssueText(issues[k])];
    }
  }

  /** The output file: the folder, a backslash, the new Id and ".txt". */
  function OutputFileName(folder: string, newId: string): string
  {
    folder + "\\" + newId + ".txt"
  }

  /** The legacy and the new issues of one rule go to different files, and different rules to different files. */
  lemma OutputFileNamesDistinct(newId: string, otherId: string)
    ensures OutputFileName("Legacy", newId) != OutputFileName("New", newId)
    ensures otherId != newId ==> OutputFileName("New", newId) != OutputFileName("New", otherId)
    ensures otherId != newId ==> OutputFileName("Legacy", newId) != OutputFileName("Legacy", otherId)
  {
    assert OutputFileName("Legacy", newId)[0] == 'L';
    assert OutputFileName("New", newId)[0] == 'N';
    if otherId != newId {
      OutputFileNameInjective("New", newId, otherId);
      OutputFileNameInjective("Legacy", newId, otherId);
    }
  }

  /** The file name determines the rule's new Id. */
  lemma OutputFileNameInjective(folder: string, a: string, b: string)
    ensures OutputFileName(folder, a) == OutputFileName(folder, b) ==> a == b
  {
    var fa := OutputFileName(folder, a);
    var fb := OutputFileName(folder, b);
    assert a == fa[|folder| + 1..|fa| - 4];
    assert b == fb[|folder| + 1..|fb| - 4];
  }

  lemma {:induction false} SplitWithoutSeparator(s: string, sep: char)
    requires sep !in s
    ensures Split(s, sep) == [s]
    decreases |s|
  {
    if s != [] {
      SplitWithoutSeparator(s[1..], sep);
      assert s == [s[0]] + s[1..];
    }
  }

  lemma {:induction false} SplitAtSeparator(a: string, sep: char, b: string)
    requires sep !in a
    ensures Split(a + [sep] + b, sep) == [a] + Split(b, sep)
    decreases |a|
  {
    if a == [] {
      assert a + [sep] + b == [sep] + b;
      assert ([sep] + b)[1..] == b;
    } else {
      SplitAtSeparator(a[1..], sep, b);
      assert (a + [sep] + b)[1..] == a[1..] + [sep] + b;
      assert a == [a[0]] + a[1..];
    }
  }

  /** A printed line number holds only a sign and digits. */
  lemma IntToStringHasNoTab(n: int)
    ensures '\t' !in IntToString(n)
  {
    var d := NatToDigits(if n < 0 then -n else n);
    assert forall i | 0 <= i < |d| :: IsDigit(d[i]);
  }

  /**
   * The text of an issue whose path holds no tab splits back into its path
   * and line, as the legacy reader expects its first fields.
   */
  lemma ToStringRoundTrip(i: Issue)
    requires '\t' !in i.path && IsInt32(i.line)
    ensures Split(IssueText(i), '\t') == [i.path, IntToString(i.line)]
    ensures TryParseInt32(Split(IssueText(i), '\t')[1]) == Some(i.line)
  {
    IntToStringHasNoTab(i.line);
    SplitAtSeparator(i.path, '\t', IntToString(i.line));
    SplitWithoutSeparator(IntToString(i.line), '\t');
    assert IssueText(i) == i.path + ['\t'] + IntToString(i.line);
    ParseIntToString(i.line);
  }
}
