/**
 * Rule parameters read from the SonarLint.xml additional file
 * (ParameterLoader): the XML is parsed into per-rule key/value lists, and an
 * analyzer's attributed properties are set from the entry of its single
 * diagnostic Id, once per analyzer.
 */
module ParameterLoader {
  import opened Common

  // -----------------------------------------------------------------------
  // The XML, as an element tree.

  /** An XML element: its name, its text value and its child elements in document order. */
  datatype Element = Element(name: string, value: string, children: seq<Element>)

  /** Enumerable.Single on a sequence of elements failed: zero or several elements of that name. */
  datatype XmlError = NotSingle(name: string)

  /**
   * The child elements with a given name, in document order: each element
   * of that name as often as it occurs, and nothing else.
   */
  function ChildrenNamed(es: seq<Element>, name: string): (r: seq<Element>)
    ensures |r| <= |es| && forall i | 0 <= i < |r| :: r[i].name == name
    ensures (exists i | 0 <= i < |es| :: es[i].name == name) ==> r != []
  {
    if es == [] then []
    else (if es[0].name == name then [es[0]] else []) + ChildrenNamed(es[1..], name)
  }

  /** The children of a name are exactly those elements, each as often as it occurs: Single sees their true count. */
  lemma {:induction false} ChildrenNamedSelects(es: seq<Element>, name: string)
    ensures forall e :: multiset(ChildrenNamed(es, name))[e] == if e.name == name then multiset(es)[e] else 0
    ensures forall e :: e in ChildrenNamed(es, name) <==> e in es && e.name == name
  {
    if es != [] {
      ChildrenNamedSelects(es[1..], name);
      assert es == [es[0]] + es[1..];
    }
  }

  /** Enumerable.Single: the one element, or an error naming what was looked for. */
  function Single(es: seq<Element>, name: string): (r: Result<Element, XmlError>)
    ensures r.Success? <==> |es| == 1
    ensures r.Success? ==> r.value == es[0]
    ensures r.Failure? ==> r.error == NotSingle(name)
  {
    if |es| == 1 then Success(es[0]) else Failure(NotSingle(name))
  }

  /**
   * XContainer.Descendants: every element below the container, in document
   * order (pre-order): the given elements, the children of every element
   * listed, and nothing that is neither.
   */
  function Descendants(es: seq<Element>): (r: seq<Element>)
    ensures |r| >= |es|
    ensures forall e | e in es :: e in r
    decreases es
  {
    if es == [] then [] else [es[0]] + Descendants(es[0].children) + Descendants(es[1..])
  }

  /**
   * The descendants are closed under taking children, and each of them is a
   * given element or a child of another descendant.
   */
  lemma {:induction false} DescendantsClosed(es: seq<Element>)
    ensures forall e, c | e in Descendants(es) && c in e.children :: c in Descendants(es)
    ensures forall e | e in Descendants(es) :: e in es || exists p | p in Descendants(es) :: e in p.children
    decreases es
  {
    if es != [] {
      var below, rest := Descendants(es[0].children), Descendants(es[1..]);
      DescendantsClosed(es[0].children);
      DescendantsClosed(es[1..]);
      assert Descendants(es) == [es[0]] + below + rest;
      forall e | e in Descendants(es)
        ensures e in es || exists p | p in Descendants(es) :: e in p.children
      {
        if e in below && e !in es[0].children {
          var p :| p in below && e in p.children;
          assert p in Descendants(es);
        } else if e in below {
          assert es[0] in Descendants(es);
        } else if e in rest && e !in es[1..] {
          var p :| p in rest && e in p.children;
          assert p in Descendants(es);
        } else if e in rest {
          assert e in es;
        }
      }
    }
  }

  /** A Rule element that has a Parameters child. */
  predicate IsParameterisedRule(e: Element)
  {
    e.name == "Rule" && ChildrenNamed(e.children, "Parameters") != []
  }

  /** The parameterised Rule elements among the given ones, in order. */
  function SelectRules(ds: seq<Element>): (r: seq<Element>)
    ensures forall e | e in r :: e in ds && IsParameterisedRule(e)
    ensures forall e | e in ds && IsParameterisedRule(e) :: e in r
  {
    if ds == [] then []
    else (if IsParameterisedRule(ds[0]) then [ds[0]] else []) + SelectRules(ds[1..])
  }

  /** The Rule descendants with a Parameters child: the elements ParseParameters visits. */
  function RuleElements(xml: seq<Element>): seq<Element>
  {
    SelectRules(Descendants(xml))
  }

  datatype RuleParameterValue = RuleParameterValue(parameterKey: string, parameterValue: string)

  datatype RuleParameterValues = RuleParameterValues(ruleId: string, parameterValues: seq<RuleParameterValue>)

  /** A Parameter element with exactly one Key and one Value child. */
  predicate WellFormedParameter(e: Element)
  {
    |ChildrenNamed(e.children, "Key")| == 1 && |ChildrenNamed(e.children, "Value")| == 1
  }

  /** The key/value pair of each Parameter element, in order; the first malformed one is the error. */
  function ParseParameterList(ps: seq<Element>): (r: Result<seq<RuleParameterValue>, XmlError>)
    ensures r.Success? <==> forall i | 0 <= i < |ps| :: WellFormedParameter(ps[i])
    ensures r.Success? ==>
              |r.value| == |ps| &&
              forall i | 0 <= i < |ps| ::
                r.value[i] == RuleParameterValue(ChildrenNamed(ps[i].children, "Key")[0].value,
                                                 ChildrenNamed(ps[i].children, "Value")[0].value)
  {
    if ps == [] then Success([])
    else
      match Single(ChildrenNamed(ps[0].children, "Key"), "Key")
      case Failure(e) => Failure(e)
      case Success(key) =>
        match Single(ChildrenNamed(ps[0].children, "Value"), "Value")
        case Failure(e) => Failure(e)
        case Success(value) =>
          match ParseParameterList(ps[1..])
          case Failure(e) => Failure(e)
          case Success(rest) => Success([RuleParameterValue(key.value, value.value)] + rest)
  }

  /** A Rule element with one Key, one Parameters child and only well-formed Parameter elements in it. */
  predicate WellFormedRule(rule: Element)
  {
    |ChildrenNamed(rule.children, "Key")| == 1 &&
    |ChildrenNamed(rule.children, "Parameters")| == 1 &&
    var ps := ChildrenNamed(ChildrenNamed(rule.children, "Parameters")[0].children, "Parameter");
    forall i | 0 <= i < |ps| :: WellFormedParameter(ps[i])
  }

  /** One rule's entry: the text of its Key, and the pairs of the Parameter elements under its Parameters child. */
  function ParseRule(rule: Element): Result<RuleParameterValues, XmlError>
  {
    match Single(ChildrenNamed(rule.children, "Key"), "Key")
    case Failure(e) => Failure(e)
    case Success(key) =>
      match Single(ChildrenNamed(rule.children, "Parameters"), "Parameters")
      case Failure(e) => Failure(e)
      case Success(parameters) =>
        match ParseParameterList(ChildrenNamed(parameters.children, "Parameter"))
        case Failure(e) => Failure(e)
        case Success(pvs) => Success(RuleParameterValues(key.value, pvs))
  }

  /** The entries of the rules from the i-th on, in order; the first malformed rule is the error. */
  function ParseRulesFrom(rules: seq<Element>, i: nat): Result<seq<RuleParameterValues>, XmlError>
    requires i <= |rules|
    decreases |rules| - i
  {
    if i == |rules| then Success([])
    else
      match ParseRule(rules[i])
      case Failure(e) => Failure(e)
      case Success(entry) =>
        match ParseRulesFrom(rules, i + 1)
        case Failure(e) => Failure(e)
        case Success(rest) => Success([entry] + rest)
  }

  /** A rule parses iff it is well formed, into the text of its Key and one pair per Parameter element. */
  lemma ParseRuleSucceedsIffWellFormed(rule: Element)
    ensures ParseRule(rule).Success? <==> WellFormedRule(rule)
    ensures ParseRule(rule).Success? ==>
              ParseRule(rule).value.ruleId == ChildrenNamed(rule.children, "Key")[0].value &&
              |ParseRule(rule).value.parameterValues| ==
                |ChildrenNamed(ChildrenNamed(rule.children, "Parameters")[0].children, "Parameter")|
  {
  }

  /** The rules parse, from the i-th on, iff each of them is well formed. */
  lemma {:induction false} ParseRulesFromSucceedsIff(rules: seq<Element>, i: nat)
    requires i <= |rules|
    ensures ParseRulesFrom(rules, i).Success? <==> forall j | i <= j < |rules| :: WellFormedRule(rules[j])
    decreases |rules| - i
  {
    if i < |rules| {
      ParseRuleSucceedsIffWellFormed(rules[i]);
      ParseRulesFromSucceedsIff(rules, i + 1);
    }
  }

  /** A successful parse has one entry per rule from the i-th on, each that rule's own. */
  lemma {:induction false} ParseRulesFromEntries(rules: seq<Element>, i: nat)
    requires i <= |rules| && ParseRulesFrom(rules, i).Success?
    ensures |ParseRulesFrom(rules, i).value| == |rules| - i
    ensures forall j | i <= j < |rules| :: Success(ParseRulesFrom(rules, i).value[j - i]) == ParseRule(rules[j])
    decreases |rules| - i
  {
    if i < |rules| {
      ParseRulesFromEntries(rules, i + 1);
      var rest := ParseRulesFrom(rules, i + 1).value;
      var all := ParseRulesFrom(rules, i).value;
      assert all == [ParseRule(rules[i]).value] + rest;
      forall j | i <= j < |rules| ensures Success(all[j - i]) == ParseRule(rules[j]) {
        if j > i {
          assert all[j - i] == rest[j - (i + 1)];
        }
      }
    }
  }

  /** A failed parse fails with the error of one of the rules from the i-th on. */
  lemma {:induction false} ParseRulesFromError(rules: seq<Element>, i: nat)
    requires i <= |rules| && ParseRulesFrom(rules, i).Failure?
    ensures exists j | i <= j < |rules| :: ParseRule(rules[j]) == Failure(ParseRulesFrom(rules, i).error)
    decreases |rules| - i
  {
    if ParseRule(rules[i]).Success? {
      ParseRulesFromError(rules, i + 1);
    } else {
      assert ParseRule(rules[i]) == Failure(ParseRulesFrom(rules, i).error);
    }
  }

  /**
   * The rules parse, from the i-th on, iff each of them does; then there is
   * one entry per rule, in order; otherwise the error is some rule's own.
   */
  lemma ParseRulesFromSpec(rules: seq<Element>, i: nat)
    requires i <= |rules|
    ensures ParseRulesFrom(rules, i).Success? <==> forall j | i <= j < |rules| :: WellFormedRule(rules[j])
    ensures ParseRulesFrom(rules, i).Success? ==>
              |ParseRulesFrom(rules, i).value| == |rules| - i &&
              forall j | i <= j < |rules| :: Success(ParseRulesFrom(rules, i).value[j - i]) == ParseRule(rules[j])
    ensures ParseRulesFrom(rules, i).Failure? ==>
              exists j | i <= j < |rules| :: ParseRule(rules[j]) == Failure(ParseRulesFrom(rules, i).error)
  {
    ParseRulesFromSucceedsIff(rules, i);
    if ParseRulesFrom(rules, i).Success? {
      ParseRulesFromEntries(rules, i);
    } else {
      ParseRulesFromError(rules, i);
    }
  }

  /** What ParseParameters yields for a document. */
  function ParsedParameters(xml: seq<Element>): Result<seq<RuleParameterValues>, XmlError>
  {
    ParseRulesFrom(RuleElements(xml), 0)
  }

  /**
   * ParseParameters: one entry per parameterised Rule element, in document
   * order; the first malformed rule makes it throw.
   */
  method ParseParameters(xml: seq<Element>) returns (r: Result<seq<RuleParameterValues>, XmlError>)
    ensures r == ParsedParameters(xml)
  {
    var rules := RuleElements(xml);
    var builder: seq<RuleParameterValues> := [];
    ghost var whole := ParseRulesFrom(rules, 0);
    if whole.Success? {
      assert builder + whole.value == whole.value;
    }
    var i := 0;
    while i < |rules|
      invariant 0 <= i <= |rules|
      invariant ParseRulesFrom(rules, 0) == (match ParseRulesFrom(rules, i)
                                               case Failure(e) => Failure(e)
                                               case Success(rest) => Success(builder + rest))
    {
      var parsed := ParseRule(rules[i]);
      if parsed.Failure? {
        return Failure(parsed.error);
      }
      ghost var tail := ParseRulesFrom(rules, i + 1);
      if tail.Success? {
        assert (builder + [parsed.value]) + tail.value == builder + ([parsed.value] + tail.value);
      }
      builder := builder + [parsed.value];
      i := i + 1;
    }
    assert builder + [] == builder;
    return Success(builder);
  }

  // -----------------------------------------------------------------------
  // Converting a value to the property's type.

  datatype PropertyType = StringType | IntegerType | OtherType

  datatype ParameterValue = StringValue(s: string) | IntegerValue(n: int)

  datatype LoaderError =
    | Xml(xmlError: XmlError)
    | SupportedDiagnosticNotSingle
    | AttributeNotSingle(property: string)
    | FormatError
    | OverflowError
    | NotSupported
    | EmptyPath

  /**
   * ChangeParameterType: a String parameter is the text itself; an Integer
   * parameter is parsed with no sign, no white space and no separators, and
   * must fit in 32 bits; any other type is not supported.
   */
  function ChangeParameterType(parameter: string, t: PropertyType): (r: Result<ParameterValue, LoaderError>)
    ensures t == StringType ==> r == Success(StringValue(parameter))
    ensures t == OtherType ==> r == Failure(NotSupported)
    ensures t == IntegerType && r.Success? ==>
              parameter != [] && AllDigits(parameter) &&
              r.value == IntegerValue(DigitsValue(parameter)) && IsInt32(r.value.n)
    ensures t == IntegerType && (parameter == [] || !AllDigits(parameter)) ==> r == Failure(FormatError)
  {
    match t
    case StringType => Success(StringValue(parameter))
    case IntegerType =>
      if parameter == [] || !AllDigits(parameter) then Failure(FormatError)
      else if DigitsValue(parameter) > Int32Max then Failure(OverflowError)
      else Success(IntegerValue(DigitsValue(parameter)))
    case OtherType => Failure(NotSupported)
  }

  /** Every non-negative 32-bit integer written in decimal is read back as itself. */
  lemma IntegerParameterRoundTrip(n: nat)
    requires n <= Int32Max
    ensures ChangeParameterType(NatToDigits(n), IntegerType) == Success(IntegerValue(n))
  {
  }

  /** A value past the 32-bit range is an overflow, not a wrapped number. */
  lemma IntegerParameterOverflows(n: nat)
    requires n > Int32Max
    ensures ChangeParameterType(NatToDigits(n), IntegerType) == Failure(OverflowError)
  {
  }

  // -----------------------------------------------------------------------
  // Finding the configuration file.

  const ParameterConfigurationFileName: string := "SonarLint.xml"

  /** The directory separators and, as on Windows, the volume separator ':'. */
  predicate IsDirectorySeparator(c: char) { c == '/' || c == '\\' || c == ':' }

  /** What follows the last separator of a path. */
  function LastSegment(path: string): (r: string)
    ensures |r| <= |path| && r == path[|path| - |r|..]
    ensures forall i | 0 <= i < |r| :: !IsDirectorySeparator(r[i])
    ensures |r| < |path| ==> IsDirectorySeparator(path[|path| - |r| - 1])
  {
    if path == [] then []
    else if IsDirectorySeparator(path[|path| - 1]) then []
    else LastSegment(path[..|path| - 1]) + [path[|path| - 1]]
  }

  /** FileInfo.Name: the constructor refuses an empty path, otherwise the last segment. */
  function FileName(path: string): (r: Result<string, LoaderError>)
    ensures r.Failure? <==> path == []
    ensures r.Failure? ==> r.error == EmptyPath
    ensures r.Success? ==> |r.value| <= |path| && r.value == path[|path| - |r.value|..]
    ensures r.Success? ==> forall i | 0 <= i < |r.value| :: !IsDirectorySeparator(r.value[i])
    ensures r.Success? && |r.value| < |path| ==> IsDirectorySeparator(path[|path| - |r.value| - 1])
  {
    if path == [] then Failure(EmptyPath) else Success(LastSegment(path))
  }

  /** ConfigurationFilePathMatchesExpected: the file name is SonarLint.xml, ignoring case; an empty path throws. */
  function ConfigurationFilePathMatchesExpected(path: string): Result<bool, LoaderError>
  {
    match FileName(path)
    case Failure(e) => Failure(e)
    case Success(name) => Success(EqualsIgnoreCase(name, ParameterConfigurationFileName))
  }

  /** The name of a file in a directory is the name that was appended. */
  lemma {:induction false} FileNameInDirectory(directory: string, separator: char, name: string)
    requires IsDirectorySeparator(separator)
    requires forall i | 0 <= i < |name| :: !IsDirectorySeparator(name[i])
    ensures FileName(directory + [separator] + name) == Success(name)
    decreases |name|
  {
    var path := directory + [separator] + name;
    if name == [] {
      assert path[|path| - 1] == separator;
    } else {
      assert path[..|path| - 1] == directory + [separator] + name[..|name| - 1];
      FileNameInDirectory(directory, separator, name[..|name| - 1]);
      assert name == name[..|name| - 1] + [name[|name| - 1]];
    }
  }

  /** The directory does not matter: only the file name is compared. */
  lemma ConfigurationFileInAnyDirectory(directory: string, separator: char, name: string)
    requires IsDirectorySeparator(separator)
    requires forall i | 0 <= i < |name| :: !IsDirectorySeparator(name[i])
    ensures ConfigurationFilePathMatchesExpected(directory + [separator] + name) ==
            Success(EqualsIgnoreCase(name, ParameterConfigurationFileName))
  {
    FileNameInDirectory(directory, separator, name);
  }

  /** A bare file name on a drive, such as C:SonarLint.xml, names the configuration file. */
  lemma DriveRelativeConfigurationFile()
    ensures ConfigurationFilePathMatchesExpected("C:SonarLint.xml") == Success(true)
  {
    ConfigurationFileInAnyDirectory("C", ':', "SonarLint.xml");
    assert "C" + [':'] + "SonarLint.xml" == "C:SonarLint.xml";
  }

  // -----------------------------------------------------------------------
  // Setting an analyzer's parameters.

  datatype RuleParameterAttribute = RuleParameterAttribute(key: string, propertyType: PropertyType)

  /** A public property of the analyzer type and the RuleParameter attributes on it. */
  datatype PropertyInfo = PropertyInfo(name: string, attributes: seq<RuleParameterAttribute>)

  datatype AdditionalFile = AdditionalFile(path: string)

  /** An analyzer with rule-parameter properties; the values are what reflection would set. */
  class ParameteredAnalyzer {
    /** The Ids of its supported diagnostics. */
    const supportedIds: seq<string>
    /** Its public properties, in the order reflection lists them. */
    const properties: seq<PropertyInfo>
    /** The property values set so far, by property name. */
    var values: map<string, ParameterValue>

    constructor(supportedIds: seq<string>, properties: seq<PropertyInfo>)
      ensures this.supportedIds == supportedIds && this.properties == properties && values == map[]
    {
      this.supportedIds := supportedIds;
      this.properties := properties;
      values := map[];
    }

    /**
     * The loop over the attributed properties of SetParameterValues: each
     * property is set from the rule entry, as SetProperties describes.
     */
    method SetAttributedProperties(parameters: seq<RuleParameterValues>) returns (outcome: SetOutcome)
      modifies this
      ensures Progress(values, outcome) == SetProperties(properties, 0, parameters, supportedIds, old(values))
    {
      var i := 0;
      while i < |properties|
        invariant 0 <= i <= |properties|
        invariant SetProperties(properties, i, parameters, supportedIds, values)
                  == SetProperties(properties, 0, parameters, supportedIds, old(values))
      {
        var attrs := properties[i].attributes;
        if |attrs| > 1 {
          return Threw(AttributeNotSingle(properties[i].name));
        }
        if |attrs| == 1 {
          var entry := RuleEntryFor(parameters, supportedIds);
          if entry.Failure? {
            return Threw(entry.error);
          }
          if entry.value.None? {
            return ReturnedEarly;
          }
          var parameterValue := ValueFor(entry.value.value.parameterValues, attrs[0].key);
          if parameterValue.None? {
            return ReturnedEarly;
          }
          var converted := ChangeParameterType(parameterValue.value.parameterValue, attrs[0].propertyType);
          if converted.Failure? {
            return Threw(converted.error);
          }
          values := values[properties[i].name := converted.value];
        }
        i := i + 1;
      }
      return Completed;
    }
  }

  /** How SetParameterValues ends. */
  datatype SetOutcome = Completed | ReturnedEarly | Threw(error: LoaderError)

  /** The property values after a run over the properties, and how it ended. */
  datatype Progress = Progress(values: map<string, ParameterValue>, outcome: SetOutcome)

  /** No additional file before the i-th is named SonarLint.xml, and none of them throws. */
  predicate NoneMatchBefore(files: seq<AdditionalFile>, i: nat)
    requires i <= |files|
  {
    forall j | 0 <= j < i :: ConfigurationFilePathMatchesExpected(files[j].path) == Success(false)
  }

  /**
   * FirstOrDefault over the additional files: the first one whose name is
   * SonarLint.xml, or none; an empty path met before it makes FileInfo throw.
   */
  function FirstConfigurationFile(files: seq<AdditionalFile>): (r: Result<Option<AdditionalFile>, LoaderError>)
    ensures r.Failure? ==> r.error == EmptyPath
    ensures r.Success? && r.value.Some? ==>
              r.value.value in files && ConfigurationFilePathMatchesExpected(r.value.value.path) == Success(true)
  {
    if files == [] then Success(None)
    else
      match ConfigurationFilePathMatchesExpected(files[0].path)
      case Failure(e) => Failure(e)
      case Success(true) => Success(Some(files[0]))
      case Success(false) =>
        assert forall f | f in files[1..] :: f in files;
        FirstConfigurationFile(files[1..])
  }

  /** Dropping a non-matching first file shifts NoneMatchBefore by one. */
  lemma NoneMatchBeforeShift(files: seq<AdditionalFile>, i: nat)
    requires files != [] && ConfigurationFilePathMatchesExpected(files[0].path) == Success(false)
    requires i <= |files| - 1
    ensures NoneMatchBefore(files[1..], i) <==> NoneMatchBefore(files, i + 1)
  {
    var rest := files[1..];
    if NoneMatchBefore(rest, i) {
      forall j | 0 <= j < i + 1
        ensures ConfigurationFilePathMatchesExpected(files[j].path) == Success(false)
      {
        if j > 0 {
          assert files[j] == rest[j - 1];
        }
      }
    }
    if NoneMatchBefore(files, i + 1) {
      forall j | 0 <= j < i
        ensures ConfigurationFilePathMatchesExpected(rest[j].path) == Success(false)
      {
        assert rest[j] == files[j + 1];
      }
    }
  }

  /** FirstConfigurationFile throws iff an empty path comes before any match. */
  lemma {:induction false} FirstConfigurationFileThrows(files: seq<AdditionalFile>)
    ensures FirstConfigurationFile(files).Failure? <==>
              exists i | 0 <= i < |files| :: files[i].path == [] && NoneMatchBefore(files, i)
  {
    if files != [] {
      var m := ConfigurationFilePathMatchesExpected(files[0].path);
      if m == Success(false) {
        var rest := files[1..];
        FirstConfigurationFileThrows(rest);
        if exists i | 0 <= i < |files| :: files[i].path == [] && NoneMatchBefore(files, i) {
          var i :| 0 <= i < |files| && files[i].path == [] && NoneMatchBefore(files, i);
          assert i != 0;
          NoneMatchBeforeShift(files, i - 1);
          assert rest[i - 1] == files[i];
        }
        if FirstConfigurationFile(rest).Failure? {
          var i :| 0 <= i < |rest| && rest[i].path == [] && NoneMatchBefore(rest, i);
          NoneMatchBeforeShift(files, i);
          assert files[i + 1] == rest[i];
        }
      } else {
        assert NoneMatchBefore(files, 0);
        if m.Failure? {
          assert files[0].path == [];
        }
      }
    }
  }

  /** FirstConfigurationFile finds a file iff a match comes before any empty path. */
  lemma {:induction false} FirstConfigurationFileFinds(files: seq<AdditionalFile>)
    ensures FirstConfigurationFile(files).Success? && FirstConfigurationFile(files).value.Some? <==>
              exists i | 0 <= i < |files| :: ConfigurationFilePathMatchesExpected(files[i].path) == Success(true) &&
                                            NoneMatchBefore(files, i)
  {
    if files != [] {
      var m := ConfigurationFilePathMatchesExpected(files[0].path);
      if m == Success(false) {
        var rest := files[1..];
        FirstConfigurationFileFinds(rest);
        if exists i | 0 <= i < |files| :: ConfigurationFilePathMatchesExpected(files[i].path) == Success(true) &&
                                          NoneMatchBefore(files, i) {
          var i :| 0 <= i < |files| && ConfigurationFilePathMatchesExpected(files[i].path) == Success(true) &&
                   NoneMatchBefore(files, i);
          assert i != 0;
          NoneMatchBeforeShift(files, i - 1);
          assert rest[i - 1] == files[i];
        }
        if FirstConfigurationFile(rest).Success? && FirstConfigurationFile(rest).value.Some? {
          var i :| 0 <= i < |rest| && ConfigurationFilePathMatchesExpected(rest[i].path) == Success(true) &&
                   NoneMatchBefore(rest, i);
          NoneMatchBeforeShift(files, i);
          assert files[i + 1] == rest[i];
        }
      } else {
        assert NoneMatchBefore(files, 0);
      }
    }
  }

  /** FirstConfigurationFile finds nothing iff every path is a name other than SonarLint.xml. */
  lemma {:induction false} FirstConfigurationFileFindsNone(files: seq<AdditionalFile>)
    ensures FirstConfigurationFile(files) == Success(None) <==> NoneMatchBefore(files, |files|)
  {
    if files != [] {
      var m := ConfigurationFilePathMatchesExpected(files[0].path);
      if m == Success(false) {
        FirstConfigurationFileFindsNone(files[1..]);
        NoneMatchBeforeShift(files, |files| - 1);
      } else {
        assert ConfigurationFilePathMatchesExpected(files[0].path) != Success(false);
      }
    }
  }

  /**
   * The entry for the analyzer's diagnostic. The Id is asked of the single
   * supported diagnostic while the entries are searched, so an empty list
   * never asks, and a non-empty one with no single supported diagnostic throws.
   */
  function RuleEntryFor(parameters: seq<RuleParameterValues>, supportedIds: seq<string>)
    : (r: Result<Option<RuleParameterValues>, LoaderError>)
    ensures parameters == [] ==> r == Success(None)
    ensures parameters != [] && |supportedIds| != 1 ==> r == Failure(SupportedDiagnosticNotSingle)
    ensures r.Success? && r.value.Some? ==>
              |supportedIds| == 1 && r.value.value in parameters && r.value.value.ruleId == supportedIds[0]
    ensures r.Success? && r.value.None? && parameters != [] ==>
              |supportedIds| == 1 && forall p | p in parameters :: p.ruleId != supportedIds[0]
  {
    if parameters == [] then Success(None)
    else if |supportedIds| != 1 then Failure(SupportedDiagnosticNotSingle)
    else if parameters[0].ruleId == supportedIds[0] then Success(Some(parameters[0]))
    else RuleEntryFor(parameters[1..], supportedIds)
  }

  /** The first value given for a parameter key. */
  function ValueFor(pvs: seq<RuleParameterValue>, key: string): (r: Option<RuleParameterValue>)
    ensures r.Some? ==> r.value in pvs && r.value.parameterKey == key
    ensures r.None? ==> forall pv | pv in pvs :: pv.parameterKey != key
  {
    if pvs == [] then None
    else if pvs[0].parameterKey == key then Some(pvs[0])
    else ValueFor(pvs[1..], key)
  }

  /**
   * The run over the properties from the i-th on: a property with several
   * attributes throws, one without is skipped, and one with an attribute is
   * set from the rule entry, or the run returns early when there is no entry
   * or no value for its key.
   */
  function SetProperties(props: seq<PropertyInfo>, i: nat, parameters: seq<RuleParameterValues>,
                         supportedIds: seq<string>, values: map<string, ParameterValue>): (r: Progress)
    requires i <= |props|
    ensures r.outcome.ReturnedEarly? ==> parameters == [] || RuleEntryFor(parameters, supportedIds).Success?
    ensures values.Keys <= r.values.Keys
    decreases |props| - i
  {
    if i == |props| then Progress(values, Completed)
    else
      var attrs := props[i].attributes;
      if |attrs| > 1 then Progress(values, Threw(AttributeNotSingle(props[i].name)))
      else if attrs == [] then SetProperties(props, i + 1, parameters, supportedIds, values)
      else
        match RuleEntryFor(parameters, supportedIds)
        case Failure(e) => Progress(values, Threw(e))
        case Success(None) => Progress(values, ReturnedEarly)
        case Success(Some(entry)) =>
          match ValueFor(entry.parameterValues, attrs[0].key)
          case None => Progress(values, ReturnedEarly)
          case Some(pv) =>
            match ChangeParameterType(pv.parameterValue, attrs[0].propertyType)
            case Failure(e) => Progress(values, Threw(e))
            case Success(v) =>
              SetProperties(props, i + 1, parameters, supportedIds, values[props[i].name := v])
  }

  /** On completion, every property with one RuleParameter attribute has been given a value. */
  lemma {:induction false} CompletedSetsEveryAttributedProperty(
    props: seq<PropertyInfo>, i: nat, parameters: seq<RuleParameterValues>,
    supportedIds: seq<string>, values: map<string, ParameterValue>)
    requires i <= |props|
    requires SetProperties(props, i, parameters, supportedIds, values).outcome == Completed
    ensures forall j | i <= j < |props| && |props[j].attributes| == 1 ::
              props[j].name in SetProperties(props, i, parameters, supportedIds, values).values
    ensures forall j | i <= j < |props| :: |props[j].attributes| <= 1
    decreases |props| - i
  {
    if i < |props| {
      var attrs := props[i].attributes;
      if attrs == [] {
        CompletedSetsEveryAttributedProperty(props, i + 1, parameters, supportedIds, values);
      } else {
        var entry := RuleEntryFor(parameters, supportedIds).value.value;
        var pv := ValueFor(entry.parameterValues, attrs[0].key).value;
        var v := ChangeParameterType(pv.parameterValue, attrs[0].propertyType).value;
        CompletedSetsEveryAttributedProperty(props, i + 1, parameters, supportedIds, values[props[i].name := v]);
      }
    }
  }

  /** The value the configuration gives a property with this attribute, when it gives one. */
  function ConfiguredValue(parameters: seq<RuleParameterValues>, supportedIds: seq<string>,
                           attr: RuleParameterAttribute): Option<ParameterValue>
  {
    match RuleEntryFor(parameters, supportedIds)
    case Success(Some(entry)) =>
      (match ValueFor(entry.parameterValues, attr.key)
       case Some(pv) =>
         (match ChangeParameterType(pv.parameterValue, attr.propertyType)
          case Success(v) => Some(v)
          case Failure(_) => None)
       case None => None)
    case _ => None
  }

  /** A value set before the i-th property survives the run when no later property has its name. */
  lemma {:induction false} SetPropertiesKeepsOthers(
    props: seq<PropertyInfo>, i: nat, parameters: seq<RuleParameterValues>,
    supportedIds: seq<string>, values: map<string, ParameterValue>, name: string)
    requires i <= |props| && name in values
    requires forall k | i <= k < |props| :: props[k].name != name
    ensures SetProperties(props, i, parameters, supportedIds, values).values[name] == values[name]
    decreases |props| - i
  {
    if i < |props| {
      var attrs := props[i].attributes;
      if attrs == [] {
        SetPropertiesKeepsOthers(props, i + 1, parameters, supportedIds, values, name);
      } else if |attrs| == 1 {
        match RuleEntryFor(parameters, supportedIds)
        case Failure(_) =>
        case Success(None) =>
        case Success(Some(entry)) =>
          match ValueFor(entry.parameterValues, attrs[0].key)
          case None =>
          case Some(pv) =>
            match ChangeParameterType(pv.parameterValue, attrs[0].propertyType)
            case Failure(_) =>
            case Success(v) =>
              SetPropertiesKeepsOthers(props, i + 1, parameters, supportedIds, values[props[i].name := v], name);
      }
    }
  }

  /**
   * On completion, a singly-attributed property that no later property
   * shadows holds the value its key has in the analyzer's rule entry, converted
   * to the attribute's type.
   */
  lemma {:induction false} CompletedSetsConfiguredValues(
    props: seq<PropertyInfo>, i: nat, parameters: seq<RuleParameterValues>,
    supportedIds: seq<string>, values: map<string, ParameterValue>)
    requires i <= |props|
    requires SetProperties(props, i, parameters, supportedIds, values).outcome == Completed
    ensures forall j | i <= j < |props| && |props[j].attributes| == 1 &&
                       (forall k | j < k < |props| :: props[k].name != props[j].name) ::
              props[j].name in SetProperties(props, i, parameters, supportedIds, values).values &&
              ConfiguredValue(parameters, supportedIds, props[j].attributes[0]) ==
                Some(SetProperties(props, i, parameters, supportedIds, values).values[props[j].name])
    decreases |props| - i
  {
    CompletedSetsEveryAttributedProperty(props, i, parameters, supportedIds, values);
    if i < |props| {
      var attrs := props[i].attributes;
      if attrs == [] {
        CompletedSetsConfiguredValues(props, i + 1, parameters, supportedIds, values);
      } else {
        var entry := RuleEntryFor(parameters, supportedIds).value.value;
        var pv := ValueFor(entry.parameterValues, attrs[0].key).value;
        var v := ChangeParameterType(pv.parameterValue, attrs[0].propertyType).value;
        var values' := values[props[i].name := v];
        CompletedSetsConfiguredValues(props, i + 1, parameters, supportedIds, values');
        if forall k | i < k < |props| :: props[k].name != props[i].name {
          SetPropertiesKeepsOthers(props, i + 1, parameters, supportedIds, values', props[i].name);
        }
      }
    }
  }

  /** With an attributed property, completion needs an entry for the analyzer's single Id. */
  lemma {:induction false} CompletedNeedsRuleEntry(
    props: seq<PropertyInfo>, i: nat, parameters: seq<RuleParameterValues>,
    supportedIds: seq<string>, values: map<string, ParameterValue>)
    requires i <= |props|
    requires SetProperties(props, i, parameters, supportedIds, values).outcome == Completed
    requires exists j | i <= j < |props| :: props[j].attributes != []
    ensures |supportedIds| == 1 && exists p | p in parameters :: p.ruleId == supportedIds[0]
    decreases |props| - i
  {
    var attrs := props[i].attributes;
    if attrs == [] {
      CompletedNeedsRuleEntry(props, i + 1, parameters, supportedIds, values);
    } else {
      var entry := RuleEntryFor(parameters, supportedIds).value.value;
      assert entry in parameters;
    }
  }

  /**
   * What SetParameterValues does: nothing for a processed analyzer or without
   * a configuration file; an XML error when the file's rules are malformed;
   * otherwise the run over the analyzer's properties with the file's entries.
   */
  function SetParameterValuesRun(processed: bool, additionalFiles: seq<AdditionalFile>,
                                 loadXml: string -> seq<Element>, supportedIds: seq<string>,
                                 props: seq<PropertyInfo>, values: map<string, ParameterValue>): Progress
  {
    if processed then Progress(values, ReturnedEarly)
    else
      match FirstConfigurationFile(additionalFiles)
      case Failure(e) => Progress(values, Threw(e))
      case Success(None) => Progress(values, ReturnedEarly)
      case Success(Some(file)) => ConfigurationFileRun(file, loadXml, supportedIds, props, values)
  }

  /** The part of SetParameterValues after the configuration file is found. */
  function ConfigurationFileRun(file: AdditionalFile, loadXml: string -> seq<Element>, supportedIds: seq<string>,
                                props: seq<PropertyInfo>, values: map<string, ParameterValue>): Progress
  {
    match ParsedParameters(loadXml(file.path))
    case Failure(e) => Progress(values, Threw(Xml(e)))
    case Success(parameters) => SetProperties(props, 0, parameters, supportedIds, values)
  }

  /** An analyzer already processed is left exactly as it is. */
  lemma ProcessedAnalyzerIsUnchanged(additionalFiles: seq<AdditionalFile>, loadXml: string -> seq<Element>,
                                     supportedIds: seq<string>, props: seq<PropertyInfo>,
                                     values: map<string, ParameterValue>)
    ensures SetParameterValuesRun(true, additionalFiles, loadXml, supportedIds, props, values) == Progress(values, ReturnedEarly)
  {
  }

  /** Without a SonarLint.xml among the additional files the run returns early and sets nothing. */
  lemma NoConfigurationFileReturnsEarly(additionalFiles: seq<AdditionalFile>, loadXml: string -> seq<Element>,
                                        supportedIds: seq<string>, props: seq<PropertyInfo>,
                                        values: map<string, ParameterValue>)
    requires forall f | f in additionalFiles :: ConfigurationFilePathMatchesExpected(f.path) == Success(false)
    ensures SetParameterValuesRun(false, additionalFiles, loadXml, supportedIds, props, values) == Progress(values, ReturnedEarly)
  {
    FirstConfigurationFileFindsNone(additionalFiles);
    assert NoneMatchBefore(additionalFiles, |additionalFiles|) by {
      assert forall j | 0 <= j < |additionalFiles| :: additionalFiles[j] in additionalFiles;
    }
  }

  /** An empty path met before any SonarLint.xml makes the run throw before anything is set. */
  lemma EmptyPathBeforeConfigurationFileThrows(additionalFiles: seq<AdditionalFile>, i: nat,
                                               loadXml: string -> seq<Element>, supportedIds: seq<string>,
                                               props: seq<PropertyInfo>, values: map<string, ParameterValue>)
    requires i < |additionalFiles| && additionalFiles[i].path == [] && NoneMatchBefore(additionalFiles, i)
    ensures SetParameterValuesRun(false, additionalFiles, loadXml, supportedIds, props, values) ==
            Progress(values, Threw(EmptyPath))
  {
    FirstConfigurationFileThrows(additionalFiles);
  }

  /**
   * Without an entry for the analyzer's Id, the first attributed property
   * ends the run early, with the values set before it.
   */
  lemma {:induction false} NoRuleEntryReturnsEarly(
    props: seq<PropertyInfo>, i: nat, parameters: seq<RuleParameterValues>,
    supportedIds: seq<string>, values: map<string, ParameterValue>)
    requires i <= |props|
    requires RuleEntryFor(parameters, supportedIds) == Success(None)
    requires forall j | i <= j < |props| :: |props[j].attributes| <= 1
    requires exists j | i <= j < |props| :: |props[j].attributes| == 1
    ensures SetProperties(props, i, parameters, supportedIds, values) == Progress(values, ReturnedEarly)
    decreases |props| - i
  {
    if props[i].attributes == [] {
      NoRuleEntryReturnsEarly(props, i + 1, parameters, supportedIds, values);
    }
  }

  /** The loader's memory of analyzers whose parameters have all been set. */
  class ParameterLoaderState {
    var processedAnalyzers: set<ParameteredAnalyzer>

    constructor()
      ensures processedAnalyzers == {}
    {
      processedAnalyzers := {};
    }

    /**
     * SetParameterValues: the analyzer's property values and the loader's
     * processed set after the run SetParameterValuesRun describes; the
     * analyzer joins the processed set only when that run completes.
     */
    method SetParameterValues(analyzer: ParameteredAnalyzer, additionalFiles: seq<AdditionalFile>,
                              loadXml: string -> seq<Element>)
      returns (outcome: SetOutcome)
      modifies this, analyzer
      ensures var run := SetParameterValuesRun(old(analyzer in processedAnalyzers), additionalFiles, loadXml,
                                               analyzer.supportedIds, analyzer.properties, old(analyzer.values));
              outcome == run.outcome && analyzer.values == run.values &&
              processedAnalyzers == old(processedAnalyzers) + (if outcome == Completed then {analyzer} else {})
    {
      if analyzer in processedAnalyzers {
        return ReturnedEarly;
      }
      var additionalFile := FirstConfigurationFile(additionalFiles);
      if additionalFile.Failure? {
        return Threw(additionalFile.error);
      }
      if additionalFile.value.None? {
        return ReturnedEarly;
      }
      outcome := ApplyConfigurationFile(analyzer, additionalFile.value.value, loadXml);
    }

    /** Loading and parsing the configuration file, then setting the properties from it. */
    method ApplyConfigurationFile(analyzer: ParameteredAnalyzer, file: AdditionalFile,
                                  loadXml: string -> seq<Element>)
      returns (outcome: SetOutcome)
      modifies this, analyzer
      ensures var run := ConfigurationFileRun(file, loadXml, analyzer.supportedIds, analyzer.properties,
                                              old(analyzer.values));
              outcome == run.outcome && analyzer.values == run.values &&
              processedAnalyzers == old(processedAnalyzers) + (if outcome == Completed then {analyzer} else {})
    {
      var xml := loadXml(file.path);
      var parsed := ParseParameters(xml);
      if parsed.Failure? {
        return Threw(Xml(parsed.error));
      }
      outcome := analyzer.SetAttributedProperties(parsed.value);
      if outcome != Completed {
        return;
      }
      processedAnalyzers := processedAnalyzers + {analyzer};
      return Completed;
    }
  }
}
