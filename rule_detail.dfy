/**
 * The serialisable rule detail written into the SonarLint descriptor: a
 * conversion from the analyzer's own rule description, the fresh object the
 * XML reader starts from, and the CDATA view of the description.
 *
 * String properties that a fresh object leaves null are `Option<string>`.
 */
module RuleDetailDescriptor {
  import opened Common

  const CardinalitySingle: string := "SINGLE"

  /** The analyzer's description of one rule parameter and of one rule. */
  datatype SourceParameter = SourceParameter(paramType: string, key: string, description: string, defaultValue: string)

  datatype SourceRuleDetail = SourceRuleDetail(
    key: string, title: string, severity: string, description: string,
    isActivatedByDefault: bool, tags: seq<string>, parameters: seq<SourceParameter>)

  datatype RuleParameter = RuleParameter(paramType: Option<string>, key: Option<string>, description: Option<string>, defaultValue: Option<string>)

  datatype RuleDetail = RuleDetail(
    key: Option<string>, title: Option<string>, severity: Option<string>, cardinality: Option<string>,
    description: Option<string>, tags: seq<string>, parameters: seq<RuleParameter>, isActivatedByDefault: bool)

  /** The default constructor: empty tag and parameter lists, every string null, not activated. */
  function NewRuleDetail(): (r: RuleDetail)
    ensures r.tags == [] && r.parameters == []
    ensures r.key.None? && r.title.None? && r.severity.None? && r.cardinality.None? && r.description.None?
    ensures !r.isActivatedByDefault
  {
    RuleDetail(None, None, None, None, None, [], [], false)
  }

  function ConvertParameter(p: SourceParameter): RuleParameter
  {
    RuleParameter(Some(p.paramType), Some(p.key), Some(p.description), Some(p.defaultValue))
  }

  function ConvertParameters(ps: seq<SourceParameter>): (r: seq<RuleParameter>)
  {
    if ps == [] then [] else [ConvertParameter(ps[0])] + ConvertParameters(ps[1..])
  }

  /** Convert */
  function Convert(d: SourceRuleDetail): RuleDetail
  {
    RuleDetail(Some(d.key), Some(d.title), Some(Upper(d.severity)), Some(CardinalitySingle),
               Some(d.description), d.tags, ConvertParameters(d.parameters), d.isActivatedByDefault)
  }

  /** Parameters map one to one, in order, each keeping its type, key, description and default value. */
  lemma {:induction false} ConvertParametersOneToOne(ps: seq<SourceParameter>)
    ensures |ConvertParameters(ps)| == |ps|
    ensures forall i | 0 <= i < |ps| ::
              ConvertParameters(ps)[i] == RuleParameter(Some(ps[i].paramType), Some(ps[i].key), Some(ps[i].description), Some(ps[i].defaultValue))
  {
    if ps != [] {
      ConvertParametersOneToOne(ps[1..]);
    }
  }

  /**
   * Convert copies key, title, description, activation and tags; the
   * severity is the upper-cased one; the parameters correspond one to one;
   * the cardinality is always SINGLE.
   */
  lemma ConvertSpec(d: SourceRuleDetail)
    ensures var r := Convert(d);
            r.key == Some(d.key) && r.title == Some(d.title) && r.description == Some(d.description) &&
            r.isActivatedByDefault == d.isActivatedByDefault && r.tags == d.tags &&
            r.cardinality == Some("SINGLE")
    ensures var s := Convert(d).severity.value;
            |s| == |d.severity| && (forall i | 0 <= i < |s| :: !IsLowerLetter(s[i])) && EqualsIgnoreCase(s, d.severity)
    ensures |Convert(d).parameters| == |d.parameters|
    ensures forall i | 0 <= i < |d.parameters| ::
              Convert(d).parameters[i].key == Some(d.parameters[i].key) &&
              Convert(d).parameters[i].paramType == Some(d.parameters[i].paramType) &&
              Convert(d).parameters[i].description == Some(d.parameters[i].description) &&
              Convert(d).parameters[i].defaultValue == Some(d.parameters[i].defaultValue)
  {
    ConvertParametersOneToOne(d.parameters);
    var s := Upper(d.severity);
    assert Lower(s) == Lower(d.severity);
  }

  /** Converting a description whose severity is already upper-case changes nothing more. */
  lemma UpperCaseSeverityIsKept(d: SourceRuleDetail)
    requires forall i | 0 <= i < |d.severity| :: !IsLowerLetter(d.severity[i])
    ensures Convert(d).severity == Some(d.severity)
  {
    assert Upper(d.severity) == d.severity;
  }

  // -----------------------------------------------------------------------
  // The CDATA view of the description.

  /** An XML CDATA section; its Value is the empty string when it holds no data. */
  datatype CDataSection = CDataSection(data: Option<string>)

  function CDataValue(c: CDataSection): string
  {
    if c.data.Some? then c.data.value else ""
  }

  /** The getter: a section holding the description. */
  function DescriptionCDataSection(r: RuleDetail): CDataSection
  {
    CDataSection(r.description)
  }

  /** The setter: the empty string for a null section, the section's value otherwise. */
  function SetDescriptionCDataSection(r: RuleDetail, value: Option<CDataSection>): (r': RuleDetail)
    ensures r'.description.Some?
    ensures r' == r.(description := r'.description)
  {
    r.(description := if value.None? then Some("") else Some(CDataValue(value.value)))
  }

  /** Setting what the getter returns keeps a present description and turns a null one into "". */
  lemma CDataRoundTrip(r: RuleDetail)
    ensures r.description.Some? ==> SetDescriptionCDataSection(r, Some(DescriptionCDataSection(r))) == r
    ensures r.description.None? ==> SetDescriptionCDataSection(r, Some(DescriptionCDataSection(r))).description == Some("")
  {
  }

  /** The setter stores "" for null and the text of a section otherwise, touching nothing else. */
  lemma SetterSpec(r: RuleDetail, text: string)
    ensures SetDescriptionCDataSection(r, None).description == Some("")
    ensures SetDescriptionCDataSection(r, Some(CDataSection(Some(text)))) == r.(description := Some(text))
    ensures DescriptionCDataSection(SetDescriptionCDataSection(r, Some(CDataSection(Some(text))))) == CDataSection(Some(text))
  {
  }
}
