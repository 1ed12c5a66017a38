/**
 * Diagnostic descriptors and diagnostics, as the analyzer host sees them.
 * Syntax trees, symbols, compilations and the like are opaque identities.
 */
module Diagnostics {
  import opened Common

  datatype Severity = Hidden | Info | Warning | Error

  /** A DiagnosticDescriptor: the identity and presentation of one rule. */
  datatype Descriptor = Descriptor(
    id: string,
    title: string,
    messageFormat: string,
    category: string,
    defaultSeverity: Severity,
    isEnabledByDefault: bool,
    description: string,
    helpLinkUri: string,
    customTags: Option<seq<string>>)

  /** A text span [start, end) in a syntax tree. */
  datatype Span = Span(start: int, end: int)

  /** A source location: the tree it lies in (absent for locations outside source) and its span. */
  datatype Location = Location(sourceTree: Option<nat>, span: Span)

  /** A Diagnostic: a descriptor instantiated at a location with message arguments. */
  datatype Diagnostic = Diagnostic(
    descriptor: Descriptor,
    location: Location,
    additionalLocations: seq<Location>,
    properties: map<string, string>,
    messageArgs: seq<string>)
  {
    function Id(): string { descriptor.id }
  }

  /** What one of the repository's own rules reports: where, and the message arguments. */
  datatype Issue = Issue(location: Location, messageArgs: seq<string>)

  /** A sink that receives reported diagnostics, in order. */
  class DiagnosticSink {
    var reported: seq<Diagnostic>

    constructor()
      ensures reported == []
    {
      reported := [];
    }

    method Report(d: Diagnostic)
      modifies this
      ensures reported == old(reported) + [d]
    {
      reported := reported + [d];
    }
  }
}
