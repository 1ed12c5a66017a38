/**
 * The process-wide switches that turn rules off at run time: the set of rule
 * families the host's own analyzers skip, and the set of diagnostic Ids the
 * wrapping analyzer's gate drops. Both are static sets in the source; here
 * they are the fields of one shared object.
 */
module Enablement {

  class RuleSwitches {
    /** The rule families (analyzer types) the host's own analyzers skip. */
    var disabledRules: set<string>
    /** The diagnostic Ids the wrapping analyzer drops. */
    var disabledDiagnosticIds: set<string>

    /** Both sets start empty. */
    constructor()
      ensures disabledRules == {} && disabledDiagnosticIds == {}
    {
      disabledRules := {};
      disabledDiagnosticIds := {};
    }
  }
}
