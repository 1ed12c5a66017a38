/**
 * The IDE package's periodic toggle (VSPackage1.Timer_Elapsed): one rule
 * family of the host's own analyzers and five diagnostic Ids of a loaded
 * plugin are switched off together, and on again at the next tick.
 */
module VsPackage {
  import opened Enablement

  /** The host rule family the toggle switches. */
  const ToggledRule: string := "AsyncAwaitIdentifier"

  /** The plugin diagnostic Ids switched together with it. */
  const IdsToToggle: set<string> := {"CC0108", "CC0021", "CC0001", "CC0105", "CC0052"}

  /** The two switch sets as a value. */
  datatype SwitchState = SwitchState(disabledRules: set<string>, disabledDiagnosticIds: set<string>)

  /**
   * One toggle: an enabled family is disabled and the five Ids added;
   * a disabled family is enabled and the five Ids removed. Afterwards the
   * family is disabled exactly when all five Ids are, and no other rule or
   * Id has changed.
   */
  function Toggle(s: SwitchState): (r: SwitchState)
    ensures ToggledRule in r.disabledRules <==> IdsToToggle <= r.disabledDiagnosticIds
    ensures (ToggledRule in r.disabledRules) == (ToggledRule !in s.disabledRules)
    ensures ToggledRule !in s.disabledRules ==> IdsToToggle <= r.disabledDiagnosticIds
    ensures ToggledRule in s.disabledRules ==> IdsToToggle !! r.disabledDiagnosticIds
    ensures forall x | x != ToggledRule :: x in r.disabledRules <==> x in s.disabledRules
    ensures forall x | x !in IdsToToggle :: x in r.disabledDiagnosticIds <==> x in s.disabledDiagnosticIds
  {
    if ToggledRule !in s.disabledRules then
      SwitchState(s.disabledRules + {ToggledRule}, s.disabledDiagnosticIds + IdsToToggle)
    else
      SwitchState(s.disabledRules - {ToggledRule}, s.disabledDiagnosticIds - IdsToToggle)
  }

  /**
   * Two toggles from an enabled family give back the rule set, and the Id
   * set less the five Ids: the original set exactly when it held none of them.
   */
  lemma ToggleTwice(s: SwitchState)
    requires ToggledRule !in s.disabledRules
    ensures Toggle(Toggle(s)) == SwitchState(s.disabledRules, s.disabledDiagnosticIds - IdsToToggle)
    ensures Toggle(Toggle(s)) == s <==> IdsToToggle !! s.disabledDiagnosticIds
  {
    var once := Toggle(s);
    assert once.disabledRules - {ToggledRule} == s.disabledRules;
    if Toggle(Toggle(s)) == s {
      forall x | x in IdsToToggle ensures x !in s.disabledDiagnosticIds {
        assert x !in Toggle(once).disabledDiagnosticIds;
      }
    }
  }

  /** The timer's handler: one toggle of the shared switches, and nothing else in them. */
  method TimerElapsed(switches: RuleSwitches)
    modifies switches
    ensures SwitchState(switches.disabledRules, switches.disabledDiagnosticIds)
            == Toggle(old(SwitchState(switches.disabledRules, switches.disabledDiagnosticIds)))
  {
    if ToggledRule !in switches.disabledRules {
      switches.disabledRules := switches.disabledRules + {ToggledRule};
      switches.disabledDiagnosticIds := switches.disabledDiagnosticIds + IdsToToggle;
    } else {
      switches.disabledRules := switches.disabledRules - {ToggledRule};
      switches.disabledDiagnosticIds := switches.disabledDiagnosticIds - IdsToToggle;
    }
  }
}
