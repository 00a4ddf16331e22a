/** `RulesToReportDiagnosticsConverter`: the rule-severity map forced on
    every analysed compilation. A known rule that is active is reported as
    a warning (the Java side decides the real severity); every other known
    rule is suppressed. */
module RuleSeverities {
  import opened Wrappers
  import opened Roslyn

  const EnabledRuleSeverity: ReportDiagnostic := ReportDiagnostic.Warn
  const DisabledRuleSeverity: ReportDiagnostic := ReportDiagnostic.Suppress

  const NoAnalyzerRules := ArgumentException("allRules", "No analyzer rules")

  /** The active ids a severity map enables. */
  function EnabledIds(m: map<string, ReportDiagnostic>): set<string> {
    set id | id in m && m[id] == EnabledRuleSeverity
  }

  /** `Convert(activeRules, allRules)`. Active ids that are not known rules
      are ignored without error: the exception for them is commented out
      in the source. */
  function Convert(activeRules: set<string>, allRules: set<string>): (r: Result<map<string, ReportDiagnostic>>)
    ensures r.Failure? <==> allRules == {}
    ensures r.Failure? ==> r.error == NoAnalyzerRules
    ensures r.Success? ==> r.value.Keys == allRules
    ensures r.Success? ==> forall id :: id in r.value ==>
      r.value[id] == (if id in activeRules then EnabledRuleSeverity else DisabledRuleSeverity)
  {
    if allRules == {} then Failure(NoAnalyzerRules)
    else Success(map id | id in allRules :: if id in activeRules then EnabledRuleSeverity else DisabledRuleSeverity)
  }

  /** The map is the inverse image of the known active rules: reading back
      the enabled ids recovers exactly the active ids that are known. */
  lemma ConvertEnablesKnownActive(activeRules: set<string>, allRules: set<string>)
    requires allRules != {}
    ensures EnabledIds(Convert(activeRules, allRules).value) == activeRules * allRules
  {
  }

  /** Only the known active ids matter: adding unknown ids or removing them
      leaves the map unchanged. */
  lemma ConvertIgnoresUnknownActive(activeRules: set<string>, allRules: set<string>)
    ensures Convert(activeRules, allRules) == Convert(activeRules * allRules, allRules)
  {
    if allRules != {} {
      var a := Convert(activeRules, allRules).value;
      var b := Convert(activeRules * allRules, allRules).value;
      assert a.Keys == b.Keys;
      assert forall id :: id in a ==> a[id] == b[id];
      assert a == b;
    }
  }

  /** With no active rule every known rule is suppressed. */
  lemma ConvertNoActiveRules(allRules: set<string>)
    requires allRules != {}
    ensures forall id :: id in allRules ==> Convert({}, allRules).value[id] == DisabledRuleSeverity
  {
  }
}
