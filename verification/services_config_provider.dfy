/** The analysis-config provider of the Services assembly: it caches the
    SonarAnalyzer analyzers and their rule ids once, and on every request
    forces the rule severities and the `SonarLint.xml` additional file that
    the current rule repository implies. */
module ServicesConfigProvider {
  import opened Wrappers
  import opened Roslyn
  import opened Rules
  import RuleSeverities
  import AdditionalFiles

  /** What the diagnostic worker analyses with. */
  datatype AnalysisConfig = AnalysisConfig(
    analyzers: seq<Analyzer>,
    analyzerRules: set<string>,
    compilation: Compilation,
    analyzerOptions: AnalyzerOptions)

  /** Every diagnostic id some analyzer supports. */
  function SupportedIds(analyzers: seq<Analyzer>): (ids: set<string>)
    ensures forall i, id :: 0 <= i < |analyzers| && id in analyzers[i].supportedDiagnosticIds ==> id in ids
    ensures forall id :: id in ids ==>
      exists i :: 0 <= i < |analyzers| && id in analyzers[i].supportedDiagnosticIds
  {
    set i, id | 0 <= i < |analyzers| && id in analyzers[i].supportedDiagnosticIds :: id
  }

  /** The provider's state after construction: the analyzers and their
      rule ids, computed once. */
  datatype Provider = Provider(analyzers: seq<Analyzer>, analyzerRules: set<string>)

  function NewProvider(codeDiagnosticAnalyzers: seq<Analyzer>): (p: Provider)
    ensures p.analyzers == codeDiagnosticAnalyzers
    ensures forall id :: id in p.analyzerRules <==>
      exists i :: 0 <= i < |codeDiagnosticAnalyzers| && id in codeDiagnosticAnalyzers[i].supportedDiagnosticIds
  {
    Provider(codeDiagnosticAnalyzers, SupportedIds(codeDiagnosticAnalyzers))
  }

  /** `Get(originalCompilation, originalOptions)`. The rules are read from
      the repository at each call. The severity converter is given the
      active rule ids and the cached rule ids; it fails when no rule is
      known. The additional-text converter (serialisation of the rules to
      `SonarLint.xml`) is a parameter. */
  function Get(
    provider: Provider,
    repository: RuleDefinitionsRepository,
    toAdditionalText: seq<RuleDefinition> -> AdditionalText,
    originalCompilation: Compilation,
    originalOptions: AnalyzerOptions): (r: Result<AnalysisConfig>)
    ensures r.Failure? <==> provider.analyzerRules == {}
    ensures r.Failure? ==> r.error == RuleSeverities.NoAnalyzerRules
    ensures r.Success? ==>
      var c := r.value;
      var rules := repository.RuleDefinitions();
      && c.analyzers == provider.analyzers
      && c.analyzerRules == provider.analyzerRules
      && c.compilation.handle == originalCompilation.handle
      && c.compilation.specificDiagnosticOptions.Keys == provider.analyzerRules
      && (forall id :: id in provider.analyzerRules ==>
            ((c.compilation.specificDiagnosticOptions[id] == RuleSeverities.EnabledRuleSeverity)
               <==> (exists i :: 0 <= i < |rules| && rules[i].ruleId == id)))
      && c.analyzerOptions == AdditionalFiles.ReplaceByFileName(originalOptions, toAdditionalText(rules))
  {
    var rules := repository.RuleDefinitions();
    var severities :- RuleSeverities.Convert(RuleIds(rules), provider.analyzerRules);
    EnabledExactlyStored(rules, provider.analyzerRules);
    Success(AnalysisConfig(
      provider.analyzers,
      provider.analyzerRules,
      WithSpecificDiagnosticOptions(originalCompilation, severities),
      AdditionalFiles.ReplaceByFileName(originalOptions, toAdditionalText(rules))))
  }

  /** Of the known rules, the severity map enables exactly those stored in
      the repository. */
  lemma EnabledExactlyStored(rules: seq<RuleDefinition>, allRules: set<string>)
    requires allRules != {}
    ensures var m := RuleSeverities.Convert(RuleIds(rules), allRules).value;
      forall id :: id in allRules ==>
        ((m[id] == RuleSeverities.EnabledRuleSeverity) <==> (exists i :: 0 <= i < |rules| && rules[i].ruleId == id))
  {
  }

  /** The analyzers and rule ids are the cached ones whatever the request:
      two calls with different repositories, compilations and options agree
      on them. */
  lemma GetReturnsCachedAnalyzers(
    provider: Provider,
    repository1: RuleDefinitionsRepository, repository2: RuleDefinitionsRepository,
    toAdditionalText: seq<RuleDefinition> -> AdditionalText,
    compilation1: Compilation, compilation2: Compilation,
    options1: AnalyzerOptions, options2: AnalyzerOptions)
    requires provider.analyzerRules != {}
    ensures var a := Get(provider, repository1, toAdditionalText, compilation1, options1);
      var b := Get(provider, repository2, toAdditionalText, compilation2, options2);
      a.Success? && b.Success? && a.value.analyzers == b.value.analyzers && a.value.analyzerRules == b.value.analyzerRules
  {
  }

  /** The original severity overrides are discarded: the forced map depends
      only on the repository and the cached rule ids. */
  lemma GetReplacesSeveritiesWholesale(
    provider: Provider,
    repository: RuleDefinitionsRepository,
    toAdditionalText: seq<RuleDefinition> -> AdditionalText,
    compilation1: Compilation, compilation2: Compilation,
    options: AnalyzerOptions)
    requires provider.analyzerRules != {}
    ensures Get(provider, repository, toAdditionalText, compilation1, options).value.compilation.specificDiagnosticOptions
         == Get(provider, repository, toAdditionalText, compilation2, options).value.compilation.specificDiagnosticOptions
  {
  }

  /** Nothing is snapshotted: after a `/sonarlint/config` push, the next
      `Get` enables exactly the pushed rules that the analyzers know. */
  lemma GetReadsLatestPush(
    provider: Provider,
    repository: RuleDefinitionsRepository,
    request: ConfigRequest,
    toAdditionalText: seq<RuleDefinition> -> AdditionalText,
    compilation: Compilation,
    options: AnalyzerOptions)
    requires provider.analyzerRules != {}
    ensures var pushed := if request.activeRules.Some? then request.activeRules.value else [];
      var c := Get(provider, HandleConfig(repository, request).0, toAdditionalText, compilation, options).value;
      && RuleSeverities.EnabledIds(c.compilation.specificDiagnosticOptions) == RuleIds(pushed) * provider.analyzerRules
      && c.analyzerOptions.additionalFiles[|c.analyzerOptions.additionalFiles| - 1] == toAdditionalText(pushed)
  {
    var pushed := if request.activeRules.Some? then request.activeRules.value else [];
    RuleSeverities.ConvertEnablesKnownActive(RuleIds(pushed), provider.analyzerRules);
  }
}
