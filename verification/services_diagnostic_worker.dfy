/** The Services diagnostic worker's `AnalyzeDocument` override: it asks the
    config provider for the SonarLint configuration, runs the base analysis
    with it, and keeps only diagnostics of rules the analyzers know, so no
    compiler diagnostic is reported. The base analysis is a host
    capability. */
module ServicesDiagnosticWorker {
  import opened Wrappers
  import opened Roslyn
  import opened Rules
  import Seqs
  import ServicesConfigProvider

  function IsRecognised(rules: set<string>): Diagnostic -> bool {
    (d: Diagnostic) => d.id in rules
  }

  /** Diagnostics whose id is one of `rules`, in order, each as often as it
      occurs. */
  function KeepRecognised(diagnostics: seq<Diagnostic>, rules: set<string>): (r: seq<Diagnostic>)
    ensures Seqs.IsSubsequence(r, diagnostics)
    ensures forall d :: d in r <==> d in diagnostics && d.id in rules
    ensures rules == {} ==> r == []
    ensures r == Seqs.Filter(diagnostics, IsRecognised(rules))
    ensures forall d :: multiset(r)[d] == if d.id in rules then multiset(diagnostics)[d] else 0
  {
    Seqs.FilterCounts(diagnostics, IsRecognised(rules));
    if |diagnostics| == 0 then []
    else if diagnostics[0].id in rules then [diagnostics[0]] + KeepRecognised(diagnostics[1..], rules)
    else KeepRecognised(diagnostics[1..], rules)
  }

  /** `AnalyzeDocument(project, allAnalyzers, compilation, options, document)`.
      `getConfig` is the config provider; its failure propagates. */
  function AnalyzeDocument(
    project: Project,
    allAnalyzers: seq<Analyzer>,
    compilation: Compilation,
    workspaceAnalyzerOptions: AnalyzerOptions,
    document: Document,
    getConfig: (Compilation, AnalyzerOptions) -> Result<ServicesConfigProvider.AnalysisConfig>,
    baseAnalyze: AnalyzerCall -> seq<Diagnostic>): (r: Result<seq<Diagnostic>>)
    ensures r.Failure? <==> getConfig(compilation, workspaceAnalyzerOptions).Failure?
    ensures r.Failure? ==> r.error == getConfig(compilation, workspaceAnalyzerOptions).error
    ensures r.Success? ==>
      var config := getConfig(compilation, workspaceAnalyzerOptions).value;
      var all := baseAnalyze(AnalyzerCall(project, config.analyzers, config.compilation, config.analyzerOptions, document));
      && Seqs.IsSubsequence(r.value, all)
      && (forall d :: d in r.value <==> d in all && d.id in config.analyzerRules)
      && (forall d :: multiset(r.value)[d] == if d.id in config.analyzerRules then multiset(all)[d] else 0)
  {
    var config :- getConfig(compilation, workspaceAnalyzerOptions);
    var result := baseAnalyze(AnalyzerCall(project, config.analyzers, config.compilation, config.analyzerOptions, document));
    Success(KeepRecognised(result, config.analyzerRules))
  }

  /** The analyzer list the base worker proposes plays no part. */
  lemma AnalyzeDocumentIgnoresAllAnalyzers(
    project: Project,
    allAnalyzers1: seq<Analyzer>, allAnalyzers2: seq<Analyzer>,
    compilation: Compilation,
    workspaceAnalyzerOptions: AnalyzerOptions,
    document: Document,
    getConfig: (Compilation, AnalyzerOptions) -> Result<ServicesConfigProvider.AnalysisConfig>,
    baseAnalyze: AnalyzerCall -> seq<Diagnostic>)
    ensures AnalyzeDocument(project, allAnalyzers1, compilation, workspaceAnalyzerOptions, document, getConfig, baseAnalyze)
         == AnalyzeDocument(project, allAnalyzers2, compilation, workspaceAnalyzerOptions, document, getConfig, baseAnalyze)
  {
  }

  /** A config with no known rule yields no diagnostic at all. */
  lemma NoRulesNoDiagnostics(
    project: Project,
    allAnalyzers: seq<Analyzer>,
    compilation: Compilation,
    workspaceAnalyzerOptions: AnalyzerOptions,
    document: Document,
    getConfig: (Compilation, AnalyzerOptions) -> Result<ServicesConfigProvider.AnalysisConfig>,
    baseAnalyze: AnalyzerCall -> seq<Diagnostic>)
    requires getConfig(compilation, workspaceAnalyzerOptions).Success?
    requires getConfig(compilation, workspaceAnalyzerOptions).value.analyzerRules == {}
    ensures AnalyzeDocument(project, allAnalyzers, compilation, workspaceAnalyzerOptions, document, getConfig, baseAnalyze).value == []
  {
  }

  /** When every base diagnostic is recognised, nothing is dropped and the
      order is the base order. */
  lemma {:induction false} KeepRecognisedAll(diagnostics: seq<Diagnostic>, rules: set<string>)
    requires forall i :: 0 <= i < |diagnostics| ==> diagnostics[i].id in rules
    ensures KeepRecognised(diagnostics, rules) == diagnostics
  {
    if |diagnostics| > 0 {
      KeepRecognisedAll(diagnostics[1..], rules);
    }
  }

  /** Wired to the Services config provider: the diagnostics returned are
      exactly the base diagnostics whose id some SonarAnalyzer analyzer
      supports, so a compiler diagnostic (whose id no analyzer supports)
      never comes out. */
  lemma WithServicesProvider(
    provider: ServicesConfigProvider.Provider,
    repository: RuleDefinitionsRepository,
    toAdditionalText: seq<RuleDefinition> -> AdditionalText,
    project: Project,
    allAnalyzers: seq<Analyzer>,
    compilation: Compilation,
    workspaceAnalyzerOptions: AnalyzerOptions,
    document: Document,
    baseAnalyze: AnalyzerCall -> seq<Diagnostic>)
    requires provider == ServicesConfigProvider.NewProvider(provider.analyzers)
    requires provider.analyzerRules != {}
    ensures var getConfig := (c: Compilation, o: AnalyzerOptions) => ServicesConfigProvider.Get(provider, repository, toAdditionalText, c, o);
      var r := AnalyzeDocument(project, allAnalyzers, compilation, workspaceAnalyzerOptions, document, getConfig, baseAnalyze);
      && r.Success?
      && forall d :: d in r.value ==>
           exists i :: 0 <= i < |provider.analyzers| && d.id in provider.analyzers[i].supportedDiagnosticIds
  {
  }
}
