/** The analysis-config provider of the older Plugin assembly. Unlike the
    Services one it caches nothing: the analyzers are fetched from the
    code-action provider at every call, and it returns no rule-id set. Its
    severity converter takes the rule list alone; that converter is not
    part of this model and is a parameter. */
module PluginConfigProvider {
  import opened Roslyn
  import opened Rules
  import AdditionalFiles
  import Strings

  datatype AnalysisConfig = AnalysisConfig(
    analyzers: seq<Analyzer>,
    compilation: Compilation,
    analyzerOptions: AnalyzerOptions)

  /** `Get(originalCompilation, originalOptions)`: `currentAnalyzers` is what
      the code-action provider reports at the time of the call. The
      repository is read once and the same rule list feeds both
      converters. */
  function Get(
    repository: RuleDefinitionsRepository,
    currentAnalyzers: seq<Analyzer>,
    toReportDiagnostics: seq<RuleDefinition> -> map<string, ReportDiagnostic>,
    toAdditionalText: seq<RuleDefinition> -> AdditionalText,
    originalCompilation: Compilation,
    originalOptions: AnalyzerOptions): (c: AnalysisConfig)
    ensures c.analyzers == currentAnalyzers
    ensures c.compilation.handle == originalCompilation.handle
    ensures c.compilation.specificDiagnosticOptions == toReportDiagnostics(repository.RuleDefinitions())
    ensures c.analyzerOptions == AdditionalFiles.ReplaceByFileName(originalOptions, toAdditionalText(repository.RuleDefinitions()))
    ensures var files := c.analyzerOptions.additionalFiles;
      && c.analyzerOptions.configOptionsProvider == originalOptions.configOptionsProvider
      && |files| > 0
      && files[|files| - 1] == toAdditionalText(repository.RuleDefinitions())
      && (forall f :: f in files[..|files| - 1] <==>
            f in originalOptions.additionalFiles && !AdditionalFiles.SameFileName(f, Strings.FileName(files[|files| - 1].path)))
  {
    var rules := repository.RuleDefinitions();
    AnalysisConfig(
      currentAnalyzers,
      WithSpecificDiagnosticOptions(originalCompilation, toReportDiagnostics(rules)),
      AdditionalFiles.ReplaceByFileName(originalOptions, toAdditionalText(rules)))
  }

  /** Whatever the original compilation carried, the severity overrides are
      exactly the converter's output. */
  lemma GetReplacesSeveritiesWholesale(
    repository: RuleDefinitionsRepository,
    currentAnalyzers: seq<Analyzer>,
    toReportDiagnostics: seq<RuleDefinition> -> map<string, ReportDiagnostic>,
    toAdditionalText: seq<RuleDefinition> -> AdditionalText,
    compilation1: Compilation, compilation2: Compilation,
    options: AnalyzerOptions)
    ensures Get(repository, currentAnalyzers, toReportDiagnostics, toAdditionalText, compilation1, options).compilation.specificDiagnosticOptions
         == Get(repository, currentAnalyzers, toReportDiagnostics, toAdditionalText, compilation2, options).compilation.specificDiagnosticOptions
  {
  }
}
