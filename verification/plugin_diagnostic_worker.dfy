/** The older Plugin diagnostic worker's `AnalyzeDocument` override. It
    replaces the analyzers, the rule severities and the `SonarLint.xml`
    additional file itself, then forwards to the base analysis with the
    same project and document. Existing additional files are recognised by
    a case-sensitive suffix match on the whole path. No diagnostic is
    filtered afterwards. */
module PluginDiagnosticWorker {
  import opened Roslyn
  import opened Rules
  import Strings
  import AdditionalFiles

  /** What the worker passes to the base analysis. `codeDiagnosticAnalyzers`
      is what the code-action provider reports; the two converters are
      parameters. */
  function ForwardedCall(
    project: Project,
    allAnalyzers: seq<Analyzer>,
    compilation: Compilation,
    workspaceAnalyzerOptions: AnalyzerOptions,
    document: Document,
    repository: RuleDefinitionsRepository,
    codeDiagnosticAnalyzers: seq<Analyzer>,
    toReportDiagnostics: seq<RuleDefinition> -> map<string, ReportDiagnostic>,
    toAdditionalText: seq<RuleDefinition> -> AdditionalText): (call: AnalyzerCall)
    ensures call.project == project && call.document == document
    ensures call.analyzers == codeDiagnosticAnalyzers
    ensures call.compilation.handle == compilation.handle
    ensures call.compilation.specificDiagnosticOptions == toReportDiagnostics(repository.RuleDefinitions())
    ensures call.options == AdditionalFiles.ReplaceByPathSuffix(workspaceAnalyzerOptions, toAdditionalText(repository.RuleDefinitions()))
    ensures var files := call.options.additionalFiles;
      var sonarLintFile := toAdditionalText(repository.RuleDefinitions());
      && call.options.configOptionsProvider == workspaceAnalyzerOptions.configOptionsProvider
      && |files| > 0 && files[|files| - 1] == sonarLintFile
      && (forall f :: f in files[..|files| - 1] <==>
            f in workspaceAnalyzerOptions.additionalFiles && !Strings.EndsWith(f.path, Strings.FileName(sonarLintFile.path)))
  {
    AnalyzerCall(
      project,
      codeDiagnosticAnalyzers,
      WithSpecificDiagnosticOptions(compilation, toReportDiagnostics(repository.RuleDefinitions())),
      AdditionalFiles.ReplaceByPathSuffix(workspaceAnalyzerOptions, toAdditionalText(repository.RuleDefinitions())),
      document)
  }

  /** `AnalyzeDocument`: the base analysis over the forwarded call. */
  function AnalyzeDocument(
    project: Project,
    allAnalyzers: seq<Analyzer>,
    compilation: Compilation,
    workspaceAnalyzerOptions: AnalyzerOptions,
    document: Document,
    repository: RuleDefinitionsRepository,
    codeDiagnosticAnalyzers: seq<Analyzer>,
    toReportDiagnostics: seq<RuleDefinition> -> map<string, ReportDiagnostic>,
    toAdditionalText: seq<RuleDefinition> -> AdditionalText,
    baseAnalyze: AnalyzerCall -> seq<Diagnostic>): seq<Diagnostic>
  {
    baseAnalyze(ForwardedCall(project, allAnalyzers, compilation, workspaceAnalyzerOptions, document,
      repository, codeDiagnosticAnalyzers, toReportDiagnostics, toAdditionalText))
  }

  /** The analyzers the base worker proposes are discarded: the result is
      the same whatever they are. */
  lemma AnalyzeDocumentIgnoresAllAnalyzers(
    project: Project,
    allAnalyzers1: seq<Analyzer>, allAnalyzers2: seq<Analyzer>,
    compilation: Compilation,
    workspaceAnalyzerOptions: AnalyzerOptions,
    document: Document,
    repository: RuleDefinitionsRepository,
    codeDiagnosticAnalyzers: seq<Analyzer>,
    toReportDiagnostics: seq<RuleDefinition> -> map<string, ReportDiagnostic>,
    toAdditionalText: seq<RuleDefinition> -> AdditionalText,
    baseAnalyze: AnalyzerCall -> seq<Diagnostic>)
    ensures AnalyzeDocument(project, allAnalyzers1, compilation, workspaceAnalyzerOptions, document,
              repository, codeDiagnosticAnalyzers, toReportDiagnostics, toAdditionalText, baseAnalyze)
         == AnalyzeDocument(project, allAnalyzers2, compilation, workspaceAnalyzerOptions, document,
              repository, codeDiagnosticAnalyzers, toReportDiagnostics, toAdditionalText, baseAnalyze)
  {
  }
}
