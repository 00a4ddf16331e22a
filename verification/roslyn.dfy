/** Roslyn and OmniSharp host objects, reduced to the data the system reads
    from them. An object the system only passes along (a solution, a code
    action, an analyzer) carries a `handle` that stands for its identity. */
module Roslyn {
  import opened Wrappers

  /** `ReportDiagnostic`: the severity a compilation option forces on a
      rule. */
  datatype ReportDiagnostic = Default | Error | Warn | Info | Hidden | Suppress

  /** `DiagnosticSeverity`; `Name` is its `ToString()`. */
  datatype DiagnosticSeverity = Hidden | Info | Warning | Error {
    function Name(): string {
      match this
      case Hidden => "Hidden"
      case Info => "Info"
      case Warning => "Warning"
      case Error => "Error"
    }
  }

  /** `FileLinePositionSpan` as returned by `Location.GetMappedLineSpan()`:
      an optional path and zero-based start and end positions. */
  datatype LineSpan = LineSpan(
    path: Option<string>,
    startLine: int,
    startCharacter: int,
    endLine: int,
    endCharacter: int)

  /** A reported diagnostic: rule id, formatted message, severity, primary
      location, the descriptor's custom tags, secondary locations, and the
      property bag (whose values may be null). */
  datatype Diagnostic = Diagnostic(
    id: string,
    message: string,
    severity: DiagnosticSeverity,
    location: LineSpan,
    customTags: seq<string>,
    additionalLocations: seq<LineSpan>,
    properties: map<string, Option<string>>)

  /** The project a document belongs to, as far as the worker reads it. */
  datatype ProjectRef = ProjectRef(id: nat, name: Option<string>)

  datatype Document = Document(id: nat, filePath: Option<string>, project: Option<ProjectRef>)

  datatype Project = Project(id: nat, name: string, documents: seq<Document>)

  datatype Solution = Solution(handle: nat, projects: seq<Project>)

  /** OmniSharp's `DocumentDiagnostics`: one analysed document and its
      diagnostics. */
  datatype DocumentDiagnostics = DocumentDiagnostics(
    documentId: nat,
    documentPath: Option<string>,
    projectId: nat,
    projectName: string,
    diagnostics: seq<Diagnostic>)

  /** A compilation, reduced to its rule-severity overrides
      (`Options.SpecificDiagnosticOptions`). */
  datatype Compilation = Compilation(handle: nat, specificDiagnosticOptions: map<string, ReportDiagnostic>)

  /** `Compilation.WithOptions(Options.WithSpecificDiagnosticOptions(m))`. */
  function WithSpecificDiagnosticOptions(c: Compilation, m: map<string, ReportDiagnostic>): (r: Compilation)
    ensures r.handle == c.handle && r.specificDiagnosticOptions == m
  {
    c.(specificDiagnosticOptions := m)
  }

  datatype AdditionalText = AdditionalText(path: string, content: string)

  /** `AnalyzerOptions`: additional files plus an opaque config-options
      provider. */
  datatype AnalyzerOptions = AnalyzerOptions(additionalFiles: seq<AdditionalText>, configOptionsProvider: nat)

  /** A `DiagnosticAnalyzer`, reduced to the ids of its supported
      diagnostics. */
  datatype Analyzer = Analyzer(handle: nat, supportedDiagnosticIds: seq<string>)

  datatype CodeAction = CodeAction(handle: nat, title: string)

  /** A code-action operation; only `ApplyChangesOperation` is told apart. */
  datatype Operation = ApplyChanges(changedSolution: Solution) | OtherOperation(handle: nat)

  datatype CodeFixProvider = CodeFixProvider(handle: nat, fixableDiagnosticIds: seq<string>)

  /** An `ISonarAnalyzerCodeActionProvider`: the code-fix providers it
      contributes. */
  datatype CodeActionProvider = CodeActionProvider(handle: nat, codeFixProviders: seq<CodeFixProvider>)

  /** The arguments of the base worker's `AnalyzeDocument`, the host
      analysis that runs analyzers over one document. */
  datatype AnalyzerCall = AnalyzerCall(
    project: Project,
    analyzers: seq<Analyzer>,
    compilation: Compilation,
    options: AnalyzerOptions,
    document: Document)
}
