/** OmniSharp's analyzer-less diagnostic worker, `CopiedCSharpDiagnosticWorker`,
    as copied into this repository. The SonarLint workers do not derive
    from it but from its sibling `CopiedCSharpDiagnosticWorkerWithAnalyzers`,
    which is not part of this model: its analysis is the `baseAnalyze`
    parameter of the worker modules. Host analysis (syntax trees, semantic models), the workspace's
    path-to-document lookup and the cancellation token are parameters. The
    worker analyses documents concurrently and collects the results in
    completion order, so that result is modelled as a multiset. */
module CopiedWorker {
  import opened Wrappers
  import opened Roslyn
  import Seqs
  import ServicesDiagnosticExtensions

  /** OmniSharp's virtual project for files outside any project. */
  const MiscProjectName: string := "OmniSharpMiscellaneousFiles"
  const MiscProjectFileName: string := MiscProjectName + ".csproj"

  /** The host's two analyses of a document: the diagnostics of its syntax
      tree and those of its semantic model. */
  datatype Analysis = Analysis(syntaxDiagnostics: Document -> seq<Diagnostic>, semanticDiagnostics: Document -> seq<Diagnostic>)

  /** `GetDiagnosticsForDocument(document, projectName)`: only a syntax check
      for miscellaneous files, the full semantic diagnostics otherwise. */
  function GetDiagnosticsForDocument(analysis: Analysis, document: Document, projectName: Option<string>): seq<Diagnostic> {
    if projectName == Some(MiscProjectFileName) then analysis.syntaxDiagnostics(document)
    else analysis.semanticDiagnostics(document)
  }

  /** The analysis a document gets depends on its project name alone: a
      miscellaneous file's result does not depend on the semantic model, any
      other document's result does not depend on the syntax tree. */
  lemma ForDocumentUsesOneAnalysis(a1: Analysis, a2: Analysis, document: Document, projectName: Option<string>)
    ensures projectName == Some(MiscProjectFileName) && a1.syntaxDiagnostics == a2.syntaxDiagnostics ==>
      GetDiagnosticsForDocument(a1, document, projectName) == GetDiagnosticsForDocument(a2, document, projectName)
    ensures projectName != Some(MiscProjectFileName) && a1.semanticDiagnostics == a2.semanticDiagnostics ==>
      GetDiagnosticsForDocument(a1, document, projectName) == GetDiagnosticsForDocument(a2, document, projectName)
  {
  }

  /** The comparison is with the project file name: a project named
      exactly `OmniSharpMiscellaneousFiles` is analysed semantically. */
  lemma BareMiscNameIsSemantic(analysis: Analysis, document: Document)
    ensures GetDiagnosticsForDocument(analysis, document, Some(MiscProjectName)) == analysis.semanticDiagnostics(document)
    ensures GetDiagnosticsForDocument(analysis, document, Some(MiscProjectFileName)) == analysis.syntaxDiagnostics(document)
  {
    assert |MiscProjectName| < |MiscProjectFileName|;
  }

  /** A resolved document the worker analyses: not null, and in a project
      whose name is not null. */
  predicate Analysable(d: Option<Document>) {
    d.Some? && d.value.project.Some? && d.value.project.value.name.Some?
  }

  /** The entry an analysable document contributes. */
  function Entry(analysis: Analysis, document: Document): (e: DocumentDiagnostics)
    requires document.project.Some? && document.project.value.name.Some?
    ensures e.documentId == document.id && e.documentPath == document.filePath
    ensures e.projectId == document.project.value.id && e.projectName == document.project.value.name.value
  {
    var project := document.project.value;
    DocumentDiagnostics(document.id, document.filePath, project.id, project.name.value,
      GetDiagnosticsForDocument(analysis, document, project.name))
  }

  /** The documents every path resolves to, in path order
      (`SelectMany` over `GetDocumentsFromFullProjectModelAsync`). */
  function Resolved(resolve: Option<string> -> seq<Option<Document>>, paths: seq<Option<string>>): seq<Option<Document>> {
    Seqs.Flatten(Seqs.Map(paths, resolve))
  }

  /** Reference definition: one entry per analysable document, in order. */
  function Entries(analysis: Analysis, documents: seq<Option<Document>>): seq<DocumentDiagnostics> {
    if |documents| == 0 then []
    else if Analysable(documents[0]) then [Entry(analysis, documents[0].value)] + Entries(analysis, documents[1..])
    else Entries(analysis, documents[1..])
  }

  /** The number of analysable documents. */
  function AnalysableCount(documents: seq<Option<Document>>): nat {
    if |documents| == 0 then 0
    else (if Analysable(documents[0]) then 1 else 0) + AnalysableCount(documents[1..])
  }

  lemma {:induction false} EntriesAppend(analysis: Analysis, a: seq<Option<Document>>, b: seq<Option<Document>>)
    ensures Entries(analysis, a + b) == Entries(analysis, a) + Entries(analysis, b)
  {
    if |a| == 0 {
      assert a + b == b;
    } else {
      assert (a + b)[1..] == a[1..] + b;
      EntriesAppend(analysis, a[1..], b);
    }
  }

  /** Exactly the analysable documents contribute, one entry each. */
  lemma {:induction false} EntriesMembership(analysis: Analysis, documents: seq<Option<Document>>, e: DocumentDiagnostics)
    ensures |Entries(analysis, documents)| == AnalysableCount(documents)
    ensures e in Entries(analysis, documents) <==>
      exists i :: 0 <= i < |documents| && Analysable(documents[i]) && e == Entry(analysis, documents[i].value)
  {
    if |documents| > 0 {
      var tail := documents[1..];
      EntriesMembership(analysis, tail, e);
      if e in Entries(analysis, tail) {
        var i :| 0 <= i < |tail| && Analysable(tail[i]) && e == Entry(analysis, tail[i].value);
        assert documents[i + 1] == tail[i];
      }
      if exists i :: 0 <= i < |documents| && Analysable(documents[i]) && e == Entry(analysis, documents[i].value) {
        var i :| 0 <= i < |documents| && Analysable(documents[i]) && e == Entry(analysis, documents[i].value);
        if i > 0 {
          assert tail[i - 1] == documents[i];
        }
      }
    }
  }

  /** `GetDiagnostics(documentPaths)`: resolve every path, skip null
      documents and documents whose project or project name is null, and
      analyse each of the others once. The entries are collected in a
      multiset since the analyses complete in any order. */
  method GetDiagnostics(
    resolve: Option<string> -> seq<Option<Document>>,
    analysis: Analysis,
    documentPaths: seq<Option<string>>) returns (results: multiset<DocumentDiagnostics>)
    ensures |documentPaths| == 0 ==> results == multiset{}
    ensures results == multiset(Entries(analysis, Resolved(resolve, documentPaths)))
    ensures |results| == AnalysableCount(Resolved(resolve, documentPaths))
  {
    if |documentPaths| == 0 {
      return multiset{};
    }
    var documents := Resolved(resolve, documentPaths);
    results := multiset{};
    var i := 0;
    while i < |documents|
      invariant 0 <= i <= |documents|
      invariant results == multiset(Entries(analysis, documents[..i]))
    {
      var document := documents[i];
      EntriesAppend(analysis, documents[..i], [document]);
      assert documents[..i + 1] == documents[..i] + [document];
      if document.Some? && document.value.project.Some? && document.value.project.value.name.Some? {
        var projectName := document.value.project.value.name;
        var diagnostics := GetDiagnosticsForDocument(analysis, document.value, projectName);
        results := results + multiset{DocumentDiagnostics(document.value.id, document.value.filePath,
          document.value.project.value.id, projectName.value, diagnostics)};
      }
      i := i + 1;
    }
    assert documents[..|documents|] == documents;
    EntriesMembership(analysis, documents, DocumentDiagnostics(0, None, 0, [], []));
  }

  /** Every document path of every project of the solution, in order. */
  function AllDocumentPaths(solution: Solution): (paths: seq<Option<string>>)
    ensures forall p, d :: p in solution.projects && d in p.documents ==> d.filePath in paths
  {
    var perProject := Seqs.Map(solution.projects, (p: Project) => Seqs.Map(p.documents, (d: Document) => d.filePath));
    AllDocumentPathsCover(solution, perProject);
    Seqs.Flatten(perProject)
  }

  lemma AllDocumentPathsCover(solution: Solution, perProject: seq<seq<Option<string>>>)
    requires |perProject| == |solution.projects|
    requires forall i :: 0 <= i < |perProject| ==>
      perProject[i] == Seqs.Map(solution.projects[i].documents, (d: Document) => d.filePath)
    ensures forall p, d :: p in solution.projects && d in p.documents ==> d.filePath in Seqs.Flatten(perProject)
  {
    Seqs.FlattenMembershipAll(perProject);
    forall p, d | p in solution.projects && d in p.documents
      ensures d.filePath in Seqs.Flatten(perProject)
    {
      var i :| 0 <= i < |solution.projects| && solution.projects[i] == p;
      var j :| 0 <= j < |p.documents| && p.documents[j] == d;
      assert perProject[i][j] == d.filePath;
    }
  }

  /** `GetAllDiagnosticsAsync`: `GetDiagnostics` over every document path of
      the current solution. */
  method GetAllDiagnostics(
    solution: Solution,
    resolve: Option<string> -> seq<Option<Document>>,
    analysis: Analysis) returns (results: multiset<DocumentDiagnostics>)
    ensures results == multiset(Entries(analysis, Resolved(resolve, AllDocumentPaths(solution))))
  {
    results := GetDiagnostics(resolve, analysis, AllDocumentPaths(solution));
  }

  /** Analysing two path lists together gives the union of analysing each:
      the worker treats every path independently. */
  lemma GetDiagnosticsSplits(
    resolve: Option<string> -> seq<Option<Document>>, analysis: Analysis,
    paths1: seq<Option<string>>, paths2: seq<Option<string>>)
    ensures multiset(Entries(analysis, Resolved(resolve, paths1 + paths2)))
         == multiset(Entries(analysis, Resolved(resolve, paths1))) + multiset(Entries(analysis, Resolved(resolve, paths2)))
  {
    assert Seqs.Map(paths1 + paths2, resolve) == Seqs.Map(paths1, resolve) + Seqs.Map(paths2, resolve);
    Seqs.FlattenAppend(Seqs.Map(paths1, resolve), Seqs.Map(paths2, resolve));
    EntriesAppend(analysis, Resolved(resolve, paths1), Resolved(resolve, paths2));
  }

  /** A path resolving only to documents without a usable project adds
      nothing. */
  lemma {:induction false} UnusableDocumentsSkipped(analysis: Analysis, documents: seq<Option<Document>>)
    requires forall i :: 0 <= i < |documents| ==> !Analysable(documents[i])
    ensures Entries(analysis, documents) == []
  {
    if |documents| > 0 {
      UnusableDocumentsSkipped(analysis, documents[1..]);
    }
  }

  /** Reference definition: the per-document results concatenated in
      document order. */
  function ProjectDiagnostics(analysis: Analysis, documents: seq<Document>, projectName: string): seq<Diagnostic> {
    if |documents| == 0 then []
    else
      var last := documents[|documents| - 1];
      ProjectDiagnostics(analysis, documents[..|documents| - 1], projectName) + GetDiagnosticsForDocument(analysis, last, Some(projectName))
  }

  /** The token's state at each of the `ThrowIfCancellationRequested`
      checks, one per document. */
  predicate NeverCancelled(cancelledAt: nat -> bool, n: nat) {
    forall i: nat :: i < n ==> !cancelledAt(i)
  }

  /** The first check that sees the token cancelled is check `i`. */
  predicate FirstCancellation(cancelledAt: nat -> bool, i: nat) {
    cancelledAt(i) && NeverCancelled(cancelledAt, i)
  }

  /** `AnalyzeProjectsAsync(project, cancellationToken)`: the token is checked
      before each document; a cancellation discards the partial list. */
  method AnalyzeProjects(analysis: Analysis, project: Project, cancelledAt: nat -> bool)
    returns (r: Result<seq<Diagnostic>>)
    ensures r.Success? <==> NeverCancelled(cancelledAt, |project.documents|)
    ensures r.Failure? ==> r.error == OperationCanceledException
    ensures r.Failure? ==> exists i: nat :: i < |project.documents| && FirstCancellation(cancelledAt, i)
    ensures r.Success? ==> r.value == ProjectDiagnostics(analysis, project.documents, project.name)
  {
    var diagnostics: seq<Diagnostic> := [];
    var i := 0;
    while i < |project.documents|
      invariant 0 <= i <= |project.documents|
      invariant NeverCancelled(cancelledAt, i)
      invariant diagnostics == ProjectDiagnostics(analysis, project.documents[..i], project.name)
    {
      if cancelledAt(i) {
        assert FirstCancellation(cancelledAt, i);
        return Failure(OperationCanceledException);
      }
      var document := project.documents[i];
      assert project.documents[..i + 1][..i] == project.documents[..i];
      diagnostics := diagnostics + GetDiagnosticsForDocument(analysis, document, Some(project.name));
      i := i + 1;
    }
    assert project.documents[..i] == project.documents;
    return Success(diagnostics);
  }

  /** The concatenation keeps every document's diagnostics as one block, in
      document order. */
  lemma {:induction false} ProjectDiagnosticsAppend(analysis: Analysis, a: seq<Document>, b: seq<Document>, projectName: string)
    ensures ProjectDiagnostics(analysis, a + b, projectName)
         == ProjectDiagnostics(analysis, a, projectName) + ProjectDiagnostics(analysis, b, projectName)
  {
    if |b| > 0 {
      var last := b[|b| - 1];
      assert (a + b)[..|a + b| - 1] == a + b[..|b| - 1];
      ProjectDiagnosticsAppend(analysis, a, b[..|b| - 1], projectName);
    } else {
      assert a + b == a;
    }
  }

  /** `AnalyzeDocumentAsync(document, cancellationToken)`: a cancelled token
      throws before anything else; a document without a project
      dereferences null; otherwise the result is that of analysing a
      one-document project, and a null project name selects the semantic
      analysis. */
  function AnalyzeDocument(analysis: Analysis, document: Document, cancelled: bool): (r: Result<seq<Diagnostic>>)
    ensures cancelled ==> r == Failure(OperationCanceledException)
    ensures !cancelled && document.project.None? ==> r == Failure(NullReferenceException)
    ensures !cancelled && document.project.Some? && document.project.value.name.Some? ==>
      r == Success(ProjectDiagnostics(analysis, [document], document.project.value.name.value))
    ensures !cancelled && document.project.Some? && document.project.value.name.None? ==>
      r == Success(analysis.semanticDiagnostics(document))
  {
    if cancelled then Failure(OperationCanceledException)
    else if document.project.None? then Failure(NullReferenceException)
    else
      var project := document.project.value;
      if project.name.Some? then
        OneDocumentProject(analysis, document, project.name.value);
        Success(GetDiagnosticsForDocument(analysis, document, project.name))
      else
        Success(GetDiagnosticsForDocument(analysis, document, project.name))
  }

  /** Analysing one document is analysing a project made of it. */
  lemma OneDocumentProject(analysis: Analysis, document: Document, projectName: string)
    ensures ProjectDiagnostics(analysis, [document], projectName) == GetDiagnosticsForDocument(analysis, document, Some(projectName))
  {
    assert [document][..0] == [];
  }

  /** OmniSharp's `DiagnosticResult`: a file and its locations. */
  datatype DiagnosticResult = DiagnosticResult(fileName: string, quickFixes: seq<ServicesDiagnosticExtensions.SonarLintDiagnosticLocation>)

  /** The semantic diagnostics of every document a path resolves to. */
  function QueuedItems(filePath: string, getDocuments: string -> seq<Document>, analysis: Analysis): seq<Diagnostic> {
    Seqs.Flatten(Seqs.Map(getDocuments(filePath), analysis.semanticDiagnostics))
  }

  /** A location without quick fixes. */
  function Unfixed(d: Diagnostic): ServicesDiagnosticExtensions.SonarLintDiagnosticLocation {
    ServicesDiagnosticExtensions.ToSonarLintLocation(d, [])
  }

  /** The locations of the queued diagnostics, in order. */
  function QueuedLocations(filePath: string, getDocuments: string -> seq<Document>, analysis: Analysis)
    : seq<ServicesDiagnosticExtensions.SonarLintDiagnosticLocation>
  {
    Seqs.Map(QueuedItems(filePath, getDocuments, analysis), Unfixed)
  }

  /** `ProcessNextItem(filePath)`: the locations of the semantic
      diagnostics of the path's documents, with no quick fixes, duplicates
      removed under the location equality `key`. */
  function ProcessNextItem<K(==,!new)>(
    filePath: string, getDocuments: string -> seq<Document>, analysis: Analysis,
    key: ServicesDiagnosticExtensions.SonarLintDiagnosticLocation -> K): (r: DiagnosticResult)
    ensures r.fileName == filePath
    ensures forall i :: 0 <= i < |r.quickFixes| ==> r.quickFixes[i].quickFixes == []
    ensures forall i :: 0 <= i < |r.quickFixes| ==>
      exists d :: d in QueuedItems(filePath, getDocuments, analysis) && r.quickFixes[i] == Unfixed(d)
    ensures forall i, j :: 0 <= i < j < |r.quickFixes| ==> key(r.quickFixes[i]) != key(r.quickFixes[j])
    ensures forall d :: d in QueuedItems(filePath, getDocuments, analysis) ==> Seqs.HasKey(r.quickFixes, key, key(Unfixed(d)))
    ensures forall i :: 0 <= i < |r.quickFixes| ==>
      && Seqs.FirstKeyIndex(QueuedLocations(filePath, getDocuments, analysis), key, key(r.quickFixes[i]))
         < |QueuedLocations(filePath, getDocuments, analysis)|
      && QueuedLocations(filePath, getDocuments, analysis)[
           Seqs.FirstKeyIndex(QueuedLocations(filePath, getDocuments, analysis), key, key(r.quickFixes[i]))]
         == r.quickFixes[i]
    ensures forall i, j :: 0 <= i < j < |r.quickFixes| ==>
      Seqs.FirstKeyIndex(QueuedLocations(filePath, getDocuments, analysis), key, key(r.quickFixes[i]))
      < Seqs.FirstKeyIndex(QueuedLocations(filePath, getDocuments, analysis), key, key(r.quickFixes[j]))
  {
    DistinctUnfixed(QueuedItems(filePath, getDocuments, analysis), key);
    DiagnosticResult(filePath, Seqs.DistinctBy(QueuedLocations(filePath, getDocuments, analysis), key))
  }

  /** The distinct locations of some diagnostics carry no quick fixes, each
      is one of theirs, and every diagnostic's key is represented. */
  lemma DistinctUnfixed<K(!new)>(items: seq<Diagnostic>, key: ServicesDiagnosticExtensions.SonarLintDiagnosticLocation -> K)
    ensures var r := Seqs.DistinctBy(Seqs.Map(items, Unfixed), key);
      && (forall i :: 0 <= i < |r| ==> r[i].quickFixes == [])
      && (forall i :: 0 <= i < |r| ==> exists d :: d in items && r[i] == Unfixed(d))
      && (forall d :: d in items ==> Seqs.HasKey(r, key, key(Unfixed(d))))
  {
    var locations := Seqs.Map(items, Unfixed);
    var r := Seqs.DistinctBy(locations, key);
    UnfixedMembership(items, locations);
    forall i | 0 <= i < |r|
      ensures r[i].quickFixes == [] && exists d :: d in items && r[i] == Unfixed(d)
    {
      assert r[i] in locations;
    }
  }

  lemma UnfixedMembership(items: seq<Diagnostic>, locations: seq<ServicesDiagnosticExtensions.SonarLintDiagnosticLocation>)
    requires locations == Seqs.Map(items, Unfixed)
    ensures forall d :: d in items ==> Unfixed(d) in locations
    ensures forall l :: l in locations ==> l.quickFixes == [] && exists d :: d in items && l == Unfixed(d)
  {
    forall d | d in items
      ensures Unfixed(d) in locations
    {
      var j :| 0 <= j < |items| && items[j] == d;
      assert locations[j] == Unfixed(d);
    }
    forall l | l in locations
      ensures l.quickFixes == [] && exists d :: d in items && l == Unfixed(d)
    {
      var j :| 0 <= j < |locations| && locations[j] == l;
      assert items[j] in items;
    }
  }

  /** Some result is for `filePath`. */
  predicate HasResultFor(results: seq<DiagnosticResult>, filePath: string) {
    exists i :: 0 <= i < |results| && results[i].fileName == filePath
  }

  /** `ProcessQueue(filePaths)`: one result per distinct queued path, in
      order of first queueing. */
  function ProcessQueue<K(==,!new)>(
    filePaths: seq<string>, getDocuments: string -> seq<Document>, analysis: Analysis,
    key: ServicesDiagnosticExtensions.SonarLintDiagnosticLocation -> K): (r: seq<DiagnosticResult>)
    ensures forall i, j :: 0 <= i < j < |r| ==> r[i].fileName != r[j].fileName
    ensures forall p :: p in filePaths <==> HasResultFor(r, p)
    ensures forall i :: 0 <= i < |r| ==> r[i] == ProcessNextItem(r[i].fileName, getDocuments, analysis, key)
    ensures forall i, j :: 0 <= i < j < |r| ==>
      && r[i].fileName in filePaths && r[j].fileName in filePaths
      && Seqs.FirstIndex(filePaths, r[i].fileName) < Seqs.FirstIndex(filePaths, r[j].fileName)
  {
    var paths := Seqs.Distinct(filePaths);
    var r := Results(paths, getDocuments, analysis, key);
    ResultsCoverPaths(filePaths, paths, r);
    Seqs.DistinctOrder(filePaths);
    r
  }

  /** Results named after distinct paths, one per path, are distinct and
      cover exactly the queued paths. */
  lemma ResultsCoverPaths(filePaths: seq<string>, paths: seq<string>, r: seq<DiagnosticResult>)
    requires Seqs.NoDuplicates(paths) && forall p :: p in paths <==> p in filePaths
    requires |r| == |paths| && forall i :: 0 <= i < |r| ==> r[i].fileName == paths[i]
    ensures forall i, j :: 0 <= i < j < |r| ==> r[i].fileName != r[j].fileName
    ensures forall p :: p in filePaths <==> HasResultFor(r, p)
  {
    forall p | p in filePaths
      ensures HasResultFor(r, p)
    {
      var i :| 0 <= i < |paths| && paths[i] == p;
      assert r[i].fileName == p;
    }
  }

  /** The result of each path, in order. */
  function Results<K(==,!new)>(
    paths: seq<string>, getDocuments: string -> seq<Document>, analysis: Analysis,
    key: ServicesDiagnosticExtensions.SonarLintDiagnosticLocation -> K): (r: seq<DiagnosticResult>)
    ensures |r| == |paths|
    ensures forall i :: 0 <= i < |r| ==> r[i].fileName == paths[i] && r[i] == ProcessNextItem(paths[i], getDocuments, analysis, key)
  {
    seq(|paths|, i requires 0 <= i < |paths| => ProcessNextItem(paths[i], getDocuments, analysis, key))
  }

  /** Queueing a path twice processes it once. */
  lemma ProcessQueueOncePerPath<K(!new)>(
    filePath: string, getDocuments: string -> seq<Document>, analysis: Analysis,
    key: ServicesDiagnosticExtensions.SonarLintDiagnosticLocation -> K)
    ensures ProcessQueue([filePath, filePath], getDocuments, analysis, key)
         == [ProcessNextItem(filePath, getDocuments, analysis, key)]
  {
    Seqs.DistinctTwice(filePath);
    assert Results([filePath], getDocuments, analysis, key)[0] == ProcessNextItem(filePath, getDocuments, analysis, key);
  }
}
