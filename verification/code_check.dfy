/** The `/sonarlint/codecheck` endpoint of both assemblies and the Services
    converter from document diagnostics to reported locations. The worker
    the endpoint calls is a parameter: its answer for all documents and its
    answer for a list of paths. */
module CodeCheck {
  import opened Wrappers
  import opened Roslyn
  import opened DiagnosticLocations
  import Seqs
  import QuickFixes
  import Services = ServicesDiagnosticExtensions
  import Plugin = PluginDiagnosticExtensions

  /** `string.IsNullOrEmpty`. */
  predicate IsNullOrEmpty(s: Option<string>) {
    s.None? || s.value == []
  }

  /** A document is kept when there is no filter or its path is the
      filter; the file of its diagnostics' locations plays no part. */
  predicate PassesFilter(doc: DocumentDiagnostics, fileNameFilter: Option<string>) {
    IsNullOrEmpty(fileNameFilter) || doc.documentPath == fileNameFilter
  }

  /** `Where(x => string.IsNullOrEmpty(filter) || x.DocumentPath == filter)`. */
  function Matching(docs: seq<DocumentDiagnostics>, fileNameFilter: Option<string>): (r: seq<DocumentDiagnostics>)
    ensures forall d :: d in r <==> d in docs && PassesFilter(d, fileNameFilter)
    ensures Seqs.IsSubsequence(r, docs)
    ensures IsNullOrEmpty(fileNameFilter) ==> r == docs
    ensures forall d ::
      multiset(r)[d] == if PassesFilter(d, fileNameFilter) then multiset(docs)[d] else 0
  {
    var keep := (d: DocumentDiagnostics) => PassesFilter(d, fileNameFilter);
    Seqs.FilterCounts(docs, keep);
    if IsNullOrEmpty(fileNameFilter) then
      Seqs.FilterAll(docs, keep);
      Seqs.Filter(docs, keep)
    else
      Seqs.Filter(docs, keep)
  }

  /** Some report of a kept document has this primary location. */
  predicate ReportedIn(docs: seq<DocumentDiagnostics>, fileNameFilter: Option<string>, l: DiagnosticLocation) {
    exists p :: p in Reports(docs) && PassesFilter(p.document, fileNameFilter) && l == ToDiagnosticLocation(p.diagnostic)
  }

  /** The location equality tells apart locations in different files. */
  ghost predicate KeyDeterminesFile<K(!new)>(key: DiagnosticLocation -> K) {
    forall a, b :: key(a) == key(b) ==> a.fileName == b.fileName
  }

  function HasFile(l: Services.SonarLintDiagnosticLocation): bool {
    l.location.fileName.Some?
  }

  /** `DiagnosticsToCodeLocationsConverter.Convert(documentDiagnostics,
      fileNameFilter)`: keep the matching documents, merge their locations
      by project (fetching quick fixes), and drop the locations with a null
      file name. */
  function Convert<K(==,!new)>(
    documentDiagnostics: seq<DocumentDiagnostics>,
    fileNameFilter: Option<string>,
    getQuickFixes: (Diagnostic, Option<string>) -> Result<seq<QuickFixes.QuickFix>>,
    key: DiagnosticLocation -> K): (r: Result<seq<Services.SonarLintDiagnosticLocation>>)
    ensures r.Failure? <==> !Services.AllFetched(Reports(Matching(documentDiagnostics, fileNameFilter)), getQuickFixes)
    ensures r.Success? ==> forall i :: 0 <= i < |r.value| ==> r.value[i].location.fileName.Some?
    ensures r.Success? ==> forall i, j :: 0 <= i < j < |r.value| ==> key(r.value[i].location) != key(r.value[j].location)
    ensures r.Success? ==> forall i :: 0 <= i < |r.value| ==>
      Services.FirstReportOf(Reports(Matching(documentDiagnostics, fileNameFilter)), getQuickFixes, key, r.value[i])
    ensures r.Success? ==> forall i :: 0 <= i < |r.value| ==>
      r.value[i].projects == ProjectsReporting(Reports(Matching(documentDiagnostics, fileNameFilter)), key, key(r.value[i].location))
    ensures r.Success? && KeyDeterminesFile(key) ==>
      forall p :: p in Reports(Matching(documentDiagnostics, fileNameFilter)) && ToDiagnosticLocation(p.diagnostic).fileName.Some? ==>
        Services.Covered(r.value, key, p.diagnostic)
    ensures r.Success? ==> forall i, j :: 0 <= i < j < |r.value| ==>
      Seqs.FirstKeyIndex(Reports(Matching(documentDiagnostics, fileNameFilter)), ReportKey(key), key(r.value[i].location))
      < Seqs.FirstKeyIndex(Reports(Matching(documentDiagnostics, fileNameFilter)), ReportKey(key), key(r.value[j].location))
  {
    var docs := Matching(documentDiagnostics, fileNameFilter);
    var grouped :- Services.DistinctDiagnosticLocationsByProject(docs, getQuickFixes, key);
    var r := Seqs.Filter(grouped, HasFile);
    FilterKeepsEntries(grouped, r);
    FilteredKeysDistinct(key, grouped, r);
    FilteredEntriesKept(Reports(docs), getQuickFixes, key, grouped, r);
    NamedLocationsCovered(Reports(docs), key, grouped, r);
    FilteredOrder(Reports(docs), key, grouped, r);
    Success(r)
  }

  lemma FilteredEntriesKept<K(!new)>(
    reports: seq<Report>, getQuickFixes: (Diagnostic, Option<string>) -> Result<seq<QuickFixes.QuickFix>>,
    key: DiagnosticLocation -> K,
    grouped: seq<Services.SonarLintDiagnosticLocation>, r: seq<Services.SonarLintDiagnosticLocation>)
    requires forall i :: 0 <= i < |r| ==> r[i] in grouped
    requires forall i :: 0 <= i < |grouped| ==> grouped[i].projects == ProjectsReporting(reports, key, key(grouped[i].location))
    requires forall i :: 0 <= i < |grouped| ==> Services.FirstReportOf(reports, getQuickFixes, key, grouped[i])
    ensures forall i :: 0 <= i < |r| ==> Services.FirstReportOf(reports, getQuickFixes, key, r[i])
    ensures forall i :: 0 <= i < |r| ==> r[i].projects == ProjectsReporting(reports, key, key(r[i].location))
  {
    forall i | 0 <= i < |r|
      ensures Services.FirstReportOf(reports, getQuickFixes, key, r[i])
      ensures r[i].projects == ProjectsReporting(reports, key, key(r[i].location))
    {
      var k :| 0 <= k < |grouped| && grouped[k] == r[i];
    }
  }

  lemma FilteredKeysDistinct<K(!new)>(
    key: DiagnosticLocation -> K, grouped: seq<Services.SonarLintDiagnosticLocation>, r: seq<Services.SonarLintDiagnosticLocation>)
    requires r == Seqs.Filter(grouped, HasFile)
    requires forall i, j :: 0 <= i < j < |grouped| ==> key(grouped[i].location) != key(grouped[j].location)
    ensures forall i, j :: 0 <= i < j < |r| ==> key(r[i].location) != key(r[j].location)
  {
    var lk := (l: Services.SonarLintDiagnosticLocation) => key(l.location);
    assert forall i, j :: 0 <= i < j < |grouped| ==> lk(grouped[i]) != lk(grouped[j]);
    Seqs.FilterDistinctKeys(grouped, HasFile, lk);
    assert forall i, j :: 0 <= i < j < |r| ==> lk(r[i]) != lk(r[j]);
  }

  /** Dropping the locations without a file keeps the others' order. */
  lemma FilteredOrder<K(!new)>(
    reports: seq<Report>, key: DiagnosticLocation -> K,
    grouped: seq<Services.SonarLintDiagnosticLocation>, r: seq<Services.SonarLintDiagnosticLocation>)
    requires r == Seqs.Filter(grouped, HasFile)
    requires forall i, j :: 0 <= i < j < |grouped| ==>
      Seqs.FirstKeyIndex(reports, ReportKey(key), key(grouped[i].location))
      < Seqs.FirstKeyIndex(reports, ReportKey(key), key(grouped[j].location))
    ensures forall i, j :: 0 <= i < j < |r| ==>
      Seqs.FirstKeyIndex(reports, ReportKey(key), key(r[i].location))
      < Seqs.FirstKeyIndex(reports, ReportKey(key), key(r[j].location))
  {
    var f := (l: Services.SonarLintDiagnosticLocation) => Seqs.FirstKeyIndex(reports, ReportKey(key), key(l.location)) as int;
    assert Seqs.Increasing(grouped, f);
    Seqs.FilterKeepsOrder(grouped, HasFile, f);
    assert Seqs.Increasing(r, f);
  }

  lemma FilterKeepsEntries(grouped: seq<Services.SonarLintDiagnosticLocation>, r: seq<Services.SonarLintDiagnosticLocation>)
    requires r == Seqs.Filter(grouped, HasFile)
    ensures forall i :: 0 <= i < |r| ==> r[i] in grouped && HasFile(r[i])
  {
    forall i | 0 <= i < |r|
      ensures r[i] in grouped && HasFile(r[i])
    {
      assert r[i] in r;
    }
  }

  lemma NamedLocationsCovered<K(!new)>(
    reports: seq<Report>, key: DiagnosticLocation -> K,
    grouped: seq<Services.SonarLintDiagnosticLocation>, r: seq<Services.SonarLintDiagnosticLocation>)
    requires forall m :: 0 <= m < |reports| ==> Services.Covered(grouped, key, reports[m].diagnostic)
    requires r == Seqs.Filter(grouped, HasFile)
    ensures KeyDeterminesFile(key) ==>
      forall p :: p in reports && ToDiagnosticLocation(p.diagnostic).fileName.Some? ==> Services.Covered(r, key, p.diagnostic)
  {
    forall p | KeyDeterminesFile(key) && p in reports && ToDiagnosticLocation(p.diagnostic).fileName.Some?
      ensures Services.Covered(r, key, p.diagnostic)
    {
      var m :| 0 <= m < |reports| && reports[m] == p;
      assert Services.Covered(grouped, key, reports[m].diagnostic);
      var i :| 0 <= i < |grouped| && key(grouped[i].location) == key(ToDiagnosticLocation(p.diagnostic));
      assert HasFile(grouped[i]);
      assert grouped[i] in r;
      var j :| 0 <= j < |r| && r[j] == grouped[i];
    }
  }

  /** Every reported location comes from a document the filter keeps. */
  lemma ConvertReportsOnlyMatchingDocuments<K(!new)>(
    documentDiagnostics: seq<DocumentDiagnostics>,
    fileNameFilter: Option<string>,
    getQuickFixes: (Diagnostic, Option<string>) -> Result<seq<QuickFixes.QuickFix>>,
    key: DiagnosticLocation -> K)
    ensures var r := Convert(documentDiagnostics, fileNameFilter, getQuickFixes, key);
      r.Success? ==> forall i :: 0 <= i < |r.value| ==> ReportedIn(documentDiagnostics, fileNameFilter, r.value[i].location)
  {
    var r := Convert(documentDiagnostics, fileNameFilter, getQuickFixes, key);
    var reports := Reports(Matching(documentDiagnostics, fileNameFilter));
    if r.Success? {
      forall i | 0 <= i < |r.value|
        ensures ReportedIn(documentDiagnostics, fileNameFilter, r.value[i].location)
      {
        FirstReportIsReported(documentDiagnostics, fileNameFilter, getQuickFixes, key, r.value[i]);
      }
    }
  }

  lemma FirstReportIsReported<K(!new)>(
    documentDiagnostics: seq<DocumentDiagnostics>,
    fileNameFilter: Option<string>,
    getQuickFixes: (Diagnostic, Option<string>) -> Result<seq<QuickFixes.QuickFix>>,
    key: DiagnosticLocation -> K,
    l: Services.SonarLintDiagnosticLocation)
    requires Services.FirstReportOf(Reports(Matching(documentDiagnostics, fileNameFilter)), getQuickFixes, key, l)
    ensures ReportedIn(documentDiagnostics, fileNameFilter, l.location)
  {
    var reports := Reports(Matching(documentDiagnostics, fileNameFilter));
    var m :| 0 <= m < |reports| && l == Services.ExpectedLocation(reports, getQuickFixes, m).(projects := l.projects) &&
      forall n :: 0 <= n < m ==> key(ToDiagnosticLocation(reports[n].diagnostic)) != key(l.location);
    var p := reports[m];
    assert p in reports;
    assert p in Reports(documentDiagnostics);
  }

  /** No input, no output. */
  lemma ConvertEmpty<K(!new)>(
    fileNameFilter: Option<string>,
    getQuickFixes: (Diagnostic, Option<string>) -> Result<seq<QuickFixes.QuickFix>>,
    key: DiagnosticLocation -> K)
    ensures Convert([], fileNameFilter, getQuickFixes, key) == Success([])
  {
    var r := Convert([], fileNameFilter, getQuickFixes, key);
    assert Services.AllFetched(Reports(Matching([], fileNameFilter)), getQuickFixes);
  }

  /** A call the endpoint makes on the diagnostic worker. */
  datatype WorkerCall = GetAllDiagnosticsCall | GetDiagnosticsCall(documentPaths: seq<string>)

  /** The worker's answers: for every document of the solution, and for a
      list of paths. The worker completes its analyses in any order; each
      sequence stands for one order it may produce. */
  datatype Worker = Worker(allDiagnostics: seq<DocumentDiagnostics>, diagnosticsFor: seq<string> -> seq<DocumentDiagnostics>)

  function Answer(worker: Worker, call: WorkerCall): seq<DocumentDiagnostics> {
    match call
    case GetAllDiagnosticsCall => worker.allDiagnostics
    case GetDiagnosticsCall(paths) => worker.diagnosticsFor(paths)
  }

  /** The dispatch both endpoints share: the worker call for the request's
      file name and the filter the answer is converted with. */
  function Dispatch(fileName: Option<string>): (r: (WorkerCall, Option<string>))
    ensures r.0.GetAllDiagnosticsCall? <==> IsNullOrEmpty(fileName)
    ensures r.0.GetAllDiagnosticsCall? ==> r.1 == None
    ensures r.0.GetDiagnosticsCall? ==> r.0.documentPaths == [fileName.value] && r.1 == fileName && !IsNullOrEmpty(r.1)
  {
    if IsNullOrEmpty(fileName) then (GetAllDiagnosticsCall, None)
    else (GetDiagnosticsCall([fileName.value]), fileName)
  }

  /** `SonarLintCodeCheckService.Handle` of the Services assembly: one
      worker call, recorded in the returned trace, and the converter's
      output as the response. */
  function ServicesHandle<K(==,!new)>(
    fileName: Option<string>,
    worker: Worker,
    getQuickFixes: (Diagnostic, Option<string>) -> Result<seq<QuickFixes.QuickFix>>,
    key: DiagnosticLocation -> K): (r: (Result<seq<Services.SonarLintDiagnosticLocation>>, seq<WorkerCall>))
    ensures |r.1| == 1
    ensures r.1[0] == Dispatch(fileName).0
    ensures r.0 == Convert(Answer(worker, r.1[0]), Dispatch(fileName).1, getQuickFixes, key)
  {
    var (call, filter) := Dispatch(fileName);
    (Convert(Answer(worker, call), filter, getQuickFixes, key), [call])
  }

  /** A null and an empty file name are handled alike. */
  lemma ServicesHandleNullIsEmpty<K(!new)>(
    worker: Worker,
    getQuickFixes: (Diagnostic, Option<string>) -> Result<seq<QuickFixes.QuickFix>>,
    key: DiagnosticLocation -> K)
    ensures ServicesHandle(None, worker, getQuickFixes, key) == ServicesHandle(Some([]), worker, getQuickFixes, key)
    ensures ServicesHandle(None, worker, getQuickFixes, key).1 == [GetAllDiagnosticsCall]
  {
  }

  /** For a given file, the response only holds locations reported by
      documents at that path, whatever the worker answered. */
  lemma ServicesHandleGivenFile<K(!new)>(
    fileName: string,
    worker: Worker,
    getQuickFixes: (Diagnostic, Option<string>) -> Result<seq<QuickFixes.QuickFix>>,
    key: DiagnosticLocation -> K)
    requires fileName != []
    ensures var (response, calls) := ServicesHandle(Some(fileName), worker, getQuickFixes, key);
      && calls == [GetDiagnosticsCall([fileName])]
      && (response.Success? ==> forall i :: 0 <= i < |response.value| ==>
            ReportedFromPath(worker.diagnosticsFor([fileName]), fileName, response.value[i].location))
  {
    var docs := worker.diagnosticsFor([fileName]);
    ConvertReportsOnlyMatchingDocuments(docs, Some(fileName), getQuickFixes, key);
    var r := Convert(docs, Some(fileName), getQuickFixes, key);
    if r.Success? {
      forall i | 0 <= i < |r.value|
        ensures ReportedFromPath(docs, fileName, r.value[i].location)
      {
        assert ReportedIn(docs, Some(fileName), r.value[i].location);
      }
    }
  }

  /** Some report of a document at `path` has this primary location. */
  predicate ReportedFromPath(docs: seq<DocumentDiagnostics>, path: string, l: DiagnosticLocation) {
    exists p :: p in Reports(docs) && p.document.documentPath == Some(path) && l == ToDiagnosticLocation(p.diagnostic)
  }

  function PluginHasFile(l: Plugin.SonarLintDiagnosticLocation): bool {
    l.location.fileName.Some?
  }

  /** `GetResponseFromDiagnostics` of the Plugin endpoint: as `Convert`,
      without quick fixes. */
  function PluginResponse<K(==,!new)>(diagnostics: seq<DocumentDiagnostics>, fileName: Option<string>, key: DiagnosticLocation -> K)
    : (r: seq<Plugin.SonarLintDiagnosticLocation>)
    ensures forall i :: 0 <= i < |r| ==> r[i].location.fileName.Some?
    ensures forall i, j :: 0 <= i < j < |r| ==> key(r[i].location) != key(r[j].location)
    ensures forall i :: 0 <= i < |r| ==> Plugin.FirstReportOf(Reports(Matching(diagnostics, fileName)), key, r[i])
    ensures forall i :: 0 <= i < |r| ==> r[i].projects == ProjectsReporting(Reports(Matching(diagnostics, fileName)), key, key(r[i].location))
    ensures KeyDeterminesFile(key) ==>
      forall p :: p in Reports(Matching(diagnostics, fileName)) && ToDiagnosticLocation(p.diagnostic).fileName.Some? ==>
        Plugin.Covered(r, key, p.diagnostic)
    ensures forall i, j :: 0 <= i < j < |r| ==>
      Seqs.FirstKeyIndex(Reports(Matching(diagnostics, fileName)), ReportKey(key), key(r[i].location))
      < Seqs.FirstKeyIndex(Reports(Matching(diagnostics, fileName)), ReportKey(key), key(r[j].location))
  {
    var docs := Matching(diagnostics, fileName);
    var grouped := Plugin.DistinctDiagnosticLocationsByProject(docs, key);
    var r := Seqs.Filter(grouped, PluginHasFile);
    PluginFilterKeeps(Reports(docs), key, grouped, r);
    PluginNamedCovered(Reports(docs), key, grouped, r);
    PluginFilteredOrder(Reports(docs), key, grouped, r);
    r
  }

  lemma PluginFilterKeeps<K(!new)>(
    reports: seq<Report>, key: DiagnosticLocation -> K,
    grouped: seq<Plugin.SonarLintDiagnosticLocation>, r: seq<Plugin.SonarLintDiagnosticLocation>)
    requires r == Seqs.Filter(grouped, PluginHasFile)
    requires forall i, j :: 0 <= i < j < |grouped| ==> key(grouped[i].location) != key(grouped[j].location)
    requires forall i :: 0 <= i < |grouped| ==> grouped[i].projects == ProjectsReporting(reports, key, key(grouped[i].location))
    requires forall i :: 0 <= i < |grouped| ==> Plugin.FirstReportOf(reports, key, grouped[i])
    ensures forall i :: 0 <= i < |r| ==> r[i].location.fileName.Some?
    ensures forall i, j :: 0 <= i < j < |r| ==> key(r[i].location) != key(r[j].location)
    ensures forall i :: 0 <= i < |r| ==> Plugin.FirstReportOf(reports, key, r[i])
    ensures forall i :: 0 <= i < |r| ==> r[i].projects == ProjectsReporting(reports, key, key(r[i].location))
  {
    var lk := (l: Plugin.SonarLintDiagnosticLocation) => key(l.location);
    assert forall i, j :: 0 <= i < j < |grouped| ==> lk(grouped[i]) != lk(grouped[j]);
    Seqs.FilterDistinctKeys(grouped, PluginHasFile, lk);
    assert forall i, j :: 0 <= i < j < |r| ==> lk(r[i]) != lk(r[j]);
    forall i | 0 <= i < |r|
      ensures r[i].location.fileName.Some?
      ensures Plugin.FirstReportOf(reports, key, r[i])
      ensures r[i].projects == ProjectsReporting(reports, key, key(r[i].location))
    {
      assert r[i] in r;
      var k :| 0 <= k < |grouped| && grouped[k] == r[i];
    }
  }

  /** Dropping the locations without a file keeps the others' order. */
  lemma PluginFilteredOrder<K(!new)>(
    reports: seq<Report>, key: DiagnosticLocation -> K,
    grouped: seq<Plugin.SonarLintDiagnosticLocation>, r: seq<Plugin.SonarLintDiagnosticLocation>)
    requires r == Seqs.Filter(grouped, PluginHasFile)
    requires forall i, j :: 0 <= i < j < |grouped| ==>
      Seqs.FirstKeyIndex(reports, ReportKey(key), key(grouped[i].location))
      < Seqs.FirstKeyIndex(reports, ReportKey(key), key(grouped[j].location))
    ensures forall i, j :: 0 <= i < j < |r| ==>
      Seqs.FirstKeyIndex(reports, ReportKey(key), key(r[i].location))
      < Seqs.FirstKeyIndex(reports, ReportKey(key), key(r[j].location))
  {
    var f := (l: Plugin.SonarLintDiagnosticLocation) => Seqs.FirstKeyIndex(reports, ReportKey(key), key(l.location)) as int;
    assert Seqs.Increasing(grouped, f);
    Seqs.FilterKeepsOrder(grouped, PluginHasFile, f);
    assert Seqs.Increasing(r, f);
  }

  lemma PluginNamedCovered<K(!new)>(
    reports: seq<Report>, key: DiagnosticLocation -> K,
    grouped: seq<Plugin.SonarLintDiagnosticLocation>, r: seq<Plugin.SonarLintDiagnosticLocation>)
    requires forall m :: 0 <= m < |reports| ==> Plugin.Covered(grouped, key, reports[m].diagnostic)
    requires r == Seqs.Filter(grouped, PluginHasFile)
    ensures KeyDeterminesFile(key) ==>
      forall p :: p in reports && ToDiagnosticLocation(p.diagnostic).fileName.Some? ==> Plugin.Covered(r, key, p.diagnostic)
  {
    forall p | KeyDeterminesFile(key) && p in reports && ToDiagnosticLocation(p.diagnostic).fileName.Some?
      ensures Plugin.Covered(r, key, p.diagnostic)
    {
      var m :| 0 <= m < |reports| && reports[m] == p;
      assert Plugin.Covered(grouped, key, reports[m].diagnostic);
      var i :| 0 <= i < |grouped| && key(grouped[i].location) == key(ToDiagnosticLocation(p.diagnostic));
      assert PluginHasFile(grouped[i]);
      assert grouped[i] in r;
      var j :| 0 <= j < |r| && r[j] == grouped[i];
    }
  }

  /** `SonarLintCodeCheckService.Handle` of the Plugin assembly. */
  function PluginHandle<K(==,!new)>(fileName: Option<string>, worker: Worker, key: DiagnosticLocation -> K)
    : (r: (seq<Plugin.SonarLintDiagnosticLocation>, seq<WorkerCall>))
    ensures |r.1| == 1
    ensures r.1[0] == Dispatch(fileName).0
    ensures r.0 == PluginResponse(Answer(worker, r.1[0]), Dispatch(fileName).1, key)
  {
    var (call, filter) := Dispatch(fileName);
    (PluginResponse(Answer(worker, call), filter, key), [call])
  }

  /** A location reported identically by two projects for the requested
      file is answered once, listing both projects. */
  lemma PluginHandleMergesProjects<K(!new)>(
    fileName: string, worker: Worker, key: DiagnosticLocation -> K,
    doc1: DocumentDiagnostics, doc2: DocumentDiagnostics, d: Diagnostic)
    requires fileName != []
    requires worker.diagnosticsFor([fileName]) == [doc1, doc2]
    requires doc1.documentPath == Some(fileName) && doc2.documentPath == Some(fileName)
    requires doc1.diagnostics == [d] && doc2.diagnostics == [d]
    requires d.location.path.Some?
    ensures PluginHandle(Some(fileName), worker, key).0
         == [Plugin.ToSonarLintLocation(d).(projects := [doc1.projectName, doc2.projectName])]
  {
    var docs := [doc1, doc2];
    MatchingKeepsAll(docs, Some(fileName));
    Plugin.SameDiagnosticTwoProjects(doc1, doc2, d, key);
    var l := Plugin.ToSonarLintLocation(d).(projects := [doc1.projectName, doc2.projectName]);
    FilterSingleNamed(l);
  }

  /** A filter every document passes keeps them all. */
  lemma MatchingKeepsAll(docs: seq<DocumentDiagnostics>, filter: Option<string>)
    requires forall i :: 0 <= i < |docs| ==> PassesFilter(docs[i], filter)
    ensures Matching(docs, filter) == docs
  {
    Seqs.FilterAll(docs, (doc: DocumentDiagnostics) => PassesFilter(doc, filter));
  }

  lemma FilterSingleNamed(l: Plugin.SonarLintDiagnosticLocation)
    requires l.location.fileName.Some?
    ensures Seqs.Filter([l], PluginHasFile) == [l]
  {
    assert [l][1..] == [];
  }
}
