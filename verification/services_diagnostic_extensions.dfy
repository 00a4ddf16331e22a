/** `DiagnosticExtensions` of the Services assembly: as in the Plugin, but
    every reported location also carries the quick fixes of its diagnostic.
    The quick fixes of all diagnostics are fetched first, in report order,
    into a table keyed by diagnostic, where a later report of the same
    diagnostic overwrites an earlier one. A failing fetch aborts the whole
    conversion. */
module ServicesDiagnosticExtensions {
  import opened Wrappers
  import opened Roslyn
  import opened CodeLocations
  import opened QuickFixes
  import opened DiagnosticLocations
  import Seqs

  datatype SonarLintDiagnosticLocation = SonarLintDiagnosticLocation(
    location: DiagnosticLocation,
    additionalLocations: seq<CodeLocation>,
    quickFixes: seq<QuickFix>,
    projects: seq<string>)

  /** `ToDiagnosticLocation(quickFixes)`; the project list is filled in
      later. */
  function ToSonarLintLocation(d: Diagnostic, quickFixes: seq<QuickFix>): (l: SonarLintDiagnosticLocation)
    ensures l.location == DiagnosticLocations.ToDiagnosticLocation(d)
    ensures l.additionalLocations == ToAdditionalLocations(d)
    ensures l.quickFixes == quickFixes && l.projects == []
  {
    SonarLintDiagnosticLocation(DiagnosticLocations.ToDiagnosticLocation(d), ToAdditionalLocations(d), quickFixes, [])
  }

  /** The quick-fix provider's answer for one report: the diagnostic and
      its document's path. */
  function Fetch(getQuickFixes: (Diagnostic, Option<string>) -> Result<seq<QuickFix>>, p: Report): Result<seq<QuickFix>> {
    getQuickFixes(p.diagnostic, p.document.documentPath)
  }

  predicate Reported(reports: seq<Report>, d: Diagnostic) {
    exists i :: 0 <= i < |reports| && reports[i].diagnostic == d
  }

  predicate AllFetched(reports: seq<Report>, getQuickFixes: (Diagnostic, Option<string>) -> Result<seq<QuickFix>>) {
    forall i :: 0 <= i < |reports| ==> Fetch(getQuickFixes, reports[i]).Success?
  }

  /** The fetch for report `i` fails with `e` and every earlier one
      succeeds. */
  predicate FirstFailureAt(reports: seq<Report>, getQuickFixes: (Diagnostic, Option<string>) -> Result<seq<QuickFix>>, i: int, e: Error) {
    && 0 <= i < |reports|
    && Fetch(getQuickFixes, reports[i]) == Failure(e)
    && forall k :: 0 <= k < i ==> Fetch(getQuickFixes, reports[k]).Success?
  }

  /** Reference definition: the quick fixes fetched for the last report of
      `d` (none when `d` is not reported). */
  function LastQuickFixes(reports: seq<Report>, getQuickFixes: (Diagnostic, Option<string>) -> Result<seq<QuickFix>>, d: Diagnostic): seq<QuickFix> {
    if |reports| == 0 then []
    else
      var last := reports[|reports| - 1];
      if last.diagnostic == d then
        match Fetch(getQuickFixes, last)
        case Success(fixes) => fixes
        case Failure(_) => []
      else LastQuickFixes(reports[..|reports| - 1], getQuickFixes, d)
  }

  /** The loop filling `diagnosticQuickFixes`: in report order, each fetch
      overwrites the entry of its diagnostic; the first failing fetch ends
      it with that failure. */
  function RecordQuickFixes(
    reports: seq<Report>,
    getQuickFixes: (Diagnostic, Option<string>) -> Result<seq<QuickFix>>,
    table: map<Diagnostic, seq<QuickFix>>): (r: Result<map<Diagnostic, seq<QuickFix>>>)
    ensures r.Failure? <==> !AllFetched(reports, getQuickFixes)
    ensures r.Failure? ==> exists i :: FirstFailureAt(reports, getQuickFixes, i, r.error)
    ensures r.Success? ==> forall d :: d in r.value <==> d in table || Reported(reports, d)
    ensures r.Success? ==> forall d :: d in table && !Reported(reports, d) ==> r.value[d] == table[d]
  {
    if |reports| == 0 then Success(table)
    else
      match Fetch(getQuickFixes, reports[0])
      case Failure(e) =>
        assert FirstFailureAt(reports, getQuickFixes, 0, e);
        Failure(e)
      case Success(fixes) =>
        var r := RecordQuickFixes(reports[1..], getQuickFixes, table[reports[0].diagnostic := fixes]);
        RecordQuickFixesStep(reports, getQuickFixes, table, r);
        r
  }

  lemma RecordQuickFixesStep(
    reports: seq<Report>,
    getQuickFixes: (Diagnostic, Option<string>) -> Result<seq<QuickFix>>,
    table: map<Diagnostic, seq<QuickFix>>,
    r: Result<map<Diagnostic, seq<QuickFix>>>)
    requires |reports| > 0 && Fetch(getQuickFixes, reports[0]).Success?
    requires var rest := reports[1..];
      var t := table[reports[0].diagnostic := Fetch(getQuickFixes, reports[0]).value];
      && (r.Failure? <==> !AllFetched(rest, getQuickFixes))
      && (r.Failure? ==> exists i :: FirstFailureAt(rest, getQuickFixes, i, r.error))
      && (r.Success? ==> forall d :: d in r.value <==> d in t || Reported(rest, d))
      && (r.Success? ==> forall d :: d in t && !Reported(rest, d) ==> r.value[d] == t[d])
    ensures r.Failure? <==> !AllFetched(reports, getQuickFixes)
    ensures r.Failure? ==> exists i :: FirstFailureAt(reports, getQuickFixes, i, r.error)
    ensures r.Success? ==> forall d :: d in r.value <==> d in table || Reported(reports, d)
    ensures r.Success? ==> forall d :: d in table && !Reported(reports, d) ==> r.value[d] == table[d]
  {
    var rest := reports[1..];
    assert forall i :: 0 <= i < |rest| ==> rest[i] == reports[i + 1];
    assert AllFetched(reports, getQuickFixes) <==> AllFetched(rest, getQuickFixes) by {
      if AllFetched(rest, getQuickFixes) {
        forall i | 0 <= i < |reports|
          ensures Fetch(getQuickFixes, reports[i]).Success?
        {
          if i > 0 { assert reports[i] == rest[i - 1]; }
        }
      }
    }
    if r.Failure? {
      var i :| FirstFailureAt(rest, getQuickFixes, i, r.error);
      forall k | 0 <= k < i + 1
        ensures Fetch(getQuickFixes, reports[k]).Success?
      {
        if k > 0 { assert reports[k] == rest[k - 1]; }
      }
      assert Fetch(getQuickFixes, reports[i + 1]) == Failure(r.error);
      assert FirstFailureAt(reports, getQuickFixes, i + 1, r.error);
    } else {
      forall d
        ensures Reported(reports, d) <==> d == reports[0].diagnostic || Reported(rest, d)
      {
        if Reported(reports, d) && d != reports[0].diagnostic {
          var i :| 0 <= i < |reports| && reports[i].diagnostic == d;
          assert rest[i - 1].diagnostic == d;
        }
        if Reported(rest, d) {
          var i :| 0 <= i < |rest| && rest[i].diagnostic == d;
          assert reports[i + 1].diagnostic == d;
        }
      }
    }
  }

  /** Overwriting in report order keeps, for each diagnostic, the quick
      fixes of its last report. */
  lemma {:induction false} RecordQuickFixesKeepsLast(
    reports: seq<Report>,
    getQuickFixes: (Diagnostic, Option<string>) -> Result<seq<QuickFix>>,
    table: map<Diagnostic, seq<QuickFix>>)
    requires AllFetched(reports, getQuickFixes)
    ensures forall d :: Reported(reports, d) ==>
      RecordQuickFixes(reports, getQuickFixes, table).value[d] == LastQuickFixes(reports, getQuickFixes, d)
  {
    if |reports| > 0 {
      var x := reports[0];
      var rest := reports[1..];
      assert reports == [x] + rest;
      var t := table[x.diagnostic := Fetch(getQuickFixes, x).value];
      assert AllFetched(rest, getQuickFixes) by {
        forall i | 0 <= i < |rest| ensures Fetch(getQuickFixes, rest[i]).Success? {
          assert rest[i] == reports[i + 1];
        }
      }
      RecordQuickFixesKeepsLast(rest, getQuickFixes, t);
      forall d | Reported(reports, d)
        ensures RecordQuickFixes(reports, getQuickFixes, table).value[d] == LastQuickFixes(reports, getQuickFixes, d)
      {
        if Reported(rest, d) {
          LastOfLaterReport(x, rest, getQuickFixes, d);
        } else {
          assert d == x.diagnostic by {
            forall i | 0 < i < |reports|
              ensures reports[i].diagnostic != d
            {
              assert reports[i] == rest[i - 1];
            }
          }
          LastOfOnlyReport(x, rest, getQuickFixes, d);
        }
      }
    }
  }

  lemma {:induction false} LastOfLaterReport(
    x: Report, rest: seq<Report>, getQuickFixes: (Diagnostic, Option<string>) -> Result<seq<QuickFix>>, d: Diagnostic)
    requires Reported(rest, d)
    ensures LastQuickFixes([x] + rest, getQuickFixes, d) == LastQuickFixes(rest, getQuickFixes, d)
  {
    var all := [x] + rest;
    var n := |rest|;
    if rest[n - 1].diagnostic != d {
      assert all[..|all| - 1] == [x] + rest[..n - 1];
      assert Reported(rest[..n - 1], d) by {
        var i :| 0 <= i < |rest| && rest[i].diagnostic == d;
        assert i < n - 1;
        assert rest[..n - 1][i].diagnostic == d;
      }
      LastOfLaterReport(x, rest[..n - 1], getQuickFixes, d);
    }
  }

  lemma {:induction false} LastOfOnlyReport(
    x: Report, rest: seq<Report>, getQuickFixes: (Diagnostic, Option<string>) -> Result<seq<QuickFix>>, d: Diagnostic)
    requires x.diagnostic == d && !Reported(rest, d)
    requires Fetch(getQuickFixes, x).Success?
    ensures LastQuickFixes([x] + rest, getQuickFixes, d) == Fetch(getQuickFixes, x).value
  {
    var all := [x] + rest;
    var n := |rest|;
    if n == 0 {
      assert all == [x];
      assert all[..0] == [];
    } else {
      assert rest[n - 1].diagnostic != d;
      assert all[..|all| - 1] == [x] + rest[..n - 1];
      var prefix := rest[..n - 1];
      assert !Reported(prefix, d) by {
        forall i | 0 <= i < |prefix| ensures prefix[i].diagnostic != d {
          assert prefix[i] == rest[i];
        }
      }
      LastOfOnlyReport(x, rest[..n - 1], getQuickFixes, d);
    }
  }

  /** Equality of reported locations ignores the secondary locations, the
      quick fixes and the projects: it is the equality of the primary part,
      given here as a key function on it. */
  function LocationKey<K>(key: DiagnosticLocation -> K): SonarLintDiagnosticLocation -> K {
    (l: SonarLintDiagnosticLocation) => key(l.location)
  }

  /** The converted location of every report, with its diagnostic's entry
      of the quick-fix table. */
  function Locations(reports: seq<Report>, table: map<Diagnostic, seq<QuickFix>>): (r: seq<SonarLintDiagnosticLocation>)
    requires forall i :: 0 <= i < |reports| ==> reports[i].diagnostic in table
    ensures |r| == |reports|
    ensures forall i :: 0 <= i < |r| ==> r[i] == ToSonarLintLocation(reports[i].diagnostic, table[reports[i].diagnostic])
  {
    seq(|reports|, i requires 0 <= i < |reports| => ToSonarLintLocation(reports[i].diagnostic, table[reports[i].diagnostic]))
  }

  /** Sets a reported location's project list. */
  function Attach(): (SonarLintDiagnosticLocation, seq<string>) -> SonarLintDiagnosticLocation {
    (l: SonarLintDiagnosticLocation, p: seq<string>) => l.(projects := p)
  }

  function ProjectsOf(): SonarLintDiagnosticLocation -> seq<string> {
    (l: SonarLintDiagnosticLocation) => l.projects
  }

  /** Reference definition of an entry before its projects are attached:
      report `m`'s location with the quick fixes of its diagnostic's last
      report. */
  function ExpectedLocation(
    reports: seq<Report>, getQuickFixes: (Diagnostic, Option<string>) -> Result<seq<QuickFix>>, m: nat): SonarLintDiagnosticLocation
    requires m < |reports|
  {
    ToSonarLintLocation(reports[m].diagnostic, LastQuickFixes(reports, getQuickFixes, reports[m].diagnostic))
  }

  /** `l` is the location of the first report having its key, with the
      quick fixes of that diagnostic's last report. */
  predicate FirstReportOf<K(==)>(
    reports: seq<Report>, getQuickFixes: (Diagnostic, Option<string>) -> Result<seq<QuickFix>>,
    key: DiagnosticLocation -> K, l: SonarLintDiagnosticLocation)
  {
    exists m :: 0 <= m < |reports| &&
      l == ExpectedLocation(reports, getQuickFixes, m).(projects := l.projects) &&
      forall n :: 0 <= n < m ==> key(DiagnosticLocations.ToDiagnosticLocation(reports[n].diagnostic)) != key(l.location)
  }

  /** Some entry has the key of `d`'s location. */
  predicate Covered<K(==)>(r: seq<SonarLintDiagnosticLocation>, key: DiagnosticLocation -> K, d: Diagnostic) {
    exists i :: 0 <= i < |r| && key(r[i].location) == key(DiagnosticLocations.ToDiagnosticLocation(d))
  }

  /** `DistinctDiagnosticLocationsByProject(quickFixesProvider)`: fetch the
      quick fixes of every report, then one entry per distinct location, in
      order of first report; the entry is the first report's location with
      the quick fixes of its diagnostic's last report, and lists the
      project of every report of that location. */
  function DistinctDiagnosticLocationsByProject<K(==,!new)>(
    docs: seq<DocumentDiagnostics>,
    getQuickFixes: (Diagnostic, Option<string>) -> Result<seq<QuickFix>>,
    key: DiagnosticLocation -> K): (r: Result<seq<SonarLintDiagnosticLocation>>)
    ensures r.Failure? <==> !AllFetched(Reports(docs), getQuickFixes)
    ensures r.Failure? ==> exists i :: FirstFailureAt(Reports(docs), getQuickFixes, i, r.error)
    ensures r.Success? ==> forall i, j :: 0 <= i < j < |r.value| ==> key(r.value[i].location) != key(r.value[j].location)
    ensures r.Success? ==> forall m :: 0 <= m < |Reports(docs)| ==> Covered(r.value, key, Reports(docs)[m].diagnostic)
    ensures r.Success? ==> forall i :: 0 <= i < |r.value| ==>
      r.value[i].projects == ProjectsReporting(Reports(docs), key, key(r.value[i].location))
    ensures r.Success? ==> forall i :: 0 <= i < |r.value| ==> FirstReportOf(Reports(docs), getQuickFixes, key, r.value[i])
    ensures r.Success? ==> TotalLength(r.value, ProjectsOf()) == DiagnosticCount(docs)
    ensures r.Success? ==> forall i, j :: 0 <= i < j < |r.value| ==>
      Seqs.FirstKeyIndex(Reports(docs), ReportKey(key), key(r.value[i].location))
      < Seqs.FirstKeyIndex(Reports(docs), ReportKey(key), key(r.value[j].location))
  {
    var reports := Reports(docs);
    var table :- RecordQuickFixes(reports, getQuickFixes, map[]);
    TableCoversReports(reports, getQuickFixes, table);
    var locations := Locations(reports, table);
    KeysAgreeOfLocations(reports, table, key);
    var entries := DistinctByProject(reports, locations, LocationKey(key), key);
    var r := WithProjects(entries, Attach());
    Translate(reports, key, entries, r);
    TranslateFirst(reports, getQuickFixes, locations, key, entries, r);
    TranslateOrder(reports, key, entries, r);
    Success(r)
  }

  lemma TableCoversReports(
    reports: seq<Report>, getQuickFixes: (Diagnostic, Option<string>) -> Result<seq<QuickFix>>,
    table: map<Diagnostic, seq<QuickFix>>)
    requires RecordQuickFixes(reports, getQuickFixes, map[]) == Success(table)
    ensures forall i :: 0 <= i < |reports| ==> reports[i].diagnostic in table
    ensures forall i :: 0 <= i < |reports| ==>
      table[reports[i].diagnostic] == LastQuickFixes(reports, getQuickFixes, reports[i].diagnostic)
  {
    RecordQuickFixesKeepsLast(reports, getQuickFixes, map[]);
    forall i | 0 <= i < |reports|
      ensures reports[i].diagnostic in table
      ensures table[reports[i].diagnostic] == LastQuickFixes(reports, getQuickFixes, reports[i].diagnostic)
    {
      assert Reported(reports, reports[i].diagnostic);
    }
  }

  lemma KeysAgreeOfLocations<K(!new)>(reports: seq<Report>, table: map<Diagnostic, seq<QuickFix>>, key: DiagnosticLocation -> K)
    requires forall i :: 0 <= i < |reports| ==> reports[i].diagnostic in table
    ensures KeysAgree(reports, Locations(reports, table), LocationKey(key), key)
  {
    var lk: SonarLintDiagnosticLocation -> K := LocationKey(key);
    assert forall l :: lk(l) == key(l.location);
  }

  lemma Translate<K(!new)>(
    reports: seq<Report>, key: DiagnosticLocation -> K,
    entries: seq<(SonarLintDiagnosticLocation, seq<string>)>, r: seq<SonarLintDiagnosticLocation>)
    requires forall i, j :: 0 <= i < j < |entries| ==> LocationKey(key)(entries[i].0) != LocationKey(key)(entries[j].0)
    requires forall m :: 0 <= m < |reports| ==>
      HasEntryWithKey(entries, LocationKey(key), key(DiagnosticLocations.ToDiagnosticLocation(reports[m].diagnostic)))
    requires forall i :: 0 <= i < |entries| ==> entries[i].1 == ProjectsReporting(reports, key, LocationKey(key)(entries[i].0))
    requires r == WithProjects(entries, Attach())
    ensures forall i, j :: 0 <= i < j < |r| ==> key(r[i].location) != key(r[j].location)
    ensures forall m :: 0 <= m < |reports| ==> Covered(r, key, reports[m].diagnostic)
    ensures forall i :: 0 <= i < |r| ==> r[i].projects == ProjectsReporting(reports, key, key(r[i].location))
    ensures TotalLength(r, ProjectsOf()) == TotalProjects(entries)
  {
    TranslateKeys(key, entries, r);
    forall m | 0 <= m < |reports|
      ensures Covered(r, key, reports[m].diagnostic)
    {
      CoveredEntry(key, entries, r, key(DiagnosticLocations.ToDiagnosticLocation(reports[m].diagnostic)));
    }
    SameTotal(entries, Attach(), ProjectsOf());
  }

  /** Each entry is the location of the first report of its key, with the
      quick fixes of that diagnostic's last report. */
  lemma TranslateFirst<K(!new)>(
    reports: seq<Report>, getQuickFixes: (Diagnostic, Option<string>) -> Result<seq<QuickFix>>,
    locations: seq<SonarLintDiagnosticLocation>, key: DiagnosticLocation -> K,
    entries: seq<(SonarLintDiagnosticLocation, seq<string>)>, r: seq<SonarLintDiagnosticLocation>)
    requires |locations| == |reports|
    requires forall i :: 0 <= i < |reports| ==>
      locations[i] == ExpectedLocation(reports, getQuickFixes, i)
    requires forall i :: 0 <= i < |entries| ==> FirstOfItsKey(reports, locations, LocationKey(key), key, entries[i].0)
    requires r == WithProjects(entries, Attach())
    ensures forall i :: 0 <= i < |r| ==> FirstReportOf(reports, getQuickFixes, key, r[i])
  {
    forall i | 0 <= i < |r|
      ensures FirstReportOf(reports, getQuickFixes, key, r[i])
    {
      FirstReportOfEntry(reports, getQuickFixes, locations, key, entries[i]);
    }
  }

  /** The entries keep the order in which their keys are first reported. */
  lemma TranslateOrder<K(!new)>(
    reports: seq<Report>, key: DiagnosticLocation -> K,
    entries: seq<(SonarLintDiagnosticLocation, seq<string>)>, r: seq<SonarLintDiagnosticLocation>)
    requires r == WithProjects(entries, Attach())
    requires forall i, j :: 0 <= i < j < |entries| ==>
      Seqs.FirstKeyIndex(reports, ReportKey(key), LocationKey(key)(entries[i].0))
      < Seqs.FirstKeyIndex(reports, ReportKey(key), LocationKey(key)(entries[j].0))
    ensures forall i, j :: 0 <= i < j < |r| ==>
      Seqs.FirstKeyIndex(reports, ReportKey(key), key(r[i].location))
      < Seqs.FirstKeyIndex(reports, ReportKey(key), key(r[j].location))
  {
    TranslateKeys(key, entries, r);
  }

  lemma TranslateKeys<K(!new)>(key: DiagnosticLocation -> K, entries: seq<(SonarLintDiagnosticLocation, seq<string>)>, r: seq<SonarLintDiagnosticLocation>)
    requires r == WithProjects(entries, Attach())
    ensures forall i :: 0 <= i < |r| ==> LocationKey(key)(entries[i].0) == key(r[i].location)
  {
    var lk: SonarLintDiagnosticLocation -> K := LocationKey(key);
    assert forall l :: lk(l) == key(l.location);
  }

  lemma CoveredEntry<K(!new)>(key: DiagnosticLocation -> K, entries: seq<(SonarLintDiagnosticLocation, seq<string>)>, r: seq<SonarLintDiagnosticLocation>, k: K)
    requires r == WithProjects(entries, Attach())
    requires HasEntryWithKey(entries, LocationKey(key), k)
    ensures exists i :: 0 <= i < |r| && key(r[i].location) == k
  {
    TranslateKeys(key, entries, r);
    var i :| 0 <= i < |entries| && LocationKey(key)(entries[i].0) == k;
  }

  lemma FirstReportOfEntry<K(!new)>(
    reports: seq<Report>, getQuickFixes: (Diagnostic, Option<string>) -> Result<seq<QuickFix>>,
    locations: seq<SonarLintDiagnosticLocation>, key: DiagnosticLocation -> K,
    entry: (SonarLintDiagnosticLocation, seq<string>))
    requires |locations| == |reports|
    requires forall i :: 0 <= i < |reports| ==>
      locations[i] == ExpectedLocation(reports, getQuickFixes, i)
    requires FirstOfItsKey(reports, locations, LocationKey(key), key, entry.0)
    ensures FirstReportOf(reports, getQuickFixes, key, entry.0.(projects := entry.1))
  {
    var lk: SonarLintDiagnosticLocation -> K := LocationKey(key);
    assert forall l :: lk(l) == key(l.location);
    var m :| 0 <= m < |reports| && entry.0 == locations[m] && forall n :: 0 <= n < m ==> key(DiagnosticLocations.ToDiagnosticLocation(reports[n].diagnostic)) != lk(entry.0);
    var l := entry.0.(projects := entry.1);
    assert l == ExpectedLocation(reports, getQuickFixes, m).(projects := l.projects);
  }

}
