/** `DiagnosticExtensions` of the Plugin assembly: the reported location
    has secondary locations but no quick fixes. Identical locations from
    several projects are merged into one entry listing the projects. */
module PluginDiagnosticExtensions {
  import opened Roslyn
  import opened CodeLocations
  import opened DiagnosticLocations
  import Seqs

  datatype SonarLintDiagnosticLocation = SonarLintDiagnosticLocation(
    location: DiagnosticLocation,
    additionalLocations: seq<CodeLocation>,
    projects: seq<string>)

  /** `ToDiagnosticLocation()`; the project list is filled in later. */
  function ToSonarLintLocation(d: Diagnostic): (l: SonarLintDiagnosticLocation)
    ensures l.location == DiagnosticLocations.ToDiagnosticLocation(d)
    ensures l.additionalLocations == ToAdditionalLocations(d)
    ensures l.projects == []
  {
    SonarLintDiagnosticLocation(DiagnosticLocations.ToDiagnosticLocation(d), ToAdditionalLocations(d), [])
  }

  /** Equality of reported locations ignores the secondary locations and
      the projects: it is the equality of the primary part, given here as a
      key function on it. */
  function LocationKey<K>(key: DiagnosticLocation -> K): SonarLintDiagnosticLocation -> K {
    (l: SonarLintDiagnosticLocation) => key(l.location)
  }

  /** The converted location of every report, in order. */
  function Locations(reports: seq<Report>): (r: seq<SonarLintDiagnosticLocation>)
    ensures |r| == |reports|
    ensures forall i :: 0 <= i < |r| ==> r[i] == ToSonarLintLocation(reports[i].diagnostic)
  {
    seq(|reports|, i requires 0 <= i < |reports| => ToSonarLintLocation(reports[i].diagnostic))
  }

  /** Sets a reported location's project list. */
  function Attach(): (SonarLintDiagnosticLocation, seq<string>) -> SonarLintDiagnosticLocation {
    (l: SonarLintDiagnosticLocation, p: seq<string>) => l.(projects := p)
  }

  function ProjectsOf(): SonarLintDiagnosticLocation -> seq<string> {
    (l: SonarLintDiagnosticLocation) => l.projects
  }

  /** `DistinctDiagnosticLocationsByProject`: one entry per distinct
      location, in order of first report; the entry is the first report's
      location and lists the project of every report of that location, so
      the project lists together hold one name per diagnostic. */
  function DistinctDiagnosticLocationsByProject<K(==,!new)>(docs: seq<DocumentDiagnostics>, key: DiagnosticLocation -> K): (r: seq<SonarLintDiagnosticLocation>)
    ensures forall i, j :: 0 <= i < j < |r| ==> key(r[i].location) != key(r[j].location)
    ensures forall m :: 0 <= m < |Reports(docs)| ==> Covered(r, key, Reports(docs)[m].diagnostic)
    ensures forall i :: 0 <= i < |r| ==> r[i].projects == ProjectsReporting(Reports(docs), key, key(r[i].location))
    ensures forall i :: 0 <= i < |r| ==> FirstReportOf(Reports(docs), key, r[i])
    ensures TotalLength(r, ProjectsOf()) == DiagnosticCount(docs)
    ensures forall i, j :: 0 <= i < j < |r| ==>
      Seqs.FirstKeyIndex(Reports(docs), ReportKey(key), key(r[i].location))
      < Seqs.FirstKeyIndex(Reports(docs), ReportKey(key), key(r[j].location))
  {
    var reports := Reports(docs);
    var locations := Locations(reports);
    KeysAgreeOfLocations(reports, key);
    var entries := DistinctByProject(reports, locations, LocationKey(key), key);
    var r := WithProjects(entries, Attach());
    Translate(reports, key, entries, r);
    TranslateFirst(reports, locations, key, entries, r);
    TranslateOrder(reports, key, entries, r);
    r
  }

  lemma KeysAgreeOfLocations<K(!new)>(reports: seq<Report>, key: DiagnosticLocation -> K)
    ensures KeysAgree(reports, Locations(reports), LocationKey(key), key)
  {
    var lk: SonarLintDiagnosticLocation -> K := LocationKey(key);
    assert forall l :: lk(l) == key(l.location);
  }

  /** `l` is the location of the first report having its key. */
  predicate FirstReportOf<K(==)>(reports: seq<Report>, key: DiagnosticLocation -> K, l: SonarLintDiagnosticLocation) {
    exists m :: 0 <= m < |reports| && l == ToSonarLintLocation(reports[m].diagnostic).(projects := l.projects) &&
      forall n :: 0 <= n < m ==> key(DiagnosticLocations.ToDiagnosticLocation(reports[n].diagnostic)) != key(l.location)
  }

  /** Some entry has the key of `d`'s location. */
  predicate Covered<K(==)>(r: seq<SonarLintDiagnosticLocation>, key: DiagnosticLocation -> K, d: Diagnostic) {
    exists i :: 0 <= i < |r| && key(r[i].location) == key(DiagnosticLocations.ToDiagnosticLocation(d))
  }

  lemma Translate<K(!new)>(
    reports: seq<Report>, key: DiagnosticLocation -> K,
    entries: seq<(SonarLintDiagnosticLocation, seq<string>)>, r: seq<SonarLintDiagnosticLocation>)
    requires forall i, j :: 0 <= i < j < |entries| ==> LocationKey(key)(entries[i].0) != LocationKey(key)(entries[j].0)
    requires forall m :: 0 <= m < |reports| ==>
      HasEntryWithKey(entries, LocationKey(key), key(DiagnosticLocations.ToDiagnosticLocation(reports[m].diagnostic)))
    requires forall i :: 0 <= i < |entries| ==> entries[i].1 == ProjectsReporting(reports, key, LocationKey(key)(entries[i].0))
    requires r == WithProjects(entries, Attach())
    ensures forall i, j :: 0 <= i < j < |r| ==> key(r[i].location) != key(r[j].location)
    ensures forall m :: 0 <= m < |reports| ==> Covered(r, key, reports[m].diagnostic)
    ensures forall i :: 0 <= i < |r| ==> r[i].projects == ProjectsReporting(reports, key, key(r[i].location))
    ensures TotalLength(r, ProjectsOf()) == TotalProjects(entries)
  {
    TranslateKeys(key, entries, r);
    forall m | 0 <= m < |reports|
      ensures Covered(r, key, reports[m].diagnostic)
    {
      CoveredEntry(key, entries, r, key(DiagnosticLocations.ToDiagnosticLocation(reports[m].diagnostic)));
    }
    SameTotal(entries, Attach(), ProjectsOf());
  }

  /** Each entry is the location of the first report of its key. */
  lemma TranslateFirst<K(!new)>(
    reports: seq<Report>, locations: seq<SonarLintDiagnosticLocation>, key: DiagnosticLocation -> K,
    entries: seq<(SonarLintDiagnosticLocation, seq<string>)>, r: seq<SonarLintDiagnosticLocation>)
    requires locations == Locations(reports)
    requires forall i :: 0 <= i < |entries| ==> FirstOfItsKey(reports, locations, LocationKey(key), key, entries[i].0)
    requires r == WithProjects(entries, Attach())
    ensures forall i :: 0 <= i < |r| ==> FirstReportOf(reports, key, r[i])
  {
    forall i | 0 <= i < |r|
      ensures FirstReportOf(reports, key, r[i])
    {
      FirstReportOfEntry(reports, locations, key, entries[i]);
    }
  }

  /** The entries keep the order in which their keys are first reported. */
  lemma TranslateOrder<K(!new)>(
    reports: seq<Report>, key: DiagnosticLocation -> K,
    entries: seq<(SonarLintDiagnosticLocation, seq<string>)>, r: seq<SonarLintDiagnosticLocation>)
    requires r == WithProjects(entries, Attach())
    requires forall i, j :: 0 <= i < j < |entries| ==>
      Seqs.FirstKeyIndex(reports, ReportKey(key), LocationKey(key)(entries[i].0))
      < Seqs.FirstKeyIndex(reports, ReportKey(key), LocationKey(key)(entries[j].0))
    ensures forall i, j :: 0 <= i < j < |r| ==>
      Seqs.FirstKeyIndex(reports, ReportKey(key), key(r[i].location))
      < Seqs.FirstKeyIndex(reports, ReportKey(key), key(r[j].location))
  {
    TranslateKeys(key, entries, r);
  }

  lemma TranslateKeys<K(!new)>(key: DiagnosticLocation -> K, entries: seq<(SonarLintDiagnosticLocation, seq<string>)>, r: seq<SonarLintDiagnosticLocation>)
    requires r == WithProjects(entries, Attach())
    ensures forall i :: 0 <= i < |r| ==> LocationKey(key)(entries[i].0) == key(r[i].location)
  {
    var lk: SonarLintDiagnosticLocation -> K := LocationKey(key);
    assert forall l :: lk(l) == key(l.location);
  }

  lemma CoveredEntry<K(!new)>(key: DiagnosticLocation -> K, entries: seq<(SonarLintDiagnosticLocation, seq<string>)>, r: seq<SonarLintDiagnosticLocation>, k: K)
    requires r == WithProjects(entries, Attach())
    requires HasEntryWithKey(entries, LocationKey(key), k)
    ensures exists i :: 0 <= i < |r| && key(r[i].location) == k
  {
    TranslateKeys(key, entries, r);
    var i :| 0 <= i < |entries| && LocationKey(key)(entries[i].0) == k;
  }

  lemma FirstReportOfEntry<K(!new)>(
    reports: seq<Report>, locations: seq<SonarLintDiagnosticLocation>, key: DiagnosticLocation -> K,
    entry: (SonarLintDiagnosticLocation, seq<string>))
    requires locations == Locations(reports)
    requires FirstOfItsKey(reports, locations, LocationKey(key), key, entry.0)
    ensures FirstReportOf(reports, key, entry.0.(projects := entry.1))
  {
    var lk: SonarLintDiagnosticLocation -> K := LocationKey(key);
    assert forall l :: lk(l) == key(l.location);
    var m :| 0 <= m < |reports| && entry.0 == locations[m] && forall n :: 0 <= n < m ==> key(DiagnosticLocations.ToDiagnosticLocation(reports[n].diagnostic)) != lk(entry.0);
    var l := entry.0.(projects := entry.1);
    assert l == ToSonarLintLocation(reports[m].diagnostic).(projects := l.projects);
  }

  /** Every diagnostic of every document is represented. */
  lemma EveryDiagnosticReported<K(!new)>(docs: seq<DocumentDiagnostics>, key: DiagnosticLocation -> K, doc: DocumentDiagnostics, d: Diagnostic)
    requires doc in docs && d in doc.diagnostics
    ensures Covered(DistinctDiagnosticLocationsByProject(docs, key), key, d)
  {
    var reports := Reports(docs);
    assert Report(doc, d) in reports;
  }

  /** The same diagnostic reported by two projects' documents yields one
      entry that names both projects, in document order. */
  lemma SameDiagnosticTwoProjects<K(!new)>(doc1: DocumentDiagnostics, doc2: DocumentDiagnostics, d: Diagnostic, key: DiagnosticLocation -> K)
    requires doc1.diagnostics == [d] && doc2.diagnostics == [d]
    ensures DistinctDiagnosticLocationsByProject([doc1, doc2], key)
         == [ToSonarLintLocation(d).(projects := [doc1.projectName, doc2.projectName])]
  {
    var reports := TwoReports(doc1, doc2, d);
    SingleEntry(DistinctDiagnosticLocationsByProject([doc1, doc2], key), reports, key, d);
    TwoReporters(reports, doc1, doc2, d, key);
  }

  lemma SingleEntry<K(!new)>(r: seq<SonarLintDiagnosticLocation>, reports: seq<Report>, key: DiagnosticLocation -> K, d: Diagnostic)
    requires |reports| == 2 && reports[0].diagnostic == d && reports[1].diagnostic == d
    requires forall i, j :: 0 <= i < j < |r| ==> key(r[i].location) != key(r[j].location)
    requires forall m :: 0 <= m < |reports| ==> Covered(r, key, reports[m].diagnostic)
    requires forall i :: 0 <= i < |r| ==> r[i].projects == ProjectsReporting(reports, key, key(r[i].location))
    requires forall i :: 0 <= i < |r| ==> FirstReportOf(reports, key, r[i])
    ensures r == [ToSonarLintLocation(d).(projects := ProjectsReporting(reports, key, key(DiagnosticLocations.ToDiagnosticLocation(d))))]
  {
    var expected := ToSonarLintLocation(d).(projects := ProjectsReporting(reports, key, key(DiagnosticLocations.ToDiagnosticLocation(d))));
    assert Covered(r, key, reports[0].diagnostic);
    AllOneLocation(r, reports, key, d);
    OneEntry(r, key, expected);
  }

  /** Every entry for two reports of one diagnostic is that diagnostic's
      location. */
  lemma AllOneLocation<K(!new)>(r: seq<SonarLintDiagnosticLocation>, reports: seq<Report>, key: DiagnosticLocation -> K, d: Diagnostic)
    requires |reports| == 2 && reports[0].diagnostic == d && reports[1].diagnostic == d
    requires forall i :: 0 <= i < |r| ==> r[i].projects == ProjectsReporting(reports, key, key(r[i].location))
    requires forall i :: 0 <= i < |r| ==> FirstReportOf(reports, key, r[i])
    ensures forall i :: 0 <= i < |r| ==>
      r[i] == ToSonarLintLocation(d).(projects := ProjectsReporting(reports, key, key(DiagnosticLocations.ToDiagnosticLocation(d))))
  {
    forall i | 0 <= i < |r|
      ensures r[i] == ToSonarLintLocation(d).(projects := ProjectsReporting(reports, key, key(DiagnosticLocations.ToDiagnosticLocation(d))))
    {
      OnlyOneLocation(reports, key, d, r[i]);
    }
  }

  /** Non-empty entries with distinct keys that are all equal: there is
      only one. */
  lemma OneEntry<K(!new)>(r: seq<SonarLintDiagnosticLocation>, key: DiagnosticLocation -> K, e: SonarLintDiagnosticLocation)
    requires |r| > 0 && forall i :: 0 <= i < |r| ==> r[i] == e
    requires forall i, j :: 0 <= i < j < |r| ==> key(r[i].location) != key(r[j].location)
    ensures r == [e]
  {
    DistinctKeysCount(r, key);
    var keys := set i | 0 <= i < |r| :: key(r[i].location);
    assert keys == {key(e.location)} by {
      assert key(r[0].location) in keys;
      forall k | k in keys
        ensures k == key(e.location)
      {
        var i :| 0 <= i < |r| && k == key(r[i].location);
      }
    }
    assert |r| == 1;
  }

  lemma TwoReports(doc1: DocumentDiagnostics, doc2: DocumentDiagnostics, d: Diagnostic) returns (reports: seq<Report>)
    requires doc1.diagnostics == [d] && doc2.diagnostics == [d]
    ensures reports == Reports([doc1, doc2]) == [Report(doc1, d), Report(doc2, d)]
  {
    assert DocumentReports(doc1) == [Report(doc1, d)];
    assert DocumentReports(doc2) == [Report(doc2, d)];
    assert [doc1, doc2][1..][1..] == [];
    reports := Reports([doc1, doc2]);
  }

  lemma TwoReporters<K(!new)>(reports: seq<Report>, doc1: DocumentDiagnostics, doc2: DocumentDiagnostics, d: Diagnostic, key: DiagnosticLocation -> K)
    requires reports == [Report(doc1, d), Report(doc2, d)]
    ensures ProjectsReporting(reports, key, key(DiagnosticLocations.ToDiagnosticLocation(d))) == [doc1.projectName, doc2.projectName]
  {
    var k := key(DiagnosticLocations.ToDiagnosticLocation(d));
    assert reports[1..][1..] == [];
    assert ProjectsReporting(reports[1..][1..], key, k) == [];
    assert ProjectsReporting(reports[1..], key, k) == [doc2.projectName];
  }

  lemma OnlyOneLocation<K(!new)>(reports: seq<Report>, key: DiagnosticLocation -> K, d: Diagnostic, l: SonarLintDiagnosticLocation)
    requires |reports| == 2 && reports[0].diagnostic == d && reports[1].diagnostic == d
    requires FirstReportOf(reports, key, l)
    requires l.projects == ProjectsReporting(reports, key, key(l.location))
    ensures l == ToSonarLintLocation(d).(projects := ProjectsReporting(reports, key, key(DiagnosticLocations.ToDiagnosticLocation(d))))
  {
    var m :| 0 <= m < |reports| && l == ToSonarLintLocation(reports[m].diagnostic).(projects := l.projects) &&
      forall n :: 0 <= n < m ==> key(DiagnosticLocations.ToDiagnosticLocation(reports[n].diagnostic)) != key(l.location);
  }

  /** Entries with pairwise distinct keys have as many keys as entries. */
  lemma {:induction false} DistinctKeysCount<K(!new)>(r: seq<SonarLintDiagnosticLocation>, key: DiagnosticLocation -> K)
    requires forall i, j :: 0 <= i < j < |r| ==> key(r[i].location) != key(r[j].location)
    ensures |set i | 0 <= i < |r| :: key(r[i].location)| == |r|
  {
    if |r| > 0 {
      var n := |r| - 1;
      var prefix := r[..n];
      DistinctKeysCount(prefix, key);
      var before := set i | 0 <= i < n :: key(prefix[i].location);
      assert key(r[n].location) !in before by {
        forall k | k in before
          ensures k != key(r[n].location)
        {
          var i :| 0 <= i < n && k == key(prefix[i].location);
          assert prefix[i] == r[i];
        }
      }
      assert (set i | 0 <= i < |r| :: key(r[i].location)) == before + {key(r[n].location)} by {
        forall i | 0 <= i < n
          ensures key(r[i].location) in before
        {
          assert prefix[i] == r[i];
        }
      }
    }
  }
}
