/** What both assemblies report for a diagnostic: the primary location with
    its message, severity name, filtered tags and rule id; the secondary
    locations with the messages found in the property bag; and the grouping
    of identical locations reported by several projects. */
module DiagnosticLocations {
  import opened Wrappers
  import opened Roslyn
  import opened Strings
  import opened CodeLocations
  import Seqs

  /** The custom tags that are passed on to the client. */
  const TagFilter: set<string> := {"Unnecessary", "Deprecated"}

  function IsPassedOn(): string -> bool {
    (t: string) => t in TagFilter
  }

  /** `CustomTags.Where(x => _tagFilter.Contains(x))`: the passed-on tags in
      their order, each as often as it occurs. */
  function FilterTags(tags: seq<string>): (r: seq<string>)
    ensures forall t :: t in r <==> t in tags && t in TagFilter
    ensures Seqs.IsSubsequence(r, tags)
    ensures r == Seqs.Filter(tags, IsPassedOn())
    ensures forall t :: multiset(r)[t] == if t in TagFilter then multiset(tags)[t] else 0
  {
    Seqs.FilterCounts(tags, IsPassedOn());
    if |tags| == 0 then []
    else if tags[0] in TagFilter then [tags[0]] + FilterTags(tags[1..])
    else FilterTags(tags[1..])
  }

  /** OmniSharp's `DiagnosticLocation`: the fields its equality is built
      from. Lines and columns are zero-based. */
  datatype DiagnosticLocation = DiagnosticLocation(
    fileName: Option<string>,
    line: int,
    column: int,
    endLine: int,
    endColumn: int,
    text: string,
    logLevel: string,
    tags: seq<string>,
    id: string)

  /** The primary-location part of `ToDiagnosticLocation`. */
  function ToDiagnosticLocation(d: Diagnostic): (l: DiagnosticLocation)
    ensures l.fileName == d.location.path
    ensures l.line == d.location.startLine && l.column == d.location.startCharacter
    ensures l.endLine == d.location.endLine && l.endColumn == d.location.endCharacter
    ensures l.text == d.message && l.id == d.id
    ensures l.logLevel == d.severity.Name() && l.logLevel in {"Hidden", "Info", "Warning", "Error"}
    ensures l.tags == FilterTags(d.customTags)
    ensures forall t :: t in l.tags <==> t in d.customTags && t in TagFilter
  {
    DiagnosticLocation(
      d.location.path,
      d.location.startLine, d.location.startCharacter,
      d.location.endLine, d.location.endCharacter,
      d.message, d.severity.Name(), FilterTags(d.customTags), d.id)
  }

  /** The severity name determines the severity. */
  lemma LogLevelDeterminesSeverity(a: Diagnostic, b: Diagnostic)
    requires ToDiagnosticLocation(a).logLevel == ToDiagnosticLocation(b).logLevel
    ensures a.severity == b.severity
  {
  }

  /** `GetLocationMessage(diagnostic, i)`: the property stored under the
      decimal index, null when absent. */
  function LocationMessage(d: Diagnostic, i: nat): (m: Option<string>)
    ensures NatToString(i) !in d.properties ==> m == None
  {
    var key := NatToString(i);
    if key in d.properties then d.properties[key] else None
  }

  /** `ToAdditionalLocation(location, text)`. */
  function ToAdditionalLocation(span: LineSpan, text: Option<string>): (c: CodeLocation)
    ensures c.fileName == span.path && c.text == text
    ensures c.line == span.startLine && c.column == span.startCharacter
    ensures c.endLine == span.endLine && c.endColumn == span.endCharacter
  {
    CodeLocation(span.path, span.startLine, span.startCharacter, span.endLine, span.endCharacter, text)
  }

  /** `ToAdditionalLocations`: one code location per secondary location, in
      order, with the message stored under its index. */
  function ToAdditionalLocations(d: Diagnostic): (r: seq<CodeLocation>)
    ensures |r| == |d.additionalLocations|
    ensures forall i :: 0 <= i < |r| ==>
      r[i] == ToAdditionalLocation(d.additionalLocations[i], LocationMessage(d, i))
  {
    seq(|d.additionalLocations|, i requires 0 <= i < |d.additionalLocations| =>
      ToAdditionalLocation(d.additionalLocations[i], LocationMessage(d, i)))
  }

  /** The producing side of the convention: the analyzers store the message
      of the i-th secondary location under the key `i.ToString()`. */
  function SecondaryMessages(messages: seq<string>): (props: map<string, Option<string>>)
    ensures forall i :: 0 <= i < |messages| ==> NatToString(i) in props && props[NatToString(i)] == Some(messages[i])
    ensures forall k :: k in props ==> exists i :: 0 <= i < |messages| && k == NatToString(i)
  {
    NatToStringInjectiveAll();
    map i | 0 <= i < |messages| :: NatToString(i) := Some(messages[i])
  }

  lemma NatToStringInjectiveAll()
    ensures forall i: nat, j: nat :: NatToString(i) == NatToString(j) ==> i == j
  {
    forall i: nat, j: nat | NatToString(i) == NatToString(j)
      ensures i == j
    {
      NatToStringInjective(i, j);
    }
  }

  /** Reading the messages back recovers them: each secondary location gets
      the message of its own index, and locations beyond the messages get
      none. */
  lemma {:induction false} SecondaryMessagesRoundTrip(d: Diagnostic, messages: seq<string>)
    requires d.properties == SecondaryMessages(messages)
    ensures forall i :: 0 <= i < |d.additionalLocations| ==>
      ToAdditionalLocations(d)[i].text == (if i < |messages| then Some(messages[i]) else None)
  {
    NatToStringInjectiveAll();
  }

  /** An identical location reported from one project. */
  datatype Located<L> = Located(location: L, project: string)

  /** The grouping key of a located item: its location's key. */
  function LocatedKey<L, K>(key: L -> K): Located<L> -> K {
    (it: Located<L>) => key(it.location)
  }

  /** The projects of some located items, in order. */
  function Projects<L>(items: seq<Located<L>>): (r: seq<string>)
    ensures |r| == |items|
    ensures forall i :: 0 <= i < |items| ==> r[i] == items[i].project
  {
    if |items| == 0 then [] else [items[0].project] + Projects(items[1..])
  }

  /** `GroupBy(x => x.location).Select(...)`: one entry per location key,
      ordered by first occurrence; the entry keeps the first location of
      its group and the projects of every member, in input order. */
  function GroupByLocation<L(==,!new), K(==,!new)>(items: seq<Located<L>>, key: L -> K): (r: seq<(L, seq<string>)>)
    ensures forall i, j :: 0 <= i < j < |r| ==> key(r[i].0) != key(r[j].0)
    ensures forall m :: 0 <= m < |items| ==> HasEntryWithKey(r, key, key(items[m].location))
    ensures forall i :: 0 <= i < |r| ==>
      r[i].1 == Projects(Seqs.FilterKey(items, LocatedKey(key), key(r[i].0)))
    ensures forall i :: 0 <= i < |r| ==> IsFirstWithKey(items, key, r[i].0)
    ensures forall i, j :: 0 <= i < j < |r| ==>
      Seqs.FirstKeyIndex(items, LocatedKey(key), key(r[i].0)) < Seqs.FirstKeyIndex(items, LocatedKey(key), key(r[j].0))
  {
    EntriesKeys(items, key);
    EntriesHeads(items, key);
    EntriesOrder(items, key);
    Entries(Seqs.GroupBy(items, LocatedKey(key)))
  }

  /** The entries of the groups have distinct keys and cover every key. */
  lemma EntriesKeys<L(!new), K(!new)>(items: seq<Located<L>>, key: L -> K)
    ensures var r := Entries(Seqs.GroupBy(items, LocatedKey(key)));
      && (forall i, j :: 0 <= i < j < |r| ==> key(r[i].0) != key(r[j].0))
      && (forall m :: 0 <= m < |items| ==> HasEntryWithKey(r, key, key(items[m].location)))
  {
    GroupsDistinct(items, key);
    GroupsCover(items, key);
  }

  /** Each entry holds the first location of its key and the projects of
      all locations with that key. */
  lemma EntriesHeads<L(!new), K(!new)>(items: seq<Located<L>>, key: L -> K)
    ensures var r := Entries(Seqs.GroupBy(items, LocatedKey(key)));
      forall i :: 0 <= i < |r| ==>
        && r[i].1 == Projects(Seqs.FilterKey(items, LocatedKey(key), key(r[i].0)))
        && IsFirstWithKey(items, key, r[i].0)
  {
    var r := Entries(Seqs.GroupBy(items, LocatedKey(key)));
    forall i | 0 <= i < |r|
      ensures r[i].1 == Projects(Seqs.FilterKey(items, LocatedKey(key), key(r[i].0)))
      ensures IsFirstWithKey(items, key, r[i].0)
    {
      GroupHead(items, key, i);
    }
  }

  /** The entries come in the order their keys first occur. */
  lemma EntriesOrder<L(!new), K(!new)>(items: seq<Located<L>>, key: L -> K)
    ensures var r := Entries(Seqs.GroupBy(items, LocatedKey(key)));
      forall i, j :: 0 <= i < j < |r| ==>
        Seqs.FirstKeyIndex(items, LocatedKey(key), key(r[i].0)) < Seqs.FirstKeyIndex(items, LocatedKey(key), key(r[j].0))
  {
    var r := Entries(Seqs.GroupBy(items, LocatedKey(key)));
    forall i, j | 0 <= i < j < |r|
      ensures Seqs.FirstKeyIndex(items, LocatedKey(key), key(r[i].0)) < Seqs.FirstKeyIndex(items, LocatedKey(key), key(r[j].0))
    {
      GroupOrder(items, key, i, j);
    }
  }

  /** Groups come in the order their keys first occur. */
  lemma GroupOrder<L(!new), K(!new)>(items: seq<Located<L>>, key: L -> K, i: nat, j: nat)
    requires i < j < |Seqs.GroupBy(items, LocatedKey(key))|
    ensures var groups := Seqs.GroupBy(items, LocatedKey(key));
      Seqs.FirstKeyIndex(items, LocatedKey(key), key(groups[i][0].location))
      < Seqs.FirstKeyIndex(items, LocatedKey(key), key(groups[j][0].location))
  {
    var k: Located<L> -> K := LocatedKey(key);
    var groups := Seqs.GroupBy(items, k);
    Seqs.GroupByHeadOrder(items, k, i, j);
    assert k(groups[i][0]) == key(groups[i][0].location) && k(groups[j][0]) == key(groups[j][0].location);
  }

  /** Some entry has key `k`. */
  predicate HasEntryWithKey<L, K(==)>(r: seq<(L, seq<string>)>, key: L -> K, k: K) {
    exists i :: 0 <= i < |r| && key(r[i].0) == k
  }

  /** `location` is the first item's location having its key. */
  predicate IsFirstWithKey<L(==), K(==)>(items: seq<Located<L>>, key: L -> K, location: L) {
    exists m :: 0 <= m < |items| && items[m].location == location && forall n :: 0 <= n < m ==> key(items[n].location) != key(location)
  }

  /** A group's representative location and its members' projects. */
  function Entries<L>(groups: seq<seq<Located<L>>>): (r: seq<(L, seq<string>)>)
    requires forall i :: 0 <= i < |groups| ==> |groups[i]| > 0
    ensures |r| == |groups|
    ensures forall i :: 0 <= i < |groups| ==> r[i] == (groups[i][0].location, Projects(groups[i]))
  {
    seq(|groups|, i requires 0 <= i < |groups| => (groups[i][0].location, Projects(groups[i])))
  }

  lemma GroupsDistinct<L(!new), K(!new)>(items: seq<Located<L>>, key: L -> K)
    ensures var groups := Seqs.GroupBy(items, LocatedKey(key));
      forall i, j :: 0 <= i < j < |groups| ==> key(groups[i][0].location) != key(groups[j][0].location)
  {
    var k: Located<L> -> K := LocatedKey(key);
    var groups: seq<seq<Located<L>>> := Seqs.GroupBy(items, k);
    forall i, j | 0 <= i < j < |groups|
      ensures key(groups[i][0].location) != key(groups[j][0].location)
    {
      assert k(groups[i][0]) != k(groups[j][0]);
    }
  }

  lemma GroupsCover<L(!new), K(!new)>(items: seq<Located<L>>, key: L -> K)
    ensures var groups := Seqs.GroupBy(items, LocatedKey(key));
      forall m :: 0 <= m < |items| ==> exists i :: 0 <= i < |groups| && key(groups[i][0].location) == key(items[m].location)
  {
    var k: Located<L> -> K := LocatedKey(key);
    var groups: seq<seq<Located<L>>> := Seqs.GroupBy(items, k);
    forall m | 0 <= m < |items|
      ensures exists i :: 0 <= i < |groups| && key(groups[i][0].location) == key(items[m].location)
    {
      assert items[m] in items;
      var i :| 0 <= i < |groups| && items[m] in groups[i];
      var j :| 0 <= j < |groups[i]| && groups[i][j] == items[m];
      assert k(groups[i][j]) == k(groups[i][0]);
    }
  }

  lemma GroupHead<L(!new), K(!new)>(items: seq<Located<L>>, key: L -> K, i: nat)
    requires i < |Seqs.GroupBy(items, LocatedKey(key))|
    ensures var g := Seqs.GroupBy(items, LocatedKey(key))[i];
      && g == Seqs.FilterKey(items, LocatedKey(key), key(g[0].location))
      && IsFirstWithKey(items, key, g[0].location)
  {
    var k: Located<L> -> K := LocatedKey(key);
    var g: seq<Located<L>> := Seqs.GroupBy(items, k)[i];
    Seqs.GroupByMembers(items, k, i);
    assert k(g[0]) == key(g[0].location);
    Seqs.FilterKeyFirst(items, k, key(g[0].location));
    var m :| 0 <= m < |items| && items[m] == g[0] && forall n :: 0 <= n < m ==> k(items[n]) != key(g[0].location);
    assert forall n :: 0 <= n < m ==> key(items[n].location) != key(g[0].location) by {
      forall n | 0 <= n < m ensures key(items[n].location) != key(g[0].location) {
        assert k(items[n]) == key(items[n].location);
      }
    }
  }

  /** The number of project names across entries. */
  function TotalProjects<L>(r: seq<(L, seq<string>)>): nat {
    if |r| == 0 then 0 else |r[0].1| + TotalProjects(r[1..])
  }

  lemma {:induction false} TotalOfMatchingSizes<L, T>(r: seq<(L, seq<string>)>, groups: seq<seq<T>>)
    requires |r| == |groups|
    requires forall i :: 0 <= i < |r| ==> |r[i].1| == |groups[i]|
    ensures TotalProjects(r) == Seqs.SumLengths(groups)
  {
    if |r| > 0 {
      TotalOfMatchingSizes(r[1..], groups[1..]);
    }
  }

  /** Each grouped location with its project list filled in by `attach`,
      which sets the reported location's `projects`. */
  function WithProjects<L>(entries: seq<(L, seq<string>)>, attach: (L, seq<string>) -> L): (r: seq<L>)
    ensures |r| == |entries|
    ensures forall i :: 0 <= i < |r| ==> r[i] == attach(entries[i].0, entries[i].1)
  {
    seq(|entries|, i requires 0 <= i < |entries| => attach(entries[i].0, entries[i].1))
  }

  /** The number of project names across reported locations. */
  function TotalLength<L>(r: seq<L>, projectsOf: L -> seq<string>): nat {
    if |r| == 0 then 0 else |projectsOf(r[0])| + TotalLength(r[1..], projectsOf)
  }

  /** Filling in the project lists keeps the number of project names. */
  lemma {:induction false} SameTotal<L>(
    entries: seq<(L, seq<string>)>, attach: (L, seq<string>) -> L, projectsOf: L -> seq<string>)
    requires forall l, p :: projectsOf(attach(l, p)) == p
    ensures TotalLength(WithProjects(entries, attach), projectsOf) == TotalProjects(entries)
  {
    if |entries| > 0 {
      SameTotal(entries[1..], attach, projectsOf);
      assert WithProjects(entries, attach)[1..] == WithProjects(entries[1..], attach);
    }
  }

  /** Grouping loses no report: there is one project name per located
      item. */
  lemma GroupByLocationKeepsEveryReport<L(!new), K(!new)>(items: seq<Located<L>>, key: L -> K)
    ensures TotalProjects(GroupByLocation(items, key)) == |items|
  {
    var groups := Seqs.GroupBy(items, LocatedKey(key));
    Seqs.GroupBySizes(items, LocatedKey(key));
    TotalOfMatchingSizes(GroupByLocation(items, key), groups);
  }

  /** One location reported from two projects collapses into one entry that
      lists both projects, in report order. */
  lemma SameLocationTwoProjects<L(!new), K(!new)>(first: L, second: L, project1: string, project2: string, key: L -> K)
    requires key(first) == key(second)
    ensures GroupByLocation([Located(first, project1), Located(second, project2)], key) == [(first, [project1, project2])]
  {
    var items := [Located(first, project1), Located(second, project2)];
    var r := GroupByLocation(items, key);
    BothMatch(items, key);
    assert |r| > 0 by {
      assert exists i :: 0 <= i < |r| && key(r[i].0) == key(items[0].location);
    }
    OnlyFirstAt(items, key, r, 0);
    OnlyFirst(items, key, r[0]);
    assert r[0].1 == [project1, project2];
    if |r| > 1 {
      assert key(r[0].0) != key(r[1].0);
      OnlyFirstAt(items, key, r, 1);
      assert false;
    }
  }

  lemma BothMatch<L(!new), K(!new)>(items: seq<Located<L>>, key: L -> K)
    requires |items| == 2 && key(items[0].location) == key(items[1].location)
    ensures Seqs.FilterKey(items, LocatedKey(key), key(items[0].location)) == items
  {
    var k: Located<L> -> K := LocatedKey(key);
    assert k(items[0]) == key(items[0].location) && k(items[1]) == key(items[0].location);
    assert items[1..][1..] == [];
    assert Seqs.FilterKey(items[1..], k, key(items[0].location)) == [items[1]];
  }

  lemma OnlyFirstAt<L(!new), K(!new)>(items: seq<Located<L>>, key: L -> K, r: seq<(L, seq<string>)>, i: nat)
    requires |items| == 2 && key(items[0].location) == key(items[1].location)
    requires r == GroupByLocation(items, key) && i < |r|
    ensures r[i].0 == items[0].location
  {
    assert IsFirstWithKey(items, key, r[i].0);
    var m :| 0 <= m < |items| && items[m].location == r[i].0 && forall n :: 0 <= n < m ==> key(items[n].location) != key(r[i].0);
  }

  lemma OnlyFirst<L(!new), K(!new)>(items: seq<Located<L>>, key: L -> K, entry: (L, seq<string>))
    requires |items| == 2
    requires entry.0 == items[0].location
    requires entry.1 == Projects(Seqs.FilterKey(items, LocatedKey(key), key(entry.0)))
    requires Seqs.FilterKey(items, LocatedKey(key), key(items[0].location)) == items
    ensures entry == (items[0].location, [items[0].project, items[1].project])
  {
    assert Projects(items) == [items[0].project, items[1].project];
  }

  /** One diagnostic with the document that reported it. */
  datatype Report = Report(document: DocumentDiagnostics, diagnostic: Diagnostic)

  /** The reports of one document, in order. */
  function DocumentReports(doc: DocumentDiagnostics): (r: seq<Report>)
    ensures |r| == |doc.diagnostics|
    ensures forall i :: 0 <= i < |r| ==> r[i] == Report(doc, doc.diagnostics[i])
  {
    seq(|doc.diagnostics|, i requires 0 <= i < |doc.diagnostics| => Report(doc, doc.diagnostics[i]))
  }

  lemma DocumentReportsMembership(doc: DocumentDiagnostics)
    ensures forall p :: p in DocumentReports(doc) <==> p.document == doc && p.diagnostic in doc.diagnostics
  {
    var r := DocumentReports(doc);
    forall p: Report | p.document == doc && p.diagnostic in doc.diagnostics
      ensures p in r
    {
      var i :| 0 <= i < |doc.diagnostics| && doc.diagnostics[i] == p.diagnostic;
      assert r[i] == p;
    }
  }

  /** The number of diagnostics of some documents. */
  function DiagnosticCount(docs: seq<DocumentDiagnostics>): nat {
    if |docs| == 0 then 0 else |docs[0].diagnostics| + DiagnosticCount(docs[1..])
  }

  /** `SelectMany(x => x.Diagnostics, (parent, child) => ...)`: every
      diagnostic paired with its document, documents in order and each
      document's diagnostics in order. */
  function Reports(docs: seq<DocumentDiagnostics>): (r: seq<Report>)
    ensures |r| == DiagnosticCount(docs)
    ensures forall p :: p in r <==> p.document in docs && p.diagnostic in p.document.diagnostics
  {
    if |docs| == 0 then []
    else
      DocumentReportsMembership(docs[0]);
      DocumentReports(docs[0]) + Reports(docs[1..])
  }

  /** Reference definition: the projects of the reports whose location has
      key `k`, in report order. */
  function ProjectsReporting<K(==,!new)>(reports: seq<Report>, key: DiagnosticLocation -> K, k: K): seq<string> {
    if |reports| == 0 then []
    else if key(ToDiagnosticLocation(reports[0].diagnostic)) == k then
      [reports[0].document.projectName] + ProjectsReporting(reports[1..], key, k)
    else ProjectsReporting(reports[1..], key, k)
  }

  /** Items built one per report, carrying the report's project and a
      location whose key is that of the report's diagnostic. */
  predicate ItemsOf<L, K(==)>(items: seq<Located<L>>, reports: seq<Report>, locationKey: L -> K, key: DiagnosticLocation -> K) {
    && |items| == |reports|
    && forall i :: 0 <= i < |items| ==>
         && items[i].project == reports[i].document.projectName
         && locationKey(items[i].location) == key(ToDiagnosticLocation(reports[i].diagnostic))
  }

  /** The projects of a group are the projects reporting its key. */
  lemma {:induction false} GroupProjectsAreReporters<L(!new), K(!new)>(
    items: seq<Located<L>>, reports: seq<Report>, locationKey: L -> K, key: DiagnosticLocation -> K, k: K)
    requires ItemsOf(items, reports, locationKey, key)
    ensures Projects(Seqs.FilterKey(items, LocatedKey(locationKey), k)) == ProjectsReporting(reports, key, k)
  {
    if |items| > 0 {
      assert ItemsOf(items[1..], reports[1..], locationKey, key) by {
        forall i | 0 <= i < |items[1..]|
          ensures items[1..][i].project == reports[1..][i].document.projectName
          ensures locationKey(items[1..][i].location) == key(ToDiagnosticLocation(reports[1..][i].diagnostic))
        {
          assert items[1..][i] == items[i + 1] && reports[1..][i] == reports[i + 1];
        }
      }
      GroupProjectsAreReporters(items[1..], reports[1..], locationKey, key, k);
      assert LocatedKey(locationKey)(items[0]) == locationKey(items[0].location);
      var rest := Seqs.FilterKey(items[1..], LocatedKey(locationKey), k);
      if locationKey(items[0].location) == k {
        assert Seqs.FilterKey(items, LocatedKey(locationKey), k) == [items[0]] + rest;
        assert Projects([items[0]] + rest) == [items[0].project] + Projects(rest) by {
          assert ([items[0]] + rest)[1..] == rest;
        }
      }
    }
  }

  /** One located item per report: its converted location and its
      document's project. */
  function LocatedReports<L>(reports: seq<Report>, locations: seq<L>): (items: seq<Located<L>>)
    requires |locations| == |reports|
    ensures |items| == |reports|
    ensures forall i :: 0 <= i < |items| ==> items[i] == Located(locations[i], reports[i].document.projectName)
  {
    seq(|reports|, i requires 0 <= i < |reports| => Located(locations[i], reports[i].document.projectName))
  }

  /** The converted locations line up with the reports and compare as the
      reports' primary locations do. */
  predicate KeysAgree<L, K(==)>(reports: seq<Report>, locations: seq<L>, locationKey: L -> K, key: DiagnosticLocation -> K) {
    && |locations| == |reports|
    && forall i :: 0 <= i < |reports| ==> locationKey(locations[i]) == key(ToDiagnosticLocation(reports[i].diagnostic))
  }

  /** `l` is the converted location of the first report having its key. */
  predicate FirstOfItsKey<L(==), K(==)>(reports: seq<Report>, locations: seq<L>, locationKey: L -> K, key: DiagnosticLocation -> K, l: L)
    requires |locations| == |reports|
  {
    exists m :: 0 <= m < |reports| && l == locations[m] && forall n :: 0 <= n < m ==> key(ToDiagnosticLocation(reports[n].diagnostic)) != locationKey(l)
  }

  /** The shared body of both `DistinctDiagnosticLocationsByProject`s:
      group the converted locations of the reports by key; each entry is
      the first location of its key with the projects of all the reports
      of that key. */
  function DistinctByProject<L(==,!new), K(==,!new)>(
    reports: seq<Report>, locations: seq<L>, locationKey: L -> K, key: DiagnosticLocation -> K): (r: seq<(L, seq<string>)>)
    requires KeysAgree(reports, locations, locationKey, key)
    ensures forall i, j :: 0 <= i < j < |r| ==> locationKey(r[i].0) != locationKey(r[j].0)
    ensures forall m :: 0 <= m < |reports| ==>
      HasEntryWithKey(r, locationKey, key(ToDiagnosticLocation(reports[m].diagnostic)))
    ensures forall i :: 0 <= i < |r| ==> r[i].1 == ProjectsReporting(reports, key, locationKey(r[i].0))
    ensures forall i :: 0 <= i < |r| ==> FirstOfItsKey(reports, locations, locationKey, key, r[i].0)
    ensures TotalProjects(r) == |reports|
    ensures forall i, j :: 0 <= i < j < |r| ==>
      Seqs.FirstKeyIndex(reports, ReportKey(key), locationKey(r[i].0))
      < Seqs.FirstKeyIndex(reports, ReportKey(key), locationKey(r[j].0))
  {
    var items := LocatedReports(reports, locations);
    var r := GroupByLocation(items, locationKey);
    ReportOrderIsItemOrder(reports, locations, locationKey, key, items);
    DistinctByProjectCover(reports, locations, locationKey, key, items, r);
    forall i | 0 <= i < |r|
      ensures r[i].1 == ProjectsReporting(reports, key, locationKey(r[i].0))
      ensures FirstOfItsKey(reports, locations, locationKey, key, r[i].0)
    {
      DistinctByProjectEntry(reports, locations, locationKey, key, items, r[i]);
    }
    GroupByLocationKeepsEveryReport(items, locationKey);
    r
  }

  /** The key of a report: that of its primary location. */
  function ReportKey<K>(key: DiagnosticLocation -> K): Report -> K {
    (rep: Report) => key(ToDiagnosticLocation(rep.diagnostic))
  }

  /** The located items find each key first where the reports do. */
  lemma ReportOrderIsItemOrder<L(!new), K(!new)>(
    reports: seq<Report>, locations: seq<L>, locationKey: L -> K, key: DiagnosticLocation -> K, items: seq<Located<L>>)
    requires KeysAgree(reports, locations, locationKey, key)
    requires items == LocatedReports(reports, locations)
    ensures forall k :: Seqs.FirstKeyIndex(items, LocatedKey(locationKey), k) == Seqs.FirstKeyIndex(reports, ReportKey(key), k)
  {
    var kx: Located<L> -> K := LocatedKey(locationKey);
    var ky: Report -> K := ReportKey(key);
    forall i | 0 <= i < |items|
      ensures kx(items[i]) == ky(reports[i])
    {
      assert items[i].location == locations[i];
    }
    forall k
      ensures Seqs.FirstKeyIndex(items, kx, k) == Seqs.FirstKeyIndex(reports, ky, k)
    {
      Seqs.FirstKeyIndexAgree(items, kx, reports, ky, k);
    }
  }

  lemma DistinctByProjectCover<L(!new), K(!new)>(
    reports: seq<Report>, locations: seq<L>, locationKey: L -> K, key: DiagnosticLocation -> K,
    items: seq<Located<L>>, r: seq<(L, seq<string>)>)
    requires KeysAgree(reports, locations, locationKey, key)
    requires items == LocatedReports(reports, locations)
    requires forall m :: 0 <= m < |items| ==> HasEntryWithKey(r, locationKey, locationKey(items[m].location))
    ensures forall m :: 0 <= m < |reports| ==>
      HasEntryWithKey(r, locationKey, key(ToDiagnosticLocation(reports[m].diagnostic)))
  {
    forall m | 0 <= m < |reports|
      ensures HasEntryWithKey(r, locationKey, key(ToDiagnosticLocation(reports[m].diagnostic)))
    {
      CoverOne(reports, locations, locationKey, key, items, r, m);
    }
  }

  lemma CoverOne<L(!new), K(!new)>(
    reports: seq<Report>, locations: seq<L>, locationKey: L -> K, key: DiagnosticLocation -> K,
    items: seq<Located<L>>, r: seq<(L, seq<string>)>, m: nat)
    requires KeysAgree(reports, locations, locationKey, key)
    requires items == LocatedReports(reports, locations)
    requires forall m :: 0 <= m < |items| ==> HasEntryWithKey(r, locationKey, locationKey(items[m].location))
    requires m < |reports|
    ensures HasEntryWithKey(r, locationKey, key(ToDiagnosticLocation(reports[m].diagnostic)))
  {
    assert items[m].location == locations[m];
    assert HasEntryWithKey(r, locationKey, locationKey(items[m].location));
  }

  lemma DistinctByProjectEntry<L(!new), K(!new)>(
    reports: seq<Report>, locations: seq<L>, locationKey: L -> K, key: DiagnosticLocation -> K,
    items: seq<Located<L>>, entry: (L, seq<string>))
    requires KeysAgree(reports, locations, locationKey, key)
    requires items == LocatedReports(reports, locations)
    requires entry.1 == Projects(Seqs.FilterKey(items, LocatedKey(locationKey), locationKey(entry.0)))
    requires IsFirstWithKey(items, locationKey, entry.0)
    ensures entry.1 == ProjectsReporting(reports, key, locationKey(entry.0))
    ensures FirstOfItsKey(reports, locations, locationKey, key, entry.0)
  {
    assert ItemsOf(items, reports, locationKey, key);
    GroupProjectsAreReporters(items, reports, locationKey, key, locationKey(entry.0));
    var m :| 0 <= m < |items| && items[m].location == entry.0 && forall n :: 0 <= n < m ==> locationKey(items[n].location) != locationKey(entry.0);
    forall n | 0 <= n < m
      ensures key(ToDiagnosticLocation(reports[n].diagnostic)) != locationKey(entry.0)
    {
      assert locationKey(items[n].location) == key(ToDiagnosticLocation(reports[n].diagnostic));
    }
  }
}
