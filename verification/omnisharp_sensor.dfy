/** `OmnisharpSensor.execute`: when the module has C# files, start OmniSharp
    lazily, push the rule configuration, then for each file (until the
    analysis is cancelled) send its buffer, run a code check and save an
    issue for every reported diagnostic whose rule is active.

    OmniSharp itself is an oracle: `respond` gives the lines it prints while
    the client waits for a request. Starting the server is an input too. */
module OmnisharpSensor {
  import opened Wrappers
  import opened ResponseProcessor
  import SensorRules
  import Endpoints
  import OmnisharpProtocol
  import Seqs

  /** A C# file of the module; `contents` is `None` when reading it fails. */
  datatype InputFile = InputFile(path: string, contents: Option<string>)

  /** What the sensor reads from its context. `isCancelled(i)` is the
      answer of `context.isCancelled()` before the `i`-th file. */
  datatype SensorContext = SensorContext(
    csharpFiles: seq<InputFile>,
    baseDir: string,
    dotnetCliExeLocation: Option<string>,
    activeRules: SensorRules.ActiveRules,
    isCancelled: nat -> bool)

  /** How `server.lazyStart` ends. */
  datatype StartOutcome = Started | StartInterrupted | StartFailed

  /** The range of an issue: lines as OmniSharp gives them, line offsets
      one less than its one-based columns. */
  datatype TextRange = TextRange(startLine: int, startOffset: int, endLine: int, endOffset: int)

  /** An issue saved in the context. */
  datatype Issue = Issue(ruleKey: SensorRules.RuleKey, path: string, range: TextRange, message: Option<string>)

  datatype Outcome = NothingToAnalyse | Interrupted | Completed | Cancelled | Threw(error: Error)

  /** The issue `handle` saves for a diagnostic. */
  function IssueOf(f: InputFile, d: Diagnostic): (i: Issue)
    ensures i.ruleKey == SensorRules.RuleKey(SensorRules.RepositoryKey, d.id) && i.path == f.path
    ensures i.range.startLine == d.location.line && i.range.endLine == d.location.endLine
    ensures i.range.startOffset + 1 == d.location.column && i.range.endOffset + 1 == d.location.endColumn
    ensures i.message == d.location.text
  {
    var l := d.location;
    Issue(SensorRules.RuleKey(SensorRules.RepositoryKey, d.id), f.path,
      TextRange(l.line, l.column - 1, l.endLine, l.endColumn - 1), l.text)
  }

  predicate IsActive(activeRules: SensorRules.ActiveRules, d: Diagnostic) {
    SensorRules.RuleKey(SensorRules.RepositoryKey, d.id) in activeRules
  }

  function ActiveIn(activeRules: SensorRules.ActiveRules): Diagnostic -> bool {
    (d: Diagnostic) => IsActive(activeRules, d)
  }

  function IssueIn(f: InputFile): Diagnostic -> Issue {
    (d: Diagnostic) => IssueOf(f, d)
  }

  /** `handle` over the diagnostics of one code check: an issue for each
      diagnostic of an active rule, in order, one per diagnostic. */
  function FileIssues(activeRules: SensorRules.ActiveRules, f: InputFile, diagnostics: seq<Diagnostic>): (r: seq<Issue>)
    ensures |r| <= |diagnostics|
    ensures forall i :: i in r <==> exists d :: d in diagnostics && IsActive(activeRules, d) && i == IssueOf(f, d)
    ensures forall i :: i in r ==> i.path == f.path && i.ruleKey in activeRules
    decreases |diagnostics|
  {
    if |diagnostics| == 0 then []
    else
      var rest := FileIssues(activeRules, f, diagnostics[1..]);
      assert forall d :: d in diagnostics[1..] ==> d in diagnostics;
      assert forall d :: d in diagnostics ==> d == diagnostics[0] || d in diagnostics[1..];
      if IsActive(activeRules, diagnostics[0]) then [IssueOf(f, diagnostics[0])] + rest else rest
  }

  /** The issues are `handle` applied, in order, to what `Where(IsActive)`
      keeps: one issue per diagnostic of an active rule, repeats
      included. */
  lemma {:induction false} FileIssuesOfActive(activeRules: SensorRules.ActiveRules, f: InputFile, diagnostics: seq<Diagnostic>)
    ensures FileIssues(activeRules, f, diagnostics) == Seqs.Map(Seqs.Filter(diagnostics, ActiveIn(activeRules)), IssueIn(f))
    decreases |diagnostics|
  {
    if |diagnostics| > 0 {
      FileIssuesOfActive(activeRules, f, diagnostics[1..]);
      var kept := Seqs.Filter(diagnostics[1..], ActiveIn(activeRules));
      if IsActive(activeRules, diagnostics[0]) {
        Seqs.MapCons(diagnostics[0], kept, IssueIn(f));
      }
    } else {
      assert Seqs.Map([], IssueIn(f)) == [];
    }
  }

  /** OmniSharp's output for `request` holds a response to it. */
  predicate Answered(request: Endpoints.Request, respond: Endpoints.Request -> seq<OutputLine>) {
    LastResponse(respond(request), request.seqNo).Some?
  }

  /** The SonarC# diagnostics of the response to a code check; none when
      it is not answered. */
  function CheckedDiagnostics(check: Endpoints.Request, respond: Endpoints.Request -> seq<OutputLine>): seq<Diagnostic> {
    match LastResponse(respond(check), check.seqNo)
    case Some(response) => Endpoints.SonarDiagnostics(response)
    case None => []
  }

  /** What `handle` saves for a file from the response to its code check:
      the issues of the SonarC# diagnostics of active rules, in response
      order. */
  function CheckedIssues(
    activeRules: SensorRules.ActiveRules, f: InputFile, check: Endpoints.Request,
    respond: Endpoints.Request -> seq<OutputLine>): seq<Issue>
  {
    FileIssues(activeRules, f, CheckedDiagnostics(check, respond))
  }

  function CheckedIssuesOf(activeRules: SensorRules.ActiveRules, respond: Endpoints.Request -> seq<OutputLine>)
    : (InputFile, Endpoints.Request) -> seq<Issue>
  {
    (f: InputFile, check: Endpoints.Request) => CheckedIssues(activeRules, f, check, respond)
  }

  /** The issues of the first `n` files, whose code checks are every second
      request from the second on, concatenated in file order. */
  function IssuesOfScanned(
    files: seq<InputFile>, requests: seq<Endpoints.Request>, issuesOf: (InputFile, Endpoints.Request) -> seq<Issue>, n: nat)
    : seq<Issue>
    requires n <= |files| && 2 * n <= |requests|
  {
    if n == 0 then []
    else IssuesOfScanned(files, requests, issuesOf, n - 1) + issuesOf(files[n - 1], requests[2 * n - 1])
  }

  /** Requests after those of the scanned files do not change their
      issues. */
  lemma {:induction false} IssuesOfScannedPrefix(
    files: seq<InputFile>, a: seq<Endpoints.Request>, b: seq<Endpoints.Request>,
    issuesOf: (InputFile, Endpoints.Request) -> seq<Issue>, n: nat)
    requires n <= |files| && 2 * n <= |a|
    ensures IssuesOfScanned(files, a + b, issuesOf, n) == IssuesOfScanned(files, a, issuesOf, n)
  {
    if n > 0 {
      assert (a + b)[2 * n - 1] == a[2 * n - 1];
      IssuesOfScannedPrefix(files, a, b, issuesOf, n - 1);
    }
  }

  /** One more scanned file adds the issues of its code check. */
  lemma ScanStep(
    files: seq<InputFile>, issuesOf: (InputFile, Endpoints.Request) -> seq<Issue>,
    requests: seq<Endpoints.Request>, issues: seq<Issue>, i: nat,
    more: seq<Endpoints.Request>, moreIssues: seq<Issue>)
    requires i < |files| && |requests| == 2 * i && |more| == 2
    requires issues == IssuesOfScanned(files, requests, issuesOf, i)
    requires moreIssues == issuesOf(files[i], more[1])
    ensures issues + moreIssues == IssuesOfScanned(files, requests + more, issuesOf, i + 1)
  {
    IssuesOfScannedPrefix(files, requests, more, issuesOf, i);
    assert (requests + more)[2 * i + 1] == more[1];
    IssuesOfScannedStep(files, requests + more, issuesOf, i, moreIssues);
  }

  /** Every issue saved is of an active rule. */
  lemma IssuesOfScannedActive(
    files: seq<InputFile>, requests: seq<Endpoints.Request>,
    activeRules: SensorRules.ActiveRules, respond: Endpoints.Request -> seq<OutputLine>, n: nat)
    requires n <= |files| && 2 * n <= |requests|
    ensures forall x :: x in IssuesOfScanned(files, requests, CheckedIssuesOf(activeRules, respond), n) ==> x.ruleKey in activeRules
  {
    var issuesOf := CheckedIssuesOf(activeRules, respond);
    forall f, check, x | x in issuesOf(f, check)
      ensures x.ruleKey in activeRules
    {
      assert x in FileIssues(activeRules, f, CheckedDiagnostics(check, respond));
    }
    IssuesOfScannedWithin(files, requests, issuesOf, activeRules, n);
  }

  /** When each file's issues are of active rules, so are all of them. */
  lemma {:induction false} IssuesOfScannedWithin(
    files: seq<InputFile>, requests: seq<Endpoints.Request>,
    issuesOf: (InputFile, Endpoints.Request) -> seq<Issue>, activeRules: SensorRules.ActiveRules, n: nat)
    requires n <= |files| && 2 * n <= |requests|
    requires forall f, check, x :: x in issuesOf(f, check) ==> x.ruleKey in activeRules
    ensures forall x :: x in IssuesOfScanned(files, requests, issuesOf, n) ==> x.ruleKey in activeRules
  {
    if n > 0 {
      IssuesOfScannedWithin(files, requests, issuesOf, activeRules, n - 1);
    }
  }

  lemma IssuesOfScannedStep(
    files: seq<InputFile>, requests: seq<Endpoints.Request>,
    issuesOf: (InputFile, Endpoints.Request) -> seq<Issue>, n: nat, issues: seq<Issue>)
    requires n < |files| && 2 * n + 2 <= |requests|
    requires issues == issuesOf(files[n], requests[2 * n + 1])
    ensures IssuesOfScanned(files, requests, issuesOf, n + 1) == IssuesOfScanned(files, requests, issuesOf, n) + issues
  {
  }

  /** The request the protocol builds next. */
  function NextRequest(p: OmnisharpProtocol.Protocol, command: string, arguments: Endpoints.Arguments): Endpoints.Request {
    Endpoints.BuildRequest(command, arguments, p.nextId)
  }

  /** What scanning some files did. `scanned` counts the files whose code
      check completed. */
  datatype Scan = Scan(
    protocol: OmnisharpProtocol.Protocol,
    requests: seq<Endpoints.Request>,
    issues: seq<Issue>,
    scanned: nat,
    outcome: Outcome)

  /** The two requests of a scanned file: its buffer, then its code check,
      with consecutive sequence numbers. */
  predicate ScanRequests(f: InputFile, update: Endpoints.Request, check: Endpoints.Request) {
    && f.contents.Some?
    && update == Endpoints.BuildRequest("/updatebuffer", Endpoints.BufferArguments(f.path, f.contents.value), update.seqNo)
    && check == Endpoints.BuildRequest("/sonarlint/codecheck", Endpoints.FileArguments(f.path), update.seqNo + 1)
  }

  /** Requests numbered one after the other from `first`. */
  predicate NumberedFrom(requests: seq<Endpoints.Request>, first: int) {
    forall k :: 0 <= k < |requests| ==> requests[k].seqNo == first + k
  }

  /** `scanFile`: the buffer is sent, then the file is checked and an issue
      saved for each diagnostic of an active rule. */
  method ScanFile(
    p: OmnisharpProtocol.Protocol, activeRules: SensorRules.ActiveRules, f: InputFile,
    respond: Endpoints.Request -> seq<OutputLine>) returns (r: Scan)
    requires OmnisharpProtocol.Valid(p)
    ensures OmnisharpProtocol.Valid(r.protocol)
    ensures r.outcome == Completed || r.outcome.Threw?
    ensures r.scanned == (if r.outcome == Completed then 1 else 0)
    ensures r.protocol.nextId == p.nextId + |r.requests| && r.protocol.registry.Keys == p.registry.Keys
    ensures NumberedFrom(r.requests, p.nextId)
    ensures f.contents.None? ==> r == Scan(p, [], [], 0, Threw(IllegalStateException("Unable to read file buffer")))
    ensures r.outcome == Completed ==> |r.requests| == 2 && ScanRequests(f, r.requests[0], r.requests[1])
    ensures r.outcome.Threw? ==> r.issues == [] && |r.requests| <= 2
    ensures forall i :: i in r.issues ==> i.path == f.path && i.ruleKey in activeRules
    ensures r.outcome == Completed ==> Answered(r.requests[0], respond) && Answered(r.requests[1], respond)
    ensures r.outcome == Completed ==> r.issues == CheckedIssues(activeRules, f, r.requests[1], respond)
    ensures r.outcome.Threw? && |r.requests| == 1 ==>
      && !Answered(r.requests[0], respond)
      && r.outcome.error == OmnisharpProtocol.TimeoutError("/updatebuffer")
    ensures r.outcome.Threw? && |r.requests| == 2 ==>
      && ScanRequests(f, r.requests[0], r.requests[1])
      && Answered(r.requests[0], respond) && !Answered(r.requests[1], respond)
      && r.outcome.error == OmnisharpProtocol.TimeoutError("/sonarlint/codecheck")
  {
    if f.contents.None? {
      return Scan(p, [], [], 0, Threw(IllegalStateException("Unable to read file buffer")));
    }
    var update := UpdateBuffer(p, f.path, f.contents.value, respond);
    if update.result.Failure? {
      return Scan(update.protocol, [update.request], [], 0, Threw(update.result.error));
    }
    var check, issues := CodeCheck(update.protocol, activeRules, f, respond);
    if issues.Failure? {
      return Scan(check.protocol, [update.request, check.request], [], 0, Threw(issues.error));
    }
    r := Scan(check.protocol, [update.request, check.request], issues.value, 1, Completed);
  }

  /** `omnisharpProtocol.updateBuffer`: the request succeeds exactly when
      OmniSharp answers it. */
  method UpdateBuffer(
    p: OmnisharpProtocol.Protocol, path: string, buffer: string, respond: Endpoints.Request -> seq<OutputLine>)
    returns (x: OmnisharpProtocol.Exchange)
    requires OmnisharpProtocol.Valid(p)
    ensures x.request == Endpoints.BuildRequest("/updatebuffer", Endpoints.BufferArguments(path, buffer), p.nextId)
    ensures OmnisharpProtocol.Valid(x.protocol)
    ensures x.protocol.nextId == p.nextId + 1 && x.protocol.registry.Keys == p.registry.Keys
    ensures x.result.Success? <==> Answered(x.request, respond)
    ensures x.result.Failure? ==> x.result.error == OmnisharpProtocol.TimeoutError("/updatebuffer")
  {
    var args := Endpoints.BufferArguments(path, buffer);
    x := OmnisharpProtocol.DoRequestAndWaitForResponse(p, "/updatebuffer", args, respond(NextRequest(p, "/updatebuffer", args)));
  }

  /** `omnisharpProtocol.codeCheck(f, diag -> handle(context, f, diag))`:
      the issues saved are those of the response to the check. */
  method CodeCheck(
    p: OmnisharpProtocol.Protocol, activeRules: SensorRules.ActiveRules, f: InputFile,
    respond: Endpoints.Request -> seq<OutputLine>)
    returns (x: OmnisharpProtocol.Exchange, issues: Result<seq<Issue>>)
    requires OmnisharpProtocol.Valid(p)
    ensures x.request == Endpoints.BuildRequest("/sonarlint/codecheck", Endpoints.FileArguments(f.path), p.nextId)
    ensures OmnisharpProtocol.Valid(x.protocol)
    ensures x.protocol.nextId == p.nextId + 1 && x.protocol.registry.Keys == p.registry.Keys
    ensures issues.Success? <==> Answered(x.request, respond)
    ensures issues.Failure? ==> issues.error == OmnisharpProtocol.TimeoutError("/sonarlint/codecheck")
    ensures issues.Success? ==> issues.value == CheckedIssues(activeRules, f, x.request, respond)
    ensures issues.Success? ==> forall i :: i in issues.value ==> i.path == f.path && i.ruleKey in activeRules
  {
    var request := NextRequest(p, "/sonarlint/codecheck", Endpoints.FileArguments(f.path));
    var (check, diagnostics) := OmnisharpProtocol.CodeCheck(p, f.path, respond(request));
    CodeCheckAnswers(p, f, respond);
    x := check;
    if diagnostics.Failure? {
      return x, Failure(diagnostics.error);
    }
    issues := Success(FileIssues(activeRules, f, diagnostics.value));
  }

  /** The code check of `f` is answered exactly when its request is, and
      hands over the diagnostics of the answer. */
  lemma CodeCheckAnswers(p: OmnisharpProtocol.Protocol, f: InputFile, respond: Endpoints.Request -> seq<OutputLine>)
    requires OmnisharpProtocol.Valid(p)
    ensures var request := NextRequest(p, "/sonarlint/codecheck", Endpoints.FileArguments(f.path));
      var r := OmnisharpProtocol.CodeCheck(p, f.path, respond(request));
      && r.0.request == request
      && (r.1.Success? <==> Answered(request, respond))
      && (r.1.Success? ==> r.1.value == CheckedDiagnostics(request, respond))
  {
  }

  /** The context was not cancelled before any of the files `lo` to `hi`
      (excluded). */
  predicate NotCancelledBetween(ctx: SensorContext, lo: nat, hi: nat) {
    forall k :: lo <= k < hi ==> !ctx.isCancelled(k)
  }

  /** The account the loop of `execute` keeps: the first `scanned` files
      were not cancelled before and each has its buffer and code-check
      requests, numbered on from `p`; the issues are those of their checks. */
  predicate Accounted(
    p: OmnisharpProtocol.Protocol, ctx: SensorContext, issuesOf: (InputFile, Endpoints.Request) -> seq<Issue>, acc: Scan)
  {
    && OmnisharpProtocol.Valid(acc.protocol)
    && acc.protocol.nextId == p.nextId + |acc.requests| && acc.protocol.registry.Keys == p.registry.Keys
    && acc.scanned <= |ctx.csharpFiles| && NotCancelledBetween(ctx, 0, acc.scanned)
    && 2 * acc.scanned <= |acc.requests|
    && (forall j :: 0 <= j < acc.scanned ==> ScanRequests(ctx.csharpFiles[j], acc.requests[2 * j], acc.requests[2 * j + 1]))
    && NumberedFrom(acc.requests, p.nextId)
    && acc.issues == IssuesOfScanned(ctx.csharpFiles, acc.requests, issuesOf, acc.scanned)
  }

  /** The loop of `execute`: it stops at the first file before which the
      context is cancelled, or at the first file that throws. The requests
      are a buffer and a code check per scanned file, in file order and
      numbered one after the other, then at most the two of the file that
      threw. */
  method ScanFiles(p: OmnisharpProtocol.Protocol, ctx: SensorContext, respond: Endpoints.Request -> seq<OutputLine>)
    returns (r: Scan)
    requires OmnisharpProtocol.Valid(p)
    ensures OmnisharpProtocol.Valid(r.protocol)
    ensures r.protocol.nextId == p.nextId + |r.requests| && r.protocol.registry.Keys == p.registry.Keys
    ensures r.outcome == Completed || r.outcome == Cancelled || r.outcome.Threw?
    ensures r.scanned <= |ctx.csharpFiles| && NotCancelledBetween(ctx, 0, r.scanned)
    ensures r.outcome == Completed ==> r.scanned == |ctx.csharpFiles|
    ensures r.outcome == Cancelled ==> r.scanned < |ctx.csharpFiles| && ctx.isCancelled(r.scanned)
    ensures r.outcome.Threw? ==> r.scanned < |ctx.csharpFiles| && !ctx.isCancelled(r.scanned)
    ensures 2 * r.scanned <= |r.requests| <= 2 * r.scanned + 2
    ensures r.outcome == Completed || r.outcome == Cancelled ==> |r.requests| == 2 * r.scanned
    ensures forall j :: 0 <= j < r.scanned ==> ScanRequests(ctx.csharpFiles[j], r.requests[2 * j], r.requests[2 * j + 1])
    ensures NumberedFrom(r.requests, p.nextId)
    ensures r.issues == IssuesOfScanned(ctx.csharpFiles, r.requests, CheckedIssuesOf(ctx.activeRules, respond), r.scanned)
  {
    var acc := Scan(p, [], [], 0, Completed);
    while acc.scanned < |ctx.csharpFiles|
      invariant Accounted(p, ctx, CheckedIssuesOf(ctx.activeRules, respond), acc)
      invariant |acc.requests| == 2 * acc.scanned && acc.outcome == Completed
      decreases |ctx.csharpFiles| - acc.scanned
    {
      if ctx.isCancelled(acc.scanned) {
        return acc.(outcome := Cancelled);
      }
      var s := ScanNext(p, ctx, respond, acc);
      if s.outcome.Threw? {
        return s;
      }
      acc := s;
    }
    r := acc;
  }

  lemma ScannedAppend(files: seq<InputFile>, requests: seq<Endpoints.Request>, more: seq<Endpoints.Request>, i: nat)
    requires i < |files| && |requests| == 2 * i
    requires forall j :: 0 <= j < i ==> ScanRequests(files[j], requests[2 * j], requests[2 * j + 1])
    requires |more| == 2 && ScanRequests(files[i], more[0], more[1])
    ensures forall j :: 0 <= j < i + 1 ==>
      ScanRequests(files[j], (requests + more)[2 * j], (requests + more)[2 * j + 1])
  {
    forall j | 0 <= j < i + 1
      ensures ScanRequests(files[j], (requests + more)[2 * j], (requests + more)[2 * j + 1])
    {
      if j < i {
        assert (requests + more)[2 * j] == requests[2 * j];
        assert (requests + more)[2 * j + 1] == requests[2 * j + 1];
      } else {
        assert (requests + more)[2 * j] == more[0];
        assert (requests + more)[2 * j + 1] == more[1];
      }
    }
  }

  /** Requests appended after the pairs of the scanned files leave those
      pairs where they are. */
  lemma ScannedExtend(files: seq<InputFile>, requests: seq<Endpoints.Request>, more: seq<Endpoints.Request>, i: nat)
    requires i <= |files| && 2 * i <= |requests|
    requires forall j :: 0 <= j < i ==> ScanRequests(files[j], requests[2 * j], requests[2 * j + 1])
    ensures forall j :: 0 <= j < i ==>
      ScanRequests(files[j], (requests + more)[2 * j], (requests + more)[2 * j + 1])
  {
    forall j | 0 <= j < i
      ensures ScanRequests(files[j], (requests + more)[2 * j], (requests + more)[2 * j + 1])
    {
      assert (requests + more)[2 * j] == requests[2 * j];
      assert (requests + more)[2 * j + 1] == requests[2 * j + 1];
    }
  }

  lemma NumberedAppend(requests: seq<Endpoints.Request>, more: seq<Endpoints.Request>, first: int)
    requires NumberedFrom(requests, first) && NumberedFrom(more, first + |requests|)
    ensures NumberedFrom(requests + more, first)
  {
    forall k | 0 <= k < |requests + more|
      ensures (requests + more)[k].seqNo == first + k
    {
      if k >= |requests| {
        assert (requests + more)[k] == more[k - |requests|];
      }
    }
  }

  /** The body of the loop of `execute` for the next file, which is not
      cancelled: scan it and carry the loop's account over it. A completed
      file counts as scanned and adds the issues of its check; a file that
      throws adds its requests only. */
  method ScanNext(p: OmnisharpProtocol.Protocol, ctx: SensorContext, respond: Endpoints.Request -> seq<OutputLine>, acc: Scan)
    returns (s: Scan)
    requires Accounted(p, ctx, CheckedIssuesOf(ctx.activeRules, respond), acc)
    requires acc.scanned < |ctx.csharpFiles| && |acc.requests| == 2 * acc.scanned && !ctx.isCancelled(acc.scanned)
    ensures Accounted(p, ctx, CheckedIssuesOf(ctx.activeRules, respond), s)
    ensures s.outcome == Completed || s.outcome.Threw?
    ensures s.outcome == Completed ==> s.scanned == acc.scanned + 1 && |s.requests| == 2 * s.scanned
    ensures s.outcome.Threw? ==> s.scanned == acc.scanned && |s.requests| <= 2 * s.scanned + 2 && s.issues == acc.issues
  {
    var t := ScanFile(acc.protocol, ctx.activeRules, ctx.csharpFiles[acc.scanned], respond);
    if t.outcome.Threw? {
      AccountThrew(p, ctx, CheckedIssuesOf(ctx.activeRules, respond), acc, t);
      s := Scan(t.protocol, acc.requests + t.requests, acc.issues, acc.scanned, t.outcome);
    } else {
      AccountCompleted(p, ctx, CheckedIssuesOf(ctx.activeRules, respond), acc, t);
      s := Scan(t.protocol, acc.requests + t.requests, acc.issues + t.issues, acc.scanned + 1, Completed);
    }
  }

  /** A file that throws leaves the account of the files before it as it
      was, whatever requests it sent. */
  lemma AccountThrew(
    p: OmnisharpProtocol.Protocol, ctx: SensorContext, issuesOf: (InputFile, Endpoints.Request) -> seq<Issue>, acc: Scan, t: Scan)
    requires Accounted(p, ctx, issuesOf, acc) && acc.scanned < |ctx.csharpFiles| && |acc.requests| == 2 * acc.scanned
    requires OmnisharpProtocol.Valid(t.protocol)
    requires t.protocol.nextId == acc.protocol.nextId + |t.requests| && t.protocol.registry.Keys == acc.protocol.registry.Keys
    requires NumberedFrom(t.requests, acc.protocol.nextId)
    ensures Accounted(p, ctx, issuesOf, Scan(t.protocol, acc.requests + t.requests, acc.issues, acc.scanned, t.outcome))
  {
    var i := acc.scanned;
    NumberedAppend(acc.requests, t.requests, p.nextId);
    IssuesOfScannedPrefix(ctx.csharpFiles, acc.requests, t.requests, issuesOf, i);
    ScannedExtend(ctx.csharpFiles, acc.requests, t.requests, i);
  }

  /** A file whose check completes, not cancelled before, extends the
      account by its two requests and the issues of its check. */
  lemma AccountCompleted(
    p: OmnisharpProtocol.Protocol, ctx: SensorContext, issuesOf: (InputFile, Endpoints.Request) -> seq<Issue>, acc: Scan, t: Scan)
    requires Accounted(p, ctx, issuesOf, acc) && acc.scanned < |ctx.csharpFiles| && |acc.requests| == 2 * acc.scanned
    requires !ctx.isCancelled(acc.scanned)
    requires OmnisharpProtocol.Valid(t.protocol)
    requires t.protocol.nextId == acc.protocol.nextId + |t.requests| && t.protocol.registry.Keys == acc.protocol.registry.Keys
    requires NumberedFrom(t.requests, acc.protocol.nextId)
    requires |t.requests| == 2 && ScanRequests(ctx.csharpFiles[acc.scanned], t.requests[0], t.requests[1])
    requires t.issues == issuesOf(ctx.csharpFiles[acc.scanned], t.requests[1])
    ensures Accounted(p, ctx, issuesOf, Scan(t.protocol, acc.requests + t.requests, acc.issues + t.issues, acc.scanned + 1, Completed))
  {
    var i := acc.scanned;
    NumberedAppend(acc.requests, t.requests, p.nextId);
    ScanStep(ctx.csharpFiles, issuesOf, acc.requests, acc.issues, i, t.requests, t.issues);
    ScannedAppend(ctx.csharpFiles, acc.requests, t.requests, i);
    assert NotCancelledBetween(ctx, 0, i + 1);
  }

  /** The sensor's state across executions: the memo of rule keys and its
      protocol client. */
  datatype Sensor = Sensor(memo: SensorRules.KeysMemo, protocol: OmnisharpProtocol.Protocol)

  /** What one execution did. `startedWith` holds the arguments of
      `lazyStart` when it was called. */
  datatype Execution = Execution(
    sensor: Sensor,
    startedWith: Option<(string, Option<string>)>,
    requests: seq<Endpoints.Request>,
    issues: seq<Issue>,
    scanned: nat,
    outcome: Outcome)

  /** `execute`. Once OmniSharp is started the rule keys are read; when
      they load, the first request pushes the configuration of every known
      rule key. A completed or cancelled execution then checked exactly the
      files before the cancellation, in order, each after its buffer, and
      saved the issues of each check's response in file order. */
  method Execute(
    s: Sensor, ctx: SensorContext, rulesXml: SensorRules.RulesXml, start: StartOutcome,
    respond: Endpoints.Request -> seq<OutputLine>) returns (r: Execution)
    requires OmnisharpProtocol.Valid(s.protocol)
    ensures OmnisharpProtocol.Valid(r.sensor.protocol)
    ensures r.outcome == NothingToAnalyse <==> |ctx.csharpFiles| == 0
    ensures r.startedWith.Some? <==> |ctx.csharpFiles| > 0
    ensures r.startedWith.Some? ==> r.startedWith.value == (ctx.baseDir, ctx.dotnetCliExeLocation)
    ensures |ctx.csharpFiles| == 0 || start != Started ==> r.requests == [] && r.issues == [] && r.sensor == s
    ensures |ctx.csharpFiles| > 0 && start == StartInterrupted ==> r.outcome == Interrupted
    ensures |ctx.csharpFiles| > 0 && start == StartFailed ==> r.outcome == Threw(IllegalStateException("Unable to start OmniSharp"))
    ensures r.scanned <= |ctx.csharpFiles|
    ensures |ctx.csharpFiles| > 0 && start == Started ==>
      var (keys, memo) := SensorRules.GetAllRulesKeys(s.memo, rulesXml);
      && r.sensor.memo == memo
      && (keys.Failure? ==>
            r.outcome == Threw(keys.error) && r.requests == [] && r.issues == [] && r.sensor.protocol == s.protocol)
      && (keys.Success? ==>
            && 1 + 2 * r.scanned <= |r.requests|
            && r.requests[0] == Endpoints.BuildRequest(
                 "/sonarlint/config", Endpoints.ConfigArguments(SensorRules.BuildConfig(keys.value, ctx.activeRules)),
                 s.protocol.nextId)
            && r.issues == IssuesOfScanned(ctx.csharpFiles, r.requests[1..], CheckedIssuesOf(ctx.activeRules, respond), r.scanned))
    ensures r.outcome == Completed || r.outcome == Cancelled ==>
      && |r.requests| == 1 + 2 * r.scanned
      && (forall j :: 0 <= j < r.scanned ==> ScanRequests(ctx.csharpFiles[j], r.requests[1 + 2 * j], r.requests[2 + 2 * j]))
      && NotCancelledBetween(ctx, 0, r.scanned)
      && (r.outcome == Completed ==> r.scanned == |ctx.csharpFiles|)
      && (r.outcome == Cancelled ==> ctx.isCancelled(r.scanned))
    ensures NumberedFrom(r.requests, s.protocol.nextId)
    ensures forall i :: i in r.issues ==> i.ruleKey in ctx.activeRules
    ensures r.sensor.protocol.nextId == s.protocol.nextId + |r.requests|
  {
    if |ctx.csharpFiles| == 0 {
      return Execution(s, None, [], [], 0, NothingToAnalyse);
    }
    var startedWith := Some((ctx.baseDir, ctx.dotnetCliExeLocation));
    if start == StartInterrupted {
      return Execution(s, startedWith, [], [], 0, Interrupted);
    } else if start == StartFailed {
      return Execution(s, startedWith, [], [], 0, Threw(IllegalStateException("Unable to start OmniSharp")));
    }
    r := Analyse(s, ctx, rulesXml, respond);
  }

  /** What `execute` does once OmniSharp is started: read the rule keys,
      push the configuration, then scan the files. */
  method Analyse(
    s: Sensor, ctx: SensorContext, rulesXml: SensorRules.RulesXml, respond: Endpoints.Request -> seq<OutputLine>)
    returns (r: Execution)
    requires OmnisharpProtocol.Valid(s.protocol)
    ensures OmnisharpProtocol.Valid(r.sensor.protocol)
    ensures r.startedWith == Some((ctx.baseDir, ctx.dotnetCliExeLocation))
    ensures r.outcome == Completed || r.outcome == Cancelled || r.outcome.Threw?
    ensures r.scanned <= |ctx.csharpFiles|
    ensures var (keys, memo) := SensorRules.GetAllRulesKeys(s.memo, rulesXml);
      && r.sensor.memo == memo
      && (keys.Failure? ==>
            r.outcome == Threw(keys.error) && r.requests == [] && r.issues == [] && r.sensor.protocol == s.protocol)
      && (keys.Success? ==>
            && 1 + 2 * r.scanned <= |r.requests|
            && r.requests[0] == Endpoints.BuildRequest(
                 "/sonarlint/config", Endpoints.ConfigArguments(SensorRules.BuildConfig(keys.value, ctx.activeRules)),
                 s.protocol.nextId)
            && r.issues == IssuesOfScanned(ctx.csharpFiles, r.requests[1..], CheckedIssuesOf(ctx.activeRules, respond), r.scanned))
    ensures r.outcome == Completed || r.outcome == Cancelled ==>
      && |r.requests| == 1 + 2 * r.scanned
      && (forall j :: 0 <= j < r.scanned ==> ScanRequests(ctx.csharpFiles[j], r.requests[1 + 2 * j], r.requests[2 + 2 * j]))
      && NotCancelledBetween(ctx, 0, r.scanned)
      && (r.outcome == Completed ==> r.scanned == |ctx.csharpFiles|)
      && (r.outcome == Cancelled ==> ctx.isCancelled(r.scanned))
    ensures NumberedFrom(r.requests, s.protocol.nextId)
    ensures forall i :: i in r.issues ==> i.ruleKey in ctx.activeRules
    ensures r.sensor.protocol.nextId == s.protocol.nextId + |r.requests|
  {
    var startedWith := Some((ctx.baseDir, ctx.dotnetCliExeLocation));
    var (keys, memo) := SensorRules.GetAllRulesKeys(s.memo, rulesXml);
    if keys.Failure? {
      return Execution(Sensor(memo, s.protocol), startedWith, [], [], 0, Threw(keys.error));
    }
    var x := ConfigureAndScan(s.protocol, ctx, keys.value, respond);
    r := Execution(Sensor(memo, x.protocol), startedWith, x.requests, x.issues, x.scanned, x.outcome);
  }

  /** Push the configuration built from the rule keys, then scan the files;
      the requests are the configuration's followed by the scan's. */
  method ConfigureAndScan(
    p: OmnisharpProtocol.Protocol, ctx: SensorContext, keys: seq<string>, respond: Endpoints.Request -> seq<OutputLine>)
    returns (r: Scan)
    requires OmnisharpProtocol.Valid(p)
    ensures OmnisharpProtocol.Valid(r.protocol)
    ensures r.outcome == Completed || r.outcome == Cancelled || r.outcome.Threw?
    ensures r.scanned <= |ctx.csharpFiles|
    ensures 1 + 2 * r.scanned <= |r.requests|
    ensures r.requests[0] == Endpoints.BuildRequest(
      "/sonarlint/config", Endpoints.ConfigArguments(SensorRules.BuildConfig(keys, ctx.activeRules)), p.nextId)
    ensures r.issues == IssuesOfScanned(ctx.csharpFiles, r.requests[1..], CheckedIssuesOf(ctx.activeRules, respond), r.scanned)
    ensures r.outcome == Completed || r.outcome == Cancelled ==>
      && |r.requests| == 1 + 2 * r.scanned
      && (forall j :: 0 <= j < r.scanned ==> ScanRequests(ctx.csharpFiles[j], r.requests[1 + 2 * j], r.requests[2 + 2 * j]))
      && NotCancelledBetween(ctx, 0, r.scanned)
      && (r.outcome == Completed ==> r.scanned == |ctx.csharpFiles|)
      && (r.outcome == Cancelled ==> ctx.isCancelled(r.scanned))
    ensures NumberedFrom(r.requests, p.nextId)
    ensures forall i :: i in r.issues ==> i.ruleKey in ctx.activeRules
    ensures r.protocol.nextId == p.nextId + |r.requests|
  {
    var config := PushConfig(p, SensorRules.BuildConfig(keys, ctx.activeRules), respond);
    if config.result.Failure? {
      return Scan(config.protocol, [config.request], [], 0, Threw(config.result.error));
    }
    var scan := ScanFiles(config.protocol, ctx, respond);
    var requests := [config.request] + scan.requests;
    ConfiguredRequests(ctx.csharpFiles, config.request, scan.requests, scan.scanned, p.nextId);
    IssuesOfScannedActive(ctx.csharpFiles, scan.requests, ctx.activeRules, respond, scan.scanned);
    r := Scan(scan.protocol, requests, scan.issues, scan.scanned, scan.outcome);
  }

  /** `omnisharpProtocol.config`: the configuration request, numbered
      next, and the wait for its response. */
  method PushConfig(p: OmnisharpProtocol.Protocol, config: SensorRules.ConfigJson, respond: Endpoints.Request -> seq<OutputLine>)
    returns (x: OmnisharpProtocol.Exchange)
    requires OmnisharpProtocol.Valid(p)
    ensures x.request == Endpoints.BuildRequest("/sonarlint/config", Endpoints.ConfigArguments(config), p.nextId)
    ensures OmnisharpProtocol.Valid(x.protocol)
    ensures x.protocol.nextId == p.nextId + 1 && x.protocol.registry.Keys == p.registry.Keys
  {
    var args := Endpoints.ConfigArguments(config);
    x := OmnisharpProtocol.DoRequestAndWaitForResponse(p, "/sonarlint/config", args, respond(NextRequest(p, "/sonarlint/config", args)));
  }

  /** The configuration request put before the requests of a scan: the
      numbering runs on and each scanned file's pair moves up by one. */
  lemma ConfiguredRequests(
    files: seq<InputFile>, config: Endpoints.Request, rest: seq<Endpoints.Request>, n: nat, first: int)
    requires config.seqNo == first && NumberedFrom(rest, first + 1)
    requires n <= |files| && 2 * n <= |rest|
    requires forall j :: 0 <= j < n ==> ScanRequests(files[j], rest[2 * j], rest[2 * j + 1])
    ensures NumberedFrom([config] + rest, first)
    ensures ([config] + rest)[1..] == rest
    ensures forall j :: 0 <= j < n ==> ScanRequests(files[j], ([config] + rest)[1 + 2 * j], ([config] + rest)[2 + 2 * j])
  {
    NumberedAfter(config, rest, first);
    var requests := [config] + rest;
    forall j | 0 <= j < n
      ensures ScanRequests(files[j], requests[1 + 2 * j], requests[2 + 2 * j])
    {
      assert requests[1 + 2 * j] == rest[2 * j] && requests[2 + 2 * j] == rest[2 * j + 1];
    }
    assert requests[1..] == rest;
  }

  /** A request numbered `first` followed by requests numbered from the
      next number. */
  lemma NumberedAfter(request: Endpoints.Request, rest: seq<Endpoints.Request>, first: int)
    requires request.seqNo == first && NumberedFrom(rest, first + 1)
    ensures NumberedFrom([request] + rest, first)
  {
    forall k | 0 <= k < |[request] + rest|
      ensures ([request] + rest)[k].seqNo == first + k
    {
      if k > 0 {
        assert ([request] + rest)[k] == rest[k - 1];
      }
    }
  }
}
