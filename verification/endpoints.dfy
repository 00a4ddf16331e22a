/** `OmnisharpEndpoints`: the requests the Java client sends to OmniSharp.
    Each request takes the next sequence number; a request that waits for
    its answer registers a response handler first, asks the server to write
    the request, waits for the handler to be released by the response
    processor, and removes the handler whatever happens. */
module Endpoints {
  import opened Wrappers
  import opened Strings
  import opened ResponseProcessor
  import SensorRules
  import Seqs

  datatype FileChangeType = Change | Create | Delete | DirectoryDelete {
    /** The value sent as `changeType`. */
    function ProtocolValue(): string {
      match this
      case Change => "Change"
      case Create => "Create"
      case Delete => "Delete"
      case DirectoryDelete => "DirectoryDelete"
    }
  }

  /** The `Arguments` member of a request. */
  datatype Arguments =
    | NoArguments                                            // JSON null
    | FileArguments(fileName: string)                        // {"FileName"}
    | BufferArguments(fileName: string, buffer: string)      // {"FileName", "Buffer"}
    | FileChangesArguments(changes: seq<(string, string)>)   // [{"FileName", "changeType"}]
    | ConfigArguments(config: SensorRules.ConfigJson)

  /** The request envelope: `Type`, `Seq`, `Command` and `Arguments`. */
  datatype Request = Request(requestType: string, seqNo: int, command: string, arguments: Arguments)

  function BuildRequest(command: string, arguments: Arguments, id: int): Request {
    Request("request", id, command, arguments)
  }

  /** The next sequence number and the response processor's pending
      handlers. */
  datatype Endpoints = Endpoints(nextId: int, registry: Registry)

  const NewEndpoints := Endpoints(1, map[])

  /** Every pending handler belongs to an already numbered request. */
  predicate Valid(e: Endpoints) {
    forall id :: id in e.registry ==> id < e.nextId
  }

  /** One waiting request: the new state, the request built, whether the
      server accepted to write it, and what the call returns or throws. */
  datatype Exchange = Exchange(endpoints: Endpoints, request: Request, written: bool, result: Result<JsonMessage>)

  /** `doRequestAndWaitForResponse`. `accepted` is the server's answer to
      the write (false once it is stopped); `output` is what OmniSharp
      prints while the client waits: up to the first line answering the
      request, which releases the wait, or up to the one-minute timeout.
      The response returned is the last answer in `output`, which is that
      first answer when `output` ends where the wait ends. */
  function DoRequestAndWaitForResponse(e: Endpoints, command: string, arguments: Arguments, accepted: bool, output: seq<OutputLine>)
    : (r: Exchange)
    requires Valid(e)
    ensures r.request == BuildRequest(command, arguments, e.nextId)
    ensures r.written == accepted
    ensures r.endpoints.nextId == e.nextId + 1 && Valid(r.endpoints)
    ensures r.endpoints.registry.Keys == e.registry.Keys
    ensures !accepted ==> r.endpoints.registry == e.registry
    ensures !accepted ==> r.result == Failure(IllegalStateException("Unable to send request to the OmniSharp server: " + command))
    ensures accepted ==> r.endpoints.registry == HandleLines(e.registry, output)
    ensures accepted ==> (r.result.Success? <==> exists i :: 0 <= i < |output| && IsResponseTo(output[i], e.nextId))
    ensures accepted && r.result.Failure? ==> r.result.error == IllegalStateException("Timeout waiting for response to: " + command)
    ensures r.result.Success? ==> AnswersTo(r.result.value, e.nextId)
    ensures r.result.Success? ==> accepted && r.result.value == LastResponse(output, e.nextId).value
  {
    var id := e.nextId;
    var request := BuildRequest(command, arguments, id);
    if !accepted then
      RegisterRemove(e.registry, id);
      Exchange(Endpoints(id + 1, Remove(Register(e.registry, id), id)), request, false,
        Failure(IllegalStateException("Unable to send request to the OmniSharp server: " + command)))
    else
      var (registry, result) := AwaitResponse(e.registry, id, "Timeout waiting for response to: " + command, output);
      Exchange(Endpoints(id + 1, registry), request, true, result)
  }

  /** The waiting half of an exchange: a fresh handler under `id` is
      registered, the lines are processed, the handler is read and
      removed; the call fails with `timeoutMessage` when no line answered. */
  function AwaitResponse(registry: Registry, id: int, timeoutMessage: string, output: seq<OutputLine>)
    : (r: (Registry, Result<JsonMessage>))
    requires id !in registry
    ensures r.0 == HandleLines(registry, output)
    ensures r.1.Success? <==> exists i :: 0 <= i < |output| && IsResponseTo(output[i], id)
    ensures r.1.Failure? ==> r.1.error == IllegalStateException(timeoutMessage)
    ensures r.1.Success? ==> AnswersTo(r.1.value, id)
    ensures r.1.Success? ==> r.1.value == LastResponse(output, id).value
  {
    var registered := Register(registry, id);
    var answered := HandleLines(registered, output);
    HandleLinesAnswers(registered, output, id);
    HandlerKeepsLastResponse(registered, output, id);
    OtherHandlersUnaffected(registry, output, id);
    var h := answered[id];
    var result :=
      if h.latch == 0 then Success(h.response.value)
      else Failure(IllegalStateException(timeoutMessage));
    (Remove(answered, id), result)
  }

  /** Handling lines with one more pending handler affects the others as
      if it were not there. */
  lemma OtherHandlersUnaffected(registry: Registry, lines: seq<OutputLine>, id: int)
    requires id !in registry
    ensures Remove(HandleLines(Register(registry, id), lines), id) == HandleLines(registry, lines)
  {
    OtherHandlersUnaffectedFrom(registry, lines, id, FreshHandler);
  }

  lemma {:induction false} OtherHandlersUnaffectedFrom(registry: Registry, lines: seq<OutputLine>, id: int, h: Handler)
    requires id !in registry
    ensures Remove(HandleLines(registry[id := h], lines), id) == HandleLines(registry, lines)
    decreases |lines|
  {
    if |lines| == 0 {
      assert Remove(registry[id := h], id) == registry;
    } else {
      var withId := HandleOmnisharpOutput(registry[id := h], lines[0]).0;
      var without := HandleOmnisharpOutput(registry, lines[0]).0;
      LineIgnoresOtherHandler(registry, lines[0], id, h);
      OtherHandlersUnaffectedFrom(without, lines[1..], id, withId[id]);
    }
  }

  /** One line: the handler under `id` does not influence the others. */
  lemma LineIgnoresOtherHandler(registry: Registry, line: OutputLine, id: int, h: Handler)
    requires id !in registry
    ensures id !in HandleOmnisharpOutput(registry, line).0
    ensures HandleOmnisharpOutput(registry[id := h], line).0
         == HandleOmnisharpOutput(registry, line).0[id := HandleOmnisharpOutput(registry[id := h], line).0[id]]
  {
  }

  /** `handle`: the response's diagnostics read from JSON, keeping only
      those whose id starts with `S`, in response order. */
  function SonarDiagnostics(response: JsonMessage): (r: seq<Diagnostic>)
    ensures forall d :: d in r <==> IsSonarIssue(d) && exists i :: 0 <= i < |response.body.quickFixes| && d == ToDiagnostic(response.body.quickFixes[i])
    ensures Seqs.IsSubsequence(r, Seqs.Map(response.body.quickFixes, ToDiagnostic))
  {
    var all := Seqs.Map(response.body.quickFixes, ToDiagnostic);
    SonarIssuesAreFiltered(response.body.quickFixes);
    SonarIssues(response.body.quickFixes)
  }

  /** Each Sonar issue of the response is kept as often as it occurs. */
  lemma SonarDiagnosticsCounts(response: JsonMessage)
    ensures forall d ::
      multiset(SonarDiagnostics(response))[d]
      == if IsSonarIssue(d) then multiset(Seqs.Map(response.body.quickFixes, ToDiagnostic))[d] else 0
  {
    SonarIssuesAreFiltered(response.body.quickFixes);
    Seqs.FilterCounts(Seqs.Map(response.body.quickFixes, ToDiagnostic), IsSonarIssue);
  }

  /** The issues of a response read one by one; `SonarIssuesAreFiltered`
      shows this is the filter of the converted issues. */
  function SonarIssues(quickFixes: seq<JsonIssue>): seq<Diagnostic> {
    if |quickFixes| == 0 then []
    else
      var d := ToDiagnostic(quickFixes[0]);
      (if IsSonarIssue(d) then [d] else []) + SonarIssues(quickFixes[1..])
  }

  lemma {:induction false} SonarIssuesAreFiltered(quickFixes: seq<JsonIssue>)
    ensures SonarIssues(quickFixes) == Seqs.Filter(Seqs.Map(quickFixes, ToDiagnostic), IsSonarIssue)
  {
    if |quickFixes| > 0 {
      SonarIssuesAreFiltered(quickFixes[1..]);
      Seqs.MapCons(quickFixes[0], quickFixes[1..], ToDiagnostic);
      assert quickFixes == [quickFixes[0]] + quickFixes[1..];
    }
  }

  /** `codeCheck(f, handler)`: what the handler receives. */
  function CodeCheck(e: Endpoints, filePath: string, accepted: bool, output: seq<OutputLine>): (r: (Exchange, Result<seq<Diagnostic>>))
    requires Valid(e)
    ensures r.0 == DoRequestAndWaitForResponse(e, "/sonarlint/codecheck", FileArguments(filePath), accepted, output)
    ensures r.1.Success? <==> r.0.result.Success?
    ensures r.1.Failure? ==> r.1.error == r.0.result.error
    ensures r.1.Success? ==> r.1.value == SonarDiagnostics(r.0.result.value)
    ensures r.1.Success? ==> accepted && r.1.value == SonarDiagnostics(LastResponse(output, e.nextId).value)
  {
    var exchange := DoRequestAndWaitForResponse(e, "/sonarlint/codecheck", FileArguments(filePath), accepted, output);
    match exchange.result
    case Success(response) => (exchange, Success(SonarDiagnostics(response)))
    case Failure(error) => (exchange, Failure(error))
  }

  function Config(e: Endpoints, config: SensorRules.ConfigJson, accepted: bool, output: seq<OutputLine>): (r: Exchange)
    requires Valid(e)
    ensures r.request.command == "/sonarlint/config" && r.request.arguments == ConfigArguments(config)
    ensures r.request.seqNo == e.nextId && r.endpoints.nextId == e.nextId + 1
  {
    DoRequestAndWaitForResponse(e, "/sonarlint/config", ConfigArguments(config), accepted, output)
  }

  function FileChanged(e: Endpoints, filePath: string, changeType: FileChangeType, accepted: bool, output: seq<OutputLine>)
    : (r: Exchange)
    requires Valid(e)
    ensures r.request.command == "/filesChanged"
    ensures r.request.arguments == FileChangesArguments([(filePath, changeType.ProtocolValue())])
    ensures r.request.seqNo == e.nextId && r.endpoints.nextId == e.nextId + 1
  {
    DoRequestAndWaitForResponse(e, "/filesChanged", FileChangesArguments([(filePath, changeType.ProtocolValue())]), accepted, output)
  }

  function UpdateBuffer(e: Endpoints, filePath: string, buffer: string, accepted: bool, output: seq<OutputLine>)
    : (r: Exchange)
    requires Valid(e)
    ensures r.request.command == "/updatebuffer" && r.request.arguments == BufferArguments(filePath, buffer)
    ensures r.request.seqNo == e.nextId && r.endpoints.nextId == e.nextId + 1
  {
    DoRequestAndWaitForResponse(e, "/updatebuffer", BufferArguments(filePath, buffer), accepted, output)
  }

  /** `stopServer`: the request is numbered and written, but no handler is
      registered and nothing is awaited, so a refused write goes
      unnoticed. */
  function StopServer(e: Endpoints): (r: (Endpoints, Request))
    ensures r.0 == Endpoints(e.nextId + 1, e.registry)
    ensures r.1 == BuildRequest("/stopserver", NoArguments, e.nextId)
  {
    (Endpoints(e.nextId + 1, e.registry), BuildRequest("/stopserver", NoArguments, e.nextId))
  }

  /** A call on the endpoints, with what the server and OmniSharp do during
      it. */
  datatype Call =
    | WaitingCall(command: string, arguments: Arguments, accepted: bool, output: seq<OutputLine>)
    | StopServerCall

  /** The requests a sequence of calls builds, whether or not they throw. */
  function Run(e: Endpoints, calls: seq<Call>): (r: (Endpoints, seq<Request>))
    requires Valid(e)
    ensures Valid(r.0) && |r.1| == |calls|
    decreases |calls|
  {
    if |calls| == 0 then (e, [])
    else
      var (next, request) :=
        match calls[0]
        case WaitingCall(command, arguments, accepted, output) =>
          var x := DoRequestAndWaitForResponse(e, command, arguments, accepted, output);
          (x.endpoints, x.request)
        case StopServerCall => StopServer(e);
      var rest := Run(next, calls[1..]);
      (rest.0, [request] + rest.1)
  }

  /** Sequence numbers start at 1 and every request, waiting or not, takes
      the next one; no handler outlives its request. */
  lemma {:induction false} RunNumbersRequests(e: Endpoints, calls: seq<Call>)
    requires Valid(e)
    ensures var (last, requests) := Run(e, calls);
      && (forall i :: 0 <= i < |requests| ==> requests[i].seqNo == e.nextId + i && requests[i].requestType == "request")
      && last.nextId == e.nextId + |calls|
      && last.registry.Keys == e.registry.Keys
    decreases |calls|
  {
    if |calls| > 0 {
      var next :=
        match calls[0]
        case WaitingCall(command, arguments, accepted, output) =>
          DoRequestAndWaitForResponse(e, command, arguments, accepted, output).endpoints
        case StopServerCall => StopServer(e).0;
      RunNumbersRequests(next, calls[1..]);
    }
  }

  lemma FreshEndpointsNumberFromOne(calls: seq<Call>)
    ensures var (last, requests) := Run(NewEndpoints, calls);
      (forall i :: 0 <= i < |requests| ==> requests[i].seqNo == i + 1) && last.registry == map[]
  {
    RunNumbersRequests(NewEndpoints, calls);
  }
}
