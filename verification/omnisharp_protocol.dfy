/** `OmnisharpProtocol`, the older client of the Java plugin. It keeps its
    own sequence numbers and response handlers, reads OmniSharp's output
    itself, and writes to the process's standard input directly. It differs
    from the newer endpoints and response processor in three ways: `log`
    events whose message mentions `SonarLint.xml"` are dropped, a request
    sent after the input stream was cleared is only warned about and then
    waited for, and the timeout message names the request. */
module OmnisharpProtocol {
  import opened Wrappers
  import opened Strings
  import opened ResponseProcessor
  import Endpoints

  /** Messages of the analyzers' flooding bug carry this text. */
  const FloodMarker := "SonarLint.xml\""

  /** `handleLog` of this class. */
  function ProtocolLogLine(body: Body): (r: Reaction)
    ensures r == Ignored <==> Contains(body.message, FloodMarker)
    ensures !Contains(body.message, FloodMarker) ==> r == LogLine(body)
  {
    if Contains(body.message, FloodMarker) then Ignored else LogLine(body)
  }

  /** `processLine` of the output stream handler. */
  function HandleProtocolOutput(registry: Registry, line: OutputLine): (r: (Registry, Reaction))
    ensures r.0.Keys == registry.Keys
  {
    HandleLine(registry, line, ProtocolLogLine)
  }

  /** The log predicate only changes the reaction: the registry evolves as
      under the newer response processor, and so does every reaction but
      that to a flooding `log` event. */
  lemma ProtocolAgreesWithProcessor(registry: Registry, line: OutputLine)
    ensures HandleProtocolOutput(registry, line).0 == HandleOmnisharpOutput(registry, line).0
    ensures HandleProtocolOutput(registry, line).1 != HandleOmnisharpOutput(registry, line).1 <==>
      && line.parsed.Some?
      && line.parsed.value.messageType == "event"
      && line.parsed.value.event == "log"
      && Contains(line.parsed.value.body.message, FloodMarker)
  {
    if line.parsed.Some? {
      var msg := line.parsed.value;
      var body := msg.body;
      if msg.messageType == "event" && msg.event == "log" {
        assert LogLine(body) != Ignored;
      }
    }
  }

  /** The registry after a sequence of lines. */
  function HandleProtocolLines(registry: Registry, lines: seq<OutputLine>): (r: Registry)
    ensures r.Keys == registry.Keys
    decreases |lines|
  {
    if |lines| == 0 then registry
    else HandleProtocolLines(HandleProtocolOutput(registry, lines[0]).0, lines[1..])
  }

  lemma {:induction false} ProtocolLinesAgreeWithProcessor(registry: Registry, lines: seq<OutputLine>)
    ensures HandleProtocolLines(registry, lines) == HandleLines(registry, lines)
    decreases |lines|
  {
    if |lines| > 0 {
      ProtocolAgreesWithProcessor(registry, lines[0]);
      ProtocolLinesAgreeWithProcessor(HandleProtocolOutput(registry, lines[0]).0, lines[1..]);
    }
  }

  /** The protocol's state: the next sequence number, the pending handlers,
      and whether the process's standard input is set. */
  datatype Protocol = Protocol(nextId: int, registry: Registry, stdInSet: bool)

  const NewProtocol := Protocol(1, map[], false)

  predicate Valid(p: Protocol) {
    forall id :: id in p.registry ==> id < p.nextId
  }

  /** `setOmnisharpProcessStdIn`: set when the process starts, cleared when
      it stops. */
  function SetStdIn(p: Protocol, isSet: bool): (r: Protocol)
    ensures r.stdInSet == isSet && r.nextId == p.nextId && r.registry == p.registry
  {
    p.(stdInSet := isSet)
  }

  const StoppedWarning := "Unable to write request, server has been stopped"

  /** `writeRequest`: the request is written when the input stream is set,
      otherwise a warning is logged and nothing is thrown. */
  function WriteRequest(p: Protocol, request: Endpoints.Request): (r: (bool, Option<string>))
    ensures r.0 <==> p.stdInSet
    ensures r.1 == Some(StoppedWarning) <==> !p.stdInSet
  {
    if p.stdInSet then (true, None) else (false, Some(StoppedWarning))
  }

  /** One waiting request of this class. */
  datatype Exchange = Exchange(
    protocol: Protocol, request: Endpoints.Request, written: bool, warning: Option<string>, result: Result<JsonMessage>)

  /** The error a request that gets no response within the timeout throws. */
  function TimeoutError(command: string): Error {
    IllegalStateException("Timeout waiting for request: " + command)
  }

  /** `doRequestAndWaitForResponse`: `output` is what OmniSharp prints
      while the client waits: up to the first line answering the request,
      which releases the wait, or up to the one-minute timeout. */
  function DoRequestAndWaitForResponse(p: Protocol, command: string, arguments: Endpoints.Arguments, output: seq<OutputLine>)
    : (r: Exchange)
    requires Valid(p)
    ensures r.request == Endpoints.BuildRequest(command, arguments, p.nextId)
    ensures r.protocol.nextId == p.nextId + 1 && r.protocol.stdInSet == p.stdInSet && Valid(r.protocol)
    ensures r.protocol.registry.Keys == p.registry.Keys
    ensures r.protocol.registry == HandleProtocolLines(p.registry, output)
    ensures r.written <==> p.stdInSet
    ensures r.warning.Some? <==> !p.stdInSet
    ensures r.result.Success? <==> exists i :: 0 <= i < |output| && IsResponseTo(output[i], p.nextId)
    ensures r.result.Failure? ==> r.result.error == TimeoutError(command)
    ensures r.result.Success? ==> AnswersTo(r.result.value, p.nextId)
    ensures r.result.Success? <==> LastResponse(output, p.nextId).Some?
    ensures r.result.Success? ==> r.result.value == LastResponse(output, p.nextId).value
  {
    var id := p.nextId;
    var request := Endpoints.BuildRequest(command, arguments, id);
    var (written, warning) := WriteRequest(p, request);
    ProtocolLinesAgreeWithProcessor(p.registry, output);
    var (registry, result) := Endpoints.AwaitResponse(p.registry, id, TimeoutError(command).message, output);
    Exchange(Protocol(id + 1, registry, p.stdInSet), request, written, warning, result)
  }

  /** `fileChanged`: one `/filesChanged` entry with the file's path and the
      change type's protocol value, then the wait for its response. */
  function FileChanged(p: Protocol, filePath: string, changeType: Endpoints.FileChangeType, output: seq<OutputLine>)
    : (r: Exchange)
    requires Valid(p)
    ensures r.request.seqNo == p.nextId && r.request.command == "/filesChanged"
    ensures r.request.arguments == Endpoints.FileChangesArguments([(filePath, changeType.ProtocolValue())])
    ensures r.protocol.nextId == p.nextId + 1 && r.protocol.registry.Keys == p.registry.Keys
    ensures r.result.Failure? <==> LastResponse(output, p.nextId).None?
  {
    DoRequestAndWaitForResponse(p, "/filesChanged", Endpoints.FileChangesArguments([(filePath, changeType.ProtocolValue())]), output)
  }

  /** Against a stopped server the two clients differ: this one waits for
      the timeout, the newer endpoints fail as soon as the write is
      refused. Both number the request alike and leave no handler behind. */
  lemma StoppedServerTimesOut(p: Protocol, command: string, arguments: Endpoints.Arguments, output: seq<OutputLine>)
    requires Valid(p) && !p.stdInSet
    requires forall i :: 0 <= i < |output| ==> !IsResponseTo(output[i], p.nextId)
    ensures var x := DoRequestAndWaitForResponse(p, command, arguments, output);
      var y := Endpoints.DoRequestAndWaitForResponse(Endpoints.Endpoints(p.nextId, p.registry), command, arguments, false, output);
      && x.result == Failure(TimeoutError(command))
      && y.result == Failure(IllegalStateException("Unable to send request to the OmniSharp server: " + command))
      && x.request == y.request
      && x.protocol.registry.Keys == y.endpoints.registry.Keys
  {
  }

  /** `codeCheck`: the diagnostics handed to the consumer, read as the
      newer endpoints read them. */
  function CodeCheck(p: Protocol, filePath: string, output: seq<OutputLine>): (r: (Exchange, Result<seq<Diagnostic>>))
    requires Valid(p)
    ensures r.0 == DoRequestAndWaitForResponse(p, "/sonarlint/codecheck", Endpoints.FileArguments(filePath), output)
    ensures r.1.Success? <==> r.0.result.Success?
    ensures r.1.Failure? ==> r.1.error == r.0.result.error
    ensures r.1.Success? ==> forall d :: d in r.1.value <==>
      IsSonarIssue(d) && exists i :: 0 <= i < |r.0.result.value.body.quickFixes| && d == ToDiagnostic(r.0.result.value.body.quickFixes[i])
    ensures r.1.Success? <==> LastResponse(output, p.nextId).Some?
    ensures r.1.Success? ==> r.1.value == Endpoints.SonarDiagnostics(LastResponse(output, p.nextId).value)
  {
    var exchange := DoRequestAndWaitForResponse(p, "/sonarlint/codecheck", Endpoints.FileArguments(filePath), output);
    match exchange.result
    case Success(response) => (exchange, Success(Endpoints.SonarDiagnostics(response)))
    case Failure(error) => (exchange, Failure(error))
  }

  /** `stopServer`: numbered and written, never registered or awaited. */
  function StopServer(p: Protocol): (r: (Protocol, Endpoints.Request, bool))
    ensures r.0 == p.(nextId := p.nextId + 1)
    ensures r.1 == Endpoints.BuildRequest("/stopserver", Endpoints.NoArguments, p.nextId)
    ensures r.2 <==> p.stdInSet
  {
    var request := Endpoints.BuildRequest("/stopserver", Endpoints.NoArguments, p.nextId);
    (p.(nextId := p.nextId + 1), request, WriteRequest(p, request).0)
  }
}
