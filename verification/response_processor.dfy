/** What the Java client does with each line OmniSharp prints on its
    standard output: lines that are not JSON are logged, responses are
    handed to the handler registered under their request sequence number,
    and events release the start and first-project-update signals or are
    logged. The registry of pending response handlers lives here too. */
module ResponseProcessor {
  import opened Wrappers
  import opened Strings

  /** A location as OmniSharp serialises it. `Text` may be absent or JSON
      null; the other members are read unconditionally. */
  datatype JsonText = Absent | JsonNull | Text(value: string)

  datatype JsonLocation = JsonLocation(
    fileName: string, line: int, column: int, endLine: int, endColumn: int, text: JsonText)

  /** One element of a code-check response's `QuickFixes` array. */
  datatype JsonIssue = JsonIssue(
    id: string, location: JsonLocation, additionalLocations: Option<seq<JsonLocation>>)

  /** A location as the client holds it after reading the JSON: `text` is
      null both when the member is absent and when it is JSON null. */
  datatype Location = Location(
    fileName: string, line: int, column: int, endLine: int, endColumn: int, text: Option<string>)

  /** A diagnostic as the client holds it; `additionalLocations` is null
      when the member is absent. */
  datatype Diagnostic = Diagnostic(id: string, location: Location, additionalLocations: Option<seq<Location>>)

  /** `getAsStringOrNull`. */
  function TextOrNull(text: JsonText): (r: Option<string>)
    ensures r.None? <==> text.Absent? || text.JsonNull?
    ensures r.Some? ==> text == Text(r.value)
  {
    match text
    case Text(value) => Some(value)
    case _ => None
  }

  /** `processLocation`: the members copied as they are. */
  function ToLocation(l: JsonLocation): (r: Location)
    ensures r.text == TextOrNull(l.text)
  {
    Location(l.fileName, l.line, l.column, l.endLine, l.endColumn, TextOrNull(l.text))
  }

  /** The additional locations, in JSON order. */
  function ToLocations(ls: seq<JsonLocation>): (r: seq<Location>)
    ensures |r| == |ls|
    ensures forall i :: 0 <= i < |ls| ==> r[i] == ToLocation(ls[i])
  {
    seq(|ls|, i requires 0 <= i < |ls| => ToLocation(ls[i]))
  }

  /** Reading one element of `QuickFixes`. */
  function ToDiagnostic(issue: JsonIssue): (d: Diagnostic)
    ensures d.id == issue.id && d.location == ToLocation(issue.location)
    ensures d.additionalLocations.Some? <==> issue.additionalLocations.Some?
    ensures d.additionalLocations.Some? ==> d.additionalLocations.value == ToLocations(issue.additionalLocations.value)
  {
    Diagnostic(issue.id, ToLocation(issue.location),
      match issue.additionalLocations
      case Some(ls) => Some(ToLocations(ls))
      case None => None)
  }

  /** The only information lost in reading a location is the difference
      between an absent and a null `Text`. */
  lemma ToLocationInjective(a: JsonLocation, b: JsonLocation)
    requires ToLocation(a) == ToLocation(b)
    ensures a.(text := Absent) == b.(text := Absent)
    ensures a.text.Text? ==> a.text == b.text
  {
  }

  /** Code-check responses only forward SonarC# diagnostics. */
  predicate IsSonarIssue(d: Diagnostic) {
    StartsWith(d.id, "S")
  }

  /** The `Body` member, as far as the client reads it. */
  datatype Body = Body(logLevel: string, message: string, quickFixes: seq<JsonIssue>)

  /** A parsed output line: its `Type`, `Request_seq`, `Event` and `Body`
      members (the latter three only read for the types that have them). */
  datatype JsonMessage = JsonMessage(messageType: string, requestSeq: int, event: string, body: Body)

  /** A line of output and its parse; `None` when the line is not a JSON
      object. Parsing is done by the JSON library and is not modelled. */
  datatype OutputLine = OutputLine(text: string, parsed: Option<JsonMessage>)

  /** A pending request: the response once it arrived and the count of its
      one-shot latch. */
  datatype Handler = Handler(response: Option<JsonMessage>, latch: nat)

  const FreshHandler := Handler(None, 1)

  /** Pending handlers by request sequence number. */
  type Registry = map<int, Handler>

  /** Every handler is fresh or has received its response. */
  ghost predicate WellFormed(registry: Registry) {
    forall id :: id in registry ==> registry[id].latch <= 1 && (registry[id].latch == 0 <==> registry[id].response.Some?)
  }

  /** `registerResponseHandler(id)`: a fresh handler under `id`. */
  function Register(registry: Registry, id: int): (r: Registry)
    ensures r.Keys == registry.Keys + {id}
    ensures r[id] == FreshHandler
    ensures forall k :: k in registry && k != id ==> r[k] == registry[k]
    ensures WellFormed(registry) ==> WellFormed(r)
  {
    registry[id := FreshHandler]
  }

  /** `removeResponseHandler(id)`. */
  function Remove(registry: Registry, id: int): (r: Registry)
    ensures r.Keys == registry.Keys - {id}
    ensures forall k :: k in r ==> r[k] == registry[k]
    ensures WellFormed(registry) ==> WellFormed(r)
  {
    registry - {id}
  }

  /** Registering and then removing an id that was not pending leaves the
      registry as it was. */
  lemma RegisterRemove(registry: Registry, id: int)
    requires id !in registry
    ensures Remove(Register(registry, id), id) == registry
  {
  }

  /** The signals the server controller waits for. */
  datatype Signal = StartSignal | FirstProjectUpdateSignal

  /** What processing a line did, besides updating the registry. */
  datatype Reaction =
    | LogDebug(text: string)
    | Release(signal: Signal)
    | Delivered(id: int)
    | Ignored

  /** `CountDownLatch.countDown`: a latch at zero stays at zero. */
  function CountDown(latch: nat): nat {
    if latch > 0 then latch - 1 else 0
  }

  const ProjectEvents := {"ProjectAdded", "ProjectChanged", "ProjectRemoved"}

  /** `handleLog` of this processor: the body's level and message at debug
      level. */
  function LogLine(body: Body): Reaction {
    LogDebug("Omnisharp: [" + body.logLevel + "] " + body.message)
  }

  /** `handleJsonMessage`, shared with the older protocol class, which
      differs only in how it logs a `log` event. */
  function HandleJsonMessage(registry: Registry, line: string, msg: JsonMessage, logLine: Body -> Reaction)
    : (r: (Registry, Reaction))
    ensures r.0.Keys == registry.Keys
    ensures msg.messageType == "response" && msg.requestSeq in registry ==>
      r == (registry[msg.requestSeq := Handler(Some(msg), CountDown(registry[msg.requestSeq].latch))], Delivered(msg.requestSeq))
    ensures msg.messageType == "response" && msg.requestSeq !in registry ==> r == (registry, Ignored)
    ensures msg.messageType != "response" ==> r.0 == registry
    ensures msg.messageType != "response" && msg.messageType != "event" ==> r.1 == LogDebug(line)
    ensures msg.messageType == "event" ==>
      r.1 == (if msg.event == "log" then logLine(msg.body)
              else if msg.event == "started" then Release(StartSignal)
              else if msg.event in ProjectEvents then Release(FirstProjectUpdateSignal)
              else if msg.event == "Diagnostic" then Ignored
              else LogDebug(line))
  {
    match msg.messageType
    case "response" =>
      var id := msg.requestSeq;
      if id in registry then
        (registry[id := Handler(Some(msg), CountDown(registry[id].latch))], Delivered(id))
      else (registry, Ignored)
    case "event" =>
      var reaction :=
        match msg.event
        case "log" => logLine(msg.body)
        case "started" => Release(StartSignal)
        case "ProjectAdded" => Release(FirstProjectUpdateSignal)
        case "ProjectChanged" => Release(FirstProjectUpdateSignal)
        case "ProjectRemoved" => Release(FirstProjectUpdateSignal)
        case "Diagnostic" => Ignored
        case _ => LogDebug(line);
      (registry, reaction)
    case _ => (registry, LogDebug(line))
  }

  /** `handleOmnisharpOutput` with a parameterised log handler. */
  function HandleLine(registry: Registry, line: OutputLine, logLine: Body -> Reaction): (r: (Registry, Reaction))
    ensures line.parsed.None? ==> r == (registry, LogDebug(line.text))
    ensures line.parsed.Some? ==> r == HandleJsonMessage(registry, line.text, line.parsed.value, logLine)
  {
    match line.parsed
    case None => (registry, LogDebug(line.text))
    case Some(msg) => HandleJsonMessage(registry, line.text, msg, logLine)
  }

  /** `handleOmnisharpOutput` of this processor. */
  function HandleOmnisharpOutput(registry: Registry, line: OutputLine): (r: (Registry, Reaction))
    ensures r.0.Keys == registry.Keys
    ensures WellFormed(registry) ==> WellFormed(r.0)
    ensures r.1.Release? ==> line.parsed.Some? && line.parsed.value.messageType == "event"
    ensures r.1.Release? && r.1.signal == StartSignal <==>
      line.parsed.Some? && line.parsed.value.messageType == "event" && line.parsed.value.event == "started"
    ensures forall id :: id in registry && id in r.0 && r.0[id] != registry[id] ==> IsResponseTo(line, id)
  {
    HandleLine(registry, line, LogLine)
  }

  /** A line that is the response to request `id`. */
  predicate IsResponseTo(line: OutputLine, id: int) {
    line.parsed.Some? && AnswersTo(line.parsed.value, id)
  }

  predicate AnswersTo(msg: JsonMessage, id: int) {
    msg.messageType == "response" && msg.requestSeq == id
  }

  /** The registry after a sequence of lines. */
  function HandleLines(registry: Registry, lines: seq<OutputLine>): (r: Registry)
    ensures r.Keys == registry.Keys
    ensures WellFormed(registry) ==> WellFormed(r)
    decreases |lines|
  {
    if |lines| == 0 then registry
    else HandleLines(HandleOmnisharpOutput(registry, lines[0]).0, lines[1..])
  }

  /** A pending request is released exactly when one of the lines is its
      response; until then its handler is untouched. */
  lemma {:induction false} HandleLinesAnswers(registry: Registry, lines: seq<OutputLine>, id: int)
    requires id in registry && registry[id] == FreshHandler
    ensures var h := HandleLines(registry, lines)[id];
      && (h.latch == 0 <==> exists i :: 0 <= i < |lines| && IsResponseTo(lines[i], id))
      && (h.latch == 1 ==> h == FreshHandler)
      && (h.latch == 0 ==> h.response.Some?)
      && (h.response.Some? ==> AnswersTo(h.response.value, id))
    decreases |lines|
  {
    if |lines| > 0 {
      var next := HandleOmnisharpOutput(registry, lines[0]).0;
      if IsResponseTo(lines[0], id) {
        assert next[id] == Handler(lines[0].parsed, 0);
        AnsweredStaysAnswered(next, lines[1..], id);
      } else {
        assert next[id] == FreshHandler;
        HandleLinesAnswers(next, lines[1..], id);
        forall i | 1 <= i < |lines| ensures lines[i] == lines[1..][i - 1] { }
      }
    }
  }

  /** Once answered, a handler stays answered. */
  lemma {:induction false} AnsweredStaysAnswered(registry: Registry, lines: seq<OutputLine>, id: int)
    requires id in registry && registry[id].latch == 0 && registry[id].response.Some?
    requires AnswersTo(registry[id].response.value, id)
    ensures HandleLines(registry, lines)[id].latch == 0
    ensures HandleLines(registry, lines)[id].response.Some?
    ensures AnswersTo(HandleLines(registry, lines)[id].response.value, id)
    decreases |lines|
  {
    if |lines| > 0 {
      AnsweredStaysAnswered(HandleOmnisharpOutput(registry, lines[0]).0, lines[1..], id);
    }
  }

  /** The response to request `id` that a handler holds after `lines`: each
      response overwrites the one before, so it is the last line answering
      `id`. */
  function LastResponse(lines: seq<OutputLine>, id: int): (r: Option<JsonMessage>)
    ensures r.Some? <==> exists i :: 0 <= i < |lines| && IsResponseTo(lines[i], id)
    ensures r.Some? ==> AnswersTo(r.value, id)
    decreases |lines|
  {
    if |lines| == 0 then None
    else
      var rest := LastResponse(lines[1..], id);
      assert forall j :: 1 <= j < |lines| ==> lines[j] == lines[1..][j - 1];
      if rest.Some? then rest
      else if IsResponseTo(lines[0], id) then lines[0].parsed
      else None
  }

  /** The response kept is that of a line no later line overrides. */
  lemma {:induction false} LastResponseIsLast(lines: seq<OutputLine>, id: int)
    requires LastResponse(lines, id).Some?
    ensures exists i ::
      && 0 <= i < |lines|
      && lines[i].parsed == LastResponse(lines, id)
      && forall j :: i < j < |lines| ==> !IsResponseTo(lines[j], id)
    decreases |lines|
  {
    var rest := LastResponse(lines[1..], id);
    if rest.Some? {
      LastResponseIsLast(lines[1..], id);
      var i :| 0 <= i < |lines[1..]| && lines[1..][i].parsed == rest &&
        forall j :: i < j < |lines[1..]| ==> !IsResponseTo(lines[1..][j], id);
      assert lines[i + 1].parsed == rest;
      forall j | i + 1 < j < |lines|
        ensures !IsResponseTo(lines[j], id)
      {
        assert lines[j] == lines[1..][j - 1];
      }
    } else {
      forall j | 0 < j < |lines|
        ensures !IsResponseTo(lines[j], id)
      {
        assert lines[j] == lines[1..][j - 1];
      }
    }
  }

  /** A registered handler ends up with the last response to its id, or
      keeps what it had when no line answers it. */
  lemma {:induction false} HandlerKeepsLastResponse(registry: Registry, lines: seq<OutputLine>, id: int)
    requires id in registry
    ensures HandleLines(registry, lines)[id].response ==
      if LastResponse(lines, id).Some? then LastResponse(lines, id) else registry[id].response
    decreases |lines|
  {
    if |lines| > 0 {
      var next := HandleOmnisharpOutput(registry, lines[0]).0;
      assert next[id].response == if IsResponseTo(lines[0], id) then lines[0].parsed else registry[id].response;
      HandlerKeepsLastResponse(next, lines[1..], id);
    }
  }

  /** Lines that are not JSON leave the registry alone and are logged
      verbatim. */
  lemma NonJsonLineOnlyLogged(registry: Registry, text: string)
    ensures HandleOmnisharpOutput(registry, OutputLine(text, None)) == (registry, LogDebug(text))
  {
  }
}
