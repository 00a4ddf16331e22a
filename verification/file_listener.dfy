/** `OmnisharpFileListener`: how the client reacts to files of the module
    being created, deleted or modified while OmniSharp runs. A new solution
    or project, or a modified solution, stops the server so that the next
    analysis restarts it on the new structure; any other change is
    forwarded to OmniSharp as a file change. */
module FileListener {
  import opened Strings
  import Endpoints
  import OmnisharpProtocol
  import ResponseProcessor

  datatype EventType = Created | Deleted | Modified | OtherEvent

  /** A module file event: its type and the target file's absolute path. */
  datatype FileEvent = FileEvent(eventType: EventType, path: string)

  /** What processing the event asks of the server or the protocol. */
  datatype Action =
    | NoAction
    | StopServer
    | FileChanged(path: string, changeType: Endpoints.FileChangeType)

  /** A created file restarts the server when it is a solution or a
      project. */
  predicate IsStructureFile(name: string) {
    EndsWith(name, ".sln") || EndsWith(name, ".csproj")
  }

  /** `process`. */
  function Process(omnisharpStarted: bool, event: FileEvent): (r: Action)
    ensures !omnisharpStarted ==> r == NoAction
    ensures r == NoAction <==> !omnisharpStarted || event.eventType == OtherEvent
    ensures r == StopServer <==>
      && omnisharpStarted
      && match event.eventType
         case Created => IsStructureFile(FileName(event.path))
         case Modified => EndsWith(FileName(event.path), ".sln")
         case _ => false
    ensures r.FileChanged? ==> r.path == event.path
    ensures r.FileChanged? ==>
      match event.eventType
      case Created => r.changeType == Endpoints.Create
      case Deleted => r.changeType == Endpoints.Delete
      case Modified => r.changeType == Endpoints.Change
      case OtherEvent => false
  {
    if !omnisharpStarted then NoAction
    else
      var name := FileName(event.path);
      match event.eventType
      case Created => if IsStructureFile(name) then StopServer else FileChanged(event.path, Endpoints.Create)
      case Deleted => FileChanged(event.path, Endpoints.Delete)
      case Modified => if EndsWith(name, ".sln") then StopServer else FileChanged(event.path, Endpoints.Change)
      case OtherEvent => NoAction
  }

  /** The request a forwarded change sends, as `fileChanged` builds it. */
  function ChangeRequest(action: Action, id: int): (r: Endpoints.Request)
    requires action.FileChanged?
    ensures r.seqNo == id && r.command == "/filesChanged"
    ensures r.arguments.FileChangesArguments? && |r.arguments.changes| == 1
    ensures r.arguments.changes[0] == (action.path, action.changeType.ProtocolValue())
  {
    Endpoints.BuildRequest("/filesChanged", Endpoints.FileChangesArguments([(action.path, action.changeType.ProtocolValue())]), id)
  }

  /** The name a forwarded event's change goes by on the wire. */
  function WireChangeName(eventType: EventType): string {
    match eventType
    case Created => "Create"
    case Deleted => "Delete"
    case Modified => "Change"
    case OtherEvent => ""
  }

  /** A forwarded event sends, as the next request of the protocol, one
      `/filesChanged` entry naming the event's path and its kind of
      change. */
  lemma ForwardedEventIsSent(event: FileEvent, p: OmnisharpProtocol.Protocol, output: seq<ResponseProcessor.OutputLine>)
    requires OmnisharpProtocol.Valid(p)
    requires Process(true, event).FileChanged?
    ensures var action := Process(true, event);
      var x := OmnisharpProtocol.FileChanged(p, action.path, action.changeType, output);
      && x.request == ChangeRequest(action, p.nextId)
      && x.request.arguments.changes == [(event.path, WireChangeName(event.eventType))]
      && x.protocol.nextId == p.nextId + 1
  {
    var action := Process(true, event);
    var x := OmnisharpProtocol.FileChanged(p, action.path, action.changeType, output);
    assert x.request == Endpoints.BuildRequest(x.request.command, x.request.arguments, p.nextId);
  }

  /** A suffix without separator can be tested on the whole path as well as
      on the file name. */
  lemma FileNameSuffix(p: string, suffix: string)
    requires HasNoSeparator(suffix)
    ensures EndsWith(FileName(p), suffix) <==> EndsWith(p, suffix)
  {
    var r := FileName(p);
    if EndsWith(p, suffix) && |r| < |suffix| {
      assert false;
    }
    if EndsWith(p, suffix) {
      assert r[|r| - |suffix|..] == p[|p| - |suffix|..];
    }
    if EndsWith(r, suffix) {
      assert p[|p| - |suffix|..] == r[|r| - |suffix|..];
    }
  }

  /** Deletions are always forwarded, even of a solution or a project. */
  lemma DeletionNeverStops(path: string)
    ensures Process(true, FileEvent(Deleted, path)) == FileChanged(path, Endpoints.Delete)
  {
  }

  /** Only the creation of a project stops the server; its modification is
      forwarded as a change. Which events stop the server depends on the
      path's suffix alone. */
  lemma ProjectFileEvents(path: string)
    requires EndsWith(path, ".csproj")
    ensures Process(true, FileEvent(Created, path)) == StopServer
    ensures Process(true, FileEvent(Modified, path)) == FileChanged(path, Endpoints.Change)
  {
    var name := FileName(path);
    FileNameSuffix(path, ".csproj");
    FileNameSuffix(path, ".sln");
    ProjectIsNotSolution(path);
    assert IsStructureFile(name) && !EndsWith(name, ".sln");
  }

  lemma ProjectIsNotSolution(path: string)
    requires EndsWith(path, ".csproj")
    ensures !EndsWith(path, ".sln")
  {
    assert path[|path| - 1] == path[|path| - 7..][6] == 'j';
  }

  /** A solution stops the server both when created and when modified. */
  lemma SolutionFileEvents(path: string)
    requires EndsWith(path, ".sln")
    ensures Process(true, FileEvent(Created, path)) == StopServer
    ensures Process(true, FileEvent(Modified, path)) == StopServer
  {
    FileNameSuffix(path, ".sln");
  }
}
