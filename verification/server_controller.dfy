/** `OmnisharpServerController`: the lifecycle of the OmniSharp process.
    A small state machine holds the server state and the two futures
    clients wait on (OmniSharp started, projects loaded); `lazyStart`
    (re)starts the server when needed and waits for it, `stopServer` asks it
    to stop, and requests are only written while it runs. Futures are
    values here: pending, done, failed with a cause, or cancelled. */
module ServerController {
  import opened Wrappers
  import ResponseProcessor
  import Endpoints
  import CommandBuilder

  datatype ServerState = ProcessStarted | OmnisharpStarted | Stopping | Stopped

  /** Why a future failed. */
  datatype Cause =
    | NotStarted                     // "OmniSharp not started"
    | TerminatedUnexpectedly         // "Process terminated unexpectedly"
    | StartupTimeout                 // the future's own timeout
    | LaunchError(message: string)   // the process could not be started
  {
    function Message(): string {
      match this
      case NotStarted => "OmniSharp not started"
      case TerminatedUnexpectedly => "Process terminated unexpectedly"
      case StartupTimeout => ""
      case LaunchError(message) => message
    }
  }

  datatype Future = Pending | Done | Failed(cause: Cause) | Cancelled

  /** `complete`, `completeExceptionally` and `cancel` only affect a pending
      future. */
  function Complete(f: Future, outcome: Future): (r: Future)
    ensures f.Pending? ==> r == outcome
    ensures !f.Pending? ==> r == f
  {
    if f.Pending? then outcome else f
  }

  /** `ServerStateMachine`. */
  datatype Machine = Machine(state: ServerState, startFuture: Future, loadProjectsFuture: Future)

  /** A new state machine: stopped, and both futures failed as not
      started. */
  const InitialMachine := Machine(Stopped, Failed(NotStarted), Failed(NotStarted))

  /** The server counts as started only with its start future done; a done
      start future means the server started (and may be stopping since);
      nothing is pending on a stopped server. */
  predicate Valid(m: Machine) {
    && (m.state == OmnisharpStarted ==> m.startFuture == Done)
    && (m.startFuture == Done ==> m.state == OmnisharpStarted || m.state == Stopping)
    && (m.state == Stopped ==> !m.startFuture.Pending? && !m.loadProjectsFuture.Pending?)
  }

  /** `processStarted`: fresh futures, waiting for OmniSharp. */
  function OnProcessStarted(m: Machine): (r: Machine)
    ensures r.state == ProcessStarted && r.startFuture.Pending? && r.loadProjectsFuture.Pending?
    ensures Valid(r)
  {
    Machine(ProcessStarted, Pending, Pending)
  }

  /** `processStartFailed`: both futures fail with the launch error and the
      server is stopped again. */
  function OnProcessStartFailed(m: Machine, message: string): (r: Machine)
    ensures r.state == Stopped
    ensures r.startFuture == r.loadProjectsFuture == Failed(LaunchError(message))
    ensures Valid(r)
  {
    Machine(Stopped, Failed(LaunchError(message)), Failed(LaunchError(message)))
  }

  /** The `started` event completes the start future, which marks OmniSharp
      as started. */
  function OnStartSignal(m: Machine): (r: Machine)
    ensures m.startFuture.Pending? ==> r.state == OmnisharpStarted && r.startFuture == Done
    ensures !m.startFuture.Pending? ==> r == m
    ensures r.loadProjectsFuture == m.loadProjectsFuture
    ensures Valid(m) ==> Valid(r)
  {
    if m.startFuture.Pending? then m.(state := OmnisharpStarted, startFuture := Done) else m
  }

  /** The first project event completes the load-projects future. */
  function OnProjectsLoaded(m: Machine): (r: Machine)
    ensures r.state == m.state && r.startFuture == m.startFuture
    ensures r.loadProjectsFuture == Complete(m.loadProjectsFuture, Done)
    ensures Valid(m) ==> Valid(r)
  {
    m.(loadProjectsFuture := Complete(m.loadProjectsFuture, Done))
  }

  /** The start future timing out fails the load-projects future too; the
      process is then destroyed. */
  function OnStartupTimeout(m: Machine): (r: Machine)
    ensures r.state == m.state
    ensures r.startFuture == Complete(m.startFuture, Failed(StartupTimeout))
    ensures m.startFuture.Pending? ==> r.loadProjectsFuture == Complete(m.loadProjectsFuture, Failed(StartupTimeout))
    ensures !m.startFuture.Pending? ==> r == m
    ensures Valid(m) ==> Valid(r)
  {
    if m.startFuture.Pending? then
      Machine(m.state, Failed(StartupTimeout), Complete(m.loadProjectsFuture, Failed(StartupTimeout)))
    else m
  }

  /** `stopping`. */
  function OnStopping(m: Machine): (r: Machine)
    ensures r.state == Stopping && r.startFuture == m.startFuture && r.loadProjectsFuture == m.loadProjectsFuture
    ensures Valid(m) && m.state != Stopped ==> Valid(r)
  {
    m.(state := Stopping)
  }

  /** What `stopped` leaves behind, and what those waiting on the previous
      futures observe. */
  datatype Termination = Termination(machine: Machine, startObserved: Future, loadProjectsObserved: Future)

  /** `stopped`, run when the process terminates: pending futures are
      cancelled if the stop was asked for and fail otherwise; the server is
      stopped and its futures fail as not started. */
  function OnTerminated(m: Machine): (r: Termination)
    ensures r.machine == InitialMachine
    ensures m.startFuture.Pending? ==>
      && (r.startObserved == Cancelled <==> m.state == Stopping)
      && (m.state != Stopping ==> r.startObserved == Failed(TerminatedUnexpectedly))
    ensures m.loadProjectsFuture.Pending? ==>
      && (r.loadProjectsObserved == Cancelled <==> m.state == Stopping)
      && (m.state != Stopping ==> r.loadProjectsObserved == Failed(TerminatedUnexpectedly))
    ensures !m.startFuture.Pending? ==> r.startObserved == m.startFuture
    ensures !m.loadProjectsFuture.Pending? ==> r.loadProjectsObserved == m.loadProjectsFuture
  {
    var outcome := if m.state == Stopping then Cancelled else Failed(TerminatedUnexpectedly);
    Termination(InitialMachine, Complete(m.startFuture, outcome), Complete(m.loadProjectsFuture, outcome))
  }

  /** What happens to the state machine outside the controller's own
      calls. */
  datatype Event =
    | SignalReceived(signal: ResponseProcessor.Signal)
    | StartTimedOut
    | ProcessTerminated

  function Step(m: Machine, event: Event): Machine {
    match event
    case SignalReceived(signal) =>
      if signal == ResponseProcessor.StartSignal then OnStartSignal(m) else OnProjectsLoaded(m)
    case StartTimedOut => OnStartupTimeout(m)
    case ProcessTerminated => OnTerminated(m).machine
  }

  function Steps(m: Machine, events: seq<Event>): Machine
    decreases |events|
  {
    if |events| == 0 then m else Steps(Step(m, events[0]), events[1..])
  }

  /** Whatever the process and OmniSharp do, the machine stays valid. */
  lemma {:induction false} StepsPreserveValid(m: Machine, events: seq<Event>)
    requires Valid(m)
    ensures Valid(Steps(m, events))
    decreases |events|
  {
    if |events| > 0 {
      StepsPreserveValid(Step(m, events[0]), events[1..]);
    }
  }

  /** Once stopped, only a new process leaves the stopped state: no event
      of the old one changes anything. */
  lemma {:induction false} StoppedIgnoresEvents(m: Machine, events: seq<Event>)
    requires Valid(m) && m.state == Stopped
    requires m.startFuture == Failed(NotStarted) && m.loadProjectsFuture == Failed(NotStarted)
    ensures Steps(m, events) == m
    decreases |events|
  {
    if |events| > 0 {
      assert Step(m, events[0]) == m;
      StoppedIgnoresEvents(m, events[1..]);
    }
  }

  /** The last values `lazyStart` was called with; `None` stands for a
      null path, and all are null (and .NET 6 off) before the first
      call. */
  datatype Cache = Cache(
    projectBaseDir: Option<string>, dotnetCliPath: Option<string>, monoPath: Option<string>,
    msBuildPath: Option<string>, solutionPath: Option<string>, useNet6: bool)

  const InitialCache := Cache(None, None, None, None, None, false)

  /** The arguments of `lazyStart`. */
  datatype Settings = Settings(
    projectBaseDir: string, useNet6: bool, dotnetCliPath: Option<string>, monoPath: Option<string>,
    msBuildPath: Option<string>, solutionPath: Option<string>)

  function CacheOf(s: Settings): Cache {
    Cache(Some(s.projectBaseDir), s.dotnetCliPath, s.monoPath, s.msBuildPath, s.solutionPath, s.useNet6)
  }

  datatype Controller = Controller(machine: Machine, cache: Cache)

  const InitialController := Controller(InitialMachine, InitialCache)

  /** `checkIfRestartRequired`: the new value is kept, and the flag is
      raised when OmniSharp runs with a different one. */
  function CheckIfRestartRequired<G(==)>(started: bool, oldValue: G, newValue: G, shouldRestart: bool): (G, bool) {
    (newValue, shouldRestart || (started && oldValue != newValue))
  }

  /** The six checks of `lazyStart`, one per cached value. */
  function RestartCheck(started: bool, cache: Cache, s: Settings): (r: (Cache, bool))
    ensures r.0 == CacheOf(s)
    ensures r.1 <==> started && cache != CacheOf(s)
  {
    var (baseDir, f1) := CheckIfRestartRequired(started, cache.projectBaseDir, Some(s.projectBaseDir), false);
    var (cli, f2) := CheckIfRestartRequired(started, cache.dotnetCliPath, s.dotnetCliPath, f1);
    var (mono, f3) := CheckIfRestartRequired(started, cache.monoPath, s.monoPath, f2);
    var (msBuild, f4) := CheckIfRestartRequired(started, cache.msBuildPath, s.msBuildPath, f3);
    var (solution, f5) := CheckIfRestartRequired(started, cache.solutionPath, s.solutionPath, f4);
    var (net6, f6) := CheckIfRestartRequired(started, cache.useNet6, s.useNet6, f5);
    (Cache(baseDir, cli, mono, msBuild, solution, net6), f6)
  }

  /** `stopServer`: nothing on a stopped server; otherwise the state
      becomes stopping, the stop request is sent, and the process's end
      runs `stopped`. */
  function StopServer(c: Controller): (r: (Controller, bool))
    ensures r.1 <==> c.machine.state != Stopped
    ensures !r.1 ==> r.0 == c
    ensures r.1 ==> r.0 == Controller(InitialMachine, c.cache)
    ensures r.0.machine.state == Stopped
  {
    if c.machine.state == Stopped then (c, false)
    else (c.(machine := OnTerminated(OnStopping(c.machine)).machine), true)
  }

  /** Stopping a server whose start is awaited cancels the wait. */
  lemma StopCancelsPendingStart(m: Machine)
    requires m.startFuture.Pending?
    ensures OnTerminated(OnStopping(m)).startObserved == Cancelled
    ensures OnTerminated(m).startObserved == (if m.state == Stopping then Cancelled else Failed(TerminatedUnexpectedly))
  {
  }

  /** The command `startServer` launches: the .NET 6 one or the framework
      one, from the values just cached. */
  function StartCommand(env: CommandBuilder.Env, s: Settings): (r: Result<seq<string>>)
    ensures s.useNet6 ==> r == CommandBuilder.BuildNet6(env, s.projectBaseDir, s.dotnetCliPath, s.msBuildPath, s.solutionPath)
    ensures !s.useNet6 ==> r == CommandBuilder.Build(env, s.projectBaseDir, s.monoPath, s.msBuildPath, s.solutionPath)
    ensures r.Failure? <==>
      (if s.useNet6 then CommandBuilder.Net6LocationKey
       else if env.isOsWindows then CommandBuilder.WinLocationKey
       else CommandBuilder.MonoLocationKey) !in env.config
  {
    if s.useNet6 then CommandBuilder.BuildNet6(env, s.projectBaseDir, s.dotnetCliPath, s.msBuildPath, s.solutionPath)
    else CommandBuilder.Build(env, s.projectBaseDir, s.monoPath, s.msBuildPath, s.solutionPath)
  }

  /** Whether the operating system started the process. */
  datatype Launch = Launched | LaunchFailed(message: string)

  /** How the start future of a launched process settles: OmniSharp's
      `started` event, the one-minute timeout, or the process ending
      first. */
  datatype Startup = Signalled | TimedOut | Terminated

  /** `startFuture.get()`: a pending future settles as `startup` says; a
      settled one is read as it is. */
  function AwaitStart(m: Machine, startup: Startup): (r: (Machine, Future))
    ensures !r.1.Pending?
    ensures !m.startFuture.Pending? ==> r == (m, m.startFuture)
    ensures m.startFuture.Pending? && startup == Signalled ==> r.0.state == OmnisharpStarted && r.1 == Done
    ensures m.startFuture.Pending? && startup == TimedOut ==> r.0 == InitialMachine && r.1 == Failed(StartupTimeout)
    ensures m.startFuture.Pending? && startup == Terminated ==>
      && r.0 == InitialMachine
      && r.1 == (if m.state == Stopping then Cancelled else Failed(TerminatedUnexpectedly))
    ensures Valid(m) ==> Valid(r.0)
  {
    if !m.startFuture.Pending? then (m, m.startFuture)
    else
      match startup
      case Signalled => (OnStartSignal(m), Done)
      case TimedOut => (OnTerminated(OnStartupTimeout(m)).machine, Failed(StartupTimeout))
      case Terminated =>
        var t := OnTerminated(m);
        (t.machine, t.startObserved)
  }

  const StartTimeoutMessage := "Timeout waiting for Omnisharp server to start"
  const UnableToStartPrefix := "Unable to start the Omnisharp server: "

  /** What `lazyStart` makes of the settled start future. */
  function StartResult(f: Future): (r: Result<()>)
    requires !f.Pending?
    ensures r.Success? <==> f == Done
    ensures f == Cancelled ==> r == Failure(OperationCanceledException)
    ensures f == Failed(StartupTimeout) ==> r == Failure(IllegalStateException(StartTimeoutMessage))
    ensures f.Failed? && f.cause != StartupTimeout ==> r == Failure(IllegalStateException(UnableToStartPrefix + f.cause.Message()))
  {
    match f
    case Done => Success(())
    case Cancelled => Failure(OperationCanceledException)
    case Failed(StartupTimeout) => Failure(IllegalStateException(StartTimeoutMessage))
    case Failed(cause) => Failure(IllegalStateException(UnableToStartPrefix + cause.Message()))
  }

  /** One call of `lazyStart`: whether a stop request was sent, the
      command launched (if the process was started), and what the call
      returns or throws. */
  datatype LazyStartRun = LazyStartRun(
    controller: Controller, stopSent: bool, startAttempted: bool, command: Option<seq<string>>, result: Result<()>)

  /** `startServer` on a stopped machine: build the command (which may
      throw for a missing location), then launch it. */
  function StartServer(m: Machine, env: CommandBuilder.Env, s: Settings, launch: Launch)
    : (r: (Machine, Result<seq<string>>))
    requires m.state == Stopped
    ensures r.1 == StartCommand(env, s)
    ensures r.1.Failure? ==> r.0 == m
    ensures r.1.Success? && launch.Launched? ==> r.0 == OnProcessStarted(m)
    ensures r.1.Success? && launch.LaunchFailed? ==> r.0 == OnProcessStartFailed(m, launch.message)
    ensures Valid(m) ==> Valid(r.0)
  {
    var command := StartCommand(env, s);
    if command.Failure? then (m, command)
    else
      match launch
      case Launched => (OnProcessStarted(m), command)
      case LaunchFailed(message) => (OnProcessStartFailed(m, message), command)
  }

  /** `lazyStart`. `launch` and `startup` stand for the process and
      OmniSharp, consulted only if a process is started or awaited. */
  function LazyStart(c: Controller, s: Settings, env: CommandBuilder.Env, launch: Launch, startup: Startup): (r: LazyStartRun)
    requires Valid(c.machine)
    ensures r.controller.cache == CacheOf(s)
    ensures r.stopSent <==> c.machine.state == OmnisharpStarted && c.cache != CacheOf(s)
    ensures r.startAttempted <==> r.stopSent || c.machine.state == Stopped
    ensures Valid(r.controller.machine)
    ensures !r.startAttempted ==> r.command.None?
    ensures r.startAttempted ==>
      && (StartCommand(env, s).Failure? ==>
            r.command.None? && r.result == Failure(StartCommand(env, s).error) && r.controller.machine.state == Stopped)
      && (StartCommand(env, s).Success? ==> r.command == Some(StartCommand(env, s).value))
    ensures r.command.Some? && launch.LaunchFailed? ==>
      && r.result == Failure(IllegalStateException(UnableToStartPrefix + launch.message))
      && r.controller.machine.state == Stopped
    ensures r.command.Some? && launch.Launched? && startup == Signalled ==>
      r.result.Success? && r.controller.machine.state == OmnisharpStarted
    ensures r.command.Some? && launch.Launched? && startup == TimedOut ==>
      r.result == Failure(IllegalStateException(StartTimeoutMessage)) && r.controller.machine.state == Stopped
    ensures r.command.Some? && launch.Launched? && startup == Terminated ==>
      r.result == Failure(IllegalStateException(UnableToStartPrefix + "Process terminated unexpectedly"))
    ensures r.result.Success? ==>
      r.controller.machine.state == OmnisharpStarted || (c.machine.state == Stopping && r.controller.machine == c.machine)
  {
    var (cache, restart) := RestartCheck(c.machine.state == OmnisharpStarted, c.cache, s);
    var (stopped, stopSent) := if restart then StopServer(c) else (c, false);
    if stopped.machine.state == Stopped then
      var (launched, command) := StartServer(stopped.machine, env, s, launch);
      if command.Failure? then
        LazyStartRun(Controller(launched, cache), stopSent, true, None, Failure(command.error))
      else
        var (settled, f) := AwaitStart(launched, startup);
        LazyStartRun(Controller(settled, cache), stopSent, true, Some(command.value), StartResult(f))
    else
      var (settled, f) := AwaitStart(stopped.machine, startup);
      LazyStartRun(Controller(settled, cache), stopSent, false, None, StartResult(f))
  }

  /** A second `lazyStart` with the same values, once the first one
      succeeded, neither stops nor starts anything and succeeds at once. */
  lemma RepeatedLazyStartStartsOnce(
    c: Controller, s: Settings, env: CommandBuilder.Env, launch1: Launch, startup1: Startup, launch2: Launch, startup2: Startup)
    requires Valid(c.machine) && c.machine.state != Stopping
    requires LazyStart(c, s, env, launch1, startup1).result.Success?
    ensures var first := LazyStart(c, s, env, launch1, startup1);
      var second := LazyStart(first.controller, s, env, launch2, startup2);
      && !second.stopSent && !second.startAttempted
      && second.result.Success?
      && second.controller == first.controller
  {
    var first := LazyStart(c, s, env, launch1, startup1);
    assert first.controller.machine.state == OmnisharpStarted;
    assert first.controller.machine.startFuture == Done;
  }

  /** A new controller starts the server on the first call and sends no
      stop request. */
  lemma FirstLazyStartLaunches(s: Settings, env: CommandBuilder.Env, launch: Launch, startup: Startup)
    ensures var run := LazyStart(InitialController, s, env, launch, startup);
      && !run.stopSent && run.startAttempted
      && run.controller.cache == CacheOf(s)
  {
  }

  /** Changing any value while OmniSharp runs restarts it: a stop request
      is sent and a new process is started with the new values. */
  lemma ChangedSettingsRestart(c: Controller, s: Settings, env: CommandBuilder.Env, launch: Launch, startup: Startup)
    requires Valid(c.machine) && c.machine.state == OmnisharpStarted
    requires c.cache != CacheOf(s)
    ensures var run := LazyStart(c, s, env, launch, startup);
      run.stopSent && run.startAttempted
  {
  }

  const StdInWriteError := "Unable to write in Omnisharp stdin"

  /** `writeRequestOnStdIn`: false on a stopped server; otherwise the line
      is written, and a failed write throws. */
  function WriteRequestOnStdIn(m: Machine, writeSucceeds: bool): (r: Result<bool>)
    ensures m.state == Stopped ==> r == Success(false)
    ensures m.state != Stopped ==> (r.Success? <==> writeSucceeds)
    ensures r.Success? ==> (r.value <==> m.state != Stopped)
    ensures r.Failure? ==> r.error == IllegalStateException(StdInWriteError)
  {
    if m.state == Stopped then Success(false)
    else if writeSucceeds then Success(true)
    else Failure(IllegalStateException(StdInWriteError))
  }

  /** A request sent to a stopped server is refused by the controller, so
      the endpoints fail at once and register nothing. */
  lemma StoppedServerRefusesRequests(
    m: Machine, e: Endpoints.Endpoints, command: string, arguments: Endpoints.Arguments,
    writeSucceeds: bool, output: seq<ResponseProcessor.OutputLine>)
    requires m.state == Stopped && Endpoints.Valid(e)
    ensures var accepted := WriteRequestOnStdIn(m, writeSucceeds).value;
      var x := Endpoints.DoRequestAndWaitForResponse(e, command, arguments, accepted, output);
      && x.result == Failure(IllegalStateException("Unable to send request to the OmniSharp server: " + command))
      && x.endpoints.registry == e.registry
  {
  }
}
