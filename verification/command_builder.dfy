/** `OmnisharpCommandBuilder`: the command line that launches OmniSharp,
    either on .NET 6 (`dotnet OmniSharp.dll`) or on the framework build
    (`OmniSharp.exe`, run through Mono outside Windows), followed by the
    options shared by both. */
module CommandBuilder {
  import opened Wrappers
  import opened Strings

  const Net6LocationKey := "sonar.cs.internal.omnisharpNet6Location"
  const MonoLocationKey := "sonar.cs.internal.omnisharpMonoLocation"
  const WinLocationKey := "sonar.cs.internal.omnisharpWinLocation"

  const MsBuildPathPrefix := "MsBuild:MSBuildOverride:MSBuildPath="

  /** What the builder reads from its collaborators: the platform, the
      client's process id (0 when unknown), the configuration and the path
      of the extracted services dll. `resolve(dir, name)` is
      `Paths.get(dir).resolve(name).toString()`. */
  datatype Env = Env(
    isOsWindows: bool,
    clientPid: int,
    config: map<string, string>,
    servicesDllPath: string,
    resolve: (string, string) -> string)

  /** `getMandatoryConfig`. */
  function MandatoryConfig(config: map<string, string>, key: string): (r: Result<string>)
    ensures r.Success? <==> key in config
    ensures r.Success? ==> r.value == config[key]
    ensures r.Failure? ==> r.error == IllegalStateException("Property '" + key + "' is required")
  {
    if key in config then Success(config[key])
    else Failure(IllegalStateException("Property '" + key + "' is required"))
  }

  function HostPidArguments(pid: int): seq<string> {
    if pid != 0 then ["--hostPID", IntToString(pid)] else []
  }

  function MsBuildArguments(msBuildPath: Option<string>): seq<string> {
    match msBuildPath
    case Some(p) => [MsBuildPathPrefix + p]
    case None => []
  }

  /** The folder or solution OmniSharp opens. */
  function SolutionTarget(projectBaseDir: string, solutionPath: Option<string>): string {
    if solutionPath.Some? then solutionPath.value else projectBaseDir
  }

  /** `addArguments`: verbose logging, the host's process id when known,
      the MSBuild override when given, no package restore, UTF-8, the
      solution (or else the base directory), and the services plugin. */
  function AddArguments(env: Env, projectBaseDir: string, msBuildPath: Option<string>, solutionPath: Option<string>)
    : (tail: seq<string>)
    ensures |tail| == 8 + (if env.clientPid != 0 then 2 else 0) + (if msBuildPath.Some? then 1 else 0)
    ensures tail[0] == "-v"
    ensures env.clientPid != 0 ==> tail[1] == "--hostPID" && tail[2] == IntToString(env.clientPid)
    ensures var k := if env.clientPid != 0 then 3 else 1;
      && (msBuildPath.Some? ==> tail[k] == MsBuildPathPrefix + msBuildPath.value)
      && (msBuildPath.None? ==> tail[k] == "DotNet:enablePackageRestore=false")
    ensures tail[|tail| - 7..] ==
      ["DotNet:enablePackageRestore=false", "--encoding", "utf-8",
       "-s", SolutionTarget(projectBaseDir, solutionPath), "--plugin", env.servicesDllPath]
  {
    ["-v"] + HostPidArguments(env.clientPid) + MsBuildArguments(msBuildPath)
      + ["DotNet:enablePackageRestore=false", "--encoding", "utf-8",
         "-s", SolutionTarget(projectBaseDir, solutionPath), "--plugin", env.servicesDllPath]
  }

  /** The value following the first occurrence of `flag`, as OmniSharp's
      option parser reads it. */
  function FlagValue(args: seq<string>, flag: string): (r: Option<string>)
    ensures r.Some? ==> r.value in args
    decreases |args|
  {
    if |args| < 2 then None
    else if args[0] == flag then Some(args[1])
    else FlagValue(args[1..], flag)
  }

  /** A prefix without the flag does not change what is read. */
  lemma {:induction false} FlagValueSkip(a: seq<string>, b: seq<string>, flag: string)
    requires forall i :: 0 <= i < |a| ==> a[i] != flag
    ensures FlagValue(a + b, flag) == FlagValue(b, flag)
    decreases |a|
  {
    if |a| > 0 {
      FlagValueSkip(a[1..], b, flag);
      if |a + b| < 2 {
        assert a + b == a && b == [];
      } else {
        assert (a + b)[0] == a[0] != flag;
        assert (a + b)[1..] == a[1..] + b;
        assert FlagValue(a + b, flag) == FlagValue(a[1..] + b, flag);
      }
    } else {
      assert a + b == b;
    }
  }

  /** No formatted number is an option name. */
  lemma NumberIsNotFlag(n: int, flag: string)
    requires |flag| == 2 && flag[0] == '-' && !('0' <= flag[1] <= '9')
    ensures IntToString(n) != flag
  {
    var s := IntToString(n);
    if n < 0 && |s| == 2 {
      assert s[1] == NatToString(-n)[0];
    } else if |s| == 2 {
      assert '0' <= s[0] <= '9';
    }
  }

  /** Reading the shared options back: `-s` gives the solution (or else
      the base directory), and `--hostPID` gives the process id exactly when
      it is known, provided the opened path is not itself `--hostPID`. */
  lemma AddArgumentsReadBack(env: Env, projectBaseDir: string, msBuildPath: Option<string>, solutionPath: Option<string>)
    requires SolutionTarget(projectBaseDir, solutionPath) != "--hostPID"
    ensures var tail := AddArguments(env, projectBaseDir, msBuildPath, solutionPath);
      && FlagValue(tail, "-s") == Some(SolutionTarget(projectBaseDir, solutionPath))
      && FlagValue(tail, "--hostPID") == (if env.clientPid != 0 then Some(IntToString(env.clientPid)) else None)
  {
    ReadsSolution(env, projectBaseDir, msBuildPath, solutionPath);
    ReadsHostPid(env, projectBaseDir, msBuildPath, solutionPath);
  }

  /** The options before `-s` never spell `-s` or `--hostPID` except where
      the latter is the process id flag. */
  lemma OptionsAreNotFlags(pid: int, msBuildPath: Option<string>, flag: string)
    requires flag == "-s" || (flag == "--hostPID" && pid == 0)
    ensures var before := ["-v"] + HostPidArguments(pid) + MsBuildArguments(msBuildPath)
      + ["DotNet:enablePackageRestore=false", "--encoding", "utf-8"];
      forall i :: 0 <= i < |before| ==> before[i] != flag
  {
    var options := ["-v"] + HostPidArguments(pid) + MsBuildArguments(msBuildPath);
    var before := options + ["DotNet:enablePackageRestore=false", "--encoding", "utf-8"];
    if flag == "-s" {
      NumberIsNotFlag(pid, "-s");
    }
    forall i | 0 <= i < |before| ensures before[i] != flag {
      if msBuildPath.Some? && i == |options| - 1 {
        assert before[i] == MsBuildPathPrefix + msBuildPath.value;
        assert before[i][0] == 'M';
      }
    }
  }

  lemma ReadsSolution(env: Env, projectBaseDir: string, msBuildPath: Option<string>, solutionPath: Option<string>)
    ensures FlagValue(AddArguments(env, projectBaseDir, msBuildPath, solutionPath), "-s")
         == Some(SolutionTarget(projectBaseDir, solutionPath))
  {
    var before := ["-v"] + HostPidArguments(env.clientPid) + MsBuildArguments(msBuildPath)
      + ["DotNet:enablePackageRestore=false", "--encoding", "utf-8"];
    var rest := ["-s", SolutionTarget(projectBaseDir, solutionPath), "--plugin", env.servicesDllPath];
    assert AddArguments(env, projectBaseDir, msBuildPath, solutionPath) == before + rest;
    OptionsAreNotFlags(env.clientPid, msBuildPath, "-s");
    FlagValueSkip(before, rest, "-s");
  }

  lemma ReadsHostPid(env: Env, projectBaseDir: string, msBuildPath: Option<string>, solutionPath: Option<string>)
    requires SolutionTarget(projectBaseDir, solutionPath) != "--hostPID"
    ensures FlagValue(AddArguments(env, projectBaseDir, msBuildPath, solutionPath), "--hostPID")
         == (if env.clientPid != 0 then Some(IntToString(env.clientPid)) else None)
  {
    var tail := AddArguments(env, projectBaseDir, msBuildPath, solutionPath);
    if env.clientPid != 0 {
      assert tail[1..][0] == "--hostPID" && tail[1..][1] == IntToString(env.clientPid);
    } else {
      var target := SolutionTarget(projectBaseDir, solutionPath);
      var before := ["-v"] + HostPidArguments(env.clientPid) + MsBuildArguments(msBuildPath)
        + ["DotNet:enablePackageRestore=false", "--encoding", "utf-8"];
      var rest := [target, "--plugin", env.servicesDllPath];
      assert tail == (before + ["-s"]) + rest;
      OptionsAreNotFlags(env.clientPid, msBuildPath, "--hostPID");
      FlagValueSkip(before + ["-s"], rest, "--hostPID");
      assert rest[1..] == ["--plugin", env.servicesDllPath];
      assert FlagValue(["--plugin", env.servicesDllPath], "--hostPID") == FlagValue([env.servicesDllPath], "--hostPID");
    }
  }

  /** `buildNet6`: the .NET CLI (the given one, else `dotnet.exe` on
      Windows and `dotnet` elsewhere), then `OmniSharp.dll` of the .NET 6
      location, then the shared options. */
  function BuildNet6(
    env: Env, projectBaseDir: string, dotnetCliPath: Option<string>, msBuildPath: Option<string>, solutionPath: Option<string>)
    : (r: Result<seq<string>>)
    ensures r.Failure? <==> Net6LocationKey !in env.config
    ensures r.Failure? ==> r.error == IllegalStateException("Property '" + Net6LocationKey + "' is required")
    ensures r.Success? ==>
      && |r.value| >= 2
      && r.value[0] == (if dotnetCliPath.Some? then dotnetCliPath.value else if env.isOsWindows then "dotnet.exe" else "dotnet")
      && r.value[1] == env.resolve(env.config[Net6LocationKey], "OmniSharp.dll")
      && r.value[2..] == AddArguments(env, projectBaseDir, msBuildPath, solutionPath)
  {
    var cli := if dotnetCliPath.Some? then dotnetCliPath.value else if env.isOsWindows then "dotnet.exe" else "dotnet";
    var location :- MandatoryConfig(env.config, Net6LocationKey);
    Success([cli, env.resolve(location, "OmniSharp.dll")] + AddArguments(env, projectBaseDir, msBuildPath, solutionPath))
  }

  /** `build`: on Windows `OmniSharp.exe` of the Windows location alone;
      elsewhere Mono (the given one, else `mono`) and then `OmniSharp.exe`
      of the Mono location. The shared options follow. */
  function Build(
    env: Env, projectBaseDir: string, monoPath: Option<string>, msBuildPath: Option<string>, solutionPath: Option<string>)
    : (r: Result<seq<string>>)
    ensures env.isOsWindows ==> (r.Failure? <==> WinLocationKey !in env.config)
    ensures !env.isOsWindows ==> (r.Failure? <==> MonoLocationKey !in env.config)
    ensures r.Failure? ==> r.error == IllegalStateException(
      "Property '" + (if env.isOsWindows then WinLocationKey else MonoLocationKey) + "' is required")
    ensures r.Success? && env.isOsWindows ==>
      && |r.value| >= 1
      && r.value[0] == env.resolve(env.config[WinLocationKey], "OmniSharp.exe")
      && r.value[1..] == AddArguments(env, projectBaseDir, msBuildPath, solutionPath)
    ensures r.Success? && !env.isOsWindows ==>
      && |r.value| >= 2
      && r.value[0] == (if monoPath.Some? then monoPath.value else "mono")
      && r.value[1] == env.resolve(env.config[MonoLocationKey], "OmniSharp.exe")
      && r.value[2..] == AddArguments(env, projectBaseDir, msBuildPath, solutionPath)
  {
    var launcher :-
      if env.isOsWindows then
        var location :- MandatoryConfig(env.config, WinLocationKey);
        Success([env.resolve(location, "OmniSharp.exe")])
      else
        var mono := if monoPath.Some? then monoPath.value else "mono";
        var location :- MandatoryConfig(env.config, MonoLocationKey);
        Success([mono, env.resolve(location, "OmniSharp.exe")]);
    Success(launcher + AddArguments(env, projectBaseDir, msBuildPath, solutionPath))
  }

  /** Both launchers end with the same options: only the program and its
      assembly differ. */
  lemma LaunchersShareOptions(
    env: Env, projectBaseDir: string, dotnetCliPath: Option<string>, monoPath: Option<string>,
    msBuildPath: Option<string>, solutionPath: Option<string>)
    requires Net6LocationKey in env.config && MonoLocationKey in env.config && WinLocationKey in env.config
    ensures var net6 := BuildNet6(env, projectBaseDir, dotnetCliPath, msBuildPath, solutionPath).value;
      var framework := Build(env, projectBaseDir, monoPath, msBuildPath, solutionPath).value;
      var tail := AddArguments(env, projectBaseDir, msBuildPath, solutionPath);
      && net6[|net6| - |tail|..] == tail
      && framework[|framework| - |tail|..] == tail
  {
  }

  /** When a solution is given, the base directory does not matter. */
  lemma SolutionOverridesBaseDir(
    env: Env, baseDir1: string, baseDir2: string, dotnetCliPath: Option<string>, msBuildPath: Option<string>, solution: string)
    ensures BuildNet6(env, baseDir1, dotnetCliPath, msBuildPath, Some(solution))
         == BuildNet6(env, baseDir2, dotnetCliPath, msBuildPath, Some(solution))
  {
  }
}
