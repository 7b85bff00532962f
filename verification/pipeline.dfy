/** The decision flow of envcheck.py's `main`: resolve the argument, find
    the runtime, gather facts, then either stop (library) or make exactly
    one run attempt, ending in SUCCESS or FAIL with the fact log. */
module Pipeline {
  import opened Optional
  import opened Strings
  import opened FactLog
  import opened Host
  import opened Resolver
  import opened Requirements
  import opened Runner
  import opened InputClassifier
  import opened Paths

  /** Everything `main` consults outside its own logic. */
  datatype Env = Env(
    /** `sys.argv[1:]` */
    args: seq<string>,
    /** `(platform.system(), platform.machine())`; `None` when either raises */
    platform: Option<(string, string)>,
    fs: FileSystem,
    /** `shlex.split`; `None` when it raises */
    tokenize: string -> Option<seq<string>>,
    /** `shutil.which` */
    which: string -> Option<string>,
    /** `<exe> --version`, by executable */
    version: string -> VersionRun,
    /** the facts `detect_project_facts` records for a target */
    projectFacts: Target -> seq<string>,
    readLines: TextReader,
    importable: ImportProbe,
    /** how spawning `cmd` in `cwd` and waiting for it ends */
    run: (seq<string>, Option<string>) -> RunOutcome)

  /** Python's `a or b` on optional strings. */
  function Or(a: Option<string>, b: Option<string>): (r: Option<string>)
    ensures Truthy(r) <==> Truthy(a) || Truthy(b)
    ensures Truthy(a) ==> r == a
  {
    if Truthy(a) then a else b
  }

  /** `which_runtime`: the executable for a runtime (`python3` before
      `python`, `bash` before `sh`); none for an unknown runtime. */
  function WhichRuntime(rt: Runtime, which: string -> Option<string>): (r: Option<string>)
    ensures rt == Unknown ==> r.None?
    ensures rt == Python ==> (Truthy(r) <==> Truthy(which("python3")) || Truthy(which("python")))
    ensures rt == Bash ==> (Truthy(r) <==> Truthy(which("bash")) || Truthy(which("sh")))
    ensures rt == Python && Truthy(which("python3")) ==> r == which("python3")
    ensures rt == Python && !Truthy(which("python3")) ==> r == which("python")
    ensures rt == Bash && Truthy(which("bash")) ==> r == which("bash")
    ensures rt == Bash && !Truthy(which("bash")) ==> r == which("sh")
    ensures rt == Node ==> r == which("node")
    ensures rt == Go ==> r == which("go")
  {
    match rt
    case Python => Or(which("python3"), which("python"))
    case Node => which("node")
    case Bash => Or(which("bash"), which("sh"))
    case Go => which("go")
    case Unknown => None
  }

  /** The characters `str.splitlines` breaks lines at. */
  predicate IsLineBreak(c: char) {
    || ('\n' <= c <= '\r')
    || ('\U{1c}' <= c <= '\U{1e}')
    || c == '\U{85}' || c == '\U{2028}' || c == '\U{2029}'
  }

  /** `s.splitlines()[0]` for a non-empty `s`: up to the first line break. */
  function FirstLine(s: string): (r: string)
    ensures |r| <= |s| && r == s[..|r|]
    ensures forall i :: 0 <= i < |r| ==> !IsLineBreak(r[i])
    ensures |r| < |s| ==> IsLineBreak(s[|r|])
  {
    if |s| == 0 || IsLineBreak(s[0]) then
      []
    else
      var r := FirstLine(s[1..]);
      assert s[..1 + |r|] == [s[0]] + s[1..][..|r|];
      [s[0]] + r
  }

  /** The longest version text recorded. */
  const MaxVersionLength: nat := 120

  /** The output of `<exe> --version` that is reported: stdout, or stderr
      when stdout is empty, stripped. */
  function VersionOutput(stdout: string, stderr: string): string {
    Strip(if stdout != "" then stdout else stderr)
  }

  lemma LineBreakIsSpace(c: char)
    ensures IsLineBreak(c) ==> IsSpace(c)
  {
  }

  /** The reported part of a version output: its first line, cut to
      `MaxVersionLength` characters. */
  function VersionText(out: string): (text: string)
    ensures |text| <= MaxVersionLength && |text| <= |out| && text == out[..|text|]
    ensures forall i :: 0 <= i < |text| ==> !IsLineBreak(text[i])
    ensures out != [] && !IsLineBreak(out[0]) ==> text != []
    ensures |text| < MaxVersionLength && |text| < |out| ==> IsLineBreak(out[|text|])
  {
    var line := FirstLine(out);
    line[..Min(|line|, MaxVersionLength)]
  }

  /** Fact `r` reports the first line of a non-empty output `out`: after
      the prefix comes a prefix of `out` with no line break, which stops
      only at `MaxVersionLength` characters, at a line break or at the end
      of `out`. */
  predicate ReportsFirstLine(r: string, out: string) {
    && StartsWith(r, "runtime_version: ")
    && 17 < |r| <= 17 + MaxVersionLength
    && |r| <= 17 + |out|
    && r[17..] == out[..|r| - 17]
    && (forall i :: 17 <= i < |r| ==> !IsLineBreak(r[i]))
    && (|r| - 17 < MaxVersionLength && |r| - 17 < |out| ==> IsLineBreak(out[|r| - 17]))
  }

  /** The fact for a stripped version output. */
  function OutputFact(out: string): (r: string)
    requires Trimmed(out)
    ensures out == [] ==> r == "runtime_version: unknown"
    ensures out != [] ==> ReportsFirstLine(r, out)
  {
    if out == [] then
      "runtime_version: unknown"
    else
      LineBreakIsSpace(out[0]);
      var text := VersionText(out);
      var r := "runtime_version: " + text;
      assert r[17..] == text;
      r
  }

  /** `get_runtime_version`: the fact for a version probe. */
  function VersionFact(v: VersionRun): (r: string)
    ensures v.VersionRaised? ==> r == "runtime_version: error"
    ensures v.VersionRan? && VersionOutput(v.stdout, v.stderr) == [] ==> r == "runtime_version: unknown"
    ensures v.VersionRan? && VersionOutput(v.stdout, v.stderr) != [] ==>
      ReportsFirstLine(r, VersionOutput(v.stdout, v.stderr))
  {
    match v
    case VersionRaised => "runtime_version: error"
    case VersionRan(stdout, stderr) => OutputFact(VersionOutput(stdout, stderr))
  }

  /** A version output that is one short line is reported verbatim. */
  lemma ShortVersionReportedVerbatim(stdout: string, stderr: string)
    requires stdout != [] && Trimmed(stdout) && |stdout| <= MaxVersionLength
    requires forall i :: 0 <= i < |stdout| ==> !IsLineBreak(stdout[i])
    ensures VersionFact(VersionRan(stdout, stderr)) == "runtime_version: " + stdout
  {
    StripOfTrimmed(stdout);
    var r := VersionFact(VersionRan(stdout, stderr));
    assert FirstLine(stdout) == stdout;
    assert |r| == 17 + |stdout|;
  }

  /** The platform fact: system and machine, lower-cased. */
  function PlatformFact(system: string, machine: string): string {
    "platform: " + Lower(system) + "_" + Lower(machine)
  }

  /** The log once the platform fact is recorded; nothing is recorded
      when the platform query raises. */
  function PlatformLog(env: Env): (r: Log)
    ensures Bounded(r) && |r| <= 1
  {
    if env.platform.Some? then Add([], PlatformFact(env.platform.value.0, env.platform.value.1)) else []
  }

  /** The resolution of the single argument. */
  function Resolved(env: Env): (r: Resolution)
    requires |env.args| == 1
    ensures r.target.Valid() && Bounded(r.log)
  {
    ParseTarget(env.args[0], env.fs, env.tokenize, PlatformLog(env))
  }

  datatype Verdict = Success | Fail

  /** What `main` has established before the dependency probe: the target,
      the runtime executable and the log; or the way it has already ended. */
  datatype Stage =
    | Ended(verdict: Verdict, log: Log)
    | Ready(t: Target, exe: string, log: Log)

  /** `main` up to the dependency probe: argument count, platform fact,
      target resolution, runtime and executable, version and project
      facts. It ends early, with FAIL, on a wrong argument count, an
      unknown runtime or a missing executable. */
  function Prepare(env: Env): (r: Stage)
    ensures Bounded(r.log)
    ensures r.Ended? ==> r.verdict == Fail
    ensures |env.args| != 1 ==> r == Ended(Fail, ["arg: missing_or_extra"])
    ensures |env.args| == 1 ==>
      (r.Ready? <==> Resolved(env).target.runtime != Unknown
                     && Truthy(WhichRuntime(Resolved(env).target.runtime, env.which)))
    ensures |env.args| == 1 && Resolved(env).target.runtime == Unknown ==>
      r == Ended(Fail, Add(Resolved(env).log, "runtime: unknown"))
    ensures |env.args| == 1 && Resolved(env).target.runtime != Unknown
            && !Truthy(WhichRuntime(Resolved(env).target.runtime, env.which)) ==>
      r == Ended(Fail, Add(Resolved(env).log, "runtime: missing"))
    ensures r.Ready? ==>
      && |env.args| == 1
      && r.t == Resolved(env).target
      && r.t.Valid() && r.t.runtime != Unknown
      && Some(r.exe) == WhichRuntime(r.t.runtime, env.which) && r.exe != ""
      && Extends(Resolved(env).log, r.log)
    ensures r.Ready? ==>
      r.log == AddAll(Add(Resolved(env).log, VersionFact(env.version(r.exe))), env.projectFacts(r.t))
  {
    if |env.args| != 1 then
      CleanFactStoredVerbatim([], "arg: missing_or_extra");
      Ended(Fail, Add([], "arg: missing_or_extra"))
    else
      var res := Resolved(env);
      Equip(res.target, res.log, env)
  }

  /** `main` once the target is resolved: a runtime and its executable are
      needed, then the version fact and the project facts are recorded. */
  function Equip(t: Target, log: Log, env: Env): (r: Stage)
    requires Bounded(log)
    ensures Bounded(r.log)
    ensures r.Ended? ==> r.verdict == Fail
    ensures r.Ready? <==> t.runtime != Unknown && Truthy(WhichRuntime(t.runtime, env.which))
    ensures t.runtime == Unknown ==> r == Ended(Fail, Add(log, "runtime: unknown"))
    ensures t.runtime != Unknown && !Truthy(WhichRuntime(t.runtime, env.which)) ==>
      r == Ended(Fail, Add(log, "runtime: missing"))
    ensures r.Ready? ==>
      && r.t == t
      && Some(r.exe) == WhichRuntime(t.runtime, env.which) && r.exe != ""
      && r.log == AddAll(Add(log, VersionFact(env.version(r.exe))), env.projectFacts(t))
      && Extends(log, r.log)
  {
    if t.runtime == Unknown then
      Ended(Fail, Add(log, "runtime: unknown"))
    else
      var exe := WhichRuntime(t.runtime, env.which);
      if !Truthy(exe) then
        Ended(Fail, Add(log, "runtime: missing"))
      else
        var log2 := Add(log, VersionFact(env.version(exe.value)));
        var log3 := AddAll(log2, env.projectFacts(t));
        ExtendsTransitive(log, log2, log3);
        Ready(t, exe.value, log3)
  }

  /** One spawn of a command line, with its working directory. */
  datatype Spawn = Spawn(cmd: seq<string>, cwd: Option<string>)

  /** How `main` ends: SUCCESS or FAIL with the log written and the spawn
      made, if any; or an exception that escapes it, with nothing printed
      and no log written. */
  datatype Termination =
    | Exit(verdict: Verdict, log: Log, spawned: Option<Spawn>)
    | Uncaught(log: Log)

  /** The working directory of the run: the directory of a directory target. */
  function RunDirectory(t: Target): Option<string> {
    if t.kind == Dir && t.path.Some? then t.path else None
  }

  /** How the run step ends for target `t`: a library succeeds without a
      spawn; a command target spawns its own tokens, with no working
      directory; a path target spawns its entry point under `exe`, in the
      target's directory; and a spawn succeeds exactly when the attempt
      started. */
  predicate Concluded(t: Target, exe: string, env: Env, r: Termination) {
    && r.Exit?
    && (t.projectType == Library ==> r.verdict == Success && r.spawned.None?)
    && (r.spawned.None? ==> (r.verdict == Success <==> t.projectType == Library))
    && (r.spawned.Some? ==>
          (r.verdict == Success <==> Started(env.run(r.spawned.value.cmd, r.spawned.value.cwd))))
    && (t.projectType != Library && t.kind == Command ==>
          && (r.spawned.Some? <==> t.command.Some? && t.command.value != [])
          && (r.spawned.Some? ==> r.spawned.value == Spawn(t.command.value, None)))
    && (t.projectType != Library && t.kind != Command ==>
          && (r.spawned.Some? <==> EntrypointRunnable(t, env.fs) && Launchable(t.runtime))
          && (r.spawned.Some? ==>
                var c := r.spawned.value.cmd;
                && 2 <= |c| <= 3 && c[0] == exe && c[|c| - 1] == t.entrypoint.value
                && (|c| == 3 <==> t.runtime == Go)
                && r.spawned.value.cwd == RunDirectory(t)))
  }

  /** A directory target is spawned in its own directory, yet its entry
      point is named by the path joined onto that directory: for a relative
      directory `d` the child looks for the entry point under `d/d`. */
  lemma RelativeDirectoryRunRepeatsDirectory(t: Target, exe: string, env: Env, log: Log, n: string)
    requires exe != "" && Bounded(log)
    requires t.kind == Dir && t.projectType != Library
    requires t.path.Some? && t.path.value != "" && t.path.value != "."
    requires t.path.value[|t.path.value| - 1] != '/'
    requires t.entrypoint == Some(Join(t.path.value, n))
    ensures var r := Conclude(t, exe, env, log);
      var d := t.path.value;
      r.spawned.Some? ==>
        && r.spawned.value.cwd == Some(d)
        && r.spawned.value.cmd[|r.spawned.value.cmd| - 1] == d + "/" + n
        && Join(d, r.spawned.value.cmd[|r.spawned.value.cmd| - 1]) == d + "/" + d + "/" + n
  {
    JoinOntoRelative(t.path.value, n);
  }

  /** Joining onto a directory that is neither empty, `.`, nor ends in `/`
      inserts one separator, each time. */
  lemma JoinOntoRelative(d: string, n: string)
    requires d != "" && d != "." && d[|d| - 1] != '/'
    ensures Join(d, n) == d + "/" + n
    ensures Join(d, Join(d, n)) == d + "/" + d + "/" + n
  {
    assert d + "/" + (d + "/" + n) == d + "/" + d + "/" + n;
  }

  /** `main` after the dependency probe: a library succeeds without a run;
      otherwise the command line is built and run once, and the verdict is
      the attempt's. The log only grows. */
  function Conclude(t: Target, exe: string, env: Env, log: Log): (r: Termination)
    requires exe != "" && Bounded(log)
    ensures Concluded(t, exe, env, r)
    ensures Bounded(r.log) && Extends(log, r.log)
    ensures t.projectType == Library ==> r == Exit(Success, log, None)
  {
    if t.projectType == Library then
      Exit(Success, log, None)
    else if t.kind == Command then
      Launch(t, exe, None, None, env, log)
    else
      Launch(t, exe, Some(exe), RunDirectory(t), env, log)
  }

  /** The run step of an application: build the command line (a command
      target is given no executable), then spawn it once in `cwd`. */
  function Launch(t: Target, exe: string, given: Option<string>, cwd: Option<string>, env: Env, log: Log)
    : (r: Termination)
    requires exe != "" && Bounded(log) && t.projectType != Library
    requires t.kind == Command ==> given.None? && cwd.None?
    requires t.kind != Command ==> given == Some(exe) && cwd == RunDirectory(t)
    ensures Concluded(t, exe, env, r)
    ensures Bounded(r.log) && Extends(log, r.log)
  {
    var b := BuildRunCommand(t, given, env.fs, log);
    if b.cmd.None? || b.cmd.value == [] then
      Exit(Fail, b.log, None)
    else
      var r := SpawnOnce(Spawn(b.cmd.value, cwd), env, b.log);
      ExtendsTransitive(log, b.log, r.log);
      r
  }

  /** One spawn and its verdict: SUCCESS exactly when the attempt started. */
  function SpawnOnce(sp: Spawn, env: Env, log: Log): (r: Termination)
    requires Bounded(log)
    ensures r.Exit? && r.spawned == Some(sp)
    ensures r.verdict == Success <==> Started(env.run(sp.cmd, sp.cwd))
    ensures Bounded(r.log) && Extends(log, r.log)
  {
    var a := RunAttempt(env.run(sp.cmd, sp.cwd), log);
    Exit(if a.ok then Success else Fail, a.log, Some(sp))
  }

  /** The dependency probe of a prepared run raises. */
  ghost predicate ProbeCrashes(t: Target, env: Env) {
    var src := RequirementsSource(t, env.fs, env.readLines);
    src.Lines? && CrashReached(ParseLines(src.lines))
  }

  /** SUCCESS means the target is a library (and nothing ran) or the one
      attempt started. */
  ghost predicate VerdictSound(env: Env, r: Termination) {
    r.Exit? ==>
      (r.verdict == Success <==>
        || (r.spawned.None? && Prepare(env).Ready? && Prepare(env).t.projectType == Library)
        || (r.spawned.Some? && Started(env.run(r.spawned.value.cmd, r.spawned.value.cwd))))
  }

  /** `main` as written: the probe's `IndexError` escapes it. */
  function Main(env: Env): (r: Termination)
    ensures Bounded(r.log)
    ensures Prepare(env).Ended? ==> r == Exit(Fail, Prepare(env).log, None)
    ensures r.Uncaught? <==> Prepare(env).Ready? && ProbeCrashes(Prepare(env).t, env)
    ensures VerdictSound(env, r)
    ensures Prepare(env).Ready? && r.Exit? ==>
      Concluded(Prepare(env).t, Prepare(env).exe, env, r) && Extends(Prepare(env).log, r.log)
  {
    match Prepare(env)
    case Ended(v, log) => Exit(v, log, None)
    case Ready(t, exe, log) =>
      match DepsProbe(t, env.fs, env.readLines, env.importable, log)
      case Raised(l) => Uncaught(l)
      case Logged(l) =>
        var r := Conclude(t, exe, env, l);
        ExtendsTransitive(log, l, r.log);
        r
  }

  /** `main` with the corrected requirements loop: it always ends with a
      verdict, and the same one as the source whenever the source ends. */
  function MainCorrected(env: Env): (r: Termination)
    ensures r.Exit? && Bounded(r.log)
    ensures !Main(env).Uncaught? ==> r == Main(env)
    ensures VerdictSound(env, r)
    ensures Prepare(env).Ready? ==>
      Concluded(Prepare(env).t, Prepare(env).exe, env, r) && Extends(Prepare(env).log, r.log)
  {
    match Prepare(env)
    case Ended(v, log) => Exit(v, log, None)
    case Ready(t, exe, log) =>
      var l := DepsProbeCorrected(t, env.fs, env.readLines, env.importable, log);
      var r := Conclude(t, exe, env, l);
      ExtendsTransitive(log, l, r.log);
      r
  }

  /** With the corrected loop the dependency probe only records facts:
      whatever requirements.txt holds and whatever can be imported, the
      verdict and the spawn are the same. */
  lemma ProbeNeverDecides(env: Env, readLines: TextReader, importable: ImportProbe)
    ensures var env' := env.(readLines := readLines, importable := importable);
      && MainCorrected(env').verdict == MainCorrected(env).verdict
      && MainCorrected(env').spawned == MainCorrected(env).spawned
  {
    var env' := env.(readLines := readLines, importable := importable);
    PrepareIgnoresProbeInputs(env, readLines, importable);
    match Prepare(env)
    case Ended(_, _) =>
    case Ready(t, exe, log) =>
      ConcludeIgnoresLog(t, exe, env, env',
        DepsProbeCorrected(t, env.fs, env.readLines, env.importable, log),
        DepsProbeCorrected(t, env.fs, readLines, importable, log));
  }

  /** Everything before the dependency probe ignores what the probe reads. */
  lemma PrepareIgnoresProbeInputs(env: Env, readLines: TextReader, importable: ImportProbe)
    ensures Prepare(env.(readLines := readLines, importable := importable)) == Prepare(env)
  {
    var env' := env.(readLines := readLines, importable := importable);
    assert env'.args == env.args && env'.fs == env.fs && env'.tokenize == env.tokenize;
    assert env'.which == env.which && env'.version == env.version && env'.projectFacts == env.projectFacts;
    assert PlatformLog(env') == PlatformLog(env);
    if |env.args| == 1 {
      assert Resolved(env') == Resolved(env);
    }
  }

  /** The verdict and the spawn of the run step do not depend on the facts
      logged before it. */
  lemma ConcludeIgnoresLog(t: Target, exe: string, env: Env, env': Env, log: Log, log': Log)
    requires exe != "" && Bounded(log) && Bounded(log')
    requires env'.fs == env.fs && env'.run == env.run
    ensures Conclude(t, exe, env', log').verdict == Conclude(t, exe, env, log).verdict
    ensures Conclude(t, exe, env', log').spawned == Conclude(t, exe, env, log).spawned
  {
    var e := if t.kind == Command then None else Some(exe);
    assert BuildRunCommand(t, e, env.fs, log').cmd == BuildRunCommand(t, e, env.fs, log).cmd;
  }

  /** Finding: a prepared python target whose requirements.txt holds the
      single line ";foo" makes `main` as written end with an escaping
      exception, so neither SUCCESS nor FAIL is printed; the corrected flow
      ends with a verdict. */
  lemma SemicolonRequirementEscapesMain(env: Env)
    requires Prepare(env).Ready?
    requires RequirementsSource(Prepare(env).t, env.fs, env.readLines) == Lines([";foo"])
    ensures Main(env).Uncaught?
    ensures MainCorrected(env).Exit?
  {
    SemicolonLineCrashes();
  }

  /** A command whose program is not in the runtime table fails before
      anything is run, even when it could run. */
  lemma UnrecognisedCommandFails(env: Env, cmd: seq<string>)
    requires |env.args| == 1
    requires IsCommandInput(EffectiveInput(env.args[0], env.fs), env.fs.pathExists)
    requires env.tokenize(EffectiveInput(env.args[0], env.fs)) == Some(cmd)
    requires cmd != [] && Lower(Name(cmd[0])) !in CommandRuntimes
    ensures Main(env).Exit? && Main(env).verdict == Fail && Main(env).spawned.None?
  {
    assert Resolved(env).target.runtime == Unknown;
  }
}
