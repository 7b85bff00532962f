/** The single run attempt of envcheck.py: building the command line
    (`check_entrypoint_exists`, `build_run_command`) and reading the
    outcome of one spawn-and-wait (`run_attempt`). */
module Runner {
  import opened Optional
  import opened Strings
  import opened FactLog
  import opened Host
  import opened Resolver

  /** The answer of a check, with the log it leaves. */
  datatype Check = Check(ok: bool, log: Log)

  /** Python truthiness of an optional executable path: present and non-empty. */
  predicate Truthy(exe: Option<string>) {
    exe.Some? && exe.value != ""
  }

  /** The entry point is set, exists and is a regular file. */
  predicate EntrypointRunnable(t: Target, fs: FileSystem) {
    t.entrypoint.Some? && fs.pathExists(t.entrypoint.value) && fs.isFile(t.entrypoint.value)
  }

  /** The runtimes the checker knows how to launch a file with. */
  predicate Launchable(rt: Runtime) {
    rt == Python || rt == Node || rt == Bash || rt == Go
  }

  /** `check_entrypoint_exists`: the entry point can be run; otherwise one
      fact names the first of the three conditions that fails. */
  function CheckEntrypoint(t: Target, fs: FileSystem, log: Log): (r: Check)
    ensures r.ok <==> EntrypointRunnable(t, fs)
    ensures r.ok ==> r.log == log
    ensures t.entrypoint.None? ==> r.log == Add(log, "entrypoint: missing")
    ensures t.entrypoint.Some? && !fs.pathExists(t.entrypoint.value) ==> r.log == Add(log, "entrypoint: not_found")
    ensures t.entrypoint.Some? && fs.pathExists(t.entrypoint.value) && !fs.isFile(t.entrypoint.value)
      ==> r.log == Add(log, "entrypoint: not_file")
  {
    match t.entrypoint
    case None => Check(false, Add(log, "entrypoint: missing"))
    case Some(ep) =>
      if !fs.pathExists(ep) then Check(false, Add(log, "entrypoint: not_found"))
      else if !fs.isFile(ep) then Check(false, Add(log, "entrypoint: not_file"))
      else Check(true, log)
  }

  /** A command line, or none, with the log it leaves. */
  datatype Built = Built(cmd: Option<seq<string>>, log: Log)

  /** `build_run_command`: a command target runs its own tokens; a path
      target runs its entry point under the runtime's executable (`go`
      with `run` in between). When no command can be built one fact says
      why, and when one is built the log is left as it was. */
  function BuildRunCommand(t: Target, exe: Option<string>, fs: FileSystem, log: Log): (r: Built)
    ensures t.kind == Command ==>
      r.cmd == if t.command.Some? && t.command.value != [] then t.command else None
    ensures t.kind != Command ==>
      (r.cmd.Some? <==> EntrypointRunnable(t, fs) && Launchable(t.runtime) && Truthy(exe))
    ensures t.kind != Command && r.cmd.Some? ==>
      var c := r.cmd.value;
      && 2 <= |c| <= 3
      && c[0] == exe.value
      && c[|c| - 1] == t.entrypoint.value
      && (|c| == 3 <==> t.runtime == Go)
      && (|c| == 3 ==> c[1] == "run")
    ensures r.cmd.Some? ==> r.log == log && r.cmd.value != []
    ensures r.cmd.None? && |log| < MaxLines ==> |r.log| == |log| + 1
    ensures t.kind == Command && r.cmd.None? ==> r.log == Add(log, "run: command_missing")
    ensures t.kind != Command && t.entrypoint.None? ==> r.log == Add(log, "run: not_applicable")
    ensures t.kind != Command && t.entrypoint.Some? && !EntrypointRunnable(t, fs) ==>
      r.log == CheckEntrypoint(t, fs, log).log
    ensures t.kind != Command && EntrypointRunnable(t, fs) && Launchable(t.runtime) && !Truthy(exe) ==>
      r.log == Add(log, "runtime: missing")
    ensures t.kind != Command && EntrypointRunnable(t, fs) && !Launchable(t.runtime) ==>
      r.log == Add(log, "runtime: unknown")
    ensures Extends(log, r.log)
    ensures Bounded(log) ==> Bounded(r.log)
  {
    if t.kind == Command then
      if t.command.None? || t.command.value == [] then
        Built(None, Add(log, "run: command_missing"))
      else
        Built(t.command, log)
    else if t.entrypoint.None? then
      Built(None, Add(log, "run: not_applicable"))
    else
      var check := CheckEntrypoint(t, fs, log);
      if !check.ok then
        Built(None, check.log)
      else
        var ep := t.entrypoint.value;
        if t.runtime == Python || t.runtime == Node || t.runtime == Bash then
          if !Truthy(exe) then Built(None, Add(log, "runtime: missing"))
          else Built(Some([exe.value, ep]), log)
        else if t.runtime == Go then
          if !Truthy(exe) then Built(None, Add(log, "runtime: missing"))
          else Built(Some([exe.value, "run", ep]), log)
        else
          Built(None, Add(log, "runtime: unknown"))
  }

  /** The attempt counts as a start: a clean exit, or still running when
      the timeout expires. */
  predicate Started(o: RunOutcome) {
    o == Exited(0) || o == TimedOut
  }

  /** The fact `run_attempt` records for an outcome. */
  function RunFact(o: RunOutcome): string {
    match o
    case SpawnNotFound => "run: not_found"
    case SpawnError => "run: spawn_error"
    case Exited(code) => "run: exit_code=" + IntToString(code)
    case TimedOut => "run: timeout_running"
    case WaitError => "run: wait_error"
  }

  /** `run_attempt`, given how the spawn and the wait end: one fact is
      recorded, and the attempt succeeds exactly for a clean exit or a
      process still running at the timeout. */
  function RunAttempt(o: RunOutcome, log: Log): (r: Check)
    ensures r.ok <==> Started(o)
    ensures |r.log| == Min(|log| + 1, MaxLines) || |log| > MaxLines
    ensures Extends(log, r.log)
    ensures Bounded(log) ==> Bounded(r.log)
  {
    var ok := match o
      case Exited(code) => code == 0
      case TimedOut => true
      case _ => false;
    Check(ok, Add(log, RunFact(o)))
  }

  /** The process statuses an operating system reports: 32 bits at most. */
  predicate StatusRange(o: RunOutcome) {
    o.Exited? ==> -0x1_0000_0000 < o.code < 0x1_0000_0000
  }

  /** An exit fact fits a log line and needs no sanitising. */
  lemma ExitFactIsClean(code: int)
    requires -0x1_0000_0000 < code < 0x1_0000_0000
    ensures var f := "run: exit_code=" + IntToString(code);
      Trimmed(f) && '\n' !in f && |f| <= MaxEntryLength
  {
    var digits := IntToString(code);
    var f := "run: exit_code=" + digits;
    assert Pow10(10) == 10000000000;
    IntToStringLength(code, 10);
    assert f[|f| - 1] == digits[|digits| - 1];
    assert '\n' !in digits by {
      forall i | 0 <= i < |digits| ensures digits[i] != '\n' {
        if i > 0 {
          assert IsDigit(digits[i]);
        }
      }
    }
  }

  /** Every fact of a run attempt fits a log line and needs no sanitising. */
  lemma RunFactIsClean(o: RunOutcome)
    requires StatusRange(o)
    ensures Trimmed(RunFact(o)) && '\n' !in RunFact(o) && |RunFact(o)| <= MaxEntryLength
  {
    if o.Exited? {
      ExitFactIsClean(o.code);
    }
  }

  /** Two exit facts are equal only for equal codes. */
  lemma ExitFactInjective(a: int, b: int)
    requires "run: exit_code=" + IntToString(a) == "run: exit_code=" + IntToString(b)
    ensures a == b
  {
    var p := "run: exit_code=";
    assert IntToString(a) == (p + IntToString(a))[|p|..];
    assert IntToString(b) == (p + IntToString(b))[|p|..];
    IntToStringInjective(a, b);
  }

  /** Distinct outcomes record distinct facts. */
  lemma RunFactInjective(o1: RunOutcome, o2: RunOutcome)
    requires RunFact(o1) == RunFact(o2)
    ensures o1 == o2
  {
    if o1.Exited? && o2.Exited? {
      ExitFactInjective(o1.code, o2.code);
    } else {
      // the sixth character tells the kinds apart
      assert RunFact(o1)[5] == RunFact(o2)[5];
    }
  }

  /** The recorded fact identifies the outcome: two attempts that leave the
      same log (while it has room) ended the same way. */
  lemma RunFactIdentifiesOutcome(o1: RunOutcome, o2: RunOutcome, log: Log)
    requires StatusRange(o1) && StatusRange(o2)
    requires |log| < MaxLines
    requires RunAttempt(o1, log).log == RunAttempt(o2, log).log
    ensures o1 == o2
  {
    RunFactIsClean(o1);
    RunFactIsClean(o2);
    CleanFactStoredVerbatim(log, RunFact(o1));
    CleanFactStoredVerbatim(log, RunFact(o2));
    assert RunFact(o1) == RunAttempt(o1, log).log[|log|] == RunFact(o2);
    RunFactInjective(o1, o2);
  }
}
