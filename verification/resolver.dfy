/** The target resolver of envcheck.py: turning the argument into a
    `Target` (`guess_runtime_from_command`, `find_entrypoint_in_dir`,
    `guess_runtime_from_file`, `classify_project_dir`, `parse_target`). */
module Resolver {
  import opened Optional
  import opened Strings
  import opened Paths
  import opened FactLog
  import opened Host
  import opened InputClassifier

  datatype Kind = File | Dir | Command

  datatype Runtime = Python | Node | Bash | Go | Unknown

  datatype ProjectType = App | Library | UnknownType

  /** The resolved description of what is checked and possibly run. */
  datatype Target = Target(
    kind: Kind,
    path: Option<string>,
    command: Option<seq<string>>,
    entrypoint: Option<string>,
    runtime: Runtime,
    projectType: ProjectType)
  {
    /** The shapes `parse_target` produces: a command target has no path or
        entry point, and its token list, when present, is non-empty (a
        missing one comes with an unknown runtime); a path target has no
        token list; a file target runs itself, and one without an entry
        point is a path that was not found. */
    predicate Valid() {
      && (kind == Command <==> path.None?)
      && (kind == Command ==> entrypoint.None?)
      && (command.Some? ==> kind == Command && command.value != [])
      && (kind == Command && command.None? ==> runtime == Unknown && projectType == UnknownType)
      && (kind == File && entrypoint.Some? ==> entrypoint == path)
      && (kind == File && entrypoint.None? ==> runtime == Unknown && projectType == UnknownType)
    }
  }

  /** Entry point names tried in a directory, highest priority first. */
  const EntrypointPatterns: seq<string> :=
    ["main.py", "run.py", "app.py", "index.js", "main.js", "run.sh", "main.sh", "main.go"]

  /** Extensions globbed, in order, when no pattern names a file. */
  const FallbackExtensions: seq<string> := [".sh", ".js", ".go"]

  /** The lowercased file suffix to runtime table. */
  const ExtensionRuntimes: map<string, Runtime> :=
    map[".py" := Python, ".js" := Node, ".sh" := Bash, ".go" := Go]

  /** The lowercased command basename to runtime table. */
  const CommandRuntimes: map<string, Runtime> :=
    map["python" := Python, "python3" := Python, "py" := Python, "node" := Node,
        "bash" := Bash, "sh" := Bash, "go" := Go]

  // ---------------------------------------------------------------------------
  // Runtime of a command

  /** `guess_runtime_from_command`: the runtime named by the first token's
      lowercased basename. */
  function GuessRuntimeFromCommand(cmd: seq<string>): (r: Runtime)
    requires |cmd| > 0
    ensures var head := Lower(Name(cmd[0]));
      r == (if head in CommandRuntimes then CommandRuntimes[head] else Unknown)
  {
    var head := Lower(Name(cmd[0]));
    CommandTableLookup(head);
    if head == "python" || head == "python3" || head == "py" then Python
    else if head == "node" then Node
    else if head == "bash" || head == "sh" then Bash
    else if head == "go" then Go
    else Unknown
  }

  /** The command table, entry by entry. */
  lemma CommandTableLookup(head: string)
    ensures head in CommandRuntimes <==>
      head == "python" || head == "python3" || head == "py" || head == "node"
      || head == "bash" || head == "sh" || head == "go"
    ensures head == "python" || head == "python3" || head == "py" ==> CommandRuntimes[head] == Python
    ensures head == "node" ==> CommandRuntimes[head] == Node
    ensures head == "bash" || head == "sh" ==> CommandRuntimes[head] == Bash
    ensures head == "go" ==> CommandRuntimes[head] == Go
  {
    assert "py" != "sh" && "py" != "go" && "sh" != "go" by {
      assert "py"[0] != "sh"[0] && "py"[0] != "go"[0] && "sh"[0] != "go"[0];
    }
    assert "node" != "bash" by { assert "node"[0] != "bash"[0]; }
  }

  /** Only the basename of the first token matters: a directory in front of
      it, and the remaining tokens, change nothing. */
  lemma CommandRuntimeIgnoresDirectory(dir: string, head: string, rest: seq<string>)
    requires head != [] && '/' !in head
    ensures GuessRuntimeFromCommand([dir + "/" + head] + rest) == GuessRuntimeFromCommand([head])
  {
    NameOfPrefixed(dir, head);
    NameOfPlain(head);
  }

  // ---------------------------------------------------------------------------
  // Runtime of a file

  /** The shebang check: only a line starting with "#!" names a runtime,
      looked for in the order python, node, then bash or "/sh". */
  function ShebangRuntime(line: string): (r: Runtime)
    ensures r == Python <==> StartsWith(line, "#!") && Contains(line, "python")
    ensures r == Node <==> StartsWith(line, "#!") && !Contains(line, "python") && Contains(line, "node")
    ensures r == Bash <==>
      StartsWith(line, "#!") && !Contains(line, "python") && !Contains(line, "node")
      && (Contains(line, "bash") || Contains(line, "/sh"))
    ensures r != Go
  {
    if StartsWith(line, "#!") then
      if Contains(line, "python") then Python
      else if Contains(line, "node") then Node
      else if Contains(line, "bash") || Contains(line, "/sh") then Bash
      else Unknown
    else
      Unknown
  }

  datatype RuntimeGuess = RuntimeGuess(runtime: Runtime, log: Log)

  function ExecutableFact(access: Option<bool>): string {
    match access
    case Some(true) => "executable: yes"
    case Some(false) => "executable: no"
    case None => "executable: unknown"
  }

  /** The lowercased suffix of a path's name. */
  function Extension(f: string): string {
    Lower(Suffix(Name(f)))
  }

  /** `guess_runtime_from_file`: the suffix decides when it is in the table;
      only otherwise is the first line read for a shebang. */
  function GuessRuntimeFromFile(f: string, fs: FileSystem, log: Log): (r: RuntimeGuess)
    ensures Extension(f) in ExtensionRuntimes ==> r.runtime == ExtensionRuntimes[Extension(f)]
    ensures Extension(f) !in ExtensionRuntimes ==>
      r.runtime == ShebangRuntime(Strip(fs.firstLine(f).GetOr("")))
    ensures Extends(log, r.log) && |r.log| <= |log| + 1
    ensures Bounded(log) ==> Bounded(r.log)
  {
    var ext := Extension(f);
    if ext in ExtensionRuntimes then
      // only a shell script also records whether it is executable
      var log' := if ext == ".sh" then Add(log, ExecutableFact(fs.executable(f))) else log;
      RuntimeGuess(ExtensionRuntimes[ext], log')
    else
      ShebangGuess(f, fs, log)
  }

  /** The shebang branch of `guess_runtime_from_file`: the runtime named by
      the stripped first line, and a fact when it names none. */
  function ShebangGuess(f: string, fs: FileSystem, log: Log): (r: RuntimeGuess)
    ensures r.runtime == ShebangRuntime(Strip(fs.firstLine(f).GetOr("")))
    ensures r.runtime != Unknown ==> r.log == log
    ensures Extends(log, r.log) && |r.log| <= |log| + 1
    ensures Bounded(log) ==> Bounded(r.log)
  {
    var first := Strip(fs.firstLine(f).GetOr(""));
    var rt := ShebangRuntime(first);
    if rt != Unknown then RuntimeGuess(rt, log) else RuntimeGuess(Unknown, Add(log, "runtime: unknown"))
  }

  /** The suffix table, entry by entry. */
  lemma ExtensionTableLookup(ext: string)
    ensures ext in ExtensionRuntimes <==> ext == ".py" || ext == ".js" || ext == ".sh" || ext == ".go"
    ensures ext == ".py" ==> ExtensionRuntimes[ext] == Python
    ensures ext == ".js" ==> ExtensionRuntimes[ext] == Node
    ensures ext == ".sh" ==> ExtensionRuntimes[ext] == Bash
    ensures ext == ".go" ==> ExtensionRuntimes[ext] == Go
  {
    assert ".py"[1] == 'p' && ".js"[1] == 'j' && ".sh"[1] == 's' && ".go"[1] == 'g';
  }

  // ---------------------------------------------------------------------------
  // Entry point discovery

  /** `d / name` exists and is a regular file. */
  predicate IsFileIn(fs: FileSystem, d: string, name: string) {
    fs.pathExists(Join(d, name)) && fs.isFile(Join(d, name))
  }

  /** The names among `names` that end with `ext`. */
  function EndingWith(names: seq<string>, ext: string): (r: seq<string>)
    ensures forall x :: x in r <==> x in names && EndsWith(x, ext)
  {
    if |names| == 0 then []
    else
      var rest := EndingWith(names[1..], ext);
      assert forall x :: x in names <==> x == names[0] || x in names[1..];
      if EndsWith(names[0], ext) then [names[0]] + rest else rest
  }

  /** `d.glob("*" + ext)`: every entry of `d` whose name ends with `ext`,
      dot files and directories included. */
  function Matches(fs: FileSystem, d: string, ext: string): seq<string> {
    EndingWith(fs.entries(d), ext)
  }

  /** Pattern `k` is the highest-priority pattern naming a file in `d`. */
  predicate IsFirstPattern(fs: FileSystem, d: string, k: int) {
    && 0 <= k < |EntrypointPatterns|
    && IsFileIn(fs, d, EntrypointPatterns[k])
    && forall j :: 0 <= j < k ==> !IsFileIn(fs, d, EntrypointPatterns[j])
  }

  predicate NoPatternFile(fs: FileSystem, d: string) {
    forall k :: 0 <= k < |EntrypointPatterns| ==> !IsFileIn(fs, d, EntrypointPatterns[k])
  }

  /** Fallback extension `e` is the first one that globs anything in `d`. */
  predicate IsFirstMatchingExtension(fs: FileSystem, d: string, e: int) {
    && 0 <= e < |FallbackExtensions|
    && |Matches(fs, d, FallbackExtensions[e])| > 0
    && forall j :: 0 <= j < e ==> |Matches(fs, d, FallbackExtensions[j])| == 0
  }

  predicate NoMatches(fs: FileSystem, d: string) {
    forall e :: 0 <= e < |FallbackExtensions| ==> |Matches(fs, d, FallbackExtensions[e])| == 0
  }

  /** The loop over `ENTRYPOINT_PATTERNS`, from position `i` on. */
  function FirstPatternFrom(fs: FileSystem, d: string, i: nat): (r: Option<nat>)
    requires i <= |EntrypointPatterns|
    ensures r.Some? ==> i <= r.value < |EntrypointPatterns| && IsFileIn(fs, d, EntrypointPatterns[r.value])
    ensures r.Some? ==> forall j :: i <= j < r.value ==> !IsFileIn(fs, d, EntrypointPatterns[j])
    ensures r.None? ==> forall j :: i <= j < |EntrypointPatterns| ==> !IsFileIn(fs, d, EntrypointPatterns[j])
    decreases |EntrypointPatterns| - i
  {
    if i == |EntrypointPatterns| then None
    else if IsFileIn(fs, d, EntrypointPatterns[i]) then Some(i)
    else FirstPatternFrom(fs, d, i + 1)
  }

  /** The loop over the fallback extensions, from position `i` on. */
  function FirstExtensionFrom(fs: FileSystem, d: string, i: nat): (r: Option<nat>)
    requires i <= |FallbackExtensions|
    ensures r.Some? ==> i <= r.value < |FallbackExtensions| && |Matches(fs, d, FallbackExtensions[r.value])| > 0
    ensures r.Some? ==> forall j :: i <= j < r.value ==> |Matches(fs, d, FallbackExtensions[j])| == 0
    ensures r.None? ==> forall j :: i <= j < |FallbackExtensions| ==> |Matches(fs, d, FallbackExtensions[j])| == 0
    decreases |FallbackExtensions| - i
  {
    if i == |FallbackExtensions| then None
    else if |Matches(fs, d, FallbackExtensions[i])| > 0 then Some(i)
    else FirstExtensionFrom(fs, d, i + 1)
  }

  /** The entry point found in a directory, as a name within it. */
  datatype Discovery = Discovery(entry: Option<string>, log: Log)

  /** `find_entrypoint_in_dir`: the first pattern naming a file; failing
      that, the least name globbed by the first fallback extension that
      globs anything; failing that, none. One fact records the outcome. */
  function FindEntrypoint(d: string, fs: FileSystem, log: Log): (r: Discovery)
    ensures forall k :: IsFirstPattern(fs, d, k) ==> r.entry == Some(EntrypointPatterns[k])
    ensures NoPatternFile(fs, d) ==> forall e :: IsFirstMatchingExtension(fs, d, e) ==>
      r.entry.Some? && IsLeast(r.entry.value, Matches(fs, d, FallbackExtensions[e]))
    ensures r.entry.None? <==> NoPatternFile(fs, d) && NoMatches(fs, d)
    ensures r.entry.Some? ==> HasRuntimeExtension(r.entry.value)
    ensures |log| < MaxLines ==> |r.log| == |log| + 1
    ensures Extends(log, r.log) && |r.log| <= |log| + 1
    ensures Bounded(log) ==> Bounded(r.log)
  {
    var entry := EntrypointIn(d, fs);
    Discovery(entry, Add(log, if entry.Some? then "entrypoint: " + entry.value else "entrypoint: none"))
  }

  /** The entry point `find_entrypoint_in_dir` settles on, without its fact. */
  function EntrypointIn(d: string, fs: FileSystem): (r: Option<string>)
    ensures forall k :: IsFirstPattern(fs, d, k) ==> r == Some(EntrypointPatterns[k])
    ensures NoPatternFile(fs, d) ==> forall e :: IsFirstMatchingExtension(fs, d, e) ==>
      r.Some? && IsLeast(r.value, Matches(fs, d, FallbackExtensions[e]))
    ensures r.None? <==> NoPatternFile(fs, d) && NoMatches(fs, d)
    ensures r.Some? ==> HasRuntimeExtension(r.value)
  {
    match FirstPatternFrom(fs, d, 0)
    case Some(k0) =>
      assert forall k :: IsFirstPattern(fs, d, k) ==> k == k0;
      EntryNamesHaveRuntimeExtensions();
      Some(EntrypointPatterns[k0])
    case None => FallbackEntry(d, fs)
  }

  /** A name ending in one of the extensions of the runtime table. */
  predicate HasRuntimeExtension(name: string) {
    EndsWith(name, ".py") || EndsWith(name, ".js") || EndsWith(name, ".sh") || EndsWith(name, ".go")
  }

  /** Every entry point pattern and every fallback extension carries a
      runtime extension, so whatever the discovery returns does too. */
  lemma EntryNamesHaveRuntimeExtensions()
    ensures forall k :: 0 <= k < |EntrypointPatterns| ==> HasRuntimeExtension(EntrypointPatterns[k])
    ensures forall e, name :: 0 <= e < |FallbackExtensions| && EndsWith(name, FallbackExtensions[e]) ==>
      HasRuntimeExtension(name)
  {
    assert EndsWith("main.py", ".py") && EndsWith("run.py", ".py") && EndsWith("app.py", ".py");
    assert EndsWith("index.js", ".js") && EndsWith("main.js", ".js");
    assert EndsWith("run.sh", ".sh") && EndsWith("main.sh", ".sh") && EndsWith("main.go", ".go");
  }

  /** The fallback when no pattern names a file: the least name globbed by
      the first extension that globs anything. */
  function FallbackEntry(d: string, fs: FileSystem): (r: Option<string>)
    ensures forall e :: IsFirstMatchingExtension(fs, d, e) ==>
      r.Some? && IsLeast(r.value, Matches(fs, d, FallbackExtensions[e]))
    ensures r.None? <==> NoMatches(fs, d)
    ensures r.Some? ==> HasRuntimeExtension(r.value)
  {
    match FirstExtensionFrom(fs, d, 0)
    case Some(e) =>
      var name := Least(Matches(fs, d, FallbackExtensions[e]));
      assert EndsWith(name, FallbackExtensions[e]);
      EntryNamesHaveRuntimeExtensions();
      Some(name)
    case None => None
  }

  /** `main.py` beats every other candidate, `run.sh` included. */
  lemma MainPyHasPriority(d: string, fs: FileSystem, log: Log)
    requires IsFileIn(fs, d, "main.py")
    ensures FindEntrypoint(d, fs, log).entry == Some("main.py")
  {
    assert IsFirstPattern(fs, d, 0);
  }

  /** With no pattern present, `.sh` scripts are preferred over `.js` and
      `.go` files, and the least `.sh` name is taken. */
  lemma ShellScriptsBeatOtherFallbacks(d: string, fs: FileSystem, log: Log, script: string)
    requires NoPatternFile(fs, d)
    requires IsLeast(script, Matches(fs, d, ".sh"))
    ensures FindEntrypoint(d, fs, log).entry == Some(script)
  {
    assert IsFirstMatchingExtension(fs, d, 0);
    LeastIsUnique(FindEntrypoint(d, fs, log).entry.value, script, Matches(fs, d, ".sh"));
  }

  // ---------------------------------------------------------------------------
  // Project classification

  datatype Classification = Classification(runtime: Runtime, projectType: ProjectType, log: Log)

  /** `_dir_has_any_py`: some entry of `d` ends with ".py". */
  predicate HasPythonFiles(fs: FileSystem, d: string) {
    |Matches(fs, d, ".py")| > 0
  }

  /** `classify_project_dir`: an entry point makes an app; without one the
      manifests decide, in the order package.json, then pyproject.toml or
      any *.py, then go.mod. */
  function ClassifyProjectDir(d: string, ep: Option<string>, fs: FileSystem, log: Log): (r: Classification)
    ensures r.projectType == App <==> ep.Some?
    ensures ep.None? ==> (r.runtime == Node <==> IsFileIn(fs, d, "package.json"))
    ensures ep.None? ==> (r.runtime == Python <==>
      !IsFileIn(fs, d, "package.json") && (IsFileIn(fs, d, "pyproject.toml") || HasPythonFiles(fs, d)))
    ensures ep.None? ==> (r.runtime == Go <==>
      !IsFileIn(fs, d, "package.json") && !IsFileIn(fs, d, "pyproject.toml") && !HasPythonFiles(fs, d)
      && IsFileIn(fs, d, "go.mod"))
    ensures ep.None? ==> (r.projectType == Library <==> r.runtime != Unknown)
    ensures ep.None? ==> r.runtime != Bash
    ensures ep.Some? ==> r.runtime == GuessRuntimeFromFile(ep.value, fs, log).runtime
    ensures Extends(log, r.log) && |r.log| <= |log| + 1
    ensures Bounded(log) ==> Bounded(r.log)
  {
    if ep.Some? then
      var g := GuessRuntimeFromFile(ep.value, fs, log);
      Classification(g.runtime, App, g.log)
    else if IsFileIn(fs, d, "package.json") then
      Classification(Node, Library, log)
    else if IsFileIn(fs, d, "pyproject.toml") || HasPythonFiles(fs, d) then
      var log' := if HasPythonFiles(fs, d) then Add(log, "python_dir: py_files_present") else log;
      Classification(Python, Library, log')
    else if IsFileIn(fs, d, "go.mod") then
      Classification(Go, Library, log)
    else
      Classification(Unknown, UnknownType, log)
  }

  // ---------------------------------------------------------------------------
  // parse_target

  datatype Resolution = Resolution(target: Target, log: Log)

  /** The fact recorded for a command: its first six tokens, and " ..."
      when there are more. */
  function CommandFact(cmd: seq<string>): string {
    "input: command=" + JoinWith(" ", cmd[..Min(|cmd|, 6)]) + (if |cmd| > 6 then " ..." else "")
  }

  /** The argument `parse_target` goes on with: stripped, and unquoted when
      its quoted text names an existing path. */
  function EffectiveInput(raw: string, fs: FileSystem): string {
    var s := Strip(raw);
    var u := Unquote(s);
    if u.wrapped && fs.pathExists(u.text) then u.text else s
  }

  /** `parse_target`: resolve the argument as a command, an existing file,
      an existing directory, or a path that was not found. */
  function ParseTarget(raw: string, fs: FileSystem, tokenize: string -> Option<seq<string>>, log: Log)
    : (r: Resolution)
    ensures r.target.Valid()
    ensures r.target.kind == Command <==> IsCommandInput(EffectiveInput(raw, fs), fs.pathExists)
    ensures r.target.kind == Dir ==> r.target.path == Some(EffectiveInput(raw, fs))
    ensures r.target.kind == File ==> r.target.path == Some(EffectiveInput(raw, fs))
    ensures var e := EffectiveInput(raw, fs);
      IsCommandInput(e, fs.pathExists) ==> r == CommandTarget(e, tokenize, log)
    ensures var e := EffectiveInput(raw, fs);
      IsCommandInput(e, fs.pathExists) ==>
        && (r.target.command.Some? <==> tokenize(e).Some? && tokenize(e).value != [])
        && (r.target.command.Some? ==>
              && r.target.command == tokenize(e)
              && r.target.runtime == GuessRuntimeFromCommand(tokenize(e).value)
              && r.target.projectType == App)
    ensures var e := EffectiveInput(raw, fs);
      !IsCommandInput(e, fs.pathExists) && fs.isFile(e) ==>
        && r.target.kind == File && r.target.entrypoint == Some(e)
        && r.target.runtime == GuessRuntimeFromFile(e, fs, log).runtime
        && r.target.projectType == App
    ensures var e := EffectiveInput(raw, fs);
      !IsCommandInput(e, fs.pathExists) && !fs.isFile(e) && fs.isDir(e) ==>
        var ep := DirEntrypoint(e, fs);
        && r.target.kind == Dir && r.target.entrypoint == ep
        && r.target.runtime == ClassifyProjectDir(e, ep, fs, log).runtime
        && r.target.projectType == ClassifyProjectDir(e, ep, fs, log).projectType
    ensures var e := EffectiveInput(raw, fs);
      !IsCommandInput(e, fs.pathExists) && !fs.isFile(e) && !fs.isDir(e) ==>
        && r.target.kind == File && r.target.entrypoint.None?
        && r.target.runtime == Unknown && r.target.projectType == UnknownType
    ensures Extends(log, r.log)
    ensures Bounded(log) ==> Bounded(r.log)
  {
    var e := EffectiveInput(raw, fs);
    if IsCommandInput(e, fs.pathExists) then
      CommandTarget(e, tokenize, log)
    else if fs.isFile(e) then
      FileTarget(e, fs, log)
    else if fs.isDir(e) then
      DirTarget(e, fs, log)
    else
      Resolution(Target(File, Some(e), None, None, Unknown, UnknownType), Add(log, "input: not_found"))
  }

  /** The command branch of `parse_target`: the tokens of the input, when
      they parse to a non-empty list, with the runtime they name. */
  function CommandTarget(e: string, tokenize: string -> Option<seq<string>>, log: Log): (r: Resolution)
    ensures r.target.Valid() && r.target.kind == Command
    ensures r.target.command.Some? <==> tokenize(e).Some? && tokenize(e).value != []
    ensures tokenize(e).None? ==> r.log == Add(log, "command: parse_error")
    ensures tokenize(e) == Some([]) ==> r.log == Add(log, "command: empty")
    ensures r.target.command.Some? ==> r.log == Add(log, CommandFact(r.target.command.value))
    ensures r.target.command.Some? ==>
      && r.target.command == tokenize(e)
      && r.target.runtime == GuessRuntimeFromCommand(tokenize(e).value)
      && r.target.projectType == App
    ensures Extends(log, r.log)
    ensures Bounded(log) ==> Bounded(r.log)
  {
    match tokenize(e)
    case None =>
      Resolution(Target(Command, None, None, None, Unknown, UnknownType), Add(log, "command: parse_error"))
    case Some(cmd) =>
      if |cmd| == 0 then
        Resolution(Target(Command, None, None, None, Unknown, UnknownType), Add(log, "command: empty"))
      else
        Resolution(Target(Command, None, Some(cmd), None, GuessRuntimeFromCommand(cmd), App),
                   Add(log, CommandFact(cmd)))
  }

  /** The file branch of `parse_target`: the file runs itself, as an app,
      with the runtime its name or first line names. */
  function FileTarget(e: string, fs: FileSystem, log: Log): (r: Resolution)
    ensures r.target.Valid()
    ensures r.target == Target(File, Some(e), None, Some(e), GuessRuntimeFromFile(e, fs, log).runtime, App)
    ensures Extends(log, r.log)
    ensures Bounded(log) ==> Bounded(r.log)
  {
    var log1 := Add(log, "input: file=" + e);
    var g := GuessRuntimeFromFile(e, fs, log1);
    ExtendsTransitive(log, log1, g.log);
    Resolution(Target(File, Some(e), None, Some(e), g.runtime, App), g.log)
  }

  /** The entry point of a directory target: the discovered name joined
      onto the directory. */
  function DirEntrypoint(d: string, fs: FileSystem): (r: Option<string>)
    ensures r.Some? <==> EntrypointIn(d, fs).Some?
    ensures r.Some? ==> r.value == Join(d, EntrypointIn(d, fs).value)
  {
    var found := EntrypointIn(d, fs);
    if found.Some? then Some(Join(d, found.value)) else None
  }

  /** The directory branch of `parse_target`: the discovered entry point,
      and the runtime and project type the directory is classified with. */
  function DirTarget(d: string, fs: FileSystem, log: Log): (r: Resolution)
    ensures r.target.Valid()
    ensures var ep := DirEntrypoint(d, fs);
      && r.target.kind == Dir && r.target.path == Some(d) && r.target.entrypoint == ep
      && r.target.command.None?
      && r.target.runtime == ClassifyProjectDir(d, ep, fs, log).runtime
      && r.target.projectType == ClassifyProjectDir(d, ep, fs, log).projectType
    ensures Extends(log, r.log)
    ensures Bounded(log) ==> Bounded(r.log)
  {
    var log1 := Add(log, "input: dir=" + d);
    var disc := FindEntrypoint(d, fs, log1);
    var ep := if disc.entry.Some? then Some(Join(d, disc.entry.value)) else None;
    var c := ClassifyProjectDir(d, ep, fs, disc.log);
    ClassifyIgnoresLog(d, ep, fs, disc.log, log);
    ExtendsTransitive(log, log1, disc.log);
    ExtendsTransitive(log, disc.log, c.log);
    Resolution(Target(Dir, Some(d), None, ep, c.runtime, c.projectType), c.log)
  }

  /** The classification of a directory does not depend on the log. */
  lemma ClassifyIgnoresLog(d: string, ep: Option<string>, fs: FileSystem, log: Log, log': Log)
    ensures ClassifyProjectDir(d, ep, fs, log).runtime == ClassifyProjectDir(d, ep, fs, log').runtime
    ensures ClassifyProjectDir(d, ep, fs, log).projectType == ClassifyProjectDir(d, ep, fs, log').projectType
  {
  }

  /** An existing regular file with a suffix in the table resolves to a
      file target that runs itself, with the table's runtime, as an app. */
  lemma KnownFileResolves(raw: string, fs: FileSystem, tokenize: string -> Option<seq<string>>, log: Log)
    requires Trimmed(raw) && !Wrapped(raw)
    requires fs.isFile(raw) && fs.pathExists(raw)
    requires Extension(raw) in ExtensionRuntimes
    ensures ParseTarget(raw, fs, tokenize, log).target
      == Target(File, Some(raw), None, Some(raw), ExtensionRuntimes[Extension(raw)], App)
  {
    StripOfTrimmed(raw);
    assert EffectiveInput(raw, fs) == raw;
  }

  /** A quoted, existing path is resolved as that path, whatever whitespace
      it holds, as long as the quoted text has no padding of its own and is
      not itself quoted. */
  lemma QuotedPathResolvesAsPath(pad1: string, q: char, text: string, pad2: string, fs: FileSystem,
                                 tokenize: string -> Option<seq<string>>, log: Log)
    requires AllSpace(pad1) && AllSpace(pad2) && IsQuote(q)
    requires Trimmed(text) && !Wrapped(text)
    requires fs.pathExists(text)
    ensures var t := ParseTarget(pad1 + [q] + text + [q] + pad2, fs, tokenize, log).target;
      t.kind != Command && t.path == Some(text)
  {
    var raw := pad1 + [q] + text + [q] + pad2;
    UnquoteOfQuoted(pad1, q, text, pad2);
    StripIdempotent(raw);
    assert Unquote(Strip(raw)) == Unquote(raw);
    assert EffectiveInput(raw, fs) == text;
    StripOfTrimmed(text);
  }

  /** Quoted text with padding inside the quotes is stripped again before
      the command test, so an existing " a b" whose stripped form "a b" does
      not exist is run as a command, not treated as a path. */
  lemma PaddedQuotedPathBecomesCommand(q: char, core: string, fs: FileSystem,
                                       tokenize: string -> Option<seq<string>>, log: Log)
    requires IsQuote(q)
    requires Trimmed(core) && !Wrapped(core) && HasSpace(core)
    requires fs.pathExists(" " + core) && !fs.pathExists(core)
    ensures ParseTarget([q] + " " + core + [q], fs, tokenize, log).target.kind == Command
  {
    PaddedQuotedInput(q, core, fs);
    PaddedTextIsCommand(core, fs.pathExists);
  }

  /** The quotes come off an existing padded path. */
  lemma PaddedQuotedInput(q: char, core: string, fs: FileSystem)
    requires IsQuote(q) && Trimmed(core)
    requires fs.pathExists(" " + core)
    ensures EffectiveInput([q] + " " + core + [q], fs) == " " + core
  {
    var raw := [q] + " " + core + [q];
    var text := " " + core;
    UnquoteOfQuoted([], q, text, []);
    assert [] + [q] + text + [q] + [] == raw;
    StripOfTrimmed(raw);
  }

  /** Padded text with inner whitespace whose stripped form does not exist
      is a command. */
  lemma PaddedTextIsCommand(core: string, pathExists: string -> bool)
    requires Trimmed(core) && !Wrapped(core) && HasSpace(core) && !pathExists(core)
    ensures IsCommandInput(" " + core, pathExists)
  {
    StripPadded(" ", core, []);
    assert " " + core + [] == " " + core;
  }

  /** A directory holding only a package.json, with no entry point and no
      script to glob, is a node library. */
  lemma PackageJsonOnlyIsNodeLibrary(d: string, fs: FileSystem, tokenize: string -> Option<seq<string>>, log: Log)
    requires Trimmed(d) && !Wrapped(d) && !HasSpace(d)
    requires fs.isDir(d) && !fs.isFile(d)
    requires NoPatternFile(fs, d) && NoMatches(fs, d)
    requires IsFileIn(fs, d, "package.json")
    ensures var t := ParseTarget(d, fs, tokenize, log).target;
      t.kind == Dir && t.entrypoint.None? && t.runtime == Node && t.projectType == Library
  {
    StripOfTrimmed(d);
    assert EffectiveInput(d, fs) == d;
  }
}
