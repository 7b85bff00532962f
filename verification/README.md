# envcheck decision pipeline, modelled in Dafny

`envcheck.py` is a one-shot command-line checker. It takes one argument: a
file, a directory or a shell command. It resolves that argument to a target,
finds a runtime for it (python, node, bash or go), records up to ten short
facts in a log, and then either stops or makes one run attempt. A library
directory stops there. Anything else is run once. The checker prints
SUCCESS or FAIL.

This project models that decision pipeline as pure functions over immutable
data. The host is an abstract input:

- the filesystem is a record of query functions (`Host.FileSystem`);
- `shlex.split`, `shutil.which`, `<exe> --version`, requirements.txt
  reading, `importlib.util.find_spec` and the process outcome are all
  parameters (`Pipeline.Env`).

The fact log is a `seq<string>` threaded through every step. Every step
that is handed a log promises that it only appends to it and that a
bounded log stays bounded; `main` starts from an empty log.

Modules, in dependency order:

- `Optional`: the `Option` type.
- `Strings`: the Python string operations used: `isspace`, `strip`,
  `split()[0]`, `in`, `split(sep, 1)[0]`, `startswith`/`endswith`,
  ASCII `lower`, `str(int)`, and code-point ordering.
- `Paths`: the `pathlib` notions used: `name`, `suffix`, `/` and `parent`.
- `FactLog`: `Log.add`.
- `Host`: the abstract filesystem and the outcome types of processes.
- `InputClassifier`: `unquote_if_wrapped` and `is_command_input`.
- `Resolver`: `guess_runtime_from_command`, `guess_runtime_from_file`,
  `find_entrypoint_in_dir`, `classify_project_dir` and `parse_target`.
- `Requirements`: `python_deps_probe_from_requirements`, including the
  requirement-name loop. This loop exists twice, once as written and once
  corrected (see Findings).
- `Runner`: `check_entrypoint_exists`, `build_run_command` and
  `run_attempt`.
- `Pipeline`: `which_runtime`, `get_runtime_version` and `main`. `main`
  also exists twice, as written and with the corrected loop.

### Behaviour worth knowing

- **Fact sanitising.** A fact is stripped, each `'\n'` in it becomes a
  space, and it is cut to 240 characters (`FactLog.Sanitize`). Only `'\n'`
  is replaced: other control characters, such as `'\r'`, are stored as
  they are.
- **Probe results.** A requirements line that starts with `;` makes the
  dependency probe raise, and the exception escapes `main` (see
  Findings). With the loop corrected, the probe only records facts
  (`Pipeline.ProbeNeverDecides`).
- **Quoted input with inner padding.** For the argument `' a b'`, quotes
  included, the unquoted text ` a b` is stripped again inside
  `is_command_input`. `is_command_input` then asks whether the stripped
  text `a b` exists, not the original ` a b`
  (`Resolver.PaddedQuotedPathBecomesCommand`).
- **Access errors.** `unquote` and `is_command_input` guard their
  `exists()` calls, but `parse_target`, `find_entrypoint_in_dir`, the
  dependency probe and `check_entrypoint_exists` do not guard theirs. The
  model keeps every query total (see Left out).
- **Relative directory targets.** The entry point of a directory target
  is the discovered name joined onto the directory (envcheck.py:118-121),
  and the run step also spawns it with the directory as its working
  directory (envcheck.py:509-514). No path is ever made absolute, so for a
  relative directory `proj` the command line ends in `proj/main.py` while
  the child starts in `proj`, where it looks for `proj/proj/main.py`
  (`Pipeline.RelativeDirectoryRunRepeatsDirectory`). The model keeps this
  behaviour.

## Model

| member | source | states |
|---|---|---|
| FactLog.Sanitize | envcheck.py:50-52 | the stored form of a fact is at most 240 characters and holds no newline; it is the stripped fact, cut to 240 characters, with each `'\n'` turned into a space and every other character kept |
| FactLog.Add | envcheck.py:49-52 | the log only grows at its end; below ten entries exactly the sanitized fact is appended; at ten entries the log is unchanged; a bounded log stays bounded |
| FactLog.AddAll | envcheck.py:49-52 | adding many facts in turn keeps every earlier entry in place and keeps a bounded log bounded |
| FactLog.CleanFactStoredVerbatim | envcheck.py:50-52 | a fact that is already stripped, single-line and at most 240 characters is stored exactly as given |
| FactLog.ManyFactsStayBounded | envcheck.py:49-52 | however many facts are added, the log stays at ten entries or fewer; once it is full, further facts leave it unchanged |
| Strings.Strip | envcheck.py:51 | `strip()` leaves no whitespace at either end, is never longer than the input, and is empty exactly when the input is all whitespace |
| Strings.StripPadded | envcheck.py:77 | whitespace padding around a trimmed text is exactly what `strip()` removes |
| Strings.Least | envcheck.py:126-128 | the first element of `sorted(...)`: a member of the list that is at or below every member in code-point order |
| Strings.NatToStringRoundTrip | envcheck.py:450 | reading back the decimal rendering of a number gives the number |
| Strings.IntToStringInjective | envcheck.py:450 | two different exit codes never render to the same text |
| Strings.SplitJoinRoundTrip | envcheck.py:379 | splitting a `sep.join(parts)` on a one-character separator that no part holds gives the parts back, in order |
| Strings.DigitRunUnique | envcheck.py:377 | text made of a run of digits followed by a non-digit splits into the two only one way |
| Paths.NameOfJoin | envcheck.py:120-122 | the name of `d / n` is `n` for a plain name `n`, whatever the directory |
| Paths.LastIndexOf | envcheck.py:136 | the index found holds the character and no later position does; none means the character does not occur at all (`str.rfind`) |
| Paths.SuffixOfExtension | envcheck.py:136 | a name ending in a one-dot extension longer than the extension has exactly that suffix |
| InputClassifier.Unquote | envcheck.py:76-80 | wrapped exactly when the stripped input has length at least 2 and starts and ends with the same quote; the text is then that input without its two quotes; an input that is not wrapped comes back unchanged |
| InputClassifier.Inner | envcheck.py:78-79 | `s[1:-1]` of a wrapped string: two characters shorter, and the string is exactly that text between its two outer quotes |
| InputClassifier.UnquoteOfQuoted | envcheck.py:76-80 | quoting any text, with any padding, and unquoting gives back the text (round trip) |
| InputClassifier.IsCommandInput | envcheck.py:83-102 | wrapped input is a command exactly when its inner text does not exist; unwrapped input without whitespace is never a command; unwrapped input with whitespace is a command exactly when it does not exist |
| InputClassifier.QuotedExistingPathIsNotCommand | envcheck.py:83-92 | a quoted path that exists is never taken for a command |
| Resolver.GuessRuntimeFromCommand | envcheck.py:105-115 | the runtime is the command table's entry for the lowercased basename of the first token, and unknown when there is none |
| Resolver.CommandRuntimeIgnoresDirectory | envcheck.py:106 | a directory in front of the program, and every later token, leave the runtime unchanged |
| Resolver.ShebangRuntime | envcheck.py:151-159 | only a first line starting with `#!` names a runtime: python if it mentions python; else node if it mentions node; else bash if it mentions bash or `/sh`; it never names go |
| Resolver.GuessRuntimeFromFile | envcheck.py:135-163 | a suffix in the table decides the runtime; only for other suffixes is the shebang of the stripped first line consulted; at most one fact is added |
| Resolver.ExtensionTableLookup | envcheck.py:136-148 | the suffix table holds exactly `.py` for python, `.js` for node, `.sh` for bash and `.go` for go |
| Resolver.ShebangGuess | envcheck.py:150-163 | the runtime is the one the stripped first line names as a shebang; a fact is added only when it names none |
| Resolver.FirstPatternFrom | envcheck.py:119-123 | the index found is the first entry-point pattern, from the given position on, that names an existing file; none means no later pattern does |
| Resolver.FirstExtensionFrom | envcheck.py:125-129 | the index found is the first fallback extension, from the given position on, with a glob match; none means no later one has any |
| Resolver.FindEntrypoint | envcheck.py:118-132 | the first pattern naming a file wins; only when there is none, the least match of the first extension among `.sh`, `.js`, `.go` with any match; none exactly when no pattern and no glob matches; the name found ends in `.py`, `.js`, `.sh` or `.go`; exactly one fact is added |
| Resolver.EntryNamesHaveRuntimeExtensions | envcheck.py:25-30 | every entry-point pattern, and every name a fallback extension globs, ends in one of the suffixes of the runtime table |
| Resolver.FallbackEntry | envcheck.py:125-132 | the least name globbed by the first fallback extension with any match; none exactly when no extension matches anything |
| Resolver.MainPyHasPriority | envcheck.py:119-123 | when `main.py` is a file in the directory it is the entry point, whatever else is there |
| Resolver.ShellScriptsBeatOtherFallbacks | envcheck.py:125-129 | with no pattern file present, the least `.sh` name is the entry point, ahead of any `.js` or `.go` file |
| Resolver.ClassifyProjectDir | envcheck.py:181-197 | with an entry point: an app, with the runtime `guess_runtime_from_file` gives the entry point; without one: node library if package.json is a file, else python library if pyproject.toml is a file or any `*.py` exists, else go library if go.mod is a file, else unknown |
| Resolver.ParseTarget | envcheck.py:200-241 | the target always has a consistent shape; it is a command exactly when the effective input is command input, and then it is exactly the command branch's result (target and log), carrying the tokens when they parse to a non-empty list and then the runtime they name; an existing file runs itself with the runtime `guess_runtime_from_file` gives it; otherwise an existing directory carries its discovered entry point and its classification; otherwise the path was not found and the runtime is unknown; the log only grows and stays bounded |
| Resolver.CommandTarget | envcheck.py:211-226 | a command target carries its tokens exactly when they parse to a non-empty list, and then the runtime they name, as an app; the one fact added is `command: parse_error` when they do not parse, `command: empty` when they parse to nothing, and otherwise the command fact for the tokens |
| Resolver.FileTarget | envcheck.py:228-232 | an existing file is its own path and entry point, an app, with the runtime `guess_runtime_from_file` gives it |
| Resolver.DirTarget | envcheck.py:234-238 | a directory target carries the discovered entry point joined onto the directory, and the runtime and project type of its classification |
| Resolver.DirEntrypoint | envcheck.py:118-123 | the entry point of a directory target is present exactly when discovery finds a name, and is then that name joined onto the directory |
| Resolver.KnownFileResolves | envcheck.py:228-232 | an existing file with a suffix in the table runs itself, with the table's runtime, as an app |
| Resolver.QuotedPathResolvesAsPath | envcheck.py:203-209 | a quoted path that exists resolves as that path, even when it holds whitespace |
| Resolver.PaddedQuotedPathBecomesCommand | envcheck.py:200-218 | an existing path ` a b` given in quotes is run as a command when `a b` does not exist, because the quoted text is stripped a second time |
| Resolver.PaddedQuotedInput | envcheck.py:203-209 | the quotes come off an existing path with leading padding, and the padding is kept |
| Resolver.PaddedTextIsCommand | envcheck.py:94-100 | padded text with inner whitespace whose stripped form does not exist is command input |
| Resolver.PackageJsonOnlyIsNodeLibrary | envcheck.py:234-238 | a directory with only a package.json resolves as a node library with no entry point |
| Requirements.CutOperators | envcheck.py:351-353 | cutting at each version operator in turn leaves a prefix of the name with no whitespace and none of the seven operators; a name holding none of the remaining operators comes back unchanged |
| Requirements.WordName | envcheck.py:348-353 | the name read from a line's first word is empty or well-formed: no whitespace, no `[`, no version operator; a word that is already a well-formed name is its own name |
| Requirements.ParseLine | envcheck.py:342-353 | a line is ignored exactly when its stripped form is blank, a comment, an option, a URL or a VCS reference; any name it yields is empty or well-formed; a line holding only a well-formed name without `;` yields that name |
| Requirements.VersionPinYieldsName | envcheck.py:342-353 | a pinned requirement `name==version` yields `name`, for a well-formed name without `=` or `;` and a version without whitespace, `;` or `[` |
| Requirements.RaisesIffLeadingSemicolon | envcheck.py:346-348 | a line raises `IndexError` exactly when, once stripped, it starts with `;` and holds no `://` |
| Requirements.CollectWellFormed | envcheck.py:355-356 | every name the lines contribute is non-empty and holds no whitespace, no `[` and no version operator |
| Requirements.ParseLoopIsCappedCollect | envcheck.py:340-357 | the loop as written raises exactly when it reaches a raising line before twelve names; otherwise it yields the first twelve names of the reference |
| Requirements.CapReached | envcheck.py:355-357 | once a line brings the names to twelve, every longer prefix of the lines holds at least twelve names, so no later line is reached, and the names are the first twelve of the reference |
| Requirements.ParseLoopCorrectedIsCappedCollect | envcheck.py:340-357 | the corrected loop yields the first twelve names of the reference |
| Requirements.ParseRequirementNames | envcheck.py:340-357 | the corrected parse is the first twelve names the lines contribute, so at most twelve |
| Requirements.ParsedNamesWellFormed | envcheck.py:349-356 | every name the parse yields is non-empty and holds no whitespace, no `[` and no version operator |
| Requirements.ParseRequirementNamesAsWritten | envcheck.py:340-357 | the parse as written crashes exactly when a raising line comes before the twelfth name, and otherwise equals the corrected parse |
| Requirements.SemicolonLineCrashes | envcheck.py:346-348 | the single line `;foo` makes the loop as written raise, while the corrected loop yields no names |
| Requirements.SemicolonLineRaises | envcheck.py:346-348 | the line `;foo` has nothing before its environment marker, so taking its first word raises |
| Requirements.FirstLineRaisesCrashes | envcheck.py:341-348 | a requirements file whose first line raises makes the loop as written raise |
| Requirements.RaisingLineYieldsNothing | envcheck.py:341-357 | the corrected loop reads no name from a file holding one raising line |
| Requirements.SkippedLineChangesNothing | envcheck.py:343-346 | inserting a blank, comment, option, URL or VCS line anywhere leaves the parsed names unchanged |
| Requirements.MissingPackages | envcheck.py:365-375 | the lookup fails exactly when some package's lookup raises; otherwise the missing packages are exactly those whose module (hyphens turned into underscores) is not found; a single package is missing exactly when its module is not found |
| Requirements.MissingPackagesAppend | envcheck.py:368-372 | the missing packages of a list split anywhere are those of the first part followed by those of the second, and a raise in either part fails the whole lookup; with the one-package case this fixes their order and repetitions |
| Requirements.CheckedFactInjective | envcheck.py:377 | the summary fact determines both counts: different counts give different facts |
| Requirements.MissingListFactReadsBack | envcheck.py:378-381 | the missing-packages fact starts with `deps_missing: `; splitting its list on `,` gives the missing packages when there are at most six, and otherwise, before the trailing ` ...`, the first six; names must hold no comma |
| Requirements.ProbeReport | envcheck.py:359-381 | no names give only `deps_probe: no_packages_parsed`; a raising lookup gives only `deps_probe: error`; otherwise the counts of names checked and missing, then, when any are missing, the fact listing them; at most two facts are added and a bounded log stays bounded |
| Requirements.DepsProbe | envcheck.py:318-381 | the probe raises exactly when requirements.txt is read and its parse as written crashes; when it raises the log is unchanged |
| Requirements.DepsProbeCorrected | envcheck.py:318-381 | the corrected probe always returns, and gives the same log as the probe as written whenever that one does not raise |
| Runner.CheckEntrypoint | envcheck.py:384-395 | passes exactly when the entry point is set, exists and is a file, and then logs nothing; otherwise one fact names the first check that fails |
| Runner.BuildRunCommand | envcheck.py:398-428 | a command target gives its tokens unchanged, or nothing when they are empty; a path target gives a command line exactly when its entry point is a runnable file, its runtime is launchable and the executable is set: `[exe, ep]`, or `[exe, "run", ep]` for go; otherwise one fact says why: `run: command_missing`, `run: not_applicable`, the entry-point check's fact, `runtime: missing` or `runtime: unknown` |
| Runner.RunAttempt | envcheck.py:431-465 | the attempt succeeds exactly on `Exited(0)` or a timeout; spawn errors, a nonzero exit and wait errors fail; one fact is added |
| Runner.ExitFactIsClean | envcheck.py:449-450 | an exit fact for a 32-bit status is stripped, single-line and at most 240 characters, so it is logged unchanged |
| Runner.RunFactIsClean | envcheck.py:440-465 | every fact of a run attempt is stripped, single-line and at most 240 characters |
| Runner.RunFactInjective | envcheck.py:440-465 | different outcomes record different facts |
| Runner.RunFactIdentifiesOutcome | envcheck.py:440-459 | the fact recorded for an attempt determines its outcome, exit code included |
| Pipeline.Or | envcheck.py:244-253 | Python `a or b` on executables: truthy exactly when either is, and the first one when it is truthy |
| Pipeline.WhichRuntime | envcheck.py:244-253 | python gives `python3` when it is found and `python` otherwise; bash gives `bash` when it is found and `sh` otherwise; node and go look up their own name; an unknown runtime has none |
| Pipeline.FirstLine | envcheck.py:264 | `splitlines()[0]`: the longest prefix with no line break, followed by a line break or by the end |
| Pipeline.VersionText | envcheck.py:265-266 | the reported text is the longest prefix of the output with no line break, cut to 120 characters: a shorter text ends where the output ends or at a line break |
| Pipeline.VersionFact | envcheck.py:256-270 | an error gives `runtime_version: error`; empty output gives `unknown`; otherwise the first line of the stripped stdout (stderr if stdout is empty), cut to 120 characters, follows the prefix |
| Pipeline.OutputFact | envcheck.py:264-268 | empty stripped output gives `runtime_version: unknown`; otherwise the prefix is followed by the output's first line cut to 120 characters: a prefix of the output with no line break that stops only at 120 characters, at a line break or at the end |
| Pipeline.ShortVersionReportedVerbatim | envcheck.py:264-266 | a stripped one-line version of at most 120 characters is reported unchanged |
| Pipeline.Prepare | envcheck.py:468-494 | a wrong argument count fails with only `arg: missing_or_extra`; the flow goes on exactly when the resolved runtime is known and its executable is found; an unknown runtime fails with the resolution's log plus `runtime: unknown`, a runtime without an executable with the resolution's log plus `runtime: missing`; when the flow goes on, the log is the resolution's log, then the version fact for the executable found, then the project facts; the log stays bounded |
| Pipeline.Equip | envcheck.py:482-494 | after resolution: an unknown runtime ends in failure with `runtime: unknown`, a known runtime with no executable on the PATH ends with `runtime: missing`; otherwise the flow goes on with the same target and the executable found, having added the version fact and then the project facts |
| Pipeline.Conclude | envcheck.py:497-517 | a library succeeds without a spawn and with the log unchanged; a command target spawns its tokens with no working directory; a path target spawns `[exe, ..., ep]` in its directory, and only when the entry point is a runnable file; the verdict is SUCCESS exactly when the spawn started; the log only grows |
| Pipeline.Launch | envcheck.py:500-517 | the run step of an application ends as `Pipeline.Concluded` describes: a command target spawns its tokens with no working directory, a path target `[exe, ..., ep]` in its directory; no command line means FAIL without a spawn; the log only grows |
| Pipeline.SpawnOnce | envcheck.py:504-507 | one spawn of the given command line in the given directory, with SUCCESS exactly when the attempt started; the log only grows |
| Pipeline.Main | envcheck.py:468-517 | the log is always bounded; the early failures end with FAIL and no spawn; an exception escapes exactly when the probe raises; SUCCESS means a library, or a spawn that started; once prepared, a run that ends does so as the run step describes (library, command or path spawn) with the prepared log extended |
| Pipeline.MainCorrected | envcheck.py:468-517 | with the corrected loop, every run ends in exactly one of SUCCESS or FAIL, and agrees with the code as written whenever that ends; once prepared, it ends as the run step describes, with the prepared log extended |
| Pipeline.ProbeNeverDecides | envcheck.py:495-517 | with the corrected loop, the contents of requirements.txt and the import lookups never change the verdict or the spawn |
| Pipeline.RelativeDirectoryRunRepeatsDirectory | envcheck.py:118-121 | a spawned directory target runs in its own directory with the entry point named as the directory joined with the file name, so for a relative directory `d` the child resolves the entry point as `d/d/<name>` |
| Pipeline.PrepareIgnoresProbeInputs | envcheck.py:468-494 | everything before the dependency probe is the same whatever requirements.txt holds and whatever can be imported |
| Pipeline.ConcludeIgnoresLog | envcheck.py:497-517 | the verdict and the spawn do not depend on the facts logged before the run step |
| Pipeline.SemicolonRequirementEscapesMain | envcheck.py:346-348 | a python target whose requirements.txt holds `;foo` makes `main` as written end with an escaping exception, so neither SUCCESS nor FAIL is printed; the corrected flow ends with a verdict |
| Pipeline.UnrecognisedCommandFails | envcheck.py:480-485 | a command whose program is not in the runtime table fails with no spawn |

## Left out

- Writing the log file, printing SUCCESS/FAIL and `SystemExit`: the model
  returns the verdict and the log instead.
- Process I/O is abstract. `subprocess.Popen`, `wait` with its 3-second
  timeout and `terminate` become a `RunOutcome` chosen by `Env.run`.
  `<exe> --version` with its 2-second timeout becomes a `VersionRun`.
- Host queries are abstract inputs: `shutil.which`, `platform.system` and
  `platform.machine`, `os.access` and `importlib.util.find_spec`.
- `shlex.split` internals: tokenizing is an uninterpreted function that
  returns `None` where `shlex` raises `ValueError`.
- `detect_project_facts`: it only appends presence facts. The model takes
  those facts as an input sequence (`Env.projectFacts`) and adds them to
  the log.
- `pathlib` normalisation: paths stay as strings. `name`, `suffix`, `/`
  and `parent` follow the rules of `PurePosixPath`, but `.` components,
  repeated separators and the rendering `str(Path(...))` are not
  normalised. Facts that print a path print the string given.
- `str.lower()` on non-ASCII text: only ASCII letters are lowercased. Every
  name in the runtime tables is ASCII.
- `d.glob("*ext")` is modelled as the entries whose names end with `ext`.
  The order of `sorted` is code-point order. Hidden-file rules of the
  glob implementation are not modelled.
- Filesystem access errors: each filesystem query is total. An exception
  raised by an unguarded call is not modelled: `is_file()`/`is_dir()` in
  `parse_target` (envcheck.py:229, 234), `exists()`/`is_file()` in
  `find_entrypoint_in_dir` (envcheck.py:121), in the dependency probe
  (envcheck.py:331) and in `check_entrypoint_exists`
  (envcheck.py:389-392).
- Text decoding when reading files (`errors="ignore"`): files are given as
  lines of characters.
- Runner.RunFactIdentifiesOutcome: stated only for exit codes between
  -2^32 and 2^32, where the fact is logged unchanged. Longer codes would
  make the fact exceed 240 characters and be cut. The facts themselves
  differ for every pair of outcomes (`Runner.RunFactInjective`).
- Runner.ExitFactIsClean: stated for the same range of exit codes, for the
  same reason.
- Runner.RunFactIsClean: stated for the same range of exit codes, for the
  same reason.

## Findings

| source | as written | input that shows it | evidently intended | confidence | as-written member | corrected member |
|---|---|---|---|---|---|---|
| envcheck.py:346-348 | for a requirements line whose stripped form starts with `;`, `s.split(";")[0].strip()` is empty. `"".split()[0]` then raises `IndexError`, which no `try` catches. It escapes `main` before SUCCESS or FAIL is printed and before the log is written. | a python directory whose requirements.txt holds the line `;foo` | a line with no name before its environment marker contributes nothing, like a blank line, and the probe only records facts | high (not executed) | Requirements.ParseRequirementNamesAsWritten | Requirements.ParseRequirementNames |
