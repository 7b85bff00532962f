/** The parts of the host the checker consults, as abstract inputs: the
    filesystem, process outcomes and runtime probes. Each query is a total
    function; where the source catches an exception the query answers
    with its negative or `None` form. */
module Host {
  import opened Optional

  /** The filesystem as seen through `pathlib`, keyed by path string. */
  datatype FileSystem = FileSystem(
    /** `Path(p).exists()` */
    pathExists: string -> bool,
    /** `Path(p).is_file()` */
    isFile: string -> bool,
    /** `Path(p).is_dir()` */
    isDir: string -> bool,
    /** the names of the entries of directory `d`, in any order (what `d.glob(...)` matches against) */
    entries: string -> seq<string>,
    /** `open(p).readline()`; `None` when opening or reading fails */
    firstLine: string -> Option<string>,
    /** `os.access(p, os.X_OK)`; `None` when it raises */
    executable: string -> Option<bool>
  )

  /** How one spawn-and-wait of the target ends (`subprocess.Popen` then
      `wait(timeout=3.0)`). */
  datatype RunOutcome =
    | SpawnNotFound        // Popen raised FileNotFoundError
    | SpawnError           // Popen raised any other exception
    | Exited(code: int)    // the process ended within the timeout
    | TimedOut             // still running when the timeout expired
    | WaitError            // wait raised something other than TimeoutExpired

  /** The contents of a text file, `p.read_text(...).splitlines()`;
      `None` when reading fails. */
  type TextReader = string -> Option<seq<string>>

  /** `importlib.util.find_spec(m) is not None` for module `m`; `None`
      when the lookup raises. */
  type ImportProbe = string -> Option<bool>

  /** How `<exe> --version` ended: its captured output, or an exception
      (including its 2-second timeout). */
  datatype VersionRun = VersionRan(stdout: string, stderr: string) | VersionRaised
}
