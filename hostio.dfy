/**
  What one invocation of the hook does to the outside world, recorded as
  values: the texts it prints to standard output, one per `print` call (log lines and `[NZB] ...`
  directives read back by NZBGet), the remote-control calls it issues, the
  marker files it tries to remove, and how the process ends.
 */
module HostIo {
  import opened Wrappers

  /** One directory entry as `os.listdir` and `os.path.isfile` report it. */
  datatype DirEntry = DirEntry(name: string, isFile: bool)

  /** The part of the file system the hook looks at: the entries of every
      directory it can list, the paths that exist without being directories,
      and the files whose removal fails. */
  datatype FileSystem = FileSystem(listings: map<string, seq<DirEntry>>, others: set<string>,
                                   undeletable: set<string>)
  {
    /** `os.path.exists(path)` */
    predicate Exists(path: string) {
      path in listings || path in others
    }

    /** The names `os.listdir(path)` returns, or `None` where it raises. */
    function ListNames(path: string): Option<seq<string>> {
      if path in listings then Some(seq(|listings[path]|, k requires 0 <= k < |listings[path]| => listings[path][k].name))
      else None
    }
  }

  /** A call into NZBGet's remote-control interface. */
  datatype HostCall =
    | JsonRpc(command: string)                                        // callNzbget(url_command)
    | EditQueue(action: string, offset: int, text: string, ids: seq<int>) // nzbget.editqueue(...)

  /** Everything observable that an invocation has done so far. Each element
      of `output` is the text of one `print` call; NZBGet reads standard output
      line by line, so a text holding a line break is several lines to it. */
  datatype Effects = Effects(output: seq<string>, calls: seq<HostCall>, removed: seq<string>)

  const NoEffects := Effects([], [], [])

  /** Printing some lines and nothing else. */
  function Say(lines: seq<string>): Effects {
    Effects(lines, [], [])
  }

  /** The effects of `a` followed by those of `b`. */
  function Then(a: Effects, b: Effects): Effects {
    Effects(a.output + b.output, a.calls + b.calls, a.removed + b.removed)
  }

  /** A log line: NZBGet reads its kind from the bracketed prefix (`[INFO]`,
      `[DETAIL]`, `[WARNING]`, `[ERROR]`), as opposed to a `[NZB] ...`
      directive, which it acts on. */
  predicate LogLine(line: string) {
    |line| >= 2 && line[0] == '[' && line[1] != 'N'
  }

  /** The prefixes of the log lines the hook prints. */
  const InfoTag := "[INFO] "
  const DetailTag := "[DETAIL] "
  const WarningTag := "[WARNING] "
  const ErrorTag := "[ERROR] "

  lemma TagsLog()
    ensures LogLine(InfoTag) && LogLine(DetailTag) && LogLine(WarningTag) && LogLine(ErrorTag)
  {
  }

  /** Lines that only log: none of them is a directive. */
  predicate LogsOnly(lines: seq<string>) {
    forall k :: 0 <= k < |lines| ==> LogLine(lines[k])
  }

  /** Whatever follows a log prefix, the line still logs. */
  lemma LogLineExtends(prefix: string, rest: string)
    requires LogLine(prefix)
    ensures LogLine(prefix + rest)
  {
    assert (prefix + rest)[0] == prefix[0] && (prefix + rest)[1] == prefix[1];
  }

  /** A part of the run that either finished or stopped on an uncaught Python
      exception (a missing environment variable, a malformed number, ...). */
  datatype Step = Step(effects: Effects, crashed: bool)

  /** Exit codes NZBGet gives a meaning to for post-processing scripts. */
  const PostProcessSuccess := 93
  const PostProcessNone := 95
  const PostProcessError := 94

  /** How the process ends: `sys.exit(code)`, or an uncaught exception. */
  datatype Status = Exit(code: int) | Crash

  /** The exit status NZBGet sees: the code given to `sys.exit`, or 1 for an
      uncaught exception, which Python reports with a traceback on standard
      error. */
  function ExitStatus(s: Status): int {
    match s
    case Exit(code) => code
    case Crash => 1
  }

  datatype Run = Run(effects: Effects, status: Status)

  /** The run that ends with `sys.exit(code)` once `step` has completed, or that
      stops where `step` crashed. */
  function Finish(before: Effects, step: Step, code: int): Run {
    Run(Then(before, step.effects), if step.crashed then Crash else Exit(code))
  }
}
