/**
 * The environment a worker runs in, and the per-platform choice of the
 * locations each task looks at.
 */
module Platforms {
  import opened Basics
  import opened FileTree

  /** platform.system(): "Windows", "Linux", "Darwin", or any other name. */
  datatype Platform = Windows | Linux | Darwin | OtherSystem

  /**
   * How an external command ends: it succeeds, it is not on the search path
   * (FileNotFoundError), or it raises or exits with a failure status.
   */
  datatype ToolOutcome = ToolOk | ToolMissing | ToolFailed

  /**
   * Everything the engine reads from outside the filesystem tree. An
   * environment variable that is unset (os.environ.get(..., '') gives '') is None.
   */
  datatype Env = Env(
    temp: Option<Path>,         // %TEMP%
    tmp: Option<Path>,          // %TMP%
    windir: Option<Path>,       // %WINDIR%
    home: Path,                 // os.path.expanduser('~')
    cwd: Path,                  // the directory a relative path is resolved against
    recycleBin: seq<Located>,   // the items winshell.recycle_bin() enumerates
    trashTool: ToolOutcome,     // winshell's empty(), 'trash-empty' or 'osascript'
    defragTool: ToolOutcome,    // 'defrag C: /U'
    now: int)                   // datetime.now(), in seconds

  /** The temporary directories, in the order the temp handlers visit them. */
  function TempRoots(os: Platform, env: Env): (r: seq<Option<Path>>)
    ensures |r| <= 2
  {
    match os
    case Windows => [env.temp, env.tmp]
    case Linux => [Some(["tmp"])]
    case Darwin => [Some(["tmp"]), Some(env.home + ["Library", "Caches"])]
    case OtherSystem => []
  }

  /** The cache directories, in the order the cache handlers visit them. */
  function CacheRoots(os: Platform, env: Env): (r: seq<Option<Path>>)
    ensures |r| <= 2
  {
    match os
    case Windows =>
      [Some(env.home + ["AppData", "Local", "Google", "Chrome", "User Data", "Default", "Cache"]),
       Some(env.home + ["AppData", "Roaming", "Mozilla", "Firefox", "Profiles"])]
    case Darwin => [Some(env.home + ["Library", "Caches"])]
    case Linux => [Some(env.home + [".cache"])]
    case OtherSystem => []
  }

  /** The trash directory walked by trash analysis on Linux and macOS. */
  function TrashDir(os: Platform, env: Env): Option<Path> {
    match os
    case Linux => Some(env.home + [".local", "share", "Trash", "files"])
    case Darwin => Some(env.home + [".Trash"])
    case _ => None
  }

  /** The metadata directory that trash-empty clears beside the trash's files on Linux. */
  function TrashInfoDir(env: Env): Path {
    env.home + [".local", "share", "Trash", "info"]
  }

  /**
   * os.path.join(os.environ.get('WINDIR', ''), 'Prefetch'): with WINDIR unset
   * this is the relative path 'Prefetch', resolved against the working directory.
   */
  function PrefetchDir(env: Env): Path {
    (if env.windir.Some? then env.windir.value else env.cwd) + ["Prefetch"]
  }
}

/** What a worker emits, and what a handler hands back to the run loop. */
module Events {
  import opened Basics
  import opened FileTree

  /** The exception a failing filesystem call raises, by what failed on which path. */
  datatype Fault = StatFailed(path: Path) | ListFailed(path: Path)

  /** The log lines of the engine; each constructor is one fixed message, with the values it interpolates. */
  datatype Message =
    | RunningTask(task: string)
    | DefragIsAction
    | EmptyDirsNeedNoAnalysis
    | AnalysisFinished
    | CleanupFinished
    | UnexpectedError(fault: Fault)
    | TrashAnalysisError(fault: Fault)
    | DeleteDenied(path: Path)
    | CleanedTemp(count: nat)
    | RecycleBinEmptied
    | TrashEmptiedByTool
    | TrashToolMissing
    | MacTrashEmptied
    | TrashEmptyError
    | CacheCleaned(path: Path)
    | CacheError(path: Path)
    | CleanedCaches(count: nat)
    | PrefetchSkipped
    | PrefetchMissing
    | PrefetchAccessError
    | CleanedPrefetch(count: nat)
    | DefragSkipped
    | DefragStarted
    | DefragFinished
    | DefragError
    | RunAsAdministrator
    | ScanningLargeOld
    | Found(path: Path, size: nat, mtime: int)
    | FoundLargeOld(count: nat)
    | NoLargeOld
    | RemovingEmptyDirs
    | DeletedEmptyDir(path: Path)
    | CouldNotDelete(path: Path)
    | RemovedEmptyDirs(count: nat)

  /** The worker's three signals, in the one order in which they are emitted. */
  datatype Signal = LogMessage(msg: Message) | ProgressUpdate(percent: int) | TaskFinished

  /** How a handler ends: it returns (an int in analysis mode, None in cleanup mode) or raises. */
  datatype Outcome = Returned(value: Option<nat>) | Raised(fault: Fault)

  /** A handler's effect: how it ended, the filesystem afterwards, and the lines it logged, in order. */
  datatype Effect = Effect(outcome: Outcome, fs: Node, lines: seq<Message>)

  /** Log lines as the signals that carry them. */
  function Logs(ms: seq<Message>): (r: seq<Signal>)
    ensures |r| == |ms|
  {
    if ms == [] then [] else Logs(ms[..|ms| - 1]) + [LogMessage(ms[|ms| - 1])]
  }

  /** The i-th signal carries the i-th line. */
  lemma {:induction false} LogsIndex(ms: seq<Message>)
    ensures forall i :: 0 <= i < |ms| ==> Logs(ms)[i] == LogMessage(ms[i])
    decreases |ms|
  {
    if ms != [] {
      LogsIndex(ms[..|ms| - 1]);
    }
  }

  /** A stream that has carried the lines `a` and then the lines `b` has carried `a + b`. */
  lemma LogsExtend(emitted: seq<Signal>, a: seq<Message>, b: seq<Message>)
    ensures emitted + Logs(a) + Logs(b) == emitted + Logs(a + b)
  {
    LogsAppend(a, b);
    assert emitted + Logs(a) + Logs(b) == emitted + (Logs(a) + Logs(b));
  }

  /** One line is one signal. */
  lemma LogsOne(m: Message)
    ensures Logs([m]) == [LogMessage(m)]
  {
    assert [m][..0] == [];
  }

  /** One more line is one more signal. */
  lemma LogsSnoc(ms: seq<Message>, m: Message)
    ensures Logs(ms + [m]) == Logs(ms) + [LogMessage(m)]
  {
    assert (ms + [m])[..|ms|] == ms;
  }

  /** A stream that has carried the lines `ms` and then one signal for `m` has carried `ms + [m]`. */
  lemma LogsPush(emitted: seq<Signal>, ms: seq<Message>, m: Message)
    ensures emitted + Logs(ms) + [LogMessage(m)] == emitted + Logs(ms + [m])
  {
    LogsSnoc(ms, m);
    assert emitted + Logs(ms) + [LogMessage(m)] == emitted + (Logs(ms) + [LogMessage(m)]);
  }

  lemma {:induction false} LogsAppend(a: seq<Message>, b: seq<Message>)
    ensures Logs(a + b) == Logs(a) + Logs(b)
    decreases |b|
  {
    if b != [] {
      var init := b[..|b| - 1];
      assert (a + b)[..|a + b| - 1] == a + init;
      assert (a + b)[|a + b| - 1] == b[|b| - 1];
      LogsAppend(a, init);
      assert Logs(a + b) == Logs(a + init) + [LogMessage(b[|b| - 1])];
      assert Logs(b) == Logs(init) + [LogMessage(b[|b| - 1])];
    } else {
      assert a + b == a;
    }
  }
}
