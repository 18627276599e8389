/**
 * The worker thread: an object holding its task list, its mode and the
 * results dictionary, whose handlers walk and change the filesystem item by
 * item and emit their lines as they go.
 */
module Workers {
  import opened Basics
  import opened FileTree
  import opened Platforms
  import opened Events
  import opened Scan
  import opened Cleanup
  import opened Handlers
  import opened Engine

  class Worker {
    const tasks: seq<string>
    const analysisMode: bool
    const os: Platform
    const env: Env
    /** The filesystem, as the worker's handlers see and change it. */
    var fs: Node
    /** Every signal emitted so far, in order. */
    var emitted: seq<Signal>
    /** analysis_results. */
    var results: map<string, Option<nat>>

    function Job(): Job {
      Engine.Job(tasks, analysisMode, os, env)
    }

    function State(): World
      reads this
    {
      World(fs, emitted, results)
    }

    /** Worker(tasks_to_run, is_analysis_mode): nothing emitted yet and no results. */
    constructor (tasks: seq<string>, analysisMode: bool, os: Platform, env: Env, fs: Node)
      ensures this.tasks == tasks && this.analysisMode == analysisMode && this.os == os && this.env == env
      ensures this.fs == fs && emitted == [] && results == map[]
    {
      this.tasks := tasks;
      this.analysisMode := analysisMode;
      this.os := os;
      this.env := env;
      this.fs := fs;
      emitted := [];
      results := map[];
    }

    /** log_message.emit. */
    method Log(m: Message)
      modifies this`emitted
      ensures emitted == old(emitted) + [LogMessage(m)]
    {
      emitted := emitted + [LogMessage(m)];
    }

    // ---- Analysis handlers ----

    method AnalyzeTempFiles() returns (o: Outcome)
      ensures o == TempFilesSize(fs, os, env)
    {
      o := SumRoots(fs, TempRoots(os, env), AnyFile);
    }

    /** The items analyze_trash sizes: the recycle bin's, or every file under the trash directory. */
    method TrashItems() returns (files: seq<Located>)
      ensures files == TrashFiles(fs, os, env)
    {
      files := [];
      if os == Windows {
        files := env.recycleBin;
      } else if os == Linux || os == Darwin {
        var p := TrashDir(os, env).value;
        if Exists(fs, p) {
          files := WalkAt(fs, p);
        }
      }
    }

    method AnalyzeTrash() returns (o: Outcome)
      modifies this`emitted
      ensures o == TrashSize(fs, os, env).outcome
      ensures emitted == old(emitted) + Logs(TrashSize(fs, os, env).lines)
    {
      var files := TrashItems();
      var total, fault := TrashSum(files);
      if fault.Some? {
        Log(TrashAnalysisError(fault.value));
      }
      o := Returned(Some(total));
    }

    method AnalyzeCaches() returns (o: Outcome)
      ensures o == CachesSize(fs, os, env)
    {
      o := SumRoots(fs, CacheRoots(os, env), AnyFile);
    }

    method AnalyzePrefetch() returns (o: Outcome)
      ensures o == PrefetchSize(fs, os, env)
    {
      if os != Windows {
        return Returned(Some(0));
      }
      var p := PrefetchDir(env);
      if !Exists(fs, p) {
        return Returned(Some(0));
      }
      var d := Resolve(fs, p).value;
      if !Listable(d) {
        return Raised(ListFailed(p));
      }
      o := SumFiles(PfFiles(p, d.entries), AnyFile);
    }

    method AnalyzeLargeOldFiles() returns (o: Outcome)
      ensures o == LargeOldSize(fs, env)
    {
      o := SumFiles(WalkAt(fs, env.home), LargeAndOld(env.now));
    }

    // ---- Removal loops ----

    /** One item of a removal loop: what stays listed, what it counts, and the line it logs on failure. */
    method SweepItem(pass: Pass, root: Path, e: Entry) returns (s: Sweep)
      modifies this`emitted
      ensures s == Item(pass, root, e)
      ensures emitted == old(emitted) + Logs(s.lines)
    {
      match pass {
        case TempPass =>
          if IsDir(e.node) {
            var rest := RmTree(e.node);
            s := Sweep(if rest.Some? then [Entry(e.name, rest.value)] else [], 1, []);
          } else if Unlinkable(e.node) {
            s := Sweep([], 1, []);
          } else {
            Log(DeleteDenied(root + [e.name]));
            s := Sweep([e], 0, [DeleteDenied(root + [e.name])]);
          }
        case PrefetchPass =>
          if !IsPfName(e.name) {
            s := Sweep([e], 0, []);
          } else if Unlinkable(e.node) {
            s := Sweep([], 1, []);
          } else {
            Log(DeleteDenied(root + [e.name]));
            s := Sweep([e], 0, [DeleteDenied(root + [e.name])]);
          }
      }
      assert [DeleteDenied(root + [e.name])][..0] == [];
    }

    /**
     * The removal loop over the listing of `root`, taken once before the loop.
     * The items that survive are written back as the directory's new listing
     * when the loop ends: no item's failure stops the loop, so the tree it
     * leaves is the one item-by-item removal leaves.
     */
    method SweepDir(pass: Pass, root: Path) returns (count: nat)
      requires Resolve(fs, root).Some? && Listable(Resolve(fs, root).value)
      modifies this`fs, this`emitted
      ensures var d := Resolve(old(fs), root).value;
              var s := SweepAll(pass, root, d.entries);
              count == s.count && fs == Replace(old(fs), root, d.(entries := s.kept)) &&
              emitted == old(emitted) + Logs(s.lines)
    {
      ghost var emitted0 := emitted;
      var d := Resolve(fs, root).value;
      var items := d.entries;
      var acc := Sweep([], 0, []);
      var j: nat := 0;
      while j < |items|
        invariant 0 <= j <= |items|
        invariant SweepAll(pass, root, items[..j]) == acc
        invariant emitted == emitted0 + Logs(acc.lines)
        invariant fs == old(fs)
      {
        SweepStep(pass, root, items, j, acc, emitted0);
        var s := SweepItem(pass, root, items[j]);
        acc := Sweep(acc.kept + s.kept, acc.count + s.count, acc.lines + s.lines);
        j := j + 1;
      }
      assert items[..j] == items;
      fs := Replace(fs, root, d.(entries := acc.kept));
      count := acc.count;
    }

    // ---- Cleanup handlers ----

    /** clean_temp_files on one temporary directory. */
    method CleanTempRoot(r: Option<Path>) returns (count: nat, fault: Option<Fault>)
      modifies this`fs, this`emitted
      ensures var t := RootStep(CleanTemp, old(fs), r);
              fs == t.fs && count == t.count && fault == t.fault && emitted == old(emitted) + Logs(t.lines)
    {
      count, fault := 0, None;
      if RootExists(fs, r) {
        var d := Resolve(fs, r.value).value;
        if !Listable(d) {
          return 0, Some(ListFailed(r.value));
        }
        count := SweepDir(TempPass, r.value);
      }
    }

    method CleanTempFiles() returns (o: Outcome)
      modifies this`fs, this`emitted
      ensures var e := TempCleanup(old(fs), os, env);
              o == e.outcome && fs == e.fs && emitted == old(emitted) + Logs(e.lines)
    {
      ghost var fs0, emitted0 := fs, emitted;
      var roots := TempRoots(os, env);
      var total: nat := 0;
      ghost var cur := Tally(fs, 0, [], None);
      var i: nat := 0;
      while i < |roots|
        invariant 0 <= i <= |roots|
        invariant RootsFold(CleanTemp, fs0, roots[..i]) == cur && cur.fault.None?
        invariant fs == cur.fs && total == cur.count && emitted == emitted0 + Logs(cur.lines)
      {
        ghost var s := RootStep(CleanTemp, fs, roots[i]);
        var c, fault := CleanTempRoot(roots[i]);
        LogsExtend(emitted0, cur.lines, s.lines);
        if fault.Some? {
          RootsFoldRaises(CleanTemp, fs0, roots, i, cur, s);
          return Raised(fault.value);
        }
        RootsFoldGoesOn(CleanTemp, fs0, roots, i, cur, s);
        total := total + c;
        cur := Tally(s.fs, cur.count + s.count, cur.lines + s.lines, None);
        i := i + 1;
      }
      assert roots[..i] == roots;
      TempCleanupReturns(fs0, os, env, cur);
      Log(CleanedTemp(total));
      LogsPush(emitted0, cur.lines, CleanedTemp(total));
      o := Returned(None);
    }

    /** empty_trash: the platform's command empties the trash, then one line says how it ended. */
    method EmptyTrash()
      modifies this`fs, this`emitted
      ensures fs == TrashEmptied(old(fs), os, env)
      ensures emitted == old(emitted) + Logs(TrashEmptying(os, env))
    {
      fs := TrashEmptied(fs, os, env);
      match os {
        case Windows =>
          if env.trashTool == ToolOk { Log(RecycleBinEmptied); } else { Log(TrashEmptyError); }
        case Linux =>
          match env.trashTool {
            case ToolOk => Log(TrashEmptiedByTool);
            case ToolMissing => Log(TrashToolMissing);
            case ToolFailed => Log(TrashEmptyError);
          }
        case Darwin =>
          if env.trashTool == ToolOk { Log(MacTrashEmptied); } else { Log(TrashEmptyError); }
        case OtherSystem =>
      }
    }

    /**
     * clean_caches' loop over one cache directory, inside its try: the first
     * os.remove that fails ends it.
     */
    method CleanCacheDir(root: Path) returns (cleaned: bool)
      requires Resolve(fs, root).Some? && Listable(Resolve(fs, root).value)
      modifies this`fs
      ensures var d := Resolve(old(fs), root).value;
              var c := CacheItems(d.entries);
              cleaned == !c.failed && fs == Replace(old(fs), root, d.(entries := c.kept))
    {
      ghost var fs0 := fs;
      var d := Resolve(fs, root).value;
      var items := d.entries;
      var kept: seq<Entry> := [];
      ReplaceSame(fs, root);
      assert d.(entries := kept + items[0..]) == d;
      var j: nat := 0;
      while j < |items|
        invariant 0 <= j <= |items|
        invariant CacheItems(items[..j]) == CacheSweep(kept, false)
        invariant fs == Replace(fs0, root, d.(entries := kept + items[j..]))
      {
        CacheItemsNext(items, j);
        var c := CacheEntry(items[j]);
        if c.failed {
          CacheFailureKeepsRest(items, j);
          MoveNext(kept, items, j);
          return false;
        }
        ReplaceTwice(fs0, root, d.(entries := kept + items[j..]), d.(entries := kept + c.kept + items[j + 1..]));
        kept := kept + c.kept;
        fs := Replace(fs, root, d.(entries := kept + items[j + 1..]));
        j := j + 1;
      }
      assert items[..j] == items;
      assert kept + items[j..] == kept;
      cleaned := true;
    }

    /** clean_caches on one cache directory: one "Cleaned cache" or "Error cleaning cache" line when it exists. */
    method CleanCacheRoot(r: Option<Path>) returns (count: nat)
      modifies this`fs, this`emitted
      ensures var t := RootStep(CleanCache, old(fs), r);
              fs == t.fs && count == t.count && t.fault.None? && emitted == old(emitted) + Logs(t.lines)
    {
      count := 0;
      if RootExists(fs, r) {
        var d := Resolve(fs, r.value).value;
        var line: Message;
        if !Listable(d) {
          line := CacheError(r.value);
        } else {
          var cleaned := CleanCacheDir(r.value);
          if cleaned {
            line := CacheCleaned(r.value);
            count := 1;
          } else {
            line := CacheError(r.value);
          }
        }
        Log(line);
        LogsOne(line);
      }
    }

    method CleanCaches() returns (o: Outcome)
      modifies this`fs, this`emitted
      ensures var e := CacheCleanup(old(fs), os, env);
              o == e.outcome && fs == e.fs && emitted == old(emitted) + Logs(e.lines)
    {
      ghost var fs0, emitted0 := fs, emitted;
      var roots := CacheRoots(os, env);
      var total: nat := 0;
      ghost var cur := Tally(fs, 0, [], None);
      var i: nat := 0;
      while i < |roots|
        invariant 0 <= i <= |roots|
        invariant RootsFold(CleanCache, fs0, roots[..i]) == cur && cur.fault.None?
        invariant fs == cur.fs && total == cur.count && emitted == emitted0 + Logs(cur.lines)
      {
        ghost var s := RootStep(CleanCache, fs, roots[i]);
        var c := CleanCacheRoot(roots[i]);
        LogsExtend(emitted0, cur.lines, s.lines);
        RootsFoldGoesOn(CleanCache, fs0, roots, i, cur, s);
        total := total + c;
        cur := Tally(s.fs, cur.count + s.count, cur.lines + s.lines, None);
        i := i + 1;
      }
      assert roots[..i] == roots;
      CacheCleanupReturns(fs0, os, env, cur);
      Log(CleanedCaches(total));
      LogsPush(emitted0, cur.lines, CleanedCaches(total));
      o := Returned(None);
    }

    method CleanPrefetch()
      modifies this`fs, this`emitted
      ensures var e := PrefetchCleanup(old(fs), os, env);
              fs == e.fs && emitted == old(emitted) + Logs(e.lines)
    {
      if os != Windows {
        Log(PrefetchSkipped);
        return;
      }
      var p := PrefetchDir(env);
      if !Exists(fs, p) {
        Log(PrefetchMissing);
        return;
      }
      var d := Resolve(fs, p).value;
      if !Listable(d) {
        Log(PrefetchAccessError);
        return;
      }
      var count := SweepDir(PrefetchPass, p);
      Log(CleanedPrefetch(count));
      LogsAppend(SweepAll(PrefetchPass, p, d.entries).lines, [CleanedPrefetch(count)]);
    }

    method DefragmentDisk()
      modifies this`emitted
      ensures emitted == old(emitted) + Logs(Defragmentation(os, env))
    {
      if os != Windows {
        Log(DefragSkipped);
        return;
      }
      Log(DefragStarted);
      if env.defragTool == ToolOk {
        Log(DefragFinished);
      } else {
        Log(DefragError);
        Log(RunAsAdministrator);
        assert Defragmentation(os, env) == [DefragStarted, DefragError, RunAsAdministrator];
        LogsIndex(Defragmentation(os, env));
      }
    }

    /**
     * find_large_old_files' loop over the walk: a "Found:" line for each
     * readable, large and old file, until a stat() that fails escapes.
     */
    method ReportLargeOld(files: seq<Located>, now: int) returns (found: nat, fault: Option<Fault>)
      modifies this`emitted
      ensures var k := FirstFaulty(files);
              var ms := Matches(files[..k], now);
              found == |ms| && fault == (if k < |files| then Some(StatFailed(files[k].path)) else None) &&
              emitted == old(emitted) + Logs(FoundLines(ms))
    {
      ghost var emitted0 := emitted;
      found := 0;
      ghost var ms: seq<Located> := [];
      var i: nat := 0;
      while i < |files|
        invariant 0 <= i <= |files| && i <= FirstFaulty(files)
        invariant ms == Matches(files[..i], now) && found == |ms|
        invariant emitted == emitted0 + Logs(FoundLines(ms))
      {
        var x := files[i];
        MatchesNext(files, i, now);
        if x.meta.access == Faulty {
          FirstFaultyAt(files, i);
          return found, Some(StatFailed(x.path));
        }
        if x.meta.access == Readable && LargeOld(x.meta, now) {
          Log(Found(x.path, x.meta.size, x.meta.mtime));
          FoundLinesSnoc(ms, x);
          LogsPush(emitted0, FoundLines(ms), Found(x.path, x.meta.size, x.meta.mtime));
          found := found + 1;
          ms := ms + [x];
        } else {
          assert ms + [] == ms;
        }
        i := i + 1;
      }
      assert files[..i] == files;
      fault := None;
    }

    method FindLargeOldFiles() returns (o: Outcome)
      modifies this`emitted
      ensures var e := LargeOldReport(fs, env);
              o == e.outcome && emitted == old(emitted) + Logs(e.lines)
    {
      ghost var emitted0 := emitted;
      Log(ScanningLargeOld);
      var files := WalkAt(fs, env.home);
      var found, fault := ReportLargeOld(files, env.now);
      ghost var ms := Matches(files[..FirstFaulty(files)], env.now);
      LogsOne(ScanningLargeOld);
      LogsExtend(emitted0, [ScanningLargeOld], FoundLines(ms));
      if fault.Some? {
        return Raised(fault.value);
      }
      var summary := if found > 0 then FoundLargeOld(found) else NoLargeOld;
      Log(summary);
      LogsPush(emitted0, [ScanningLargeOld] + FoundLines(ms), summary);
      o := Returned(None);
    }

    method RemoveEmptyDirs()
      modifies this`fs, this`emitted
      ensures var e := EmptyDirRemoval(old(fs), env);
              fs == e.fs && emitted == old(emitted) + Logs(e.lines)
    {
      ghost var fs0, emitted0 := fs, emitted;
      var steps := HomeSteps(fs, env);
      Log(RemovingEmptyDirs);
      ghost var head := emitted;
      var deleted: nat := 0;
      ghost var removed: seq<Path> := [];
      ghost var lines: seq<Message> := [];
      var i: nat := 0;
      while i < |steps|
        invariant 0 <= i <= |steps|
        invariant removed == PrunedPaths(steps[..i]) && lines == PruneLines(steps[..i])
        invariant deleted == |removed| && fs == UnlinkAll(fs0, removed)
        invariant emitted == head + Logs(lines)
      {
        var s := steps[i];
        PruneNext(steps, i);
        if s.node.Dir? && s.node.entries == [] {
          var line: Message;
          if s.node.removable {
            UnlinkAllSnoc(fs0, removed, s.dir);
            fs := Unlink(fs, s.dir);
            line := DeletedEmptyDir(s.dir);
            deleted := deleted + 1;
            removed := removed + [s.dir];
          } else {
            line := CouldNotDelete(s.dir);
            assert removed + [] == removed;
          }
          Log(line);
          LogsOne(line);
          LogsExtend(head, lines, [line]);
          lines := lines + [line];
        } else {
          assert removed + [] == removed && lines + [] == lines;
        }
        i := i + 1;
      }
      assert steps[..i] == steps;
      Log(RemovedEmptyDirs(deleted));
      LogsOne(RemovingEmptyDirs);
      LogsExtend(emitted0, [RemovingEmptyDirs], lines);
      LogsOne(RemovedEmptyDirs(deleted));
      LogsExtend(emitted0, [RemovingEmptyDirs] + lines, [RemovedEmptyDirs(deleted)]);
    }

    // ---- The run loop ----

    /** The handler run's if-chain selects for a task name, in the worker's mode. */
    method Handle(name: string) returns (o: Outcome)
      modifies this`fs, this`emitted
      ensures var e := Dispatch(name, analysisMode, os, env, old(fs));
              o == e.outcome && fs == e.fs && emitted == old(emitted) + Logs(e.lines)
    {
      o := Returned(None);
      if name == "clean_temp_files" {
        if analysisMode { o := AnalyzeTempFiles(); } else { o := CleanTempFiles(); }
      } else if name == "empty_trash" {
        if analysisMode { o := AnalyzeTrash(); } else { EmptyTrash(); }
      } else if name == "clean_caches" {
        if analysisMode { o := AnalyzeCaches(); } else { o := CleanCaches(); }
      } else if name == "clean_prefetch" {
        if analysisMode { o := AnalyzePrefetch(); } else { CleanPrefetch(); }
      } else if name == "defragment_disk" {
        if !analysisMode { DefragmentDisk(); } else { Log(DefragIsAction); LogsOne(DefragIsAction); }
      } else if name == "find_large_old_files" {
        if analysisMode { o := AnalyzeLargeOldFiles(); } else { o := FindLargeOldFiles(); }
      } else if name == "remove_empty_dirs" {
        if !analysisMode { RemoveEmptyDirs(); } else { Log(EmptyDirsNeedNoAnalysis); LogsOne(EmptyDirsNeedNoAnalysis); }
      }
    }

    /**
     * One iteration of run's loop: the task's line, its handler, the result
     * stored under the task's label, and the progress.
     */
    method RunTask(i: nat) returns (fault: Option<Fault>)
      requires i < |tasks|
      modifies this
      ensures Stage(State(), fault) == AfterTask(tasks, TableOf(Job()), old(State()), i)
    {
      var name := tasks[i];
      Log(RunningTask(name));
      var o := Handle(name);
      if o.Raised? {
        return Some(o.fault);
      }
      var key := Label(name);
      if key.Some? {
        results := results[key.value := o.value];
      }
      emitted := emitted + [ProgressUpdate(Percent(i + 1, |tasks|))];
      fault := None;
    }

    /** run's loop: the tasks in order, until one raises. */
    method RunTasks() returns (fault: Option<Fault>)
      modifies this
      ensures Stage(State(), fault) == RunUpTo(tasks, TableOf(Job()), old(State()), |tasks|)
    {
      ghost var w0 := State();
      var i: nat := 0;
      fault := None;
      while i < |tasks| && fault.None?
        invariant 0 <= i <= |tasks|
        invariant Stage(State(), fault) == RunUpTo(tasks, TableOf(Job()), w0, i)
      {
        fault := RunTask(i);
        i := i + 1;
      }
      if fault.Some? {
        RunUpToStops(tasks, TableOf(Job()), w0, i, |tasks|);
      }
    }

    /**
     * Worker.run: the tasks in order until one raises, then the closing line
     * and, in every case, the finished signal.
     */
    method Run()
      modifies this
      ensures State() == RunSpec(Job(), old(State()))
    {
      var fault := RunTasks();
      if fault.Some? {
        Log(UnexpectedError(fault.value));
      } else if analysisMode {
        Log(AnalysisFinished);
      } else {
        Log(CleanupFinished);
      }
      emitted := emitted + [TaskFinished];
    }
  }
}
