/**
 * The worker's run loop: each selected task in order, dispatched by name to an
 * analysis or a cleanup handler, with its result stored under a fixed label,
 * a progress signal after it, and one closing line and a finished signal at
 * the end, or after the first exception that escapes a handler.
 */
module Engine {
  import opened Basics
  import opened FileTree
  import opened Platforms
  import opened Events
  import opened Scan
  import opened Handlers

  /** What a worker is started with. */
  datatype Job = Job(tasks: seq<string>, analysis: bool, os: Platform, env: Env)

  /** What a worker's run changes: the filesystem, the emitted signals, and analysis_results. */
  datatype World = World(fs: Node, emitted: seq<Signal>, results: map<string, Option<nat>>)

  /** The world after some tasks, and the exception that ended the loop, if one did. */
  datatype Stage = Stage(world: World, fault: Option<Fault>)

  const TempLabel: string := "Temporary Files"
  const TrashLabel: string := "Recycle Bin / Trash"
  const CachesLabel: string := "System & Browser Caches"
  const PrefetchLabel: string := "Prefetch Files"
  const LargeOldLabel: string := "Large & Old Files"

  /** The key of analysis_results a task's handler result is stored under; defragment_disk, remove_empty_dirs and unknown names store nothing. */
  function Label(task: string): Option<string> {
    if task == "clean_temp_files" then Some(TempLabel)
    else if task == "empty_trash" then Some(TrashLabel)
    else if task == "clean_caches" then Some(CachesLabel)
    else if task == "clean_prefetch" then Some(PrefetchLabel)
    else if task == "find_large_old_files" then Some(LargeOldLabel)
    else None
  }

  /** An analysis handler's effect: it measures, logs nothing of its own unless it says so, and leaves the filesystem alone. */
  function Measured(o: Outcome, fs: Node): Effect {
    Effect(o, fs, [])
  }

  /** The handler a task name selects, in analysis or in cleanup mode; an unknown name does nothing. */
  function Dispatch(task: string, analysis: bool, os: Platform, env: Env, fs: Node): Effect {
    if task == "clean_temp_files" then
      if analysis then Measured(TempFilesSize(fs, os, env), fs) else TempCleanup(fs, os, env)
    else if task == "empty_trash" then
      if analysis then TrashSize(fs, os, env) else Effect(Returned(None), TrashEmptied(fs, os, env), TrashEmptying(os, env))
    else if task == "clean_caches" then
      if analysis then Measured(CachesSize(fs, os, env), fs) else CacheCleanup(fs, os, env)
    else if task == "clean_prefetch" then
      if analysis then Measured(PrefetchSize(fs, os, env), fs) else PrefetchCleanup(fs, os, env)
    else if task == "defragment_disk" then
      Effect(Returned(None), fs, if analysis then [DefragIsAction] else Defragmentation(os, env))
    else if task == "find_large_old_files" then
      if analysis then Measured(LargeOldSize(fs, env), fs) else LargeOldReport(fs, env)
    else if task == "remove_empty_dirs" then
      if analysis then Effect(Returned(None), fs, [EmptyDirsNeedNoAnalysis]) else EmptyDirRemoval(fs, env)
    else Effect(Returned(None), fs, [])
  }

  /** What a task name does to the filesystem it meets: the handlers one worker's mode and platform select. */
  type Table = (string, Node) -> Effect

  function TableOf(job: Job): Table {
    (t: string, fs: Node) => Dispatch(t, job.analysis, job.os, job.env, fs)
  }

  /** Analysis never touches the disk; a labelled handler that returns gives an int in analysis mode and None in cleanup mode. */
  ghost predicate TableShape(d: Table, analysis: bool) {
    (analysis ==> forall t, fs :: d(t, fs).fs == fs) &&
    forall t, fs :: d(t, fs).outcome.Returned? && Label(t).Some? ==> (analysis <==> d(t, fs).outcome.value.Some?)
  }

  lemma DispatchShape(job: Job)
    ensures TableShape(TableOf(job), job.analysis)
  {
    forall t, fs ensures job.analysis ==> TableOf(job)(t, fs).fs == fs {
      if job.analysis {
        var e := Dispatch(t, true, job.os, job.env, fs);
        assert e.fs == fs;
      }
    }
    forall t, fs | TableOf(job)(t, fs).outcome.Returned? && Label(t).Some?
      ensures job.analysis <==> TableOf(job)(t, fs).outcome.value.Some?
    {
      var e := Dispatch(t, job.analysis, job.os, job.env, fs);
      if t == "clean_temp_files" {
        if job.analysis { SumOverRootsSome(fs, TempRoots(job.os, job.env), AnyFile); }
      } else if t == "clean_caches" {
        if job.analysis { SumOverRootsSome(fs, CacheRoots(job.os, job.env), AnyFile); }
      }
    }
  }

  /** int((i + 1) / total_tasks * 100) after the task at position done - 1. */
  function Percent(done: nat, total: nat): int
    requires 0 < total
  {
    100 * done / total
  }

  /** The progress values of a run that finishes all `n` tasks. */
  function Percents(n: nat): (r: seq<int>)
    ensures |r| == n
  {
    seq(n, i requires 0 <= i < n => Percent(i + 1, n))
  }

  /**
   * One task: the "Running task" line, the handler, then either the exception
   * that escapes it, or the result stored under the task's label and the
   * progress signal.
   */
  function AfterTask(tasks: seq<string>, d: Table, w: World, i: nat): Stage
    requires i < |tasks|
  {
    var t := tasks[i];
    var e := d(t, w.fs);
    var out := w.emitted + [LogMessage(RunningTask(t))] + Logs(e.lines);
    match e.outcome
    case Raised(f) => Stage(World(e.fs, out, w.results), Some(f))
    case Returned(v) =>
      Stage(World(e.fs, out + [ProgressUpdate(Percent(i + 1, |tasks|))],
                  if Label(t).Some? then w.results[Label(t).value := v] else w.results),
            None)
  }

  /** The first `k` tasks; the loop stops after a task whose handler raised. */
  function RunUpTo(tasks: seq<string>, d: Table, w: World, k: nat): Stage
    requires k <= |tasks|
  {
    if k == 0 then Stage(w, None)
    else
      var s := RunUpTo(tasks, d, w, k - 1);
      if s.fault.Some? then s else AfterTask(tasks, d, s.world, k - 1)
  }

  /** The line run logs after the loop: the escaped exception, or the mode's "finished" line. */
  function Closing(analysis: bool, fault: Option<Fault>): Message {
    match fault
    case Some(f) => UnexpectedError(f)
    case None => if analysis then AnalysisFinished else CleanupFinished
  }

  /** The loop of a worker, and after it the closing line and, in every case, the finished signal. */
  function Finish(job: Job, s: Stage): World {
    s.world.(emitted := s.world.emitted + [LogMessage(Closing(job.analysis, s.fault))] + [TaskFinished])
  }

  /** Worker.run. */
  function RunSpec(job: Job, w: World): World {
    Finish(job, RunUpTo(job.tasks, TableOf(job), w, |job.tasks|))
  }

  lemma {:induction false} RunUpToStops(tasks: seq<string>, d: Table, w: World, i: nat, k: nat)
    requires i <= k <= |tasks| && RunUpTo(tasks, d, w, i).fault.Some?
    ensures RunUpTo(tasks, d, w, k) == RunUpTo(tasks, d, w, i)
    decreases k
  {
    if k > i {
      RunUpToStops(tasks, d, w, i, k - 1);
    }
  }

  // ---- The signal stream ----

  /** The progress values among some signals, in order. */
  function ProgressOf(s: seq<Signal>): seq<int> {
    if s == [] then []
    else ProgressOf(s[..|s| - 1]) + (if s[|s| - 1].ProgressUpdate? then [s[|s| - 1].percent] else [])
  }

  lemma {:induction false} ProgressOfAppend(a: seq<Signal>, b: seq<Signal>)
    ensures ProgressOf(a + b) == ProgressOf(a) + ProgressOf(b)
    decreases |b|
  {
    if b == [] {
      assert a + b == a;
    } else {
      assert (a + b)[..|a + b| - 1] == a + b[..|b| - 1];
      ProgressOfAppend(a, b[..|b| - 1]);
    }
  }

  lemma {:induction false} ProgressOfLogs(ms: seq<Message>)
    ensures ProgressOf(Logs(ms)) == []
    decreases |ms|
  {
    if ms != [] {
      var l := Logs(ms);
      assert l[..|l| - 1] == Logs(ms[..|ms| - 1]);
      ProgressOfLogs(ms[..|ms| - 1]);
    }
  }

  /** The signals of the first `k` tasks extend what was emitted before and hold no finished signal. */
  lemma {:induction false} RunUpToExtends(tasks: seq<string>, d: Table, w: World, k: nat)
    requires k <= |tasks|
    ensures |w.emitted| <= |RunUpTo(tasks, d, w, k).world.emitted|
    ensures RunUpTo(tasks, d, w, k).world.emitted[..|w.emitted|] == w.emitted
    ensures TaskFinished !in RunUpTo(tasks, d, w, k).world.emitted[|w.emitted|..]
    decreases k
  {
    if k == 0 {
      assert w.emitted[|w.emitted|..] == [];
    } else {
      RunUpToExtends(tasks, d, w, k - 1);
      var s := RunUpTo(tasks, d, w, k - 1);
      if s.fault.None? {
        ExtendsStep(tasks, d, w, s.world, k - 1);
      }
    }
  }

  lemma ExtendsStep(tasks: seq<string>, d: Table, w: World, v: World, i: nat)
    requires i < |tasks|
    requires |w.emitted| <= |v.emitted| && v.emitted[..|w.emitted|] == w.emitted
    requires TaskFinished !in v.emitted[|w.emitted|..]
    ensures var out := AfterTask(tasks, d, v, i).world.emitted;
            |w.emitted| <= |out| && out[..|w.emitted|] == w.emitted && TaskFinished !in out[|w.emitted|..]
  {
    var next := AfterTask(tasks, d, v, i);
    AfterTaskSignals(tasks, d, v, i);
    var step := next.world.emitted[|v.emitted|..];
    assert next.world.emitted == v.emitted + step;
    AddedAppend(v.emitted, step, |w.emitted|);
  }

  /**
   * The signals of the first `k` tasks carry the progress values of the tasks
   * that completed, in order: all `k` of them unless a handler raised.
   */
  lemma {:induction false} RunUpToProgress(tasks: seq<string>, d: Table, w: World, k: nat)
    requires k <= |tasks|
    ensures |w.emitted| <= |RunUpTo(tasks, d, w, k).world.emitted|
    ensures var pr := ProgressOf(RunUpTo(tasks, d, w, k).world.emitted[|w.emitted|..]);
            |pr| <= k && pr == Percents(|tasks|)[..|pr|] &&
            (RunUpTo(tasks, d, w, k).fault.None? <==> |pr| == k)
    decreases k
  {
    if k == 0 {
      assert w.emitted[|w.emitted|..] == [];
    } else {
      RunUpToProgress(tasks, d, w, k - 1);
      var s := RunUpTo(tasks, d, w, k - 1);
      if s.fault.None? {
        RunUpToExtends(tasks, d, w, k - 1);
        ProgressStep(tasks, d, w, s.world, k - 1);
        var next := AfterTask(tasks, d, s.world, k - 1);
        assert RunUpTo(tasks, d, w, k) == next;
        if next.fault.None? {
          assert |Percents(|tasks|)[..k]| == k;
        } else {
          assert |Percents(|tasks|)[..k - 1]| == k - 1;
        }
      } else {
        assert RunUpTo(tasks, d, w, k) == s;
      }
    }
  }

  lemma ProgressStep(tasks: seq<string>, d: Table, w: World, v: World, i: nat)
    requires i < |tasks|
    requires |w.emitted| <= |v.emitted| && v.emitted[..|w.emitted|] == w.emitted
    requires ProgressOf(v.emitted[|w.emitted|..]) == Percents(|tasks|)[..i]
    ensures var next := AfterTask(tasks, d, v, i);
            |w.emitted| <= |next.world.emitted| &&
            ProgressOf(next.world.emitted[|w.emitted|..]) ==
              if next.fault.None? then Percents(|tasks|)[..i + 1] else Percents(|tasks|)[..i]
  {
    var next := AfterTask(tasks, d, v, i);
    AfterTaskSignals(tasks, d, v, i);
    var step := next.world.emitted[|v.emitted|..];
    assert next.world.emitted == v.emitted + step;
    AddedAppend(v.emitted, step, |w.emitted|);
    PercentsNext(|tasks|, i);
    ProgressJoin(next.world.emitted[|w.emitted|..], v.emitted[|w.emitted|..], step,
                 Percents(|tasks|)[..i], Percent(i + 1, |tasks|), next.fault.None?);
  }

  /** Progress values of a prefix followed by one step that adds at most one value. */
  lemma ProgressJoin(all: seq<Signal>, before: seq<Signal>, step: seq<Signal>, done: seq<int>, p: int, ok: bool)
    requires ProgressOf(all) == ProgressOf(before) + ProgressOf(step)
    requires ProgressOf(before) == done
    requires ProgressOf(step) == if ok then [p] else []
    ensures ProgressOf(all) == if ok then done + [p] else done
  {
    if !ok {
      assert done + [] == done;
    }
  }

  lemma PercentsNext(n: nat, i: nat)
    requires i < n
    ensures Percents(n)[..i + 1] == Percents(n)[..i] + [Percent(i + 1, n)]
  {
    var all := Percents(n);
    assert all[i] == Percent(i + 1, n);
    assert all[..i + 1] == all[..i] + [all[i]];
  }

  /** One task adds one "Running task" line, its handler's lines and, when it returns, its progress value. */
  lemma AfterTaskSignals(tasks: seq<string>, d: Table, w: World, i: nat)
    requires i < |tasks|
    ensures |w.emitted| <= |AfterTask(tasks, d, w, i).world.emitted|
    ensures AfterTask(tasks, d, w, i).world.emitted[..|w.emitted|] == w.emitted
    ensures var step := AfterTask(tasks, d, w, i).world.emitted[|w.emitted|..];
            TaskFinished !in step &&
            ProgressOf(step) == if AfterTask(tasks, d, w, i).fault.None? then [Percent(i + 1, |tasks|)] else []
  {
    var t := tasks[i];
    var e := d(t, w.fs);
    var step := [LogMessage(RunningTask(t))] + Logs(e.lines);
    StepSignals(t, e.lines);
    var out := AfterTask(tasks, d, w, i).world.emitted;
    Regroup(w.emitted, [LogMessage(RunningTask(t))], Logs(e.lines));
    if e.outcome.Raised? {
      assert out == w.emitted + step;
      assert out[|w.emitted|..] == step;
    } else {
      var p := ProgressUpdate(Percent(i + 1, |tasks|));
      Regroup(w.emitted, step, [p]);
      assert out == w.emitted + (step + [p]);
      assert out[|w.emitted|..] == step + [p];
      ProgressOfAppend(step, [p]);
      assert [p][..0] == [];
    }
  }

  /** The "Running task" line and a handler's lines carry no progress and no finished signal. */
  lemma StepSignals(t: string, lines: seq<Message>)
    ensures ProgressOf([LogMessage(RunningTask(t))] + Logs(lines)) == []
    ensures TaskFinished !in [LogMessage(RunningTask(t))] + Logs(lines)
  {
    ProgressOfLogs(lines);
    ProgressOfAppend([LogMessage(RunningTask(t))], Logs(lines));
    assert [LogMessage(RunningTask(t))][..0] == [];
  }

  lemma AddedAppend(before: seq<Signal>, step: seq<Signal>, n: nat)
    requires n <= |before|
    ensures (before + step)[..n] == before[..n]
    ensures (before + step)[n..] == before[n..] + step
    ensures ProgressOf((before + step)[n..]) == ProgressOf(before[n..]) + ProgressOf(step)
  {
    assert (before + step)[n..] == before[n..] + step;
    ProgressOfAppend(before[n..], step);
  }

  /**
   * run's signals: after the loop's, exactly one closing line and then the one
   * finished signal, which nothing before it repeats. The closing line reports
   * an escaped exception exactly when a handler raised; the progress values are
   * those of the tasks that completed, all of them exactly when none raised, so
   * a raising task ends the loop and an empty task list emits no progress.
   */
  lemma RunSignals(job: Job, w: World)
    ensures var s := RunUpTo(job.tasks, TableOf(job), w, |job.tasks|);
            |w.emitted| <= |s.world.emitted| &&
            var added := s.world.emitted[|w.emitted|..];
            var pr := ProgressOf(added);
            RunSpec(job, w).emitted == w.emitted + added + [LogMessage(Closing(job.analysis, s.fault)), TaskFinished] &&
            TaskFinished !in added &&
            |pr| <= |job.tasks| && pr == Percents(|job.tasks|)[..|pr|] &&
            (s.fault.None? <==> pr == Percents(|job.tasks|)) &&
            (Closing(job.analysis, s.fault).UnexpectedError? <==> s.fault.Some?)
  {
    var s := RunUpTo(job.tasks, TableOf(job), w, |job.tasks|);
    RunUpToExtends(job.tasks, TableOf(job), w, |job.tasks|);
    RunUpToProgress(job.tasks, TableOf(job), w, |job.tasks|);
    var out := s.world.emitted;
    assert out == w.emitted + out[|w.emitted|..];
    var pr := ProgressOf(out[|w.emitted|..]);
    assert |pr| == |job.tasks| ==> Percents(|job.tasks|)[..|pr|] == Percents(|job.tasks|);
  }

  /** Progress never goes down, stays within 0..100, and the last value is 100. */
  lemma PercentsShape(n: nat)
    requires 0 < n
    ensures Percents(n)[n - 1] == 100
    ensures forall i :: 0 <= i < n ==> 0 <= Percents(n)[i] <= 100
    ensures forall i, j :: 0 <= i <= j < n ==> Percents(n)[i] <= Percents(n)[j]
  {
    MulDiv(100, n);
    forall i, j | 0 <= i <= j < n
      ensures Percents(n)[i] <= Percents(n)[j]
    {
      DivMonotone(100 * (i + 1), 100 * (j + 1), n);
    }
    forall i | 0 <= i < n
      ensures 0 <= Percents(n)[i] <= 100
    {
      DivMonotone(100 * (i + 1), 100 * n, n);
    }
  }

  lemma MulDiv(a: nat, n: nat)
    requires 0 < n
    ensures a * n / n == a
  {
    DivUnique(a * n, n, a, 0);
  }

  lemma DivMonotone(a: nat, b: nat, n: nat)
    requires a <= b && 0 < n
    ensures a / n <= b / n
  {
    var qa, qb := a / n, b / n;
    if qa > qb {
      MulMonotone(qb + 1, qa, n);
      MulStep(qb, n);
      assert false;
    }
  }

  /** Euclidean division has one quotient. */
  lemma DivUnique(x: nat, n: nat, q: nat, r: nat)
    requires 0 < n && r < n && x == q * n + r
    ensures x / n == q
  {
    var q' := x / n;
    if q' > q {
      MulMonotone(q + 1, q', n);
      MulStep(q, n);
      assert false;
    } else if q' < q {
      MulMonotone(q' + 1, q, n);
      MulStep(q', n);
      assert false;
    }
  }

  lemma MulStep(k: int, n: int)
    ensures (k + 1) * n == k * n + n
  {
  }

  lemma {:induction false} MulMonotone(a: nat, b: nat, n: nat)
    requires a <= b
    ensures a * n <= b * n
    decreases b - a
  {
    if a < b {
      MulMonotone(a, b - 1, n);
      MulStep(b - 1, n);
    }
  }

  // ---- The filesystem and the results ----

  /** With a table that leaves the disk alone, so does the loop. */
  lemma {:induction false} KeepsFiles(tasks: seq<string>, d: Table, w: World, k: nat)
    requires k <= |tasks|
    requires forall t, fs :: d(t, fs).fs == fs
    ensures RunUpTo(tasks, d, w, k).world.fs == w.fs
    decreases k
  {
    if k > 0 {
      KeepsFiles(tasks, d, w, k - 1);
    }
  }

  /**
   * The loop stores results only under the labels of tasks it ran, and a stored
   * value is a measured size in analysis mode and None in cleanup mode.
   */
  lemma {:induction false} RunUpToResults(tasks: seq<string>, d: Table, analysis: bool, w: World, k: nat)
    requires k <= |tasks| && TableShape(d, analysis)
    ensures var res := RunUpTo(tasks, d, w, k).world.results;
            (forall key :: key in w.results ==> key in res) &&
            forall key :: key in res && (key !in w.results || res[key] != w.results[key]) ==>
              (exists i :: 0 <= i < k && Label(tasks[i]) == Some(key)) &&
              (analysis <==> res[key].Some?)
    decreases k
  {
    if k > 0 {
      RunUpToResults(tasks, d, analysis, w, k - 1);
      var s := RunUpTo(tasks, d, w, k - 1);
      if s.fault.None? {
        var t := tasks[k - 1];
        var e := d(t, s.world.fs);
        if e.outcome.Returned? && Label(t).Some? {
          assert analysis <==> e.outcome.value.Some?;
        }
      }
    }
  }

  /** The five labels belong to five different task names. */
  lemma LabelInjective(a: string, b: string)
    requires Label(a).Some? && Label(a) == Label(b)
    ensures a == b
  {
  }

  /**
   * When no handler raised, every labelled task among the first `k` has its
   * result stored under its label: in analysis mode the size its handler
   * measures on the disk the run started from, in cleanup mode None.
   */
  lemma {:induction false} RunUpToStores(tasks: seq<string>, d: Table, analysis: bool, w: World, k: nat)
    requires k <= |tasks| && TableShape(d, analysis)
    requires RunUpTo(tasks, d, w, k).fault.None?
    ensures var res := RunUpTo(tasks, d, w, k).world.results;
            forall i :: 0 <= i < k && Label(tasks[i]).Some? ==>
              Label(tasks[i]).value in res &&
              (if analysis then d(tasks[i], w.fs).outcome == Returned(res[Label(tasks[i]).value]) else res[Label(tasks[i]).value] == None)
    decreases k
  {
    if k > 0 {
      var s := RunUpTo(tasks, d, w, k - 1);
      assert s.fault.None?;
      RunUpToStores(tasks, d, analysis, w, k - 1);
      if analysis {
        KeepsFiles(tasks, d, w, k - 1);
      }
      var t := tasks[k - 1];
      var e := d(t, s.world.fs);
      assert e.outcome.Returned?;
      StoresStep(tasks, d, analysis, w.fs, k, s.world.results, e.outcome.value);
    }
  }

  /** Storing the result of task `k - 1` keeps the stored results of the tasks before it right. */
  lemma StoresStep(tasks: seq<string>, d: Table, analysis: bool, fs: Node, k: nat, res0: map<string, Option<nat>>, v: Option<nat>)
    requires 0 < k <= |tasks|
    requires forall i :: 0 <= i < k - 1 && Label(tasks[i]).Some? ==>
               Label(tasks[i]).value in res0 &&
               (if analysis then d(tasks[i], fs).outcome == Returned(res0[Label(tasks[i]).value]) else res0[Label(tasks[i]).value] == None)
    requires analysis ==> d(tasks[k - 1], fs).outcome == Returned(v)
    requires !analysis && Label(tasks[k - 1]).Some? ==> v == None
    ensures var res := if Label(tasks[k - 1]).Some? then res0[Label(tasks[k - 1]).value := v] else res0;
            forall i :: 0 <= i < k && Label(tasks[i]).Some? ==>
              Label(tasks[i]).value in res &&
              (if analysis then d(tasks[i], fs).outcome == Returned(res[Label(tasks[i]).value]) else res[Label(tasks[i]).value] == None)
  {
    var t := tasks[k - 1];
    forall i | 0 <= i < k - 1 && Label(tasks[i]).Some? && Label(tasks[i]) == Label(t)
      ensures tasks[i] == t
    {
      LabelInjective(tasks[i], t);
    }
  }

  /**
   * The effect of a whole run on the disk and on analysis_results: analysis
   * leaves the disk as it was; only the five labels of the tasks run gain or
   * change a value, None in cleanup mode and a size in analysis mode.
   */
  lemma RunResults(job: Job, w: World)
    ensures job.analysis ==> RunSpec(job, w).fs == w.fs
    ensures var res := RunSpec(job, w).results;
            (forall key :: key in w.results ==> key in res) &&
            forall key :: key in res && (key !in w.results || res[key] != w.results[key]) ==>
              (exists i :: 0 <= i < |job.tasks| && Label(job.tasks[i]) == Some(key)) &&
              (job.analysis <==> res[key].Some?)
    ensures RunUpTo(job.tasks, TableOf(job), w, |job.tasks|).fault.None? ==>
              var res := RunSpec(job, w).results;
              forall i :: 0 <= i < |job.tasks| && Label(job.tasks[i]).Some? ==>
                Label(job.tasks[i]).value in res &&
                (if job.analysis then Dispatch(job.tasks[i], true, job.os, job.env, w.fs).outcome == Returned(res[Label(job.tasks[i]).value])
                 else res[Label(job.tasks[i]).value] == None)
  {
    DispatchShape(job);
    if job.analysis {
      KeepsFiles(job.tasks, TableOf(job), w, |job.tasks|);
    }
    RunUpToResults(job.tasks, TableOf(job), job.analysis, w, |job.tasks|);
    if RunUpTo(job.tasks, TableOf(job), w, |job.tasks|).fault.None? {
      RunUpToStores(job.tasks, TableOf(job), job.analysis, w, |job.tasks|);
    }
  }

  /**
   * The report an analysis run leaves when no handler raised: each selected
   * category's entry is the size its analysis handler measures on the disk
   * as it was when the run started.
   */
  lemma AnalysisReport(job: Job, w: World)
    requires job.analysis && RunUpTo(job.tasks, TableOf(job), w, |job.tasks|).fault.None?
    ensures var res := RunSpec(job, w).results;
            ("clean_temp_files" in job.tasks ==> TempLabel in res && TempFilesSize(w.fs, job.os, job.env) == Returned(res[TempLabel])) &&
            ("empty_trash" in job.tasks ==> TrashLabel in res && TrashSize(w.fs, job.os, job.env).outcome == Returned(res[TrashLabel])) &&
            ("clean_caches" in job.tasks ==> CachesLabel in res && CachesSize(w.fs, job.os, job.env) == Returned(res[CachesLabel])) &&
            ("clean_prefetch" in job.tasks ==> PrefetchLabel in res && PrefetchSize(w.fs, job.os, job.env) == Returned(res[PrefetchLabel])) &&
            ("find_large_old_files" in job.tasks ==> LargeOldLabel in res && LargeOldSize(w.fs, job.env) == Returned(res[LargeOldLabel]))
  {
    if "clean_temp_files" in job.tasks { AnalysisStored(job, w, "clean_temp_files"); }
    if "empty_trash" in job.tasks { AnalysisStored(job, w, "empty_trash"); }
    if "clean_caches" in job.tasks { AnalysisStored(job, w, "clean_caches"); }
    if "clean_prefetch" in job.tasks { AnalysisStored(job, w, "clean_prefetch"); }
    if "find_large_old_files" in job.tasks { AnalysisStored(job, w, "find_large_old_files"); }
  }

  /** The entry under a task's label is what its analysis handler measures on the starting disk. */
  ghost predicate StoredAsMeasured(job: Job, w: World, t: string)
    requires Label(t).Some?
  {
    var res := RunSpec(job, w).results;
    Label(t).value in res && Dispatch(t, true, job.os, job.env, w.fs).outcome == Returned(res[Label(t).value])
  }

  lemma AnalysisStored(job: Job, w: World, t: string)
    requires job.analysis && RunUpTo(job.tasks, TableOf(job), w, |job.tasks|).fault.None?
    requires t in job.tasks && Label(t).Some?
    ensures StoredAsMeasured(job, w, t)
  {
    RunResults(job, w);
    var i :| 0 <= i < |job.tasks| && job.tasks[i] == t;
  }
}
