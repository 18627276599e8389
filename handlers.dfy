/**
 * What each of the worker's handlers does, as a function of the platform, the
 * environment and the filesystem it starts from: how it ends, the filesystem
 * it leaves and the lines it logs.
 */
module Handlers {
  import opened Basics
  import opened FileTree
  import opened Platforms
  import opened Events
  import opened Scan
  import opened Cleanup

  // ---- analyze_temp_files and analyze_caches: guarded totals over several roots ----

  /** One root of a multi-root size loop: a root that does not exist adds nothing. */
  function RootSum(fs: Node, r: Option<Path>, f: Filter): Outcome {
    if RootExists(fs, r) then GuardedSum(WalkAt(fs, r.value), f) else Returned(Some(0))
  }

  /** The roots one after the other, in order; the first escaping failure ends the handler. */
  function SumOverRoots(fs: Node, roots: seq<Option<Path>>, f: Filter): Outcome {
    if roots == [] then Returned(Some(0))
    else Then(SumOverRoots(fs, roots[..|roots| - 1], f), RootSum(fs, roots[|roots| - 1], f))
  }

  /** Once a prefix of the roots has raised, the remaining roots are not visited. */
  lemma {:induction false} SumOverRootsStops(fs: Node, roots: seq<Option<Path>>, f: Filter, i: nat)
    requires i < |roots| && SumOverRoots(fs, roots[..i + 1], f).Raised?
    ensures SumOverRoots(fs, roots, f) == SumOverRoots(fs, roots[..i + 1], f)
    decreases |roots|
  {
    if |roots| == i + 1 {
      assert roots[..i + 1] == roots;
    } else {
      var init := roots[..|roots| - 1];
      assert init[..i + 1] == roots[..i + 1];
      SumOverRootsStops(fs, init, f, i);
    }
  }

  /** One root of the nested loop of analyze_temp_files and analyze_caches. */
  method SumRoot(fs: Node, r: Option<Path>, f: Filter) returns (s: Outcome)
    ensures s == RootSum(fs, r, f)
    ensures s.Returned? ==> s.value.Some?
  {
    s := Returned(Some(0));
    if RootExists(fs, r) {
      s := SumFiles(WalkAt(fs, r.value), f);
    }
  }

  lemma SumOverRootsNext(fs: Node, roots: seq<Option<Path>>, f: Filter, i: nat)
    requires i < |roots|
    ensures SumOverRoots(fs, roots[..i + 1], f) == Then(SumOverRoots(fs, roots[..i], f), RootSum(fs, roots[i], f))
  {
    assert roots[..i + 1][..i] == roots[..i];
  }

  /** One more root either raises, which is the outcome of all the roots, or adds its total. */
  lemma SumRootsStep(fs: Node, roots: seq<Option<Path>>, f: Filter, i: nat, total: nat)
    requires i < |roots| && SumOverRoots(fs, roots[..i], f) == Returned(Some(total))
    ensures var s := RootSum(fs, roots[i], f);
            (s.Raised? ==> SumOverRoots(fs, roots, f) == s) &&
            (s.Returned? ==> s.value.Some? && SumOverRoots(fs, roots[..i + 1], f) == Returned(Some(total + s.value.value)))
  {
    SumOverRootsNext(fs, roots, f, i);
    if RootSum(fs, roots[i], f).Raised? {
      SumOverRootsStops(fs, roots, f, i);
    }
  }

  /** The nested loop of analyze_temp_files and analyze_caches. */
  method SumRoots(fs: Node, roots: seq<Option<Path>>, f: Filter) returns (o: Outcome)
    ensures o == SumOverRoots(fs, roots, f)
  {
    var total: nat := 0;
    var i: nat := 0;
    while i < |roots|
      invariant 0 <= i <= |roots|
      invariant SumOverRoots(fs, roots[..i], f) == Returned(Some(total))
    {
      var s := SumRoot(fs, roots[i], f);
      SumRootsStep(fs, roots, f, i, total);
      if s.Raised? {
        return s;
      }
      total := total + s.value.value;
      i := i + 1;
    }
    assert roots[..i] == roots;
    o := Returned(Some(total));
  }

  /** A multi-root total that returns returns an int. */
  lemma {:induction false} SumOverRootsSome(fs: Node, roots: seq<Option<Path>>, f: Filter)
    ensures SumOverRoots(fs, roots, f).Returned? ==> SumOverRoots(fs, roots, f).value.Some?
    decreases |roots|
  {
    if roots != [] {
      SumOverRootsSome(fs, roots[..|roots| - 1], f);
    }
  }

  /** The tree a root names, if it exists. */
  function RootTree(fs: Node, r: Option<Path>): Option<Node> {
    if RootExists(fs, r) then Resolve(fs, r.value) else None
  }

  /** Whether some existing root reaches a file whose stat raises an unguarded OSError. */
  predicate RootsFaulty(fs: Node, roots: seq<Option<Path>>) {
    roots != [] &&
      (RootsFaulty(fs, roots[..|roots| - 1]) ||
       (RootTree(fs, roots[|roots| - 1]).Some? && TreeFaulty(RootTree(fs, roots[|roots| - 1]).value)))
  }

  /** The bytes below each existing root, added up root by root (a root listed twice counts twice). */
  function RootsBytes(fs: Node, roots: seq<Option<Path>>): nat {
    if roots == [] then 0
    else
      var t := RootTree(fs, roots[|roots| - 1]);
      RootsBytes(fs, roots[..|roots| - 1]) + (if t.Some? then TreeBytes(t.value) else 0)
  }

  /**
   * The temp and cache totals against the trees they walk: an escaping
   * failure exactly when some existing root reaches a faulty file, and
   * otherwise the bytes below every existing root.
   */
  lemma {:induction false} SumOverRootsIsTreeBytes(fs: Node, roots: seq<Option<Path>>)
    ensures SumsTo(SumOverRoots(fs, roots, AnyFile), RootsFaulty(fs, roots), RootsBytes(fs, roots))
    decreases |roots|
  {
    if roots != [] {
      var init := roots[..|roots| - 1];
      var r := roots[|roots| - 1];
      SumOverRootsIsTreeBytes(fs, init);
      var t := RootTree(fs, r);
      if t.Some? {
        WalkSumIsTreeBytes(t.value, r.value);
        ThenSums(SumOverRoots(fs, init, AnyFile), RootSum(fs, r, AnyFile),
                 RootsFaulty(fs, init), RootsBytes(fs, init), TreeFaulty(t.value), TreeBytes(t.value));
      } else {
        ThenSums(SumOverRoots(fs, init, AnyFile), RootSum(fs, r, AnyFile),
                 RootsFaulty(fs, init), RootsBytes(fs, init), false, 0);
      }
    }
  }

  /** analyze_temp_files. */
  function TempFilesSize(fs: Node, os: Platform, env: Env): Outcome {
    SumOverRoots(fs, TempRoots(os, env), AnyFile)
  }

  /**
   * On Windows, when TEMP and TMP name the same directory, analyze_temp_files
   * walks it twice and reports twice its size.
   */
  lemma SameTempCountedTwice(fs: Node, env: Env)
    requires env.temp == env.tmp
    ensures var once := RootSum(fs, env.temp, AnyFile);
            once.Returned? ==> TempFilesSize(fs, Windows, env) == Returned(Some(2 * once.value.value))
  {
    var roots := TempRoots(Windows, env);
    assert roots[..1] == [env.temp];
    assert roots[..1][..0] == [];
    var once := RootSum(fs, env.temp, AnyFile);
    if once.Returned? {
      assert once.value.Some? by {
        if RootExists(fs, env.temp) {
          var files := WalkAt(fs, env.temp.value);
          assert once == GuardedSum(files, AnyFile);
        }
      }
      assert SumOverRoots(fs, roots[..1], AnyFile) == once;
      assert SumOverRoots(fs, roots, AnyFile) == Then(once, once);
    }
  }

  /** analyze_caches. */
  function CachesSize(fs: Node, os: Platform, env: Env): Outcome {
    SumOverRoots(fs, CacheRoots(os, env), AnyFile)
  }

  // ---- analyze_trash ----

  /** The items analyze_trash sizes: the recycle bin on Windows, a walk of the trash directory on Linux and macOS. */
  function TrashFiles(fs: Node, os: Platform, env: Env): seq<Located> {
    match os
    case Windows => env.recycleBin
    case Linux => if Exists(fs, TrashDir(os, env).value) then WalkAt(fs, TrashDir(os, env).value) else []
    case Darwin => if Exists(fs, TrashDir(os, env).value) then WalkAt(fs, TrashDir(os, env).value) else []
    case OtherSystem => []
  }

  /**
   * analyze_trash: the sizes of the items before the first one whose size
   * lookup fails, and for such a failure one "Error analyzing trash" line.
   * It never raises.
   */
  function TrashSize(fs: Node, os: Platform, env: Env): Effect {
    var files := TrashFiles(fs, os, env);
    var k := FirstUnreadable(files);
    Effect(Returned(Some(SizeSum(files[..k]))), fs,
           if k < |files| then [TrashAnalysisError(StatFailed(files[k].path))] else [])
  }

  /**
   * The trash total never exceeds what a guarded walk of the same items would
   * count, equals it when no lookup fails, and an error line is logged
   * exactly when one does.
   */
  lemma TrashSizeBounded(fs: Node, os: Platform, env: Env)
    ensures var e := TrashSize(fs, os, env);
            var files := TrashFiles(fs, os, env);
            e.outcome.Returned? && e.outcome.value.Some? &&
            e.outcome.value.value <= Total(files, AnyFile) &&
            (e.lines == [] <==> forall i :: 0 <= i < |files| ==> files[i].meta.access == Readable) &&
            (e.lines == [] ==> e.outcome.value.value == Total(files, AnyFile))
  {
    var files := TrashFiles(fs, os, env);
    TrashTotalBounded(files);
    if FirstUnreadable(files) == |files| {
      assert files[..|files|] == files;
    }
  }

  // ---- analyze_prefetch ----

  /**
   * analyze_prefetch: 0 off Windows or when the Prefetch directory does not
   * exist; a listing that fails escapes; otherwise the guarded total of the
   * *.pf entries.
   */
  function PrefetchSize(fs: Node, os: Platform, env: Env): Outcome {
    if os != Windows then Returned(Some(0))
    else
      var p := PrefetchDir(env);
      if !Exists(fs, p) then Returned(Some(0))
      else
        var d := Resolve(fs, p).value;
        if !Listable(d) then Raised(ListFailed(p)) else GuardedSum(PfFiles(p, d.entries), AnyFile)
  }

  /**
   * analyze_prefetch against the listing: 0 off Windows or without the
   * directory, the listing's failure when it cannot be read, and otherwise it
   * raises exactly when some *.pf entry's stat raises an uncaught error and
   * returns the bytes of every readable *.pf entry when none does.
   */
  lemma PrefetchSizeCounts(fs: Node, os: Platform, env: Env)
    ensures var p := PrefetchDir(env);
            var o := PrefetchSize(fs, os, env);
            (os != Windows || !Exists(fs, p) ==> o == Returned(Some(0))) &&
            (os == Windows && Exists(fs, p) && !Listable(Resolve(fs, p).value) ==> o == Raised(ListFailed(p))) &&
            (os == Windows && Exists(fs, p) && Listable(Resolve(fs, p).value) ==>
               var es := Resolve(fs, p).value.entries;
               o.Raised? == PfFaulty(es) && (!PfFaulty(es) ==> o == Returned(Some(PfBytes(es)))))
  {
    var p := PrefetchDir(env);
    if os == Windows && Exists(fs, p) && Listable(Resolve(fs, p).value) {
      PfSum(p, Resolve(fs, p).value.entries);
    }
  }

  // ---- analyze_large_old_files ----

  /** analyze_large_old_files: the guarded large-and-old total of a walk of the home directory. */
  function LargeOldSize(fs: Node, env: Env): Outcome {
    GuardedSum(WalkAt(fs, env.home), LargeAndOld(env.now))
  }

  // ---- clean_temp_files and clean_caches: per-root loops ----

  /** The effect of a per-root cleanup loop so far. */
  datatype Tally = Tally(fs: Node, count: nat, lines: seq<Message>, fault: Option<Fault>)

  /** Which per-root loop runs. */
  datatype RootTask = CleanTemp | CleanCache

  /**
   * clean_temp_files on one root: a root that does not exist is skipped, a
   * listing that fails escapes, and otherwise the removal loop runs over the
   * listing and adds its count.
   */
  function TempRoot(fs: Node, r: Option<Path>): Tally {
    if !RootExists(fs, r) then Tally(fs, 0, [], None)
    else
      var d := Resolve(fs, r.value).value;
      if !Listable(d) then Tally(fs, 0, [], Some(ListFailed(r.value)))
      else
        var s := SweepAll(TempPass, r.value, d.entries);
        Tally(Replace(fs, r.value, d.(entries := s.kept)), s.count, s.lines, None)
  }

  /**
   * clean_caches on one root: a root that does not exist is skipped; a failed
   * listing or a failed removal logs "Error cleaning cache" and counts nothing;
   * otherwise "Cleaned cache" is logged and the directory counts once.
   */
  function CacheRoot(fs: Node, r: Option<Path>): Tally {
    if !RootExists(fs, r) then Tally(fs, 0, [], None)
    else
      var d := Resolve(fs, r.value).value;
      if !Listable(d) then Tally(fs, 0, [CacheError(r.value)], None)
      else
        var c := CacheItems(d.entries);
        Tally(Replace(fs, r.value, d.(entries := c.kept)), if c.failed then 0 else 1,
              [if c.failed then CacheError(r.value) else CacheCleaned(r.value)], None)
  }

  function RootStep(t: RootTask, fs: Node, r: Option<Path>): Tally {
    match t
    case CleanTemp => TempRoot(fs, r)
    case CleanCache => CacheRoot(fs, r)
  }

  /** The roots one after the other, each on the filesystem the previous ones left; an escaping failure ends the loop. */
  function RootsFold(t: RootTask, fs: Node, roots: seq<Option<Path>>): Tally {
    if roots == [] then Tally(fs, 0, [], None)
    else
      var prev := RootsFold(t, fs, roots[..|roots| - 1]);
      if prev.fault.Some? then prev
      else
        var s := RootStep(t, prev.fs, roots[|roots| - 1]);
        Tally(s.fs, prev.count + s.count, prev.lines + s.lines, s.fault)
  }

  lemma RootsFoldNext(t: RootTask, fs: Node, roots: seq<Option<Path>>, i: nat)
    requires i < |roots|
    ensures var prev := RootsFold(t, fs, roots[..i]);
            var s := RootStep(t, prev.fs, roots[i]);
            RootsFold(t, fs, roots[..i + 1]) ==
              if prev.fault.Some? then prev else Tally(s.fs, prev.count + s.count, prev.lines + s.lines, s.fault)
  {
    assert roots[..i + 1][..i] == roots[..i];
  }

  /** A root that returns extends the fold of the roots before it. */
  lemma RootsFoldGoesOn(t: RootTask, fs: Node, roots: seq<Option<Path>>, i: nat, cur: Tally, s: Tally)
    requires i < |roots| && RootsFold(t, fs, roots[..i]) == cur && cur.fault.None?
    requires s == RootStep(t, cur.fs, roots[i]) && s.fault.None?
    ensures RootsFold(t, fs, roots[..i + 1]) == Tally(s.fs, cur.count + s.count, cur.lines + s.lines, None)
  {
    RootsFoldNext(t, fs, roots, i);
  }

  /** A root that raises ends the fold there. */
  lemma RootsFoldRaises(t: RootTask, fs: Node, roots: seq<Option<Path>>, i: nat, cur: Tally, s: Tally)
    requires i < |roots| && RootsFold(t, fs, roots[..i]) == cur && cur.fault.None?
    requires s == RootStep(t, cur.fs, roots[i]) && s.fault.Some?
    ensures RootsFold(t, fs, roots) == Tally(s.fs, cur.count + s.count, cur.lines + s.lines, s.fault)
  {
    RootsFoldNext(t, fs, roots, i);
    RootsFoldStops(t, fs, roots, i);
  }

  /** Once a root has raised, the remaining roots are not visited. */
  lemma {:induction false} RootsFoldStops(t: RootTask, fs: Node, roots: seq<Option<Path>>, i: nat)
    requires i < |roots| && RootsFold(t, fs, roots[..i + 1]).fault.Some?
    ensures RootsFold(t, fs, roots) == RootsFold(t, fs, roots[..i + 1])
    decreases |roots|
  {
    if |roots| == i + 1 {
      assert roots[..i + 1] == roots;
    } else {
      var init := roots[..|roots| - 1];
      assert init[..i + 1] == roots[..i + 1];
      RootsFoldStops(t, fs, init, i);
    }
  }

  /** clean_temp_files: the loop over the temp roots, then "Cleaned N temporary files/directories." unless it raised. */
  function TempCleanup(fs: Node, os: Platform, env: Env): Effect {
    var t := RootsFold(CleanTemp, fs, TempRoots(os, env));
    if t.fault.Some? then Effect(Raised(t.fault.value), t.fs, t.lines)
    else Effect(Returned(None), t.fs, t.lines + [CleanedTemp(t.count)])
  }

  /** The cache loop never raises, so the handler always logs its count and returns. */
  lemma CacheCleanupReturns(fs: Node, os: Platform, env: Env, cur: Tally)
    requires RootsFold(CleanCache, fs, CacheRoots(os, env)) == cur
    ensures CacheCleanup(fs, os, env) == Effect(Returned(None), cur.fs, cur.lines + [CleanedCaches(cur.count)])
  {
  }

  /** The temp loop over every root having returned, the handler logs its count and returns. */
  lemma TempCleanupReturns(fs: Node, os: Platform, env: Env, cur: Tally)
    requires RootsFold(CleanTemp, fs, TempRoots(os, env)) == cur && cur.fault.None?
    ensures TempCleanup(fs, os, env) == Effect(Returned(None), cur.fs, cur.lines + [CleanedTemp(cur.count)])
  {
  }

  /**
   * One temp root against its listing: a missing root adds nothing, an
   * unreadable one raises, and otherwise it counts the directories and
   * unlinkable files of the listing and logs one line for each other item.
   */
  lemma TempRootCounts(fs: Node, r: Option<Path>)
    ensures var s := TempRoot(fs, r);
            (!RootExists(fs, r) ==> s == Tally(fs, 0, [], None)) &&
            (RootExists(fs, r) && !Listable(Resolve(fs, r.value).value) ==> s.fault == Some(ListFailed(r.value)) && s.count == 0) &&
            (RootExists(fs, r) && Listable(Resolve(fs, r.value).value) ==>
               var es := Resolve(fs, r.value).value.entries;
               s.fault.None? && s.count == CountTempCounted(es) && s.count + |s.lines| == |es|)
  {
    if RootExists(fs, r) && Listable(Resolve(fs, r.value).value) {
      TempSweepCounts(r.value, Resolve(fs, r.value).value.entries);
    }
  }

  /**
   * clean_temp_files where the platform has a single temp directory (Linux):
   * the count it reports is the number of directories and unlinkable files in
   * that directory's listing, and every other item logs one line.
   */
  lemma TempCleanupOneRoot(fs: Node, os: Platform, env: Env)
    requires |TempRoots(os, env)| == 1
    ensures var r := TempRoots(os, env)[0];
            var e := TempCleanup(fs, os, env);
            (!RootExists(fs, r) ==> e == Effect(Returned(None), fs, [CleanedTemp(0)])) &&
            (RootExists(fs, r) && !Listable(Resolve(fs, r.value).value) ==> e.outcome == Raised(ListFailed(r.value))) &&
            (RootExists(fs, r) && Listable(Resolve(fs, r.value).value) ==>
               var es := Resolve(fs, r.value).value.entries;
               e.outcome == Returned(None) && |e.lines| == |es| - CountTempCounted(es) + 1 &&
               e.lines[|e.lines| - 1] == CleanedTemp(CountTempCounted(es)))
  {
    var roots := TempRoots(os, env);
    assert roots[..0] == [];
    var s := TempRoot(fs, roots[0]);
    TempRootCounts(fs, roots[0]);
    assert RootsFold(CleanTemp, fs, roots) == Tally(s.fs, s.count, [] + s.lines, s.fault);
    assert [] + s.lines == s.lines;
  }

  /**
   * One cache root against its listing: a missing root adds nothing, and an
   * existing one counts 1 exactly when it can be listed and every item in it is
   * a directory or a file that can be unlinked.
   */
  lemma CacheRootCounts(fs: Node, r: Option<Path>)
    ensures var s := CacheRoot(fs, r);
            (!RootExists(fs, r) ==> s == Tally(fs, 0, [], None)) &&
            (RootExists(fs, r) ==>
               |s.lines| == 1 &&
               (s.count == 1 <==> Listable(Resolve(fs, r.value).value) && forall e :: e in Resolve(fs, r.value).value.entries ==> TempCounted(e)) &&
               (s.count == 0 <==> s.lines == [CacheError(r.value)]))
  {
    if RootExists(fs, r) && Listable(Resolve(fs, r.value).value) {
      CacheCountedIffAllItemsHandled(Resolve(fs, r.value).value.entries);
    }
  }

  /**
   * clean_caches where the platform has a single cache directory (Linux and
   * macOS): it reports 1 exactly when that directory exists, can be listed and
   * holds only directories and files that can be unlinked, and 0 otherwise.
   */
  lemma CacheCleanupOneRoot(fs: Node, os: Platform, env: Env)
    requires |CacheRoots(os, env)| == 1
    ensures var r := CacheRoots(os, env)[0];
            var e := CacheCleanup(fs, os, env);
            var n := if RootExists(fs, r) && Listable(Resolve(fs, r.value).value) &&
                        forall x :: x in Resolve(fs, r.value).value.entries ==> TempCounted(x) then 1 else 0;
            e.outcome == Returned(None) && e.lines[|e.lines| - 1] == CleanedCaches(n) &&
            |e.lines| == (if RootExists(fs, r) then 2 else 1)
  {
    var roots := CacheRoots(os, env);
    assert roots[..0] == [];
    var s := CacheRoot(fs, roots[0]);
    CacheRootCounts(fs, roots[0]);
    assert RootsFold(CleanCache, fs, roots) == Tally(s.fs, s.count, [] + s.lines, s.fault);
    assert [] + s.lines == s.lines;
  }

  /** clean_caches: the loop over the cache roots, then "Cleaned N cache directories."; it never raises. */
  function CacheCleanup(fs: Node, os: Platform, env: Env): Effect {
    var t := RootsFold(CleanCache, fs, CacheRoots(os, env));
    Effect(Returned(None), t.fs, t.lines + [CleanedCaches(t.count)])
  }

  /**
   * The temp loop logs only "Permission error deleting" lines, each for an
   * entry directly inside one of the roots.
   */
  lemma {:induction false} TempFoldLines(fs: Node, roots: seq<Option<Path>>)
    ensures forall m :: m in RootsFold(CleanTemp, fs, roots).lines ==>
              m.DeleteDenied? && exists r :: r in roots && r.Some? && |m.path| == |r.value| + 1 && m.path[..|r.value|] == r.value
    decreases |roots|
  {
    if roots != [] {
      var init := roots[..|roots| - 1];
      var r := roots[|roots| - 1];
      TempFoldLines(fs, init);
      assert forall q :: q in init ==> q in roots;
      var prev := RootsFold(CleanTemp, fs, init);
      if prev.fault.None? && RootExists(prev.fs, r) {
        var d := Resolve(prev.fs, r.value).value;
        if Listable(d) {
          TempSweepCounts(r.value, d.entries);
          forall m | m in SweepAll(TempPass, r.value, d.entries).lines
            ensures m.DeleteDenied? && |m.path| == |r.value| + 1 && m.path[..|r.value|] == r.value
          {
            var e :| e in d.entries && !TempCounted(e) && m == DeleteDenied(r.value + [e.name]);
            assert m.path[..|r.value|] == r.value;
          }
        }
      }
    }
  }

  /**
   * clean_caches logs one line per existing root, "Cleaned cache" or "Error
   * cleaning cache" for that root, and the count is the number of roots
   * reported cleaned.
   */
  lemma CacheFoldAccounting(fs: Node, roots: seq<Option<Path>>)
    ensures var t := RootsFold(CleanCache, fs, roots);
            t.fault.None? && t.count == CountCleaned(t.lines) && t.count <= |t.lines| <= |roots| &&
            forall m :: m in t.lines ==> (m.CacheCleaned? || m.CacheError?) && Some(m.path) in roots
  {
    CacheFoldCounts(fs, roots);
    CountCleanedBound(RootsFold(CleanCache, fs, roots).lines);
    CacheFoldLines(fs, roots);
  }

  lemma {:induction false} CacheFoldCounts(fs: Node, roots: seq<Option<Path>>)
    ensures var t := RootsFold(CleanCache, fs, roots);
            t.fault.None? && t.count == CountCleaned(t.lines) && |t.lines| <= |roots|
    decreases |roots|
  {
    if roots != [] {
      var init := roots[..|roots| - 1];
      CacheFoldCounts(fs, init);
      var prev := RootsFold(CleanCache, fs, init);
      var s := CacheRoot(prev.fs, roots[|roots| - 1]);
      CacheRootShape(prev.fs, roots[|roots| - 1]);
      CountCleanedAppend(prev.lines, s.lines);
    }
  }

  lemma {:induction false} CacheFoldLines(fs: Node, roots: seq<Option<Path>>)
    ensures forall m :: m in RootsFold(CleanCache, fs, roots).lines ==> (m.CacheCleaned? || m.CacheError?) && Some(m.path) in roots
    decreases |roots|
  {
    if roots != [] {
      var init := roots[..|roots| - 1];
      var r := roots[|roots| - 1];
      CacheFoldLines(fs, init);
      CacheFoldCounts(fs, init);
      var prev := RootsFold(CleanCache, fs, init);
      var s := CacheRoot(prev.fs, r);
      CacheRootShape(prev.fs, r);
      assert RootsFold(CleanCache, fs, roots).lines == prev.lines + s.lines;
      forall m | m in prev.lines + s.lines
        ensures (m.CacheCleaned? || m.CacheError?) && Some(m.path) in roots
      {
        if m in prev.lines {
          assert Some(m.path) in init;
        } else {
          assert m == s.lines[0];
        }
      }
    }
  }

  /** One cache root adds at most one line, about that root, and counts it when that line says "Cleaned cache". */
  lemma CacheRootShape(fs: Node, r: Option<Path>)
    ensures var s := CacheRoot(fs, r);
            s.fault.None? && s.count == CountCleaned(s.lines) && |s.lines| <= 1 &&
            (s.lines != [] ==> r.Some? && (s.lines[0].CacheCleaned? || s.lines[0].CacheError?) && s.lines[0].path == r.value)
  {
    var s := CacheRoot(fs, r);
    if s.lines != [] {
      assert s.lines[..0] == [];
    }
  }

  lemma {:induction false} CountCleanedBound(lines: seq<Message>)
    ensures CountCleaned(lines) <= |lines|
    decreases |lines|
  {
    if lines != [] {
      CountCleanedBound(lines[..|lines| - 1]);
    }
  }

  /** The number of "Cleaned cache" lines. */
  function CountCleaned(lines: seq<Message>): nat {
    if lines == [] then 0 else CountCleaned(lines[..|lines| - 1]) + (if lines[|lines| - 1].CacheCleaned? then 1 else 0)
  }

  lemma {:induction false} CountCleanedAppend(a: seq<Message>, b: seq<Message>)
    ensures CountCleaned(a + b) == CountCleaned(a) + CountCleaned(b)
    decreases |b|
  {
    if b == [] {
      assert a + b == a;
    } else {
      assert (a + b)[..|a + b| - 1] == a + b[..|b| - 1];
      CountCleanedAppend(a, b[..|b| - 1]);
    }
  }

  // ---- clean_prefetch ----

  /**
   * clean_prefetch: skipped off Windows, "not found" when the directory does
   * not exist, one access-error line when the listing fails, and otherwise the
   * removal loop over the *.pf entries and "Cleaned N Prefetch files.". It never raises.
   */
  function PrefetchCleanup(fs: Node, os: Platform, env: Env): Effect {
    if os != Windows then Effect(Returned(None), fs, [PrefetchSkipped])
    else
      var p := PrefetchDir(env);
      if !Exists(fs, p) then Effect(Returned(None), fs, [PrefetchMissing])
      else
        var d := Resolve(fs, p).value;
        if !Listable(d) then Effect(Returned(None), fs, [PrefetchAccessError])
        else
          var s := SweepAll(PrefetchPass, p, d.entries);
          Effect(Returned(None), Replace(fs, p, d.(entries := s.kept)), s.lines + [CleanedPrefetch(s.count)])
  }

  /**
   * After clean_prefetch the Prefetch directory lists what it listed before
   * minus exactly the *.pf files that could be unlinked, and the reported count
   * is their number.
   */
  lemma PrefetchCleanupRemovesPf(fs: Node, env: Env)
    requires Exists(fs, PrefetchDir(env)) && Listable(Resolve(fs, PrefetchDir(env)).value)
    ensures var p := PrefetchDir(env);
            var before := Resolve(fs, p).value.entries;
            var e := PrefetchCleanup(fs, Windows, env);
            Resolve(e.fs, p).Some? && Resolve(e.fs, p).value.Dir? && Resolve(e.fs, p).value.entries == WithoutRemovedPf(before) &&
            e.lines[|e.lines| - 1] == CleanedPrefetch(CountPfRemoved(before))
  {
    var p := PrefetchDir(env);
    var d := Resolve(fs, p).value;
    PrefetchSweepCounts(p, d.entries);
    ResolveReplace(fs, p, d.(entries := SweepAll(PrefetchPass, p, d.entries).kept));
  }

  // ---- empty_trash and defragment_disk: external commands ----

  /** empty_trash: one line saying how the platform's emptying command ended; nothing on other platforms. */
  function TrashEmptying(os: Platform, env: Env): seq<Message> {
    match os
    case Windows => if env.trashTool == ToolOk then [RecycleBinEmptied] else [TrashEmptyError]
    case Linux =>
      (match env.trashTool
       case ToolOk => [TrashEmptiedByTool]
       case ToolMissing => [TrashToolMissing]
       case ToolFailed => [TrashEmptyError])
    case Darwin => if env.trashTool == ToolOk then [MacTrashEmptied] else [TrashEmptyError]
    case OtherSystem => []
  }

  /** The tree with the directory at `p` emptied, when `p` names one; unchanged otherwise. */
  function Cleared(fs: Node, p: Path): Node {
    match Resolve(fs, p)
    case None => fs
    case Some(d) => if d.Dir? then Replace(fs, p, d.(entries := [])) else fs
  }

  /**
   * What empty_trash's command leaves of the filesystem: when it succeeds,
   * trash-empty clears the trash's files and info directories on Linux and
   * Finder clears ~/.Trash on macOS. The Windows recycle bin is not part of
   * the tree, and a command that fails or is missing changes nothing.
   */
  function TrashEmptied(fs: Node, os: Platform, env: Env): Node {
    if env.trashTool != ToolOk then fs
    else
      match os
      case Linux => Cleared(Cleared(fs, TrashDir(os, env).value), TrashInfoDir(env))
      case Darwin => Cleared(fs, TrashDir(os, env).value)
      case _ => fs
  }

  /**
   * After a successful empty on Linux or macOS the trash directory, if it was
   * one, is still there with nothing in it, so a trash analysis of the new
   * filesystem finds no items.
   */
  lemma TrashEmptiedClears(fs: Node, os: Platform, env: Env)
    requires (os == Linux || os == Darwin) && env.trashTool == ToolOk
    ensures var p := TrashDir(os, env).value;
            var after := TrashEmptied(fs, os, env);
            (Resolve(fs, p).Some? && Resolve(fs, p).value.Dir? ==>
               Resolve(after, p) == Some(Resolve(fs, p).value.(entries := []))) &&
            TrashFiles(after, os, env) == []
  {
    var p := TrashDir(os, env).value;
    ClearedAt(fs, p);
    if os == Linux {
      ApartUnder(env.home, [".local", "share", "Trash", "info"], [".local", "share", "Trash", "files"]);
      ClearedApart(Cleared(fs, p), TrashInfoDir(env), p);
    }
    var after := TrashEmptied(fs, os, env);
    assert Resolve(after, p) == Resolve(Cleared(fs, p), p);
    NothingToWalk(after, p);
  }

  /** Clearing a directory leaves it in place with no entries. */
  lemma ClearedAt(fs: Node, p: Path)
    ensures Resolve(fs, p).Some? && Resolve(fs, p).value.Dir? ==>
              Resolve(Cleared(fs, p), p) == Some(Resolve(fs, p).value.(entries := []))
    ensures Resolve(fs, p).None? || !Resolve(fs, p).value.Dir? ==> Cleared(fs, p) == fs
  {
    if Resolve(fs, p).Some? && Resolve(fs, p).value.Dir? {
      ResolveReplace(fs, p, Resolve(fs, p).value.(entries := []));
    }
  }

  /** Clearing a directory leaves every path apart from it as it was. */
  lemma ClearedApart(fs: Node, p: Path, q: Path)
    requires Apart(p, q)
    ensures Resolve(Cleared(fs, p), q) == Resolve(fs, q)
  {
    if Resolve(fs, p).Some? && Resolve(fs, p).value.Dir? {
      ResolveReplaceApart(fs, p, q, Resolve(fs, p).value.(entries := []));
    }
  }

  /** A walk of a path that names no directory with entries finds no files. */
  lemma NothingToWalk(fs: Node, p: Path)
    requires Resolve(fs, p).None? || !Listable(Resolve(fs, p).value) || Resolve(fs, p).value.entries == []
    ensures WalkAt(fs, p) == []
  {
    match Resolve(fs, p)
    case None =>
    case Some(n) =>
      if Listable(n) {
        assert WalkFiles(n, p) == FilesOf(p, []) + SubdirFiles([], p);
      }
  }

  /**
   * empty_trash logs exactly one line on the three supported platforms; it is
   * the error line exactly when the command did not succeed, except that a
   * missing trash-empty on Linux gets its own line.
   */
  lemma TrashEmptyingReports(os: Platform, env: Env)
    ensures |TrashEmptying(os, env)| == if os == OtherSystem then 0 else 1
    ensures TrashEmptying(os, env) == [TrashEmptyError] <==>
              os != OtherSystem && env.trashTool != ToolOk && !(os == Linux && env.trashTool == ToolMissing)
  {
  }

  /** defragment_disk: skipped off Windows; otherwise started, then finished or an error with the administrator hint. */
  function Defragmentation(os: Platform, env: Env): seq<Message> {
    if os != Windows then [DefragSkipped]
    else [DefragStarted] + (if env.defragTool == ToolOk then [DefragFinished] else [DefragError, RunAsAdministrator])
  }

  // ---- find_large_old_files ----

  /** One "Found:" line per reported file. */
  function FoundLines(ms: seq<Located>): (r: seq<Message>)
    ensures |r| == |ms|
  {
    if ms == [] then []
    else FoundLines(ms[..|ms| - 1]) + [Found(ms[|ms| - 1].path, ms[|ms| - 1].meta.size, ms[|ms| - 1].meta.mtime)]
  }

  /** Reporting one more match adds its "Found:" line at the end. */
  lemma FoundLinesSnoc(ms: seq<Located>, x: Located)
    ensures FoundLines(ms + [x]) == FoundLines(ms) + [Found(x.path, x.meta.size, x.meta.mtime)]
  {
    assert (ms + [x])[..|ms|] == ms;
  }

  /**
   * find_large_old_files: the scanning line, a "Found:" line for each large
   * and old file met before the first escaping stat failure, and, unless one
   * escaped, the summary line. It deletes nothing.
   */
  function LargeOldReport(fs: Node, env: Env): Effect {
    var files := WalkAt(fs, env.home);
    var k := FirstFaulty(files);
    var ms := Matches(files[..k], env.now);
    if k < |files| then Effect(Raised(StatFailed(files[k].path)), fs, [ScanningLargeOld] + FoundLines(ms))
    else Effect(Returned(None), fs, [ScanningLargeOld] + FoundLines(ms) +
                                    [if |ms| > 0 then FoundLargeOld(|ms|) else NoLargeOld])
  }

  /**
   * The report and the analysis agree: both raise on the same walk, and
   * otherwise the report names exactly the files whose sizes make up the
   * analysis total, with the matching summary.
   */
  lemma LargeOldReportAgrees(fs: Node, env: Env)
    ensures var e := LargeOldReport(fs, env);
            var a := LargeOldSize(fs, env);
            var ms := Matches(WalkAt(fs, env.home), env.now);
            e.fs == fs &&
            e.outcome.Raised? == a.Raised? &&
            (a.Returned? ==>
               e.lines == [ScanningLargeOld] + FoundLines(ms) + [if |ms| > 0 then FoundLargeOld(|ms|) else NoLargeOld] &&
               a == Returned(Some(SizeSum(ms))))
  {
    var files := WalkAt(fs, env.home);
    MatchesAgreeWithTotal(files, env.now);
    if FirstFaulty(files) == |files| {
      assert files[..|files|] == files;
    }
  }

  // ---- remove_empty_dirs ----

  /** The directories os.walk(home, topdown=False) yields. */
  function HomeSteps(fs: Node, env: Env): seq<Step> {
    match Resolve(fs, env.home)
    case None => []
    case Some(n) => BottomUp(n, env.home)
  }

  /**
   * remove_empty_dirs: the opening line, one line per directory listed empty,
   * and the count; every directory removed is unlinked from the tree.
   */
  function EmptyDirRemoval(fs: Node, env: Env): Effect {
    var steps := HomeSteps(fs, env);
    var removed := PrunedPaths(steps);
    Effect(Returned(None), UnlinkAll(fs, removed),
           [RemovingEmptyDirs] + PruneLines(steps) + [RemovedEmptyDirs(|removed|)])
  }

  /**
   * The count remove_empty_dirs reports is the number of readable directories
   * below home (home included) whose listing was empty and whose os.rmdir
   * succeeds, and it logs one line for every readable directory listed empty.
   */
  lemma EmptyDirRemovalCounts(fs: Node, env: Env)
    requires Resolve(fs, env.home).Some?
    ensures var e := EmptyDirRemoval(fs, env);
            var home := Resolve(fs, env.home).value;
            e.lines[|e.lines| - 1] == RemovedEmptyDirs(EmptyDirs(home, true)) &&
            |e.lines| == EmptyDirs(home, false) + 2
  {
    PruneCountsEmptyDirs(Resolve(fs, env.home).value, env.home);
  }
}
