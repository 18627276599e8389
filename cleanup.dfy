/**
 * What the cleanup handlers do to a directory listing: remove entries one by
 * one and count the removals, and the single bottom-up pass over empty
 * directories.
 */
module Cleanup {
  import opened Basics
  import opened FileTree
  import opened Events
  import opened Scan

  /**
   * shutil.rmtree(path, ignore_errors=True): every file it can unlink and every
   * directory it can empty and rmdir goes; what is left of `n`, or None when
   * all of it went.
   */
  function RmTree(n: Node): Option<Node> {
    match n
    case File(_, removable) => if removable then None else Some(n)
    case Dir(meta, es, listable, removable) =>
      var rest := if listable then RmEntries(es) else es;
      if rest == [] && removable then None else Some(Dir(meta, rest, listable, removable))
  }

  function RmEntries(es: seq<Entry>): seq<Entry> {
    if es == [] then []
    else
      (match RmTree(es[0].node)
       case None => []
       case Some(rest) => [Entry(es[0].name, rest)]) + RmEntries(es[1..])
  }

  /** Every file below `n` can be unlinked and every directory listed and removed. */
  predicate FullyRemovable(n: Node) {
    match n
    case File(_, removable) => removable
    case Dir(_, es, listable, removable) => listable && removable && AllFullyRemovable(es)
  }

  predicate AllFullyRemovable(es: seq<Entry>) {
    es == [] || (FullyRemovable(es[0].node) && AllFullyRemovable(es[1..]))
  }

  /** rmtree leaves nothing of a tree whose every entry can be removed. */
  lemma {:induction false} RmTreeRemovesAll(n: Node)
    requires FullyRemovable(n)
    ensures RmTree(n) == None
    decreases n, 1
  {
    if n.Dir? {
      RmEntriesRemovesAll(n.entries);
    }
  }

  lemma {:induction false} RmEntriesRemovesAll(es: seq<Entry>)
    requires AllFullyRemovable(es)
    ensures RmEntries(es) == []
    decreases es, 0
  {
    if es != [] {
      RmTreeRemovesAll(es[0].node);
      RmEntriesRemovesAll(es[1..]);
    }
  }

  /** Which per-item loop runs over a listing: that of clean_temp_files or that of clean_prefetch. */
  datatype Pass = TempPass | PrefetchPass

  /** The effect of a removal loop over a listing: what stays listed, how many removals counted, and the lines logged. */
  datatype Sweep = Sweep(kept: seq<Entry>, count: nat, lines: seq<Message>)

  /** os.remove succeeds: the entry is a file that can be unlinked. */
  predicate Unlinkable(n: Node) {
    n.File? && n.removable
  }

  /**
   * One item of a removal loop under the directory `root`.
   * clean_temp_files: a directory (os.path.isdir) is rmtree'd and always counted,
   * anything else is os.remove'd and counted only if that succeeds.
   * clean_prefetch: only *.pf entries are os.remove'd, counted when that succeeds.
   * A failed os.remove logs one line and leaves the entry.
   */
  function Item(pass: Pass, root: Path, e: Entry): Sweep {
    match pass
    case TempPass =>
      if IsDir(e.node) then
        Sweep(match RmTree(e.node) case None => [] case Some(rest) => [Entry(e.name, rest)], 1, [])
      else if Unlinkable(e.node) then Sweep([], 1, [])
      else Sweep([e], 0, [DeleteDenied(root + [e.name])])
    case PrefetchPass =>
      if !IsPfName(e.name) then Sweep([e], 0, [])
      else if Unlinkable(e.node) then Sweep([], 1, [])
      else Sweep([e], 0, [DeleteDenied(root + [e.name])])
  }

  /** A removal loop over the listing `es`, item by item in listing order. */
  function SweepAll(pass: Pass, root: Path, es: seq<Entry>): Sweep {
    if es == [] then Sweep([], 0, [])
    else
      var prev := SweepAll(pass, root, es[..|es| - 1]);
      var s := Item(pass, root, es[|es| - 1]);
      Sweep(prev.kept + s.kept, prev.count + s.count, prev.lines + s.lines)
  }

  /** One more item of a listing extends the sweep of the items before it by that item's sweep. */
  lemma SweepAllNext(pass: Pass, root: Path, es: seq<Entry>, j: nat)
    requires j < |es|
    ensures var prev := SweepAll(pass, root, es[..j]);
            var s := Item(pass, root, es[j]);
            SweepAll(pass, root, es[..j + 1]) == Sweep(prev.kept + s.kept, prev.count + s.count, prev.lines + s.lines)
  {
    assert es[..j + 1][..j] == es[..j];
  }

  /**
   * One turn of a removal loop over the listing it took: the sweep and the
   * lines logged so far both move on by the sweep of item `j`.
   */
  lemma SweepStep(pass: Pass, root: Path, items: seq<Entry>, j: nat, acc: Sweep, emitted0: seq<Signal>)
    requires j < |items| && SweepAll(pass, root, items[..j]) == acc
    ensures var s := Item(pass, root, items[j]);
            SweepAll(pass, root, items[..j + 1]) == Sweep(acc.kept + s.kept, acc.count + s.count, acc.lines + s.lines) &&
            emitted0 + Logs(acc.lines) + Logs(s.lines) == emitted0 + Logs(acc.lines + s.lines)
  {
    SweepAllNext(pass, root, items, j);
    LogsExtend(emitted0, acc.lines, Item(pass, root, items[j]).lines);
  }

  /** clean_temp_files counts an item when it is a directory or a file that os.remove can unlink. */
  predicate TempCounted(e: Entry) {
    IsDir(e.node) || Unlinkable(e.node)
  }

  function CountTempCounted(es: seq<Entry>): nat {
    if es == [] then 0 else CountTempCounted(es[..|es| - 1]) + (if TempCounted(es[|es| - 1]) then 1 else 0)
  }

  /**
   * The count of clean_temp_files for one directory: every directory entry and
   * every unlinkable file, with exactly one "Permission error deleting" line for
   * each other entry, so that count and lines together cover the listing.
   */
  lemma {:induction false} TempSweepCounts(root: Path, es: seq<Entry>)
    ensures SweepAll(TempPass, root, es).count == CountTempCounted(es)
    ensures SweepAll(TempPass, root, es).count + |SweepAll(TempPass, root, es).lines| == |es|
    ensures forall m :: m in SweepAll(TempPass, root, es).lines ==>
              exists e :: e in es && !TempCounted(e) && m == DeleteDenied(root + [e.name])
    decreases |es|
  {
    if es != [] {
      var init := es[..|es| - 1];
      TempSweepCounts(root, init);
      assert forall e :: e in init ==> e in es;
      var last := es[|es| - 1];
      assert last in es;
    }
  }

  /** clean_prefetch unlinks a *.pf entry exactly when it is an unlinkable file. */
  predicate PfRemoved(e: Entry) {
    IsPfName(e.name) && Unlinkable(e.node)
  }

  function CountPfRemoved(es: seq<Entry>): nat {
    if es == [] then 0 else CountPfRemoved(es[..|es| - 1]) + (if PfRemoved(es[|es| - 1]) then 1 else 0)
  }

  function CountPf(es: seq<Entry>): nat {
    if es == [] then 0 else CountPf(es[..|es| - 1]) + (if IsPfName(es[|es| - 1].name) then 1 else 0)
  }

  /** The listing without the entries clean_prefetch unlinks, in order. */
  function WithoutRemovedPf(es: seq<Entry>): seq<Entry> {
    if es == [] then [] else WithoutRemovedPf(es[..|es| - 1]) + (if PfRemoved(es[|es| - 1]) then [] else [es[|es| - 1]])
  }

  /**
   * clean_prefetch over a listing: it leaves every entry but the unlinked *.pf
   * files in place, counts exactly the unlinked ones, and logs one line for
   * every *.pf entry it could not unlink.
   */
  lemma {:induction false} PrefetchSweepCounts(root: Path, es: seq<Entry>)
    ensures SweepAll(PrefetchPass, root, es).kept == WithoutRemovedPf(es)
    ensures SweepAll(PrefetchPass, root, es).count == CountPfRemoved(es)
    ensures SweepAll(PrefetchPass, root, es).count + |SweepAll(PrefetchPass, root, es).lines| == CountPf(es)
    decreases |es|
  {
    if es != [] {
      PrefetchSweepCounts(root, es[..|es| - 1]);
    }
  }

  // ---- clean_caches: one try around the whole listing ----

  /** The effect of clean_caches' loop over one cache directory: what stays listed, and whether an os.remove raised. */
  datatype CacheSweep = CacheSweep(kept: seq<Entry>, failed: bool)

  /**
   * The loop over a cache directory's listing: a directory is rmtree'd, a file
   * os.remove'd; the first os.remove that fails ends the loop, leaving that
   * file and everything after it in place.
   */
  function CacheItems(es: seq<Entry>): CacheSweep {
    if es == [] then CacheSweep([], false)
    else
      var prev := CacheItems(es[..|es| - 1]);
      var e := es[|es| - 1];
      if prev.failed then CacheSweep(prev.kept + [e], true)
      else
        var c := CacheEntry(e);
        CacheSweep(prev.kept + c.kept, c.failed)
  }

  /** One item of a cache directory: a directory is rmtree'd, a file os.remove'd, which may fail and leave it. */
  function CacheEntry(e: Entry): CacheSweep {
    if IsDir(e.node) then CacheSweep(match RmTree(e.node) case None => [] case Some(rest) => [Entry(e.name, rest)], false)
    else if Unlinkable(e.node) then CacheSweep([], false)
    else CacheSweep([e], true)
  }

  /** While nothing has failed, one more item extends the loop by that item's removal. */
  lemma CacheItemsNext(es: seq<Entry>, j: nat)
    requires j < |es| && !CacheItems(es[..j]).failed
    ensures var prev := CacheItems(es[..j]);
            var c := CacheEntry(es[j]);
            CacheItems(es[..j + 1]) == CacheSweep(prev.kept + c.kept, c.failed)
  {
    assert es[..j + 1][..j] == es[..j];
  }

  /** A cache directory is counted exactly when every item of its listing was gone through without an exception. */
  lemma {:induction false} CacheCountedIffAllItemsHandled(es: seq<Entry>)
    ensures !CacheItems(es).failed <==> forall e :: e in es ==> TempCounted(e)
    decreases |es|
  {
    if es != [] {
      var init := es[..|es| - 1];
      var last := es[|es| - 1];
      CacheCountedIffAllItemsHandled(init);
      assert es == init + [last];
      assert forall e :: e in es <==> e in init || e == last;
      if CacheItems(init).failed {
        var bad :| bad in init && !TempCounted(bad);
        assert bad in es;
      } else {
        assert CacheItems(es).failed <==> !TempCounted(last);
      }
    }
  }

  /** Once an os.remove has failed, the rest of the listing stays as it is. */
  lemma {:induction false} CacheFailureKeepsRest(es: seq<Entry>, j: nat)
    requires j < |es| && CacheItems(es[..j + 1]).failed
    ensures CacheItems(es) == CacheSweep(CacheItems(es[..j + 1]).kept + es[j + 1..], true)
    decreases |es|
  {
    if |es| == j + 1 {
      assert es[..j + 1] == es;
      assert es[j + 1..] == [];
    } else {
      var init := es[..|es| - 1];
      TakeTake(es, |es| - 1, j + 1);
      CacheFailureKeepsRest(init, j);
      DropInit(es, j + 1);
    }
  }

  // ---- remove_empty_dirs: one bottom-up pass ----

  /** A directory of the pass whose listing was empty when it was scanned: the pass tries os.rmdir on it. */
  predicate ListedEmpty(s: Step) {
    s.node.Dir? && s.node.entries == []
  }

  /** The directories the pass removes: listed empty, and os.rmdir succeeds. */
  predicate PrunedStep(s: Step) {
    ListedEmpty(s) && s.node.removable
  }

  /** The lines the pass logs for its steps, one for each directory listed empty. */
  function PruneLines(steps: seq<Step>): seq<Message> {
    if steps == [] then []
    else
      var s := steps[|steps| - 1];
      PruneLines(steps[..|steps| - 1]) +
        (if !ListedEmpty(s) then [] else if s.node.removable then [DeletedEmptyDir(s.dir)] else [CouldNotDelete(s.dir)])
  }

  /** The paths the pass removes, in the order it removes them. */
  function PrunedPaths(steps: seq<Step>): seq<Path> {
    if steps == [] then []
    else PrunedPaths(steps[..|steps| - 1]) + (if PrunedStep(steps[|steps| - 1]) then [steps[|steps| - 1].dir] else [])
  }

  /** One more directory of the pass: its line, if listed empty, and its path, if removed, come last. */
  lemma PruneNext(steps: seq<Step>, i: nat)
    requires i < |steps|
    ensures var s := steps[i];
            PruneLines(steps[..i + 1]) == PruneLines(steps[..i]) +
              (if !ListedEmpty(s) then [] else if s.node.removable then [DeletedEmptyDir(s.dir)] else [CouldNotDelete(s.dir)])
    ensures PrunedPaths(steps[..i + 1]) == PrunedPaths(steps[..i]) + (if PrunedStep(steps[i]) then [steps[i].dir] else [])
  {
    assert steps[..i + 1][..i] == steps[..i];
  }

  /** The tree after unlinking `paths` one after the other. */
  function UnlinkAll(fs: Node, paths: seq<Path>): Node {
    if paths == [] then fs else Unlink(UnlinkAll(fs, paths[..|paths| - 1]), paths[|paths| - 1])
  }

  /** Unlinking one more path after `paths`. */
  lemma UnlinkAllSnoc(fs: Node, paths: seq<Path>, p: Path)
    ensures UnlinkAll(fs, paths + [p]) == Unlink(UnlinkAll(fs, paths), p)
  {
    assert (paths + [p])[..|paths|] == paths;
  }

  /** The readable directories of a tree whose listing is empty, and of those the ones os.rmdir can remove. */
  function EmptyDirs(n: Node, onlyRemovable: bool): nat {
    if Listable(n) then
      EntriesEmptyDirs(n.entries, onlyRemovable) + (if n.entries == [] && (n.removable || !onlyRemovable) then 1 else 0)
    else 0
  }

  function EntriesEmptyDirs(es: seq<Entry>, onlyRemovable: bool): nat {
    if es == [] then 0 else EmptyDirs(es[0].node, onlyRemovable) + EntriesEmptyDirs(es[1..], onlyRemovable)
  }

  lemma PruneAppend(a: seq<Step>, b: seq<Step>)
    ensures PrunedPaths(a + b) == PrunedPaths(a) + PrunedPaths(b)
    ensures PruneLines(a + b) == PruneLines(a) + PruneLines(b)
    decreases |b|
  {
    if b == [] {
      assert a + b == a;
    } else {
      assert (a + b)[..|a + b| - 1] == a + b[..|b| - 1];
      PruneAppend(a, b[..|b| - 1]);
    }
  }

  /**
   * The pass against the tree: it removes exactly the readable directories whose
   * listing was empty and whose os.rmdir succeeds, and logs one line for every
   * readable directory whose listing was empty. A directory that becomes empty
   * only because the pass removed its children is not among them.
   */
  lemma {:induction false} PruneCountsEmptyDirs(n: Node, p: Path)
    ensures |PrunedPaths(BottomUp(n, p))| == EmptyDirs(n, true)
    ensures |PruneLines(BottomUp(n, p))| == EmptyDirs(n, false)
    decreases n, 1
  {
    if Listable(n) {
      var s := Step(p, n);
      PruneAppend(SubdirSteps(n.entries, p), [s]);
      EntriesPruneCounts(n.entries, p);
      assert [s][..0] == [];
      assert PrunedPaths([s]) == if PrunedStep(s) then [p] else [];
    }
  }

  lemma {:induction false} EntriesPruneCounts(es: seq<Entry>, p: Path)
    ensures |PrunedPaths(SubdirSteps(es, p))| == EntriesEmptyDirs(es, true)
    ensures |PruneLines(SubdirSteps(es, p))| == EntriesEmptyDirs(es, false)
    decreases es, 0
  {
    if es != [] {
      PruneCountsEmptyDirs(es[0].node, p + [es[0].name]);
      EntriesPruneCounts(es[1..], p);
      PruneAppend(BottomUp(es[0].node, p + [es[0].name]), SubdirSteps(es[1..], p));
    }
  }

  /** Every directory a walk of the subtrees below `p` yields lies strictly below `p`. */
  lemma {:induction false} SubdirStepsBelow(es: seq<Entry>, p: Path)
    ensures forall s :: s in SubdirSteps(es, p) ==> |s.dir| > |p| && s.dir[..|p|] == p
    decreases es, 0
  {
    if es != [] {
      var q := p + [es[0].name];
      BottomUpBelow(es[0].node, q);
      SubdirStepsBelow(es[1..], p);
      forall s | s in BottomUp(es[0].node, q) ensures |s.dir| > |p| && s.dir[..|p|] == p {
        assert s.dir[..|q|][..|p|] == s.dir[..|p|];
      }
    }
  }

  lemma {:induction false} BottomUpBelow(n: Node, p: Path)
    ensures forall s :: s in BottomUp(n, p) ==> |s.dir| >= |p| && s.dir[..|p|] == p
    decreases n, 1
  {
    if Listable(n) {
      SubdirStepsBelow(n.entries, p);
    }
  }

  lemma PrunedPathsFrom(steps: seq<Step>)
    ensures forall q :: q in PrunedPaths(steps) ==> exists s :: s in steps && PrunedStep(s) && s.dir == q
    decreases |steps|
  {
    if steps != [] {
      PrunedPathsFrom(steps[..|steps| - 1]);
      assert forall s :: s in steps[..|steps| - 1] ==> s in steps;
    }
  }

  /**
   * The directory the pass starts from is removed exactly when its own listing
   * was empty and os.rmdir succeeds: emptying it during the pass does not count.
   */
  lemma RootRemovedIffListedEmpty(n: Node, p: Path)
    ensures p in PrunedPaths(BottomUp(n, p)) <==> Listable(n) && n.entries == [] && n.removable
  {
    if Listable(n) {
      var sub := SubdirSteps(n.entries, p);
      PruneAppend(sub, [Step(p, n)]);
      assert [Step(p, n)][..0] == [];
      SubdirStepsBelow(n.entries, p);
      PrunedPathsFrom(sub);
      assert p !in PrunedPaths(sub);
    }
  }
}
