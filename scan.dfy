/**
 * The size accounting of the analysis handlers: guarded totals over the files
 * a walk reports, the unguarded trash total, and the large-and-old filter.
 */
module Scan {
  import opened Basics
  import opened FileTree
  import opened Events

  /** 100 MB as the handlers measure it: st_size / (1024 * 1024) > 100. */
  const LargeBytes: nat := 100 * 1024 * 1024
  /** timedelta(days=30), in seconds. */
  const MaxAge: nat := 30 * 24 * 60 * 60

  /**
   * The large-and-old test: strictly over 100 MB, and modified strictly before
   * `now` minus 30 days.
   */
  predicate LargeOld(m: Meta, now: int) {
    m.size > LargeBytes && m.mtime < now - MaxAge
  }

  /** Which files a guarded total keeps: every file, or the large and old ones. */
  datatype Filter = AnyFile | LargeAndOld(now: int)

  predicate Selected(f: Filter, m: Meta) {
    match f
    case AnyFile => true
    case LargeAndOld(now) => LargeOld(m, now)
  }

  /**
   * What one file adds to a guarded total: nothing when its stat raises
   * PermissionError or FileNotFoundError or when the filter drops it.
   */
  function Contribution(f: Filter, m: Meta): nat {
    if m.access == Readable && Selected(f, m) then m.size else 0
  }

  /** The guarded total of a sequence of files. */
  function Total(files: seq<Located>, f: Filter): nat {
    if files == [] then 0
    else Total(files[..|files| - 1], f) + Contribution(f, files[|files| - 1].meta)
  }

  /** Position of the first file whose stat raises an unguarded OSError, or |files|. */
  function FirstFaulty(files: seq<Located>): (k: nat)
    ensures k <= |files|
    ensures k < |files| ==> files[k].meta.access == Faulty
  {
    if files == [] then 0
    else if files[0].meta.access == Faulty then 0
    else 1 + FirstFaulty(files[1..])
  }

  /** No file before the first faulty one is faulty. */
  lemma {:induction false} FirstFaultyBefore(files: seq<Located>)
    ensures forall i :: 0 <= i < FirstFaulty(files) ==> files[i].meta.access != Faulty
  {
    if files != [] && files[0].meta.access != Faulty {
      FirstFaultyBefore(files[1..]);
    }
  }

  /** A faulty file that a scan reaches without passing the first faulty one is the first faulty one. */
  lemma FirstFaultyAt(files: seq<Located>, i: nat)
    requires i < |files| && i <= FirstFaulty(files) && files[i].meta.access == Faulty
    ensures FirstFaulty(files) == i
  {
    FirstFaultyBefore(files);
  }

  /** Being faulty or past the end, with nothing faulty before it, determines FirstFaulty. */
  lemma {:induction false} FirstFaultyIs(files: seq<Located>, k: nat)
    requires k <= |files|
    requires k < |files| ==> files[k].meta.access == Faulty
    requires forall i :: 0 <= i < k ==> files[i].meta.access != Faulty
    ensures FirstFaulty(files) == k
  {
    if files != [] && k > 0 {
      assert files[0].meta.access != Faulty;
      assert forall i :: 0 <= i < k - 1 ==> files[1..][i] == files[i + 1];
      FirstFaultyIs(files[1..], k - 1);
    }
  }

  /**
   * A loop of the form `try: total += getsize(f) except (PermissionError,
   * FileNotFoundError): continue` over `files`: the first unguarded failure
   * escapes, otherwise the guarded total comes back.
   */
  function GuardedSum(files: seq<Located>, f: Filter): Outcome {
    var k := FirstFaulty(files);
    if k < |files| then Raised(StatFailed(files[k].path)) else Returned(Some(Total(files, f)))
  }

  /** The size loop itself, over the files of a walk or a listing. */
  method SumFiles(files: seq<Located>, f: Filter) returns (o: Outcome)
    ensures o == GuardedSum(files, f)
  {
    var total := 0;
    var i: nat := 0;
    while i < |files|
      invariant 0 <= i <= |files|
      invariant forall j :: 0 <= j < i ==> files[j].meta.access != Faulty
      invariant total == Total(files[..i], f)
    {
      var m := files[i].meta;
      if m.access == Faulty {
        FirstFaultyIs(files, i);
        return Raised(StatFailed(files[i].path));
      }
      if m.access == Readable && Selected(f, m) {
        total := total + m.size;
      }
      assert files[..i + 1][..i] == files[..i];
      i := i + 1;
    }
    assert files[..i] == files;
    FirstFaultyIs(files, i);
    o := Returned(Some(total));
  }

  lemma {:induction false} TotalAppend(a: seq<Located>, b: seq<Located>, f: Filter)
    ensures Total(a + b, f) == Total(a, f) + Total(b, f)
    decreases |b|
  {
    if b == [] {
      assert a + b == a;
    } else {
      var b' := b[..|b| - 1];
      assert (a + b)[..|a + b| - 1] == a + b';
      TotalAppend(a, b', f);
    }
  }

  /** Running two loops one after the other: the first escaping failure wins, otherwise the totals add. */
  function Then(x: Outcome, y: Outcome): Outcome {
    match x
    case Raised(_) => x
    case Returned(a) =>
      match y
      case Raised(_) => y
      case Returned(b) => Returned(Some((if a.Some? then a.value else 0) + (if b.Some? then b.value else 0)))
  }

  lemma FirstFaultyAppend(a: seq<Located>, b: seq<Located>)
    ensures FirstFaulty(a + b) == if FirstFaulty(a) < |a| then FirstFaulty(a) else |a| + FirstFaulty(b)
  {
    var ka, kb := FirstFaulty(a), FirstFaulty(b);
    FirstFaultyBefore(a);
    FirstFaultyBefore(b);
    if ka < |a| {
      FirstFaultyIs(a + b, ka);
    } else {
      FirstFaultyIs(a + b, |a| + kb);
    }
  }

  lemma GuardedSumAppend(a: seq<Located>, b: seq<Located>, f: Filter)
    ensures GuardedSum(a + b, f) == Then(GuardedSum(a, f), GuardedSum(b, f))
  {
    FirstFaultyAppend(a, b);
    if FirstFaulty(a) < |a| {
      GuardedSumAppendFirst(a, b, f);
    } else if FirstFaulty(b) < |b| {
      GuardedSumAppendSecond(a, b, f);
    } else {
      TotalAppend(a, b, f);
    }
  }

  lemma GuardedSumAppendFirst(a: seq<Located>, b: seq<Located>, f: Filter)
    requires FirstFaulty(a) < |a| && FirstFaulty(a + b) == FirstFaulty(a)
    ensures GuardedSum(a + b, f) == GuardedSum(a, f)
  {
    assert (a + b)[FirstFaulty(a)] == a[FirstFaulty(a)];
  }

  lemma GuardedSumAppendSecond(a: seq<Located>, b: seq<Located>, f: Filter)
    requires FirstFaulty(a) == |a| && FirstFaulty(b) < |b| && FirstFaulty(a + b) == |a| + FirstFaulty(b)
    ensures GuardedSum(a + b, f) == GuardedSum(b, f)
  {
    assert (a + b)[|a| + FirstFaulty(b)] == b[FirstFaulty(b)];
  }

  /** The outcome of a guarded sum from whether it meets an unguarded failure and the total it would reach. */
  predicate SumsTo(o: Outcome, faulty: bool, total: nat) {
    o.Raised? == faulty && (!faulty ==> o == Returned(Some(total)))
  }

  lemma GuardedSumSingle(x: Located, f: Filter)
    ensures SumsTo(GuardedSum([x], f), x.meta.access == Faulty, Contribution(f, x.meta))
  {
    assert [x][..0] == [];
    assert Total([x], f) == Total([], f) + Contribution(f, x.meta);
    if x.meta.access != Faulty { FirstFaultyIs([x], 1); } else { FirstFaultyIs([x], 0); }
  }

  lemma ThenSums(x: Outcome, y: Outcome, fx: bool, tx: nat, fy: bool, ty: nat)
    requires SumsTo(x, fx, tx) && SumsTo(y, fy, ty)
    ensures SumsTo(Then(x, y), fx || fy, tx + ty)
  {
  }

  /** What stat() of a file contributes to temp and cache analysis. */
  function Bytes(m: Meta): nat {
    if m.access == Readable then m.size else 0
  }

  /**
   * The bytes of every file reachable from `n` through directories os.listdir
   * can read, counting a file whose stat raises as zero: the files of a
   * directory plus the bytes of each of its subdirectories.
   */
  function TreeBytes(n: Node): nat {
    if Listable(n) then FileBytes(n.entries) + SubdirBytes(n.entries) else 0
  }

  function FileBytes(es: seq<Entry>): nat {
    if es == [] then 0 else (if es[0].node.Dir? then 0 else Bytes(es[0].node.meta)) + FileBytes(es[1..])
  }

  function SubdirBytes(es: seq<Entry>): nat {
    if es == [] then 0 else TreeBytes(es[0].node) + SubdirBytes(es[1..])
  }

  /** Some file reachable from `n` through readable directories has a stat that raises an unguarded OSError. */
  predicate TreeFaulty(n: Node) {
    Listable(n) && (FilesFaulty(n.entries) || SubdirsFaulty(n.entries))
  }

  predicate FilesFaulty(es: seq<Entry>) {
    es != [] && ((!es[0].node.Dir? && es[0].node.meta.access == Faulty) || FilesFaulty(es[1..]))
  }

  predicate SubdirsFaulty(es: seq<Entry>) {
    es != [] && (TreeFaulty(es[0].node) || SubdirsFaulty(es[1..]))
  }

  /**
   * The guarded sum over a walk of the tree, against the tree itself: it raises
   * exactly when some reachable file's stat raises an unguarded OSError, and
   * otherwise returns the bytes of every reachable readable file.
   */
  lemma {:induction false} WalkSumIsTreeBytes(n: Node, p: Path)
    ensures GuardedSum(WalkFiles(n, p), AnyFile).Raised? <==> TreeFaulty(n)
    ensures !TreeFaulty(n) ==> GuardedSum(WalkFiles(n, p), AnyFile) == Returned(Some(TreeBytes(n)))
    decreases n, 1
  {
    if Listable(n) {
      var es := n.entries;
      GuardedSumAppend(FilesOf(p, es), SubdirFiles(es, p), AnyFile);
      FilesOfSum(p, es);
      SubdirFilesSum(es, p);
      ThenSums(GuardedSum(FilesOf(p, es), AnyFile), GuardedSum(SubdirFiles(es, p), AnyFile),
               FilesFaulty(es), FileBytes(es), SubdirsFaulty(es), SubdirBytes(es));
    } else {
      assert WalkFiles(n, p) == [];
      FirstFaultyIs([], 0);
    }
  }

  lemma {:induction false} FilesOfSum(p: Path, es: seq<Entry>)
    ensures SumsTo(GuardedSum(FilesOf(p, es), AnyFile), FilesFaulty(es), FileBytes(es))
    decreases es
  {
    if es == [] {
      FirstFaultyIs([], 0);
    } else {
      var e := es[0];
      FilesOfSum(p, es[1..]);
      if e.node.Dir? {
        assert FilesOf(p, es) == FilesOf(p, es[1..]);
      } else {
        var x := Located(p + [e.name], e.node.meta);
        assert FilesOf(p, es) == [x] + FilesOf(p, es[1..]);
        GuardedSumAppend([x], FilesOf(p, es[1..]), AnyFile);
        GuardedSumSingle(x, AnyFile);
        ThenSums(GuardedSum([x], AnyFile), GuardedSum(FilesOf(p, es[1..]), AnyFile),
                 e.node.meta.access == Faulty, Bytes(e.node.meta), FilesFaulty(es[1..]), FileBytes(es[1..]));
      }
    }
  }

  lemma {:induction false} SubdirFilesSum(es: seq<Entry>, p: Path)
    ensures SumsTo(GuardedSum(SubdirFiles(es, p), AnyFile), SubdirsFaulty(es), SubdirBytes(es))
    decreases es, 0
  {
    if es == [] {
      FirstFaultyIs([], 0);
    } else {
      var e := es[0];
      WalkSumIsTreeBytes(e.node, p + [e.name]);
      SubdirFilesSum(es[1..], p);
      GuardedSumAppend(WalkFiles(e.node, p + [e.name]), SubdirFiles(es[1..], p), AnyFile);
      ThenSums(GuardedSum(WalkFiles(e.node, p + [e.name]), AnyFile), GuardedSum(SubdirFiles(es[1..], p), AnyFile),
               TreeFaulty(e.node), TreeBytes(e.node), SubdirsFaulty(es[1..]), SubdirBytes(es[1..]));
    }
  }

  // ---- Trash analysis: no per-file guard ----

  /** Position of the first file whose size lookup raises anything at all, or |files|. */
  function FirstUnreadable(files: seq<Located>): (k: nat)
    ensures k <= |files|
    ensures k < |files| ==> files[k].meta.access != Readable
    ensures forall i :: 0 <= i < k ==> files[i].meta.access == Readable
  {
    if files == [] then 0
    else if files[0].meta.access != Readable then 0
    else 1 + FirstUnreadable(files[1..])
  }

  /** The plain sum of the sizes of `files`. */
  function SizeSum(files: seq<Located>): nat {
    if files == [] then 0 else SizeSum(files[..|files| - 1]) + files[|files| - 1].meta.size
  }

  /**
   * An unguarded `total_size += getsize(f)` loop inside one try: the total of
   * the files before the first failing lookup, and that failure.
   */
  method TrashSum(files: seq<Located>) returns (total: nat, fault: Option<Fault>)
    ensures var k := FirstUnreadable(files);
            total == SizeSum(files[..k]) &&
            fault == (if k < |files| then Some(StatFailed(files[k].path)) else None)
  {
    total := 0;
    var i: nat := 0;
    while i < |files|
      invariant 0 <= i <= |files|
      invariant forall j :: 0 <= j < i ==> files[j].meta.access == Readable
      invariant total == SizeSum(files[..i])
    {
      if files[i].meta.access != Readable {
        return total, Some(StatFailed(files[i].path));
      }
      total := total + files[i].meta.size;
      assert files[..i + 1][..i] == files[..i];
      i := i + 1;
    }
    assert files[..i] == files;
    fault := None;
  }

  /**
   * The trash total against the guarded total temp and cache analysis compute:
   * never more, and the same when no lookup fails.
   */
  lemma {:induction false} TrashTotalBounded(files: seq<Located>)
    ensures SizeSum(files[..FirstUnreadable(files)]) <= Total(files, AnyFile)
    ensures FirstUnreadable(files) == |files| ==> SizeSum(files) == Total(files, AnyFile)
    decreases |files|
  {
    var k := FirstUnreadable(files);
    if files != [] {
      var init := files[..|files| - 1];
      if k == |files| {
        assert forall i :: 0 <= i < |init| ==> init[i] == files[i];
        assert FirstUnreadable(init) == |init|;
        TrashTotalBounded(init);
        assert files[..k] == files;
        assert init[..|init|] == init;
      } else {
        var k' := FirstUnreadable(init);
        assert k' == if k < |init| then k else |init| by {
          assert forall i :: 0 <= i < |init| ==> init[i] == files[i];
        }
        TrashTotalBounded(init);
        assert files[..k] == init[..k'];
      }
    }
  }

  // ---- Large and old files ----

  /**
   * The files find_large_old_files reports by a "Found:" line: those whose stat
   * succeeds and that are large and old, in walk order.
   */
  function Matches(files: seq<Located>, now: int): seq<Located> {
    if files == [] then []
    else
      var last := files[|files| - 1];
      Matches(files[..|files| - 1], now) + (if last.meta.access == Readable && LargeOld(last.meta, now) then [last] else [])
  }

  /** One more file adds itself to the matches exactly when it is readable, large and old. */
  lemma MatchesNext(files: seq<Located>, i: nat, now: int)
    requires i < |files|
    ensures Matches(files[..i + 1], now) ==
              Matches(files[..i], now) + (if files[i].meta.access == Readable && LargeOld(files[i].meta, now) then [files[i]] else [])
  {
    assert files[..i + 1][..i] == files[..i];
  }

  /**
   * The reporting handler and the analysis handler agree: the matches are
   * exactly large, old and readable, and their sizes add up to the
   * large-and-old guarded total.
   */
  lemma MatchesAgreeWithTotal(files: seq<Located>, now: int)
    ensures forall m :: m in Matches(files, now) ==> m in files && m.meta.access == Readable && LargeOld(m.meta, now)
    ensures SizeSum(Matches(files, now)) == Total(files, LargeAndOld(now))
  {
    MatchesSound(files, now);
    MatchesSizeSum(files, now);
  }

  lemma {:induction false} MatchesSound(files: seq<Located>, now: int)
    ensures forall m :: m in Matches(files, now) ==> m in files && m.meta.access == Readable && LargeOld(m.meta, now)
    decreases |files|
  {
    if files != [] {
      var init := files[..|files| - 1];
      MatchesSound(init, now);
      assert forall m :: m in init ==> m in files;
    }
  }

  lemma {:induction false} MatchesSizeSum(files: seq<Located>, now: int)
    ensures SizeSum(Matches(files, now)) == Total(files, LargeAndOld(now))
    decreases |files|
  {
    if files != [] {
      var init := files[..|files| - 1];
      var last := files[|files| - 1];
      MatchesSizeSum(init, now);
      var tail: seq<Located> := if last.meta.access == Readable && LargeOld(last.meta, now) then [last] else [];
      SizeSumAppend(Matches(init, now), tail);
      if tail != [] { assert tail[..0] == []; }
    }
  }

  lemma {:induction false} SizeSumAppend(a: seq<Located>, b: seq<Located>)
    ensures SizeSum(a + b) == SizeSum(a) + SizeSum(b)
    decreases |b|
  {
    if b == [] {
      assert a + b == a;
    } else {
      assert (a + b)[..|a + b| - 1] == a + b[..|b| - 1];
      SizeSumAppend(a, b[..|b| - 1]);
    }
  }

  // ---- Prefetch ----

  /** The entries of a listing named *.pf, each with its stat() result (getsize also sizes a directory). */
  function PfFiles(p: Path, es: seq<Entry>): (r: seq<Located>)
    ensures forall x :: x in r ==> |x.path| == |p| + 1 && x.path[..|p|] == p && IsPfName(x.path[|p|])
    ensures |r| <= |es|
  {
    if es == [] then []
    else
      var x := Located(p + [es[0].name], es[0].node.meta);
      assert x.path[..|p|] == p && x.path[|p|] == es[0].name;
      (if IsPfName(es[0].name) then [x] else []) + PfFiles(p, es[1..])
  }

  /** Every *.pf entry of the listing is sized, under its own path. */
  lemma {:induction false} PfFilesComplete(p: Path, es: seq<Entry>)
    ensures forall e :: e in es && IsPfName(e.name) ==> Located(p + [e.name], e.node.meta) in PfFiles(p, es)
    decreases |es|
  {
    if es != [] {
      PfFilesComplete(p, es[1..]);
      forall e | e in es && IsPfName(e.name)
        ensures Located(p + [e.name], e.node.meta) in PfFiles(p, es)
      {
        if e != es[0] {
          assert e in es[1..];
        }
      }
    }
  }

  /** The bytes of the readable *.pf entries of a listing. */
  function PfBytes(es: seq<Entry>): nat {
    if es == [] then 0
    else (if IsPfName(es[0].name) && es[0].node.meta.access == Readable then es[0].node.meta.size else 0) + PfBytes(es[1..])
  }

  /** Some *.pf entry of the listing has a stat() that raises an uncaught OSError. */
  predicate PfFaulty(es: seq<Entry>) {
    exists e :: e in es && IsPfName(e.name) && e.node.meta.access == Faulty
  }

  lemma PfFaultySplit(es: seq<Entry>)
    requires es != []
    ensures PfFaulty(es) <==> (IsPfName(es[0].name) && es[0].node.meta.access == Faulty) || PfFaulty(es[1..])
  {
    if PfFaulty(es) {
      var e :| e in es && IsPfName(e.name) && e.node.meta.access == Faulty;
      if e != es[0] {
        assert e in es[1..];
      }
    }
    if PfFaulty(es[1..]) {
      var e :| e in es[1..] && IsPfName(e.name) && e.node.meta.access == Faulty;
      assert e in es;
    }
  }

  /**
   * The size loop over the *.pf entries raises exactly when one of them is
   * faulty, and otherwise returns the bytes of the readable ones.
   */
  lemma {:induction false} PfSum(p: Path, es: seq<Entry>)
    ensures SumsTo(GuardedSum(PfFiles(p, es), AnyFile), PfFaulty(es), PfBytes(es))
    decreases |es|
  {
    if es == [] {
      assert GuardedSum([], AnyFile) == Returned(Some(0));
    } else {
      var x := Located(p + [es[0].name], es[0].node.meta);
      var head := if IsPfName(es[0].name) then [x] else [];
      var rest := PfFiles(p, es[1..]);
      assert PfFiles(p, es) == head + rest;
      GuardedSumAppend(head, rest, AnyFile);
      PfSum(p, es[1..]);
      PfFaultySplit(es);
      if IsPfName(es[0].name) {
        GuardedSumSingle(x, AnyFile);
        ThenSums(GuardedSum(head, AnyFile), GuardedSum(rest, AnyFile),
                 x.meta.access == Faulty, Contribution(AnyFile, x.meta), PfFaulty(es[1..]), PfBytes(es[1..]));
      } else {
        assert GuardedSum(head, AnyFile) == Returned(Some(0));
        ThenSums(GuardedSum(head, AnyFile), GuardedSum(rest, AnyFile), false, 0, PfFaulty(es[1..]), PfBytes(es[1..]));
      }
    }
  }

  /** item.endswith('.pf'), case-sensitive. */
  predicate IsPfName(name: string) {
    |name| >= 3 && name[|name| - 3..] == ".pf"
  }
}
