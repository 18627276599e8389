/** Option, used for lookups that may find nothing and for the '' fallback of an unset environment variable. */
module Basics {
  datatype Option<T> = None | Some(value: T)

  /** Moving the next element of `s` from the part still to go to the part done. */
  lemma MoveNext<T>(done: seq<T>, s: seq<T>, j: nat)
    requires j < |s|
    ensures done + s[j..] == (done + [s[j]]) + s[j + 1..]
  {
    assert s[j..] == [s[j]] + s[j + 1..];
  }

  /** A prefix of a prefix. */
  lemma TakeTake<T>(s: seq<T>, n: nat, m: nat)
    requires m <= n <= |s|
    ensures s[..n][..m] == s[..m]
  {
  }

  /** The suffix from `k` of a sequence is the suffix from `k` of all but its last element, then that element. */
  lemma DropInit<T>(s: seq<T>, k: nat)
    requires k < |s|
    ensures s[k..] == s[..|s| - 1][k..] + [s[|s| - 1]]
  {
  }

  /** Concatenation regrouped. */
  lemma Regroup<T>(a: seq<T>, b: seq<T>, c: seq<T>)
    ensures a + b + c == a + (b + c)
  {
  }
}

/**
 * An in-memory filesystem: the part of the operating system the cleanup engine
 * looks at and changes. A directory lists its entries in the order the operating
 * system returns them; entries are treated as distinct objects by position.
 */
module FileTree {
  import opened Basics

  /** An absolute path, as the sequence of its components below the filesystem root. */
  type Path = seq<string>

  /**
   * What stat() of an entry does: succeed, raise PermissionError or FileNotFoundError
   * (the two exceptions the size loops catch), or raise some other OSError.
   */
  datatype Access = Readable | Denied | Faulty

  /** The stat() result of an entry. */
  datatype Meta = Meta(size: nat, mtime: int, access: Access)

  /**
   * A file or a directory. `removable` says whether os.remove (for a file) or
   * os.rmdir (for an empty directory) succeeds; `listable` whether os.listdir does.
   */
  datatype Node =
    | File(meta: Meta, removable: bool)
    | Dir(meta: Meta, entries: seq<Entry>, listable: bool, removable: bool)

  datatype Entry = Entry(name: string, node: Node)

  /** A file as a walk reports it: its full path and its stat() result. */
  datatype Located = Located(path: Path, meta: Meta)

  /** A directory as a bottom-up os.walk yields it; its listing is `node.entries`, taken when it was scanned. */
  datatype Step = Step(dir: Path, node: Node)

  /** Position of the first entry called `name`, or |es| when there is none. */
  function IndexOf(es: seq<Entry>, name: string): (k: nat)
    ensures k <= |es|
    ensures k < |es| ==> es[k].name == name
  {
    if es == [] then 0
    else if es[0].name == name then 0
    else 1 + IndexOf(es[1..], name)
  }

  /** No entry before the one IndexOf finds has that name. */
  lemma {:induction false} IndexOfFirst(es: seq<Entry>, name: string)
    ensures forall i :: 0 <= i < IndexOf(es, name) ==> es[i].name != name
  {
    if es != [] && es[0].name != name {
      IndexOfFirst(es[1..], name);
    }
  }

  /** The node at path `p` below `n`, following the first entry of each name. */
  function Resolve(n: Node, p: Path): Option<Node>
    decreases p
  {
    if p == [] then Some(n)
    else if !n.Dir? then None
    else
      var k := IndexOf(n.entries, p[0]);
      if k == |n.entries| then None else Resolve(n.entries[k].node, p[1..])
  }

  /** os.path.exists: the path resolves and stat() of it succeeds. */
  predicate Exists(n: Node, p: Path) {
    var r := Resolve(n, p);
    r.Some? && r.value.meta.access == Readable
  }

  /** os.path.exists for a root that may be the empty string (an unset variable): '' never exists. */
  predicate RootExists(n: Node, r: Option<Path>) {
    r.Some? && Exists(n, r.value)
  }

  /** os.listdir succeeds on `n`: it is a readable directory. */
  predicate Listable(n: Node) {
    n.Dir? && n.listable
  }

  /** os.path.isdir: stat() succeeds and reports a directory. */
  predicate IsDir(n: Node) {
    n.Dir? && n.meta.access == Readable
  }

  /** The tree with the node at `p` replaced by `m`; unchanged when `p` does not resolve. */
  function Replace(n: Node, p: Path, m: Node): Node
    decreases p
  {
    if p == [] then m
    else if !n.Dir? then n
    else
      var k := IndexOf(n.entries, p[0]);
      if k == |n.entries| then n
      else n.(entries := n.entries[k := Entry(p[0], Replace(n.entries[k].node, p[1..], m))])
  }

  lemma {:induction false} ResolveReplace(n: Node, p: Path, m: Node)
    requires Resolve(n, p).Some?
    ensures Resolve(Replace(n, p, m), p) == Some(m)
    decreases p
  {
    if p != [] {
      var k := IndexOf(n.entries, p[0]);
      ResolveReplace(n.entries[k].node, p[1..], m);
      var r := Replace(n, p, m);
      assert r.entries[k] == Entry(p[0], Replace(n.entries[k].node, p[1..], m));
      assert forall i :: 0 <= i < k ==> r.entries[i] == n.entries[i];
      IndexOfFirst(n.entries, p[0]);
      IndexOfFirst(r.entries, p[0]);
      assert IndexOf(r.entries, p[0]) == k;
    }
  }

  /** Neither path lies below the other: they part at some component. */
  predicate Apart(p: Path, q: Path) {
    p != [] && q != [] && (p[0] != q[0] || Apart(p[1..], q[1..]))
  }

  /** Paths that part below a common directory stay apart under any prefix. */
  lemma {:induction false} ApartUnder(h: Path, p: Path, q: Path)
    requires Apart(p, q)
    ensures Apart(h + p, h + q)
    decreases |h|
  {
    if h != [] {
      assert (h + p)[1..] == h[1..] + p;
      assert (h + q)[1..] == h[1..] + q;
      ApartUnder(h[1..], p, q);
    } else {
      assert h + p == p && h + q == q;
    }
  }

  /** Two listings with the same names in the same order find a name at the same position. */
  lemma {:induction false} IndexOfSameNames(es: seq<Entry>, fs: seq<Entry>, name: string)
    requires |es| == |fs| && forall i :: 0 <= i < |es| ==> es[i].name == fs[i].name
    ensures IndexOf(es, name) == IndexOf(fs, name)
    decreases |es|
  {
    if es != [] {
      IndexOfSameNames(es[1..], fs[1..], name);
    }
  }

  /** Replacing the node at `p` leaves what a path apart from `p` resolves to. */
  lemma {:induction false} ResolveReplaceApart(n: Node, p: Path, q: Path, m: Node)
    requires Resolve(n, p).Some? && Apart(p, q)
    ensures Resolve(Replace(n, p, m), q) == Resolve(n, q)
    decreases p
  {
    var k := IndexOf(n.entries, p[0]);
    var r := Replace(n, p, m);
    assert r.entries == n.entries[k := Entry(p[0], Replace(n.entries[k].node, p[1..], m))];
    IndexOfSameNames(r.entries, n.entries, q[0]);
    if q[0] == p[0] {
      ResolveReplaceApart(n.entries[k].node, p[1..], q[1..], m);
    }
  }

  lemma {:induction false} ReplaceTwice(n: Node, p: Path, a: Node, b: Node)
    requires Resolve(n, p).Some?
    ensures Replace(Replace(n, p, a), p, b) == Replace(n, p, b)
    decreases p
  {
    if p != [] {
      var k := IndexOf(n.entries, p[0]);
      ReplaceTwice(n.entries[k].node, p[1..], a, b);
      var r := Replace(n, p, a);
      assert r.entries[k] == Entry(p[0], Replace(n.entries[k].node, p[1..], a));
      assert forall i :: 0 <= i < k ==> r.entries[i] == n.entries[i];
      IndexOfFirst(n.entries, p[0]);
      IndexOfFirst(r.entries, p[0]);
      assert IndexOf(r.entries, p[0]) == k;
      assert r.entries[k].node == Replace(n.entries[k].node, p[1..], a);
    }
  }

  lemma {:induction false} ReplaceSame(n: Node, p: Path)
    requires Resolve(n, p).Some?
    ensures Replace(n, p, Resolve(n, p).value) == n
    decreases p
  {
    if p != [] {
      var k := IndexOf(n.entries, p[0]);
      ReplaceSame(n.entries[k].node, p[1..]);
      assert Entry(p[0], n.entries[k].node) == n.entries[k];
      assert n.entries[k := n.entries[k]] == n.entries;
    }
  }

  /**
   * The tree after the entry at `p` has been unlinked from its parent directory
   * (os.rmdir once it has succeeded); unchanged when `p` is the root or does not resolve.
   */
  function Unlink(n: Node, p: Path): Node {
    if p == [] then n
    else
      var parent := p[..|p| - 1];
      match Resolve(n, parent)
      case None => n
      case Some(d) =>
        if !d.Dir? then n
        else
          var k := IndexOf(d.entries, p[|p| - 1]);
          if k == |d.entries| then n
          else Replace(n, parent, d.(entries := d.entries[..k] + d.entries[k + 1..]))
  }

  /** The non-directory entries of a listing, as os.walk's `filenames`, located under `p`. */
  function FilesOf(p: Path, es: seq<Entry>): (r: seq<Located>)
    ensures |r| <= |es|
  {
    if es == [] then []
    else (if es[0].node.Dir? then [] else [Located(p + [es[0].name], es[0].node.meta)]) + FilesOf(p, es[1..])
  }

  /**
   * The files a top-down os.walk(p) reports, in the order a loop over its
   * (dirpath, dirnames, filenames) triples meets them: a directory's own files,
   * then each subdirectory in listing order. A directory os.listdir cannot read
   * is skipped silently, as os.walk does without an error handler.
   */
  function WalkFiles(n: Node, p: Path): seq<Located> {
    if Listable(n) then FilesOf(p, n.entries) + SubdirFiles(n.entries, p) else []
  }

  function SubdirFiles(es: seq<Entry>, p: Path): seq<Located> {
    if es == [] then [] else WalkFiles(es[0].node, p + [es[0].name]) + SubdirFiles(es[1..], p)
  }

  /** The files of a walk over the tree at `p`, if that path resolves; os.walk of a missing path yields nothing. */
  function WalkAt(fs: Node, p: Path): seq<Located> {
    match Resolve(fs, p)
    case None => []
    case Some(n) => WalkFiles(n, p)
  }

  /**
   * The directories a bottom-up os.walk(p) yields: every readable directory after
   * all of its subdirectories. Each step carries the listing taken when the
   * directory was scanned, which happens before its subdirectories are visited.
   */
  function BottomUp(n: Node, p: Path): seq<Step> {
    if Listable(n) then SubdirSteps(n.entries, p) + [Step(p, n)] else []
  }

  function SubdirSteps(es: seq<Entry>, p: Path): seq<Step> {
    if es == [] then [] else BottomUp(es[0].node, p + [es[0].name]) + SubdirSteps(es[1..], p)
  }

  /** Every step of a bottom-up walk is a readable directory. */
  lemma {:induction false} BottomUpListable(n: Node, p: Path)
    ensures forall s :: s in BottomUp(n, p) ==> Listable(s.node)
    decreases n
  {
    if Listable(n) {
      SubdirStepsListable(n.entries, p);
    }
  }

  lemma {:induction false} SubdirStepsListable(es: seq<Entry>, p: Path)
    ensures forall s :: s in SubdirSteps(es, p) ==> Listable(s.node)
    decreases es
  {
    if es != [] {
      BottomUpListable(es[0].node, p + [es[0].name]);
      SubdirStepsListable(es[1..], p);
    }
  }
}
