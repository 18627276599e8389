/**
 * The two pieces of the application window the engine depends on: the
 * ordering of the selected tasks and the refusal to start a cleanup with
 * nothing selected; and the unit convert_bytes picks for a byte count.
 */
module App {
  import opened Basics

  // ---- convert_bytes ----

  /** size_name: the unit names, from bytes up to yottabytes. */
  const UnitNames: seq<string> := ["B", "KB", "MB", "GB", "TB", "PB", "EB", "ZB", "YB"]

  /** 1024 to the power i: the number of bytes in one unit of index i. */
  function Pow1024(i: nat): (r: nat)
    ensures r >= 1
  {
    if i == 0 then 1 else 1024 * Pow1024(i - 1)
  }

  /** The value convert_bytes' loop holds after dividing by 1024 i times, rounded down. */
  function Scaled(n: nat, i: nat): nat {
    if i == 0 then n else Scaled(n, i - 1) / 1024
  }

  /** After i divisions the value is at least m exactly when the count holds m units of index i. */
  lemma {:induction false} ScaledAtLeast(n: nat, i: nat, m: nat)
    ensures Scaled(n, i) >= m <==> n >= m * Pow1024(i)
    decreases i
  {
    if i > 0 {
      ScaledAtLeast(n, i - 1, 1024 * m);
    }
  }

  /**
   * The index into UnitNames that convert_bytes' loop reaches: it divides by
   * 1024 while the value is at least 1024 and a larger unit is left. The unit
   * is the largest one not exceeding the count (bytes for 0), capped at YB.
   */
  method UnitIndex(n: nat) returns (i: nat)
    ensures i < |UnitNames|
    ensures i > 0 ==> Pow1024(i) <= n
    ensures i < |UnitNames| - 1 ==> n < Pow1024(i + 1)
  {
    var x := n;
    i := 0;
    while x >= 1024 && i < |UnitNames| - 1
      invariant i < |UnitNames|
      invariant x == Scaled(n, i)
      invariant i > 0 ==> Pow1024(i) <= n
    {
      ScaledAtLeast(n, i, 1024);
      x := x / 1024;
      i := i + 1;
    }
    ScaledAtLeast(n, i, 1024);
  }

  /** Only one unit index meets UnitIndex's postcondition, so it is the one the loop finds. */
  lemma UnitIndexUnique(n: nat, i: nat, j: nat)
    requires i < |UnitNames| && (i > 0 ==> Pow1024(i) <= n) && (i < |UnitNames| - 1 ==> n < Pow1024(i + 1))
    requires j < |UnitNames| && (j > 0 ==> Pow1024(j) <= n) && (j < |UnitNames| - 1 ==> n < Pow1024(j + 1))
    ensures i == j
  {
    if i < j {
      PowMonotone(i + 1, j);
    } else if j < i {
      PowMonotone(j + 1, i);
    }
  }

  lemma {:induction false} PowMonotone(a: nat, b: nat)
    requires a <= b
    ensures Pow1024(a) <= Pow1024(b)
    decreases b - a
  {
    if a < b {
      PowMonotone(a, b - 1);
    }
  }

  // ---- get_selected_tasks ----

  /** The seven check boxes, top to bottom. */
  datatype Selection = Selection(
    temp: bool, trash: bool, cache: bool, prefetch: bool,
    defrag: bool, largeOld: bool, emptyDirs: bool)

  /** The task names in the order get_selected_tasks tests their boxes. */
  const TaskOrder: seq<string> :=
    ["clean_temp_files", "empty_trash", "clean_caches", "clean_prefetch",
     "defragment_disk", "find_large_old_files", "remove_empty_dirs"]

  /** Whether the box of the k-th task of TaskOrder is ticked. */
  predicate Checked(s: Selection, k: nat) {
    if k == 0 then s.temp
    else if k == 1 then s.trash
    else if k == 2 then s.cache
    else if k == 3 then s.prefetch
    else if k == 4 then s.defrag
    else if k == 5 then s.largeOld
    else if k == 6 then s.emptyDirs
    else false
  }

  /** The position of a task name in TaskOrder, or |TaskOrder| for a name not in it. */
  function Rank(t: string): nat {
    if t == "clean_temp_files" then 0
    else if t == "empty_trash" then 1
    else if t == "clean_caches" then 2
    else if t == "clean_prefetch" then 3
    else if t == "defragment_disk" then 4
    else if t == "find_large_old_files" then 5
    else if t == "remove_empty_dirs" then 6
    else 7
  }

  lemma RankOfOrder(k: nat)
    requires k < |TaskOrder|
    ensures Rank(TaskOrder[k]) == k
  {
  }

  /** The ticked tasks among the first k of TaskOrder, in that order. */
  function Chosen(s: Selection, k: nat): seq<string>
    requires k <= |TaskOrder|
  {
    if k == 0 then []
    else Chosen(s, k - 1) + (if Checked(s, k - 1) then [TaskOrder[k - 1]] else [])
  }

  /** get_selected_tasks: one append per ticked box, tested in the canonical order. */
  method SelectedTasks(s: Selection) returns (tasks: seq<string>)
    ensures tasks == Chosen(s, |TaskOrder|)
  {
    tasks := [];
    if s.temp { tasks := tasks + ["clean_temp_files"]; }
    assert tasks == Chosen(s, 1);
    if s.trash { tasks := tasks + ["empty_trash"]; }
    assert tasks == Chosen(s, 2);
    if s.cache { tasks := tasks + ["clean_caches"]; }
    assert tasks == Chosen(s, 3);
    if s.prefetch { tasks := tasks + ["clean_prefetch"]; }
    assert tasks == Chosen(s, 4);
    if s.defrag { tasks := tasks + ["defragment_disk"]; }
    assert tasks == Chosen(s, 5);
    if s.largeOld { tasks := tasks + ["find_large_old_files"]; }
    assert tasks == Chosen(s, 6);
    if s.emptyDirs { tasks := tasks + ["remove_empty_dirs"]; }
  }

  /** The chosen tasks come in canonical order, each from the first k of TaskOrder. */
  lemma {:induction false} ChosenInOrder(s: Selection, k: nat)
    requires k <= |TaskOrder|
    ensures var c := Chosen(s, k);
            |c| <= k &&
            (forall i :: 0 <= i < |c| ==> Rank(c[i]) < k) &&
            (forall i, j :: 0 <= i < j < |c| ==> Rank(c[i]) < Rank(c[j]))
    decreases k
  {
    if k > 0 {
      ChosenInOrder(s, k - 1);
      RankOfOrder(k - 1);
    }
  }

  /** The chosen tasks are exactly the ticked ones among the first k. */
  lemma {:induction false} ChosenTicked(s: Selection, k: nat)
    requires k <= |TaskOrder|
    ensures forall t :: t in Chosen(s, k) <==> exists j :: 0 <= j < k && Checked(s, j) && TaskOrder[j] == t
    decreases k
  {
    if k > 0 {
      ChosenTicked(s, k - 1);
      var c := Chosen(s, k);
      assert c == Chosen(s, k - 1) + (if Checked(s, k - 1) then [TaskOrder[k - 1]] else []);
      forall t
        ensures t in c <==> exists j :: 0 <= j < k && Checked(s, j) && TaskOrder[j] == t
      {
        if exists j :: 0 <= j < k && Checked(s, j) && TaskOrder[j] == t {
          var j :| 0 <= j < k && Checked(s, j) && TaskOrder[j] == t;
          if j < k - 1 {
            assert t in Chosen(s, k - 1);
          }
        }
      }
    }
  }

  /**
   * What get_selected_tasks promises: every ticked task and nothing else, no
   * task twice, in canonical order, at most seven, only names the worker knows,
   * and nothing exactly when no box is ticked.
   */
  lemma SelectionCanonical(s: Selection, k: nat)
    requires k <= |TaskOrder|
    ensures var c := Chosen(s, k);
            |c| <= k &&
            (forall t :: t in c <==> exists j :: 0 <= j < k && Checked(s, j) && TaskOrder[j] == t) &&
            (forall i, j :: 0 <= i < j < |c| ==> c[i] != c[j] && Rank(c[i]) < Rank(c[j])) &&
            (forall i :: 0 <= i < |c| ==> Rank(c[i]) < k) &&
            (c == [] <==> forall j :: 0 <= j < k ==> !Checked(s, j))
  {
    var c := Chosen(s, k);
    ChosenInOrder(s, k);
    ChosenTicked(s, k);
    if c != [] {
      assert c[0] in c;
    } else {
      forall j | 0 <= j < k
        ensures !Checked(s, j)
      {
        assert TaskOrder[j] !in c;
      }
    }
  }

  // ---- analyze_system and start_cleanup ----

  /**
   * The tasks a button hands to a new worker: analyze_system always starts
   * one, start_cleanup warns and starts nothing when no box is ticked.
   */
  function Launch(s: Selection, analysis: bool): (l: Option<seq<string>>)
    ensures l.None? <==> !analysis && forall j :: 0 <= j < |TaskOrder| ==> !Checked(s, j)
    ensures l.Some? ==> l.value == Chosen(s, |TaskOrder|)
  {
    SelectionCanonical(s, |TaskOrder|);
    var tasks := Chosen(s, |TaskOrder|);
    if !analysis && tasks == [] then None else Some(tasks)
  }
}
