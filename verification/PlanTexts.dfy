/**
  What a plan's lines say, without reading them in order (packages/agent/src/planLayers.ts:54-159): the phase of a
  line, the dependencies listed for a task, and the resolved ones.
 */
module PlanTexts {
  import opened Collections
  import opened LayerTheory
  import opened PlanLayers
  import opened PlanProperties

  /** A line's phase is the number of phase headings before it. */
  lemma {:induction false} PhaseIsCount(lines: seq<PlanLine>, n: nat)
    requires n <= |lines|
    ensures PhaseAt(lines, n) == |set i | 0 <= i < n && lines[i].Phase?|
  {
    if n > 0 {
      PhaseIsCount(lines, n - 1);
      var before := set i | 0 <= i < n - 1 && lines[i].Phase?;
      assert (set i | 0 <= i < n && lines[i].Phase?) == before + if lines[n - 1].Phase? then {n - 1} else {};
    }
  }

  /** The i-th line is the last task row before the n-th line, and it is of task k. */
  ghost predicate RowBefore(lines: seq<PlanLine>, n: nat, i: nat, k: int)
    requires n <= |lines|
  {
    && i < n && lines[i].TaskRow? && lines[i].number == k
    && forall j :: i < j < n ==> !lines[j].TaskRow?
  }

  lemma {:induction false} CurrentTaskIff(lines: seq<PlanLine>, n: nat, k: int)
    requires n <= |lines|
    ensures CurrentTask(lines, n) == Some(k) <==> exists i: nat :: RowBefore(lines, n, i, k)
  {
    if n > 0 {
      CurrentTaskIff(lines, n - 1, k);
      if lines[n - 1].TaskRow? {
        if lines[n - 1].number == k {
          assert RowBefore(lines, n, n - 1, k);
        }
      } else {
        var before := n - 1;
        if i: nat :| RowBefore(lines, before, i, k) {
          assert RowBefore(lines, n, i, k);
        }
        if i: nat :| RowBefore(lines, n, i, k) {
          assert RowBefore(lines, n - 1, i, k);
        }
      }
    }
  }

  /** The i-th line lists d for task k: in the task's own row, or as a dependency line below it. */
  ghost predicate Lists(lines: seq<PlanLine>, i: nat, k: int, d: int)
    requires i < |lines|
  {
    match lines[i]
    case TaskRow(number, _, inline, _) => number == k && d in inline
    case DependsOn(deps) => d in deps && exists j: nat :: RowBefore(lines, i, j, k)
    case _ => false
  }

  lemma {:induction false} ListedIff(lines: seq<PlanLine>, k: int, n: nat, d: int)
    requires n <= |lines|
    ensures d in ListedDeps(lines, k, n) <==> exists i :: 0 <= i < n && Lists(lines, i, k, d)
  {
    if n > 0 {
      ListedIff(lines, k, n - 1, d);
      CurrentTaskIff(lines, n - 1, k);
      assert d in ListedDeps(lines, k, n) <==> d in ListedDeps(lines, k, n - 1) || Lists(lines, n - 1, k, d);
    }
  }

  /** The i-th line is the last row of task k. */
  ghost predicate LastRowOf(lines: seq<PlanLine>, i: nat, k: int) {
    && i < |lines| && lines[i].TaskRow? && lines[i].number == k
    && forall j :: i < j < |lines| && lines[j].TaskRow? ==> lines[j].number != k
  }

  ghost predicate HasRow(lines: seq<PlanLine>, k: int) {
    exists i :: 0 <= i < |lines| && lines[i].TaskRow? && lines[i].number == k
  }

  /**
    A parsed task is what the text says: its last row's words, mark and phase, and as dependencies every other task
    with a row that any line lists for it.
   */
  lemma DescribedIff(lines: seq<PlanLine>, t: PlanTask)
    ensures DescribedBy(t, lines) <==>
            exists i: nat :: LastRowOf(lines, i, t.number) &&
              t.description == lines[i].description && t.completed == lines[i].completed &&
              t.phase == |set j | 0 <= j < i && lines[j].Phase?| && ListsAll(lines, t)
  {
    var row := LastRow(lines, t.number, |lines|);
    DependenciesListed(lines, t);
    if row.Some? {
      PhaseIsCount(lines, row.value);
      assert LastRowOf(lines, row.value, t.number);
    }
    forall i: nat | LastRowOf(lines, i, t.number)
      ensures row == Some(i)
    {
    }
  }

  ghost predicate ListsAll(lines: seq<PlanLine>, t: PlanTask) {
    forall d :: d in t.explicitDeps <==> DependsOnTask(lines, t.number, d)
  }

  lemma TaskIffRow(lines: seq<PlanLine>, d: int)
    ensures IsTask(lines, d) <==> HasRow(lines, d)
  {
  }

  ghost predicate IsListed(lines: seq<PlanLine>, k: int, d: int) {
    exists i :: 0 <= i < |lines| && Lists(lines, i, k, d)
  }

  /** The task depends on d: another task with a row, listed for it. */
  ghost predicate DependsOnTask(lines: seq<PlanLine>, k: int, d: int) {
    d != k && HasRow(lines, d) && IsListed(lines, k, d)
  }

  /** The dependencies as they are described. */
  ghost function DescribedDeps(lines: seq<PlanLine>, k: int): set<int> {
    set d | d in ListedDeps(lines, k, |lines|) && d != k && IsTask(lines, d)
  }

  lemma DescribedDepsIff(lines: seq<PlanLine>, k: int, d: int)
    ensures d in DescribedDeps(lines, k) <==> DependsOnTask(lines, k, d)
  {
    hide IsListed, ListedDeps, HasRow, IsTask;
    TaskIffRow(lines, d);
    IsListedIff(lines, k, d);
  }

  lemma DependenciesListed(lines: seq<PlanLine>, t: PlanTask)
    ensures ListsAll(lines, t) <==> t.explicitDeps == DescribedDeps(lines, t.number)
  {
    hide DependsOnTask, DescribedDeps;
    forall d
      ensures d in DescribedDeps(lines, t.number) <==> DependsOnTask(lines, t.number, d)
    {
      DescribedDepsIff(lines, t.number, d);
    }
    if ListsAll(lines, t) {
      assert forall d :: d in t.explicitDeps <==> d in DescribedDeps(lines, t.number);
    }
  }

  lemma IsListedIff(lines: seq<PlanLine>, k: int, d: int)
    ensures IsListed(lines, k, d) <==> d in ListedDeps(lines, k, |lines|)
  {
    ListedIff(lines, k, |lines|, d);
  }

  /** A task waits for its explicit dependencies, and one without any for every task of an earlier phase. */
  lemma WaitsFor(tasks: seq<PlanTask>, t: PlanTask, d: int)
    requires DistinctNumbers(tasks) && t in tasks
    ensures d in DepsOf(DependencyRelation(tasks), t.number) <==>
            d in t.explicitDeps ||
            (t.explicitDeps == {} && exists u :: u in tasks && u.number == d && u.phase < t.phase)
  {
    RelationAt(tasks, t);
  }

  /** The pending tasks are the incomplete ones, waiting for everything but completed tasks. */
  lemma PendingIff(tasks: seq<PlanTask>, u: PlanTask)
    ensures u in PendingTasks(tasks) <==>
            exists t :: t in tasks && !t.completed &&
              u == t.(explicitDeps := set d | d in t.explicitDeps && !exists c :: c in tasks && c.completed && c.number == d)
  {
    PendingMembers(tasks, CompletedNumbers(tasks));
    forall t
      ensures StillWaiting(t, CompletedNumbers(tasks)) ==
              t.(explicitDeps := set d | d in t.explicitDeps && !exists c :: c in tasks && c.completed && c.number == d)
    {
    }
  }
}
