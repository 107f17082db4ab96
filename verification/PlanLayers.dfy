/**
  Plan parsing and execution layering (packages/agent/src/planLayers.ts).

  Lines arrive already classified.  The source keeps every dependency list sorted and free of
  duplicates, so a dependency list is a set here.
 */
module PlanLayers {
  import opened Collections
  import opened LayerTheory

  datatype PlanLine =
    | Phase
    | TaskRow(number: int, description: string, inlineDeps: set<int>, completed: bool)
    | DependsOn(deps: set<int>)
    | Other

  datatype PlanTask = PlanTask(
    number: int, description: string, phase: int, explicitDeps: set<int>, completed: bool)

  // ---- What a plan text says about a task ----

  /** The number of Phase headings among the first n lines. */
  function PhaseAt(lines: seq<PlanLine>, n: nat): int
    requires n <= |lines|
  {
    if n == 0 then 0
    else PhaseAt(lines, n - 1) + (if lines[n - 1].Phase? then 1 else 0)
  }

  /** The task whose row was read last among the first n lines. */
  function CurrentTask(lines: seq<PlanLine>, n: nat): Option<int>
    requires n <= |lines|
  {
    if n == 0 then None
    else if lines[n - 1].TaskRow? then Some(lines[n - 1].number)
    else CurrentTask(lines, n - 1)
  }

  /** The last of the first n lines that is a row of task k. */
  function LastRow(lines: seq<PlanLine>, k: int, n: nat): (r: Option<nat>)
    requires n <= |lines|
    ensures r.Some? ==> r.value < n && lines[r.value].TaskRow? && lines[r.value].number == k
    ensures r.Some? ==> forall i :: r.value < i < n && lines[i].TaskRow? ==> lines[i].number != k
    ensures r.None? ==> forall i :: 0 <= i < n && lines[i].TaskRow? ==> lines[i].number != k
  {
    if n == 0 then None
    else if lines[n - 1].TaskRow? && lines[n - 1].number == k then Some(n - 1)
    else LastRow(lines, k, n - 1)
  }

  /** Everything the first n lines list as a dependency of task k. */
  function ListedDeps(lines: seq<PlanLine>, k: int, n: nat): set<int>
    requires n <= |lines|
  {
    if n == 0 then {}
    else ListedDeps(lines, k, n - 1) +
         match lines[n - 1]
         case TaskRow(number, _, inline, _) => (if number == k then inline else {})
         case DependsOn(deps) => (if CurrentTask(lines, n - 1) == Some(k) then deps else {})
         case _ => {}
  }

  ghost predicate IsTask(lines: seq<PlanLine>, k: int) {
    LastRow(lines, k, |lines|).Some?
  }

  /** t is what the plan says about task t.number: its last row wins, dependencies accumulate. */
  ghost predicate DescribedBy(t: PlanTask, lines: seq<PlanLine>) {
    var row := LastRow(lines, t.number, |lines|);
    && row.Some?
    && t.description == lines[row.value].description
    && t.completed == lines[row.value].completed
    && t.phase == PhaseAt(lines, row.value)
    && t.explicitDeps ==
       (set d | d in ListedDeps(lines, t.number, |lines|) && d != t.number && IsTask(lines, d))
  }

  // ---- Task lists ----

  ghost predicate DistinctNumbers(tasks: seq<PlanTask>) {
    forall i, j :: 0 <= i < j < |tasks| ==> tasks[i].number != tasks[j].number
  }

  ghost predicate AscendingNumbers(tasks: seq<PlanTask>) {
    forall i, j :: 0 <= i < j < |tasks| ==> tasks[i].number < tasks[j].number
  }

  function Numbers(tasks: seq<PlanTask>): set<int> {
    set t | t in tasks :: t.number
  }

  /** The numbers of the tasks in phases before the given one. */
  function EarlierPhases(tasks: seq<PlanTask>, phase: int): set<int> {
    set t | t in tasks && t.phase < phase :: t.number
  }

  /** Explicit dependencies win; a task without any waits for all earlier phases. */
  function ResolvedDeps(tasks: seq<PlanTask>, t: PlanTask): set<int> {
    if t.explicitDeps != {} then t.explicitDeps else EarlierPhases(tasks, t.phase)
  }

  ghost predicate Resolves(deps: map<int, set<int>>, tasks: seq<PlanTask>) {
    && deps.Keys == Numbers(tasks)
    && forall t :: t in tasks ==> t.number in deps && deps[t.number] == ResolvedDeps(tasks, t)
  }

  // ---- parsePlanTasks ----

  /** One table entry agrees with the first n lines. */
  ghost predicate EntryAgrees(t: PlanTask, k: int, lines: seq<PlanLine>, n: nat)
    requires n <= |lines|
  {
    var row := LastRow(lines, k, n);
    && t.number == k
    && row.Some?
    && t.description == lines[row.value].description
    && t.completed == lines[row.value].completed
    && t.phase == PhaseAt(lines, row.value)
    && t.explicitDeps == ListedDeps(lines, k, n)
  }

  ghost predicate TableAgrees(table: map<int, PlanTask>, lines: seq<PlanLine>, n: nat)
    requires n <= |lines|
  {
    && (forall k :: k in table <==> LastRow(lines, k, n).Some?)
    && (forall k :: k in table ==> EntryAgrees(table[k], k, lines, n))
  }

  lemma {:induction false} NothingListedBeforeFirstRow(lines: seq<PlanLine>, k: int, n: nat)
    requires n <= |lines|
    requires LastRow(lines, k, n).None?
    ensures ListedDeps(lines, k, n) == {}
    ensures CurrentTask(lines, n) != Some(k)
  {
    if n != 0 {
      NothingListedBeforeFirstRow(lines, k, n - 1);
    }
  }

  lemma {:induction false} CurrentTaskHasRow(lines: seq<PlanLine>, n: nat)
    requires n <= |lines|
    requires CurrentTask(lines, n).Some?
    ensures LastRow(lines, CurrentTask(lines, n).value, n).Some?
  {
    if !lines[n - 1].TaskRow? {
      CurrentTaskHasRow(lines, n - 1);
    }
  }

  /** The table entry that a task row leaves behind. */
  function RowEntry(table: map<int, PlanTask>, row: PlanLine, phase: int): PlanTask
    requires row.TaskRow?
  {
    var known := if row.number in table then table[row.number].explicitDeps else {};
    PlanTask(row.number, row.description, phase, row.inlineDeps + known, row.completed)
  }

  lemma RowEntryAgrees(table: map<int, PlanTask>, lines: seq<PlanLine>, n: nat)
    requires n < |lines| && lines[n].TaskRow?
    requires TableAgrees(table, lines, n)
    ensures EntryAgrees(RowEntry(table, lines[n], PhaseAt(lines, n)), lines[n].number, lines, n + 1)
  {
    var k := lines[n].number;
    if k in table {
      assert EntryAgrees(table[k], k, lines, n);
    } else {
      NothingListedBeforeFirstRow(lines, k, n);
    }
  }

  lemma OtherEntryAgrees(t: PlanTask, lines: seq<PlanLine>, n: nat, j: int)
    requires n < |lines| && lines[n].TaskRow? && lines[n].number != j
    requires EntryAgrees(t, j, lines, n)
    ensures EntryAgrees(t, j, lines, n + 1)
  {
  }

  lemma AfterTaskRow(table: map<int, PlanTask>, lines: seq<PlanLine>, n: nat)
    requires n < |lines| && lines[n].TaskRow?
    requires TableAgrees(table, lines, n)
    ensures TableAgrees(
              table[lines[n].number := RowEntry(table, lines[n], PhaseAt(lines, n))], lines, n + 1)
  {
    var k := lines[n].number;
    RowEntryAgrees(table, lines, n);
    forall j | j in table && j != k
      ensures EntryAgrees(table[j], j, lines, n + 1)
    {
      hide EntryAgrees;
      OtherEntryAgrees(table[j], lines, n, j);
    }
  }

  /** The table entry that a dependency line leaves behind. */
  function WithDeps(t: PlanTask, deps: set<int>): PlanTask {
    t.(explicitDeps := t.explicitDeps + deps)
  }

  lemma DependsOnEntryAgrees(t: PlanTask, lines: seq<PlanLine>, n: nat, j: int)
    requires n < |lines| && lines[n].DependsOn?
    requires EntryAgrees(t, j, lines, n)
    ensures CurrentTask(lines, n) == Some(j) ==> EntryAgrees(WithDeps(t, lines[n].deps), j, lines, n + 1)
    ensures CurrentTask(lines, n) != Some(j) ==> EntryAgrees(t, j, lines, n + 1)
  {
  }

  lemma AfterDependsOn(table: map<int, PlanTask>, lines: seq<PlanLine>, n: nat, k: int)
    requires n < |lines| && lines[n].DependsOn?
    requires TableAgrees(table, lines, n)
    requires CurrentTask(lines, n) == Some(k)
    ensures k in table && TableAgrees(table[k := WithDeps(table[k], lines[n].deps)], lines, n + 1)
  {
    CurrentTaskHasRow(lines, n);
    var after := table[k := WithDeps(table[k], lines[n].deps)];
    forall j | j in after
      ensures EntryAgrees(after[j], j, lines, n + 1)
    {
      hide EntryAgrees;
      DependsOnEntryAgrees(table[j], lines, n, j);
    }
  }

  lemma AfterOtherLine(table: map<int, PlanTask>, lines: seq<PlanLine>, n: nat)
    requires n < |lines| && !lines[n].TaskRow?
    requires lines[n].DependsOn? ==> CurrentTask(lines, n).None?
    requires TableAgrees(table, lines, n)
    ensures TableAgrees(table, lines, n + 1)
  {
    forall j | j in table
      ensures EntryAgrees(table[j], j, lines, n + 1)
    {
      assert EntryAgrees(table[j], j, lines, n);
    }
  }

  /** What has been read of the first n lines: the table, the phase of each row, and where the reading is. */
  ghost predicate HasRead(table: map<int, PlanTask>, phaseOrder: seq<int>, phase: int, task: Option<int>,
                          lines: seq<PlanLine>, n: nat)
    requires n <= |lines|
  {
    && TableAgrees(table, lines, n)
    && phase == PhaseAt(lines, n) >= 0
    && task == CurrentTask(lines, n)
    && (forall k :: k in table ==> table[k].phase in phaseOrder)
    && (forall p :: p in phaseOrder ==> p >= 0)
  }

  lemma ReadTaskRow(table: map<int, PlanTask>, phaseOrder: seq<int>, phase: int, task: Option<int>,
                    lines: seq<PlanLine>, n: nat)
    requires n < |lines| && lines[n].TaskRow?
    requires HasRead(table, phaseOrder, phase, task, lines, n)
    ensures var k := lines[n].number;
      HasRead(table[k := RowEntry(table, lines[n], phase)], phaseOrder + [phase], phase, Some(k), lines, n + 1)
  {
    hide TableAgrees;
    AfterTaskRow(table, lines, n);
  }

  lemma ReadDependsOn(table: map<int, PlanTask>, phaseOrder: seq<int>, phase: int, k: int,
                      lines: seq<PlanLine>, n: nat)
    requires n < |lines| && lines[n].DependsOn?
    requires HasRead(table, phaseOrder, phase, Some(k), lines, n)
    ensures k in table
    ensures HasRead(table[k := WithDeps(table[k], lines[n].deps)], phaseOrder, phase, Some(k), lines, n + 1)
  {
    hide TableAgrees;
    AfterDependsOn(table, lines, n, k);
  }

  lemma ReadOther(table: map<int, PlanTask>, phaseOrder: seq<int>, phase: int, task: Option<int>,
                  lines: seq<PlanLine>, n: nat)
    requires n < |lines| && !lines[n].TaskRow?
    requires lines[n].DependsOn? ==> task.None?
    requires HasRead(table, phaseOrder, phase, task, lines, n)
    ensures HasRead(table, phaseOrder, phase + (if lines[n].Phase? then 1 else 0), task, lines, n + 1)
  {
    hide TableAgrees;
    AfterOtherLine(table, lines, n);
  }

  method ReadRows(lines: seq<PlanLine>)
    returns (tasksByNumber: map<int, PlanTask>, phaseOrder: seq<int>)
    ensures TableAgrees(tasksByNumber, lines, |lines|)
    ensures forall k :: k in tasksByNumber ==> tasksByNumber[k].phase in phaseOrder
    ensures forall p :: p in phaseOrder ==> p >= 0
  {
    tasksByNumber, phaseOrder := map[], [];
    var currentPhase := 0;
    var currentTask: Option<int> := None;
    for i := 0 to |lines|
      invariant HasRead(tasksByNumber, phaseOrder, currentPhase, currentTask, lines, i)
    {
      hide HasRead;
      match lines[i] {
        case Phase =>
          ReadOther(tasksByNumber, phaseOrder, currentPhase, currentTask, lines, i);
          currentPhase := currentPhase + 1;
        case TaskRow(number, _, _, _) =>
          ReadTaskRow(tasksByNumber, phaseOrder, currentPhase, currentTask, lines, i);
          tasksByNumber := tasksByNumber[number := RowEntry(tasksByNumber, lines[i], currentPhase)];
          currentTask := Some(number);
          phaseOrder := phaseOrder + [currentPhase];
        case DependsOn(deps) =>
          if currentTask.Some? {
            var k := currentTask.value;
            ReadDependsOn(tasksByNumber, phaseOrder, currentPhase, k, lines, i);
            tasksByNumber := tasksByNumber[k := WithDeps(tasksByNumber[k], deps)];
          } else {
            ReadOther(tasksByNumber, phaseOrder, currentPhase, currentTask, lines, i);
          }
        case Other =>
          ReadOther(tasksByNumber, phaseOrder, currentPhase, currentTask, lines, i);
      }
    }
  }

  /** The final form of one entry: unknown and self dependencies go, phases only count if there are any. */
  function NormalizedTask(table: map<int, PlanTask>, k: int, hasPhases: bool): PlanTask
    requires k in table
  {
    var task := table[k];
    task.(phase := if hasPhases then task.phase else 0,
          explicitDeps := set d | d in task.explicitDeps && d != k && d in table)
  }

  lemma NormalizedEntry(table: map<int, PlanTask>, lines: seq<PlanLine>, k: int, hasPhases: bool)
    requires TableAgrees(table, lines, |lines|)
    requires k in table
    requires !hasPhases ==> table[k].phase == 0
    ensures DescribedBy(NormalizedTask(table, k, hasPhases), lines)
    ensures NormalizedTask(table, k, hasPhases).number == k
  {
    assert EntryAgrees(table[k], k, lines, |lines|);
  }

  /** The normalized tasks of the given numbers, in that order. */
  function NormalizedTasks(table: map<int, PlanTask>, numbers: seq<int>, hasPhases: bool): (tasks: seq<PlanTask>)
    requires forall k :: k in numbers ==> k in table
  {
    if numbers == [] then []
    else [NormalizedTask(table, numbers[0], hasPhases)] + NormalizedTasks(table, numbers[1..], hasPhases)
  }

  lemma {:induction false} NormalizedMembers(table: map<int, PlanTask>, numbers: seq<int>, hasPhases: bool)
    requires forall k :: k in numbers ==> k in table && table[k].number == k
    ensures forall t :: t in NormalizedTasks(table, numbers, hasPhases) <==>
              exists k :: k in numbers && t == NormalizedTask(table, k, hasPhases)
    ensures Ascending(numbers) ==> AscendingNumbers(NormalizedTasks(table, numbers, hasPhases))
  {
    if numbers != [] {
      var rest := NormalizedTasks(table, numbers[1..], hasPhases);
      NormalizedMembers(table, numbers[1..], hasPhases);
      if Ascending(numbers) {
        forall t | t in rest
          ensures numbers[0] < t.number
        {
          var k :| k in numbers[1..] && t == NormalizedTask(table, k, hasPhases);
        }
      }
    }
  }

  lemma NormalizedDescribe(table: map<int, PlanTask>, lines: seq<PlanLine>, numbers: seq<int>, hasPhases: bool)
    requires TableAgrees(table, lines, |lines|)
    requires forall k :: k in numbers <==> k in table
    requires Ascending(numbers)
    requires !hasPhases ==> forall k :: k in table ==> table[k].phase == 0
    ensures AscendingNumbers(NormalizedTasks(table, numbers, hasPhases))
    ensures forall t :: t in NormalizedTasks(table, numbers, hasPhases) ==> DescribedBy(t, lines)
    ensures forall k :: k in Numbers(NormalizedTasks(table, numbers, hasPhases)) <==> IsTask(lines, k)
  {
    forall k | k in table
      ensures table[k].number == k
    {
      assert EntryAgrees(table[k], k, lines, |lines|);
    }
    NormalizedMembers(table, numbers, hasPhases);
    forall k | k in table
      ensures DescribedBy(NormalizedTask(table, k, hasPhases), lines)
      ensures NormalizedTask(table, k, hasPhases) in NormalizedTasks(table, numbers, hasPhases)
    {
      NormalizedEntry(table, lines, k, hasPhases);
    }
  }

  method ParsePlanTasks(lines: seq<PlanLine>) returns (tasks: seq<PlanTask>)
    ensures AscendingNumbers(tasks)
    ensures forall t :: t in tasks ==> DescribedBy(t, lines)
    ensures forall k :: k in Numbers(tasks) <==> IsTask(lines, k)
  {
    var tasksByNumber, phaseOrder := ReadRows(lines);
    var hasPhases := exists p :: p in phaseOrder && p > 0;
    forall k | !hasPhases && k in tasksByNumber
      ensures tasksByNumber[k].phase == 0
    {
      assert tasksByNumber[k].phase in phaseOrder;
    }
    var numbers := SortedSeq(tasksByNumber.Keys);
    NormalizedDescribe(tasksByNumber, lines, numbers, hasPhases);
    tasks := NormalizedTasks(tasksByNumber, numbers, hasPhases);
  }

  // ---- buildResolvedDependencies ----

  /** The numbers of the tasks of one phase. */
  function PhaseNumbers(tasks: seq<PlanTask>, phase: int): set<int> {
    set t | t in tasks && t.phase == phase :: t.number
  }

  ghost predicate Grouped(byPhase: map<int, seq<int>>, tasks: seq<PlanTask>) {
    && byPhase.Keys == Phases(tasks)
    && forall p :: p in byPhase ==> Elements(byPhase[p]) == PhaseNumbers(tasks, p)
  }

  function Phases(tasks: seq<PlanTask>): set<int> {
    set t | t in tasks :: t.phase
  }

  lemma OneMoreGrouped(byPhase: map<int, seq<int>>, tasks: seq<PlanTask>, t: PlanTask)
    requires Grouped(byPhase, tasks)
    ensures var list := if t.phase in byPhase then byPhase[t.phase] else [];
            Grouped(byPhase[t.phase := list + [t.number]], tasks + [t])
  {
    var list := if t.phase in byPhase then byPhase[t.phase] else [];
    assert Elements(list + [t.number]) == Elements(list) + {t.number};
    assert Elements(list) == PhaseNumbers(tasks, t.phase);
    assert t in tasks + [t];
    forall p
      ensures PhaseNumbers(tasks + [t], p) ==
              PhaseNumbers(tasks, p) + (if p == t.phase then {t.number} else {})
    {
    }
  }

  method GroupByPhase(tasks: seq<PlanTask>) returns (byPhase: map<int, seq<int>>)
    ensures Grouped(byPhase, tasks)
  {
    byPhase := map[];
    for i := 0 to |tasks|
      invariant Grouped(byPhase, tasks[..i])
    {
      var list := if tasks[i].phase in byPhase then byPhase[tasks[i].phase] else [];
      OneMoreGrouped(byPhase, tasks[..i], tasks[i]);
      assert tasks[..i + 1] == tasks[..i] + [tasks[i]];
      byPhase := byPhase[tasks[i].phase := list + [tasks[i].number]];
    }
    assert tasks[..|tasks|] == tasks;
  }

  method FindTask(tasks: seq<PlanTask>, k: int) returns (r: Option<PlanTask>)
    ensures r.Some? ==> r.value in tasks && r.value.number == k
    ensures r.None? ==> k !in Numbers(tasks)
  {
    for i := 0 to |tasks|
      invariant forall j :: 0 <= j < i ==> tasks[j].number != k
    {
      if tasks[i].number == k {
        return Some(tasks[i]);
      }
    }
    return None;
  }

  lemma SameNumberSameTask(tasks: seq<PlanTask>, t: PlanTask, u: PlanTask)
    requires DistinctNumbers(tasks)
    requires t in tasks && u in tasks && t.number == u.number
    ensures t == u
  {
  }

  /** The entries made so far are right, and exist for exactly the listed numbers. */
  ghost predicate ResolvesSome(deps: map<int, set<int>>, tasks: seq<PlanTask>, done: set<int>) {
    && deps.Keys == done
    && forall t :: t in tasks && t.number in done ==> deps[t.number] == ResolvedDeps(tasks, t)
  }

  method ResolvePhase(tasks: seq<PlanTask>, phase: int, taskNumbers: seq<int>, prior: set<int>,
                      deps: map<int, set<int>>)
    returns (result: map<int, set<int>>)
    requires DistinctNumbers(tasks)
    requires Elements(taskNumbers) == PhaseNumbers(tasks, phase)
    requires prior == EarlierPhases(tasks, phase)
    requires ResolvesSome(deps, tasks, prior)
    ensures ResolvesSome(result, tasks, prior + PhaseNumbers(tasks, phase))
  {
    result := deps;
    for i := 0 to |taskNumbers|
      invariant ResolvesSome(result, tasks, prior + Elements(taskNumbers[..i]))
    {
      var k := taskNumbers[i];
      assert Elements(taskNumbers[..i + 1]) == Elements(taskNumbers[..i]) + {k};
      assert k in PhaseNumbers(tasks, phase);
      ghost var owner :| owner in tasks && owner.phase == phase && owner.number == k;
      var task := FindTask(tasks, k);
      assert owner.number in Numbers(tasks);
      SameNumberSameTask(tasks, task.value, owner);
      if task.value.explicitDeps != {} {
        result := result[k := task.value.explicitDeps];
      } else {
        result := result[k := prior];
      }
      forall t | t in tasks && t.number == k
        ensures t == owner
      {
        SameNumberSameTask(tasks, t, owner);
      }
    }
    assert taskNumbers[..|taskNumbers|] == taskNumbers;
  }

  /** What has been resolved when the i-th of the phases is about to be. */
  function ResolvedBefore(tasks: seq<PlanTask>, phases: seq<int>, i: nat): set<int>
    requires i <= |phases|
  {
    if i < |phases| then EarlierPhases(tasks, phases[i]) else Numbers(tasks)
  }

  lemma ResolvedStep(tasks: seq<PlanTask>, phases: seq<int>, i: nat)
    requires Ascending(phases)
    requires forall p :: p in Phases(tasks) ==> p in phases
    requires i < |phases|
    ensures ResolvedBefore(tasks, phases, i) + PhaseNumbers(tasks, phases[i]) ==
            ResolvedBefore(tasks, phases, i + 1)
  {
    forall t | t in tasks
      ensures exists j :: 0 <= j < |phases| && phases[j] == t.phase
    {
      assert t.phase in Phases(tasks);
    }
  }

  lemma NothingBeforeFirstPhase(tasks: seq<PlanTask>, phases: seq<int>)
    requires Ascending(phases)
    requires forall p :: p in Phases(tasks) ==> p in phases
    ensures ResolvedBefore(tasks, phases, 0) == {}
  {
    forall t | t in tasks
      ensures phases != [] && phases[0] <= t.phase
    {
      assert t.phase in Phases(tasks);
    }
  }

  method BuildResolvedDependencies(tasks: seq<PlanTask>) returns (deps: map<int, set<int>>)
    requires DistinctNumbers(tasks)
    ensures Resolves(deps, tasks)
  {
    var byPhase := GroupByPhase(tasks);
    var sortedPhases := SortedSeq(byPhase.Keys);
    deps := map[];
    var priorPhasesTasks: set<int> := {};
    NothingBeforeFirstPhase(tasks, sortedPhases);
    for i := 0 to |sortedPhases|
      invariant priorPhasesTasks == ResolvedBefore(tasks, sortedPhases, i)
      invariant ResolvesSome(deps, tasks, priorPhasesTasks)
    {
      var phase := sortedPhases[i];
      assert phase in byPhase;
      var taskNumbers := byPhase[phase];
      deps := ResolvePhase(tasks, phase, taskNumbers, priorPhasesTasks, deps);
      ResolvedStep(tasks, sortedPhases, i);
      priorPhasesTasks := priorPhasesTasks + Elements(taskNumbers);
    }
  }

  /** The first task with number k. */
  function TaskNumbered(tasks: seq<PlanTask>, k: int): (t: PlanTask)
    requires k in Numbers(tasks)
    ensures t in tasks && t.number == k
  {
    if tasks[0].number == k then tasks[0] else TaskNumbered(tasks[1..], k)
  }

  /** The resolved relation as a value. */
  ghost function DependencyRelation(tasks: seq<PlanTask>): Relation
    requires DistinctNumbers(tasks)
  {
    map k | k in Numbers(tasks) :: ResolvedDeps(tasks, TaskNumbered(tasks, k))
  }

  lemma RelationAt(tasks: seq<PlanTask>, t: PlanTask)
    requires DistinctNumbers(tasks)
    requires t in tasks
    ensures t.number in Numbers(tasks)
    ensures DepsOf(DependencyRelation(tasks), t.number) == ResolvedDeps(tasks, t)
  {
    SameNumberSameTask(tasks, TaskNumbered(tasks, t.number), t);
  }

  lemma ResolvesUniquely(deps: map<int, set<int>>, tasks: seq<PlanTask>)
    requires DistinctNumbers(tasks)
    requires Resolves(deps, tasks)
    ensures deps == DependencyRelation(tasks)
  {
    forall k | k in deps
      ensures deps[k] == DependencyRelation(tasks)[k]
    {
      var t := TaskNumbered(tasks, k);
    }
  }

  // ---- computeExecutionLayers ----

  ghost function SortedLayers(layers: seq<set<int>>): seq<seq<int>> {
    if layers == [] then [] else [SortedSeq(layers[0])] + SortedLayers(layers[1..])
  }

  /** The layers of a task list: ready tasks first, each layer in ascending order. */
  ghost function ExecutionLayers(tasks: seq<PlanTask>): seq<seq<int>>
    requires DistinctNumbers(tasks)
  {
    SortedLayers(Drain(DependencyRelation(tasks), Numbers(tasks)))
  }

  method CollectReady(deps: map<int, set<int>>, remaining: set<int>) returns (ready: set<int>)
    ensures ready == Ready(deps, remaining)
  {
    ready := {};
    var unseen := remaining;
    while unseen != {}
      invariant unseen <= remaining
      invariant ready == Ready(deps, remaining) - unseen
    {
      ghost var some := AnyElement(unseen);
      var k :| k in unseen;
      if DepsOf(deps, k) * remaining == {} {
        ready := ready + {k};
      }
      unseen := unseen - {k};
    }
  }

  lemma SortedCons(layer: set<int>, rest: seq<set<int>>)
    ensures SortedLayers([layer] + rest) == [SortedSeq(layer)] + SortedLayers(rest)
  {
    assert ([layer] + rest)[1..] == rest;
  }

  lemma OneMoreLayer(deps: Relation, remaining: set<int>)
    requires remaining != {}
    ensures var layer := NextLayer(deps, remaining);
            SortedLayers(Drain(deps, remaining)) ==
            [SortedSeq(layer)] + SortedLayers(Drain(deps, remaining - layer))
  {
    hide SortedLayers, SortedSeq, NextLayer;
    var layer := NextLayer(deps, remaining);
    SortedCons(layer, Drain(deps, remaining - layer));
  }

  lemma Append(a: seq<seq<int>>, b: seq<seq<int>>, c: seq<seq<int>>)
    ensures a + (b + c) == a + b + c
  {
  }

  /** What the loop has listed, followed by what it would list of the rest, stays the same. */
  lemma ListedStaysListed(deps: Relation, remaining: set<int>, layers: seq<seq<int>>, all: seq<seq<int>>)
    requires remaining != {}
    requires all == layers + SortedLayers(Drain(deps, remaining))
    ensures var layer := NextLayer(deps, remaining);
            all == layers + [SortedSeq(layer)] + SortedLayers(Drain(deps, remaining - layer))
  {
    hide *;
    OneMoreLayer(deps, remaining);
    var layer := NextLayer(deps, remaining);
    var rest := SortedLayers(Drain(deps, remaining - layer));
    Append(layers, [SortedSeq(layer)], rest);
  }

  lemma SingletonSorted(k: int)
    ensures SortedSeq({k}) == [k]
  {
    assert Least({k}) == k;
    assert {k} - {k} == {};
  }

  /** One iteration of the layering loop. */
  method TakeLayer(deps: map<int, set<int>>, remaining: set<int>) returns (layer: seq<int>, rest: set<int>)
    requires remaining != {}
    ensures layer == SortedSeq(NextLayer(deps, remaining))
    ensures rest == remaining - NextLayer(deps, remaining) < remaining
  {
    var ready := CollectReady(deps, remaining);
    if ready == {} {
      var fallback := Least(remaining);
      SingletonSorted(fallback);
      return [fallback], remaining - {fallback};
    }
    return SortedSeq(ready), remaining - ready;
  }

  method ComputeExecutionLayers(tasks: seq<PlanTask>) returns (layers: seq<seq<int>>)
    requires DistinctNumbers(tasks)
    ensures layers == ExecutionLayers(tasks)
  {
    var deps := BuildResolvedDependencies(tasks);
    ResolvesUniquely(deps, tasks);
    layers := DrainLayers(deps, Numbers(tasks));
  }

  method DrainLayers(deps: map<int, set<int>>, numbers: set<int>) returns (layers: seq<seq<int>>)
    ensures layers == SortedLayers(Drain(deps, numbers))
  {
    var remaining := numbers;
    layers := [];
    ghost var all := SortedLayers(Drain(deps, numbers));
    while remaining != {}
      invariant all == layers + SortedLayers(Drain(deps, remaining))
      decreases remaining
    {
      hide *;
      ListedStaysListed(deps, remaining, layers, all);
      var layer, rest := TakeLayer(deps, remaining);
      layers := layers + [layer];
      remaining := rest;
    }
  }
}
