/**
  What the computed layers of a plan, and of its pending part, mean
  (packages/agent/src/planLayers.ts:161-210).
 */
module PlanProperties {
  import opened Collections
  import opened LayerTheory
  import opened PlanLayers

  // ---- Every task exactly once ----

  ghost predicate ListsOnce(s: seq<int>, numbers: set<int>) {
    NoDuplicates(s) && forall k :: k in s <==> k in numbers
  }

  lemma AppendDisjoint(a: seq<int>, b: seq<int>, forA: set<int>, forB: set<int>)
    requires ListsOnce(a, forA) && ListsOnce(b, forB)
    requires forA !! forB
    ensures ListsOnce(a + b, forA + forB)
  {
    forall i, j | 0 <= i < |a| && 0 <= j < |b|
      ensures a[i] != b[j]
    {
      assert a[i] in a && b[j] in b;
    }
  }

  lemma SortedListsOnce(s: set<int>)
    ensures ListsOnce(SortedSeq(s), s)
  {
  }

  lemma ConcatCons(first: seq<int>, rest: seq<seq<int>>)
    ensures Concat([first] + rest) == first + Concat(rest)
  {
    assert ([first] + rest)[1..] == rest;
  }

  lemma PrependLayer(layer: set<int>, later: set<int>, rest: seq<seq<int>>)
    requires ListsOnce(Concat(rest), later)
    requires layer !! later
    ensures ListsOnce(Concat([SortedSeq(layer)] + rest), layer + later)
  {
    ConcatCons(SortedSeq(layer), rest);
    SortedListsOnce(layer);
    AppendDisjoint(SortedSeq(layer), Concat(rest), layer, later);
  }

  /** The layers are pairwise disjoint and make up the pool. */
  ghost predicate Partition(layers: seq<set<int>>, pool: set<int>) {
    if layers == [] then pool == {}
    else layers[0] <= pool && Partition(layers[1..], pool - layers[0])
  }

  lemma {:induction false} DrainIsPartition(deps: Relation, pool: set<int>)
    ensures Partition(Drain(deps, pool), pool)
    decreases pool
  {
    if pool != {} {
      DrainIsPartition(deps, pool - NextLayer(deps, pool));
    }
  }

  lemma {:induction false} LayersListEachOnce(layers: seq<set<int>>, pool: set<int>)
    requires Partition(layers, pool)
    ensures ListsOnce(Concat(SortedLayers(layers)), pool)
  {
    if layers == [] {
      assert Concat(SortedLayers(layers)) == [];
    } else {
      var later := pool - layers[0];
      LayersListEachOnce(layers[1..], later);
      PrependLayer(layers[0], later, SortedLayers(layers[1..]));
      assert layers[0] + later == pool;
    }
  }

  ghost predicate AscendingAndNonEmpty(layer: seq<int>) {
    layer != [] && Ascending(layer)
  }

  lemma SortedIsNonEmpty(s: set<int>)
    requires s != {}
    ensures AscendingAndNonEmpty(SortedSeq(s))
  {
  }

  lemma {:induction false} SortedLayersShape(layers: seq<set<int>>, i: nat)
    requires i < |layers|
    ensures |SortedLayers(layers)| == |layers|
    ensures SortedLayers(layers)[i] == SortedSeq(layers[i])
  {
    if i > 0 {
      SortedLayersShape(layers[1..], i - 1);
    } else if |layers| > 1 {
      SortedLayersShape(layers[1..], 0);
    }
  }

  lemma {:induction false} SortedLayersLength(layers: seq<set<int>>)
    ensures |SortedLayers(layers)| == |layers|
  {
    if layers != [] {
      SortedLayersLength(layers[1..]);
    }
  }

  /** Layering ends with non-empty ascending layers that contain every task exactly once. */
  lemma EveryTaskExactlyOnce(tasks: seq<PlanTask>)
    requires DistinctNumbers(tasks)
    ensures forall i :: 0 <= i < |ExecutionLayers(tasks)| ==> AscendingAndNonEmpty(ExecutionLayers(tasks)[i])
    ensures ListsOnce(Concat(ExecutionLayers(tasks)), Numbers(tasks))
  {
    var deps := DependencyRelation(tasks);
    var layers := Drain(deps, Numbers(tasks));
    DrainPartitions(deps, Numbers(tasks));
    SortedLayersLength(layers);
    forall i | 0 <= i < |layers|
      ensures AscendingAndNonEmpty(ExecutionLayers(tasks)[i])
    {
      SortedLayersShape(layers, i);
      SortedIsNonEmpty(layers[i]);
    }
    DrainIsPartition(deps, Numbers(tasks));
    LayersListEachOnce(layers, Numbers(tasks));
  }

  /** Task k runs in layer i of the computed layers exactly when LayerOf says so. */
  lemma LayerOfIsPosition(tasks: seq<PlanTask>, k: int, i: nat)
    requires DistinctNumbers(tasks)
    requires i < |ExecutionLayers(tasks)|
    ensures k in ExecutionLayers(tasks)[i] <==>
            k in Numbers(tasks) && LayerOf(DependencyRelation(tasks), Numbers(tasks), k) == i
  {
    var deps := DependencyRelation(tasks);
    DrainPartitions(deps, Numbers(tasks));
    SortedLayersLength(Drain(deps, Numbers(tasks)));
    SortedLayersShape(Drain(deps, Numbers(tasks)), i);
  }

  // ---- Without explicit dependencies the layers are the phases ----

  ghost predicate PhaseUsed(tasks: seq<PlanTask>, phase: int) {
    exists t :: t in tasks && t.phase == phase
  }

  /** The numbers of all tasks in the given phases. */
  ghost function NumbersIn(tasks: seq<PlanTask>, phases: seq<int>): set<int> {
    set t | t in tasks && t.phase in phases :: t.number
  }

  lemma ReadyIffFirstPhase(tasks: seq<PlanTask>, phases: seq<int>, t: PlanTask)
    requires DistinctNumbers(tasks)
    requires forall u :: u in tasks ==> u.explicitDeps == {}
    requires phases != [] && Ascending(phases) && PhaseUsed(tasks, phases[0])
    requires t in tasks && t.phase in phases
    ensures t.number in Ready(DependencyRelation(tasks), NumbersIn(tasks, phases)) <==> t.phase == phases[0]
  {
    RelationAt(tasks, t);
    var pool := NumbersIn(tasks, phases);
    var first :| first in tasks && first.phase == phases[0];
    if t.phase == phases[0] {
      forall u | u in tasks && u.phase in phases
        ensures u.phase >= t.phase
      {
      }
      forall k | k in EarlierPhases(tasks, t.phase)
        ensures k !in pool
      {
        var early :| early in tasks && early.phase < t.phase && early.number == k;
        if k in pool {
          var u :| u in tasks && u.phase in phases && u.number == k;
          SameNumberSameTask(tasks, early, u);
        }
      }
    } else {
      assert first.number in EarlierPhases(tasks, t.phase) && first.number in pool;
      assert first.number in EarlierPhases(tasks, t.phase) * pool;
    }
  }

  lemma FirstPhaseIsReady(tasks: seq<PlanTask>, phases: seq<int>)
    requires DistinctNumbers(tasks)
    requires forall t :: t in tasks ==> t.explicitDeps == {}
    requires phases != [] && Ascending(phases)
    requires PhaseUsed(tasks, phases[0])
    ensures NumbersIn(tasks, phases) != {}
    ensures NextLayer(DependencyRelation(tasks), NumbersIn(tasks, phases)) == PhaseNumbers(tasks, phases[0])
    ensures NumbersIn(tasks, phases) - PhaseNumbers(tasks, phases[0]) == NumbersIn(tasks, phases[1..])
  {
    var ready := Ready(DependencyRelation(tasks), NumbersIn(tasks, phases));
    var first :| first in tasks && first.phase == phases[0];
    assert first.number in PhaseNumbers(tasks, phases[0]);
    forall t | t in tasks && t.phase in phases
      ensures t.number in ready <==> t.phase == phases[0]
    {
      ReadyIffFirstPhase(tasks, phases, t);
    }
    assert ready == PhaseNumbers(tasks, phases[0]);
    SplitOffFirstPhase(tasks, phases);
  }

  lemma SplitOffFirstPhase(tasks: seq<PlanTask>, phases: seq<int>)
    requires DistinctNumbers(tasks)
    requires phases != [] && Ascending(phases)
    ensures NumbersIn(tasks, phases) - PhaseNumbers(tasks, phases[0]) == NumbersIn(tasks, phases[1..])
  {
    forall t | t in tasks && t.phase in phases
      ensures t.number in PhaseNumbers(tasks, phases[0]) <==> t.phase == phases[0]
      ensures t.phase == phases[0] <==> t.phase !in phases[1..]
    {
      if t.number in PhaseNumbers(tasks, phases[0]) {
        var u :| u in tasks && u.phase == phases[0] && u.number == t.number;
        SameNumberSameTask(tasks, t, u);
      }
    }
  }

  /** The phases' task numbers, in the order of the phases. */
  ghost function PhaseLayers(tasks: seq<PlanTask>, phases: seq<int>): seq<set<int>> {
    if phases == [] then [] else [PhaseNumbers(tasks, phases[0])] + PhaseLayers(tasks, phases[1..])
  }

  lemma {:induction false} PhasesDrainInOrder(tasks: seq<PlanTask>, phases: seq<int>)
    requires DistinctNumbers(tasks)
    requires forall t :: t in tasks ==> t.explicitDeps == {}
    requires Ascending(phases)
    requires forall p :: p in phases ==> PhaseUsed(tasks, p)
    ensures Drain(DependencyRelation(tasks), NumbersIn(tasks, phases)) == PhaseLayers(tasks, phases)
  {
    if phases == [] {
      assert NumbersIn(tasks, phases) == {};
    } else {
      FirstPhaseIsReady(tasks, phases);
      PhasesDrainInOrder(tasks, phases[1..]);
    }
  }

  /** With no explicit dependency at all, the layers are the phases that have tasks, in ascending order. */
  lemma PhasesAreTheLayers(tasks: seq<PlanTask>)
    requires DistinctNumbers(tasks)
    requires forall t :: t in tasks ==> t.explicitDeps == {}
    ensures ExecutionLayers(tasks) ==
            SortedLayers(PhaseLayers(tasks, SortedSeq(Phases(tasks))))
  {
    var phases := SortedSeq(Phases(tasks));
    assert NumbersIn(tasks, phases) == Numbers(tasks);
    PhasesDrainInOrder(tasks, phases);
  }

  // ---- computePendingPlanLayers ----

  function CompletedNumbers(tasks: seq<PlanTask>): set<int> {
    set t | t in tasks && t.completed :: t.number
  }

  function StillWaiting(t: PlanTask, completed: set<int>): PlanTask {
    t.(explicitDeps := t.explicitDeps - completed)
  }

  /** The incomplete tasks, without their dependencies on completed ones. */
  function Pending(tasks: seq<PlanTask>, completed: set<int>): seq<PlanTask> {
    if tasks == [] then []
    else (if tasks[0].completed then [] else [StillWaiting(tasks[0], completed)]) + Pending(tasks[1..], completed)
  }

  function PendingTasks(tasks: seq<PlanTask>): seq<PlanTask> {
    Pending(tasks, CompletedNumbers(tasks))
  }

  lemma {:induction false} PendingMembers(tasks: seq<PlanTask>, completed: set<int>)
    ensures forall u :: u in Pending(tasks, completed) <==>
              exists t :: t in tasks && !t.completed && u == StillWaiting(t, completed)
    ensures DistinctNumbers(tasks) ==> DistinctNumbers(Pending(tasks, completed))
  {
    if tasks != [] {
      PendingMembers(tasks[1..], completed);
      if DistinctNumbers(tasks) {
        forall u | u in Pending(tasks[1..], completed)
          ensures u.number != tasks[0].number
        {
          var t :| t in tasks[1..] && u == StillWaiting(t, completed);
        }
      }
    }
  }

  method ComputePendingPlanLayers(lines: seq<PlanLine>)
    returns (tasks: seq<PlanTask>, layers: seq<seq<int>>, ghost allTasks: seq<PlanTask>)
    ensures AscendingNumbers(allTasks)
    ensures forall t :: t in allTasks ==> DescribedBy(t, lines)
    ensures forall k :: k in Numbers(allTasks) <==> IsTask(lines, k)
    ensures tasks == PendingTasks(allTasks)
    ensures DistinctNumbers(tasks) && layers == ExecutionLayers(tasks)
  {
    var parsed := ParsePlanTasks(lines);
    allTasks := parsed;
    tasks := PendingTasks(parsed);
    PendingMembers(parsed, CompletedNumbers(parsed));
    layers := ComputeExecutionLayers(tasks);
  }

  /** A pending task all of whose explicit dependencies are completed: it becomes phase-dependent. */
  ghost predicate LostAllDependencies(t: PlanTask, completed: set<int>) {
    !t.completed && t.explicitDeps != {} && t.explicitDeps <= completed
  }

  /** Task n is such a task, and d a pending task of an earlier phase, which n did not depend on before. */
  ghost predicate Gained(tasks: seq<PlanTask>, n: int, d: int) {
    exists t, u :: t in tasks && u in tasks && t.number == n && u.number == d &&
      LostAllDependencies(t, CompletedNumbers(tasks)) && !u.completed && u.phase < t.phase
  }

  ghost predicate GainsPhaseDependency(tasks: seq<PlanTask>) {
    exists n, d :: Gained(tasks, n, d)
  }

  lemma PendingTaskFacts(tasks: seq<PlanTask>, t: PlanTask)
    requires DistinctNumbers(tasks)
    requires t in tasks && !t.completed
    ensures DistinctNumbers(PendingTasks(tasks))
    ensures t.number in Numbers(PendingTasks(tasks)) && t.number !in CompletedNumbers(tasks)
    ensures DepsOf(DependencyRelation(PendingTasks(tasks)), t.number) ==
            ResolvedDeps(PendingTasks(tasks), StillWaiting(t, CompletedNumbers(tasks)))
    ensures DepsOf(DependencyRelation(tasks), t.number) == ResolvedDeps(tasks, t)
  {
    var completed := CompletedNumbers(tasks);
    PendingMembers(tasks, completed);
    var u := StillWaiting(t, completed);
    RelationAt(tasks, t);
    RelationAt(PendingTasks(tasks), u);
    if t.number in completed {
      var c :| c in tasks && c.completed && c.number == t.number;
      SameNumberSameTask(tasks, c, t);
    }
  }

  lemma PendingNumbers(tasks: seq<PlanTask>)
    requires DistinctNumbers(tasks)
    ensures Numbers(PendingTasks(tasks)) == Numbers(tasks) - CompletedNumbers(tasks)
    ensures DistinctNumbers(PendingTasks(tasks))
  {
    PendingMembers(tasks, CompletedNumbers(tasks));
    forall t | t in tasks && !t.completed
      ensures t.number in Numbers(PendingTasks(tasks)) && t.number !in CompletedNumbers(tasks)
    {
      PendingTaskFacts(tasks, t);
    }
  }

  /** The pending layers contain exactly the incomplete tasks, each once. */
  lemma PendingLayersHoldIncompleteTasks(tasks: seq<PlanTask>)
    requires DistinctNumbers(tasks)
    ensures DistinctNumbers(PendingTasks(tasks))
    ensures ListsOnce(Concat(ExecutionLayers(PendingTasks(tasks))), Numbers(tasks) - CompletedNumbers(tasks))
  {
    PendingNumbers(tasks);
    EveryTaskExactlyOnce(PendingTasks(tasks));
  }

  ghost predicate PendingIsSubgraph(tasks: seq<PlanTask>)
    requires DistinctNumbers(tasks)
    requires DistinctNumbers(PendingTasks(tasks))
  {
    Subgraph(DependencyRelation(PendingTasks(tasks)), Numbers(PendingTasks(tasks)),
             DependencyRelation(tasks), Numbers(tasks))
  }

  lemma EarlierPendingAreEarlier(tasks: seq<PlanTask>, phase: int)
    ensures forall k :: k in EarlierPhases(PendingTasks(tasks), phase) ==>
              exists u :: u in tasks && !u.completed && u.phase < phase && u.number == k
  {
    var completed := CompletedNumbers(tasks);
    PendingMembers(tasks, completed);
    forall k | k in EarlierPhases(PendingTasks(tasks), phase)
      ensures exists u :: u in tasks && !u.completed && u.phase < phase && u.number == k
    {
      var v :| v in PendingTasks(tasks) && v.phase < phase && v.number == k;
      var u :| u in tasks && !u.completed && v == StillWaiting(u, completed);
    }
  }

  lemma NotGainedWasThere(tasks: seq<PlanTask>, t: PlanTask, k: int)
    requires DistinctNumbers(tasks)
    requires t in tasks && !t.completed
    requires !Gained(tasks, t.number, k)
    requires k in ResolvedDeps(PendingTasks(tasks), StillWaiting(t, CompletedNumbers(tasks)))
    ensures k in ResolvedDeps(tasks, t)
  {
    var completed := CompletedNumbers(tasks);
    if t.explicitDeps - completed == {} {
      EarlierPendingAreEarlier(tasks, t.phase);
      var u :| u in tasks && !u.completed && u.phase < t.phase && u.number == k;
      assert forall d :: d in t.explicitDeps ==> d in completed || d in t.explicitDeps - completed;
      assert !LostAllDependencies(t, completed);
    }
  }

  /** A dependency of the pending relation that was not gained is one of the full relation. */
  lemma PendingEdge(tasks: seq<PlanTask>, n: int, d: int)
    requires DistinctNumbers(tasks) && DistinctNumbers(PendingTasks(tasks))
    requires n in Numbers(PendingTasks(tasks)) && d in DepsOf(DependencyRelation(PendingTasks(tasks)), n)
    requires !Gained(tasks, n, d)
    ensures d in DepsOf(DependencyRelation(tasks), n)
  {
    PendingMembers(tasks, CompletedNumbers(tasks));
    var t :| t in tasks && !t.completed && t.number == n;
    PendingTaskFacts(tasks, t);
    NotGainedWasThere(tasks, t, d);
  }

  lemma NoGainKeepsSubgraph(tasks: seq<PlanTask>)
    requires DistinctNumbers(tasks)
    requires DistinctNumbers(PendingTasks(tasks))
    requires !GainsPhaseDependency(tasks)
    ensures PendingIsSubgraph(tasks)
  {
    PendingNumbers(tasks);
    var small, large := DependencyRelation(PendingTasks(tasks)), DependencyRelation(tasks);
    forall n, d | n in Numbers(PendingTasks(tasks)) && d in Numbers(PendingTasks(tasks)) && d in DepsOf(small, n)
      ensures d in DepsOf(large, n)
    {
      PendingEdge(tasks, n, d);
    }
  }

  /** A gained dependency is one of the pending relation and not of the full one. */
  lemma GainedIsNew(tasks: seq<PlanTask>, n: int, d: int)
    requires DistinctNumbers(tasks) && DistinctNumbers(PendingTasks(tasks))
    requires Gained(tasks, n, d)
    ensures n in Numbers(PendingTasks(tasks)) && d in Numbers(PendingTasks(tasks))
    ensures d in DepsOf(DependencyRelation(PendingTasks(tasks)), n) && d !in DepsOf(DependencyRelation(tasks), n)
  {
    var completed := CompletedNumbers(tasks);
    var t, u :| t in tasks && u in tasks && t.number == n && u.number == d &&
      LostAllDependencies(t, completed) && !u.completed && u.phase < t.phase;
    PendingTaskFacts(tasks, t);
    PendingTaskFacts(tasks, u);
    PendingMembers(tasks, completed);
    var v := StillWaiting(u, completed);
    assert v in PendingTasks(tasks) && v.number in EarlierPhases(PendingTasks(tasks), t.phase);
    assert StillWaiting(t, completed).explicitDeps == {};
  }

  lemma GainBreaksSubgraph(tasks: seq<PlanTask>)
    requires DistinctNumbers(tasks)
    requires DistinctNumbers(PendingTasks(tasks))
    requires GainsPhaseDependency(tasks)
    ensures !PendingIsSubgraph(tasks)
  {
    var n, d :| Gained(tasks, n, d);
    GainedIsNew(tasks, n, d);
  }

  /** The pending relation stays within the full one exactly when no task gains a phase dependency. */
  lemma PendingSubgraphIff(tasks: seq<PlanTask>)
    requires DistinctNumbers(tasks)
    ensures DistinctNumbers(PendingTasks(tasks))
    ensures PendingIsSubgraph(tasks) <==> !GainsPhaseDependency(tasks)
  {
    PendingNumbers(tasks);
    if GainsPhaseDependency(tasks) {
      GainBreaksSubgraph(tasks);
    } else {
      NoGainKeepsSubgraph(tasks);
    }
  }

  /** Then an acyclic plan stays acyclic, and no task moves to a later layer. */
  lemma PendingNeverLater(tasks: seq<PlanTask>)
    requires DistinctNumbers(tasks)
    requires !GainsPhaseDependency(tasks)
    requires !Cyclic(DependencyRelation(tasks), Numbers(tasks))
    ensures DistinctNumbers(PendingTasks(tasks))
    ensures !Cyclic(DependencyRelation(PendingTasks(tasks)), Numbers(PendingTasks(tasks)))
    ensures forall k :: k in Numbers(PendingTasks(tasks)) ==>
              k in Numbers(tasks) &&
              LayerOf(DependencyRelation(PendingTasks(tasks)), Numbers(PendingTasks(tasks)), k)
              <= LayerOf(DependencyRelation(tasks), Numbers(tasks), k)
  {
    PendingSubgraphIff(tasks);
    SubgraphNoLater(DependencyRelation(PendingTasks(tasks)), Numbers(PendingTasks(tasks)),
                    DependencyRelation(tasks), Numbers(tasks));
  }

  // ---- When pending tasks of an acyclic plan form a cycle ----

  /** Every cycle among the pending tasks of an acyclic plan goes through a gained phase dependency. */
  lemma PendingCycleGains(tasks: seq<PlanTask>, p: seq<int>) returns (i: nat)
    requires DistinctNumbers(tasks) && DistinctNumbers(PendingTasks(tasks))
    requires !Cyclic(DependencyRelation(tasks), Numbers(tasks))
    requires IsCycle(DependencyRelation(PendingTasks(tasks)), Numbers(PendingTasks(tasks)), p)
    ensures i < |p| && Gained(tasks, p[i], NextIn(p, i))
  {
    PendingNumbers(tasks);
    i := CycleLeaves(DependencyRelation(PendingTasks(tasks)), Numbers(PendingTasks(tasks)),
                     DependencyRelation(tasks), Numbers(tasks), p);
    if !Gained(tasks, p[i], NextIn(p, i)) {
      PendingEdge(tasks, p[i], NextIn(p, i));
    }
  }

  /** Some task gains a dependency on one that waits for it, directly or not. */
  ghost predicate GainClosesCycle(tasks: seq<PlanTask>)
    requires DistinctNumbers(PendingTasks(tasks))
  {
    exists n, d :: Gained(tasks, n, d) &&
      Waits(DependencyRelation(PendingTasks(tasks)), Numbers(PendingTasks(tasks)), d, n)
  }

  /** The pending tasks of an acyclic plan form a cycle exactly when a gained phase dependency closes one. */
  lemma PendingCyclicIff(tasks: seq<PlanTask>)
    requires DistinctNumbers(tasks)
    requires !Cyclic(DependencyRelation(tasks), Numbers(tasks))
    ensures DistinctNumbers(PendingTasks(tasks))
    ensures Cyclic(DependencyRelation(PendingTasks(tasks)), Numbers(PendingTasks(tasks))) <==> GainClosesCycle(tasks)
  {
    PendingNumbers(tasks);
    if Cyclic(DependencyRelation(PendingTasks(tasks)), Numbers(PendingTasks(tasks))) {
      var p :| IsCycle(DependencyRelation(PendingTasks(tasks)), Numbers(PendingTasks(tasks)), p);
      CycleMeansGain(tasks, p);
    }
    if GainClosesCycle(tasks) {
      GainMeansCycle(tasks);
    }
  }

  lemma CycleMeansGain(tasks: seq<PlanTask>, p: seq<int>)
    requires DistinctNumbers(tasks) && DistinctNumbers(PendingTasks(tasks))
    requires !Cyclic(DependencyRelation(tasks), Numbers(tasks))
    requires IsCycle(DependencyRelation(PendingTasks(tasks)), Numbers(PendingTasks(tasks)), p)
    ensures GainClosesCycle(tasks)
  {
    var i := PendingCycleGains(tasks, p);
    OpenedCycle(DependencyRelation(PendingTasks(tasks)), Numbers(PendingTasks(tasks)), p, i);
  }

  lemma GainMeansCycle(tasks: seq<PlanTask>)
    requires DistinctNumbers(tasks) && DistinctNumbers(PendingTasks(tasks))
    requires GainClosesCycle(tasks)
    ensures Cyclic(DependencyRelation(PendingTasks(tasks)), Numbers(PendingTasks(tasks)))
  {
    var n, d :| Gained(tasks, n, d) &&
      Waits(DependencyRelation(PendingTasks(tasks)), Numbers(PendingTasks(tasks)), d, n);
    GainedIsNew(tasks, n, d);
    ClosedChain(DependencyRelation(PendingTasks(tasks)), Numbers(PendingTasks(tasks)), d, n);
  }

  /** Task 3 waits for completed task 1 only; once that is done, phase order makes it wait for task 2. */
  ghost predicate IsCycleMaker(tasks: seq<PlanTask>) {
    && |tasks| == 3
    && tasks[0].number == 1 && tasks[0].phase == 0 && tasks[0].explicitDeps == {} && tasks[0].completed
    && tasks[1].number == 2 && tasks[1].phase == 0 && tasks[1].explicitDeps == {3} && !tasks[1].completed
    && tasks[2].number == 3 && tasks[2].phase == 1 && tasks[2].explicitDeps == {1} && !tasks[2].completed
  }

  lemma CycleMakerIsAcyclic(tasks: seq<PlanTask>)
    requires IsCycleMaker(tasks)
    ensures DistinctNumbers(tasks)
    ensures !Cyclic(DependencyRelation(tasks), Numbers(tasks))
  {
    var deps := DependencyRelation(tasks);
    var g: int -> nat := k => if k == 1 then 0 else if k == 3 then 1 else 2;
    assert DepsOf(deps, tasks[0].number) == EarlierPhases(tasks, 0) == {};
    assert DepsOf(deps, tasks[1].number) == {3};
    assert DepsOf(deps, tasks[2].number) == {1};
    forall n, d | n in Numbers(tasks) && d in Numbers(tasks) && d in DepsOf(deps, n)
      ensures g(d) < g(n)
    {
      assert n == 2 || n == 3;
    }
    ValidLayeringExcludesCycles(deps, Numbers(tasks), g);
  }

  lemma CycleMakerPendingIsCyclic(tasks: seq<PlanTask>)
    requires IsCycleMaker(tasks)
    ensures DistinctNumbers(tasks) && DistinctNumbers(PendingTasks(tasks))
    ensures Cyclic(DependencyRelation(PendingTasks(tasks)), Numbers(PendingTasks(tasks)))
  {
    CycleMakerPendingDependencies(tasks);
    var pending := PendingTasks(tasks);
    var p := [2, 3];
    assert IsChain(DependencyRelation(pending), Numbers(pending), p);
    assert IsCycle(DependencyRelation(pending), Numbers(pending), p);
  }

  lemma CycleMakerPendingDependencies(tasks: seq<PlanTask>)
    requires IsCycleMaker(tasks)
    ensures DistinctNumbers(tasks) && DistinctNumbers(PendingTasks(tasks))
    ensures {2, 3} <= Numbers(PendingTasks(tasks))
    ensures 3 in DepsOf(DependencyRelation(PendingTasks(tasks)), 2)
    ensures 2 in DepsOf(DependencyRelation(PendingTasks(tasks)), 3)
  {
    var completed := CompletedNumbers(tasks);
    assert tasks[0] in tasks && 1 in completed && 3 !in completed;
    PendingTaskFacts(tasks, tasks[1]);
    PendingTaskFacts(tasks, tasks[2]);
    PendingMembers(tasks, completed);
    var two := StillWaiting(tasks[1], completed);
    assert two in PendingTasks(tasks) && two.phase < 1;
    assert two.number in EarlierPhases(PendingTasks(tasks), 1);
  }

  /** The condition matters: completing a task can turn an acyclic plan into a cyclic pending plan. */
  lemma CompletionCanCreateCycle() returns (tasks: seq<PlanTask>)
    ensures DistinctNumbers(tasks) && DistinctNumbers(PendingTasks(tasks))
    ensures !Cyclic(DependencyRelation(tasks), Numbers(tasks))
    ensures Cyclic(DependencyRelation(PendingTasks(tasks)), Numbers(PendingTasks(tasks)))
  {
    tasks := [PlanTask(1, "one", 0, {}, true), PlanTask(2, "two", 0, {3}, false), PlanTask(3, "three", 1, {1}, false)];
    CycleMakerIsAcyclic(tasks);
    CycleMakerPendingIsCyclic(tasks);
  }
}
