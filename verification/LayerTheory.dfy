/**
  Greedy layering of a dependency relation, on values: the specification of the layering loop
  (packages/agent/src/planLayers.ts:161-189) and what the layers it produces mean.
 */
module LayerTheory {
  import opened Collections

  type Relation = map<int, set<int>>

  /** A number without an entry has no dependencies. */
  function DepsOf(deps: Relation, n: int): set<int> {
    if n in deps then deps[n] else {}
  }

  /** The remaining numbers none of whose dependencies remain. */
  function Ready(deps: Relation, remaining: set<int>): set<int> {
    set n | n in remaining && DepsOf(deps, n) * remaining == {}
  }

  /** All ready numbers, or the least remaining one when a cycle blocks everything. */
  function NextLayer(deps: Relation, remaining: set<int>): (layer: set<int>)
    requires remaining != {}
    ensures layer != {} && layer <= remaining
  {
    if Ready(deps, remaining) != {} then Ready(deps, remaining) else {Least(remaining)}
  }

  function Drain(deps: Relation, remaining: set<int>): seq<set<int>>
    decreases remaining
  {
    if remaining == {} then []
    else [NextLayer(deps, remaining)] + Drain(deps, remaining - NextLayer(deps, remaining))
  }

  /** The index of the layer that takes n. */
  function LayerOf(deps: Relation, remaining: set<int>, n: int): nat
    requires n in remaining
    decreases remaining
  {
    if n in NextLayer(deps, remaining) then 0
    else 1 + LayerOf(deps, remaining - NextLayer(deps, remaining), n)
  }

  /** Some iteration of the loop finds nothing ready and takes the single-task fallback. */
  ghost predicate FallbackFires(deps: Relation, remaining: set<int>)
    decreases remaining
  {
    remaining != {} &&
    (Ready(deps, remaining) == {} || FallbackFires(deps, remaining - NextLayer(deps, remaining)))
  }

  // ---- Chains and cycles ----

  /** p[0] depends on p[1], which depends on p[2], and so on, within the pool. */
  ghost predicate IsChain(deps: Relation, pool: set<int>, p: seq<int>) {
    && p != []
    && (forall i :: 0 <= i < |p| ==> p[i] in pool)
    && (forall i :: 0 <= i < |p| - 1 ==> p[i + 1] in DepsOf(deps, p[i]))
  }

  ghost predicate IsCycle(deps: Relation, pool: set<int>, p: seq<int>) {
    IsChain(deps, pool, p) && p[0] in DepsOf(deps, p[|p| - 1])
  }

  ghost predicate Cyclic(deps: Relation, pool: set<int>) {
    exists p :: IsCycle(deps, pool, p)
  }

  /** Every member of a cycle waits for another member, so none of them ever becomes ready. */
  lemma CycleNeverReady(deps: Relation, pool: set<int>, p: seq<int>)
    requires IsCycle(deps, pool, p)
    ensures IsCycle(deps, pool - Ready(deps, pool), p)
  {
    forall i | 0 <= i < |p|
      ensures p[i] !in Ready(deps, pool)
    {
      var next := if i == |p| - 1 then p[0] else p[i + 1];
      assert next in DepsOf(deps, p[i]) * pool;
    }
  }

  lemma {:induction false} CycleForcesFallback(deps: Relation, pool: set<int>, p: seq<int>)
    requires IsCycle(deps, pool, p)
    ensures FallbackFires(deps, pool)
    decreases pool
  {
    assert p[0] in pool;
    if Ready(deps, pool) != {} {
      CycleNeverReady(deps, pool, p);
      CycleForcesFallback(deps, pool - Ready(deps, pool), p);
    }
  }

  /** When nothing is ready, dependencies can be followed for any number of steps. */
  lemma {:induction false} WalkWhenStuck(deps: Relation, pool: set<int>, steps: nat) returns (p: seq<int>)
    requires pool != {} && Ready(deps, pool) == {}
    ensures IsChain(deps, pool, p) && |p| == steps + 1
  {
    if steps == 0 {
      p := [Least(pool)];
    } else {
      p := WalkWhenStuck(deps, pool, steps - 1);
      var last := p[|p| - 1];
      assert last !in Ready(deps, pool);
      var next := AnyElement(DepsOf(deps, last) * pool);
      p := p + [next];
    }
  }

  lemma StuckHasCycle(deps: Relation, pool: set<int>)
    requires pool != {} && Ready(deps, pool) == {}
    ensures Cyclic(deps, pool)
  {
    var p := WalkWhenStuck(deps, pool, |pool|);
    var i, j := Pigeonhole(p, pool);
    var loop := p[i..j];
    assert p[j] in DepsOf(deps, p[j - 1]);
    assert IsCycle(deps, pool, loop);
  }

  lemma {:induction false} FallbackNeedsCycle(deps: Relation, pool: set<int>)
    requires FallbackFires(deps, pool)
    ensures Cyclic(deps, pool)
    decreases pool
  {
    if Ready(deps, pool) == {} {
      StuckHasCycle(deps, pool);
    } else {
      var rest := pool - NextLayer(deps, pool);
      FallbackNeedsCycle(deps, rest);
      var p :| IsCycle(deps, rest, p);
      assert IsCycle(deps, pool, p);
    }
  }

  /** The fallback fires at some point exactly when the relation has a cycle on the pool. */
  lemma FallbackIffCycle(deps: Relation, pool: set<int>)
    ensures FallbackFires(deps, pool) <==> Cyclic(deps, pool)
  {
    if FallbackFires(deps, pool) {
      FallbackNeedsCycle(deps, pool);
    }
    if Cyclic(deps, pool) {
      var p :| IsCycle(deps, pool, p);
      CycleForcesFallback(deps, pool, p);
    }
  }

  // ---- The layers are a partition ----

  lemma {:induction false} LayerAt(deps: Relation, pool: set<int>, i: nat)
    requires i < |Drain(deps, pool)|
    ensures Drain(deps, pool)[i] != {} && Drain(deps, pool)[i] <= pool
    ensures forall n :: n in Drain(deps, pool)[i] ==> LayerOf(deps, pool, n) == i
    decreases i
  {
    var layer := NextLayer(deps, pool);
    if i != 0 {
      LayerAt(deps, pool - layer, i - 1);
      assert Drain(deps, pool)[i] == Drain(deps, pool - layer)[i - 1];
    }
  }

  lemma {:induction false} InItsLayer(deps: Relation, pool: set<int>, n: int)
    requires n in pool
    ensures LayerOf(deps, pool, n) < |Drain(deps, pool)| && n in Drain(deps, pool)[LayerOf(deps, pool, n)]
    decreases pool
  {
    var layer := NextLayer(deps, pool);
    if n !in layer {
      InItsLayer(deps, pool - layer, n);
    }
  }

  lemma DrainPartitions(deps: Relation, pool: set<int>)
    ensures forall i :: 0 <= i < |Drain(deps, pool)| ==> Drain(deps, pool)[i] != {}
    ensures forall i :: 0 <= i < |Drain(deps, pool)| ==> Drain(deps, pool)[i] <= pool
    ensures forall i, n :: 0 <= i < |Drain(deps, pool)| && n in Drain(deps, pool)[i] ==>
              i == LayerOf(deps, pool, n)
    ensures forall n :: n in pool ==>
              LayerOf(deps, pool, n) < |Drain(deps, pool)| && n in Drain(deps, pool)[LayerOf(deps, pool, n)]
  {
    hide Drain, LayerOf;
    forall i | 0 <= i < |Drain(deps, pool)|
      ensures Drain(deps, pool)[i] != {} && Drain(deps, pool)[i] <= pool
      ensures forall n :: n in Drain(deps, pool)[i] ==> i == LayerOf(deps, pool, n)
    {
      LayerAt(deps, pool, i);
    }
    forall n | n in pool
      ensures LayerOf(deps, pool, n) < |Drain(deps, pool)| && n in Drain(deps, pool)[LayerOf(deps, pool, n)]
    {
      InItsLayer(deps, pool, n);
    }
  }

  // ---- Without a cycle: layer index is longest chain ----

  lemma {:induction false} DependenciesEarlier(deps: Relation, pool: set<int>, n: int, d: int)
    requires !FallbackFires(deps, pool)
    requires n in pool && d in pool && d in DepsOf(deps, n)
    ensures LayerOf(deps, pool, d) < LayerOf(deps, pool, n)
    decreases pool
  {
    var layer := NextLayer(deps, pool);
    assert d in DepsOf(deps, n) * pool;
    assert n !in layer;
    if d !in layer {
      DependenciesEarlier(deps, pool - layer, n, d);
    }
  }

  /** A number past the first layer has a dependency exactly one layer before it. */
  lemma {:induction false} DependencyOneLayerBelow(deps: Relation, pool: set<int>, n: int) returns (d: int)
    requires !FallbackFires(deps, pool)
    requires n in pool && LayerOf(deps, pool, n) > 0
    ensures d in pool && d in DepsOf(deps, n)
    ensures LayerOf(deps, pool, d) == LayerOf(deps, pool, n) - 1
    decreases pool
  {
    var layer := NextLayer(deps, pool);
    var rest := pool - layer;
    if LayerOf(deps, rest, n) == 0 {
      assert n !in Ready(deps, pool);
      d := AnyElement(DepsOf(deps, n) * pool);
      assert d !in rest by {
        assert d in rest ==> d in DepsOf(deps, n) * rest;
      }
    } else {
      d := DependencyOneLayerBelow(deps, rest, n);
      assert d in rest;
    }
  }

  lemma {:induction false} ChainAsLongAsLayer(deps: Relation, pool: set<int>, n: int) returns (p: seq<int>)
    requires !FallbackFires(deps, pool)
    requires n in pool
    ensures IsChain(deps, pool, p) && p[0] == n && |p| == LayerOf(deps, pool, n) + 1
    decreases LayerOf(deps, pool, n)
  {
    if LayerOf(deps, pool, n) == 0 {
      p := [n];
    } else {
      var d := DependencyOneLayerBelow(deps, pool, n);
      var tail := ChainAsLongAsLayer(deps, pool, d);
      p := [n] + tail;
    }
  }

  /** g gives every dependency of a pool member a smaller number. */
  ghost predicate ValidLayering(deps: Relation, pool: set<int>, g: int -> nat) {
    forall n, d :: n in pool && d in pool && d in DepsOf(deps, n) ==> g(d) < g(n)
  }

  lemma LayeringAt(deps: Relation, pool: set<int>, g: int -> nat, n: int, d: int)
    requires ValidLayering(deps, pool, g)
    requires n in pool && d in pool && d in DepsOf(deps, n)
    ensures g(d) < g(n)
  {
  }

  lemma {:induction false} ChainBoundsLayering(deps: Relation, pool: set<int>, g: int -> nat, p: seq<int>)
    requires ValidLayering(deps, pool, g)
    requires IsChain(deps, pool, p)
    ensures |p| - 1 <= g(p[0])
    decreases |p|
  {
    if |p| > 1 {
      LayeringAt(deps, pool, g, p[0], p[1]);
      ChainBoundsLayering(deps, pool, g, p[1..]);
    }
  }

  /** LayerOf as a total function on the pool. */
  function LayerFunction(deps: Relation, pool: set<int>): int -> nat {
    n => if n in pool then LayerOf(deps, pool, n) else 0
  }

  lemma LayersAreValid(deps: Relation, pool: set<int>)
    requires !Cyclic(deps, pool)
    ensures ValidLayering(deps, pool, LayerFunction(deps, pool))
  {
    FallbackIffCycle(deps, pool);
    forall n, d | n in pool && d in pool && d in DepsOf(deps, n)
      ensures LayerOf(deps, pool, d) < LayerOf(deps, pool, n)
    {
      DependenciesEarlier(deps, pool, n, d);
    }
  }

  lemma {:induction false} ChainDescends(deps: Relation, pool: set<int>, g: int -> nat, p: seq<int>)
    requires ValidLayering(deps, pool, g)
    requires IsChain(deps, pool, p)
    ensures g(p[|p| - 1]) <= g(p[0])
    decreases |p|
  {
    if |p| > 1 {
      LayeringAt(deps, pool, g, p[0], p[1]);
      ChainDescends(deps, pool, g, p[1..]);
    }
  }

  /** A relation that has a valid layering at all has no cycle. */
  lemma ValidLayeringExcludesCycles(deps: Relation, pool: set<int>, g: int -> nat)
    requires ValidLayering(deps, pool, g)
    ensures !Cyclic(deps, pool)
  {
    if Cyclic(deps, pool) {
      var p :| IsCycle(deps, pool, p);
      ChainDescends(deps, pool, g, p);
      LayeringAt(deps, pool, g, p[|p| - 1], p[0]);
    }
  }

  /** Without a cycle, n sits in the layer whose index is the number of steps of its longest chain. */
  lemma LayerIsLongestChain(deps: Relation, pool: set<int>, n: int)
    requires !Cyclic(deps, pool)
    requires n in pool
    ensures exists p :: IsChain(deps, pool, p) && p[0] == n && |p| - 1 == LayerOf(deps, pool, n)
    ensures forall p :: IsChain(deps, pool, p) && p[0] == n ==> |p| - 1 <= LayerOf(deps, pool, n)
  {
    FallbackIffCycle(deps, pool);
    var longest := ChainAsLongAsLayer(deps, pool, n);
    LayersAreValid(deps, pool);
    forall p | IsChain(deps, pool, p) && p[0] == n
      ensures |p| - 1 <= LayerOf(deps, pool, n)
    {
      ChainBoundsLayering(deps, pool, LayerFunction(deps, pool), p);
    }
  }

  /** No valid layering puts a number earlier. */
  lemma LayersAreLeast(deps: Relation, pool: set<int>, g: int -> nat, n: int)
    requires ValidLayering(deps, pool, g)
    requires n in pool
    ensures LayerOf(deps, pool, n) <= g(n)
  {
    ValidLayeringExcludesCycles(deps, pool, g);
    FallbackIffCycle(deps, pool);
    var p := ChainAsLongAsLayer(deps, pool, n);
    ChainBoundsLayering(deps, pool, g, p);
  }

  /** No valid layering of the pool into numbers below k can use fewer layers. */
  lemma FewestLayers(deps: Relation, pool: set<int>, g: int -> nat, k: nat)
    requires ValidLayering(deps, pool, g)
    requires forall n :: n in pool ==> g(n) < k
    ensures |Drain(deps, pool)| <= k
  {
    var layers := Drain(deps, pool);
    if |layers| > 0 {
      DrainPartitions(deps, pool);
      var n := AnyElement(layers[|layers| - 1]);
      LayersAreLeast(deps, pool, g, n);
    }
  }

  // ---- Smaller relations ----

  /** Everything the smaller relation demands within its pool, the larger one demands too. */
  ghost predicate Subgraph(small: Relation, smallPool: set<int>, large: Relation, largePool: set<int>) {
    && smallPool <= largePool
    && forall n, d :: n in smallPool && d in smallPool && d in DepsOf(small, n) ==> d in DepsOf(large, n)
  }

  lemma SubgraphNoLater(small: Relation, smallPool: set<int>, large: Relation, largePool: set<int>)
    requires Subgraph(small, smallPool, large, largePool)
    requires !Cyclic(large, largePool)
    ensures !Cyclic(small, smallPool)
    ensures forall n :: n in smallPool ==> LayerOf(small, smallPool, n) <= LayerOf(large, largePool, n)
  {
    LayersAreValid(large, largePool);
    var g := LayerFunction(large, largePool);
    assert ValidLayering(small, smallPool, g);
    ValidLayeringExcludesCycles(small, smallPool, g);
    forall n | n in smallPool
      ensures LayerOf(small, smallPool, n) <= LayerOf(large, largePool, n)
    {
      LayersAreLeast(small, smallPool, g, n);
    }
  }

  // ---- Cycles that a larger relation does not have ----

  /** The member of the cycle that p[i] depends on. */
  function NextIn(p: seq<int>, i: nat): int
    requires i < |p|
  {
    if i + 1 < |p| then p[i + 1] else p[0]
  }

  lemma CycleFromSteps(deps: Relation, pool: set<int>, p: seq<int>)
    requires p != [] && forall i :: 0 <= i < |p| ==> p[i] in pool
    requires forall i :: 0 <= i < |p| ==> NextIn(p, i) in DepsOf(deps, p[i])
    ensures IsCycle(deps, pool, p)
  {
    assert NextIn(p, |p| - 1) == p[0];
    forall i | 0 <= i < |p| - 1
      ensures p[i + 1] in DepsOf(deps, p[i])
    {
      assert NextIn(p, i) == p[i + 1];
    }
  }

  /** A cycle has a step that an acyclic relation on a larger pool does not have. */
  lemma CycleLeaves(deps: Relation, pool: set<int>, acyclic: Relation, largePool: set<int>, p: seq<int>)
    returns (i: nat)
    requires IsCycle(deps, pool, p) && pool <= largePool && !Cyclic(acyclic, largePool)
    ensures i < |p| && p[i] in pool && NextIn(p, i) in DepsOf(deps, p[i])
    ensures NextIn(p, i) !in DepsOf(acyclic, p[i])
  {
    if forall k :: 0 <= k < |p| ==> NextIn(p, k) in DepsOf(acyclic, p[k]) {
      CycleFromSteps(acyclic, largePool, p);
    }
    i :| 0 <= i < |p| && NextIn(p, i) !in DepsOf(acyclic, p[i]);
  }

  /** The first number waits for the second, directly or not. */
  ghost predicate Waits(deps: Relation, pool: set<int>, from: int, to: int) {
    exists p :: IsChain(deps, pool, p) && p[0] == from && p[|p| - 1] == to
  }

  /** A cycle opened behind p[i]: the chain from the next member all the way round to p[i]. */
  lemma OpenedCycle(deps: Relation, pool: set<int>, p: seq<int>, i: nat)
    requires IsCycle(deps, pool, p) && i < |p|
    ensures Waits(deps, pool, NextIn(p, i), p[i])
  {
    var front := |p| - i - 1;
    var q := p[i + 1..] + p[..i + 1];
    assert forall k :: 0 <= k < front ==> q[k] == p[i + 1 + k];
    assert forall k :: front <= k < |q| ==> q[k] == p[k - front];
    forall k | 0 <= k < |q| - 1
      ensures q[k + 1] in DepsOf(deps, q[k])
    {
      if k + 1 == front {
        assert q[k] == p[|p| - 1] && q[k + 1] == p[0];
      } else if k + 1 > front {
        assert q[k] == p[k - front] && q[k + 1] == p[k - front + 1];
      }
    }
    assert IsChain(deps, pool, q);
  }

  /** A chain whose last number depends on its first is a cycle. */
  lemma ClosedChain(deps: Relation, pool: set<int>, from: int, to: int)
    requires Waits(deps, pool, from, to) && from in DepsOf(deps, to)
    ensures Cyclic(deps, pool)
  {
    var p :| IsChain(deps, pool, p) && p[0] == from && p[|p| - 1] == to;
    assert IsCycle(deps, pool, p);
  }
}
