/** Counting semaphores by name (packages/agent/src/coordinator.ts:335-363). */
module Semaphores {
  import opened Collections
  import opened InsertionMap

  type Counts = OrderedMap<string, int>

  function CountOf(counts: Counts, name: string): int {
    if name in counts.entries then counts.entries[name] else 0
  }

  function Available(counts: Counts, name: string, max: int): int {
    max - CountOf(counts, name)
  }

  function Acquired(counts: Counts, name: string): Counts {
    counts.Put(name, CountOf(counts, name) + 1)
  }

  function Released(counts: Counts, name: string): Counts {
    counts.Put(name, Max(0, CountOf(counts, name) - 1))
  }

  function Sum(values: seq<int>): int {
    if values == [] then 0 else values[0] + Sum(values[1..])
  }

  ghost function Total(counts: Counts): int
    requires counts.Valid()
  {
    Sum(counts.Values())
  }

  lemma {:induction false} SumAppend(values: seq<int>, v: int)
    ensures Sum(values + [v]) == Sum(values) + v
  {
    if values == [] {
      assert values + [v] == [v];
    } else {
      assert (values + [v])[1..] == values[1..] + [v];
      SumAppend(values[1..], v);
    }
  }

  lemma {:induction false} SumUpdate(values: seq<int>, i: nat, v: int)
    requires i < |values|
    ensures Sum(values[i := v]) == Sum(values) - values[i] + v
  {
    if i > 0 {
      assert values[i := v][1..] == values[1..][i - 1 := v];
      SumUpdate(values[1..], i - 1, v);
    }
  }

  /** Changing one count changes the total by the same amount. */
  lemma TotalAfterPut(counts: Counts, name: string, v: int)
    requires counts.Valid()
    ensures counts.Put(name, v).Valid()
    ensures Total(counts.Put(name, v)) == Total(counts) - CountOf(counts, name) + v
  {
    if name in counts.entries {
      var i :| 0 <= i < |counts.keys| && counts.keys[i] == name;
      PutPresent(counts, i, v);
      SumUpdate(counts.Values(), i, v);
    } else {
      PutNew(counts, name, v);
      SumAppend(counts.Values(), v);
    }
  }

  class StageSemaphore {
    var counts: Counts

    constructor ()
      ensures counts == Empty()
    {
      counts := Empty();
    }

    method TryAcquire(stage: string, max: int) returns (acquired: bool)
      modifies this
      ensures acquired == (CountOf(old(counts), stage) < max)
      ensures counts == if acquired then Acquired(old(counts), stage) else old(counts)
    {
      var current := CountOf(counts, stage);
      if current >= max {
        return false;
      }
      counts := counts.Put(stage, current + 1);
      return true;
    }

    method Release(stage: string)
      modifies this
      ensures counts == Released(old(counts), stage)
    {
      var current := CountOf(counts, stage);
      counts := counts.Put(stage, Max(0, current - 1));
    }

    method TotalActive() returns (total: int)
      requires counts.Valid()
      ensures total == Total(counts)
    {
      total := 0;
      ghost var values := counts.Values();
      for i := 0 to |counts.keys|
        invariant total == Sum(values[..i])
      {
        assert values[..i + 1] == values[..i] + [values[i]];
        SumAppend(values[..i], values[i]);
        total := total + counts.entries[counts.keys[i]];
      }
      assert values[..|counts.keys|] == values;
    }
  }
}
