/** When a task's flush timer runs, and what flushing everything does (packages/agent/src/hooks.ts:60-194). */
module ActivityTimers {
  import opened Collections
  import opened ActivityQueue

  /** The i-th event logs an entry for the task, and since then its timer neither fired nor was cancelled. */
  ghost predicate ArmedSince(l: Limits, events: seq<Event>, task: string, i: nat) {
    && i < |events| && events[i].Log? && events[i].task == task && !l.sync
    && forall j :: i < j < |events| && events[j].task == task ==> !events[j].Timer? && !events[j].Dispose?
  }

  ghost predicate Armed(l: Limits, events: seq<Event>, task: string) {
    exists i: nat :: ArmedSince(l, events, task, i)
  }

  /** An event arms the task's timer, ends it, or leaves it. */
  lemma ArmedMore(l: Limits, before: seq<Event>, e: Event, task: string)
    ensures Armed(l, before + [e], task) <==>
            if e.task == task && e.Log? && !l.sync then true
            else if e.task == task && (e.Timer? || e.Dispose?) then false
            else Armed(l, before, task)
  {
    var events := before + [e];
    if e.task == task && e.Log? && !l.sync {
      assert ArmedSince(l, events, task, |before|);
    }
    if i: nat :| ArmedSince(l, before, task, i) {
      if !(e.task == task && (e.Timer? || e.Dispose?)) {
        assert ArmedSince(l, events, task, i);
      }
    }
    if i: nat :| ArmedSince(l, events, task, i) {
      assert events[|before|] == e;
      if i < |before| {
        assert forall j :: i < j < |before| ==> before[j] == events[j];
        assert ArmedSince(l, before, task, i);
      }
    }
  }

  /** Over any run a task's timer runs exactly when, in batch mode, it was logged to since the timer last ended. */
  lemma {:induction false} TimerRunsIff(l: Limits, events: seq<Event>, task: string)
    ensures task in After(l, events).timers <==> Armed(l, events, task)
  {
    if events != [] {
      TimerRunsIff(l, Init(events), task);
      ArmedMore(l, Init(events), Last(events), task);
      assert events == Init(events) + [Last(events)];
    }
  }

  /** Nothing waits in a queue without a timer that will flush it. */
  lemma {:induction false} QueuedIsTimed(l: Limits, events: seq<Event>, task: string)
    requires QueueOf(After(l, events), task) != []
    ensures task in After(l, events).timers
  {
    var before, e := After(l, Init(events)), Last(events);
    if QueueOf(before, task) != [] {
      QueuedIsTimed(l, Init(events), task);
    }
  }

  /** When the timer fires, or the task is flushed or disposed of, its queue is stored, or lost with a failed write. */
  lemma EndsEmpty(l: Limits, st: State, e: Event)
    requires !e.Log?
    ensures QueueOf(Step(l, st, e), e.task) == []
    ensures StoredOf(Step(l, st, e), e.task) ==
            StoredOf(st, e.task) + if e.written then QueueOf(st, e.task) else []
    ensures e.Dispose? ==> e.task !in Step(l, st, e).queues
  {
    assert StoredOf(st, e.task) + [] == StoredOf(st, e.task);
  }

  lemma FlushedEffect(st: State, flushed: string, written: bool, task: string)
    ensures var after := Flushed(st, flushed, written);
      && after.timers == st.timers
      && QueueOf(after, task) == (if task == flushed then [] else QueueOf(st, task))
      && StoredOf(after, task) == StoredOf(st, task) + (if task == flushed && written then QueueOf(st, task) else [])
  {
    assert StoredOf(st, task) + [] == StoredOf(st, task);
  }

  /** Flushing all tasks that have a queue empties every queue into its task's log. */
  lemma {:induction false} AllEndEmpty(st: State, tasks: seq<string>, written: string -> bool, task: string)
    ensures var after := AllFlushed(st, tasks, written);
      && QueueOf(after, task) == (if task in tasks then [] else QueueOf(st, task))
      && StoredOf(after, task) ==
         StoredOf(st, task) + (if task in tasks && written(task) then QueueOf(st, task) else [])
      && after.timers == st.timers
  {
    if tasks == [] {
      assert StoredOf(st, task) + [] == StoredOf(st, task);
    } else {
      hide Flushed, QueueOf, StoredOf;
      var before, last := Init(tasks), Last(tasks);
      assert tasks == before + [last];
      AllEndEmpty(st, before, written, task);
      FlushedEffect(AllFlushed(st, before, written), last, written(last), task);
      assert StoredOf(st, task) + [] == StoredOf(st, task);
    }
  }
}
