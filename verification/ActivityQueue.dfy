/** The activity log, synchronous or batched (packages/agent/src/hooks.ts:60-194). */
module ActivityQueue {
  import opened Collections

  datatype Entry = Entry(timestamp: string, category: string, detail: string)

  /** Queues and stored logs by task; a task without a queue has an empty one. */
  datatype State = State(queues: map<string, seq<Entry>>, timers: set<string>, stored: map<string, seq<Entry>>)

  /** sync: every entry is written at once, and nothing is queued. */
  datatype Limits = Limits(sync: bool, queueLimit: int, batchSize: int)

  function QueueOf(st: State, task: string): seq<Entry> {
    if task in st.queues then st.queues[task] else []
  }

  function StoredOf(st: State, task: string): seq<Entry> {
    if task in st.stored then st.stored[task] else []
  }

  // ---- What the operations do, on values ----

  /** written: whether the database took the lines; if not, they are lost. */
  function Flushed(st: State, task: string, written: bool): State {
    if QueueOf(st, task) == [] then st
    else
      st.(queues := st.queues[task := []],
          stored := if written then st.stored[task := StoredOf(st, task) + QueueOf(st, task)] else st.stored)
  }

  /** The queue after one more entry: the oldest goes when it is full. */
  function Enqueued(queue: seq<Entry>, e: Entry, limit: int): seq<Entry> {
    (if |queue| >= limit && queue != [] then queue[1..] else queue) + [e]
  }

  function LoggedAtOnce(st: State, task: string, e: Entry, written: bool): State {
    if written then st.(stored := st.stored[task := StoredOf(st, task) + [e]]) else st
  }

  function Logged(l: Limits, st: State, task: string, e: Entry, written: bool): State {
    if l.sync then LoggedAtOnce(st, task, e, written) else LoggedInBatch(l, st, task, e, written)
  }

  function LoggedInBatch(l: Limits, st: State, task: string, e: Entry, written: bool): State {
    var queue := Enqueued(QueueOf(st, task), e, l.queueLimit);
    var queued := st.(queues := st.queues[task := queue]);
    var after := if |queue| >= l.batchSize then Flushed(queued, task, written) else queued;
    after.(timers := after.timers + {task})
  }

  function Disposed(st: State, task: string, written: bool): State {
    var flushed := Flushed(st.(timers := st.timers - {task}), task, written);
    flushed.(queues := map t | t in flushed.queues.Keys && t != task :: flushed.queues[t])
  }

  function TimerFired(st: State, task: string, written: bool): State {
    var flushed := Flushed(st, task, written);
    flushed.(timers := flushed.timers - {task})
  }

  function AllFlushed(st: State, tasks: seq<string>, written: string -> bool): State {
    if tasks == [] then st
    else Flushed(AllFlushed(st, tasks[..|tasks| - 1], written), tasks[|tasks| - 1], written(tasks[|tasks| - 1]))
  }

  // ---- The module's state ----

  class ActivityLog {
    const limits: Limits
    var taskQueues: map<string, seq<Entry>>
    var flushTimers: set<string>
    var stored: map<string, seq<Entry>>

    function Value(): State
      reads this
    {
      State(taskQueues, flushTimers, stored)
    }

    constructor (l: Limits)
      ensures limits == l && Value() == State(map[], {}, map[])
    {
      limits := l;
      taskQueues, flushTimers, stored := map[], {}, map[];
    }

    method FlushActivityQueue(task: string, written: bool)
      modifies this
      ensures Value() == Flushed(old(Value()), task, written)
    {
      if task !in taskQueues || taskQueues[task] == [] {
        return;
      }
      var entries := taskQueues[task];
      taskQueues := taskQueues[task := []];
      if written {
        stored := stored[task := (if task in stored then stored[task] else []) + entries];
      }
    }

    method FlushAllActivityQueues(tasks: seq<string>, written: string -> bool)
      modifies this
      ensures Value() == AllFlushed(old(Value()), tasks, written)
    {
      ghost var start := Value();
      for i := 0 to |tasks|
        invariant Value() == AllFlushed(start, tasks[..i], written)
      {
        assert tasks[..i + 1][..i] == tasks[..i];
        FlushActivityQueue(tasks[i], written(tasks[i]));
      }
      assert tasks[..|tasks|] == tasks;
    }

    method DisposeActivityQueue(task: string, written: bool)
      modifies this
      ensures Value() == Disposed(old(Value()), task, written)
    {
      flushTimers := flushTimers - {task};
      FlushActivityQueue(task, written);
      taskQueues := map t | t in taskQueues.Keys && t != task :: taskQueues[t];
    }

    method FireTimer(task: string, written: bool)
      modifies this
      ensures Value() == TimerFired(old(Value()), task, written)
    {
      FlushActivityQueue(task, written);
      flushTimers := flushTimers - {task};
    }

    method LogActivity(task: string, e: Entry, written: bool)
      modifies this
      ensures Value() == Logged(limits, old(Value()), task, e, written)
    {
      if limits.sync {
        if written {
          stored := stored[task := (if task in stored then stored[task] else []) + [e]];
        }
        return;
      }
      var queue := if task in taskQueues then taskQueues[task] else [];
      if |queue| >= limits.queueLimit && queue != [] {
        queue := queue[1..];
      }
      queue := queue + [e];
      taskQueues := taskQueues[task := queue];
      if |queue| >= limits.batchSize {
        FlushActivityQueue(task, written);
      }
      flushTimers := flushTimers + {task};
    }
  }

  // ---- Runs ----

  datatype Event =
    | Log(task: string, entry: Entry, written: bool)
    | Flush(task: string, written: bool)
    | Dispose(task: string, written: bool)
    | Timer(task: string, written: bool)

  function Step(l: Limits, st: State, e: Event): State {
    match e
    case Log(task, entry, written) => Logged(l, st, task, entry, written)
    case Flush(task, written) => Flushed(st, task, written)
    case Dispose(task, written) => Disposed(st, task, written)
    case Timer(task, written) => TimerFired(st, task, written)
  }

  function After(l: Limits, events: seq<Event>): State {
    if events == [] then State(map[], {}, map[]) else Step(l, After(l, Init(events)), Last(events))
  }

  /** Everything logged for the task, in order. */
  function LoggedFor(events: seq<Event>, task: string): seq<Entry> {
    if events == [] then []
    else LoggedFor(Init(events), task) +
         if Last(events).Log? && Last(events).task == task then [Last(events).entry] else []
  }

  // ---- One task's calls never affect another's log ----

  lemma StepLeavesOthers(l: Limits, st: State, e: Event, task: string)
    requires e.task != task
    ensures QueueOf(Step(l, st, e), task) == QueueOf(st, task)
    ensures StoredOf(Step(l, st, e), task) == StoredOf(st, task)
  {
  }

  function OnlyFor(events: seq<Event>, task: string): seq<Event> {
    if events == [] then []
    else OnlyFor(Init(events), task) + if Last(events).task == task then [Last(events)] else []
  }

  lemma StepAgrees(l: Limits, a: State, b: State, e: Event)
    requires QueueOf(a, e.task) == QueueOf(b, e.task) && StoredOf(a, e.task) == StoredOf(b, e.task)
    ensures QueueOf(Step(l, a, e), e.task) == QueueOf(Step(l, b, e), e.task)
    ensures StoredOf(Step(l, a, e), e.task) == StoredOf(Step(l, b, e), e.task)
  {
  }

  /** A task's queue and stored log are those it would have had alone. */
  lemma {:induction false} TasksDoNotInterfere(l: Limits, events: seq<Event>, task: string)
    ensures QueueOf(After(l, events), task) == QueueOf(After(l, OnlyFor(events, task)), task)
    ensures StoredOf(After(l, events), task) == StoredOf(After(l, OnlyFor(events, task)), task)
  {
    if events != [] {
      var before := After(l, Init(events));
      var alone := After(l, OnlyFor(Init(events), task));
      TasksDoNotInterfere(l, Init(events), task);
      if Last(events).task == task {
        StepAgrees(l, before, alone, Last(events));
        assert Init(OnlyFor(events, task)) == OnlyFor(Init(events), task);
      } else {
        StepLeavesOthers(l, before, Last(events), task);
        assert OnlyFor(events, task) == OnlyFor(Init(events), task);
      }
    }
  }

  // ---- What is lost ----

  /** The last n entries. */
  function Suffix(s: seq<Entry>, n: int): seq<Entry> {
    if n <= 0 then [] else if |s| <= n then s else s[|s| - n..]
  }

  /** What is kept of the entries: whole runs between flushes, each cut to its newest entries. */
  datatype Account = Account(stored: seq<Entry>, unflushed: seq<Entry>)

  function Settle(a: Account, limit: int, written: bool): Account {
    Account(if written then a.stored + Suffix(a.unflushed, limit) else a.stored, [])
  }

  function AccountStep(l: Limits, a: Account, e: Event): Account {
    if !e.Log? then Settle(a, l.queueLimit, e.written)
    else if l.sync then a.(stored := if e.written then a.stored + [e.entry] else a.stored)
    else
      var longer := a.(unflushed := a.unflushed + [e.entry]);
      if |Suffix(longer.unflushed, l.queueLimit)| >= l.batchSize then Settle(longer, l.queueLimit, e.written)
      else longer
  }

  function AccountFor(l: Limits, events: seq<Event>, task: string): Account {
    if events == [] then Account([], [])
    else
      var a := AccountFor(l, Init(events), task);
      if Last(events).task == task then AccountStep(l, a, Last(events)) else a
  }

  lemma EnqueueIsSuffix(unflushed: seq<Entry>, e: Entry, limit: int)
    requires limit >= 1
    ensures Enqueued(Suffix(unflushed, limit), e, limit) == Suffix(unflushed + [e], limit)
  {
  }

  /** The task's queue and stored log are what the account says. */
  ghost predicate Holds(l: Limits, st: State, task: string, a: Account) {
    QueueOf(st, task) == Suffix(a.unflushed, l.queueLimit) && StoredOf(st, task) == a.stored
  }

  lemma FlushedHolds(l: Limits, st: State, task: string, a: Account, written: bool)
    requires l.queueLimit >= 1 && Holds(l, st, task, a)
    ensures Holds(l, Flushed(st, task, written), task, Settle(a, l.queueLimit, written))
  {
    assert a.stored + [] == a.stored;
  }

  lemma LoggedHolds(l: Limits, st: State, task: string, a: Account, e: Entry, written: bool)
    requires l.queueLimit >= 1 && Holds(l, st, task, a)
    ensures Holds(l, Logged(l, st, task, e, written), task, AccountStep(l, a, Log(task, e, written)))
  {
    if !l.sync {
      EnqueueIsSuffix(a.unflushed, e, l.queueLimit);
      var queued := st.(queues := st.queues[task := Enqueued(QueueOf(st, task), e, l.queueLimit)]);
      FlushedHolds(l, queued, task, a.(unflushed := a.unflushed + [e]), written);
    }
  }

  lemma StepHolds(l: Limits, st: State, a: Account, e: Event)
    requires l.queueLimit >= 1 && Holds(l, st, e.task, a)
    ensures Holds(l, Step(l, st, e), e.task, AccountStep(l, a, e))
  {
    match e
    case Log(task, entry, written) => LoggedHolds(l, st, task, a, entry, written);
    case Flush(task, written) => FlushedHolds(l, st, task, a, written);
    case Dispose(task, written) => FlushedHolds(l, st.(timers := st.timers - {task}), task, a, written);
    case Timer(task, written) => FlushedHolds(l, st, task, a, written);
  }

  lemma {:induction false} RunHolds(l: Limits, events: seq<Event>, task: string)
    requires l.queueLimit >= 1
    ensures Holds(l, After(l, events), task, AccountFor(l, events, task))
  {
    if events != [] {
      RunHolds(l, Init(events), task);
      if Last(events).task == task {
        StepHolds(l, After(l, Init(events)), AccountFor(l, Init(events), task), Last(events));
      } else {
        StepLeavesOthers(l, After(l, Init(events)), Last(events), task);
      }
    }
  }

  /** The queue is always the newest unflushed entries, as many as fit, and the stored log what was settled. */
  lemma QueueIsNewest(l: Limits, events: seq<Event>, task: string)
    requires l.queueLimit >= 1
    ensures QueueOf(After(l, events), task) == Suffix(AccountFor(l, events, task).unflushed, l.queueLimit)
    ensures StoredOf(After(l, events), task) == AccountFor(l, events, task).stored
    ensures |QueueOf(After(l, events), task)| <= l.queueLimit
  {
    RunHolds(l, events, task);
  }

  predicate AllWritten(events: seq<Event>) {
    forall e :: e in events ==> e.written
  }

  /** One more entry, with room for all of them. */
  lemma RoomForAll(l: Limits, a: Account, e: Entry, logged: seq<Entry>)
    requires 1 <= l.batchSize <= l.queueLimit
    requires a.stored + a.unflushed == logged && |a.unflushed| < l.batchSize
    ensures var longer := a.(unflushed := a.unflushed + [e]);
      var b := if |Suffix(longer.unflushed, l.queueLimit)| >= l.batchSize then Settle(longer, l.queueLimit, true)
               else longer;
      b.stored + b.unflushed == logged + [e] && |b.unflushed| < l.batchSize
  {
    var longer := a.unflushed + [e];
    assert Suffix(longer, l.queueLimit) == longer;
    assert a.stored + longer == logged + [e];
  }

  lemma {:induction false} NothingUnaccounted(l: Limits, events: seq<Event>, task: string)
    requires l.sync || 1 <= l.batchSize <= l.queueLimit
    requires AllWritten(events)
    ensures var a := AccountFor(l, events, task);
      && a.stored + a.unflushed == LoggedFor(events, task)
      && if l.sync then a.unflushed == [] else |a.unflushed| < l.batchSize
  {
    if events != [] {
      var e := Last(events);
      assert e in events && e.written;
      NothingUnaccounted(l, Init(events), task);
      if e.Log? && !l.sync {
        RoomForAll(l, AccountFor(l, Init(events), task), e.entry, LoggedFor(Init(events), task));
      }
    }
  }

  /**
    Synchronous, or with a batch no larger than the queue, and with every write taken, nothing is lost:
    stored then queued is logged.
   */
  lemma NothingLost(l: Limits, events: seq<Event>, task: string)
    requires l.queueLimit >= 1
    requires l.sync || 1 <= l.batchSize <= l.queueLimit
    requires AllWritten(events)
    ensures StoredOf(After(l, events), task) + QueueOf(After(l, events), task) == LoggedFor(events, task)
  {
    NothingUnaccounted(l, events, task);
    QueueIsNewest(l, events, task);
  }

  // ---- Order ----

  /** sub is what is left of s after removing entries. */
  ghost predicate Subsequence(sub: seq<Entry>, s: seq<Entry>)
    decreases |s|
  {
    if s == [] then sub == []
    else
      || Subsequence(sub, s[..|s| - 1])
      || (sub != [] && sub[|sub| - 1] == s[|s| - 1] && Subsequence(sub[..|sub| - 1], s[..|s| - 1]))
  }

  lemma {:induction false} SubsequenceRefl(s: seq<Entry>)
    ensures Subsequence(s, s)
  {
    if s != [] {
      SubsequenceRefl(s[..|s| - 1]);
    }
  }

  lemma SubsequenceAppend(sub: seq<Entry>, s: seq<Entry>, e: Entry)
    requires Subsequence(sub, s)
    ensures Subsequence(sub + [e], s + [e])
  {
    assert (sub + [e])[..|sub|] == sub && (s + [e])[..|s|] == s;
  }

  /** Dropping the first of the last n entries of a subsequence leaves one. */
  lemma {:induction false} SubsequenceDrop(a: seq<Entry>, b: seq<Entry>, c: seq<Entry>, s: seq<Entry>)
    requires Subsequence(a + b + c, s)
    ensures Subsequence(a + c, s)
    decreases |s|
  {
    var whole := a + b + c;
    if s != [] {
      var init := s[..|s| - 1];
      if Subsequence(whole, init) {
        SubsequenceDrop(a, b, c, init);
      } else if c != [] {
        assert whole[..|whole| - 1] == a + b + c[..|c| - 1];
        SubsequenceDrop(a, b, c[..|c| - 1], init);
        assert (a + c)[..|a + c| - 1] == a + c[..|c| - 1];
      } else if b != [] {
        assert whole[..|whole| - 1] == a + b[..|b| - 1] + c;
        SubsequenceDrop(a, b[..|b| - 1], c, init);
      } else {
        assert whole == a + c;
      }
    }
  }

  lemma SuffixSplit(s: seq<Entry>, n: int) returns (front: seq<Entry>)
    ensures s == front + Suffix(s, n)
  {
    front := s[..|s| - |Suffix(s, n)|];
  }

  /** In any run, what is stored and queued keeps the order of what was logged: only entries are missing. */
  lemma {:induction false} KeptInOrder(l: Limits, events: seq<Event>, task: string)
    requires l.queueLimit >= 1
    ensures var a := AccountFor(l, events, task); Subsequence(a.stored + a.unflushed, LoggedFor(events, task))
    ensures Subsequence(StoredOf(After(l, events), task) + QueueOf(After(l, events), task), LoggedFor(events, task))
  {
    AccountInOrder(l, events, task);
    QueueIsNewest(l, events, task);
    var a := AccountFor(l, events, task);
    var front := SuffixSplit(a.unflushed, l.queueLimit);
    var newest := Suffix(a.unflushed, l.queueLimit);
    assert a.stored + a.unflushed == a.stored + front + newest;
    SubsequenceDrop(a.stored, front, newest, LoggedFor(events, task));
  }

  lemma SettleInOrder(a: Account, limit: int, written: bool, logged: seq<Entry>)
    requires Subsequence(a.stored + a.unflushed, logged)
    ensures var b := Settle(a, limit, written); Subsequence(b.stored + b.unflushed, logged)
  {
    var front := SuffixSplit(a.unflushed, limit);
    var newest := Suffix(a.unflushed, limit);
    assert a.stored + a.unflushed == a.stored + front + newest;
    SubsequenceDrop(a.stored, front, newest, logged);
    var b := Settle(a, limit, written);
    assert b.stored + b.unflushed == b.stored;
    if !written {
      assert a.stored + a.unflushed == a.stored + a.unflushed + [];
      SubsequenceDrop(a.stored, a.unflushed, [], logged);
      assert a.stored + [] == a.stored;
    }
  }

  lemma WrittenAtOnce(stored: seq<Entry>, e: Entry, logged: seq<Entry>)
    requires Subsequence(stored + [], logged)
    ensures Subsequence(stored + [e] + [], logged + [e]) && Subsequence(stored + [], logged + [e])
  {
    assert stored + [] == stored && stored + [e] + [] == stored + [e];
    SubsequenceAppend(stored, logged, e);
    assert (logged + [e])[..|logged|] == logged;
  }

  lemma {:induction false} AccountInOrder(l: Limits, events: seq<Event>, task: string)
    ensures var a := AccountFor(l, events, task); Subsequence(a.stored + a.unflushed, LoggedFor(events, task))
    ensures l.sync ==> AccountFor(l, events, task).unflushed == []
  {
    if events == [] {
      SubsequenceRefl([]);
    } else {
      var a := AccountFor(l, Init(events), task);
      var e := Last(events);
      AccountInOrder(l, Init(events), task);
      var logged := LoggedFor(Init(events), task);
      if e.task == task && e.Log? {
        var longer := a.(unflushed := a.unflushed + [e.entry]);
        SubsequenceAppend(a.stored + a.unflushed, logged, e.entry);
        if l.sync {
          WrittenAtOnce(a.stored, e.entry, logged);
        }
        assert longer.stored + longer.unflushed == a.stored + a.unflushed + [e.entry];
        SettleInOrder(longer, l.queueLimit, e.written, LoggedFor(events, task));
      } else {
        assert LoggedFor(events, task) == logged;
        SettleInOrder(a, l.queueLimit, e.written, logged);
      }
    }
  }
}
