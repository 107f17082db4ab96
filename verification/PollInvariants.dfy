/** What holds in every reachable state of overlapping poll cycles. */
module PollInvariants {
  import opened Collections
  import opened InsertionMap
  import opened Semaphores
  import opened PollCycle

  // ---- Counting executions ----

  datatype Kind = OfStage(stage: string) | OfKey(key: string) | OfProject(project: string) | OfTask(task: int)

  predicate Has(s: Setup, e: Execution, kind: Kind) {
    match kind
    case OfStage(stage) => e.stage == stage
    case OfKey(key) => SemaphoreKey(e.profile) == Some(key)
    case OfProject(project) => s.projectOf(e.task) == project
    case OfTask(task) => e.task == task
  }

  function One(s: Setup, e: Execution, kind: Kind): nat {
    if Has(s, e, kind) then 1 else 0
  }

  function Tally(s: Setup, inFlight: seq<Execution>, kind: Kind): nat {
    if inFlight == [] then 0 else One(s, inFlight[0], kind) + Tally(s, inFlight[1..], kind)
  }

  lemma {:induction false} TallyConcat(s: Setup, a: seq<Execution>, b: seq<Execution>, kind: Kind)
    ensures Tally(s, a + b, kind) == Tally(s, a, kind) + Tally(s, b, kind)
  {
    if a == [] {
      assert a + b == b;
    } else {
      assert (a + b)[1..] == a[1..] + b;
      TallyConcat(s, a[1..], b, kind);
    }
  }

  lemma TallyAppend(s: Setup, inFlight: seq<Execution>, e: Execution, kind: Kind)
    ensures Tally(s, inFlight + [e], kind) == Tally(s, inFlight, kind) + One(s, e, kind)
  {
    TallyConcat(s, inFlight, [e], kind);
    assert Tally(s, [e], kind) == One(s, e, kind) + Tally(s, [], kind);
  }

  lemma TallyRemove(s: Setup, inFlight: seq<Execution>, i: nat, kind: Kind)
    requires i < |inFlight|
    ensures Tally(s, inFlight, kind) ==
            Tally(s, inFlight[..i] + inFlight[i + 1..], kind) + One(s, inFlight[i], kind)
  {
    TallyConcat(s, inFlight[..i], inFlight[i + 1..], kind);
    TallyConcat(s, inFlight[..i], inFlight[i..], kind);
    assert inFlight == inFlight[..i] + inFlight[i..];
    assert inFlight[i..][1..] == inFlight[i + 1..];
  }

  // ---- Permits ----

  ghost predicate StagesMatch(s: Setup, stages: Counts, inFlight: seq<Execution>) {
    forall stage :: CountOf(stages, stage) == Tally(s, inFlight, OfStage(stage))
  }

  ghost predicate RuntimesMatch(s: Setup, runtimes: Counts, inFlight: seq<Execution>) {
    forall key :: CountOf(runtimes, key) == Tally(s, inFlight, OfKey(key))
  }

  /** Every permit is held by a task in flight, and the global limit holds. */
  ghost predicate PermitsAccounted(s: Setup, w: World) {
    && w.stages.Valid()
    && StagesMatch(s, w.stages, w.inFlight)
    && RuntimesMatch(s, w.runtimes, w.inFlight)
    && Total(w.stages) == |w.inFlight| <= Max(0, s.globalMax)
  }

  function RuntimesAcquired(runtimes: Counts, e: Execution): Counts {
    var key := SemaphoreKey(e.profile);
    if key.Some? then Acquired(runtimes, key.value) else runtimes
  }

  function RuntimesReleased(runtimes: Counts, e: Execution): Counts {
    var key := SemaphoreKey(e.profile);
    if key.Some? then Released(runtimes, key.value) else runtimes
  }

  lemma MatchAfterStart(s: Setup, stages: Counts, runtimes: Counts, inFlight: seq<Execution>, e: Execution)
    requires StagesMatch(s, stages, inFlight) && RuntimesMatch(s, runtimes, inFlight)
    ensures StagesMatch(s, Acquired(stages, e.stage), inFlight + [e])
    ensures RuntimesMatch(s, RuntimesAcquired(runtimes, e), inFlight + [e])
  {
    forall stage
      ensures CountOf(Acquired(stages, e.stage), stage) == Tally(s, inFlight + [e], OfStage(stage))
    {
      TallyAppend(s, inFlight, e, OfStage(stage));
    }
    forall key
      ensures CountOf(RuntimesAcquired(runtimes, e), key) == Tally(s, inFlight + [e], OfKey(key))
    {
      TallyAppend(s, inFlight, e, OfKey(key));
    }
  }

  lemma PermitsTaken(s: Setup, w: World, e: Execution)
    requires PermitsAccounted(s, w) && Total(w.stages) < s.globalMax
    ensures PermitsAccounted(s, w.(stages := Acquired(w.stages, e.stage), runtimes := RuntimesAcquired(w.runtimes, e),
                                   inFlight := w.inFlight + [e]))
  {
    TotalAfterPut(w.stages, e.stage, CountOf(w.stages, e.stage) + 1);
    MatchAfterStart(s, w.stages, w.runtimes, w.inFlight, e);
  }

  /** A task in flight holds its permits, so releasing them never meets a zero count. */
  lemma ReleaseNeverClamps(s: Setup, w: World, i: nat)
    requires PermitsAccounted(s, w) && i < |w.inFlight|
    ensures CountOf(w.stages, w.inFlight[i].stage) >= 1
    ensures var key := SemaphoreKey(w.inFlight[i].profile); key.Some? ==> CountOf(w.runtimes, key.value) >= 1
  {
    var e := w.inFlight[i];
    TallyRemove(s, w.inFlight, i, OfStage(e.stage));
    assert CountOf(w.stages, e.stage) == Tally(s, w.inFlight, OfStage(e.stage));
    if SemaphoreKey(e.profile).Some? {
      var key := SemaphoreKey(e.profile).value;
      TallyRemove(s, w.inFlight, i, OfKey(key));
      assert CountOf(w.runtimes, key) == Tally(s, w.inFlight, OfKey(key));
    }
  }

  lemma MatchAfterFinish(s: Setup, w: World, i: nat)
    requires PermitsAccounted(s, w) && i < |w.inFlight|
    ensures var rest := w.inFlight[..i] + w.inFlight[i + 1..];
      && StagesMatch(s, Released(w.stages, w.inFlight[i].stage), rest)
      && RuntimesMatch(s, RuntimesReleased(w.runtimes, w.inFlight[i]), rest)
  {
    var e := w.inFlight[i];
    var rest := w.inFlight[..i] + w.inFlight[i + 1..];
    ReleaseNeverClamps(s, w, i);
    forall stage
      ensures CountOf(Released(w.stages, e.stage), stage) == Tally(s, rest, OfStage(stage))
    {
      TallyRemove(s, w.inFlight, i, OfStage(stage));
    }
    forall key
      ensures CountOf(RuntimesReleased(w.runtimes, e), key) == Tally(s, rest, OfKey(key))
    {
      TallyRemove(s, w.inFlight, i, OfKey(key));
    }
  }

  lemma PermitsGivenBack(s: Setup, w: World, i: nat)
    requires PermitsAccounted(s, w) && i < |w.inFlight|
    ensures PermitsAccounted(s, Finish(s, w, i))
  {
    var stage := w.inFlight[i].stage;
    ReleaseNeverClamps(s, w, i);
    TotalAfterPut(w.stages, stage, Max(0, CountOf(w.stages, stage) - 1));
    MatchAfterFinish(s, w, i);
  }

  lemma ReleaseUndoesAcquire(counts: Counts, stage: string)
    requires counts.Valid() && CountOf(counts, stage) >= 0
    ensures var after := Released(Acquired(counts, stage), stage);
      && after.Valid() && Total(after) == Total(counts)
      && forall name :: CountOf(after, name) == CountOf(counts, name)
  {
    hide Total;
    var acquired := Acquired(counts, stage);
    TotalAfterPut(counts, stage, CountOf(counts, stage) + 1);
    TotalAfterPut(acquired, stage, Max(0, CountOf(acquired, stage) - 1));
  }

  /** A start that gives up leaves every count as it was. */
  lemma GivingUpRestores(s: Setup, w: World, stage: string, c: Candidate)
    requires PermitsAccounted(s, w)
    requires TakePermits(s, w, stage, c).1 != Started
    ensures var after := TakePermits(s, w, stage, c).0;
      && (forall name :: CountOf(after.stages, name) == CountOf(w.stages, name))
      && after.runtimes == w.runtimes && after.inFlight == w.inFlight
      && PermitsAccounted(s, after)
  {
    hide Tally;
    assert CountOf(w.stages, stage) == Tally(s, w.inFlight, OfStage(stage));
    ReleaseUndoesAcquire(w.stages, stage);
    var after := TakePermits(s, w, stage, c).0;
    assert forall name :: CountOf(after.stages, name) == CountOf(w.stages, name);
    assert StagesMatch(s, after.stages, after.inFlight);
  }

  lemma StartedTakesPermits(s: Setup, w: World, stage: string, c: Candidate)
    requires PermitsAccounted(s, w)
    requires TakePermits(s, w, stage, c).1 == Started
    ensures PermitsAccounted(s, TakePermits(s, w, stage, c).0)
  {
    PermitsTaken(s, w, Execution(c.task, stage, c.profile));
  }

  lemma PermitsStayAccounted(s: Setup, w: World, e: Event)
    requires PermitsAccounted(s, w)
    ensures PermitsAccounted(s, Step(s, w, e))
  {
    if Enabled(s, w, e) {
      match e
      case Start(stage, c, spawned) =>
        if Admissible(s, w, c, spawned) {
          var claimed := w.(claims := ClaimFor(s, w, c.task));
          if TakePermits(s, claimed, stage, c).1 == Started {
            StartedTakesPermits(s, claimed, stage, c);
          } else {
            GivingUpRestores(s, claimed, stage, c);
          }
        }
      case Finished(i) => PermitsGivenBack(s, w, i);
      case Elsewhere(_, _, _) =>
    }
  }

  // ---- Claims ----

  /** Every claim of this coordinator belongs to a task in flight. */
  ghost predicate ClaimsBacked(s: Setup, w: World) {
    forall t :: t in w.claims && w.claims[t].owner == s.self ==> Tally(s, w.inFlight, OfTask(t)) >= 1
  }

  lemma ClaimsStayBacked(s: Setup, w: World, e: Event)
    requires ClaimsBacked(s, w)
    ensures ClaimsBacked(s, Step(s, w, e))
  {
    hide Tally;
    if Enabled(s, w, e) {
      var after := Step(s, w, e);
      match e
      case Start(stage, c, _) =>
        var x := Execution(c.task, stage, c.profile);
        forall t
          ensures Tally(s, w.inFlight + [x], OfTask(t)) == Tally(s, w.inFlight, OfTask(t)) + One(s, x, OfTask(t))
        {
          TallyAppend(s, w.inFlight, x, OfTask(t));
        }
      case Finished(i) =>
        forall t | t in after.claims && after.claims[t].owner == s.self
          ensures Tally(s, after.inFlight, OfTask(t)) >= 1
        {
          TallyRemove(s, w.inFlight, i, OfTask(t));
        }
      case Elsewhere(_, _, _) =>
    }
  }

  // ---- Protected endpoints ----

  ghost predicate EndpointsExclusive(s: Setup, w: World) {
    forall endpoint :: Tally(s, w.inFlight, OfKey(EndpointPrefix + endpoint)) <= 1
  }

  lemma PrefixesDiffer(endpoint: string, id: string)
    ensures EndpointPrefix + endpoint != ProfilePrefix + id
  {
    assert (EndpointPrefix + endpoint)[8] == 'e';
    assert (ProfilePrefix + id)[8] == 'p';
  }

  /** Only profiles of a protected endpoint have its key. */
  lemma KeyOfProtectedEndpoint(profile: Option<Profile>, endpoint: string)
    ensures SemaphoreKey(profile) == Some(EndpointPrefix + endpoint) <==>
            profile.Some? && profile.value.protectedEndpoint == Some(endpoint)
  {
    if profile.Some? {
      PrefixesDiffer(endpoint, profile.value.id);
      if profile.value.protectedEndpoint.Some? {
        var other := profile.value.protectedEndpoint.value;
        assert (EndpointPrefix + other)[|EndpointPrefix|..] == other;
        assert (EndpointPrefix + endpoint)[|EndpointPrefix|..] == endpoint;
      }
    }
  }

  lemma EndpointsStayExclusive(s: Setup, w: World, e: Event)
    requires PermitsAccounted(s, w) && EndpointsExclusive(s, w)
    ensures EndpointsExclusive(s, Step(s, w, e))
  {
    if Enabled(s, w, e) {
      forall endpoint
        ensures Tally(s, Step(s, w, e).inFlight, OfKey(EndpointPrefix + endpoint)) <= 1
      {
        EndpointStaysExclusive(s, w, e, endpoint);
      }
    }
  }

  lemma EndpointStaysExclusive(s: Setup, w: World, e: Event, endpoint: string)
    requires PermitsAccounted(s, w) && EndpointsExclusive(s, w) && Enabled(s, w, e)
    ensures Tally(s, Step(s, w, e).inFlight, OfKey(EndpointPrefix + endpoint)) <= 1
  {
    var kind := OfKey(EndpointPrefix + endpoint);
    assert Tally(s, w.inFlight, kind) <= 1;
    match e
    case Start(stage, c, _) =>
      var x := Execution(c.task, stage, c.profile);
      TallyAppend(s, w.inFlight, x, kind);
      KeyOfProtectedEndpoint(c.profile, endpoint);
      assert CountOf(w.runtimes, EndpointPrefix + endpoint) == Tally(s, w.inFlight, kind);
    case Finished(i) => TallyRemove(s, w.inFlight, i, kind);
    case Elsewhere(_, _, _) =>
  }

  // ---- All runs ----

  ghost predicate Sound(s: Setup, w: World) {
    PermitsAccounted(s, w) && ClaimsBacked(s, w) && EndpointsExclusive(s, w)
  }

  /** A coordinator that just started: nothing in flight, no permits, no claims of its own. */
  ghost predicate Initial(s: Setup, w: World) {
    && w.stages == Empty() && w.runtimes == Empty() && w.inFlight == []
    && forall t :: t in w.claims ==> w.claims[t].owner != s.self
  }

  /**
    In every reachable state the permits are exactly those of the tasks in flight, there are never more
    than the global maximum, no claim is left behind, and a protected endpoint has one user at most.
   */
  lemma {:induction false} ReachableIsSound(s: Setup, w: World, events: seq<Event>)
    requires Initial(s, w)
    ensures Sound(s, WorldAfter(s, w, events))
    decreases |events|
  {
    if events != [] {
      var before := WorldAfter(s, w, events[..|events| - 1]);
      var e := events[|events| - 1];
      ReachableIsSound(s, w, events[..|events| - 1]);
      PermitsStayAccounted(s, before, e);
      ClaimsStayBacked(s, before, e);
      EndpointsStayExclusive(s, before, e);
    }
  }

  /** Once nothing is in flight any more, every permit and every claim has been given back. */
  lemma QuietMeansClean(s: Setup, w: World, events: seq<Event>)
    requires Initial(s, w)
    requires WorldAfter(s, w, events).inFlight == []
    ensures forall name ::
              CountOf(WorldAfter(s, w, events).stages, name) == 0 &&
              CountOf(WorldAfter(s, w, events).runtimes, name) == 0
    ensures forall t :: t in WorldAfter(s, w, events).claims ==>
              WorldAfter(s, w, events).claims[t].owner != s.self
  {
    var after := WorldAfter(s, w, events);
    ReachableIsSound(s, w, events);
    forall kind: Kind
      ensures Tally(s, after.inFlight, kind) == 0
    {
    }
  }
}
