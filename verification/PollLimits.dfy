/**
  What lets a candidate start, over the tasks in flight and the claims, and how many tasks a runtime profile can
  have in flight in any reachable state (packages/agent/src/coordinator.ts:602-664, 5712-5974).
 */
module PollLimits {
  import opened Collections
  import opened Semaphores
  import opened PollCycle
  import opened PollInvariants
  import opened SerialProjects

  // ---- Keys ----

  /** Only profiles with that id and without a protected endpoint have its key; a blank id has none. */
  lemma KeyOfProfile(profile: Option<Profile>, id: string)
    ensures SemaphoreKey(profile) == Some(ProfilePrefix + id) <==>
            profile.Some? && profile.value.protectedEndpoint.None? && profile.value.id == id && id != ""
  {
    if profile.Some? {
      assert (ProfilePrefix + id)[|ProfilePrefix|..] == id;
      if profile.value.protectedEndpoint.Some? {
        PrefixesDiffer(profile.value.protectedEndpoint.value, id);
      } else {
        assert (ProfilePrefix + profile.value.id)[|ProfilePrefix|..] == profile.value.id;
      }
    }
  }

  /** A task in flight runs on an ordinary profile with the id. */
  predicate RunsOn(e: Execution, id: string) {
    e.profile.Some? && e.profile.value.protectedEndpoint.None? && e.profile.value.id == id && id != ""
  }

  predicate RunsAt(e: Execution, endpoint: string) {
    e.profile.Some? && e.profile.value.protectedEndpoint == Some(endpoint)
  }

  function CountWhere(inFlight: seq<Execution>, counts: Execution -> bool): nat {
    |Filter(inFlight, counts)|
  }

  lemma {:induction false} TallyIsCount(s: Setup, inFlight: seq<Execution>, kind: Kind, counts: Execution -> bool)
    requires forall e :: counts(e) <==> Has(s, e, kind)
    ensures Tally(s, inFlight, kind) == CountWhere(inFlight, counts)
  {
    if inFlight != [] {
      TallyIsCount(s, inFlight[1..], kind, counts);
    }
  }

  function OnProfile(inFlight: seq<Execution>, id: string): nat {
    CountWhere(inFlight, (e: Execution) => RunsOn(e, id))
  }

  function AtEndpoint(inFlight: seq<Execution>, endpoint: string): nat {
    CountWhere(inFlight, (e: Execution) => RunsAt(e, endpoint))
  }

  lemma ProfileTally(s: Setup, inFlight: seq<Execution>, id: string)
    ensures Tally(s, inFlight, OfKey(ProfilePrefix + id)) == OnProfile(inFlight, id)
  {
    forall e: Execution
      ensures RunsOn(e, id) <==> Has(s, e, OfKey(ProfilePrefix + id))
    {
      KeyOfProfile(e.profile, id);
    }
    TallyIsCount(s, inFlight, OfKey(ProfilePrefix + id), (e: Execution) => RunsOn(e, id));
  }

  lemma EndpointTally(s: Setup, inFlight: seq<Execution>, endpoint: string)
    ensures Tally(s, inFlight, OfKey(EndpointPrefix + endpoint)) == AtEndpoint(inFlight, endpoint)
  {
    forall e: Execution
      ensures RunsAt(e, endpoint) <==> Has(s, e, OfKey(EndpointPrefix + endpoint))
    {
      KeyOfProtectedEndpoint(e.profile, endpoint);
    }
    TallyIsCount(s, inFlight, OfKey(EndpointPrefix + endpoint), (e: Execution) => RunsAt(e, endpoint));
  }

  // ---- When a candidate starts ----

  /** Room on the runtime profile: an endpoint serves one task, a configured limit counts, a local agent runs one. */
  ghost predicate RuntimeHasRoom(inFlight: seq<Execution>, profile: Option<Profile>) {
    && (forall p, endpoint :: profile == Some(p) && p.protectedEndpoint == Some(endpoint) ==>
          AtEndpoint(inFlight, endpoint) == 0)
    && (forall p :: profile == Some(p) && p.protectedEndpoint.None? && p.id != "" ==>
          && (forall n :: p.configured == Some(n) ==>
                OnProfile(inFlight, p.id) < n || OnProfile(inFlight, p.id) == 0)
          && (p.configured.None? && p.qwenLocal ==> OnProfile(inFlight, p.id) == 0))
  }

  /** Nothing but the permits stands in the way: the project, the gates and the claims. */
  ghost predicate MayBeClaimed(s: Setup, w: World, c: Candidate, spawned: nat) {
    && (if c.parallel then spawned < s.globalMax
        else spawned == 0 && forall t :: t in w.claims && s.projectOf(t) == s.projectOf(c.task) ==>
               w.claims[t].until <= w.now)
    && !c.gated && c.task !in w.containers
    && (c.task in w.claims ==> w.claims[c.task].until <= w.now)
    && RuntimeHasRoom(w.inFlight, c.profile)
  }

  lemma RoomIff(s: Setup, w: World, profile: Option<Profile>)
    requires PermitsAccounted(s, w) && |w.inFlight| < s.globalMax
    ensures var key := SemaphoreKey(profile);
      (key.Some? ==> Available(w.runtimes, key.value, Concurrency(profile, s.globalMax)) > 0) <==>
      RuntimeHasRoom(w.inFlight, profile)
  {
    var key := SemaphoreKey(profile);
    if key.Some? {
      assert CountOf(w.runtimes, key.value) == Tally(s, w.inFlight, OfKey(key.value));
      TallyAtMost(s, w.inFlight, OfKey(key.value));
      if profile.value.protectedEndpoint.Some? {
        EndpointTally(s, w.inFlight, profile.value.protectedEndpoint.value);
      } else {
        ProfileTally(s, w.inFlight, profile.value.id);
      }
    }
  }

  /**
    A candidate starts exactly when there is room for one more task, on its runtime profile too, it may be claimed, no
    gate turns it away, and its project takes one more: any number of tasks up to the maximum if it is parallel, and
    otherwise the first in this pass with no unexpired claim in the project.
   */
  lemma StartsIff(s: Setup, w: World, stage: string, c: Candidate, spawned: nat)
    requires PermitsAccounted(s, w)
    ensures TryStart(s, w, stage, c, spawned).1 == Started <==>
            MayBeClaimed(s, w, c, spawned) && |w.inFlight| < s.globalMax
    ensures TryStart(s, w, stage, c, spawned).1 == StageFull ==> |w.inFlight| >= s.globalMax
  {
    TallyAtMost(s, w.inFlight, OfStage(stage));
    assert CountOf(w.stages, stage) == Tally(s, w.inFlight, OfStage(stage));
    if |w.inFlight| < s.globalMax {
      RoomIff(s, w, c.profile);
    }
  }

  /** Nothing happens between finding room on the runtime profile and taking it. */
  lemma AdmittedIsNotSkipped(s: Setup, w: World, stage: string, c: Candidate, spawned: nat)
    requires PermitsAccounted(s, w) && Admissible(s, w, c, spawned)
    ensures TakePermits(s, w.(claims := ClaimFor(s, w, c.task)), stage, c).1 != Skipped
  {
  }

  lemma ClaimGivenBack(s: Setup, w: World, task: int)
    ensures ReleaseClaim(s, ClaimFor(s, w, task), task) == w.claims - {task}
  {
  }

  /** A start leaves the task in flight under this coordinator's claim; a candidate that is skipped leaves nothing. */
  lemma StartEffect(s: Setup, w: World, stage: string, c: Candidate, spawned: nat)
    requires PermitsAccounted(s, w)
    ensures var (after, result) := TryStart(s, w, stage, c, spawned);
      && after.containers == w.containers && after.now == w.now
      && (result == Started ==>
            && after.inFlight == w.inFlight + [Execution(c.task, stage, c.profile)]
            && after.claims == w.claims[c.task := Claim(s.self, w.now + s.lockDuration)])
      && (result == Skipped ==> after == w)
      && (result == StageFull ==>
            && after.inFlight == w.inFlight && after.runtimes == w.runtimes && after.stages == w.stages
            && after.claims == w.claims - {c.task})
  {
    if Admissible(s, w, c, spawned) {
      AdmittedIsNotSkipped(s, w, stage, c, spawned);
    }
    ClaimGivenBack(s, w, c.task);
    hide Admissible, Total, PermitsAccounted, Concurrency, ReleaseClaim, CountOf, Acquired, Released;
  }

  /** A task that ends takes its own place and its own claim with it, and nothing else. */
  lemma FinishEffect(s: Setup, w: World, i: nat)
    requires PermitsAccounted(s, w) && i < |w.inFlight|
    ensures var after := Finish(s, w, i); var task := w.inFlight[i].task;
      && after.inFlight == w.inFlight[..i] + w.inFlight[i + 1..]
      && (forall t :: t != task ==> (t in after.claims <==> t in w.claims))
      && (forall t :: t in after.claims ==> after.claims[t] == w.claims[t])
      && (task in after.claims <==> task in w.claims && w.claims[task].owner != s.self)
      && after.containers == w.containers && after.now == w.now
  {
  }

  // ---- How many tasks a profile has in flight ----

  /** The starts of the events that run on the profile find it limited to at most n tasks. */
  ghost predicate LimitedStarts(s: Setup, events: seq<Event>, key: string, n: nat) {
    forall e :: e in events && e.Start? && SemaphoreKey(e.candidate.profile) == Some(key) ==>
      Concurrency(e.candidate.profile, s.globalMax) <= n
  }

  lemma {:induction false} KeyStaysLimited(s: Setup, w: World, events: seq<Event>, key: string, n: nat)
    requires Initial(s, w) && LimitedStarts(s, events, key, n)
    ensures Tally(s, WorldAfter(s, w, events).inFlight, OfKey(key)) <= n
    decreases |events|
  {
    if events != [] {
      var before := WorldAfter(s, w, events[..|events| - 1]);
      var e := events[|events| - 1];
      assert e in events;
      KeyStaysLimited(s, w, events[..|events| - 1], key, n);
      ReachableIsSound(s, w, events[..|events| - 1]);
      StepStaysLimited(s, before, e, key, n);
    }
  }

  lemma StepStaysLimited(s: Setup, w: World, e: Event, key: string, n: nat)
    requires PermitsAccounted(s, w) && Tally(s, w.inFlight, OfKey(key)) <= n
    requires e.Start? && SemaphoreKey(e.candidate.profile) == Some(key) ==>
               Concurrency(e.candidate.profile, s.globalMax) <= n
    ensures Tally(s, Step(s, w, e).inFlight, OfKey(key)) <= n
  {
    match e
    case Start(stage, c, _) =>
      TallyAppend(s, w.inFlight, Execution(c.task, stage, c.profile), OfKey(key));
      assert CountOf(w.runtimes, key) == Tally(s, w.inFlight, OfKey(key));
    case Finished(i) =>
      if i < |w.inFlight| {
        TallyRemove(s, w.inFlight, i, OfKey(key));
      }
    case Elsewhere(_, _, _) =>
  }

  /** Every start on the profile finds this setting. */
  ghost predicate SettingStays(events: seq<Event>, id: string, configured: Option<int>, qwenLocal: bool) {
    forall e, p :: e in events && e.Start? && e.candidate.profile == Some(p) && p.protectedEndpoint.None? && p.id == id ==>
      p.configured == configured && p.qwenLocal == qwenLocal
  }

  /**
    In every reachable state an ordinary profile whose setting stays the same has at most as many tasks in flight
    as it is configured for, never more than the global maximum but always room for one; without a configured
    number a local agent has at most one.
   */
  lemma ProfileLimitHolds(s: Setup, w: World, events: seq<Event>, id: string, configured: Option<int>, qwenLocal: bool)
    requires Initial(s, w) && SettingStays(events, id, configured, qwenLocal)
    ensures var running := OnProfile(WorldAfter(s, w, events).inFlight, id);
      && running <= Max(0, s.globalMax)
      && (forall n :: configured == Some(n) ==> running <= Max(1, n))
      && (configured.None? && qwenLocal ==> running <= 1)
  {
    var key := ProfilePrefix + id;
    var after := WorldAfter(s, w, events);
    ReachableIsSound(s, w, events);
    TallyAtMost(s, after.inFlight, OfKey(key));
    ProfileTally(s, after.inFlight, id);
    var n := if configured.Some? then Max(1, Min(configured.value, s.globalMax))
             else if qwenLocal then 1 else Max(0, s.globalMax);
    forall e | e in events && e.Start? && SemaphoreKey(e.candidate.profile) == Some(key)
      ensures Concurrency(e.candidate.profile, s.globalMax) <= n
    {
      KeyOfProfile(e.candidate.profile, id);
      assert e.candidate.profile == Some(e.candidate.profile.value);
    }
    KeyStaysLimited(s, w, events, key, n);
  }

  /** A protected endpoint has at most one task in flight, whichever profiles reach it. */
  lemma EndpointHasOneTask(s: Setup, w: World, events: seq<Event>, endpoint: string)
    requires Initial(s, w)
    ensures AtEndpoint(WorldAfter(s, w, events).inFlight, endpoint) <= 1
  {
    ReachableIsSound(s, w, events);
    EndpointTally(s, WorldAfter(s, w, events).inFlight, endpoint);
  }
}
