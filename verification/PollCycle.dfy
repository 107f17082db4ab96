/**
  Overlapping poll cycles (packages/agent/src/coordinator.ts:602-664, 5712-5974 and the task claims of
  packages/data/src/index.ts:4614-4949).

  Cycles interleave only where the source awaits: a candidate is started in one step, its completion is
  another, and anything the database sees from elsewhere happens in between.
 */
module PollCycle {
  import opened Collections
  import opened InsertionMap
  import opened Semaphores

  datatype Profile = Profile(id: string, protectedEndpoint: Option<string>, configured: Option<int>, qwenLocal: bool)

  const EndpointPrefix := "runtime-endpoint:"
  const ProfilePrefix := "runtime-profile:"

  /** Profiles that talk to the same protected endpoint share one key. */
  function SemaphoreKey(profile: Option<Profile>): Option<string> {
    if profile.None? then None
    else if profile.value.protectedEndpoint.Some? then Some(EndpointPrefix + profile.value.protectedEndpoint.value)
    else if profile.value.id == "" then None
    else Some(ProfilePrefix + profile.value.id)
  }

  function Concurrency(profile: Option<Profile>, globalMax: int): int {
    if profile.None? then globalMax
    else if profile.value.protectedEndpoint.Some? then 1
    else if profile.value.configured.Some? then Max(1, Min(profile.value.configured.value, globalMax))
    else if profile.value.qwenLocal then 1
    else globalMax
  }

  /** One spawned task; it holds a claim, a stage permit and, with a key, a runtime permit. */
  datatype Execution = Execution(task: int, stage: string, profile: Option<Profile>)

  datatype Claim = Claim(owner: string, until: int)

  /** What stays fixed: who this coordinator is, its limits, and the project of each task. */
  datatype Setup = Setup(self: string, globalMax: int, lockDuration: int, projectOf: int -> string)

  /** containers: the tasks whose hierarchy role is container. */
  datatype World = World(
    stages: Counts, runtimes: Counts, claims: map<int, Claim>, containers: set<int>, inFlight: seq<Execution>,
    now: int)

  /** gated: a budget, routing or runtime-limit check turned the candidate away. */
  datatype Candidate = Candidate(task: int, parallel: bool, gated: bool, profile: Option<Profile>)

  datatype StartResult = Started | Skipped | StageFull

  // ---- Claims ----

  predicate Claimable(w: World, task: int) {
    task !in w.containers && (task in w.claims ==> w.claims[task].until <= w.now)
  }

  predicate HasActiveLock(s: Setup, w: World, project: string) {
    exists t :: t in w.claims && s.projectOf(t) == project && w.claims[t].until > w.now
  }

  function ReleaseClaim(s: Setup, claims: map<int, Claim>, task: int): map<int, Claim> {
    if task in claims && claims[task].owner == s.self then claims - {task} else claims
  }

  function ClaimFor(s: Setup, w: World, task: int): map<int, Claim> {
    w.claims[task := Claim(s.self, w.now + s.lockDuration)]
  }

  // ---- Starting and finishing, on values ----

  /** Whether the candidate gets as far as being claimed. */
  predicate Admissible(s: Setup, w: World, c: Candidate, spawnedInProject: nat) {
    var key := SemaphoreKey(c.profile);
    && spawnedInProject < (if c.parallel then s.globalMax else 1)
    && (c.parallel || !HasActiveLock(s, w, s.projectOf(c.task)))
    && !c.gated
    && (key.Some? ==> Available(w.runtimes, key.value, Concurrency(c.profile, s.globalMax)) > 0)
    && Claimable(w, c.task)
  }

  /** The candidate is claimed: take the permits, or give everything back. */
  ghost function TakePermits(s: Setup, w: World, stage: string, c: Candidate): (World, StartResult)
    requires w.stages.Valid()
  {
    var key := SemaphoreKey(c.profile);
    var unclaimed := w.(claims := ReleaseClaim(s, w.claims, c.task));
    if Total(w.stages) >= s.globalMax || CountOf(w.stages, stage) >= s.globalMax then (unclaimed, StageFull)
    else if key.Some? && CountOf(w.runtimes, key.value) >= Concurrency(c.profile, s.globalMax) then
      (unclaimed.(stages := Released(Acquired(w.stages, stage), stage)), Skipped)
    else
      (w.(stages := Acquired(w.stages, stage),
          runtimes := if key.Some? then Acquired(w.runtimes, key.value) else w.runtimes,
          inFlight := w.inFlight + [Execution(c.task, stage, c.profile)]), Started)
  }

  ghost function TryStart(s: Setup, w: World, stage: string, c: Candidate, spawnedInProject: nat)
    : (World, StartResult)
    requires w.stages.Valid()
  {
    if !Admissible(s, w, c, spawnedInProject) then (w, Skipped)
    else TakePermits(s, w.(claims := ClaimFor(s, w, c.task)), stage, c)
  }

  function Finish(s: Setup, w: World, i: nat): World
    requires i < |w.inFlight|
  {
    var e := w.inFlight[i];
    var key := SemaphoreKey(e.profile);
    w.(stages := Released(w.stages, e.stage),
       runtimes := if key.Some? then Released(w.runtimes, key.value) else w.runtimes,
       claims := ReleaseClaim(s, w.claims, e.task),
       inFlight := w.inFlight[..i] + w.inFlight[i + 1..])
  }

  // ---- Runs ----

  /** Elsewhere: time passes, claims lapse, are renewed or released, others claim tasks or change their roles. */
  datatype Event =
    | Start(stage: string, candidate: Candidate, spawnedInProject: nat)
    | Finished(index: nat)
    | Elsewhere(claims: map<int, Claim>, containers: set<int>, now: int)

  ghost predicate Enabled(s: Setup, w: World, e: Event) {
    match e
    case Start(_, _, _) => w.stages.Valid()
    case Finished(i) => i < |w.inFlight|
    case Elsewhere(claims, _, now) =>
      && w.now <= now
      && forall t :: t in claims && claims[t].owner == s.self ==> t in w.claims && w.claims[t].owner == s.self
  }

  /** An event that is not enabled changes nothing. */
  ghost function Step(s: Setup, w: World, e: Event): World {
    if !Enabled(s, w, e) then w
    else match e
      case Start(stage, c, spawned) => TryStart(s, w, stage, c, spawned).0
      case Finished(i) => Finish(s, w, i)
      case Elsewhere(claims, containers, now) => w.(claims := claims, containers := containers, now := now)
  }

  ghost function WorldAfter(s: Setup, w: World, events: seq<Event>): World
    decreases |events|
  {
    if events == [] then w else Step(s, WorldAfter(s, w, events[..|events| - 1]), events[|events| - 1])
  }

  ghost function ResultOf(s: Setup, w: World, e: Event): StartResult {
    if e.Start? && w.stages.Valid() then TryStart(s, w, e.stage, e.candidate, e.spawnedInProject).1 else Skipped
  }

  /** The tasks of the project that the events started. */
  ghost function StartedInProject(s: Setup, w: World, events: seq<Event>, project: string): nat
    decreases |events|
  {
    if events == [] then 0
    else
      var before := events[..|events| - 1];
      var e := events[|events| - 1];
      StartedInProject(s, w, before, project) +
      if e.Start? && s.projectOf(e.candidate.task) == project && ResultOf(s, WorldAfter(s, w, before), e) == Started
      then 1 else 0
  }

  /** The events start the candidates one after the other, each with its project's starts so far. */
  ghost predicate StartsInOrder(s: Setup, w: World, stage: string, candidates: seq<Candidate>, events: seq<Event>)
    decreases |events|
  {
    && |events| <= |candidates|
    && (events == [] ||
        (var before := events[..|events| - 1];
         var c := candidates[|events| - 1];
         && StartsInOrder(s, w, stage, candidates, before)
         && events[|events| - 1] == Start(stage, c, StartedInProject(s, w, before, s.projectOf(c.task)))))
  }

  lemma WorldAfterMore(s: Setup, w: World, events: seq<Event>, e: Event)
    ensures WorldAfter(s, w, events + [e]) == Step(s, WorldAfter(s, w, events), e)
  {
    assert (events + [e])[..|events + [e]| - 1] == events;
  }

  lemma StartedMore(s: Setup, w: World, events: seq<Event>, stage: string, c: Candidate, spawned: nat, project: string)
    ensures StartedInProject(s, w, events + [Start(stage, c, spawned)], project) ==
            StartedInProject(s, w, events, project) +
            if s.projectOf(c.task) == project &&
               ResultOf(s, WorldAfter(s, w, events), Start(stage, c, spawned)) == Started then 1 else 0
  {
    var longer := events + [Start(stage, c, spawned)];
    assert longer[..|longer| - 1] == events;
  }

  lemma StartNext(s: Setup, w: World, stage: string, candidates: seq<Candidate>, events: seq<Event>, spawned: nat)
    requires StartsInOrder(s, w, stage, candidates, events) && |events| < |candidates|
    requires spawned == StartedInProject(s, w, events, s.projectOf(candidates[|events|].task))
    ensures StartsInOrder(s, w, stage, candidates, events + [Start(stage, candidates[|events|], spawned)])
  {
    var longer := events + [Start(stage, candidates[|events|], spawned)];
    assert longer[..|longer| - 1] == events;
  }

  /** The project's count is the number of its tasks that the events started. */
  ghost predicate CountIs(s: Setup, w: World, events: seq<Event>, counts: map<string, nat>, project: string) {
    StartedInProject(s, w, events, project) == if project in counts then counts[project] else 0
  }

  ghost predicate CountsStarts(s: Setup, w: World, events: seq<Event>, counts: map<string, nat>) {
    forall p :: CountIs(s, w, events, counts, p)
  }

  lemma CountNext(s: Setup, w: World, events: seq<Event>, counts: map<string, nat>, stage: string, c: Candidate,
                  spawned: nat, result: StartResult, project: string)
    requires CountIs(s, w, events, counts, project)
    requires spawned == if s.projectOf(c.task) in counts then counts[s.projectOf(c.task)] else 0
    requires result == ResultOf(s, WorldAfter(s, w, events), Start(stage, c, spawned))
    ensures CountIs(s, w, events + [Start(stage, c, spawned)],
                    if result == Started then counts[s.projectOf(c.task) := spawned + 1] else counts, project)
  {
    StartedMore(s, w, events, stage, c, spawned, project);
  }

  lemma CountsNext(s: Setup, w: World, events: seq<Event>, counts: map<string, nat>, stage: string, c: Candidate,
                   spawned: nat, result: StartResult)
    requires CountsStarts(s, w, events, counts)
    requires spawned == if s.projectOf(c.task) in counts then counts[s.projectOf(c.task)] else 0
    requires result == ResultOf(s, WorldAfter(s, w, events), Start(stage, c, spawned))
    ensures CountsStarts(s, w, events + [Start(stage, c, spawned)],
                         if result == Started then counts[s.projectOf(c.task) := spawned + 1] else counts)
  {
    var next := if result == Started then counts[s.projectOf(c.task) := spawned + 1] else counts;
    forall p
      ensures CountIs(s, w, events + [Start(stage, c, spawned)], next, p)
    {
      assert CountIs(s, w, events, counts, p);
      CountNext(s, w, events, counts, stage, c, spawned, result, p);
    }
  }

  // ---- The coordinator ----

  class Coordinator {
    const setup: Setup
    const stageSemaphore: StageSemaphore
    const runtimeProfileSemaphore: StageSemaphore
    var claims: map<int, Claim>
    var containers: set<int>
    var inFlight: seq<Execution>
    var now: int

    ghost predicate Valid()
      reads this, stageSemaphore, runtimeProfileSemaphore
    {
      stageSemaphore != runtimeProfileSemaphore && stageSemaphore.counts.Valid()
    }

    function Value(): World
      reads this, stageSemaphore, runtimeProfileSemaphore
    {
      World(stageSemaphore.counts, runtimeProfileSemaphore.counts, claims, containers, inFlight, now)
    }

    constructor (s: Setup)
      ensures Valid() && setup == s
      ensures Value() == World(Empty(), Empty(), map[], {}, [], 0)
      ensures fresh(stageSemaphore) && fresh(runtimeProfileSemaphore)
    {
      setup := s;
      var first := new StageSemaphore();
      var second := new StageSemaphore();
      stageSemaphore, runtimeProfileSemaphore := first, second;
      claims, containers, inFlight, now := map[], {}, [], 0;
    }

    method ClaimTask(task: int) returns (claimed: bool)
      modifies this`claims
      ensures claimed == Claimable(old(Value()), task)
      ensures claims == if claimed then ClaimFor(setup, old(Value()), task) else old(claims)
    {
      if task in containers || (task in claims && claims[task].until > now) {
        return false;
      }
      claims := claims[task := Claim(setup.self, now + setup.lockDuration)];
      return true;
    }

    method ReleaseTaskClaim(task: int)
      modifies this`claims
      ensures claims == ReleaseClaim(setup, old(claims), task)
    {
      if task in claims && claims[task].owner == setup.self {
        claims := claims - {task};
      }
    }

    method TryStartTask(stage: string, c: Candidate, spawnedInProject: nat) returns (result: StartResult)
      requires Valid()
      modifies this`claims, this`inFlight, stageSemaphore, runtimeProfileSemaphore
      ensures Valid()
      ensures (Value(), result) == TryStart(setup, old(Value()), stage, c, spawnedInProject)
    {
      var before := Value();
      if spawnedInProject >= (if c.parallel then setup.globalMax else 1) {
        return Skipped;
      }
      if !c.parallel && HasActiveLock(setup, before, setup.projectOf(c.task)) {
        return Skipped;
      }
      if c.gated {
        return Skipped;
      }
      var key := SemaphoreKey(c.profile);
      if key.Some? &&
         Available(runtimeProfileSemaphore.counts, key.value, Concurrency(c.profile, setup.globalMax)) <= 0 {
        return Skipped;
      }
      var claimed := ClaimTask(c.task);
      if !claimed {
        return Skipped;
      }
      assert Admissible(setup, before, c, spawnedInProject);
      result := StartClaimed(stage, c);
    }

    method StartClaimed(stage: string, c: Candidate) returns (result: StartResult)
      requires Valid()
      modifies this`claims, this`inFlight, stageSemaphore, runtimeProfileSemaphore
      ensures Valid()
      ensures (Value(), result) == TakePermits(setup, old(Value()), stage, c)
    {
      var before := Value();
      var key := SemaphoreKey(c.profile);
      TotalAfterPut(before.stages, stage, CountOf(before.stages, stage) + 1);
      var total := stageSemaphore.TotalActive();
      var permitted := false;
      if total < setup.globalMax {
        permitted := stageSemaphore.TryAcquire(stage, setup.globalMax);
      }
      if !permitted {
        ReleaseTaskClaim(c.task);
        return StageFull;
      }
      if key.Some? {
        var acquired := runtimeProfileSemaphore.TryAcquire(key.value, Concurrency(c.profile, setup.globalMax));
        if !acquired {
          TotalAfterPut(Acquired(before.stages, stage), stage, CountOf(before.stages, stage));
          stageSemaphore.Release(stage);
          ReleaseTaskClaim(c.task);
          return Skipped;
        }
      }
      inFlight := inFlight + [Execution(c.task, stage, c.profile)];
      return Started;
    }

    method FinishTask(i: nat)
      requires Valid() && i < |inFlight|
      modifies this`claims, this`inFlight, stageSemaphore, runtimeProfileSemaphore
      ensures Valid()
      ensures Value() == Finish(setup, old(Value()), i)
    {
      var e := inFlight[i];
      TotalAfterPut(stageSemaphore.counts, e.stage, Max(0, CountOf(stageSemaphore.counts, e.stage) - 1));
      stageSemaphore.Release(e.stage);
      var key := SemaphoreKey(e.profile);
      if key.Some? {
        runtimeProfileSemaphore.Release(key.value);
      }
      ReleaseTaskClaim(e.task);
      inFlight := inFlight[..i] + inFlight[i + 1..];
    }

    /** One stage of a poll cycle: start candidates in order until a permit is refused. */
    method RunStage(stage: string, candidates: seq<Candidate>) returns (ghost events: seq<Event>)
      requires Valid()
      modifies this`claims, this`inFlight, stageSemaphore, runtimeProfileSemaphore
      ensures Valid()
      ensures StartsInOrder(setup, old(Value()), stage, candidates, events)
      ensures |events| < |candidates| ==>
                events != [] &&
                ResultOf(setup, WorldAfter(setup, old(Value()), events[..|events| - 1]), events[|events| - 1])
                == StageFull
      ensures Value() == WorldAfter(setup, old(Value()), events)
    {
      var projectSpawnCount: map<string, nat> := map[];
      ghost var start := Value();
      events := [];
      for i := 0 to |candidates|
        invariant Valid()
        invariant |events| == i
        invariant StartsInOrder(setup, start, stage, candidates, events)
        invariant Value() == WorldAfter(setup, start, events)
        invariant CountsStarts(setup, start, events, projectSpawnCount)
      {
        var project := setup.projectOf(candidates[i].task);
        var count := if project in projectSpawnCount then projectSpawnCount[project] else 0;
        assert CountIs(setup, start, events, projectSpawnCount, project);
        ghost var before := Value();
        var result := TryStartTask(stage, candidates[i], count);
        ghost var e := Start(stage, candidates[i], count);
        assert Value() == Step(setup, before, e) && result == ResultOf(setup, before, e);
        WorldAfterMore(setup, start, events, e);
        StartNext(setup, start, stage, candidates, events, count);
        CountsNext(setup, start, events, projectSpawnCount, stage, candidates[i], count, result);
        assert (events + [e])[..|events|] == events;
        events := events + [e];
        if result == Started {
          projectSpawnCount := projectSpawnCount[project := count + 1];
        }
        if result == StageFull {
          return;
        }
      }
    }
  }
}
