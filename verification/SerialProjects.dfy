/**
  When a project whose setting stays serial has at most one task in flight: exactly when every start that
  finds one finds the project locked as well.
 */
module SerialProjects {
  import opened Collections
  import opened InsertionMap
  import opened Semaphores
  import opened PollCycle
  import opened PollInvariants

  // ---- One start ----

  /** Everything but the project's lock lets a serial candidate through, and there is room for it. */
  ghost predicate Ready(s: Setup, w: World, c: Candidate, spawnedInProject: nat)
    requires w.stages.Valid()
  {
    var key := SemaphoreKey(c.profile);
    && spawnedInProject == 0 && !c.gated && Claimable(w, c.task)
    && (key.Some? ==> Available(w.runtimes, key.value, Concurrency(c.profile, s.globalMax)) > 0)
    && Total(w.stages) < s.globalMax
  }

  lemma {:induction false} TallyAtMost(s: Setup, inFlight: seq<Execution>, kind: Kind)
    ensures Tally(s, inFlight, kind) <= |inFlight|
  {
    if inFlight != [] {
      TallyAtMost(s, inFlight[1..], kind);
    }
  }

  /** A serial candidate starts exactly when it is ready and nothing in its project is locked. */
  lemma SerialStartsIff(s: Setup, w: World, stage: string, c: Candidate, spawned: nat)
    requires PermitsAccounted(s, w) && !c.parallel
    ensures TryStart(s, w, stage, c, spawned).1 == Started <==>
            Ready(s, w, c, spawned) && !HasActiveLock(s, w, s.projectOf(c.task))
  {
    TallyAtMost(s, w.inFlight, OfStage(stage));
    assert CountOf(w.stages, stage) == Tally(s, w.inFlight, OfStage(stage));
  }

  /** A start of the project that finds a task in flight, is ready, and finds nothing in the project locked. */
  ghost predicate UnlockedStart(s: Setup, w: World, e: Event, project: string) {
    && e.Start? && w.stages.Valid() && s.projectOf(e.candidate.task) == project
    && Tally(s, w.inFlight, OfProject(project)) >= 1
    && Ready(s, w, e.candidate, e.spawnedInProject) && !HasActiveLock(s, w, project)
  }

  ghost predicate IsSerial(s: Setup, e: Event, project: string) {
    e.Start? && s.projectOf(e.candidate.task) == project ==> !e.candidate.parallel
  }

  lemma StartTally(s: Setup, w: World, stage: string, c: Candidate, spawned: nat, project: string)
    requires PermitsAccounted(s, w)
    ensures Tally(s, TryStart(s, w, stage, c, spawned).0.inFlight, OfProject(project)) ==
            Tally(s, w.inFlight, OfProject(project)) +
            if TryStart(s, w, stage, c, spawned).1 == Started && s.projectOf(c.task) == project then 1 else 0
  {
    TallyAppend(s, w.inFlight, Execution(c.task, stage, c.profile), OfProject(project));
  }

  /** From at most one task of the project, a step leads to a second one exactly when it is an unlocked start. */
  lemma SecondTaskIff(s: Setup, w: World, e: Event, project: string)
    requires PermitsAccounted(s, w) && IsSerial(s, e, project)
    requires Tally(s, w.inFlight, OfProject(project)) <= 1
    ensures Tally(s, Step(s, w, e).inFlight, OfProject(project)) <= 1 <==> !UnlockedStart(s, w, e, project)
  {
    match e
    case Start(stage, c, spawned) =>
      StartTally(s, w, stage, c, spawned, project);
      if s.projectOf(c.task) == project {
        SerialStartsIff(s, w, stage, c, spawned);
      }
    case Finished(i) =>
      if i < |w.inFlight| {
        TallyRemove(s, w.inFlight, i, OfProject(project));
      }
    case Elsewhere(_, _, _) =>
  }

  // ---- Whole runs ----

  ghost predicate OneTask(s: Setup, w: World, events: seq<Event>, n: nat, project: string)
    requires n <= |events|
  {
    Tally(s, WorldAfter(s, w, events[..n]).inFlight, OfProject(project)) <= 1
  }

  ghost predicate LockedAt(s: Setup, w: World, events: seq<Event>, n: nat, project: string)
    requires n < |events|
  {
    !UnlockedStart(s, WorldAfter(s, w, events[..n]), events[n], project)
  }

  lemma NextWorld(s: Setup, w: World, events: seq<Event>, n: nat)
    requires n < |events|
    ensures WorldAfter(s, w, events[..n + 1]) == Step(s, WorldAfter(s, w, events[..n]), events[n])
  {
    assert events[..n + 1][..n] == events[..n];
  }

  lemma NextTaskIff(s: Setup, w: World, events: seq<Event>, n: nat, project: string)
    requires Initial(s, w) && n < |events| && IsSerial(s, events[n], project)
    requires OneTask(s, w, events, n, project)
    ensures OneTask(s, w, events, n + 1, project) <==> LockedAt(s, w, events, n, project)
  {
    ReachableIsSound(s, w, events[..n]);
    SecondTaskIff(s, WorldAfter(s, w, events[..n]), events[n], project);
    NextWorld(s, w, events, n);
  }

  lemma {:induction false} OneTaskUpTo(s: Setup, w: World, events: seq<Event>, n: nat, project: string)
    requires Initial(s, w) && n <= |events|
    requires forall e :: e in events ==> IsSerial(s, e, project)
    requires forall k :: 0 <= k < n ==> LockedAt(s, w, events, k, project)
    ensures OneTask(s, w, events, n, project)
  {
    if n > 0 {
      OneTaskUpTo(s, w, events, n - 1, project);
      assert LockedAt(s, w, events, n - 1, project) && events[n - 1] in events;
      NextTaskIff(s, w, events, n - 1, project);
    }
  }

  /**
    In any run of a project whose setting stays serial, it never has two tasks in flight exactly when no
    ready start that finds one in flight finds the project without an unexpired claim, anyone's.
   */
  lemma SerialProjectHasOneTask(s: Setup, w: World, events: seq<Event>, project: string)
    requires Initial(s, w)
    requires forall e :: e in events ==> IsSerial(s, e, project)
    ensures (forall n :: 0 <= n <= |events| ==> OneTask(s, w, events, n, project)) <==>
            (forall n :: 0 <= n < |events| ==> LockedAt(s, w, events, n, project))
  {
    if forall n :: 0 <= n < |events| ==> LockedAt(s, w, events, n, project) {
      forall n | 0 <= n <= |events|
        ensures OneTask(s, w, events, n, project)
      {
        OneTaskUpTo(s, w, events, n, project);
      }
    } else {
      var n :| 0 <= n < |events| && !LockedAt(s, w, events, n, project);
      assert events[n] in events;
      if OneTask(s, w, events, n, project) {
        NextTaskIff(s, w, events, n, project);
      }
    }
  }

  // ---- Claims that stay held are enough ----

  /** This coordinator still holds an unexpired claim for the task. */
  ghost predicate Held(s: Setup, w: World, task: int) {
    task in w.claims && w.claims[task].owner == s.self && w.claims[task].until > w.now
  }

  ghost predicate AllHeld(s: Setup, w: World, project: string) {
    forall e :: e in w.inFlight && s.projectOf(e.task) == project ==> Held(s, w, e.task)
  }

  /** Nothing from elsewhere makes a claim in use lapse. */
  ghost predicate HeldAfter(s: Setup, w: World, events: seq<Event>, n: nat, project: string)
    requires n <= |events|
  {
    AllHeld(s, WorldAfter(s, w, events[..n]), project)
  }

  lemma {:induction false} TallyWitness(s: Setup, inFlight: seq<Execution>, kind: Kind)
    ensures Tally(s, inFlight, kind) >= 1 <==> exists e :: e in inFlight && Has(s, e, kind)
  {
    if inFlight != [] {
      TallyWitness(s, inFlight[1..], kind);
      if Has(s, inFlight[0], kind) {
        assert inFlight[0] in inFlight;
      }
    }
  }

  lemma HeldTaskLocks(s: Setup, w: World, project: string)
    requires AllHeld(s, w, project)
    requires Tally(s, w.inFlight, OfProject(project)) >= 1
    ensures HasActiveLock(s, w, project)
  {
    TallyWitness(s, w.inFlight, OfProject(project));
    var e :| e in w.inFlight && Has(s, e, OfProject(project));
    assert Held(s, w, e.task);
  }

  lemma StartKeepsHeld(s: Setup, w: World, stage: string, c: Candidate, spawned: nat, project: string)
    requires w.stages.Valid() && s.lockDuration > 0
    requires AllHeld(s, w, project)
    ensures AllHeld(s, TryStart(s, w, stage, c, spawned).0, project)
  {
    var after := TryStart(s, w, stage, c, spawned).0;
    forall e | e in after.inFlight && s.projectOf(e.task) == project
      ensures Held(s, after, e.task)
    {
      if e in w.inFlight {
        assert Held(s, w, e.task);
      }
    }
  }

  lemma FinishKeepsHeld(s: Setup, w: World, i: nat, project: string)
    requires i < |w.inFlight|
    requires AllHeld(s, w, project) && Tally(s, w.inFlight, OfProject(project)) <= 1
    ensures AllHeld(s, Finish(s, w, i), project)
  {
    var after := Finish(s, w, i);
    var finished := w.inFlight[i];
    TallyRemove(s, w.inFlight, i, OfProject(project));
    TallyWitness(s, after.inFlight, OfProject(project));
    forall e | e in after.inFlight && s.projectOf(e.task) == project
      ensures Held(s, after, e.task)
    {
      assert e in w.inFlight && Held(s, w, e.task);
      assert Has(s, e, OfProject(project));
      assert e.task != finished.task;
    }
  }

  /** What comes from elsewhere leaves every claim in use held. */
  ghost predicate ElsewhereKeepsHeld(s: Setup, w: World, events: seq<Event>, n: nat, project: string)
    requires n < |events|
  {
    events[n].Elsewhere? ==> AllHeld(s, Step(s, WorldAfter(s, w, events[..n]), events[n]), project)
  }

  lemma StepKeepsHeld(s: Setup, w: World, e: Event, project: string)
    requires w.stages.Valid() && s.lockDuration > 0
    requires AllHeld(s, w, project) && Tally(s, w.inFlight, OfProject(project)) <= 1
    requires e.Elsewhere? ==> AllHeld(s, Step(s, w, e), project)
    ensures AllHeld(s, Step(s, w, e), project)
  {
    match e
    case Start(stage, c, spawned) => StartKeepsHeld(s, w, stage, c, spawned, project);
    case Finished(i) =>
      if i < |w.inFlight| {
        FinishKeepsHeld(s, w, i, project);
      }
    case Elsewhere(_, _, _) =>
  }

  /** While the claims in use stay held, a serial project has at most one task in flight. */
  lemma {:induction false} HeldClaimsKeepSerial(s: Setup, w: World, events: seq<Event>, n: nat, project: string)
    requires s.lockDuration > 0 && Initial(s, w) && n <= |events|
    requires forall e :: e in events ==> IsSerial(s, e, project)
    requires forall k :: 0 <= k < |events| ==> ElsewhereKeepsHeld(s, w, events, k, project)
    ensures OneTask(s, w, events, n, project) && HeldAfter(s, w, events, n, project)
  {
    if n > 0 {
      var before := WorldAfter(s, w, events[..n - 1]);
      HeldClaimsKeepSerial(s, w, events, n - 1, project);
      assert events[n - 1] in events && ElsewhereKeepsHeld(s, w, events, n - 1, project);
      ReachableIsSound(s, w, events[..n - 1]);
      NextWorld(s, w, events, n - 1);
      StepKeepsHeld(s, before, events[n - 1], project);
      NextTaskIff(s, w, events, n - 1, project);
      if UnlockedStart(s, before, events[n - 1], project) {
        HeldTaskLocks(s, before, project);
      }
    }
  }

  // ---- A claim that lapses ----

  /** With room left, a second task starts as soon as the project has no unexpired claim. */
  lemma LapsedClaimLetsSecondIn(s: Setup, w: World, stage: string, c: Candidate)
    requires PermitsAccounted(s, w)
    requires !c.parallel && Ready(s, w, c, 0)
    requires !HasActiveLock(s, w, s.projectOf(c.task))
    ensures TryStart(s, w, stage, c, 0).1 == Started
    ensures Tally(s, TryStart(s, w, stage, c, 0).0.inFlight, OfProject(s.projectOf(c.task))) ==
            Tally(s, w.inFlight, OfProject(s.projectOf(c.task))) + 1
  {
    SerialStartsIff(s, w, stage, c, 0);
    StartTally(s, w, stage, c, 0, s.projectOf(c.task));
  }

  /**
    So the guarantee can fail: task 1 is still in flight when its claim reaches its end unrenewed, and
    task 2 of its project starts. Nothing else happens in between, and no claim is taken away.
   */
  lemma SerialFailsAfterLapse(s: Setup) returns (w: World, events: seq<Event>)
    requires s.globalMax >= 2 && s.lockDuration > 0 && s.projectOf(1) == s.projectOf(2)
    ensures Initial(s, w) && |events| == 3 && events[0].Start? && events[2].Start?
    ensures events[1] == Elsewhere(WorldAfter(s, w, events[..1]).claims, {}, w.now + s.lockDuration)
    ensures forall e :: e in events ==> IsSerial(s, e, s.projectOf(1))
    ensures Tally(s, WorldAfter(s, w, events).inFlight, OfProject(s.projectOf(1))) == 2
  {
    hide Tally, ClaimsBacked, EndpointsExclusive, TryStart;
    w := World(Empty(), Empty(), map[], {}, [], 0);
    var first := Start("implementer", Candidate(1, false, false, None), 0);
    FirstStarts(s, w, first.candidate);
    var lapse := Elsewhere(map[1 := Claim(s.self, s.lockDuration)], {}, s.lockDuration);
    var second := Start("implementer", Candidate(2, false, false, None), 0);
    events := [first, lapse, second];
    assert events[..1] == [first] && events[..2] == [first, lapse] && events[..3] == events;
    NextWorld(s, w, events, 1);
    NextWorld(s, w, events, 2);
    ReachableIsSound(s, w, events[..2]);
    SecondStarts(s, WorldAfter(s, w, events[..2]), second.candidate);
  }

  /** Task 1 is in flight under a claim that has just ended. */
  lemma SecondStarts(s: Setup, w: World, c: Candidate)
    requires PermitsAccounted(s, w) && s.globalMax >= 2 && s.projectOf(1) == s.projectOf(2)
    requires w.inFlight == [Execution(1, "implementer", None)] && w.containers == {}
    requires w.claims == map[1 := Claim(s.self, s.lockDuration)] && w.now == s.lockDuration
    requires c == Candidate(2, false, false, None)
    ensures Tally(s, TryStart(s, w, "implementer", c, 0).0.inFlight, OfProject(s.projectOf(1))) == 2
  {
    SoleTaskTallies(s, w.inFlight);
    LapsedClaimLetsSecondIn(s, w, "implementer", c);
  }

  lemma FirstStarts(s: Setup, w: World, c: Candidate)
    requires w == World(Empty(), Empty(), map[], {}, [], 0) && s.globalMax >= 2
    requires c == Candidate(1, false, false, None)
    ensures var after := WorldAfter(s, w, [Start("implementer", c, 0)]);
      && after.inFlight == [Execution(1, "implementer", None)]
      && after.claims == map[1 := Claim(s.self, s.lockDuration)]
      && after.containers == {} && after.now == 0
  {
    ReachableIsSound(s, w, []);
    LapsedClaimLetsSecondIn(s, w, "implementer", c);
    assert [Start("implementer", c, 0)][..0] == [];
  }

  lemma SoleTaskTallies(s: Setup, inFlight: seq<Execution>)
    requires inFlight == [Execution(1, "implementer", None)]
    ensures Tally(s, inFlight, OfProject(s.projectOf(1))) == 1
  {
    assert Tally(s, inFlight, OfProject(s.projectOf(1))) ==
           One(s, inFlight[0], OfProject(s.projectOf(1))) + Tally(s, [], OfProject(s.projectOf(1)));
  }
}
