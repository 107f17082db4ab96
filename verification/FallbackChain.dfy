/**
  Choosing a larger runtime profile after a context-length failure, and chains of such choices
  (packages/agent/src/coordinator.ts:764-826, 1485-1587).
 */
module FallbackChain {
  import opened Collections
  import opened RecoveryOptions

  datatype Profile = Profile(
    id: string, enabled: bool, runtimeId: string, providerId: string, transport: Option<string>,
    capacity: Option<int>)

  predicate SameRuntime(a: Profile, b: Profile) {
    a.runtimeId == b.runtimeId && a.providerId == b.providerId && a.transport == b.transport
  }

  function CapacityOf(profile: Option<Profile>): Option<int> {
    if profile.Some? then profile.value.capacity else None
  }

  predicate Compatible(current: Option<Profile>, candidate: Profile, preferred: set<string>, failed: set<string>) {
    && candidate.enabled
    && candidate.id !in failed
    && (current.Some? && current.value.id != "" ==> candidate.id != current.value.id)
    && (current.Some? ==> SameRuntime(candidate, current.value))
    && (var known, offered := CapacityOf(current), candidate.capacity;
        if known.Some? && offered.Some? then offered.value > known.value
        else if known.None? && offered.None? then candidate.id in preferred
        else known.None? && offered.Some?)
  }

  /** The last profile with the id, as a map built from the list would hold it. */
  function ById(profiles: seq<Profile>, id: string): Option<Profile> {
    if profiles == [] then None
    else if profiles[|profiles| - 1].id == id then Some(profiles[|profiles| - 1])
    else ById(profiles[..|profiles| - 1], id)
  }

  function Preferred(profiles: seq<Profile>, ids: seq<string>): seq<Profile> {
    if ids == [] then []
    else
      var p := ById(profiles, ids[0]);
      (if p.Some? then [p.value] else []) + Preferred(profiles, ids[1..])
  }

  /** Preferred profiles first, then the others in their order. */
  function Ordered(profiles: seq<Profile>, ids: seq<string>): seq<Profile> {
    Preferred(profiles, ids) + Filter(profiles, (p: Profile) => p.id !in Elements(ids))
  }

  function FirstCompatible(candidates: seq<Profile>, current: Option<Profile>, preferred: set<string>,
                           failed: set<string>): (r: Option<Profile>)
    ensures r.Some? ==> r.value in candidates && Compatible(current, r.value, preferred, failed)
    ensures r.None? ==> forall p :: p in candidates ==> !Compatible(current, p, preferred, failed)
  {
    if candidates == [] then None
    else if Compatible(current, candidates[0], preferred, failed) then Some(candidates[0])
    else FirstCompatible(candidates[1..], current, preferred, failed)
  }

  function SelectFallback(profiles: seq<Profile>, ids: seq<string>, current: Option<Profile>, failed: set<string>)
    : Option<Profile>
  {
    FirstCompatible(Ordered(profiles, ids), current, Elements(ids), failed)
  }

  lemma {:induction false} ByIdIsListed(profiles: seq<Profile>, id: string)
    ensures ById(profiles, id).Some? ==> ById(profiles, id).value in profiles && ById(profiles, id).value.id == id
    ensures ById(profiles, id).None? ==> forall p :: p in profiles ==> p.id != id
  {
    if profiles != [] {
      ByIdIsListed(profiles[..|profiles| - 1], id);
      assert profiles == profiles[..|profiles| - 1] + [profiles[|profiles| - 1]];
    }
  }

  lemma {:induction false} PreferredAreListed(profiles: seq<Profile>, ids: seq<string>)
    ensures forall p :: p in Preferred(profiles, ids) ==> p in profiles
  {
    if ids != [] {
      ByIdIsListed(profiles, ids[0]);
      PreferredAreListed(profiles, ids[1..]);
    }
  }

  /** The choice is a visible profile that passes every check, and there is none only if none passes. */
  lemma SelectionIsVisible(profiles: seq<Profile>, ids: seq<string>, current: Option<Profile>, failed: set<string>)
    ensures var r := SelectFallback(profiles, ids, current, failed);
      r.Some? ==> r.value in profiles && Compatible(current, r.value, Elements(ids), failed)
  {
    PreferredAreListed(profiles, ids);
  }

  // ---- Chains ----

  /** What else may happen to the options: marks, clears and fallbacks of any stage. */
  datatype Change =
    | Marked(stage: string, profileId: Option<string>)
    | Cleared(stage: string)
    | FallbackSet(fallback: Fallback, failedProfileId: Option<string>)

  function ChangedBy(raw: Raw, change: Change): Raw {
    match change
    case Marked(stage, profileId) => MarkContextProfileFailed(raw, stage, profileId)
    case Cleared(stage) => ClearContextFallback(raw, stage)
    case FallbackSet(fallback, failedProfileId) => SetContextFallback(raw, fallback, failedProfileId)
  }

  function ChangedByAll(raw: Raw, changes: seq<Change>): Raw {
    if changes == [] then raw else ChangedBy(ChangedByAll(raw, Init(changes)), Last(changes))
  }

  /**
    One context-length failure: the profile that ran and failed, what could be seen then, how the recovery is
    recorded, and what happens to the options between that and the next failure.
   */
  datatype Failure = Failure(
    profile: Profile, profiles: seq<Profile>, preferredIds: seq<string>, attempt: real, createdAt: string,
    meanwhile: seq<Change>)

  function FailedIds(raw: Raw, stage: string, failedId: string): set<string> {
    Elements(ReadFailedProfiles(raw, stage)) + {failedId}
  }

  function Choose(raw: Raw, stage: string, f: Failure): Option<Profile> {
    SelectFallback(f.profiles, f.preferredIds, Some(f.profile), FailedIds(raw, stage, f.profile.id))
  }

  /** The options after the failure: the chosen fallback is set and the failed profile remembered. */
  function Recover(raw: Raw, stage: string, f: Failure, chosen: Profile): Raw {
    SetContextFallback(raw, Fallback(stage, chosen.id, Some(f.profile.id), ContextLength, f.attempt, f.createdAt),
                       Some(f.profile.id))
  }

  /** The options before the i-th failure, every failure recovered from with the choice made for it. */
  function OptionsAt(raw: Raw, stage: string, failures: seq<Failure>, i: nat): Raw
    requires i <= |failures|
  {
    if i == 0 then raw
    else
      var before, f := OptionsAt(raw, stage, failures, i - 1), failures[i - 1];
      var chosen := Choose(before, stage, f);
      ChangedByAll(if chosen.None? then before else Recover(before, stage, f, chosen.value), f.meanwhile)
  }

  /** Every failure is of the profile that was chosen after the one before. */
  ghost predicate IsChainOfFallbacks(raw: Raw, stage: string, failures: seq<Failure>) {
    && (forall i :: 0 <= i < |failures| ==> !Blank(failures[i].profile.id))
    && forall i :: 0 <= i < |failures| - 1 ==> ChosenNext(raw, stage, failures, i)
  }

  ghost predicate ChosenNext(raw: Raw, stage: string, failures: seq<Failure>, i: nat)
    requires i + 1 < |failures|
  {
    Choose(OptionsAt(raw, stage, failures, i), stage, failures[i]) == Some(failures[i + 1].profile)
  }

  lemma AddingOne(failed: seq<string>, list: seq<string>, id: string)
    requires failed == Unique(list) && !Blank(id)
    ensures Elements(Unique(failed + [id])) == Elements(failed) + {id}
  {
    UniqueMembers(list);
    UniqueMembers(failed + [id]);
  }

  lemma RecoverRemembers(raw: Raw, stage: string, f: Failure, chosen: Profile)
    requires !Blank(f.profile.id)
    ensures Elements(ReadFailedProfiles(Recover(raw, stage, f, chosen), stage)) == FailedIds(raw, stage, f.profile.id)
  {
    var fallback := Fallback(stage, chosen.id, Some(f.profile.id), ContextLength, f.attempt, f.createdAt);
    SetKeepsTheRest(raw, fallback, Some(f.profile.id), stage);
    AddingOne(ReadFailedProfiles(raw, stage), FailedList(SplitRecoveryOptions(raw).recovery, stage), f.profile.id);
  }

  lemma AddingKeeps(failed: seq<string>, list: seq<string>, more: seq<string>)
    requires failed == Unique(list)
    ensures Elements(failed) <= Elements(Unique(failed + more))
  {
    UniqueMembers(list);
    UniqueMembers(failed + more);
  }

  /** Nothing that happens to the options makes a stage forget a failed profile. */
  lemma ChangeKeepsFailed(raw: Raw, change: Change, stage: string)
    ensures Elements(ReadFailedProfiles(raw, stage)) <= Elements(ReadFailedProfiles(ChangedBy(raw, change), stage))
  {
    var failed, list := ReadFailedProfiles(raw, stage), FailedList(SplitRecoveryOptions(raw).recovery, stage);
    match change
    case Marked(other, profileId) =>
      MarkKeepsTheRest(raw, other, profileId, stage);
      AddingKeeps(failed, list, if profileId.Some? then [profileId.value] else []);
    case Cleared(other) => ClearKeepsTheRest(raw, other, stage);
    case FallbackSet(fallback, failedProfileId) =>
      SetKeepsTheRest(raw, fallback, failedProfileId, stage);
      AddingKeeps(failed, list, if failedProfileId.Some? then [failedProfileId.value] else []);
  }

  lemma {:induction false} ChangesKeepFailed(raw: Raw, changes: seq<Change>, stage: string)
    ensures Elements(ReadFailedProfiles(raw, stage)) <=
            Elements(ReadFailedProfiles(ChangedByAll(raw, changes), stage))
  {
    if changes != [] {
      ChangesKeepFailed(raw, Init(changes), stage);
      ChangeKeepsFailed(ChangedByAll(raw, Init(changes)), Last(changes), stage);
    }
  }

  /** The failed list before the i-th failure. */
  function FailedAt(raw: Raw, stage: string, failures: seq<Failure>, i: nat): set<string>
    requires i <= |failures|
  {
    Elements(ReadFailedProfiles(OptionsAt(raw, stage, failures, i), stage))
  }

  lemma FailedGrows(raw: Raw, stage: string, failures: seq<Failure>, i: nat)
    requires IsChainOfFallbacks(raw, stage, failures)
    requires i + 1 < |failures|
    ensures FailedAt(raw, stage, failures, i) + {failures[i].profile.id} <= FailedAt(raw, stage, failures, i + 1)
  {
    assert ChosenNext(raw, stage, failures, i);
    var before := OptionsAt(raw, stage, failures, i);
    RecoverRemembers(before, stage, failures[i], failures[i + 1].profile);
    ChangesKeepFailed(Recover(before, stage, failures[i], failures[i + 1].profile), failures[i].meanwhile, stage);
  }

  lemma ChosenIsCompatible(raw: Raw, stage: string, failures: seq<Failure>, i: nat)
    requires IsChainOfFallbacks(raw, stage, failures)
    requires i + 1 < |failures|
    ensures failures[i + 1].profile in failures[i].profiles
    ensures Compatible(Some(failures[i].profile), failures[i + 1].profile, Elements(failures[i].preferredIds),
                       FailedIds(OptionsAt(raw, stage, failures, i), stage, failures[i].profile.id))
  {
    assert ChosenNext(raw, stage, failures, i);
    SelectionIsVisible(failures[i].profiles, failures[i].preferredIds, Some(failures[i].profile),
                       FailedIds(OptionsAt(raw, stage, failures, i), stage, failures[i].profile.id));
  }

  /** What being chosen says about the next profile. */
  lemma NextIsNew(raw: Raw, stage: string, failures: seq<Failure>, i: nat)
    requires IsChainOfFallbacks(raw, stage, failures)
    requires i + 1 < |failures|
    ensures failures[i + 1].profile in failures[i].profiles
    ensures failures[i + 1].profile.id !in FailedAt(raw, stage, failures, i)
    ensures failures[i + 1].profile.id != failures[i].profile.id
    ensures failures[i].profile.capacity.Some? ==>
              failures[i + 1].profile.capacity.Some? &&
              failures[i + 1].profile.capacity.value > failures[i].profile.capacity.value
  {
    ChosenIsCompatible(raw, stage, failures, i);
  }

  function ChainIds(failures: seq<Failure>): seq<string> {
    Map(failures, (f: Failure) => f.profile.id)
  }

  ghost predicate WalkStep(ids: seq<string>, failed: seq<set<string>>, i: nat)
    requires |failed| == |ids| && i + 1 < |ids|
  {
    failed[i] + {ids[i]} <= failed[i + 1] && ids[i + 1] !in failed[i] + {ids[i]}
  }

  /** Each id joins the failed set, which forgets nothing, and the next one was not in it when it was chosen. */
  ghost predicate Walk(ids: seq<string>, failed: seq<set<string>>) {
    |failed| == |ids| && forall i :: 0 <= i && i + 1 < |ids| ==> WalkStep(ids, failed, i)
  }

  lemma {:induction false} WalkRemembers(ids: seq<string>, failed: seq<set<string>>, i: nat, j: nat)
    requires Walk(ids, failed) && j < i < |ids|
    ensures ids[j] in failed[i]
  {
    assert WalkStep(ids, failed, i - 1);
    if j < i - 1 {
      WalkRemembers(ids, failed, i - 1, j);
    }
  }

  lemma WalkIsNoDuplicates(ids: seq<string>, failed: seq<set<string>>)
    requires Walk(ids, failed)
    ensures NoDuplicates(ids)
  {
    forall i, j | 0 <= i < j < |ids|
      ensures ids[i] != ids[j]
    {
      assert WalkStep(ids, failed, j - 1);
      if i < j - 1 {
        WalkRemembers(ids, failed, j - 1, i);
      }
    }
  }

  lemma ChainStep(raw: Raw, stage: string, failures: seq<Failure>, i: nat)
    requires IsChainOfFallbacks(raw, stage, failures)
    requires i + 1 < |failures|
    ensures FailedAt(raw, stage, failures, i) + {failures[i].profile.id} <= FailedAt(raw, stage, failures, i + 1)
    ensures failures[i + 1].profile.id !in FailedAt(raw, stage, failures, i) + {failures[i].profile.id}
  {
    FailedGrows(raw, stage, failures, i);
    NextIsNew(raw, stage, failures, i);
  }

  ghost predicate IsFailedAt(failed: seq<set<string>>, raw: Raw, stage: string, failures: seq<Failure>, i: nat)
    requires |failed| == |failures| && i < |failures|
  {
    failed[i] == FailedAt(raw, stage, failures, i)
  }

  lemma FailedSequence(raw: Raw, stage: string, failures: seq<Failure>) returns (failed: seq<set<string>>)
    ensures |failed| == |failures|
    ensures forall i :: 0 <= i < |failures| ==> IsFailedAt(failed, raw, stage, failures, i)
  {
    failed := seq(|failures|, i requires 0 <= i < |failures| => FailedAt(raw, stage, failures, i));
  }

  lemma ChainWalksAt(raw: Raw, stage: string, failures: seq<Failure>, failed: seq<set<string>>, i: nat)
    requires IsChainOfFallbacks(raw, stage, failures)
    requires |failed| == |failures| && i + 1 < |failures|
    requires IsFailedAt(failed, raw, stage, failures, i) && IsFailedAt(failed, raw, stage, failures, i + 1)
    ensures WalkStep(ChainIds(failures), failed, i)
  {
    ChainStep(raw, stage, failures, i);
  }

  lemma ChainIsWalk(raw: Raw, stage: string, failures: seq<Failure>) returns (failed: seq<set<string>>)
    requires IsChainOfFallbacks(raw, stage, failures)
    ensures Walk(ChainIds(failures), failed)
  {
    failed := FailedSequence(raw, stage, failures);
    forall i | 0 <= i && i + 1 < |failures|
      ensures WalkStep(ChainIds(failures), failed, i)
    {
      ChainWalksAt(raw, stage, failures, failed, i);
    }
  }

  /** A chain of context fallbacks never comes back to a profile. */
  lemma ChainNeverRevisits(raw: Raw, stage: string, failures: seq<Failure>)
    requires IsChainOfFallbacks(raw, stage, failures)
    ensures NoDuplicates(ChainIds(failures))
  {
    var failed := ChainIsWalk(raw, stage, failures);
    WalkIsNoDuplicates(ChainIds(failures), failed);
  }

  ghost predicate AllVisible(profiles: seq<Profile>, visible: set<string>) {
    forall p :: p in profiles ==> p.id in visible
  }

  /** So its fallbacks are at most as many as there are visible profiles. */
  lemma ChainIsBounded(raw: Raw, stage: string, failures: seq<Failure>, visible: set<string>)
    requires IsChainOfFallbacks(raw, stage, failures) && failures != []
    requires forall i :: 0 <= i < |failures| ==> AllVisible(failures[i].profiles, visible)
    ensures |failures| - 1 <= |visible|
    ensures failures[0].profile.id in visible ==> |failures| <= |visible|
  {
    ChainNeverRevisits(raw, stage, failures);
    forall i | 1 <= i < |failures|
      ensures ChainIds(failures)[i] in visible
    {
      ChosenIsVisible(raw, stage, failures, i - 1, visible);
    }
    BoundedByPool(ChainIds(failures), visible);
  }

  lemma ChosenIsVisible(raw: Raw, stage: string, failures: seq<Failure>, i: nat, visible: set<string>)
    requires IsChainOfFallbacks(raw, stage, failures)
    requires i + 1 < |failures| && AllVisible(failures[i].profiles, visible)
    ensures failures[i + 1].profile.id in visible
  {
    NextIsNew(raw, stage, failures, i);
  }

  lemma BoundedByPool(ids: seq<string>, visible: set<string>)
    requires ids != [] && NoDuplicates(ids)
    requires forall i :: 1 <= i < |ids| ==> ids[i] in visible
    ensures |ids| - 1 <= |visible|
    ensures ids[0] in visible ==> |ids| <= |visible|
  {
    var rest := ids[1..];
    DistinctLength(rest);
    SubsetCardinality(Elements(rest), visible);
    if ids[0] in visible {
      DistinctLength(ids);
      SubsetCardinality(Elements(ids), visible);
    }
  }

  function Capacities(failures: seq<Failure>): seq<Option<int>> {
    Map(failures, (f: Failure) => f.profile.capacity)
  }

  ghost predicate Grows(before: Option<int>, after: Option<int>) {
    before.Some? ==> after.Some? && after.value > before.value
  }

  lemma {:induction false} GrowthAddsUp(capacities: seq<Option<int>>, i: nat, j: nat)
    requires forall k :: 0 <= k < |capacities| - 1 ==> Grows(capacities[k], capacities[k + 1])
    requires i < j < |capacities|
    ensures Grows(capacities[i], capacities[j])
  {
    assert Grows(capacities[j - 1], capacities[j - 1 + 1]);
    if i < j - 1 {
      GrowthAddsUp(capacities, i, j - 1);
    }
  }

  lemma CapacityStep(raw: Raw, stage: string, failures: seq<Failure>, i: nat)
    requires IsChainOfFallbacks(raw, stage, failures)
    requires i + 1 < |failures|
    ensures Grows(failures[i].profile.capacity, failures[i + 1].profile.capacity)
  {
    NextIsNew(raw, stage, failures, i);
  }

  /** Once a capacity is known it stays known and strictly increases along the chain. */
  lemma CapacityIncreases(raw: Raw, stage: string, failures: seq<Failure>, i: nat, j: nat)
    requires IsChainOfFallbacks(raw, stage, failures)
    requires i < j < |failures|
    ensures Grows(failures[i].profile.capacity, failures[j].profile.capacity)
  {
    var capacities := Capacities(failures);
    forall k | 0 <= k < |capacities| - 1
      ensures Grows(capacities[k], capacities[k + 1])
    {
      CapacityStep(raw, stage, failures, k);
    }
    GrowthAddsUp(capacities, i, j);
  }
}
