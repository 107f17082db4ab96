/**
  Which profile a context-length failure falls back to, and what all profiles of a chain of fallbacks share
  (packages/agent/src/coordinator.ts:764-826).
 */
module FallbackChoice {
  import opened Collections
  import opened RecoveryOptions
  import opened FallbackChain

  /** Larger than what ran, as far as is known: known sizes grow, and unknown ones need a preference. */
  ghost predicate Roomier(current: Option<Profile>, p: Profile, ids: seq<string>) {
    && (forall size :: CapacityOf(current) == Some(size) ==>
          exists larger :: p.capacity == Some(larger) && larger > size)
    && (CapacityOf(current).None? && p.capacity.None? ==> p.id in ids)
  }

  /** The profile may take over from the one that ran. */
  ghost predicate MayTakeOver(current: Option<Profile>, p: Profile, ids: seq<string>, failed: set<string>) {
    && p.enabled && p.id !in failed && Roomier(current, p, ids)
    && forall ran :: current == Some(ran) ==>
         && (p.id != ran.id || ran.id == "")
         && p.runtimeId == ran.runtimeId && p.providerId == ran.providerId && p.transport == ran.transport
  }

  lemma CompatibleIff(current: Option<Profile>, p: Profile, ids: seq<string>, failed: set<string>)
    ensures Compatible(current, p, Elements(ids), failed) <==> MayTakeOver(current, p, ids, failed)
  {
  }

  /** The i-th preferred id names a profile that may take over. */
  ghost predicate PreferenceServes(profiles: seq<Profile>, ids: seq<string>, i: nat, current: Option<Profile>,
                                   failed: set<string>)
    requires i < |ids|
  {
    ById(profiles, ids[i]).Some? && MayTakeOver(current, ById(profiles, ids[i]).value, ids, failed)
  }

  /** The i-th profile is not preferred and may take over. */
  ghost predicate OtherServes(profiles: seq<Profile>, ids: seq<string>, i: nat, current: Option<Profile>,
                              failed: set<string>)
    requires i < |profiles|
  {
    profiles[i].id !in ids && MayTakeOver(current, profiles[i], ids, failed)
  }

  lemma {:induction false} FirstAppends(a: seq<Profile>, b: seq<Profile>, current: Option<Profile>,
                                        preferred: set<string>, failed: set<string>)
    ensures FirstCompatible(a + b, current, preferred, failed) ==
            if FirstCompatible(a, current, preferred, failed).Some?
            then FirstCompatible(a, current, preferred, failed) else FirstCompatible(b, current, preferred, failed)
  {
    if a == [] {
      assert a + b == b;
    } else {
      assert (a + b)[1..] == a[1..] + b;
      FirstAppends(a[1..], b, current, preferred, failed);
    }
  }

  /** Among the preferred profiles the first id that serves decides. */
  lemma {:induction false} PreferredFirst(profiles: seq<Profile>, ids: seq<string>, from: nat, current: Option<Profile>,
                                          failed: set<string>)
    requires from <= |ids|
    ensures var r := FirstCompatible(Preferred(profiles, ids[from..]), current, Elements(ids), failed);
      if r.Some?
      then exists i :: from <= i < |ids| && ById(profiles, ids[i]) == r
             && PreferenceServes(profiles, ids, i, current, failed)
             && forall j :: from <= j < i ==> !PreferenceServes(profiles, ids, j, current, failed)
      else forall j :: from <= j < |ids| ==> !PreferenceServes(profiles, ids, j, current, failed)
    decreases |ids| - from
  {
    if from < |ids| {
      var p := ById(profiles, ids[from]);
      var rest := Preferred(profiles, ids[from + 1..]);
      assert ids[from..][1..] == ids[from + 1..];
      PreferredFirst(profiles, ids, from + 1, current, failed);
      if p.Some? {
        CompatibleIff(current, p.value, ids, failed);
        assert ([p.value] + rest)[1..] == rest;
        assert ById(profiles, ids[from]) == p;
      } else {
        assert [] + rest == rest;
      }
    }
  }

  /** The profiles that nobody prefers, in their order. */
  function Others(profiles: seq<Profile>, ids: seq<string>): seq<Profile> {
    Filter(profiles, (p: Profile) => p.id !in Elements(ids))
  }

  /** Among the others the first that serves decides. */
  lemma {:induction false} OthersFirst(all: seq<Profile>, profiles: seq<Profile>, ids: seq<string>, from: nat,
                                       current: Option<Profile>, failed: set<string>)
    requires from <= |all| && profiles == all[from..]
    ensures var r := FirstCompatible(Others(profiles, ids), current, Elements(ids), failed);
      if r.Some?
      then exists i :: from <= i < |all| && all[i] == r.value && OtherServes(all, ids, i, current, failed)
             && forall j :: from <= j < i ==> !OtherServes(all, ids, j, current, failed)
      else forall j :: from <= j < |all| ==> !OtherServes(all, ids, j, current, failed)
    decreases |all| - from
  {
    if from < |all| {
      var rest := Others(profiles[1..], ids);
      OthersFirst(all, profiles[1..], ids, from + 1, current, failed);
      CompatibleIff(current, all[from], ids, failed);
      if all[from].id !in ids {
        assert Others(profiles, ids) == [all[from]] + rest;
        assert ([all[from]] + rest)[1..] == rest;
        assert all[from] == profiles[0];
      } else {
        assert [] + rest == rest;
      }
    }
  }

  /**
    The choice is the first preferred id whose profile may take over; failing that the first other profile in the
    list that may; and there is none only if none may.
   */
  lemma ChoiceIs(profiles: seq<Profile>, ids: seq<string>, current: Option<Profile>, failed: set<string>)
    ensures var r := SelectFallback(profiles, ids, current, failed);
      || (exists i :: 0 <= i < |ids| && r == ById(profiles, ids[i])
            && PreferenceServes(profiles, ids, i, current, failed)
            && forall j :: 0 <= j < i ==> !PreferenceServes(profiles, ids, j, current, failed))
      || ((forall j :: 0 <= j < |ids| ==> !PreferenceServes(profiles, ids, j, current, failed)) &&
          if r.Some?
          then exists i :: 0 <= i < |profiles| && profiles[i] == r.value && OtherServes(profiles, ids, i, current, failed)
                 && forall j :: 0 <= j < i ==> !OtherServes(profiles, ids, j, current, failed)
          else forall j :: 0 <= j < |profiles| ==> !OtherServes(profiles, ids, j, current, failed))
  {
    hide MayTakeOver, Compatible, FirstCompatible, ById;
    assert ids[0..] == ids && profiles[0..] == profiles;
    PreferredFirst(profiles, ids, 0, current, failed);
    OthersFirst(profiles, profiles, ids, 0, current, failed);
    FirstAppends(Preferred(profiles, ids), Others(profiles, ids), current, Elements(ids), failed);
  }

  // ---- Chains ----

  ghost predicate SameKind(a: Profile, b: Profile) {
    a.runtimeId == b.runtimeId && a.providerId == b.providerId && a.transport == b.transport
  }

  lemma TakesOverInKind(ran: Profile, p: Profile, ids: seq<string>, failed: set<string>)
    requires Compatible(Some(ran), p, Elements(ids), failed)
    ensures SameKind(p, ran) && p.enabled
    ensures p.capacity.None? && ran.capacity.None? ==> p.id in ids
  {
    CompatibleIff(Some(ran), p, ids, failed);
  }

  /** A chosen profile is enabled, and unknown sizes follow each other only by preference. */
  lemma NextInKind(raw: Raw, stage: string, failures: seq<Failure>, i: nat)
    requires IsChainOfFallbacks(raw, stage, failures) && i + 1 < |failures|
    ensures var ran, next := failures[i].profile, failures[i + 1].profile;
      && SameKind(next, ran) && next.enabled
      && (next.capacity.None? && ran.capacity.None? ==> next.id in failures[i].preferredIds)
  {
    hide IsChainOfFallbacks, OptionsAt, Compatible, FailedIds;
    ChosenIsCompatible(raw, stage, failures, i);
    TakesOverInKind(failures[i].profile, failures[i + 1].profile, failures[i].preferredIds,
                    FailedIds(OptionsAt(raw, stage, failures, i), stage, failures[i].profile.id));
  }

  /** All profiles of a chain share runtime, provider and transport. */
  lemma {:induction false} ChainKeepsKind(raw: Raw, stage: string, failures: seq<Failure>, i: nat)
    requires IsChainOfFallbacks(raw, stage, failures) && i < |failures|
    ensures SameKind(failures[i].profile, failures[0].profile)
    decreases i
  {
    if i > 0 {
      hide IsChainOfFallbacks;
      ChainKeepsKind(raw, stage, failures, i - 1);
      NextInKind(raw, stage, failures, i - 1);
    }
  }
}
