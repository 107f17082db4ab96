/**
  The failure fingerprint guard (packages/agent/src/coordinator.ts:2739-2787): an automatic rework
  or reviewer retry is granted for a failure that was not seen before in the stage, or that an
  operator has overridden at least as often as it was recorded.
 */
module FingerprintGuard {
  import opened Collections
  import opened FailureFingerprint

  /** One row of a task's append-only attempt history. */
  datatype Attempt = Attempt(stage: string, kind: string, fingerprint: Option<Fingerprint>, operatorOverride: bool)

  const FailureKind := "failure_fingerprint"

  datatype Prior = Prior(repeated: bool, overridden: bool)

  predicate Matches(a: Attempt, stage: string, fingerprint: Fingerprint) {
    a.stage == stage && a.kind == FailureKind && a.fingerprint == Some(fingerprint)
  }

  function Count(history: seq<Attempt>, stage: string, fingerprint: Fingerprint, operatorOverride: bool): nat {
    if history == [] then 0
    else
      (if Matches(history[0], stage, fingerprint) && history[0].operatorOverride == operatorOverride then 1 else 0)
      + Count(history[1..], stage, fingerprint, operatorOverride)
  }

  function PriorFingerprint(history: seq<Attempt>, stage: string, fingerprint: Fingerprint): Prior {
    var recorded := Count(history, stage, fingerprint, false);
    var overrides := Count(history, stage, fingerprint, true);
    Prior(recorded > 0, recorded > 0 && overrides >= recorded)
  }

  function Recorded(stage: string, fingerprint: Fingerprint): Attempt {
    Attempt(stage, FailureKind, Some(fingerprint), false)
  }

  predicate Granted(prior: Prior) {
    !(prior.repeated && !prior.overridden)
  }

  // ---- Histories ----

  /** A request looks at the history and then records itself; anything else may be appended at any time. */
  datatype Event =
    | Request(stage: string, fingerprint: Fingerprint)
    | Append(attempt: Attempt)

  function After(history: seq<Attempt>, e: Event): seq<Attempt> {
    history + [if e.Request? then Recorded(e.stage, e.fingerprint) else e.attempt]
  }

  function HistoryAfter(start: seq<Attempt>, events: seq<Event>): seq<Attempt>
    decreases |events|
  {
    if events == [] then start
    else After(HistoryAfter(start, events[..|events| - 1]), events[|events| - 1])
  }

  predicate Grants(history: seq<Attempt>, e: Event, stage: string, fingerprint: Fingerprint) {
    e.Request? && e.stage == stage && e.fingerprint == fingerprint &&
    Granted(PriorFingerprint(history, stage, fingerprint))
  }

  /** How often the events, in their order, were granted for one fingerprint in one stage. */
  function GrantCount(start: seq<Attempt>, events: seq<Event>, stage: string, fingerprint: Fingerprint): nat
    decreases |events|
  {
    if events == [] then 0
    else
      var before := events[..|events| - 1];
      GrantCount(start, before, stage, fingerprint)
      + (if Grants(HistoryAfter(start, before), events[|events| - 1], stage, fingerprint) then 1 else 0)
  }

  lemma {:induction false} CountAppend(history: seq<Attempt>, a: Attempt, stage: string, fingerprint: Fingerprint,
                                       o: bool)
    ensures Count(history + [a], stage, fingerprint, o) ==
            Count(history, stage, fingerprint, o) +
            (if Matches(a, stage, fingerprint) && a.operatorOverride == o then 1 else 0)
  {
    if history == [] {
      assert history + [a] == [a];
      assert Count([a][1..], stage, fingerprint, o) == 0;
    } else {
      assert (history + [a])[1..] == history[1..] + [a];
      CountAppend(history[1..], a, stage, fingerprint, o);
    }
  }

  /** A request is granted exactly when nothing was recorded yet or the overrides have caught up. */
  lemma GrantedIff(history: seq<Attempt>, stage: string, fingerprint: Fingerprint)
    ensures Granted(PriorFingerprint(history, stage, fingerprint)) <==>
            Count(history, stage, fingerprint, false) == 0 ||
            Count(history, stage, fingerprint, true) >= Count(history, stage, fingerprint, false)
  {
  }

  /** The places of the rows that record the failure in the stage, by the guard itself or as an operator's override. */
  ghost function RowsOf(history: seq<Attempt>, stage: string, fingerprint: Fingerprint, operatorOverride: bool)
    : set<int>
  {
    set i | 0 <= i < |history| && history[i].stage == stage && history[i].kind == "failure_fingerprint" &&
      history[i].fingerprint == Some(fingerprint) && history[i].operatorOverride == operatorOverride
  }

  lemma RowsMore(before: seq<Attempt>, last: Attempt, stage: string, fingerprint: Fingerprint, o: bool)
    ensures RowsOf(before + [last], stage, fingerprint, o) == RowsOf(before, stage, fingerprint, o) +
            if Matches(last, stage, fingerprint) && last.operatorOverride == o then {|before|} else {}
    ensures |before| !in RowsOf(before, stage, fingerprint, o)
  {
  }

  lemma {:induction false} CountIsRows(history: seq<Attempt>, stage: string, fingerprint: Fingerprint, o: bool)
    ensures Count(history, stage, fingerprint, o) == |RowsOf(history, stage, fingerprint, o)|
  {
    if history != [] {
      var before, last := Init(history), Last(history);
      assert history == before + [last];
      CountIsRows(before, stage, fingerprint, o);
      CountAppend(before, last, stage, fingerprint, o);
      RowsMore(before, last, stage, fingerprint, o);
      hide Count, RowsOf, Matches;
    }
  }

  /** A failure is let through exactly when its stage has no record of it, or as many overrides as records. */
  lemma GrantedIffRows(history: seq<Attempt>, stage: string, fingerprint: Fingerprint)
    ensures Granted(PriorFingerprint(history, stage, fingerprint)) <==>
            RowsOf(history, stage, fingerprint, false) == {} ||
            |RowsOf(history, stage, fingerprint, true)| >= |RowsOf(history, stage, fingerprint, false)|
  {
    CountIsRows(history, stage, fingerprint, false);
    CountIsRows(history, stage, fingerprint, true);
  }

  /** Every grant left a record, and the last one needed as many overrides as there were records. */
  lemma {:induction false} GrantsBounded(start: seq<Attempt>, events: seq<Event>, stage: string,
                                         fingerprint: Fingerprint)
    ensures var history := HistoryAfter(start, events);
      && GrantCount(start, events, stage, fingerprint) <= Count(history, stage, fingerprint, false)
      && GrantCount(start, events, stage, fingerprint) <= 1 + Count(history, stage, fingerprint, true)
    decreases |events|
  {
    if events != [] {
      var before := events[..|events| - 1];
      var e := events[|events| - 1];
      var history := HistoryAfter(start, before);
      GrantsBounded(start, before, stage, fingerprint);
      GrantedIff(history, stage, fingerprint);
      var a := if e.Request? then Recorded(e.stage, e.fingerprint) else e.attempt;
      CountAppend(history, a, stage, fingerprint, false);
      CountAppend(history, a, stage, fingerprint, true);
    }
  }

  lemma {:induction false} HistoryOnlyGrows(start: seq<Attempt>, events: seq<Event>, n: nat, stage: string,
                                            fingerprint: Fingerprint, o: bool)
    requires n <= |events|
    ensures Count(HistoryAfter(start, events[..n]), stage, fingerprint, o) <=
            Count(HistoryAfter(start, events), stage, fingerprint, o)
    decreases |events| - n
  {
    if n == |events| {
      assert events[..n] == events;
    } else {
      var more := events[..n + 1];
      assert more[..|more| - 1] == events[..n];
      var e := events[n];
      CountAppend(HistoryAfter(start, events[..n]), if e.Request? then Recorded(e.stage, e.fingerprint) else e.attempt,
                  stage, fingerprint, o);
      HistoryOnlyGrows(start, events, n + 1, stage, fingerprint, o);
    }
  }

  /** After a request its fingerprint is on record for good. */
  lemma RequestStays(start: seq<Attempt>, events: seq<Event>, i: nat, j: nat)
    requires i < j <= |events| && events[i].Request?
    ensures Count(HistoryAfter(start, events[..j]), events[i].stage, events[i].fingerprint, false) >= 1
  {
    var more := events[..i + 1];
    assert more[..|more| - 1] == events[..i];
    CountAppend(HistoryAfter(start, events[..i]), Recorded(events[i].stage, events[i].fingerprint),
                events[i].stage, events[i].fingerprint, false);
    assert events[..j][..i + 1] == more;
    HistoryOnlyGrows(start, events[..j], i + 1, events[i].stage, events[i].fingerprint, false);
  }

  /** A request granted without an override is for a fingerprint never requested before in its stage. */
  lemma GrantedFingerprintsDistinct(start: seq<Attempt>, events: seq<Event>, i: nat, j: nat)
    requires i < j < |events| && events[i].Request? && events[j].Request?
    requires events[i].stage == events[j].stage
    requires Granted(PriorFingerprint(HistoryAfter(start, events[..j]), events[j].stage, events[j].fingerprint))
    requires Count(HistoryAfter(start, events[..j]), events[j].stage, events[j].fingerprint, true) == 0
    ensures events[i].fingerprint != events[j].fingerprint
  {
    if events[i].fingerprint == events[j].fingerprint {
      RequestStays(start, events, i, j);
    }
  }

  /** The bound is reached: after n overrides of a first failure, 1 + n requests can be granted in all. */
  lemma {:induction false} BoundIsReached(stage: string, fingerprint: Fingerprint, n: nat) returns (events: seq<Event>)
    ensures GrantCount([], events, stage, fingerprint) == 1 + n
    ensures Count(HistoryAfter([], events), stage, fingerprint, true) == n
    ensures Count(HistoryAfter([], events), stage, fingerprint, false) == 1 + n
  {
    var request := Request(stage, fingerprint);
    if n == 0 {
      events := [request];
      assert events[..0] == [];
      CountAppend([], Recorded(stage, fingerprint), stage, fingerprint, false);
      CountAppend([], Recorded(stage, fingerprint), stage, fingerprint, true);
      assert HistoryAfter([], events) == [] + [Recorded(stage, fingerprint)];
    } else {
      var before := BoundIsReached(stage, fingerprint, n - 1);
      var override_ := Attempt(stage, FailureKind, Some(fingerprint), true);
      var middle := before + [Append(override_)];
      events := middle + [request];
      assert middle[..|middle| - 1] == before && events[..|events| - 1] == middle;
      CountAppend(HistoryAfter([], before), override_, stage, fingerprint, false);
      CountAppend(HistoryAfter([], before), override_, stage, fingerprint, true);
      CountAppend(HistoryAfter([], middle), Recorded(stage, fingerprint), stage, fingerprint, false);
      CountAppend(HistoryAfter([], middle), Recorded(stage, fingerprint), stage, fingerprint, true);
    }
  }
}
