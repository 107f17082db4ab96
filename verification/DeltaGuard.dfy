/**
  The runtime recovery delta guard (packages/agent/src/coordinator.ts:1105-1279): an automatic recovery
  is granted only if something changed since every earlier one of its kind.
 */
module DeltaGuard {
  import opened Collections
  import opened JsonValues
  import opened StableJson
  import opened StableJsonUnique

  datatype Signature = Signature(
    taskId: string, stage: string, runtimeCategory: string, recoveryKind: string, artifactPath: Option<string>,
    artifactSha: Option<string>, validatorFingerprint: Option<string>, toolLoopPattern: Option<string>,
    blockedReasonFamily: string, evidenceRefs: seq<string>, sourceSnapshotId: Option<string>,
    sourceSnapshotFingerprint: Option<string>, failedProfileId: Option<string>)

  /** The fields in which a change counts. */
  datatype Delta = Delta(
    artifactSha: Option<string>, validatorFingerprint: Option<string>, toolLoopPattern: Option<string>,
    blockedReasonFamily: string, evidenceRefs: seq<string>, sourceSnapshotId: Option<string>,
    sourceSnapshotFingerprint: Option<string>)

  function DeltaOf(s: Signature): Delta {
    Delta(s.artifactSha, s.validatorFingerprint, s.toolLoopPattern, s.blockedReasonFamily, s.evidenceRefs,
          s.sourceSnapshotId, s.sourceSnapshotFingerprint)
  }

  /** One row of the task's attempt history. */
  datatype Attempt = Attempt(stage: string, kind: string, metadata: map<string, Value>)

  const GuardStage := "runtime_recovery"
  const GuardKind := "delta_guard"

  // ---- Writing and reading a decision ----

  /** comparison: how the fields compared with the row that blocked it, if one did. */
  datatype Decision = Decision(
    signature: Signature, allowed: bool, fingerprint: string, comparison: map<string, Value>)

  function WriteSignature(s: Signature): map<string, Value> {
    map["taskId" := VString(s.taskId), "stage" := VString(s.stage), "runtimeCategory" := VString(s.runtimeCategory),
        "recoveryKind" := VString(s.recoveryKind), "artifactPath" := StringOrNull(s.artifactPath),
        "artifactSha" := StringOrNull(s.artifactSha), "validatorFingerprint" := StringOrNull(s.validatorFingerprint),
        "toolLoopPattern" := StringOrNull(s.toolLoopPattern), "blockedReasonFamily" := VString(s.blockedReasonFamily),
        "evidenceRefs" := VArray(WriteStrings(s.evidenceRefs)), "sourceSnapshotId" := StringOrNull(s.sourceSnapshotId),
        "sourceSnapshotFingerprint" := StringOrNull(s.sourceSnapshotFingerprint),
        "failedProfileId" := StringOrNull(s.failedProfileId)]
  }

  function WriteDelta(d: Delta): map<string, Value> {
    map["artifactSha" := StringOrNull(d.artifactSha), "validatorFingerprint" := StringOrNull(d.validatorFingerprint),
        "toolLoopPattern" := StringOrNull(d.toolLoopPattern), "blockedReasonFamily" := VString(d.blockedReasonFamily),
        "evidenceRefs" := VArray(WriteStrings(d.evidenceRefs)), "sourceSnapshotId" := StringOrNull(d.sourceSnapshotId),
        "sourceSnapshotFingerprint" := StringOrNull(d.sourceSnapshotFingerprint)]
  }

  const InputKey := "runtimeRecoveryFingerprintInput"

  function WriteDecision(d: Decision): map<string, Value> {
    map["runtimeRecoveryFingerprint" := VString(d.fingerprint),
        InputKey := VObject(WriteSignature(d.signature)),
        "runtimeRecoveryDeltaFields" := VObject(WriteDelta(DeltaOf(d.signature))),
        "runtimeCategory" := VString(d.signature.runtimeCategory),
        "recoveryKind" := VString(d.signature.recoveryKind),
        "blockedReasonFamily" := VString(d.signature.blockedReasonFamily),
        "deltaComparison" := VObject(d.comparison),
        "decision" := VString(if d.allowed then "allow_recovery" else "fail_closed_no_delta")]
  }

  function StringOr(fields: map<string, Value>, key: string, otherwise: string): string {
    var s := StringField(fields, key);
    if s.Some? then s.value else otherwise
  }

  function ReadSignature(fields: map<string, Value>): Signature {
    var refs := ArrayField(fields, "evidenceRefs");
    Signature(StringOr(fields, "taskId", ""), StringOr(fields, "stage", ""),
              StringOr(fields, "runtimeCategory", "unknown"), StringOr(fields, "recoveryKind", "runtime_recovery"),
              StringField(fields, "artifactPath"), StringField(fields, "artifactSha"),
              StringField(fields, "validatorFingerprint"), StringField(fields, "toolLoopPattern"),
              StringOr(fields, "blockedReasonFamily", "runtime_failure"),
              if refs.Some? then StringsIn(refs.value) else [],
              StringField(fields, "sourceSnapshotId"), StringField(fields, "sourceSnapshotFingerprint"),
              StringField(fields, "failedProfileId"))
  }

  /** The signature that a row's metadata holds, if it holds one. */
  function ReadDeltaInput(metadata: map<string, Value>): Option<Signature> {
    var raw := ObjectField(metadata, InputKey);
    if raw.None? then None else Some(ReadSignature(raw.value))
  }

  /** No two keys are equal: those of one length differ in their first letter. */
  lemma KeysDiffer()
    ensures |"taskId"| == 6 && |"stage"| == 5 && |"runtimeCategory"| == 15 &&
            |"recoveryKind"| == 12 && |"artifactPath"| == 12 && |"artifactSha"| == 11 &&
            |"validatorFingerprint"| == 20 && |"toolLoopPattern"| == 15 && |"blockedReasonFamily"| == 19 &&
            |"evidenceRefs"| == 12 && |"sourceSnapshotId"| == 16 && |"sourceSnapshotFingerprint"| == 25 &&
            |"failedProfileId"| == 15
    ensures "runtimeCategory"[0] == 'r' && "toolLoopPattern"[0] == 't' && "failedProfileId"[0] == 'f' &&
            "recoveryKind"[0] == 'r' && "artifactPath"[0] == 'a' && "evidenceRefs"[0] == 'e'
  {
  }

  ghost predicate HoldsTask(fields: map<string, Value>, s: Signature) {
    && StringField(fields, "taskId") == Some(s.taskId)
    && StringField(fields, "stage") == Some(s.stage)
    && StringField(fields, "runtimeCategory") == Some(s.runtimeCategory)
    && StringField(fields, "recoveryKind") == Some(s.recoveryKind)
  }

  ghost predicate HoldsArtifact(fields: map<string, Value>, s: Signature) {
    && StringField(fields, "artifactPath") == s.artifactPath
    && StringField(fields, "artifactSha") == s.artifactSha
    && StringField(fields, "validatorFingerprint") == s.validatorFingerprint
    && StringField(fields, "toolLoopPattern") == s.toolLoopPattern
  }

  ghost predicate HoldsEvidence(fields: map<string, Value>, s: Signature) {
    && StringField(fields, "blockedReasonFamily") == Some(s.blockedReasonFamily)
    && ArrayField(fields, "evidenceRefs") == Some(WriteStrings(s.evidenceRefs))
    && StringField(fields, "sourceSnapshotId") == s.sourceSnapshotId
    && StringField(fields, "sourceSnapshotFingerprint") == s.sourceSnapshotFingerprint
    && StringField(fields, "failedProfileId") == s.failedProfileId
  }

  lemma WrittenTask(s: Signature)
    ensures HoldsTask(WriteSignature(s), s)
  {
    KeysDiffer();
  }

  lemma WrittenArtifact(s: Signature)
    ensures HoldsArtifact(WriteSignature(s), s)
  {
    KeysDiffer();
  }

  lemma WrittenEvidence(s: Signature)
    ensures HoldsEvidence(WriteSignature(s), s)
  {
    KeysDiffer();
  }

  lemma HeldReadsBack(fields: map<string, Value>, s: Signature)
    requires HoldsTask(fields, s) && HoldsArtifact(fields, s) && HoldsEvidence(fields, s)
    ensures ReadSignature(fields) == s
  {
    StringsReadBack(s.evidenceRefs);
  }

  lemma InputIsHeld(d: Decision)
    ensures ObjectField(WriteDecision(d), InputKey) == Some(WriteSignature(d.signature))
  {
    assert |InputKey| == 31 && |"runtimeRecoveryDeltaFields"| == 26 && |"runtimeCategory"| == 15 &&
      |"recoveryKind"| == 12 && |"blockedReasonFamily"| == 19 && |"deltaComparison"| == 15 && |"decision"| == 8;
  }

  /** Every decision is read back with the signature it was made for. */
  lemma DecisionReadsBack(d: Decision)
    ensures ReadDeltaInput(WriteDecision(d)) == Some(d.signature)
  {
    InputIsHeld(d);
    WrittenTask(d.signature);
    WrittenArtifact(d.signature);
    WrittenEvidence(d.signature);
    HeldReadsBack(WriteSignature(d.signature), d.signature);
  }

  // ---- Comparing ----

  function Strings(refs: seq<string>): seq<Json> {
    Map(refs, (r: string) => Str(r))
  }

  /** Evidence references are compared by their stable JSON texts. */
  predicate SameEvidence(a: seq<string>, b: seq<string>, leq: Order) {
    Print(Arr(Strings(a)), leq) == Print(Arr(Strings(b)), leq)
  }

  predicate NoDelta(current: Signature, prior: Signature, leq: Order) {
    && current.artifactSha == prior.artifactSha
    && current.validatorFingerprint == prior.validatorFingerprint
    && current.toolLoopPattern == prior.toolLoopPattern
    && current.blockedReasonFamily == prior.blockedReasonFamily
    && SameEvidence(current.evidenceRefs, prior.evidenceRefs, leq)
    && current.sourceSnapshotId == prior.sourceSnapshotId
    && current.sourceSnapshotFingerprint == prior.sourceSnapshotFingerprint
  }

  lemma {:induction false} StringsMean(refs: seq<string>)
    ensures WellFormedItems(Strings(refs))
    ensures |DenoteItems(Strings(refs))| == |refs|
    ensures forall i :: 0 <= i < |refs| ==> DenoteItems(Strings(refs))[i] == MStr(refs[i])
  {
    if refs != [] {
      assert Strings(refs)[1..] == Strings(refs[1..]);
      StringsMean(refs[1..]);
    }
  }

  lemma SameEvidenceIff(a: seq<string>, b: seq<string>, leq: Order)
    ensures SameEvidence(a, b, leq) <==> a == b
  {
    if SameEvidence(a, b, leq) {
      StringsMean(a);
      StringsMean(b);
      EqualTextsEqualMeanings(Arr(Strings(a)), Arr(Strings(b)), leq);
      assert DenoteItems(Strings(a)) == DenoteItems(Strings(b));
      forall i | 0 <= i < |a|
        ensures a[i] == b[i]
      {
        assert DenoteItems(Strings(a))[i] == MStr(a[i]) && DenoteItems(Strings(b))[i] == MStr(b[i]);
      }
    }
  }

  lemma NoDeltaIff(current: Signature, prior: Signature, leq: Order)
    ensures NoDelta(current, prior, leq) <==> DeltaOf(current) == DeltaOf(prior)
  {
    SameEvidenceIff(current.evidenceRefs, prior.evidenceRefs, leq);
  }

  // ---- The guard ----

  /** The attempt is a recorded decision about the same kind of recovery. */
  predicate SameKind(a: Attempt, s: Signature) {
    var prior := ReadDeltaInput(a.metadata);
    a.stage == GuardStage && a.kind == GuardKind && prior.Some? && prior.value.recoveryKind == s.recoveryKind
  }

  predicate Blocks(a: Attempt, s: Signature, leq: Order) {
    SameKind(a, s) && NoDelta(s, ReadDeltaInput(a.metadata).value, leq)
  }

  predicate Allowed(history: seq<Attempt>, s: Signature, leq: Order) {
    forall i :: 0 <= i < |history| ==> !Blocks(history[i], s, leq)
  }

  method EvaluateRuntimeRecoveryDelta(history: seq<Attempt>, s: Signature, leq: Order) returns (allowed: bool)
    ensures allowed == Allowed(history, s, leq)
    ensures allowed <==>
            forall i :: 0 <= i < |history| && SameKind(history[i], s) ==>
              DeltaOf(ReadDeltaInput(history[i].metadata).value) != DeltaOf(s)
  {
    for i := 0 to |history|
      invariant forall j :: 0 <= j < i ==> !Blocks(history[j], s, leq)
      invariant forall j :: 0 <= j < i && SameKind(history[j], s) ==>
                  DeltaOf(ReadDeltaInput(history[j].metadata).value) != DeltaOf(s)
    {
      var attempt := history[i];
      if attempt.stage != GuardStage || attempt.kind != GuardKind {
        continue;
      }
      var prior := ReadDeltaInput(attempt.metadata);
      if prior.None? || prior.value.recoveryKind != s.recoveryKind {
        continue;
      }
      NoDeltaIff(s, prior.value, leq);
      if NoDelta(s, prior.value, leq) {
        return false;
      }
    }
    return true;
  }

  // ---- Histories ----

  /** A decision is recorded whatever it is; anything else may be appended at any time. */
  datatype Event = Decide(decision: Decision) | Append(attempt: Attempt)

  function RowOf(e: Event): Attempt {
    if e.Decide? then Attempt(GuardStage, GuardKind, WriteDecision(e.decision)) else e.attempt
  }

  function HistoryAfter(start: seq<Attempt>, events: seq<Event>): seq<Attempt> {
    start + Map(events, (e: Event) => RowOf(e))
  }

  predicate Grants(start: seq<Attempt>, events: seq<Event>, i: nat, leq: Order)
    requires i < |events|
  {
    events[i].Decide? && Allowed(HistoryAfter(start, events[..i]), events[i].decision.signature, leq)
  }

  lemma RecordedBefore(start: seq<Attempt>, events: seq<Event>, i: nat, j: nat) returns (k: nat)
    requires i < j < |events|
    ensures k < |HistoryAfter(start, events[..j])| && HistoryAfter(start, events[..j])[k] == RowOf(events[i])
  {
    k := |start| + i;
    assert events[..j][i] == events[i];
  }

  /** Over any history, the recoveries granted for one kind have pairwise different delta fields. */
  lemma GrantedDeltasDiffer(start: seq<Attempt>, events: seq<Event>, i: nat, j: nat, leq: Order)
    requires i < j < |events| && events[i].Decide?
    requires Grants(start, events, j, leq)
    requires events[i].decision.signature.recoveryKind == events[j].decision.signature.recoveryKind
    ensures DeltaOf(events[i].decision.signature) != DeltaOf(events[j].decision.signature)
  {
    var k := RecordedBefore(start, events, i, j);
    DecisionReadsBack(events[i].decision);
    NoDeltaIff(events[j].decision.signature, events[i].decision.signature, leq);
    assert !Blocks(HistoryAfter(start, events[..j])[k], events[j].decision.signature, leq);
  }

  /** Nothing that counts changed between the two: artifact, validator, tool loop, reason, evidence and snapshot. */
  ghost predicate NothingChanged(a: Signature, b: Signature) {
    && a.artifactSha == b.artifactSha && a.validatorFingerprint == b.validatorFingerprint
    && a.toolLoopPattern == b.toolLoopPattern && a.blockedReasonFamily == b.blockedReasonFamily
    && a.evidenceRefs == b.evidenceRefs
    && a.sourceSnapshotId == b.sourceSnapshotId && a.sourceSnapshotFingerprint == b.sourceSnapshotFingerprint
  }

  ghost predicate IsGuardRow(a: Attempt) {
    a.stage == GuardStage && a.kind == GuardKind
  }

  /** Only the guard itself writes the guard's rows. */
  ghost predicate GuardRowsAreOwn(start: seq<Attempt>, events: seq<Event>) {
    && (forall a :: a in start ==> !IsGuardRow(a))
    && forall e :: e in events && e.Append? ==> !IsGuardRow(e.attempt)
  }

  ghost predicate AskedBefore(events: seq<Event>, i: nat, j: nat)
    requires i < |events| && j < |events| && events[j].Decide?
  {
    && i < j && events[i].Decide?
    && events[i].decision.signature.recoveryKind == events[j].decision.signature.recoveryKind
    && NothingChanged(events[i].decision.signature, events[j].decision.signature)
  }

  lemma OwnRowBlocks(d: Decision, s: Signature, leq: Order)
    ensures Blocks(Attempt(GuardStage, GuardKind, WriteDecision(d)), s, leq) <==>
            d.signature.recoveryKind == s.recoveryKind && NothingChanged(d.signature, s)
  {
    DecisionReadsBack(d);
    NoDeltaIff(s, d.signature, leq);
  }

  /** A recovery is granted exactly when no earlier one of its kind was asked for with nothing changed since. */
  lemma GrantedIffChanged(start: seq<Attempt>, events: seq<Event>, j: nat, leq: Order)
    requires j < |events| && events[j].Decide? && GuardRowsAreOwn(start, events)
    ensures Grants(start, events, j, leq) <==> forall i :: 0 <= i < j ==> !AskedBefore(events, i, j)
  {
    var s, history := events[j].decision.signature, HistoryAfter(start, events[..j]);
    forall k | 0 <= k < |history|
      ensures Blocks(history[k], s, leq) <==> k >= |start| && AskedBefore(events, k - |start|, j)
    {
      if k < |start| {
        assert history[k] == start[k] && start[k] in start;
        assert !SameKind(history[k], s);
      } else {
        var e := events[k - |start|];
        assert events[..j][k - |start|] == e && history[k] == RowOf(e);
        if e.Decide? {
          OwnRowBlocks(e.decision, s, leq);
        } else {
          assert e in events && !SameKind(history[k], s);
        }
      }
    }
    forall i | 0 <= i < j
      ensures Blocks(history[|start| + i], s, leq) <==> AskedBefore(events, i, j)
    {
    }
  }

  /** The record says whether the recovery was allowed. */
  lemma RecordSays(d: Decision)
    ensures StringField(WriteDecision(d), "decision") == Some("allow_recovery") <==> d.allowed
  {
    assert |"allow_recovery"| == 14 && |"fail_closed_no_delta"| == 20;
  }

  // ---- Context fallbacks ----

  const ContextFallbackKind := "context_fallback"

  /** What a context-length failure asks the guard about: only the snapshot can make a difference. */
  function ContextSignature(taskId: string, stage: string, snapshotId: Option<string>, failedProfileId: Option<string>)
    : Signature
  {
    Signature(taskId, stage, "context_length", ContextFallbackKind, None, None, None, None, "context_length", [],
              snapshotId, None, failedProfileId)
  }

  predicate AsksForContextFallback(e: Event, snapshotId: Option<string>) {
    e.Decide? &&
    var s := e.decision.signature;
    s == ContextSignature(s.taskId, s.stage, snapshotId, s.failedProfileId)
  }

  /** One requirements snapshot gets at most one context fallback, whatever profile failed and in whatever stage. */
  lemma OneContextFallbackPerSnapshot(start: seq<Attempt>, events: seq<Event>, i: nat, j: nat,
                                      snapshotId: Option<string>, leq: Order)
    requires i < j < |events|
    requires AsksForContextFallback(events[i], snapshotId) && AsksForContextFallback(events[j], snapshotId)
    ensures !Grants(start, events, j, leq)
  {
    if Grants(start, events, j, leq) {
      GrantedDeltasDiffer(start, events, i, j, leq);
    }
  }
}
