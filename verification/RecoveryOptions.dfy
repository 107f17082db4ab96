/**
  The runtime recovery state kept inside a task's runtime options
  (packages/agent/src/runtimeRecoveryOptions.ts:19-191).
 */
module RecoveryOptions {
  import opened Collections
  import opened JsonValues
  import opened ReviewText

  /** The stored options: none, text that is not a JSON object, or an object. */
  datatype Raw = Absent | Malformed | Document(options: map<string, Value>)

  const RecoveryKey := "__aifRuntimeRecovery"

  datatype Reason = ContextLength | TransientRuntimeError

  datatype Fallback = Fallback(
    stage: string, profileId: string, previousProfileId: Option<string>, reason: Reason, attempt: real,
    createdAt: string)

  datatype Recovery = Recovery(fallback: Option<Fallback>, failed: map<string, seq<string>>)

  function ParseOptions(raw: Raw): map<string, Value> {
    if raw.Document? then raw.options else map[]
  }

  function Serialize(options: map<string, Value>): Raw {
    if options == map[] then Absent else Document(options)
  }

  predicate Blank(s: string) {
    Trim(s) == ""
  }

  /** The values that are not blank, each at its first place. */
  function Unique(values: seq<string>): seq<string> {
    if values == [] then []
    else
      var init := Unique(values[..|values| - 1]);
      var last := values[|values| - 1];
      if Blank(last) || last in init then init else init + [last]
  }

  // ---- Reading ----

  /** The failed lists that are lists, cleaned up. */
  function ReadFailedLists(raw: map<string, Value>): map<string, seq<string>> {
    map stage | stage in raw.Keys && raw[stage].VArray? :: Unique(StringsIn(raw[stage].items))
  }

  function Truncate(n: real): int {
    if n >= 0.0 then n.Floor else -((-n).Floor)
  }

  function ReadAttempt(fields: map<string, Value>): real {
    if "attempt" in fields && fields["attempt"].VNumber? then Max(1, Truncate(fields["attempt"].n)) as real else 1.0
  }

  const Epoch := "1970-01-01T00:00:00.000Z"

  function ReadFallback(fields: map<string, Value>): Option<Fallback> {
    var stage := StringField(fields, "stage");
    var profileId := StringField(fields, "profileId");
    if stage.None? || profileId.None? || Blank(profileId.value) then None
    else
      var createdAt := StringField(fields, "createdAt");
      Some(Fallback(stage.value, profileId.value, StringField(fields, "previousProfileId"),
                    if StringField(fields, "reason") == Some("transient_runtime_error") then TransientRuntimeError
                    else ContextLength,
                    ReadAttempt(fields), if createdAt.Some? then createdAt.value else Epoch))
  }

  const FallbackKey := "contextFallback"
  const FailedKey := "failedContextProfileIds"

  function ReadFields(raw: map<string, Value>): Recovery {
    var failed := ObjectField(raw, FailedKey);
    var fallback := ObjectField(raw, FallbackKey);
    Recovery(if fallback.Some? then ReadFallback(fallback.value) else None,
             if failed.Some? then ReadFailedLists(failed.value) else map[])
  }

  function ReadRecoveryState(options: map<string, Value>): Recovery {
    var raw := ObjectField(options, RecoveryKey);
    if raw.None? then Recovery(None, map[]) else ReadFields(raw.value)
  }

  method CollectFailedLists(raw: map<string, Value>) returns (failed: map<string, seq<string>>)
    ensures failed == ReadFailedLists(raw)
  {
    failed := map[];
    var unseen := raw.Keys;
    while unseen != {}
      invariant unseen <= raw.Keys
      invariant failed == map stage | stage in ReadFailedLists(raw).Keys && stage !in unseen :: ReadFailedLists(raw)[stage]
    {
      ghost var some := AnyElement(unseen);
      var stage :| stage in unseen;
      unseen := unseen - {stage};
      if !raw[stage].VArray? {
        continue;
      }
      failed := failed[stage := Unique(StringsIn(raw[stage].items))];
    }
  }

  // ---- Writing ----

  function ReasonName(reason: Reason): string {
    if reason.TransientRuntimeError? then "transient_runtime_error" else "context_length"
  }

  function WriteFallback(f: Fallback): map<string, Value> {
    map["stage" := VString(f.stage), "profileId" := VString(f.profileId),
        "previousProfileId" := if f.previousProfileId.Some? then VString(f.previousProfileId.value) else VNull,
        "reason" := VString(ReasonName(f.reason)), "attempt" := VNumber(f.attempt),
        "createdAt" := VString(f.createdAt)]
  }

  function WriteFailed(failed: map<string, seq<string>>): map<string, Value> {
    map stage | stage in failed.Keys :: VArray(WriteStrings(failed[stage]))
  }

  function WriteRecovery(r: Recovery): map<string, Value> {
    var fallback: map<string, Value> :=
      if r.fallback.Some? then map[FallbackKey := VObject(WriteFallback(r.fallback.value))] else map[];
    if r.failed != map[] then fallback[FailedKey := VObject(WriteFailed(r.failed))] else fallback
  }

  predicate HasState(r: Recovery) {
    r.fallback.Some? || r.failed != map[]
  }

  function WithRecovery(raw: Raw, r: Recovery): Raw {
    var options := ParseOptions(raw);
    Serialize(if HasState(r) then options[RecoveryKey := VObject(WriteRecovery(r))] else options - {RecoveryKey})
  }

  // ---- The operations ----

  function RecoveryOf(raw: Raw): Recovery {
    ReadRecoveryState(ParseOptions(raw))
  }

  /** What is handed to the adapter: everything but the recovery state. */
  function AdapterOptions(raw: Raw): map<string, Value> {
    ParseOptions(raw) - {RecoveryKey}
  }

  datatype Split = Split(adapterOptions: Option<map<string, Value>>, recovery: Recovery)

  function SplitRecoveryOptions(raw: Raw): Split {
    Split(if AdapterOptions(raw) != map[] then Some(AdapterOptions(raw)) else None, RecoveryOf(raw))
  }

  function ReadContextFallback(raw: Raw, stage: string): Option<Fallback> {
    var fallback := SplitRecoveryOptions(raw).recovery.fallback;
    if fallback.Some? && fallback.value.stage == stage then fallback else None
  }

  function FailedList(r: Recovery, stage: string): seq<string> {
    if stage in r.failed then r.failed[stage] else []
  }

  function ReadFailedProfiles(raw: Raw, stage: string): seq<string> {
    Unique(FailedList(SplitRecoveryOptions(raw).recovery, stage))
  }

  function AddFailed(r: Recovery, stage: string, profileId: Option<string>): Recovery {
    r.(failed := r.failed[stage := Unique(FailedList(r, stage) + if profileId.Some? then [profileId.value] else [])])
  }

  function SetContextFallback(raw: Raw, f: Fallback, failedProfileId: Option<string>): Raw {
    WithRecovery(raw, AddFailed(RecoveryOf(raw), f.stage, failedProfileId).(fallback := Some(f)))
  }

  function MarkContextProfileFailed(raw: Raw, stage: string, profileId: Option<string>): Raw {
    if profileId.None? || profileId.value == "" then raw
    else WithRecovery(raw, AddFailed(RecoveryOf(raw), stage, profileId))
  }

  function ClearContextFallback(raw: Raw, stage: string): Raw {
    var r := RecoveryOf(raw);
    WithRecovery(raw, if r.fallback.Some? && r.fallback.value.stage == stage then r.(fallback := None) else r)
  }

  // ---- Unique ----

  lemma {:induction false} UniqueMembers(values: seq<string>)
    ensures NoDuplicates(Unique(values))
    ensures forall v :: v in Unique(values) <==> v in values && !Blank(v)
  {
    if values != [] {
      UniqueMembers(values[..|values| - 1]);
      assert values == values[..|values| - 1] + [values[|values| - 1]];
    }
  }

  /** A list without blanks and repetitions stays as it is. */
  lemma {:induction false} UniqueKeeps(values: seq<string>)
    requires NoDuplicates(values) && forall i :: 0 <= i < |values| ==> !Blank(values[i])
    ensures Unique(values) == values
  {
    if values != [] {
      var init := values[..|values| - 1];
      UniqueKeeps(init);
      assert values[|values| - 1] !in init;
      assert values == init + [values[|values| - 1]];
    }
  }

  lemma UniqueTwice(values: seq<string>)
    ensures Unique(Unique(values)) == Unique(values)
  {
    UniqueMembers(values);
    forall i | 0 <= i < |Unique(values)|
      ensures !Blank(Unique(values)[i])
    {
      assert Unique(values)[i] in Unique(values);
    }
    UniqueKeeps(Unique(values));
  }

  // ---- Reading back what was written ----

  lemma FailedReadBack(failed: map<string, seq<string>>)
    ensures ReadFailedLists(WriteFailed(failed)) == map stage | stage in failed.Keys :: Unique(failed[stage])
  {
    forall stage | stage in failed
      ensures StringsIn(WriteStrings(failed[stage])) == failed[stage]
    {
      StringsReadBack(failed[stage]);
    }
  }

  /** The fallback as it is read back: the attempt becomes a whole number, at least one. */
  function Settled(f: Fallback): Option<Fallback> {
    if Blank(f.profileId) then None else Some(f.(attempt := Max(1, Truncate(f.attempt)) as real))
  }

  lemma FallbackReadBack(f: Fallback)
    ensures ReadFallback(WriteFallback(f)) == Settled(f)
  {
    assert |"transient_runtime_error"| == 23 && |"context_length"| == 14;
  }

  /** The recovery state as it is read back. */
  function Stored(r: Recovery): Recovery {
    Recovery(if r.fallback.Some? then Settled(r.fallback.value) else None,
             map stage | stage in r.failed.Keys :: Unique(r.failed[stage]))
  }

  lemma KeysDiffer()
    ensures FallbackKey != FailedKey
  {
    assert FallbackKey[0] == 'c' && FailedKey[0] == 'f';
  }

  lemma WrittenFields(r: Recovery)
    ensures ObjectField(WriteRecovery(r), FallbackKey) ==
            if r.fallback.Some? then Some(WriteFallback(r.fallback.value)) else None
    ensures ObjectField(WriteRecovery(r), FailedKey) == if r.failed != map[] then Some(WriteFailed(r.failed)) else None
  {
    KeysDiffer();
  }

  lemma FieldsReadBack(r: Recovery)
    ensures ReadFields(WriteRecovery(r)) == Stored(r)
  {
    WrittenFields(r);
    if r.fallback.Some? {
      FallbackReadBack(r.fallback.value);
    }
    FailedReadBack(r.failed);
  }

  lemma ParseSerialized(options: map<string, Value>)
    ensures ParseOptions(Serialize(options)) == options
  {
  }

  lemma WrittenIsStored(raw: Raw, r: Recovery)
    ensures RecoveryOf(WithRecovery(raw, r)) == Stored(r)
    ensures AdapterOptions(WithRecovery(raw, r)) == AdapterOptions(raw)
  {
    var options := ParseOptions(raw);
    if HasState(r) {
      ParseSerialized(options[RecoveryKey := VObject(WriteRecovery(r))]);
      FieldsReadBack(r);
    } else {
      ParseSerialized(options - {RecoveryKey});
    }
  }

  lemma StoredFailed(r: Recovery, stage: string)
    ensures FailedList(Stored(r), stage) == Unique(FailedList(r, stage))
  {
  }

  // ---- What the operations promise ----

  lemma FailedIsUnique(raw: Raw, stage: string)
    requires stage in RecoveryOf(raw).failed
    ensures Unique(RecoveryOf(raw).failed[stage]) == RecoveryOf(raw).failed[stage]
  {
    var fields := ObjectField(ParseOptions(raw), RecoveryKey);
    var lists := ObjectField(fields.value, FailedKey);
    UniqueTwice(StringsIn(lists.value[stage].items));
  }

  lemma FailedRead(raw: Raw, stage: string)
    ensures ReadFailedProfiles(raw, stage) == FailedList(RecoveryOf(raw), stage)
  {
    if stage in RecoveryOf(raw).failed {
      FailedIsUnique(raw, stage);
    }
  }

  lemma AddedFailed(raw: Raw, r: Recovery, stage: string, profileId: Option<string>, other: string)
    requires r.failed == AddFailed(RecoveryOf(raw), stage, profileId).failed
    ensures ReadFailedProfiles(WithRecovery(raw, r), other) ==
            if other == stage
            then Unique(ReadFailedProfiles(raw, stage) + if profileId.Some? then [profileId.value] else [])
            else ReadFailedProfiles(raw, other)
  {
    WrittenIsStored(raw, r);
    FailedRead(raw, stage);
    FailedRead(raw, other);
    StoredFailed(r, other);
    UniqueTwice(FailedList(RecoveryOf(raw), stage) + if profileId.Some? then [profileId.value] else []);
  }

  /** Setting a fallback adds the failed profile to its stage's list and touches nothing else. */
  lemma SetKeepsTheRest(raw: Raw, f: Fallback, failedProfileId: Option<string>, other: string)
    ensures AdapterOptions(SetContextFallback(raw, f, failedProfileId)) == AdapterOptions(raw)
    ensures ReadFailedProfiles(SetContextFallback(raw, f, failedProfileId), other) ==
            if other == f.stage
            then Unique(ReadFailedProfiles(raw, other) + if failedProfileId.Some? then [failedProfileId.value] else [])
            else ReadFailedProfiles(raw, other)
  {
    var r := AddFailed(RecoveryOf(raw), f.stage, failedProfileId).(fallback := Some(f));
    WrittenIsStored(raw, r);
    AddedFailed(raw, r, f.stage, failedProfileId, other);
  }

  /** The options are absent exactly when there is neither state nor anything for the adapter; so is its part. */
  lemma NothingIsAbsent(raw: Raw, r: Recovery)
    ensures WithRecovery(raw, r) == Absent <==> AdapterOptions(raw) == map[] && r.fallback.None? && r.failed == map[]
    ensures WithRecovery(raw, r).Document? ==> WithRecovery(raw, r).options != map[]
    ensures SplitRecoveryOptions(raw).adapterOptions ==
            if exists key :: key in ParseOptions(raw) && key != RecoveryKey then Some(ParseOptions(raw) - {RecoveryKey})
            else None
  {
    var options := ParseOptions(raw);
    if options - {RecoveryKey} != map[] {
      var key :| key in (options - {RecoveryKey}).Keys;
      assert key in options && key != RecoveryKey;
    }
    if key :| key in options && key != RecoveryKey {
      assert key in options - {RecoveryKey};
    }
    assert RecoveryKey in options[RecoveryKey := VObject(WriteRecovery(r))];
  }

  /** A set fallback reads back as itself exactly when its profile is not blank and its attempt a positive integer. */
  lemma SetThenRead(raw: Raw, f: Fallback, failedProfileId: Option<string>)
    ensures ReadContextFallback(SetContextFallback(raw, f, failedProfileId), f.stage) == Settled(f)
    ensures ReadContextFallback(SetContextFallback(raw, f, failedProfileId), f.stage) == Some(f) <==>
            !Blank(f.profileId) && f.attempt >= 1.0 && f.attempt == f.attempt.Floor as real
  {
    hide AddFailed, RecoveryOf;
    WrittenIsStored(raw, AddFailed(RecoveryOf(raw), f.stage, failedProfileId).(fallback := Some(f)));
  }

  lemma StoredFallback(raw: Raw)
    ensures RecoveryOf(raw).fallback.Some? ==> Settled(RecoveryOf(raw).fallback.value) == RecoveryOf(raw).fallback
  {
  }

  lemma KeptFallbackReads(raw: Raw, r: Recovery, other: string)
    requires r.fallback == RecoveryOf(raw).fallback
    ensures ReadContextFallback(WithRecovery(raw, r), other) == ReadContextFallback(raw, other)
  {
    WrittenIsStored(raw, r);
    StoredFallback(raw);
  }

  lemma AddingBlank(values: seq<string>, blank: string)
    requires Blank(blank)
    ensures Unique(values + [blank]) == Unique(values)
  {
    assert (values + [blank])[..|values|] == values;
  }

  lemma AddingBlankProfile(raw: Raw, stage: string)
    ensures Unique(ReadFailedProfiles(raw, stage) + [""]) == ReadFailedProfiles(raw, stage)
  {
    AddingBlank(ReadFailedProfiles(raw, stage), "");
    UniqueTwice(FailedList(RecoveryOf(raw), stage));
  }

  /** Marking a profile failed leaves the fallback, the adapter options and other stages' lists alone. */
  lemma MarkKeepsTheRest(raw: Raw, stage: string, profileId: Option<string>, other: string)
    ensures AdapterOptions(MarkContextProfileFailed(raw, stage, profileId)) == AdapterOptions(raw)
    ensures ReadContextFallback(MarkContextProfileFailed(raw, stage, profileId), other) ==
            ReadContextFallback(raw, other)
    ensures ReadFailedProfiles(MarkContextProfileFailed(raw, stage, profileId), other) ==
            if other == stage && profileId.Some? then Unique(ReadFailedProfiles(raw, stage) + [profileId.value])
            else ReadFailedProfiles(raw, other)
  {
    hide WithRecovery, RecoveryOf, ReadContextFallback, ReadFailedProfiles, Unique;
    if profileId.Some? && profileId.value != "" {
      var r := AddFailed(RecoveryOf(raw), stage, profileId);
      WrittenIsStored(raw, r);
      AddedFailed(raw, r, stage, profileId, other);
      KeptFallbackReads(raw, r, other);
    } else {
      AddingBlankProfile(raw, stage);
    }
  }

  /** Clearing removes the stage's fallback only. */
  lemma ClearKeepsTheRest(raw: Raw, stage: string, other: string)
    ensures AdapterOptions(ClearContextFallback(raw, stage)) == AdapterOptions(raw)
    ensures ReadContextFallback(ClearContextFallback(raw, stage), stage) == None
    ensures other != stage ==>
              ReadContextFallback(ClearContextFallback(raw, stage), other) == ReadContextFallback(raw, other)
    ensures ReadFailedProfiles(ClearContextFallback(raw, stage), other) == ReadFailedProfiles(raw, other)
  {
    var r := RecoveryOf(raw);
    var cleared := if r.fallback.Some? && r.fallback.value.stage == stage then r.(fallback := None) else r;
    WrittenIsStored(raw, cleared);
    StoredFallback(raw);
    FailedRead(raw, other);
    StoredFailed(cleared, other);
    UniqueTwice(FailedList(r, other));
  }
}
