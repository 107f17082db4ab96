/**
  What a merged finding says (packages/agent/src/reviewGate.ts:431-449): the words of the last finding with its id,
  and each optional field of the last one that has it, in the order in which the ids first appear.
 */
module MergedFindings {
  import opened Collections
  import opened ReviewFindings

  /** The optional fields of a finding. */
  datatype Field =
    | Status | ClosureEvidence | Severity | Location | Claim | RequiredFix | Verification | FirstSeen | LastSeen | Streak

  predicate Has(f: Finding, field: Field) {
    match field
    case Status => f.status.Some?
    case ClosureEvidence => f.closureEvidence.Some?
    case Severity => f.details.severity.Some?
    case Location => f.details.location.Some?
    case Claim => f.details.claim.Some?
    case RequiredFix => f.details.requiredFix.Some?
    case Verification => f.details.verification.Some?
    case FirstSeen => f.firstSeen.Some?
    case LastSeen => f.lastSeen.Some?
    case Streak => f.streak.Some?
  }

  predicate Same(f: Finding, g: Finding, field: Field) {
    match field
    case Status => f.status == g.status
    case ClosureEvidence => f.closureEvidence == g.closureEvidence
    case Severity => f.details.severity == g.details.severity
    case Location => f.details.location == g.details.location
    case Claim => f.details.claim == g.details.claim
    case RequiredFix => f.details.requiredFix == g.details.requiredFix
    case Verification => f.details.verification == g.details.verification
    case FirstSeen => f.firstSeen == g.firstSeen
    case LastSeen => f.lastSeen == g.lastSeen
    case Streak => f.streak == g.streak
  }

  /** The field of the last finding with the id that has it; absent if none has it. */
  ghost predicate FieldOfLast(findings: seq<Finding>, b: Finding, field: Field) {
    || (!Has(b, field) && forall f :: f in findings && f.id == b.id ==> !Has(f, field))
    || exists i :: 0 <= i < |findings| && GivesField(findings, b, field, i)
  }

  ghost predicate GivesField(findings: seq<Finding>, b: Finding, field: Field, i: nat)
    requires i < |findings|
  {
    && findings[i].id == b.id && Has(findings[i], field) && Same(b, findings[i], field)
    && forall j :: i < j < |findings| && findings[j].id == b.id ==> !Has(findings[j], field)
  }

  lemma FieldStays(findings: seq<Finding>, last: Finding, b: Finding, field: Field)
    requires FieldOfLast(findings, b, field) && (last.id != b.id || !Has(last, field))
    ensures FieldOfLast(findings + [last], b, field)
  {
    if i :| 0 <= i < |findings| && GivesField(findings, b, field, i) {
      assert GivesField(findings + [last], b, field, i);
    }
  }

  lemma FieldGiven(findings: seq<Finding>, last: Finding, b: Finding, field: Field)
    requires last.id == b.id && (Has(last, field) ==> Same(b, last, field))
    requires !Has(last, field) ==> FieldOfLast(findings, b, field)
    ensures FieldOfLast(findings + [last], b, field)
  {
    if Has(last, field) {
      assert GivesField(findings + [last], b, field, |findings|);
    } else {
      FieldStays(findings, last, b, field);
    }
  }

  lemma OverlayField(e: Finding, last: Finding, findings: seq<Finding>, field: Field)
    requires e.id == last.id && FieldOfLast(findings, e, field)
    ensures FieldOfLast(findings + [last], Overlay(e, last), field)
  {
    var b := Overlay(e, last);
    if !Has(last, field) {
      assert Same(b, e, field) && b.id == e.id;
      SameFieldOfLast(findings, e, b, field);
    }
    FieldGiven(findings, last, b, field);
  }

  lemma SameFieldOfLast(findings: seq<Finding>, e: Finding, b: Finding, field: Field)
    requires FieldOfLast(findings, e, field) && Same(b, e, field) && b.id == e.id
    ensures FieldOfLast(findings, b, field)
  {
    if i :| 0 <= i < |findings| && GivesField(findings, e, field, i) {
      assert GivesField(findings, b, field, i);
    }
  }

  lemma FirstField(findings: seq<Finding>, last: Finding, field: Field)
    requires last.id !in IdSet(findings)
    ensures FieldOfLast(findings + [last], last, field)
  {
    if Has(last, field) {
      assert GivesField(findings + [last], last, field, |findings|);
    } else {
      forall f | f in findings + [last] && f.id == last.id
        ensures f == last
      {
        assert f in findings ==> f.id in IdSet(findings);
      }
    }
  }

  /** The words of the last finding with the id. */
  ghost predicate WordsOfLast(findings: seq<Finding>, b: Finding) {
    var last := LastById(findings, b.id);
    last.Some? && b.text == last.value.text && b.source == last.value.source
  }

  lemma {:induction false} AbsorbMember(merged: seq<Finding>, finding: Finding, b: Finding) returns (e: Option<Finding>)
    requires DistinctIds(merged) && b in Absorb(merged, finding)
    ensures b.id != finding.id ==> b in merged
    ensures b.id == finding.id && e.None? ==> b == finding && finding.id !in IdSet(merged)
    ensures b.id == finding.id && e.Some? ==>
              e.value in merged && e.value.id == finding.id && b == Overlay(e.value, finding)
  {
    if merged == [] {
      return None;
    }
    SplitIds(merged);
    if merged[0].id == finding.id {
      return Some(merged[0]);
    }
    if b == merged[0] {
      return None;
    }
    e := AbsorbMember(merged[1..], finding, b);
  }

  lemma LastByIdMore(findings: seq<Finding>, last: Finding, id: string)
    ensures LastById(findings + [last], id) == if last.id == id then Some(last) else LastById(findings, id)
  {
    assert (findings + [last])[..|findings|] == findings;
  }

  lemma {:induction false} MergedSoFar(findings: seq<Finding>, b: Finding)
    requires b in MergeOnto([], findings)
    ensures WordsOfLast(findings, b)
    ensures forall field :: FieldOfLast(findings, b, field)
  {
    if findings != [] {
      var before, last := Init(findings), Last(findings);
      var merged := MergeOnto([], before);
      assert findings == before + [last] && findings[..|before|] == before && findings[..|findings|] == findings;
      MergeOntoOneMore([], findings, |before|);
      MergeOntoIds([], before);
      assert IdSet([]) == {};
      LastByIdMore(before, last, b.id);
      var e := AbsorbMember(merged, last, b);
      if b.id != last.id {
        MergedSoFar(before, b);
        forall field
          ensures FieldOfLast(findings, b, field)
        {
          FieldStays(before, last, b, field);
        }
      } else if e.Some? {
        MergedSoFar(before, e.value);
        forall field
          ensures FieldOfLast(findings, b, field)
        {
          OverlayField(e.value, last, before, field);
        }
      } else {
        forall field
          ensures FieldOfLast(findings, b, field)
        {
          FirstField(before, last, field);
        }
      }
    }
  }

  /** A merged finding has the words of the last one with its id, and each optional field of the last that has it. */
  lemma MergedSays(groups: seq<seq<Finding>>, b: Finding)
    requires b in Merge(groups)
    ensures WordsOfLast(Concat(groups), b)
    ensures forall field :: FieldOfLast(Concat(groups), b, field)
  {
    MergedSoFar(Concat(groups), b);
  }

  // ---- Order ----

  /** The ids in the order in which they first appear. */
  function FirstIds(findings: seq<Finding>): seq<string> {
    if findings == [] then []
    else FirstIds(Init(findings)) + if Last(findings).id in IdSet(Init(findings)) then [] else [Last(findings).id]
  }

  lemma {:induction false} AbsorbOrder(merged: seq<Finding>, finding: Finding)
    ensures Ids(Absorb(merged, finding)) == Ids(merged) + if finding.id in IdSet(merged) then [] else [finding.id]
  {
    if merged != [] {
      SplitIds(merged);
      if merged[0].id != finding.id {
        AbsorbOrder(merged[1..], finding);
      } else {
        assert Ids(merged) + [] == Ids(merged);
      }
    }
  }

  lemma {:induction false} MergedOrderSoFar(findings: seq<Finding>)
    ensures Ids(MergeOnto([], findings)) == FirstIds(findings)
  {
    if findings != [] {
      var before := Init(findings);
      assert findings[..|before|] == before && findings[..|findings|] == findings;
      MergeOntoOneMore([], findings, |before|);
      MergedOrderSoFar(before);
      MergeOntoIds([], before);
      assert IdSet([]) == {};
      AbsorbOrder(MergeOnto([], before), Last(findings));
    }
  }

  /** Merged findings keep the place where their id first appears. */
  lemma MergedOrder(groups: seq<seq<Finding>>)
    ensures Ids(Merge(groups)) == FirstIds(Concat(groups))
  {
    MergedOrderSoFar(Concat(groups));
  }
}
