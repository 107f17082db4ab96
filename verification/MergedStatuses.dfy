/**
  What a merged previous finding says when reviewers disagree (packages/agent/src/reviewContract.ts:783-831): which
  status wins, and that a note survives unless there is a conflict.
 */
module MergedStatuses {
  import opened Collections
  import opened InsertionMap
  import opened ReviewFindings
  import opened ReviewRows
  import opened ReviewMerge

  /** Some report that counts gives the finding this status. */
  ghost predicate SaidBy(reports: seq<PreviousFinding>, expected: Expected, id: string, status: ClosureStatus) {
    exists f :: f in reports && f.id == id && Counts(f, expected) && f.status == status
  }

  /**
    A merged finding needs a person if anyone says so; else it still blocks, else it blocks anew, else it could not
    be reproduced, if anyone says so; and it is resolved only if all say so.
   */
  lemma MergedStatusIs(m: Merged, reports: seq<PreviousFinding>, expected: Expected, id: string)
    requires MergeFaithful(m, reports, expected) && id in m.entries
    ensures m.entries[id].status ==
            if SaidBy(reports, expected, id, ManualReviewRequired) then ManualReviewRequired
            else if SaidBy(reports, expected, id, StillBlocking) then StillBlocking
            else if SaidBy(reports, expected, id, NewBlocker) then NewBlocker
            else if SaidBy(reports, expected, id, NotReproducible) then NotReproducible
            else Resolved
  {
    var status := m.entries[id].status;
    assert EntryFaithful(m.entries[id], reports, expected, id);
    assert Reported(reports, expected, id);
    forall f | f in reports && f.id == id
      ensures Counts(f, expected)
    {
      assert expected.Some? ==> id in expected.value;
    }
    assert SaidBy(reports, expected, id, status);
  }

  // ---- Notes ----

  /** How a conflict between two reports is worded; the winner's note comes first. */
  function Conflict(note: string, id: string, a: PreviousFinding, b: PreviousFinding): string {
    note + " Conflicting reviewer status for [" + id + "] was consolidated from " + a.source + ":" +
    StatusName(a.status) + " and " + b.source + ":" + StatusName(b.status) + "."
  }

  /** Two reports: the first source stays, the more severe one's words win, and a conflict is put on record. */
  lemma ConsolidatedSays(e: PreviousFinding, f: PreviousFinding, norm: string -> string)
    requires e.id == f.id
    ensures var r := Consolidate(e, f, norm); var winner := if r.status == e.status then e else f;
      && r.id == e.id && r.source == e.source && r.status in {e.status, f.status}
      && (if e.note == f.note then r.note == e.note else r.note == norm(Conflict(winner.note, e.id, e, f)))
      && r.closureEvidence == Some(r.note)
  {
  }

  /** What the reports that count say on the finding, with one voice. */
  ghost predicate AllSay(reports: seq<PreviousFinding>, expected: Expected, id: string, note: string) {
    forall f :: f in reports && f.id == id && Counts(f, expected) ==> f.note == note
  }

  /** A note on which all reports agree is the merged finding's note. */
  lemma {:induction false} AgreedNoteStays(reports: seq<PreviousFinding>, expected: Expected, norm: string -> string,
                                           id: string, note: string)
    requires AllSay(reports, expected, id, note)
    requires id in MergeReports(reports, expected, norm).entries
    ensures MergeReports(reports, expected, norm).entries[id].note == note
  {
    var before, last := Init(reports), Last(reports);
    assert reports == before + [last];
    if id in MergeReports(before, expected, norm).entries {
      AgreedNoteStays(before, expected, norm, id, note);
    }
  }

  lemma UnreportedIsAbsent(reports: seq<PreviousFinding>, expected: Expected, norm: string -> string, id: string)
    requires forall f :: f in reports ==> f.id != id
    ensures id !in MergeReports(reports, expected, norm).entries
  {
    MergeIsFaithful(reports, expected, norm);
    assert !Reported(reports, expected, id);
  }

  /** A finding with one report that counts is that report, under the expected source. */
  lemma {:induction false} SoleReportStays(reports: seq<PreviousFinding>, expected: Expected, norm: string -> string,
                                           i: nat)
    requires i < |reports| && Counts(reports[i], expected)
    requires forall j :: 0 <= j < |reports| && j != i ==> reports[j].id != reports[i].id
    ensures reports[i].id in MergeReports(reports, expected, norm).entries
    ensures MergeReports(reports, expected, norm).entries[reports[i].id] ==
            if expected.Some? then reports[i].(source := expected.value[reports[i].id]) else reports[i]
  {
    var before := Init(reports);
    if i < |before| {
      SoleReportStays(before, expected, norm, i);
      assert Last(reports) == reports[|reports| - 1];
    } else {
      UnreportedIsAbsent(before, expected, norm, reports[i].id);
    }
  }
}
