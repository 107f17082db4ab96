/** Merging the reviewers' reports on previous findings (packages/agent/src/reviewContract.ts:783-831). */
module ReviewMerge {
  import opened Collections
  import opened InsertionMap
  import opened ReviewFindings
  import opened ReviewRows

  function Priority(status: ClosureStatus): nat {
    match status
    case Resolved => 1
    case NotReproducible => 2
    case NewBlocker => 3
    case StillBlocking => 4
    case ManualReviewRequired => 5
  }

  type Expected = Option<map<string, string>>

  type Merged = OrderedMap<string, PreviousFinding>

  predicate Counts(f: PreviousFinding, expected: Expected) {
    expected.Some? ==> f.id in expected.value
  }

  /** The report under the source that the finding originally had. */
  function UnderExpectedSource(f: PreviousFinding, expected: Expected): PreviousFinding
    requires Counts(f, expected)
  {
    if expected.Some? then f.(source := expected.value[f.id]) else f
  }

  function ConflictNote(selected: string, existing: PreviousFinding, f: PreviousFinding): string {
    selected + " Conflicting reviewer status for [" + f.id + "] was consolidated from " + existing.source + ":" +
    StatusName(existing.status) + " and " + f.source + ":" + StatusName(f.status) + "."
  }

  /** Two reports on the same finding: the more severe status wins, the first source stays. */
  function Consolidate(existing: PreviousFinding, f: PreviousFinding, norm: string -> string): PreviousFinding {
    var selected := if Priority(f.status) > Priority(existing.status) then f else existing;
    var note := if existing.note == f.note then selected.note else norm(ConflictNote(selected.note, existing, f));
    selected.(source := existing.source, note := note, closureEvidence := Some(note))
  }

  function MergeReport(m: Merged, f: PreviousFinding, expected: Expected, norm: string -> string): Merged {
    if !Counts(f, expected) then m
    else
      var report := UnderExpectedSource(f, expected);
      if f.id in m.entries then m.Put(f.id, Consolidate(m.entries[f.id], report, norm))
      else m.Put(f.id, report)
  }

  function MergeReports(reports: seq<PreviousFinding>, expected: Expected, norm: string -> string): Merged {
    if reports == [] then Empty()
    else MergeReport(MergeReports(reports[..|reports| - 1], expected, norm), reports[|reports| - 1], expected, norm)
  }

  // ---- What the merged findings are ----

  /** The most severe status that any report gives the id. */
  ghost predicate Strongest(reports: seq<PreviousFinding>, id: string, status: ClosureStatus) {
    && (exists f :: f in reports && f.id == id && f.status == status)
    && forall f :: f in reports && f.id == id ==> Priority(f.status) <= Priority(status)
  }

  ghost predicate Reported(reports: seq<PreviousFinding>, expected: Expected, id: string) {
    exists f :: f in reports && f.id == id && Counts(f, expected)
  }

  ghost predicate EntryFaithful(e: PreviousFinding, reports: seq<PreviousFinding>, expected: Expected, id: string) {
    && e.id == id && Strongest(reports, id, e.status)
    && (expected.Some? ==> id in expected.value && e.source == expected.value[id])
    && exists f :: f in reports && f.id == id && (expected.None? ==> f.source == e.source)
  }

  ghost predicate MergeFaithful(m: Merged, reports: seq<PreviousFinding>, expected: Expected) {
    && m.Valid()
    && (forall id :: id in m.entries <==> Reported(reports, expected, id))
    && forall id :: id in m.entries ==> EntryFaithful(m.entries[id], reports, expected, id)
  }

  lemma ReportedMore(reports: seq<PreviousFinding>, f: PreviousFinding, expected: Expected, id: string)
    ensures Reported(reports + [f], expected, id) <==>
            Reported(reports, expected, id) || (f.id == id && Counts(f, expected))
  {
    assert forall x :: x in reports + [f] <==> x in reports || x == f;
  }

  lemma FirstReport(reports: seq<PreviousFinding>, f: PreviousFinding, expected: Expected)
    requires Counts(f, expected) && !Reported(reports, expected, f.id)
    ensures EntryFaithful(UnderExpectedSource(f, expected), reports + [f], expected, f.id)
  {
    assert f in reports + [f];
    forall x | x in reports + [f] && x.id == f.id
      ensures x == f
    {
      if x in reports {
        assert Counts(x, expected);
      }
    }
  }

  lemma StrongerOf(reports: seq<PreviousFinding>, f: PreviousFinding, status: ClosureStatus)
    requires Strongest(reports, f.id, status)
    ensures Strongest(reports + [f], f.id, if Priority(f.status) > Priority(status) then f.status else status)
  {
    assert f in reports + [f];
    var g :| g in reports && g.id == f.id && g.status == status;
    assert g in reports + [f];
  }

  lemma NextReport(e: PreviousFinding, reports: seq<PreviousFinding>, f: PreviousFinding, expected: Expected,
                   norm: string -> string)
    requires Counts(f, expected) && EntryFaithful(e, reports, expected, f.id)
    ensures EntryFaithful(Consolidate(e, UnderExpectedSource(f, expected), norm), reports + [f], expected, f.id)
  {
    StrongerOf(reports, f, e.status);
    var g :| g in reports && g.id == f.id && (expected.None? ==> g.source == e.source);
    assert g in reports + [f];
  }

  lemma OtherReport(e: PreviousFinding, reports: seq<PreviousFinding>, f: PreviousFinding, expected: Expected,
                    id: string)
    requires EntryFaithful(e, reports, expected, id) && f.id != id
    ensures EntryFaithful(e, reports + [f], expected, id)
  {
    var g :| g in reports && g.id == id && g.status == e.status;
    assert g in reports + [f];
    var h :| h in reports && h.id == id && (expected.None? ==> h.source == e.source);
    assert h in reports + [f];
  }

  lemma UncountedReport(m: Merged, reports: seq<PreviousFinding>, f: PreviousFinding, expected: Expected)
    requires MergeFaithful(m, reports, expected) && !Counts(f, expected)
    ensures MergeFaithful(m, reports + [f], expected)
  {
    forall id
      ensures Reported(reports + [f], expected, id) <==> Reported(reports, expected, id)
    {
      ReportedMore(reports, f, expected, id);
    }
    forall id | id in m.entries
      ensures EntryFaithful(m.entries[id], reports + [f], expected, id)
    {
      assert EntryFaithful(m.entries[id], reports, expected, id);
      OtherReport(m.entries[id], reports, f, expected, id);
    }
  }

  lemma CountedReport(m: Merged, reports: seq<PreviousFinding>, f: PreviousFinding, expected: Expected,
                      norm: string -> string)
    requires MergeFaithful(m, reports, expected) && Counts(f, expected)
    ensures MergeFaithful(MergeReport(m, f, expected, norm), reports + [f], expected)
  {
    var after := MergeReport(m, f, expected, norm);
    PutKeepsValid(m, f.id, after.entries[f.id]);
    forall id
      ensures id in after.entries <==> Reported(reports + [f], expected, id)
    {
      ReportedMore(reports, f, expected, id);
    }
    forall id | id in after.entries
      ensures EntryFaithful(after.entries[id], reports + [f], expected, id)
    {
      if id != f.id {
        OtherReport(m.entries[id], reports, f, expected, id);
      } else if f.id in m.entries {
        NextReport(m.entries[id], reports, f, expected, norm);
      } else {
        FirstReport(reports, f, expected);
      }
    }
  }

  /** One entry per counted id, with the most severe status anyone reported and the expected source. */
  lemma {:induction false} MergeIsFaithful(reports: seq<PreviousFinding>, expected: Expected, norm: string -> string)
    ensures MergeFaithful(MergeReports(reports, expected, norm), reports, expected)
  {
    if reports != [] {
      var before, f := reports[..|reports| - 1], reports[|reports| - 1];
      assert reports == before + [f];
      MergeIsFaithful(before, expected, norm);
      var m := MergeReports(before, expected, norm);
      if Counts(f, expected) {
        CountedReport(m, before, f, expected, norm);
      } else {
        UncountedReport(m, before, f, expected);
      }
    }
  }

  lemma StrongestUnique(reports: seq<PreviousFinding>, others: seq<PreviousFinding>, id: string, a: ClosureStatus,
                        b: ClosureStatus)
    requires forall f :: f in reports <==> f in others
    requires Strongest(reports, id, a) && Strongest(others, id, b)
    ensures a == b
  {
    assert Priority(a) == Priority(b);
  }

  ghost predicate SameVerdicts(a: Merged, b: Merged, expected: Expected) {
    && a.entries.Keys == b.entries.Keys
    && forall id :: id in a.entries ==> SameVerdict(a.entries[id], b.entries[id], expected)
  }

  ghost predicate SameVerdict(e: PreviousFinding, f: PreviousFinding, expected: Expected) {
    e.status == f.status && (expected.Some? ==> e.source == f.source)
  }

  lemma ReportedEither(reports: seq<PreviousFinding>, others: seq<PreviousFinding>, expected: Expected, id: string)
    requires forall f :: f in reports <==> f in others
    ensures Reported(reports, expected, id) <==> Reported(others, expected, id)
  {
  }

  lemma FaithfulAgree(e: PreviousFinding, f: PreviousFinding, reports: seq<PreviousFinding>,
                      others: seq<PreviousFinding>, expected: Expected, id: string)
    requires forall x :: x in reports <==> x in others
    requires EntryFaithful(e, reports, expected, id) && EntryFaithful(f, others, expected, id)
    ensures SameVerdict(e, f, expected)
  {
    StrongestUnique(reports, others, id, e.status, f.status);
  }

  lemma FaithfulMergesAgree(a: Merged, b: Merged, reports: seq<PreviousFinding>, others: seq<PreviousFinding>,
                            expected: Expected)
    requires forall f :: f in reports <==> f in others
    requires MergeFaithful(a, reports, expected) && MergeFaithful(b, others, expected)
    ensures SameVerdicts(a, b, expected)
  {
    hide EntryFaithful, Reported, SameVerdict;
    forall id
      ensures id in a.entries <==> id in b.entries
    {
      ReportedEither(reports, others, expected, id);
    }
    forall id | id in a.entries
      ensures SameVerdict(a.entries[id], b.entries[id], expected)
    {
      FaithfulAgree(a.entries[id], b.entries[id], reports, others, expected, id);
    }
  }

  /** The order in which reviewers report changes neither which findings are merged nor their statuses. */
  lemma MergeOrderIrrelevant(reports: seq<PreviousFinding>, others: seq<PreviousFinding>, expected: Expected,
                             norm: string -> string)
    requires multiset(reports) == multiset(others)
    ensures SameVerdicts(MergeReports(reports, expected, norm), MergeReports(others, expected, norm), expected)
  {
    MergeIsFaithful(reports, expected, norm);
    MergeIsFaithful(others, expected, norm);
    SameMembers(reports, others);
    FaithfulMergesAgree(MergeReports(reports, expected, norm), MergeReports(others, expected, norm), reports, others,
                        expected);
  }

  lemma SameMembers(reports: seq<PreviousFinding>, others: seq<PreviousFinding>)
    requires multiset(reports) == multiset(others)
    ensures forall f :: f in reports <==> f in others
  {
    forall f
      ensures f in reports <==> f in others
    {
      assert f in reports <==> f in multiset(reports);
      assert f in others <==> f in multiset(others);
    }
  }

  // ---- The loop ----

  method MergePreviousFindings(reports: seq<PreviousFinding>, expected: Expected, norm: string -> string)
    returns (byId: Merged)
    ensures byId == MergeReports(reports, expected, norm)
    ensures MergeFaithful(byId, reports, expected)
  {
    byId := Empty();
    for i := 0 to |reports|
      invariant byId == MergeReports(reports[..i], expected, norm)
    {
      assert reports[..i + 1][..i] == reports[..i];
      var f := reports[i];
      if expected.Some? && f.id !in expected.value {
        continue;
      }
      var report := UnderExpectedSource(f, expected);
      var existing := byId.Get(f.id);
      if existing.None? {
        byId := byId.Put(f.id, report);
        continue;
      }
      byId := byId.Put(f.id, Consolidate(existing.value, report, norm));
    }
    assert reports[..|reports|] == reports;
    MergeIsFaithful(reports, expected, norm);
  }
}
