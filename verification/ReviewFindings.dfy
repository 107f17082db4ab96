/**
  Review findings: merging them by id and carrying their streaks from review to review
  (packages/agent/src/reviewGate.ts:431-486).
 */
module ReviewFindings {
  import opened Collections
  import opened InsertionMap

  datatype Strategy = FullReReview | ClosureFirst

  datatype ClosureStatus = Resolved | StillBlocking | NewBlocker | NotReproducible | ManualReviewRequired

  predicate BlockingStatus(status: ClosureStatus) {
    status == StillBlocking || status == NewBlocker || status == ManualReviewRequired
  }

  /** What a reviewer may say about a finding beside its text. */
  datatype Details = Details(
    severity: Option<string>, location: Option<string>, claim: Option<string>, requiredFix: Option<string>,
    verification: Option<string>)

  const NoDetails := Details(None, None, None, None, None)

  /** A streak or iteration that is absent or not an integer is None. */
  datatype Finding = Finding(
    id: string, source: string, text: string, status: Option<ClosureStatus>, closureEvidence: Option<string>,
    details: Details, firstSeen: Option<int>, lastSeen: Option<int>, streak: Option<int>)

  datatype PreviousFinding = PreviousFinding(
    id: string, source: string, status: ClosureStatus, note: string, closureEvidence: Option<string>)

  // ---- mergeFindings ----

  function Ids(findings: seq<Finding>): seq<string> {
    if findings == [] then [] else [findings[0].id] + Ids(findings[1..])
  }

  function IdSet(findings: seq<Finding>): set<string> {
    set f | f in findings :: f.id
  }

  ghost predicate DistinctIds(findings: seq<Finding>) {
    forall i, j :: 0 <= i < j < |findings| ==> findings[i].id != findings[j].id
  }

  function Or<T>(a: Option<T>, b: Option<T>): Option<T> {
    if a.Some? then a else b
  }

  /** An empty or absent text stays as it is. */
  function Rewritten(s: Option<string>, rewrite: string -> string): Option<string> {
    if s.Some? && s.value != "" then Some(rewrite(s.value)) else s
  }

  /** An empty text counts as none. */
  function IfAny(s: Option<string>): Option<string> {
    if s == Some("") then None else s
  }

  function OverlayDetails(existing: Details, later: Details): Details {
    Details(Or(later.severity, existing.severity), Or(later.location, existing.location),
            Or(later.claim, existing.claim), Or(later.requiredFix, existing.requiredFix),
            Or(later.verification, existing.verification))
  }

  /** The fields of the later finding win where it has them. */
  function Overlay(existing: Finding, finding: Finding): Finding {
    Finding(finding.id, finding.source, finding.text, Or(finding.status, existing.status),
            Or(finding.closureEvidence, existing.closureEvidence), OverlayDetails(existing.details, finding.details),
            Or(finding.firstSeen, existing.firstSeen),
            Or(finding.lastSeen, existing.lastSeen), Or(finding.streak, existing.streak))
  }

  /** The finding joins the one with its id in place, or goes to the end. */
  function Absorb(merged: seq<Finding>, finding: Finding): (r: seq<Finding>)
    ensures |merged| <= |r|
  {
    if merged == [] then [finding]
    else if merged[0].id == finding.id then [Overlay(merged[0], finding)] + merged[1..]
    else [merged[0]] + Absorb(merged[1..], finding)
  }

  lemma ConsIds(finding: Finding, findings: seq<Finding>)
    ensures IdSet([finding] + findings) == {finding.id} + IdSet(findings)
  {
    assert finding in [finding] + findings;
  }

  lemma SplitIds(findings: seq<Finding>)
    requires findings != []
    ensures IdSet(findings) == {findings[0].id} + IdSet(findings[1..])
  {
    assert findings == [findings[0]] + findings[1..];
    ConsIds(findings[0], findings[1..]);
  }

  lemma {:induction false} AbsorbIds(merged: seq<Finding>, finding: Finding)
    ensures IdSet(Absorb(merged, finding)) == IdSet(merged) + {finding.id}
  {
    if merged == [] {
      assert IdSet([finding]) == {finding.id};
    } else {
      SplitIds(merged);
      if merged[0].id == finding.id {
        ConsIds(Overlay(merged[0], finding), merged[1..]);
      } else {
        AbsorbIds(merged[1..], finding);
        ConsIds(merged[0], Absorb(merged[1..], finding));
      }
    }
  }

  function MergeOnto(merged: seq<Finding>, findings: seq<Finding>): seq<Finding>
    decreases |findings|
  {
    if findings == [] then merged
    else MergeOnto(Absorb(merged, findings[0]), findings[1..])
  }

  function Merge(groups: seq<seq<Finding>>): seq<Finding> {
    MergeOnto([], Concat(groups))
  }

  lemma {:induction false} AbsorbDistinct(merged: seq<Finding>, finding: Finding)
    requires DistinctIds(merged)
    ensures DistinctIds(Absorb(merged, finding))
  {
    if merged != [] && merged[0].id != finding.id {
      AbsorbDistinct(merged[1..], finding);
      var rest := Absorb(merged[1..], finding);
      AbsorbIds(merged[1..], finding);
      forall f | f in rest
        ensures f.id != merged[0].id
      {
        assert f.id in IdSet(rest);
        assert forall g :: g in merged[1..] ==> g.id != merged[0].id;
      }
    }
  }


  /** Merging never loses an id and never repeats one. */
  lemma {:induction false} MergeOntoIds(merged: seq<Finding>, findings: seq<Finding>)
    requires DistinctIds(merged)
    ensures IdSet(MergeOnto(merged, findings)) == IdSet(merged) + IdSet(findings)
    ensures DistinctIds(MergeOnto(merged, findings))
    decreases |findings|
  {
    if findings != [] {
      SplitIds(findings);
      AbsorbDistinct(merged, findings[0]);
      AbsorbIds(merged, findings[0]);
      MergeOntoIds(Absorb(merged, findings[0]), findings[1..]);
    }
  }

  /** One merged finding per id of any group. */
  lemma MergeIds(groups: seq<seq<Finding>>)
    ensures IdSet(Merge(groups)) == IdSet(Concat(groups))
    ensures DistinctIds(Merge(groups))
  {
    MergeOntoIds([], Concat(groups));
    assert IdSet([]) == {};
  }

  lemma {:induction false} ConcatIds(groups: seq<seq<Finding>>, i: nat)
    requires i < |groups|
    ensures IdSet(groups[i]) <= IdSet(Concat(groups))
  {
    if i > 0 {
      ConcatIds(groups[1..], i - 1);
      assert groups[1..][i - 1] == groups[i];
    }
  }

  lemma {:induction false} AbsorbNew(merged: seq<Finding>, finding: Finding)
    requires finding.id !in IdSet(merged)
    ensures Absorb(merged, finding) == merged + [finding]
  {
    if merged != [] {
      assert merged[0] in merged;
      SplitIds(merged);
      AbsorbNew(merged[1..], finding);
    }
  }

  lemma {:induction false} AbsorbAt(merged: seq<Finding>, i: nat, finding: Finding)
    requires DistinctIds(merged)
    requires i < |merged| && merged[i].id == finding.id
    ensures Absorb(merged, finding) == merged[i := Overlay(merged[i], finding)]
  {
    if i > 0 {
      AbsorbAt(merged[1..], i - 1, finding);
    }
  }

  ghost predicate KeyedById(m: OrderedMap<string, Finding>) {
    m.Valid() && forall k :: k in m.entries ==> m.entries[k].id == k
  }

  lemma ValuesKeyed(m: OrderedMap<string, Finding>)
    requires KeyedById(m)
    ensures |m.Values()| == |m.keys|
    ensures forall i :: 0 <= i < |m.keys| ==> m.keys[i] in m.entries && m.Values()[i] == m.entries[m.keys[i]]
    ensures forall i :: 0 <= i < |m.keys| ==> m.Values()[i].id == m.keys[i]
  {
    forall i | 0 <= i < |m.keys|
      ensures m.keys[i] in m.entries
    {
      assert m.keys[i] in m.keys;
    }
  }

  lemma AbsorbIsPutNew(m: OrderedMap<string, Finding>, finding: Finding)
    requires KeyedById(m)
    requires finding.id !in m.entries
    ensures KeyedById(m.Put(finding.id, finding))
    ensures Absorb(m.Values(), finding) == m.Put(finding.id, finding).Values()
  {
    PutNew(m, finding.id, finding);
    ValuesKeyed(m);
    AbsorbNew(m.Values(), finding);
  }

  lemma AbsorbIsPutPresent(m: OrderedMap<string, Finding>, i: nat, finding: Finding)
    requires KeyedById(m)
    requires i < |m.keys| && m.keys[i] == finding.id
    ensures finding.id in m.entries
    ensures var value := Overlay(m.entries[finding.id], finding);
            KeyedById(m.Put(finding.id, value)) &&
            Absorb(m.Values(), finding) == m.Put(finding.id, value).Values()
  {
    ValuesKeyed(m);
    PutPresent(m, i, Overlay(m.entries[finding.id], finding));
    AbsorbAt(m.Values(), i, finding);
  }

  /** One step of the source's map update. */
  method MergeOne(m: OrderedMap<string, Finding>, finding: Finding) returns (r: OrderedMap<string, Finding>)
    requires KeyedById(m)
    ensures KeyedById(r) && r.Values() == Absorb(m.Values(), finding)
  {
    var existing := m.Get(finding.id);
    if existing.None? {
      AbsorbIsPutNew(m, finding);
      return m.Put(finding.id, finding);
    }
    ghost var i :| 0 <= i < |m.keys| && m.keys[i] == finding.id;
    AbsorbIsPutPresent(m, i, finding);
    return m.Put(finding.id, Overlay(existing.value, finding));
  }

  lemma {:induction false} MergeOntoSplit(merged: seq<Finding>, a: seq<Finding>, b: seq<Finding>)
    ensures MergeOnto(merged, a + b) == MergeOnto(MergeOnto(merged, a), b)
    decreases |a|
  {
    if a == [] {
      assert a + b == b;
    } else {
      assert (a + b)[1..] == a[1..] + b;
      MergeOntoSplit(Absorb(merged, a[0]), a[1..], b);
    }
  }

  lemma MergeOntoOneMore(merged: seq<Finding>, group: seq<Finding>, i: nat)
    requires i < |group|
    ensures MergeOnto(merged, group[..i + 1]) == Absorb(MergeOnto(merged, group[..i]), group[i])
  {
    assert group[..i + 1] == group[..i] + [group[i]];
    MergeOntoSplit(merged, group[..i], [group[i]]);
    var so_far := MergeOnto(merged, group[..i]);
    assert MergeOnto(so_far, [group[i]]) == MergeOnto(Absorb(so_far, group[i]), []);
  }

  lemma MergeOneMoreGroup(groups: seq<seq<Finding>>, g: nat)
    requires g < |groups|
    ensures Merge(groups[..g + 1]) == MergeOnto(Merge(groups[..g]), groups[g])
  {
    assert groups[..g + 1] == groups[..g] + [groups[g]];
    ConcatAppend(groups[..g], groups[g]);
    MergeOntoSplit([], Concat(groups[..g]), groups[g]);
  }

  method MergeGroup(m: OrderedMap<string, Finding>, group: seq<Finding>) returns (r: OrderedMap<string, Finding>)
    requires KeyedById(m)
    ensures KeyedById(r) && r.Values() == MergeOnto(m.Values(), group)
  {
    r := m;
    for i := 0 to |group|
      invariant KeyedById(r) && r.Values() == MergeOnto(m.Values(), group[..i])
    {
      MergeOntoOneMore(m.Values(), group, i);
      r := MergeOne(r, group[i]);
    }
    assert group[..|group|] == group;
  }

  method MergeFindings(groups: seq<seq<Finding>>) returns (merged: seq<Finding>)
    ensures merged == Merge(groups)
  {
    var m := Empty<string, Finding>();
    for g := 0 to |groups|
      invariant KeyedById(m) && m.Values() == Merge(groups[..g])
    {
      MergeOneMoreGroup(groups, g);
      m := MergeGroup(m, groups[g]);
    }
    assert groups[..|groups|] == groups;
    return ValuesOf(m.keys, m.entries);
  }

  lemma IdsMatch(findings: seq<Finding>)
    ensures |Ids(findings)| == |findings|
    ensures forall i :: 0 <= i < |findings| ==> Ids(findings)[i] == findings[i].id
    ensures Elements(Ids(findings)) == IdSet(findings)
    ensures NoDuplicates(Ids(findings)) <==> DistinctIds(findings)
  {
    IdAt(findings);
    forall x
      ensures x in Elements(Ids(findings)) <==> x in IdSet(findings)
    {
      if x in IdSet(findings) {
        var i :| 0 <= i < |findings| && findings[i].id == x;
        assert Ids(findings)[i] == x;
      }
    }
  }

  lemma {:induction false} IdAt(findings: seq<Finding>)
    ensures |Ids(findings)| == |findings|
    ensures forall i :: 0 <= i < |findings| ==> Ids(findings)[i] == findings[i].id
  {
    if findings != [] {
      IdAt(findings[1..]);
    }
  }

  lemma DistinctIdsCount(findings: seq<Finding>)
    ensures |IdSet(findings)| <= |findings|
    ensures |IdSet(findings)| == |findings| <==> DistinctIds(findings)
  {
    IdsMatch(findings);
    DistinctLength(Ids(findings));
  }

  /** The last finding with the id of findings[i] decides its text and source. */
  lemma MergeKeepsLast(groups: seq<seq<Finding>>, i: nat)
    requires i < |Concat(groups)|
    requires forall j :: i < j < |Concat(groups)| ==> Concat(groups)[j].id != Concat(groups)[i].id
    ensures exists f :: f in Merge(groups) && f.id == Concat(groups)[i].id &&
              f.text == Concat(groups)[i].text && f.source == Concat(groups)[i].source
  {
    var all := Concat(groups);
    assert all == all[..i + 1] + all[i + 1..];
    MergeOntoSplit([], all[..i + 1], all[i + 1..]);
    MergeOntoOneMore([], all, i);
    var before := MergeOnto([], all[..i]);
    AbsorbHolds(before, all[i]);
    var k :| 0 <= k < |Absorb(before, all[i])| && SameFinding(Absorb(before, all[i])[k], all[i]);
    MergeOntoLeaves(Absorb(before, all[i]), all[i + 1..], k);
  }

  ghost predicate SameFinding(a: Finding, b: Finding) {
    a.id == b.id && a.text == b.text && a.source == b.source
  }

  lemma {:induction false} AbsorbHolds(merged: seq<Finding>, finding: Finding)
    ensures exists k :: 0 <= k < |Absorb(merged, finding)| && SameFinding(Absorb(merged, finding)[k], finding)
  {
    if merged == [] || merged[0].id == finding.id {
      assert SameFinding(Absorb(merged, finding)[0], finding);
    } else {
      AbsorbHolds(merged[1..], finding);
      var k :| 0 <= k < |Absorb(merged[1..], finding)| && SameFinding(Absorb(merged[1..], finding)[k], finding);
      assert SameFinding(Absorb(merged, finding)[k + 1], finding);
    }
  }

  lemma {:induction false} AbsorbLeaves(merged: seq<Finding>, finding: Finding, k: nat)
    requires k < |merged| && merged[k].id != finding.id
    ensures Absorb(merged, finding)[k] == merged[k]
  {
    if k > 0 && merged[0].id != finding.id {
      AbsorbLeaves(merged[1..], finding, k - 1);
    }
  }

  lemma {:induction false} MergeOntoLeaves(merged: seq<Finding>, findings: seq<Finding>, k: nat)
    requires k < |merged|
    requires forall f :: f in findings ==> f.id != merged[k].id
    ensures merged[k] in MergeOnto(merged, findings)
    decreases |findings|
  {
    if findings != [] {
      AbsorbLeaves(merged, findings[0], k);
      MergeOntoLeaves(Absorb(merged, findings[0]), findings[1..], k);
    }
  }

  // ---- enrichBlockingFindings ----

  /** The last finding with the id, as a map built from the list would hold it. */
  function LastById(findings: seq<Finding>, id: string): (r: Option<Finding>)
    ensures r.Some? ==> r.value in findings && r.value.id == id
    ensures r.None? <==> id !in IdSet(findings)
  {
    if findings == [] then None
    else if findings[|findings| - 1].id == id then Some(findings[|findings| - 1])
    else
      assert findings == findings[..|findings| - 1] + [findings[|findings| - 1]];
      LastById(findings[..|findings| - 1], id)
  }

  function PreviousStreak(previous: Finding): int {
    if previous.streak.Some? then Max(1, previous.streak.value) else 1
  }

  function EnrichOne(finding: Finding, previousFindings: seq<Finding>, iteration: int): Finding {
    match LastById(previousFindings, finding.id)
    case None => finding.(firstSeen := Some(iteration), lastSeen := Some(iteration), streak := Some(1))
    case Some(previous) =>
      var first := if previous.firstSeen.Some? && previous.firstSeen.value > 0 then previous.firstSeen.value
                   else Max(1, iteration - PreviousStreak(previous));
      finding.(firstSeen := Some(first), lastSeen := Some(iteration), streak := Some(PreviousStreak(previous) + 1))
  }

  function Enrich(findings: seq<Finding>, previousFindings: seq<Finding>, iteration: int): seq<Finding> {
    Map(findings, f => EnrichOne(f, previousFindings, iteration))
  }

  /** Seen in every review from its first to the given one. */
  ghost predicate Tracked(f: Finding, iteration: int) {
    && f.firstSeen.Some? && f.firstSeen.value >= 1
    && f.lastSeen == Some(iteration)
    && f.streak == Some(iteration - f.firstSeen.value + 1)
    && f.streak.value >= 1
  }

  lemma EnrichIds(findings: seq<Finding>, previousFindings: seq<Finding>, iteration: int)
    ensures IdSet(Enrich(findings, previousFindings, iteration)) == IdSet(findings)
    ensures DistinctIds(Enrich(findings, previousFindings, iteration)) <==> DistinctIds(findings)
  {
    SameIdsPointwise(Enrich(findings, previousFindings, iteration), findings);
  }

  lemma SameIdsPointwise(a: seq<Finding>, b: seq<Finding>)
    requires |a| == |b|
    requires forall i :: 0 <= i < |a| ==> a[i].id == b[i].id
    ensures IdSet(a) == IdSet(b)
    ensures DistinctIds(a) <==> DistinctIds(b)
  {
    forall x
      ensures x in IdSet(a) <==> x in IdSet(b)
    {
      if x in IdSet(a) {
        var i :| 0 <= i < |a| && a[i].id == x;
        assert b[i] in b;
      }
      if x in IdSet(b) {
        var i :| 0 <= i < |b| && b[i].id == x;
        assert a[i] in a;
      }
    }
  }
}
