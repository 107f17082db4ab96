/**
  What the built review lists and what it replaces by an advisory, over the reviewers' outputs and the wording
  rules alone (packages/agent/src/reviewContract.ts:842-943).
 */
module ReviewListing {
  import opened Collections
  import opened InsertionMap
  import opened ReviewFindings
  import opened ReviewRows
  import opened ReviewComments
  import opened ReviewMerge
  import opened ReviewBuild

  // ---- What becomes of each reviewer's finding ----

  /** The finding cites another reviewer, a specialized one who found nothing and leaves nothing blocking. */
  ghost predicate CitesPassed(r: Reviews, rules: Rules, f: Finding) {
    exists x :: x in r.specialized && rules.reference(f.text) == Some(x.role) && x.role != f.source &&
      x.blockingFindings == [] && forall p :: p in x.previousFindings ==> !BlockingStatus(p.status)
  }

  /** The i-th finding only asks for evidence and names the path, and so does an advisory of another source. */
  ghost predicate Inspected(r: Reviews, rules: Rules, i: nat, path: string)
    requires i < |AllBlocking(r)|
    decreases i, 1
  {
    var f := AllBlocking(r)[i];
    && rules.asksForEvidence(f.text) && path in rules.paths(f.text)
    && exists a :: (a in AllAdvisories(r) || a in NotesBefore(r, rules, i)) && a.source != f.source &&
         path in rules.paths(a.text)
  }

  ghost function InspectedPaths(r: Reviews, rules: Rules, i: nat): seq<string>
    requires i < |AllBlocking(r)|
    decreases i, 2
  {
    Filter(rules.paths(AllBlocking(r)[i].text), path => Inspected(r, rules, i, path))
  }

  /** The advisory that replaces the i-th finding; none if it is listed. */
  ghost function NoteFor(r: Reviews, rules: Rules, i: nat): Option<Advisory>
    requires i < |AllBlocking(r)|
    decreases i, 3
  {
    var f := AllBlocking(r)[i];
    if exists path :: Inspected(r, rules, i, path) then
      Some(Advisory(f.source, rules.demotedText(InspectedPaths(r, rules, i))))
    else if CitesPassed(r, rules, f) then Some(Advisory(f.source, rules.staleText(rules.reference(f.text).value)))
    else None
  }

  /** The advisories that replace findings before the n-th one, in order. */
  ghost function NotesBefore(r: Reviews, rules: Rules, n: nat): seq<Advisory>
    requires n <= |AllBlocking(r)|
    decreases n, 0
  {
    if n == 0 then []
    else NotesBefore(r, rules, n - 1) +
         if NoteFor(r, rules, n - 1).Some? then [NoteFor(r, rules, n - 1).value] else []
  }

  ghost predicate Listed(r: Reviews, rules: Rules, i: nat) {
    i < |AllBlocking(r)| && NoteFor(r, rules, i).None?
  }

  // ---- The loop does that ----

  lemma {:induction false} FilterSame<T(!new)>(s: seq<T>, p: T -> bool, q: T -> bool)
    requires forall x :: x in s ==> p(x) == q(x)
    ensures Filter(s, p) == Filter(s, q)
  {
    if s != [] {
      assert s[0] in s;
      FilterSame(s[1..], p, q);
    }
  }

  lemma CoveredIsInspected(r: Reviews, rules: Rules, i: nat)
    requires i < |AllBlocking(r)|
    ensures var covered := CoveredPaths(AllBlocking(r)[i], AllAdvisories(r) + NotesBefore(r, rules, i), rules);
      if exists path :: Inspected(r, rules, i, path) then covered == InspectedPaths(r, rules, i) != [] else covered == []
  {
    var f := AllBlocking(r)[i];
    var advisories := AllAdvisories(r) + NotesBefore(r, rules, i);
    forall path
      ensures Inspected(r, rules, i, path) <==>
              rules.asksForEvidence(f.text) && path in rules.paths(f.text) &&
              InspectedElsewhere(path, f.source, advisories, rules)
    {
    }
    if rules.asksForEvidence(f.text) {
      FilterSame(rules.paths(f.text), path => InspectedElsewhere(path, f.source, advisories, rules),
                 path => Inspected(r, rules, i, path));
    }
    var covered := CoveredPaths(f, advisories, rules);
    if covered != [] {
      assert covered[0] in covered && Inspected(r, rules, i, covered[0]);
    }
    if path :| Inspected(r, rules, i, path) {
      assert path in InspectedPaths(r, rules, i);
    }
  }

  lemma StaleIsCited(r: Reviews, rules: Rules, f: Finding)
    ensures Stale(f, rules, PassedRoles(r)) <==> CitesPassed(r, rules, f)
  {
  }

  /** The build before the i-th finding is added. */
  ghost function BuildAt(r: Reviews, rules: Rules, i: nat): Build
    requires MergedPrevious(r, rules.norm).Valid() && i <= |AllBlocking(r)|
  {
    AddAllBlocking(Build(KeptPrevious(MergedPrevious(r, rules.norm).Values(), rules.norm), AllAdvisories(r)),
                   AllBlocking(r)[..i], rules, PassedRoles(r))
  }

  lemma NextBuild(r: Reviews, rules: Rules, i: nat)
    requires MergedPrevious(r, rules.norm).Valid() && i < |AllBlocking(r)|
    ensures BuildAt(r, rules, i + 1) ==
            AddBlocking(BuildAt(r, rules, i), AllBlocking(r)[i], rules, PassedRoles(r))
  {
    hide AllBlocking, AllAdvisories, KeptPrevious, AddBlocking, PassedRoles, MergedPrevious;
    assert AllBlocking(r)[..i + 1][..i] == AllBlocking(r)[..i];
  }

  lemma OneMoreListed(r: Reviews, rules: Rules, i: nat)
    requires MergedPrevious(r, rules.norm).Valid() && i < |AllBlocking(r)|
    requires BuildAt(r, rules, i).advisories == AllAdvisories(r) + NotesBefore(r, rules, i)
    ensures var f, before, after := AllBlocking(r)[i], BuildAt(r, rules, i), BuildAt(r, rules, i + 1);
      && after.advisories == AllAdvisories(r) + NotesBefore(r, rules, i + 1)
      && after.blocking == if Listed(r, rules, i) then before.blocking.Put(f.id, Normalized(f, rules.norm))
                           else before.blocking
  {
    hide CoveredPaths, InspectedPaths, Inspected, CitesPassed, Stale, BuildAt, AllAdvisories;
    NextBuild(r, rules, i);
    CoveredIsInspected(r, rules, i);
    StaleIsCited(r, rules, AllBlocking(r)[i]);
    var all, notes := AllAdvisories(r), NotesBefore(r, rules, i);
    if NoteFor(r, rules, i).Some? {
      assert all + (notes + [NoteFor(r, rules, i).value]) == all + notes + [NoteFor(r, rules, i).value];
    } else {
      assert notes + [] == notes;
    }
  }

  // ---- The blocking list ----

  /** The i-th finding is listed and no later one among the first n has its id. */
  ghost predicate LastListed(r: Reviews, rules: Rules, n: nat, i: nat)
    requires n <= |AllBlocking(r)|
  {
    && i < n && Listed(r, rules, i)
    && forall j :: i < j < n && Listed(r, rules, j) ==> AllBlocking(r)[j].id != AllBlocking(r)[i].id
  }

  ghost predicate ListedBefore(r: Reviews, rules: Rules, n: nat, id: string)
    requires n <= |AllBlocking(r)|
  {
    exists i :: 0 <= i < n && Listed(r, rules, i) && AllBlocking(r)[i].id == id
  }

  /** The finding as it was reported, its texts normalized. */
  ghost predicate SaysTheSame(e: Finding, f: Finding, norm: string -> string) {
    && e.id == f.id && e.source == f.source && e.text == norm(f.text) && e.status == f.status
    && e.closureEvidence == (if f.closureEvidence.Some? && f.closureEvidence.value != ""
                             then Some(norm(f.closureEvidence.value)) else f.closureEvidence)
    && e.details == f.details
  }

  /** A previous finding as it is listed: its note is the text. */
  ghost predicate SaysItsNote(e: Finding, p: PreviousFinding, norm: string -> string) {
    && e.id == p.id && e.source == p.source && e.status == Some(p.status) && e.text == norm(p.note)
    && e.closureEvidence == Some(norm(if p.closureEvidence.Some? then p.closureEvidence.value else p.note))
  }

  ghost predicate ListsAt(r: Reviews, rules: Rules, n: nat, kept: Blocking, blocking: Blocking)
    requires n <= |AllBlocking(r)|
  {
    && (forall id :: id in blocking.entries <==> id in kept.entries || ListedBefore(r, rules, n, id))
    && (forall i: nat :: LastListed(r, rules, n, i) ==>
          AllBlocking(r)[i].id in blocking.entries &&
          SaysTheSame(blocking.entries[AllBlocking(r)[i].id], AllBlocking(r)[i], rules.norm))
    && (forall id :: id in kept.entries && !ListedBefore(r, rules, n, id) ==>
          id in blocking.entries && blocking.entries[id] == kept.entries[id])
  }

  lemma ListedBeforeMore(r: Reviews, rules: Rules, n: nat, id: string)
    requires n < |AllBlocking(r)|
    ensures ListedBefore(r, rules, n + 1, id) <==>
            ListedBefore(r, rules, n, id) || (Listed(r, rules, n) && AllBlocking(r)[n].id == id)
  {
  }

  lemma LastListedMore(r: Reviews, rules: Rules, n: nat, i: nat)
    requires n < |AllBlocking(r)|
    ensures LastListed(r, rules, n + 1, i) <==>
            if i == n then Listed(r, rules, n)
            else LastListed(r, rules, n, i) &&
                 (Listed(r, rules, n) ==> AllBlocking(r)[n].id != AllBlocking(r)[i].id)
  {
  }

  lemma ListsMore(r: Reviews, rules: Rules, n: nat, kept: Blocking, blocking: Blocking)
    requires n < |AllBlocking(r)| && ListsAt(r, rules, n, kept, blocking)
    ensures var f := AllBlocking(r)[n];
      ListsAt(r, rules, n + 1, kept,
              if Listed(r, rules, n) then blocking.Put(f.id, Normalized(f, rules.norm)) else blocking)
  {
    hide ListedBefore, LastListed, Listed;
    var f := AllBlocking(r)[n];
    var after := if Listed(r, rules, n) then blocking.Put(f.id, Normalized(f, rules.norm)) else blocking;
    forall id
      ensures ListedBefore(r, rules, n + 1, id) <==>
              ListedBefore(r, rules, n, id) || (Listed(r, rules, n) && f.id == id)
    {
      ListedBeforeMore(r, rules, n, id);
    }
    forall i: nat | LastListed(r, rules, n + 1, i)
      ensures i < |AllBlocking(r)| && AllBlocking(r)[i].id in after.entries
      ensures SaysTheSame(after.entries[AllBlocking(r)[i].id], AllBlocking(r)[i], rules.norm)
    {
      LastListedMore(r, rules, n, i);
      LastListedBound(r, rules, n + 1, i);
    }
  }

  lemma LastListedBound(r: Reviews, rules: Rules, n: nat, i: nat)
    requires n <= |AllBlocking(r)| && LastListed(r, rules, n, i)
    ensures i < n
  {
  }

  lemma NoneListedYet(r: Reviews, rules: Rules, kept: Blocking)
    ensures ListsAt(r, rules, 0, kept, kept)
  {
  }

  /** Before the n-th finding the advisories and the blocking list are what the rules make of the ones before. */
  ghost predicate ListingIs(r: Reviews, rules: Rules, n: nat)
    requires MergedPrevious(r, rules.norm).Valid() && n <= |AllBlocking(r)|
  {
    && BuildAt(r, rules, n).advisories == AllAdvisories(r) + NotesBefore(r, rules, n)
    && ListsAt(r, rules, n, KeptPrevious(MergedPrevious(r, rules.norm).Values(), rules.norm),
               BuildAt(r, rules, n).blocking)
  }

  lemma ListingStarts(r: Reviews, rules: Rules)
    requires MergedPrevious(r, rules.norm).Valid()
    ensures ListingIs(r, rules, 0)
  {
    hide ListsAt, AllAdvisories, AllBlocking, KeptPrevious, MergedPrevious;
    assert AllBlocking(r)[..0] == [];
    assert AllAdvisories(r) + [] == AllAdvisories(r);
    NoneListedYet(r, rules, KeptPrevious(MergedPrevious(r, rules.norm).Values(), rules.norm));
  }

  lemma ListingGoesOn(r: Reviews, rules: Rules, n: nat)
    requires MergedPrevious(r, rules.norm).Valid() && n < |AllBlocking(r)| && ListingIs(r, rules, n)
    ensures ListingIs(r, rules, n + 1)
  {
    hide ListsAt, AllAdvisories, AllBlocking, KeptPrevious, MergedPrevious, BuildAt, NotesBefore, Listed, Normalized;
    OneMoreListed(r, rules, n);
    ListsMore(r, rules, n, KeptPrevious(MergedPrevious(r, rules.norm).Values(), rules.norm),
              BuildAt(r, rules, n).blocking);
  }

  lemma {:induction false} ListingAt(r: Reviews, rules: Rules, n: nat)
    requires MergedPrevious(r, rules.norm).Valid() && n <= |AllBlocking(r)|
    ensures ListingIs(r, rules, n)
  {
    hide *;
    if n == 0 {
      ListingStarts(r, rules);
    } else {
      ListingAt(r, rules, n - 1);
      ListingGoesOn(r, rules, n - 1);
    }
  }

  lemma DistinctBefore(previousFindings: seq<PreviousFinding>)
    requires previousFindings != []
    requires forall i, j :: 0 <= i < j < |previousFindings| ==> previousFindings[i].id != previousFindings[j].id
    ensures forall p :: p in Init(previousFindings) ==> p.id != Last(previousFindings).id
    ensures forall p :: p in previousFindings <==> p in Init(previousFindings) || p == Last(previousFindings)
  {
    assert previousFindings == Init(previousFindings) + [Last(previousFindings)];
  }

  lemma {:induction false} KeptAre(previousFindings: seq<PreviousFinding>, norm: string -> string, p: PreviousFinding)
    requires forall i, j :: 0 <= i < j < |previousFindings| ==> previousFindings[i].id != previousFindings[j].id
    requires p in previousFindings && BlockingStatus(p.status)
    ensures p.id in KeptPrevious(previousFindings, norm).entries
    ensures SaysItsNote(KeptPrevious(previousFindings, norm).entries[p.id], p, norm)
  {
    DistinctBefore(previousFindings);
    if p in Init(previousFindings) {
      KeptAre(Init(previousFindings), norm, p);
    }
  }

  lemma {:induction false} KeptWere(previousFindings: seq<PreviousFinding>, norm: string -> string, id: string)
    requires id in KeptPrevious(previousFindings, norm).entries
    ensures exists p :: p in previousFindings && p.id == id && BlockingStatus(p.status)
  {
    var last := Last(previousFindings);
    if id in KeptPrevious(Init(previousFindings), norm).entries {
      KeptWere(Init(previousFindings), norm, id);
      var p :| p in Init(previousFindings) && p.id == id && BlockingStatus(p.status);
      assert p in previousFindings;
    } else {
      assert last in previousFindings && last.id == id;
    }
  }

  // ---- The built review ----

  lemma WholeBuild(r: Reviews, rules: Rules)
    requires MergedPrevious(r, rules.norm).Valid()
    ensures BuildAt(r, rules, |AllBlocking(r)|) == BuildLists(r, rules)
  {
    assert AllBlocking(r)[..|AllBlocking(r)|] == AllBlocking(r);
  }

  lemma MergedIdsDiffer(r: Reviews, norm: string -> string)
    ensures MergedPrevious(r, norm).Valid()
    ensures var merged := MergedPrevious(r, norm).Values();
      forall i, j :: 0 <= i < j < |merged| ==> merged[i].id != merged[j].id
  {
    var m := MergedPrevious(r, norm);
    MergeIsFaithful(AllPrevious(r), r.expected, norm);
    forall i | 0 <= i < |m.keys|
      ensures m.keys[i] in m.entries && m.Values()[i].id == m.keys[i]
    {
      assert m.keys[i] in m.keys;
      assert EntryFaithful(m.entries[m.keys[i]], AllPrevious(r), r.expected, m.keys[i]);
    }
  }

  lemma EntryIsValue(blocking: Blocking, id: string)
    requires WellKeyed(blocking) && id in blocking.entries
    ensures blocking.entries[id] in blocking.Values()
  {
    var i :| 0 <= i < |blocking.keys| && blocking.keys[i] == id;
    assert blocking.Values()[i] == blocking.entries[id];
  }

  lemma ValueIsEntry(blocking: Blocking, id: string)
    requires WellKeyed(blocking)
    ensures id in IdSet(blocking.Values()) <==> id in blocking.entries
  {
    if id in blocking.entries {
      EntryIsValue(blocking, id);
    }
    if f :| f in blocking.Values() && f.id == id {
      var i :| 0 <= i < |blocking.Values()| && blocking.Values()[i] == f;
      assert blocking.keys[i] in blocking.keys && blocking.Values()[i] == blocking.entries[blocking.keys[i]];
    }
  }

  /** The finding with the id among the blocking ones is listed with the words of f. */
  ghost predicate ListedAs(blocking: seq<Finding>, f: Finding, norm: string -> string) {
    exists e :: e in blocking && SaysTheSame(e, f, norm)
  }

  ghost predicate NotedAs(blocking: seq<Finding>, p: PreviousFinding, norm: string -> string) {
    exists e :: e in blocking && SaysItsNote(e, p, norm)
  }

  /**
    The blocking list has exactly the ids of the findings that no rule replaces and of the merged previous findings
    with a blocking status, each with what was said last; and each replaced finding leaves the advisory of its rule,
    after the reviewers' own, in order.
   */
  lemma BuiltReviewListsExactly(r: Reviews, rules: Rules)
    ensures MergedPrevious(r, rules.norm).Valid() && BuildLists(r, rules).blocking.Valid()
    ensures var c := BuildComments(r, rules);
      && c.advisories == AllAdvisories(r) + NotesBefore(r, rules, |AllBlocking(r)|)
      && forall id :: id in IdSet(c.blockingFindings) <==>
           ListedBefore(r, rules, |AllBlocking(r)|, id) ||
           exists p :: p in c.previousFindings && p.id == id && BlockingStatus(p.status)
    ensures var c := BuildComments(r, rules);
      && (forall i: nat :: LastListed(r, rules, |AllBlocking(r)|, i) ==>
            ListedAs(c.blockingFindings, AllBlocking(r)[i], rules.norm))
      && (forall p ::
            (p in c.previousFindings && BlockingStatus(p.status) && !ListedBefore(r, rules, |AllBlocking(r)|, p.id)) ==>
            NotedAs(c.blockingFindings, p, rules.norm))
  {
    hide AllAdvisories, BuildAt, ListedBefore, LastListed, SaysTheSame, SaysItsNote, NotesBefore;
    BuildIsValid(r, rules);
    MergedIdsDiffer(r, rules.norm);
    var merged := MergedPrevious(r, rules.norm).Values();
    var kept := KeptPrevious(merged, rules.norm);
    var blocking := BuildLists(r, rules).blocking;
    WholeBuild(r, rules);
    ListingAt(r, rules, |AllBlocking(r)|);
    forall id
      ensures id in kept.entries <==> exists p :: p in merged && p.id == id && BlockingStatus(p.status)
    {
      if id in kept.entries {
        KeptWere(merged, rules.norm, id);
      }
      if p :| p in merged && p.id == id && BlockingStatus(p.status) {
        KeptAre(merged, rules.norm, p);
      }
    }
    forall id
      ensures id in IdSet(blocking.Values()) <==> id in blocking.entries
    {
      ValueIsEntry(blocking, id);
    }
    forall i: nat | LastListed(r, rules, |AllBlocking(r)|, i)
      ensures i < |AllBlocking(r)| && ListedAs(blocking.Values(), AllBlocking(r)[i], rules.norm)
    {
      LastListedBound(r, rules, |AllBlocking(r)|, i);
      EntryIsValue(blocking, AllBlocking(r)[i].id);
    }
    forall p | p in merged && BlockingStatus(p.status) && !ListedBefore(r, rules, |AllBlocking(r)|, p.id)
      ensures NotedAs(blocking.Values(), p, rules.norm)
    {
      KeptAre(merged, rules.norm, p);
      EntryIsValue(blocking, p.id);
    }
  }

  lemma {:induction false} NoteIsListed(r: Reviews, rules: Rules, n: nat, i: nat)
    requires i < n <= |AllBlocking(r)| && NoteFor(r, rules, i).Some?
    ensures NoteFor(r, rules, i).value in NotesBefore(r, rules, n)
    decreases n
  {
    hide NoteFor;
    if i < n - 1 {
      NoteIsListed(r, rules, n - 1, i);
    }
  }

  /**
    Every reviewer's finding is in the blocking list unless it only asks for paths that others inspected, or cites
    another reviewer who passed; then the advisory of that rule, under the finding's source, says so.
   */
  lemma ListedUnlessReplaced(r: Reviews, rules: Rules, i: nat)
    requires i < |AllBlocking(r)|
    ensures MergedPrevious(r, rules.norm).Valid() && BuildLists(r, rules).blocking.Valid()
    ensures var f, c := AllBlocking(r)[i], BuildComments(r, rules);
      if exists path :: Inspected(r, rules, i, path) then
        Advisory(f.source, rules.demotedText(InspectedPaths(r, rules, i))) in c.advisories
      else if CitesPassed(r, rules, f) then
        Advisory(f.source, rules.staleText(rules.reference(f.text).value)) in c.advisories
      else f.id in IdSet(c.blockingFindings)
  {
    BuiltReviewListsExactly(r, rules);
    hide Inspected, CitesPassed, InspectedPaths, NotesBefore, AllAdvisories, BuildLists, IdSet;
    var note := NoteFor(r, rules, i);
    if note.Some? {
      NoteIsListed(r, rules, |AllBlocking(r)|, i);
    } else {
      assert Listed(r, rules, i) && ListedBefore(r, rules, |AllBlocking(r)|, AllBlocking(r)[i].id);
    }
  }

  // ---- A replaced finding can replace the next ----

  /** A reviewer other than the finding's own inspected the path. */
  ghost predicate InspectedByOther(r: Reviews, rules: Rules, i: nat, path: string)
    requires i < |AllBlocking(r)|
  {
    exists a :: a in AllAdvisories(r) && a.source != AllBlocking(r)[i].source && path in rules.paths(a.text)
  }

  /** An earlier finding of another source was replaced by an advisory that names the path. */
  ghost predicate NamedByNote(r: Reviews, rules: Rules, i: nat, path: string)
    requires i < |AllBlocking(r)|
  {
    exists a :: a in NotesBefore(r, rules, i) && a.source != AllBlocking(r)[i].source && path in rules.paths(a.text)
  }

  /** A path counts as inspected exactly if another reviewer's advisory names it, or an earlier note does. */
  lemma InspectedIff(r: Reviews, rules: Rules, i: nat, path: string)
    requires i < |AllBlocking(r)|
    ensures var f := AllBlocking(r)[i];
      Inspected(r, rules, i, path) <==>
      rules.asksForEvidence(f.text) && path in rules.paths(f.text) &&
      (InspectedByOther(r, rules, i, path) || NamedByNote(r, rules, i, path))
  {
  }

  /**
    Such a note names the path on the strength of any inspection: the security audit's own can let the code review's
    request go, and that request's note then lets the audit's own request for the same path go.
   */
  lemma OwnInspectionCanReplace(r: Reviews, rules: Rules, f: Finding, g: Finding, path: string)
    requires AllBlocking(r) == [f, g] && f.source != g.source
    requires rules.asksForEvidence(f.text) && rules.asksForEvidence(g.text)
    requires rules.paths(f.text) == [path] && rules.paths(g.text) == [path]
    requires exists a :: a in AllAdvisories(r) && a.source == g.source && path in rules.paths(a.text)
    requires forall paths, p :: p in paths ==> p in rules.paths(rules.demotedText(paths))
    ensures NoteFor(r, rules, 1).Some?
    ensures (forall a :: a in AllAdvisories(r) && path in rules.paths(a.text) ==> a.source == g.source) ==>
              !InspectedByOther(r, rules, 1, path)
  {
    assert AllBlocking(r)[0] == f && AllBlocking(r)[1] == g;
    InspectedIff(r, rules, 0, path);
    assert Inspected(r, rules, 0, path);
    assert path in InspectedPaths(r, rules, 0);
    var note := NoteFor(r, rules, 0).value;
    assert NotesBefore(r, rules, 1) == [] + [note];
    assert note in NotesBefore(r, rules, 1);
    InspectedIff(r, rules, 1, path);
    assert Inspected(r, rules, 1, path);
  }

  // ---- Coverage ----

  /** The last entry of its area. */
  ghost predicate LastOfArea(coverage: seq<Coverage>, c: Coverage) {
    exists k :: 0 <= k < |coverage| && coverage[k] == c &&
      forall j :: k < j < |coverage| ==> coverage[j].area != c.area
  }

  lemma {:induction false} LastCoverageIs(coverage: seq<Coverage>, area: string, c: Coverage)
    ensures LastCoverage(coverage, area) == Some(c) <==> c.area == area && LastOfArea(coverage, c)
  {
    if coverage != [] {
      LastCoverageIs(Init(coverage), area, c);
      LastOfAreaMore(Init(coverage), Last(coverage), c);
      assert coverage == Init(coverage) + [Last(coverage)];
    }
  }

  lemma LastOfAreaMore(before: seq<Coverage>, last: Coverage, c: Coverage)
    ensures LastOfArea(before + [last], c) <==> if last.area == c.area then c == last else LastOfArea(before, c)
  {
    var coverage := before + [last];
    assert coverage[|before|] == last;
    if last.area != c.area {
      if k :| 0 <= k < |coverage| && coverage[k] == c && forall j :: k < j < |coverage| ==> coverage[j].area != c.area {
        assert before[k] == c && forall j :: k < j < |before| ==> before[j] == coverage[j];
      }
      if k :| 0 <= k < |before| && before[k] == c && forall j :: k < j < |before| ==> before[j].area != c.area {
        assert coverage[k] == c;
      }
    }
  }

  /** A required area is covered by what the last reviewer said about it: the security audit, if it did. */
  lemma {:induction false} CoverageIsLast(coverage: seq<Coverage>, areas: seq<string>, c: Coverage)
    ensures c in PickCoverage(coverage, areas) <==> c.area in areas && LastOfArea(coverage, c)
  {
    if areas != [] {
      CoverageIsLast(coverage, areas[1..], c);
      LastCoverageIs(coverage, areas[0], c);
    }
  }
}
