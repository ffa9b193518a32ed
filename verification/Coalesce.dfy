/** Coalescing findings about one proposition into one revision (internal/analyze/analyze.go). */
module Coalesce {
  import opened Orders
  import opened Identity

  datatype FindingState =
    | ContradictoryEvidence | ConfirmedExecuted | ConfirmedDownloaded | ConfirmedCalledWorkflow | DeclaredAtRunSHA
    | RunInWindowMutableRef | PotentialTransitive | CurrentReferenceOnly | UnknownEvidenceGap | NoMatchConfirmed | Unrecognized

  datatype Provenance = L4Certain | L3Strong | L2Probable | L1Possible | L0None

  /** `display` stands for indicator, repository, workflow, run, attempt, job and step. */
  datatype Finding = Finding(id: string, display: string, state: FindingState, provenance: Provenance, evidence: seq<string>,
                             coverage: seq<string>, contradictory: seq<string>)

  /** `findingStateRank` */
  function Rank(s: FindingState): nat {
    match s
    case ContradictoryEvidence => 100
    case ConfirmedExecuted => 90
    case ConfirmedDownloaded => 80
    case ConfirmedCalledWorkflow => 80
    case DeclaredAtRunSHA => 70
    case RunInWindowMutableRef => 60
    case PotentialTransitive => 50
    case CurrentReferenceOnly => 40
    case UnknownEvidenceGap => 30
    case NoMatchConfirmed => 20
    case Unrecognized => 0
  }

  function ProvenanceRank(p: Provenance): nat {
    match p case L4Certain => 4 case L3Strong => 3 case L2Probable => 2 case L1Possible => 1 case L0None => 0
  }

  /** `isPositiveFindingState` */
  predicate Positive(s: FindingState) {
    s.ConfirmedExecuted? || s.ConfirmedDownloaded? || s.ConfirmedCalledWorkflow? || s.DeclaredAtRunSHA?
    || s.RunInWindowMutableRef? || s.PotentialTransitive? || s.CurrentReferenceOnly?
  }

  /** `preferFinding` */
  predicate Prefer(candidate: Verdict, current: Verdict) {
    if Rank(candidate.state) != Rank(current.state) then Rank(candidate.state) > Rank(current.state)
    else ProvenanceRank(candidate.provenance) > ProvenanceRank(current.provenance)
  }

  predicate Opposed(a: FindingState, b: FindingState) {
    || a.ContradictoryEvidence? || b.ContradictoryEvidence?
    || (a.NoMatchConfirmed? && Positive(b)) || (b.NoMatchConfirmed? && Positive(a))
  }

  function Union(a: seq<string>, b: seq<string>): seq<string> { SortUnique(a + b) }

  datatype Verdict = Verdict(state: FindingState, provenance: Provenance)

  /** The state and provenance of two merged revisions; a derived contradiction has the given provenance
      (certain, capped by the indicator's confidence). */
  function Judge(left: Verdict, right: Verdict, derived: Provenance): Verdict {
    if Opposed(left.state, right.state) then Verdict(ContradictoryEvidence, derived)
    else if Prefer(right, left) then right
    else left
  }

  function VerdictOf(f: Finding): Verdict { Verdict(f.state, f.provenance) }

  /** `mergeFindingRevisions` for two revisions of one finding. */
  function Merge(left: Finding, right: Finding, derived: Provenance): Finding {
    var opposed := Opposed(left.state, right.state);
    var selected := if !opposed && Prefer(VerdictOf(right), VerdictOf(left)) then right else left;
    var v := Judge(VerdictOf(left), VerdictOf(right), derived);
    var cited := Union(left.contradictory, right.contradictory);
    selected.(state := v.state, provenance := v.provenance,
              evidence := Union(left.evidence, right.evidence),
              coverage := Union(left.coverage, right.coverage),
              contradictory := if opposed then Union(cited, left.evidence + right.evidence) else cited)
  }

  function Merger(derived: Provenance): (Finding, Finding) -> Finding { (l, r) => Merge(l, r, derived) }

  /** The members of a group merged from the first to the last. */
  function Fold(group: seq<Finding>, merge: (Finding, Finding) -> Finding): Finding
    requires group != []
  {
    if |group| == 1 then group[0] else merge(Fold(group[..|group| - 1], merge), group[|group| - 1])
  }

  function MergeAll(group: seq<Finding>, derived: Provenance): Finding
    requires group != []
  {
    Fold(group, Merger(derived))
  }

  /** A merge of revisions with one display keeps it. */
  ghost predicate KeepsIdentity(merge: (Finding, Finding) -> Finding) {
    forall l: Finding, r: Finding :: l.id == r.id && l.display == r.display ==> merge(l, r).id == l.id && merge(l, r).display == l.display
  }

  function GroupOf(findings: seq<Finding>, id: string): seq<Finding> {
    if findings == [] then []
    else
      var last := findings[|findings| - 1];
      GroupOf(findings[..|findings| - 1], id) + if last.id == id then [last] else []
  }

  /** Finding IDs in the order first seen. */
  function FirstSeen(findings: seq<Finding>): seq<string> {
    if findings == [] then []
    else
      var front, id := FirstSeen(findings[..|findings| - 1]), findings[|findings| - 1].id;
      if id in front then front else front + [id]
  }

  lemma {:induction false} FirstSeenIds(findings: seq<Finding>)
    ensures Distinct(FirstSeen(findings))
    ensures forall id :: id in FirstSeen(findings) <==> GroupOf(findings, id) != []
  {
    if findings != [] { FirstSeenIds(findings[..|findings| - 1]); }
  }

  /** One ID stands for one display subject. */
  ghost predicate Consistent(findings: seq<Finding>) {
    forall i, j :: 0 <= i < j < |findings| && findings[i].id == findings[j].id ==> findings[i].display == findings[j].display
  }

  lemma {:induction false} GroupShares(findings: seq<Finding>, id: string)
    requires Consistent(findings)
    ensures forall f :: f in GroupOf(findings, id) ==> f.id == id && f in findings
    ensures forall f :: f in findings && f.id == id ==> f in GroupOf(findings, id)
  {
    if findings != [] {
      GroupShares(findings[..|findings| - 1], id);
      assert findings == findings[..|findings| - 1] + [findings[|findings| - 1]];
    }
  }

  lemma {:induction false} FoldKeepsIdentity(group: seq<Finding>, merge: (Finding, Finding) -> Finding, id: string, display: string)
    requires group != [] && KeepsIdentity(merge) && forall f :: f in group ==> f.id == id && f.display == display
    ensures Fold(group, merge).id == id && Fold(group, merge).display == display
  {
    if |group| > 1 { FoldKeepsIdentity(group[..|group| - 1], merge, id, display); }
  }

  lemma MergerKeepsIdentity(derived: Provenance)
    ensures KeepsIdentity(Merger(derived))
  {
  }

  /** `coalesceIndicatorFindings`. One output per ID in first-seen order, each the merge of its whole group; it
      refuses revisions of one ID that show different subjects. */
  method Coalesce(findings: seq<Finding>, derived: Provenance) returns (r: Option<seq<Finding>>)
    ensures r.Some? <==> Consistent(findings)
    ensures r.Some? ==> Coalesced(r.value, findings, Merger(derived))
  {
    MergerKeepsIdentity(derived);
    r := CoalesceBy(findings, Merger(derived));
  }

  /** Its loop: a result list and an index from finding ID to position, updated in place. */
  method CoalesceBy(findings: seq<Finding>, merge: (Finding, Finding) -> Finding) returns (r: Option<seq<Finding>>)
    requires KeepsIdentity(merge)
    ensures r.Some? <==> Consistent(findings)
    ensures r.Some? ==> Coalesced(r.value, findings, merge)
  {
    var result: seq<Finding> := [];
    var positions: map<string, nat> := map[];
    for i := 0 to |findings|
      invariant Consistent(findings[..i]) && Coalesced(result, findings[..i], merge)
      invariant Indexes(positions, FirstSeen(findings[..i]))
    {
      assert findings[..i + 1] == findings[..i] + [findings[i]];
      var placed;
      placed, result, positions := Place(result, positions, findings[..i], findings[i], merge);
      if !placed {
        InconsistentPrefix(findings, i + 1);
        return None;
      }
    }
    assert findings[..|findings|] == findings;
    r := Some(result);
  }

  /** One finding opens a group or joins the one at its position. */
  method Place(result: seq<Finding>, positions: map<string, nat>, ghost before: seq<Finding>, finding: Finding,
               merge: (Finding, Finding) -> Finding)
    returns (placed: bool, result': seq<Finding>, positions': map<string, nat>)
    requires KeepsIdentity(merge) && Consistent(before)
    requires Coalesced(result, before, merge) && Indexes(positions, FirstSeen(before))
    ensures placed <==> Consistent(before + [finding])
    ensures placed ==> Coalesced(result', before + [finding], merge) && Indexes(positions', FirstSeen(before + [finding]))
  {
    placed, result', positions' := true, result, positions;
    FirstSeenIds(before);
    Displays(before, merge, finding);
    if finding.id !in positions {
      OpensGroup(result, before, finding, merge);
      positions' := positions[finding.id := |result|];
      result' := result + [finding];
    } else {
      var position := positions[finding.id];
      JoinsGroup(result, before, finding, position, merge);
      var left := result[position];
      if left.display != finding.display {
        placed := false;
        return;
      }
      result' := result[position := merge(left, finding)];
    }
  }

  /** The `positions` map. */
  ghost predicate Indexes(positions: map<string, nat>, ids: seq<string>) {
    && (forall id :: id in positions <==> id in ids)
    && (forall id :: id in positions ==> positions[id] < |ids| && ids[positions[id]] == id)
  }

  lemma InconsistentPrefix(findings: seq<Finding>, n: nat)
    requires n <= |findings| && !Consistent(findings[..n])
    ensures !Consistent(findings)
  {
    var front := findings[..n];
    var i, j :| 0 <= i < j < n && front[i].id == front[j].id && front[i].display != front[j].display;
    assert findings[i].id == findings[j].id;
  }

  lemma GroupExtends(before: seq<Finding>, finding: Finding, id: string)
    ensures GroupOf(before + [finding], id) == GroupOf(before, id) + if id == finding.id then [finding] else []
    ensures FirstSeen(before + [finding])
         == if finding.id in FirstSeen(before) then FirstSeen(before) else FirstSeen(before) + [finding.id]
  {
    assert (before + [finding])[..|before|] == before;
  }

  /** r is the merge of the group of an ID. */
  ghost predicate Holds(r: Finding, findings: seq<Finding>, id: string, merge: (Finding, Finding) -> Finding) {
    GroupOf(findings, id) != [] && r == Fold(GroupOf(findings, id), merge)
  }

  lemma HoldsStill(r: Finding, before: seq<Finding>, finding: Finding, id: string, merge: (Finding, Finding) -> Finding)
    requires Holds(r, before, id, merge) && id != finding.id
    ensures Holds(r, before + [finding], id, merge)
  {
    GroupExtends(before, finding, id);
    assert GroupOf(before, id) + [] == GroupOf(before, id);
  }

  lemma HoldsMore(before: seq<Finding>, finding: Finding, r: Finding, merge: (Finding, Finding) -> Finding)
    ensures Holds(r, before, finding.id, merge) ==> Holds(merge(r, finding), before + [finding], finding.id, merge)
    ensures GroupOf(before, finding.id) == [] ==> Holds(finding, before + [finding], finding.id, merge)
  {
    GroupExtends(before, finding, finding.id);
    var g := GroupOf(before, finding.id);
    assert (g + [finding])[..|g|] == g;
    assert g == [] ==> g + [finding] == [finding];
  }

  lemma OpensGroup(result: seq<Finding>, before: seq<Finding>, finding: Finding, merge: (Finding, Finding) -> Finding)
    requires Coalesced(result, before, merge) && finding.id !in FirstSeen(before)
    ensures Coalesced(result + [finding], before + [finding], merge)
    ensures FirstSeen(before + [finding]) == FirstSeen(before) + [finding.id]
  {
    var now, ids := result + [finding], FirstSeen(before) + [finding.id];
    GroupExtends(before, finding, finding.id);
    FirstSeenIds(before);
    HoldsMore(before, finding, finding, merge);
    forall k | 0 <= k < |result| ensures Holds(now[k], before + [finding], ids[k], merge) {
      assert ids[k] == FirstSeen(before)[k];
      HoldsStill(result[k], before, finding, ids[k], merge);
    }
  }

  lemma JoinsGroup(result: seq<Finding>, before: seq<Finding>, finding: Finding, position: nat, merge: (Finding, Finding) -> Finding)
    requires Coalesced(result, before, merge) && position < |result| && FirstSeen(before)[position] == finding.id
    ensures Coalesced(result[position := merge(result[position], finding)], before + [finding], merge)
    ensures FirstSeen(before + [finding]) == FirstSeen(before)
    ensures result[position] == Fold(GroupOf(before, finding.id), merge)
  {
    var ids := FirstSeen(before);
    GroupExtends(before, finding, finding.id);
    FirstSeenIds(before);
    assert Holds(result[position], before, ids[position], merge);
    HoldsMore(before, finding, result[position], merge);
    forall k | 0 <= k < |result| && k != position ensures Holds(result[k], before + [finding], ids[k], merge) {
      assert ids[k] != ids[position];
      HoldsStill(result[k], before, finding, ids[k], merge);
    }
  }

  ghost predicate Coalesced(result: seq<Finding>, findings: seq<Finding>, merge: (Finding, Finding) -> Finding) {
    && |result| == |FirstSeen(findings)|
    && forall k :: 0 <= k < |result| ==> Holds(result[k], findings, FirstSeen(findings)[k], merge)
  }

  /** The merged revision of a group shows the display of every member. */
  lemma Displays(before: seq<Finding>, merge: (Finding, Finding) -> Finding, finding: Finding)
    requires Consistent(before) && KeepsIdentity(merge)
    ensures GroupOf(before, finding.id) == [] ==> Consistent(before + [finding])
    ensures GroupOf(before, finding.id) != [] ==>
              (Fold(GroupOf(before, finding.id), merge).display == finding.display <==> Consistent(before + [finding]))
  {
    var group := GroupOf(before, finding.id);
    GroupShares(before, finding.id);
    if group == [] {
      forall i | 0 <= i < |before| ensures before[i].id != finding.id {
        assert before[i] in before;
      }
    } else {
      forall f | f in group ensures f.display == group[0].display { SameDisplay(before, f, group[0]); }
      FoldKeepsIdentity(group, merge, finding.id, group[0].display);
      var all := before + [finding];
      if group[0].display == finding.display {
        forall i, j | 0 <= i < j < |all| && all[i].id == all[j].id ensures all[i].display == all[j].display {
          if j == |before| { assert before[i] in group; }
        }
      } else {
        assert group[0] in before;
        var i :| 0 <= i < |before| && before[i] == group[0];
        assert all[i].id == all[|before|].id && all[i].display != all[|before|].display;
      }
    }
  }

  lemma SameDisplay(findings: seq<Finding>, f: Finding, g: Finding)
    requires Consistent(findings) && f in findings && g in findings && f.id == g.id
    ensures f.display == g.display
  {
    var i :| 0 <= i < |findings| && findings[i] == f;
    var j :| 0 <= j < |findings| && findings[j] == g;
    assert i < j ==> findings[i].display == findings[j].display;
    assert j < i ==> findings[j].display == findings[i].display;
  }
}
