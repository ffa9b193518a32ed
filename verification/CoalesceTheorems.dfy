/** What coalescing a group of findings can and cannot conclude. */
module CoalesceTheorems {
  import opened Orders
  import opened Identity
  import opened Coalesce

  ghost predicate Cites(group: seq<Finding>, field: Finding -> seq<string>, x: string) { exists f :: f in group && x in field(f) }

  function Evidence(f: Finding): seq<string> { f.evidence }
  function CoverageIds(f: Finding): seq<string> { f.coverage }

  lemma CitesLast(front: seq<Finding>, last: Finding, field: Finding -> seq<string>, x: string)
    ensures Cites(front + [last], field, x) <==> Cites(front, field, x) || x in field(last)
  {
    assert forall f :: f in front + [last] <==> f in front || f == last;
  }

  lemma {:induction false} FoldUnites(group: seq<Finding>, merge: (Finding, Finding) -> Finding, field: Finding -> seq<string>, x: string)
    requires group != [] && forall l, r :: field(merge(l, r)) == Union(field(l), field(r))
    ensures x in field(Fold(group, merge)) <==> Cites(group, field, x)
  {
    var front, last := group[..|group| - 1], group[|group| - 1];
    assert group == front + [last];
    CitesLast(front, last, field, x);
    if |group| > 1 {
      FoldUnites(front, merge, field, x);
      SortUniqueIsTheSet(field(Fold(front, merge)) + field(last));
    }
  }

  /** Evidence and coverage of the result are exactly those of the members, sorted and without repeats. */
  lemma MergeUnitesEvidence(group: seq<Finding>, derived: Provenance)
    requires group != []
    ensures forall e :: e in MergeAll(group, derived).evidence <==> Cites(group, Evidence, e)
    ensures forall e :: e in MergeAll(group, derived).coverage <==> Cites(group, CoverageIds, e)
    ensures |group| > 1 ==> Ascending(MergeAll(group, derived).evidence) && Ascending(MergeAll(group, derived).coverage)
  {
    forall e ensures e in MergeAll(group, derived).evidence <==> Cites(group, Evidence, e) { FoldUnites(group, Merger(derived), Evidence, e); }
    forall e ensures e in MergeAll(group, derived).coverage <==> Cites(group, CoverageIds, e) { FoldUnites(group, Merger(derived), CoverageIds, e); }
    if |group| > 1 {
      var left, last := MergeAll(group[..|group| - 1], derived), group[|group| - 1];
      SortUniqueIsTheSet(left.evidence + last.evidence);
      SortUniqueIsTheSet(left.coverage + last.coverage);
    }
  }

  /** The state of the result is decided by the verdicts alone. */
  function JudgeAll(group: seq<Finding>, derived: Provenance): Verdict
    requires group != []
  {
    if |group| == 1 then VerdictOf(group[0]) else Judge(JudgeAll(group[..|group| - 1], derived), VerdictOf(group[|group| - 1]), derived)
  }

  lemma {:induction false} MergedVerdict(group: seq<Finding>, derived: Provenance)
    requires group != []
    ensures VerdictOf(MergeAll(group, derived)) == JudgeAll(group, derived)
  {
    if |group| > 1 { MergedVerdict(group[..|group| - 1], derived); }
  }

  /** No member outranks the verdict. */
  lemma {:induction false} RankNeverDrops(group: seq<Finding>, derived: Provenance)
    requires group != []
    ensures forall f :: f in group ==> Rank(f.state) <= Rank(JudgeAll(group, derived).state)
  {
    var front, last := group[..|group| - 1], group[|group| - 1];
    assert group == front + [last];
    if |group| > 1 { RankNeverDrops(front, derived); }
  }

  lemma ResultOutranksMembers(group: seq<Finding>, derived: Provenance)
    requires group != []
    ensures forall f :: f in group ==> Rank(f.state) <= Rank(MergeAll(group, derived).state)
  {
    RankNeverDrops(group, derived);
    MergedVerdict(group, derived);
  }

  /** Contradiction absorbs everything, and a gap rules out a confirmed no-match. */
  lemma AbsorbingAndNeverClean(group: seq<Finding>, derived: Provenance)
    requires group != []
    ensures (exists f :: f in group && f.state.ContradictoryEvidence?) ==> MergeAll(group, derived).state.ContradictoryEvidence?
    ensures (exists f :: f in group && f.state.UnknownEvidenceGap?) ==> !MergeAll(group, derived).state.NoMatchConfirmed?
  {
    ResultOutranksMembers(group, derived);
  }

  // ----- Exactly when a group is contradictory -----

  ghost predicate Has(group: seq<Finding>, p: FindingState -> bool) { exists k :: 0 <= k < |group| && p(group[k].state) }

  predicate IsContradiction(s: FindingState) { s.ContradictoryEvidence? }
  predicate IsNoMatch(s: FindingState) { s.NoMatchConfirmed? }
  predicate IsGap(s: FindingState) { s.UnknownEvidenceGap? }

  /** A no-match that follows a positive. */
  ghost predicate DeniedAfter(group: seq<Finding>) {
    exists i, j :: 0 <= i < j < |group| && Positive(group[i].state) && IsNoMatch(group[j].state)
  }

  /** A no-match still remembered when the first positive arrives: no gap came before that positive. */
  ghost predicate DeniedBefore(group: seq<Finding>) {
    exists j :: IsFirstPositive(group, j) && Has(group[..j], IsNoMatch) && !Has(group[..j], IsGap)
  }

  ghost predicate IsFirstPositive(group: seq<Finding>, j: int) {
    0 <= j < |group| && Positive(group[j].state) && !Has(group[..j], Positive)
  }

  ghost predicate Clashes(group: seq<Finding>) {
    Has(group, IsContradiction) || DeniedAfter(group) || DeniedBefore(group)
  }

  lemma HasExtends(front: seq<Finding>, last: Finding, p: FindingState -> bool)
    ensures Has(front + [last], p) <==> Has(front, p) || p(last.state)
  {
    var group := front + [last];
    if Has(front, p) { var k :| 0 <= k < |front| && p(front[k].state); assert group[k] == front[k]; }
    if p(last.state) { assert group[|front|] == last; }
  }

  lemma DeniedAfterExtends(front: seq<Finding>, last: Finding)
    ensures DeniedAfter(front + [last]) <==> DeniedAfter(front) || (Has(front, Positive) && IsNoMatch(last.state))
  {
    var group := front + [last];
    if DeniedAfter(front) {
      var i, j :| 0 <= i < j < |front| && Positive(front[i].state) && IsNoMatch(front[j].state);
      assert group[i] == front[i] && group[j] == front[j];
    }
    if Has(front, Positive) && IsNoMatch(last.state) {
      var i :| 0 <= i < |front| && Positive(front[i].state);
      assert group[i] == front[i] && group[|front|] == last;
    }
  }

  lemma DeniedBeforeExtends(front: seq<Finding>, last: Finding)
    ensures DeniedBefore(front + [last]) <==>
            DeniedBefore(front)
            || (!Has(front, Positive) && Positive(last.state) && Has(front, IsNoMatch) && !Has(front, IsGap))
  {
    var group := front + [last];
    assert group[..|front|] == front;
    forall j | 0 <= j < |front| ensures group[..j] == front[..j] && group[j] == front[j] {}
    if DeniedBefore(group) {
      var j :| IsFirstPositive(group, j) && Has(group[..j], IsNoMatch) && !Has(group[..j], IsGap);
      if j < |front| { assert IsFirstPositive(front, j); }
    }
    if DeniedBefore(front) {
      var j :| IsFirstPositive(front, j) && Has(front[..j], IsNoMatch) && !Has(front[..j], IsGap);
      assert IsFirstPositive(group, j);
    }
    if !Has(front, Positive) && Positive(last.state) { assert IsFirstPositive(group, |front|); }
  }

  /** What the running result remembers of the members so far, as long as they do not clash. */
  ghost predicate Remembers(group: seq<Finding>, s: FindingState) {
    && (Clashes(group) <==> IsContradiction(s))
    && (!Clashes(group) ==>
          if Has(group, Positive) then Positive(s)
          else if Has(group, IsGap) then IsGap(s)
          else if Has(group, IsNoMatch) then IsNoMatch(s)
          else s.Unrecognized?)
  }

  lemma {:induction false} MergeRemembers(group: seq<Finding>, derived: Provenance)
    requires group != []
    ensures Remembers(group, JudgeAll(group, derived).state)
  {
    var front, last := group[..|group| - 1], group[|group| - 1];
    assert group == front + [last];
    HasExtends(front, last, IsContradiction);
    HasExtends(front, last, Positive);
    HasExtends(front, last, IsGap);
    HasExtends(front, last, IsNoMatch);
    DeniedAfterExtends(front, last);
    DeniedBeforeExtends(front, last);
    if |group| > 1 {
      MergeRemembers(front, derived);
      StateStep(JudgeAll(front, derived), VerdictOf(last), derived);
    } else {
      assert front == [];
      OneState(last.state);
    }
  }

  lemma OneState(s: FindingState)
    ensures IsContradiction(s) || Positive(s) || IsGap(s) || IsNoMatch(s) || s.Unrecognized?
  {
  }

  /** What a running state becomes, by kind of state. */
  lemma StateStep(l: Verdict, r: Verdict, derived: Provenance)
    ensures var s := Judge(l, r, derived).state;
            && (IsContradiction(s) <==> Opposed(l.state, r.state))
            && (!Opposed(l.state, r.state) ==>
                  if Positive(l.state) || Positive(r.state) then Positive(s)
                  else if IsGap(l.state) || IsGap(r.state) then IsGap(s)
                  else if IsNoMatch(l.state) || IsNoMatch(r.state) then IsNoMatch(s)
                  else s.Unrecognized?)
  {
  }

  /** For every group: the result is a contradiction exactly when a member is one, or a no-match follows
      a positive, or a no-match comes before the first positive with no gap before that positive. */
  lemma ContradictionExactly(group: seq<Finding>, derived: Provenance)
    requires group != []
    ensures MergeAll(group, derived).state.ContradictoryEvidence? <==> Clashes(group)
  {
    MergeRemembers(group, derived);
    MergedVerdict(group, derived);
  }

  lemma JudgeThree(a: Finding, b: Finding, c: Finding, derived: Provenance)
    ensures MergeAll([a, b, c], derived).state == Judge(Judge(VerdictOf(a), VerdictOf(b), derived), VerdictOf(c), derived).state
  {
    MergedVerdict([a, b, c], derived);
    assert [a, b, c][..2] == [a, b] && [a, b][..1] == [a];
    assert JudgeAll([a, b], derived) == Judge(JudgeAll([a], derived), VerdictOf(b), derived);
  }

  /** A gap between a no-match and a positive makes the no-match forgotten: the order of one group
      decides whether it is a contradiction. */
  lemma GapForgetsNoMatch(neg: Finding, gap: Finding, pos: Finding, derived: Provenance)
    requires neg.state == NoMatchConfirmed && gap.state == UnknownEvidenceGap && pos.state == ConfirmedExecuted
    ensures MergeAll([neg, gap, pos], derived).state == ConfirmedExecuted
    ensures MergeAll([neg, pos, gap], derived).state == ContradictoryEvidence
  {
    JudgeThree(neg, gap, pos, derived);
    JudgeThree(neg, pos, gap, derived);
  }

  // ----- Groups whose gaps come last -----

  ghost predicate GapsLast(group: seq<Finding>) {
    forall i, j :: 0 <= i < j < |group| && IsGap(group[i].state) ==> IsGap(group[j].state)
  }

  /** With gaps last, a group is contradictory exactly when it holds a contradiction, or both a positive
      and a no-match. */
  lemma ContradictionWithGapsLast(group: seq<Finding>, derived: Provenance)
    requires group != [] && GapsLast(group)
    ensures MergeAll(group, derived).state.ContradictoryEvidence?
       <==> Has(group, IsContradiction) || (Has(group, Positive) && Has(group, IsNoMatch))
  {
    ContradictionExactly(group, derived);
    if Has(group, Positive) && Has(group, IsNoMatch) {
      var k :| 0 <= k < |group| && IsNoMatch(group[k].state);
      var j := FirstPositive(group);
      if k < j {
        assert group[..j][k] == group[k];
        forall i | 0 <= i < j ensures !IsGap(group[..j][i].state) { assert group[..j][i] == group[i]; }
      } else {
        assert j < k;
      }
    }
    if DeniedBefore(group) {
      var j :| IsFirstPositive(group, j) && Has(group[..j], IsNoMatch) && !Has(group[..j], IsGap);
      var k :| 0 <= k < j && IsNoMatch(group[..j][k].state);
      assert IsNoMatch(group[k].state) && Positive(group[j].state);
    }
  }

  lemma {:induction false} FirstPositive(group: seq<Finding>) returns (j: nat)
    requires Has(group, Positive)
    ensures IsFirstPositive(group, j)
  {
    var front, last := group[..|group| - 1], group[|group| - 1];
    assert group == front + [last];
    if Has(front, Positive) {
      j := FirstPositive(front);
      assert group[..j] == front[..j];
    } else {
      j := |group| - 1;
      HasExtends(front, last, Positive);
    }
  }

  /** Some member has the verdict's rank, unless it is a contradiction. */
  lemma {:induction false} RankComesFromAMember(group: seq<Finding>, derived: Provenance)
    requires group != [] && !JudgeAll(group, derived).state.ContradictoryEvidence?
    ensures exists f :: f in group && Rank(f.state) == Rank(JudgeAll(group, derived).state)
  {
    var front, last := group[..|group| - 1], group[|group| - 1];
    assert group == front + [last];
    assert last in group;
    if |group| > 1 {
      RankComesFromAMember(front, derived);
      var f :| f in front && Rank(f.state) == Rank(JudgeAll(front, derived).state);
      assert f in group;
    }
  }

  // ----- The state and provenance of a group, by state -----

  predicate IsExecuted(s: FindingState) { s.ConfirmedExecuted? }
  predicate IsObtained(s: FindingState) { s.ConfirmedDownloaded? || s.ConfirmedCalledWorkflow? }
  predicate IsDeclared(s: FindingState) { s.DeclaredAtRunSHA? }
  predicate IsInWindow(s: FindingState) { s.RunInWindowMutableRef? }
  predicate IsTransitive(s: FindingState) { s.PotentialTransitive? }
  predicate IsCurrent(s: FindingState) { s.CurrentReferenceOnly? }

  /** The first of these that some member's state is in, the result's state is in. */
  ghost predicate Strongest(group: seq<Finding>, s: FindingState) {
    if Has(group, IsExecuted) then IsExecuted(s)
    else if Has(group, IsObtained) then IsObtained(s)
    else if Has(group, IsDeclared) then IsDeclared(s)
    else if Has(group, IsInWindow) then IsInWindow(s)
    else if Has(group, IsTransitive) then IsTransitive(s)
    else if Has(group, IsCurrent) then IsCurrent(s)
    else if Has(group, IsGap) then IsGap(s)
    else if Has(group, IsNoMatch) then IsNoMatch(s)
    else s.Unrecognized?
  }

  /** Confirmed downloads and confirmed calls are equally strong; otherwise each state is as strong as itself alone. */
  /** A positive state is one that tells of an execution, a download, a call, a declaration or a reference. */
  lemma PositiveExactly(s: FindingState)
    ensures Positive(s) <==> IsExecuted(s) || IsObtained(s) || IsDeclared(s) || IsInWindow(s) || IsTransitive(s) || IsCurrent(s)
  {
  }

  predicate AsStrong(s: FindingState, t: FindingState) { s == t || (IsObtained(s) && IsObtained(t)) }

  predicate AtLeast(p: Provenance, q: Provenance) {
    match q
    case L4Certain => p.L4Certain?
    case L3Strong => p.L4Certain? || p.L3Strong?
    case L2Probable => !p.L1Possible? && !p.L0None?
    case L1Possible => !p.L0None?
    case L0None => true
  }

  /** The verdict is that of a member, and no member as strong has a stronger provenance. */
  ghost predicate BestOfMembers(group: seq<Finding>, v: Verdict) {
    && (exists k :: 0 <= k < |group| && VerdictOf(group[k]) == v)
    && (forall k :: 0 <= k < |group| && AsStrong(group[k].state, v.state) ==> AtLeast(v.provenance, group[k].provenance))
  }

  lemma SameRank(s: FindingState, t: FindingState)
    ensures Rank(s) == Rank(t) <==> AsStrong(s, t)
  {
  }

  lemma RankOfProvenance(p: Provenance, q: Provenance)
    ensures ProvenanceRank(p) >= ProvenanceRank(q) <==> AtLeast(p, q)
  {
  }

  lemma {:induction false} VerdictIsBest(group: seq<Finding>, derived: Provenance)
    requires group != [] && !JudgeAll(group, derived).state.ContradictoryEvidence?
    ensures BestOfMembers(group, JudgeAll(group, derived))
  {
    var front, last := group[..|group| - 1], group[|group| - 1];
    assert group == front + [last];
    RankNeverDrops(group, derived);
    if |group| > 1 {
      RankNeverDrops(front, derived);
      VerdictIsBest(front, derived);
      BestStep(front, last, JudgeAll(front, derived), derived);
    } else {
      RankOfProvenance(last.provenance, last.provenance);
    }
  }

  lemma BestStep(front: seq<Finding>, last: Finding, v: Verdict, derived: Provenance)
    requires BestOfMembers(front, v) && !Opposed(v.state, last.state) && forall f :: f in front ==> Rank(f.state) <= Rank(v.state)
    ensures BestOfMembers(front + [last], Judge(v, VerdictOf(last), derived))
  {
    var group, w := front + [last], Judge(v, VerdictOf(last), derived);
    var k :| 0 <= k < |front| && VerdictOf(front[k]) == v;
    assert VerdictOf(group[k]) == v && VerdictOf(group[|front|]) == VerdictOf(last);
    forall i | 0 <= i < |group| && AsStrong(group[i].state, w.state) ensures AtLeast(w.provenance, group[i].provenance) {
      SameRank(group[i].state, w.state);
      RankOfProvenance(w.provenance, group[i].provenance);
      if i < |front| {
        assert group[i] == front[i] && front[i] in front;
        SameRank(front[i].state, v.state);
        RankOfProvenance(v.provenance, front[i].provenance);
      }
    }
  }

  lemma RankIsStrength(group: seq<Finding>, s: FindingState, k: int)
    requires 0 <= k < |group| && group[k].state == s && !s.ContradictoryEvidence?
    requires forall f :: f in group ==> Rank(f.state) <= Rank(s)
    ensures Strongest(group, s)
  {
    forall i | 0 <= i < |group| ensures Rank(group[i].state) <= Rank(s) { assert group[i] in group; }
  }

  /** By state: in a group that is not contradictory the result is the strongest state of a member, in the order executed,
      downloaded or called, declared, in the window, transitive, current, gap, no-match; and its provenance is the
      strongest of the members that are as strong. */
  lemma ResultIsStrongest(group: seq<Finding>, derived: Provenance)
    requires group != [] && !Clashes(group)
    ensures Strongest(group, MergeAll(group, derived).state) && BestOfMembers(group, VerdictOf(MergeAll(group, derived)))
  {
    ContradictionExactly(group, derived);
    MergedVerdict(group, derived);
    VerdictIsBest(group, derived);
    RankNeverDrops(group, derived);
    var k :| 0 <= k < |group| && VerdictOf(group[k]) == JudgeAll(group, derived);
    RankIsStrength(group, JudgeAll(group, derived).state, k);
  }

  function Disputed(f: Finding): seq<string> { f.contradictory }

  /** What a merged group disputes: all that its members dispute and, when it is contradictory, all evidence of all members. */
  ghost predicate Disputes(group: seq<Finding>, contradictory: bool, e: string) {
    Cites(group, Disputed, e) || (contradictory && Cites(group, Evidence, e))
  }

  /** A contradictory result disputes exactly the evidence of all its members, even of those merged before the contradiction
      arose, and has the derived provenance; any other disputes exactly what its members do. */
  lemma {:induction false} DisputesExactly(group: seq<Finding>, derived: Provenance, e: string)
    requires |group| > 1
    ensures var r := MergeAll(group, derived);
      && (e in r.contradictory <==> Disputes(group, Clashes(group), e))
      && (Clashes(group) ==> r.provenance == derived)
  {
    var front, last := group[..|group| - 1], group[|group| - 1];
    assert group == front + [last];
    var left := MergeAll(front, derived);
    ContradictionExactly(group, derived);
    ContradictionExactly(front, derived);
    MergeUnitesEvidence(front, derived);
    CitesLast(front, last, Disputed, e);
    CitesLast(front, last, Evidence, e);
    MergeDisputes(left, last, derived, e);
    if |front| > 1 {
      DisputesExactly(front, derived, e);
    } else {
      assert forall f :: f in front <==> f == left;
      assert Cites(front, Disputed, e) <==> e in Disputed(left);
    }
  }

  lemma MergeDisputes(left: Finding, right: Finding, derived: Provenance, e: string)
    ensures var r := Merge(left, right, derived);
      && (r.state.ContradictoryEvidence? <==> Opposed(left.state, right.state))
      && (r.state.ContradictoryEvidence? ==> r.provenance == derived)
      && (e in r.contradictory <==>
           || e in left.contradictory || e in right.contradictory
           || (r.state.ContradictoryEvidence? && (e in left.evidence || e in right.evidence)))
  {
    var cited := Union(left.contradictory, right.contradictory);
    SortUniqueIsTheSet(left.contradictory + right.contradictory);
    SortUniqueIsTheSet(cited + (left.evidence + right.evidence));
  }

  lemma HasByMembers(a: seq<Finding>, b: seq<Finding>, p: FindingState -> bool)
    requires multiset(a) == multiset(b)
    ensures Has(a, p) ==> Has(b, p)
  {
    if Has(a, p) {
      var k :| 0 <= k < |a| && p(a[k].state);
      assert a[k] in multiset(b);
      var j :| 0 <= j < |b| && b[j] == a[k];
    }
  }

  lemma RankBounded(a: seq<Finding>, b: seq<Finding>, derived: Provenance)
    requires a != [] && b != [] && multiset(a) == multiset(b)
    requires !JudgeAll(a, derived).state.ContradictoryEvidence?
    ensures Rank(JudgeAll(a, derived).state) <= Rank(JudgeAll(b, derived).state)
  {
    RankComesFromAMember(a, derived);
    var f :| f in a && Rank(f.state) == Rank(JudgeAll(a, derived).state);
    assert f in multiset(b);
    RankNeverDrops(b, derived);
  }

  /** The best verdicts of two arrangements of one group are equally strong in state, and have one provenance. */
  lemma BestAgree(a: seq<Finding>, b: seq<Finding>, v: Verdict, w: Verdict)
    requires multiset(a) == multiset(b) && BestOfMembers(a, v) && BestOfMembers(b, w) && AsStrong(v.state, w.state)
    ensures v.provenance == w.provenance
  {
    var i :| 0 <= i < |a| && VerdictOf(a[i]) == v;
    assert a[i] in multiset(b);
    var j :| 0 <= j < |b| && b[j] == a[i];
    var k :| 0 <= k < |b| && VerdictOf(b[k]) == w;
    assert b[k] in multiset(a);
    var l :| 0 <= l < |a| && a[l] == b[k];
    assert AtLeast(w.provenance, v.provenance) && AtLeast(v.provenance, w.provenance);
  }

  /** With gaps last, the strength of the result, and its provenance unless it is a contradiction, depend only on which
      findings are in the group. */
  lemma RankIgnoresOrder(a: seq<Finding>, b: seq<Finding>, derived: Provenance)
    requires a != [] && multiset(a) == multiset(b) && GapsLast(a) && GapsLast(b)
    ensures b != [] && Rank(MergeAll(a, derived).state) == Rank(MergeAll(b, derived).state)
    ensures AsStrong(MergeAll(a, derived).state, MergeAll(b, derived).state)
    ensures !MergeAll(a, derived).state.ContradictoryEvidence? ==> MergeAll(a, derived).provenance == MergeAll(b, derived).provenance
  {
    assert |a| == |multiset(a)| == |multiset(b)| == |b|;
    ContradictionWithGapsLast(a, derived);
    ContradictionWithGapsLast(b, derived);
    HasByMembers(a, b, IsContradiction);
    HasByMembers(b, a, IsContradiction);
    HasByMembers(a, b, Positive);
    HasByMembers(b, a, Positive);
    HasByMembers(a, b, IsNoMatch);
    HasByMembers(b, a, IsNoMatch);
    MergedVerdict(a, derived);
    MergedVerdict(b, derived);
    if !MergeAll(a, derived).state.ContradictoryEvidence? {
      RankBounded(a, b, derived);
      RankBounded(b, a, derived);
      SameRank(MergeAll(a, derived).state, MergeAll(b, derived).state);
      VerdictIsBest(a, derived);
      VerdictIsBest(b, derived);
      BestAgree(a, b, JudgeAll(a, derived), JudgeAll(b, derived));
    }
  }
}
