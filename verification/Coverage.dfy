/** When the coverage of an exact-runtime negative is closed (internal/analyze/analyze.go). */
module Coverage {
  import opened Orders
  import opened Identity

  datatype Kind = JobLog | ParserGrammar | OtherKind(name: string)

  const REQUIRED: seq<Kind> := [JobLog, ParserGrammar]

  datatype Scope = Scope(repository: Option<int>, run: Option<int>, attempt: Option<int>, job: Option<int>, step: string)

  datatype Unit = Unit(kind: Kind, scope: Scope, requiredForNegative: bool)

  datatype Assessment = Assessment(id: string, collected: bool, expected: Option<nat>, observed: nat)

  datatype CoverageFact = CoverageFact(unit: Unit, assessment: Assessment)

  predicate HasExecution(s: Subject) { s.run.Some? && s.attempt.Some? && s.job.Some? }

  /** `exactCoverageExecution` */
  predicate ExactExecution(c: Scope, s: Subject)
    requires HasExecution(s)
  {
    && c.repository == Some(s.repository) && c.run == s.run && c.attempt == s.attempt && c.job == s.job
    && (c.step == "" || c.step == s.step)
  }

  /** A unit that matters for the negative at this subject. */
  predicate Relevant(u: Unit, s: Subject)
    requires HasExecution(s)
  {
    ExactExecution(u.scope, s) && u.requiredForNegative && u.kind in REQUIRED
  }

  /** A unit matters when it is of a required kind and its scope is the whole job execution or this very step. */
  lemma RelevantExactly(u: Unit, s: Subject)
    requires HasExecution(s)
    ensures Relevant(u, s) <==>
      && u.requiredForNegative && (u.kind == JobLog || u.kind == ParserGrammar)
      && (|| u.scope == Scope(Some(s.repository), s.run, s.attempt, s.job, "")
          || u.scope == Scope(Some(s.repository), s.run, s.attempt, s.job, s.step))
  {
  }

  predicate Closes(a: Assessment) {
    a.collected && a.expected.Some? && a.expected.value != 0 && a.observed == a.expected.value
  }

  /** Every relevant assessment closes, each required kind has one, one ID per kind, and no relevant gap. */
  ghost predicate Closed(coverage: seq<CoverageFact>, gaps: seq<Unit>, s: Subject) {
    && HasExecution(s)
    && (forall f :: f in coverage && Relevant(f.unit, s) ==> Closes(f.assessment))
    && (forall f, g :: f in coverage && g in coverage && Relevant(f.unit, s) && Relevant(g.unit, s) && f.unit.kind == g.unit.kind
          ==> f.assessment.id == g.assessment.id)
    && (forall k :: k in REQUIRED ==> exists f :: f in coverage && Assesses(f, s, k))
    && (forall u :: u in gaps ==> !Relevant(u, s))
  }

  ghost predicate Assesses(f: CoverageFact, s: Subject, k: Kind)
    requires HasExecution(s)
  {
    Relevant(f.unit, s) && f.unit.kind == k
  }

  ghost predicate IsClosingId(coverage: seq<CoverageFact>, s: Subject, id: string)
    requires HasExecution(s)
  {
    exists f :: f in coverage && Relevant(f.unit, s) && f.assessment.id == id
  }

  /** All relevant assessments so far close and agree on one ID per kind. */
  ghost predicate GoodPrefix(coverage: seq<CoverageFact>, s: Subject)
    requires HasExecution(s)
  {
    && (forall f :: f in coverage && Relevant(f.unit, s) ==> Closes(f.assessment))
    && (forall f, g :: f in coverage && g in coverage && Relevant(f.unit, s) && Relevant(g.unit, s) && f.unit.kind == g.unit.kind
          ==> f.assessment.id == g.assessment.id)
  }

  ghost predicate ClosedMap(closed: map<Kind, string>, coverage: seq<CoverageFact>, s: Subject)
    requires HasExecution(s)
  {
    && (forall f :: f in coverage && Relevant(f.unit, s) ==> f.unit.kind in closed && closed[f.unit.kind] == f.assessment.id)
    && (forall k :: k in closed ==> exists f :: f in coverage && Assesses(f, s, k))
  }

  lemma PrefixSkip(front: seq<CoverageFact>, fact: CoverageFact, s: Subject, closed: map<Kind, string>)
    requires HasExecution(s) && !Relevant(fact.unit, s)
    ensures GoodPrefix(front + [fact], s) <==> GoodPrefix(front, s)
    ensures ClosedMap(closed, front, s) ==> ClosedMap(closed, front + [fact], s)
  {
    var all := front + [fact];
    assert forall f :: f in all <==> f in front || f == fact;
  }

  lemma PrefixTake(front: seq<CoverageFact>, fact: CoverageFact, s: Subject, closed: map<Kind, string>)
    requires HasExecution(s) && Relevant(fact.unit, s) && GoodPrefix(front, s) && ClosedMap(closed, front, s)
    ensures GoodPrefix(front + [fact], s) <==>
      Closes(fact.assessment) && (fact.unit.kind in closed ==> closed[fact.unit.kind] == fact.assessment.id)
    ensures (fact.unit.kind in closed ==> closed[fact.unit.kind] == fact.assessment.id) ==>
      ClosedMap(closed[fact.unit.kind := fact.assessment.id], front + [fact], s)
  {
    var all := front + [fact];
    assert forall f :: f in all <==> f in front || f == fact;
    assert Assesses(fact, s, fact.unit.kind);
    if fact.unit.kind in closed {
      var f :| f in front && Assesses(f, s, fact.unit.kind);
    }
  }

  lemma PrefixStaysBad(front: seq<CoverageFact>, fact: CoverageFact, s: Subject)
    requires HasExecution(s) && !GoodPrefix(front, s)
    ensures !GoodPrefix(front + [fact], s)
  {
    assert forall f :: f in front ==> f in front + [fact];
  }

  /** The loop over coverage facts: one closing assessment ID per required kind. */
  method CollectClosed(coverage: seq<CoverageFact>, s: Subject) returns (closed: map<Kind, string>, valid: bool)
    requires HasExecution(s)
    ensures valid <==> GoodPrefix(coverage, s)
    ensures valid ==> ClosedMap(closed, coverage, s)
    ensures forall k :: k in closed ==> k in REQUIRED
  {
    closed, valid := map[], true;
    for i := 0 to |coverage|
      invariant valid <==> GoodPrefix(coverage[..i], s)
      invariant valid ==> ClosedMap(closed, coverage[..i], s)
      invariant forall k :: k in closed ==> k in REQUIRED
    {
      var fact := coverage[i];
      assert coverage[..i + 1] == coverage[..i] + [fact];
      if !valid { PrefixStaysBad(coverage[..i], fact, s); }
      if !ExactExecution(fact.unit.scope, s) || !fact.unit.requiredForNegative || !(fact.unit.kind in REQUIRED) {
        PrefixSkip(coverage[..i], fact, s, closed);
        continue;
      }
      if valid { PrefixTake(coverage[..i], fact, s, closed); }
      var a := fact.assessment;
      if !a.collected || a.expected.None? || a.expected.value == 0 || a.observed != a.expected.value {
        valid := false;
        continue;
      }
      if fact.unit.kind in closed && closed[fact.unit.kind] != a.id {
        valid := false;
        continue;
      }
      closed := closed[fact.unit.kind := a.id];
    }
    assert coverage[..|coverage|] == coverage;
  }

  /** The loop over gaps: any relevant one leaves the negative open. */
  method NoRelevantGap(gaps: seq<Unit>, s: Subject) returns (valid: bool)
    requires HasExecution(s)
    ensures valid <==> forall u :: u in gaps ==> !Relevant(u, s)
  {
    valid := true;
    for i := 0 to |gaps|
      invariant valid <==> forall j :: 0 <= j < i ==> !Relevant(gaps[j], s)
    {
      if !ExactExecution(gaps[i].scope, s) || !gaps[i].requiredForNegative || !(gaps[i].kind in REQUIRED) {
        assert !Relevant(gaps[i], s);
        continue;
      }
      assert Relevant(gaps[i], s);
      valid := false;
    }
  }

  ghost predicate Lists(ids: seq<string>, closed: map<Kind, string>, upto: nat) {
    forall id :: id in ids <==> exists j :: 0 <= j < upto && j < |REQUIRED| && REQUIRED[j] in closed && closed[REQUIRED[j]] == id
  }

  /** The loop over the required kinds: their IDs in order, and whether each has one. */
  method ListRequired(closed: map<Kind, string>) returns (ids: seq<string>, valid: bool)
    ensures valid <==> forall k :: k in REQUIRED ==> k in closed
    ensures Lists(ids, closed, |REQUIRED|)
  {
    ids, valid := [], true;
    for i := 0 to |REQUIRED|
      invariant valid <==> forall j :: 0 <= j < i ==> REQUIRED[j] in closed
      invariant Lists(ids, closed, i)
    {
      if REQUIRED[i] !in closed {
        valid := false;
        continue;
      }
      ids := ids + [closed[REQUIRED[i]]];
    }
  }

  /** `requiredNegativeCoverageClosed` */
  method RequiredNegativeCoverageClosed(coverage: seq<CoverageFact>, gaps: seq<Unit>, s: Subject)
    returns (ids: seq<string>, valid: bool)
    ensures valid <==> Closed(coverage, gaps, s)
    ensures valid ==> Ascending(ids) && forall id :: id in ids <==> IsClosingId(coverage, s, id)
  {
    if s.run.None? || s.attempt.None? || s.job.None? {
      return [], false;
    }
    var closed, agreed := CollectClosed(coverage, s);
    var ungapped := NoRelevantGap(gaps, s);
    var listed, all := ListRequired(closed);
    valid := agreed && ungapped && all;
    SortUniqueIsTheSet(listed);
    ids := SortUnique(listed);
    if agreed { KindsClosed(coverage, s, closed); }
    if valid {
      forall id ensures id in ids <==> IsClosingId(coverage, s, id) { ListedAreClosing(coverage, s, closed, listed, id); }
    }
  }

  lemma KindsClosed(coverage: seq<CoverageFact>, s: Subject, closed: map<Kind, string>)
    requires HasExecution(s) && ClosedMap(closed, coverage, s)
    ensures (forall k :: k in REQUIRED ==> k in closed) <==>
      forall k :: k in REQUIRED ==> exists f :: f in coverage && Assesses(f, s, k)
  {
    forall k | k in REQUIRED ensures k in closed <==> exists f :: f in coverage && Assesses(f, s, k) {
    }
  }

  lemma ListedAreClosing(coverage: seq<CoverageFact>, s: Subject, closed: map<Kind, string>, listed: seq<string>, id: string)
    requires HasExecution(s) && GoodPrefix(coverage, s) && ClosedMap(closed, coverage, s)
    requires forall k :: k in closed ==> k in REQUIRED
    requires Lists(listed, closed, |REQUIRED|)
    ensures id in listed <==> IsClosingId(coverage, s, id)
  {
    if id in listed {
      var j :| 0 <= j < |REQUIRED| && REQUIRED[j] in closed && closed[REQUIRED[j]] == id;
      var f :| f in coverage && Assesses(f, s, REQUIRED[j]);
      assert f.assessment.id == id;
    }
    if IsClosingId(coverage, s, id) {
      var f :| f in coverage && Relevant(f.unit, s) && f.assessment.id == id;
      var j :| 0 <= j < |REQUIRED| && REQUIRED[j] == f.unit.kind;
    }
  }

  /** The answer, and the IDs given with it, depend on which facts there are and not on their order; and what
      is closed with more gaps was closed with fewer: a further gap never closes a negative. */
  lemma ClosureIgnoresOrder(a: seq<CoverageFact>, b: seq<CoverageFact>, gaps: seq<Unit>, more: seq<Unit>, s: Subject,
                            left: seq<string>, right: seq<string>)
    requires multiset(a) == multiset(b) && forall u :: u in gaps ==> u in more
    requires Closed(a, more, s)
    requires Ascending(left) && forall id :: id in left <==> IsClosingId(a, s, id)
    requires Ascending(right) && forall id :: id in right <==> IsClosingId(b, s, id)
    ensures Closed(b, gaps, s)
    ensures left == right
  {
    forall f ensures f in a <==> f in b { assert f in multiset(a) <==> f in multiset(b); }
    AscendingUnique(left, right);
  }
}
