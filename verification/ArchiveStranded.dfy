/** A batch that the archive takes and after which no snapshot can be read (internal/archive/archive.go and normalize.go). */
module ArchiveStranded {
  import opened Orders
  import opened Identity
  import opened Lists
  import opened NormalizeTheorems
  import opened BatchRows
  import opened ArchiveSnapshots
  import N = Normalize
  import S = Snapshots
  import A = Archive
  import R = ArchiveRuns
  import P = ArchiveAppends
  import F = ArchiveReferences

  // ----- What an empty archive takes -----

  lemma RowsApart<T(!new), V(!new)>(xs: seq<T>, tidy: T -> T, ok: T -> bool, codes: T -> seq<int>, row: T -> V, key: V -> string)
    requires Passes(xs, tidy, ok, codes) && (forall x :: x in xs ==> tidy(x) == x && codes(x) == Codes(key(row(x))))
    ensures A.NoConflict(map[], Map(row, xs), key)
  {
    forall i | 0 <= i < |xs| ensures tidy(xs[i]) == xs[i] { assert xs[i] in xs; }
    assert Map(tidy, xs) == xs;
    DistinctKeysAt(xs, codes);
    forall y, z | y in Map(row, xs) && z in Map(row, xs) && key(y) == key(z) ensures y == z {
      var i :| 0 <= i < |xs| && Map(row, xs)[i] == y;
      var j :| 0 <= j < |xs| && Map(row, xs)[j] == z;
      assert xs[i] in xs && xs[j] in xs && codes(xs[i]) == codes(xs[j]);
      assert i == j;
    }
  }

  /** Envelopes that name one source request agree on it. */
  ghost predicate RequestsAgree(c: Columns, b: N.BatchContent) {
    forall d, e :: d in b.evidence && e in b.evidence && c.request(d).id == c.request(e).id ==> c.request(d) == c.request(e)
  }

  lemma RequestsApart(h: N.Hashes, c: Columns, b: N.BatchContent)
    requires RequestsAgree(c, b)
    ensures A.NoConflict(map[], A.Requests(Rows(h, c, b).evidence), A.RequestKey)
  {
    var rows := A.Requests(Rows(h, c, b).evidence);
    forall y, z | y in rows && z in rows && A.RequestKey(y) == A.RequestKey(z) ensures y == z {
      var i :| 0 <= i < |rows| && rows[i] == y;
      var j :| 0 <= j < |rows| && rows[j] == z;
      assert b.evidence[i] in b.evidence && b.evidence[j] in b.evidence;
      assert y == c.request(b.evidence[i]) && z == c.request(b.evidence[j]);
    }
  }

  /** An accepted batch contradicts nothing in an empty archive. */
  lemma AcceptedApplies(h: N.Hashes, rules: N.Rules, c: Columns, b: N.BatchContent)
    requires Accepted(h, rules, b) && RequestsAgree(c, b)
    ensures R.Apply(R.NOTHING, Rows(h, c, b)).Some?
  {
    var rows := Rows(h, c, b);
    forall s | s in b.collections ensures N.TidySession(s) == s { SessionFits(h, rules, b, s); }
    forall f | f in b.facts ensures N.Tidier(h)(f) == f { FactFits(h, rules, b, f); }
    RowsApart(b.collections, N.TidySession, N.SessionRule(rules), N.SessionKey, SessionRow(c), A.SessionKey);
    RowsApart(b.payloads, N.Same, rules.payload, N.PayloadKey, PayloadRow(c), A.PayloadKey);
    RowsApart(b.evidence, N.Same, N.EnvelopeRule(rules, N.ContextOf(b.collections, b.payloads)), N.EnvelopeKey, EnvelopeRow(c), A.EnvelopeKey);
    RowsApart(b.facts, N.Tidier(h), N.FactRule(h, rules), N.FactKey, FactRowOf(c), A.FactKey);
    RequestsApart(h, c, b);
    assert A.FactRows(rows.facts) == Map(FactRowOf(c), b.facts);
    A.InsertAllIsUnion(map[], rows.collections, A.SessionKey);
    A.InsertAllIsUnion(map[], rows.payloads, A.PayloadKey);
    A.InsertAllIsUnion(map[], A.Requests(rows.evidence), A.RequestKey);
    A.InsertAllIsUnion(map[], rows.evidence, A.EnvelopeKey);
    A.InsertAllIsUnion(map[], A.FactRows(rows.facts), A.FactKey);
  }

  /** All that the batch refers to comes with it, but for the facts it contradicts. */
  ghost predicate Whole(h: N.Hashes, c: Columns, b: N.BatchContent) {
    RequestsAgree(c, b) && P.EvidenceKnown(R.NOTHING, Rows(h, c, b)) && P.PlacesKnown(R.NOTHING, Rows(h, c, b))
  }

  lemma WholeIsAppended(h: N.Hashes, rules: N.Rules, c: Columns, b: N.BatchContent)
    requires Accepted(h, rules, b) && Whole(h, c, b)
    ensures A.Appended(A.EMPTY, Rows(h, c, b)).0 == A.Done
    ensures Some(R.Visible(A.Appended(A.EMPTY, Rows(h, c, b)).1)) == R.Apply(R.NOTHING, Rows(h, c, b))
  {
    AcceptedIsNormalized(h, rules, c, b);
    AcceptedApplies(h, rules, c, b);
    EmptyTakes(Rows(h, c, b));
  }

  lemma EmptyTakes(rows: A.Batch)
    requires A.Normalized(rows) && R.Apply(R.NOTHING, rows).Some? && P.EvidenceKnown(R.NOTHING, rows) && P.PlacesKnown(R.NOTHING, rows)
    ensures A.Appended(A.EMPTY, rows).0 == A.Done && Some(R.Visible(A.Appended(A.EMPTY, rows).1)) == R.Apply(R.NOTHING, rows)
  {
    NothingRun();
    EmptySeesNothing(rows);
    P.AppendSucceedsExactly([], {rows}, rows);
  }

  lemma EmptySeesNothing(rows: A.Batch)
    requires A.Normalized(rows)
    ensures R.Addressed({rows}) && R.From([], {rows}) && R.Visible(A.EMPTY) == R.NOTHING
  {
    NothingRun();
    R.VisibleIsReplay([], {rows});
  }

  /** The batch is taken; what readers see after it is not self-contained, and whatever a snapshot reads back is refused. */
  ghost predicate Strands(h: N.Hashes, rules: N.Rules, c: Columns, b: N.BatchContent) {
    var after := A.Appended(A.EMPTY, Rows(h, c, b));
    && after.0 == A.Done && !F.SelfContained(R.Visible(after.1))
    && forall r :: ReadsBack(c, R.Visible(after.1), r) ==> !S.SnapshotOk(h, rules, c.refs, r)
  }

  /** Nothing refuses an accepted batch with a fact that contradicts one that is nowhere. After it no
      snapshot can be read. */
  lemma UnknownContradictionIsTaken(h: N.Hashes, rules: N.Rules, c: Columns, b: N.BatchContent, f: N.Fact, x: string)
    requires Injective(h.batch) && Faithful(c) && Accepted(h, rules, b) && Whole(h, c, b)
    requires f in b.facts && x in S.Contradicts(f) && forall g :: g in b.facts ==> g.id != x
    ensures Strands(h, rules, c, b)
  {
    WholeIsAppended(h, rules, c, b);
    F.KnownResolves(R.NOTHING, Rows(h, c, b));
    NotKnown(h, c, b, f, x);
    var after := R.Visible(A.Appended(A.EMPTY, Rows(h, c, b)).1);
    forall r | ReadsBack(c, after, r) ensures !S.SnapshotOk(h, rules, c.refs, r) { SnapshotOfOne(h, rules, c, b, r); }
  }

  /** What a snapshot reads back after a single batch is accepted only if readers see all that is referred to. */
  lemma SnapshotOfOne(h: N.Hashes, rules: N.Rules, c: Columns, b: N.BatchContent, r: N.BatchContent)
    requires Injective(h.batch) && Faithful(c) && Accepted(h, rules, b)
    requires ReadsBack(c, R.Visible(A.Appended(A.EMPTY, Rows(h, c, b)).1), r)
    ensures S.SnapshotOk(h, rules, c.refs, r) ==> F.SelfContained(R.Visible(A.Appended(A.EMPTY, Rows(h, c, b)).1))
  {
    assert Rows(h, c, b) in Stored(h, c, {b});
    var run := RunOfOne(Rows(h, c, b), Stored(h, c, {b}));
    SnapshotAcceptedExactly(h, rules, c, {b}, run, r);
  }

  lemma RunOfOne(rows: A.Batch, u: set<A.Batch>) returns (run: seq<R.Event>)
    requires rows in u && rows.collections != []
    ensures R.From(run, u) && R.Execute(run) == A.Appended(A.EMPTY, rows).1
  {
    NothingRun();
    var more := R.AppendIsARun([], rows);
    run := [] + more;
    OnlyBatch(rows, more, u);
  }

  lemma NothingRun()
    ensures R.Execute([]) == A.EMPTY && R.Log([]) == []
  {
  }

  lemma OnlyBatch(rows: A.Batch, more: seq<R.Event>, u: set<A.Batch>)
    requires rows in u && (more == [R.PrepareTx(rows)] || more == [R.PrepareTx(rows), R.CommitTx(rows)])
    ensures R.From([] + more, u)
  {
  }

  lemma NotKnown(h: N.Hashes, c: Columns, b: N.BatchContent, f: N.Fact, x: string)
    requires f in b.facts && x in S.Contradicts(f) && forall g :: g in b.facts ==> g.id != x
    ensures !F.ContradictionsKnown(R.NOTHING, Rows(h, c, b))
  {
    var rows := A.FactRows(Rows(h, c, b).facts);
    assert rows == Map(FactRowOf(c), b.facts);
    Mapped(FactRowOf(c), b.facts, f);
    var row := RowOfFact(c, f);
    assert row in rows && x in row.contradicts && x !in R.NOTHING.facts;
    if exists other :: other in rows && other.id == x {
      var other :| other in rows && other.id == x;
      var g := Unmapped(FactRowOf(c), b.facts, other);
    }
  }

  /** A session, an envelope it collected, and two normalized facts that cite it: of a repository, and of a dependency of
      that repository that contradicts the fact x. */
  datatype Sample = Sample(session: N.Session, envelope: N.Envelope, repository: N.Fact, dependency: N.Fact, x: string)

  ghost predicate IsSample(h: N.Hashes, rules: N.Rules, c: Columns, m: Sample) {
    && N.TidySession(m.session) == m.session && N.SessionOk(rules, m.session)
    && rules.envelope(m.envelope.body) && m.envelope.collection == m.session.id && !m.envelope.rawRetained && m.envelope.retained.None?
    && IsFact(h, rules, c, m, m.repository) && m.repository.kind == N.RepositoryFact
    && IsFact(h, rules, c, m, m.dependency) && m.dependency.kind == N.Dependency && S.Contradicts(m.dependency) == [m.x]
    && m.x !in [m.repository.id, m.dependency.id] && m.repository.id != m.dependency.id
    && c.refs.parents(m.envelope) == [] && c.envelopeRepository(m.envelope) == Some(c.refs.repository(m.repository.subject))
    && c.place(m.dependency) == None
  }

  ghost predicate IsFact(h: N.Hashes, rules: N.Rules, c: Columns, m: Sample, f: N.Fact) {
    && N.TidyFact(h, f) == f && N.FactOk(h, rules, f) && f.evidence == [c.refs.evidenceId(m.envelope)]
    && c.factRepository(f) == Some(c.refs.repository(m.repository.subject))
  }

  function ContentOf(m: Sample): N.BatchContent { N.BatchContent([m.session], [], [m.envelope], [m.repository, m.dependency], [], []) }

  lemma SampleIsAccepted(h: N.Hashes, rules: N.Rules, c: Columns, m: Sample)
    requires IsSample(h, rules, c, m)
    ensures Accepted(h, rules, N.CanonicalBatch(h, ContentOf(m)))
  {
    var a := ContentOf(m);
    var rule := N.EnvelopeRule(rules, N.ContextOf(a.collections, a.payloads));
    assert m.session in a.collections;
    FixedPasses(a.collections, N.TidySession, N.SessionRule(rules), N.SessionKey);
    FixedPasses(a.evidence, N.Same, rule, N.EnvelopeKey);
    assert N.FactKey(m.repository) != N.FactKey(m.dependency) by {
      if N.FactKey(m.repository) == N.FactKey(m.dependency) { CodesInjective(m.repository.id, m.dependency.id); }
    }
    FixedPasses(a.facts, N.Tidier(h), N.FactRule(h, rules), N.FactKey);
    FixedPasses(a.payloads, N.Same, rules.payload, N.PayloadKey);
    FixedPasses(a.capabilities, N.Same, N.CapabilityRule(rules), N.CapabilityKey);
    FixedPasses(a.checkpoints, N.TidyCheckpoint, N.CheckpointRule(rules, N.ContextOf(a.collections, a.payloads)), N.CheckpointKey);
    NormalizedStays(h, rules, a);
    assert m.session in Canon(N.TidySession, N.SessionKey, a.collections);
  }

  lemma SampleMembers(h: N.Hashes, rules: N.Rules, c: Columns, m: Sample)
    requires IsSample(h, rules, c, m)
    ensures var b := N.CanonicalBatch(h, ContentOf(m));
      && (forall f :: f in b.facts <==> f == m.repository || f == m.dependency)
      && (forall e :: e in b.evidence <==> e == m.envelope) && b.checkpoints == []
  {
    var a := ContentOf(m);
    assert Map(N.Tidier(h), a.facts) == a.facts && Map(N.Same, a.evidence) == [m.envelope];
    SortMembers(a.facts, ByKey(N.FactKey));
    SortMembers(a.evidence, ByKey(N.EnvelopeKey));
    assert Map(N.TidyCheckpoint, a.checkpoints) == [];
  }

  /** What the sample's rows may refer to. */
  ghost function KnownPlaces(b: A.Batch): set<A.Place> { P.RowPlaces(R.NOTHING.facts) + A.Places(b.facts) }
  ghost function KnownEvidence(b: A.Batch): set<string> { P.EvidenceSeen(R.NOTHING) + R.EvidenceOf(b) }

  lemma SampleIsKnown(h: N.Hashes, rules: N.Rules, c: Columns, m: Sample)
    requires IsSample(h, rules, c, m)
    ensures var rows := Rows(h, c, N.CanonicalBatch(h, ContentOf(m)));
      && c.refs.evidenceId(m.envelope) in KnownEvidence(rows)
      && A.RepositoryPlace(c.refs.repository(m.repository.subject)) in KnownPlaces(rows)
  {
    var b := N.CanonicalBatch(h, ContentOf(m));
    var rows := Rows(h, c, b);
    SampleMembers(h, rules, c, m);
    Mapped(EnvelopeRow(c), b.evidence, m.envelope);
    assert RowOfEnvelope(c, m.envelope) in rows.evidence;
    Mapped(FactRow(c), b.facts, m.repository);
    assert FactRow(c)(m.repository) in rows.facts;
  }

  lemma SampleFactIsHomed(h: N.Hashes, rules: N.Rules, c: Columns, m: Sample, f: A.Fact)
    requires IsSample(h, rules, c, m) && f in Rows(h, c, N.CanonicalBatch(h, ContentOf(m))).facts
    ensures var rows := Rows(h, c, N.CanonicalBatch(h, ContentOf(m)));
      && A.AboveKnown(f.row, KnownPlaces(rows)) && A.RepositoryKnown(f.row.repository, KnownPlaces(rows))
      && forall e :: e in f.evidence ==> e in KnownEvidence(rows)
  {
    var b := N.CanonicalBatch(h, ContentOf(m));
    SampleMembers(h, rules, c, m);
    SampleIsKnown(h, rules, c, m);
    var g := Unmapped(FactRow(c), b.facts, f);
    assert IsFact(h, rules, c, m, g);
  }

  lemma SampleIsWhole(h: N.Hashes, rules: N.Rules, c: Columns, m: Sample)
    requires IsSample(h, rules, c, m)
    ensures Whole(h, c, N.CanonicalBatch(h, ContentOf(m)))
  {
    var b := N.CanonicalBatch(h, ContentOf(m));
    var rows := Rows(h, c, b);
    SampleMembers(h, rules, c, m);
    SampleIsKnown(h, rules, c, m);
    forall f | f in rows.facts
      ensures A.AboveKnown(f.row, KnownPlaces(rows)) && A.RepositoryKnown(f.row.repository, KnownPlaces(rows))
      ensures forall e :: e in f.evidence ==> e in KnownEvidence(rows)
    {
      SampleFactIsHomed(h, rules, c, m, f);
    }
    LinksKnown(rows.facts, KnownEvidence(rows));
    forall e | e in rows.evidence ensures A.EnvelopeHomed(e, KnownPlaces(rows), KnownEvidence(rows)) {
      var d := Unmapped(EnvelopeRow(c), b.evidence, e);
      assert d == m.envelope;
    }
  }

  lemma {:induction false} LinksKnown(facts: seq<A.Fact>, known: set<string>)
    requires forall f, e :: f in facts && e in f.evidence ==> e in known
    ensures A.Known(A.EvidenceLinks(facts), known)
  {
    if facts != [] {
      var front, last := facts[..|facts| - 1], facts[|facts| - 1];
      assert facts == front + [last];
      LinksKnown(front, known);
    }
  }

  lemma SampleContradicts(h: N.Hashes, rules: N.Rules, c: Columns, m: Sample)
    requires IsSample(h, rules, c, m)
    ensures var b := N.CanonicalBatch(h, ContentOf(m));
      m.dependency in b.facts && m.x in S.Contradicts(m.dependency) && forall g :: g in b.facts ==> g.id != m.x
  {
    SampleMembers(h, rules, c, m);
    assert S.Contradicts(m.dependency)[0] == m.x;
  }

  /** The least such batch: a repository, a dependency of it and the evidence of both. */
  lemma SampleIsTaken(h: N.Hashes, rules: N.Rules, c: Columns, m: Sample)
    requires Injective(h.batch) && Faithful(c) && IsSample(h, rules, c, m)
    ensures Strands(h, rules, c, N.CanonicalBatch(h, ContentOf(m)))
  {
    SampleIsAccepted(h, rules, c, m);
    SampleIsWhole(h, rules, c, m);
    SampleContradicts(h, rules, c, m);
    UnknownContradictionIsTaken(h, rules, c, N.CanonicalBatch(h, ContentOf(m)), m.dependency, m.x);
  }
}
