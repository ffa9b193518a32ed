/** Which references between archived records resolve for a reader (internal/archive/archive.go, snapshot.go and
    normalize.go). */
module ArchiveReferences {
  import opened Orders
  import opened Archive
  import opened ArchiveRuns
  import opened ArchiveAppends

  // ----- What a snapshot demands -----

  ghost predicate HasEvidence(v: View, e: string) { exists o :: o in v.envelopes && v.envelopes[o].evidence == e }

  /** The facts that a visible fact says it contradicts are visible. */
  ghost predicate ContradictionsResolve(v: View) {
    forall f, c :: f in v.facts && c in v.facts[f].contradicts ==> c in v.facts
  }

  /** Evidence of facts, contradicted facts, parents of evidence and repositories of checkpoints are all there. */
  ghost predicate SelfContained(v: View) { EvidenceResolves(v) && ContradictionsResolve(v) && ParentsResolve(v) && CheckpointsResolve(v) }

  ghost predicate EvidenceResolves(v: View) { forall l :: l in v.factEvidence ==> l.0 in v.facts && HasEvidence(v, l.1) }

  ghost predicate ParentsResolve(v: View) { forall o, p :: o in v.envelopes && p in v.envelopes[o].parents ==> HasEvidence(v, p) }

  ghost predicate CheckpointsResolve(v: View) { forall r :: r in v.checkpoints ==> HasRepository(v, r) }

  ghost predicate HasRepository(v: View, r: int) { exists f :: f in v.facts && v.facts[f].place == Some(RepositoryPlace(r)) }

  // ----- What foreign keys keep -----

  /** Parents of stored evidence, and repositories of stored checkpoints, are there. */
  ghost predicate KeysHold(t: Tables) {
    && (forall o, p :: o in t.envelopes && p in t.envelopes[o].parents ==> p in t.evidenceObjects)
    && (forall r :: r in t.checkpoints ==> RepositoryPlace(r) in t.places)
  }

  lemma {:induction false} CheckpointKeys(t: Tables, cs: seq<Checkpoint>, places: set<Place>)
    requires RowsHomed(t, cs, places) && forall r :: r in t.checkpoints ==> RepositoryPlace(r) in places
    ensures forall r :: r in InsertCheckpointRows(t, cs).checkpoints ==> RepositoryPlace(r) in places
  {
    if cs != [] { CheckpointKeys(t, cs[..|cs| - 1], places); }
  }

  lemma CommitKeepsKeys(t: Tables, b: Batch)
    requires KeysHold(t) && Commits(t, CommitTx(b))
    ensures KeysHold(Commit(t, b).value)
  {
    var c := Commit(t, b).value;
    CommitEffect(t, b);
    InsertAllIsUnion(t.envelopes, b.evidence, EnvelopeKey);
    CheckpointKeys(t, b.checkpoints, c.places);
    forall o, p | o in c.envelopes && p in c.envelopes[o].parents ensures p in c.evidenceObjects {
      if o !in t.envelopes { assert c.envelopes[o] in b.evidence && EnvelopeHomed(c.envelopes[o], c.places, c.evidenceObjects); }
    }
  }

  lemma {:induction false} KeysAreKept(events: seq<Event>)
    ensures KeysHold(Execute(events))
  {
    if events != [] {
      var front, e := events[..|events| - 1], events[|events| - 1];
      KeysAreKept(front);
      var t := Execute(front);
      if Commits(t, e) {
        CommitKeepsKeys(t, e.batch);
      } else if e.PrepareTx? && Prepare(t, e.batch).Some? {
        PrepareEffect(t, e.batch);
      } else {
        assert Next(t, e) == t;
      }
    }
  }

  // ----- Which rows are visible -----

  ghost predicate InSome<R(!new)>(log: seq<Batch>, rows: Batch -> seq<R>, row: R) { exists b :: b in log && row in rows(b) }

  /** The table holds exactly the rows of the batches in the log, each under its key. */
  ghost predicate HoldsLog<R(!new)>(table: map<string, R>, log: seq<Batch>, rows: Batch -> seq<R>, key: R -> string) {
    && (forall k :: k in table ==> key(table[k]) == k && InSome(log, rows, table[k]))
    && (forall row :: InSome(log, rows, row) ==> key(row) in table && table[key(row)] == row)
  }

  lemma OneMoreBatch<R(!new)>(front: seq<Batch>, last: Batch, rows: Batch -> seq<R>, key: R -> string, before: map<string, R>,
                              after: map<string, R>)
    requires InsertAll(before, rows(last), key) == Some(after) && HoldsLog(before, front, rows, key)
    ensures HoldsLog(after, front + [last], rows, key)
  {
    InsertAllIsUnion(before, rows(last), key);
    var log := front + [last];
    forall k | k in after ensures key(after[k]) == k && InSome(log, rows, after[k]) {
      if k in before {
        var b :| b in front && after[k] in rows(b);
        assert b in log;
      } else {
        assert last in log && after[k] in rows(last);
      }
    }
    forall row | InSome(log, rows, row) ensures key(row) in after && after[key(row)] == row {
      var b :| b in log && row in rows(b);
      if b in front { assert InSome(front, rows, row); }
    }
  }

  function SessionsIn(b: Batch): seq<Session> { b.collections }
  function PayloadsIn(b: Batch): seq<Payload> { b.payloads }
  function EnvelopesIn(b: Batch): seq<Envelope> { b.evidence }
  function FactsIn(b: Batch): seq<FactRow> { FactRows(b.facts) }

  /** After a replay the visible sessions, payloads, envelopes and facts are exactly those of the batches in the log. */
  lemma {:induction false} RowsOfLog(log: seq<Batch>)
    requires Replay(log).Some?
    ensures HoldsLog(Replay(log).value.sessions, log, SessionsIn, SessionKey)
    ensures HoldsLog(Replay(log).value.payloads, log, PayloadsIn, PayloadKey)
    ensures HoldsLog(Replay(log).value.envelopes, log, EnvelopesIn, EnvelopeKey)
    ensures HoldsLog(Replay(log).value.facts, log, FactsIn, FactKey)
  {
    if log != [] {
      var front, last := log[..|log| - 1], log[|log| - 1];
      RowsOfLog(front);
      assert log == front + [last];
      var v, w := Replay(front).value, Replay(log).value;
      OneMoreBatch(front, last, SessionsIn, SessionKey, v.sessions, w.sessions);
      OneMoreBatch(front, last, PayloadsIn, PayloadKey, v.payloads, w.payloads);
      OneMoreBatch(front, last, EnvelopesIn, EnvelopeKey, v.envelopes, w.envelopes);
      OneMoreBatch(front, last, FactsIn, FactKey, v.facts, w.facts);
    }
  }

  ghost predicate LinkedIn(log: seq<Batch>, l: (string, string)) { exists b :: b in log && l in EvidenceLinks(b.facts) }

  lemma {:induction false} LinksOfLog(log: seq<Batch>)
    requires Replay(log).Some?
    ensures forall l :: l in Replay(log).value.factEvidence <==> LinkedIn(log, l)
  {
    if log != [] {
      var front, last := log[..|log| - 1], log[|log| - 1];
      LinksOfLog(front);
      assert log == front + [last];
      forall l ensures l in Replay(log).value.factEvidence <==> LinkedIn(log, l) {
        if LinkedIn(log, l) {
          var b :| b in log && l in EvidenceLinks(b.facts);
          assert b in front ==> LinkedIn(front, l);
        }
        if LinkedIn(front, l) {
          var b :| b in front && l in EvidenceLinks(b.facts);
          assert b in log;
        }
        assert last in log;
      }
    }
  }

  // ----- When the archive is self-contained -----

  /** Every fact that a committed fact says it contradicts was committed too. */
  ghost predicate ContradictedCommitted(log: seq<Batch>) {
    forall row, c :: InSome(log, FactsIn, row) && c in row.contradicts ==> exists other :: InSome(log, FactsIn, other) && other.id == c
  }

  /** After any run, what readers see is self-contained, as a snapshot must be, if and only if every fact that some
      committed fact says it contradicts was committed too: foreign keys keep all the other references. */
  lemma SelfContainedExactly(events: seq<Event>, u: set<Batch>)
    requires Addressed(u) && From(events, u)
    ensures SelfContained(Visible(Execute(events))) <==> ContradictedCommitted(Log(events))
  {
    var v := Visible(Execute(events));
    VisibleIsReplay(events, u);
    OthersResolve(events, u);
    RowsOfLog(Log(events));
    ContradictionsOfLog(Log(events), v);
  }

  /** The facts that the batch's facts contradict are visible or come with the batch. */
  ghost predicate ContradictionsKnown(v: View, b: Batch) {
    forall row, c :: row in FactRows(b.facts) && c in row.contradicts ==> c in v.facts || exists other :: other in FactRows(b.facts) && other.id == c
  }

  /** What a caller can check beforehand: a call that succeeds on an archive that is self-contained leaves it so if and
      only if the facts that the batch's facts contradict are visible or come with the batch. */
  lemma AppendKeepsSelfContained(events: seq<Event>, u: set<Batch>, b: Batch)
    requires Addressed(u) && From(events, u) && b in u && b !in Log(events) && Appended(Execute(events), b).0 == Done
    requires SelfContained(Visible(Execute(events)))
    ensures SelfContained(Visible(Appended(Execute(events), b).1)) <==> ContradictionsKnown(Visible(Execute(events)), b)
  {
    var v := Visible(Execute(events));
    AppendSucceedsExactly(events, u, b);
    var more := AppendIsARun(events, b);
    OthersResolve(events + more, u);
    KnownResolves(v, b);
  }

  lemma KnownResolves(v: View, b: Batch)
    requires Apply(v, b).Some? && ContradictionsResolve(v)
    ensures ContradictionsResolve(Apply(v, b).value) <==> ContradictionsKnown(v, b)
  {
    var w := Apply(v, b).value;
    InsertAllIsUnion(v.facts, FactRows(b.facts), FactKey);
    if ContradictionsResolve(w) {
      forall row, c | row in FactRows(b.facts) && c in row.contradicts
        ensures c in v.facts || exists other :: other in FactRows(b.facts) && other.id == c
      {
        assert FactKey(row) in w.facts && c in w.facts;
        if c !in v.facts { assert w.facts[c] in FactRows(b.facts) && FactKey(w.facts[c]) == c; }
      }
    }
    if ContradictionsKnown(v, b) {
      forall f, c | f in w.facts && c in w.facts[f].contradicts ensures c in w.facts {
        if f !in v.facts && c !in v.facts {
          var other :| other in FactRows(b.facts) && other.id == c;
          assert FactKey(other) in w.facts;
        }
      }
    }
  }

  lemma OthersResolve(events: seq<Event>, u: set<Batch>)
    requires Addressed(u) && From(events, u)
    ensures var v := Visible(Execute(events)); EvidenceResolves(v) && ParentsResolve(v) && CheckpointsResolve(v)
  {
    var t := Execute(events);
    VisibleIsReplay(events, u);
    SourcesHold(events, u);
    KeysAreKept(events);
    SeenIsStored(t, u);
    VisibleIsAll(t);
    EvidenceThere(t, Visible(t));
    CheckpointsThere(t, Visible(t));
  }

  lemma EvidenceThere(t: Tables, v: View)
    requires OnlyCommitted(t) && KeysHold(t)
    requires v.envelopes == t.envelopes && v.facts == t.facts && v.factEvidence == t.factEvidence
    ensures EvidenceResolves(v) && ParentsResolve(v)
  {
    forall e | e in t.evidenceObjects ensures HasEvidence(v, e) {
      var o :| o in t.envelopes && t.envelopes[o].evidence == e;
      assert o in v.envelopes;
    }
  }

  lemma CheckpointsThere(t: Tables, v: View)
    requires KeysHold(t) && t.places == RowPlaces(t.facts) && v.facts == t.facts && v.checkpoints.Keys == t.checkpoints.Keys
    ensures CheckpointsResolve(v)
  {
    forall r | r in v.checkpoints ensures HasRepository(v, r) {
      assert RepositoryPlace(r) in RowPlaces(t.facts);
      var f :| f in t.facts && t.facts[f].place == Some(RepositoryPlace(r));
    }
  }

  lemma ContradictionsOfLog(log: seq<Batch>, v: View)
    requires HoldsLog(v.facts, log, FactsIn, FactKey)
    ensures ContradictionsResolve(v) <==> ContradictedCommitted(log)
  {
    if ContradictionsResolve(v) {
      forall row, c | InSome(log, FactsIn, row) && c in row.contradicts ensures exists other :: InSome(log, FactsIn, other) && other.id == c {
        assert FactKey(row) in v.facts && c in v.facts;
        assert InSome(log, FactsIn, v.facts[c]) && FactKey(v.facts[c]) == c;
      }
    }
    if ContradictedCommitted(log) {
      forall f, c | f in v.facts && c in v.facts[f].contradicts ensures c in v.facts {
        assert InSome(log, FactsIn, v.facts[f]);
        var other :| InSome(log, FactsIn, other) && other.id == c;
        assert FactKey(other) in v.facts;
      }
    }
  }
}
