/** The foreign keys of the archive (internal/archive/archive.go, persist.go): over every run each row refers to rows that
    are there, and a commit is refused for a reference exactly when it would leave one that does not resolve. */
module ArchiveIntegrity {
  import opened Orders
  import opened Archive
  import opened ArchiveRuns

  /** Runs hang below repositories, attempts below runs and jobs below attempts. */
  ghost predicate PlacesIntact(places: set<Place>) {
    && (forall r, n :: RunPlace(r, n) in places ==> RepositoryPlace(r) in places)
    && (forall r, n, a :: AttemptPlace(r, n, a) in places ==> RunPlace(r, n) in places)
    && (forall r, n, a, j :: JobPlace(r, n, a, j) in places ==> AttemptPlace(r, n, a) in places)
  }

  ghost predicate InRepository(repository: Option<int>, places: set<Place>) { repository == None || RepositoryPlace(repository.value) in places }

  ghost predicate FactsIntact(facts: map<string, FactRow>, places: set<Place>) {
    forall f :: f in facts ==> InRepository(facts[f].repository, places) && (facts[f].place == None || facts[f].place.value in places)
  }

  ghost predicate EvidenceIntact(envelopes: map<string, Envelope>, places: set<Place>, known: set<string>) {
    forall o :: o in envelopes ==>
      && envelopes[o].evidence in known && InRepository(envelopes[o].repository, places)
      && forall p :: p in envelopes[o].parents ==> p in known
  }

  ghost predicate LinksIntact(links: set<(string, string)>, facts: map<string, FactRow>, known: set<string>) {
    forall f, e :: (f, e) in links ==> f in facts && e in known
  }

  ghost predicate CheckpointsIntact(checkpoints: map<int, CheckpointRow>, parents: set<(int, Parent)>, places: set<Place>) {
    && (forall r :: r in checkpoints ==> RepositoryPlace(r) in places)
    && (forall r, p :: (r, p) in parents ==> r in checkpoints && RunPlace(r, p.run) in places)
  }

  ghost predicate MembersIntact(t: Tables) {
    && (forall b, s :: (b, s) in t.batchCollections ==> b in t.batches && s in t.sessions)
    && (forall b, f :: (b, f) in t.batchFacts ==> b in t.batches && f in t.facts)
  }

  /** No reference dangles. */
  ghost predicate Intact(t: Tables) {
    && PlacesIntact(t.places) && FactsIntact(t.facts, t.places) && EvidenceIntact(t.envelopes, t.places, t.evidenceObjects)
    && LinksIntact(t.factEvidence, t.facts, t.evidenceObjects) && CheckpointsIntact(t.checkpoints, t.parents, t.places) && MembersIntact(t)
  }

  // ----- Checkpoints -----

  ghost predicate OneEach(cs: seq<Checkpoint>) { forall i, j :: 0 <= i < j < |cs| ==> cs[i].repository != cs[j].repository }

  lemma {:induction false} ParentsElsewhere(t: Tables, cs: seq<Checkpoint>, r: int)
    requires forall c :: c in cs ==> c.repository != r
    ensures forall p :: (r, p) in InsertCheckpointRows(t, cs).parents <==> (r, p) in t.parents
    ensures r in InsertCheckpointRows(t, cs).checkpoints <==> r in t.checkpoints
  {
    if cs != [] {
      assert cs == cs[..|cs| - 1] + [cs[|cs| - 1]];
      ParentsElsewhere(t, cs[..|cs| - 1], r);
    }
  }

  /** A checkpoint written is there as a whole. */
  lemma WrittenIsThere(t: Tables, c: Checkpoint, places: set<Place>)
    requires CheckpointsIntact(t.checkpoints, t.parents, places)
    ensures var s := InsertCheckpointRow(t, c);
      CheckpointsIntact(s.checkpoints, s.parents, places) <==> (Advances(t, c) ==> CheckpointHomed(c, places))
  {
    var s := InsertCheckpointRow(t, c);
    if Advances(t, c) && CheckpointsIntact(s.checkpoints, s.parents, places) {
      assert c.repository in s.checkpoints;
      forall p | p in c.parents ensures RunPlace(c.repository, p.run) in places { assert (c.repository, p) in s.parents; }
    }
  }

  /** For one checkpoint to a repository: the writes find what they refer to exactly when none of them dangles after. */
  lemma {:induction false} RowsHomedExactly(t: Tables, cs: seq<Checkpoint>, places: set<Place>)
    requires CheckpointsIntact(t.checkpoints, t.parents, places) && OneEach(cs)
    ensures var s := InsertCheckpointRows(t, cs); RowsHomed(t, cs, places) <==> CheckpointsIntact(s.checkpoints, s.parents, places)
  {
    if cs != [] {
      var front, last := cs[..|cs| - 1], cs[|cs| - 1];
      var s, s' := InsertCheckpointRows(t, front), InsertCheckpointRows(t, cs);
      RowsHomedExactly(t, front, places);
      ParentsElsewhere(t, front, last.repository);
      if CheckpointsIntact(s.checkpoints, s.parents, places) {
        WrittenIsThere(s, last, places);
      } else {
        StillDangling(t, s, last, places);
      }
    }
  }

  lemma RowElsewhere(s: Tables, c: Checkpoint)
    ensures var u := InsertCheckpointRow(s, c);
      && s.checkpoints.Keys <= u.checkpoints.Keys <= s.checkpoints.Keys + {c.repository}
      && (forall r, p :: r != c.repository ==> ((r, p) in u.parents <==> (r, p) in s.parents))
  {
    var u := InsertCheckpointRow(s, c);
    RowStaysExactly(s, c);
    forall r, p | r != c.repository ensures (r, p) in u.parents <==> (r, p) in s.parents { assert (r, p).0 == r; }
  }

  lemma StillDangling(t: Tables, s: Tables, c: Checkpoint, places: set<Place>)
    requires CheckpointsIntact(t.checkpoints, t.parents, places) && !CheckpointsIntact(s.checkpoints, s.parents, places)
    requires forall p :: (c.repository, p) in s.parents <==> (c.repository, p) in t.parents
    requires c.repository in s.checkpoints <==> c.repository in t.checkpoints
    ensures !CheckpointsIntact(InsertCheckpointRow(s, c).checkpoints, InsertCheckpointRow(s, c).parents, places)
  {
    var u := InsertCheckpointRow(s, c);
    RowElsewhere(s, c);
    if CheckpointsIntact(u.checkpoints, u.parents, places) {
      forall r, p | (r, p) in s.parents ensures r in s.checkpoints && RunPlace(r, p.run) in places {
        if r == c.repository { assert (r, p) in t.parents; } else { assert (r, p) in u.parents; }
      }
    }
  }

  // ----- A commit -----

  /** No row of the batch contradicts a stored one. */
  predicate Agrees(t: Tables, b: Batch) {
    && InsertAll(t.payloads, b.payloads, PayloadKey).Some? && InsertAll(t.requests, Requests(b.evidence), RequestKey).Some?
    && InsertAll(t.envelopes, b.evidence, EnvelopeKey).Some? && InsertAll(t.facts, FactRows(b.facts), FactKey).Some?
  }

  /** The tables with all that the batch writes. */
  function Merged(t: Tables, b: Batch): Tables
    requires Agrees(t, b)
  {
    t.(payloads := InsertAll(t.payloads, b.payloads, PayloadKey).value,
       requests := InsertAll(t.requests, Requests(b.evidence), RequestKey).value,
       places := t.places + Places(b.facts),
       evidenceObjects := t.evidenceObjects + set e | e in b.evidence :: e.evidence,
       envelopes := InsertAll(t.envelopes, b.evidence, EnvelopeKey).value,
       facts := InsertAll(t.facts, FactRows(b.facts), FactKey).value,
       batchFacts := t.batchFacts + set f | f in b.facts :: (b.id, f.row.id),
       factEvidence := t.factEvidence + EvidenceLinks(b.facts),
       capabilities := InsertCapabilities(t.capabilities, b.capabilities),
       checkpoints := InsertCheckpointRows(t, b.checkpoints).checkpoints,
       parents := InsertCheckpointRows(t, b.checkpoints).parents,
       batches := t.batches[b.id := Committed])
  }

  lemma AboveByKind(places: set<Place>)
    ensures PlacesIntact(places) <==> forall p :: p in places && Above(p).Some? ==> Above(p).value in places
  {
    if PlacesIntact(places) {
      forall p | p in places && Above(p).Some? ensures Above(p).value in places {
        match p {
          case RepositoryPlace(_) =>
          case RunPlace(r, n) =>
          case AttemptPlace(r, n, a) =>
          case JobPlace(r, n, a, j) =>
        }
      }
    }
    if forall p :: p in places && Above(p).Some? ==> Above(p).value in places {
      assert forall r, n :: RunPlace(r, n) in places ==> Above(RunPlace(r, n)).value in places;
      assert forall r, n, a :: AttemptPlace(r, n, a) in places ==> Above(AttemptPlace(r, n, a)).value in places;
      assert forall r, n, a, j :: JobPlace(r, n, a, j) in places ==> Above(JobPlace(r, n, a, j)).value in places;
    }
  }

  lemma FactsHomedExactly(t: Tables, b: Batch)
    requires Agrees(t, b) && PlacesIntact(t.places) && FactsIntact(t.facts, t.places)
    ensures var m := Merged(t, b);
      FactsHomed(b.facts, m.places) <==> PlacesIntact(m.places) && FactsIntact(m.facts, m.places)
  {
    var m := Merged(t, b);
    AboveByKind(t.places);
    AboveByKind(m.places);
    InsertAllIsUnion(t.facts, FactRows(b.facts), FactKey);
    if FactsHomed(b.facts, m.places) {
      forall p | p in m.places && Above(p).Some? ensures Above(p).value in m.places {
        if p !in t.places {
          var f :| f in b.facts && f.row.place == Some(p);
          assert AboveKnown(f.row, m.places);
        }
      }
      forall f | f in m.facts ensures InRepository(m.facts[f].repository, m.places) && (m.facts[f].place == None || m.facts[f].place.value in m.places) {
        if f !in t.facts {
          var fact := FactOfRow(b.facts, m.facts[f]);
          assert RepositoryKnown(fact.row.repository, m.places);
        }
      }
    }
    if PlacesIntact(m.places) && FactsIntact(m.facts, m.places) {
      forall f | f in b.facts ensures AboveKnown(f.row, m.places) && RepositoryKnown(f.row.repository, m.places) {
        RowOfFact(b.facts, f);
        assert f.row.id in m.facts && m.facts[f.row.id] == f.row;
      }
    }
  }

  lemma FactOfRow(facts: seq<Fact>, row: FactRow) returns (f: Fact)
    requires row in FactRows(facts)
    ensures f in facts && f.row == row
  {
    var i :| 0 <= i < |facts| && FactRows(facts)[i] == row;
    f := facts[i];
  }

  lemma RowOfFact(facts: seq<Fact>, f: Fact)
    requires f in facts
    ensures f.row in FactRows(facts) && FactKey(f.row) == f.row.id
  {
    var i :| 0 <= i < |facts| && facts[i] == f;
    assert FactRows(facts)[i] == f.row;
  }

  lemma EvidenceHomedExactly(t: Tables, b: Batch)
    requires Agrees(t, b) && EvidenceIntact(t.envelopes, t.places, t.evidenceObjects)
    ensures var m := Merged(t, b);
      EvidenceHomed(b.evidence, m.places, m.evidenceObjects) <==> EvidenceIntact(m.envelopes, m.places, m.evidenceObjects)
  {
    var m := Merged(t, b);
    InsertAllIsUnion(t.envelopes, b.evidence, EnvelopeKey);
    if EvidenceHomed(b.evidence, m.places, m.evidenceObjects) {
      forall o | o in m.envelopes
        ensures m.envelopes[o].evidence in m.evidenceObjects && InRepository(m.envelopes[o].repository, m.places)
        ensures forall p :: p in m.envelopes[o].parents ==> p in m.evidenceObjects
      {
        if o !in t.envelopes { assert m.envelopes[o] in b.evidence && EnvelopeHomed(m.envelopes[o], m.places, m.evidenceObjects); }
      }
    }
    if EvidenceIntact(m.envelopes, m.places, m.evidenceObjects) {
      forall e | e in b.evidence ensures EnvelopeHomed(e, m.places, m.evidenceObjects) {
        assert EnvelopeKey(e) in m.envelopes && m.envelopes[EnvelopeKey(e)] == e;
      }
    }
  }

  lemma {:induction false} LinksAreOfFacts(facts: seq<Fact>)
    ensures forall l :: l in EvidenceLinks(facts) <==> exists f :: f in facts && f.row.id == l.0 && l.1 in f.evidence
  {
    if facts != [] {
      var front, last := facts[..|facts| - 1], facts[|facts| - 1];
      LinksAreOfFacts(front);
      assert forall f :: f in facts <==> f in front || f == last;
    }
  }

  lemma LinksKnownExactly(t: Tables, b: Batch)
    requires Agrees(t, b) && LinksIntact(t.factEvidence, t.facts, t.evidenceObjects)
    ensures var m := Merged(t, b);
      Known(EvidenceLinks(b.facts), m.evidenceObjects) <==> LinksIntact(m.factEvidence, m.facts, m.evidenceObjects)
  {
    var m := Merged(t, b);
    InsertAllIsUnion(t.facts, FactRows(b.facts), FactKey);
    LinksAreOfFacts(b.facts);
    if Known(EvidenceLinks(b.facts), m.evidenceObjects) {
      forall f, e | (f, e) in m.factEvidence ensures f in m.facts && e in m.evidenceObjects {
        if (f, e) in EvidenceLinks(b.facts) {
          var fact :| fact in b.facts && fact.row.id == (f, e).0 && (f, e).1 in fact.evidence;
          RowOfFact(b.facts, fact);
        }
      }
    }
    if LinksIntact(m.factEvidence, m.facts, m.evidenceObjects) {
      forall l | l in EvidenceLinks(b.facts) ensures l.1 in m.evidenceObjects { assert (l.0, l.1) in m.factEvidence; }
    }
  }

  lemma MembersStay(t: Tables, b: Batch)
    requires Agrees(t, b) && MembersIntact(t)
    ensures MembersIntact(Merged(t, b))
  {
    var m := Merged(t, b);
    InsertAllIsUnion(t.facts, FactRows(b.facts), FactKey);
    forall i, f | (i, f) in m.batchFacts ensures i in m.batches && f in m.facts {
      if (i, f) !in t.batchFacts {
        var fact :| fact in b.facts && (b.id, fact.row.id) == (i, f);
        RowOfFact(b.facts, fact);
      }
    }
  }

  /** A prepared batch commits exactly when it contradicts no stored row and, written out, leaves no reference dangling;
      one checkpoint to a repository, as normalization leaves them. */
  lemma CommitsExactly(t: Tables, b: Batch)
    requires Intact(t) && b.id in t.batches && t.batches[b.id] == Prepared && OneEach(b.checkpoints)
    ensures Commit(t, b).Some? <==> Agrees(t, b) && Intact(Merged(t, b))
    ensures Commit(t, b).Some? ==> Commit(t, b).value == Merged(t, b)
  {
    if Agrees(t, b) {
      var m := Merged(t, b);
      FactsHomedExactly(t, b);
      EvidenceHomedExactly(t, b);
      LinksKnownExactly(t, b);
      CheckpointsGrow(t, m.places);
      RowsHomedExactly(t, b.checkpoints, m.places);
      MembersStay(t, b);
    }
  }

  lemma CheckpointsGrow(t: Tables, places: set<Place>)
    requires CheckpointsIntact(t.checkpoints, t.parents, t.places) && t.places <= places
    ensures CheckpointsIntact(t.checkpoints, t.parents, places)
  {
  }

  lemma {:induction false} WritesKeepIntact(t: Tables, cs: seq<Checkpoint>, places: set<Place>)
    requires CheckpointsIntact(t.checkpoints, t.parents, places) && RowsHomed(t, cs, places)
    ensures CheckpointsIntact(InsertCheckpointRows(t, cs).checkpoints, InsertCheckpointRows(t, cs).parents, places)
  {
    if cs != [] {
      WritesKeepIntact(t, cs[..|cs| - 1], places);
      WrittenIsThere(InsertCheckpointRows(t, cs[..|cs| - 1]), cs[|cs| - 1], places);
    }
  }

  lemma CommitKeepsIntact(t: Tables, b: Batch)
    requires Intact(t) && Commit(t, b).Some?
    ensures Intact(Commit(t, b).value)
  {
    if t.batches[b.id] == Prepared {
      var m := Merged(t, b);
      FactsHomedExactly(t, b);
      EvidenceHomedExactly(t, b);
      LinksKnownExactly(t, b);
      CheckpointsGrow(t, m.places);
      WritesKeepIntact(t, b.checkpoints, m.places);
      MembersStay(t, b);
    }
  }

  lemma PrepareKeepsIntact(t: Tables, b: Batch)
    requires Intact(t) && Prepare(t, b).Some?
    ensures Intact(Prepare(t, b).value)
  {
    InsertAllIsUnion(t.sessions, b.collections, SessionKey);
    var p := Prepare(t, b).value;
    forall i, s | (i, s) in p.batchCollections ensures i in p.batches && s in p.sessions {
      if (i, s) !in t.batchCollections {
        var session :| session in b.collections && (b.id, session.id) == (i, s);
        assert SessionKey(session) in p.sessions;
      }
    }
  }

  /** After any run of prepares, commits and interruptions, of any batches, no reference dangles. */
  lemma {:induction false} RunsStayIntact(events: seq<Event>)
    ensures Intact(Execute(events))
  {
    if events != [] {
      var front, e := events[..|events| - 1], events[|events| - 1];
      RunsStayIntact(front);
      match e {
        case PrepareTx(b) => if Prepare(Execute(front), b).Some? { PrepareKeepsIntact(Execute(front), b); }
        case CommitTx(b) => if Commit(Execute(front), b).Some? { CommitKeepsIntact(Execute(front), b); }
        case Interruption =>
      }
    }
  }
}
