/** When a call of `append` succeeds, told from what readers see and from what other calls have prepared
    (internal/archive/archive.go). */
module ArchiveAppends {
  import opened Orders
  import opened Archive
  import opened ArchiveRuns

  // ----- What is stored came from a batch -----

  /** Stored sessions belong to batches that have a row, the evidence of stored envelopes is there, and the hierarchy is
      that of the stored facts. */
  ghost predicate Sources(t: Tables, u: set<Batch>) {
    && (forall id :: id in t.sessions ==> FromBatch(t, t.sessions[id], u) && t.sessions[id].id == id)
    && (forall o :: o in t.envelopes ==> t.envelopes[o].evidence in t.evidenceObjects)
    && t.places == RowPlaces(t.facts)
  }

  ghost function RowPlaces(facts: map<string, FactRow>): set<Place> {
    set id | id in facts && facts[id].place.Some? :: facts[id].place.value
  }

  ghost predicate FromBatch(t: Tables, s: Session, u: set<Batch>) { exists b :: b in u && b.id in t.batches && s in b.collections }

  lemma PrepareKeepsSources(t: Tables, b: Batch, u: set<Batch>)
    requires b in u && Sources(t, u) && Prepare(t, b).Some?
    ensures Sources(Prepare(t, b).value, u)
  {
    var p := Prepare(t, b).value;
    PrepareEffect(t, b);
    forall id | id in p.sessions ensures FromBatch(p, p.sessions[id], u) && p.sessions[id].id == id {
      if id in t.sessions {
        var c :| c in u && c.id in t.batches && t.sessions[id] in c.collections;
        assert c.id in p.batches && p.sessions[id] in c.collections;
      } else {
        assert p.sessions[id] in b.collections && SessionKey(p.sessions[id]) == id && b.id in p.batches;
      }
    }
  }

  lemma CommitKeepsSources(t: Tables, b: Batch, u: set<Batch>)
    requires Sources(t, u) && Commits(t, CommitTx(b))
    ensures Sources(Commit(t, b).value, u)
  {
    var c := Commit(t, b).value;
    CommitEffect(t, b);
    InsertAllIsUnion(t.envelopes, b.evidence, EnvelopeKey);
    forall id | id in c.sessions ensures FromBatch(c, c.sessions[id], u) {
      assert FromBatch(t, t.sessions[id], u);
    }
    forall o | o in c.envelopes ensures c.envelopes[o].evidence in c.evidenceObjects {
      if o !in t.envelopes { assert c.envelopes[o] in b.evidence; }
    }
    PlacesGrow(t.facts, b.facts, c.facts);
  }

  lemma PlacesGrow(before: map<string, FactRow>, facts: seq<Fact>, after: map<string, FactRow>)
    requires InsertAll(before, FactRows(facts), FactKey) == Some(after)
    ensures RowPlaces(after) == RowPlaces(before) + Places(facts)
  {
    InsertAllIsUnion(before, FactRows(facts), FactKey);
    forall p ensures p in RowPlaces(after) <==> p in RowPlaces(before) + Places(facts) {
      if p in RowPlaces(after) {
        var id :| id in after && after[id].place == Some(p);
        if id !in before {
          var i :| 0 <= i < |facts| && FactRows(facts)[i] == after[id];
          assert facts[i] in facts;
        }
      }
      if p in Places(facts) {
        var f :| f in facts && f.row.place == Some(p);
        RowOf(facts, f);
        assert FactKey(f.row) in after;
      }
    }
  }

  lemma RowOf(facts: seq<Fact>, f: Fact)
    requires f in facts
    ensures f.row in FactRows(facts)
  {
    var i :| 0 <= i < |facts| && facts[i] == f;
    assert FactRows(facts)[i] == f.row;
  }

  lemma {:induction false} SourcesHold(events: seq<Event>, u: set<Batch>)
    requires From(events, u)
    ensures Sources(Execute(events), u)
  {
    if events != [] {
      var front, e := events[..|events| - 1], events[|events| - 1];
      assert e in events;
      SourcesHold(front, u);
      var t := Execute(front);
      if Commits(t, e) {
        CommitKeepsSources(t, e.batch, u);
      } else if e.PrepareTx? && Prepare(t, e.batch).Some? {
        PrepareKeepsSources(t, e.batch, u);
      } else {
        assert Next(t, e) == t;
      }
    }
  }

  // ----- When a call succeeds -----

  /** A batch that was prepared and never committed. */
  ghost predicate Pending(t: Tables, p: Batch, u: set<Batch>) { p in u && p.id in t.batches && t.batches[p.id] == Prepared }

  /** No session has the same ID in both and another content. */
  ghost predicate Agree(b: Batch, p: Batch) {
    forall r, s :: r in b.collections && s in p.collections && r.id == s.id ==> r == s
  }

  ghost predicate AgreesWithPending(t: Tables, b: Batch, u: set<Batch>) { forall p :: Pending(t, p, u) ==> Agree(b, p) }

  ghost function EvidenceSeen(v: View): set<string> { set o | o in v.envelopes :: v.envelopes[o].evidence }

  /** Evidence the batch's facts refer to is visible or comes with the batch. */
  ghost predicate EvidenceKnown(v: View, b: Batch) { Known(EvidenceLinks(b.facts), EvidenceSeen(v) + EvidenceOf(b)) }

  /** The hierarchy above the batch's facts, evidence and checkpoints, and the parents of its evidence, are visible or come
      with the batch. */
  ghost predicate PlacesKnown(v: View, b: Batch) {
    var places, evidence := RowPlaces(v.facts) + Places(b.facts), EvidenceSeen(v) + EvidenceOf(b);
    FactsHomed(b.facts, places) && EvidenceHomed(b.evidence, places, evidence) && CheckpointsHomed(v.checkpoints, b.checkpoints, places)
  }

  ghost predicate CheckpointsHomed(m: map<int, Checkpoint>, cs: seq<Checkpoint>, places: set<Place>) {
    cs == [] ||
    (var front, last := cs[..|cs| - 1], cs[|cs| - 1];
     CheckpointsHomed(m, front, places) && (Moves(AcceptAll(m, front), last) ==> CheckpointHomed(last, places)))
  }

  /** The checkpoint is not older than the one there. */
  ghost predicate Moves(m: map<int, Checkpoint>, c: Checkpoint) {
    !(c.repository in m && WatermarkLess(c.watermark, m[c.repository].watermark))
  }

  lemma {:induction false} SameHomes(t: Tables, cs: seq<Checkpoint>, places: set<Place>)
    ensures RowsHomed(t, cs, places) <==> CheckpointsHomed(Join(t), cs, places)
  {
    if cs != [] {
      SameHomes(t, cs[..|cs| - 1], places);
      RowsJoin(t, cs[..|cs| - 1]);
    }
  }

  /** Everything a commit can trip over is visible; only sessions may be stored unseen. */
  lemma SeenIsStored(t: Tables, u: set<Batch>)
    requires OnlyCommitted(t) && Sources(t, u)
    ensures Visible(t).facts == t.facts && Visible(t).envelopes == t.envelopes && EvidenceSeen(Visible(t)) == t.evidenceObjects
  {
    VisibleIsAll(t);
    forall e ensures e in EvidenceSeen(Visible(t)) <==> e in t.evidenceObjects {
      if e in t.evidenceObjects {
        var o :| o in t.envelopes && t.envelopes[o].evidence == e;
        assert o in Visible(t).envelopes;
      }
    }
  }

  /** A batch can be prepared exactly when its sessions contradict none that readers see and none of a pending batch. */
  lemma PreparesExactly(t: Tables, b: Batch, u: set<Batch>)
    requires LinksHold(t, u) && Sources(t, u)
    ensures Prepare(t, b).Some? <==> InsertAll(Visible(t).sessions, b.collections, SessionKey).Some? && AgreesWithPending(t, b, u)
  {
    var seen := Visible(t).sessions;
    InsertAllIsUnion(t.sessions, b.collections, SessionKey);
    InsertAllIsUnion(seen, b.collections, SessionKey);
    if NoConflict(seen, b.collections, SessionKey) && AgreesWithPending(t, b, u) {
      forall r | r in b.collections && r.id in t.sessions ensures t.sessions[r.id] == r { StoredAgrees(t, b, u, r); }
    }
    if NoConflict(t.sessions, b.collections, SessionKey) {
      forall p, r, s | Pending(t, p, u) && r in b.collections && s in p.collections && r.id == s.id ensures r == s {
        assert t.sessions[s.id] == s && SessionKey(r) == s.id;
      }
      forall r | r in b.collections && SessionKey(r) in seen ensures seen[SessionKey(r)] == r {}
    }
  }

  lemma StoredAgrees(t: Tables, b: Batch, u: set<Batch>, r: Session)
    requires LinksHold(t, u) && Sources(t, u) && r in b.collections && r.id in t.sessions
    requires NoConflict(Visible(t).sessions, b.collections, SessionKey) && AgreesWithPending(t, b, u)
    ensures t.sessions[r.id] == r
  {
    var s := t.sessions[r.id];
    assert FromBatch(t, s, u);
    var c :| c in u && c.id in t.batches && s in c.collections;
    if t.batches[c.id] == Prepared {
      assert Pending(t, c, u) && Agree(b, c);
    } else {
      assert (c.id, s.id) in t.batchCollections && IsCommitted(t, c.id);
      SeenAgrees(t, b, r);
    }
  }

  lemma SeenAgrees(t: Tables, b: Batch, r: Session)
    requires r in b.collections && r.id in t.sessions && SessionVisible(t, r.id)
    requires NoConflict(Visible(t).sessions, b.collections, SessionKey)
    ensures t.sessions[r.id] == r
  {
    assert SessionKey(r) in Visible(t).sessions;
  }

  /** A prepared batch can be committed exactly when what readers see takes it. */
  lemma CommitsExactly(t: Tables, b: Batch, u: set<Batch>)
    requires OnlyCommitted(t) && Sources(t, u) && b.id in t.batches && t.batches[b.id] == Prepared
    requires InsertAll(Visible(t).sessions, b.collections, SessionKey).Some?
    ensures Commit(t, b).Some? <==> Apply(Visible(t), b).Some? && EvidenceKnown(Visible(t), b) && PlacesKnown(Visible(t), b)
  {
    SeenIsStored(t, u);
    SameHomes(t, b.checkpoints, t.places + Places(b.facts));
    assert t.evidenceObjects + EvidenceOf(b) == EvidenceSeen(Visible(t)) + EvidenceOf(b);
  }

  /** What the call needs of a batch that is not committed: readers could take it as it is, what it refers to is known, and
      no pending batch disagrees on a session. */
  ghost predicate Acceptable(t: Tables, b: Batch, u: set<Batch>) {
    Apply(Visible(t), b).Some? && EvidenceKnown(Visible(t), b) && PlacesKnown(Visible(t), b) && AgreesWithPending(t, b, u)
  }

  /** After any run a call succeeds if and only if the batch is committed already or is acceptable; and then readers see
      what they saw before with the batch applied to it, if it was not there. Prepared sessions, though no reader sees
      them, can make a later batch fail. */
  lemma AppendSucceedsExactly(events: seq<Event>, u: set<Batch>, b: Batch)
    requires Addressed(u) && From(events, u) && b in u
    ensures var t := Execute(events);
      && (Appended(t, b).0 == Done <==> b in Log(events) || Acceptable(t, b, u))
      && (Appended(t, b).0 == Done ==>
            Some(Visible(Appended(t, b).1)) == if b in Log(events) then Some(Visible(t)) else Apply(Visible(t), b))
  {
    VisibleIsReplay(events, u);
    SourcesHold(events, u);
    if b in Log(events) {
      ReappendIsNoOp(events, u, b);
    } else {
      NewBatch(Execute(events), Log(events), b, u);
    }
  }

  lemma NewBatch(t: Tables, log: seq<Batch>, b: Batch, u: set<Batch>)
    requires Addressed(u) && b in u && Inv(t, log, u) && Sources(t, u) && b !in log
    ensures Appended(t, b).0 == Done <==> Acceptable(t, b, u)
    ensures Appended(t, b).0 == Done ==> Some(Visible(Appended(t, b).1)) == Apply(Visible(t), b)
  {
    assert !IsCommitted(t, b.id) && b.collections != [];
    PreparesExactly(t, b, u);
    if Prepare(t, b).Some? {
      var p := Prepare(t, b).value;
      PrepareIsInvisible(t, log, b, u);
      PrepareKeepsSources(t, b, u);
      NewCommit(p, log, b, u);
    }
  }

  lemma NewCommit(t: Tables, log: seq<Batch>, b: Batch, u: set<Batch>)
    requires Addressed(u) && b in u && Inv(t, log, u) && Sources(t, u) && b.id in t.batches && t.batches[b.id] == Prepared
    requires InsertAll(Visible(t).sessions, b.collections, SessionKey).Some?
    ensures Commit(t, b).Some? <==> Apply(Visible(t), b).Some? && EvidenceKnown(Visible(t), b) && PlacesKnown(Visible(t), b)
    ensures Commit(t, b).Some? ==> Some(Visible(Commit(t, b).value)) == Apply(Visible(t), b)
  {
    CommitsExactly(t, b, u);
    if Commit(t, b).Some? {
      CommitKeepsInv(t, log, b, u);
      assert (log + [b])[..|log|] == log;
    }
  }

  // ----- Resuming an interrupted call -----

  lemma {:induction false} RowsAreKept(events: seq<Event>, more: seq<Event>, id: string)
    requires id in Execute(events).batches
    ensures id in Execute(events + more).batches
  {
    if more == [] {
      assert events + more == events;
    } else {
      var front := more[..|more| - 1];
      RowsAreKept(events, front, id);
      assert (events + more)[..|events + more| - 1] == events + front;
    }
  }

  /** A call interrupted after its prepare transaction is completed by calling again, whatever transactions of other
      calls and interruptions came between: nothing is left to prepare, so no pending batch can be in the way, and the
      outcome is that of applying the batch to what readers see. */
  lemma ResumeCompletes(events: seq<Event>, more: seq<Event>, u: set<Batch>, b: Batch)
    requires Addressed(u) && From(events + [PrepareTx(b)] + more, u) && b in u && Prepare(Execute(events), b).Some?
    ensures var run := events + [PrepareTx(b)] + more;
      var t := Execute(run);
      && Prepare(t, b) == Some(t)
      && (Appended(t, b).0 == Done <==>
            b in Log(run) || (Apply(Visible(t), b).Some? && EvidenceKnown(Visible(t), b) && PlacesKnown(Visible(t), b)))
      && (Appended(t, b).0 == Done ==>
            Some(Visible(Appended(t, b).1)) == if b in Log(run) then Some(Visible(t)) else Apply(Visible(t), b))
  {
    var prepared := events + [PrepareTx(b)];
    var run := prepared + more;
    assert prepared[..|prepared| - 1] == events;
    assert b.id in Execute(prepared).batches;
    RowsAreKept(prepared, more, b.id);
    VisibleIsReplay(run, u);
    SourcesHold(run, u);
    PrepareAgain(Execute(run), b, u);
    PreparesExactly(Execute(run), b, u);
    AppendSucceedsExactly(run, u, b);
  }

  /** Prepared content is invisible and yet in the way: a session that only a pending batch brought makes a later batch
      fail that would have been taken before. */
  lemma PreparedIsInTheWay(id: string, a: Session, id': string, b: Session)
    requires a.id == b.id && a != b
    ensures Appended(EMPTY, Bringing(id', b)).0 == Done
    ensures Visible(Execute([PrepareTx(Bringing(id, a))])) == Visible(EMPTY)
    ensures Appended(Execute([PrepareTx(Bringing(id, a))]), Bringing(id', b)).0 == Failed
  {
    OnlyRow(EMPTY.sessions, a, SessionKey);
    OnlyRow(EMPTY.sessions, b, SessionKey);
    FirstPrepared(id, a);
    OnlyRow(Execute([PrepareTx(Bringing(id, a))]).sessions, b, SessionKey);
    PendingIsUnseen(id, a);
  }

  function Bringing(id: string, s: Session): Batch { Batch(id, [s], [], [], [], [], []) }

  lemma OnlyRow<R>(table: map<string, R>, row: R, key: R -> string)
    ensures InsertAll(table, [row], key) == InsertOnce(table, key(row), row)
  {
    assert [row][..0] == [];
  }

  lemma FirstPrepared(id: string, s: Session)
    ensures Execute([PrepareTx(Bringing(id, s))]) == EMPTY.(sessions := map[s.id := s], batches := map[id := Prepared], batchCollections := {(id, s.id)})
  {
    OnlyRow(EMPTY.sessions, s, SessionKey);
    var e := PrepareTx(Bringing(id, s));
    assert [e][..|[e]| - 1] == [];
    assert Execute([e]) == Next(EMPTY, e);
    assert (set r | r in [s] :: (id, r.id)) == {(id, s.id)};
  }

  lemma PendingIsUnseen(id: string, s: Session)
    ensures Visible(Execute([PrepareTx(Bringing(id, s))])) == Visible(EMPTY)
  {
    FirstPrepared(id, s);
    var t := Execute([PrepareTx(Bringing(id, s))]);
    forall b ensures !IsCommitted(t, b) {}
    assert Visible(t) == Visible(EMPTY);
  }
}
