/** Safety of the archive over whole runs: any interleaving of prepare and commit transactions and
    interruptions, in any number, from an empty store. */
module ArchiveRuns {
  import opened Orders
  import opened Archive

  datatype Event = PrepareTx(batch: Batch) | CommitTx(batch: Batch) | Interruption

  /** A transaction that cannot complete leaves the tables as they were. */
  function Next(t: Tables, e: Event): Tables {
    match e
    case PrepareTx(b) => (match Prepare(t, b) case Some(p) => p case None => t)
    case CommitTx(b) => (match Commit(t, b) case Some(c) => c case None => t)
    case Interruption => t
  }

  /** Whether this event is the one that commits its batch. */
  predicate Commits(t: Tables, e: Event) {
    e.CommitTx? && e.batch.id in t.batches && t.batches[e.batch.id] == Prepared && Commit(t, e.batch).Some?
  }

  function Execute(events: seq<Event>): Tables {
    if events == [] then EMPTY else Next(Execute(events[..|events| - 1]), events[|events| - 1])
  }

  /** The batches committed, in commit order. */
  function Log(events: seq<Event>): seq<Batch> {
    if events == [] then []
    else
      var front, e := events[..|events| - 1], events[|events| - 1];
      Log(front) + if Commits(Execute(front), e) then [e.batch] else []
  }

  /** Batches are normalized, and a batch ID, being a hash of the content, names one batch. */
  ghost predicate Addressed(u: set<Batch>) {
    && (forall b :: b in u ==> Normalized(b))
    && (forall b, c :: b in u && c in u && b.id == c.id ==> b == c)
  }

  ghost predicate From(events: seq<Event>, u: set<Batch>) {
    forall e :: e in events && !e.Interruption? ==> e.batch in u
  }

  // ----- What readers see -----

  /** Stored source requests are returned by no reader, but what is committed must agree with them. */
  datatype View = View(
    sessions: map<string, Session>,
    payloads: map<string, Payload>,
    requests: map<string, Request>,
    envelopes: map<string, Envelope>,
    facts: map<string, FactRow>,
    factEvidence: set<(string, string)>,
    capabilities: map<string, Capability>,
    checkpoints: map<int, Checkpoint>)

  const NOTHING: View := View(map[], map[], map[], map[], map[], {}, map[], map[])

  ghost predicate IsCommitted(t: Tables, id: string) { id in t.batches && t.batches[id] == Committed }

  ghost predicate SessionVisible(t: Tables, s: string) {
    exists b :: (b, s) in t.batchCollections && IsCommitted(t, b)
  }

  ghost predicate FactVisible(t: Tables, f: string) {
    exists b :: (b, f) in t.batchFacts && IsCommitted(t, b)
  }

  /** The rows with these keys. */
  function Restrict<R>(table: map<string, R>, keys: set<string>): (r: map<string, R>)
    ensures r.Keys == table.Keys * keys && forall k :: k in r ==> r[k] == table[k]
  {
    table - (table.Keys - keys)
  }

  ghost function SessionsSeen(t: Tables): set<string> { set s | s in t.sessions && SessionVisible(t, s) }
  ghost function EnvelopesSeen(t: Tables): set<string> { set o | o in t.envelopes && SessionVisible(t, t.envelopes[o].collection) }
  ghost function FactsSeen(t: Tables): set<string> { set f | f in t.facts && FactVisible(t, f) }

  /** The readers of a snapshot join sessions, envelopes and facts with committed batches. */
  ghost function Visible(t: Tables): View {
    View(Restrict(t.sessions, SessionsSeen(t)),
         t.payloads,
         t.requests,
         Restrict(t.envelopes, EnvelopesSeen(t)),
         Restrict(t.facts, FactsSeen(t)),
         (set l | l in t.factEvidence && l.0 in t.facts && FactVisible(t, l.0)),
         t.capabilities,
         Join(t))
  }

  /** Checkpoints with their watched parents attached. */
  ghost function Join(t: Tables): map<int, Checkpoint> {
    map r | r in t.checkpoints :: Joined(t, r)
  }

  ghost function Joined(t: Tables, r: int): Checkpoint {
    if r in t.checkpoints then Checkpoint(r, t.checkpoints[r].watermark, t.checkpoints[r].body, ParentsOf(t, r))
    else Checkpoint(r, None, "", {})
  }

  ghost function ParentsOf(t: Tables, r: int): set<Parent> { set p | p in t.parents && p.0 == r :: p.1 }

  /** Accepting one checkpoint as a whole: it replaces the old one unless that would move it back. */
  ghost function Accept(m: map<int, Checkpoint>, c: Checkpoint): map<int, Checkpoint> {
    if c.repository in m && WatermarkLess(c.watermark, m[c.repository].watermark) then m else m[c.repository := c]
  }

  ghost function AcceptAll(m: map<int, Checkpoint>, cs: seq<Checkpoint>): map<int, Checkpoint> {
    if cs == [] then m else Accept(AcceptAll(m, cs[..|cs| - 1]), cs[|cs| - 1])
  }

  /** Overwriting the row, deleting the old parents and inserting the new ones replaces the whole. */
  lemma RowJoins(t: Tables, c: Checkpoint)
    ensures Join(InsertCheckpointRow(t, c)) == Accept(Join(t), c)
  {
    var t' := InsertCheckpointRow(t, c);
    if !(c.repository in t.checkpoints && WatermarkLess(c.watermark, t.checkpoints[c.repository].watermark)) {
      forall r | r in t'.checkpoints && r != c.repository ensures ParentsOf(t', r) == ParentsOf(t, r) {
        forall p ensures p in ParentsOf(t', r) <==> p in ParentsOf(t, r) {
          assert p in ParentsOf(t, r) <==> (r, p) in t.parents;
          assert p in ParentsOf(t', r) <==> (r, p) in t'.parents;
        }
      }
      forall p ensures p in ParentsOf(t', c.repository) <==> p in c.parents {
        assert p in ParentsOf(t', c.repository) <==> (c.repository, p) in t'.parents;
      }
      assert ParentsOf(t', c.repository) == c.parents;
    }
  }

  lemma {:induction false} RowsJoin(t: Tables, cs: seq<Checkpoint>)
    ensures Join(InsertCheckpointRows(t, cs)) == AcceptAll(Join(t), cs)
  {
    if cs != [] {
      RowsJoin(t, cs[..|cs| - 1]);
      RowJoins(InsertCheckpointRows(t, cs[..|cs| - 1]), cs[|cs| - 1]);
    }
  }

  /** Applying a batch at once to what readers see, without any of the two-phase bookkeeping. */
  ghost function Apply(v: View, b: Batch): Option<View> {
    var sessions := InsertAll(v.sessions, b.collections, SessionKey);
    var payloads := InsertAll(v.payloads, b.payloads, PayloadKey);
    var requests := InsertAll(v.requests, Requests(b.evidence), RequestKey);
    var envelopes := InsertAll(v.envelopes, b.evidence, EnvelopeKey);
    var facts := InsertAll(v.facts, FactRows(b.facts), FactKey);
    if sessions.None? || payloads.None? || requests.None? || envelopes.None? || facts.None? then None
    else
      Some(View(sessions.value, payloads.value, requests.value, envelopes.value, facts.value,
                v.factEvidence + EvidenceLinks(b.facts),
                InsertCapabilities(v.capabilities, b.capabilities),
                AcceptAll(v.checkpoints, b.checkpoints)))
  }

  ghost function Replay(log: seq<Batch>): Option<View> {
    if log == [] then Some(NOTHING)
    else match Replay(log[..|log| - 1])
      case None => None
      case Some(v) => Apply(v, log[|log| - 1])
  }

  // ----- The invariant -----

  /** A batch with a row has all its sessions stored and linked, and every link comes from such a batch. */
  ghost predicate LinksHold(t: Tables, u: set<Batch>) {
    && (forall b, s :: b in u && b.id in t.batches && s in b.collections ==>
          s.id in t.sessions && t.sessions[s.id] == s && (b.id, s.id) in t.batchCollections)
    && (forall l :: l in t.batchCollections ==> Sourced(l, t.batches.Keys, u))
    && (forall id :: id in t.batches ==> exists b :: b in u && b.id == id)
  }

  ghost predicate Sourced(l: (string, string), ids: set<string>, u: set<Batch>) {
    l.0 in ids && exists b, s :: IsLink(l, b, s, u)
  }

  ghost predicate IsLink(l: (string, string), b: Batch, s: Session, u: set<Batch>) {
    b in u && s in b.collections && l == (b.id, s.id)
  }

  /** Content is written only by the commit that makes it visible. */
  ghost predicate OnlyCommitted(t: Tables) {
    && (forall f :: f in t.facts ==> FactVisible(t, f))
    && (forall o :: o in t.envelopes ==> SessionVisible(t, t.envelopes[o].collection))
    && (forall l :: l in t.factEvidence ==> l.0 in t.facts && l.1 in t.evidenceObjects)
    && (forall e :: e in t.evidenceObjects ==> exists o :: o in t.envelopes && t.envelopes[o].evidence == e)
  }

  ghost predicate LogMatches(t: Tables, log: seq<Batch>, u: set<Batch>) {
    && Distinct(log)
    && (forall b :: b in log ==> b in u)
    && (forall b :: b in u ==> (IsCommitted(t, b.id) <==> b in log))
  }

  ghost predicate Inv(t: Tables, log: seq<Batch>, u: set<Batch>) {
    && LinksHold(t, u) && OnlyCommitted(t) && LogMatches(t, log, u)
    && Replay(log) == Some(Visible(t))
  }

  // ----- Preparing -----

  /** What the prepare transaction does to the tables. */
  ghost predicate IsPrepared(t: Tables, p: Tables, b: Batch) {
    && IsUnion(p.sessions, t.sessions, b.collections, SessionKey)
    && p.batches == (if b.id in t.batches then t.batches else t.batches[b.id := Prepared])
    && p.batchCollections == t.batchCollections + CollectionLinks(b)
    && p == t.(sessions := p.sessions, batches := p.batches, batchCollections := p.batchCollections)
  }

  ghost function CollectionLinks(b: Batch): set<(string, string)> { set s | s in b.collections :: (b.id, s.id) }

  lemma PrepareEffect(t: Tables, b: Batch)
    requires Prepare(t, b).Some?
    ensures IsPrepared(t, Prepare(t, b).value, b)
    ensures forall id :: IsCommitted(Prepare(t, b).value, id) <==> IsCommitted(t, id)
  {
    InsertAllIsUnion(t.sessions, b.collections, SessionKey);
  }

  lemma PrepareKeepsLinks(t: Tables, p: Tables, b: Batch, u: set<Batch>)
    requires Addressed(u) && b in u && LinksHold(t, u) && IsPrepared(t, p, b)
    ensures LinksHold(p, u)
  {
    forall c, s | c in u && c.id in p.batches && s in c.collections
      ensures s.id in p.sessions && p.sessions[s.id] == s && (c.id, s.id) in p.batchCollections
    {
      if c.id == b.id {
        assert SessionKey(s) == s.id && (b.id, s.id) in CollectionLinks(b);
      }
    }
    forall l | l in p.batchCollections ensures Sourced(l, p.batches.Keys, u) {
      if l in t.batchCollections {
        assert Sourced(l, t.batches.Keys, u);
      } else {
        var s :| s in b.collections && l == (b.id, s.id);
        assert IsLink(l, b, s, u);
      }
    }
  }

  /** Links of a batch that is not committed do not count, and a committed batch has all of its own. */
  lemma PrepareKeepsVisibility(t: Tables, p: Tables, b: Batch, u: set<Batch>)
    requires b in u && LinksHold(t, u) && IsPrepared(t, p, b)
    requires forall id :: IsCommitted(p, id) <==> IsCommitted(t, id)
    ensures forall s :: SessionVisible(p, s) <==> SessionVisible(t, s)
  {
    forall s | SessionVisible(p, s) ensures SessionVisible(t, s) {
      var id :| (id, s) in p.batchCollections && IsCommitted(p, id);
      assert IsCommitted(t, id);
      assert (id, s) in CollectionLinks(b) ==> (id, s) in t.batchCollections;
    }
    forall s | SessionVisible(t, s) ensures SessionVisible(p, s) {
      var id :| (id, s) in t.batchCollections && IsCommitted(t, id);
      assert IsCommitted(p, id) && (id, s) in p.batchCollections;
    }
  }

  lemma VisibleSessionsStored(t: Tables, u: set<Batch>)
    requires LinksHold(t, u) && Addressed(u)
    ensures forall s :: SessionVisible(t, s) ==> s in t.sessions
  {
    forall s | SessionVisible(t, s) ensures s in t.sessions {
      var id :| (id, s) in t.batchCollections && IsCommitted(t, id);
      assert Sourced((id, s), t.batches.Keys, u);
      var c, r :| IsLink((id, s), c, r, u);
    }
  }

  /** PREPARED content is invisible: preparing a batch changes nothing a reader sees. */
  lemma PrepareIsInvisible(t: Tables, log: seq<Batch>, b: Batch, u: set<Batch>)
    requires Addressed(u) && b in u && Inv(t, log, u) && Prepare(t, b).Some?
    ensures Visible(Prepare(t, b).value) == Visible(t)
    ensures Inv(Prepare(t, b).value, log, u)
  {
    var p := Prepare(t, b).value;
    PrepareEffect(t, b);
    PrepareKeepsLinks(t, p, b, u);
    PrepareKeepsVisibility(t, p, b, u);
    VisibleSessionsStored(t, u);
    FactsStayVisible(t, p);
    SameView(t, p);
    assert OnlyCommitted(p);
    assert LogMatches(p, log, u);
  }

  lemma SameView(t: Tables, p: Tables)
    requires p == t.(sessions := p.sessions, batches := p.batches, batchCollections := p.batchCollections)
    requires forall s :: s in t.sessions ==> s in p.sessions && p.sessions[s] == t.sessions[s]
    requires forall s :: SessionVisible(p, s) <==> SessionVisible(t, s)
    requires forall s :: SessionVisible(t, s) ==> s in t.sessions
    requires forall f :: FactVisible(p, f) <==> FactVisible(t, f)
    ensures Visible(p) == Visible(t)
  {
    SameJoin(p, t);
    assert SessionsSeen(p) == SessionsSeen(t);
    SameRows(p.sessions, t.sessions, SessionsSeen(t));
    assert EnvelopesSeen(p) == EnvelopesSeen(t) && FactsSeen(p) == FactsSeen(t);
    assert Visible(p).factEvidence == Visible(t).factEvidence;
  }

  lemma SameRows<R>(a: map<string, R>, b: map<string, R>, keys: set<string>)
    requires keys <= a.Keys && keys <= b.Keys && forall k :: k in keys ==> a[k] == b[k]
    ensures Restrict(a, keys) == Restrict(b, keys)
  {
  }

  lemma FactsStayVisible(t: Tables, p: Tables)
    requires p.batchFacts == t.batchFacts && forall id :: IsCommitted(p, id) <==> IsCommitted(t, id)
    ensures forall f :: FactVisible(p, f) <==> FactVisible(t, f)
  {
    forall f ensures FactVisible(p, f) <==> FactVisible(t, f) {
      if FactVisible(p, f) { var id :| (id, f) in p.batchFacts && IsCommitted(p, id); assert IsCommitted(t, id); }
      if FactVisible(t, f) { var id :| (id, f) in t.batchFacts && IsCommitted(t, id); assert IsCommitted(p, id); }
    }
  }

  // ----- Committing -----

  /** What the commit transaction does to the tables. */
  ghost predicate IsCommit(t: Tables, c: Tables, b: Batch) {
    && b.id in t.batches && c.batches == t.batches[b.id := Committed]
    && c.sessions == t.sessions && c.batchCollections == t.batchCollections
    && InsertAll(t.payloads, b.payloads, PayloadKey) == Some(c.payloads)
    && InsertAll(t.requests, Requests(b.evidence), RequestKey) == Some(c.requests)
    && InsertAll(t.envelopes, b.evidence, EnvelopeKey) == Some(c.envelopes)
    && InsertAll(t.facts, FactRows(b.facts), FactKey) == Some(c.facts)
    && c.evidenceObjects == t.evidenceObjects + EvidenceOf(b)
    && c.places == t.places + Places(b.facts)
    && FactsHomed(b.facts, c.places) && EvidenceHomed(b.evidence, c.places, c.evidenceObjects)
    && RowsHomed(t, b.checkpoints, c.places)
    && c.batchFacts == t.batchFacts + BatchFacts(b)
    && c.factEvidence == t.factEvidence + EvidenceLinks(b.facts)
    && Known(EvidenceLinks(b.facts), c.evidenceObjects)
    && c.capabilities == InsertCapabilities(t.capabilities, b.capabilities)
    && c.checkpoints == InsertCheckpointRows(t, b.checkpoints).checkpoints
    && c.parents == InsertCheckpointRows(t, b.checkpoints).parents
  }

  ghost function EvidenceOf(b: Batch): set<string> { set e | e in b.evidence :: e.evidence }

  ghost function BatchFacts(b: Batch): set<(string, string)> { set f | f in b.facts :: (b.id, f.row.id) }

  lemma CommitEffect(t: Tables, b: Batch)
    requires Commits(t, CommitTx(b))
    ensures IsCommit(t, Commit(t, b).value, b)
    ensures forall id :: IsCommitted(Commit(t, b).value, id) <==> IsCommitted(t, id) || id == b.id
  {
  }

  ghost predicate InBatch(b: Batch, s: string) { exists r :: r in b.collections && r.id == s }

  /** After a commit the sessions a reader sees are those seen before and the batch's own. */
  lemma CommitShowsSessions(t: Tables, c: Tables, b: Batch, u: set<Batch>)
    requires Addressed(u) && b in u && LinksHold(t, u) && IsCommit(t, c, b)
    requires forall id :: IsCommitted(c, id) <==> IsCommitted(t, id) || id == b.id
    ensures forall s :: SessionVisible(c, s) <==> SessionVisible(t, s) || InBatch(b, s)
  {
    forall s ensures SessionVisible(c, s) <==> SessionVisible(t, s) || InBatch(b, s) {
      if SessionVisible(c, s) {
        var id :| (id, s) in t.batchCollections && IsCommitted(c, id);
        assert Sourced((id, s), t.batches.Keys, u);
        var d, r :| IsLink((id, s), d, r, u);
        assert id == b.id ==> r in b.collections && r.id == s;
      }
      if SessionVisible(t, s) {
        var id :| (id, s) in t.batchCollections && IsCommitted(t, id);
        assert IsCommitted(c, id);
      }
      if InBatch(b, s) { assert (b.id, s) in t.batchCollections && IsCommitted(c, b.id); }
    }
  }

  lemma SessionUnion(t: Tables, c: Tables, b: Batch)
    requires c.sessions == t.sessions
    requires forall s :: s in b.collections ==> s.id in t.sessions && t.sessions[s.id] == s
    requires forall s :: SessionVisible(c, s) <==> SessionVisible(t, s) || InBatch(b, s)
    ensures InsertAll(Visible(t).sessions, b.collections, SessionKey) == Some(Visible(c).sessions)
  {
    var before, after := Visible(t).sessions, Visible(c).sessions;
    InsertAllIsUnion(before, b.collections, SessionKey);
    assert NoConflict(before, b.collections, SessionKey);
    SameUnion(InsertAll(before, b.collections, SessionKey).value, after, before, b.collections);
  }

  lemma SameUnion(m: map<string, Session>, after: map<string, Session>, before: map<string, Session>, rows: seq<Session>)
    requires IsUnion(m, before, rows, SessionKey)
    requires forall s :: s in after <==> s in before || exists r :: r in rows && r.id == s
    requires forall s :: s in before ==> s in after && after[s] == before[s]
    requires forall r :: r in rows ==> r.id in after && after[r.id] == r
    ensures m == after
  {
    forall s ensures s in m <==> s in after {
      if exists r :: r in rows && r.id == s {
        var r :| r in rows && r.id == s;
        assert SessionKey(r) in m;
      }
    }
    forall s | s in m ensures m[s] == after[s] {
      if s !in before { assert m[s] in rows && SessionKey(m[s]) == s; }
    }
  }

  lemma CommitKeepsLinks(t: Tables, c: Tables, b: Batch, u: set<Batch>)
    requires LinksHold(t, u) && IsCommit(t, c, b)
    ensures LinksHold(c, u)
  {
    assert c.batches.Keys == t.batches.Keys;
  }

  /** Everything a commit writes becomes visible with it. */
  lemma CommitShowsFacts(t: Tables, c: Tables, b: Batch)
    requires OnlyCommitted(t) && IsCommit(t, c, b)
    requires forall id :: IsCommitted(c, id) <==> IsCommitted(t, id) || id == b.id
    ensures forall f :: f in c.facts ==> FactVisible(c, f)
  {
    InsertAllIsUnion(t.facts, FactRows(b.facts), FactKey);
    forall f | f in c.facts ensures FactVisible(c, f) {
      if f in t.facts {
        var id :| (id, f) in t.batchFacts && IsCommitted(t, id);
        assert (id, f) in c.batchFacts && IsCommitted(c, id);
      } else {
        var i :| 0 <= i < |b.facts| && FactRows(b.facts)[i] == c.facts[f];
        assert b.facts[i] in b.facts && b.facts[i].row.id == f;
        assert (b.id, f) in BatchFacts(b) && IsCommitted(c, b.id);
      }
    }
  }

  lemma CommitShowsEvidence(t: Tables, c: Tables, b: Batch)
    requires Normalized(b) && OnlyCommitted(t) && IsCommit(t, c, b)
    requires forall s :: SessionVisible(c, s) <==> SessionVisible(t, s) || InBatch(b, s)
    ensures forall o :: o in c.envelopes ==> SessionVisible(c, c.envelopes[o].collection)
    ensures forall e :: e in c.evidenceObjects ==> exists o :: o in c.envelopes && c.envelopes[o].evidence == e
  {
    InsertAllIsUnion(t.envelopes, b.evidence, EnvelopeKey);
    forall o | o in c.envelopes ensures SessionVisible(c, c.envelopes[o].collection) {
      if o !in t.envelopes {
        assert c.envelopes[o] in b.evidence;
        assert InBatch(b, c.envelopes[o].collection);
      }
    }
    forall e | e in c.evidenceObjects ensures exists o :: o in c.envelopes && c.envelopes[o].evidence == e {
      if e in t.evidenceObjects {
        var o :| o in t.envelopes && t.envelopes[o].evidence == e;
        assert o in c.envelopes && c.envelopes[o].evidence == e;
      } else {
        assert e in EvidenceOf(b);
        var r :| r in b.evidence && r.evidence == e;
        assert EnvelopeKey(r) in c.envelopes && c.envelopes[EnvelopeKey(r)] == r;
      }
    }
  }

  lemma CommitLinksEvidence(t: Tables, c: Tables, b: Batch)
    requires OnlyCommitted(t) && IsCommit(t, c, b)
    ensures forall l :: l in c.factEvidence ==> l.0 in c.facts && l.1 in c.evidenceObjects
  {
    InsertAllIsUnion(t.facts, FactRows(b.facts), FactKey);
    forall l | l in c.factEvidence ensures l.0 in c.facts && l.1 in c.evidenceObjects {
      if l !in t.factEvidence {
        LinkedFactsStored(b.facts, l);
        var r :| r in FactRows(b.facts) && FactKey(r) == l.0;
        assert FactKey(r) in c.facts;
      }
    }
  }

  lemma {:induction false} LinkedFactsStored(facts: seq<Fact>, l: (string, string))
    requires l in EvidenceLinks(facts)
    ensures exists r :: r in FactRows(facts) && FactKey(r) == l.0
  {
    var last := facts[|facts| - 1];
    if l in Links(last) {
      assert FactRows(facts)[|facts| - 1] == last.row;
      assert last.row in FactRows(facts) && FactKey(last.row) == l.0;
    } else {
      LinkedFactsStored(facts[..|facts| - 1], l);
      var r :| r in FactRows(facts[..|facts| - 1]) && FactKey(r) == l.0;
      var i :| 0 <= i < |facts| - 1 && FactRows(facts[..|facts| - 1])[i] == r;
      assert FactRows(facts)[i] == r;
    }
  }

  lemma CommitKeepsInv(t: Tables, log: seq<Batch>, b: Batch, u: set<Batch>)
    requires Addressed(u) && b in u && Inv(t, log, u) && Commits(t, CommitTx(b))
    ensures Inv(Commit(t, b).value, log + [b], u)
  {
    CommitEffect(t, b);
    CommittedKeepsInv(t, Commit(t, b).value, log, b, u);
  }

  lemma CommittedKeepsInv(t: Tables, c: Tables, log: seq<Batch>, b: Batch, u: set<Batch>)
    requires Addressed(u) && b in u && Inv(t, log, u) && IsCommit(t, c, b) && !IsCommitted(t, b.id)
    requires forall id :: IsCommitted(c, id) <==> IsCommitted(t, id) || id == b.id
    ensures Inv(c, log + [b], u)
  {
    CommitKeepsLinks(t, c, b, u);
    CommitShowsSessions(t, c, b, u);
    CommitKeepsContent(t, c, b);
    CommitKeepsLog(t, c, log, b, u);
    CommitReplays(t, c, log, b, u);
  }

  lemma CommitKeepsContent(t: Tables, c: Tables, b: Batch)
    requires Normalized(b) && OnlyCommitted(t) && IsCommit(t, c, b)
    requires forall id :: IsCommitted(c, id) <==> IsCommitted(t, id) || id == b.id
    requires forall s :: SessionVisible(c, s) <==> SessionVisible(t, s) || InBatch(b, s)
    ensures OnlyCommitted(c)
  {
    CommitShowsFacts(t, c, b);
    CommitShowsEvidence(t, c, b);
    CommitLinksEvidence(t, c, b);
  }

  lemma CommitReplays(t: Tables, c: Tables, log: seq<Batch>, b: Batch, u: set<Batch>)
    requires b in u && LinksHold(t, u) && OnlyCommitted(t) && OnlyCommitted(c) && IsCommit(t, c, b)
    requires forall s :: SessionVisible(c, s) <==> SessionVisible(t, s) || InBatch(b, s)
    requires Replay(log) == Some(Visible(t))
    ensures Replay(log + [b]) == Some(Visible(c))
  {
    SessionUnion(t, c, b);
    CommitApplies(t, c, b);
    assert (log + [b])[..|log|] == log;
  }

  lemma CommitApplies(t: Tables, c: Tables, b: Batch)
    requires OnlyCommitted(t) && OnlyCommitted(c) && IsCommit(t, c, b)
    requires InsertAll(Visible(t).sessions, b.collections, SessionKey) == Some(Visible(c).sessions)
    ensures Apply(Visible(t), b) == Some(Visible(c))
  {
    VisibleIsAll(t);
    VisibleIsAll(c);
    RowsJoin(t, b.checkpoints);
    SameJoin(c, InsertCheckpointRows(t, b.checkpoints));
  }

  lemma SameJoin(t: Tables, t': Tables)
    requires t.checkpoints == t'.checkpoints && t.parents == t'.parents
    ensures Join(t) == Join(t')
  {
    forall r ensures ParentsOf(t, r) == ParentsOf(t', r) {}
  }

  lemma CommitKeepsLog(t: Tables, c: Tables, log: seq<Batch>, b: Batch, u: set<Batch>)
    requires Addressed(u) && b in u && LogMatches(t, log, u) && !IsCommitted(t, b.id)
    requires forall id :: IsCommitted(c, id) <==> IsCommitted(t, id) || id == b.id
    ensures LogMatches(c, log + [b], u)
  {
    assert b !in log;
    forall d | d in u ensures IsCommitted(c, d.id) <==> d in log + [b] {
      if d.id != b.id { assert IsCommitted(c, d.id) <==> IsCommitted(t, d.id); }
    }
  }

  lemma VisibleIsAll(t: Tables)
    requires OnlyCommitted(t)
    ensures Visible(t).facts == t.facts && Visible(t).envelopes == t.envelopes && Visible(t).factEvidence == t.factEvidence
  {
  }

  /** Crash safety: after any run, what readers see is every committed batch applied exactly once, in
      commit order. */
  lemma {:induction false} VisibleIsReplay(events: seq<Event>, u: set<Batch>)
    requires Addressed(u) && From(events, u)
    ensures Inv(Execute(events), Log(events), u)
    ensures Replay(Log(events)) == Some(Visible(Execute(events))) && Distinct(Log(events))
  {
    if events == [] {
      NothingYet(u);
    } else {
      var front, e := events[..|events| - 1], events[|events| - 1];
      assert e in events;
      VisibleIsReplay(front, u);
      StepKeepsInv(Execute(front), Log(front), e, u);
    }
  }

  lemma NothingYet(u: set<Batch>)
    ensures Inv(EMPTY, [], u)
  {
    assert Visible(EMPTY) == NOTHING;
  }

  lemma StepKeepsInv(t: Tables, log: seq<Batch>, e: Event, u: set<Batch>)
    requires Addressed(u) && (!e.Interruption? ==> e.batch in u) && Inv(t, log, u)
    ensures Inv(Next(t, e), log + if Commits(t, e) then [e.batch] else [], u)
  {
    assert log + [] == log;
    if Commits(t, e) {
      CommitKeepsInv(t, log, e.batch, u);
    } else if e.PrepareTx? && Prepare(t, e.batch).Some? {
      PrepareIsInvisible(t, log, e.batch, u);
    } else {
      assert Next(t, e) == t;
    }
  }

  // ----- Retry and resume -----

  /** Appending a committed batch again changes nothing. */
  lemma ReappendIsNoOp(events: seq<Event>, u: set<Batch>, b: Batch)
    requires Addressed(u) && From(events, u) && b in u && b in Log(events)
    ensures Appended(Execute(events), b) == (Done, Execute(events))
  {
    VisibleIsReplay(events, u);
    PrepareAgain(Execute(events), b, u);
  }

  /** A batch that already has its row is prepared again without any change. */
  lemma PrepareAgain(t: Tables, b: Batch, u: set<Batch>)
    requires LinksHold(t, u) && b in u && b.id in t.batches
    ensures Prepare(t, b) == Some(t)
  {
    InsertAllPresent(t.sessions, b.collections, SessionKey);
    var links := set s | s in b.collections :: (b.id, s.id);
    assert t.batchCollections + links == t.batchCollections;
    assert t.(sessions := t.sessions, batches := t.batches, batchCollections := t.batchCollections) == t;
  }

  /** A call interrupted after its prepare transaction and made again at once ends as if it had not been interrupted. */
  lemma RetryAtOnce(events: seq<Event>, u: set<Batch>, b: Batch)
    requires Addressed(u) && From(events, u) && b in u
    requires Prepare(Execute(events), b).Some?
    ensures Appended(Prepare(Execute(events), b).value, b) == Appended(Execute(events), b)
  {
    VisibleIsReplay(events, u);
    var t := Execute(events);
    PrepareIsInvisible(t, Log(events), b, u);
    PrepareAgain(Prepare(t, b).value, b, u);
  }

  /** A completed call is one run: its prepare transaction, and its commit unless that had been done. */
  lemma AppendIsARun(events: seq<Event>, b: Batch) returns (more: seq<Event>)
    requires b.collections != []
    ensures Appended(Execute(events), b).1 == Execute(events + more)
    ensures more == [PrepareTx(b)] || more == [PrepareTx(b), CommitTx(b)]
  {
    var t := Execute(events);
    var one, two := events + [PrepareTx(b)], events + [PrepareTx(b), CommitTx(b)];
    assert one[..|one| - 1] == events && two[..|two| - 1] == one;
    more := if Prepare(t, b).None? || Prepare(t, b).value.batches[b.id] == Committed
            then [PrepareTx(b)] else [PrepareTx(b), CommitTx(b)];
  }

  // ----- Facts are never rewritten -----

  ghost predicate Grows(t: Tables, t': Tables) {
    && (forall f :: f in t.facts ==> f in t'.facts && t'.facts[f] == t.facts[f])
    && t.factEvidence <= t'.factEvidence
    && (forall o :: o in t.envelopes ==> o in t'.envelopes && t'.envelopes[o] == t.envelopes[o])
    && (forall id :: IsCommitted(t, id) ==> IsCommitted(t', id))
  }

  lemma StepGrows(t: Tables, e: Event)
    ensures Grows(t, Next(t, e))
  {
    if Commits(t, e) {
      CommitEffect(t, e.batch);
      InsertAllIsUnion(t.facts, FactRows(e.batch.facts), FactKey);
      InsertAllIsUnion(t.envelopes, e.batch.evidence, EnvelopeKey);
    } else if e.PrepareTx? && Prepare(t, e.batch).Some? {
      PrepareEffect(t, e.batch);
    } else {
      assert Next(t, e) == t;
    }
  }

  /** Whatever happens later, stored facts and envelopes keep their content, the evidence of a fact
      only grows, and no commit is undone. */
  lemma {:induction false} NeverRewritten(events: seq<Event>, more: seq<Event>)
    ensures Grows(Execute(events), Execute(events + more))
  {
    if more == [] {
      assert events + more == events;
    } else {
      var all := events + more;
      assert all[..|all| - 1] == events + more[..|more| - 1];
      NeverRewritten(events, more[..|more| - 1]);
      StepGrows(Execute(all[..|all| - 1]), all[|all| - 1]);
    }
  }

  /** The visible archive is self-contained: evidence linked to a visible fact has a visible envelope. */
  lemma EvidenceIsVisible(events: seq<Event>, u: set<Batch>, f: string, e: string)
    requires Addressed(u) && From(events, u)
    requires (f, e) in Visible(Execute(events)).factEvidence
    ensures f in Visible(Execute(events)).facts
    ensures exists o :: o in Visible(Execute(events)).envelopes && Visible(Execute(events)).envelopes[o].evidence == e
  {
    VisibleIsReplay(events, u);
    var t := Execute(events);
    VisibleIsAll(t);
    var o :| o in t.envelopes && t.envelopes[o].evidence == e;
    assert o in Visible(t).envelopes;
  }
}
