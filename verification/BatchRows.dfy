/** Accepted batches are what the archive's two transactions rely on (internal/archive/archive.go and normalize.go). */
module BatchRows {
  import opened Orders
  import opened Identity
  import opened Lists
  import opened NormalizeTheorems
  import N = Normalize
  import S = Snapshots
  import A = Archive
  import R = ArchiveRuns

  /** How records are written to their columns: texts, the references they hold, and the places of runs, attempts and jobs. */
  datatype Columns = Columns(refs: S.References, session: N.Session -> string, payload: N.Payload -> string,
                             request: N.Envelope -> A.Request, envelopeRepository: N.Envelope -> Option<int>, envelope: N.Envelope -> string,
                             factRepository: N.Fact -> Option<int>, place: N.Fact -> Option<A.Place>, fact: N.Fact -> string,
                             watermark: N.Checkpoint -> Option<int>, checkpoint: N.Checkpoint -> string)

  function SessionRow(c: Columns): N.Session -> A.Session { (s: N.Session) => A.Session(s.id, c.session(s)) }

  function PayloadRow(c: Columns): N.Payload -> A.Payload { (p: N.Payload) => A.Payload(p.sha, c.payload(p)) }

  function RowOfEnvelope(c: Columns, e: N.Envelope): A.Envelope {
    A.Envelope(e.observation, c.refs.evidenceId(e), e.collection, c.request(e), c.envelopeRepository(e), c.refs.parents(e), c.envelope(e))
  }

  function EnvelopeRow(c: Columns): N.Envelope -> A.Envelope { e => RowOfEnvelope(c, e) }

  /** A repository fact makes its row of the hierarchy, and no other fact makes one of a repository. */
  function PlaceOf(c: Columns, f: N.Fact): Option<A.Place> {
    if f.kind == N.RepositoryFact then Some(A.RepositoryPlace(c.refs.repository(f.subject)))
    else if c.place(f).Some? && !c.place(f).value.RepositoryPlace? then c.place(f)
    else None
  }

  function RowOfFact(c: Columns, f: N.Fact): A.FactRow { A.FactRow(f.id, c.factRepository(f), PlaceOf(c, f), S.Contradicts(f), c.fact(f)) }

  function FactRow(c: Columns): N.Fact -> A.Fact { f => A.Fact(RowOfFact(c, f), f.evidence) }

  function CapabilityRow(k: N.Capability): A.Capability { A.Capability(k.name, k.body) }

  function ParentsOf(k: N.Checkpoint): set<A.Parent> { set p | p in k.parents :: A.Parent(p.run, p.body) }

  function RowOfCheckpoint(c: Columns, k: N.Checkpoint): A.Checkpoint {
    A.Checkpoint(k.repository, c.watermark(k), c.checkpoint(k), ParentsOf(k))
  }

  function CheckpointRow(c: Columns): N.Checkpoint -> A.Checkpoint { k => RowOfCheckpoint(c, k) }

  /** The batch as the archive stores it, under the identifier of its content. */
  function Rows(h: N.Hashes, c: Columns, b: N.BatchContent): A.Batch {
    A.Batch(N.BatchID(h, b), Map(SessionRow(c), b.collections), Map(PayloadRow(c), b.payloads), Map(EnvelopeRow(c), b.evidence),
            Map(FactRow(c), b.facts), Map(CapabilityRow, b.capabilities), Map(CheckpointRow(c), b.checkpoints))
  }

  /** An accepted batch that is not empty meets what the transactions rely on. */
  lemma AcceptedIsNormalized(h: N.Hashes, rules: N.Rules, c: Columns, b: N.BatchContent)
    requires N.Acceptable(h, rules, b) && b.collections != []
    ensures A.Normalized(Rows(h, c, b))
  {
    var rows := Rows(h, c, b);
    var context := N.ContextOf(b.collections, b.payloads);
    forall e | e in rows.evidence ensures exists s :: s in rows.collections && s.id == e.collection {
      var i :| 0 <= i < |rows.evidence| && rows.evidence[i] == e;
      assert Map(N.Same, b.evidence)[i] == b.evidence[i];
      assert N.EnvelopeOk(rules, context, b.evidence[i]);
      var s :| s in b.collections && s.id == b.evidence[i].collection;
      var j :| 0 <= j < |b.collections| && b.collections[j] == s;
      assert rows.collections[j].id == s.id && rows.collections[j] in rows.collections;
    }
  }

  /** Batches that have been normalized and are not empty. */
  ghost predicate Accepted(h: N.Hashes, rules: N.Rules, b: N.BatchContent) {
    N.Acceptable(h, rules, b) && N.CanonicalBatch(h, b) == b && b.collections != []
  }

  ghost function Stored(h: N.Hashes, c: Columns, batches: set<N.BatchContent>): set<A.Batch> { set b | b in batches :: Rows(h, c, b) }

  /** When SHA-256 does not collide, accepted batches have one content for each identifier. */
  lemma AcceptedAreAddressed(h: N.Hashes, rules: N.Rules, c: Columns, batches: set<N.BatchContent>)
    requires Injective(h.batch)
    requires forall b :: b in batches ==> N.Acceptable(h, rules, b) && b.collections != []
    ensures R.Addressed(Stored(h, c, batches))
  {
    forall b | b in batches ensures A.Normalized(Rows(h, c, b)) { AcceptedIsNormalized(h, rules, c, b); }
    forall a, b | a in batches && b in batches && N.BatchID(h, a) == N.BatchID(h, b) ensures a == b { BatchIdentity(h, a, b); }
  }
}
