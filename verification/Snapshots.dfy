/** Normalizing a snapshot: a canonical batch whose references all resolve (internal/archive/normalize.go). */
module Snapshots {
  import opened Orders
  import opened Identity
  import opened Normalize
  import opened NormalizeTheorems

  /** The references that records hold in fields the canonical batch keeps as text. */
  datatype References = References(evidenceId: Envelope -> string, parents: Envelope -> seq<string>, repository: string -> int)

  ghost predicate HasEvidence(refs: References, b: BatchContent, id: string) { exists e :: e in b.evidence && refs.evidenceId(e) == id }

  ghost predicate HasFact(b: BatchContent, id: string) { exists f :: f in b.facts && f.id == id }

  ghost predicate HasRepository(refs: References, b: BatchContent, id: int) {
    exists f :: f in b.facts && IsRepository(refs, f, id)
  }

  predicate IsRepository(refs: References, f: Fact, id: int) { f.kind == RepositoryFact && refs.repository(f.subject) == id }

  /** The facts a dependency says it contradicts. */
  function Contradicts(f: Fact): seq<string> { if Dependency in f.payloads then f.payloads[Dependency].list else [] }

  ghost predicate FactResolves(refs: References, b: BatchContent, f: Fact) {
    (forall e :: e in f.evidence ==> HasEvidence(refs, b, e)) && (forall c :: c in Contradicts(f) ==> HasFact(b, c))
  }

  ghost predicate ParentsResolve(refs: References, b: BatchContent, e: Envelope) {
    forall p :: p in refs.parents(e) ==> HasEvidence(refs, b, p)
  }

  /** Evidence of facts, contradicted facts, parents of evidence and repositories of checkpoints are all there. */
  ghost predicate SelfContained(refs: References, b: BatchContent) {
    && (forall f :: f in b.facts ==> FactResolves(refs, b, f))
    && (forall e :: e in b.evidence ==> ParentsResolve(refs, b, e))
    && (forall k :: k in b.checkpoints ==> HasRepository(refs, b, k.repository))
  }

  /** The loop that collects the evidence IDs. */
  method EvidenceIds(refs: References, b: BatchContent) returns (ids: set<string>)
    ensures forall id :: id in ids <==> HasEvidence(refs, b, id)
  {
    ids := {};
    for i := 0 to |b.evidence|
      invariant forall id :: id in ids <==> exists j :: 0 <= j < i && refs.evidenceId(b.evidence[j]) == id
    {
      ids := ids + {refs.evidenceId(b.evidence[i])};
    }
    forall id ensures id in ids <==> HasEvidence(refs, b, id) {
      if id in ids {
        var j :| 0 <= j < |b.evidence| && refs.evidenceId(b.evidence[j]) == id;
        assert b.evidence[j] in b.evidence;
      }
    }
  }

  method AllKnown(wanted: seq<string>, ids: set<string>) returns (ok: bool)
    ensures ok <==> forall id :: id in wanted ==> id in ids
  {
    for i := 0 to |wanted|
      invariant forall j :: 0 <= j < i ==> wanted[j] in ids
    {
      if wanted[i] !in ids {
        return false;
      }
    }
    return true;
  }

  /** One turn of the loop over facts. */
  method CheckFact(refs: References, b: BatchContent, ids: set<string>, f: Fact) returns (ok: bool)
    requires SortedById(b.facts) && forall id :: id in ids <==> HasEvidence(refs, b, id)
    ensures ok <==> FactResolves(refs, b, f)
  {
    ok := AllKnown(f.evidence, ids);
    if !ok {
      return;
    }
    if Dependency in f.payloads {
      var contradicted := f.payloads[Dependency].list;
      assert Contradicts(f) == contradicted;
      for i := 0 to |contradicted|
        invariant forall j :: 0 <= j < i ==> HasFact(b, contradicted[j])
      {
        var found := ContainsFactID(b.facts, contradicted[i]);
        if !found {
          assert contradicted[i] in Contradicts(f);
          return false;
        }
      }
    }
  }

  /** The loop over facts: their references, and the repositories among them. */
  method CheckFacts(refs: References, b: BatchContent, ids: set<string>) returns (ok: bool, repositories: set<int>)
    requires SortedById(b.facts) && forall id :: id in ids <==> HasEvidence(refs, b, id)
    ensures ok <==> forall f :: f in b.facts ==> FactResolves(refs, b, f)
    ensures ok ==> forall k :: k in b.checkpoints ==> (k.repository in repositories <==> HasRepository(refs, b, k.repository))
  {
    ok, repositories := true, {};
    for i := 0 to |b.facts|
      invariant ok && forall j :: 0 <= j < i ==> FactResolves(refs, b, b.facts[j])
      invariant Listed(refs, b.facts[..i], repositories)
    {
      RepositoryStep(refs, b.facts, i, repositories);
      if b.facts[i].kind == RepositoryFact {
        repositories := repositories + {refs.repository(b.facts[i].subject)};
      }
      ok := CheckFact(refs, b, ids, b.facts[i]);
      if !ok {
        assert b.facts[i] in b.facts;
        return;
      }
    }
    assert b.facts[..|b.facts|] == b.facts;
    forall k | k in b.checkpoints ensures k.repository in repositories <==> HasRepository(refs, b, k.repository) {
      ListedRepository(refs, b, repositories, k.repository);
    }
  }

  ghost predicate Listed(refs: References, facts: seq<Fact>, repositories: set<int>) {
    && (forall f :: f in facts && f.kind == RepositoryFact ==> refs.repository(f.subject) in repositories)
    && (forall id :: id in repositories ==> exists f :: f in facts && IsRepository(refs, f, id))
  }

  lemma RepositoryStep(refs: References, facts: seq<Fact>, i: nat, repositories: set<int>)
    requires i < |facts| && Listed(refs, facts[..i], repositories)
    ensures Listed(refs, facts[..i + 1],
                   if facts[i].kind == RepositoryFact then repositories + {refs.repository(facts[i].subject)} else repositories)
  {
    assert facts[..i + 1] == facts[..i] + [facts[i]];
    assert forall f :: f in facts[..i + 1] <==> f in facts[..i] || f == facts[i];
  }

  lemma ListedRepository(refs: References, b: BatchContent, repositories: set<int>, id: int)
    requires Listed(refs, b.facts, repositories)
    ensures id in repositories <==> HasRepository(refs, b, id)
  {
  }

  /** `normalizeSnapshot`, for metadata that has been checked. */
  method NormalizeSnapshot(h: Hashes, rules: Rules, refs: References, input: BatchContent, explicit: bool) returns (r: Option<BatchContent>)
    ensures r.Some? <==> explicit && Acceptable(h, rules, input) && SelfContained(refs, CanonicalBatch(h, input))
    ensures r.Some? ==> r.value == CanonicalBatch(h, input)
  {
    var batch := new Batch("", input, explicit);
    var ok := batch.Normalize(h, rules);
    if !ok {
      return None;
    }
    var b := batch.content;
    CanonicalFactsSorted(h, rules, input);
    ok := CheckReferences(refs, b);
    return if ok then Some(b) else None;
  }

  method CheckReferences(refs: References, b: BatchContent) returns (ok: bool)
    requires SortedById(b.facts)
    ensures ok <==> SelfContained(refs, b)
  {
    var ids := EvidenceIds(refs, b);
    var repositories;
    ok, repositories := CheckFacts(refs, b, ids);
    if !ok {
      return;
    }
    for i := 0 to |b.evidence|
      invariant forall j :: 0 <= j < i ==> ParentsResolve(refs, b, b.evidence[j])
    {
      ok := AllKnown(refs.parents(b.evidence[i]), ids);
      if !ok {
        assert b.evidence[i] in b.evidence;
        return;
      }
    }
    for i := 0 to |b.checkpoints|
      invariant forall j :: 0 <= j < i ==> HasRepository(refs, b, b.checkpoints[j].repository)
    {
      assert b.checkpoints[i] in b.checkpoints;
      if b.checkpoints[i].repository !in repositories {
        return false;
      }
    }
    return true;
  }

  /** When a snapshot is accepted. */
  ghost predicate SnapshotOk(h: Hashes, rules: Rules, refs: References, b: BatchContent) {
    Acceptable(h, rules, b) && SelfContained(refs, CanonicalBatch(h, b))
  }

  /** Snapshots that differ in order only are accepted together and normalize to one, and a normalized snapshot
      stays as it is. */
  lemma SnapshotIsCanonical(h: Hashes, rules: Rules, refs: References, a: BatchContent, b: BatchContent)
    requires SameBatch(a, b)
    ensures SnapshotOk(h, rules, refs, a) <==> SnapshotOk(h, rules, refs, b)
    ensures SnapshotOk(h, rules, refs, a) ==> CanonicalBatch(h, a) == CanonicalBatch(h, b)
    ensures SnapshotOk(h, rules, refs, a) ==> SnapshotOk(h, rules, refs, CanonicalBatch(h, a))
    ensures SnapshotOk(h, rules, refs, a) ==> CanonicalBatch(h, CanonicalBatch(h, a)) == CanonicalBatch(h, a)
  {
    OrderDoesNotMatter(h, rules, a, b);
    if Acceptable(h, rules, a) { NormalizedStays(h, rules, a); }
  }
}
