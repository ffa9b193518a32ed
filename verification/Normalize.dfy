/** Canonical batches and facts (internal/archive/normalize.go and facts.go). Checks of single
    fields are parameters (`Rules`); order, identity and cross-references are written out. */
module Normalize {
  import opened Orders
  import opened Identity
  import opened Lists

  // ----- Facts -----

  datatype Kind = RepositoryFact | RunFact | AttemptFact | JobFact | ActionOccurrence | Dependency | Coverage | CoverageGap | Exposure

  const KINDS: seq<Kind> :=
    [RepositoryFact, RunFact, AttemptFact, JobFact, ActionOccurrence, Dependency, Coverage, CoverageGap, Exposure]

  /** What a payload says: the subject and event it stands for, the evidence it cites, its one list
      (contradicted facts, runner labels or secret names), and everything else as text. */
  datatype FactPayload = FactPayload(subject: string, event: string, nested: seq<string>, list: seq<string>, body: string)

  /** A fact has an optional payload of each kind. */
  datatype Fact = Fact(id: string, kind: Kind, payloads: map<Kind, FactPayload>, subject: string, event: string, evidence: seq<string>)

  /** What a fact's identifier is computed from: everything but the identifier and the evidence. */
  datatype FactContent = FactContent(kind: Kind, payloads: map<Kind, FactPayload>, subject: string, event: string)

  datatype Hashes = Hashes(fact: FactContent -> string, batch: BatchContent -> string)

  function ContentOf(f: Fact): FactContent { FactContent(f.kind, f.payloads, f.subject, f.event) }

  function FactID(h: Hashes, f: Fact): string { "fact1:" + h.fact(ContentOf(f)) }

  function SortStrings(s: seq<string>): seq<string> { Sort(s, StringLess) }

  function TidyPayload(p: FactPayload): FactPayload { p.(list := SortStrings(p.list)) }

  function TidyPayloads(m: map<Kind, FactPayload>): map<Kind, FactPayload> {
    map k | k in m :: TidyPayload(m[k])
  }

  datatype Rules = Rules(session: string -> bool, payload: Payload -> bool, envelope: string -> bool,
                         fact: (Kind, FactPayload) -> bool, capability: string -> bool, checkpoint: string -> bool,
                         parent: Parent -> bool)

  /** The fact as normalization leaves it, valid or not. Subject and event come from the payload. */
  function TidyFact(h: Hashes, f: Fact): Fact {
    if f.kind !in f.payloads then f
    else
      var p := TidyPayload(f.payloads[f.kind]);
      var g := Fact("", f.kind, TidyPayloads(f.payloads), p.subject, p.event, SortUnique(f.evidence + p.nested));
      g.(id := if f.id == "" then FactID(h, g) else f.id)
  }

  function Tidier(h: Hashes): Fact -> Fact { f => TidyFact(h, f) }

  /** Exactly one payload, of the fact's kind and valid; evidence unless it is a gap; the right ID. */
  predicate FactOk(h: Hashes, rules: Rules, f: Fact) {
    && f.payloads.Keys == {f.kind}
    && StrictlySorted(f.payloads[f.kind].list)
    && rules.fact(f.kind, f.payloads[f.kind])
    && (f.kind == CoverageGap || f.evidence != [])
    && f.id == FactID(h, f)
  }

  predicate StrictlySorted(s: seq<string>) {
    forall i :: 0 < i < |s| ==> StringLess(s[i - 1], s[i])
  }

  function KindIndex(k: Kind): (i: nat)
    ensures i < |KINDS| && KINDS[i] == k
  {
    match k
    case RepositoryFact => 0 case RunFact => 1 case AttemptFact => 2 case JobFact => 3 case ActionOccurrence => 4
    case Dependency => 5 case Coverage => 6 case CoverageGap => 7 case Exposure => 8
  }

  /** The payloads present, kind by kind: each must be of the fact's kind and valid, and there must be one. */
  method SelectPayload(rules: Rules, kind: Kind, payloads: map<Kind, FactPayload>) returns (r: Option<FactPayload>)
    ensures r.Some? <==> payloads.Keys == {kind} && StrictlySorted(payloads[kind].list) && rules.fact(kind, payloads[kind])
    ensures r.Some? ==> r.value == payloads[kind]
  {
    r := None;
    var count := 0;
    for i := 0 to |KINDS|
      invariant forall j :: 0 <= j < i && KINDS[j] in payloads ==> KINDS[j] == kind
      invariant r.Some? <==> kind in payloads && KindIndex(kind) < i
      invariant r.Some? ==> r.value == payloads[kind] && StrictlySorted(r.value.list) && rules.fact(kind, r.value)
      invariant count == if r.Some? then 1 else 0
    {
      var k := KINDS[i];
      assert k == kind ==> i == KindIndex(kind);
      if k in payloads {
        count := count + 1;
        if k != kind || !StrictlySorted(payloads[k].list) || !rules.fact(k, payloads[k]) {
          return None;
        }
        r := Some(payloads[k]);
      }
    }
    forall k | k in payloads ensures k == kind { assert KINDS[KindIndex(k)] == k; }
    if count != 1 {
      return None;
    }
  }

  /** `normalizeFact`: tidy the lists, select the payload, and derive subject, event, evidence and ID. */
  method NormalizeFact(h: Hashes, rules: Rules, input: Fact) returns (r: Option<Fact>)
    ensures r.Some? <==> FactOk(h, rules, TidyFact(h, input))
    ensures r.Some? ==> r.value == TidyFact(h, input)
  {
    var fact := input.(payloads := TidyPayloads(input.payloads), evidence := SortUnique(input.evidence));
    var payload := SelectPayload(rules, fact.kind, fact.payloads);
    if payload.None? {
      return None;
    }
    var p := payload.value;
    SortUniqueTwice(input.evidence, p.nested);
    fact := fact.(subject := p.subject, event := p.event, evidence := SortUnique(fact.evidence + p.nested));
    if fact.kind != CoverageGap && fact.evidence == [] {
      return None;
    }
    var expected := FactID(h, fact);
    if fact.id != "" && fact.id != expected {
      return None;
    }
    r := Some(fact.(id := expected));
  }

  lemma SortUniqueTwice(a: seq<string>, b: seq<string>)
    ensures SortUnique(SortUnique(a) + b) == SortUnique(a + b)
  {
    SortUniqueIsTheSet(a);
    SortUniqueIsTheSet(SortUnique(a) + b);
    SortUniqueIsTheSet(a + b);
    AscendingUnique(SortUnique(SortUnique(a) + b), SortUnique(a + b));
  }

  // ----- Batches -----

  datatype Session = Session(id: string, repositories: seq<int>, rawRetention: bool, body: string)
  datatype Payload = Payload(sha: string, mediaType: string, bytes: string)
  datatype Envelope = Envelope(observation: string, collection: string, rawRetained: bool, retained: Option<string>, retainedPath: string,
                               sourceSha: string, mediaType: string, length: nat, body: string)
  datatype Capability = Capability(name: string, body: string)
  datatype Parent = Parent(run: int, body: string)
  datatype Checkpoint = Checkpoint(repository: int, collection: string, parents: seq<Parent>, body: string)

  datatype BatchContent = BatchContent(collections: seq<Session>, payloads: seq<Payload>, evidence: seq<Envelope>,
                                       facts: seq<Fact>, capabilities: seq<Capability>, checkpoints: seq<Checkpoint>)

  const MAX_PAYLOADS: nat := 100_000
  const MAX_FACTS: nat := 1_000_000
  const MAX_EVIDENCE: nat := 1_000_000

  function IntKey(n: int): seq<int> { [n] }
  function ParentKey(p: Parent): seq<int> { [p.run] }
  function SessionKey(s: Session): seq<int> { Codes(s.id) }
  function PayloadKey(p: Payload): seq<int> { Codes(p.sha) }
  function EnvelopeKey(e: Envelope): seq<int> { Codes(e.observation) }
  function FactKey(f: Fact): seq<int> { Codes(f.id) }
  function CapabilityKey(c: Capability): seq<int> { Codes(c.name) }
  function CheckpointKey(c: Checkpoint): seq<int> { [c.repository] }

  function TidySession(s: Session): Session { s.(repositories := Sort(s.repositories, ByKey(IntKey))) }
  function TidyCheckpoint(c: Checkpoint): Checkpoint { c.(parents := Sort(c.parents, ByKey(ParentKey))) }
  function Same<T>(x: T): T { x }

  predicate SessionOk(rules: Rules, s: Session) {
    rules.session(s.body) && forall i :: 0 < i < |s.repositories| ==> s.repositories[i - 1] < s.repositories[i]
  }

  predicate CheckpointOk(rules: Rules, c: Checkpoint) {
    && rules.checkpoint(c.body)
    && (forall i :: 0 <= i < |c.parents| ==> rules.parent(c.parents[i]))
    && (forall i :: 0 < i < |c.parents| ==> c.parents[i - 1].run < c.parents[i].run)
  }

  /** What other records look up among the sessions and payloads of their batch. */
  datatype Context = Context(known: set<string>, retaining: set<string>, payloads: set<Payload>)

  function ContextOf(sessions: seq<Session>, payloads: seq<Payload>): Context {
    Context(set s | s in sessions :: s.id, set s | s in sessions && s.rawRetention :: s.id, set p | p in payloads)
  }

  predicate RawDigest(s: string) { |s| == 64 && forall c :: c in s ==> '0' <= c <= '9' || 'a' <= c <= 'f' }

  /** `RawRelativePath` */
  function RawPath(digest: string): Option<string> { if RawDigest(digest) then Some("raw/" + digest + ".bin") else None }

  predicate EnvelopeOk(rules: Rules, c: Context, e: Envelope) {
    && rules.envelope(e.body)
    && e.collection in c.known
    && (e.rawRetained ==> e.collection in c.retaining)
    && (if !e.rawRetained then
          e.retained.Some? ==>
            exists p | p in c.payloads :: p.sha == e.retained.value && p.mediaType == e.mediaType && |p.bytes| == e.length
        else
          e.retained == Some(e.sourceSha) && RawPath(e.sourceSha) == Some(e.retainedPath) && forall p | p in c.payloads :: p.sha != e.sourceSha)
  }

  /** The whole batch with every element tidied and every array sorted. */
  function CanonicalBatch(h: Hashes, b: BatchContent): BatchContent {
    BatchContent(Canon(TidySession, SessionKey, b.collections),
                 Canon(Same, PayloadKey, b.payloads),
                 Canon(Same, EnvelopeKey, b.evidence),
                 Canon(Tidier(h), FactKey, b.facts),
                 Canon(Same, CapabilityKey, b.capabilities),
                 Canon(TidyCheckpoint, CheckpointKey, b.checkpoints))
  }

  /** When a batch is accepted: a statement about members and keys, in which no order occurs. */
  ghost predicate Acceptable(h: Hashes, rules: Rules, b: BatchContent) {
    && |b.payloads| <= MAX_PAYLOADS && |b.evidence| <= MAX_EVIDENCE && |b.facts| <= MAX_FACTS
    && Passes(b.collections, TidySession, SessionRule(rules), SessionKey)
    && Passes(b.payloads, Same, rules.payload, PayloadKey)
    && Passes(b.evidence, Same, EnvelopeRule(rules, ContextOf(b.collections, b.payloads)), EnvelopeKey)
    && Passes(b.facts, Tidier(h), FactRule(h, rules), FactKey)
    && Passes(b.capabilities, Same, CapabilityRule(rules), CapabilityKey)
    && Passes(b.checkpoints, TidyCheckpoint, CheckpointRule(rules, ContextOf(b.collections, b.payloads)), CheckpointKey)
  }

  function SessionRule(rules: Rules): Session -> bool { s => SessionOk(rules, s) }

  function FactRule(h: Hashes, rules: Rules): Fact -> bool { f => FactOk(h, rules, f) }

  function CapabilityRule(rules: Rules): Capability -> bool { (c: Capability) => rules.capability(c.body) }

  function EnvelopeRule(rules: Rules, c: Context): Envelope -> bool { e => EnvelopeOk(rules, c, e) }

  function CheckpointRule(rules: Rules, c: Context): Checkpoint -> bool {
    k => CheckpointOk(rules, k) && k.collection in c.known
  }

  function BatchID(h: Hashes, b: BatchContent): string { "batch1:" + h.batch(b) }

  /** A batch under normalization: an identifier, possibly empty, and its arrays; explicit when none of them is nil. */
  class Batch {
    const explicit: bool
    var id: string
    var content: BatchContent

    constructor (id: string, content: BatchContent, explicit: bool)
      ensures this.id == id && this.content == content && this.explicit == explicit
    {
      this.id, this.content, this.explicit := id, content, explicit;
    }

    /** `normalizeBatch`. Elements are tidied and arrays sorted in place. */
    method Normalize(h: Hashes, rules: Rules) returns (ok: bool)
      modifies this
      ensures ok <==> explicit && Acceptable(h, rules, old(content))
                      && (old(id) == "" || old(id) == BatchID(h, CanonicalBatch(h, old(content))))
      ensures ok ==> content == CanonicalBatch(h, old(content)) && id == BatchID(h, content)
    {
      if !explicit {
        return false;
      }
      if |content.payloads| > MAX_PAYLOADS || |content.evidence| > MAX_EVIDENCE || |content.facts| > MAX_FACTS {
        return false;
      }
      ContextKept(content.collections, content.payloads);
      var collections := TidyAll(content.collections, TidySession, SessionRule(rules), SessionKey);
      if collections.None? { return false; }
      content := content.(collections := collections.value);
      var payloads := TidyAll(content.payloads, Same, rules.payload, PayloadKey);
      if payloads.None? { return false; }
      content := content.(payloads := payloads.value);
      var context := ContextOf(content.collections, content.payloads);
      var evidence := TidyAll(content.evidence, Same, EnvelopeRule(rules, context), EnvelopeKey);
      if evidence.None? { return false; }
      content := content.(evidence := evidence.value);
      var facts := TidyAll(content.facts, Tidier(h), FactRule(h, rules), FactKey);
      if facts.None? { return false; }
      content := content.(facts := facts.value);
      var capabilities := TidyAll(content.capabilities, Same, CapabilityRule(rules), CapabilityKey);
      if capabilities.None? { return false; }
      content := content.(capabilities := capabilities.value);
      var checkpoints := TidyAll(content.checkpoints, TidyCheckpoint, CheckpointRule(rules, context), CheckpointKey);
      if checkpoints.None? { return false; }
      content := content.(checkpoints := checkpoints.value);
      var expected := BatchID(h, content);
      if id != "" && id != expected {
        return false;
      }
      id := expected;
      ok := true;
    }
  }

  /** Tidying a session keeps its ID and retention flag, so lookups find the same in the sorted arrays. */
  lemma ContextKept(sessions: seq<Session>, payloads: seq<Payload>)
    ensures ContextOf(Canon(TidySession, SessionKey, sessions), Canon(Same, PayloadKey, payloads))
         == ContextOf(sessions, payloads)
  {
    var tidied, c := Map(TidySession, sessions), Canon(TidySession, SessionKey, sessions);
    forall s | s in sessions ensures TidySession(s) in c {
      var i :| 0 <= i < |sessions| && sessions[i] == s;
      assert tidied[i] in tidied;
      SortMember(tidied, ByKey(SessionKey), tidied[i]);
    }
    forall t | t in c ensures exists s :: s in sessions && t == TidySession(s) {
      SortMember(tidied, ByKey(SessionKey), t);
      var i :| 0 <= i < |tidied| && tidied[i] == t;
      assert sessions[i] in sessions;
    }
    SameIds(sessions, c);
    assert Map(Same, payloads) == payloads;
    forall p ensures p in Canon(Same, PayloadKey, payloads) <==> p in payloads {
      SortMember(payloads, ByKey(PayloadKey), p);
    }
  }

  lemma SameIds(sessions: seq<Session>, c: seq<Session>)
    requires forall s :: s in sessions ==> TidySession(s) in c
    requires forall t :: t in c ==> exists s :: s in sessions && t == TidySession(s)
    ensures ContextOf(c, []) == ContextOf(sessions, [])
  {
    var a, b := ContextOf(sessions, []), ContextOf(c, []);
    forall id | id in a.known ensures id in b.known {
      var s :| s in sessions && s.id == id;
      assert TidySession(s).id == id;
    }
    forall id | id in a.retaining ensures id in b.retaining {
      var s :| s in sessions && s.rawRetention && s.id == id;
      assert TidySession(s).id == id && TidySession(s).rawRetention;
    }
    forall id | id in b.known ensures id in a.known { var t :| t in c && t.id == id; }
    forall id | id in b.retaining ensures id in a.retaining { var t :| t in c && t.rawRetention && t.id == id; }
  }
}
