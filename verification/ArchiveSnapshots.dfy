/** What a snapshot reads back from the archive is accepted exactly when every reference resolves for a reader
    (internal/archive/snapshot.go and normalize.go). */
module ArchiveSnapshots {
  import opened Orders
  import opened Identity
  import opened Lists
  import opened NormalizeTheorems
  import opened BatchRows
  import N = Normalize
  import S = Snapshots
  import A = Archive
  import R = ArchiveRuns
  import P = ArchiveAppends
  import F = ArchiveReferences
  import C = ArchiveCheckpoints

  // ----- Reading back -----

  /** The columns tell records apart, and the evidence of a fact is kept apart. */
  ghost predicate Faithful(c: Columns) {
    && Injective(SessionRow(c)) && Injective(PayloadRow(c)) && Injective(EnvelopeRow(c)) && Injective(FactRow(c))
    && (forall f: N.Fact, es: seq<string> :: RowOfFact(c, f.(evidence := es)) == RowOfFact(c, f))
    && (forall k: N.Checkpoint, l: N.Checkpoint :: RowOfCheckpoint(c, k) == RowOfCheckpoint(c, l) ==> l == k.(parents := l.parents))
  }

  /** One record for each row of the table, in any order. */
  ghost predicate Reads<T(!new), K, V>(xs: seq<T>, row: T -> V, key: V -> K, table: map<K, V>) {
    && (forall x :: x in xs ==> key(row(x)) in table && table[key(row(x))] == row(x))
    && (forall k :: k in table ==> exists x :: x in xs && row(x) == table[k])
    && (forall i, j :: 0 <= i < j < |xs| ==> key(row(xs[i])) != key(row(xs[j])))
  }

  function FactRowOf(c: Columns): N.Fact -> A.FactRow { f => RowOfFact(c, f) }
  function CapabilityKey(k: A.Capability): string { k.name }
  function CheckpointKey(k: A.Checkpoint): int { k.repository }

  /** `readFacts` and the other readers: the records whose rows are visible, facts with their linked evidence. */
  ghost predicate ReadsBack(c: Columns, v: R.View, r: N.BatchContent) {
    && Reads(r.collections, SessionRow(c), A.SessionKey, v.sessions)
    && Reads(r.payloads, PayloadRow(c), A.PayloadKey, v.payloads)
    && Reads(r.evidence, EnvelopeRow(c), A.EnvelopeKey, v.envelopes)
    && Reads(r.facts, FactRowOf(c), A.FactKey, v.facts) && (forall f :: f in r.facts ==> HasLinked(v, f))
    && Reads(r.capabilities, CapabilityRow, CapabilityKey, v.capabilities)
    && Reads(r.checkpoints, CheckpointRow(c), CheckpointKey, v.checkpoints) && (forall k :: k in r.checkpoints ==> ParentsAscend(k))
  }

  ghost predicate HasLinked(v: R.View, f: N.Fact) { Ascending(f.evidence) && forall e :: e in f.evidence <==> (f.id, e) in v.factEvidence }

  ghost predicate ParentsAscend(k: N.Checkpoint) { forall i :: 0 < i < |k.parents| ==> k.parents[i - 1].run < k.parents[i].run }

  // ----- Every record read back was committed -----

  /** The record is in the content of a committed batch. */
  ghost predicate Committed<T(!new)>(h: N.Hashes, c: Columns, batches: set<N.BatchContent>, log: seq<A.Batch>, part: N.BatchContent -> seq<T>, x: T) {
    exists b :: b in batches && Rows(h, c, b) in log && x in part(b)
  }

  function Sessions(b: N.BatchContent): seq<N.Session> { b.collections }
  function Payloads(b: N.BatchContent): seq<N.Payload> { b.payloads }
  function Envelopes(b: N.BatchContent): seq<N.Envelope> { b.evidence }
  function Facts(b: N.BatchContent): seq<N.Fact> { b.facts }
  function Capabilities(b: N.BatchContent): seq<N.Capability> { b.capabilities }
  function Checkpoints(b: N.BatchContent): seq<N.Checkpoint> { b.checkpoints }

  lemma Unmapped<T, V>(f: T -> V, xs: seq<T>, y: V) returns (x: T)
    requires y in Map(f, xs)
    ensures x in xs && f(x) == y
  {
    var i :| 0 <= i < |xs| && Map(f, xs)[i] == y;
    x := xs[i];
  }

  lemma Mapped<T, V>(f: T -> V, xs: seq<T>, x: T)
    requires x in xs
    ensures f(x) in Map(f, xs)
  {
    var i :| 0 <= i < |xs| && xs[i] == x;
    assert Map(f, xs)[i] == f(x);
  }

  /** The batch whose rows a record's row is among, and the record there. */
  lemma Origin<T(!new), V(!new)>(h: N.Hashes, c: Columns, batches: set<N.BatchContent>, log: seq<A.Batch>, rows: A.Batch -> seq<V>,
                                 part: N.BatchContent -> seq<T>, row: T -> V, y: V) returns (x: T)
    requires F.InSome(log, rows, y) && (forall b :: b in log ==> b in Stored(h, c, batches))
    requires forall b :: b in batches ==> rows(Rows(h, c, b)) == Map(row, part(b))
    ensures Committed(h, c, batches, log, part, x) && row(x) == y
  {
    var s :| s in log && y in rows(s);
    var b :| b in batches && Rows(h, c, b) == s;
    x := Unmapped(row, part(b), y);
  }

  /** A run of accepted batches and what is read back after it. */
  ghost predicate Snapshotted(h: N.Hashes, rules: N.Rules, c: Columns, batches: set<N.BatchContent>, events: seq<R.Event>, r: N.BatchContent) {
    && Injective(h.batch) && Faithful(c) && (forall b :: b in batches ==> Accepted(h, rules, b))
    && R.From(events, Stored(h, c, batches)) && ReadsBack(c, R.Visible(R.Execute(events)), r)
  }

  /** What the log and the view have to do with the batches. */
  ghost predicate Replays(h: N.Hashes, c: Columns, batches: set<N.BatchContent>, log: seq<A.Batch>, v: R.View) {
    && R.Replay(log) == Some(v) && forall b :: b in log ==> b in Stored(h, c, batches)
  }

  lemma SnapshotReplays(h: N.Hashes, rules: N.Rules, c: Columns, batches: set<N.BatchContent>, events: seq<R.Event>, r: N.BatchContent)
    requires Snapshotted(h, rules, c, batches, events, r)
    ensures R.Addressed(Stored(h, c, batches))
    ensures Replays(h, c, batches, R.Log(events), R.Visible(R.Execute(events)))
  {
    AcceptedAreAddressed(h, rules, c, batches);
    R.VisibleIsReplay(events, Stored(h, c, batches));
  }

  lemma SessionCommitted(h: N.Hashes, c: Columns, batches: set<N.BatchContent>, log: seq<A.Batch>, v: R.View, r: N.BatchContent, s: N.Session)
    requires Replays(h, c, batches, log, v) && Faithful(c) && Reads(r.collections, SessionRow(c), A.SessionKey, v.sessions) && s in r.collections
    ensures Committed(h, c, batches, log, Sessions, s)
  {
    F.RowsOfLog(log);
    var x := Origin(h, c, batches, log, F.SessionsIn, Sessions, SessionRow(c), SessionRow(c)(s));
  }

  lemma PayloadCommitted(h: N.Hashes, c: Columns, batches: set<N.BatchContent>, log: seq<A.Batch>, v: R.View, r: N.BatchContent, p: N.Payload)
    requires Replays(h, c, batches, log, v) && Faithful(c) && Reads(r.payloads, PayloadRow(c), A.PayloadKey, v.payloads) && p in r.payloads
    ensures Committed(h, c, batches, log, Payloads, p)
  {
    F.RowsOfLog(log);
    var x := Origin(h, c, batches, log, F.PayloadsIn, Payloads, PayloadRow(c), PayloadRow(c)(p));
  }

  lemma EnvelopeCommitted(h: N.Hashes, c: Columns, batches: set<N.BatchContent>, log: seq<A.Batch>, v: R.View, r: N.BatchContent, e: N.Envelope)
    requires Replays(h, c, batches, log, v) && Faithful(c) && Reads(r.evidence, EnvelopeRow(c), A.EnvelopeKey, v.envelopes) && e in r.evidence
    ensures Committed(h, c, batches, log, Envelopes, e)
  {
    F.RowsOfLog(log);
    var x := Origin(h, c, batches, log, F.EnvelopesIn, Envelopes, EnvelopeRow(c), EnvelopeRow(c)(e));
  }

  lemma FactOrigin(h: N.Hashes, c: Columns, batches: set<N.BatchContent>, log: seq<A.Batch>, v: R.View, f: N.Fact) returns (g: N.Fact)
    requires Replays(h, c, batches, log, v) && Faithful(c) && f.id in v.facts && v.facts[f.id] == RowOfFact(c, f)
    ensures Committed(h, c, batches, log, Facts, g) && f == g.(evidence := f.evidence)
  {
    F.RowsOfLog(log);
    assert forall b :: b in batches ==> F.FactsIn(Rows(h, c, b)) == Map(FactRowOf(c), b.facts);
    g := Origin(h, c, batches, log, F.FactsIn, Facts, FactRowOf(c), RowOfFact(c, f));
    assert FactRow(c)(g.(evidence := f.evidence)) == FactRow(c)(f);
  }

  /** A fact may have gained evidence since it was committed, and has lost none. */
  lemma FactCommitted(h: N.Hashes, c: Columns, batches: set<N.BatchContent>, log: seq<A.Batch>, v: R.View, r: N.BatchContent, f: N.Fact)
    returns (g: N.Fact)
    requires Replays(h, c, batches, log, v) && Faithful(c) && Reads(r.facts, FactRowOf(c), A.FactKey, v.facts) && f in r.facts && HasLinked(v, f)
    ensures Committed(h, c, batches, log, Facts, g) && f == g.(evidence := f.evidence)
    ensures forall e :: e in g.evidence ==> e in f.evidence
  {
    assert A.FactKey(FactRowOf(c)(f)) == f.id;
    g := FactOrigin(h, c, batches, log, v, f);
    F.LinksOfLog(log);
    forall e | e in g.evidence ensures e in f.evidence { CommittedLink(h, c, batches, log, g, e); }
  }

  lemma CommittedLink(h: N.Hashes, c: Columns, batches: set<N.BatchContent>, log: seq<A.Batch>, g: N.Fact, e: string)
    requires Committed(h, c, batches, log, Facts, g) && e in g.evidence
    ensures F.LinkedIn(log, (g.id, e))
  {
    var b :| b in batches && Rows(h, c, b) in log && g in b.facts;
    Mapped(FactRow(c), b.facts, g);
    LinkOf(Rows(h, c, b).facts, FactRow(c)(g), e);
  }

  lemma {:induction false} LinkOf(facts: seq<A.Fact>, f: A.Fact, e: string)
    requires f in facts && e in f.evidence
    ensures (f.row.id, e) in A.EvidenceLinks(facts)
  {
    var front, last := facts[..|facts| - 1], facts[|facts| - 1];
    if f != last {
      assert facts == front + [last];
      LinkOf(front, f, e);
    }
  }

  function CheckpointsIn(b: A.Batch): seq<A.Checkpoint> { b.checkpoints }
  function CapabilitiesIn(b: A.Batch): seq<A.Capability> { b.capabilities }

  lemma {:induction false} CheckpointsListed(log: seq<A.Batch>)
    ensures forall k :: k in C.AllCheckpoints(log) ==> F.InSome(log, CheckpointsIn, k)
    ensures forall k :: k in C.AllCapabilities(log) ==> F.InSome(log, CapabilitiesIn, k)
  {
    if log != [] {
      var front, last := log[..|log| - 1], log[|log| - 1];
      CheckpointsListed(front);
      assert log == front + [last] && last in log;
      forall k | k in C.AllCheckpoints(log) ensures F.InSome(log, CheckpointsIn, k) { Longer(front, last, CheckpointsIn, k); }
      forall k | k in C.AllCapabilities(log) ensures F.InSome(log, CapabilitiesIn, k) { Longer(front, last, CapabilitiesIn, k); }
    }
  }

  lemma Longer<V(!new)>(front: seq<A.Batch>, last: A.Batch, rows: A.Batch -> seq<V>, y: V)
    ensures F.InSome(front, rows, y) || y in rows(last) ==> F.InSome(front + [last], rows, y)
  {
    var log := front + [last];
    if F.InSome(front, rows, y) {
      var b :| b in front && y in rows(b);
      assert b in log;
    }
    assert last in log;
  }

  lemma CapabilityCommitted(h: N.Hashes, c: Columns, batches: set<N.BatchContent>, log: seq<A.Batch>, v: R.View, r: N.BatchContent, k: N.Capability)
    requires Replays(h, c, batches, log, v) && Reads(r.capabilities, CapabilityRow, CapabilityKey, v.capabilities) && k in r.capabilities
    ensures Committed(h, c, batches, log, Capabilities, k)
  {
    C.ReplayTables(log);
    C.LastCapabilityWins(C.AllCapabilities(log), k.name);
    CheckpointsListed(log);
    var i :| C.IsLastNamed(C.AllCapabilities(log), k.name, i);
    assert CapabilityKey(CapabilityRow(k)) == k.name && C.AllCapabilities(log)[i] == CapabilityRow(k);
    var x := Origin(h, c, batches, log, CapabilitiesIn, Capabilities, CapabilityRow, CapabilityRow(k));
  }

  /** Up to the order of its watched parents. */
  lemma CheckpointCommitted(h: N.Hashes, c: Columns, batches: set<N.BatchContent>, log: seq<A.Batch>, v: R.View, r: N.BatchContent, k: N.Checkpoint)
    returns (x: N.Checkpoint)
    requires Replays(h, c, batches, log, v) && Reads(r.checkpoints, CheckpointRow(c), CheckpointKey, v.checkpoints) && k in r.checkpoints
    ensures Committed(h, c, batches, log, Checkpoints, x) && RowOfCheckpoint(c, x) == RowOfCheckpoint(c, k)
  {
    C.ReplayTables(log);
    var i := C.FoldHoldsWinner(C.AllCheckpoints(log), k.repository);
    CheckpointsListed(log);
    assert CheckpointKey(CheckpointRow(c)(k)) == k.repository && C.AllCheckpoints(log)[i] == RowOfCheckpoint(c, k);
    x := Origin(h, c, batches, log, CheckpointsIn, Checkpoints, CheckpointRow(c), RowOfCheckpoint(c, k));
  }

  // ----- Records of accepted batches are valid as they are -----

  lemma CanonMember<T(!new)>(xs: seq<T>, tidy: T -> T, ok: T -> bool, key: T -> seq<int>, x: T)
    requires Passes(xs, tidy, ok, key) && Canon(tidy, key, xs) == xs && x in xs
    requires forall y :: y in xs ==> tidy(tidy(y)) == tidy(y)
    ensures tidy(x) == x && ok(x)
  {
    SortMember(Map(tidy, xs), ByKey(key), x);
    var y := Unmapped(tidy, xs, x);
  }

  lemma SessionFits(h: N.Hashes, rules: N.Rules, b: N.BatchContent, s: N.Session)
    requires Accepted(h, rules, b) && s in b.collections
    ensures N.TidySession(s) == s && N.SessionOk(rules, s)
  {
    forall t | t in b.collections ensures N.TidySession(N.TidySession(t)) == N.TidySession(t) { TidySessionTwice(t); }
    CanonMember(b.collections, N.TidySession, N.SessionRule(rules), N.SessionKey, s);
  }

  lemma EnvelopeFits(h: N.Hashes, rules: N.Rules, b: N.BatchContent, e: N.Envelope)
    requires Accepted(h, rules, b) && e in b.evidence
    ensures N.EnvelopeOk(rules, N.ContextOf(b.collections, b.payloads), e)
  {
    assert N.EnvelopeRule(rules, N.ContextOf(b.collections, b.payloads))(N.Same(e));
  }

  lemma FactFits(h: N.Hashes, rules: N.Rules, b: N.BatchContent, f: N.Fact)
    requires Accepted(h, rules, b) && f in b.facts
    ensures N.TidyFact(h, f) == f && N.FactOk(h, rules, f)
  {
    forall g | g in b.facts ensures N.Tidier(h)(N.Tidier(h)(g)) == N.Tidier(h)(g) { TidyFactTwice(h, g); }
    CanonMember(b.facts, N.Tidier(h), N.FactRule(h, rules), N.FactKey, f);
  }

  lemma CheckpointFits(h: N.Hashes, rules: N.Rules, b: N.BatchContent, k: N.Checkpoint)
    requires Accepted(h, rules, b) && k in b.checkpoints
    ensures N.TidyCheckpoint(k) == k && N.CheckpointOk(rules, k) && k.collection in N.ContextOf(b.collections, b.payloads).known
  {
    var rule := N.CheckpointRule(rules, N.ContextOf(b.collections, b.payloads));
    forall l | l in b.checkpoints ensures N.TidyCheckpoint(N.TidyCheckpoint(l)) == N.TidyCheckpoint(l) {
      assert rule(N.TidyCheckpoint(l));
      ParentsSorted(l.parents);
      TidyCheckpointTwice(l);
    }
    CanonMember(b.checkpoints, N.TidyCheckpoint, rule, N.CheckpointKey, k);
  }

  /** A fact stays valid and tidy when it gains evidence. */
  lemma MoreEvidenceFits(h: N.Hashes, rules: N.Rules, g: N.Fact, f: N.Fact)
    requires N.TidyFact(h, g) == g && N.FactOk(h, rules, g)
    requires f == g.(evidence := f.evidence) && Ascending(f.evidence) && forall e :: e in g.evidence ==> e in f.evidence
    ensures N.TidyFact(h, f) == f && N.FactOk(h, rules, f)
  {
    var nested := N.TidyPayload(g.payloads[g.kind]).nested;
    SortUniqueIsTheSet(g.evidence + nested);
    assert g.evidence == SortUnique(g.evidence + nested);
    forall e | e in nested ensures e in g.evidence { assert e in g.evidence + nested; }
    SortUniqueIsTheSet(f.evidence + nested);
    AscendingUnique(SortUnique(f.evidence + nested), f.evidence);
    if g.evidence != [] { assert g.evidence[0] in f.evidence; }
  }

  /** Two lists of the same parents in strictly ascending order are one. */
  lemma ParentsAgree(k: N.Checkpoint, l: N.Checkpoint)
    requires ParentsAscend(k) && ParentsAscend(l) && ParentsOf(k) == ParentsOf(l)
    ensures k.parents == l.parents
  {
    forall p ensures p in k.parents <==> p in l.parents {
      assert A.Parent(p.run, p.body) in ParentsOf(k) <==> p in k.parents by { InParents(k, p); }
      assert A.Parent(p.run, p.body) in ParentsOf(l) <==> p in l.parents by { InParents(l, p); }
    }
    AscendDistinct(k.parents);
    AscendDistinct(l.parents);
    SameMembersPermute(k.parents, l.parents);
    DistinctKeysComparable(k.parents, N.ParentKey);
    SortedUnique(k.parents, l.parents, ByKey(N.ParentKey));
  }

  lemma InParents(k: N.Checkpoint, p: N.Parent)
    ensures A.Parent(p.run, p.body) in ParentsOf(k) <==> p in k.parents
  {
    if A.Parent(p.run, p.body) in ParentsOf(k) {
      var q :| q in k.parents && A.Parent(q.run, q.body) == A.Parent(p.run, p.body);
      assert q == p;
    }
  }

  lemma AscendDistinct(ps: seq<N.Parent>)
    requires forall i :: 0 < i < |ps| ==> ps[i - 1].run < ps[i].run
    ensures Distinct(ps) && Sorted(ps, ByKey(N.ParentKey)) && DistinctKeys(ps, N.ParentKey)
  {
    DistinctKeysAt(ps, N.ParentKey);
    forall i, j | 0 <= i < j < |ps| ensures ps[i] != ps[j] && N.ParentKey(ps[i]) != N.ParentKey(ps[j]) && !ByKey(N.ParentKey)(ps[j], ps[i]) {
      RunsAscend(ps, i, j);
      assert N.ParentKey(ps[i])[0] == ps[i].run && N.ParentKey(ps[j])[0] == ps[j].run;
    }
  }

  // ----- What is read back passes normalization -----

  lemma FixedPasses<T(!new)>(xs: seq<T>, tidy: T -> T, ok: T -> bool, key: T -> seq<int>)
    requires forall x :: x in xs ==> tidy(x) == x && ok(x)
    requires forall i, j :: 0 <= i < j < |xs| ==> key(xs[i]) != key(xs[j])
    ensures Passes(xs, tidy, ok, key) && forall y :: y in Canon(tidy, key, xs) <==> y in xs
  {
    forall i | 0 <= i < |xs| ensures tidy(xs[i]) == xs[i] { assert xs[i] in xs; }
    assert Map(tidy, xs) == xs;
    DistinctKeysAt(xs, key);
    SortMembers(xs, ByKey(key));
  }

  /** Text keys that differ have code points that differ. */
  lemma KeysApart<T(!new), V>(xs: seq<T>, row: T -> V, key: V -> string, codes: T -> seq<int>, table: map<string, V>)
    requires Reads(xs, row, key, table) && forall x :: x in xs ==> codes(x) == Codes(key(row(x)))
    ensures forall i, j :: 0 <= i < j < |xs| ==> codes(xs[i]) != codes(xs[j])
  {
    forall i, j | 0 <= i < j < |xs| ensures codes(xs[i]) != codes(xs[j]) {
      assert xs[i] in xs && xs[j] in xs;
      if codes(xs[i]) == codes(xs[j]) { CodesInjective(key(row(xs[i])), key(row(xs[j]))); }
    }
  }

  lemma SessionsPass(h: N.Hashes, rules: N.Rules, c: Columns, batches: set<N.BatchContent>, log: seq<A.Batch>, v: R.View, r: N.BatchContent)
    requires Replays(h, c, batches, log, v) && Faithful(c) && (forall b :: b in batches ==> Accepted(h, rules, b)) && ReadsBack(c, v, r)
    ensures Passes(r.collections, N.TidySession, N.SessionRule(rules), N.SessionKey)
  {
    forall s | s in r.collections ensures N.TidySession(s) == s && N.SessionRule(rules)(s) {
      SessionCommitted(h, c, batches, log, v, r, s);
      var b :| b in batches && Rows(h, c, b) in log && s in Sessions(b);
      SessionFits(h, rules, b, s);
    }
    KeysApart(r.collections, SessionRow(c), A.SessionKey, N.SessionKey, v.sessions);
    FixedPasses(r.collections, N.TidySession, N.SessionRule(rules), N.SessionKey);
  }

  lemma PayloadsPass(h: N.Hashes, rules: N.Rules, c: Columns, batches: set<N.BatchContent>, log: seq<A.Batch>, v: R.View, r: N.BatchContent)
    requires Replays(h, c, batches, log, v) && Faithful(c) && (forall b :: b in batches ==> Accepted(h, rules, b)) && ReadsBack(c, v, r)
    ensures Passes(r.payloads, N.Same, rules.payload, N.PayloadKey)
  {
    forall p | p in r.payloads ensures rules.payload(p) {
      PayloadCommitted(h, c, batches, log, v, r, p);
      var b :| b in batches && Rows(h, c, b) in log && p in Payloads(b);
      assert rules.payload(N.Same(p));
    }
    KeysApart(r.payloads, PayloadRow(c), A.PayloadKey, N.PayloadKey, v.payloads);
    FixedPasses(r.payloads, N.Same, rules.payload, N.PayloadKey);
  }

  lemma CapabilitiesPass(h: N.Hashes, rules: N.Rules, c: Columns, batches: set<N.BatchContent>, log: seq<A.Batch>, v: R.View, r: N.BatchContent)
    requires Replays(h, c, batches, log, v) && (forall b :: b in batches ==> Accepted(h, rules, b)) && ReadsBack(c, v, r)
    ensures Passes(r.capabilities, N.Same, N.CapabilityRule(rules), N.CapabilityKey)
  {
    forall k | k in r.capabilities ensures N.CapabilityRule(rules)(k) {
      CapabilityCommitted(h, c, batches, log, v, r, k);
      var b :| b in batches && Rows(h, c, b) in log && k in Capabilities(b);
      assert N.CapabilityRule(rules)(N.Same(k));
    }
    KeysApart(r.capabilities, CapabilityRow, CapabilityKey, N.CapabilityKey, v.capabilities);
    FixedPasses(r.capabilities, N.Same, N.CapabilityRule(rules), N.CapabilityKey);
  }

  lemma FactRead(h: N.Hashes, rules: N.Rules, c: Columns, batches: set<N.BatchContent>, log: seq<A.Batch>, v: R.View, r: N.BatchContent, f: N.Fact)
    requires Replays(h, c, batches, log, v) && Faithful(c) && (forall b :: b in batches ==> Accepted(h, rules, b)) && ReadsBack(c, v, r)
    requires f in r.facts
    ensures N.TidyFact(h, f) == f && N.FactOk(h, rules, f)
  {
    var g := FactCommitted(h, c, batches, log, v, r, f);
    var b :| b in batches && Rows(h, c, b) in log && g in Facts(b);
    FactFits(h, rules, b, g);
    MoreEvidenceFits(h, rules, g, f);
  }

  lemma FactsPass(h: N.Hashes, rules: N.Rules, c: Columns, batches: set<N.BatchContent>, log: seq<A.Batch>, v: R.View, r: N.BatchContent)
    requires Replays(h, c, batches, log, v) && Faithful(c) && (forall b :: b in batches ==> Accepted(h, rules, b)) && ReadsBack(c, v, r)
    ensures Passes(r.facts, N.Tidier(h), N.FactRule(h, rules), N.FactKey)
    ensures forall f :: f in Canon(N.Tidier(h), N.FactKey, r.facts) <==> f in r.facts
  {
    forall f | f in r.facts ensures N.Tidier(h)(f) == f && N.FactRule(h, rules)(f) { FactRead(h, rules, c, batches, log, v, r, f); }
    KeysApart(r.facts, FactRowOf(c), A.FactKey, N.FactKey, v.facts);
    FixedPasses(r.facts, N.Tidier(h), N.FactRule(h, rules), N.FactKey);
  }

  /** What a committed batch's records look up is in what is read back. */
  ghost predicate Includes(big: N.Context, small: N.Context) {
    small.known <= big.known && small.retaining <= big.retaining && small.payloads <= big.payloads
  }

  lemma SessionIsRead(h: N.Hashes, c: Columns, batches: set<N.BatchContent>, log: seq<A.Batch>, v: R.View, r: N.BatchContent, b: N.BatchContent, s: N.Session)
    requires Replays(h, c, batches, log, v) && Faithful(c) && Reads(r.collections, SessionRow(c), A.SessionKey, v.sessions)
    requires b in batches && Rows(h, c, b) in log && s in b.collections
    ensures s in r.collections
  {
    F.RowsOfLog(log);
    Mapped(SessionRow(c), b.collections, s);
    assert F.InSome(log, F.SessionsIn, SessionRow(c)(s));
    var x :| x in r.collections && SessionRow(c)(x) == v.sessions[A.SessionKey(SessionRow(c)(s))];
  }

  lemma PayloadIsRead(h: N.Hashes, c: Columns, batches: set<N.BatchContent>, log: seq<A.Batch>, v: R.View, r: N.BatchContent, b: N.BatchContent, p: N.Payload)
    requires Replays(h, c, batches, log, v) && Faithful(c) && Reads(r.payloads, PayloadRow(c), A.PayloadKey, v.payloads)
    requires b in batches && Rows(h, c, b) in log && p in b.payloads
    ensures p in r.payloads
  {
    F.RowsOfLog(log);
    Mapped(PayloadRow(c), b.payloads, p);
    assert F.InSome(log, F.PayloadsIn, PayloadRow(c)(p));
    var x :| x in r.payloads && PayloadRow(c)(x) == v.payloads[A.PayloadKey(PayloadRow(c)(p))];
  }

  lemma ContextIncludes(h: N.Hashes, c: Columns, batches: set<N.BatchContent>, log: seq<A.Batch>, v: R.View, r: N.BatchContent, b: N.BatchContent)
    requires Replays(h, c, batches, log, v) && Faithful(c) && ReadsBack(c, v, r) && b in batches && Rows(h, c, b) in log
    ensures Includes(N.ContextOf(r.collections, r.payloads), N.ContextOf(b.collections, b.payloads))
  {
    forall s | s in b.collections ensures s in r.collections { SessionIsRead(h, c, batches, log, v, r, b, s); }
    forall p | p in b.payloads ensures p in r.payloads { PayloadIsRead(h, c, batches, log, v, r, b, p); }
  }

  /** No payload is kept both whole and as raw evidence. */
  ghost predicate RawApart(r: N.BatchContent) {
    forall e, p :: e in r.evidence && p in r.payloads && e.rawRetained ==> p.sha != e.sourceSha
  }

  ghost predicate WithinLimits(r: N.BatchContent) {
    |r.payloads| <= N.MAX_PAYLOADS && |r.evidence| <= N.MAX_EVIDENCE && |r.facts| <= N.MAX_FACTS
  }

  lemma InLargerContext(rules: N.Rules, small: N.Context, big: N.Context, e: N.Envelope)
    requires Includes(big, small) && N.EnvelopeOk(rules, small, e)
    ensures N.EnvelopeOk(rules, big, e) <==> (e.rawRetained ==> forall p :: p in big.payloads ==> p.sha != e.sourceSha)
  {
  }

  lemma EnvelopeRead(h: N.Hashes, rules: N.Rules, c: Columns, batches: set<N.BatchContent>, log: seq<A.Batch>, v: R.View, r: N.BatchContent, e: N.Envelope)
    requires Replays(h, c, batches, log, v) && Faithful(c) && (forall b :: b in batches ==> Accepted(h, rules, b)) && ReadsBack(c, v, r)
    requires e in r.evidence
    ensures N.EnvelopeOk(rules, N.ContextOf(r.collections, r.payloads), e) <==> (e.rawRetained ==> forall p :: p in r.payloads ==> p.sha != e.sourceSha)
  {
    EnvelopeCommitted(h, c, batches, log, v, r, e);
    var b :| b in batches && Rows(h, c, b) in log && e in Envelopes(b);
    EnvelopeFits(h, rules, b, e);
    ContextIncludes(h, c, batches, log, v, r, b);
    InLargerContext(rules, N.ContextOf(b.collections, b.payloads), N.ContextOf(r.collections, r.payloads), e);
  }

  lemma EnvelopesPass(h: N.Hashes, rules: N.Rules, c: Columns, batches: set<N.BatchContent>, log: seq<A.Batch>, v: R.View, r: N.BatchContent)
    requires Replays(h, c, batches, log, v) && Faithful(c) && (forall b :: b in batches ==> Accepted(h, rules, b)) && ReadsBack(c, v, r)
    ensures Passes(r.evidence, N.Same, N.EnvelopeRule(rules, N.ContextOf(r.collections, r.payloads)), N.EnvelopeKey) <==> RawApart(r)
  {
    var rule := N.EnvelopeRule(rules, N.ContextOf(r.collections, r.payloads));
    forall e | e in r.evidence ensures rule(e) <==> (e.rawRetained ==> forall p :: p in r.payloads ==> p.sha != e.sourceSha) {
      EnvelopeRead(h, rules, c, batches, log, v, r, e);
    }
    if RawApart(r) {
      KeysApart(r.evidence, EnvelopeRow(c), A.EnvelopeKey, N.EnvelopeKey, v.envelopes);
      FixedPasses(r.evidence, N.Same, rule, N.EnvelopeKey);
    }
    if Passes(r.evidence, N.Same, rule, N.EnvelopeKey) {
      forall e | e in r.evidence ensures rule(e) { assert rule(N.Same(e)); }
    }
  }

  lemma CheckpointRead(h: N.Hashes, rules: N.Rules, c: Columns, batches: set<N.BatchContent>, log: seq<A.Batch>, v: R.View, r: N.BatchContent, k: N.Checkpoint)
    requires Replays(h, c, batches, log, v) && Faithful(c) && (forall b :: b in batches ==> Accepted(h, rules, b)) && ReadsBack(c, v, r)
    requires k in r.checkpoints
    ensures N.TidyCheckpoint(k) == k && N.CheckpointRule(rules, N.ContextOf(r.collections, r.payloads))(k)
  {
    var x := CheckpointCommitted(h, c, batches, log, v, r, k);
    var b :| b in batches && Rows(h, c, b) in log && x in Checkpoints(b);
    CheckpointFits(h, rules, b, x);
    ParentsAgree(k, x);
    assert k == x;
    ContextIncludes(h, c, batches, log, v, r, b);
  }

  lemma CheckpointsPass(h: N.Hashes, rules: N.Rules, c: Columns, batches: set<N.BatchContent>, log: seq<A.Batch>, v: R.View, r: N.BatchContent)
    requires Replays(h, c, batches, log, v) && Faithful(c) && (forall b :: b in batches ==> Accepted(h, rules, b)) && ReadsBack(c, v, r)
    ensures Passes(r.checkpoints, N.TidyCheckpoint, N.CheckpointRule(rules, N.ContextOf(r.collections, r.payloads)), N.CheckpointKey)
    ensures forall k :: k in Canon(N.TidyCheckpoint, N.CheckpointKey, r.checkpoints) <==> k in r.checkpoints
  {
    var rule := N.CheckpointRule(rules, N.ContextOf(r.collections, r.payloads));
    forall k | k in r.checkpoints ensures N.TidyCheckpoint(k) == k && rule(k) { CheckpointRead(h, rules, c, batches, log, v, r, k); }
    forall i, j | 0 <= i < j < |r.checkpoints| ensures N.CheckpointKey(r.checkpoints[i]) != N.CheckpointKey(r.checkpoints[j]) {
      assert CheckpointKey(CheckpointRow(c)(r.checkpoints[i])) != CheckpointKey(CheckpointRow(c)(r.checkpoints[j]));
      assert N.CheckpointKey(r.checkpoints[i])[0] == r.checkpoints[i].repository && N.CheckpointKey(r.checkpoints[j])[0] == r.checkpoints[j].repository;
    }
    FixedPasses(r.checkpoints, N.TidyCheckpoint, rule, N.CheckpointKey);
  }

  /** What is read back is a batch that normalization accepts, if there is not too much of it and no payload is kept twice. */
  lemma ReadBackIsAcceptable(h: N.Hashes, rules: N.Rules, c: Columns, batches: set<N.BatchContent>, log: seq<A.Batch>, v: R.View, r: N.BatchContent)
    requires Replays(h, c, batches, log, v) && Faithful(c) && (forall b :: b in batches ==> Accepted(h, rules, b)) && ReadsBack(c, v, r)
    ensures N.Acceptable(h, rules, r) <==> WithinLimits(r) && RawApart(r)
  {
    SessionsPass(h, rules, c, batches, log, v, r);
    PayloadsPass(h, rules, c, batches, log, v, r);
    EnvelopesPass(h, rules, c, batches, log, v, r);
    FactsPass(h, rules, c, batches, log, v, r);
    CapabilitiesPass(h, rules, c, batches, log, v, r);
    CheckpointsPass(h, rules, c, batches, log, v, r);
  }

  // ----- References of what is read back -----

  lemma SameEvidence(c: Columns, v: R.View, r: N.BatchContent, id: string)
    requires Reads(r.evidence, EnvelopeRow(c), A.EnvelopeKey, v.envelopes)
    ensures S.HasEvidence(c.refs, r, id) <==> F.HasEvidence(v, id)
  {
    if S.HasEvidence(c.refs, r, id) {
      var e :| e in r.evidence && c.refs.evidenceId(e) == id;
      assert v.envelopes[A.EnvelopeKey(EnvelopeRow(c)(e))].evidence == id;
    }
    if F.HasEvidence(v, id) {
      var o :| o in v.envelopes && v.envelopes[o].evidence == id;
      var e :| e in r.evidence && EnvelopeRow(c)(e) == v.envelopes[o];
      assert c.refs.evidenceId(e) == id;
    }
  }

  lemma SameFacts(c: Columns, v: R.View, r: N.BatchContent, id: string)
    requires Reads(r.facts, FactRowOf(c), A.FactKey, v.facts) && forall k :: k in v.facts ==> v.facts[k].id == k
    ensures S.HasFact(r, id) <==> id in v.facts
  {
    if S.HasFact(r, id) {
      var f :| f in r.facts && f.id == id;
      assert A.FactKey(FactRowOf(c)(f)) in v.facts;
    }
    if id in v.facts {
      var f :| f in r.facts && FactRowOf(c)(f) == v.facts[id];
      assert f.id == id;
    }
  }

  lemma PlaceDecides(c: Columns, f: N.Fact, id: int)
    ensures RowOfFact(c, f).place == Some(A.RepositoryPlace(id)) <==> S.IsRepository(c.refs, f, id)
  {
  }

  lemma SameRepositories(c: Columns, v: R.View, r: N.BatchContent, id: int)
    requires Reads(r.facts, FactRowOf(c), A.FactKey, v.facts)
    ensures S.HasRepository(c.refs, r, id) <==> F.HasRepository(v, id)
  {
    forall f ensures RowOfFact(c, f).place == Some(A.RepositoryPlace(id)) <==> S.IsRepository(c.refs, f, id) { PlaceDecides(c, f, id); }
    if S.HasRepository(c.refs, r, id) {
      var f :| f in r.facts && S.IsRepository(c.refs, f, id);
      assert v.facts[A.FactKey(FactRowOf(c)(f))].place == Some(A.RepositoryPlace(id));
    }
    if F.HasRepository(v, id) {
      var k :| k in v.facts && v.facts[k].place == Some(A.RepositoryPlace(id));
      var f :| f in r.facts && FactRowOf(c)(f) == v.facts[k];
      assert S.IsRepository(c.refs, f, id);
    }
  }

  lemma FactsResolveTogether(c: Columns, v: R.View, r: N.BatchContent)
    requires ReadsBack(c, v, r) && (forall k :: k in v.facts ==> v.facts[k].id == k) && forall l :: l in v.factEvidence ==> l.0 in v.facts
    ensures (forall f :: f in r.facts ==> S.FactResolves(c.refs, r, f)) <==> F.EvidenceResolves(v) && F.ContradictionsResolve(v)
  {
    forall id ensures S.HasEvidence(c.refs, r, id) <==> F.HasEvidence(v, id) { SameEvidence(c, v, r, id); }
    forall id ensures S.HasFact(r, id) <==> id in v.facts { SameFacts(c, v, r, id); }
    if forall f :: f in r.facts ==> S.FactResolves(c.refs, r, f) {
      forall l | l in v.factEvidence ensures F.HasEvidence(v, l.1) {
        var f :| f in r.facts && FactRowOf(c)(f) == v.facts[l.0];
        assert l == (f.id, l.1) && S.FactResolves(c.refs, r, f) && l.1 in f.evidence;
      }
      forall k, x | k in v.facts && x in v.facts[k].contradicts ensures x in v.facts {
        var f :| f in r.facts && FactRowOf(c)(f) == v.facts[k];
        assert S.FactResolves(c.refs, r, f) && x in S.Contradicts(f);
      }
    }
    if F.EvidenceResolves(v) && F.ContradictionsResolve(v) {
      forall f | f in r.facts ensures S.FactResolves(c.refs, r, f) {
        var k := A.FactKey(FactRowOf(c)(f));
        assert v.facts[k] == RowOfFact(c, f);
        forall e | e in f.evidence ensures F.HasEvidence(v, e) { assert (f.id, e) in v.factEvidence; }
      }
    }
  }

  lemma OthersResolveTogether(c: Columns, v: R.View, r: N.BatchContent)
    requires ReadsBack(c, v, r) && forall k :: k in v.checkpoints ==> v.checkpoints[k].repository == k
    ensures (forall e :: e in r.evidence ==> S.ParentsResolve(c.refs, r, e)) <==> F.ParentsResolve(v)
    ensures (forall k :: k in r.checkpoints ==> S.HasRepository(c.refs, r, k.repository)) <==> F.CheckpointsResolve(v)
  {
    forall id ensures S.HasEvidence(c.refs, r, id) <==> F.HasEvidence(v, id) { SameEvidence(c, v, r, id); }
    forall id ensures S.HasRepository(c.refs, r, id) <==> F.HasRepository(v, id) { SameRepositories(c, v, r, id); }
    ParentsTogether(c, v, r);
    CheckpointsTogether(c, v, r);
  }

  lemma ParentsTogether(c: Columns, v: R.View, r: N.BatchContent)
    requires ReadsBack(c, v, r) && forall id :: S.HasEvidence(c.refs, r, id) <==> F.HasEvidence(v, id)
    ensures (forall e :: e in r.evidence ==> S.ParentsResolve(c.refs, r, e)) <==> F.ParentsResolve(v)
  {
    if forall e :: e in r.evidence ==> S.ParentsResolve(c.refs, r, e) {
      forall o, p | o in v.envelopes && p in v.envelopes[o].parents ensures F.HasEvidence(v, p) {
        var e :| e in r.evidence && EnvelopeRow(c)(e) == v.envelopes[o];
        assert S.ParentsResolve(c.refs, r, e) && p in c.refs.parents(e);
      }
    }
    if F.ParentsResolve(v) {
      forall e, p | e in r.evidence && p in c.refs.parents(e) ensures S.HasEvidence(c.refs, r, p) {
        assert p in v.envelopes[A.EnvelopeKey(EnvelopeRow(c)(e))].parents;
      }
    }
  }

  lemma CheckpointsTogether(c: Columns, v: R.View, r: N.BatchContent)
    requires ReadsBack(c, v, r) && forall id :: S.HasRepository(c.refs, r, id) <==> F.HasRepository(v, id)
    requires forall k :: k in v.checkpoints ==> v.checkpoints[k].repository == k
    ensures (forall k :: k in r.checkpoints ==> S.HasRepository(c.refs, r, k.repository)) <==> F.CheckpointsResolve(v)
  {
    if forall k :: k in r.checkpoints ==> S.HasRepository(c.refs, r, k.repository) {
      forall n | n in v.checkpoints ensures F.HasRepository(v, n) {
        var k :| k in r.checkpoints && CheckpointRow(c)(k) == v.checkpoints[n];
        assert k.repository == n;
      }
    }
    if F.CheckpointsResolve(v) {
      forall k | k in r.checkpoints ensures S.HasRepository(c.refs, r, k.repository) { assert CheckpointKey(CheckpointRow(c)(k)) in v.checkpoints; }
    }
  }

  /** The two ways of saying that references resolve agree: on what readers see, and on what is read back. */
  lemma SelfContainedTogether(c: Columns, v: R.View, r: N.BatchContent)
    requires ReadsBack(c, v, r) && (forall k :: k in v.facts ==> v.facts[k].id == k) && (forall l :: l in v.factEvidence ==> l.0 in v.facts)
    requires forall k :: k in v.checkpoints ==> v.checkpoints[k].repository == k
    ensures S.SelfContained(c.refs, r) <==> F.SelfContained(v)
  {
    FactsResolveTogether(c, v, r);
    OthersResolveTogether(c, v, r);
  }

  /** The order of records does not matter to their references. */
  lemma MembersDecide(refs: S.References, a: N.BatchContent, b: N.BatchContent)
    requires (forall f :: f in a.facts <==> f in b.facts) && (forall e :: e in a.evidence <==> e in b.evidence)
    requires forall k :: k in a.checkpoints <==> k in b.checkpoints
    ensures S.SelfContained(refs, a) <==> S.SelfContained(refs, b)
  {
    forall id ensures S.HasEvidence(refs, a, id) <==> S.HasEvidence(refs, b, id) {}
    forall id ensures S.HasFact(a, id) <==> S.HasFact(b, id) {}
    forall id ensures S.HasRepository(refs, a, id) <==> S.HasRepository(refs, b, id) {}
    forall f ensures S.FactResolves(refs, a, f) <==> S.FactResolves(refs, b, f) {}
    forall e ensures S.ParentsResolve(refs, a, e) <==> S.ParentsResolve(refs, b, e) {}
  }

  lemma CanonicalMembers(h: N.Hashes, rules: N.Rules, c: Columns, batches: set<N.BatchContent>, log: seq<A.Batch>, v: R.View, r: N.BatchContent)
    requires Replays(h, c, batches, log, v) && Faithful(c) && (forall b :: b in batches ==> Accepted(h, rules, b)) && ReadsBack(c, v, r)
    ensures S.SelfContained(c.refs, N.CanonicalBatch(h, r)) <==> S.SelfContained(c.refs, r)
  {
    FactsPass(h, rules, c, batches, log, v, r);
    CheckpointsPass(h, rules, c, batches, log, v, r);
    assert Map(N.Same, r.evidence) == r.evidence;
    SortMembers(r.evidence, ByKey(N.EnvelopeKey));
    MembersDecide(c.refs, N.CanonicalBatch(h, r), r);
  }

  /** After any run of accepted batches, what a snapshot reads back is accepted if and only if what readers see is
      self-contained, there is not more of it than a batch may hold, and no payload is kept both whole and as raw evidence. */
  lemma SnapshotAcceptedExactly(h: N.Hashes, rules: N.Rules, c: Columns, batches: set<N.BatchContent>, events: seq<R.Event>, r: N.BatchContent)
    requires Snapshotted(h, rules, c, batches, events, r)
    ensures S.SnapshotOk(h, rules, c.refs, r) <==> F.SelfContained(R.Visible(R.Execute(events))) && WithinLimits(r) && RawApart(r)
  {
    var log, v := R.Log(events), R.Visible(R.Execute(events));
    SnapshotReplays(h, rules, c, batches, events, r);
    F.RowsOfLog(log);
    forall k | k in v.facts ensures v.facts[k].id == k { assert A.FactKey(v.facts[k]) == k; }
    ReadBackIsAcceptable(h, rules, c, batches, log, v, r);
    CanonicalMembers(h, rules, c, batches, log, v, r);
    SelfContainedTogether(c, v, r);
  }
}
