/** Appending a batch to the archive in two transactions (internal/archive/archive.go and
    persist.go), and what its readers see (internal/archive/snapshot.go). A transaction is one
    atomic step on the tables; a process may stop between any two. Columns that are only stored
    and compared are carried as text. */
module Archive {
  import opened Orders

  // ----- Rows and batches -----

  datatype Session = Session(id: string, body: string)
  datatype Payload = Payload(sha: string, body: string)
  /** A source request: its session, route, parameters and times are compared. */
  datatype Request = Request(id: string, body: string)
  /** Evidence of some repository, perhaps, and the evidence it was derived from. */
  datatype Envelope = Envelope(observation: string, evidence: string, collection: string, request: Request, repository: Option<int>,
                               parents: seq<string>, body: string)
  /** Rows of the hierarchy tables, each of which hangs below another. */
  datatype Place =
    | RepositoryPlace(repository: int)
    | RunPlace(repository: int, run: int)
    | AttemptPlace(repository: int, run: int, attempt: int)
    | JobPlace(repository: int, run: int, attempt: int, job: int)

  /** A stored fact: its supporting evidence is kept apart and is no part of its identity. A repository, run, attempt or
      job fact also makes a row of the hierarchy. */
  datatype FactRow = FactRow(id: string, repository: Option<int>, place: Option<Place>, contradicts: seq<string>, body: string)
  datatype Fact = Fact(row: FactRow, evidence: seq<string>)
  datatype Capability = Capability(name: string, body: string)
  datatype Parent = Parent(run: int, body: string)
  datatype Checkpoint = Checkpoint(repository: int, watermark: Option<int>, body: string, parents: set<Parent>)
  /** The stored row; watched parents are rows of their own. */
  datatype CheckpointRow = CheckpointRow(watermark: Option<int>, body: string)

  datatype Batch = Batch(id: string, collections: seq<Session>, payloads: seq<Payload>, evidence: seq<Envelope>,
                         facts: seq<Fact>, capabilities: seq<Capability>, checkpoints: seq<Checkpoint>)

  datatype State = Prepared | Committed

  datatype Tables = Tables(
    sessions: map<string, Session>,
    batches: map<string, State>,
    batchCollections: set<(string, string)>,
    payloads: map<string, Payload>,
    requests: map<string, Request>,
    places: set<Place>,
    evidenceObjects: set<string>,
    envelopes: map<string, Envelope>,
    facts: map<string, FactRow>,
    batchFacts: set<(string, string)>,
    factEvidence: set<(string, string)>,
    capabilities: map<string, Capability>,
    checkpoints: map<int, CheckpointRow>,
    parents: set<(int, Parent)>)

  const EMPTY: Tables := Tables(map[], map[], {}, map[], map[], {}, {}, map[], map[], {}, {}, map[], map[], {})

  /** What normalization guarantees of a batch and the archive relies on. */
  ghost predicate Normalized(b: Batch) {
    && b.collections != []
    && (forall e :: e in b.evidence ==> exists s :: s in b.collections && s.id == e.collection)
  }

  // ----- Insert once, verify after -----

  /** INSERT ... ON CONFLICT DO NOTHING, then a read-back that must agree. */
  function InsertOnce<R(==)>(table: map<string, R>, key: string, row: R): Option<map<string, R>> {
    if key !in table then Some(table[key := row])
    else if table[key] == row then Some(table)
    else None
  }

  function InsertAll<R(==)>(table: map<string, R>, rows: seq<R>, key: R -> string): Option<map<string, R>> {
    if rows == [] then Some(table)
    else match InsertAll(table, rows[..|rows| - 1], key)
      case None => None
      case Some(t) => InsertOnce(t, key(rows[|rows| - 1]), rows[|rows| - 1])
  }

  /** Insertion succeeds exactly when no row contradicts the table or another row; the result then
      holds the old rows unchanged and the new ones, and nothing else. */
  lemma {:induction false} InsertAllIsUnion<R(!new)>(table: map<string, R>, rows: seq<R>, key: R -> string)
    ensures InsertAll(table, rows, key).Some? <==> NoConflict(table, rows, key)
    ensures InsertAll(table, rows, key).Some? ==> IsUnion(InsertAll(table, rows, key).value, table, rows, key)
  {
    if rows != [] {
      var front, last := rows[..|rows| - 1], rows[|rows| - 1];
      assert rows == front + [last];
      InsertAllIsUnion(table, front, key);
      assert last in rows;
      if NoConflict(table, front, key) {
        var t := InsertAll(table, front, key).value;
        assert key(last) in t && t[key(last)] != last ==> !NoConflict(table, rows, key);
      }
    }
  }

  ghost predicate NoConflict<R(!new)>(table: map<string, R>, rows: seq<R>, key: R -> string) {
    && (forall r :: r in rows && key(r) in table ==> table[key(r)] == r)
    && (forall r, s :: r in rows && s in rows && key(r) == key(s) ==> r == s)
  }

  ghost predicate IsUnion<R(!new)>(t: map<string, R>, table: map<string, R>, rows: seq<R>, key: R -> string) {
    && (forall k :: k in table ==> k in t && t[k] == table[k])
    && (forall r :: r in rows ==> key(r) in t && t[key(r)] == r)
    && (forall k :: k in t ==> k in table || (t[k] in rows && key(t[k]) == k))
  }

  /** Rows that are all present already change nothing. */
  lemma InsertAllPresent<R(!new)>(table: map<string, R>, rows: seq<R>, key: R -> string)
    requires forall r :: r in rows ==> key(r) in table && table[key(r)] == r
    ensures InsertAll(table, rows, key) == Some(table)
  {
    InsertAllIsUnion(table, rows, key);
    var t := InsertAll(table, rows, key).value;
    assert t == table;
  }

  function SessionKey(s: Session): string { s.id }
  function PayloadKey(p: Payload): string { p.sha }
  function RequestKey(r: Request): string { r.id }
  function EnvelopeKey(e: Envelope): string { e.observation }
  function FactKey(f: FactRow): string { f.id }

  function FactRows(facts: seq<Fact>): seq<FactRow> {
    seq(|facts|, i requires 0 <= i < |facts| => facts[i].row)
  }

  function Requests(evidence: seq<Envelope>): seq<Request> {
    seq(|evidence|, i requires 0 <= i < |evidence| => evidence[i].request)
  }

  // ----- Checkpoints and capabilities -----

  /** An absent watermark comes before every other. */
  predicate WatermarkLess(a: Option<int>, b: Option<int>) {
    b.Some? && (a.None? || a.value < b.value)
  }

  /** `insertCheckpoint`: unless that would move the watermark back, overwrite the row, delete the
      repository's watched parents and insert the new ones. */
  function InsertCheckpointRow(t: Tables, c: Checkpoint): Tables {
    if !Advances(t, c) then t
    else t.(checkpoints := t.checkpoints[c.repository := CheckpointRow(c.watermark, c.body)],
            parents := (set p | p in t.parents && p.0 != c.repository) + set p | p in c.parents :: (c.repository, p))
  }

  predicate Advances(t: Tables, c: Checkpoint) {
    !(c.repository in t.checkpoints && WatermarkLess(c.watermark, t.checkpoints[c.repository].watermark))
  }

  /** In instants: the stored row stays exactly when it has a watermark and the new one has none or an earlier one. */
  lemma RowStaysExactly(t: Tables, c: Checkpoint)
    ensures var s := InsertCheckpointRow(t, c);
      if c.repository in t.checkpoints && t.checkpoints[c.repository].watermark.Some?
         && !(c.watermark.Some? && t.checkpoints[c.repository].watermark.value <= c.watermark.value)
      then s == t
      else s.checkpoints == t.checkpoints[c.repository := CheckpointRow(c.watermark, c.body)]
           && forall p :: p in s.parents <==> if p.0 == c.repository then p.1 in c.parents else p in t.parents
  {
  }

  function InsertCheckpointRows(t: Tables, cs: seq<Checkpoint>): Tables {
    if cs == [] then t
    else InsertCheckpointRow(InsertCheckpointRows(t, cs[..|cs| - 1]), cs[|cs| - 1])
  }

  /** `insertCapability`: the last writer wins. */
  function InsertCapabilities(table: map<string, Capability>, cs: seq<Capability>): map<string, Capability> {
    if cs == [] then table
    else InsertCapabilities(table, cs[..|cs| - 1])[cs[|cs| - 1].name := cs[|cs| - 1]]
  }

  // ----- The two transactions -----

  /** The prepare transaction; None when it is rolled back. */
  function Prepare(t: Tables, b: Batch): Option<Tables> {
    match InsertAll(t.sessions, b.collections, SessionKey)
    case None => None
    case Some(sessions) =>
      Some(t.(sessions := sessions,
              batches := if b.id in t.batches then t.batches else t.batches[b.id := Prepared],
              batchCollections := t.batchCollections + set s | s in b.collections :: (b.id, s.id)))
  }

  function EvidenceLinks(facts: seq<Fact>): set<(string, string)> {
    if facts == [] then {}
    else EvidenceLinks(facts[..|facts| - 1]) + Links(facts[|facts| - 1])
  }

  function Links(f: Fact): set<(string, string)> { set e | e in f.evidence :: (f.row.id, e) }

  predicate Known(links: set<(string, string)>, evidence: set<string>) {
    forall l | l in links :: l.1 in evidence
  }

  // ----- Foreign keys -----

  function Above(p: Place): Option<Place> {
    match p
    case RepositoryPlace(_) => None
    case RunPlace(repository, _) => Some(RepositoryPlace(repository))
    case AttemptPlace(repository, run, _) => Some(RunPlace(repository, run))
    case JobPlace(repository, run, attempt, _) => Some(AttemptPlace(repository, run, attempt))
  }

  function Places(facts: seq<Fact>): set<Place> { set f | f in facts && f.row.place.Some? :: f.row.place.value }

  predicate RepositoryKnown(repository: Option<int>, places: set<Place>) {
    repository.Some? ==> RepositoryPlace(repository.value) in places
  }

  predicate AboveKnown(f: FactRow, places: set<Place>) {
    f.place.Some? && Above(f.place.value).Some? ==> Above(f.place.value).value in places
  }

  predicate EnvelopeHomed(e: Envelope, places: set<Place>, evidence: set<string>) {
    RepositoryKnown(e.repository, places) && forall p :: p in e.parents ==> p in evidence
  }

  predicate CheckpointHomed(c: Checkpoint, places: set<Place>) {
    RepositoryPlace(c.repository) in places && forall p | p in c.parents :: RunPlace(c.repository, p.run) in places
  }

  /** What the checkpoints refer to is there, for each that is not skipped. */
  predicate RowsHomed(t: Tables, cs: seq<Checkpoint>, places: set<Place>) {
    cs == [] ||
    (var front, last := cs[..|cs| - 1], cs[|cs| - 1];
     RowsHomed(t, front, places) && (Advances(InsertCheckpointRows(t, front), last) ==> CheckpointHomed(last, places)))
  }

  predicate RepositoriesKnown(facts: seq<Fact>, places: set<Place>) {
    forall f :: f in facts ==> RepositoryKnown(f.row.repository, places)
  }

  predicate FactsHomed(facts: seq<Fact>, places: set<Place>) {
    && (forall f :: f in facts ==> AboveKnown(f.row, places))
    && RepositoriesKnown(facts, places)
  }

  predicate EvidenceHomed(evidence: seq<Envelope>, places: set<Place>, known: set<string>) {
    forall e :: e in evidence ==> EnvelopeHomed(e, places, known)
  }

  /** The commit transaction. Rows it refers to must exist by then: evidence of facts, parents of evidence, and the
      hierarchy above facts, evidence and checkpoints (foreign keys). */
  function Commit(t: Tables, b: Batch): Option<Tables> {
    if b.id !in t.batches then None
    else if t.batches[b.id] == Committed then Some(t)
    else
      var payloads := InsertAll(t.payloads, b.payloads, PayloadKey);
      var requests := InsertAll(t.requests, Requests(b.evidence), RequestKey);
      var envelopes := InsertAll(t.envelopes, b.evidence, EnvelopeKey);
      var facts := InsertAll(t.facts, FactRows(b.facts), FactKey);
      var evidence := t.evidenceObjects + set e | e in b.evidence :: e.evidence;
      var links := EvidenceLinks(b.facts);
      var places := t.places + Places(b.facts);
      if payloads.None? || requests.None? || envelopes.None? || facts.None? || !Known(links, evidence)
         || !FactsHomed(b.facts, places) || !EvidenceHomed(b.evidence, places, evidence) || !RowsHomed(t, b.checkpoints, places) then None
      else
        Some(t.(payloads := payloads.value,
                requests := requests.value,
                places := places,
                evidenceObjects := evidence,
                envelopes := envelopes.value,
                facts := facts.value,
                batchFacts := t.batchFacts + set f | f in b.facts :: (b.id, f.row.id),
                factEvidence := t.factEvidence + links,
                capabilities := InsertCapabilities(t.capabilities, b.capabilities),
                checkpoints := InsertCheckpointRows(t, b.checkpoints).checkpoints,
                parents := InsertCheckpointRows(t, b.checkpoints).parents,
                batches := t.batches[b.id := Committed]))
  }

  // ----- The store -----

  datatype AppendResult = Done | Failed

  class Store {
    var db: Tables
    const readOnly: bool

    constructor (readOnly: bool)
      ensures db == EMPTY && this.readOnly == readOnly
    {
      db := EMPTY;
      this.readOnly := readOnly;
    }

    /** `prepareBatch`; None is an error, after which the tables are as before. */
    method PrepareBatch(b: Batch) returns (state: Option<State>)
      requires b.collections != []
      modifies this
      ensures Prepare(old(db), b).None? ==> state.None? && db == old(db)
      ensures Prepare(old(db), b).Some? ==> db == Prepare(old(db), b).value && state == Some(db.batches[b.id])
    {
      var tx := db;
      for i := 0 to |b.collections|
        invariant db == old(db)
        invariant InsertAll(db.sessions, b.collections[..i], SessionKey) == Some(tx.sessions)
        invariant tx == db.(sessions := tx.sessions)
      {
        assert b.collections[..i + 1][..i] == b.collections[..i];
        var inserted := InsertOnce(tx.sessions, SessionKey(b.collections[i]), b.collections[i]);
        if inserted.None? {
          FailsEarly(db.sessions, b.collections, SessionKey, i + 1);
          return None;
        }
        tx := tx.(sessions := inserted.value);
      }
      assert b.collections[..|b.collections|] == b.collections;
      if b.id !in tx.batches {
        tx := tx.(batches := tx.batches[b.id := Prepared]);
      }
      var links := set s | s in b.collections :: (b.id, s.id);
      tx := tx.(batchCollections := tx.batchCollections + links);
      db := tx;
      state := Some(tx.batches[b.id]);
    }

    /** `commitBatch` */
    method CommitBatch(b: Batch) returns (ok: bool)
      modifies this
      ensures ok <==> Commit(old(db), b).Some?
      ensures db == if ok then Commit(old(db), b).value else old(db)
    {
      var tx := db;
      if b.id !in tx.batches {
        return false;
      }
      if tx.batches[b.id] == Committed {
        return true;
      }
      var places := InsertHierarchy(tx.places, b.facts);
      if places.None? { return false; }
      tx := tx.(places := places.value);
      var payloads := InsertRows(tx.payloads, b.payloads, PayloadKey);
      if payloads.None? { return false; }
      var requests := InsertRows(tx.requests, Requests(b.evidence), RequestKey);
      if requests.None? { return false; }
      var envelopes := InsertRows(tx.envelopes, b.evidence, EnvelopeKey);
      if envelopes.None? { return false; }
      tx := tx.(payloads := payloads.value, requests := requests.value, envelopes := envelopes.value,
                evidenceObjects := tx.evidenceObjects + set e | e in b.evidence :: e.evidence);
      if !EvidenceHomed(b.evidence, tx.places, tx.evidenceObjects) { return false; }
      var facts, links := InsertFacts(tx, b.facts);
      if facts.None? { return false; }
      tx := tx.(facts := facts.value, factEvidence := tx.factEvidence + links,
                batchFacts := tx.batchFacts + set f | f in b.facts :: (b.id, f.row.id));
      var capabilities := WriteCapabilities(tx.capabilities, b.capabilities);
      SameCheckpoints(db, tx, b.checkpoints, tx.places);
      var written := WriteCheckpoints(tx, b.checkpoints);
      if written.None? { return false; }
      tx := tx.(capabilities := capabilities, checkpoints := written.value.checkpoints, parents := written.value.parents);
      tx := tx.(batches := tx.batches[b.id := Committed]);
      db := tx;
      ok := true;
    }

    /** `append`, once the batch is normalized and its raw payloads are known to be present. */
    method Append(b: Batch) returns (r: AppendResult)
      modifies this
      ensures readOnly ==> r == Failed && db == old(db)
      ensures !readOnly ==> (r, db) == Appended(old(db), b)
    {
      if readOnly {
        return Failed;
      }
      if b.collections == [] {
        if |b.payloads| + |b.evidence| + |b.facts| + |b.capabilities| + |b.checkpoints| == 0 {
          return Done;
        }
        return Failed;
      }
      var state := PrepareBatch(b);
      if state.None? {
        return Failed;
      }
      if state.value == Committed {
        return Done;
      }
      var ok := CommitBatch(b);
      r := if ok then Done else Failed;
    }
  }

  /** The whole call: one prepare transaction, then, if need be, one commit transaction. */
  function Appended(t: Tables, b: Batch): (AppendResult, Tables) {
    if b.collections == [] then
      (if b.payloads == [] && b.evidence == [] && b.facts == [] && b.capabilities == [] && b.checkpoints == []
       then Done else Failed, t)
    else match Prepare(t, b)
      case None => (Failed, t)
      case Some(p) =>
        if p.batches[b.id] == Committed then (Done, p)
        else match Commit(p, b)
          case None => (Failed, p)
          case Some(c) => (Done, c)
  }

  lemma {:induction false} FailsEarly<R>(table: map<string, R>, rows: seq<R>, key: R -> string, n: nat)
    requires n <= |rows| && InsertAll(table, rows[..n], key).None?
    ensures InsertAll(table, rows, key).None?
    decreases |rows| - n
  {
    if n < |rows| {
      assert rows[..n + 1][..n] == rows[..n];
      FailsEarly(table, rows, key, n + 1);
    } else {
      assert rows[..n] == rows;
    }
  }

  /** The `insertCapability` loop: a row replaces the one of its name. */
  method WriteCapabilities(table: map<string, Capability>, rows: seq<Capability>) returns (r: map<string, Capability>)
    ensures r == InsertCapabilities(table, rows)
  {
    r := table;
    for i := 0 to |rows|
      invariant r == InsertCapabilities(table, rows[..i])
    {
      assert rows[..i + 1][..i] == rows[..i];
      r := r[rows[i].name := rows[i]];
    }
    assert rows[..|rows|] == rows;
  }

  /** The `insertCheckpoint` loop. */
  method WriteCheckpoints(t: Tables, rows: seq<Checkpoint>) returns (r: Option<Tables>)
    ensures r.Some? <==> RowsHomed(t, rows, t.places)
    ensures r.Some? ==> r.value == InsertCheckpointRows(t, rows)
  {
    r := Some(t);
    for i := 0 to |rows|
      invariant r == Some(InsertCheckpointRows(t, rows[..i])) && RowsHomed(t, rows[..i], t.places)
    {
      assert rows[..i + 1][..i] == rows[..i];
      r := WriteCheckpoint(r.value, rows[i], t.places);
      if r.None? {
        HomelessEarly(t, rows, i + 1);
        return;
      }
    }
    assert rows[..|rows|] == rows;
  }

  /** `insertCheckpoint`: a checkpoint not older than the stored one replaces it and its watched parents. */
  method WriteCheckpoint(t: Tables, c: Checkpoint, places: set<Place>) returns (r: Option<Tables>)
    ensures r.Some? <==> (Advances(t, c) ==> CheckpointHomed(c, places))
    ensures r.Some? ==> r.value == InsertCheckpointRow(t, c)
  {
    var advance := c.repository !in t.checkpoints || !WatermarkLess(c.watermark, t.checkpoints[c.repository].watermark);
    if !advance {
      return Some(t);
    }
    if !CheckpointHomed(c, places) {
      return None;
    }
    var kept := set p | p in t.parents && p.0 != c.repository;
    r := Some(t.(checkpoints := t.checkpoints[c.repository := CheckpointRow(c.watermark, c.body)],
                 parents := kept + set p | p in c.parents :: (c.repository, p)));
  }

  lemma {:induction false} HomelessEarly(t: Tables, rows: seq<Checkpoint>, n: nat)
    requires n <= |rows| && !RowsHomed(t, rows[..n], t.places)
    ensures !RowsHomed(t, rows, t.places)
    decreases |rows| - n
  {
    if n < |rows| {
      assert rows[..n + 1][..n] == rows[..n];
      HomelessEarly(t, rows, n + 1);
    } else {
      assert rows[..n] == rows;
    }
  }

  /** Checkpoints depend on nothing but checkpoints. */
  lemma {:induction false} SameCheckpoints(t: Tables, u: Tables, cs: seq<Checkpoint>, places: set<Place>)
    requires t.checkpoints == u.checkpoints && t.parents == u.parents
    ensures InsertCheckpointRows(t, cs).checkpoints == InsertCheckpointRows(u, cs).checkpoints
    ensures InsertCheckpointRows(t, cs).parents == InsertCheckpointRows(u, cs).parents
    ensures RowsHomed(t, cs, places) == RowsHomed(u, cs, places)
  {
    if cs != [] { SameCheckpoints(t, u, cs[..|cs| - 1], places); }
  }

  function Level(p: Place): nat {
    match p case RepositoryPlace(_) => 0 case RunPlace(_, _) => 1 case AttemptPlace(_, _, _) => 2 case JobPlace(_, _, _, _) => 3
  }

  /** Rows of the first levels of the hierarchy. */
  function PlacesBelow(facts: seq<Fact>, level: nat): set<Place> {
    set f | f in facts && f.row.place.Some? && Level(f.row.place.value) < level :: f.row.place.value
  }

  ghost predicate AbovesKnown(facts: seq<Fact>, level: nat, places: set<Place>) {
    forall f :: f in facts && f.row.place.Some? && Level(f.row.place.value) < level ==> AboveKnown(f.row, places)
  }

  /** `insertHierarchyFacts`: one loop for each level, from the repositories down. */
  method InsertHierarchy(places: set<Place>, facts: seq<Fact>) returns (r: Option<set<Place>>)
    ensures r.Some? <==> forall f :: f in facts ==> AboveKnown(f.row, places + Places(facts))
    ensures r.Some? ==> r.value == places + Places(facts)
  {
    r := Some(places);
    assert places + PlacesBelow(facts, 0) == places;
    for level := 0 to 4
      invariant r == Some(places + PlacesBelow(facts, level)) && AbovesKnown(facts, level, places + Places(facts))
    {
      r := InsertLevel(places, facts, level);
      if r.None? {
        return;
      }
    }
    assert PlacesBelow(facts, 4) == Places(facts);
  }

  method InsertLevel(places: set<Place>, facts: seq<Fact>, level: nat) returns (r: Option<set<Place>>)
    requires AbovesKnown(facts, level, places + Places(facts))
    ensures r.Some? <==> AbovesKnown(facts, level + 1, places + Places(facts))
    ensures r.Some? ==> r.value == places + PlacesBelow(facts, level + 1)
  {
    var now := places + PlacesBelow(facts, level);
    for i := 0 to |facts|
      invariant now == places + PlacesBelow(facts, level) + set f | f in facts[..i] && IsAt(f, level) :: f.row.place.value
      invariant forall f :: f in facts[..i] && IsAt(f, level) ==> AboveKnown(f.row, places + Places(facts))
    {
      assert facts[..i + 1] == facts[..i] + [facts[i]];
      if IsAt(facts[i], level) {
        var above := Above(facts[i].row.place.value);
        AboveIsBelow(places, facts, level, facts[i], now);
        if above.Some? && above.value !in now {
          return None;
        }
        now := now + {facts[i].row.place.value};
      }
    }
    assert facts[..|facts|] == facts;
    r := Some(now);
  }

  predicate IsAt(f: Fact, level: nat) { f.row.place.Some? && Level(f.row.place.value) == level }

  /** What a row hangs below is of the level before, so it is known by now or never. */
  lemma AboveIsBelow(places: set<Place>, facts: seq<Fact>, level: nat, f: Fact, now: set<Place>)
    requires IsAt(f, level) && f in facts && places + PlacesBelow(facts, level) <= now <= places + Places(facts)
    ensures Above(f.row.place.value).Some? ==>
      (Above(f.row.place.value).value in now <==> Above(f.row.place.value).value in places + Places(facts))
  {
  }

  /** The loop over rows that must be new or identical. */
  method InsertRows<R(==)>(table: map<string, R>, rows: seq<R>, key: R -> string) returns (r: Option<map<string, R>>)
    ensures r == InsertAll(table, rows, key)
  {
    r := Some(table);
    for i := 0 to |rows|
      invariant r.Some? && r == InsertAll(table, rows[..i], key)
    {
      assert rows[..i + 1][..i] == rows[..i];
      r := InsertOnce(r.value, key(rows[i]), rows[i]);
      if r.None? {
        FailsEarly(table, rows, key, i + 1);
        return;
      }
    }
    assert rows[..|rows|] == rows;
  }

  /** The `insertFact` loop: store the row once, then link its evidence. */
  method InsertFacts(tx: Tables, facts: seq<Fact>) returns (r: Option<map<string, FactRow>>, links: set<(string, string)>)
    ensures r.Some? <==>
              && InsertAll(tx.facts, FactRows(facts), FactKey).Some?
              && Known(EvidenceLinks(facts), tx.evidenceObjects)
              && RepositoriesKnown(facts, tx.places)
    ensures r.Some? ==> r == InsertAll(tx.facts, FactRows(facts), FactKey) && links == EvidenceLinks(facts)
  {
    r, links := Some(tx.facts), {};
    for i := 0 to |facts|
      invariant r.Some? && r == InsertAll(tx.facts, FactRows(facts[..i]), FactKey)
      invariant links == EvidenceLinks(facts[..i]) && Known(links, tx.evidenceObjects)
      invariant RepositoriesKnown(facts[..i], tx.places)
    {
      FactRowsPrefix(facts, i);
      assert facts[..i + 1][..i] == facts[..i];
      OneMoreRepository(facts, i, tx.places);
      if !RepositoryKnown(facts[i].row.repository, tx.places) {
        return None, {};
      }
      r := InsertOnce(r.value, facts[i].row.id, facts[i].row);
      if r.None? {
        FailsEarly(tx.facts, FactRows(facts), FactKey, i + 1);
        return;
      }
      if !Known(Links(facts[i]), tx.evidenceObjects) {
        LinksKept(facts, i + 1);
        assert Links(facts[i]) <= EvidenceLinks(facts);
        return None, {};
      }
      links := links + Links(facts[i]);
    }
    assert facts[..|facts|] == facts;
  }

  lemma OneMoreRepository(facts: seq<Fact>, i: nat, places: set<Place>)
    requires i < |facts|
    ensures RepositoriesKnown(facts[..i + 1], places) <==> RepositoriesKnown(facts[..i], places) && RepositoryKnown(facts[i].row.repository, places)
    ensures !RepositoryKnown(facts[i].row.repository, places) ==> !RepositoriesKnown(facts, places)
  {
    assert facts[..i + 1] == facts[..i] + [facts[i]];
    assert facts[i] in facts;
  }

  lemma FactRowsPrefix(facts: seq<Fact>, i: nat)
    requires i < |facts|
    ensures FactRows(facts[..i + 1]) == FactRows(facts)[..i + 1]
    ensures FactRows(facts[..i + 1])[..i] == FactRows(facts[..i])
  {
    assert forall j :: 0 <= j <= i ==> FactRows(facts[..i + 1])[j] == FactRows(facts)[j];
    assert forall j :: 0 <= j < i ==> FactRows(facts[..i + 1])[..i][j] == FactRows(facts[..i])[j];
  }

  lemma {:induction false} LinksKept(facts: seq<Fact>, n: nat)
    requires n <= |facts|
    ensures EvidenceLinks(facts[..n]) <= EvidenceLinks(facts)
    decreases |facts| - n
  {
    if n < |facts| {
      assert facts[..n + 1][..n] == facts[..n];
      LinksKept(facts, n + 1);
    } else {
      assert facts[..n] == facts;
    }
  }
}
