/** Normalization gives one canonical batch whatever the input order, and settles in one step. */
module NormalizeTheorems {
  import opened Orders
  import opened Identity
  import opened Lists
  import opened Normalize

  // ----- The same batch up to order -----

  ghost predicate SameSession(s: Session, t: Session) {
    t == s.(repositories := t.repositories) && multiset(t.repositories) == multiset(s.repositories)
  }

  ghost predicate SamePayload(p: FactPayload, q: FactPayload) {
    q == p.(list := q.list) && multiset(q.list) == multiset(p.list)
  }

  /** Evidence may also be repeated. */
  ghost predicate SameFact(f: Fact, g: Fact) {
    && g == f.(payloads := g.payloads, evidence := g.evidence)
    && g.payloads.Keys == f.payloads.Keys
    && (forall k :: k in f.payloads ==> SamePayload(f.payloads[k], g.payloads[k]))
    && (forall e :: e in f.evidence <==> e in g.evidence)
  }

  ghost predicate SameCheckpoint(c: Checkpoint, d: Checkpoint) {
    d == c.(parents := d.parents) && multiset(d.parents) == multiset(c.parents)
  }

  /** ys is xs with elements replaced by equivalent ones and then permuted; mid is the step between. */
  ghost predicate ReorderedBy<T(!new)>(xs: seq<T>, mid: seq<T>, ys: seq<T>, same: (T, T) -> bool) {
    |mid| == |xs| && multiset(mid) == multiset(ys) && forall i :: 0 <= i < |xs| ==> same(xs[i], mid[i])
  }

  ghost predicate Reordered<T(!new)>(xs: seq<T>, ys: seq<T>, same: (T, T) -> bool) {
    exists mid :: ReorderedBy(xs, mid, ys, same)
  }

  ghost predicate SameBatch(a: BatchContent, b: BatchContent) {
    && Reordered(a.collections, b.collections, SameSession)
    && multiset(a.payloads) == multiset(b.payloads)
    && multiset(a.evidence) == multiset(b.evidence)
    && Reordered(a.facts, b.facts, SameFact)
    && multiset(a.capabilities) == multiset(b.capabilities)
    && Reordered(a.checkpoints, b.checkpoints, SameCheckpoint)
  }

  // ----- Elements -----

  lemma IntOrder(xs: seq<int>)
    ensures Comparable(xs, ByKey(IntKey)) && StrictWeak(ByKey(IntKey))
  {
    ByKeyIsStrictWeak(IntKey);
    forall x, y | x in xs && y in xs ensures x == y || ByKey(IntKey)(x, y) || ByKey(IntKey)(y, x) {
      LexTotal(IntKey(x), IntKey(y));
    }
  }

  lemma TidySessionAgrees(s: Session, t: Session)
    requires SameSession(s, t)
    ensures TidySession(s) == TidySession(t)
  {
    IntOrder(s.repositories);
    SortCanonical(s.repositories, t.repositories, ByKey(IntKey));
  }

  lemma TidySessionTwice(s: Session)
    ensures TidySession(TidySession(s)) == TidySession(s)
  {
    var r := Sort(s.repositories, ByKey(IntKey));
    IntOrder(s.repositories);
    IntOrder(r);
    SortSorts(s.repositories, ByKey(IntKey));
    SortIdempotent(r, ByKey(IntKey));
  }

  lemma StringsComparable(s: seq<string>)
    ensures Comparable(s, StringLess) && StrictWeak(StringLess)
  {
    StringLessIsStrictWeak();
    forall x, y | x in s && y in s ensures x == y || StringLess(x, y) || StringLess(y, x) { StringTotal(x, y); }
  }

  lemma TidyPayloadAgrees(p: FactPayload, q: FactPayload)
    requires SamePayload(p, q)
    ensures TidyPayload(p) == TidyPayload(q)
  {
    StringsComparable(p.list);
    SortCanonical(p.list, q.list, StringLess);
  }

  lemma TidyPayloadTwice(p: FactPayload)
    ensures TidyPayload(TidyPayload(p)) == TidyPayload(p)
  {
    var r := Sort(p.list, StringLess);
    StringsComparable(p.list);
    StringsComparable(r);
    SortSorts(p.list, StringLess);
    SortIdempotent(r, StringLess);
  }

  lemma TidyFactTwice(h: Hashes, f: Fact)
    ensures TidyFact(h, TidyFact(h, f)) == TidyFact(h, f)
  {
    if f.kind !in f.payloads { return; }
    var g := TidyFact(h, f);
    forall k | k in f.payloads ensures TidyPayload(TidyPayload(f.payloads[k])) == TidyPayload(f.payloads[k]) {
      TidyPayloadTwice(f.payloads[k]);
    }
    assert TidyPayloads(g.payloads) == g.payloads;
    var nested := f.payloads[f.kind].nested;
    SortUniqueIsTheSet(f.evidence + nested);
    SortUniqueAgrees(g.evidence + nested, f.evidence + nested);
  }

  // ----- Lists -----

  /** x and y are both invalid, or rewritten to the same valid element. */
  ghost predicate Matches<T(!new)>(tidy: T -> T, ok: T -> bool, x: T, y: T) {
    ok(tidy(x)) == ok(tidy(y)) && (ok(tidy(x)) ==> tidy(x) == tidy(y))
  }

  lemma ReorderedPasses<T(!new)>(xs: seq<T>, mid: seq<T>, ys: seq<T>, tidy: T -> T, ok: T -> bool, key: T -> seq<int>)
    requires |mid| == |xs| && multiset(mid) == multiset(ys)
    requires forall i :: 0 <= i < |xs| ==> Matches(tidy, ok, xs[i], mid[i])
    ensures Passes(xs, tidy, ok, key) <==> Passes(ys, tidy, ok, key)
    ensures Passes(xs, tidy, ok, key) ==> Canon(tidy, key, xs) == Canon(tidy, key, ys)
  {
    SameMembers(mid, ys);
    if forall x :: x in xs ==> ok(tidy(x)) {
      assert Map(tidy, xs) == Map(tidy, mid);
      forall y | y in ys ensures ok(tidy(y)) {
        var i :| 0 <= i < |mid| && mid[i] == y;
        assert xs[i] in xs;
      }
      MapPermutes(tidy, mid, ys);
      DistinctKeysPermute(Map(tidy, xs), Map(tidy, ys), key);
      if DistinctKeys(Map(tidy, xs), key) { CanonPermutes(tidy, key, xs, ys); }
    } else {
      var x :| x in xs && !ok(tidy(x));
      var i :| 0 <= i < |xs| && xs[i] == x;
      assert mid[i] in ys;
    }
  }

  lemma PermutedPasses<T(!new)>(xs: seq<T>, ys: seq<T>, ok: T -> bool, key: T -> seq<int>)
    requires multiset(xs) == multiset(ys)
    ensures Passes(xs, Same, ok, key) <==> Passes(ys, Same, ok, key)
    ensures Passes(xs, Same, ok, key) ==> Canon(Same, key, xs) == Canon(Same, key, ys)
  {
    ReorderedPasses(xs, xs, ys, Same, ok, key);
  }

  lemma SessionsReorder(rules: Rules, xs: seq<Session>, ys: seq<Session>)
    requires Reordered(xs, ys, SameSession)
    ensures Passes(xs, TidySession, SessionRule(rules), SessionKey) <==> Passes(ys, TidySession, SessionRule(rules), SessionKey)
    ensures Passes(xs, TidySession, SessionRule(rules), SessionKey) ==>
              Canon(TidySession, SessionKey, xs) == Canon(TidySession, SessionKey, ys)
  {
    var mid :| ReorderedBy(xs, mid, ys, SameSession);
    forall i | 0 <= i < |xs| ensures Matches(TidySession, SessionRule(rules), xs[i], mid[i]) {
      assert SameSession(xs[i], mid[i]);
      TidySessionAgrees(xs[i], mid[i]);
    }
    ReorderedPasses(xs, mid, ys, TidySession, SessionRule(rules), SessionKey);
  }

  lemma FactMatches(h: Hashes, rules: Rules, f: Fact, g: Fact)
    requires SameFact(f, g)
    ensures Matches(Tidier(h), FactRule(h, rules), f, g)
  {
    if f.kind in f.payloads {
      forall k | k in f.payloads ensures TidyPayload(f.payloads[k]) == TidyPayload(g.payloads[k]) {
        TidyPayloadAgrees(f.payloads[k], g.payloads[k]);
      }
      assert TidyPayloads(f.payloads) == TidyPayloads(g.payloads);
      var nested := f.payloads[f.kind].nested;
      assert SamePayload(f.payloads[f.kind], g.payloads[f.kind]);
      SortUniqueAgrees(f.evidence + nested, g.evidence + nested);
    } else {
      assert f.kind in {f.kind};
    }
  }

  lemma FactsReorder(h: Hashes, rules: Rules, xs: seq<Fact>, ys: seq<Fact>)
    requires Reordered(xs, ys, SameFact)
    ensures Passes(xs, Tidier(h), FactRule(h, rules), FactKey) <==> Passes(ys, Tidier(h), FactRule(h, rules), FactKey)
    ensures Passes(xs, Tidier(h), FactRule(h, rules), FactKey) ==> Canon(Tidier(h), FactKey, xs) == Canon(Tidier(h), FactKey, ys)
  {
    var mid :| ReorderedBy(xs, mid, ys, SameFact);
    forall i | 0 <= i < |xs| ensures Matches(Tidier(h), FactRule(h, rules), xs[i], mid[i]) {
      assert SameFact(xs[i], mid[i]);
      FactMatches(h, rules, xs[i], mid[i]);
    }
    ReorderedPasses(xs, mid, ys, Tidier(h), FactRule(h, rules), FactKey);
  }

  /** Parents are strictly ascending after sorting exactly when no run ID is repeated. */
  lemma ParentsSorted(ps: seq<Parent>)
    ensures var r := Sort(ps, ByKey(ParentKey));
            (forall i :: 0 < i < |r| ==> r[i - 1].run < r[i].run) <==> DistinctKeys(ps, ParentKey)
  {
    var r := Sort(ps, ByKey(ParentKey));
    ByKeyIsStrictWeak(ParentKey);
    SortPermutes(ps, ByKey(ParentKey));
    SortSorts(ps, ByKey(ParentKey));
    DistinctKeysPermute(ps, r, ParentKey);
    DistinctKeysAt(r, ParentKey);
    if forall i :: 0 < i < |r| ==> r[i - 1].run < r[i].run {
      forall i, j | 0 <= i < j < |r| ensures ParentKey(r[i]) != ParentKey(r[j]) { RunsAscend(r, i, j); }
    }
    if DistinctKeys(r, ParentKey) {
      forall i | 0 < i < |r| ensures r[i - 1].run < r[i].run {
        assert !ByKey(ParentKey)(r[i], r[i - 1]);
        assert ParentKey(r[i - 1]) != ParentKey(r[i]);
        assert r[i - 1].run != r[i].run;
        LexTotal(ParentKey(r[i - 1]), ParentKey(r[i]));
      }
    }
  }

  lemma {:induction false} RunsAscend(r: seq<Parent>, i: nat, j: nat)
    requires forall k :: 0 < k < |r| ==> r[k - 1].run < r[k].run
    requires i < j < |r|
    ensures r[i].run < r[j].run
    decreases j - i
  {
    if i + 1 < j { RunsAscend(r, i, j - 1); }
    assert r[j - 1].run < r[j].run;
  }

  lemma CheckpointMatches(rules: Rules, c: Context, k: Checkpoint, l: Checkpoint)
    requires SameCheckpoint(k, l)
    ensures Matches(TidyCheckpoint, CheckpointRule(rules, c), k, l)
  {
    ParentsSorted(k.parents);
    ParentsSorted(l.parents);
    DistinctKeysPermute(k.parents, l.parents, ParentKey);
    if DistinctKeys(k.parents, ParentKey) {
      ByKeyIsStrictWeak(ParentKey);
      DistinctKeysComparable(k.parents, ParentKey);
      SortCanonical(k.parents, l.parents, ByKey(ParentKey));
    }
  }

  lemma TidyCheckpointTwice(k: Checkpoint)
    requires DistinctKeys(k.parents, ParentKey)
    ensures TidyCheckpoint(TidyCheckpoint(k)) == TidyCheckpoint(k)
  {
    var r := Sort(k.parents, ByKey(ParentKey));
    ByKeyIsStrictWeak(ParentKey);
    SortPermutes(k.parents, ByKey(ParentKey));
    SortSorts(k.parents, ByKey(ParentKey));
    DistinctKeysPermute(k.parents, r, ParentKey);
    DistinctKeysComparable(r, ParentKey);
    SortIdempotent(r, ByKey(ParentKey));
  }

  lemma CheckpointsReorder(rules: Rules, c: Context, xs: seq<Checkpoint>, ys: seq<Checkpoint>)
    requires Reordered(xs, ys, SameCheckpoint)
    ensures Passes(xs, TidyCheckpoint, CheckpointRule(rules, c), CheckpointKey)
       <==> Passes(ys, TidyCheckpoint, CheckpointRule(rules, c), CheckpointKey)
    ensures Passes(xs, TidyCheckpoint, CheckpointRule(rules, c), CheckpointKey) ==>
              Canon(TidyCheckpoint, CheckpointKey, xs) == Canon(TidyCheckpoint, CheckpointKey, ys)
  {
    var mid :| ReorderedBy(xs, mid, ys, SameCheckpoint);
    forall i | 0 <= i < |xs| ensures Matches(TidyCheckpoint, CheckpointRule(rules, c), xs[i], mid[i]) {
      assert SameCheckpoint(xs[i], mid[i]);
      CheckpointMatches(rules, c, xs[i], mid[i]);
    }
    ReorderedPasses(xs, mid, ys, TidyCheckpoint, CheckpointRule(rules, c), CheckpointKey);
  }

  lemma ContextAgrees(a: BatchContent, b: BatchContent)
    requires SameBatch(a, b)
    ensures ContextOf(a.collections, a.payloads) == ContextOf(b.collections, b.payloads)
  {
    SameMembers(a.payloads, b.payloads);
    var mid :| ReorderedBy(a.collections, mid, b.collections, SameSession);
    SameMembers(mid, b.collections);
    var x, y := ContextOf(a.collections, []), ContextOf(b.collections, []);
    forall id | id in x.known ensures id in y.known && (id in x.retaining ==> id in y.retaining) {
      Replaced(a.collections, mid, b.collections);
    }
    forall id | id in y.known ensures id in x.known && (id in y.retaining ==> id in x.retaining) {
      Replaced(a.collections, mid, b.collections);
    }
    assert x.known == y.known && x.retaining == y.retaining;
  }

  lemma Replaced(xs: seq<Session>, mid: seq<Session>, ys: seq<Session>)
    requires ReorderedBy(xs, mid, ys, SameSession)
    ensures forall s :: s in xs ==> exists t :: t in ys && t.id == s.id && t.rawRetention == s.rawRetention
    ensures forall t :: t in ys ==> exists s :: s in xs && t.id == s.id && t.rawRetention == s.rawRetention
  {
    SameMembers(mid, ys);
    forall s | s in xs ensures exists t :: t in ys && t.id == s.id && t.rawRetention == s.rawRetention {
      var i :| 0 <= i < |xs| && xs[i] == s;
      assert SameSession(xs[i], mid[i]) && mid[i] in ys;
    }
    forall t | t in ys ensures exists s :: s in xs && t.id == s.id && t.rawRetention == s.rawRetention {
      var i :| 0 <= i < |mid| && mid[i] == t;
      assert SameSession(xs[i], mid[i]) && xs[i] in xs;
    }
  }

  // ----- Whole batches -----

  /** Batches equal up to order are both rejected, or have one canonical form and one identifier. */
  lemma OrderDoesNotMatter(h: Hashes, rules: Rules, a: BatchContent, b: BatchContent)
    requires SameBatch(a, b)
    ensures Acceptable(h, rules, a) <==> Acceptable(h, rules, b)
    ensures Acceptable(h, rules, a) ==> CanonicalBatch(h, a) == CanonicalBatch(h, b)
    ensures Acceptable(h, rules, a) ==> BatchID(h, CanonicalBatch(h, a)) == BatchID(h, CanonicalBatch(h, b))
  {
    var c := ContextOf(a.collections, a.payloads);
    ContextAgrees(a, b);
    SameMembers(a.payloads, b.payloads);
    SameMembers(a.evidence, b.evidence);
    assert |a.facts| == |b.facts| by {
      var mid :| ReorderedBy(a.facts, mid, b.facts, SameFact);
      SameMembers(mid, b.facts);
    }
    SessionsReorder(rules, a.collections, b.collections);
    PermutedPasses(a.payloads, b.payloads, rules.payload, PayloadKey);
    PermutedPasses(a.evidence, b.evidence, EnvelopeRule(rules, c), EnvelopeKey);
    FactsReorder(h, rules, a.facts, b.facts);
    PermutedPasses(a.capabilities, b.capabilities, CapabilityRule(rules), CapabilityKey);
    CheckpointsReorder(rules, c, a.checkpoints, b.checkpoints);
  }

  lemma CanonPasses<T(!new)>(xs: seq<T>, tidy: T -> T, ok: T -> bool, key: T -> seq<int>)
    requires Passes(xs, tidy, ok, key) && forall x :: x in xs ==> tidy(tidy(x)) == tidy(x)
    ensures Passes(Canon(tidy, key, xs), tidy, ok, key)
    ensures Canon(tidy, key, Canon(tidy, key, xs)) == Canon(tidy, key, xs)
    ensures |Canon(tidy, key, xs)| == |xs|
  {
    var c := Canon(tidy, key, xs);
    CanonIdempotent(tidy, key, xs);
    CanonOrder(tidy, key, xs);
    SameMembers(c, Map(tidy, xs));
    forall x | x in c ensures ok(tidy(x)) {
      assert x in Map(tidy, xs);
      var i :| 0 <= i < |xs| && Map(tidy, xs)[i] == x;
      assert xs[i] in xs;
    }
  }

  /** Normalizing a normalized batch changes nothing, its identifier included. */
  lemma NormalizedStays(h: Hashes, rules: Rules, a: BatchContent)
    requires Acceptable(h, rules, a)
    ensures Acceptable(h, rules, CanonicalBatch(h, a))
    ensures CanonicalBatch(h, CanonicalBatch(h, a)) == CanonicalBatch(h, a)
  {
    var c := ContextOf(a.collections, a.payloads);
    ContextKept(a.collections, a.payloads);
    forall s | s in a.collections ensures TidySession(TidySession(s)) == TidySession(s) { TidySessionTwice(s); }
    CanonPasses(a.collections, TidySession, SessionRule(rules), SessionKey);
    CanonPasses(a.payloads, Same, rules.payload, PayloadKey);
    CanonPasses(a.evidence, Same, EnvelopeRule(rules, c), EnvelopeKey);
    forall f | f in a.facts ensures Tidier(h)(Tidier(h)(f)) == Tidier(h)(f) { TidyFactTwice(h, f); }
    CanonPasses(a.facts, Tidier(h), FactRule(h, rules), FactKey);
    CanonPasses(a.capabilities, Same, CapabilityRule(rules), CapabilityKey);
    forall k | k in a.checkpoints ensures TidyCheckpoint(TidyCheckpoint(k)) == TidyCheckpoint(k) {
      assert CheckpointRule(rules, c)(TidyCheckpoint(k));
      ParentsSorted(k.parents);
      TidyCheckpointTwice(k);
    }
    CanonPasses(a.checkpoints, TidyCheckpoint, CheckpointRule(rules, c), CheckpointKey);
  }

  // ----- What is accepted, told from the input -----

  lemma StringsAscend(s: seq<string>)
    ensures StrictlySorted(SortStrings(s)) <==> Distinct(s)
  {
    var r := SortStrings(s);
    StringsComparable(s);
    SortSorts(s, StringLess);
    SortPermutes(s, StringLess);
    DistinctMultiset(s);
    DistinctMultiset(r);
    if StrictlySorted(r) {
      forall i, j | 0 <= i < j < |r| ensures r[i] != r[j] {
        StringsRise(r, i, j);
        StringTotal(r[i], r[j]);
      }
    }
    if Distinct(r) {
      forall i | 0 < i < |r| ensures StringLess(r[i - 1], r[i]) {
        assert !StringLess(r[i], r[i - 1]) && r[i - 1] != r[i];
        StringTotal(r[i - 1], r[i]);
      }
    }
  }

  lemma {:induction false} StringsRise(r: seq<string>, i: nat, j: nat)
    requires StrictlySorted(r) && i < j < |r|
    ensures StringLess(r[i], r[j])
    decreases j - i
  {
    if i + 1 < j {
      StringsRise(r, i, j - 1);
      StringTransitive(r[i], r[j - 1], r[j]);
    }
  }

  /** A fact is accepted exactly when it has one payload, of its kind, whose list repeats nothing and that is valid once
      arranged; it or the payload cites evidence unless it is a coverage gap; and its identifier is absent or right. */
  lemma FactAcceptedExactly(h: Hashes, rules: Rules, f: Fact)
    ensures FactOk(h, rules, TidyFact(h, f)) <==>
      && f.payloads.Keys == {f.kind}
      && (var p := f.payloads[f.kind]; Distinct(p.list) && rules.fact(f.kind, p.(list := SortStrings(p.list))))
      && (f.kind == CoverageGap || f.evidence != [] || f.payloads[f.kind].nested != [])
      && f.id in ["", FactID(h, TidyFact(h, f))]
  {
    if f.kind in f.payloads {
      StringsAscend(f.payloads[f.kind].list);
      SortUniqueIsTheSet(f.evidence + f.payloads[f.kind].nested);
      NothingFromNothing(f.evidence, f.payloads[f.kind].nested);
    }
  }

  lemma NothingFromNothing(a: seq<string>, b: seq<string>)
    ensures SortUnique(a + b) == [] <==> a == [] && b == []
  {
    SortUniqueIsTheSet(a + b);
    if a != [] { assert a[0] in a + b; }
    if b != [] { assert b[0] in a + b; }
  }

  /** An envelope is accepted exactly when it is valid and of a session of the batch; and if its bytes are kept aside, that
      session keeps them, it points at them by their digest and no payload has them, while what it retains otherwise is a
      payload of the batch of its media type and length. */
  lemma EnvelopeAcceptedExactly(rules: Rules, sessions: seq<Session>, payloads: seq<Payload>, e: Envelope)
    ensures EnvelopeOk(rules, ContextOf(sessions, payloads), e) <==>
      && rules.envelope(e.body)
      && (exists s :: s in sessions && s.id == e.collection)
      && (if e.rawRetained then
            && (exists s :: s in sessions && s.id == e.collection && s.rawRetention)
            && e.retained == Some(e.sourceSha) && RawDigest(e.sourceSha) && e.retainedPath == "raw/" + e.sourceSha + ".bin"
            && forall p :: p in payloads ==> p.sha != e.sourceSha
          else
            e.retained == None || exists p :: p in payloads && e.retained == Some(p.sha) && p.mediaType == e.mediaType && |p.bytes| == e.length)
  {
  }

  // ----- What normalization leaves -----

  /** g is f with its one payload's list arranged, subject and event taken from the payload, the evidence cited by the
      payload added to its own, and its identifier computed. */
  ghost predicate NormalFact(h: Hashes, f: Fact, g: Fact) {
    && g.kind == f.kind && f.payloads.Keys == g.payloads.Keys == {f.kind}
    && SamePayload(f.payloads[f.kind], g.payloads[f.kind])
    && g.subject == f.payloads[f.kind].subject && g.event == f.payloads[f.kind].event
    && (forall e :: e in g.evidence <==> e in f.evidence || e in f.payloads[f.kind].nested)
    && Ascending(g.evidence) && StrictlySorted(g.payloads[f.kind].list)
    && g.id == "fact1:" + h.fact(FactContent(g.kind, g.payloads, g.subject, g.event)) && f.id in ["", g.id]
  }

  ghost function NormalFactOf(h: Hashes): (Fact, Fact) -> bool { (f, g) => NormalFact(h, f, g) }

  /** What an accepted fact becomes. */
  lemma FactBecomesNormal(h: Hashes, rules: Rules, f: Fact)
    requires FactOk(h, rules, TidyFact(h, f))
    ensures NormalFact(h, f, TidyFact(h, f))
  {
    var g := TidyFact(h, f);
    if f.kind in f.payloads {
      SortUniqueIsTheSet(f.evidence + f.payloads[f.kind].nested);
      StringLessIsStrictWeak();
      SortPermutes(f.payloads[f.kind].list, StringLess);
    }
  }

  lemma CanonIsReordered<T(!new)>(xs: seq<T>, tidy: T -> T, key: T -> seq<int>, same: (T, T) -> bool)
    requires forall x :: x in xs ==> same(x, tidy(x))
    requires DistinctKeys(Map(tidy, xs), key)
    ensures Reordered(xs, Canon(tidy, key, xs), same)
  {
    CanonOrder(tidy, key, xs);
    assert ReorderedBy(xs, Map(tidy, xs), Canon(tidy, key, xs), same);
  }

  lemma CanonPermutesOnly<T(!new)>(xs: seq<T>, key: T -> seq<int>)
    requires DistinctKeys(Map(Same, xs), key)
    ensures multiset(Canon(Same, key, xs)) == multiset(xs)
  {
    CanonOrder(Same, key, xs);
    assert Map(Same, xs) == xs;
  }

  /** What an accepted batch becomes: the same records with their lists arranged, facts as above; sorted by their keys. */
  lemma BatchBecomesNormal(h: Hashes, rules: Rules, a: BatchContent)
    requires Acceptable(h, rules, a)
    ensures var b := CanonicalBatch(h, a);
      && Reordered(a.collections, b.collections, SameSession) && Reordered(a.checkpoints, b.checkpoints, SameCheckpoint)
      && Reordered(a.facts, b.facts, NormalFactOf(h))
      && multiset(a.payloads) == multiset(b.payloads) && multiset(a.evidence) == multiset(b.evidence)
      && multiset(a.capabilities) == multiset(b.capabilities)
      && SortedById(b.facts)
  {
    forall s ensures SameSession(s, TidySession(s)) {
      IntOrder(s.repositories);
      SortPermutes(s.repositories, ByKey(IntKey));
    }
    forall c ensures SameCheckpoint(c, TidyCheckpoint(c)) {
      ByKeyIsStrictWeak(ParentKey);
      SortPermutes(c.parents, ByKey(ParentKey));
    }
    forall f | f in a.facts ensures NormalFactOf(h)(f, Tidier(h)(f)) { FactBecomesNormal(h, rules, f); }
    CanonIsReordered(a.collections, TidySession, SessionKey, SameSession);
    CanonIsReordered(a.checkpoints, TidyCheckpoint, CheckpointKey, SameCheckpoint);
    CanonIsReordered(a.facts, Tidier(h), FactKey, NormalFactOf(h));
    CanonPermutesOnly(a.payloads, PayloadKey);
    CanonPermutesOnly(a.evidence, EnvelopeKey);
    CanonPermutesOnly(a.capabilities, CapabilityKey);
    CanonicalFactsSorted(h, rules, a);
  }

  // ----- Identifiers -----

  /** The identifier of a normalized fact names its content and leaves out its evidence. */
  lemma FactIdentity(h: Hashes, rules: Rules, f: Fact, g: Fact)
    requires Injective(h.fact)
    requires FactOk(h, rules, TidyFact(h, f)) && FactOk(h, rules, TidyFact(h, g))
    ensures TidyFact(h, f).id == TidyFact(h, g).id
       <==> TidyFact(h, f) == TidyFact(h, g).(evidence := TidyFact(h, f).evidence)
  {
    var a, b := TidyFact(h, f), TidyFact(h, g);
    if a.id == b.id {
      assert h.fact(ContentOf(a)) == a.id[6..] == b.id[6..] == h.fact(ContentOf(b));
    }
  }

  /** Equal batch identifiers mean equal canonical batches. */
  lemma BatchIdentity(h: Hashes, a: BatchContent, b: BatchContent)
    requires Injective(h.batch)
    ensures BatchID(h, a) == BatchID(h, b) <==> a == b
  {
    if BatchID(h, a) == BatchID(h, b) {
      assert h.batch(a) == BatchID(h, a)[7..] == BatchID(h, b)[7..] == h.batch(b);
    }
  }

  // ----- Looking a fact up -----

  ghost predicate SortedById(facts: seq<Fact>) {
    forall i, j :: 0 <= i < j < |facts| ==> StringLess(facts[i].id, facts[j].id)
  }

  lemma CanonicalFactsSorted(h: Hashes, rules: Rules, a: BatchContent)
    requires Acceptable(h, rules, a)
    ensures SortedById(CanonicalBatch(h, a).facts)
  {
    CanonOrder(Tidier(h), FactKey, a.facts);
  }

  /** `containsFactID`: a binary search, which on normalized facts agrees with membership. */
  method ContainsFactID(facts: seq<Fact>, id: string) returns (found: bool)
    requires SortedById(facts)
    ensures found <==> exists f :: f in facts && f.id == id
  {
    var low, high := 0, |facts|;
    while low < high
      invariant 0 <= low <= high <= |facts|
      invariant forall i :: 0 <= i < low ==> StringLess(facts[i].id, id)
      invariant forall i :: high <= i < |facts| ==> !StringLess(facts[i].id, id)
    {
      var middle := (low + high) / 2;
      if StringLess(facts[middle].id, id) {
        forall i | 0 <= i <= middle ensures StringLess(facts[i].id, id) {
          if i < middle { StringTransitive(facts[i].id, facts[middle].id, id); }
        }
        low := middle + 1;
      } else {
        forall i | middle <= i < |facts| ensures !StringLess(facts[i].id, id) {
          if StringLess(facts[i].id, id) && middle < i { StringTransitive(facts[middle].id, facts[i].id, id); }
        }
        high := middle;
      }
    }
    found := low < |facts| && facts[low].id == id;
    StringTotal(id, id);
    if low < |facts| { StringTotal(facts[low].id, id); }
    forall f | f in facts && f.id == id ensures found {
      var i :| 0 <= i < |facts| && facts[i] == f;
    }
  }
}
