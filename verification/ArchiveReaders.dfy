/** The snapshot readers (internal/archive/snapshot.go): loop over ordered rows, then attach child
    rows to their parents through an index map. */
module ArchiveReaders {
  import opened Orders
  import opened Archive
  import opened ArchiveRuns
  import opened Identity

  /** The values paired with a key, in order. */
  function ValuesFor<K(==), V>(pairs: seq<(K, V)>, key: K): seq<V> {
    if pairs == [] then []
    else
      var last := pairs[|pairs| - 1];
      ValuesFor(pairs[..|pairs| - 1], key) + if last.0 == key then [last.1] else []
  }

  /** The attaching loop: a child row whose key is not listed is dropped. */
  method Attach<K(==), V>(keys: seq<K>, pairs: seq<(K, V)>) returns (groups: seq<seq<V>>)
    requires forall i, j :: 0 <= i < j < |keys| ==> keys[i] != keys[j]
    ensures |groups| == |keys|
    ensures forall i :: 0 <= i < |keys| ==> groups[i] == ValuesFor(pairs, keys[i])
  {
    var index: map<K, nat> := map[];
    for i := 0 to |keys|
      invariant forall k :: k in index ==> index[k] < i && keys[index[k]] == k
      invariant forall j :: 0 <= j < i ==> keys[j] in index
    {
      index := index[keys[i] := i];
    }
    groups := seq(|keys|, _ => []);
    for n := 0 to |pairs|
      invariant |groups| == |keys|
      invariant forall i :: 0 <= i < |keys| ==> groups[i] == ValuesFor(pairs[..n], keys[i])
    {
      assert pairs[..n + 1][..n] == pairs[..n];
      var key, value := pairs[n].0, pairs[n].1;
      if key in index {
        var i := index[key];
        groups := groups[i := groups[i] + [value]];
      }
    }
    assert pairs[..|pairs|] == pairs;
  }

  predicate PairLess(a: (string, string), b: (string, string)) {
    if a.0 == b.0 then StringLess(a.1, b.1) else StringLess(a.0, b.0)
  }

  lemma PairLessIsStrictWeak()
    ensures StrictWeak(PairLess)
  {
    forall a, b | PairLess(a, b) ensures !PairLess(b, a) {
      StringTotal(a.0, b.0);
      StringTotal(a.1, b.1);
    }
    forall a, b, c | PairLess(a, c) ensures PairLess(a, b) || PairLess(b, c) {
      StringLessIsStrictWeak();
      StringTotal(a.0, b.0);
      StringTotal(b.0, c.0);
      StringTotal(a.0, c.0);
    }
  }

  /** SELECT ... ORDER BY fact_id, evidence_id */
  method OrderedLinks(links: set<(string, string)>) returns (r: seq<(string, string)>)
    ensures Distinct(r) && Sorted(r, PairLess) && forall l :: l in r <==> l in links
  {
    r := [];
    var todo := links;
    while todo != {}
      invariant Distinct(r) && todo <= links && forall l :: l in r <==> l in links - todo
      decreases todo
    {
      var l :| l in todo;
      assert l !in r;
      r := r + [l];
      todo := todo - {l};
    }
    PairLessIsStrictWeak();
    SortSorts(r, PairLess);
    DistinctSort(r, PairLess);
    ghost var found := r;
    r := Sort(r, PairLess);
    forall l ensures l in r <==> l in links { SortMember(found, PairLess, l); }
  }

  /** SELECT ... ORDER BY fact_id */
  method OrderedKeys(keys: set<string>) returns (r: seq<string>)
    ensures Ascending(r) && forall k :: k in r <==> k in keys
  {
    r := [];
    var todo := keys;
    while todo != {}
      invariant Distinct(r) && todo <= keys && forall k :: k in r <==> k in keys - todo
      decreases todo
    {
      var k :| k in todo;
      assert k !in r;
      r := r + [k];
      todo := todo - {k};
    }
    StringLessIsStrictWeak();
    SortMembers(r, StringLess);
    SortSorts(r, StringLess);
    DistinctSort(r, StringLess);
    r := Sort(r, StringLess);
    forall i, j | 0 <= i < j < |r| ensures StringLess(r[i], r[j]) { StringTotal(r[i], r[j]); }
  }

  lemma {:induction false} ValuesAreLinks(pairs: seq<(string, string)>, key: string)
    requires Distinct(pairs) && Sorted(pairs, PairLess)
    ensures Ascending(ValuesFor(pairs, key))
    ensures forall v :: v in ValuesFor(pairs, key) <==> (key, v) in pairs
  {
    if pairs != [] {
      var front, last := pairs[..|pairs| - 1], pairs[|pairs| - 1];
      assert pairs == front + [last] && last !in front;
      ValuesAreLinks(front, key);
      if last.0 == key {
        var vs := ValuesFor(front, key);
        forall i | 0 <= i < |vs| ensures StringLess(vs[i], last.1) {
          assert vs[i] in vs;
          var k :| 0 <= k < |front| && front[k] == (key, vs[i]);
          assert !PairLess(pairs[|pairs| - 1], pairs[k]);
          StringTotal(vs[i], last.1);
        }
      }
    }
  }

  /** Exactly these facts, by ascending ID, each with exactly its linked evidence, ascending. */
  ghost predicate ReadsFacts(result: seq<Fact>, facts: map<string, FactRow>, links: set<(string, string)>) {
    && (forall i, j :: 0 <= i < j < |result| ==> StringLess(result[i].row.id, result[j].row.id))
    && (forall i :: 0 <= i < |result| ==> ReadsFact(result[i], facts, links))
    && (forall id :: id in facts ==> exists i :: 0 <= i < |result| && result[i].row.id == id)
  }

  ghost predicate ReadsFact(f: Fact, facts: map<string, FactRow>, links: set<(string, string)>) {
    && f.row.id in facts && facts[f.row.id] == f.row
    && Ascending(f.evidence) && forall e :: e in f.evidence <==> (f.row.id, e) in links
  }

  /** `readFacts`, given the rows that join with a committed batch. */
  method ReadFacts(facts: map<string, FactRow>, links: set<(string, string)>) returns (result: seq<Fact>)
    requires forall id :: id in facts ==> facts[id].id == id
    ensures ReadsFacts(result, facts, links)
  {
    var ids := OrderedKeys(facts.Keys);
    var pairs := OrderedLinks(links);
    forall i, j | 0 <= i < j < |ids| ensures ids[i] != ids[j] { StringTotal(ids[i], ids[j]); }
    var evidence := Attach(ids, pairs);
    result := [];
    for i := 0 to |ids|
      invariant |result| == i
      invariant forall j :: 0 <= j < i ==> result[j].row.id == ids[j] && ReadsFact(result[j], facts, links)
    {
      ValuesAreLinks(pairs, ids[i]);
      assert ids[i] in ids;
      result := result + [Fact(facts[ids[i]], evidence[i])];
    }
    forall id | id in facts ensures exists i :: 0 <= i < |result| && result[i].row.id == id {
      var i :| 0 <= i < |ids| && ids[i] == id;
    }
  }

  /** Only one sequence of facts reads a given set of tables, so a snapshot is determined by them. */
  lemma ReadingIsDetermined(a: seq<Fact>, b: seq<Fact>, facts: map<string, FactRow>, links: set<(string, string)>)
    requires ReadsFacts(a, facts, links) && ReadsFacts(b, facts, links)
    ensures a == b
  {
    var x, y := IdsOf(a), IdsOf(b);
    IdsAreKeys(a, facts, links);
    IdsAreKeys(b, facts, links);
    AscendingUnique(x, y);
    assert |x| == |a| && |y| == |b|;
    forall i | 0 <= i < |a| ensures a[i] == b[i] {
      assert x[i] == y[i];
      assert ReadsFact(a[i], facts, links) && ReadsFact(b[i], facts, links);
      AscendingUnique(a[i].evidence, b[i].evidence);
    }
  }

  lemma IdsAreKeys(a: seq<Fact>, facts: map<string, FactRow>, links: set<(string, string)>)
    requires ReadsFacts(a, facts, links)
    ensures Ascending(IdsOf(a)) && forall id :: id in IdsOf(a) <==> id in facts
  {
    forall id ensures id in IdsOf(a) <==> id in facts {
      if id in IdsOf(a) {
        var i :| 0 <= i < |a| && IdsOf(a)[i] == id;
        assert ReadsFact(a[i], facts, links);
      }
      if id in facts {
        var i :| 0 <= i < |a| && a[i].row.id == id;
        assert IdsOf(a)[i] == id;
      }
    }
  }

  ghost function IdsOf(facts: seq<Fact>): seq<string> {
    seq(|facts|, i requires 0 <= i < |facts| => facts[i].row.id)
  }

  /** Stored facts are filed under their own ID. */
  lemma {:induction false} FactsFiledById(events: seq<Event>)
    ensures forall id :: id in Execute(events).facts ==> Execute(events).facts[id].id == id
  {
    if events != [] {
      var front, e := events[..|events| - 1], events[|events| - 1];
      FactsFiledById(front);
      if Commits(Execute(front), e) {
        CommitEffect(Execute(front), e.batch);
        InsertAllIsUnion(Execute(front).facts, FactRows(e.batch.facts), FactKey);
      } else if e.PrepareTx? && Prepare(Execute(front), e.batch).Some? {
        PrepareEffect(Execute(front), e.batch);
      }
    }
  }
}
