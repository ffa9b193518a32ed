/** Lists that are rewritten element by element and then sorted by a key: the shape every array of
    an archive batch goes through. */
module Lists {
  import opened Orders

  /** Order by a key, keys being compared lexicographically. */
  function ByKey<T>(key: T -> seq<int>): (T, T) -> bool {
    (a, b) => LexLess(key(a), key(b))
  }

  lemma ByKeyIsStrictWeak<T(!new)>(key: T -> seq<int>)
    ensures StrictWeak(ByKey(key))
  {
    var less := ByKey(key);
    forall a, b | less(a, b) ensures !less(b, a) { LexTotal(key(a), key(b)); }
    forall a, b, c | less(a, c) ensures less(a, b) || less(b, c) {
      LexTotal(key(a), key(b));
      if less(b, a) { LexTransitive(key(b), key(a), key(c)); }
    }
  }

  function Map<A, B>(f: A -> B, xs: seq<A>): seq<B> {
    seq(|xs|, i requires 0 <= i < |xs| => f(xs[i]))
  }

  lemma MapConcat<A, B>(f: A -> B, xs: seq<A>, ys: seq<A>)
    ensures Map(f, xs + ys) == Map(f, xs) + Map(f, ys)
  {
  }

  lemma {:induction false} MapPermutes<A, B>(f: A -> B, xs: seq<A>, ys: seq<A>)
    requires multiset(xs) == multiset(ys)
    ensures multiset(Map(f, xs)) == multiset(Map(f, ys))
  {
    assert |xs| == |multiset(xs)| == |multiset(ys)| == |ys|;
    if xs == [] {
    } else {
      assert xs[0] in multiset(ys);
      var j :| 0 <= j < |ys| && ys[j] == xs[0];
      var rest := ys[..j] + ys[j + 1..];
      RemoveOne(xs, ys, j);
      MapPermutes(f, xs[1..], rest);
      assert xs == [xs[0]] + xs[1..] && ys == ys[..j] + [ys[j]] + ys[j + 1..];
      MapConcat(f, [xs[0]], xs[1..]);
      MapConcat(f, ys[..j], ys[j + 1..]);
      MapConcat(f, ys[..j], [ys[j]]);
      MapConcat(f, ys[..j] + [ys[j]], ys[j + 1..]);
      assert Map(f, [xs[0]]) == Map(f, [ys[j]]);
    }
  }

  lemma RemoveOne<A>(xs: seq<A>, ys: seq<A>, j: nat)
    requires xs != [] && multiset(xs) == multiset(ys) && j < |ys| && ys[j] == xs[0]
    ensures multiset(xs[1..]) == multiset(ys[..j] + ys[j + 1..])
  {
    assert xs == [xs[0]] + xs[1..];
    assert ys == ys[..j] + [ys[j]] + ys[j + 1..];
    var l, r := multiset(ys[..j]), multiset(ys[j + 1..]);
    assert multiset(ys) == l + multiset{ys[j]} + r;
    assert multiset(ys[..j] + ys[j + 1..]) == l + r == multiset(ys) - multiset{ys[j]};
    assert multiset(xs[1..]) == multiset(xs) - multiset{xs[0]};
  }

  ghost predicate DistinctKeys<T(!new)>(xs: seq<T>, key: T -> seq<int>) {
    Distinct(Map(key, xs))
  }

  lemma DistinctKeysAt<T(!new)>(xs: seq<T>, key: T -> seq<int>)
    ensures DistinctKeys(xs, key) <==> forall i, j :: 0 <= i < j < |xs| ==> key(xs[i]) != key(xs[j])
  {
    var ks := Map(key, xs);
    assert forall i :: 0 <= i < |xs| ==> ks[i] == key(xs[i]);
  }

  lemma DistinctKeysPermute<T(!new)>(xs: seq<T>, ys: seq<T>, key: T -> seq<int>)
    requires multiset(xs) == multiset(ys)
    ensures DistinctKeys(xs, key) <==> DistinctKeys(ys, key)
  {
    MapPermutes(key, xs, ys);
    DistinctMultiset(Map(key, xs));
    DistinctMultiset(Map(key, ys));
  }

  lemma DistinctKeysComparable<T(!new)>(xs: seq<T>, key: T -> seq<int>)
    requires DistinctKeys(xs, key)
    ensures Comparable(xs, ByKey(key))
  {
    DistinctKeysAt(xs, key);
    forall x, y | x in xs && y in xs && x != y ensures ByKey(key)(x, y) || ByKey(key)(y, x) {
      var i :| 0 <= i < |xs| && xs[i] == x;
      var j :| 0 <= j < |xs| && xs[j] == y;
      LexTotal(key(x), key(y));
    }
  }

  lemma SameMembers<T>(xs: seq<T>, ys: seq<T>)
    requires multiset(xs) == multiset(ys)
    ensures |xs| == |ys| && forall x :: x in xs <==> x in ys
  {
    assert |xs| == |multiset(xs)| == |multiset(ys)| == |ys|;
    forall x ensures x in xs <==> x in ys { assert x in multiset(xs) <==> x in multiset(ys); }
  }

  /** Rewritten by `tidy` and sorted by `key`. */
  function Canon<T>(tidy: T -> T, key: T -> seq<int>, xs: seq<T>): seq<T> {
    Sort(Map(tidy, xs), ByKey(key))
  }

  lemma CanonOrder<T(!new)>(tidy: T -> T, key: T -> seq<int>, xs: seq<T>)
    requires DistinctKeys(Map(tidy, xs), key)
    ensures multiset(Canon(tidy, key, xs)) == multiset(Map(tidy, xs))
    ensures DistinctKeys(Canon(tidy, key, xs), key)
    ensures forall i, j :: 0 <= i < j < |Canon(tidy, key, xs)| ==>
              LexLess(key(Canon(tidy, key, xs)[i]), key(Canon(tidy, key, xs)[j]))
  {
    var c := Canon(tidy, key, xs);
    ByKeyIsStrictWeak(key);
    SortPermutes(Map(tidy, xs), ByKey(key));
    SortSorts(Map(tidy, xs), ByKey(key));
    DistinctKeysPermute(Map(tidy, xs), c, key);
    DistinctKeysAt(c, key);
    forall i, j | 0 <= i < j < |c| ensures LexLess(key(c[i]), key(c[j])) {
      assert !ByKey(key)(c[j], c[i]);
      LexTotal(key(c[i]), key(c[j]));
    }
  }

  /** Lists that hold the same elements after rewriting have one canonical form. */
  lemma CanonPermutes<T(!new)>(tidy: T -> T, key: T -> seq<int>, xs: seq<T>, ys: seq<T>)
    requires multiset(Map(tidy, xs)) == multiset(Map(tidy, ys))
    requires DistinctKeys(Map(tidy, xs), key)
    ensures Canon(tidy, key, xs) == Canon(tidy, key, ys)
  {
    ByKeyIsStrictWeak(key);
    DistinctKeysComparable(Map(tidy, xs), key);
    SortCanonical(Map(tidy, xs), Map(tidy, ys), ByKey(key));
  }

  lemma CanonIdempotent<T(!new)>(tidy: T -> T, key: T -> seq<int>, xs: seq<T>)
    requires DistinctKeys(Map(tidy, xs), key)
    requires forall x :: x in xs ==> tidy(tidy(x)) == tidy(x)
    ensures Map(tidy, Canon(tidy, key, xs)) == Canon(tidy, key, xs)
    ensures Canon(tidy, key, Canon(tidy, key, xs)) == Canon(tidy, key, xs)
  {
    var c := Canon(tidy, key, xs);
    CanonOrder(tidy, key, xs);
    SameMembers(c, Map(tidy, xs));
    forall i | 0 <= i < |c| ensures tidy(c[i]) == c[i] {
      assert c[i] in Map(tidy, xs);
      var j :| 0 <= j < |xs| && Map(tidy, xs)[j] == c[i];
    }
    assert Map(tidy, c) == c;
    ByKeyIsStrictWeak(key);
    DistinctKeysComparable(c, key);
    forall i, j | 0 <= i < j < |c| ensures !ByKey(key)(c[j], c[i]) { LexTotal(key(c[i]), key(c[j])); }
    SortIdempotent(c, ByKey(key));
  }

  /** Every element is valid once rewritten, and no key occurs twice. */
  ghost predicate Passes<T(!new)>(xs: seq<T>, tidy: T -> T, ok: T -> bool, key: T -> seq<int>) {
    (forall x :: x in xs ==> ok(tidy(x))) && DistinctKeys(Map(tidy, xs), key)
  }

  /** The loop each array of a batch goes through: rewrite an element in place, validate it, and
      reject a repeated key; then sort. */
  method TidyAll<T(!new)>(xs: seq<T>, tidy: T -> T, ok: T -> bool, key: T -> seq<int>) returns (r: Option<seq<T>>)
    ensures r.Some? <==> Passes(xs, tidy, ok, key)
    ensures r.Some? ==> r.value == Canon(tidy, key, xs)
  {
    var list := xs;
    var seen: set<seq<int>> := {};
    DistinctKeysAt(Map(tidy, xs), key);
    for i := 0 to |xs|
      invariant |list| == |xs|
      invariant forall j :: 0 <= j < |xs| ==> list[j] == if j < i then tidy(xs[j]) else xs[j]
      invariant forall j :: 0 <= j < i ==> ok(tidy(xs[j])) && key(tidy(xs[j])) in seen
      invariant forall k :: k in seen ==> exists j :: 0 <= j < i && key(tidy(xs[j])) == k
      invariant forall j, k :: 0 <= j < k < i ==> key(tidy(xs[j])) != key(tidy(xs[k]))
    {
      list := list[i := tidy(list[i])];
      if !ok(list[i]) {
        assert xs[i] in xs;
        return None;
      }
      if key(list[i]) in seen {
        ghost var j :| 0 <= j < i && key(tidy(xs[j])) == key(list[i]);
        assert Map(tidy, xs)[j] == tidy(xs[j]) && Map(tidy, xs)[i] == tidy(xs[i]);
        return None;
      }
      seen := seen + {key(list[i])};
    }
    assert list == Map(tidy, xs);
    r := Some(Sort(list, ByKey(key)));
  }
}
