/** Incremental archive planning (internal/collect/window.go): which window of new parent runs to
    enumerate, and which watched runs to refresh or to stop watching. */
module Planning {
  import opened Orders
  import opened Window

  const LOOKBACK: int := 65 * 24 * 3600 * SECOND
  const OVERLAP: int := 15 * 60 * SECOND

  /** An absent refresh time is the zero instant. */
  datatype WatchedRun = WatchedRun(repository: int, run: int, created: int, lastRefresh: int, finalComplete: bool)

  datatype Plan = Plan(window: Interval, refresh: seq<WatchedRun>, evict: seq<WatchedRun>)

  predicate Identified(r: WatchedRun) { r.repository > 0 && r.run > 0 && r.created != 0 }

  predicate NeedsRefresh(r: WatchedRun, cutoff: int) {
    cutoff < r.created + LOOKBACK || !r.finalComplete || r.lastRefresh < r.created + LOOKBACK
  }

  predicate WatchedLess(a: WatchedRun, b: WatchedRun) {
    if a.repository == b.repository then a.run < b.run else a.repository < b.repository
  }

  lemma WatchedLessIsStrictWeak()
    ensures StrictWeak(WatchedLess)
  {
  }

  /** The window of parent discovery for a watermark (0 when there is none) and a cutoff. */
  function DiscoveryWindow(watermark: int, cutoff: int): Interval {
    Interval(if watermark == 0 then cutoff - LOOKBACK else watermark - OVERLAP, cutoff)
  }

  predicate CanPlan(watermark: int, cutoff: int) {
    cutoff != 0 && DiscoveryWindow(watermark, cutoff).from < cutoff
  }

  /** Every watched run is in exactly one list, in (repository, run) order, by its own eligibility. */
  ghost predicate Divides(plan: Plan, watched: seq<WatchedRun>, cutoff: int) {
    && multiset(plan.refresh) + multiset(plan.evict) == multiset(watched)
    && (forall r :: r in plan.refresh ==> NeedsRefresh(r, cutoff))
    && (forall r :: r in plan.evict ==> !NeedsRefresh(r, cutoff))
    && Sorted(plan.refresh, WatchedLess) && Sorted(plan.evict, WatchedLess)
  }

  method PlanArchive(watermark: int, cutoff: int, watched: seq<WatchedRun>) returns (r: Option<Plan>)
    ensures r.Some? <==> CanPlan(watermark, cutoff) && forall x :: x in watched ==> Identified(x)
    ensures r.Some? ==> r.value.window == DiscoveryWindow(watermark, cutoff) && Divides(r.value, watched, cutoff)
  {
    if cutoff == 0 {
      return None;
    }
    var from := cutoff - LOOKBACK;
    if watermark != 0 {
      from := watermark - OVERLAP;
    }
    if !(from < cutoff) {
      return None;
    }
    var refresh, evict := [], [];
    for i := 0 to |watched|
      invariant forall x :: x in watched[..i] ==> Identified(x)
      invariant multiset(refresh) + multiset(evict) == multiset(watched[..i])
      invariant forall x :: x in refresh ==> NeedsRefresh(x, cutoff)
      invariant forall x :: x in evict ==> !NeedsRefresh(x, cutoff)
    {
      var run := watched[i];
      assert watched[..i + 1] == watched[..i] + [run];
      if run.repository <= 0 || run.run <= 0 || run.created == 0 {
        assert run in watched;
        return None;
      }
      var boundary := run.created + LOOKBACK;
      if cutoff < boundary || !run.finalComplete || run.lastRefresh < boundary {
        refresh := refresh + [run];
        continue;
      }
      evict := evict + [run];
    }
    assert watched[..|watched|] == watched;
    WatchedLessIsStrictWeak();
    SortSorts(refresh, WatchedLess);
    SortSorts(evict, WatchedLess);
    SortPermutes(refresh, WatchedLess);
    SortPermutes(evict, WatchedLess);
    SortMembers(refresh, WatchedLess);
    SortMembers(evict, WatchedLess);
    r := Some(Plan(Interval(from, cutoff), Sort(refresh, WatchedLess), Sort(evict, WatchedLess)));
  }

  /** `PlanIncrementalArchive`: the first collection takes the whole lookback before the requested
      start; a later one may not reach back before the requested start. */
  method PlanIncrementalArchive(requested: Interval, watermark: int, watched: seq<WatchedRun>) returns (r: Option<Plan>)
    ensures r.Some? ==> requested.Valid() && Divides(r.value, watched, requested.to)
    ensures r.Some? && watermark == 0 ==> r.value.window == Interval(requested.from - LOOKBACK, requested.to)
    ensures r.Some? && watermark != 0 ==> r.value.window == ResumeWindow(requested, watermark)
    ensures r.Some? <==>
              && requested.Valid() && (forall x :: x in watched ==> Identified(x))
              && (watermark != 0 ==> ResumeWindow(requested, watermark).from < requested.to)
  {
    if !requested.Valid() {
      return None;
    }
    if watermark == 0 {
      var plan := PlanArchive(0, requested.to, watched);
      if plan.None? { return None; }
      return Some(plan.value.(window := Interval(requested.from - LOOKBACK, requested.to)));
    }
    var plan := PlanArchive(watermark, requested.to, watched);
    if plan.None? { return None; }
    var window := plan.value.window;
    if window.from < requested.from {
      window := Interval(requested.from, window.to);
    }
    if !(window.from < window.to) {
      return None;
    }
    return Some(plan.value.(window := window));
  }

  function ResumeWindow(requested: Interval, watermark: int): Interval {
    var from := watermark - OVERLAP;
    Interval(if from < requested.from then requested.from else from, requested.to)
  }

  /** A plan lets go of exactly those runs whose last attempt is complete, whose 65 days are over, and that were read
      again since: every other watched run is refreshed. */
  lemma LetGoExactly(plan: Plan, watched: seq<WatchedRun>, cutoff: int, r: WatchedRun)
    requires Divides(plan, watched, cutoff) && r in watched
    ensures r in plan.evict <==> r.finalComplete && r.created + 5_616_000 * SECOND <= cutoff && r.created + 5_616_000 * SECOND <= r.lastRefresh
    ensures r in plan.refresh <==> r !in plan.evict
  {
    assert r in multiset(watched);
    assert multiset(watched)[r] == multiset(plan.refresh)[r] + multiset(plan.evict)[r];
    assert r in plan.refresh || r in plan.evict;
    assert LOOKBACK == 5_616_000 * SECOND;
  }

  /** Both lists ascend by repository and by run within one. */
  lemma WatchedInOrder(plan: Plan, watched: seq<WatchedRun>, cutoff: int, list: seq<WatchedRun>)
    requires Divides(plan, watched, cutoff) && (list == plan.refresh || list == plan.evict)
    ensures forall i, j :: 0 <= i < j < |list| ==>
      list[i].repository < list[j].repository || (list[i].repository == list[j].repository && list[i].run <= list[j].run)
  {
    forall i, j | 0 <= i < j < |list|
      ensures list[i].repository < list[j].repository || (list[i].repository == list[j].repository && list[i].run <= list[j].run)
    {
      assert !WatchedLess(list[j], list[i]);
    }
  }

  /** Discovery ends at the cutoff and begins 15 minutes before the watermark or, without one, 65 days before. */
  lemma DiscoveryReaches(watermark: int, cutoff: int)
    ensures DiscoveryWindow(watermark, cutoff).to == cutoff
    ensures watermark != 0 ==> DiscoveryWindow(watermark, cutoff).from + 900 * SECOND == watermark
    ensures watermark == 0 ==> DiscoveryWindow(watermark, cutoff).from + 5_616_000 * SECOND == cutoff
  {
  }

  // ----- Across plans -----

  /** A run that one plan lets go stays let go by every plan with a later cutoff. */
  lemma EvictionPersists(a: Plan, b: Plan, watched: seq<WatchedRun>, cutoff: int, later: int)
    requires cutoff <= later && Divides(a, watched, cutoff) && Divides(b, watched, later)
    ensures multiset(a.evict) <= multiset(b.evict)
    ensures multiset(b.refresh) <= multiset(a.refresh)
  {
    forall r ensures multiset(a.evict)[r] <= multiset(b.evict)[r] && multiset(b.refresh)[r] <= multiset(a.refresh)[r] {
      assert multiset(a.refresh)[r] + multiset(a.evict)[r] == multiset(watched)[r];
      assert multiset(b.refresh)[r] + multiset(b.evict)[r] == multiset(watched)[r];
      assert r in multiset(a.evict) ==> r in a.evict;
      assert r in multiset(b.refresh) ==> r in b.refresh;
      assert NeedsRefresh(r, later) ==> NeedsRefresh(r, cutoff);
    }
  }

  /** Plans made one after the other, each resuming from the cutoff of the one before. */
  ghost predicate Chain(cutoffs: seq<int>, first: int) {
    && (forall k :: 0 <= k < |cutoffs| ==> CanPlan(Watermark(cutoffs, first, k), cutoffs[k]))
  }

  function Watermark(cutoffs: seq<int>, first: int, k: nat): int
    requires k < |cutoffs|
  {
    if k == 0 then first else cutoffs[k - 1]
  }

  function ChainWindow(cutoffs: seq<int>, first: int, k: nat): Interval
    requires k < |cutoffs|
  {
    DiscoveryWindow(Watermark(cutoffs, first, k), cutoffs[k])
  }

  /** The windows of a chain leave no hole between the start of the first and the end of the last. */
  lemma {:induction false} ChainHasNoHole(cutoffs: seq<int>, first: int, t: int) returns (k: nat)
    requires cutoffs != [] && Chain(cutoffs, first)
    requires ChainWindow(cutoffs, first, 0).from <= t < cutoffs[|cutoffs| - 1]
    ensures k < |cutoffs| && ChainWindow(cutoffs, first, k).Contains(t)
  {
    var n := |cutoffs| - 1;
    assert CanPlan(Watermark(cutoffs, first, n), cutoffs[n]);
    if n == 0 || t >= cutoffs[n - 1] - OVERLAP {
      k := n;
    } else {
      var shorter := cutoffs[..n];
      assert Chain(shorter, first) by {
        forall j | 0 <= j < n ensures CanPlan(Watermark(shorter, first, j), shorter[j]) {
          assert Watermark(shorter, first, j) == Watermark(cutoffs, first, j);
        }
      }
      k := ChainHasNoHole(shorter, first, t);
      assert Watermark(shorter, first, k) == Watermark(cutoffs, first, k);
    }
  }

  /** Resuming with a requested start may leave a hole: it does not exactly when the requested start
      is no later than the watermark. */
  lemma ResumeHoleFreeExactly(requested: Interval, watermark: int)
    requires requested.Valid() && ResumeWindow(requested, watermark).from < requested.to
    ensures (forall t :: watermark <= t < requested.to ==> ResumeWindow(requested, watermark).Contains(t))
       <==> requested.from <= watermark
  {
    if watermark < requested.from {
      assert watermark <= watermark < requested.to && !ResumeWindow(requested, watermark).Contains(watermark);
    }
  }
}
