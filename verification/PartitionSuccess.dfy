/** When the partition recursion succeeds: against a server that answers every call from one fixed set of runs, the walk
    within a stated budget misses nothing unless some bucket that cannot be halved is full. */
module PartitionSuccess {
  import opened Orders
  import opened Window
  import opened PartitionTree
  import opened Enumerate

  /** Calls never fail, probes count exactly, and a range below the ceiling is listed whole. */
  ghost predicate Steady(w: World, server: set<Run>) {
    && Honest(w, server)
    && (forall k: nat :: !w.cancelled(k))
    && (forall k: nat, q: Interval :: w.probe(k, q).ProbeOk?)
    && (forall k: nat, q: Interval :: |InRange(server, q)| < 1000 ==> ListsAll(w.list(k, q), server, q))
  }

  ghost predicate ListsAll(l: Listing, server: set<Run>, q: Interval) {
    l.Listed? && !l.truncated && |l.runs| == |InRange(server, q)|
  }

  /** No window inside `cover` that is too short to be halved reaches the ceiling. */
  ghost predicate Sparse(server: set<Run>, minimum: int, cover: Interval) {
    forall q: Interval :: TooShort(q, minimum) && cover.from <= q.from && q.to <= cover.to ==> |InRange(server, q)| < 1000
  }

  ghost predicate TooShort(q: Interval, minimum: int) {
    AlignedInterval(q) && (q.to - q.from == SECOND || Sub(q.to, q.from) <= minimum)
  }

  // ----- The budget -----

  /** How often a window of so many seconds can be halved on end. */
  ghost function Depth(seconds: nat): nat {
    if seconds <= 1 then 0 else 1 + Depth(seconds - Halved(seconds))
  }

  ghost function Halved(seconds: nat): nat {
    (if seconds < MAX_DURATION / SECOND then seconds else MAX_DURATION / SECOND) / 2
  }

  lemma {:induction false} DepthGrows(a: nat, b: nat)
    requires a <= b
    ensures Depth(a) <= Depth(b)
    decreases b
  {
    if 1 < a { DepthGrows(a - Halved(a), b - Halved(b)); }
  }

  ghost function Pow2(k: nat): nat { if k == 0 then 1 else 2 * Pow2(k - 1) }

  /** The depth is at most the logarithm of the width, rounded up. */
  lemma {:induction false} DepthIsLogarithm(seconds: nat, k: nat)
    requires seconds <= MAX_DURATION / SECOND && seconds <= Pow2(k)
    ensures Depth(seconds) <= k
  {
    if seconds > 1 { DepthIsLogarithm(seconds - Halved(seconds), k - 1); }
  }

  /** Runs inside the window weigh twice and runs on its ends once, so that both halves together weigh as much. */
  ghost function Weight(server: set<Run>, q: Interval): nat {
    |InRange(server, q)| + |InRange(server, Interval(q.from + 1, q.to - 1))|
  }

  lemma Cut(server: set<Run>, from: int, m: int, to: int)
    requires from <= m + 1 && m <= to
    ensures |InRange(server, Interval(from, to))|
         == |InRange(server, Interval(from, m))| + |InRange(server, Interval(m + 1, to))|
  {
    var all, left, right := InRange(server, Interval(from, to)), InRange(server, Interval(from, m)), InRange(server, Interval(m + 1, to));
    assert all == left + right && left !! right;
  }

  lemma HalvesWeigh(server: set<Run>, q: Interval, m: int)
    requires q.from < m < q.to
    ensures Weight(server, q) == Weight(server, Interval(q.from, m)) + Weight(server, Interval(m, q.to))
  {
    Cut(server, q.from, m, q.to);
    Cut(server, q.from + 1, m - 1, q.to - 1);
    Cut(server, m, m, q.to);
    Cut(server, m, m, q.to - 1);
  }

  /** As many probes as a window of this depth and weight can take. */
  ghost function Budget(server: set<Run>, q: Interval): nat {
    1 + 2 * (Depth(Seconds(q)) * (Weight(server, q) / CEILING))
  }

  lemma HalvesCost(server: set<Run>, q: Interval, minimum: int)
    requires AlignedInterval(q) && SplitWindow(q, minimum).Some? && |InRange(server, q)| >= CEILING
    ensures var (left, right) := SplitWindow(q, minimum).value;
      1 + Budget(server, left) + Budget(server, right) <= Budget(server, q)
  {
    var (left, right) := SplitWindow(q, minimum).value;
    var d, k := Depth(Seconds(q)), Seconds(q);
    HalvesAreHalves(q, minimum);
    HalvesInSeconds(q, minimum);
    DepthGrows(Seconds(left), Seconds(right));
    HalvesWeigh(server, q, left.to);
    Costs(d, Depth(Seconds(left)), Depth(Seconds(right)), Weight(server, left), Weight(server, right));
  }

  lemma HalvesInSeconds(q: Interval, minimum: int)
    requires AlignedInterval(q) && SplitWindow(q, minimum).Some?
    ensures var (left, right) := SplitWindow(q, minimum).value;
      1 < Seconds(q) && Seconds(right) == Seconds(q) - Halved(Seconds(q)) && Seconds(left) <= Seconds(right)
  {
    var (left, right) := SplitWindow(q, minimum).value;
    HalvesAreHalves(q, minimum);
    SplitsWhen(q, minimum);
    WholeSeconds(q);
    WholeSeconds(left);
    WholeSeconds(right);
  }

  lemma Costs(d: nat, l: nat, r: nat, x: nat, y: nat)
    requires l < d && r < d && x + y >= CEILING
    ensures 1 + (1 + 2 * (l * (x / CEILING))) + (1 + 2 * (r * (y / CEILING))) <= 1 + 2 * (d * ((x + y) / CEILING))
  {
    var a, b, n := x / CEILING, y / CEILING, (x + y) / CEILING;
    assert a + b <= n && n >= 1;
    Times(l, d - 1, a);
    Times(r, d - 1, b);
    Times(a + b, n, d - 1);
    Shares(d - 1, a, b);
    OneLess(d, n);
    CostsInAll(l * a, r * b, (d - 1) * a, (d - 1) * b, (d - 1) * n, d * n, n);
  }

  lemma CostsInAll(la: nat, rb: nat, ea: nat, eb: nat, en: nat, dn: nat, n: nat)
    requires la <= ea && rb <= eb && ea + eb <= en && dn == en + n && n >= 1
    ensures 1 + (1 + 2 * la) + (1 + 2 * rb) <= 1 + 2 * dn
  {
  }

  lemma Shares(e: nat, a: nat, b: nat)
    ensures e * a + e * b == e * (a + b)
  {
  }

  lemma OneLess(d: nat, n: nat)
    requires d > 0
    ensures d * n == (d - 1) * n + n
  {
  }

  lemma Times(a: nat, b: nat, c: nat)
    requires a <= b
    ensures a * c <= b * c && c * a <= c * b
  {
  }

  // ----- Success -----

  /** The walk ran to the end within its budget and marked nothing. */
  ghost predicate Clean(o: Outcome, work: nat, budget: nat) {
    !o.stopped && o.gaps == [] && o.work <= work + budget
  }

  lemma {:induction false} WalkSucceeds(p: Limits, w: World, server: set<Run>, window: Interval, work: nat)
    requires AlignedInterval(window) && Steady(w, server) && Sparse(server, p.minBucket, window)
    requires work + Budget(server, window) <= p.maxPartitions
    ensures Clean(Walk(p, w, window, work), work, Budget(server, window))
    decreases window.Width()
  {
    var n := |InRange(server, window)|;
    var node := NewNode(window).(total := n);
    assert w.probe(work + 1, window) == ProbeOk(n);
    if n < CEILING {
      var l := w.list(work + 1, window);
      assert ListsAll(l, server, window) && HonestRows(l, server, window);
      assert Walk(p, w, window, work) == Leaf(node, l.runs, n, work + 1);
    } else {
      assert Walk(p, w, window, work) == Deeper(p, w, node, work + 1);
      SparseSplits(server, p.minBucket, window);
      HalvesCost(server, window, p.minBucket);
      HalvesAreHalves(window, p.minBucket);
      var halves := SplitWindow(window, p.minBucket).value;
      WalkSucceeds(p, w, server, halves.0, work + 1);
      WalkSucceeds(p, w, server, halves.1, Walk(p, w, halves.0, work + 1).work);
    }
  }

  lemma SparseSplits(server: set<Run>, minimum: int, window: Interval)
    requires AlignedInterval(window) && Sparse(server, minimum, window) && |InRange(server, window)| >= CEILING
    ensures SplitWindow(window, minimum).Some?
  {
    SplitsWhen(window, minimum);
    WholeSeconds(window);
    assert !TooShort(window, minimum);
  }

  /** A budget logarithmic in the width, for each five hundred runs, is enough: if no bucket too short to be halved
      reaches the ceiling, the result is the requested runs and nothing is marked. */
  lemma EnumerationSucceeds(p: Limits, w: World, server: set<Run>, requested: Interval)
    requires requested.Valid() && Steady(w, server) && WellFormedServer(server)
    requires Sparse(server, p.minBucket, SecondCover(requested))
    requires Enough(p, server, SecondCover(requested))
    ensures var r := Expected(w, Walk(p, w, SecondCover(requested), 0), requested);
      && r.Enumerated? && r.gaps == [] && r.duplicates == 0
      && Distinct(r.runs) && InOrder(r.runs)
      && (forall x :: x in r.runs <==> x in server && requested.Contains(x.created))
  {
    var cover := SecondCover(requested);
    CoverSucceeds(p, w, server, requested);
    GapsAreTheWalks(p, w, server, requested);
    ResultIsComplete(w, p, server, requested, Expected(w, Walk(p, w, cover, 0), requested));
  }

  lemma CoverSucceeds(p: Limits, w: World, server: set<Run>, requested: Interval)
    requires requested.Valid() && Steady(w, server)
    requires Sparse(server, p.minBucket, SecondCover(requested)) && Enough(p, server, SecondCover(requested))
    ensures !Walk(p, w, SecondCover(requested), 0).stopped && Walk(p, w, SecondCover(requested), 0).gaps == []
  {
    SecondCoverIsLeast(requested);
    EnoughIsBudget(p, server, SecondCover(requested));
    WalkSucceeds(p, w, server, SecondCover(requested), 0);
  }

  lemma GapsAreTheWalks(p: Limits, w: World, server: set<Run>, requested: Interval)
    requires requested.Valid() && Steady(w, server) && WellFormedServer(server)
    ensures var o := Walk(p, w, SecondCover(requested), 0);
      var r := Expected(w, o, requested);
      r.gaps == o.gaps && (!o.stopped ==> r.Enumerated?)
  {
    var o := Walk(p, w, SecondCover(requested), 0);
    Enumerate.Complete(p, w, server, requested);
    assert o.gaps + [] == o.gaps;
  }

  ghost predicate Enough(p: Limits, server: set<Run>, cover: Interval) {
    p.maxPartitions >= 1 + 2 * (Depth(Seconds(cover)) * (|InRange(server, cover)| / 500))
  }

  lemma EnoughIsBudget(p: Limits, server: set<Run>, q: Interval)
    requires Enough(p, server, q)
    ensures Budget(server, q) <= p.maxPartitions
  {
    var n := |InRange(server, q)|;
    assert |InRange(server, Interval(q.from + 1, q.to - 1))| <= n by {
      SubsetCount(InRange(server, Interval(q.from + 1, q.to - 1)), InRange(server, q));
    }
    assert Weight(server, q) / CEILING <= n / 500;
    Times(Weight(server, q) / CEILING, n / 500, Depth(Seconds(q)));
  }

  lemma SubsetCount<T>(a: set<T>, b: set<T>)
    requires a <= b
    ensures |a| <= |b|
  {
    assert b == a + (b - a);
  }

  // ----- Failure -----

  /** A leaf that is not marked was listed below the ceiling. */
  lemma {:induction false} CompleteIsBelow(p: Limits, w: World, server: set<Run>, window: Interval, work: nat)
    requires Honest(w, server)
    ensures forall l :: l in Leaves(Walk(p, w, window, work).node) && !Marked(l) ==> |InRange(server, l.window)| < CEILING
    decreases window.Width(), 1
  {
    if Walk(p, w, window, work).node.status.Split? {
      var node := DeeperNode(p, w, window, work);
      CompleteIsBelowDeeper(p, w, server, node, work + 1);
    } else {
      WindowIsKept(p, w, window, work);
      var l := w.list(work + 1, window);
      assert l.Listed? ==> HonestRows(l, server, window);
    }
  }

  lemma {:induction false} CompleteIsBelowDeeper(p: Limits, w: World, server: set<Run>, node: Node, work: nat)
    requires Honest(w, server)
    ensures forall l :: l in Leaves(Deeper(p, w, node, work).node) && !Marked(l) ==> |InRange(server, l.window)| < CEILING
    decreases node.window.Width(), 0
  {
    var halves := SplitWindow(node.window, p.minBucket);
    if halves.Some? {
      var left := Walk(p, w, halves.value.0, work);
      CompleteIsBelow(p, w, server, halves.value.0, work);
      if left.stopped {
        TwoChildren(left.node, left.node);
      } else {
        var right := Walk(p, w, halves.value.1, left.work);
        CompleteIsBelow(p, w, server, halves.value.1, left.work);
        TwoChildren(left.node, right.node);
      }
    }
  }

  /** Whatever the server answers to calls, a walk without gaps means that every inclusive second is below the ceiling. */
  lemma NoGapsMeansSparse(p: Limits, w: World, server: set<Run>, cover: Interval, t: int)
    requires AlignedInterval(cover) && Honest(w, server) && Walk(p, w, cover, 0).gaps == []
    requires Aligned(t) && cover.from <= t < cover.to
    ensures |InRange(server, Interval(t, t + SECOND))| < 1000
  {
    var o := Walk(p, w, cover, 0);
    var leaves := Leaves(o.node);
    LeavesTile(p, w, cover, 0);
    EveryMarkHasAGap(p, w, cover, 0);
    OwnedIsMarked(o.gaps, leaves);
    CompleteIsBelow(p, w, server, cover, 0);
    var k := TileOf(leaves, cover.from, cover.to, t);
    var l := leaves[k].window;
    TilesAreAligned(leaves, cover.from, cover.to);
    assert leaves[k] in leaves && !Marked(leaves[k]);
    AlignedGap(t + SECOND, l.to) by { AlignedShift(t, 1); }
    SubsetCount(InRange(server, Interval(t, t + SECOND)), InRange(server, l));
  }

  lemma {:induction false} TilesAreAligned(ls: seq<Node>, from: int, to: int)
    requires Tiles(ls, from, to)
    ensures forall l :: l in ls ==> AlignedInterval(l.window)
  {
    if ls != [] { TilesAreAligned(ls[1..], ls[0].window.to, to); }
  }

  /** Every inclusive second of the cover holds fewer runs than the ceiling. */
  ghost predicate SecondsBelow(server: set<Run>, cover: Interval) {
    forall t :: Aligned(t) && cover.from <= t < cover.to ==> |InRange(server, Interval(t, t + SECOND))| < 1000
  }

  lemma SecondsBelowIsSparse(server: set<Run>, minimum: int, cover: Interval)
    requires minimum <= SECOND && SecondsBelow(server, cover)
    ensures Sparse(server, minimum, cover)
  {
    forall q: Interval | TooShort(q, minimum) && cover.from <= q.from && q.to <= cover.to ensures |InRange(server, q)| < 1000 {
      WholeSeconds(q);
      assert q == Interval(q.from, q.from + SECOND);
    }
  }

  /** With buckets of one second, which is the default, and the budget above, the enumeration is free of gaps exactly
      when every inclusive second of the cover holds fewer runs than the ceiling. */
  lemma SucceedsExactly(p: Limits, w: World, server: set<Run>, requested: Interval)
    requires requested.Valid() && Steady(w, server) && WellFormedServer(server)
    requires p.minBucket <= SECOND && Enough(p, server, SecondCover(requested))
    ensures Expected(w, Walk(p, w, SecondCover(requested), 0), requested).gaps == [] <==> SecondsBelow(server, SecondCover(requested))
  {
    var cover := SecondCover(requested);
    SecondCoverIsLeast(requested);
    if Expected(w, Walk(p, w, cover, 0), requested).gaps == [] {
      forall t | Aligned(t) && cover.from <= t < cover.to ensures |InRange(server, Interval(t, t + SECOND))| < 1000 {
        NoGapsMeansSparse(p, w, server, cover, t);
      }
    }
    if SecondsBelow(server, cover) {
      SecondsBelowIsSparse(server, p.minBucket, cover);
      EnumerationSucceeds(p, w, server, requested);
    }
  }

  /** The default limits serve any request of up to 2^25 seconds, more than a year, with fewer than 82,000 runs. */
  lemma DefaultsSuffice(w: World, server: set<Run>, requested: Interval, maxPartitions: int, minBucket: int)
    requires requested.Valid() && Steady(w, server) && WellFormedServer(server)
    requires maxPartitions <= 0 && minBucket <= 0
    requires Seconds(SecondCover(requested)) <= 0x200_0000 && |InRange(server, SecondCover(requested))| < 82_000
    ensures Expected(w, Walk(Defaults(maxPartitions, minBucket), w, SecondCover(requested), 0), requested).gaps == [] <==>
      SecondsBelow(server, SecondCover(requested))
  {
    DefaultIsEnough(server, SecondCover(requested));
    SucceedsExactly(Defaults(maxPartitions, minBucket), w, server, requested);
  }

  lemma DefaultIsEnough(server: set<Run>, cover: Interval)
    requires Seconds(cover) <= 0x200_0000 && |InRange(server, cover)| < 82_000
    ensures Enough(Limits(8192, SECOND), server, cover)
  {
    assert Pow2(7) == 0x80 && Pow2(13) == 0x2000 && Pow2(19) == 0x8_0000 && Pow2(25) == 0x200_0000;
    DepthIsLogarithm(Seconds(cover), 25);
    AtMost(Depth(Seconds(cover)), |InRange(server, cover)| / 500);
  }

  lemma AtMost(d: nat, n: nat)
    requires d <= 25 && n <= 163
    ensures 1 + 2 * (d * n) <= 8192
  {
    Times(d, 25, n);
  }

  // ----- Why a leaf is marked -----

  /** The walk got as far as asking for this window. */
  ghost predicate Asked(p: Limits, w: World, work: nat) { !w.cancelled(work) && work < p.maxPartitions }

  /** The probe counted fewer runs than the ceiling, so the window is listed. */
  ghost predicate Counted(p: Limits, w: World, window: Interval, work: nat) {
    Asked(p, w, work) && w.probe(work + 1, window).ProbeOk? && 0 <= w.probe(work + 1, window).total < 1000
  }

  /** The listing came back whole. */
  ghost predicate Obtained(p: Limits, w: World, window: Interval, work: nat) {
    var l := w.list(work + 1, window);
    Counted(p, w, window, work) && l.Listed? && !l.truncated && l.total < 1000
  }

  /** Each mark on a leaf, and the exact answers of the server that lead to it. */
  lemma LeafIsMarkedExactly(p: Limits, w: World, window: Interval, work: nat)
    requires !Walk(p, w, window, work).node.status.Split?
    ensures var o, probe, l := Walk(p, w, window, work), w.probe(work + 1, window), w.list(work + 1, window);
      && (Gap(Cancelled, 0) in o.gaps <==> w.cancelled(work))
      && (Gap(PartitionLimit, 0) in o.gaps <==> !w.cancelled(work) && p.maxPartitions <= work)
      && (Gap(ApiError, 0) in o.gaps <==>
           Asked(p, w, work) && (probe.ProbeFailed? || (Counted(p, w, window, work) && l.ListFailed?)))
      && (Gap(MalformedResponse, 0) in o.gaps <==> Asked(p, w, work) && probe.ProbeOk? && probe.total < 0)
      && (Gap(LiveStateRace, 0) in o.gaps <==> Obtained(p, w, window, work) && l.total != probe.total)
      && (Gap(Pagination, 0) in o.gaps <==> Obtained(p, w, window, work) && |l.runs| < l.total)
      && (o.node.status.Complete? <==> Obtained(p, w, window, work) && probe.total == l.total <= |l.runs|)
      && (o.stopped <==>
           (|| w.cancelled(work)
            || (Asked(p, w, work) && probe.ProbeFailed? && probe.cancelled)
            || (Counted(p, w, window, work) && l.ListFailed? && l.cancelled)))
  {
  }

  /** A window is given up as too dense exactly when the ceiling is reached and it cannot be halved. */
  lemma SaturatedExactly(p: Limits, w: World, window: Interval, work: nat)
    requires AlignedInterval(window)
    ensures Walk(p, w, window, work).node.status.Saturated? <==>
      && TooShort(window, p.minBucket) && Asked(p, w, work) && w.probe(work + 1, window).ProbeOk?
      && (1000 <= w.probe(work + 1, window).total
           || (Counted(p, w, window, work) && w.list(work + 1, window).Listed? && !Obtained(p, w, window, work)))
  {
    SplitsWhen(window, p.minBucket);
    WholeSeconds(window);
  }
}
