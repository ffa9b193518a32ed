/** Recursive partitioning of a time window around the 1,000-result search ceiling
    (internal/collect/window.go). Instants are nanoseconds since the zero instant, which is 0. */
module Window {
  import opened Orders

  const SECOND: int := 1_000_000_000
  const MAX_DURATION: int := 0x7FFF_FFFF_FFFF_FFFF
  const CEILING: int := 1000
  const DEFAULT_MAX_PARTITIONS: nat := 8192

  /** A half-open interval. */
  datatype Interval = Interval(from: int, to: int) {
    predicate Contains(t: int) { from <= t < to }

    ghost function Width(): nat { if from < to then to - from else 0 }

    /** What `NewInterval` accepts. */
    predicate Valid() { from != 0 && to != 0 && from < to }
  }

  /** `Time.Sub`: a duration is a saturating 64-bit count of nanoseconds. */
  function Sub(a: int, b: int): int {
    if a - b > MAX_DURATION then MAX_DURATION
    else if a - b < -MAX_DURATION - 1 then -MAX_DURATION - 1
    else a - b
  }

  /** `Time.Truncate(time.Second)` */
  function Truncate(t: int): int { t - t % SECOND }

  predicate Aligned(t: int) { t % SECOND == 0 }

  predicate AlignedInterval(w: Interval) { Aligned(w.from) && Aligned(w.to) && w.from < w.to }

  function SecondCover(i: Interval): Interval {
    var from, to := Truncate(i.from), Truncate(i.to);
    var up := if to < i.to then to + SECOND else to;
    Interval(from, if from < up then up else from + SECOND)
  }

  /** The cover is the least second-aligned interval around the request. */
  lemma SecondCoverIsLeast(i: Interval)
    requires i.from < i.to
    ensures AlignedInterval(SecondCover(i))
    ensures SecondCover(i).from <= i.from && i.to <= SecondCover(i).to
    ensures forall w: Interval :: AlignedInterval(w) && w.from <= i.from && i.to <= w.to
              ==> w.from <= SecondCover(i).from && SecondCover(i).to <= w.to
  {
    var c := SecondCover(i);
    AlignedSteps(i.from);
    AlignedSteps(i.to);
    forall w: Interval | AlignedInterval(w) && w.from <= i.from && i.to <= w.to
      ensures w.from <= c.from && c.to <= w.to
    {
      AlignedGap(w.from, c.from);
      AlignedGap(c.to, w.to);
    }
  }

  lemma AlignedSteps(t: int)
    ensures Aligned(Truncate(t)) && Aligned(Truncate(t) + SECOND)
    ensures Truncate(t) <= t < Truncate(t) + SECOND
  {
  }

  /** Aligned instants less than a second apart are in order. */
  lemma AlignedGap(a: int, b: int)
    requires Aligned(a) && Aligned(b) && a < b + SECOND
    ensures a <= b
  {
    assert a == a / SECOND * SECOND && b == b / SECOND * SECOND;
  }

  function SplitWindow(w: Interval, minimum: int): (r: Option<(Interval, Interval)>)
    ensures r.Some? ==>
      && r.value.0.from == w.from && r.value.0.to == r.value.1.from && r.value.1.to == w.to
      && w.from < r.value.0.to < w.to && Aligned(r.value.0.to)
  {
    if Sub(w.to, w.from) <= minimum then None
    else
      var d := Sub(w.to, w.from);
      if d < 2 * SECOND then None
      else
        var midpoint := Truncate(w.from + d / SECOND / 2 * SECOND);
        if !(w.from < midpoint < w.to) then None
        else Some((Interval(w.from, midpoint), Interval(midpoint, w.to)))
  }

  /** An aligned window can be halved exactly when it is longer than the bucket and holds two seconds. */
  lemma SplitsWhen(w: Interval, minimum: int)
    requires AlignedInterval(w)
    ensures SplitWindow(w, minimum).Some? <==> Sub(w.to, w.from) > minimum && w.to - w.from >= 2 * SECOND
  {
    var d := Sub(w.to, w.from);
    if d > minimum && d >= 2 * SECOND {
      var half := d / SECOND / 2;
      assert half >= 1 && half * SECOND < d;
      assert (w.from + half * SECOND) % SECOND == 0 by { AlignedShift(w.from, half); }
    }
  }

  /** How many whole seconds a window holds. */
  ghost function Seconds(w: Interval): nat { w.Width() / SECOND }

  /** The halves of an aligned window are halves: they differ by at most one second. Only a window too long for a
      64-bit duration gives up half of the longest duration instead. */
  lemma HalvesAreHalves(w: Interval, minimum: int)
    requires AlignedInterval(w) && SplitWindow(w, minimum).Some?
    ensures var (left, right) := SplitWindow(w, minimum).value;
      && AlignedInterval(left) && AlignedInterval(right) && Seconds(left) + Seconds(right) == Seconds(w)
      && (w.to - w.from <= MAX_DURATION ==> left.Width() <= right.Width() <= left.Width() + SECOND)
      && (w.to - w.from > MAX_DURATION ==> Seconds(left) == MAX_DURATION / SECOND / 2)
  {
    var k := Sub(w.to, w.from) / SECOND;
    AlignedShift(w.from, k / 2);
    var m := SplitWindow(w, minimum).value.0.to;
    assert m == w.from + k / 2 * SECOND;
    WholeSeconds(Interval(w.from, m));
    WholeSeconds(Interval(m, w.to));
    WholeSeconds(w);
  }

  lemma WholeSeconds(w: Interval)
    requires AlignedInterval(w)
    ensures w.Width() == Seconds(w) * SECOND > 0
  {
    assert w.from == w.from / SECOND * SECOND && w.to == w.to / SECOND * SECOND;
    assert w.to - w.from == (w.to / SECOND - w.from / SECOND) * SECOND;
  }

  lemma AlignedShift(t: int, k: int)
    requires Aligned(t)
    ensures Aligned(t + k * SECOND)
  {
    assert t == t / SECOND * SECOND;
    assert t + k * SECOND == (t / SECOND + k) * SECOND;
  }

  // ----- What the collector sees and produces -----

  datatype Run = Run(id: int, created: int)

  datatype Reason = Cancelled | PartitionLimit | ApiError | MalformedResponse | LiveStateRace | Pagination | DensityCeiling

  datatype Gap = Gap(reason: Reason, runId: int)

  datatype Status = Split | Complete | GapMarked | Saturated

  datatype Node = Node(window: Interval, total: int, status: Status, runCount: nat, overlapRows: nat, children: seq<Node>)

  datatype Probe = ProbeOk(total: int) | ProbeFailed(cancelled: bool)

  datatype Listing = Listed(runs: seq<Run>, total: int, truncated: bool) | ListFailed(cancelled: bool)

  /** Everything outside the collector: whether the context is done, and what each call answers.
      Each answer may depend on the work done so far, so the world may change between calls. */
  datatype World = World(cancelled: nat -> bool, probe: (nat, Interval) -> Probe, list: (nat, Interval) -> Listing)

  datatype Limits = Limits(maxPartitions: nat, minBucket: int)

  datatype Outcome = Outcome(runs: seq<Run>, node: Node, stopped: bool, gaps: seq<Gap>, work: nat, probes: seq<Interval>)

  function Within(w: Interval, runs: seq<Run>): seq<Run> {
    if runs == [] then []
    else Within(w, runs[..|runs| - 1]) + (if w.Contains(runs[|runs| - 1].created) then [runs[|runs| - 1]] else [])
  }

  lemma {:induction false} WithinIsFilter(w: Interval, runs: seq<Run>)
    ensures |Within(w, runs)| <= |runs|
    ensures forall r :: r in Within(w, runs) <==> r in runs && w.Contains(r.created)
    ensures Distinct(runs) ==> Distinct(Within(w, runs))
  {
    if runs != [] {
      var front, last := runs[..|runs| - 1], runs[|runs| - 1];
      WithinIsFilter(w, front);
      assert runs == front + [last];
      if Distinct(runs) {
        assert Distinct(front) by {
          forall i, j | 0 <= i < j < |front| ensures front[i] != front[j] { assert runs[i] != runs[j]; }
        }
        assert last !in front;
      }
    }
  }

  function NewNode(w: Interval): Node { Node(w, 0, GapMarked, 0, 0, []) }

  /** `walk`, as a function of the world. */
  function Walk(p: Limits, w: World, window: Interval, work: nat): Outcome
    decreases window.Width(), 1
  {
    var node := NewNode(window);
    if w.cancelled(work) then Outcome([], node, true, [Gap(Cancelled, 0)], work, [])
    else if work + 1 > p.maxPartitions then Outcome([], node, false, [Gap(PartitionLimit, 0)], work + 1, [])
    else match w.probe(work + 1, window)
      case ProbeFailed(cancelled) => Outcome([], node, cancelled, [Gap(ApiError, 0)], work + 1, [window])
      case ProbeOk(total) =>
        var node := node.(total := total);
        if total < 0 then Outcome([], node, false, [Gap(MalformedResponse, 0)], work + 1, [window])
        else if total >= CEILING then Deeper(p, w, node, work + 1)
        else match w.list(work + 1, window)
          case ListFailed(cancelled) => Outcome([], node, cancelled, [Gap(ApiError, 0)], work + 1, [window])
          case Listed(rows, listed, truncated) =>
            if truncated || listed >= CEILING then
              Deeper(p, w, node.(total := if total < listed then listed else total), work + 1)
            else Leaf(node, rows, listed, work + 1)
  }

  /** A window that was listed without hitting the ceiling. */
  function Leaf(node: Node, rows: seq<Run>, listed: int, work: nat): Outcome {
    var inside := Within(node.window, rows);
    WithinIsFilter(node.window, rows);
    var race := if listed != node.total then [Gap(LiveStateRace, 0)] else [];
    var short := if listed > |rows| then [Gap(Pagination, 0)] else [];
    var status := if race + short == [] then Complete else GapMarked;
    Outcome(inside, node.(status := status, runCount := |inside|, overlapRows := |rows| - |inside|),
            false, race + short, work, [node.window])
  }

  /** `splitOrSaturate` */
  function Deeper(p: Limits, w: World, node: Node, work: nat): Outcome
    decreases node.window.Width(), 0
  {
    match SplitWindow(node.window, p.minBucket)
    case None => Outcome([], node.(status := Saturated), false, [Gap(DensityCeiling, 0)], work, [node.window])
    case Some(halves) =>
      var left := Walk(p, w, halves.0, work);
      if left.stopped then
        Outcome(left.runs, node.(status := Split, children := [left.node]), true, left.gaps, left.work, [node.window] + left.probes)
      else
        var right := Walk(p, w, halves.1, left.work);
        Outcome(left.runs + right.runs, node.(status := Split, children := [left.node, right.node]), right.stopped,
                left.gaps + right.gaps, right.work, [node.window] + left.probes + right.probes)
  }

  // ----- The collector -----

  /** `*gaps` and `*work`, updated in place by the recursion; `probes` records the probe calls. */
  class Partitioner {
    const w: World
    const p: Limits
    var gaps: seq<Gap>
    var work: nat
    ghost var probes: seq<Interval>

    constructor (w: World, p: Limits)
      ensures this.w == w && this.p == p && gaps == [] && work == 0 && probes == []
    {
      this.w, this.p := w, p;
      gaps, work, probes := [], 0, [];
    }

    ghost predicate Adds(o: Outcome, gaps0: seq<Gap>, probes0: seq<Interval>)
      reads this
    {
      gaps == gaps0 + o.gaps && work == o.work && probes == probes0 + o.probes
    }

    method WalkWindow(window: Interval) returns (runs: seq<Run>, node: Node, stopped: bool)
      modifies this
      ensures var o := Walk(p, w, window, old(work));
              runs == o.runs && node == o.node && stopped == o.stopped && Adds(o, old(gaps), old(probes))
      decreases window.Width(), 1
    {
      node := NewNode(window);
      runs, stopped := [], false;
      if w.cancelled(work) {
        gaps := gaps + [Gap(Cancelled, 0)];
        stopped := true;
        return;
      }
      work := work + 1;
      if work > p.maxPartitions {
        gaps := gaps + [Gap(PartitionLimit, 0)];
        return;
      }
      probes := probes + [window];
      var probe := w.probe(work, window);
      if probe.ProbeFailed? {
        gaps := gaps + [Gap(ApiError, 0)];
        stopped := probe.cancelled;
        return;
      }
      node := node.(total := probe.total);
      if probe.total < 0 {
        gaps := gaps + [Gap(MalformedResponse, 0)];
        return;
      }
      if probe.total >= CEILING {
        runs, node, stopped := SplitOrSaturate(node);
        return;
      }
      var listing := w.list(work, window);
      if listing.ListFailed? {
        gaps := gaps + [Gap(ApiError, 0)];
        stopped := listing.cancelled;
        return;
      }
      if listing.truncated || listing.total >= CEILING {
        if node.total < listing.total { node := node.(total := listing.total); }
        runs, node, stopped := SplitOrSaturate(node);
        return;
      }
      runs, node := AssignRunsToWindow(node, listing.runs);
      var countChanged := listing.total != probe.total;
      if countChanged {
        gaps := gaps + [Gap(LiveStateRace, 0)];
      }
      if listing.total > |listing.runs| {
        node := node.(status := GapMarked);
        gaps := gaps + [Gap(Pagination, 0)];
        return;
      }
      node := node.(status := if countChanged then GapMarked else Complete);
    }

    method SplitOrSaturate(node0: Node) returns (runs: seq<Run>, node: Node, stopped: bool)
      requires probes != [] && probes[|probes| - 1] == node0.window && node0.children == []
      modifies this
      ensures var o := Deeper(p, w, node0, old(work));
              runs == o.runs && node == o.node && stopped == o.stopped
              && Adds(o, old(gaps), old(probes)[..|old(probes)| - 1])
      decreases node0.window.Width(), 0
    {
      ghost var before, g0 := probes[..|probes| - 1], gaps;
      assert probes == before + [node0.window];
      node := node0;
      var halves := SplitWindow(node.window, p.minBucket);
      if halves.None? {
        node := node.(status := Saturated);
        gaps := gaps + [Gap(DensityCeiling, 0)];
        return [], node, false;
      }
      node := node.(status := Split);
      var leftRuns, left, leftStopped := WalkWindow(halves.value.0);
      node := node.(children := node.children + [left]);
      ghost var o := Walk(p, w, halves.value.0, old(work));
      Assoc(before, [node0.window], o.probes);
      if leftStopped {
        return leftRuns, node, true;
      }
      var rightRuns, right, rightStopped := WalkWindow(halves.value.1);
      node := node.(children := node.children + [right]);
      ghost var o' := Walk(p, w, halves.value.1, o.work);
      Assoc(g0, o.gaps, o'.gaps);
      Assoc(before, [node0.window] + o.probes, o'.probes);
      return leftRuns + rightRuns, node, rightStopped;
    }
  }

  method AssignRunsToWindow(node0: Node, runs: seq<Run>) returns (inside: seq<Run>, node: Node)
    requires node0.runCount == 0 && node0.overlapRows == 0
    ensures inside == Within(node0.window, runs) && |inside| <= |runs|
    ensures node == node0.(runCount := |inside|, overlapRows := |runs| - |inside|)
  {
    node, inside := node0, [];
    for i := 0 to |runs|
      invariant inside == Within(node0.window, runs[..i]) && |inside| <= i
      invariant node == node0.(runCount := |inside|, overlapRows := i - |inside|)
    {
      assert runs[..i + 1][..i] == runs[..i];
      if node0.window.Contains(runs[i].created) {
        node := node.(runCount := node.runCount + 1);
        inside := inside + [runs[i]];
      } else {
        node := node.(overlapRows := node.overlapRows + 1);
      }
    }
    assert runs[..|runs|] == runs;
  }
}
