/** What the partition recursion guarantees, for every world: the shape of the tree, the work it
    does, and, against a server whose runs do not change, that nothing is lost silently. */
module PartitionTree {
  import opened Orders
  import opened Window

  // ----- Leaves -----

  ghost function Leaves(n: Node): seq<Node>
    decreases n, 1
  {
    if n.status.Split? then LeavesOf(n.children) else [n]
  }

  ghost function LeavesOf(ns: seq<Node>): seq<Node>
    decreases ns, 0
  {
    if ns == [] then [] else Leaves(ns[0]) + LeavesOf(ns[1..])
  }

  lemma TwoChildren(l: Node, r: Node)
    ensures LeavesOf([l, r]) == Leaves(l) + Leaves(r)
    ensures LeavesOf([l]) == Leaves(l)
  {
    assert [l, r][1..] == [r] && [l][1..] == [] && [r][1..] == [];
    assert LeavesOf([r]) == Leaves(r) + LeavesOf([]) == Leaves(r);
  }

  ghost function Size(n: Node): nat
    decreases n, 1
  {
    1 + SizeOf(n.children)
  }

  ghost function SizeOf(ns: seq<Node>): nat
    decreases ns, 0
  {
    if ns == [] then 0 else Size(ns[0]) + SizeOf(ns[1..])
  }

  lemma TwoSizes(l: Node, r: Node)
    ensures SizeOf([l, r]) == Size(l) + Size(r)
    ensures SizeOf([l]) == Size(l)
  {
    assert [l, r][1..] == [r] && [l][1..] == [] && [r][1..] == [];
    assert SizeOf([r]) == Size(r) + SizeOf([]);
  }

  /** The windows of ls follow one another without gap or overlap from `from` to `to`, on whole seconds. */
  ghost predicate Tiles(ls: seq<Node>, from: int, to: int) {
    if ls == [] then from == to
    else ls[0].window.from == from && AlignedInterval(ls[0].window) && Tiles(ls[1..], ls[0].window.to, to)
  }

  lemma {:induction false} TilesConcat(a: seq<Node>, b: seq<Node>, from: int, mid: int, to: int)
    requires Tiles(a, from, mid) && Tiles(b, mid, to)
    ensures Tiles(a + b, from, to)
  {
    if a == [] {
      assert a + b == b;
    } else {
      TilesConcat(a[1..], b, a[0].window.to, mid, to);
      assert (a + b)[1..] == a[1..] + b;
    }
  }

  /** Every instant of a tiled window belongs to one tile and to no other. */
  lemma {:induction false} TileOf(ls: seq<Node>, from: int, to: int, t: int) returns (k: nat)
    requires Tiles(ls, from, to) && from <= t < to
    ensures k < |ls| && ls[k].window.Contains(t)
    ensures forall i :: 0 <= i < |ls| && ls[i].window.Contains(t) ==> i == k
    decreases ls
  {
    if ls[0].window.Contains(t) {
      k := 0;
      TilesAfter(ls[1..], ls[0].window.to, to);
      forall i | 0 < i < |ls| ensures !ls[i].window.Contains(t) { assert ls[i] == ls[1..][i - 1]; }
    } else {
      var j := TileOf(ls[1..], ls[0].window.to, to, t);
      k := j + 1;
      forall i | 0 <= i < |ls| && ls[i].window.Contains(t) ensures i == k {
        assert i > 0;
        assert ls[i] == ls[1..][i - 1];
      }
    }
  }

  lemma {:induction false} TilesAfter(ls: seq<Node>, from: int, to: int)
    requires Tiles(ls, from, to)
    ensures from <= to
    ensures forall i :: 0 <= i < |ls| ==> from <= ls[i].window.from && ls[i].window.to <= to
  {
    if ls != [] {
      TilesAfter(ls[1..], ls[0].window.to, to);
      forall i | 0 <= i < |ls| ensures from <= ls[i].window.from && ls[i].window.to <= to {
        if i > 0 { assert ls[i] == ls[1..][i - 1]; }
      }
    }
  }

  // ----- Shape -----

  /** The instant up to which the leaves of a tree stand: a walk that is cancelled leaves the rest of the window without. */
  ghost function Reached(n: Node): int
    decreases n
  {
    if n.status.Split? && n.children != [] then Reached(n.children[|n.children| - 1]) else n.window.to
  }

  /** The leaves stand from the start of the walked window up to some instant, and up to its end unless the walk
      stopped early. */
  ghost predicate Shaped(o: Outcome, window: Interval) {
    && o.node.window == window
    && Tiles(Leaves(o.node), window.from, Reached(o.node)) && window.from < Reached(o.node) <= window.to
    && (!o.stopped ==> Reached(o.node) == window.to)
  }

  /** The leaf windows tile the window that was walked, or the part before the walk stopped. */
  lemma {:induction false} LeavesTile(p: Limits, w: World, window: Interval, work: nat)
    requires AlignedInterval(window)
    ensures Shaped(Walk(p, w, window, work), window)
    decreases window.Width(), 1
  {
    var o := Walk(p, w, window, work);
    if o.node.status.Split? {
      var node := DeeperNode(p, w, window, work);
      LeavesTileDeeper(p, w, node, work + 1);
    } else {
      WindowIsKept(p, w, window, work);
      OneTile(o.node);
    }
  }

  lemma WindowIsKept(p: Limits, w: World, window: Interval, work: nat)
    ensures Walk(p, w, window, work).node.window == window
  {
    var node, probe, l := NewNode(window), w.probe(work + 1, window), w.list(work + 1, window);
    if probe.ProbeOk? {
      DeeperKeepsWindow(p, w, node.(total := probe.total), work + 1);
      if l.Listed? { DeeperKeepsWindow(p, w, node.(total := if probe.total < l.total then l.total else probe.total), work + 1); }
    }
  }

  lemma DeeperKeepsWindow(p: Limits, w: World, node: Node, work: nat)
    ensures Deeper(p, w, node, work).node.window == node.window
  {
  }

  lemma OneTile(n: Node)
    requires AlignedInterval(n.window) && !n.status.Split?
    ensures Tiles(Leaves(n), n.window.from, n.window.to)
  {
    assert [n][1..] == [];
  }

  /** The node handed down when a window is split rather than listed. */
  lemma DeeperNode(p: Limits, w: World, window: Interval, work: nat) returns (node: Node)
    requires Walk(p, w, window, work).node.status.Split?
    ensures node.window == window && node.children == [] && !node.status.Split?
    ensures Walk(p, w, window, work) == Deeper(p, w, node, work + 1)
  {
    node := NewNode(window).(total := w.probe(work + 1, window).total);
    if node.total < CEILING {
      var listing := w.list(work + 1, window);
      if node.total < listing.total { node := node.(total := listing.total); }
    }
  }

  lemma {:induction false} LeavesTileDeeper(p: Limits, w: World, node: Node, work: nat)
    requires AlignedInterval(node.window)
    ensures Shaped(Deeper(p, w, node, work), node.window)
    decreases node.window.Width(), 0
  {
    var o := Deeper(p, w, node, work);
    var halves := SplitWindow(node.window, p.minBucket);
    if halves.Some? {
      var left := Walk(p, w, halves.value.0, work);
      LeavesTile(p, w, halves.value.0, work);
      if left.stopped {
        TwoChildren(left.node, left.node);
      } else {
        var right := Walk(p, w, halves.value.1, left.work);
        LeavesTile(p, w, halves.value.1, left.work);
        TwoChildren(left.node, right.node);
        TilesConcat(Leaves(left.node), Leaves(right.node), node.window.from, halves.value.0.to, Reached(right.node));
      }
    } else {
      OneTile(o.node);
    }
  }

  // ----- Work -----

  function Clip(p: Limits, work: nat): nat { if work < p.maxPartitions then work else p.maxPartitions }

  /** Every unit of work within the limit is one probe, and the tree has at most two nodes per probe plus one. */
  ghost predicate Bounded(p: Limits, o: Outcome, work: nat) {
    && work <= o.work
    && |o.probes| == Clip(p, o.work) - Clip(p, work)
    && Size(o.node) <= 2 * |o.probes| + 1
  }

  lemma {:induction false} WorkBound(p: Limits, w: World, window: Interval, work: nat)
    ensures Bounded(p, Walk(p, w, window, work), work)
    decreases window.Width(), 1
  {
    if Walk(p, w, window, work).node.status.Split? {
      var node := DeeperNode(p, w, window, work);
      WorkBoundDeeper(p, w, node, work + 1);
    }
  }

  lemma {:induction false} WorkBoundDeeper(p: Limits, w: World, node: Node, work: nat)
    requires 0 < work <= p.maxPartitions && node.children == []
    ensures Bounded(p, Deeper(p, w, node, work), work - 1)
    decreases node.window.Width(), 0
  {
    var halves := SplitWindow(node.window, p.minBucket);
    if halves.Some? {
      var left := Walk(p, w, halves.value.0, work);
      var right := Walk(p, w, halves.value.1, left.work);
      WorkBound(p, w, halves.value.0, work);
      WorkBound(p, w, halves.value.1, left.work);
      TwoSizes(left.node, right.node);
    }
  }

  /** A whole enumeration makes at most MaxPartitions probes and builds at most twice as many nodes plus one. */
  lemma TotalWork(p: Limits, w: World, window: Interval)
    ensures |Walk(p, w, window, 0).probes| <= p.maxPartitions
    ensures Size(Walk(p, w, window, 0).node) <= 2 * p.maxPartitions + 1
  {
    WorkBound(p, w, window, 0);
  }

  /** Every window that is queried lies on whole seconds, so writing it out to the second loses nothing. */
  lemma {:induction false} ProbesAligned(p: Limits, w: World, window: Interval, work: nat)
    requires AlignedInterval(window)
    ensures forall q :: q in Walk(p, w, window, work).probes ==> AlignedInterval(q)
    decreases window.Width(), 1
  {
    if Walk(p, w, window, work).node.status.Split? {
      var node := DeeperNode(p, w, window, work);
      ProbesAlignedDeeper(p, w, node, work + 1);
    }
  }

  lemma {:induction false} ProbesAlignedDeeper(p: Limits, w: World, node: Node, work: nat)
    requires AlignedInterval(node.window)
    ensures forall q :: q in Deeper(p, w, node, work).probes ==> AlignedInterval(q)
    decreases node.window.Width(), 0
  {
    var halves := SplitWindow(node.window, p.minBucket);
    if halves.Some? {
      ProbesAligned(p, w, halves.value.0, work);
      ProbesAligned(p, w, halves.value.1, Walk(p, w, halves.value.0, work).work);
    }
  }

  // ----- Gaps -----

  ghost predicate Marked(n: Node) { n.status.GapMarked? || n.status.Saturated? }

  /** The gaps one leaf records: none when it is complete, and otherwise those for the one reason it was given up, or
      for a listing that raced and fell short at once. */
  ghost predicate Explains(own: seq<Gap>, n: Node) {
    match n.status
    case Complete => own == []
    case Saturated => own == [Gap(DensityCeiling, 0)]
    case GapMarked => own == [Gap(LiveStateRace, 0), Gap(Pagination, 0)] || (|own| == 1 && own[0].runId == 0 && !own[0].reason.DensityCeiling?)
    case Split => false
  }

  /** The gaps are those of the leaves, each leaf's own in its turn. */
  ghost predicate Owns(gaps: seq<Gap>, ls: seq<Node>) {
    if ls == [] then gaps == []
    else exists n: nat :: n <= |gaps| && Explains(gaps[..n], ls[0]) && Owns(gaps[n..], ls[1..])
  }

  lemma OwnsMore(own: seq<Gap>, n: Node, gaps: seq<Gap>, ls: seq<Node>)
    requires Explains(own, n) && Owns(gaps, ls)
    ensures Owns(own + gaps, [n] + ls)
  {
    var all, nodes := own + gaps, [n] + ls;
    assert all[..|own|] == own && all[|own|..] == gaps && nodes[1..] == ls;
    assert Explains(all[..|own|], nodes[0]) && Owns(all[|own|..], nodes[1..]);
  }

  lemma OwnsOne(gaps: seq<Gap>, n: Node)
    requires Explains(gaps, n)
    ensures Owns(gaps, [n])
  {
    OwnsMore(gaps, n, [], []);
    assert gaps + [] == gaps && [n] + [] == [n];
  }

  lemma {:induction false} OwnsConcat(g: seq<Gap>, a: seq<Node>, h: seq<Gap>, b: seq<Node>)
    requires Owns(g, a) && Owns(h, b)
    ensures Owns(g + h, a + b)
  {
    if a == [] {
      assert a + b == b && g + h == h;
    } else {
      var n: nat :| n <= |g| && Explains(g[..n], a[0]) && Owns(g[n..], a[1..]);
      OwnsConcat(g[n..], a[1..], h, b);
      OwnsMore(g[..n], a[0], g[n..] + h, a[1..] + b);
      CutAndJoin(g, n, h);
      CutAndJoin(a, 1, b);
    }
  }

  lemma CutAndJoin<T>(s: seq<T>, n: nat, t: seq<T>)
    requires n <= |s|
    ensures s[..n] + (s[n..] + t) == s + t
    ensures n == 1 ==> s[..1] == [s[0]]
  {
  }

  ghost predicate AnyMarked(ls: seq<Node>) { exists k :: 0 <= k < |ls| && Marked(ls[k]) }

  lemma AnyMarkedFirst(ls: seq<Node>)
    requires ls != []
    ensures AnyMarked(ls) <==> Marked(ls[0]) || AnyMarked(ls[1..])
  {
    if AnyMarked(ls[1..]) {
      var k :| 0 <= k < |ls[1..]| && Marked(ls[1..][k]);
      assert ls[k + 1] == ls[1..][k];
    }
    if AnyMarked(ls) && !Marked(ls[0]) {
      var k :| 0 <= k < |ls| && Marked(ls[k]);
      assert ls[1..][k - 1] == ls[k];
    }
  }

  /** Gaps that are owned are recorded exactly when some leaf is marked. */
  lemma {:induction false} OwnedIsMarked(gaps: seq<Gap>, ls: seq<Node>)
    requires Owns(gaps, ls)
    ensures gaps != [] <==> AnyMarked(ls)
  {
    if ls != [] {
      var n: nat :| n <= |gaps| && Explains(gaps[..n], ls[0]) && Owns(gaps[n..], ls[1..]);
      OwnedIsMarked(gaps[n..], ls[1..]);
      AnyMarkedFirst(ls);
      assert gaps == gaps[..n] + gaps[n..];
    }
  }

  /** Each marked leaf recorded gaps of its own, and every gap is some marked leaf's; a walk that stops records one. */
  ghost predicate Recorded(o: Outcome) { Owns(o.gaps, Leaves(o.node)) && (o.stopped ==> o.gaps != []) }

  lemma {:induction false} EveryMarkHasAGap(p: Limits, w: World, window: Interval, work: nat)
    ensures Recorded(Walk(p, w, window, work))
    decreases window.Width(), 1
  {
    var o := Walk(p, w, window, work);
    if o.node.status.Split? {
      var node := DeeperNode(p, w, window, work);
      EveryMarkHasAGapDeeper(p, w, node, work + 1);
    } else {
      LeafIsExplained(p, w, window, work);
      OwnsOne(o.gaps, o.node);
    }
  }

  lemma LeafIsExplained(p: Limits, w: World, window: Interval, work: nat)
    requires !Walk(p, w, window, work).node.status.Split?
    ensures Explains(Walk(p, w, window, work).gaps, Walk(p, w, window, work).node)
  {
    var probe, l := w.probe(work + 1, window), w.list(work + 1, window);
    if probe.ProbeOk? && l.Listed? {
      ListedIsExplained(NewNode(window).(total := probe.total), l.runs, l.total, work + 1);
    }
  }

  lemma ListedIsExplained(node: Node, rows: seq<Run>, listed: int, work: nat)
    ensures Explains(Leaf(node, rows, listed, work).gaps, Leaf(node, rows, listed, work).node)
  {
    var race := if listed != node.total then [Gap(LiveStateRace, 0)] else [];
    var short := if listed > |rows| then [Gap(Pagination, 0)] else [];
    assert race == [] ==> race + short == short;
    assert short == [] ==> race + short == race;
  }

  lemma {:induction false} EveryMarkHasAGapDeeper(p: Limits, w: World, node: Node, work: nat)
    ensures Recorded(Deeper(p, w, node, work))
    decreases node.window.Width(), 0
  {
    var o := Deeper(p, w, node, work);
    var halves := SplitWindow(node.window, p.minBucket);
    if halves.Some? {
      var left := Walk(p, w, halves.value.0, work);
      EveryMarkHasAGap(p, w, halves.value.0, work);
      if left.stopped {
        TwoChildren(left.node, left.node);
      } else {
        var right := Walk(p, w, halves.value.1, left.work);
        EveryMarkHasAGap(p, w, halves.value.1, left.work);
        TwoChildren(left.node, right.node);
        OwnsConcat(left.gaps, Leaves(left.node), right.gaps, Leaves(right.node));
      }
    } else {
      OwnsOne(o.gaps, o.node);
    }
  }

  // ----- Completeness -----

  /** What the server answers for an inclusive range. */
  ghost function InRange(server: set<Run>, q: Interval): set<Run> {
    set r | r in server && q.from <= r.created <= q.to
  }

  /** Answers come from one fixed set of runs: totals are exact, and rows are distinct runs of the
      range, though a listing may be cut short. Calls may still fail. */
  ghost predicate Honest(w: World, server: set<Run>) {
    forall k: nat, q: Interval ::
      && (w.probe(k, q).ProbeOk? ==> w.probe(k, q).total == |InRange(server, q)|)
      && (w.list(k, q).Listed? ==> HonestRows(w.list(k, q), server, q))
  }

  ghost predicate HonestRows(l: Listing, server: set<Run>, q: Interval)
    requires l.Listed?
  {
    l.total == |InRange(server, q)| && Distinct(l.runs) && forall r :: r in l.runs ==> r in InRange(server, q)
  }

  lemma {:induction false} DistinctCount(runs: seq<Run>, all: set<Run>)
    requires Distinct(runs) && forall r :: r in runs ==> r in all
    ensures |runs| <= |all|
    ensures |runs| >= |all| ==> forall r :: r in all ==> r in runs
    decreases runs
  {
    if runs == [] {
      if |all| == 0 { assert all == {}; }
    } else {
      var last, front := runs[|runs| - 1], runs[..|runs| - 1];
      assert runs == front + [last];
      assert last !in front;
      DistinctCount(front, all - {last});
    }
  }

  /** The rows are runs of this window, each once, and cover every run outside the marked leaves. */
  ghost predicate Accounts(o: Outcome, server: set<Run>, window: Interval) {
    && Distinct(o.runs)
    && (forall r :: r in o.runs ==> r in server && window.Contains(r.created))
    && (forall l, r :: l in Leaves(o.node) && !Marked(l) && r in server && l.window.Contains(r.created) ==> r in o.runs)
  }

  lemma {:induction false} NothingLost(p: Limits, w: World, server: set<Run>, window: Interval, work: nat)
    requires Honest(w, server)
    ensures Accounts(Walk(p, w, window, work), server, window)
    decreases window.Width(), 1
  {
    var o := Walk(p, w, window, work);
    if o.node.status.Split? {
      var node := DeeperNode(p, w, window, work);
      NothingLostDeeper(p, w, server, node, work + 1);
    } else if o.runs != [] || !Marked(o.node) {
      LeafKeepsAll(p, w, server, window, work);
    }
  }

  lemma LeafKeepsAll(p: Limits, w: World, server: set<Run>, window: Interval, work: nat)
    requires Honest(w, server)
    requires var o := Walk(p, w, window, work); !o.node.status.Split? && (o.runs != [] || !Marked(o.node))
    ensures Accounts(Walk(p, w, window, work), server, window)
  {
    var o := Walk(p, w, window, work);
    var rows := w.list(work + 1, window).runs;
    assert HonestRows(w.list(work + 1, window), server, window);
    WithinIsFilter(window, rows);
    assert o.runs == Within(window, rows);
    DistinctCount(rows, InRange(server, window));
    forall r | r in server && window.Contains(r.created) && !Marked(o.node) ensures r in o.runs {
      assert r in InRange(server, window);
    }
  }

  lemma {:induction false} NothingLostDeeper(p: Limits, w: World, server: set<Run>, node: Node, work: nat)
    requires Honest(w, server)
    ensures Accounts(Deeper(p, w, node, work), server, node.window)
    decreases node.window.Width(), 0
  {
    var halves := SplitWindow(node.window, p.minBucket);
    if halves.Some? {
      var left := Walk(p, w, halves.value.0, work);
      NothingLost(p, w, server, halves.value.0, work);
      if left.stopped {
        TwoChildren(left.node, left.node);
      } else {
        var right := Walk(p, w, halves.value.1, left.work);
        NothingLost(p, w, server, halves.value.1, left.work);
        TwoChildren(left.node, right.node);
      }
    }
  }
}
