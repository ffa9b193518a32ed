/** `Partitioner.Enumerate` (internal/collect/window.go): partition, drop what is malformed or
    outside the request, keep one row per run ID, and sort. */
module Enumerate {
  import opened Orders
  import opened Window
  import opened PartitionTree

  datatype Repository = Repository(id: int, owner: string, name: string)

  datatype Result =
    | Rejected
    | Interrupted(root: Node, gaps: seq<Gap>)
    | Enumerated(queried: Interval, root: Node, runs: seq<Run>, gaps: seq<Gap>, duplicates: nat)

  predicate Malformed(r: Run) { r.id <= 0 || r.created == 0 }

  predicate Usable(r: Run, requested: Interval) { !Malformed(r) && requested.Contains(r.created) }

  predicate RunLess(a: Run, b: Run) {
    if a.created == b.created then a.id < b.id else a.created < b.created
  }

  function Ids(runs: seq<Run>): set<int> { set r | r in runs :: r.id }

  /** The first usable row of each run ID, in the order seen. */
  function Kept(rows: seq<Run>, requested: Interval): seq<Run> {
    if rows == [] then []
    else
      var front, r := Kept(rows[..|rows| - 1], requested), rows[|rows| - 1];
      if Usable(r, requested) && r.id !in Ids(front) then front + [r] else front
  }

  function UsableCount(rows: seq<Run>, requested: Interval): nat {
    if rows == [] then 0
    else UsableCount(rows[..|rows| - 1], requested) + if Usable(rows[|rows| - 1], requested) then 1 else 0
  }

  function MalformedGaps(rows: seq<Run>): seq<Gap> {
    if rows == [] then []
    else
      var r := rows[|rows| - 1];
      MalformedGaps(rows[..|rows| - 1]) + if Malformed(r) then [Gap(MalformedResponse, r.id)] else []
  }

  lemma {:induction false} KeptFacts(rows: seq<Run>, requested: Interval)
    ensures forall r :: r in Kept(rows, requested) ==> r in rows && Usable(r, requested)
    ensures forall r :: r in rows && Usable(r, requested) ==> r.id in Ids(Kept(rows, requested))
    ensures UniqueIds(Kept(rows, requested))
    ensures |Kept(rows, requested)| <= UsableCount(rows, requested)
  {
    if rows != [] {
      KeptFacts(rows[..|rows| - 1], requested);
      assert rows == rows[..|rows| - 1] + [rows[|rows| - 1]];
    }
  }

  ghost predicate UniqueIds(runs: seq<Run>) {
    forall i, j :: 0 <= i < j < |runs| ==> runs[i].id != runs[j].id
  }

  lemma RunLessIsStrictWeak()
    ensures StrictWeak(RunLess)
  {
  }

  /** A non-positive limit stands for its default. */
  function Defaults(maxPartitions: int, minBucket: int): Limits {
    Limits(if maxPartitions <= 0 then DEFAULT_MAX_PARTITIONS else maxPartitions,
           if minBucket <= 0 then SECOND else minBucket)
  }

  function Expected(w: World, o: Outcome, requested: Interval): Result {
    if o.stopped && w.cancelled(o.work) then Interrupted(o.node, o.gaps)
    else
      KeptFacts(o.runs, requested);
      Enumerated(SecondCover(requested), o.node, Sort(Kept(o.runs, requested), RunLess),
                 o.gaps + MalformedGaps(o.runs),
                 UsableCount(o.runs, requested) - |Kept(o.runs, requested)|)
  }

  /** `Enumerate`. */
  method EnumerateRuns(w: World, maxPartitions: int, minBucket: int, repository: Repository, requested: Interval)
    returns (result: Result)
    ensures result.Rejected? <==>
              !requested.Valid() || repository.id <= 0 || repository.owner == "" || repository.name == ""
    ensures !result.Rejected? ==>
              result == Expected(w, Walk(Defaults(maxPartitions, minBucket), w, SecondCover(requested), 0), requested)
  {
    if !requested.Valid() || repository.id <= 0 || repository.owner == "" || repository.name == "" {
      return Rejected;
    }
    var limit := maxPartitions;
    if limit <= 0 { limit := DEFAULT_MAX_PARTITIONS; }
    var bucket := minBucket;
    if bucket <= 0 { bucket := SECOND; }
    result := EnumerateWithin(w, Limits(limit, bucket), requested);
  }

  method EnumerateWithin(w: World, p: Limits, requested: Interval) returns (result: Result)
    ensures result == Expected(w, Walk(p, w, SecondCover(requested), 0), requested)
  {
    var partitioner := new Partitioner(w, p);
    var rows, root, stopped := partitioner.WalkWindow(SecondCover(requested));
    var gaps, work := partitioner.gaps, partitioner.work;
    ghost var o := Walk(p, w, SecondCover(requested), 0);
    assert gaps == o.gaps;
    result := Select(w, o, rows, root, stopped, gaps, work, requested);
  }

  /** What follows the partitioning. */
  method Select(w: World, ghost o: Outcome, rows: seq<Run>, root: Node, stopped: bool, gaps: seq<Gap>, work: nat,
                requested: Interval)
    returns (result: Result)
    requires rows == o.runs && root == o.node && stopped == o.stopped && gaps == o.gaps && work == o.work
    ensures result == Expected(w, o, requested)
  {
    if stopped && w.cancelled(work) {
      return Interrupted(root, gaps);
    }
    var seen, malformed, duplicates := Deduplicate(rows, requested);
    KeptFacts(rows, requested);
    var runs := SortedValues(seen, Kept(rows, requested));
    result := Enumerated(SecondCover(requested), root, runs, gaps + malformed, duplicates);
  }

  method Deduplicate(rows: seq<Run>, requested: Interval)
    returns (seen: map<int, Run>, gaps: seq<Gap>, duplicates: nat)
    ensures Indexes(seen, Kept(rows, requested))
    ensures gaps == MalformedGaps(rows)
    ensures duplicates + |Kept(rows, requested)| == UsableCount(rows, requested)
  {
    seen, gaps, duplicates := map[], [], 0;
    for i := 0 to |rows|
      invariant Indexes(seen, Kept(rows[..i], requested))
      invariant gaps == MalformedGaps(rows[..i])
      invariant duplicates + |Kept(rows[..i], requested)| == UsableCount(rows[..i], requested)
    {
      var run := rows[i];
      assert rows[..i + 1][..i] == rows[..i];
      if run.id <= 0 || run.created == 0 {
        gaps := gaps + [Gap(MalformedResponse, run.id)];
        continue;
      }
      if !requested.Contains(run.created) {
        continue;
      }
      if run.id in seen {
        duplicates := duplicates + 1;
        continue;
      }
      seen := seen[run.id := run];
    }
    assert rows[..|rows|] == rows;
  }

  /** The map holds exactly these runs, by ID. */
  ghost predicate Indexes(seen: map<int, Run>, kept: seq<Run>) {
    && (forall r :: r in kept ==> r.id in seen && seen[r.id] == r)
    && (forall id :: id in seen ==> seen[id] in kept && seen[id].id == id)
  }

  /** Collects the values in an arbitrary order and sorts them: the order of visits does not show. */
  method SortedValues(seen: map<int, Run>, ghost kept: seq<Run>) returns (runs: seq<Run>)
    requires Indexes(seen, kept) && UniqueIds(kept)
    ensures runs == Sort(kept, RunLess)
  {
    runs := [];
    var todo := seen.Keys;
    while todo != {}
      invariant Distinct(runs) && todo <= seen.Keys
      invariant forall r :: r in runs <==> r.id in seen.Keys - todo && seen[r.id] == r
      decreases todo
    {
      Inhabited(todo);
      var id :| id in todo;
      assert seen[id] !in runs;
      runs := runs + [seen[id]];
      todo := todo - {id};
    }
    forall i, j | 0 <= i < j < |kept| ensures kept[i] != kept[j] { assert kept[i].id != kept[j].id; }
    SameMembersPermute(runs, kept);
    RunLessIsStrictWeak();
    SortCanonical(runs, kept, RunLess);
    runs := Sort(runs, RunLess);
  }

  // ----- Completeness of an enumeration -----

  /** Runs a server may hold: positive IDs, real creation times, no ID twice. */
  ghost predicate WellFormedServer(server: set<Run>) {
    && (forall r :: r in server ==> !Malformed(r))
    && (forall r, s :: r in server && s in server && r.id == s.id ==> r == s)
  }

  lemma {:induction false} NoDuplicates(rows: seq<Run>, server: set<Run>, requested: Interval)
    requires WellFormedServer(server) && Distinct(rows) && forall r :: r in rows ==> r in server
    ensures AllKept(rows, requested)
    ensures |Kept(rows, requested)| == UsableCount(rows, requested)
    ensures MalformedGaps(rows) == []
  {
    if rows != [] {
      var front, last := rows[..|rows| - 1], rows[|rows| - 1];
      assert rows == front + [last] && last !in front;
      assert last in rows;
      NoDuplicates(front, server, requested);
      IdIsNew(Kept(front, requested), last, server);
    }
  }

  /** Every row created in the requested interval is kept. */
  ghost predicate AllKept(rows: seq<Run>, requested: Interval) {
    forall r :: r in Kept(rows, requested) <==> r in rows && requested.Contains(r.created)
  }

  lemma IdIsNew(kept: seq<Run>, last: Run, server: set<Run>)
    requires WellFormedServer(server) && last in server && last !in kept && forall r :: r in kept ==> r in server
    ensures last.id !in Ids(kept)
  {
  }

  /** Every run created in the requested interval before the instant the walk reached is returned exactly once or lies
      in the window of exactly one leaf marked as a gap, and each marked leaf recorded gaps of its own. A walk that is
      not stopped reaches the end of the interval; one that is stopped records a gap. Without gaps the result is exactly
      the server's runs for the interval, sorted, with no row observed twice. */
  lemma Complete(p: Limits, w: World, server: set<Run>, requested: Interval)
    requires requested.Valid() && Honest(w, server) && WellFormedServer(server)
    ensures var o := Walk(p, w, SecondCover(requested), 0);
            var runs := Sort(Kept(o.runs, requested), RunLess);
            var leaves := Leaves(o.node);
            && Distinct(runs) && Sorted(runs, RunLess)
            && (forall r :: r in runs ==> r in server && requested.Contains(r.created))
            && (forall r :: r in server && requested.Contains(r.created) && r.created < Reached(o.node) ==>
                  r in runs || InOneMarkedLeaf(leaves, r))
            && (if o.stopped then o.gaps != [] else requested.to <= Reached(o.node))
            && Owns(o.gaps, leaves)
            && (o.gaps == [] ==> forall r :: r in runs <==> r in server && requested.Contains(r.created))
            && |Kept(o.runs, requested)| == UsableCount(o.runs, requested) && MalformedGaps(o.runs) == []
  {
    var cover := SecondCover(requested);
    var o := Walk(p, w, cover, 0);
    var kept := Kept(o.runs, requested);
    var leaves := Leaves(o.node);
    SecondCoverIsLeast(requested);
    NothingLost(p, w, server, cover, 0);
    EveryMarkHasAGap(p, w, cover, 0);
    OwnedIsMarked(o.gaps, leaves);
    LeavesTile(p, w, cover, 0);
    NoDuplicates(o.runs, server, requested);
    KeptIsSorted(o.runs, requested);
    forall r | r in server && requested.Contains(r.created) && r.created < Reached(o.node) && r !in Sort(kept, RunLess)
      ensures InOneMarkedLeaf(leaves, r) && o.gaps != []
    {
      var k := TileOf(leaves, cover.from, Reached(o.node), r.created);
      assert leaves[k] in leaves;
      assert Marked(leaves[k]);
    }
  }

  /** What an enumeration returns is complete: every run of the requested interval is in it, or is in one marked leaf of
      the tree it returns, or was created after the walk was stopped; and its gaps are those of the leaves. */
  lemma ResultIsComplete(w: World, p: Limits, server: set<Run>, requested: Interval, result: Result)
    requires requested.Valid() && Honest(w, server) && WellFormedServer(server) && result.Enumerated?
    requires result == Expected(w, Walk(p, w, SecondCover(requested), 0), requested)
    ensures Distinct(result.runs) && InOrder(result.runs)
    ensures forall r :: r in result.runs ==> r in server && requested.Contains(r.created)
    ensures forall r :: r in server && requested.Contains(r.created) && r.created < Reached(result.root) ==>
      r in result.runs || InOneMarkedLeaf(Leaves(result.root), r)
    ensures Owns(result.gaps, Leaves(result.root)) && (Reached(result.root) < requested.to ==> result.gaps != [])
    ensures result.gaps == [] ==> forall r :: r in result.runs <==> r in server && requested.Contains(r.created)
    ensures result.duplicates == 0
  {
    var o := Walk(p, w, SecondCover(requested), 0);
    Complete(p, w, server, requested);
    assert o.gaps + MalformedGaps(o.runs) == o.gaps;
    forall i, j | 0 <= i < j < |result.runs|
      ensures result.runs[i].created < result.runs[j].created
           || (result.runs[i].created == result.runs[j].created && result.runs[i].id < result.runs[j].id)
    {
      var a, b := result.runs[i], result.runs[j];
      assert a != b && a in server && b in server && !RunLess(b, a);
    }
  }

  /** Runs ascend by creation time, and by ID among those created at once. */
  ghost predicate InOrder(runs: seq<Run>) {
    forall i, j :: 0 <= i < j < |runs| ==>
      runs[i].created < runs[j].created || (runs[i].created == runs[j].created && runs[i].id < runs[j].id)
  }

  lemma KeptIsSorted(rows: seq<Run>, requested: Interval)
    ensures var runs := Sort(Kept(rows, requested), RunLess);
      Distinct(runs) && Sorted(runs, RunLess) && forall r :: r in runs <==> r in Kept(rows, requested)
  {
    var kept := Kept(rows, requested);
    KeptFacts(rows, requested);
    SortMembers(kept, RunLess);
    RunLessIsStrictWeak();
    SortSorts(kept, RunLess);
    DistinctSort(kept, RunLess);
  }

  ghost predicate InOneMarkedLeaf(leaves: seq<Node>, r: Run) {
    exists k :: 0 <= k < |leaves| && Marked(leaves[k]) && OnlyHolder(leaves, k, r.created)
  }

  ghost predicate OnlyHolder(leaves: seq<Node>, k: nat, t: int)
    requires k < |leaves|
  {
    leaves[k].window.Contains(t) && forall i :: 0 <= i < |leaves| && leaves[i].window.Contains(t) ==> i == k
  }
}
