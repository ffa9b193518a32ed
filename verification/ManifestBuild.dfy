/** Building the case manifest within traversal budgets (internal/casefile/casefile.go). */
module ManifestBuild {
  import opened Orders
  import opened Manifest

  newtype uint64 = x: int | 0 <= x < 0x1_0000_0000_0000_0000

  datatype Kind = Directory | Regular | Symlink | Irregular

  /** What the walk meets below the case directory; sizes are signed. */
  datatype Item = Item(relative: string, kind: Kind, size: int)

  datatype Limits = Limits(maxEntries: uint64, maxDepth: int, maxFileBytes: uint64, maxAggregateBytes: uint64)

  function Slashes(path: string): nat { if path == "" then 0 else (if path[0] == '/' then 1 else 0) + Slashes(path[1..]) }

  /** `relativePathDepth` of a path the walk reports. */
  function Depth(path: string): nat { Slashes(path) + 1 }

  predicate WithinFileLimits(item: Item, limits: Limits) {
    0 <= item.size <= limits.maxFileBytes as int && (item.relative == MANIFEST || ValidRelative(item.relative))
  }

  predicate Allowed(item: Item, limits: Limits) {
    Depth(item.relative) <= limits.maxDepth && (item.kind.Directory? || (item.kind.Regular? && WithinFileLimits(item, limits)))
  }

  function Bytes(item: Item): nat { if item.kind.Regular? && item.size >= 0 then item.size else 0 }

  /** The size of the tree, over the integers. */
  function TotalBytes(items: seq<Item>): nat {
    if items == [] then 0 else TotalBytes(items[..|items| - 1]) + Bytes(items[|items| - 1])
  }

  function AllowedBy(limits: Limits): Item -> bool { item => Allowed(item, limits) }

  ghost predicate All<T>(s: seq<T>, p: T -> bool) { forall i :: 0 <= i < |s| ==> p(s[i]) }

  /** The tree is within every budget. */
  ghost predicate Admitted(items: seq<Item>, limits: Limits) {
    |items| <= limits.maxEntries as int && All(items, AllowedBy(limits)) && TotalBytes(items) <= limits.maxAggregateBytes as int
  }

  predicate UsableLimits(limits: Limits) {
    limits.maxEntries != 0 && limits.maxDepth >= 1 && limits.maxFileBytes != 0 && limits.maxAggregateBytes != 0
  }

  predicate Listed(item: Item) { item.kind.Regular? && item.relative != MANIFEST }

  /** The files to list, in the order of the walk. */
  function Plan(items: seq<Item>): seq<(string, nat)> {
    if items == [] then []
    else
      var last := items[|items| - 1];
      Plan(items[..|items| - 1]) + if Listed(last) then [(last.relative, Bytes(last))] else []
  }

  /** Every regular file of an admitted tree is listed with its size, empty ones included, but for the manifest itself;
      and nothing else is. */
  lemma {:induction false} ListsEveryFile(items: seq<Item>, limits: Limits, name: string, size: nat)
    requires Admitted(items, limits)
    ensures (name, size) in Plan(items) <==>
      exists item :: item in items && item.kind == Regular && item.relative == name != "manifest.sha256" && item.size == size
  {
    if items != [] {
      var front, last := items[..|items| - 1], items[|items| - 1];
      AdmittedFront(items, limits);
      ListsEveryFile(front, limits, name, size);
      assert AllowedBy(limits)(last);
      assert forall item :: item in items <==> item in front || item == last;
    }
  }

  lemma AdmittedFront(items: seq<Item>, limits: Limits)
    requires items != [] && Admitted(items, limits)
    ensures Admitted(items[..|items| - 1], limits)
  {
    AllStep(items, AllowedBy(limits), |items| - 1);
    assert items[..|items| - 1 + 1] == items;
  }

  /** A path is as deep as it has parts: one more than the slashes in it. */
  lemma {:induction false} DepthCounts(path: string)
    ensures Depth(path) == multiset(path)['/'] + 1
  {
    if path != "" {
      DepthCounts(path[1..]);
      assert path == [path[0]] + path[1..];
    }
  }

  lemma {:induction false} BytesGrow(items: seq<Item>, i: nat)
    requires i <= |items|
    ensures TotalBytes(items[..i]) <= TotalBytes(items)
  {
    if i < |items| {
      BytesGrow(items[..|items| - 1], i);
      assert items[..|items| - 1][..i] == items[..i];
    } else {
      assert items[..i] == items;
    }
  }

  /** One step of the walk: whether the item is within every budget, and the bytes counted so far. */
  method Admit(item: Item, entries: nat, aggregate: uint64, limits: Limits) returns (admitted: bool, total: uint64)
    requires aggregate <= limits.maxAggregateBytes
    ensures admitted <==> && entries <= limits.maxEntries as int && Allowed(item, limits)
                          && aggregate as int + Bytes(item) <= limits.maxAggregateBytes as int
    ensures admitted ==> total as int == aggregate as int + Bytes(item)
  {
    admitted, total := false, aggregate;
    if entries > limits.maxEntries as int || Depth(item.relative) > limits.maxDepth || item.kind.Symlink? {
      return;
    }
    if item.kind.Directory? {
      return true, aggregate;
    }
    if !item.kind.Regular? || item.size < 0 || item.size > limits.maxFileBytes as int {
      return;
    }
    var fileBytes := item.size as uint64;
    if fileBytes > limits.maxAggregateBytes || aggregate > limits.maxAggregateBytes - fileBytes {
      return;
    }
    total := aggregate + fileBytes;
    admitted := item.relative == MANIFEST || ValidRelative(item.relative);
  }

  lemma AllStep<T>(s: seq<T>, p: T -> bool, i: nat)
    requires i < |s|
    ensures All(s[..i + 1], p) <==> All(s[..i], p) && p(s[i])
    ensures All(s, p) ==> All(s[..i + 1], p)
  {
    assert s[..i + 1] == s[..i] + [s[i]];
    if All(s[..i + 1], p) {
      assert p(s[..i + 1][i]);
      forall j | 0 <= j < i ensures p(s[..i][j]) { assert s[..i][j] == s[..i + 1][j]; }
    }
  }

  lemma WalkStep(items: seq<Item>, limits: Limits, i: nat)
    requires i < |items|
    ensures TotalBytes(items[..i + 1]) == TotalBytes(items[..i]) + Bytes(items[i])
    ensures Plan(items[..i + 1]) == Plan(items[..i]) + if Listed(items[i]) then [(items[i].relative, Bytes(items[i]))] else []
    ensures Admitted(items[..i + 1], limits) <==>
      && Admitted(items[..i], limits) && i + 1 <= limits.maxEntries as int && Allowed(items[i], limits)
      && TotalBytes(items[..i]) + Bytes(items[i]) <= limits.maxAggregateBytes as int
    ensures Admitted(items, limits) ==> Admitted(items[..i + 1], limits)
  {
    assert items[..i + 1][..i] == items[..i];
    AllStep(items, AllowedBy(limits), i);
    BytesGrow(items, i + 1);
  }

  /** The walk: it stops at the first item that is over a budget. */
  method EnumerateFiles(items: seq<Item>, limits: Limits) returns (files: Option<seq<(string, nat)>>)
    ensures files.Some? <==> Admitted(items, limits)
    ensures files.Some? ==> files.value == Plan(items)
  {
    var planned: seq<(string, nat)> := [];
    var aggregate: uint64 := 0;
    for i := 0 to |items|
      invariant Admitted(items[..i], limits) && aggregate as int == TotalBytes(items[..i]) && planned == Plan(items[..i])
    {
      WalkStep(items, limits, i);
      var admitted, total := Admit(items[i], i + 1, aggregate, limits);
      if !admitted {
        return None;
      }
      aggregate := total;
      if Listed(items[i]) {
        planned := planned + [(items[i].relative, Bytes(items[i]))];
      }
    }
    assert items[..|items|] == items;
    return Some(planned);
  }

  predicate ByName(a: (string, nat), b: (string, nat)) { StringLess(a.0, b.0) }

  /** What hashing a file of the given size gives; None when it cannot be read or its size has changed. */
  type Hash = (string, nat) -> Option<string>

  predicate Hashed(hash: Hash, p: (string, nat)) { hash(p.0, p.1).Some? }

  function FileOf(hash: Hash, p: (string, nat)): File { File(p.0, if Hashed(hash, p) then hash(p.0, p.1).value else "") }

  function FilesOf(hash: Hash, planned: seq<(string, nat)>): seq<File> {
    seq(|planned|, i requires 0 <= i < |planned| => FileOf(hash, planned[i]))
  }

  lemma {:induction false} PrintLast(files: seq<File>, f: File)
    ensures Print(files + [f]) == Print(files) + (Line(f) + "\n")
  {
    if files == [] {
      assert files + [f] == [f];
      assert Print([f]) == Line(f) + "\n" + Print([f][1..]);
    } else {
      assert (files + [f])[1..] == files[1..] + [f];
      PrintLast(files[1..], f);
    }
  }

  lemma WriteStep(hash: Hash, files: seq<(string, nat)>, i: nat)
    requires i < |files|
    ensures Print(FilesOf(hash, files[..i + 1])) == Print(FilesOf(hash, files[..i])) + (Line(FileOf(hash, files[i])) + "\n")
  {
    assert FilesOf(hash, files[..i + 1]) == FilesOf(hash, files[..i]) + [FileOf(hash, files[i])];
    PrintLast(FilesOf(hash, files[..i]), FileOf(hash, files[i]));
  }

  /** Hashing the files in order and writing their lines. */
  method WriteLines(files: seq<(string, nat)>, hash: Hash) returns (text: Option<string>)
    ensures text.Some? <==> forall i :: 0 <= i < |files| ==> Hashed(hash, files[i])
    ensures text.Some? ==> text.value == Print(FilesOf(hash, files))
  {
    var output := "";
    for i := 0 to |files|
      invariant forall j :: 0 <= j < i ==> Hashed(hash, files[j])
      invariant output == Print(FilesOf(hash, files[..i]))
    {
      var digest := hash(files[i].0, files[i].1);
      if digest.None? {
        assert !Hashed(hash, files[i]);
        return None;
      }
      WriteStep(hash, files, i);
      output := output + (Line(File(files[i].0, digest.value)) + "\n");
    }
    assert files[..|files|] == files;
    return Some(output);
  }

  /** `buildManifestWithLimits` */
  method BuildManifest(items: seq<Item>, limits: Limits, hash: Hash) returns (text: Option<string>)
    ensures text.Some? <==> UsableLimits(limits) && Admitted(items, limits) && forall p :: p in Plan(items) ==> Hashed(hash, p)
    ensures text.Some? ==> text.value == Print(FilesOf(hash, Sort(Plan(items), ByName)))
  {
    if limits.maxEntries == 0 || limits.maxDepth < 1 || limits.maxFileBytes == 0 || limits.maxAggregateBytes == 0 {
      return None;
    }
    var planned := EnumerateFiles(items, limits);
    if planned.None? {
      return None;
    }
    text := WriteLines(Sort(planned.value, ByName), hash);
    SortMembers(planned.value, ByName);
  }

  // ----- What is built verifies -----

  function Paths(planned: seq<(string, nat)>): seq<string> { seq(|planned|, i requires 0 <= i < |planned| => planned[i].0) }

  lemma {:induction false} PlanIsSafe(items: seq<Item>, limits: Limits)
    requires All(items, AllowedBy(limits))
    ensures forall p :: p in Plan(items) ==> ValidRelative(p.0) && p.0 != MANIFEST
  {
    if items != [] {
      AllStep(items, AllowedBy(limits), |items| - 1);
      assert items[..|items|] == items;
      PlanIsSafe(items[..|items| - 1], limits);
    }
  }

  lemma {:induction false} InsertPaths(x: (string, nat), s: seq<(string, nat)>)
    ensures Paths(Insert(x, s, ByName)) == Insert(x.0, Paths(s), StringLess)
  {
    if s != [] {
      assert Paths(s)[1..] == Paths(s[1..]);
      InsertPaths(x, s[1..]);
    }
  }

  lemma {:induction false} SortPaths(s: seq<(string, nat)>)
    ensures Paths(Sort(s, ByName)) == Sort(Paths(s), StringLess)
  {
    if s != [] {
      assert Paths(s)[1..] == Paths(s[1..]);
      SortPaths(s[1..]);
      InsertPaths(s[0], Sort(s[1..], ByName));
    }
  }

  lemma FilesMember(hash: Hash, plan: seq<(string, nat)>)
    ensures forall f :: f in FilesOf(hash, Sort(plan, ByName)) ==> exists p :: p in plan && f == FileOf(hash, p)
    ensures forall p :: p in plan ==> FileOf(hash, p) in FilesOf(hash, Sort(plan, ByName))
  {
    var sorted := Sort(plan, ByName);
    var files := FilesOf(hash, sorted);
    SortMembers(plan, ByName);
    forall f | f in files ensures exists p :: p in plan && f == FileOf(hash, p) {
      var i :| 0 <= i < |files| && files[i] == f;
      assert sorted[i] in plan;
    }
    forall p | p in plan ensures FileOf(hash, p) in files {
      var i :| 0 <= i < |sorted| && sorted[i] == p;
      assert files[i] == FileOf(hash, p);
    }
  }

  lemma FilesAscend(hash: Hash, plan: seq<(string, nat)>)
    requires Distinct(Paths(plan))
    ensures Sorted(Names(FilesOf(hash, Sort(plan, ByName))), StringLess) && Distinct(Names(FilesOf(hash, Sort(plan, ByName))))
  {
    SortPaths(plan);
    assert Names(FilesOf(hash, Sort(plan, ByName))) == Paths(Sort(plan, ByName));
    StringLessIsStrictWeak();
    SortSorts(Paths(plan), StringLess);
    DistinctSort(Paths(plan), StringLess);
  }

  /** A manifest built from an admitted tree of distinct paths lists them in ascending order, and what is read back is
      what was built if and only if every path survives its line. */
  lemma BuiltManifestReadsBack(items: seq<Item>, limits: Limits, hash: Hash)
    requires Admitted(items, limits) && Distinct(Paths(Plan(items)))
    requires forall p :: p in Plan(items) ==> Hashed(hash, p) && IsDigest(hash(p.0, p.1).value)
    ensures var files := FilesOf(hash, Sort(Plan(items), ByName));
      && Sorted(Names(files), StringLess)
      && (Parse(Print(files), map[]) == Parsed(AsMap(files)) <==> forall p :: p in Plan(items) ==> Survives(p.0))
  {
    PlanIsSafe(items, limits);
    FilesAscend(hash, Plan(items));
    FilesMember(hash, Plan(items));
    RoundTrip(FilesOf(hash, Sort(Plan(items), ByName)));
  }
}
