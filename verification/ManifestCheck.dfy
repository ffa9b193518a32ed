/** What the integrity check of a case compares (internal/casefile/verify.go): lines, and so files only as far as their
    names survive being written on one. */
module ManifestCheck {
  import opened Orders
  import opened Manifest

  // ----- Names without line feeds -----

  /** The files as a reader of their lines takes them: a carriage return at the end of a name is lost. */
  function Dropped(files: seq<File>): seq<File> {
    seq(|files|, i requires 0 <= i < |files| => File(DropCR(files[i].name), files[i].digest))
  }

  /** Lines can be printed for these files: no name is empty or holds a line feed. */
  predicate OneLined(files: seq<File>) { forall f :: f in files ==> f.name != "" && '\n' !in f.name && IsDigest(f.digest) }

  /** What is read is a manifest: lines fit, and names are safe and distinct without their carriage returns. */
  ghost predicate Readable(files: seq<File>, seen: map<string, string>) {
    && Distinct(Names(Dropped(files)))
    && forall f :: f in files ==> 66 + |f.name| < MAX_LINE && Fresh(DropCR(f.name), seen)
  }

  predicate Fresh(name: string, seen: map<string, string>) { ValidRelative(name) && name != MANIFEST && name !in seen }

  /** The first line is read when it fits and its name, less a carriage return, is new and safe; otherwise nothing is. */
  lemma FirstRead(files: seq<File>, seen: map<string, string>)
    requires files != [] && OneLined(files)
    ensures var f := files[0];
      if 66 + |f.name| < MAX_LINE && Fresh(DropCR(f.name), seen)
      then Parse(Print(files), seen) == Parse(Print(files[1..]), seen[DropCR(f.name) := f.digest])
      else !Parse(Print(files), seen).Parsed?
  {
    var f := files[0];
    FirstLine(files);
    LineEntry(f);
    EntryOfLine(f.digest, DropCR(f.name));
  }

  lemma {:induction false} ReadsDropped(files: seq<File>, seen: map<string, string>)
    requires OneLined(files)
    ensures Parse(Print(files), seen).Parsed? <==> Readable(files, seen)
    ensures Parse(Print(files), seen).Parsed? ==> Parse(Print(files), seen) == Parsed(Extend(seen, Dropped(files)))
  {
    if files != [] {
      var f, rest := files[0], files[1..];
      FirstRead(files, seen);
      ReadableFirst(files, seen);
      assert Dropped(files)[1..] == Dropped(rest);
      if Fresh(DropCR(f.name), seen) { ReadsDropped(rest, seen[DropCR(f.name) := f.digest]); }
    }
  }

  lemma ReadableFirst(files: seq<File>, seen: map<string, string>)
    requires files != []
    ensures var f := files[0];
      Readable(files, seen) <==> 66 + |f.name| < MAX_LINE && Fresh(DropCR(f.name), seen) && Readable(files[1..], seen[DropCR(f.name) := f.digest])
  {
    var f, rest, d := files[0], files[1..], Dropped(files);
    var seen' := seen[DropCR(f.name) := f.digest];
    assert d[1..] == Dropped(rest) && files == [f] + rest;
    if Readable(files, seen) {
      TailDistinct(d);
      forall g | g in rest ensures Fresh(DropCR(g.name), seen') { DroppedMember(rest, g); }
    } else if Fresh(DropCR(f.name), seen) && Readable(rest, seen') && 66 + |f.name| < MAX_LINE {
      forall g | g in rest ensures Fresh(DropCR(g.name), seen) {}
      FirstDistinct(d);
    }
  }

  lemma DroppedMember(files: seq<File>, g: File)
    requires g in files
    ensures File(DropCR(g.name), g.digest) in Dropped(files)
  {
    var i :| 0 <= i < |files| && files[i] == g;
    assert Dropped(files)[i] == File(DropCR(g.name), g.digest);
  }

  lemma FirstDistinct(files: seq<File>)
    requires files != [] && Distinct(Names(files[1..])) && forall f :: f in files[1..] ==> f.name != files[0].name
    ensures Distinct(Names(files))
  {
    var names := Names(files);
    forall i, j | 0 <= i < j < |files| ensures names[i] != names[j] {
      assert files[1..][j - 1] == files[j];
      if i > 0 { assert Names(files[1..])[i - 1] == names[i] && Names(files[1..])[j - 1] == names[j]; }
    }
  }

  /** Printed manifests of files whose names hold no line feed verify exactly when both can be read and list the same
      names and digests once the carriage returns at the end of names are lost. */
  lemma VerifiesOneLined(recorded: seq<File>, actual: seq<File>)
    requires OneLined(recorded) && OneLined(actual)
    ensures Verifies(Print(recorded), Print(actual)) <==>
      Readable(recorded, map[]) && Readable(actual, map[]) && AsMap(Dropped(recorded)) == AsMap(Dropped(actual))
  {
    ReadsDropped(recorded, map[]);
    ReadsDropped(actual, map[]);
  }

  // ----- Any names: one with a line feed makes several lines, each read by itself -----

  /** The text cut at its line feeds. */
  function Segments(s: string): seq<string>
    decreases |s|
  {
    var n := IndexOf(s, '\n');
    if n < |s| then [s[..n]] + Segments(s[n + 1..]) else [s]
  }

  function Joined(lines: seq<string>): string { if lines == [] then "" else lines[0] + "\n" + Joined(lines[1..]) }

  /** The lines that are printed for the files. */
  function PrintedLines(files: seq<File>): seq<string> {
    if files == [] then [] else Segments(Line(files[0])) + PrintedLines(files[1..])
  }

  predicate NoFeeds(lines: seq<string>) { forall l :: l in lines ==> '\n' !in l }

  lemma {:induction false} SegmentsJoin(s: string)
    ensures Joined(Segments(s)) == s + "\n" && NoFeeds(Segments(s))
    decreases |s|
  {
    var n := IndexOf(s, '\n');
    if n < |s| {
      SegmentsJoin(s[n + 1..]);
      assert s == s[..n] + "\n" + s[n + 1..];
      assert Segments(s)[1..] == Segments(s[n + 1..]);
    } else {
      assert [s][1..] == [];
    }
  }

  lemma {:induction false} JoinedConcat(a: seq<string>, b: seq<string>)
    ensures Joined(a + b) == Joined(a) + Joined(b)
  {
    if a == [] {
      assert a + b == b;
    } else {
      JoinedConcat(a[1..], b);
      assert (a + b)[1..] == a[1..] + b;
    }
  }

  lemma {:induction false} PrintIsJoined(files: seq<File>)
    ensures Print(files) == Joined(PrintedLines(files)) && NoFeeds(PrintedLines(files))
  {
    if files != [] {
      SegmentsJoin(Line(files[0]));
      PrintIsJoined(files[1..]);
      JoinedConcat(Segments(Line(files[0])), PrintedLines(files[1..]));
    }
  }

  /** What a line says; lines that say nothing are not read. */
  function Said(line: string): File {
    var entry := Entry(DropCR(line));
    if entry.Some? then entry.value else File("", "")
  }

  function EntriesOf(lines: seq<string>): seq<File> { seq(|lines|, i requires 0 <= i < |lines| => Said(lines[i])) }

  predicate LineRead(line: string, seen: map<string, string>) {
    |line| < MAX_LINE && Entry(DropCR(line)).Some? && Said(line).name !in seen
  }

  /** The lines are a manifest: each fits and is well formed, and no name is repeated. */
  ghost predicate LinesRead(lines: seq<string>, seen: map<string, string>) {
    Distinct(Names(EntriesOf(lines))) && forall l :: l in lines ==> LineRead(l, seen)
  }

  lemma FirstJoined(lines: seq<string>, seen: map<string, string>)
    requires lines != [] && NoFeeds(lines)
    ensures if LineRead(lines[0], seen) then Parse(Joined(lines), seen) == Parse(Joined(lines[1..]), seen[Said(lines[0]).name := Said(lines[0]).digest])
      else !Parse(Joined(lines), seen).Parsed?
  {
    var line, tail := lines[0], Joined(lines[1..]);
    var data := Joined(lines);
    assert line in lines && data == line + "\n" + tail;
    assert data[..|line|] == line && data[|line|] == '\n' && data[|line| + 1..] == tail;
    FirstFound(data, |line|, '\n');
  }

  lemma LinesReadRest(lines: seq<string>, seen: map<string, string>)
    requires lines != [] && LinesRead(lines, seen)
    ensures LineRead(lines[0], seen) && LinesRead(lines[1..], seen[Said(lines[0]).name := Said(lines[0]).digest])
  {
    var rest, entries := lines[1..], EntriesOf(lines);
    var seen' := seen[Said(lines[0]).name := Said(lines[0]).digest];
    assert entries[1..] == EntriesOf(rest) && entries[0] == Said(lines[0]);
    TailDistinct(entries);
    forall l | l in rest ensures LineRead(l, seen') {
      SaidAmong(rest, l);
      assert l in lines && LineRead(l, seen);
    }
  }

  lemma LinesReadMore(lines: seq<string>, seen: map<string, string>)
    requires lines != [] && LineRead(lines[0], seen)
    requires LinesRead(lines[1..], seen[Said(lines[0]).name := Said(lines[0]).digest])
    ensures LinesRead(lines, seen)
  {
    var rest, entries := lines[1..], EntriesOf(lines);
    var seen' := seen[Said(lines[0]).name := Said(lines[0]).digest];
    assert entries[1..] == EntriesOf(rest) && lines == [lines[0]] + rest;
    forall f | f in entries[1..] ensures f.name != entries[0].name {
      var i :| 0 <= i < |rest| && EntriesOf(rest)[i] == f;
      assert rest[i] in rest && LineRead(rest[i], seen');
    }
    FirstDistinct(entries);
    forall l | l in rest ensures LineRead(l, seen) { assert LineRead(l, seen'); }
  }

  lemma SaidAmong(lines: seq<string>, l: string)
    requires l in lines
    ensures Said(l) in EntriesOf(lines)
  {
    var i :| 0 <= i < |lines| && lines[i] == l;
    assert EntriesOf(lines)[i] == Said(l);
  }

  lemma {:induction false} ReadsLines(lines: seq<string>, seen: map<string, string>)
    requires NoFeeds(lines)
    ensures Parse(Joined(lines), seen).Parsed? <==> LinesRead(lines, seen)
    ensures Parse(Joined(lines), seen).Parsed? ==> Parse(Joined(lines), seen) == Parsed(Extend(seen, EntriesOf(lines)))
  {
    if lines != [] {
      FirstJoined(lines, seen);
      if LinesRead(lines, seen) { LinesReadRest(lines, seen); }
      if LineRead(lines[0], seen) && LinesRead(lines[1..], seen[Said(lines[0]).name := Said(lines[0]).digest]) { LinesReadMore(lines, seen); }
      assert EntriesOf(lines)[1..] == EntriesOf(lines[1..]);
      ReadsLines(lines[1..], seen[Said(lines[0]).name := Said(lines[0]).digest]);
    }
  }

  /** Printed manifests of any files verify exactly when the lines of both are well formed without a repeated name and say
      the same. */
  lemma VerifiesExactly(recorded: seq<File>, actual: seq<File>)
    ensures Verifies(Print(recorded), Print(actual)) <==>
      && LinesRead(PrintedLines(recorded), map[]) && LinesRead(PrintedLines(actual), map[])
      && AsMap(EntriesOf(PrintedLines(recorded))) == AsMap(EntriesOf(PrintedLines(actual)))
  {
    PrintIsJoined(recorded);
    PrintIsJoined(actual);
    ReadsLines(PrintedLines(recorded), map[]);
    ReadsLines(PrintedLines(actual), map[]);
  }

  /** A name may hold a whole further line: the check takes that one file for two. */
  lemma LineFeedIsLost(digest: string, other: string)
    requires IsDigest(digest) && IsDigest(other)
    ensures var one, two := [File("a\n" + other + "  b", digest)], [File("a", digest), File("b", other)];
      && Printable(one) && Printable(two) && Verifies(Print(one), Print(two)) && Verifies(Print(two), Print(one))
  {
    var name := "a\n" + other + "  b";
    var one, two := [File(name, digest)], [File("a", digest), File("b", other)];
    NestedName(other);
    FirstFound("b", 1, '/');
    SafeNames();
    PrintTwo(two[0], two[1]);
    PrintTwo(one[0], one[0]);
    assert digest + "  " + name + "\n" == digest + "  " + "a" + "\n" + (other + "  " + "b" + "\n");
    assert Names(one) == [name] && Names(two) == ["a", "b"];
    forall f | f in two ensures Survives(f.name) { assert f == two[0] || f == two[1]; }
    RoundTrip(two);
  }

  lemma PrintTwo(f: File, g: File)
    ensures Print([f]) == Line(f) + "\n" && Print([f, g]) == Line(f) + "\n" + (Line(g) + "\n")
  {
    assert [f][1..] == [] && [f, g][1..] == [g] && [g][1..] == [];
    assert Print([g]) == Line(g) + "\n" + "";
  }

  lemma NestedName(other: string)
    requires IsDigest(other)
    ensures ValidRelative("a\n" + other + "  b") && "a\n" + other + "  b" != MANIFEST
  {
    var name := "a\n" + other + "  b";
    forall i | 0 <= i < |name| ensures name[i] != '/' && name[i] != '\\' && name[i] != '\0' {
      if 2 <= i < 66 { assert name[i] == other[i - 2] && other[i - 2] in other; }
    }
    FirstFound(name, |name|, '/');
    assert |name| == 69;
  }

  /** When every name survives its line, the check accepts exactly when the files are the same. */
  lemma CheckComparesFiles(recorded: seq<File>, actual: seq<File>)
    requires Printable(recorded) && Printable(actual)
    requires forall f :: f in recorded + actual ==> Survives(f.name)
    ensures Verifies(Print(recorded), Print(actual)) <==> forall f :: f in recorded <==> f in actual
  {
    forall f | f in recorded ensures f in recorded + actual {}
    forall f | f in actual ensures f in recorded + actual {}
    RoundTrip(recorded);
    RoundTrip(actual);
    MapOfFiles(recorded);
    MapOfFiles(actual);
    if forall f :: f in recorded <==> f in actual {
      SameFilesSameMap(recorded, actual);
    }
  }

  /** The map holds the files and nothing else. */
  lemma MapOfFiles(files: seq<File>)
    requires Distinct(Names(files))
    ensures forall f :: f in files <==> f.name in AsMap(files) && AsMap(files)[f.name] == f.digest
  {
    ExtendHolds(map[], files);
  }

  lemma {:induction false} ExtendHolds(seen: map<string, string>, files: seq<File>)
    requires Distinct(Names(files)) && forall f :: f in files ==> f.name !in seen
    ensures forall f: File :: Holds(Extend(seen, files), f) <==> Holds(seen, f) || f in files
    decreases |files|
  {
    if files != [] {
      var first := files[0];
      TailDistinct(files);
      ExtendHolds(seen[first.name := first.digest], files[1..]);
      assert files == [first] + files[1..];
    }
  }

  predicate Holds(m: map<string, string>, f: File) { f.name in m && m[f.name] == f.digest }

  lemma SameFilesSameMap(a: seq<File>, b: seq<File>)
    requires Distinct(Names(a)) && Distinct(Names(b)) && forall f :: f in a <==> f in b
    ensures AsMap(a) == AsMap(b)
  {
    MapOfFiles(a);
    MapOfFiles(b);
    var m, n := AsMap(a), AsMap(b);
    forall name ensures name in m <==> name in n {
      if name in m { assert File(name, m[name]) in b; }
      if name in n { assert File(name, n[name]) in a; }
    }
    forall name | name in m ensures m[name] == n[name] { assert File(name, m[name]) in b; }
  }

  /** A name that ends in a carriage return does not survive: the check takes the file "a" for the file "a\r". */
  lemma CarriageReturnIsLost(digest: string)
    requires IsDigest(digest)
    ensures var a, b := [File("a", digest)], [File("a\r", digest)];
      && Printable(a) && Printable(b) && a != b
      && Verifies(Print(a), Print(b)) && Verifies(Print(b), Print(a)) && Parse(Print(b), map[]) != Parsed(AsMap(b))
  {
    var a, b := [File("a", digest)], [File("a\r", digest)];
    SafeNames();
    assert a[0].name == "a" && b[0].name == "a\r";
    assert Dropped(a) == a && Dropped(b) == a;
    VerifiesOneLined(a, b);
    VerifiesOneLined(b, a);
    RoundTrip(b);
    assert b[0] in b && !Survives(b[0].name);
  }

  lemma SafeNames()
    ensures ValidRelative("a") && ValidRelative("a\r") && DropCR("a") == "a" && DropCR("a\r") == "a"
  {
    FirstFound("a", 1, '/');
    FirstFound("a\r", 2, '/');
  }
}
