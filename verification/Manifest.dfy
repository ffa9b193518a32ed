/** The case manifest: its printer, its parser and the integrity check (internal/casefile/casefile.go,
    internal/casefile/verify.go). Strings are Go strings: each character stands for one byte. */
module Manifest {
  import opened Orders

  const MANIFEST := "manifest.sha256"

  /** The scanner's token limit: a line with its terminator must fit. */
  const MAX_LINE := 0x10_0000

  datatype File = File(name: string, digest: string)

  datatype Outcome = Parsed(entries: map<string, string>) | Malformed | Duplicate(name: string) | TooLong

  // ----- Names and digests -----

  function IndexOf(s: string, c: char): (i: nat)
    ensures i <= |s| && c !in s[..i] && (i < |s| ==> s[i] == c)
  {
    if s == "" || s[0] == c then 0 else 1 + IndexOf(s[1..], c)
  }

  /** `filepath.Clean` leaves the relative path as it is and it does not climb: no component is empty, "." or "..". */
  predicate CleanPath(name: string)
    decreases |name|
  {
    var i := IndexOf(name, '/');
    && name[..i] != "" && name[..i] != "." && name[..i] != ".."
    && (i < |name| ==> CleanPath(name[i + 1..]))
  }

  /** name[i..j] is what stands between two slashes, or between a slash and an end. */
  predicate IsPart(name: string, i: nat, j: nat) {
    && i <= j <= |name| && '/' !in name[i..j]
    && (i == 0 || name[i - 1] == '/') && (j == |name| || name[j] == '/')
  }

  predicate IsName(part: string) { part != "" && part != "." && part != ".." }

  ghost predicate PartsAreNames(name: string) { forall i: nat, j: nat :: IsPart(name, i, j) ==> IsName(name[i..j]) }

  /** A path is clean exactly when none of its parts is empty or one or two dots. */
  lemma {:induction false} CleanExactly(name: string)
    ensures CleanPath(name) <==> PartsAreNames(name)
    decreases |name|
  {
    var n := IndexOf(name, '/');
    PartIsFirst(name);
    assert name[0..n] == name[..n] && IsPart(name, 0, n);
    if n < |name| {
      CleanExactly(name[n + 1..]);
      if PartsAreNames(name) { PartsOfTail(name, n); }
      if IsName(name[..n]) && PartsAreNames(name[n + 1..]) { PartsOfWhole(name, n); }
    }
  }

  /** The part that starts the path ends at its first slash. */
  lemma PartIsFirst(name: string)
    ensures forall j: nat :: IsPart(name, 0, j) ==> j == IndexOf(name, '/')
    ensures forall i: nat, j: nat :: IsPart(name, i, j) && i > 0 ==> IndexOf(name, '/') < i
  {
  }

  /** Behind a slash the parts are those of the rest. */
  lemma PartBehind(name: string, n: nat, i: nat, j: nat)
    requires n < i <= j <= |name| && name[n] == '/'
    ensures name[n + 1..][i - n - 1..j - n - 1] == name[i..j]
    ensures IsPart(name[n + 1..], i - n - 1, j - n - 1) <==> IsPart(name, i, j)
  {
    var tail := name[n + 1..];
    assert tail[i - n - 1..j - n - 1] == name[i..j];
    assert i > n + 1 ==> tail[i - n - 2] == name[i - 1];
    assert j < |name| ==> tail[j - n - 1] == name[j];
  }

  lemma PartsOfTail(name: string, n: nat)
    requires n < |name| && name[n] == '/' && PartsAreNames(name)
    ensures PartsAreNames(name[n + 1..])
  {
    var tail := name[n + 1..];
    forall i: nat, j: nat | IsPart(tail, i, j) ensures IsName(tail[i..j]) { PartBehind(name, n, i + n + 1, j + n + 1); }
  }

  lemma PartsOfWhole(name: string, n: nat)
    requires n == IndexOf(name, '/') < |name| && IsName(name[..n]) && PartsAreNames(name[n + 1..])
    ensures PartsAreNames(name)
  {
    PartIsFirst(name);
    forall i: nat, j: nat | IsPart(name, i, j) ensures IsName(name[i..j]) {
      if i > 0 { PartBehind(name, n, i, j); } else { assert name[0..j] == name[..n]; }
    }
  }

  /** `validRelative` */
  predicate ValidRelative(name: string) { '\\' !in name && '\0' !in name && CleanPath(name) }

  predicate LowerHex(c: char) { '0' <= c <= '9' || 'a' <= c <= 'f' }

  predicate Hex(c: char) { LowerHex(c) || 'A' <= c <= 'F' }

  function Lower(c: char): char { if 'A' <= c <= 'Z' then (c as int + 32) as char else c }

  function ToLower(s: string): string { seq(|s|, i requires 0 <= i < |s| => Lower(s[i])) }

  /** 64 lower-case hexadecimal digits, as `hex.EncodeToString` writes a SHA-256. */
  predicate IsDigest(s: string) { |s| == 64 && forall c :: c in s ==> LowerHex(c) }

  lemma ToLowerKeeps(s: string)
    requires forall c :: c in s ==> LowerHex(c)
    ensures ToLower(s) == s
  {
    forall i | 0 <= i < |s| ensures ToLower(s)[i] == s[i] { assert s[i] in s; }
  }

  // ----- Printing -----

  function Line(f: File): string { f.digest + "  " + f.name }

  function Print(files: seq<File>): string {
    if files == [] then "" else Line(files[0]) + "\n" + Print(files[1..])
  }

  // ----- Parsing -----

  function DropCR(line: string): string {
    if line != "" && line[|line| - 1] == '\r' then line[..|line| - 1] else line
  }

  /** What one line of the manifest says, if it is well formed. */
  function Entry(line: string): Option<File> {
    if |line| < 67 || line[64..66] != "  " then None
    else if (exists c :: c in line[..64] && !Hex(c)) || !ValidRelative(line[66..]) || line[66..] == MANIFEST then None
    else Some(File(line[66..], ToLower(line[..64])))
  }

  /** The text after the first line and its terminator. */
  function After(data: string): string {
    var n := IndexOf(data, '\n');
    if n < |data| then data[n + 1..] else ""
  }

  function Parse(data: string, seen: map<string, string>): Outcome
    decreases |data|, 0
  {
    if data == "" then Parsed(seen)
    else if IndexOf(data, '\n') >= MAX_LINE then TooLong
    else ParseLine(DropCR(data[..IndexOf(data, '\n')]), After(data), seen)
  }

  function ParseLine(line: string, tail: string, seen: map<string, string>): Outcome
    decreases |tail|, 1
  {
    match Entry(line)
    case None => Malformed
    case Some(f) => if f.name in seen then Duplicate(f.name) else Parse(tail, seen[f.name := f.digest])
  }

  /** `bufio.Scanner` splitting lines out of bytes in memory. */
  class Scanner {
    const data: string
    var start: nat
    var tooLong: bool

    ghost predicate Valid()
      reads this
    {
      start <= |data|
    }

    function Rest(): string
      requires Valid()
      reads this
    {
      data[start..]
    }

    constructor (data: string)
      ensures Valid() && this.data == data && Rest() == data && !tooLong
    {
      this.data, start, tooLong := data, 0, false;
    }

    method Scan() returns (more: bool, line: string)
      requires Valid() && !tooLong
      modifies this
      ensures Valid()
      ensures old(Rest()) == "" ==> !more && !tooLong
      ensures old(Rest()) != "" ==> tooLong == (IndexOf(old(Rest()), '\n') >= MAX_LINE) && more == !tooLong
      ensures !more ==> Rest() == old(Rest())
      ensures more ==> |Rest()| < |old(Rest())|
      ensures more ==> line == DropCR(old(Rest())[..IndexOf(old(Rest()), '\n')]) && Rest() == After(old(Rest()))
    {
      more, line := false, "";
      if start == |data| {
        return;
      }
      var end := LineEnd();
      if end - start >= MAX_LINE {
        tooLong := true;
        return;
      }
      more, line := true, data[start..end];
      assert line == Rest()[..end - start];
      if line != "" && line[|line| - 1] == '\r' {
        line := line[..|line| - 1];
      }
      start := if end < |data| then end + 1 else end;
    }

    method LineEnd() returns (end: nat)
      requires Valid()
      ensures end == start + IndexOf(Rest(), '\n')
    {
      end := start;
      while end < |data| && data[end] != '\n'
        invariant start <= end <= |data|
        invariant forall k :: start <= k < end ==> data[k] != '\n'
      {
        end := end + 1;
      }
      FirstFound(Rest(), end - start, '\n');
    }
  }

  lemma FirstFound(s: string, i: nat, c: char)
    requires i <= |s| && c !in s[..i] && (i < |s| ==> s[i] == c)
    ensures IndexOf(s, c) == i
  {
    var j := IndexOf(s, c);
    forall k | 0 <= k < i ensures s[k] != c { assert s[..i][k] in s[..i]; }
    forall k | 0 <= k < j ensures s[k] != c { assert s[..j][k] in s[..j]; }
  }

  method ReadEntry(line: string) returns (entry: Option<File>)
    ensures entry == Entry(line)
  {
    if |line| < 67 || line[64..66] != "  " {
      return None;
    }
    var digest, name := line[..64], line[66..];
    if (exists c :: c in digest && !Hex(c)) || !ValidRelative(name) || name == MANIFEST {
      return None;
    }
    return Some(File(name, ToLower(digest)));
  }

  /** `parseManifest` */
  method ParseManifest(data: string) returns (outcome: Outcome)
    ensures outcome == Parse(data, map[])
  {
    var expected: map<string, string> := map[];
    var scanner := new Scanner(data);
    var more, line := scanner.Scan();
    while more
      invariant scanner.Valid() && (more ==> !scanner.tooLong)
      invariant more ==> Parse(data, map[]) == ParseLine(line, scanner.Rest(), expected)
      invariant !more ==> Parse(data, map[]) == if scanner.tooLong then TooLong else Parsed(expected)
      decreases |scanner.Rest()|, more
    {
      var entry := ReadEntry(line);
      if entry.None? {
        return Malformed;
      }
      if entry.value.name in expected {
        return Duplicate(entry.value.name);
      }
      expected := expected[entry.value.name := entry.value.digest];
      more, line := scanner.Scan();
    }
    if scanner.tooLong {
      return TooLong;
    }
    return Parsed(expected);
  }

  /** Both texts are manifests, and they say the same. */
  predicate Verifies(recorded: string, generated: string) {
    Parse(recorded, map[]).Parsed? && Parse(recorded, map[]) == Parse(generated, map[])
  }

  /** `verifyManifestIntegrity`: the recorded manifest against the one generated from the files. */
  method VerifyManifestIntegrity(recorded: string, generated: string) returns (verified: Option<map<string, string>>)
    ensures verified.Some? <==> Verifies(recorded, generated)
    ensures verified.Some? ==> Parse(recorded, map[]) == Parsed(verified.value)
  {
    var e := ParseManifest(recorded);
    if !e.Parsed? {
      return None;
    }
    var a := ParseManifest(generated);
    if !a.Parsed? {
      return None;
    }
    var expected, actual := e.entries, a.entries;
    if |actual| != |expected| {
      return None;
    }
    EntriesAreSafe(recorded, map[]);
    var agree := AgreesOn(expected, actual);
    if !agree {
      return None;
    }
    SameSizeAndContained(expected, actual);
    return Some(expected);
  }

  /** The loop over the recorded names; Go reads "" for a name that is not there. */
  method AgreesOn(expected: map<string, string>, actual: map<string, string>) returns (agree: bool)
    requires forall name :: name in expected ==> expected[name] != ""
    ensures agree <==> forall name :: name in expected ==> name in actual && actual[name] == expected[name]
  {
    var names := expected.Keys;
    while names != {}
      invariant names <= expected.Keys
      invariant forall name :: name in expected && name !in names ==> name in actual && actual[name] == expected[name]
      decreases |names|
    {
      var name :| name in names;
      var found := if name in actual then actual[name] else "";
      if found != expected[name] {
        return false;
      }
      names := names - {name};
    }
    return true;
  }

  /** Two maps of one size are equal when one is contained in the other. */
  lemma SameSizeAndContained(a: map<string, string>, b: map<string, string>)
    requires |a| == |b| && forall name :: name in a ==> name in b && b[name] == a[name]
    ensures a == b
  {
    assert a.Keys <= b.Keys;
    assert |a.Keys| == |a| && |b.Keys| == |b|;
    ContainedOfOneSize(a.Keys, b.Keys);
  }

  lemma ContainedOfOneSize(s: set<string>, t: set<string>)
    requires s <= t && |s| == |t|
    ensures s == t
  {
    assert t == s + (t - s);
    assert |t| == |s| + |t - s|;
    assert t - s == {};
  }

  /** Every entry read from a manifest has a safe name and a lower-case digest. */
  lemma {:induction false} EntriesAreSafe(data: string, seen: map<string, string>)
    requires forall name :: name in seen ==> IsDigest(seen[name]) && ValidRelative(name) && name != MANIFEST && '\n' !in name
    ensures Parse(data, seen).Parsed? ==>
      forall name :: name in Parse(data, seen).entries ==>
        IsDigest(Parse(data, seen).entries[name]) && ValidRelative(name) && name != MANIFEST && '\n' !in name
    decreases |data|
  {
    if data != "" && IndexOf(data, '\n') < MAX_LINE {
      var n := IndexOf(data, '\n');
      var line := DropCR(data[..n]);
      EntryIsSafe(line);
      match Entry(line) {
        case None =>
        case Some(f) => if f.name !in seen { EntriesAreSafe(After(data), seen[f.name := f.digest]); }
      }
    }
  }

  lemma EntryIsSafe(line: string)
    requires '\n' !in line
    ensures Entry(line).Some? ==>
      var f := Entry(line).value; IsDigest(f.digest) && ValidRelative(f.name) && f.name != MANIFEST && '\n' !in f.name
  {
    if Entry(line).Some? {
      var digest := line[..64];
      forall i | 0 <= i < 64 ensures LowerHex(ToLower(digest)[i]) { assert digest[i] in digest; }
    }
  }

  const HEX := "0123456789abcdefABCDEF"

  /** A line is an entry exactly when it is 64 hexadecimal digits of either case, two spaces and a name with clean parts,
      without a backslash or a NUL, other than the manifest's own; upper-case digits are read as lower-case ones. */
  lemma EntryExactly(digest: string, name: string)
    requires |digest| == 64
    ensures var e := Entry(digest + "  " + name);
      && (e.Some? <==> (forall c :: c in digest ==> c in HEX) && PartsAreNames(name) && '\\' !in name && '\0' !in name && name != "manifest.sha256")
      && (e.Some? ==> e.value.name == name && |e.value.digest| == 64)
      && (e.Some? ==> forall i :: 0 <= i < 64 ==> e.value.digest[i] as int == digest[i] as int + if 'A' <= digest[i] <= 'F' then 32 else 0)
  {
    var line := digest + "  " + name;
    assert line[..64] == digest && line[64..66] == "  " && line[66..] == name;
    forall c ensures Hex(c) <==> c in HEX { HexDigits(c); }
    CleanExactly(name);
    if name == "" { assert IsPart(name, 0, 0) && name[0..0] == ""; }
    if Entry(line).Some? {
      forall i | 0 <= i < 64 ensures ToLower(digest)[i] as int == digest[i] as int + if 'A' <= digest[i] <= 'F' then 32 else 0 {
        assert digest[i] in digest;
      }
    }
  }

  lemma HexDigits(c: char)
    ensures Hex(c) <==> c in HEX
  {
    assert HEX[..10] == "0123456789" && HEX[10..16] == "abcdef" && HEX[16..] == "ABCDEF";
    if '0' <= c <= '9' {
      assert HEX[c as int - '0' as int] == c;
    } else if 'a' <= c <= 'f' {
      assert HEX[10 + (c as int - 'a' as int)] == c;
    } else if 'A' <= c <= 'F' {
      assert HEX[16 + (c as int - 'A' as int)] == c;
    }
  }

  /** A line that is not ended is too long exactly from 2^20 bytes on. */
  lemma TooLongExactly(line: string)
    requires '\n' !in line
    ensures Parse(line, map[]).TooLong? <==> |line| >= 1_048_576
  {
    var n := IndexOf(line, '\n');
    assert n == |line|;
    if 0 < |line| < MAX_LINE {
      LastLine(DropCR(line[..n]));
      assert After(line) == "";
    }
  }

  lemma LastLine(line: string)
    ensures !ParseLine(line, "", map[]).TooLong?
  {
    if Entry(line).Some? {
      var f := Entry(line).value;
      assert Parse("", map[][f.name := f.digest]).Parsed?;
    }
  }

  lemma EntryShape(line: string)
    requires Entry(line).Some?
    ensures |line| > 66 && line == line[..64] + "  " + line[66..]
  {
  }

  // ----- Round trip -----

  function Names(files: seq<File>): seq<string> { seq(|files|, i requires 0 <= i < |files| => files[i].name) }

  /** What `buildManifestWithLimits` prints: distinct safe names and lower-case digests. */
  ghost predicate Printable(files: seq<File>) {
    && Distinct(Names(files))
    && forall f :: f in files ==> ValidRelative(f.name) && f.name != MANIFEST && IsDigest(f.digest)
  }

  function Extend(seen: map<string, string>, files: seq<File>): map<string, string>
    decreases |files|
  {
    if files == [] then seen else Extend(seen[files[0].name := files[0].digest], files[1..])
  }

  function AsMap(files: seq<File>): map<string, string> { Extend(map[], files) }

  predicate EndsInCR(s: string) { s != "" && s[|s| - 1] == '\r' }

  /** A line feed ends the name early, one carriage return is taken for part of the line end, and a long line stops the scanner. */
  predicate Survives(name: string) { '\n' !in name && !EndsInCR(name) && 66 + |name| < MAX_LINE }

  function CountLF(s: string): nat { if s == "" then 0 else (if s[0] == '\n' then 1 else 0) + CountLF(s[1..]) }

  lemma {:induction false} CountConcat(s: string, t: string)
    ensures CountLF(s + t) == CountLF(s) + CountLF(t)
  {
    if s == "" {
      assert s + t == t;
    } else {
      assert (s + t)[1..] == s[1..] + t;
      CountConcat(s[1..], t);
    }
  }

  lemma {:induction false} CountIsZero(s: string)
    ensures CountLF(s) == 0 <==> '\n' !in s
  {
    if s != "" {
      assert s == [s[0]] + s[1..];
      CountIsZero(s[1..]);
    }
  }

  /** Lines in the text, an unterminated last line included. */
  function LineCount(data: string): nat { CountLF(data) + if data != "" && data[|data| - 1] != '\n' then 1 else 0 }

  lemma LineCountStep(data: string)
    requires data != ""
    ensures LineCount(data) == 1 + LineCount(After(data))
  {
    var n := IndexOf(data, '\n');
    CountIsZero(data[..n]);
    if n < |data| {
      assert data == data[..n] + ("\n" + data[n + 1..]);
      CountConcat(data[..n], "\n" + data[n + 1..]);
      assert ("\n" + data[n + 1..])[1..] == data[n + 1..];
    } else {
      assert data == data[..n];
    }
  }

  /** A manifest that parses has one entry for each line. */
  lemma {:induction false} OneEntryPerLine(data: string, seen: map<string, string>)
    ensures Parse(data, seen).Parsed? ==> |Parse(data, seen).entries| == |seen| + LineCount(data)
    decreases |data|
  {
    if data != "" && Parse(data, seen).Parsed? {
      LineCountStep(data);
      var line := DropCR(data[..IndexOf(data, '\n')]);
      ParsedLine(line, After(data), seen);
      var f := Entry(line).value;
      OneEntryPerLine(After(data), seen[f.name := f.digest]);
    }
  }

  lemma ParsedLine(line: string, tail: string, seen: map<string, string>)
    requires ParseLine(line, tail, seen).Parsed?
    ensures Entry(line).Some? && Entry(line).value.name !in seen
    ensures ParseLine(line, tail, seen) == Parse(tail, seen[Entry(line).value.name := Entry(line).value.digest])
  {
  }

  lemma LineFeeds(f: File)
    requires IsDigest(f.digest)
    ensures CountLF(Line(f) + "\n") == 1 + CountLF(f.name)
  {
    CountConcat(Line(f), "\n");
    CountConcat(f.digest + "  ", f.name);
    assert '\n' !in f.digest + "  ";
    CountIsZero(f.digest + "  ");
    assert CountLF("\n") == 1;
  }

  /** A printed manifest has one line for each file exactly when no name holds a line feed. */
  lemma {:induction false} OneLinePerFile(files: seq<File>)
    requires forall f :: f in files ==> IsDigest(f.digest)
    ensures LineCount(Print(files)) >= |files|
    ensures LineCount(Print(files)) == |files| <==> forall f :: f in files ==> '\n' !in f.name
  {
    if files != [] {
      OneLinePerFile(files[1..]);
      var head, tail := Line(files[0]) + "\n", Print(files[1..]);
      CountConcat(head, tail);
      LineFeeds(files[0]);
      CountIsZero(files[0].name);
      assert head[|head| - 1] == '\n';
      assert files == [files[0]] + files[1..];
    }
  }

  lemma {:induction false} ExtendSize(seen: map<string, string>, files: seq<File>)
    requires Distinct(Names(files)) && forall f :: f in files ==> f.name !in seen
    ensures |Extend(seen, files)| == |seen| + |files|
    ensures forall name :: name in Extend(seen, files) <==> name in seen || name in Names(files)
    decreases |files|
  {
    if files != [] {
      TailDistinct(files);
      ExtendSize(seen[files[0].name := files[0].digest], files[1..]);
      assert Names(files) == [files[0].name] + Names(files[1..]);
    }
  }

  lemma TailDistinct(files: seq<File>)
    requires files != [] && Distinct(Names(files))
    ensures Distinct(Names(files[1..])) && forall f :: f in files[1..] ==> f.name != files[0].name
  {
    var names := Names(files);
    forall i, j | 0 <= i < j < |files| - 1 ensures Names(files[1..])[i] != Names(files[1..])[j] { assert names[i + 1] != names[j + 1]; }
    forall f | f in files[1..] ensures f.name != files[0].name {
      var i :| 0 <= i < |files[1..]| && files[1..][i] == f;
      assert names[0] != names[i + 1];
    }
  }

  lemma FirstLine(files: seq<File>)
    requires files != [] && IsDigest(files[0].digest) && '\n' !in files[0].name
    ensures Print(files)[..IndexOf(Print(files), '\n')] == Line(files[0]) && After(Print(files)) == Print(files[1..])
  {
    var line, tail := Line(files[0]), Print(files[1..]);
    var data := Print(files);
    assert data == line + "\n" + tail;
    assert data[..|line|] == line && data[|line|] == '\n' && data[|line| + 1..] == tail;
    FirstFound(data, |line|, '\n');
  }

  lemma LineEntry(f: File)
    requires IsDigest(f.digest) && f.name != ""
    ensures DropCR(Line(f)) == Line(File(DropCR(f.name), f.digest))
    ensures ValidRelative(f.name) && f.name != MANIFEST ==> Entry(Line(f)) == Some(f)
    ensures Entry(DropCR(Line(f))).Some? ==> Entry(DropCR(Line(f))).value == File(DropCR(f.name), f.digest)
  {
    EntryOfLine(f.digest, f.name);
    EntryOfLine(f.digest, DropCR(f.name));
    DropsFromName(f.digest + "  ", f.name);
  }

  lemma DropsFromName(front: string, name: string)
    requires name != ""
    ensures DropCR(front + name) == front + DropCR(name)
  {
    var line := front + name;
    assert line[|line| - 1] == name[|name| - 1];
    assert line[..|line| - 1] == front + name[..|name| - 1];
  }

  lemma EntryOfLine(digest: string, name: string)
    requires IsDigest(digest)
    ensures var line := Line(File(name, digest));
      && (Entry(line).Some? ==> Entry(line).value == File(name, digest))
      && (Entry(line).Some? <==> ValidRelative(name) && name != MANIFEST)
  {
    var line := Line(File(name, digest));
    assert line[..64] == digest && line[64..66] == "  " && line[66..] == name;
    ToLowerKeeps(digest);
  }

  lemma {:induction false} ParsePrint(files: seq<File>, seen: map<string, string>)
    requires Printable(files) && forall f :: f in files ==> f.name !in seen && Survives(f.name)
    ensures Parse(Print(files), seen) == Parsed(Extend(seen, files))
  {
    if files != [] {
      var f := files[0];
      FirstLine(files);
      assert f.name != "";
      LineEntry(f);
      assert DropCR(Line(f)) == Line(f);
      TailDistinct(files);
      ParsePrint(files[1..], seen[f.name := f.digest]);
    }
  }

  /** A manifest without stray line feeds that parses has short lines, and the names read are the names printed
      less one trailing carriage return. */
  lemma {:induction false} NamesRead(files: seq<File>, seen: map<string, string>)
    requires forall f :: f in files ==> f.name != "" && IsDigest(f.digest) && '\n' !in f.name
    requires Parse(Print(files), seen).Parsed?
    ensures forall f :: f in files ==> 66 + |f.name| < MAX_LINE
    ensures forall name :: name in Parse(Print(files), seen).entries ==> name in seen || exists f :: f in files && DropCR(f.name) == name
  {
    if files != [] {
      var f := files[0];
      FirstLine(files);
      LineEntry(f);
      assert files == [f] + files[1..];
      NamesRead(files[1..], seen[DropCR(f.name) := f.digest]);
    }
  }

  lemma LongerCompanion(h: string, f: string)
    requires DropCR(h) == f && EndsInCR(f)
    ensures |h| == |f| + 1
  {
  }

  /** If each name is another name less one carriage return, no name ends in one: it would have a longer companion. */
  lemma {:induction false} NoCompanion(names: seq<string>, name: string)
    requires name in names && forall n :: n in names ==> |n| < MAX_LINE
    requires forall n :: n in names ==> HasCompanion(names, n)
    ensures !EndsInCR(name)
    decreases MAX_LINE - |name|
  {
    if EndsInCR(name) {
      assert HasCompanion(names, name);
      var i :| 0 <= i < |names| && DropCR(names[i]) == name;
      LongerCompanion(names[i], name);
      NoCompanion(names, names[i]);
    }
  }

  ghost predicate HasCompanion(names: seq<string>, name: string) { exists i :: 0 <= i < |names| && DropCR(names[i]) == name }

  lemma ReadBackHasNoFeeds(files: seq<File>)
    requires Printable(files) && Parse(Print(files), map[]) == Parsed(AsMap(files))
    ensures forall f :: f in files ==> '\n' !in f.name
  {
    OneEntryPerLine(Print(files), map[]);
    ExtendSize(map[], files);
    OneLinePerFile(files);
  }

  lemma NamesInFiles(files: seq<File>)
    ensures forall n :: n in Names(files) ==> exists f :: f in files && f.name == n
    ensures forall f :: f in files ==> f.name in Names(files)
  {
    forall n | n in Names(files) ensures exists f :: f in files && f.name == n {
      var i :| 0 <= i < |files| && Names(files)[i] == n;
      assert files[i] in files;
    }
    forall f | f in files ensures f.name in Names(files) {
      var i :| 0 <= i < |files| && files[i] == f;
      assert Names(files)[i] == f.name;
    }
  }

  lemma Companions(files: seq<File>, n: string)
    requires exists f :: f in files && DropCR(f.name) == n
    ensures HasCompanion(Names(files), n)
  {
    var f :| f in files && DropCR(f.name) == n;
    var i :| 0 <= i < |files| && files[i] == f;
    assert Names(files)[i] == f.name;
  }

  lemma ReadBackSurvives(files: seq<File>)
    requires Printable(files) && Parse(Print(files), map[]) == Parsed(AsMap(files))
    ensures forall f :: f in files ==> Survives(f.name)
  {
    ReadBackHasNoFeeds(files);
    NamesRead(files, map[]);
    NamesInFiles(files);
    ExtendSize(map[], files);
    var names := Names(files);
    forall n | n in names ensures |n| < MAX_LINE && HasCompanion(names, n) {
      assert n in AsMap(files);
      Companions(files, n);
    }
    forall f | f in files ensures Survives(f.name) { NoCompanion(names, f.name); }
  }

  /** The parser reads back exactly what the printer wrote if and only if every name survives its line. */
  lemma RoundTrip(files: seq<File>)
    requires Printable(files)
    ensures Parse(Print(files), map[]) == Parsed(AsMap(files)) <==> forall f :: f in files ==> Survives(f.name)
  {
    if forall f :: f in files ==> Survives(f.name) { ParsePrint(files, map[]); }
    if Parse(Print(files), map[]) == Parsed(AsMap(files)) { ReadBackSurvives(files); }
  }
}
