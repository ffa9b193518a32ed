/** Keys built by concatenation: length-prefixed identifiers (internal/analyze/analyze.go) and
    slash-separated subject keys (internal/analyze/literal.go). Strings are Go strings: each
    character stands for one byte. */
module Identity {
  import opened Orders
  import opened Decimal

  // ----- Length-prefixed identifiers -----

  /** The bytes hashed for a list of parts. */
  function Preimage(parts: seq<string>): string {
    if parts == [] then "" else Itoa(|parts[0]|) + ":" + parts[0] + Preimage(parts[1..])
  }

  function DeterministicID(hash: string -> string, prefix: string, parts: seq<string>): string {
    prefix + ":" + hash(Preimage(parts))
  }

  /** The running hash of `sha256.New()`: what has been written so far. */
  class Hasher {
    var written: string

    constructor ()
      ensures written == ""
    {
      written := "";
    }

    method Write(bytes: string)
      modifies this
      ensures written == old(written) + bytes
    {
      written := written + bytes;
    }
  }

  method ComputeDeterministicID(hash: string -> string, prefix: string, parts: seq<string>) returns (id: string)
    ensures id == DeterministicID(hash, prefix, parts)
  {
    var h := new Hasher();
    for i := 0 to |parts|
      invariant h.written + Preimage(parts[i..]) == Preimage(parts)
    {
      assert parts[i..][1..] == parts[i + 1..];
      Prepend(h.written, Itoa(|parts[i]|), parts[i], Preimage(parts[i + 1..]));
      h.Write(Itoa(|parts[i]|));
      h.Write(":");
      h.Write(parts[i]);
    }
    assert h.written + Preimage([]) == h.written;
    id := prefix + ":" + hash(h.written);
  }

  lemma Prepend(before: string, n: string, part: string, tail: string)
    ensures before + (n + ":" + part + tail) == before + n + ":" + part + tail
  {
  }

  /** Text before the first separator, and text after it, can be read back. */
  lemma {:induction false} CutAt(sep: char, a: string, x: string, b: string, y: string)
    requires sep !in a && sep !in b
    requires a + [sep] + x == b + [sep] + y
    ensures a == b && x == y
  {
    var s, t := a + [sep] + x, b + [sep] + y;
    assert s[|a|] == sep && t[|b|] == sep;
    assert forall i :: 0 <= i < |a| ==> s[i] == a[i] && a[i] in a;
    assert forall i :: 0 <= i < |b| ==> t[i] == b[i] && b[i] in b;
    assert s[..|a|] == a && t[..|b|] == b;
    assert s[|a| + 1..] == x && t[|b| + 1..] == y;
  }

  lemma PartAt(m: string, part: string, tail: string)
    ensures m + ":" + part + tail == m + [':'] + (part + tail)
    ensures (part + tail)[..|part|] == part && (part + tail)[|part|..] == tail
  {
  }

  /** The preimage determines the parts: no two lists of byte strings collide before hashing. */
  lemma {:induction false} PreimageInjective(ps: seq<string>, qs: seq<string>)
    requires Preimage(ps) == Preimage(qs)
    ensures ps == qs
  {
    if ps != [] && qs != [] {
      var p, q, x, y := ps[0], qs[0], Preimage(ps[1..]), Preimage(qs[1..]);
      PartAt(Itoa(|p|), p, x);
      PartAt(Itoa(|q|), q, y);
      CutAt(':', Itoa(|p|), p + x, Itoa(|q|), q + y);
      ItoaInjective(|p|, |q|);
      PreimageInjective(ps[1..], qs[1..]);
      assert ps == [p] + ps[1..] && qs == [q] + qs[1..];
    }
  }

  lemma DeterministicIDInjective(hash: string -> string, p: string, ps: seq<string>, q: string, qs: seq<string>)
    requires Injective(hash) && ':' !in p && ':' !in q
    ensures DeterministicID(hash, p, ps) == DeterministicID(hash, q, qs) <==> p == q && ps == qs
  {
    if DeterministicID(hash, p, ps) == DeterministicID(hash, q, qs) {
      CutAt(':', p, hash(Preimage(ps)), q, hash(Preimage(qs)));
      PreimageInjective(ps, qs);
    }
  }

  // ----- Subject keys -----

  datatype Subject = Subject(repository: int, run: Option<int>, attempt: Option<int>, job: Option<int>, step: string)

  function Part(id: Option<int>): string {
    if id.Some? then "/" + Itoa(id.value) else "/-"
  }

  /** `subjectKeyForLiteral` */
  function SubjectKey(s: Subject): string {
    Itoa(s.repository) + Part(s.run) + Part(s.attempt) + Part(s.job) + "/" + s.step
  }

  function PartBody(id: Option<int>): string {
    if id.Some? then Itoa(id.value) else "-"
  }

  lemma PartBodyInjective(a: Option<int>, b: Option<int>)
    requires PartBody(a) == PartBody(b)
    ensures a == b
  {
    if a.Some? { ItoaIsNotDash(a.value); }
    if b.Some? { ItoaIsNotDash(b.value); }
    if a.Some? && b.Some? { ItoaInjective(a.value, b.value); }
  }

  lemma ItoaIsNotDash(n: int)
    ensures Itoa(n) != "-"
  {
    if n < 0 { assert |Itoa(n)| == 1 + |Digits(-n)|; }
  }

  lemma Nested(r: string, a: string, b: string, c: string, t: string)
    ensures r + ("/" + a) + ("/" + b) + ("/" + c) + "/" + t == r + "/" + (a + "/" + (b + "/" + (c + "/" + t)))
  {
  }

  lemma KeyShape(s: Subject)
    ensures SubjectKey(s) == Itoa(s.repository) + "/" + (PartBody(s.run) + "/" + (PartBody(s.attempt) + "/" + (PartBody(s.job) + "/" + s.step)))
  {
    Nested(Itoa(s.repository), PartBody(s.run), PartBody(s.attempt), PartBody(s.job), s.step);
  }

  /** The key determines the subject, even though a step key may itself contain slashes. */
  lemma SubjectKeyInjective(s: Subject, t: Subject)
    ensures SubjectKey(s) == SubjectKey(t) <==> s == t
  {
    if SubjectKey(s) == SubjectKey(t) {
      KeyShape(s);
      KeyShape(t);
      var s3, t3 := PartBody(s.job) + "/" + s.step, PartBody(t.job) + "/" + t.step;
      var s2, t2 := PartBody(s.attempt) + "/" + s3, PartBody(t.attempt) + "/" + t3;
      var s1, t1 := PartBody(s.run) + "/" + s2, PartBody(t.run) + "/" + t2;
      CutAt('/', Itoa(s.repository), s1, Itoa(t.repository), t1);
      CutAt('/', PartBody(s.run), s2, PartBody(t.run), t2);
      CutAt('/', PartBody(s.attempt), s3, PartBody(t.attempt), t3);
      CutAt('/', PartBody(s.job), s.step, PartBody(t.job), t.step);
      ItoaInjective(s.repository, t.repository);
      PartBodyInjective(s.run, t.run);
      PartBodyInjective(s.attempt, t.attempt);
      PartBodyInjective(s.job, t.job);
    }
  }

  /** Successive assignments to a map, by structured identity and by subject key. */
  function ByIdentity<V>(updates: seq<(Subject, V)>): map<Subject, V> {
    if updates == [] then map[]
    else var u := updates[|updates| - 1]; ByIdentity(updates[..|updates| - 1])[u.0 := u.1]
  }

  function BySubjectKey<V>(updates: seq<(Subject, V)>): map<string, V> {
    if updates == [] then map[]
    else var u := updates[|updates| - 1]; BySubjectKey(updates[..|updates| - 1])[SubjectKey(u.0) := u.1]
  }

  /** A map keyed by the text answers every lookup as one keyed by the subject would. */
  lemma {:induction false} KeyedMapsAgree<V>(updates: seq<(Subject, V)>, s: Subject)
    ensures SubjectKey(s) in BySubjectKey(updates) <==> s in ByIdentity(updates)
    ensures s in ByIdentity(updates) ==> BySubjectKey(updates)[SubjectKey(s)] == ByIdentity(updates)[s]
  {
    if updates != [] {
      KeyedMapsAgree(updates[..|updates| - 1], s);
      SubjectKeyInjective(updates[|updates| - 1].0, s);
    }
  }

  // ----- Sorted sets of strings -----

  ghost predicate Ascending(s: seq<string>) {
    forall i, j :: 0 <= i < j < |s| ==> StringLess(s[i], s[j])
  }

  ghost predicate NonDescending(s: seq<string>) {
    forall i, j :: 0 <= i < j < |s| ==> !StringLess(s[j], s[i])
  }

  function DropRepeats(s: seq<string>): seq<string> {
    if |s| <= 1 then s
    else if s[0] == s[1] then DropRepeats(s[1..])
    else [s[0]] + DropRepeats(s[1..])
  }

  lemma {:induction false} DropRepeatsAscends(s: seq<string>)
    requires NonDescending(s)
    ensures Ascending(DropRepeats(s)) && forall x :: x in DropRepeats(s) <==> x in s
    ensures s != [] ==> DropRepeats(s) != [] && DropRepeats(s)[0] == s[0]
  {
    if |s| > 1 {
      var t := s[1..];
      forall i, j | 0 <= i < j < |t| ensures !StringLess(t[j], t[i]) { assert !StringLess(s[j + 1], s[i + 1]); }
      DropRepeatsAscends(t);
      assert s == [s[0]] + t;
      if s[0] != s[1] {
        StringTotal(s[0], s[1]);
        var d := DropRepeats(t);
        forall j | 0 <= j < |d| ensures StringLess(s[0], d[j]) {
          if j > 0 { StringTransitive(s[0], d[0], d[j]); }
        }
      }
    }
  }

  /** The ascending set of the strings in s: `sortEvidenceIDs`, `sortedUniqueStrings`. */
  function SortUnique(s: seq<string>): seq<string> { DropRepeats(Sort(s, StringLess)) }

  lemma SortUniqueIsTheSet(s: seq<string>)
    ensures Ascending(SortUnique(s)) && forall x :: x in SortUnique(s) <==> x in s
  {
    StringLessIsStrictWeak();
    SortSorts(s, StringLess);
    SortMembers(s, StringLess);
    DropRepeatsAscends(Sort(s, StringLess));
  }

  lemma SortUniqueAgrees(a: seq<string>, b: seq<string>)
    requires forall x :: x in a <==> x in b
    ensures SortUnique(a) == SortUnique(b)
  {
    SortUniqueIsTheSet(a);
    SortUniqueIsTheSet(b);
    AscendingUnique(SortUnique(a), SortUnique(b));
  }

  /** `sortedUniqueStrings`: sort in place, then squeeze out repeats with a read and a write index. */
  method SortedUniqueStrings(values: array<string>) returns (n: nat)
    modifies values
    ensures n <= values.Length && values[..n] == SortUnique(old(values[..]))
  {
    ghost var input := values[..];
    var sorted := Sort(values[..], StringLess);
    StringLessIsStrictWeak();
    SortPermutes(input, StringLess);
    SortSorts(input, StringLess);
    SortMembers(input, StringLess);
    forall i | 0 <= i < values.Length { values[i] := sorted[i]; }
    assert values[..] == sorted;
    n := Squeeze(values);
    SortUniqueIsTheSet(input);
    AscendingUnique(values[..n], SortUnique(input));
  }

  method Squeeze(values: array<string>) returns (n: nat)
    requires NonDescending(values[..])
    modifies values
    ensures n <= values.Length
    ensures Ascending(values[..n])
    ensures forall x :: x in values[..n] <==> x in old(values[..])
  {
    if values.Length == 0 {
      return 0;
    }
    ghost var sorted := values[..];
    n := 1;
    var read := 1;
    ghost var kept := [sorted[0]];
    while read < values.Length
      invariant 1 <= n <= read <= values.Length
      invariant forall i :: read <= i < values.Length ==> values[i] == sorted[i]
      invariant values[..n] == kept
      invariant SqueezedTo(sorted, read, kept)
    {
      SqueezeStep(sorted, read, kept);
      if values[read] != values[n - 1] {
        kept := kept + [values[read]];
        values[n] := values[read];
        n := n + 1;
      }
      read := read + 1;
    }
    assert sorted[..read] == sorted;
  }

  /** kept is the ascending set of the first `read` values. */
  ghost predicate SqueezedTo(sorted: seq<string>, read: nat, kept: seq<string>) {
    && 0 < read <= |sorted| && kept != []
    && kept[|kept| - 1] == sorted[read - 1]
    && Ascending(kept)
    && forall x :: x in kept <==> x in sorted[..read]
  }

  lemma SqueezeStep(sorted: seq<string>, read: nat, kept: seq<string>)
    requires NonDescending(sorted) && read < |sorted| && SqueezedTo(sorted, read, kept)
    ensures SqueezedTo(sorted, read + 1, if sorted[read] != sorted[read - 1] then kept + [sorted[read]] else kept)
  {
    assert sorted[..read + 1] == sorted[..read] + [sorted[read]];
    if sorted[read] != sorted[read - 1] {
      StringTotal(sorted[read - 1], sorted[read]);
      AscendingExtends(kept, sorted[read]);
    }
  }

  lemma AscendingExtends(s: seq<string>, x: string)
    requires Ascending(s) && s != [] && StringLess(s[|s| - 1], x)
    ensures Ascending(s + [x])
  {
    forall i | 0 <= i < |s| ensures StringLess(s[i], x) {
      if i < |s| - 1 { StringTransitive(s[i], s[|s| - 1], x); }
    }
  }

  /** Two ascending sequences with the same members are the same sequence. */
  lemma {:induction false} AscendingUnique(a: seq<string>, b: seq<string>)
    requires Ascending(a) && Ascending(b) && forall x :: x in a <==> x in b
    ensures a == b
  {
    if b != [] { assert b[0] in a; }
    if a != [] {
      assert a[0] in b;
      SameLeast(a, b);
      TailMembers(a);
      TailMembers(b);
      AscendingUnique(a[1..], b[1..]);
      assert a == [a[0]] + a[1..] && b == [b[0]] + b[1..];
    }
  }

  lemma TailMembers(a: seq<string>)
    requires Ascending(a) && a != []
    ensures forall x :: x in a[1..] <==> x in a && x != a[0]
  {
    StringTotal(a[0], a[0]);
    forall x ensures x in a[1..] <==> x in a && x != a[0] {
      assert a == [a[0]] + a[1..];
      if x in a[1..] { var j :| 1 <= j < |a| && a[j] == x; }
    }
  }

  lemma SameLeast(a: seq<string>, b: seq<string>)
    requires Ascending(a) && Ascending(b) && a != [] && b != [] && a[0] in b && b[0] in a
    ensures a[0] == b[0]
  {
    var i :| 0 <= i < |b| && b[i] == a[0];
    var j :| 0 <= j < |a| && a[j] == b[0];
    StringTotal(a[0], b[0]);
  }

  /** `unionStrings`. */
  method UnionStrings(left: seq<string>, right: seq<string>) returns (r: seq<string>)
    ensures r == SortUnique(left + right)
  {
    var all := left + right;
    var values := new string[|all|](i requires 0 <= i < |all| => all[i]);
    assert values[..] == all;
    var n := SortedUniqueStrings(values);
    r := values[..n];
  }
}
