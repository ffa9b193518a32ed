/** Canonical JSON, the text every stable identifier hashes
    (internal/evidence/canonical.go): a printer that appends to a buffer, and an
    independent parser that shows the printed text determines the value. */
module Canonical {
  import opened Orders
  import opened Decimal

  /** A decoded JSON value. Numbers keep their text, as `json.Number` does. */
  datatype Json =
    | Null
    | Bool(flag: bool)
    | Number(text: string)
    | String(chars: string)
    | Array(elems: seq<Json>)
    | Object(fields: map<string, Json>)

  // ----- Key order -----

  /** The UTF-16 code units of one character: itself, or a surrogate pair. */
  function CharUnits(c: char): seq<int> {
    var v := c as int;
    if v < 0x1_0000 then [v]
    else [0xD800 + (v - 0x1_0000) / 0x400, 0xDC00 + (v - 0x1_0000) % 0x400]
  }

  function Units(s: string): seq<int> {
    if s == "" then [] else CharUnits(s[0]) + Units(s[1..])
  }

  predicate UnitsLess(a: string, b: string) { LexLess(Units(a), Units(b)) }

  /** UTF-16 is injective: a leading unit in the surrogate range tells a pair from a single unit. */
  lemma {:induction false} UnitsInjective(a: string, b: string)
    requires Units(a) == Units(b)
    ensures a == b
  {
    if a != "" && b != "" {
      var u, v := CharUnits(a[0]), CharUnits(b[0]);
      assert Units(a)[0] == u[0] && Units(b)[0] == v[0];
      assert |u| == |v|;
      if |u| == 2 { assert Units(a)[1] == u[1] && Units(b)[1] == v[1]; }
      assert a[0] as int == b[0] as int;
      assert Units(a)[|u|..] == Units(a[1..]) && Units(b)[|v|..] == Units(b[1..]);
      UnitsInjective(a[1..], b[1..]);
      assert a == [a[0]] + a[1..] && b == [b[0]] + b[1..];
    }
  }

  lemma UnitsLessTotal(a: string, b: string)
    ensures a == b || UnitsLess(a, b) || UnitsLess(b, a)
    ensures !(UnitsLess(a, b) && UnitsLess(b, a))
    ensures a == b ==> !UnitsLess(a, b)
  {
    LexTotal(Units(a), Units(b));
    if Units(a) == Units(b) { UnitsInjective(a, b); }
  }

  lemma UnitsLessTransitive(a: string, b: string, c: string)
    requires UnitsLess(a, b) && UnitsLess(b, c)
    ensures UnitsLess(a, c)
  {
    LexTransitive(Units(a), Units(b), Units(c));
  }

  lemma UnitsLessIsStrictWeak()
    ensures StrictWeak(UnitsLess)
  {
    forall a, b | UnitsLess(a, b) ensures !UnitsLess(b, a) { UnitsLessTotal(a, b); }
    forall a, b, c | UnitsLess(a, c) ensures UnitsLess(a, b) || UnitsLess(b, c) {
      UnitsLessTotal(a, b);
      if UnitsLess(b, a) { UnitsLessTransitive(b, a, c); }
    }
  }

  predicate Supplementary(c: char) { c as int >= 0x1_0000 }

  predicate AboveSurrogates(c: char) { 0xE000 <= c as int < 0x1_0000 }

  /** The required order parts from plain code-point order exactly when a character in
      U+E000..U+FFFF meets one beyond U+FFFF. */
  lemma UnitOrderVersusCodePoints(c: char, d: char)
    ensures (UnitsLess([c], [d]) != (c < d))
         == ((Supplementary(c) && AboveSurrogates(d)) || (Supplementary(d) && AboveSurrogates(c)))
  {
    assert Units([c]) == CharUnits(c) + Units([c][1..]) == CharUnits(c);
    assert Units([d]) == CharUnits(d) + Units([d][1..]) == CharUnits(d);
    var u, v := CharUnits(c), CharUnits(d);
    var x, y := c as int - 0x1_0000, d as int - 0x1_0000;
    assert u[0] != v[0] ==> (LexLess(u, v) <==> u[0] < v[0]);
    if |u| == 1 && |v| == 1 {
      LexTotal(u, v);
      assert c == d ==> u == v;
    } else if |u| == 2 && |v| == 2 {
      assert u[0] == v[0] ==> LexLess(u, v) == LexLess(u[1..], v[1..]) == (u[1] < v[1]);
      assert x == x / 0x400 * 0x400 + x % 0x400 && y == y / 0x400 * 0x400 + y % 0x400;
    } else if |u| == 2 {
      assert 0xD800 <= u[0] < 0xDC00 && x >= 0;
    } else {
      assert 0xD800 <= v[0] < 0xDC00 && y >= 0;
    }
  }

  /** The comparison loop. */
  method LessUTF16(left: string, right: string) returns (less: bool)
    ensures less <==> UnitsLess(left, right)
  {
    var l, r := Units(left), Units(right);
    var limit := |l|;
    if |r| < limit { limit := |r|; }
    var index := 0;
    while index < limit
      invariant 0 <= index <= limit
      invariant LexLess(l, r) <==> LexLess(l[index..], r[index..])
    {
      if l[index] != r[index] {
        return l[index] < r[index];
      }
      assert l[index..][1..] == l[index + 1..] && r[index..][1..] == r[index + 1..];
      index := index + 1;
    }
    less := |l| < |r|;
  }

  /** ks lists exactly the given keys in strictly ascending UTF-16 order. */
  ghost predicate IsKeyOrder(ks: seq<string>, keys: set<string>) {
    && (forall i, j :: 0 <= i < j < |ks| ==> UnitsLess(ks[i], ks[j]))
    && (forall k :: k in ks <==> k in keys)
  }

  lemma SortGivesKeyOrder(ks: seq<string>, keys: set<string>)
    requires Distinct(ks) && forall k :: k in ks <==> k in keys
    ensures IsKeyOrder(Sort(ks, UnitsLess), keys)
  {
    var r := Sort(ks, UnitsLess);
    UnitsLessIsStrictWeak();
    SortPermutes(ks, UnitsLess);
    SortSorts(ks, UnitsLess);
    SortMembers(ks, UnitsLess);
    DistinctMultiset(ks);
    DistinctMultiset(r);
    forall i, j | 0 <= i < j < |r| ensures UnitsLess(r[i], r[j]) { UnitsLessTotal(r[i], r[j]); }
  }

  lemma {:induction false} KeyOrderUnique(a: seq<string>, b: seq<string>, keys: set<string>)
    requires IsKeyOrder(a, keys) && IsKeyOrder(b, keys)
    ensures a == b
  {
    if b != [] { assert b[0] in keys; }
    if a != [] {
      assert a[0] in keys;
      assert a[0] in b && b[0] in a;
      assert a[0] == b[0] by {
        var i :| 0 <= i < |b| && b[i] == a[0];
        var j :| 0 <= j < |a| && a[j] == b[0];
        UnitsLessTotal(a[0], b[0]);
      }
      UnitsLessTotal(a[0], a[0]);
      forall k ensures k in a[1..] <==> k in keys - {a[0]} { assert a == [a[0]] + a[1..]; }
      forall k ensures k in b[1..] <==> k in keys - {a[0]} { assert b == [b[0]] + b[1..]; }
      KeyOrderUnique(a[1..], b[1..], keys - {a[0]});
      assert a == [a[0]] + a[1..] && b == [b[0]] + b[1..];
    }
  }

  lemma {:induction false} Enumerable(keys: set<string>) returns (ks: seq<string>)
    ensures Distinct(ks) && forall k :: k in ks <==> k in keys
  {
    if keys == {} {
      ks := [];
    } else {
      var k :| k in keys;
      var rest := Enumerable(keys - {k});
      ks := [k] + rest;
    }
  }

  ghost function KeyOrder(keys: set<string>): (ks: seq<string>)
    ensures IsKeyOrder(ks, keys)
  {
    KeyOrderExists(keys);
    var ks :| IsKeyOrder(ks, keys);
    ks
  }

  lemma KeyOrderExists(keys: set<string>)
    ensures exists ks :: IsKeyOrder(ks, keys)
  {
    var ks := Enumerable(keys);
    SortGivesKeyOrder(ks, keys);
  }

  // ----- What is printed -----

  function Hex(d: nat): char
    requires d < 16
  {
    if d < 10 then Digit(d) else ('a' as int + (d - 10)) as char
  }

  function EscapeChar(c: char): string {
    if c == '"' || c == '\\' then ['\\', c]
    else if c as int == 0x08 then "\\b"
    else if c as int == 0x09 then "\\t"
    else if c as int == 0x0A then "\\n"
    else if c as int == 0x0C then "\\f"
    else if c as int == 0x0D then "\\r"
    else if c as int < 0x20 then "\\u00" + [Hex(c as int / 16), Hex(c as int % 16)]
    else [c]
  }

  function Escaped(s: string): string {
    if s == "" then "" else EscapeChar(s[0]) + Escaped(s[1..])
  }

  function Quoted(s: string): string { "\"" + Escaped(s) + "\"" }

  /** The checks on a number's text. */
  predicate NumberAccepted(text: string) {
    && (forall c | c in text :: c != '.' && c != 'e' && c != 'E' && c != '+')
    && text != "-0"
    && text != ""
    && !(|text| > 1 && text[0] == '0')
    && !(|text| > 2 && "-0" <= text)
  }

  ghost predicate Accepts(v: Json) {
    match v
    case Number(text) => NumberAccepted(text)
    case Array(elems) => forall e | e in elems :: Accepts(e)
    case Object(fields) => forall k | k in fields :: Accepts(fields[k])
    case _ => true
  }

  ghost function Print(v: Json): string
    decreases v, 1, 0
  {
    match v
    case Null => "null"
    case Bool(b) => if b then "true" else "false"
    case Number(text) => text
    case String(s) => Quoted(s)
    case Array(elems) => "[" + PrintElems(v, 0) + "]"
    case Object(fields) => "{" + PrintMembers(v, KeyOrder(fields.Keys), 0) + "}"
  }

  ghost function PrintElems(v: Json, i: nat): string
    requires v.Array? && i <= |v.elems|
    decreases v, 0, |v.elems| - i
  {
    if i == |v.elems| then ""
    else (if i != 0 then "," else "") + Print(v.elems[i]) + PrintElems(v, i + 1)
  }

  ghost function PrintMembers(v: Json, ks: seq<string>, i: nat): string
    requires v.Object? && (forall k | k in ks :: k in v.fields) && i <= |ks|
    decreases v, 0, |ks| - i + 1
  {
    if i == |ks| then ""
    else (if i != 0 then "," else "") + MemberText(v, ks[i]) + PrintMembers(v, ks, i + 1)
  }

  ghost function MemberText(v: Json, k: string): string
    requires v.Object? && k in v.fields
    decreases v, 0, 0
  {
    Quoted(k) + ":" + Print(v.fields[k])
  }

  // ----- The printer -----

  class Buffer {
    var data: string

    constructor ()
      ensures data == ""
    {
      data := "";
    }

    method WriteString(s: string)
      modifies this
      ensures data == old(data) + s
    {
      data := data + s;
    }
  }

  /** One turn of the escaping loop. */
  method WriteChar(dst: Buffer, c: char)
    modifies dst
    ensures dst.data == old(dst.data) + EscapeChar(c)
  {
    if c == '"' || c == '\\' {
      dst.WriteString("\\");
      dst.WriteString([c]);
      assert EscapeChar(c) == "\\" + [c];
    } else if c as int == 0x08 {
      dst.WriteString("\\b");
    } else if c as int == 0x09 {
      dst.WriteString("\\t");
    } else if c as int == 0x0A {
      dst.WriteString("\\n");
    } else if c as int == 0x0C {
      dst.WriteString("\\f");
    } else if c as int == 0x0D {
      dst.WriteString("\\r");
    } else if c as int < 0x20 {
      dst.WriteString("\\u00");
      dst.WriteString([Hex(c as int / 16)]);
      dst.WriteString([Hex(c as int % 16)]);
    } else {
      dst.WriteString([c]);
    }
  }

  lemma EscapedStep(before: string, s: string, i: nat)
    requires i < |s|
    ensures before + Escaped(s[i..]) == before + EscapeChar(s[i]) + Escaped(s[i + 1..])
  {
    assert s[i..][1..] == s[i + 1..];
    Assoc(before, EscapeChar(s[i]), Escaped(s[i + 1..]));
  }

  method WriteJSONString(dst: Buffer, value: string)
    modifies dst
    ensures dst.data == old(dst.data) + Quoted(value)
  {
    dst.WriteString("\"");
    var i := 0;
    while i < |value|
      invariant 0 <= i <= |value|
      invariant dst.data + Escaped(value[i..]) == old(dst.data) + "\"" + Escaped(value)
    {
      ghost var before := dst.data;
      WriteChar(dst, value[i]);
      EscapedStep(before, value, i);
      i := i + 1;
    }
    Assoc(old(dst.data), "\"", Escaped(value));
    dst.WriteString("\"");
    Assoc(old(dst.data), "\"" + Escaped(value), "\"");
  }

  /** `writeCanonical`. */
  method WriteCanonical(dst: Buffer, v: Json) returns (ok: bool)
    modifies dst
    ensures ok <==> Accepts(v)
    ensures ok ==> dst.data == old(dst.data) + Print(v)
    decreases v, 1
  {
    ok := true;
    match v
    case Null => dst.WriteString("null");
    case Bool(b) => dst.WriteString(if b then "true" else "false");
    case String(s) => WriteJSONString(dst, s);
    case Number(text) =>
      if (exists c | c in text :: c == '.' || c == 'e' || c == 'E' || c == '+') || text == "-0" {
        return false;
      }
      if text == "" || (|text| > 1 && text[0] == '0') || (|text| > 2 && "-0" <= text) {
        return false;
      }
      dst.WriteString(text);
    case Array(_) => ok := WriteArray(dst, v);
    case Object(_) => ok := WriteObject(dst, v);
  }

  method WriteArray(dst: Buffer, v: Json) returns (ok: bool)
    requires v.Array?
    modifies dst
    ensures ok <==> Accepts(v)
    ensures ok ==> dst.data == old(dst.data) + Print(v)
    decreases v, 0, 1
  {
    ok := true;
    dst.WriteString("[");
    Assoc(old(dst.data), "[", PrintElems(v, 0));
    var i := 0;
    while i < |v.elems|
      invariant 0 <= i <= |v.elems|
      invariant forall e | e in v.elems[..i] :: Accepts(e)
      invariant dst.data + PrintElems(v, i) == old(dst.data) + ("[" + PrintElems(v, 0))
    {
      ghost var before := dst.data;
      if i != 0 { dst.WriteString(","); }
      ok := WriteCanonical(dst, v.elems[i]);
      if !ok {
        assert v.elems[i] in v.elems;
        return;
      }
      ElemsStep(before, v, i);
      assert v.elems[..i + 1] == v.elems[..i] + [v.elems[i]];
      i := i + 1;
    }
    assert v.elems[..i] == v.elems;
    dst.WriteString("]");
    Assoc(old(dst.data), "[" + PrintElems(v, 0), "]");
  }

  lemma ElemsStep(before: string, v: Json, i: nat)
    requires v.Array? && i < |v.elems|
    ensures before + PrintElems(v, i)
         == (if i != 0 then before + "," else before) + Print(v.elems[i]) + PrintElems(v, i + 1)
  {
  }

  /** The fields are visited in an arbitrary order, yet the result is one text. */
  method WriteObject(dst: Buffer, v: Json) returns (ok: bool)
    requires v.Object?
    modifies dst
    ensures ok <==> Accepts(v)
    ensures ok ==> dst.data == old(dst.data) + Print(v)
    decreases v, 0, 2
  {
    var keys := SortedKeys(v.fields);
    dst.WriteString("{");
    ok := WriteMembers(dst, v, keys);
    if !ok { return; }
    dst.WriteString("}");
    Brace(old(dst.data), PrintMembers(v, keys, 0));
  }

  lemma Brace(before: string, members: string)
    ensures before + "{" + members + "}" == before + ("{" + members + "}")
  {
  }

  ghost predicate AllNamed(v: Json, ks: seq<string>) {
    v.Object? && forall k :: k in ks <==> k in v.fields
  }

  ghost predicate FirstAccepted(v: Json, ks: seq<string>, i: nat)
    requires AllNamed(v, ks)
  {
    forall j | 0 <= j < i && j < |ks| :: Accepts(v.fields[ks[j]])
  }

  method WriteMembers(dst: Buffer, v: Json, ks: seq<string>) returns (ok: bool)
    requires AllNamed(v, ks)
    modifies dst
    ensures ok <==> Accepts(v)
    ensures ok ==> dst.data == old(dst.data) + PrintMembers(v, ks, 0)
    decreases v, 0, 1
  {
    ok := true;
    ghost var whole := dst.data + PrintMembers(v, ks, 0);
    var i := 0;
    while i < |ks|
      invariant 0 <= i <= |ks| && FirstAccepted(v, ks, i)
      invariant dst.data + PrintMembers(v, ks, i) == whole
    {
      ok := WriteMember(dst, v, ks, i);
      if !ok {
        OneRejected(v, ks[i]);
        return;
      }
      i := i + 1;
    }
    AllAccepted(v, ks);
    NothingLeft(dst.data, PrintMembers(v, ks, i));
  }

  lemma OneRejected(v: Json, k: string)
    requires v.Object? && k in v.fields && !Accepts(v.fields[k])
    ensures !Accepts(v)
  {
  }

  lemma NothingLeft(data: string, tail: string)
    requires tail == ""
    ensures data + tail == data
  {
  }

  lemma AllAccepted(v: Json, ks: seq<string>)
    requires AllNamed(v, ks) && FirstAccepted(v, ks, |ks|)
    ensures Accepts(v)
  {
    forall k | k in v.fields ensures Accepts(v.fields[k]) {
      var j :| 0 <= j < |ks| && ks[j] == k;
    }
  }

  method WriteMember(dst: Buffer, v: Json, ks: seq<string>, i: nat) returns (ok: bool)
    requires AllNamed(v, ks) && i < |ks|
    modifies dst
    ensures ok <==> Accepts(v.fields[ks[i]])
    ensures ok ==> dst.data + PrintMembers(v, ks, i + 1) == old(dst.data) + PrintMembers(v, ks, i)
    decreases v, 0, 0
  {
    if i != 0 { dst.WriteString(","); }
    WriteJSONString(dst, ks[i]);
    dst.WriteString(":");
    ok := WriteCanonical(dst, v.fields[ks[i]]);
    MemberAppended(old(dst.data), if i != 0 then "," else "", Quoted(ks[i]), Print(v.fields[ks[i]]), PrintMembers(v, ks, i + 1));
  }

  lemma MemberAppended(before: string, sep: string, q: string, p: string, tail: string)
    ensures before + (sep + (q + ":" + p) + tail) == (before + sep) + q + ":" + p + tail
    ensures sep == "" ==> before + sep == before
  {
  }

  method SortedKeys(fields: map<string, Json>) returns (keys: seq<string>)
    ensures keys == KeyOrder(fields.Keys)
  {
    keys := [];
    var todo := fields.Keys;
    while todo != {}
      invariant Distinct(keys) && todo <= fields.Keys
      invariant forall k :: k in keys <==> k in fields.Keys - todo
      decreases todo
    {
      var k :| k in todo;
      assert k !in keys;
      keys := keys + [k];
      todo := todo - {k};
    }
    SortGivesKeyOrder(keys, fields.Keys);
    keys := Sort(keys, UnitsLess);
    KeyOrderUnique(keys, KeyOrder(fields.Keys), fields.Keys);
  }
}
