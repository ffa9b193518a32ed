/** A parser for canonical JSON, written independently of the printer, and the proof that it
    undoes it: the printed text determines the value (sections 3.2.2.2 and 3.2.2.3 of RFC 8785). */
module CanonicalParser {
  import opened Orders
  import opened Decimal
  import opened Canonical

  datatype Parsed<+T> = Bad | Good(value: T, rest: string)

  // ----- Which numbers are printed -----

  ghost predicate IsFraction(s: string) { s == "" || (|s| >= 2 && s[0] == '.' && AllDigits(s[1..])) }

  ghost predicate IsExponent(s: string) {
    s == "" || (|s| >= 2 && (s[0] == 'e' || s[0] == 'E')
                && (AllDigits(s[1..]) || ((s[1] == '+' || s[1] == '-') && |s| >= 3 && AllDigits(s[2..]))))
  }

  ghost predicate IsIntegerPart(s: string) { s != "" && AllDigits(s) && (s[0] == '0' ==> s == "0") }

  /** The JSON number grammar (section 6 of RFC 8259), which a decoder's number text obeys. */
  ghost predicate IsJsonNumber(t: string) {
    exists sign, whole, frac, exp :: IsNumberOf(t, sign, whole, frac, exp)
  }

  ghost predicate IsNumberOf(t: string, sign: string, whole: string, frac: string, exp: string) {
    && t == sign + whole + frac + exp
    && (sign == "" || sign == "-")
    && IsIntegerPart(whole) && IsFraction(frac) && IsExponent(exp)
  }

  ghost predicate IsIntegerText(t: string) { exists n: int :: t == Itoa(n) }

  lemma AcceptedIsInteger(t: string, sign: string, whole: string)
    requires IsNumberOf(t, sign, whole, "", "") && NumberAccepted(t)
    ensures IsIntegerText(t)
  {
    assert t == sign + whole;
    DigitsOfValue(whole);
    if sign == "" {
      assert t == Itoa(Value(whole));
    } else {
      assert whole != "0";
      ValueIsPositive(whole);
      var n: int := Value(whole);
      assert t == Itoa(0 - n);
    }
  }

  lemma IntegerIsAccepted(t: string)
    requires IsJsonNumber(t) && IsIntegerText(t)
    ensures NumberAccepted(t)
  {
    var n :| t == Itoa(n);
    if n < 0 { assert t[1] == Digits(-n)[0] && t[1] != '0'; }
  }

  /** Of all JSON numbers, the printer accepts exactly the shortest decimal texts of integers. */
  lemma AcceptsExactlyIntegers(t: string)
    requires IsJsonNumber(t)
    ensures NumberAccepted(t) <==> IsIntegerText(t)
  {
    var sign, whole, frac, exp :| IsNumberOf(t, sign, whole, frac, exp);
    assert frac != "" ==> frac[0] in t;
    assert exp != "" ==> exp[0] in t;
    if NumberAccepted(t) { AcceptedIsInteger(t, sign, whole); }
    if IsIntegerText(t) { IntegerIsAccepted(t); }
  }

  /** Every number in v is in the JSON grammar. */
  ghost predicate WellFormed(v: Json) {
    match v
    case Number(text) => IsJsonNumber(text)
    case Array(elems) => forall e | e in elems :: WellFormed(e)
    case Object(fields) => forall k | k in fields :: WellFormed(fields[k])
    case _ => true
  }

  // ----- The parser -----

  function HexValue(c: char): Option<nat> {
    if IsDigit(c) then Some(c as int - '0' as int)
    else if 'a' <= c <= 'f' then Some(c as int - 'a' as int + 10)
    else None
  }

  /** The character at the start of a string body, and how much text it takes. */
  function OneChar(s: string): (r: Option<(char, nat)>)
    ensures r.Some? ==> 0 < r.value.1 <= |s|
  {
    if s == "" || s[0] as int < 0x20 then None
    else if s[0] != '\\' then Some((s[0], 1))
    else if |s| < 2 then None
    else match s[1]
      case '"' => Some(('"', 2))
      case '\\' => Some(('\\', 2))
      case 'b' => Some(('\U{8}', 2))
      case 't' => Some(('\t', 2))
      case 'n' => Some(('\n', 2))
      case 'f' => Some(('\U{C}', 2))
      case 'r' => Some(('\r', 2))
      case 'u' =>
        if |s| < 6 || s[2] != '0' || s[3] != '0' then None
        else
          var hi, lo := HexValue(s[4]), HexValue(s[5]);
          if hi.None? || lo.None? then None else Some(((hi.value * 16 + lo.value) as char, 6))
      case _ => None
  }

  /** Parses what follows an opening quote. */
  function ParseString(s: string): (r: Parsed<string>)
    ensures r.Good? ==> |r.rest| < |s|
    decreases |s|
  {
    if s != "" && s[0] == '"' then Good("", s[1..])
    else
      var c := OneChar(s);
      if c.None? then Bad
      else
        var tail := ParseString(s[c.value.1..]);
        if tail.Bad? then Bad else Good([c.value.0] + tail.value, tail.rest)
  }

  function DigitRun(s: string): (n: nat)
    ensures n <= |s|
  {
    if s != "" && IsDigit(s[0]) then 1 + DigitRun(s[1..]) else 0
  }

  function ParseNumber(s: string): (r: Parsed<Json>)
    ensures r.Good? ==> |r.rest| < |s|
  {
    var sign := if s != "" && s[0] == '-' then 1 else 0;
    var n := DigitRun(s[sign..]);
    if n == 0 then Bad else Good(Number(s[..sign + n]), s[sign + n..])
  }

  function ParseWord(s: string, word: string, value: Json): (r: Parsed<Json>)
    requires word != ""
    ensures r.Good? ==> |r.rest| < |s|
  {
    if word <= s then Good(value, s[|word|..]) else Bad
  }

  function ParseValue(s: string): (r: Parsed<Json>)
    ensures r.Good? ==> |r.rest| < |s|
    decreases |s|, 1
  {
    if s == "" then Bad
    else if s[0] == 'n' then ParseWord(s, "null", Null)
    else if s[0] == 't' then ParseWord(s, "true", Bool(true))
    else if s[0] == 'f' then ParseWord(s, "false", Bool(false))
    else if s[0] == '"' then
      var p := ParseString(s[1..]);
      if p.Bad? then Bad else Good(String(p.value), p.rest)
    else if s[0] == '[' then
      if |s| > 1 && s[1] == ']' then Good(Array([]), s[2..]) else
      var first := ParseValue(s[1..]);
      if first.Bad? then Bad else
      var more := ParseElems(first.rest);
      if more.Bad? then Bad else Good(Array([first.value] + more.value), more.rest)
    else if s[0] == '{' then
      if |s| > 1 && s[1] == '}' then Good(Object(map[]), s[2..]) else
      var first := ParseMember(s[1..]);
      if first.Bad? then Bad else
      var more := ParseMembers(first.rest);
      if more.Bad? then Bad else Good(Object(more.value[first.value.0 := first.value.1]), more.rest)
    else ParseNumber(s)
  }

  /** The elements after the first, up to the closing bracket. */
  function ParseElems(s: string): (r: Parsed<seq<Json>>)
    ensures r.Good? ==> |r.rest| < |s|
    decreases |s|, 0
  {
    if s == "" then Bad
    else if s[0] == ']' then Good([], s[1..])
    else if s[0] == ',' then
      var first := ParseValue(s[1..]);
      if first.Bad? then Bad else
      var more := ParseElems(first.rest);
      if more.Bad? then Bad else Good([first.value] + more.value, more.rest)
    else Bad
  }

  function ParseMember(s: string): (r: Parsed<(string, Json)>)
    ensures r.Good? ==> |r.rest| < |s|
    decreases |s|, 2
  {
    if s == "" || s[0] != '"' then Bad else
    var k := ParseString(s[1..]);
    if k.Bad? || k.rest == "" || k.rest[0] != ':' then Bad else
    var v := ParseValue(k.rest[1..]);
    if v.Bad? then Bad else Good((k.value, v.value), v.rest)
  }

  function ParseMembers(s: string): (r: Parsed<map<string, Json>>)
    ensures r.Good? ==> |r.rest| < |s|
    decreases |s|, 0
  {
    if s == "" then Bad
    else if s[0] == '}' then Good(map[], s[1..])
    else if s[0] == ',' then
      var first := ParseMember(s[1..]);
      if first.Bad? then Bad else
      var more := ParseMembers(first.rest);
      if more.Bad? then Bad else Good(more.value[first.value.0 := first.value.1], more.rest)
    else Bad
  }

  // ----- It undoes the printer -----

  lemma OneCharOfEscape(c: char, t: string)
    ensures OneChar(EscapeChar(c) + t) == Some((c, |EscapeChar(c)|))
    ensures |EscapeChar(c)| > 0 && EscapeChar(c)[0] != '"'
    ensures (EscapeChar(c) + t)[|EscapeChar(c)|..] == t
  {
    if c as int < 0x20 && |EscapeChar(c)| == 6 {
      var s := EscapeChar(c) + t;
      assert HexValue(s[4]) == Some(c as int / 16) && HexValue(s[5]) == Some(c as int % 16);
    }
  }

  lemma {:induction false} StringRoundTrip(cs: string, rest: string)
    ensures ParseString(Escaped(cs) + ("\"" + rest)) == Good(cs, rest)
  {
    if cs == "" {
      assert Escaped(cs) + ("\"" + rest) == "\"" + rest;
    } else {
      var t := Escaped(cs[1..]) + ("\"" + rest);
      StringRoundTrip(cs[1..], rest);
      OneCharOfEscape(cs[0], t);
      Assoc(EscapeChar(cs[0]), Escaped(cs[1..]), "\"" + rest);
      ReadChar(EscapeChar(cs[0]) + t, cs[0], |EscapeChar(cs[0])|, t, cs[1..], rest);
      assert cs == [cs[0]] + cs[1..];
    }
  }

  lemma ReadChar(s: string, c: char, n: nat, t: string, tail: string, rest: string)
    requires 0 < n <= |s| && s[0] != '"' && OneChar(s) == Some((c, n)) && s[n..] == t
    requires ParseString(t) == Good(tail, rest)
    ensures ParseString(s) == Good([c] + tail, rest)
  {
  }

  // ----- No string is escaped more than it must be -----

  /** A character that stands for itself between quotes: no quote, no backslash, and no control character. */
  predicate Plain(c: char) { c != '"' && c != '\\' && c >= '\U{20}' }

  predicate HasShortEscape(c: char) { c in ['\U{8}', '\t', '\n', '\U{C}', '\r'] }

  /** What each character is written as. */
  lemma WrittenAs(c: char)
    ensures Plain(c) <==> EscapeChar(c) == [c]
    ensures c == '"' || c == '\\' ==> EscapeChar(c) == ['\\', c]
    ensures EscapeChar('\U{8}') == "\\b" && EscapeChar('\t') == "\\t" && EscapeChar('\n') == "\\n"
    ensures EscapeChar('\U{C}') == "\\f" && EscapeChar('\r') == "\\r"
    ensures "\\u00" <= EscapeChar(c) <==> c < '\U{20}' && !HasShortEscape(c)
    ensures c < '\U{20}' && !HasShortEscape(c) ==>
      |EscapeChar(c)| == 6 && forall d :: d in EscapeChar(c)[4..] ==> '0' <= d <= '9' || 'a' <= d <= 'f'
  {
    if c < '\U{20}' && !HasShortEscape(c) {
      var e := EscapeChar(c);
      assert e == "\\u00" + [Hex(c as int / 16), Hex(c as int % 16)];
      assert e[4..] == [Hex(c as int / 16), Hex(c as int % 16)];
    }
  }

  /** A string without quotes, backslashes and control characters is written as it is. */
  lemma {:induction false} PlainIsUnchanged(s: string)
    ensures (forall c :: c in s ==> Plain(c)) <==> Quoted(s) == "\"" + s + "\""
  {
    EscapedLonger(s);
    if Quoted(s) == "\"" + s + "\"" { assert Quoted(s)[1..|Quoted(s)| - 1] == Escaped(s) && ("\"" + s + "\"")[1..|s| + 1] == s; }
  }

  lemma {:induction false} EscapedLonger(s: string)
    ensures |Escaped(s)| >= |s|
    ensures |Escaped(s)| == |s| <==> forall c :: c in s ==> Plain(c)
    ensures |Escaped(s)| == |s| ==> Escaped(s) == s
  {
    if s != "" {
      WrittenAs(s[0]);
      EscapedLonger(s[1..]);
      assert s == [s[0]] + s[1..];
    }
  }

  /** The text at the start of a string body is no shorter than the escape of the character it stands for. */
  lemma OneCharIsLonger(t: string)
    requires OneChar(t).Some? && t[0] != '"'
    ensures |EscapeChar(OneChar(t).value.0)| <= OneChar(t).value.1
  {
    var c, n := OneChar(t).value.0, OneChar(t).value.1;
    assert |EscapeChar(c)| <= 6;
    if t[0] != '\\' {
      assert Plain(c);
    } else if n == 2 {
      assert c == '"' || c == '\\' || HasShortEscape(c);
    }
  }

  /** Of all the bodies that read as a string, the one that is printed is the shortest. */
  lemma {:induction false} EscapedIsShortest(t: string)
    requires ParseString(t).Good?
    ensures |Escaped(ParseString(t).value)| + 1 <= |t| - |ParseString(t).rest|
    decreases |t|
  {
    if t[0] != '"' {
      var c := OneChar(t).value;
      var tail := ParseString(t[c.1..]);
      OneCharIsLonger(t);
      EscapedIsShortest(t[c.1..]);
      var s := [c.0] + tail.value;
      assert s[0] == c.0 && s[1..] == tail.value;
    }
  }

  lemma {:induction false} DigitRunOf(ds: string, rest: string)
    requires AllDigits(ds) && (rest == "" || !IsDigit(rest[0]))
    ensures DigitRun(ds + rest) == |ds|
  {
    if ds == "" {
      assert ds + rest == rest;
    } else {
      assert (ds + rest)[1..] == ds[1..] + rest;
      DigitRunOf(ds[1..], rest);
    }
  }

  lemma NumberRoundTrip(n: int, rest: string)
    requires rest == "" || !IsDigit(rest[0])
    ensures ParseNumber(Itoa(n) + rest) == Good(Number(Itoa(n)), rest)
  {
    var t := Itoa(n);
    if n < 0 {
      assert (t + rest)[1..] == Digits(-n) + rest;
      DigitRunOf(Digits(-n), rest);
    } else {
      assert (t + rest)[0..] == t + rest;
      DigitRunOf(t, rest);
    }
    assert (t + rest)[..|t|] == t && (t + rest)[|t|..] == rest;
  }

  lemma PrintStart(v: Json)
    requires WellFormed(v) && Accepts(v)
    ensures Print(v) != "" && Print(v)[0] !in "],}:"
    ensures v.Number? ==> Print(v)[0] == '-' || IsDigit(Print(v)[0])
  {
    if v.Number? { AcceptsExactlyIntegers(v.text); }
  }

  /** Parsing the printed text of v, whatever non-digit text follows, gives back v and that text. */
  lemma {:induction false} RoundTrip(v: Json, rest: string)
    requires WellFormed(v) && Accepts(v)
    requires rest == "" || !IsDigit(rest[0])
    ensures ParseValue(Print(v) + rest) == Good(v, rest)
    decreases v, 1, 0
  {
    match v
    case Null => ReadWord("null", v, rest);
    case Bool(b) => ReadWord(if b then "true" else "false", v, rest);
    case Number(text) =>
      AcceptsExactlyIntegers(text);
      var n :| text == Itoa(n);
      NumberRoundTrip(n, rest);
      ReadNumber(text + rest);
    case String(cs) => ReadQuoted(cs, rest);
    case Array(_) => ArrayRoundTrip(v, rest);
    case Object(_) => ObjectRoundTrip(v, rest);
  }

  lemma ReadWord(word: string, v: Json, rest: string)
    requires word != ""
    ensures ParseWord(word + rest, word, v) == Good(v, rest) && (word + rest)[0] == word[0]
  {
    assert (word + rest)[|word|..] == rest && (word + rest)[..|word|] == word;
  }

  lemma ReadNumber(s: string)
    requires s != "" && (s[0] == '-' || IsDigit(s[0]))
    ensures ParseValue(s) == ParseNumber(s)
  {
  }

  lemma ReadQuoted(cs: string, rest: string)
    ensures ParseValue(Quoted(cs) + rest) == Good(String(cs), rest)
  {
    StringRoundTrip(cs, rest);
    StripQuote(Escaped(cs), rest);
  }

  lemma StripQuote(body: string, rest: string)
    ensures var s := ("\"" + body + "\"") + rest; s[0] == '"' && s[1..] == body + ("\"" + rest)
  {
  }

  lemma {:induction false} ArrayRoundTrip(v: Json, rest: string)
    requires v.Array? && WellFormed(v) && Accepts(v)
    ensures ParseValue(Print(v) + rest) == Good(v, rest)
    decreases v, 0, |v.elems| + 1
  {
    if v.elems == [] {
      EmptyArrayRoundTrip(rest);
    } else {
      var first, tail := Print(v.elems[0]), PrintElems(v, 1);
      assert PrintElems(v, 0) == first + tail;
      PrintStart(v.elems[0]);
      Bracket(first, tail, rest);
      ElemsStart(v, 1, "]" + rest);
      RoundTrip(v.elems[0], tail + ("]" + rest));
      ElemsRoundTrip(v, 1, rest);
      ReadArray(Print(v) + rest, v.elems[0], tail + ("]" + rest), v.elems[1..], rest);
      assert v.elems == [v.elems[0]] + v.elems[1..];
    }
  }

  lemma EmptyArrayRoundTrip(rest: string)
    ensures ParseValue(Print(Array([])) + rest) == Good(Array([]), rest)
  {
    assert Print(Array([])) == "[]";
    assert ("[]" + rest)[2..] == rest;
  }

  lemma Bracket(text: string, tail: string, rest: string)
    requires text != ""
    ensures var s := ("[" + (text + tail) + "]") + rest;
            s[0] == '[' && s[1] == text[0] && s[1..] == text + (tail + ("]" + rest))
  {
  }

  lemma ReadArray(s: string, first: Json, more: string, others: seq<Json>, rest: string)
    requires |s| > 1 && s[0] == '[' && s[1] != ']'
    requires ParseValue(s[1..]) == Good(first, more) && ParseElems(more) == Good(others, rest)
    ensures ParseValue(s) == Good(Array([first] + others), rest)
  {
  }

  lemma {:induction false} ObjectRoundTrip(v: Json, rest: string)
    requires v.Object? && WellFormed(v) && Accepts(v)
    ensures ParseValue(Print(v) + rest) == Good(v, rest)
    decreases v, 0, |KeyOrder(v.fields.Keys)| + 2
  {
    var ks := KeyOrder(v.fields.Keys);
    if ks == [] {
      EmptyObjectRoundTrip(v, rest);
    } else {
      assert ks[0] in ks;
      var text, tail := MemberText(v, ks[0]), PrintMembers(v, ks, 1);
      ObjectText(v, ks, rest);
      Brace(text, tail, rest);
      MembersStart(v, ks, 1, "}" + rest);
      MemberRoundTrip(v, ks[0], tail + ("}" + rest));
      MembersRoundTrip(v, ks, 1, rest);
      WholeSlice(v, ks);
      ReadObject(Print(v) + rest, ks[0], v.fields[ks[0]], tail + ("}" + rest), Slice(v, ks, 1), rest);
    }
  }

  lemma EmptyObjectRoundTrip(v: Json, rest: string)
    requires v.Object? && KeyOrder(v.fields.Keys) == []
    ensures ParseValue(Print(v) + rest) == Good(v, rest)
  {
    assert v.fields == map[] by { assert v.fields.Keys == {}; }
    assert Print(v) + rest == "{}" + rest;
    assert ("{}" + rest)[2..] == rest;
  }

  lemma ObjectText(v: Json, ks: seq<string>, rest: string)
    requires v.Object? && ks == KeyOrder(v.fields.Keys) && ks != []
    requires ks[0] in v.fields
    ensures Print(v) + rest == ("{" + (MemberText(v, ks[0]) + PrintMembers(v, ks, 1)) + "}") + rest
  {
    assert PrintMembers(v, ks, 0) == "" + MemberText(v, ks[0]) + PrintMembers(v, ks, 1);
    assert "" + MemberText(v, ks[0]) == MemberText(v, ks[0]);
  }

  lemma Brace(text: string, tail: string, rest: string)
    requires text != ""
    ensures var s := ("{" + (text + tail) + "}") + rest;
            s[0] == '{' && s[1] == text[0] && s[1..] == text + (tail + ("}" + rest))
  {
  }

  lemma WholeSlice(v: Json, ks: seq<string>)
    requires v.Object? && ks == KeyOrder(v.fields.Keys) && ks != [] && ks[0] in v.fields
    ensures v.fields == Slice(v, ks, 1)[ks[0] := v.fields[ks[0]]]
  {
    SliceStep(v, ks, 0);
    assert Slice(v, ks, 0) == v.fields;
  }

  lemma ReadObject(s: string, k: string, value: Json, more: string, m: map<string, Json>, rest: string)
    requires |s| > 1 && s[0] == '{' && s[1] != '}'
    requires ParseMember(s[1..]) == Good((k, value), more)
    requires ParseMembers(more) == Good(m, rest)
    ensures ParseValue(s) == Good(Object(m[k := value]), rest)
  {
  }

  lemma ElemsStart(v: Json, i: nat, tail: string)
    requires v.Array? && 0 < i <= |v.elems| && tail != "" && !IsDigit(tail[0])
    ensures !IsDigit((PrintElems(v, i) + tail)[0])
  {
  }

  lemma MembersStart(v: Json, ks: seq<string>, i: nat, tail: string)
    requires v.Object? && (forall k | k in ks :: k in v.fields) && 0 < i <= |ks| && tail != "" && !IsDigit(tail[0])
    ensures !IsDigit((PrintMembers(v, ks, i) + tail)[0])
  {
  }

  lemma {:induction false} ElemsRoundTrip(v: Json, i: nat, rest: string)
    requires v.Array? && 0 < i <= |v.elems| && WellFormed(v) && Accepts(v)
    ensures ParseElems(PrintElems(v, i) + ("]" + rest)) == Good(v.elems[i..], rest)
    decreases v, 0, |v.elems| - i
  {
    var s := PrintElems(v, i) + ("]" + rest);
    if i == |v.elems| {
      assert s == "]" + rest;
    } else {
      var more := PrintElems(v, i + 1) + ("]" + rest);
      Split(Print(v.elems[i]), PrintElems(v, i + 1), "]" + rest);
      assert s[1..] == Print(v.elems[i]) + more;
      ElemsStart(v, i + 1, "]" + rest);
      RoundTrip(v.elems[i], more);
      ElemsRoundTrip(v, i + 1, rest);
      assert v.elems[i..] == [v.elems[i]] + v.elems[i + 1..];
    }
  }

  lemma {:induction false} MemberRoundTrip(v: Json, k: string, more: string)
    requires v.Object? && k in v.fields && WellFormed(v) && Accepts(v)
    requires more == "" || !IsDigit(more[0])
    ensures ParseMember(MemberText(v, k) + more) == Good((k, v.fields[k]), more)
    decreases v, 0, 0
  {
    RoundTrip(v.fields[k], more);
    ReadMember(k, Print(v.fields[k]), v.fields[k], more);
  }

  lemma ReadMember(k: string, text: string, value: Json, more: string)
    requires ParseValue(text + more) == Good(value, more)
    ensures ParseMember((Quoted(k) + ":" + text) + more) == Good((k, value), more)
  {
    var tail := ":" + (text + more);
    Unquote(Escaped(k), text, more);
    StringRoundTrip(k, tail);
    assert tail[1..] == text + more;
  }

  lemma Unquote(body: string, text: string, more: string)
    ensures "\"" <= (("\"" + body + "\"") + ":" + text) + more
    ensures ((("\"" + body + "\"") + ":" + text) + more)[1..] == body + ("\"" + (":" + (text + more)))
  {
  }

  lemma ReadMembers(text: string, k: string, value: Json, more: string, m: map<string, Json>, rest: string)
    requires ParseMember(text + more) == Good((k, value), more)
    requires ParseMembers(more) == Good(m, rest)
    ensures ParseMembers("," + (text + more)) == Good(m[k := value], rest)
  {
    assert ("," + (text + more))[1..] == text + more;
  }

  /** The fields whose keys stand at position i or later. */
  ghost function Slice(v: Json, ks: seq<string>, i: nat): map<string, Json>
    requires v.Object? && (forall k | k in ks :: k in v.fields) && i <= |ks|
  {
    v.fields - (set k | k in v.fields && k !in ks[i..])
  }

  lemma SliceStep(v: Json, ks: seq<string>, i: nat)
    requires v.Object? && (forall k | k in ks :: k in v.fields) && i < |ks|
    ensures Slice(v, ks, i) == Slice(v, ks, i + 1)[ks[i] := v.fields[ks[i]]]
  {
    assert ks[i..] == [ks[i]] + ks[i + 1..];
  }

  lemma {:induction false} MembersRoundTrip(v: Json, ks: seq<string>, i: nat, rest: string)
    requires v.Object? && (forall k | k in ks :: k in v.fields) && 0 < i <= |ks|
    requires WellFormed(v) && Accepts(v)
    ensures ParseMembers(PrintMembers(v, ks, i) + ("}" + rest)) == Good(Slice(v, ks, i), rest)
    decreases v, 0, |ks| - i + 1
  {
    var s := PrintMembers(v, ks, i) + ("}" + rest);
    if i == |ks| {
      assert s == "}" + rest;
    } else {
      var more := PrintMembers(v, ks, i + 1) + ("}" + rest);
      Split(MemberText(v, ks[i]), PrintMembers(v, ks, i + 1), "}" + rest);
      MembersStart(v, ks, i + 1, "}" + rest);
      MemberRoundTrip(v, ks[i], more);
      MembersRoundTrip(v, ks, i + 1, rest);
      ReadMembers(MemberText(v, ks[i]), ks[i], v.fields[ks[i]], more, Slice(v, ks, i + 1), rest);
      SliceStep(v, ks, i);
    }
  }

  lemma Split(text: string, tail: string, end: string)
    ensures ("," + text + tail) + end == "," + (text + (tail + end))
  {
  }

  /** Printed texts are uniquely readable: neither the value nor where it ends is in doubt. */
  lemma UniquelyReadable(v: Json, w: Json, r: string, t: string)
    requires WellFormed(v) && Accepts(v) && WellFormed(w) && Accepts(w)
    requires (r == "" || !IsDigit(r[0])) && (t == "" || !IsDigit(t[0]))
    requires Print(v) + r == Print(w) + t
    ensures v == w && r == t
  {
    RoundTrip(v, r);
    RoundTrip(w, t);
  }

  /** Content identity: with an injective hash, equal identifiers mean equal values. */
  lemma IdentityDeterminesContent(hash: string -> string, v: Json, w: Json)
    requires Injective(hash)
    requires WellFormed(v) && Accepts(v) && WellFormed(w) && Accepts(w)
    ensures hash(Print(v)) == hash(Print(w)) <==> v == w
  {
    if hash(Print(v)) == hash(Print(w)) {
      assert Print(v) + "" == Print(w) + "";
      UniquelyReadable(v, w, "", "");
    }
  }
}
