/** The walk over a JSON token stream that rejects repeated names (internal/casefile/verify.go). */
module DuplicateKeys {
  import opened Orders

  datatype Token = OpenObject | CloseObject | OpenArray | CloseArray | Text(text: string) | Number(digits: string) | Bool(value: bool) | Null

  predicate Delimiter(t: Token) { t.OpenObject? || t.CloseObject? || t.OpenArray? || t.CloseArray? }

  datatype Reason = TooDeep | RepeatedName(name: string) | Malformed

  // ----- Values and their tokens -----

  type Scalar = t: Token | !Delimiter(t) witness Null

  datatype Value = Leaf(token: Scalar) | Object(members: seq<Member>) | Array(items: seq<Value>)

  datatype Member = Member(name: string, value: Value)

  function Tokens(v: Value): seq<Token> {
    match v
    case Leaf(t) => [t]
    case Object(ms) => [OpenObject] + MemberTokens(ms)
    case Array(vs) => [OpenArray] + ItemTokens(vs)
  }

  /** The members and the closing brace. */
  function MemberTokens(ms: seq<Member>): seq<Token> {
    if ms == [] then [CloseObject] else [Text(ms[0].name)] + Tokens(ms[0].value) + MemberTokens(ms[1..])
  }

  function ItemTokens(vs: seq<Value>): seq<Token> {
    if vs == [] then [CloseArray] else Tokens(vs[0]) + ItemTokens(vs[1..])
  }

  /** No object at any depth repeats a name. */
  predicate NoRepeats(v: Value) {
    match v
    case Leaf(_) => true
    case Object(ms) => FreshMembers(ms, {})
    case Array(vs) => forall i :: 0 <= i < |vs| ==> NoRepeats(vs[i])
  }

  /** The names are distinct and none is among those seen. */
  predicate FreshMembers(ms: seq<Member>, seen: set<string>) {
    ms == [] || (ms[0].name !in seen && NoRepeats(ms[0].value) && FreshMembers(ms[1..], seen + {ms[0].name}))
  }

  /** No composite lies at or below depth `max`, when the value lies at the given depth. */
  predicate Fits(v: Value, depth: int, max: int) {
    match v
    case Leaf(_) => true
    case Object(ms) => depth < max && forall i :: 0 <= i < |ms| ==> Fits(ms[i].value, depth + 1, max)
    case Array(vs) => depth < max && forall i :: 0 <= i < |vs| ==> Fits(vs[i], depth + 1, max)
  }

  /** How deep composites nest. */
  function Height(v: Value): nat {
    match v
    case Leaf(_) => 0
    case Object(ms) => 1 + MembersHeight(ms)
    case Array(vs) => 1 + ItemsHeight(vs)
  }

  function MembersHeight(ms: seq<Member>): nat {
    if ms == [] then 0 else Larger(Height(ms[0].value), MembersHeight(ms[1..]))
  }

  function ItemsHeight(vs: seq<Value>): nat { if vs == [] then 0 else Larger(Height(vs[0]), ItemsHeight(vs[1..])) }

  function Larger(a: nat, b: nat): nat { if a < b then b else a }

  lemma {:induction false} FitsIsHeight(v: Value, depth: int, max: int)
    ensures Fits(v, depth, max) <==> v.Leaf? || depth + Height(v) <= max
    decreases v
  {
    match v {
      case Leaf(_) =>
      case Object(ms) =>
        MembersHeightIs(ms);
        forall i | 0 <= i < |ms| ensures Fits(ms[i].value, depth + 1, max) <==> ms[i].value.Leaf? || depth + 1 + Height(ms[i].value) <= max {
          FitsIsHeight(ms[i].value, depth + 1, max);
        }
      case Array(vs) =>
        ItemsHeightIs(vs);
        forall i | 0 <= i < |vs| ensures Fits(vs[i], depth + 1, max) <==> vs[i].Leaf? || depth + 1 + Height(vs[i]) <= max {
          FitsIsHeight(vs[i], depth + 1, max);
        }
    }
  }

  lemma {:induction false} MembersHeightIs(ms: seq<Member>)
    ensures forall i :: 0 <= i < |ms| ==> Height(ms[i].value) <= MembersHeight(ms)
    ensures MembersHeight(ms) > 0 ==> exists i :: 0 <= i < |ms| && Height(ms[i].value) == MembersHeight(ms)
  {
    if ms != [] {
      MembersHeightIs(ms[1..]);
      if MembersHeight(ms) > 0 && Height(ms[0].value) < MembersHeight(ms) {
        var i :| 0 <= i < |ms[1..]| && Height(ms[1..][i].value) == MembersHeight(ms);
        assert ms[i + 1] == ms[1..][i];
      }
    }
  }

  lemma {:induction false} ItemsHeightIs(vs: seq<Value>)
    ensures forall i :: 0 <= i < |vs| ==> Height(vs[i]) <= ItemsHeight(vs)
    ensures ItemsHeight(vs) > 0 ==> exists i :: 0 <= i < |vs| && Height(vs[i]) == ItemsHeight(vs)
  {
    if vs != [] {
      ItemsHeightIs(vs[1..]);
      if ItemsHeight(vs) > 0 && Height(vs[0]) < ItemsHeight(vs) {
        var i :| 0 <= i < |vs[1..]| && Height(vs[1..][i]) == ItemsHeight(vs);
        assert vs[i + 1] == vs[1..][i];
      }
    }
  }

  // ----- What the walk does to a token stream -----

  datatype Verdict = Accepted(rest: seq<Token>) | Rejected(reason: Reason)

  /** `decoder.More`: the stream goes on and the next token closes nothing. */
  predicate More(ts: seq<Token>) { ts != [] && !ts[0].CloseObject? && !ts[0].CloseArray? }

  function Consume(ts: seq<Token>, depth: int, max: int): (v: Verdict)
    ensures v.Accepted? ==> |v.rest| < |ts|
    decreases |ts|, 0
  {
    if ts == [] then Rejected(Malformed)
    else if !Delimiter(ts[0]) then Accepted(ts[1..])
    else if depth >= max then Rejected(TooDeep)
    else if ts[0].OpenObject? then Members(ts[1..], {}, depth, max)
    else if ts[0].OpenArray? then Items(ts[1..], depth, max)
    else Rejected(Malformed)
  }

  function Members(ts: seq<Token>, seen: set<string>, depth: int, max: int): (v: Verdict)
    ensures v.Accepted? ==> |v.rest| < |ts|
    decreases |ts|, 1
  {
    if !More(ts) then if ts != [] && ts[0].CloseObject? then Accepted(ts[1..]) else Rejected(Malformed)
    else if !ts[0].Text? then Rejected(Malformed)
    else if ts[0].text in seen then Rejected(RepeatedName(ts[0].text))
    else
      var v := Consume(ts[1..], depth + 1, max);
      if v.Rejected? then v else Members(v.rest, seen + {ts[0].text}, depth, max)
  }

  function Items(ts: seq<Token>, depth: int, max: int): (v: Verdict)
    ensures v.Accepted? ==> |v.rest| < |ts|
    decreases |ts|, 1
  {
    if !More(ts) then if ts != [] && ts[0].CloseArray? then Accepted(ts[1..]) else Rejected(Malformed)
    else
      var v := Consume(ts, depth + 1, max);
      if v.Rejected? then v else Items(v.rest, depth, max)
  }

  /** `json.Decoder`: the tokens of the text, then either its end or an error. */
  class Decoder {
    const tokens: seq<Token>
    const broken: bool
    var next: nat

    ghost predicate Valid()
      reads this
    {
      next <= |tokens|
    }

    function Rest(): seq<Token>
      requires Valid()
      reads this
    {
      tokens[next..]
    }

    constructor (tokens: seq<Token>, broken: bool)
      ensures Valid() && Rest() == tokens && this.tokens == tokens && this.broken == broken
    {
      this.tokens, this.broken, next := tokens, broken, 0;
    }

    /** Where the text breaks off, `More` may say anything; the next `Token` fails. */
    method HasMore() returns (more: bool)
      requires Valid()
      ensures Rest() != [] ==> more == More(Rest())
      ensures more && !broken ==> Rest() != []
    {
      more := if next < |tokens| then !tokens[next].CloseObject? && !tokens[next].CloseArray? else broken;
    }

    method Token() returns (token: Option<Token>)
      requires Valid()
      modifies this
      ensures Valid()
      ensures if old(Rest()) == [] then token == None && Rest() == [] else token == Some(old(Rest())[0]) && Rest() == old(Rest())[1..]
    {
      if next == |tokens| {
        return None;
      }
      token := Some(tokens[next]);
      next := next + 1;
    }
  }

  /** The verdict on a walk that stopped with this error, or with none and this rest. */
  function Outcome(error: Option<Reason>, rest: seq<Token>): Verdict {
    if error.Some? then Rejected(error.value) else Accepted(rest)
  }

  /** `consumeJSONValue`: the first token has been read already. */
  method ConsumeJsonValue(d: Decoder, token: Token, depth: int, max: int) returns (error: Option<Reason>)
    requires d.Valid()
    modifies d
    ensures d.Valid() && |d.Rest()| <= |old(d.Rest())|
    ensures Consume([token] + old(d.Rest()), depth, max) == Outcome(error, d.Rest())
    decreases |d.Rest()|, 2
  {
    assert ([token] + d.Rest())[1..] == d.Rest();
    if !Delimiter(token) {
      return None;
    }
    if depth >= max {
      return Some(TooDeep);
    }
    match token {
      case OpenObject => error := ConsumeMembers(d, depth, max);
      case OpenArray => error := ConsumeItems(d, depth, max);
      case _ => error := Some(Malformed);
    }
  }

  /** Reads the first token of a value and walks the rest of it. */
  method ConsumeNext(d: Decoder, depth: int, max: int) returns (error: Option<Reason>)
    requires d.Valid()
    modifies d
    ensures d.Valid() && (|d.Rest()| < |old(d.Rest())| || error.Some?) && |d.Rest()| <= |old(d.Rest())|
    ensures Consume(old(d.Rest()), depth, max) == Outcome(error, d.Rest())
    decreases |d.Rest()|, 0
  {
    ghost var before := d.Rest();
    var token := d.Token();
    if token.None? {
      return Some(Malformed);
    }
    assert [token.value] + d.Rest() == before;
    error := ConsumeJsonValue(d, token.value, depth, max);
  }

  method ConsumeMembers(d: Decoder, depth: int, max: int) returns (error: Option<Reason>)
    requires d.Valid()
    modifies d
    ensures d.Valid() && |d.Rest()| <= |old(d.Rest())|
    ensures Members(old(d.Rest()), {}, depth, max) == Outcome(error, d.Rest())
    decreases |d.Rest()|, 1
  {
    var seen: set<string> := {};
    var more := d.HasMore();
    while more
      invariant d.Valid() && |d.Rest()| <= |old(d.Rest())|
      invariant d.Rest() != [] ==> more == More(d.Rest())
      invariant Members(old(d.Rest()), {}, depth, max) == Members(d.Rest(), seen, depth, max)
      decreases |d.Rest()|, more
    {
      var keyToken := d.Token();
      if keyToken.None? {
        return Some(Malformed);
      }
      if !keyToken.value.Text? {
        return Some(Malformed);
      }
      var key := keyToken.value.text;
      if key in seen {
        return Some(RepeatedName(key));
      }
      seen := seen + {key};
      error := ConsumeNext(d, depth + 1, max);
      if error.Some? {
        return;
      }
      more := d.HasMore();
    }
    var closing := d.Token();
    if closing != Some(CloseObject) {
      return Some(Malformed);
    }
    return None;
  }

  method ConsumeItems(d: Decoder, depth: int, max: int) returns (error: Option<Reason>)
    requires d.Valid()
    modifies d
    ensures d.Valid() && |d.Rest()| <= |old(d.Rest())|
    ensures Items(old(d.Rest()), depth, max) == Outcome(error, d.Rest())
    decreases |d.Rest()|, 1
  {
    var more := d.HasMore();
    while more
      invariant d.Valid() && |d.Rest()| <= |old(d.Rest())|
      invariant d.Rest() != [] ==> more == More(d.Rest())
      invariant Items(old(d.Rest()), depth, max) == Items(d.Rest(), depth, max)
      decreases |d.Rest()|, more
    {
      error := ConsumeNext(d, depth + 1, max);
      if error.Some? {
        return;
      }
      more := d.HasMore();
    }
    var closing := d.Token();
    if closing != Some(CloseArray) {
      return Some(Malformed);
    }
    return None;
  }

  /** `rejectDuplicateJSONKeys`, for a text that has these tokens and then ends or breaks off. */
  method RejectDuplicateJsonKeys(tokens: seq<Token>, broken: bool, max: int) returns (error: Option<Reason>)
    ensures error.None? <==> !broken && Consume(tokens, 0, max) == Accepted([])
  {
    var d := new Decoder(tokens, broken);
    error := ConsumeNext(d, 0, max);
    if error.Some? {
      return;
    }
    var extra := d.Token();
    if extra.Some? || d.broken {
      return Some(Malformed);
    }
  }

  // ----- Which streams are accepted -----

  /** The walk consumes exactly the tokens of the value at the front, and accepts it if and only if no object
      in it repeats a name and its nesting stays below the limit. */
  lemma {:induction false} AcceptsExactly(v: Value, rest: seq<Token>, depth: int, max: int)
    ensures Consume(Tokens(v) + rest, depth, max).Accepted? <==> NoRepeats(v) && Fits(v, depth, max)
    ensures Consume(Tokens(v) + rest, depth, max).Accepted? ==> Consume(Tokens(v) + rest, depth, max).rest == rest
    decreases v
  {
    var ts := Tokens(v) + rest;
    match v {
      case Leaf(t) => assert ts[1..] == rest;
      case Object(ms) =>
        assert ts[1..] == MemberTokens(ms) + rest;
        MembersExactly(v, ms, rest, {}, depth, max);
      case Array(vs) =>
        assert ts[1..] == ItemTokens(vs) + rest;
        ItemsExactly(v, vs, rest, depth, max);
    }
  }

  predicate MembersFit(ms: seq<Member>, depth: int, max: int) { forall i :: 0 <= i < |ms| ==> Fits(ms[i].value, depth, max) }

  lemma {:induction false} MembersExactly(v: Value, ms: seq<Member>, rest: seq<Token>, seen: set<string>, depth: int, max: int)
    requires forall i :: 0 <= i < |ms| ==> ms[i].value < v
    ensures Members(MemberTokens(ms) + rest, seen, depth, max).Accepted? <==> FreshMembers(ms, seen) && MembersFit(ms, depth + 1, max)
    ensures Members(MemberTokens(ms) + rest, seen, depth, max).Accepted? ==> Members(MemberTokens(ms) + rest, seen, depth, max).rest == rest
    decreases v, |ms|
  {
    var ts := MemberTokens(ms) + rest;
    if ms == [] {
      assert ts[1..] == rest;
    } else {
      var m, tail := ms[0], MemberTokens(ms[1..]) + rest;
      assert ts[1..] == Tokens(m.value) + tail;
      AcceptsExactly(m.value, tail, depth + 1, max);
      MembersExactly(v, ms[1..], rest, seen + {m.name}, depth, max);
      assert MembersFit(ms, depth + 1, max) <==> Fits(m.value, depth + 1, max) && MembersFit(ms[1..], depth + 1, max) by {
        assert ms == [m] + ms[1..];
      }
    }
  }

  predicate ItemsFine(vs: seq<Value>, depth: int, max: int) { forall i :: 0 <= i < |vs| ==> NoRepeats(vs[i]) && Fits(vs[i], depth, max) }

  lemma {:induction false} ItemsExactly(v: Value, vs: seq<Value>, rest: seq<Token>, depth: int, max: int)
    requires forall i :: 0 <= i < |vs| ==> vs[i] < v
    ensures Items(ItemTokens(vs) + rest, depth, max).Accepted? <==> ItemsFine(vs, depth + 1, max)
    ensures Items(ItemTokens(vs) + rest, depth, max).Accepted? ==> Items(ItemTokens(vs) + rest, depth, max).rest == rest
    decreases v, |vs|
  {
    var ts := ItemTokens(vs) + rest;
    if vs == [] {
      assert ts[1..] == rest;
    } else {
      var tail := ItemTokens(vs[1..]) + rest;
      assert ts == Tokens(vs[0]) + tail;
      FirstOpens(vs[0], tail);
      AcceptsExactly(vs[0], tail, depth + 1, max);
      ItemsExactly(v, vs[1..], rest, depth, max);
      assert ItemsFine(vs, depth + 1, max) <==> NoRepeats(vs[0]) && Fits(vs[0], depth + 1, max) && ItemsFine(vs[1..], depth + 1, max) by {
        assert vs == [vs[0]] + vs[1..];
      }
    }
  }

  lemma FirstOpens(v: Value, tail: seq<Token>)
    ensures More(Tokens(v) + tail)
  {
    assert (Tokens(v) + tail)[0] == Tokens(v)[0];
  }

  /** Nothing else is accepted: an accepted stream begins with the tokens of a value. */
  lemma {:induction false} AcceptedIsValue(ts: seq<Token>, depth: int, max: int) returns (v: Value)
    requires Consume(ts, depth, max).Accepted?
    ensures ts == Tokens(v) + Consume(ts, depth, max).rest
    decreases |ts|, 0
  {
    if !Delimiter(ts[0]) {
      v := Leaf(ts[0]);
    } else if ts[0].OpenObject? {
      var ms := AcceptedAreMembers(ts[1..], {}, depth, max);
      v := Object(ms);
    } else {
      var vs := AcceptedAreItems(ts[1..], depth, max);
      v := Array(vs);
    }
  }

  lemma {:induction false} AcceptedAreMembers(ts: seq<Token>, seen: set<string>, depth: int, max: int) returns (ms: seq<Member>)
    requires Members(ts, seen, depth, max).Accepted?
    ensures ts == MemberTokens(ms) + Members(ts, seen, depth, max).rest
    decreases |ts|, 1
  {
    if !More(ts) {
      ms := [];
    } else {
      var v := AcceptedIsValue(ts[1..], depth + 1, max);
      var tail := AcceptedAreMembers(Consume(ts[1..], depth + 1, max).rest, seen + {ts[0].text}, depth, max);
      ms := [Member(ts[0].text, v)] + tail;
      assert ms[1..] == tail;
    }
  }

  lemma {:induction false} AcceptedAreItems(ts: seq<Token>, depth: int, max: int) returns (vs: seq<Value>)
    requires Items(ts, depth, max).Accepted?
    ensures ts == ItemTokens(vs) + Items(ts, depth, max).rest
    decreases |ts|, 1
  {
    if !More(ts) {
      vs := [];
    } else {
      var v := AcceptedIsValue(ts, depth + 1, max);
      var tail := AcceptedAreItems(Consume(ts, depth + 1, max).rest, depth, max);
      vs := [v] + tail;
      assert vs[1..] == tail;
    }
  }

  /** A whole stream is accepted if and only if it is one value, without repeated names, nested no deeper than the limit. */
  lemma AcceptedStreams(ts: seq<Token>, max: nat)
    ensures Consume(ts, 0, max) == Accepted([]) <==> exists v :: ts == Tokens(v) && NoRepeats(v) && Height(v) <= max
  {
    if Consume(ts, 0, max) == Accepted([]) {
      var v := AcceptedIsValue(ts, 0, max);
      assert Tokens(v) + [] == Tokens(v);
      FitsIsHeight(v, 0, max);
      AcceptsExactly(v, [], 0, max);
    }
    if v :| ts == Tokens(v) && NoRepeats(v) && Height(v) <= max {
      assert Tokens(v) + [] == Tokens(v);
      FitsIsHeight(v, 0, max);
      AcceptsExactly(v, [], 0, max);
    }
  }
}
