/** Downloading a log through a temporary redirect (internal/githubapi/logs.go). */
module Logs {
  import opened Orders
  import opened Copy

  datatype ErrorClass = SizeLimit | LocalIO | Transient | RedirectExpired | UnsafeRedirect | Cancelled | Refused

  /** What a request for a temporary object meets. */
  datatype Answer = BadRequest | Interrupted | Unreachable | Response(code: int, body: Reader)

  /** What `acquireLogRedirect` gives: an error, or a location whose object will answer so. */
  datatype Acquisition = Failed | Located(answer: Answer)

  datatype Storage = Storage(byteLength: nat, sha: string, complete: bool)

  predicate Success(code: int) { 200 <= code < 300 }

  /** The statuses of an expired or busy temporary object. */
  predicate Renewable(code: int) { code == 401 || code == 403 || code == 404 || code == 410 || code == 429 || code >= 500 }

  /** Nothing usable came back and a renewed redirect may help. */
  predicate Renews(a: Answer) { a.Unreachable? || (a.Response? && Renewable(a.code)) }

  function Bodies(a: Answer): set<object> { if a.Response? then {a.body} else {} }

  /** The object's bytes, where the answer carries any. */
  function Content(a: Answer): string
    requires a.Response? ==> a.body.Valid()
    reads if a.Response? then {a.body} else {}
  {
    if a.Response? then a.body.Rest() else ""
  }

  /** `fetchLogObject`. It asks for a renewed redirect only when it has written nothing. */
  method FetchLogObject(answer: Answer, limit: int, destination: Output, sha: string -> string)
    returns (storage: Storage, renew: bool, error: Option<ErrorClass>)
    requires answer.Response? ==> answer.body.Valid()
    modifies destination, Bodies(answer)
    ensures Prefix(destination.sink, old(destination.sink), old(Content(answer)), storage.byteLength, limit)
    ensures renew <==> Renews(answer)
    ensures renew <==> answer.Unreachable? || (answer.Response? && (answer.code in {401, 403, 404, 410, 429} || 500 <= answer.code))
    ensures answer.Response? && renew ==> error == Some(RedirectExpired)
    ensures answer.BadRequest? || (answer.Response? && 300 <= answer.code <= 399) ==> error == Some(UnsafeRedirect)
    ensures answer.Interrupted? ==> error == Some(Cancelled)
    ensures error.None? ==> answer.Response? && 200 <= answer.code <= 299
    ensures renew ==> error.Some? && destination.sink == old(destination.sink)
    ensures error.None? ==> answer.Response? && Success(answer.code)
    ensures error.None? ==> storage == Storage(|old(Content(answer))|, sha(old(Content(answer))), true)
    ensures error.None? ==> destination.sink == old(destination.sink) + old(Content(answer))
    ensures answer.Response? && Success(answer.code) && limit > 0 && answer.body.Steady() && destination.Steady() ==>
      (error.None? <==> |old(Content(answer))| <= limit)
  {
    storage, renew, error := Storage(0, "", false), false, None;
    assert destination.sink + Content(answer)[..0] == destination.sink;
    match answer {
      case BadRequest =>
        error := Some(UnsafeRedirect);
      case Interrupted =>
        error := Some(Cancelled);
      case Unreachable =>
        renew, error := true, Some(Transient);
      case Response(code, body) =>
        if 300 <= code <= 399 {
          error := Some(UnsafeRedirect);
          return;
        }
        if code < 200 || code >= 300 {
          renew := Renewable(code);
          error := Some(if renew then RedirectExpired else Transient);
          return;
        }
        ghost var content := body.Rest();
        destination.hashed := "";  // a new hash beside the destination
        var written, complete, copyError := CopyBounded(destination, body, limit);
        assert "" + content == content;
        assert content[..|content|] == content;
        storage := Storage(written, if complete then sha(destination.hashed) else "", complete);
        match copyError {
          case None =>
          case Some(OverLimit) => error := Some(SizeLimit);
          case Some(WriteFailed) => error := Some(LocalIO);
          case Some(ReadFailed) => error := Some(Transient);
        }
    }
  }

  function BodiesOf(a: Acquisition): set<object> { if a.Located? then Bodies(a.answer) else {} }

  ghost predicate Usable(a: Acquisition)
    reads BodiesOf(a)
  {
    a.Located? && a.answer.Response? ==> a.answer.body.Valid()
  }

  function ContentOf(a: Acquisition): string
    requires Usable(a)
    reads BodiesOf(a)
  {
    if a.Located? then Content(a.answer) else ""
  }

  ghost predicate AddsPrefix(sink: string, before: string, content: string, limit: int) {
    exists n: nat :: Prefix(sink, before, content, n, limit)
  }

  /** The object is there and its body can be read to the end. */
  ghost predicate Delivers(a: Acquisition) {
    a.Located? && a.answer.Response? && Success(a.answer.code) && a.answer.body.Steady()
  }

  datatype Result = Result(byteLength: nat, sha: string, renewed: bool)

  /** `downloadLogs`. Whatever happens, no more than a prefix of one object is written; on success exactly one
      whole object, the first unless its redirect had to be renewed before any byte was written. */
  method DownloadLogs(first: Acquisition, second: Acquisition, limit: int, destination: Output, sha: string -> string)
    returns (result: Result, error: Option<ErrorClass>)
    requires Usable(first) && Usable(second) && BodiesOf(first) !! BodiesOf(second)
    modifies destination, BodiesOf(first), BodiesOf(second)
    ensures AddsPrefix(destination.sink, old(destination.sink), old(if result.renewed then ContentOf(second) else ContentOf(first)), limit)
    ensures error.None? ==>
      var content := old(if result.renewed then ContentOf(second) else ContentOf(first));
      && destination.sink == old(destination.sink) + content
      && result.byteLength == |content| && result.sha == sha(content)
    ensures result.renewed <==> first.Located? && Renews(first.answer)
    ensures limit > 0 && destination.Steady() && Delivers(first) ==> (error.None? <==> |old(ContentOf(first))| <= limit)
    ensures limit > 0 && destination.Steady() && first.Located? && Renews(first.answer) && Delivers(second) ==>
      (error.None? <==> |old(ContentOf(second))| <= limit)
  {
    result, error := Result(0, "", false), None;
    ghost var before := destination.sink;
    var acquisition := 0;
    assert before + ContentOf(first)[..0] == before && before + ContentOf(second)[..0] == before;
    while acquisition < 2
      invariant 0 <= acquisition <= 2
      invariant acquisition < 2
      invariant destination.sink == before && Usable(second) && ContentOf(second) == old(ContentOf(second))
      invariant acquisition == 0 ==> Usable(first) && ContentOf(first) == old(ContentOf(first)) && !result.renewed
      invariant acquisition == 1 ==> result.renewed && first.Located? && Renews(first.answer)
      decreases 2 - acquisition
    {
      var now := if acquisition == 0 then first else second;
      if now.Failed? {
        assert Prefix(destination.sink, before, old(ContentOf(if acquisition == 0 then first else second)), 0, limit);
        return result, Some(Refused);
      }
      var storage, renew;
      storage, renew, error := FetchLogObject(now.answer, limit, destination, sha);
      assert Prefix(destination.sink, before, old(ContentOf(if acquisition == 0 then first else second)), storage.byteLength, limit);
      if error.None? {
        result := Result(storage.byteLength, storage.sha, acquisition > 0);
        return;
      }
      if !renew || acquisition == 1 {
        return;
      }
      result := result.(renewed := true);
      acquisition := acquisition + 1;
    }
  }
}
