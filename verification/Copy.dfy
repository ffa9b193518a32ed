/** Bounded stream copying (internal/githubapi/logs.go, internal/archive/raw.go, internal/casefile/casefile.go).
    Strings are Go strings: each character stands for one byte. */
module Copy {
  import opened Orders

  datatype Status = More | End | Failure

  /** What a reader would do at one call: at most this many bytes, and then this status. */
  datatype Choice = Choice(count: nat, status: Status)

  /** An `io.Reader` over fixed bytes that hands them out in any pieces, may stall and may fail. */
  class Reader {
    const data: string
    const plan: nat -> Choice
    var pos: nat
    var calls: nat

    ghost predicate Valid()
      reads this
    {
      pos <= |data|
    }

    function Rest(): string
      requires Valid()
      reads this
    {
      data[pos..]
    }

    /** It never fails, and reads at least one byte or reports the end at each call. */
    ghost predicate Steady() { NeverStalls() && forall i :: !plan(i).status.Failure? }

    /** A file read into a non-empty buffer gives at least one byte, the end or an error. */
    ghost predicate NeverStalls() { forall i :: plan(i).count > 0 }

    constructor (data: string, plan: nat -> Choice)
      ensures Valid() && Rest() == data && this.data == data && this.plan == plan
    {
      this.data, this.plan, pos, calls := data, plan, 0, 0;
    }

    method Read(size: nat) returns (chunk: string, status: Status)
      requires Valid() && size > 0
      modifies this
      ensures Valid() && |chunk| <= size && old(Rest()) == chunk + Rest()
      ensures status.End? ==> Rest() == ""
      ensures Steady() ==> !status.Failure?
      ensures NeverStalls() ==> chunk != "" || !status.More?
    {
      var choice, rest := plan(calls), |data| - pos;
      var n := if choice.count < size then choice.count else size;
      n := if n < rest then n else rest;
      chunk := data[pos..pos + n];
      pos, calls := pos + n, calls + 1;
      if choice.status.Failure? {
        status := Failure;
      } else if pos == |data| && (choice.status.End? || (rest == 0 && choice.count > 0)) {
        status := End;
      } else {
        status := More;
      }
    }
  }

  /** What a writer would do at one call: take all, or no more than so many bytes, with or without an error. */
  datatype WriteChoice = Whole | Partial(stored: nat, failed: bool)

  /** `io.MultiWriter(destination, hash)`: the hash sees only what the destination took whole. */
  class Output {
    const plan: nat -> WriteChoice
    var sink: string
    var hashed: string
    var calls: nat

    ghost predicate Steady() { forall i :: plan(i).Whole? }

    constructor (plan: nat -> WriteChoice)
      ensures sink == "" && hashed == "" && this.plan == plan
    {
      this.plan, sink, hashed, calls := plan, "", "", 0;
    }

    method Write(chunk: string) returns (stored: nat, failed: bool)
      modifies this
      ensures stored <= |chunk| && sink == old(sink) + chunk[..stored]
      ensures !failed && stored == |chunk| ==> hashed == old(hashed) + chunk
      ensures Steady() ==> !failed && stored == |chunk|
    {
      stored, failed := |chunk|, false;
      var choice := plan(calls);
      if choice.Partial? {
        stored := if choice.stored < |chunk| then choice.stored else |chunk|;
        failed := choice.failed;
      }
      sink, calls := sink + chunk[..stored], calls + 1;
      if !failed && stored == |chunk| {
        hashed := hashed + chunk;
      }
    }
  }

  datatype CopyError = OverLimit | WriteFailed | ReadFailed

  const LOG_BUFFER := 0x1_0000
  const RAW_BUFFER := 0x2_0000
  const MAX_RAW := 0x8000_0000

  lemma TakeMore(s: string, chunk: string, rest: string, written: nat, stored: nat)
    requires written + |chunk| + |rest| == |s| && s[written..] == chunk + rest && stored <= |chunk|
    ensures s[..written] + chunk[..stored] == s[..written + stored]
    ensures s[written + |chunk|..] == rest
  {
    assert s == s[..written] + (chunk + rest);
  }

  /** What a bounded copy leaves behind: a prefix of the source, never past the limit. */
  predicate Prefix(sink: string, before: string, content: string, written: nat, limit: int) {
    written <= |content| && (written == 0 || written <= limit) && sink == before + content[..written]
  }

  /** One chunk: stored and counted, up to the limit. */
  method StoreChunk(destination: Output, chunk: string, remaining: nat) returns (stored: nat, error: Option<CopyError>)
    modifies destination
    ensures stored <= |chunk| && stored <= remaining && destination.sink == old(destination.sink) + chunk[..stored]
    ensures error.None? ==> stored == |chunk| && destination.hashed == old(destination.hashed) + chunk
    ensures error == Some(OverLimit) ==> |chunk| > remaining && stored == remaining
    ensures error == Some(WriteFailed) ==> !destination.Steady()
    ensures error != Some(ReadFailed)
    ensures destination.Steady() ==> (error.Some? <==> |chunk| > remaining)
  {
    stored, error := 0, None;
    if |chunk| == 0 {
      assert chunk[..0] == "" && destination.hashed + "" == destination.hashed;
      return;
    }
    var failed;
    if |chunk| > remaining {
      error := Some(OverLimit);
      if remaining > 0 {
        stored, failed := destination.Write(chunk[..remaining]);
        assert chunk[..remaining][..stored] == chunk[..stored];
        if failed || stored != remaining {
          error := Some(WriteFailed);
        }
      }
      return;
    }
    stored, failed := destination.Write(chunk);
    if failed || stored != |chunk| {
      error := Some(WriteFailed);
    }
  }

  /** `copyBounded`. However the reader cuts the source into pieces: a source within the limit is copied whole, a longer
      one up to the limit and no further. */
  method CopyBounded(destination: Output, source: Reader, limit: int) returns (written: nat, complete: bool, error: Option<CopyError>)
    requires source.Valid()
    modifies destination, source
    ensures source.Valid()
    ensures Prefix(destination.sink, old(destination.sink), old(source.Rest()), written, limit)
    ensures complete <==> error.None?
    ensures complete ==> written == |old(source.Rest())| && destination.hashed == old(destination.hashed) + old(source.Rest())
    ensures error == Some(OverLimit) ==> limit <= 0 || (written == limit < |old(source.Rest())|)
    ensures error == Some(WriteFailed) ==> !destination.Steady()
    ensures error == Some(ReadFailed) ==> !source.Steady()
    ensures limit > 0 && source.Steady() && destination.Steady() ==> complete == (|old(source.Rest())| <= limit)
  {
    written, complete, error := 0, false, None;
    ghost var content, before, hashed := source.Rest(), destination.sink, destination.hashed;
    assert before + content[..0] == before && hashed + content[..0] == hashed;
    if limit <= 0 {
      return 0, false, Some(OverLimit);
    }
    while true
      invariant source.Valid() && written <= limit && written + |source.Rest()| == |content|
      invariant content[written..] == source.Rest()
      invariant destination.sink == before + content[..written]
      invariant destination.hashed == hashed + content[..written]
      decreases |source.Rest()|
    {
      var remaining := limit - written;
      var chunk, status := source.Read(if remaining < LOG_BUFFER then remaining + 1 else LOG_BUFFER);
      var stored;
      stored, error := StoreChunk(destination, chunk, remaining);
      TakeMore(content, chunk, source.Rest(), written, stored);
      Regrouped(before, hashed, content, chunk, written, stored);
      written := written + stored;
      if error.Some? {
        return;
      }
      if status.End? {
        complete := true;
        assert content[..written] == content;
        return;
      }
      if status.Failure? || chunk == "" {
        error := Some(ReadFailed);
        return;
      }
    }
  }

  lemma Regrouped(before: string, hashed: string, content: string, chunk: string, written: nat, stored: nat)
    requires written + stored <= |content| && stored <= |chunk| && content[..written] + chunk[..stored] == content[..written + stored]
    ensures before + content[..written] + chunk[..stored] == before + content[..written + stored]
    ensures stored == |chunk| ==> hashed + content[..written] + chunk == hashed + content[..written + stored]
  {
    if stored == |chunk| { assert chunk[..stored] == chunk; }
  }

  datatype RawError = TooLarge | Longer | Shorter | RawWriteFailed | RawReadFailed

  /** `copyRawStream`: it succeeds only on a source of exactly the expected length, and never writes past it. */
  method CopyRawStream(source: Reader, destination: Output, expected: nat) returns (error: Option<RawError>)
    requires source.Valid()
    modifies destination, source
    ensures exists copied: nat :: Prefix(destination.sink, old(destination.sink), old(source.Rest()), copied, expected)
    ensures error.None? ==> |old(source.Rest())| == expected <= MAX_RAW
    ensures error.None? ==> destination.sink == old(destination.sink) + old(source.Rest())
    ensures error.None? ==> destination.hashed == old(destination.hashed) + old(source.Rest())
    ensures error == Some(TooLarge) <==> expected > MAX_RAW
    ensures error == Some(Longer) ==> |old(source.Rest())| > expected
    ensures error == Some(Shorter) ==> |old(source.Rest())| < expected
    ensures source.Steady() && destination.Steady() && expected <= MAX_RAW ==> (error.None? <==> |old(source.Rest())| == expected)
  {
    error := None;
    ghost var content, before, hashed := source.Rest(), destination.sink, destination.hashed;
    assert before + content[..0] == before && hashed + content[..0] == hashed;
    var copied: nat := 0;
    assert Prefix(destination.sink, before, content, copied, expected);
    if expected > MAX_RAW {
      return Some(TooLarge);
    }
    while true
      invariant source.Valid() && copied <= expected && copied + |source.Rest()| == |content|
      invariant content[copied..] == source.Rest()
      invariant destination.sink == before + content[..copied]
      invariant destination.hashed == hashed + content[..copied]
      decreases |source.Rest()|
    {
      assert Prefix(destination.sink, before, content, copied, expected);
      var remaining := expected - copied;
      var chunk, status := source.Read(if remaining < RAW_BUFFER then remaining + 1 else RAW_BUFFER);
      if |chunk| > remaining {
        return Some(Longer);
      }
      var stored;
      var failure;
      stored, failure := StoreChunk(destination, chunk, remaining);
      TakeMore(content, chunk, source.Rest(), copied, stored);
      Regrouped(before, hashed, content, chunk, copied, stored);
      assert Prefix(destination.sink, before, content, copied + stored, expected);
      copied := copied + stored;
      if stored != |chunk| || failure.Some? {
        return Some(RawWriteFailed);
      }
      if status.End? {
        assert content[..copied] == content;
        return if copied != expected then Some(Shorter) else None;
      }
      if status.Failure? || chunk == "" {
        return Some(RawReadFailed);
      }
    }
  }

  /** `hashFileAtExpectedSize`: the digest of the whole file, if it has exactly the expected size. */
  method HashFileAtExpectedSize(file: Reader, expected: nat, sha: string -> string) returns (digest: Option<string>)
    requires file.Valid() && file.NeverStalls()
    modifies file
    ensures digest.Some? ==> |old(file.Rest())| == expected && digest.value == sha(old(file.Rest()))
    ensures file.Steady() ==> (digest.Some? <==> |old(file.Rest())| == expected)
  {
    ghost var content := file.Rest();
    var hashed := "";
    var observed: nat := 0;
    while true
      invariant file.Valid() && observed <= expected && observed == |hashed|
      invariant content == hashed + file.Rest()
      decreases |file.Rest()|
    {
      var remaining := expected + 1 - observed;
      var chunk, status := file.Read(if remaining < RAW_BUFFER then remaining else RAW_BUFFER);
      observed := observed + |chunk|;
      if observed > expected {
        return None;
      }
      HashedMore(content, hashed, chunk, file.Rest());
      hashed := hashed + chunk;
      if status.End? {
        break;
      }
      if status.Failure? {
        return None;
      }
    }
    assert hashed + "" == hashed;
    return if observed != expected then None else Some(sha(hashed));
  }

  lemma HashedMore(content: string, hashed: string, chunk: string, rest: string)
    requires content == hashed + (chunk + rest)
    ensures content == (hashed + chunk) + rest
  {
  }
}
