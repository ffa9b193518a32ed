/** Which checkpoint and which capability the archive holds after any run
    (internal/archive/persist.go). */
module ArchiveCheckpoints {
  import opened Orders
  import opened Archive
  import opened ArchiveRuns

  /** Every checkpoint committed, in order. */
  ghost function AllCheckpoints(log: seq<Batch>): seq<Checkpoint> {
    if log == [] then [] else AllCheckpoints(log[..|log| - 1]) + log[|log| - 1].checkpoints
  }

  ghost function AllCapabilities(log: seq<Batch>): seq<Capability> {
    if log == [] then [] else AllCapabilities(log[..|log| - 1]) + log[|log| - 1].capabilities
  }

  lemma {:induction false} CheckpointsConcat(m: map<int, Checkpoint>, a: seq<Checkpoint>, b: seq<Checkpoint>)
    ensures AcceptAll(AcceptAll(m, a), b) == AcceptAll(m, a + b)
  {
    if b == [] {
      assert a + b == a;
    } else {
      CheckpointsConcat(m, a, b[..|b| - 1]);
      assert (a + b)[..|a + b| - 1] == a + b[..|b| - 1];
    }
  }

  lemma {:induction false} CapabilitiesConcat(m: map<string, Capability>, a: seq<Capability>, b: seq<Capability>)
    ensures InsertCapabilities(InsertCapabilities(m, a), b) == InsertCapabilities(m, a + b)
  {
    if b == [] {
      assert a + b == a;
    } else {
      CapabilitiesConcat(m, a, b[..|b| - 1]);
      assert (a + b)[..|a + b| - 1] == a + b[..|b| - 1];
    }
  }

  lemma {:induction false} ReplayTables(log: seq<Batch>)
    requires Replay(log).Some?
    ensures Replay(log).value.checkpoints == AcceptAll(map[], AllCheckpoints(log))
    ensures Replay(log).value.capabilities == InsertCapabilities(map[], AllCapabilities(log))
  {
    if log != [] {
      var front, b := log[..|log| - 1], log[|log| - 1];
      ReplayTables(front);
      CheckpointsConcat(map[], AllCheckpoints(front), b.checkpoints);
      CapabilitiesConcat(map[], AllCapabilities(front), b.capabilities);
    }
  }

  /** cs[k] is the repository's latest checkpoint among those with its greatest watermark. */
  ghost predicate IsWinner(cs: seq<Checkpoint>, repository: int, k: nat) {
    && k < |cs| && cs[k].repository == repository
    && (forall j :: 0 <= j < |cs| && cs[j].repository == repository ==> !WatermarkLess(cs[k].watermark, cs[j].watermark))
    && (forall j :: k < j < |cs| && cs[j].repository == repository ==> WatermarkLess(cs[j].watermark, cs[k].watermark))
  }

  /** The checkpoint is the last of the repository's to reach the greatest watermark: in instants, none of them is later,
      and those after it have an earlier one or none. */
  ghost predicate IsLatest(cs: seq<Checkpoint>, repository: int, k: nat) {
    && k < |cs| && cs[k].repository == repository
    && (forall j :: 0 <= j < |cs| && cs[j].repository == repository && cs[j].watermark.Some? ==>
          cs[k].watermark.Some? && cs[j].watermark.value <= cs[k].watermark.value)
    && (forall j :: k < j < |cs| && cs[j].repository == repository ==>
          cs[k].watermark.Some? && (cs[j].watermark.None? || cs[j].watermark.value < cs[k].watermark.value))
  }

  lemma WinnerIsLatest(cs: seq<Checkpoint>, repository: int, k: nat)
    ensures IsWinner(cs, repository, k) <==> IsLatest(cs, repository, k)
  {
  }

  lemma {:induction false} FoldHoldsWinner(cs: seq<Checkpoint>, repository: int) returns (k: nat)
    ensures var m := AcceptAll(map[], cs);
            if repository in m then IsWinner(cs, repository, k) && m[repository] == cs[k]
            else forall c :: c in cs ==> c.repository != repository
  {
    k := 0;
    if cs != [] {
      var front, last := cs[..|cs| - 1], cs[|cs| - 1];
      assert cs == front + [last];
      k := FoldHoldsWinner(front, repository);
      var before := AcceptAll(map[], front);
      if last.repository == repository
         && (repository !in before || !WatermarkLess(last.watermark, before[repository].watermark)) {
        if repository !in before {
          forall j | 0 <= j < |front| ensures cs[j].repository != repository { assert cs[j] == front[j] && front[j] in front; }
        } else {
          forall j | 0 <= j < |front| && cs[j].repository == repository
            ensures !WatermarkLess(last.watermark, cs[j].watermark)
          {
            assert cs[j] == front[j];
            assert !WatermarkLess(front[k].watermark, front[j].watermark);
          }
        }
        k := |front|;
      }
    }
  }

  /** After any run, a repository's checkpoint is the last committed one that reached the greatest
      committed watermark (none counting as least), watched parents included; without a committed
      checkpoint there is no row. */
  lemma CheckpointIsLatestMaximum(events: seq<Event>, u: set<Batch>, repository: int) returns (k: nat)
    requires Addressed(u) && From(events, u)
    ensures var cs := AllCheckpoints(Log(events)); var m := Visible(Execute(events)).checkpoints;
            if repository in m then IsLatest(cs, repository, k) && m[repository] == cs[k]
            else forall c :: c in cs ==> c.repository != repository
  {
    VisibleIsReplay(events, u);
    ReplayTables(Log(events));
    k := FoldHoldsWinner(AllCheckpoints(Log(events)), repository);
    WinnerIsLatest(AllCheckpoints(Log(events)), repository, k);
  }

  lemma {:induction false} InsertNeverGoesBack(m: map<int, Checkpoint>, cs: seq<Checkpoint>, repository: int)
    requires repository in m
    ensures repository in AcceptAll(m, cs)
    ensures !WatermarkLess(AcceptAll(m, cs)[repository].watermark, m[repository].watermark)
  {
    if cs != [] { InsertNeverGoesBack(m, cs[..|cs| - 1], repository); }
  }

  /** No event moves a watermark back: once there is one, there is a later one or the same. */
  lemma WatermarkNeverDecreases(events: seq<Event>, more: seq<Event>, repository: int)
    requires repository in Visible(Execute(events)).checkpoints
    ensures repository in Visible(Execute(events + more)).checkpoints
    ensures var was, now := Visible(Execute(events)).checkpoints[repository].watermark, Visible(Execute(events + more)).checkpoints[repository].watermark;
      was.Some? ==> now.Some? && was.value <= now.value
  {
    NeverGoesBack(events, more, repository);
  }

  lemma {:induction false} NeverGoesBack(events: seq<Event>, more: seq<Event>, repository: int)
    requires repository in Visible(Execute(events)).checkpoints
    ensures repository in Visible(Execute(events + more)).checkpoints
    ensures !WatermarkLess(Visible(Execute(events + more)).checkpoints[repository].watermark,
                           Visible(Execute(events)).checkpoints[repository].watermark)
  {
    if more == [] {
      assert events + more == events;
    } else {
      var all := events + more;
      assert all[..|all| - 1] == events + more[..|more| - 1];
      NeverGoesBack(events, more[..|more| - 1], repository);
      CheckpointStep(Execute(all[..|all| - 1]), all[|all| - 1], repository);
    }
  }

  lemma CheckpointStep(t: Tables, e: Event, repository: int)
    requires repository in Join(t)
    ensures repository in Join(Next(t, e))
    ensures !WatermarkLess(Join(Next(t, e))[repository].watermark, Join(t)[repository].watermark)
  {
    if Commits(t, e) {
      CommitEffect(t, e.batch);
      RowsJoin(t, e.batch.checkpoints);
      SameJoin(Next(t, e), InsertCheckpointRows(t, e.batch.checkpoints));
      InsertNeverGoesBack(Join(t), e.batch.checkpoints, repository);
    } else {
      SameJoin(Next(t, e), t);
    }
  }

  /** A capability is as its last committed writer left it. */
  lemma {:induction false} LastCapabilityWins(cs: seq<Capability>, name: string)
    ensures name in InsertCapabilities(map[], cs) <==> exists k :: IsLastNamed(cs, name, k)
    ensures forall k :: IsLastNamed(cs, name, k) ==> InsertCapabilities(map[], cs)[name] == cs[k]
  {
    if cs != [] {
      var front, last := cs[..|cs| - 1], cs[|cs| - 1];
      LastCapabilityWins(front, name);
      if last.name == name {
        assert IsLastNamed(cs, name, |front|);
      } else {
        forall k ensures IsLastNamed(cs, name, k) <==> IsLastNamed(front, name, k) {
          if IsLastNamed(cs, name, k) {
            assert k != |front|;
            assert forall j :: k < j < |front| ==> front[j] == cs[j];
          }
          if IsLastNamed(front, name, k) {
            assert forall j :: k < j < |cs| ==> j == |front| || cs[j] == front[j];
          }
        }
      }
    }
  }

  ghost predicate IsLastNamed(cs: seq<Capability>, name: string, k: int) {
    0 <= k < |cs| && cs[k].name == name && forall j :: k < j < |cs| ==> cs[j].name != name
  }

  lemma CapabilityIsLastCommitted(events: seq<Event>, u: set<Batch>, name: string)
    requires Addressed(u) && From(events, u)
    ensures var cs := AllCapabilities(Log(events)); var m := Execute(events).capabilities;
            && (name in m <==> exists k :: IsLastNamed(cs, name, k))
            && (forall k :: IsLastNamed(cs, name, k) ==> m[name] == cs[k])
  {
    VisibleIsReplay(events, u);
    ReplayTables(Log(events));
    LastCapabilityWins(AllCapabilities(Log(events)), name);
  }
}
