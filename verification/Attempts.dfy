/** The stabilization loop (internal/collect/attempts.go): read the parent run, collect its attempts,
    and read it again until two readings agree; job objects that cannot be trusted are quarantined. */
module Attempts {
  import opened Orders

  datatype Run = Run(id: int, attempt: int, status: string, conclusion: string, updatedAt: Option<int>)

  datatype Job = Job(id: int, runId: int, name: string)

  datatype Answer<+T> = Ok(value: T) | Failed

  /** What the API answers: the k-th reading of the parent, and an attempt and its jobs as read in a
      given pass. Everything may change between calls. */
  datatype World = World(parent: nat -> Answer<Run>, attempt: (nat, int) -> Answer<Run>, jobs: (nat, int) -> Answer<seq<Job>>,
                         cancelled: nat -> bool)

  datatype Scope = Parent | Stabilization | Attempt | AttemptJobs | AttemptJob

  datatype Gap = Gap(scope: Scope, attempt: int)

  datatype Bundle = Bundle(attempt: int, run: Run, jobs: seq<Job>, quarantined: seq<string>)

  datatype Snapshot = Snapshot(initial: Option<Run>, final: Option<Run>, attempts: seq<Bundle>, gaps: seq<Gap>, stable: bool)

  /** `sameRunSnapshot` */
  predicate SameRun(a: Run, b: Run) {
    a.id == b.id && a.attempt == b.attempt && a.status == b.status && a.conclusion == b.conclusion && a.updatedAt == b.updatedAt
  }

  // ----- Job quarantine -----

  function CountId(jobs: seq<Job>, id: int): nat {
    if jobs == [] then 0 else CountId(jobs[..|jobs| - 1], id) + if jobs[|jobs| - 1].id == id then 1 else 0
  }

  /** A job is kept when it has an ID of its own and belongs to the requested run. */
  predicate Trusted(jobs: seq<Job>, runId: int, j: Job) {
    j.id > 0 && CountId(jobs, j.id) <= 1 && j.runId == runId
  }

  predicate JobLess(a: Job, b: Job) { a.id < b.id }

  lemma JobLessIsStrictWeak()
    ensures StrictWeak(JobLess)
  {
  }

  function KeptJobs(all: seq<Job>, runId: int, jobs: seq<Job>): seq<Job> {
    if jobs == [] then []
    else
      var j := jobs[|jobs| - 1];
      KeptJobs(all, runId, jobs[..|jobs| - 1]) + if Trusted(all, runId, j) then [j] else []
  }

  function QuarantinedNames(all: seq<Job>, runId: int, jobs: seq<Job>): seq<string> {
    if jobs == [] then []
    else
      var j := jobs[|jobs| - 1];
      QuarantinedNames(all, runId, jobs[..|jobs| - 1]) + if Trusted(all, runId, j) then [] else [j.name]
  }

  method CountIds(jobs: seq<Job>) returns (counts: map<int, nat>)
    ensures forall id :: id > 0 ==> CountId(jobs, id) == if id in counts then counts[id] else 0
  {
    counts := map[];
    for i := 0 to |jobs|
      invariant forall id :: id > 0 ==> CountId(jobs[..i], id) == if id in counts then counts[id] else 0
    {
      assert jobs[..i + 1][..i] == jobs[..i];
      var id := jobs[i].id;
      if id > 0 {
        counts := counts[id := 1 + if id in counts then counts[id] else 0];
      }
    }
    assert jobs[..|jobs|] == jobs;
  }

  datatype Verdict = Verdict(missing: bool, duplicated: bool, contradicted: bool)

  /** Why a job is set aside; the first reason found counts. */
  predicate IsMissing(j: Job) { j.id <= 0 }
  predicate IsDuplicated(jobs: seq<Job>, j: Job) { j.id > 0 && CountId(jobs, j.id) > 1 }
  predicate IsForeign(jobs: seq<Job>, runId: int, j: Job) { j.id > 0 && CountId(jobs, j.id) <= 1 && j.runId != runId }

  lemma WhyUntrusted(jobs: seq<Job>, runId: int)
    ensures (forall j :: j in jobs ==> Trusted(jobs, runId, j))
       <==> forall k :: 0 <= k < |jobs| ==>
              !IsMissing(jobs[k]) && !IsDuplicated(jobs, jobs[k]) && !IsForeign(jobs, runId, jobs[k])
  {
    forall k | 0 <= k < |jobs|
      ensures Trusted(jobs, runId, jobs[k])
         <==> !IsMissing(jobs[k]) && !IsDuplicated(jobs, jobs[k]) && !IsForeign(jobs, runId, jobs[k])
    {
    }
    if forall j :: j in jobs ==> Trusted(jobs, runId, j) {
      forall k | 0 <= k < |jobs| ensures Trusted(jobs, runId, jobs[k]) { assert jobs[k] in jobs; }
    }
  }

  /** The quarantine loop. Every occurrence of a repeated ID is set aside, so that the order of the
      response cannot choose which one to believe. */
  method Quarantine(jobs: seq<Job>, runId: int) returns (kept: seq<Job>, quarantined: seq<string>, v: Verdict)
    ensures kept == Sort(KeptJobs(jobs, runId, jobs), JobLess)
    ensures quarantined == Sort(QuarantinedNames(jobs, runId, jobs), StringLess)
    ensures v.missing <==> exists k :: 0 <= k < |jobs| && IsMissing(jobs[k])
    ensures v.duplicated <==> exists k :: 0 <= k < |jobs| && IsDuplicated(jobs, jobs[k])
    ensures v.contradicted <==> exists k :: 0 <= k < |jobs| && IsForeign(jobs, runId, jobs[k])
  {
    var counts := CountIds(jobs);
    kept, quarantined, v := [], [], Verdict(false, false, false);
    for i := 0 to |jobs|
      invariant Divided(jobs, runId, i, kept, quarantined) && Explains(jobs, runId, i, v)
    {
      var reason := SetAside(counts, jobs, runId, jobs[i]);
      DividedStep(jobs, runId, i, kept, quarantined);
      ExplainsStep(jobs, runId, i, v);
      v := Noting(v, reason);
      if reason == NoReason {
        kept := kept + [jobs[i]];
      } else {
        quarantined := quarantined + [jobs[i].name];
      }
    }
    assert jobs[..|jobs|] == jobs;
    kept := Sort(kept, JobLess);
    quarantined := Sort(quarantined, StringLess);
  }

  /** The first n jobs, divided. */
  ghost predicate Divided(jobs: seq<Job>, runId: int, n: nat, kept: seq<Job>, quarantined: seq<string>) {
    n <= |jobs| && kept == KeptJobs(jobs, runId, jobs[..n]) && quarantined == QuarantinedNames(jobs, runId, jobs[..n])
  }

  ghost predicate Explains(jobs: seq<Job>, runId: int, n: nat, v: Verdict) {
    && n <= |jobs|
    && (v.missing <==> exists k :: 0 <= k < n && IsMissing(jobs[k]))
    && (v.duplicated <==> exists k :: 0 <= k < n && IsDuplicated(jobs, jobs[k]))
    && (v.contradicted <==> exists k :: 0 <= k < n && IsForeign(jobs, runId, jobs[k]))
  }

  lemma DividedStep(jobs: seq<Job>, runId: int, n: nat, kept: seq<Job>, quarantined: seq<string>)
    requires n < |jobs| && Divided(jobs, runId, n, kept, quarantined)
    ensures Trusted(jobs, runId, jobs[n]) ==> Divided(jobs, runId, n + 1, kept + [jobs[n]], quarantined)
    ensures !Trusted(jobs, runId, jobs[n]) ==> Divided(jobs, runId, n + 1, kept, quarantined + [jobs[n].name])
  {
    assert jobs[..n + 1][..n] == jobs[..n];
  }

  lemma ExplainsStep(jobs: seq<Job>, runId: int, n: nat, v: Verdict)
    requires n < |jobs| && Explains(jobs, runId, n, v)
    ensures Explains(jobs, runId, n + 1, Verdict(v.missing || IsMissing(jobs[n]), v.duplicated || IsDuplicated(jobs, jobs[n]),
                                                 v.contradicted || IsForeign(jobs, runId, jobs[n])))
  {
  }

  datatype Reason = Missing | Repeated | Foreign | NoReason

  function Noting(v: Verdict, reason: Reason): Verdict {
    Verdict(v.missing || reason == Missing, v.duplicated || reason == Repeated, v.contradicted || reason == Foreign)
  }

  method SetAside(counts: map<int, nat>, ghost jobs: seq<Job>, runId: int, job: Job) returns (reason: Reason)
    requires job in jobs && forall id :: id > 0 ==> CountId(jobs, id) == if id in counts then counts[id] else 0
    ensures (reason == Missing <==> IsMissing(job)) && (reason == Repeated <==> IsDuplicated(jobs, job))
    ensures (reason == Foreign <==> IsForeign(jobs, runId, job)) && (reason == NoReason <==> Trusted(jobs, runId, job))
  {
    ghost var k :| 0 <= k < |jobs| && jobs[k] == job;
    OnceCounted(jobs, k);
    if job.id <= 0 {
      return Missing;
    }
    if counts[job.id] > 1 {
      return Repeated;
    }
    return if job.runId != runId then Foreign else NoReason;
  }

  lemma {:induction false} KeptAreTrusted(all: seq<Job>, runId: int, jobs: seq<Job>)
    ensures forall j :: j in KeptJobs(all, runId, jobs) <==> j in jobs && Trusted(all, runId, j)
    ensures forall n :: n in QuarantinedNames(all, runId, jobs) <==> exists j :: j in jobs && !Trusted(all, runId, j) && j.name == n
    ensures |KeptJobs(all, runId, jobs)| + |QuarantinedNames(all, runId, jobs)| == |jobs|
  {
    if jobs != [] {
      var front, last := jobs[..|jobs| - 1], jobs[|jobs| - 1];
      assert jobs == front + [last];
      KeptAreTrusted(all, runId, front);
      forall n ensures n in QuarantinedNames(all, runId, jobs) <==> exists j :: j in jobs && !Trusted(all, runId, j) && j.name == n {
        if exists j :: j in jobs && !Trusted(all, runId, j) && j.name == n {
          var j :| j in jobs && !Trusted(all, runId, j) && j.name == n;
          assert j in front || j == last;
        }
      }
    }
  }

  lemma {:induction false} KeptIdsDistinct(all: seq<Job>, runId: int, n: nat)
    requires n <= |all|
    ensures var k := KeptJobs(all, runId, all[..n]); forall i, j :: 0 <= i < j < |k| ==> k[i].id != k[j].id
  {
    if n > 0 {
      KeptIdsDistinct(all, runId, n - 1);
      assert all[..n][..n - 1] == all[..n - 1];
      var front, last := KeptJobs(all, runId, all[..n - 1]), all[n - 1];
      if Trusted(all, runId, last) {
        KeptAreTrusted(all, runId, all[..n - 1]);
        forall i | 0 <= i < |front| ensures front[i].id != last.id {
          assert front[i] in front;
          var m :| 0 <= m < n - 1 && all[m] == front[i];
          TwiceCounted(all, m, n - 1);
        }
      }
    }
  }

  lemma {:induction false} TwiceCounted(jobs: seq<Job>, m: nat, n: nat)
    requires m < n < |jobs|
    ensures jobs[m].id == jobs[n].id ==> CountId(jobs, jobs[n].id) >= 2
  {
    if n == |jobs| - 1 {
      OnceCounted(jobs[..n], m);
    } else {
      TwiceCounted(jobs[..|jobs| - 1], m, n);
    }
  }

  lemma {:induction false} OnceCounted(jobs: seq<Job>, m: nat)
    requires m < |jobs|
    ensures CountId(jobs, jobs[m].id) >= 1
  {
    if m < |jobs| - 1 { OnceCounted(jobs[..|jobs| - 1], m); }
  }

  /** Nothing is lost and nothing untrusted is kept, whatever the order of the response. */
  lemma QuarantineIsExact(jobs: seq<Job>, runId: int)
    ensures var kept := Sort(KeptJobs(jobs, runId, jobs), JobLess);
            && (forall j :: j in kept <==> j in jobs && Trusted(jobs, runId, j))
            && (forall i, j :: 0 <= i < j < |kept| ==> kept[i].id < kept[j].id)
            && |kept| + |QuarantinedNames(jobs, runId, jobs)| == |jobs|
  {
    var k := KeptJobs(jobs, runId, jobs);
    var kept := Sort(k, JobLess);
    KeptAreTrusted(jobs, runId, jobs);
    assert jobs[..|jobs|] == jobs;
    KeptIdsDistinct(jobs, runId, |jobs|);
    JobLessIsStrictWeak();
    SortSorts(k, JobLess);
    SortPermutes(k, JobLess);
    forall j ensures j in kept <==> j in jobs && Trusted(jobs, runId, j) { SortMember(k, JobLess, j); }
    SortedIdsDistinct(k);
    forall i, j | 0 <= i < j < |kept| ensures kept[i].id < kept[j].id { assert !JobLess(kept[j], kept[i]); }
  }

  /** The occurrence is the only one of its ID, which is positive, and belongs to the requested run. */
  ghost predicate Alone(jobs: seq<Job>, runId: int, k: nat)
    requires k < |jobs|
  {
    jobs[k].id > 0 && jobs[k].runId == runId && forall m :: 0 <= m < |jobs| && m != k ==> jobs[m].id != jobs[k].id
  }

  /** A job of the response is kept exactly when no other claims its ID. */
  lemma KeptExactly(jobs: seq<Job>, runId: int)
    ensures forall k :: 0 <= k < |jobs| ==> (jobs[k] in Sort(KeptJobs(jobs, runId, jobs), JobLess) <==> Alone(jobs, runId, k))
  {
    QuarantineIsExact(jobs, runId);
    forall k | 0 <= k < |jobs| ensures Trusted(jobs, runId, jobs[k]) <==> Alone(jobs, runId, k) {
      if Trusted(jobs, runId, jobs[k]) {
        forall m | 0 <= m < |jobs| && m != k ensures jobs[m].id != jobs[k].id {
          if m < k { TwiceCounted(jobs, m, k); } else { TwiceCounted(jobs, k, m); }
        }
      }
      if Alone(jobs, runId, k) { CountedOnce(jobs, k); }
    }
  }

  lemma {:induction false} NeverCounted(jobs: seq<Job>, id: int)
    requires forall m :: 0 <= m < |jobs| ==> jobs[m].id != id
    ensures CountId(jobs, id) == 0
  {
    if jobs != [] { NeverCounted(jobs[..|jobs| - 1], id); }
  }

  lemma {:induction false} CountedOnce(jobs: seq<Job>, k: nat)
    requires k < |jobs| && forall m :: 0 <= m < |jobs| && m != k ==> jobs[m].id != jobs[k].id
    ensures CountId(jobs, jobs[k].id) == 1
  {
    if k == |jobs| - 1 { NeverCounted(jobs[..k], jobs[k].id); } else { CountedOnce(jobs[..|jobs| - 1], k); }
  }

  lemma SortedIdsDistinct(k: seq<Job>)
    requires forall i, j :: 0 <= i < j < |k| ==> k[i].id != k[j].id
    ensures var s := Sort(k, JobLess); forall i, j :: 0 <= i < j < |s| ==> s[i].id != s[j].id
  {
    var s := Sort(k, JobLess);
    forall i, j | 0 <= i < j < |k| ensures k[i] != k[j] { assert k[i].id != k[j].id; }
    DistinctSort(k, JobLess);
    forall i, j | 0 <= i < j < |s| ensures s[i].id != s[j].id {
      SortMember(k, JobLess, s[i]);
      SortMember(k, JobLess, s[j]);
      var a :| 0 <= a < |k| && k[a] == s[i];
      var b :| 0 <= b < |k| && k[b] == s[j];
      assert s[i] != s[j];
    }
  }

  predicate NoneNamed(names: seq<string>, name: string) { "" !in names && name !in names }

  /** `LogJobNameCorrelationSafe` */
  method NameIsSafe(b: Bundle, name: string) returns (safe: bool)
    ensures safe <==> NoneNamed(b.quarantined, name)
  {
    for i := 0 to |b.quarantined|
      invariant "" !in b.quarantined[..i] && name !in b.quarantined[..i]
    {
      if b.quarantined[i] == "" || b.quarantined[i] == name {
        return false;
      }
    }
    assert b.quarantined[..|b.quarantined|] == b.quarantined;
    safe := true;
  }

  /** A name is safe exactly when every untrusted job of the response carries some other, real name. */
  lemma SafeNamesAreTrusted(jobs: seq<Job>, runId: int, name: string)
    ensures NoneNamed(Sort(QuarantinedNames(jobs, runId, jobs), StringLess), name)
       <==> forall j :: j in jobs && !Trusted(jobs, runId, j) ==> j.name != "" && j.name != name
  {
    var q := QuarantinedNames(jobs, runId, jobs);
    SortMember(q, StringLess, "");
    SortMember(q, StringLess, name);
    KeptAreTrusted(jobs, runId, jobs);
    if exists j :: j in jobs && !Trusted(jobs, runId, j) && (j.name == "" || j.name == name) {
      var j :| j in jobs && !Trusted(jobs, runId, j) && (j.name == "" || j.name == name);
      assert j.name in q;
    }
  }

  // ----- One attempt -----

  /** A bundle that may be used: it answers for the attempt that was asked for, and its jobs are exactly
      the trustworthy ones of the response. */
  ghost predicate Usable(b: Bundle, w: World, pass: nat, runId: int) {
    && w.attempt(pass, b.attempt) == Ok(b.run) && b.run.id == runId && b.run.attempt == b.attempt
    && (match w.jobs(pass, b.attempt)
        case Failed => b.jobs == []
        case Ok(jobs) =>
          && b.jobs == Sort(KeptJobs(jobs, runId, jobs), JobLess)
          && b.quarantined == Sort(QuarantinedNames(jobs, runId, jobs), StringLess))
  }

  /** What one attempt yields in a pass: its bundle, unless it cannot be had, and the gaps. */
  ghost function Attempted(w: World, pass: nat, runId: int, attempt: int): (Option<Bundle>, seq<Gap>) {
    match w.attempt(pass, attempt)
    case Failed => (None, [Gap(Attempt, attempt)])
    case Ok(run) =>
      if run.id != runId || run.attempt != attempt then (None, [Gap(Attempt, attempt)])
      else match w.jobs(pass, attempt)
        case Failed => (Some(Bundle(attempt, run, [], [])), [Gap(AttemptJobs, attempt)])
        case Ok(jobs) =>
          (Some(Bundle(attempt, run, Sort(KeptJobs(jobs, runId, jobs), JobLess), Sort(QuarantinedNames(jobs, runId, jobs), StringLess))),
           JobGaps(jobs, runId, attempt))
  }

  /** One gap for each reason that occurs, in the order the reasons are reported. */
  ghost function JobGaps(jobs: seq<Job>, runId: int, attempt: int): seq<Gap> {
    (if exists k :: 0 <= k < |jobs| && IsMissing(jobs[k]) then [Gap(AttemptJob, attempt)] else [])
    + (if exists k :: 0 <= k < |jobs| && IsForeign(jobs, runId, jobs[k]) then [Gap(AttemptJob, attempt)] else [])
    + (if exists k :: 0 <= k < |jobs| && IsDuplicated(jobs, jobs[k]) then [Gap(AttemptJob, attempt)] else [])
  }

  method CollectAttempt(w: World, pass: nat, runId: int, attempt: int) returns (bundle: Option<Bundle>, gaps: seq<Gap>)
    ensures (bundle, gaps) == Attempted(w, pass, runId, attempt)
  {
    gaps := [];
    var answer := w.attempt(pass, attempt);
    if answer.Failed? {
      return None, [Gap(Attempt, attempt)];
    }
    var run := answer.value;
    if run.id != runId || run.attempt != attempt {
      return None, [Gap(Attempt, attempt)];
    }
    var jobs := w.jobs(pass, attempt);
    if jobs.Failed? {
      return Some(Bundle(attempt, run, [], [])), [Gap(AttemptJobs, attempt)];
    }
    var kept, quarantined, v := Quarantine(jobs.value, runId);
    if v.missing { gaps := gaps + [Gap(AttemptJob, attempt)]; }
    if v.contradicted { gaps := gaps + [Gap(AttemptJob, attempt)]; }
    if v.duplicated { gaps := gaps + [Gap(AttemptJob, attempt)]; }
    assert gaps == JobGaps(jobs.value, runId, attempt);
    bundle := Some(Bundle(attempt, run, kept, quarantined));
  }

  /** An attempt yields a bundle that may be used, or a gap of its own; no gap about its jobs is recorded
      exactly when all of them can be trusted. */
  lemma AttemptIsUsableOrAGap(w: World, pass: nat, runId: int, attempt: int)
    ensures var (bundle, gaps) := Attempted(w, pass, runId, attempt);
      && (forall g :: g in gaps ==> g.attempt == attempt)
      && (bundle.None? ==> Gap(Attempt, attempt) in gaps)
      && (bundle.Some? ==> bundle.value.attempt == attempt && Usable(bundle.value, w, pass, runId))
      && (bundle.Some? && w.jobs(pass, attempt).Failed? ==> Gap(AttemptJobs, attempt) in gaps)
      && (bundle.Some? && w.jobs(pass, attempt).Ok? ==>
            (gaps == [] <==> forall j :: j in w.jobs(pass, attempt).value ==> Trusted(w.jobs(pass, attempt).value, runId, j)))
  {
    if w.jobs(pass, attempt).Ok? { WhyUntrusted(w.jobs(pass, attempt).value, runId); }
  }

  // ----- The loop -----

  /** What has been collected: attempts 1 to n were each fetched once and no other was; each has one
      bundle, in ascending order, or a gap of its own. */
  ghost predicate Collects(attempts: seq<Bundle>, gaps: seq<Gap>, fetched: seq<int>, w: World, runId: int) {
    && (forall i :: 0 <= i < |fetched| ==> fetched[i] == i + 1)
    && (forall i :: 0 <= i < |attempts| ==> 1 <= attempts[i].attempt <= |fetched|)
    && (forall i, j :: 0 <= i < j < |attempts| ==> attempts[i].attempt < attempts[j].attempt)
    && (forall a :: 1 <= a <= |fetched| ==> HasBundle(attempts, a) || Gap(Attempt, a) in gaps)
    && (forall i :: 0 <= i < |attempts| ==> UsableInSomePass(attempts[i], w, runId))
  }

  ghost predicate UsableInSomePass(b: Bundle, w: World, runId: int) {
    exists pass :: Usable(b, w, pass, runId)
  }

  /** The `collected` map. */
  ghost predicate Tracks(collected: set<int>, fetched: seq<int>) {
    forall a :: a in collected <==> 1 <= a <= |fetched|
  }

  ghost predicate HasBundle(attempts: seq<Bundle>, a: int) {
    exists i :: 0 <= i < |attempts| && attempts[i].attempt == a
  }

  /** Fetching the attempts after n up to last. */
  ghost function Fetch(w: World, pass: nat, runId: int, n: nat, last: int): (seq<Bundle>, seq<Gap>)
    decreases last - n
  {
    if last <= n then ([], [])
    else
      var (attempts, gaps) := Fetch(w, pass, runId, n, last - 1);
      var (bundle, more) := Attempted(w, pass, runId, last);
      (if bundle.Some? then attempts + [bundle.value] else attempts, gaps + more)
  }

  ghost predicate Adds(w: World, pass: nat, runId: int, n: nat, last: int, attempts0: seq<Bundle>, gaps0: seq<Gap>,
                       attempts: seq<Bundle>, gaps: seq<Gap>) {
    attempts == attempts0 + Fetch(w, pass, runId, n, last).0 && gaps == gaps0 + Fetch(w, pass, runId, n, last).1
  }

  lemma AddsMore(w: World, pass: nat, runId: int, n: nat, last: int, attempts0: seq<Bundle>, gaps0: seq<Gap>,
                 attempts: seq<Bundle>, gaps: seq<Gap>)
    requires Adds(w, pass, runId, n, last, attempts0, gaps0, attempts, gaps)
    ensures last + 1 <= n ==> Adds(w, pass, runId, n, last + 1, attempts0, gaps0, attempts, gaps)
    ensures last + 1 > n ==>
      var (bundle, more) := Attempted(w, pass, runId, last + 1);
      Adds(w, pass, runId, n, last + 1, attempts0, gaps0, if bundle.Some? then attempts + [bundle.value] else attempts, gaps + more)
  {
    var (bundle, more) := Attempted(w, pass, runId, last + 1);
    var (a, g) := Fetch(w, pass, runId, n, last);
    if bundle.Some? { Assoc(attempts0, a, [bundle.value]); }
    Assoc(gaps0, g, more);
  }

  /** Where a pass stands after the attempts up to last, having started with n attempts fetched. */
  ghost predicate Stands(w: World, pass: nat, runId: int, n: nat, last: int, attempts0: seq<Bundle>, gaps0: seq<Gap>,
                         attempts: seq<Bundle>, gaps: seq<Gap>, fetched: seq<int>) {
    && Collects(attempts, gaps, fetched, w, runId)
    && |fetched| == (if last > n then last else n)
    && Adds(w, pass, runId, n, last, attempts0, gaps0, attempts, gaps)
  }

  lemma Skipped(w: World, pass: nat, runId: int, n: nat, last: int, attempts0: seq<Bundle>, gaps0: seq<Gap>,
                attempts: seq<Bundle>, gaps: seq<Gap>, fetched: seq<int>)
    requires Stands(w, pass, runId, n, last, attempts0, gaps0, attempts, gaps, fetched) && last + 1 <= n
    ensures Stands(w, pass, runId, n, last + 1, attempts0, gaps0, attempts, gaps, fetched)
  {
    AddsMore(w, pass, runId, n, last, attempts0, gaps0, attempts, gaps);
  }

  lemma Fetched(w: World, pass: nat, runId: int, n: nat, last: int, attempts0: seq<Bundle>, gaps0: seq<Gap>,
                attempts: seq<Bundle>, gaps: seq<Gap>, fetched: seq<int>, bundle: Option<Bundle>, more: seq<Gap>)
    requires Stands(w, pass, runId, n, last, attempts0, gaps0, attempts, gaps, fetched) && last + 1 > n && last >= 0
    requires (bundle, more) == Attempted(w, pass, runId, last + 1)
    ensures Stands(w, pass, runId, n, last + 1, attempts0, gaps0,
                   if bundle.Some? then attempts + [bundle.value] else attempts, gaps + more, fetched + [last + 1])
  {
    AddsMore(w, pass, runId, n, last, attempts0, gaps0, attempts, gaps);
    AttemptIsUsableOrAGap(w, pass, runId, last + 1);
    Extend(attempts, gaps, fetched, w, pass, runId, last + 1, bundle, more);
  }

  lemma TracksOneMore(collected: set<int>, fetched: seq<int>, attempt: int)
    requires Tracks(collected, fetched) && attempt == |fetched| + 1
    ensures Tracks(collected + {attempt}, fetched + [attempt])
  {
  }

  /** One turn of the loop over attempts that have not been collected. */
  method CollectOne(w: World, pass: nat, runId: int, attempt: int, attempts0: seq<Bundle>, gaps0: seq<Gap>,
                    ghost n: nat, ghost before: seq<Bundle>, ghost earlier: seq<Gap>, ghost fetched: seq<int>)
    returns (attempts: seq<Bundle>, gaps: seq<Gap>)
    requires Stands(w, pass, runId, n, attempt - 1, before, earlier, attempts0, gaps0, fetched) && attempt > n
    ensures Stands(w, pass, runId, n, attempt, before, earlier, attempts, gaps, fetched + [attempt])
  {
    var bundle, more := CollectAttempt(w, pass, runId, attempt);
    Fetched(w, pass, runId, n, attempt - 1, before, earlier, attempts0, gaps0, fetched, bundle, more);
    attempts, gaps := if bundle.Some? then attempts0 + [bundle.value] else attempts0, gaps0 + more;
  }

  /** One pass over the attempts 1..last, skipping those already collected. */
  method CollectPass(w: World, pass: nat, runId: int, last: int, attempts0: seq<Bundle>, gaps0: seq<Gap>, collected0: set<int>,
                     ghost fetched0: seq<int>)
    returns (attempts: seq<Bundle>, gaps: seq<Gap>, collected: set<int>, ghost fetched: seq<int>)
    requires Collects(attempts0, gaps0, fetched0, w, runId) && Tracks(collected0, fetched0) && last > 0
    ensures Tracks(collected, fetched) && fetched0 <= fetched
    ensures Stands(w, pass, runId, |fetched0|, last, attempts0, gaps0, attempts, gaps, fetched)
  {
    attempts, gaps, collected, fetched := attempts0, gaps0, collected0, fetched0;
    assert attempts0 + [] == attempts0 && gaps0 + [] == gaps0;
    var attempt := 1;
    while attempt <= last
      invariant 1 <= attempt <= last + 1
      invariant Tracks(collected, fetched) && fetched0 <= fetched
      invariant Stands(w, pass, runId, |fetched0|, attempt - 1, attempts0, gaps0, attempts, gaps, fetched)
    {
      if attempt in collected {
        Skipped(w, pass, runId, |fetched0|, attempt - 1, attempts0, gaps0, attempts, gaps, fetched);
      } else {
        attempts, gaps := CollectOne(w, pass, runId, attempt, attempts, gaps, |fetched0|, attempts0, gaps0, fetched);
        TracksOneMore(collected, fetched, attempt);
        collected, fetched := collected + {attempt}, fetched + [attempt];
      }
      attempt := attempt + 1;
    }
  }

  lemma Extend(attempts: seq<Bundle>, gaps: seq<Gap>, fetched: seq<int>, w: World, pass: nat, runId: int,
               attempt: int, bundle: Option<Bundle>, more: seq<Gap>)
    requires Collects(attempts, gaps, fetched, w, runId) && attempt == |fetched| + 1
    requires bundle.None? ==> Gap(Attempt, attempt) in more
    requires bundle.Some? ==> bundle.value.attempt == attempt && Usable(bundle.value, w, pass, runId)
    ensures Collects(if bundle.Some? then attempts + [bundle.value] else attempts, gaps + more, fetched + [attempt], w, runId)
  {
    var now := if bundle.Some? then attempts + [bundle.value] else attempts;
    forall a | 1 <= a <= |fetched| + 1 ensures HasBundle(now, a) || Gap(Attempt, a) in gaps + more {
      if a == attempt {
        if bundle.Some? { assert now[|attempts|].attempt == a; }
      } else if HasBundle(attempts, a) {
        var i :| 0 <= i < |attempts| && attempts[i].attempt == a;
        assert now[i].attempt == a;
      }
    }
    forall i | 0 <= i < |now| ensures UsableInSomePass(now[i], w, runId) {
      if i < |attempts| { assert now[i] == attempts[i]; }
    }
  }

  const DEFAULT_PASSES: int := 3

  /** The readings of the parent: each but the last was followed by a disagreeing one. */
  ghost predicate Readings(readings: seq<Run>, w: World, runId: int) {
    && (forall k :: 0 <= k < |readings| ==> w.parent(k) == Ok(readings[k]))
    && (forall k :: 0 <= k < |readings| ==> readings[k].id == runId)
    && (forall k :: 0 <= k < |readings| - 2 ==> readings[k] != readings[k + 1])
  }

  /** The last two readings agree. */
  ghost predicate Agreed(readings: seq<Run>) {
    |readings| >= 2 && readings[|readings| - 2] == readings[|readings| - 1]
  }

  lemma ReadAgain(readings: seq<Run>, next: Run, w: World, runId: int)
    requires readings != [] && Readings(readings, w, runId) && !Agreed(readings)
    requires w.parent(|readings|) == Ok(next) && next.id == runId
    ensures Readings(readings + [next], w, runId)
    ensures Agreed(readings + [next]) <==> readings[|readings| - 1] == next
  {
  }

  /** A bundle was fetched in the first pass whose parent had as many attempts, and never read again. */
  ghost predicate FetchedIn(b: Bundle, pass: nat, readings: seq<Run>, w: World, runId: int) {
    && pass < |readings| && b.attempt <= readings[pass].attempt
    && (forall q :: 0 <= q < pass ==> readings[q].attempt < b.attempt)
    && Usable(b, w, pass, runId)
  }

  ghost predicate HasPass(b: Bundle, readings: seq<Run>, w: World, runId: int) {
    exists pass: nat :: FetchedIn(b, pass, readings, w, runId)
  }

  ghost predicate Dated(attempts: seq<Bundle>, readings: seq<Run>, w: World, runId: int) {
    forall b :: b in attempts ==> HasPass(b, readings, w, runId)
  }

  lemma {:induction false} FetchedAreUsable(w: World, pass: nat, runId: int, n: nat, last: int)
    ensures forall b :: b in Fetch(w, pass, runId, n, last).0 ==> n < b.attempt <= last && Usable(b, w, pass, runId)
    decreases last - n
  {
    if last > n {
      FetchedAreUsable(w, pass, runId, n, last - 1);
      AttemptIsUsableOrAGap(w, pass, runId, last);
    }
  }

  ghost predicate Reached(readings: seq<Run>, n: nat, fetched: seq<int>) {
    n <= |readings| && forall q :: 0 <= q < n ==> readings[q].attempt <= |fetched|
  }

  /** One more pass dates the bundles it adds; the others keep their pass. */
  lemma DatedPass(w: World, pass: nat, runId: int, fetched0: seq<int>, attempts0: seq<Bundle>, gaps0: seq<Gap>, attempts: seq<Bundle>,
                  gaps: seq<Gap>, fetched: seq<int>, readings: seq<Run>)
    requires |readings| == pass + 1 && Dated(attempts0, readings, w, runId) && Reached(readings, pass, fetched0)
    requires Stands(w, pass, runId, |fetched0|, readings[pass].attempt, attempts0, gaps0, attempts, gaps, fetched)
    ensures Dated(attempts, readings, w, runId) && Reached(readings, pass + 1, fetched)
  {
    FetchedAreUsable(w, pass, runId, |fetched0|, readings[pass].attempt);
    forall b | b in attempts ensures HasPass(b, readings, w, runId) {
      if b !in attempts0 { assert FetchedIn(b, pass, readings, w, runId); }
    }
  }

  lemma DatedReading(attempts: seq<Bundle>, readings: seq<Run>, next: Run, fetched: seq<int>, w: World, runId: int)
    requires Dated(attempts, readings, w, runId) && Reached(readings, |readings|, fetched)
    ensures Dated(attempts, readings + [next], w, runId) && Reached(readings + [next], |readings|, fetched)
  {
    forall b | b in attempts ensures HasPass(b, readings + [next], w, runId) {
      assert HasPass(b, readings, w, runId);
      var pass: nat :| FetchedIn(b, pass, readings, w, runId);
      assert FetchedIn(b, pass, readings + [next], w, runId);
    }
  }

  /** What a finished collection guarantees. */
  ghost predicate Sound(s: Snapshot, fetched: seq<int>, readings: seq<Run>, w: World, runId: int) {
    && Collects(s.attempts, s.gaps, fetched, w, runId)
    && Readings(readings, w, runId) && Dated(s.attempts, readings, w, runId)
    && (s.stable <==> Agreed(readings))
    && (s.stable ==> s.final == Some(readings[|readings| - 1]) && s.final.value.attempt <= |fetched|)
    && (!s.stable ==> s.gaps != [])
  }

  /** The loop from a given pass on, with the current parent, n attempts fetched and what they gave; and the context's error. */
  ghost function Stabilize(w: World, runId: int, limit: int, pass: nat, initial: Run, current: Run, n: nat,
                           attempts: seq<Bundle>, gaps: seq<Gap>): (Snapshot, bool)
    decreases limit - pass
  {
    var final := if pass == 0 then None else Some(current);
    if pass >= limit then (Snapshot(Some(initial), Some(current), attempts, gaps + [Gap(Parent, 0)], false), false)
    else if w.cancelled(1 + 2 * pass) then (Snapshot(Some(initial), final, attempts, gaps + [Gap(Parent, 0)], false), true)
    else if current.attempt <= 0 then (Snapshot(Some(initial), final, attempts, gaps + [Gap(Parent, 0)], false), false)
    else
      var (more, lost) := Fetch(w, pass, runId, n, current.attempt);
      var bundles, missing := attempts + more, gaps + lost;
      match w.parent(pass + 1)
      case Failed => (Snapshot(Some(initial), final, bundles, missing + [Gap(Stabilization, 0)], false), w.cancelled(2 + 2 * pass))
      case Ok(next) =>
        if next.id != runId then (Snapshot(Some(initial), Some(next), bundles, missing + [Gap(Stabilization, 0)], false), false)
        else if SameRun(current, next) then (Snapshot(Some(initial), Some(next), bundles, missing, true), false)
        else Stabilize(w, runId, limit, pass + 1, initial, next, if current.attempt > n then current.attempt else n, bundles, missing)
  }

  /** `Snapshot`, as a function of what the API answers. */
  ghost function Stabilized(w: World, runId: int, maxPasses: int): (Snapshot, bool) {
    match w.parent(0)
    case Failed => (Snapshot(None, None, [], [Gap(Parent, 0)], false), w.cancelled(0))
    case Ok(parent) =>
      if parent.id != runId then (Snapshot(Some(parent), None, [], [Gap(Parent, 0)], false), false)
      else Stabilize(w, runId, if maxPasses <= 0 then DEFAULT_PASSES else maxPasses, 0, parent, parent, 0, [], [])
  }

  /** `Snapshot`, after the arguments are checked; err is the context's error. The ghost results are the attempts
      fetched, in order, and the readings of the parent. */
  method SnapshotRun(w: World, runId: int, maxPasses: int) returns (s: Snapshot, err: bool, ghost fetched: seq<int>, ghost readings: seq<Run>)
    ensures (s, err) == Stabilized(w, runId, maxPasses)
    ensures Sound(s, fetched, readings, w, runId) && (s.stable ==> IsComplete(s, fetched, runId))
    ensures |readings| <= 1 + if maxPasses <= 0 then 3 else maxPasses
  {
    var limit := maxPasses;
    if limit <= 0 { limit := DEFAULT_PASSES; }
    err, fetched, readings := false, [], [];
    var parent := w.parent(0);
    if parent.Failed? {
      return Snapshot(None, None, [], [Gap(Parent, 0)], false), w.cancelled(0), [], [];
    }
    if parent.value.id != runId {
      return Snapshot(Some(parent.value), None, [], [Gap(Parent, 0)], false), false, [], [];
    }
    readings := [parent.value];
    s, err, fetched, readings := Passes(w, runId, limit, parent.value);
    if s.stable { StableIsComplete(s, fetched, readings, w, runId); }
  }

  /** `Snapshot`: incomplete arguments are refused, and nothing else is. */
  method CollectSnapshot(w: World, repository: int, owner: string, name: string, runId: int, maxPasses: int)
    returns (r: Option<(Snapshot, bool)>)
    ensures r.None? <==> repository <= 0 || owner == "" || name == "" || runId <= 0
    ensures r.Some? ==> r.value == Stabilized(w, runId, maxPasses)
  {
    if repository <= 0 || owner == "" || name == "" || runId <= 0 {
      return None;
    }
    var s, err, _, _ := SnapshotRun(w, runId, maxPasses);
    r := Some((s, err));
  }

  /** The stabilization passes. */
  method Passes(w: World, runId: int, limit: int, initial: Run)
    returns (s: Snapshot, err: bool, ghost fetched: seq<int>, ghost readings: seq<Run>)
    requires w.parent(0) == Ok(initial) && initial.id == runId && limit > 0
    ensures (s, err) == Stabilize(w, runId, limit, 0, initial, initial, 0, [], [])
    ensures Sound(s, fetched, readings, w, runId) && |readings| <= 1 + limit
  {
    var final: Option<Run>, attempts: seq<Bundle>, gaps: seq<Gap> := None, [], [];
    var current := initial;
    var collected: set<int> := {};
    err, fetched, readings := false, [], [current];
    var pass := 0;
    while pass < limit
      invariant 0 <= pass <= limit && |readings| == pass + 1 && final == if pass == 0 then None else Some(current)
      invariant Collects(attempts, gaps, fetched, w, runId) && Tracks(collected, fetched)
      invariant Dated(attempts, readings, w, runId) && Reached(readings, pass, fetched)
      invariant Readings(readings, w, runId) && readings[pass] == current && !Agreed(readings) && !err
      invariant Stabilize(w, runId, limit, 0, initial, initial, 0, [], [])
             == Stabilize(w, runId, limit, pass, initial, current, |fetched|, attempts, gaps)
    {
      if w.cancelled(1 + 2 * pass) || current.attempt <= 0 {
        MoreGaps(attempts, gaps, [Gap(Parent, 0)], fetched, w, runId);
        s := Snapshot(Some(initial), final, attempts, gaps + [Gap(Parent, 0)], false);
        err := w.cancelled(1 + 2 * pass);
        return;
      }
      ghost var attempts0, gaps0, fetched0 := attempts, gaps, fetched;
      attempts, gaps, collected, fetched := CollectPass(w, pass, runId, current.attempt, attempts, gaps, collected, fetched);
      DatedPass(w, pass, runId, fetched0, attempts0, gaps0, attempts, gaps, fetched, readings);
      var next := w.parent(pass + 1);
      if next.Failed? || next.value.id != runId {
        if next.Ok? { final := Some(next.value); }
        MoreGaps(attempts, gaps, [Gap(Stabilization, 0)], fetched, w, runId);
        s := Snapshot(Some(initial), final, attempts, gaps + [Gap(Stabilization, 0)], false);
        err := next.Failed? && w.cancelled(2 + 2 * pass);
        return;
      }
      final := Some(next.value);
      ReadAgain(readings, next.value, w, runId);
      DatedReading(attempts, readings, next.value, fetched, w, runId);
      readings := readings + [next.value];
      if SameRun(current, next.value) {
        AlreadyAscending(attempts);
        s := Snapshot(Some(initial), final, Sort(attempts, BundleLess), gaps, true);
        return;
      }
      current := next.value;
      pass := pass + 1;
    }
    AlreadyAscending(attempts);
    MoreGaps(attempts, gaps, [Gap(Parent, 0)], fetched, w, runId);
    s := Snapshot(Some(initial), Some(current), Sort(attempts, BundleLess), gaps + [Gap(Parent, 0)], false);
  }

  lemma MoreGaps(attempts: seq<Bundle>, gaps: seq<Gap>, more: seq<Gap>, fetched: seq<int>, w: World, runId: int)
    requires Collects(attempts, gaps, fetched, w, runId)
    ensures Collects(attempts, gaps + more, fetched, w, runId)
  {
  }

  predicate BundleLess(a: Bundle, b: Bundle) { a.attempt < b.attempt }

  /** Attempts are gathered in ascending order, so the final sort finds nothing to do. */
  lemma AlreadyAscending(bs: seq<Bundle>)
    requires forall i, j :: 0 <= i < j < |bs| ==> bs[i].attempt < bs[j].attempt
    ensures Sort(bs, BundleLess) == bs
  {
    assert StrictWeak(BundleLess);
    SortIdempotent(bs, BundleLess);
  }

  /** Every attempt of the final parent has exactly one bundle or a gap of its own, no attempt was fetched twice, and the
      final parent is the run that was asked for. */
  ghost predicate IsComplete(s: Snapshot, fetched: seq<int>, runId: int) {
    && s.final.Some? && s.final.value.id == runId
    && (forall a :: 1 <= a <= s.final.value.attempt ==> ExactlyOneBundle(s.attempts, a) || Gap(Attempt, a) in s.gaps)
    && (forall i, j :: 0 <= i < j < |fetched| ==> fetched[i] != fetched[j])
  }

  /** A stable snapshot is complete. */
  lemma StableIsComplete(s: Snapshot, fetched: seq<int>, readings: seq<Run>, w: World, runId: int)
    requires Sound(s, fetched, readings, w, runId) && s.stable
    ensures IsComplete(s, fetched, runId)
  {
    forall a | 1 <= a <= s.final.value.attempt && HasBundle(s.attempts, a) ensures ExactlyOneBundle(s.attempts, a) {
      var i :| 0 <= i < |s.attempts| && s.attempts[i].attempt == a;
      assert OnlyAt(s.attempts, a, i);
    }
  }

  /** What a stable snapshot says of the last pass: the attempts the parent gained since the reading before were read in
      it, and every other bundle is older than the last two readings. */
  lemma OlderBundles(s: Snapshot, fetched: seq<int>, readings: seq<Run>, w: World, runId: int, b: Bundle)
    requires Sound(s, fetched, readings, w, runId) && s.stable && b in s.attempts
    ensures var last := |readings| - 2;
      if forall q :: 0 <= q < last ==> readings[q].attempt < b.attempt then Usable(b, w, last, runId)
      else exists pass: nat :: pass < last && FetchedIn(b, pass, readings, w, runId)
  {
    var last := |readings| - 2;
    assert HasPass(b, readings, w, runId);
    var pass: nat :| FetchedIn(b, pass, readings, w, runId);
    assert SameRun(readings[last], readings[last + 1]);
  }

  ghost predicate ExactlyOneBundle(attempts: seq<Bundle>, a: int) {
    exists i :: OnlyAt(attempts, a, i)
  }

  ghost predicate OnlyAt(attempts: seq<Bundle>, a: int, i: int) {
    0 <= i < |attempts| && attempts[i].attempt == a && forall j :: 0 <= j < |attempts| && attempts[j].attempt == a ==> j == i
  }
}
