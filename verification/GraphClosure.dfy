/** What a finding adds to the evidence graph hangs together: every edge joins nodes that are added, and of types it may
    join if the facts fit (internal/analyze/graph.go, internal/graph/graph.go). */
module GraphClosure {
  import opened Orders
  import opened Identity
  import opened GraphKinds
  import opened Graph
  import opened GraphProjection
  import opened GraphTheorems
  import opened GraphFits

  // ----- Putting pieces together -----

  lemma Added(env: Env, n: NewNode, all: seq<Call>)
    requires n in all
    ensures HasKind(env, all, IdOf(env, n), n.kind)
  {
  }

  /** An edge between added nodes of known kinds. */
  lemma EdgeGrounded(env: Env, e: Call, all: seq<Call>, source: NodeKind, target: NodeKind)
    requires e.EdgeCall? && HasKind(env, all, e.source, source) && HasKind(env, all, e.target, target)
    requires MaySource(e.link, source) && MayTarget(e.link, target)
    ensures Fitting(env, [e], all)
  {
    KindServes(env, all, e.source, source, e.link);
    KindServes(env, all, e.target, target, e.link);
    OneKeeps(env, e, all);
  }

  lemma OneKeeps(env: Env, e: Call, all: seq<Call>)
    requires e.EdgeCall? && HasSource(env, all, e.source, e.link) && HasTarget(env, all, e.target, e.link)
    ensures Fitting(env, [e], all)
  {
    forall c | c in [e] ensures c == e {}
  }

  lemma KindServes(env: Env, all: seq<Call>, id: string, kind: NodeKind, link: EdgeKind)
    requires HasKind(env, all, id, kind)
    ensures HasNode(env, all, id)
    ensures MaySource(link, kind) ==> HasSource(env, all, id, link)
    ensures MayTarget(link, kind) ==> HasTarget(env, all, id, link)
  {
    var c :| c in all && OffersNode(env, c, id) && c.kind == kind;
  }

  lemma FittingConcat(env: Env, a: seq<Call>, b: seq<Call>, all: seq<Call>)
    requires Fitting(env, a, all) && Fitting(env, b, all)
    ensures Fitting(env, a + b, all)
  {
  }

  /** A new node, and an edge between nodes of known kinds. */
  lemma NodeAndEdge(env: Env, n: NewNode, e: Call, all: seq<Call>, source: NodeKind, target: NodeKind)
    requires n in all && e.EdgeCall? && HasKind(env, all, e.source, source) && HasKind(env, all, e.target, target)
    requires MaySource(e.link, source) && MayTarget(e.link, target)
    ensures Fitting(env, [n, e], all)
  {
    EdgeGrounded(env, e, all, source, target);
    assert [n, e] == [n] + [e];
    FittingConcat(env, [n], [e], all);
  }

  lemma NothingGrounded(env: Env, all: seq<Call>)
    ensures Fitting(env, [], all) && Grounded(env, [], all, true)
  {
  }

  lemma GroundedBoth(env: Env, a: seq<Call>, fits: bool, b: seq<Call>, fits': bool, all: seq<Call>)
    requires Grounded(env, a, all, fits) && Grounded(env, b, all, fits')
    ensures Grounded(env, a + b, all, fits && fits')
  {
    if AllKeep(env, a + b, all) {
      forall c | c in a ensures c in a + b {}
      forall c | c in b ensures c in a + b {}
    }
  }

  lemma FittingIsGrounded(env: Env, calls: seq<Call>, all: seq<Call>)
    requires Fitting(env, calls, all)
    ensures Grounded(env, calls, all, true)
  {
    forall c | c in calls && c.EdgeCall? ensures HasNode(env, all, c.source) && HasNode(env, all, c.target) {}
  }

  lemma FittingFirst(env: Env, a: seq<Call>, b: seq<Call>, fits: bool, all: seq<Call>)
    requires Fitting(env, a, all) && Grounded(env, b, all, fits)
    ensures Grounded(env, a + b, all, fits)
  {
    FittingIsGrounded(env, a, all);
    GroundedBoth(env, a, true, b, fits, all);
  }

  lemma FittingLast(env: Env, a: seq<Call>, b: seq<Call>, fits: bool, all: seq<Call>)
    requires Grounded(env, a, all, fits) && Fitting(env, b, all)
    ensures Grounded(env, a + b, all, fits)
  {
    FittingIsGrounded(env, b, all);
    GroundedBoth(env, a, fits, b, true, all);
  }

  lemma {:induction false} FittingGather<A>(env: Env, s: seq<A>, f: A -> seq<Call>, all: seq<Call>)
    requires forall a :: a in s ==> Fitting(env, f(a), all)
    ensures Fitting(env, Gather(s, f), all)
  {
    if s != [] {
      GatherLast(s, f);
      FittingGather(env, s[..|s| - 1], f, all);
    }
  }

  lemma {:induction false} GroundedEach<A>(env: Env, s: seq<A>, f: A -> seq<Call>, all: seq<Call>, fits: A -> bool)
    requires forall a :: a in s ==> Grounded(env, f(a), all, fits(a))
    ensures Grounded(env, Gather(s, f), all, forall a :: a in s ==> fits(a))
  {
    if s != [] {
      var front, last := s[..|s| - 1], s[|s| - 1];
      GatherLast(s, f);
      GroundedEach(env, front, f, all, fits);
      GroundedBoth(env, Gather(front, f), forall a :: a in front ==> fits(a), f(last), fits(last), all);
      assert s == front + [last];
    }
  }

  /** An edge between added nodes of known kinds fits exactly when it is not drawn or the kinds may meet. */
  lemma EdgeGroundedExactly(env: Env, e: Call, all: seq<Call>, source: NodeKind, target: NodeKind, fits: bool)
    requires e.EdgeCall? && HasKind(env, all, e.source, source) && HasKind(env, all, e.target, target)
    requires Stated(e.link)
    requires Injective(env.hash) ==> (fits <==> !Draws(e) || (MaySource(e.link, source) && MayTarget(e.link, target)))
    ensures Grounded(env, [e], all, fits)
  {
    KindServes(env, all, e.source, source, e.link);
    KindServes(env, all, e.target, target, e.link);
    if Injective(env.hash) {
      KindDecides(env, all, e.source, source, e.link);
      KindDecides(env, all, e.target, target, e.link);
    }
    OneGrounded(env, e, all, fits);
  }

  lemma OneGrounded(env: Env, e: Call, all: seq<Call>, fits: bool)
    requires e.EdgeCall? && HasNode(env, all, e.source) && HasNode(env, all, e.target) && Stated(e.link)
    requires Injective(env.hash) ==>
      (fits <==> !Draws(e) || (HasSource(env, all, e.source, e.link) && HasTarget(env, all, e.target, e.link)))
    ensures Grounded(env, [e], all, fits)
  {
    forall c | c in [e] ensures c == e {}
    assert e in [e];
  }

  lemma KindDecides(env: Env, all: seq<Call>, id: string, kind: NodeKind, link: EdgeKind)
    requires Injective(env.hash) && HasKind(env, all, id, kind)
    ensures HasSource(env, all, id, link) ==> MaySource(link, kind)
    ensures HasTarget(env, all, id, link) ==> MayTarget(link, kind)
  {
    forall c | c in all && OffersNode(env, c, id) ensures c.kind == kind { OneKindOffered(env, all, id, kind, c); }
  }

  lemma OneKindOffered(env: Env, all: seq<Call>, id: string, kind: NodeKind, c: Call)
    requires Injective(env.hash) && HasKind(env, all, id, kind) && c in all && OffersNode(env, c, id)
    ensures c.kind == kind
  {
    var d :| d in all && OffersNode(env, d, id) && d.kind == kind;
    IdDecidesNode(env, c.kind, c.identity, d.kind, d.identity);
  }

  lemma GatherWithin<A>(s: seq<A>, f: A -> seq<Call>, all: seq<Call>, a: A)
    requires a in s && Within(Gather(s, f), all)
    ensures Within(f(a), all)
  {
    forall c | c in f(a) ensures c in all { GatherMember(s, f, c); }
  }

  // ----- Runtime actions -----

  ghost predicate HasExact(env: Env, all: seq<Call>, id: string) {
    HasKind(env, all, id, NodeKind.ActionCommit) || HasKind(env, all, id, NodeKind.ImmutableActionPackage)
  }

  ghost predicate HasAction(env: Env, all: seq<Call>, id: string) {
    HasExact(env, all, id) || HasKind(env, all, id, NodeKind.ActionRepository)
  }

  lemma ExactAdded(env: Env, o: Observation, evidence: seq<string>, focus: string, all: seq<Call>)
    requires Within(CommitNode(o, evidence, focus), all) && Within(PackageNodes(o, evidence, focus), all)
    ensures forall t :: t in ExactTargets(env, o, evidence, focus).0 ==> HasExact(env, all, t)
  {
    var nodes := CommitNode(o, evidence, focus) + PackageNodes(o, evidence, focus);
    var targets := ExactTargets(env, o, evidence, focus).0;
    forall i | 0 <= i < |targets| ensures HasExact(env, all, targets[i]) {
      assert nodes[i] in all;
      Added(env, nodes[i], all);
    }
  }

  lemma PackageEdgeGrounded(env: Env, commit: NewNode, package: NewNode, e: Call, all: seq<Call>)
    requires commit in all && package in all && commit.kind.ActionCommit? && package.kind.ImmutableActionPackage?
    requires e.EdgeCall? && e.link.PackageSourceCommit? && e.source == IdOf(env, package) && e.target == IdOf(env, commit)
    ensures Fitting(env, [e], all)
  {
    Added(env, commit, all);
    Added(env, package, all);
    EdgeGrounded(env, e, all, NodeKind.ImmutableActionPackage, NodeKind.ActionCommit);
  }

  lemma ExactGrounded(env: Env, o: Observation, evidence: seq<string>, focus: string, all: seq<Call>)
    requires Within(ExactTargets(env, o, evidence, focus).1, all)
    ensures Fitting(env, ExactTargets(env, o, evidence, focus).1, all)
    ensures forall t :: t in ExactTargets(env, o, evidence, focus).0 ==> HasExact(env, all, t)
  {
    var commit, package := CommitNode(o, evidence, focus), PackageNodes(o, evidence, focus);
    var calls := ExactTargets(env, o, evidence, focus).1;
    assert Within(commit, all) && Within(package, all);
    ExactAdded(env, o, evidence, focus, all);
    if commit != [] && package != [] {
      assert calls == commit + package + [calls[2]];
      assert commit[0] in commit && package[0] in package;
      PackageEdgeGrounded(env, commit[0], package[0], calls[2], all);
      FittingConcat(env, commit + package, [calls[2]], all);
    }
  }

  lemma ActionEdge(env: Env, e: Call, all: seq<Call>, source: NodeKind)
    requires e.EdgeCall? && HasKind(env, all, e.source, source) && HasAction(env, all, e.target)
    requires MaySource(e.link, source) && MayTarget(e.link, NodeKind.ActionCommit) && MayTarget(e.link, NodeKind.ImmutableActionPackage)
    requires MayTarget(e.link, NodeKind.ActionRepository) || HasExact(env, all, e.target)
    ensures Fitting(env, [e], all)
  {
    if HasKind(env, all, e.target, NodeKind.ActionCommit) {
      EdgeGrounded(env, e, all, source, NodeKind.ActionCommit);
    } else if HasKind(env, all, e.target, NodeKind.ImmutableActionPackage) {
      EdgeGrounded(env, e, all, source, NodeKind.ImmutableActionPackage);
    } else {
      EdgeGrounded(env, e, all, source, NodeKind.ActionRepository);
    }
  }

  lemma RefGrounded(env: Env, o: Observation, targets: seq<string>, evidence: seq<string>, focus: string, all: seq<Call>)
    requires Within(RefCalls(env, o, targets, evidence, focus), all)
    requires forall t :: t in targets ==> HasExact(env, all, t)
    ensures Fitting(env, RefCalls(env, o, targets, evidence, focus), all)
  {
    if o.declaredRef != "" {
      var calls := RefCalls(env, o, targets, evidence, focus);
      assert calls[0] in all;
      Added(env, calls[0], all);
      var edges := RefEdge(IdOf(env, calls[0]), evidence, o.time, focus);
      forall t | t in targets ensures Fitting(env, edges(t), all) { ActionEdge(env, edges(t)[0], all, NodeKind.ActionRef); }
      FittingGather(env, targets, edges, all);
      assert calls == [calls[0]] + Gather(targets, edges);
      FittingConcat(env, [calls[0]], Gather(targets, edges), all);
    }
  }

  lemma PreparedGrounded(env: Env, job: NewNode, e: Call, all: seq<Call>)
    requires job in all && job.kind.Job? && e.EdgeCall? && e.link.JobPreparedAction?
    requires e.source == IdOf(env, job) && HasAction(env, all, e.target)
    ensures Fitting(env, [job, e], all)
  {
    Added(env, job, all);
    ActionEdge(env, e, all, NodeKind.Job);
    assert [job, e] == [job] + [e];
    FittingConcat(env, [job], [e], all);
  }

  lemma InJobGrounded(env: Env, job: NewNode, step: NewNode, e: Call, all: seq<Call>)
    requires job in all && step in all && job.kind.Job? && step.kind.Step?
    requires e.EdgeCall? && e.link.StepInJob? && e.source == IdOf(env, job) && e.target == IdOf(env, step)
    ensures Fitting(env, [job, step, e], all)
  {
    Added(env, job, all);
    Added(env, step, all);
    EdgeGrounded(env, e, all, NodeKind.Job, NodeKind.Step);
    assert [job, step, e] == [job, step] + [e];
    FittingConcat(env, [job, step], [e], all);
  }

  lemma StepGrounded(env: Env, o: Observation, target: string, evidence: seq<string>, focus: string, all: seq<Call>)
    requires Within(StepCalls(env, o, target, evidence, focus), all) && HasAction(env, all, target)
    ensures Fitting(env, StepCalls(env, o, target, evidence, focus), all)
  {
    var calls, job := StepCalls(env, o, target, evidence, focus), JobNode(env, o.execution, evidence, focus);
    assert calls[0] == job && job in calls;
    if o.step.None? {
      if o.downloaded { PreparedGrounded(env, job, calls[1], all); }
    } else {
      var step := StepNode(o.step.value, evidence, focus);
      assert calls[1] == step && step in calls;
      var uses := UseCalls(o, IdOf(env, step), target, evidence, focus);
      UsesGrounded(env, o, step, target, evidence, focus, all);
      InJobGrounded(env, job, step, calls[2], all);
      FittingConcat(env, [job, step, calls[2]], uses, all);
      assert calls == [job, step, calls[2]] + uses;
    }
  }

  lemma UsesGrounded(env: Env, o: Observation, step: NewNode, target: string, evidence: seq<string>, focus: string, all: seq<Call>)
    requires step.kind == NodeKind.Step && step in all && HasAction(env, all, target)
    ensures Fitting(env, UseCalls(o, IdOf(env, step), target, evidence, focus), all)
  {
    var download := Observed(EdgeKind.StepDownloadedAction, IdOf(env, step), target, evidence, o.time, focus);
    var run := Observed(EdgeKind.StepExecutedAction, IdOf(env, step), target, evidence, o.time, focus);
    Added(env, step, all);
    ActionEdge(env, download, all, NodeKind.Step);
    ActionEdge(env, run, all, NodeKind.Step);
    FittingConcat(env, if o.downloaded then [download] else [], if o.executed then [run] else [], all);
  }

  lemma RuntimeGrounded(env: Env, fact: Fact, focus: string, all: seq<Call>)
    requires fact.body.Acts? && Within(RuntimeAction(env, fact, focus).calls, all)
    ensures Fitting(env, RuntimeAction(env, fact, focus).calls, all)
    ensures HasAction(env, all, RuntimeAction(env, fact, focus).target)
    ensures fact.body.action.source.Some? || fact.body.action.package.Some? ==> HasExact(env, all, RuntimeAction(env, fact, focus).target)
    ensures fact.body.action.source.None? && fact.body.action.package.None? ==>
      HasKind(env, all, RuntimeAction(env, fact, focus).target, NodeKind.ActionRepository)
  {
    var o, evidence := fact.body.action, fact.evidence;
    var repository := ActionRepositoryNode(o.repository, evidence, focus);
    var (targets, exact) := ExactTargets(env, o, evidence, focus);
    var primary := if targets != [] then targets[0] else IdOf(env, repository);
    var p := RuntimeAction(env, fact, focus);
    assert p.calls == [repository] + exact + RefCalls(env, o, targets, evidence, focus) + StepCalls(env, o, primary, evidence, focus);
    Added(env, repository, all);
    ExactGrounded(env, o, evidence, focus, all);
    RefGrounded(env, o, targets, evidence, focus, all);
    StepGrounded(env, o, primary, evidence, focus, all);
    FittingConcat(env, [repository], exact, all);
    FittingConcat(env, [repository] + exact, RefCalls(env, o, targets, evidence, focus), all);
    FittingConcat(env, [repository] + exact + RefCalls(env, o, targets, evidence, focus), StepCalls(env, o, primary, evidence, focus), all);
  }

  // ----- Dependencies -----

  /** Kinds a finding may be about. */
  ghost predicate HasSubject(env: Env, all: seq<Call>, id: string) {
    exists k :: HasKind(env, all, id, k) && MayTarget(EdgeKind.FindingAbout, k)
  }

  lemma SubjectOfKind(env: Env, all: seq<Call>, id: string, kind: NodeKind)
    requires HasKind(env, all, id, kind) && MayTarget(EdgeKind.FindingAbout, kind)
    ensures HasSubject(env, all, id) && HasNode(env, all, id)
  {
    KindServes(env, all, id, kind, EdgeKind.FindingAbout);
  }

  /** The kind of the node that stands for the caller, for the exact target, and for the declaration target. */
  function CallerKind(d: Dependency): Option<NodeKind> {
    if d.basis == RUNTIME_ATTEMPT_METADATA && d.attempt.Some? then Some(NodeKind.RunAttempt)
    else if d.callerWorkflow.Some? then Some(NodeKind.WorkflowDefinition)
    else if d.callerAction.Some? then Some(NodeKind.ActionDefinition)
    else if d.callerPath != "" then Some(NodeKind.WorkflowDefinition)
    else None
  }

  function IdentityKind(d: Dependency): Option<NodeKind> {
    if d.targetWorkflow.Some? then Some(NodeKind.ReusableWorkflowDefinition)
    else if d.targetAction.Some? then Some(if d.targetKind == LOCAL_ACTION then NodeKind.ActionDefinition else NodeKind.ActionCommit)
    else if d.package.Some? then Some(NodeKind.ImmutableActionPackage)
    else None
  }

  function DeclaredKind(d: Dependency): NodeKind {
    if IdentityKind(d).Some? && (d.basis == RUNTIME_ATTEMPT_METADATA || d.declaredRef == "") then IdentityKind(d).value
    else if d.declaredRef != "" then NodeKind.ActionRef
    else NodeKind.ActionRepository
  }

  lemma CallerIsOfKind(d: Dependency, evidence: seq<string>, focus: string)
    ensures var n := DependencySource(d, evidence, focus);
      if n.Some? then CallerKind(d) == Some(n.value.kind) else CallerKind(d) == None
  {
  }

  lemma IdIsNotEmpty(env: Env, n: NewNode)
    ensures IdOf(env, n) != ""
  {
  }

  lemma ExactTargetAdded(env: Env, d: Dependency, evidence: seq<string>, focus: string, all: seq<Call>)
    requires Within(DependencyTarget(env, d, evidence, focus).calls, all)
    ensures var t := DependencyTarget(env, d, evidence, focus);
      if IdentityKind(d).Some? then t.exact != "" && HasKind(env, all, t.exact, IdentityKind(d).value) else t.exact == ""
  {
    var t := DependencyTarget(env, d, evidence, focus);
    var exact := ExactTarget(d, evidence, focus);
    if exact.Some? {
      IdIsNotEmpty(env, exact.value);
      assert t.calls[0] == exact.value && t.calls[0] in t.calls;
      Added(env, exact.value, all);
    }
  }

  lemma DeclaredTargetAdded(env: Env, d: Dependency, evidence: seq<string>, focus: string, all: seq<Call>)
    requires Within(DependencyTarget(env, d, evidence, focus).calls, all)
    ensures var t := DependencyTarget(env, d, evidence, focus);
      HasKind(env, all, t.target, DeclaredKind(d)) && (t.ref != "" ==> HasKind(env, all, t.ref, NodeKind.ActionRef))
  {
    var calls := DependencyTarget(env, d, evidence, focus).calls;
    LastIsDeclared(env, d, evidence, focus);
    assert calls[|calls| - 1] in calls;
    Added(env, calls[|calls| - 1], all);
  }

  lemma LastIsDeclared(env: Env, d: Dependency, evidence: seq<string>, focus: string)
    ensures var t := DependencyTarget(env, d, evidence, focus);
      && t.calls != [] && t.calls[|t.calls| - 1].NodeCall?
      && t.target == IdOf(env, t.calls[|t.calls| - 1]) && t.calls[|t.calls| - 1].kind == DeclaredKind(d)
      && (t.ref != "" ==> t.ref == t.target && DeclaredKind(d).ActionRef?)
  {
    if ExactTarget(d, evidence, focus).Some? { IdIsNotEmpty(env, ExactTarget(d, evidence, focus).value); }
  }

  /** What `dependencyTarget` returns are nodes it adds, of these kinds. */
  lemma TargetAdded(env: Env, d: Dependency, evidence: seq<string>, focus: string, all: seq<Call>)
    requires Within(DependencyTarget(env, d, evidence, focus).calls, all)
    ensures var t := DependencyTarget(env, d, evidence, focus);
      && Fitting(env, t.calls, all)
      && HasKind(env, all, t.target, DeclaredKind(d))
      && (if IdentityKind(d).Some? then t.exact != "" && HasKind(env, all, t.exact, IdentityKind(d).value) else t.exact == "")
      && (t.ref != "" ==> HasKind(env, all, t.ref, NodeKind.ActionRef))
  {
    ExactTargetAdded(env, d, evidence, focus, all);
    DeclaredTargetAdded(env, d, evidence, focus, all);
  }

  lemma ResolvedGrounded(env: Env, d: Dependency, t: Targets, evidence: seq<string>, focus: string, all: seq<Call>)
    requires t.ref != "" && HasKind(env, all, t.ref, NodeKind.ActionRef)
    requires IdentityKind(d).Some? && HasKind(env, all, t.exact, IdentityKind(d).value)
    ensures Fitting(env, [Observed(EdgeKind.RefResolvedTo, t.ref, t.exact, evidence, d.time, focus)], all)
  {
    EdgeGrounded(env, Observed(EdgeKind.RefResolvedTo, t.ref, t.exact, evidence, d.time, focus), all, NodeKind.ActionRef, IdentityKind(d).value);
  }

  lemma InstanceGrounded(env: Env, d: Dependency, source: string, evidence: seq<string>, focus: string, all: seq<Call>)
    requires CallerKind(d).Some? && HasKind(env, all, source, CallerKind(d).value)
    requires Within(InstanceEdge(env, d, source, evidence, focus), all)
    ensures Fitting(env, InstanceEdge(env, d, source, evidence, focus), all)
  {
    var calls := InstanceEdge(env, d, source, evidence, focus);
    if calls != [] {
      assert calls[0] in calls && CallerKind(d).value == NodeKind.WorkflowDefinition;
      Added(env, calls[0], all);
      NodeAndEdge(env, calls[0], calls[1], all, NodeKind.WorkflowRun, NodeKind.WorkflowDefinition);
      assert calls == [calls[0], calls[1]];
    }
  }

  lemma CallerKindIs(d: Dependency)
    ensures CallerKind(d) == (if FromAttempt(d) then Some(NodeKind.RunAttempt) else if FromWorkflow(d) then Some(NodeKind.WorkflowDefinition)
                              else if FromAction(d) then Some(NodeKind.ActionDefinition) else None)
  {
  }

  lemma DeclaredKindIs(d: Dependency)
    ensures DeclaredKind(d).ActionRef? <==> ByRef(d)
    ensures DeclaredKind(d).ReusableWorkflowDefinition? <==> ToWorkflow(d)
    ensures DeclaredKind(d).ActionDefinition? <==> ToLocalAction(d)
    ensures DeclaredKind(d) in {NodeKind.ActionRef, NodeKind.ReusableWorkflowDefinition, NodeKind.ActionDefinition,
                                NodeKind.ActionCommit, NodeKind.ImmutableActionPackage, NodeKind.ActionRepository}
  {
  }

  /** The fields of a dependency decide whether the kinds of its caller and its target may meet. */
  lemma CallerFitsExactly(d: Dependency)
    requires RelationEdge(d.relation).Some? && CallerKind(d).Some?
    ensures CallerFits(d) <==> MaySource(RelationEdge(d.relation).value, CallerKind(d).value) && MayTarget(RelationEdge(d.relation).value, DeclaredKind(d))
  {
    CallerKindIs(d);
    DeclaredKindIs(d);
  }

  /** Caller and declaration target are one node only for a local action that points at itself. */
  lemma CallsItselfExactly(env: Env, d: Dependency, evidence: seq<string>, focus: string)
    requires Injective(env.hash) && DependencySource(d, evidence, focus).Some?
    ensures IdOf(env, DependencySource(d, evidence, focus).value) == DependencyTarget(env, d, evidence, focus).target <==> CallsItself(d)
  {
    var source, calls := DependencySource(d, evidence, focus).value, DependencyTarget(env, d, evidence, focus).calls;
    LastIsDeclared(env, d, evidence, focus);
    var target := calls[|calls| - 1];
    CallerIsOfKind(d, evidence, focus);
    CallerKindIs(d);
    DeclaredKindIs(d);
    IdDecidesNode(env, source.kind, source.identity, target.kind, target.identity);
    if source.kind == target.kind { SameDefinition(env, d, evidence, focus); }
  }

  lemma SameDefinition(env: Env, d: Dependency, evidence: seq<string>, focus: string)
    requires FromAction(d) && ToLocalAction(d)
    ensures var calls := DependencyTarget(env, d, evidence, focus).calls;
      calls != [] && (calls[|calls| - 1].NodeCall? && DependencySource(d, evidence, focus).Some? ==>
        (DependencySource(d, evidence, focus).value.identity == calls[|calls| - 1].identity <==> CallsItself(d)))
  {
    var o, p := d.callerAction.value, d.targetAction.value;
    var a := ["action-definition", d.callerRepository, d.callerPath, o.algorithm, o.value];
    var b := ["action-definition", d.targetRepository, d.targetPath, p.algorithm, p.value];
    assert a == b <==> a[1] == b[1] && a[2] == b[2] && a[3] == b[3] && a[4] == b[4];
    assert ExactTarget(d, evidence, focus).value.identity == b;
    IdIsNotEmpty(env, ExactTarget(d, evidence, focus).value);
  }

  lemma CallerEdgeGrounded(env: Env, d: Dependency, source: string, t: Targets, evidence: seq<string>, focus: string, all: seq<Call>)
    requires CallerKind(d).Some? && HasKind(env, all, source, CallerKind(d).value) && HasKind(env, all, t.target, DeclaredKind(d))
    requires Injective(env.hash) ==> (source == t.target <==> CallsItself(d))
    ensures Grounded(env, CallerEdge(d, source, t, evidence, focus), all, evidence != [] ==> CallerFits(d) || CallsItself(d))
  {
    var calls := CallerEdge(d, source, t, evidence, focus);
    if calls != [] {
      CallerFitsExactly(d);
      NodeIdIsNotEmpty(env, all, source, CallerKind(d).value);
      NodeIdIsNotEmpty(env, all, t.target, DeclaredKind(d));
      EdgeGroundedExactly(env, calls[0], all, CallerKind(d).value, DeclaredKind(d), evidence != [] ==> CallerFits(d) || CallsItself(d));
    }
  }

  lemma NodeIdIsNotEmpty(env: Env, all: seq<Call>, id: string, kind: NodeKind)
    requires HasKind(env, all, id, kind)
    ensures id != ""
  {
    var c :| c in all && OffersNode(env, c, id) && c.kind == kind;
    IdIsNotEmpty(env, c);
  }

  lemma EdgesGrounded(env: Env, d: Dependency, source: string, t: Targets, evidence: seq<string>, focus: string, all: seq<Call>)
    requires Within(DependencyEdges(env, d, source, t, evidence, focus), all)
    requires CallerKind(d).Some? && HasKind(env, all, source, CallerKind(d).value) && HasKind(env, all, t.target, DeclaredKind(d))
    requires Injective(env.hash) ==> (source == t.target <==> CallsItself(d))
    requires if IdentityKind(d).Some? then HasKind(env, all, t.exact, IdentityKind(d).value) else t.exact == ""
    requires t.ref != "" ==> HasKind(env, all, t.ref, NodeKind.ActionRef)
    ensures Grounded(env, DependencyEdges(env, d, source, t, evidence, focus), all, evidence != [] ==> CallerFits(d) || CallsItself(d))
  {
    var fits := evidence != [] ==> CallerFits(d) || CallsItself(d);
    var caller := CallerEdge(d, source, t, evidence, focus);
    var resolved := if t.ref != "" && t.exact != "" then [Observed(EdgeKind.RefResolvedTo, t.ref, t.exact, evidence, d.time, focus)] else [];
    CallerEdgeGrounded(env, d, source, t, evidence, focus, all);
    if t.ref != "" && t.exact != "" { ResolvedGrounded(env, d, t, evidence, focus, all); }
    InstanceGrounded(env, d, source, evidence, focus, all);
    FittingLast(env, caller, resolved, fits, all);
    FittingLast(env, caller + resolved, InstanceEdge(env, d, source, evidence, focus), fits, all);
  }

  function ReturnedKind(d: Dependency): NodeKind { if IdentityKind(d).Some? then IdentityKind(d).value else DeclaredKind(d) }

  lemma PlainGrounded(env: Env, fact: Fact, focus: string, all: seq<Call>)
    requires Within(PlainDependency(env, fact, focus).calls, all)
    ensures Grounded(env, PlainDependency(env, fact, focus).calls, all, PlainFits(fact))
  {
    if fact.body.Depends? && HasCaller(fact.body.dependency) {
      CallerIsOfKind(fact.body.dependency, fact.evidence, focus);
      CallerKindIs(fact.body.dependency);
      CalledGrounded(env, fact.body.dependency, fact.evidence, focus, all);
    } else {
      PlainIsReturned(env, fact, focus, all);
      NothingGrounded(env, all);
    }
  }

  /** What a dependency returns is a node it adds, of the kind its fields decide. */
  lemma PlainIsReturned(env: Env, fact: Fact, focus: string, all: seq<Call>)
    requires Within(PlainDependency(env, fact, focus).calls, all)
    ensures var t := PlainDependency(env, fact, focus);
      && (Returned(t) != "" ==> fact.body.Depends? && HasKind(env, all, Returned(t), ReturnedKind(fact.body.dependency)))
      && (t.exact != "" <==> fact.body.Depends? && HasCaller(fact.body.dependency) && Identified(fact.body.dependency))
      && (Returned(t) != "" <==> fact.body.Depends? && HasCaller(fact.body.dependency))
      && (Returned(t) == "" ==> t.calls == [])
  {
    if fact.body.Depends? {
      CallerIsOfKind(fact.body.dependency, fact.evidence, focus);
      CallerKindIs(fact.body.dependency);
      if HasCaller(fact.body.dependency) { CalledGrounded(env, fact.body.dependency, fact.evidence, focus, all); }
    }
  }

  function CalledDependency(env: Env, d: Dependency, source: NewNode, evidence: seq<string>, focus: string): seq<Call> {
    var t := DependencyTarget(env, d, evidence, focus);
    [source] + t.calls + DependencyEdges(env, d, IdOf(env, source), t, evidence, focus)
  }

  /** The calls of a dependency that has a caller. */
  lemma CalledGrounded(env: Env, d: Dependency, evidence: seq<string>, focus: string, all: seq<Call>)
    requires DependencySource(d, evidence, focus).Some?
    requires Within(CalledDependency(env, d, DependencySource(d, evidence, focus).value, evidence, focus), all)
    ensures Grounded(env, CalledDependency(env, d, DependencySource(d, evidence, focus).value, evidence, focus), all,
                     evidence != [] ==> CallerFits(d) || CallsItself(d))
    ensures var t := DependencyTarget(env, d, evidence, focus);
      && t.target != "" && HasKind(env, all, t.target, DeclaredKind(d))
      && (if IdentityKind(d).Some? then t.exact != "" && HasKind(env, all, t.exact, IdentityKind(d).value) else t.exact == "")
  {
    var source, t := DependencySource(d, evidence, focus).value, DependencyTarget(env, d, evidence, focus);
    var edges := DependencyEdges(env, d, IdOf(env, source), t, evidence, focus);
    CallerIsOfKind(d, evidence, focus);
    WithinThree([source], t.calls, edges, all);
    assert source in [source];
    Added(env, source, all);
    TargetAdded(env, d, evidence, focus, all);
    NodeIdIsNotEmpty(env, all, t.target, DeclaredKind(d));
    if Injective(env.hash) { CallsItselfExactly(env, d, evidence, focus); }
    EdgesGrounded(env, d, IdOf(env, source), t, evidence, focus, all);
    NodeFirst(env, source, t.calls, edges, evidence != [] ==> CallerFits(d) || CallsItself(d), all);
  }

  lemma WithinThree(p: seq<Call>, q: seq<Call>, r: seq<Call>, all: seq<Call>)
    requires Within(p + q + r, all)
    ensures Within(p, all) && Within(q, all) && Within(r, all)
  {
  }

  lemma NodeFirst(env: Env, n: NewNode, p: seq<Call>, q: seq<Call>, fits: bool, all: seq<Call>)
    requires Fitting(env, p, all) && Grounded(env, q, all, fits)
    ensures Grounded(env, [n] + p + q, all, fits)
  {
    FittingConcat(env, [n], p, all);
    FittingFirst(env, [n] + p, q, fits, all);
  }

  /** The kind of what a contradicted fact returns. */
  function ContradictedKind(other: Fact): NodeKind {
    match other.body
    case Depends(d) => ReturnedKind(d)
    case Acts(o) => if o.source.Some? then NodeKind.ActionCommit else if o.package.Some? then NodeKind.ImmutableActionPackage else NodeKind.ActionRepository
    case _ => NodeKind.Finding
  }

  lemma RuntimeKind(env: Env, fact: Fact, focus: string, all: seq<Call>)
    requires fact.body.Acts? && Within(RuntimeAction(env, fact, focus).calls, all)
    ensures HasKind(env, all, RuntimeAction(env, fact, focus).target, ContradictedKind(fact))
  {
    var o, evidence := fact.body.action, fact.evidence;
    var repository := ActionRepositoryNode(o.repository, evidence, focus);
    var (targets, exact) := ExactTargets(env, o, evidence, focus);
    var nodes := CommitNode(o, evidence, focus) + PackageNodes(o, evidence, focus);
    var calls := RuntimeAction(env, fact, focus).calls;
    assert repository in calls && forall c :: c in exact ==> c in calls;
    assert forall n :: n in nodes ==> n in exact;
    if nodes != [] {
      assert nodes[0] in nodes && targets[0] == IdOf(env, nodes[0]);
      Added(env, nodes[0], all);
    } else {
      Added(env, repository, all);
    }
  }

  lemma ContradictedGrounded(env: Env, fact: Fact, other: Fact, focus: string, all: seq<Call>)
    requires Within(Contradicted(env, fact, other, focus).calls, all)
    ensures Grounded(env, Contradicted(env, fact, other, focus).calls, all, PlainFits(other))
    ensures Contradicted(env, fact, other, focus).target != "" ==>
      HasKind(env, all, Contradicted(env, fact, other, focus).target, ContradictedKind(other))
    ensures Contradicted(env, fact, other, focus).target == "" ==> ExactlyKnown(fact, other)
  {
    if other.body.Depends? {
      PlainGrounded(env, other, focus, all);
      PlainIsReturned(env, other, focus, all);
    } else if other.body.Acts? && SameOccurrence(other.subject, fact.subject) {
      RuntimeGrounded(env, other, focus, all);
      FittingIsGrounded(env, RuntimeAction(env, other, focus).calls, all);
      RuntimeKind(env, other, focus, all);
      NodeIdIsNotEmpty(env, all, RuntimeAction(env, other, focus).target, ContradictedKind(other));
    } else {
      NothingGrounded(env, all);
    }
  }

  lemma ActionServes(env: Env, all: seq<Call>, id: string)
    requires HasAction(env, all, id)
    ensures HasSubject(env, all, id) && HasNode(env, all, id)
  {
    if HasKind(env, all, id, NodeKind.ActionCommit) {
      SubjectOfKind(env, all, id, NodeKind.ActionCommit);
    } else if HasKind(env, all, id, NodeKind.ImmutableActionPackage) {
      SubjectOfKind(env, all, id, NodeKind.ImmutableActionPackage);
    } else {
      SubjectOfKind(env, all, id, NodeKind.ActionRepository);
    }
  }

  lemma ContradictedMay(fact: Fact, other: Fact)
    requires other.body.Depends? ==> HasCaller(other.body.dependency)
    requires other.body.Acts? ==> SameOccurrence(other.subject, fact.subject)
    requires other.body.Depends? || other.body.Acts?
    ensures MayTarget(EdgeKind.Contradicts, ContradictedKind(other)) <==> ExactlyKnown(fact, other)
  {
  }

  lemma IdentityMaySource(d: Dependency)
    requires IdentityKind(d).Some?
    ensures MaySource(EdgeKind.Contradicts, IdentityKind(d).value) && MayTarget(EdgeKind.Contradicts, IdentityKind(d).value)
  {
  }

  lemma ContradictionEdgeGrounded(env: Env, fact: Fact, other: Fact, exact: string, kind: NodeKind, target: string, time: string,
                                  focus: string, all: seq<Call>)
    requires HasKind(env, all, exact, kind) && MaySource(EdgeKind.Contradicts, kind) && MayTarget(EdgeKind.Contradicts, kind)
    requires HasKind(env, all, target, ContradictedKind(other))
    requires MayTarget(EdgeKind.Contradicts, ContradictedKind(other)) <==> ExactlyKnown(fact, other)
    ensures Grounded(env, if target == exact then [] else [ContradictionEdge(fact, other, exact, target, time, focus)], all,
                     fact.evidence + other.evidence != [] ==> ExactlyKnown(fact, other))
  {
    var fits := fact.evidence + other.evidence != [] ==> ExactlyKnown(fact, other);
    if target == exact {
      if Injective(env.hash) { KindsAgree(env, all, exact, kind, ContradictedKind(other)); }
    } else {
      NodeIdIsNotEmpty(env, all, exact, kind);
      NodeIdIsNotEmpty(env, all, target, ContradictedKind(other));
      EdgeGroundedExactly(env, ContradictionEdge(fact, other, exact, target, time, focus), all, kind, ContradictedKind(other), fits);
    }
  }

  lemma KindsAgree(env: Env, all: seq<Call>, id: string, kind: NodeKind, kind': NodeKind)
    requires Injective(env.hash) && HasKind(env, all, id, kind) && HasKind(env, all, id, kind')
    ensures kind == kind'
  {
    var c :| c in all && OffersNode(env, c, id) && c.kind == kind;
    OneKindOffered(env, all, id, kind', c);
  }

  lemma ContradictionGrounded(env: Env, idx: Index, fact: Fact, exact: string, kind: NodeKind, time: string, focus: string, id: string,
                              all: seq<Call>)
    requires HasKind(env, all, exact, kind) && MaySource(EdgeKind.Contradicts, kind) && MayTarget(EdgeKind.Contradicts, kind)
    requires Within(Contradiction(env, idx, fact, exact, time, focus, id), all)
    ensures Grounded(env, Contradiction(env, idx, fact, exact, time, focus, id), all, ContradictionFits(idx, fact, id))
  {
    if id in idx.factsById {
      var other := idx.factsById[id];
      var p := Contradicted(env, fact, other, focus);
      ContradictedGrounded(env, fact, other, focus, all);
      if p.target == "" {
        assert p.calls + [] == p.calls;
      } else {
        ContradictedMay(fact, other);
        ContradictionEdgeGrounded(env, fact, other, exact, kind, p.target, time, focus, all);
        GroundedBoth(env, p.calls, PlainFits(other), if p.target == exact then [] else [ContradictionEdge(fact, other, exact, p.target, time, focus)],
                     fact.evidence + other.evidence != [] ==> ExactlyKnown(fact, other), all);
      }
    }
  }

  lemma ContradictionsGrounded(env: Env, idx: Index, fact: Fact, exact: string, kind: NodeKind, focus: string, all: seq<Call>)
    requires fact.body.Depends? && exact != ""
    requires HasKind(env, all, exact, kind) && MaySource(EdgeKind.Contradicts, kind) && MayTarget(EdgeKind.Contradicts, kind)
    requires Within(ContradictionCalls(env, idx, fact, exact, focus), all)
    ensures Grounded(env, ContradictionCalls(env, idx, fact, exact, focus), all, ContradictsFit(idx, fact))
  {
    var d := fact.body.dependency;
    var each := Contradictions(env, idx, fact, exact, d.time, focus);
    forall id | id in d.contradicts ensures Grounded(env, each(id), all, ContradictionsFit(idx, fact)(id)) {
      GatherWithin(d.contradicts, each, all, id);
      ContradictionGrounded(env, idx, fact, exact, kind, d.time, focus, id, all);
    }
    GroundedEach(env, d.contradicts, each, all, ContradictionsFit(idx, fact));
    if forall id :: id in d.contradicts ==> ContradictionsFit(idx, fact)(id) {
      forall id | id in d.contradicts ensures ContradictionFits(idx, fact, id) { assert ContradictionsFit(idx, fact)(id); }
    }
  }

  /** The edges of a dependency and of what it contradicts fit exactly when the facts do. */
  lemma DependencyGrounded(env: Env, idx: Index, fact: Fact, focus: string, all: seq<Call>)
    requires Within(DependencyFact(env, idx, fact, focus).calls, all)
    ensures Grounded(env, DependencyFact(env, idx, fact, focus).calls, all, DependencyFits(idx, fact))
  {
    var t := PlainDependency(env, fact, focus);
    PlainGrounded(env, fact, focus, all);
    PlainIsReturned(env, fact, focus, all);
    if t.exact != "" {
      ExactContradictions(env, idx, fact, t.exact, focus, all);
      GroundedBoth(env, t.calls, PlainFits(fact), ContradictionCalls(env, idx, fact, t.exact, focus), ContradictsFit(idx, fact), all);
    } else {
      assert t.calls + [] == t.calls;
    }
  }

  lemma DependencyServes(env: Env, idx: Index, fact: Fact, focus: string, all: seq<Call>)
    requires Within(DependencyFact(env, idx, fact, focus).calls, all)
    ensures DependencyFact(env, idx, fact, focus).target != "" ==> HasSubject(env, all, DependencyFact(env, idx, fact, focus).target)
  {
    var t := PlainDependency(env, fact, focus);
    PlainIsReturned(env, fact, focus, all);
    if Returned(t) != "" { SubjectOfKind(env, all, Returned(t), ReturnedKind(fact.body.dependency)); }
  }

  lemma ExactContradictions(env: Env, idx: Index, fact: Fact, exact: string, focus: string, all: seq<Call>)
    requires fact.body.Depends? && exact != "" && IdentityKind(fact.body.dependency).Some?
    requires HasKind(env, all, exact, IdentityKind(fact.body.dependency).value)
    requires Within(ContradictionCalls(env, idx, fact, exact, focus), all)
    ensures Grounded(env, ContradictionCalls(env, idx, fact, exact, focus), all, ContradictsFit(idx, fact))
  {
    IdentityMaySource(fact.body.dependency);
    ContradictionsGrounded(env, idx, fact, exact, IdentityKind(fact.body.dependency).value, focus, all);
  }

  // ----- Exposures -----

  lemma TokenGrounded(env: Env, c: Detail, source: string, job: string, hasStep: bool, time: string, focus: string, all: seq<Call>)
    requires c.Credential? && c.kind.TokenPermission? && HasKind(env, all, job, NodeKind.Job)
    requires Within(CredentialCalls(env, c, source, job, hasStep, time, focus), all)
    ensures Fitting(env, CredentialCalls(env, c, source, job, hasStep, time, focus), all)
  {
    var calls := CredentialCalls(env, c, source, job, hasStep, time, focus);
    assert calls[0] in all;
    FromJob(env, calls[0], calls[1], job, all);
    if |calls| > 2 {
      assert calls[2] in all;
      FromJob(env, calls[2], calls[3], job, all);
      assert calls == [calls[0], calls[1]] + [calls[2], calls[3]];
      FittingConcat(env, [calls[0], calls[1]], [calls[2], calls[3]], all);
    } else {
      assert calls == [calls[0], calls[1]];
    }
  }

  /** A new node and an edge to it from a job. */
  lemma FromJob(env: Env, n: NewNode, e: Call, job: string, all: seq<Call>)
    requires n in all && HasKind(env, all, job, NodeKind.Job)
    requires e.EdgeCall? && e.source == job && e.target == IdOf(env, n) && MaySource(e.link, NodeKind.Job) && MayTarget(e.link, n.kind)
    ensures Fitting(env, [n, e], all)
  {
    Added(env, n, all);
    EdgeGrounded(env, e, all, NodeKind.Job, n.kind);
    assert [n, e] == [n] + [e];
    FittingConcat(env, [n], [e], all);
  }

  /** A secret that a job refers to, or that a job or step is passed. */
  lemma SecretLinkGrounded(env: Env, n: NewNode, e: Call, all: seq<Call>, source: string, holder: NodeKind, job: string)
    requires n in all && n.kind.SecretMetadata? && e.EdgeCall? && (holder.Job? || holder.Step?)
    requires HasKind(env, all, job, NodeKind.Job) && HasKind(env, all, source, holder)
    requires (e.link.ReferencedSecret? && e.source == job && e.target == IdOf(env, n))
          || (e.link.PassedSecretTo? && e.source == IdOf(env, n) && e.target == source)
    ensures Fitting(env, [n, e], all)
  {
    Added(env, n, all);
    if e.link.ReferencedSecret? {
      NodeAndEdge(env, n, e, all, NodeKind.Job, NodeKind.SecretMetadata);
    } else {
      NodeAndEdge(env, n, e, all, NodeKind.SecretMetadata, holder);
    }
  }

  /** A secret that a job or step inherits: a step may not. */
  lemma InheritedGrounded(env: Env, n: NewNode, e: Call, all: seq<Call>, holder: NodeKind)
    requires n in all && n.kind.SecretMetadata? && e.EdgeCall? && (holder.Job? || holder.Step?)
    requires HasKind(env, all, e.source, holder) && e.link.InheritedSecret? && e.target == IdOf(env, n)
    ensures Grounded(env, [n, e], all, e.evidence != [] ==> holder.Job?)
  {
    Added(env, n, all);
    NodeIdIsNotEmpty(env, all, e.source, holder);
    NodeIdIsNotEmpty(env, all, e.target, n.kind);
    if e.source == e.target && Injective(env.hash) { KindsAgree(env, all, e.source, holder, n.kind); }
    EdgeGroundedExactly(env, e, all, holder, n.kind, e.evidence != [] ==> holder.Job?);
    assert [n, e] == [n] + [e];
    FittingFirst(env, [n], [e], e.evidence != [] ==> holder.Job?, all);
  }

  lemma CredentialGrounded(env: Env, c: Detail, source: string, job: string, step: string, time: string, focus: string, all: seq<Call>)
    requires c.Credential? && HasKind(env, all, job, NodeKind.Job)
    requires HasKind(env, all, source, if step != "" then NodeKind.Step else NodeKind.Job)
    requires Within(CredentialCalls(env, c, source, job, step != "", time, focus), all)
    ensures Grounded(env, CredentialCalls(env, c, source, job, step != "", time, focus), all, DetailFits(step, Some(c)))
  {
    var calls := CredentialCalls(env, c, source, job, step != "", time, focus);
    var holder := if step != "" then NodeKind.Step else NodeKind.Job;
    if calls == [] {
      NothingGrounded(env, all);
    } else if c.kind.TokenPermission? {
      TokenGrounded(env, c, source, job, step != "", time, focus, all);
      FittingIsGrounded(env, calls, all);
    } else if calls != [] {
      assert calls[0] in calls;
      assert calls == [calls[0], calls[1]];
      if c.kind.SecretInherited? {
        InheritedGrounded(env, calls[0], calls[1], all, holder);
      } else {
        SecretLinkGrounded(env, calls[0], calls[1], all, source, holder, job);
        FittingIsGrounded(env, calls, all);
      }
    }
  }

  lemma ResourceFits(kind: string)
    ensures ResourceTypes(kind).Some? ==>
      var (node, edge) := ResourceTypes(kind).value;
      && MaySource(edge, NodeKind.Job) && MaySource(edge, NodeKind.Step) && MayTarget(edge, node) && MayTarget(EdgeKind.ObservedAfter, node)
  {
  }

  lemma ResourceGrounded(env: Env, r: Detail, source: string, holder: NodeKind, time: string, focus: string, all: seq<Call>)
    requires r.Resource? && HasKind(env, all, source, holder) && (holder.Job? || holder.Step?)
    requires Within(ResourceCalls(env, r, source, time, focus), all)
    ensures Fitting(env, ResourceCalls(env, r, source, time, focus), all)
  {
    var calls := ResourceCalls(env, r, source, time, focus);
    if calls != [] {
      ResourceFits(r.sort);
      assert calls[0] in calls;
      HeldResource(env, calls[0], calls[1], all, holder);
      assert calls == [calls[0], calls[1]];
    }
  }

  lemma HeldResource(env: Env, n: NewNode, e: Call, all: seq<Call>, holder: NodeKind)
    requires n in all && e.EdgeCall? && HasKind(env, all, e.source, holder) && e.target == IdOf(env, n)
    requires MaySource(e.link, holder) && MayTarget(e.link, n.kind)
    ensures Fitting(env, [n, e], all)
  {
    Added(env, n, all);
    NodeAndEdge(env, n, e, all, holder, n.kind);
  }

  lemma GroupGrounded(env: Env, name: string, runner: string, evidence: seq<string>, time: string, focus: string, all: seq<Call>)
    requires HasKind(env, all, runner, NodeKind.Runner) && Within(GroupCalls(env, name, runner, evidence, time, focus), all)
    ensures Fitting(env, GroupCalls(env, name, runner, evidence, time, focus), all)
  {
    var calls := GroupCalls(env, name, runner, evidence, time, focus);
    if calls != [] {
      assert calls[0] in calls;
      HeldResource(env, calls[0], calls[1], all, NodeKind.Runner);
      assert calls == [calls[0], calls[1]];
    }
  }

  lemma RunnerGrounded(env: Env, r: Detail, job: string, evidence: seq<string>, time: string, focus: string, all: seq<Call>)
    requires r.Runner? && HasKind(env, all, job, NodeKind.Job) && Within(RunnerCalls(env, r, job, evidence, time, focus), all)
    ensures Fitting(env, RunnerCalls(env, r, job, evidence, time, focus), all)
  {
    var calls := RunnerCalls(env, r, job, evidence, time, focus);
    assert calls[0] in calls;
    Added(env, calls[0], all);
    FromJob(env, calls[0], calls[1], job, all);
    var group := GroupCalls(env, r.group, IdOf(env, calls[0]), evidence, time, focus);
    assert calls == [calls[0], calls[1]] + group;
    GroupGrounded(env, r.group, IdOf(env, calls[0]), evidence, time, focus, all);
    FittingConcat(env, [calls[0], calls[1]], group, all);
  }

  lemma EligibleGrounded(env: Env, node: string, evidence: seq<string>, time: string, focus: string, name: string, all: seq<Call>)
    requires HasKind(env, all, node, NodeKind.Environment) && Within(EligibleFor(env, node, evidence, time, focus, name), all)
    ensures Fitting(env, EligibleFor(env, node, evidence, time, focus, name), all)
  {
    var pair := EligibleFor(env, node, evidence, time, focus, name);
    assert pair[0] in pair;
    HeldResource(env, pair[0], pair[1], all, NodeKind.Environment);
    assert pair == [pair[0], pair[1]];
  }

  lemma SecretsGrounded(env: Env, names: seq<string>, node: string, evidence: seq<string>, time: string, focus: string, all: seq<Call>)
    requires HasKind(env, all, node, NodeKind.Environment)
    requires Within(Gather(names, EligibleSecret(env, node, evidence, time, focus)), all)
    ensures Fitting(env, Gather(names, EligibleSecret(env, node, evidence, time, focus)), all)
  {
    var each := EligibleSecret(env, node, evidence, time, focus);
    forall name | name in names ensures Fitting(env, each(name), all) {
      GatherWithin(names, each, all, name);
      EligibleGrounded(env, node, evidence, time, focus, name, all);
    }
    FittingGather(env, names, each, all);
  }

  lemma CrossedGrounded(env: Env, e: Detail, node: string, job: string, evidence: seq<string>, time: string, focus: string, all: seq<Call>)
    requires e.Environment? && HasKind(env, all, job, NodeKind.Job) && HasKind(env, all, node, NodeKind.Environment)
    requires Within(CrossedCalls(env, e, node, job, evidence, time, focus), all)
    ensures Fitting(env, CrossedCalls(env, e, node, job, evidence, time, focus), all)
  {
    var calls := CrossedCalls(env, e, node, job, evidence, time, focus);
    if calls != [] {
      var secrets := Gather(e.secrets, EligibleSecret(env, node, evidence, time, focus));
      assert calls == [calls[0]] + secrets;
      EdgeGrounded(env, calls[0], all, NodeKind.Job, NodeKind.Environment);
      SecretsGrounded(env, e.secrets, node, evidence, time, focus, all);
      FittingConcat(env, [calls[0]], secrets, all);
    }
  }

  lemma EnvironmentGrounded(env: Env, e: Detail, job: string, evidence: seq<string>, time: string, focus: string, all: seq<Call>)
    requires e.Environment? && HasKind(env, all, job, NodeKind.Job) && Within(EnvironmentCalls(env, e, job, evidence, time, focus), all)
    ensures Fitting(env, EnvironmentCalls(env, e, job, evidence, time, focus), all)
  {
    var calls := EnvironmentCalls(env, e, job, evidence, time, focus);
    assert calls[0] in calls;
    Added(env, calls[0], all);
    FromJob(env, calls[0], calls[1], job, all);
    var crossed := CrossedCalls(env, e, IdOf(env, calls[0]), job, evidence, time, focus);
    assert calls == [calls[0], calls[1]] + crossed;
    CrossedGrounded(env, e, IdOf(env, calls[0]), job, evidence, time, focus, all);
    FittingConcat(env, [calls[0], calls[1]], crossed, all);
  }

  lemma DetailGrounded(env: Env, x: Exposure, source: string, job: string, evidence: seq<string>, focus: string, all: seq<Call>)
    requires HasKind(env, all, job, NodeKind.Job) && HasKind(env, all, source, if x.step != "" then NodeKind.Step else NodeKind.Job)
    requires Within(DetailCalls(env, x, source, job, evidence, focus), all)
    ensures Grounded(env, DetailCalls(env, x, source, job, evidence, focus), all, DetailFits(x.step, x.detail))
  {
    if x.detail.Some? && x.detail.value.Credential? {
      CredentialGrounded(env, x.detail.value, source, job, x.step, x.time, focus, all);
    } else {
      OtherDetailFitting(env, x, source, job, evidence, focus, all);
      FittingIsGrounded(env, DetailCalls(env, x, source, job, evidence, focus), all);
    }
  }

  lemma OtherDetailFitting(env: Env, x: Exposure, source: string, job: string, evidence: seq<string>, focus: string, all: seq<Call>)
    requires HasKind(env, all, job, NodeKind.Job) && HasKind(env, all, source, if x.step != "" then NodeKind.Step else NodeKind.Job)
    requires x.detail.Some? ==> !x.detail.value.Credential?
    requires Within(DetailCalls(env, x, source, job, evidence, focus), all)
    ensures Fitting(env, DetailCalls(env, x, source, job, evidence, focus), all)
  {
    if x.detail.Some? {
      match x.detail.value {
        case Resource(_, _, _, _) =>
          ResourceGrounded(env, x.detail.value, source, if x.step != "" then NodeKind.Step else NodeKind.Job, x.time, focus, all);
        case Runner(_, _, _, _) => RunnerGrounded(env, x.detail.value, job, evidence, x.time, focus, all);
        case Environment(_, _, _, _) => EnvironmentGrounded(env, x.detail.value, job, evidence, x.time, focus, all);
      }
    }
  }

  lemma ExposureGrounded(env: Env, f: Finding, execution: Execution, fact: Fact, all: seq<Call>)
    requires Within(ExposureFact(env, f, execution, fact), all)
    ensures Grounded(env, ExposureFact(env, f, execution, fact), all, ExposureFits(f, execution, fact))
  {
    var calls := ExposureFact(env, f, execution, fact);
    if calls == [] {
      NothingGrounded(env, all);
    } else {
      var x, evidence := fact.body.exposure, fact.evidence;
      var job, step := JobNode(env, execution, evidence, f.revision), StepNode(x.step, evidence, f.revision);
      assert calls[0] == job;
      Added(env, job, all);
      if x.step != "" {
        assert calls[1] == step;
        var detail := DetailCalls(env, x, IdOf(env, step), IdOf(env, job), evidence, f.revision);
        assert calls == [job, step, calls[2]] + detail;
        Added(env, step, all);
        InJobGrounded(env, job, step, calls[2], all);
        DetailGrounded(env, x, IdOf(env, step), IdOf(env, job), evidence, f.revision, all);
        FittingFirst(env, [job, step, calls[2]], detail, DetailFits(x.step, x.detail), all);
      } else {
        var detail := DetailCalls(env, x, IdOf(env, job), IdOf(env, job), evidence, f.revision);
        assert calls == [job] + detail;
        DetailGrounded(env, x, IdOf(env, job), IdOf(env, job), evidence, f.revision, all);
        FittingFirst(env, [job], detail, DetailFits(x.step, x.detail), all);
      }
    }
  }

  // ----- Findings -----

  lemma FactEdgeGrounded<K>(env: Env, link: EdgeKind, source: string, target: string, facts: map<K, Fact>, key: K, focus: string,
                            all: seq<Call>, from: NodeKind, to: NodeKind)
    requires HasKind(env, all, source, from) && HasKind(env, all, target, to) && MaySource(link, from) && MayTarget(link, to)
    ensures Fitting(env, FactEdge(link, source, target, facts, key, focus), all)
  {
    var calls := FactEdge(link, source, target, facts, key, focus);
    if calls != [] { EdgeGrounded(env, calls[0], all, from, to); }
  }

  lemma LastStepGrounded(env: Env, f: Finding, job: string, all: seq<Call>)
    requires HasKind(env, all, job, NodeKind.Job) && Within(LastStep(env, f, job), all)
    ensures Fitting(env, LastStep(env, f, job), all)
    ensures HasSubject(env, all, IdOf(env, StepNode(f.step, [], f.revision)))
  {
    var pair := LastStep(env, f, job);
    assert pair[0] in pair;
    FromJob(env, pair[0], pair[1], job, all);
    assert pair == [pair[0], pair[1]];
    Added(env, pair[0], all);
    SubjectOfKind(env, all, IdOf(env, pair[0]), NodeKind.Step);
  }

  /** A node, the edges beside it, and what hangs below it. */
  lemma ChainGrounded(env: Env, node: NewNode, edge: seq<Call>, rest: seq<Call>, all: seq<Call>)
    requires Fitting(env, edge, all) && Fitting(env, rest, all)
    ensures Fitting(env, [node] + edge + rest, all)
  {
    FittingConcat(env, [node], edge, all);
    FittingConcat(env, [node] + edge, rest, all);
  }

  lemma JobGrounded(env: Env, idx: Index, f: Finding, e: Execution, attempt: string, all: seq<Call>)
    requires HasKind(env, all, attempt, NodeKind.RunAttempt) && Within(JobNodes(env, idx, f, e, attempt).calls, all)
    ensures Fitting(env, JobNodes(env, idx, f, e, attempt).calls, all)
    ensures HasSubject(env, all, JobNodes(env, idx, f, e, attempt).target)
  {
    var p := JobNodes(env, idx, f, e, attempt);
    var node := p.calls[0];
    assert node in p.calls;
    var edge := FactEdge(EdgeKind.JobExecutedInAttempt, attempt, IdOf(env, node), idx.jobFacts, env.jobText(e), f.revision);
    var rest := if f.step != "" then LastStep(env, f, IdOf(env, node)) else [];
    assert p.calls == [node] + edge + rest;
    Added(env, node, all);
    FactEdgeGrounded(env, EdgeKind.JobExecutedInAttempt, attempt, IdOf(env, node), idx.jobFacts, env.jobText(e), f.revision, all,
                     NodeKind.RunAttempt, NodeKind.Job);
    if f.step != "" {
      LastStepGrounded(env, f, IdOf(env, node), all);
    } else {
      SubjectOfKind(env, all, IdOf(env, node), NodeKind.Job);
      NothingGrounded(env, all);
    }
    ChainGrounded(env, node, edge, rest, all);
  }

  lemma AttemptGrounded(env: Env, idx: Index, f: Finding, a: Attempt, run: string, all: seq<Call>)
    requires HasKind(env, all, run, NodeKind.WorkflowRun) && Within(AttemptNodes(env, idx, f, a, run).calls, all)
    ensures Fitting(env, AttemptNodes(env, idx, f, a, run).calls, all)
    ensures HasSubject(env, all, AttemptNodes(env, idx, f, a, run).target)
  {
    var p := AttemptNodes(env, idx, f, a, run);
    var node := p.calls[0];
    assert node in p.calls;
    var edge := FactEdge(EdgeKind.AttemptOfRun, IdOf(env, node), run, idx.attemptFacts, AttemptKey(a), f.revision);
    var e := Execution(a.repository, a.run, a.attempt, f.job);
    var rest := if f.job > 0 then JobNodes(env, idx, f, e, IdOf(env, node)).calls else [];
    assert p.calls == [node] + edge + rest;
    Added(env, node, all);
    FactEdgeGrounded(env, EdgeKind.AttemptOfRun, IdOf(env, node), run, idx.attemptFacts, AttemptKey(a), f.revision, all,
                     NodeKind.RunAttempt, NodeKind.WorkflowRun);
    if f.job > 0 {
      JobGrounded(env, idx, f, e, IdOf(env, node), all);
    } else {
      SubjectOfKind(env, all, IdOf(env, node), NodeKind.RunAttempt);
      NothingGrounded(env, all);
    }
    ChainGrounded(env, node, edge, rest, all);
  }

  lemma RunGrounded(env: Env, idx: Index, f: Finding, repository: int, parent: string, all: seq<Call>)
    requires HasKind(env, all, parent, NodeKind.Repository) && Within(RunNodes(env, idx, f, repository, parent).calls, all)
    ensures Fitting(env, RunNodes(env, idx, f, repository, parent).calls, all)
    ensures HasSubject(env, all, RunNodes(env, idx, f, repository, parent).target)
  {
    var p := RunNodes(env, idx, f, repository, parent);
    var node := p.calls[0];
    assert node in p.calls;
    var edge := FactEdge(EdgeKind.RunInRepository, parent, IdOf(env, node), idx.runFacts, RunKey(repository, f.run), f.revision);
    var a := Attempt(repository, f.run, f.attempt % 0x1_0000_0000);
    var rest := if f.attempt > 0 then AttemptNodes(env, idx, f, a, IdOf(env, node)).calls else [];
    assert p.calls == [node] + edge + rest;
    Added(env, node, all);
    FactEdgeGrounded(env, EdgeKind.RunInRepository, parent, IdOf(env, node), idx.runFacts, RunKey(repository, f.run), f.revision, all,
                     NodeKind.Repository, NodeKind.WorkflowRun);
    if f.attempt > 0 {
      AttemptGrounded(env, idx, f, a, IdOf(env, node), all);
    } else {
      SubjectOfKind(env, all, IdOf(env, node), NodeKind.WorkflowRun);
      NothingGrounded(env, all);
    }
    ChainGrounded(env, node, edge, rest, all);
  }

  lemma SubjectGrounded(env: Env, idx: Index, f: Finding, repository: int, all: seq<Call>)
    requires Within(SubjectNodes(env, idx, f, repository).calls, all)
    ensures Fitting(env, SubjectNodes(env, idx, f, repository).calls, all)
    ensures HasSubject(env, all, SubjectNodes(env, idx, f, repository).target)
  {
    var p := SubjectNodes(env, idx, f, repository);
    var node := p.calls[0];
    assert node in p.calls;
    Added(env, node, all);
    if f.run > 0 {
      var rest := RunNodes(env, idx, f, repository, IdOf(env, node)).calls;
      assert p.calls == [node] + rest;
      RunGrounded(env, idx, f, repository, IdOf(env, node), all);
      FittingConcat(env, [node], rest, all);
    } else {
      SubjectOfKind(env, all, IdOf(env, node), NodeKind.Repository);
    }
  }

  ghost predicate Sound(env: Env, p: Projected, all: seq<Call>, fits: bool) {
    Grounded(env, p.calls, all, fits) && (p.target != "" ==> HasSubject(env, all, p.target))
  }

  lemma FactsGrounded(env: Env, facts: seq<Fact>, project: Fact -> Projected, all: seq<Call>, fits: Fact -> bool)
    requires Within(Gather(facts, CallsOf(project)), all)
    requires forall fact :: fact in facts && Within(project(fact).calls, all) ==> Sound(env, project(fact), all, fits(fact))
    ensures Grounded(env, Gather(facts, CallsOf(project)), all, forall fact :: fact in facts ==> fits(fact))
    ensures forall t :: t in Gather(facts, TargetOf(project)) ==> HasSubject(env, all, t)
  {
    forall fact | fact in facts ensures Sound(env, project(fact), all, fits(fact)) { GatherWithin(facts, CallsOf(project), all, fact); }
    GroundedEach(env, facts, CallsOf(project), all, fits);
    forall t | t in Gather(facts, TargetOf(project)) ensures HasSubject(env, all, t) {
      GatherMember(facts, TargetOf(project), t);
      var fact :| fact in facts && t in TargetOf(project)(fact);
    }
  }

  lemma ActionSound(env: Env, fact: Fact, f: Finding, repository: int, all: seq<Call>)
    requires Within(ActionOf(env, f, repository)(fact).calls, all)
    ensures var p := ActionOf(env, f, repository)(fact);
      Fitting(env, p.calls, all) && (p.target != "" ==> HasSubject(env, all, p.target))
  {
    if Concerns(fact, f, repository) && fact.body.Acts? {
      RuntimeGrounded(env, fact, f.revision, all);
      ActionServes(env, all, RuntimeAction(env, fact, f.revision).target);
    }
  }

  lemma DependencySound(env: Env, idx: Index, fact: Fact, f: Finding, repository: int, all: seq<Call>)
    requires Within(DependencyOf(env, idx, f, repository)(fact).calls, all)
    ensures Sound(env, DependencyOf(env, idx, f, repository)(fact), all, ConcernedFits(idx, f, repository, fact))
  {
    if Concerns(fact, f, repository) {
      DependencyGrounded(env, idx, fact, f.revision, all);
      DependencyServes(env, idx, fact, f.revision, all);
    }
  }

  ghost predicate AllDependenciesFit(idx: Index, f: Finding, repository: int) {
    forall fact :: fact in idx.dependencies ==> DependenciesFit(idx, f, repository)(fact)
  }

  lemma ActionsGrounded(env: Env, idx: Index, f: Finding, repository: int, all: seq<Call>)
    requires Within(Gather(idx.actions, CallsOf(ActionOf(env, f, repository))), all)
    ensures Fitting(env, Gather(idx.actions, CallsOf(ActionOf(env, f, repository))), all)
    ensures forall t :: t in Gather(idx.actions, TargetOf(ActionOf(env, f, repository))) ==> HasSubject(env, all, t)
  {
    var act := ActionOf(env, f, repository);
    forall fact | fact in idx.actions
      ensures Fitting(env, CallsOf(act)(fact), all) && (act(fact).target != "" ==> HasSubject(env, all, act(fact).target))
    {
      GatherWithin(idx.actions, CallsOf(act), all, fact);
      ActionSound(env, fact, f, repository, all);
    }
    FittingGather(env, idx.actions, CallsOf(act), all);
    forall t | t in Gather(idx.actions, TargetOf(act)) ensures HasSubject(env, all, t) {
      GatherMember(idx.actions, TargetOf(act), t);
      var fact :| fact in idx.actions && t in TargetOf(act)(fact);
    }
  }

  lemma DependenciesGrounded(env: Env, idx: Index, f: Finding, repository: int, all: seq<Call>)
    requires Within(Gather(idx.dependencies, CallsOf(DependencyOf(env, idx, f, repository))), all)
    ensures Grounded(env, Gather(idx.dependencies, CallsOf(DependencyOf(env, idx, f, repository))), all, AllDependenciesFit(idx, f, repository))
    ensures forall t :: t in Gather(idx.dependencies, TargetOf(DependencyOf(env, idx, f, repository))) ==> HasSubject(env, all, t)
  {
    var depend := DependencyOf(env, idx, f, repository);
    var fits := DependenciesFit(idx, f, repository);
    forall fact | fact in idx.dependencies && Within(depend(fact).calls, all) ensures Sound(env, depend(fact), all, fits(fact)) {
      DependencySound(env, idx, fact, f, repository, all);
    }
    FactsGrounded(env, idx.dependencies, depend, all, fits);
  }

  lemma FactCallsGrounded(env: Env, idx: Index, f: Finding, repository: int, all: seq<Call>)
    requires Within(FactCalls(env, idx, f, repository), all)
    ensures Grounded(env, FactCalls(env, idx, f, repository), all, AllDependenciesFit(idx, f, repository))
    ensures forall t :: t in FactTargets(env, idx, f, repository) ==> HasSubject(env, all, t)
  {
    var act, depend := ActionOf(env, f, repository), DependencyOf(env, idx, f, repository);
    ActionsGrounded(env, idx, f, repository, all);
    DependenciesGrounded(env, idx, f, repository, all);
    FittingFirst(env, Gather(idx.actions, CallsOf(act)), Gather(idx.dependencies, CallsOf(depend)), AllDependenciesFit(idx, f, repository), all);
    SortUniqueIsTheSet(Gather(idx.actions, TargetOf(act)) + Gather(idx.dependencies, TargetOf(depend)));
  }

  lemma AboutEdge(env: Env, f: Finding, target: string, all: seq<Call>)
    requires HasKind(env, all, IdOf(env, FindingNode(f)), NodeKind.Finding) && HasSubject(env, all, target)
    ensures Fitting(env, [About(env, f, target)], all)
  {
    var k := KindOfSubject(env, all, target);
    EdgeGrounded(env, About(env, f, target), all, NodeKind.Finding, k);
  }

  lemma KindOfSubject(env: Env, all: seq<Call>, id: string) returns (k: NodeKind)
    requires HasSubject(env, all, id)
    ensures HasKind(env, all, id, k) && MayTarget(EdgeKind.FindingAbout, k)
  {
    k :| HasKind(env, all, id, k) && MayTarget(EdgeKind.FindingAbout, k);
  }

  lemma TargetsGrounded(env: Env, f: Finding, subject: string, targets: seq<string>, all: seq<Call>)
    requires HasKind(env, all, IdOf(env, FindingNode(f)), NodeKind.Finding) && forall t :: t in targets ==> HasSubject(env, all, t)
    ensures Fitting(env, Gather(targets, AboutTarget(env, f, subject)), all)
  {
    forall t | t in targets ensures Fitting(env, AboutTarget(env, f, subject)(t), all) { AboutEdge(env, f, t, all); }
    FittingGather(env, targets, AboutTarget(env, f, subject), all);
  }

  ghost predicate AllExposuresFit(idx: Index, f: Finding, repository: int) {
    Exposed(f) ==> forall fact :: fact in idx.exposures ==> ExposuresFit(f, ExecutionOf(f, repository))(fact)
  }

  lemma ExposuresGrounded(env: Env, idx: Index, f: Finding, repository: int, all: seq<Call>)
    requires Within(ExposuresOf(env, idx, f, repository), all)
    ensures Grounded(env, ExposuresOf(env, idx, f, repository), all, AllExposuresFit(idx, f, repository))
  {
    if Exposed(f) {
      var execution := ExecutionOf(f, repository);
      var each, fits := ExposureCalls(env, f, execution), ExposuresFit(f, execution);
      forall fact | fact in idx.exposures ensures Grounded(env, each(fact), all, fits(fact)) {
        GatherWithin(idx.exposures, each, all, fact);
        ExposureGrounded(env, f, execution, fact, all);
      }
      GroundedEach(env, idx.exposures, each, all, fits);
    } else {
      NothingGrounded(env, all);
    }
  }

  lemma AboutGrounded(env: Env, idx: Index, f: Finding, repository: int, all: seq<Call>)
    requires Within(SubjectCalls(env, idx, f, repository), all) && HasKind(env, all, IdOf(env, FindingNode(f)), NodeKind.Finding)
    ensures Grounded(env, SubjectCalls(env, idx, f, repository), all, AllDependenciesFit(idx, f, repository) && AllExposuresFit(idx, f, repository))
  {
    var subject := SubjectNodes(env, idx, f, repository);
    var about := if f.evidence != [] then [About(env, f, subject.target)] else [];
    var facts, exposures := FactCalls(env, idx, f, repository), ExposuresOf(env, idx, f, repository);
    var targets := Gather(FactTargets(env, idx, f, repository), AboutTarget(env, f, subject.target));
    WithinPieces(subject.calls, about, facts, targets, exposures, all);
    SubjectGrounded(env, idx, f, repository, all);
    AboutEdge(env, f, subject.target, all);
    FactCallsGrounded(env, idx, f, repository, all);
    TargetsGrounded(env, f, subject.target, FactTargets(env, idx, f, repository), all);
    ExposuresGrounded(env, idx, f, repository, all);
    PiecesGrounded(env, subject.calls, about, facts, AllDependenciesFit(idx, f, repository), targets, exposures, AllExposuresFit(idx, f, repository), all);
  }

  lemma PiecesGrounded(env: Env, p: seq<Call>, q: seq<Call>, r: seq<Call>, fits: bool, s: seq<Call>, t: seq<Call>, fits': bool, all: seq<Call>)
    requires Fitting(env, p, all) && Fitting(env, q, all) && Grounded(env, r, all, fits)
    requires Fitting(env, s, all) && Grounded(env, t, all, fits')
    ensures Grounded(env, p + q + r + s + t, all, fits && fits')
  {
    FittingConcat(env, p, q, all);
    FittingFirst(env, p + q, r, fits, all);
    FittingLast(env, p + q + r, s, fits, all);
    GroundedBoth(env, p + q + r + s, fits, t, fits', all);
  }

  lemma WithinPieces(p: seq<Call>, q: seq<Call>, r: seq<Call>, s: seq<Call>, t: seq<Call>, all: seq<Call>)
    requires Within(p + q + r + s + t, all)
    ensures Within(p, all) && Within(q, all) && Within(r, all) && Within(s, all) && Within(t, all)
  {
  }

  lemma SupportGrounded(env: Env, f: Finding, e: string, all: seq<Call>)
    requires HasKind(env, all, IdOf(env, FindingNode(f)), NodeKind.Finding) && Within(SupportedBy(env, f, e), all)
    ensures Fitting(env, SupportedBy(env, f, e), all)
  {
    var pair := SupportedBy(env, f, e);
    assert pair[0] in pair;
    HeldResource(env, pair[0], pair[1], all, NodeKind.Finding);
    assert pair == [pair[0], pair[1]];
  }

  lemma EvidenceGrounded(env: Env, f: Finding, all: seq<Call>)
    requires Within(EvidenceCalls(env, f), all)
    ensures HasKind(env, all, IdOf(env, FindingNode(f)), NodeKind.Finding) && Fitting(env, EvidenceCalls(env, f), all)
  {
    var calls, support := EvidenceCalls(env, f), Gather(f.evidence, Supported(env, f));
    assert calls[0] in calls && forall c :: c in support ==> c in calls;
    Added(env, FindingNode(f), all);
    forall e | e in f.evidence ensures Fitting(env, Supported(env, f)(e), all) {
      GatherWithin(f.evidence, Supported(env, f), all, e);
      SupportGrounded(env, f, e, all);
    }
    FittingGather(env, f.evidence, Supported(env, f), all);
    FittingConcat(env, [FindingNode(f)], support, all);
  }

  /** The edges of a finding fit exactly when the facts do that it is projected with. */
  lemma FindingGrounded(env: Env, idx: Index, f: Finding, repository: Option<int>, all: seq<Call>)
    requires Within(FindingCalls(env, idx, f, repository), all)
    ensures Grounded(env, FindingCalls(env, idx, f, repository), all, repository.Some? ==> FindingFits(idx, f, repository.value))
  {
    var evidence, about := EvidenceCalls(env, f), AboutCalls(env, idx, f, repository);
    assert Within(evidence, all) && Within(about, all);
    EvidenceGrounded(env, f, all);
    if repository.Some? {
      AboutGrounded(env, idx, f, repository.value, all);
      FitsInParts(idx, f, repository.value);
      FittingFirst(env, evidence, about, FindingFits(idx, f, repository.value), all);
    } else {
      assert evidence + about == evidence;
      FittingIsGrounded(env, evidence, all);
    }
  }

  lemma FitsInParts(idx: Index, f: Finding, repository: int)
    ensures FindingFits(idx, f, repository) <==> AllDependenciesFit(idx, f, repository) && AllExposuresFit(idx, f, repository)
  {
    if AllDependenciesFit(idx, f, repository) {
      forall fact | fact in idx.dependencies ensures ConcernedFits(idx, f, repository, fact) {
        assert DependenciesFit(idx, f, repository)(fact);
      }
    }
    if AllExposuresFit(idx, f, repository) && Exposed(f) {
      forall fact | fact in idx.exposures ensures ExposureFits(f, ExecutionOf(f, repository), fact) {
        assert ExposuresFit(f, ExecutionOf(f, repository))(fact);
      }
    }
  }

  predicate ResolvedFits(idx: Index, r: Resolved) { r.repository.Some? ==> FindingFits(idx, r.finding, r.repository.value) }

  function FitsOf(idx: Index): Resolved -> bool { r => ResolvedFits(idx, r) }

  lemma AllGrounded(env: Env, idx: Index, resolved: seq<Resolved>)
    ensures var all := Gather(resolved, CallsFor(env, idx));
      Grounded(env, all, all, forall r :: r in resolved ==> FitsOf(idx)(r))
  {
    var each := CallsFor(env, idx);
    var all := Gather(resolved, each);
    forall r | r in resolved ensures Grounded(env, each(r), all, FitsOf(idx)(r)) {
      GatherWithin(resolved, each, all, r);
      FindingGrounded(env, idx, r.finding, r.repository, all);
    }
    GroundedEach(env, resolved, each, all, FitsOf(idx));
  }
}
