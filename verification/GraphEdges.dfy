/** Which edges the evidence graph holds, told from the findings and the facts (internal/analyze/graph.go): an edge of a
    kind is there exactly when a finding or a fact says so, and cites exactly the evidence of those that say it. */
module GraphEdges {
  import opened Orders
  import opened Decimal
  import opened Identity
  import opened GraphKinds
  import opened Graph
  import opened GraphProjection
  import opened GraphTheorems
  import opened GraphFits
  import opened GraphClosure
  import opened GraphRules

  // ----- Identities -----

  function RepositoryId(env: Env, repository: int): string { NodeId(env, NodeKind.Repository, ["repository", Itoa(repository)]) }

  function RunId(env: Env, repository: int, run: int): string { NodeId(env, NodeKind.WorkflowRun, ["run", Itoa(repository), Itoa(run)]) }

  function AttemptId(env: Env, a: Attempt): string {
    NodeId(env, NodeKind.RunAttempt, ["attempt", Itoa(a.repository), Itoa(a.run), Itoa(a.attempt)])
  }

  function JobId(env: Env, e: Execution): string { NodeId(env, NodeKind.Job, ["job", env.jobText(e)]) }

  function StepId(env: Env, key: string): string { NodeId(env, NodeKind.Step, ["step", key]) }

  function FindingId(env: Env, f: Finding): string { NodeId(env, NodeKind.Finding, ["finding", f.revision]) }

  function ObjectNodeId(env: Env, kind: NodeKind, tag: string, repository: string, path: string, o: ObjectId): string {
    NodeId(env, kind, [tag, repository, path, o.algorithm, o.value])
  }

  function CommitId(env: Env, repository: string, path: string, o: ObjectId): string {
    ObjectNodeId(env, NodeKind.ActionCommit, "action-commit", repository, path, o)
  }

  function PackageId(env: Env, repository: string, path: string, d: Digest): string {
    NodeId(env, NodeKind.ImmutableActionPackage, ["immutable-action-package", repository, path, d.subject, d.algorithm, d.value])
  }

  function ActionRepositoryId(env: Env, repository: string): string {
    NodeId(env, NodeKind.ActionRepository, ["action-repository", repository])
  }

  function SecretId(env: Env, name: Option<string>, fallback: string): string {
    NodeId(env, NodeKind.SecretMetadata, ["secret-metadata", if name.Some? then name.value else fallback])
  }

  function EnvironmentId(env: Env, name: string): string { NodeId(env, NodeKind.Environment, ["environment", name]) }

  // ----- What one edge may be -----

  predicate Joins(c: Call, source: string, target: string)
    requires c.EdgeCall?
  {
    c.source == source && c.target == target
  }

  /** An observation, under no rule. */
  predicate Seen(c: Call, evidence: seq<string>, time: string, focus: string)
    requires c.EdgeCall?
  {
    c.evidence == evidence && c.time == time && !c.inferred && c.rule == "" && c.focus == focus
  }

  predicate Inferred(c: Call, rule: string, evidence: seq<string>, time: string, focus: string)
    requires c.EdgeCall?
  {
    c.evidence == evidence && c.time == time && c.inferred && c.rule == rule && c.focus == focus
  }

  // ----- Runtime actions -----

  /** The commit if it is known, else the package, else the repository. */
  function ActionTarget(env: Env, o: Observation): string {
    if o.source.Some? then CommitId(env, o.repository, o.subpath, o.source.value)
    else if o.package.Some? then PackageId(env, o.repository, o.subpath, o.package.value)
    else ActionRepositoryId(env, o.repository)
  }

  predicate IsExact(env: Env, o: Observation, id: string) {
    || (o.source.Some? && id == CommitId(env, o.repository, o.subpath, o.source.value))
    || (o.package.Some? && id == PackageId(env, o.repository, o.subpath, o.package.value))
  }

  predicate ActionSays(env: Env, fact: Fact, focus: string, c: Call) {
    && fact.body.Acts? && c.EdgeCall? && Seen(c, fact.evidence, fact.body.action.time, focus)
    && var o := fact.body.action;
      match c.link
      case PackageSourceCommit =>
        o.source.Some? && o.package.Some?
        && Joins(c, PackageId(env, o.repository, o.subpath, o.package.value), CommitId(env, o.repository, o.subpath, o.source.value))
      case RefResolvedTo =>
        o.declaredRef != "" && IsExact(env, o, c.target)
        && c.source == NodeId(env, NodeKind.ActionRef, ["action-ref", o.repository, o.subpath, o.declaredRef])
      case JobPreparedAction => o.step.None? && o.downloaded && Joins(c, JobId(env, o.execution), ActionTarget(env, o))
      case StepInJob => o.step.Some? && Joins(c, JobId(env, o.execution), StepId(env, o.step.value))
      case StepDownloadedAction => o.step.Some? && o.downloaded && Joins(c, StepId(env, o.step.value), ActionTarget(env, o))
      case StepExecutedAction => o.step.Some? && o.executed && Joins(c, StepId(env, o.step.value), ActionTarget(env, o))
      case _ => false
  }

  lemma ActionSaysExactly(env: Env, fact: Fact, focus: string, c: Call)
    requires c.EdgeCall?
    ensures c in RuntimeAction(env, fact, focus).calls <==> ActionSays(env, fact, focus, c)
    ensures RuntimeAction(env, fact, focus).target == if fact.body.Acts? then ActionTarget(env, fact.body.action) else ""
  {
    if fact.body.Acts? {
      var o := fact.body.action;
      var targets := ExactTargets(env, o, fact.evidence, focus).0;
      TargetsAre(env, o, fact.evidence, focus);
      ActionCallsAre(env, fact, focus, c);
      ActionInParts(env, fact, targets, focus, c);
    }
  }

  lemma ActionCallsAre(env: Env, fact: Fact, focus: string, c: Call)
    requires c.EdgeCall? && fact.body.Acts?
    ensures var o := fact.body.action;
      c in RuntimeAction(env, fact, focus).calls <==>
        || ExactSays(env, o, fact.evidence, focus, c) || RefSays(env, o, ExactTargets(env, o, fact.evidence, focus).0, fact.evidence, focus, c)
        || StepSays(env, o, RuntimeAction(env, fact, focus).target, fact.evidence, focus, c)
  {
    var o, evidence := fact.body.action, fact.evidence;
    var (targets, exact) := ExactTargets(env, o, evidence, focus);
    var p := RuntimeAction(env, fact, focus);
    ExactIs(env, o, evidence, focus, c);
    RefIs(env, o, targets, evidence, focus, c);
    StepIs(env, o, p.target, evidence, focus, c);
    InPieces([ActionRepositoryNode(o.repository, evidence, focus)], exact, RefCalls(env, o, targets, evidence, focus),
             StepCalls(env, o, p.target, evidence, focus), c);
  }

  lemma ActionInParts(env: Env, fact: Fact, targets: seq<string>, focus: string, c: Call)
    requires c.EdgeCall? && fact.body.Acts? && (c.target in targets <==> IsExact(env, fact.body.action, c.target))
    ensures var o := fact.body.action;
      ActionSays(env, fact, focus, c) <==>
        || ExactSays(env, o, fact.evidence, focus, c) || RefSays(env, o, targets, fact.evidence, focus, c)
        || StepSays(env, o, ActionTarget(env, o), fact.evidence, focus, c)
  {
  }

  lemma InPieces(p: seq<Call>, q: seq<Call>, r: seq<Call>, s: seq<Call>, c: Call)
    ensures c in p + q + r + s <==> c in p || c in q || c in r || c in s
  {
  }

  lemma TargetsAre(env: Env, o: Observation, evidence: seq<string>, focus: string)
    ensures var targets := ExactTargets(env, o, evidence, focus).0;
      && (forall id :: id in targets <==> IsExact(env, o, id))
      && (if targets == [] then o.source.None? && o.package.None? else targets[0] == ActionTarget(env, o))
  {
    var targets := ExactTargets(env, o, evidence, focus).0;
    var commit := if o.source.Some? then [CommitId(env, o.repository, o.subpath, o.source.value)] else [];
    var package := if o.package.Some? then [PackageId(env, o.repository, o.subpath, o.package.value)] else [];
    assert |CommitNode(o, evidence, focus)| == |commit| && |PackageNodes(o, evidence, focus)| == |package|;
    assert targets == commit + package;
  }

  predicate ExactSays(env: Env, o: Observation, evidence: seq<string>, focus: string, c: Call)
    requires c.EdgeCall?
  {
    && c.link.PackageSourceCommit? && o.source.Some? && o.package.Some? && Seen(c, evidence, o.time, focus)
    && Joins(c, PackageId(env, o.repository, o.subpath, o.package.value), CommitId(env, o.repository, o.subpath, o.source.value))
  }

  lemma ExactIs(env: Env, o: Observation, evidence: seq<string>, focus: string, c: Call)
    requires c.EdgeCall?
    ensures c in ExactTargets(env, o, evidence, focus).1 <==> ExactSays(env, o, evidence, focus, c)
  {
    var commit, package := CommitNode(o, evidence, focus), PackageNodes(o, evidence, focus);
    assert forall n: Call :: n in commit + package ==> n.NodeCall?;
  }

  predicate RefSays(env: Env, o: Observation, targets: seq<string>, evidence: seq<string>, focus: string, c: Call)
    requires c.EdgeCall?
  {
    && c.link.RefResolvedTo? && o.declaredRef != "" && c.target in targets && Seen(c, evidence, o.time, focus)
    && c.source == NodeId(env, NodeKind.ActionRef, ["action-ref", o.repository, o.subpath, o.declaredRef])
  }

  lemma RefIs(env: Env, o: Observation, targets: seq<string>, evidence: seq<string>, focus: string, c: Call)
    requires c.EdgeCall?
    ensures c in RefCalls(env, o, targets, evidence, focus) <==> RefSays(env, o, targets, evidence, focus, c)
  {
    var ref := NodeId(env, NodeKind.ActionRef, ["action-ref", o.repository, o.subpath, o.declaredRef]);
    var f := RefEdge(ref, evidence, o.time, focus);
    GatherMember(targets, f, c);
    if c.target in targets { assert f(c.target) == [Observed(EdgeKind.RefResolvedTo, ref, c.target, evidence, o.time, focus)]; }
  }

  predicate StepSays(env: Env, o: Observation, target: string, evidence: seq<string>, focus: string, c: Call)
    requires c.EdgeCall?
  {
    && Seen(c, evidence, o.time, focus)
    && match c.link
       case JobPreparedAction => o.step.None? && o.downloaded && Joins(c, JobId(env, o.execution), target)
       case StepInJob => o.step.Some? && Joins(c, JobId(env, o.execution), StepId(env, o.step.value))
       case StepDownloadedAction => o.step.Some? && o.downloaded && Joins(c, StepId(env, o.step.value), target)
       case StepExecutedAction => o.step.Some? && o.executed && Joins(c, StepId(env, o.step.value), target)
       case _ => false
  }

  lemma StepIs(env: Env, o: Observation, target: string, evidence: seq<string>, focus: string, c: Call)
    requires c.EdgeCall?
    ensures c in StepCalls(env, o, target, evidence, focus) <==> StepSays(env, o, target, evidence, focus, c)
  {
  }

  // ----- Dependencies -----

  function CallerId(env: Env, d: Dependency): string
    requires HasCaller(d)
  {
    if FromAttempt(d) then AttemptId(env, d.attempt.value)
    else if FromAction(d) then
      ObjectNodeId(env, NodeKind.ActionDefinition, "action-definition", d.callerRepository, d.callerPath, d.callerAction.value)
    else if d.callerWorkflow.Some? then
      ObjectNodeId(env, NodeKind.WorkflowDefinition, "workflow-definition", d.callerRepository, d.callerPath, d.callerWorkflow.value)
    else NodeId(env, NodeKind.WorkflowDefinition, ["workflow-definition-unbound", d.callerRepository, d.callerPath, d.basis])
  }

  /** The called workflow if it is known, else the action, else the package. */
  function IdentityId(env: Env, d: Dependency): string
    requires Identified(d)
  {
    if d.targetWorkflow.Some? then
      ObjectNodeId(env, NodeKind.ReusableWorkflowDefinition, "reusable-workflow-definition", d.targetRepository, d.targetPath, d.targetWorkflow.value)
    else if d.targetAction.Some? && d.targetKind == LOCAL_ACTION then
      ObjectNodeId(env, NodeKind.ActionDefinition, "action-definition", d.targetRepository, d.targetPath, d.targetAction.value)
    else if d.targetAction.Some? then CommitId(env, d.targetRepository, d.targetPath, d.targetAction.value)
    else PackageId(env, d.targetRepository, d.targetPath, d.package.value)
  }

  function DeclaredRefId(env: Env, d: Dependency): string {
    NodeId(env, NodeKind.ActionRef, ["dependency-ref", d.targetKind, d.targetRepository, d.targetPath, d.declaredRef])
  }

  /** What the caller points at. */
  function DeclaredId(env: Env, d: Dependency): string {
    if ByRef(d) then DeclaredRefId(env, d)
    else if Identified(d) then IdentityId(env, d)
    else ActionRepositoryId(env, d.targetRepository)
  }

  predicate DependencySays(env: Env, fact: Fact, focus: string, c: Call) {
    && fact.body.Depends? && HasCaller(fact.body.dependency) && c.EdgeCall?
    && Seen(c, fact.evidence, fact.body.dependency.time, focus)
    && var d := fact.body.dependency;
      match c.link
      case WorkflowDeclaredAction => d.relation.WorkflowDeclaredAction? && Joins(c, CallerId(env, d), DeclaredId(env, d))
      case WorkflowCalledWorkflow => d.relation.WorkflowCalledWorkflow? && Joins(c, CallerId(env, d), DeclaredId(env, d))
      case ActionContainsAction => d.relation.ActionContainsAction? && Joins(c, CallerId(env, d), DeclaredId(env, d))
      case LocalActionResolvedTo => d.relation.LocalActionResolvedTo? && Joins(c, CallerId(env, d), DeclaredId(env, d))
      case RefResolvedTo => ByRef(d) && Identified(d) && Joins(c, DeclaredRefId(env, d), IdentityId(env, d))
      case RunInstantiatedWorkflow =>
        && d.basis == HISTORICAL_AT_RUN && d.callerWorkflow.Some? && d.execution.Some?
        && Joins(c, RunId(env, d.execution.value.repository, d.execution.value.run), CallerId(env, d))
      case _ => false
  }

  /** The node a dependency stands for: its exact target, and else what the caller points at. */
  function DependencyTargetId(env: Env, d: Dependency): string { if Identified(d) then IdentityId(env, d) else DeclaredId(env, d) }

  lemma NotEmpty(env: Env, kind: NodeKind, identity: seq<string>)
    ensures NodeId(env, kind, identity) != ""
  {
    IdIsNotEmpty(env, NodeCall(kind, "", identity, [], ""));
  }

  lemma CallerIs(env: Env, d: Dependency, evidence: seq<string>, focus: string)
    ensures DependencySource(d, evidence, focus).Some? <==> HasCaller(d)
    ensures HasCaller(d) ==> IdOf(env, DependencySource(d, evidence, focus).value) == CallerId(env, d)
  {
  }

  lemma ExactTargetIs(env: Env, d: Dependency, evidence: seq<string>, focus: string)
    ensures ExactTarget(d, evidence, focus).Some? <==> Identified(d)
    ensures Identified(d) ==> IdOf(env, ExactTarget(d, evidence, focus).value) == IdentityId(env, d) != ""
  {
    if Identified(d) { IdIsNotEmpty(env, ExactTarget(d, evidence, focus).value); }
  }

  lemma TargetIs(env: Env, d: Dependency, evidence: seq<string>, focus: string)
    ensures var t := DependencyTarget(env, d, evidence, focus);
      && t.target == DeclaredId(env, d) != ""
      && t.exact == (if Identified(d) then IdentityId(env, d) else "")
      && t.ref == (if ByRef(d) then DeclaredRefId(env, d) else "")
      && (forall n :: n in t.calls ==> n.NodeCall?)
  {
    ExactTargetIs(env, d, evidence, focus);
    NotEmpty(env, NodeKind.ActionRef, ["dependency-ref", d.targetKind, d.targetRepository, d.targetPath, d.declaredRef]);
    NotEmpty(env, NodeKind.ActionRepository, ["action-repository", d.targetRepository]);
  }

  lemma DependencySaysExactly(env: Env, fact: Fact, focus: string, c: Call)
    requires c.EdgeCall?
    ensures c in PlainDependency(env, fact, focus).calls <==> DependencySays(env, fact, focus, c)
  {
    if fact.body.Depends? {
      var d := fact.body.dependency;
      CallerIs(env, d, fact.evidence, focus);
      if HasCaller(d) {
        var t := DependencyTarget(env, d, fact.evidence, focus);
        TargetIs(env, d, fact.evidence, focus);
        CallerEdgeIs(env, d, fact.evidence, focus, c);
        ResolvedEdgeIs(env, d, fact.evidence, focus, c);
        InstanceEdgeIs(env, d, fact.evidence, focus, c);
        InPieces([DependencySource(d, fact.evidence, focus).value], t.calls, DependencyEdges(env, d, CallerId(env, d), t, fact.evidence, focus), [], c);
        assert PlainDependency(env, fact, focus).calls
            == [DependencySource(d, fact.evidence, focus).value] + t.calls + DependencyEdges(env, d, CallerId(env, d), t, fact.evidence, focus) + [];
        SaysInParts(env, fact, focus, c);
      }
    }
  }

  predicate CallerSays(env: Env, d: Dependency, c: Call)
    requires c.EdgeCall? && HasCaller(d)
  {
    RelationEdge(d.relation) == Some(c.link) && Joins(c, CallerId(env, d), DeclaredId(env, d))
  }

  predicate ResolvedSays(env: Env, d: Dependency, c: Call)
    requires c.EdgeCall?
  {
    c.link.RefResolvedTo? && ByRef(d) && Identified(d) && Joins(c, DeclaredRefId(env, d), IdentityId(env, d))
  }

  predicate InstanceSays(env: Env, d: Dependency, c: Call)
    requires c.EdgeCall? && HasCaller(d)
  {
    && c.link.RunInstantiatedWorkflow? && d.basis == HISTORICAL_AT_RUN && d.callerWorkflow.Some? && d.execution.Some?
    && Joins(c, RunId(env, d.execution.value.repository, d.execution.value.run), CallerId(env, d))
  }

  lemma SaysInParts(env: Env, fact: Fact, focus: string, c: Call)
    requires c.EdgeCall? && fact.body.Depends? && HasCaller(fact.body.dependency)
    ensures var d := fact.body.dependency;
      DependencySays(env, fact, focus, c) <==>
        Seen(c, fact.evidence, d.time, focus) && (CallerSays(env, d, c) || ResolvedSays(env, d, c) || InstanceSays(env, d, c))
  {
  }

  lemma CallerEdgeIs(env: Env, d: Dependency, evidence: seq<string>, focus: string, c: Call)
    requires c.EdgeCall? && HasCaller(d)
    ensures c in CallerEdge(d, CallerId(env, d), DependencyTarget(env, d, evidence, focus), evidence, focus) <==>
      Seen(c, evidence, d.time, focus) && CallerSays(env, d, c)
  {
    TargetIs(env, d, evidence, focus);
  }

  lemma ResolvedEdgeIs(env: Env, d: Dependency, evidence: seq<string>, focus: string, c: Call)
    requires c.EdgeCall?
    ensures var t := DependencyTarget(env, d, evidence, focus);
      (t.ref != "" && t.exact != "" && c == Observed(EdgeKind.RefResolvedTo, t.ref, t.exact, evidence, d.time, focus)) <==>
        Seen(c, evidence, d.time, focus) && ResolvedSays(env, d, c)
  {
    TargetIs(env, d, evidence, focus);
    ExactTargetIs(env, d, evidence, focus);
    NotEmpty(env, NodeKind.ActionRef, ["dependency-ref", d.targetKind, d.targetRepository, d.targetPath, d.declaredRef]);
  }

  lemma InstanceEdgeIs(env: Env, d: Dependency, evidence: seq<string>, focus: string, c: Call)
    requires c.EdgeCall? && HasCaller(d)
    ensures c in InstanceEdge(env, d, CallerId(env, d), evidence, focus) <==>
      Seen(c, evidence, d.time, focus) && InstanceSays(env, d, c)
  {
  }

  lemma PlainTargets(env: Env, fact: Fact, focus: string)
    ensures var t := PlainDependency(env, fact, focus);
      var known := fact.body.Depends? && HasCaller(fact.body.dependency);
      && Returned(t) == (if known then DependencyTargetId(env, fact.body.dependency) else "")
      && (known ==> Returned(t) != "")
      && t.exact == (if known && Identified(fact.body.dependency) then IdentityId(env, fact.body.dependency) else "")
  {
    if fact.body.Depends? {
      CallerIs(env, fact.body.dependency, fact.evidence, focus);
      TargetIs(env, fact.body.dependency, fact.evidence, focus);
      ExactTargetIs(env, fact.body.dependency, fact.evidence, focus);
    }
  }

  // ----- Contradictions -----

  /** An identified dependency contradicts an archived fact. */
  ghost predicate Contradicting(idx: Index, fact: Fact, other: Fact) {
    && fact.body.Depends? && HasCaller(fact.body.dependency) && Identified(fact.body.dependency)
    && exists id :: id in fact.body.dependency.contradicts && id in idx.factsById && idx.factsById[id] == other
  }

  /** The node a contradicted fact stands for, "" for none. */
  function OtherTarget(env: Env, fact: Fact, other: Fact): string {
    match other.body
    case Depends(d) => if HasCaller(d) then DependencyTargetId(env, d) else ""
    case Acts(o) => if SameOccurrence(other.subject, fact.subject) then ActionTarget(env, o) else ""
    case _ => ""
  }

  predicate ContradictionSays(env: Env, fact: Fact, other: Fact, focus: string, c: Call) {
    && fact.body.Depends? && Identified(fact.body.dependency)
    && c.EdgeCall? && c.link.Contradicts? && c.target != ""
    && Joins(c, IdentityId(env, fact.body.dependency), OtherTarget(env, fact, other)) && c.source != c.target
    && c.evidence == fact.evidence + other.evidence && c.time == fact.body.dependency.time
    && !c.inferred && c.rule == "archived-contradiction/v1" && c.focus == focus
  }

  /** What the contradicted fact says by itself: an action only of the same occurrence. */
  predicate OtherSays(env: Env, fact: Fact, other: Fact, focus: string, c: Call) {
    || DependencySays(env, other, focus, c)
    || (SameOccurrence(other.subject, fact.subject) && ActionSays(env, other, focus, c))
  }

  /** What a dependency says, together with the facts it contradicts. */
  ghost predicate SaysWithOthers(env: Env, idx: Index, fact: Fact, focus: string, c: Call) {
    || DependencySays(env, fact, focus, c)
    || (exists other :: Contradicting(idx, fact, other) && (OtherSays(env, fact, other, focus, c) || ContradictionSays(env, fact, other, focus, c)))
  }

  lemma ContradictionSaysExactly(env: Env, idx: Index, fact: Fact, focus: string, id: string, c: Call)
    requires c.EdgeCall? && fact.body.Depends? && Identified(fact.body.dependency) && id in idx.factsById
    ensures c in Contradiction(env, idx, fact, IdentityId(env, fact.body.dependency), fact.body.dependency.time, focus, id) <==>
      OtherSays(env, fact, idx.factsById[id], focus, c) || ContradictionSays(env, fact, idx.factsById[id], focus, c)
  {
    var other := idx.factsById[id];
    DependencySaysExactly(env, other, focus, c);
    ActionSaysExactly(env, other, focus, c);
    PlainTargets(env, other, focus);
  }

  lemma DependencyFactIs(env: Env, idx: Index, fact: Fact, focus: string, c: Call)
    requires c.EdgeCall?
    ensures c in DependencyFact(env, idx, fact, focus).calls <==> SaysWithOthers(env, idx, fact, focus, c)
  {
    DependencySaysExactly(env, fact, focus, c);
    PlainTargets(env, fact, focus);
    if fact.body.Depends? && HasCaller(fact.body.dependency) && Identified(fact.body.dependency) {
      ExactTargetIs(env, fact.body.dependency, fact.evidence, focus);
      ContradictionsAre(env, idx, fact, focus, c);
    }
  }

  lemma ContradictionsAre(env: Env, idx: Index, fact: Fact, focus: string, c: Call)
    requires c.EdgeCall? && fact.body.Depends? && HasCaller(fact.body.dependency) && Identified(fact.body.dependency)
    ensures IdentityId(env, fact.body.dependency) != "" ==>
      (c in ContradictionCalls(env, idx, fact, IdentityId(env, fact.body.dependency), focus) <==>
       exists other :: Contradicting(idx, fact, other) && (OtherSays(env, fact, other, focus, c) || ContradictionSays(env, fact, other, focus, c)))
  {
    var d := fact.body.dependency;
    var f := Contradictions(env, idx, fact, IdentityId(env, d), d.time, focus);
    GatherMember(d.contradicts, f, c);
    forall id | id in idx.factsById
      ensures c in f(id) <==> OtherSays(env, fact, idx.factsById[id], focus, c) || ContradictionSays(env, fact, idx.factsById[id], focus, c)
    {
      ContradictionSaysExactly(env, idx, fact, focus, id, c);
    }
    forall id | id !in idx.factsById ensures f(id) == [] {}
  }

  // ----- Exposures -----

  /** The job or, when the exposure names one, the step. */
  function ExposedAt(env: Env, x: Exposure): string { if x.step != "" then StepId(env, x.step) else JobId(env, x.execution) }

  predicate CredentialSays(env: Env, d: Detail, x: Exposure, focus: string, c: Call)
    requires d.Credential? && c.EdgeCall?
  {
    && c.evidence == d.cited && c.time == x.time && !c.inferred && c.focus == focus
    && c.rule == (if c.link.CouldMintOIDC? then "oidc-minting-capability/v1" else "")
    && match c.link
       case HadTokenPermission =>
         d.kind.TokenPermission?
         && Joins(c, JobId(env, x.execution), NodeId(env, NodeKind.TokenCapability, ["token-capability", d.permission, d.access]))
       case CouldMintOIDC =>
         && d.kind.TokenPermission? && d.runtimeObserved && d.permission == "id-token" && d.access == "write" && d.cited != []
         && Joins(c, JobId(env, x.execution), NodeId(env, NodeKind.OIDCProvider, ["oidc-provider", "github-actions"]))
       case ReferencedSecret =>
         d.kind.SecretReferenced? && Joins(c, JobId(env, x.execution), SecretId(env, d.secret, "named secret reference"))
       case PassedSecretTo =>
         || (d.kind.SecretPassed? && x.step != "" && Joins(c, SecretId(env, d.secret, "named secret reference"), ExposedAt(env, x)))
         || (d.kind.SecretMapped? && Joins(c, SecretId(env, d.secret, "mapped secret reference"), ExposedAt(env, x)))
       case InheritedSecret =>
         d.kind.SecretInherited? && Joins(c, ExposedAt(env, x), SecretId(env, d.secret, "inherited secret set (names not retained)"))
       case _ => false
  }

  /** A resource of a known sort, as a node of a type, made by an edge of a kind. */
  predicate ResourceIs(d: Detail, kind: NodeKind, link: EdgeKind)
    requires d.Resource?
  {
    || (d.sort == "ARTIFACT" && kind.Artifact? && link.ProducedArtifact?)
    || (d.sort == "PACKAGE" && kind.Package? && link.PublishedPackage?)
    || (d.sort == "RELEASE" && kind.Release? && link.CreatedRelease?)
    || (d.sort == "DEPLOYMENT" && kind.Deployment? && link.CreatedDeployment?)
    || (d.sort == "REPOSITORY_WRITE" && kind.RepositoryResource? && link.RepositoryWrite?)
    || (d.sort == "PULL_REQUEST_CHANGE" && kind.PullRequestChange? && link.PullRequestChange?)
  }

  /** A direct edge of the kind of the resource, or only an inferred one when the resource was seen afterwards. */
  ghost predicate ResourceSays(env: Env, d: Detail, x: Exposure, focus: string, c: Call)
    requires d.Resource? && c.EdgeCall?
  {
    exists kind, link ::
      && ResourceIs(d, kind, link) && Joins(c, ExposedAt(env, x), NodeId(env, kind, ["resource", d.sort, d.name]))
      && (if d.observedAfter then c.link.ObservedAfter? && Inferred(c, "resource-correlation/v1", d.cited, x.time, focus)
          else c.link == link && Seen(c, d.cited, x.time, focus))
  }

  function RunnerId(env: Env, d: Detail): string
    requires d.Runner?
  {
    NodeId(env, NodeKind.Runner,
           ["runner", d.classification + ":" + d.runnerName + if d.runnerId.Some? then ":" + Itoa(d.runnerId.value) else ""])
  }

  predicate RunnerSays(env: Env, d: Detail, x: Exposure, evidence: seq<string>, focus: string, c: Call)
    requires d.Runner? && c.EdgeCall?
  {
    && Seen(c, evidence, x.time, focus)
    && match c.link
       case ExecutedOnRunner => Joins(c, JobId(env, x.execution), RunnerId(env, d))
       case RunnerInGroup => d.group != "" && Joins(c, RunnerId(env, d), NodeId(env, NodeKind.RunnerGroup, ["runner-group", d.group]))
       case _ => false
  }

  /** The job started behind a gate that let it through. */
  predicate Crossed(d: Detail)
    requires d.Environment?
  {
    d.started && (d.gate == "approved" || d.gate == "bypassed" || d.gate == "crossed" || d.gate == "not-required")
  }

  ghost predicate EnvironmentSays(env: Env, d: Detail, x: Exposure, evidence: seq<string>, focus: string, c: Call)
    requires d.Environment? && c.EdgeCall?
  {
    && Seen(c, evidence, x.time, focus)
    && match c.link
       case TargetedEnvironment => Joins(c, JobId(env, x.execution), EnvironmentId(env, d.name))
       case CrossedEnvironmentGate => Crossed(d) && Joins(c, JobId(env, x.execution), EnvironmentId(env, d.name))
       case EnvironmentSecretEligible =>
         Crossed(d) && exists name :: name in d.secrets && Joins(c, EnvironmentId(env, d.name), SecretId(env, Some(name), ""))
       case _ => false
  }

  ghost predicate DetailSays(env: Env, d: Detail, x: Exposure, evidence: seq<string>, focus: string, c: Call)
    requires c.EdgeCall?
  {
    match d
    case Credential(_, _, _, _, _, _) => CredentialSays(env, d, x, focus, c)
    case Resource(_, _, _, _) => ResourceSays(env, d, x, focus, c)
    case Runner(_, _, _, _) => RunnerSays(env, d, x, evidence, focus, c)
    case Environment(_, _, _, _) => EnvironmentSays(env, d, x, evidence, focus, c)
  }

  ghost predicate ExposureSays(env: Env, fact: Fact, focus: string, c: Call) {
    && fact.body.Exposes? && c.EdgeCall?
    && var x := fact.body.exposure;
      || (c.link.StepInJob? && x.step != "" && Joins(c, JobId(env, x.execution), StepId(env, x.step)) && Seen(c, fact.evidence, x.time, focus))
      || (x.detail.Some? && DetailSays(env, x.detail.value, x, fact.evidence, focus, c))
  }

  lemma TokenIs(env: Env, d: Detail, x: Exposure, focus: string, c: Call)
    requires d.Credential? && d.kind.TokenPermission? && c.EdgeCall?
    ensures c in CredentialCalls(env, d, ExposedAt(env, x), JobId(env, x.execution), x.step != "", x.time, focus)
      <==> CredentialSays(env, d, x, focus, c)
  {
  }

  lemma ReferencedIs(env: Env, d: Detail, x: Exposure, focus: string, c: Call)
    requires d.Credential? && (d.kind.SecretReferenced? || d.kind.SecretMapped?) && c.EdgeCall?
    ensures c in CredentialCalls(env, d, ExposedAt(env, x), JobId(env, x.execution), x.step != "", x.time, focus)
      <==> CredentialSays(env, d, x, focus, c)
  {
  }

  lemma InheritedIs(env: Env, d: Detail, x: Exposure, focus: string, c: Call)
    requires d.Credential? && (d.kind.SecretInherited? || d.kind.OidcMinting? || d.kind.SecretEligible?) && c.EdgeCall?
    ensures c in CredentialCalls(env, d, ExposedAt(env, x), JobId(env, x.execution), x.step != "", x.time, focus)
      <==> CredentialSays(env, d, x, focus, c)
  {
  }

  lemma PassedIs(env: Env, d: Detail, x: Exposure, focus: string, c: Call)
    requires d.Credential? && d.kind.SecretPassed? && c.EdgeCall?
    ensures c in CredentialCalls(env, d, ExposedAt(env, x), JobId(env, x.execution), x.step != "", x.time, focus)
      <==> CredentialSays(env, d, x, focus, c)
  {
  }

  lemma CredentialIs(env: Env, d: Detail, x: Exposure, focus: string, c: Call)
    requires d.Credential? && c.EdgeCall?
    ensures c in CredentialCalls(env, d, ExposedAt(env, x), JobId(env, x.execution), x.step != "", x.time, focus)
      <==> CredentialSays(env, d, x, focus, c)
  {
    if d.kind.TokenPermission? {
      TokenIs(env, d, x, focus, c);
    } else if d.kind.SecretPassed? {
      PassedIs(env, d, x, focus, c);
    } else if d.kind.SecretReferenced? || d.kind.SecretMapped? {
      ReferencedIs(env, d, x, focus, c);
    } else {
      InheritedIs(env, d, x, focus, c);
    }
  }

  lemma ResourceTypesAre(d: Detail, kind: NodeKind, link: EdgeKind)
    requires d.Resource?
    ensures ResourceTypes(d.sort) == Some((kind, link)) <==> ResourceIs(d, kind, link)
  {
    SortsDiffer();
  }

  /** No two sorts agree in both their length and their first letter. */
  lemma SortsDiffer()
    ensures forall i, j :: 0 <= i < j < |SORTS| ==> SORTS[i] != SORTS[j]
    ensures SORTS[0] == "ARTIFACT" && SORTS[1] == "PACKAGE" && SORTS[2] == "RELEASE" && SORTS[3] == "DEPLOYMENT"
    ensures SORTS[4] == "REPOSITORY_WRITE" && SORTS[5] == "PULL_REQUEST_CHANGE"
  {
    assert |SORTS[0]| == 8 && |SORTS[1]| == |SORTS[2]| == 7 && |SORTS[3]| == 10 && |SORTS[4]| == 16 && |SORTS[5]| == 19;
    assert SORTS[1][0] == 'P' && SORTS[2][0] == 'R';
  }

  const SORTS: seq<string> := ["ARTIFACT", "PACKAGE", "RELEASE", "DEPLOYMENT", "REPOSITORY_WRITE", "PULL_REQUEST_CHANGE"]

  lemma ResourceIsSaid(env: Env, d: Detail, x: Exposure, focus: string, c: Call)
    requires d.Resource? && c.EdgeCall?
    ensures c in ResourceCalls(env, d, ExposedAt(env, x), x.time, focus) <==> ResourceSays(env, d, x, focus, c)
  {
    forall kind, link ensures ResourceTypes(d.sort) == Some((kind, link)) <==> ResourceIs(d, kind, link) { ResourceTypesAre(d, kind, link); }
    if ResourceTypes(d.sort).Some? {
      var (kind, link) := ResourceTypes(d.sort).value;
      assert ResourceIs(d, kind, link);
    }
  }

  lemma RunnerIs(env: Env, d: Detail, x: Exposure, evidence: seq<string>, focus: string, c: Call)
    requires d.Runner? && c.EdgeCall?
    ensures c in RunnerCalls(env, d, JobId(env, x.execution), evidence, x.time, focus) <==> RunnerSays(env, d, x, evidence, focus, c)
  {
  }

  lemma EnvironmentIs(env: Env, d: Detail, x: Exposure, evidence: seq<string>, focus: string, c: Call)
    requires d.Environment? && c.EdgeCall?
    ensures c in EnvironmentCalls(env, d, JobId(env, x.execution), evidence, x.time, focus) <==> EnvironmentSays(env, d, x, evidence, focus, c)
  {
    EligibleIs(env, d.secrets, EnvironmentId(env, d.name), evidence, x.time, focus, c);
  }

  lemma EligibleIs(env: Env, names: seq<string>, environment: string, evidence: seq<string>, time: string, focus: string, c: Call)
    requires c.EdgeCall?
    ensures c in Gather(names, EligibleSecret(env, environment, evidence, time, focus)) <==>
      c.link.EnvironmentSecretEligible? && Seen(c, evidence, time, focus)
      && exists name :: name in names && Joins(c, environment, SecretId(env, Some(name), ""))
  {
    var f := EligibleSecret(env, environment, evidence, time, focus);
    GatherMember(names, f, c);
    forall name ensures c in f(name) <==>
      c.link.EnvironmentSecretEligible? && Seen(c, evidence, time, focus) && Joins(c, environment, SecretId(env, Some(name), ""))
    {
    }
  }

  lemma DetailIs(env: Env, x: Exposure, evidence: seq<string>, focus: string, c: Call)
    requires c.EdgeCall?
    ensures c in DetailCalls(env, x, ExposedAt(env, x), JobId(env, x.execution), evidence, focus) <==>
      x.detail.Some? && DetailSays(env, x.detail.value, x, evidence, focus, c)
  {
    if x.detail.Some? {
      var d := x.detail.value;
      match d {
        case Credential(_, _, _, _, _, _) => CredentialIs(env, d, x, focus, c);
        case Resource(_, _, _, _) => ResourceIsSaid(env, d, x, focus, c);
        case Runner(_, _, _, _) => RunnerIs(env, d, x, evidence, focus, c);
        case Environment(_, _, _, _) => EnvironmentIs(env, d, x, evidence, focus, c);
      }
    }
  }

  /** An exposure fact of the finding's own execution, and of no other step. */
  predicate ExposureConcerns(f: Finding, execution: Execution, fact: Fact) {
    && fact.body.Exposes? && fact.body.exposure.execution == execution
    && (fact.body.exposure.step == "" || f.step == "" || fact.body.exposure.step == f.step)
  }

  lemma ExposureSaysExactly(env: Env, f: Finding, execution: Execution, fact: Fact, c: Call)
    requires c.EdgeCall?
    ensures c in ExposureFact(env, f, execution, fact) <==> ExposureConcerns(f, execution, fact) && ExposureSays(env, fact, f.revision, c)
  {
    if ExposureConcerns(f, execution, fact) {
      DetailIs(env, fact.body.exposure, fact.evidence, f.revision, c);
    }
  }

  // ----- The subject of a finding -----

  function AttemptOf(f: Finding, repository: int): Attempt { Attempt(repository, f.run, f.attempt % 0x1_0000_0000) }

  /** The deepest of repository, run, attempt, job and step that the finding names. */
  function SubjectId(env: Env, f: Finding, repository: int): string {
    if f.run <= 0 then RepositoryId(env, repository)
    else if f.attempt <= 0 then RunId(env, repository, f.run)
    else if f.job <= 0 then AttemptId(env, AttemptOf(f, repository))
    else if f.step == "" then JobId(env, ExecutionOf(f, repository))
    else StepId(env, f.step)
  }

  /** The edge is as the fact filed under this key has it. */
  predicate SeenBy<K>(c: Call, facts: map<K, Fact>, key: K, focus: string)
    requires c.EdgeCall?
  {
    key in facts && facts[key].evidence != [] && Seen(c, facts[key].evidence, facts[key].time, focus)
  }

  predicate SubjectSays(env: Env, idx: Index, f: Finding, repository: int, c: Call) {
    && c.EdgeCall? && f.run > 0
    && match c.link
       case RunInRepository =>
         SeenBy(c, idx.runFacts, RunKey(repository, f.run), f.revision) && Joins(c, RepositoryId(env, repository), RunId(env, repository, f.run))
       case AttemptOfRun =>
         && f.attempt > 0 && SeenBy(c, idx.attemptFacts, AttemptKey(AttemptOf(f, repository)), f.revision)
         && Joins(c, AttemptId(env, AttemptOf(f, repository)), RunId(env, repository, f.run))
       case JobExecutedInAttempt =>
         && f.attempt > 0 && f.job > 0 && SeenBy(c, idx.jobFacts, env.jobText(ExecutionOf(f, repository)), f.revision)
         && Joins(c, AttemptId(env, AttemptOf(f, repository)), JobId(env, ExecutionOf(f, repository)))
       case StepInJob =>
         && f.attempt > 0 && f.job > 0 && f.step != "" && Inferred(c, "finding-state-v1alpha1.1", f.evidence, f.time, f.revision)
         && Joins(c, JobId(env, ExecutionOf(f, repository)), StepId(env, f.step))
       case _ => false
  }

  predicate JobSays(env: Env, idx: Index, f: Finding, repository: int, c: Call)
    requires c.EdgeCall?
  {
    || (c.link.JobExecutedInAttempt? && SeenBy(c, idx.jobFacts, env.jobText(ExecutionOf(f, repository)), f.revision)
        && Joins(c, AttemptId(env, AttemptOf(f, repository)), JobId(env, ExecutionOf(f, repository))))
    || (c.link.StepInJob? && f.step != "" && Inferred(c, "finding-state-v1alpha1.1", f.evidence, f.time, f.revision)
        && Joins(c, JobId(env, ExecutionOf(f, repository)), StepId(env, f.step)))
  }

  predicate AttemptSays(env: Env, idx: Index, f: Finding, repository: int, c: Call)
    requires c.EdgeCall?
  {
    || (c.link.AttemptOfRun? && SeenBy(c, idx.attemptFacts, AttemptKey(AttemptOf(f, repository)), f.revision)
        && Joins(c, AttemptId(env, AttemptOf(f, repository)), RunId(env, repository, f.run)))
    || (f.job > 0 && JobSays(env, idx, f, repository, c))
  }

  predicate RunSays(env: Env, idx: Index, f: Finding, repository: int, c: Call)
    requires c.EdgeCall?
  {
    || (c.link.RunInRepository? && SeenBy(c, idx.runFacts, RunKey(repository, f.run), f.revision)
        && Joins(c, RepositoryId(env, repository), RunId(env, repository, f.run)))
    || (f.attempt > 0 && AttemptSays(env, idx, f, repository, c))
  }

  lemma SubjectInParts(env: Env, idx: Index, f: Finding, repository: int, c: Call)
    requires c.EdgeCall?
    ensures SubjectSays(env, idx, f, repository, c) <==> f.run > 0 && RunSays(env, idx, f, repository, c)
  {
  }

  lemma FactEdgeIs<K>(kind: EdgeKind, source: string, target: string, facts: map<K, Fact>, key: K, focus: string, c: Call)
    requires c.EdgeCall?
    ensures c in FactEdge(kind, source, target, facts, key, focus) <==> c.link == kind && SeenBy(c, facts, key, focus) && Joins(c, source, target)
  {
  }

  lemma JobNodesAre(env: Env, idx: Index, f: Finding, repository: int, c: Call)
    requires c.EdgeCall?
    ensures var p := JobNodes(env, idx, f, ExecutionOf(f, repository), AttemptId(env, AttemptOf(f, repository)));
      && (c in p.calls <==> JobSays(env, idx, f, repository, c))
      && p.target == (if f.step == "" then JobId(env, ExecutionOf(f, repository)) else StepId(env, f.step))
  {
    var e := ExecutionOf(f, repository);
    FactEdgeIs(EdgeKind.JobExecutedInAttempt, AttemptId(env, AttemptOf(f, repository)), JobId(env, e), idx.jobFacts, env.jobText(e), f.revision, c);
  }

  lemma AttemptNodesAre(env: Env, idx: Index, f: Finding, repository: int, c: Call)
    requires c.EdgeCall?
    ensures var p := AttemptNodes(env, idx, f, AttemptOf(f, repository), RunId(env, repository, f.run));
      && (c in p.calls <==> AttemptSays(env, idx, f, repository, c))
      && (f.run > 0 && f.attempt > 0 ==> p.target == SubjectId(env, f, repository))
  {
    var a := AttemptOf(f, repository);
    FactEdgeIs(EdgeKind.AttemptOfRun, AttemptId(env, a), RunId(env, repository, f.run), idx.attemptFacts, AttemptKey(a), f.revision, c);
    JobNodesAre(env, idx, f, repository, c);
  }

  lemma RunNodesAre(env: Env, idx: Index, f: Finding, repository: int, c: Call)
    requires c.EdgeCall?
    ensures var p := RunNodes(env, idx, f, repository, RepositoryId(env, repository));
      && (c in p.calls <==> RunSays(env, idx, f, repository, c))
      && (f.run > 0 ==> p.target == SubjectId(env, f, repository))
  {
    FactEdgeIs(EdgeKind.RunInRepository, RepositoryId(env, repository), RunId(env, repository, f.run), idx.runFacts, RunKey(repository, f.run), f.revision, c);
    AttemptNodesAre(env, idx, f, repository, c);
  }

  lemma SubjectSaysExactly(env: Env, idx: Index, f: Finding, repository: int, c: Call)
    requires c.EdgeCall?
    ensures c in SubjectNodes(env, idx, f, repository).calls <==> SubjectSays(env, idx, f, repository, c)
    ensures SubjectNodes(env, idx, f, repository).target == SubjectId(env, f, repository)
  {
    SubjectInParts(env, idx, f, repository, c);
    RunNodesAre(env, idx, f, repository, c);
  }

  // ----- Findings -----

  /** A fact is drawn upon for a finding when it concerns it, its repository being known. */
  predicate Concerning(idx: Index, r: Resolved, fact: Fact) { r.repository.Some? && Concerns(fact, r.finding, r.repository.value) }

  /** It concerns it when they share evidence and its subject is the finding's as far as that goes; a fact of no step may
      do for any. */
  lemma ConcerningExactly(idx: Index, r: Resolved, fact: Fact)
    ensures Concerning(idx, r, fact) <==>
      && r.repository == Some(fact.subject.repository) && (exists e :: e in fact.evidence && e in r.finding.evidence)
      && (r.finding.run > 0 ==> fact.subject.run == Some(r.finding.run))
      && (r.finding.attempt > 0 ==> fact.subject.attempt == Some(r.finding.attempt))
      && (r.finding.job > 0 ==> fact.subject.job == Some(r.finding.job))
      && (r.finding.step != "" ==> fact.subject.step in ["", r.finding.step])
  {
  }

  /** A dependency that concerns the finding contradicts this fact. */
  ghost predicate ContradictedFor(idx: Index, r: Resolved, from: Fact, fact: Fact) {
    from in idx.dependencies && Concerning(idx, r, from) && Contradicting(idx, from, fact)
  }

  /** An action drawn upon: it concerns the finding, or is the same occurrence as a dependency that contradicts it. */
  ghost predicate ActsFor(idx: Index, r: Resolved, fact: Fact) {
    || (fact in idx.actions && Concerning(idx, r, fact))
    || exists from :: ContradictedFor(idx, r, from, fact) && SameOccurrence(fact.subject, from.subject)
  }

  ghost predicate DependsFor(idx: Index, r: Resolved, fact: Fact) {
    || (fact in idx.dependencies && Concerning(idx, r, fact))
    || exists from :: ContradictedFor(idx, r, from, fact)
  }

  ghost predicate ExposesFor(idx: Index, r: Resolved, fact: Fact) {
    && r.repository.Some? && Exposed(r.finding) && fact in idx.exposures
    && ExposureConcerns(r.finding, ExecutionOf(r.finding, r.repository.value), fact)
  }

  /** What a finding is about: its subject, and what each fact that concerns it stands for. */
  ghost predicate IsAbout(env: Env, idx: Index, r: Resolved, target: string) {
    && r.repository.Some?
    && (|| target == SubjectId(env, r.finding, r.repository.value)
        || (exists fact :: fact in idx.actions && Concerning(idx, r, fact) && fact.body.Acts? && target == ActionTarget(env, fact.body.action))
        || (exists fact :: fact in idx.dependencies && Concerning(idx, r, fact) && fact.body.Depends? && HasCaller(fact.body.dependency)
              && target == DependencyTargetId(env, fact.body.dependency)))
  }

  ghost predicate FindingSays(env: Env, idx: Index, r: Resolved, c: Call) {
    && c.EdgeCall? && c.source == FindingId(env, r.finding)
    && match c.link
       case SupportedByEvidence =>
         exists e :: e in r.finding.evidence && c.target == NodeId(env, NodeKind.EvidenceObject, ["evidence", e])
           && Seen(c, [e], r.finding.time, r.finding.revision)
       case FindingAbout =>
         && r.finding.evidence != [] && IsAbout(env, idx, r, c.target)
         && Inferred(c, "finding-state-v1alpha1.1", r.finding.evidence, r.finding.time, r.finding.revision)
       case _ => false
  }

  /** All that a finding, with the repository found for it, says of the edges of the graph. */
  ghost predicate Says(env: Env, idx: Index, r: Resolved, c: Call) {
    var focus := r.finding.revision;
    || FindingSays(env, idx, r, c)
    || (r.repository.Some? && SubjectSays(env, idx, r.finding, r.repository.value, c))
    || (exists fact :: ActsFor(idx, r, fact) && ActionSays(env, fact, focus, c))
    || (exists fact :: DependsFor(idx, r, fact) && DependencySays(env, fact, focus, c))
    || (exists from, fact :: ContradictedFor(idx, r, from, fact) && ContradictionSays(env, from, fact, focus, c))
    || (exists fact :: ExposesFor(idx, r, fact) && ExposureSays(env, fact, focus, c))
  }

  ghost predicate SupportSays(env: Env, f: Finding, c: Call)
    requires c.EdgeCall?
  {
    && c.link.SupportedByEvidence? && c.source == FindingId(env, f)
    && exists e :: e in f.evidence && c.target == NodeId(env, NodeKind.EvidenceObject, ["evidence", e]) && Seen(c, [e], f.time, f.revision)
  }

  lemma SupportIs(env: Env, f: Finding, c: Call)
    requires c.EdgeCall?
    ensures c in EvidenceCalls(env, f) <==> SupportSays(env, f, c)
  {
    GatherMember(f.evidence, Supported(env, f), c);
    forall e ensures c in Supported(env, f)(e) <==>
      c.link.SupportedByEvidence? && c.source == FindingId(env, f) && c.target == NodeId(env, NodeKind.EvidenceObject, ["evidence", e])
      && Seen(c, [e], f.time, f.revision)
    {
    }
  }

  /** The edge from the finding to one thing it is about. */
  predicate AboutSays(env: Env, f: Finding, c: Call)
    requires c.EdgeCall?
  {
    && c.link.FindingAbout? && c.source == FindingId(env, f) && f.evidence != []
    && Inferred(c, "finding-state-v1alpha1.1", f.evidence, f.time, f.revision)
  }

  lemma TargetsAreAbout(env: Env, idx: Index, f: Finding, repository: int, c: Call)
    requires c.EdgeCall?
    ensures c in Gather(FactTargets(env, idx, f, repository), AboutTarget(env, f, SubjectId(env, f, repository))) <==>
      c.target in FactTargets(env, idx, f, repository) && c.target != "" && c.target != SubjectId(env, f, repository) && AboutSays(env, f, c)
  {
    var targets, g := FactTargets(env, idx, f, repository), AboutTarget(env, f, SubjectId(env, f, repository));
    GatherMember(targets, g, c);
    assert forall t :: c in g(t) ==> c == About(env, f, t);
    if c.target in targets { assert g(c.target) == AboutOne(env, f, SubjectId(env, f, repository), c.target); }
  }

  ghost predicate ActionTargeted(env: Env, idx: Index, f: Finding, repository: int, t: string) {
    exists fact :: fact in idx.actions && Concerns(fact, f, repository) && fact.body.Acts? && t == ActionTarget(env, fact.body.action)
  }

  ghost predicate DependencyTargeted(env: Env, idx: Index, f: Finding, repository: int, t: string) {
    exists fact :: fact in idx.dependencies && Concerns(fact, f, repository) && fact.body.Depends? && HasCaller(fact.body.dependency)
      && t == DependencyTargetId(env, fact.body.dependency)
  }

  lemma TargetedBy(env: Env, idx: Index, f: Finding, repository: int, t: string)
    ensures t in FactTargets(env, idx, f, repository) <==>
      t != "" && (ActionTargeted(env, idx, f, repository, t) || DependencyTargeted(env, idx, f, repository, t))
  {
    var act, depend := ActionOf(env, f, repository), DependencyOf(env, idx, f, repository);
    SortUniqueIsTheSet(Gather(idx.actions, TargetOf(act)) + Gather(idx.dependencies, TargetOf(depend)));
    GatherMember(idx.actions, TargetOf(act), t);
    GatherMember(idx.dependencies, TargetOf(depend), t);
    forall fact ensures t in TargetOf(act)(fact) <==>
      t != "" && Concerns(fact, f, repository) && fact.body.Acts? && t == ActionTarget(env, fact.body.action)
    {
      ActionSaysExactly(env, fact, f.revision, EdgeCall(EdgeKind.FindingAbout, "", "", [], "", false, "", ""));
    }
    forall fact ensures t in TargetOf(depend)(fact) <==>
      t != "" && Concerns(fact, f, repository) && fact.body.Depends? && HasCaller(fact.body.dependency)
      && t == DependencyTargetId(env, fact.body.dependency)
    {
      PlainTargets(env, fact, f.revision);
    }
  }

  lemma ActionsSay(env: Env, idx: Index, f: Finding, repository: int, c: Call)
    requires c.EdgeCall?
    ensures c in Gather(idx.actions, CallsOf(ActionOf(env, f, repository))) <==>
      exists fact :: fact in idx.actions && Concerns(fact, f, repository) && ActionSays(env, fact, f.revision, c)
  {
    var g := CallsOf(ActionOf(env, f, repository));
    GatherMember(idx.actions, g, c);
    forall fact ensures c in g(fact) <==> Concerns(fact, f, repository) && ActionSays(env, fact, f.revision, c) {
      ActionSaysExactly(env, fact, f.revision, c);
    }
  }

  lemma DependenciesSay(env: Env, idx: Index, f: Finding, repository: int, c: Call)
    requires c.EdgeCall?
    ensures c in Gather(idx.dependencies, CallsOf(DependencyOf(env, idx, f, repository))) <==>
      exists fact :: fact in idx.dependencies && Concerns(fact, f, repository) && SaysWithOthers(env, idx, fact, f.revision, c)
  {
    var g := CallsOf(DependencyOf(env, idx, f, repository));
    GatherMember(idx.dependencies, g, c);
    forall fact ensures c in g(fact) <==> Concerns(fact, f, repository) && SaysWithOthers(env, idx, fact, f.revision, c) {
      DependencyFactIs(env, idx, fact, f.revision, c);
    }
  }

  lemma ExposuresSay(env: Env, idx: Index, f: Finding, repository: int, c: Call)
    requires c.EdgeCall?
    ensures c in ExposuresOf(env, idx, f, repository) <==>
      ExposedSays(env, idx, Resolved(f, Some(repository)), c)
  {
    var execution := ExecutionOf(f, repository);
    var g := ExposureCalls(env, f, execution);
    GatherMember(idx.exposures, g, c);
    forall fact ensures c in g(fact) <==> ExposureConcerns(f, execution, fact) && ExposureSays(env, fact, f.revision, c) {
      ExposureSaysExactly(env, f, execution, fact, c);
    }
  }

  /** What the facts drawn upon say, actions and dependencies apart from the contradicted ones. */
  ghost predicate FactsSay(env: Env, idx: Index, r: Resolved, c: Call) {
    || (exists fact :: ActsFor(idx, r, fact) && ActionSays(env, fact, r.finding.revision, c))
    || (exists fact :: DependsFor(idx, r, fact) && DependencySays(env, fact, r.finding.revision, c))
    || (exists from, fact :: ContradictedFor(idx, r, from, fact) && ContradictionSays(env, from, fact, r.finding.revision, c))
  }

  lemma FactCallsSay(env: Env, idx: Index, r: Resolved, c: Call)
    requires c.EdgeCall? && r.repository.Some?
    ensures c in FactCalls(env, idx, r.finding, r.repository.value) <==> FactsSay(env, idx, r, c)
  {
    var f, repository := r.finding, r.repository.value;
    ActionsSay(env, idx, f, repository, c);
    DependenciesSay(env, idx, f, repository, c);
    if FactsSay(env, idx, r, c) { SaidByAFact(env, idx, r, c); }
    if fact :| fact in idx.actions && Concerns(fact, f, repository) && ActionSays(env, fact, f.revision, c) {
      assert ActsFor(idx, r, fact);
    }
    if fact :| fact in idx.dependencies && Concerns(fact, f, repository) && SaysWithOthers(env, idx, fact, f.revision, c) {
      SaidToTheFinding(env, idx, r, fact, c);
    }
  }

  lemma SaidByAFact(env: Env, idx: Index, r: Resolved, c: Call)
    requires r.repository.Some? && FactsSay(env, idx, r, c)
    ensures
      || (exists fact :: fact in idx.actions && Concerning(idx, r, fact) && ActionSays(env, fact, r.finding.revision, c))
      || (exists fact :: fact in idx.dependencies && Concerning(idx, r, fact) && SaysWithOthers(env, idx, fact, r.finding.revision, c))
  {
    var focus := r.finding.revision;
    if fact :| ActsFor(idx, r, fact) && ActionSays(env, fact, focus, c) {
      if !(fact in idx.actions && Concerning(idx, r, fact)) {
        var from :| ContradictedFor(idx, r, from, fact) && SameOccurrence(fact.subject, from.subject);
        assert OtherSays(env, from, fact, focus, c) && SaysWithOthers(env, idx, from, focus, c);
      }
    } else if fact :| DependsFor(idx, r, fact) && DependencySays(env, fact, focus, c) {
      if fact in idx.dependencies && Concerning(idx, r, fact) {
        assert SaysWithOthers(env, idx, fact, focus, c);
      } else {
        var from :| ContradictedFor(idx, r, from, fact);
        assert OtherSays(env, from, fact, focus, c) && SaysWithOthers(env, idx, from, focus, c);
      }
    } else {
      var from, fact :| ContradictedFor(idx, r, from, fact) && ContradictionSays(env, from, fact, focus, c);
      assert SaysWithOthers(env, idx, from, focus, c);
    }
  }

  lemma SaidToTheFinding(env: Env, idx: Index, r: Resolved, fact: Fact, c: Call)
    requires fact in idx.dependencies && Concerning(idx, r, fact) && SaysWithOthers(env, idx, fact, r.finding.revision, c)
    ensures FactsSay(env, idx, r, c)
  {
    var focus := r.finding.revision;
    if DependencySays(env, fact, focus, c) {
      assert DependsFor(idx, r, fact);
    } else {
      var other :| Contradicting(idx, fact, other) && (OtherSays(env, fact, other, focus, c) || ContradictionSays(env, fact, other, focus, c));
      assert ContradictedFor(idx, r, fact, other);
      if DependencySays(env, other, focus, c) { assert DependsFor(idx, r, other); }
      if SameOccurrence(other.subject, fact.subject) { assert ActsFor(idx, r, other); }
    }
  }

  lemma AboutIs(env: Env, idx: Index, r: Resolved, c: Call)
    requires c.EdgeCall? && r.repository.Some?
    ensures var f, repository := r.finding, r.repository.value;
      (f.evidence != [] && c == About(env, f, SubjectId(env, f, repository)))
      || c in Gather(FactTargets(env, idx, f, repository), AboutTarget(env, f, SubjectId(env, f, repository))) <==>
        AboutSays(env, f, c) && IsAbout(env, idx, r, c.target)
  {
    var f, repository := r.finding, r.repository.value;
    TargetsAreAbout(env, idx, f, repository, c);
    TargetedBy(env, idx, f, repository, c.target);
    ActionTargetsAreNodes(env);
    assert IsAbout(env, idx, r, c.target) <==>
      c.target == SubjectId(env, f, repository) || ActionTargeted(env, idx, f, repository, c.target) || DependencyTargeted(env, idx, f, repository, c.target);
  }

  lemma ActionTargetsAreNodes(env: Env)
    ensures forall o :: ActionTarget(env, o) != ""
    ensures forall d :: DependencyTargetId(env, d) != ""
  {
    forall o ensures ActionTarget(env, o) != "" {
      NotEmpty(env, NodeKind.ActionRepository, ["action-repository", o.repository]);
      if o.source.Some? {
        NotEmpty(env, NodeKind.ActionCommit, ["action-commit", o.repository, o.subpath, o.source.value.algorithm, o.source.value.value]);
      }
      if o.package.Some? {
        var d := o.package.value;
        NotEmpty(env, NodeKind.ImmutableActionPackage, ["immutable-action-package", o.repository, o.subpath, d.subject, d.algorithm, d.value]);
      }
    }
    forall d ensures DependencyTargetId(env, d) != "" {
      TargetIs(env, d, [], "");
      ExactTargetIs(env, d, [], "");
    }
  }

  ghost predicate ExposedSays(env: Env, idx: Index, r: Resolved, c: Call) {
    exists fact :: ExposesFor(idx, r, fact) && ExposureSays(env, fact, r.finding.revision, c)
  }

  lemma SaysInFiveParts(env: Env, idx: Index, r: Resolved, c: Call)
    requires c.EdgeCall?
    ensures Says(env, idx, r, c) <==>
      || SupportSays(env, r.finding, c) || (AboutSays(env, r.finding, c) && IsAbout(env, idx, r, c.target))
      || (r.repository.Some? && SubjectSays(env, idx, r.finding, r.repository.value, c))
      || FactsSay(env, idx, r, c) || ExposedSays(env, idx, r, c)
  {
    FindingInParts(env, idx, r, c);
  }

  lemma FindingInParts(env: Env, idx: Index, r: Resolved, c: Call)
    requires c.EdgeCall?
    ensures FindingSays(env, idx, r, c) <==> SupportSays(env, r.finding, c) || (AboutSays(env, r.finding, c) && IsAbout(env, idx, r, c.target))
  {
  }

  lemma NothingWithoutARepository(env: Env, idx: Index, r: Resolved, c: Call)
    requires r.repository.None?
    ensures !IsAbout(env, idx, r, "") && !FactsSay(env, idx, r, c) && !ExposedSays(env, idx, r, c)
  {
  }

  lemma SubjectCallsSay(env: Env, idx: Index, r: Resolved, c: Call)
    requires c.EdgeCall? && r.repository.Some?
    ensures c in SubjectCalls(env, idx, r.finding, r.repository.value) <==>
      || (AboutSays(env, r.finding, c) && IsAbout(env, idx, r, c.target))
      || SubjectSays(env, idx, r.finding, r.repository.value, c)
      || FactsSay(env, idx, r, c) || ExposedSays(env, idx, r, c)
  {
    var f, repository := r.finding, r.repository.value;
    SubjectSaysExactly(env, idx, f, repository, c);
    FactCallsSay(env, idx, r, c);
    AboutIs(env, idx, r, c);
    ExposuresSay(env, idx, f, repository, c);
    SubjectCallsAre(env, idx, f, repository, c);
    assert r == Resolved(f, Some(repository));
  }

  /** The edges a finding calls for are those it says. */
  lemma SaysExactly(env: Env, idx: Index, r: Resolved, c: Call)
    requires c.EdgeCall?
    ensures c in FindingCalls(env, idx, r.finding, r.repository) <==> Says(env, idx, r, c)
  {
    SupportIs(env, r.finding, c);
    SaysInFiveParts(env, idx, r, c);
    if r.repository.Some? {
      SubjectCallsSay(env, idx, r, c);
    } else {
      NothingWithoutARepository(env, idx, r, c);
    }
  }

  lemma SubjectCallsAre(env: Env, idx: Index, f: Finding, repository: int, c: Call)
    requires SubjectNodes(env, idx, f, repository).target == SubjectId(env, f, repository)
    ensures c in SubjectCalls(env, idx, f, repository) <==>
      || c in SubjectNodes(env, idx, f, repository).calls
      || (f.evidence != [] && c == About(env, f, SubjectId(env, f, repository)))
      || c in FactCalls(env, idx, f, repository)
      || c in Gather(FactTargets(env, idx, f, repository), AboutTarget(env, f, SubjectId(env, f, repository)))
      || c in ExposuresOf(env, idx, f, repository)
  {
  }
}
