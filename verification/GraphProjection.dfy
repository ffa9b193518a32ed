/** What each finding adds to the evidence graph (internal/analyze/graph.go). The IDs that `addNode` returns do not
    depend on what the graph holds, so a projection is described by the calls it makes, in order. */
module GraphProjection {
  import opened Orders
  import opened Decimal
  import opened Identity
  import opened GraphKinds
  import opened Graph

  const FINDING_RULE := "finding-state-v1alpha1.1"
  const CORRELATION_RULE := "resource-correlation/v1"
  const CONTRADICTION_RULE := "archived-contradiction/v1"
  const OIDC_RULE := "oidc-minting-capability/v1"

  datatype ObjectId = ObjectId(algorithm: string, value: string)
  datatype Digest = Digest(subject: string, algorithm: string, value: string)
  datatype Attempt = Attempt(repository: int, run: int, attempt: int)

  datatype Observation = Observation(repository: string, subpath: string, declaredRef: string, source: Option<ObjectId>,
                                     package: Option<Digest>, execution: Execution, step: Option<string>,
                                     downloaded: bool, executed: bool, time: string)

  datatype Relation = WorkflowDeclaredAction | WorkflowCalledWorkflow | ActionContainsAction | LocalActionResolvedTo | RefResolvedTo | NoRelation

  datatype Dependency = Dependency(relation: Relation, targetKind: string, basis: string, callerId: int, callerRepository: string, callerPath: string,
                                   callerWorkflow: Option<ObjectId>, callerAction: Option<ObjectId>, targetRepository: string,
                                   targetPath: string, declaredRef: string, targetAction: Option<ObjectId>,
                                   targetWorkflow: Option<ObjectId>, package: Option<Digest>, attempt: Option<Attempt>,
                                   execution: Option<Execution>, step: string, contradicts: seq<string>, time: string)

  const ACTION := "action"
  const REUSABLE_WORKFLOW := "reusable-workflow"
  const LOCAL_ACTION := "local-action"
  const CURRENT_SNAPSHOT := "current-snapshot"
  const HISTORICAL_AT_RUN := "historical-at-run"
  const RUNTIME_ATTEMPT_METADATA := "runtime-attempt-metadata"

  datatype CredentialKind = TokenPermission | OidcMinting | SecretReferenced | SecretPassed | SecretMapped | SecretInherited | SecretEligible

  datatype Detail =
    | Credential(kind: CredentialKind, permission: string, access: string, runtimeObserved: bool, secret: Option<string>, cited: seq<string>)
    | Resource(sort: string, name: string, observedAfter: bool, cited: seq<string>)
    | Runner(classification: string, runnerName: string, runnerId: Option<int>, group: string)
    | Environment(name: string, gate: string, started: bool, secrets: seq<string>)

  datatype Exposure = Exposure(execution: Execution, step: string, time: string, detail: Option<Detail>)

  datatype Body = Acts(action: Observation) | Depends(dependency: Dependency) | Exposes(exposure: Exposure) | OtherBody

  datatype Fact = Fact(id: string, subject: Subject, evidence: seq<string>, time: string, body: Body)

  datatype Finding = Finding(revision: string, state: string, provenance: string, evidence: seq<string>, time: string,
                             repository: string, run: int, attempt: int, job: int, step: string)

  datatype Index = Index(repositories: map<int, string>, repositoryFacts: map<int, Fact>, runPaths: map<string, Option<string>>,
                         runFacts: map<string, Fact>, attemptFacts: map<string, Fact>, jobFacts: map<string, Fact>,
                         jobNames: map<string, string>, factsById: map<string, Fact>, actions: seq<Fact>, dependencies: seq<Fact>,
                         exposures: seq<Fact>)

  /** The calls a projection makes and the node it returns ("" for none). */
  datatype Projected = Projected(target: string, calls: seq<Call>)

  /** A call of `addNode`. */
  type NewNode = c: Call | c.NodeCall? witness NodeCall(NodeKind.Finding, "", [], [], "")

  function IdOf(env: Env, c: NewNode): string { NodeId(env, c.kind, c.identity) }

  // ----- Nodes made in several places -----

  function RunNode(repository: int, run: int, title: string, evidence: seq<string>, focus: string): NewNode {
    NodeCall(NodeKind.WorkflowRun, title, ["run", Itoa(repository), Itoa(run)], evidence, focus)
  }

  function AttemptNode(a: Attempt, evidence: seq<string>, focus: string): NewNode {
    NodeCall(NodeKind.RunAttempt, "run " + Itoa(a.run) + " / attempt " + Itoa(a.attempt),
             ["attempt", Itoa(a.repository), Itoa(a.run), Itoa(a.attempt)], evidence, focus)
  }

  function JobNode(env: Env, e: Execution, evidence: seq<string>, focus: string): NewNode {
    NodeCall(NodeKind.Job, "job " + Itoa(e.job), ["job", env.jobText(e)], evidence, focus)
  }

  function StepNode(key: string, evidence: seq<string>, focus: string): NewNode { NodeCall(NodeKind.Step, key, ["step", key], evidence, focus) }

  function Named(repository: string, subpath: string): string {
    if subpath != "" then repository + "/" + subpath else repository
  }

  function PackageNode(repository: string, subpath: string, d: Digest, evidence: seq<string>, focus: string): NewNode {
    NodeCall(NodeKind.ImmutableActionPackage, repository + " " + d.subject + ":" + d.value,
             ["immutable-action-package", repository, subpath, d.subject, d.algorithm, d.value], evidence, focus)
  }

  function ActionRepositoryNode(repository: string, evidence: seq<string>, focus: string): NewNode {
    NodeCall(NodeKind.ActionRepository, repository, ["action-repository", repository], evidence, focus)
  }

  function DefinitionNode(kind: NodeKind, tag: string, repository: string, path: string, o: ObjectId, evidence: seq<string>, focus: string): NewNode {
    NodeCall(kind, repository + "/" + path + " @ " + o.algorithm + ":" + o.value, [tag, repository, path, o.algorithm, o.value], evidence, focus)
  }

  /** An edge observed directly: not inferred, under no rule. */
  function Observed(kind: EdgeKind, source: string, target: string, evidence: seq<string>, time: string, focus: string): Call {
    EdgeCall(kind, source, target, evidence, time, false, "", focus)
  }

  // ----- Runtime actions -----

  function CommitNode(o: Observation, evidence: seq<string>, focus: string): seq<NewNode> {
    if o.source.None? then []
    else
      var c := o.source.value;
      [NodeCall(NodeKind.ActionCommit, Named(o.repository, o.subpath) + " @ " + c.algorithm + ":" + c.value,
                ["action-commit", o.repository, o.subpath, c.algorithm, c.value], evidence, focus)]
  }

  function PackageNodes(o: Observation, evidence: seq<string>, focus: string): seq<NewNode> {
    if o.package.None? then [] else [PackageNode(o.repository, o.subpath, o.package.value, evidence, focus)]
  }

  /** `runtimeExactTargets`: the nodes for the commit and for the package, and the edge between them. */
  function ExactTargets(env: Env, o: Observation, evidence: seq<string>, focus: string): (seq<string>, seq<Call>) {
    var commit, package := CommitNode(o, evidence, focus), PackageNodes(o, evidence, focus);
    var nodes := commit + package;
    (seq(|nodes|, i requires 0 <= i < |nodes| => IdOf(env, nodes[i])),
     nodes + if commit != [] && package != [] then
       [Observed(EdgeKind.PackageSourceCommit, IdOf(env, package[0]), IdOf(env, commit[0]), evidence, o.time, focus)] else [])
  }

  function RefEdge(ref: string, evidence: seq<string>, time: string, focus: string): string -> seq<Call> {
    target => [Observed(EdgeKind.RefResolvedTo, ref, target, evidence, time, focus)]
  }

  function RefCalls(env: Env, o: Observation, targets: seq<string>, evidence: seq<string>, focus: string): seq<Call> {
    if o.declaredRef == "" then []
    else
      var ref := NodeCall(NodeKind.ActionRef, Named(o.repository, o.subpath) + "@" + o.declaredRef,
                          ["action-ref", o.repository, o.subpath, o.declaredRef], evidence, focus);
      [ref] + Gather(targets, RefEdge(IdOf(env, ref), evidence, o.time, focus))
  }

  function StepCalls(env: Env, o: Observation, target: string, evidence: seq<string>, focus: string): seq<Call> {
    var job := JobNode(env, o.execution, evidence, focus);
    if o.step.None? then
      [job] + if o.downloaded then [Observed(EdgeKind.JobPreparedAction, IdOf(env, job), target, evidence, o.time, focus)] else []
    else
      var step := StepNode(o.step.value, evidence, focus);
      [job, step, Observed(EdgeKind.StepInJob, IdOf(env, job), IdOf(env, step), evidence, o.time, focus)]
      + UseCalls(o, IdOf(env, step), target, evidence, focus)
  }

  function UseCalls(o: Observation, step: string, target: string, evidence: seq<string>, focus: string): seq<Call> {
    (if o.downloaded then [Observed(EdgeKind.StepDownloadedAction, step, target, evidence, o.time, focus)] else [])
    + (if o.executed then [Observed(EdgeKind.StepExecutedAction, step, target, evidence, o.time, focus)] else [])
  }

  /** `projectRuntimeAction` */
  function RuntimeAction(env: Env, fact: Fact, focus: string): Projected {
    if !fact.body.Acts? then Projected("", [])
    else
      var o, evidence := fact.body.action, fact.evidence;
      var repository := ActionRepositoryNode(o.repository, evidence, focus);
      var (targets, exact) := ExactTargets(env, o, evidence, focus);
      var primary := if targets != [] then targets[0] else IdOf(env, repository);
      Projected(primary, [repository] + exact + RefCalls(env, o, targets, evidence, focus) + StepCalls(env, o, primary, evidence, focus))
  }

  // ----- Dependencies -----

  /** `dependencySource` */
  function DependencySource(d: Dependency, evidence: seq<string>, focus: string): Option<NewNode> {
    if d.basis == RUNTIME_ATTEMPT_METADATA && d.attempt.Some? then Some(AttemptNode(d.attempt.value, evidence, focus))
    else if d.callerWorkflow.Some? then
      Some(DefinitionNode(NodeKind.WorkflowDefinition, "workflow-definition", d.callerRepository, d.callerPath, d.callerWorkflow.value, evidence, focus))
    else if d.callerAction.Some? then
      Some(DefinitionNode(NodeKind.ActionDefinition, "action-definition", d.callerRepository, d.callerPath, d.callerAction.value, evidence, focus))
    else if d.callerPath != "" then
      Some(NodeCall(NodeKind.WorkflowDefinition, d.callerRepository + "/" + d.callerPath + " [" + d.basis + "]",
                    ["workflow-definition-unbound", d.callerRepository, d.callerPath, d.basis], evidence, focus))
    else None
  }

  function ExactTarget(d: Dependency, evidence: seq<string>, focus: string): Option<NewNode> {
    if d.targetWorkflow.Some? then
      Some(DefinitionNode(NodeKind.ReusableWorkflowDefinition, "reusable-workflow-definition", d.targetRepository, d.targetPath,
                          d.targetWorkflow.value, evidence, focus))
    else if d.targetAction.Some? then
      var o := d.targetAction.value;
      var local := d.targetKind == LOCAL_ACTION;
      Some(NodeCall(if local then NodeKind.ActionDefinition else NodeKind.ActionCommit,
                    Named(d.targetRepository, d.targetPath) + " @ " + o.algorithm + ":" + o.value,
                    [if local then "action-definition" else "action-commit", d.targetRepository, d.targetPath, o.algorithm, o.value],
                    evidence, focus))
    else if d.package.Some? then Some(PackageNode(d.targetRepository, d.targetPath, d.package.value, evidence, focus))
    else None
  }

  function RefNode(d: Dependency, evidence: seq<string>, focus: string): NewNode {
    NodeCall(NodeKind.ActionRef, Named(d.targetRepository, d.targetPath) + "@" + d.declaredRef,
             ["dependency-ref", d.targetKind, d.targetRepository, d.targetPath, d.declaredRef], evidence, focus)
  }

  datatype Targets = Targets(target: string, exact: string, ref: string, calls: seq<Call>)

  /** `dependencyTarget`: the declaration target, the exact target and the ref node. */
  function DependencyTarget(env: Env, d: Dependency, evidence: seq<string>, focus: string): Targets {
    var node := ExactTarget(d, evidence, focus);
    var made := if node.Some? then [node.value] else [];
    var exact := if node.Some? then IdOf(env, node.value) else "";
    if d.basis == RUNTIME_ATTEMPT_METADATA && exact != "" then Targets(exact, exact, "", made)
    else if d.declaredRef != "" then
      var ref := RefNode(d, evidence, focus);
      Targets(IdOf(env, ref), exact, IdOf(env, ref), made + [ref])
    else if exact != "" then Targets(exact, exact, "", made)
    else
      var repository := ActionRepositoryNode(d.targetRepository, evidence, focus);
      Targets(IdOf(env, repository), "", "", made + [repository])
  }

  /** `dependencyEdgeType`, but for REF_RESOLVED_TO, which is not an edge of the caller. */
  function RelationEdge(r: Relation): Option<EdgeKind> {
    match r
    case WorkflowDeclaredAction => Some(EdgeKind.WorkflowDeclaredAction)
    case WorkflowCalledWorkflow => Some(EdgeKind.WorkflowCalledWorkflow)
    case ActionContainsAction => Some(EdgeKind.ActionContainsAction)
    case LocalActionResolvedTo => Some(EdgeKind.LocalActionResolvedTo)
    case RefResolvedTo => None
    case NoRelation => None
  }

  function CallerEdge(d: Dependency, source: string, t: Targets, evidence: seq<string>, focus: string): seq<Call> {
    if RelationEdge(d.relation).Some? then [Observed(RelationEdge(d.relation).value, source, t.target, evidence, d.time, focus)] else []
  }

  function DependencyEdges(env: Env, d: Dependency, source: string, t: Targets, evidence: seq<string>, focus: string): seq<Call> {
    CallerEdge(d, source, t, evidence, focus)
    + (if t.ref != "" && t.exact != "" then [Observed(EdgeKind.RefResolvedTo, t.ref, t.exact, evidence, d.time, focus)] else [])
    + InstanceEdge(env, d, source, evidence, focus)
  }

  /** The run that instantiated a historical workflow definition. */
  function InstanceEdge(env: Env, d: Dependency, source: string, evidence: seq<string>, focus: string): seq<Call> {
    if d.basis == HISTORICAL_AT_RUN && d.callerWorkflow.Some? && d.execution.Some? then
      var e := d.execution.value;
      var run := RunNode(e.repository, e.run, "run " + Itoa(e.run), evidence, focus);
      [run, Observed(EdgeKind.RunInstantiatedWorkflow, IdOf(env, run), source, evidence, d.time, focus)]
    else []
  }

  /** `projectDependency` without contradictions. */
  function PlainDependency(env: Env, fact: Fact, focus: string): Targets {
    if !fact.body.Depends? then Targets("", "", "", [])
    else
      var d := fact.body.dependency;
      var source := DependencySource(d, fact.evidence, focus);
      if source.None? then Targets("", "", "", [])
      else
        var t := DependencyTarget(env, d, fact.evidence, focus);
        t.(calls := [source.value] + t.calls + DependencyEdges(env, d, IdOf(env, source.value), t, fact.evidence, focus))
  }

  function Returned(t: Targets): string { if t.exact != "" then t.exact else t.target }

  /** `sameExactOccurrence` */
  predicate SameOccurrence(a: Subject, b: Subject) {
    && a.repository == b.repository && a.run.Some? && a.run == b.run && a.attempt.Some? && a.attempt == b.attempt
    && a.job.Some? && a.job == b.job && a.step != "" && a.step == b.step
  }

  /** The fact that is contradicted, projected without its own contradictions. */
  function Contradicted(env: Env, fact: Fact, other: Fact, focus: string): Projected {
    if other.body.Depends? then var t := PlainDependency(env, other, focus); Projected(Returned(t), t.calls)
    else if other.body.Acts? && SameOccurrence(other.subject, fact.subject) then RuntimeAction(env, other, focus)
    else Projected("", [])
  }

  function Contradiction(env: Env, idx: Index, fact: Fact, exact: string, time: string, focus: string, id: string): seq<Call> {
    if id !in idx.factsById then []
    else
      var other := idx.factsById[id];
      var p := Contradicted(env, fact, other, focus);
      p.calls
      + if p.target == "" || p.target == exact then []
        else [ContradictionEdge(fact, other, exact, p.target, time, focus)]
  }

  function ContradictionEdge(fact: Fact, other: Fact, exact: string, target: string, time: string, focus: string): Call {
    EdgeCall(EdgeKind.Contradicts, exact, target, fact.evidence + other.evidence, time, false, CONTRADICTION_RULE, focus)
  }

  function Contradictions(env: Env, idx: Index, fact: Fact, exact: string, time: string, focus: string): string -> seq<Call> {
    id => Contradiction(env, idx, fact, exact, time, focus, id)
  }

  /** `projectDependency` */
  function DependencyFact(env: Env, idx: Index, fact: Fact, focus: string): Projected {
    var t := PlainDependency(env, fact, focus);
    Projected(Returned(t), t.calls + ContradictionCalls(env, idx, fact, t.exact, focus))
  }

  function ContradictionCalls(env: Env, idx: Index, fact: Fact, exact: string, focus: string): seq<Call> {
    if exact != "" && fact.body.Depends? then
      Gather(fact.body.dependency.contradicts, Contradictions(env, idx, fact, exact, fact.body.dependency.time, focus))
    else []
  }

  // ----- Exposures -----

  function SecretNode(name: Option<string>, fallback: string, evidence: seq<string>, focus: string): NewNode {
    var key := if name.Some? then name.value else fallback;
    NodeCall(NodeKind.SecretMetadata, key, ["secret-metadata", key], evidence, focus)
  }

  /** `projectCredential` */
  function CredentialCalls(env: Env, c: Detail, source: string, job: string, hasStep: bool, time: string, focus: string): seq<Call>
    requires c.Credential?
  {
    match c.kind
    case TokenPermission =>
      var token := NodeCall(NodeKind.TokenCapability, "GITHUB_TOKEN " + c.permission + ": " + c.access,
                            ["token-capability", c.permission, c.access], c.cited, focus);
      [token, Observed(EdgeKind.HadTokenPermission, job, IdOf(env, token), c.cited, time, focus)]
      + if c.runtimeObserved && c.permission == "id-token" && c.access == "write" && c.cited != [] then
          var provider := NodeCall(NodeKind.OIDCProvider, "GitHub Actions OIDC token service", ["oidc-provider", "github-actions"], c.cited, focus);
          [provider, EdgeCall(EdgeKind.CouldMintOIDC, job, IdOf(env, provider), c.cited, time, false, OIDC_RULE, focus)]
        else []
    case OidcMinting => []
    case SecretReferenced =>
      var secret := SecretNode(c.secret, "named secret reference", c.cited, focus);
      [secret, Observed(EdgeKind.ReferencedSecret, job, IdOf(env, secret), c.cited, time, focus)]
    case SecretPassed =>
      if !hasStep then []
      else
        var secret := SecretNode(c.secret, "named secret reference", c.cited, focus);
        [secret, Observed(EdgeKind.PassedSecretTo, IdOf(env, secret), source, c.cited, time, focus)]
    case SecretMapped =>
      var secret := SecretNode(c.secret, "mapped secret reference", c.cited, focus);
      [secret, Observed(EdgeKind.PassedSecretTo, IdOf(env, secret), source, c.cited, time, focus)]
    case SecretInherited =>
      var secret := SecretNode(c.secret, "inherited secret set (names not retained)", c.cited, focus);
      [secret, Observed(EdgeKind.InheritedSecret, source, IdOf(env, secret), c.cited, time, focus)]
    case SecretEligible => []
  }

  /** `resourceGraphTypes` */
  function ResourceTypes(kind: string): Option<(NodeKind, EdgeKind)> {
    if kind == "ARTIFACT" then Some((NodeKind.Artifact, EdgeKind.ProducedArtifact))
    else if kind == "PACKAGE" then Some((NodeKind.Package, EdgeKind.PublishedPackage))
    else if kind == "RELEASE" then Some((NodeKind.Release, EdgeKind.CreatedRelease))
    else if kind == "DEPLOYMENT" then Some((NodeKind.Deployment, EdgeKind.CreatedDeployment))
    else if kind == "REPOSITORY_WRITE" then Some((NodeKind.RepositoryResource, EdgeKind.RepositoryWrite))
    else if kind == "PULL_REQUEST_CHANGE" then Some((NodeKind.PullRequestChange, EdgeKind.PullRequestChange))
    else None
  }

  /** `projectResource` */
  function ResourceCalls(env: Env, r: Detail, source: string, time: string, focus: string): seq<Call>
    requires r.Resource?
  {
    if ResourceTypes(r.sort).None? then []
    else
      var (kind, edge) := ResourceTypes(r.sort).value;
      var node := NodeCall(kind, r.sort + " / " + r.name, ["resource", r.sort, r.name], r.cited, focus);
      [node, if r.observedAfter then EdgeCall(EdgeKind.ObservedAfter, source, IdOf(env, node), r.cited, time, true, CORRELATION_RULE, focus)
             else Observed(edge, source, IdOf(env, node), r.cited, time, focus)]
  }

  /** `projectRunner` */
  function RunnerCalls(env: Env, r: Detail, job: string, evidence: seq<string>, time: string, focus: string): seq<Call>
    requires r.Runner?
  {
    var identity := r.classification + ":" + r.runnerName + if r.runnerId.Some? then ":" + Itoa(r.runnerId.value) else "";
    var title := r.classification + if r.runnerName != "" then " / " + r.runnerName else "";
    var runner := NodeCall(NodeKind.Runner, title, ["runner", identity], evidence, focus);
    [runner, Observed(EdgeKind.ExecutedOnRunner, job, IdOf(env, runner), evidence, time, focus)]
    + GroupCalls(env, r.group, IdOf(env, runner), evidence, time, focus)
  }

  function GroupCalls(env: Env, name: string, runner: string, evidence: seq<string>, time: string, focus: string): seq<Call> {
    if name == "" then []
    else
      var group := NodeCall(NodeKind.RunnerGroup, name, ["runner-group", name], evidence, focus);
      [group, Observed(EdgeKind.RunnerInGroup, runner, IdOf(env, group), evidence, time, focus)]
  }

  function EligibleFor(env: Env, environment: string, evidence: seq<string>, time: string, focus: string, name: string): seq<Call> {
    var secret := SecretNode(Some(name), "environment secret eligibility", evidence, focus);
    [secret, Observed(EdgeKind.EnvironmentSecretEligible, environment, IdOf(env, secret), evidence, time, focus)]
  }

  function EligibleSecret(env: Env, environment: string, evidence: seq<string>, time: string, focus: string): string -> seq<Call> {
    name => EligibleFor(env, environment, evidence, time, focus, name)
  }

  /** `projectEnvironment` */
  function EnvironmentCalls(env: Env, e: Detail, job: string, evidence: seq<string>, time: string, focus: string): seq<Call>
    requires e.Environment?
  {
    var node := NodeCall(NodeKind.Environment, e.name + " / gate " + e.gate, ["environment", e.name], evidence, focus);
    [node, Observed(EdgeKind.TargetedEnvironment, job, IdOf(env, node), evidence, time, focus)]
    + CrossedCalls(env, e, IdOf(env, node), job, evidence, time, focus)
  }

  /** What a job that crossed the gate adds. */
  function CrossedCalls(env: Env, e: Detail, node: string, job: string, evidence: seq<string>, time: string, focus: string): seq<Call>
    requires e.Environment?
  {
    if !e.started || !(e.gate in ["approved", "bypassed", "crossed", "not-required"]) then []
    else
      [Observed(EdgeKind.CrossedEnvironmentGate, job, node, evidence, time, focus)]
      + Gather(e.secrets, EligibleSecret(env, node, evidence, time, focus))
  }

  function DetailCalls(env: Env, x: Exposure, source: string, job: string, evidence: seq<string>, focus: string): seq<Call> {
    match x.detail
    case None => []
    case Some(Credential(_, _, _, _, _, _)) => CredentialCalls(env, x.detail.value, source, job, x.step != "", x.time, focus)
    case Some(Resource(_, _, _, _)) => ResourceCalls(env, x.detail.value, source, x.time, focus)
    case Some(Runner(_, _, _, _)) => RunnerCalls(env, x.detail.value, job, evidence, x.time, focus)
    case Some(Environment(_, _, _, _)) => EnvironmentCalls(env, x.detail.value, job, evidence, x.time, focus)
  }

  /** One exposure of the finding's execution. */
  function ExposureFact(env: Env, f: Finding, execution: Execution, fact: Fact): seq<Call> {
    if !fact.body.Exposes? || fact.body.exposure.execution != execution then []
    else
      var x, evidence, focus := fact.body.exposure, fact.evidence, f.revision;
      if x.step != "" && f.step != "" && x.step != f.step then []
      else
        var job := JobNode(env, execution, evidence, focus);
        var step := StepNode(x.step, evidence, focus);
        var source := if x.step != "" then IdOf(env, step) else IdOf(env, job);
        [job]
        + (if x.step != "" then [step, Observed(EdgeKind.StepInJob, IdOf(env, job), source, evidence, x.time, focus)] else [])
        + DetailCalls(env, x, source, IdOf(env, job), evidence, focus)
  }

  /** `projectExposures`, for one fact. */
  function ExposureCalls(env: Env, f: Finding, execution: Execution): Fact -> seq<Call> { fact => ExposureFact(env, f, execution, fact) }

  // ----- Findings -----

  function EvidenceOf<K>(facts: map<K, Fact>, key: K): seq<string> { if key in facts then facts[key].evidence else [] }

  /** `addFactEdge` */
  function FactEdge<K>(kind: EdgeKind, source: string, target: string, facts: map<K, Fact>, key: K, focus: string): seq<Call> {
    if EvidenceOf(facts, key) == [] then [] else [Observed(kind, source, target, facts[key].evidence, facts[key].time, focus)]
  }

  function RunKey(repository: int, run: int): string { Itoa(repository) + "/" + Itoa(run) }

  function AttemptKey(a: Attempt): string { RunKey(a.repository, a.run) + "/" + Itoa(a.attempt) }

  /** The run, attempt, job and step nodes of a finding's subject, as deep as the finding goes. */
  function SubjectNodes(env: Env, idx: Index, f: Finding, repository: int): Projected {
    var node := NodeCall(NodeKind.Repository, f.repository, ["repository", Itoa(repository)], EvidenceOf(idx.repositoryFacts, repository), f.revision);
    if f.run <= 0 then Projected(IdOf(env, node), [node])
    else
      var p := RunNodes(env, idx, f, repository, IdOf(env, node));
      p.(calls := [node] + p.calls)
  }

  function RunNodes(env: Env, idx: Index, f: Finding, repository: int, parent: string): Projected {
    var key := RunKey(repository, f.run);
    var path := if key in idx.runPaths && idx.runPaths[key].Some? then " / " + idx.runPaths[key].value else "";
    var node := RunNode(repository, f.run, "run " + Itoa(f.run) + path, EvidenceOf(idx.runFacts, key), f.revision);
    var calls := [node] + FactEdge(EdgeKind.RunInRepository, parent, IdOf(env, node), idx.runFacts, key, f.revision);
    if f.attempt <= 0 then Projected(IdOf(env, node), calls)
    else
      var p := AttemptNodes(env, idx, f, Attempt(repository, f.run, f.attempt % 0x1_0000_0000), IdOf(env, node));
      p.(calls := calls + p.calls)
  }

  function AttemptNodes(env: Env, idx: Index, f: Finding, a: Attempt, run: string): Projected {
    var key := AttemptKey(a);
    var node := AttemptNode(a, EvidenceOf(idx.attemptFacts, key), f.revision);
    var calls := [node] + FactEdge(EdgeKind.AttemptOfRun, IdOf(env, node), run, idx.attemptFacts, key, f.revision);
    if f.job <= 0 then Projected(IdOf(env, node), calls)
    else
      var p := JobNodes(env, idx, f, Execution(a.repository, a.run, a.attempt, f.job), IdOf(env, node));
      p.(calls := calls + p.calls)
  }

  function JobNodes(env: Env, idx: Index, f: Finding, e: Execution, attempt: string): Projected {
    var key := env.jobText(e);
    var name := if key in idx.jobNames && idx.jobNames[key] != "" then " / " + idx.jobNames[key] else "";
    var node := NodeCall(NodeKind.Job, "job " + Itoa(e.job) + name, ["job", key], EvidenceOf(idx.jobFacts, key), f.revision);
    var calls := [node] + FactEdge(EdgeKind.JobExecutedInAttempt, attempt, IdOf(env, node), idx.jobFacts, key, f.revision);
    if f.step == "" then Projected(IdOf(env, node), calls)
    else
      Projected(IdOf(env, StepNode(f.step, [], f.revision)), calls + LastStep(env, f, IdOf(env, node)))
  }

  function LastStep(env: Env, f: Finding, job: string): seq<Call> {
    var step := StepNode(f.step, [], f.revision);
    [step, EdgeCall(EdgeKind.StepInJob, job, IdOf(env, step), f.evidence, f.time, true, FINDING_RULE, f.revision)]
  }

  /** `factMatchesFinding` and `evidenceIntersects` */
  predicate Concerns(fact: Fact, f: Finding, repository: int) {
    var s := fact.subject;
    && s.repository == repository
    && (f.run <= 0 || s.run == Some(f.run))
    && (f.attempt <= 0 || s.attempt == Some(f.attempt))
    && (f.job <= 0 || s.job == Some(f.job))
    && (f.step == "" || s.step == "" || s.step == f.step)
    && exists e :: e in fact.evidence && e in f.evidence
  }

  function ActionOf(env: Env, f: Finding, repository: int): Fact -> Projected {
    fact => if Concerns(fact, f, repository) then RuntimeAction(env, fact, f.revision) else Projected("", [])
  }

  function DependencyOf(env: Env, idx: Index, f: Finding, repository: int): Fact -> Projected {
    fact => if Concerns(fact, f, repository) then DependencyFact(env, idx, fact, f.revision) else Projected("", [])
  }

  function CallsOf(project: Fact -> Projected): Fact -> seq<Call> { fact => project(fact).calls }

  function TargetOf(project: Fact -> Projected): Fact -> seq<string> {
    fact => if project(fact).target != "" then [project(fact).target] else []
  }

  /** `projectFindingFacts`: the calls it makes and the targets it returns. */
  function FactCalls(env: Env, idx: Index, f: Finding, repository: int): seq<Call> {
    Gather(idx.actions, CallsOf(ActionOf(env, f, repository))) + Gather(idx.dependencies, CallsOf(DependencyOf(env, idx, f, repository)))
  }

  function FactTargets(env: Env, idx: Index, f: Finding, repository: int): seq<string> {
    SortUnique(Gather(idx.actions, TargetOf(ActionOf(env, f, repository)))
               + Gather(idx.dependencies, TargetOf(DependencyOf(env, idx, f, repository))))
  }

  function FindingNode(f: Finding): NewNode {
    NodeCall(NodeKind.Finding, f.state + " / " + f.provenance, ["finding", f.revision], f.evidence, f.revision)
  }

  function SupportedBy(env: Env, f: Finding, e: string): seq<Call> {
    var node := EvidenceNode(e, f.revision);
    [node, Observed(EdgeKind.SupportedByEvidence, IdOf(env, FindingNode(f)), IdOf(env, node), [e], f.time, f.revision)]
  }

  function Supported(env: Env, f: Finding): string -> seq<Call> { e => SupportedBy(env, f, e) }

  function About(env: Env, f: Finding, target: string): Call {
    EdgeCall(EdgeKind.FindingAbout, IdOf(env, FindingNode(f)), target, f.evidence, f.time, true, FINDING_RULE, f.revision)
  }

  function AboutTarget(env: Env, f: Finding, subject: string): string -> seq<Call> {
    target => AboutOne(env, f, subject, target)
  }

  function AboutOne(env: Env, f: Finding, subject: string, target: string): seq<Call> {
    if f.evidence != [] && target != "" && target != subject then [About(env, f, target)] else []
  }

  function ExposuresOf(env: Env, idx: Index, f: Finding, repository: int): seq<Call> {
    if f.state == "CONFIRMED_EXECUTED" && f.run > 0 && f.attempt > 0 && f.job > 0 then
      Gather(idx.exposures, ExposureCalls(env, f, Execution(repository, f.run, f.attempt % 0x1_0000_0000, f.job)))
    else []
  }

  function SubjectCalls(env: Env, idx: Index, f: Finding, repository: int): seq<Call> {
    var subject := SubjectNodes(env, idx, f, repository);
    subject.calls
    + (if f.evidence != [] then [About(env, f, subject.target)] else [])
    + FactCalls(env, idx, f, repository)
    + Gather(FactTargets(env, idx, f, repository), AboutTarget(env, f, subject.target))
    + ExposuresOf(env, idx, f, repository)
  }

  function EvidenceCalls(env: Env, f: Finding): seq<Call> { [FindingNode(f)] + Gather(f.evidence, Supported(env, f)) }

  function AboutCalls(env: Env, idx: Index, f: Finding, repository: Option<int>): seq<Call> {
    if repository.Some? then SubjectCalls(env, idx, f, repository.value) else []
  }

  /** `projectFinding`, given the repository its name was resolved to. */
  function FindingCalls(env: Env, idx: Index, f: Finding, repository: Option<int>): seq<Call> {
    EvidenceCalls(env, f) + AboutCalls(env, idx, f, repository)
  }
}
