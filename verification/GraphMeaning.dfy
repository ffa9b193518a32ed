/** An edge is in the evidence graph exactly when some finding, with the repository found for it, or some fact drawn upon
    for it says so (internal/analyze/graph.go). */
module GraphMeaning {
  import opened Orders
  import opened Identity
  import opened GraphKinds
  import opened Graph
  import opened GraphProjection
  import opened GraphTheorems
  import opened GraphFits
  import opened GraphRules
  import opened GraphEdges

  /** Two calls for one and the same edge. */
  predicate OneAndTheSame(c: Call, d: Call) {
    && c.EdgeCall? && d.EdgeCall? && c.link == d.link && c.source == d.source && c.target == d.target
    && c.time == d.time && c.inferred == d.inferred && c.rule == d.rule
  }

  ghost predicate SaidBy(env: Env, idx: Index, resolved: seq<Resolved>, d: Call) {
    d.EdgeCall? && Draws(d) && exists r :: r in resolved && Says(env, idx, r, d)
  }

  ghost predicate InGraph(edges: map<string, Edge>, c: Call) { exists id :: id in edges && SameEdge(c, edges[id]) }

  lemma CalledIsSaid(env: Env, idx: Index, resolved: seq<Resolved>, d: Call)
    requires d.EdgeCall?
    ensures d in Gather(resolved, CallsFor(env, idx)) && d in Puts(d) <==> SaidBy(env, idx, resolved, d)
  {
    GatherMember(resolved, CallsFor(env, idx), d);
    assert d in Puts(d) <==> Draws(d) by {
      if d in Puts(d) { assert Puts(d) != []; }
    }
    forall r ensures d in CallsFor(env, idx)(r) <==> Says(env, idx, r, d) { SaysExactly(env, idx, r, d); }
  }

  /** Given the repositories found, an edge is in the graph exactly when it is said. */
  lemma BuiltEdgesExactly(env: Env, idx: Index, resolved: seq<Resolved>, nodes: map<string, Node>, edges: map<string, Edge>, c: Call)
    requires Injective(env.hash) && Builds(env, idx, resolved, nodes, edges)
    ensures InGraph(edges, c) <==> exists d :: SaidBy(env, idx, resolved, d) && OneAndTheSame(c, d)
  {
    var calls := Gather(resolved, CallsFor(env, idx));
    if InGraph(edges, c) {
      var id :| id in edges && SameEdge(c, edges[id]);
      var d := CallOf(env, calls, id);
      CalledIsSaid(env, idx, resolved, d);
      assert SaidBy(env, idx, resolved, d) && OneAndTheSame(c, d);
    }
    if d :| SaidBy(env, idx, resolved, d) && OneAndTheSame(c, d) {
      CalledIsSaid(env, idx, resolved, d);
      CalledEdgeIs(env, calls, d);
      assert SameEdge(c, edges[EdgeId(env, d)]);
    }
  }

  /** A finding of the report and an answer of the lookup for its repository. */
  ghost predicate Answered(idx: Index, findings: seq<Finding>, r: Resolved) {
    r.finding in findings && IsAnswer(idx, r.finding.repository, r.repository)
  }

  lemma AnsweredIsResolved(idx: Index, findings: seq<Finding>, resolved: seq<Resolved>, r: Resolved)
    requires Answers(idx, findings, resolved)
    ensures r in resolved ==> Answered(idx, findings, r)
    ensures UniqueNames(idx) && Answered(idx, findings, r) ==> r in resolved
  {
    if UniqueNames(idx) && Answered(idx, findings, r) {
      var i :| 0 <= i < |findings| && findings[i] == r.finding;
      OneAnswer(idx, r.finding.repository, r.repository, resolved[i].repository);
      assert resolved[i] == r;
    }
  }

  /** Some finding, with an answer for its repository, says this edge. */
  ghost predicate Said(env: Env, idx: Index, findings: seq<Finding>, d: Call) {
    d.EdgeCall? && Draws(d) && exists r :: Answered(idx, findings, r) && Says(env, idx, r, d)
  }

  lemma SaidByAll(env: Env, idx: Index, findings: seq<Finding>, resolved: seq<Resolved>, d: Call)
    requires Answers(idx, findings, resolved)
    ensures SaidBy(env, idx, resolved, d) ==> Said(env, idx, findings, d)
    ensures UniqueNames(idx) && Said(env, idx, findings, d) ==> SaidBy(env, idx, resolved, d)
  {
    forall r ensures r in resolved ==> Answered(idx, findings, r)
      ensures UniqueNames(idx) && Answered(idx, findings, r) ==> r in resolved
    {
      AnsweredIsResolved(idx, findings, resolved, r);
    }
  }

  /** Every edge of the graph is said by some finding; and, when repository names are unique, every edge that is said
      is in the graph. */
  lemma EdgesExactly(env: Env, idx: Index, findings: seq<Finding>, nodes: map<string, Node>, edges: map<string, Edge>, c: Call)
    requires Injective(env.hash) && IsGraph(env, idx, findings, nodes, edges)
    ensures InGraph(edges, c) ==> exists d :: Said(env, idx, findings, d) && OneAndTheSame(c, d)
    ensures UniqueNames(idx) && (exists d :: Said(env, idx, findings, d) && OneAndTheSame(c, d)) ==> InGraph(edges, c)
  {
    var resolved :| Answers(idx, findings, resolved) && Builds(env, idx, resolved, nodes, edges);
    BuiltEdgesExactly(env, idx, resolved, nodes, edges, c);
    forall d ensures SaidBy(env, idx, resolved, d) ==> Said(env, idx, findings, d)
      ensures UniqueNames(idx) && Said(env, idx, findings, d) ==> SaidBy(env, idx, resolved, d)
    {
      SaidByAll(env, idx, findings, resolved, d);
    }
  }

  /** An edge cites exactly the evidence of those that say it. */
  lemma EvidenceExactly(env: Env, idx: Index, resolved: seq<Resolved>, nodes: map<string, Node>, edges: map<string, Edge>, id: string, x: string)
    requires Injective(env.hash) && Builds(env, idx, resolved, nodes, edges) && id in edges
    ensures x in edges[id].evidence <==> exists d :: SaysEdge(env, idx, resolved, d, edges[id]) && x in d.evidence
  {
    var puts := Unfold(Gather(resolved, CallsFor(env, idx)));
    EdgesReflect(env, puts);
    assert HoldsEdge(env, puts, edges[id]);
    GatherMember(puts, EdgeEvidence(env, id), x);
    forall d ensures d in puts && OffersEdge(env, d, id) <==> SaysEdge(env, idx, resolved, d, edges[id]) {
      OfferedIsSaid(env, idx, resolved, nodes, edges, id, d);
    }
  }

  /** It is in focus for exactly the findings that say it or for which a fact does. */
  lemma FocusExactly(env: Env, idx: Index, resolved: seq<Resolved>, nodes: map<string, Node>, edges: map<string, Edge>, id: string, x: string)
    requires Injective(env.hash) && Builds(env, idx, resolved, nodes, edges) && id in edges
    ensures x in edges[id].focus <==> exists d :: SaysEdge(env, idx, resolved, d, edges[id]) && x == d.focus != ""
  {
    var puts := Unfold(Gather(resolved, CallsFor(env, idx)));
    EdgesReflect(env, puts);
    assert HoldsEdge(env, puts, edges[id]);
    GatherMember(puts, EdgeFocus(env, id), x);
    forall d ensures d in puts && x in EdgeFocus(env, id)(d) <==> SaysEdge(env, idx, resolved, d, edges[id]) && x == d.focus != "" {
      OfferedIsSaid(env, idx, resolved, nodes, edges, id, d);
      FocusOfACall(env, id, d, x);
    }
  }

  lemma FocusOfACall(env: Env, id: string, d: Call, x: string)
    ensures x in EdgeFocus(env, id)(d) <==> OffersEdge(env, d, id) && x == d.focus != ""
  {
  }

  ghost predicate SaysEdge(env: Env, idx: Index, resolved: seq<Resolved>, d: Call, e: Edge) {
    SaidBy(env, idx, resolved, d) && SameEdge(d, e)
  }

  lemma OfferedIsSaid(env: Env, idx: Index, resolved: seq<Resolved>, nodes: map<string, Node>, edges: map<string, Edge>, id: string, d: Call)
    requires Injective(env.hash) && Builds(env, idx, resolved, nodes, edges) && id in edges
    ensures d in Unfold(Gather(resolved, CallsFor(env, idx))) && OffersEdge(env, d, id) <==> SaysEdge(env, idx, resolved, d, edges[id])
  {
    var calls := Gather(resolved, CallsFor(env, idx));
    var made := CallOf(env, calls, id);
    if d.EdgeCall? {
      OfferedExactly(env, calls, made, d);
      CalledIsSaid(env, idx, resolved, d);
    }
  }

  lemma OfferedExactly(env: Env, calls: seq<Call>, made: Call, d: Call)
    requires Injective(env.hash) && d.EdgeCall? && made.EdgeCall?
    ensures d in Unfold(calls) && OffersEdge(env, d, EdgeId(env, made)) <==> d in calls && d in Puts(d) && OneAndTheSame(made, d)
  {
    if d in Unfold(calls) && OffersEdge(env, d, EdgeId(env, made)) {
      EdgeWasCalled(calls, d);
      DeterministicIDInjective(env.hash, "gedge1", EdgeParts(d), "gedge1", EdgeParts(made));
      PartsDecideEdge(d, made);
    }
    if d in calls && d in Puts(d) && OneAndTheSame(made, d) {
      GatherMember(calls, Puts, d);
      assert EdgeParts(d) == EdgeParts(made);
    }
  }

  // ----- One kind at a time -----

  /** An edge of this kind leads from source to target. */
  ghost predicate Leads(edges: map<string, Edge>, link: EdgeKind, source: string, target: string) {
    exists id :: id in edges && edges[id].kind == link && edges[id].source == source && edges[id].target == target
  }

  /** Some finding says an edge of this kind from source to target. */
  ghost predicate SaidToLead(env: Env, idx: Index, findings: seq<Finding>, link: EdgeKind, source: string, target: string, r: Resolved, d: Call) {
    Answered(idx, findings, r) && Says(env, idx, r, d) && d.EdgeCall? && Draws(d) && d.link == link && Joins(d, source, target)
  }

  lemma LeadsIsSaid(env: Env, idx: Index, findings: seq<Finding>, nodes: map<string, Node>, edges: map<string, Edge>,
                    link: EdgeKind, source: string, target: string) returns (r: Resolved, d: Call)
    requires Injective(env.hash) && IsGraph(env, idx, findings, nodes, edges) && Leads(edges, link, source, target)
    ensures SaidToLead(env, idx, findings, link, source, target, r, d)
  {
    var id :| id in edges && edges[id].kind == link && edges[id].source == source && edges[id].target == target;
    var e := edges[id];
    var c := EdgeCall(link, source, target, [], e.time, e.inferred, e.rule, "");
    assert SameEdge(c, e);
    EdgesExactly(env, idx, findings, nodes, edges, c);
    d :| Said(env, idx, findings, d) && OneAndTheSame(c, d);
    r :| Answered(idx, findings, r) && Says(env, idx, r, d);
  }

  lemma SaidLeads(env: Env, idx: Index, findings: seq<Finding>, nodes: map<string, Node>, edges: map<string, Edge>,
                  link: EdgeKind, source: string, target: string, r: Resolved, d: Call)
    requires Injective(env.hash) && UniqueNames(idx) && IsGraph(env, idx, findings, nodes, edges)
    requires SaidToLead(env, idx, findings, link, source, target, r, d)
    ensures Leads(edges, link, source, target)
  {
    assert Said(env, idx, findings, d) && OneAndTheSame(d, d);
    EdgesExactly(env, idx, findings, nodes, edges, d);
    var id :| id in edges && SameEdge(d, edges[id]);
  }

  /** Kinds that only a runtime action says. */
  predicate OfActions(link: EdgeKind) { link.JobPreparedAction? || link.StepDownloadedAction? || link.StepExecutedAction? || link.PackageSourceCommit? }

  /** Kinds that only an exposure says. */
  predicate OfExposures(link: EdgeKind) {
    || link.ExecutedOnRunner? || link.RunnerInGroup? || link.HadTokenPermission? || link.ReferencedSecret? || link.PassedSecretTo?
    || link.InheritedSecret? || link.TargetedEnvironment? || link.CrossedEnvironmentGate? || link.EnvironmentSecretEligible?
    || link.CouldMintOIDC? || link.ProducedArtifact? || link.PublishedPackage? || link.CreatedRelease? || link.CreatedDeployment?
    || link.RepositoryWrite? || link.PullRequestChange? || link.ObservedAfter?
  }

  lemma KindsOfActions(env: Env, fact: Fact, focus: string, c: Call)
    requires ActionSays(env, fact, focus, c)
    ensures !OfExposures(c.link)
  {
  }

  lemma KindsOfDependencies(env: Env, fact: Fact, focus: string, c: Call)
    requires DependencySays(env, fact, focus, c)
    ensures !OfActions(c.link) && !OfExposures(c.link)
  {
  }

  lemma KindsOfFindings(env: Env, idx: Index, r: Resolved, c: Call)
    requires FindingSays(env, idx, r, c) || (r.repository.Some? && SubjectSays(env, idx, r.finding, r.repository.value, c))
    ensures !OfActions(c.link) && !OfExposures(c.link)
  {
  }

  lemma KindsOfExposures(env: Env, fact: Fact, focus: string, c: Call)
    requires ExposureSays(env, fact, focus, c)
    ensures OfExposures(c.link) || c.link.StepInJob?
  {
  }

  ghost predicate ActedSays(env: Env, idx: Index, r: Resolved, d: Call) {
    exists fact :: ActsFor(idx, r, fact) && ActionSays(env, fact, r.finding.revision, d)
  }

  lemma KindsOfAllActions(env: Env, idx: Index, r: Resolved, d: Call)
    requires ActedSays(env, idx, r, d)
    ensures d.EdgeCall? && !OfExposures(d.link)
  {
    var fact :| ActsFor(idx, r, fact) && ActionSays(env, fact, r.finding.revision, d);
    KindsOfActions(env, fact, r.finding.revision, d);
  }

  lemma KindsOfAllExposures(env: Env, idx: Index, r: Resolved, d: Call)
    requires ExposedSays(env, idx, r, d)
    ensures d.EdgeCall? && (OfExposures(d.link) || d.link.StepInJob?)
  {
    var fact :| ExposesFor(idx, r, fact) && ExposureSays(env, fact, r.finding.revision, d);
    KindsOfExposures(env, fact, r.finding.revision, d);
  }

  lemma OnlyActionsSay(env: Env, idx: Index, r: Resolved, d: Call) returns (fact: Fact)
    requires d.EdgeCall? && OfActions(d.link) && Says(env, idx, r, d)
    ensures ActsFor(idx, r, fact) && ActionSays(env, fact, r.finding.revision, d)
  {
    NotFromADependency(env, idx, r, d);
    if ExposedSays(env, idx, r, d) { KindsOfAllExposures(env, idx, r, d); }
    fact :| ActsFor(idx, r, fact) && ActionSays(env, fact, r.finding.revision, d);
  }

  lemma NotFromADependency(env: Env, idx: Index, r: Resolved, d: Call)
    requires d.EdgeCall? && (OfActions(d.link) || OfExposures(d.link)) && Says(env, idx, r, d)
    ensures ActedSays(env, idx, r, d) || ExposedSays(env, idx, r, d)
  {
    if FindingSays(env, idx, r, d) || (r.repository.Some? && SubjectSays(env, idx, r.finding, r.repository.value, d)) {
      KindsOfFindings(env, idx, r, d);
    }
    if fact :| DependsFor(idx, r, fact) && DependencySays(env, fact, r.finding.revision, d) {
      KindsOfDependencies(env, fact, r.finding.revision, d);
    }
  }

  lemma OnlyExposuresSay(env: Env, idx: Index, r: Resolved, d: Call) returns (fact: Fact)
    requires d.EdgeCall? && OfExposures(d.link) && Says(env, idx, r, d)
    ensures ExposesFor(idx, r, fact) && ExposureSays(env, fact, r.finding.revision, d)
  {
    NotFromADependency(env, idx, r, d);
    if ActedSays(env, idx, r, d) { KindsOfAllActions(env, idx, r, d); }
    fact :| ExposesFor(idx, r, fact) && ExposureSays(env, fact, r.finding.revision, d);
  }

  /** An action that cites evidence is drawn upon for a finding of the report. */
  ghost predicate ActsInReport(idx: Index, findings: seq<Finding>, r: Resolved, fact: Fact) {
    Answered(idx, findings, r) && ActsFor(idx, r, fact) && fact.body.Acts? && fact.evidence != []
  }

  lemma ActionsDraw(env: Env, o: Observation)
    requires Injective(env.hash)
    ensures o.step.Some? ==> StepId(env, o.step.value) !in ["", ActionTarget(env, o)]
    ensures JobId(env, o.execution) !in ["", ActionTarget(env, o)] && ActionTarget(env, o) != ""
  {
    var kind, identity := ActionNode(o);
    assert ActionTarget(env, o) == NodeId(env, kind, identity);
    NotEmpty(env, kind, identity);
    NotEmpty(env, NodeKind.Job, ["job", env.jobText(o.execution)]);
    IdDecidesNode(env, NodeKind.Job, ["job", env.jobText(o.execution)], kind, identity);
    if o.step.Some? {
      NotEmpty(env, NodeKind.Step, ["step", o.step.value]);
      IdDecidesNode(env, NodeKind.Step, ["step", o.step.value], kind, identity);
    }
  }

  lemma ActionNode(o: Observation) returns (kind: NodeKind, identity: seq<string>)
    ensures forall env :: ActionTarget(env, o) == NodeId(env, kind, identity)
    ensures !kind.Job? && !kind.Step?
  {
    if o.source.Some? {
      kind, identity := NodeKind.ActionCommit, ["action-commit", o.repository, o.subpath, o.source.value.algorithm, o.source.value.value];
    } else if o.package.Some? {
      var d := o.package.value;
      kind, identity := NodeKind.ImmutableActionPackage, ["immutable-action-package", o.repository, o.subpath, d.subject, d.algorithm, d.value];
    } else {
      kind, identity := NodeKind.ActionRepository, ["action-repository", o.repository];
    }
  }

  /** The edge says that this action was used at this step, or prepared for this job. */
  predicate Uses(env: Env, link: EdgeKind, o: Observation, source: string, target: string) {
    && target == ActionTarget(env, o)
    && match link
       case JobPreparedAction => o.step.None? && o.downloaded && source == JobId(env, o.execution)
       case StepDownloadedAction => o.step.Some? && o.downloaded && source == StepId(env, o.step.value)
       case StepExecutedAction => o.step.Some? && o.executed && source == StepId(env, o.step.value)
       case _ => false
  }

  /** A step executed or downloaded an action in the graph, or a job prepared it, exactly when an action drawn upon for
      some finding was observed to: an action that cites evidence, at that step or at no step of that job. */
  lemma UsesExactly(env: Env, idx: Index, findings: seq<Finding>, nodes: map<string, Node>, edges: map<string, Edge>,
                    link: EdgeKind, source: string, target: string)
    requires Injective(env.hash) && UniqueNames(idx) && IsGraph(env, idx, findings, nodes, edges)
    requires link.JobPreparedAction? || link.StepDownloadedAction? || link.StepExecutedAction?
    ensures Leads(edges, link, source, target) <==>
      exists r, fact :: ActsInReport(idx, findings, r, fact) && Uses(env, link, fact.body.action, source, target)
  {
    if Leads(edges, link, source, target) {
      var r, d := LeadsIsSaid(env, idx, findings, nodes, edges, link, source, target);
      var fact := OnlyActionsSay(env, idx, r, d);
      assert ActsInReport(idx, findings, r, fact) && Uses(env, link, fact.body.action, source, target);
    }
    if r, fact :| ActsInReport(idx, findings, r, fact) && Uses(env, link, fact.body.action, source, target) {
      UseIsSaid(env, idx, findings, r, fact, link, source, target);
      SaidLeads(env, idx, findings, nodes, edges, link, source, target, r,
                Observed(link, source, target, fact.evidence, fact.body.action.time, r.finding.revision));
    }
  }

  lemma UseIsSaid(env: Env, idx: Index, findings: seq<Finding>, r: Resolved, fact: Fact, link: EdgeKind, source: string, target: string)
    requires Injective(env.hash) && ActsInReport(idx, findings, r, fact) && Uses(env, link, fact.body.action, source, target)
    ensures SaidToLead(env, idx, findings, link, source, target, r,
                       Observed(link, source, target, fact.evidence, fact.body.action.time, r.finding.revision))
  {
    ActionsDraw(env, fact.body.action);
    assert ActionSays(env, fact, r.finding.revision, Observed(link, source, target, fact.evidence, fact.body.action.time, r.finding.revision));
  }

  lemma StepExecutedExactly(env: Env, idx: Index, findings: seq<Finding>, nodes: map<string, Node>, edges: map<string, Edge>,
                            step: string, target: string)
    requires Injective(env.hash) && UniqueNames(idx) && IsGraph(env, idx, findings, nodes, edges)
    ensures Leads(edges, EdgeKind.StepExecutedAction, StepId(env, step), target) <==>
      exists r, fact :: ActsInReport(idx, findings, r, fact) && fact.body.action.executed && fact.body.action.step == Some(step)
        && target == ActionTarget(env, fact.body.action)
  {
    UsesExactly(env, idx, findings, nodes, edges, EdgeKind.StepExecutedAction, StepId(env, step), target);
    forall key ensures StepId(env, key) == StepId(env, step) <==> key == step { StepIdDecides(env, key, step); }
  }

  lemma StepDownloadedExactly(env: Env, idx: Index, findings: seq<Finding>, nodes: map<string, Node>, edges: map<string, Edge>,
                              step: string, target: string)
    requires Injective(env.hash) && UniqueNames(idx) && IsGraph(env, idx, findings, nodes, edges)
    ensures Leads(edges, EdgeKind.StepDownloadedAction, StepId(env, step), target) <==>
      exists r, fact :: ActsInReport(idx, findings, r, fact) && fact.body.action.downloaded && fact.body.action.step == Some(step)
        && target == ActionTarget(env, fact.body.action)
  {
    UsesExactly(env, idx, findings, nodes, edges, EdgeKind.StepDownloadedAction, StepId(env, step), target);
    forall key ensures StepId(env, key) == StepId(env, step) <==> key == step { StepIdDecides(env, key, step); }
  }

  lemma JobPreparedExactly(env: Env, idx: Index, findings: seq<Finding>, nodes: map<string, Node>, edges: map<string, Edge>,
                           job: Execution, target: string)
    requires Injective(env.hash) && UniqueNames(idx) && IsGraph(env, idx, findings, nodes, edges)
    ensures Leads(edges, EdgeKind.JobPreparedAction, JobId(env, job), target) <==>
      exists r, fact :: ActsInReport(idx, findings, r, fact) && fact.body.action.downloaded && fact.body.action.step.None?
        && env.jobText(fact.body.action.execution) == env.jobText(job) && target == ActionTarget(env, fact.body.action)
  {
    UsesExactly(env, idx, findings, nodes, edges, EdgeKind.JobPreparedAction, JobId(env, job), target);
    forall e ensures JobId(env, e) == JobId(env, job) <==> env.jobText(e) == env.jobText(job) { JobIdDecides(env, e, job); }
  }

  lemma StepIdDecides(env: Env, a: string, b: string)
    requires Injective(env.hash)
    ensures StepId(env, a) == StepId(env, b) <==> a == b
  {
    IdDecidesNode(env, NodeKind.Step, ["step", a], NodeKind.Step, ["step", b]);
    assert ["step", a][1] == a && ["step", b][1] == b;
  }

  lemma JobIdDecides(env: Env, a: Execution, b: Execution)
    requires Injective(env.hash)
    ensures JobId(env, a) == JobId(env, b) <==> env.jobText(a) == env.jobText(b)
  {
    IdDecidesNode(env, NodeKind.Job, ["job", env.jobText(a)], NodeKind.Job, ["job", env.jobText(b)]);
    assert ["job", env.jobText(a)][1] == env.jobText(a) && ["job", env.jobText(b)][1] == env.jobText(b);
  }

  /** Every edge for a credential, a resource, a runner or an environment is there exactly when an exposure of the
      execution of some confirmed finding says so. */
  lemma ExposuresExactly(env: Env, idx: Index, findings: seq<Finding>, nodes: map<string, Node>, edges: map<string, Edge>,
                         link: EdgeKind, source: string, target: string)
    requires Injective(env.hash) && UniqueNames(idx) && IsGraph(env, idx, findings, nodes, edges) && OfExposures(link)
    ensures Leads(edges, link, source, target) <==>
      exists r, fact, d :: ExposedInReport(idx, findings, r, fact) && ShowsTheWay(env, fact, r.finding.revision, link, source, target, d)
  {
    if Leads(edges, link, source, target) {
      var r, d := LeadsIsSaid(env, idx, findings, nodes, edges, link, source, target);
      var fact := OnlyExposuresSay(env, idx, r, d);
      assert ExposedInReport(idx, findings, r, fact) && ShowsTheWay(env, fact, r.finding.revision, link, source, target, d);
    }
    if r, fact, d :| ExposedInReport(idx, findings, r, fact) && ShowsTheWay(env, fact, r.finding.revision, link, source, target, d) {
      assert Says(env, idx, r, d);
      SaidLeads(env, idx, findings, nodes, edges, link, source, target, r, d);
    }
  }

  /** An exposure of the execution of some confirmed finding of the report. */
  ghost predicate ExposedInReport(idx: Index, findings: seq<Finding>, r: Resolved, fact: Fact) {
    Answered(idx, findings, r) && ExposesFor(idx, r, fact)
  }

  ghost predicate ShowsTheWay(env: Env, fact: Fact, focus: string, link: EdgeKind, source: string, target: string, d: Call) {
    ExposureSays(env, fact, focus, d) && d.EdgeCall? && Draws(d) && d.link == link && Joins(d, source, target)
  }

  function ProviderId(env: Env): string { NodeId(env, NodeKind.OIDCProvider, ["oidc-provider", "github-actions"]) }

  /** The permission to mint tokens was observed at run time, with evidence. */
  predicate MayMint(x: Exposure) {
    && x.detail.Some? && x.detail.value.Credential? && x.detail.value.kind.TokenPermission? && x.detail.value.runtimeObserved
    && x.detail.value.permission == "id-token" && x.detail.value.access == "write" && x.detail.value.cited != []
  }

  /** A job could mint tokens, in the graph, exactly when it was observed at run time to hold the permission: an assertion
      that it could is not enough. */
  lemma MintsExactly(env: Env, idx: Index, findings: seq<Finding>, nodes: map<string, Node>, edges: map<string, Edge>, job: Execution)
    requires Injective(env.hash) && UniqueNames(idx) && IsGraph(env, idx, findings, nodes, edges)
    ensures Leads(edges, EdgeKind.CouldMintOIDC, JobId(env, job), ProviderId(env)) <==>
      exists r, fact :: ExposedInReport(idx, findings, r, fact) && MayMint(fact.body.exposure)
        && env.jobText(fact.body.exposure.execution) == env.jobText(job)
  {
    ExposuresExactly(env, idx, findings, nodes, edges, EdgeKind.CouldMintOIDC, JobId(env, job), ProviderId(env));
    if r, fact, d :|
      && ExposedInReport(idx, findings, r, fact)
      && ShowsTheWay(env, fact, r.finding.revision, EdgeKind.CouldMintOIDC, JobId(env, job), ProviderId(env), d)
    {
      JobIdDecides(env, fact.body.exposure.execution, job);
      MintIsShown(env, fact, r.finding.revision, d);
    }
    if r, fact :|
      && ExposedInReport(idx, findings, r, fact) && MayMint(fact.body.exposure)
      && env.jobText(fact.body.exposure.execution) == env.jobText(job)
    {
      var d := ShowsMint(env, fact, r.finding.revision);
      assert JobId(env, fact.body.exposure.execution) == JobId(env, job);
    }
  }

  lemma MintIsShown(env: Env, fact: Fact, focus: string, d: Call)
    requires ExposureSays(env, fact, focus, d) && d.link.CouldMintOIDC?
    ensures MayMint(fact.body.exposure) && Joins(d, JobId(env, fact.body.exposure.execution), ProviderId(env))
  {
  }

  lemma ShowsMint(env: Env, fact: Fact, focus: string) returns (d: Call)
    requires Injective(env.hash) && fact.body.Exposes? && MayMint(fact.body.exposure)
    ensures ShowsTheWay(env, fact, focus, EdgeKind.CouldMintOIDC, JobId(env, fact.body.exposure.execution), ProviderId(env), d)
  {
    var x := fact.body.exposure;
    d := EdgeCall(EdgeKind.CouldMintOIDC, JobId(env, x.execution), ProviderId(env), x.detail.value.cited, x.time, false, OIDC_RULE, focus);
    NotEmpty(env, NodeKind.Job, ["job", env.jobText(x.execution)]);
    NotEmpty(env, NodeKind.OIDCProvider, ["oidc-provider", "github-actions"]);
    IdDecidesNode(env, NodeKind.Job, ["job", env.jobText(x.execution)], NodeKind.OIDCProvider, ["oidc-provider", "github-actions"]);
    assert CredentialSays(env, x.detail.value, x, focus, d);
  }

  function ResourceId(env: Env, kind: NodeKind, d: Detail): string
    requires d.Resource?
  {
    NodeId(env, kind, ["resource", d.sort, d.name])
  }

  /** A resource of a known sort and the type of its node. */
  predicate SortIs(d: Detail, kind: NodeKind)
    requires d.Resource?
  {
    || (d.sort == "ARTIFACT" && kind.Artifact?) || (d.sort == "PACKAGE" && kind.Package?) || (d.sort == "RELEASE" && kind.Release?)
    || (d.sort == "DEPLOYMENT" && kind.Deployment?) || (d.sort == "REPOSITORY_WRITE" && kind.RepositoryResource?)
    || (d.sort == "PULL_REQUEST_CHANGE" && kind.PullRequestChange?)
  }

  /** The exposure cites evidence and shows this resource at this source: made there, or only observed afterwards. */
  predicate ShowsResource(env: Env, x: Exposure, link: EdgeKind, kind: NodeKind, source: string, target: string) {
    && x.detail.Some? && x.detail.value.Resource? && x.detail.value.cited != []
    && var d := x.detail.value;
       && source == ExposedAt(env, x) && target == ResourceId(env, kind, d)
       && if d.observedAfter then link.ObservedAfter? && SortIs(d, kind) else ResourceIs(d, kind, link)
  }

  predicate OfResources(link: EdgeKind) {
    || link.ProducedArtifact? || link.PublishedPackage? || link.CreatedRelease? || link.CreatedDeployment?
    || link.RepositoryWrite? || link.PullRequestChange? || link.ObservedAfter?
  }

  lemma SortHasALink(d: Detail, kind: NodeKind)
    requires d.Resource?
    ensures SortIs(d, kind) <==> exists made :: ResourceIs(d, kind, made)
  {
    if SortIs(d, kind) {
      var made := match kind
        case Artifact => EdgeKind.ProducedArtifact
        case Package => EdgeKind.PublishedPackage
        case Release => EdgeKind.CreatedRelease
        case Deployment => EdgeKind.CreatedDeployment
        case RepositoryResource => EdgeKind.RepositoryWrite
        case _ => EdgeKind.PullRequestChange;
      assert ResourceIs(d, kind, made);
    }
  }

  /** A job or step made a resource, or a resource was observed after it, exactly when an exposure says which. */
  lemma ResourcesExactly(env: Env, idx: Index, findings: seq<Finding>, nodes: map<string, Node>, edges: map<string, Edge>,
                         link: EdgeKind, source: string, target: string)
    requires Injective(env.hash) && UniqueNames(idx) && IsGraph(env, idx, findings, nodes, edges) && OfResources(link)
    ensures Leads(edges, link, source, target) <==>
      exists r, fact, kind :: ResourceInReport(env, idx, findings, r, fact, link, kind, source, target)
  {
    if Leads(edges, link, source, target) {
      var r, d := LeadsIsSaid(env, idx, findings, nodes, edges, link, source, target);
      var fact := OnlyExposuresSay(env, idx, r, d);
      var kind := ResourceIsShown(env, fact, r.finding.revision, d);
      assert ResourceInReport(env, idx, findings, r, fact, link, kind, source, target);
    }
    if r, fact, kind :| ResourceInReport(env, idx, findings, r, fact, link, kind, source, target) {
      var d := ResourceIsSaid(env, idx, findings, r, fact, link, kind, source, target);
      SaidLeads(env, idx, findings, nodes, edges, link, source, target, r, d);
    }
  }

  ghost predicate ResourceInReport(env: Env, idx: Index, findings: seq<Finding>, r: Resolved, fact: Fact, link: EdgeKind, kind: NodeKind,
                                   source: string, target: string) {
    ExposedInReport(idx, findings, r, fact) && ShowsResource(env, fact.body.exposure, link, kind, source, target)
  }

  lemma ResourceIsShown(env: Env, fact: Fact, focus: string, c: Call) returns (kind: NodeKind)
    requires ExposureSays(env, fact, focus, c) && Draws(c) && OfResources(c.link)
    ensures ShowsResource(env, fact.body.exposure, c.link, kind, c.source, c.target)
  {
    var x := fact.body.exposure;
    OnlyResourcesSay(env, x, fact.evidence, focus, c);
    var link;
    kind, link :| ResourceLeads(env, x.detail.value, x, focus, c, kind, link);
    SortHasALink(x.detail.value, kind);
  }

  ghost predicate ResourceLeads(env: Env, d: Detail, x: Exposure, focus: string, c: Call, kind: NodeKind, link: EdgeKind)
    requires d.Resource? && c.EdgeCall?
  {
    && ResourceIs(d, kind, link) && Joins(c, ExposedAt(env, x), ResourceId(env, kind, d))
    && (if d.observedAfter then c.link.ObservedAfter? && Inferred(c, "resource-correlation/v1", d.cited, x.time, focus)
        else c.link == link && Seen(c, d.cited, x.time, focus))
  }

  lemma OnlyResourcesSay(env: Env, x: Exposure, evidence: seq<string>, focus: string, c: Call)
    requires c.EdgeCall? && OfResources(c.link) && x.detail.Some? && DetailSays(env, x.detail.value, x, evidence, focus, c)
    ensures x.detail.value.Resource? && exists kind, link :: ResourceLeads(env, x.detail.value, x, focus, c, kind, link)
  {
    var d := x.detail.value;
    if d.Resource? {
      var kind, link :| ResourceIs(d, kind, link) && Joins(c, ExposedAt(env, x), NodeId(env, kind, ["resource", d.sort, d.name]))
        && (if d.observedAfter then c.link.ObservedAfter? && Inferred(c, "resource-correlation/v1", d.cited, x.time, focus)
            else c.link == link && Seen(c, d.cited, x.time, focus));
      assert ResourceLeads(env, d, x, focus, c, kind, link);
    }
  }

  lemma ResourceIsSaid(env: Env, idx: Index, findings: seq<Finding>, r: Resolved, fact: Fact, link: EdgeKind, kind: NodeKind,
                       source: string, target: string) returns (c: Call)
    requires Injective(env.hash) && ResourceInReport(env, idx, findings, r, fact, link, kind, source, target)
    ensures SaidToLead(env, idx, findings, link, source, target, r, c)
  {
    var x := fact.body.exposure;
    var d := x.detail.value;
    c := EdgeCall(link, source, target, d.cited, x.time, d.observedAfter, if d.observedAfter then CORRELATION_RULE else "", r.finding.revision);
    SourceIsAnother(env, x, kind, d);
    ResourceSaid(env, x, link, kind, source, target, r.finding.revision, c);
    DetailIsSaid(env, idx, r, fact, c);
  }

  lemma DetailIsSaid(env: Env, idx: Index, r: Resolved, fact: Fact, c: Call)
    requires ExposesFor(idx, r, fact) && c.EdgeCall? && fact.body.exposure.detail.Some?
    requires DetailSays(env, fact.body.exposure.detail.value, fact.body.exposure, fact.evidence, r.finding.revision, c)
    ensures Says(env, idx, r, c)
  {
    assert ExposureSays(env, fact, r.finding.revision, c);
  }

  lemma ResourceSaid(env: Env, x: Exposure, link: EdgeKind, kind: NodeKind, source: string, target: string, focus: string, c: Call)
    requires ShowsResource(env, x, link, kind, source, target) && c.EdgeCall? && c.link == link && Joins(c, source, target)
    requires if x.detail.value.observedAfter then Inferred(c, "resource-correlation/v1", x.detail.value.cited, x.time, focus)
             else Seen(c, x.detail.value.cited, x.time, focus)
    ensures ResourceSays(env, x.detail.value, x, focus, c)
  {
    SortHasALink(x.detail.value, kind);
  }

  lemma SourceIsAnother(env: Env, x: Exposure, kind: NodeKind, d: Detail)
    requires Injective(env.hash) && d.Resource? && !kind.Job? && !kind.Step?
    ensures ExposedAt(env, x) !in ["", ResourceId(env, kind, d)] && ResourceId(env, kind, d) != ""
  {
    NotEmpty(env, kind, ["resource", d.sort, d.name]);
    NotEmpty(env, NodeKind.Step, ["step", x.step]);
    NotEmpty(env, NodeKind.Job, ["job", env.jobText(x.execution)]);
    IdDecidesNode(env, NodeKind.Step, ["step", x.step], kind, ["resource", d.sort, d.name]);
    IdDecidesNode(env, NodeKind.Job, ["job", env.jobText(x.execution)], kind, ["resource", d.sort, d.name]);
  }
}
