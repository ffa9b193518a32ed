/** The evidence graph has no dangling edge, and obeys its endpoint rules exactly when the facts fit
    (internal/analyze/graph.go, internal/graph/graph.go). */
module GraphRules {
  import opened Orders
  import opened Identity
  import opened GraphKinds
  import opened Graph
  import opened GraphProjection
  import opened GraphTheorems
  import opened GraphFits
  import opened GraphFacts
  import opened GraphClosure

  /** Whatever the findings: every edge endpoint and every piece of evidence cited by an edge has a node. */
  lemma NoDanglingEdge(env: Env, idx: Index, findings: seq<Finding>, nodes: map<string, Node>, edges: map<string, Edge>)
    requires IsGraph(env, idx, findings, nodes, edges)
    ensures ClosedGraph(env, nodes, edges)
  {
    var resolved :| Answers(idx, findings, resolved) && Builds(env, idx, resolved, nodes, edges);
    AllGrounded(env, idx, resolved);
    GroundedIsClosed(env, Gather(resolved, CallsFor(env, idx)));
  }

  /** The endpoint rules of the graph, for one edge. */
  predicate Obeys(nodes: map<string, Node>, e: Edge) {
    && e.source in nodes && e.target in nodes
    && MaySource(e.kind, nodes[e.source].kind) && MayTarget(e.kind, nodes[e.target].kind)
  }

  /** A node has the one kind it is offered with. */
  lemma KindIsOffered(env: Env, calls: seq<Call>, c: Call, id: string)
    requires Injective(env.hash) && c in calls && OffersNode(env, c, id)
    ensures id in Nodes(env, Unfold(calls)) && Nodes(env, Unfold(calls))[id].kind == c.kind
  {
    NodesReflect(env, Unfold(calls));
    assert c in Puts(c);
    GatherMember(calls, Puts, c);
    var n := Nodes(env, Unfold(calls))[id];
    assert HoldsNode(env, Unfold(calls), n);
    var d :| d in Unfold(calls) && OffersNode(env, d, n.id) && d.kind == n.kind;
    IdDecidesNode(env, c.kind, c.identity, d.kind, d.identity);
  }

  /** An edge obeys the endpoint rules exactly when the kinds of its ends, as offered, may meet. */
  lemma ObeysExactly(env: Env, calls: seq<Call>, id: string, source: NodeKind, target: NodeKind)
    requires Injective(env.hash) && id in Edges(env, Unfold(calls))
    requires HasKind(env, calls, Edges(env, Unfold(calls))[id].source, source)
    requires HasKind(env, calls, Edges(env, Unfold(calls))[id].target, target)
    ensures var e := Edges(env, Unfold(calls))[id];
      Obeys(Nodes(env, Unfold(calls)), e) <==> MaySource(e.kind, source) && MayTarget(e.kind, target)
  {
    var e := Edges(env, Unfold(calls))[id];
    var s :| s in calls && OffersNode(env, s, e.source) && s.kind == source;
    var t :| t in calls && OffersNode(env, t, e.target) && t.kind == target;
    KindIsOffered(env, calls, s, e.source);
    KindIsOffered(env, calls, t, e.target);
  }

  /** A node of the graph has the kind it is offered with. */
  lemma NodeOfEnd(env: Env, calls: seq<Call>, id: string) returns (c: Call)
    requires Injective(env.hash) && HasNode(env, calls, id)
    ensures c in calls && OffersNode(env, c, id) && id in Nodes(env, Unfold(calls)) && Nodes(env, Unfold(calls))[id].kind == c.kind
  {
    c :| c in calls && OffersNode(env, c, id);
    KindIsOffered(env, calls, c, id);
  }

  lemma KeepingObeys(env: Env, calls: seq<Call>, id: string, c: Call)
    requires Injective(env.hash) && id in Edges(env, Unfold(calls)) && c.EdgeCall? && SameEdge(c, Edges(env, Unfold(calls))[id])
    requires HasNode(env, calls, c.source) && HasNode(env, calls, c.target)
    ensures Obeys(Nodes(env, Unfold(calls)), Edges(env, Unfold(calls))[id]) <==>
      HasSource(env, calls, c.source, c.link) && HasTarget(env, calls, c.target, c.link)
  {
    var s := NodeOfEnd(env, calls, c.source);
    var t := NodeOfEnd(env, calls, c.target);
    KindDecides(env, calls, c.source, s.kind, c.link);
    KindDecides(env, calls, c.target, t.kind, c.link);
  }

  ghost predicate AllObey(nodes: map<string, Node>, edges: map<string, Edge>) { forall id :: id in edges ==> Obeys(nodes, edges[id]) }

  lemma KeptThenObeyed(env: Env, calls: seq<Call>)
    requires Injective(env.hash) && Anchored(env, calls, calls) && AllKeep(env, calls, calls)
    ensures AllObey(Nodes(env, Unfold(calls)), Edges(env, Unfold(calls)))
  {
    var nodes, edges := Nodes(env, Unfold(calls)), Edges(env, Unfold(calls));
    forall id | id in edges ensures Obeys(nodes, edges[id]) {
      var c := CallOf(env, calls, id);
      KeepingObeys(env, calls, id, c);
    }
  }

  lemma ObeyedThenKept(env: Env, calls: seq<Call>)
    requires Injective(env.hash) && Anchored(env, calls, calls) && AllObey(Nodes(env, Unfold(calls)), Edges(env, Unfold(calls)))
    ensures AllKeep(env, calls, calls)
  {
    forall c | c in calls && c.EdgeCall? && Draws(c)
      ensures HasSource(env, calls, c.source, c.link) && HasTarget(env, calls, c.target, c.link)
    {
      assert c in Puts(c);
      CalledEdgeIs(env, calls, c);
      KeepingObeys(env, calls, EdgeId(env, c), c);
    }
  }

  /** The edges of a graph obey the endpoint rules exactly when all the calls that draw one keep them. */
  lemma AllObeyExactly(env: Env, calls: seq<Call>, fits: bool)
    requires Injective(env.hash) && Grounded(env, calls, calls, fits)
    ensures AllObey(Nodes(env, Unfold(calls)), Edges(env, Unfold(calls))) <==> fits
  {
    if fits { KeptThenObeyed(env, calls); }
    if AllObey(Nodes(env, Unfold(calls)), Edges(env, Unfold(calls))) { ObeyedThenKept(env, calls); }
  }

  ghost predicate AllFit(idx: Index, resolved: seq<Resolved>) { forall r :: r in resolved ==> ResolvedFits(idx, r) }

  lemma FitsOfAll(idx: Index, resolved: seq<Resolved>)
    ensures (forall r :: r in resolved ==> FitsOf(idx)(r)) <==> AllFit(idx, resolved)
  {
    if forall r :: r in resolved ==> FitsOf(idx)(r) {
      forall r | r in resolved ensures ResolvedFits(idx, r) { assert FitsOf(idx)(r); }
    }
  }

  /** The edges of a graph obey the endpoint rules exactly when every finding fits, with the repository found for it. */
  lemma BuiltObeysExactly(env: Env, idx: Index, resolved: seq<Resolved>, nodes: map<string, Node>, edges: map<string, Edge>)
    requires Injective(env.hash) && Builds(env, idx, resolved, nodes, edges)
    ensures AllObey(nodes, edges) <==> AllFit(idx, resolved)
  {
    AllGrounded(env, idx, resolved);
    FitsOfAll(idx, resolved);
    AllObeyExactly(env, Gather(resolved, CallsFor(env, idx)), AllFit(idx, resolved));
  }

  /** Every answer the lookup may give for a finding fits. */
  predicate AnyAnswerFits(idx: Index, f: Finding) {
    forall repository :: repository in idx.repositories && idx.repositories[repository] == f.repository ==> FindingFits(idx, f, repository)
  }

  /** For the graph of any findings: if the facts fit that the findings are projected with, every edge obeys the endpoint
      rules; and if they do not and repository names are unique, some edge does not. */
  lemma EndpointRulesExactly(env: Env, idx: Index, findings: seq<Finding>, nodes: map<string, Node>, edges: map<string, Edge>)
    requires Injective(env.hash) && IsGraph(env, idx, findings, nodes, edges)
    ensures (forall f :: f in findings ==> AnyAnswerFits(idx, f)) ==> AllObey(nodes, edges)
    ensures UniqueNames(idx) && AllObey(nodes, edges) ==> forall f :: f in findings ==> AnyAnswerFits(idx, f)
  {
    var resolved :| Answers(idx, findings, resolved) && Builds(env, idx, resolved, nodes, edges);
    BuiltObeysExactly(env, idx, resolved, nodes, edges);
    if forall f :: f in findings ==> AnyAnswerFits(idx, f) {
      forall r | r in resolved ensures ResolvedFits(idx, r) { AnswerFits(idx, findings, resolved, r); }
    }
    if UniqueNames(idx) && forall r :: r in resolved ==> ResolvedFits(idx, r) {
      forall f | f in findings ensures AnyAnswerFits(idx, f) { OnlyAnswerFits(idx, findings, resolved, f); }
    }
  }

  lemma AnswerFits(idx: Index, findings: seq<Finding>, resolved: seq<Resolved>, r: Resolved)
    requires Answers(idx, findings, resolved) && r in resolved && forall f :: f in findings ==> AnyAnswerFits(idx, f)
    ensures ResolvedFits(idx, r)
  {
    var i :| 0 <= i < |resolved| && resolved[i] == r;
    assert IsAnswer(idx, findings[i].repository, r.repository);
    assert AnyAnswerFits(idx, findings[i]);
  }

  lemma OnlyAnswerFits(idx: Index, findings: seq<Finding>, resolved: seq<Resolved>, f: Finding)
    requires UniqueNames(idx) && Answers(idx, findings, resolved) && f in findings && forall r :: r in resolved ==> ResolvedFits(idx, r)
    ensures AnyAnswerFits(idx, f)
  {
    var i :| 0 <= i < |findings| && findings[i] == f;
    forall repository | repository in idx.repositories && idx.repositories[repository] == f.repository
      ensures FindingFits(idx, f, repository)
    {
      OneAnswer(idx, f.repository, Some(repository), resolved[i].repository);
      assert ResolvedFits(idx, resolved[i]);
    }
  }

  /** Whatever the findings, and whether or not they fit: an edge whose relation is not stated by a fact obeys. */
  lemma EndpointRulesHold(env: Env, idx: Index, findings: seq<Finding>, nodes: map<string, Node>, edges: map<string, Edge>)
    requires Injective(env.hash) && IsGraph(env, idx, findings, nodes, edges)
    ensures forall id :: id in edges && !Stated(edges[id].kind) ==> Obeys(nodes, edges[id])
  {
    var resolved :| Answers(idx, findings, resolved) && Builds(env, idx, resolved, nodes, edges);
    var calls := Gather(resolved, CallsFor(env, idx));
    AllGrounded(env, idx, resolved);
    forall id | id in edges && !Stated(edges[id].kind) ensures Obeys(nodes, edges[id]) {
      var c := CallOf(env, calls, id);
      KeepingObeys(env, calls, id, c);
    }
  }

  // ----- Single edges -----

  /** An edge that was called for is in the graph. */
  lemma CalledEdge(env: Env, calls: seq<Call>, c: Call)
    requires c in calls && c.EdgeCall? && c in Puts(c)
    ensures EdgeId(env, c) in Edges(env, Unfold(calls))
  {
    EdgesReflect(env, Unfold(calls));
    GatherMember(calls, Puts, c);
  }

  lemma CalledEdgeIs(env: Env, calls: seq<Call>, c: Call)
    requires Injective(env.hash) && c in calls && c.EdgeCall? && c in Puts(c)
    ensures EdgeId(env, c) in Edges(env, Unfold(calls)) && SameEdge(c, Edges(env, Unfold(calls))[EdgeId(env, c)])
  {
    CalledEdge(env, calls, c);
    var d := CallOf(env, calls, EdgeId(env, c));
    DeterministicIDInjective(env.hash, "gedge1", EdgeParts(c), "gedge1", EdgeParts(d));
    PartsDecideEdge(c, d);
  }

  /** The edge this call makes is in the graph, and obeys the endpoint rules or does not. */
  ghost predicate Drawn(env: Env, nodes: map<string, Node>, edges: map<string, Edge>, c: Call, obeys: bool) {
    c.EdgeCall? && EdgeId(env, c) in edges && SameEdge(c, edges[EdgeId(env, c)]) && Obeys(nodes, edges[EdgeId(env, c)]) == obeys
  }

  /** The edge a call makes obeys the endpoint rules exactly when the kinds of its ends may meet. */
  lemma CallObeysExactly(env: Env, calls: seq<Call>, c: Call, source: NodeKind, target: NodeKind)
    requires Injective(env.hash) && c in calls && c.EdgeCall? && c.evidence != [] && c.source != c.target
    requires HasKind(env, calls, c.source, source) && HasKind(env, calls, c.target, target)
    ensures Drawn(env, Nodes(env, Unfold(calls)), Edges(env, Unfold(calls)), c, MaySource(c.link, source) && MayTarget(c.link, target))
  {
    NodeIdIsNotEmpty(env, calls, c.source, source);
    NodeIdIsNotEmpty(env, calls, c.target, target);
    assert c in Puts(c);
    CalledEdgeIs(env, calls, c);
    ObeysExactly(env, calls, EdgeId(env, c), source, target);
  }

  /** A fact is projected in the graph: it concerns the finding, whose repository was found. */
  ghost predicate Projects(idx: Index, resolved: seq<Resolved>, r: Resolved, fact: Fact) {
    r in resolved && r.repository.Some? && fact in idx.dependencies && Concerns(fact, r.finding, r.repository.value)
  }

  lemma ProjectedWithin(env: Env, idx: Index, resolved: seq<Resolved>, r: Resolved, fact: Fact)
    requires Projects(idx, resolved, r, fact)
    ensures Within(DependencyFact(env, idx, fact, r.finding.revision).calls, Gather(resolved, CallsFor(env, idx)))
  {
    var all, f, repository := Gather(resolved, CallsFor(env, idx)), r.finding, r.repository.value;
    forall c | c in CallsFor(env, idx)(r) ensures c in all { GatherMember(resolved, CallsFor(env, idx), c); }
    var depend := DependencyOf(env, idx, f, repository);
    forall c | c in CallsOf(depend)(fact) ensures c in all {
      GatherMember(idx.dependencies, CallsOf(depend), c);
      assert c in FactCalls(env, idx, f, repository);
      assert c in SubjectCalls(env, idx, f, repository);
    }
  }

  /** The call for the edge from a caller to what it declares. */
  function CallerEdgeOf(env: Env, fact: Fact, focus: string): Call
    requires fact.body.Depends? && RelationEdge(fact.body.dependency.relation).Some? && HasCaller(fact.body.dependency)
  {
    var d := fact.body.dependency;
    var source := DependencySource(d, fact.evidence, focus);
    Observed(RelationEdge(d.relation).value, if source.Some? then IdOf(env, source.value) else "",
             DependencyTarget(env, d, fact.evidence, focus).target, fact.evidence, d.time, focus)
  }

  /** In the graph, the edge from a caller to what it declares is there, and obeys the endpoint rules exactly when the
      stated relation suits the fields of the dependency. */
  lemma CallerEdgeObeysExactly(env: Env, idx: Index, resolved: seq<Resolved>, nodes: map<string, Node>, edges: map<string, Edge>,
                               r: Resolved, fact: Fact)
    requires Injective(env.hash) && Builds(env, idx, resolved, nodes, edges) && Projects(idx, resolved, r, fact)
    requires fact.body.Depends? && RelationEdge(fact.body.dependency.relation).Some?
    requires HasCaller(fact.body.dependency) && !CallsItself(fact.body.dependency)
    ensures Drawn(env, nodes, edges, CallerEdgeOf(env, fact, r.finding.revision), CallerFits(fact.body.dependency))
  {
    ProjectedWithin(env, idx, resolved, r, fact);
    CallerEdgeDrawn(env, Gather(resolved, CallsFor(env, idx)), fact, r.finding.revision);
  }

  lemma CallerEdgeDrawn(env: Env, calls: seq<Call>, fact: Fact, focus: string)
    requires Injective(env.hash) && fact.body.Depends? && Within(PlainDependency(env, fact, focus).calls, calls)
    requires RelationEdge(fact.body.dependency.relation).Some? && fact.evidence != []
    requires HasCaller(fact.body.dependency) && !CallsItself(fact.body.dependency)
    ensures Drawn(env, Nodes(env, Unfold(calls)), Edges(env, Unfold(calls)), CallerEdgeOf(env, fact, focus), CallerFits(fact.body.dependency))
  {
    var d := fact.body.dependency;
    CallerIsOfKind(d, fact.evidence, focus);
    CallerKindIs(d);
    var source := DependencySource(d, fact.evidence, focus).value;
    var t := DependencyTarget(env, d, fact.evidence, focus);
    var c := CallerEdgeOf(env, fact, focus);
    var made := PlainDependency(env, fact, focus).calls;
    assert made == [source] + t.calls + DependencyEdges(env, d, IdOf(env, source), t, fact.evidence, focus);
    assert source in made && c in made;
    Added(env, source, calls);
    DeclaredTargetAdded(env, d, fact.evidence, focus, calls);
    CallsItselfExactly(env, d, fact.evidence, focus);
    CallerFitsExactly(d);
    CallObeysExactly(env, calls, c, CallerKind(d).value, DeclaredKind(d));
  }

  /** In the graph, the edge from a dependency to a fact it contradicts is there, and obeys the endpoint rules exactly
      when the contradicted fact is known by more than a ref or a repository. */
  lemma ContradictionObeysExactly(env: Env, idx: Index, resolved: seq<Resolved>, nodes: map<string, Node>, edges: map<string, Edge>,
                                  r: Resolved, fact: Fact, id: string)
    requires Injective(env.hash) && Builds(env, idx, resolved, nodes, edges) && Projects(idx, resolved, r, fact)
    requires fact.body.Depends? && HasCaller(fact.body.dependency) && Identified(fact.body.dependency)
    requires id in fact.body.dependency.contradicts && id in idx.factsById
    requires Contradicted(env, fact, idx.factsById[id], r.finding.revision).target !in ["", PlainDependency(env, fact, r.finding.revision).exact]
    ensures Drawn(env, nodes, edges, ContradictionOf(env, fact, idx.factsById[id], r.finding.revision), ExactlyKnown(fact, idx.factsById[id]))
  {
    ProjectedWithin(env, idx, resolved, r, fact);
    ContradictionDrawn(env, idx, Gather(resolved, CallsFor(env, idx)), fact, id, r.finding.revision);
  }

  function ContradictionOf(env: Env, fact: Fact, other: Fact, focus: string): Call
    requires fact.body.Depends?
  {
    ContradictionEdge(fact, other, PlainDependency(env, fact, focus).exact, Contradicted(env, fact, other, focus).target,
                      fact.body.dependency.time, focus)
  }

  lemma ContradictionDrawn(env: Env, idx: Index, calls: seq<Call>, fact: Fact, id: string, focus: string)
    requires Injective(env.hash) && Within(DependencyFact(env, idx, fact, focus).calls, calls)
    requires fact.body.Depends? && HasCaller(fact.body.dependency) && Identified(fact.body.dependency)
    requires id in fact.body.dependency.contradicts && id in idx.factsById && fact.evidence != []
    requires Contradicted(env, fact, idx.factsById[id], focus).target !in ["", PlainDependency(env, fact, focus).exact]
    ensures Drawn(env, Nodes(env, Unfold(calls)), Edges(env, Unfold(calls)), ContradictionOf(env, fact, idx.factsById[id], focus),
                  ExactlyKnown(fact, idx.factsById[id]))
  {
    var other, d, t := idx.factsById[id], fact.body.dependency, PlainDependency(env, fact, focus);
    var p := Contradicted(env, fact, other, focus);
    var c := ContradictionOf(env, fact, other, focus);
    PlainIsReturned(env, fact, focus, calls);
    GatherWithin(d.contradicts, Contradictions(env, idx, fact, t.exact, d.time, focus), calls, id);
    assert Contradiction(env, idx, fact, t.exact, d.time, focus, id) == p.calls + [c];
    assert c in p.calls + [c] && Within(p.calls, calls);
    ContradictedGrounded(env, fact, other, focus, calls);
    ContradictedMay(fact, other);
    IdentityMaySource(d);
    CallObeysExactly(env, calls, c, IdentityKind(d).value, ContradictedKind(other));
  }

  /** In the graph, the edge for an inherited secret is there, and obeys the endpoint rules exactly when the exposure
      names no step. */
  lemma InheritedSecretObeysExactly(env: Env, idx: Index, resolved: seq<Resolved>, nodes: map<string, Node>, edges: map<string, Edge>,
                                    r: Resolved, fact: Fact)
    requires Injective(env.hash) && Builds(env, idx, resolved, nodes, edges)
    requires r in resolved && r.repository.Some? && Exposed(r.finding) && fact in idx.exposures && Inherits(r.finding, r.repository.value, fact)
    ensures Drawn(env, nodes, edges, InheritedEdge(env, r.finding, fact), fact.body.exposure.step == "")
  {
    var all, f, repository := Gather(resolved, CallsFor(env, idx)), r.finding, r.repository.value;
    var each := ExposureCalls(env, f, ExecutionOf(f, repository));
    forall c | c in CallsFor(env, idx)(r) ensures c in all { GatherMember(resolved, CallsFor(env, idx), c); }
    forall c | c in each(fact) ensures c in all {
      GatherMember(idx.exposures, each, c);
      assert c in SubjectCalls(env, idx, f, repository);
    }
    InheritedDrawn(env, all, f, ExecutionOf(f, repository), fact);
  }

  /** The fact exposes an inherited secret to the execution of the finding, with evidence. */
  predicate Inherits(f: Finding, repository: int, fact: Fact) {
    && fact.body.Exposes? && fact.body.exposure.execution == ExecutionOf(f, repository)
    && IsInherited(f, fact.body.exposure)
  }

  predicate IsInherited(f: Finding, x: Exposure) {
    && (x.step == "" || f.step == "" || x.step == f.step)
    && x.detail.Some? && x.detail.value.Credential? && x.detail.value.kind.SecretInherited? && x.detail.value.cited != []
  }

  lemma InheritedDrawn(env: Env, calls: seq<Call>, f: Finding, execution: Execution, fact: Fact)
    requires Injective(env.hash) && Within(ExposureFact(env, f, execution, fact), calls)
    requires fact.body.Exposes? && fact.body.exposure.execution == execution && IsInherited(f, fact.body.exposure)
    ensures Drawn(env, Nodes(env, Unfold(calls)), Edges(env, Unfold(calls)), InheritedEdge(env, f, fact), fact.body.exposure.step == "")
  {
    var x := fact.body.exposure;
    var job, step := JobNode(env, execution, fact.evidence, f.revision), StepNode(x.step, fact.evidence, f.revision);
    var holder: NewNode := if x.step != "" then step else job;
    var pair := CredentialCalls(env, x.detail.value, IdOf(env, holder), IdOf(env, job), x.step != "", x.time, f.revision);
    var made := ExposureFact(env, f, execution, fact);
    assert pair == DetailCalls(env, x, IdOf(env, holder), IdOf(env, job), fact.evidence, f.revision);
    assert made[|made| - 2..] == pair && pair[0] in made && pair[1] in made && holder in made;
    HeldSecretObeysExactly(env, calls, holder, pair[0], pair[1]);
  }

  /** The last call for an inherited secret: the edge from the step, or from the job when no step is named. */
  function InheritedEdge(env: Env, f: Finding, fact: Fact): Call
    requires fact.body.Exposes? && fact.body.exposure.detail.Some?
    requires fact.body.exposure.detail.value.Credential? && fact.body.exposure.detail.value.kind.SecretInherited?
  {
    var x := fact.body.exposure;
    var job, step := JobNode(env, x.execution, fact.evidence, f.revision), StepNode(x.step, fact.evidence, f.revision);
    CredentialCalls(env, x.detail.value, IdOf(env, if x.step != "" then step else job), IdOf(env, job), x.step != "", x.time, f.revision)[1]
  }

  lemma HeldSecretObeysExactly(env: Env, calls: seq<Call>, holder: NewNode, secret: NewNode, c: Call)
    requires Injective(env.hash) && holder in calls && secret in calls && c in calls
    requires (holder.kind.Step? || holder.kind.Job?) && secret.kind.SecretMetadata?
    requires c.EdgeCall? && c.link.InheritedSecret? && c.evidence != [] && c.source == IdOf(env, holder) && c.target == IdOf(env, secret)
    ensures Drawn(env, Nodes(env, Unfold(calls)), Edges(env, Unfold(calls)), c, holder.kind.Job?)
  {
    Added(env, holder, calls);
    Added(env, secret, calls);
    KindsDistinguish(env, holder, secret);
    SecretMay(holder.kind);
    CallObeysExactly(env, calls, c, holder.kind, NodeKind.SecretMetadata);
  }

  lemma KindsDistinguish(env: Env, a: NewNode, b: NewNode)
    requires Injective(env.hash) && a.kind != b.kind
    ensures IdOf(env, a) != IdOf(env, b)
  {
    IdDecidesNode(env, a.kind, a.identity, b.kind, b.identity);
  }

  lemma SecretMay(holder: NodeKind)
    requires holder.Step? || holder.Job?
    ensures MaySource(EdgeKind.InheritedSecret, holder) && MayTarget(EdgeKind.InheritedSecret, NodeKind.SecretMetadata) <==> holder.Job?
  {
  }

  // ----- Facts that do not fit -----

  /** A finding that does not fit leaves an edge in the graph that breaks the rules. */
  lemma UnfitBreaks(env: Env, idx: Index, f: Finding, repository: int)
    returns (nodes: map<string, Node>, edges: map<string, Edge>, id: string)
    requires Injective(env.hash) && repository in idx.repositories && idx.repositories[repository] == f.repository
    requires !FindingFits(idx, f, repository)
    ensures IsGraph(env, idx, [f], nodes, edges) && id in edges && !Obeys(nodes, edges[id])
  {
    var resolved := [Resolved(f, Some(repository))];
    var puts := Unfold(Gather(resolved, CallsFor(env, idx)));
    nodes, edges := Nodes(env, puts), Edges(env, puts);
    assert Answers(idx, [f], resolved) && Builds(env, idx, resolved, nodes, edges);
    assert resolved[0] in resolved && !ResolvedFits(idx, resolved[0]);
    BuiltObeysExactly(env, idx, resolved, nodes, edges);
    id :| id in edges && !Obeys(nodes, edges[id]);
  }

  // Identifiers are hashes, so the lemmas hold for all texts of their form; the index may hold more than these facts.

  function Digits(c: char, n: nat): string { seq(n, _ => c) }

  lemma DigitsAreHex(c: char, n: nat)
    requires '0' <= c <= '9' || 'a' <= c <= 'f'
    ensures IsHex(Digits(c, n), n)
  {
  }

  function Commit(c: char): ObjectId { ObjectId("sha1", Digits(c, 40)) }

  /** A confirmed execution of job 9 in the first attempt of run 7. */
  function SomeFinding(e: string): Finding {
    Finding.Finding("frev1:" + Digits('0', 64), "CONFIRMED_EXECUTED", "runtime", [e], "t", "octo/app", 7, 1, 9, "")
  }

  const SOME_EXECUTION := Execution(1, 7, 1, 9)

  /** The index has the repository and these facts, each under its identifier. */
  ghost predicate Holds(idx: Index, facts: seq<Fact>) {
    && 1 in idx.repositories && idx.repositories[1] == "octo/app"
    && forall f :: f in facts ==> Indexed(idx, f)
  }

  predicate Indexed(idx: Index, f: Fact) {
    && f.id in idx.factsById && idx.factsById[f.id] == f
    && (f.body.Depends? ==> f in idx.dependencies) && (f.body.Exposes? ==> f in idx.exposures)
  }

  function Inherited(id: string, e: string): Fact {
    Fact(id, SubjectOfExecution(SOME_EXECUTION, "deploy"), [e], "t",
         Exposes(Exposure(SOME_EXECUTION, "deploy", "t", Some(Credential(SecretInherited, "", "", true, None, [e])))))
  }

  /** A confirmed execution whose step inherits a secret. */
  lemma InheritedAtAStepBreaks(env: Env, idx: Index, id: string, e: string)
    returns (nodes: map<string, Node>, edges: map<string, Edge>, broken: string)
    requires Injective(env.hash) && Versioned("fact1:", id) && Versioned("ev1:", e) && Holds(idx, [Inherited(id, e)])
    ensures Archived(Inherited(id, e))
    ensures IsGraph(env, idx, [SomeFinding(e)], nodes, edges) && broken in edges && !Obeys(nodes, edges[broken])
  {
    var fact := Inherited(id, e);
    assert fact in [fact] && Indexed(idx, fact);
    InheritedIsUnfit(idx, id, e);
    nodes, edges, broken := UnfitBreaks(env, idx, SomeFinding(e), 1);
  }

  lemma InheritedIsUnfit(idx: Index, id: string, e: string)
    requires Versioned("fact1:", id) && Versioned("ev1:", e) && Inherited(id, e) in idx.exposures
    ensures Archived(Inherited(id, e)) && !FindingFits(idx, SomeFinding(e), 1)
  {
    assert !ExposureFits(SomeFinding(e), ExecutionOf(SomeFinding(e), 1), Inherited(id, e));
  }

  /** A workflow of run 7 that declares an action: by its ref, or else as a local action. */
  function Declared(id: string, e: string, ref: string, target: Option<ObjectId>, contradicts: seq<string>): Fact {
    Fact(id, SubjectOfExecution(SOME_EXECUTION, ""), [e], "t",
         Depends(Dependency(Relation.WorkflowDeclaredAction, if ref == "" then LOCAL_ACTION else ACTION, HISTORICAL_AT_RUN, 1, "octo/app",
                            ".github/workflows/ci.yml", Some(Commit('a')), None, "octo/app", "tool", ref, target, None, None, None,
                            Some(SOME_EXECUTION), "", contradicts, "t")))
  }

  lemma DeclaredIsArchived(id: string, e: string, ref: string, target: Option<ObjectId>, contradicts: seq<string>)
    requires Versioned("fact1:", id) && Versioned("ev1:", e) && NoObject(target) && ContradictsOk(contradicts)
    ensures Archived(Declared(id, e, ref, target, contradicts))
  {
    DigitsAreHex('a', 40);
    var d := Declared(id, e, ref, target, contradicts).body.dependency;
    assert CallerOk(d) && TargetOk(d) && PlaceOk(d) && RuntimeOk(d);
  }

  lemma DeclaredFits(id: string, e: string, ref: string, target: Option<ObjectId>, contradicts: seq<string>)
    ensures PlainFits(Declared(id, e, ref, target, contradicts)) <==> ref != "" || target.None?
    ensures Concerns(Declared(id, e, ref, target, contradicts), SomeFinding(e), 1)
  {
    assert Declared(id, e, ref, target, contradicts).evidence[0] in SomeFinding(e).evidence;
  }

  /** A workflow that declares a local action whose definition is known and that has no ref. */
  lemma LocalActionDeclaredBreaks(env: Env, idx: Index, id: string, e: string)
    returns (nodes: map<string, Node>, edges: map<string, Edge>, broken: string)
    requires Injective(env.hash) && Versioned("fact1:", id) && Versioned("ev1:", e)
    requires Holds(idx, [Declared(id, e, "", Some(Commit('b')), [])])
    ensures Archived(Declared(id, e, "", Some(Commit('b')), []))
    ensures IsGraph(env, idx, [SomeFinding(e)], nodes, edges) && broken in edges && !Obeys(nodes, edges[broken])
  {
    DigitsAreHex('b', 40);
    var fact := Declared(id, e, "", Some(Commit('b')), []);
    DeclaredIsArchived(id, e, "", Some(Commit('b')), []);
    DeclaredFits(id, e, "", Some(Commit('b')), []);
    assert fact in [fact] && Indexed(idx, fact);
    UnfitConcerned(idx, SomeFinding(e), fact);
    nodes, edges, broken := UnfitBreaks(env, idx, SomeFinding(e), 1);
  }

  lemma UnfitConcerned(idx: Index, f: Finding, fact: Fact)
    requires fact in idx.dependencies && Concerns(fact, f, 1) && !DependencyFits(idx, fact)
    ensures !FindingFits(idx, f, 1)
  {
    assert !ConcernedFits(idx, f, 1, fact);
  }

  lemma RefIsNotExact(idx: Index, fact: Fact, other: Fact)
    requires fact.body.Depends? && HasCaller(fact.body.dependency) && Identified(fact.body.dependency) && fact.evidence != []
    requires other.id in fact.body.dependency.contradicts && other.id in idx.factsById && idx.factsById[other.id] == other
    requires other.body.Depends? && HasCaller(other.body.dependency) && !Identified(other.body.dependency)
    ensures !DependencyFits(idx, fact)
  {
    assert !ContradictionFits(idx, fact, other.id);
  }

  function Resolves(id: string, e: string, other: string): Fact { Declared(id, e, "v1", Some(Commit('b')), [other]) }
  function DeclaresRef(id: string, e: string): Fact { Declared(id, e, "v1", None, []) }

  /** A resolved dependency that contradicts one known by its ref only; each of the two fits by itself. */
  lemma RefContradictedBreaks(env: Env, idx: Index, id: string, other: string, e: string)
    returns (nodes: map<string, Node>, edges: map<string, Edge>, broken: string)
    requires Injective(env.hash) && Versioned("fact1:", id) && Versioned("fact1:", other) && Versioned("ev1:", e)
    requires Holds(idx, [Resolves(id, e, other), DeclaresRef(other, e)])
    ensures Archived(Resolves(id, e, other)) && PlainFits(Resolves(id, e, other))
    ensures Archived(DeclaresRef(other, e)) && PlainFits(DeclaresRef(other, e))
    ensures IsGraph(env, idx, [SomeFinding(e)], nodes, edges) && broken in edges && !Obeys(nodes, edges[broken])
  {
    TwoDeclared(id, e, other);
    var fact, contradicted := Resolves(id, e, other), DeclaresRef(other, e);
    assert Indexed(idx, [fact, contradicted][0]) && Indexed(idx, [fact, contradicted][1]);
    RefIsNotExact(idx, fact, contradicted);
    UnfitConcerned(idx, SomeFinding(e), fact);
    nodes, edges, broken := UnfitBreaks(env, idx, SomeFinding(e), 1);
  }

  lemma TwoDeclared(id: string, e: string, other: string)
    requires Versioned("fact1:", id) && Versioned("fact1:", other) && Versioned("ev1:", e)
    ensures var fact, contradicted := Resolves(id, e, other), DeclaresRef(other, e);
      && Archived(fact) && PlainFits(fact) && Concerns(fact, SomeFinding(e), 1) && fact.evidence != []
      && fact.body.Depends? && HasCaller(fact.body.dependency) && Identified(fact.body.dependency)
      && contradicted.id in fact.body.dependency.contradicts
      && Archived(contradicted) && PlainFits(contradicted)
      && contradicted.body.Depends? && HasCaller(contradicted.body.dependency) && !Identified(contradicted.body.dependency)
  {
    DigitsAreHex('b', 40);
    DeclaredIsArchived(id, e, "v1", Some(Commit('b')), [other]);
    DeclaredIsArchived(other, e, "v1", None, []);
    DeclaredFits(id, e, "v1", Some(Commit('b')), [other]);
    DeclaredFits(other, e, "v1", None, []);
    assert Resolves(id, e, other).body.dependency.contradicts[0] == other;
  }
}
