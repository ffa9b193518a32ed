/** Building the evidence graph, and why the order of the findings does not show in it (internal/analyze/graph.go). */
module GraphTheorems {
  import opened Orders
  import opened Identity
  import opened GraphKinds
  import opened Graph
  import opened GraphProjection

  // ----- Building the graph -----

  /** An answer of `repositoryIDForGraph`, which ranges over a map: any repository of that name. */
  ghost predicate IsAnswer(idx: Index, name: string, answer: Option<int>) {
    if answer.Some? then answer.value in idx.repositories && idx.repositories[answer.value] == name
    else forall id :: id in idx.repositories ==> idx.repositories[id] != name
  }

  /** `repositoryIDForGraph` */
  method RepositoryIdForGraph(idx: Index, name: string) returns (answer: Option<int>)
    ensures IsAnswer(idx, name, answer)
  {
    var ids := idx.repositories.Keys;
    while ids != {}
      invariant ids <= idx.repositories.Keys
      invariant forall id :: id in idx.repositories && id !in ids ==> idx.repositories[id] != name
      decreases |ids|
    {
      Inhabited(ids);
      var id :| id in ids;
      if idx.repositories[id] == name {
        return Some(id);
      }
      ids := ids - {id};
    }
    return None;
  }

  /** One loop of `projectFindingFacts`. */
  method ProjectFacts(b: GraphBuilder, facts: seq<Fact>, project: Fact -> Projected) returns (targets: seq<string>)
    requires b.Valid()
    modifies b
    ensures b.Valid() && b.puts == old(b.puts) + Unfold(Gather(facts, CallsOf(project)))
    ensures targets == Gather(facts, TargetOf(project))
  {
    targets := [];
    for i := 0 to |facts|
      invariant b.Valid() && b.puts == old(b.puts) + Unfold(Gather(facts[..i], CallsOf(project)))
      invariant targets == Gather(facts[..i], TargetOf(project))
    {
      GatherStep(facts, i, CallsOf(project));
      GatherStep(facts, i, TargetOf(project));
      var p := project(facts[i]);
      UnfoldMore(b.puts, old(b.puts), Gather(facts[..i], CallsOf(project)), p.calls);
      b.Make(p.calls);
      if p.target != "" {
        targets := targets + [p.target];
      }
    }
    assert facts[..|facts|] == facts;
  }

  lemma UnfoldMore(now: seq<Call>, before: seq<Call>, made: seq<Call>, more: seq<Call>)
    requires now == before + Unfold(made)
    ensures now + Unfold(more) == before + Unfold(made + more)
  {
    GatherConcat(made, more, Puts);
    Assoc(before, Unfold(made), Unfold(more));
  }

  /** `projectFinding`, for a finding whose repository is known. */
  method ProjectSubject(b: GraphBuilder, idx: Index, f: Finding, repository: int)
    requires b.Valid()
    modifies b
    ensures b.Valid() && b.puts == old(b.puts) + Unfold(SubjectCalls(b.env, idx, f, repository))
  {
    var env := b.env;
    var subject := SubjectNodes(env, idx, f, repository);
    var about := if f.evidence != [] then [About(env, f, subject.target)] else [];
    b.Make(subject.calls + about);
    var actions := ProjectFacts(b, idx.actions, ActionOf(env, f, repository));
    var dependencies := ProjectFacts(b, idx.dependencies, DependencyOf(env, idx, f, repository));
    var targets := SortUnique(actions + dependencies);
    b.Make(Gather(targets, AboutTarget(env, f, subject.target)));
    b.Make(ExposuresOf(env, idx, f, repository));
    FivePieces(old(b.puts), subject.calls + about,
               Gather(idx.actions, CallsOf(ActionOf(env, f, repository))),
               Gather(idx.dependencies, CallsOf(DependencyOf(env, idx, f, repository))),
               Gather(targets, AboutTarget(env, f, subject.target)), ExposuresOf(env, idx, f, repository));
  }

  lemma FivePieces(before: seq<Call>, p: seq<Call>, q: seq<Call>, r: seq<Call>, s: seq<Call>, t: seq<Call>)
    ensures before + Unfold(p) + Unfold(q) + Unfold(r) + Unfold(s) + Unfold(t) == before + Unfold(p + (q + r) + s + t)
  {
    UnfoldMore(before + Unfold(p), before, p, q);
    UnfoldMore(before + Unfold(p + q), before, p + q, r);
    Assoc(p, q, r);
    UnfoldMore(before + Unfold(p + (q + r)), before, p + (q + r), s);
    UnfoldMore(before + Unfold(p + (q + r) + s), before, p + (q + r) + s, t);
  }

  method ProjectAbout(b: GraphBuilder, idx: Index, f: Finding, repository: Option<int>)
    requires b.Valid()
    modifies b
    ensures b.Valid() && b.puts == old(b.puts) + Unfold(AboutCalls(b.env, idx, f, repository))
  {
    if repository.None? {
      assert b.puts + Unfold([]) == b.puts;
      return;
    }
    ProjectSubject(b, idx, f, repository.value);
  }

  /** `projectFinding`, with the repository found for it. */
  method ProjectFinding(b: GraphBuilder, idx: Index, f: Finding) returns (ghost answer: Option<int>)
    requires b.Valid()
    modifies b
    ensures b.Valid() && IsAnswer(idx, f.repository, answer)
    ensures b.puts == old(b.puts) + Unfold(FindingCalls(b.env, idx, f, answer))
  {
    b.Make(EvidenceCalls(b.env, f));
    var found := RepositoryIdForGraph(idx, f.repository);
    answer := found;
    UnfoldMore(b.puts, old(b.puts), EvidenceCalls(b.env, f), AboutCalls(b.env, idx, f, found));
    ProjectAbout(b, idx, f, found);
  }

  /** A finding and the repository found for it. */
  datatype Resolved = Resolved(finding: Finding, repository: Option<int>)

  function CallsFor(env: Env, idx: Index): Resolved -> seq<Call> { (r: Resolved) => FindingCalls(env, idx, r.finding, r.repository) }

  ghost predicate Answers(idx: Index, findings: seq<Finding>, resolved: seq<Resolved>) {
    && |resolved| == |findings|
    && forall i :: 0 <= i < |findings| ==> resolved[i].finding == findings[i] && IsAnswer(idx, findings[i].repository, resolved[i].repository)
  }

  /** What `buildGraph` may produce. */
  ghost predicate IsGraph(env: Env, idx: Index, findings: seq<Finding>, nodes: map<string, Node>, edges: map<string, Edge>) {
    exists resolved :: Answers(idx, findings, resolved) && Builds(env, idx, resolved, nodes, edges)
  }

  ghost predicate Builds(env: Env, idx: Index, resolved: seq<Resolved>, nodes: map<string, Node>, edges: map<string, Edge>) {
    var puts := Unfold(Gather(resolved, CallsFor(env, idx)));
    nodes == Nodes(env, puts) && edges == Edges(env, puts)
  }

  lemma OneMoreFinding(idx: Index, findings: seq<Finding>, i: nat, resolved: seq<Resolved>, r: Resolved)
    requires i < |findings| && Answers(idx, findings[..i], resolved)
    requires r.finding == findings[i] && IsAnswer(idx, findings[i].repository, r.repository)
    ensures Answers(idx, findings[..i + 1], resolved + [r])
  {
  }

  lemma UnfoldFront<A>(s: seq<A>, a: A, f: A -> seq<Call>)
    ensures Unfold(Gather(s + [a], f)) == Unfold(Gather(s, f)) + Unfold(f(a))
  {
    GatherFront(s, a, f);
    GatherConcat(Gather(s, f), f(a), Puts);
  }

  /** `buildGraph` */
  method BuildGraph(env: Env, idx: Index, findings: seq<Finding>) returns (nodes: map<string, Node>, edges: map<string, Edge>)
    ensures IsGraph(env, idx, findings, nodes, edges)
  {
    var b := new GraphBuilder(env);
    ghost var resolved: seq<Resolved> := [];
    for i := 0 to |findings|
      invariant b.Valid() && b.env == env && b.puts == Unfold(Gather(resolved, CallsFor(env, idx)))
      invariant Answers(idx, findings[..i], resolved)
    {
      ghost var answer := ProjectFinding(b, idx, findings[i]);
      OneMoreFinding(idx, findings, i, resolved, Resolved(findings[i], answer));
      UnfoldFront(resolved, Resolved(findings[i], answer), CallsFor(env, idx));
      resolved := resolved + [Resolved(findings[i], answer)];
    }
    assert findings[..|findings|] == findings;
    nodes, edges := b.nodes, b.edges;
    assert Builds(env, idx, resolved, nodes, edges);
  }

  // ----- The order of the findings -----

  ghost predicate UniqueNames(idx: Index) {
    forall i, j :: i in idx.repositories && j in idx.repositories && idx.repositories[i] == idx.repositories[j] ==> i == j
  }

  /** A lookup by name has one answer for every name exactly when no two repositories share a name. */
  lemma AnswersAreUnique(idx: Index)
    ensures UniqueNames(idx) <==> forall name, a, b :: IsAnswer(idx, name, a) && IsAnswer(idx, name, b) ==> a == b
  {
    if UniqueNames(idx) {
      forall name, a, b | IsAnswer(idx, name, a) && IsAnswer(idx, name, b) ensures a == b { OneAnswer(idx, name, a, b); }
    }
    if forall name, a, b :: IsAnswer(idx, name, a) && IsAnswer(idx, name, b) ==> a == b {
      forall i, j | i in idx.repositories && j in idx.repositories && idx.repositories[i] == idx.repositories[j] ensures i == j {
        assert IsAnswer(idx, idx.repositories[i], Some(i)) && IsAnswer(idx, idx.repositories[i], Some(j));
      }
    }
  }

  lemma OneAnswer(idx: Index, name: string, a: Option<int>, b: Option<int>)
    requires UniqueNames(idx) && IsAnswer(idx, name, a) && IsAnswer(idx, name, b)
    ensures a == b
  {
    match (a, b) {
      case (Some(i), Some(j)) => assert i == j;
      case (Some(i), None) => Unnamed(idx, name, i);
      case (None, Some(j)) => Unnamed(idx, name, j);
      case (None, None) =>
    }
  }

  lemma Unnamed(idx: Index, name: string, id: int)
    requires IsAnswer(idx, name, None) && id in idx.repositories
    ensures idx.repositories[id] != name
  {
  }

  function Without<T>(s: seq<T>, i: nat): seq<T>
    requires i < |s|
  {
    s[..i] + s[i + 1..]
  }

  lemma TakeOut<T>(s: seq<T>, i: nat)
    requires i < |s|
    ensures multiset(s) == multiset(Without(s, i)) + multiset{s[i]}
  {
    assert s == s[..i] + [s[i]] + s[i + 1..];
  }

  lemma PermuteWithout<T>(s: seq<T>, i: nat, t: seq<T>, j: nat)
    requires i < |s| && j < |t| && s[i] == t[j]
    ensures multiset(s) == multiset(t) <==> multiset(Without(s, i)) == multiset(Without(t, j))
  {
    TakeOut(s, i);
    TakeOut(t, j);
    assert multiset(Without(s, i)) == multiset(s) - multiset{s[i]};
    assert multiset(Without(t, j)) == multiset(t) - multiset{t[j]};
  }

  lemma AnswersWithout(idx: Index, fs: seq<Finding>, rs: seq<Resolved>, i: nat)
    requires i < |fs| && Answers(idx, fs, rs)
    ensures Answers(idx, Without(fs, i), Without(rs, i))
  {
  }

  lemma {:induction false} ResolvedPermutes(idx: Index, fs: seq<Finding>, rs: seq<Resolved>, gs: seq<Finding>, ss: seq<Resolved>)
    requires UniqueNames(idx) && multiset(fs) == multiset(gs) && Answers(idx, fs, rs) && Answers(idx, gs, ss)
    ensures multiset(rs) == multiset(ss)
    decreases |fs|
  {
    assert |fs| == |multiset(fs)| == |multiset(gs)| == |gs|;
    if fs != [] {
      assert fs[0] in multiset(gs);
      var i :| 0 <= i < |gs| && gs[i] == fs[0];
      OneAnswer(idx, fs[0].repository, rs[0].repository, ss[i].repository);
      PermuteWithout(fs, 0, gs, i);
      AnswersWithout(idx, fs, rs, 0);
      AnswersWithout(idx, gs, ss, i);
      ResolvedPermutes(idx, Without(fs, 0), Without(rs, 0), Without(gs, i), Without(ss, i));
      PermuteWithout(rs, 0, ss, i);
    }
  }

  /** Findings in any order give the same graph, up to the order of evidence and focus, when repository names
      are unique and SHA-256 does not collide. */
  lemma OrderOfFindings(env: Env, idx: Index, fs: seq<Finding>, gs: seq<Finding>, nodes: map<string, Node>, edges: map<string, Edge>,
                        nodes': map<string, Node>, edges': map<string, Edge>)
    requires Injective(env.hash) && UniqueNames(idx) && multiset(fs) == multiset(gs)
    requires IsGraph(env, idx, fs, nodes, edges) && IsGraph(env, idx, gs, nodes', edges')
    ensures SameGraph(nodes, edges, nodes', edges')
  {
    var rs :| Answers(idx, fs, rs) && Builds(env, idx, rs, nodes, edges);
    var ss :| Answers(idx, gs, ss) && Builds(env, idx, ss, nodes', edges');
    ResolvedPermutes(idx, fs, rs, gs, ss);
    GatherPermutes(rs, ss, CallsFor(env, idx));
    CallsInAnyOrder(env, Gather(rs, CallsFor(env, idx)), Gather(ss, CallsFor(env, idx)));
  }
}
