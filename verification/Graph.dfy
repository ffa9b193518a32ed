/** The evidence graph: nodes and edges deduplicated by identity (internal/analyze/graph.go). */
module Graph {
  import opened Orders
  import opened Identity
  import opened GraphKinds

  datatype Execution = Execution(repository: int, run: int, attempt: int, job: int)

  /** What the graph takes from other packages: SHA-256, terminal sanitizing (4,096 bytes at most) and the
      text of a job execution. */
  datatype Env = Env(hash: string -> string, sanitize: string -> string, jobText: Execution -> string)

  datatype Node = Node(id: string, kind: NodeKind, title: string, evidence: seq<string>, focus: seq<string>)

  datatype Edge = Edge(id: string, kind: EdgeKind, source: string, target: string, time: string, inferred: bool, rule: string,
                       evidence: seq<string>, focus: seq<string>)

  /** A call of `addNode` or of `addEdge`. */
  datatype Call =
    | NodeCall(kind: NodeKind, title: string, identity: seq<string>, evidence: seq<string>, focus: string)
    | EdgeCall(link: EdgeKind, source: string, target: string, evidence: seq<string>, time: string, inferred: bool, rule: string,
               focus: string)

  function NodeId(env: Env, kind: NodeKind, identity: seq<string>): string {
    DeterministicID(env.hash, "gnode1", [NodeText(kind)] + identity)
  }

  function EdgeParts(c: Call): seq<string>
    requires c.EdgeCall?
  {
    [EdgeText(c.link), c.source, c.target, c.time, c.rule, if c.inferred then "true" else "false"]
  }

  function EdgeId(env: Env, c: Call): string
    requires c.EdgeCall?
  {
    DeterministicID(env.hash, "gedge1", EdgeParts(c))
  }

  predicate OffersNode(env: Env, c: Call, id: string) { c.NodeCall? && NodeId(env, c.kind, c.identity) == id }

  predicate OffersEdge(env: Env, c: Call, id: string) { c.EdgeCall? && EdgeId(env, c) == id }

  function Label(env: Env, title: string): string {
    var clean := env.sanitize(title);
    if clean == "" then "[unavailable]" else clean
  }

  function EvidenceNode(evidence: string, focus: string): Call {
    NodeCall(NodeKind.EvidenceObject, evidence, ["evidence", evidence], [evidence], focus)
  }

  // ----- Concatenating what a function gives for each element -----

  function Gather<A, B>(s: seq<A>, f: A -> seq<B>): seq<B> { GatherTo(s, |s|, f) }

  function GatherTo<A, B>(s: seq<A>, n: nat, f: A -> seq<B>): seq<B>
    requires n <= |s|
  {
    if n == 0 then [] else GatherTo(s, n - 1, f) + f(s[n - 1])
  }

  lemma {:induction false} GatherPrefix<A, B>(s: seq<A>, t: seq<A>, n: nat, f: A -> seq<B>)
    requires n <= |s| && n <= |t| && s[..n] == t[..n]
    ensures GatherTo(s, n, f) == GatherTo(t, n, f)
  {
    if n > 0 {
      assert s[..n][..n - 1] == s[..n - 1] && t[..n][..n - 1] == t[..n - 1];
      assert s[..n][n - 1] == t[..n][n - 1];
      GatherPrefix(s, t, n - 1, f);
    }
  }

  lemma GatherFront<A, B>(s: seq<A>, x: A, f: A -> seq<B>)
    ensures Gather(s + [x], f) == Gather(s, f) + f(x)
  {
    GatherPrefix(s + [x], s, |s|, f);
  }

  lemma GatherLast<A, B>(s: seq<A>, f: A -> seq<B>)
    requires s != []
    ensures Gather(s, f) == Gather(s[..|s| - 1], f) + f(s[|s| - 1])
  {
    GatherPrefix(s, s[..|s| - 1], |s| - 1, f);
  }

  lemma GatherStep<A, B>(s: seq<A>, i: nat, f: A -> seq<B>)
    requires i < |s|
    ensures Gather(s[..i + 1], f) == Gather(s[..i], f) + f(s[i])
  {
    assert s[..i + 1] == s[..i] + [s[i]];
    GatherFront(s[..i], s[i], f);
  }

  lemma {:induction false} GatherConcat<A, B>(s: seq<A>, t: seq<A>, f: A -> seq<B>)
    ensures Gather(s + t, f) == Gather(s, f) + Gather(t, f)
  {
    if t == [] {
      assert s + t == s;
    } else {
      var u, front, x := s + t, t[..|t| - 1], t[|t| - 1];
      assert u == (s + front) + [x] && t == front + [x];
      GatherConcat(s, front, f);
      GatherFront(s + front, x, f);
      GatherFront(front, x, f);
    }
  }

  lemma {:induction false} GatherMember<A, B>(s: seq<A>, f: A -> seq<B>, x: B)
    ensures x in Gather(s, f) <==> exists a :: a in s && x in f(a)
  {
    if s != [] {
      var front, last := s[..|s| - 1], s[|s| - 1];
      GatherLast(s, f);
      GatherMember(front, f, x);
      assert forall a :: a in s <==> a in front || a == last;
    }
  }

  /** Arranging the elements differently arranges differently what they give. */
  lemma {:induction false} GatherPermutes<A, B>(s: seq<A>, t: seq<A>, f: A -> seq<B>)
    requires multiset(s) == multiset(t)
    ensures multiset(Gather(s, f)) == multiset(Gather(t, f))
  {
    assert |s| == |multiset(s)| == |multiset(t)| == |t|;
    if s != [] {
      var front, x := s[..|s| - 1], s[|s| - 1];
      assert s == front + [x];
      assert x in multiset(t);
      var i :| 0 <= i < |t| && t[i] == x;
      assert t == t[..i] + [x] + t[i + 1..];
      assert multiset(t[..i] + t[i + 1..]) == multiset(t) - multiset{x};
      GatherLast(s, f);
      GatherPermutes(front, t[..i] + t[i + 1..], f);
      GatherAround(t[..i], x, t[i + 1..], f);
    }
  }

  lemma GatherAround<A, B>(a: seq<A>, x: A, b: seq<A>, f: A -> seq<B>)
    ensures multiset(Gather(a + [x] + b, f)) == multiset(Gather(a + b, f)) + multiset(f(x))
  {
    GatherConcat(a, b, f);
    GatherConcat(a + [x], b, f);
    GatherFront(a, x, f);
  }

  // ----- What the maps hold after some calls -----

  /** The guard of `addEdge` lets the call through. */
  predicate Draws(c: Call)
    requires c.EdgeCall?
  {
    c.source != "" && c.target != "" && c.source != c.target && c.evidence != []
  }

  /** What a call does: nothing when the guard of `addEdge` turns it away, else an edge and its evidence nodes. */
  function Puts(c: Call): seq<Call> {
    if c.NodeCall? then [c]
    else if !Draws(c) then []
    else [c] + Gather(c.evidence, EvidencePut(c.focus))
  }

  function EvidencePut(focus: string): string -> seq<Call> { e => [EvidenceNode(e, focus)] }

  function Unfold(calls: seq<Call>): seq<Call> { Gather(calls, Puts) }

  function NodeEvidence(env: Env, id: string): Call -> seq<string> { c => if OffersNode(env, c, id) then c.evidence else [] }
  function EdgeEvidence(env: Env, id: string): Call -> seq<string> { c => if OffersEdge(env, c, id) then c.evidence else [] }
  function Focus(c: Call): seq<string> { if c.focus == "" then [] else [c.focus] }
  function NodeFocus(env: Env, id: string): Call -> seq<string> { c => if OffersNode(env, c, id) then Focus(c) else [] }
  function EdgeFocus(env: Env, id: string): Call -> seq<string> { c => if OffersEdge(env, c, id) then Focus(c) else [] }

  /** The node holds the least label offered for its identity and, in order, all evidence and focus offered. */
  ghost predicate HoldsNode(env: Env, puts: seq<Call>, n: Node) {
    && n.evidence == Gather(puts, NodeEvidence(env, n.id))
    && n.focus == Gather(puts, NodeFocus(env, n.id))
    && (exists c :: c in puts && OffersNode(env, c, n.id) && c.kind == n.kind)
    && (exists c :: c in puts && OffersNode(env, c, n.id) && Label(env, c.title) == n.title)
    && (forall c :: c in puts && OffersNode(env, c, n.id) ==> !StringLess(Label(env, c.title), n.title))
  }

  ghost predicate HoldsEdge(env: Env, puts: seq<Call>, e: Edge) {
    && e.evidence == Gather(puts, EdgeEvidence(env, e.id))
    && e.focus == Gather(puts, EdgeFocus(env, e.id))
    && exists c :: c in puts && OffersEdge(env, c, e.id) && SameEdge(c, e)
  }

  predicate SameEdge(c: Call, e: Edge) {
    && c.EdgeCall? && c.link == e.kind && c.source == e.source && c.target == e.target
    && c.time == e.time && c.inferred == e.inferred && c.rule == e.rule
  }

  ghost predicate ReflectsNodes(env: Env, puts: seq<Call>, nodes: map<string, Node>) {
    && (forall c :: c in puts && c.NodeCall? ==> NodeId(env, c.kind, c.identity) in nodes)
    && (forall id :: id in nodes ==> nodes[id].id == id && HoldsNode(env, puts, nodes[id]))
  }

  ghost predicate ReflectsEdges(env: Env, puts: seq<Call>, edges: map<string, Edge>) {
    && (forall c :: c in puts && c.EdgeCall? ==> EdgeId(env, c) in edges)
    && (forall id :: id in edges ==> edges[id].id == id && HoldsEdge(env, puts, edges[id]))
  }

  lemma MoreForNode(env: Env, puts: seq<Call>, c: Call, n: Node, m: Node)
    requires HoldsNode(env, puts, n) && m.id == n.id && m.kind == n.kind
    requires if OffersNode(env, c, n.id) then
               && m.evidence == n.evidence + c.evidence && m.focus == n.focus + Focus(c)
               && m.title == (if StringLess(Label(env, c.title), n.title) then Label(env, c.title) else n.title)
             else m == n
    ensures HoldsNode(env, puts + [c], m)
  {
    var all := puts + [c];
    GatherFront(puts, c, NodeEvidence(env, n.id));
    GatherFront(puts, c, NodeFocus(env, n.id));
    assert forall d :: d in all <==> d in puts || d == c;
    if OffersNode(env, c, n.id) {
      StringTotal(Label(env, c.title), Label(env, c.title));
      forall d | d in all && OffersNode(env, d, n.id) ensures !StringLess(Label(env, d.title), m.title) {
        if d in puts && StringLess(Label(env, c.title), n.title) && StringLess(Label(env, d.title), Label(env, c.title)) {
          StringTransitive(Label(env, d.title), Label(env, c.title), n.title);
        }
      }
    }
  }

  lemma {:induction false} NothingGathered<A, B>(s: seq<A>, f: A -> seq<B>)
    requires forall a :: a in s ==> f(a) == []
    ensures Gather(s, f) == []
  {
    if s != [] {
      GatherLast(s, f);
      NothingGathered(s[..|s| - 1], f);
    }
  }

  lemma FirstNode(env: Env, puts: seq<Call>, c: Call, n: Node)
    requires c.NodeCall? && n.id == NodeId(env, c.kind, c.identity)
    requires forall d :: d in puts ==> !OffersNode(env, d, n.id)
    requires n == Node(n.id, c.kind, Label(env, c.title), c.evidence, Focus(c))
    ensures HoldsNode(env, puts + [c], n)
  {
    var all := puts + [c];
    assert c in all;
    GatherFront(puts, c, NodeEvidence(env, n.id));
    GatherFront(puts, c, NodeFocus(env, n.id));
    NothingGathered(puts, NodeEvidence(env, n.id));
    NothingGathered(puts, NodeFocus(env, n.id));
    StringTotal(n.title, n.title);
  }

  lemma MoreForEdge(env: Env, puts: seq<Call>, c: Call, e: Edge, m: Edge)
    requires HoldsEdge(env, puts, e)
    requires if OffersEdge(env, c, e.id) then m == e.(evidence := e.evidence + c.evidence, focus := e.focus + Focus(c)) else m == e
    ensures HoldsEdge(env, puts + [c], m)
  {
    var all := puts + [c];
    GatherFront(puts, c, EdgeEvidence(env, e.id));
    GatherFront(puts, c, EdgeFocus(env, e.id));
    assert forall d :: d in puts ==> d in all;
  }

  lemma FirstEdge(env: Env, puts: seq<Call>, c: Call, e: Edge)
    requires c.EdgeCall? && e.id == EdgeId(env, c) && SameEdge(c, e) && e.evidence == c.evidence && e.focus == Focus(c)
    requires forall d :: d in puts ==> !OffersEdge(env, d, e.id)
    ensures HoldsEdge(env, puts + [c], e)
  {
    var all := puts + [c];
    assert c in all;
    GatherFront(puts, c, EdgeEvidence(env, e.id));
    GatherFront(puts, c, EdgeFocus(env, e.id));
    NothingGathered(puts, EdgeEvidence(env, e.id));
    NothingGathered(puts, EdgeFocus(env, e.id));
  }

  // ----- The maps after some puts -----

  function NodeAfter(env: Env, nodes: map<string, Node>, c: Call): Node
    requires c.NodeCall?
  {
    var id, title := NodeId(env, c.kind, c.identity), Label(env, c.title);
    var was := if id in nodes then nodes[id] else Node(id, c.kind, title, [], []);
    Node(id, was.kind, if StringLess(title, was.title) then title else was.title, was.evidence + c.evidence, was.focus + Focus(c))
  }

  function EdgeAfter(env: Env, edges: map<string, Edge>, c: Call): Edge
    requires c.EdgeCall?
  {
    var id := EdgeId(env, c);
    var was := if id in edges then edges[id] else Edge(id, c.link, c.source, c.target, c.time, c.inferred, c.rule, [], []);
    was.(evidence := was.evidence + c.evidence, focus := was.focus + Focus(c))
  }

  function Nodes(env: Env, puts: seq<Call>): map<string, Node> {
    if puts == [] then map[]
    else
      var nodes, c := Nodes(env, puts[..|puts| - 1]), puts[|puts| - 1];
      if c.NodeCall? then nodes[NodeId(env, c.kind, c.identity) := NodeAfter(env, nodes, c)] else nodes
  }

  function Edges(env: Env, puts: seq<Call>): map<string, Edge> {
    if puts == [] then map[]
    else
      var edges, c := Edges(env, puts[..|puts| - 1]), puts[|puts| - 1];
      if c.EdgeCall? then edges[EdgeId(env, c) := EdgeAfter(env, edges, c)] else edges
  }

  lemma OneMore(env: Env, puts: seq<Call>, c: Call)
    ensures c.NodeCall? ==>
      Nodes(env, puts + [c]) == Nodes(env, puts)[NodeId(env, c.kind, c.identity) := NodeAfter(env, Nodes(env, puts), c)]
    ensures c.EdgeCall? ==> Nodes(env, puts + [c]) == Nodes(env, puts)
    ensures c.EdgeCall? ==> Edges(env, puts + [c]) == Edges(env, puts)[EdgeId(env, c) := EdgeAfter(env, Edges(env, puts), c)]
    ensures c.NodeCall? ==> Edges(env, puts + [c]) == Edges(env, puts)
  {
    assert (puts + [c])[..|puts|] == puts;
  }

  lemma NodeStep(env: Env, puts: seq<Call>, c: Call, nodes: map<string, Node>)
    requires c.NodeCall? && ReflectsNodes(env, puts, nodes)
    ensures HoldsNode(env, puts + [c], NodeAfter(env, nodes, c))
  {
    var id := NodeId(env, c.kind, c.identity);
    if id in nodes {
      JoinsNode(env, puts, c, nodes);
    } else {
      forall d | d in puts ensures !OffersNode(env, d, id) {}
      StartsNode(env, puts, c, nodes);
    }
  }

  lemma JoinsNode(env: Env, puts: seq<Call>, c: Call, nodes: map<string, Node>)
    requires c.NodeCall? && NodeId(env, c.kind, c.identity) in nodes
    requires var n := nodes[NodeId(env, c.kind, c.identity)]; n.id == NodeId(env, c.kind, c.identity) && HoldsNode(env, puts, n)
    ensures HoldsNode(env, puts + [c], NodeAfter(env, nodes, c))
  {
    MoreForNode(env, puts, c, nodes[NodeId(env, c.kind, c.identity)], NodeAfter(env, nodes, c));
  }

  lemma StartsNode(env: Env, puts: seq<Call>, c: Call, nodes: map<string, Node>)
    requires c.NodeCall? && NodeId(env, c.kind, c.identity) !in nodes
    requires forall d :: d in puts ==> !OffersNode(env, d, NodeId(env, c.kind, c.identity))
    ensures HoldsNode(env, puts + [c], NodeAfter(env, nodes, c))
  {
    StringTotal(Label(env, c.title), Label(env, c.title));
    FirstNode(env, puts, c, NodeAfter(env, nodes, c));
  }

  lemma EdgeStep(env: Env, puts: seq<Call>, c: Call, edges: map<string, Edge>)
    requires c.EdgeCall? && ReflectsEdges(env, puts, edges)
    ensures HoldsEdge(env, puts + [c], EdgeAfter(env, edges, c)) && EdgeAfter(env, edges, c).id == EdgeId(env, c)
  {
    var id := EdgeId(env, c);
    if id in edges {
      MoreForEdge(env, puts, c, edges[id], EdgeAfter(env, edges, c));
    } else {
      FirstEdge(env, puts, c, EdgeAfter(env, edges, c));
    }
  }

  lemma NodesWith(env: Env, puts: seq<Call>, c: Call, nodes: map<string, Node>, node: Node)
    requires ReflectsNodes(env, puts, nodes) && OffersNode(env, c, node.id) && HoldsNode(env, puts + [c], node)
    ensures ReflectsNodes(env, puts + [c], nodes[node.id := node])
  {
    var after := nodes[node.id := node];
    forall id | id in after ensures after[id].id == id && HoldsNode(env, puts + [c], after[id]) {
      if id != node.id { MoreForNode(env, puts, c, nodes[id], nodes[id]); }
    }
  }

  lemma EdgesWith(env: Env, puts: seq<Call>, c: Call, edges: map<string, Edge>, edge: Edge)
    requires ReflectsEdges(env, puts, edges) && OffersEdge(env, c, edge.id) && HoldsEdge(env, puts + [c], edge)
    ensures ReflectsEdges(env, puts + [c], edges[edge.id := edge])
  {
    var after := edges[edge.id := edge];
    forall id | id in after ensures after[id].id == id && HoldsEdge(env, puts + [c], after[id]) {
      if id != edge.id { MoreForEdge(env, puts, c, edges[id], edges[id]); }
    }
  }

  lemma NodesKept(env: Env, puts: seq<Call>, c: Call, nodes: map<string, Node>)
    requires ReflectsNodes(env, puts, nodes) && c.EdgeCall?
    ensures ReflectsNodes(env, puts + [c], nodes)
  {
    forall id | id in nodes ensures HoldsNode(env, puts + [c], nodes[id]) { MoreForNode(env, puts, c, nodes[id], nodes[id]); }
  }

  lemma EdgesKept(env: Env, puts: seq<Call>, c: Call, edges: map<string, Edge>)
    requires ReflectsEdges(env, puts, edges) && c.NodeCall?
    ensures ReflectsEdges(env, puts + [c], edges)
  {
    forall id | id in edges ensures HoldsEdge(env, puts + [c], edges[id]) { MoreForEdge(env, puts, c, edges[id], edges[id]); }
  }

  /** Each node has the least label offered for its identity, and all its evidence and focus. */
  lemma {:induction false} NodesReflect(env: Env, puts: seq<Call>)
    ensures ReflectsNodes(env, puts, Nodes(env, puts))
  {
    if puts != [] {
      var front, c := puts[..|puts| - 1], puts[|puts| - 1];
      NodesReflect(env, front);
      assert puts == front + [c];
      OneMore(env, front, c);
      if c.NodeCall? {
        NodeStep(env, front, c, Nodes(env, front));
        NodesWith(env, front, c, Nodes(env, front), NodeAfter(env, Nodes(env, front), c));
      } else {
        NodesKept(env, front, c, Nodes(env, front));
      }
    }
  }

  lemma {:induction false} EdgesReflect(env: Env, puts: seq<Call>)
    ensures ReflectsEdges(env, puts, Edges(env, puts))
  {
    if puts != [] {
      var front, c := puts[..|puts| - 1], puts[|puts| - 1];
      EdgesReflect(env, front);
      assert puts == front + [c];
      OneMore(env, front, c);
      if c.EdgeCall? {
        EdgeStep(env, front, c, Edges(env, front));
        EdgesWith(env, front, c, Edges(env, front), EdgeAfter(env, Edges(env, front), c));
      } else {
        EdgesKept(env, front, c, Edges(env, front));
      }
    }
  }

  lemma NodeKeepsId(env: Env, puts: seq<Call>, id: string)
    requires id in Nodes(env, puts)
    ensures Nodes(env, puts)[id].id == id
  {
    NodesReflect(env, puts);
  }

  /** `graphBuilder`; `puts` is what it has been given so far. */
  class GraphBuilder {
    const env: Env
    var nodes: map<string, Node>
    var edges: map<string, Edge>
    ghost var puts: seq<Call>

    ghost predicate Valid()
      reads this
    {
      nodes == Nodes(env, puts) && edges == Edges(env, puts)
    }

    constructor (env: Env)
      ensures Valid() && this.env == env && puts == []
    {
      this.env := env;
      nodes, edges, puts := map[], map[], [];
    }

    /** `addNode` */
    method AddNode(kind: NodeKind, title: string, identity: seq<string>, evidence: seq<string>, focus: string) returns (id: string)
      requires Valid()
      modifies this
      ensures Valid() && puts == old(puts) + [NodeCall(kind, title, identity, evidence, focus)]
      ensures id == NodeId(env, kind, identity)
    {
      id := DeterministicID(env.hash, "gnode1", [NodeText(kind)] + identity);
      ghost var c := NodeCall(kind, title, identity, evidence, focus);
      var node := JoinNode(id, kind, title, identity, evidence, focus);
      OneMore(env, puts, c);
      nodes := nodes[id := node];
      puts := puts + [c];
    }

    /** The node with this identity after one more offer. */
    method JoinNode(id: string, kind: NodeKind, title: string, identity: seq<string>, evidence: seq<string>, focus: string)
      returns (node: Node)
      requires Valid() && id == NodeId(env, kind, identity)
      ensures node == NodeAfter(env, nodes, NodeCall(kind, title, identity, evidence, focus))
    {
      var clean := env.sanitize(title);
      if clean == "" {
        clean := "[unavailable]";
      }
      StringTotal(clean, clean);
      if id !in nodes {
        node := Node(id, kind, clean, [], []);
      } else {
        NodeKeepsId(env, puts, id);
        node := nodes[id];
        if StringLess(clean, node.title) {
          node := node.(title := clean);
        }
      }
      node := node.(evidence := node.evidence + evidence);
      if focus != "" {
        node := node.(focus := node.focus + [focus]);
      }
    }

    /** `addEdge` */
    method AddEdge(kind: EdgeKind, source: string, target: string, evidence: seq<string>, time: string, inferred: bool,
                   rule: string, focus: string)
      requires Valid()
      modifies this
      ensures Valid()
      ensures puts == old(puts) + Puts(EdgeCall(kind, source, target, evidence, time, inferred, rule, focus))
    {
      if source == "" || target == "" || source == target || |evidence| == 0 {
        return;
      }
      PutEdge(EdgeCall(kind, source, target, evidence, time, inferred, rule, focus));
      Assoc(old(puts), [EdgeCall(kind, source, target, evidence, time, inferred, rule, focus)], Gather(evidence, EvidencePut(focus)));
      AddEvidence(evidence, focus);
    }

    method AddEvidence(evidence: seq<string>, focus: string)
      requires Valid()
      modifies this
      ensures Valid() && puts == old(puts) + Gather(evidence, EvidencePut(focus))
    {
      for i := 0 to |evidence|
        invariant Valid() && puts == old(puts) + Gather(evidence[..i], EvidencePut(focus))
      {
        GatherStep(evidence, i, EvidencePut(focus));
        Assoc(old(puts), Gather(evidence[..i], EvidencePut(focus)), [EvidenceNode(evidence[i], focus)]);
        var _ := AddNode(NodeKind.EvidenceObject, evidence[i], ["evidence", evidence[i]], [evidence[i]], focus);
      }
      assert evidence[..|evidence|] == evidence;
    }

    method PutEdge(c: Call)
      requires Valid() && c.EdgeCall?
      modifies this
      ensures Valid() && puts == old(puts) + [c]
    {
      var id := DeterministicID(env.hash, "gedge1", EdgeParts(c));
      var edge;
      if id !in edges {
        edge := Edge(id, c.link, c.source, c.target, c.time, c.inferred, c.rule, [], []);
      } else {
        edge := edges[id];
      }
      edge := edge.(evidence := edge.evidence + c.evidence);
      if c.focus != "" {
        edge := edge.(focus := edge.focus + [c.focus]);
      }
      OneMore(env, puts, c);
      assert edge == EdgeAfter(env, edges, c);
      edges := edges[id := edge];
      puts := puts + [c];
    }

    /** A run of calls. */
    method Make(calls: seq<Call>)
      requires Valid()
      modifies this
      ensures Valid() && puts == old(puts) + Unfold(calls)
    {
      for i := 0 to |calls|
        invariant Valid() && puts == old(puts) + Unfold(calls[..i])
      {
        GatherStep(calls, i, Puts);
        Assoc(old(puts), Unfold(calls[..i]), Puts(calls[i]));
        match calls[i] {
          case NodeCall(kind, title, identity, evidence, focus) =>
            var _ := AddNode(kind, title, identity, evidence, focus);
          case EdgeCall(link, source, target, evidence, time, inferred, rule, focus) =>
            AddEdge(link, source, target, evidence, time, inferred, rule, focus);
        }
      }
      assert calls[..|calls|] == calls;
    }
  }

  // ----- Closure -----

  /** A node with this ID is added, as a node of this kind. */
  ghost predicate HasKind(env: Env, calls: seq<Call>, id: string, kind: NodeKind) {
    exists c :: c in calls && OffersNode(env, c, id) && c.kind == kind
  }

  /** A node with this ID is added, of a kind such an edge may leave, or may enter. */
  ghost predicate HasSource(env: Env, calls: seq<Call>, id: string, link: EdgeKind) {
    exists c :: c in calls && OffersNode(env, c, id) && MaySource(link, c.kind)
  }

  ghost predicate HasTarget(env: Env, calls: seq<Call>, id: string, link: EdgeKind) {
    exists c :: c in calls && OffersNode(env, c, id) && MayTarget(link, c.kind)
  }

  ghost predicate HasNode(env: Env, calls: seq<Call>, id: string) { exists c :: c in calls && OffersNode(env, c, id) }

  /** Every edge of these calls joins nodes of kinds it may join. */
  ghost predicate Fitting(env: Env, calls: seq<Call>, all: seq<Call>) {
    forall c :: c in calls && c.EdgeCall? ==> HasSource(env, all, c.source, c.link) && HasTarget(env, all, c.target, c.link)
  }

  /** Every edge these calls draw joins nodes of kinds it may join. */
  ghost predicate AllKeep(env: Env, calls: seq<Call>, all: seq<Call>) {
    forall c :: c in calls && c.EdgeCall? && Draws(c) ==> HasSource(env, all, c.source, c.link) && HasTarget(env, all, c.target, c.link)
  }

  /** Relations whose ends are as a fact states them, and not by the shape of the projection. */
  predicate Stated(link: EdgeKind) {
    || link.WorkflowDeclaredAction? || link.WorkflowCalledWorkflow? || link.ActionContainsAction? || link.LocalActionResolvedTo?
    || link.InheritedSecret? || link.Contradicts?
  }

  /** The ends of every edge are added, and unless its relation is stated by a fact they are of kinds it may join. */
  ghost predicate Anchored(env: Env, calls: seq<Call>, all: seq<Call>) {
    forall c :: c in calls && c.EdgeCall? ==>
      && HasNode(env, all, c.source) && HasNode(env, all, c.target)
      && (Stated(c.link) || (HasSource(env, all, c.source, c.link) && HasTarget(env, all, c.target, c.link)))
  }

  /** Every edge is anchored; and, unless SHA-256 collides, all the edges drawn join kinds they may join exactly when
      they fit. */
  ghost predicate Grounded(env: Env, calls: seq<Call>, all: seq<Call>, fits: bool) {
    Anchored(env, calls, all) && (Injective(env.hash) ==> (AllKeep(env, calls, all) <==> fits))
  }

  ghost predicate Within(calls: seq<Call>, all: seq<Call>) { forall c :: c in calls ==> c in all }

  /** No edge dangles and no evidence an edge cites is missing. */
  ghost predicate ClosedGraph(env: Env, nodes: map<string, Node>, edges: map<string, Edge>) {
    forall id :: id in edges ==>
      && edges[id].source in nodes && edges[id].target in nodes
      && (forall e :: e in edges[id].evidence ==> NodeId(env, NodeKind.EvidenceObject, ["evidence", e]) in nodes)
  }

  lemma GroundedIsClosed(env: Env, calls: seq<Call>)
    requires Anchored(env, calls, calls)
    ensures ClosedGraph(env, Nodes(env, Unfold(calls)), Edges(env, Unfold(calls)))
  {
    var nodes, edges := Nodes(env, Unfold(calls)), Edges(env, Unfold(calls));
    forall id | id in edges
      ensures edges[id].source in nodes && edges[id].target in nodes
      ensures forall e :: e in edges[id].evidence ==> NodeId(env, NodeKind.EvidenceObject, ["evidence", e]) in nodes
    {
      var c := CallOf(env, calls, id);
      NodeIsPut(env, calls, c.source);
      NodeIsPut(env, calls, c.target);
      EvidenceIsThere(env, calls, id);
    }
  }

  /** The call that made an edge. */
  lemma CallOf(env: Env, calls: seq<Call>, id: string) returns (c: Call)
    requires id in Edges(env, Unfold(calls))
    ensures c in calls && c.EdgeCall? && c in Puts(c) && EdgeId(env, c) == id && SameEdge(c, Edges(env, Unfold(calls))[id])
  {
    EdgesReflect(env, Unfold(calls));
    assert HoldsEdge(env, Unfold(calls), Edges(env, Unfold(calls))[id]);
    c :| c in Unfold(calls) && OffersEdge(env, c, id) && SameEdge(c, Edges(env, Unfold(calls))[id]);
    EdgeWasCalled(calls, c);
  }

  lemma EvidenceIsThere(env: Env, calls: seq<Call>, id: string)
    requires id in Edges(env, Unfold(calls))
    ensures forall e :: e in Edges(env, Unfold(calls))[id].evidence ==>
      NodeId(env, NodeKind.EvidenceObject, ["evidence", e]) in Nodes(env, Unfold(calls))
  {
    EdgesReflect(env, Unfold(calls));
    NodesReflect(env, Unfold(calls));
    var edge := Edges(env, Unfold(calls))[id];
    assert HoldsEdge(env, Unfold(calls), edge);
    forall e | e in edge.evidence ensures NodeId(env, NodeKind.EvidenceObject, ["evidence", e]) in Nodes(env, Unfold(calls)) {
      GatherMember(Unfold(calls), EdgeEvidence(env, id), e);
      var d :| d in Unfold(calls) && e in EdgeEvidence(env, id)(d);
      EdgeWasCalled(calls, d);
      EvidenceIsPut(calls, d, e);
      assert EvidenceNode(e, d.focus).NodeCall?;
    }
  }

  lemma EdgeWasCalled(calls: seq<Call>, c: Call)
    requires c in Unfold(calls) && c.EdgeCall?
    ensures c in calls && c in Puts(c)
  {
    GatherMember(calls, Puts, c);
    var d :| d in calls && c in Puts(d);
    if d != c {
      GatherMember(d.evidence, EvidencePut(d.focus), c);
    }
  }

  lemma NodeIsPut(env: Env, calls: seq<Call>, id: string)
    requires HasNode(env, calls, id)
    ensures id in Nodes(env, Unfold(calls))
  {
    NodesReflect(env, Unfold(calls));
    var c :| c in calls && OffersNode(env, c, id);
    assert c in Puts(c);
    GatherMember(calls, Puts, c);
  }

  lemma EvidenceIsPut(calls: seq<Call>, c: Call, e: string)
    requires c in calls && c.EdgeCall? && c in Puts(c) && e in c.evidence
    ensures EvidenceNode(e, c.focus) in Unfold(calls)
  {
    var n := EvidenceNode(e, c.focus);
    assert n in EvidencePut(c.focus)(e);
    GatherMember(c.evidence, EvidencePut(c.focus), n);
    assert n in Puts(c);
    GatherMember(calls, Puts, n);
  }

  // ----- Independence of the order of calls -----

  predicate SameNode(a: Node, b: Node) {
    a.id == b.id && a.kind == b.kind && a.title == b.title && multiset(a.evidence) == multiset(b.evidence) && multiset(a.focus) == multiset(b.focus)
  }

  predicate AgreeingEdges(a: Edge, b: Edge) {
    && a.(evidence := [], focus := []) == b.(evidence := [], focus := [])
    && multiset(a.evidence) == multiset(b.evidence) && multiset(a.focus) == multiset(b.focus)
  }

  ghost predicate SameGraph(nodes: map<string, Node>, edges: map<string, Edge>, nodes': map<string, Node>, edges': map<string, Edge>) {
    && nodes.Keys == nodes'.Keys && (forall id :: id in nodes ==> SameNode(nodes[id], nodes'[id]))
    && edges.Keys == edges'.Keys && (forall id :: id in edges ==> AgreeingEdges(edges[id], edges'[id]))
  }

  lemma IdDecidesNode(env: Env, kind: NodeKind, identity: seq<string>, kind': NodeKind, identity': seq<string>)
    requires Injective(env.hash)
    ensures NodeId(env, kind, identity) == NodeId(env, kind', identity') <==> kind == kind' && identity == identity'
  {
    var p, q := [NodeText(kind)] + identity, [NodeText(kind')] + identity';
    DeterministicIDInjective(env.hash, "gnode1", p, "gnode1", q);
    assert p[0] == NodeText(kind) && q[0] == NodeText(kind') && p[1..] == identity && q[1..] == identity';
    if p == q { NodeTextInjective(kind, kind'); }
  }

  lemma OneKind(env: Env, ps: seq<Call>, qs: seq<Call>, n: Node, m: Node)
    requires Injective(env.hash) && n.id == m.id && HoldsNode(env, ps, n) && HoldsNode(env, qs, m)
    ensures n.kind == m.kind
  {
    var c :| c in ps && OffersNode(env, c, n.id) && c.kind == n.kind;
    var d :| d in qs && OffersNode(env, d, n.id) && d.kind == m.kind;
    IdDecidesNode(env, c.kind, c.identity, d.kind, d.identity);
  }

  lemma OneLeast(env: Env, ps: seq<Call>, qs: seq<Call>, n: Node, m: Node)
    requires n.id == m.id && HoldsNode(env, ps, n) && HoldsNode(env, qs, m) && forall c :: c in ps <==> c in qs
    ensures n.title == m.title
  {
    var x :| x in ps && OffersNode(env, x, n.id) && Label(env, x.title) == n.title;
    var y :| y in qs && OffersNode(env, y, n.id) && Label(env, y.title) == m.title;
    StringTotal(n.title, m.title);
  }

  lemma SameNodeFor(env: Env, ps: seq<Call>, qs: seq<Call>, n: Node, m: Node)
    requires Injective(env.hash) && multiset(ps) == multiset(qs) && n.id == m.id
    requires HoldsNode(env, ps, n) && HoldsNode(env, qs, m)
    ensures SameNode(n, m)
  {
    MembersAgree(ps, qs);
    OneKind(env, ps, qs, n, m);
    OneLeast(env, ps, qs, n, m);
    GatherPermutes(ps, qs, NodeEvidence(env, n.id));
    GatherPermutes(ps, qs, NodeFocus(env, n.id));
  }

  lemma OneEdge(env: Env, ps: seq<Call>, qs: seq<Call>, e: Edge, f: Edge)
    requires Injective(env.hash) && e.id == f.id && HoldsEdge(env, ps, e) && HoldsEdge(env, qs, f)
    ensures e.(evidence := [], focus := []) == f.(evidence := [], focus := [])
  {
    var c :| c in ps && OffersEdge(env, c, e.id) && SameEdge(c, e);
    var d :| d in qs && OffersEdge(env, d, e.id) && SameEdge(d, f);
    DeterministicIDInjective(env.hash, "gedge1", EdgeParts(c), "gedge1", EdgeParts(d));
    PartsDecideEdge(c, d);
  }

  lemma SameEdgeFor(env: Env, ps: seq<Call>, qs: seq<Call>, e: Edge, f: Edge)
    requires Injective(env.hash) && multiset(ps) == multiset(qs) && e.id == f.id
    requires HoldsEdge(env, ps, e) && HoldsEdge(env, qs, f)
    ensures AgreeingEdges(e, f)
  {
    OneEdge(env, ps, qs, e, f);
    GatherPermutes(ps, qs, EdgeEvidence(env, e.id));
    GatherPermutes(ps, qs, EdgeFocus(env, e.id));
  }

  lemma PartsDecideEdge(c: Call, d: Call)
    requires c.EdgeCall? && d.EdgeCall? && EdgeParts(c) == EdgeParts(d)
    ensures c.link == d.link && c.source == d.source && c.target == d.target && c.time == d.time && c.rule == d.rule
    ensures c.inferred == d.inferred
  {
    var p, q := EdgeParts(c), EdgeParts(d);
    assert p[0] == q[0] && p[1] == q[1] && p[2] == q[2] && p[3] == q[3] && p[4] == q[4];
    assert |p[5]| == |q[5]|;
    EdgeTextInjective(c.link, d.link);
  }

  lemma MembersAgree<T>(ps: seq<T>, qs: seq<T>)
    requires multiset(ps) == multiset(qs)
    ensures forall c :: c in ps <==> c in qs
  {
    forall c ensures c in ps <==> c in qs { assert c in multiset(ps) <==> c in multiset(qs); }
  }

  lemma NodesAgree(env: Env, ps: seq<Call>, qs: seq<Call>)
    requires Injective(env.hash) && multiset(ps) == multiset(qs)
    ensures Nodes(env, ps).Keys == Nodes(env, qs).Keys
    ensures forall id :: id in Nodes(env, ps) ==> SameNode(Nodes(env, ps)[id], Nodes(env, qs)[id])
  {
    NodeKeysWithin(env, ps, qs);
    NodeKeysWithin(env, qs, ps);
    forall id | id in Nodes(env, ps) ensures SameNode(Nodes(env, ps)[id], Nodes(env, qs)[id]) {
      NodesReflect(env, ps);
      NodesReflect(env, qs);
      SameNodeFor(env, ps, qs, Nodes(env, ps)[id], Nodes(env, qs)[id]);
    }
  }

  lemma EdgesAgree(env: Env, ps: seq<Call>, qs: seq<Call>)
    requires Injective(env.hash) && multiset(ps) == multiset(qs)
    ensures Edges(env, ps).Keys == Edges(env, qs).Keys
    ensures forall id :: id in Edges(env, ps) ==> AgreeingEdges(Edges(env, ps)[id], Edges(env, qs)[id])
  {
    EdgeKeysWithin(env, ps, qs);
    EdgeKeysWithin(env, qs, ps);
    forall id | id in Edges(env, ps) ensures AgreeingEdges(Edges(env, ps)[id], Edges(env, qs)[id]) {
      EdgesReflect(env, ps);
      EdgesReflect(env, qs);
      SameEdgeFor(env, ps, qs, Edges(env, ps)[id], Edges(env, qs)[id]);
    }
  }

  lemma NodeKeysWithin(env: Env, ps: seq<Call>, qs: seq<Call>)
    requires multiset(ps) == multiset(qs)
    ensures Nodes(env, ps).Keys <= Nodes(env, qs).Keys
  {
    MembersAgree(ps, qs);
    NodesReflect(env, ps);
    NodesReflect(env, qs);
    forall id | id in Nodes(env, ps) ensures id in Nodes(env, qs) {
      var c :| c in ps && OffersNode(env, c, id);
    }
  }

  lemma EdgeKeysWithin(env: Env, ps: seq<Call>, qs: seq<Call>)
    requires multiset(ps) == multiset(qs)
    ensures Edges(env, ps).Keys <= Edges(env, qs).Keys
  {
    MembersAgree(ps, qs);
    EdgesReflect(env, ps);
    EdgesReflect(env, qs);
    forall id | id in Edges(env, ps) ensures id in Edges(env, qs) {
      var c :| c in ps && OffersEdge(env, c, id);
    }
  }

  /** The same calls in another order make the same graph, up to the order of evidence and focus. */
  lemma CallsInAnyOrder(env: Env, cs: seq<Call>, ds: seq<Call>)
    requires Injective(env.hash) && multiset(cs) == multiset(ds)
    ensures SameGraph(Nodes(env, Unfold(cs)), Edges(env, Unfold(cs)), Nodes(env, Unfold(ds)), Edges(env, Unfold(ds)))
  {
    GatherPermutes(cs, ds, Puts);
    NodesAgree(env, Unfold(cs), Unfold(ds));
    EdgesAgree(env, Unfold(cs), Unfold(ds));
  }
}
