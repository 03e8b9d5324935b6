/** `ArgumentTopology.validate` and the two graph algorithms under it: the colouring
    depth-first search over positive edges and the worklist reachability search. */
module FormalWriting {
  import opened Results
  import opened Ordering
  import opened Graphs

  datatype NodeKind = Thesis | Claim | Premise | Evidence | Warrant | Counterclaim | Rebuttal | Qualifier | Limitation
    | Implication

  datatype EdgeKind = Supports | Warrants | Attacks | Rebuts | Qualifies | Limits | Entails | DependsOn

  datatype ArgumentNode = ArgumentNode(id: Node, kind: NodeKind, proposition: string, sourceRefs: seq<string>)

  datatype ArgumentEdge = ArgumentEdge(source: Node, target: Node, relation: EdgeKind)

  datatype ArgumentTopology = ArgumentTopology(nodes: seq<ArgumentNode>, edges: seq<ArgumentEdge>)

  predicate Positive(k: EdgeKind) {
    k == Supports || k == Warrants || k == Entails || k == DependsOn
  }

  // ----- reachability -----

  /** `_reaches`: depth-first over a list used as a stack, with a visited set. True exactly
      when there is a path. */
  method Reaches(source: Node, target: Node, adjacency: Graph) returns (found: bool)
    ensures found <==> Reachable(adjacency, source, target)
  {
    var frontier := [source];
    var visited: set<Node> := {};
    ghost var all := {source} + (set n, m | n in adjacency && m in adjacency[n] :: m);
    ReachableSelf(adjacency, source);
    while frontier != []
      invariant visited <= all && forall n :: n in frontier ==> n in all
      invariant forall n :: n in visited || n in frontier ==> Reachable(adjacency, source, n)
      invariant source in visited || source in frontier
      invariant forall n, m :: n in visited && m in Succ(adjacency, n) ==> m in visited || m in frontier
      invariant target !in visited
      decreases all - visited, |frontier|
    {
      var current := frontier[|frontier| - 1];
      var rest := frontier[..|frontier| - 1];
      assert forall n :: n in frontier <==> n in rest || n == current by {
        assert frontier == rest + [current];
      }
      frontier := rest;
      if current == target {
        return true;
      }
      if current !in visited {
        var next := Reversed(Sorted(Succ(adjacency, current)));
        assert forall m :: m in next <==> m in Succ(adjacency, current) by {
          assert forall m :: m in Sorted(Succ(adjacency, current)) <==>
            m in set x | x in Sorted(Succ(adjacency, current));
        }
        forall m | m in next ensures Reachable(adjacency, source, m) {
          ReachableEdge(adjacency, source, current, m);
        }
        visited := visited + {current};
        frontier := rest + next;
      }
    }
    found := false;
    if Reachable(adjacency, source, target) {
      var p :| PathBetween(adjacency, p, source, target);
      ClosedKeepsPaths(adjacency, visited, p);
    }
  }

  // ----- the positive graph -----

  /** The adjacency lists as a graph. */
  function GraphOf(adjacency: map<Node, seq<Node>>): Graph {
    map n | n in adjacency :: set m | m in adjacency[n]
  }

  /** The two colour sets shared by the recursive `visit`, and the order in which nodes
      became permanent. */
  class AcyclicityCheck {
    const adjacency: map<Node, seq<Node>>
    var temporary: set<Node>
    var permanent: set<Node>
    ghost var order: seq<Node>

    ghost function Edges(): Graph { GraphOf(adjacency) }

    /** Permanent nodes, in the order they were entered, are in reverse topological order. */
    ghost predicate Valid()
      reads this
    {
      && permanent == (set n | n in order)
      && permanent <= adjacency.Keys
      && ReverseTopological(Edges(), order)
      && temporary !! permanent
    }

    /** Every edge ends at a node of the graph. */
    ghost predicate Closed() {
      forall n, m :: n in adjacency && m in adjacency[n] ==> m in adjacency
    }

    constructor (adjacency: map<Node, seq<Node>>)
      ensures this.adjacency == adjacency && Valid() && temporary == {} && order == []
    {
      this.adjacency := adjacency;
      temporary, permanent, order := {}, {}, [];
    }

    /** `visit`: false stands for the raised error. `stack` lists the calls in progress. */
    method Visit(node: Node, ghost stack: seq<Node>) returns (ok: bool)
      requires Valid() && Closed() && node in adjacency
      requires temporary == (set n | n in stack) && IsPath(Edges(), stack + [node])
      modifies this
      ensures ok ==> Valid() && temporary == old(temporary) && node in permanent && old(order) <= order
      ensures !ok ==> !Acyclic(Edges())
      decreases adjacency.Keys - temporary - permanent, 1
    {
      if node in permanent {
        return true;
      }
      if node in temporary {
        PathBackIsCycle(Edges(), stack, node);
        return false;
      }
      temporary := temporary + {node};
      ok := VisitTargets(node, stack, SortedList(adjacency[node]));
      if !ok {
        return;
      }
      temporary := temporary - {node};
      assert temporary == old(temporary);
      permanent := permanent + {node};
      OrderExtends(Edges(), order, node);
      order := order + [node];
    }

    /** The loop of `visit` over the sorted targets of a node. */
    method VisitTargets(node: Node, ghost stack: seq<Node>, targets: seq<Node>) returns (ok: bool)
      requires Valid() && Closed() && node in adjacency && IsPath(Edges(), stack + [node])
      requires temporary == (set n | n in stack) + {node}
      requires forall t :: t in targets ==> t in adjacency[node]
      modifies this
      ensures ok ==>
        Valid() && temporary == old(temporary) && old(order) <= order && forall t :: t in targets ==> t in permanent
      ensures !ok ==> !Acyclic(Edges())
      decreases adjacency.Keys - (temporary - {node}) - permanent, 0
    {
      ok := true;
      var i := 0;
      while i < |targets|
        invariant 0 <= i <= |targets|
        invariant Valid() && temporary == old(temporary) && old(order) <= order
        invariant old(permanent) <= permanent
        invariant forall k :: 0 <= k < i ==> targets[k] in permanent
      {
        ghost var calls := stack + [node];
        ExtendPath(Edges(), calls, targets[i]);
        assert temporary == set n | n in calls;
        assert node in adjacency.Keys - (old(temporary) - {node}) - old(permanent);
        assert adjacency.Keys - temporary - permanent < adjacency.Keys - (old(temporary) - {node}) - old(permanent);
        ok := Visit(targets[i], calls);
        if !ok {
          return;
        }
        i := i + 1;
      }
    }

    /** `_require_positive_graph_acyclic`: raises exactly when there is a cycle. */
    method Run() returns (ok: bool)
      requires Valid() && Closed() && temporary == {} && order == []
      modifies this
      ensures ok <==> Acyclic(Edges())
      ensures ok ==> ReverseTopological(Edges(), order) && forall n :: n in order <==> n in adjacency
    {
      var nodes := Sorted(adjacency.Keys);
      assert forall n :: n in nodes <==> n in set x | x in nodes;
      var i := 0;
      while i < |nodes|
        invariant 0 <= i <= |nodes|
        invariant Valid() && temporary == {}
        invariant forall k :: 0 <= k < i ==> nodes[k] in permanent
      {
        ok := Visit(nodes[i], []);
        if !ok {
          return;
        }
        i := i + 1;
      }
      ok := true;
      assert forall n :: n in adjacency ==> n in nodes;
      OrderOfAllIsAcyclic(Edges(), order);
    }
  }

  lemma ExtendPath(g: Graph, p: seq<Node>, n: Node)
    requires IsPath(g, p) && n in Succ(g, p[|p| - 1])
    ensures IsPath(g, p + [n])
  {
  }

  // ----- the whole validation -----

  datatype TopologyError = NoNodes | DuplicateNodeIds | NotOneThesis | UnknownEndpoint | PositiveCycle | Disconnected
    | EvidenceWithoutSource | Unanswered

  function Ids(t: ArgumentTopology): set<Node> {
    set n | n in t.nodes :: n.id
  }

  /** The edges of the kinds selected, between the nodes of the topology. */
  ghost function EdgeGraph(t: ArgumentTopology, edges: seq<ArgumentEdge>, positiveOnly: bool): Graph {
    map id | id in Ids(t) :: set e | e in edges && e.source == id
      && (positiveOnly ==> e.relation in {Supports, Warrants, Entails, DependsOn}) :: e.target
  }

  ghost predicate DistinctIds(t: ArgumentTopology) {
    forall i, j :: 0 <= i < j < |t.nodes| ==> t.nodes[i].id != t.nodes[j].id
  }

  ghost predicate IsOnlyThesis(t: ArgumentTopology, i: int) {
    0 <= i < |t.nodes| && forall j :: 0 <= j < |t.nodes| ==> (t.nodes[j].kind == Thesis <==> j == i)
  }

  ghost predicate KnownEndpoints(t: ArgumentTopology) {
    forall e :: e in t.edges ==> e.source in Ids(t) && e.target in Ids(t)
  }

  ghost predicate Connected(t: ArgumentTopology, thesis: Node) {
    forall n :: n in t.nodes && n.id != thesis && n.kind != Implication ==>
      Reachable(EdgeGraph(t, t.edges, false), n.id, thesis)
  }

  ghost predicate Sourced(t: ArgumentTopology) {
    forall n :: n in t.nodes && n.kind == Evidence ==> n.sourceRefs != []
  }

  /** Every counterclaim that attacks something is rebutted. */
  ghost predicate Answered(t: ArgumentTopology) {
    forall n, e ::
      n in t.nodes && n.kind == Counterclaim && e in t.edges && e.relation == Attacks && e.source == n.id ==>
        exists r :: r in t.edges && r.relation == Rebuts && r.target == n.id
  }

  /** The stated conditions on an argument topology. */
  ghost predicate Sound(t: ArgumentTopology, requireResponse: bool) {
    && t.nodes != [] && DistinctIds(t) && KnownEndpoints(t)
    && (exists i :: IsOnlyThesis(t, i) && Connected(t, t.nodes[i].id))
    && Acyclic(EdgeGraph(t, t.edges, true))
    && Sourced(t)
    && (requireResponse ==> Answered(t))
  }

  ghost predicate OneThesis(t: ArgumentTopology) {
    exists i :: IsOnlyThesis(t, i)
  }

  ghost predicate ThesisConnected(t: ArgumentTopology) {
    exists i :: IsOnlyThesis(t, i) && Connected(t, t.nodes[i].id)
  }

  /** The condition an error says fails. */
  ghost predicate Meets(t: ArgumentTopology, requireResponse: bool, error: TopologyError) {
    match error
    case NoNodes => t.nodes != []
    case DuplicateNodeIds => DistinctIds(t)
    case NotOneThesis => OneThesis(t)
    case UnknownEndpoint => KnownEndpoints(t)
    case PositiveCycle => Acyclic(EdgeGraph(t, t.edges, true))
    case Disconnected => ThesisConnected(t)
    case EvidenceWithoutSource => Sourced(t)
    case Unanswered => requireResponse ==> Answered(t)
  }

  /** The conditions in the order of the checks. */
  function Rank(error: TopologyError): nat {
    match error
    case NoNodes => 0
    case DuplicateNodeIds => 1
    case NotOneThesis => 2
    case UnknownEndpoint => 3
    case PositiveCycle => 4
    case Disconnected => 5
    case EvidenceWithoutSource => 6
    case Unanswered => 7
  }

  /** An error names the first condition, in the order of the checks, that fails. */
  ghost predicate Explains(t: ArgumentTopology, requireResponse: bool, error: TopologyError) {
    !Meets(t, requireResponse, error) && forall e :: Rank(e) < Rank(error) ==> Meets(t, requireResponse, e)
  }

  /** At most one error explains a topology, so the error returned is determined by it. */
  lemma OneExplanation(t: ArgumentTopology, requireResponse: bool, a: TopologyError, b: TopologyError)
    requires Explains(t, requireResponse, a) && Explains(t, requireResponse, b)
    ensures a == b
  {
    hide Meets;
    assert Rank(a) == Rank(b);
  }

  lemma OnlyThesisUnique(t: ArgumentTopology, i: int, j: int)
    requires IsOnlyThesis(t, i) && IsOnlyThesis(t, j)
    ensures i == j
  {
    assert t.nodes[i].kind == Thesis;
  }

  /** A topology is sound exactly when it meets every condition. */
  lemma SoundMeetsAll(t: ArgumentTopology, requireResponse: bool)
    ensures Sound(t, requireResponse) <==> forall e :: Meets(t, requireResponse, e)
  {
    hide Connected, Answered, Sourced, KnownEndpoints, DistinctIds, Acyclic, IsOnlyThesis;
    if forall e :: Meets(t, requireResponse, e) {
      assert Meets(t, requireResponse, NoNodes) && Meets(t, requireResponse, DuplicateNodeIds);
      assert Meets(t, requireResponse, UnknownEndpoint) && Meets(t, requireResponse, PositiveCycle);
      assert Meets(t, requireResponse, Disconnected) && Meets(t, requireResponse, EvidenceWithoutSource);
      assert Meets(t, requireResponse, Unanswered);
    }
  }

  /** An error excludes soundness: the conditions really fail. */
  lemma ExplainedIsUnsound(t: ArgumentTopology, requireResponse: bool, error: TopologyError)
    requires Explains(t, requireResponse, error)
    ensures !Sound(t, requireResponse)
  {
    hide Meets;
    SoundMeetsAll(t, requireResponse);
  }

  /** `validate`: accepts exactly the sound topologies, and otherwise names the first condition
      that fails. */
  method Validate(t: ArgumentTopology, requireResponse: bool) returns (error: Option<TopologyError>)
    ensures error.None? <==> Sound(t, requireResponse)
    ensures error.Some? ==> Explains(t, requireResponse, error.value)
  {
    hide Explains, Sound;
    error := Check(t, requireResponse);
    if error.Some? {
      ExplainedIsUnsound(t, requireResponse, error.value);
    }
  }

  /** The checks in their order. */
  method Check(t: ArgumentTopology, requireResponse: bool) returns (error: Option<TopologyError>)
    ensures error.None? ==> Sound(t, requireResponse)
    ensures error.Some? ==> Explains(t, requireResponse, error.value)
  {
    hide Acyclic, Reachable, EdgeGraph, Answered, Sourced, KnownEndpoints, Connected, IsOnlyThesis, DistinctIds;
    if t.nodes == [] {
      return Some(NoNodes);
    }
    var nodeMap := set n | n in t.nodes :: n.id;
    assert nodeMap == Ids(t);
    IdsBySize(t);
    if |nodeMap| != |t.nodes| {
      return Some(DuplicateNodeIds);
    }
    var thesis := FindThesis(t);
    if thesis.None? {
      return Some(NotOneThesis);
    }
    ThesisInside(t, thesis.value);
    var known := EndpointsKnown(t);
    if !known {
      return Some(UnknownEndpoint);
    }
    var acyclic := PositiveGraphAcyclic(t);
    if !acyclic {
      return Some(PositiveCycle);
    }
    var connected := AllReachThesis(t, t.nodes[thesis.value].id);
    ConnectedExactlyWhen(t, thesis.value);
    if !connected {
      return Some(Disconnected);
    }
    var sourced := EvidenceSourced(t);
    if !sourced {
      return Some(EvidenceWithoutSource);
    }
    if requireResponse {
      var answered := CounterclaimsAnswered(t);
      if !answered {
        return Some(Unanswered);
      }
    }
    error := None;
  }

  lemma ThesisInside(t: ArgumentTopology, i: int)
    requires IsOnlyThesis(t, i)
    ensures 0 <= i < |t.nodes| && OneThesis(t)
  {
  }

  lemma ConnectedExactlyWhen(t: ArgumentTopology, i: int)
    requires IsOnlyThesis(t, i)
    ensures 0 <= i < |t.nodes| && (ThesisConnected(t) <==> Connected(t, t.nodes[i].id))
  {
    hide Connected;
    forall j | IsOnlyThesis(t, j) ensures j == i { OnlyThesisUnique(t, i, j); }
  }

  lemma IdsBySize(t: ArgumentTopology)
    ensures |Ids(t)| == |t.nodes| <==> DistinctIds(t)
  {
    var ids := seq(|t.nodes|, k requires 0 <= k < |t.nodes| => t.nodes[k].id);
    DistinctBySize(ids);
    assert (set x | x in ids) == Ids(t) by {
      forall n | n in t.nodes ensures n.id in ids {
        var k :| 0 <= k < |t.nodes| && t.nodes[k] == n;
        assert ids[k] == n.id;
      }
    }
    if DistinctIds(t) {
      assert Distinct(ids);
    } else {
      var i, j :| 0 <= i < j < |t.nodes| && t.nodes[i].id == t.nodes[j].id;
      assert ids[i] == ids[j];
    }
  }

  /** The thesis nodes are collected; there must be exactly one. */
  method FindThesis(t: ArgumentTopology) returns (thesis: Option<nat>)
    ensures thesis.Some? ==> IsOnlyThesis(t, thesis.value)
    ensures thesis.None? ==> forall i :: !IsOnlyThesis(t, i)
  {
    var count, first := 0, 0;
    ghost var second := 0;
    for k := 0 to |t.nodes|
      invariant count == 0 ==> forall j :: 0 <= j < k ==> t.nodes[j].kind != Thesis
      invariant count == 1 ==> first < k && forall j :: 0 <= j < k ==> (t.nodes[j].kind == Thesis <==> j == first)
      invariant count > 1 ==> first < second < k && t.nodes[first].kind == Thesis && t.nodes[second].kind == Thesis
    {
      if t.nodes[k].kind == Thesis {
        if count == 0 {
          first := k;
        } else if count == 1 {
          second := k;
        }
        count := count + 1;
      }
    }
    thesis := if count == 1 then Some(first) else None;
    if count != 1 {
      forall i ensures !IsOnlyThesis(t, i) {
        if 0 <= i < |t.nodes| {
          assert t.nodes[i].kind == Thesis ==> count > 1;
          assert count > 1 ==> t.nodes[first].kind == Thesis && t.nodes[second].kind == Thesis;
        }
      }
    }
  }

  method EndpointsKnown(t: ArgumentTopology) returns (known: bool)
    ensures known <==> KnownEndpoints(t)
  {
    for k := 0 to |t.edges|
      invariant forall j :: 0 <= j < k ==> t.edges[j].source in Ids(t) && t.edges[j].target in Ids(t)
    {
      if t.edges[k].source !in Ids(t) || t.edges[k].target !in Ids(t) {
        assert t.edges[k] in t.edges;
        return false;
      }
    }
    known := true;
  }

  /** `_require_positive_graph_acyclic`: the adjacency lists are filled edge by edge. */
  method PositiveGraphAcyclic(t: ArgumentTopology) returns (ok: bool)
    requires KnownEndpoints(t)
    ensures ok <==> Acyclic(EdgeGraph(t, t.edges, true))
  {
    hide Acyclic;
    var adjacency: map<Node, seq<Node>> := map id | id in Ids(t) :: [];
    NoEdges(t, true);
    NoTargets(adjacency);
    for k := 0 to |t.edges|
      invariant adjacency.Keys == Ids(t)
      invariant GraphOf(adjacency) == EdgeGraph(t, t.edges[..k], true)
    {
      var e := t.edges[k];
      assert e in t.edges && t.edges[..k + 1] == t.edges[..k] + [e];
      EdgeGraphStep(t, t.edges[..k], e, true);
      if Positive(e.relation) {
        ghost var before := adjacency;
        adjacency := adjacency[e.source := adjacency[e.source] + [e.target]];
        AdjacencyStep(before, e.source, e.target);
      }
    }
    assert t.edges[..|t.edges|] == t.edges;
    AdjacencyClosed(t, adjacency);
    var check := new AcyclicityCheck(adjacency);
    ok := check.Run();
  }

  lemma AdjacencyClosed(t: ArgumentTopology, adjacency: map<Node, seq<Node>>)
    requires KnownEndpoints(t) && adjacency.Keys == Ids(t) && GraphOf(adjacency) == EdgeGraph(t, t.edges, true)
    ensures forall n, m :: n in adjacency && m in adjacency[n] ==> m in adjacency
  {
    forall n, m | n in adjacency && m in adjacency[n] ensures m in adjacency {
      assert m in GraphOf(adjacency)[n];
    }
  }

  lemma AdjacencyStep(adjacency: map<Node, seq<Node>>, source: Node, target: Node)
    requires source in adjacency
    ensures GraphOf(adjacency[source := adjacency[source] + [target]]) ==
      GraphOf(adjacency)[source := GraphOf(adjacency)[source] + {target}]
  {
    var longer := adjacency[source := adjacency[source] + [target]];
    var g, h := GraphOf(adjacency), GraphOf(longer);
    assert h.Keys == g.Keys;
    assert h[source] == g[source] + {target};
    assert forall n :: n in h && n != source ==> h[n] == g[n];
  }

  /** One more edge adds its target to the successors of its source. */
  lemma EdgeGraphStep(t: ArgumentTopology, edges: seq<ArgumentEdge>, e: ArgumentEdge, positiveOnly: bool)
    requires e.source in Ids(t)
    ensures var g := EdgeGraph(t, edges, positiveOnly);
      EdgeGraph(t, edges + [e], positiveOnly) ==
        if positiveOnly && !Positive(e.relation) then g else g[e.source := g[e.source] + {e.target}]
  {
    var g, h := EdgeGraph(t, edges, positiveOnly), EdgeGraph(t, edges + [e], positiveOnly);
    var more := edges + [e];
    assert forall x :: x in more <==> x in edges || x == e;
    forall id | id in Ids(t)
      ensures h[id] == if id == e.source && (positiveOnly ==> Positive(e.relation)) then g[id] + {e.target} else g[id] {
      forall m ensures m in h[id] <==>
        m in g[id] || (id == e.source && (positiveOnly ==> Positive(e.relation)) && m == e.target) {
        if m in h[id] {
          var x :| x in more && x.source == id && (positiveOnly ==> Positive(x.relation)) && x.target == m;
        }
        if m in g[id] {
          var x :| x in edges && x.source == id && (positiveOnly ==> Positive(x.relation)) && x.target == m;
          assert x in more;
        }
      }
    }
    var expected := if positiveOnly && !Positive(e.relation) then g else g[e.source := g[e.source] + {e.target}];
    assert h.Keys == expected.Keys;
    assert forall id :: id in h ==> h[id] == expected[id];
  }

  lemma NoEdges(t: ArgumentTopology, positiveOnly: bool)
    ensures EdgeGraph(t, t.edges[..0], positiveOnly) == map id | id in Ids(t) :: {}
  {
    var g := EdgeGraph(t, t.edges[..0], positiveOnly);
    forall id | id in g ensures g[id] == {} {}
    var h: Graph := map id | id in Ids(t) :: {};
    assert g.Keys == h.Keys;
  }

  lemma NoTargets(adjacency: map<Node, seq<Node>>)
    requires forall n :: n in adjacency ==> adjacency[n] == []
    ensures GraphOf(adjacency) == map n | n in adjacency.Keys :: {}
  {
    var g: Graph := map n | n in adjacency.Keys :: {};
    forall n | n in adjacency ensures GraphOf(adjacency)[n] == {} {}
    assert GraphOf(adjacency).Keys == g.Keys;
  }

  method AllReachThesis(t: ArgumentTopology, thesis: Node) returns (connected: bool)
    requires KnownEndpoints(t)
    ensures connected <==> Connected(t, thesis)
  {
    hide Reachable;
    var dialectical: Graph := map id | id in Ids(t) :: {};
    NoEdges(t, false);
    for k := 0 to |t.edges|
      invariant dialectical == EdgeGraph(t, t.edges[..k], false)
    {
      var e := t.edges[k];
      assert e in t.edges && t.edges[..k + 1] == t.edges[..k] + [e];
      EdgeGraphStep(t, t.edges[..k], e, false);
      dialectical := dialectical[e.source := dialectical[e.source] + {e.target}];
    }
    assert t.edges[..|t.edges|] == t.edges;
    for k := 0 to |t.nodes|
      invariant forall j :: 0 <= j < k && t.nodes[j].id != thesis && t.nodes[j].kind != Implication ==>
        Reachable(dialectical, t.nodes[j].id, thesis)
    {
      var n := t.nodes[k];
      if n.id != thesis && n.kind != Implication {
        var found := Reaches(n.id, thesis, dialectical);
        if !found {
          assert n in t.nodes;
          return false;
        }
      }
    }
    connected := true;
  }

  method EvidenceSourced(t: ArgumentTopology) returns (sourced: bool)
    ensures sourced <==> Sourced(t)
  {
    for k := 0 to |t.nodes|
      invariant forall j :: 0 <= j < k && t.nodes[j].kind == Evidence ==> t.nodes[j].sourceRefs != []
    {
      if t.nodes[k].kind == Evidence && t.nodes[k].sourceRefs == [] {
        assert t.nodes[k] in t.nodes;
        return false;
      }
    }
    sourced := true;
  }

  /** The three sets of the last check. */
  method CounterclaimsAnswered(t: ArgumentTopology) returns (answered: bool)
    ensures answered <==> Answered(t)
  {
    var counterclaims := set n | n in t.nodes && n.kind == Counterclaim :: n.id;
    var attacking := set e | e in t.edges && e.relation == Attacks && e.source in counterclaims :: e.source;
    var rebutted := set e | e in t.edges && e.relation == Rebuts :: e.target;
    answered := attacking - rebutted == {};
    if !answered {
      var c :| c in attacking - rebutted;
      var e :| e in t.edges && e.relation == Attacks && e.source in counterclaims && e.source == c;
      var n :| n in t.nodes && n.kind == Counterclaim && n.id == c;
    } else {
      forall n, e | n in t.nodes && n.kind == Counterclaim && e in t.edges && e.relation == Attacks && e.source == n.id
        ensures exists r :: r in t.edges && r.relation == Rebuts && r.target == n.id
      {
        assert n.id in counterclaims && e.source in attacking;
        assert n.id in rebutted by { assert n.id !in attacking - rebutted; }
        var r :| r in t.edges && r.relation == Rebuts && r.target == n.id;
      }
    }
  }
}
