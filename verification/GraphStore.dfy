/** The in-memory graph and the symmetric weighted adjacency it offers. */
module GraphStore {
  import opened Commons

  datatype Entity = Entity(id: string, title: string)

  datatype Edge = Edge(from: string, dest: string, kind: int, weight: real)

  /** An entry of an adjacency list: the other end, the kind and the weight. */
  datatype Arc = Arc(node: string, kind: int, weight: real)

  /** The edges leaving a node, in the order they were added. */
  function Leaving(edges: seq<Edge>, id: string): seq<Arc> {
    if edges == [] then []
    else
      var before, e := Leaving(edges[..|edges| - 1], id), edges[|edges| - 1];
      if e.from == id then before + [Arc(e.dest, e.kind, e.weight)] else before
  }

  function Entering(edges: seq<Edge>, id: string): seq<Arc> {
    if edges == [] then []
    else
      var before, e := Entering(edges[..|edges| - 1], id), edges[|edges| - 1];
      if e.dest == id then before + [Arc(e.from, e.kind, e.weight)] else before
  }

  /** The total weight of the entries for one other end. */
  function WeightTo(arcs: seq<Arc>, id: string): real {
    if arcs == [] then 0.0
    else WeightTo(arcs[..|arcs| - 1], id) + if arcs[|arcs| - 1].node == id then arcs[|arcs| - 1].weight else 0.0
  }

  /** What one edge adds between two nodes. */
  function WeightFor(e: Edge, u: string, v: string): real {
    If(e.from == u && e.dest == v, e.weight) + If(e.from == v && e.dest == u, e.weight)
  }

  /** The weight between two nodes whichever way the edges point; a self-loop counts at both its ends. */
  function Between(edges: seq<Edge>, u: string, v: string): real {
    if edges == [] then 0.0
    else
      Between(edges[..|edges| - 1], u, v) + WeightFor(edges[|edges| - 1], u, v)
  }

  function TotalWeight(edges: seq<Edge>): real {
    if edges == [] then 0.0 else TotalWeight(edges[..|edges| - 1]) + edges[|edges| - 1].weight
  }

  lemma {:induction false} BetweenIsSymmetric(edges: seq<Edge>, u: string, v: string)
    ensures Between(edges, u, v) == Between(edges, v, u)
  {
    if edges != [] {
      BetweenIsSymmetric(edges[..|edges| - 1], u, v);
    }
  }

  /** The two adjacency lists of a node hold exactly the weight between it and each other node. */
  lemma {:induction false} ListsHoldBetween(edges: seq<Edge>, u: string, v: string)
    ensures WeightTo(Leaving(edges, u), v) + WeightTo(Entering(edges, u), v) == Between(edges, u, v)
  {
    assert WeightTo([], v) == 0.0;
    hide WeightTo;
    if edges != [] {
      var front := edges[..|edges| - 1];
      ListsHoldBetween(front, u, v);
      var e := edges[|edges| - 1];
      WeightToGrows(Leaving(front, u), Arc(e.dest, e.kind, e.weight), v);
      WeightToGrows(Entering(front, u), Arc(e.from, e.kind, e.weight), v);
    }
  }

  lemma WeightToGrows(arcs: seq<Arc>, a: Arc, id: string)
    ensures WeightTo(arcs + [a], id) == WeightTo(arcs, id) + If(a.node == id, a.weight)
  {
    assert (arcs + [a])[..|arcs|] == arcs;
  }

  ghost predicate Mentions(arcs: seq<Arc>, id: string) {
    exists i :: 0 <= i < |arcs| && arcs[i].node == id
  }

  ghost predicate Adjacent(edges: seq<Edge>, u: string, v: string) {
    exists i :: 0 <= i < |edges|
      && ((edges[i].from == u && edges[i].dest == v) || (edges[i].from == v && edges[i].dest == u))
  }

  lemma {:induction false} ListsMention(edges: seq<Edge>, u: string, v: string)
    ensures Mentions(Leaving(edges, u), v) || Mentions(Entering(edges, u), v) <==> Adjacent(edges, u, v)
  {
    if edges != [] {
      var front, e := edges[..|edges| - 1], edges[|edges| - 1];
      ListsMention(front, u, v);
      MentionsGrows(Leaving(front, u), Arc(e.dest, e.kind, e.weight), v);
      MentionsGrows(Entering(front, u), Arc(e.from, e.kind, e.weight), v);
      assert edges == front + [e];
      AdjacentGrows(front, e, u, v);
    }
  }

  lemma MentionsGrows(arcs: seq<Arc>, a: Arc, id: string)
    ensures Mentions(arcs + [a], id) <==> Mentions(arcs, id) || a.node == id
  {
    if Mentions(arcs, id) {
      var i :| 0 <= i < |arcs| && arcs[i].node == id;
      assert (arcs + [a])[i] == arcs[i];
    }
    assert (arcs + [a])[|arcs|] == a;
  }

  lemma AdjacentGrows(edges: seq<Edge>, e: Edge, u: string, v: string)
    ensures Adjacent(edges + [e], u, v)
      <==> Adjacent(edges, u, v) || (e.from == u && e.dest == v) || (e.from == v && e.dest == u)
  {
    if Adjacent(edges, u, v) {
      var i :| 0 <= i < |edges|
        && ((edges[i].from == u && edges[i].dest == v) || (edges[i].from == v && edges[i].dest == u));
      assert (edges + [e])[i] == edges[i];
    }
    assert (edges + [e])[|edges|] == e;
  }

  // ----- degrees -----

  /** The sum of a node's weights to the nodes listed. */
  function Degree(edges: seq<Edge>, u: string, nodes: seq<string>): real {
    if nodes == [] then 0.0
    else Degree(edges, u, nodes[..|nodes| - 1]) + Between(edges, u, nodes[|nodes| - 1])
  }

  function DegreeSum(edges: seq<Edge>, us: seq<string>, nodes: seq<string>): real {
    if us == [] then 0.0
    else DegreeSum(edges, us[..|us| - 1], nodes) + Degree(edges, us[|us| - 1], nodes)
  }

  ghost predicate Declared(edges: seq<Edge>, nodes: seq<string>) {
    forall i :: 0 <= i < |edges| ==> edges[i].from in nodes && edges[i].dest in nodes
  }

  lemma {:induction false} NoEdgesNoDegree(u: string, nodes: seq<string>)
    ensures Degree([], u, nodes) == 0.0
  {
    if nodes != [] {
      NoEdgesNoDegree(u, nodes[..|nodes| - 1]);
    }
  }

  lemma {:induction false} NoEdgesNoSum(us: seq<string>, nodes: seq<string>)
    ensures DegreeSum([], us, nodes) == 0.0
  {
    if us != [] {
      NoEdgesNoSum(us[..|us| - 1], nodes);
      NoEdgesNoDegree(us[|us| - 1], nodes);
    }
  }

  function If(c: bool, w: real): real { if c then w else 0.0 }

  /** One more edge adds its weight to a node's degree once for every end it has there. */
  lemma {:induction false} DegreeGrows(edges: seq<Edge>, e: Edge, u: string, nodes: seq<string>)
    requires Distinct(nodes)
    ensures Degree(edges + [e], u, nodes) == Degree(edges, u, nodes)
      + If(e.from == u && e.dest in nodes, e.weight) + If(e.dest == u && e.from in nodes, e.weight)
  {
    if nodes != [] {
      var front, last := nodes[..|nodes| - 1], nodes[|nodes| - 1];
      DegreeGrows(edges, e, u, front);
      assert nodes == front + [last];
      assert (edges + [e])[..|edges|] == edges;
    }
  }

  lemma {:induction false} SumGrows(edges: seq<Edge>, e: Edge, us: seq<string>, nodes: seq<string>)
    requires Distinct(us) && Distinct(nodes) && e.from in nodes && e.dest in nodes
    ensures DegreeSum(edges + [e], us, nodes) == DegreeSum(edges, us, nodes)
      + If(e.from in us, e.weight) + If(e.dest in us, e.weight)
  {
    if us != [] {
      var front, last := us[..|us| - 1], us[|us| - 1];
      SumGrows(edges, e, front, nodes);
      DegreeGrows(edges, e, last, nodes);
      assert us == front + [last];
    }
  }

  /** Handshake: with every endpoint declared, the degrees add up to twice the total weight. */
  lemma {:induction false} DegreesSumToTwiceWeight(edges: seq<Edge>, nodes: seq<string>)
    requires Distinct(nodes) && Declared(edges, nodes)
    ensures DegreeSum(edges, nodes, nodes) == TotalWeight(edges) + TotalWeight(edges)
  {
    if edges == [] {
      NoEdgesNoSum(nodes, nodes);
    } else {
      var front, e := edges[..|edges| - 1], edges[|edges| - 1];
      assert edges == front + [e];
      DegreesSumToTwiceWeight(front, nodes);
      SumGrows(front, e, nodes, nodes);
    }
  }

  // ----- the store -----

  class InMemoryGraph {
    var nodes: map<string, Entity>
    var outEdges: map<string, seq<Arc>>
    var inEdges: map<string, seq<Arc>>
    var edges: seq<Edge>

    /** Both indexes say what the edge list says. */
    ghost predicate Valid() reads this {
      && (forall id :: Listed(outEdges, id) == Leaving(edges, id))
      && (forall id :: Listed(inEdges, id) == Entering(edges, id))
      && (forall id :: id in nodes ==> nodes[id].id == id)
    }

    constructor ()
      ensures Valid() && nodes == map[] && edges == []
    {
      nodes, outEdges, inEdges, edges := map[], map[], map[], [];
    }

    method AddEntity(e: Entity)
      requires Valid()
      modifies this
      ensures Valid() && nodes == old(nodes)[e.id := e] && edges == old(edges)
    {
      nodes := nodes[e.id := e];
    }

    /** An edge joins the list and both indexes; its ends need not be declared. */
    method AddEdge(e: Edge)
      requires Valid()
      modifies this
      ensures Valid() && edges == old(edges) + [e] && nodes == old(nodes)
      ensures forall u, v :: Between(edges, u, v) == Between(old(edges), u, v) + WeightFor(e, u, v)
    {
      outEdges := outEdges[e.from := Listed(outEdges, e.from) + [Arc(e.dest, e.kind, e.weight)]];
      inEdges := inEdges[e.dest := Listed(inEdges, e.dest) + [Arc(e.from, e.kind, e.weight)]];
      edges := edges + [e];
      assert edges[..|edges| - 1] == old(edges);
    }

    method Outbound(id: string) returns (arcs: seq<Arc>)
      requires Valid()
      ensures arcs == Leaving(edges, id)
    {
      arcs := Listed(outEdges, id);
    }

    method Inbound(id: string) returns (arcs: seq<Arc>)
      requires Valid()
      ensures arcs == Entering(edges, id)
    {
      arcs := Listed(inEdges, id);
    }

    /** One entry per adjacent node with the summed weight of the edges between the two. */
    method UndirectedNeighbours(id: string) returns (seen: map<string, real>)
      requires Valid()
      ensures forall v :: v in seen <==> Adjacent(edges, id, v)
      ensures forall v :: v in seen ==> seen[v] == Between(edges, id, v)
    {
      hide Leaving, Entering, Between, Adjacent;
      var out := Outbound(id);
      seen := Accumulate(map[], out);
      var into := Inbound(id);
      seen := Accumulate(seen, into);
      forall v
        ensures v in seen <==> Adjacent(edges, id, v)
        ensures v in seen ==> seen[v] == Between(edges, id, v)
      {
        ListsMention(edges, id, v);
        ListsHoldBetween(edges, id, v);
      }
    }
  }

  function Listed(index: map<string, seq<Arc>>, id: string): seq<Arc> {
    if id in index then index[id] else []
  }

  function ValueOf(seen: map<string, real>, id: string): real {
    if id in seen then seen[id] else 0.0
  }

  method Accumulate(start: map<string, real>, arcs: seq<Arc>) returns (seen: map<string, real>)
    ensures forall v :: v in seen <==> v in start || Mentions(arcs, v)
    ensures forall v :: ValueOf(seen, v) == ValueOf(start, v) + WeightTo(arcs, v)
  {
    seen := start;
    for i := 0 to |arcs|
      invariant forall v :: v in seen <==> v in start || Mentions(arcs[..i], v)
      invariant forall v :: ValueOf(seen, v) == ValueOf(start, v) + WeightTo(arcs[..i], v)
    {
      assert arcs[..i + 1] == arcs[..i] + [arcs[i]];
      assert arcs[..i + 1][..i] == arcs[..i];
      forall v
        ensures Mentions(arcs[..i + 1], v) <==> Mentions(arcs[..i], v) || arcs[i].node == v
      {
        MentionsGrows(arcs[..i], arcs[i], v);
      }
      seen := seen[arcs[i].node := ValueOf(seen, arcs[i].node) + arcs[i].weight];
    }
    assert arcs[..|arcs|] == arcs;
  }
}
