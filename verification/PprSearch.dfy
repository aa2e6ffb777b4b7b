/**
 * The graph search of ppr.rs from end to end: the stored graph is indexed, scored by the power
 * iteration, searched for hop distances, ranked, and cut. The order of nodes and neighbours is the
 * one their maps happen to yield.
 */
module PprSearch {
  import opened Graph
  import opened Sorting
  import Commons
  import GraphStore
  import Ppr
  import PprStep
  import Bfs

  datatype Config = Config(alpha: real, maxIterations: nat, tolerance: real, maxHops: nat)

  datatype Hit = Hit(id: string, score: real, hops: nat)

  // ----- the index form of the stored graph

  ghost predicate LeadsTo(row: seq<Arc>, n: nat, j: nat) {
    exists k :: 0 <= k < |row| && k < n && row[k].target == j
  }

  /** The arcs of `u`: one per declared neighbour, with the weight between the two. */
  ghost predicate IsRow(edges: seq<GraphStore.Edge>, ids: seq<string>, u: string, row: seq<Arc>) {
    && (forall k :: 0 <= k < |row| ==>
          row[k].target < |ids| && row[k].weight == GraphStore.Between(edges, u, ids[row[k].target]))
    && (forall k, l :: 0 <= k < l < |row| ==> row[k].target != row[l].target)
    && (forall j :: 0 <= j < |ids| ==> (LeadsTo(row, |row|, j) <==> GraphStore.Adjacent(edges, u, ids[j])))
  }

  ghost predicate IsIndexed(edges: seq<GraphStore.Edge>, ids: seq<string>, g: Adjacency) {
    |g| == |ids| && forall i :: 0 <= i < |ids| ==> IsRow(edges, ids, ids[i], g[i])
  }

  lemma {:induction false} NotAdjacentNoWeight(edges: seq<GraphStore.Edge>, u: string, v: string)
    requires !GraphStore.Adjacent(edges, u, v)
    ensures GraphStore.Between(edges, u, v) == 0.0
  {
    if edges != [] {
      var front, e := edges[..|edges| - 1], edges[|edges| - 1];
      assert edges == front + [e];
      GraphStore.AdjacentGrows(front, e, u, v);
      NotAdjacentNoWeight(front, u, v);
    }
  }

  lemma {:induction false} RowToPrefix(row: seq<Arc>, k: nat, j: nat, w: real)
    requires k <= |row|
    requires forall a, b :: 0 <= a < b < |row| ==> row[a].target != row[b].target
    requires forall a :: 0 <= a < |row| && row[a].target == j ==> row[a].weight == w
    ensures RowTo(row, k, j) == if LeadsTo(row, k, j) then w else 0.0
  {
    if k > 0 {
      RowToPrefix(row, k - 1, j, w);
      if row[k - 1].target == j {
        assert LeadsTo(row, k, j);
        assert !LeadsTo(row, k - 1, j);
      } else {
        assert LeadsTo(row, k, j) <==> LeadsTo(row, k - 1, j);
      }
    }
  }

  /** What a row carries to a node is the stored weight between the two, in either direction. */
  lemma RowToIsBetween(edges: seq<GraphStore.Edge>, ids: seq<string>, g: Adjacency, i: nat, j: nat)
    requires IsIndexed(edges, ids, g) && i < |ids| && j < |ids|
    ensures RowTo(g[i], |g[i]|, j) == GraphStore.Between(edges, ids[i], ids[j])
  {
    assert IsRow(edges, ids, ids[i], g[i]);
    RowToPrefix(g[i], |g[i]|, j, GraphStore.Between(edges, ids[i], ids[j]));
    if !LeadsTo(g[i], |g[i]|, j) {
      NotAdjacentNoWeight(edges, ids[i], ids[j]);
    }
  }

  lemma {:induction false} HitsIsLeadsTo(row: seq<Arc>, n: nat, j: nat)
    requires n <= |row|
    ensures Bfs.Hits(row, n, j) <==> LeadsTo(row, n, j)
  {
    if n > 0 {
      HitsIsLeadsTo(row, n - 1, j);
    }
  }

  /** The index is symmetric: weights and arcs run both ways. */
  lemma IndexIsSymmetric(edges: seq<GraphStore.Edge>, ids: seq<string>, g: Adjacency, i: nat, j: nat)
    requires IsIndexed(edges, ids, g) && i < |ids| && j < |ids|
    ensures RowTo(g[i], |g[i]|, j) == RowTo(g[j], |g[j]|, i)
    ensures Bfs.HasArc(g, i, j) <==> Bfs.HasArc(g, j, i)
    ensures Bfs.HasArc(g, i, j) <==> GraphStore.Adjacent(edges, ids[i], ids[j])
  {
    RowToIsBetween(edges, ids, g, i, j);
    RowToIsBetween(edges, ids, g, j, i);
    GraphStore.BetweenIsSymmetric(edges, ids[i], ids[j]);
    assert IsRow(edges, ids, ids[i], g[i]) && IsRow(edges, ids, ids[j], g[j]);
    HitsIsLeadsTo(g[i], |g[i]|, j);
    HitsIsLeadsTo(g[j], |g[j]|, i);
  }

  ghost predicate IsIndexOf(ids: seq<string>, idx: map<string, nat>) {
    && (forall i :: 0 <= i < |ids| ==> ids[i] in idx && idx[ids[i]] == i)
    && (forall id :: id in idx ==> idx[id] < |ids| && ids[idx[id]] == id)
  }

  /** Reads off the neighbours, in whatever order the map yields them; undeclared ones are skipped. */
  method IndexRow(seen: map<string, real>, ids: seq<string>, idx: map<string, nat>) returns (row: seq<Arc>)
    requires IsIndexOf(ids, idx)
    ensures forall k :: 0 <= k < |row| ==>
      row[k].target < |ids| && ids[row[k].target] in seen && row[k].weight == seen[ids[row[k].target]]
    ensures forall k, l :: 0 <= k < l < |row| ==> row[k].target != row[l].target
    ensures forall j :: 0 <= j < |ids| ==> (LeadsTo(row, |row|, j) <==> ids[j] in seen)
  {
    row := [];
    var rest := seen.Keys;
    while rest != {}
      invariant rest <= seen.Keys
      invariant forall k :: 0 <= k < |row| ==>
        && row[k].target < |ids| && ids[row[k].target] in seen.Keys - rest
        && row[k].weight == seen[ids[row[k].target]]
      invariant forall k, l :: 0 <= k < l < |row| ==> row[k].target != row[l].target
      invariant forall j :: 0 <= j < |ids| && ids[j] in seen.Keys - rest ==> LeadsTo(row, |row|, j)
      decreases rest
    {
      var id :| id in rest;
      ghost var before := row;
      if id in idx {
        row := row + [Arc(idx[id], seen[id])];
        assert row[|before|].target == idx[id];
      }
      rest := rest - {id};
      forall j | 0 <= j < |ids| && ids[j] in seen.Keys - rest
        ensures LeadsTo(row, |row|, j)
      {
        if ids[j] != id {
          assert LeadsTo(before, |before|, j);
          var k :| 0 <= k < |before| && before[k].target == j;
          assert row[k].target == j;
        }
      }
    }
  }

  lemma RowFromSeen(edges: seq<GraphStore.Edge>, ids: seq<string>, u: string, seen: map<string, real>, row: seq<Arc>)
    requires forall v :: v in seen <==> GraphStore.Adjacent(edges, u, v)
    requires forall v :: v in seen ==> seen[v] == GraphStore.Between(edges, u, v)
    requires forall k :: 0 <= k < |row| ==>
      row[k].target < |ids| && ids[row[k].target] in seen && row[k].weight == seen[ids[row[k].target]]
    requires forall k, l :: 0 <= k < l < |row| ==> row[k].target != row[l].target
    requires forall j :: 0 <= j < |ids| ==> (LeadsTo(row, |row|, j) <==> ids[j] in seen)
    ensures IsRow(edges, ids, u, row)
  {}

  /** The declared nodes in the order the map yields them, each once, with their positions. */
  method ListNodes(nodes: map<string, GraphStore.Entity>) returns (ids: seq<string>, idx: map<string, nat>)
    requires forall id :: id in nodes ==> nodes[id].id == id
    ensures IsIndexOf(ids, idx) && idx.Keys == nodes.Keys
  {
    ids, idx := [], map[];
    var rest := nodes.Keys;
    while rest != {}
      invariant rest <= nodes.Keys && IsIndexOf(ids, idx) && idx.Keys == nodes.Keys - rest
      decreases rest
    {
      var id :| id in rest;
      assert forall i :: 0 <= i < |ids| ==> ids[i] in idx;
      idx := idx[nodes[id].id := |ids|];
      ids := ids + [nodes[id].id];
      rest := rest - {id};
    }
  }

  method BuildIndex(graph: GraphStore.InMemoryGraph) returns (ids: seq<string>, idx: map<string, nat>, g: Adjacency)
    requires graph.Valid()
    ensures IsIndexOf(ids, idx) && idx.Keys == graph.nodes.Keys
    ensures IsIndexed(graph.edges, ids, g)
  {
    hide IsRow;
    ids, idx := ListNodes(graph.nodes);
    g := [];
    for i := 0 to |ids|
      invariant |g| == i && forall k :: 0 <= k < i ==> IsRow(graph.edges, ids, ids[k], g[k])
    {
      var seen := graph.UndirectedNeighbours(ids[i]);
      var row := IndexRow(seen, ids, idx);
      RowFromSeen(graph.edges, ids, ids[i], seen, row);
      g := g + [row];
    }
  }

  lemma IndexIsDeclared(edges: seq<GraphStore.Edge>, ids: seq<string>, g: Adjacency)
    requires IsIndexed(edges, ids, g)
    ensures Declared(g)
  {
    forall i, k | 0 <= i < |g| && 0 <= k < |g[i]|
      ensures g[i][k].target < |g|
    {
      assert IsRow(edges, ids, ids[i], g[i]);
    }
  }

  lemma {:induction false} BetweenNonNegative(edges: seq<GraphStore.Edge>, u: string, v: string)
    requires forall i :: 0 <= i < |edges| ==> edges[i].weight >= 0.0
    ensures GraphStore.Between(edges, u, v) >= 0.0
  {
    if edges != [] {
      BetweenNonNegative(edges[..|edges| - 1], u, v);
    }
  }

  /** Non-negative edges give the well-formed graph the convergence results ask for. */
  lemma IndexIsWellFormed(edges: seq<GraphStore.Edge>, ids: seq<string>, g: Adjacency)
    requires IsIndexed(edges, ids, g)
    requires forall i :: 0 <= i < |edges| ==> edges[i].weight >= 0.0
    ensures WellFormed(g)
  {
    IndexIsDeclared(edges, ids, g);
    forall i, k | 0 <= i < |g| && 0 <= k < |g[i]|
      ensures g[i][k].weight >= 0.0
    {
      assert IsRow(edges, ids, ids[i], g[i]);
      BetweenNonNegative(edges, ids[i], ids[g[i][k].target]);
    }
  }

  // ----- seeds

  /** The positions of the seeds that exist, in order, repetitions kept. */
  function Known(idx: map<string, nat>, seeds: seq<string>): seq<nat> {
    if seeds == [] then []
    else
      var front, last := Known(idx, seeds[..|seeds| - 1]), seeds[|seeds| - 1];
      if last in idx then front + [idx[last]] else front
  }

  lemma {:induction false} KnownIsKnown(ids: seq<string>, idx: map<string, nat>, seeds: seq<string>)
    requires IsIndexOf(ids, idx)
    ensures forall i :: 0 <= i < |Known(idx, seeds)| ==> Known(idx, seeds)[i] < |ids|
    ensures forall s :: s in Known(idx, seeds) <==> 0 <= s < |ids| && ids[s] in seeds
  {
    if seeds != [] {
      var front, last := seeds[..|seeds| - 1], seeds[|seeds| - 1];
      KnownIsKnown(ids, idx, front);
      assert seeds == front + [last];
    }
  }

  /** The positions at which the caller names a node of the graph. */
  function NamedAt(nodes: set<string>, seeds: seq<string>): set<nat> {
    set i | 0 <= i < |seeds| && seeds[i] in nodes
  }

  /** One n-th, where there is something to divide. */
  function Portion(n: nat): real { if n == 0 then 0.0 else 1.0 / n as real }

  /** No node of the graph is named at two positions. */
  ghost predicate NamedOnce(nodes: set<string>, seeds: seq<string>) {
    forall i, j :: 0 <= i < j < |seeds| && seeds[i] in nodes ==> seeds[i] != seeds[j]
  }

  ghost predicate Increases(at: seq<nat>) {
    forall a, b :: 0 <= a < b < |at| ==> at[a] < at[b]
  }

  /** The known seeds stand at exactly those positions of the caller's list, in order, each once. */
  lemma {:induction false} KnownStandsAt(idx: map<string, nat>, seeds: seq<string>) returns (at: seq<nat>)
    ensures |at| == |Known(idx, seeds)| && Increases(at)
    ensures forall k :: 0 <= k < |at| ==>
      at[k] < |seeds| && seeds[at[k]] in idx && Known(idx, seeds)[k] == idx[seeds[at[k]]]
    ensures forall i :: i in NamedAt(idx.Keys, seeds) <==> i in at
  {
    at := [];
    if seeds != [] {
      var front, last := seeds[..|seeds| - 1], seeds[|seeds| - 1];
      at := KnownStandsAt(idx, front);
      if last in idx {
        at := at + [|seeds| - 1];
      }
    }
  }

  lemma {:induction false} IncreasingCount(at: seq<nat>, s: set<nat>)
    requires Increases(at) && forall i :: i in s <==> i in at
    ensures |s| == |at|
  {
    if at != [] {
      var front, last := at[..|at| - 1], at[|at| - 1];
      assert at == front + [last];
      assert last !in front;
      IncreasingCount(front, s - {last});
    } else {
      assert s == {};
    }
  }

  lemma KnownCount(idx: map<string, nat>, seeds: seq<string>)
    ensures |Known(idx, seeds)| == |NamedAt(idx.Keys, seeds)|
  {
    var at := KnownStandsAt(idx, seeds);
    IncreasingCount(at, NamedAt(idx.Keys, seeds));
  }

  /** The known seeds are distinct exactly when the caller names no node of the graph twice. */
  lemma KnownDistinctIff(ids: seq<string>, idx: map<string, nat>, seeds: seq<string>)
    requires IsIndexOf(ids, idx)
    ensures Commons.Distinct(Known(idx, seeds)) <==> NamedOnce(idx.Keys, seeds)
  {
    var known := Known(idx, seeds);
    var at := KnownStandsAt(idx, seeds);
    hide Known;
    if Commons.Distinct(known) {
      forall i, j | 0 <= i < j < |seeds| && seeds[i] in idx && seeds[j] in idx
        ensures seeds[i] != seeds[j]
      {
        assert i in NamedAt(idx.Keys, seeds) && j in NamedAt(idx.Keys, seeds);
        var k :| 0 <= k < |at| && at[k] == i;
        var l :| 0 <= l < |at| && at[l] == j;
        assert k < l;
      }
    }
  }

  // ----- the search

  function HitsOf(ids: seq<string>, p: PprStep.Vector, hops: seq<nat>, n: nat): (r: seq<Hit>)
    requires n <= |ids| && |ids| == |p| == |hops|
    ensures |r| == n && forall i :: 0 <= i < n ==> r[i] == Hit(ids[i], p[i], hops[i])
  {
    if n == 0 then [] else HitsOf(ids, p, hops, n - 1) + [Hit(ids[n - 1], p[n - 1], hops[n - 1])]
  }

  ghost predicate IsRanking(ranked: seq<Hit>, ids: seq<string>, p: PprStep.Vector, hops: seq<nat>)
  {
    && |ids| == |p| == |hops|
    && multiset(ranked) == multiset(HitsOf(ids, p, hops, |ids|))
    && Descending((h: Hit) => h.score, ranked)
  }

  /**
   * Without a seed that exists there is no answer. Otherwise every declared node is ranked once,
   * with its score after the last iteration and its hop distance from the existing seeds.
   */
  method PersonalisedPagerank(graph: GraphStore.InMemoryGraph, seeds: seq<string>, cfg: Config)
    returns (ranked: seq<Hit>, iterations: nat, ghost ids: seq<string>, ghost idx: map<string, nat>,
             ghost g: Adjacency, ghost t: PprStep.Vector, ghost hops: seq<nat>)
    requires graph.Valid() && cfg.maxHops <= 0xFFFF_FFFF
    ensures IsIndexOf(ids, idx) && idx.Keys == graph.nodes.Keys && IsIndexed(graph.edges, ids, g)
    ensures Known(idx, seeds) == [] ==> ranked == [] && iterations == 0
    ensures Known(idx, seeds) != [] ==>
      && |t| == |g| && Ppr.IsTeleport(t, Known(idx, seeds), 1.0 / |Known(idx, seeds)| as real)
      && Ppr.IsStop(g, t, cfg.alpha, iterations, cfg.maxIterations, cfg.tolerance)
      && |hops| == |g| && (forall v :: 0 <= v < |g| ==> hops[v] == Bfs.HopAt(g, Known(idx, seeds), v, cfg.maxHops))
      && IsRanking(ranked, ids, PprStep.Iterate(g, t, cfg.alpha, iterations), hops)
  {
    hide IsIndexOf, IsIndexed, IsRanking, Known, Declared, Bfs.HopAt;
    hide Ppr.IsTeleport, Ppr.IsStop, PprStep.Iterate, PprStep.Distance;
    var order, index, neighbours := BuildIndex(graph);
    ids, idx, g, t, hops := order, index, neighbours, [], [];
    var seedIndices := Known(index, seeds);
    if seedIndices == [] {
      return [], 0, ids, idx, g, t, hops;
    }
    IndexIsDeclared(graph.edges, order, neighbours);
    assert |neighbours| == |order| by {
      IndexSize(graph.edges, order, neighbours);
    }
    KnownIsKnown(order, index, seeds);
    var p;
    p, iterations, t := Ppr.PersonalisedPagerank(neighbours, seedIndices, cfg.alpha, cfg.maxIterations, cfg.tolerance);
    var found := Bfs.BfsHops(neighbours, seedIndices, cfg.maxHops);
    hops := found;
    ranked := Rank(order, p, found);
  }

  method Rank(ids: seq<string>, p: PprStep.Vector, hops: seq<nat>) returns (ranked: seq<Hit>)
    requires |ids| == |p| == |hops|
    ensures IsRanking(ranked, ids, p, hops)
  {
    var hits := HitsOf(ids, p, hops, |ids|);
    SortIsSorted((h: Hit) => h.score, hits);
    ranked := SortDescending((h: Hit) => h.score, hits);
  }

  lemma IndexSize(edges: seq<GraphStore.Edge>, ids: seq<string>, g: Adjacency)
    requires IsIndexed(edges, ids, g)
    ensures |g| == |ids|
  {}

  /** The cut of the multi-hop search: hits out of reach are dropped, and then all but the first `topK`. */
  method Surface(ranked: seq<Hit>, maxHops: nat, topK: nat) returns (out: seq<Hit>, ghost kept: seq<nat>)
    ensures |kept| == |out| <= topK
    ensures forall a, b :: 0 <= a < b < |kept| ==> kept[a] < kept[b]
    ensures forall a :: 0 <= a < |kept| ==> kept[a] < |ranked| && out[a] == ranked[kept[a]] && out[a].hops <= maxHops
    ensures forall i :: 0 <= i < |ranked| && ranked[i].hops <= maxHops && i !in kept ==>
      |out| == topK && forall a :: 0 <= a < |kept| ==> kept[a] < i
  {
    var near: seq<Hit> := [];
    ghost var places: seq<nat> := [];
    for i := 0 to |ranked|
      invariant |places| == |near|
      invariant forall a, b :: 0 <= a < b < |places| ==> places[a] < places[b]
      invariant forall a :: 0 <= a < |places| ==>
        places[a] < i && near[a] == ranked[places[a]] && near[a].hops <= maxHops
      invariant forall k :: 0 <= k < i && ranked[k].hops <= maxHops ==> k in places
    {
      if ranked[i].hops <= maxHops {
        near := near + [ranked[i]];
        places := places + [i];
      }
    }
    if |near| <= topK {
      return near, places;
    }
    out, kept := near[..topK], places[..topK];
    forall i | 0 <= i < |ranked| && ranked[i].hops <= maxHops && i !in kept
      ensures forall a :: 0 <= a < |kept| ==> kept[a] < i
    {
      assert places == kept + places[topK..];
      assert i in places[topK..];
      var b :| topK <= b < |places| && places[b] == i;
    }
  }

  /**
   * What the whole search promises over a graph with non-negative weights: the iteration starts
   * from one share for each node the caller names, the whole divided by the number of such namings;
   * all scores together weigh exactly 1 when no node is named twice and less otherwise; and a node passes the
   * hop filter exactly when a chain of at most `maxHops` edges, followed in either direction, leads
   * to it. A budget of `u32::MAX` lets every node pass, because that value marks the unreached ones.
   */
  lemma SearchPromises(edges: seq<GraphStore.Edge>, ids: seq<string>, idx: map<string, nat>, g: Adjacency,
                       seeds: seq<string>, t: PprStep.Vector, alpha: real, k: nat, maxHops: nat, v: nat)
    requires IsIndexOf(ids, idx) && IsIndexed(edges, ids, g) && Known(idx, seeds) != []
    requires forall i :: 0 <= i < |edges| ==> edges[i].weight >= 0.0
    requires 0.0 <= alpha <= 1.0 && maxHops <= 0xFFFF_FFFF && v < |ids|
    requires |t| == |g| && Ppr.IsTeleport(t, Known(idx, seeds), 1.0 / |Known(idx, seeds)| as real)
    ensures PprStep.NonNegative(PprStep.Iterate(g, t, alpha, k))
    ensures forall j :: 0 <= j < |ids| ==>
      t[j] == if ids[j] in seeds then Portion(|NamedAt(idx.Keys, seeds)|) else 0.0
    ensures PprStep.Sum(PprStep.Iterate(g, t, alpha, k), |g|) == 1.0 <==> NamedOnce(idx.Keys, seeds)
    ensures PprStep.Sum(PprStep.Iterate(g, t, alpha, k), |g|) <= 1.0
    ensures Bfs.HopAt(g, Known(idx, seeds), v, maxHops) <= maxHops <==>
      maxHops == 0xFFFF_FFFF || exists d: nat :: d <= maxHops && Bfs.IsDistance(g, Known(idx, seeds), v, d)
  {
    SeedShares(ids, idx, seeds, t);
    KnownDistinctIff(ids, idx, seeds);
    hide PprStep.Iterate, PprStep.Sum, PprStep.NonNegative, Ppr.IsTeleport, Commons.Distinct;
    hide Bfs.HopAt, Bfs.IsDistance, Bfs.Within, IsIndexed, IsIndexOf;
    var known := Known(idx, seeds);
    KnownIsKnown(ids, idx, seeds);
    IndexSize(edges, ids, g);
    IndexIsWellFormed(edges, ids, g);
    Ppr.MassIsOneIffSeedsDistinct(g, t, known, alpha, k);
    Bfs.HopAtLevels(g, known, v, maxHops);
    Bfs.HopAtIsDistance(g, known, v, maxHops);
  }

  lemma SeedShares(ids: seq<string>, idx: map<string, nat>, seeds: seq<string>, t: PprStep.Vector)
    requires IsIndexOf(ids, idx) && Known(idx, seeds) != [] && |t| == |ids|
    requires Ppr.IsTeleport(t, Known(idx, seeds), 1.0 / |Known(idx, seeds)| as real)
    ensures |NamedAt(idx.Keys, seeds)| > 0
    ensures forall j :: 0 <= j < |ids| ==>
      t[j] == if ids[j] in seeds then Portion(|NamedAt(idx.Keys, seeds)|) else 0.0
  {
    KnownIsKnown(ids, idx, seeds);
    KnownCount(idx, seeds);
    hide Known;
  }
}
