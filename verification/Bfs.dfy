/** Hop distances in ppr.rs: a level-by-level search from the seeds, cut off at a hop budget. */
module Bfs {
  import opened Graph

  const U32_MAX := 0xFFFF_FFFF

  /** One of the first `n` arcs of the row leads to `j`. */
  predicate Hits(row: seq<Arc>, n: nat, j: nat)
    requires n <= |row|
  {
    n > 0 && (row[n - 1].target == j || Hits(row, n - 1, j))
  }

  predicate HasArc(g: Adjacency, i: nat, j: nat)
    requires i < |g|
  {
    Hits(g[i], |g[i]|, j)
  }

  // ----- The reference: walks from a seed

  /** A walk along arcs that starts at a seed. */
  ghost predicate IsWalk(g: Adjacency, seeds: seq<nat>, walk: seq<nat>)
    decreases |walk|
  {
    && walk != []
    && var last := |walk| - 1;
    && walk[last] < |g|
    && if last == 0 then walk[0] in seeds
       else IsWalk(g, seeds, walk[..last]) && HasArc(g, walk[last - 1], walk[last])
  }

  ghost function WalkEnd(walk: seq<nat>): nat {
    if walk == [] then 0 else walk[|walk| - 1]
  }

  /** Some walk of exactly `d` arcs leads to `v`, and no shorter one does. */
  ghost predicate IsDistance(g: Adjacency, seeds: seq<nat>, v: nat, d: nat) {
    && (exists walk :: IsWalk(g, seeds, walk) && |walk| == d + 1 && WalkEnd(walk) == v)
    && forall walk :: IsWalk(g, seeds, walk) && WalkEnd(walk) == v ==> |walk| >= d + 1
  }

  // ----- Levels

  /** The nodes some walk of at most `k` arcs leads to. */
  ghost function Within(g: Adjacency, seeds: seq<nat>, k: nat): (r: set<nat>)
    ensures forall v :: v in r ==> v < |g|
  {
    if k == 0 then set v | v in seeds && v < |g|
    else Within(g, seeds, k - 1) + Successors(g, Within(g, seeds, k - 1))
  }

  ghost function Successors(g: Adjacency, nodes: set<nat>): set<nat> {
    set j: nat | 0 <= j < |g| && IsSuccessor(g, nodes, j)
  }

  ghost predicate IsSuccessor(g: Adjacency, nodes: set<nat>, j: nat) {
    exists i :: i in nodes && i < |g| && HasArc(g, i, j)
  }

  lemma {:induction false} WithinGrows(g: Adjacency, seeds: seq<nat>, k: nat, m: nat)
    requires k <= m
    ensures Within(g, seeds, k) <= Within(g, seeds, m)
    decreases m - k
  {
    if k < m {
      WithinGrows(g, seeds, k, m - 1);
    }
  }

  lemma {:induction false} WalkIsWithin(g: Adjacency, seeds: seq<nat>, walk: seq<nat>)
    requires IsWalk(g, seeds, walk)
    ensures walk != []
    ensures walk[|walk| - 1] in Within(g, seeds, |walk| - 1)
    decreases |walk|
  {
    var last := |walk| - 1;
    if last > 0 {
      WalkIsWithin(g, seeds, walk[..last]);
    }
  }

  lemma {:induction false} WithinHasWalk(g: Adjacency, seeds: seq<nat>, k: nat, v: nat) returns (walk: seq<nat>)
    requires v in Within(g, seeds, k)
    ensures walk != [] && IsWalk(g, seeds, walk) && WalkEnd(walk) == v && |walk| <= k + 1
  {
    if k == 0 {
      walk := [v];
    } else if v in Within(g, seeds, k - 1) {
      walk := WithinHasWalk(g, seeds, k - 1, v);
    } else {
      var i :| i in Within(g, seeds, k - 1) && i < |g| && HasArc(g, i, v);
      hide Within, HasArc;
      var front := WithinHasWalk(g, seeds, k - 1, i);
      walk := front + [v];
      WalkExtends(g, seeds, front, v);
    }
  }

  lemma WalkExtends(g: Adjacency, seeds: seq<nat>, front: seq<nat>, v: nat)
    requires IsWalk(g, seeds, front) && v < |g| && HasArc(g, front[|front| - 1], v)
    ensures IsWalk(g, seeds, front + [v])
  {
    hide HasArc;
    assert (front + [v])[..|front|] == front;
  }

  ghost predicate FirstLevel(g: Adjacency, seeds: seq<nat>, v: nat, d: nat) {
    v in Within(g, seeds, d) && (d > 0 ==> v !in Within(g, seeds, d - 1))
  }

  lemma DistanceIsFirstLevel(g: Adjacency, seeds: seq<nat>, v: nat, d: nat)
    requires IsDistance(g, seeds, v, d)
    ensures FirstLevel(g, seeds, v, d)
  {
    var walk :| IsWalk(g, seeds, walk) && |walk| == d + 1 && WalkEnd(walk) == v;
    hide Within, IsWalk;
    WalkIsWithin(g, seeds, walk);
    if d > 0 && v in Within(g, seeds, d - 1) {
      var shorter := WithinHasWalk(g, seeds, d - 1, v);
    }
  }

  lemma FirstLevelIsDistance(g: Adjacency, seeds: seq<nat>, v: nat, d: nat)
    requires FirstLevel(g, seeds, v, d)
    ensures IsDistance(g, seeds, v, d)
  {
    hide Within, IsWalk;
    var walk := WithinHasWalk(g, seeds, d, v);
    forall w: seq<nat> | IsWalk(g, seeds, w) && WalkEnd(w) == v
      ensures |w| >= d + 1
    {
      WalkIsWithin(g, seeds, w);
      if |w| < d + 1 {
        WithinGrows(g, seeds, |w| - 1, d - 1);
      }
    }
    assert WalkEnd(walk) == v && |walk| == d + 1;
  }

  // ----- The hop table

  /** Value of the table for `v` once the search has finished `depth` levels. */
  ghost function HopAt(g: Adjacency, seeds: seq<nat>, v: nat, depth: nat): (h: nat)
  {
    if depth == 0 then (if v in Within(g, seeds, 0) then 0 else U32_MAX)
    else if v in Within(g, seeds, depth) && v !in Within(g, seeds, depth - 1) then depth
    else HopAt(g, seeds, v, depth - 1)
  }

  lemma {:induction false} HopAtLevels(g: Adjacency, seeds: seq<nat>, v: nat, depth: nat)
    ensures v in Within(g, seeds, depth) ==> HopAt(g, seeds, v, depth) <= depth
    ensures v !in Within(g, seeds, depth) ==> HopAt(g, seeds, v, depth) == U32_MAX
  {
    if depth > 0 {
      HopAtLevels(g, seeds, v, depth - 1);
    }
  }

  /** The table holds the exact distance of every node within the budget, and u32::MAX elsewhere. */
  lemma {:induction false} HopAtIsDistance(g: Adjacency, seeds: seq<nat>, v: nat, depth: nat)
    ensures v in Within(g, seeds, depth) ==> IsDistance(g, seeds, v, HopAt(g, seeds, v, depth))
    ensures v !in Within(g, seeds, depth) ==> forall d: nat :: d <= depth ==> !IsDistance(g, seeds, v, d)
  {
    hide IsDistance;
    if v in Within(g, seeds, depth) {
      if depth > 0 && v in Within(g, seeds, depth - 1) {
        HopAtIsDistance(g, seeds, v, depth - 1);
      } else {
        FirstLevelIsDistance(g, seeds, v, depth);
      }
    } else {
      forall d: nat | d <= depth
        ensures !IsDistance(g, seeds, v, d)
      {
        WithinGrows(g, seeds, d, depth);
        if IsDistance(g, seeds, v, d) {
          DistanceIsFirstLevel(g, seeds, v, d);
        }
      }
    }
  }

  /** Once a level adds nothing, no later one does. */
  lemma {:induction false} StableLevels(g: Adjacency, seeds: seq<nat>, k: nat, m: nat, v: nat)
    requires k <= m && Within(g, seeds, k + 1) == Within(g, seeds, k)
    ensures Within(g, seeds, m) == Within(g, seeds, k)
    ensures HopAt(g, seeds, v, m) == HopAt(g, seeds, v, k)
    decreases m - k
  {
    hide Within, Successors, HopAt;
    if k < m {
      StableLevels(g, seeds, k, m - 1, v);
      LevelUnfolds(g, seeds, m);
      LevelUnfolds(g, seeds, k + 1);
      HopUnfolds(g, seeds, v, m);
    }
  }

  lemma HopUnfolds(g: Adjacency, seeds: seq<nat>, v: nat, depth: nat)
    requires depth > 0 && Within(g, seeds, depth) == Within(g, seeds, depth - 1)
    ensures HopAt(g, seeds, v, depth) == HopAt(g, seeds, v, depth - 1)
  {
    hide Within;
  }

  lemma LevelUnfolds(g: Adjacency, seeds: seq<nat>, k: nat)
    requires k > 0
    ensures Within(g, seeds, k) == Within(g, seeds, k - 1) + Successors(g, Within(g, seeds, k - 1))
  {
  }

  // ----- The search

  ghost function Elements(s: seq<nat>): set<nat> {
    set v | v in s
  }

  method Initial(g: Adjacency, seeds: seq<nat>) returns (hops: seq<nat>, frontier: seq<nat>)
    requires forall s :: s in seeds ==> s < |g|
    ensures |hops| == |g| && Elements(frontier) == Within(g, seeds, 0)
    ensures forall v :: 0 <= v < |g| ==> hops[v] == HopAt(g, seeds, v, 0)
  {
    hops := [];
    for i := 0 to |g|
      invariant |hops| == i && forall v :: 0 <= v < i ==> hops[v] == U32_MAX
    {
      hops := hops + [U32_MAX];
    }
    frontier := [];
    for i := 0 to |seeds|
      invariant |hops| == |g| && frontier == seeds[..i]
      invariant forall v :: 0 <= v < |g| ==> hops[v] == if v in seeds[..i] then 0 else U32_MAX
    {
      assert seeds[i] in seeds;
      hops := hops[seeds[i] := 0];
      frontier := frontier + [seeds[i]];
      assert seeds[..i + 1] == seeds[..i] + [seeds[i]];
    }
    assert seeds[..|seeds|] == seeds;
  }

  /** Unmarked nodes the row leads to. */
  ghost function Fresh(before: seq<nat>, row: seq<Arc>, n: nat): set<nat>
    requires n <= |row|
  {
    set v: nat | 0 <= v < |before| && before[v] == U32_MAX && Hits(row, n, v)
  }

  /** Marks the still unmarked targets of one node and collects them. */
  method VisitNode(row: seq<Arc>, depth: nat, before: seq<nat>, next: seq<nat>)
    returns (hops: seq<nat>, frontier: seq<nat>)
    requires forall k :: 0 <= k < |row| ==> row[k].target < |before|
    ensures |hops| == |before|
    ensures forall v :: 0 <= v < |before| ==>
              hops[v] == if v in Fresh(before, row, |row|) then depth + 1 else before[v]
    ensures Elements(frontier) == Elements(next) + Fresh(before, row, |row|)
  {
    hops, frontier := before, next;
    for i := 0 to |row|
      invariant |hops| == |before|
      invariant forall v :: 0 <= v < |before| ==>
                  hops[v] == if v in Fresh(before, row, i) then depth + 1 else before[v]
      invariant Elements(frontier) == Elements(next) + Fresh(before, row, i)
    {
      var j := row[i].target;
      assert Fresh(before, row, i + 1) == Fresh(before, row, i) + if before[j] == U32_MAX then {j} else {};
      if hops[j] == U32_MAX {
        hops := hops[j := depth + 1];
        assert Elements(frontier + [j]) == Elements(frontier) + {j};
        frontier := frontier + [j];
      }
    }
  }

  /** Every node of level `depth` is on the frontier or leads nowhere new. */
  ghost predicate IsFrontier(g: Adjacency, seeds: seq<nat>, depth: nat, frontier: set<nat>) {
    && frontier <= Within(g, seeds, depth)
    && forall v: nat, j: nat :: v in Within(g, seeds, depth) && v !in frontier && j < |g| && HasArc(g, v, j) ==>
         j in Within(g, seeds, depth)
  }

  /** The nodes the frontier leads to outside level `depth` are exactly the next level's new ones. */
  lemma NextLevel(g: Adjacency, seeds: seq<nat>, depth: nat, frontier: set<nat>, found: set<nat>)
    requires IsFrontier(g, seeds, depth, frontier)
    requires found == set j: nat | 0 <= j < |g| && j !in Within(g, seeds, depth) && IsSuccessor(g, frontier, j)
    ensures Within(g, seeds, depth + 1) == Within(g, seeds, depth) + found
    ensures IsFrontier(g, seeds, depth + 1, found)
  {
    var now := Within(g, seeds, depth);
    assert Within(g, seeds, depth + 1) == now + Successors(g, now);
    hide Within;
    forall j | j in Successors(g, now) && j !in now
      ensures j in found
    {
      var i :| i in now && i < |g| && HasArc(g, i, j);
    }
    forall j | j in found
      ensures j in Successors(g, now)
    {
      var i :| i in frontier && i < |g| && HasArc(g, i, j);
    }
    forall v: nat, j: nat | v in now + found && v !in found && j < |g| && HasArc(g, v, j)
      ensures j in now + found
    {
      assert IsSuccessor(g, now, j);
    }
  }

  /** One level of the search. */
  method VisitFrontier(g: Adjacency, ghost seeds: seq<nat>, depth: nat, before: seq<nat>, frontier: seq<nat>)
    returns (hops: seq<nat>, next: seq<nat>)
    requires Declared(g) && |before| == |g| && depth < U32_MAX
    requires forall v :: 0 <= v < |g| ==> before[v] == HopAt(g, seeds, v, depth)
    requires IsFrontier(g, seeds, depth, Elements(frontier))
    ensures |hops| == |g|
    ensures forall v :: 0 <= v < |g| ==> hops[v] == HopAt(g, seeds, v, depth + 1)
    ensures IsFrontier(g, seeds, depth + 1, Elements(next))
  {
    ghost var now := Within(g, seeds, depth);
    forall v | 0 <= v < |g|
      ensures before[v] == U32_MAX <==> v !in now
    {
      HopAtLevels(g, seeds, v, depth);
    }
    hops, next := before, [];
    ghost var found: set<nat> := {};
    for i := 0 to |frontier|
      invariant |hops| == |g|
      invariant found == set j: nat | 0 <= j < |g| && j !in now && IsSuccessor(g, Elements(frontier[..i]), j)
      invariant forall v :: 0 <= v < |g| ==> hops[v] == if v in found then depth + 1 else before[v]
      invariant Elements(next) == found
    {
      hide HopAt, Within, HasArc;
      assert frontier[i] in Elements(frontier);
      ghost var soFar := hops;
      hops, next := VisitNode(g[frontier[i]], depth, hops, next);
      ghost var added := Fresh(soFar, g[frontier[i]], |g[frontier[i]]|);
      SuccessorsAppend(g, frontier, i);
      found := found + added;
    }
    assert frontier[..|frontier|] == frontier;
    NextLevel(g, seeds, depth, Elements(frontier), found);
  }

  lemma SuccessorsAppend(g: Adjacency, frontier: seq<nat>, i: nat)
    requires i < |frontier| && frontier[i] < |g|
    ensures forall j: nat :: IsSuccessor(g, Elements(frontier[..i + 1]), j)
              <==> IsSuccessor(g, Elements(frontier[..i]), j) || HasArc(g, frontier[i], j)
  {
    hide HasArc;
    assert Elements(frontier[..i + 1]) == Elements(frontier[..i]) + {frontier[i]};
  }

  method BfsHops(g: Adjacency, seeds: seq<nat>, maxHops: nat) returns (hops: seq<nat>)
    requires Declared(g) && forall s :: s in seeds ==> s < |g|
    requires maxHops <= U32_MAX
    ensures |hops| == |g|
    ensures forall v :: 0 <= v < |g| ==> hops[v] == HopAt(g, seeds, v, maxHops)
  {
    var frontier;
    hops, frontier := Initial(g, seeds);
    var depth := 0;
    while frontier != [] && depth < maxHops
      invariant depth <= maxHops && |hops| == |g|
      invariant forall v :: 0 <= v < |g| ==> hops[v] == HopAt(g, seeds, v, depth)
      invariant IsFrontier(g, seeds, depth, Elements(frontier))
      decreases maxHops - depth
    {
      hops, frontier := VisitFrontier(g, seeds, depth, hops, frontier);
      depth := depth + 1;
    }
    if frontier == [] {
      NextLevel(g, seeds, depth, Elements(frontier), {});
      forall v | 0 <= v < |g|
        ensures HopAt(g, seeds, v, maxHops) == HopAt(g, seeds, v, depth)
      {
        StableLevels(g, seeds, depth, maxHops, v);
      }
    }
  }
}
