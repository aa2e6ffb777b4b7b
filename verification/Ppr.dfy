/** Personalised PageRank in ppr.rs: the start vector, whole runs, and the loops that compute them. */
module Ppr {
  import opened Commons
  import opened Graph
  import opened PprStep

  // ----- The teleport vector

  /** How many of the nodes below `m` are seeds. */
  function SeedsBelow(seeds: seq<nat>, m: nat): nat {
    if m == 0 then 0 else SeedsBelow(seeds, m - 1) + if m - 1 in seeds then 1 else 0
  }

  predicate IsTeleport(t: Vector, seeds: seq<nat>, share: real) {
    forall j :: 0 <= j < |t| ==> t[j] == if j in seeds then share else 0.0
  }

  lemma {:induction false} TeleportSum(t: Vector, seeds: seq<nat>, share: real, m: nat)
    requires m <= |t| && IsTeleport(t, seeds, share)
    ensures Sum(t, m) == share * (SeedsBelow(seeds, m) as real)
  {
    if m > 0 {
      TeleportSum(t, seeds, share, m - 1);
    }
  }

  lemma {:induction false} SeedsBelowAppend(seeds: seq<nat>, s: nat, m: nat)
    ensures SeedsBelow(seeds + [s], m) == SeedsBelow(seeds, m) + if s < m && s !in seeds then 1 else 0
  {
    if m > 0 {
      SeedsBelowAppend(seeds, s, m - 1);
    }
  }

  lemma {:induction false} NoSeedsBelow(m: nat)
    ensures SeedsBelow([], m) == 0
  {
    if m > 0 {
      NoSeedsBelow(m - 1);
    }
  }

  lemma {:induction false} SeedsCounted(seeds: seq<nat>, n: nat)
    requires forall i :: 0 <= i < |seeds| ==> seeds[i] < n
    ensures SeedsBelow(seeds, n) <= |seeds|
    ensures SeedsBelow(seeds, n) == |seeds| <==> Distinct(seeds)
  {
    if seeds == [] {
      NoSeedsBelow(n);
    } else {
      var k := |seeds| - 1;
      assert seeds == seeds[..k] + [seeds[k]];
      SeedsCounted(seeds[..k], n);
      SeedsBelowAppend(seeds[..k], seeds[k], n);
      DistinctAppend(seeds[..k], seeds[k]);
    }
  }

  lemma DistinctAppend(seeds: seq<nat>, s: nat)
    ensures Distinct(seeds + [s]) <==> Distinct(seeds) && s !in seeds
  {
    var all := seeds + [s];
    if Distinct(all) {
      assert forall i :: 0 <= i < |seeds| ==> all[i] == seeds[i] && all[i] != all[|seeds|];
    }
  }

  /** The start vector carries mass 1 exactly when no seed is listed twice; otherwise less. */
  lemma TeleportMass(t: Vector, seeds: seq<nat>)
    requires seeds != [] && forall i :: 0 <= i < |seeds| ==> seeds[i] < |t|
    requires IsTeleport(t, seeds, 1.0 / |seeds| as real)
    ensures NonNegative(t) && 0.0 <= Sum(t, |t|) <= 1.0
    ensures Sum(t, |t|) == 1.0 <==> Distinct(seeds)
  {
    hide Distinct, SeedsBelow, IsTeleport, Sum, NonNegative;
    var share := 1.0 / |seeds| as real;
    ShareIsPositive(|seeds|);
    TeleportNonNegative(t, seeds, share);
    TeleportSum(t, seeds, share, |t|);
    SeedsCounted(seeds, |t|);
    ShareOfWhole(SeedsBelow(seeds, |t|), |seeds|);
  }

  lemma TeleportNonNegative(t: Vector, seeds: seq<nat>, share: real)
    requires IsTeleport(t, seeds, share) && share >= 0.0
    ensures NonNegative(t)
  {
  }

  lemma ShareIsPositive(n: nat)
    requires n > 0
    ensures 1.0 / n as real > 0.0
  {
  }

  lemma ShareOfWhole(x: nat, n: nat)
    requires x <= n && n > 0
    ensures 0.0 <= (1.0 / n as real) * x as real <= 1.0
    ensures (1.0 / n as real) * x as real == 1.0 <==> x == n
  {
    assert (1.0 / n as real) * x as real == x as real / n as real;
  }

  // ----- Whole runs

  lemma {:induction false} IterateIsDistribution(g: Adjacency, t: Vector, alpha: real, k: nat)
    requires |g| == |t| && WellFormed(g) && 0.0 <= alpha <= 1.0
    requires NonNegative(t) && Sum(t, |t|) <= 1.0
    ensures NonNegative(Iterate(g, t, alpha, k)) && Sum(Iterate(g, t, alpha, k), |g|) <= Sum(t, |t|)
    ensures Sum(t, |t|) == 1.0 ==> Sum(Iterate(g, t, alpha, k), |g|) == 1.0
  {
    hide Sum, NonNegative, Next, WellFormed;
    if k > 0 {
      IterateIsDistribution(g, t, alpha, k - 1);
      StepKeepsDistribution(g, t, alpha, Iterate(g, t, alpha, k - 1));
    }
  }

  /** Every score vector of a run has mass exactly 1 if and only if no seed is repeated. */
  lemma MassIsOneIffSeedsDistinct(g: Adjacency, t: Vector, seeds: seq<nat>, alpha: real, k: nat)
    requires |g| == |t| && WellFormed(g) && 0.0 <= alpha <= 1.0
    requires seeds != [] && forall i :: 0 <= i < |seeds| ==> seeds[i] < |t|
    requires IsTeleport(t, seeds, 1.0 / |seeds| as real)
    ensures NonNegative(Iterate(g, t, alpha, k))
    ensures Sum(Iterate(g, t, alpha, k), |g|) <= 1.0
    ensures Sum(Iterate(g, t, alpha, k), |g|) == 1.0 <==> Distinct(seeds)
  {
    TeleportMass(t, seeds);
    hide Sum, NonNegative, Iterate, WellFormed, Distinct, IsTeleport;
    IterateIsDistribution(g, t, alpha, k);
  }

  function Power(x: real, k: nat): real {
    if k == 0 then 1.0 else Times(x, Power(x, k - 1))
  }

  lemma {:induction false} FirstGap(g: Adjacency, t: Vector, alpha: real, m: nat)
    requires m <= |g| == |t| && WellFormed(g) && 0.0 <= alpha <= 1.0 && NonNegative(t)
    ensures Distance(t, Next(g, t, alpha, t), m)
         <= Times(1.0 - alpha, Sum(t, m) + FlowSum(g, t, t, m, |g|))
  {
    hide Times, NextAt, Flow, WellFormed;
    TimesUnits(1.0 - alpha);
    if m > 0 {
      FirstGap(g, t, alpha, m - 1);
      NextIsFlow(g, t, alpha, t, m - 1);
      FlowNonNegative(g, t, t, m - 1, |g|);
      var x, flow := t[m - 1], Flow(g, t, t, m - 1, |g|);
      TimesAdd(x, 1.0 - alpha, alpha);
      TimesUnits(x);
      TimesAbs(x, flow, 1.0 - alpha);
      TimesAtMost(1.0 - alpha, Abs(x - flow), x + flow);
      TimesAdd(1.0 - alpha, Sum(t, m - 1) + FlowSum(g, t, t, m - 1, |g|), x + flow);
    }
  }

  lemma FirstDelta(g: Adjacency, t: Vector, alpha: real)
    requires |g| == |t| && WellFormed(g) && 0.0 <= alpha <= 1.0
    requires NonNegative(t) && Sum(t, |t|) <= 1.0
    ensures Distance(t, Next(g, t, alpha, t), |g|) <= 2.0 * (1.0 - alpha)
  {
    hide Times, Distance, Sum, Next, WellFormed, FlowSum;
    FlowKeepsMass(g, t, t, |g|);
    FirstGap(g, t, alpha, |g|);
    TimesAtMost(1.0 - alpha, Sum(t, |g|) + FlowSum(g, t, t, |g|, |g|), 2.0);
    TimesAdd(1.0 - alpha, 1.0, 1.0);
    TimesUnits(1.0 - alpha);
  }

  /** The L1 change made by iteration `k`, the first being 1. */
  function Delta(g: Adjacency, t: Vector, alpha: real, k: nat): real
    requires |g| == |t| && k > 0
  {
    Distance(Iterate(g, t, alpha, k - 1), Iterate(g, t, alpha, k), |g|)
  }

  /** Each delta of a run is at most 1 - alpha times the one before. */
  lemma DeltasShrink(g: Adjacency, t: Vector, alpha: real, k: nat)
    requires |g| == |t| && WellFormed(g) && 0.0 <= alpha <= 1.0 && k > 0
    requires NonNegative(t) && Sum(t, |t|) <= 1.0
    ensures Delta(g, t, alpha, k + 1) <= Times(1.0 - alpha, Delta(g, t, alpha, k))
  {
    hide Times, Distance, Sum, Next, WellFormed, NonNegative;
    IterateIsDistribution(g, t, alpha, k - 1);
    IterateIsDistribution(g, t, alpha, k);
    StepContracts(g, t, alpha, Iterate(g, t, alpha, k - 1), Iterate(g, t, alpha, k));
  }

  /** So the k-th delta is at most 2 (1 - alpha)^k. */
  lemma {:induction false} DeltasShrinkGeometrically(g: Adjacency, t: Vector, alpha: real, k: nat)
    requires |g| == |t| && WellFormed(g) && 0.0 <= alpha <= 1.0 && k > 0
    requires NonNegative(t) && Sum(t, |t|) <= 1.0
    ensures Delta(g, t, alpha, k) <= 2.0 * Power(1.0 - alpha, k)
  {
    hide Times, Distance, Sum, Next, WellFormed, NonNegative;
    TimesUnits(1.0 - alpha);
    assert Power(1.0 - alpha, 1) == Times(1.0 - alpha, Power(1.0 - alpha, 0));
    if k == 1 {
      FirstDelta(g, t, alpha);
      assert Iterate(g, t, alpha, 0) == t;
    } else {
      DeltasShrinkGeometrically(g, t, alpha, k - 1);
      DeltasShrink(g, t, alpha, k - 1);
      var bound := Power(1.0 - alpha, k - 1);
      TimesAtMost(1.0 - alpha, Delta(g, t, alpha, k - 1), bound + bound);
      TimesAdd(1.0 - alpha, bound, bound);
    }
  }

  /** The run ends at the first delta below the tolerance, or at the limit. */
  ghost predicate IsStop(g: Adjacency, t: Vector, alpha: real, iterations: nat, maxIterations: nat, tolerance: real)
    requires |g| == |t|
  {
    && iterations <= maxIterations
    && (iterations < maxIterations ==> iterations > 0 && Delta(g, t, alpha, iterations) < tolerance)
    && forall k :: 0 < k < iterations ==> Delta(g, t, alpha, k) >= tolerance
  }

  /** Once 2 (1 - alpha)^k is below the tolerance, no run goes beyond iteration k. */
  lemma StopsBy(g: Adjacency, t: Vector, alpha: real, iterations: nat, maxIterations: nat, tolerance: real, k: nat)
    requires |g| == |t| && WellFormed(g) && 0.0 <= alpha <= 1.0 && k > 0
    requires NonNegative(t) && Sum(t, |t|) <= 1.0
    requires IsStop(g, t, alpha, iterations, maxIterations, tolerance)
    requires 2.0 * Power(1.0 - alpha, k) < tolerance
    ensures iterations <= k
  {
    hide Delta, Power, Sum, WellFormed, NonNegative;
    DeltasShrinkGeometrically(g, t, alpha, k);
  }

  lemma {:induction false} Triangle(p: Vector, q: Vector, r: Vector, m: nat)
    requires m <= |p| && m <= |q| && m <= |r|
    ensures Distance(p, r, m) <= Distance(p, q, m) + Distance(q, r, m)
  {
    if m > 0 {
      Triangle(p, q, r, m - 1);
    }
  }

  /**
   What stopping buys: the scores after iteration k are within (1 - alpha) / alpha times the k-th
   delta of any vector that the iteration leaves alone.
   */
  lemma StationaryIsNear(g: Adjacency, t: Vector, alpha: real, k: nat, q: Vector)
    requires |g| == |t| == |q| && WellFormed(g) && 0.0 <= alpha <= 1.0 && k > 0
    requires NonNegative(t) && Sum(t, |t|) <= 1.0 && NonNegative(q) && Next(g, t, alpha, q) == q
    ensures Times(alpha, Distance(Iterate(g, t, alpha, k), q, |g|)) <= Times(1.0 - alpha, Delta(g, t, alpha, k))
  {
    hide Times, Distance, Sum, Next, WellFormed, NonNegative;
    var before, after := Iterate(g, t, alpha, k - 1), Iterate(g, t, alpha, k);
    IterateIsDistribution(g, t, alpha, k - 1);
    StepContracts(g, t, alpha, before, q);
    Triangle(before, after, q, |g|);
    var delta, rest := Distance(before, after, |g|), Distance(after, q, |g|);
    TimesAtMost(1.0 - alpha, Distance(before, q, |g|), delta + rest);
    TimesAdd(1.0 - alpha, delta, rest);
    TimesAdd(rest, 1.0 - alpha, alpha);
    TimesUnits(rest);
  }

  // ----- The loops

  method SeedVector(n: nat, seeds: seq<nat>) returns (p: Vector)
    requires seeds != [] && forall i :: 0 <= i < |seeds| ==> seeds[i] < n
    ensures |p| == n && IsTeleport(p, seeds, 1.0 / |seeds| as real)
  {
    var share := 1.0 / |seeds| as real;
    p := [];
    for j := 0 to n
      invariant |p| == j && forall i :: 0 <= i < j ==> p[i] == 0.0
    {
      p := p + [0.0];
    }
    for k := 0 to |seeds|
      invariant |p| == n && IsTeleport(p, seeds[..k], share)
    {
      p := p[seeds[k] := share];
      assert seeds[..k + 1] == seeds[..k] + [seeds[k]];
    }
    assert seeds[..|seeds|] == seeds;
  }

  method PushRow(row: seq<Arc>, outgoing: real, total: real, before: Vector) returns (next: Vector)
    requires total > 0.0 && forall k :: 0 <= k < |row| ==> row[k].target < |before|
    ensures |next| == |before|
    ensures forall j :: 0 <= j < |next| ==> next[j] == before[j] + outgoing * (RowTo(row, |row|, j) / total)
  {
    next := before;
    for k := 0 to |row|
      invariant |next| == |before|
      invariant forall j :: 0 <= j < |next| ==> next[j] == before[j] + outgoing * (RowTo(row, k, j) / total)
    {
      var j, w := row[k].target, row[k].weight;
      next := next[j := next[j] + outgoing * (w / total)];
      PushOne(outgoing, RowTo(row, k, j), w, total);
    }
  }

  lemma PushOne(outgoing: real, x: real, w: real, total: real)
    requires total > 0.0
    ensures outgoing * (x / total) + outgoing * (w / total) == outgoing * ((x + w) / total)
  {
    DivideSum(x, w, total);
  }

  method Zeros(n: nat) returns (v: Vector)
    ensures |v| == n && forall j :: 0 <= j < n ==> v[j] == 0.0
  {
    v := [];
    for j := 0 to n
      invariant |v| == j && forall i :: 0 <= i < j ==> v[i] == 0.0
    {
      v := v + [0.0];
    }
  }

  method DistributeAlongEdges(g: Adjacency, alpha: real, p: Vector) returns (next: Vector)
    requires |g| == |p| && Declared(g)
    ensures |next| == |g| && forall j :: 0 <= j < |g| ==> next[j] == EdgeIn(g, p, alpha, j, |g|)
  {
    hide OutWeight, RowTo;
    next := Zeros(|g|);
    for i := 0 to |g|
      invariant |next| == |g|
      invariant forall j :: 0 <= j < |g| ==> next[j] == EdgeIn(g, p, alpha, j, i)
    {
      if OutWeight(g, i) <= 0.0 || p[i] == 0.0 {
        continue;
      }
      next := PushRow(g[i], (1.0 - alpha) * p[i], OutWeight(g, i), next);
    }
  }

  /** Score of `j` when the first `i` nodes have had their teleport and dangling terms added. */
  ghost function Partial(edges: Vector, g: Adjacency, t: Vector, alpha: real, p: Vector, i: nat, j: nat): real
    requires i <= |g| == |p| == |t| == |edges| && j < |t|
  {
    edges[j] + (if j < i then Times(alpha, t[j]) else 0.0) + Times(DanglingMass(g, p, alpha, i), t[j])
  }

  lemma PartialStep(edges: Vector, g: Adjacency, t: Vector, alpha: real, p: Vector, i: nat, j: nat)
    requires i < |g| == |p| == |t| == |edges| && j < |t|
    ensures Partial(edges, g, t, alpha, p, i + 1, j)
         == Partial(edges, g, t, alpha, p, i, j) + (if j == i then Times(alpha, t[i]) else 0.0)
            + if OutWeight(g, i) <= 0.0 && p[i] > 0.0 then Times(Times(1.0 - alpha, p[i]), t[j]) else 0.0
  {
    var held := DanglingMass(g, p, alpha, i);
    var more := Times(1.0 - alpha, p[i]);
    assert DanglingMass(g, p, alpha, i + 1)
        == held + if OutWeight(g, i) <= 0.0 && p[i] > 0.0 then more else 0.0;
    hide Times, DanglingMass, OutWeight;
    TimesAdd(t[j], held, more);
  }

  lemma PartialEnds(edges: Vector, g: Adjacency, t: Vector, alpha: real, p: Vector, j: nat)
    requires |g| == |p| == |t| == |edges| && j < |t| && edges[j] == EdgeIn(g, p, alpha, j, |g|)
    ensures Partial(edges, g, t, alpha, p, 0, j) == edges[j]
    ensures Partial(edges, g, t, alpha, p, |g|, j) == Next(g, t, alpha, p)[j]
  {
    NextAtProducts(g, t, alpha, p, j);
    TimesUnits(t[j]);
    hide Times, EdgeIn;
  }

  method PowerStep(g: Adjacency, t: Vector, alpha: real, p: Vector) returns (next: Vector)
    requires |g| == |p| == |t| && Declared(g)
    ensures next == Next(g, t, alpha, p)
  {
    hide OutWeight, EdgeIn, Declared, Partial;
    next := DistributeAlongEdges(g, alpha, p);
    ghost var edges := next;
    forall j | 0 <= j < |g|
      ensures next[j] == Partial(edges, g, t, alpha, p, 0, j)
    {
      PartialEnds(edges, g, t, alpha, p, j);
    }
    for i := 0 to |g|
      invariant |next| == |g|
      invariant forall j :: 0 <= j < |g| ==> next[j] == Partial(edges, g, t, alpha, p, i, j)
    {
      next := next[i := next[i] + Times(alpha, t[i])];
      if OutWeight(g, i) <= 0.0 && p[i] > 0.0 {
        next := Redistribute(Times(1.0 - alpha, p[i]), t, next);
      }
      hide Times;
      forall j | 0 <= j < |g|
        ensures next[j] == Partial(edges, g, t, alpha, p, i + 1, j)
      {
        PartialStep(edges, g, t, alpha, p, i, j);
      }
    }
    forall j | 0 <= j < |g|
      ensures next[j] == Next(g, t, alpha, p)[j]
    {
      PartialEnds(edges, g, t, alpha, p, j);
    }
  }

  method Redistribute(dangling: real, t: Vector, before: Vector) returns (next: Vector)
    requires |t| == |before|
    ensures |next| == |before|
    ensures forall j :: 0 <= j < |next| ==> next[j] == before[j] + Times(dangling, t[j])
  {
    next := before;
    for j := 0 to |t|
      invariant |next| == |before|
      invariant forall i :: 0 <= i < |next| ==> next[i] == before[i] + if i < j then Times(dangling, t[i]) else 0.0
    {
      next := next[j := next[j] + Times(dangling, t[j])];
    }
  }

  method L1(p: Vector, q: Vector) returns (delta: real)
    requires |p| == |q|
    ensures delta == Distance(p, q, |p|)
  {
    delta := 0.0;
    for i := 0 to |p|
      invariant delta == Distance(p, q, i)
    {
      delta := delta + Abs(p[i] - q[i]);
    }
  }

  /**
   The power iteration: stops at `maxIterations`, or at the first step whose L1 change is below
   `tolerance`.
   */
  method PersonalisedPagerank(g: Adjacency, seeds: seq<nat>, alpha: real, maxIterations: nat, tolerance: real)
    returns (p: Vector, iterations: nat, ghost t: Vector)
    requires Declared(g) && seeds != [] && forall i :: 0 <= i < |seeds| ==> seeds[i] < |g|
    ensures |t| == |g| && IsTeleport(t, seeds, 1.0 / |seeds| as real)
    ensures p == Iterate(g, t, alpha, iterations)
    ensures IsStop(g, t, alpha, iterations, maxIterations, tolerance)
  {
    hide IsTeleport, Next, Distance;
    var teleport := SeedVector(|g|, seeds);
    t := teleport;
    p := teleport;
    iterations := 0;
    for it := 0 to maxIterations
      invariant iterations == it
      invariant p == Iterate(g, t, alpha, it)
      invariant forall k :: 0 < k <= it ==> Delta(g, t, alpha, k) >= tolerance
    {
      iterations := it + 1;
      var next := PowerStep(g, teleport, alpha, p);
      var delta := L1(p, next);
      p := next;
      if delta < tolerance {
        break;
      }
    }
  }
}
