/**
 One iteration of personalised PageRank in ppr.rs, over exact reals: power iteration with teleport
 and dangling-mass redistribution.  The loops are restated as a matrix whose rows sum to one, which
 gives the mass a step keeps and the distance it shrinks.
 */
module PprStep {
  import opened Graph

  type Vector = seq<real>

  function Abs(x: real): real {
    if x < 0.0 then -x else x
  }

  function Sum(v: Vector, n: nat): real
    requires n <= |v|
  {
    if n == 0 then 0.0 else Sum(v, n - 1) + v[n - 1]
  }

  /** L1 distance of the first `n` places. */
  function Distance(p: Vector, q: Vector, n: nat): real
    requires n <= |p| && n <= |q|
  {
    if n == 0 then 0.0 else Distance(p, q, n - 1) + Abs(p[n - 1] - q[n - 1])
  }

  predicate NonNegative(v: Vector) {
    forall i :: 0 <= i < |v| ==> v[i] >= 0.0
  }

  /** Total weight leaving node i. */
  function OutWeight(g: Adjacency, i: nat): real
    requires i < |g|
  {
    RowWeight(g[i], |g[i]|)
  }

  // ----- One iteration, as the loops compute it

  /** Mass that reaches `j` along the arcs of the first `n` nodes. */
  function EdgeIn(g: Adjacency, p: Vector, alpha: real, j: nat, n: nat): real
    requires n <= |g| == |p|
  {
    if n == 0 then 0.0
    else
      EdgeIn(g, p, alpha, j, n - 1)
      + if OutWeight(g, n - 1) > 0.0
        then (1.0 - alpha) * p[n - 1] * (RowTo(g[n - 1], |g[n - 1]|, j) / OutWeight(g, n - 1))
        else 0.0
  }

  /** Mass held by the dangling ones of the first `n` nodes. */
  function DanglingMass(g: Adjacency, p: Vector, alpha: real, n: nat): real
    requires n <= |g| == |p|
  {
    if n == 0 then 0.0
    else
      DanglingMass(g, p, alpha, n - 1)
      + if OutWeight(g, n - 1) <= 0.0 && p[n - 1] > 0.0 then (1.0 - alpha) * p[n - 1] else 0.0
  }

  function NextAt(g: Adjacency, t: Vector, alpha: real, p: Vector, j: nat): real
    requires j < |g| == |p| == |t|
  {
    EdgeIn(g, p, alpha, j, |g|) + alpha * t[j] + DanglingMass(g, p, alpha, |g|) * t[j]
  }

  function NextPrefix(g: Adjacency, t: Vector, alpha: real, p: Vector, m: nat): (r: Vector)
    requires m <= |g| == |p| == |t|
    ensures |r| == m
    ensures forall j :: 0 <= j < m ==> r[j] == NextAt(g, t, alpha, p, j)
  {
    if m == 0 then [] else NextPrefix(g, t, alpha, p, m - 1) + [NextAt(g, t, alpha, p, m - 1)]
  }

  function Next(g: Adjacency, t: Vector, alpha: real, p: Vector): (r: Vector)
    requires |g| == |p| == |t|
    ensures |r| == |g|
  {
    NextPrefix(g, t, alpha, p, |g|)
  }

  /** The k-th iterate, starting from the teleport vector. */
  function Iterate(g: Adjacency, t: Vector, alpha: real, k: nat): (r: Vector)
    requires |g| == |t|
    ensures |r| == |g|
  {
    if k == 0 then t else Next(g, t, alpha, Iterate(g, t, alpha, k - 1))
  }

  // ----- Products, kept away from the solver: each fact about them is a lemma

  function Times(x: real, y: real): real {
    x * y
  }

  lemma TimesAdd(c: real, x: real, y: real)
    ensures Times(c, x + y) == Times(c, x) + Times(c, y)
    ensures Times(x + y, c) == Times(x, c) + Times(y, c)
  {
  }

  lemma TimesUnits(x: real)
    ensures Times(x, 0.0) == Times(0.0, x) == 0.0
    ensures Times(x, 1.0) == Times(1.0, x) == x
  {
  }

  lemma TimesAssociates(x: real, y: real, z: real)
    ensures Times(Times(x, y), z) == Times(x, Times(y, z))
  {
  }

  lemma TimesAtMost(c: real, x: real, y: real)
    requires c >= 0.0 && x <= y
    ensures Times(c, x) <= Times(c, y) && Times(x, c) <= Times(y, c)
  {
  }

  lemma TimesAbs(x: real, y: real, r: real)
    requires r >= 0.0
    ensures Abs(Times(x, r) - Times(y, r)) == Times(Abs(x - y), r)
    ensures Abs(Times(r, x) - Times(r, y)) == Times(r, Abs(x - y))
  {
    hide Times;
    TimesCommutes(x, r);
    TimesCommutes(y, r);
    TimesCommutes(Abs(x - y), r);
    TimesUnits(r);
    if x >= y {
      TimesAdd(r, x - y, y);
      TimesAtMost(r, 0.0, x - y);
    } else {
      TimesAdd(r, y - x, x);
      TimesAtMost(r, 0.0, y - x);
    }
  }

  lemma TimesCommutes(x: real, y: real)
    ensures Times(x, y) == Times(y, x)
  {
  }

  // ----- The iteration as a stochastic matrix

  /** The share of node i's mass that goes to j when no teleport happens. */
  function Share(g: Adjacency, t: Vector, i: nat, j: nat): real
    requires i < |g| == |t| && j < |t|
  {
    if OutWeight(g, i) > 0.0 then RowTo(g[i], |g[i]|, j) / OutWeight(g, i) else t[j]
  }

  function Flow(g: Adjacency, t: Vector, p: Vector, j: nat, n: nat): real
    requires n <= |g| == |p| == |t| && j < |t|
  {
    if n == 0 then 0.0 else Flow(g, t, p, j, n - 1) + Times(p[n - 1], Share(g, t, n - 1, j))
  }

  /** One node's terms in `EdgeIn` and `DanglingMass`. */
  lemma EdgeInUnfolds(g: Adjacency, t: Vector, p: Vector, alpha: real, j: nat, n: nat)
    requires 0 < n <= |g| == |p| == |t| && j < |t| && p[n - 1] >= 0.0
    ensures var held := Times(1.0 - alpha, p[n - 1]);
            var dangling := OutWeight(g, n - 1) <= 0.0;
            && EdgeIn(g, p, alpha, j, n)
               == EdgeIn(g, p, alpha, j, n - 1) + (if dangling then 0.0 else Times(held, Share(g, t, n - 1, j)))
            && DanglingMass(g, p, alpha, n) == DanglingMass(g, p, alpha, n - 1) + (if dangling then held else 0.0)
  {
    hide RowTo, RowWeight;
  }

  lemma {:induction false} EdgesAndDanglingFlow(g: Adjacency, t: Vector, alpha: real, p: Vector, j: nat, n: nat)
    requires n <= |g| == |p| == |t| && j < |t| && NonNegative(p)
    ensures EdgeIn(g, p, alpha, j, n) + Times(DanglingMass(g, p, alpha, n), t[j])
         == Times(1.0 - alpha, Flow(g, t, p, j, n))
  {
    hide Times, EdgeIn, DanglingMass;
    if n == 0 {
      EmptyMasses(g, p, alpha, j);
      TimesUnits(t[j]);
      TimesUnits(1.0 - alpha);
    } else {
      EdgesAndDanglingFlow(g, t, alpha, p, j, n - 1);
      EdgeInUnfolds(g, t, p, alpha, j, n);
      var x, share := p[n - 1], Share(g, t, n - 1, j);
      TimesAdd(1.0 - alpha, Flow(g, t, p, j, n - 1), Times(x, share));
      TimesAssociates(1.0 - alpha, x, share);
      TimesAdd(t[j], DanglingMass(g, p, alpha, n - 1), Times(1.0 - alpha, x));
    }
  }

  lemma EmptyMasses(g: Adjacency, p: Vector, alpha: real, j: nat)
    requires |g| == |p|
    ensures EdgeIn(g, p, alpha, j, 0) == 0.0 == DanglingMass(g, p, alpha, 0)
  {
  }

  lemma NextIsFlow(g: Adjacency, t: Vector, alpha: real, p: Vector, j: nat)
    requires j < |g| == |p| == |t| && NonNegative(p)
    ensures NextAt(g, t, alpha, p, j) == Times(1.0 - alpha, Flow(g, t, p, j, |g|)) + Times(alpha, t[j])
  {
    EdgesAndDanglingFlow(g, t, alpha, p, j, |g|);
    NextAtProducts(g, t, alpha, p, j);
    hide EdgeIn, DanglingMass, Times, NextAt, Flow;
  }

  lemma NextAtProducts(g: Adjacency, t: Vector, alpha: real, p: Vector, j: nat)
    requires j < |g| == |p| == |t|
    ensures NextAt(g, t, alpha, p, j)
         == EdgeIn(g, p, alpha, j, |g|) + Times(alpha, t[j]) + Times(DanglingMass(g, p, alpha, |g|), t[j])
  {
    hide EdgeIn, DanglingMass;
  }

  // ----- Rows of the matrix sum to one

  function ColumnSum(row: seq<Arc>, k: nat, m: nat): real
    requires k <= |row|
  {
    if m == 0 then 0.0 else ColumnSum(row, k, m - 1) + RowTo(row, k, m - 1)
  }

  lemma {:induction false} ColumnSumStep(row: seq<Arc>, k: nat, m: nat)
    requires 0 < k <= |row|
    ensures ColumnSum(row, k, m)
         == ColumnSum(row, k - 1, m) + (if row[k - 1].target < m then row[k - 1].weight else 0.0)
  {
    if m > 0 {
      ColumnSumStep(row, k, m - 1);
    }
  }

  lemma {:induction false} EmptyColumns(row: seq<Arc>, m: nat)
    ensures ColumnSum(row, 0, m) == 0.0
  {
    if m > 0 {
      EmptyColumns(row, m - 1);
    }
  }

  lemma {:induction false} ColumnSumIsRowWeight(row: seq<Arc>, k: nat, m: nat)
    requires k <= |row| && forall i :: 0 <= i < |row| ==> row[i].target < m
    ensures ColumnSum(row, k, m) == RowWeight(row, k)
  {
    if k == 0 {
      EmptyColumns(row, m);
    } else {
      ColumnSumStep(row, k, m);
      ColumnSumIsRowWeight(row, k - 1, m);
    }
  }

  function ShareSum(g: Adjacency, t: Vector, i: nat, m: nat): real
    requires i < |g| == |t| && m <= |t|
  {
    if m == 0 then 0.0 else ShareSum(g, t, i, m - 1) + Share(g, t, i, m - 1)
  }

  lemma DivideSum(x: real, y: real, w: real)
    requires w > 0.0
    ensures (x + y) / w == x / w + y / w
  {
  }

  lemma {:induction false} ShareSumPrefix(g: Adjacency, t: Vector, i: nat, m: nat)
    requires i < |g| == |t| && m <= |t|
    ensures ShareSum(g, t, i, m)
         == if OutWeight(g, i) > 0.0 then ColumnSum(g[i], |g[i]|, m) / OutWeight(g, i) else Sum(t, m)
  {
    hide OutWeight, RowTo;
    if m > 0 {
      ShareSumPrefix(g, t, i, m - 1);
      if OutWeight(g, i) > 0.0 {
        DivideSum(ColumnSum(g[i], |g[i]|, m - 1), RowTo(g[i], |g[i]|, m - 1), OutWeight(g, i));
      }
    }
  }

  lemma ShareSumIs(g: Adjacency, t: Vector, i: nat)
    requires i < |g| == |t| && WellFormed(g)
    ensures ShareSum(g, t, i, |t|) == if OutWeight(g, i) > 0.0 then 1.0 else Sum(t, |t|)
  {
    ShareSumPrefix(g, t, i, |t|);
    ColumnSumIsRowWeight(g[i], |g[i]|, |t|);
  }

  lemma {:induction false} RowToNonNegative(row: seq<Arc>, k: nat, j: nat)
    requires k <= |row| && forall i :: 0 <= i < |row| ==> row[i].weight >= 0.0
    ensures RowTo(row, k, j) >= 0.0
  {
    if k > 0 {
      RowToNonNegative(row, k - 1, j);
    }
  }

  lemma ShareNonNegative(g: Adjacency, t: Vector, i: nat, j: nat)
    requires i < |g| == |t| && j < |t| && WellFormed(g) && NonNegative(t)
    ensures Share(g, t, i, j) >= 0.0
  {
    RowToNonNegative(g[i], |g[i]|, j);
  }

  // ----- Mass

  function FlowSum(g: Adjacency, t: Vector, p: Vector, m: nat, n: nat): real
    requires n <= |g| == |p| == |t| && m <= |t|
  {
    if m == 0 then 0.0 else FlowSum(g, t, p, m - 1, n) + Flow(g, t, p, m - 1, n)
  }

  lemma {:induction false} FlowSumStep(g: Adjacency, t: Vector, p: Vector, m: nat, n: nat)
    requires 0 < n <= |g| == |p| == |t| && m <= |t|
    ensures FlowSum(g, t, p, m, n) == FlowSum(g, t, p, m, n - 1) + Times(p[n - 1], ShareSum(g, t, n - 1, m))
  {
    hide Times, Share;
    TimesUnits(p[n - 1]);
    if m > 0 {
      FlowSumStep(g, t, p, m - 1, n);
      TimesAdd(p[n - 1], ShareSum(g, t, n - 1, m - 1), Share(g, t, n - 1, m - 1));
    }
  }

  lemma {:induction false} FlowSumEmpty(g: Adjacency, t: Vector, p: Vector, m: nat)
    requires |g| == |p| == |t| && m <= |t|
    ensures FlowSum(g, t, p, m, 0) == 0.0
  {
    if m > 0 {
      FlowSumEmpty(g, t, p, m - 1);
    }
  }

  /** With a full teleport vector no mass is lost; with a light one none is gained. */
  lemma {:induction false} FlowKeepsMass(g: Adjacency, t: Vector, p: Vector, n: nat)
    requires n <= |g| == |p| == |t| && WellFormed(g) && NonNegative(p) && Sum(t, |t|) <= 1.0
    ensures FlowSum(g, t, p, |t|, n) <= Sum(p, n)
    ensures Sum(t, |t|) == 1.0 ==> FlowSum(g, t, p, |t|, n) == Sum(p, n)
  {
    hide Times, WellFormed, FlowSum, ShareSum, OutWeight;
    if n == 0 {
      FlowSumEmpty(g, t, p, |t|);
    } else {
      FlowSumStep(g, t, p, |t|, n);
      FlowKeepsMass(g, t, p, n - 1);
      ShareSumIs(g, t, n - 1);
      TimesAtMost(p[n - 1], ShareSum(g, t, n - 1, |t|), 1.0);
      TimesUnits(p[n - 1]);
    }
  }

  lemma {:induction false} FlowNonNegative(g: Adjacency, t: Vector, p: Vector, j: nat, n: nat)
    requires n <= |g| == |p| == |t| && j < |t| && WellFormed(g) && NonNegative(p) && NonNegative(t)
    ensures Flow(g, t, p, j, n) >= 0.0
  {
    hide Times, WellFormed, Share;
    if n > 0 {
      FlowNonNegative(g, t, p, j, n - 1);
      ShareNonNegative(g, t, n - 1, j);
      TimesUnits(p[n - 1]);
      TimesAtMost(p[n - 1], 0.0, Share(g, t, n - 1, j));
    }
  }

  lemma {:induction false} NextSum(g: Adjacency, t: Vector, alpha: real, p: Vector, m: nat)
    requires m <= |g| == |p| == |t| && NonNegative(p)
    ensures Sum(Next(g, t, alpha, p), m)
         == Times(1.0 - alpha, FlowSum(g, t, p, m, |g|)) + Times(alpha, Sum(t, m))
  {
    hide Times, NextAt, Flow;
    TimesUnits(alpha);
    TimesUnits(1.0 - alpha);
    if m > 0 {
      NextSum(g, t, alpha, p, m - 1);
      NextIsFlow(g, t, alpha, p, m - 1);
      TimesAdd(1.0 - alpha, FlowSum(g, t, p, m - 1, |g|), Flow(g, t, p, m - 1, |g|));
      TimesAdd(alpha, Sum(t, m - 1), t[m - 1]);
    }
  }

  lemma {:induction false} NextNonNegative(g: Adjacency, t: Vector, alpha: real, p: Vector, j: nat)
    requires j < |g| == |p| == |t| && WellFormed(g) && 0.0 <= alpha <= 1.0
    requires NonNegative(p) && NonNegative(t)
    ensures NextAt(g, t, alpha, p, j) >= 0.0
  {
    hide Times, NextAt, Flow, WellFormed;
    NextIsFlow(g, t, alpha, p, j);
    FlowNonNegative(g, t, p, j, |g|);
    TimesAtMost(1.0 - alpha, 0.0, Flow(g, t, p, j, |g|));
    TimesAtMost(alpha, 0.0, t[j]);
    TimesUnits(alpha);
    TimesUnits(1.0 - alpha);
  }

  /** A step keeps every score non-negative, and total mass at exactly 1, dangling nodes included. */
  lemma StepKeepsDistribution(g: Adjacency, t: Vector, alpha: real, p: Vector)
    requires |g| == |p| == |t| && WellFormed(g) && 0.0 <= alpha <= 1.0
    requires NonNegative(p) && NonNegative(t) && Sum(t, |t|) <= 1.0
    ensures NonNegative(Next(g, t, alpha, p))
    ensures Sum(t, |t|) == Sum(p, |p|) == 1.0 ==> Sum(Next(g, t, alpha, p), |g|) == 1.0
    ensures Sum(p, |p|) <= Sum(t, |t|) ==> Sum(Next(g, t, alpha, p), |g|) <= Sum(t, |t|)
  {
    hide Flow, FlowSum, NextAt, Sum, Times, WellFormed;
    forall j | 0 <= j < |g|
      ensures Next(g, t, alpha, p)[j] >= 0.0
    {
      NextNonNegative(g, t, alpha, p, j);
    }
    NextSum(g, t, alpha, p, |g|);
    FlowKeepsMass(g, t, p, |g|);
    var flow, mass := FlowSum(g, t, p, |t|, |g|), Sum(t, |t|);
    TimesAdd(mass, 1.0 - alpha, alpha);
    TimesUnits(mass);
    if flow <= mass {
      TimesAtMost(1.0 - alpha, flow, mass);
    }
  }

  // ----- Contraction

  /** The flow of |p - q|. */
  function GapFlow(g: Adjacency, t: Vector, p: Vector, q: Vector, j: nat, n: nat): real
    requires n <= |g| == |p| == |t| == |q| && j < |t|
  {
    if n == 0 then 0.0
    else GapFlow(g, t, p, q, j, n - 1) + Times(Abs(p[n - 1] - q[n - 1]), Share(g, t, n - 1, j))
  }

  lemma {:induction false} FlowGap(g: Adjacency, t: Vector, p: Vector, q: Vector, j: nat, n: nat)
    requires n <= |g| == |p| == |t| == |q| && j < |t| && WellFormed(g) && NonNegative(t)
    ensures Abs(Flow(g, t, p, j, n) - Flow(g, t, q, j, n)) <= GapFlow(g, t, p, q, j, n)
  {
    hide Times, Share, WellFormed;
    if n > 0 {
      FlowGap(g, t, p, q, j, n - 1);
      ShareNonNegative(g, t, n - 1, j);
      TimesAbs(p[n - 1], q[n - 1], Share(g, t, n - 1, j));
    }
  }

  function GapSum(g: Adjacency, t: Vector, p: Vector, q: Vector, m: nat, n: nat): real
    requires n <= |g| == |p| == |t| == |q| && m <= |t|
  {
    if m == 0 then 0.0 else GapSum(g, t, p, q, m - 1, n) + GapFlow(g, t, p, q, m - 1, n)
  }

  lemma {:induction false} GapSumStep(g: Adjacency, t: Vector, p: Vector, q: Vector, m: nat, n: nat)
    requires 0 < n <= |g| == |p| == |t| == |q| && m <= |t|
    ensures GapSum(g, t, p, q, m, n)
         == GapSum(g, t, p, q, m, n - 1) + Times(Abs(p[n - 1] - q[n - 1]), ShareSum(g, t, n - 1, m))
  {
    hide Times, Share;
    var gap := Abs(p[n - 1] - q[n - 1]);
    TimesUnits(gap);
    if m > 0 {
      GapSumStep(g, t, p, q, m - 1, n);
      TimesAdd(gap, ShareSum(g, t, n - 1, m - 1), Share(g, t, n - 1, m - 1));
    }
  }

  lemma {:induction false} GapSumEmpty(g: Adjacency, t: Vector, p: Vector, q: Vector, m: nat)
    requires |g| == |p| == |t| == |q| && m <= |t|
    ensures GapSum(g, t, p, q, m, 0) == 0.0
  {
    if m > 0 {
      GapSumEmpty(g, t, p, q, m - 1);
    }
  }

  lemma {:induction false} GapSumWithinDistance(g: Adjacency, t: Vector, p: Vector, q: Vector, n: nat)
    requires n <= |g| == |p| == |t| == |q| && WellFormed(g) && Sum(t, |t|) <= 1.0
    ensures GapSum(g, t, p, q, |t|, n) <= Distance(p, q, n)
  {
    hide Times, WellFormed, GapSum, ShareSum, OutWeight, Sum;
    if n == 0 {
      GapSumEmpty(g, t, p, q, |t|);
    } else {
      GapSumStep(g, t, p, q, |t|, n);
      GapSumWithinDistance(g, t, p, q, n - 1);
      ShareSumIs(g, t, n - 1);
      var gap := Abs(p[n - 1] - q[n - 1]);
      TimesAtMost(gap, ShareSum(g, t, n - 1, |t|), 1.0);
      TimesUnits(gap);
    }
  }

  lemma {:induction false} NextDistance(g: Adjacency, t: Vector, alpha: real, p: Vector, q: Vector, m: nat)
    requires m <= |g| == |p| == |t| == |q| && WellFormed(g) && 0.0 <= alpha <= 1.0
    requires NonNegative(p) && NonNegative(q) && NonNegative(t)
    ensures Distance(Next(g, t, alpha, p), Next(g, t, alpha, q), m)
         <= Times(1.0 - alpha, GapSum(g, t, p, q, m, |g|))
  {
    hide Times, NextAt, Flow, GapFlow, WellFormed;
    TimesUnits(1.0 - alpha);
    if m > 0 {
      NextDistance(g, t, alpha, p, q, m - 1);
      NextIsFlow(g, t, alpha, p, m - 1);
      NextIsFlow(g, t, alpha, q, m - 1);
      FlowGap(g, t, p, q, m - 1, |g|);
      var x, y, gap := Flow(g, t, p, m - 1, |g|), Flow(g, t, q, m - 1, |g|), GapFlow(g, t, p, q, m - 1, |g|);
      TimesAbs(x, y, 1.0 - alpha);
      TimesAtMost(1.0 - alpha, Abs(x - y), gap);
      TimesAdd(1.0 - alpha, GapSum(g, t, p, q, m - 1, |g|), gap);
    }
  }

  /** A step brings any two score vectors closer by the factor 1 - alpha in L1 distance. */
  lemma StepContracts(g: Adjacency, t: Vector, alpha: real, p: Vector, q: Vector)
    requires |g| == |p| == |t| == |q| && WellFormed(g) && 0.0 <= alpha <= 1.0
    requires NonNegative(p) && NonNegative(q) && NonNegative(t) && Sum(t, |t|) <= 1.0
    ensures Distance(Next(g, t, alpha, p), Next(g, t, alpha, q), |g|) <= Times(1.0 - alpha, Distance(p, q, |g|))
  {
    hide GapSum, Distance, Next, Sum, Times, WellFormed;
    NextDistance(g, t, alpha, p, q, |g|);
    GapSumWithinDistance(g, t, p, q, |g|);
    TimesAtMost(1.0 - alpha, GapSum(g, t, p, q, |g|, |g|), Distance(p, q, |g|));
  }
}
