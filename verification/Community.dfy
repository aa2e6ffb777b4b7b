/** Community detection in community.rs, with nodes numbered in the order of their sorted ids. */
module Community {
  import opened Commons
  import opened Graph
  import opened Sorting

  datatype Community = Community(id: nat, members: seq<nat>)

  type Membership = seq<nat>

  const MAX_PASSES := 8

  function Degree(g: Adjacency, node: nat): real
    requires node < |g|
  {
    RowWeight(g[node], |g[node]|)
  }

  function DegreeSum(g: Adjacency, n: nat): real
    requires n <= |g|
  {
    if n == 0 then 0.0 else DegreeSum(g, n - 1) + Degree(g, n - 1)
  }

  // ----- The gain of a move

  /** Weight of the first `k` arcs of a row that lead into community `c`. */
  function WeightInto(row: seq<Arc>, m: Membership, c: nat, k: nat): real
    requires k <= |row| && forall i :: 0 <= i < |row| ==> row[i].target < |m|
  {
    if k == 0 then 0.0
    else WeightInto(row, m, c, k - 1) + if m[row[k - 1].target] == c then row[k - 1].weight else 0.0
  }

  /** Total degree of community `c` among the first `n` nodes, leaving `node` out. */
  function TotalDegree(g: Adjacency, m: Membership, node: nat, c: nat, n: nat): real
    requires n <= |g| == |m|
  {
    if n == 0 then 0.0
    else TotalDegree(g, m, node, c, n - 1) + if n - 1 != node && m[n - 1] == c then Degree(g, n - 1) else 0.0
  }

  function GainFormula(weight: real, sigma: real, degree: real, total: real): real
    requires total != 0.0
  {
    weight / total - (sigma * degree) / (2.0 * total * total)
  }

  /** What the source takes for the change of modularity when `node` joins community `c`. */
  function Gain(g: Adjacency, m: Membership, total: real, node: nat, c: nat): real
    requires node < |g| == |m| && Declared(g) && total != 0.0
  {
    GainFormula(WeightInto(g[node], m, c, |g[node]|), TotalDegree(g, m, node, c, |g|), Degree(g, node), total)
  }

  /** What the gain weighs: the links into the community against those expected from the degrees alone. */
  lemma GainIs(weight: real, sigma: real, degree: real, total: real)
    requires total != 0.0
    ensures GainFormula(weight, sigma, degree, total) * (2.0 * total * total) == 2.0 * weight * total - sigma * degree
  {
    var square := SquareIsPositive(total);
    Undivided(sigma * degree, square);
    Undivided(weight, total);
    assert weight / total * square == 2.0 * (weight / total * total) * total;
  }

  lemma SquareIsPositive(total: real) returns (square: real)
    requires total != 0.0
    ensures square == 2.0 * total * total && square > 0.0
  {
    var double := total + total;
    square := double * total;
    assert double == 2.0 * total;
    if total > 0.0 {
      ProductIsPositive(double, total);
    } else {
      ProductIsPositive(-double, -total);
      OppositeSigns(double, total);
    }
  }

  lemma OppositeSigns(x: real, y: real)
    ensures (-x) * (-y) == x * y
  {
  }

  lemma ProductIsPositive(x: real, y: real)
    requires x > 0.0 && y > 0.0
    ensures x * y > 0.0
  {
  }

  lemma Undivided(x: real, y: real)
    requires y != 0.0
    ensures x / y * y == x
  {
  }

  /** The communities of the first `k` neighbours. */
  function Candidates(row: seq<Arc>, m: Membership, k: nat): set<nat>
    requires k <= |row| && forall i :: 0 <= i < |row| ==> row[i].target < |m|
  {
    if k == 0 then {} else Candidates(row, m, k - 1) + {m[row[k - 1].target]}
  }

  /**
   `best` is the choice made for `node`: the neighbouring community of greatest positive gain, the
   smallest such on a tie, or the node's own community when no move gains.
   */
  ghost predicate IsBestMove(g: Adjacency, m: Membership, total: real, node: nat, best: nat)
    requires node < |g| == |m| && Declared(g) && total != 0.0
  {
    var others := Candidates(g[node], m, |g[node]|) - {m[node]};
    if best == m[node] then forall c :: c in others ==> Gain(g, m, total, node, c) <= 0.0
    else
      && best in others && Gain(g, m, total, node, best) > 0.0
      && forall c :: c in others ==>
           || Gain(g, m, total, node, c) < Gain(g, m, total, node, best)
           || (Gain(g, m, total, node, c) == Gain(g, m, total, node, best) && best <= c)
  }

  /** The choice does not depend on any iteration order: it is unique. */
  lemma BestMoveIsUnique(g: Adjacency, m: Membership, total: real, node: nat, a: nat, b: nat)
    requires node < |g| == |m| && Declared(g) && total != 0.0
    requires IsBestMove(g, m, total, node, a) && IsBestMove(g, m, total, node, b)
    ensures a == b
  {
    hide Gain;
    if a != m[node] {
      assert Gain(g, m, total, node, a) > 0.0;
    }
  }

  method WeightsByCommunity(row: seq<Arc>, m: Membership) returns (toComm: map<nat, real>)
    requires forall i :: 0 <= i < |row| ==> row[i].target < |m|
    ensures toComm.Keys == Candidates(row, m, |row|)
    ensures forall c :: c in toComm ==> toComm[c] == WeightInto(row, m, c, |row|)
  {
    toComm := map[];
    for k := 0 to |row|
      invariant toComm.Keys == Candidates(row, m, k)
      invariant forall c :: c in toComm ==> toComm[c] == WeightInto(row, m, c, k)
      invariant forall c :: c !in toComm ==> WeightInto(row, m, c, k) == 0.0
    {
      var c := m[row[k].target];
      toComm := toComm[c := (if c in toComm then toComm[c] else 0.0) + row[k].weight];
    }
  }

  method DegreesByCommunity(g: Adjacency, m: Membership, node: nat) returns (sigmaTot: map<nat, real>)
    requires |g| == |m|
    ensures forall c :: (if c in sigmaTot then sigmaTot[c] else 0.0) == TotalDegree(g, m, node, c, |g|)
  {
    sigmaTot := map[];
    for n := 0 to |g|
      invariant forall c :: (if c in sigmaTot then sigmaTot[c] else 0.0) == TotalDegree(g, m, node, c, n)
    {
      if n != node {
        var c := m[n];
        sigmaTot := sigmaTot[c := (if c in sigmaTot then sigmaTot[c] else 0.0) + Degree(g, n)];
      }
    }
  }

  method ChooseCommunity(g: Adjacency, m: Membership, total: real, node: nat) returns (best: nat)
    requires node < |g| == |m| && Declared(g) && total != 0.0
    ensures IsBestMove(g, m, total, node, best)
  {
    hide GainFormula;
    best := m[node];
    var bestGain := 0.0;
    var toComm := WeightsByCommunity(g[node], m);
    var sigmaTot := DegreesByCommunity(g, m, node);
    var cands := SortedElements(toComm.Keys);
    for i := 0 to |cands|
      invariant best == m[node] ==> bestGain == 0.0
      invariant best != m[node] ==> best in cands[..i] && bestGain > 0.0 && bestGain == Gain(g, m, total, node, best)
      invariant forall c :: c in cands[..i] && c != m[node] ==>
                  Gain(g, m, total, node, c) < bestGain
                  || (Gain(g, m, total, node, c) == bestGain && (best == m[node] || best <= c))
    {
      var cand := cands[i];
      assert cands[..i + 1] == cands[..i] + [cand];
      assert cand in cands && forall c :: c in cands[..i] ==> c < cand;
      if cand == m[node] {
        continue;
      }
      var sigma := if cand in sigmaTot then sigmaTot[cand] else 0.0;
      var gain := GainFormula(toComm[cand], sigma, Degree(g, node), total);
      assert gain == Gain(g, m, total, node, cand);
      if gain > bestGain {
        bestGain := gain;
        best := cand;
      }
    }
    assert cands[..|cands|] == cands;
  }

  // ----- Passes

  /** The communities in use. */
  ghost function Used(m: Membership): set<nat> {
    set c | c in m
  }

  lemma SubsetSize(a: set<nat>, b: set<nat>)
    requires a <= b
    ensures |a| <= |b|
    decreases a
  {
    if a != {} {
      var x :| x in a;
      SubsetSize(a - {x}, b - {x});
    }
  }

  lemma {:induction false} CandidatesAreUsed(row: seq<Arc>, m: Membership, k: nat)
    requires k <= |row| && forall i :: 0 <= i < |row| ==> row[i].target < |m|
    ensures Candidates(row, m, k) <= Used(m)
  {
    if k > 0 {
      CandidatesAreUsed(row, m, k - 1);
    }
  }

  /** A move never brings a community into use, so their number never grows. */
  lemma MoveAddsNoCommunity(g: Adjacency, m: Membership, total: real, node: nat, best: nat)
    requires node < |g| == |m| && Declared(g) && total != 0.0
    requires IsBestMove(g, m, total, node, best)
    ensures Used(m[node := best]) <= Used(m) && |Used(m[node := best])| <= |Used(m)|
  {
    CandidatesAreUsed(g[node], m, |g[node]|);
    assert best in Used(m);
    SubsetSize(Used(m[node := best]), Used(m));
  }

  /** No node can gain by moving. */
  ghost predicate LocallyOptimal(g: Adjacency, m: Membership, total: real)
    requires |g| == |m| && Declared(g) && total != 0.0
  {
    forall node :: 0 <= node < |g| ==> IsBestMove(g, m, total, node, m[node])
  }

  /** Node `i`'s turn: from `trace[i]` to `trace[i + 1]` it takes its best move. */
  ghost predicate TurnAt(g: Adjacency, total: real, trace: seq<Membership>, i: nat)
    requires Declared(g) && total != 0.0 && i < |g| && i + 1 < |trace|
  {
    && |trace[i]| == |g| && |trace[i + 1]| == |g|
    && IsBestMove(g, trace[i], total, i, trace[i + 1][i])
    && trace[i + 1] == trace[i][i := trace[i + 1][i]]
  }

  /** One pass: every node in order takes its best move against what the earlier ones left. */
  ghost predicate IsPass(g: Adjacency, total: real, trace: seq<Membership>)
    requires Declared(g) && total != 0.0
  {
    && |trace| == |g| + 1 && |trace[0]| == |g|
    && forall i :: 0 <= i < |g| ==> TurnAt(g, total, trace, i)
  }

  ghost predicate Changes(trace: seq<Membership>, i: nat) {
    i + 1 < |trace| && trace[i] != trace[i + 1]
  }

  ghost predicate Moves(trace: seq<Membership>) {
    exists i: nat :: Changes(trace, i)
  }

  /** What a pass does is settled by where it starts. */
  lemma {:induction false} PassIsDetermined(g: Adjacency, total: real, a: seq<Membership>, b: seq<Membership>, k: nat)
    requires Declared(g) && total != 0.0 && IsPass(g, total, a) && IsPass(g, total, b) && a[0] == b[0]
    requires k <= |g|
    ensures a[..k + 1] == b[..k + 1]
  {
    hide IsBestMove;
    if k > 0 {
      PassIsDetermined(g, total, a, b, k - 1);
      assert a[k - 1] == a[..k][k - 1] && b[k - 1] == b[..k][k - 1];
      assert TurnAt(g, total, a, k - 1) && TurnAt(g, total, b, k - 1);
      BestMoveIsUnique(g, a[k - 1], total, k - 1, a[k][k - 1], b[k][k - 1]);
      assert a[..k + 1] == a[..k] + [a[k]] && b[..k + 1] == b[..k] + [b[k]];
    }
  }

  lemma TraceGrows(g: Adjacency, total: real, trace: seq<Membership>, m: Membership, n: nat)
    requires Declared(g) && total != 0.0 && |trace| == n + 1 && n < |g|
    requires forall i :: 0 <= i < n ==> TurnAt(g, total, trace, i)
    requires |trace[n]| == |g| && n < |m| && m == trace[n][n := m[n]] && IsBestMove(g, trace[n], total, n, m[n])
    ensures forall i :: 0 <= i < n + 1 ==> TurnAt(g, total, trace + [m], i)
  {
    hide IsBestMove;
    forall i | 0 <= i < n
      ensures TurnAt(g, total, trace + [m], i)
    {
      assert TurnAt(g, total, trace, i);
    }
  }

  lemma MovesGrow(trace: seq<Membership>, m: Membership)
    requires trace != []
    ensures Moves(trace + [m]) <==> Moves(trace) || m != trace[|trace| - 1]
  {
    if i: nat :| Changes(trace, i) {
      assert Changes(trace + [m], i);
    }
    if m != trace[|trace| - 1] {
      assert Changes(trace + [m], |trace| - 1);
    }
    if i: nat :| Changes(trace + [m], i) {
      assert i < |trace| - 1 ==> Changes(trace, i);
    }
  }

  method Pass(g: Adjacency, before: Membership, total: real)
    returns (m: Membership, moved: bool, ghost trace: seq<Membership>)
    requires |g| == |before| && Declared(g) && total != 0.0
    ensures IsPass(g, total, trace) && trace[0] == before && trace[|g|] == m
    ensures moved <==> Moves(trace)
    ensures |m| == |g| && Used(m) <= Used(before) && |Used(m)| <= |Used(before)|
    ensures !moved ==> m == before && LocallyOptimal(g, m, total)
  {
    hide Gain, IsBestMove, TurnAt, Moves;
    m, moved, trace := before, false, [before];
    assert !Moves(trace) by {
      NoMovesYet(before);
    }
    for node := 0 to |g|
      invariant |m| == |g| && Used(m) <= Used(before)
      invariant |trace| == node + 1 && trace[0] == before && trace[node] == m
      invariant forall i :: 0 <= i < node ==> TurnAt(g, total, trace, i)
      invariant moved <==> Moves(trace)
      invariant !moved ==> m == before
      invariant !moved ==> forall v :: 0 <= v < node ==> IsBestMove(g, m, total, v, m[v])
    {
      var cur := m[node];
      var best := cur;
      if g[node] == [] {
        StaysAlone(g, m, total, node);
      } else {
        best := ChooseCommunity(g, m, total, node);
      }
      TraceGrows(g, total, trace, m[node := best], node);
      MovesGrow(trace, m[node := best]);
      trace := trace + [m[node := best]];
      if best != cur {
        MoveAddsNoCommunity(g, m, total, node, best);
        m := m[node := best];
        moved := true;
      }
    }
    SubsetSize(Used(m), Used(before));
  }

  lemma NoMovesYet(m: Membership)
    ensures !Moves([m])
  {}

  lemma StaysAlone(g: Adjacency, m: Membership, total: real, node: nat)
    requires node < |g| == |m| && Declared(g) && total != 0.0 && g[node] == []
    ensures IsBestMove(g, m, total, node, m[node])
  {}

  /** Pass after pass from every node alone, until one moves nothing or the limit is reached. */
  ghost predicate IsRun(g: Adjacency, total: real, rounds: seq<seq<Membership>>, settled: Membership)
    requires Declared(g) && total != 0.0
  {
    && 0 < |rounds| <= 8
    && (forall k :: 0 <= k < |rounds| ==> IsPass(g, total, rounds[k]))
    && (forall v :: 0 <= v < |g| ==> rounds[0][0][v] == v)
    && (forall k :: 0 <= k < |rounds| - 1 ==> Moves(rounds[k]) && Follows(rounds, k))
    && (Moves(rounds[|rounds| - 1]) ==> |rounds| == 8)
    && rounds[|rounds| - 1] != [] && settled == rounds[|rounds| - 1][|g|]
  }

  ghost predicate Follows(rounds: seq<seq<Membership>>, k: nat) {
    k + 1 < |rounds| && rounds[k] != [] && rounds[k + 1] != [] && rounds[k + 1][0] == rounds[k][|rounds[k]| - 1]
  }

  lemma SameStart(g: Adjacency, total: real, a: seq<Membership>, b: seq<Membership>)
    requires Declared(g) && total != 0.0 && IsPass(g, total, a) && IsPass(g, total, b) && a[0] == b[0]
    ensures a == b
  {
    hide IsBestMove, TurnAt;
    PassIsDetermined(g, total, a, b, |g|);
    assert a[..|g| + 1] == a && b[..|g| + 1] == b;
  }

  lemma {:induction false} RoundsAgree(g: Adjacency, total: real, a: seq<seq<Membership>>, x: Membership,
                                       b: seq<seq<Membership>>, y: Membership, k: nat)
    requires Declared(g) && total != 0.0 && IsRun(g, total, a, x) && IsRun(g, total, b, y)
    requires k < |a| && k < |b|
    ensures a[k] == b[k]
  {
    hide IsBestMove, TurnAt, Moves;
    assert IsPass(g, total, a[k]) && IsPass(g, total, b[k]);
    if k == 0 {
      assert a[0][0] == b[0][0];
    } else {
      RoundsAgree(g, total, a, x, b, y, k - 1);
      assert Follows(a, k - 1) && Follows(b, k - 1);
    }
    SameStart(g, total, a[k], b[k]);
  }

  lemma NotShorter(g: Adjacency, total: real, a: seq<seq<Membership>>, x: Membership,
                   b: seq<seq<Membership>>, y: Membership)
    requires Declared(g) && total != 0.0 && IsRun(g, total, a, x) && IsRun(g, total, b, y)
    ensures |a| >= |b|
  {
    hide IsPass, Moves, Follows;
    if |a| < |b| {
      RoundsAgree(g, total, a, x, b, y, |a| - 1);
    }
  }

  /** The graph determines every pass of a run and the membership it ends with. */
  lemma RunIsDetermined(g: Adjacency, total: real, a: seq<seq<Membership>>, x: Membership,
                        b: seq<seq<Membership>>, y: Membership)
    requires Declared(g) && total != 0.0 && IsRun(g, total, a, x) && IsRun(g, total, b, y)
    ensures a == b && x == y
  {
    hide IsPass, Moves, Follows;
    NotShorter(g, total, a, x, b, y);
    NotShorter(g, total, b, y, a, x);
    forall k | 0 <= k < |a|
      ensures a[k] == b[k]
    {
      RoundsAgree(g, total, a, x, b, y, k);
    }
  }

  // ----- Grouping and renumbering

  /** The members of community `c`. */
  ghost function MembersOf(m: Membership, c: nat): set<nat> {
    set v: nat | 0 <= v < |m| && m[v] == c
  }

  ghost predicate HasId(comms: seq<Community>, c: nat) {
    exists i :: 0 <= i < |comms| && comms[i].id == c
  }

  /** One entry per community in use, each with its sorted members. */
  ghost predicate IsGrouping(comms: seq<Community>, m: Membership) {
    && (forall i, j :: 0 <= i < j < |comms| ==> comms[i].id != comms[j].id)
    && (forall c :: c in Used(m) <==> HasId(comms, c))
    && forall i :: 0 <= i < |comms| ==> IsGroup(comms[i], m)
  }

  ghost predicate IsGroup(c: Community, m: Membership) {
    Ascending(c.members) && forall v :: v in c.members <==> v in MembersOf(m, c.id)
  }

  method GroupOf(m: Membership, c: nat) returns (members: seq<nat>)
    ensures IsGroup(Community(c, members), m)
  {
    members := [];
    for v := 0 to |m|
      invariant Ascending(members) && forall x :: x in members <==> 0 <= x < v && m[x] == c
    {
      if m[v] == c {
        assert forall i :: 0 <= i < |members| ==> members[i] in members;
        members := members + [v];
      }
    }
  }

  /** The source walks a hash map, so the groups come in any order. */
  method BuildCommunities(m: Membership) returns (comms: seq<Community>)
    ensures IsGrouping(comms, m)
  {
    comms := [];
    var rest := set c | c in m;
    while rest != {}
      invariant rest <= Used(m)
      invariant forall i, j :: 0 <= i < j < |comms| ==> comms[i].id != comms[j].id
      invariant forall c :: c in Used(m) <==> c in rest || HasId(comms, c)
      invariant forall i :: 0 <= i < |comms| ==> comms[i].id !in rest && IsGroup(comms[i], m)
      decreases rest
    {
      var c :| c in rest;
      var members := GroupOf(m, c);
      HasIdAppend(comms, Community(c, members));
      comms := comms + [Community(c, members)];
      rest := rest - {c};
    }
  }

  lemma HasIdAppend(comms: seq<Community>, c: Community)
    ensures forall id :: HasId(comms + [c], id) <==> HasId(comms, id) || id == c.id
  {
    forall id
      ensures HasId(comms + [c], id) <==> HasId(comms, id) || id == c.id
    {
      var all := comms + [c];
      assert all[|comms|] == c;
      if i :| 0 <= i < |comms| && comms[i].id == id {
        assert all[i].id == id;
      }
    }
  }

  /**
   Ids are positions, sizes never increase, and a node's membership is exactly the community that
   lists it; hence the communities partition the nodes.
   */
  ghost predicate IsPartition(comms: seq<Community>, m: Membership) {
    && (forall c :: 0 <= c < |comms| ==> comms[c].id == c && comms[c].members != [] && Ascending(comms[c].members))
    && (forall c, d :: 0 <= c < d < |comms| ==> |comms[c].members| >= |comms[d].members|)
    && (forall v :: 0 <= v < |m| ==> m[v] < |comms|)
    && forall c, v :: 0 <= c < |comms| ==> (v in comms[c].members <==> 0 <= v < |m| && m[v] == c)
  }

  function Size(c: Community): real {
    |c.members| as real
  }

  method AssignIds(sorted: seq<Community>) returns (comms: seq<Community>, remap: map<nat, nat>)
    requires forall i, j :: 0 <= i < j < |sorted| ==> sorted[i].id != sorted[j].id
    ensures |comms| == |sorted| && forall k :: 0 <= k < |sorted| ==> comms[k] == sorted[k].(id := k)
    ensures forall k :: 0 <= k < |sorted| ==> sorted[k].id in remap && remap[sorted[k].id] == k
  {
    comms, remap := [], map[];
    for i := 0 to |sorted|
      invariant |comms| == i
      invariant forall k :: 0 <= k < i ==> comms[k] == sorted[k].(id := k)
      invariant forall k :: 0 <= k < i ==> sorted[k].id in remap && remap[sorted[k].id] == k
    {
      remap := remap[sorted[i].id := i];
      comms := comms + [sorted[i].(id := i)];
    }
  }

  method RewriteMembership(sorted: seq<Community>, m: Membership, remap: map<nat, nat>) returns (renamed: Membership)
    requires forall c :: c in Used(m) ==> HasId(sorted, c)
    requires forall k :: 0 <= k < |sorted| ==> sorted[k].id in remap && remap[sorted[k].id] == k
    ensures |renamed| == |m|
    ensures forall v :: 0 <= v < |m| ==> renamed[v] < |sorted| && sorted[renamed[v]].id == m[v]
  {
    renamed := [];
    for v := 0 to |m|
      invariant |renamed| == v
      invariant forall x :: 0 <= x < v ==> renamed[x] < |sorted| && sorted[renamed[x]].id == m[x]
    {
      assert m[v] in Used(m) && HasId(sorted, m[v]);
      renamed := renamed + [remap[m[v]]];
    }
  }

  method Renumber(before: seq<Community>, m: Membership) returns (comms: seq<Community>, renamed: Membership)
    requires IsGrouping(before, m)
    ensures |renamed| == |m| && IsPartition(comms, renamed)
    ensures |comms| == |Used(m)|
    ensures forall v, w :: 0 <= v < |m| && 0 <= w < |m| ==> (renamed[v] == renamed[w] <==> m[v] == m[w])
  {
    var sorted := SortDescending(Size, before);
    SortIsSorted(Size, before);
    GroupingPermutes(before, sorted, m);
    var remap;
    comms, remap := AssignIds(sorted);
    hide SortDescending, IsPartition, IsGroup, Descending;
    renamed := RewriteMembership(sorted, m, remap);
    RenamedPartition(sorted, m, comms, renamed);
    UsedCount(sorted, m);
    SameCommunity(sorted, m, renamed);
  }

  lemma SameCommunity(sorted: seq<Community>, m: Membership, renamed: Membership)
    requires |renamed| == |m| && forall i, j :: 0 <= i < j < |sorted| ==> sorted[i].id != sorted[j].id
    requires forall v :: 0 <= v < |m| ==> renamed[v] < |sorted| && sorted[renamed[v]].id == m[v]
    ensures forall v, w :: 0 <= v < |m| && 0 <= w < |m| ==> (renamed[v] == renamed[w] <==> m[v] == m[w])
  {
  }

  lemma GroupingPermutes(a: seq<Community>, b: seq<Community>, m: Membership)
    requires IsGrouping(a, m) && multiset(a) == multiset(b)
    ensures IsGrouping(b, m)
  {
    forall i | 0 <= i < |b|
      ensures b[i] in a && IsGroup(b[i], m)
    {
      assert b[i] in multiset(b);
      assert b[i] in a;
    }
    forall c: nat
      ensures HasId(a, c) <==> HasId(b, c)
    {
      if i :| 0 <= i < |a| && a[i].id == c {
        assert a[i] in multiset(b);
        assert a[i] in b;
      }
    }
    forall i, j | 0 <= i < j < |b|
      ensures b[i].id != b[j].id
    {
      DistinctIdsPermute(a, b, i, j);
    }
  }

  lemma DistinctIdsPermute(a: seq<Community>, b: seq<Community>, i: nat, j: nat)
    requires forall k, l :: 0 <= k < l < |a| ==> a[k].id != a[l].id
    requires multiset(a) == multiset(b) && i < j < |b|
    ensures b[i].id != b[j].id
  {
    assert b[i] in multiset(b) && b[j] in multiset(b);
    assert b[i] in a && b[j] in a;
    var k :| 0 <= k < |a| && a[k] == b[i];
    var l :| 0 <= l < |a| && a[l] == b[j];
    DistinctPermutes(a, b);
  }

  lemma RenamedPartition(sorted: seq<Community>, m: Membership, comms: seq<Community>, renamed: Membership)
    requires IsGrouping(sorted, m) && Descending(Size, sorted)
    requires |comms| == |sorted| && |renamed| == |m|
    requires forall k :: 0 <= k < |sorted| ==> comms[k] == sorted[k].(id := k)
    requires forall v :: 0 <= v < |m| ==> renamed[v] < |sorted| && sorted[renamed[v]].id == m[v]
    ensures IsPartition(comms, renamed)
  {
    forall c | 0 <= c < |comms|
      ensures comms[c].members != []
    {
      assert HasId(sorted, sorted[c].id);
      var v :| 0 <= v < |m| && m[v] == sorted[c].id;
      assert v in MembersOf(m, sorted[c].id);
    }
    forall c, d | 0 <= c < d < |comms|
      ensures |comms[c].members| >= |comms[d].members|
    {
      assert Size(sorted[c]) >= Size(sorted[d]);
    }
    forall c, v | 0 <= c < |comms|
      ensures v in comms[c].members <==> 0 <= v < |m| && renamed[v] == c
    {
      assert IsGroup(sorted[c], m);
    }
  }

  lemma {:induction false} UsedCount(comms: seq<Community>, m: Membership)
    requires IsGrouping(comms, m)
    ensures |comms| == |Used(m)|
  {
    var ids := set i | 0 <= i < |comms| :: comms[i].id;
    assert ids == Used(m);
    IdsCount(comms, |comms|);
  }

  lemma {:induction false} IdsCount(comms: seq<Community>, n: nat)
    requires n <= |comms| && forall i, j :: 0 <= i < j < |comms| ==> comms[i].id != comms[j].id
    ensures |set i | 0 <= i < n :: comms[i].id| == n
  {
    if n > 0 {
      IdsCount(comms, n - 1);
      var ids := set i | 0 <= i < n - 1 :: comms[i].id;
      assert (set i | 0 <= i < n :: comms[i].id) == ids + {comms[n - 1].id};
    }
  }

  // ----- The whole detection

  datatype Communities = Communities(communities: seq<Community>, membership: Membership)

  method Singletons(n: nat) returns (m: Membership)
    ensures |m| == n && forall v :: 0 <= v < n ==> m[v] == v
  {
    m := [];
    for v := 0 to n
      invariant |m| == v && forall x :: 0 <= x < v ==> m[x] == x
    {
      m := m + [v];
    }
  }

  /**
   Without weight every node stays alone, under its own number.  With weight the result is the
   outcome of the passes as a partition with dense ids, and unless the pass limit was reached no
   node could gain by moving.
   */
  method DetectCommunities(g: Adjacency)
    returns (r: Communities, ghost settled: Membership, ghost rounds: seq<seq<Membership>>)
    requires Declared(g)
    ensures |r.membership| == |settled| == |g| && IsDetected(r)
    ensures DegreeSum(g, |g|) == 0.0 ==>
              (forall v :: 0 <= v < |g| ==> r.membership[v] == v) && IsGrouping(r.communities, r.membership)
    ensures DegreeSum(g, |g|) != 0.0 ==>
              && IsRun(g, DegreeSum(g, |g|) / 2.0, rounds, settled)
              && IsPartition(r.communities, r.membership)
              && |r.communities| == |Used(settled)| <= |g|
              && (forall v, w :: 0 <= v < |g| && 0 <= w < |g| ==>
                    (r.membership[v] == r.membership[w] <==> settled[v] == settled[w]))
              && (|rounds| < 8 ==> LocallyOptimal(g, settled, DegreeSum(g, |g|) / 2.0))
  {
    hide IsBestMove, DegreeSum, TurnAt, Moves, IsGrouping, IsPartition, IsRun;
    var m := Singletons(|g|);
    var total := DegreeSum(g, |g|) / 2.0;
    rounds, settled := [], m;
    if total == 0.0 {
      var groups := BuildCommunities(m);
      return Communities(groups, m), m, [];
    }
    UsedAtMost(m);
    m, rounds := Passes(g, m, total);
    settled := m;
    var groups := BuildCommunities(m);
    var comms, renamed := Renumber(groups, m);
    r := Communities(comms, renamed);
  }

  /** The pass loop of `detect_communities`. */
  method Passes(g: Adjacency, start: Membership, total: real)
    returns (m: Membership, ghost rounds: seq<seq<Membership>>)
    requires Declared(g) && total != 0.0 && |start| == |g| && |Used(start)| <= |g|
    requires forall v :: 0 <= v < |g| ==> start[v] == v
    ensures |m| == |g| && IsRun(g, total, rounds, m) && |Used(m)| <= |g|
    ensures |rounds| < 8 ==> LocallyOptimal(g, m, total)
  {
    hide IsBestMove, TurnAt, Moves, LocallyOptimal;
    m, rounds := start, [];
    var moved, count := true, 0;
    while moved && count < MAX_PASSES
      invariant |m| == |g| && |Used(m)| <= |g| && count == |rounds| <= MAX_PASSES
      invariant rounds == [] ==> m == start && moved
      invariant rounds != [] ==> IsPass(g, total, rounds[|rounds| - 1]) && m == rounds[|rounds| - 1][|g|]
      invariant rounds != [] ==> (moved <==> Moves(rounds[|rounds| - 1])) && rounds[0] != [] && rounds[0][0] == start
      invariant forall k :: 0 <= k < |rounds| ==> IsPass(g, total, rounds[k])
      invariant forall k :: 0 <= k < |rounds| - 1 ==> Moves(rounds[k]) && Follows(rounds, k)
      invariant !moved ==> LocallyOptimal(g, m, total)
      decreases MAX_PASSES - count
    {
      ghost var trace;
      ghost var before := rounds;
      m, moved, trace := Pass(g, m, total);
      rounds := rounds + [trace];
      forall k | 0 <= k < |rounds| - 1
        ensures Moves(rounds[k]) && Follows(rounds, k)
      {
        assert k < |before| - 1 ==> Follows(before, k);
      }
      count := count + 1;
    }
  }

  lemma {:induction false} UsedAtMost(m: Membership)
    ensures |Used(m)| <= |m|
  {
    if m != [] {
      var k := |m| - 1;
      UsedAtMost(m[..k]);
      assert m == m[..k] + [m[k]];
      assert Used(m) == Used(m[..k]) + {m[k]};
    }
  }

  /** What detection returns: dense ids by size, or every node alone when there is no weight. */
  ghost predicate IsDetected(r: Communities) {
    IsPartition(r.communities, r.membership) || IsGrouping(r.communities, r.membership)
  }

  /** `c` is the one community that lists the node. */
  ghost predicate IsHome(r: Communities, v: nat, c: Community) {
    && c in r.communities && v in c.members
    && forall d :: d in r.communities && v in d.members ==> d == c
  }

  lemma FoundIsHome(r: Communities, v: nat, i: nat)
    requires IsDetected(r) && v < |r.membership|
    requires i < |r.communities| && r.communities[i].id == r.membership[v]
    ensures IsHome(r, v, r.communities[i])
  {
    hide Ascending;
    forall d | d in r.communities && v in d.members
      ensures d == r.communities[i]
    {
      var j :| 0 <= j < |r.communities| && r.communities[j] == d;
      assert IsGrouping(r.communities, r.membership) ==> IsGroup(r.communities[j], r.membership);
    }
    assert IsGrouping(r.communities, r.membership) ==> IsGroup(r.communities[i], r.membership);
  }

  lemma IdIsPresent(r: Communities, v: nat) returns (i: nat)
    requires IsDetected(r) && v < |r.membership|
    ensures i < |r.communities| && r.communities[i].id == r.membership[v]
  {
    if IsPartition(r.communities, r.membership) {
      i := r.membership[v];
    } else {
      assert r.membership[v] in Used(r.membership);
      assert HasId(r.communities, r.membership[v]);
      i :| i < |r.communities| && r.communities[i].id == r.membership[v];
    }
  }

  /**
   The first community with the id the membership gives the node.  On a detected result every
   declared node has one, and it is the only community that lists the node.
   */
  method ForNode(r: Communities, v: nat) returns (found: Option<Community>)
    ensures found.Some? ==> v < |r.membership| && found.value in r.communities && found.value.id == r.membership[v]
    ensures found.None? ==> v >= |r.membership| || !HasId(r.communities, r.membership[v])
    ensures IsDetected(r) ==> (found.Some? <==> v < |r.membership|)
    ensures IsDetected(r) && found.Some? ==> IsHome(r, v, found.value)
  {
    hide IsDetected, IsHome;
    if v >= |r.membership| {
      return None;
    }
    var cid := r.membership[v];
    for i := 0 to |r.communities|
      invariant forall k :: 0 <= k < i ==> r.communities[k].id != cid
    {
      if r.communities[i].id == cid {
        if IsDetected(r) {
          FoundIsHome(r, v, i);
        }
        return Some(r.communities[i]);
      }
    }
    if IsDetected(r) {
      var i := IdIsPresent(r, v);
    }
    found := None;
  }
}
