/** The index form of a weighted graph that ppr.rs works on: one list of arcs per node. */
module Graph {

  datatype Arc = Arc(target: nat, weight: real)

  type Adjacency = seq<seq<Arc>>

  /** Arcs lead to nodes of the graph. */
  ghost predicate Declared(g: Adjacency) {
    forall i, k :: 0 <= i < |g| && 0 <= k < |g[i]| ==> g[i][k].target < |g|
  }

  /** Arcs lead to nodes of the graph and carry non-negative weights. */
  ghost predicate WellFormed(g: Adjacency) {
    Declared(g) && forall i, k :: 0 <= i < |g| && 0 <= k < |g[i]| ==> g[i][k].weight >= 0.0
  }

  /** Total weight of the first `k` arcs of a row. */
  function RowWeight(row: seq<Arc>, k: nat): real
    requires k <= |row|
  {
    if k == 0 then 0.0 else RowWeight(row, k - 1) + row[k - 1].weight
  }

  /** Weight of those of the first `k` arcs of a row that lead to `j`. */
  function RowTo(row: seq<Arc>, k: nat, j: nat): real
    requires k <= |row|
  {
    if k == 0 then 0.0
    else RowTo(row, k - 1, j) + if row[k - 1].target == j then row[k - 1].weight else 0.0
  }
}
