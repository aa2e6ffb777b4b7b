/** The total weight that community detection divides by, traced back to the stored edges. */
module ModularityWeight {
  import opened Graph
  import Commons
  import GraphStore
  import PprSearch
  import PprStep
  import Community

  lemma {:induction false} ColumnsAreDegree(edges: seq<GraphStore.Edge>, ids: seq<string>, g: Adjacency, i: nat, m: nat)
    requires PprSearch.IsIndexed(edges, ids, g) && i < |ids| && m <= |ids|
    ensures PprStep.ColumnSum(g[i], |g[i]|, m) == GraphStore.Degree(edges, ids[i], ids[..m])
  {
    hide PprSearch.IsIndexed;
    if m > 0 {
      assert |g| == |ids| by {
        PprSearch.IndexSize(edges, ids, g);
      }
      ColumnsAreDegree(edges, ids, g, i, m - 1);
      PprSearch.RowToIsBetween(edges, ids, g, i, m - 1);
      assert ids[..m][..m - 1] == ids[..m - 1];
    }
  }

  lemma RowIsDegree(edges: seq<GraphStore.Edge>, ids: seq<string>, g: Adjacency, i: nat)
    requires PprSearch.IsIndexed(edges, ids, g) && i < |ids|
    ensures Community.Degree(g, i) == GraphStore.Degree(edges, ids[i], ids)
  {
    PprSearch.IndexIsDeclared(edges, ids, g);
    PprStep.ColumnSumIsRowWeight(g[i], |g[i]|, |ids|);
    ColumnsAreDegree(edges, ids, g, i, |ids|);
    assert ids[..|ids|] == ids;
  }

  lemma {:induction false} DegreesAgree(edges: seq<GraphStore.Edge>, ids: seq<string>, g: Adjacency, n: nat)
    requires PprSearch.IsIndexed(edges, ids, g) && n <= |ids|
    ensures Community.DegreeSum(g, n) == GraphStore.DegreeSum(edges, ids[..n], ids)
  {
    hide PprSearch.IsRow, Community.Degree, GraphStore.Degree;
    if n > 0 {
      DegreesAgree(edges, ids, g, n - 1);
      RowIsDegree(edges, ids, g, n - 1);
      assert ids[..n][..n - 1] == ids[..n - 1];
    }
  }

  /**
   * With every edge endpoint declared, the half of the degree sum that the gain formula divides by
   * is the total weight of the stored edges.
   */
  lemma HalfDegreeSumIsTotalWeight(edges: seq<GraphStore.Edge>, ids: seq<string>, g: Adjacency)
    requires PprSearch.IsIndexed(edges, ids, g)
    requires Commons.Distinct(ids) && GraphStore.Declared(edges, ids)
    ensures Community.DegreeSum(g, |g|) / 2.0 == GraphStore.TotalWeight(edges)
  {
    PprSearch.IndexSize(edges, ids, g);
    DegreesAgree(edges, ids, g, |ids|);
    assert ids[..|ids|] == ids;
    GraphStore.DegreesSumToTwiceWeight(edges, ids);
  }
}
