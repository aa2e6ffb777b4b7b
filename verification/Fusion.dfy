/** Reciprocal rank fusion of a dense and a sparse ranking, with real-valued scores. */
module Fusion {
  import opened Sorting
  import Commons

  datatype Hit = Hit(id: string, text: string, score: real)

  ghost predicate DistinctIds(hits: seq<Hit>) {
    forall i, j :: 0 <= i < j < |hits| ==> hits[i].id != hits[j].id
  }

  function Ids(hits: seq<Hit>): set<string> { set h | h in hits :: h.id }

  /** What one ranking contributes at position `rank`. */
  function Share(k: real, rank: nat): (r: real)
    requires k >= 0.0
    ensures r > 0.0
  {
    1.0 / (k + rank as real + 1.0)
  }

  /** The reciprocal ranks of `id` in one ranking, summed over its occurrences. */
  function Score(hits: seq<Hit>, k: real, id: string): (r: real)
    requires k >= 0.0
    ensures r >= 0.0
    ensures r > 0.0 <==> exists i :: 0 <= i < |hits| && hits[i].id == id
  {
    if hits == [] then 0.0
    else
      var n := |hits| - 1;
      var before := Score(hits[..n], k, id);
      assert forall i :: 0 <= i < n ==> hits[..n][i] == hits[i];
      if hits[n].id == id then before + Share(k, n) else before
  }

  function Fused(dense: seq<Hit>, sparse: seq<Hit>, k: real, id: string): real
    requires k >= 0.0
  {
    Score(dense, k, id) + Score(sparse, k, id)
  }

  /** The chunks found by both rankings. */
  function Consensus(dense: seq<Hit>, sparse: seq<Hit>): set<string> {
    Ids(dense) * Ids(sparse)
  }

  /** A complete fused ranking: every chunk of either list once, by non-increasing fused score. */
  ghost predicate IsRanking(dense: seq<Hit>, sparse: seq<Hit>, k: real, all: seq<Hit>)
    requires k >= 0.0
  {
    && DistinctIds(all)
    && Ids(all) == Ids(dense) + Ids(sparse)
    && (forall i :: 0 <= i < |all| ==> all[i].score == Fused(dense, sparse, k, all[i].id))
    && Descending((h: Hit) => h.score, all)
  }

  // ----- the loops -----

  /** The first hit carrying the id, in the dense list and then the sparse one. */
  ghost predicate IsFirst(hits: seq<Hit>, h: Hit) {
    exists i :: 0 <= i < |hits| && hits[i].id == h.id && hits[i].text == h.text
      && forall j :: 0 <= j < i ==> hits[j].id != h.id
  }

  /** The score map after some prefix of the rankings, keyed by chunk id. */
  ghost predicate Tallies(dense: seq<Hit>, sparse: seq<Hit>, k: real, tally: map<string, Hit>)
    requires k >= 0.0
  {
    && tally.Keys == Ids(dense) + Ids(sparse)
    && forall id :: id in tally ==>
      && tally[id].id == id
      && tally[id].score == Fused(dense, sparse, k, id)
      && IsFirst(dense + sparse, tally[id])
  }

  function Credit(tally: map<string, Hit>, h: Hit, share: real): map<string, Hit> {
    if h.id in tally then tally[h.id := tally[h.id].(score := tally[h.id].score + share)]
    else tally[h.id := h.(score := share)]
  }

  lemma IdsGrow(hits: seq<Hit>, h: Hit)
    ensures Ids(hits + [h]) == Ids(hits) + {h.id}
  {
    forall id
      ensures id in Ids(hits + [h]) <==> id in Ids(hits) + {h.id}
    {
      if id in Ids(hits) {
        var g :| g in hits && g.id == id;
        assert g in hits + [h];
      }
      assert h in hits + [h];
    }
  }

  lemma IdAt(hits: seq<Hit>, id: string)
    ensures id in Ids(hits) <==> exists i :: 0 <= i < |hits| && hits[i].id == id
  {
    if id in Ids(hits) {
      var g :| g in hits && g.id == id;
    }
  }

  lemma ScoreGrows(hits: seq<Hit>, h: Hit, k: real, id: string)
    requires k >= 0.0
    ensures Score(hits + [h], k, id) == Score(hits, k, id) + if h.id == id then Share(k, |hits|) else 0.0
  {
    assert (hits + [h])[..|hits|] == hits;
  }

  lemma FirstStays(hits: seq<Hit>, h: Hit, g: Hit)
    requires IsFirst(hits, g)
    ensures IsFirst(hits + [h], g)
  {
    var i :| 0 <= i < |hits| && hits[i].id == g.id && hits[i].text == g.text
      && forall j :: 0 <= j < i ==> hits[j].id != g.id;
    assert (hits + [h])[i] == hits[i];
    assert forall j :: 0 <= j < i ==> (hits + [h])[j] == hits[j];
  }

  lemma NewIsFirst(hits: seq<Hit>, h: Hit, g: Hit)
    requires h.id !in Ids(hits) && g.id == h.id && g.text == h.text
    ensures IsFirst(hits + [h], g)
  {
    var all := hits + [h];
    forall j | 0 <= j < |hits|
      ensures all[j].id != g.id
    {
      assert hits[j] in hits;
    }
    assert all[|hits|] == h;
  }

  /** One pass of either loop; exactly one of the two rankings grows. */
  lemma CreditTallies(dense: seq<Hit>, sparse: seq<Hit>, k: real, tally: map<string, Hit>, h: Hit, toSparse: bool)
    requires k >= 0.0 && Tallies(dense, sparse, k, tally)
    requires toSparse || sparse == []
    ensures var r := Credit(tally, h, Share(k, if toSparse then |sparse| else |dense|));
      if toSparse then Tallies(dense, sparse + [h], k, r) else Tallies(dense + [h], sparse, k, r)
  {
    hide Score, Share, Ids, IsFirst;
    var dense', sparse' := if toSparse then dense else dense + [h], if toSparse then sparse + [h] else sparse;
    var r := Credit(tally, h, Share(k, if toSparse then |sparse| else |dense|));
    assert dense' + sparse' == dense + sparse + [h];
    IdsGrow(dense, h);
    IdsGrow(sparse, h);
    IdsOfBoth(dense, sparse);
    forall id | id in r
      ensures r[id].id == id
      ensures r[id].score == Fused(dense', sparse', k, id)
      ensures IsFirst(dense' + sparse', r[id])
    {
      ScoreGrows(dense, h, k, id);
      ScoreGrows(sparse, h, k, id);
      if id in tally {
        SameFirst(dense + sparse, tally[id], r[id]);
        FirstStays(dense + sparse, h, r[id]);
      } else {
        Unscored(dense, k, id);
        Unscored(sparse, k, id);
        NewIsFirst(dense + sparse, h, r[id]);
      }
    }
  }

  lemma SameFirst(hits: seq<Hit>, g: Hit, h: Hit)
    requires g.id == h.id && g.text == h.text
    ensures IsFirst(hits, g) <==> IsFirst(hits, h)
  {}

  lemma Unscored(hits: seq<Hit>, k: real, id: string)
    requires k >= 0.0 && id !in Ids(hits)
    ensures Score(hits, k, id) == 0.0
  {
    IdAt(hits, id);
  }

  lemma IdsOfBoth(a: seq<Hit>, b: seq<Hit>)
    ensures Ids(a + b) == Ids(a) + Ids(b)
  {
    forall id
      ensures id in Ids(a + b) <==> id in Ids(a) + Ids(b)
    {
      if id in Ids(a) {
        var g :| g in a && g.id == id;
        assert g in a + b;
      }
      if id in Ids(b) {
        var g :| g in b && g.id == id;
        assert g in a + b;
      }
    }
  }

  /**
   * The fused ranking, cut to `cap`. The map's values come out in any order, so chunks with equal
   * scores may come in any order too.
   */
  method ReciprocalRankFusion(dense: seq<Hit>, sparse: seq<Hit>, k: real, cap: nat)
    returns (out: seq<Hit>, ghost all: seq<Hit>)
    requires k >= 0.0
    ensures IsRanking(dense, sparse, k, all)
    ensures out == if |all| <= cap then all else all[..cap]
    ensures forall i :: 0 <= i < |out| ==> IsFirst(dense + sparse, out[i])
  {
    hide Tallies, IsFirst, Score, Share, Credit;
    var tally: map<string, Hit> := map[];
    assert Tallies(dense[..0], [], k, tally) by {
      NothingTallied(dense, k);
    }
    var rank := 0;
    while rank < |dense|
      invariant 0 <= rank <= |dense| && Tallies(dense[..rank], [], k, tally)
    {
      CreditTallies(dense[..rank], [], k, tally, dense[rank], false);
      assert dense[..rank + 1] == dense[..rank] + [dense[rank]];
      tally := Credit(tally, dense[rank], Share(k, rank));
      rank := rank + 1;
    }
    assert dense[..rank] == dense;
    rank := 0;
    while rank < |sparse|
      invariant 0 <= rank <= |sparse| && Tallies(dense, sparse[..rank], k, tally)
    {
      CreditTallies(dense, sparse[..rank], k, tally, sparse[rank], true);
      assert sparse[..rank + 1] == sparse[..rank] + [sparse[rank]];
      tally := Credit(tally, sparse[rank], Share(k, rank));
      rank := rank + 1;
    }
    assert sparse[..rank] == sparse;
    assert forall id :: id in tally ==> tally[id].id == id by {
      TalliesAreKeyed(dense, sparse, k, tally);
    }
    var values := ValuesInSomeOrder(tally);
    var sorted := SortDescending((h: Hit) => h.score, values);
    all := sorted;
    RankingFromTally(dense, sparse, k, tally, values);
    out := if |sorted| <= cap then sorted else sorted[..cap];
  }

  lemma TalliesAreKeyed(dense: seq<Hit>, sparse: seq<Hit>, k: real, tally: map<string, Hit>)
    requires k >= 0.0 && Tallies(dense, sparse, k, tally)
    ensures forall id :: id in tally ==> tally[id].id == id
  {}

  lemma NothingTallied(dense: seq<Hit>, k: real)
    requires k >= 0.0
    ensures Tallies(dense[..0], [], k, map[])
  {}

  /** Each value once, in an order the caller cannot rely on. */
  method ValuesInSomeOrder(tally: map<string, Hit>) returns (values: seq<Hit>)
    requires forall id :: id in tally ==> tally[id].id == id
    ensures DistinctIds(values)
    ensures forall h :: h in values <==> h.id in tally && tally[h.id] == h
  {
    values := [];
    var rest := tally.Keys;
    while rest != {}
      invariant rest <= tally.Keys && DistinctIds(values)
      invariant forall h :: h in values <==> h.id in tally && h.id !in rest && tally[h.id] == h
      decreases rest
    {
      var id :| id in rest;
      assert forall i :: 0 <= i < |values| ==> values[i] in values;
      values := values + [tally[id]];
      rest := rest - {id};
    }
  }

  lemma SortKeepsMembers(values: seq<Hit>)
    requires DistinctIds(values)
    ensures var s := SortDescending((h: Hit) => h.score, values);
      && DistinctIds(s) && Descending((h: Hit) => h.score, s)
      && forall h :: h in s <==> h in values
  {
    var key := (h: Hit) => h.score;
    var s := SortDescending(key, values);
    SortIsSorted(key, values);
    forall h
      ensures h in s <==> h in values
    {
      assert h in s <==> h in multiset(s);
      assert h in values <==> h in multiset(values);
    }
    DistinctPermutes(values, s);
    forall i, j | 0 <= i < j < |s|
      ensures s[i].id != s[j].id
    {
      assert s[i] in values && s[j] in values && s[i] != s[j];
    }
  }

  lemma RankingFromTally(dense: seq<Hit>, sparse: seq<Hit>, k: real, tally: map<string, Hit>, values: seq<Hit>)
    requires k >= 0.0 && Tallies(dense, sparse, k, tally) && DistinctIds(values)
    requires forall h :: h in values <==> h.id in tally && tally[h.id] == h
    ensures var all := SortDescending((h: Hit) => h.score, values);
      IsRanking(dense, sparse, k, all) && forall i :: 0 <= i < |all| ==> IsFirst(dense + sparse, all[i])
  {
    hide Score, IsFirst;
    SortKeepsMembers(values);
    var all := SortDescending((h: Hit) => h.score, values);
    forall i | 0 <= i < |all|
      ensures all[i].score == Fused(dense, sparse, k, all[i].id) && IsFirst(dense + sparse, all[i])
    {
      assert all[i] in values;
    }
    forall id
      ensures id in Ids(all) <==> id in tally
    {
      if id in tally {
        assert tally[id] in all;
      }
    }
  }

  lemma NoIds()
    ensures Ids([]) == {}
  {}

  lemma OverlapGrows(ids: set<string>, hits: seq<Hit>, i: nat)
    requires i < |hits|
    ensures ids * Ids(hits[..i + 1])
      == if hits[i].id in ids then ids * Ids(hits[..i]) + {hits[i].id} else ids * Ids(hits[..i])
    ensures DistinctIds(hits) ==> hits[i].id !in Ids(hits[..i])
  {
    IdsGrow(hits[..i], hits[i]);
    IdAt(hits[..i], hits[i].id);
    assert hits[..i + 1] == hits[..i] + [hits[i]];
  }

  /** Counts the sparse hits whose chunk the dense ranking has too. */
  method RankOverlap(dense: seq<Hit>, sparse: seq<Hit>) returns (n: nat)
    ensures DistinctIds(sparse) ==> n == |Consensus(dense, sparse)|
    ensures n == 0 <==> Consensus(dense, sparse) == {}
  {
    hide Ids, DistinctIds;
    NoIds();
    if dense == [] || sparse == [] {
      return 0;
    }
    var ids := Ids(dense);
    n := 0;
    assert sparse[..0] == [];
    var i := 0;
    while i < |sparse|
      invariant 0 <= i <= |sparse|
      invariant DistinctIds(sparse) ==> n == |ids * Ids(sparse[..i])|
      invariant n == 0 <==> ids * Ids(sparse[..i]) == {}
    {
      OverlapGrows(ids, sparse, i);
      if sparse[i].id in ids {
        n := n + 1;
      }
      i := i + 1;
    }
    assert sparse[..i] == sparse;
  }

  // ----- consensus comes first -----

  lemma {:induction false} ScoreAt(hits: seq<Hit>, k: real, i: nat)
    requires k >= 0.0 && DistinctIds(hits) && i < |hits|
    ensures Score(hits, k, hits[i].id) == Share(k, i)
  {
    var n := |hits| - 1;
    var front := hits[..n];
    if i == n {
      IdAt(front, hits[i].id);
      Unscored(front, k, hits[i].id);
    } else {
      ScoreAt(front, k, i);
      assert front[i] == hits[i];
    }
  }

  lemma ShareFalls(k: real, i: nat, j: nat)
    requires k >= 0.0 && i <= j
    ensures Share(k, i) >= Share(k, j)
  {
    ReciprocalFalls(k + i as real + 1.0, k + j as real + 1.0);
  }

  lemma ReciprocalFalls(x: real, y: real)
    requires 0.0 < x <= y
    ensures 1.0 / x >= 1.0 / y
  {
    assert 1.0 / x - 1.0 / y == (y - x) / (x * y);
  }

  /** The last two places together still beat a single first place. */
  ghost predicate Margin(m: nat, n: nat, k: real)
    requires k >= 0.0 && m > 0 && n > 0
  {
    Share(k, m - 1) + Share(k, n - 1) > Share(k, 0)
  }

  /** A chunk in both rankings beats every chunk in only one of them. */
  ghost predicate ConsensusWins(dense: seq<Hit>, sparse: seq<Hit>, k: real)
    requires k >= 0.0
  {
    forall a, b :: a in Consensus(dense, sparse) && b in Ids(dense) + Ids(sparse) && b !in Consensus(dense, sparse) ==>
      Fused(dense, sparse, k, a) > Fused(dense, sparse, k, b)
  }

  lemma ScoreBounds(hits: seq<Hit>, k: real, id: string)
    requires k >= 0.0 && DistinctIds(hits)
    ensures id in Ids(hits) ==> Share(k, |hits| - 1) <= Score(hits, k, id) <= Share(k, 0)
    ensures id !in Ids(hits) ==> Score(hits, k, id) == 0.0
  {
    IdAt(hits, id);
    if id in Ids(hits) {
      var i :| 0 <= i < |hits| && hits[i].id == id;
      ScoreAt(hits, k, i);
      ShareFalls(k, 0, i);
      ShareFalls(k, i, |hits| - 1);
    } else {
      Unscored(hits, k, id);
    }
  }

  lemma MarginSuffices(dense: seq<Hit>, sparse: seq<Hit>, k: real)
    requires k >= 0.0 && DistinctIds(dense) && DistinctIds(sparse)
    requires dense == [] || sparse == [] || Margin(|dense|, |sparse|, k)
    ensures ConsensusWins(dense, sparse, k)
  {
    hide Score, Share;
    forall a, b | a in Consensus(dense, sparse) && b in Ids(dense) + Ids(sparse) && b !in Consensus(dense, sparse)
      ensures Fused(dense, sparse, k, a) > Fused(dense, sparse, k, b)
    {
      ScoreBounds(dense, k, a);
      ScoreBounds(sparse, k, a);
      ScoreBounds(dense, k, b);
      ScoreBounds(sparse, k, b);
      IdAt(dense, a);
      IdAt(sparse, a);
    }
  }

  /** Lists no longer than `k + 1` leave the margin: 40 candidates against the default k of 60. */
  lemma ShortListsHaveMargin(m: nat, n: nat, k: real)
    requires k >= 0.0 && m > 0 && n > 0
    requires m as real <= k + 1.0 && n as real <= k + 1.0
    ensures Margin(m, n, k)
  {
    var longest := k + k + 1.0;
    ReciprocalFalls(k + m as real, longest);
    ReciprocalFalls(k + n as real, longest);
    TwoBeatOne(k);
  }

  lemma TwoBeatOne(k: real)
    requires k >= 0.0
    ensures 1.0 / (k + k + 1.0) + 1.0 / (k + k + 1.0) > 1.0 / (k + 1.0)
  {
    var x, y := k + k + 1.0, k + 1.0;
    assert 2.0 / x - 1.0 / y == (2.0 * y - x) / (x * y);
  }

  /** Chunk `first` to `first + count - 1`, and then chunk 0. */
  function Tail0(first: nat, count: nat): (r: seq<Hit>)
    ensures |r| == count + 1
    decreases count
  {
    if count == 0 then [Hit(Commons.Decimal(0), "", 0.0)]
    else [Hit(Commons.Decimal(first), "", 0.0)] + Tail0(first + 1, count - 1)
  }

  lemma {:induction false} Tail0At(first: nat, count: nat, i: nat)
    requires i <= count
    ensures Tail0(first, count)[i].id == Commons.Decimal(if i == count then 0 else first + i)
    decreases count
  {
    if i > 0 {
      Tail0At(first + 1, count - 1, i - 1);
    }
  }

  lemma OtherDecimal(m: nat, n: nat)
    requires m != n
    ensures Commons.Decimal(m) != Commons.Decimal(n)
  {
    if Commons.Decimal(m) == Commons.Decimal(n) {
      Commons.DecimalInjective(m, n);
    }
  }

  lemma Tail0Distinct(first: nat, count: nat)
    requires first > 0
    ensures DistinctIds(Tail0(first, count))
  {
    var r := Tail0(first, count);
    forall i, j | 0 <= i < j < |r|
      ensures r[i].id != r[j].id
    {
      Tail0At(first, count, i);
      Tail0At(first, count, j);
      OtherDecimal(first + i, if j == count then 0 else first + j);
    }
  }

  /** Without the margin, two rankings sharing only their last chunk put a chunk of one list first. */
  lemma MarginNeeded(m: nat, n: nat, k: real) returns (dense: seq<Hit>, sparse: seq<Hit>)
    requires k >= 0.0 && m > 0 && n > 0 && !Margin(m, n, k)
    ensures |dense| == m && |sparse| == n && DistinctIds(dense) && DistinctIds(sparse)
    ensures !ConsensusWins(dense, sparse, k)
  {
    hide Score, Share;
    dense, sparse := Tail0(1, m - 1), Tail0(m, n - 1);
    Tail0Distinct(1, m - 1);
    Tail0Distinct(m, n - 1);
    assert m > 1;
    var a, b := Commons.Decimal(0), Commons.Decimal(1);
    Tail0At(1, m - 1, m - 1);
    Tail0At(1, m - 1, 0);
    Tail0At(m, n - 1, n - 1);
    ScoreAt(dense, k, m - 1);
    ScoreAt(dense, k, 0);
    ScoreAt(sparse, k, n - 1);
    assert dense[m - 1] in dense && dense[0] in dense && sparse[n - 1] in sparse;
    forall j | 0 <= j < n
      ensures sparse[j].id != b
    {
      Tail0At(m, n - 1, j);
      OtherDecimal(1, if j == n - 1 then 0 else m + j);
    }
    IdAt(sparse, b);
    Unscored(sparse, k, b);
    assert a in Consensus(dense, sparse) && b !in Consensus(dense, sparse) && b in Ids(dense);
    assert Fused(dense, sparse, k, a) <= Fused(dense, sparse, k, b);
  }

  /** For lists of given lengths, consensus chunks always win exactly when the margin holds. */
  lemma ConsensusWinsIff(m: nat, n: nat, k: real)
    requires k >= 0.0 && m > 0 && n > 0
    ensures Margin(m, n, k) <==>
      forall dense, sparse :: |dense| == m && |sparse| == n && DistinctIds(dense) && DistinctIds(sparse) ==>
        ConsensusWins(dense, sparse, k)
  {
    if Margin(m, n, k) {
      forall dense: seq<Hit>, sparse: seq<Hit>
        | |dense| == m && |sparse| == n && DistinctIds(dense) && DistinctIds(sparse)
        ensures ConsensusWins(dense, sparse, k)
      {
        MarginSuffices(dense, sparse, k);
      }
    } else {
      var dense, sparse := MarginNeeded(m, n, k);
    }
  }

  /** Equal lengths: the bound is `k + 1`, and one more candidate per list already breaks it. */
  lemma EqualLengthsMargin(n: nat, k: real)
    requires k >= 0.0 && n > 0
    ensures Margin(n, n, k) <==> n as real < k + 2.0
  {
    var x, y := k + n as real, k + 1.0;
    assert x * y > 0.0;
    assert Share(k, n - 1) == 1.0 / x && Share(k, 0) == 1.0 / y;
    assert 1.0 / x + 1.0 / x - 1.0 / y == (2.0 * y - x) / (x * y);
    if 2.0 * y > x {
      assert (2.0 * y - x) / (x * y) > 0.0;
    } else {
      assert (x - 2.0 * y) / (x * y) >= 0.0;
      assert (2.0 * y - x) / (x * y) == -((x - 2.0 * y) / (x * y));
    }
  }

  lemma {:induction false} IdsCount(hits: seq<Hit>)
    requires DistinctIds(hits)
    ensures |Ids(hits)| == |hits|
  {
    hide Ids;
    if hits != [] {
      var front, last := hits[..|hits| - 1], hits[|hits| - 1];
      IdsCount(front);
      IdsGrow(front, last);
      IdAt(front, last.id);
      assert hits == front + [last];
    } else {
      NoIds();
    }
  }

  /** Where winners strictly beat the others, a descending ranking starts with all winners. */
  lemma WinnersFirst(all: seq<Hit>, winners: set<string>)
    requires DistinctIds(all) && Descending((h: Hit) => h.score, all) && winners <= Ids(all)
    requires forall i, j :: 0 <= i < |all| && 0 <= j < |all| && all[i].id in winners && all[j].id !in winners ==>
      all[i].score > all[j].score
    ensures |winners| <= |all| && Ids(all[..|winners|]) == winners
  {
    var p := 0;
    while p < |all| && all[p].id in winners
      invariant 0 <= p <= |all|
      invariant forall i :: 0 <= i < p ==> all[i].id in winners
    {
      p := p + 1;
    }
    var key := (h: Hit) => h.score;
    forall i | p <= i < |all|
      ensures all[i].id !in winners
    {
      assert p < i ==> key(all[p]) >= key(all[i]);
    }
    forall id
      ensures id in Ids(all[..p]) <==> id in winners
    {
      IdAt(all[..p], id);
      IdAt(all, id);
    }
    assert Ids(all[..p]) == winners;
    IdsCount(all[..p]);
  }

  /**
   * With distinct ids and lists of at most `k + 1` hits, the fused list starts with exactly the
   * chunks present in both rankings, whenever the cut leaves room for them.
   */
  lemma ConsensusFirst(dense: seq<Hit>, sparse: seq<Hit>, k: real, all: seq<Hit>, cap: nat)
    requires k >= 0.0 && DistinctIds(dense) && DistinctIds(sparse)
    requires |dense| as real <= k + 1.0 && |sparse| as real <= k + 1.0
    requires IsRanking(dense, sparse, k, all)
    requires cap >= |Consensus(dense, sparse)|
    ensures var out := if |all| <= cap then all else all[..cap];
      var n := |Consensus(dense, sparse)|;
      n <= |out| && Ids(out[..n]) == Consensus(dense, sparse)
  {
    hide Score, Share;
    if dense != [] && sparse != [] {
      ShortListsHaveMargin(|dense|, |sparse|, k);
    }
    MarginSuffices(dense, sparse, k);
    var winners := Consensus(dense, sparse);
    forall i, j | 0 <= i < |all| && 0 <= j < |all| && all[i].id in winners && all[j].id !in winners
      ensures all[i].score > all[j].score
    {
      assert all[j] in all;
      assert all[j].id in Ids(all);
    }
    WinnersFirst(all, winners);
    if |all| > cap {
      assert all[..cap][..|winners|] == all[..|winners|];
    }
  }

  /** The share of the first place is 1 / (k + 1), of the next 1 / (k + 2), and so on. */
  lemma ShareIs(k: real, rank: nat)
    requires k >= 0.0
    ensures Share(k, rank) * (k + rank as real + 1.0) == 1.0
  {
  }
}
