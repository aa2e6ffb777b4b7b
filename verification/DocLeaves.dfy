/** The leaf count of doc_tree.rs, on the tree and on the section list it came from. */
module DocLeaves {
  import opened Commons
  import opened DocTree

  function Leaves(n: Node): (r: nat)
    ensures r >= 1
  {
    if n.children == [] then 1 else LeavesAll(n.children)
  }

  function LeavesAll(forest: seq<Node>): (r: nat)
    ensures forest != [] ==> r >= 1
  {
    if forest == [] then 0 else LeavesAll(forest[..|forest| - 1]) + Leaves(forest[|forest| - 1])
  }

  method CountLeaves(n: Node, before: nat) returns (count: nat)
    ensures count == before + Leaves(n)
    decreases n
  {
    if n.children == [] {
      return before + 1;
    }
    count := before;
    for i := 0 to |n.children|
      invariant count == before + LeavesAll(n.children[..i])
    {
      assert n.children[..i + 1][..i] == n.children[..i];
      count := CountLeaves(n.children[i], count);
    }
    assert n.children[..|n.children|] == n.children;
  }

  method CountLeavesTotal(root: Node) returns (count: nat)
    ensures count == Leaves(root)
  {
    count := CountLeaves(root, 0);
    count := Max(count, 1);
  }

  // ----- The same count on a pre-order list with parents

  /** Entries from `k` on that the next entry does not name as its parent; entry 0 has number `base`. */
  function Childless(flat: seq<(Section, int)>, base: nat, k: nat): nat
    decreases |flat| - k
  {
    if k >= |flat| then 0
    else (if k + 1 < |flat| && flat[k + 1].1 == base + k then 0 else 1) + Childless(flat, base, k + 1)
  }

  lemma {:induction false} ChildlessOfRight(a: seq<(Section, int)>, b: seq<(Section, int)>, base: nat, k: nat)
    requires k <= |b|
    ensures Childless(a + b, base, |a| + k) == Childless(b, base + |a|, k)
    decreases |b| - k
  {
    if k < |b| {
      ChildlessOfRight(a, b, base, k + 1);
      assert k + 1 < |b| ==> (a + b)[|a| + k + 1] == b[k + 1];
    }
  }

  /** Two lists count apart unless the second begins with a child of the first one's last entry. */
  lemma {:induction false} ChildlessOfBoth(a: seq<(Section, int)>, b: seq<(Section, int)>, base: nat, k: nat)
    requires k <= |a|
    requires a != [] && b != [] ==> b[0].1 != base + |a| - 1
    ensures Childless(a + b, base, k) == Childless(a, base, k) + Childless(b, base + |a|, 0)
    decreases |a| - k
  {
    if k < |a| {
      ChildlessOfBoth(a, b, base, k + 1);
      assert k + 1 < |a| ==> (a + b)[k + 1] == a[k + 1];
      assert k + 1 == |a| && b != [] ==> (a + b)[k + 1] == b[0];
    } else {
      ChildlessOfRight(a, b, base, 0);
    }
  }

  /** A parent, followed by its children's list or by nothing. */
  lemma ChildlessOfParent(entry: (Section, int), b: seq<(Section, int)>, base: nat)
    requires b != [] ==> b[0].1 == base
    ensures Childless([entry] + b, base, 0) == (if b == [] then 1 else 0) + Childless(b, base + 1, 0)
  {
    ChildlessOfRight([entry], b, base, 0);
    assert b != [] ==> ([entry] + b)[1] == b[0];
  }

  lemma {:induction false} FlatStartsWithParent(forest: seq<Node>, parent: int, base: nat)
    requires forest != []
    ensures Flat(forest, parent, base) != [] && Flat(forest, parent, base)[0].1 == parent
  {
    if |forest| > 1 {
      FlatStartsWithParent(forest[..|forest| - 1], parent, base);
    }
  }

  lemma FlatUnfolds(forest: seq<Node>, parent: int, base: nat)
    requires forest != []
    ensures var k := |forest| - 1;
            var before := Flat(forest[..k], parent, base);
            var self := base + |before|;
            Flat(forest, parent, base)
            == before + ([(forest[k].section, parent)] + Flat(forest[k].children, self, self + 1))
  {
    var k := |forest| - 1;
    var before := Flat(forest[..k], parent, base);
    var self := base + |before|;
    var inner := Flat(forest[k].children, self, self + 1);
    assert Flat(forest, parent, base) == before + [(forest[k].section, parent)] + inner;
    hide Flat;
    Associates(before, [(forest[k].section, parent)], inner);
  }

  lemma Associates<T>(a: seq<T>, b: seq<T>, c: seq<T>)
    ensures a + b + c == a + (b + c)
  {
  }

  /** The leaves of a forest are the entries of its pre-order list that name no child next. */
  lemma {:induction false} LeavesAreChildless(forest: seq<Node>, parent: int, base: nat)
    requires parent < base
    ensures LeavesAll(forest) == Childless(Flat(forest, parent, base), base, 0)
    decreases forest
  {
    if forest != [] {
      var k := |forest| - 1;
      var last := forest[k];
      var before := Flat(forest[..k], parent, base);
      var self := base + |before|;
      var inner := Flat(last.children, self, self + 1);
      LeavesAreChildless(forest[..k], parent, base);
      LeavesAreChildless(last.children, self, self + 1);
      FlatUnfolds(forest, parent, base);
      if last.children != [] {
        FlatStartsWithParent(last.children, self, self + 1);
      } else {
        assert inner == [];
      }
      hide Flat, Childless;
      ChildlessOfParent((last.section, parent), inner, self);
      ChildlessOfBoth(before, [(last.section, parent)] + inner, base, 0);
    } else {
      assert Flat(forest, parent, base) == [];
    }
  }

  // ----- The same count on the section list

  /** Sections from `k` on that are not followed by a deeper one. */
  function NotDeepened(secs: seq<Section>, k: nat): nat
    decreases |secs| - k
  {
    if k >= |secs| then 0
    else (if k + 1 < |secs| && secs[k].depth < secs[k + 1].depth then 0 else 1) + NotDeepened(secs, k + 1)
  }

  lemma {:induction false} ChildlessAreNotDeepened(secs: seq<Section>, k: nat)
    ensures Childless(WithParents(secs), 0, k) == NotDeepened(secs, k)
    decreases |secs| - k
  {
    if k < |secs| {
      ChildlessAreNotDeepened(secs, k + 1);
      if k + 1 < |secs| {
        WithParentsAt(secs, k + 1);
      }
    }
  }

  /** The leaves of the tree built from a section list are the sections not followed by a deeper one. */
  lemma LeavesOfOutline(root: Node, secs: seq<Section>)
    requires Flat(root.children, -1, 0) == WithParents(secs)
    ensures Leaves(root) == Max(NotDeepened(secs, 0), 1)
  {
    LeavesAreChildless(root.children, -1, 0);
    ChildlessAreNotDeepened(secs, 0);
    if root.children == [] {
      assert Flat(root.children, -1, 0) == [];
      assert secs == [];
    }
  }
}
