/**
 Assembly of the section tree in doc_tree.rs: a stack of raw pointers into a growing forest.

 A raw pointer to a node is modelled by the node's address: the index of its root in `roots`, then
 an index into each `children` vector on the way down.  The address of a vector is the address of
 the node that owns it; `roots` has the address [].  Pushing onto a vector may reallocate it, so
 the push ends the life of every pointer to a node stored inside that vector.
 */
module DocTree {

  datatype Section = Section(depth: nat, title: string, start: nat, bodyStart: nat, end: nat)

  datatype Node = Node(path: string, section: Section, children: seq<Node>)

  type Ptr = seq<nat>

  datatype Entry = Entry(depth: nat, ptr: Ptr)

  /** `live` holds the pointers that no push has invalidated so far. */
  datatype Builder = Builder(roots: seq<Node>, stack: seq<Entry>, live: set<Ptr>)

  predicate Addresses(forest: seq<Node>, p: Ptr) {
    p == [] || (p[0] < |forest| && Addresses(forest[p[0]].children, p[1..]))
  }

  function ChildrenAt(forest: seq<Node>, p: Ptr): seq<Node>
    requires Addresses(forest, p)
  {
    if p == [] then forest else ChildrenAt(forest[p[0]].children, p[1..])
  }

  /** The forest after pushing `node` onto the vector at address `p`. */
  function PushAt(forest: seq<Node>, p: Ptr, node: Node): seq<Node>
    requires Addresses(forest, p)
  {
    if p == [] then forest + [node]
    else
      var owner := forest[p[0]];
      forest[p[0] := owner.(children := PushAt(owner.children, p[1..], node))]
  }

  /** The pointers a push onto the vector at `vec` leaves alone. */
  function Survivors(live: set<Ptr>, vec: Ptr): set<Ptr> {
    set p | p in live && !(vec < p)
  }

  function Popped(stack: seq<Entry>, depth: nat): (r: seq<Entry>)
    ensures r <= stack
  {
    if stack != [] && stack[|stack| - 1].depth >= depth
    then Popped(stack[..|stack| - 1], depth)
    else stack
  }

  function Target(stack: seq<Entry>): Ptr {
    if stack == [] then [] else stack[|stack| - 1].ptr
  }

  /** One iteration of the assembly loop. */
  function Step(b: Builder, s: Section): Builder
    requires Addresses(b.roots, Target(Popped(b.stack, s.depth)))
  {
    var stack := Popped(b.stack, s.depth);
    var vec := Target(stack);
    var ptr := vec + [|ChildrenAt(b.roots, vec)|];
    Builder(PushAt(b.roots, vec, Node("", s, [])),
            stack + [Entry(s.depth, ptr)],
            Survivors(b.live, vec) + {ptr})
  }

  // ----- The reference: each section's parent is the nearest earlier section of smaller depth

  /** The largest index below `i` whose depth is smaller than `depth`, or -1. */
  function Shallower(secs: seq<Section>, depth: nat, i: nat): (p: int)
    requires i <= |secs|
    ensures -1 <= p < i
  {
    if i == 0 then -1
    else if secs[i - 1].depth < depth then i - 1
    else Shallower(secs, depth, i - 1)
  }

  lemma {:induction false} ShallowerSkips(secs: seq<Section>, depth: nat, from: nat, to: nat)
    requires from <= to <= |secs|
    requires forall j :: from <= j < to ==> secs[j].depth >= depth
    ensures Shallower(secs, depth, to) == Shallower(secs, depth, from)
  {
    if from < to {
      ShallowerSkips(secs, depth, from, to - 1);
    }
  }

  lemma {:induction false} ShallowerIgnoresLater(secs: seq<Section>, more: seq<Section>, depth: nat, i: nat)
    requires i <= |secs|
    ensures Shallower(secs + more, depth, i) == Shallower(secs, depth, i)
  {
    if i > 0 {
      ShallowerIgnoresLater(secs, more, depth, i - 1);
    }
  }

  lemma {:induction false} ShallowerIsNearest(secs: seq<Section>, depth: nat, i: nat)
    requires i <= |secs|
    ensures var p := Shallower(secs, depth, i);
            && (p >= 0 ==> secs[p].depth < depth)
            && forall j :: p < j < i ==> secs[j].depth >= depth
  {
    if i > 0 && secs[i - 1].depth >= depth {
      ShallowerIsNearest(secs, depth, i - 1);
    }
  }

  function Parent(secs: seq<Section>, i: nat): int
    requires i < |secs|
  {
    Shallower(secs, secs[i].depth, i)
  }

  function WithParents(secs: seq<Section>): (r: seq<(Section, int)>)
    ensures |r| == |secs|
  {
    if secs == [] then []
    else
      var k := |secs| - 1;
      WithParents(secs[..k]) + [(secs[k], Parent(secs, k))]
  }

  lemma {:induction false} WithParentsAt(secs: seq<Section>, i: nat)
    requires i < |secs|
    ensures WithParents(secs)[i] == (secs[i], Parent(secs, i))
  {
    var k := |secs| - 1;
    if i < k {
      WithParentsAt(secs[..k], i);
      assert secs == secs[..k] + secs[k..];
      ShallowerIgnoresLater(secs[..k], secs[k..], secs[i].depth, i);
    }
  }

  // ----- A forest as its pre-order list, each node with the pre-order number of its parent

  function CountAll(forest: seq<Node>): nat {
    if forest == [] then 0
    else
      var k := |forest| - 1;
      CountAll(forest[..k]) + 1 + CountAll(forest[k].children)
  }

  function Flat(forest: seq<Node>, parent: int, base: nat): (r: seq<(Section, int)>)
    ensures |r| == CountAll(forest)
  {
    if forest == [] then []
    else
      var k := |forest| - 1;
      var before := Flat(forest[..k], parent, base);
      var self := base + |before|;
      before + [(forest[k].section, parent)] + Flat(forest[k].children, self, self + 1)
  }

  /** The address of the rightmost leaf: last root, its last child, and so on. */
  function Spine(forest: seq<Node>): Ptr {
    if forest == [] then [] else [|forest| - 1] + Spine(forest[|forest| - 1].children)
  }

  /** Pre-order numbers of the nodes along the spine. */
  function SpineNumbers(forest: seq<Node>, base: nat): (r: seq<nat>)
    ensures |r| == |Spine(forest)|
  {
    if forest == [] then []
    else
      var k := |forest| - 1;
      var self := base + CountAll(forest[..k]);
      [self] + SpineNumbers(forest[k].children, self + 1)
  }

  /** `after` is `forest` with `leaf` pushed onto the children of the k-th spine node (0: onto the roots). */
  ghost predicate GrownAt(forest: seq<Node>, after: seq<Node>, k: nat, leaf: Node)
    decreases k
  {
    if k == 0 then after == forest + [leaf]
    else
      && forest != []
      && var last := |forest| - 1;
      && |after| == |forest|
      && after == forest[..last] + [after[last]]
      && after[last].section == forest[last].section
      && GrownAt(forest[last].children, after[last].children, k - 1, leaf)
  }

  lemma {:induction false} PushOnSpineGrows(forest: seq<Node>, k: nat, leaf: Node)
    requires k <= |Spine(forest)| && leaf.children == []
    ensures var vec := Spine(forest)[..k];
            && Addresses(forest, vec)
            && GrownAt(forest, PushAt(forest, vec, leaf), k, leaf)
            && Spine(PushAt(forest, vec, leaf)) == vec + [|ChildrenAt(forest, vec)|]
    decreases k
  {
    if k > 0 {
      var last := |forest| - 1;
      var inner := Spine(forest[last].children)[..k - 1];
      assert Spine(forest)[..k] == [last] + inner;
      assert Spine(forest)[..k][1..] == inner;
      PushOnSpineGrows(forest[last].children, k - 1, leaf);
    }
  }

  lemma LastRootCounts(init: seq<Node>, last: Node)
    ensures Spine(init + [last]) == [|init|] + Spine(last.children)
    ensures CountAll(init + [last]) == CountAll(init) + 1 + CountAll(last.children)
  {
    assert (init + [last])[..|init|] == init;
  }

  lemma LastRootNumbers(init: seq<Node>, last: Node, base: nat)
    ensures SpineNumbers(init + [last], base)
         == [base + CountAll(init)] + SpineNumbers(last.children, base + CountAll(init) + 1)
  {
    hide CountAll, Spine;
    assert (init + [last])[..|init|] == init;
  }

  lemma LastRootFlat(init: seq<Node>, last: Node, parent: int, base: nat)
    ensures var self := base + CountAll(init);
            Flat(init + [last], parent, base)
            == Flat(init, parent, base) + [(last.section, parent)] + Flat(last.children, self, self + 1)
  {
    hide CountAll;
    assert (init + [last])[..|init|] == init;
  }

  lemma LastRootUnfolds(init: seq<Node>, last: Node, parent: int, base: nat)
    ensures var self := base + CountAll(init);
            && Spine(init + [last]) == [|init|] + Spine(last.children)
            && SpineNumbers(init + [last], base) == [self] + SpineNumbers(last.children, self + 1)
            && CountAll(init + [last]) == CountAll(init) + 1 + CountAll(last.children)
            && Flat(init + [last], parent, base)
               == Flat(init, parent, base) + [(last.section, parent)] + Flat(last.children, self, self + 1)
  {
    hide Spine, CountAll, SpineNumbers, Flat;
    LastRootCounts(init, last);
    LastRootNumbers(init, last, base);
    LastRootFlat(init, last, parent, base);
  }

  lemma AppendLast<T>(prefix: seq<T>, inner: seq<T>, k: nat, x: T)
    requires k <= |inner|
    ensures prefix + (inner + [x]) == prefix + inner + [x]
    ensures prefix + (inner[..k] + [x]) == (prefix + inner)[..|prefix| + k] + [x]
  {
    assert (prefix + inner)[..|prefix| + k] == prefix + inner[..k];
  }

  /** `after` has the pre-order list of `forest` plus `leaf`, whose parent is the k-th spine node. */
  ghost predicate Appends(forest: seq<Node>, after: seq<Node>, k: nat, leaf: Node, parent: int, base: nat) {
    var numbers := SpineNumbers(forest, base);
    && k <= |numbers|
    && CountAll(after) == CountAll(forest) + 1
    && SpineNumbers(after, base) == numbers[..k] + [base + CountAll(forest)]
    && Flat(after, parent, base)
       == Flat(forest, parent, base) + [(leaf.section, if k == 0 then parent else numbers[k - 1])]
  }

  lemma AppendsBelowLastRoot(init: seq<Node>, last: Node, grown: Node, k: nat, leaf: Node, parent: int, base: nat)
    requires grown.section == last.section
    requires Appends(last.children, grown.children, k, leaf, base + CountAll(init), base + CountAll(init) + 1)
    ensures Appends(init + [last], init + [grown], k + 1, leaf, parent, base)
  {
    hide Flat, SpineNumbers, Spine, CountAll;
    var self := base + CountAll(init);
    LastRootUnfolds(init, last, parent, base);
    LastRootUnfolds(init, grown, parent, base);
    AppendLast([self], SpineNumbers(last.children, self + 1), k, self + 1 + CountAll(last.children));
  }

  /** A push on the spine appends the leaf to the pre-order list, under the node it was pushed to. */
  lemma {:induction false} PushOnSpineAppends(forest: seq<Node>, after: seq<Node>, k: nat, leaf: Node,
                                              parent: int, base: nat)
    requires k <= |Spine(forest)| && leaf.children == []
    requires GrownAt(forest, after, k, leaf)
    ensures Appends(forest, after, k, leaf, parent, base)
    decreases k
  {
    hide Flat, SpineNumbers, CountAll, Appends;
    if k == 0 {
      PushOnRootsAppends(forest, leaf, parent, base);
    } else {
      var last := |forest| - 1;
      var init := forest[..last];
      var self := base + CountAll(init);
      assert forest == init + [forest[last]];
      PushOnSpineAppends(forest[last].children, after[last].children, k - 1, leaf, self, self + 1);
      AppendsBelowLastRoot(init, forest[last], after[last], k - 1, leaf, parent, base);
    }
  }

  lemma PushOnRootsAppends(forest: seq<Node>, leaf: Node, parent: int, base: nat)
    requires leaf.children == []
    ensures Appends(forest, forest + [leaf], 0, leaf, parent, base)
  {
    LastRootUnfolds(forest, leaf, parent, base);
  }
}
