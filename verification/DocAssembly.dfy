/**
 The assembly loop of doc_tree.rs over whole section lists: no pointer it dereferences is dangling,
 and the tree it builds is the outline of the list.
 */
module DocAssembly {
  import opened DocTree

  // ----- What every iteration keeps

  /** The stack lists the spine, outermost first. */
  predicate StackIsSpine(b: Builder) {
    && |b.stack| == |Spine(b.roots)|
    && forall k :: 0 <= k < |b.stack| ==> b.stack[k].ptr == Spine(b.roots)[..k + 1]
  }

  function Before(numbers: seq<nat>, k: nat): int
    requires k <= |numbers|
  {
    if k == 0 then -1 else numbers[k - 1]
  }

  predicate LinkAt(secs: seq<Section>, numbers: seq<nat>, k: nat)
    requires k < |numbers|
  {
    numbers[k] < |secs| && Parent(secs, numbers[k]) == Before(numbers, k)
  }

  predicate Linked(secs: seq<Section>, numbers: seq<nat>) {
    forall k :: 0 <= k < |numbers| ==> LinkAt(secs, numbers, k)
  }

  /** Each spine node is the parent, in the reference sense, of the next; the last one is the newest. */
  predicate Chain(secs: seq<Section>, numbers: seq<nat>) {
    && (numbers == [] <==> secs == [])
    && (numbers != [] ==> numbers[|numbers| - 1] == |secs| - 1)
    && Linked(secs, numbers)
  }

  /** The depths stored on the stack are those of the sections the numbers name. */
  predicate DepthsMatch(secs: seq<Section>, stack: seq<Entry>, numbers: seq<nat>) {
    && |stack| == |numbers|
    && forall k :: 0 <= k < |stack| ==> numbers[k] < |secs| && stack[k].depth == secs[numbers[k]].depth
  }

  predicate Invariant(b: Builder, secs: seq<Section>) {
    && StackIsSpine(b)
    && (forall k :: 0 <= k < |b.stack| ==> b.stack[k].ptr in b.live)
    && Flat(b.roots, -1, 0) == WithParents(secs)
    && Chain(secs, SpineNumbers(b.roots, 0))
    && DepthsMatch(secs, b.stack, SpineNumbers(b.roots, 0))
  }

  /** Popping stops exactly at the nearest earlier section of smaller depth. */
  lemma {:induction false} PoppingFindsParent(secs: seq<Section>, stack: seq<Entry>, numbers: seq<nat>, depth: nat)
    requires DepthsMatch(secs, stack, numbers)
    requires Linked(secs, numbers)
    ensures Shallower(secs, depth, Before(numbers, |numbers|) + 1)
         == Before(numbers, |Popped(stack, depth)|)
    decreases |stack|
  {
    var m := |stack|;
    if m > 0 && stack[m - 1].depth >= depth {
      var above := numbers[m - 1];
      assert LinkAt(secs, numbers, m - 1);
      ShallowerIsNearest(secs, secs[above].depth, above);
      ShallowerSkips(secs, depth, Parent(secs, above) + 1, above + 1);
      var below := numbers[..m - 1];
      assert Linked(secs, below) by {
        forall k | 0 <= k < |below|
          ensures LinkAt(secs, below, k)
        {
          assert LinkAt(secs, numbers, k);
          assert below[k] == numbers[k] && Before(below, k) == Before(numbers, k);
        }
      }
      PoppingFindsParent(secs, stack[..m - 1], below, depth);
    }
  }

  /**
   No pointer on the stack is invalidated by the push of the same iteration, so the node under the
   top of the stack has not moved when the next iteration dereferences it.
   */
  lemma PushMovesNoStackedNode(b: Builder, secs: seq<Section>, depth: nat)
    requires Invariant(b, secs)
    ensures var stack := Popped(b.stack, depth);
            && Addresses(b.roots, Target(stack))
            && (stack != [] ==> Target(stack) in b.live)
            && forall e :: e in stack ==> e.ptr in Survivors(b.live, Target(stack))
  {
    var stack := Popped(b.stack, depth);
    PushOnSpineGrows(b.roots, |stack|, Node("", Section(0, "", 0, 0, 0), []));
    assert Target(stack) == Spine(b.roots)[..|stack|];
  }

  lemma StepKeepsInvariant(b: Builder, secs: seq<Section>, s: Section)
    requires Invariant(b, secs)
    requires Addresses(b.roots, Target(Popped(b.stack, s.depth)))
    ensures Invariant(Step(b, s), secs + [s])
  {
    PushMovesNoStackedNode(b, secs, s.depth);
    StepKeepsStack(b, s);
    StepKeepsOrder(b, secs, s);
  }

  lemma StepKeepsStack(b: Builder, s: Section)
    requires StackIsSpine(b)
    requires Addresses(b.roots, Target(Popped(b.stack, s.depth)))
    ensures StackIsSpine(Step(b, s))
    ensures Target(Popped(b.stack, s.depth)) == Spine(b.roots)[..|Popped(b.stack, s.depth)|]
  {
    var k := |Popped(b.stack, s.depth)|;
    var leaf := Node("", s, []);
    PushOnSpineGrows(b.roots, k, leaf);
    assert Target(Popped(b.stack, s.depth)) == Spine(b.roots)[..k];
    var after := Step(b, s);
    forall i | 0 <= i < |after.stack|
      ensures after.stack[i].ptr == Spine(after.roots)[..i + 1]
    {
      if i < k {
        assert after.stack[i] == b.stack[i];
        assert Spine(after.roots)[..i + 1] == Spine(b.roots)[..i + 1];
      } else {
        assert Spine(after.roots)[..i + 1] == Spine(after.roots);
      }
    }
  }

  /** What is left of the stack is empty exactly when no earlier section is shallower. */
  lemma StackTopIsParent(b: Builder, secs: seq<Section>, depth: nat)
    requires Invariant(b, secs)
    ensures Popped(b.stack, depth) == [] <==> Shallower(secs, depth, |secs|) == -1
  {
    assert |secs| == |WithParents(secs)| == CountAll(b.roots);
    hide Flat, CountAll, Spine, Shallower, WithParents, Linked;
    PoppingFindsParent(secs, b.stack, SpineNumbers(b.roots, 0), depth);
  }

  lemma AppendKeepsParent(secs: seq<Section>, s: Section, i: nat)
    requires i <= |secs|
    ensures Parent(secs + [s], i)
         == if i < |secs| then Parent(secs, i) else Shallower(secs, s.depth, |secs|)
  {
    ShallowerIgnoresLater(secs, [s], (secs + [s])[i].depth, i);
  }

  lemma AppendKeepsParents(secs: seq<Section>, s: Section)
    ensures WithParents(secs + [s]) == WithParents(secs) + [(s, Shallower(secs, s.depth, |secs|))]
  {
    assert (secs + [s])[..|secs|] == secs;
    AppendKeepsParent(secs, s, |secs|);
  }

  lemma ChainExtends(secs: seq<Section>, s: Section, numbers: seq<nat>, k: nat)
    requires Chain(secs, numbers) && k <= |numbers|
    requires Shallower(secs, s.depth, |secs|) == Before(numbers, k)
    ensures Chain(secs + [s], numbers[..k] + [|secs|])
  {
    var all := secs + [s];
    var longer := numbers[..k] + [|secs|];
    forall i | 0 <= i < |longer|
      ensures LinkAt(all, longer, i)
    {
      assert Before(longer, i) == Before(numbers, i);
      if i < k {
        assert longer[i] == numbers[i] && LinkAt(secs, numbers, i);
      }
      AppendKeepsParent(secs, s, longer[i]);
    }
  }

  lemma StepKeepsDepths(secs: seq<Section>, stack: seq<Entry>, numbers: seq<nat>, k: nat, s: Section, ptr: Ptr)
    requires DepthsMatch(secs, stack, numbers) && k <= |stack|
    ensures DepthsMatch(secs + [s], stack[..k] + [Entry(s.depth, ptr)], numbers[..k] + [|secs|])
  {
  }

  lemma StepAppends(b: Builder, s: Section)
    requires StackIsSpine(b)
    requires Addresses(b.roots, Target(Popped(b.stack, s.depth)))
    requires Target(Popped(b.stack, s.depth)) == Spine(b.roots)[..|Popped(b.stack, s.depth)|]
    ensures var k := |Popped(b.stack, s.depth)|;
            var after := Step(b, s);
            && Appends(b.roots, after.roots, k, Node("", s, []), -1, 0)
            && k < |after.stack|
            && after.stack == b.stack[..k] + [Entry(s.depth, after.stack[k].ptr)]
  {
    var k := |Popped(b.stack, s.depth)|;
    var leaf := Node("", s, []);
    PushOnSpineGrows(b.roots, k, leaf);
    hide Appends;
    PushOnSpineAppends(b.roots, Step(b, s).roots, k, leaf, -1, 0);
  }

  lemma StepKeepsOrder(b: Builder, secs: seq<Section>, s: Section)
    requires Invariant(b, secs)
    requires Addresses(b.roots, Target(Popped(b.stack, s.depth)))
    requires Target(Popped(b.stack, s.depth)) == Spine(b.roots)[..|Popped(b.stack, s.depth)|]
    ensures var after := Step(b, s);
            var numbers := SpineNumbers(after.roots, 0);
            && Flat(after.roots, -1, 0) == WithParents(secs + [s])
            && Chain(secs + [s], numbers)
            && DepthsMatch(secs + [s], after.stack, numbers)
  {
    assert |secs| == |WithParents(secs)| == CountAll(b.roots);
    var numbers := SpineNumbers(b.roots, 0);
    assert numbers != [] ==> Before(numbers, |numbers|) + 1 == |secs|;
    StepAppends(b, s);
    hide Flat, SpineNumbers, CountAll, Spine, Popped, Step, Addresses, Shallower, WithParents, Linked;
    var k := |Popped(b.stack, s.depth)|;
    PoppingFindsParent(secs, b.stack, numbers, s.depth);
    AppendKeepsParents(secs, s);
    ChainExtends(secs, s, numbers, k);
    StepKeepsDepths(secs, b.stack, numbers, k, s, Step(b, s).stack[k].ptr);
  }

  // ----- The whole loop

  lemma StepIsSafe(b: Builder, secs: seq<Section>, s: Section)
    requires Invariant(b, secs)
    ensures Addresses(b.roots, Target(Popped(b.stack, s.depth)))
    ensures Invariant(Step(b, s), secs + [s])
  {
    PushMovesNoStackedNode(b, secs, s.depth);
    StepKeepsInvariant(b, secs, s);
  }

  function Run(secs: seq<Section>): (b: Builder)
    ensures Invariant(b, secs)
  {
    if secs == [] then Builder([], [], {})
    else
      var k := |secs| - 1;
      assert secs == secs[..k] + [secs[k]];
      hide Invariant, Step, Popped, Addresses;
      StepIsSafe(Run(secs[..k]), secs[..k], secs[k]);
      Step(Run(secs[..k]), secs[k])
  }

  lemma RunUnfolds(secs: seq<Section>, i: nat)
    requires i < |secs|
    ensures Addresses(Run(secs[..i]).roots, Target(Popped(Run(secs[..i]).stack, secs[i].depth)))
    ensures Run(secs[..i + 1]) == Step(Run(secs[..i]), secs[i])
  {
    hide Invariant, Step, Popped, Addresses;
    StepIsSafe(Run(secs[..i]), secs[..i], secs[i]);
    assert secs[..i + 1][..i] == secs[..i] && secs[..i + 1][i] == secs[i];
  }

  /** Whenever the loop reads through the top of the stack, that pointer is still alive. */
  lemma EveryDereferenceIsLive(secs: seq<Section>, i: nat)
    requires i < |secs|
    ensures var b := Run(secs[..i]);
            var stack := Popped(b.stack, secs[i].depth);
            && (stack != [] ==> stack[|stack| - 1].ptr in b.live && Addresses(b.roots, stack[|stack| - 1].ptr))
            && forall e :: e in stack ==> e.ptr in Run(secs[..i + 1]).live
  {
    var b := Run(secs[..i]);
    hide Invariant, Run;
    PushMovesNoStackedNode(b, secs[..i], secs[i].depth);
    RunUnfolds(secs, i);
  }

  lemma StepGrowsRoots(b: Builder, secs: seq<Section>, s: Section)
    requires Invariant(b, secs)
    ensures Addresses(b.roots, Target(Popped(b.stack, s.depth)))
    ensures |Step(b, s).roots| == |b.roots| + (if Popped(b.stack, s.depth) == [] then 1 else 0)
  {
    PushMovesNoStackedNode(b, secs, s.depth);
    var left := Popped(b.stack, s.depth);
    if left != [] {
      assert b.stack[|left| - 1] == left[|left| - 1];
      assert |Target(left)| == |left|;
    }
  }

  /** `roots` is pushed to exactly when no earlier section is shallower, so possibly many times. */
  lemma RootsGrowOnlyWithoutAncestor(secs: seq<Section>, i: nat)
    requires i < |secs|
    ensures Popped(Run(secs[..i]).stack, secs[i].depth) == [] <==> Parent(secs, i) == -1
    ensures |Run(secs[..i + 1]).roots| == |Run(secs[..i]).roots| + (if Parent(secs, i) == -1 then 1 else 0)
  {
    hide Invariant, Run, Popped, Step, Shallower;
    RunUnfolds(secs, i);
    StackTopIsParent(Run(secs[..i]), secs[..i], secs[i].depth);
    StepGrowsRoots(Run(secs[..i]), secs[..i], secs[i]);
    assert secs == secs[..i] + secs[i..];
    ShallowerIgnoresLater(secs[..i], secs[i..], secs[i].depth, i);
  }

  lemma StepPushes(b: Builder, s: Section)
    requires Addresses(b.roots, Target(Popped(b.stack, s.depth)))
    ensures var stack := Popped(b.stack, s.depth);
            var vec := Target(stack);
            var ptr := vec + [|ChildrenAt(b.roots, vec)|];
            Step(b, s) == Builder(PushAt(b.roots, vec, Node("", s, [])),
                                  stack + [Entry(s.depth, ptr)],
                                  Survivors(b.live, vec) + {ptr})
  {
  }

  function MaxDepth(secs: seq<Section>): nat {
    if secs == [] then 0
    else
      var before := MaxDepth(secs[..|secs| - 1]);
      var depth := secs[|secs| - 1].depth;
      if depth > before then depth else before
  }

  lemma {:induction false} MaxDepthIsMaximum(secs: seq<Section>) returns (at: nat)
    requires secs != []
    ensures at < |secs| && secs[at].depth == MaxDepth(secs)
    ensures forall i :: 0 <= i < |secs| ==> secs[i].depth <= MaxDepth(secs)
  {
    var k := |secs| - 1;
    at := k;
    if k > 0 {
      var before := MaxDepthIsMaximum(secs[..k]);
      at := if MaxDepth(secs) == secs[k].depth then k else before;
      forall i | 0 <= i < |secs|
        ensures secs[i].depth <= MaxDepth(secs)
      {
        if i < k { assert secs[i] == secs[..k][i]; }
      }
    }
  }

  lemma MaxDepthUnfolds(secs: seq<Section>, i: nat)
    requires i < |secs|
    ensures MaxDepth(secs[..i + 1])
         == if secs[i].depth > MaxDepth(secs[..i]) then secs[i].depth else MaxDepth(secs[..i])
  {
    assert secs[..i + 1][..i] == secs[..i];
  }

  method PopToAncestor(stack: seq<Entry>, depth: nat) returns (left: seq<Entry>)
    ensures left == Popped(stack, depth)
  {
    left := stack;
    while left != [] && left[|left| - 1].depth >= depth
      invariant Popped(left, depth) == Popped(stack, depth)
    {
      left := left[..|left| - 1];
    }
  }

  method Assemble(secs: seq<Section>) returns (roots: seq<Node>, maxDepth: nat)
    ensures roots == Run(secs).roots
    ensures Flat(roots, -1, 0) == WithParents(secs)
    ensures maxDepth == MaxDepth(secs)
  {
    hide Step, Flat, WithParents, PushAt, Survivors, Addresses, ChildrenAt, Popped;
    roots, maxDepth := [], 0;
    var stack: seq<Entry> := [];
    ghost var live: set<Ptr> := {};
    assert Run([]) == Builder([], [], {});
    for i := 0 to |secs|
      invariant Builder(roots, stack, live) == Run(secs[..i])
      invariant maxDepth == MaxDepth(secs[..i])
    {
      hide Invariant, Run, MaxDepth;
      var s := secs[i];
      MaxDepthUnfolds(secs, i);
      maxDepth := if s.depth > maxDepth then s.depth else maxDepth;
      EveryDereferenceIsLive(secs, i);
      RunUnfolds(secs, i);
      StepPushes(Run(secs[..i]), s);
      stack := PopToAncestor(stack, s.depth);
      var node := Node("", s, []);
      if stack != [] {
        var parent := stack[|stack| - 1].ptr;
        assert parent in live;
        var child := parent + [|ChildrenAt(roots, parent)|];
        roots := PushAt(roots, parent, node);
        live := Survivors(live, parent) + {child};
        stack := stack + [Entry(s.depth, child)];
      } else {
        var child: Ptr := [|roots|];
        PushAtRoots(roots, node);
        live := Survivors(live, []) + {child};
        stack := stack + [Entry(s.depth, child)];
        roots := roots + [node];
      }
    }
    assert secs[..|secs|] == secs;
    RunIsOutline(secs);
  }

  lemma PushAtRoots(roots: seq<Node>, node: Node)
    ensures Addresses(roots, [])
    ensures PushAt(roots, [], node) == roots + [node]
    ensures [] + [|ChildrenAt(roots, [])|] == [|roots|]
  {
  }

  lemma RunIsOutline(secs: seq<Section>)
    ensures Flat(Run(secs).roots, -1, 0) == WithParents(secs)
  {
    hide Flat, WithParents, Run;
  }

  // ----- The pre-order list with parents determines the forest

  predicate SameShape(f: seq<Node>, g: seq<Node>)
    decreases f
  {
    |f| == |g| &&
    (f == [] ||
     (var k := |f| - 1;
      && f[k].section == g[k].section
      && SameShape(f[k].children, g[k].children)
      && SameShape(f[..k], g[..k])))
  }

  lemma {:induction false} ParentsBelowBase(f: seq<Node>, parent: int, base: nat, i: nat)
    requires parent < base && i < |Flat(f, parent, base)|
    ensures Flat(f, parent, base)[i].1 == parent || Flat(f, parent, base)[i].1 >= base
    decreases f
  {
    LastRootEntry(f, parent, base);
    var k := |f| - 1;
    var n := |Flat(f[..k], parent, base)|;
    if i < n {
      ParentsBelowBase(f[..k], parent, base, i);
    } else if i > n {
      ParentsBelowBase(f[k].children, base + n, base + n + 1, i - n - 1);
    }
  }

  lemma LastRootEntry(f: seq<Node>, parent: int, base: nat)
    requires Flat(f, parent, base) != []
    ensures f != []
    ensures var k := |f| - 1;
            var n := |Flat(f[..k], parent, base)|;
            var list := Flat(f, parent, base);
            var below := Flat(f[k].children, base + n, base + n + 1);
            && n < |list| && list[n] == (f[k].section, parent)
            && list[..n] == Flat(f[..k], parent, base)
            && list[n + 1..] == below
            && |below| == |list| - n - 1
            && forall i :: n < i < |list| ==> list[i] == below[i - n - 1]
  {
  }

  /** After the last root's entry no entry of the list names the outer parent. */
  lemma LastRootPlace(f: seq<Node>, parent: int, base: nat, i: nat)
    requires f != [] && parent < base
    requires |Flat(f[..|f| - 1], parent, base)| < i < |Flat(f, parent, base)|
    ensures Flat(f, parent, base)[i].1 != parent
  {
    hide Flat, CountAll;
    LastRootEntry(f, parent, base);
    var n := |Flat(f[..|f| - 1], parent, base)|;
    ParentsBelowBase(f[|f| - 1].children, base + n, base + n + 1, i - n - 1);
  }

  /** Two forests with one pre-order list put their last root at the same place. */
  lemma LastRootsAgree(f: seq<Node>, g: seq<Node>, parent: int, base: nat)
    requires parent < base && Flat(f, parent, base) == Flat(g, parent, base) != []
    ensures f != [] && g != []
    ensures |Flat(f[..|f| - 1], parent, base)| == |Flat(g[..|g| - 1], parent, base)|
  {
    hide Flat, CountAll;
    LastRootEntry(f, parent, base);
    LastRootEntry(g, parent, base);
    var nf, ng := |Flat(f[..|f| - 1], parent, base)|, |Flat(g[..|g| - 1], parent, base)|;
    if nf < ng {
      LastRootPlace(f, parent, base, ng);
    } else if ng < nf {
      LastRootPlace(g, parent, base, nf);
    }
  }

  lemma {:induction false} FlatDetermines(f: seq<Node>, g: seq<Node>, parent: int, base: nat)
    requires parent < base && Flat(f, parent, base) == Flat(g, parent, base)
    ensures SameShape(f, g)
    decreases f
  {
    hide Flat, CountAll, SameShape;
    if Flat(f, parent, base) == [] {
      FlatEmpty(f, parent, base);
      FlatEmpty(g, parent, base);
    } else {
      LastRootsAgree(f, g, parent, base);
      LastRootEntry(f, parent, base);
      LastRootEntry(g, parent, base);
      var kf, kg := |f| - 1, |g| - 1;
      var n := |Flat(f[..kf], parent, base)|;
      FlatDetermines(f[..kf], g[..kg], parent, base);
      FlatDetermines(f[kf].children, g[kg].children, base + n, base + n + 1);
      SameShapeExtends(f, g);
    }
  }

  lemma FlatEmpty(f: seq<Node>, parent: int, base: nat)
    requires Flat(f, parent, base) == []
    ensures f == [] && SameShape(f, [])
  {
  }

  lemma SameShapeExtends(f: seq<Node>, g: seq<Node>)
    requires f != [] && g != []
    requires var kf, kg := |f| - 1, |g| - 1;
             && f[kf].section == g[kg].section
             && SameShape(f[kf].children, g[kg].children)
             && SameShape(f[..kf], g[..kg])
    ensures SameShape(f, g)
  {
  }
}
