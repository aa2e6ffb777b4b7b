/**
 Dotted section paths in doc_tree.rs: how they are assigned and how `find` resolves them.
 */
module DocPaths {
  import opened Commons
  import opened DocTree
  import opened DocAssembly

  // ----- Assigning paths

  function Assign(n: Node, path: string): Node
    decreases n
  {
    n.(path := path, children := AssignAll(n.children, path + ".", 0))
  }

  /** The nodes numbered from `from + 1`, each number appended to `prefix`. */
  function AssignAll(nodes: seq<Node>, prefix: string, from: nat): (r: seq<Node>)
    ensures |r| == |nodes|
    decreases nodes
  {
    if nodes == [] then []
    else [Assign(nodes[0], prefix + Decimal(from + 1))] + AssignAll(nodes[1..], prefix, from + 1)
  }

  lemma {:induction false} AssignAllAt(nodes: seq<Node>, prefix: string, from: nat, i: nat)
    requires i < |nodes|
    ensures AssignAll(nodes, prefix, from)[i] == Assign(nodes[i], prefix + Decimal(from + i + 1))
  {
    if i > 0 {
      AssignAllAt(nodes[1..], prefix, from + 1, i - 1);
    }
  }

  /** The source's recursion: overwrite this node's path, then each child's in order. */
  method AssignPaths(n: Node, path: string) returns (r: Node)
    ensures r == Assign(n, path)
    decreases n
  {
    var children: seq<Node> := [];
    for i := 0 to |n.children|
      invariant |children| == i
      invariant forall k :: 0 <= k < i ==>
                  children[k] == Assign(n.children[k], path + "." + Decimal(k + 1))
    {
      var child := AssignPaths(n.children[i], path + "." + Decimal(i + 1));
      children := children + [child];
    }
    r := n.(path := path, children := children);
    forall i | 0 <= i < |children|
      ensures children[i] == AssignAll(n.children, path + ".", 0)[i]
    {
      AssignAllAt(n.children, path + ".", 0, i);
    }
  }

  // ----- Searching by path

  function Find(n: Node, path: string): Option<Node>
    decreases n
  {
    if n.path == path then Some(n) else FindIn(n.children, path)
  }

  function FindIn(nodes: seq<Node>, path: string): Option<Node>
    decreases nodes
  {
    if nodes == [] then None
    else
      var first := Find(nodes[0], path);
      if first.Some? then first else FindIn(nodes[1..], path)
  }

  /** `a` is the address of a node in the tree under `n`; [] is `n` itself. */
  predicate InTree(n: Node, a: seq<nat>)
    decreases |a|
  {
    a == [] || (a[0] < |n.children| && InTree(n.children[a[0]], a[1..]))
  }

  function NodeAt(n: Node, a: seq<nat>): Node
    requires InTree(n, a)
    decreases |a|
  {
    if a == [] then n else NodeAt(n.children[a[0]], a[1..])
  }

  lemma {:induction false} FindFindsSome(n: Node, a: seq<nat>)
    requires InTree(n, a)
    ensures Find(n, NodeAt(n, a).path).Some?
    decreases |a|
  {
    if a != [] {
      FindFindsSome(n.children[a[0]], a[1..]);
      FindInFindsSome(n.children, a[0], NodeAt(n, a).path);
    }
  }

  lemma {:induction false} FindInFindsSome(nodes: seq<Node>, i: nat, path: string)
    requires i < |nodes| && Find(nodes[i], path).Some?
    ensures FindIn(nodes, path).Some?
  {
    if i > 0 {
      FindInFindsSome(nodes[1..], i - 1, path);
    }
  }

  /** Whatever `find` returns is a node of the tree with the requested path. */
  lemma {:induction false} FindIsSound(n: Node, path: string) returns (a: seq<nat>)
    requires Find(n, path).Some?
    ensures InTree(n, a) && NodeAt(n, a) == Find(n, path).value && NodeAt(n, a).path == path
    decreases n
  {
    if n.path == path {
      a := [];
    } else {
      var i, rest := FindInIsSound(n.children, path);
      a := [i] + rest;
    }
  }

  lemma {:induction false} FindInIsSound(nodes: seq<Node>, path: string) returns (i: nat, a: seq<nat>)
    requires FindIn(nodes, path).Some?
    ensures i < |nodes| && InTree(nodes[i], a)
    ensures NodeAt(nodes[i], a) == FindIn(nodes, path).value && NodeAt(nodes[i], a).path == path
    decreases nodes
  {
    if Find(nodes[0], path).Some? {
      i := 0;
      a := FindIsSound(nodes[0], path);
    } else {
      i, a := FindInIsSound(nodes[1..], path);
      i := i + 1;
    }
  }

  // ----- Paths name addresses one to one

  function Suffix(a: seq<nat>): string {
    if a == [] then "" else "." + Decimal(a[0] + 1) + Suffix(a[1..])
  }

  /** The path of the node at address `a` under the document root. */
  function Dotted(a: seq<nat>): string {
    if a == [] then "" else Decimal(a[0] + 1) + Suffix(a[1..])
  }

  /** Two numerals followed by nothing or by a dot: equal texts have equal numerals and equal rests. */
  lemma NumeralEnds(m: nat, s: string, n: nat, t: string)
    requires Decimal(m) + s == Decimal(n) + t
    requires s == "" || s[0] == '.'
    requires t == "" || t[0] == '.'
    ensures m == n && s == t
  {
    var dm, dn := Decimal(m), Decimal(n);
    if |dm| < |dn| {
      assert (dm + s)[|dm|] == dn[|dm|];
      DecimalIsDigits(n, |dm|);
      assert false;
    } else if |dn| < |dm| {
      assert (dn + t)[|dn|] == dm[|dn|];
      DecimalIsDigits(m, |dn|);
      assert false;
    } else {
      assert dm == (dm + s)[..|dm|] && dn == (dn + t)[..|dn|];
      assert s == (dm + s)[|dm|..] && t == (dn + t)[|dn|..];
      DecimalInjective(m, n);
    }
  }

  lemma {:induction false} SuffixInjective(a: seq<nat>, b: seq<nat>)
    requires Suffix(a) == Suffix(b)
    ensures a == b
  {
    if a != [] && b != [] {
      assert (Decimal(a[0] + 1) + Suffix(a[1..])) == Suffix(a)[1..];
      assert (Decimal(b[0] + 1) + Suffix(b[1..])) == Suffix(b)[1..];
      NumeralEnds(a[0] + 1, Suffix(a[1..]), b[0] + 1, Suffix(b[1..]));
      SuffixInjective(a[1..], b[1..]);
      assert a == [a[0]] + a[1..] && b == [b[0]] + b[1..];
    }
  }

  /** Distinct addresses have distinct paths. */
  lemma DottedInjective(a: seq<nat>, b: seq<nat>)
    requires Dotted(a) == Dotted(b)
    ensures a == b
  {
    if a != [] && b != [] {
      NumeralEnds(a[0] + 1, Suffix(a[1..]), b[0] + 1, Suffix(b[1..]));
      SuffixInjective(a[1..], b[1..]);
      assert a == [a[0]] + a[1..] && b == [b[0]] + b[1..];
    }
  }

  lemma {:induction false} AssignedPath(n: Node, path: string, a: seq<nat>)
    requires InTree(Assign(n, path), a)
    ensures NodeAt(Assign(n, path), a).path == path + Suffix(a)
    decreases |a|
  {
    if a == [] {
      assert path + "" == path;
    } else {
      AssignAllAt(n.children, path + ".", 0, a[0]);
      var step := "." + Decimal(a[0] + 1);
      assert path + "." + Decimal(a[0] + 1) == path + step;
      AssignedPath(n.children[a[0]], path + step, a[1..]);
      assert path + step + Suffix(a[1..]) == path + (step + Suffix(a[1..]));
    }
  }

  /** The wrapped tree: the document root with an empty path over the numbered heading roots. */
  function DocumentRoot(root: Section, roots: seq<Node>): Node {
    Node("", root, AssignAll(roots, "", 0))
  }

  lemma DocumentPath(root: Section, roots: seq<Node>, a: seq<nat>)
    requires InTree(DocumentRoot(root, roots), a)
    ensures NodeAt(DocumentRoot(root, roots), a).path == Dotted(a)
  {
    if a != [] {
      AssignAllAt(roots, "", 0, a[0]);
      assert "" + Decimal(a[0] + 1) == Decimal(a[0] + 1);
      AssignedPath(roots[a[0]], Decimal(a[0] + 1), a[1..]);
    }
  }

  /** `find` is exact: a node's own path finds that very node, any other string finds nothing. */
  lemma FindIsExact(root: Section, roots: seq<Node>, path: string)
    ensures var tree := DocumentRoot(root, roots);
            && (forall a :: InTree(tree, a) && Dotted(a) == path ==> Find(tree, path) == Some(NodeAt(tree, a)))
            && (Find(tree, path) == None <==> forall a :: InTree(tree, a) ==> Dotted(a) != path)
  {
    var tree := DocumentRoot(root, roots);
    forall a | InTree(tree, a) && Dotted(a) == path
      ensures Find(tree, path) == Some(NodeAt(tree, a))
    {
      DocumentPath(root, roots, a);
      FindFindsSome(tree, a);
      var b := FindIsSound(tree, path);
      DocumentPath(root, roots, b);
      DottedInjective(a, b);
    }
    if Find(tree, path).Some? {
      var b := FindIsSound(tree, path);
      DocumentPath(root, roots, b);
    }
  }

  // ----- Assigning paths leaves the tree itself alone

  lemma {:induction false} SameShapeFromParts(f: seq<Node>, g: seq<Node>)
    requires |f| == |g|
    requires forall i :: 0 <= i < |f| ==> f[i].section == g[i].section && SameShape(f[i].children, g[i].children)
    ensures SameShape(f, g)
    decreases |f|
  {
    if f != [] {
      SameShapeFromParts(f[..|f| - 1], g[..|g| - 1]);
    }
  }

  lemma {:induction false} AssignKeepsShape(nodes: seq<Node>, prefix: string)
    ensures SameShape(nodes, AssignAll(nodes, prefix, 0))
    decreases nodes
  {
    var after := AssignAll(nodes, prefix, 0);
    forall i | 0 <= i < |nodes|
      ensures after[i].section == nodes[i].section && SameShape(nodes[i].children, after[i].children)
    {
      AssignAllAt(nodes, prefix, 0, i);
      AssignKeepsShape(nodes[i].children, prefix + Decimal(i + 1) + ".");
    }
    SameShapeFromParts(nodes, after);
  }

  lemma {:induction false} SameShapeSameFlat(f: seq<Node>, g: seq<Node>, parent: int, base: nat)
    requires SameShape(f, g)
    ensures Flat(f, parent, base) == Flat(g, parent, base)
    decreases f
  {
    if f != [] {
      var k := |f| - 1;
      SameShapeSameFlat(f[..k], g[..k], parent, base);
      var self := base + |Flat(f[..k], parent, base)|;
      SameShapeSameFlat(f[k].children, g[k].children, self, self + 1);
    }
  }
}
