/**
 The line scanners of doc_tree.rs, the section ranges cut from their headings, and the whole
 builder.  Bytes are written as chars; offsets are byte offsets.
 */
module DocHeadings {
  import opened Commons
  import opened DocTree
  import opened DocAssembly
  import opened DocPaths
  import opened DocLeaves

  datatype Dialect = Atx | Marker
  datatype Parsed = Parsed(depth: nat, title: string)
  datatype Heading = Heading(depth: nat, title: string, markerStart: nat, bodyStart: nat)

  const MAX_ATX_DEPTH := 6
  const SECTION_PREFIX := "SECTION:"

  function TrimEndHashes(s: string): string {
    if s != "" && s[|s| - 1] == '#' then TrimEndHashes(s[..|s| - 1]) else s
  }

  function Hashes(s: string): (k: nat)
    ensures k <= |s|
  {
    if s != "" && s[0] == '#' then 1 + Hashes(s[1..]) else 0
  }

  predicate StartsWithBlank(s: string) {
    s != "" && (s[0] == ' ' || s[0] == '\t')
  }

  function ParseAtxLine(line: string): (r: Option<Parsed>)
    ensures r.Some? ==> 1 <= r.value.depth <= MAX_ATX_DEPTH && r.value.title != ""
  {
    var trimmed := TrimStart(line);
    var depth := Hashes(trimmed);
    if depth == 0 || depth > MAX_ATX_DEPTH || !StartsWithBlank(trimmed[depth..]) then None
    else
      var title := Trim(TrimEndHashes(Trim(trimmed[depth..])));
      if title == "" then None else Some(Parsed(depth, title))
  }

  predicate IsDigit(c: char) {
    '0' <= c <= '9'
  }

  function DigitsEnd(s: string, i: nat): (j: nat)
    requires i <= |s|
    ensures i <= j <= |s|
    decreases |s| - i
  {
    if i < |s| && IsDigit(s[i]) then DigitsEnd(s, i + 1) else i
  }

  predicate AllDigits(s: string, i: nat, j: nat)
    requires i <= j <= |s|
  {
    forall k :: i <= k < j ==> IsDigit(s[k])
  }

  lemma {:induction false} DigitsEndIs(s: string, i: nat, j: nat)
    requires i <= j <= |s|
    ensures DigitsEnd(s, i) == j <==> AllDigits(s, i, j) && (j < |s| ==> !IsDigit(s[j]))
    decreases |s| - i
  {
    if i < |s| && IsDigit(s[i]) && i < j {
      DigitsEndIs(s, i + 1, j);
    }
  }

  /** Reads "digits dot" groups from `i`: how many there are and where they end. */
  datatype Numbering = Numbering(depth: nat, end: nat)

  function Groups(s: string, i: nat): (r: Option<Numbering>)
    requires i <= |s|
    ensures r.Some? ==> i <= r.value.end <= |s|
    decreases |s| - i
  {
    var j := DigitsEnd(s, i);
    if j == i then Some(Numbering(0, i))
    else if j < |s| && s[j] == '.' then
      var rest := Groups(s, j + 1);
      if rest.None? then None else Some(Numbering(rest.value.depth + 1, rest.value.end))
    else None
  }

  function NumberedSpec(line: string): (r: Option<Parsed>)
    ensures r.Some? ==> r.value.depth >= 1 && r.value.title != ""
  {
    var g := Groups(line, 0);
    if g.None? || g.value.depth == 0 || !StartsWithBlank(line[g.value.end..]) || Trim(line[g.value.end..]) == ""
    then None
    else Some(Parsed(g.value.depth, Trim(line[g.value.end..])))
  }

  method ParseNumbered(line: string) returns (r: Option<Parsed>)
    ensures r == NumberedSpec(line)
  {
    var depth, idx := 0, 0;
    while true
      invariant idx <= |line|
      invariant var rest := Groups(line, idx);
                Groups(line, 0) == (
                  if rest.None? then None else Some(Numbering(depth + rest.value.depth, rest.value.end)))
      decreases |line| - idx
    {
      var sawDigitsAt := idx;
      while idx < |line| && IsDigit(line[idx])
        invariant sawDigitsAt <= idx <= |line|
        invariant DigitsEnd(line, sawDigitsAt) == DigitsEnd(line, idx)
      {
        idx := idx + 1;
      }
      if idx == sawDigitsAt {
        break;
      }
      if idx < |line| && line[idx] == '.' {
        depth := depth + 1;
        idx := idx + 1;
      } else {
        return None;
      }
    }
    if depth == 0 || idx >= |line| || !StartsWithBlank(line[idx..]) {
      return None;
    }
    var title := Trim(line[idx..]);
    r := if title == "" then None else Some(Parsed(depth, title));
  }

  /** s[i..end] is `depth` groups, each a non-empty run of digits closed by a dot. */
  ghost predicate IsNumbering(s: string, i: nat, end: nat, depth: nat)
    requires i <= end <= |s|
    decreases depth
  {
    if depth == 0 then i == end
    else exists j :: i < j < end && AllDigits(s, i, j) && s[j] == '.' && IsNumbering(s, j + 1, end, depth - 1)
  }

  lemma {:induction false} GroupsReadNumbering(s: string, i: nat)
    requires i <= |s| && Groups(s, i).Some?
    ensures var Numbering(depth, end) := Groups(s, i).value;
            && IsNumbering(s, i, end, depth)
            && (end < |s| ==> !IsDigit(s[end]))
    decreases |s| - i
  {
    hide AllDigits;
    var j := DigitsEnd(s, i);
    DigitsEndIs(s, i, j);
    if j > i {
      GroupsReadNumbering(s, j + 1);
    }
  }

  lemma {:induction false} NumberingIsRead(s: string, i: nat, end: nat, depth: nat)
    requires i <= end <= |s| && IsNumbering(s, i, end, depth)
    requires end < |s| ==> !IsDigit(s[end])
    ensures Groups(s, i) == Some(Numbering(depth, end))
    decreases depth
  {
    if depth == 0 {
      DigitsEndIs(s, i, i);
    } else {
      var j: nat :| i < j < end && AllDigits(s, i, j) && s[j] == '.' && IsNumbering(s, j + 1, end, depth - 1);
      hide IsNumbering, AllDigits;
      DigitsEndIs(s, i, j);
      NumberingIsRead(s, j + 1, end, depth - 1);
    }
  }

  ghost predicate NumberedTitle(line: string, end: nat, depth: nat, title: string) {
    && depth > 0 && end <= |line| && IsNumbering(line, 0, end, depth)
    && StartsWithBlank(line[end..]) && Trim(line[end..]) == title != ""
  }

  /** A numbered heading is exactly a numbering, a blank and a non-empty title; its depth is the number of dots. */
  lemma NumberedLineShape(line: string, depth: nat, title: string)
    ensures NumberedSpec(line) == Some(Parsed(depth, title))
       <==> exists end: nat :: NumberedTitle(line, end, depth, title)
  {
    if NumberedSpec(line) == Some(Parsed(depth, title)) {
      GroupsReadNumbering(line, 0);
      assert NumberedTitle(line, Groups(line, 0).value.end, depth, title);
    }
    if end: nat :| NumberedTitle(line, end, depth, title) {
      assert line[end] == line[end..][0];
      NumberingIsRead(line, 0, end, depth);
    }
  }

  function ParseMarkerLine(line: string): (r: Option<Parsed>)
    ensures r.Some? ==> r.value.depth >= 1
  {
    var trimmed := TrimStart(line);
    if SECTION_PREFIX <= trimmed then
      var title := Trim(trimmed[|SECTION_PREFIX|..]);
      if title == "" then None else Some(Parsed(1, title))
    else NumberedSpec(trimmed)
  }

  function ParseLine(dialect: Dialect, line: string): (r: Option<Parsed>)
    ensures r.Some? ==> r.value.depth >= 1
  {
    match dialect
    case Atx => ParseAtxLine(line)
    case Marker => ParseMarkerLine(line)
  }

  function LineEnd(body: string, i: nat): (j: nat)
    requires i <= |body|
    ensures i <= j <= |body|
    decreases |body| - i
  {
    if i < |body| && body[i] != '\n' then LineEnd(body, i + 1) else i
  }

  lemma {:induction false} LineEndIsNewline(body: string, i: nat, k: nat)
    requires i <= k < |body| && body[k] == '\n'
    ensures LineEnd(body, i) <= k
    decreases |body| - i
  {
    if body[i] != '\n' && i < k {
      LineEndIsNewline(body, i + 1, k);
    }
  }

  /** The heading on the line that starts at `i`, if there is one. */
  function HeadingAt(dialect: Dialect, body: string, i: nat): (r: seq<Heading>)
    requires i < |body|
    ensures |r| <= 1
    ensures |r| == 1 ==> r[0].depth >= 1 && r[0].markerStart == i && r[0].bodyStart == Min(LineEnd(body, i) + 1, |body|)
  {
    var j := LineEnd(body, i);
    var h := ParseLine(dialect, body[i..j]);
    if h.None? then [] else [Heading(h.value.depth, h.value.title, i, Min(j + 1, |body|))]
  }

  function HeadingsFrom(dialect: Dialect, body: string, i: nat): seq<Heading>
    decreases |body| - i
  {
    if i >= |body| then []
    else HeadingAt(dialect, body, i) + HeadingsFrom(dialect, body, LineEnd(body, i) + 1)
  }

  method FindLineEnd(body: string, i: nat) returns (j: nat)
    requires i <= |body|
    ensures j == LineEnd(body, i)
  {
    j := i;
    while j < |body| && body[j] != '\n'
      invariant i <= j <= |body|
      invariant LineEnd(body, j) == LineEnd(body, i)
    {
      j := j + 1;
    }
  }

  method DetectHeadingLines(dialect: Dialect, body: string) returns (out: seq<Heading>)
    ensures out == HeadingsFrom(dialect, body, 0)
  {
    hide ParseLine, LineEnd, HeadingsFrom;
    out := [];
    var i := 0;
    while i < |body|
      invariant out + HeadingsFrom(dialect, body, i) == HeadingsFrom(dialect, body, 0)
    {
      var j := FindLineEnd(body, i);
      var h := ParseLine(dialect, body[i..j]);
      if h.Some? {
        out := out + [Heading(h.value.depth, h.value.title, i, Min(j + 1, |body|))];
      }
      HeadingsUnfold(dialect, body, i);
      i := j + 1;
    }
    HeadingsUnfold(dialect, body, i);
  }

  lemma HeadingsUnfold(dialect: Dialect, body: string, i: nat)
    ensures HeadingsFrom(dialect, body, i)
         == if i >= |body| then []
            else HeadingAt(dialect, body, i) + HeadingsFrom(dialect, body, LineEnd(body, i) + 1)
  {
  }

  function Headings(body: string): seq<Heading> {
    var md := HeadingsFrom(Atx, body, 0);
    if md != [] then md else HeadingsFrom(Marker, body, 0)
  }

  // ----- The scanners see exactly the heading lines, in order

  predicate WellOrdered(hs: seq<Heading>, n: nat) {
    && (forall k :: 0 <= k < |hs| ==> hs[k].depth >= 1 && hs[k].markerStart < hs[k].bodyStart <= n)
    && forall k :: 0 < k < |hs| ==> hs[k - 1].bodyStart <= hs[k].markerStart
  }

  lemma {:induction false} HeadingsWellOrdered(dialect: Dialect, body: string, i: nat)
    ensures var hs := HeadingsFrom(dialect, body, i);
            WellOrdered(hs, |body|) && (hs != [] ==> i <= hs[0].markerStart)
    decreases |body| - i
  {
    hide HeadingAt, LineEnd, HeadingsFrom, WellOrdered;
    HeadingsUnfold(dialect, body, i);
    if i < |body| {
      HeadingsWellOrdered(dialect, body, LineEnd(body, i) + 1);
      WellOrderedPrepend(HeadingAt(dialect, body, i), HeadingsFrom(dialect, body, LineEnd(body, i) + 1), |body|);
    } else {
      WellOrderedEmpty(|body|);
    }
  }

  lemma WellOrderedEmpty(n: nat)
    ensures WellOrdered([], n)
  {
  }

  lemma WellOrderedPrepend(first: seq<Heading>, rest: seq<Heading>, n: nat)
    requires WellOrdered(rest, n) && |first| <= 1
    requires first != [] ==> first[0].depth >= 1 && first[0].markerStart < first[0].bodyStart <= n
    requires first != [] && rest != [] ==> first[0].bodyStart <= rest[0].markerStart
    ensures WellOrdered(first + rest, n)
  {
    var all := first + rest;
    if first != [] {
      forall k | 0 < k < |all|
        ensures all[k - 1].bodyStart <= all[k].markerStart
      {
        if k > 1 {
          assert rest[(k - 1) - 1].bodyStart <= rest[k - 1].markerStart;
        }
      }
    } else {
      assert all == rest;
    }
  }

  predicate IsLineStart(body: string, m: nat) {
    m < |body| && (m == 0 || body[m - 1] == '\n')
  }

  /** The headings found are those on heading lines, each at its line's first byte. */
  lemma {:induction false} HeadingsAreHeadingLines(dialect: Dialect, body: string, i: nat, h: Heading)
    requires i == 0 || i > |body| || body[i - 1] == '\n'
    ensures h in HeadingsFrom(dialect, body, i)
       <==> i <= h.markerStart && IsLineStart(body, h.markerStart) && [h] == HeadingAt(dialect, body, h.markerStart)
    decreases |body| - i
  {
    hide HeadingAt, LineEnd;
    if i < |body| {
      var j := LineEnd(body, i);
      var m := h.markerStart;
      assert j < |body| ==> body[j] == '\n' by { LineEndAt(body, i); }
      HeadingsAreHeadingLines(dialect, body, j + 1, h);
      if i < m && IsLineStart(body, m) {
        LineEndIsNewline(body, i, m - 1);
      }
      assert h in HeadingAt(dialect, body, i) <==> [h] == HeadingAt(dialect, body, i);
    }
  }

  lemma {:induction false} LineEndAt(body: string, i: nat)
    requires i <= |body|
    ensures LineEnd(body, i) < |body| ==> body[LineEnd(body, i)] == '\n'
    decreases |body| - i
  {
    if i < |body| && body[i] != '\n' {
      LineEndAt(body, i + 1);
    }
  }

  // ----- Section ranges

  function Sections(hs: seq<Heading>, n: nat): seq<Section> {
    if hs == [] then []
    else
      var h := hs[0];
      var end := if |hs| > 1 then hs[1].markerStart else n;
      (if h.depth == 0 then [] else [Section(h.depth, h.title, h.markerStart, h.bodyStart, end)])
      + Sections(hs[1..], n)
  }

  /** Pairs every heading with its successor; the sentinel at the body end closes the last one. */
  method PrepareSections(hs: seq<Heading>, n: nat) returns (prepared: seq<Section>)
    ensures prepared == Sections(hs, n)
  {
    var sections := hs + [Heading(0, "", n, n)];
    prepared := [];
    for i := 0 to |hs|
      invariant prepared + Sections(hs[i..], n) == Sections(hs, n)
    {
      var cur, next := sections[i], sections[i + 1];
      assert hs[i..][1..] == hs[i + 1..];
      if cur.depth != 0 {
        prepared := prepared + [Section(cur.depth, cur.title, cur.markerStart, cur.bodyStart, next.markerStart)];
      }
    }
  }

  /** The ranges tile the body from the first heading to its end, each around its own body slice. */
  predicate Tiles(secs: seq<Section>, n: nat) {
    && (forall k :: 0 <= k < |secs| ==> secs[k].start < secs[k].bodyStart <= secs[k].end <= n)
    && (forall k :: 0 < k < |secs| ==> secs[k - 1].end == secs[k].start)
    && (secs != [] ==> secs[|secs| - 1].end == n)
  }

  lemma SectionsUnfold(hs: seq<Heading>, n: nat)
    requires hs != [] && hs[0].depth >= 1
    ensures var h := hs[0];
            var end := if |hs| > 1 then hs[1].markerStart else n;
            Sections(hs, n) == [Section(h.depth, h.title, h.markerStart, h.bodyStart, end)] + Sections(hs[1..], n)
  {
  }

  lemma WellOrderedTail(hs: seq<Heading>, n: nat)
    requires hs != [] && WellOrdered(hs, n)
    ensures WellOrdered(hs[1..], n)
    ensures |hs| > 1 ==> hs[0].bodyStart <= hs[1].markerStart
  {
    var rest := hs[1..];
    assert |hs| > 1 ==> hs[1 - 1].bodyStart <= hs[1].markerStart;
    forall k | 0 < k < |rest|
      ensures rest[k - 1].bodyStart <= rest[k].markerStart
    {
      assert hs[(k + 1) - 1].bodyStart <= hs[k + 1].markerStart;
    }
  }

  lemma TilesPrepend(s: Section, rest: seq<Section>, n: nat)
    requires Tiles(rest, n) && s.start < s.bodyStart <= s.end <= n
    requires s.end == if rest == [] then n else rest[0].start
    ensures Tiles([s] + rest, n)
  {
    var all := [s] + rest;
    forall k | 0 < k < |all|
      ensures all[k - 1].end == all[k].start
    {
      if k > 1 {
        assert all[k - 1] == rest[k - 2] && all[k] == rest[k - 1] && rest[(k - 1) - 1].end == rest[k - 1].start;
      }
    }
  }

  lemma {:induction false} SectionsTile(hs: seq<Heading>, n: nat)
    requires WellOrdered(hs, n)
    ensures |Sections(hs, n)| == |hs| && Tiles(Sections(hs, n), n)
    ensures hs != [] ==> Sections(hs, n)[0].start == hs[0].markerStart
  {
    if hs != [] {
      hide Sections, Tiles;
      SectionsUnfold(hs, n);
      WellOrderedTail(hs, n);
      SectionsTile(hs[1..], n);
      TilesPrepend(Sections(hs, n)[0], Sections(hs[1..], n), n);
    }
  }

  /** Section k carries heading k's depth, title and marker. */
  lemma {:induction false} SectionOfHeading(hs: seq<Heading>, n: nat, k: nat)
    requires WellOrdered(hs, n) && k < |hs|
    ensures k < |Sections(hs, n)|
    ensures var s := Sections(hs, n)[k];
            && s.depth == hs[k].depth && s.title == hs[k].title
            && s.start == hs[k].markerStart && s.bodyStart == hs[k].bodyStart
  {
    hide Sections;
    SectionsUnfold(hs, n);
    WellOrderedTail(hs, n);
    if k > 0 {
      SectionOfHeading(hs[1..], n, k - 1);
    }
  }

  lemma {:induction false} StartsIncrease(secs: seq<Section>, n: nat, i: nat, j: nat)
    requires Tiles(secs, n) && i < j < |secs|
    ensures secs[i].end <= secs[j].start
    decreases j
  {
    assert secs[j - 1].end == secs[j].start;
    if i < j - 1 {
      StartsIncrease(secs, n, i, j - 1);
    }
  }

  /** A section's range ends before its first child's begins: ranges are never nested. */
  lemma ChildRangeOutsideParent(secs: seq<Section>, n: nat, i: nat)
    requires Tiles(secs, n) && i < |secs| && Parent(secs, i) >= 0
    ensures secs[Parent(secs, i)].end <= secs[i].start
  {
    StartsIncrease(secs, n, Parent(secs, i), i);
  }

  // ----- The builder

  lemma HeadingsAreOrdered(body: string)
    ensures WellOrdered(Headings(body), |body|)
  {
    HeadingsWellOrdered(Atx, body, 0);
    HeadingsWellOrdered(Marker, body, 0);
  }

  method NameRoots(roots: seq<Node>) returns (named: seq<Node>)
    ensures named == AssignAll(roots, "", 0)
  {
    named := [];
    for i := 0 to |roots|
      invariant |named| == i
      invariant forall k :: 0 <= k < i ==> named[k] == Assign(roots[k], "" + Decimal(k + 1))
    {
      var root := AssignPaths(roots[i], "" + Decimal(i + 1));
      named := named + [root];
    }
    forall i | 0 <= i < |named|
      ensures named[i] == AssignAll(roots, "", 0)[i]
    {
      AssignAllAt(roots, "", 0, i);
    }
  }

  /** The tree of a body: the heading forest of its sections, numbered, under the document root. */
  function DocumentTree(body: string, title: string): Node {
    DocumentRoot(Section(0, title, 0, 0, |body|), Run(Sections(Headings(body), |body|)).roots)
  }

  method BuildDocumentTree(body: string, title: string) returns (root: Node, leafCount: nat, maxDepth: nat)
    ensures root == DocumentTree(body, title)
    ensures leafCount == Max(NotDeepened(Sections(Headings(body), |body|), 0), 1)
    ensures maxDepth == MaxDepth(Sections(Headings(body), |body|))
  {
    DocumentTreeIsOutline(body, title);
    LeavesOfOutline(DocumentTree(body, title), Sections(Headings(body), |body|));
    hide HeadingsFrom, Assign, Flat, NotDeepened;
    var section := Section(0, title, 0, 0, |body|);
    var headings := DetectHeadingLines(Atx, body);
    if headings == [] {
      headings := DetectHeadingLines(Marker, body);
    }
    if headings == [] {
      return Node("", section, []), 1, 0;
    }
    var secs := PrepareSections(headings, |body|);
    var roots;
    roots, maxDepth := Assemble(secs);
    var named := NameRoots(roots);
    root := Node("", section, named);
    leafCount := CountLeavesTotal(root);
  }

  /**
   The built tree's pre-order list is the heading list, every section under the nearest earlier
   section of smaller depth, and the ranges tile the body from the first heading to the end.
   */
  lemma DocumentTreeIsOutline(body: string, title: string)
    ensures var secs := Sections(Headings(body), |body|);
            && Flat(DocumentTree(body, title).children, -1, 0) == WithParents(secs)
            && |secs| == |Headings(body)| && Tiles(secs, |body|)
            && (secs != [] ==> secs[0].start == Headings(body)[0].markerStart)
  {
    hide Flat, WithParents, Sections, Tiles, SameShape, AssignAll;
    var secs := Sections(Headings(body), |body|);
    HeadingsAreOrdered(body);
    SectionsTile(Headings(body), |body|);
    RunIsOutline(secs);
    AssignKeepsShape(Run(secs).roots, "");
    SameShapeSameFlat(Run(secs).roots, DocumentTree(body, title).children, -1, 0);
  }

  /** Every section of a built tree is found by its own path, and nothing else is. */
  lemma BuiltTreeFinds(body: string, title: string, path: string)
    ensures var tree := DocumentTree(body, title);
            && (forall a :: InTree(tree, a) && Dotted(a) == path ==> Find(tree, path) == Some(NodeAt(tree, a)))
            && (Find(tree, path) == None <==> forall a :: InTree(tree, a) ==> Dotted(a) != path)
  {
    FindIsExact(Section(0, title, 0, 0, |body|), Run(Sections(Headings(body), |body|)).roots, path);
  }
}
