/** Which lines doc_tree.rs takes for headings, written out as text, and which of the two dialects it reads. */
module DocLines {
  import opened Commons
  import opened DocHeadings

  predicate AllHashes(s: string) {
    forall i :: 0 <= i < |s| ==> s[i] == '#'
  }

  /** `title` is the text of `rest` without the blanks around it, its closing hashes, and the blanks before those. */
  ghost predicate IsAtxTitle(rest: string, core: string, closing: string, title: string) {
    && Trim(rest) == core + closing && AllHashes(closing) && (core != "" ==> core[|core| - 1] != '#')
    && Trim(core) == title != ""
  }

  /** Blanks, one hash per level up to six, a space or a tab, and a title. */
  ghost predicate IsAtxHeading(line: string, depth: nat, title: string) {
    exists before, hashes, rest, core, closing ::
      && line == before + hashes + rest && AllBlank(before) && AllHashes(hashes)
      && |hashes| == depth && 1 <= depth <= 6
      && rest != "" && rest[0] in {' ', '\t'} && IsAtxTitle(rest, core, closing, title)
  }

  lemma {:induction false} HashesAre(s: string)
    ensures AllHashes(s[..Hashes(s)])
    ensures Hashes(s) < |s| ==> s[Hashes(s)] != '#'
  {
    if s != "" && s[0] == '#' {
      HashesAre(s[1..]);
      assert s[..Hashes(s)] == [s[0]] + s[1..][..Hashes(s[1..])];
    }
  }

  lemma {:induction false} HashesCount(hashes: string, rest: string)
    requires AllHashes(hashes) && (rest != "" ==> rest[0] != '#')
    ensures Hashes(hashes + rest) == |hashes|
  {
    if hashes == "" {
      assert hashes + rest == rest;
    } else {
      assert (hashes + rest)[1..] == hashes[1..] + rest;
      HashesCount(hashes[1..], rest);
    }
  }

  lemma {:induction false} EndHashesAre(s: string) returns (closing: string)
    ensures s == TrimEndHashes(s) + closing && AllHashes(closing)
    ensures TrimEndHashes(s) != "" ==> TrimEndHashes(s)[|TrimEndHashes(s)| - 1] != '#'
  {
    closing := "";
    if s != "" && s[|s| - 1] == '#' {
      var rest := EndHashesAre(s[..|s| - 1]);
      closing := rest + "#";
      assert s == s[..|s| - 1] + "#";
    }
  }

  lemma {:induction false} EndHashesSkip(core: string, closing: string)
    requires AllHashes(closing) && (core != "" ==> core[|core| - 1] != '#')
    ensures TrimEndHashes(core + closing) == core
  {
    if closing == "" {
      assert core + closing == core;
    } else {
      assert (core + closing)[..|core + closing| - 1] == core + closing[..|closing| - 1];
      EndHashesSkip(core, closing[..|closing| - 1]);
    }
  }

  lemma AtxIsHeading(line: string, depth: nat, title: string)
    requires ParseAtxLine(line) == Some(Parsed(depth, title))
    ensures IsAtxHeading(line, depth, title)
  {
    var before := TrimStartIs(line);
    var trimmed := TrimStart(line);
    HashesAre(trimmed);
    var hashes, rest := trimmed[..depth], trimmed[depth..];
    var closing := EndHashesAre(Trim(rest));
    assert IsAtxTitle(rest, TrimEndHashes(Trim(rest)), closing, title);
    assert line == before + hashes + rest;
  }

  lemma HeadingIsAtx(line: string, before: string, hashes: string, rest: string,
                     core: string, closing: string, title: string)
    requires line == before + hashes + rest && AllBlank(before) && AllHashes(hashes) && 1 <= |hashes| <= 6
    requires rest != "" && rest[0] in {' ', '\t'} && IsAtxTitle(rest, core, closing, title)
    ensures ParseAtxLine(line) == Some(Parsed(|hashes|, title))
  {
    hide TrimStart, Hashes, TrimEndHashes, Trim;
    assert line == before + (hashes + rest) && (hashes + rest)[0] == '#';
    TrimStartSkips(before, hashes + rest);
    HashesCount(hashes, rest);
    assert (hashes + rest)[|hashes|..] == rest;
    EndHashesSkip(core, closing);
  }

  /** A line is an ATX heading exactly in that shape, with its level the number of its hashes. */
  lemma AtxLineShape(line: string, depth: nat, title: string)
    ensures ParseAtxLine(line) == Some(Parsed(depth, title)) <==> IsAtxHeading(line, depth, title)
  {
    if ParseAtxLine(line) == Some(Parsed(depth, title)) {
      AtxIsHeading(line, depth, title);
    }
    if IsAtxHeading(line, depth, title) {
      var before, hashes, rest, core, closing :|
        && line == before + hashes + rest && AllBlank(before) && AllHashes(hashes)
        && |hashes| == depth && 1 <= depth <= 6
        && rest != "" && rest[0] in {' ', '\t'} && IsAtxTitle(rest, core, closing, title);
      HeadingIsAtx(line, before, hashes, rest, core, closing, title);
    }
  }

  // ----- The plain-text dialect

  /** `t` is the line from its first character that is no blank. */
  ghost predicate IsRestOf(line: string, t: string) {
    exists before :: line == before + t && AllBlank(before) && (t != "" ==> t[0] !in BLANKS)
  }

  /** The word SECTION, a colon and a title, at level 1; or else a dotted numbering, a blank and a title. */
  ghost predicate IsMarkerText(t: string, depth: nat, title: string) {
    if "SECTION:" <= t then depth == 1 && title == Trim(t[8..]) != ""
    else exists end: nat :: NumberedTitle(t, end, depth, title)
  }

  ghost predicate IsMarkerHeading(line: string, depth: nat, title: string) {
    exists t :: IsRestOf(line, t) && IsMarkerText(t, depth, title)
  }

  lemma RestIsTrimmed(line: string, t: string)
    ensures IsRestOf(line, t) <==> t == TrimStart(line)
  {
    var before := TrimStartIs(line);
    assert IsRestOf(line, TrimStart(line));
    if IsRestOf(line, t) {
      var b :| line == b + t && AllBlank(b) && (t != "" ==> t[0] !in BLANKS);
      TrimStartSkips(b, t);
    }
  }

  lemma MarkerLineShape(line: string, depth: nat, title: string)
    ensures ParseMarkerLine(line) == Some(Parsed(depth, title)) <==> IsMarkerHeading(line, depth, title)
  {
    var t := TrimStart(line);
    assert |"SECTION:"| == 8;
    NumberedLineShape(t, depth, title);
    RestIsTrimmed(line, t);
    hide IsRestOf, NumberedSpec, TrimStart, Trim, NumberedTitle;
    assert ParseMarkerLine(line) == Some(Parsed(depth, title)) <==> IsMarkerText(t, depth, title);
    forall u | IsRestOf(line, u)
      ensures u == t
    {
      RestIsTrimmed(line, u);
    }
  }

  /** The characters the shapes are made of. */
  lemma BlanksAndDigits(s: string, c: char)
    ensures StartsWithBlank(s) <==> s != "" && s[0] in {' ', '\t'}
    ensures IsDigit(c) <==> c in NUMERALS
  {
    assert |NUMERALS| == 10;
    if IsDigit(c) {
      assert NUMERALS[(c - '0') as int] == c;
    }
  }

  // ----- The headings of a body

  /** body[i..j] is a line of the body, without its line feed. */
  ghost predicate IsLine(body: string, i: nat, j: nat) {
    && i < |body| && i <= j <= |body| && (i == 0 || body[i - 1] == '\n')
    && (forall k :: i <= k < j ==> body[k] != '\n')
    && (j < |body| ==> body[j] == '\n')
  }

  lemma {:induction false} LineEndIs(body: string, i: nat)
    requires i <= |body|
    ensures forall k :: i <= k < LineEnd(body, i) ==> body[k] != '\n'
    decreases |body| - i
  {
    if i < |body| && body[i] != '\n' {
      LineEndIs(body, i + 1);
    }
  }

  lemma LineIs(body: string, i: nat, j: nat)
    ensures IsLine(body, i, j) <==> IsLineStart(body, i) && j == LineEnd(body, i)
  {
    if i <= |body| {
      LineEndIs(body, i);
      LineEndAt(body, i);
      if IsLine(body, i, j) && j < |body| {
        LineEndIsNewline(body, i, j);
      }
    }
  }

  ghost predicate IsHeadingText(dialect: Dialect, line: string, depth: nat, title: string) {
    if dialect == Atx then IsAtxHeading(line, depth, title) else IsMarkerHeading(line, depth, title)
  }

  /** The heading stands on a line of the body, and its text starts behind that line. */
  ghost predicate StandsOn(dialect: Dialect, body: string, h: Heading, end: nat) {
    && IsLine(body, h.markerStart, end) && IsHeadingText(dialect, body[h.markerStart..end], h.depth, h.title)
    && h.bodyStart == if end < |body| then end + 1 else |body|
  }

  ghost predicate IsHeadingOf(dialect: Dialect, body: string, h: Heading) {
    exists end: nat :: StandsOn(dialect, body, h, end)
  }

  lemma HeadingIsOnLine(dialect: Dialect, body: string, h: Heading)
    ensures h in HeadingsFrom(dialect, body, 0) <==> IsHeadingOf(dialect, body, h)
  {
    hide IsAtxHeading, IsMarkerHeading, ParseAtxLine, ParseMarkerLine, HeadingsFrom, IsLine, LineEnd;
    HeadingsAreHeadingLines(dialect, body, 0, h);
    forall end: nat
      ensures IsLine(body, h.markerStart, end) <==>
                IsLineStart(body, h.markerStart) && end == LineEnd(body, h.markerStart)
    {
      LineIs(body, h.markerStart, end);
    }
    if IsLineStart(body, h.markerStart) {
      var line := body[h.markerStart..LineEnd(body, h.markerStart)];
      AtxLineShape(line, h.depth, h.title);
      MarkerLineShape(line, h.depth, h.title);
      assert [h] == HeadingAt(dialect, body, h.markerStart)
        <==> StandsOn(dialect, body, h, LineEnd(body, h.markerStart));
    }
  }

  /** Some line of the body is an ATX heading. */
  ghost predicate HasAtx(body: string) {
    exists h :: IsHeadingOf(Atx, body, h)
  }

  /** Exactly the ATX headings are read if there is one, and otherwise exactly the plain-text markers. */
  lemma HeadingsAre(body: string, h: Heading)
    ensures h in Headings(body) <==> IsHeadingOf(if HasAtx(body) then Atx else Marker, body, h)
  {
    hide IsHeadingOf, HeadingsFrom;
    var md := HeadingsFrom(Atx, body, 0);
    forall g
      ensures g in md <==> IsHeadingOf(Atx, body, g)
    {
      HeadingIsOnLine(Atx, body, g);
    }
    if md != [] {
      assert md[0] in md;
    }
    HeadingIsOnLine(Marker, body, h);
  }
}
