/** The sliding-window text splitter of chunker.rs, over the bytes of a UTF-8 body. */
module Chunker {
  import opened Commons

  type Byte = b: nat | b < 256

  /** A cut slice [start, end) of the body. */
  datatype Window = Window(start: nat, end: nat)

  /** Slicing with an end before the start panics. */
  datatype Outcome = Panic | Done(windows: seq<Window>)

  const SPACE: Byte := 32
  const NEWLINE: Byte := 10
  const LOOKBACK := 200

  function SaturatingSub(a: nat, b: nat): (r: nat)
    ensures a <= b ==> r == 0
    ensures b <= a ==> r + b == a
  {
    if a > b then a - b else 0
  }

  // ----- Character boundaries

  predicate IsContinuation(b: Byte) {
    0x80 <= b < 0xC0
  }

  predicate IsBoundary(body: seq<Byte>, i: nat) {
    i == 0 || i == |body| || (i < |body| && !IsContinuation(body[i]))
  }

  /** Bytes announced by a lead byte; 0 for a byte that cannot lead. */
  function Width(b: Byte): nat {
    if b < 0x80 then 1 else if b < 0xC0 then 0 else if b < 0xE0 then 2 else if b < 0xF0 then 3
    else if b < 0xF8 then 4 else 0
  }

  /** The leading bits that say what a byte is: 10 for a continuation, and 0, 110, 1110 and 11110 for a lead. */
  lemma BytesByBits(b: Byte)
    ensures IsContinuation(b) <==> b / 64 == 2
    ensures Width(b) == 1 <==> b / 128 == 0
    ensures Width(b) == 2 <==> b / 32 == 6
    ensures Width(b) == 3 <==> b / 16 == 14
    ensures Width(b) == 4 <==> b / 8 == 30
    ensures Width(b) <= 4
  {
  }

  /** From `i` on, the body is a run of lead bytes with their continuation bytes. */
  ghost predicate IsUtf8(body: seq<Byte>, i: nat)
    requires i <= |body|
    decreases |body| - i
  {
    i == |body| ||
    (var w := Width(body[i]);
     && w > 0 && i + w <= |body|
     && (forall k :: i < k < i + w ==> IsContinuation(body[k]))
     && IsUtf8(body, i + w))
  }

  function NextBoundary(body: seq<Byte>, i: nat): (j: nat)
    ensures i <= j
    decreases |body| - i
  {
    if i < |body| && !IsBoundary(body, i) then NextBoundary(body, i + 1) else i
  }

  lemma {:induction false} NextBoundaryIsFirst(body: seq<Byte>, i: nat, b: nat)
    requires i <= b <= |body| && IsBoundary(body, b)
    ensures NextBoundary(body, i) <= b && IsBoundary(body, NextBoundary(body, i))
    decreases b - i
  {
    if i < |body| && !IsBoundary(body, i) {
      NextBoundaryIsFirst(body, i + 1, b);
    }
  }

  /** In UTF-8 the next boundary is at most three bytes away. */
  lemma {:induction false} BoundaryIsNear(body: seq<Byte>, lead: nat, i: nat)
    requires lead <= i <= |body| && IsUtf8(body, lead) && IsBoundary(body, lead)
    ensures NextBoundary(body, i) <= Min(i + 3, |body|) && IsBoundary(body, NextBoundary(body, i))
    decreases |body| - lead
  {
    if i == lead {
      NextBoundaryIsFirst(body, i, i);
    } else {
      var next := lead + Width(body[lead]);
      assert IsUtf8(body, next);
      assert next < |body| ==> Width(body[next]) > 0;
      if i >= next {
        BoundaryIsNear(body, next, i);
      } else {
        NextBoundaryIsFirst(body, i, next);
      }
    }
  }

  // ----- Where a slice may end

  predicate IsBlank(b: Byte) {
    b == SPACE || b == NEWLINE
  }

  /** A full stop, question or exclamation mark and a blank end at `i`. */
  predicate IsSentenceEnd(body: seq<Byte>, i: nat)
    requires i <= |body|
  {
    i >= 2 && IsBlank(body[i - 1]) && (body[i - 2] == 46 || body[i - 2] == 63 || body[i - 2] == 33)
  }

  /** The last sentence end in (from + 1, upTo]. */
  function LastSentenceEnd(body: seq<Byte>, from: nat, upTo: nat): (r: Option<nat>)
    requires upTo <= |body|
    ensures r.Some? ==> from + 1 < r.value <= upTo && IsSentenceEnd(body, r.value)
    ensures forall i :: (if r.Some? then r.value else from + 1) < i <= upTo ==> !IsSentenceEnd(body, i)
    decreases upTo
  {
    if upTo <= from + 1 then None
    else if IsSentenceEnd(body, upTo) then Some(upTo)
    else LastSentenceEnd(body, from, upTo - 1)
  }

  method FindSentenceEnd(body: seq<Byte>, from: nat, upTo: nat) returns (r: Option<nat>)
    ensures var t := Min(upTo, |body|);
            r == LastSentenceEnd(body, Min(from, t), t)
  {
    var t := Min(upTo, |body|);
    var f := Min(from, t);
    var i := t;
    while i > f + 1
      invariant i <= t && LastSentenceEnd(body, f, i) == LastSentenceEnd(body, f, t)
    {
      var c, p := body[i - 1], body[i - 2];
      if (p == 46 || p == 63 || p == 33) && (c == SPACE || c == NEWLINE) {
        return Some(i);
      }
      i := i - 1;
    }
    r := None;
  }

  predicate IsBehindBlank(body: seq<Byte>, i: nat) {
    0 < i <= |body| && IsBlank(body[i - 1])
  }

  /** The last position in [floor, upTo] just behind a blank. */
  function LastBlank(body: seq<Byte>, floor: nat, upTo: nat): (r: Option<nat>)
    requires upTo <= |body|
    ensures r.Some? ==> 0 < r.value && floor <= r.value <= upTo && IsBlank(body[r.value - 1])
    ensures forall i :: (if r.Some? then r.value + 1 else floor) <= i <= upTo ==> !IsBehindBlank(body, i)
    decreases upTo
  {
    if upTo == 0 || upTo < floor then None
    else if IsBlank(body[upTo - 1]) then Some(upTo)
    else LastBlank(body, floor, upTo - 1)
  }

  method FindSpace(body: seq<Byte>, upTo: nat) returns (r: Option<nat>)
    ensures var t := Min(upTo, |body|);
            r == LastBlank(body, SaturatingSub(t, 200), t)
  {
    var t := Min(upTo, |body|);
    ghost var floor := SaturatingSub(t, LOOKBACK);
    var i := t;
    while i > 0
      invariant i <= t && i >= floor
      invariant LastBlank(body, floor, i) == LastBlank(body, floor, t)
    {
      var c := body[i - 1];
      if c == SPACE || c == NEWLINE {
        return Some(i);
      }
      i := i - 1;
      if t - i > LOOKBACK {
        break;
      }
    }
    r := None;
  }

  /** Where the slice that starts at `start` is meant to end, before the boundary adjustment. */
  function Aim(body: seq<Byte>, target: nat, start: nat): (end: nat)
    requires start <= |body|
    ensures end <= |body|
  {
    var end := Min(start + target, |body|);
    if end == |body| then end
    else
      var sentence := LastSentenceEnd(body, Min(Max(SaturatingSub(end, LOOKBACK), start + target / 2), end), end);
      if sentence.Some? then sentence.value
      else
        var space := LastBlank(body, SaturatingSub(end, LOOKBACK), end);
        if space.Some? then space.value else end
  }

  function CutEnd(body: seq<Byte>, target: nat, start: nat): nat
    requires start <= |body|
  {
    NextBoundary(body, Aim(body, target, start))
  }

  function NextStart(body: seq<Byte>, overlap: nat, w: Window): nat {
    NextBoundary(body, w.start + Max(SaturatingSub(w.end, w.start + overlap), 1))
  }

  function Prepend(w: Window, rest: Outcome): Outcome {
    if rest.Panic? then Panic else Done([w] + rest.windows)
  }

  function SplitFrom(body: seq<Byte>, target: nat, overlap: nat, start: nat): Outcome
    decreases |body| - start
  {
    if start >= |body| then Done([])
    else
      var w := Window(start, CutEnd(body, target, start));
      if w.end < start then Panic
      else if w.end >= |body| then Done([w])
      else Prepend(w, SplitFrom(body, target, overlap, NextStart(body, overlap, w)))
  }

  // ----- The same places, written out

  /** A character starts at `i`, reading one character after the other from `lead` on. */
  ghost predicate IsCharStart(body: seq<Byte>, lead: nat, i: nat)
    requires lead <= |body| && IsUtf8(body, lead)
    decreases |body| - lead
  {
    i == lead || (lead < |body| && IsCharStart(body, lead + Width(body[lead]), i))
  }

  /** In UTF-8 the boundaries are exactly the positions where characters start, and the end. */
  lemma {:induction false} BoundaryIsCharStart(body: seq<Byte>, lead: nat, i: nat)
    requires lead <= i <= |body| && IsUtf8(body, lead) && (lead == 0 || IsBoundary(body, lead))
    ensures IsBoundary(body, i) <==> IsCharStart(body, lead, i)
    decreases |body| - lead
  {
    if lead < i {
      var next := lead + Width(body[lead]);
      assert next < |body| ==> Width(body[next]) > 0;
      if i < next {
        CharStartsGrow(body, next, i);
      } else {
        BoundaryIsCharStart(body, next, i);
      }
    }
  }

  lemma {:induction false} CharStartsGrow(body: seq<Byte>, lead: nat, i: nat)
    requires i < lead <= |body| && IsUtf8(body, lead)
    ensures !IsCharStart(body, lead, i)
    decreases |body| - lead
  {
    if lead < |body| {
      CharStartsGrow(body, lead + Width(body[lead]), i);
    }
  }

  /** body[..i] ends in a full stop, question or exclamation mark and then a space or a line feed. */
  predicate EndsSentence(body: seq<Byte>, i: nat) {
    2 <= i <= |body| && body[i - 2] in {46, 63, 33} && body[i - 1] in {32, 10}
  }

  /** body[..i] ends in a space or a line feed. */
  predicate EndsWord(body: seq<Byte>, i: nat) {
    1 <= i <= |body| && body[i - 1] in {32, 10}
  }

  /** `i` is the last position with the property above `low` and up to `high`. */
  ghost predicate IsLast(holds: nat -> bool, low: int, high: nat, i: nat) {
    low < i <= high && holds(i) && forall j :: i < j <= high ==> !holds(j)
  }

  ghost predicate HasNone(holds: nat -> bool, low: int, high: nat) {
    forall j: nat :: low < j <= high ==> !holds(j)
  }

  /**
   Where a slice aims to end: at the last sentence end of its second half within 200 bytes of the
   limit, else at the last blank within 200 bytes, else at the limit.
   */
  lemma AimIs(body: seq<Byte>, target: nat, start: nat)
    requires start <= |body|
    ensures var (limit, aim) := (start + target, Aim(body, target, start));
            var low := Max(if limit < 200 then 0 else limit - 200, start + target / 2);
            if limit >= |body| then aim == |body|
            else
              || IsLast((i: nat) => EndsSentence(body, i), low + 1, limit, aim)
              || (&& HasNone((i: nat) => EndsSentence(body, i), low + 1, limit)
                  && (|| IsLast((i: nat) => EndsWord(body, i), limit - 201, limit, aim)
                      || (HasNone((i: nat) => EndsWord(body, i), limit - 201, limit) && aim == limit)))
  {
    var limit := start + target;
    if limit < |body| {
      hide LastSentenceEnd, LastBlank;
      forall i: nat | i <= |body|
        ensures IsSentenceEnd(body, i) <==> EndsSentence(body, i)
        ensures IsBehindBlank(body, i) <==> EndsWord(body, i)
      {
      }
    }
  }

  /** A slice ends at the first boundary from its aim on. */
  lemma CutEndIs(body: seq<Byte>, target: nat, start: nat)
    requires start <= |body|
    ensures var (aim, end) := (Aim(body, target, start), CutEnd(body, target, start));
            aim <= end <= |body| && IsBoundary(body, end) && forall b :: aim <= b < end ==> !IsBoundary(body, b)
  {
    var aim := Aim(body, target, start);
    hide Aim;
    FirstBoundary(body, aim);
  }

  lemma {:induction false} FirstBoundary(body: seq<Byte>, i: nat)
    requires i <= |body|
    ensures var j := NextBoundary(body, i);
            i <= j <= |body| && IsBoundary(body, j) && forall b :: i <= b < j ==> !IsBoundary(body, b)
    decreases |body| - i
  {
    if i < |body| && !IsBoundary(body, i) {
      FirstBoundary(body, i + 1);
    }
  }

  /** The next slice starts at the first boundary that advances and repeats at most `overlap` bytes. */
  lemma NextStartIs(body: seq<Byte>, overlap: nat, w: Window, b: nat)
    requires w.start < |body| && w.end <= |body|
    ensures var next := NextStart(body, overlap, w);
            w.start < next <= |body| && w.end <= next + overlap && IsBoundary(body, next)
    ensures w.start < b && w.end <= b + overlap && IsBoundary(body, b) ==> NextStart(body, overlap, w) <= b
  {
    FirstBoundary(body, w.start + Max(SaturatingSub(w.end, w.start + overlap), 1));
    hide NextBoundary, IsBoundary;
  }

  // ----- What a good split is

  predicate GoodWindow(body: seq<Byte>, target: nat, w: Window) {
    && w.start < w.end <= |body| && w.end - w.start <= target + 3
    && IsBoundary(body, w.start) && IsBoundary(body, w.end)
  }

  predicate GoodStep(overlap: nat, w: Window, next: Window) {
    w.start < next.start <= w.end <= next.start + overlap
  }

  /** Slices at character boundaries, of bounded length, advancing, without a gap, to the very end. */
  predicate Covers(body: seq<Byte>, target: nat, overlap: nat, start: nat, ws: seq<Window>) {
    && (ws == [] <==> start >= |body|)
    && (ws != [] ==> ws[0].start == start && ws[|ws| - 1].end == |body|)
    && (forall k :: 0 <= k < |ws| ==> GoodWindow(body, target, ws[k]))
    && forall k :: 0 < k < |ws| ==> GoodStep(overlap, ws[k - 1], ws[k])
  }

  predicate GoodSplit(body: seq<Byte>, target: nat, overlap: nat) {
    var r := SplitFrom(body, target, overlap, 0);
    r.Done? && Covers(body, target, overlap, 0, r.windows)
  }

  lemma AimAdvances(body: seq<Byte>, target: nat, start: nat)
    requires start < |body| && target > LOOKBACK
    ensures start < Aim(body, target, start) <= start + target
  {
  }

  lemma WindowIsGood(body: seq<Byte>, target: nat, overlap: nat, start: nat)
    requires start < |body| && target > LOOKBACK && IsUtf8(body, 0) && IsBoundary(body, start)
    ensures var w := Window(start, CutEnd(body, target, start));
            && GoodWindow(body, target, w) && w.start < w.end
            && (w.end < |body| ==>
                  var next := NextStart(body, overlap, w);
                  start < next <= w.end <= next + overlap && IsBoundary(body, next))
  {
    AimAdvances(body, target, start);
    BoundaryIsNear(body, 0, Aim(body, target, start));
    var end := CutEnd(body, target, start);
    var from := start + Max(SaturatingSub(end, start + overlap), 1);
    hide Aim, IsUtf8, IsBoundary;
    NextBoundaryIsFirst(body, from, end);
  }

  lemma CoversPrepend(body: seq<Byte>, target: nat, overlap: nat, w: Window, next: nat, rest: seq<Window>)
    requires GoodWindow(body, target, w) && w.start < next <= w.end <= next + overlap && w.end < |body|
    requires Covers(body, target, overlap, next, rest)
    ensures Covers(body, target, overlap, w.start, [w] + rest)
  {
    hide GoodWindow;
    var all := [w] + rest;
    forall k | 0 < k < |all|
      ensures GoodStep(overlap, all[k - 1], all[k])
    {
      if k > 1 {
        assert GoodStep(overlap, rest[(k - 1) - 1], rest[k - 1]);
      }
    }
  }

  /** With a target above the look-back every body is split well, whatever the overlap. */
  lemma {:induction false} LargeTargetSplits(body: seq<Byte>, target: nat, overlap: nat, start: nat)
    requires target > 200 && IsUtf8(body, 0) && start <= |body| && IsBoundary(body, start)
    ensures var r := SplitFrom(body, target, overlap, start);
            r.Done? && Covers(body, target, overlap, start, r.windows)
    decreases |body| - start
  {
    if start < |body| {
      WindowIsGood(body, target, overlap, start);
      var w := Window(start, CutEnd(body, target, start));
      if w.end < |body| {
        var next := NextStart(body, overlap, w);
        hide CutEnd, NextStart, IsUtf8, Covers, GoodWindow;
        LargeTargetSplits(body, target, overlap, next);
        CoversPrepend(body, target, overlap, w, next, SplitFrom(body, target, overlap, next).windows);
      }
    }
  }

  // ----- At or below the look-back the splitter drops text

  function Letters(n: nat): (s: seq<Byte>)
    ensures |s| == n && forall i :: 0 <= i < n ==> s[i] == 120
  {
    if n == 0 then [] else Letters(n - 1) + [120]
  }

  /** One word, a space at byte target - 1, and a word longer than the target. */
  function BadBody(target: nat): (body: seq<Byte>)
  {
    if target == 0 then [120] else Letters(target - 1) + [SPACE] + Letters(target + 1)
  }

  lemma {:induction false} LettersAreUtf8(body: seq<Byte>, i: nat)
    requires i <= |body| && forall k :: 0 <= k < |body| ==> body[k] < 0x80
    ensures IsUtf8(body, i)
    decreases |body| - i
  {
    if i < |body| {
      LettersAreUtf8(body, i + 1);
    }
  }

  lemma {:induction false} NoSentenceEnd(body: seq<Byte>, from: nat, upTo: nat)
    requires upTo <= |body| && forall k :: 0 <= k < |body| ==> body[k] == 120 || body[k] == SPACE
    ensures LastSentenceEnd(body, from, upTo) == None
    decreases upTo
  {
    if upTo > from + 1 {
      NoSentenceEnd(body, from, upTo - 1);
    }
  }

  lemma {:induction false} BlankBehindWord(body: seq<Byte>, floor: nat, upTo: nat, at: nat)
    requires floor <= at <= upTo <= |body| && 0 < at && IsBlank(body[at - 1])
    requires forall k :: at <= k < upTo ==> !IsBlank(body[k])
    ensures LastBlank(body, floor, upTo) == Some(at)
    decreases upTo
  {
    if upTo > at {
      BlankBehindWord(body, floor, upTo - 1, at);
    }
  }

  lemma ZeroTargetFails()
    ensures !GoodSplit(BadBody(0), 0, 0)
  {
    var body := BadBody(0);
    assert CutEnd(body, 0, 0) == 0;
    assert SplitFrom(body, 0, 0, 1) == Done([]);
    assert SplitFrom(body, 0, 0, 0) == Done([Window(0, 0)]);
  }

  /** A cut aimed between the space and the end of the second word falls back behind the space. */
  lemma BadCut(body: seq<Byte>, target: nat, start: nat)
    requires 0 < target <= 200 && |body| == 2 * target + 1 && (start == 0 || start == target)
    requires body[target - 1] == SPACE
    requires forall k :: 0 <= k < |body| && k != target - 1 ==> body[k] == 120
    ensures CutEnd(body, target, start) == target
  {
    hide LastSentenceEnd, LastBlank;
    var end := start + target;
    NoSentenceEnd(body, Min(Max(SaturatingSub(end, LOOKBACK), start + target / 2), end), end);
    BlankBehindWord(body, SaturatingSub(end, LOOKBACK), end, target);
  }

  /** For every target up to 200 a plain ASCII body loses a byte between two slices, or panics. */
  lemma SmallTargetFails(target: nat)
    requires target <= 200
    ensures IsUtf8(BadBody(target), 0) && !GoodSplit(BadBody(target), target, 0)
  {
    var body := BadBody(target);
    if target > 0 {
      assert |body| == 2 * target + 1 && body[target - 1] == SPACE;
      assert forall k :: 0 <= k < |body| && k != target - 1 ==> body[k] == 120;
    }
    LettersAreUtf8(body, 0);
    hide GoodSplit, BadBody, CutEnd;
    if target == 0 {
      ZeroTargetFails();
    } else {
      BadCut(body, target, 0);
      BadCut(body, target, target);
      EmptySliceLeavesGap(body, target);
    }
  }

  lemma EmptySliceLeavesGap(body: seq<Byte>, target: nat)
    requires 0 < target && |body| == 2 * target + 1 && forall k :: 0 <= k < |body| ==> body[k] < 0x80
    requires CutEnd(body, target, 0) == target && CutEnd(body, target, target) == target
    ensures !GoodSplit(body, target, 0)
  {
    var first, second := Window(0, target), Window(target, target);
    assert NextStart(body, 0, first) == target;
    assert NextStart(body, 0, second) == target + 1;
    hide CutEnd, NextStart;
    var rest := SplitFrom(body, target, 0, target + 1);
    assert SplitFrom(body, target, 0, target) == Prepend(second, rest);
    assert SplitFrom(body, target, 0, 0) == Prepend(first, Prepend(second, rest));
    if rest.Done? {
      var ws := [first] + ([second] + rest.windows);
      assert ws[2].start == target + 1 && ws[2 - 1] == second;
      assert !GoodStep(0, ws[2 - 1], ws[2]);
    }
  }

  /** The splitter is right on all bodies and overlaps exactly when the target exceeds 200 bytes. */
  lemma SplitsWellIffTargetAbove200(target: nat)
    ensures (forall body: seq<Byte>, overlap: nat :: IsUtf8(body, 0) ==> GoodSplit(body, target, overlap))
       <==> target > 200
  {
    hide GoodSplit, IsUtf8;
    if target > 200 {
      forall body: seq<Byte>, overlap: nat | IsUtf8(body, 0)
        ensures GoodSplit(body, target, overlap)
      {
        GoodFromStart(body, target, overlap);
      }
    } else {
      SmallTargetFails(target);
    }
  }

  lemma GoodFromStart(body: seq<Byte>, target: nat, overlap: nat)
    requires target > 200 && IsUtf8(body, 0)
    ensures GoodSplit(body, target, overlap)
  {
    LargeTargetSplits(body, target, overlap, 0);
  }

  // ----- The loop

  predicate IsSpaceByte(b: Byte) {
    b == SPACE || 9 <= b <= 13
  }

  function TrimStart(s: seq<Byte>): seq<Byte> {
    if s != [] && IsSpaceByte(s[0]) then TrimStart(s[1..]) else s
  }

  function TrimEnd(s: seq<Byte>): seq<Byte> {
    if s != [] && IsSpaceByte(s[|s| - 1]) then TrimEnd(s[..|s| - 1]) else s
  }

  function Trim(s: seq<Byte>): seq<Byte> {
    TrimEnd(TrimStart(s))
  }

  const BLANK_BYTES: set<nat> := {9, 10, 11, 12, 13, 32}

  ghost predicate AllBlankBytes(s: seq<Byte>) {
    forall i :: 0 <= i < |s| ==> s[i] in BLANK_BYTES
  }

  /** `t` starts and ends with no blank, and stands in `s` between nothing but blanks. */
  ghost predicate IsCore(s: seq<Byte>, before: seq<Byte>, t: seq<Byte>, after: seq<Byte>) {
    && s == before + t + after && AllBlankBytes(before) && AllBlankBytes(after)
    && (t != [] ==> t[0] !in BLANK_BYTES && t[|t| - 1] !in BLANK_BYTES)
  }

  lemma {:induction false} TrimStartIs(s: seq<Byte>) returns (before: seq<Byte>)
    ensures s == before + TrimStart(s) && AllBlankBytes(before)
    ensures TrimStart(s) != [] ==> TrimStart(s)[0] !in BLANK_BYTES
  {
    before := [];
    if s != [] && IsSpaceByte(s[0]) {
      var rest := TrimStartIs(s[1..]);
      before := [s[0]] + rest;
      assert s == [s[0]] + s[1..];
    }
  }

  lemma {:induction false} TrimEndIs(s: seq<Byte>) returns (after: seq<Byte>)
    ensures s == TrimEnd(s) + after && AllBlankBytes(after)
    ensures TrimEnd(s) != [] ==> TrimEnd(s)[|TrimEnd(s)| - 1] !in BLANK_BYTES
  {
    after := [];
    if s != [] && IsSpaceByte(s[|s| - 1]) {
      var rest := TrimEndIs(s[..|s| - 1]);
      after := rest + [s[|s| - 1]];
      assert s == s[..|s| - 1] + [s[|s| - 1]];
    }
  }

  /** Trimming takes away blanks, and only blanks, until none is left at either end. */
  lemma TrimKeepsCore(s: seq<Byte>) returns (before: seq<Byte>, after: seq<Byte>)
    ensures IsCore(s, before, Trim(s), after)
  {
    before := TrimStartIs(s);
    after := TrimEndIs(TrimStart(s));
    assert Trim(s) != [] ==> Trim(s)[0] == TrimStart(s)[0];
  }

  /** The texts kept: each slice trimmed, empty ones dropped. */
  function Pieces(body: seq<Byte>, ws: seq<Window>): seq<seq<Byte>> {
    if ws == [] then []
    else
      var w := ws[|ws| - 1];
      var text := if w.start <= w.end <= |body| then Trim(body[w.start..w.end]) else [];
      Pieces(body, ws[..|ws| - 1]) + if text == [] then [] else [text]
  }

  lemma PiecesOfNone(body: seq<Byte>)
    ensures Pieces(body, []) == []
  {
  }

  function Extend(ws: seq<Window>, rest: Outcome): Outcome {
    if rest.Panic? then Panic else Done(ws + rest.windows)
  }

  method FindBoundary(body: seq<Byte>, i: nat) returns (j: nat)
    ensures j == NextBoundary(body, i)
  {
    j := i;
    while j < |body| && !IsBoundary(body, j)
      invariant NextBoundary(body, j) == NextBoundary(body, i)
    {
      j := j + 1;
    }
  }

  method FindEnd(body: seq<Byte>, target: nat, start: nat) returns (end: nat)
    requires start <= |body|
    ensures end == CutEnd(body, target, start)
  {
    end := Min(start + target, |body|);
    if end < |body| {
      var lookback := Max(SaturatingSub(end, LOOKBACK), start + target / 2);
      var boundary := FindSentenceEnd(body, lookback, end);
      if boundary.Some? {
        end := boundary.value;
      } else {
        var space := FindSpace(body, end);
        if space.Some? {
          end := space.value;
        }
      }
    }
    end := FindBoundary(body, end);
  }

  lemma ExtendStep(body: seq<Byte>, target: nat, overlap: nat, ws: seq<Window>, w: Window)
    requires w.start < |body| && w.end == CutEnd(body, target, w.start) && w.start <= w.end
    ensures Pieces(body, ws + [w])
         == Pieces(body, ws)
            + var text := if w.end <= |body| then Trim(body[w.start..w.end]) else [];
              if text == [] then [] else [text]
    ensures w.end >= |body| ==>
              Extend(ws, SplitFrom(body, target, overlap, w.start)) == Done(ws + [w])
    ensures w.end < |body| ==>
              Extend(ws, SplitFrom(body, target, overlap, w.start))
              == Extend(ws + [w], SplitFrom(body, target, overlap, NextStart(body, overlap, w)))
  {
    hide CutEnd, Trim, NextStart;
    assert (ws + [w])[..|ws|] == ws;
    if w.end < |body| {
      var rest := SplitFrom(body, target, overlap, NextStart(body, overlap, w));
      if rest.Done? {
        assert ws + [w] + rest.windows == ws + ([w] + rest.windows);
      }
    }
  }

  method SplitText(body: seq<Byte>, target: nat, overlap: nat) returns (panicked: bool, out: seq<seq<Byte>>)
    ensures panicked <==> SplitFrom(body, target, overlap, 0).Panic?
    ensures !panicked ==> out == Pieces(body, SplitFrom(body, target, overlap, 0).windows)
  {
    hide CutEnd, Trim, Pieces;
    out := [];
    assert Pieces(body, []) == [] by { PiecesOfNone(body); }
    var start := 0;
    ghost var ws: seq<Window> := [];
    while start < |body|
      invariant Extend(ws, SplitFrom(body, target, overlap, start)) == SplitFrom(body, target, overlap, 0)
      invariant out == Pieces(body, ws)
      decreases |body| - start
    {
      var end := FindEnd(body, target, start);
      if end < start {
        return true, out;
      }
      ghost var w := Window(start, end);
      ExtendStep(body, target, overlap, ws, w);
      ws := ws + [w];
      var trimmed := if end <= |body| then Trim(body[start..end]) else [];
      if trimmed != [] {
        out := out + [trimmed];
      }
      if end >= |body| {
        return false, out;
      }
      start := FindBoundary(body, start + Max(SaturatingSub(end, start + overlap), 1));
    }
    assert ws + [] == ws;
    panicked := false;
  }
}
