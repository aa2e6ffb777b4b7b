/** How metrics.rs turns a metric name and its labels into one series key. */
module SeriesKey {

  datatype Label = Label(key: string, value: string)

  // ----- Escaping

  /** Every occurrence of `c` replaced by `text`. */
  function Replace(s: string, c: char, text: string): string {
    if s == "" then "" else (if s[0] == c then text else [s[0]]) + Replace(s[1..], c, text)
  }

  /** The source's three passes, one after the other. */
  function Escape(s: string): string {
    Replace(Replace(Replace(s, '\\', "\\\\"), '"', "\\\""), '\n', "\\n")
  }

  function EscapeChar(c: char): (r: string)
    ensures r != "" && (r[0] == '\\' || (r == [c] && c != '"' && c != '\n'))
  {
    if c == '\\' then "\\\\" else if c == '"' then "\\\"" else if c == '\n' then "\\n" else [c]
  }

  function EscapeEach(s: string): string {
    if s == "" then "" else EscapeChar(s[0]) + EscapeEach(s[1..])
  }

  lemma {:induction false} ReplaceConcat(a: string, b: string, c: char, text: string)
    ensures Replace(a + b, c, text) == Replace(a, c, text) + Replace(b, c, text)
  {
    if a == "" {
      assert a + b == b;
    } else {
      assert (a + b)[1..] == a[1..] + b;
      ReplaceConcat(a[1..], b, c, text);
    }
  }

  lemma ReplaceShort(s: string, c: char, text: string)
    requires |s| == 1 || |s| == 2
    ensures Replace(s, c, text) == (if s[0] == c then text else [s[0]])
                                 + if |s| == 1 then "" else if s[1] == c then text else [s[1]]
  {
    assert s[1..] == if |s| == 1 then "" else [s[1]];
    if |s| == 2 { assert s[1..][1..] == ""; }
  }

  /** One character through the three passes. */
  lemma EscapeOne(c: char)
    ensures Replace(Replace(if c == '\\' then "\\\\" else [c], '"', "\\\""), '\n', "\\n") == EscapeChar(c)
  {
    var first := if c == '\\' then "\\\\" else [c];
    ReplaceShort(first, '"', "\\\"");
    ReplaceShort(Replace(first, '"', "\\\""), '\n', "\\n");
  }

  /** The three passes together escape character by character. */
  lemma {:induction false} EscapeIsPerCharacter(s: string)
    ensures Escape(s) == EscapeEach(s)
  {
    if s != "" {
      var head := if s[0] == '\\' then "\\\\" else [s[0]];
      var tail := Replace(s[1..], '\\', "\\\\");
      EscapeIsPerCharacter(s[1..]);
      EscapeOne(s[0]);
      assert Replace(s, '\\', "\\\\") == head + tail;
      ReplaceConcat(head, tail, '"', "\\\"");
      ReplaceConcat(Replace(head, '"', "\\\""), Replace(tail, '"', "\\\""), '\n', "\\n");
    }
  }

  lemma EscapeCharInjective(c: char, x: string, d: char, y: string)
    requires EscapeChar(c) + x == EscapeChar(d) + y
    ensures c == d && x == y
  {
    var a, b := EscapeChar(c) + x, EscapeChar(d) + y;
    assert a[0] == EscapeChar(c)[0] && b[0] == EscapeChar(d)[0];
    assert |EscapeChar(c)| == 2 ==> a[1] == EscapeChar(c)[1];
    assert |EscapeChar(d)| == 2 ==> b[1] == EscapeChar(d)[1];
    assert x == a[|EscapeChar(c)|..] && y == b[|EscapeChar(d)|..];
  }

  lemma NoEscapeStartsWithQuote(c: char, x: string, y: string)
    ensures EscapeChar(c) + x != "\"" + y
  {
    assert (EscapeChar(c) + x)[0] == EscapeChar(c)[0];
    assert ("\"" + y)[0] == '"';
  }

  lemma EscapeEachUnfolds(s: string, x: string)
    ensures EscapeEach(s) + "\"" + x
         == if s == "" then "\"" + x else EscapeChar(s[0]) + (EscapeEach(s[1..]) + "\"" + x)
  {
  }

  /** A closing quote ends an escaped value unambiguously. */
  lemma {:induction false} QuotedInjective(s: string, x: string, t: string, y: string)
    requires EscapeEach(s) + "\"" + x == EscapeEach(t) + "\"" + y
    ensures s == t && x == y
  {
    hide EscapeEach, EscapeChar;
    EscapeEachUnfolds(s, x);
    EscapeEachUnfolds(t, y);
    if s == "" && t == "" {
      DropQuote(x, y);
    } else if s == "" {
      NoEscapeStartsWithQuote(t[0], EscapeEach(t[1..]) + "\"" + y, x);
    } else if t == "" {
      NoEscapeStartsWithQuote(s[0], EscapeEach(s[1..]) + "\"" + x, y);
    } else {
      EscapeCharInjective(s[0], EscapeEach(s[1..]) + "\"" + x, t[0], EscapeEach(t[1..]) + "\"" + y);
      QuotedInjective(s[1..], x, t[1..], y);
      assert s == [s[0]] + s[1..] && t == [t[0]] + t[1..];
    }
  }

  // ----- Sorting labels by name

  predicate Less(a: string, b: string) {
    b != "" && (a == "" || a[0] < b[0] || (a[0] == b[0] && Less(a[1..], b[1..])))
  }

  /** `a` and `b` agree up to `k`, where `a` has ended or has the smaller character. */
  predicate IsLessAt(a: string, b: string, k: nat) {
    && k <= |a| && k < |b| && a[..k] == b[..k]
    && (k == |a| || a[k] < b[k])
  }

  /** Names are compared character by character, and a name comes before its continuations. */
  lemma {:induction false} LessIs(a: string, b: string)
    ensures Less(a, b) <==> exists k: nat :: IsLessAt(a, b, k)
  {
    if a != "" && b != "" && a[0] == b[0] {
      LessIs(a[1..], b[1..]);
      forall k: nat
        ensures IsLessAt(a, b, k + 1) <==> IsLessAt(a[1..], b[1..], k)
      {
        if k <= |a| - 1 && k < |b| - 1 {
          assert a[..k + 1] == [a[0]] + a[1..][..k] && b[..k + 1] == [b[0]] + b[1..][..k];
        }
      }
      assert !IsLessAt(a, b, 0);
      if exists k: nat :: IsLessAt(a, b, k) {
        var k: nat :| IsLessAt(a, b, k);
        assert IsLessAt(a[1..], b[1..], k - 1);
      }
      if exists k: nat :: IsLessAt(a[1..], b[1..], k) {
        var k: nat :| IsLessAt(a[1..], b[1..], k);
        assert IsLessAt(a, b, k + 1);
      }
    } else if b != "" {
      assert IsLessAt(a, b, 0) <==> a == "" || a[0] < b[0];
      forall k: nat | k > 0 && a != ""
        ensures !IsLessAt(a, b, k)
      {
        assert k <= |a| && k < |b| ==> a[..k][0] == a[0] && b[..k][0] == b[0];
      }
    }
  }

  lemma {:induction false} LessTotal(a: string, b: string)
    ensures a == b || Less(a, b) || Less(b, a)
  {
    if a != "" && b != "" && a[0] == b[0] {
      LessTotal(a[1..], b[1..]);
      assert a == [a[0]] + a[1..] && b == [b[0]] + b[1..];
    }
  }

  lemma {:induction false} LessTransitive(a: string, b: string, c: string)
    requires Less(a, b) && Less(b, c)
    ensures Less(a, c)
  {
    if a != "" && a[0] == b[0] && b[0] == c[0] {
      LessTransitive(a[1..], b[1..], c[1..]);
    }
  }

  lemma {:induction false} LessIrreflexive(a: string)
    ensures !Less(a, a)
  {
    if a != "" {
      LessIrreflexive(a[1..]);
    }
  }

  predicate DistinctKeys(ls: seq<Label>) {
    forall i, j :: 0 <= i < j < |ls| ==> ls[i].key != ls[j].key
  }

  predicate SortedKeys(ls: seq<Label>) {
    forall i, j :: 0 <= i < j < |ls| ==> Less(ls[i].key, ls[j].key)
  }

  /** Stable insertion: behind every label whose name is not greater. */
  function Insert(ls: seq<Label>, l: Label): seq<Label> {
    if ls == [] || !Less(l.key, ls[|ls| - 1].key) then ls + [l]
    else Insert(ls[..|ls| - 1], l) + [ls[|ls| - 1]]
  }

  function Sort(ls: seq<Label>): seq<Label> {
    if ls == [] then [] else Insert(Sort(ls[..|ls| - 1]), ls[|ls| - 1])
  }

  predicate Fresh(ls: seq<Label>, key: string) {
    forall i :: 0 <= i < |ls| ==> ls[i].key != key
  }

  lemma {:induction false} InsertElements(ls: seq<Label>, l: Label)
    ensures forall x :: x in Insert(ls, l) <==> x in ls || x == l
  {
    if ls != [] && Less(l.key, ls[|ls| - 1].key) {
      InsertElements(ls[..|ls| - 1], l);
      assert ls == ls[..|ls| - 1] + [ls[|ls| - 1]];
    }
  }

  lemma {:induction false} InsertSorted(ls: seq<Label>, l: Label)
    requires SortedKeys(ls) && Fresh(ls, l.key)
    ensures SortedKeys(Insert(ls, l))
  {
    if ls != [] {
      var front, last := ls[..|ls| - 1], ls[|ls| - 1];
      if Less(l.key, last.key) {
        InsertSorted(front, l);
        InsertElements(front, l);
        var r := Insert(front, l);
        forall i | 0 <= i < |r|
          ensures Less(r[i].key, last.key)
        {
          assert r[i] in r;
        }
      } else {
        LessTotal(l.key, last.key);
        forall i | 0 <= i < |ls|
          ensures Less(ls[i].key, l.key)
        {
          if i < |ls| - 1 { LessTransitive(ls[i].key, last.key, l.key); }
        }
      }
    }
  }

  lemma {:induction false} SortElements(ls: seq<Label>)
    ensures forall x :: x in Sort(ls) <==> x in ls
  {
    if ls != [] {
      var k := |ls| - 1;
      SortElements(ls[..k]);
      InsertElements(Sort(ls[..k]), ls[k]);
      assert ls == ls[..k] + [ls[k]];
    }
  }

  lemma {:induction false} SortSorted(ls: seq<Label>)
    requires DistinctKeys(ls)
    ensures SortedKeys(Sort(ls))
  {
    if ls != [] {
      var k := |ls| - 1;
      SortSorted(ls[..k]);
      SortElements(ls[..k]);
      var sorted := Sort(ls[..k]);
      forall i | 0 <= i < |sorted|
        ensures sorted[i].key != ls[k].key
      {
        assert sorted[i] in ls[..k];
      }
      InsertSorted(sorted, ls[k]);
    }
  }

  lemma {:induction false} SortedUnique(a: seq<Label>, b: seq<Label>)
    requires SortedKeys(a) && SortedKeys(b)
    requires forall x :: x in a <==> x in b
    ensures a == b
    decreases |a|
  {
    assert b != [] ==> b[0] in a;
    if a != [] {
      assert a[0] in b;
      HeadIsLeast(a, b[0]);
      HeadIsLeast(b, a[0]);
      LessIrreflexive(a[0].key);
      if a[0] != b[0] { LessTransitive(a[0].key, b[0].key, a[0].key); }
      TailElements(a);
      TailElements(b);
      SortedUnique(a[1..], b[1..]);
    }
  }

  lemma HeadIsLeast(a: seq<Label>, x: Label)
    requires a != [] && SortedKeys(a) && x in a
    ensures x == a[0] || Less(a[0].key, x.key)
  {
  }

  lemma TailElements(a: seq<Label>)
    requires a != [] && SortedKeys(a)
    ensures forall x :: x in a[1..] <==> x in a && x != a[0]
  {
    LessIrreflexive(a[0].key);
    forall i | 0 < i < |a|
      ensures a[i] != a[0]
    {
    }
  }

  /** Two label lists with distinct names hold the same labels. */
  predicate SameLabels(a: seq<Label>, b: seq<Label>) {
    (forall x :: x in a ==> x in b) && forall x :: x in b ==> x in a
  }

  lemma SortedEqualIffSame(a: seq<Label>, b: seq<Label>)
    requires DistinctKeys(a) && DistinctKeys(b)
    ensures Sort(a) == Sort(b) <==> SameLabels(a, b)
  {
    SortElements(a);
    SortElements(b);
    SortSorted(a);
    SortSorted(b);
    if SameLabels(a, b) {
      SortedUnique(Sort(a), Sort(b));
    }
  }

  // ----- The key

  function Part(l: Label): string {
    l.key + "=\"" + Escape(l.value) + "\""
  }

  function Join(ls: seq<Label>): string
    requires ls != []
  {
    if |ls| == 1 then Part(ls[0]) else Part(ls[0]) + "," + Join(ls[1..])
  }

  function Key(name: string, labels: seq<Label>): string {
    if labels == [] then name
    else
      SortKeepsSize(labels);
      name + "{" + Join(Sort(labels)) + "}"
  }

  lemma {:induction false} InsertSize(ls: seq<Label>, l: Label)
    ensures |Insert(ls, l)| == |ls| + 1
  {
    if ls != [] && Less(l.key, ls[|ls| - 1].key) {
      InsertSize(ls[..|ls| - 1], l);
    }
  }

  lemma {:induction false} SortKeepsSize(ls: seq<Label>)
    ensures |Sort(ls)| == |ls|
  {
    if ls != [] {
      SortKeepsSize(ls[..|ls| - 1]);
      InsertSize(Sort(ls[..|ls| - 1]), ls[|ls| - 1]);
    }
  }

  /** No equals sign in the name is followed by a quote, so the first such pair ends the name. */
  predicate IsCleanKey(key: string) {
    forall i :: 0 <= i < |key| - 1 ==> key[i] != '=' || key[i + 1] != '"'
  }

  /** A clean name is determined by the text that starts with it, an equals sign and a quote. */
  lemma {:induction false} SplitAtMarker(a: string, x: string, b: string, y: string)
    requires IsCleanKey(a) && IsCleanKey(b) && a + "=\"" + x == b + "=\"" + y
    ensures a == b && x == y
  {
    var s, t := a + "=\"" + x, b + "=\"" + y;
    assert a != "" ==> s[0] == a[0] && s[1] == (a + "=")[1];
    assert b != "" ==> t[0] == b[0] && t[1] == (b + "=")[1];
    assert a == "" ==> s[0] == '=' && s[1] == '"';
    assert b == "" ==> t[0] == '=' && t[1] == '"';
    assert a == "" <==> b == "";
    if a == "" {
      assert x == s[2..] && y == t[2..];
    } else {
      assert s[1..] == a[1..] + "=\"" + x && t[1..] == b[1..] + "=\"" + y;
      SplitAtMarker(a[1..], x, b[1..], y);
      assert a == [a[0]] + a[1..] && b == [b[0]] + b[1..];
    }
  }

  /** What follows the first label, up to and with the closing brace. */
  function Rest(ls: seq<Label>): string
    requires ls != []
  {
    if |ls| == 1 then "}" else "," + (Join(ls[1..]) + "}")
  }

  lemma JoinIsPartAndRest(ls: seq<Label>)
    requires ls != []
    ensures Join(ls) + "}" == Part(ls[0]) + Rest(ls)
  {
    hide Part;
  }

  lemma Regroup(key: string, value: string, rest: string)
    ensures key + "=\"" + value + "\"" + rest == key + "=\"" + (value + "\"" + rest)
  {
  }

  lemma JoinUnfolds(ls: seq<Label>)
    requires ls != []
    ensures Join(ls) + "}" == ls[0].key + "=\"" + (EscapeEach(ls[0].value) + "\"" + Rest(ls))
  {
    hide EscapeEach, Join, Rest, Escape;
    EscapeIsPerCharacter(ls[0].value);
    JoinIsPartAndRest(ls);
    Regroup(ls[0].key, EscapeEach(ls[0].value), Rest(ls));
  }

  lemma RestDecodes(a: seq<Label>, b: seq<Label>)
    requires a != [] && b != [] && Rest(a) == Rest(b)
    ensures |a| == 1 <==> |b| == 1
    ensures |a| > 1 && |b| > 1 ==> Join(a[1..]) + "}" == Join(b[1..]) + "}"
  {
    hide Join;
    assert |a| == 1 <==> Rest(a)[0] == '}';
    assert |b| == 1 <==> Rest(b)[0] == '}';
    assert |a| > 1 ==> Rest(a)[1..] == Join(a[1..]) + "}";
    assert |b| > 1 ==> Rest(b)[1..] == Join(b[1..]) + "}";
  }

  /** A label list followed by a closing brace can be read back. */
  lemma {:induction false} JoinInjective(a: seq<Label>, b: seq<Label>)
    requires a != [] && b != []
    requires forall l :: l in a || l in b ==> IsCleanKey(l.key)
    requires Join(a) + "}" == Join(b) + "}"
    ensures a == b
  {
    hide Join, EscapeEach, Rest, IsCleanKey;
    assert a[0] in a && b[0] in b;
    JoinUnfolds(a);
    JoinUnfolds(b);
    var valueA, valueB := EscapeEach(a[0].value) + "\"" + Rest(a), EscapeEach(b[0].value) + "\"" + Rest(b);
    SplitAtMarker(a[0].key, valueA, b[0].key, valueB);
    QuotedInjective(a[0].value, Rest(a), b[0].value, Rest(b));
    RestDecodes(a, b);
    assert a == [a[0]] + a[1..] && b == [b[0]] + b[1..];
    if |a| > 1 {
      JoinInjective(a[1..], b[1..]);
    }
  }

  lemma DropQuote(x: string, y: string)
    requires "\"" + x == "\"" + y
    ensures x == y
  {
    assert x == ("\"" + x)[1..] && y == ("\"" + y)[1..];
  }

  predicate CleanKeys(ls: seq<Label>) {
    forall l :: l in ls ==> IsCleanKey(l.key)
  }

  // ----- Which metric names can share a key

  /** One name goes on with a brace where the other ends. */
  predicate Clash(name: string, name': string) {
    name + "{" <= name' || name' + "{" <= name
  }

  lemma KeyStartsWithName(name: string, labels: seq<Label>)
    ensures name <= Key(name, labels)
    ensures labels == [] ==> Key(name, labels) == name
    ensures labels != [] ==> name + "{" <= Key(name, labels)
  {
    if labels != [] {
      SortKeepsSize(labels);
      hide Sort, Join;
      assert Key(name, labels) == name + "{" + (Join(Sort(labels)) + "}");
    }
  }

  lemma ShorterName(name: string, labels: seq<Label>, name': string, labels': seq<Label>)
    requires Key(name, labels) == Key(name', labels') && |name| < |name'|
    ensures name + "{" <= name'
  {
    KeyStartsWithName(name, labels);
    KeyStartsWithName(name', labels');
    hide Key;
    var key := Key(name, labels);
    assert |name| < |name'| <= |key|;
    assert name + "{" == key[..|name| + 1] && name' == key[..|name'|];
  }

  lemma SharedKey(name: string, labels: seq<Label>, name': string, labels': seq<Label>)
    requires Key(name, labels) == Key(name', labels')
    ensures name == name' || Clash(name, name')
  {
    hide Key;
    if |name| < |name'| {
      ShorterName(name, labels, name', labels');
    } else if |name'| < |name| {
      ShorterName(name', labels', name, labels);
    } else {
      KeyStartsWithName(name, labels);
      KeyStartsWithName(name', labels');
      assert name == Key(name, labels)[..|name|] && name' == Key(name, labels)[..|name|];
    }
  }

  /** A label whose name takes over the rest of the longer metric name. */
  lemma ClashCollides(name: string, rest: string, key: string, value: string)
    ensures Key(name + "{" + rest, [Label(key, value)]) == Key(name, [Label(rest + "{" + key, value)])
  {
    hide Key, Escape;
    KeyOfOne(name + "{" + rest, Label(key, value));
    KeyOfOne(name, Label(rest + "{" + key, value));
    var tail := "=\"" + Escape(value) + "\"";
    assert key + "=\"" + Escape(value) + "\"" == key + tail;
    assert rest + "{" + key + "=\"" + Escape(value) + "\"" == rest + "{" + key + tail;
    assert name + "{" + rest + "{" + (key + tail) + "}" == name + "{" + (rest + "{" + key + tail) + "}";
  }

  ghost predicate ShareKey(name: string, name': string) {
    exists labels, labels' :: DistinctKeys(labels) && DistinctKeys(labels') && Key(name, labels) == Key(name', labels')
  }

  lemma ClashShares(name: string, name': string)
    requires name + "{" <= name'
    ensures ShareKey(name, name') && ShareKey(name', name)
  {
    hide Key;
    var rest := name'[|name| + 1..];
    assert name' == name + "{" + rest;
    ClashCollides(name, rest, "k", "v");
    var labels, labels' := [Label(rest + "{" + "k", "v")], [Label("k", "v")];
    assert DistinctKeys(labels) && DistinctKeys(labels') && Key(name, labels) == Key(name', labels');
  }

  /** Different metric names share a key for some labels exactly when one goes on with a brace where the other ends. */
  lemma NamesShareIff(name: string, name': string)
    ensures ShareKey(name, name') <==> name == name' || Clash(name, name')
  {
    hide Key;
    if ShareKey(name, name') {
      var labels, labels' :| DistinctKeys(labels) && DistinctKeys(labels') && Key(name, labels) == Key(name', labels');
      SharedKey(name, labels, name', labels');
    }
    if name == name' {
      assert DistinctKeys([]) && Key(name, []) == Key(name', []);
    } else if name + "{" <= name' {
      ClashShares(name, name');
    } else if name' + "{" <= name {
      ClashShares(name', name);
    }
  }

  // ----- Which series share a key

  /** Equal keys mean the same metric name and the same labels, in whatever order they were given. */
  lemma KeyIdentifiesSeries(name: string, labels: seq<Label>, name': string, labels': seq<Label>)
    requires !Clash(name, name') && CleanKeys(labels) && CleanKeys(labels')
    requires DistinctKeys(labels) && DistinctKeys(labels')
    ensures Key(name, labels) == Key(name', labels') <==> name == name' && SameLabels(labels, labels')
  {
    SortedEqualIffSame(labels, labels');
    SortKeepsSize(labels);
    SortKeepsSize(labels');
    hide Sort, SameLabels, Join, IsCleanKey;
    if Key(name, labels) == Key(name', labels') {
      SharedKey(name, labels, name', labels');
      SameNameSameLabels(name, labels, labels');
    }
    if name == name' && SameLabels(labels, labels') {
      SameLabelsEmpty(labels, labels');
    }
  }

  lemma SameLabelsEmpty(a: seq<Label>, b: seq<Label>)
    requires SameLabels(a, b)
    ensures a == [] <==> b == []
  {
    assert a != [] ==> a[0] in b;
    assert b != [] ==> b[0] in a;
  }

  lemma SameNameSameLabels(name: string, a: seq<Label>, b: seq<Label>)
    requires Key(name, a) == Key(name, b) && CleanKeys(a) && CleanKeys(b)
    ensures Sort(a) == Sort(b)
  {
    KeyStartsWithName(name, a);
    KeyStartsWithName(name, b);
    SortKeepsSize(a);
    SortKeepsSize(b);
    hide Sort, Join, IsCleanKey;
    if a != [] && b != [] {
      var x, y := Join(Sort(a)) + "}", Join(Sort(b)) + "}";
      assert Key(name, a) == name + "{" + x && Key(name, b) == name + "{" + y;
      assert x == Key(name, a)[|name| + 1..] && y == Key(name, b)[|name| + 1..];
      SortElements(a);
      SortElements(b);
      JoinInjective(Sort(a), Sort(b));
    } else {
      assert |name + "{"| > |name|;
      assert a == [] && b == [];
    }
  }

  lemma KeyOfOne(name: string, l: Label)
    ensures Key(name, [l]) == name + "{" + Part(l) + "}"
  {
    hide Part;
    assert [l][..0] == [];
    assert Sort([l]) == [l];
  }

  lemma KeyOfTwo(name: string, k: Label, l: Label)
    requires !Less(l.key, k.key)
    ensures Key(name, [k, l]) == name + "{" + (Part(k) + "," + Part(l)) + "}"
  {
    hide Part, Less;
    assert [k][..0] == [] && [k, l][..1] == [k] && [k, l][1..] == [l];
    assert Sort([k]) == [k];
    assert Sort([k, l]) == [k, l];
    hide Sort;
    assert Join([k, l]) == Part(k) + "," + Join([l]);
  }

  lemma PartOfLetter(key: string, c: char)
    requires c != '\\' && c != '"' && c != '\n'
    ensures Part(Label(key, [c])) == key + "=\"" + [c] + "\""
  {
    EscapeIsPerCharacter([c]);
    assert [c][1..] == "";
    assert EscapeEach([c]) == [c];
  }

  /** Both conditions are needed: a brace in a metric name, and an equals sign and a quote in a label name, collide. */
  lemma UncleanNamesCollide()
    ensures Key("a{b=\"c\"}", []) == Key("a", [Label("b", "c")])
    ensures Key("m", [Label("a=\"x\",b", "y")]) == Key("m", [Label("a", "x"), Label("b", "y")])
  {
    hide Part, Sort, Join;
    PartOfLetter("b", 'c');
    KeyOfOne("a", Label("b", "c"));
    PartOfLetter("a", 'x');
    PartOfLetter("b", 'y');
    PartOfLetter("a=\"x\",b", 'y');
    KeyOfOne("m", Label("a=\"x\",b", "y"));
    KeyOfTwo("m", Label("a", "x"), Label("b", "y"));
  }
}
