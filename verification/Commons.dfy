/**
 * Small things several engines share: optional values, the smaller and the larger of two numbers,
 * sequences without repetitions, and the ASCII part of trimming and lower-casing text. White space
 * and letters outside ASCII are not touched here.
 */
module Commons {

  datatype Option<T> = None | Some(value: T)

  function Min(a: nat, b: nat): nat { if a < b then a else b }

  function Max(a: nat, b: nat): nat { if a < b then b else a }

  /** How long ago `since` was; nothing for a time still to come. */
  function Elapsed(since: nat, now: nat): nat { if now < since then 0 else now - since }

  lemma ElapsedIs(since: nat, now: nat, d: nat)
    ensures Elapsed(since, since + d) == d
    ensures now <= since ==> Elapsed(since, now) == 0
  {}

  /** The readings attached to the elements never go back. */
  ghost predicate InOrder<T(!new)>(time: T -> nat, s: seq<T>) {
    forall i, j :: 0 <= i < j < |s| ==> time(s[i]) <= time(s[j])
  }

  /** How often `x` stands in `s`. */
  function Occurrences<T(==)>(s: seq<T>, x: T): nat {
    if s == [] then 0 else Occurrences(s[..|s| - 1], x) + if s[|s| - 1] == x then 1 else 0
  }

  lemma {:induction false} OccurrencesOfDistinct<T>(s: seq<T>, x: T)
    requires Distinct(s)
    ensures Occurrences(s, x) == if x in s then 1 else 0
  {
    if s != [] {
      var front := s[..|s| - 1];
      OccurrencesOfDistinct(front, x);
      assert s == front + [s[|s| - 1]];
    }
  }

  ghost predicate Distinct<T>(s: seq<T>) {
    forall i, j :: 0 <= i < j < |s| ==> s[i] != s[j]
  }

  // ----- Trimming and lower case

  const BLANKS := {' ', '\t', '\n', '\U{000B}', '\U{000C}', '\r'}
  const CAPITALS := "ABCDEFGHIJKLMNOPQRSTUVWXYZ"
  const SMALL := "abcdefghijklmnopqrstuvwxyz"

  predicate IsSpace(c: char) {
    c == ' ' || '\t' <= c <= '\r'
  }

  lemma SpacesAreBlanks(c: char)
    ensures IsSpace(c) <==> c in BLANKS
  {
    assert IsSpace(c) <==> c as int == 32 || 9 <= c as int <= 13;
  }

  function TrimStart(s: string): string {
    if s != "" && IsSpace(s[0]) then TrimStart(s[1..]) else s
  }

  function TrimEnd(s: string): string {
    if s != "" && IsSpace(s[|s| - 1]) then TrimEnd(s[..|s| - 1]) else s
  }

  function Trim(s: string): string { TrimEnd(TrimStart(s)) }

  ghost predicate AllBlank(s: string) {
    forall i :: 0 <= i < |s| ==> s[i] in BLANKS
  }

  /** No blank at either end. */
  predicate IsTrimmed(t: string) {
    t == "" || (t[0] !in BLANKS && t[|t| - 1] !in BLANKS)
  }

  /** `t` stands in `s` between nothing but blanks. */
  ghost predicate IsCore(s: string, before: string, t: string, after: string) {
    s == before + t + after && AllBlank(before) && AllBlank(after)
  }

  lemma {:induction false} TrimStartIs(s: string) returns (before: string)
    ensures s == before + TrimStart(s) && AllBlank(before)
    ensures TrimStart(s) != "" ==> TrimStart(s)[0] !in BLANKS
  {
    before := "";
    if s != "" {
      SpacesAreBlanks(s[0]);
      if IsSpace(s[0]) {
        var rest := TrimStartIs(s[1..]);
        before := [s[0]] + rest;
        assert s == [s[0]] + s[1..];
      }
    }
  }

  lemma {:induction false} TrimEndIs(s: string) returns (after: string)
    ensures s == TrimEnd(s) + after && AllBlank(after)
    ensures TrimEnd(s) != "" ==> TrimEnd(s)[|TrimEnd(s)| - 1] !in BLANKS
  {
    after := "";
    if s != "" {
      SpacesAreBlanks(s[|s| - 1]);
      if IsSpace(s[|s| - 1]) {
        var rest := TrimEndIs(s[..|s| - 1]);
        after := rest + [s[|s| - 1]];
        assert s == s[..|s| - 1] + [s[|s| - 1]];
      }
    }
  }

  lemma {:induction false} TrimStartSkips(before: string, s: string)
    requires AllBlank(before)
    requires s != "" ==> s[0] !in BLANKS
    ensures TrimStart(before + s) == s
  {
    if before == "" {
      assert before + s == s;
      if s != "" {
        SpacesAreBlanks(s[0]);
      }
    } else {
      SpacesAreBlanks(before[0]);
      assert (before + s)[1..] == before[1..] + s;
      TrimStartSkips(before[1..], s);
    }
  }

  lemma {:induction false} TrimEndSkips(s: string, after: string)
    requires AllBlank(after)
    requires s != "" ==> s[|s| - 1] !in BLANKS
    ensures TrimEnd(s + after) == s
  {
    if after == "" {
      assert s + after == s;
      if s != "" {
        SpacesAreBlanks(s[|s| - 1]);
      }
    } else {
      var k := |after| - 1;
      SpacesAreBlanks(after[k]);
      assert (s + after)[..|s + after| - 1] == s + after[..k];
      TrimEndSkips(s, after[..k]);
    }
  }

  lemma {:induction false} AllBlankTrims(s: string)
    requires AllBlank(s)
    ensures TrimStart(s) == "" && Trim(s) == ""
  {
    TrimStartSkips(s, "");
    assert s + "" == s;
  }

  /** What trimming keeps: the text without the blanks around it, and nothing else. */
  lemma TrimIs(s: string, t: string)
    ensures Trim(s) == t <==> IsTrimmed(t) && exists before, after :: IsCore(s, before, t, after)
  {
    if Trim(s) == t {
      var before := TrimStartIs(s);
      var after := TrimEndIs(TrimStart(s));
      assert IsCore(s, before, t, after);
      if t != "" {
        assert t[0] == TrimStart(s)[0];
      }
    }
    if IsTrimmed(t) && exists before, after :: IsCore(s, before, t, after) {
      var before, after :| IsCore(s, before, t, after);
      CoreIsTrimmed(s, before, t, after);
    }
  }

  lemma CoreIsTrimmed(s: string, before: string, t: string, after: string)
    requires IsTrimmed(t) && IsCore(s, before, t, after)
    ensures Trim(s) == t
  {
    if t == "" {
      AllBlankTrims(s);
    } else {
      assert s == before + (t + after);
      TrimStartSkips(before, t + after);
      TrimEndSkips(t, after);
    }
  }

  lemma TrimmedStays(t: string)
    requires IsTrimmed(t)
    ensures Trim(t) == t
  {
    assert t == "" + t + "";
    CoreIsTrimmed(t, "", t, "");
  }

  function LowerChar(c: char): char {
    if 'A' <= c <= 'Z' then c - 'A' + 'a' else c
  }

  /** Each capital goes to its small letter, and every other character stays. */
  lemma LowerCharIs(c: char)
    ensures forall i :: 0 <= i < 26 && c == CAPITALS[i] ==> LowerChar(c) == SMALL[i]
    ensures c !in CAPITALS ==> LowerChar(c) == c
  {
    assert |CAPITALS| == 26 && |SMALL| == 26;
    if 'A' <= c <= 'Z' {
      assert CAPITALS[(c - 'A') as int] == c;
    }
  }

  function Lower(s: string): (r: string)
    ensures |r| == |s|
    ensures forall i :: 0 <= i < |s| ==> r[i] == LowerChar(s[i])
  {
    if s == "" then "" else [LowerChar(s[0])] + Lower(s[1..])
  }

  // ----- Decimal numerals

  function Digit(d: nat): char
    requires d < 10
  {
    '0' + d as char
  }

  function Decimal(n: nat): (s: string)
    ensures |s| > 0
  {
    if n < 10 then [Digit(n)] else Decimal(n / 10) + [Digit(n % 10)]
  }

  lemma {:induction false} DecimalIsDigits(n: nat, i: nat)
    requires i < |Decimal(n)|
    ensures '0' <= Decimal(n)[i] <= '9'
  {
    if n >= 10 && i < |Decimal(n / 10)| {
      DecimalIsDigits(n / 10, i);
    }
  }

  lemma {:induction false} DecimalInjective(m: nat, n: nat)
    requires Decimal(m) == Decimal(n)
    ensures m == n
  {
    var s, t := Decimal(m), Decimal(n);
    assert s[|s| - 1] == t[|t| - 1];
    if m >= 10 && n >= 10 {
      assert s[..|s| - 1] == Decimal(m / 10) && t[..|t| - 1] == Decimal(n / 10);
      DecimalInjective(m / 10, n / 10);
    }
  }

  const NUMERALS := "0123456789"

  /** The number that a text of numerals stands for, by position. */
  ghost predicate Denotes(s: string, n: nat)
    decreases |s|, 1
  {
    s != "" && exists d: nat :: EndsIn(s, n, d)
  }

  /** The last numeral is that of `d`, and what stands before it denotes the rest. */
  ghost predicate EndsIn(s: string, n: nat, d: nat)
    requires s != ""
    decreases |s|, 0
  {
    && d < 10 && d <= n && s[|s| - 1] == NUMERALS[d]
    && if |s| == 1 then n == d else (n - d) % 10 == 0 && Denotes(s[..|s| - 1], (n - d) / 10)
  }

  /** A decimal denotes its number, and starts with a zero only for zero itself. */
  lemma {:induction false} DecimalDenotes(n: nat)
    ensures Denotes(Decimal(n), n)
    ensures Decimal(n)[0] == '0' <==> n == 0
  {
    assert |NUMERALS| == 10;
    var d := n % 10;
    assert Digit(d) == NUMERALS[d];
    if n >= 10 {
      DecimalDenotes(n / 10);
      assert Decimal(n)[..|Decimal(n)| - 1] == Decimal(n / 10);
      assert (n - d) / 10 == n / 10;
    } else {
      assert n == d;
    }
    assert EndsIn(Decimal(n), n, d);
  }
}
