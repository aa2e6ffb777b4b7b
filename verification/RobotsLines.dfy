/** What the lines of a robots.txt mean, written out as text, and what that makes of a whole file. */
module RobotsLines {
  import opened Commons
  import opened Robots

  lemma {:induction false} BeforeStops(s: string, c: char, rest: string)
    requires c !in s && (rest == "" || rest[0] == c)
    ensures Before(s + rest, c) == s
  {
    if s == "" {
      assert s + rest == rest;
    } else {
      assert (s + rest)[1..] == s[1..] + rest;
      BeforeStops(s[1..], c, rest);
    }
  }

  /** Nothing, or a hash and whatever follows it. */
  predicate IsComment(s: string) {
    s == "" || s[0] == '#'
  }

  lemma TrimOfStart(s: string) returns (before: string)
    ensures s == before + TrimStart(s) && AllBlank(before) && Trim(TrimStart(s)) == Trim(s)
    ensures TrimStart(s) != "" ==> TrimStart(s)[0] !in BLANKS
  {
    before := TrimStartIs(s);
    TrimStartSkips("", TrimStart(s));
    assert "" + TrimStart(s) == TrimStart(s);
  }

  lemma TrimOfEnd(s: string) returns (after: string)
    ensures s == TrimEnd(s) + after && AllBlank(after) && Trim(TrimEnd(s)) == Trim(s)
    ensures TrimEnd(s) != "" ==> TrimEnd(s)[|TrimEnd(s)| - 1] !in BLANKS
  {
    after := TrimEndIs(s);
    var t := Trim(TrimEnd(s));
    TrimIs(TrimEnd(s), t);
    var b, a :| IsCore(TrimEnd(s), b, t, a);
    assert s == b + t + (a + after);
    CoreIsTrimmed(s, b, t, a + after);
  }

  /** A core without a colon of its own, a colon, and a rest, between blanks. */
  lemma ColonCore(before: string, n: string, v: string, after: string)
    requires AllBlank(before) && AllBlank(after) && ':' !in n
    requires n != "" ==> n[0] !in BLANKS
    requires v != "" ==> v[|v| - 1] !in BLANKS
    ensures Trim(before + (n + ":" + v) + after) == n + ":" + v
    ensures Before(n + ":" + v, ':') == n && (n + ":" + v)[|n| + 1..] == v && ':' in n + ":" + v
  {
    hide Trim, Before, IsTrimmed;
    var core := n + ":" + v;
    ColonIsTrimmed(n, v);
    CoreIsTrimmed(before + core + after, before, core, after);
    ColonSplits(n, v);
  }

  lemma ColonIsTrimmed(n: string, v: string)
    requires n != "" ==> n[0] !in BLANKS
    requires v != "" ==> v[|v| - 1] !in BLANKS
    ensures IsTrimmed(n + ":" + v)
  {
    var core := n + ":" + v;
    assert ':' !in BLANKS;
    assert core[0] == (if n == "" then ':' else n[0]);
    assert core[|core| - 1] == (if v == "" then ':' else v[|v| - 1]);
  }

  lemma ColonSplits(n: string, v: string)
    requires ':' !in n
    ensures Before(n + ":" + v, ':') == n && (n + ":" + v)[|n| + 1..] == v && ':' in n + ":" + v
  {
    hide Before;
    BeforeStops(n, ':', ":" + v);
    assert n + ":" + v == n + (":" + v);
    assert (n + ":" + v)[|n|] == ':';
  }

  lemma ColonLine(name: string, value: string)
    requires ':' !in name
    ensures var line := Trim(name + ":" + value);
      && line != "" && ':' in line
      && Trim(Before(line, ':')) == Trim(name)
      && |Before(line, ':')| + 1 <= |line| && Trim(line[|Before(line, ':')| + 1..]) == Trim(value)
  {
    hide Trim, Before, TrimStart, TrimEnd;
    var before := TrimOfStart(name);
    var after := TrimOfEnd(value);
    var n, v := TrimStart(name), TrimEnd(value);
    PartHasNo(before, n, ':');
    ColonCore(before, n, v, after);
    Regroup(before, n, v, after);
  }

  lemma PartHasNo(before: string, n: string, c: char)
    requires c !in before + n
    ensures c !in n
  {
    assert forall i :: 0 <= i < |n| ==> n[i] == (before + n)[|before| + i];
  }

  lemma Regroup(before: string, n: string, v: string, after: string)
    ensures (before + n) + ":" + (v + after) == before + (n + ":" + v) + after
  {
  }

  /**
   A word before the first colon says what a line is; blanks around the word and the value, and a
   comment, do not matter.
   */
  lemma LineMeans(name: string, value: string, comment: string)
    requires '#' !in name && '#' !in value && ':' !in name && IsComment(comment)
    ensures var line := Classify(name + ":" + value + comment);
      var word := Lower(Trim(name));
      && (line == UserAgent(Lower(Trim(value))) <==> word == "user-agent")
      && (line == Rule(AllowRule, Trim(value)) <==> word == "allow")
      && (line == Rule(DisallowRule, Trim(value)) <==> word == "disallow")
      && (line == Rule(DelayRule, Trim(value)) <==> word == "crawl-delay")
      && (line == Skipped <==> word !in {"user-agent", "allow", "disallow", "crawl-delay"})
  {
    BeforeStops(name + ":" + value, '#', comment);
    ColonLine(name, value);
    assert |"user-agent"| == 10 && |"allow"| == 5 && |"disallow"| == 8 && |"crawl-delay"| == 11;
    hide Trim, Lower, Before;
  }

  /** Without a colon before its comment a line says nothing. */
  lemma NoColonIsSkipped(text: string, comment: string)
    requires '#' !in text && ':' !in text && IsComment(comment)
    ensures Classify(text + comment) == Skipped
  {
    BeforeStops(text, '#', comment);
    var before := TrimStartIs(text);
    var after := TrimEndIs(TrimStart(text));
    var line := Trim(text);
    assert text == before + line + after;
    assert forall i :: 0 <= i < |line| ==> line[i] == text[|before| + i];
  }

  // ----- The rules of an agent, line by line

  /** Line `m` is a rule of the kind, with that value, in a group that the agent heads. */
  ghost predicate IsRuleOf(lines: seq<Line>, m: nat, agent: string, kind: Kind, value: string) {
    && m < |lines| && lines[m] == Rule(kind, value)
    && exists u: nat :: HeadsGroup(lines, u, m) && lines[u] == UserAgent(agent)
  }

  function Repeated(value: string, n: nat): (r: seq<string>)
    ensures |r| == n && forall i :: 0 <= i < n ==> r[i] == value
  {
    if n == 0 then [] else Repeated(value, n - 1) + [value]
  }

  /** The non-empty values of the agent's rules of one kind, in file order, once per mention of the agent. */
  function ValuesOf(lines: seq<Line>, k: nat, agent: string, kind: Kind): seq<string>
    requires k <= |lines|
  {
    if k == 0 then []
    else
      ValuesOf(lines, k - 1, agent, kind) +
      if lines[k - 1].Rule? && lines[k - 1].kind == kind && lines[k - 1].value != ""
      then Repeated(lines[k - 1].value, Occurrences(RunBefore(lines, k - 1), agent)) else []
  }

  lemma {:induction false} AddTimesIs(g: Group, kind: Kind, value: string, delay: DelayParser, n: nat)
    ensures var after := AddTimes(g, kind, value, delay, n);
      && after.allow == g.allow + (if kind == AllowRule && value != "" then Repeated(value, n) else [])
      && after.disallow == g.disallow + (if kind == DisallowRule && value != "" then Repeated(value, n) else [])
      && after.crawlDelay == if kind == DelayRule && n > 0 && delay(value).Some? then delay(value) else g.crawlDelay
  {
    if n > 0 {
      AddTimesIs(g, kind, value, delay, n - 1);
    }
  }

  /** The lists of an agent's group are those values, each kind in its own list. */
  lemma {:induction false} RulesAreValues(lines: seq<Line>, k: nat, agent: string, delay: DelayParser)
    requires k <= |lines|
    ensures RulesFor(lines, k, agent, delay).allow == ValuesOf(lines, k, agent, AllowRule)
    ensures RulesFor(lines, k, agent, delay).disallow == ValuesOf(lines, k, agent, DisallowRule)
  {
    hide AddTimes;
    if k > 0 {
      RulesAreValues(lines, k - 1, agent, delay);
      if lines[k - 1].Rule? {
        AddTimesIs(RulesFor(lines, k - 1, agent, delay), lines[k - 1].kind, lines[k - 1].value, delay,
                   Occurrences(RunBefore(lines, k - 1), agent));
      }
    }
  }

  lemma {:induction false} OccursIff(s: seq<string>, x: string)
    ensures Occurrences(s, x) > 0 <==> x in s
  {
    if s != [] {
      OccursIff(s[..|s| - 1], x);
      assert s == s[..|s| - 1] + [s[|s| - 1]];
    }
  }

  lemma {:induction false} ValueIsRule(lines: seq<Line>, k: nat, agent: string, kind: Kind, value: string)
    requires k <= |lines|
    ensures value in ValuesOf(lines, k, agent, kind)
      <==> value != "" && exists m: nat :: m < k && IsRuleOf(lines, m, agent, kind, value)
  {
    hide IsRuleOf, Repeated, Occurrences, HeadsGroup, RunBefore;
    if k > 0 {
      ValueIsRule(lines, k - 1, agent, kind, value);
      RunNamesHeads(lines, k - 1, agent);
      OccursIff(RunBefore(lines, k - 1), agent);
      RuleAt(lines, k - 1, agent, kind, value);
      var n := Occurrences(RunBefore(lines, k - 1), agent);
      if lines[k - 1].Rule? {
        RepeatedHas(lines[k - 1].value, n, value);
      }
    }
  }

  lemma RepeatedHas(value: string, n: nat, x: string)
    ensures x in Repeated(value, n) <==> x == value && n > 0
  {
    if n > 0 {
      assert Repeated(value, n)[0] == value;
    }
  }

  lemma RuleAt(lines: seq<Line>, m: nat, agent: string, kind: Kind, value: string)
    requires m < |lines|
    ensures IsRuleOf(lines, m, agent, kind, value) <==> lines[m] == Rule(kind, value) && agent in RunBefore(lines, m)
  {
    RunNamesHeads(lines, m, agent);
  }

  /** An agent's allow and disallow lists hold exactly the values of the allow and disallow lines of its groups. */
  lemma RulesAre(lines: seq<Line>, agent: string, delay: DelayParser, value: string)
    ensures value in RulesFor(lines, |lines|, agent, delay).allow
      <==> value != "" && exists m: nat :: IsRuleOf(lines, m, agent, AllowRule, value)
    ensures value in RulesFor(lines, |lines|, agent, delay).disallow
      <==> value != "" && exists m: nat :: IsRuleOf(lines, m, agent, DisallowRule, value)
  {
    hide RulesFor, ValuesOf;
    RulesAreValues(lines, |lines|, agent, delay);
    ValueIsRule(lines, |lines|, agent, AllowRule, value);
    ValueIsRule(lines, |lines|, agent, DisallowRule, value);
    assert forall m: nat, kind :: IsRuleOf(lines, m, agent, kind, value) ==> m < |lines|;
  }

  /** Line `m` gives the agent a valid crawl delay. */
  ghost predicate GivesDelay(lines: seq<Line>, m: nat, agent: string, delay: DelayParser) {
    && m < |lines| && lines[m].Rule? && IsRuleOf(lines, m, agent, DelayRule, lines[m].value)
    && delay(lines[m].value).Some?
  }

  ghost predicate NoDelayBetween(lines: seq<Line>, m: nat, k: nat, agent: string, delay: DelayParser) {
    forall l: nat :: m <= l < k ==> !GivesDelay(lines, l, agent, delay)
  }

  /** The crawl delay is that of the last line of the agent's groups that gives a valid one. */
  lemma {:induction false} DelayIsLast(lines: seq<Line>, k: nat, agent: string, delay: DelayParser)
    requires k <= |lines|
    ensures var d := RulesFor(lines, k, agent, delay).crawlDelay;
      if d.None? then NoDelayBetween(lines, 0, k, agent, delay)
      else exists m: nat :: m < k && GivesDelay(lines, m, agent, delay) && delay(lines[m].value) == d
             && NoDelayBetween(lines, m + 1, k, agent, delay)
  {
    hide IsRuleOf, AddTimes, Occurrences, RunBefore;
    if k > 0 {
      DelayIsLast(lines, k - 1, agent, delay);
      var n := Occurrences(RunBefore(lines, k - 1), agent);
      OccursIff(RunBefore(lines, k - 1), agent);
      if lines[k - 1].Rule? {
        RuleAt(lines, k - 1, agent, DelayRule, lines[k - 1].value);
        AddTimesIs(RulesFor(lines, k - 1, agent, delay), lines[k - 1].kind, lines[k - 1].value, delay, n);
      }
      var was := RulesFor(lines, k - 1, agent, delay).crawlDelay;
      if GivesDelay(lines, k - 1, agent, delay) {
        assert NoDelayBetween(lines, k, k, agent, delay);
      } else if was.Some? {
        var m: nat :| m < k - 1 && GivesDelay(lines, m, agent, delay) && delay(lines[m].value) == was
          && NoDelayBetween(lines, m + 1, k - 1, agent, delay);
        assert NoDelayBetween(lines, m + 1, k, agent, delay);
      }
    }
  }

  // ----- The choice of a group

  predicate IsPrefix(a: string, s: string) {
    |a| <= |s| && s[..|a|] == a
  }

  /** The crawler's own name, else the longest other name that its name begins with, else the star. */
  lemma ChosenIs(agents: set<string>, ua: string, a: string)
    ensures IsChosen(agents, ua, Some(a)) <==>
      && a in agents
      && (|| a == ua
          || (ua !in agents && a != "*" && IsPrefix(a, ua)
              && forall b :: b in agents && b != "*" && IsPrefix(b, ua) ==> |b| <= |a|)
          || (ua !in agents && a == "*" && forall b :: b in agents && b != "*" ==> !IsPrefix(b, ua)))
  {
    forall b
      ensures Matches(b, ua) <==> b != "*" && IsPrefix(b, ua)
    {
    }
  }

  // ----- A whole file

  lemma OneRuleFile(p: string)
    requires p != "" && IsTrimmed(p) && '\n' !in p && '#' !in p
    ensures Read("User-agent: *\nDisallow: " + p + "\n") == [UserAgent("*"), Rule(DisallowRule, p)]
  {
    hide Classify, Lines, Trim, Lower, ReadLines;
    var first, second := "User-agent: *", "Disallow: " + p;
    assert "User-agent: *\nDisallow: " + p + "\n" == first + ("\n" + second + "\n");
    assert second[|second| - 1] == p[|p| - 1];
    TwoLines(first, second);
    StarLine();
    DisallowLine(p);
    TwoRead(first, second);
  }

  lemma TwoRead(first: string, second: string)
    ensures ReadLines([first, second]) == [Classify(first), Classify(second)]
  {
    hide Classify;
    assert [first, second][..1] == [first] && [first][..0] == [];
    assert ReadLines([first]) == [Classify(first)];
  }

  lemma StarLine()
    ensures Classify("User-agent: *") == UserAgent("*")
  {
    hide Classify, Trim, Lower;
    LineMeans("User-agent", " *", "");
    assert "User-agent" + ":" + " *" + "" == "User-agent: *";
    TrimmedStays("User-agent");
    assert " *" == " " + "*" + "";
    CoreIsTrimmed(" *", " ", "*", "");
    LowerIs("User-agent", "user-agent");
    LowerIs("*", "*");
  }

  lemma DisallowLine(p: string)
    requires p != "" && IsTrimmed(p) && '#' !in p
    ensures Classify("Disallow: " + p) == Rule(DisallowRule, p)
  {
    hide Classify, Trim, Lower;
    LineMeans("Disallow", " " + p, "");
    assert "Disallow" + ":" + (" " + p) + "" == "Disallow: " + p;
    TrimmedStays("Disallow");
    assert " " + p == " " + p + "";
    CoreIsTrimmed(" " + p, " ", p, "");
    LowerIs("Disallow", "disallow");
  }

  lemma LowerIs(s: string, t: string)
    requires |s| == |t| && forall i :: 0 <= i < |s| ==> LowerChar(s[i]) == t[i]
    ensures Lower(s) == t
  {
    hide Lower;
  }

  lemma CutLine(line: string, rest: string)
    requires '\n' !in line
    ensures Lines(line + "\n" + rest) == [WithoutReturn(line)] + Lines(rest)
  {
    hide Before;
    var body := line + "\n" + rest;
    BeforeStops(line, '\n', "\n" + rest);
    assert body == line + ("\n" + rest);
    assert body[|line|] == '\n' && body[|line| + 1..] == rest;
  }

  /** A line ends at a line feed, with or without a carriage return before it, or with the text. */
  lemma FirstLine(line: string, rest: string)
    requires '\n' !in line
    ensures line == "" || line[|line| - 1] != '\r' ==> Lines(line + "\n" + rest) == [line] + Lines(rest)
    ensures Lines(line + "\r\n" + rest) == [line] + Lines(rest)
    ensures Lines("") == [] && (line != "" ==> Lines(line) == [line])
  {
    hide Lines;
    OneLine(line);
    CutLine(line, rest);
    ReturnIsDropped(line, rest);
  }

  lemma OneLine(line: string)
    requires '\n' !in line
    ensures Lines("") == [] && (line != "" ==> Lines(line) == [line])
  {
  }

  lemma ReturnIsDropped(line: string, rest: string)
    requires '\n' !in line
    ensures Lines(line + "\r\n" + rest) == [line] + Lines(rest)
  {
    hide Lines;
    CutLine(line + "\r", rest);
    assert line + "\r" + "\n" + rest == line + "\r\n" + rest;
    assert (line + "\r")[..|line|] == line;
  }

  lemma TwoLines(first: string, second: string)
    requires '\n' !in first && '\n' !in second
    requires first != "" && first[|first| - 1] != '\r' && second != "" && second[|second| - 1] != '\r'
    ensures Lines(first + ("\n" + second + "\n")) == [first, second]
  {
    assert Lines("") == [];
    hide Lines;
    FirstLine(second, "");
    assert second + "\n" + "" == second + "\n";
    FirstLine(first, second + "\n");
    assert first + "\n" + (second + "\n") == first + ("\n" + second + "\n");
  }

  /** The file that disallows `p` to everybody blocks exactly the paths that begin with `p`, for every crawler. */
  lemma DisallowBlocksPrefix(p: string, userAgent: string, path: string, delay: DelayParser,
                             agents: set<string>, choice: Option<string>)
    requires p != "" && IsTrimmed(p) && '\n' !in p && '#' !in p
    requires Chooses(Read("User-agent: *\nDisallow: " + p + "\n"), Lower(userAgent), agents, choice)
    ensures (exists r :: Blocks(RulesOf(Read("User-agent: *\nDisallow: " + p + "\n"), choice, delay), path, r))
      <==> IsPrefix(p, path)
  {
    OneRuleFile(p);
    hide Read;
    var lines := Read("User-agent: *\nDisallow: " + p + "\n");
    OnlyTheStar(p, Lower(userAgent), agents, choice);
    StarRules(p, delay);
    var rules := RulesOf(lines, choice, delay);
    assert rules.disallow == [p] && rules.allow == [];
    assert IsPrefix(p, path) ==> Blocks(rules, path, p);
  }

  lemma OnlyTheStar(p: string, ua: string, agents: set<string>, choice: Option<string>)
    requires Chooses([UserAgent("*"), Rule(DisallowRule, p)], ua, agents, choice)
    ensures choice == Some("*")
  {
    var lines := [UserAgent("*"), Rule(DisallowRule, p)];
    assert RunBefore(lines, 0) == [];
    assert RunBefore(lines, 1) == ["*"];
    forall a
      ensures a in agents <==> a == "*"
    {
      OccursIff(["*"], a);
      assert HasRules(lines, 1, a) == false;
      assert HasRules(lines, 2, a) <==> a == "*";
    }
  }

  lemma StarRules(p: string, delay: DelayParser)
    requires p != ""
    ensures RulesFor([UserAgent("*"), Rule(DisallowRule, p)], 2, "*", delay) == Group([], [p], None)
  {
    var lines := [UserAgent("*"), Rule(DisallowRule, p)];
    assert RunBefore(lines, 0) == [];
    assert RunBefore(lines, 1) == ["*"];
    assert RulesFor(lines, 0, "*", delay) == NO_RULES;
    assert RulesFor(lines, 1, "*", delay) == NO_RULES;
    assert Occurrences([], "*") == 0 && ["*"][..0] == [];
    assert Occurrences(["*"], "*") == 1;
    assert AddTimes(NO_RULES, DisallowRule, p, delay, 0) == NO_RULES;
    assert AddTimes(NO_RULES, DisallowRule, p, delay, 1) == Group([], [p], None);
  }
}
