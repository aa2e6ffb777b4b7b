/** The robots.txt parser and matcher of robots.rs (sections 2.2.1 and 2.2.2 of RFC 9309). */
module Robots {
  import opened Commons

  datatype Decision = Allowed | Disallowed

  datatype Kind = AllowRule | DisallowRule | DelayRule

  /** What a line of the file means to the parser; unknown, empty and malformed lines are skipped. */
  datatype Line = Skipped | UserAgent(agent: string) | Rule(kind: Kind, value: string)

  datatype Group = Group(allow: seq<string>, disallow: seq<string>, crawlDelay: Option<nat>)

  const NO_RULES := Group([], [], None)

  // ----- Reading one line

  /** The text up to the first `c`, or all of it. */
  function Before(s: string, c: char): string {
    if s == "" || s[0] == c then "" else [s[0]] + Before(s[1..], c)
  }

  lemma {:induction false} BeforeIsPrefix(s: string, c: char)
    ensures Before(s, c) <= s && c !in Before(s, c)
    ensures Before(s, c) == s <==> c !in s
    ensures c in s ==> |Before(s, c)| < |s| && s[|Before(s, c)|] == c
  {
    if s != "" && s[0] != c {
      BeforeIsPrefix(s[1..], c);
    }
  }

  /** The lines of a text: cut at line feeds, each without the carriage return before its feed. */
  function Lines(body: string): seq<string> {
    if body == "" then []
    else
      BeforeIsPrefix(body, '\n');
      var first := Before(body, '\n');
      if '\n' !in body then [body] else [WithoutReturn(first)] + Lines(body[|first| + 1..])
  }

  function WithoutReturn(s: string): string {
    if s != "" && s[|s| - 1] == '\r' then s[..|s| - 1] else s
  }

  /** What the lines of a text mean, in order. */
  function Read(body: string): seq<Line> { ReadLines(Lines(body)) }

  function ReadLines(texts: seq<string>): (r: seq<Line>)
    ensures |r| == |texts| && forall i :: 0 <= i < |r| ==> r[i] == Classify(texts[i])
  {
    if texts == [] then [] else ReadLines(texts[..|texts| - 1]) + [Classify(texts[|texts| - 1])]
  }

  lemma {:induction false} BeforeComment(text: string, comment: string)
    requires '#' !in text
    ensures Before(text + "#" + comment, '#') == text
  {
    if text != "" {
      assert text + "#" + comment == [text[0]] + (text[1..] + "#" + comment);
      BeforeComment(text[1..], comment);
    } else {
      assert text + "#" + comment == "#" + comment;
    }
  }

  /** A comment changes nothing about its line. */
  lemma CommentIsIgnored(text: string, comment: string)
    requires '#' !in text
    ensures Classify(text + "#" + comment) == Classify(text)
  {
    BeforeComment(text, comment);
    BeforeIsPrefix(text, '#');
  }

  function Classify(text: string): Line {
    var line := Trim(Before(text, '#'));
    if line == "" || ':' !in line then Skipped
    else
      BeforeIsPrefix(line, ':');
      var key := Lower(Trim(Before(line, ':')));
      var value := Trim(line[|Before(line, ':')| + 1..]);
      if key == "user-agent" then UserAgent(Lower(value))
      else if key == "allow" then Rule(AllowRule, value)
      else if key == "disallow" then Rule(DisallowRule, value)
      else if key == "crawl-delay" then Rule(DelayRule, value)
      else Skipped
  }

  // ----- Parsing

  /** `value.parse::<f64>()` as milliseconds, when it is a finite number not below zero. */
  type DelayParser = string -> Option<nat>

  function AddRule(g: Group, kind: Kind, value: string, delay: DelayParser): Group {
    match kind
    case AllowRule => if value == "" then g else g.(allow := g.allow + [value])
    case DisallowRule => if value == "" then g else g.(disallow := g.disallow + [value])
    case DelayRule => if delay(value) == None then g else g.(crawlDelay := delay(value))
  }

  function GroupOf(groups: map<string, Group>, agent: string): Group {
    if agent in groups then groups[agent] else NO_RULES
  }

  /** The rule applied `n` times over. */
  function AddTimes(g: Group, kind: Kind, value: string, delay: DelayParser, n: nat): Group {
    if n == 0 then g else AddRule(AddTimes(g, kind, value, delay, n - 1), kind, value, delay)
  }

  /** One rule line, pushed to the group of every current agent in turn. */
  method ApplyRule(groups: map<string, Group>, agents: seq<string>, kind: Kind, value: string, delay: DelayParser)
    returns (after: map<string, Group>)
    ensures forall a :: a in after <==> a in groups || Occurrences(agents, a) > 0
    ensures forall a :: GroupOf(after, a) == AddTimes(GroupOf(groups, a), kind, value, delay, Occurrences(agents, a))
  {
    hide AddRule;
    after := groups;
    for i := 0 to |agents|
      invariant forall a :: a in after <==> a in groups || Occurrences(agents[..i], a) > 0
      invariant forall a ::
                  GroupOf(after, a) == AddTimes(GroupOf(groups, a), kind, value, delay, Occurrences(agents[..i], a))
    {
      var agent := agents[i];
      assert agents[..i + 1][..i] == agents[..i];
      after := after[agent := AddRule(GroupOf(after, agent), kind, value, delay)];
    }
    assert agents[..|agents|] == agents;
  }

  // ----- The reference: which rule lines belong to an agent

  /** The user-agent lines that head the group line `k` would join, in order. */
  function RunBefore(lines: seq<Line>, k: nat): seq<string>
    requires k <= |lines|
  {
    if k == 0 then []
    else match lines[k - 1]
      case UserAgent(agent) => (if RuleSinceAgent(lines, k - 1) then [] else RunBefore(lines, k - 1)) + [agent]
      case _ => RunBefore(lines, k - 1)
  }

  /** A rule line stands between the last user-agent line before `k`, if any, and `k`. */
  predicate RuleSinceAgent(lines: seq<Line>, k: nat)
    requires k <= |lines|
  {
    k > 0 && (lines[k - 1].Rule? || (lines[k - 1].Skipped? && RuleSinceAgent(lines, k - 1)))
  }

  /** An agent's rules: those of every group whose run of user-agent lines names it, in file order. */
  function RulesFor(lines: seq<Line>, k: nat, agent: string, delay: DelayParser): Group
    requires k <= |lines|
  {
    if k == 0 then NO_RULES
    else
      var before := RulesFor(lines, k - 1, agent, delay);
      match lines[k - 1]
      case Rule(kind, value) => AddTimes(before, kind, value, delay, Occurrences(RunBefore(lines, k - 1), agent))
      case _ => before
  }

  /** Some rule line before `k` belongs to the agent. */
  predicate HasRules(lines: seq<Line>, k: nat, agent: string)
    requires k <= |lines|
  {
    k > 0 && (HasRules(lines, k - 1, agent)
              || (lines[k - 1].Rule? && Occurrences(RunBefore(lines, k - 1), agent) > 0))
  }

  method Parse(body: string, delay: DelayParser) returns (groups: map<string, Group>)
    ensures forall a :: a in groups <==> HasRules(Read(body), |Read(body)|, a)
    ensures forall a :: GroupOf(groups, a) == RulesFor(Read(body), |Read(body)|, a, delay)
  {
    hide AddTimes, Classify, Lines;
    var texts := Lines(body);
    ghost var lines := ReadLines(texts);
    groups := map[];
    var currentAgents: seq<string> := [];
    var justSawDirective := false;
    for i := 0 to |texts|
      invariant justSawDirective ==> RuleSinceAgent(lines, i)
      invariant !justSawDirective && currentAgents != [] ==> !RuleSinceAgent(lines, i)
      invariant currentAgents == RunBefore(lines, i)
      invariant forall a :: a in groups <==> HasRules(lines, i, a)
      invariant forall a :: GroupOf(groups, a) == RulesFor(lines, i, a, delay)
    {
      match Classify(texts[i])
      case Skipped =>
      case UserAgent(agent) =>
        if justSawDirective {
          currentAgents := [];
        }
        currentAgents := currentAgents + [agent];
        justSawDirective := false;
      case Rule(kind, value) =>
        groups := ApplyRule(groups, currentAgents, kind, value, delay);
        justSawDirective := true;
    }
  }

  // ----- The run, said without a parser state

  predicate IsAgentLine(lines: seq<Line>, l: nat) {
    l < |lines| && lines[l].UserAgent?
  }

  /** Line `u` is a user-agent line that heads the group at `k`: no rule and then a user-agent line lie between. */
  ghost predicate HeadsGroup(lines: seq<Line>, u: nat, k: nat) {
    && u < k <= |lines| && IsAgentLine(lines, u)
    && forall m, l :: u < m < l < k && lines[m].Rule? ==> !IsAgentLine(lines, l)
  }

  ghost predicate NoAgentBetween(lines: seq<Line>, m: nat, k: nat) {
    forall l :: m < l < k ==> !IsAgentLine(lines, l)
  }

  lemma {:induction false} RuleSinceAgentMeans(lines: seq<Line>, k: nat)
    requires k <= |lines|
    ensures RuleSinceAgent(lines, k) <==> exists m: nat :: m < k && lines[m].Rule? && NoAgentBetween(lines, m, k)
  {
    if k > 0 {
      RuleSinceAgentMeans(lines, k - 1);
      if lines[k - 1].Rule? {
        assert NoAgentBetween(lines, k - 1, k);
      } else if lines[k - 1].UserAgent? {
        forall m | 0 <= m < k && lines[m].Rule?
          ensures !NoAgentBetween(lines, m, k)
        {
          assert m < k - 1 < k && IsAgentLine(lines, k - 1);
        }
      } else {
        forall m | 0 <= m < k - 1
          ensures NoAgentBetween(lines, m, k - 1) <==> NoAgentBetween(lines, m, k)
        {
        }
      }
    }
  }

  /** The agents a rule line applies to are those named by the user-agent lines that head its group. */
  lemma {:induction false} RunNamesHeads(lines: seq<Line>, k: nat, agent: string)
    requires k <= |lines|
    ensures agent in RunBefore(lines, k)
       <==> exists u: nat :: HeadsGroup(lines, u, k) && lines[u] == UserAgent(agent)
  {
    if k > 0 {
      RunNamesHeads(lines, k - 1, agent);
      RuleSinceAgentMeans(lines, k - 1);
      if lines[k - 1].UserAgent? {
        assert HeadsGroup(lines, k - 1, k);
        forall u | 0 <= u < k - 1 && IsAgentLine(lines, u)
          ensures HeadsGroup(lines, u, k) <==> HeadsGroup(lines, u, k - 1) && !RuleSinceAgent(lines, k - 1)
        {
          AgentAfterRule(lines, u, k);
        }
      } else {
        forall u | 0 <= u < k - 1
          ensures HeadsGroup(lines, u, k) <==> HeadsGroup(lines, u, k - 1)
        {
        }
      }
    }
  }

  lemma AgentAfterRule(lines: seq<Line>, u: nat, k: nat)
    requires u < k - 1 < |lines| && IsAgentLine(lines, u) && lines[k - 1].UserAgent?
    ensures HeadsGroup(lines, u, k) <==> HeadsGroup(lines, u, k - 1) && !RuleSinceAgent(lines, k - 1)
  {
    RuleSinceAgentMeans(lines, k - 1);
    if HeadsGroup(lines, u, k) {
      forall m: nat | m < k - 1 && lines[m].Rule?
        ensures !NoAgentBetween(lines, m, k - 1)
      {
        assert IsAgentLine(lines, k - 1);
        assert m < u && IsAgentLine(lines, u);
      }
    }
    if HeadsGroup(lines, u, k - 1) && !RuleSinceAgent(lines, k - 1) {
      var last: nat := k - 1;
      forall m: nat | u < m < last
        ensures !lines[m].Rule?
      {
        assert lines[m].Rule? ==> NoAgentBetween(lines, m, last);
      }
    }
  }

  // ----- Choosing a group and deciding

  /** A named agent that is a prefix of the crawler's. */
  predicate Matches(agent: string, ua: string) {
    agent != "*" && agent <= ua
  }

  /** The most specific group: the exact agent, else the longest matching prefix, else `*`. */
  ghost predicate IsChosen(agents: set<string>, ua: string, choice: Option<string>) {
    if ua in agents then choice == Some(ua)
    else if exists a :: a in agents && Matches(a, ua) then
      && choice.Some? && choice.value in agents && Matches(choice.value, ua)
      && forall a :: a in agents && Matches(a, ua) ==> |a| <= |choice.value|
    else choice == if "*" in agents then Some("*") else None
  }

  /** The choice does not depend on the map's iteration order. */
  lemma ChoiceIsUnique(agents: set<string>, ua: string, a: Option<string>, b: Option<string>)
    requires IsChosen(agents, ua, a) && IsChosen(agents, ua, b)
    ensures a == b
  {
    if a.Some? && b.Some? && |a.value| == |b.value| && a.value <= ua && b.value <= ua {
      assert a.value == ua[..|a.value|] == b.value;
    }
  }

  method MatchingGroup(groups: map<string, Group>, userAgent: string) returns (choice: Option<string>)
    ensures IsChosen(groups.Keys, Lower(userAgent), choice)
  {
    var ua := Lower(userAgent);
    if ua in groups {
      return Some(ua);
    }
    choice := None;
    var rest := groups.Keys;
    while rest != {}
      invariant rest <= groups.Keys
      invariant choice.Some? ==> choice.value in groups && Matches(choice.value, ua)
      invariant forall a :: a in groups && a !in rest && Matches(a, ua) ==> choice.Some? && |a| <= |choice.value|
      decreases rest
    {
      var agent :| agent in rest;
      rest := rest - {agent};
      if agent == "*" {
        continue;
      }
      if agent <= ua && (choice == None || |agent| > |choice.value|) {
        choice := Some(agent);
      }
    }
    if choice == None && "*" in groups {
      choice := Some("*");
    }
  }

  function LongestPrefix(rules: seq<string>, path: string): Option<nat> {
    if rules == [] then None
    else
      var best := LongestPrefix(rules[1..], path);
      if rules[0] <= path && (best == None || |rules[0]| > best.value) then Some(|rules[0]|) else best
  }

  function Decide(g: Group, path: string): Decision {
    match (LongestPrefix(g.allow, path), LongestPrefix(g.disallow, path))
    case (_, None) => Allowed
    case (None, Some(_)) => Disallowed
    case (Some(a), Some(d)) => if a >= d then Allowed else Disallowed
  }

  lemma {:induction false} LongestPrefixIs(rules: seq<string>, path: string)
    ensures var best := LongestPrefix(rules, path);
            && (best.Some? ==> exists r :: r in rules && r <= path && |r| == best.value)
            && forall r :: r in rules && r <= path ==> best.Some? && |r| <= best.value
  {
    if rules != [] {
      LongestPrefixIs(rules[1..], path);
      assert rules == [rules[0]] + rules[1..];
    }
  }

  /** A matching disallow rule strictly longer than every matching allow rule. */
  ghost predicate Blocks(g: Group, path: string, d: string) {
    d in g.disallow && d <= path && forall a :: a in g.allow && a <= path ==> |a| < |d|
  }

  /** The longest match decides and a tie allows. */
  lemma DisallowedIffBlocked(g: Group, path: string)
    ensures Decide(g, path) == Disallowed <==> exists d :: Blocks(g, path, d)
  {
    LongestPrefixIs(g.allow, path);
    LongestPrefixIs(g.disallow, path);
    hide LongestPrefix;
    if Decide(g, path) == Disallowed {
      var d :| d in g.disallow && d <= path && |d| == LongestPrefix(g.disallow, path).value;
      assert Blocks(g, path, d);
    }
    if d :| Blocks(g, path, d) {
      if LongestPrefix(g.allow, path).Some? {
        var a :| a in g.allow && a <= path && |a| == LongestPrefix(g.allow, path).value;
      }
    }
  }

  method IsAllowed(groups: map<string, Group>, userAgent: string, path: string) returns (d: Decision)
    ensures exists choice :: IsChosen(groups.Keys, Lower(userAgent), choice)
              && d == if choice == None then Allowed else Decide(GroupOf(groups, choice.value), path)
  {
    var choice := MatchingGroup(groups, userAgent);
    d := if choice == None then Allowed else Decide(groups[choice.value], path);
  }

  ghost predicate AgentsWithRules(lines: seq<Line>, agents: set<string>) {
    forall a :: a in agents <==> HasRules(lines, |lines|, a)
  }

  ghost predicate Chooses(lines: seq<Line>, ua: string, agents: set<string>, choice: Option<string>) {
    AgentsWithRules(lines, agents) && IsChosen(agents, ua, choice)
  }

  function RulesOf(lines: seq<Line>, choice: Option<string>, delay: DelayParser): Group {
    if choice == None then NO_RULES else RulesFor(lines, |lines|, choice.value, delay)
  }

  /** Parsing and deciding together: the rules of the one chosen agent, longest match, ties allow. */
  method Check(body: string, userAgent: string, path: string, delay: DelayParser)
    returns (d: Decision, ghost agents: set<string>, ghost choice: Option<string>)
    ensures Chooses(Read(body), Lower(userAgent), agents, choice)
    ensures d == Disallowed <==> exists r :: Blocks(RulesOf(Read(body), choice, delay), path, r)
  {
    hide RulesFor, HasRules, Decide, Blocks, IsChosen, Read;
    ghost var lines := Read(body);
    var groups := Parse(body, delay);
    agents := groups.Keys;
    var chosen := MatchingGroup(groups, userAgent);
    choice := chosen;
    MatchingIsIn(agents, Lower(userAgent), choice);
    d := if chosen == None then Allowed else Decide(groups[chosen.value], path);
    assert choice.Some? ==> groups[choice.value] == GroupOf(groups, choice.value);
    DisallowedIffBlocked(RulesOf(lines, choice, delay), path);
    NoRulesAllow(path);
  }

  lemma MatchingIsIn(agents: set<string>, ua: string, choice: Option<string>)
    requires IsChosen(agents, ua, choice)
    ensures choice.Some? ==> choice.value in agents
  {
  }

  lemma NoRulesAllow(path: string)
    ensures Decide(NO_RULES, path) == Allowed
  {
  }

  /** The file and the crawler's name determine the choice. */
  lemma ChosenAgentUnique(lines: seq<Line>, ua: string, a: set<string>, x: Option<string>,
                          b: set<string>, y: Option<string>)
    requires Chooses(lines, ua, a, x) && Chooses(lines, ua, b, y)
    ensures x == y
  {
    hide HasRules, IsChosen;
    assert a == b;
    ChoiceIsUnique(a, ua, x, y);
  }

  // ----- Rules repeat only when an agent is named twice in one run

  lemma {:induction false} RepeatedRule(g: Group, value: string, delay: DelayParser, n: nat)
    requires value != ""
    ensures |AddTimes(g, DisallowRule, value, delay, n).disallow| == |g.disallow| + n
  {
    if n > 0 {
      RepeatedRule(g, value, delay, n - 1);
    }
  }
}
