/**
 Robots.txt files on which src/robots.rs and RFC 9309 come to different verdicts.
 */
module RobotsDepartures {
  import opened Prelude
  import opened RuleRegex
  import opened RobotsParse
  import opened RobotsText
  import opened RobotsVerdict
  import opened StandardGrouping
  import opened RobotsStandard
  import opened RobotsConformance

  // ---------- Short files ----------

  lemma ReadThree(values: Values, a: Line, b: Line, c: Line)
    ensures Run(values, [a, b, c]) == Step(values, Step(values, Step(values, INITIAL, a), b), c)
    ensures ReadAll(values, [a, b, c]) == ReadOn(values, ReadOn(values, ReadOn(values, Reading([], [], []), a), b), c)
  {
    Snoc(values, [], a);
    Snoc(values, [a], b);
    Snoc(values, [a, b], c);
    assert [] + [a] == [a] && [a] + [b] == [a, b] && [a, b] + [c] == [a, b, c];
  }

  lemma ReadFour(values: Values, a: Line, b: Line, c: Line, d: Line)
    ensures Run(values, [a, b, c, d]) == Step(values, Run(values, [a, b, c]), d)
    ensures ReadAll(values, [a, b, c, d]) == ReadOn(values, ReadAll(values, [a, b, c]), d)
  {
    Snoc(values, [a, b, c], d);
    assert [a, b, c] + [d] == [a, b, c, d];
  }

  lemma OneThenTwo<T>(x: T, y: T)
    ensures [] + [x] == [x] && [x] + [y] == [x, y]
  {
  }

  // One agent and two rules.
  lemma TwoRules(values: Values, agent: Line, first: Line, second: Line)
    requires agent.UserAgent? && first.Access? && second.Access?
    ensures var lines, rules := [agent, first, second], [RuleOf(values, first), RuleOf(values, second)];
            && ParseLines(values, lines).groups == [Group([Lower(agent.value)], rules, None, None)]
            && StandardGroups(values, lines) == [PlainGroup([Lower(agent.value)], rules)]
  {
    var name, a, b := Lower(agent.value), RuleOf(values, first), RuleOf(values, second);
    ReadThree(values, agent, first, second);
    OneThenTwo(name, name);
    OneThenTwo(a, b);
    assert Run(values, [agent, first, second]) == State([], [], [name], [a, b], None, None);
    assert ReadAll(values, [agent, first, second]) == Reading([], [name], [a, b]);
  }

  // A blank line between two rules.
  lemma TwoRulesApart(values: Values, agent: Line, first: Line, second: Line)
    requires agent.UserAgent? && first.Access? && second.Access?
    ensures var lines := [agent, first, Blank, second];
            && ParseLines(values, lines).groups == [Group([Lower(agent.value)], [RuleOf(values, first)], None, None)]
            && StandardGroups(values, lines)
            == [PlainGroup([Lower(agent.value)], [RuleOf(values, first), RuleOf(values, second)])]
  {
    var name, a, b := Lower(agent.value), RuleOf(values, first), RuleOf(values, second);
    ReadThree(values, agent, first, Blank);
    ReadFour(values, agent, first, Blank, second);
    OneThenTwo(name, name);
    OneThenTwo(a, b);
    var closed := State([Group([name], [a], None, None)], [], [], [], None, None);
    assert Run(values, [agent, first, Blank]) == closed;
    assert Run(values, [agent, first, Blank, second]) == closed;
    assert ReadAll(values, [agent, first, Blank, second]) == Reading([], [name], [a, b]);
  }

  // A crawl delay between two agents.
  lemma TwoAgentsApart(values: Values, first: Line, delay: Line, second: Line, rule: Line)
    requires first.UserAgent? && second.UserAgent? && rule.Access?
    requires delay.CrawlDelay? && values.crawlDelay(delay.value).Some?
    ensures var lines := [first, delay, second, rule];
            && ParseLines(values, lines).groups
            == [Group([Lower(first.value)], [], values.crawlDelay(delay.value), None),
                Group([Lower(second.value)], [RuleOf(values, rule)], None, None)]
            && StandardGroups(values, lines)
            == [PlainGroup([Lower(first.value), Lower(second.value)], [RuleOf(values, rule)])]
  {
    var a, b, r, d := Lower(first.value), Lower(second.value), RuleOf(values, rule), values.crawlDelay(delay.value);
    ReadThree(values, first, delay, second);
    ReadFour(values, first, delay, second, rule);
    OneThenTwo(a, b);
    OneThenTwo(b, b);
    OneThenTwo(r, r);
    var bare, ruled := Group([a], [], d, None), Group([b], [r], None, None);
    OneThenTwo(bare, ruled);
    assert Run(values, [first, delay, second]) == State([bare], [], [b], [], None, None);
    assert Run(values, [first, delay, second, rule]) == State([bare], [], [b], [r], None, None);
    assert ReadAll(values, [first, delay, second, rule]) == Reading([], [a, b], [r]);
  }

  // What the verdicts on a printed file are about.
  lemma PrintedVerdicts(values: Values, lines: seq<Line>, token: string, path: string)
    requires forall k :: 0 <= k < |lines| ==> Printable(lines[k])
    ensures ParseRules(values, Print(lines)).groups == ParseLines(values, lines).groups
    ensures StandardDenies(values, Print(lines), token, "host", path)
       <==> path != ROBOTS_TXT && MostOctetsDeny(StandardGroups(values, lines), token, "host", path)
  {
    PrintedLinesRead(lines);
  }

  lemma PrintedVerdictReadsThePatterns(values: Values, lines: seq<Line>, token: string, path: string)
    requires OneLine(path) && forall k :: 0 <= k < |lines| ==> Printable(lines[k])
    ensures Denied(ParseRules(values, Print(lines)).groups, token, "host", path)
       <==> PatternsDeny(ParseLines(values, lines).groups, token, "host", path)
  {
    PrintedLinesRead(lines);
    VerdictReadsThePatterns(values, Print(lines), token, "host", path);
  }

  lemma LowerOfOne(c: char)
    requires !('A' <= c <= 'Z')
    ensures Lower([c]) == [c]
  {
  }

  // The URL parser leaves the target as it is.
  ghost predicate KeepsTarget(values: Values, target: string) {
    values.target(target) == (None, target)
  }

  // ---------- Stars that match nothing ----------

  lemma StarredLengths()
    ensures Specificity("/a***") == 2 && Utf8Len("/a***") == 5
    ensures Specificity("/ab") == 3 && Utf8Len("/ab") == 3
  {
    assert "/a***"[1..] == "a***" && "a***"[1..] == "***" && "***"[1..] == "**" && "**"[1..] == "*" && "*"[1..] == "";
    assert "/ab"[1..] == "ab" && "ab"[1..] == "b" && "b"[1..] == "";
    assert NonStars("***") == 0 && Utf8Len("***") == 3;
  }

  lemma StarsFillEmpty()
    ensures Stars("***") == 3 && Fill("***", ["", "", ""]) == ""
  {
    assert "***"[1..] == "**" && "**"[1..] == "*" && "*"[1..] == "";
    assert ["", "", ""][1..] == ["", ""] && ["", ""][1..] == [""] && [""][1..] == [];
    assert Fill("*", [""]) == "" && Stars("*") == 1;
    assert Fill("**", ["", ""]) == "" && Stars("**") == 2;
  }

  lemma StarredReads()
    ensures Reads("/a***", "/ab")
  {
    var pattern, fills := "/a***", ["", "", ""];
    StarsFillEmpty();
    assert pattern[1..] == "a***" && "a***"[1..] == "***";
    assert Fill("a***", fills) == "a" + Fill("***", fills) == "a" && Stars("a***") == 3;
    assert Fill(pattern, fills) == "/" + Fill("a***", fills) == "/a" && Stars(pattern) == 3;
    assert Body(pattern) == pattern && !Anchored(pattern);
    assert Covers(Body(pattern), Anchored(pattern), fills, "/ab");
  }

  lemma LiteralReads(pattern: string)
    requires !NeedsRegex(pattern)
    ensures Reads(pattern, pattern)
  {
    LiteralBodyFills(pattern);
    assert Covers(Body(pattern), Anchored(pattern), [], pattern);
  }

  lemma StarGroupCounts(group: Group, token: string, rule: Rule)
    requires group.agents == ["*"]
    ensures Counts([group], token, rule) <==> rule in group.rules
  {
    GroupSpecificityIsGreatest(group.agents, token, "*");
    assert MostSpecific([group], group, token);
    assert group in [group];
  }

  lemma StarredGroupIsOutweighed(token: string, group: Group)
    requires ProductToken(token) && group.agents == ["*"]
    requires group.rules == [NewRule(Allow, None, "/a***"), NewRule(Disallow, None, "/ab")]
    ensures PatternsDeny([group], token, "host", "/ab") && !MostOctetsDeny([group], token, "host", "/ab")
  {
    var allow, disallow := NewRule(Allow, None, "/a***"), NewRule(Disallow, None, "/ab");
    StarredLengths();
    StarredReads();
    LiteralReads("/ab");
    OnlyStarsIsTheStandards([group], token);
    forall r
      ensures Counts([group], token, r) <==> r == allow || r == disallow
    {
      StarGroupCounts(group, token, r);
    }
    PairAgreesExactlyWhen([group], token, "host", "/ab", allow, disallow);
  }

  lemma StarredFileIsPrintable()
    ensures Printable(UserAgent("*")) && Printable(Access(Allow, "/a***")) && Printable(Access(Disallow, "/ab"))
  {
  }

  lemma StarredRules(values: Values, token: string, agent: Line, allow: Line, disallow: Line)
    requires ProductToken(token) && agent.UserAgent? && Lower(agent.value) == "*"
    requires allow.Access? && RuleOf(values, allow) == NewRule(Allow, None, "/a***")
    requires disallow.Access? && RuleOf(values, disallow) == NewRule(Disallow, None, "/ab")
    ensures var lines := [agent, allow, disallow];
            && PatternsDeny(ParseLines(values, lines).groups, token, "host", "/ab")
            && !MostOctetsDeny(StandardGroups(values, lines), token, "host", "/ab")
  {
    TwoRules(values, agent, allow, disallow);
    StarredGroupIsOutweighed(token, PlainGroup(["*"], [RuleOf(values, allow), RuleOf(values, disallow)]));
  }

  // Such stars make an Allow longer by octets and no more specific to the program: it denies a path that the
  // standard allows.
  lemma StarredAllowIsOutweighed(values: Values, token: string)
    requires ProductToken(token) && KeepsTarget(values, "/a***") && KeepsTarget(values, "/ab")
    ensures var body := Print([UserAgent("*"), Access(Allow, "/a***"), Access(Disallow, "/ab")]);
            && Denied(ParseRules(values, body).groups, token, "host", "/ab")
            && !StandardDenies(values, body, token, "host", "/ab")
  {
    var agent, allow, disallow := UserAgent("*"), Access(Allow, "/a***"), Access(Disallow, "/ab");
    LowerOfOne('*');
    StarredRules(values, token, agent, allow, disallow);
    StarredFileIsPrintable();
    PrintedVerdicts(values, [agent, allow, disallow], token, "/ab");
    assert OneLine("/ab");
    PrintedVerdictReadsThePatterns(values, [agent, allow, disallow], token, "/ab");
  }

  // ---------- Lines that divide a group ----------

  lemma UnreadRuleAllows(rule: Rule, token: string)
    requires rule == NewRule(Disallow, None, "/a")
    ensures !Denied([Group(["*"], [rule], None, None)], token, "host", "/b")
  {
    assert MatchLength(rule, "host", "/b").None?;
  }

  // One Disallow for a literal path, in a group the standard chooses.
  lemma LiteralIsDenied(group: Group, token: string, rule: Rule, path: string)
    requires Chosen([group], group, token) && rule in group.rules && rule == NewRule(Disallow, None, path)
    requires path != "" && !NeedsRegex(path) && forall r :: r in group.rules ==> r.kind == Disallow
    ensures MostOctetsDeny([group], token, "host", path)
  {
    LiteralReads(path);
    assert group in [group] && StandardCounts([group], token, rule);
    assert StandardPrevails([group], token, "host", path, rule);
  }

  lemma DividedFilesArePrintable()
    ensures Printable(UserAgent("*")) && Printable(Access(Disallow, "/a")) && Printable(Access(Disallow, "/b"))
    ensures Printable(UserAgent("a")) && Printable(CrawlDelay("5")) && Printable(UserAgent("b"))
    ensures Printable(Access(Disallow, "/")) && Printable(Blank)
  {
  }

  lemma ShortPathIsNotRobotsTxt(path: string)
    requires |path| < 5
    ensures path != ROBOTS_TXT
  {
  }

  lemma RuleBehindBlank(values: Values, token: string, agent: Line, first: Line, second: Line)
    requires agent.UserAgent? && Lower(agent.value) == "*" && token != "*"
    requires first.Access? && RuleOf(values, first) == NewRule(Disallow, None, "/a")
    requires second.Access? && RuleOf(values, second) == NewRule(Disallow, None, "/b")
    ensures var lines := [agent, first, Blank, second];
            && !Denied(ParseLines(values, lines).groups, token, "host", "/b")
            && MostOctetsDeny(StandardGroups(values, lines), token, "host", "/b")
  {
    TwoRulesApart(values, agent, first, second);
    UnreadRuleAllows(RuleOf(values, first), token);
    var group := PlainGroup(["*"], [RuleOf(values, first), RuleOf(values, second)]);
    assert Chosen([group], group, token);
    LiteralIsDenied(group, token, RuleOf(values, second), "/b");
  }

  // A blank line inside a group: the rule behind it is lost, and the path it disallows is allowed.
  lemma BlankLineLosesRule(values: Values, token: string)
    requires ProductToken(token) && KeepsTarget(values, "/a") && KeepsTarget(values, "/b")
    ensures var body := Print([UserAgent("*"), Access(Disallow, "/a"), Blank, Access(Disallow, "/b")]);
            && !Denied(ParseRules(values, body).groups, token, "host", "/b")
            && StandardDenies(values, body, token, "host", "/b")
  {
    var agent, first, second := UserAgent("*"), Access(Disallow, "/a"), Access(Disallow, "/b");
    LowerOfOne('*');
    assert token[0] != '*';
    RuleBehindBlank(values, token, agent, first, second);
    DividedFilesArePrintable();
    ShortPathIsNotRobotsTxt("/b");
    PrintedVerdicts(values, [agent, first, Blank, second], token, "/b");
  }

  lemma RulelessAgentIsAllowed(bare: Group, ruled: Group)
    requires bare.agents == ["a"] && bare.rules == [] && ruled.agents == ["b"]
    ensures !Denied([bare, ruled], "a", "host", "/")
  {
    assert Named([bare, ruled], "a");
    NamedGroupsAreMostSpecific([bare, ruled], "a", ruled);
  }

  lemma AgentBeforeDelay(values: Values, first: Line, delay: Line, second: Line, rule: Line)
    requires first.UserAgent? && Lower(first.value) == "a" && second.UserAgent? && Lower(second.value) == "b"
    requires delay.CrawlDelay? && values.crawlDelay(delay.value).Some?
    requires rule.Access? && RuleOf(values, rule) == NewRule(Disallow, None, "/")
    ensures var lines := [first, delay, second, rule];
            && !Denied(ParseLines(values, lines).groups, "a", "host", "/")
            && MostOctetsDeny(StandardGroups(values, lines), "a", "host", "/")
  {
    TwoAgentsApart(values, first, delay, second, rule);
    var group := PlainGroup(["a", "b"], [RuleOf(values, rule)]);
    var bare, ruled := Group(["a"], [], values.crawlDelay(delay.value), None), Group(["b"], group.rules, None, None);
    RulelessAgentIsAllowed(bare, ruled);
    assert Named([group], "a") && "a" in group.agents;
    LiteralIsDenied(group, "a", RuleOf(values, rule), "/");
  }

  // A crawl delay between two user-agent lines: the first agent is left without rules.
  lemma CrawlDelayLosesAgent(values: Values)
    requires KeepsTarget(values, "/") && values.crawlDelay("5").Some?
    ensures var body := Print([UserAgent("a"), CrawlDelay("5"), UserAgent("b"), Access(Disallow, "/")]);
            && !Denied(ParseRules(values, body).groups, "a", "host", "/")
            && StandardDenies(values, body, "a", "host", "/")
  {
    var a, delay, b, rule := UserAgent("a"), CrawlDelay("5"), UserAgent("b"), Access(Disallow, "/");
    LowerOfOne('a');
    LowerOfOne('b');
    AgentBeforeDelay(values, a, delay, b, rule);
    DividedFilesArePrintable();
    ShortPathIsNotRobotsTxt("/");
    PrintedVerdicts(values, [a, delay, b, rule], "a", "/");
  }

  // ---------- Agents that are part of the token ----------

  // An agent that is only part of the token takes precedence over `*`, which the standard would choose.
  lemma PartialAgentIsNotTheStandards(partial: Group, star: Group)
    requires partial.agents == ["bot"] && star.agents == ["*"]
    ensures var groups := [partial, star];
            MostSpecific(groups, partial, "mybot") && !MostSpecific(groups, star, "mybot")
            && Chosen(groups, star, "mybot") && !Chosen(groups, partial, "mybot")
  {
    var groups := [partial, star];
    assert OccursAt("mybot", "bot", 2);
    assert "bot"[1..] == "ot" && "ot"[1..] == "t" && "t"[1..] == "";
    assert Utf8Len("bot") == 3;
    assert partial.agents[1..] == [] && star.agents[1..] == [];
    assert GroupSpecificity(partial.agents, "mybot") == Some(3);
    assert GroupSpecificity(star.agents, "mybot") == Some(0);
  }
}
