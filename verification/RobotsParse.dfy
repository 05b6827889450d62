/**
 The robots.txt line parser (src/robots.rs): reading lines, grouping directives, collecting sitemaps.
 URL and number parsing are parameters.
 */
module RobotsParse {
  import opened Prelude
  import opened RuleRegex

  // ---------- Reading lines ----------

  // The position of the first `c`, or the length of the text.
  function Find(s: string, c: char): (n: nat)
    ensures n <= |s|
    ensures forall i :: 0 <= i < n ==> s[i] != c
    ensures n < |s| ==> s[n] == c
  {
    if s == "" || s[0] == c then 0 else 1 + Find(s[1..], c)
  }

  // The Unicode White_Space characters, which `str::trim` removes.
  predicate IsSpace(c: char) {
    var u := c as int;
    || 0x9 <= u <= 0xD || u == 0x20 || u == 0x85 || u == 0xA0 || u == 0x1680 || 0x2000 <= u <= 0x200A
    || u == 0x2028 || u == 0x2029 || u == 0x202F || u == 0x205F || u == 0x3000
  }

  function TrimEnd(s: string): string {
    if s != "" && IsSpace(s[|s| - 1]) then TrimEnd(s[..|s| - 1]) else s
  }

  function TrimStart(s: string): string {
    if s != "" && IsSpace(s[0]) then TrimStart(s[1..]) else s
  }

  function Trim(s: string): string {
    TrimStart(TrimEnd(s))
  }

  function StripCr(s: string): string {
    if s != "" && s[|s| - 1] == '\r' then s[..|s| - 1] else s
  }

  // `str::lines`: a final line without a newline counts, an empty one does not.
  function Lines(body: string): seq<string>
    decreases |body|
  {
    var n := Find(body, '\n');
    if body == "" then []
    else if n == |body| then [body]
    else [StripCr(body[..n])] + Lines(body[n + 1..])
  }

  function StripComment(line: string): string {
    line[..Find(line, '#')]
  }

  function StripBom(line: string): string {
    if line != "" && line[0] == '\U{FEFF}' then line[1..] else line
  }

  // A line as the grouping loop tells lines apart; directives with other names are noise.
  datatype Line =
    | Blank
    | Noise
    | UserAgent(value: string)
    | Access(kind: RuleKind, value: string)
    | CrawlDelay(value: string)
    | RequestRate(value: string)
    | Sitemap(value: string)

  function Directive(name: string, value: string): Line {
    match name
    case "user-agent" => UserAgent(value)
    case "allow" => Access(Allow, value)
    case "disallow" => Access(Disallow, value)
    case "crawl-delay" => CrawlDelay(value)
    case "request-rate" => RequestRate(value)
    case "sitemap" => Sitemap(value)
    case _ => Noise
  }

  function ReadLine(raw: string): Line {
    var line := Trim(StripBom(StripComment(raw)));
    var n := Find(line, ':');
    if line == "" then Blank
    else if n == |line| then Noise
    else Directive(Lower(Trim(line[..n])), Trim(line[n + 1..]))
  }

  function ReadLines(raw: seq<string>): (lines: seq<Line>)
    ensures |lines| == |raw|
  {
    seq(|raw|, k requires 0 <= k < |raw| => ReadLine(raw[k]))
  }

  // ---------- Grouping ----------

  datatype Group = Group(agents: seq<string>, rules: seq<Rule>, crawlDelay: Option<nat>, requestInterval: Option<nat>)

  datatype Rules = Rules(groups: seq<Group>, sitemaps: seq<string>)

  // The parsers of the directive values: delays in milliseconds, and the host and path of a rule.
  datatype Values = Values(
    crawlDelay: string -> Option<nat>,
    requestRate: string -> Option<nat>,
    target: string -> (Option<string>, string))

  datatype State = State(
    groups: seq<Group>,
    sitemaps: seq<string>,
    agents: seq<string>,
    rules: seq<Rule>,
    crawlDelay: Option<nat>,
    requestInterval: Option<nat>)

  const INITIAL := State([], [], [], [], None, None)

  function Finalize(st: State): State {
    State(if st.agents == [] then st.groups
          else st.groups + [Group(st.agents, st.rules, st.crawlDelay, st.requestInterval)],
          st.sitemaps, [], [], None, None)
  }

  function RuleOf(values: Values, line: Line): Rule
    requires line.Access?
  {
    var (host, pattern) := values.target(line.value);
    NewRule(line.kind, host, pattern)
  }

  function AddSitemap(sitemaps: seq<string>, value: string): seq<string> {
    if value in sitemaps then sitemaps else sitemaps + [value]
  }

  function Step(values: Values, st: State, line: Line): State {
    match line
    case Blank => Finalize(st)
    case Noise => st
    case UserAgent(value) =>
      var base := if st.agents != [] && (st.rules != [] || st.crawlDelay.Some?) then Finalize(st) else st;
      base.(agents := base.agents + [Lower(value)])
    case Access(_, _) => if st.agents != [] then st.(rules := st.rules + [RuleOf(values, line)]) else st
    case CrawlDelay(value) => if st.agents != [] then st.(crawlDelay := values.crawlDelay(value)) else st
    case RequestRate(value) => if st.agents != [] then st.(requestInterval := values.requestRate(value)) else st
    case Sitemap(value) => if value != "" then st.(sitemaps := AddSitemap(st.sitemaps, value)) else st
  }

  function Run(values: Values, lines: seq<Line>): State {
    if lines == [] then INITIAL
    else Step(values, Run(values, lines[..|lines| - 1]), lines[|lines| - 1])
  }

  function ParseLines(values: Values, lines: seq<Line>): Rules {
    var st := Finalize(Run(values, lines));
    Rules(st.groups, st.sitemaps)
  }

  function ParseRules(values: Values, body: string): Rules {
    ParseLines(values, ReadLines(Lines(body)))
  }

  // ---------- The accumulators of the source ----------

  class Accumulator {
    var groups: seq<Group>
    var sitemaps: seq<string>
    var agents: seq<string>
    var rules: seq<Rule>
    var crawlDelay: Option<nat>
    var requestInterval: Option<nat>

    ghost function Value(): State
      reads this
    {
      State(groups, sitemaps, agents, rules, crawlDelay, requestInterval)
    }

    constructor ()
      ensures Value() == INITIAL
    {
      groups, sitemaps, agents, rules, crawlDelay, requestInterval := [], [], [], [], None, None;
    }

    method FinalizeGroup()
      modifies this
      ensures Value() == Finalize(old(Value()))
    {
      if agents == [] {
        rules := [];
        crawlDelay := None;
        requestInterval := None;
        return;
      }
      groups := groups + [Group(agents, rules, crawlDelay, requestInterval)];
      agents, rules, crawlDelay, requestInterval := [], [], None, None;
    }

    method Accept(values: Values, line: Line)
      modifies this
      ensures Value() == Step(values, old(Value()), line)
    {
      match line {
        case Blank =>
          FinalizeGroup();
        case Noise =>
        case UserAgent(value) =>
          if agents != [] && (rules != [] || crawlDelay.Some?) {
            FinalizeGroup();
          }
          agents := agents + [Lower(value)];
        case Access(_, _) =>
          if agents != [] {
            rules := rules + [RuleOf(values, line)];
          }
        case CrawlDelay(value) =>
          if agents != [] {
            crawlDelay := values.crawlDelay(value);
          }
        case RequestRate(value) =>
          if agents != [] {
            requestInterval := values.requestRate(value);
          }
        case Sitemap(value) =>
          if value != "" && value !in sitemaps {
            sitemaps := sitemaps + [value];
          }
      }
    }
  }

  lemma RunOneMore(values: Values, lines: seq<Line>, k: nat)
    requires k < |lines|
    ensures Run(values, lines[..k + 1]) == Step(values, Run(values, lines[..k]), lines[k])
  {
    assert lines[..k + 1][..k] == lines[..k];
  }

  method Parse(values: Values, body: string) returns (rules: Rules)
    ensures rules == ParseRules(values, body)
  {
    var raw := Lines(body);
    ghost var lines := ReadLines(raw);
    var accumulator := new Accumulator();
    for k := 0 to |raw|
      invariant accumulator.Value() == Run(values, lines[..k])
    {
      RunOneMore(values, lines, k);
      accumulator.Accept(values, ReadLine(raw[k]));
    }
    assert lines[..|raw|] == lines;
    accumulator.FinalizeGroup();
    return Rules(accumulator.groups, accumulator.sitemaps);
  }

  // ---------- What the lines say, read independently of the accumulators ----------

  function AgentLines(lines: seq<Line>): seq<string> {
    if lines == [] then []
    else
      var last := lines[|lines| - 1];
      AgentLines(lines[..|lines| - 1]) + (if last.UserAgent? then [Lower(last.value)] else [])
  }

  function RuleLines(values: Values, lines: seq<Line>): seq<Rule> {
    if lines == [] then []
    else
      var last := lines[|lines| - 1];
      RuleLines(values, lines[..|lines| - 1]) + (if last.Access? then [RuleOf(values, last)] else [])
  }

  // The delays the last crawl-delay line and the last request-rate line leave behind.
  function LastCrawlDelay(values: Values, lines: seq<Line>): Option<nat> {
    if lines == [] then None
    else
      var last := lines[|lines| - 1];
      if last.CrawlDelay? then values.crawlDelay(last.value) else LastCrawlDelay(values, lines[..|lines| - 1])
  }

  function LastRequestRate(values: Values, lines: seq<Line>): Option<nat> {
    if lines == [] then None
    else
      var last := lines[|lines| - 1];
      if last.RequestRate? then values.requestRate(last.value) else LastRequestRate(values, lines[..|lines| - 1])
  }

  // A user-agent line stands before the end with no blank line behind it.
  ghost predicate Open(lines: seq<Line>) {
    exists j :: 0 <= j < |lines| && lines[j].UserAgent? && forall k :: j < k < |lines| ==> lines[k] != Blank
  }

  // The allow and disallow lines at which agents are open.
  ghost function OpenRuleLines(values: Values, lines: seq<Line>): seq<Rule> {
    if lines == [] then []
    else
      var front, last := lines[..|lines| - 1], lines[|lines| - 1];
      OpenRuleLines(values, front) + (if last.Access? && Open(front) then [RuleOf(values, last)] else [])
  }

  function GroupAgents(groups: seq<Group>): seq<string> {
    if groups == [] then [] else GroupAgents(groups[..|groups| - 1]) + groups[|groups| - 1].agents
  }

  function GroupRules(groups: seq<Group>): seq<Rule> {
    if groups == [] then [] else GroupRules(groups[..|groups| - 1]) + groups[|groups| - 1].rules
  }

  // ---------- Nothing is lost and nothing invented ----------

  ghost predicate Conserves(values: Values, lines: seq<Line>, st: State) {
    && GroupAgents(st.groups) + st.agents == AgentLines(lines)
    && GroupRules(st.groups) + st.rules == OpenRuleLines(values, lines)
    && (forall k :: 0 <= k < |st.groups| ==> st.groups[k].agents != [])
    && (st.agents != [] <==> Open(lines))
    && (st.agents == [] ==> st.rules == [] && st.crawlDelay.None? && st.requestInterval.None?)
  }

  lemma FinalizeConserves(values: Values, lines: seq<Line>, st: State)
    requires Conserves(values, lines, st)
    ensures GroupAgents(Finalize(st).groups) == AgentLines(lines)
    ensures GroupRules(Finalize(st).groups) == OpenRuleLines(values, lines)
  {
    if st.agents != [] {
      var groups := Finalize(st).groups;
      assert groups[..|groups| - 1] == st.groups;
    } else {
      assert GroupAgents(st.groups) + [] == GroupAgents(st.groups);
      assert GroupRules(st.groups) + [] == GroupRules(st.groups);
    }
  }

  lemma OpenStep(lines: seq<Line>)
    requires lines != []
    ensures var last := lines[|lines| - 1];
            Open(lines) <==> last.UserAgent? || (last != Blank && Open(lines[..|lines| - 1]))
  {
    var front, n := lines[..|lines| - 1], |lines| - 1;
    if Open(lines) && !lines[n].UserAgent? {
      var j :| 0 <= j < |lines| && lines[j].UserAgent? && forall k :: j < k < |lines| ==> lines[k] != Blank;
      assert front[j] == lines[j];
    }
    if lines[n] != Blank && Open(front) {
      var j :| 0 <= j < |front| && front[j].UserAgent? && forall k :: j < k < |front| ==> front[k] != Blank;
      forall k | j < k < |lines|
        ensures lines[k] != Blank
      {
        if k < n {
          assert front[k] == lines[k];
        }
      }
      assert lines[j].UserAgent?;
    }
    if lines[n].UserAgent? {
      assert Open(lines);
    }
  }

  lemma LinesSnoc(values: Values, front: seq<Line>, last: Line)
    ensures AgentLines(front + [last]) == AgentLines(front) + (if last.UserAgent? then [Lower(last.value)] else [])
    ensures RuleLines(values, front + [last])
            == RuleLines(values, front) + (if last.Access? then [RuleOf(values, last)] else [])
    ensures OpenRuleLines(values, front + [last])
         == OpenRuleLines(values, front) + (if last.Access? && Open(front) then [RuleOf(values, last)] else [])
    ensures Open(front + [last]) <==> last.UserAgent? || (last != Blank && Open(front))
  {
    assert (front + [last])[..|front|] == front;
    OpenStep(front + [last]);
  }

  lemma BlankConserves(values: Values, front: seq<Line>, st: State)
    requires Conserves(values, front, st)
    ensures Conserves(values, front + [Blank], Finalize(st))
  {
    LinesSnoc(values, front, Blank);
    FinalizeConserves(values, front, st);
    var groups := Finalize(st).groups;
    assert GroupAgents(groups) + [] == GroupAgents(groups) && AgentLines(front) + [] == AgentLines(front);
    assert GroupRules(groups) + [] == GroupRules(groups);
    assert OpenRuleLines(values, front) + [] == OpenRuleLines(values, front);
  }

  // A user-agent line behind an open group that it extends, or behind none.
  lemma AgentConserves(values: Values, front: seq<Line>, base: State, last: Line)
    requires last.UserAgent?
    requires GroupAgents(base.groups) + base.agents == AgentLines(front)
    requires GroupRules(base.groups) + base.rules == OpenRuleLines(values, front)
    requires forall k :: 0 <= k < |base.groups| ==> base.groups[k].agents != []
    ensures Conserves(values, front + [last], base.(agents := base.agents + [Lower(last.value)]))
  {
    LinesSnoc(values, front, last);
    Associate(GroupAgents(base.groups), base.agents, [Lower(last.value)]);
    assert OpenRuleLines(values, front) + [] == OpenRuleLines(values, front);
  }

  lemma RuleConserves(values: Values, front: seq<Line>, st: State, last: Line)
    requires last.Access? && Conserves(values, front, st)
    ensures Conserves(values, front + [last], Step(values, st, last))
  {
    LinesSnoc(values, front, last);
    assert AgentLines(front) + [] == AgentLines(front);
    if st.agents == [] {
      assert OpenRuleLines(values, front) + [] == OpenRuleLines(values, front);
    } else {
      Associate(GroupRules(st.groups), st.rules, [RuleOf(values, last)]);
    }
  }

  lemma OtherConserves(values: Values, front: seq<Line>, st: State, last: Line)
    requires last != Blank && !last.UserAgent? && !last.Access? && Conserves(values, front, st)
    ensures Conserves(values, front + [last], Step(values, st, last))
  {
    var next := Step(values, st, last);
    assert next.groups == st.groups && next.agents == st.agents && next.rules == st.rules;
    assert st.agents == [] ==> next.crawlDelay == st.crawlDelay && next.requestInterval == st.requestInterval;
    QuietLineAdds(values, front, last);
  }

  // A line that neither names an agent nor a rule nor ends a group.
  lemma QuietLineAdds(values: Values, front: seq<Line>, last: Line)
    requires last != Blank && !last.UserAgent? && !last.Access?
    ensures AgentLines(front + [last]) == AgentLines(front)
    ensures OpenRuleLines(values, front + [last]) == OpenRuleLines(values, front)
    ensures Open(front + [last]) <==> Open(front)
  {
    LinesSnoc(values, front, last);
    assert AgentLines(front) + [] == AgentLines(front);
    assert OpenRuleLines(values, front) + [] == OpenRuleLines(values, front);
  }

  lemma StepConserves(values: Values, front: seq<Line>, st: State, last: Line)
    requires Conserves(values, front, st)
    ensures Conserves(values, front + [last], Step(values, st, last))
  {
    match last {
      case Blank => BlankConserves(values, front, st);
      case UserAgent(_) =>
        if st.agents != [] && (st.rules != [] || st.crawlDelay.Some?) {
          BlankConserves(values, front, st);
          LinesSnoc(values, front, Blank);
          assert AgentLines(front) + [] == AgentLines(front);
          assert OpenRuleLines(values, front) + [] == OpenRuleLines(values, front);
          AgentConserves(values, front, Finalize(st), last);
        } else {
          AgentConserves(values, front, st, last);
        }
      case Access(_, _) => RuleConserves(values, front, st, last);
      case _ => OtherConserves(values, front, st, last);
    }
  }

  lemma {:induction false} RunConserves(values: Values, lines: seq<Line>)
    ensures Conserves(values, lines, Run(values, lines))
  {
    if lines != [] {
      var front, last := lines[..|lines| - 1], lines[|lines| - 1];
      assert lines == front + [last];
      RunConserves(values, front);
      StepConserves(values, front, Run(values, front), last);
    }
  }

  // The groups hold every user-agent line in order, exactly the allow and disallow lines at which agents
  // were open, and no group is without agents.
  lemma ParsingConservesDirectives(values: Values, lines: seq<Line>)
    ensures var groups := ParseLines(values, lines).groups;
            && GroupAgents(groups) == AgentLines(lines)
            && GroupRules(groups) == OpenRuleLines(values, lines)
            && forall k :: 0 <= k < |groups| ==> groups[k].agents != []
  {
    RunConserves(values, lines);
    FinalizeConserves(values, lines, Run(values, lines));
  }

  // ---------- The declared sitemaps ----------

  // Some line declares `a` before any declares `b`.
  ghost predicate DeclaredBefore(lines: seq<Line>, a: string, b: string) {
    exists m :: 0 <= m < |lines| && lines[m] == Sitemap(a) && Sitemap(b) !in lines[..m + 1]
  }

  ghost predicate Declares(lines: seq<Line>, sitemaps: seq<string>) {
    && (forall url :: url in sitemaps <==> url != "" && Sitemap(url) in lines)
    && (forall i, j :: 0 <= i < j < |sitemaps| ==> DeclaredBefore(lines, sitemaps[i], sitemaps[j]))
  }

  lemma DeclaredBeforeStays(lines: seq<Line>, last: Line, a: string, b: string)
    ensures DeclaredBefore(lines, a, b) ==> DeclaredBefore(lines + [last], a, b)
    ensures a != b && Sitemap(a) in lines && Sitemap(b) !in lines ==> DeclaredBefore(lines + [last], a, b)
  {
    if m :| 0 <= m < |lines| && lines[m] == Sitemap(a) && (Sitemap(b) !in lines[..m + 1] || Sitemap(b) !in lines) {
      assert (lines + [last])[..m + 1] == lines[..m + 1];
    }
  }

  lemma OneMoreLineDeclares(front: seq<Line>, last: Line, before: seq<string>)
    requires Declares(front, before)
    ensures Declares(front + [last],
                     if last.Sitemap? && last.value != "" then AddSitemap(before, last.value) else before)
  {
    var after := if last.Sitemap? && last.value != "" then AddSitemap(before, last.value) else before;
    assert forall line :: line in front + [last] <==> line in front || line == last;
    forall i, j | 0 <= i < j < |after|
      ensures DeclaredBefore(front + [last], after[i], after[j])
    {
      assert before[i] == after[i] && before[i] in before;
      DeclaredBeforeStays(front, last, after[i], after[j]);
      if j < |before| {
        assert DeclaredBefore(front, before[i], before[j]);
      }
    }
  }

  lemma {:induction false} RunDeclares(values: Values, lines: seq<Line>)
    ensures Declares(lines, Run(values, lines).sitemaps)
  {
    if lines != [] {
      var front, last := lines[..|lines| - 1], lines[|lines| - 1];
      assert lines == front + [last];
      RunDeclares(values, front);
      var st := Run(values, front);
      OneMoreLineDeclares(front, last, st.sitemaps);
      assert Step(values, st, last).sitemaps
          == if last.Sitemap? && last.value != "" then AddSitemap(st.sitemaps, last.value) else st.sitemaps;
    }
  }

  // A file declares the sitemaps its sitemap lines name, each once, in the order of first mention.
  lemma SitemapsAreDeclared(values: Values, lines: seq<Line>)
    ensures Declares(lines, ParseLines(values, lines).sitemaps)
    ensures var sitemaps := ParseLines(values, lines).sitemaps;
            forall i, j :: 0 <= i < j < |sitemaps| ==> sitemaps[i] != sitemaps[j]
  {
    RunDeclares(values, lines);
  }

  // ---------- Which lines make which group ----------

  // The lines [lo, hi) form one group: agents first, no blank line inside, closed by a blank line, by a
  // user-agent line behind a rule or a crawl delay, or by the end.
  ghost predicate IsBlock(values: Values, lines: seq<Line>, lo: nat, hi: nat)
    requires lo < hi <= |lines|
  {
    && lines[lo].UserAgent?
    && (forall m :: lo <= m < hi ==> lines[m] != Blank)
    && (forall m :: lo < m < hi && lines[m].UserAgent? ==> !Settled(values, lines[lo..m]))
  }

  ghost predicate Settled(values: Values, block: seq<Line>) {
    RuleLines(values, block) != [] || LastCrawlDelay(values, block).Some?
  }

  ghost predicate Closed(values: Values, lines: seq<Line>, lo: nat, hi: nat)
    requires lo < hi <= |lines|
  {
    hi == |lines| || lines[hi] == Blank || (lines[hi].UserAgent? && Settled(values, lines[lo..hi]))
  }

  function BlockGroup(values: Values, block: seq<Line>): Group {
    Group(AgentLines(block), RuleLines(values, block),
          LastCrawlDelay(values, block), LastRequestRate(values, block))
  }

  ghost predicate Spans(values: Values, lines: seq<Line>, groups: seq<Group>, spans: seq<(nat, nat)>) {
    && |spans| == |groups|
    && (forall k :: 0 <= k < |spans| ==>
          && spans[k].0 < spans[k].1 <= |lines|
          && IsBlock(values, lines, spans[k].0, spans[k].1)
          && Closed(values, lines, spans[k].0, spans[k].1)
          && groups[k] == BlockGroup(values, lines[spans[k].0..spans[k].1]))
    && (forall k, m :: 0 <= k < m < |spans| ==> spans[k].1 <= spans[m].0)
  }

  ghost predicate InBlock(values: Values, lines: seq<Line>, st: State, lo: nat) {
    if st.agents == [] then lo == |lines|
    else
      && lo < |lines| && IsBlock(values, lines, lo, |lines|)
      && Group(st.agents, st.rules, st.crawlDelay, st.requestInterval) == BlockGroup(values, lines[lo..])
  }

  lemma SpansGrow(values: Values, front: seq<Line>, last: Line, groups: seq<Group>, spans: seq<(nat, nat)>)
    requires Spans(values, front, groups, spans)
    requires forall k :: 0 <= k < |spans| && spans[k].1 == |front| ==>
               last == Blank || (last.UserAgent? && Settled(values, front[spans[k].0..]))
    ensures Spans(values, front + [last], groups, spans)
  {
    var lines := front + [last];
    forall k | 0 <= k < |spans|
      ensures IsBlock(values, lines, spans[k].0, spans[k].1) && Closed(values, lines, spans[k].0, spans[k].1)
      ensures lines[spans[k].0..spans[k].1] == front[spans[k].0..spans[k].1]
    {
      var (lo, hi) := spans[k];
      assert hi == |front| ==> front[lo..] == front[lo..hi];
      forall m | lo <= m <= hi
        ensures lines[lo..m] == front[lo..m]
      {
      }
    }
  }

  lemma BlockGrows(values: Values, front: seq<Line>, last: Line, lo: nat)
    requires lo < |front| && IsBlock(values, front, lo, |front|) && last != Blank
    requires last.UserAgent? ==> !Settled(values, front[lo..])
    ensures IsBlock(values, front + [last], lo, |front| + 1)
    ensures (front + [last])[lo..] == front[lo..] + [last]
  {
    var lines := front + [last];
    assert front[lo..|front|] == front[lo..];
    forall m | lo <= m <= |front|
      ensures lines[lo..m] == front[lo..m]
    {
    }
  }

  ghost predicate Follows(values: Values, lines: seq<Line>, st: State, spans: seq<(nat, nat)>, lo: nat) {
    && Spans(values, lines, st.groups, spans)
    && InBlock(values, lines, st, lo)
    && lo <= |lines|
    && (forall k :: 0 <= k < |spans| ==> spans[k].1 <= lo && spans[k].1 < |lines|)
    && (st.agents == [] ==> st.rules == [] && st.crawlDelay.None? && st.requestInterval.None?)
  }

  lemma CloseBlock(values: Values, lines: seq<Line>, st: State, spans: seq<(nat, nat)>, lo: nat)
    requires Follows(values, lines, st, spans, lo) && st.agents != []
    ensures Spans(values, lines, Finalize(st).groups, spans + [(lo, |lines|)])
  {
    assert lines[lo..|lines|] == lines[lo..];
  }

  // A line that ends the open block, if there is one.
  lemma EndingStep(values: Values, front: seq<Line>, last: Line, st: State, spans: seq<(nat, nat)>, lo: nat)
    returns (next: seq<(nat, nat)>)
    requires Follows(values, front, st, spans, lo)
    requires last == Blank || (last.UserAgent? && st.agents != [] && Settled(values, front[lo..]))
    ensures Spans(values, front + [last], Finalize(st).groups, next)
    ensures forall k :: 0 <= k < |next| ==> next[k].1 <= |front|
  {
    if st.agents != [] {
      CloseBlock(values, front, st, spans, lo);
      next := spans + [(lo, |front|)];
    } else {
      next := spans;
    }
    forall k | 0 <= k < |next| && next[k].1 == |front|
      ensures last == Blank || (last.UserAgent? && Settled(values, front[next[k].0..]))
    {
    }
    SpansGrow(values, front, last, Finalize(st).groups, next);
  }

  lemma BlockSnoc(values: Values, block: seq<Line>, last: Line)
    ensures AgentLines(block + [last]) == AgentLines(block) + (if last.UserAgent? then [Lower(last.value)] else [])
    ensures RuleLines(values, block + [last])
            == RuleLines(values, block) + (if last.Access? then [RuleOf(values, last)] else [])
    ensures LastCrawlDelay(values, block + [last])
         == if last.CrawlDelay? then values.crawlDelay(last.value) else LastCrawlDelay(values, block)
    ensures LastRequestRate(values, block + [last])
         == if last.RequestRate? then values.requestRate(last.value) else LastRequestRate(values, block)
  {
    assert (block + [last])[..|block|] == block;
  }

  // A line inside the open block.
  lemma InnerStep(values: Values, front: seq<Line>, last: Line, st: State, spans: seq<(nat, nat)>, lo: nat)
    requires Follows(values, front, st, spans, lo) && st.agents != [] && last != Blank
    requires last.UserAgent? ==> !Settled(values, front[lo..])
    ensures Follows(values, front + [last], Step(values, st, last), spans, lo)
  {
    SpansGrow(values, front, last, st.groups, spans);
    BlockGrows(values, front, last, lo);
    BlockSnoc(values, front[lo..], last);
  }

  lemma SingleLineBlock(values: Values, line: Line)
    requires line.UserAgent?
    ensures BlockGroup(values, [line]) == Group([Lower(line.value)], [], None, None)
  {
    assert [line] == [] + [line];
    BlockSnoc(values, [], line);
  }

  // A user-agent line that opens a block.
  lemma OpeningStep(values: Values, front: seq<Line>, last: Line)
    requires last.UserAgent?
    ensures IsBlock(values, front + [last], |front|, |front| + 1)
    ensures BlockGroup(values, (front + [last])[|front|..]) == Group([Lower(last.value)], [], None, None)
  {
    var lines := front + [last];
    assert lines[|front|] == last && lines[|front|..] == [last];
    SingleLineBlock(values, last);
  }

  lemma SpanStep(values: Values, front: seq<Line>, last: Line, st: State, spans: seq<(nat, nat)>, lo: nat)
    requires Follows(values, front, st, spans, lo)
    ensures exists next, start :: Follows(values, front + [last], Step(values, st, last), next, start)
  {
    var next, start := spans, lo;
    if last == Blank {
      next := EndingStep(values, front, last, st, spans, lo);
      start := |front| + 1;
    } else if last.UserAgent? && st.agents != [] && Settled(values, front[lo..]) {
      next := EndingStep(values, front, last, st, spans, lo);
      start := |front|;
      OpeningStep(values, front, last);
    } else if st.agents != [] {
      InnerStep(values, front, last, st, spans, lo);
    } else {
      SpansGrow(values, front, last, st.groups, spans);
      if last.UserAgent? {
        OpeningStep(values, front, last);
      }
      start := if last.UserAgent? then |front| else |front| + 1;
    }
    assert Follows(values, front + [last], Step(values, st, last), next, start);
  }

  lemma {:induction false} RunFollowsSpans(values: Values, lines: seq<Line>) returns (spans: seq<(nat, nat)>, lo: nat)
    ensures Follows(values, lines, Run(values, lines), spans, lo)
  {
    if lines == [] {
      spans, lo := [], 0;
    } else {
      var front, last := lines[..|lines| - 1], lines[|lines| - 1];
      assert lines == front + [last];
      spans, lo := RunFollowsSpans(values, front);
      SpanStep(values, front, last, Run(values, front), spans, lo);
      spans, lo :| Follows(values, front + [last], Run(values, lines), spans, lo);
    }
  }

  // Every group is exactly one block of consecutive lines, in order: its agents, its rules and its delays
  // are those of the block, and the block ends where the next line says so.
  lemma GroupsAreBlocks(values: Values, lines: seq<Line>) returns (spans: seq<(nat, nat)>)
    ensures Spans(values, lines, ParseLines(values, lines).groups, spans)
  {
    var st, lo := Run(values, lines), 0;
    spans, lo := RunFollowsSpans(values, lines);
    if st.agents != [] {
      CloseBlock(values, lines, st, spans, lo);
      spans := spans + [(lo, |lines|)];
    }
  }

  // ---------- Bodies joined by a blank line ----------

  // `merge_sitemaps`.
  function MergeSitemaps(current: seq<string>, extras: seq<string>): seq<string> {
    if extras == [] then current
    else AddSitemap(MergeSitemaps(current, extras[..|extras| - 1]), extras[|extras| - 1])
  }

  function Behind(groups: seq<Group>, sitemaps: seq<string>, st: State): State {
    st.(groups := groups + st.groups, sitemaps := MergeSitemaps(sitemaps, st.sitemaps))
  }

  lemma {:induction false} MergedHas(current: seq<string>, extras: seq<string>, value: string)
    ensures value in MergeSitemaps(current, extras) <==> value in current || value in extras
  {
    if extras != [] {
      MergedHas(current, extras[..|extras| - 1], value);
      assert extras == extras[..|extras| - 1] + [extras[|extras| - 1]];
    }
  }

  lemma StepBehind(values: Values, groups: seq<Group>, sitemaps: seq<string>, st: State, line: Line)
    ensures Step(values, Behind(groups, sitemaps, st), line) == Behind(groups, sitemaps, Step(values, st, line))
  {
    if line.Sitemap? && line.value != "" {
      MergedHas(sitemaps, st.sitemaps, line.value);
      if line.value !in st.sitemaps {
        assert (st.sitemaps + [line.value])[..|st.sitemaps|] == st.sitemaps;
      }
    }
  }

  lemma {:induction false} RunBehind(values: Values, first: seq<Line>, second: seq<Line>)
    requires first != [] && first[|first| - 1] == Blank
    ensures var st := Run(values, first);
            Run(values, first + second) == Behind(st.groups, st.sitemaps, Run(values, second))
    decreases |second|
  {
    var st := Run(values, first);
    if second == [] {
      assert first + second == first && st.groups + [] == st.groups;
    } else {
      var front, last := second[..|second| - 1], second[|second| - 1];
      assert (first + second)[..|first + second| - 1] == first + front;
      RunBehind(values, first, front);
      StepBehind(values, st.groups, st.sitemaps, Run(values, front), last);
    }
  }

  function JoinRules(a: Rules, b: Rules): Rules {
    Rules(a.groups + b.groups, MergeSitemaps(a.sitemaps, b.sitemaps))
  }

  lemma BlankLineJoins(values: Values, a: seq<Line>, b: seq<Line>)
    ensures ParseLines(values, a + [Blank] + b) == JoinRules(ParseLines(values, a), ParseLines(values, b))
    ensures ParseLines(values, a + [Blank]) == ParseLines(values, a)
  {
    RunBehind(values, a + [Blank], b);
    var st := Run(values, a + [Blank]);
  }

  // ---------- The same for texts ----------

  lemma {:induction false} FindIs(s: string, c: char, n: nat)
    requires n <= |s| && (forall i :: 0 <= i < n ==> s[i] != c) && (n < |s| ==> s[n] == c)
    ensures Find(s, c) == n
  {
    if n > 0 {
      FindIs(s[1..], c, n - 1);
    }
  }

  lemma FirstLine(body: string, line: string, rest: string)
    requires '\n' !in line && body == line + "\n" + rest
    ensures Lines(body) == [StripCr(line)] + Lines(rest) && Find(body, '\n') == |line|
  {
    FindIs(body, '\n', |line|);
    assert body[..|line|] == line && body[|line| + 1..] == rest;
  }

  lemma LastLineSplit(a: string, b: string)
    requires '\n' !in a
    ensures Lines(a + "\n" + b) == Lines(a + "\n") + Lines(b)
  {
    FirstLine(a + "\n" + b, a, b);
    FirstLine(a + "\n", a, "");
  }

  lemma FirstLineSplit(line: string, rest: string, b: string)
    requires '\n' !in line && Lines(rest + "\n" + b) == Lines(rest + "\n") + Lines(b)
    ensures Lines(line + "\n" + rest + "\n" + b) == Lines(line + "\n" + rest + "\n") + Lines(b)
  {
    SplitText(line, "\n", rest, b);
    FirstLine(line + "\n" + (rest + "\n" + b), line, rest + "\n" + b);
    FirstLine(line + "\n" + (rest + "\n"), line, rest + "\n");
    Associate([StripCr(line)], Lines(rest + "\n"), Lines(b));
  }

  // Text behind a newline starts a new line.
  lemma {:induction false} LinesSplit(a: string, b: string)
    ensures Lines(a + "\n" + b) == Lines(a + "\n") + Lines(b)
    decreases |a|
  {
    var n := Find(a, '\n');
    if n == |a| {
      LastLineSplit(a, b);
    } else {
      var line, rest := a[..n], a[n + 1..];
      assert a == line + "\n" + rest;
      LinesSplit(rest, b);
      FirstLineSplit(line, rest, b);
    }
  }

  lemma SplitText(line: string, newline: string, rest: string, b: string)
    ensures (line + newline + rest) + newline + b == line + newline + (rest + newline + b)
    ensures (line + newline + rest) + newline == line + newline + (rest + newline)
  {
  }

  lemma CommentHidesCr(s: string)
    requires Find(s, '#') < |s|
    ensures StripComment(s + "\r") == StripComment(s)
  {
    var n := Find(s, '#');
    assert forall i :: 0 <= i < |s| ==> (s + "\r")[i] == s[i];
    FindIs(s + "\r", '#', n);
    assert (s + "\r")[..n] == s[..n];
  }

  lemma UncommentedCr(s: string)
    requires Find(s, '#') == |s|
    ensures StripComment(s + "\r") == s + "\r" && StripComment(s) == s
  {
    assert forall i :: 0 <= i < |s| ==> (s + "\r")[i] == s[i];
    FindIs(s + "\r", '#', |s| + 1);
  }

  lemma BomCr(s: string)
    ensures StripBom(s + "\r") == StripBom(s) + "\r"
  {
    if s != "" {
      assert (s + "\r")[0] == s[0] && (s + "\r")[1..] == s[1..] + "\r";
    }
  }

  // Lines with the same trimmed text in front of a comment read the same.
  lemma SameTextSameLine(a: string, b: string)
    requires Trim(StripBom(StripComment(a))) == Trim(StripBom(StripComment(b)))
    ensures ReadLine(a) == ReadLine(b)
  {
  }

  // A carriage return at the end of a line is trimmed anyway.
  lemma ReadLineIgnoresCr(line: string)
    ensures ReadLine(StripCr(line)) == ReadLine(line)
  {
    var s := StripCr(line);
    if s != line {
      assert line == s + "\r";
      if Find(s, '#') < |s| {
        CommentHidesCr(s);
      } else {
        UncommentedCr(s);
        BomCr(s);
      }
      SameTextSameLine(s, line);
    }
  }

  lemma ReadLinesAppend(a: seq<string>, b: seq<string>)
    ensures ReadLines(a + b) == ReadLines(a) + ReadLines(b)
  {
  }

  lemma LastLine(a: string)
    requires '\n' !in a
    ensures Lines(a + "\n") == [StripCr(a)] && Lines(a) == if a == "" then [] else [a]
  {
    FindIs(a + "\n", '\n', |a|);
    FindIs(a, '\n', |a|);
    assert (a + "\n")[..|a|] == a && (a + "\n")[|a| + 1..] == "";
    assert [StripCr(a)] + Lines("") == [StripCr(a)];
  }

  lemma EmptyLineIsBlank()
    ensures ReadLine("") == Blank && ReadLines([""]) == [Blank]
  {
    assert StripComment("") == "";
  }

  // Ending a body with a newline adds at most a blank line.
  lemma {:induction false} NewlineAtEnd(a: string)
    ensures var lines := ReadLines(Lines(a + "\n"));
            lines == ReadLines(Lines(a)) || lines == ReadLines(Lines(a)) + [Blank]
    decreases |a|
  {
    var n := Find(a, '\n');
    if n == |a| {
      LastLine(a);
      ReadLineIgnoresCr(a);
      EmptyLineIsBlank();
    } else {
      var line, rest := a[..n], a[n + 1..];
      var first := [StripCr(line)];
      assert ReadLines(Lines(a)) == ReadLines(first) + ReadLines(Lines(rest)) by {
        FirstLine(a, line, rest);
        ReadLinesAppend(first, Lines(rest));
      }
      assert ReadLines(Lines(a + "\n")) == ReadLines(first) + ReadLines(Lines(rest + "\n")) by {
        FirstLine(a + "\n", line, rest + "\n");
        ReadLinesAppend(first, Lines(rest + "\n"));
      }
      NewlineAtEnd(rest);
    }
  }

  lemma BlankBetween(ended: string, second: string)
    ensures ReadLines(Lines(ended + "\n\n" + second))
            == ReadLines(Lines(ended + "\n")) + [Blank] + ReadLines(Lines(second))
  {
    var head := ended + "\n";
    assert ended + "\n\n" + second == (head + "\n") + second;
    LinesSplit(head, second);
    LinesSplit(ended, "\n");
    LastLine("");
    assert "" + "\n" == "\n";
    EmptyLineIsBlank();
    ReadLinesAppend(Lines(head), [""]);
    ReadLinesAppend(Lines(head) + [""], Lines(second));
  }

  // Parsing two bodies joined by a blank line gives the groups of the first, then those of the second,
  // and the sitemaps of both without repetition.
  lemma BlankLineJoinsBodies(values: Values, first: string, second: string)
    ensures ParseRules(values, first + "\n\n" + second)
            == JoinRules(ParseRules(values, first), ParseRules(values, second))
  {
    var a, b, middle := ReadLines(Lines(first)), ReadLines(Lines(second)), ReadLines(Lines(first + "\n"));
    BlankBetween(first, second);
    NewlineAtEnd(first);
    BlankLineJoins(values, middle, b);
    if middle != a {
      BlankLineJoins(values, a, []);
    }
  }
}
