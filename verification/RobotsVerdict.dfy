/**
 Decisions over parsed robots.txt rules and over site policies (src/robots.rs): the most specific
 groups, the most specific rule, the strictest delay, and the overlay of site policies.
 */
module RobotsVerdict {
  import opened Prelude
  import opened RuleRegex
  import opened RobotsParse

  // `str::len` counts the bytes of the UTF-8 form.
  function Utf8Len(s: string): nat {
    if s == "" then 0
    else
      var u := s[0] as int;
      (if u < 0x80 then 1 else if u < 0x800 then 2 else if u < 0x10000 then 3 else 4) + Utf8Len(s[1..])
  }

  predicate OccursAt(s: string, part: string, i: nat) {
    i + |part| <= |s| && s[i..i + |part|] == part
  }

  predicate Contains(s: string, part: string) {
    exists i :: 0 <= i <= |s| && OccursAt(s, part, i)
  }

  // ---------- Groups ----------

  function AgentSpecificity(agent: string, userAgent: string): Option<nat> {
    if agent == "*" then Some(0) else if Contains(userAgent, agent) then Some(Utf8Len(agent)) else None
  }

  // The greatest specificity among the matching agents of a group.
  function GroupSpecificity(agents: seq<string>, userAgent: string): Option<nat> {
    if agents == [] then None
    else
      var first, rest := AgentSpecificity(agents[0], userAgent), GroupSpecificity(agents[1..], userAgent);
      if first.None? then rest
      else if rest.None? || rest.value <= first.value then first
      else rest
  }

  lemma {:induction false} GroupSpecificityIsGreatest(agents: seq<string>, userAgent: string, agent: string)
    requires agent in agents && AgentSpecificity(agent, userAgent).Some?
    ensures GroupSpecificity(agents, userAgent).Some?
    ensures AgentSpecificity(agent, userAgent).value <= GroupSpecificity(agents, userAgent).value
  {
    if agent != agents[0] {
      assert agent in agents[1..];
      GroupSpecificityIsGreatest(agents[1..], userAgent, agent);
    }
  }

  lemma {:induction false} GroupSpecificityIsReached(agents: seq<string>, userAgent: string) returns (agent: string)
    requires GroupSpecificity(agents, userAgent).Some?
    ensures agent in agents && AgentSpecificity(agent, userAgent) == GroupSpecificity(agents, userAgent)
  {
    if AgentSpecificity(agents[0], userAgent) == GroupSpecificity(agents, userAgent) {
      agent := agents[0];
    } else {
      agent := GroupSpecificityIsReached(agents[1..], userAgent);
    }
  }

  ghost predicate MostSpecific(groups: seq<Group>, group: Group, userAgent: string) {
    && GroupSpecificity(group.agents, userAgent).Some?
    && forall h :: h in groups && GroupSpecificity(h.agents, userAgent).Some? ==>
         GroupSpecificity(h.agents, userAgent).value <= GroupSpecificity(group.agents, userAgent).value
  }

  // The groups of `part` that are most specific among `groups`, in order.
  ghost function Winners(groups: seq<Group>, part: seq<Group>, userAgent: string): seq<Group> {
    if part == [] then []
    else
      var front, last := part[..|part| - 1], part[|part| - 1];
      Winners(groups, front, userAgent) + (if MostSpecific(groups, last, userAgent) then [last] else [])
  }

  // Winners against the groups seen so far, when one more group is seen.
  lemma {:induction false} WinnersAgainstMore(groups: seq<Group>, next: Group, part: seq<Group>, userAgent: string)
    requires forall g :: g in part ==> g in groups
    ensures var s := GroupSpecificity(next.agents, userAgent);
            var beaten := s.Some? && forall h :: h in groups && GroupSpecificity(h.agents, userAgent).Some? ==>
                            GroupSpecificity(h.agents, userAgent).value < s.value;
            Winners(groups + [next], part, userAgent) == if beaten then [] else Winners(groups, part, userAgent)
  {
    if part != [] {
      var front, last := part[..|part| - 1], part[|part| - 1];
      WinnersAgainstMore(groups, next, front, userAgent);
      assert last in groups;
      assert forall h :: h in groups + [next] <==> h in groups || h == next;
    }
  }

  ghost predicate BestSeen(groups: seq<Group>, userAgent: string, best: Option<nat>) {
    if best.None? then forall h :: h in groups ==> GroupSpecificity(h.agents, userAgent).None?
    else
      && (exists h :: h in groups && GroupSpecificity(h.agents, userAgent) == best)
      && forall h :: h in groups && GroupSpecificity(h.agents, userAgent).Some? ==>
           GroupSpecificity(h.agents, userAgent).value <= best.value
  }

  lemma WinnersSnoc(seen: seq<Group>, group: Group, userAgent: string)
    ensures var groups := seen + [group];
            Winners(groups, groups, userAgent)
            == Winners(groups, seen, userAgent) + (if MostSpecific(groups, group, userAgent) then [group] else [])
    ensures forall h :: h in seen + [group] <==> h in seen || h == group
  {
    var groups := seen + [group];
    assert groups[..|groups| - 1] == seen && groups[|groups| - 1] == group;
  }

  // A group that does not match, or is beaten.
  lemma BeatenGroup(seen: seq<Group>, group: Group, userAgent: string, best: Option<nat>)
    requires BestSeen(seen, userAgent, best)
    requires var s := GroupSpecificity(group.agents, userAgent); s.None? || (best.Some? && s.value < best.value)
    ensures var groups := seen + [group];
            BestSeen(groups, userAgent, best) && Winners(groups, groups, userAgent) == Winners(seen, seen, userAgent)
  {
    WinnersSnoc(seen, group, userAgent);
    WinnersAgainstMore(seen, group, seen, userAgent);
    var groups := seen + [group];
    if best.Some? {
      var h :| h in seen && GroupSpecificity(h.agents, userAgent) == best;
      assert h in groups && !MostSpecific(groups, group, userAgent);
    }
    assert Winners(groups, seen, userAgent) + [] == Winners(groups, seen, userAgent);
  }

  // A group as specific as the best ones.
  lemma EqualGroup(seen: seq<Group>, group: Group, userAgent: string, best: nat)
    requires BestSeen(seen, userAgent, Some(best)) && GroupSpecificity(group.agents, userAgent) == Some(best)
    ensures var groups := seen + [group];
            && BestSeen(groups, userAgent, Some(best))
            && Winners(groups, groups, userAgent) == Winners(seen, seen, userAgent) + [group]
  {
    WinnersSnoc(seen, group, userAgent);
    WinnersAgainstMore(seen, group, seen, userAgent);
    assert group in seen + [group];
  }

  // A group that beats all seen so far.
  lemma BetterGroup(seen: seq<Group>, group: Group, userAgent: string, best: Option<nat>, s: nat)
    requires BestSeen(seen, userAgent, best) && GroupSpecificity(group.agents, userAgent) == Some(s)
    requires best.Some? ==> best.value < s
    ensures var groups := seen + [group];
            BestSeen(groups, userAgent, Some(s)) && Winners(groups, groups, userAgent) == [group]
  {
    WinnersSnoc(seen, group, userAgent);
    WinnersAgainstMore(seen, group, seen, userAgent);
    assert group in seen + [group];
    assert [] + [group] == [group];
  }

  method MatchingGroups(groups: seq<Group>, userAgent: string) returns (matching: seq<Group>)
    ensures matching == Winners(groups, groups, userAgent)
  {
    var best := None;
    matching := [];
    for k := 0 to |groups|
      invariant matching == Winners(groups[..k], groups[..k], userAgent)
      invariant BestSeen(groups[..k], userAgent, best)
    {
      var group := groups[k];
      assert groups[..k + 1] == groups[..k] + [group];
      var specificity := GroupSpecificity(group.agents, userAgent);
      if specificity.None? {
        BeatenGroup(groups[..k], group, userAgent, best);
        continue;
      }
      if best.None? || specificity.value > best.value {
        BetterGroup(groups[..k], group, userAgent, best, specificity.value);
        best := specificity;
        matching := [group];
      } else if specificity.value == best.value {
        EqualGroup(groups[..k], group, userAgent, best.value);
        matching := matching + [group];
      } else {
        BeatenGroup(groups[..k], group, userAgent, best);
      }
    }
    assert groups[..|groups|] == groups;
  }

  lemma {:induction false} WinnersAre(groups: seq<Group>, part: seq<Group>, userAgent: string, group: Group)
    ensures group in Winners(groups, part, userAgent) <==> group in part && MostSpecific(groups, group, userAgent)
  {
    if part != [] {
      var front, last := part[..|part| - 1], part[|part| - 1];
      assert part == front + [last];
      WinnersAre(groups, front, userAgent, group);
    }
  }

  // ---------- The verdict ----------

  ghost predicate Counts(groups: seq<Group>, userAgent: string, rule: Rule) {
    exists g :: g in groups && MostSpecific(groups, g, userAgent) && rule in g.rules
  }

  // Some matching Disallow of a most specific group is strictly more specific than every matching Allow
  // of those groups.
  ghost predicate Denied(groups: seq<Group>, userAgent: string, host: string, path: string) {
    exists r ::
      && Counts(groups, userAgent, r) && r.kind == Disallow && MatchLength(r, host, path).Some?
      && forall a :: Counts(groups, userAgent, a) && a.kind == Allow && MatchLength(a, host, path).Some? ==>
           MatchLength(a, host, path).value < MatchLength(r, host, path).value
  }

  function RulesOf(groups: seq<Group>): seq<Rule> {
    if groups == [] then [] else groups[0].rules + RulesOf(groups[1..])
  }

  lemma {:induction false} RulesOfHas(groups: seq<Group>, rule: Rule)
    ensures rule in RulesOf(groups) <==> exists g :: g in groups && rule in g.rules
  {
    if groups != [] {
      RulesOfHas(groups[1..], rule);
      assert groups == [groups[0]] + groups[1..];
    }
  }

  lemma CountingRules(groups: seq<Group>, userAgent: string)
    ensures forall r :: r in RulesOf(Winners(groups, groups, userAgent)) <==> Counts(groups, userAgent, r)
  {
    forall r
      ensures r in RulesOf(Winners(groups, groups, userAgent)) <==> Counts(groups, userAgent, r)
    {
      RulesOfHas(Winners(groups, groups, userAgent), r);
      forall g
        ensures g in Winners(groups, groups, userAgent) <==> g in groups && MostSpecific(groups, g, userAgent)
      {
        WinnersAre(groups, groups, userAgent, g);
      }
    }
  }

  // What the running best of the loop stands for, over the rules seen so far.
  ghost predicate IsBest(rules: seq<Rule>, host: string, path: string, best: Option<(nat, RuleKind)>) {
    if best.None? then forall r :: r in rules ==> MatchLength(r, host, path).None?
    else
      && (exists r :: r in rules && r.kind == best.value.1 && MatchLength(r, host, path) == Some(best.value.0))
      && (forall r :: r in rules && MatchLength(r, host, path).Some? ==>
          MatchLength(r, host, path).value <= best.value.0)
      && (best.value.1 == Disallow ==> forall a :: a in rules && a.kind == Allow && MatchLength(a, host, path).Some? ==>
                                         MatchLength(a, host, path).value < best.value.0)
  }

  // One more rule, and the best as the loop leaves it.
  lemma BestOfMore(rules: seq<Rule>, rule: Rule, host: string, path: string, best: Option<(nat, RuleKind)>)
    requires IsBest(rules, host, path, best)
    ensures var length := MatchLength(rule, host, path);
            if length.None? then IsBest(rules + [rule], host, path, best)
            else if best.None? || length.value > best.value.0
                    || (length.value == best.value.0 && rule.kind == Allow && best.value.1 == Disallow)
            then IsBest(rules + [rule], host, path, Some((length.value, rule.kind)))
            else IsBest(rules + [rule], host, path, best)
  {
    assert forall r :: r in rules + [rule] <==> r in rules || r == rule;
  }

  method IsAllowed(rules: Rules, userAgent: string, host: string, path: string) returns (allowed: bool)
    ensures !allowed <==> Denied(rules.groups, Lower(userAgent), host, path)
  {
    var agent := Lower(userAgent);
    var groups := MatchingGroups(rules.groups, agent);
    var matching := RulesOf(groups);
    var best: Option<(nat, RuleKind)> := None;
    for k := 0 to |matching|
      invariant IsBest(matching[..k], host, path, best)
    {
      var rule := matching[k];
      assert matching[..k + 1] == matching[..k] + [rule];
      BestOfMore(matching[..k], rule, host, path, best);
      var length := MatchLength(rule, host, path);
      if length.None? {
        continue;
      }
      if best.None?
         || length.value > best.value.0
         || (length.value == best.value.0 && rule.kind == Allow && best.value.1 == Disallow)
      {
        best := Some((length.value, rule.kind));
      }
    }
    assert matching[..|matching|] == matching;
    CountingRules(rules.groups, agent);
    return !(best.Some? && best.value.1 == Disallow);
  }

  // ---------- The order of groups and rules does not matter ----------

  ghost predicate Alike(g: Group, h: Group) {
    && (forall a :: a in g.agents <==> a in h.agents)
    && (forall r :: r in g.rules <==> r in h.rules)
  }

  ghost predicate HasPartner(g: Group, groups: seq<Group>) {
    exists h :: h in groups && Alike(g, h)
  }

  ghost predicate Covered(left: seq<Group>, right: seq<Group>) {
    forall g {:trigger HasPartner(g, right)} :: g in left ==> HasPartner(g, right)
  }

  lemma AlikeSpecificity(g: Group, h: Group, userAgent: string)
    requires Alike(g, h)
    ensures GroupSpecificity(g.agents, userAgent) == GroupSpecificity(h.agents, userAgent)
  {
    SpecificityAtMost(g, h, userAgent);
    SpecificityAtMost(h, g, userAgent);
  }

  lemma SpecificityAtMost(g: Group, h: Group, userAgent: string)
    requires forall a :: a in g.agents ==> a in h.agents
    ensures var s, t := GroupSpecificity(g.agents, userAgent), GroupSpecificity(h.agents, userAgent);
            s.Some? ==> t.Some? && s.value <= t.value
  {
    if GroupSpecificity(g.agents, userAgent).Some? {
      var agent := GroupSpecificityIsReached(g.agents, userAgent);
      GroupSpecificityIsGreatest(h.agents, userAgent, agent);
    }
  }

  lemma MostSpecificTransfers(left: seq<Group>, right: seq<Group>, userAgent: string, g: Group, h: Group)
    requires Covered(right, left) && MostSpecific(left, g, userAgent) && Alike(g, h)
    ensures MostSpecific(right, h, userAgent)
  {
    AlikeSpecificity(g, h, userAgent);
    forall other | other in right && GroupSpecificity(other.agents, userAgent).Some?
      ensures GroupSpecificity(other.agents, userAgent).value <= GroupSpecificity(h.agents, userAgent).value
    {
      assert HasPartner(other, left);
      var back :| back in left && Alike(other, back);
      AlikeSpecificity(other, back, userAgent);
    }
  }

  lemma CountsTransfers(left: seq<Group>, right: seq<Group>, userAgent: string, rule: Rule)
    requires Covered(left, right) && Covered(right, left) && Counts(left, userAgent, rule)
    ensures Counts(right, userAgent, rule)
  {
    var g :| g in left && MostSpecific(left, g, userAgent) && rule in g.rules;
    assert HasPartner(g, right);
    var h :| h in right && Alike(g, h);
    MostSpecificTransfers(left, right, userAgent, g, h);
  }

  // Two files with the same groups and rules, in any order and repetition, give the same verdicts.
  lemma OrderIsIrrelevant(left: seq<Group>, right: seq<Group>, userAgent: string, host: string, path: string)
    requires Covered(left, right) && Covered(right, left)
    ensures Denied(left, userAgent, host, path) <==> Denied(right, userAgent, host, path)
  {
    forall r
      ensures Counts(left, userAgent, r) <==> Counts(right, userAgent, r)
    {
      if Counts(left, userAgent, r) {
        CountsTransfers(left, right, userAgent, r);
      }
      if Counts(right, userAgent, r) {
        CountsTransfers(right, left, userAgent, r);
      }
    }
  }

  // ---------- From the text of the file to the verdict ----------

  ghost predicate FromPattern(rule: Rule) {
    rule == NewRule(rule.kind, rule.host, rule.pattern)
  }

  ghost predicate RuleApplies(rule: Rule, host: string, path: string) {
    Applies(rule.host, rule.pattern, host, path)
  }

  // A rule of the most specific groups that applies to the URL.
  ghost predicate AppliesAs(groups: seq<Group>, userAgent: string, host: string, path: string, kind: RuleKind,
      rule: Rule) {
    Counts(groups, userAgent, rule) && rule.kind == kind && RuleApplies(rule, host, path)
  }

  ghost predicate Prevails(groups: seq<Group>, userAgent: string, host: string, path: string, rule: Rule) {
    && AppliesAs(groups, userAgent, host, path, Disallow, rule)
    && forall a :: AppliesAs(groups, userAgent, host, path, Allow, a) ==>
        Specificity(a.pattern) < Specificity(rule.pattern)
  }

  // The verdict read off the patterns: the applicable rule of greatest specificity, Allow on a tie.
  ghost predicate PatternsDeny(groups: seq<Group>, userAgent: string, host: string, path: string) {
    exists r :: Prevails(groups, userAgent, host, path, r)
  }

  lemma {:induction false} RuleLinesFromPatterns(values: Values, lines: seq<Line>)
    ensures forall r :: r in OpenRuleLines(values, lines) ==> FromPattern(r)
  {
    if lines != [] {
      RuleLinesFromPatterns(values, lines[..|lines| - 1]);
    }
  }

  lemma {:induction false} GroupRulesHas(groups: seq<Group>, g: Group, rule: Rule)
    requires g in groups && rule in g.rules
    ensures rule in GroupRules(groups)
  {
    var front, last := groups[..|groups| - 1], groups[|groups| - 1];
    assert groups == front + [last];
    if g in front {
      GroupRulesHas(front, g, rule);
    }
  }

  lemma ParsedRulesFromPatterns(values: Values, body: string, userAgent: string, rule: Rule)
    requires Counts(ParseRules(values, body).groups, userAgent, rule)
    ensures FromPattern(rule)
  {
    var lines := ReadLines(Lines(body));
    var groups := ParseRules(values, body).groups;
    ParsingConservesDirectives(values, lines);
    var g :| g in groups && MostSpecific(groups, g, userAgent) && rule in g.rules;
    GroupRulesHas(groups, g, rule);
    RuleLinesFromPatterns(values, lines);
  }

  // What a rule of a parsed file says about a URL is what its pattern says.
  lemma ParsedRuleReadsItsPattern(values: Values, body: string, userAgent: string, host: string, path: string,
      rule: Rule)
    requires OneLine(path) && Counts(ParseRules(values, body).groups, userAgent, rule)
    ensures MatchLength(rule, host, path)
         == if RuleApplies(rule, host, path) then Some(Specificity(rule.pattern)) else None
  {
    ParsedRulesFromPatterns(values, body, userAgent, rule);
    MatchLengthReadsThePattern(rule.kind, rule.host, rule.pattern, host, path);
  }

  // Parsing a body, compiling its patterns and running the decision loop gives the verdict read directly off
  // the patterns, with no regular expression in it.
  lemma VerdictReadsThePatterns(values: Values, body: string, userAgent: string, host: string, path: string)
    requires OneLine(path)
    ensures var groups := ParseRules(values, body).groups;
            Denied(groups, userAgent, host, path) <==> PatternsDeny(groups, userAgent, host, path)
  {
    var groups := ParseRules(values, body).groups;
    forall r | Counts(groups, userAgent, r)
      ensures MatchLength(r, host, path) == if RuleApplies(r, host, path) then Some(Specificity(r.pattern)) else None
    {
      ParsedRuleReadsItsPattern(values, body, userAgent, host, path, r);
    }
    if Denied(groups, userAgent, host, path) {
      var r :| Counts(groups, userAgent, r) && r.kind == Disallow && MatchLength(r, host, path).Some?
               && forall a :: Counts(groups, userAgent, a) && a.kind == Allow && MatchLength(a, host, path).Some? ==>
                    MatchLength(a, host, path).value < MatchLength(r, host, path).value;
      assert Prevails(groups, userAgent, host, path, r);
    }
    if r :| Prevails(groups, userAgent, host, path, r) {
      forall a | Counts(groups, userAgent, a) && a.kind == Allow && MatchLength(a, host, path).Some?
        ensures MatchLength(a, host, path).value < MatchLength(r, host, path).value
      {
        assert AppliesAs(groups, userAgent, host, path, Allow, a);
      }
    }
  }

  // ---------- Delays ----------

  // `max_millis`; the larger of the delays that are set.
  function MaxMillis(left: Option<nat>, right: Option<nat>): Option<nat> {
    if left.Some? && right.Some? then Some(Max(left.value, right.value))
    else if left.Some? then left
    else right
  }

  function GroupDelay(group: Group): Option<nat> {
    MaxMillis(group.crawlDelay, group.requestInterval)
  }

  function LargestDelay(groups: seq<Group>): Option<nat> {
    if groups == [] then None else MaxMillis(GroupDelay(groups[0]), LargestDelay(groups[1..]))
  }

  ghost function RequiredDelay(rules: Rules, userAgent: string): Option<nat> {
    var agent := Lower(userAgent);
    LargestDelay(Winners(rules.groups, rules.groups, agent))
  }

  lemma {:induction false} LargestDelayIs(groups: seq<Group>)
    ensures var d := LargestDelay(groups);
            && (d.Some? ==> exists g :: g in groups && GroupDelay(g) == d)
            && forall g :: g in groups && GroupDelay(g).Some? ==> d.Some? && GroupDelay(g).value <= d.value
  {
    if groups != [] {
      LargestDelayIs(groups[1..]);
      assert groups == [groups[0]] + groups[1..];
    }
  }

  // A crawl delay or a request rate of the group asks for the delay.
  predicate Asks(group: Group, delay: nat) {
    group.crawlDelay == Some(delay) || group.requestInterval == Some(delay)
  }

  // The delay required of a user agent is the strictest one that its most specific groups ask for.
  lemma RequiredDelayIsStrictest(rules: Rules, userAgent: string)
    ensures var agent, d := Lower(userAgent), RequiredDelay(rules, userAgent);
            && (d.Some? ==>
                  exists g :: g in rules.groups && MostSpecific(rules.groups, g, agent) && Asks(g, d.value))
            && forall g, x: nat :: g in rules.groups && MostSpecific(rules.groups, g, agent) && Asks(g, x) ==>
                 d.Some? && x <= d.value
  {
    var agent := Lower(userAgent);
    LargestDelayIs(Winners(rules.groups, rules.groups, agent));
    forall g
      ensures g in Winners(rules.groups, rules.groups, agent)
              <==> g in rules.groups && MostSpecific(rules.groups, g, agent)
    {
      WinnersAre(rules.groups, rules.groups, agent, g);
    }
  }

  // ---------- Site policies ----------

  datatype Access = AllowAll | DisallowAll

  datatype SitePolicy = SitePolicy(
    access: Option<Access>,
    delay: Option<nat>,
    sitemaps: seq<string>,
    unavailable: Option<Access>)

  datatype Matcher = Origin(origin: string) | Host(host: string) | Pattern(regex: string, literals: nat)

  datatype SiteRule = SiteRule(matcher: Matcher, policy: SitePolicy)

  // The parts of a parsed URL the decisions look at.
  datatype Url = Url(origin: string, host: string, path: string)

  predicate Matches(matcher: Matcher, url: Url) {
    match matcher
    case Origin(origin) => url.origin == origin
    case Host(host) => Lower(url.host) == Lower(host)
    case Pattern(regex, _) => IsMatch(regex, Lower(url.host))
  }

  function Priority(matcher: Matcher, index: nat): (nat, nat, nat) {
    match matcher
    case Origin(origin) => (3, Utf8Len(origin), index)
    case Host(host) => (2, Utf8Len(host), index)
    case Pattern(_, literals) => (1, literals, index)
  }

  predicate Higher(a: (nat, nat, nat), b: (nat, nat, nat)) {
    a.0 > b.0 || (a.0 == b.0 && (a.1 > b.1 || (a.1 == b.1 && a.2 > b.2)))
  }

  // Rule `k` matches and sets what `get` reads.
  predicate Sets(rules: seq<SiteRule>, url: Url, get: SitePolicy -> Option<Access>, k: nat)
    requires k < |rules|
  {
    Matches(rules[k].matcher, url) && get(rules[k].policy).Some?
  }

  // `value` is what the matching setter of greatest (kind, length, index) sets, among the first `n` rules.
  ghost predicate Picks(rules: seq<SiteRule>, url: Url, get: SitePolicy -> Option<Access>, n: nat, picked: Option<nat>)
    requires n <= |rules|
  {
    if picked.None? then forall k :: 0 <= k < n ==> !Sets(rules, url, get, k)
    else
      && picked.value < n && Sets(rules, url, get, picked.value)
      && forall k :: 0 <= k < n && k != picked.value && Sets(rules, url, get, k) ==>
           Higher(Priority(rules[picked.value].matcher, picked.value), Priority(rules[k].matcher, k))
  }

  function PickedValue(rules: seq<SiteRule>, get: SitePolicy -> Option<Access>, picked: Option<nat>): Option<Access>
    requires picked.Some? ==> picked.value < |rules|
  {
    if picked.None? then None else get(rules[picked.value].policy)
  }

  ghost predicate IsPickOf(rules: seq<SiteRule>, url: Url, get: SitePolicy -> Option<Access>, value: Option<Access>) {
    exists picked: Option<nat> :: Picks(rules, url, get, |rules|, picked) && value == PickedValue(rules, get, picked)
  }

  ghost predicate IsLargest(rules: seq<SiteRule>, url: Url, n: nat, delay: Option<nat>)
    requires n <= |rules|
  {
    && (delay.Some? ==> exists k :: 0 <= k < n && Matches(rules[k].matcher, url) && rules[k].policy.delay == delay)
    && forall k :: 0 <= k < n && Matches(rules[k].matcher, url) && rules[k].policy.delay.Some? ==>
         delay.Some? && rules[k].policy.delay.value <= delay.value
  }

  function MergedSitemaps(rules: seq<SiteRule>, url: Url, n: nat): seq<string>
    requires n <= |rules|
  {
    if n == 0 then []
    else
      var before := MergedSitemaps(rules, url, n - 1);
      if Matches(rules[n - 1].matcher, url) then MergeSitemaps(before, rules[n - 1].policy.sitemaps) else before
  }

  const GET_ACCESS: SitePolicy -> Option<Access> := (policy: SitePolicy) => policy.access
  const GET_UNAVAILABLE: SitePolicy -> Option<Access> := (policy: SitePolicy) => policy.unavailable

  // The rule picked once rule `n` has been looked at.
  function NextPick(rules: seq<SiteRule>, url: Url, get: SitePolicy -> Option<Access>, n: nat, picked: Option<nat>)
    : Option<nat>
    requires n < |rules| && (picked.Some? ==> picked.value < n)
  {
    if Sets(rules, url, get, n)
       && (picked.None? || Higher(Priority(rules[n].matcher, n), Priority(rules[picked.value].matcher, picked.value)))
    then Some(n)
    else picked
  }

  lemma PickStep(rules: seq<SiteRule>, url: Url, get: SitePolicy -> Option<Access>, n: nat, picked: Option<nat>)
    requires n < |rules| && Picks(rules, url, get, n, picked)
    ensures Picks(rules, url, get, n + 1, NextPick(rules, url, get, n, picked))
  {
  }

  // A pick as the loop holds it: its priority and its value.
  function Held(rules: seq<SiteRule>, get: SitePolicy -> Option<Access>, picked: Option<nat>)
    : Option<((nat, nat, nat), Access)>
    requires picked.Some? ==> picked.value < |rules| && get(rules[picked.value].policy).Some?
  {
    if picked.None? then None
    else Some((Priority(rules[picked.value].matcher, picked.value), get(rules[picked.value].policy).value))
  }

  lemma LargestStep(rules: seq<SiteRule>, url: Url, n: nat, delay: Option<nat>)
    requires n < |rules| && IsLargest(rules, url, n, delay)
    ensures var more := if Matches(rules[n].matcher, url) then MaxMillis(delay, rules[n].policy.delay) else delay;
            IsLargest(rules, url, n + 1, more)
  {
  }

  method ResolveSitePolicy(rules: seq<SiteRule>, url: Url) returns (resolved: SitePolicy)
    ensures IsPickOf(rules, url, GET_ACCESS, resolved.access)
    ensures IsPickOf(rules, url, GET_UNAVAILABLE, resolved.unavailable)
    ensures IsLargest(rules, url, |rules|, resolved.delay)
    ensures resolved.sitemaps == MergedSitemaps(rules, url, |rules|)
  {
    var access: Option<((nat, nat, nat), Access)> := None;
    var unavailable: Option<((nat, nat, nat), Access)> := None;
    var delay: Option<nat> := None;
    var sitemaps: seq<string> := [];
    ghost var accessPick: Option<nat> := None;
    ghost var unavailablePick: Option<nat> := None;
    for index := 0 to |rules|
      invariant Picks(rules, url, GET_ACCESS, index, accessPick) && access == Held(rules, GET_ACCESS, accessPick)
      invariant Picks(rules, url, GET_UNAVAILABLE, index, unavailablePick)
      invariant unavailable == Held(rules, GET_UNAVAILABLE, unavailablePick)
      invariant IsLargest(rules, url, index, delay)
      invariant sitemaps == MergedSitemaps(rules, url, index)
    {
      PickStep(rules, url, GET_ACCESS, index, accessPick);
      PickStep(rules, url, GET_UNAVAILABLE, index, unavailablePick);
      LargestStep(rules, url, index, delay);
      accessPick := NextPick(rules, url, GET_ACCESS, index, accessPick);
      unavailablePick := NextPick(rules, url, GET_UNAVAILABLE, index, unavailablePick);
      var rule := rules[index];
      if !Matches(rule.matcher, url) {
        continue;
      }
      var priority := Priority(rule.matcher, index);
      if rule.policy.access.Some? && (access.None? || Higher(priority, access.value.0)) {
        access := Some((priority, rule.policy.access.value));
      }
      delay := MaxMillis(delay, rule.policy.delay);
      sitemaps := MergeSitemaps(sitemaps, rule.policy.sitemaps);
      if rule.policy.unavailable.Some? && (unavailable.None? || Higher(priority, unavailable.value.0)) {
        unavailable := Some((priority, rule.policy.unavailable.value));
      }
    }
    resolved := SitePolicy(if access.None? then None else Some(access.value.1), delay, sitemaps,
                           if unavailable.None? then None else Some(unavailable.value.1));
    assert resolved.access == PickedValue(rules, GET_ACCESS, accessPick);
    assert resolved.unavailable == PickedValue(rules, GET_UNAVAILABLE, unavailablePick);
  }

  // The pick is unique, so the overlay is a function of the rules and the URL.
  lemma PickIsUnique(rules: seq<SiteRule>, url: Url, get: SitePolicy -> Option<Access>, a: Option<Access>,
      b: Option<Access>)
    requires IsPickOf(rules, url, get, a) && IsPickOf(rules, url, get, b)
    ensures a == b
  {
    var p: Option<nat> :| Picks(rules, url, get, |rules|, p) && a == PickedValue(rules, get, p);
    var q: Option<nat> :| Picks(rules, url, get, |rules|, q) && b == PickedValue(rules, get, q);
    assert p == q;
  }

  // ---------- Which rule decides ----------

  lemma {:induction false} LowerKeepsOctets(s: string)
    ensures Utf8Len(Lower(s)) == Utf8Len(s)
  {
    if s != "" {
      assert Lower(s)[1..] == Lower(s[1..]);
      LowerKeepsOctets(s[1..]);
    }
  }

  // The rule is for the URL's very origin, for its host in any case, or for a pattern its host fits.
  predicate Fits(matcher: Matcher, url: Url) {
    match matcher
    case Origin(origin) => origin == url.origin
    case Host(host) => Lower(host) == Lower(url.host)
    case Pattern(regex, _) => IsMatch(regex, Lower(url.host))
  }

  // An origin beats a host and a host a pattern; of two patterns the one with more literals wins; otherwise the
  // later rule does.
  predicate Outranks(a: Matcher, i: nat, b: Matcher, j: nat) {
    match (a, b)
    case (Origin(_), Origin(_)) => i > j
    case (Origin(_), _) => true
    case (Host(_), Host(_)) => i > j
    case (Host(_), Pattern(_, _)) => true
    case (Pattern(_, m), Pattern(_, n)) => m > n || (m == n && i > j)
    case _ => false
  }

  predicate SetsFor(rules: seq<SiteRule>, url: Url, get: SitePolicy -> Option<Access>, k: nat) {
    k < |rules| && Fits(rules[k].matcher, url) && get(rules[k].policy).Some?
  }

  ghost predicate Decides(rules: seq<SiteRule>, url: Url, get: SitePolicy -> Option<Access>, k: nat) {
    && SetsFor(rules, url, get, k)
    && forall j :: 0 <= j < |rules| && j != k && SetsFor(rules, url, get, j) ==>
         Outranks(rules[k].matcher, k, rules[j].matcher, j)
  }

  // Two rules for the URL: the priorities order them by what they are for.
  lemma PriorityIsRank(a: Matcher, i: nat, b: Matcher, j: nat, url: Url)
    requires Fits(a, url) && Fits(b, url)
    ensures Higher(Priority(a, i), Priority(b, j)) <==> Outranks(a, i, b, j)
  {
    if a.Host? && b.Host? {
      LowerKeepsOctets(a.host);
      LowerKeepsOctets(b.host);
    }
  }

  // The value is that of the one rule that outranks all others that set it; there is none exactly when no rule does.
  lemma PickIsOfTheHighestRank(rules: seq<SiteRule>, url: Url, get: SitePolicy -> Option<Access>,
      value: Option<Access>)
    ensures IsPickOf(rules, url, get, value)
       <==> || (value.None? && forall k :: 0 <= k < |rules| ==> !SetsFor(rules, url, get, k))
            || (exists k: nat :: Decides(rules, url, get, k) && value == get(rules[k].policy))
  {
    forall k | 0 <= k < |rules|
      ensures Picks(rules, url, get, |rules|, Some(k)) <==> Decides(rules, url, get, k)
    {
      PickIsDecision(rules, url, get, k);
    }
    NothingPicked(rules, url, get);
    if IsPickOf(rules, url, get, value) {
      var picked: Option<nat> :| Picks(rules, url, get, |rules|, picked) && value == PickedValue(rules, get, picked);
      assert picked.Some? ==> Decides(rules, url, get, picked.value) && value == get(rules[picked.value].policy);
    } else if value.None? {
      assert value == PickedValue(rules, get, None);
    }
    if k: nat :| Decides(rules, url, get, k) && value == get(rules[k].policy) {
      assert value == PickedValue(rules, get, Some(k));
    }
  }

  lemma NothingPicked(rules: seq<SiteRule>, url: Url, get: SitePolicy -> Option<Access>)
    ensures Picks(rules, url, get, |rules|, None) <==> forall k :: 0 <= k < |rules| ==> !SetsFor(rules, url, get, k)
  {
    assert forall k :: 0 <= k < |rules| ==> (Sets(rules, url, get, k) <==> SetsFor(rules, url, get, k));
  }

  lemma PickIsDecision(rules: seq<SiteRule>, url: Url, get: SitePolicy -> Option<Access>, k: nat)
    requires k < |rules|
    ensures Picks(rules, url, get, |rules|, Some(k)) <==> Decides(rules, url, get, k)
  {
    assert forall j :: 0 <= j < |rules| ==> (Sets(rules, url, get, j) <==> SetsFor(rules, url, get, j));
    forall j | 0 <= j < |rules| && SetsFor(rules, url, get, j) && SetsFor(rules, url, get, k)
      ensures Higher(Priority(rules[k].matcher, k), Priority(rules[j].matcher, j))
         <==> Outranks(rules[k].matcher, k, rules[j].matcher, j)
    {
      PriorityIsRank(rules[k].matcher, k, rules[j].matcher, j, url);
    }
  }

  ghost predicate Distinct(s: seq<string>) {
    forall i, j :: 0 <= i < j < |s| ==> s[i] != s[j]
  }

  lemma {:induction false} MergeKeepsDistinct(current: seq<string>, extras: seq<string>)
    requires Distinct(current)
    ensures Distinct(MergeSitemaps(current, extras)) && current <= MergeSitemaps(current, extras)
  {
    if extras != [] {
      MergeKeepsDistinct(current, extras[..|extras| - 1]);
    }
  }

  // Site sitemaps are the union over the matching rules, without repetition.
  lemma {:induction false} SitemapsAreUnion(rules: seq<SiteRule>, url: Url, n: nat)
    requires n <= |rules|
    ensures Distinct(MergedSitemaps(rules, url, n))
    ensures forall s :: s in MergedSitemaps(rules, url, n)
                   <==> exists k :: 0 <= k < n && Matches(rules[k].matcher, url) && s in rules[k].policy.sitemaps
  {
    if n > 0 {
      SitemapsAreUnion(rules, url, n - 1);
      var before, extras := MergedSitemaps(rules, url, n - 1), rules[n - 1].policy.sitemaps;
      MergeKeepsDistinct(before, extras);
      forall s
        ensures s in MergeSitemaps(before, extras) <==> s in before || s in extras
      {
        MergedHas(before, extras, s);
      }
    }
  }
}
