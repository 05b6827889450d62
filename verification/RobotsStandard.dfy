/**
 The verdict of RFC 9309, sections 2.2 to 2.2.2, against that of src/robots.rs: the standard picks the
 groups that name the crawler's product token, or else those for `*`, and among their rules the match with
 the most octets.  The program picks groups by the longest agent contained in the user agent, and leaves `*`
 and trailing `$` out of a rule's length.
 */
module RobotsStandard {
  import opened Prelude
  import opened RuleRegex
  import opened RobotsParse
  import opened RobotsVerdict

  // ---------- Lengths ----------

  predicate IsAscii(s: string) {
    forall i :: 0 <= i < |s| ==> s[i] as int < 0x80
  }

  predicate Plain(pattern: string) {
    IsAscii(pattern) && '*' !in pattern && TrailingDollars(pattern) == 0
  }

  lemma {:induction false} OctetsOf(s: string)
    ensures Utf8Len(s) >= |s|
    ensures Utf8Len(s) == |s| <==> IsAscii(s)
  {
    if s != "" {
      OctetsOf(s[1..]);
      assert IsAscii(s) <==> s[0] as int < 0x80 && IsAscii(s[1..]) by {
        assert forall i :: 0 < i < |s| ==> s[i] == s[1..][i - 1];
      }
    }
  }

  lemma {:induction false} NonStarsAtMost(s: string)
    ensures NonStars(s) <= |s|
    ensures NonStars(s) == |s| <==> '*' !in s
  {
    if s != "" {
      NonStarsAtMost(s[1..]);
    }
  }

  // A rule's specificity is at most its pattern's number of octets, and is that number exactly for plain
  // patterns.
  lemma SpecificityIsOctetsExactlyWhenPlain(pattern: string)
    ensures Specificity(pattern) <= Utf8Len(pattern)
    ensures Specificity(pattern) == Utf8Len(pattern) <==> Plain(pattern)
  {
    OctetsOf(pattern);
    NonStarsAtMost(pattern);
    NonStarsOfTrimmed(pattern);
  }

  // ---------- Groups ----------

  // A crawler's product token, in lower case.
  predicate ProductToken(s: string) {
    s != "" && forall i :: 0 <= i < |s| ==> 'a' <= s[i] <= 'z' || s[i] == '_' || s[i] == '-'
  }

  ghost predicate Named(groups: seq<Group>, token: string) {
    exists g :: g in groups && token in g.agents
  }

  ghost predicate Chosen(groups: seq<Group>, group: Group, token: string) {
    if Named(groups, token) then token in group.agents else "*" in group.agents
  }

  ghost predicate SameChoice(groups: seq<Group>, token: string) {
    forall g :: g in groups ==> (MostSpecific(groups, g, token) <==> Chosen(groups, g, token))
  }

  // The token itself beats every other agent it contains.
  lemma TokenIsLongest(token: string, agent: string)
    requires ProductToken(token) && AgentSpecificity(agent, token).Some?
    ensures AgentSpecificity(token, token) == Some(|token|)
    ensures AgentSpecificity(agent, token).value <= |token|
    ensures AgentSpecificity(agent, token).value == |token| <==> agent == token
  {
    assert OccursAt(token, token, 0) && token[0] != '*';
    OctetsOf(token);
    if agent != "*" {
      var i :| 0 <= i <= |token| && OccursAt(token, agent, i);
      assert forall k :: 0 <= k < |agent| ==> agent[k] == token[i + k];
      OctetsOf(agent);
      if |agent| == |token| {
        assert token[i..i + |agent|] == token;
      }
    }
  }

  lemma NamingGroupIsLongest(token: string, group: Group)
    requires ProductToken(token) && GroupSpecificity(group.agents, token).Some?
    ensures GroupSpecificity(group.agents, token).value <= |token|
    ensures GroupSpecificity(group.agents, token).value == |token| <==> token in group.agents
  {
    var agent := GroupSpecificityIsReached(group.agents, token);
    TokenIsLongest(token, agent);
    if token in group.agents {
      GroupSpecificityIsGreatest(group.agents, token, token);
    }
  }

  lemma NamingGroupMatches(token: string, group: Group)
    requires ProductToken(token) && token in group.agents
    ensures GroupSpecificity(group.agents, token) == Some(|token|)
  {
    assert OccursAt(token, token, 0);
    GroupSpecificityIsGreatest(group.agents, token, token);
    NamingGroupIsLongest(token, group);
  }

  lemma NamedGroupsAreMostSpecific(groups: seq<Group>, token: string, group: Group)
    requires ProductToken(token) && Named(groups, token) && group in groups
    ensures MostSpecific(groups, group, token) <==> token in group.agents
  {
    var named :| named in groups && token in named.agents;
    NamingGroupMatches(token, named);
    forall h | h in groups && GroupSpecificity(h.agents, token).Some?
      ensures GroupSpecificity(h.agents, token).value <= |token|
      ensures GroupSpecificity(h.agents, token).value == |token| <==> token in h.agents
    {
      NamingGroupIsLongest(token, h);
    }
    if token in group.agents {
      NamingGroupMatches(token, group);
    }
  }

  // The choice of groups is the standard's if and only if some group names the token, or the most specific
  // groups are exactly those for `*`.
  lemma ChoiceIsTheStandardsExactlyWhen(groups: seq<Group>, token: string)
    requires ProductToken(token)
    ensures SameChoice(groups, token)
       <==> Named(groups, token) || forall g :: g in groups ==> (MostSpecific(groups, g, token) <==> "*" in g.agents)
  {
    if Named(groups, token) {
      forall g | g in groups
        ensures MostSpecific(groups, g, token) <==> Chosen(groups, g, token)
      {
        NamedGroupsAreMostSpecific(groups, token, g);
      }
    }
  }

  // In particular when no agent but `*` is contained in the token.
  lemma OnlyStarsIsTheStandards(groups: seq<Group>, token: string)
    requires ProductToken(token)
    requires forall g, a :: g in groups && a in g.agents && a != "*" ==> !Contains(token, a)
    ensures SameChoice(groups, token)
  {
    ChoiceIsTheStandardsExactlyWhen(groups, token);
    forall g | g in groups
      ensures GroupSpecificity(g.agents, token) == if "*" in g.agents then Some(0) else None
    {
      if GroupSpecificity(g.agents, token).Some? {
        var agent := GroupSpecificityIsReached(g.agents, token);
        assert agent == "*";
      }
      if "*" in g.agents {
        GroupSpecificityIsGreatest(g.agents, token, "*");
      }
    }
  }

  lemma {:induction false} SomeGroupIsMostSpecific(groups: seq<Group>, group: Group, userAgent: string)
    requires group in groups && GroupSpecificity(group.agents, userAgent).Some?
    ensures exists best :: best in groups && MostSpecific(groups, best, userAgent)
  {
    var front, last := groups[..|groups| - 1], groups[|groups| - 1];
    assert forall g :: g in groups <==> g in front || g == last;
    var best := last;
    if h :| h in front && GroupSpecificity(h.agents, userAgent).Some? {
      SomeGroupIsMostSpecific(front, h, userAgent);
      best :| best in front && MostSpecific(front, best, userAgent);
      var s := GroupSpecificity(last.agents, userAgent);
      if s.Some? && s.value > GroupSpecificity(best.agents, userAgent).value {
        best := last;
      }
    }
    assert MostSpecific(groups, best, userAgent);
  }

  ghost predicate StarsAlone(groups: seq<Group>) {
    forall g, a :: g in groups && "*" in g.agents && a in g.agents ==> a == "*"
  }

  ghost predicate NoPartialAgent(groups: seq<Group>, token: string) {
    forall g, a :: g in groups && a in g.agents && a != "*" ==> !Contains(token, a)
  }

  lemma StarGroupIsLeast(group: Group, token: string)
    requires "*" in group.agents && forall a :: a in group.agents ==> a == "*"
    ensures GroupSpecificity(group.agents, token) == Some(0)
  {
    GroupSpecificityIsGreatest(group.agents, token, "*");
    var agent := GroupSpecificityIsReached(group.agents, token);
  }

  // When the groups for `*` name no other agent, the choice is the standard's if and only if some group names
  // the token or no agent but `*` is contained in it.
  lemma ChoiceIsTheStandardsByAgents(groups: seq<Group>, token: string)
    requires ProductToken(token) && StarsAlone(groups)
    ensures SameChoice(groups, token) <==> Named(groups, token) || NoPartialAgent(groups, token)
  {
    ChoiceIsTheStandardsExactlyWhen(groups, token);
    if NoPartialAgent(groups, token) {
      OnlyStarsIsTheStandards(groups, token);
    } else if !Named(groups, token) {
      var g, a :| g in groups && a in g.agents && a != "*" && Contains(token, a);
      GroupSpecificityIsGreatest(g.agents, token, a);
      SomeGroupIsMostSpecific(groups, g, token);
      var best :| best in groups && MostSpecific(groups, best, token);
      if "*" in best.agents {
        StarGroupIsLeast(best, token);
        assert MostSpecific(groups, g, token) && "*" !in g.agents;
      }
    }
  }

  // ---------- The verdict ----------

  ghost predicate StandardCounts(groups: seq<Group>, token: string, rule: Rule) {
    exists g :: g in groups && Chosen(groups, g, token) && rule in g.rules
  }

  ghost predicate StandardApplies(groups: seq<Group>, token: string, host: string, path: string, kind: RuleKind,
      rule: Rule) {
    StandardCounts(groups, token, rule) && rule.kind == kind && RuleApplies(rule, host, path)
  }

  ghost predicate StandardPrevails(groups: seq<Group>, token: string, host: string, path: string, rule: Rule) {
    && StandardApplies(groups, token, host, path, Disallow, rule)
    && forall a :: StandardApplies(groups, token, host, path, Allow, a) ==> Utf8Len(a.pattern) < Utf8Len(rule.pattern)
  }

  // The match with the most octets decides, Allow on a tie.
  ghost predicate MostOctetsDeny(groups: seq<Group>, token: string, host: string, path: string) {
    exists r :: StandardPrevails(groups, token, host, path, r)
  }

  ghost predicate SameOrder(allow: Rule, disallow: Rule) {
    Specificity(allow.pattern) < Specificity(disallow.pattern) <==> Utf8Len(allow.pattern) < Utf8Len(disallow.pattern)
  }

  lemma SameApplies(groups: seq<Group>, token: string, host: string, path: string, kind: RuleKind, rule: Rule)
    requires SameChoice(groups, token)
    ensures AppliesAs(groups, token, host, path, kind, rule) <==> StandardApplies(groups, token, host, path, kind, rule)
  {
  }

  lemma SamePrevails(groups: seq<Group>, token: string, host: string, path: string, rule: Rule)
    requires SameChoice(groups, token)
    requires AppliesAs(groups, token, host, path, Disallow, rule) ==>
               forall a :: AppliesAs(groups, token, host, path, Allow, a) ==> SameOrder(a, rule)
    ensures Prevails(groups, token, host, path, rule) <==> StandardPrevails(groups, token, host, path, rule)
  {
    SameApplies(groups, token, host, path, Disallow, rule);
    forall a
      ensures AppliesAs(groups, token, host, path, Allow, a) <==> StandardApplies(groups, token, host, path, Allow, a)
    {
      SameApplies(groups, token, host, path, Allow, a);
    }
  }

  // With the standard's groups, the verdicts agree if the two lengths put every applicable Allow and Disallow
  // in the same order.
  lemma PatternsDenyAsTheStandard(groups: seq<Group>, token: string, host: string, path: string)
    requires SameChoice(groups, token)
    requires forall a, d ::
               AppliesAs(groups, token, host, path, Allow, a) && AppliesAs(groups, token, host, path, Disallow, d) ==>
                 SameOrder(a, d)
    ensures PatternsDeny(groups, token, host, path) <==> MostOctetsDeny(groups, token, host, path)
  {
    forall r
      ensures Prevails(groups, token, host, path, r) <==> StandardPrevails(groups, token, host, path, r)
    {
      SamePrevails(groups, token, host, path, r);
    }
  }

  // Between one Allow and one Disallow the same order is also necessary.
  lemma PairAgreesExactlyWhen(groups: seq<Group>, token: string, host: string, path: string, allow: Rule,
      disallow: Rule)
    requires SameChoice(groups, token)
    requires AppliesAs(groups, token, host, path, Allow, allow)
             && AppliesAs(groups, token, host, path, Disallow, disallow)
    requires forall r :: AppliesAs(groups, token, host, path, Allow, r) ==> r == allow
    requires forall r :: AppliesAs(groups, token, host, path, Disallow, r) ==> r == disallow
    ensures PatternsDeny(groups, token, host, path) <==> Specificity(allow.pattern) < Specificity(disallow.pattern)
    ensures MostOctetsDeny(groups, token, host, path) <==> Utf8Len(allow.pattern) < Utf8Len(disallow.pattern)
    ensures (PatternsDeny(groups, token, host, path) <==> MostOctetsDeny(groups, token, host, path))
            <==> SameOrder(allow, disallow)
  {
    forall kind, r
      ensures AppliesAs(groups, token, host, path, kind, r) <==> StandardApplies(groups, token, host, path, kind, r)
    {
      SameApplies(groups, token, host, path, kind, r);
    }
    assert Prevails(groups, token, host, path, disallow)
        <==> Specificity(allow.pattern) < Specificity(disallow.pattern);
    assert StandardPrevails(groups, token, host, path, disallow)
        <==> Utf8Len(allow.pattern) < Utf8Len(disallow.pattern);
  }
}
