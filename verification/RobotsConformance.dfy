/**
 The verdict of RFC 9309 on a whole robots.txt file, on the groups the standard makes of its lines, and when it is
 that of src/robots.rs.
 */
module RobotsConformance {
  import opened Prelude
  import opened RuleRegex
  import opened RobotsParse
  import opened RobotsVerdict
  import opened StandardGrouping
  import opened RobotsStandard

  const ROBOTS_TXT: string := "/robots.txt"

  // The standard's verdict on a file: its own groups, the most octets, and robots.txt itself always allowed.
  ghost predicate StandardDenies(values: Values, body: string, token: string, host: string, path: string) {
    path != ROBOTS_TXT && MostOctetsDeny(StandardGroups(values, ReadLines(Lines(body))), token, host, path)
  }

  lemma SameGroupsCount(a: seq<Group>, b: seq<Group>, token: string, rule: Rule)
    requires SameGroups(a, b) && StandardCounts(a, token, rule)
    ensures StandardCounts(b, token, rule)
  {
    var g :| g in a && Chosen(a, g, token) && rule in g.rules;
    var k :| 0 <= k < |a| && a[k] == g;
    assert b[k] in b && Chosen(b, b[k], token) && rule in b[k].rules;
  }

  lemma SameCountsSameVerdict(a: seq<Group>, b: seq<Group>, token: string, host: string, path: string)
    requires forall r :: StandardCounts(a, token, r) <==> StandardCounts(b, token, r)
    ensures MostOctetsDeny(a, token, host, path) <==> MostOctetsDeny(b, token, host, path)
  {
    if r :| StandardPrevails(a, token, host, path, r) {
      assert StandardPrevails(b, token, host, path, r);
    }
    if r :| StandardPrevails(b, token, host, path, r) {
      assert StandardPrevails(a, token, host, path, r);
    }
  }

  lemma SameGroupsSameVerdict(a: seq<Group>, b: seq<Group>, token: string, host: string, path: string)
    requires SameGroups(a, b)
    ensures MostOctetsDeny(a, token, host, path) <==> MostOctetsDeny(b, token, host, path)
  {
    forall r
      ensures StandardCounts(a, token, r) <==> StandardCounts(b, token, r)
    {
      if StandardCounts(a, token, r) {
        SameGroupsCount(a, b, token, r);
      }
      if StandardCounts(b, token, r) {
        SameGroupsCount(b, a, token, r);
      }
    }
    SameCountsSameVerdict(a, b, token, host, path);
  }

  // Parsing, compiling and deciding gives the verdict of the standard, on every path but that of robots.txt
  // itself, when no line of the file divides a group, the groups chosen are those the standard chooses, and
  // every rule of theirs that applies has a plain pattern.
  lemma VerdictIsTheStandards(values: Values, body: string, token: string, host: string, path: string)
    requires OneLine(path) && Undivided(values, ReadLines(Lines(body)))
    requires SameChoice(ParseRules(values, body).groups, token)
    requires forall r :: Counts(ParseRules(values, body).groups, token, r) && RuleApplies(r, host, path) ==>
             Plain(r.pattern)
    ensures StandardDenies(values, body, token, host, path)
       <==> path != ROBOTS_TXT && Denied(ParseRules(values, body).groups, token, host, path)
  {
    var groups := ParseRules(values, body).groups;
    VerdictReadsThePatterns(values, body, token, host, path);
    forall a, d | AppliesAs(groups, token, host, path, Allow, a) && AppliesAs(groups, token, host, path, Disallow, d)
      ensures SameOrder(a, d)
    {
      SpecificityIsOctetsExactlyWhenPlain(a.pattern);
      SpecificityIsOctetsExactlyWhenPlain(d.pattern);
    }
    PatternsDenyAsTheStandard(groups, token, host, path);
    GroupsAreTheStandardsExactlyWhen(values, ReadLines(Lines(body)));
    SameGroupsSameVerdict(groups, StandardGroups(values, ReadLines(Lines(body))), token, host, path);
  }
}
