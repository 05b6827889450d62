/**
 How RFC 9309, section 2.2, makes groups of the lines of a robots.txt, against the groups of src/robots.rs.  To the
 standard only user-agent and rule lines matter, and a user-agent line opens a group only behind a rule.  The
 program also ends a group at a blank line, and opens one at a user-agent line behind a crawl delay.
 */
module StandardGrouping {
  import opened Prelude
  import opened RuleRegex
  import opened RobotsParse

  // ---------- The standard's groups ----------

  // The closed groups, and the agents and rules of the open one.
  datatype Reading = Reading(groups: seq<Group>, agents: seq<string>, rules: seq<Rule>)

  function PlainGroup(agents: seq<string>, rules: seq<Rule>): Group {
    Group(agents, rules, None, None)
  }

  function Close(r: Reading): Reading {
    if r.agents == [] then r else Reading(r.groups + [PlainGroup(r.agents, r.rules)], [], [])
  }

  function ReadOn(values: Values, r: Reading, line: Line): Reading {
    match line
    case UserAgent(value) =>
      var base := if r.rules != [] then Close(r) else r;
      base.(agents := base.agents + [Lower(value)])
    case Access(_, _) => if r.agents != [] then r.(rules := r.rules + [RuleOf(values, line)]) else r
    case _ => r
  }

  function ReadAll(values: Values, lines: seq<Line>): Reading {
    if lines == [] then Reading([], [], [])
    else ReadOn(values, ReadAll(values, lines[..|lines| - 1]), lines[|lines| - 1])
  }

  function StandardGroups(values: Values, lines: seq<Line>): seq<Group> {
    Close(ReadAll(values, lines)).groups
  }

  // ---------- Lines that divide a group ----------

  predicate Acts(line: Line) {
    line.UserAgent? || line.Access?
  }

  // A blank line stands behind the last user-agent or rule line.
  predicate Gap(lines: seq<Line>) {
    lines != [] &&
    var last := lines[|lines| - 1];
    last == Blank || (!Acts(last) && Gap(lines[..|lines| - 1]))
  }

  // The line belongs to the group that is open to the standard.
  predicate Joins(values: Values, before: seq<Line>, line: Line) {
    var r := ReadAll(values, before);
    r.agents != [] && (line.Access? || (line.UserAgent? && r.rules == []))
  }

  // The crawl delay left by the lines since the open group was opened.
  function DelayInForce(values: Values, lines: seq<Line>): Option<nat> {
    if lines == [] then None
    else
      var front, last := lines[..|lines| - 1], lines[|lines| - 1];
      if last.CrawlDelay? then values.crawlDelay(last.value)
      else if last.UserAgent? && !Joins(values, front, last) then None
      else DelayInForce(values, front)
  }

  // A line of the open group that a blank line, or for a user-agent line a crawl delay, separates from it.
  predicate Divides(values: Values, before: seq<Line>, line: Line) {
    && Joins(values, before, line)
    && (Gap(before) || (line.UserAgent? && DelayInForce(values, before).Some?))
  }

  // No blank line stands between a user-agent or rule line of a group and a later line of that group, and no
  // user-agent line follows a crawl delay in force in a group that has no rule yet.
  predicate Undivided(values: Values, lines: seq<Line>) {
    forall k :: 0 <= k < |lines| ==> !Divides(values, lines[..k], lines[k])
  }

  // ---------- Agreement, group by group ----------

  predicate SameGroup(g: Group, h: Group) {
    g.agents == h.agents && g.rules == h.rules
  }

  predicate SameGroups(a: seq<Group>, b: seq<Group>) {
    |a| == |b| && forall k :: 0 <= k < |a| ==> SameGroup(a[k], b[k])
  }

  // The program's state against the standard's, while no line has divided a group: the open group is the same,
  // or the program has closed it at a blank line.
  ghost predicate InStep(values: Values, lines: seq<Line>, st: State, r: Reading) {
    && (r.agents == [] ==> r.rules == [])
    && (st.agents == [] ==> st.rules == [] && st.crawlDelay.None?)
    && if Gap(lines) && r.agents != [] then
         st.agents == [] && SameGroups(st.groups, Close(r).groups)
       else
         && SameGroups(st.groups, r.groups) && st.agents == r.agents && st.rules == r.rules
         && (r.agents != [] && r.rules == [] ==> st.crawlDelay == DelayInForce(values, lines))
  }

  lemma Snoc(values: Values, front: seq<Line>, last: Line)
    ensures var lines := front + [last];
            && Run(values, lines) == Step(values, Run(values, front), last)
            && ReadAll(values, lines) == ReadOn(values, ReadAll(values, front), last)
            && (Gap(lines) <==> last == Blank || (!Acts(last) && Gap(front)))
            && DelayInForce(values, lines)
            == (if last.CrawlDelay? then values.crawlDelay(last.value)
                else if last.UserAgent? && !Joins(values, front, last) then None
                else DelayInForce(values, front))
  {
    assert (front + [last])[..|front|] == front;
  }

  lemma SameGroupsSnoc(a: seq<Group>, b: seq<Group>, g: Group, h: Group)
    requires SameGroups(a, b) && SameGroup(g, h)
    ensures SameGroups(a + [g], b + [h])
  {
  }

  lemma AgentStaysInStep(values: Values, front: seq<Line>, last: Line, st: State, r: Reading)
    requires last.UserAgent? && st == Run(values, front) && r == ReadAll(values, front)
    requires InStep(values, front, st, r) && !Divides(values, front, last)
    ensures InStep(values, front + [last], Step(values, st, last), ReadOn(values, r, last))
  {
    Snoc(values, front, last);
    if st.agents != [] && st.rules != [] {
      SameGroupsSnoc(st.groups, r.groups, Group(st.agents, st.rules, st.crawlDelay, st.requestInterval),
                     PlainGroup(r.agents, r.rules));
    }
  }

  lemma BlankStaysInStep(values: Values, front: seq<Line>, st: State, r: Reading)
    requires st == Run(values, front) && r == ReadAll(values, front) && InStep(values, front, st, r)
    ensures InStep(values, front + [Blank], Step(values, st, Blank), r)
  {
    Snoc(values, front, Blank);
    if st.agents != [] {
      SameGroupsSnoc(st.groups, r.groups, Group(st.agents, st.rules, st.crawlDelay, st.requestInterval),
                     PlainGroup(r.agents, r.rules));
    }
  }

  lemma StaysInStep(values: Values, front: seq<Line>, last: Line, st: State, r: Reading)
    requires st == Run(values, front) && r == ReadAll(values, front)
    requires InStep(values, front, st, r) && !Divides(values, front, last)
    ensures InStep(values, front + [last], Step(values, st, last), ReadOn(values, r, last))
  {
    if last.UserAgent? {
      AgentStaysInStep(values, front, last, st, r);
    } else if last == Blank {
      BlankStaysInStep(values, front, st, r);
    } else {
      Snoc(values, front, last);
    }
  }

  lemma {:induction false} UndividedRunsInStep(values: Values, lines: seq<Line>)
    requires Undivided(values, lines)
    ensures InStep(values, lines, Run(values, lines), ReadAll(values, lines))
  {
    if lines != [] {
      var front, last := lines[..|lines| - 1], lines[|lines| - 1];
      assert lines == front + [last];
      UndividedPrefix(values, lines, |front|);
      UndividedRunsInStep(values, front);
      assert !Divides(values, lines[..|front|], lines[|front|]);
      Snoc(values, front, last);
      StaysInStep(values, front, last, Run(values, front), ReadAll(values, front));
    }
  }

  lemma UndividedPrefix(values: Values, lines: seq<Line>, n: nat)
    requires n <= |lines| && forall k :: 0 <= k < n ==> !Divides(values, lines[..k], lines[k])
    ensures Undivided(values, lines[..n])
  {
    forall k | 0 <= k < n
      ensures !Divides(values, lines[..n][..k], lines[..n][k])
    {
      assert lines[..n][..k] == lines[..k];
    }
  }

  lemma InStepEndsSame(values: Values, lines: seq<Line>)
    requires InStep(values, lines, Run(values, lines), ReadAll(values, lines))
    ensures SameGroups(ParseLines(values, lines).groups, StandardGroups(values, lines))
  {
    var st, r := Run(values, lines), ReadAll(values, lines);
    if st.agents != [] {
      SameGroupsSnoc(st.groups, r.groups, Group(st.agents, st.rules, st.crawlDelay, st.requestInterval),
                     PlainGroup(r.agents, r.rules));
    }
  }

  // ---------- A divided group stays divided ----------

  function Weight(agents: seq<string>, rules: seq<Rule>): nat {
    |agents| + |rules|
  }

  // The program has closed group g with less in it than the standard has put there so far.
  ghost predicate Apart(st: State, r: Reading, g: nat) {
    && g < |st.groups| && g <= |r.groups|
    && if g < |r.groups| then
         Weight(st.groups[g].agents, st.groups[g].rules) < Weight(r.groups[g].agents, r.groups[g].rules)
       else
         r.agents != [] && Weight(st.groups[g].agents, st.groups[g].rules) < Weight(r.agents, r.rules)
  }

  lemma StaysApart(values: Values, st: State, r: Reading, g: nat, line: Line)
    requires Apart(st, r, g)
    ensures Apart(Step(values, st, line), ReadOn(values, r, line), g)
  {
    assert Finalize(st).groups[g] == st.groups[g];
  }

  lemma {:induction false} RunStaysApart(values: Values, lines: seq<Line>, n: nat, g: nat)
    requires n <= |lines| && Apart(Run(values, lines[..n]), ReadAll(values, lines[..n]), g)
    ensures Apart(Run(values, lines), ReadAll(values, lines), g)
    decreases |lines|
  {
    if n == |lines| {
      assert lines[..n] == lines;
    } else {
      var front := lines[..|lines| - 1];
      assert front[..n] == lines[..n];
      RunStaysApart(values, front, n, g);
      StaysApart(values, Run(values, front), ReadAll(values, front), g, lines[|lines| - 1]);
    }
  }

  lemma DivisionSetsApart(values: Values, front: seq<Line>, last: Line, st: State, r: Reading)
    requires st == Run(values, front) && r == ReadAll(values, front)
    requires InStep(values, front, st, r) && Divides(values, front, last)
    ensures Apart(Step(values, st, last), ReadOn(values, r, last), |r.groups|)
  {
    if Gap(front) {
      assert SameGroup(st.groups[|r.groups|], Close(r).groups[|r.groups|]);
    }
  }

  lemma ApartEndsDifferent(values: Values, lines: seq<Line>, g: nat)
    requires Apart(Run(values, lines), ReadAll(values, lines), g)
    ensures !SameGroups(ParseLines(values, lines).groups, StandardGroups(values, lines))
  {
    var parsed, standard := ParseLines(values, lines).groups, StandardGroups(values, lines);
    assert Weight(parsed[g].agents, parsed[g].rules) < Weight(standard[g].agents, standard[g].rules);
    assert !SameGroup(parsed[g], standard[g]);
  }

  // Behind the first line that divides a group, that group stays short of the standard's.
  lemma FirstDivisionDiffers(values: Values, lines: seq<Line>, k: nat)
    requires k < |lines| && Divides(values, lines[..k], lines[k])
    requires forall i :: 0 <= i < k ==> !Divides(values, lines[..i], lines[i])
    ensures !SameGroups(ParseLines(values, lines).groups, StandardGroups(values, lines))
  {
    var front, last := lines[..k], lines[k];
    UndividedPrefix(values, lines, k);
    UndividedRunsInStep(values, front);
    DivisionSetsApart(values, front, last, Run(values, front), ReadAll(values, front));
    Snoc(values, front, last);
    var g := |ReadAll(values, front).groups|;
    assert lines[..k + 1] == front + [last];
    RunStaysApart(values, lines, k + 1, g);
    ApartEndsDifferent(values, lines, g);
  }

  lemma {:induction false} DividedGroupsDiffer(values: Values, lines: seq<Line>, k: nat)
    requires k < |lines| && Divides(values, lines[..k], lines[k])
    ensures !SameGroups(ParseLines(values, lines).groups, StandardGroups(values, lines))
  {
    if i: nat :| i < k && Divides(values, lines[..i], lines[i]) {
      DividedGroupsDiffer(values, lines, i);
    } else {
      FirstDivisionDiffers(values, lines, k);
    }
  }

  // The program's groups have the agents and rules of the standard's if and only if no line divides a group.
  lemma GroupsAreTheStandardsExactlyWhen(values: Values, lines: seq<Line>)
    ensures SameGroups(ParseLines(values, lines).groups, StandardGroups(values, lines)) <==> Undivided(values, lines)
  {
    if Undivided(values, lines) {
      UndividedRunsInStep(values, lines);
      InStepEndsSame(values, lines);
    } else {
      var k :| 0 <= k < |lines| && Divides(values, lines[..k], lines[k]);
      DividedGroupsDiffer(values, lines, k);
    }
  }
}
