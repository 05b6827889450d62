/**
 The full robots decision for a request (src/robots.rs): policy, site overlay, verdict, and the gate that
 spaces the requests of an origin by the required crawl delay.
 */
module CrawlDelay {
  import opened Prelude
  import opened RobotsParse
  import opened RobotsVerdict
  import opened PolicyCache

  datatype Decision = Proceed | Refuse | Wait(millis: nat)

  // `duration_from_millis` caps at the largest signed value.
  function Cap(millis: nat): nat {
    Min(millis, I64_MAX)
  }

  function CapAll(delay: Option<nat>): Option<nat> {
    if delay.Some? then Some(Cap(delay.value)) else None
  }

  // ---------- The gate ----------

  function Deadline(deadlines: map<string, nat>, origin: string): nat {
    if origin in deadlines then deadlines[origin] else 0
  }

  // Booking with a clock reading taken before the lock.
  function Book(deadlines: map<string, nat>, origin: string, now: nat, required: nat): (Decision, map<string, nat>) {
    var next := Deadline(deadlines, origin);
    if next > now then (Wait(Cap(SatSub(next, now))), deadlines)
    else (Proceed, deadlines[origin := SatAdd(now, required)])
  }

  // ---------- The whole check ----------

  ghost predicate PolicyDenies(policy: Policy, userAgent: string, host: string, path: string) {
    match policy
    case AllowEverything => false
    case DisallowEverything => true
    case Parsed(rules) => Denied(rules.groups, Lower(userAgent), host, path)
  }

  ghost function PolicyDelay(policy: Policy, userAgent: string): Option<nat> {
    if policy.Parsed? then CapAll(RequiredDelay(policy.rules, userAgent)) else None
  }

  method AskPolicy(policy: Policy, userAgent: string, url: Url) returns (allowed: bool)
    ensures allowed <==> !PolicyDenies(policy, userAgent, url.host, url.path)
  {
    match policy {
      case AllowEverything => allowed := true;
      case DisallowEverything => allowed := false;
      case Parsed(rules) => allowed := IsAllowed(rules, userAgent, url.host, url.path);
    }
  }

  method AskDelay(policy: Policy, userAgent: string) returns (delay: Option<nat>)
    ensures delay == PolicyDelay(policy, userAgent)
  {
    if !policy.Parsed? {
      return None;
    }
    var groups := MatchingGroups(policy.rules.groups, Lower(userAgent));
    delay := CapAll(LargestDelay(groups));
  }

  // What a request gets, given the policy in force and the site overlay.
  ghost function Ruling(
      policy: Policy, site: SitePolicy, userAgent: string, url: Url, deadlines: map<string, nat>, now: nat)
    : (Decision, map<string, nat>)
  {
    if site.access == Some(DisallowAll)
        || (site.access != Some(AllowAll) && PolicyDenies(policy, userAgent, url.host, url.path)) then
      (Refuse, deadlines)
    else
      var required := MaxMillis(PolicyDelay(policy, userAgent), CapAll(site.delay));
      if required.None? || required.value == 0 then (Proceed, deadlines)
      else Book(deadlines, url.origin, now, required.value)
  }

  // ---------- What a fetched robots.txt decides ----------

  // What a cache entry says about a URL.
  ghost predicate StoredDenies(values: Values, stored: Stored, userAgent: string, host: string, path: string) {
    match stored
    case StoredAllow => false
    case StoredDisallow => true
    case StoredBody(text) => Denied(ParseRules(values, text).groups, Lower(userAgent), host, path)
  }

  // Storing a file without groups and sitemaps as a plain permission loses nothing.
  lemma PolicySaysItsEntry(values: Values, stored: Stored, userAgent: string, host: string, path: string)
    ensures PolicyDenies(PolicyOf(values, stored), userAgent, host, path)
       <==> StoredDenies(values, stored, userAgent, host, path)
  {
  }

  // The status of the reply decides: a file that was read is obeyed, 401 and 403 refuse everything, 404 refuses
  // nothing, and with anything else the entry held before stays in force, or else the unavailable policy of the
  // site, or else that of the service.
  lemma ReplyDecides(cfg: Config, st: Caches, call: Call, userAgent: string, host: string, path: string)
    requires PolicyFor(cfg, st, call).fetched && call.reply.Response? && call.saveOk
    ensures var answer, status, body := PolicyFor(cfg, st, call).answer, call.reply.status, call.reply.body;
            answer.Some?
            && (PolicyDenies(answer.value, userAgent, host, path)
                <==> if status == 401 || status == 403 then true
                     else if status == 404 then false
                     else if 200 <= status <= 299 && body.Some? then
                       Denied(ParseRules(cfg.values, body.value).groups, Lower(userAgent), host, path)
                     else if call.origin in st.backend then
                       StoredDenies(cfg.values, st.backend[call.origin].stored, userAgent, host, path)
                     else if call.siteUnavailable.Some? then call.siteUnavailable == Some(DisallowAll)
                     else cfg.unavailable == DisallowAll)
  {
    FetchedAnswerIs(cfg, st, call);
    if Classify(call.reply).Cacheable? {
      PolicySaysItsEntry(cfg.values, Classify(call.reply).stored, userAgent, host, path);
    } else if call.origin in st.backend {
      PolicySaysItsEntry(cfg.values, st.backend[call.origin].stored, userAgent, host, path);
    }
  }

  lemma FetchedAnswerIs(cfg: Config, st: Caches, call: Call)
    requires PolicyFor(cfg, st, call).fetched && call.reply.Response? && call.saveOk
    ensures var fetched := Classify(call.reply);
            PolicyFor(cfg, st, call).answer
            == Some(if fetched.Cacheable? then PolicyOf(cfg.values, fetched.stored)
                    else LastKnown(cfg, st.backend, call))
  {
  }

  // ---------- What the overlay and the delays do to a ruling ----------

  // The overlay's access beats the policy's, and only in its absence does the policy decide.
  lemma OverlayDecidesAccess(policy: Policy, site: SitePolicy, userAgent: string, url: Url,
      deadlines: map<string, nat>, now: nat)
    ensures Ruling(policy, site, userAgent, url, deadlines, now).0.Refuse?
       <==> match site.access
            case Some(DisallowAll) => true
            case Some(AllowAll) => false
            case None => PolicyDenies(policy, userAgent, url.host, url.path)
  {
  }

  // The site asks for the delay, or a most specific group does.
  ghost predicate Demands(policy: Policy, site: SitePolicy, userAgent: string, delay: nat) {
    || (site.delay.Some? && Cap(site.delay.value) == delay)
    || (policy.Parsed? && exists g, x: nat ::
          && g in policy.rules.groups && MostSpecific(policy.rules.groups, g, Lower(userAgent))
          && Asks(g, x) && Cap(x) == delay)
  }

  ghost predicate DemandsSome(policy: Policy, site: SitePolicy, userAgent: string) {
    exists d: nat :: d > 0 && Demands(policy, site, userAgent, d)
  }

  // The delay that is booked is the strictest one demanded.
  lemma StrictestIsBooked(policy: Policy, site: SitePolicy, userAgent: string)
    ensures var required := MaxMillis(PolicyDelay(policy, userAgent), CapAll(site.delay));
            && (required.Some? ==> Demands(policy, site, userAgent, required.value) && required.value <= I64_MAX)
            && forall d: nat :: Demands(policy, site, userAgent, d) ==> required.Some? && d <= required.value
  {
    if policy.Parsed? {
      RequiredDelayIsStrictest(policy.rules, userAgent);
    }
  }

  // Behind a request that was let through, the next one of its origin that is not refused and not free of delays
  // is let through if and only if every delay demanded of the first has passed.
  lemma EveryDemandHoldsTheNext(policy: Policy, site: SitePolicy, userAgent: string, url: Url,
      deadlines: map<string, nat>, now: nat, policy': Policy, site': SitePolicy, userAgent': string, url': Url,
      now': nat)
    requires now <= I64_MAX && url.origin == url'.origin
    requires DemandsSome(policy, site, userAgent) && DemandsSome(policy', site', userAgent')
    requires Ruling(policy, site, userAgent, url, deadlines, now).0.Proceed?
    requires !Ruling(policy', site', userAgent', url',
                     Ruling(policy, site, userAgent, url, deadlines, now).1, now').0.Refuse?
    ensures Ruling(policy', site', userAgent', url',
                   Ruling(policy, site, userAgent, url, deadlines, now).1, now').0.Proceed?
       <==> forall d: nat :: Demands(policy, site, userAgent, d) ==> now + d <= now'
  {
    StrictestIsBooked(policy, site, userAgent);
    StrictestIsBooked(policy', site', userAgent');
  }

  class Robot {
    const sites: seq<SiteRule>
    const service: Service
    var requestDeadlines: map<string, nat>

    constructor (sites: seq<SiteRule>, service: Service)
      ensures this.sites == sites && this.service == service && requestDeadlines == map[]
    {
      this.sites := sites;
      this.service := service;
      requestDeadlines := map[];
    }

    // None is an error of the policy lookup.  A URL that is not http or https is always allowed.
    method Check(url: Url, web: bool, call: Call, userAgent: string, now: nat)
      returns (decision: Option<Decision>, site: SitePolicy)
      requires call.origin == url.origin
      modifies this, service
      ensures IsPickOf(sites, url, GET_ACCESS, site.access) && IsPickOf(sites, url, GET_UNAVAILABLE, site.unavailable)
      ensures IsLargest(sites, url, |sites|, site.delay)
      ensures !web ==> decision == Some(Proceed) && service.Value() == old(service.Value())
                       && requestDeadlines == old(requestDeadlines)
      ensures web ==>
                var done := PolicyFor(service.cfg, old(service.Value()), call.(siteUnavailable := site.unavailable));
                && service.Value() == done.state
                && (if done.answer.None? then decision.None? && requestDeadlines == old(requestDeadlines)
                    else
                      var (ruled, deadlines) :=
                        Ruling(done.answer.value, site, userAgent, url, old(requestDeadlines), now);
                      decision == Some(ruled) && requestDeadlines == deadlines)
    {
      site := ResolveSitePolicy(sites, url);
      if !web {
        return Some(Proceed), site;
      }
      var policy, _ := service.RunPolicyFor(call.(siteUnavailable := site.unavailable));
      if policy.None? {
        return None, site;
      }
      if site.access == Some(DisallowAll) {
        return Some(Refuse), site;
      }
      if site.access != Some(AllowAll) {
        var allowed := AskPolicy(policy.value, userAgent, url);
        if !allowed {
          return Some(Refuse), site;
        }
      }
      var ruleDelay := AskDelay(policy.value, userAgent);
      var required := MaxMillis(ruleDelay, CapAll(site.delay));
      if required.None? || required.value == 0 {
        return Some(Proceed), site;
      }
      var next := if url.origin in requestDeadlines then requestDeadlines[url.origin] else 0;
      if next > now {
        return Some(Wait(Cap(SatSub(next, now)))), site;
      }
      requestDeadlines := requestDeadlines[url.origin := SatAdd(now, required.value)];
      return Some(Proceed), site;
    }
  }

  // ---------- Spacing in every interleaving ----------

  // A governed check reads the clock, then books under the lock.
  datatype Action = ReadClock(ctx: nat, origin: string, now: nat, required: nat) | Commit(ctx: nat)

  datatype Reading = Reading(origin: string, now: nat, required: nat)

  // An allowed request: the reading that was let through.
  datatype System = System(deadlines: map<string, nat>, readings: map<nat, Reading>, allowed: seq<Reading>)

  function Act(sys: System, action: Action): System {
    match action
    case ReadClock(ctx, origin, now, required) => sys.(readings := sys.readings[ctx := Reading(origin, now, required)])
    case Commit(ctx) =>
      if ctx !in sys.readings then sys
      else
        var r := sys.readings[ctx];
        var (decision, deadlines) := Book(sys.deadlines, r.origin, r.now, r.required);
        System(deadlines, sys.readings - {ctx}, if decision == Proceed then sys.allowed + [r] else sys.allowed)
  }

  function Exec(actions: seq<Action>): System {
    if actions == [] then System(map[], map[], [])
    else Act(Exec(actions[..|actions| - 1]), actions[|actions| - 1])
  }

  // Clock readings are signed millisecond timestamps and required delays have passed Cap.
  ghost predicate InRange(actions: seq<Action>) {
    forall k :: 0 <= k < |actions| && actions[k].ReadClock? ==>
        actions[k].now <= I64_MAX && actions[k].required <= I64_MAX
  }

  ghost predicate Good(sys: System) {
    && (forall ctx :: ctx in sys.readings ==> sys.readings[ctx].now <= I64_MAX && sys.readings[ctx].required <= I64_MAX)
    && (forall i :: 0 <= i < |sys.allowed| ==>
          var r := sys.allowed[i];
          r.origin in sys.deadlines && r.now + r.required <= sys.deadlines[r.origin])
    && (forall i, j :: 0 <= i < j < |sys.allowed| && sys.allowed[i].origin == sys.allowed[j].origin ==>
          sys.allowed[i].now + sys.allowed[i].required <= sys.allowed[j].now)
  }

  lemma ActKeepsGood(sys: System, action: Action)
    requires Good(sys)
    requires action.ReadClock? ==> action.now <= I64_MAX && action.required <= I64_MAX
    ensures Good(Act(sys, action))
  {
  }

  lemma {:induction false} RunsAreGood(actions: seq<Action>)
    requires InRange(actions)
    ensures Good(Exec(actions))
  {
    if actions != [] {
      var front, last := actions[..|actions| - 1], actions[|actions| - 1];
      assert forall k :: 0 <= k < |front| ==> front[k] == actions[k];
      RunsAreGood(front);
      ActKeepsGood(Exec(front), last);
    }
  }

  // In every interleaving two allowed requests of an origin were read at least the earlier one's delay
  // apart, whatever the clock did.
  lemma AllowsAreSpaced(actions: seq<Action>, i: nat, j: nat)
    requires InRange(actions) && i < j < |Exec(actions).allowed|
    requires Exec(actions).allowed[i].origin == Exec(actions).allowed[j].origin
    ensures Exec(actions).allowed[j].now >= Exec(actions).allowed[i].now + Exec(actions).allowed[i].required
  {
    RunsAreGood(actions);
  }

  function Of(allowed: seq<Reading>, origin: string): seq<Reading> {
    if allowed == [] then []
    else
      var front, last := Of(allowed[..|allowed| - 1], origin), allowed[|allowed| - 1];
      if last.origin == origin then front + [last] else front
  }

  lemma {:induction false} OfIsSublist(allowed: seq<Reading>, origin: string, k: nat) returns (i: nat)
    requires k < |Of(allowed, origin)|
    ensures i < |allowed| && allowed[i] == Of(allowed, origin)[k] && allowed[i].origin == origin
  {
    var front, last := allowed[..|allowed| - 1], allowed[|allowed| - 1];
    if k < |Of(front, origin)| {
      i := OfIsSublist(front, origin, k);
    } else {
      i := |allowed| - 1;
    }
  }

  lemma OneMoreDelay(first: nat, k: nat, least: nat)
    requires k > 0
    ensures first + k * least == first + (k - 1) * least + least
  {
  }

  // The k-th allowed request of an origin comes at least k minimum delays after the first.
  lemma {:induction false} AllowsSpanDelays(allowed: seq<Reading>, origin: string, least: nat, k: nat)
    requires forall i, j :: 0 <= i < j < |allowed| && allowed[i].origin == allowed[j].origin ==>
               allowed[i].now + allowed[i].required <= allowed[j].now
    requires forall i :: 0 <= i < |allowed| && allowed[i].origin == origin ==> allowed[i].required >= least
    requires k < |Of(allowed, origin)|
    ensures Of(allowed, origin)[k].now >= Of(allowed, origin)[0].now + k * least
    decreases |allowed|
  {
    var front, last := allowed[..|allowed| - 1], allowed[|allowed| - 1];
    assert forall i :: 0 <= i < |front| ==> front[i] == allowed[i];
    if k < |Of(front, origin)| {
      AllowsSpanDelays(front, origin, least, k);
    } else if k > 0 {
      AllowsSpanDelays(front, origin, least, k - 1);
      var i := OfIsSublist(front, origin, k - 1);
      assert allowed[i].now + least <= last.now;
      OneMoreDelay(Of(front, origin)[0].now, k, least);
    }
  }

  lemma RunsSpanDelays(actions: seq<Action>, origin: string, least: nat, k: nat)
    requires InRange(actions) && k < |Of(Exec(actions).allowed, origin)|
    requires forall i :: 0 <= i < |Exec(actions).allowed| && Exec(actions).allowed[i].origin == origin ==>
               Exec(actions).allowed[i].required >= least
    ensures Of(Exec(actions).allowed, origin)[k].now >= Of(Exec(actions).allowed, origin)[0].now + k * least
  {
    RunsAreGood(actions);
    AllowsSpanDelays(Exec(actions).allowed, origin, least, k);
  }

  // ---------- Retrying after a wait ----------

  // No step of the run lets a request of the origin through.
  lemma {:induction false} DeadlineRests(actions: seq<Action>, more: seq<Action>, origin: string)
    requires Of(Exec(actions + more).allowed, origin) == Of(Exec(actions).allowed, origin)
    ensures Deadline(Exec(actions + more).deadlines, origin) == Deadline(Exec(actions).deadlines, origin)
    ensures |Of(Exec(actions + more).allowed, origin)| >= |Of(Exec(actions).allowed, origin)|
    decreases |more|
  {
    if more == [] {
      assert actions + more == actions;
    } else {
      var front, last := more[..|more| - 1], more[|more| - 1];
      assert (actions + more)[..|actions + more| - 1] == actions + front;
      var before, after := Exec(actions + front), Exec(actions + more);
      assert after == Act(before, last);
      AllowedGrows(actions, front, origin);
      ActAppends(before, last, origin);
      DeadlineRests(actions, front, origin);
    }
  }

  lemma ActAppends(sys: System, action: Action, origin: string)
    ensures Of(Act(sys, action).allowed, origin) == Of(sys.allowed, origin)
         || exists r :: Of(Act(sys, action).allowed, origin) == Of(sys.allowed, origin) + [r]
    ensures Of(Act(sys, action).allowed, origin) == Of(sys.allowed, origin) ==>
              Deadline(Act(sys, action).deadlines, origin) == Deadline(sys.deadlines, origin)
  {
    if action.Commit? && action.ctx in sys.readings {
      var r := sys.readings[action.ctx];
      assert (sys.allowed + [r])[..|sys.allowed|] == sys.allowed;
    }
  }

  lemma {:induction false} AllowedGrows(actions: seq<Action>, more: seq<Action>, origin: string)
    ensures Of(Exec(actions).allowed, origin) <= Of(Exec(actions + more).allowed, origin)
    decreases |more|
  {
    if more == [] {
      assert actions + more == actions;
    } else {
      var front, last := more[..|more| - 1], more[|more| - 1];
      assert (actions + more)[..|actions + more| - 1] == actions + front;
      AllowedGrows(actions, front, origin);
      ActAppends(Exec(actions + front), last, origin);
    }
  }

  // After a returned wait, and with no request of the origin let through meanwhile, a reading taken
  // exactly the wait later is let through, if and only if the wait was not cut off by Cap.
  lemma RetryAfterWait(actions: seq<Action>, more: seq<Action>, origin: string, now: nat, required: nat, again: nat)
    requires Book(Exec(actions).deadlines, origin, now, required).0.Wait?
    requires Of(Exec(actions + more).allowed, origin) == Of(Exec(actions).allowed, origin)
    ensures var wait := Book(Exec(actions).deadlines, origin, now, required).0.millis;
            Book(Exec(actions + more).deadlines, origin, now + wait, again).0 == Proceed
            <==> Deadline(Exec(actions).deadlines, origin) - now <= I64_MAX
  {
    DeadlineRests(actions, more, origin);
  }

  function LastBooked(allowed: seq<Reading>, origin: string): nat {
    var booked := Of(allowed, origin);
    if booked == [] then 0 else booked[|booked| - 1].now + booked[|booked| - 1].required
  }

  lemma LastBookedSnoc(allowed: seq<Reading>, r: Reading, origin: string)
    ensures LastBooked(allowed + [r], origin)
         == if r.origin == origin then r.now + r.required else LastBooked(allowed, origin)
  {
    assert (allowed + [r])[..|allowed|] == allowed;
  }

  lemma ActBooks(sys: System, action: Action, origin: string)
    requires Good(sys) && Deadline(sys.deadlines, origin) == LastBooked(sys.allowed, origin)
    ensures Deadline(Act(sys, action).deadlines, origin) == LastBooked(Act(sys, action).allowed, origin)
  {
    if action.Commit? && action.ctx in sys.readings {
      LastBookedSnoc(sys.allowed, sys.readings[action.ctx], origin);
    }
  }

  // The deadline of an origin is set by the last request let through.
  lemma {:induction false} DeadlineIsLastBooked(actions: seq<Action>, origin: string)
    requires InRange(actions)
    ensures Deadline(Exec(actions).deadlines, origin) == LastBooked(Exec(actions).allowed, origin)
  {
    if actions != [] {
      var front, last := actions[..|actions| - 1], actions[|actions| - 1];
      assert forall k :: 0 <= k < |front| ==> front[k] == actions[k];
      DeadlineIsLastBooked(front, origin);
      RunsAreGood(front);
      ActBooks(Exec(front), last, origin);
    }
  }

  // A wait told to a reading that is not earlier than the last request let through is never cut off, so
  // retrying exactly after it succeeds.
  lemma LaterReadingRetries(actions: seq<Action>, more: seq<Action>, origin: string, now: nat, required: nat,
      again: nat)
    requires InRange(actions) && Book(Exec(actions).deadlines, origin, now, required).0.Wait?
    requires forall k :: 0 <= k < |Exec(actions).allowed| && Exec(actions).allowed[k].origin == origin ==>
               Exec(actions).allowed[k].now <= now
    requires Of(Exec(actions + more).allowed, origin) == Of(Exec(actions).allowed, origin)
    ensures var wait := Book(Exec(actions).deadlines, origin, now, required).0.millis;
            Book(Exec(actions + more).deadlines, origin, now + wait, again).0 == Proceed
  {
    var allowed := Exec(actions).allowed;
    RetryAfterWait(actions, more, origin, now, required, again);
    DeadlineIsLastBooked(actions, origin);
    RunsAreGood(actions);
    if Of(allowed, origin) != [] {
      var i := OfIsSublist(allowed, origin, |Of(allowed, origin)| - 1);
      BookedInRange(actions, i);
    }
  }

  lemma {:induction false} BookedInRange(actions: seq<Action>, i: nat)
    requires InRange(actions) && i < |Exec(actions).allowed|
    ensures Exec(actions).allowed[i].required <= I64_MAX
  {
    var front, last := actions[..|actions| - 1], actions[|actions| - 1];
    assert forall k :: 0 <= k < |front| ==> front[k] == actions[k];
    RunsAreGood(front);
    if i < |Exec(front).allowed| {
      BookedInRange(front, i);
    }
  }

  // A clock that runs back to before the booking can be told a wait that was cut off: retrying after it fails.
  lemma EarlierReadingFindsCappedWait(again: nat)
    ensures var actions := [ReadClock(0, "o", 100, I64_MAX), Commit(0)];
            var told := Book(Exec(actions).deadlines, "o", 0, 1).0;
            && InRange(actions) && told.Wait?
            && Book(Exec(actions).deadlines, "o", 0 + told.millis, again).0 != Proceed
  {
    var read, commit := ReadClock(0, "o", 100, I64_MAX), Commit(0);
    var actions := [read, commit];
    assert actions[..1] == [read] && [read][..0] == [];
    assert Exec([read]) == Act(Exec([]), read);
    assert Exec(actions).deadlines == map["o" := 100 + I64_MAX];
    assert actions + [] == actions;
    RetryAfterWait(actions, [], "o", 0, 1, again);
  }
}
