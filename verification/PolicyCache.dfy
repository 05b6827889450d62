/**
 The robots policy service (src/robots.rs): a hot cache over a backing cache, with a time to live and
 a retry delay after failed fetches.  Clock readings, network replies and backend failures are inputs.
 */
module PolicyCache {
  import opened Prelude
  import opened RobotsParse
  import opened RobotsVerdict

  datatype Stored = StoredAllow | StoredDisallow | StoredBody(text: string)

  datatype Entry = Entry(fetchedAt: nat, stored: Stored)

  datatype Policy = AllowEverything | DisallowEverything | Parsed(rules: Rules)

  datatype Hot = Hot(fetchedAt: nat, policy: Policy)

  datatype Config = Config(values: Values, ttl: Option<nat>, unavailable: Access, retryDelay: Option<nat>)

  // What the network gives back for robots.txt.
  datatype Reply = NoClient | SendFailed | Response(status: nat, body: Option<string>)

  datatype Fetched = Cacheable(stored: Stored) | Unavailable | Failed

  // One call with everything it observes: the clock at the start, at the reply and when a failure is noted.
  datatype Call = Call(
    origin: string,
    now: nat,
    siteUnavailable: Option<Access>,
    loadOk: bool,
    reply: Reply,
    repliedAt: nat,
    notedAt: nat,
    saveOk: bool)

  datatype Caches = Caches(backend: map<string, Entry>, hot: map<string, Hot>, retryAt: map<string, nat>)

  datatype Done = Done(state: Caches, answer: Option<Policy>, fetched: bool)

  // ---------- Pieces ----------

  function PolicyOf(values: Values, stored: Stored): Policy {
    match stored
    case StoredAllow => AllowEverything
    case StoredDisallow => DisallowEverything
    case StoredBody(text) =>
      var rules := ParseRules(values, text);
      if rules.groups == [] && rules.sitemaps == [] then AllowEverything else Parsed(rules)
  }

  function HotOf(values: Values, entry: Entry): Hot {
    Hot(entry.fetchedAt, PolicyOf(values, entry.stored))
  }

  function FallbackPolicy(cfg: Config, call: Call): Policy {
    var access := if call.siteUnavailable.Some? then call.siteUnavailable.value else cfg.unavailable;
    if access == AllowAll then AllowEverything else DisallowEverything
  }

  function Classify(reply: Reply): Fetched {
    match reply
    case NoClient => Failed
    case SendFailed => Unavailable
    case Response(status, body) =>
      if 200 <= status <= 299 then (if body.Some? then Cacheable(StoredBody(body.value)) else Unavailable)
      else if status == 401 || status == 403 then Cacheable(StoredDisallow)
      else if status == 404 then Cacheable(StoredAllow)
      else Unavailable
  }

  // A reply that is kept: a file that was read, or a status that speaks for itself.
  predicate Settles(reply: Reply) {
    reply.Response? &&
    (reply.status in {401, 403, 404} || (200 <= reply.status < 300 && reply.body.Some?))
  }

  predicate Stale(cfg: Config, fetchedAt: nat, now: nat) {
    cfg.ttl.Some? && SatSub(now, fetchedAt) >= cfg.ttl.value
  }

  predicate HotFresh(cfg: Config, st: Caches, call: Call) {
    call.origin in st.hot && !Stale(cfg, st.hot[call.origin].fetchedAt, call.now)
  }

  predicate BackendFresh(cfg: Config, backend: map<string, Entry>, call: Call) {
    call.origin in backend && !Stale(cfg, backend[call.origin].fetchedAt, call.now)
  }

  predicate RetryPending(cfg: Config, retryAt: map<string, nat>, call: Call) {
    cfg.retryDelay.Some? && call.origin in retryAt && retryAt[call.origin] > call.now
  }

  // The retry check drops an expired deadline.
  function RetryChecked(cfg: Config, retryAt: map<string, nat>, call: Call): map<string, nat> {
    if cfg.retryDelay.Some? && !RetryPending(cfg, retryAt, call) then retryAt - {call.origin} else retryAt
  }

  function RetryNoted(cfg: Config, retryAt: map<string, nat>, call: Call): map<string, nat> {
    if cfg.retryDelay.None? then retryAt else retryAt[call.origin := SatAdd(call.notedAt, cfg.retryDelay.value)]
  }

  function Remember(cfg: Config, hot: map<string, Hot>, call: Call, entry: Entry): map<string, Hot> {
    hot[call.origin := HotOf(cfg.values, entry)]
  }

  // ---------- One call of `policy_for` ----------

  function ServeEntry(cfg: Config, st: Caches, call: Call, fetched: bool): Done {
    if call.origin in st.backend then
      var entry := st.backend[call.origin];
      Done(st.(hot := Remember(cfg, st.hot, call, entry)), Some(PolicyOf(cfg.values, entry.stored)), fetched)
    else Done(st, Some(FallbackPolicy(cfg, call)), fetched)
  }

  function FetchStep(cfg: Config, st: Caches, call: Call): Done {
    match Classify(call.reply)
    case Failed => Done(st, None, true)
    case Unavailable => ServeEntry(cfg, st.(retryAt := RetryNoted(cfg, st.retryAt, call)), call, true)
    case Cacheable(stored) =>
      var entry := Entry(call.repliedAt, stored);
      var cleared := st.(retryAt := st.retryAt - {call.origin});
      if !call.saveOk then Done(cleared, None, true)
      else ServeEntry(cfg, cleared.(backend := st.backend[call.origin := entry]), call, true)
  }

  function PolicyFor(cfg: Config, st: Caches, call: Call): Done {
    if HotFresh(cfg, st, call) then Done(st, Some(st.hot[call.origin].policy), false)
    else if !call.loadOk then Done(st, None, false)
    else if BackendFresh(cfg, st.backend, call) then ServeEntry(cfg, st, call, false)
    else if RetryPending(cfg, st.retryAt, call) then ServeEntry(cfg, st, call, false)
    else FetchStep(cfg, st.(retryAt := RetryChecked(cfg, st.retryAt, call)), call)
  }

  // ---------- The service object ----------

  class Service {
    const cfg: Config
    var backend: map<string, Entry>
    var policies: map<string, Hot>
    var unavailableRetryAt: map<string, nat>

    ghost function Value(): Caches
      reads this
    {
      Caches(backend, policies, unavailableRetryAt)
    }

    constructor (cfg: Config, backend: map<string, Entry>)
      ensures this.cfg == cfg && Value() == Caches(backend, map[], map[])
    {
      this.cfg := cfg;
      this.backend := backend;
      policies := map[];
      unavailableRetryAt := map[];
    }

    method FreshHotPolicy(call: Call) returns (policy: Option<Policy>)
      ensures policy == if HotFresh(cfg, Value(), call) then Some(policies[call.origin].policy) else None
      ensures policy.Some? <==>
              && call.origin in policies
              && (cfg.ttl.None? || (cfg.ttl.value > 0 && call.now < policies[call.origin].fetchedAt + cfg.ttl.value))
    {
      if call.origin !in policies || Stale(cfg, policies[call.origin].fetchedAt, call.now) {
        return None;
      }
      return Some(policies[call.origin].policy);
    }

    method RememberPolicy(call: Call, entry: Entry)
      modifies this`policies
      ensures policies == Remember(cfg, old(policies), call, entry)
    {
      policies := policies[call.origin := HotOf(cfg.values, entry)];
    }

    method IsUnavailableRetryPending(call: Call) returns (pending: bool)
      modifies this`unavailableRetryAt
      ensures pending == RetryPending(cfg, old(unavailableRetryAt), call)
      ensures unavailableRetryAt == RetryChecked(cfg, old(unavailableRetryAt), call)
    {
      if cfg.retryDelay.None? || call.origin !in unavailableRetryAt {
        assert unavailableRetryAt - {call.origin} == unavailableRetryAt || cfg.retryDelay.None?;
        return false;
      }
      if unavailableRetryAt[call.origin] > call.now {
        return true;
      }
      unavailableRetryAt := unavailableRetryAt - {call.origin};
      return false;
    }

    method RememberUnavailableRetry(call: Call)
      modifies this`unavailableRetryAt
      ensures unavailableRetryAt == RetryNoted(cfg, old(unavailableRetryAt), call)
    {
      if cfg.retryDelay.Some? {
        unavailableRetryAt := unavailableRetryAt[call.origin := SatAdd(call.notedAt, cfg.retryDelay.value)];
      }
    }

    method RunPolicyFor(call: Call) returns (answer: Option<Policy>, fetched: bool)
      modifies this
      ensures PolicyFor(cfg, old(Value()), call) == Done(Value(), answer, fetched)
    {
      fetched := false;
      answer := FreshHotPolicy(call);
      if answer.Some? {
        return;
      }
      if !call.loadOk {
        return None, false;
      }
      var cached := if call.origin in backend then Some(backend[call.origin]) else None;
      if cached.Some? && !Stale(cfg, cached.value.fetchedAt, call.now) {
        RememberPolicy(call, cached.value);
        return Some(PolicyOf(cfg.values, cached.value.stored)), false;
      }
      var pending := IsUnavailableRetryPending(call);
      if pending {
        if cached.Some? {
          RememberPolicy(call, cached.value);
          return Some(PolicyOf(cfg.values, cached.value.stored)), false;
        }
        return Some(FallbackPolicy(cfg, call)), false;
      }
      fetched := true;
      match Classify(call.reply) {
        case Failed =>
          return None, true;
        case Cacheable(stored) =>
          var entry := Entry(call.repliedAt, stored);
          unavailableRetryAt := unavailableRetryAt - {call.origin};
          if !call.saveOk {
            return None, true;
          }
          backend := backend[call.origin := entry];
          RememberPolicy(call, entry);
          return Some(PolicyOf(cfg.values, stored)), true;
        case Unavailable =>
          RememberUnavailableRetry(call);
          if cached.Some? {
            RememberPolicy(call, cached.value);
            return Some(PolicyOf(cfg.values, cached.value.stored)), true;
          }
          return Some(FallbackPolicy(cfg, call)), true;
      }
    }
  }

  // ---------- Coherence ----------

  // Every hot entry is the parsed backend entry of its origin.
  ghost predicate Coherent(cfg: Config, st: Caches) {
    forall o :: o in st.hot ==> o in st.backend && st.hot[o] == HotOf(cfg.values, st.backend[o])
  }

  lemma CallKeepsCoherence(cfg: Config, st: Caches, call: Call)
    requires Coherent(cfg, st)
    ensures Coherent(cfg, PolicyFor(cfg, st, call).state)
  {
  }

  function Serve(cfg: Config, st: Caches, calls: seq<Call>): Caches {
    if calls == [] then st
    else PolicyFor(cfg, Serve(cfg, st, calls[..|calls| - 1]), calls[|calls| - 1]).state
  }

  function Answers(cfg: Config, st: Caches, calls: seq<Call>, k: nat): Done
    requires k < |calls|
  {
    PolicyFor(cfg, Serve(cfg, st, calls[..k]), calls[k])
  }

  lemma {:induction false} RunsKeepCoherence(cfg: Config, st: Caches, calls: seq<Call>)
    requires Coherent(cfg, st)
    ensures Coherent(cfg, Serve(cfg, st, calls))
  {
    if calls != [] {
      RunsKeepCoherence(cfg, st, calls[..|calls| - 1]);
      CallKeepsCoherence(cfg, Serve(cfg, st, calls[..|calls| - 1]), calls[|calls| - 1]);
    }
  }

  // What the backend, or failing that the unavailable policy, has to offer a call.
  function LastKnown(cfg: Config, backend: map<string, Entry>, call: Call): Policy {
    if call.origin in backend then PolicyOf(cfg.values, backend[call.origin].stored) else FallbackPolicy(cfg, call)
  }

  // By the call's clock the backend's entry is younger than the time to live; without one entries never age.
  predicate Usable(cfg: Config, backend: map<string, Entry>, call: Call) {
    && call.origin in backend
    && (cfg.ttl.None? || (cfg.ttl.value > 0 && call.now < backend[call.origin].fetchedAt + cfg.ttl.value))
  }

  // Every answer is the policy of a backend entry younger than the time to live, was fetched in this call, or
  // is the last known policy on the unavailable path.
  ghost predicate Justified(cfg: Config, st: Caches, call: Call, done: Done)
    requires done.answer.Some?
  {
    var p := done.answer.value;
    || (!done.fetched && Usable(cfg, st.backend, call)
        && p == PolicyOf(cfg.values, st.backend[call.origin].stored))
    || (done.fetched && Classify(call.reply).Cacheable? && call.saveOk
        && p == PolicyOf(cfg.values, Classify(call.reply).stored)
        && call.origin in done.state.backend
            && done.state.backend[call.origin] == Entry(call.repliedAt, Classify(call.reply).stored))
    || (p == LastKnown(cfg, st.backend, call)
        && if done.fetched then Classify(call.reply).Unavailable? else RetryPending(cfg, st.retryAt, call))
  }

  // In any sequential run from an empty hot cache, hot entries mirror the backend and answers are justified.
  lemma RunsAreCoherentAndJustified(cfg: Config, backend: map<string, Entry>, retryAt: map<string, nat>,
      calls: seq<Call>, k: nat)
    requires k < |calls|
    ensures var before, done := Serve(cfg, Caches(backend, map[], retryAt), calls[..k]),
                                Answers(cfg, Caches(backend, map[], retryAt), calls, k);
            && Coherent(cfg, before) && Coherent(cfg, done.state)
            && (done.answer.Some? ==> Justified(cfg, before, calls[k], done))
  {
    var start := Caches(backend, map[], retryAt);
    RunsKeepCoherence(cfg, start, calls[..k]);
    CallKeepsCoherence(cfg, Serve(cfg, start, calls[..k]), calls[k]);
  }

  // ---------- The hot cache only saves work ----------

  // The same service without a hot cache.
  function DirectPolicyFor(cfg: Config, st: Caches, call: Call): Done {
    if !call.loadOk then Done(st, None, false)
    else if BackendFresh(cfg, st.backend, call) || RetryPending(cfg, st.retryAt, call) then
      Done(st, Some(LastKnown(cfg, st.backend, call)), false)
    else
      var done := FetchStep(cfg, st.(retryAt := RetryChecked(cfg, st.retryAt, call)), call);
      done.(state := done.state.(hot := st.hot))
  }

  function DirectServe(cfg: Config, st: Caches, calls: seq<Call>): Caches {
    if calls == [] then st
    else DirectPolicyFor(cfg, DirectServe(cfg, st, calls[..|calls| - 1]), calls[|calls| - 1]).state
  }

  ghost predicate SameBacking(a: Caches, b: Caches) {
    a.backend == b.backend && a.retryAt == b.retryAt
  }

  lemma CallIsDirect(cfg: Config, st: Caches, direct: Caches, call: Call)
    requires Coherent(cfg, st) && SameBacking(st, direct)
    ensures var done, plain := PolicyFor(cfg, st, call), DirectPolicyFor(cfg, direct, call);
            && SameBacking(done.state, plain.state) && done.fetched == plain.fetched
            && (done.answer == plain.answer <==> !(HotFresh(cfg, st, call) && !call.loadOk))
  {
  }

  lemma {:induction false} RunsKeepBacking(cfg: Config, st: Caches, direct: Caches, calls: seq<Call>)
    requires Coherent(cfg, st) && SameBacking(st, direct)
    ensures SameBacking(Serve(cfg, st, calls), DirectServe(cfg, direct, calls)) && Coherent(cfg, Serve(cfg, st, calls))
  {
    if calls != [] {
      var front, last := calls[..|calls| - 1], calls[|calls| - 1];
      RunsKeepBacking(cfg, st, direct, front);
      CallIsDirect(cfg, Serve(cfg, st, front), DirectServe(cfg, direct, front), last);
      CallKeepsCoherence(cfg, Serve(cfg, st, front), last);
    }
  }

  // Over any run the service fetches the same, stores the same and answers the same as it would without a
  // hot cache; it differs exactly where a fresh hot entry hides a failing backend.
  lemma HotCacheIsTransparent(cfg: Config, backend: map<string, Entry>, retryAt: map<string, nat>, calls: seq<Call>,
      k: nat)
    requires k < |calls|
    ensures var start := Caches(backend, map[], retryAt);
            var before, done := Serve(cfg, start, calls[..k]), Answers(cfg, start, calls, k);
            var plain := DirectPolicyFor(cfg, DirectServe(cfg, start, calls[..k]), calls[k]);
            && SameBacking(done.state, plain.state) && done.fetched == plain.fetched
            && (done.answer == plain.answer <==> !(HotFresh(cfg, before, calls[k]) && !calls[k].loadOk))
  {
    var start := Caches(backend, map[], retryAt);
    RunsKeepBacking(cfg, start, start, calls[..k]);
    CallIsDirect(cfg, Serve(cfg, start, calls[..k]), DirectServe(cfg, start, calls[..k]), calls[k]);
  }

  // ---------- Back-off while robots.txt is unavailable ----------

  // A call fetches exactly when it can read the backend, finds no entry younger than the time to live and its
  // clock has reached any retry deadline.
  lemma FetchesExactlyWhen(cfg: Config, st: Caches, call: Call)
    requires Coherent(cfg, st)
    ensures PolicyFor(cfg, st, call).fetched
       <==> && call.loadOk && !Usable(cfg, st.backend, call)
            && (cfg.retryDelay.Some? && call.origin in st.retryAt ==> st.retryAt[call.origin] <= call.now)
  {
  }

  // A call ends in an error exactly when the backend cannot be read and no usable hot policy is at hand, or when it
  // fetches and there is no client, or the reply settles the policy and the backend does not take it.
  lemma FailsExactlyWhen(cfg: Config, st: Caches, call: Call)
    requires Coherent(cfg, st)
    ensures var done := PolicyFor(cfg, st, call);
            done.answer.None?
            <==> || (!call.loadOk && !(call.origin in st.hot && Usable(cfg, st.backend, call)))
                 || (done.fetched && (call.reply.NoClient? || (!call.saveOk && Settles(call.reply))))
  {
  }

  // What the caches hold for an origin.
  function Of(st: Caches, origin: string): (Option<Entry>, Option<Hot>, Option<nat>) {
    (if origin in st.backend then Some(st.backend[origin]) else None,
     if origin in st.hot then Some(st.hot[origin]) else None,
     if origin in st.retryAt then Some(st.retryAt[origin]) else None)
  }

  // What a call leaves behind for its origin: the reply it kept, and the retry deadline, which a reply that speaks
  // for itself clears and any other failure to fetch sets anew.  Other origins are left alone.
  lemma CallSettlesItsOrigin(cfg: Config, st: Caches, call: Call, other: string)
    ensures var done, origin := PolicyFor(cfg, st, call), call.origin;
            && (done.fetched && Settles(call.reply) ==> origin !in done.state.retryAt)
            && (done.fetched && !Settles(call.reply) && !call.reply.NoClient? && cfg.retryDelay.Some? ==>
                  && origin in done.state.retryAt
                  && done.state.retryAt[origin] == SatAdd(call.notedAt, cfg.retryDelay.value))
            && (!done.fetched ==> done.state.retryAt == st.retryAt)
            && if done.fetched && Settles(call.reply) && call.saveOk
               then origin in done.state.backend && done.state.backend[origin].fetchedAt == call.repliedAt
               else done.state.backend == st.backend
    ensures other != call.origin ==> Of(PolicyFor(cfg, st, call).state, other) == Of(st, other)
  {
  }

  // The origin is backing off until a deadline, and its backend entry is the given one.
  ghost predicate BackingOff(cfg: Config, st: Caches, origin: string, until: nat, entry: Option<Entry>) {
    && Coherent(cfg, st)
    && cfg.retryDelay.Some? && origin in st.retryAt && st.retryAt[origin] == until
    && entry == if origin in st.backend then Some(st.backend[origin]) else None
  }

  // A call that reads the backend, finds nothing younger than the time to live, and does so at the deadline or
  // after it.
  predicate Reaches(cfg: Config, backend: map<string, Entry>, origin: string, until: nat, call: Call) {
    call.origin == origin && call.loadOk && !Usable(cfg, backend, call) && until <= call.now
  }

  ghost predicate NoneReaches(cfg: Config, backend: map<string, Entry>, origin: string, until: nat, calls: seq<Call>) {
    forall k :: 0 <= k < |calls| ==> !Reaches(cfg, backend, origin, until, calls[k])
  }

  ghost predicate NoneFetches(cfg: Config, st: Caches, origin: string, calls: seq<Call>) {
    forall k :: 0 <= k < |calls| && calls[k].origin == origin ==> !Answers(cfg, st, calls, k).fetched
  }

  // While an origin backs off, the calls for it that fetch are those that reach the deadline.
  lemma BackOffStep(cfg: Config, st: Caches, origin: string, until: nat, entry: Option<Entry>, call: Call)
    requires BackingOff(cfg, st, origin, until, entry)
    ensures call.origin == origin ==>
            (PolicyFor(cfg, st, call).fetched <==> Reaches(cfg, st.backend, origin, until, call))
    ensures !Reaches(cfg, st.backend, origin, until, call) ==>
              BackingOff(cfg, PolicyFor(cfg, st, call).state, origin, until, entry)
  {
    CallKeepsCoherence(cfg, st, call);
  }

  lemma {:induction false} BackOffRun(cfg: Config, st: Caches, origin: string, until: nat, entry: Option<Entry>,
      calls: seq<Call>)
    requires BackingOff(cfg, st, origin, until, entry) && NoneReaches(cfg, st.backend, origin, until, calls)
    ensures BackingOff(cfg, Serve(cfg, st, calls), origin, until, entry)
  {
    if calls != [] {
      var front, last := calls[..|calls| - 1], calls[|calls| - 1];
      assert forall i :: 0 <= i < |front| ==> front[i] == calls[i];
      BackOffRun(cfg, st, origin, until, entry, front);
      BackOffStep(cfg, Serve(cfg, st, front), origin, until, entry, last);
    }
  }

  // Whatever the clocks, the first call for the origin to fetch is the first to reach the deadline.
  lemma FirstFetchReaches(cfg: Config, st: Caches, origin: string, until: nat, entry: Option<Entry>, calls: seq<Call>,
      k: nat)
    requires BackingOff(cfg, st, origin, until, entry) && k < |calls| && calls[k].origin == origin
    requires NoneReaches(cfg, st.backend, origin, until, calls[..k])
    ensures Answers(cfg, st, calls, k).fetched <==> Reaches(cfg, st.backend, origin, until, calls[k])
  {
    BackOffRun(cfg, st, origin, until, entry, calls[..k]);
    BackOffStep(cfg, Serve(cfg, st, calls[..k]), origin, until, entry, calls[k]);
  }

  // If no call up to k fetches then none of them reaches the deadline.
  lemma {:induction false} UnfetchedAreShort(
      cfg: Config, st: Caches, origin: string, until: nat, entry: Option<Entry>, calls: seq<Call>, k: nat)
    requires BackingOff(cfg, st, origin, until, entry) && k <= |calls| && NoneFetches(cfg, st, origin, calls)
    ensures NoneReaches(cfg, st.backend, origin, until, calls[..k])
  {
    if k > 0 {
      UnfetchedAreShort(cfg, st, origin, until, entry, calls, k - 1);
      if calls[k - 1].origin == origin {
        FirstFetchReaches(cfg, st, origin, until, entry, calls, k - 1);
        assert !Answers(cfg, st, calls, k - 1).fetched;
      }
      assert !Reaches(cfg, st.backend, origin, until, calls[k - 1]);
      assert calls[..k] == calls[..k - 1] + [calls[k - 1]];
    }
  }

  lemma BackingOffHoldsExactlyWhen(cfg: Config, st: Caches, origin: string, until: nat, entry: Option<Entry>,
      calls: seq<Call>)
    requires BackingOff(cfg, st, origin, until, entry)
    ensures NoneFetches(cfg, st, origin, calls) <==> NoneReaches(cfg, st.backend, origin, until, calls)
  {
    if NoneFetches(cfg, st, origin, calls) {
      UnfetchedAreShort(cfg, st, origin, until, entry, calls, |calls|);
      assert calls[..|calls|] == calls;
    }
    if NoneReaches(cfg, st.backend, origin, until, calls) {
      forall k | 0 <= k < |calls| && calls[k].origin == origin
        ensures !Answers(cfg, st, calls, k).fetched
      {
        assert forall i :: 0 <= i < k ==> calls[..k][i] == calls[i];
        FirstFetchReaches(cfg, st, origin, until, entry, calls, k);
      }
    }
  }

  ghost predicate FailsToFetch(cfg: Config, st: Caches, failed: Call) {
    && Coherent(cfg, st) && cfg.retryDelay.Some?
    && PolicyFor(cfg, st, failed).fetched && Classify(failed.reply).Unavailable?
  }

  function RetryAt(cfg: Config, failed: Call): nat
    requires cfg.retryDelay.Some?
  {
    SatAdd(failed.notedAt, cfg.retryDelay.value)
  }

  lemma FailureBacksOff(cfg: Config, st: Caches, failed: Call) returns (entry: Option<Entry>)
    requires FailsToFetch(cfg, st, failed)
    ensures entry == if failed.origin in st.backend then Some(st.backend[failed.origin]) else None
    ensures var noted := PolicyFor(cfg, st, failed).state;
            noted.backend == st.backend && BackingOff(cfg, noted, failed.origin, RetryAt(cfg, failed), entry)
  {
    entry := if failed.origin in st.backend then Some(st.backend[failed.origin]) else None;
    CallKeepsCoherence(cfg, st, failed);
  }

  // After a failed fetch no call for the origin fetches if and only if none both finds nothing within its
  // time to live and reads the clock at the failure plus the delay or later.  No order of clocks is assumed.
  lemma BackOffHoldsExactlyWhen(cfg: Config, st: Caches, failed: Call, later: seq<Call>)
    requires FailsToFetch(cfg, st, failed)
    ensures NoneFetches(cfg, PolicyFor(cfg, st, failed).state, failed.origin, later)
       <==> NoneReaches(cfg, st.backend, failed.origin, RetryAt(cfg, failed), later)
  {
    var entry := FailureBacksOff(cfg, st, failed);
    BackingOffHoldsExactlyWhen(cfg, PolicyFor(cfg, st, failed).state, failed.origin, RetryAt(cfg, failed), entry,
        later);
  }

  // A call after a failed fetch, none before it having reached the deadline: it fetches exactly when it
  // reaches the deadline itself, and otherwise answers with the policy cached when the fetch failed, or with
  // its unavailable policy if there was none.
  lemma FailedFetchBacksOff(cfg: Config, st: Caches, failed: Call, later: seq<Call>, k: nat)
    requires FailsToFetch(cfg, st, failed) && k < |later| && later[k].origin == failed.origin
    requires NoneReaches(cfg, st.backend, failed.origin, RetryAt(cfg, failed), later[..k])
    ensures var done := Answers(cfg, PolicyFor(cfg, st, failed).state, later, k);
            && (done.fetched <==> Reaches(cfg, st.backend, failed.origin, RetryAt(cfg, failed), later[k]))
            && (!done.fetched ==>
                  done.answer == Some(LastKnown(cfg, st.backend, later[k])) || (done.answer.None? && !later[k].loadOk))
  {
    var entry := FailureBacksOff(cfg, st, failed);
    var noted := PolicyFor(cfg, st, failed).state;
    FirstFetchReaches(cfg, noted, failed.origin, RetryAt(cfg, failed), entry, later, k);
    BackOffRun(cfg, noted, failed.origin, RetryAt(cfg, failed), entry, later[..k]);
  }

  ghost predicate ClockMoves(calls: seq<Call>) {
    forall i, j :: 0 <= i < j < |calls| ==> calls[i].now <= calls[j].now
  }

  // With a clock that never runs backwards, no call inside the window fetches.
  lemma OrderedClocksBackOff(cfg: Config, st: Caches, failed: Call, later: seq<Call>, k: nat)
    requires FailsToFetch(cfg, st, failed) && ClockMoves(later) && k < |later|
    requires later[k].origin == failed.origin && later[k].now < RetryAt(cfg, failed)
    ensures var done := Answers(cfg, PolicyFor(cfg, st, failed).state, later, k);
            && !done.fetched
            && (done.answer == Some(LastKnown(cfg, st.backend, later[k])) || (done.answer.None? && !later[k].loadOk))
  {
    forall i | 0 <= i < k
      ensures !Reaches(cfg, st.backend, failed.origin, RetryAt(cfg, failed), later[..k][i])
    {
      assert later[..k][i] == later[i] && later[i].now <= later[k].now;
    }
    FailedFetchBacksOff(cfg, st, failed, later, k);
  }

  // A clock that runs backwards across the deadline does break the window: a call reading a late clock clears
  // the deadline, and a following call reading an earlier clock fetches inside it.
  lemma BackwardClockBreaksBackOff(values: Values)
    ensures exists cfg: Config, failed: Call, later: seq<Call> ::
              var noted := PolicyFor(cfg, Caches(map[], map[], map[]), failed);
              && noted.fetched && Classify(failed.reply).Unavailable? && cfg.retryDelay == Some(60) && |later| == 2
              && later[1].origin == failed.origin && later[1].now < failed.notedAt + 60
              && Answers(cfg, noted.state, later, 1).fetched
  {
    var cfg := Config(values, None, AllowAll, Some(60));
    var failed := Call("o", 100, None, true, SendFailed, 100, 100, true);
    var late, early := failed.(now := 200, reply := NoClient), failed.(now := 120);
    var later := [late, early];
    var noted := PolicyFor(cfg, Caches(map[], map[], map[]), failed);
    assert noted.state == Caches(map[], map[], map["o" := 160]);
    var cleared := PolicyFor(cfg, noted.state, late).state;
    assert cleared.retryAt == map[];
    assert later[..1] == [late] && [late][..0] == [];
    assert Serve(cfg, noted.state, []) == noted.state;
    assert Serve(cfg, noted.state, [late]) == cleared;
    assert PolicyFor(cfg, cleared, early).fetched;
    assert Answers(cfg, noted.state, later, 1).fetched;
  }
}
