/**
 Concurrent `policy_for` calls (src/robots.rs): each call takes one step per lock it holds or await it
 crosses, and steps of different calls interleave freely.
 */
module PolicyInterleaving {
  import opened Prelude
  import opened PolicyCache

  // Where a call stands, with what it carries along.
  datatype Process =
    | Idle
    | Loading(call: Call)
    | Checking(call: Call, cached: Option<Entry>)
    | Fetching(call: Call, cached: Option<Entry>)
    | Clearing(call: Call, entry: Entry)
    | Saving(call: Call, entry: Entry)
    | Noting(call: Call, cached: Option<Entry>)
    | Storing(call: Call, entry: Entry)

  // The last answer a process gave, with the call it answered; no policy stands for an error.
  datatype Given = Given(call: Call, policy: Option<Policy>)

  datatype System = System(caches: Caches, processes: map<nat, Process>, answers: map<nat, Given>)

  function Held(backend: map<string, Entry>, origin: string): Option<Entry> {
    if origin in backend then Some(backend[origin]) else None
  }

  function At(sys: System, p: nat): Process {
    if p in sys.processes then sys.processes[p] else Idle
  }

  // What one step leaves behind: the shared caches, the process, and an answer when the call ends.
  datatype Turn = Turn(caches: Caches, next: Process, answer: Option<Given>)

  function Go(caches: Caches, next: Process): Turn {
    Turn(caches, next, None)
  }

  function End(caches: Caches, call: Call, answer: Option<Policy>): Turn {
    Turn(caches, Idle, Some(Given(call, answer)))
  }

  // The next step of a process; an idle one starts the given call with its look at the hot cache.
  function Advance(cfg: Config, caches: Caches, process: Process, start: Call): Turn {
    match process
    case Idle =>
      if HotFresh(cfg, caches, start) then End(caches, start, Some(caches.hot[start.origin].policy))
      else Go(caches, Loading(start))
    case Loading(call) =>
      if !call.loadOk then End(caches, call, None)
      else if BackendFresh(cfg, caches.backend, call) then Go(caches, Storing(call, caches.backend[call.origin]))
      else Go(caches, Checking(call, Held(caches.backend, call.origin)))
    case Checking(call, cached) =>
      var checked := caches.(retryAt := RetryChecked(cfg, caches.retryAt, call));
      if !RetryPending(cfg, caches.retryAt, call) then Go(checked, Fetching(call, cached))
      else if cached.Some? then Go(checked, Storing(call, cached.value))
      else End(checked, call, Some(FallbackPolicy(cfg, call)))
    case Fetching(call, cached) =>
      match Classify(call.reply) {
        case Failed => End(caches, call, None)
        case Unavailable => Go(caches, Noting(call, cached))
        case Cacheable(stored) => Go(caches, Clearing(call, Entry(call.repliedAt, stored)))
      }
    case Clearing(call, entry) => Go(caches.(retryAt := caches.retryAt - {call.origin}), Saving(call, entry))
    case Saving(call, entry) =>
      if !call.saveOk then End(caches, call, None)
      else Go(caches.(backend := caches.backend[call.origin := entry]), Storing(call, entry))
    case Noting(call, cached) =>
      var noted := caches.(retryAt := RetryNoted(cfg, caches.retryAt, call));
      if cached.Some? then Go(noted, Storing(call, cached.value)) else End(noted, call, Some(FallbackPolicy(cfg, call)))
    case Storing(call, entry) =>
      End(caches.(hot := Remember(cfg, caches.hot, call, entry)), call, Some(PolicyOf(cfg.values, entry.stored)))
  }

  function Apply(sys: System, p: nat, turn: Turn): System {
    System(turn.caches, sys.processes[p := turn.next],
           if turn.answer.Some? then sys.answers[p := turn.answer.value] else sys.answers)
  }

  function Act(cfg: Config, sys: System, p: nat, start: Call): System {
    Apply(sys, p, Advance(cfg, sys.caches, At(sys, p), start))
  }

  datatype Action = Action(p: nat, start: Call)

  function Exec(cfg: Config, sys: System, actions: seq<Action>): System {
    if actions == [] then sys
    else
      var last := actions[|actions| - 1];
      Act(cfg, Exec(cfg, sys, actions[..|actions| - 1]), last.p, last.start)
  }

  // ---------- A call that is not interrupted is one sequential call ----------

  function Alone(cfg: Config, sys: System, p: nat, call: Call, steps: nat): System
    decreases steps
  {
    if steps == 0 then sys else Alone(cfg, Act(cfg, sys, p, call), p, call, steps - 1)
  }

  // How many steps a call takes.
  function Steps(cfg: Config, caches: Caches, call: Call): nat {
    if HotFresh(cfg, caches, call) then 1
    else if !call.loadOk then 2
    else if BackendFresh(cfg, caches.backend, call) then 3
    else if RetryPending(cfg, caches.retryAt, call) then (if call.origin in caches.backend then 4 else 3)
    else
      match Classify(call.reply)
      case Failed => 4
      case Unavailable => if call.origin in caches.backend then 6 else 5
      case Cacheable(_) => if call.saveOk then 7 else 6
  }

  ghost predicate Finished(sys: System, p: nat, call: Call, done: Done) {
    var answer := if p in sys.answers then Some(sys.answers[p]) else None;
    (sys.caches, At(sys, p), answer) == (done.state, Idle, Some(Given(call, done.answer)))
  }

  lemma AloneStep(cfg: Config, sys: System, p: nat, call: Call, steps: nat)
    requires steps > 0
    ensures Alone(cfg, sys, p, call, steps) == Alone(cfg, Act(cfg, sys, p, call), p, call, steps - 1)
  {
  }

  lemma UnavailableAlone(cfg: Config, sys: System, p: nat, call: Call)
    requires At(sys, p) == Fetching(call, Held(sys.caches.backend, call.origin)) && Classify(call.reply).Unavailable?
    ensures var n := if call.origin in sys.caches.backend then 3 else 2;
            Finished(Alone(cfg, sys, p, call, n), p, call, FetchStep(cfg, sys.caches, call))
  {
    var n := if call.origin in sys.caches.backend then 3 else 2;
    var s1 := Act(cfg, sys, p, call);
    var s2 := Act(cfg, s1, p, call);
    AloneStep(cfg, sys, p, call, n);
    AloneStep(cfg, s1, p, call, n - 1);
    if n == 3 {
      AloneStep(cfg, s2, p, call, 1);
    }
  }

  lemma CacheableAlone(cfg: Config, sys: System, p: nat, call: Call)
    requires At(sys, p) == Fetching(call, Held(sys.caches.backend, call.origin)) && Classify(call.reply).Cacheable?
    ensures var n := if call.saveOk then 4 else 3;
            Finished(Alone(cfg, sys, p, call, n), p, call, FetchStep(cfg, sys.caches, call))
  {
    var n := if call.saveOk then 4 else 3;
    var s1 := Act(cfg, sys, p, call);
    var s2 := Act(cfg, s1, p, call);
    var s3 := Act(cfg, s2, p, call);
    AloneStep(cfg, sys, p, call, n);
    AloneStep(cfg, s1, p, call, n - 1);
    AloneStep(cfg, s2, p, call, n - 2);
    if n == 4 {
      AloneStep(cfg, s3, p, call, 1);
    }
  }

  lemma FetchAlone(cfg: Config, sys: System, p: nat, call: Call)
    requires At(sys, p) == Fetching(call, Held(sys.caches.backend, call.origin))
    ensures var n := match Classify(call.reply)
                     case Failed => 1
                     case Unavailable => if call.origin in sys.caches.backend then 3 else 2
                     case Cacheable(_) => if call.saveOk then 4 else 3;
            Finished(Alone(cfg, sys, p, call, n), p, call, FetchStep(cfg, sys.caches, call))
  {
    match Classify(call.reply) {
      case Failed => AloneStep(cfg, sys, p, call, 1);
      case Unavailable => UnavailableAlone(cfg, sys, p, call);
      case Cacheable(_) => CacheableAlone(cfg, sys, p, call);
    }
  }

  // Run without interruption, the steps of a call have exactly the effect of the sequential call.
  lemma UninterruptedCallIsSequential(cfg: Config, sys: System, p: nat, call: Call)
    requires At(sys, p) == Idle
    ensures Finished(Alone(cfg, sys, p, call, Steps(cfg, sys.caches, call)), p, call, PolicyFor(cfg, sys.caches, call))
  {
    var n := Steps(cfg, sys.caches, call);
    var s1 := Act(cfg, sys, p, call);
    AloneStep(cfg, sys, p, call, n);
    if !HotFresh(cfg, sys.caches, call) {
      var s2 := Act(cfg, s1, p, call);
      AloneStep(cfg, s1, p, call, n - 1);
      if call.loadOk {
        var s3 := Act(cfg, s2, p, call);
        AloneStep(cfg, s2, p, call, n - 2);
        if BackendFresh(cfg, sys.caches.backend, call) {
        } else if RetryPending(cfg, sys.caches.retryAt, call) {
          if call.origin in sys.caches.backend {
            AloneStep(cfg, s3, p, call, 1);
          }
        } else {
          FetchAlone(cfg, s3, p, call);
        }
      }
    }
  }

  // ---------- Every hot entry was once in the backend ----------

  // At some point of the run the backend held the entry for the origin.
  ghost predicate Was(cfg: Config, sys: System, actions: seq<Action>, origin: string, entry: Entry) {
    exists i :: 0 <= i <= |actions| && HeldAt(cfg, sys, actions, i, origin, entry)
  }

  ghost predicate HeldAt(cfg: Config, sys: System, actions: seq<Action>, i: nat, origin: string, entry: Entry)
    requires i <= |actions|
  {
    var backend := Exec(cfg, sys, actions[..i]).caches.backend;
    origin in backend && backend[origin] == entry
  }

  // The entry a process carries, with the origin it is for.
  function Carried(process: Process): Option<(string, Entry)> {
    match process
    case Checking(call, cached) => if cached.Some? then Some((call.origin, cached.value)) else None
    case Fetching(call, cached) => if cached.Some? then Some((call.origin, cached.value)) else None
    case Noting(call, cached) => if cached.Some? then Some((call.origin, cached.value)) else None
    case Storing(call, entry) => Some((call.origin, entry))
    case _ => None
  }

  ghost predicate Carries(cfg: Config, sys: System, actions: seq<Action>, process: Process) {
    var carried := Carried(process);
    carried.Some? ==> Was(cfg, sys, actions, carried.value.0, carried.value.1)
  }

  // An answer is an error, the parsed form of an entry the backend once held for the call's origin, or the
  // unavailable policy that applies to the call.
  ghost predicate Sourced(cfg: Config, sys: System, actions: seq<Action>, given: Given) {
    given.policy.Some? ==>
      || (exists e ::
            Was(cfg, sys, actions, given.call.origin, e) && given.policy.value == PolicyOf(cfg.values, e.stored))
      || given.policy.value == FallbackPolicy(cfg, given.call)
  }

  ghost predicate Traced(cfg: Config, sys: System, actions: seq<Action>) {
    var now := Exec(cfg, sys, actions);
    && (forall o :: o in now.caches.hot ==>
          exists e :: Was(cfg, sys, actions, o, e) && now.caches.hot[o] == HotOf(cfg.values, e))
    && (forall p :: p in now.processes ==> Carries(cfg, sys, actions, now.processes[p]))
    && (forall p :: p in now.answers ==> Sourced(cfg, sys, actions, now.answers[p]))
  }

  lemma WasStays(cfg: Config, sys: System, actions: seq<Action>, next: Action, origin: string, entry: Entry)
    requires Was(cfg, sys, actions, origin, entry)
    ensures Was(cfg, sys, actions + [next], origin, entry)
  {
    var i :| 0 <= i <= |actions| && HeldAt(cfg, sys, actions, i, origin, entry);
    assert (actions + [next])[..i] == actions[..i];
    assert HeldAt(cfg, sys, actions + [next], i, origin, entry);
  }

  lemma NowWas(cfg: Config, sys: System, actions: seq<Action>, origin: string, entry: Entry)
    requires var backend := Exec(cfg, sys, actions).caches.backend; origin in backend && backend[origin] == entry
    ensures Was(cfg, sys, actions, origin, entry)
  {
    assert actions[..|actions|] == actions;
    assert HeldAt(cfg, sys, actions, |actions|, origin, entry);
  }

  lemma CarriesStays(cfg: Config, sys: System, actions: seq<Action>, next: Action, process: Process)
    requires Carries(cfg, sys, actions, process)
    ensures Carries(cfg, sys, actions + [next], process)
  {
    var carried := Carried(process);
    if carried.Some? {
      WasStays(cfg, sys, actions, next, carried.value.0, carried.value.1);
    }
  }

  // What a process carries after its step it carried before, or the backend held it, or holds it now.
  lemma CarriedAfter(cfg: Config, caches: Caches, process: Process, start: Call)
    ensures var turn := Advance(cfg, caches, process, start);
            var carried := Carried(turn.next);
            carried.Some? ==>
              || carried == Carried(process)
              || Held(caches.backend, carried.value.0) == Some(carried.value.1)
              || Held(turn.caches.backend, carried.value.0) == Some(carried.value.1)
  {
  }

  // The process that moved carries only what the backend held.
  lemma MoverCarries(cfg: Config, sys: System, actions: seq<Action>, next: Action)
    requires Traced(cfg, sys, actions)
    ensures Carries(cfg, sys, actions + [next], At(Exec(cfg, sys, actions + [next]), next.p))
  {
    var before, after := Exec(cfg, sys, actions), actions + [next];
    assert after[..|actions|] == actions;
    var process := At(before, next.p);
    var turn := Advance(cfg, before.caches, process, next.start);
    CarriesStays(cfg, sys, actions, next, process);
    CarriedAfter(cfg, before.caches, process, next.start);
    var carried := Carried(turn.next);
    if carried.Some? {
      var (origin, entry) := carried.value;
      if Held(before.caches.backend, origin) == Some(entry) {
        NowWas(cfg, sys, actions, origin, entry);
        WasStays(cfg, sys, actions, next, origin, entry);
      } else if Held(turn.caches.backend, origin) == Some(entry) {
        NowWas(cfg, sys, after, origin, entry);
      }
    }
  }

  lemma OthersCarry(cfg: Config, sys: System, actions: seq<Action>, next: Action, p: nat)
    requires Traced(cfg, sys, actions) && p != next.p && p in Exec(cfg, sys, actions + [next]).processes
    ensures Carries(cfg, sys, actions + [next], Exec(cfg, sys, actions + [next]).processes[p])
  {
    var before := Exec(cfg, sys, actions);
    assert (actions + [next])[..|actions|] == actions;
    CarriesStays(cfg, sys, actions, next, before.processes[p]);
  }

  lemma HotChanges(cfg: Config, caches: Caches, process: Process, start: Call, o: string)
    requires o in Advance(cfg, caches, process, start).caches.hot
    ensures var hot := Advance(cfg, caches, process, start).caches.hot;
            if process.Storing? && o == process.call.origin then hot[o] == HotOf(cfg.values, process.entry)
            else o in caches.hot && hot[o] == caches.hot[o]
  {
  }

  lemma HotIsTraced(cfg: Config, sys: System, actions: seq<Action>, next: Action, o: string) returns (e: Entry)
    requires Traced(cfg, sys, actions) && o in Exec(cfg, sys, actions + [next]).caches.hot
    ensures Was(cfg, sys, actions + [next], o, e)
    ensures Exec(cfg, sys, actions + [next]).caches.hot[o] == HotOf(cfg.values, e)
  {
    var before := Exec(cfg, sys, actions);
    assert (actions + [next])[..|actions|] == actions;
    var mover := At(before, next.p);
    HotChanges(cfg, before.caches, mover, next.start, o);
    if mover.Storing? && o == mover.call.origin {
      e := mover.entry;
    } else {
      e :| Was(cfg, sys, actions, o, e) && before.caches.hot[o] == HotOf(cfg.values, e);
    }
    WasStays(cfg, sys, actions, next, o, e);
  }

  lemma SourcedStays(cfg: Config, sys: System, actions: seq<Action>, next: Action, given: Given)
    requires Sourced(cfg, sys, actions, given)
    ensures Sourced(cfg, sys, actions + [next], given)
  {
    if given.policy.Some? && given.policy.value != FallbackPolicy(cfg, given.call) {
      var e :| Was(cfg, sys, actions, given.call.origin, e) && given.policy.value == PolicyOf(cfg.values, e.stored);
      WasStays(cfg, sys, actions, next, given.call.origin, e);
    }
  }

  // The policy a step answers with comes from a hot entry, from the entry a process carries, or from the call.
  lemma PolicyGiven(cfg: Config, caches: Caches, process: Process, start: Call)
    requires var answer := Advance(cfg, caches, process, start).answer; answer.Some? && answer.value.policy.Some?
    ensures var given := Advance(cfg, caches, process, start).answer.value;
            || (given.call.origin in caches.hot && given.policy.value == caches.hot[given.call.origin].policy)
            || (process.Storing? && process.call == given.call
                && given.policy.value == PolicyOf(cfg.values, process.entry.stored))
            || given.policy.value == FallbackPolicy(cfg, given.call)
  {
  }

  lemma AnswerIsSourced(cfg: Config, sys: System, actions: seq<Action>, next: Action)
    requires Traced(cfg, sys, actions)
    ensures var turn := Advance(cfg, Exec(cfg, sys, actions).caches, At(Exec(cfg, sys, actions), next.p), next.start);
            turn.answer.Some? ==> Sourced(cfg, sys, actions, turn.answer.value)
  {
    var before := Exec(cfg, sys, actions);
    var mover := At(before, next.p);
    var answer := Advance(cfg, before.caches, mover, next.start).answer;
    if answer.Some? && answer.value.policy.Some? {
      var given := answer.value;
      PolicyGiven(cfg, before.caches, mover, next.start);
      if mover.Storing? && mover.call == given.call && given.policy.value == PolicyOf(cfg.values, mover.entry.stored) {
        assert Carries(cfg, sys, actions, mover);
      } else if given.policy.value != FallbackPolicy(cfg, given.call) {
        var o := given.call.origin;
        var e :| Was(cfg, sys, actions, o, e) && before.caches.hot[o] == HotOf(cfg.values, e);
      }
    }
  }

  lemma ActIsTraced(cfg: Config, sys: System, actions: seq<Action>, next: Action)
    requires Traced(cfg, sys, actions)
    ensures Traced(cfg, sys, actions + [next])
  {
    var now := Exec(cfg, sys, actions + [next]);
    forall p | p in now.processes
      ensures Carries(cfg, sys, actions + [next], now.processes[p])
    {
      if p == next.p {
        MoverCarries(cfg, sys, actions, next);
      } else {
        OthersCarry(cfg, sys, actions, next, p);
      }
    }
    forall o | o in now.caches.hot
      ensures exists e :: Was(cfg, sys, actions + [next], o, e) && now.caches.hot[o] == HotOf(cfg.values, e)
    {
      var e := HotIsTraced(cfg, sys, actions, next, o);
    }
    var before := Exec(cfg, sys, actions);
    assert (actions + [next])[..|actions|] == actions;
    AnswerIsSourced(cfg, sys, actions, next);
    forall p | p in now.answers
      ensures Sourced(cfg, sys, actions + [next], now.answers[p])
    {
      if p in before.answers && now.answers[p] == before.answers[p] {
        SourcedStays(cfg, sys, actions, next, before.answers[p]);
      } else {
        SourcedStays(cfg, sys, actions, next, now.answers[p]);
      }
    }
  }

  function Fresh(backend: map<string, Entry>, retryAt: map<string, nat>): System {
    System(Caches(backend, map[], retryAt), map[], map[])
  }

  lemma {:induction false} RunsAreTraced(cfg: Config, start: System, actions: seq<Action>)
    requires start.caches.hot == map[] && start.processes == map[] && start.answers == map[]
    ensures Traced(cfg, start, actions)
  {
    if actions != [] {
      var front, last := actions[..|actions| - 1], actions[|actions| - 1];
      assert actions == front + [last];
      RunsAreTraced(cfg, start, front);
      ActIsTraced(cfg, start, front, last);
    }
  }

  // In every interleaving each hot entry is the parsed form of an entry the backend once held for it.
  lemma HotEntriesWereStored(
      cfg: Config, backend: map<string, Entry>, retryAt: map<string, nat>, actions: seq<Action>, origin: string)
    ensures var start := Fresh(backend, retryAt);
            var hot := Exec(cfg, start, actions).caches.hot;
            origin in hot ==> exists e :: Was(cfg, start, actions, origin, e) && hot[origin] == HotOf(cfg.values, e)
  {
    RunsAreTraced(cfg, Fresh(backend, retryAt), actions);
  }

  // In every interleaving each answer is an error, the parsed form of an entry the backend once held for the
  // origin asked for, or the unavailable policy that applies to the call.
  lemma AnswersWereStored(cfg: Config, backend: map<string, Entry>, retryAt: map<string, nat>, actions: seq<Action>,
      p: nat)
    requires p in Exec(cfg, Fresh(backend, retryAt), actions).answers
    ensures Sourced(cfg, Fresh(backend, retryAt), actions, Exec(cfg, Fresh(backend, retryAt), actions).answers[p])
  {
    RunsAreTraced(cfg, Fresh(backend, retryAt), actions);
  }

  // ---------- When interleaved calls keep the caches coherent ----------

  // The guard of a step: storing must store what the backend holds, and saving must not leave another hot
  // entry behind.
  predicate KeepsStep(cfg: Config, caches: Caches, process: Process) {
    match process
    case Storing(call, entry) =>
      call.origin in caches.backend && HotOf(cfg.values, entry) == HotOf(cfg.values, caches.backend[call.origin])
    case Saving(call, entry) =>
      call.saveOk && call.origin in caches.hot ==> caches.hot[call.origin] == HotOf(cfg.values, entry)
    case _ => true
  }

  lemma StepKeepsCoherenceExactlyWhen(cfg: Config, sys: System, p: nat, start: Call)
    requires Coherent(cfg, sys.caches)
    ensures Coherent(cfg, Act(cfg, sys, p, start).caches) <==> KeepsStep(cfg, sys.caches, At(sys, p))
  {
    var process, next := At(sys, p), Act(cfg, sys, p, start).caches;
    match process {
      case Storing(call, entry) =>
        assert call.origin in next.hot && next.hot[call.origin] == HotOf(cfg.values, entry);
      case Saving(call, entry) =>
        if call.saveOk {
          assert next.backend[call.origin] == entry;
        }
      case _ =>
    }
  }

  // The entry the last store of the run put into the hot cache for an origin.
  function LastStored(cfg: Config, sys: System, actions: seq<Action>, origin: string): Option<Entry> {
    if actions == [] then None
    else
      var front, last := actions[..|actions| - 1], actions[|actions| - 1];
      var mover := At(Exec(cfg, sys, front), last.p);
      if mover.Storing? && mover.call.origin == origin then Some(mover.entry) else LastStored(cfg, sys, front, origin)
  }

  // The entry the last save of the run wrote for an origin, or what the backend held at the start.
  function LastSaved(cfg: Config, sys: System, actions: seq<Action>, origin: string): Option<Entry> {
    if actions == [] then Held(sys.caches.backend, origin)
    else
      var front, last := actions[..|actions| - 1], actions[|actions| - 1];
      var mover := At(Exec(cfg, sys, front), last.p);
      if mover.Saving? && mover.call.saveOk && mover.call.origin == origin then Some(mover.entry)
      else LastSaved(cfg, sys, front, origin)
  }

  lemma WritesOf(cfg: Config, caches: Caches, process: Process, start: Call)
    ensures var next := Advance(cfg, caches, process, start).caches;
            && next.hot
               == (if process.Storing? then Remember(cfg, caches.hot, process.call, process.entry) else caches.hot)
            && next.backend
               == if process.Saving? && process.call.saveOk then caches.backend[process.call.origin := process.entry]
                  else caches.backend
  {
  }

  ghost predicate HoldsLastWrites(cfg: Config, sys: System, actions: seq<Action>, origin: string) {
    var caches, stored := Exec(cfg, sys, actions).caches, LastStored(cfg, sys, actions, origin);
    && Held(caches.backend, origin) == LastSaved(cfg, sys, actions, origin)
    && (origin in caches.hot <==> stored.Some?)
    && (stored.Some? ==> caches.hot[origin] == HotOf(cfg.values, stored.value))
  }

  lemma NextHoldsLastWrites(cfg: Config, sys: System, front: seq<Action>, last: Action, origin: string)
    requires HoldsLastWrites(cfg, sys, front, origin)
    ensures HoldsLastWrites(cfg, sys, front + [last], origin)
  {
    var before := Exec(cfg, sys, front);
    assert (front + [last])[..|front|] == front;
    WritesOf(cfg, before.caches, At(before, last.p), last.start);
  }

  lemma {:induction false} CachesHoldLastWrites(cfg: Config, sys: System, actions: seq<Action>, origin: string)
    requires sys.caches.hot == map[]
    ensures HoldsLastWrites(cfg, sys, actions, origin)
  {
    if actions != [] {
      var front, last := actions[..|actions| - 1], actions[|actions| - 1];
      assert actions == front + [last];
      CachesHoldLastWrites(cfg, sys, front, origin);
      NextHoldsLastWrites(cfg, sys, front, last, origin);
    }
  }

  // The last store of the origin, if any, carried what the last save of it wrote.
  ghost predicate StoredLastSave(cfg: Config, sys: System, actions: seq<Action>, origin: string) {
    var stored, saved := LastStored(cfg, sys, actions, origin), LastSaved(cfg, sys, actions, origin);
    stored.Some? ==> saved.Some? && HotOf(cfg.values, stored.value) == HotOf(cfg.values, saved.value)
  }

  // After any interleaving the caches are coherent if and only if, for every origin, the last entry stored
  // into the hot cache is the last one saved to the backend.
  lemma RunIsCoherentExactlyWhen(cfg: Config, backend: map<string, Entry>, retryAt: map<string, nat>,
      actions: seq<Action>)
    ensures Coherent(cfg, Exec(cfg, Fresh(backend, retryAt), actions).caches)
       <==> forall o :: StoredLastSave(cfg, Fresh(backend, retryAt), actions, o)
  {
    var start := Fresh(backend, retryAt);
    var caches := Exec(cfg, start, actions).caches;
    forall o
      ensures StoredLastSave(cfg, start, actions, o)
         <==> (o in caches.hot ==> o in caches.backend && caches.hot[o] == HotOf(cfg.values, caches.backend[o]))
    {
      CachesHoldLastWrites(cfg, start, actions, o);
    }
  }

  // ---------- One call per origin at a time ----------

  // The start of a call while another call for its origin is in progress.
  ghost predicate Overlaps(sys: System, action: Action) {
    && At(sys, action.p).Idle?
    && exists q :: q in sys.processes && q != action.p && !sys.processes[q].Idle?
                   && sys.processes[q].call.origin == action.start.origin
  }

  ghost predicate Serialized(cfg: Config, sys: System, actions: seq<Action>) {
    actions == [] ||
    var front := actions[..|actions| - 1];
    Serialized(cfg, sys, front) && !Overlaps(Exec(cfg, sys, front), actions[|actions| - 1])
  }

  ghost predicate InProgress(sys: System, origin: string) {
    exists p :: p in sys.processes && !sys.processes[p].Idle? && sys.processes[p].call.origin == origin
  }

  // What a process carries is what the backend holds now.
  predicate UpToDate(backend: map<string, Entry>, process: Process) {
    match process
    case Checking(call, cached) => cached == Held(backend, call.origin)
    case Fetching(call, cached) => cached == Held(backend, call.origin)
    case Noting(call, cached) => cached == Held(backend, call.origin)
    case Storing(call, entry) => Some(entry) == Held(backend, call.origin)
    case _ => true
  }

  ghost predicate Apart(sys: System) {
    forall p, q :: p in sys.processes && q in sys.processes && p != q
                   && !sys.processes[p].Idle? && !sys.processes[q].Idle? ==>
                     sys.processes[p].call.origin != sys.processes[q].call.origin
  }

  ghost predicate SettledOrigin(cfg: Config, sys: System, o: string) {
    o in sys.caches.hot && !InProgress(sys, o) ==>
      o in sys.caches.backend && sys.caches.hot[o] == HotOf(cfg.values, sys.caches.backend[o])
  }

  ghost predicate Orderly(cfg: Config, sys: System) {
    && Apart(sys)
    && (forall p :: p in sys.processes ==> UpToDate(sys.caches.backend, sys.processes[p]))
    && (forall o :: HotInStep(cfg, sys, o))
  }

  // A hot entry may lag behind the backend only between the save and the store of one call.
  ghost predicate HotInStep(cfg: Config, sys: System, o: string) {
    o in sys.caches.hot ==>
      || (exists p :: p in sys.processes && sys.processes[p].Storing? && sys.processes[p].call.origin == o)
      || (o in sys.caches.backend && sys.caches.hot[o] == HotOf(cfg.values, sys.caches.backend[o]))
  }

  lemma ActStaysApart(cfg: Config, sys: System, action: Action)
    requires Apart(sys) && !Overlaps(sys, action)
    ensures Apart(Act(cfg, sys, action.p, action.start))
  {
    var mover, next := At(sys, action.p), Act(cfg, sys, action.p, action.start);
    NextKeepsOrigin(cfg, sys.caches, mover, action.start);
    forall q | q in next.processes && q != action.p && !next.processes[q].Idle? && !next.processes[action.p].Idle?
      ensures next.processes[q].call.origin != next.processes[action.p].call.origin
    {
      assert q in sys.processes && next.processes[q] == sys.processes[q];
    }
  }

  // A process keeps the origin it works for until it ends.
  lemma NextKeepsOrigin(cfg: Config, caches: Caches, process: Process, start: Call)
    ensures var next := Advance(cfg, caches, process, start).next;
            !next.Idle? ==> next.call.origin == (if process.Idle? then start.origin else process.call.origin)
  {
  }

  lemma MoverStaysUpToDate(cfg: Config, caches: Caches, process: Process, start: Call)
    requires UpToDate(caches.backend, process)
    ensures var turn := Advance(cfg, caches, process, start); UpToDate(turn.caches.backend, turn.next)
  {
  }

  lemma OthersStayUpToDate(cfg: Config, caches: Caches, process: Process, start: Call, other: Process)
    requires UpToDate(caches.backend, other) && !other.Idle?
    requires process.Saving? ==> process.call.origin != other.call.origin
    ensures UpToDate(Advance(cfg, caches, process, start).caches.backend, other)
  {
    WritesOf(cfg, caches, process, start);
  }

  lemma ActStaysUpToDate(cfg: Config, sys: System, action: Action, p: nat)
    requires Orderly(cfg, sys) && p in Act(cfg, sys, action.p, action.start).processes
    ensures var next := Act(cfg, sys, action.p, action.start); UpToDate(next.caches.backend, next.processes[p])
  {
    var mover := At(sys, action.p);
    if p == action.p {
      MoverStaysUpToDate(cfg, sys.caches, mover, action.start);
    } else if !sys.processes[p].Idle? {
      OthersStayUpToDate(cfg, sys.caches, mover, action.start, sys.processes[p]);
    }
  }

  lemma ActStaysInStep(cfg: Config, sys: System, action: Action, o: string)
    requires Orderly(cfg, sys) && !Overlaps(sys, action)
    ensures HotInStep(cfg, Act(cfg, sys, action.p, action.start), o)
  {
    var next := Act(cfg, sys, action.p, action.start);
    assert HotInStep(cfg, sys, o);
    WritesOf(cfg, sys.caches, At(sys, action.p), action.start);
    if p :| p in sys.processes && sys.processes[p].Storing? && sys.processes[p].call.origin == o {
      if p != action.p {
        assert p in next.processes && next.processes[p] == sys.processes[p];
      }
    }
    assert action.p in next.processes;
  }

  lemma {:induction false} SerializedRunsAreOrderly(cfg: Config, start: System, actions: seq<Action>)
    requires start.caches.hot == map[] && start.processes == map[] && Serialized(cfg, start, actions)
    ensures Orderly(cfg, Exec(cfg, start, actions))
  {
    if actions != [] {
      var front, last := actions[..|actions| - 1], actions[|actions| - 1];
      SerializedRunsAreOrderly(cfg, start, front);
      var before := Exec(cfg, start, front);
      ActStaysApart(cfg, before, last);
      forall p | p in Exec(cfg, start, actions).processes
        ensures UpToDate(Exec(cfg, start, actions).caches.backend, Exec(cfg, start, actions).processes[p])
      {
        ActStaysUpToDate(cfg, before, last, p);
      }
      forall o
        ensures HotInStep(cfg, Exec(cfg, start, actions), o)
      {
        ActStaysInStep(cfg, before, last, o);
      }
    }
  }

  // If no call starts while another for its origin is in progress, the hot entry of an origin without a call
  // in progress is the parsed backend entry: interleaving calls of different origins is harmless.
  lemma SerializedOriginsStayCoherent(
      cfg: Config, backend: map<string, Entry>, retryAt: map<string, nat>, actions: seq<Action>, origin: string)
    requires Serialized(cfg, Fresh(backend, retryAt), actions)
    ensures SettledOrigin(cfg, Exec(cfg, Fresh(backend, retryAt), actions), origin)
  {
    SerializedRunsAreOrderly(cfg, Fresh(backend, retryAt), actions);
    assert HotInStep(cfg, Exec(cfg, Fresh(backend, retryAt), actions), origin);
  }

  // ---------- Interleaving loses coherence ----------

  function Repeat(p: nat, call: Call, n: nat): seq<Action> {
    if n == 0 then [] else [Action(p, call)] + Repeat(p, call, n - 1)
  }

  lemma {:induction false} ExecRepeat(cfg: Config, sys: System, actions: seq<Action>, p: nat, call: Call, n: nat)
    ensures Exec(cfg, sys, actions + Repeat(p, call, n)) == Alone(cfg, Exec(cfg, sys, actions), p, call, n)
    decreases n
  {
    if n == 0 {
      assert actions + [] == actions;
    } else {
      var more := actions + [Action(p, call)];
      assert more[..|actions|] == actions;
      Associate(actions, [Action(p, call)], Repeat(p, call, n - 1));
      ExecRepeat(cfg, sys, more, p, call, n - 1);
    }
  }

  lemma {:induction false} AloneLeavesOthers(cfg: Config, sys: System, p: nat, call: Call, n: nat, q: nat)
    requires q != p
    ensures At(Alone(cfg, sys, p, call, n), q) == At(sys, q)
    decreases n
  {
    if n > 0 {
      AloneLeavesOthers(cfg, Act(cfg, sys, p, call), p, call, n - 1, q);
    }
  }

  lemma FirstTwoSteps(cfg: Config, sys: System, p: nat, call: Call, entry: Entry)
    requires At(sys, p) == Idle && call.loadOk && !HotFresh(cfg, sys.caches, call)
    requires BackendFresh(cfg, sys.caches.backend, call) && sys.caches.backend[call.origin] == entry
    ensures var loaded := Alone(cfg, sys, p, call, 2);
            && loaded.caches == sys.caches && At(loaded, p) == Storing(call, entry)
            && forall q :: q != p ==> At(loaded, q) == At(sys, q)
  {
    AloneStep(cfg, sys, p, call, 2);
    AloneStep(cfg, Act(cfg, sys, p, call), p, call, 1);
  }

  lemma StaleIsRefreshed(cfg: Config, sys: System, p: nat, call: Call, entry: Entry)
    requires At(sys, p) == Idle && call.loadOk && call.saveOk && sys.caches.hot == map[] && sys.caches.retryAt == map[]
    requires !BackendFresh(cfg, sys.caches.backend, call)
    requires Classify(call.reply) == Cacheable(entry.stored) && entry.fetchedAt == call.repliedAt
    ensures var backend := Alone(cfg, sys, p, call, 7).caches.backend;
            call.origin in backend && backend[call.origin] == entry
  {
    assert Steps(cfg, sys.caches, call) == 7;
    UninterruptedCallIsSequential(cfg, sys, p, call);
  }

  lemma LateStore(cfg: Config, sys: System, p: nat, call: Call, entry: Entry)
    requires At(sys, p) == Storing(call, entry)
    ensures var stored := Alone(cfg, sys, p, call, 1);
            stored.caches == sys.caches.(hot := Remember(cfg, sys.caches.hot, call, entry)) && At(stored, p) == Idle
  {
    AloneStep(cfg, sys, p, call, 1);
  }

  function HeldUp(early: Call, late: Call): seq<Action> {
    [] + Repeat(0, early, 2) + Repeat(1, late, 7) + Repeat(0, early, 1)
  }

  // A first call loads an entry within its time to live and is held up; a second call, later, finds it
  // stale, fetches, saves and stores a new policy; then the first call stores the old one over it.
  lemma HeldUpStoreBreaksCoherence(cfg: Config, backend: map<string, Entry>, early: Call, late: Call, renewed: Entry)
    requires early.origin == late.origin && early.loadOk && late.loadOk && late.saveOk
    requires BackendFresh(cfg, backend, early) && !BackendFresh(cfg, backend, late)
    requires Classify(late.reply) == Cacheable(renewed.stored) && renewed.fetchedAt == late.repliedAt
    requires renewed.fetchedAt != backend[early.origin].fetchedAt
    ensures !Coherent(cfg, Exec(cfg, Fresh(backend, map[]), HeldUp(early, late)).caches)
  {
    var start, kept := Fresh(backend, map[]), backend[early.origin];
    FirstTwoSteps(cfg, start, 0, early, kept);
    var loaded := Alone(cfg, start, 0, early, 2);
    StaleIsRefreshed(cfg, loaded, 1, late, renewed);
    AloneLeavesOthers(cfg, loaded, 1, late, 7, 0);
    LateStore(cfg, Alone(cfg, loaded, 1, late, 7), 0, early, kept);
    ExecThreePhases(cfg, start, early, 2, late, 7, 1);
  }

  // A call that finds its origin unknown and nothing pending, taken up to its save and then to its end.
  lemma FirstFetchSteps(cfg: Config, sys: System, p: nat, call: Call)
    requires At(sys, p) == Idle && call.loadOk && call.origin !in sys.caches.hot && call.origin !in sys.caches.backend
    requires call.origin !in sys.caches.retryAt && Classify(call.reply).Cacheable? && call.saveOk
    ensures Alone(cfg, sys, p, call, 3).caches == sys.caches
            && At(Alone(cfg, sys, p, call, 3), p) == Fetching(call, None)
  {
    var s1 := Act(cfg, sys, p, call);
    var s2 := Act(cfg, s1, p, call);
    AloneStep(cfg, sys, p, call, 3);
    AloneStep(cfg, s1, p, call, 2);
    AloneStep(cfg, s2, p, call, 1);
    assert sys.caches.retryAt - {call.origin} == sys.caches.retryAt;
  }

  lemma FetchedIsSaved(cfg: Config, sys: System, p: nat, call: Call)
    requires At(sys, p) == Fetching(call, None) && Classify(call.reply).Cacheable? && call.saveOk
    requires call.origin !in sys.caches.retryAt
    ensures var entry := Entry(call.repliedAt, Classify(call.reply).stored);
            var saved := Alone(cfg, sys, p, call, 3);
            && At(saved, p) == Storing(call, entry)
            && saved.caches == sys.caches.(backend := sys.caches.backend[call.origin := entry])
  {
    var s1 := Act(cfg, sys, p, call);
    var s2 := Act(cfg, s1, p, call);
    AloneStep(cfg, sys, p, call, 3);
    AloneStep(cfg, s1, p, call, 2);
    AloneStep(cfg, s2, p, call, 1);
    assert sys.caches.retryAt - {call.origin} == sys.caches.retryAt;
  }

  lemma {:induction false} AloneInTwo(cfg: Config, sys: System, p: nat, call: Call, i: nat, j: nat)
    ensures Alone(cfg, sys, p, call, i + j) == Alone(cfg, Alone(cfg, sys, p, call, i), p, call, j)
    decreases i
  {
    if i > 0 {
      AloneInTwo(cfg, Act(cfg, sys, p, call), p, call, i - 1, j);
    }
  }

  function Crossed(a: Call, b: Call): seq<Action> {
    [] + Repeat(0, a, 3) + Repeat(1, b, 6) + Repeat(0, a, 4) + Repeat(1, b, 1)
  }

  // Two first fetches of one origin cross: the second saves first and stores last.  Whatever the time to live
  // and the retry delay, both calls end and the hot cache holds what the backend does not.
  lemma CrossedFetchesBreakCoherence(cfg: Config, a: Call, b: Call)
    requires a.origin == b.origin && a.loadOk && b.loadOk && a.saveOk && b.saveOk
    requires Classify(a.reply).Cacheable? && Classify(b.reply).Cacheable? && a.repliedAt != b.repliedAt
    ensures var end := Exec(cfg, Fresh(map[], map[]), Crossed(a, b));
            !Coherent(cfg, end.caches) && At(end, 0) == Idle && At(end, 1) == Idle
  {
    var start := Fresh(map[], map[]);
    var s1 := Alone(cfg, start, 0, a, 3);
    var s2 := Alone(cfg, s1, 1, b, 6);
    var s3 := Alone(cfg, s2, 0, a, 4);
    FirstFetchSteps(cfg, start, 0, a);
    AloneLeavesOthers(cfg, start, 0, a, 3, 1);
    FirstFetchSteps(cfg, s1, 1, b);
    AloneInTwo(cfg, s1, 1, b, 3, 3);
    FetchedIsSaved(cfg, Alone(cfg, s1, 1, b, 3), 1, b);
    AloneLeavesOthers(cfg, s1, 1, b, 6, 0);
    AloneInTwo(cfg, s2, 0, a, 3, 1);
    FetchedIsSaved(cfg, s2, 0, a);
    LateStore(cfg, Alone(cfg, s2, 0, a, 3), 0, a, Entry(a.repliedAt, Classify(a.reply).stored));
    AloneLeavesOthers(cfg, s2, 0, a, 4, 1);
    LateStore(cfg, s3, 1, b, Entry(b.repliedAt, Classify(b.reply).stored));
    AloneLeavesOthers(cfg, s3, 1, b, 1, 0);
    ExecThreePhases(cfg, start, a, 3, b, 6, 4);
    ExecRepeat(cfg, start, [] + Repeat(0, a, 3) + Repeat(1, b, 6) + Repeat(0, a, 4), 1, b, 1);
  }

  // Under every configuration some interleaving from empty caches loses coherence.
  lemma InterleavingBreaksCoherence(cfg: Config)
    ensures exists actions: seq<Action> :: !Coherent(cfg, Exec(cfg, Fresh(map[], map[]), actions).caches)
  {
    var a := Call("o", 1, None, true, Response(404, None), 2, 2, true);
    var b := a.(repliedAt := 3);
    CrossedFetchesBreakCoherence(cfg, a, b);
  }

  lemma ExecThreePhases(cfg: Config, start: System, a: Call, i: nat, b: Call, j: nat, k: nat)
    ensures Exec(cfg, start, [] + Repeat(0, a, i) + Repeat(1, b, j) + Repeat(0, a, k))
         == Alone(cfg, Alone(cfg, Alone(cfg, start, 0, a, i), 1, b, j), 0, a, k)
  {
    ExecRepeat(cfg, start, [], 0, a, i);
    ExecRepeat(cfg, start, [] + Repeat(0, a, i), 1, b, j);
    ExecRepeat(cfg, start, [] + Repeat(0, a, i) + Repeat(1, b, j), 0, a, k);
  }
}
