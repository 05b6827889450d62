/**
 The claim, fill and drain loop of the engine (src/engine.rs).  The scheduler's replies, the order in
 which tasks finish, failures to apply a result and the moment of shutdown are an environment; the loop
 may run for ever, so every statement is about the state after any number of turns.
 */
module Dispatch {
  import opened Prelude

  type Lease = string

  /**
   - `take(k, n)`: the scheduler's reply to its k-th call, which asks for n ready tasks;
   - `next(k, n)`: which of n in-flight tasks is the k-th to finish;
   - `apply(k)`: the error, if any, of applying the k-th finished task;
   - `stop(k)`: whether the shutdown flag is up at the start of turn k.
   */
  datatype Env = Env(
    take: (nat, nat) -> Result<seq<Lease>, string>,
    next: (nat, nat) -> nat,
    apply: nat -> Option<string>,
    stop: nat -> bool)

  datatype Status = Running | Stopped | Failed(error: string)

  /**
   What the loop has done: the sizes it asked the scheduler for, the leases handed to it, those it
   recorded as claimed, those in flight, and those whose result it passed to `apply_task_run`.
   */
  datatype State = State(
    asked: seq<nat>,
    handed: seq<Lease>,
    claimed: seq<Lease>,
    inflight: seq<Lease>,
    applied: seq<Lease>,
    status: Status)

  const START := State([], [], [], [], [], Running)

  // ---------- What one turn does, without permits or inner loops ----------

  // Ask once for exactly the free places, and put no more than that in flight.
  function Fill(env: Env, limit: nat, s: State): State {
    if |s.inflight| >= limit then s
    else
      var room := limit - |s.inflight|;
      var reply := env.take(|s.asked|, room);
      var asked := s.(asked := s.asked + [room]);
      if reply.Err? then asked.(status := Failed(reply.error))
      else
        var kept := if |reply.value| <= room then reply.value else reply.value[..room];
        asked.(handed := s.handed + reply.value, claimed := s.claimed + kept, inflight := s.inflight + kept)
  }

  function Removed<T>(s: seq<T>, k: nat): seq<T>
    requires k < |s|
  {
    s[..k] + s[k + 1..]
  }

  // The task that finishes, among those in flight.
  function Finishing(env: Env, s: State): (k: nat)
    requires s.inflight != []
    ensures k < |s.inflight|
  {
    env.next(|s.applied|, |s.inflight|) % |s.inflight|
  }

  function ApplyNext(env: Env, s: State): State
    requires s.inflight != []
  {
    var k, error := Finishing(env, s), env.apply(|s.applied|);
    var applied := s.(inflight := Removed(s.inflight, k), applied := s.applied + [s.inflight[k]]);
    if error.Some? then applied.(status := Failed(error.value)) else applied
  }

  function Drain(env: Env, s: State): State
    decreases |s.inflight|
  {
    if s.inflight == [] then s.(status := Stopped)
    else
      var applied := ApplyNext(env, s);
      if applied.status.Failed? then applied else Drain(env, applied)
  }

  function Turn(env: Env, limit: nat, s: State, turn: nat): State {
    if !s.status.Running? then s
    else if env.stop(turn) then Drain(env, s)
    else
      var filled := Fill(env, limit, s);
      if filled.status.Failed? || filled.inflight == [] then filled else ApplyNext(env, filled)
  }

  function After(env: Env, limit: nat, turns: nat): State {
    if turns == 0 then START else Turn(env, limit, After(env, limit, turns - 1), turns - 1)
  }

  // ---------- The loop itself ----------

  class Dispatcher {
    const env: Env
    const limit: nat
    // Permits left in the global semaphore.
    var free: nat
    var asked: seq<nat>
    var handed: seq<Lease>
    var claimed: seq<Lease>
    var inflight: seq<Lease>
    var applied: seq<Lease>
    var status: Status

    // Every permit is free or owned by a task in flight.
    ghost predicate Valid()
      reads this
    {
      free + |inflight| == limit
    }

    ghost function Now(): State
      reads this
    {
      State(asked, handed, claimed, inflight, applied, status)
    }

    constructor (env: Env, limit: nat)
      ensures this.env == env && this.limit == limit
      ensures Valid() && Now() == START
    {
      this.env, this.limit, this.free := env, limit, limit;
      asked, handed, claimed, inflight, applied, status := [], [], [], [], [], Running;
    }

    method TryAcquire(wanted: nat) returns (permits: nat)
      modifies this`free
      ensures permits == (if old(free) < wanted then old(free) else wanted) && free == old(free) - permits
    {
      permits := 0;
      while permits < wanted
        invariant permits <= wanted && free + permits == old(free)
      {
        if free == 0 {
          break;
        }
        free, permits := free - 1, permits + 1;
      }
    }

    // Put leases in flight, each with one of the permits, for as long as there are both.
    method Launch(batch: seq<Lease>, permits: nat)
      modifies this`claimed, this`inflight
      ensures var kept := if |batch| <= permits then batch else batch[..permits];
              claimed == old(claimed) + kept && inflight == old(inflight) + kept
    {
      var count := if |batch| <= permits then |batch| else permits;
      for k := 0 to count
        invariant claimed == old(claimed) + batch[..k] && inflight == old(inflight) + batch[..k]
      {
        assert batch[..k + 1] == batch[..k] + [batch[k]];
        claimed := claimed + [batch[k]];
        inflight := inflight + [batch[k]];
      }
      assert batch[..|batch|] == batch;
    }

    // The fill loop never asks a second time: its first request is for all the room there is.
    method FillSlots()
      requires Valid() && status.Running?
      modifies this
      ensures Valid()
      ensures Now() == Fill(env, limit, old(Now()))
    {
      while |inflight| < limit
        invariant Valid()
        invariant Now() == old(Now()) || (|inflight| == limit && Now() == Fill(env, limit, old(Now())))
        decreases limit - |inflight|
      {
        var available := limit - |inflight|;
        var permits := TryAcquire(available);
        if permits == 0 {
          break;
        }
        var requested := permits;
        var reply := env.take(|asked|, requested);
        asked := asked + [requested];
        if reply.Err? {
          free := free + permits;
          status := Failed(reply.error);
          return;
        }
        var batch := reply.value;
        handed := handed + batch;
        if |batch| == 0 {
          free := free + permits;
          assert claimed + [] == claimed && inflight + [] == inflight;
          break;
        }
        if |batch| < permits {
          free, permits := free + (permits - |batch|), |batch|;
        }
        Launch(batch, permits);
        if |batch| < requested {
          break;
        }
      }
    }

    // Take the next finished task and apply its result; its permit returns to the semaphore.
    method ApplyFinished()
      requires Valid() && inflight != []
      modifies this
      ensures Valid()
      ensures Now() == ApplyNext(env, old(Now()))
    {
      var k := Finishing(env, State(asked, handed, claimed, inflight, applied, status));
      var lease, error := inflight[k], env.apply(|applied|);
      inflight := Removed(inflight, k);
      free := free + 1;
      applied := applied + [lease];
      if error.Some? {
        status := Failed(error.value);
      }
    }

    method DrainInFlight()
      requires Valid() && status.Running?
      modifies this
      ensures Valid()
      ensures Now() == Drain(env, old(Now()))
    {
      while inflight != []
        invariant Valid() && status.Running?
        invariant Drain(env, Now()) == Drain(env, old(Now()))
        decreases |inflight|
      {
        ApplyFinished();
        if status.Failed? {
          return;
        }
      }
      status := Stopped;
    }

    method Run(turns: nat)
      requires Valid() && Now() == START
      modifies this
      ensures Valid()
      ensures Now() == After(env, limit, turns)
    {
      for turn := 0 to turns
        invariant Valid() && Now() == After(env, limit, turn)
      {
        if !status.Running? {
          continue;
        }
        if env.stop(turn) {
          DrainInFlight();
          continue;
        }
        FillSlots();
        if status.Running? && inflight != [] {
          ApplyFinished();
        }
      }
    }
  }

  // ---------- Conservation ----------

  // The recorded leases are those in flight and those applied, each as often as it was recorded.
  ghost predicate Conserved(s: State) {
    multiset(s.claimed) == multiset(s.applied) + multiset(s.inflight)
  }

  // The scheduler's contract, on the calls made so far: no more tasks than asked for.
  ghost predicate WithinLimits(env: Env, asked: seq<nat>) {
    forall k {:trigger asked[k]} :: 0 <= k < |asked| && env.take(k, asked[k]).Ok? ==>
        |env.take(k, asked[k]).value| <= asked[k]
  }

  ghost predicate Sound(env: Env, limit: nat, s: State) {
    && Conserved(s)
    && |s.inflight| <= limit
    && |s.claimed| <= |s.handed|
    && (s.claimed == s.handed <==> WithinLimits(env, s.asked))
    && (WithinLimits(env, s.asked) <==> |s.claimed| == |s.handed|)
    && (s.status.Stopped? ==> s.inflight == [])
  }

  lemma RemovedIsMinus<T>(s: seq<T>, k: nat)
    requires k < |s|
    ensures multiset(s) == multiset(Removed(s, k)) + multiset([s[k]])
  {
    assert s == s[..k] + [s[k]] + s[k + 1..];
  }

  lemma WithinLimitsExtends(env: Env, asked: seq<nat>, n: nat)
    ensures WithinLimits(env, asked + [n])
       <==> WithinLimits(env, asked) && (env.take(|asked|, n).Ok? ==> |env.take(|asked|, n).value| <= n)
  {
    var more := asked + [n];
    assert more[|asked|] == n;
    assert forall k :: 0 <= k < |asked| ==> more[k] == asked[k];
  }

  // What is handed over and what is kept of it.
  lemma KeptIsAll(claimed: seq<Lease>, handed: seq<Lease>, reply: seq<Lease>, kept: seq<Lease>)
    requires |claimed| <= |handed| && kept <= reply
    ensures claimed + kept == handed + reply <==> claimed == handed && kept == reply
    ensures |claimed + kept| == |handed + reply| <==> |claimed| == |handed| && kept == reply
  {
    if claimed + kept == handed + reply {
      assert |claimed| == |handed| && |kept| == |reply|;
      assert (claimed + kept)[..|claimed|] == claimed && (handed + reply)[..|handed|] == handed;
    }
  }

  lemma FillIsSound(env: Env, limit: nat, s: State)
    requires Sound(env, limit, s) && s.status.Running?
    ensures Sound(env, limit, Fill(env, limit, s))
    ensures !Fill(env, limit, s).status.Stopped?
  {
    if |s.inflight| < limit {
      var room := limit - |s.inflight|;
      var reply := env.take(|s.asked|, room);
      WithinLimitsExtends(env, s.asked, room);
      if reply.Ok? {
        var kept := if |reply.value| <= room then reply.value else reply.value[..room];
        KeptIsAll(s.claimed, s.handed, reply.value, kept);
        assert multiset(s.claimed + kept) == multiset(s.claimed) + multiset(kept);
      }
    }
  }

  lemma ApplyIsSound(env: Env, limit: nat, s: State)
    requires Sound(env, limit, s) && s.inflight != [] && s.status.Running?
    ensures Sound(env, limit, ApplyNext(env, s))
  {
    RemovedIsMinus(s.inflight, Finishing(env, s));
  }

  lemma {:induction false} DrainIsSound(env: Env, limit: nat, s: State)
    requires Sound(env, limit, s) && s.status.Running?
    ensures Sound(env, limit, Drain(env, s))
    ensures Drain(env, s).asked == s.asked && Drain(env, s).handed == s.handed
    decreases |s.inflight|
  {
    if s.inflight != [] {
      ApplyIsSound(env, limit, s);
      var applied := ApplyNext(env, s);
      if !applied.status.Failed? {
        DrainIsSound(env, limit, applied);
      }
    }
  }

  lemma TurnIsSound(env: Env, limit: nat, s: State, turn: nat)
    requires Sound(env, limit, s)
    ensures Sound(env, limit, Turn(env, limit, s, turn))
  {
    if s.status.Running? {
      if env.stop(turn) {
        DrainIsSound(env, limit, s);
      } else {
        FillIsSound(env, limit, s);
        var filled := Fill(env, limit, s);
        if !filled.status.Failed? && filled.inflight != [] {
          ApplyIsSound(env, limit, filled);
        }
      }
    }
  }

  lemma {:induction false} RunIsSound(env: Env, limit: nat, turns: nat)
    ensures Sound(env, limit, After(env, limit, turns))
  {
    if turns > 0 {
      RunIsSound(env, limit, turns - 1);
      TurnIsSound(env, limit, After(env, limit, turns - 1), turns - 1);
    }
  }

  lemma SameMultisetSameLength<T>(a: seq<T>, b: seq<T>)
    requires multiset(a) == multiset(b)
    ensures |a| == |b|
  {
    assert |multiset(a)| == |a| && |multiset(b)| == |b|;
  }

  lemma SoundAccounts(env: Env, limit: nat, s: State)
    requires Sound(env, limit, s)
    ensures multiset(s.handed) == multiset(s.applied) + multiset(s.inflight) <==> WithinLimits(env, s.asked)
  {
    if multiset(s.handed) == multiset(s.claimed) {
      SameMultisetSameLength(s.handed, s.claimed);
    }
  }

  /**
   After any number of turns, under any environment: recorded leases are exactly those applied and those
   in flight; no more than the limit are in flight; and every lease the scheduler handed over is
   accounted for if and only if the scheduler kept to the sizes it was asked for.
   */
  lemma LeasesAreConserved(env: Env, limit: nat, turns: nat)
    ensures var s := After(env, limit, turns);
            && multiset(s.claimed) == multiset(s.applied) + multiset(s.inflight)
            && |s.inflight| <= limit
            && (multiset(s.handed) == multiset(s.applied) + multiset(s.inflight) <==> WithinLimits(env, s.asked))
  {
    RunIsSound(env, limit, turns);
    SoundAccounts(env, limit, After(env, limit, turns));
  }

  // A run that shut down without error has applied every lease it was handed exactly once, provided only
  // that the scheduler kept to the sizes it was asked for.
  lemma ShutdownAppliesEverything(env: Env, limit: nat, turns: nat)
    requires After(env, limit, turns).status.Stopped?
    ensures var s := After(env, limit, turns);
            && multiset(s.applied) == multiset(s.claimed)
            && (multiset(s.applied) == multiset(s.handed) <==> WithinLimits(env, s.asked))
  {
    RunIsSound(env, limit, turns);
    LeasesAreConserved(env, limit, turns);
    assert multiset(After(env, limit, turns).inflight) == multiset{};
  }

  // ---------- Progress ----------

  // No turn before the n-th saw the shutdown flag.
  ghost predicate Undisturbed(env: Env, turns: nat) {
    forall k :: 0 <= k < turns ==> !env.stop(k)
  }

  ghost predicate Progress(limit: nat, s: State, t: State) {
    && t.asked == (if |s.inflight| < limit then s.asked + [limit - |s.inflight|] else s.asked)
    && s.claimed <= t.claimed
    && if s.inflight == [] && t.claimed == s.claimed then t.applied == s.applied && t.inflight == []
       else
         && |t.applied| == |s.applied| + 1 && s.applied < t.applied
         && t.applied[|s.applied|] in s.inflight + t.claimed[|s.claimed|..]
         && |t.inflight| == |s.inflight| + (|t.claimed| - |s.claimed|) - 1
  }

  lemma TurnProgresses(env: Env, limit: nat, s: State, turn: nat)
    requires s.status.Running? && !env.stop(turn) && Turn(env, limit, s, turn).status.Running?
    ensures Progress(limit, s, Turn(env, limit, s, turn))
    ensures limit > 0 && |s.inflight| <= limit ==> |Turn(env, limit, s, turn).inflight| < limit
  {
  }

  // A turn that neither stops nor fails asks for all the free places if there are any, and applies one task that
  // was in flight or newly claimed, unless there is none.
  lemma RunningTurnProgresses(env: Env, limit: nat, turns: nat)
    requires !env.stop(turns) && After(env, limit, turns + 1).status.Running?
    ensures Progress(limit, After(env, limit, turns), After(env, limit, turns + 1))
  {
    TurnProgresses(env, limit, After(env, limit, turns), turns);
  }

  // The turns at which nothing was in flight and the scheduler had nothing ready.
  function IdleTurns(env: Env, limit: nat, turns: nat): nat {
    if turns == 0 then 0
    else
      var s, t := After(env, limit, turns - 1), After(env, limit, turns);
      IdleTurns(env, limit, turns - 1) + (if s.inflight == [] && t.claimed == s.claimed then 1 else 0)
  }

  // As long as the loop runs every turn is idle or applies one task, and with any room at all every turn asks the
  // scheduler exactly once.
  lemma {:induction false} EveryTurnCounts(env: Env, limit: nat, turns: nat)
    requires Undisturbed(env, turns) && After(env, limit, turns).status.Running?
    ensures var s := After(env, limit, turns);
            && |s.applied| + IdleTurns(env, limit, turns) == turns
            && (limit > 0 ==> |s.asked| == turns && |s.inflight| < limit)
  {
    if turns > 0 {
      EveryTurnCounts(env, limit, turns - 1);
      TurnProgresses(env, limit, After(env, limit, turns - 1), turns - 1);
    }
  }

  // A scheduler that always has a task ready.
  ghost predicate AlwaysReady(env: Env) {
    forall k: nat, n: nat :: n > 0 ==> env.take(k, n).Ok? && env.take(k, n).value != []
  }

  lemma ReadyFill(env: Env, limit: nat, s: State)
    requires s.status.Running? && limit > 0 && AlwaysReady(env)
    ensures var filled := Fill(env, limit, s);
            filled.status.Running? && filled.inflight != [] && filled.applied == s.applied
  {
  }

  // With such a scheduler, and without errors, n turns apply n tasks.
  lemma {:induction false} BusyLoopAppliesEveryTurn(env: Env, limit: nat, turns: nat)
    requires limit > 0 && AlwaysReady(env) && Undisturbed(env, turns)
    requires forall k: nat :: env.apply(k).None?
    ensures After(env, limit, turns).status.Running? && |After(env, limit, turns).applied| == turns
  {
    if turns > 0 {
      BusyLoopAppliesEveryTurn(env, limit, turns - 1);
      ReadyFill(env, limit, After(env, limit, turns - 1));
    }
  }

  // ---------- Errors ----------

  // No request to the scheduler and no application so far has failed.
  ghost predicate Clean(env: Env, s: State) {
    && (forall k {:trigger s.asked[k]} :: 0 <= k < |s.asked| ==> env.take(k, s.asked[k]).Ok?)
    && (forall k :: 0 <= k < |s.applied| ==> env.apply(k).None?)
  }

  // The last request or the last application failed, with this error.
  ghost predicate Erred(env: Env, s: State, error: string) {
    || (s.asked != [] && env.take(|s.asked| - 1, s.asked[|s.asked| - 1]) == Err(error))
    || (s.applied != [] && env.apply(|s.applied| - 1) == Some(error))
  }

  ghost predicate Reports(env: Env, s: State) {
    if s.status.Failed? then Erred(env, s, s.status.error) else Clean(env, s)
  }

  lemma FillReports(env: Env, limit: nat, s: State)
    requires s.status.Running? && Clean(env, s)
    ensures Reports(env, Fill(env, limit, s))
  {
  }

  lemma ApplyReports(env: Env, s: State)
    requires s.status.Running? && s.inflight != [] && Clean(env, s)
    ensures Reports(env, ApplyNext(env, s))
  {
  }

  lemma {:induction false} DrainReports(env: Env, s: State)
    requires s.status.Running? && Clean(env, s)
    ensures Reports(env, Drain(env, s))
    decreases |s.inflight|
  {
    if s.inflight != [] {
      ApplyReports(env, s);
      if !ApplyNext(env, s).status.Failed? {
        DrainReports(env, ApplyNext(env, s));
      }
    }
  }

  lemma TurnReports(env: Env, limit: nat, s: State, turn: nat)
    requires Reports(env, s)
    ensures Reports(env, Turn(env, limit, s, turn))
  {
    if s.status.Running? {
      if env.stop(turn) {
        DrainReports(env, s);
      } else {
        FillReports(env, limit, s);
        var filled := Fill(env, limit, s);
        if !filled.status.Failed? && filled.inflight != [] {
          ApplyReports(env, filled);
        }
      }
    }
  }

  lemma {:induction false} RunReports(env: Env, limit: nat, turns: nat)
    ensures Reports(env, After(env, limit, turns))
  {
    if turns > 0 {
      RunReports(env, limit, turns - 1);
      TurnReports(env, limit, After(env, limit, turns - 1), turns - 1);
    }
  }

  // The first error ends the run: a run has failed if and only if a request or an application failed, and then it
  // was the last one of its kind, and its error is the run's.
  lemma ErrorsEndTheRun(env: Env, limit: nat, turns: nat)
    ensures var s := After(env, limit, turns);
            && (s.status.Failed? <==> !Clean(env, s))
            && (s.status.Failed? ==> Erred(env, s, s.status.error))
  {
    RunReports(env, limit, turns);
  }

  // ---------- The end of a run ----------

  // Once the flag is up the next turn ends the run: drained, or stopped by the error of one application.
  lemma {:induction false} DrainEnds(env: Env, s: State)
    requires s.status.Running?
    ensures !Drain(env, s).status.Running?
    ensures (forall k :: |s.applied| <= k < |s.applied| + |s.inflight| ==> env.apply(k).None?) ==>
            Drain(env, s).status.Stopped?
    decreases |s.inflight|
  {
    if s.inflight != [] {
      var applied := ApplyNext(env, s);
      if !applied.status.Failed? {
        DrainEnds(env, applied);
      }
    }
  }

  // With a scheduler that keeps its contract and error-free applications, a shutdown at any turn leaves
  // nothing behind.
  lemma ErrorFreeShutdown(env: Env, limit: nat, turns: nat)
    requires After(env, limit, turns).status.Running? && env.stop(turns)
    requires forall k: nat :: env.apply(k).None?
    requires forall k: nat, n: nat :: env.take(k, n).Ok? ==> |env.take(k, n).value| <= n
    ensures var s := After(env, limit, turns + 1);
            s.status.Stopped? && s.inflight == [] && multiset(s.applied) == multiset(s.handed)
  {
    DrainEnds(env, After(env, limit, turns));
    ShutdownAppliesEverything(env, limit, turns + 1);
    RunIsSound(env, limit, turns + 1);
  }

  // A scheduler that returns more than it was asked for: the surplus lease is neither claimed nor applied.
  lemma SurplusIsLost()
    ensures var env := Env((k, n) => Ok(["a", "b"]), (k, n) => 0, k => None, k => k == 1);
            var s := After(env, 1, 2);
            s.status.Stopped? && s.applied == ["a"] && s.handed == ["a", "b"]
  {
    var env := Env((k: nat, n: nat) => Ok(["a", "b"]), (k: nat, n: nat) => 0, (k: nat) => None, (k: nat) => k == 1);
    var s1 := After(env, 1, 1);
    assert After(env, 1, 0) == START;
    assert Fill(env, 1, START) == State([1], ["a", "b"], ["a"], ["a"], [], Running);
    assert s1 == State([1], ["a", "b"], ["a"], [], ["a"], Running);
    assert After(env, 1, 2) == s1.(status := Stopped);
  }
}
