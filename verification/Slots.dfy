/**
 The concurrency middleware (src/middleware/concurrency.rs): a counter of running downloads for each
 bucket, and a marker in the request's metadata that says whether a slot was taken.  The marker and the
 counter are separate pieces of state; the lemmas say when they agree with the slots really held.
 */
module Slots {
  import opened Prelude

  const USIZE_MAX := U64_MAX
  const SLOT_KEY := "_concurrency_slot"

  datatype Value = Bool(b: bool) | Other(text: string)

  type Metadata = map<string, Value>

  type Counts = map<string, nat>

  predicate Marked(meta: Metadata) {
    SLOT_KEY in meta && meta[SLOT_KEY] == Bool(true)
  }

  // `as usize` of an f64.
  function AsUsize(x: real): nat {
    if x < 1.0 then 0 else Min(x.Floor, USIZE_MAX)
  }

  function InFlight(counts: Counts, key: string): nat {
    if key in counts then counts[key] else 0
  }

  // ---------- One call on values ----------

  datatype Verdict = Pass | Granted | Denied | Refused(error: string)

  // A request whose effective limit is 0 passes without a slot.
  function Admission(counts: Counts, key: Result<string, string>, limit: nat): Verdict {
    if limit == 0 then Pass
    else if key.Err? then Refused(key.error)
    else if InFlight(counts, key.value) < limit then Granted
    else Denied
  }

  // A denied request leaves an entry for its bucket, with its count unchanged.
  function Admitted(counts: Counts, key: Result<string, string>, limit: nat): Counts {
    var verdict := Admission(counts, key, limit);
    if verdict.Granted? then counts[key.value := InFlight(counts, key.value) + 1]
    else if verdict.Denied? then counts[key.value := InFlight(counts, key.value)]
    else counts
  }

  function Released(counts: Counts, key: Result<string, string>): Counts {
    if key.Ok? && key.value in counts then counts[key.value := SatSub(counts[key.value], 1)] else counts
  }

  // ---------- The middleware object ----------

  class Store {
    var inflight: Counts

    constructor ()
      ensures inflight == map[]
    {
      inflight := map[];
    }
  }

  // What the middleware reads of a download: the request's metadata, its overrides for this middleware, and
  // the bucket key they resolve to.
  class Download {
    var meta: Metadata
    var skips: bool
    var concurrency: Option<real>
    var key: Result<string, string>

    constructor (meta: Metadata, skips: bool, concurrency: Option<real>, key: Result<string, string>)
      ensures this.meta == meta && this.skips == skips && this.concurrency == concurrency && this.key == key
    {
      this.meta, this.skips, this.concurrency, this.key := meta, skips, concurrency, key;
    }
  }

  datatype Flow = Continue | Delay(millis: nat)

  class Concurrency {
    const limit: nat
    const states: Store

    constructor (concurrency: Option<real>, states: Store)
      ensures this.limit == (if concurrency.Some? then AsUsize(concurrency.value) else 0) && this.states == states
    {
      limit := if concurrency.Some? then AsUsize(concurrency.value) else 0;
      this.states := states;
    }

    // The limit that governs a download; 0 when the request skips the middleware.
    function EffectiveLimit(context: Download): nat
      reads context
    {
      if context.skips then 0
      else if context.concurrency.Some? then AsUsize(context.concurrency.value)
      else limit
    }

    method BeforeDownload(context: Download) returns (r: Result<Flow, string>)
      modifies context`meta, states
      ensures states.inflight == Admitted(old(states.inflight), context.key, EffectiveLimit(context))
      ensures var verdict := Admission(old(states.inflight), context.key, EffectiveLimit(context));
              && context.meta
                  == (if verdict.Granted? then old(context.meta)[SLOT_KEY := Bool(true)] else old(context.meta))
              && r == (if verdict.Refused? then Err(verdict.error)
                  else Ok(if verdict.Denied? then Delay(1) else Continue))
      // The request's own concurrency governs before the middleware's; below one it asks for no slot.
      ensures context.skips ==> r == Ok(Continue) && context.meta == old(context.meta)
      ensures !context.skips && context.key.Ok? && context.concurrency.Some? ==>
                var used, most := InFlight(old(states.inflight), context.key.value), context.concurrency.value;
                used < USIZE_MAX ==>
                  (r == Ok(Delay(1)) <==> 1.0 <= most < used as real + 1.0)
                  && (most >= 1.0 && r == Ok(Continue) <==>
                        states.inflight == old(states.inflight)[context.key.value := used + 1])
      ensures !context.skips && context.key.Ok? && context.concurrency.None? ==>
                (r == Ok(Delay(1)) <==> 0 < limit <= InFlight(old(states.inflight), context.key.value))
    {
      if context.skips {
        return Ok(Continue);
      }
      var limit := EffectiveLimit(context);
      if limit == 0 {
        return Ok(Continue);
      }
      if context.key.Err? {
        return Err(context.key.error);
      }
      var bucket := context.key.value;
      if bucket !in states.inflight {
        states.inflight := states.inflight[bucket := 0];
      }
      if states.inflight[bucket] >= limit {
        return Ok(Delay(1));
      }
      states.inflight := states.inflight[bucket := states.inflight[bucket] + 1];
      context.meta := context.meta[SLOT_KEY := Bool(true)];
      return Ok(Continue);
    }

    // The marker is removed first, whatever it holds and whatever happens next.
    method ReleaseSlot(context: Download) returns (r: Result<(), string>)
      modifies context`meta, states
      ensures context.meta == old(context.meta) - {SLOT_KEY} && !Marked(context.meta)
      ensures states.inflight
           == if old(Marked(context.meta)) then Released(old(states.inflight), context.key) else old(states.inflight)
      ensures r == if old(Marked(context.meta)) && context.key.Err? then Err(context.key.error) else Ok(())
    {
      var acquired := Marked(context.meta);
      context.meta := context.meta - {SLOT_KEY};
      if !acquired {
        return Ok(());
      }
      if context.key.Err? {
        return Err(context.key.error);
      }
      var bucket := context.key.value;
      if bucket in states.inflight {
        states.inflight := states.inflight[bucket := SatSub(states.inflight[bucket], 1)];
      }
      return Ok(());
    }
  }

  // Middlewares built from equal options share one store; different options never do.
  class SharedRegistry {
    var stores: map<string, Store>

    ghost predicate Valid()
      reads this
    {
      forall a, b :: a in stores && b in stores && stores[a] == stores[b] ==> a == b
    }

    constructor ()
      ensures Valid() && stores == map[]
    {
      stores := map[];
    }

    method StoreFor(signature: string) returns (store: Store)
      requires Valid()
      modifies this
      ensures Valid()
      ensures signature in stores && stores[signature] == store
      ensures signature in old(stores) ==> stores == old(stores)
      ensures signature !in old(stores) ==>
              fresh(store) && store.inflight == map[] && stores == old(stores)[signature := store]
    {
      if signature !in stores {
        store := new Store();
        stores := stores[signature := store];
      }
      store := stores[signature];
    }
  }

  // ---------- Every interleaving ----------

  /**
   The counters, the downloads whose metadata carries the marker, and the downloads that hold a slot, with
   the bucket that counted it.  Only the first two exist in the program.
   */
  datatype World = World(counts: Counts, marked: set<nat>, holders: map<nat, string>)

  datatype Event =
    | Before(id: nat, key: Result<string, string>, limit: nat)
    | Release(id: nat, key: Result<string, string>)
    // The download ends without a release, as when robots.txt refuses it after its slot was granted.
    | Abandon(id: nat)

  // Downloads that already carry the marker when they reach the middleware.
  function Start(inherited: set<nat>): World {
    World(map[], inherited, map[])
  }

  function Step(w: World, e: Event): World {
    match e
    case Before(id, key, limit) =>
      var counts := Admitted(w.counts, key, limit);
      if Admission(w.counts, key, limit).Granted?
      then World(counts, w.marked + {id}, w.holders[id := key.value])
      else w.(counts := counts)
    case Release(id, key) =>
      if id in w.marked then World(Released(w.counts, key), w.marked - {id}, w.holders - {id}) else w
    case Abandon(id) => w.(holders := w.holders - {id})
  }

  function Run(w: World, events: seq<Event>): World {
    if events == [] then w else Step(Run(w, events[..|events| - 1]), events[|events| - 1])
  }

  function HoldersOf(holders: map<nat, string>, key: string): set<nat> {
    set id | id in holders && holders[id] == key
  }

  // Each bucket's counter is the number of downloads that hold one of its slots.
  ghost predicate Conserved(w: World) {
    forall key :: InFlight(w.counts, key) == |HoldersOf(w.holders, key)|
  }

  /**
   What a step must not do: take a second slot, give back a slot under another key or one it never took
   while somebody holds the bucket, or end while holding.
   */
  predicate Harmless(w: World, e: Event) {
    match e
    case Before(id, key, limit) => Admission(w.counts, key, limit).Granted? ==> id !in w.holders
    case Release(id, key) =>
      id in w.marked ==>
        if id in w.holders then key == Ok(w.holders[id]) else key.Err? || InFlight(w.counts, key.value) == 0
    case Abandon(id) => id !in w.holders
  }

  lemma AddingHolder(holders: map<nat, string>, id: nat, key: string, other: string)
    ensures HoldersOf(holders[id := key], other)
         == if other == key then HoldersOf(holders, other) + {id} else HoldersOf(holders, other) - {id}
  {
  }

  lemma DroppingHolder(holders: map<nat, string>, id: nat, other: string)
    ensures HoldersOf(holders - {id}, other) == HoldersOf(holders, other) - {id}
  {
  }

  lemma CountBesides(s: set<nat>, id: nat)
    ensures |s - {id}| == if id in s then |s| - 1 else |s|
    ensures |s + {id}| == if id in s then |s| else |s| + 1
  {
    assert if id in s then s + {id} == s else s - {id} == s;
  }

  // How the holders of a bucket change in a step.
  lemma HoldersAfter(w: World, e: Event, key: string)
    ensures var before, after := HoldersOf(w.holders, key), HoldersOf(Step(w, e).holders, key);
            match e
            case Before(id, k, limit) =>
              if Admission(w.counts, k, limit).Granted?
              then |after| == |if k.value == key then before + {id} else before - {id}|
              else after == before
            case Release(id, _) => if id in w.marked then |after| == |before - {id}| else after == before
            case Abandon(id) => |after| == |before - {id}|
  {
    match e
    case Before(id, k, limit) =>
      if Admission(w.counts, k, limit).Granted? {
        AddingHolder(w.holders, id, k.value, key);
      }
    case Release(id, _) => DroppingHolder(w.holders, id, key);
    case Abandon(id) => DroppingHolder(w.holders, id, key);
  }

  lemma HarmlessStepConserves(w: World, e: Event)
    requires Conserved(w) && Harmless(w, e)
    ensures Conserved(Step(w, e))
  {
    forall key
      ensures InFlight(Step(w, e).counts, key) == |HoldersOf(Step(w, e).holders, key)|
    {
      HoldersAfter(w, e, key);
      CountBesides(HoldersOf(w.holders, key), e.id);
    }
  }

  lemma HarmfulStepBreaks(w: World, e: Event)
    requires Conserved(w) && !Harmless(w, e)
    ensures !Conserved(Step(w, e))
  {
    var key := if e.id in w.holders then w.holders[e.id] else if e.Release? then e.key.value else "";
    HoldersAfter(w, e, key);
    CountBesides(HoldersOf(w.holders, key), e.id);
    assert InFlight(Step(w, e).counts, key) != |HoldersOf(Step(w, e).holders, key)|;
  }

  // A step keeps every counter equal to its holders exactly when it is harmless.
  lemma StepConservesExactlyWhen(w: World, e: Event)
    requires Conserved(w)
    ensures Conserved(Step(w, e)) <==> Harmless(w, e)
  {
    if Harmless(w, e) {
      HarmlessStepConserves(w, e);
    } else {
      HarmfulStepBreaks(w, e);
    }
  }

  // ---------- Disciplined callers ----------

  // The part of `Harmless` a caller controls: it says nothing of markers or counters.
  predicate Disciplined(w: World, e: Event) {
    match e
    case Before(id, _, _) => id !in w.holders
    case Release(id, key) => id in w.holders ==> key == Ok(w.holders[id])
    case Abandon(id) => id !in w.holders
  }

  predicate DisciplinedRun(w: World, events: seq<Event>) {
    events == [] ||
    var front := events[..|events| - 1];
    DisciplinedRun(w, front) && Disciplined(Run(w, front), events[|events| - 1])
  }

  // The limits a run uses for one bucket.
  predicate LimitAtMost(events: seq<Event>, key: string, most: nat) {
    forall k :: 0 <= k < |events| && events[k].Before? && events[k].key == Ok(key) ==> events[k].limit <= most
  }

  lemma StartConserves(inherited: set<nat>)
    ensures Conserved(Start(inherited))
  {
    forall key
      ensures HoldersOf(Start(inherited).holders, key) == {}
    {
    }
  }

  // The marker tells the truth: a download carries it exactly while it holds a slot.
  lemma {:induction false} DisciplinedRunsConserve(events: seq<Event>)
    requires DisciplinedRun(Start({}), events)
    ensures var w := Run(Start({}), events); Conserved(w) && w.marked == w.holders.Keys
  {
    if events == [] {
      StartConserves({});
    } else {
      var front, last := events[..|events| - 1], events[|events| - 1];
      DisciplinedRunsConserve(front);
      HarmlessStepConserves(Run(Start({}), front), last);
    }
  }

  lemma {:induction false} CounterStaysWithinLimit(w: World, events: seq<Event>, key: string, most: nat)
    requires LimitAtMost(events, key, most) && InFlight(w.counts, key) <= most
    ensures InFlight(Run(w, events).counts, key) <= most
  {
    if events != [] {
      var front, last := events[..|events| - 1], events[|events| - 1];
      assert forall k :: 0 <= k < |front| ==> front[k] == events[k];
      CounterStaysWithinLimit(w, front, key, most);
    }
  }

  /**
   Downloads that arrive without the marker, take one slot at a time, and give it back under the key they
   took it under: in every interleaving each counter is the number of holders, no bucket has more holders
   than the largest limit used for it, and a release always finds a positive count.
   */
  lemma SlotsAreConserved(events: seq<Event>, key: string, most: nat)
    requires DisciplinedRun(Start({}), events) && LimitAtMost(events, key, most)
    ensures var w := Run(Start({}), events);
            && InFlight(w.counts, key) == |HoldersOf(w.holders, key)| <= most
            && forall id :: id in w.marked ==> id in w.holders && (w.holders[id] == key ==> InFlight(w.counts, key) > 0)
  {
    DisciplinedRunsConserve(events);
    CounterStaysWithinLimit(Start({}), events, key, most);
    var w := Run(Start({}), events);
    forall id | id in w.marked
      ensures id in w.holders && (w.holders[id] == key ==> InFlight(w.counts, key) > 0)
    {
      assert w.holders[id] == key ==> id in HoldersOf(w.holders, key);
    }
  }

  // After such a run a request is delayed exactly when its bucket is full: no slot is ever lost.
  lemma DelayedExactlyWhenFull(events: seq<Event>, key: string, limit: nat)
    requires DisciplinedRun(Start({}), events) && limit > 0
    ensures var w := Run(Start({}), events);
            Admission(w.counts, Ok(key), limit).Denied? <==> |HoldersOf(w.holders, key)| >= limit
  {
    DisciplinedRunsConserve(events);
  }

  // ---------- Slots given up without a release ----------

  // Disciplined but for downloads that end while holding: such a download keeps its marker, may be queued again,
  // and must not be released for the slot it gave up.
  predicate Forgetful(w: World, e: Event) {
    match e
    case Before(id, _, _) => id !in w.holders
    case Release(id, key) => id in w.marked ==> id in w.holders && key == Ok(w.holders[id])
    case Abandon(_) => true
  }

  predicate ForgetfulRun(w: World, events: seq<Event>) {
    events == [] ||
    var front := events[..|events| - 1];
    ForgetfulRun(w, front) && Forgetful(Run(w, front), events[|events| - 1])
  }

  // The slots of a bucket whose holders ended without a release.
  function Abandoned(w: World, events: seq<Event>, key: string): nat {
    if events == [] then 0
    else
      var front, last := events[..|events| - 1], events[|events| - 1];
      var holders := Run(w, front).holders;
      Abandoned(w, front, key)
      + (if last.Abandon? && last.id in holders && holders[last.id] == key then 1 else 0)
  }

  lemma ForgetfulStepCounts(w: World, e: Event, key: string, lost: nat)
    requires Forgetful(w, e) && InFlight(w.counts, key) == |HoldersOf(w.holders, key)| + lost
    ensures var given := if e.Abandon? && e.id in w.holders && w.holders[e.id] == key then 1 else 0;
            InFlight(Step(w, e).counts, key) == |HoldersOf(Step(w, e).holders, key)| + lost + given
  {
    HoldersAfter(w, e, key);
    CountBesides(HoldersOf(w.holders, key), e.id);
  }

  // In every interleaving of such downloads a counter is the number of holders plus the slots abandoned so far.
  lemma {:induction false} CountIsHoldersAndAbandoned(events: seq<Event>, key: string)
    requires ForgetfulRun(Start({}), events)
    ensures var w := Run(Start({}), events);
            InFlight(w.counts, key) == |HoldersOf(w.holders, key)| + Abandoned(Start({}), events, key)
  {
    if events == [] {
      StartConserves({});
    } else {
      var front, last := events[..|events| - 1], events[|events| - 1];
      CountIsHoldersAndAbandoned(front, key);
      ForgetfulStepCounts(Run(Start({}), front), last, key, Abandoned(Start({}), front, key));
    }
  }

  lemma {:induction false} AbandonedGrows(w: World, events: seq<Event>, n: nat, key: string)
    requires n <= |events|
    ensures Abandoned(w, events[..n], key) <= Abandoned(w, events, key)
    decreases |events|
  {
    if n == |events| {
      assert events[..n] == events;
    } else {
      var front := events[..|events| - 1];
      assert front[..n] == events[..n];
      AbandonedGrows(w, front, n, key);
    }
  }

  // Abandoned slots never come back: once as many are abandoned as a limit allows, no request with that limit
  // gets a slot of the bucket any more, however the run goes on.
  lemma AbandonedSlotsBlock(events: seq<Event>, n: nat, key: string, limit: nat)
    requires ForgetfulRun(Start({}), events) && n <= |events|
    requires 0 < limit <= Abandoned(Start({}), events[..n], key)
    ensures Admission(Run(Start({}), events).counts, Ok(key), limit).Denied?
  {
    CountIsHoldersAndAbandoned(events, key);
    AbandonedGrows(Start({}), events, n, key);
  }

  // A granted download that robots.txt refuses or delays is not released: with a limit of one nobody holds the
  // bucket and every later request is denied, whatever follows.
  lemma RefusedDownloadBlocks(more: seq<Event>)
    requires ForgetfulRun(Start({}), [Before(0, Ok("b"), 1), Abandon(0)] + more)
    ensures Run(Start({}), [Before(0, Ok("b"), 1), Abandon(0)]).holders == map[]
    ensures Admission(Run(Start({}), [Before(0, Ok("b"), 1), Abandon(0)] + more).counts, Ok("b"), 1).Denied?
  {
    var granted, refused := Before(0, Ok("b"), 1), Abandon(0);
    RunAnother(Start({}), [], granted);
    RunAnother(Start({}), [granted], refused);
    assert [] + [granted] == [granted] && [granted] + [refused] == [granted, refused];
    assert [granted, refused][..1] == [granted];
    assert ([granted, refused] + more)[..2] == [granted, refused];
    AbandonedSlotsBlock([granted, refused] + more, 2, "b", 1);
  }

  // ---------- Where the discipline fails ----------

  // The metadata of a follow request: that of the response, overlaid with the caller's.
  function MergeMeta(current: Metadata, patch: Metadata): Metadata {
    current + patch
  }

  // A response copies its request's metadata before the slot is given back, so a follow request is born
  // with the marker unless the caller overwrites it.
  lemma FollowInheritsMarker(request: Metadata, patch: Metadata)
    ensures var granted := request[SLOT_KEY := Bool(true)];
            Marked(MergeMeta(granted, patch)) <==> (SLOT_KEY in patch ==> patch[SLOT_KEY] == Bool(true))
  {
  }

  // A download with an inherited marker and a limit of its own of zero passes without a slot and gives back one
  // that somebody else holds; the bucket then runs two downloads under a limit of one.
  lemma InheritedMarkerOvershoots()
    ensures var events := [Before(0, Ok("b"), 1), Before(1, Ok("b"), 0), Release(1, Ok("b")), Before(2, Ok("b"), 1)];
            && LimitAtMost(events, "b", 1)
            && |HoldersOf(Run(Start({1}), events).holders, "b")| == 2
  {
    var e0, e1, e2, e3 := Before(0, Ok("b"), 1), Before(1, Ok("b"), 0), Release(1, Ok("b")), Before(2, Ok("b"), 1);
    var w0 := Start({1});
    var w1 := Step(w0, e0);
    var w2 := Step(w1, e1);
    var w3 := Step(w2, e2);
    var w4 := Step(w3, e3);
    RunFour(w0, e0, e1, e2, e3);
    assert w3.counts["b"] == 0;
    assert w4.holders == map[0 := "b", 2 := "b"];
    assert HoldersOf(w4.holders, "b") == {0, 2};
  }

  lemma RunAnother(w: World, events: seq<Event>, e: Event)
    ensures Run(w, events + [e]) == Step(Run(w, events), e)
  {
    assert (events + [e])[..|events|] == events;
  }

  lemma RunFour(w: World, e0: Event, e1: Event, e2: Event, e3: Event)
    ensures Run(w, [e0, e1, e2, e3]) == Step(Step(Step(Step(w, e0), e1), e2), e3)
  {
    RunAnother(w, [], e0);
    RunAnother(w, [e0], e1);
    RunAnother(w, [e0, e1], e2);
    RunAnother(w, [e0, e1, e2], e3);
    assert [] + [e0] == [e0] && [e0] + [e1] == [e0, e1] && [e0, e1] + [e2] == [e0, e1, e2];
    assert [e0, e1, e2] + [e3] == [e0, e1, e2, e3];
  }

  // Two concurrency middlewares on one download share the marker: it takes two slots and gives back one, so a
  // bucket nobody uses stays occupied.
  lemma SharedMarkerLeaks()
    ensures var w := Run(Start({}),
            [Before(0, Ok("b"), 2), Before(0, Ok("b"), 2), Release(0, Ok("b")), Release(0, Ok("b"))]);
            w.holders == map[] && InFlight(w.counts, "b") == 1
  {
    RunFour(Start({}), Before(0, Ok("b"), 2), Before(0, Ok("b"), 2), Release(0, Ok("b")), Release(0, Ok("b")));
  }
}
