/**
 The walk over robots.txt sitemaps at start-up (src/engine.rs): a work list with a set of seen sitemap
 URLs.  URL resolution, the replies of the network and the scheduler's refusals are inputs; a sitemap is
 fetched at most once, so one reply per URL describes a run.
 */
module Sitemaps {
  import opened Prelude

  datatype Request = Request(url: string, profile: string)

  datatype Reply = NoReply | Reply(status: nat, sitemaps: seq<string>, pages: seq<string>)

  datatype World = World(resolve: (string, string) -> Option<string>, reply: string -> Reply)

  // A sitemap URL, and the start request on whose behalf it is fetched.
  datatype Visit = Visit(url: string, via: Request)

  // A page URL offered to the scheduler on behalf of a start request.
  datatype Offer = Offer(page: string, via: Request)

  // A start request and the sitemaps its robots.txt declares; None when those could not be read.
  datatype Declared = Declared(request: Request, sitemaps: Option<seq<string>>)

  // ---------- The first request of each origin ----------

  ghost predicate IsFirst(requests: seq<Request>, originOf: string -> Option<string>, origin: string, k: nat) {
    && k < |requests| && originOf(requests[k].url) == Some(origin)
    && forall j :: 0 <= j < k ==> originOf(requests[j].url) != Some(origin)
  }

  method FirstRequests(requests: seq<Request>, originOf: string -> Option<string>) returns (first: map<string, Request>)
    ensures forall o :: o in first ==> exists k: nat :: IsFirst(requests, originOf, o, k) && first[o] == requests[k]
    ensures forall k :: 0 <= k < |requests| && originOf(requests[k].url).Some? ==>
            originOf(requests[k].url).value in first
  {
    first := map[];
    for n := 0 to |requests|
      invariant forall o :: o in first ==>
                exists k: nat :: k < n && IsFirst(requests, originOf, o, k) && first[o] == requests[k]
      invariant forall k :: 0 <= k < n && originOf(requests[k].url).Some? ==> originOf(requests[k].url).value in first
    {
      var origin := originOf(requests[n].url);
      if origin.None? {
        continue;
      }
      if origin.value !in first {
        assert IsFirst(requests, originOf, origin.value, n);
        first := first[origin.value := requests[n]];
      }
    }
  }

  // ---------- Links ----------

  function Resolved(world: World, base: string, raw: seq<string>): seq<string> {
    if raw == [] then []
    else
      var front, url := Resolved(world, base, raw[..|raw| - 1]), world.resolve(base, raw[|raw| - 1]);
      if url.Some? then front + [url.value] else front
  }

  predicate Read(world: World, url: string) {
    world.reply(url).Reply? && 200 <= world.reply(url).status < 300
  }

  function SitemapLinks(world: World, url: string): seq<string> {
    if Read(world, url) then Resolved(world, url, world.reply(url).sitemaps) else []
  }

  function PageLinks(world: World, url: string): seq<string> {
    if Read(world, url) then Resolved(world, url, world.reply(url).pages) else []
  }

  // Some raw link of the text at `base` resolves to the URL.
  ghost predicate Shows(world: World, base: string, raw: seq<string>, url: string) {
    exists link :: link in raw && world.resolve(base, link) == Some(url)
  }

  // The sitemap was answered with a 2xx status and links to another one, or lists a page.
  ghost predicate LinksTo(world: World, from: string, to: string) {
    var reply := world.reply(from);
    reply.Reply? && 200 <= reply.status <= 299 && Shows(world, from, reply.sitemaps, to)
  }

  ghost predicate ListsPage(world: World, from: string, page: string) {
    var reply := world.reply(from);
    reply.Reply? && 200 <= reply.status <= 299 && Shows(world, from, reply.pages, page)
  }

  lemma {:induction false} ResolvedShows(world: World, base: string, raw: seq<string>, url: string)
    ensures url in Resolved(world, base, raw) <==> Shows(world, base, raw, url)
  {
    if raw != [] {
      var front, last := raw[..|raw| - 1], raw[|raw| - 1];
      ResolvedShows(world, base, front, url);
      assert raw == front + [last];
    }
  }

  // The links found are those the replies show, in their order.
  lemma LinksAreShown(world: World, from: string, to: string)
    ensures to in SitemapLinks(world, from) <==> LinksTo(world, from, to)
    ensures to in PageLinks(world, from) <==> ListsPage(world, from, to)
  {
    if world.reply(from).Reply? {
      ResolvedShows(world, from, world.reply(from).sitemaps, to);
      ResolvedShows(world, from, world.reply(from).pages, to);
    }
  }

  lemma {:induction false} ResolvedInOrder(world: World, base: string, a: seq<string>, b: seq<string>)
    ensures Resolved(world, base, a + b) == Resolved(world, base, a) + Resolved(world, base, b)
    decreases |b|
  {
    if b == [] {
      assert a + b == a;
    } else {
      assert (a + b)[..|a + b| - 1] == a + b[..|b| - 1];
      ResolvedInOrder(world, base, a, b[..|b| - 1]);
    }
  }

  ghost predicate IsSeed(world: World, declared: seq<Declared>, url: string, via: Request) {
    exists d :: d in declared && d.request == via && d.sitemaps.Some?
        && Shows(world, via.url, d.sitemaps.value, url)
  }

  // A chain of sitemaps, each linking to the next.
  ghost predicate Chain(world: World, from: string, path: seq<string>, to: string) {
    if path == [] then from == to
    else
      && path[|path| - 1] == to
      && exists mid :: Chain(world, from, path[..|path| - 1], mid) && LinksTo(world, mid, to)
  }

  // The URL is reached by a chain from a sitemap declared for the request.
  ghost predicate ReachableVia(world: World, declared: seq<Declared>, url: string, via: Request) {
    exists seed, path :: IsSeed(world, declared, seed, via) && Chain(world, seed, path, url)
  }

  ghost predicate Reachable(world: World, declared: seq<Declared>, url: string) {
    exists via :: ReachableVia(world, declared, url, via)
  }

  // The finite set of URLs the declared sitemaps and their links stay in.
  ghost predicate Closed(world: World, declared: seq<Declared>, universe: set<string>) {
    && (forall url, via :: IsSeed(world, declared, url, via) ==> url in universe)
    && (forall u, v :: u in universe && LinksTo(world, u, v) ==> v in universe)
  }

  // ---------- New visits ----------

  function NewVisits(links: seq<string>, via: Request, seen: set<string>): seq<Visit> {
    if links == [] then []
    else if links[0] in seen then NewVisits(links[1..], via, seen)
    else [Visit(links[0], via)] + NewVisits(links[1..], via, seen + {links[0]})
  }

  function Urls(visits: seq<Visit>): set<string> {
    set v | v in visits :: v.url
  }

  ghost predicate NoRepeats(visits: seq<Visit>) {
    forall i, j :: 0 <= i < j < |visits| ==> visits[i].url != visits[j].url
  }

  lemma {:induction false} NewVisitsAre(links: seq<string>, via: Request, seen: set<string>)
    ensures var visits := NewVisits(links, via, seen);
            && NoRepeats(visits)
            && (forall v :: v in visits ==> v.via == via && v.url !in seen && v.url in links)
            && Urls(visits) + seen == (set l | l in links) + seen
    decreases |links|
  {
    if links != [] {
      var more := if links[0] in seen then seen else seen + {links[0]};
      NewVisitsAre(links[1..], via, more);
      assert links == [links[0]] + links[1..];
      var rest := NewVisits(links[1..], via, more);
      if links[0] !in seen {
        var visits := [Visit(links[0], via)] + rest;
        assert NewVisits(links, via, seen) == visits;
        assert Urls(visits) == {links[0]} + Urls(rest) by {
          assert forall v :: v in visits <==> v == Visit(links[0], via) || v in rest;
          assert Visit(links[0], via) in visits;
        }
      }
    }
  }

  lemma {:induction false} NewVisitsSnoc(links: seq<string>, link: string, via: Request, seen: set<string>)
    ensures NewVisits(links + [link], via, seen)
         == if link in seen + Urls(NewVisits(links, via, seen)) then NewVisits(links, via, seen)
            else NewVisits(links, via, seen) + [Visit(link, via)]
    decreases |links|
  {
    if links == [] {
      assert links + [link] == [link] && Urls([]) == {};
      assert NewVisits([link][1..], via, seen + {link}) == [];
    } else {
      assert (links + [link])[1..] == links[1..] + [link];
      var more := if links[0] in seen then seen else seen + {links[0]};
      NewVisitsSnoc(links[1..], link, via, more);
      if links[0] !in seen {
        var rest := NewVisits(links[1..], via, more);
        var visits := [Visit(links[0], via)] + rest;
        assert Urls(visits) == {links[0]} + Urls(rest) by {
          assert forall v :: v in visits <==> v == Visit(links[0], via) || v in rest;
          assert Visit(links[0], via) in visits;
        }
      }
    }
  }

  // ---------- The loops ----------

  // Resolve the raw links against `base` and append those not seen before.
  method Discover(world: World, base: string, raw: seq<string>, via: Request, seen: set<string>, pending: seq<Visit>)
    returns (seenNow: set<string>, pendingNow: seq<Visit>)
    ensures var found := NewVisits(Resolved(world, base, raw), via, seen);
            pendingNow == pending + found && seenNow == seen + Urls(found)
  {
    seenNow, pendingNow := seen, pending;
    for k := 0 to |raw|
      invariant var found := NewVisits(Resolved(world, base, raw[..k]), via, seen);
                pendingNow == pending + found && seenNow == seen + Urls(found)
    {
      assert raw[..k + 1][..k] == raw[..k];
      ghost var links := Resolved(world, base, raw[..k]);
      ghost var found := NewVisits(links, via, seen);
      var url := world.resolve(base, raw[k]);
      if url.None? {
        continue;
      }
      NewVisitsSnoc(links, url.value, via, seen);
      if url.value !in seenNow {
        assert Urls(found + [Visit(url.value, via)]) == Urls(found) + {url.value} by {
          assert forall v :: v in found + [Visit(url.value, via)] <==> v in found || v == Visit(url.value, via);
        }
        seenNow := seenNow + {url.value};
        pendingNow := pendingNow + [Visit(url.value, via)];
      }
    }
    assert raw[..|raw|] == raw;
  }

  function OffersOf(pages: seq<string>, via: Request): seq<Offer> {
    seq(|pages|, k requires 0 <= k < |pages| => Offer(pages[k], via))
  }

  function OffersFrom(world: World, visits: seq<Visit>): seq<Offer> {
    if visits == [] then []
    else
      var last := visits[|visits| - 1];
      OffersFrom(world, visits[..|visits| - 1]) + OffersOf(PageLinks(world, last.url), last.via)
  }

  // The offers are the pages the sitemaps list, each on behalf of the request its sitemap was fetched for.
  lemma {:induction false} OffersAreListedPages(world: World, visits: seq<Visit>, offer: Offer)
    ensures offer in OffersFrom(world, visits)
       <==> exists v :: v in visits && v.via == offer.via && ListsPage(world, v.url, offer.page)
  {
    if visits != [] {
      var front, last := visits[..|visits| - 1], visits[|visits| - 1];
      assert visits == front + [last];
      OffersAreListedPages(world, front, offer);
      LinksAreShown(world, last.url, offer.page);
      var pages := PageLinks(world, last.url);
      if offer.page in pages && last.via == offer.via {
        var k :| 0 <= k < |pages| && pages[k] == offer.page;
        assert OffersOf(pages, last.via)[k] == offer;
      }
    }
  }

  // Offer the page entries; the scheduler fails on offer number `failAt`, if that is reached.
  method OfferPages(world: World, base: string, raw: seq<string>, via: Request, failAt: Option<nat>,
      offered: seq<Offer>)
    returns (offeredNow: seq<Offer>, ok: bool)
    ensures var pages := OffersOf(Resolved(world, base, raw), via);
            && (ok ==> offeredNow == offered + pages)
            && (!ok ==> failAt == Some(|offeredNow|) && offered <= offeredNow && offeredNow < offered + pages)
    ensures ok ==> failAt.None? || failAt.value < |offered| || failAt.value >= |offeredNow|
  {
    offeredNow := offered;
    ghost var all := OffersOf(Resolved(world, base, raw), via);
    for k := 0 to |raw|
      invariant offeredNow == offered + OffersOf(Resolved(world, base, raw[..k]), via)
      invariant failAt.None? || failAt.value < |offered| || failAt.value >= |offeredNow|
    {
      assert raw[..k + 1][..k] == raw[..k];
      var url := world.resolve(base, raw[k]);
      if url.None? {
        continue;
      }
      ghost var before := Resolved(world, base, raw[..k]);
      assert OffersOf(before + [url.value], via) == OffersOf(before, via) + [Offer(url.value, via)];
      if failAt == Some(|offeredNow|) {
        ResolvedPrefix(world, base, raw, k + 1);
        assert before + [url.value] <= Resolved(world, base, raw);
        return offeredNow, false;
      }
      offeredNow := offeredNow + [Offer(url.value, via)];
    }
    assert raw[..|raw|] == raw;
    ok := true;
  }

  lemma {:induction false} ResolvedPrefix(world: World, base: string, raw: seq<string>, k: nat)
    requires k <= |raw|
    ensures Resolved(world, base, raw[..k]) <= Resolved(world, base, raw)
    decreases |raw|
  {
    if k < |raw| {
      ResolvedPrefix(world, base, raw[..|raw| - 1], k);
      assert raw[..|raw| - 1][..k] == raw[..k];
    } else {
      assert raw[..k] == raw;
    }
  }

  // ---------- What holds between two rounds of the walk ----------

  // Fetched and pending sitemaps are distinct, and together they are the seen ones.
  ghost predicate Queued(seen: set<string>, pending: seq<Visit>, fetched: seq<Visit>) {
    NoRepeats(fetched + pending) && seen == Urls(fetched) + Urls(pending)
  }

  ghost predicate AllReachable(world: World, declared: seq<Declared>, visits: seq<Visit>) {
    forall v :: v in visits ==> ReachableVia(world, declared, v.url, v.via)
  }

  ghost predicate LinksSeen(world: World, visits: seq<Visit>, seen: set<string>) {
    forall v, link :: v in visits && LinksTo(world, v.url, link) ==> link in seen
  }

  ghost predicate SeedsSeen(world: World, declared: seq<Declared>, seen: set<string>) {
    forall url, via :: IsSeed(world, declared, url, via) ==> url in seen
  }

  lemma SeedIsReachable(world: World, declared: seq<Declared>, url: string, via: Request)
    requires IsSeed(world, declared, url, via)
    ensures ReachableVia(world, declared, url, via)
  {
    assert Chain(world, url, [], url);
  }

  lemma LinkIsReachable(world: World, declared: seq<Declared>, url: string, via: Request, link: string)
    requires ReachableVia(world, declared, url, via) && LinksTo(world, url, link)
    ensures ReachableVia(world, declared, link, via)
  {
    var seed, path :| IsSeed(world, declared, seed, via) && Chain(world, seed, path, url);
    assert (path + [link])[..|path|] == path;
    assert Chain(world, seed, path + [link], link);
  }

  // A set that holds the seeds and is closed under links holds everything reachable.
  lemma {:induction false} ChainStaysInside(world: World, inside: set<string>, from: string, path: seq<string>,
      to: string)
    requires from in inside && Chain(world, from, path, to)
    requires forall u, v :: u in inside && LinksTo(world, u, v) ==> v in inside
    ensures to in inside
    decreases |path|
  {
    if path != [] {
      var mid :| Chain(world, from, path[..|path| - 1], mid) && LinksTo(world, mid, to);
      ChainStaysInside(world, inside, from, path[..|path| - 1], mid);
    }
  }

  lemma ReachableStaysInside(world: World, declared: seq<Declared>, inside: set<string>, url: string, via: Request)
    requires Closed(world, declared, inside) && ReachableVia(world, declared, url, via)
    ensures url in inside
  {
    var seed, path :| IsSeed(world, declared, seed, via) && Chain(world, seed, path, url);
    ChainStaysInside(world, inside, seed, path, url);
  }

  lemma UrlsAppend(a: seq<Visit>, b: seq<Visit>)
    ensures Urls(a + b) == Urls(a) + Urls(b)
  {
    forall url
      ensures url in Urls(a + b) <==> url in Urls(a) + Urls(b)
    {
      if url in Urls(a) {
        var v :| v in a && v.url == url;
        assert v in a + b;
      }
      if url in Urls(b) {
        var v :| v in b && v.url == url;
        assert v in a + b;
      }
    }
  }

  lemma NoRepeatsAppend(a: seq<Visit>, b: seq<Visit>)
    requires NoRepeats(a) && NoRepeats(b) && Urls(a) !! Urls(b)
    ensures NoRepeats(a + b)
  {
    forall i, j | 0 <= i < j < |a + b|
      ensures (a + b)[i].url != (a + b)[j].url
    {
      if i < |a| <= j {
        assert a[i] in a && b[j - |a|] in b;
        assert a[i].url in Urls(a) && b[j - |a|].url in Urls(b);
      }
    }
  }

  lemma QueueGrows(seen: set<string>, pending: seq<Visit>, fetched: seq<Visit>, links: seq<string>, via: Request)
    requires Queued(seen, pending, fetched)
    ensures var found := NewVisits(links, via, seen);
            && Queued(seen + Urls(found), pending + found, fetched)
            && (forall v :: v in found ==> v.via == via && v.url in links && v.url !in seen)
            && forall link :: link in links ==> link in seen + Urls(found)
  {
    var found := NewVisits(links, via, seen);
    NewVisitsAre(links, via, seen);
    UrlsAppend(fetched, pending);
    UrlsAppend(pending, found);
    NoRepeatsAppend(fetched + pending, found);
    Associate(fetched, pending, found);
  }

  // The head of the work list is moved to the fetched ones.
  lemma QueueMoves(seen: set<string>, pending: seq<Visit>, fetched: seq<Visit>)
    requires Queued(seen, pending, fetched) && pending != []
    ensures Queued(seen, pending[1..], fetched + [pending[0]])
  {
    assert pending == [pending[0]] + pending[1..];
    Associate(fetched, [pending[0]], pending[1..]);
    UrlsAppend(fetched, [pending[0]]);
    UrlsAppend([pending[0]], pending[1..]);
  }

  ghost predicate Walking(world: World, declared: seq<Declared>, seen: set<string>, pending: seq<Visit>,
      fetched: seq<Visit>) {
    && Queued(seen, pending, fetched)
    && AllReachable(world, declared, pending) && AllReachable(world, declared, fetched)
    && LinksSeen(world, fetched, seen) && SeedsSeen(world, declared, seen)
  }

  lemma SeedsSnoc(world: World, declared: seq<Declared>, d: Declared, seen: set<string>, more: set<string>)
    requires SeedsSeen(world, declared, seen)
    requires d.sitemaps.Some? ==> forall url :: Shows(world, d.request.url, d.sitemaps.value, url) ==>
             url in seen + more
    ensures SeedsSeen(world, declared + [d], seen + more)
  {
    forall url, via {:trigger IsSeed(world, declared + [d], url, via)} | IsSeed(world, declared + [d], url, via)
      ensures url in seen + more
    {
      var e :| e in declared + [d] && e.request == via && e.sitemaps.Some?
          && Shows(world, via.url, e.sitemaps.value, url);
      if e in declared {
        assert IsSeed(world, declared, url, via);
      }
    }
  }

  method SeedSitemaps(world: World, declared: seq<Declared>) returns (seen: set<string>, pending: seq<Visit>)
    ensures Walking(world, declared, seen, pending, [])
  {
    seen, pending := {}, [];
    for k := 0 to |declared|
      invariant Queued(seen, pending, []) && AllReachable(world, declared, pending)
      invariant SeedsSeen(world, declared[..k], seen)
    {
      var d := declared[k];
      assert declared[..k + 1] == declared[..k] + [d];
      if d.sitemaps.None? {
        SeedsSnoc(world, declared[..k], d, seen, {});
        assert seen + {} == seen;
        continue;
      }
      ghost var links := Resolved(world, d.request.url, d.sitemaps.value);
      ghost var found := NewVisits(links, d.request, seen);
      QueueGrows(seen, pending, [], links, d.request);
      forall url
        ensures url in links <==> Shows(world, d.request.url, d.sitemaps.value, url)
      {
        ResolvedShows(world, d.request.url, d.sitemaps.value, url);
      }
      SeedsSnoc(world, declared[..k], d, seen, Urls(found));
      forall v | v in found
        ensures ReachableVia(world, declared, v.url, v.via)
      {
        assert IsSeed(world, declared, v.url, v.via);
        SeedIsReachable(world, declared, v.url, v.via);
      }
      seen, pending := Discover(world, d.request.url, d.sitemaps.value, d.request, seen, pending);
    }
    assert declared[..|declared|] == declared;
  }

  // One round: the head of the work list is fetched and the links it shows are queued.
  lemma RoundKeepsWalking(world: World, declared: seq<Declared>, universe: set<string>, seen: set<string>,
                          pending: seq<Visit>, fetched: seq<Visit>)
    requires Closed(world, declared, universe) && Walking(world, declared, seen, pending, fetched) && pending != []
    ensures var visit := pending[0];
            var found := NewVisits(SitemapLinks(world, visit.url), visit.via, seen);
            && Walking(world, declared, seen + Urls(found), pending[1..] + found, fetched + [visit])
            && (found == [] ==> seen + Urls(found) == seen)
            && (found != [] ==> universe - (seen + Urls(found)) < universe - seen)
  {
    var visit := pending[0];
    var links := SitemapLinks(world, visit.url);
    var found := NewVisits(links, visit.via, seen);
    QueueMoves(seen, pending, fetched);
    QueueGrows(seen, pending[1..], fetched + [visit], links, visit.via);
    forall link
      ensures link in links <==> LinksTo(world, visit.url, link)
    {
      LinksAreShown(world, visit.url, link);
    }
    assert visit in pending;
    forall v | v in found
      ensures ReachableVia(world, declared, v.url, v.via) && v.url in universe
    {
      LinkIsReachable(world, declared, visit.url, visit.via, v.url);
      ReachableStaysInside(world, declared, universe, v.url, v.via);
    }
    if found != [] {
      assert found[0] in found && found[0].url in Urls(found);
      assert found[0].url in universe - seen && found[0].url !in universe - (seen + Urls(found));
    }
  }

  lemma SeenIsClosed(world: World, declared: seq<Declared>, seen: set<string>, fetched: seq<Visit>)
    requires seen == Urls(fetched) && LinksSeen(world, fetched, seen) && SeedsSeen(world, declared, seen)
    ensures Closed(world, declared, seen)
  {
    forall u, v | u in seen && LinksTo(world, u, v)
      ensures v in seen
    {
      var visit :| visit in fetched && visit.url == u;
    }
  }

  // With nothing pending, everything reachable has been fetched.
  lemma EmptyListMeansDone(world: World, declared: seq<Declared>, seen: set<string>, fetched: seq<Visit>)
    requires Walking(world, declared, seen, [], fetched)
    ensures forall url :: url in Urls(fetched) <==> Reachable(world, declared, url)
  {
    assert Urls([]) == {} && seen == Urls(fetched);
    forall url
      ensures url in Urls(fetched) <==> Reachable(world, declared, url)
    {
      if url in Urls(fetched) {
        var v :| v in fetched && v.url == url;
        assert ReachableVia(world, declared, url, v.via);
      }
      if Reachable(world, declared, url) {
        var via :| ReachableVia(world, declared, url, via);
        SeenIsClosed(world, declared, seen, fetched);
        ReachableStaysInside(world, declared, seen, url, via);
      }
    }
  }

  // The walk terminates on every finite link graph, cycles included.  It fetches no sitemap twice and only
  // reachable ones, each for a request that declares a sitemap leading to it; unless the scheduler fails it
  // fetches every reachable one and offers exactly the resolvable page entries of those it read, in order.
  method WalkSitemaps(world: World, declared: seq<Declared>, failAt: Option<nat>, ghost universe: set<string>)
    returns (fetched: seq<Visit>, offered: seq<Offer>, ok: bool)
    requires Closed(world, declared, universe)
    ensures NoRepeats(fetched)
    ensures AllReachable(world, declared, fetched)
    ensures ok ==> forall url :: url in Urls(fetched) <==> Reachable(world, declared, url)
    ensures ok ==> offered == OffersFrom(world, fetched)
    ensures !ok ==> failAt == Some(|offered|) && offered < OffersFrom(world, fetched)
    ensures ok ==> failAt.None? || failAt.value >= |offered|
  {
    fetched, offered, ok := [], [], true;
    var seen, pending := SeedSitemaps(world, declared);
    while pending != []
      invariant Walking(world, declared, seen, pending, fetched)
      invariant ok && offered == OffersFrom(world, fetched)
      invariant failAt.None? || failAt.value >= |offered|
      decreases universe - seen, |pending|
    {
      var visit := pending[0];
      RoundKeepsWalking(world, declared, universe, seen, pending, fetched);
      OffersSnoc(world, fetched, visit);
      pending, fetched := pending[1..], fetched + [visit];
      var reply := world.reply(visit.url);
      if reply.NoReply? || !(200 <= reply.status < 300) {
        assert NewVisits([], visit.via, seen) == [] && pending + [] == pending;
        continue;
      }
      seen, pending := Discover(world, visit.url, reply.sitemaps, visit.via, seen, pending);
      offered, ok := OfferPages(world, visit.url, reply.pages, visit.via, failAt, offered);
      if !ok {
        NoRepeatsPrefix(fetched, pending);
        return;
      }
    }
    NoRepeatsPrefix(fetched, pending);
    EmptyListMeansDone(world, declared, seen, fetched);
  }

  lemma OffersSnoc(world: World, visits: seq<Visit>, visit: Visit)
    ensures OffersFrom(world, visits + [visit])
            == OffersFrom(world, visits) + OffersOf(PageLinks(world, visit.url), visit.via)
    ensures !Read(world, visit.url) ==> OffersFrom(world, visits + [visit]) == OffersFrom(world, visits)
  {
    assert (visits + [visit])[..|visits|] == visits;
  }

  lemma NoRepeatsPrefix(a: seq<Visit>, b: seq<Visit>)
    requires NoRepeats(a + b)
    ensures NoRepeats(a)
  {
    assert forall i :: 0 <= i < |a| ==> (a + b)[i] == a[i];
  }
}
