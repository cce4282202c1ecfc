/** The offline cache controller of sw.js: a service worker that pre-loads the app
    shell on install, answers GET requests cache-first with write-through of good
    network responses and an HTML fallback when offline, and deletes every other
    cache version on activation. Each event handler is one atomic step on the store. */
module ServiceWorker {
  import opened Wrappers
  import opened CacheStorage

  /** The current cache version. */
  const CacheName: string := "fußball-quiz-v1"

  /** The app shell, pre-loaded on install. */
  const UrlsToCache: seq<string> := ["./", "./index.html", "./manifest.json"]

  /** The cached page served to an offline HTML request. */
  const ShellPage: string := "./index.html"

  /** An intercepted request: method, URL, and the Accept header when the request has one. */
  datatype Request = Request(verb: string, url: string, accept: Option<string>)

  /** What the page gets from one fetch event. */
  datatype Reply =
    | NotIntercepted                      // the listener returned before `respondWith`: the browser's own fetch
    | Respond(response: Option<Response>) // `respondWith` settled with a response, or with `undefined`
    | Reject                              // `respondWith` got a rejected promise (a missing Accept header)

  /** The outcome of a fetch event: the reply, whether the network was asked, and the new store. */
  datatype FetchStep = FetchStep(reply: Reply, fetched: bool, storage: Storage)

  /** `s.includes(part)` on strings: `part` occurs at some position of `s`. The empty
      string occurs in every string, a prefix occurs at the start, and nothing longer
      than `s` occurs in it. */
  predicate Includes(s: string, part: string): (b: bool)
    ensures part == [] ==> b
    ensures part <= s ==> b
    ensures |s| < |part| ==> !b
  {
    assert s[0..] == s;
    exists i :: 0 <= i <= |s| && part <= s[i..]
  }

  /** A network response the fetch handler writes through to the cache: status 200, type
      basic. An absent response, any other status, and any cross-origin or opaque
      response are handed to the page without being stored; whatever is stored is a
      response `cache.addAll` would also accept. */
  predicate Cacheable(r: Option<Response>): (c: bool)
    ensures r.None? ==> !c
    ensures r.Some? && r.value.status != 200 ==> !c
    ensures r.Some? && r.value.kind != Basic ==> !c
    ensures c ==> Storable(Arrived(r))
  {
    r.Some? && r.value.status == 200 && r.value.kind == Basic
  }

  /** Every pre-load fetch is one `cache.addAll` accepts. */
  predicate PreloadsOk(network: string -> FetchResult) {
    forall u :: u in UrlsToCache ==> Storable(network(u))
  }

  /** The store after the install handler: the current cache is opened (created empty
      if missing) and, when every pre-load succeeds, holds the three shell URLs besides
      its old keys and nothing else; a failed pre-load adds nothing and the error is
      swallowed. Other caches never change. */
  function Install(s: Storage, network: string -> FetchResult): (r: Storage)
    ensures forall n :: n != CacheName ==> Lookup(r, n) == Lookup(s, n)
    ensures Lookup(r, CacheName).Some?
    ensures PreloadsOk(network) ==>
      Lookup(r, CacheName).value.Keys == Lookup(s, CacheName).GetOr(map[]).Keys + (set u | u in UrlsToCache)
    ensures PreloadsOk(network) ==>
      forall u :: u in UrlsToCache ==>
        u in Lookup(r, CacheName).value && Lookup(r, CacheName).value[u] == network(u).response.value
    ensures PreloadsOk(network) ==>
      forall k :: k in Lookup(s, CacheName).GetOr(map[]) && k !in UrlsToCache ==>
        k in Lookup(r, CacheName).value && Lookup(r, CacheName).value[k] == Lookup(s, CacheName).value[k]
    ensures !PreloadsOk(network) ==> Lookup(r, CacheName) == Some(Lookup(s, CacheName).GetOr(map[]))
  {
    var shelf := Open(s, CacheName);
    assert HasBucket(shelf, CacheName) && Lookup(shelf, CacheName).value == Lookup(s, CacheName).GetOr(map[]);
    match AddAll(shelf, CacheName, UrlsToCache, network)
    case Some(loaded) =>
      ShellLoaded(shelf, network);
      loaded
    case None => shelf
  }

  /** When every pre-load succeeds, `cache.addAll` leaves the opened current cache with
      its old keys plus the three shell URLs, each mapped to its response. */
  lemma ShellLoaded(shelf: Storage, network: string -> FetchResult)
    requires HasBucket(shelf, CacheName) && PreloadsOk(network)
    ensures var loaded := AddAll(shelf, CacheName, UrlsToCache, network);
      var before := Lookup(shelf, CacheName).value;
      && loaded.Some? && Lookup(loaded.value, CacheName).Some?
      && Lookup(loaded.value, CacheName).value.Keys == before.Keys + (set u | u in UrlsToCache)
      && (forall u :: u in UrlsToCache ==>
            u in Lookup(loaded.value, CacheName).value && Lookup(loaded.value, CacheName).value[u] == network(u).response.value)
      && (forall k :: k in before && k !in UrlsToCache ==>
            k in Lookup(loaded.value, CacheName).value && Lookup(loaded.value, CacheName).value[k] == before[k])
  {
  }

  /** The fetch handler on request `req`, with `network` giving what `fetch` would. */
  function HandleFetch(s: Storage, req: Request, network: string -> FetchResult): (step: FetchStep)
    // A non-GET request is not intercepted: no cache is read or written, nothing is fetched.
    ensures req.verb != "GET" ==> step == FetchStep(NotIntercepted, false, s)
    // A GET request held by any cache is answered from the first cache holding it, without the network.
    ensures req.verb == "GET" && Cached(s, req.url) ==>
      && !step.fetched && step.storage == s
      && step.reply.Respond? && step.reply.response.Some?
      && exists i :: 0 <= i < |s| && req.url in s[i].entries && s[i].entries[req.url] == step.reply.response.value
           && forall j :: 0 <= j < i ==> req.url !in s[j].entries
    // Otherwise the network is asked.
    ensures req.verb == "GET" && !Cached(s, req.url) ==> step.fetched
    // An arrived response is handed to the page as it is.
    ensures req.verb == "GET" && !Cached(s, req.url) && network(req.url).Arrived? ==>
      step.reply == Respond(network(req.url).response)
    // A 200 basic response is written through to the current cache; nothing else changes,
    // the next lookup of the URL finds it, and every other URL matches as before.
    ensures req.verb == "GET" && !Cached(s, req.url) && network(req.url).Arrived? && Cacheable(network(req.url).response) ==>
      && Lookup(step.storage, CacheName) == Some(Lookup(s, CacheName).GetOr(map[])[req.url := network(req.url).response.value])
      && (forall n :: n != CacheName ==> Lookup(step.storage, n) == Lookup(s, n))
      && MatchAll(step.storage, req.url) == network(req.url).response
      && (forall k :: k != req.url ==> MatchAll(step.storage, k) == MatchAll(s, k))
    // Any other arrived response is not stored.
    ensures req.verb == "GET" && !Cached(s, req.url) && network(req.url).Arrived? && !Cacheable(network(req.url).response) ==>
      step.storage == s
    // When the network fails, nothing is stored; an HTML request gets the cached shell page
    // (which may be absent), any other request gets no response, and a request without an
    // Accept header makes the handler throw.
    ensures req.verb == "GET" && !Cached(s, req.url) && network(req.url).NetworkFailure? ==>
      && step.storage == s
      && (req.accept.None? ==> step.reply == Reject)
      && (req.accept.Some? && Includes(req.accept.value, "text/html") ==> step.reply == Respond(MatchAll(s, ShellPage)))
      && (req.accept.Some? && !Includes(req.accept.value, "text/html") ==> step.reply == Respond(None))
  {
    if req.verb != "GET" then FetchStep(NotIntercepted, false, s)
    else
      var hit := MatchAll(s, req.url);
      if hit.Some? then FetchStep(Respond(hit), false, s)
      else
        match network(req.url)
        case Arrived(response) =>
          if !Cacheable(response) then FetchStep(Respond(response), true, s)
          else
            var stored := WriteThrough(s, req.url, response.value);
            FetchStep(Respond(response), true, stored)
        case NetworkFailure =>
          match req.accept
          case None => FetchStep(Reject, true, s)
          case Some(accept) =>
            if Includes(accept, "text/html") then FetchStep(Respond(MatchAll(s, ShellPage)), true, s)
            else FetchStep(Respond(None), true, s)
  }

  /** The fetch step of a miss answered by a cacheable response: the response is handed
      to the page and written through. */
  lemma FetchWritesThrough(s: Storage, req: Request, network: string -> FetchResult)
    requires req.verb == "GET" && !Cached(s, req.url)
    requires network(req.url).Arrived? && Cacheable(network(req.url).response)
    ensures HandleFetch(s, req, network) ==
      FetchStep(Respond(network(req.url).response), true, WriteThrough(s, req.url, network(req.url).response.value))
  {
  }

  /** `caches.open(CacheName)` then `cache.put(url, copy)`: on a miss, the stored copy is
      what the next cross-cache match of the URL returns, and no other URL's match changes. */
  function WriteThrough(s: Storage, url: string, copy: Response): (r: Storage)
    requires !Cached(s, url)
    ensures Lookup(r, CacheName) == Some(Lookup(s, CacheName).GetOr(map[])[url := copy])
    ensures forall n :: n != CacheName ==> Lookup(r, n) == Lookup(s, n)
    ensures MatchAll(r, url) == Some(copy)
    ensures forall k :: k != url ==> MatchAll(r, k) == MatchAll(s, k)
  {
    var shelf := Open(s, CacheName);
    assert MatchAll(shelf, url) == MatchAll(s, url);
    PutOnMiss(shelf, CacheName, url, copy);
    Put(shelf, CacheName, url, copy)
  }

  /** The store after the activate handler: only the current cache is left. */
  function Activate(s: Storage): (r: Storage)
    ensures forall i :: 0 <= i < |r| ==> r[i].name == CacheName
    ensures Lookup(r, CacheName) == Lookup(s, CacheName)
  {
    Pruned(s, CacheName)
  }

  /** Activating twice leaves the store as activating once. */
  lemma ActivateIdempotent(s: Storage)
    ensures Activate(Activate(s)) == Activate(s)
  {
    PrunedIdempotent(s, CacheName);
  }

  /** The names in `names` other than the current version. */
  function StaleAmong(names: seq<string>): set<string> {
    set n | n in names && n != CacheName
  }

  lemma StaleAmongStep(names: seq<string>, i: nat)
    requires i < |names|
    ensures StaleAmong(names[..i + 1]) == StaleAmong(names[..i]) + (if names[i] != CacheName then {names[i]} else {})
  {
    assert names[..i + 1] == names[..i] + [names[i]];
  }

  /** `caches.keys()`: the cache names in creation order. */
  function NamesOf(s: Storage): (names: seq<string>)
    ensures |names| == |s| && forall i :: 0 <= i < |s| ==> names[i] == s[i].name
  {
    seq(|s|, i requires 0 <= i < |s| => s[i].name)
  }

  /** Before the first name, nothing is deleted. */
  lemma DeleteNone(start: Storage, names: seq<string>)
    ensures Without(start, StaleAmong(names[..0])) == start
  {
    assert StaleAmong(names[..0]) == {};
    WithoutNothing(start);
  }

  /** After the last name, the store is the activation store. */
  lemma DeleteAll(start: Storage, names: seq<string>)
    requires names == NamesOf(start)
    ensures Without(start, StaleAmong(names[..|names|])) == Activate(start)
  {
    assert names[..|names|] == names;
    StaleAmongAll(start, names);
  }

  /** Deleting the next stale name, or skipping the current one, extends the deletions so far. */
  lemma DeleteStep(start: Storage, names: seq<string>, i: nat)
    requires i < |names|
    ensures (if names[i] != CacheName then Without(Without(start, StaleAmong(names[..i])), {names[i]})
             else Without(start, StaleAmong(names[..i]))) == Without(start, StaleAmong(names[..i + 1]))
  {
    StaleAmongStep(names, i);
    if names[i] != CacheName {
      WithoutTwice(start, StaleAmong(names[..i]), {names[i]});
      assert StaleAmong(names[..i]) + {names[i]} == StaleAmong(names[..i + 1]);
    } else {
      assert StaleAmong(names[..i + 1]) == StaleAmong(names[..i]);
    }
  }

  lemma StaleAmongAll(s: Storage, names: seq<string>)
    requires |names| == |s| && forall i :: 0 <= i < |s| ==> names[i] == s[i].name
    ensures StaleAmong(names) == StaleNames(s, CacheName)
  {
    forall n | n in StaleAmong(names) ensures n in StaleNames(s, CacheName) {
      var k :| 0 <= k < |names| && names[k] == n;
    }
  }

  /** The body of the fetch listener on the store `s`: GET requests only, cache first,
      then the network, writing a 200 basic response through to the current cache and
      falling back to the cached shell page for an HTML request when offline. The
      listener's steps, one branch at a time; `HandleFetch` states the same step as one
      value, and the ensures ties the two. */
  method FetchOnce(s: Storage, req: Request, network: string -> FetchResult) returns (reply: Reply, fetched: bool, after: Storage)
    ensures FetchStep(reply, fetched, after) == HandleFetch(s, req, network)
  {
    after := s;
    fetched := false;
    if req.verb != "GET" {
      reply := NotIntercepted;
      return;
    }
    var hit := MatchAll(s, req.url);
    if hit.Some? {
      reply := Respond(hit);
      return;
    }
    fetched := true;
    var result := network(req.url);
    if result.Arrived? {
      var response := result.response;
      if Cacheable(response) {
        var copy := response.value;
        FetchWritesThrough(s, req, network);
        after := WriteThrough(s, req.url, copy);
      }
      reply := Respond(response);
    } else if req.accept.None? {
      reply := Reject;
    } else if Includes(req.accept.value, "text/html") {
      reply := Respond(MatchAll(s, ShellPage));
    } else {
      reply := Respond(None);
    }
  }

  /** The deletions of the activate listener: for each name `caches.keys()` gives, in
      order, a `caches.delete` when it is not the current version. The store left is
      the activation store. */
  method DeleteStale(start: Storage) returns (kept: Storage)
    ensures kept == Activate(start)
  {
    var names := NamesOf(start);
    kept := start;
    var i := 0;
    DeleteNone(start, names);
    while i < |names|
      invariant 0 <= i <= |names|
      invariant kept == Without(start, StaleAmong(names[..i]))
    {
      DeleteStep(start, names, i);
      if names[i] != CacheName {
        kept := Without(kept, {names[i]});
      }
      i := i + 1;
    }
    DeleteAll(start, names);
  }

  /** The service worker: the cache store it shares with every other version of itself,
      and the two lifecycle requests it makes of the browser. */
  class Controller {
    var storage: Storage
    var waitingSkipped: bool
    var clientsClaimed: bool

    constructor (existing: Storage)
      ensures storage == existing && !waitingSkipped && !clientsClaimed
    {
      storage := existing;
      waitingSkipped := false;
      clientsClaimed := false;
    }

    /** The install listener: pre-load the shell into the current cache, swallow a
        failure, and ask to skip waiting either way. The steps on the stored caches are
        those `Install` states as a value. */
    method OnInstall(network: string -> FetchResult)
      modifies this
      ensures storage == Install(old(storage), network)
      ensures waitingSkipped && clientsClaimed == old(clientsClaimed)
    {
      var shelf := Open(storage, CacheName);
      var loaded := AddAll(shelf, CacheName, UrlsToCache, network);
      if loaded.Some? {
        storage := loaded.value;
      } else {
        storage := shelf;
      }
      waitingSkipped := true;
    }

    /** The fetch listener. */
    method OnFetch(req: Request, network: string -> FetchResult) returns (reply: Reply, fetched: bool)
      modifies this
      ensures FetchStep(reply, fetched, storage) == HandleFetch(old(storage), req, network)
      ensures waitingSkipped == old(waitingSkipped) && clientsClaimed == old(clientsClaimed)
    {
      var after;
      reply, fetched, after := FetchOnce(storage, req, network);
      storage := after;
    }

    /** The activate listener: delete, one by one, every cache whose name is not the
        current version, then claim the open pages. */
    method OnActivate()
      modifies this
      ensures storage == Activate(old(storage))
      ensures clientsClaimed && waitingSkipped == old(waitingSkipped)
    {
      storage := DeleteStale(storage);
      clientsClaimed := true;
    }
  }
}
