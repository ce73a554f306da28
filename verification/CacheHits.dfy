/** The gateway's cache branch over whole runs: what a HIT replays. */
module CacheHits {
  import opened Common
  import opened CacheKeys
  import opened CachePolicy
  import opened CacheStores

  datatype Response = Response(statusCode: int, headers: map<string, HeaderValue>, body: seq<int>)

  datatype Settings = Settings(rt: Runtime, routes: map<string, Route>, maxBodyBytes: int, keepsAtDeadline: bool)

  type Entries = map<string, Entry<Response>>

  /** Times are in ms. An answer may come long after the miss that asked for it, and its cache write may fail. */
  datatype Event =
    | Asked(routeId: string, request: Request, at: real)
    | Answered(routeId: string, request: Request, upstream: Response, written: bool, at: real)
    | Purged(routeId: string, path: Option<string>, at: real)
    | Evicted(key: string, at: real)

  predicate Known(s: Settings, routeId: string) {
    routeId in s.routes && s.routes[routeId].id == routeId
  }

  function KeyOf(s: Settings, routeId: string, request: Request): string
    requires Known(s, routeId)
  {
    BuildCacheKey(s.rt, s.routes[routeId], request)
  }

  predicate Live(s: Settings, e: Entry<Response>, now: real) {
    now < e.expiresAt || (s.keepsAtDeadline && now == e.expiresAt)
  }

  /** Only GET requests to a known route meet the cache. */
  function Found(s: Settings, entries: Entries, routeId: string, request: Request, now: real): Option<Response> {
    if request.verb != "GET" || !Known(s, routeId) then None
    else
      var key := KeyOf(s, routeId, request);
      if key in entries && Live(s, entries[key], now) then Some(entries[key].response) else None
  }

  function DecisionFor(s: Settings, routeId: string, upstream: Response): CacheDecision
    requires Known(s, routeId)
  {
    DecideCacheability(s.rt, upstream.statusCode, upstream.headers, s.routes[routeId].ttlSec)
  }

  predicate Stores(s: Settings, e: Event) {
    && e.Answered? && e.written && e.request.verb == "GET" && Known(s, e.routeId)
    && DecisionFor(s, e.routeId, e.upstream).cacheable && |e.upstream.body| <= s.maxBodyBytes
  }

  function Kept(s: Settings, upstream: Response): Response {
    Response(upstream.statusCode, Stripped(s.rt, upstream.headers), upstream.body)
  }

  function NewEntry(s: Settings, e: Event): Entry<Response>
    requires Stores(s, e)
  {
    Entry(Kept(s, e.upstream), e.at + DecisionFor(s, e.routeId, e.upstream).ttlSec * 1000.0)
  }

  function Step(s: Settings, entries: Entries, e: Event): Entries {
    match e
    case Asked(routeId, request, at) =>
      if request.verb == "GET" && Known(s, routeId) && KeyOf(s, routeId, request) in entries
          && Found(s, entries, routeId, request, at).None?
      then entries - {KeyOf(s, routeId, request)} else entries
    case Answered(routeId, request, upstream, written, at) =>
      if Stores(s, e) then entries[KeyOf(s, routeId, request) := NewEntry(s, e)] else entries
    case Purged(routeId, path, _) => Without(entries, CacheKeyPrefix(s.rt, routeId, path))
    case Evicted(key, _) => entries - {key}
  }

  function After(s: Settings, h: seq<Event>): Entries {
    if |h| == 0 then map[] else Step(s, After(s, Front(h)), Last(h))
  }

  predicate InOrder(h: seq<Event>) {
    forall i, j :: 0 <= i < j < |h| ==> h[i].at <= h[j].at
  }

  // ---------------------------------------------------- where an entry comes from

  predicate Clears(s: Settings, e: Event, key: string) {
    || (e.Purged? && CacheKeyPrefix(s.rt, e.routeId, e.path) <= key)
    || (e.Evicted? && e.key == key)
    || (Stores(s, e) && KeyOf(s, e.routeId, e.request) == key)
  }

  /** Event j wrote this entry, and nothing since has purged, evicted or replaced it. */
  ghost predicate WrittenAt(s: Settings, h: seq<Event>, j: int, key: string, entry: Entry<Response>) {
    && 0 <= j < |h| && Stores(s, h[j]) && KeyOf(s, h[j].routeId, h[j].request) == key && entry == NewEntry(s, h[j])
    && forall i :: j < i < |h| ==> !Clears(s, h[i], key)
  }

  lemma EntryStep(s: Settings, h: seq<Event>, e: Event, key: string)
    requires key in Step(s, After(s, h), e)
    requires forall k :: k in After(s, h) ==> exists j :: WrittenAt(s, h, j, k, After(s, h)[k])
    ensures exists j :: WrittenAt(s, h + [e], j, key, Step(s, After(s, h), e)[key])
  {
    hide After, KeyOf, NewEntry, Stores, Live, CacheKeyPrefix;
    var entries, g := After(s, h), h + [e];
    StoresShape(s, e);
    if Stores(s, e) && KeyOf(s, e.routeId, e.request) == key {
      assert WrittenAt(s, g, |h|, key, NewEntry(s, e));
    } else {
      assert key in entries && Step(s, entries, e)[key] == entries[key] && !Clears(s, e, key);
      var j :| WrittenAt(s, h, j, key, entries[key]);
      assert WrittenAt(s, g, j, key, entries[key]) by {
        assert forall i :: j < i < |g| ==> (i < |h| && g[i] == h[i]) || g[i] == e;
      }
    }
  }

  lemma StoresShape(s: Settings, e: Event)
    ensures Stores(s, e) ==> e.Answered? && Known(s, e.routeId)
  {}

  lemma {:induction false} EntriesAreWritten(s: Settings, h: seq<Event>)
    ensures forall k :: k in After(s, h) ==> exists j :: WrittenAt(s, h, j, k, After(s, h)[k])
  {
    hide Step, WrittenAt;
    if |h| > 0 {
      EntriesAreWritten(s, Front(h));
      assert h == Front(h) + [Last(h)];
      forall k | k in After(s, h) ensures exists j :: WrittenAt(s, h, j, k, After(s, h)[k]) {
        EntryStep(s, Front(h), Last(h), k);
      }
    }
  }

  // ------------------------------------------------------------------- a HIT

  predicate Separable(s: Settings, e: Event) {
    (e.Asked? || e.Answered?) && Known(s, e.routeId) ==> BarFree(s.rt, s.routes[e.routeId], e.request)
  }

  /** The hash is as good as injective on what these two requests feed it. */
  predicate NoCollision(s: Settings, routeId: string, r: Request, r': Request)
    requires Known(s, routeId)
  {
    var route := s.routes[routeId];
    !Collide(s.rt, PathOf(r.url), PathOf(r'.url)) && !Collide(s.rt, Variant(s.rt, route, r), Variant(s.rt, route, r'))
  }

  /** The upstream's 200 answer, body and headers, but for its Set-Cookie headers. */
  ghost predicate IsCopy(rt: Runtime, reply: Response, upstream: Response) {
    && reply.statusCode == 200 && reply.body == upstream.body
    && (forall k :: k in reply.headers <==> k in upstream.headers && rt.lower(k) != "set-cookie")
    && (forall k :: k in reply.headers ==> reply.headers[k] == upstream.headers[k])
  }

  /** The stored answer a was given for the page q asks for, was allowed into the cache, and is in both lifetimes. */
  ghost predicate Justifies(s: Settings, a: Event, q: Event, reply: Response)
    requires q.Asked? && Known(s, q.routeId)
  {
    var route := s.routes[q.routeId];
    && a.Answered? && a.routeId == q.routeId && SamePage(s.rt, route, a.request, q.request)
    && a.upstream.statusCode == 200 && !Forbidden(s.rt, a.upstream.headers) && |a.upstream.body| <= s.maxBodyBytes
    && IsCopy(s.rt, reply, a.upstream)
    && a.at <= q.at && InTime(s, a.at, route.ttlSec as real, q.at)
    && var maxAge := MaxAge(s.rt, DirectivesOf(s.rt, a.upstream.headers));
    (maxAge.Some? ==> InTime(s, a.at, maxAge.value, q.at))
  }

  predicate InTime(s: Settings, stored: real, ttlSec: real, now: real) {
    now < stored + ttlSec * 1000.0 || (s.keepsAtDeadline && now == stored + ttlSec * 1000.0)
  }

  /** A purge of the whole route, or of the very path that is asked for. */
  predicate PurgesPage(e: Event, routeId: string, url: string) {
    e.Purged? && e.routeId == routeId && (e.path.None? || UnderPath(e.path.value, url))
  }

  /**
   HIT soundness, on every run of misses, late answers, failed writes, purges
   and evictions over any number of routes: a HIT replays the 200 answer,
   without Set-Cookie, that an upstream gave for the same page (route, path,
   method, query, tenant, host part, vary values) less than
   min(max-age, ttlSec) seconds earlier, and the route and the path have not
   been purged since.
   */
  lemma HitsAreSound(s: Settings, h: seq<Event>, n: nat)
    requires InOrder(h) && n < |h| && h[n].Asked?
    requires forall i :: 0 <= i < |h| ==> Separable(s, h[i])
    requires forall i ::
        0 <= i < n && h[i].Answered? && Known(s, h[n].routeId)
        ==> NoCollision(s, h[n].routeId, h[i].request, h[n].request)
    requires Found(s, After(s, h[..n]), h[n].routeId, h[n].request, h[n].at).Some?
    ensures Known(s, h[n].routeId)
    ensures exists j :: 0 <= j < n
                        && Justifies(s, h[j], h[n], Found(s, After(s, h[..n]), h[n].routeId, h[n].request,
                           h[n].at).value)
                        && forall i :: j < i < n ==> !PurgesPage(h[i], h[n].routeId, h[n].request.url)
  {
    hide After, BuildCacheKey, BarFree, SamePage, Collide, Stripped, CacheKeyPrefix, UnderPath, IsCopy;
    var g, q := h[..n], h[n];
    var key := KeyOf(s, q.routeId, q.request);
    EntriesAreWritten(s, g);
    var entry := After(s, g)[key];
    var j :| WrittenAt(s, g, j, key, entry);
    var a := h[j];
    assert g[j] == a && a.at <= q.at;
    StoredJustifies(s, a, q, entry);
    forall i | j < i < n ensures !PurgesPage(h[i], q.routeId, q.request.url) {
      assert g[i] == h[i] && !Clears(s, g[i], key);
      if h[i].Purged? {
        PurgePrefixIsExact(s.rt, h[i].routeId, h[i].path, s.routes[q.routeId], q.request);
      }
    }
  }

  lemma StoredJustifies(s: Settings, a: Event, q: Event, entry: Entry<Response>)
    requires q.Asked? && Known(s, q.routeId) && Stores(s, a) && a.at <= q.at
    requires KeyOf(s, a.routeId, a.request) == KeyOf(s, q.routeId, q.request)
    requires entry == NewEntry(s, a) && Live(s, entry, q.at)
    requires Separable(s, a) && Separable(s, q) && NoCollision(s, q.routeId, a.request, q.request)
    ensures Justifies(s, a, q, entry.response)
  {
    hide BuildCacheKey, BarFree, SamePage, Collide, Forbidden, DirectivesOf, DecideCacheability, Variant, PathOf;
    KeysTellPagesApart(s.rt, s.routes[a.routeId], a.request, s.routes[q.routeId], q.request);
    CachedExactlyWhenAllowed(s.rt, a.upstream.statusCode, a.upstream.headers, s.routes[q.routeId].ttlSec);
    LongerLives(s, a.at, DecisionFor(s, q.routeId, a.upstream).ttlSec, s.routes[q.routeId].ttlSec as real, q.at);
    var m := MaxAge(s.rt, DirectivesOf(s.rt, a.upstream.headers));
    if m.Some? { LongerLives(s, a.at, DecisionFor(s, q.routeId, a.upstream).ttlSec, m.value, q.at); }
  }

  lemma LongerLives(s: Settings, stored: real, ttl: real, longer: real, now: real)
    requires ttl <= longer && InTime(s, stored, ttl, now)
    ensures InTime(s, stored, longer, now)
  {}

  // ------------------------------------------------------------- and no less

  /** Event j's answer may be cached for t seconds: a GET's 200 that nothing forbids and that is not too large. */
  ghost predicate MayBeKept(s: Settings, e: Event, t: real) {
    && e.Answered? && e.written && e.request.verb == "GET" && Known(s, e.routeId)
    && e.upstream.statusCode == 200 && !Forbidden(s.rt, e.upstream.headers) && |e.upstream.body| <= s.maxBodyBytes
    && Permitted(s.rt, DirectivesOf(s.rt, e.upstream.headers), s.routes[e.routeId].ttlSec, t)
  }

  lemma MayBeKeptIsStored(s: Settings, e: Event, t: real)
    requires MayBeKept(s, e, t)
    ensures Stores(s, e) && NewEntry(s, e).expiresAt >= e.at + t * 1000.0
    ensures IsCopy(s.rt, NewEntry(s, e).response, e.upstream)
  {
    hide BuildCacheKey, Forbidden, DirectivesOf, DecideCacheability;
    CachedExactlyWhenAllowed(s.rt, e.upstream.statusCode, e.upstream.headers, s.routes[e.routeId].ttlSec);
  }

  lemma {:induction false} EntryStays(s: Settings, h: seq<Event>, j: nat, key: string)
    requires j < |h| && Stores(s, h[j]) && KeyOf(s, h[j].routeId, h[j].request) == key
    requires forall i :: j < i < |h| ==> !Clears(s, h[i], key) && h[i].at < NewEntry(s, h[j]).expiresAt
    ensures key in After(s, h) && After(s, h)[key] == NewEntry(s, h[j])
  {
    hide KeyOf, NewEntry, Stores, CacheKeyPrefix;
    if j < |h| - 1 {
      var front, e := Front(h), Last(h);
      assert front[j] == h[j] && h[|h| - 1] == e;
      EntryStays(s, front, j, key);
      StoresShape(s, e);
    } else {
      StoresShape(s, h[j]);
    }
  }

  /**
   Nothing is lost before its time: an answer that may be kept for t seconds is
   the answer of every request for the same page within them, as long as nothing
   has purged, evicted or replaced it.
   */
  lemma HitsAreComplete(s: Settings, h: seq<Event>, j: nat, n: nat, t: real)
    requires InOrder(h) && j < n < |h| && MayBeKept(s, h[j], t)
    requires h[n].Asked? && h[n].routeId == h[j].routeId
    requires SamePage(s.rt, s.routes[h[j].routeId], h[j].request, h[n].request) && h[n].at < h[j].at + t * 1000.0
    requires forall i :: j < i < n ==> !Clears(s, h[i], KeyOf(s, h[j].routeId, h[j].request))
    ensures var found := Found(s, After(s, h[..n]), h[n].routeId, h[n].request, h[n].at);
            found.Some? && IsCopy(s.rt, found.value, h[j].upstream)
  {
    var g, key := h[..n], KeyOf(s, h[j].routeId, h[j].request);
    MayBeKeptIsStored(s, h[j], t);
    SamePageSameKey(s.rt, s.routes[h[j].routeId], h[j].request, h[n].request);
    hide After, BuildCacheKey, IsCopy, Permitted, Forbidden, Clears, NewEntry;
    assert g[j] == h[j];
    forall i | j < i < |g| ensures !Clears(s, g[i], key) && g[i].at < NewEntry(s, g[j]).expiresAt {
      assert g[i] == h[i] && h[i].at <= h[n].at;
    }
    EntryStays(s, g, j, key);
  }

  // ------------------------------------------------ the handler, step by step

  datatype Reply = Reply(hit: bool, response: Response)

  class CacheBranch {
    const settings: Settings
    const store: MemoryCacheStore<Response>

    constructor (settings: Settings, store: MemoryCacheStore<Response>)
      ensures this.settings == settings && this.store == store
    {
      this.settings, this.store := settings, store;
    }

    /** Asks the store first; on a miss forwards, and keeps what may be kept. The memory store's writes do not fail. */
    method Handle(routeId: string, request: Request, upstream: Response, asked: real, answered: real)
        returns (reply: Reply)
      requires Known(settings, routeId) && !settings.keepsAtDeadline
      modifies store
      ensures var found := Found(settings, old(store.entries), routeId, request, asked);
              var missed := Step(settings, old(store.entries), Asked(routeId, request, asked));
              && reply == (if found.Some? then Reply(true, found.value) else Reply(false, upstream))
              && store.entries == if found.Some? then missed
                                  else Step(settings, missed, Answered(routeId, request, upstream, true, answered))
    {
      hide BuildCacheKey, DecideCacheability, Visible, Stripped, HasSetCookie;
      var route := settings.routes[routeId];
      if request.verb == "GET" {
        var cacheKey := BuildCacheKey(settings.rt, route, request);
        VisibleKey(store.entries, cacheKey, asked);
        var cached := store.Get(cacheKey, asked);
        if cached.Some? {
          return Reply(true, cached.value);
        }
        var decision := CachePolicy.Decide(settings.rt, upstream.statusCode, upstream.headers, route.ttlSec);
        if decision.cacheable && |upstream.body| <= settings.maxBodyBytes {
          var headers := StripUncacheableHeaders(settings.rt, upstream.headers);
          store.Set(cacheKey, Response(upstream.statusCode, headers, upstream.body), decision.ttlSec, answered);
        }
      }
      reply := Reply(false, upstream);
    }
  }

  /** The same handler on the shared Redis store, where keys expire by themselves and a write may fail. */
  class SharedCacheBranch {
    const settings: Settings
    var entries: Entries

    constructor (settings: Settings)
      ensures this.settings == settings && entries == map[]
    {
      this.settings := settings;
      entries := map[];
    }

    /** GET: an expired key is gone. */
    method Get(key: string, now: real) returns (found: Option<Response>)
      modifies this`entries
      ensures found == if key in old(entries) && Live(settings, old(entries)[key], now)
          then Some(old(entries)[key].response) else None
      ensures entries == if key in old(entries) && found.None? then old(entries) - {key} else old(entries)
    {
      if key !in entries { return None; }
      if !Live(settings, entries[key], now) {
        entries := entries - {key};
        return None;
      }
      found := Some(entries[key].response);
    }

    method Handle(routeId: string, request: Request, upstream: Response, writeFails: bool, asked: real, answered: real)
      returns (reply: Reply)
      requires Known(settings, routeId)
      modifies this`entries
      ensures var found := Found(settings, old(entries), routeId, request, asked);
              var missed := Step(settings, old(entries), Asked(routeId, request, asked));
              && reply == (if found.Some? then Reply(true, found.value) else Reply(false, upstream))
              && entries == if found.Some? then missed
                            else Step(settings, missed, Answered(routeId, request, upstream, !writeFails, answered))
    {
      hide BuildCacheKey, DecideCacheability, Stripped, HasSetCookie;
      var route := settings.routes[routeId];
      if request.verb == "GET" {
        var cacheKey := BuildCacheKey(settings.rt, route, request);
        var cached := Get(cacheKey, asked);
        if cached.Some? {
          return Reply(true, cached.value);
        }
        var decision := CachePolicy.Decide(settings.rt, upstream.statusCode, upstream.headers, route.ttlSec);
        if decision.cacheable && |upstream.body| <= settings.maxBodyBytes && !writeFails {
          var headers := StripUncacheableHeaders(settings.rt, upstream.headers);
          var kept := Response(upstream.statusCode, headers, upstream.body);
          entries := entries[cacheKey := Entry(kept, answered + decision.ttlSec * 1000.0)];
        }
      }
      reply := Reply(false, upstream);
    }
  }

  lemma VisibleKey(entries: Entries, key: string, now: real)
    ensures key in Visible(entries, now) <==> key in entries && now < entries[key].expiresAt
    ensures key in Visible(entries, now) ==> Visible(entries, now)[key] == entries[key].response
  {}
}
