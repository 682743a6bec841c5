/**
 * `PubService`: nearby venues for a point, cached per rounded point for
 * five minutes, with a sample list when the live query fails.
 *
 * The outside world enters as parameters: `now` is the clock read when a
 * cached entry is checked, `upstream` is what the Overpass POST produced
 * (a body, or a failure of any kind), `fetchedAt` is the clock read when
 * the result is stored, `draws` are the six `Math.random()` values the
 * fallback consumes, and `show` renders a number in the query text.
 */
module Service {
  import opened Wrappers
  import opened Text
  import opened Pubs
  import Overpass
  import OverpassQuery
  import MockData
  import CacheKey

  /** Five minutes, in milliseconds. */
  const CACHE_TIMEOUT: int := 5 * 60 * 1000

  datatype CacheEntry = CacheEntry(data: seq<Pub>, timestamp: int)

  type Cache = map<string, CacheEntry>

  /** What the POST to the Overpass interpreter produced. */
  datatype Upstream = Responded(body: Option<Overpass.Body>) | Failed

  /** What one lookup returns and leaves behind: the venues, the query it posted (if any), the cache. */
  datatype Outcome = Outcome(pubs: seq<Pub>, query: Option<string>, cache: Cache)

  /** Six values `Math.random()` may return, two per sample venue. */
  predicate ValidDraws(draws: seq<real>) {
    |draws| == 2 * |MockData.MOCK_PUBS| && forall i :: 0 <= i < |draws| ==> MockData.IsRandomDraw(draws[i])
  }

  /** An entry is still served while it is younger than the timeout. */
  predicate IsFresh(entry: CacheEntry, now: int, timeout: int) {
    now - entry.timestamp < timeout
  }

  predicate FreshHit(cache: Cache, key: string, now: int, timeout: int) {
    key in cache && IsFresh(cache[key], now, timeout)
  }

  /** A list that came from a response: at most fifty located OpenStreetMap records. */
  predicate Cacheable(pubs: seq<Pub>) {
    && |pubs| <= Overpass.MAX_RESULTS
    && forall i :: 0 <= i < |pubs| ==>
         pubs[i].latitude != 0.0 && pubs[i].longitude != 0.0 && StartsWith(pubs[i].id, "osm-")
  }

  /** The cache holds only parsed responses, never the fallback samples. */
  predicate CacheValid(cache: Cache) {
    forall k :: k in cache ==> Cacheable(cache[k].data)
  }

  /** `findNearbyPubs` as a function of the cache before the call. */
  function Find(cache: Cache, timeout: int, latitude: real, longitude: real, radiusKm: real,
                now: int, upstream: Upstream, fetchedAt: int, draws: seq<real>, show: real -> string): (r: Outcome)
    requires ValidDraws(draws)
    ensures CacheValid(cache) ==> |r.pubs| <= Overpass.MAX_RESULTS
    ensures r.query.None? <==> FreshHit(cache, CacheKey.Key(latitude, longitude), now, timeout)
    ensures r.query.None? || upstream.Failed? ==> r.cache == cache
    ensures r.cache.Keys <= cache.Keys + {CacheKey.Key(latitude, longitude)}
  {
    var key := CacheKey.Key(latitude, longitude);
    if FreshHit(cache, key, now, timeout) then
      Outcome(cache[key].data, None, cache)
    else
      var query := Some(OverpassQuery.QueryText(latitude, longitude, radiusKm, show));
      match upstream
      case Responded(body) =>
        var pubs := Overpass.Parse(body);
        Outcome(pubs, query, cache[key := CacheEntry(pubs, fetchedAt)])
      case Failed =>
        Outcome(MockData.MockPubsNear(latitude, longitude, draws), query, cache)
  }

  class PubService {
    var cache: Cache
    const cacheTimeout: int

    ghost predicate Valid()
      reads this
    {
      CacheValid(cache)
    }

    /** An empty cache and a five-minute timeout. */
    constructor ()
      ensures Valid()
      ensures cache == map[] && cacheTimeout == CACHE_TIMEOUT
    {
      cache := map[];
      cacheTimeout := CACHE_TIMEOUT;
    }

    /** The venues near a point: served from the cache, fetched and stored, or the samples. */
    method FindNearbyPubs(latitude: real, longitude: real, radiusKm: real, now: int,
                          upstream: Upstream, fetchedAt: int, draws: seq<real>, show: real -> string)
      returns (pubs: seq<Pub>, query: Option<string>)
      requires Valid()
      requires ValidDraws(draws)
      modifies this
      ensures Valid()
      ensures Outcome(pubs, query, cache) ==
        Find(old(cache), cacheTimeout, latitude, longitude, radiusKm, now, upstream, fetchedAt, draws, show)
      ensures |pubs| <= Overpass.MAX_RESULTS
      ensures query.None? ==> cache == old(cache)
      ensures upstream.Failed? ==> cache == old(cache)
      ensures cache.Keys <= old(cache).Keys + {CacheKey.Key(latitude, longitude)}
    {
      var key := CacheKey.Key(latitude, longitude);
      if key in cache {
        var cached := cache[key];
        if now - cached.timestamp < cacheTimeout {
          return cached.data, None;
        }
      }
      query := Some(OverpassQuery.QueryText(latitude, longitude, radiusKm, show));
      match upstream {
        case Responded(body) =>
          pubs := Overpass.Parse(body);
          ParseIsCacheable(body);
          cache := cache[key := CacheEntry(pubs, fetchedAt)];
        case Failed =>
          pubs := MockData.MockPubsNear(latitude, longitude, draws);
      }
    }

    /** Drops every cache entry. */
    method ClearCache()
      modifies this
      ensures Valid()
      ensures cache == map[]
    {
      cache := map[];
    }
  }

  /** Every parsed response may be cached. */
  lemma ParseIsCacheable(body: Option<Overpass.Body>)
    ensures Cacheable(Overpass.Parse(body))
  {
    forall k | 0 <= k < |Overpass.Parse(body)|
      ensures Overpass.Parse(body)[k].latitude != 0.0 && Overpass.Parse(body)[k].longitude != 0.0
      ensures StartsWith(Overpass.Parse(body)[k].id, "osm-")
    {
      Overpass.ParsedPubsLocated(body, k);
    }
  }

  /** A lookup keeps the cache free of fallback samples and unlocated records. */
  lemma FindPreservesCacheValid(cache: Cache, timeout: int, latitude: real, longitude: real, radiusKm: real,
                                now: int, upstream: Upstream, fetchedAt: int, draws: seq<real>, show: real -> string)
    requires CacheValid(cache) && ValidDraws(draws)
    ensures CacheValid(Find(cache, timeout, latitude, longitude, radiusKm, now, upstream, fetchedAt, draws, show).cache)
  {
    var o := Find(cache, timeout, latitude, longitude, radiusKm, now, upstream, fetchedAt, draws, show);
    var key := CacheKey.Key(latitude, longitude);
    if !FreshHit(cache, key, now, timeout) && upstream.Responded? {
      ParseIsCacheable(upstream.body);
      assert o.cache == cache[key := CacheEntry(Overpass.Parse(upstream.body), fetchedAt)];
    }
  }

  /**
   * A fresh entry under the request's key is returned as stored, with no
   * query posted and the cache untouched.
   */
  lemma FreshEntryIsServed(cache: Cache, timeout: int, latitude: real, longitude: real, radiusKm: real,
                           now: int, upstream: Upstream, fetchedAt: int, draws: seq<real>, show: real -> string)
    requires ValidDraws(draws)
    requires CacheKey.Key(latitude, longitude) in cache
    requires now - cache[CacheKey.Key(latitude, longitude)].timestamp < timeout
    ensures var o := Find(cache, timeout, latitude, longitude, radiusKm, now, upstream, fetchedAt, draws, show);
            o.pubs == cache[CacheKey.Key(latitude, longitude)].data && o.query == None && o.cache == cache
  {
  }

  /**
   * A missing or expired entry makes the service post the query for the
   * request; an expired entry's list is not what is returned (unless the
   * new answer happens to equal it).
   */
  lemma MissOrStaleQueries(cache: Cache, timeout: int, latitude: real, longitude: real, radiusKm: real,
                           now: int, upstream: Upstream, fetchedAt: int, draws: seq<real>, show: real -> string)
    requires ValidDraws(draws)
    requires var key := CacheKey.Key(latitude, longitude);
             key !in cache || now - cache[key].timestamp >= timeout
    ensures var o := Find(cache, timeout, latitude, longitude, radiusKm, now, upstream, fetchedAt, draws, show);
            && o.query == Some(OverpassQuery.QueryText(latitude, longitude, radiusKm, show))
            && o.pubs == match upstream
                         case Responded(body) => Overpass.Parse(body)
                         case Failed => MockData.MockPubsNear(latitude, longitude, draws)
  {
  }

  /**
   * A successful query overwrites the request's slot with the returned
   * list, stamped `fetchedAt`; every other slot keeps its entry.
   */
  lemma SuccessOverwritesOnlyItsSlot(cache: Cache, timeout: int, latitude: real, longitude: real, radiusKm: real,
                                     now: int, body: Option<Overpass.Body>, fetchedAt: int, draws: seq<real>,
                                     show: real -> string, other: string)
    requires ValidDraws(draws)
    requires !FreshHit(cache, CacheKey.Key(latitude, longitude), now, timeout)
    requires other != CacheKey.Key(latitude, longitude)
    ensures var o := Find(cache, timeout, latitude, longitude, radiusKm, now, Responded(body), fetchedAt, draws, show);
            && CacheKey.Key(latitude, longitude) in o.cache
            && o.cache[CacheKey.Key(latitude, longitude)] == CacheEntry(o.pubs, fetchedAt)
            && o.pubs == Overpass.Parse(body)
            && o.cache.Keys == cache.Keys + {CacheKey.Key(latitude, longitude)}
            && (other in o.cache <==> other in cache)
            && (other in cache ==> o.cache[other] == cache[other])
  {
  }

  /**
   * A failed query returns the three samples near the request, in sample
   * order, ids "mock-1" to "mock-3", each coordinate within 0.005 of the
   * request, and leaves the cache as it was.
   */
  lemma FailureFallsBackToSamples(cache: Cache, timeout: int, latitude: real, longitude: real, radiusKm: real,
                                  now: int, fetchedAt: int, draws: seq<real>, show: real -> string)
    requires ValidDraws(draws)
    requires !FreshHit(cache, CacheKey.Key(latitude, longitude), now, timeout)
    ensures var o := Find(cache, timeout, latitude, longitude, radiusKm, now, Failed, fetchedAt, draws, show);
            && o.cache == cache
            && |o.pubs| == 3
            && o.pubs[0].id == "mock-1" && o.pubs[1].id == "mock-2" && o.pubs[2].id == "mock-3"
            && (forall i :: 0 <= i < 3 ==>
                 && o.pubs[i].name == MockData.MOCK_PUBS[i].name
                 && o.pubs[i].address == MockData.MOCK_PUBS[i].address
                 && o.pubs[i].kind == MockData.MOCK_PUBS[i].kind
                 && -0.005 <= o.pubs[i].latitude - latitude <= 0.005
                 && -0.005 <= o.pubs[i].longitude - longitude <= 0.005)
  {
    MockData.MockIds();
  }

  /**
   * Every answer has at most fifty records, and each record is either a
   * located OpenStreetMap record or one of the samples: the "mock-" ids
   * tell the two apart.
   */
  lemma AnswerIsBoundedAndMarked(cache: Cache, timeout: int, latitude: real, longitude: real, radiusKm: real,
                                 now: int, upstream: Upstream, fetchedAt: int, draws: seq<real>, show: real -> string)
    requires CacheValid(cache) && ValidDraws(draws)
    ensures var o := Find(cache, timeout, latitude, longitude, radiusKm, now, upstream, fetchedAt, draws, show);
            && |o.pubs| <= Overpass.MAX_RESULTS
            && (Cacheable(o.pubs) || (o.query.Some? && upstream.Failed? && o.pubs == MockData.MockPubsNear(latitude, longitude, draws)))
            && Marked(o.pubs)
  {
    var o := Find(cache, timeout, latitude, longitude, radiusKm, now, upstream, fetchedAt, draws, show);
    var key := CacheKey.Key(latitude, longitude);
    if FreshHit(cache, key, now, timeout) {
      assert o.pubs == cache[key].data;
      CacheableIsMarked(o.pubs);
    } else if upstream.Responded? {
      ParseIsCacheable(upstream.body);
      assert o.pubs == Overpass.Parse(upstream.body);
      CacheableIsMarked(o.pubs);
    } else {
      assert o.pubs == MockData.MockPubsNear(latitude, longitude, draws);
      SamplesAreMarked(latitude, longitude, draws);
    }
  }

  /** Each id starts with exactly one of "osm-" and "mock-". */
  predicate Marked(pubs: seq<Pub>) {
    forall i :: 0 <= i < |pubs| ==> StartsWith(pubs[i].id, "osm-") != StartsWith(pubs[i].id, "mock-")
  }

  /** Helper: cached records carry "osm-" ids only. */
  lemma CacheableIsMarked(pubs: seq<Pub>)
    requires Cacheable(pubs)
    ensures Marked(pubs)
  {
    forall i | 0 <= i < |pubs|
      ensures StartsWith(pubs[i].id, "osm-") != StartsWith(pubs[i].id, "mock-")
    {
      assert pubs[i].id[0] == 'o';
    }
  }

  /** Helper: the samples carry "mock-" ids only. */
  lemma SamplesAreMarked(latitude: real, longitude: real, draws: seq<real>)
    requires ValidDraws(draws)
    ensures Marked(MockData.MockPubsNear(latitude, longitude, draws))
  {
    var pubs := MockData.MockPubsNear(latitude, longitude, draws);
    forall i | 0 <= i < |pubs|
      ensures StartsWith(pubs[i].id, "osm-") != StartsWith(pubs[i].id, "mock-")
    {
      assert pubs[i].id[0] == 'm';
    }
  }


  /**
   * Idempotence within the timeout: after a lookup that did not fail, a
   * second lookup whose point rounds to the same key, made while the stored
   * entry is still fresh, returns the same list, posts no query and leaves
   * the cache as the first lookup left it.
   */
  lemma RepeatWithinTimeoutIsServedFromCache(
    cache: Cache, timeout: int, radiusKm: real, draws: seq<real>, show: real -> string,
    lat1: real, lon1: real, now1: int, upstream1: Upstream, fetchedAt1: int,
    lat2: real, lon2: real, radiusKm2: real, now2: int, upstream2: Upstream, fetchedAt2: int,
    draws2: seq<real>, show2: real -> string)
    requires ValidDraws(draws) && ValidDraws(draws2)
    requires CacheKey.Key(lat1, lon1) == CacheKey.Key(lat2, lon2)
    requires var o1 := Find(cache, timeout, lat1, lon1, radiusKm, now1, upstream1, fetchedAt1, draws, show);
             !(o1.query.Some? && upstream1.Failed?)
    requires var o1 := Find(cache, timeout, lat1, lon1, radiusKm, now1, upstream1, fetchedAt1, draws, show);
             now2 - o1.cache[CacheKey.Key(lat1, lon1)].timestamp < timeout
    ensures var o1 := Find(cache, timeout, lat1, lon1, radiusKm, now1, upstream1, fetchedAt1, draws, show);
            var o2 := Find(o1.cache, timeout, lat2, lon2, radiusKm2, now2, upstream2, fetchedAt2, draws2, show2);
            o2.pubs == o1.pubs && o2.query == None && o2.cache == o1.cache
  {
    AnswerIsStored(cache, timeout, lat1, lon1, radiusKm, now1, upstream1, fetchedAt1, draws, show);
  }

  /** After a lookup that did not fail, the request's slot holds exactly the answer. */
  lemma AnswerIsStored(cache: Cache, timeout: int, latitude: real, longitude: real, radiusKm: real,
                       now: int, upstream: Upstream, fetchedAt: int, draws: seq<real>, show: real -> string)
    requires ValidDraws(draws)
    requires var o := Find(cache, timeout, latitude, longitude, radiusKm, now, upstream, fetchedAt, draws, show);
             !(o.query.Some? && upstream.Failed?)
    ensures var o := Find(cache, timeout, latitude, longitude, radiusKm, now, upstream, fetchedAt, draws, show);
            CacheKey.Key(latitude, longitude) in o.cache && o.cache[CacheKey.Key(latitude, longitude)].data == o.pubs
  {
  }

  /**
   * Expiry: once the stored entry is at least the timeout old, the same
   * request posts a new query, and a successful answer replaces the entry.
   */
  lemma ExpiredEntryIsRefetched(cache: Cache, timeout: int, latitude: real, longitude: real, radiusKm: real,
                                now: int, body: Option<Overpass.Body>, fetchedAt: int, draws: seq<real>, show: real -> string)
    requires ValidDraws(draws)
    requires CacheKey.Key(latitude, longitude) in cache
    requires now - cache[CacheKey.Key(latitude, longitude)].timestamp >= timeout
    ensures var o := Find(cache, timeout, latitude, longitude, radiusKm, now, Responded(body), fetchedAt, draws, show);
            o.query.Some? && o.cache[CacheKey.Key(latitude, longitude)] == CacheEntry(Overpass.Parse(body), fetchedAt)
  {
  }

  /** After `clearCache()` every lookup posts a query. */
  lemma ClearedCacheAlwaysQueries(timeout: int, latitude: real, longitude: real, radiusKm: real,
                                  now: int, upstream: Upstream, fetchedAt: int, draws: seq<real>, show: real -> string)
    requires ValidDraws(draws)
    ensures Find(map[], timeout, latitude, longitude, radiusKm, now, upstream, fetchedAt, draws, show).query.Some?
  {
  }
}
