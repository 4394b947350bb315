/**
 * The geocode cache of loc/gmaps_cached.py: a table of `CachedGeoCode`
 * entities keyed by the canonical geocode key. `FetchRaw` reads through to the
 * geocoding service on a miss; `WriteCache` back-fills an entry without asking
 * the service. Neither ever replaces an entry that is already stored.
 */
module GeocodeCache {
  import opened Wrappers
  import opened GeocodeKey

  /** `datetime(2010, 1, 1)` in microseconds since the epoch: the date of back-filled entries. */
  const BACKFILL_CREATED: int := 1_262_304_000_000_000

  /** A stored `CachedGeoCode` entity; `J` is the service's JSON answer. */
  datatype CachedGeoCode<J> = CachedGeoCode(id: string, jsonData: J, dateCreated: int)

  class GeoCache<J> {
    /** The datastore table of `CachedGeoCode`, by entity id. */
    var table: map<string, CachedGeoCode<J>>
    /** The requests passed on to the geocoding service, oldest first. */
    ghost var fetches: seq<Kwargs>

    /** Every entity is stored under its own id. */
    ghost predicate Valid()
      reads this
    {
      forall id :: id in table ==> table[id].id == id
    }

    constructor ()
      ensures Valid() && table == map[] && fetches == []
    {
      table := map[];
      fetches := [];
    }

    /** `CachedGeoCode.get_by_id` */
    function Get(id: string): (r: Option<CachedGeoCode<J>>)
      reads this
      ensures r.Some? <==> id in table
      ensures r.Some? ==> r.value == table[id]
    {
      if id in table then Some(table[id]) else None
    }

    /**
     * `fetch_raw(**kwargs)`: the cached answer for the request's key, or else the
     * service's answer, which is then stored with creation time `now`.
     */
    method FetchRaw(kwargs: Kwargs, fetch: Kwargs -> J, now: int) returns (r: Result<J, KeyError>)
      requires Valid()
      modifies this
      ensures Valid()
      ensures Key(kwargs).Err? ==>
        r == Err(EmptyParameters) && table == old(table) && fetches == old(fetches)
      ensures Key(kwargs).Ok? && Key(kwargs).value in old(table) ==>
        r == Ok(old(table)[Key(kwargs).value].jsonData) && table == old(table) && fetches == old(fetches)
      ensures Key(kwargs).Ok? && Key(kwargs).value !in old(table) ==>
        var id := Key(kwargs).value;
        r == Ok(fetch(kwargs)) &&
        table == old(table)[id := CachedGeoCode(id, fetch(kwargs), now)] &&
        fetches == old(fetches) + [kwargs]
      ensures forall id :: id in old(table) ==> id in table && table[id] == old(table)[id]
      ensures Key(kwargs).Ok? ==> Key(kwargs).value in table && r == Ok(table[Key(kwargs).value].jsonData)
    {
      var key := Key(kwargs);
      if key.Err? {
        return Err(key.error);
      }
      var id := key.value;
      var geocode := Get(id);
      if geocode.None? {
        var jsonData := fetch(kwargs);
        fetches := fetches + [kwargs];
        geocode := Some(CachedGeoCode(id, jsonData, now));
        table := table[id := geocode.value];
      }
      r := Ok(geocode.value.jsonData);
    }

    /**
     * `_write_cache(json_data, **kwargs)`: the stored entity for the request's key,
     * or else a new one holding `jsonData`, dated `BACKFILL_CREATED`.
     */
    method WriteCache(jsonData: J, kwargs: Kwargs) returns (r: Result<CachedGeoCode<J>, KeyError>)
      requires Valid()
      modifies this
      ensures Valid()
      ensures fetches == old(fetches)
      ensures Key(kwargs).Err? ==> r == Err(EmptyParameters) && table == old(table)
      ensures Key(kwargs).Ok? && Key(kwargs).value in old(table) ==>
        r == Ok(old(table)[Key(kwargs).value]) && table == old(table)
      ensures Key(kwargs).Ok? && Key(kwargs).value !in old(table) ==>
        var id := Key(kwargs).value;
        r == Ok(CachedGeoCode(id, jsonData, BACKFILL_CREATED)) && table == old(table)[id := r.value]
      ensures forall id :: id in old(table) ==> id in table && table[id] == old(table)[id]
      ensures Key(kwargs).Ok? ==> r.Ok? && r.value.id == Key(kwargs).value && table[r.value.id] == r.value
    {
      var key := Key(kwargs);
      if key.Err? {
        return Err(key.error);
      }
      var id := key.value;
      var geocode := Get(id);
      if geocode.None? {
        geocode := Some(CachedGeoCode(id, jsonData, BACKFILL_CREATED));
        table := table[id := geocode.value];
      }
      r := Ok(geocode.value);
    }
  }

  /**
   * Two requests that differ only in argument order, letter case or padding of
   * their values share a cache entry: after one is fetched, the other is a hit.
   */
  lemma EquivalentRequestsShareEntry(a: Kwargs, b: Kwargs, c: Kwargs)
    requires multiset(a) == multiset(b)
    requires |b| == |c|
    requires forall i :: 0 <= i < |b| ==> b[i].0 == c[i].0 && Normalize(b[i].1) == Normalize(c[i].1)
    ensures Key(a) == Key(c)
    ensures a == [] <==> Key(c).Err?
  {
    KeyOrderIndependent(a, b);
    KeyNormalizedValues(b, c);
  }

  /**
   * Fetching a request and then an equivalent one: the second call is answered
   * from the cache, so both get the same answer and the service is asked at most
   * once, for the first request.
   */
  method FetchEquivalentTwice<J>(cache: GeoCache<J>, a: Kwargs, b: Kwargs, c: Kwargs, fetch: Kwargs -> J, now: int, later: int)
      returns (first: Result<J, KeyError>, second: Result<J, KeyError>)
    requires cache.Valid()
    requires multiset(a) == multiset(b)
    requires |b| == |c|
    requires forall i :: 0 <= i < |b| ==> b[i].0 == c[i].0 && Normalize(b[i].1) == Normalize(c[i].1)
    modifies cache
    ensures cache.Valid()
    ensures second == first
    ensures cache.fetches == old(cache.fetches) || cache.fetches == old(cache.fetches) + [a]
    ensures forall id :: id in old(cache.table) ==> id in cache.table && cache.table[id] == old(cache.table)[id]
    ensures Key(a).Ok? ==> cache.table.Keys == old(cache.table).Keys + {Key(a).value}
    ensures Key(a).Err? ==> cache.table == old(cache.table)
  {
    first := cache.FetchRaw(a, fetch, now);
    ghost var table, fetches := cache.table, cache.fetches;
    EquivalentRequestsShareEntry(a, b, c);
    second := cache.FetchRaw(c, fetch, later);
    assert cache.table == table && cache.fetches == fetches;
  }
}
