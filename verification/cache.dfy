/** The result cache of the search service: a store from a structured key
    (city, check-in, nights, adults) to the hotel list computed for it and
    an absolute expiry time.  Entries are dropped lazily when a read finds
    them expired, and by a periodic sweep.  The store is explicit state
    threaded through each operation, and the clock is the `now` argument. */
module ResultCache {
  import opened Models

  /** Every entry lives thirty seconds, whatever lifetime the cache was
      created with. */
  const EntryLifetime: int := 30 * Second

  datatype CacheKey = CacheKey(city: string, checkIn: string, nights: int, adults: int)

  datatype CacheEntry = CacheEntry(hotels: seq<Hotel>, expiresAt: int)

  /** `ttl` is the lifetime handed to the constructor; it is stored and
      never read. */
  datatype Cache = Cache(store: map<CacheKey, CacheEntry>, ttl: int)

  /** The outcome of a read: the cache after it (a lazily expired entry is
      gone) and the hotels found, if any. */
  datatype Lookup = Lookup(cache: Cache, hotels: Option<seq<Hotel>>)

  function NewCache(ttl: int): (c: Cache)
    ensures c.store == map[]
  {
    Cache(map[], ttl)
  }

  /** The key copies the four request fields as they are: no case folding. */
  function KeyOf(req: SearchRequest): CacheKey
  {
    CacheKey(req.city, req.checkIn, req.nights, req.adults)
  }

  /** Two requests share an entry exactly when they are the same request;
      in particular "Paris" and "paris" use different entries. */
  lemma KeyOfInjective(a: SearchRequest, b: SearchRequest)
    ensures KeyOf(a) == KeyOf(b) <==> a == b
  {
  }

  /** An entry is stale once the clock is strictly past its expiry. */
  predicate Expired(e: CacheEntry, now: int)
  {
    now > e.expiresAt
  }

  function Get(c: Cache, req: SearchRequest, now: int): (r: Lookup)
    ensures r.hotels.Some? <==> KeyOf(req) in c.store && !Expired(c.store[KeyOf(req)], now)
    ensures r.hotels.Some? ==> r.hotels.value == c.store[KeyOf(req)].hotels && r.cache == c
    ensures KeyOf(req) !in c.store ==> r.cache == c
    ensures KeyOf(req) in c.store && Expired(c.store[KeyOf(req)], now) ==>
      r.cache.store == c.store - {KeyOf(req)} && r.cache.ttl == c.ttl
  {
    var key := KeyOf(req);
    if key !in c.store then Lookup(c, None)
    else if Expired(c.store[key], now) then Lookup(Cache(c.store - {key}, c.ttl), None)
    else Lookup(c, Some(c.store[key].hotels))
  }

  function Set(c: Cache, req: SearchRequest, hotels: seq<Hotel>, now: int): (r: Cache)
    ensures KeyOf(req) in r.store
    ensures r.store[KeyOf(req)].hotels == hotels
    ensures r.store[KeyOf(req)].expiresAt == now + EntryLifetime
    ensures r.ttl == c.ttl
    ensures forall k :: k != KeyOf(req) ==> (k in r.store <==> k in c.store)
    ensures forall k :: k != KeyOf(req) && k in c.store ==> r.store[k] == c.store[k]
  {
    Cache(c.store[KeyOf(req) := CacheEntry(hotels, now + EntryLifetime)], c.ttl)
  }

  /** One pass of the background cleanup, as a map comprehension. */
  function Sweep(c: Cache, now: int): (r: Cache)
    ensures forall k :: k in r.store <==> k in c.store && !Expired(c.store[k], now)
    ensures forall k :: k in r.store ==> r.store[k] == c.store[k]
    ensures r.ttl == c.ttl
  {
    Cache(map k | k in c.store && !Expired(c.store[k], now) :: c.store[k], c.ttl)
  }

  /** One pass of the background cleanup as the loop deleting expired
      entries while it walks the keys. */
  method SweepLoop(c: Cache, now: int) returns (r: Cache)
    ensures r.ttl == c.ttl
    ensures forall k :: k in r.store <==> k in c.store && !Expired(c.store[k], now)
    ensures forall k :: k in r.store ==> r.store[k] == c.store[k]
  {
    var store := c.store;
    var todo := c.store.Keys;
    while todo != {}
      invariant todo <= c.store.Keys
      invariant forall k :: k in store ==> k in c.store && store[k] == c.store[k]
      invariant forall k :: k in c.store && k in todo ==> k in store
      invariant forall k :: k in c.store && k !in todo ==> (k in store <==> !Expired(c.store[k], now))
      decreases todo
    {
      var key :| key in todo;
      if Expired(store[key], now) {
        store := store - {key};
      }
      todo := todo - {key};
    }
    r := Cache(store, c.ttl);
  }

  /** Whatever lifetime the cache was built with, a write stores the same
      entry. */
  lemma SetIgnoresTtl(store: map<CacheKey, CacheEntry>, ttl1: int, ttl2: int,
                      req: SearchRequest, hotels: seq<Hotel>, now: int)
    ensures Set(Cache(store, ttl1), req, hotels, now).store == Set(Cache(store, ttl2), req, hotels, now).store
  {
  }

  /** A write is read back unchanged up to and including its expiry time. */
  lemma SetThenGet(c: Cache, req: SearchRequest, hotels: seq<Hotel>, t: int, later: int)
    requires later <= t + EntryLifetime
    ensures Get(Set(c, req, hotels, t), req, later).hotels == Some(hotels)
  {
  }

  /** A write is no longer read back once its thirty seconds have passed. */
  lemma SetThenGetExpired(c: Cache, req: SearchRequest, hotels: seq<Hotel>, t: int, later: int)
    requires later > t + EntryLifetime
    ensures Get(Set(c, req, hotels, t), req, later).hotels == None
  {
  }

  /** A write under one request does not change what another request reads. */
  lemma SetOtherRequest(c: Cache, req: SearchRequest, other: SearchRequest,
                        hotels: seq<Hotel>, t: int, now: int)
    requires other != req
    ensures Get(Set(c, req, hotels, t), other, now).hotels == Get(c, other, now).hotels
  {
    KeyOfInjective(req, other);
  }

  /** The sweep is invisible to readers: what a read returns at or after the
      sweep's time is what it would have returned without the sweep. */
  lemma GetAfterSweep(c: Cache, req: SearchRequest, now: int, later: int)
    requires now <= later
    ensures Get(Sweep(c, now), req, later).hotels == Get(c, req, later).hotels
  {
  }

  lemma SweepIdempotent(c: Cache, now: int)
    ensures Sweep(Sweep(c, now), now) == Sweep(c, now)
  {
    var once := Sweep(c, now);
    assert Sweep(once, now).store == once.store;
  }
}
