/** The aggregator: one search fans out to every configured provider, keeps
    the records that pass validation, keeps the cheapest record per hotel
    identifier, orders the survivors by price, and memoises the list in the
    result cache.  The concurrent fan-out is modelled by its outcome: one
    `ProviderOutcome` per provider, listed in the order the provider tasks
    took the shared lock. */
module Aggregator {
  import opened Models
  import AsciiCase
  import ResultCache
  import PriceOrder

  /** What one provider's search came back with.  A provider that returns an
      error, including one cut off by the two-second deadline, is `Failed`. */
  datatype ProviderOutcome = Succeeded(records: seq<ProviderHotel>) | Failed

  /** The join of the fan-out: every record of the providers that answered,
      and the two counters. */
  datatype Gathered = Gathered(records: seq<ProviderHotel>, succeeded: int, failed: int)

  function QueryProviders(outcomes: seq<ProviderOutcome>): (g: Gathered)
    ensures g.succeeded + g.failed == |outcomes|
    ensures g.failed == multiset(outcomes)[Failed]
    ensures forall h :: h in g.records <==>
      exists i :: 0 <= i < |outcomes| && outcomes[i].Succeeded? && h in outcomes[i].records
    decreases |outcomes|
  {
    if |outcomes| == 0 then Gathered([], 0, 0)
    else
      var rest := QueryProviders(outcomes[1..]);
      assert outcomes == [outcomes[0]] + outcomes[1..];
      assert forall i :: 0 < i < |outcomes| ==> outcomes[i] == outcomes[1..][i - 1];
      match outcomes[0]
      case Failed => Gathered(rest.records, rest.succeeded, rest.failed + 1)
      case Succeeded(rs) => Gathered(rs + rest.records, rest.succeeded + 1, rest.failed)
  }

  lemma {:induction false} QueryProvidersConcat(a: seq<ProviderOutcome>, b: seq<ProviderOutcome>)
    ensures QueryProviders(a + b).records == QueryProviders(a).records + QueryProviders(b).records
    decreases |a|
  {
    if |a| > 0 {
      assert (a + b)[0] == a[0];
      assert (a + b)[1..] == a[1..] + b;
      QueryProvidersConcat(a[1..], b);
      if a[0].Succeeded? {
        var rs := a[0].records;
        assert QueryProviders(a + b).records == rs + QueryProviders(a[1..] + b).records;
        assert QueryProviders(a).records == rs + QueryProviders(a[1..]).records;
      }
    } else {
      assert a + b == b;
    }
  }

  /** Taking one outcome out of the list takes its records out of the
      gathered records. */
  lemma QueryWithout(left: seq<ProviderOutcome>, x: ProviderOutcome, right: seq<ProviderOutcome>)
    ensures multiset(QueryProviders(left + [x] + right).records)
         == multiset(QueryProviders(left + right).records) + multiset(QueryProviders([x]).records)
  {
    QueryProvidersConcat(left + [x], right);
    QueryProvidersConcat(left, [x]);
    QueryProvidersConcat(left, right);
  }

  /** The order in which providers finish changes neither the counters nor
      the records gathered, only their order. */
  lemma {:induction false} QueryOrderIrrelevant(a: seq<ProviderOutcome>, b: seq<ProviderOutcome>)
    requires multiset(a) == multiset(b)
    ensures QueryProviders(a).succeeded == QueryProviders(b).succeeded
    ensures QueryProviders(a).failed == QueryProviders(b).failed
    ensures multiset(QueryProviders(a).records) == multiset(QueryProviders(b).records)
    decreases |a|
  {
    assert |a| == |multiset(a)| == |multiset(b)| == |b|;
    if |a| > 0 {
      var x := a[0];
      assert x in multiset(b);
      var k :| 0 <= k < |b| && b[k] == x;
      var left, right := b[..k], b[k + 1..];
      var tail := a[1..];
      var none: seq<ProviderOutcome> := [];
      assert b == left + [x] + right;
      assert a == none + [x] + tail;
      assert none + tail == tail;
      assert multiset(tail) == multiset(a) - multiset{x};
      assert multiset(left + right) == multiset(b) - multiset{x};
      QueryOrderIrrelevant(tail, left + right);
      QueryWithout(none, x, tail);
      QueryWithout(left, x, right);
    }
  }

  /** The counters depend only on which providers answered, never on the
      records they sent, valid or not. */
  lemma {:induction false} CountersIgnoreRecords(a: seq<ProviderOutcome>, b: seq<ProviderOutcome>)
    requires |a| == |b|
    requires forall i :: 0 <= i < |a| ==> a[i].Succeeded? == b[i].Succeeded?
    ensures QueryProviders(a).succeeded == QueryProviders(b).succeeded
    ensures QueryProviders(a).failed == QueryProviders(b).failed
    decreases |a|
  {
    if |a| > 0 {
      CountersIgnoreRecords(a[1..], b[1..]);
    }
  }

  /** A record is kept when its identifier, name, city and currency are all
      present, its price is positive and its city matches the requested
      city up to ASCII case. */
  function IsValidHotel(h: ProviderHotel, req: SearchRequest): (ok: bool)
    ensures h.hotelId == "" || h.name == "" || h.city == "" || h.currency == "" ==> !ok
    ensures h.price <= 0 ==> !ok
    ensures !AsciiCase.EqualFold(h.city, req.city) ==> !ok
    ensures (h.hotelId != "" && h.name != "" && h.city != "" && h.currency != "" && h.price > 0
             && AsciiCase.EqualFold(h.city, req.city)) ==> ok
  {
    if h.hotelId == "" || h.name == "" || h.city == "" || h.currency == "" then false
    else if h.price <= 0 then false
    else if !AsciiCase.EqualFold(h.city, req.city) then false
    else true
  }

  /** Validation does not depend on how the request spells its city. */
  lemma ValidityIgnoresRequestCase(h: ProviderHotel, req: SearchRequest, other: SearchRequest)
    requires AsciiCase.EqualFold(req.city, other.city)
    ensures IsValidHotel(h, req) == IsValidHotel(h, other)
  {
    if AsciiCase.EqualFold(h.city, req.city) {
      AsciiCase.EqualFoldTransitive(h.city, req.city, other.city);
    }
    if AsciiCase.EqualFold(h.city, other.city) {
      AsciiCase.EqualFoldSymmetric(req.city, other.city);
      AsciiCase.EqualFoldTransitive(h.city, other.city, req.city);
    }
  }

  /** A mock record carries one of the four casings of the requested city,
      so it always passes the city check; with a non-empty identifier, name
      and currency and a positive price it is valid. */
  lemma MockCasingsPass(h: ProviderHotel, req: SearchRequest, choice: nat)
    requires choice < 4
    requires h.city == AsciiCase.CityCasings(req.city)[choice]
    requires req.city != ""
    requires h.hotelId != "" && h.name != "" && h.currency != "" && h.price > 0
    ensures IsValidHotel(h, req)
  {
  }

  /** The records that pass validation, in their original order. */
  function ValidHotels(hs: seq<ProviderHotel>, req: SearchRequest): (r: seq<ProviderHotel>)
    ensures forall i :: 0 <= i < |r| ==> IsValidHotel(r[i], req)
    ensures forall h :: multiset(r)[h] == if IsValidHotel(h, req) then multiset(hs)[h] else 0
    decreases |hs|
  {
    if |hs| == 0 then []
    else
      var rest := ValidHotels(hs[1..], req);
      assert hs == [hs[0]] + hs[1..];
      if IsValidHotel(hs[0], req) then [hs[0]] + rest else rest
  }

  /** A single record is kept exactly when it is valid. */
  lemma ValidHotelsOne(h: ProviderHotel, req: SearchRequest)
    ensures ValidHotels([h], req) == if IsValidHotel(h, req) then [h] else []
  {
    assert [h][1..] == [];
  }

  /** Filtering keeps the gathered order: the records kept from a
      concatenation are those kept from each part, in turn. */
  lemma {:induction false} ValidHotelsConcat(a: seq<ProviderHotel>, b: seq<ProviderHotel>, req: SearchRequest)
    ensures ValidHotels(a + b, req) == ValidHotels(a, req) + ValidHotels(b, req)
    decreases |a|
  {
    if |a| > 0 {
      assert (a + b)[1..] == a[1..] + b;
      ValidHotelsConcat(a[1..], b, req);
    } else {
      assert a + b == b;
    }
  }

  // ---------------------------------------------------------------------
  // Deduplication: a map from identifier to the best hotel so far, filled
  // in input order; a record replaces the stored one only when strictly
  // cheaper.
  // ---------------------------------------------------------------------

  function ToHotel(ph: ProviderHotel): Hotel
  {
    Hotel(ph.hotelId, ph.name, ph.currency, ph.price)
  }

  function RecordIds(hs: seq<ProviderHotel>): set<string>
  {
    set i | 0 <= i < |hs| :: hs[i].hotelId
  }

  function HotelIds(s: seq<Hotel>): set<string>
  {
    set i | 0 <= i < |s| :: s[i].hotelId
  }

  lemma RecordIdsSnoc(p: seq<ProviderHotel>, x: ProviderHotel)
    ensures RecordIds(p + [x]) == RecordIds(p) + {x.hotelId}
  {
    var q := p + [x];
    assert forall i :: 0 <= i < |p| ==> q[i] == p[i];
    assert q[|p|] == x;
  }

  /** One step of the deduplication loop: the record's identifier is
      present afterwards, an equal or higher price leaves the earlier entry
      in place, and no other identifier is touched. */
  function Keep(best: map<string, Hotel>, ph: ProviderHotel): (r: map<string, Hotel>)
    ensures r.Keys == best.Keys + {ph.hotelId}
    ensures ph.hotelId in best && best[ph.hotelId].price <= ph.price ==> r == best
    ensures ph.hotelId !in best || ph.price < best[ph.hotelId].price ==> r[ph.hotelId] == ToHotel(ph)
    ensures forall id :: id in best && id != ph.hotelId ==> r[id] == best[id]
  {
    if ph.hotelId !in best || ph.price < best[ph.hotelId].price then best[ph.hotelId := ToHotel(ph)]
    else best
  }

  function BestPrices(hs: seq<ProviderHotel>): (best: map<string, Hotel>)
    ensures best.Keys == RecordIds(hs)
    ensures forall id :: id in best ==> best[id].hotelId == id
    decreases |hs|
  {
    if |hs| == 0 then map[]
    else
      var p := hs[..|hs| - 1];
      assert hs == p + [hs[|hs| - 1]];
      RecordIdsSnoc(p, hs[|hs| - 1]);
      Keep(BestPrices(p), hs[|hs| - 1])
  }

  /** Record `j` is a cheapest record for `id`, and no earlier record for
      `id` is as cheap. */
  ghost predicate FirstCheapest(hs: seq<ProviderHotel>, id: string, j: int)
  {
    && 0 <= j < |hs|
    && hs[j].hotelId == id
    && (forall i :: 0 <= i < |hs| && hs[i].hotelId == id ==> hs[j].price <= hs[i].price)
    && (forall i :: 0 <= i < j && hs[i].hotelId == id ==> hs[j].price < hs[i].price)
  }

  /** Hotel `h` is the conversion of the first cheapest record for its
      identifier. */
  ghost predicate IsFirstCheapest(hs: seq<ProviderHotel>, h: Hotel)
  {
    exists j :: FirstCheapest(hs, h.hotelId, j) && h == ToHotel(hs[j])
  }

  lemma FirstCheapestKept(p: seq<ProviderHotel>, x: ProviderHotel, id: string, j: int)
    requires FirstCheapest(p, id, j)
    requires id != x.hotelId || x.price >= p[j].price
    ensures FirstCheapest(p + [x], id, j)
  {
    var q := p + [x];
    assert forall i :: 0 <= i < |p| ==> q[i] == p[i];
  }

  lemma FirstCheapestNew(p: seq<ProviderHotel>, x: ProviderHotel)
    requires forall i :: 0 <= i < |p| && p[i].hotelId == x.hotelId ==> x.price < p[i].price
    ensures FirstCheapest(p + [x], x.hotelId, |p|)
  {
    var q := p + [x];
    assert forall i :: 0 <= i < |p| ==> q[i] == p[i];
  }

  /** One deduplication step keeps the first cheapest record for `id`. */
  lemma KeepFirstCheapest(p: seq<ProviderHotel>, x: ProviderHotel, before: map<string, Hotel>, id: string)
    requires before.Keys == RecordIds(p)
    requires id in before ==> IsFirstCheapest(p, before[id]) && before[id].hotelId == id
    requires id in Keep(before, x)
    ensures IsFirstCheapest(p + [x], Keep(before, x)[id])
  {
    var hs, best := p + [x], Keep(before, x);
    if id == x.hotelId && (id !in before || x.price < before[id].price) {
      assert FirstCheapest(hs, id, |p|) by {
        if id in before {
          var j :| FirstCheapest(p, id, j) && before[id] == ToHotel(p[j]);
        } else {
          assert forall i :: 0 <= i < |p| ==> p[i].hotelId in RecordIds(p);
        }
        FirstCheapestNew(p, x);
      }
      assert best[id] == ToHotel(hs[|p|]);
    } else {
      var j :| FirstCheapest(p, id, j) && before[id] == ToHotel(p[j]);
      FirstCheapestKept(p, x, id, j);
      assert best[id] == ToHotel(hs[j]);
    }
  }

  /** The deduplication map keeps, for each identifier, the first of its
      cheapest records: the minimum price, and on a tie the name and
      currency of the record met first. */
  lemma {:induction false} BestPricesFirstCheapest(hs: seq<ProviderHotel>)
    ensures forall id :: id in BestPrices(hs) ==> IsFirstCheapest(hs, BestPrices(hs)[id])
    decreases |hs|
  {
    if |hs| > 0 {
      var p := hs[..|hs| - 1];
      var x := hs[|hs| - 1];
      assert hs == p + [x];
      BestPricesFirstCheapest(p);
      var before := BestPrices(p);
      assert BestPrices(hs) == Keep(before, x);
      forall id | id in BestPrices(hs)
        ensures IsFirstCheapest(hs, BestPrices(hs)[id])
      {
        KeepFirstCheapest(p, x, before, id);
      }
    }
  }

  /** The identifiers of `hs` in order of first appearance. */
  function FirstSeenIds(hs: seq<ProviderHotel>): (ids: seq<string>)
    ensures forall i, j :: 0 <= i < j < |ids| ==> ids[i] != ids[j]
    ensures forall id :: id in ids <==> id in RecordIds(hs)
    decreases |hs|
  {
    if |hs| == 0 then []
    else
      var p := hs[..|hs| - 1];
      var x := hs[|hs| - 1];
      assert hs == p + [x];
      RecordIdsSnoc(p, x);
      var ids := FirstSeenIds(p);
      if x.hotelId in ids then ids else ids + [x.hotelId]
  }

  /** The map's entries read off in the order of `ids`. */
  lemma ReadOffFacts(hs: seq<ProviderHotel>, ids: seq<string>, r: seq<Hotel>)
    requires ids == FirstSeenIds(hs)
    requires |r| == |ids|
    requires forall i :: 0 <= i < |r| ==> ids[i] in BestPrices(hs) && r[i] == BestPrices(hs)[ids[i]]
    ensures PriceOrder.UniqueIds(r)
    ensures HotelIds(r) == RecordIds(hs)
  {
    var best := BestPrices(hs);
    assert forall i :: 0 <= i < |r| ==> r[i].hotelId == ids[i];
    forall id | id in RecordIds(hs)
      ensures id in HotelIds(r)
    {
      var i :| 0 <= i < |ids| && ids[i] == id;
      assert r[i].hotelId == id;
    }
  }

  lemma ReadOffCheapest(hs: seq<ProviderHotel>, ids: seq<string>, r: seq<Hotel>)
    requires |r| == |ids|
    requires forall i :: 0 <= i < |r| ==> ids[i] in BestPrices(hs) && r[i] == BestPrices(hs)[ids[i]]
    ensures forall i :: 0 <= i < |r| ==> IsFirstCheapest(hs, r[i])
  {
    BestPricesFirstCheapest(hs);
  }

  /** The deduplicated hotels.  The service lists them in map iteration
      order, which is unspecified; this model lists them in order of first
      appearance, and nothing downstream depends on the choice. */
  function DeduplicateHotels(hs: seq<ProviderHotel>): (r: seq<Hotel>)
    ensures PriceOrder.UniqueIds(r)
    ensures HotelIds(r) == RecordIds(hs)
    ensures forall i :: 0 <= i < |r| ==> IsFirstCheapest(hs, r[i])
  {
    var best := BestPrices(hs);
    var ids := FirstSeenIds(hs);
    var r := seq(|ids|, i requires 0 <= i < |ids| => best[ids[i]]);
    ReadOffFacts(hs, ids, r);
    ReadOffCheapest(hs, ids, r);
    r
  }

  /** For every identifier, the surviving hotel carries the minimum price
      over all input records with that identifier. */
  lemma DeduplicateKeepsMinimum(hs: seq<ProviderHotel>)
    ensures var r := DeduplicateHotels(hs);
      forall i, k :: 0 <= i < |r| && 0 <= k < |hs| && hs[k].hotelId == r[i].hotelId ==> r[i].price <= hs[k].price
  {
  }

  // ---------------------------------------------------------------------
  // The search itself.
  // ---------------------------------------------------------------------

  /** The response of one search, and the cache after it (`None` when the
      aggregator runs without a cache). */
  datatype Outcome = Outcome(response: SearchResponse, cache: Option<ResultCache.Cache>)

  /** The cache holds a fresh list for the request at the given time. */
  predicate HitsCache(cache: Option<ResultCache.Cache>, req: SearchRequest, now: int)
  {
    cache.Some? && ResultCache.Get(cache.value, req, now).hotels.Some?
  }

  /** The ranked list a cache miss computes. */
  function Ranked(outcomes: seq<ProviderOutcome>, req: SearchRequest): seq<Hotel>
  {
    PriceOrder.SortByPrice(DeduplicateHotels(ValidHotels(QueryProviders(outcomes).records, req)))
  }

  /** A search reads the cache at `lookupTime` and, on a miss, writes the
      ranked list at `storeTime`, after the fan-out. */
  function Search(cache: Option<ResultCache.Cache>, req: SearchRequest, outcomes: seq<ProviderOutcome>,
                  lookupTime: int, storeTime: int): (r: Outcome)
    ensures r.response.search == SearchInfo(req.city, req.checkIn, req.nights, req.adults)
    ensures r.response.stats.providersTotal == |outcomes|
    ensures HitsCache(cache, req, lookupTime) ==>
      && r.response.stats.cache == CacheHit
      && r.response.stats.providersSucceeded == 0
      && r.response.stats.providersFailed == 0
      && Some(r.response.hotels) == ResultCache.Get(cache.value, req, lookupTime).hotels
      && r.cache == cache
    ensures !HitsCache(cache, req, lookupTime) ==>
      && r.response.stats.cache == CacheMiss
      && r.response.stats.providersSucceeded + r.response.stats.providersFailed == |outcomes|
      && r.response.stats.providersFailed == multiset(outcomes)[Failed]
      && PriceOrder.SortedByPrice(r.response.hotels)
      && multiset(r.response.hotels) == multiset(DeduplicateHotels(ValidHotels(QueryProviders(outcomes).records, req)))
      && (r.cache.Some? <==> cache.Some?)
      && (r.cache.Some? ==>
            && ResultCache.KeyOf(req) in r.cache.value.store
            && r.cache.value.store[ResultCache.KeyOf(req)].hotels == r.response.hotels
            && r.cache.value.store[ResultCache.KeyOf(req)].expiresAt == storeTime + ResultCache.EntryLifetime
            && r.cache.value.ttl == cache.value.ttl
            && (forall k :: k != ResultCache.KeyOf(req) ==> (k in r.cache.value.store <==> k in cache.value.store))
            && (forall k :: k != ResultCache.KeyOf(req) && k in cache.value.store ==>
                  r.cache.value.store[k] == cache.value.store[k]))
  {
    var info := SearchInfo(req.city, req.checkIn, req.nights, req.adults);
    if HitsCache(cache, req, lookupTime) then
      var hotels := ResultCache.Get(cache.value, req, lookupTime).hotels.value;
      Outcome(SearchResponse(info, Stats(|outcomes|, 0, 0, CacheHit), hotels), cache)
    else
      var g := QueryProviders(outcomes);
      var hotels := Ranked(outcomes, req);
      var response := SearchResponse(info, Stats(|outcomes|, g.succeeded, g.failed, CacheMiss), hotels);
      var cache' :=
        if cache.Some? then Some(ResultCache.Set(ResultCache.Get(cache.value, req, lookupTime).cache, req, hotels, storeTime))
        else None;
      Outcome(response, cache')
  }

  /** A search touches only its own request's entry: what any other request
      reads from the cache afterwards is what it read before. */
  lemma SearchOtherRequest(cache: ResultCache.Cache, req: SearchRequest, other: SearchRequest,
                           outcomes: seq<ProviderOutcome>, lookupTime: int, storeTime: int, t: int)
    requires other != req
    ensures var r := Search(Some(cache), req, outcomes, lookupTime, storeTime);
      r.cache.Some? && ResultCache.Get(r.cache.value, other, t).hotels == ResultCache.Get(cache, other, t).hotels
  {
    ResultCache.KeyOfInjective(req, other);
  }

  /** On a hit no provider is consulted: the outcomes matter only through
      their number. */
  lemma HitIgnoresProviders(cache: Option<ResultCache.Cache>, req: SearchRequest,
                            a: seq<ProviderOutcome>, b: seq<ProviderOutcome>, lookupTime: int, storeTime: int)
    requires HitsCache(cache, req, lookupTime)
    requires |a| == |b|
    ensures Search(cache, req, a, lookupTime, storeTime) == Search(cache, req, b, lookupTime, storeTime)
  {
  }

  lemma PermutationSameIds(a: seq<Hotel>, b: seq<Hotel>)
    requires multiset(a) == multiset(b)
    ensures HotelIds(a) == HotelIds(b)
    ensures forall i :: 0 <= i < |a| ==> exists k :: 0 <= k < |b| && b[k] == a[i]
  {
    forall i | 0 <= i < |a|
      ensures exists k :: 0 <= k < |b| && b[k] == a[i]
    {
      assert a[i] in multiset(b);
    }
    forall id | id in HotelIds(b)
      ensures id in HotelIds(a)
    {
      var k :| 0 <= k < |b| && b[k].hotelId == id;
      assert b[k] in multiset(a);
    }
  }

  /** Any reordering of the deduplicated list of some records keeps what
      deduplication promises: unique identifiers, exactly the identifiers
      of the records, and each hotel the first cheapest record for its
      identifier. */
  lemma ReorderedDeduplication(valid: seq<ProviderHotel>, hotels: seq<Hotel>)
    requires multiset(hotels) == multiset(DeduplicateHotels(valid))
    ensures PriceOrder.UniqueIds(hotels)
    ensures HotelIds(hotels) == RecordIds(valid)
    ensures forall i :: 0 <= i < |hotels| ==> IsFirstCheapest(valid, hotels[i])
  {
    var d := DeduplicateHotels(valid);
    PriceOrder.PermutationKeepsUniqueIds(hotels, d);
    PermutationSameIds(hotels, d);
  }

  /** What a miss returns, stated against the records of the providers that
      answered: identifiers are unique, they are exactly the identifiers of
      the valid records, each hotel is the first cheapest valid record for
      its identifier, and the list ascends by price. */
  lemma MissRanking(cache: Option<ResultCache.Cache>, req: SearchRequest, outcomes: seq<ProviderOutcome>,
                    lookupTime: int, storeTime: int)
    requires !HitsCache(cache, req, lookupTime)
    ensures var hotels := Search(cache, req, outcomes, lookupTime, storeTime).response.hotels;
            var valid := ValidHotels(QueryProviders(outcomes).records, req);
            && PriceOrder.SortedByPrice(hotels)
            && PriceOrder.UniqueIds(hotels)
            && HotelIds(hotels) == RecordIds(valid)
            && forall i :: 0 <= i < |hotels| ==> IsFirstCheapest(valid, hotels[i])
  {
    var hotels := Search(cache, req, outcomes, lookupTime, storeTime).response.hotels;
    ReorderedDeduplication(ValidHotels(QueryProviders(outcomes).records, req), hotels);
  }

  /** Repeating a missed search while the list it stored is fresh returns
      the same list, reported as a hit with both provider counters zero. */
  lemma RepeatWithinLifetimeHits(cache: ResultCache.Cache, req: SearchRequest,
                                 first: seq<ProviderOutcome>, second: seq<ProviderOutcome>,
                                 t1: int, s1: int, t2: int, s2: int)
    requires !HitsCache(Some(cache), req, t1)
    requires t2 <= s1 + ResultCache.EntryLifetime
    ensures var r1 := Search(Some(cache), req, first, t1, s1);
            var r2 := Search(r1.cache, req, second, t2, s2);
            && r2.response.hotels == r1.response.hotels
            && r2.response.stats.cache == CacheHit
            && r2.response.stats.providersSucceeded == 0
            && r2.response.stats.providersFailed == 0
  {
    var r1 := Search(Some(cache), req, first, t1, s1);
    var e := r1.cache.value.store[ResultCache.KeyOf(req)];
    assert e.expiresAt == s1 + ResultCache.EntryLifetime;
    assert HitsCache(r1.cache, req, t2);
  }

  /** Once the stored list has outlived its thirty seconds, the same search
      is a miss again and consults the providers. */
  lemma RepeatAfterLifetimeMisses(cache: ResultCache.Cache, req: SearchRequest,
                                  first: seq<ProviderOutcome>, second: seq<ProviderOutcome>,
                                  t1: int, s1: int, t2: int, s2: int)
    requires !HitsCache(Some(cache), req, t1)
    requires t2 > s1 + ResultCache.EntryLifetime
    ensures var r1 := Search(Some(cache), req, first, t1, s1);
            var r2 := Search(r1.cache, req, second, t2, s2);
            && r2.response.stats.cache == CacheMiss
            && r2.response.stats.providersSucceeded + r2.response.stats.providersFailed == |second|
  {
  }

  /** One step of the fold, for an answering provider at the head. */
  lemma QueryProvidersHead(os: seq<ProviderOutcome>)
    requires |os| > 0 && os[0].Succeeded?
    ensures var g := QueryProviders(os[1..]);
      QueryProviders(os) == Gathered(os[0].records + g.records, g.succeeded + 1, g.failed)
  {
  }

  lemma GatherThree(a: ProviderHotel, b: ProviderHotel, c: ProviderHotel)
    ensures QueryProviders([Succeeded([a]), Succeeded([b]), Succeeded([c])]) == Gathered([a, b, c], 3, 0)
  {
    var os := [Succeeded([a]), Succeeded([b]), Succeeded([c])];
    var t1, t2 := os[1..], os[2..];
    assert QueryProviders(t2) == Gathered([c], 1, 0) by {
      var none: seq<ProviderOutcome> := [];
      assert t2[1..] == none;
      assert QueryProviders(none) == Gathered([], 0, 0);
      QueryProvidersHead(t2);
      assert [c] + [] == [c];
    }
    assert QueryProviders(t1) == Gathered([b, c], 2, 0) by {
      assert t1[1..] == t2;
      QueryProvidersHead(t1);
      assert [b] + [c] == [b, c];
    }
    assert os[1..] == t1;
    QueryProvidersHead(os);
    assert [a] + [b, c] == [a, b, c];
  }

  lemma ValidThree(a: ProviderHotel, b: ProviderHotel, c: ProviderHotel, req: SearchRequest)
    requires IsValidHotel(a, req) && IsValidHotel(b, req) && IsValidHotel(c, req)
    ensures ValidHotels([a, b, c], req) == [a, b, c]
  {
    var records := [a, b, c];
    assert records[1..] == [b, c];
    assert records[1..][1..] == [c];
    assert ValidHotels([c], req) == [c];
    assert ValidHotels(records[1..], req) == [b, c];
  }

  lemma BestPricesThree(a: ProviderHotel, b: ProviderHotel, c: ProviderHotel)
    requires a.hotelId == b.hotelId != c.hotelId
    requires a.price <= b.price
    ensures BestPrices([a, b, c]) == map[a.hotelId := ToHotel(a), c.hotelId := ToHotel(c)]
  {
    assert [a, b, c][..2] == [a, b];
    assert [a, b][..1] == [a];
    assert [a][..0] == [];
    assert BestPrices([a]) == map[a.hotelId := ToHotel(a)];
    assert BestPrices([a, b]) == map[a.hotelId := ToHotel(a)];
  }

  lemma FirstSeenThree(a: ProviderHotel, b: ProviderHotel, c: ProviderHotel)
    requires a.hotelId == b.hotelId != c.hotelId
    ensures FirstSeenIds([a, b, c]) == [a.hotelId, c.hotelId]
  {
    assert [a, b, c][..2] == [a, b];
    assert [a, b][..1] == [a];
    assert [a][..0] == [];
    assert FirstSeenIds([a]) == [a.hotelId];
    assert FirstSeenIds([a, b]) == [a.hotelId];
  }

  /** Two offers for one hotel, the first no dearer, and an offer for a
      second hotel: the first offer and the second hotel survive. */
  lemma DeduplicateThree(a: ProviderHotel, b: ProviderHotel, c: ProviderHotel)
    requires a.hotelId == b.hotelId != c.hotelId
    requires a.price <= b.price
    ensures DeduplicateHotels([a, b, c]) == [ToHotel(a), ToHotel(c)]
  {
    BestPricesThree(a, b, c);
    FirstSeenThree(a, b, c);
    var d := DeduplicateHotels([a, b, c]);
    assert |d| == 2;
    assert d[0] == ToHotel(a) && d[1] == ToHotel(c);
  }

  /** A worked search: three providers answer, two of them with the same
      hotel at different prices and one with a cheaper second hotel.  The
      response lists the second hotel first, keeps the cheaper offer of the
      first, and counts three successes and a miss. */
  lemma ParisScenario()
    ensures var req := SearchRequest("Paris", "2025-06-01", 2, 2);
            var offerA := ProviderHotel("H1", "Grand", "Paris", "EUR", 12000, 2);
            var offerB := ProviderHotel("H1", "Grand", "Paris", "EUR", 13500, 2);
            var offerC := ProviderHotel("H2", "Petit", "Paris", "EUR", 8000, 2);
            var outcomes := [Succeeded([offerA]), Succeeded([offerB]), Succeeded([offerC])];
            var r := Search(Some(ResultCache.NewCache(30 * Second)), req, outcomes, 0, 0).response;
            && r.hotels == [Hotel("H2", "Petit", "EUR", 8000), Hotel("H1", "Grand", "EUR", 12000)]
            && r.stats == Stats(3, 3, 0, CacheMiss)
  {
    var req := SearchRequest("Paris", "2025-06-01", 2, 2);
    var offerA := ProviderHotel("H1", "Grand", "Paris", "EUR", 12000, 2);
    var offerB := ProviderHotel("H1", "Grand", "Paris", "EUR", 13500, 2);
    var offerC := ProviderHotel("H2", "Petit", "Paris", "EUR", 8000, 2);
    var outcomes := [Succeeded([offerA]), Succeeded([offerB]), Succeeded([offerC])];
    GatherThree(offerA, offerB, offerC);
    assert Ranked(outcomes, req) == [ToHotel(offerC), ToHotel(offerA)] by {
      assert AsciiCase.EqualFold("Paris", "Paris");
      ValidThree(offerA, offerB, offerC, req);
      assert "H1" != "H2";
      DeduplicateThree(offerA, offerB, offerC);
      PriceOrder.SortTwo(ToHotel(offerA), ToHotel(offerC));
    }
    assert !HitsCache(Some(ResultCache.NewCache(30 * Second)), req, 0);
  }
}
