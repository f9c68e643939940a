# hostaggr, modelled in Dafny

hostaggr is a small hotel-search aggregator written in Go. It serves `GET /search`. A request passes a per-client token-bucket rate limiter and a chain of parameter checks. Then it is answered from a thirty-second result cache or by asking every configured provider. The providers' records are validated. They are reduced to the cheapest offer per hotel identifier and sorted by price. The list is returned and stored in the cache.

This project models that core as pure functions over immutable data:

- `models.dfy` (`Models`): the records of the service. These are the provider record, the normalised hotel, the request and the response. Prices are integers, because the service only compares them. Time is an integer number of nanoseconds.
- `ascii_case.dfy` (`AsciiCase`): the mock provider's case helpers `toUpper`, `toLower` and `toTitle`. Also the ASCII case-insensitive comparison the aggregator applies to cities.
- `cache.dfy` (`ResultCache`): the result cache. The store is an explicit map, and the clock is a `now` argument. It models `Get` with lazy expiry, `Set`, and one pass of the background cleanup.
- `ratelimit.dfy` (`RateLimit`): the token buckets. It models `Allow`, the lazy refill, and one pass of the idle-bucket cleanup.
- `price_order.dfy` (`PriceOrder`): the ascending price order of the response, with one admissible sort.
- `aggregator.dfy` (`Aggregator`): the fan-out is a fold over per-provider outcomes, in the order the provider tasks took the shared lock. It also models validation, deduplication and `Search` with its cache hit and miss paths.
- `handlers.dfy` (`Handlers`): the client address, the ordered parameter checks, and the whole search endpoint as one state step.

The model follows the code's behaviour, including these points:

- A cache entry is still returned at exactly its expiry time. Only a clock strictly past it expires the entry.
- The cache key holds the request fields as given, with no case folding.
- A refill moves the bucket's refill time to `now`. The fraction of a token earned on top is lost, and `RateLimit.RefillDropsFraction` shows it. The fraction is not carried forward.
- Deduplication keeps the first of the cheapest records in gathered order. That order is the order in which providers finished.
- The sort compares prices only and is not stable. Equal prices have no identifier tie-break, so any price-ascending permutation is admissible.
- `Search` never fails.

## Model

| member | source | states |
|---|---|---|
| Aggregator.QueryProviders | internal/search/aggregator.go:104-138 | each provider outcome adds to exactly one counter, so succeeded + failed is the number of providers; failed counts the failed outcomes; a record is gathered iff some provider that answered returned it |
| Aggregator.QueryProvidersConcat | internal/search/aggregator.go:129-130 | records are appended provider by provider: gathering two runs of outcomes concatenates their records |
| Aggregator.QueryOrderIrrelevant | internal/search/aggregator.go:116-135 | the order in which providers finish changes neither counter nor the multiset of gathered records |
| Aggregator.CountersIgnoreRecords | internal/search/aggregator.go:124-130 | the counters depend only on which providers answered, never on the records they sent |
| Aggregator.IsValidHotel | internal/search/aggregator.go:141-156 | a record is rejected when its identifier, name, city or currency is empty, when its price is not positive, or when its city differs from the requested one beyond ASCII case; otherwise accepted |
| Aggregator.ValidityIgnoresRequestCase | internal/search/aggregator.go:151-153 | validity is the same for two requests whose cities differ only in ASCII case |
| Aggregator.MockCasingsPass | internal/providers/mock1.go:44-49 | a record carrying any of the four casings a mock provider picks for the requested city passes the city check |
| Aggregator.ValidHotels | internal/search/aggregator.go:62-67 | every kept record is valid, and each record keeps its multiplicity exactly when it is valid |
| Aggregator.ValidHotelsOne | internal/search/aggregator.go:63-66 | a single record is kept exactly when it is valid |
| Aggregator.ValidHotelsConcat | internal/search/aggregator.go:62-67 | filtering keeps the gathered order: the records kept from a concatenation are those kept from the first part followed by those kept from the second |
| Aggregator.Keep | internal/search/aggregator.go:163-174 | one deduplication step: the record's identifier is present afterwards; an equal or higher price keeps the earlier entry; a strictly lower price or a new identifier stores this record; no other identifier changes |
| Aggregator.BestPrices | internal/search/aggregator.go:160-175 | the map's keys are exactly the identifiers of the records, each entry stored under its own identifier |
| Aggregator.KeepFirstCheapest | internal/search/aggregator.go:163-174 | if the map held the first cheapest record of the prefix for an identifier, one more step holds the first cheapest record of the extended sequence |
| Aggregator.BestPricesFirstCheapest | internal/search/aggregator.go:162-175 | the entry for each identifier comes from a record of minimum price, and among equally cheap records from the first one met |
| Aggregator.FirstSeenIds | internal/search/aggregator.go:177-180 | the listing order used for the map: each identifier of the records exactly once |
| Aggregator.DeduplicateHotels | internal/search/aggregator.go:159-183 | no identifier twice, exactly the identifiers of the input, and each hotel the first cheapest record for its identifier |
| Aggregator.DeduplicateKeepsMinimum | internal/search/aggregator.go:172-174 | the surviving price is at most every input price for that identifier |
| Aggregator.Search | internal/search/aggregator.go:31-101 | the request is echoed and the provider total reported. On a hit: "hit", both counters zero, the cached list, cache untouched. On a miss: "miss", counters summing to the providers, a price-ascending permutation of the deduplicated valid records, and the same list stored under the request with expiry `storeTime` plus thirty seconds, every other request's entry left as it was |
| Aggregator.SearchOtherRequest | internal/search/aggregator.go:35-98 | a search, hit or miss, changes nothing another request reads from the cache afterwards |
| Aggregator.HitIgnoresProviders | internal/search/aggregator.go:35-55 | on a hit no provider is consulted: the outcomes matter only through their number |
| Aggregator.ReorderedDeduplication | internal/search/aggregator.go:73-75 | any reordering of the deduplicated list keeps unique identifiers, the identifier set and the first-cheapest choice |
| Aggregator.MissRanking | internal/search/aggregator.go:58-100 | a miss returns a price-ascending list with unique identifiers, exactly the identifiers of the valid records, each hotel the first cheapest valid record for its identifier |
| Aggregator.RepeatWithinLifetimeHits | internal/search/aggregator.go:35-55 | repeating a missed search while its stored list is fresh returns the same list as a hit with both counters zero |
| Aggregator.RepeatAfterLifetimeMisses | internal/search/cache.go:63-69 | once the stored list is older than thirty seconds the same search misses and consults every provider again |
| Aggregator.DeduplicateThree | internal/search/aggregator.go:162-175 | two offers for one hotel (the first no dearer) and one for another: the first offer and the other hotel survive, in that order |
| Aggregator.ParisScenario | internal/search/aggregator.go:58-100 | three providers offering H1 at 12000 and 13500 cents and H2 at 8000: the response is [H2 at 8000, H1 at 12000], three successes, no failure, "miss" |
| PriceOrder.SortByPrice | internal/search/aggregator.go:73-75 | the result ascends by price and is a permutation of the input |
| PriceOrder.SortKeepsUniqueIds | internal/search/aggregator.go:73-75 | sorting a list with unique identifiers keeps them unique |
| PriceOrder.PermutationKeepsUniqueIds | internal/search/aggregator.go:73-75 | every reordering of a list with unique identifiers has unique identifiers |
| PriceOrder.SortedPermutationsAgreeOnPrices | internal/search/aggregator.go:73-75 | every price-ascending permutation has the same price at every position, so the unstable sort leaves open only the order among equal prices |
| ResultCache.NewCache | internal/search/cache.go:32-36 | a new cache is empty |
| ResultCache.KeyOf | internal/search/cache.go:47-52 | the cache key is the request's four fields as given; `ResultCache.KeyOfInjective` shows distinct requests get distinct keys |
| ResultCache.Expired | internal/search/cache.go:63 | an entry is expired only when the clock is strictly past its expiry time |
| ResultCache.KeyOfInjective | internal/search/cache.go:11-16 | two requests share a cache entry exactly when all four fields are equal, with no case folding |
| ResultCache.Get | internal/search/cache.go:46-72 | a list is returned iff the key is present and the clock is not past its expiry. An absent key leaves the store unchanged. An expired key is deleted and nothing else changes. A fresh entry is returned and nothing changes |
| ResultCache.Set | internal/search/cache.go:75-91 | the key maps to the list with expiry now + 30 s; every other key, and the stored lifetime, is unchanged |
| ResultCache.SetIgnoresTtl | internal/search/cache.go:83-86 | the lifetime given to the constructor has no effect on what a write stores |
| ResultCache.SetThenGet | internal/search/cache.go:63-71 | a written list is read back at any time up to and including thirty seconds later |
| ResultCache.SetThenGetExpired | internal/search/cache.go:63-69 | a written list is no longer read back after thirty seconds |
| ResultCache.SetOtherRequest | internal/search/cache.go:88-90 | a write for one request does not change what any other request reads |
| ResultCache.Sweep | internal/search/cache.go:98-106 | the sweep removes exactly the entries whose expiry the clock has passed and keeps the rest untouched |
| ResultCache.SweepLoop | internal/search/cache.go:101-107 | the deleting loop over the keys leaves exactly the unexpired entries, unchanged |
| ResultCache.GetAfterSweep | internal/search/cache.go:98-106 | a read at or after a sweep returns what it would have returned without the sweep |
| ResultCache.SweepIdempotent | internal/search/cache.go:102-106 | a second sweep at the same time removes nothing |
| RateLimit.NewLimiter | internal/search/ratelimit.go:23-28 | a new limiter has no buckets, all within bounds |
| RateLimit.TruncDiv | internal/search/ratelimit.go:71 | the quotient truncated toward zero, as the conversion to int does, for either sign of the dividend |
| RateLimit.TokensEarned | internal/search/ratelimit.go:71 | whole tokens earned: the largest n with n refill periods at most elapsed × capacity; none for a clock that did not advance |
| RateLimit.Refill | internal/search/ratelimit.go:65-80 | with no whole token earned the bucket is untouched; otherwise the tokens grow by the earned amount capped at ten and the refill time becomes now |
| RateLimit.RefillKeepsValid | internal/search/ratelimit.go:73-79 | a refill keeps tokens within [0, 10] and never lowers them |
| RateLimit.RefillAfterFullPeriod | internal/search/ratelimit.go:71-78 | after a whole minute the bucket is full and its refill time is now |
| RateLimit.RefillDropsFraction | internal/search/ratelimit.go:73-79 | refills after 9 s and 12 s leave one token, where one refill after 12 s gives two: the earned fraction is lost |
| RateLimit.BucketFor | internal/search/ratelimit.go:43-50 | an unseen address is charged against a full bucket refilled now, a known one against its own |
| RateLimit.Allow | internal/search/ratelimit.go:38-62 | admitted iff the refilled bucket has a token. An admission stores the refilled bucket, with its refill time, less exactly one token. A refusal stores the refilled bucket. Only the caller's bucket changes. Bounds are preserved |
| RateLimit.DenialChangesNothing | internal/search/ratelimit.go:56-61 | a refused call leaves the limiter exactly as it was |
| RateLimit.FirstCallAdmitted | internal/search/ratelimit.go:43-58 | an unseen address is admitted and left with nine tokens, refill time now |
| RateLimit.AdmittedAfterFullPeriod | internal/search/ratelimit.go:52-58 | after a whole minute without calls an address is admitted and left with nine tokens |
| RateLimit.BurstAtOneInstant | internal/search/ratelimit.go:38-61 | at one instant, a bucket refilled at that instant admits exactly as many calls as it holds tokens |
| RateLimit.FreshAddressBurst | internal/search/ratelimit.go:24-28 | an unseen address calling eleven times at one instant gets ten admissions and then a refusal |
| RateLimit.ReplayKeepsValid | internal/search/ratelimit.go:56-58 | over any sequence of calls every bucket stays within [0, 10] |
| RateLimit.Idle | internal/search/ratelimit.go:91-93 | a bucket is idle when its last refill is strictly before ten minutes ago |
| RateLimit.Sweep | internal/search/ratelimit.go:90-96 | the sweep removes exactly the buckets last refilled strictly before ten minutes ago and keeps the rest untouched |
| RateLimit.SweepLoop | internal/search/ratelimit.go:88-98 | the deleting loop over the addresses leaves exactly the buckets that are not idle, unchanged |
| RateLimit.AllowAfterSweep | internal/search/ratelimit.go:90-96 | eviction is invisible: a call at or after a sweep gets the same verdict and bucket as without it |
| AsciiCase.ToUpper | internal/providers/mock1.go:106-114 | same length, every rune upper-cased on its own |
| AsciiCase.ToLower | internal/providers/mock1.go:116-124 | same length, every rune lower-cased on its own |
| AsciiCase.ToUpperRunes | internal/providers/mock1.go:108-112 | no 'a'..'z' is left, every other rune is kept, a small letter becomes the capital 32 below it |
| AsciiCase.ToLowerRunes | internal/providers/mock1.go:118-122 | no 'A'..'Z' is left, every other rune is kept, a capital becomes the small letter 32 above it |
| AsciiCase.ToUpperIdempotent | internal/providers/mock1.go:106-114 | upper-casing twice is upper-casing once |
| AsciiCase.ToLowerIdempotent | internal/providers/mock1.go:116-124 | lower-casing twice is lower-casing once |
| AsciiCase.LowerAfterUpper | internal/providers/mock1.go:106-124 | lower-casing after upper-casing is lower-casing |
| AsciiCase.EqualFold | internal/search/aggregator.go:151 | the case-insensitive comparison: equal lengths and equal runes after ASCII lower-casing; symmetric and transitive by `AsciiCase.EqualFoldSymmetric` and `AsciiCase.EqualFoldTransitive` |
| AsciiCase.EqualFoldIsEqualLower | internal/search/aggregator.go:151 | the case-insensitive comparison holds exactly when the lower-cased strings are equal |
| AsciiCase.EqualFoldSymmetric | internal/search/aggregator.go:151 | the comparison is symmetric |
| AsciiCase.EqualFoldTransitive | internal/search/aggregator.go:151 | the comparison is transitive |
| AsciiCase.ToUpperFolds | internal/providers/mock1.go:106-114 | the upper-cased string compares equal to the original ignoring case |
| AsciiCase.ToLowerFolds | internal/providers/mock1.go:116-124 | the lower-cased string compares equal to the original ignoring case |
| AsciiCase.TitleRunes | internal/providers/mock1.go:87-102 | the title-casing loop writes one rune per input rune |
| AsciiCase.TitleRunesAt | internal/providers/mock1.go:90-98 | rune i of the output depends only on rune i and the flag left by the runes before it |
| AsciiCase.TitleFlagMeaning | internal/providers/mock1.go:89-101 | the capitalising flag is set exactly when no rune of the current word has yet opened it |
| AsciiCase.ToTitle | internal/providers/mock1.go:83-104 | the helper as written: one output rune per input rune; its per-word behaviour is stated by `AsciiCase.ToTitleRunes` |
| AsciiCase.ToTitleFixed | internal/providers/mock1.go:83-104 | the corrected helper: one output rune per input rune; its per-word behaviour is stated by `AsciiCase.ToTitleFixedRunes` |
| AsciiCase.ToTitleRunes | internal/providers/mock1.go:83-104 | in each space-separated word the first small letter is capitalised, capitals after it are lowered, and capitals before it and non-letters are kept |
| AsciiCase.ToTitleEmpty | internal/providers/mock1.go:84-86 | the empty string is returned as is |
| AsciiCase.ToTitleKeepsCapitals | internal/providers/mock1.go:90-98 | a string of capitals, such as "PARIS", is unchanged |
| AsciiCase.ToTitleFolds | internal/providers/mock1.go:83-104 | the title-cased string compares equal to the original ignoring case |
| AsciiCase.TitleRestOfWord | internal/providers/mock1.go:94-96 | once a word is opened, the rest of the word is lower-cased |
| AsciiCase.ToTitleLowerCity | internal/providers/mock1.go:83-104 | "paris" becomes "Paris" |
| AsciiCase.ToTitleDoublesCapital | internal/providers/mock1.go:91-93 | "Paris" becomes "PAris": a capital does not open the word |
| AsciiCase.ToTitleFixedRunes | internal/providers/mock1.go:83-104 | corrected helper: the first letter of each word is upper-cased and every later letter lower-cased |
| AsciiCase.ToTitleFixedFolds | internal/providers/mock1.go:83-104 | the corrected helper's output compares equal to its input ignoring case |
| AsciiCase.ToTitleFixedIdempotent | internal/providers/mock1.go:83-104 | the corrected helper applied twice is the helper applied once |
| AsciiCase.ToTitleFixedKeepsTitle | internal/providers/mock1.go:83-104 | the corrected helper leaves "Paris" alone |
| AsciiCase.CityCasings | internal/providers/mock1.go:44-49 | four casings (the city, the as-written title case, upper case, lower case), each equal to the city ignoring case |
| Handlers.LastIndexOf | internal/http/handlers.go:178 | the position of the last occurrence, with no occurrence after it, or -1 when there is none |
| Handlers.ExtractIP | internal/http/handlers.go:174-183 | the result is a prefix of the remote address: the whole address when it has no colon, otherwise the part before its last colon |
| Handlers.ExtractIPOfHostPort | internal/http/handlers.go:176-182 | for a host joined to a colon-free port, the host is returned, whatever colons the host holds |
| Handlers.PortsShareBucket | internal/http/handlers.go:38-41 | requests from one host through different ports are charged to the same bucket |
| Handlers.PositiveInt | internal/http/handlers.go:91-92 | a parameter denotes a count exactly when it parses to a positive integer |
| Handlers.Validate | internal/http/handlers.go:50-127 | every refusal is a 400. The request is accepted iff city and checkin are present, checkin is a date, and nights and adults are present and positive integers. The built request carries exactly the parsed values |
| Handlers.FirstFailure | internal/http/handlers.go:51-119 | none iff no check fails; otherwise the message of a failing check with no failing check before it |
| Handlers.ValidateFollowsChecks | internal/http/handlers.go:51-119 | the checks run in the fixed order city, checkin, checkin format, nights, nights value, adults, adults value, and the first failure answers with its own message |
| Handlers.HandleSearch | internal/http/handlers.go:36-148 | the caller's address is charged whatever follows. A refusal answers 429 "rate limit exceeded". An admitted request gets 200 iff its parameters pass, else the first check's 400. Error replies leave the cache alone. A 200 echoes the parsed parameters |
| Handlers.DeniedWhateverParams | internal/http/handlers.go:41-48 | while refused, a client gets the same 429 and leaves the same state whatever its parameters |
| Handlers.BadRequestStillCharged | internal/http/handlers.go:41-119 | a request refused for its parameters has still paid its token, gets a 400, and does not touch the cache |
| Handlers.ValidRequestAnswered | internal/http/handlers.go:121-147 | an admitted request passing every check gets 200 with the search for exactly its parsed parameters, and the server keeps the cache that search leaves |

## Left out

- Goroutines, the errgroup, the mutexes and the two-second and five-second deadlines are not modelled. The fan-out is the list of provider outcomes in the order their tasks took the lock. A provider cut off by the deadline is a failed outcome.
- The gap between the read lock and the write lock in the cache's `Get` is not modelled, because it is a race. `Get` is one atomic step.
- The background tickers are not modelled, because they are scheduling. Each cleanup is one sweep at a given time.
- The mock providers' `Search` methods are not modelled, because they use random failures, latency and random choices. The provider interface is replaced by the outcome datatype. Only the casing helpers and the four casings `mock1.go` offers for the city (built with the helpers as written) are modelled; the random pick among them is the `choice` parameter of `Aggregator.MockCasingsPass`.
- HTTP and JSON plumbing are not modelled, and neither are the `Health` and `Metrics` handlers. The `DurationMs` field is wall-clock measurement and is also left out.
- `time.Parse` and `strconv.Atoi` are parameters of the handler model: a date predicate and a partial integer parser.
- Prices are integers rather than `float64`, because the service only compares them. A NaN price is therefore not modelled: Go would accept it at the `Price <= 0` check and no `<` comparison would ever order it.
- AsciiCase.EqualFold: ASCII case folding only. Go's `strings.EqualFold` also folds non-ASCII letters (the Kelvin sign folds to 'k').
- Aggregator.IsValidHotel: its city check uses `AsciiCase.EqualFold`, so it inherits the ASCII-only folding above.
- RateLimit.TokensEarned: it uses exact integer division on nanoseconds. Go computes `elapsed / refillRate * 10` in `float64`, and that can round differently at exact multiples.
- Strings are sequences of runes. Go's byte indexing in `extractIP` and the rune decoding in the case helpers are not modelled separately.
- The limiter and the cache each read their own clock in the service. The handler model gives the rate limiter and the cache lookup the same instant `now`, and the cache write a later `storeTime`.
- The endpoint's 500 branch is not modelled: the search never fails, so that branch is unreachable.
- The map iteration order that lists deduplicated hotels is unspecified in Go. The model lists them in order of first appearance. No stated property depends on that order, and the sort only promises a price-ascending permutation.

## Findings

| source | as written | input that shows it | evidently intended | confidence | as-written member | corrected member |
|---|---|---|---|---|---|---|
| internal/providers/mock1.go:91-93 | only a small letter opens a word and clears the capitalising flag, so a word starting with a capital keeps the flag and its next small letter is capitalised | "Paris" becomes "PAris" | title case: the first letter of each word in upper case, the rest in lower case, so "Paris" stays "Paris" and the helper is idempotent | not executed | AsciiCase.ToTitleDoublesCapital | AsciiCase.ToTitleFixedIdempotent |

The as-written helper's output still equals its input ignoring case (`AsciiCase.ToTitleFolds`). So the discrepancy never changes which records pass validation, and `AsciiCase.CityCasings` keeps the helper as written, as the mock does. The corrected helper `AsciiCase.ToTitleFixed` is modelled alongside. Its behaviour is proved rune by rune in `AsciiCase.ToTitleFixedRunes`, and on the same city in `AsciiCase.ToTitleFixedKeepsTitle`.
