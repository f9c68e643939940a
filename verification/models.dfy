/** Plain records shared by the search service: the raw provider record, the
    normalised hotel, the incoming request and the response.  They carry no
    behaviour of their own.  Prices are kept as integers (for example cents):
    the service only ever compares them.  Time is an integer number of
    nanoseconds on one monotonic clock. */
module Models {

  datatype Option<+T> = None | Some(value: T)

  /** One second and one minute, in nanoseconds. */
  const Second: int := 1_000_000_000
  const Minute: int := 60 * Second

  /** A record as a provider returns it, before validation. */
  datatype ProviderHotel = ProviderHotel(
    hotelId: string,
    name: string,
    city: string,
    currency: string,
    price: int,
    nights: int)

  /** A normalised hotel of the response: the city and nights are dropped. */
  datatype Hotel = Hotel(
    hotelId: string,
    name: string,
    currency: string,
    price: int)

  /** The query the HTTP layer builds from the URL parameters. */
  datatype SearchRequest = SearchRequest(
    city: string,
    checkIn: string,
    nights: int,
    adults: int)

  /** The query as echoed back in a response. */
  datatype SearchInfo = SearchInfo(
    city: string,
    checkIn: string,
    nights: int,
    adults: int)

  /** Aggregation statistics; the wall-clock duration is not modelled. */
  datatype Stats = Stats(
    providersTotal: int,
    providersSucceeded: int,
    providersFailed: int,
    cache: string)

  datatype SearchResponse = SearchResponse(
    search: SearchInfo,
    stats: Stats,
    hotels: seq<Hotel>)

  const CacheHit: string := "hit"
  const CacheMiss: string := "miss"
}
