/** The HTTP search endpoint: the client address is taken from the remote
    address, the request is charged against that address's token bucket,
    the four query parameters are checked in a fixed order, and only then is
    the aggregator asked.  HTTP and JSON plumbing is reduced to a status and
    a message or a response.  The date parser and the integer parser of the
    Go library are parameters: `isDate` says whether a string parses as a
    YYYY-MM-DD date, and `atoi` gives the integer a string denotes, if any. */
module Handlers {
  import opened Models
  import RateLimit
  import ResultCache
  import Aggregator

  const StatusOK: int := 200
  const StatusBadRequest: int := 400
  const StatusTooManyRequests: int := 429

  const RateLimitExceeded: string := "rate limit exceeded"
  const CityRequired: string := "city parameter is required"
  const CheckinRequired: string := "checkin parameter is required"
  const CheckinFormat: string := "checkin must be in YYYY-MM-DD format"
  const NightsRequired: string := "nights parameter is required"
  const NightsPositive: string := "nights must be a positive integer"
  const AdultsRequired: string := "adults parameter is required"
  const AdultsPositive: string := "adults must be a positive integer"

  // ---------------------------------------------------------------------
  // The client address.
  // ---------------------------------------------------------------------

  /** The position of the last `c` in `s`, or -1 when there is none. */
  function LastIndexOf(s: string, c: char): (idx: int)
    ensures -1 <= idx < |s|
    ensures idx >= 0 ==> s[idx] == c
    ensures forall k :: idx < k < |s| ==> s[k] != c
    decreases |s|
  {
    if |s| == 0 then -1
    else if s[|s| - 1] == c then |s| - 1
    else LastIndexOf(s[..|s| - 1], c)
  }

  /** The remote address with everything from its last colon on cut off,
      so that the port does not count as part of the client's identity. */
  function ExtractIP(remoteAddr: string): (ip: string)
    ensures ip <= remoteAddr
    ensures (forall k :: 0 <= k < |remoteAddr| ==> remoteAddr[k] != ':') ==> ip == remoteAddr
    ensures (exists k :: 0 <= k < |remoteAddr| && remoteAddr[k] == ':') ==>
      && |ip| < |remoteAddr|
      && remoteAddr[|ip|] == ':'
      && forall k :: |ip| < k < |remoteAddr| ==> remoteAddr[k] != ':'
  {
    var idx := LastIndexOf(remoteAddr, ':');
    if idx != -1 then remoteAddr[..idx] else remoteAddr
  }

  /** Joining a host and a colon-free port and extracting the address gives
      the host back, whatever colons the host holds itself (as a bracketed
      IPv6 address does). */
  lemma ExtractIPOfHostPort(host: string, port: string)
    requires forall k :: 0 <= k < |port| ==> port[k] != ':'
    ensures ExtractIP(host + ":" + port) == host
  {
    var addr := host + ":" + port;
    assert addr[|host|] == ':';
    var ip := ExtractIP(addr);
    forall k | |host| < k < |addr|
      ensures addr[k] != ':'
    {
      assert addr[k] == port[k - |host| - 1];
    }
    assert |ip| == |host|;
    assert ip == addr[..|host|] == host;
  }

  /** Requests from one host through different ports share one bucket. */
  lemma PortsShareBucket(host: string, port1: string, port2: string)
    requires forall k :: 0 <= k < |port1| ==> port1[k] != ':'
    requires forall k :: 0 <= k < |port2| ==> port2[k] != ':'
    ensures ExtractIP(host + ":" + port1) == ExtractIP(host + ":" + port2)
  {
    ExtractIPOfHostPort(host, port1);
    ExtractIPOfHostPort(host, port2);
  }

  // ---------------------------------------------------------------------
  // The parameter checks.
  // ---------------------------------------------------------------------

  /** The raw query parameters; a parameter that is absent reads as "". */
  datatype QueryParams = QueryParams(city: string, checkin: string, nights: string, adults: string)

  /** The verdict on a request before the aggregator is asked. */
  datatype Decision = Reject(status: int, message: string) | Accept(req: SearchRequest)

  /** The integer a parameter denotes when it parses and is positive. */
  function PositiveInt(s: string, atoi: string -> Option<int>): (n: Option<int>)
    ensures n.Some? <==> atoi(s).Some? && atoi(s).value > 0
    ensures n.Some? ==> n == atoi(s)
  {
    match atoi(s)
    case Some(v) => if v <= 0 then None else Some(v)
    case None => None
  }

  /** The checks of an admitted request, in the order the endpoint makes
      them; the first failure answers 400 with its own message. */
  function Validate(q: QueryParams, isDate: string -> bool, atoi: string -> Option<int>): (d: Decision)
    ensures d.Reject? ==> d.status == StatusBadRequest
    ensures d.Accept? <==>
      && q.city != "" && q.checkin != "" && isDate(q.checkin)
      && q.nights != "" && PositiveInt(q.nights, atoi).Some?
      && q.adults != "" && PositiveInt(q.adults, atoi).Some?
    ensures d.Accept? ==>
      && d.req.city == q.city
      && d.req.checkIn == q.checkin
      && Some(d.req.nights) == atoi(q.nights) && d.req.nights > 0
      && Some(d.req.adults) == atoi(q.adults) && d.req.adults > 0
  {
    if q.city == "" then Reject(StatusBadRequest, CityRequired)
    else if q.checkin == "" then Reject(StatusBadRequest, CheckinRequired)
    else if !isDate(q.checkin) then Reject(StatusBadRequest, CheckinFormat)
    else if q.nights == "" then Reject(StatusBadRequest, NightsRequired)
    else if PositiveInt(q.nights, atoi).None? then Reject(StatusBadRequest, NightsPositive)
    else if q.adults == "" then Reject(StatusBadRequest, AdultsRequired)
    else if PositiveInt(q.adults, atoi).None? then Reject(StatusBadRequest, AdultsPositive)
    else
      Accept(SearchRequest(q.city, q.checkin, PositiveInt(q.nights, atoi).value, PositiveInt(q.adults, atoi).value))
  }

  /** A check as a table row: whether it fails, and what it answers then. */
  datatype Check = Check(fails: bool, message: string)

  /** The endpoint's checks as a table, in order. */
  function ParamChecks(q: QueryParams, isDate: string -> bool, atoi: string -> Option<int>): (cs: seq<Check>)
    ensures |cs| == 7
  {
    [ Check(q.city == "", CityRequired),
      Check(q.checkin == "", CheckinRequired),
      Check(!isDate(q.checkin), CheckinFormat),
      Check(q.nights == "", NightsRequired),
      Check(PositiveInt(q.nights, atoi).None?, NightsPositive),
      Check(q.adults == "", AdultsRequired),
      Check(PositiveInt(q.adults, atoi).None?, AdultsPositive) ]
  }

  /** The message of the first failing row, if any row fails. */
  function FirstFailure(cs: seq<Check>): (m: Option<string>)
    ensures m.None? <==> forall i :: 0 <= i < |cs| ==> !cs[i].fails
    ensures m.Some? ==> exists i :: 0 <= i < |cs| && cs[i].fails && cs[i].message == m.value &&
                                    forall k :: 0 <= k < i ==> !cs[k].fails
    decreases |cs|
  {
    if |cs| == 0 then None
    else if cs[0].fails then Some(cs[0].message)
    else
      var m := FirstFailure(cs[1..]);
      if m.Some? then
        var i :| 0 <= i < |cs[1..]| && cs[1..][i].fails && cs[1..][i].message == m.value &&
                 forall k :: 0 <= k < i ==> !cs[1..][k].fails;
        assert cs[i + 1].fails && forall k :: 0 <= k < i + 1 ==> !cs[k].fails;
        m
      else
        assert forall i :: 1 <= i < |cs| ==> cs[i] == cs[1..][i - 1];
        m
  }

  /** The table is read from the top: a failing first row answers, and a
      passing one hands over to the rest. */
  lemma FirstFailureCons(c: Check, rest: seq<Check>)
    ensures FirstFailure([c] + rest) == if c.fails then Some(c.message) else FirstFailure(rest)
  {
    assert ([c] + rest)[1..] == rest;
  }

  /** The chain of checks answers with the first failing row of the table,
      and admits the request exactly when no row fails. */
  lemma ValidateFollowsChecks(q: QueryParams, isDate: string -> bool, atoi: string -> Option<int>)
    ensures var d := Validate(q, isDate, atoi);
            var m := FirstFailure(ParamChecks(q, isDate, atoi));
            && (d.Accept? <==> m.None?)
            && (d.Reject? ==> m == Some(d.message))
  {
    var cs := ParamChecks(q, isDate, atoi);
    var none: seq<Check> := [];
    var t6 := [cs[6]] + none;
    var t5 := [cs[5]] + t6;
    var t4 := [cs[4]] + t5;
    var t3 := [cs[3]] + t4;
    var t2 := [cs[2]] + t3;
    var t1 := [cs[1]] + t2;
    assert cs == [cs[0]] + t1;
    FirstFailureCons(cs[0], t1);
    FirstFailureCons(cs[1], t2);
    FirstFailureCons(cs[2], t3);
    FirstFailureCons(cs[3], t4);
    FirstFailureCons(cs[4], t5);
    FirstFailureCons(cs[5], t6);
    FirstFailureCons(cs[6], none);
  }

  // ---------------------------------------------------------------------
  // The endpoint.
  // ---------------------------------------------------------------------

  /** The state behind the endpoint: the rate limiter and, when configured,
      the result cache. */
  datatype Server = Server(limiter: RateLimit.Limiter, cache: Option<ResultCache.Cache>)

  datatype Reply = ErrorReply(status: int, message: string) | Found(response: SearchResponse)

  function StatusOf(reply: Reply): (status: int)
    ensures reply.Found? ==> status == StatusOK
  {
    match reply
    case ErrorReply(status, _) => status
    case Found(_) => StatusOK
  }

  datatype Handled = Handled(server: Server, reply: Reply)

  /** One call of the search endpoint at time `now`: the rate-limit verdict,
      the parameter checks, then the search, whose list is stored at
      `storeTime` after the fan-out. */
  function HandleSearch(s: Server, remoteAddr: string, q: QueryParams,
                        outcomes: seq<Aggregator.ProviderOutcome>, now: int, storeTime: int,
                        isDate: string -> bool, atoi: string -> Option<int>): (h: Handled)
    ensures h.server.limiter == RateLimit.Allow(s.limiter, ExtractIP(remoteAddr), now).limiter
    ensures !RateLimit.Allow(s.limiter, ExtractIP(remoteAddr), now).allowed ==>
      h.reply == ErrorReply(StatusTooManyRequests, RateLimitExceeded)
    ensures RateLimit.Allow(s.limiter, ExtractIP(remoteAddr), now).allowed ==>
      (h.reply.Found? <==> Validate(q, isDate, atoi).Accept?)
    ensures RateLimit.Allow(s.limiter, ExtractIP(remoteAddr), now).allowed && Validate(q, isDate, atoi).Reject? ==>
      h.reply == ErrorReply(StatusBadRequest, Validate(q, isDate, atoi).message)
    ensures h.reply.ErrorReply? ==> h.server.cache == s.cache
    ensures h.reply.Found? ==>
      && Some(h.reply.response.search.nights) == atoi(q.nights)
      && Some(h.reply.response.search.adults) == atoi(q.adults)
      && h.reply.response.search.city == q.city
      && h.reply.response.search.checkIn == q.checkin
      && h.reply.response.stats.providersTotal == |outcomes|
  {
    var verdict := RateLimit.Allow(s.limiter, ExtractIP(remoteAddr), now);
    if !verdict.allowed then
      Handled(Server(verdict.limiter, s.cache), ErrorReply(StatusTooManyRequests, RateLimitExceeded))
    else
      match Validate(q, isDate, atoi)
      case Reject(status, message) => Handled(Server(verdict.limiter, s.cache), ErrorReply(status, message))
      case Accept(req) =>
        var o := Aggregator.Search(s.cache, req, outcomes, now, storeTime);
        Handled(Server(verdict.limiter, o.cache), Found(o.response))
  }

  /** A refused client learns nothing about its parameters: every request
      it sends while its bucket is empty gets the same 429 and leaves the
      same state. */
  lemma DeniedWhateverParams(s: Server, remoteAddr: string, q1: QueryParams, q2: QueryParams,
                             outcomes1: seq<Aggregator.ProviderOutcome>, outcomes2: seq<Aggregator.ProviderOutcome>,
                             now: int, storeTime: int, isDate: string -> bool, atoi: string -> Option<int>)
    requires !RateLimit.Allow(s.limiter, ExtractIP(remoteAddr), now).allowed
    ensures HandleSearch(s, remoteAddr, q1, outcomes1, now, storeTime, isDate, atoi)
         == HandleSearch(s, remoteAddr, q2, outcomes2, now, storeTime, isDate, atoi)
    ensures StatusOf(HandleSearch(s, remoteAddr, q1, outcomes1, now, storeTime, isDate, atoi).reply)
         == StatusTooManyRequests
  {
  }

  /** An admitted request pays its token even when its parameters are then
      refused, and a refused request leaves the cache alone. */
  lemma BadRequestStillCharged(s: Server, remoteAddr: string, q: QueryParams,
                               outcomes: seq<Aggregator.ProviderOutcome>, now: int, storeTime: int,
                               isDate: string -> bool, atoi: string -> Option<int>)
    requires RateLimit.Allow(s.limiter, ExtractIP(remoteAddr), now).allowed
    requires Validate(q, isDate, atoi).Reject?
    ensures var ip := ExtractIP(remoteAddr);
            var h := HandleSearch(s, remoteAddr, q, outcomes, now, storeTime, isDate, atoi);
            && StatusOf(h.reply) == StatusBadRequest
            && h.server.limiter.buckets[ip].tokens
               == RateLimit.Refill(RateLimit.BucketFor(s.limiter, ip, now), now).tokens - 1
            && h.server.cache == s.cache
  {
  }

  /** A request that passes every check is answered 200 with the search for
      exactly the parsed parameters; the endpoint has no 500 path because
      the search never fails. */
  lemma ValidRequestAnswered(s: Server, remoteAddr: string, q: QueryParams,
                             outcomes: seq<Aggregator.ProviderOutcome>, now: int, storeTime: int,
                             isDate: string -> bool, atoi: string -> Option<int>)
    requires RateLimit.Allow(s.limiter, ExtractIP(remoteAddr), now).allowed
    requires FirstFailure(ParamChecks(q, isDate, atoi)).None?
    ensures var h := HandleSearch(s, remoteAddr, q, outcomes, now, storeTime, isDate, atoi);
            && StatusOf(h.reply) == StatusOK
            && h.reply.Found?
            && h.reply.response == Aggregator.Search(s.cache, Validate(q, isDate, atoi).req, outcomes, now, storeTime).response
            && h.server.cache == Aggregator.Search(s.cache, Validate(q, isDate, atoi).req, outcomes, now, storeTime).cache
  {
    ValidateFollowsChecks(q, isDate, atoi);
  }
}
