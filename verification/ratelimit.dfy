/** The per-client token-bucket rate limiter: ten requests per minute per
    IP address.  A bucket is created full on first sight of an address,
    is refilled lazily on each call in proportion to the time elapsed, and
    is evicted by a periodic sweep once idle for ten minutes.  The bucket
    map is explicit state threaded through each operation; the clock is the
    `now` argument (nanoseconds). */
module RateLimit {
  import opened Models

  const MaxTokens: int := 10
  /** The time in which an empty bucket refills completely. */
  const RefillRate: int := Minute
  /** Buckets whose last refill is older than this are evicted by the sweep. */
  const IdleLimit: int := 10 * Minute

  datatype Bucket = Bucket(tokens: int, lastRefill: int)

  datatype Limiter = Limiter(buckets: map<string, Bucket>)

  /** The limiter after a call, and whether the call was admitted. */
  datatype Verdict = Verdict(limiter: Limiter, allowed: bool)

  predicate ValidBucket(b: Bucket)
  {
    0 <= b.tokens <= MaxTokens
  }

  predicate Valid(l: Limiter)
  {
    forall ip :: ip in l.buckets ==> ValidBucket(l.buckets[ip])
  }

  function NewLimiter(): (l: Limiter)
    ensures Valid(l) && l.buckets == map[]
  {
    Limiter(map[])
  }

  /** Go's conversion of a non-negative or negative quotient to `int`
      truncates toward zero; Dafny's `/` rounds toward minus infinity. */
  function TruncDiv(a: int, b: int): (q: int)
    requires b > 0
    ensures a >= 0 ==> q * b <= a < q * b + b
    ensures a < 0 ==> q * b >= a > q * b - b
  {
    if a >= 0 then a / b else -((-a) / b)
  }

  /** Whole tokens earned over `elapsed` nanoseconds: the elapsed fraction
      of the refill period times the capacity, truncated. */
  function TokensEarned(elapsed: int): (n: int)
    ensures elapsed >= 0 ==> n >= 0 && n * RefillRate <= elapsed * MaxTokens
    ensures elapsed >= 0 ==> elapsed * MaxTokens < (n + 1) * RefillRate
    ensures elapsed <= 0 ==> n <= 0
  {
    TruncDiv(elapsed * MaxTokens, RefillRate)
  }

  /** Adds the tokens earned since the last refill, capped at the capacity.
      Only when at least one whole token is earned does the refill time move,
      and then it moves to `now`: the fraction of a token earned on top is
      lost.  Otherwise the bucket is untouched. */
  function Refill(b: Bucket, now: int): (r: Bucket)
    ensures TokensEarned(now - b.lastRefill) <= 0 ==> r == b
    ensures TokensEarned(now - b.lastRefill) > 0 ==>
      r.lastRefill == now &&
      r.tokens == if b.tokens + TokensEarned(now - b.lastRefill) > MaxTokens then MaxTokens
                  else b.tokens + TokensEarned(now - b.lastRefill)
  {
    var add := TokensEarned(now - b.lastRefill);
    if add > 0 then
      var tokens := b.tokens + add;
      Bucket(if tokens > MaxTokens then MaxTokens else tokens, now)
    else b
  }

  lemma RefillKeepsValid(b: Bucket, now: int)
    requires ValidBucket(b)
    ensures ValidBucket(Refill(b, now))
    ensures Refill(b, now).tokens >= b.tokens
  {
  }

  /** A whole refill period without calls fills the bucket. */
  lemma RefillAfterFullPeriod(b: Bucket, now: int)
    requires ValidBucket(b)
    requires now - b.lastRefill >= RefillRate
    ensures Refill(b, now) == Bucket(MaxTokens, now)
  {
    assert TokensEarned(now - b.lastRefill) >= MaxTokens by {
      var e := now - b.lastRefill;
      var n := TokensEarned(e);
      assert e * MaxTokens >= RefillRate * MaxTokens;
      assert (n + 1) * RefillRate > RefillRate * MaxTokens;
    }
  }

  /** The fraction of a token earned on top of a refill is lost: an empty
      bucket refilled after 9 s and again after 12 s holds one token, while
      one refill after 12 s gives two (a token is earned every 6 s). */
  lemma RefillDropsFraction()
    ensures Refill(Refill(Bucket(0, 0), 9 * Second), 12 * Second) == Bucket(1, 9 * Second)
    ensures Refill(Bucket(0, 0), 12 * Second) == Bucket(2, 12 * Second)
  {
    assert TokensEarned(9 * Second) == 1;
    assert TokensEarned(3 * Second) == 0;
    assert TokensEarned(12 * Second) == 2;
  }

  /** The bucket an address is charged against before the refill: its own,
      or a full one created now. */
  function BucketFor(l: Limiter, ip: string, now: int): (b: Bucket)
    ensures ip !in l.buckets ==> b == Bucket(MaxTokens, now)
    ensures ip in l.buckets ==> b == l.buckets[ip]
  {
    if ip in l.buckets then l.buckets[ip] else Bucket(MaxTokens, now)
  }

  function Allow(l: Limiter, ip: string, now: int): (r: Verdict)
    ensures r.allowed <==> Refill(BucketFor(l, ip, now), now).tokens > 0
    ensures ip in r.limiter.buckets
    ensures r.limiter.buckets == l.buckets[ip := r.limiter.buckets[ip]]
    ensures r.allowed ==>
      r.limiter.buckets[ip] == Bucket(Refill(BucketFor(l, ip, now), now).tokens - 1, Refill(BucketFor(l, ip, now), now).lastRefill)
    ensures !r.allowed ==> r.limiter.buckets[ip] == Refill(BucketFor(l, ip, now), now)
    ensures Valid(l) ==> Valid(r.limiter)
  {
    var b := Refill(BucketFor(l, ip, now), now);
    if b.tokens > 0 then
      Verdict(Limiter(l.buckets[ip := b.(tokens := b.tokens - 1)]), true)
    else
      Verdict(Limiter(l.buckets[ip := b]), false)
  }

  /** A refused call leaves the limiter exactly as it found it. */
  lemma DenialChangesNothing(l: Limiter, ip: string, now: int)
    requires Valid(l)
    requires !Allow(l, ip, now).allowed
    ensures Allow(l, ip, now).limiter == l
  {
  }

  /** An address seen for the first time is admitted and left with one
      token fewer than the capacity, its refill clock starting now. */
  lemma FirstCallAdmitted(l: Limiter, ip: string, now: int)
    requires ip !in l.buckets
    ensures Allow(l, ip, now).allowed
    ensures Allow(l, ip, now).limiter.buckets[ip] == Bucket(MaxTokens - 1, now)
  {
  }

  /** After a whole idle refill period an address is admitted again. */
  lemma AdmittedAfterFullPeriod(l: Limiter, ip: string, now: int)
    requires Valid(l)
    requires ip in l.buckets && now - l.buckets[ip].lastRefill >= RefillRate
    ensures Allow(l, ip, now).allowed
    ensures Allow(l, ip, now).limiter.buckets[ip] == Bucket(MaxTokens - 1, now)
  {
    RefillAfterFullPeriod(l.buckets[ip], now);
  }

  /** `n` calls from one address at one instant: the verdicts in order. */
  function Burst(l: Limiter, ip: string, now: int, n: nat): (r: (Limiter, seq<bool>))
    ensures |r.1| == n
    decreases n
  {
    if n == 0 then (l, [])
    else
      var v := Allow(l, ip, now);
      var rest := Burst(v.limiter, ip, now, n - 1);
      (rest.0, [v.allowed] + rest.1)
  }

  /** Within one instant, a bucket whose refill clock reads that instant
      admits exactly as many calls as it holds tokens. */
  lemma {:induction false} BurstAtOneInstant(l: Limiter, ip: string, now: int, n: nat)
    requires ip in l.buckets && l.buckets[ip].lastRefill == now
    ensures forall i :: 0 <= i < n ==> Burst(l, ip, now, n).1[i] == (i < l.buckets[ip].tokens)
    decreases n
  {
    if n > 0 {
      var v := Allow(l, ip, now);
      var t := l.buckets[ip].tokens;
      assert Refill(l.buckets[ip], now) == l.buckets[ip];
      assert v.allowed <==> t > 0;
      assert v.limiter.buckets[ip] == Bucket(if t > 0 then t - 1 else t, now);
      BurstAtOneInstant(v.limiter, ip, now, n - 1);
      var r := Burst(l, ip, now, n);
      forall i | 0 <= i < n
        ensures r.1[i] == (i < t)
      {
        if i > 0 {
          assert r.1[i] == Burst(v.limiter, ip, now, n - 1).1[i - 1];
        }
      }
    }
  }

  /** A new address gets ten admissions at one instant, and the eleventh
      call is refused. */
  lemma FreshAddressBurst(l: Limiter, ip: string, now: int)
    requires ip !in l.buckets
    ensures Burst(l, ip, now, 11).1 == [true, true, true, true, true, true, true, true, true, true, false]
  {
    var v := Allow(l, ip, now);
    FirstCallAdmitted(l, ip, now);
    BurstAtOneInstant(v.limiter, ip, now, 10);
    var r := Burst(l, ip, now, 11);
    forall i | 0 <= i < 11
      ensures r.1[i] == (i < 10)
    {
      if i > 0 {
        assert r.1[i] == Burst(v.limiter, ip, now, 10).1[i - 1];
      }
    }
  }

  /** Calls replayed in order: each an address and a clock reading. */
  function Replay(l: Limiter, calls: seq<(string, int)>): (r: Limiter)
    decreases |calls|
  {
    if |calls| == 0 then l
    else Replay(Allow(l, calls[0].0, calls[0].1).limiter, calls[1..])
  }

  /** Every bucket stays within [0, capacity] over any sequence of calls. */
  lemma {:induction false} ReplayKeepsValid(l: Limiter, calls: seq<(string, int)>)
    requires Valid(l)
    ensures Valid(Replay(l, calls))
    decreases |calls|
  {
    if |calls| > 0 {
      ReplayKeepsValid(Allow(l, calls[0].0, calls[0].1).limiter, calls[1..]);
    }
  }

  /** A bucket is idle once its last refill is strictly before the cutoff
      ten minutes ago. */
  predicate Idle(b: Bucket, now: int)
  {
    b.lastRefill < now - IdleLimit
  }

  /** One pass of the background cleanup, as a map comprehension. */
  function Sweep(l: Limiter, now: int): (r: Limiter)
    ensures forall ip :: ip in r.buckets <==> ip in l.buckets && !Idle(l.buckets[ip], now)
    ensures forall ip :: ip in r.buckets ==> r.buckets[ip] == l.buckets[ip]
    ensures Valid(l) ==> Valid(r)
  {
    Limiter(map ip | ip in l.buckets && !Idle(l.buckets[ip], now) :: l.buckets[ip])
  }

  /** One pass of the background cleanup as the loop deleting idle buckets
      while it walks the addresses. */
  method SweepLoop(l: Limiter, now: int) returns (r: Limiter)
    ensures forall ip :: ip in r.buckets <==> ip in l.buckets && !Idle(l.buckets[ip], now)
    ensures forall ip :: ip in r.buckets ==> r.buckets[ip] == l.buckets[ip]
  {
    var buckets := l.buckets;
    var todo := l.buckets.Keys;
    while todo != {}
      invariant todo <= l.buckets.Keys
      invariant forall ip :: ip in buckets ==> ip in l.buckets && buckets[ip] == l.buckets[ip]
      invariant forall ip :: ip in l.buckets && ip in todo ==> ip in buckets
      invariant forall ip :: ip in l.buckets && ip !in todo ==> (ip in buckets <==> !Idle(l.buckets[ip], now))
      decreases todo
    {
      var ip :| ip in todo;
      if Idle(buckets[ip], now) {
        buckets := buckets - {ip};
      }
      todo := todo - {ip};
    }
    r := Limiter(buckets);
  }

  /** Eviction is invisible to clients: an evicted bucket would have been
      refilled to capacity anyway, so at or after the sweep a call gets the
      same verdict and leaves the same bucket as without the sweep. */
  lemma AllowAfterSweep(l: Limiter, ip: string, now: int, later: int)
    requires Valid(l)
    requires now <= later
    ensures Allow(Sweep(l, now), ip, later).allowed == Allow(l, ip, later).allowed
    ensures Allow(Sweep(l, now), ip, later).limiter.buckets[ip] == Allow(l, ip, later).limiter.buckets[ip]
  {
    if ip in l.buckets && Idle(l.buckets[ip], now) {
      RefillAfterFullPeriod(l.buckets[ip], later);
      assert Refill(Bucket(MaxTokens, later), later) == Bucket(MaxTokens, later);
    }
  }
}
