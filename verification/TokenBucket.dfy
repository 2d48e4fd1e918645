/** The token bucket: its value model and the object that is updated in place.
    Token counts are reals; instants are nanosecond counts. */
module TokenBuckets {
  import opened Common

  const NANOS_PER_SECOND: real := 1000000000.0

  function Seconds(d: Time): real { d as real / NANOS_PER_SECOND }

  /** The tokens that `rate` per second yields in `d` nanoseconds. */
  function Yield(rate: real, d: Time): real { Seconds(d) * rate }

  lemma YieldAdds(rate: real, d: Time, e: Time)
    ensures Yield(rate, d) + Yield(rate, e) == Yield(rate, d + e)
    ensures rate >= 0.0 && d >= 0 ==> Yield(rate, d) >= 0.0
    ensures rate >= 0.0 && e >= 0 ==> Yield(rate, e) >= 0.0
  {
  }

  datatype Bucket = Bucket(tokens: real, maxTokens: real, refillRate: real, lastRefill: Time) {
    function Refill(now: Time): Bucket {
      var t := tokens + Yield(refillRate, now - lastRefill);
      this.(tokens := if t > maxTokens then maxTokens else t, lastRefill := now)
    }

    predicate Grants(n: real, now: Time) { Refill(now).tokens >= n }

    function AfterAllowN(n: real, now: Time): Bucket {
      var b := Refill(now);
      if b.tokens >= n then b.(tokens := b.tokens - n) else b
    }

    /** The wait in nanoseconds, truncated. With a zero rate the division is
        infinite and has no defined conversion to a duration. */
    function WaitTime(n: real, now: Time): Option<int> {
      var b := Refill(now);
      if b.tokens >= n then Some(0)
      else if refillRate == 0.0 then None
      else Some(Truncate((n - b.tokens) / refillRate * NANOS_PER_SECOND))
    }

    ghost predicate Valid() { 0.0 <= tokens <= maxTokens && 0.0 <= refillRate }
  }

  /** The level `d` nanoseconds after the last refill, at `refillRate` a second. */
  function Accrued(b: Bucket, d: Time): real {
    var level := b.tokens + d as real * b.refillRate / 1000000000.0;
    if level > b.maxTokens then b.maxTokens else level
  }

  lemma YieldWrittenOut(rate: real, d: Time)
    ensures Yield(rate, d) == d as real * rate / 1000000000.0
  {
  }

  /** A refill makes the level that and nothing else. */
  lemma RefillAccrues(b: Bucket, now: Time)
    ensures b.Refill(now) == Bucket(Accrued(b, now - b.lastRefill), b.maxTokens, b.refillRate, now)
  {
    YieldWrittenOut(b.refillRate, now - b.lastRefill);
  }

  function Full(maxTokens: real, refillRate: real, now: Time): Bucket {
    Bucket(maxTokens, maxTokens, refillRate, now)
  }

  /** Conversion of a float to an integer, towards zero. */
  function Truncate(x: real): int { if x >= 0.0 then x.Floor else -(-x).Floor }

  class TokenBucket {
    var tokens: real
    const maxTokens: real
    const refillRate: real
    var lastRefill: Time

    /** The bucket's value. */
    ghost function State(): Bucket
      reads this
    {
      Bucket(tokens, maxTokens, refillRate, lastRefill)
    }

    constructor (maxTokens: real, refillRate: real, now: Time)
      ensures State() == Full(maxTokens, refillRate, now)
    {
      this.tokens, this.maxTokens, this.refillRate, lastRefill := maxTokens, maxTokens, refillRate, now;
    }

    method Refill(now: Time)
      modifies this
      ensures State() == old(State().Refill(now))
      ensures tokens == old(Accrued(State(), now - lastRefill)) && lastRefill == now
    {
      RefillAccrues(State(), now);
      var elapsed := Seconds(now - lastRefill);
      tokens := tokens + elapsed * refillRate;
      if tokens > maxTokens {
        tokens := maxTokens;
      }
      lastRefill := now;
    }

    method AllowN(n: real, now: Time) returns (granted: bool)
      modifies this
      ensures granted == old(State().Grants(n, now))
      ensures State() == old(State().AfterAllowN(n, now))
      ensures var level := old(Accrued(State(), now - lastRefill));
              (granted <==> level >= n) && tokens == (if level >= n then level - n else level) && lastRefill == now
    {
      Refill(now);
      if tokens >= n {
        tokens := tokens - n;
        return true;
      }
      return false;
    }

    method Tokens(now: Time) returns (t: real)
      modifies this
      ensures State() == old(State().Refill(now)) && t == tokens == old(Accrued(State(), now - lastRefill))
    {
      Refill(now);
      t := tokens;
    }

    method WaitTime(n: real, now: Time) returns (wait: Option<int>)
      modifies this
      ensures State() == old(State().Refill(now))
      ensures wait == old(State().WaitTime(n, now))
      ensures tokens == old(Accrued(State(), now - lastRefill)) && lastRefill == now
      ensures tokens >= n ==> wait == Some(0)
      ensures tokens < n ==> wait == if refillRate == 0.0 then None
                                     else Some(Truncate((n - tokens) / refillRate * 1000000000.0))
    {
      Refill(now);
      if tokens >= n {
        return Some(0);
      }
      if refillRate == 0.0 {
        return None;
      }
      var needed := n - tokens;
      return Some(Truncate(needed / refillRate * NANOS_PER_SECOND));
    }
  }
}
