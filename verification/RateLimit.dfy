/** The token bucket as an object with its clock. */
module RateLimit {
  import opened TokenBucket

  class Clock {
    var now: real

    constructor (now: real)
      ensures this.now == now
    {
      this.now := now;
    }

    /** The scheduler may wake the caller `extra` seconds late. */
    method Sleep(delay: real, extra: real)
      requires delay >= 0.0 && extra >= 0.0
      modifies this
      ensures now == old(now) + (delay + extra)
    {
      now := now + (delay + extra);
    }
  }

  class Bucket {
    const limits: Limits
    const clock: Clock
    var tokens: real
    var updated: real

    constructor (rate: real, capacity: real, clock: Clock)
      requires rate > 0.0
      ensures limits == Limits(rate, if capacity < 1.0 then 1.0 else capacity)
      ensures this.clock == clock && AsLevel() == Level(limits.capacity, clock.now)
    {
      limits := Limits(rate, if capacity < 1.0 then 1.0 else capacity);
      this.clock := clock;
      tokens := if capacity < 1.0 then 1.0 else capacity;
      updated := clock.now;
    }

    function AsLevel(): Level
      reads this
    {
      Level(tokens, updated)
    }

    /** The clock has not been behind the last refill. */
    ghost predicate Ready()
      reads this, clock
    {
      Valid(limits, AsLevel()) && updated <= clock.now
    }

    method RefillLocked()
      modifies this
      ensures AsLevel() == Refill(limits, old(AsLevel()), clock.now)
    {
      var elapsed := clock.now - updated;
      if elapsed > 0.0 {
        tokens := Min(limits.capacity, tokens + elapsed * limits.rate);
        updated := clock.now;
      }
    }

    method TryAcquire(n: real) returns (granted: bool)
      modifies this
      ensures AsLevel() == Attempt(limits, old(AsLevel()), clock.now, n)
      ensures granted <==> Grants(limits, old(AsLevel()), clock.now, n)
    {
      RefillLocked();
      if tokens >= n {
        tokens := tokens - n;
        return true;
      }
      granted := false;
    }

    /** A lone caller sleeps at most once, for exactly the time the missing tokens take. */
    method Acquire(n: real, extra: real) returns (waited: real, sleeps: nat)
      requires Ready() && 0.0 <= n <= limits.capacity && extra >= 0.0
      modifies this, clock
      ensures Ready() && sleeps <= 1
      ensures sleeps == 0 <==> old(Grants(limits, AsLevel(), clock.now, n))
      ensures var missing := n - old(Refill(limits, AsLevel(), clock.now).tokens);
        && waited == (if sleeps == 0 then 0.0 else missing / limits.rate)
        && clock.now == old(clock.now) + (if sleeps == 0 then 0.0 else waited + extra)
      ensures AsLevel() == Attempt(limits, old(Refill(limits, AsLevel(), clock.now)), clock.now, n)
    {
      waited, sleeps := 0.0, 0;
      ghost var at := clock.now;
      ghost var full := Refill(limits, AsLevel(), at);
      RefillStaysValid(limits, AsLevel(), at);
      while true
        invariant sleeps <= 1 && Ready() && clock.now >= at
        invariant sleeps == 0 ==> AsLevel() == old(AsLevel()) && clock.now == at && waited == 0.0
        invariant sleeps == 1 ==>
          && AsLevel() == full && full.tokens < n && Grants(limits, full, clock.now, n)
          && waited == (n - full.tokens) / limits.rate && clock.now == at + (waited + extra)
        decreases 1 - sleeps
      {
        RefillStaysValid(limits, AsLevel(), clock.now);
        RefillLocked();
        if tokens >= n {
          tokens := tokens - n;
          return;
        }
        var deficit := n - tokens;
        var delay := deficit / limits.rate;
        DelayIsEnough(limits, AsLevel(), n, extra);
        assert delay >= 0.0;
        clock.Sleep(delay, extra);
        waited := waited + delay;
        sleeps := sleeps + 1;
      }
    }
  }
}
