/** The request-rate ceiling: a lazily refilled token bucket.  Times and tokens are reals. */
module TokenBucket {
  /** The balance and the instant it was last brought up to date. */
  datatype Level = Level(tokens: real, updated: real)

  datatype Limits = Limits(rate: real, capacity: real)

  predicate Usable(l: Limits) {
    l.rate > 0.0 && l.capacity >= 1.0
  }

  function Min(a: real, b: real): real {
    if a <= b then a else b
  }

  function Refill(l: Limits, b: Level, now: real): Level {
    if now - b.updated > 0.0 then Level(Min(l.capacity, b.tokens + (now - b.updated) * l.rate), now) else b
  }

  /** One pass through the lock: refill, then take `n` tokens if they are there. */
  function Attempt(l: Limits, b: Level, now: real, n: real): Level {
    var r := Refill(l, b, now);
    if r.tokens >= n then r.(tokens := r.tokens - n) else r
  }

  predicate Grants(l: Limits, b: Level, now: real, n: real) {
    Refill(l, b, now).tokens >= n
  }

  /** An attempt by some caller to take `n` tokens at an instant. */
  datatype Try = Try(now: real, n: real)

  function After(l: Limits, b: Level, tries: seq<Try>): Level
    decreases tries
  {
    if tries == [] then b else After(l, Attempt(l, b, tries[0].now, tries[0].n), tries[1..])
  }

  function Granted(l: Limits, b: Level, tries: seq<Try>): real
    decreases tries
  {
    if tries == [] then 0.0
    else (if Grants(l, b, tries[0].now, tries[0].n) then tries[0].n else 0.0)
         + Granted(l, Attempt(l, b, tries[0].now, tries[0].n), tries[1..])
  }

  ghost predicate Within(tries: seq<Try>, from: real, to: real) {
    && (forall i :: 0 <= i < |tries| ==> from <= tries[i].now <= to && tries[i].n >= 0.0)
    && (forall i, j :: 0 <= i < j < |tries| ==> tries[i].now <= tries[j].now)
  }

  ghost predicate Valid(l: Limits, b: Level) {
    Usable(l) && 0.0 <= b.tokens <= l.capacity
  }

  /******* Lazy refilling *******/

  lemma Distribute(a: real, b: real, rate: real)
    ensures a * rate + b * rate == (a + b) * rate
  {
  }

  /** Refilling once equals refilling at an instant in between as well. */
  lemma RefillTwice(l: Limits, b: Level, mid: real, now: real)
    requires Valid(l, b) && mid <= now
    ensures Refill(l, Refill(l, b, mid), now) == Refill(l, b, now)
  {
    if b.updated < mid < now {
      Distribute(mid - b.updated, now - mid, l.rate);
      assert (mid - b.updated) + (now - mid) == now - b.updated;
      assert (now - mid) * l.rate >= 0.0;
    }
  }

  /** Refilling at every instant of a list, in order. */
  function RefillAt(l: Limits, b: Level, instants: seq<real>): Level
    decreases instants
  {
    if instants == [] then b else RefillAt(l, Refill(l, b, instants[0]), instants[1..])
  }

  /** However finely the interval is cut, the balance at the end is the lazy one. */
  lemma {:induction false} LazyEqualsFine(l: Limits, b: Level, instants: seq<real>, now: real)
    requires Valid(l, b)
    requires forall i :: 0 <= i < |instants| ==> instants[i] <= now
    ensures Refill(l, RefillAt(l, b, instants), now) == Refill(l, b, now)
    decreases instants
  {
    if instants != [] {
      RefillStaysValid(l, b, instants[0]);
      LazyEqualsFine(l, Refill(l, b, instants[0]), instants[1..], now);
      RefillTwice(l, b, instants[0], now);
    }
  }

  lemma RefillStaysValid(l: Limits, b: Level, now: real)
    requires Valid(l, b)
    ensures Valid(l, Refill(l, b, now)) && Refill(l, b, now).tokens >= b.tokens
  {
    if now > b.updated {
      assert (now - b.updated) * l.rate >= 0.0;
    }
  }

  /******* The rate bound *******/

  lemma {:induction false} AfterStaysValid(l: Limits, b: Level, tries: seq<Try>)
    requires Valid(l, b)
    requires forall i :: 0 <= i < |tries| ==> tries[i].n >= 0.0
    ensures Valid(l, After(l, b, tries))
    decreases tries
  {
    if tries != [] {
      RefillStaysValid(l, b, tries[0].now);
      AfterStaysValid(l, Attempt(l, b, tries[0].now, tries[0].n), tries[1..]);
    }
  }

  /** What is granted from `from` on is paid for by the balance there and by the refill. */
  lemma {:induction false} GrantedIsPaidFor(l: Limits, b: Level, tries: seq<Try>, from: real, to: real)
    requires Valid(l, b) && b.updated <= from <= to && Within(tries, from, to)
    ensures Granted(l, b, tries) <= Refill(l, b, from).tokens + l.rate * (to - from)
    decreases tries
  {
    if tries == [] {
      RefillStaysValid(l, b, from);
      assert l.rate * (to - from) >= 0.0;
    } else {
      var now, n := tries[0].now, tries[0].n;
      var r, b1 := Refill(l, b, now), Attempt(l, b, now, n);
      RefillStaysValid(l, b, now);
      RefillStaysValid(l, b, from);
      RefillTwice(l, b, from, now);
      assert b1.updated == r.updated <= now;
      assert Within(tries[1..], now, to);
      GrantedIsPaidFor(l, b1, tries[1..], now, to);
      assert Refill(l, b1, now) == b1;
      GainIsBounded(l, Refill(l, b, from), from, now);
      assert l.rate * (now - from) + l.rate * (to - now) == l.rate * (to - from) by {
        Distribute(now - from, to - now, l.rate);
      }
    }
  }

  lemma GainIsBounded(l: Limits, b: Level, from: real, now: real)
    requires Valid(l, b) && b.updated <= from <= now
    requires b == Refill(l, b, from)
    ensures Refill(l, b, now).tokens <= b.tokens + l.rate * (now - from)
  {
    assert b.updated == from;
    var gain := (now - from) * l.rate;
    assert gain == l.rate * (now - from);
    if now > from {
      assert Refill(l, b, now).tokens == Min(l.capacity, b.tokens + gain);
    } else {
      assert gain == 0.0;
    }
  }

  /** Main result: in any stretch of any run, the tokens granted never exceed the capacity
      plus the rate times the length of the stretch, and the balance stays in bounds. */
  lemma RateIsBounded(l: Limits, start: real, before: seq<Try>, tries: seq<Try>, from: real, to: real)
    requires Usable(l) && start <= from <= to && Within(before, start, from) && Within(tries, from, to)
    ensures var b := After(l, Level(l.capacity, start), before);
      && Granted(l, b, tries) <= l.capacity + l.rate * (to - from)
      && Valid(l, After(l, b, tries))
  {
    var full := Level(l.capacity, start);
    AfterStaysValid(l, full, before);
    var b := After(l, full, before);
    UpdatedStays(l, full, before, from);
    GrantedIsPaidFor(l, b, tries, from, to);
    RefillStaysValid(l, b, from);
    AfterStaysValid(l, b, tries);
  }

  /** What drips in from `from` to `to`. */
  function Drip(l: Limits, from: real, to: real): real {
    (to - from) * l.rate
  }

  lemma DripAdds(l: Limits, from: real, mid: real, to: real)
    requires l.rate > 0.0 && from <= mid <= to
    ensures Drip(l, from, mid) + Drip(l, mid, to) == Drip(l, from, to)
    ensures Drip(l, from, mid) >= 0.0 && Drip(l, mid, to) >= 0.0
  {
    Distribute(mid - from, to - mid, l.rate);
  }

  lemma RefillDrips(l: Limits, b: Level, now: real)
    requires Valid(l, b) && b.updated <= now
    ensures Refill(l, b, now) == Level(Min(l.capacity, b.tokens + Drip(l, b.updated, now)), now)
  {
    if now == b.updated {
      assert Drip(l, b.updated, now) == 0.0;
    }
  }

  lemma Balance(kept: real, rest: real, taken: real, before: real, left: real, first: real, second: real, most: real)
    requires left + taken == Min(most, before + first) && taken >= 0.0 && first >= 0.0 && second >= 0.0
    requires kept + rest <= left + second
    requires left + second <= most ==> kept + rest == left + second
    ensures kept + (taken + rest) <= before + (first + second)
    ensures before + (first + second) <= most ==> kept + (taken + rest) == before + (first + second)
  {
  }

  /** Main result: no token is lost or made.  What is in the bucket after any run, and what
      was granted, is what was there before and what has dripped in, exactly so unless the
      bucket could overflow on the way. */
  lemma {:induction false} TokensAreConserved(l: Limits, b: Level, tries: seq<Try>, last: real)
    requires Valid(l, b) && b.updated <= last
    requires Within(tries, b.updated, last)
    ensures var kept, dripped := Refill(l, After(l, b, tries), last).tokens, Drip(l, b.updated, last);
      && kept + Granted(l, b, tries) <= b.tokens + dripped
      && (b.tokens + dripped <= l.capacity ==> kept + Granted(l, b, tries) == b.tokens + dripped)
    decreases tries
  {
    if tries == [] {
      RefillDrips(l, b, last);
    } else {
      var now, n := tries[0].now, tries[0].n;
      var b1 := Attempt(l, b, now, n);
      RefillStaysValid(l, b, now);
      RefillDrips(l, b, now);
      DripAdds(l, b.updated, now, last);
      assert b1.updated == now && Valid(l, b1) && Within(tries[1..], now, last);
      TokensAreConserved(l, b1, tries[1..], last);
      var taken := if Grants(l, b, now, n) then n else 0.0;
      Balance(Refill(l, After(l, b1, tries[1..]), last).tokens, Granted(l, b1, tries[1..]), taken,
              b.tokens, b1.tokens, Drip(l, b.updated, now), Drip(l, now, last), l.capacity);
    }
  }

  /** An attempt takes exactly what it grants, and a refused one takes nothing. */
  lemma AttemptTakesWhatItGrants(l: Limits, b: Level, now: real, n: real)
    ensures var before, after := Refill(l, b, now), Attempt(l, b, now, n);
      && after.tokens == before.tokens - (if before.tokens >= n then n else 0.0)
      && after.updated == before.updated
      && (Grants(l, b, now, n) <==> before.tokens >= n)
  {
  }

  lemma {:induction false} UpdatedStays(l: Limits, b: Level, tries: seq<Try>, from: real)
    requires b.updated <= from
    requires forall i :: 0 <= i < |tries| ==> tries[i].now <= from
    ensures After(l, b, tries).updated <= from
    decreases tries
  {
    if tries != [] {
      UpdatedStays(l, Attempt(l, b, tries[0].now, tries[0].n), tries[1..], from);
    }
  }

  /******* A lone caller *******/

  lemma DelayRefills(deficit: real, rate: real, extra: real)
    requires rate > 0.0 && extra >= 0.0
    ensures (deficit / rate + extra) * rate >= deficit
  {
    assert deficit / rate * rate == deficit;
    assert extra * rate >= 0.0;
    Distribute(deficit / rate, extra, rate);
  }

  /** Waiting for the missing tokens, or longer, is enough when the bucket can hold them. */
  lemma DelayIsEnough(l: Limits, b: Level, n: real, extra: real)
    requires Valid(l, b) && b.tokens < n <= l.capacity && extra >= 0.0
    ensures Grants(l, b, b.updated + ((n - b.tokens) / l.rate + extra), n)
  {
    DelayRefills(n - b.tokens, l.rate, extra);
    var delay := (n - b.tokens) / l.rate + extra;
    assert (b.updated + delay) - b.updated == delay;
    assert (n - b.tokens) / l.rate > 0.0;
  }

  /** A request can be served at some later instant exactly when it fits in the bucket; a
      larger one makes `acquire` wait for ever. */
  lemma ServedEventuallyIff(l: Limits, b: Level, n: real)
    requires Valid(l, b)
    ensures (exists now :: now >= b.updated && Grants(l, b, now, n)) <==> n <= l.capacity
  {
    if n <= l.capacity {
      if b.tokens < n {
        DelayIsEnough(l, b, n, 0.0);
        assert (n - b.tokens) / l.rate + 0.0 >= 0.0;
        var now := b.updated + ((n - b.tokens) / l.rate + 0.0);
        assert now >= b.updated && Grants(l, b, now, n);
      } else {
        assert Grants(l, b, b.updated, n);
      }
    }
  }

  /** For instance two tokens from a bucket of one. */
  lemma TwoTokensAreNeverServed(now: real)
    requires now >= 0.0
    ensures !Grants(Limits(1.0, 1.0), Level(1.0, 0.0), now, 2.0)
  {
    ServedEventuallyIff(Limits(1.0, 1.0), Level(1.0, 0.0), 2.0);
  }
}
