/** The hourly cap on price changes and the delivery of deferred prices. */
module OfferBudget {
  import opened Wrappers
  import opened OfferSpec
  import opened OfferProofs

  /** How many instants lie in the closed window from `from` to `to`. */
  function CountBetween(stamps: seq<int>, from: int, to: int): nat {
    if stamps == [] then 0
    else CountBetween(stamps[..|stamps| - 1], from, to)
         + if from <= stamps[|stamps| - 1] <= to then 1 else 0
  }

  lemma CountAppend(s: seq<int>, x: int, from: int, to: int)
    ensures CountFrom(s + [x], from) == CountFrom(s, from) + if x >= from then 1 else 0
    ensures CountBetween(s + [x], from, to) == CountBetween(s, from, to) + if from <= x <= to then 1 else 0
  {
    assert (s + [x])[..|s|] == s;
  }

  lemma {:induction false} CountBounds(s: seq<int>, from: int, later: int, to: int)
    requires from <= later
    ensures CountFrom(s, later) <= CountFrom(s, from)
    ensures CountBetween(s, from, to) <= CountFrom(s, from)
  {
    if s != [] {
      CountBounds(s[..|s| - 1], from, later, to);
    }
  }

  lemma {:induction false} PruneKeepsCount(log: seq<int>, cutoff: int, from: int)
    requires cutoff <= from
    ensures CountFrom(Kept(log, cutoff), from) == CountFrom(log, from)
  {
    if log != [] {
      var init, last := log[..|log| - 1], log[|log| - 1];
      PruneKeepsCount(init, cutoff, from);
      if last >= cutoff {
        CountAppend(Kept(init, cutoff), last, from, from);
      } else {
        assert Kept(init, cutoff) + [] == Kept(init, cutoff);
      }
    }
  }

  /** A prune keeps exactly the stamps from the cutoff on, in their order. */
  lemma {:induction false} PruneKeepsTheRest(log: seq<int>, cutoff: int)
    ensures forall x :: x in Kept(log, cutoff) <==> x in log && x >= cutoff
    ensures |Kept(log, cutoff)| == CountFrom(log, cutoff)
    ensures forall more :: Kept(log + [more], cutoff) == Kept(log, cutoff) + if more >= cutoff then [more] else []
  {
    if log != [] {
      PruneKeepsTheRest(log[..|log| - 1], cutoff);
    }
    forall more
      ensures Kept(log + [more], cutoff) == Kept(log, cutoff) + if more >= cutoff then [more] else []
    {
      assert (log + [more])[..|log|] == log;
    }
  }

  /** Times never go back, the stamps in the log are at most `lag` behind the calls, and
      what is pruned is at least an hour old. */
  ghost predicate Timed(es: seq<Event>, now: int, lag: nat)
    decreases es
  {
    es != [] ==>
      && (es[0].Sync? ==> es[0].t >= now && es[0].env.lag <= lag)
      && (es[0].PruneLog? ==> es[0].t >= now && es[0].hours >= 1)
      && Timed(es[1..], Clock(es[0], now), lag)
  }

  function Clock(e: Event, now: int): int {
    if e.Sync? || e.PruneLog? then e.t else now
  }

  /** Every price sent in the running window is still visible in the log. */
  ghost predicate Covered(c: Cell, now: int, lag: nat) {
    && (forall a :: a >= now - HOUR + lag ==> CountFrom(c.sends, a) <= CountFrom(c.log, a - lag))
    && (forall a, b :: b >= now ==> CountBetween(c.sends, a, b) == CountFrom(c.sends, a))
  }

  ghost predicate Capped(c: Cell, lag: nat, limit: nat) {
    forall a, b :: b <= a + HOUR - lag ==> CountBetween(c.sends, a, b) <= limit
  }

  /** What a sync may do to the log: nothing, a stamp for a create, or a stamp for a
      price-carrying update that the budget allowed. */
  ghost predicate Logs(c: Cell, c1: Cell, t: int, stamp: int, limit: nat) {
    || (c1.log == c.log && c1.sends == c.sends)
    || (c1.log == c.log + [stamp] && c1.sends == c.sends)
    || (c1.log == c.log + [stamp] && c1.sends == c.sends + [t] && Used(c.log, t) < limit)
  }

  lemma UpdateLogs(c: Cell, d: Desired, env: Env, t: int, limit: nat, price: bool, stock: bool, active: bool)
    requires c.row.offerId.Some?
    ensures Logs(c, UpdateOffer(c, d, env, t, limit, price, stock, active).cell, t, t - env.lag, limit)
  {
  }

  lemma ResolveLogs(c: Cell, env: Env)
    ensures Resolve(c, env).cell.log == c.log && Resolve(c, env).cell.sends == c.sends
  {
  }

  lemma CreateLogs(c: Cell, d: Desired, env: Env, t: int, limit: nat)
    ensures Logs(c, CreateOffer(c, d, env, t, limit).cell, t, t - env.lag, limit)
  {
    match StoreCreate(c, d, env)
    case Refused(fault) =>
      var c0 := c.(row := c.row.(pendingJob := None));
      ResolveLogs(c0, env);
      var r := Resolve(c0, env);
      if r.Returns? && r.value {
        UpdateLogs(r.cell, d, env, t, limit, true, true, true);
      }
    case Accepted(c1, jobId, resourceId) =>
      ResolveLogs(c1.(row := c1.row.(pendingJob := jobId)), env);
  }

  lemma SyncLogs(c: Cell, d: Desired, env: Env, t: int, limit: nat)
    ensures Logs(c, SyncOne(c, d, env, t, limit).cell, t, t - env.lag, limit)
  {
    var price, stock := c.row.pushedPrice != Some(d.price), c.row.pushedInventory != Some(d.inventory);
    var active := c.row.pushedActive != Some(d.active);
    if c.row.offerId.Some? {
      UpdateLogs(c, d, env, t, limit, price, stock, active);
    } else if c.row.pendingJob.Some? {
      ResolveLogs(c, env);
      var r := Resolve(c, env);
      if r.Returns? && r.value {
        UpdateLogs(r.cell, d, env, t, limit, price, stock, active);
      }
    } else {
      CreateLogs(c, d, env, t, limit);
    }
  }

  /** The log grows exactly when a sync created the offer or had a new price accepted. */
  lemma LogGrowsIff(c: Cell, d: Desired, env: Env, t: int, limit: nat)
    ensures var s := SyncOne(c, d, env, t, limit);
      && (s.action == Created ==> s.cell.log == c.log + [t - env.lag] && s.cell.sends == c.sends)
      && (s.cell.sends != c.sends ==> s.action in {Updated, DeferredPriceBudget})
      && (s.cell.log != c.log <==> s.action == Created || s.cell.sends != c.sends)
  {
    SyncLogs(c, d, env, t, limit);
    if c.row.offerId.None? && c.row.pendingJob.Some? {
      ResolveLogs(c, env);
    } else if c.row.offerId.None? {
      CreateIsLogged(c, d, env, t, limit);
    }
  }

  lemma CreateIsLogged(c: Cell, d: Desired, env: Env, t: int, limit: nat)
    requires c.row.offerId.None?
    ensures var s := CreateOffer(c, d, env, t, limit);
      && (s.Returns? && s.value == Created ==> s.cell.log == c.log + [t - env.lag] && s.cell.sends == c.sends)
      && (s.cell.sends != c.sends ==> s.Returns? && s.value in {Updated, DeferredPriceBudget})
      && (s.cell.log != c.log <==> (s.Returns? && s.value == Created) || s.cell.sends != c.sends)
  {
    match StoreCreate(c, d, env)
    case Refused(fault) =>
      ResolveLogs(c.(row := c.row.(pendingJob := None)), env);
    case Accepted(c1, jobId, resourceId) =>
      ResolveLogs(c1.(row := c1.row.(pendingJob := jobId)), env);
  }

  lemma SyncKeepsCap(c: Cell, d: Desired, env: Env, t: int, limit: nat, now: int, lag: nat)
    requires Covered(c, now, lag) && Capped(c, lag, limit) && t >= now && env.lag <= lag <= HOUR
    ensures var c1 := SyncOne(c, d, env, t, limit).cell; Covered(c1, t, lag) && Capped(c1, lag, limit)
  {
    SyncLogs(c, d, env, t, limit);
    forall c1 | Logs(c, c1, t, t - env.lag, limit)
      ensures Covered(c1, t, lag) && Capped(c1, lag, limit)
    {
      LoggedKeepsCap(c, c1, t, t - env.lag, limit, now, lag);
    }
  }

  lemma LoggedKeepsCap(c: Cell, c1: Cell, t: int, stamp: int, limit: nat, now: int, lag: nat)
    requires Covered(c, now, lag) && Capped(c, lag, limit) && t >= now && t - lag <= stamp <= t && lag <= HOUR
    requires Logs(c, c1, t, stamp, limit)
    ensures Covered(c1, t, lag) && Capped(c1, lag, limit)
  {
    forall a | a >= t - HOUR + lag
      ensures CountFrom(c1.sends, a) <= CountFrom(c1.log, a - lag)
    {
      CountAppend(c.log, stamp, a - lag, t);
      CountAppend(c.sends, t, a, t);
    }
    forall a, b | b <= a + HOUR - lag
      ensures CountBetween(c1.sends, a, b) <= limit
    {
      CountAppend(c.sends, t, a, b);
      if c1.sends != c.sends && a <= t <= b {
        CountBounds(c.sends, a, a, b);
        CountBounds(c.log, t - HOUR, a - lag, t);
      }
    }
    forall a, b | b >= t
      ensures CountBetween(c1.sends, a, b) == CountFrom(c1.sends, a)
    {
      CountAppend(c.sends, t, a, b);
    }
  }

  lemma StepKeepsCap(c: Cell, e: Event, limit: nat, now: int, lag: nat)
    requires Covered(c, now, lag) && Capped(c, lag, limit) && lag <= HOUR
    requires Timed([e], now, lag)
    ensures Covered(After(c, e, limit), Clock(e, now), lag) && Capped(After(c, e, limit), lag, limit)
  {
    match e
    case Sync(d, env, t) => SyncKeepsCap(c, d, env, t, limit, now, lag);
    case PruneLog(t, hours) =>
      forall a | a >= t - HOUR + lag
        ensures CountFrom(c.sends, a) <= CountFrom(Kept(c.log, t - hours * HOUR), a - lag)
      {
        PruneKeepsCount(c.log, t - hours * HOUR, a - lag);
      }
    case _ =>
  }

  lemma {:induction false} RunKeepsCap(c: Cell, es: seq<Event>, limit: nat, now: int, lag: nat)
    requires Covered(c, now, lag) && Capped(c, lag, limit) && lag <= HOUR && Timed(es, now, lag)
    ensures Capped(Run(c, es, limit), lag, limit)
    decreases es
  {
    if es != [] {
      assert Timed([es[0]], now, lag);
      StepKeepsCap(c, es[0], limit, now, lag);
      RunKeepsCap(After(c, es[0], limit), es[1..], limit, Clock(es[0], now), lag);
    }
  }

  /** Main result: in every closed window of one hour less the lag of the log's stamps, at
      most `limit` price-carrying updates of the product are accepted. */
  lemma PriceChangesAreCapped(remote: Option<Remote>, es: seq<Event>, limit: nat, now: int, lag: nat, from: int)
    requires lag <= HOUR && Timed(es, now, lag)
    ensures CountBetween(Run(Fresh(remote), es, limit).sends, from, from + HOUR - lag) <= limit
  {
    RunKeepsCap(Fresh(remote), es, limit, now, lag);
  }

  /******* Deferred prices *******/

  function SentPrice(call: Call): Option<int> {
    match call
    case Create(d) => Some(d.price)
    case Update(change) => change.price
    case _ => None
  }

  predicate Carries(calls: seq<Call>, price: int) {
    exists i :: 0 <= i < |calls| && SentPrice(calls[i]) == Some(price)
  }

  /** The remembered price is the old one, none, or one that a call of this sync carried. */
  ghost predicate PriceAccounted(row: Row, before: Row, calls: seq<Call>) {
    row.pushedPrice.Some? ==> row.pushedPrice == before.pushedPrice || Carries(calls, row.pushedPrice.value)
  }

  lemma UpdatePriceAccounted(c: Cell, d: Desired, env: Env, t: int, limit: nat, price: bool, stock: bool, active: bool)
    requires c.row.offerId.Some?
    ensures var s := UpdateOffer(c, d, env, t, limit, price, stock, active); PriceAccounted(s.cell.row, c.row, s.calls)
  {
    var s := UpdateOffer(c, d, env, t, limit, price, stock, active);
    assert s.calls != [] ==> SentPrice(s.calls[0]) == s.calls[0].change.price;
  }

  lemma ResolvePriceAccounted(c: Cell, env: Env)
    ensures Resolve(c, env).cell.row.pushedPrice in {c.row.pushedPrice, None}
  {
  }

  lemma CarriesMore(before: seq<Call>, calls: seq<Call>, price: int)
    requires Carries(calls, price)
    ensures Carries(before + calls, price)
  {
    var i :| 0 <= i < |calls| && SentPrice(calls[i]) == Some(price);
    assert (before + calls)[|before| + i] == calls[i];
  }

  lemma PushPriceAccounted(c: Cell, d: Desired, env: Env, t: int, limit: nat)
    ensures var s := Push(c, d, env, t, limit); PriceAccounted(s.cell.row, c.row, s.calls)
  {
    var price, stock := c.row.pushedPrice != Some(d.price), c.row.pushedInventory != Some(d.inventory);
    var active := c.row.pushedActive != Some(d.active);
    var s := Push(c, d, env, t, limit);
    if c.row.offerId.Some? {
      UpdatePriceAccounted(c, d, env, t, limit, price, stock, active);
    } else if c.row.pendingJob.Some? {
      ResolvePriceAccounted(c, env);
      var r := Resolve(c, env);
      if r.Returns? && r.value {
        UpdatePriceAccounted(r.cell, d, env, t, limit, price, stock, active);
        var u := UpdateOffer(r.cell, d, env, t, limit, price, stock, active);
        if Carries(u.calls, d.price) {
          CarriesMore(r.calls, u.calls, d.price);
        }
      }
    } else {
      assert s.calls[0] == Create(d) && SentPrice(s.calls[0]) == Some(d.price);
      CreateRemembers(c, d, env, t, limit);
    }
  }

  lemma CreateRemembers(c: Cell, d: Desired, env: Env, t: int, limit: nat)
    ensures CreateOffer(c, d, env, t, limit).cell.row.pushedPrice in {c.row.pushedPrice, None, Some(d.price)}
  {
  }

  /** A price no call carried is never recorded as pushed. */
  lemma UnsentPriceIsNotRemembered(c: Cell, d: Desired, env: Env, t: int, limit: nat)
    ensures var s := SyncOne(c, d, env, t, limit); PriceAccounted(s.cell.row, c.row, s.calls)
  {
    PushPriceAccounted(c, d, env, t, limit);
  }

  ghost predicate LoggedBy(log: seq<int>, last: int) {
    forall i :: 0 <= i < |log| ==> log[i] <= last
  }

  lemma {:induction false} OldLogIsUnused(log: seq<int>, last: int, from: int)
    requires LoggedBy(log, last) && last < from
    ensures CountFrom(log, from) == 0
  {
    if log != [] {
      OldLogIsUnused(log[..|log| - 1], last, from);
    }
  }

  lemma {:induction false} PruneKeepsLoggedBy(log: seq<int>, cutoff: int, last: int)
    requires LoggedBy(log, last)
    ensures LoggedBy(Kept(log, cutoff), last)
  {
    if log != [] {
      PruneKeepsLoggedBy(log[..|log| - 1], cutoff, last);
    }
  }

  /** Nothing in the run changes the desired price or fails. */
  predicate Steady(e: Event, price: int) {
    match e
    case Sync(d, env, t) => d.price == price && env.update.UpdateAccepts?
    case JobEnds(j, o) => o.Succeeds?
    case _ => true
  }

  /** The offer is on the store and either has the price or has logged no change since. */
  ghost predicate Waiting(c: Cell, price: int, last: int) {
    && Inv(c) && c.row.offerId.Some? && c.remote.Some? && !PendingRejected(c)
    && (c.row.pushedPrice == Some(price) || LoggedBy(c.log, last))
  }

  lemma SyncDelivers(c: Cell, d: Desired, env: Env, t: int, limit: nat, last: int)
    requires Waiting(c, d.price, last) && Settled(c) && env.update.UpdateAccepts? && limit >= 1
    ensures var s := SyncOne(c, d, env, t, limit);
      && Waiting(s.cell, d.price, last)
      && (t > last + HOUR ==> s.cell.row.pushedPrice == Some(d.price))
      && (t > last + HOUR && c.row.pushedPrice != Some(d.price) ==>
            |s.calls| == 1 && s.calls[0].Update? && s.calls[0].change.price == Some(d.price))
  {
    SyncKeeps(c, d, env, t, limit);
    if t > last + HOUR && LoggedBy(c.log, last) {
      OldLogIsUnused(c.log, last, t - HOUR);
    }
  }

  lemma {:induction false} RunWaits(c: Cell, es: seq<Event>, limit: nat, price: int, last: int)
    requires Waiting(c, price, last) && Orderly(c, es, limit) && limit >= 1
    requires forall i :: 0 <= i < |es| ==> Steady(es[i], price)
    ensures Waiting(Run(c, es, limit), price, last)
    decreases es
  {
    if es != [] {
      StepKeeps(c, es[0], limit);
      assert Steady(es[0], price);
      match es[0] {
        case Sync(d, env, t) =>
          if Settled(c) {
            SyncDelivers(c, d, env, t, limit, last);
          } else {
            assert After(c, es[0], limit) == c;
          }
        case PruneLog(t, hours) => if LoggedBy(c.log, last) { PruneKeepsLoggedBy(c.log, t - hours * HOUR, last); }
        case _ =>
      }
      RunWaits(After(c, es[0], limit), es[1..], limit, price, last);
    }
  }

  /** Main result: while the desired price stays what it is and nothing fails, the first sync
      more than an hour after the last logged change leaves exactly that price remembered
      and, once the job is done, on the store. */
  lemma DeferredPriceIsDelivered(c: Cell, es: seq<Event>, limit: nat, d: Desired, env: Env, t: int, last: int)
    requires Waiting(c, d.price, last) && limit >= 1
    requires forall i :: 0 <= i < |es| ==> Steady(es[i], d.price)
    requires Orderly(c, es, limit) && Settled(Run(c, es, limit))
    requires env.update.UpdateAccepts? && t > last + HOUR
    ensures var c1 := SyncOne(Run(c, es, limit), d, env, t, limit).cell;
      c1.row.pushedPrice == Some(d.price) && Expected(c1).Some? && Expected(c1).value.price == d.price
  {
    RunWaits(c, es, limit, d.price, last);
    SyncDelivers(Run(c, es, limit), d, env, t, limit, last);
  }
}
