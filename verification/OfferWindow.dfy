/** How long a window the price-change cap holds for. */
module OfferWindow {
  import opened Wrappers
  import opened OfferSpec
  import opened OfferProofs
  import opened OfferBudget

  /** How many price changes of a run the store accepts from `from` to `from + width`. */
  function SendsWithin(remote: Option<Remote>, es: seq<Event>, limit: nat, from: int, width: nat): nat {
    CountBetween(Run(Fresh(remote), es, limit).sends, from, from + width)
  }

  /** The passes of one worker: each is a transaction that visits the product once, so its
      stamp, the start of the transaction, is not before the send of the pass before it. */
  ghost predicate Serial(es: seq<Event>, now: int)
    decreases es
  {
    es != [] ==> (es[0].Sync? ==> es[0].t - es[0].env.lag >= now) && Serial(es[1..], Clock(es[0], now))
  }

  /** The cap holds in every closed window of `width` seconds, of every run. */
  ghost predicate CapHolds(limit: nat, lag: nat, width: nat) {
    forall remote, es, from :: Timed(es, 0, lag) ==> SendsWithin(remote, es, limit, from, width) <= limit
  }

  /** The same for the runs of one worker. */
  ghost predicate SerialCapHolds(limit: nat, lag: nat, width: nat) {
    forall remote, es, from ::
      Timed(es, 0, lag) && Serial(es, 0) ==> SendsWithin(remote, es, limit, from, width) <= limit
  }

  function Repeat(x: int, n: nat): seq<int> {
    if n == 0 then [] else Repeat(x, n - 1) + [x]
  }

  lemma {:induction false} CountRepeat(x: int, n: nat, from: int, to: int)
    ensures CountBetween(Repeat(x, n), from, to) == if from <= x <= to then n else 0
  {
    if n > 0 {
      CountRepeat(x, n - 1, from, to);
      CountAppend(Repeat(x, n - 1), x, from, to);
    }
  }

  /** The stamps of `k` price changes sent at instant `lag`, of which the first lags. */
  function Stamps(k: nat, lag: nat): seq<int> {
    if k == 0 then [] else Stamps(k - 1, lag) + [if k == 1 then 0 else lag]
  }

  lemma {:induction false} CountStamps(k: nat, lag: nat, from: int)
    ensures CountFrom(Stamps(k, lag), from) <= k
    ensures k > 0 && from > 0 ==> CountFrom(Stamps(k, lag), from) < k
  {
    if k > 0 {
      CountStamps(k - 1, lag, from);
      CountAppend(Stamps(k - 1, lag), if k == 1 then 0 else lag, from, from);
    }
  }

  /** An adopted offer after `k` price changes at instant `lag`. */
  function Changed(k: nat, lag: nat): Cell {
    Cell(Row(Some(7), Some(1000 + k), Some(5), Some(true), None, Live, 0), Some(Remote(7, 1000 + k, 5, true)), [],
         Stamps(k, lag), Repeat(lag, k))
  }

  /** The next price change, at `t`; only the first one lags. */
  function NextChange(k: nat, lag: nat, t: int): Event {
    var env := Env(false, ListingShows, CreateRaises(OtherFault), 8, UpdateAccepts(false), if k == 0 then lag else 0);
    Sync(Desired(1000 + k + 1, 5, true), env, t)
  }

  /** The first instant at which the stamp of the first change has left the window. */
  const REOPENED: int := HOUR + 1

  lemma BudgetIsLeft(k: nat, lag: nat, t: int, limit: nat)
    requires lag <= HOUR && 1 <= limit
    requires (t == lag && k < limit) || (t == REOPENED && k == limit)
    ensures Used(Stamps(k, lag), t) < limit
  {
    CountStamps(k, lag, t - HOUR);
  }

  lemma ChangeIsSent(k: nat, lag: nat, t: int, limit: nat)
    requires Used(Stamps(k, lag), t) < limit
    ensures var c := After(Changed(k, lag), NextChange(k, lag, t), limit);
      && c.sends == Repeat(lag, k) + [t]
      && (t == lag ==> c == Changed(k + 1, lag))
  {
  }

  /** Changes at instant `lag` until the budget is spent, and one more when it has reopened. */
  function Burst(k: nat, limit: nat, lag: nat): seq<Event>
    decreases limit - k
  {
    if k < limit then [NextChange(k, lag, lag)] + Burst(k + 1, limit, lag) else [NextChange(k, lag, REOPENED)]
  }

  lemma BurstGoesOn(k: nat, limit: nat, lag: nat)
    requires k < limit && lag <= HOUR
    ensures Run(Changed(k, lag), Burst(k, limit, lag), limit)
         == Run(Changed(k + 1, lag), Burst(k + 1, limit, lag), limit)
  {
    BudgetIsLeft(k, lag, lag, limit);
    ChangeIsSent(k, lag, lag, limit);
    RunFirst(Changed(k, lag), NextChange(k, lag, lag), Burst(k + 1, limit, lag), limit);
  }

  lemma BurstEnds(limit: nat, lag: nat)
    requires 1 <= limit && lag <= HOUR
    ensures Run(Changed(limit, lag), Burst(limit, limit, lag), limit).sends == Repeat(lag, limit) + [REOPENED]
  {
    BudgetIsLeft(limit, lag, REOPENED, limit);
    ChangeIsSent(limit, lag, REOPENED, limit);
    var e := NextChange(limit, lag, REOPENED);
    assert [e] + [] == [e];
    RunFirst(Changed(limit, lag), e, [], limit);
  }

  lemma {:induction false} BurstIsSent(k: nat, limit: nat, lag: nat)
    requires k <= limit && 1 <= limit && lag <= HOUR
    ensures Run(Changed(k, lag), Burst(k, limit, lag), limit).sends == Repeat(lag, limit) + [REOPENED]
    decreases limit - k
  {
    if k < limit {
      BurstGoesOn(k, limit, lag);
      BurstIsSent(k + 1, limit, lag);
    } else {
      BurstEnds(limit, lag);
    }
  }

  lemma RunFirst(c: Cell, e: Event, es: seq<Event>, limit: nat)
    ensures Run(c, [e] + es, limit) == Run(After(c, e, limit), es, limit)
  {
    assert ([e] + es)[1..] == es;
  }

  lemma {:induction false} BurstIsSerial(k: nat, limit: nat, lag: nat)
    requires k <= limit && 1 <= limit && lag <= HOUR
    ensures var now := if k == 0 then 0 else lag;
      Timed(Burst(k, limit, lag), now, lag) && Serial(Burst(k, limit, lag), now)
    decreases limit - k
  {
    var es := Burst(k, limit, lag);
    if k < limit {
      BurstIsSerial(k + 1, limit, lag);
      assert es[1..] == Burst(k + 1, limit, lag);
    } else {
      assert es[1..] == [];
    }
  }

  /** One worker sends one change more than the limit in any window that is longer. */
  lemma CapIsBroken(limit: nat, lag: nat, width: nat)
    requires 1 <= limit && lag <= HOUR && width > HOUR - lag
    ensures !SerialCapHolds(limit, lag, width) && !CapHolds(limit, lag, width)
  {
    var remote := Some(Remote(7, 1000, 5, true));
    var es := [AdoptOffers(true)] + Burst(0, limit, lag);
    RunFirst(Fresh(remote), AdoptOffers(true), Burst(0, limit, lag), limit);
    assert es[1..] == Burst(0, limit, lag);
    BurstIsSent(0, limit, lag);
    BurstIsSerial(0, limit, lag);
    assert After(Fresh(remote), es[0], limit) == Changed(0, lag);
    assert Run(Fresh(remote), es, limit).sends == Repeat(lag, limit) + [REOPENED];
    CountRepeat(lag, limit, lag, lag + width);
    CountAppend(Repeat(lag, limit), REOPENED, lag, lag + width);
    assert Timed(es, 0, lag) && Serial(es, 0) && SendsWithin(remote, es, limit, lag, width) == limit + 1;
  }

  /** Main result: at most `limit` price changes of a product are accepted in every window of
      `width` seconds exactly when the width is at most one hour less the lag, whether passes
      may overlap or not.  So the cap holds for the full hour exactly when no stamp lags. */
  lemma CapHoldsIff(limit: nat, lag: nat, width: nat)
    requires 1 <= limit && lag <= HOUR
    ensures CapHolds(limit, lag, width) <==> width <= HOUR - lag
    ensures SerialCapHolds(limit, lag, width) <==> width <= HOUR - lag
  {
    if width <= HOUR - lag {
      forall remote, es, from | Timed(es, 0, lag)
        ensures SendsWithin(remote, es, limit, from, width) <= limit
      {
        RunKeepsCap(Fresh(remote), es, limit, 0, lag);
      }
    } else {
      CapIsBroken(limit, lag, width);
    }
  }
}
