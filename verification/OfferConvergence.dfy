/** That the store ends up with what we want, and the offers for which it never does. */
module OfferConvergence {
  import opened Wrappers
  import opened OfferSpec
  import opened OfferProofs
  import opened OfferQuiescence

  /******* A quiet sync converges *******/

  ghost predicate Holds(remote: Option<Remote>, d: Desired) {
    remote.Some? && remote.value == Remote(remote.value.id, d.price, d.inventory, d.active)
  }

  /** Everything is remembered as sent, and nothing sent is known to have failed. */
  ghost predicate Converging(c: Cell, d: Desired) {
    Inv(c) && Matches(c.row, d) && !PendingRejected(c)
  }

  /** No sync, and no job that fails. */
  predicate Undisturbed(e: Event) {
    !e.Sync? && (e.JobEnds? ==> e.outcome.Succeeds?)
  }

  lemma ConvergingHolds(c: Cell, d: Desired)
    requires Converging(c, d)
    ensures Holds(Expected(c), d) && (!PendingIs(c, Queued) ==> Holds(c.remote, d))
  {
  }

  lemma StepConverges(c: Cell, e: Event, limit: nat, d: Desired)
    requires Converging(c, d) && Undisturbed(e)
    ensures Converging(After(c, e, limit), d)
  {
    StepKeeps(c, e, limit);
    ConvergingHolds(c, d);
  }

  lemma {:induction false} RunConverges(c: Cell, es: seq<Event>, limit: nat, d: Desired)
    requires Converging(c, d) && forall i :: 0 <= i < |es| ==> Undisturbed(es[i])
    ensures Converging(Run(c, es, limit), d)
    decreases es
  {
    if es != [] {
      assert Undisturbed(es[0]);
      StepConverges(c, es[0], limit, d);
      RunConverges(After(c, es[0], limit), es[1..], limit, d);
    }
  }

  /** Main result: after an orderly run whose last sync was quiet and whose job does not
      fail, the store holds, or will once the job lands, exactly the desired price, stock and
      active flag; and as long as the desired values stay, another sync makes no call. */
  lemma StoreConverges(remote: Option<Remote>, es: seq<Event>, limit: nat, d: Desired, env: Env, t: int,
                       rest: seq<Event>, again: Env, later: int)
    requires var c := Run(Fresh(remote), es, limit);
      && Orderly(Fresh(remote), es, limit) && InOrder(c, Sync(d, env, t), limit)
      && Quiet(SyncOne(c, d, env, t, limit).action) && !PendingRejected(SyncOne(c, d, env, t, limit).cell)
    requires forall i :: 0 <= i < |rest| ==> Undisturbed(rest[i])
    ensures var c1 := Run(SyncOne(Run(Fresh(remote), es, limit), d, env, t, limit).cell, rest, limit);
      && Holds(Expected(c1), d) && (!PendingIs(c1, Queued) ==> Holds(c1.remote, d))
      && SyncOne(c1, d, again, later, limit) == Synced(c1, SkippedUnchanged, [])
  {
    var c := Run(Fresh(remote), es, limit);
    RunKeeps(Fresh(remote), es, limit);
    StepKeeps(c, Sync(d, env, t), limit);
    QuietIff(c, d, env, t, limit);
    var c1 := SyncOne(c, d, env, t, limit).cell;
    RunConverges(c1, rest, limit, d);
    ConvergingHolds(Run(c1, rest, limit), d);
  }

  /******* An offer that never gets there *******/

  /** We know the id of an offer that the store does not have and will not make. */
  ghost predicate Stuck(c: Cell) {
    && c.row.offerId.Some? && c.remote.None?
    && (forall j :: 0 <= j < |c.jobs| ==> !c.jobs[j].status.Queued?)
    && c.row.pendingJob.None? && c.row.pushedPrice.None? && c.row.pushedInventory.None? && c.row.pushedActive.None?
  }

  lemma StuckSync(c: Cell, d: Desired, env: Env, t: int, limit: nat)
    requires Stuck(c)
    ensures var s := SyncOne(c, d, env, t, limit);
      Stuck(s.cell) && s.action in {Errors, DeferredRateLimited} && |s.calls| == 1 && s.calls[0].Update?
  {
  }

  lemma {:induction false} RunStaysStuck(c: Cell, es: seq<Event>, limit: nat)
    requires Stuck(c)
    ensures Stuck(Run(c, es, limit))
    decreases es
  {
    if es != [] {
      if es[0].Sync? {
        StuckSync(c, es[0].desired, es[0].env, es[0].t, limit);
      }
      RunStaysStuck(After(c, es[0], limit), es[1..], limit);
    }
  }

  /** Main result: a create that failed without effect is asked for again by the next sync
      exactly when its offer id was not known.  When the store named the offer before the
      job failed, every later sync of every run is an update that the store refuses. */
  lemma FailedCreateIsRetriedIff(c: Cell, es: seq<Event>, d: Desired, env: Env, t: int, limit: nat)
    requires Inv(c) && PendingRejected(c) && c.remote.None?
    ensures var c1 := Reconcile(c, false);
      Creates(SyncOne(c1, d, env, t, limit).calls) <==> c.row.offerId.None?
    ensures var s := SyncOne(Run(Reconcile(c, false), es, limit), d, env, t, limit);
      c.row.offerId.Some? ==> s.action in {Errors, DeferredRateLimited} && s.cell.remote.None?
  {
    var c1 := Reconcile(c, false);
    if c.row.offerId.Some? {
      assert Stuck(c1);
      StuckSync(c1, d, env, t, limit);
      RunStaysStuck(c1, es, limit);
      StuckSync(Run(c1, es, limit), d, env, t, limit);
    } else {
      assert Push(c1, d, env, t, limit) == CreateOffer(c1, d, env, t, limit);
      assert SyncOne(c1, d, env, t, limit).calls[0] == Create(d);
    }
  }

  /** Such a row is reached: the create is answered with both ids, and its job fails. */
  lemma NamedCreateFails()
    ensures var env := Env(false, ListingShows, CreateAccepts(true, true, None), 7, UpdateAccepts(true), 0);
      var es := [Sync(Desired(1000, 5, true), env, 0), JobEnds(0, Fails(false))];
      var c := Run(Fresh(None), es, 4);
      Inv(c) && PendingRejected(c) && c.remote.None? && c.row.offerId == Some(7)
  {
    var env := Env(false, ListingShows, CreateAccepts(true, true, None), 7, UpdateAccepts(true), 0);
    var e := Sync(Desired(1000, 5, true), env, 0);
    var made := CreateWork(Remote(7, 1000, 5, true));
    var row := Row(Some(7), Some(1000), Some(5), Some(true), Some(0), Live, 0);
    var c := Cell(row, None, [Job(made, Queued)], [0], []);
    assert After(Fresh(None), e, 4) == c;
    assert After(c, JobEnds(0, Fails(false)), 4) == Cell(row, None, [Job(made, Rejected)], [0], []);
    RunTwo(Fresh(None), e, JobEnds(0, Fails(false)), 4);
  }
}
