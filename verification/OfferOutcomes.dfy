/** What a caller of one sync, reconcile or adoption sees: which calls are made, what is
    reported, and what the row says afterwards. */
module OfferOutcomes {
  import opened Wrappers
  import opened OfferSpec
  import opened OfferProofs

  /******* Calls *******/

  /** Only differences are pushed.  A row with a known offer makes at most one call, an update
      that carries the desired stock and flag exactly when they differ from what is
      remembered, and the desired price exactly when it differs and fewer than `limit` changes
      were logged in the hour before; with nothing to carry it makes none. */
  lemma OnlyDifferencesAreSent(c: Cell, d: Desired, env: Env, t: int, limit: nat)
    requires c.row.offerId.Some?
    ensures var calls := SyncOne(c, d, env, t, limit).calls;
      var price := c.row.pushedPrice != Some(d.price) && CountFrom(c.log, t - 3600) < limit;
      var stock, active := c.row.pushedInventory != Some(d.inventory), c.row.pushedActive != Some(d.active);
      && (calls == [] <==> !price && !stock && !active)
      && (calls != [] ==>
            && |calls| == 1 && calls[0].Update?
            && calls[0].change.price == (if price then Some(d.price) else None)
            && calls[0].change.inventory == (if stock then Some(d.inventory) else None)
            && calls[0].change.active == (if active then Some(d.active) else None))
  {
  }

  /** A row without an offer or a job asks for a create with everything that is desired. */
  lemma UnknownOfferIsCreated(c: Cell, d: Desired, env: Env, t: int, limit: nat)
    requires c.row.offerId.None? && c.row.pendingJob.None?
    requires !(c.row.pushedPrice.Some? && c.row.pushedInventory.Some? && c.row.pushedActive.Some?)
    ensures var calls := SyncOne(c, d, env, t, limit).calls; calls != [] && calls[0] == Create(d)
  {
  }

  /** When the update of a known offer is accepted, every value the update carries is
      remembered, and so are the desired stock and flag. */
  lemma AcceptedUpdateIsRecorded(c: Cell, d: Desired, env: Env, t: int, limit: nat)
    requires c.row.offerId.Some? && c.remote.Some? && c.row.offerId.value == c.remote.value.id
    requires env.update.UpdateAccepts? && SyncOne(c, d, env, t, limit).calls != []
    ensures var s := SyncOne(c, d, env, t, limit);
      && s.cell.row.pushedInventory == Some(d.inventory) && s.cell.row.pushedActive == Some(d.active)
      && (s.calls[0].change.price.Some? ==> s.cell.row.pushedPrice == Some(d.price))
      && (s.calls[0].change.price.None? ==> s.cell.row.pushedPrice == c.row.pushedPrice)
      && s.cell.row.offerId == c.row.offerId
      && s.cell.row.pendingJob == (if env.update.withJob then Some(|c.jobs|) else None)
      && (s.action == DeferredPriceBudget <==> c.row.pushedPrice != Some(d.price) && s.calls[0].change.price.None?)
      && (s.action == Updated <==> s.action != DeferredPriceBudget)
  {
  }

  /******* Reports *******/

  /** What the failure counter and the state say after a sync, action by action. */
  ghost predicate Reported(before: Row, d: Desired, action: Action, row: Row) {
    match action
    case SkippedUnchanged => row == before
    case AwaitingJob => row.failures == before.failures && row.state in {before.state, Failed}
    case Created => row.failures == 0 && row.state == if d.active then Live else OutOfStock
    case Updated => row.failures == 0 && row.state == if d.active then Live else OutOfStock
    case DeferredPriceBudget =>
      || (row.failures == 0 && row.state == if d.active then Live else OutOfStock)
      || (row.failures == before.failures && row.state == before.state && Remembers(row, before))
    case DeferredRateLimited => row.failures == before.failures && row.state == before.state && Remembers(row, before)
    case Errors =>
      || (row.failures == before.failures + 1 && Remembers(row, before)
          && row.state == if before.failures >= 4 then Failed else before.state)
      || (row.failures == before.failures && row.state == Failed)
  }

  lemma ResolveReports(c: Cell, env: Env)
    ensures var r := Resolve(c, env);
      && r.cell.row.failures == c.row.failures
      && ((r.cell.row.state == c.row.state && Remembers(r.cell.row, c.row))
          || (r.cell.row.state == Failed && r.Returns? && !r.value))
  {
  }

  lemma UpdateReports(c: Cell, d: Desired, env: Env, t: int, limit: nat, price: bool, stock: bool, active: bool)
    requires c.row.offerId.Some?
    ensures var s := UpdateOffer(c, d, env, t, limit, price, stock, active);
      if s.Throws? then s.cell == c
      else s.value in {Updated, DeferredPriceBudget} && Reported(c.row, d, s.value, s.cell.row)
  {
  }

  lemma CreateReports(c: Cell, d: Desired, env: Env, t: int, limit: nat)
    requires c.row.offerId.None? && c.row.pendingJob.None?
    ensures var s := CreateOffer(c, d, env, t, limit);
      if s.Throws? then Reported(c.row, d, DeferredRateLimited, s.cell.row)
      else s.value in {Created, Updated, DeferredPriceBudget, Errors} && Reported(c.row, d, s.value, s.cell.row)
  {
    match StoreCreate(c, d, env)
    case Refused(fault) =>
      var c0 := c.(row := c.row.(pendingJob := None));
      ResolveReports(c0, env);
      var r := Resolve(c0, env);
      if r.Returns? && r.value {
        UpdateReports(r.cell, d, env, t, limit, true, true, true);
      }
    case Accepted(c1, jobId, resourceId) =>
      ResolveReports(c1.(row := c1.row.(pendingJob := jobId)), env);
  }

  lemma PushReports(c: Cell, d: Desired, env: Env, t: int, limit: nat)
    ensures var s := Push(c, d, env, t, limit);
      if s.Throws? then Reported(c.row, d, DeferredRateLimited, s.cell.row)
      else s.value !in {SkippedUnchanged, DeferredRateLimited} && Reported(c.row, d, s.value, s.cell.row)
  {
    var price, stock := c.row.pushedPrice != Some(d.price), c.row.pushedInventory != Some(d.inventory);
    var active := c.row.pushedActive != Some(d.active);
    if c.row.offerId.Some? {
      UpdateReports(c, d, env, t, limit, price, stock, active);
    } else if c.row.pendingJob.Some? {
      ResolveReports(c, env);
      var r := Resolve(c, env);
      if r.Returns? && r.value {
        UpdateReports(r.cell, d, env, t, limit, price, stock, active);
      }
    } else {
      CreateReports(c, d, env, t, limit);
    }
  }

  lemma FailureIsReported(before: Row, d: Desired, row: Row)
    requires Reported(before, d, DeferredRateLimited, row)
    ensures Reported(before, d, Errors, Failing(row))
  {
  }

  /** Main result, for every sync: success clears the failure counter and sets the state the
      desired flag asks for; a rate limit leaves counter, state and memory as they were; a
      failed call counts one failure and marks the offer failed from the fifth on. */
  lemma SyncReports(c: Cell, d: Desired, env: Env, t: int, limit: nat)
    ensures var s := SyncOne(c, d, env, t, limit); Reported(c.row, d, s.action, s.cell.row)
  {
    var s := Push(c, d, env, t, limit);
    PushReports(c, d, env, t, limit);
    assert SyncOne(c, d, env, t, limit) ==
      if Matches(c.row, d) then Synced(c, SkippedUnchanged, [])
      else if s.Returns? then Synced(s.cell, s.value, s.calls)
      else if s.fault == RateLimited then Synced(s.cell, DeferredRateLimited, s.calls)
      else Synced(s.cell.(row := Failing(s.cell.row)), Errors, s.calls);
    if s.Throws? {
      FailureIsReported(c.row, d, s.cell.row);
    }
  }

  /** A refused update is deferred when it is rate limited and an error otherwise. */
  lemma RefusedUpdateIsReported(c: Cell, d: Desired, env: Env, t: int, limit: nat)
    requires c.row.offerId.Some? && env.update.UpdateRaises? && SyncOne(c, d, env, t, limit).calls != []
    ensures var s := SyncOne(c, d, env, t, limit);
      && s.action == (if env.update.fault == RateLimited then DeferredRateLimited else Errors)
      && s.cell == c.(row := s.cell.row)
      && s.cell.row == c.row.(failures := s.cell.row.failures, state := s.cell.row.state)
      && s.cell.row.failures == c.row.failures + (if env.update.fault == RateLimited then 0 else 1)
  {
  }

  /** So is a refused create; a conflict whose offer the listing does not show is an error. */
  lemma RefusedCreateIsReported(c: Cell, d: Desired, env: Env, t: int, limit: nat)
    requires c.row.offerId.None? && c.row.pendingJob.None? && c.row.pushedPrice.None?
    requires env.create.CreateRaises? && (env.create.fault == Conflict ==> env.listing.ListingHidden?)
    ensures var s := SyncOne(c, d, env, t, limit);
      && s.action == (if env.create.fault == RateLimited then DeferredRateLimited else Errors)
      && s.cell == c.(row := c.row.(failures := s.cell.row.failures, state := s.cell.row.state))
      && s.cell.row.failures == c.row.failures + (if env.create.fault == RateLimited then 0 else 1)
  {
  }

  /** A conflict whose offer the listing shows is taken over and updated with everything. */
  lemma ConflictIsAdopted(c: Cell, d: Desired, env: Env, t: int, limit: nat)
    requires c.row.offerId.None? && c.row.pendingJob.None? && c.row.pushedPrice.None? && c.remote.Some?
    requires env.create.CreateAccepts? && env.listing.ListingShows?
    ensures var s := SyncOne(c, d, env, t, limit);
      && s.calls == [Create(d), OffersFor, Update(Change(
           if CountFrom(c.log, t - 3600) < limit then Some(d.price) else None, Some(d.inventory), Some(d.active)))]
      && s.cell.row.offerId == Some(c.remote.value.id)
  {
    var c1 := c.(row := c.row.(offerId := Some(c.remote.value.id)));
    assert Resolve(c, env) == Returns(c1, true, [OffersFor]);
    assert c.(row := c.row.(pendingJob := None)) == c;
  }

  /******* Reconciling *******/

  /** Main result: a reconcile takes up the offer id a finished create job reports.  From then
      on the row has the store's own id and remembers what it did, and no sync of any later
      run asks for a create. */
  lemma ReconcileLearnsTheId(c: Cell, es: seq<Event>, d: Desired, env: Env, t: int, limit: nat)
    requires Inv(c) && c.row.offerId.None? && HasPending(c)
    requires c.jobs[c.row.pendingJob.value].status == Done(true) && c.jobs[c.row.pendingJob.value].work.CreateWork?
    ensures var c1 := After(c, ReconcileJobs(false), limit);
      && c.remote.Some? && c1 == c.(row := c.row.(offerId := Some(c.remote.value.id), pendingJob := None))
      && !Creates(SyncOne(Run(c1, es, limit), d, env, t, limit).calls)
  {
    var c1 := After(c, ReconcileJobs(false), limit);
    InvIsOneCreate(c);
    StepKeepsOneCreate(c, ReconcileJobs(false), limit);
    RunKeepsOneCreate(c1, es, limit);
    PushKeepsOneCreate(Run(c1, es, limit), d, env, t, limit);
  }

  lemma InvIsOneCreate(c: Cell)
    requires Inv(c)
    ensures OneCreate(c)
  {
  }

  /** A reconcile never changes a known id, and what it is not told about it leaves alone. */
  lemma ReconcileKeepsTheId(c: Cell, lookupRaises: bool, limit: nat)
    ensures var c1 := After(c, ReconcileJobs(lookupRaises), limit);
      && c1 == c.(row := c1.row)
      && (c.row.offerId.Some? ==> c1.row.offerId == c.row.offerId)
      && (lookupRaises || !HasPending(c) || PendingIs(c, Queued) ==> c1 == c)
  {
  }

  /** A job that succeeded leaves counter, state and memory; one that failed counts a failure,
      marks the offer failed, and makes the next sync send everything again, which is a
      create exactly when the id is not known. */
  lemma FailureIsSentAgain(c: Cell, d: Desired, env: Env, t: int, limit: nat)
    requires HasPending(c) && !PendingIs(c, Queued)
    ensures var c1 := After(c, ReconcileJobs(false), limit);
      && c1.row.pendingJob.None?
      && (!PendingRejected(c) ==>
            Remembers(c1.row, c.row) && c1.row.failures == c.row.failures && c1.row.state == c.row.state)
      && (PendingRejected(c) ==> c1.row.failures == c.row.failures + 1 && c1.row.state == Failed)
      && var calls := SyncOne(c1, d, env, t, limit).calls;
         (PendingRejected(c) ==>
            calls != [] && calls[0] == if c.row.offerId.None? then Create(d)
              else Update(Change(if CountFrom(c.log, t - 3600) < limit then Some(d.price) else None,
                                 Some(d.inventory), Some(d.active))))
  {
    var c1 := After(c, ReconcileJobs(false), limit);
    if PendingRejected(c) {
      if c.row.offerId.None? {
        UnknownOfferIsCreated(c1, d, env, t, limit);
      } else {
        OnlyDifferencesAreSent(c1, d, env, t, limit);
      }
    }
  }

  /******* Resolving in a sync *******/

  /** A row that waits for its create asks for the job first, and never creates.  A job that
      is not done makes it wait; one that failed makes it forget what it sent. */
  lemma WaitingRowAsksForItsJob(c: Cell, d: Desired, env: Env, t: int, limit: nat)
    requires c.row.offerId.None? && HasPending(c) && c.row.pushedInventory != Some(d.inventory)
    ensures var s, status := SyncOne(c, d, env, t, limit), c.jobs[c.row.pendingJob.value].status;
      && s.calls != [] && s.calls[0] == GetJob(c.row.pendingJob.value) && !Creates(s.calls)
      && (env.lookupRaises || status.Queued? ==> s.action == AwaitingJob && s.cell == c)
      && (!env.lookupRaises && status.Rejected? ==>
            && s.action == AwaitingJob && s.cell.row.state == Failed && s.cell.row.pendingJob.None?
            && s.cell.row.pushedPrice.None? && s.cell.row.pushedInventory.None? && s.cell.row.pushedActive.None?)
  {
  }

  /** Once the job has named the offer, the same sync goes on with an update and never asks
      the listing. */
  lemma NamedOfferIsUpdated(c: Cell, d: Desired, env: Env, t: int, limit: nat)
    requires c.row.offerId.None? && HasPending(c) && c.row.pushedInventory != Some(d.inventory)
    requires !env.lookupRaises && c.jobs[c.row.pendingJob.value].status == Done(true)
    requires c.jobs[c.row.pendingJob.value].work.CreateWork?
    ensures var s := SyncOne(c, d, env, t, limit);
      && |s.calls| == 2 && s.calls[1].Update? && s.calls[1].change.inventory == Some(d.inventory)
      && s.cell.row.offerId == Some(c.jobs[c.row.pendingJob.value].work.made.id)
  {
  }

  /** A job that is done and has not named the offer sends the sync to the listing. */
  lemma UnnamedOfferIsLookedUp(c: Cell, d: Desired, env: Env, t: int, limit: nat)
    requires c.row.offerId.None? && HasPending(c) && c.row.pushedInventory != Some(d.inventory)
    requires !env.lookupRaises && c.jobs[c.row.pendingJob.value].status == Done(false)
    ensures var s := SyncOne(c, d, env, t, limit);
      && (env.listing.ListingShows? && c.remote.Some? ==>
            && |s.calls| == 3 && s.calls[1] == OffersFor && s.calls[2].Update?
            && s.cell.row.offerId == Some(c.remote.value.id))
      && (env.listing.ListingHidden? ==> s.action == AwaitingJob && s.cell.row == c.row.(pendingJob := None))
      && (env.listing.ListingRaises? ==>
            && s.action == (if env.listing.fault == RateLimited then DeferredRateLimited else Errors)
            && s.cell.row.pendingJob.None? && Remembers(s.cell.row, c.row))
  {
  }

  /******* Adopting *******/

  /** An offer the listing shows under another id than the remembered one is taken over with
      the store's own values; otherwise nothing changes. */
  lemma AdoptionTakesOver(c: Cell, listed: bool, limit: nat)
    ensures var c1 := After(c, AdoptOffers(listed), limit);
      if listed && c.remote.Some? && c.row.offerId != Some(c.remote.value.id) then
        var r := c.remote.value;
        && c1 == c.(row := c1.row) && c1.row.offerId == Some(r.id)
        && c1.row.pushedPrice == Some(r.price) && c1.row.pushedInventory == Some(r.inventory)
        && c1.row.pushedActive == Some(r.active) && c1.row.state == (if r.active then Live else OutOfStock)
        && c1.row.pendingJob == c.row.pendingJob && c1.row.failures == c.row.failures
      else c1 == c
  {
  }
}
