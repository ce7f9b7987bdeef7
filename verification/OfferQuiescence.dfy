/** When a repeated sync is quiet, and when a create is reported as an error. */
module OfferQuiescence {
  import opened Wrappers
  import opened OfferSpec
  import opened OfferProofs

  predicate Quiet(a: Action) {
    a == Created || a == Updated || a == SkippedUnchanged
  }

  lemma UpdateQuiet(c: Cell, d: Desired, env: Env, t: int, limit: nat, price: bool, stock: bool, active: bool)
    requires c.row.offerId.Some? && !Matches(c.row, d)
    requires !price ==> c.row.pushedPrice == Some(d.price)
    requires !stock ==> c.row.pushedInventory == Some(d.inventory)
    requires !active ==> c.row.pushedActive == Some(d.active)
    ensures var s := UpdateOffer(c, d, env, t, limit, price, stock, active);
      if s.Throws? then s.cell == c
      else s.value in {Updated, DeferredPriceBudget}
           && (Matches(s.cell.row, d) <==> s.value == Updated || c.row.pushedPrice == Some(d.price))
  {
  }

  lemma ResolveQuiet(c: Cell, env: Env)
    ensures var r := Resolve(c, env);
      || Remembers(r.cell.row, c.row)
      || (Remembers(r.cell.row, Forget(c.row)) && r.Returns? && !r.value && r.cell.row.state == Failed)
  {
  }

  lemma CreateQuiet(c: Cell, d: Desired, env: Env, t: int, limit: nat)
    requires c.row.offerId.None? && c.row.pendingJob.None? && !Matches(c.row, d)
    ensures var s := CreateOffer(c, d, env, t, limit);
      if s.Throws? then !Matches(s.cell.row, d)
      else Matches(s.cell.row, d)
           <==> Quiet(s.value) || (s.value == DeferredPriceBudget && c.row.pushedPrice == Some(d.price))
  {
    match StoreCreate(c, d, env)
    case Refused(fault) =>
      assert c.(row := c.row.(pendingJob := None)) == c;
      ResolveQuiet(c, env);
      var r := Resolve(c, env);
      if r.Returns? && r.value {
        UpdateQuiet(r.cell, d, env, t, limit, true, true, true);
      }
    case Accepted(c1, jobId, resourceId) =>
      ResolveQuiet(c1.(row := c1.row.(pendingJob := jobId)), env);
  }

  /** A sync leaves the row at the desired values exactly when its action is quiet, or when
      an adopted offer's price was already right and its change was deferred. */
  lemma QuietIff(c: Cell, d: Desired, env: Env, t: int, limit: nat)
    ensures var s := SyncOne(c, d, env, t, limit);
      Matches(s.cell.row, d)
      <==> Quiet(s.action) || (s.action == DeferredPriceBudget && c.row.pushedPrice == Some(d.price))
  {
    var price, stock := c.row.pushedPrice != Some(d.price), c.row.pushedInventory != Some(d.inventory);
    var active := c.row.pushedActive != Some(d.active);
    if Matches(c.row, d) {
    } else if c.row.offerId.Some? {
      UpdateQuiet(c, d, env, t, limit, price, stock, active);
    } else if c.row.pendingJob.Some? {
      ResolveQuiet(c, env);
      var r := Resolve(c, env);
      if r.Returns? && r.value {
        UpdateQuiet(r.cell, d, env, t, limit, price, stock, active);
      }
    } else {
      CreateQuiet(c, d, env, t, limit);
    }
  }

  /** Main result: after a quiet action, syncing again with the same desired values makes no
      adapter call and changes nothing, whatever the store would answer. */
  lemma QuietSyncIsRepeated(c: Cell, d: Desired, env: Env, t: int, again: Env, later: int, limit: nat)
    requires Quiet(SyncOne(c, d, env, t, limit).action)
    ensures var c1 := SyncOne(c, d, env, t, limit).cell;
      SyncOne(c1, d, again, later, limit) == Synced(c1, SkippedUnchanged, [])
  {
    QuietIff(c, d, env, t, limit);
  }

  /** The job of the create ended at once, without naming the offer it made. */
  predicate DoneUnnamed(env: Env) {
    && env.create.CreateAccepts? && env.create.soon.Some?
    && env.create.soon.value.Succeeds? && !env.create.soon.value.reportsId
  }

  /** A create that the store accepted is reported as an error exactly when the answer had a
      job id and no offer id, and one of three things holds: the job is known to have failed;
      the job is done and the listing that should name the offer raises; or the id is not
      known yet and the row was in the failed state already. */
  lemma AcceptedCreateIsAnErrorIff(c: Cell, d: Desired, env: Env, t: int, limit: nat)
    requires Inv(c) && c.row.offerId.None? && c.row.pendingJob.None?
    requires env.create.CreateAccepts? && c.remote.None?
    ensures var soon := env.create.soon;
      SyncOne(c, d, env, t, limit).action == Errors <==>
        && env.create.withJob && !env.create.withId
        && (|| (soon.Some? && soon.value.Fails? && !env.lookupRaises)
            || (DoneUnnamed(env) && !env.lookupRaises && env.listing.ListingRaises? && env.listing.fault != RateLimited)
            || (c.row.state == Failed
                && (env.lookupRaises || soon.None? || (DoneUnnamed(env) && env.listing.ListingHidden?))))
  {
    assert !Matches(c.row, d);
    assert Push(c, d, env, t, limit) == CreateOffer(c, d, env, t, limit);
    var accepted := StoreCreate(c, d, env);
    if env.create.withJob && !env.create.withId {
      NewIdResolves(c, accepted.cell.(row := c.row.(pendingJob := accepted.jobId)), d, env);
    }
  }

  /** How the id of an offer is resolved right after its create was accepted. */
  lemma NewIdResolves(c: Cell, c1: Cell, d: Desired, env: Env)
    requires c.row.offerId.None? && c.remote.None?
    requires env.create.CreateAccepts? && env.create.withJob && !env.create.withId
    requires c1 == StoreCreate(c, d, env).cell.(row := c.row.(pendingJob := Some(|c.jobs|)))
    ensures var r, soon := Resolve(c1, env), env.create.soon;
      if env.lookupRaises || soon.None? then r.Returns? && !r.value && r.cell == c1
      else if soon.value.Fails? then r.Returns? && !r.value && r.cell.row.state == Failed
      else if soon.value.reportsId then r.Returns? && r.value
      else if env.listing.ListingRaises? then r.Throws? && r.fault == env.listing.fault
      else r.Returns? && r.value == env.listing.ListingShows? && r.cell.row.state == c.row.state
  {
    assert |c1.jobs| == |c.jobs| + 1;
  }

  /** An example of each surprise.  The job succeeds and the listing fails: the offer is on
      the store, an error is reported, and nothing is logged or remembered. */
  lemma CreatedButReportedAsAnError()
    ensures var create := CreateAccepts(true, false, Some(Succeeds(false)));
      var env := Env(false, ListingRaises(OtherFault), create, 7, UpdateAccepts(true), 0);
      var s := SyncOne(Fresh(None), Desired(1000, 5, true), env, 0, 4);
      && s.action == Errors && s.cell.remote == Some(Remote(7, 1000, 5, true))
      && s.cell.log == [] && s.cell.row == Fresh(None).row.(failures := 1)
  {
  }

  /** A first create fails; the second one's job is still running. */
  lemma StillRunningIsReportedAsAnError()
    ensures var create := CreateAccepts(true, false, Some(Fails(false)));
      var env := Env(false, ListingShows, create, 7, UpdateAccepts(true), 0);
      var es := [Sync(Desired(1000, 5, true), env, 0)];
      var queued := env.(create := CreateAccepts(true, false, None));
      var s := SyncOne(Run(Fresh(None), es, 4), Desired(1000, 5, true), queued, 60, 4);
      s.action == Errors && PendingIs(s.cell, Queued)
  {
    var env := Env(false, ListingShows, CreateAccepts(true, false, Some(Fails(false))), 7, UpdateAccepts(true), 0);
    var e := Sync(Desired(1000, 5, true), env, 0);
    assert [e][1..] == [];
    var c := After(Fresh(None), e, 4);
    assert Run(Fresh(None), [e], 4) == c;
    assert c.row.state == Failed && c.row.pendingJob.None? && c.remote.None? && |c.jobs| == 1;
  }
}
