/** What every run of offer synchronisation keeps. */
module OfferProofs {
  import opened Wrappers
  import opened OfferSpec

  /******* Memory agrees with the store *******/

  /** Every non-empty pushed field equals what `remote` holds. */
  ghost predicate Agrees(row: Row, remote: Option<Remote>) {
    && (row.pushedPrice.Some? ==> remote.Some? && remote.value.price == row.pushedPrice.value)
    && (row.pushedInventory.Some? ==> remote.Some? && remote.value.inventory == row.pushedInventory.value)
    && (row.pushedActive.Some? ==> remote.Some? && remote.value.active == row.pushedActive.value)
  }

  ghost predicate HasPending(c: Cell) {
    c.row.pendingJob.Some? && c.row.pendingJob.value < |c.jobs|
  }

  ghost predicate PendingIs(c: Cell, status: Status) {
    HasPending(c) && c.jobs[c.row.pendingJob.value].status == status
  }

  ghost predicate PendingRejected(c: Cell) {
    PendingIs(c, Rejected)
  }

  /** What the store will hold once the pending job, if it is still queued, has landed. */
  ghost function Expected(c: Cell): Option<Remote> {
    if PendingIs(c, Queued) then Land(c.jobs[c.row.pendingJob.value].work, c.remote) else c.remote
  }

  /** The fields of a queued update are the fields remembered as pushed. */
  ghost predicate Remembered(row: Row, change: Change) {
    && (change.price.Some? ==> row.pushedPrice == change.price)
    && (change.inventory.Some? ==> row.pushedInventory == change.inventory)
    && (change.active.Some? ==> row.pushedActive == change.active)
  }

  ghost predicate QueuedFits(c: Cell, work: Work) {
    match work
    case CreateWork(made) => c.remote.None? && (c.row.offerId.Some? ==> c.row.offerId.value == made.id)
    case UpdateWork(change) => c.remote.Some? && c.row.offerId.Some? && Remembered(c.row, change)
  }

  ghost predicate Inv(c: Cell) {
    && (c.row.pendingJob.Some? ==> HasPending(c))
    && (forall j :: 0 <= j < |c.jobs| && c.jobs[j].status.Queued? ==>
          c.row.pendingJob == Some(j) && QueuedFits(c, c.jobs[j].work))
    && (forall j :: 0 <= j < |c.jobs| && c.jobs[j].status.Done? && c.jobs[j].work.CreateWork? ==>
          c.remote.Some? && c.remote.value.id == c.jobs[j].work.made.id)
    && (c.row.offerId.Some? && c.remote.Some? ==> c.row.offerId.value == c.remote.value.id)
    && (PendingRejected(c) || Agrees(c.row, Expected(c)))
  }

  /** The job of an offer whose id is known has succeeded before the offer is
      updated again, or there is none. */
  ghost predicate Settled(c: Cell) {
    c.row.offerId.Some? && c.row.pendingJob.Some? ==>
      HasPending(c) && c.jobs[c.row.pendingJob.value].status.Done?
  }

  lemma UpdateKeeps(c: Cell, d: Desired, env: Env, t: int, limit: nat, price: bool, stock: bool, active: bool)
    requires Inv(c) && c.row.offerId.Some? && Settled(c)
    requires !stock ==> c.row.pushedInventory == Some(d.inventory)
    requires !active ==> c.row.pushedActive == Some(d.active)
    ensures Inv(UpdateOffer(c, d, env, t, limit, price, stock, active).cell)
  {
    var s := UpdateOffer(c, d, env, t, limit, price, stock, active);
    if s.cell != c {
      var change := ChangeFor(d, price && Used(c.log, t) < limit, stock, active);
      var accepted := StoreUpdate(c, c.row.offerId.value, change, env);
      assert forall j :: 0 <= j < |c.jobs| ==> !c.jobs[j].status.Queued?;
      assert !PendingRejected(c) && Agrees(c.row, c.remote);
      AcceptedUpdateKeeps(c, s.cell, d, change, accepted.jobId);
    }
  }

  lemma AcceptedUpdateKeeps(c: Cell, c1: Cell, d: Desired, change: Change, jobId: Option<JobId>)
    requires Inv(c) && Agrees(c.row, c.remote) && c.remote.Some? && c.row.offerId.Some?
    requires forall j :: 0 <= j < |c.jobs| ==> !c.jobs[j].status.Queued?
    requires c1.row == Remember(c.row.(pendingJob := jobId, state := StateFor(d)), d, change.price.None?)
    requires change.price in {None, Some(d.price)}
    requires change.inventory in {None, Some(d.inventory)}
    requires change.inventory.None? ==> c.row.pushedInventory == Some(d.inventory)
    requires change.active == Some(d.active) || (change.active.None? && c.row.pushedActive == Some(d.active))
    requires (jobId == Some(|c.jobs|) && c1.remote == c.remote && c1.jobs == c.jobs + [Job(UpdateWork(change), Queued)])
          || (jobId.None? && c1.remote == Some(Apply(change, c.remote.value)) && c1.jobs == c.jobs)
    ensures Inv(c1)
  {
    assert Expected(c1) == Some(Apply(change, c.remote.value));
    assert Agrees(c1.row, Expected(c1));
  }

  lemma ResolveKeeps(c: Cell, env: Env)
    requires Inv(c) && c.row.offerId.None?
    ensures Inv(Resolve(c, env).cell)
    ensures var s := Resolve(c, env);
      s.Returns? && s.value ==> s.cell.row.pendingJob.None? && Remembers(s.cell.row, c.row)
  {
  }

  ghost predicate Remembers(row: Row, before: Row) {
    && row.pushedPrice == before.pushedPrice
    && row.pushedInventory == before.pushedInventory
    && row.pushedActive == before.pushedActive
  }

  /** The store holds, or will hold once the queued job lands, exactly what was sent. */
  ghost predicate Sent(c: Cell, d: Desired) {
    Expected(c).Some? && Expected(c).value == Remote(Expected(c).value.id, d.price, d.inventory, d.active)
  }

  lemma AcceptedKeeps(c: Cell, d: Desired, env: Env)
    requires Inv(c) && c.row.offerId.None? && c.row.pendingJob.None?
    requires StoreCreate(c, d, env).Accepted?
    ensures var s := StoreCreate(c, d, env);
      var c2 := s.cell.(row := c.row.(pendingJob := s.jobId));
      var c3 := c2.(row := c2.row.(offerId := s.resourceId));
      && Inv(c2) && (PendingRejected(c2) || Sent(c2, d))
      && Inv(c3) && (PendingRejected(c3) || Sent(c3, d))
  {
  }

  lemma ResolveSent(c: Cell, d: Desired, env: Env)
    requires Inv(c) && c.row.offerId.None? && Sent(c, d) && !PendingRejected(c)
    ensures var s := Resolve(c, env); Inv(s.cell) && Sent(s.cell, d) && !PendingRejected(s.cell)
  {
  }

  lemma DoneKeeps(c: Cell, d: Desired, env: Env, t: int, calls: seq<Call>)
    requires Inv(c) && (PendingRejected(c) || Sent(c, d))
    requires PendingIs(c, Queued) ==> c.jobs[c.row.pendingJob.value].work.CreateWork?
    ensures Inv(CreateDone(c, d, env, t, calls).cell)
  {
  }

  lemma ConflictKeeps(c: Cell, d: Desired, env: Env, t: int, limit: nat)
    requires Inv(c) && c.row.offerId.None? && c.row.pendingJob.None?
    requires StoreCreate(c, d, env) == Refused(Conflict)
    ensures Inv(CreateOffer(c, d, env, t, limit).cell)
  {
    ResolveKeeps(c, env);
    assert c.(row := c.row.(pendingJob := None)) == c;
    var r := Resolve(c, env);
    if r.Returns? && r.value {
      UpdateKeeps(r.cell, d, env, t, limit, true, true, true);
    }
  }

  /** The step after an accepted create that named a job but no offer id. */
  lemma LateAnswerKeeps(c: Cell, d: Desired, env: Env, t: int, calls: seq<Call>)
    requires Inv(c) && c.row.offerId.None? && HasPending(c) && c.jobs[c.row.pendingJob.value].work.CreateWork?
    requires PendingRejected(c) || Sent(c, d)
    ensures var r := Resolve(c, env);
      && Inv(r.cell)
      && (r.Throws? || (!r.value && r.cell.row.state == Failed) || Inv(CreateDone(r.cell, d, env, t, calls).cell))
  {
    ResolveKeeps(c, env);
    var r := Resolve(c, env);
    if PendingRejected(c) {
      if r.cell == c {
        DoneKeeps(c, d, env, t, calls);
      }
    } else {
      ResolveSent(c, d, env);
      DoneKeeps(r.cell, d, env, t, calls);
    }
  }

  lemma CreateKeeps(c: Cell, d: Desired, env: Env, t: int, limit: nat)
    requires Inv(c) && c.row.offerId.None? && c.row.pendingJob.None?
    ensures Inv(CreateOffer(c, d, env, t, limit).cell)
  {
    match StoreCreate(c, d, env)
    case Refused(fault) =>
      if fault == Conflict {
        ConflictKeeps(c, d, env, t, limit);
      }
    case Accepted(c1, jobId, resourceId) =>
      AcceptedKeeps(c, d, env);
      var c2 := c1.(row := c1.row.(pendingJob := jobId));
      if resourceId.Some? {
        DoneKeeps(c2.(row := c2.row.(offerId := resourceId)), d, env, t, [Create(d)]);
      } else if jobId.Some? {
        LateAnswerKeeps(c2, d, env, t, [Create(d)] + Resolve(c2, env).calls);
      } else {
        DoneKeeps(c2, d, env, t, [Create(d)]);
      }
  }

  lemma PushKeeps(c: Cell, d: Desired, env: Env, t: int, limit: nat)
    requires Inv(c) && Settled(c)
    ensures Inv(Push(c, d, env, t, limit).cell)
  {
    var stock := c.row.pushedInventory != Some(d.inventory);
    var active := c.row.pushedActive != Some(d.active);
    var price := c.row.pushedPrice != Some(d.price);
    if c.row.offerId.Some? {
      UpdateKeeps(c, d, env, t, limit, price, stock, active);
    } else if c.row.pendingJob.Some? {
      ResolveKeeps(c, env);
      var r := Resolve(c, env);
      if r.Returns? && r.value {
        UpdateKeeps(r.cell, d, env, t, limit, price, stock, active);
      }
    } else {
      CreateKeeps(c, d, env, t, limit);
    }
  }

  lemma FailingKeeps(c: Cell)
    requires Inv(c)
    ensures Inv(c.(row := Failing(c.row)))
  {
  }

  lemma SyncKeeps(c: Cell, d: Desired, env: Env, t: int, limit: nat)
    requires Inv(c) && Settled(c)
    ensures Inv(SyncOne(c, d, env, t, limit).cell)
  {
    PushKeeps(c, d, env, t, limit);
    FailingKeeps(Push(c, d, env, t, limit).cell);
  }

  /******* Runs *******/

  datatype Event =
    | Sync(desired: Desired, env: Env, t: int)
    | ReconcileJobs(lookupRaises: bool)
    | AdoptOffers(listed: bool)
    | JobEnds(job: JobId, outcome: Outcome)
    | PruneLog(t: int, hours: int)

  function After(c: Cell, e: Event, limit: nat): Cell {
    match e
    case Sync(d, env, t) => SyncOne(c, d, env, t, limit).cell
    case ReconcileJobs(lookupRaises) => Reconcile(c, lookupRaises)
    case AdoptOffers(listed) => Adopt(c, listed)
    case JobEnds(j, o) => if j < |c.jobs| && c.jobs[j].status.Queued? then Finish(c, j, o) else c
    case PruneLog(t, hours) => c.(log := Kept(c.log, t - hours * HOUR))
  }

  function Run(c: Cell, es: seq<Event>, limit: nat): Cell
    decreases es
  {
    if es == [] then c else Run(After(c, es[0], limit), es[1..], limit)
  }

  lemma {:induction false} RunAppend(c: Cell, es: seq<Event>, more: seq<Event>, limit: nat)
    ensures Run(c, es + more, limit) == Run(Run(c, es, limit), more, limit)
    decreases es
  {
    if es == [] {
      assert es + more == more;
    } else {
      assert (es + more)[1..] == es[1..] + more;
      RunAppend(After(c, es[0], limit), es[1..], more, limit);
    }
  }

  lemma RunTwo(c: Cell, e0: Event, e1: Event, limit: nat)
    ensures Run(c, [e0, e1], limit) == After(After(c, e0, limit), e1, limit)
  {
    assert [e0, e1][1..] == [e1];
    assert Run(After(c, e0, limit), [e1], limit) == After(After(c, e0, limit), e1, limit);
  }

  lemma RunThree(c: Cell, e0: Event, e1: Event, e2: Event, limit: nat)
    ensures Run(c, [e0, e1, e2], limit) == After(After(After(c, e0, limit), e1, limit), e2, limit)
  {
    assert [e0, e1, e2][1..] == [e1, e2] && [e1, e2][1..] == [e2];
    var c2 := After(After(c, e0, limit), e1, limit);
    assert Run(c2, [e2], limit) == After(c2, e2, limit);
  }

  /** The event sends nothing to an offer whose last job has not succeeded yet. */
  ghost predicate InOrder(c: Cell, e: Event, limit: nat) {
    e.Sync? ==> Settled(c) || SyncOne(c, e.desired, e.env, e.t, limit).calls == []
  }

  /** A run in which no update overtakes the job before it. */
  ghost predicate Orderly(c: Cell, es: seq<Event>, limit: nat)
    decreases es
  {
    es != [] ==> InOrder(c, es[0], limit) && Orderly(After(c, es[0], limit), es[1..], limit)
  }

  /** A row that was never pushed, on a product the store may already have an offer for. */
  function Fresh(remote: Option<Remote>): Cell {
    Cell(Row(None, None, None, None, None, NeverPushed, 0), remote, [], [], [])
  }

  lemma StepKeeps(c: Cell, e: Event, limit: nat)
    requires Inv(c) && InOrder(c, e, limit)
    ensures Inv(After(c, e, limit))
  {
    match e
    case Sync(d, env, t) =>
      if Settled(c) {
        SyncKeeps(c, d, env, t, limit);
      } else {
        assert After(c, e, limit) == c;
      }
    case ReconcileJobs(lookupRaises) =>
    case AdoptOffers(listed) =>
    case JobEnds(j, o) =>
    case PruneLog(t, hours) =>
  }

  lemma {:induction false} RunKeeps(c: Cell, es: seq<Event>, limit: nat)
    requires Inv(c) && Orderly(c, es, limit)
    ensures Inv(Run(c, es, limit))
    decreases es
  {
    if es != [] {
      StepKeeps(c, es[0], limit);
      RunKeeps(After(c, es[0], limit), es[1..], limit);
    }
  }

  /** Main result: after any orderly run, whatever is remembered as pushed for an offer
      with no unresolved job is what the store holds. */
  lemma MemoryAgreesWithStore(remote: Option<Remote>, es: seq<Event>, limit: nat)
    requires Orderly(Fresh(remote), es, limit)
    ensures var c := Run(Fresh(remote), es, limit);
      && (c.row.pendingJob.None? ==> Agrees(c.row, c.remote))
      && (c.row.offerId.Some? && c.remote.Some? ==> c.row.offerId.value == c.remote.value.id)
  {
    RunKeeps(Fresh(remote), es, limit);
  }

  /** The orderliness assumption is met by a reconcile between any two passes that gets an
      answer for a job that has ended: exactly then the row waits for nothing afterwards. */
  lemma ReconcileSettles(c: Cell, lookupRaises: bool)
    requires Inv(c) && c.row.pendingJob.Some?
    ensures Reconcile(c, lookupRaises).row.pendingJob.None? <==> !lookupRaises && !PendingIs(c, Queued)
    ensures !lookupRaises && !PendingIs(c, Queued) ==> Settled(Reconcile(c, lookupRaises))
  {
  }

  /******* At most one unfinished create *******/

  ghost predicate UnfinishedCreate(jobs: seq<Job>, j: JobId) {
    j < |jobs| && jobs[j].status.Queued? && jobs[j].work.CreateWork?
  }

  /** There is at most one unfinished create; it belongs to an offer whose id is known or
      is the job the row waits for, and the store does not have the offer yet. */
  ghost predicate OneCreate(c: Cell) {
    && (c.row.pendingJob.Some? ==> HasPending(c))
    && (forall i: JobId, j: JobId :: UnfinishedCreate(c.jobs, i) && UnfinishedCreate(c.jobs, j) ==> i == j)
    && (forall j: JobId :: UnfinishedCreate(c.jobs, j) ==>
          c.remote.None? && (c.row.offerId.Some? || c.row.pendingJob == Some(j)))
  }

  predicate Creates(calls: seq<Call>) {
    exists i :: 0 <= i < |calls| && calls[i].Create?
  }

  lemma UpdateKeepsOneCreate(c: Cell, d: Desired, env: Env, t: int, limit: nat, price: bool, stock: bool, active: bool)
    requires OneCreate(c) && c.row.offerId.Some?
    ensures var s := UpdateOffer(c, d, env, t, limit, price, stock, active);
      OneCreate(s.cell) && !Creates(s.calls) && s.cell.row.offerId == c.row.offerId
  {
    var c1 := UpdateOffer(c, d, env, t, limit, price, stock, active).cell;
    assert forall j: JobId :: UnfinishedCreate(c1.jobs, j) ==> UnfinishedCreate(c.jobs, j);
  }

  lemma ResolveKeepsOneCreate(c: Cell, env: Env)
    requires OneCreate(c) && c.row.offerId.None?
    ensures OneCreate(Resolve(c, env).cell)
  {
    var c1 := Resolve(c, env).cell;
    assert forall j: JobId :: UnfinishedCreate(c1.jobs, j) <==> UnfinishedCreate(c.jobs, j);
  }

  lemma CreateKeepsOneCreate(c: Cell, d: Desired, env: Env, t: int, limit: nat)
    requires OneCreate(c) && c.row.offerId.None? && c.row.pendingJob.None?
    ensures OneCreate(CreateOffer(c, d, env, t, limit).cell)
  {
    assert forall j: JobId :: !UnfinishedCreate(c.jobs, j);
    match StoreCreate(c, d, env)
    case Refused(fault) =>
      if fault == Conflict {
        ResolveKeepsOneCreate(c, env);
        assert c.(row := c.row.(pendingJob := None)) == c;
        var r := Resolve(c, env);
        if r.Returns? && r.value {
          UpdateKeepsOneCreate(r.cell, d, env, t, limit, true, true, true);
        }
      }
    case Accepted(c1, jobId, resourceId) =>
      var c2 := c1.(row := c1.row.(pendingJob := jobId));
      assert forall j: JobId :: UnfinishedCreate(c2.jobs, j) ==> jobId == Some(j) && !UnfinishedCreate(c.jobs, j);
      assert OneCreate(c2);
      ResolveKeepsOneCreate(c2, env);
  }

  lemma PushKeepsOneCreate(c: Cell, d: Desired, env: Env, t: int, limit: nat)
    requires OneCreate(c)
    ensures var s := Push(c, d, env, t, limit);
      && OneCreate(s.cell)
      && (c.row.offerId.Some? ==> !Creates(s.calls) && s.cell.row.offerId == c.row.offerId)
  {
    var stock := c.row.pushedInventory != Some(d.inventory);
    var active := c.row.pushedActive != Some(d.active);
    var price := c.row.pushedPrice != Some(d.price);
    if c.row.offerId.Some? {
      UpdateKeepsOneCreate(c, d, env, t, limit, price, stock, active);
    } else if c.row.pendingJob.Some? {
      ResolveKeepsOneCreate(c, env);
      var r := Resolve(c, env);
      if r.Returns? && r.value {
        UpdateKeepsOneCreate(r.cell, d, env, t, limit, price, stock, active);
      }
    } else {
      CreateKeepsOneCreate(c, d, env, t, limit);
    }
  }

  lemma StepKeepsOneCreate(c: Cell, e: Event, limit: nat)
    requires OneCreate(c)
    ensures OneCreate(After(c, e, limit))
    ensures c.row.offerId.Some? ==> After(c, e, limit).row.offerId.Some?
  {
    match e
    case Sync(d, env, t) =>
      PushKeepsOneCreate(c, d, env, t, limit);
      var c1 := Push(c, d, env, t, limit).cell;
      assert OneCreate(c1.(row := Failing(c1.row)));
    case JobEnds(j, o) =>
      var c1 := After(c, e, limit);
      assert forall k: JobId :: UnfinishedCreate(c1.jobs, k) ==> UnfinishedCreate(c.jobs, k);
      if c1 != c && c.jobs[j].work.CreateWork? {
        assert UnfinishedCreate(c.jobs, j);
        assert forall k: JobId :: !UnfinishedCreate(c1.jobs, k);
      }
    case _ =>
  }

  lemma {:induction false} RunKeepsOneCreate(c: Cell, es: seq<Event>, limit: nat)
    requires OneCreate(c)
    ensures OneCreate(Run(c, es, limit))
    ensures c.row.offerId.Some? ==> Run(c, es, limit).row.offerId.Some?
    decreases es
  {
    if es != [] {
      StepKeepsOneCreate(c, es[0], limit);
      RunKeepsOneCreate(After(c, es[0], limit), es[1..], limit);
    }
  }

  /** Main result, for every run, orderly or not: at most one create job of an offer is
      unfinished, and once the offer id is known no sync asks for a create again. */
  lemma AtMostOneCreate(remote: Option<Remote>, es: seq<Event>, later: seq<Event>,
                        d: Desired, env: Env, t: int, limit: nat)
    ensures var c := Run(Fresh(remote), es, limit);
      && (forall i: JobId, j: JobId :: UnfinishedCreate(c.jobs, i) && UnfinishedCreate(c.jobs, j) ==> i == j)
      && (c.row.offerId.Some? ==> !Creates(SyncOne(Run(c, later, limit), d, env, t, limit).calls))
  {
    RunKeepsOneCreate(Fresh(remote), es, limit);
    var c := Run(Fresh(remote), es, limit);
    RunKeepsOneCreate(c, later, limit);
    PushKeepsOneCreate(Run(c, later, limit), d, env, t, limit);
  }
}
