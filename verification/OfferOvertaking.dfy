/** What happens when an update is sent before the job of the update before it has ended, or
    before anybody has looked how it ended: `_update` overwrites the id of that job. */
module OfferOvertaking {
  import opened Wrappers
  import opened OfferSpec
  import opened OfferProofs
  import opened OfferBudget

  /******* Settling *******/

  /** Jobs end, in any order and any way, and the row is reconciled at any time. */
  predicate Settles(e: Event) {
    e.JobEnds? || e.ReconcileJobs?
  }

  /** However the jobs that are queued end, a row that waits for nothing agrees. */
  ghost predicate AlwaysAgrees(c: Cell) {
    forall es: seq<Event> :: (forall i :: 0 <= i < |es| ==> Settles(es[i])) ==> Calm(Run(c, es, 0))
  }

  ghost predicate Calm(c: Cell) {
    c.row.pendingJob.None? ==> Agrees(c.row, c.remote)
  }

  /** No value in `change` differs from what is remembered. */
  predicate Compatible(row: Row, change: Change) {
    && (row.pushedPrice.Some? && change.price.Some? ==> change.price == row.pushedPrice)
    && (row.pushedInventory.Some? && change.inventory.Some? ==> change.inventory == row.pushedInventory)
    && (row.pushedActive.Some? && change.active.Some? ==> change.active == row.pushedActive)
  }

  predicate QueuedUpdate(c: Cell, j: JobId) {
    j < |c.jobs| && c.jobs[j].status.Queued? && c.jobs[j].work.UpdateWork?
  }

  /** Every queued job fits what is remembered, whoever waits for it. */
  ghost predicate AllCompatible(c: Cell) {
    forall j: JobId :: QueuedUpdate(c, j) ==> Compatible(c.row, c.jobs[j].work.change)
  }

  ghost predicate Fit(c: Cell) {
    Agrees(c.row, Expected(c)) && AllCompatible(c)
  }

  /** The offer is there and known, so what is queued are updates. */
  ghost predicate Known(c: Cell) {
    && c.remote.Some? && c.row.offerId.Some?
    && (c.row.pendingJob.Some? ==> HasPending(c))
    && forall j: JobId :: !UnfinishedCreate(c.jobs, j)
  }

  /** What a run of settling events keeps when nothing can go wrong. */
  ghost predicate Good(c: Cell) {
    Known(c) && (PendingRejected(c) || Fit(c))
  }

  lemma EndKeepsGood(c: Cell, j: JobId, o: Outcome)
    requires Good(c) && QueuedUpdate(c, j)
    ensures Good(Finish(c, j, o))
  {
    var c1 := Finish(c, j, o);
    assert forall k: JobId :: UnfinishedCreate(c1.jobs, k) ==> UnfinishedCreate(c.jobs, k);
    assert forall k: JobId :: QueuedUpdate(c1, k) ==> QueuedUpdate(c, k) && c1.jobs[k] == c.jobs[k];
  }

  lemma ReconcileKeepsGood(c: Cell, lookupRaises: bool)
    requires Good(c)
    ensures Good(Reconcile(c, lookupRaises))
  {
    var c1 := Reconcile(c, lookupRaises);
    assert forall k: JobId :: QueuedUpdate(c1, k) ==> QueuedUpdate(c, k);
  }

  lemma {:induction false} SettlingKeepsGood(c: Cell, es: seq<Event>)
    requires Good(c) && forall i :: 0 <= i < |es| ==> Settles(es[i])
    ensures Good(Run(c, es, 0))
    decreases es
  {
    if es != [] {
      assert Settles(es[0]);
      match es[0] {
        case JobEnds(j, o) =>
          if j < |c.jobs| && c.jobs[j].status.Queued? {
            assert !UnfinishedCreate(c.jobs, j);
            EndKeepsGood(c, j, o);
          }
        case ReconcileJobs(lookupRaises) => ReconcileKeepsGood(c, lookupRaises);
      }
      SettlingKeepsGood(After(c, es[0], 0), es[1..]);
    }
  }

  /** The pending job, if it is queued, succeeds, and the row is reconciled. */
  function Settle(c: Cell): seq<Event> {
    if c.row.pendingJob.Some? then [JobEnds(c.row.pendingJob.value, Succeeds(false)), ReconcileJobs(false)] else []
  }

  lemma SettleLeaves(c: Cell)
    requires Known(c) && !PendingRejected(c)
    ensures var c1 := Run(c, Settle(c), 0);
      && c1.row == c.row.(pendingJob := None) && c1.remote == Expected(c) && |c1.jobs| == |c.jobs|
      && forall j: JobId :: j < |c.jobs| && c.row.pendingJob != Some(j) ==> c1.jobs[j] == c.jobs[j]
  {
    if c.row.pendingJob.Some? {
      var j := c.row.pendingJob.value;
      assert !UnfinishedCreate(c.jobs, j);
      RunTwo(c, JobEnds(j, Succeeds(false)), ReconcileJobs(false), 0);
    }
  }

  /** A queued job that does not fit, landing last, leaves the row wrong. */
  lemma MisfitGoesWrong(c: Cell, j: JobId)
    requires Known(c) && !PendingRejected(c) && QueuedUpdate(c, j) && !Compatible(c.row, c.jobs[j].work.change)
    ensures !AlwaysAgrees(c)
  {
    SettleLeaves(c);
    var c1 := Run(c, Settle(c), 0);
    if c.row.pendingJob != Some(j) {
      var last := JobEnds(j, Succeeds(false));
      var es := Settle(c) + [last];
      RunAppend(c, Settle(c), [last], 0);
      assert [last][1..] == [];
      assert Run(c, es, 0) == After(c1, last, 0);
      assert !Calm(Run(c, es, 0)) && forall i :: 0 <= i < |es| ==> Settles(es[i]);
    } else {
      assert !Calm(c1) && forall i :: 0 <= i < |Settle(c)| ==> Settles(Settle(c)[i]);
    }
  }

  /** Main result, for any cell whose offer is known: however the queued jobs end, memory
      agrees with the store, exactly when the pending job has failed, or when what is
      remembered is what the store will hold and every queued job fits it. */
  lemma AlwaysAgreesIff(c: Cell)
    requires Known(c)
    ensures AlwaysAgrees(c) <==> PendingRejected(c) || Fit(c)
  {
    if PendingRejected(c) || Fit(c) {
      forall es: seq<Event> | forall i :: 0 <= i < |es| ==> Settles(es[i])
        ensures Calm(Run(c, es, 0))
      {
        SettlingKeepsGood(c, es);
      }
    } else if !AllCompatible(c) {
      var j: JobId :| QueuedUpdate(c, j) && !Compatible(c.row, c.jobs[j].work.change);
      MisfitGoesWrong(c, j);
    } else {
      SettleLeaves(c);
      assert !Calm(Run(c, Settle(c), 0)) && forall i :: 0 <= i < |Settle(c)| ==> Settles(Settle(c)[i]);
    }
  }

  /******* Sending an update *******/

  /** The row an accepted update leaves behind. */
  function Pushed(row: Row, d: Desired, change: Change): Row {
    Remember(row, d, change.price.None?)
  }

  function Diff(row: Row, d: Desired, sendPrice: bool): Change {
    ChangeFor(d, sendPrice, row.pushedInventory != Some(d.inventory), row.pushedActive != Some(d.active))
  }

  /** Whatever is remembered and not sent again is what the store holds. */
  predicate UnsentAgrees(row: Row, next: Change, r: Remote) {
    && (row.pushedPrice.Some? && next.price.None? ==> r.price == row.pushedPrice.value)
    && (row.pushedInventory.Some? && next.inventory.None? ==> r.inventory == row.pushedInventory.value)
    && (row.pushedActive.Some? && next.active.None? ==> r.active == row.pushedActive.value)
  }

  lemma PushedAgreesIff(row: Row, d: Desired, sendPrice: bool, r: Remote)
    ensures var next := Diff(row, d, sendPrice);
      && (Agrees(Pushed(row, d, next), Some(Apply(next, r))) <==> UnsentAgrees(row, next, r))
      && Compatible(Pushed(row, d, next), next)
  {
  }

  /** What an accepted update does to the cell. */
  ghost predicate Overtakes(c: Cell, c1: Cell, next: Change, pushed: Row) {
    && Remembers(c1.row, pushed) && c1.row.offerId == c.row.offerId && c.remote.Some?
    && (|| (c1.row.pendingJob == Some(|c.jobs|) && c1.remote == c.remote
            && c1.jobs == c.jobs + [Job(UpdateWork(next), Queued)])
        || (c1.row.pendingJob.None? && c1.jobs == c.jobs && c1.remote == Some(Apply(next, c.remote.value))))
  }

  lemma OvertakesFitIff(c: Cell, c1: Cell, next: Change, pushed: Row)
    requires Known(c) && Overtakes(c, c1, next, pushed) && Compatible(pushed, next)
    ensures Known(c1) && !PendingRejected(c1)
    ensures Fit(c1) <==>
      && Agrees(pushed, Some(Apply(next, c.remote.value)))
      && forall j: JobId :: QueuedUpdate(c, j) ==> Compatible(pushed, c.jobs[j].work.change)
  {
    assert forall j: JobId :: UnfinishedCreate(c1.jobs, j) ==> UnfinishedCreate(c.jobs, j);
    assert Expected(c1) == Some(Apply(next, c.remote.value));
    forall j: JobId
      ensures QueuedUpdate(c1, j) <==> QueuedUpdate(c, j) || c1.row.pendingJob == Some(j)
    {
    }
    if Fit(c1) {
      forall j: JobId | QueuedUpdate(c, j)
        ensures Compatible(pushed, c.jobs[j].work.change)
      {
        assert QueuedUpdate(c1, j) && c1.jobs[j] == c.jobs[j];
      }
    }
  }

  /** An update that is sent leaves its change, its memory, and the jobs before it. */
  lemma SentUpdate(c: Cell, d: Desired, env: Env, t: int, limit: nat) returns (sendPrice: bool)
    requires Known(c) && env.update.UpdateAccepts? && Named(c) && SyncOne(c, d, env, t, limit).calls != []
    ensures var s, next := SyncOne(c, d, env, t, limit), Diff(c.row, d, sendPrice);
      s.calls == [Update(next)] && Overtakes(c, s.cell, next, Pushed(c.row, d, next))
  {
    sendPrice := c.row.pushedPrice != Some(d.price) && Used(c.log, t) < limit;
  }

  /** The remembered id is that of the store's offer. */
  predicate Named(c: Cell) {
    c.row.offerId.Some? && c.remote.Some? && c.row.offerId.value == c.remote.value.id
  }

  /** The update is safe to send over the jobs before it: what it does not send again is what
      the store holds, and no job that is still queued, however old, carries a value that
      differs from what is remembered afterwards. */
  ghost predicate SafeToSend(c: Cell, d: Desired, next: Change)
    requires c.remote.Some?
  {
    && UnsentAgrees(c.row, next, c.remote.value)
    && forall j: JobId :: QueuedUpdate(c, j) ==> Compatible(Pushed(c.row, d, next), c.jobs[j].work.change)
  }

  /** Main result, for any number of forgotten jobs in any state: memory agrees with the
      store however all of them end, exactly when the update was safe to send. */
  lemma ForgettingIsSafeIff(c: Cell, d: Desired, env: Env, t: int, limit: nat)
    requires Known(c) && Named(c) && env.update.UpdateAccepts? && SyncOne(c, d, env, t, limit).calls != []
    ensures var s := SyncOne(c, d, env, t, limit);
      && |s.calls| == 1 && s.calls[0].Update?
      && (AlwaysAgrees(s.cell) <==> SafeToSend(c, d, s.calls[0].change))
  {
    var sendPrice := SentUpdate(c, d, env, t, limit);
    var next, s := Diff(c.row, d, sendPrice), SyncOne(c, d, env, t, limit);
    PushedAgreesIff(c.row, d, sendPrice, c.remote.value);
    OvertakesFitIff(c, s.cell, next, Pushed(c.row, d, next));
    AlwaysAgreesIff(s.cell);
  }

  /** Every run, orderly or not, leaves such a cell once the store's offer is known. */
  lemma RunLeavesKnown(remote: Option<Remote>, es: seq<Event>, limit: nat)
    ensures var c := Run(Fresh(remote), es, limit); Named(c) ==> Known(c)
  {
    RunKeepsOneCreate(Fresh(remote), es, limit);
  }

  /******* When nothing was forgotten before *******/

  /** The queued job changes nothing and shares no field with the new update. */
  predicate Harmless(queued: Change, next: Change, r: Remote) {
    && (queued.price.Some? ==> next.price.None? && r.price == queued.price.value)
    && (queued.inventory.Some? ==> next.inventory.None? && r.inventory == queued.inventory.value)
    && (queued.active.Some? ==> next.active.None? && r.active == queued.active.value)
  }

  lemma HarmlessIff(row: Row, d: Desired, sendPrice: bool, queued: Change, r: Remote)
    requires Remembered(row, queued) && Agrees(row, Some(Apply(queued, r)))
    requires sendPrice ==> row.pushedPrice != Some(d.price)
    ensures var next := Diff(row, d, sendPrice);
      UnsentAgrees(row, next, r) && Compatible(Pushed(row, d, next), queued) <==> Harmless(queued, next, r)
  {
  }

  /** The first time that a queued job is overtaken, it alone decides: the update is safe
      exactly when that job is harmless. */
  lemma OvertakenJobSafeIff(c: Cell, d: Desired, env: Env, t: int, limit: nat)
    requires Inv(c) && Known(c) && PendingIs(c, Queued)
    requires env.update.UpdateAccepts? && SyncOne(c, d, env, t, limit).calls != []
    ensures var s := SyncOne(c, d, env, t, limit);
      && |s.calls| == 1 && s.calls[0].Update?
      && c.jobs[c.row.pendingJob.value].work.UpdateWork?
      && (AlwaysAgrees(s.cell)
          <==> Harmless(c.jobs[c.row.pendingJob.value].work.change, s.calls[0].change, c.remote.value))
  {
    var j := c.row.pendingJob.value;
    assert !UnfinishedCreate(c.jobs, j);
    ForgettingIsSafeIff(c, d, env, t, limit);
    var sendPrice := SentUpdate(c, d, env, t, limit);
    assert QueuedUpdate(c, j) && forall k: JobId :: QueuedUpdate(c, k) ==> k == j;
    if sendPrice {
      HarmlessIff(c.row, d, sendPrice, c.jobs[j].work.change, c.remote.value);
    }
  }

  /** Without a queued job, though the last one may have failed unseen, what is not sent again
      decides, and only a failed job can make that untrue. */
  lemma EndedJobForgottenSafeIff(c: Cell, d: Desired, env: Env, t: int, limit: nat)
    requires Inv(c) && Known(c) && !PendingIs(c, Queued)
    requires env.update.UpdateAccepts? && SyncOne(c, d, env, t, limit).calls != []
    ensures var s := SyncOne(c, d, env, t, limit);
      && |s.calls| == 1 && s.calls[0].Update?
      && (AlwaysAgrees(s.cell) <==> UnsentAgrees(c.row, s.calls[0].change, c.remote.value))
      && (!PendingRejected(c) ==> UnsentAgrees(c.row, s.calls[0].change, c.remote.value))
  {
    ForgettingIsSafeIff(c, d, env, t, limit);
    var sendPrice := SentUpdate(c, d, env, t, limit);
    assert forall k: JobId :: !QueuedUpdate(c, k);
  }

  /******* Examples *******/

  /** The three passes of the examples below: a create, a stock change whose job stays
      queued, and a price change that overtakes it. */
  const ANSWERS := Env(false, ListingShows, CreateAccepts(false, true, None), 7, UpdateAccepts(true), 0)
  const PASSES := [
    Sync(Desired(1000, 5, true), ANSWERS, 0),
    Sync(Desired(1000, 4, true), ANSWERS, 60),
    Sync(Desired(1100, 4, true), ANSWERS, 120)]
  const ENDS := [JobEnds(0, Fails(false)), JobEnds(1, Succeeds(false)), ReconcileJobs(false)]
  const STOCK := Job(UpdateWork(Change(None, Some(4), None)), Queued)
  const PRICE := Job(UpdateWork(Change(Some(1100), None, None)), Queued)
  const MADE := Cell(Row(Some(7), Some(1000), Some(5), Some(true), None, Live, 0),
    Some(Remote(7, 1000, 5, true)), [], [0], [])
  const OVERTAKEN := Cell(Row(Some(7), Some(1100), Some(4), Some(true), Some(1), Live, 0),
    MADE.remote, [STOCK, PRICE], [0, 120], [120])

  /** The offer while the job of its stock change is queued, and once that job has failed. */
  const QUEUED := MADE.(row := MADE.row.(pushedInventory := Some(4), pendingJob := Some(0)), jobs := [STOCK])
  const FAILED := QUEUED.(jobs := [STOCK.(status := Rejected)])

  lemma FirstPass()
    ensures After(Fresh(None), PASSES[0], 4) == MADE
  {
  }

  lemma SecondPass()
    ensures After(MADE, PASSES[1], 4) == QUEUED
  {
  }

  lemma ThirdPass()
    ensures After(QUEUED, PASSES[2], 4) == OVERTAKEN
  {
    CountAppend([], 0, 120 - HOUR, 0);
    assert [] + [0] == [0];
  }

  lemma EndsLoseTheStockChange()
    ensures var c := After(After(After(OVERTAKEN, ENDS[0], 4), ENDS[1], 4), ENDS[2], 4);
      && c.row.pendingJob.None? && c.row.pushedInventory == Some(4)
      && c.remote == Some(Remote(7, 1100, 5, true))
  {
    var c1 := After(OVERTAKEN, ENDS[0], 4);
    assert c1.remote == OVERTAKEN.remote && c1.jobs[1] == PRICE;
  }

  /** The orderliness assumption of `MemoryAgreesWithStore` is needed: a stock change whose
      job fails after a price change has overtaken it is remembered as sent for good. */
  lemma OvertakenJobLosesTheStockChange()
    ensures var c := Run(Fresh(None), PASSES + ENDS, 4);
      && c.row.pendingJob.None? && c.row.pushedInventory == Some(4)
      && c.remote == Some(Remote(7, 1100, 5, true))
  {
    FirstPass();
    SecondPass();
    ThirdPass();
    EndsLoseTheStockChange();
    RunThree(Fresh(None), PASSES[0], PASSES[1], PASSES[2], 4);
    RunThree(OVERTAKEN, ENDS[0], ENDS[1], ENDS[2], 4);
    RunAppend(Fresh(None), PASSES, ENDS, 4);
  }

  const PRICED := Sync(Desired(1100, 4, true), ANSWERS.(update := UpdateAccepts(false)), 120)

  lemma JobFailsUnseen()
    ensures After(QUEUED, ReconcileJobs(false), 4) == QUEUED && After(QUEUED, ENDS[0], 4) == FAILED
  {
  }

  lemma FailedJobIsForgotten()
    ensures var c := After(FAILED, PRICED, 4);
      && c.row.pendingJob.None? && c.row.pushedInventory == Some(4)
      && c.remote == Some(Remote(7, 1100, 5, true))
  {
    CountAppend([], 0, 120 - HOUR, 0);
    assert [] + [0] == [0];
  }

  /** The worker's order, a pass and then a reconcile in each tick: the job of the stock
      change fails between two ticks, and the next pass forgets it. */
  lemma FailureBetweenTicksLosesTheStockChange()
    ensures var c := Run(Fresh(None), [PASSES[0], PASSES[1], ReconcileJobs(false)] + [ENDS[0], PRICED], 4);
      && c.row.pendingJob.None? && c.row.pushedInventory == Some(4)
      && c.remote == Some(Remote(7, 1100, 5, true))
  {
    FirstPass();
    SecondPass();
    JobFailsUnseen();
    FailedJobIsForgotten();
    RunThree(Fresh(None), PASSES[0], PASSES[1], ReconcileJobs(false), 4);
    RunTwo(QUEUED, ENDS[0], PRICED, 4);
    RunAppend(Fresh(None), [PASSES[0], PASSES[1], ReconcileJobs(false)], [ENDS[0], PRICED], 4);
  }

  /** A second example, with a budget of one price change: what each event leaves. */
  const FORGOTTEN := FAILED.(row := Row(Some(7), None, None, None, None, Failed, 1))
  const RESENT := FORGOTTEN.(
    row := Row(Some(7), None, Some(5), Some(true), Some(1), Live, 0),
    jobs := FORGOTTEN.jobs + [Job(UpdateWork(Change(None, Some(5), Some(true))), Queued)])
  const REPRICED := RESENT.(
    row := Row(Some(7), Some(1000), Some(5), Some(true), Some(2), Live, 0),
    jobs := RESENT.jobs + [Job(UpdateWork(Change(Some(1000), None, None)), Queued)],
    log := [0, 3700],
    sends := [3700])
  const AGAIN := Sync(Desired(1000, 5, true), ANSWERS, 120)
  const CAUGHT_UP := Sync(Desired(1000, 5, true), ANSWERS, 3700)

  lemma FailureIsReconciled()
    ensures After(After(Fresh(None), PASSES[0], 1), PASSES[1], 1) == QUEUED
    ensures After(QUEUED, ENDS[0], 1) == FAILED && After(FAILED, ENDS[2], 1) == FORGOTTEN
  {
    assert After(Fresh(None), PASSES[0], 1) == MADE;
  }

  lemma StockIsResent()
    ensures After(FORGOTTEN, AGAIN, 1) == RESENT
  {
    CountAppend([], 0, 120 - HOUR, 0);
    assert [] + [0] == [0];
  }

  lemma PriceCatchesUp()
    ensures After(RESENT, CAUGHT_UP, 1) == REPRICED
  {
    CountAppend([], 0, 100, 0);
    assert [] + [0] == [0];
  }

  lemma RepricedIsReached()
    ensures Run(Fresh(None), [PASSES[0], PASSES[1], ENDS[0]] + [ENDS[2], AGAIN, CAUGHT_UP], 1) == REPRICED
  {
    FailureIsReconciled();
    StockIsResent();
    PriceCatchesUp();
    RunThree(Fresh(None), PASSES[0], PASSES[1], ENDS[0], 1);
    RunThree(FAILED, ENDS[2], AGAIN, CAUGHT_UP, 1);
    RunAppend(Fresh(None), [PASSES[0], PASSES[1], ENDS[0]], [ENDS[2], AGAIN, CAUGHT_UP], 1);
  }

  lemma StockIsSentOver()
    ensures SyncOne(REPRICED, Desired(1000, 4, true), ANSWERS, 3760, 1).calls == [Update(Change(None, Some(4), None))]
  {
  }

  lemma JobOneIsInTheWay()
    ensures Known(REPRICED) && Named(REPRICED) && QueuedUpdate(REPRICED, 1)
    ensures var next := Change(None, Some(4), None);
      && REPRICED.row.pendingJob == Some(2) && REPRICED.jobs[2].status.Queued? && REPRICED.jobs[2].work.UpdateWork?
      && Harmless(REPRICED.jobs[2].work.change, next, REPRICED.remote.value)
      && !Compatible(Pushed(REPRICED.row, Desired(1000, 4, true), next), REPRICED.jobs[1].work.change)
  {
    assert REPRICED.jobs[0].status == Rejected && |REPRICED.jobs| == 3;
  }

  lemma MisfitIsUnsafe(c: Cell, d: Desired, env: Env, t: int, limit: nat, next: Change, j: JobId)
    requires Known(c) && Named(c) && env.update.UpdateAccepts? && SyncOne(c, d, env, t, limit).calls == [Update(next)]
    requires QueuedUpdate(c, j) && !Compatible(Pushed(c.row, d, next), c.jobs[j].work.change)
    ensures !AlwaysAgrees(SyncOne(c, d, env, t, limit).cell)
  {
    ForgettingIsSafeIff(c, d, env, t, limit);
  }

  /** Judging the overtaken job alone is not enough.  With a budget of one price change: the
      job of a stock change fails and is reconciled; stock and flag are sent again as job 1,
      the price, which was deferred, as job 2, and then stock 4.  Job 2 is harmless, but job
      1 is still queued, and carries stock 5. */
  lemma EarlierJobMatters()
    ensures Run(Fresh(None), [PASSES[0], PASSES[1], ENDS[0]] + [ENDS[2], AGAIN, CAUGHT_UP], 1) == REPRICED
    ensures Harmless(REPRICED.jobs[2].work.change, Change(None, Some(4), None), REPRICED.remote.value)
    ensures var s := SyncOne(REPRICED, Desired(1000, 4, true), ANSWERS, 3760, 1);
      s.calls == [Update(Change(None, Some(4), None))] && !AlwaysAgrees(s.cell)
  {
    RepricedIsReached();
    StockIsSentOver();
    JobOneIsInTheWay();
    MisfitIsUnsafe(REPRICED, Desired(1000, 4, true), ANSWERS, 3760, 1, Change(None, Some(4), None), 1);
  }
}
