/** One offer row, the store behind it and the price-change log, as values.

    A `Cell` is everything that concerns one store product: our row, what the store
    holds, the jobs the store was given, and the log of price changes.  Mappings are
    one-to-one, so a product has one row.  The functions here are the specification
    of the methods in module OfferSync; what they guarantee is in OfferProofs. */
module OfferSpec {
  import opened Wrappers

  /** One hour, the length of the price-change window, in seconds. */
  const HOUR: nat := 3600

  type OfferId = nat
  type JobId = nat

  datatype OfferState = NeverPushed | Live | OutOfStock | Failed

  /** Prices are in cents. */
  datatype Desired = Desired(price: int, inventory: nat, active: bool)

  datatype Change = Change(price: Option<int>, inventory: Option<nat>, active: Option<bool>)

  datatype Row = Row(
    offerId: Option<OfferId>,
    pushedPrice: Option<int>,
    pushedInventory: Option<nat>,
    pushedActive: Option<bool>,
    pendingJob: Option<JobId>,
    state: OfferState,
    failures: nat)

  /** An offer as the store holds it. */
  datatype Remote = Remote(id: OfferId, price: int, inventory: nat, active: bool)

  datatype Work = CreateWork(made: Remote) | UpdateWork(change: Change)

  datatype Status = Queued | Done(reportsId: bool) | Rejected

  datatype Job = Job(work: Work, status: Status)

  /** `log` holds the stamps of the recorded price changes, `sends` the instants at
      which the store accepted a price-carrying update. */
  datatype Cell = Cell(row: Row, remote: Option<Remote>, jobs: seq<Job>, log: seq<int>, sends: seq<int>)

  /******* What the store may answer *******/

  datatype Fault = RateLimited | Conflict | OtherFault

  /** How a queued job ends; a job that fails may still have left its effect behind. */
  datatype Outcome = Succeeds(reportsId: bool) | Fails(leavesEffect: bool)

  datatype Listing = ListingRaises(fault: Fault) | ListingHidden | ListingShows

  datatype CreateReply =
    | CreateRaises(fault: Fault)
    | CreateAccepts(withJob: bool, withId: bool, soon: Option<Outcome>)

  datatype UpdateReply = UpdateRaises(fault: Fault) | UpdateAccepts(withJob: bool)

  /** The answers to the calls one `_sync_one` may make, and how far the database
      clock that stamps the log is behind the instant of the call. */
  datatype Env = Env(
    lookupRaises: bool,
    listing: Listing,
    create: CreateReply,
    newId: OfferId,
    update: UpdateReply,
    lag: nat)

  datatype Call = GetJob(job: JobId) | OffersFor | Create(desired: Desired) | Update(change: Change)

  datatype Action =
    | SkippedUnchanged | AwaitingJob | Created | Updated
    | DeferredPriceBudget | DeferredRateLimited | Errors

  datatype Step<T> =
    | Returns(cell: Cell, value: T, calls: seq<Call>)
    | Throws(cell: Cell, fault: Fault, calls: seq<Call>)

  /******* The price-change budget *******/

  /** How many stamps are at or after `from`. */
  function CountFrom(stamps: seq<int>, from: int): nat {
    if stamps == [] then 0
    else CountFrom(stamps[..|stamps| - 1], from) + if stamps[|stamps| - 1] >= from then 1 else 0
  }

  function Used(log: seq<int>, t: int): nat {
    CountFrom(log, t - HOUR)
  }

  /** The entries that survive a prune at `cutoff`. */
  function Kept(log: seq<int>, cutoff: int): seq<int> {
    if log == [] then []
    else Kept(log[..|log| - 1], cutoff)
         + if log[|log| - 1] < cutoff then [] else [log[|log| - 1]]
  }

  /** Settings.effective_price_change_budget. */
  function EffectiveBudget(perHour: int, margin: int): (limit: nat)
    ensures limit >= 1 && limit >= perHour - margin && (limit == 1 || limit == perHour - margin)
  {
    if perHour - margin < 1 then 1 else perHour - margin
  }

  /******* The store *******/

  function Or<T>(o: Option<T>, default: T): T {
    if o.Some? then o.value else default
  }

  function Apply(change: Change, r: Remote): Remote {
    Remote(r.id, Or(change.price, r.price), Or(change.inventory, r.inventory), Or(change.active, r.active))
  }

  /** What the store holds once `work` has taken effect. */
  function Land(work: Work, remote: Option<Remote>): Option<Remote> {
    match work
    case CreateWork(made) => if remote.Some? then remote else Some(made)
    case UpdateWork(change) => if remote.Some? then Some(Apply(change, remote.value)) else None
  }

  /** Job `j` comes to its end. */
  function Finish(c: Cell, j: JobId, o: Outcome): Cell
    requires j < |c.jobs|
  {
    var lands := o.Succeeds? || o.leavesEffect;
    var status := if o.Succeeds? then Done(o.reportsId) else Rejected;
    c.(remote := if lands then Land(c.jobs[j].work, c.remote) else c.remote,
       jobs := c.jobs[j := c.jobs[j].(status := status)])
  }

  datatype CreateResult =
    | Refused(fault: Fault)
    | Accepted(cell: Cell, jobId: Option<JobId>, resourceId: Option<OfferId>)

  /** A second offer on one product is refused; a create answered without a job id
      has taken effect. */
  function StoreCreate(c: Cell, d: Desired, env: Env): CreateResult {
    if env.create.CreateRaises? then Refused(env.create.fault)
    else if c.remote.Some? then Refused(Conflict)
    else
      var made := Remote(env.newId, d.price, d.inventory, d.active);
      var resourceId := if env.create.withId then Some(made.id) else None;
      if env.create.withJob then
        var queued := c.(jobs := c.jobs + [Job(CreateWork(made), Queued)]);
        Accepted(if env.create.soon.Some? then Finish(queued, |c.jobs|, env.create.soon.value) else queued,
                 Some(|c.jobs|), resourceId)
      else
        Accepted(c.(remote := Some(made)), None, resourceId)
  }

  datatype UpdateResult = UpdateRefused(fault: Fault) | UpdateAccepted(cell: Cell, jobId: Option<JobId>)

  /** An update of an offer the store does not have is refused; one answered without a
      job id has taken effect. */
  function StoreUpdate(c: Cell, id: OfferId, change: Change, env: Env): UpdateResult {
    if env.update.UpdateRaises? then UpdateRefused(env.update.fault)
    else if c.remote.None? || c.remote.value.id != id then UpdateRefused(OtherFault)
    else if env.update.withJob then
      UpdateAccepted(c.(jobs := c.jobs + [Job(UpdateWork(change), Queued)]), Some(|c.jobs|))
    else
      UpdateAccepted(c.(remote := Land(UpdateWork(change), c.remote)), None)
  }

  /******* OfferSync *******/

  function Forget(row: Row): Row {
    row.(pushedPrice := None, pushedInventory := None, pushedActive := None)
  }

  function StateFor(d: Desired): OfferState {
    if d.active then Live else OutOfStock
  }

  function Remember(row: Row, d: Desired, keepPrice: bool): Row {
    row.(pushedPrice := if keepPrice then row.pushedPrice else Some(d.price),
         pushedInventory := Some(d.inventory),
         pushedActive := Some(d.active),
         failures := 0)
  }

  function ResolveByProduct(c: Cell, env: Env, calls: seq<Call>): (s: Step<bool>)
    ensures s.Returns? && s.value ==> s.cell.row.offerId.Some?
  {
    match env.listing
    case ListingRaises(fault) => Throws(c, fault, calls + [OffersFor])
    case ListingHidden => Returns(c, false, calls + [OffersFor])
    case ListingShows =>
      if c.remote.Some? then Returns(c.(row := c.row.(offerId := Some(c.remote.value.id))), true, calls + [OffersFor])
      else Returns(c, false, calls + [OffersFor])
  }

  /** The store knows the job and answers for it. */
  predicate Answers(c: Cell, j: JobId, lookupRaises: bool) {
    !lookupRaises && j < |c.jobs|
  }

  /** The offer id a finished create job reports; an update's offer id is known already. */
  function ReportedId(job: Job): Option<OfferId> {
    if job.status.Done? && job.status.reportsId && job.work.CreateWork? then Some(job.work.made.id) else None
  }

  /** `true` means that the offer id is known now. */
  function Resolve(c: Cell, env: Env): (s: Step<bool>)
    ensures s.Returns? && s.value ==> s.cell.row.offerId.Some?
  {
    if c.row.pendingJob.None? then ResolveByProduct(c, env, [])
    else
      var j := c.row.pendingJob.value;
      if !Answers(c, j, env.lookupRaises) || c.jobs[j].status.Queued? then Returns(c, false, [GetJob(j)])
      else
        var cleared := c.row.(pendingJob := None);
        if c.jobs[j].status.Rejected? then
          Returns(c.(row := Forget(cleared).(state := Failed)), false, [GetJob(j)])
        else if ReportedId(c.jobs[j]).Some? then
          Returns(c.(row := cleared.(offerId := ReportedId(c.jobs[j]))), true, [GetJob(j)])
        else ResolveByProduct(c.(row := cleared), env, [GetJob(j)])
  }

  function ChangeFor(d: Desired, price: bool, stock: bool, active: bool): Change {
    Change(if price then Some(d.price) else None,
           if stock then Some(d.inventory) else None,
           if active then Some(d.active) else None)
  }

  /** What an update the store accepted leaves in the row and the log. */
  function UpdateDone(c: Cell, jobId: Option<JobId>, d: Desired, env: Env, t: int, sendPrice: bool): Cell {
    c.(row := Remember(c.row.(pendingJob := jobId, state := StateFor(d)), d, !sendPrice),
       log := if sendPrice then c.log + [t - env.lag] else c.log)
  }

  function UpdateOffer(c: Cell, d: Desired, env: Env, t: int, limit: nat,
                       priceChanged: bool, stockChanged: bool, activeChanged: bool): Step<Action>
    requires c.row.offerId.Some?
  {
    var sendPrice := priceChanged && Used(c.log, t) < limit;
    var action := if priceChanged && !sendPrice then DeferredPriceBudget else Updated;
    if !(sendPrice || stockChanged || activeChanged) then Returns(c, DeferredPriceBudget, [])
    else
      var change := ChangeFor(d, sendPrice, stockChanged, activeChanged);
      match StoreUpdate(c, c.row.offerId.value, change, env)
      case UpdateRefused(fault) => Throws(c, fault, [Update(change)])
      case UpdateAccepted(c1, jobId) =>
        var sent := c1.(sends := if sendPrice then c.sends + [t] else c.sends);
        Returns(UpdateDone(sent, jobId, d, env, t, sendPrice), action, [Update(change)])
  }

  function CreateDone(c: Cell, d: Desired, env: Env, t: int, calls: seq<Call>): Step<Action> {
    Returns(c.(row := Remember(c.row.(state := StateFor(d)), d, false), log := c.log + [t - env.lag]),
            Created, calls)
  }

  function Prepend<T>(calls: seq<Call>, s: Step<T>): Step<T> {
    s.(calls := calls + s.calls)
  }

  /** What follows a create the store accepted. */
  function AfterAccepted(c: Cell, resourceId: Option<OfferId>, d: Desired, env: Env, t: int): Step<Action> {
    if resourceId.Some? then
      CreateDone(c.(row := c.row.(offerId := resourceId)), d, env, t, [Create(d)])
    else if c.row.pendingJob.Some? then
      var r := Resolve(c, env);
      if r.Throws? then Throws(r.cell, r.fault, [Create(d)] + r.calls)
      else if !r.value && r.cell.row.state == Failed then Returns(r.cell, Errors, [Create(d)] + r.calls)
      else CreateDone(r.cell, d, env, t, [Create(d)] + r.calls)
    else CreateDone(c, d, env, t, [Create(d)])
  }

  function CreateOffer(c: Cell, d: Desired, env: Env, t: int, limit: nat): Step<Action> {
    match StoreCreate(c, d, env)
    case Refused(fault) =>
      if fault == Conflict then
        var r := Resolve(c.(row := c.row.(pendingJob := None)), env);
        if r.Throws? then Throws(r.cell, r.fault, [Create(d)] + r.calls)
        else if r.value then
          Prepend([Create(d)] + r.calls, UpdateOffer(r.cell, d, env, t, limit, true, true, true))
        else Throws(r.cell, Conflict, [Create(d)] + r.calls)
      else Throws(c, fault, [Create(d)])
    case Accepted(c1, jobId, resourceId) =>
      AfterAccepted(c1.(row := c1.row.(pendingJob := jobId)), resourceId, d, env, t)
  }

  predicate Matches(row: Row, d: Desired) {
    && row.pushedPrice == Some(d.price)
    && row.pushedInventory == Some(d.inventory)
    && row.pushedActive == Some(d.active)
  }

  function Push(c: Cell, d: Desired, env: Env, t: int, limit: nat): Step<Action> {
    var priceChanged := c.row.pushedPrice != Some(d.price);
    var stockChanged := c.row.pushedInventory != Some(d.inventory);
    var activeChanged := c.row.pushedActive != Some(d.active);
    if c.row.offerId.Some? then
      UpdateOffer(c, d, env, t, limit, priceChanged, stockChanged, activeChanged)
    else if c.row.pendingJob.Some? then
      var r := Resolve(c, env);
      if r.Throws? then Throws(r.cell, r.fault, r.calls)
      else if r.value then
        Prepend(r.calls, UpdateOffer(r.cell, d, env, t, limit, priceChanged, stockChanged, activeChanged))
      else Returns(r.cell, AwaitingJob, r.calls)
    else CreateOffer(c, d, env, t, limit)
  }

  datatype Synced = Synced(cell: Cell, action: Action, calls: seq<Call>)

  function Failing(row: Row): Row {
    row.(failures := row.failures + 1, state := if row.failures + 1 >= 5 then Failed else row.state)
  }

  function SyncOne(c: Cell, d: Desired, env: Env, t: int, limit: nat): Synced {
    if Matches(c.row, d) then Synced(c, SkippedUnchanged, [])
    else
      match Push(c, d, env, t, limit)
      case Returns(c1, action, calls) => Synced(c1, action, calls)
      case Throws(c1, fault, calls) =>
        if fault == RateLimited then Synced(c1, DeferredRateLimited, calls)
        else Synced(c1.(row := Failing(c1.row)), Errors, calls)
  }

  function Reconcile(c: Cell, lookupRaises: bool): Cell {
    if c.row.pendingJob.None? then c
    else
      var j := c.row.pendingJob.value;
      if !Answers(c, j, lookupRaises) || c.jobs[j].status.Queued? then c
      else
        var cleared := c.row.(pendingJob := None);
        if c.jobs[j].status.Rejected? then
          c.(row := Forget(cleared).(failures := c.row.failures + 1, state := Failed))
        else
          c.(row := if c.row.offerId.None? then cleared.(offerId := ReportedId(c.jobs[j])) else cleared)
  }

  /** `listed` says whether the store's listing shows the product's offer. */
  function Adopt(c: Cell, listed: bool): Cell {
    if !listed || c.remote.None? || c.row.offerId == Some(c.remote.value.id) then c
    else
      var r := c.remote.value;
      c.(row := c.row.(offerId := Some(r.id), pushedPrice := Some(r.price), pushedInventory := Some(r.inventory),
                       pushedActive := Some(r.active), state := if r.active then Live else OutOfStock))
  }
}
