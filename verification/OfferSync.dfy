/** Offer synchronisation in the source's own form: row objects whose fields the methods
    assign, an adapter in front of the store, and the price-change log.  Each method is
    proved to do to the cell of its product what OfferSpec says, and nothing to others. */
module OfferSync {
  import opened Wrappers
  import opened OfferSpec
  import opened OfferQuiescence

  type ProductId = nat

  datatype Result<T> = Value(value: T) | Raised(fault: Fault)

  class StoreOffer {
    const product: ProductId
    var offerId: Option<OfferId>
    var pushedPrice: Option<int>
    var pushedInventory: Option<nat>
    var pushedActive: Option<bool>
    var pendingJob: Option<JobId>
    var state: OfferState
    var failures: nat

    constructor (product: ProductId)
      ensures this.product == product && AsRow() == Row(None, None, None, None, None, NeverPushed, 0)
    {
      this.product := product;
      offerId, pendingJob := None, None;
      pushedPrice, pushedInventory, pushedActive := None, None, None;
      state, failures := NeverPushed, 0;
    }

    function AsRow(): Row
      reads this
    {
      Row(offerId, pushedPrice, pushedInventory, pushedActive, pendingJob, state, failures)
    }
  }

  /** What the store keeps for one product. */
  datatype Side = Side(remote: Option<Remote>, jobs: seq<Job>, sends: seq<int>)

  function Bare(side: Side): Cell {
    Cell(Row(None, None, None, None, None, NeverPushed, 0), side.remote, side.jobs, [], side.sends)
  }

  function SideOf(c: Cell): Side {
    Side(c.remote, c.jobs, c.sends)
  }

  /** The store's own record of the instants at which it accepted a new price. */
  function SentAt(side: Side, change: Change, t: int): Side {
    if change.price.Some? then side.(sends := side.sends + [t]) else side
  }

  datatype CreateAnswer = CreateAnswer(jobId: Option<JobId>, resourceId: Option<OfferId>)

  datatype JobAnswer = Unfinished | Failure | Success(resourceId: Option<OfferId>)

  function AnswerOf(job: Job): JobAnswer {
    match job.status
    case Queued => Unfinished
    case Rejected => Failure
    case Done(_) => Success(ReportedId(job))
  }

  /** The adapter with the store behind it; what it answers comes from an `Env`. */
  class StoreAdapter {
    var sides: map<ProductId, Side>

    constructor (sides: map<ProductId, Side>)
      ensures this.sides == sides
    {
      this.sides := sides;
    }

    function At(p: ProductId): Side
      reads this
    {
      if p in sides then sides[p] else Side(None, [], [])
    }

    method CreateOffer(p: ProductId, d: Desired, env: Env) returns (r: Result<CreateAnswer>)
      modifies this
      ensures match StoreCreate(Bare(old(At(p))), d, env)
        case Refused(fault) => r == Raised(fault) && sides == old(sides)
        case Accepted(c1, jobId, id) => r == Value(CreateAnswer(jobId, id)) && sides == old(sides)[p := SideOf(c1)]
    {
      match StoreCreate(Bare(At(p)), d, env)
      case Refused(fault) => r := Raised(fault);
      case Accepted(c1, jobId, id) =>
        sides := sides[p := SideOf(c1)];
        r := Value(CreateAnswer(jobId, id));
    }

    method UpdateOffer(p: ProductId, id: OfferId, change: Change, env: Env, t: int) returns (r: Result<Option<JobId>>)
      modifies this
      ensures match StoreUpdate(Bare(old(At(p))), id, change, env)
        case UpdateRefused(fault) => r == Raised(fault) && sides == old(sides)
        case UpdateAccepted(c1, jobId) => r == Value(jobId) && sides == old(sides)[p := SentAt(SideOf(c1), change, t)]
    {
      match StoreUpdate(Bare(At(p)), id, change, env)
      case UpdateRefused(fault) => r := Raised(fault);
      case UpdateAccepted(c1, jobId) =>
        sides := sides[p := SentAt(SideOf(c1), change, t)];
        r := Value(jobId);
    }

    method GetJob(p: ProductId, j: JobId, lookupRaises: bool) returns (r: Result<JobAnswer>)
      ensures r.Value? <==> Answers(Bare(At(p)), j, lookupRaises)
      ensures r.Value? ==> r.value == AnswerOf(At(p).jobs[j])
    {
      if lookupRaises || j >= |At(p).jobs| {
        return Raised(OtherFault);
      }
      r := Value(AnswerOf(At(p).jobs[j]));
    }

    method OffersForProduct(p: ProductId, listing: Listing) returns (r: Result<Option<OfferId>>)
      ensures match listing
        case ListingRaises(fault) => r == Raised(fault)
        case ListingHidden => r == Value(None)
        case ListingShows => r == Value(if At(p).remote.Some? then Some(At(p).remote.value.id) else None)
    {
      match listing
      case ListingRaises(fault) => r := Raised(fault);
      case ListingHidden => r := Value(None);
      case ListingShows => r := Value(if At(p).remote.Some? then Some(At(p).remote.value.id) else None);
    }
  }

  class PriceChangeBudget {
    const limit: nat
    var log: map<ProductId, seq<int>>

    constructor (perHour: int, margin: int)
      ensures limit == EffectiveBudget(perHour, margin) && log == map[]
    {
      limit := EffectiveBudget(perHour, margin);
      log := map[];
    }

    function Of(p: ProductId): seq<int>
      reads this
    {
      if p in log then log[p] else []
    }

    function UsedBy(p: ProductId, t: int): nat
      reads this
    {
      Used(Of(p), t)
    }

    predicate Allows(p: ProductId, t: int)
      reads this
    {
      UsedBy(p, t) < limit
    }

    method Record(p: ProductId, stamp: int)
      modifies this
      ensures log == old(log)[p := old(Of(p)) + [stamp]]
    {
      log := log[p := Of(p) + [stamp]];
    }

    method Prune(now: int, hours: int)
      modifies this
      ensures forall p :: Of(p) == Kept(old(Of(p)), now - hours * HOUR)
    {
      log := map p | p in log :: Kept(log[p], now - hours * HOUR);
    }
  }

  class OfferSync {
    const adapter: StoreAdapter
    const budget: PriceChangeBudget

    constructor (adapter: StoreAdapter, budget: PriceChangeBudget)
      ensures this.adapter == adapter && this.budget == budget
    {
      this.adapter := adapter;
      this.budget := budget;
    }

    /** Everything that concerns the product of `offer`. */
    function CellOf(offer: StoreOffer): Cell
      reads offer, adapter, budget
    {
      var side := adapter.At(offer.product);
      Cell(offer.AsRow(), side.remote, side.jobs, budget.Of(offer.product), side.sends)
    }

    method ResolveOfferId(offer: StoreOffer, env: Env) returns (r: Result<bool>, calls: seq<Call>)
      modifies offer
      ensures Did(Resolve(old(CellOf(offer)), env), CellOf(offer), r, calls)
    {
      calls := [];
      if offer.pendingJob.Some? {
        calls := [GetJob(offer.pendingJob.value)];
        var job := adapter.GetJob(offer.product, offer.pendingJob.value, env.lookupRaises);
        if job.Raised? || job.value.Unfinished? {
          return Value(false), calls;
        }
        offer.pendingJob := None;
        if job.value.Success? && job.value.resourceId.Some? {
          offer.offerId := job.value.resourceId;
          return Value(true), calls;
        }
        if !job.value.Success? {
          offer.state := Failed;
          offer.pushedPrice, offer.pushedInventory, offer.pushedActive := None, None, None;
          return Value(false), calls;
        }
      }
      calls := calls + [OffersFor];
      var remote := adapter.OffersForProduct(offer.product, env.listing);
      if remote.Raised? {
        return Raised(remote.fault), calls;
      }
      if remote.value.Some? {
        offer.offerId := remote.value;
      }
      r := Value(remote.value.Some?);
    }

    method Remember(offer: StoreOffer, d: Desired, keepPrice: bool)
      modifies offer
      ensures offer.AsRow() == OfferSpec.Remember(old(offer.AsRow()), d, keepPrice)
    {
      if !keepPrice {
        offer.pushedPrice := Some(d.price);
      }
      offer.pushedInventory := Some(d.inventory);
      offer.pushedActive := Some(d.active);
      offer.failures := 0;
    }

    method UpdateOffer(offer: StoreOffer, d: Desired, env: Env, t: int,
                       priceChanged: bool, stockChanged: bool, activeChanged: bool)
      returns (r: Result<Action>, calls: seq<Call>)
      requires offer.offerId.Some?
      modifies offer, adapter, budget
      ensures var s := OfferSpec.UpdateOffer(old(CellOf(offer)), d, env, t, budget.limit,
                                             priceChanged, stockChanged, activeChanged);
        Did(s, CellOf(offer), r, calls)
      ensures OthersKept(offer.product, old(adapter.sides), old(budget.log))
    {
      calls := [];
      var sendPrice, deferred := priceChanged, false;
      if priceChanged && !budget.Allows(offer.product, t) {
        sendPrice, deferred := false, true;
      }
      if !(sendPrice || stockChanged || activeChanged) {
        return Value(DeferredPriceBudget), calls;
      }
      var change := ChangeFor(d, sendPrice, stockChanged, activeChanged);
      calls := [Update(change)];
      var fault := SendUpdate(offer, change, d, env, t, sendPrice);
      r := if fault.Some? then Raised(fault.value) else Value(if deferred then DeferredPriceBudget else Updated);
    }

    /** Sends `change` and, if the store accepted it, records it. */
    method SendUpdate(offer: StoreOffer, change: Change, d: Desired, env: Env, t: int, sendPrice: bool)
      returns (fault: Option<Fault>)
      requires offer.offerId.Some? && (sendPrice <==> change.price.Some?)
      modifies offer, adapter, budget
      ensures match StoreUpdate(old(CellOf(offer)), old(offer.offerId.value), change, env)
        case UpdateRefused(f) => fault == Some(f) && CellOf(offer) == old(CellOf(offer))
        case UpdateAccepted(c1, jobId) =>
          && fault == None
          && var sent := c1.(sends := if sendPrice then c1.sends + [t] else c1.sends);
             CellOf(offer) == UpdateDone(sent, jobId, d, env, t, sendPrice)
      ensures OthersKept(offer.product, old(adapter.sides), old(budget.log))
    {
      var job := adapter.UpdateOffer(offer.product, offer.offerId.value, change, env, t);
      if job.Raised? {
        return Some(job.fault);
      }
      RecordUpdated(offer, job.value, d, env, t, sendPrice);
      fault := None;
    }

    /** What follows an update the store accepted. */
    method RecordUpdated(offer: StoreOffer, jobId: Option<JobId>, d: Desired, env: Env, t: int, sendPrice: bool)
      modifies offer, budget
      ensures CellOf(offer) == UpdateDone(old(CellOf(offer)), jobId, d, env, t, sendPrice)
      ensures OthersKept(offer.product, old(adapter.sides), old(budget.log))
    {
      offer.pendingJob := jobId;
      offer.state := StateFor(d);
      Remember(offer, d, !sendPrice);
      if sendPrice {
        budget.Record(offer.product, t - env.lag);
      }
    }

    /** The 409 branch of a create: adopt the offer the store has already. */
    method AdoptAndUpdate(offer: StoreOffer, d: Desired, env: Env, t: int) returns (r: Result<Action>, calls: seq<Call>)
      requires StoreCreate(CellOf(offer), d, env) == Refused(Conflict)
      modifies offer, adapter, budget
      ensures var s := OfferSpec.CreateOffer(old(CellOf(offer)), d, env, t, budget.limit);
        Did(s, CellOf(offer), r, [Create(d)] + calls)
      ensures OthersKept(offer.product, old(adapter.sides), old(budget.log))
    {
      offer.pendingJob := None;
      var found;
      found, calls := ResolveOfferId(offer, env);
      if found.Raised? {
        return Raised(found.fault), calls;
      }
      if found.value {
        var more;
        r, more := UpdateOffer(offer, d, env, t, true, true, true);
        assert [Create(d)] + (calls + more) == ([Create(d)] + calls) + more;
        calls := calls + more;
        return;
      }
      r := Raised(Conflict);
    }

    /** What follows a create the store accepted. */
    method RecordCreated(offer: StoreOffer, resourceId: Option<OfferId>, d: Desired, env: Env, t: int)
      returns (r: Result<Action>, calls: seq<Call>)
      modifies offer, budget
      ensures Did(AfterAccepted(old(CellOf(offer)), resourceId, d, env, t), CellOf(offer), r, [Create(d)] + calls)
      ensures OthersKept(offer.product, old(adapter.sides), old(budget.log))
    {
      calls := [];
      if resourceId.Some? {
        offer.offerId := resourceId;
      } else if offer.pendingJob.Some? {
        var found;
        found, calls := ResolveOfferId(offer, env);
        if found.Raised? {
          return Raised(found.fault), calls;
        }
        if !found.value && offer.state == Failed {
          return Value(Errors), calls;
        }
      }
      offer.state := StateFor(d);
      Remember(offer, d, false);
      budget.Record(offer.product, t - env.lag);
      r := Value(Created);
    }

    method CreateOffer(offer: StoreOffer, d: Desired, env: Env, t: int) returns (r: Result<Action>, calls: seq<Call>)
      modifies offer, adapter, budget
      ensures Did(OfferSpec.CreateOffer(old(CellOf(offer)), d, env, t, budget.limit), CellOf(offer), r, calls)
      ensures OthersKept(offer.product, old(adapter.sides), old(budget.log))
    {
      ghost var c := CellOf(offer);
      calls := [Create(d)];
      var job := adapter.CreateOffer(offer.product, d, env);
      if job.Raised? {
        assert CellOf(offer) == c;
        if job.fault == Conflict {
          var more;
          r, more := AdoptAndUpdate(offer, d, env, t);
          calls := calls + more;
          return;
        }
        return Raised(job.fault), calls;
      }
      offer.pendingJob := job.value.jobId;
      ghost var accepted := StoreCreate(c, d, env);
      assert CellOf(offer) == accepted.cell.(row := c.row.(pendingJob := accepted.jobId));
      var more;
      r, more := RecordCreated(offer, job.value.resourceId, d, env, t);
      calls := calls + more;
    }

    /** The body of the try block. */
    method Push(offer: StoreOffer, d: Desired, env: Env, t: int,
                priceChanged: bool, stockChanged: bool, activeChanged: bool)
      returns (r: Result<Action>, calls: seq<Call>)
      requires priceChanged == (offer.pushedPrice != Some(d.price))
      requires stockChanged == (offer.pushedInventory != Some(d.inventory))
      requires activeChanged == (offer.pushedActive != Some(d.active))
      modifies offer, adapter, budget
      ensures Did(OfferSpec.Push(old(CellOf(offer)), d, env, t, budget.limit), CellOf(offer), r, calls)
      ensures OthersKept(offer.product, old(adapter.sides), old(budget.log))
    {
      ghost var c := CellOf(offer);
      calls := [];
      if offer.offerId.None? && offer.pendingJob.Some? {
        var found;
        found, calls := ResolveOfferId(offer, env);
        if found.Raised? {
          return Raised(found.fault), calls;
        }
        if !found.value {
          return Value(AwaitingJob), calls;
        }
        assert CellOf(offer) == Resolve(c, env).cell && offer.offerId.Some?;
      }
      var more;
      if offer.offerId.None? {
        assert CellOf(offer) == c;
        assert OfferSpec.Push(c, d, env, t, budget.limit) == OfferSpec.CreateOffer(c, d, env, t, budget.limit);
        r, more := CreateOffer(offer, d, env, t);
      } else {
        ghost var s := OfferSpec.UpdateOffer(CellOf(offer), d, env, t, budget.limit,
                                             priceChanged, stockChanged, activeChanged);
        assert OfferSpec.Push(c, d, env, t, budget.limit) == Prepend(calls, s) by {
          assert [] + s.calls == s.calls;
        }
        r, more := UpdateOffer(offer, d, env, t, priceChanged, stockChanged, activeChanged);
      }
      assert calls == [] ==> calls + more == more;
      calls := calls + more;
    }

    method SyncOne(offer: StoreOffer, d: Desired, env: Env, t: int) returns (action: Action, calls: seq<Call>)
      modifies offer, adapter, budget
      ensures Synced(CellOf(offer), action, calls) == OfferSpec.SyncOne(old(CellOf(offer)), d, env, t, budget.limit)
      ensures OthersKept(offer.product, old(adapter.sides), old(budget.log))
    {
      var priceChanged := offer.pushedPrice != Some(d.price);
      var stockChanged := offer.pushedInventory != Some(d.inventory);
      var activeChanged := offer.pushedActive != Some(d.active);
      if !(priceChanged || stockChanged || activeChanged) {
        return SkippedUnchanged, [];
      }
      var r;
      r, calls := Push(offer, d, env, t, priceChanged, stockChanged, activeChanged);
      if r.Value? {
        return r.value, calls;
      }
      if r.fault == RateLimited {
        return DeferredRateLimited, calls;
      }
      offer.failures := offer.failures + 1;
      if offer.failures >= 5 {
        offer.state := Failed;
      }
      action := Errors;
    }

    /** `rows` is what the query for pending jobs selected. */
    method ReconcileJobs(rows: seq<StoreOffer>, raises: seq<bool>)
      requires DistinctProducts(rows) && |raises| == |rows|
      modifies rows
      ensures forall k :: 0 <= k < |rows| ==> CellOf(rows[k]) == Reconcile(old(CellOf(rows[k])), raises[k])
    {
      for i := 0 to |rows|
        invariant forall k :: 0 <= k < i ==> CellOf(rows[k]) == Reconcile(old(CellOf(rows[k])), raises[k])
        invariant forall k :: i <= k < |rows| ==> CellOf(rows[k]) == old(CellOf(rows[k]))
      {
        ReconcileOne(rows[i], raises[i]);
      }
    }

    method ReconcileOne(offer: StoreOffer, lookupRaises: bool)
      modifies offer
      ensures CellOf(offer) == Reconcile(old(CellOf(offer)), lookupRaises)
    {
      if offer.pendingJob.None? {
        return;
      }
      var job := adapter.GetJob(offer.product, offer.pendingJob.value, lookupRaises);
      if job.Raised? || job.value.Unfinished? {
        return;
      }
      offer.pendingJob := None;
      if job.value.Success? {
        if job.value.resourceId.Some? && offer.offerId.None? {
          offer.offerId := job.value.resourceId;
        }
      } else {
        offer.failures := offer.failures + 1;
        offer.state := Failed;
        offer.pushedPrice, offer.pushedInventory, offer.pushedActive := None, None, None;
      }
    }

    /** `listed` says for which products the store's listing shows the offer. */
    method AdoptExistingOffers(rows: seq<StoreOffer>, listed: seq<bool>)
      requires DistinctProducts(rows) && |listed| == |rows|
      modifies rows
      ensures forall k :: 0 <= k < |rows| ==> CellOf(rows[k]) == Adopt(old(CellOf(rows[k])), listed[k])
    {
      for i := 0 to |rows|
        invariant forall k :: 0 <= k < i ==> CellOf(rows[k]) == Adopt(old(CellOf(rows[k])), listed[k])
        invariant forall k :: i <= k < |rows| ==> CellOf(rows[k]) == old(CellOf(rows[k]))
      {
        AdoptOne(rows[i], listed[i]);
      }
    }

    /** One turn of the loop. */
    method AdoptOne(offer: StoreOffer, listed: bool)
      modifies offer
      ensures CellOf(offer) == Adopt(old(CellOf(offer)), listed)
    {
      var remote := adapter.At(offer.product).remote;
      if listed && remote.Some? && offer.offerId != Some(remote.value.id) {
        offer.offerId := Some(remote.value.id);
        offer.pushedPrice := Some(remote.value.price);
        offer.pushedInventory := Some(remote.value.inventory);
        offer.pushedActive := Some(remote.value.active);
        offer.state := if remote.value.active then Live else OutOfStock;
      }
    }

    /** One pass over the mapped products: each offer moves as `SyncOne` says, whatever the
        pass does to the others. */
    method Run(rows: seq<StoreOffer>, items: seq<Item>) returns (actions: seq<Action>, calls: seq<seq<Call>>)
      requires DistinctProducts(rows) && |items| == |rows|
      modifies rows, adapter, budget
      ensures |actions| == |calls| == |rows|
      ensures forall k :: 0 <= k < |rows| ==>
        Synced(CellOf(rows[k]), actions[k], calls[k]) == SyncItem(old(CellOf(rows[k])), items[k], budget.limit)
    {
      actions, calls := [], [];
      for i := 0 to |rows|
        invariant |actions| == |calls| == i
        invariant forall k :: 0 <= k < i ==>
          Synced(CellOf(rows[k]), actions[k], calls[k]) == SyncItem(old(CellOf(rows[k])), items[k], budget.limit)
        invariant forall k :: i <= k < |rows| ==> CellOf(rows[k]) == old(CellOf(rows[k]))
      {
        label before:
        var action, made := SyncOne(rows[i], items[i].desired, items[i].env, items[i].t);
        assert forall k :: 0 <= k < |rows| && k != i ==> CellOf(rows[k]) == old@before(CellOf(rows[k]));
        actions, calls := actions + [action], calls + [made];
      }
    }

    /** If every action of a pass was created, updated or skipped, a second pass with the
        same desired values makes no adapter call and changes nothing. */
    method RunTwice(rows: seq<StoreOffer>, items: seq<Item>, again: seq<Item>)
      returns (first: seq<Action>, actions: seq<Action>, calls: seq<seq<Call>>)
      requires DistinctProducts(rows) && |items| == |again| == |rows|
      requires forall k :: 0 <= k < |rows| ==> items[k].desired == again[k].desired
      modifies rows, adapter, budget
      ensures |first| == |actions| == |calls| == |rows|
      ensures (forall k :: 0 <= k < |rows| ==> Quiet(first[k])) ==>
        forall k :: 0 <= k < |rows| ==>
          && actions[k] == SkippedUnchanged && calls[k] == []
          && CellOf(rows[k]) == SyncItem(old(CellOf(rows[k])), items[k], budget.limit).cell
    {
      var firstCalls;
      first, firstCalls := Run(rows, items);
      label between:
      actions, calls := Run(rows, again);
      if forall k :: 0 <= k < |rows| ==> Quiet(first[k]) {
        forall k | 0 <= k < |rows|
          ensures Synced(CellOf(rows[k]), actions[k], calls[k])
               == Synced(old@between(CellOf(rows[k])), SkippedUnchanged, [])
        {
          QuietSyncIsRepeated(old(CellOf(rows[k])), items[k].desired, items[k].env, items[k].t,
                              again[k].env, again[k].t, budget.limit);
        }
      }
    }

    /** Nothing that belongs to another product has changed. */
    ghost predicate OthersKept(p: ProductId, sides: map<ProductId, Side>, log: map<ProductId, seq<int>>)
      reads adapter, budget
    {
      && (forall q | q != p :: (q in adapter.sides <==> q in sides) && (q in sides ==> adapter.sides[q] == sides[q]))
      && (forall q | q != p :: (q in budget.log <==> q in log) && (q in log ==> budget.log[q] == log[q]))
    }
  }

  datatype Item = Item(desired: Desired, env: Env, t: int)

  function SyncItem(c: Cell, item: Item, limit: nat): Synced {
    OfferSpec.SyncOne(c, item.desired, item.env, item.t, limit)
  }

  /** Mappings are one-to-one, so no two rows are on one product. */
  ghost predicate DistinctProducts(rows: seq<StoreOffer>) {
    forall i, j :: 0 <= i < j < |rows| ==> rows[i].product != rows[j].product
  }

  /** A method ended in `cell` with result `r` after `calls`, as the specified step does. */
  ghost predicate Did<T(!new)>(s: Step<T>, cell: Cell, r: Result<T>, calls: seq<Call>) {
    && cell == s.cell && calls == s.calls
    && r == if s.Returns? then Value(s.value) else Raised(s.fault)
  }
}
