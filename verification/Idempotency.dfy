/** The exactly-once guard: a claim is committed before the side effect runs.

    This module follows calls that do not overlap and may crash at any point; module
    IdempotencyRace interleaves any number of callers. */
module Idempotency {
  import opened Wrappers

  /** A digest of the request payload; distinct payloads have distinct digests. */
  type Digest = nat

  /** A JSON value: a number or string, a dict or list, or the dict {"value": inner}. */
  datatype Value = Plain(n: nat) | Container(n: nat) | ValueOf(inner: Value)

  /** What is stored for a result: dicts and lists as they are, anything else wrapped. */
  function Wrap(v: Value): Value {
    if v.Plain? then ValueOf(v) else v
  }

  datatype State = InProgress | Completed | Failed

  datatype Record = Record(digest: Digest, state: State, response: Option<Value>)

  /** The record of one (scope, key), and how often the side effect has landed. */
  datatype World = World(record: Option<Record>, landed: nat)

  datatype Hook = NoHook | HookAnswers(answer: Option<Value>) | HookRaises

  datatype Operation = OpReturns(value: Value) | OpRaises(lands: bool)

  /** Where the process dies, if it does: before the claim is committed, before the
      operation or the hook, inside the operation, or before the last commit. */
  datatype Crash = NoCrash | BeforeClaim | BeforeWork | InOperation(landed: bool) | BeforeLastCommit

  datatype Call = Call(digest: Digest, hook: Hook, op: Operation, crash: Crash)

  datatype Outcome =
    | Crashed
    | ConflictError
    | InProgressError
    | HookError
    | OperationError
    | Replayed(value: Value)
    | Fresh(value: Value)

  datatype Ran = Ran(world: World, outcome: Outcome)

  function Landed(op: Operation): nat {
    if op.OpReturns? || op.lands then 1 else 0
  }

  /** The operation runs for a record that is committed as in progress. */
  function Operate(w: World, c: Call): Ran
    requires w.record.Some?
  {
    match c.crash
    case BeforeWork => Ran(w, Crashed)
    case InOperation(landed) => Ran(w.(landed := w.landed + if landed then 1 else 0), Crashed)
    case BeforeLastCommit => Ran(w.(landed := w.landed + Landed(c.op)), Crashed)
    case _ =>
      var landed := w.landed + Landed(c.op);
      match c.op
      case OpReturns(v) =>
        Ran(World(Some(w.record.value.(state := Completed, response := Some(Wrap(v)))), landed), Fresh(v))
      case OpRaises(_) => Ran(World(Some(w.record.value.(state := Failed)), landed), OperationError)
  }

  function RunOnce(w: World, c: Call): Ran {
    if c.crash.BeforeClaim? then Ran(w, Crashed)
    else if w.record.None? then Operate(w.(record := Some(Record(c.digest, InProgress, None))), c)
    else
      var existing := w.record.value;
      if existing.digest != c.digest then Ran(w, ConflictError)
      else match existing.state
        case Completed => Ran(w, Replayed(Or(existing.response)))
        case Failed => Operate(w.(record := Some(existing.(state := InProgress))), c)
        case InProgress =>
          match c.hook
          case NoHook => Ran(w, InProgressError)
          case HookRaises => Ran(w, HookError)
          case HookAnswers(None) => Operate(w, c)
          case HookAnswers(Some(v)) =>
            if c.crash.BeforeWork? || c.crash.BeforeLastCommit? then Ran(w, Crashed)
            else Ran(w.(record := Some(existing.(state := Completed, response := Some(v)))), Replayed(v))
  }

  /** A stored response; the null of a record that has none is a plain value. */
  function Or(response: Option<Value>): Value {
    if response.Some? then response.value else Plain(0)
  }

  function Run(w: World, calls: seq<Call>): World
    decreases calls
  {
    if calls == [] then w else Run(RunOnce(w, calls[0]).world, calls[1..])
  }

  const START := World(None, 0)

  /** A raising operation has no effect, and a hook that answers tells the truth. */
  ghost predicate Honest(w: World, c: Call) {
    && (c.op.OpRaises? ==> !c.op.lands)
    && (c.hook.HookAnswers? ==> (c.hook.answer.Some? <==> w.landed > 0))
  }

  ghost predicate AllHonest(w: World, calls: seq<Call>)
    decreases calls
  {
    calls != [] ==> Honest(w, calls[0]) && AllHonest(RunOnce(w, calls[0]).world, calls[1..])
  }

  ghost predicate Inv(w: World) {
    if w.record.None? then w.landed == 0
    else match w.record.value.state
      case InProgress => w.landed <= 1
      case Completed => w.landed == 1 && w.record.value.response.Some?
      case Failed => w.landed == 0
  }

  lemma {:induction false} RunKeeps(w: World, calls: seq<Call>)
    requires Inv(w) && AllHonest(w, calls)
    ensures Inv(Run(w, calls))
    decreases calls
  {
    if calls != [] {
      RunKeeps(RunOnce(w, calls[0]).world, calls[1..]);
    }
  }

  /** Main result: however often the call is repeated and wherever it crashes, the effect
      lands at most once, and it has landed when the record says completed. */
  lemma LandsAtMostOnce(calls: seq<Call>)
    requires AllHonest(START, calls)
    ensures var w := Run(START, calls);
      w.landed <= 1 && (w.record.Some? && w.record.value.state == Completed ==> w.landed == 1)
  {
    RunKeeps(START, calls);
  }

  /** Both assumptions are needed: a hook that misses the effect, and an operation that
      raises after its effect, each let it land twice. */
  lemma DishonestAnswersLandTwice(v: Value)
    ensures Run(START, [Call(0, NoHook, OpReturns(v), BeforeLastCommit),
                        Call(0, HookAnswers(None), OpReturns(v), NoCrash)]).landed == 2
    ensures Run(START, [Call(0, NoHook, OpRaises(true), NoCrash),
                        Call(0, NoHook, OpReturns(v), NoCrash)]).landed == 2
  {
    RunTwo(START, Call(0, NoHook, OpReturns(v), BeforeLastCommit), Call(0, HookAnswers(None), OpReturns(v), NoCrash));
    RunTwo(START, Call(0, NoHook, OpRaises(true), NoCrash), Call(0, NoHook, OpReturns(v), NoCrash));
  }

  lemma RunTwo(w: World, a: Call, b: Call)
    ensures Run(w, [a, b]) == RunOnce(RunOnce(w, a).world, b).world
  {
    assert [a, b][1..] == [b];
    assert Run(RunOnce(w, a).world, [b]) == RunOnce(RunOnce(w, a).world, b).world;
  }

  /** A completed record never changes, honest callers or not; the same payload gets the
      stored response back and another payload a conflict. */
  lemma {:induction false} CompletedIsFinal(w: World, calls: seq<Call>, c: Call)
    requires w.record.Some? && w.record.value.state == Completed
    ensures Run(w, calls) == w
    ensures RunOnce(Run(w, calls), c) == Ran(w,
      if c.crash.BeforeClaim? then Crashed
      else if c.digest != w.record.value.digest then ConflictError
      else Replayed(Or(w.record.value.response)))
    decreases calls
  {
    if calls != [] {
      CompletedIsFinal(w, calls[1..], c);
    }
  }

  /** A call that returned its own result is replayed, wrapped, by every later call with
      the same payload. */
  lemma FreshIsReplayed(w: World, first: Call, calls: seq<Call>, later: Call, v: Value)
    requires RunOnce(w, first).outcome == Fresh(v)
    requires later.digest == first.digest && !later.crash.BeforeClaim?
    ensures RunOnce(Run(RunOnce(w, first).world, calls), later).outcome == Replayed(Wrap(v))
    ensures v.Plain? ==> RunOnce(Run(RunOnce(w, first).world, calls), later).outcome == Replayed(ValueOf(v))
    ensures !v.Plain? ==> RunOnce(Run(RunOnce(w, first).world, calls), later).outcome == Replayed(v)
  {
    CompletedIsFinal(RunOnce(w, first).world, calls, later);
  }

  /** An answer that was replayed, because it was stored or because a hook recovered it just
      now, is stored: every later call with the same payload gets the same answer. */
  lemma ReplayedIsReplayed(w: World, first: Call, calls: seq<Call>, later: Call, v: Value)
    requires RunOnce(w, first).outcome == Replayed(v)
    requires later.digest == first.digest && !later.crash.BeforeClaim?
    ensures RunOnce(Run(RunOnce(w, first).world, calls), later).outcome == Replayed(v)
  {
    CompletedIsFinal(RunOnce(w, first).world, calls, later);
  }

  /** Main result: what an uncrashed call finds decides what it does.  It runs the operation
      exactly when the key is new, or has its payload and a recorded failure, or has its
      payload, no result, and a hook that found nothing. */
  lemma OperationRunsIff(w: World, c: Call)
    requires c.crash.NoCrash?
    ensures var r := RunOnce(w, c);
      && (r.outcome.Fresh? || r.outcome.OperationError? <==>
            || w.record.None?
            || (w.record.value.digest == c.digest
                && (w.record.value.state == Failed
                    || (w.record.value.state == InProgress && c.hook == HookAnswers(None)))))
      && (r.outcome.Fresh? ==> c.op == OpReturns(r.outcome.value) && r.world.landed == w.landed + 1)
      && (r.outcome.OperationError? ==> c.op.OpRaises? && r.world.landed == w.landed + if c.op.lands then 1 else 0)
      && (!r.outcome.Fresh? && !r.outcome.OperationError? ==> r.world.landed == w.landed)
  {
  }

  /** A hook that found the effect is believed: its answer is returned and stored, and the
      operation is not run; a hook that raises leaves everything as it is. */
  lemma HookIsBelieved(w: World, c: Call)
    requires w.record.Some? && w.record.value.state == InProgress && w.record.value.digest == c.digest
    requires c.crash.NoCrash?
    ensures var r := RunOnce(w, c);
      && (c.hook.NoHook? ==> r == Ran(w, InProgressError))
      && (c.hook.HookRaises? ==> r == Ran(w, HookError))
      && (c.hook.HookAnswers? && c.hook.answer.Some? ==>
            && r.outcome == Replayed(c.hook.answer.value) && r.world.landed == w.landed
            && r.world.record == Some(Record(c.digest, Completed, c.hook.answer)))
  {
  }

  /** A recorded failure may be tried again: the next call runs its own operation. */
  lemma FailureMayBeRetried(w: World, first: Call, later: Call)
    requires RunOnce(w, first).outcome.OperationError?
    requires later.digest == first.digest && later.crash.NoCrash?
    ensures var r := RunOnce(RunOnce(w, first).world, later);
      r.outcome == if later.op.OpReturns? then Fresh(later.op.value) else OperationError
  {
  }

  /** A claim is committed before the operation: whenever the effect has landed since, the
      key is taken, wherever the process died. */
  lemma ClaimComesFirst(w: World, c: Call)
    ensures var r := RunOnce(w, c);
      && (r.world.landed > w.landed ==> r.world.record.Some? && r.world.record.value.digest == c.digest)
      && (c.crash.BeforeClaim? ==> r == Ran(w, Crashed))
      && (w.record.None? && !c.crash.BeforeClaim? ==> r.world.record.Some? && r.world.record.value.digest == c.digest)
      && (r.outcome.Crashed? && r.world.record != w.record ==>
            r.world.record.Some? && r.world.record.value.state == InProgress && r.world.record.value.digest == c.digest)
  {
  }

  /** Without a hook a key whose claimant crashed stays in progress for ever. */
  lemma {:induction false} CrashedClaimNeedsAHook(w: World, calls: seq<Call>)
    requires w.record.Some? && w.record.value.state == InProgress
    requires forall i :: 0 <= i < |calls| ==> calls[i].hook == NoHook
    ensures Run(w, calls) == w
    decreases calls
  {
    if calls != [] {
      assert calls[0].hook == NoHook;
      CrashedClaimNeedsAHook(w, calls[1..]);
    }
  }

  /** The calls of a sequence that carry the payload `digest`. */
  function SamePayload(calls: seq<Call>, digest: Digest): seq<Call>
    decreases calls
  {
    if calls == [] then []
    else (if calls[0].digest == digest then [calls[0]] else []) + SamePayload(calls[1..], digest)
  }

  /** Once a key is claimed, calls with another payload can be struck out of any sequence of
      calls; and after any sequence a call is refused as a conflict exactly when its payload
      is not the claimed one. */
  lemma {:induction false} ConflictsMayBeStruckOut(w: World, calls: seq<Call>, c: Call)
    requires w.record.Some?
    ensures Run(w, calls) == Run(w, SamePayload(calls, w.record.value.digest))
    ensures RunOnce(Run(w, calls), c).outcome == ConflictError
       <==> c.digest != w.record.value.digest && !c.crash.BeforeClaim?
    decreases calls
  {
    if calls != [] {
      var w1 := RunOnce(w, calls[0]).world;
      ConflictsMayBeStruckOut(w1, calls[1..], c);
      var rest := SamePayload(calls[1..], w.record.value.digest);
      if calls[0].digest == w.record.value.digest {
        assert ([calls[0]] + rest)[1..] == rest;
      } else {
        assert w1 == w && [] + rest == rest;
      }
    }
  }
}
