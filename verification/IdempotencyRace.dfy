/** Any number of overlapping callers of one (scope, key), interleaved at the boundaries of
    their transactions.  A caller may stop for good at any point by never moving again. */
module IdempotencyRace {
  import opened Wrappers
  import opened Idempotency

  datatype Phase =
    | Arriving                    // about to commit its claim
    | LostClaim                   // its insert violated the unique key
    | SawFailed                   // has read a recorded failure, will retry
    | SawUnfinished               // has read a claim without a result
    | Cleared                     // about to start the operation
    | Running
    | Ended(outcome: Outcome)

  datatype Caller = Caller(digest: Digest, phase: Phase)

  /** `retries` counts the callers let through without a claim of their own. */
  datatype Race = Race(record: Option<Record>, callers: seq<Caller>, claims: nat, retries: nat, starts: nat)

  datatype Move = Move(who: nat, hook: Hook, op: Operation)

  function To(r: Race, i: nat, phase: Phase): Race
    requires i < |r.callers|
  {
    r.(callers := r.callers[i := r.callers[i].(phase := phase)])
  }

  function Read(r: Race, i: nat, existing: Record): Race
    requires i < |r.callers|
  {
    if existing.digest != r.callers[i].digest then To(r, i, Ended(ConflictError))
    else match existing.state
      case Completed => To(r, i, Ended(Replayed(Or(existing.response))))
      case Failed => To(r.(retries := r.retries + 1), i, SawFailed)
      case InProgress => To(r, i, SawUnfinished)
  }

  function Consult(r: Race, i: nat, existing: Record, hook: Hook): Race
    requires i < |r.callers|
  {
    match hook
    case NoHook => To(r, i, Ended(InProgressError))
    case HookRaises => To(r, i, Ended(HookError))
    case HookAnswers(None) => To(r.(retries := r.retries + 1), i, Cleared)
    case HookAnswers(Some(v)) =>
      To(r.(record := Some(existing.(state := Completed, response := Some(v)))), i, Ended(Replayed(v)))
  }

  function Finish(r: Race, i: nat, existing: Record, op: Operation): Race
    requires i < |r.callers|
  {
    match op
    case OpReturns(v) =>
      To(r.(record := Some(existing.(state := Completed, response := Some(Wrap(v))))), i, Ended(Fresh(v)))
    case OpRaises(_) => To(r.(record := Some(existing.(state := Failed))), i, Ended(OperationError))
  }

  /** The next transaction of caller `m.who`. */
  function Next(r: Race, m: Move): Race {
    if m.who >= |r.callers| then r
    else
      var i, caller := m.who, r.callers[m.who];
      if caller.phase.Arriving? then
        if r.record.None? then
          To(r.(record := Some(Record(caller.digest, InProgress, None)), claims := r.claims + 1), i, Cleared)
        else To(r, i, LostClaim)
      else if r.record.None? then r
      else
        var existing := r.record.value;
        match caller.phase
        case LostClaim => Read(r, i, existing)
        case SawFailed => To(r.(record := Some(existing.(state := InProgress))), i, Cleared)
        case SawUnfinished => Consult(r, i, existing, m.hook)
        case Cleared => To(r.(starts := r.starts + 1), i, Running)
        case Running => Finish(r, i, existing, m.op)
        case _ => r
  }

  function Play(r: Race, moves: seq<Move>): Race
    decreases moves
  {
    if moves == [] then r else Play(Next(r, moves[0]), moves[1..])
  }

  function Gate(digests: seq<Digest>): Race {
    Race(None, seq(|digests|, i requires 0 <= i < |digests| => Caller(digests[i], Arriving)), 0, 0, 0)
  }

  /** The caller may run the operation, runs it, or has returned from it. */
  predicate Busy(c: Caller) {
    c.phase.SawFailed? || c.phase.Cleared? || c.phase.Running? || (c.phase.Ended? && c.phase.outcome.Fresh?)
  }

  ghost predicate OneBusy(r: Race) {
    forall i, j :: 0 <= i < j < |r.callers| ==> !(Busy(r.callers[i]) && Busy(r.callers[j]))
  }

  /******* Every start is accounted for *******/

  function Weight(phase: Phase): nat {
    if phase.Cleared? || phase.SawFailed? then 1 else 0
  }

  /** How many callers have been let through and have not started yet. */
  function Waiting(callers: seq<Caller>): nat {
    if callers == [] then 0
    else Weight(callers[0].phase) + Waiting(callers[1..])
  }

  lemma {:induction false} WaitingUpdate(callers: seq<Caller>, i: nat, phase: Phase)
    requires i < |callers|
    ensures var updated := callers[i := callers[i].(phase := phase)];
      Waiting(updated) + Weight(callers[i].phase) == Waiting(callers) + Weight(phase)
  {
    var updated := callers[i := callers[i].(phase := phase)];
    if i == 0 {
      assert updated[1..] == callers[1..];
    } else {
      assert updated[1..] == callers[1..][i - 1 := callers[i].(phase := phase)];
      WaitingUpdate(callers[1..], i - 1, phase);
    }
  }

  /** Who was let through has started or is waiting to; at most one claim succeeds. */
  ghost predicate Accounted(r: Race) {
    && r.starts + Waiting(r.callers) == r.claims + r.retries
    && r.claims == (if r.record.Some? then 1 else 0)
    && (r.record.None? ==> r.retries == 0)
  }

  lemma NextAccounted(r: Race, m: Move)
    requires Accounted(r)
    ensures Accounted(Next(r, m))
  {
    if m.who < |r.callers| {
      var phase := Next(r, m).callers[m.who].phase;
      WaitingUpdate(r.callers, m.who, phase);
      assert r.callers[m.who := r.callers[m.who].(phase := r.callers[m.who].phase)] == r.callers;
    }
  }

  lemma {:induction false} GateIsEmpty(callers: seq<Caller>)
    requires forall i :: 0 <= i < |callers| ==> callers[i].phase.Arriving?
    ensures Waiting(callers) == 0
  {
    if callers != [] {
      GateIsEmpty(callers[1..]);
    }
  }

  lemma {:induction false} PlayAccounted(r: Race, moves: seq<Move>)
    requires Accounted(r)
    ensures Accounted(Play(r, moves))
    decreases moves
  {
    if moves != [] {
      NextAccounted(r, moves[0]);
      PlayAccounted(Next(r, moves[0]), moves[1..]);
    }
  }

  /** Main result, for every interleaving with any failures and hooks: the claim and every
      caller let through by a recorded failure, or by a hook that found nothing, has started
      the operation once or is about to, and nobody else has.  So the operation has started
      more than once exactly when more callers were let through than have yet to start. */
  lemma StartsAreAccountedFor(digests: seq<Digest>, moves: seq<Move>)
    ensures var r := Play(Gate(digests), moves);
      && r.starts + Waiting(r.callers) == (if r.record.Some? then 1 else 0) + r.retries
      && (r.starts > 1 <==> r.retries > Waiting(r.callers))
  {
    GateIsEmpty(Gate(digests).callers);
    PlayAccounted(Gate(digests), moves);
  }

  /******* Conflicting payloads *******/

  /** A caller that is past reading the record, and was not refused, has its payload. */
  ghost predicate OwnsDigest(r: Race, c: Caller) {
    Busy(c) || c.phase.SawUnfinished? ==> r.record.Some? && r.record.value.digest == c.digest
  }

  ghost predicate DigestInv(r: Race) {
    forall i :: 0 <= i < |r.callers| ==> OwnsDigest(r, r.callers[i])
  }

  lemma NextKeepsDigest(r: Race, m: Move)
    requires DigestInv(r)
    ensures DigestInv(Next(r, m)) && |Next(r, m).callers| == |r.callers|
    ensures forall i :: 0 <= i < |r.callers| ==> Next(r, m).callers[i].digest == r.callers[i].digest
    ensures r.record.Some? ==> Next(r, m).record.Some? && Next(r, m).record.value.digest == r.record.value.digest
  {
    var r1 := Next(r, m);
    if m.who < |r.callers| {
      assert OwnsDigest(r, r.callers[m.who]);
      forall i | 0 <= i < |r.callers|
        ensures OwnsDigest(r1, r1.callers[i])
      {
        assert OwnsDigest(r, r.callers[i]);
      }
    }
  }

  lemma {:induction false} PlayKeepsDigest(r: Race, moves: seq<Move>)
    requires DigestInv(r)
    ensures DigestInv(Play(r, moves)) && |Play(r, moves).callers| == |r.callers|
    ensures forall i :: 0 <= i < |r.callers| ==> Play(r, moves).callers[i].digest == r.callers[i].digest
    decreases moves
  {
    if moves != [] {
      NextKeepsDigest(r, moves[0]);
      PlayKeepsDigest(Next(r, moves[0]), moves[1..]);
    }
  }

  /** Main result, for every interleaving with any failures and hooks: a caller whose payload
      differs from the claim's never changes the record, and never starts the operation. */
  lemma ConflictingCallerIsHarmless(digests: seq<Digest>, moves: seq<Move>, m: Move)
    requires m.who < |digests|
    ensures var r := Play(Gate(digests), moves);
      && |r.callers| == |digests| && r.callers[m.who].digest == digests[m.who]
      && (r.record.Some? && r.record.value.digest != digests[m.who] ==>
            Next(r, m).record == r.record && Next(r, m).starts == r.starts)
  {
    PlayKeepsDigest(Gate(digests), moves);
    var r := Play(Gate(digests), moves);
    assert OwnsDigest(r, r.callers[m.who]);
  }

  /******* Who returns from the operation *******/

  lemma GateIsIdle(digests: seq<Digest>)
    ensures DigestInv(Gate(digests)) && OneBusy(Gate(digests))
  {
    assert forall i :: 0 <= i < |digests| ==> !Busy(Gate(digests).callers[i]);
  }

  /** The move lets its caller through, by a recorded failure or by a hook that found
      nothing, while another caller is in flight or has returned from the operation. */
  predicate LetsThroughBeside(r: Race, m: Move) {
    && Next(r, m).retries > r.retries
    && exists i :: 0 <= i < |r.callers| && i != m.who && Busy(r.callers[i])
  }

  /** Only a claim and a let-through make a caller busy. */
  lemma NewlyBusy(r: Race, m: Move)
    requires m.who < |r.callers| && !Busy(r.callers[m.who]) && Busy(Next(r, m).callers[m.who])
    ensures r.record.None? || Next(r, m).retries > r.retries
  {
  }

  lemma OthersStay(r: Race, m: Move)
    ensures |Next(r, m).callers| == |r.callers|
    ensures forall k :: 0 <= k < |r.callers| && k != m.who ==> Next(r, m).callers[k] == r.callers[k]
  {
  }

  /** If one caller changed and now two are busy, it became busy beside another one. */
  lemma BecameBusy(r: Race, r1: Race, who: nat) returns (other: nat)
    requires OneBusy(r) && !OneBusy(r1) && |r1.callers| == |r.callers|
    requires forall k :: 0 <= k < |r.callers| && k != who ==> r1.callers[k] == r.callers[k]
    ensures other < |r.callers| && other != who && Busy(r.callers[other])
    ensures who < |r.callers| && !Busy(r.callers[who]) && Busy(r1.callers[who])
  {
    var i, j :| 0 <= i < j < |r1.callers| && Busy(r1.callers[i]) && Busy(r1.callers[j]);
    other := if i == who then j else i;
  }

  lemma NextBusy(r: Race, m: Move)
    requires DigestInv(r) && OneBusy(r)
    ensures OneBusy(Next(r, m)) || LetsThroughBeside(r, m)
  {
    if !OneBusy(Next(r, m)) {
      OthersStay(r, m);
      var other := BecameBusy(r, Next(r, m), m.who);
      NewlyBusy(r, m);
      assert OwnsDigest(r, r.callers[other]);
    }
  }

  /** Some move of the play lets a caller through beside another one. */
  ghost predicate Overlaps(r: Race, moves: seq<Move>)
    decreases moves
  {
    moves != [] && (LetsThroughBeside(r, moves[0]) || Overlaps(Next(r, moves[0]), moves[1..]))
  }

  lemma {:induction false} PlayBusy(r: Race, moves: seq<Move>)
    requires DigestInv(r) && OneBusy(r)
    ensures OneBusy(Play(r, moves)) || Overlaps(r, moves)
    decreases moves
  {
    if moves != [] {
      NextKeepsDigest(r, moves[0]);
      NextBusy(r, moves[0]);
      if OneBusy(Next(r, moves[0])) {
        PlayBusy(Next(r, moves[0]), moves[1..]);
      }
    }
  }

  predicate Returned(c: Caller) {
    c.phase.Ended? && c.phase.outcome.Fresh?
  }

  /** Main result: two callers both return from the operation only if some caller was let
      through while another one was in flight or had returned.  Retries that come one after
      the other, each after a failure, are safe. */
  lemma ReturningTwiceNeedsOverlap(digests: seq<Digest>, moves: seq<Move>, i: nat, j: nat)
    requires i < j < |Play(Gate(digests), moves).callers|
    requires Returned(Play(Gate(digests), moves).callers[i]) && Returned(Play(Gate(digests), moves).callers[j])
    ensures Overlaps(Gate(digests), moves)
  {
    GateIsIdle(digests);
    PlayBusy(Gate(digests), moves);
  }

  /** The moves that bring a busy caller to its return. */
  function Drive(phase: Phase, i: nat, v: Value): seq<Move> {
    var go := Go(i, OpReturns(v));
    match phase
    case SawFailed => [go, go, go]
    case Cleared => [go, go]
    case Running => [go]
    case _ => []
  }

  /** Nobody is let through on the way. */
  lemma {:induction false} DriveReturns(r: Race, i: nat, v: Value)
    requires DigestInv(r) && i < |r.callers| && Busy(r.callers[i])
    ensures var r1 := Play(r, Drive(r.callers[i].phase, i, v));
      && DigestInv(r1) && r1.retries == r.retries && |r1.callers| == |r.callers| && Returned(r1.callers[i])
      && forall k :: 0 <= k < |r.callers| && k != i ==> r1.callers[k] == r.callers[k]
    decreases |Drive(r.callers[i].phase, i, v)|
  {
    assert OwnsDigest(r, r.callers[i]);
    var moves := Drive(r.callers[i].phase, i, v);
    if moves != [] {
      var r1 := Next(r, moves[0]);
      NextKeepsDigest(r, moves[0]);
      assert moves[1..] == Drive(r1.callers[i].phase, i, v);
      DriveReturns(r1, i, v);
    }
  }

  lemma {:induction false} PlayAppend(r: Race, moves: seq<Move>, more: seq<Move>)
    ensures Play(r, moves + more) == Play(Play(r, moves), more)
    decreases moves
  {
    if moves == [] {
      assert moves + more == more;
    } else {
      assert (moves + more)[1..] == moves[1..] + more;
      PlayAppend(Next(r, moves[0]), moves[1..], more);
    }
  }

  /** From here, without letting anybody else through, callers `i` and `j` can both return. */
  ghost predicate CanBothReturn(r: Race, i: nat, j: nat) {
    exists more :: BothReturn(r, i, j, more)
  }

  ghost predicate BothReturn(r: Race, i: nat, j: nat, more: seq<Move>) {
    && i < j < |r.callers| && |Play(r, more).callers| == |r.callers| && Play(r, more).retries == r.retries
    && Returned(Play(r, more).callers[i]) && Returned(Play(r, more).callers[j])
  }

  lemma BusyCanBothReturn(r: Race, i: nat, j: nat, v: Value)
    requires DigestInv(r) && i < j < |r.callers| && Busy(r.callers[i]) && Busy(r.callers[j])
    ensures CanBothReturn(r, i, j)
  {
    var first := Drive(r.callers[i].phase, i, v);
    DriveReturns(r, i, v);
    var second := Drive(r.callers[j].phase, j, v);
    DriveReturns(Play(r, first), j, v);
    PlayAppend(r, first, second);
    assert BothReturn(r, i, j, first + second);
  }

  lemma {:induction false} RetriesGrow(r: Race, moves: seq<Move>)
    ensures Play(r, moves).retries >= r.retries
    ensures Play(r, moves).retries == r.retries ==> !Overlaps(r, moves)
    decreases moves
  {
    if moves != [] {
      RetriesGrow(Next(r, moves[0]), moves[1..]);
    }
  }

  /** Main result, for every state that an interleaving with any failures and hooks reaches:
      two callers can both return without anybody else being let through exactly when two
      callers are in flight, or have returned, already. */
  lemma TwoCanReturnIff(digests: seq<Digest>, moves: seq<Move>)
    ensures var r := Play(Gate(digests), moves);
      (exists i: nat, j: nat :: CanBothReturn(r, i, j)) <==> !OneBusy(r)
  {
    var r := Play(Gate(digests), moves);
    GateIsIdle(digests);
    PlayKeepsDigest(Gate(digests), moves);
    if !OneBusy(r) {
      var i: nat, j: nat :| i < j < |r.callers| && Busy(r.callers[i]) && Busy(r.callers[j]);
      BusyCanBothReturn(r, i, j, Value.Plain(0));
      assert CanBothReturn(r, i, j);
    } else if i: nat, j: nat :| CanBothReturn(r, i, j) {
      var more :| BothReturn(r, i, j, more);
      PlayBusy(r, more);
      RetriesGrow(r, more);
      assert Busy(Play(r, more).callers[i]) && Busy(Play(r, more).callers[j]);
    }
  }

  /******* What is stored *******/

  /** A caller that ends with an answer has left it in the record: its own result wrapped, a
      recovered or a stored answer as it is.  One that fails leaves a recorded failure. */
  lemma AnswersAreStored(r: Race, m: Move)
    requires m.who < |r.callers| && !r.callers[m.who].phase.Ended? && Next(r, m).callers[m.who].phase.Ended?
    ensures var outcome, record := Next(r, m).callers[m.who].phase.outcome, Next(r, m).record;
      && (outcome.Fresh? ==>
            && m.op == OpReturns(outcome.value)
            && record.Some? && record.value.state == Completed && record.value.response == Some(Wrap(outcome.value)))
      && (outcome.Replayed? ==>
            record.Some? && record.value.state == Completed && Or(record.value.response) == outcome.value)
      && (r.callers[m.who].phase.SawUnfinished? && m.hook.HookAnswers? && m.hook.answer.Some? ==>
            outcome == Replayed(m.hook.answer.value) && record.Some? && record.value.response == m.hook.answer)
      && (outcome.OperationError? ==> m.op.OpRaises? && record.Some? && record.value.state == Failed)
      && (outcome.ConflictError? || outcome.InProgressError? || outcome.HookError? ==> record == r.record)
  {
  }

  /** Nobody is left who could write. */
  ghost predicate Quiet(r: Race) {
    && r.record.Some? && r.record.value.state == Completed
    && forall i :: 0 <= i < |r.callers| ==>
         r.callers[i].phase.Arriving? || r.callers[i].phase.LostClaim? || r.callers[i].phase.Ended?
  }

  /** Main result: once an answer is stored and nobody is between reading and ending, it is
      final; every caller that ends after that, in whatever order, gets exactly that answer
      or, with another payload, a conflict. */
  lemma {:induction false} StoredAnswerIsFinal(r: Race, moves: seq<Move>)
    requires Quiet(r)
    ensures var r1 := Play(r, moves);
      && Quiet(r1) && r1.record == r.record && |r1.callers| == |r.callers| && r1.starts == r.starts
      && forall i :: 0 <= i < |r.callers| ==>
           r1.callers[i].digest == r.callers[i].digest
           && (r.callers[i].phase.Ended? ==> r1.callers[i] == r.callers[i])
           && (r1.callers[i].phase.Ended? && !r.callers[i].phase.Ended? ==>
                 var mine := r.callers[i].digest == r.record.value.digest;
                 r1.callers[i].phase.outcome == if mine then Replayed(Or(r.record.value.response)) else ConflictError)
    decreases moves
  {
    if moves != [] {
      var r1 := Next(r, moves[0]);
      if moves[0].who < |r.callers| && r1 != r {
        assert forall i :: 0 <= i < |r.callers| && i != moves[0].who ==> r1.callers[i] == r.callers[i];
      }
      StoredAnswerIsFinal(r1, moves[1..]);
    }
  }

  /******* Fresh claims: no recorded failure, no hook *******/

  predicate Plain(m: Move) {
    m.hook.NoHook? && m.op.OpReturns?
  }

  /** What each caller may be, given the record. */
  ghost predicate Fits(r: Race, c: Caller) {
    match c.phase
    case Arriving => true
    case LostClaim => r.record.Some?
    case SawFailed => false
    case SawUnfinished => r.record.Some? && r.record.value.digest == c.digest
    case Cleared => r.record.Some? && r.record.value == Record(c.digest, InProgress, None)
    case Running => r.record.Some? && r.record.value == Record(c.digest, InProgress, None)
    case Ended(outcome) =>
      r.record.Some? && match outcome
        case Fresh(v) => r.record.value == Record(c.digest, Completed, Some(Wrap(v)))
        case Replayed(v) => r.record.value == Record(c.digest, Completed, Some(v))
        case InProgressError => r.record.value.digest == c.digest
        case ConflictError => r.record.value.digest != c.digest
        case _ => false
  }

  ghost predicate FreshInv(r: Race) {
    && r.retries == 0
    && (r.record.Some? ==>
          var record := r.record.value;
          record.state != Failed && (record.state == Completed <==> record.response.Some?))
    && (forall i :: 0 <= i < |r.callers| ==> Fits(r, r.callers[i]))
    && OneBusy(r)
  }

  lemma NextFresh(r: Race, m: Move)
    requires FreshInv(r) && Plain(m)
    ensures FreshInv(Next(r, m))
    ensures r.record.Some? ==> Next(r, m).record.Some? && Next(r, m).record.value.digest == r.record.value.digest
    ensures r.record.Some? && r.record.value.state == Completed ==> Next(r, m).record == r.record
  {
    var r1 := Next(r, m);
    if m.who < |r.callers| && r1 != r {
      forall i | 0 <= i < |r.callers|
        ensures Fits(r1, r1.callers[i])
      {
        assert Fits(r, r.callers[i]) && Fits(r, r.callers[m.who]);
      }
    }
  }

  lemma {:induction false} PlayFresh(r: Race, moves: seq<Move>)
    requires FreshInv(r)
    requires forall k :: 0 <= k < |moves| ==> Plain(moves[k])
    ensures FreshInv(Play(r, moves))
    ensures r.record.Some? ==>
      Play(r, moves).record.Some? && Play(r, moves).record.value.digest == r.record.value.digest
    decreases moves
  {
    if moves != [] {
      assert Plain(moves[0]);
      NextFresh(r, moves[0]);
      PlayFresh(Next(r, moves[0]), moves[1..]);
    }
  }

  /** Main result: with no recorded failure and no hook at most one caller ever starts the
      operation; every other caller that has ended got the stored response, was told that
      the operation is in progress, or was refused because its payload differs. */
  lemma AtMostOneStarts(digests: seq<Digest>, moves: seq<Move>)
    requires forall k :: 0 <= k < |moves| ==> Plain(moves[k])
    ensures var r := Play(Gate(digests), moves);
      && r.starts <= 1
      && OneBusy(r)
      && (forall i :: 0 <= i < |r.callers| && r.callers[i].phase.Ended? ==> Fits(r, r.callers[i]))
  {
    StartsAreAccountedFor(digests, moves);
    PlayFresh(Gate(digests), moves);
  }

  const ONE_FAILED := Race(Some(Record(0, Failed, None)),
    [Caller(0, Ended(OperationError)), Caller(0, Arriving), Caller(0, Arriving)], 1, 0, 1)

  lemma FirstCallerFails()
    ensures var fail := Go(0, OpRaises(false)); Play(Gate([0, 0, 0]), [fail, fail, fail]) == ONE_FAILED
  {
    var r0, fail := Gate([0, 0, 0]), Go(0, OpRaises(false));
    PlayOn(r0, fail, [fail, fail]);
    PlayOn(Next(r0, fail), fail, [fail]);
    PlayOn(Next(Next(r0, fail), fail), fail, []);
    assert [fail] + [] == [fail] && [fail] + [fail] == [fail, fail] && [fail] + [fail, fail] == [fail, fail, fail];
  }

  /******* A caller alone *******/

  /** The same caller moves `n` times. */
  function Alone(r: Race, m: Move, n: nat): (r1: Race)
    ensures |r1.callers| == |r.callers|
  {
    if n == 0 then r else Next(Alone(r, m, n - 1), m)
  }

  lemma AloneFive(r: Race, m: Move)
    ensures Alone(r, m, 5) == Next(Next(Next(Next(Next(r, m), m), m), m), m)
    ensures Alone(r, m, 3) == Next(Next(Next(r, m), m), m) && Alone(r, m, 1) == Next(r, m)
  {
    assert Alone(r, m, 1) == Next(r, m);
    assert Alone(r, m, 2) == Next(Alone(r, m, 1), m);
    assert Alone(r, m, 3) == Next(Alone(r, m, 2), m);
    assert Alone(r, m, 4) == Next(Alone(r, m, 3), m);
  }

  lemma EndedStays(r: Race, m: Move)
    requires m.who < |r.callers| && r.callers[m.who].phase.Ended?
    ensures Next(r, m) == r
  {
  }

  /** A caller about to start runs the operation as the sequential guard does. */
  lemma ClearedRuns(r: Race, m: Move, landed: nat)
    requires m.who < |r.callers| && r.callers[m.who].phase.Cleared? && r.record.Some?
    ensures var r2 := Next(Next(r, m), m);
      var ran := Operate(World(r.record, landed), Call(r.callers[m.who].digest, m.hook, m.op, NoCrash));
      |r2.callers| == |r.callers| && r2.callers[m.who].phase == Ended(ran.outcome) && r2.record == ran.world.record
  {
    var r1 := Next(r, m);
    assert r1.callers[m.who].phase.Running? && r1.record == r.record;
  }

  /** A caller nobody interrupts that finds the key taken, until it ends or may start. */
  lemma TakenKeyAlone(r: Race, m: Move, landed: nat)
    requires m.who < |r.callers| && r.callers[m.who].phase.Arriving? && r.record.Some?
    ensures var c := Call(r.callers[m.who].digest, m.hook, m.op, NoCrash);
      var ran, r3 := RunOnce(World(r.record, landed), c), Next(Next(Next(r, m), m), m);
      && |r3.callers| == |r.callers| && r3.callers[m.who].digest == c.digest && r3.record.Some?
      && if ran.outcome.Fresh? || ran.outcome.OperationError? then
           && r3.callers[m.who].phase.Cleared? && ran == Operate(World(r3.record, landed), c)
           && r3.record == RunOnce(World(r.record, landed), c.(crash := BeforeWork)).world.record
         else r3.callers[m.who].phase == Ended(ran.outcome) && r3.record == ran.world.record
  {
    var r1 := Next(r, m);
    assert r1.callers[m.who].phase.LostClaim? && r1.record == r.record;
    var r2 := Next(r1, m);
    if r2.callers[m.who].phase.Ended? {
      EndedStays(r2, m);
    }
  }

  /** Main result: a caller that nobody interrupts does what the sequential guard does, to
      the record and in what it answers; and if it stops before it starts the operation, it
      leaves what a crash there leaves. */
  lemma AloneIsSequential(r: Race, i: nat, hook: Hook, op: Operation, landed: nat)
    requires i < |r.callers| && r.callers[i].phase.Arriving?
    ensures var m, c := Move(i, hook, op), Call(r.callers[i].digest, hook, op, NoCrash);
      var ran, r1 := RunOnce(World(r.record, landed), c), Alone(r, m, 5);
      r1.callers[i].phase == Ended(ran.outcome) && r1.record == ran.world.record
    ensures var m, c := Move(i, hook, op), Call(r.callers[i].digest, hook, op, BeforeWork);
      var before := Alone(r, m, if r.record.None? then 1 else 3);
      before.callers[i].phase.Cleared? ==> before.record == RunOnce(World(r.record, landed), c).world.record
  {
    var m := Move(i, hook, op);
    AloneFive(r, m);
    if r.record.None? {
      var r1 := Next(r, m);
      assert r1.callers[i] == Caller(r.callers[i].digest, Cleared);
      assert r1.record == Some(Record(r.callers[i].digest, InProgress, None));
      ClearedRuns(r1, m, landed);
      EndedStays(Next(Next(r1, m), m), m);
    } else {
      TakenKeyAlone(r, m, landed);
      var r3 := Next(Next(Next(r, m), m), m);
      if r3.callers[i].phase.Cleared? {
        ClearedRuns(r3, m, landed);
      } else {
        EndedStays(r3, m);
      }
    }
  }

  /** The exclusion of recorded failures is needed: two callers that both read one recorded
      failure both run the operation, and both return from it. */
  lemma TwoRetriersBothReturn(v: Value)
    ensures var first := [Go(0, OpRaises(false)), Go(0, OpRaises(false)), Go(0, OpRaises(false))];
      var retried := [Go(1, OpReturns(v)), Go(2, OpReturns(v)), Go(1, OpReturns(v)), Go(2, OpReturns(v))];
      var runs := [Go(1, OpReturns(v)), Go(1, OpReturns(v)), Go(2, OpReturns(v)), Go(2, OpReturns(v))];
      var ends := [Go(1, OpReturns(v)), Go(2, OpReturns(v))];
      var r := Play(Play(Play(Play(Gate([0, 0, 0]), first), retried), runs), ends);
      && r.starts == 3 && |r.callers| == 3
      && r.callers[1].phase == Ended(Fresh(v)) && r.callers[2].phase == Ended(Fresh(v))
  {
    FirstCallerFails();
    var r1, go1, go2 := ONE_FAILED, Go(1, OpReturns(v)), Go(2, OpReturns(v));
    PlayFour(r1, go1, go2, go1, go2);
    var r2 := Play(r1, [go1, go2, go1, go2]);
    assert r2.callers == [Caller(0, Ended(OperationError)), Caller(0, SawFailed), Caller(0, SawFailed)];
    PlayFour(r2, go1, go1, go2, go2);
    var r3 := Play(r2, [go1, go1, go2, go2]);
    assert r3.starts == 3 && r3.callers == [Caller(0, Ended(OperationError)), Caller(0, Running), Caller(0, Running)];
    PlayOn(r3, go1, [go2]);
    PlayOn(Next(r3, go1), go2, []);
    assert [go1] + [go2] == [go1, go2] && [go2] + [] == [go2];
  }

  function Go(who: nat, op: Operation): Move {
    Move(who, NoHook, op)
  }

  lemma PlayOn(r: Race, m: Move, rest: seq<Move>)
    ensures Play(r, [m] + rest) == Play(Next(r, m), rest)
  {
    assert ([m] + rest)[1..] == rest;
  }

  lemma PlayFour(r: Race, a: Move, b: Move, c: Move, d: Move)
    ensures Play(r, [a, b, c, d]) == Next(Next(Next(Next(r, a), b), c), d)
  {
    PlayOn(r, a, [b, c, d]);
    PlayOn(Next(r, a), b, [c, d]);
    PlayOn(Next(Next(r, a), b), c, [d]);
    PlayOn(Next(Next(Next(r, a), b), c), d, []);
    assert [a] + [b, c, d] == [a, b, c, d] && [b] + [c, d] == [b, c, d] && [c] + [d] == [c, d] && [d] + [] == [d];
  }
}
