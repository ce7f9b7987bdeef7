/** The cached exchange rate: which quote a caller is given, and when the provider is asked. */
module FxRates {
  import opened Wrappers
  import opened Pricing

  /** A stored quote; the stamp is the database's. */
  datatype Row = Row(rate: real, fetchedAt: int)

  datatype Reply = Unreachable | Payload(rate: Option<real>)

  /** `maxAge` is in seconds. */
  datatype Settings = Settings(pinned: Option<real>, maxAge: int)

  /** One call: its instant, how far the database clock is behind it, what the provider
      would answer, and which of several newest rows the query would return. */
  datatype Ask = Ask(now: int, lag: nat, force: bool, reply: Reply, tie: nat)

  datatype Answer = Quoted(value: real) | Stale | Unavailable

  datatype Step = Step(rows: seq<Row>, answer: Answer, asked: bool)

  /** The column keeps eight decimals. */
  function Stored(rate: real): real {
    HalfUp(rate * 100000000.0) as real / 100000000.0
  }

  predicate Newest(rows: seq<Row>, i: nat) {
    i < |rows| && forall k :: 0 <= k < |rows| ==> rows[k].fetchedAt <= rows[i].fetchedAt
  }

  function NewestIndex(rows: seq<Row>): (i: nat)
    requires rows != []
    ensures Newest(rows, i)
  {
    var last := |rows| - 1;
    if last == 0 then 0
    else
      var i := NewestIndex(rows[..last]);
      assert forall k :: 0 <= k < last ==> rows[k] == rows[..last][k];
      if rows[last].fetchedAt > rows[i].fetchedAt then last else i
  }

  function Cached(rows: seq<Row>, tie: nat): (c: Option<Row>)
    ensures c.None? <==> rows == []
    ensures c.Some? ==> c.value in rows && forall row :: row in rows ==> row.fetchedAt <= c.value.fetchedAt
  {
    if rows == [] then None else Some(rows[if Newest(rows, tie) then tie else NewestIndex(rows)])
  }

  /** A missing or non-positive rate counts as a failed fetch. */
  function Fetch(reply: Reply): Option<real> {
    if reply.Payload? && reply.rate.Some? && reply.rate.value > 0.0 then reply.rate else None
  }

  function Rate(rows: seq<Row>, s: Settings, a: Ask): Step {
    if s.pinned.Some? then Step(rows, Quoted(s.pinned.value), false)
    else
      var cached := if a.force then None else Cached(rows, a.tie);
      if cached.Some? && a.now - cached.value.fetchedAt < s.maxAge then Step(rows, Quoted(cached.value.rate), false)
      else match Fetch(a.reply)
        case None => Step(rows, if cached.Some? then Stale else Unavailable, true)
        case Some(rate) => Step(rows + [Row(Stored(rate), a.now - a.lag)], Quoted(rate), true)
  }

  /** The rows call `j` of a run finds. */
  function Found(s: Settings, asks: seq<Ask>, j: nat): seq<Row>
    requires j <= |asks|
  {
    if j == 0 then [] else Rate(Found(s, asks, j - 1), s, asks[j - 1]).rows
  }

  /** What call `j` of a run does. */
  function StepAt(s: Settings, asks: seq<Ask>, j: nat): Step
    requires j < |asks|
  {
    Rate(Found(s, asks, j), s, asks[j])
  }

  /** Call `i` of the run got a rate from the provider. */
  predicate Fetched(s: Settings, asks: seq<Ask>, i: nat) {
    i < |asks| && StepAt(s, asks, i).asked && Fetch(asks[i].reply).Some?
  }

  function Stamp(a: Ask): int {
    a.now - a.lag
  }

  /** The row a fetch leaves. */
  function RowOf(a: Ask): Row
    requires Fetch(a.reply).Some?
  {
    Row(Stored(Fetch(a.reply).value), Stamp(a))
  }

  lemma RateAdds(rows: seq<Row>, s: Settings, a: Ask)
    ensures var step := Rate(rows, s, a);
      step.rows == if step.asked && Fetch(a.reply).Some? then rows + [RowOf(a)] else rows
  {
  }

  /** `row` was fetched by call `i`, before call `j`. */
  ghost predicate FetchedBy(s: Settings, asks: seq<Ask>, i: nat, j: nat, row: Row) {
    i < j && Fetched(s, asks, i) && row == RowOf(asks[i])
  }

  /** What call `j` finds was fetched before it, and the other way round. */
  lemma {:induction false} FoundWasFetched(s: Settings, asks: seq<Ask>, j: nat, row: Row) returns (i: nat)
    requires j <= |asks| && row in Found(s, asks, j)
    ensures FetchedBy(s, asks, i, j, row)
  {
    i := j - 1;
    RateAdds(Found(s, asks, i), s, asks[i]);
    if row in Found(s, asks, i) {
      i := FoundWasFetched(s, asks, i, row);
    }
  }

  lemma {:induction false} FetchedIsFound(s: Settings, asks: seq<Ask>, i: nat, j: nat)
    requires i < j <= |asks| && Fetched(s, asks, i)
    ensures RowOf(asks[i]) in Found(s, asks, j)
  {
    if i < j - 1 {
      FetchedIsFound(s, asks, i, j - 1);
      FoundStays(s, asks, j - 1, RowOf(asks[i]));
    } else {
      FetchIsAdded(s, asks, i);
    }
  }

  lemma FoundStays(s: Settings, asks: seq<Ask>, j: nat, row: Row)
    requires j < |asks| && row in Found(s, asks, j)
    ensures row in Found(s, asks, j + 1)
  {
    RateAdds(Found(s, asks, j), s, asks[j]);
  }

  lemma FetchIsAdded(s: Settings, asks: seq<Ask>, j: nat)
    requires Fetched(s, asks, j)
    ensures RowOf(asks[j]) in Found(s, asks, j + 1)
  {
    RateAdds(Found(s, asks, j), s, asks[j]);
  }

  /** A newest stored row was fetched by some call, and no call fetched a newer one. */
  lemma CachedIsNewestFetch(s: Settings, asks: seq<Ask>, j: nat, row: Row) returns (i: nat)
    requires j < |asks| && Cached(Found(s, asks, j), asks[j].tie) == Some(row)
    ensures FetchedBy(s, asks, i, j, row)
    ensures forall k: nat :: k < j && Fetched(s, asks, k) ==> Stamp(asks[k]) <= row.fetchedAt
  {
    i := FoundWasFetched(s, asks, j, row);
    forall k: nat | k < j && Fetched(s, asks, k)
      ensures Stamp(asks[k]) <= row.fetchedAt
    {
      FetchedIsFound(s, asks, k, j);
    }
  }

  lemma NothingFetched(s: Settings, asks: seq<Ask>, j: nat)
    requires j <= |asks| && Found(s, asks, j) == []
    ensures forall i: nat :: i < j ==> !Fetched(s, asks, i)
  {
    forall i: nat | i < j && Fetched(s, asks, i)
      ensures false
    {
      FetchedIsFound(s, asks, i, j);
    }
  }

  /** Main result: in any run, the provider is asked exactly when no rate is pinned and the
      call is forced or every quote fetched so far is too old by its stamp. */
  lemma AskedIff(s: Settings, asks: seq<Ask>, j: nat)
    requires j < |asks|
    ensures StepAt(s, asks, j).asked <==>
      (s.pinned.None? && (asks[j].force
        || forall i: nat :: i < j && Fetched(s, asks, i) ==> asks[j].now - Stamp(asks[i]) >= s.maxAge))
  {
    var cached := Cached(Found(s, asks, j), asks[j].tie);
    if cached.Some? {
      var i := CachedIsNewestFetch(s, asks, j, cached.value);
    } else {
      NothingFetched(s, asks, j);
    }
  }

  /** Hence two fetches of which the second was not forced lie `maxAge` apart, less the lag. */
  lemma FetchesAreSpaced(s: Settings, asks: seq<Ask>, i: nat, j: nat)
    requires i < j && Fetched(s, asks, i) && Fetched(s, asks, j) && !asks[j].force
    ensures asks[j].now - asks[i].now >= s.maxAge - asks[i].lag
  {
    AskedIff(s, asks, j);
  }

  lemma StoredIsNear(rate: real)
    requires rate > 0.0
    ensures Stored(rate) >= 0.0 && -0.000000005 <= Stored(rate) - rate <= 0.000000005
  {
    HalfUpNear(rate * 100000000.0);
  }

  /** Main result: unless a rate is pinned, every rate a call is given was quoted by the
      provider, either in this call or, up to the stored decimals, less than the maximum
      age before it, and then no quote fetched before has a newer stamp. */
  lemma NoStaleRateIsUsed(s: Settings, asks: seq<Ask>, j: nat) returns (i: nat)
    requires j < |asks| && s.pinned.None? && StepAt(s, asks, j).answer.Quoted?
    ensures i <= j && Fetched(s, asks, i)
    ensures var value, quote := StepAt(s, asks, j).answer.value, Fetch(asks[i].reply).value;
      && quote > 0.0 && asks[i].reply == Payload(Some(quote))
      && (i == j ==> value == quote)
      && (i < j ==> -0.000000005 <= value - quote <= 0.000000005 && asks[j].now - asks[i].now < s.maxAge)
    ensures i < j ==> forall k: nat :: k < j && Fetched(s, asks, k) ==> Stamp(asks[k]) <= Stamp(asks[i])
  {
    if StepAt(s, asks, j).asked {
      i := j;
    } else {
      i := CachedIsNewestFetch(s, asks, j, Cached(Found(s, asks, j), asks[j].tie).value);
      StoredIsNear(Fetch(asks[i].reply).value);
    }
  }

  /** A pinned rate wins: every call of every run gets it, the provider is never asked, and
      nothing is stored. */
  lemma {:induction false} PinnedRateWins(s: Settings, asks: seq<Ask>, j: nat)
    requires s.pinned.Some? && j < |asks|
    ensures StepAt(s, asks, j) == Step([], Quoted(s.pinned.value), false)
  {
    if j > 0 {
      PinnedRateWins(s, asks, j - 1);
    }
  }

  /** Exactly when a call is refused, and with which error: staleness is reported when an
      unforced call finds quotes that are all too old. */
  lemma RefusedIff(s: Settings, asks: seq<Ask>, j: nat)
    requires j < |asks|
    ensures var step, failed := StepAt(s, asks, j), Fetch(asks[j].reply).None?;
      && (!step.answer.Quoted? <==> step.asked && failed)
      && (step.answer.Stale? <==> (step.asked && failed && !asks[j].force
                                   && exists i: nat :: i < j && Fetched(s, asks, i)))
  {
    var cached := Cached(Found(s, asks, j), asks[j].tie);
    if cached.Some? {
      var i := CachedIsNewestFetch(s, asks, j, cached.value);
    } else {
      NothingFetched(s, asks, j);
    }
  }
}
