/** The retry loop every upstream call goes through. */
module Retry {
  import opened Wrappers

  datatype Settings = Settings(maxAttempts: int, base: real, maxDelay: real, jitter: real)

  predicate Sane(s: Settings) {
    s.base >= 0.0 && s.maxDelay >= 0.0 && s.jitter >= 0.0
  }

  datatype Body = Empty | Json | NotJson

  /** What one attempt meets: a transport fault or a response.  A Retry-After is a
      non-negative number of seconds (section 10.2.3 of RFC 9110). */
  datatype Reply = Faulted | Response(status: int, body: Body, retryAfter: Option<real>)

  datatype Outcome = Decoded | Nothing | ApiError(retryable: bool) | RateLimitedError | AuthError

  const RETRYABLE_STATUS := {408, 425, 429, 500, 502, 503, 504}

  /** The methods that are safe to send again (section 9.2.2 of RFC 9110), a request with an
      idempotency key, or what the caller says. */
  predicate MayRetry(verb: string, hasKey: bool, allowRetry: Option<bool>) {
    if allowRetry.Some? then allowRetry.value else verb in {"GET", "HEAD", "OPTIONS"} || hasKey
  }

  predicate Unauthorized(r: Reply, expected: set<int>) {
    r.Response? && r.status == 401 && r.status !in expected
  }

  predicate Transient(r: Reply, expected: set<int>) {
    r.Faulted? || (r.status !in expected && r.status in RETRYABLE_STATUS)
  }

  /** Whether attempt number `attempt` is followed by another one. */
  predicate GoesOn(s: Settings, r: Reply, attempt: int, refreshed: bool, mayRetry: bool, expected: set<int>) {
    mayRetry && if Unauthorized(r, expected) then !refreshed else Transient(r, expected) && attempt < s.maxAttempts
  }

  /** What the caller gets when `r` is the last reply. */
  function Verdict(r: Reply, expected: set<int>): Outcome {
    if r.Faulted? then ApiError(true)
    else if r.status in expected then
      if r.status == 204 || r.body.Empty? then Nothing else if r.body.Json? then Decoded else ApiError(false)
    else if r.status == 401 || r.status == 403 then AuthError
    else if r.status == 429 then RateLimitedError
    else ApiError(r.status in RETRYABLE_STATUS)
  }

  function Pow2(n: nat): (p: nat)
    ensures p >= 1
  {
    if n == 0 then 1 else 2 * Pow2(n - 1)
  }

  lemma {:induction false} Pow2Grows(m: nat, n: nat)
    requires m <= n
    ensures Pow2(m) <= Pow2(n)
  {
    if m < n {
      Pow2Grows(m, n - 1);
    }
  }

  function Lesser(a: real, b: real): real {
    if a <= b then a else b
  }

  datatype Delay = Delay(seconds: real, byServer: bool)

  /** `draw` is the random number, between -1 and 1, that the jitter is scaled by. */
  function BackoffDelay(s: Settings, attempt: nat, retryAfter: Option<real>, draw: real): Delay
    requires attempt >= 1
  {
    if retryAfter.Some? then Delay(Lesser(retryAfter.value, s.maxDelay), true)
    else Delay(WithJitter(Lesser(s.base * Pow2(attempt - 1) as real, s.maxDelay), s.jitter, draw), false)
  }

  function WithJitter(capped: real, share: real, draw: real): real {
    Jittered(capped, capped * share, draw)
  }

  function Jittered(capped: real, jitter: real, draw: real): real {
    if capped + jitter * draw < 0.0 then 0.0 else capped + jitter * draw
  }

  lemma JitterIsBounded(capped: real, jitter: real, draw: real)
    requires capped >= 0.0 && jitter >= 0.0 && -1.0 <= draw <= 1.0
    ensures 0.0 <= Jittered(capped, jitter, draw) <= capped + jitter
  {
    Scale(draw, 1.0, jitter);
    assert jitter * draw == draw * jitter;
  }

  /** The longest delay there can be, and what the formula may give after `attempt` attempts. */
  function Longest(s: Settings): real {
    s.maxDelay * (1.0 + s.jitter)
  }

  function Formula(s: Settings, attempt: nat): real
    requires attempt >= 1
  {
    (1.0 + s.jitter) * (s.base * Pow2(attempt - 1) as real)
  }

  lemma LongestCoversTheCap(s: Settings)
    requires Sane(s)
    ensures 0.0 <= s.maxDelay <= Longest(s)
  {
    Stretch(s.maxDelay, s.jitter);
  }

  lemma JitterWithin(capped: real, share: real, draw: real)
    requires capped >= 0.0 && share >= 0.0 && -1.0 <= draw <= 1.0
    ensures 0.0 <= WithJitter(capped, share, draw) <= capped * (1.0 + share)
  {
    Product(capped, share);
    JitterIsBounded(capped, capped * share, draw);
    Stretch(capped, share);
  }

  lemma CappedWithin(raw: real, cap: real, share: real, draw: real)
    requires raw >= 0.0 && cap >= 0.0 && share >= 0.0 && -1.0 <= draw <= 1.0
    ensures 0.0 <= WithJitter(Lesser(raw, cap), share, draw) <= cap * (1.0 + share)
    ensures WithJitter(Lesser(raw, cap), share, draw) <= (1.0 + share) * raw
  {
    var capped := Lesser(raw, cap);
    JitterWithin(capped, share, draw);
    Scale(capped, cap, 1.0 + share);
    Scale(capped, raw, 1.0 + share);
    Swap(raw, 1.0 + share);
  }

  lemma FormulaIsBounded(s: Settings, attempt: nat, draw: real)
    requires Sane(s) && attempt >= 1 && -1.0 <= draw <= 1.0
    ensures var seconds := BackoffDelay(s, attempt, None, draw).seconds;
      0.0 <= seconds <= Longest(s) && seconds <= Formula(s, attempt)
  {
    Product(s.base, Pow2(attempt - 1) as real);
    CappedWithin(s.base * Pow2(attempt - 1) as real, s.maxDelay, s.jitter, draw);
  }

  lemma Swap(a: real, b: real)
    ensures a * b == b * a
  {
  }

  /** A server's answer is obeyed but capped; the formula gives no more than it says. */
  lemma BackoffIsBounded(s: Settings, attempt: nat, retryAfter: Option<real>, draw: real)
    requires Sane(s) && attempt >= 1 && -1.0 <= draw <= 1.0
    requires retryAfter.Some? ==> retryAfter.value >= 0.0
    ensures var d := BackoffDelay(s, attempt, retryAfter, draw);
      && 0.0 <= d.seconds <= Longest(s)
      && d.byServer == retryAfter.Some?
      && (d.byServer ==> d.seconds <= s.maxDelay)
      && (d.byServer ==> d.seconds == retryAfter.value || (d.seconds == s.maxDelay && retryAfter.value > s.maxDelay))
      && (!d.byServer ==> d.seconds <= Formula(s, attempt))
  {
    LongestCoversTheCap(s);
    if retryAfter.None? {
      FormulaIsBounded(s, attempt, draw);
    }
  }

  /** Without jitter the formula starts at the base and doubles until it meets the cap. */
  lemma DelaysDouble(s: Settings, attempt: nat, draw: real)
    requires Sane(s) && s.jitter == 0.0 && attempt >= 1
    ensures var d := BackoffDelay(s, attempt, None, draw).seconds;
      var next := BackoffDelay(s, attempt + 1, None, draw).seconds;
      && (attempt == 1 ==> d == if s.base <= s.maxDelay then s.base else s.maxDelay)
      && next == (if 2.0 * d <= s.maxDelay then 2.0 * d else s.maxDelay)
  {
    var p := Pow2(attempt - 1) as real;
    assert Pow2(attempt) as real == 2.0 * p;
    Product(s.base, p);
    assert s.base * (2.0 * p) == 2.0 * (s.base * p);
    var raw := s.base * p;
    WithoutJitter(Lesser(raw, s.maxDelay), draw);
    WithoutJitter(Lesser(2.0 * raw, s.maxDelay), draw);
    assert BackoffDelay(s, attempt, None, draw).seconds == Lesser(raw, s.maxDelay);
    assert BackoffDelay(s, attempt + 1, None, draw).seconds == Lesser(2.0 * raw, s.maxDelay);
  }

  lemma WithoutJitter(capped: real, draw: real)
    requires capped >= 0.0
    ensures WithJitter(capped, 0.0, draw) == capped
  {
    assert capped * 0.0 == 0.0 && 0.0 * draw == 0.0;
  }

  /** Jitter moves a delay by at most its share, either way. */
  lemma JitterIsSymmetric(s: Settings, attempt: nat, draw: real)
    requires Sane(s) && s.jitter <= 1.0 && attempt >= 1 && -1.0 <= draw <= 1.0
    ensures var plain := BackoffDelay(s.(jitter := 0.0), attempt, None, draw).seconds;
      BackoffDelay(s, attempt, None, draw).seconds == plain + (plain * s.jitter) * draw
  {
    var raw := s.base * Pow2(attempt - 1) as real;
    Product(s.base, Pow2(attempt - 1) as real);
    var capped := Lesser(raw, s.maxDelay);
    WithoutJitter(capped, draw);
    JitterShare(capped, s.jitter, draw);
  }

  lemma JitterShare(capped: real, share: real, draw: real)
    requires capped >= 0.0 && 0.0 <= share <= 1.0 && -1.0 <= draw <= 1.0
    ensures WithJitter(capped, share, draw) == capped + (capped * share) * draw
  {
    Product(capped, share);
    AtMost(capped, share);
    Share(capped, capped * share, draw);
  }

  lemma AtMost(a: real, b: real)
    requires a >= 0.0 && b <= 1.0
    ensures a * b <= a
  {
    Product(a, 1.0 - b);
  }

  lemma Share(a: real, x: real, draw: real)
    requires 0.0 <= x <= a && -1.0 <= draw <= 1.0
    ensures a + x * draw >= 0.0
  {
    Scale(-1.0, draw, x);
  }

  lemma Product(a: real, b: real)
    requires a >= 0.0 && b >= 0.0
    ensures a * b >= 0.0
  {
  }

  lemma Stretch(a: real, j: real)
    requires a >= 0.0 && j >= 0.0
    ensures a * (1.0 + j) == a + a * j >= a
  {
  }

  lemma Scale(a: real, b: real, c: real)
    requires a <= b && c >= 0.0
    ensures a * c <= b * c
  {
  }

  /** The time slept by the back-off formula. */
  function FormulaTotal(delays: seq<Delay>): real {
    if delays == [] then 0.0
    else
      var last := delays[|delays| - 1];
      FormulaTotal(delays[..|delays| - 1]) + if last.byServer then 0.0 else last.seconds
  }

  function Attempts(s: Settings): (n: nat)
    ensures n >= 1 && n >= s.maxAttempts
  {
    if s.maxAttempts < 1 then 1 else s.maxAttempts
  }

  predicate SeenUnauthorized(replies: nat -> Reply, n: nat, expected: set<int>) {
    exists i: nat :: i < n && Unauthorized(replies(i), expected)
  }

  /** The attempt that met `replies(i)` is followed by another one. */
  predicate FollowedOn(s: Settings, replies: nat -> Reply, i: nat, mayRetry: bool, expected: set<int>) {
    GoesOn(s, replies(i), i + 1, SeenUnauthorized(replies, i, expected), mayRetry, expected)
  }

  /** The bound on formula back-off after the sleeps of the first `attempt` attempts. */
  function Budget(s: Settings, attempt: nat): real {
    (1.0 + s.jitter) * (s.base * (Pow2(attempt) - 1) as real)
  }

  lemma BudgetGrows(s: Settings, m: nat, n: nat)
    requires Sane(s) && m <= n
    ensures Budget(s, m) <= Budget(s, n)
  {
    Pow2Grows(m, n);
    Scale((Pow2(m) - 1) as real, (Pow2(n) - 1) as real, s.base);
    Scale(s.base * (Pow2(m) - 1) as real, s.base * (Pow2(n) - 1) as real, 1.0 + s.jitter);
  }

  lemma BudgetGains(s: Settings, attempt: nat)
    requires attempt >= 1
    ensures Budget(s, attempt - 1) + Formula(s, attempt) == Budget(s, attempt)
  {
    var p := Pow2(attempt - 1);
    assert Pow2(attempt) == 2 * p;
    Spread(s.base, (p - 1) as real, p as real);
    Spread(1.0 + s.jitter, s.base * (p - 1) as real, s.base * p as real);
  }

  lemma Spread(c: real, a: real, b: real)
    ensures c * a + c * b == c * (a + b)
  {
  }

  /** One sleep: after which attempt, what the server said, and the random draw. */
  datatype Sleep = Sleep(attempt: nat, retryAfter: Option<real>, draw: real)

  ghost predicate Usable(p: Sleep) {
    p.attempt >= 1 && -1.0 <= p.draw <= 1.0 && (p.retryAfter.Some? ==> p.retryAfter.value >= 0.0)
  }

  /** Sleeps after later and later attempts, the last of which is at most `last`. */
  ghost predicate Rising(sleeps: seq<Sleep>, last: nat) {
    && (forall i :: 0 <= i < |sleeps| ==> Usable(sleeps[i]) && sleeps[i].attempt <= last)
    && (forall i, j :: 0 <= i < j < |sleeps| ==> sleeps[i].attempt < sleeps[j].attempt)
  }

  function DelayOf(s: Settings, p: Sleep): Delay {
    if p.attempt == 0 then Delay(0.0, true) else BackoffDelay(s, p.attempt, p.retryAfter, p.draw)
  }

  /** However long the loop sleeps, each delay and the total of the formula are bounded. */
  lemma {:induction false} SleepsAreBounded(s: Settings, sleeps: seq<Sleep>, delays: seq<Delay>, last: nat)
    requires Sane(s) && Rising(sleeps, last) && |delays| == |sleeps|
    requires forall i :: 0 <= i < |sleeps| ==> delays[i] == DelayOf(s, sleeps[i])
    ensures forall i :: 0 <= i < |delays| ==> 0.0 <= delays[i].seconds <= Longest(s)
    ensures FormulaTotal(delays) <= Budget(s, last)
  {
    if sleeps == [] {
      BudgetGrows(s, 0, last);
    } else {
      var n := |sleeps| - 1;
      var p := sleeps[n];
      SleepsAreBounded(s, sleeps[..n], delays[..n], p.attempt - 1);
      assert forall i :: 0 <= i < n ==> delays[i] == delays[..n][i];
      BackoffIsBounded(s, p.attempt, p.retryAfter, p.draw);
      BudgetGains(s, p.attempt);
      BudgetGrows(s, p.attempt - 1, p.attempt);
      BudgetGrows(s, p.attempt, last);
    }
  }

  /** How the last reply decides what the caller gets. */
  ghost predicate Answered(outcome: Outcome, last: Reply, expected: set<int>) {
    && (outcome.Decoded? <==> last.Response? && last.status in expected && last.status != 204 && last.body.Json?)
    && (outcome.Nothing? <==> last.Response? && last.status in expected && (last.status == 204 || last.body.Empty?))
    && (outcome.AuthError? <==> last.Response? && last.status !in expected && last.status in {401, 403})
    && (outcome.RateLimitedError? <==> last.Response? && last.status !in expected && last.status == 429)
    && (outcome == ApiError(true) <==>
          last.Faulted? || (last.status !in expected && last.status in {408, 425, 500, 502, 503, 504}))
  }

  /** A first reply after which a call that may be repeated is repeated. */
  predicate GetsASecondTry(first: Reply, maxAttempts: int, expected: set<int>) {
    if first.Faulted? then maxAttempts >= 2
    else first.status !in expected
         && (first.status == 401 || (first.status in {408, 425, 429, 500, 502, 503, 504} && maxAttempts >= 2))
  }

  /** A transport fault, an expired token, or a status that says to come back. */
  predicate Repeatable(r: Reply, expected: set<int>) {
    r.Faulted? || (r.status !in expected && r.status in {401, 408, 425, 429, 500, 502, 503, 504})
  }

  /** The last reply, number `last` from 0, is not to be repeated, or the attempts are used up,
      or it is a second expired token. */
  ghost predicate Exhausted(replies: nat -> Reply, last: nat, maxAttempts: int, expected: set<int>) {
    || !Repeatable(replies(last), expected)
    || (!(replies(last).Response? && replies(last).status == 401) && last + 1 >= maxAttempts)
    || (replies(last).Response? && replies(last).status == 401
        && exists i: nat :: i < last && replies(i).Response? && replies(i).status == 401)
  }

  function RetryAfterOf(r: Reply): Option<real> {
    if r.Faulted? then None else r.retryAfter
  }

  /** Sleep `i` follows the attempt with its own number, obeys what that attempt's reply said,
      and draws afresh; the attempt is number `i` from 0, or one later after a refresh. */
  ghost predicate Follows(p: Sleep, i: nat, replies: nat -> Reply, draws: nat -> real, refreshes: nat) {
    && i + 1 <= p.attempt <= i + 1 + refreshes
    && p.retryAfter == RetryAfterOf(replies(p.attempt - 1)) && p.draw == draws(i)
  }

  ghost predicate AllFollow(sleeps: seq<Sleep>, replies: nat -> Reply, draws: nat -> real, refreshes: nat) {
    forall i :: 0 <= i < |sleeps| ==> Follows(sleeps[i], i, replies, draws, refreshes)
  }

  /** The sleeps so far: after rising attempts, each with what its reply said. */
  ghost predicate Journal(sleeps: seq<Sleep>, last: nat, replies: nat -> Reply, draws: nat -> real, refreshes: nat) {
    Rising(sleeps, last) && AllFollow(sleeps, replies, draws, refreshes)
  }

  lemma JournalMore(sleeps: seq<Sleep>, last: nat, replies: nat -> Reply, draws: nat -> real, refreshes: nat, p: Sleep)
    requires Journal(sleeps, last, replies, draws, refreshes) && Usable(p) && p.attempt > last
    requires Follows(p, |sleeps|, replies, draws, refreshes)
    ensures Journal(sleeps + [p], p.attempt, replies, draws, refreshes)
  {
  }

  lemma JournalRefreshed(sleeps: seq<Sleep>, last: nat, replies: nat -> Reply, draws: nat -> real)
    requires Journal(sleeps, last, replies, draws, 0)
    ensures Journal(sleeps, last, replies, draws, 1)
  {
  }

  /** The delay before attempt `k + 2`, which is sleep `i`. */
  ghost predicate IsDelay(s: Settings, d: Delay, k: nat, replies: nat -> Reply, draws: nat -> real, i: nat) {
    d == BackoffDelay(s, k + 1, RetryAfterOf(replies(k)), draws(i))
  }

  ghost predicate DelayFits(s: Settings, d: Delay, i: nat, replies: nat -> Reply, draws: nat -> real, refreshes: nat) {
    exists k: nat :: i <= k <= i + refreshes && IsDelay(s, d, k, replies, draws, i)
  }

  /** Each delay is the back-off of an attempt and its reply. */
  ghost predicate DelaysFit(s: Settings, delays: seq<Delay>, replies: nat -> Reply, draws: nat -> real,
                            refreshes: nat)
  {
    forall i :: 0 <= i < |delays| ==> DelayFits(s, delays[i], i, replies, draws, refreshes)
  }

  lemma SleepFits(s: Settings, p: Sleep, i: nat, replies: nat -> Reply, draws: nat -> real, refreshes: nat)
    requires Follows(p, i, replies, draws, refreshes)
    ensures DelayFits(s, DelayOf(s, p), i, replies, draws, refreshes)
  {
    assert IsDelay(s, DelayOf(s, p), p.attempt - 1, replies, draws, i);
  }

  lemma JournalFits(s: Settings, sleeps: seq<Sleep>, last: nat, delays: seq<Delay>,
                    replies: nat -> Reply, draws: nat -> real, refreshes: nat)
    requires Journal(sleeps, last, replies, draws, refreshes) && |delays| == |sleeps|
    requires forall i :: 0 <= i < |sleeps| ==> delays[i] == DelayOf(s, sleeps[i])
    ensures DelaysFit(s, delays, replies, draws, refreshes)
  {
    forall i | 0 <= i < |delays|
      ensures DelayFits(s, delays[i], i, replies, draws, refreshes)
    {
      SleepFits(s, sleeps[i], i, replies, draws, refreshes);
    }
  }

  /** What going on, and stopping, mean for the replies. */
  lemma LoopMeans(s: Settings, replies: nat -> Reply, last: nat, mayRetry: bool, expected: set<int>)
    requires forall i: nat :: i < last ==> FollowedOn(s, replies, i, mayRetry, expected)
    requires !FollowedOn(s, replies, last, mayRetry, expected)
    ensures forall i: nat :: i < last ==> Repeatable(replies(i), expected)
    ensures mayRetry ==> Exhausted(replies, last, s.maxAttempts, expected)
  {
    forall i: nat | i < last
      ensures Repeatable(replies(i), expected)
    {
      assert FollowedOn(s, replies, i, mayRetry, expected);
    }
  }

  /** What the loop does, whatever back-off it is given: it goes on exactly as `GoesOn` says, each
      attempt takes one token and leaves one record, numbered consecutively, and the
      attempts are one more than the sleeps and the refreshes together. */
  method RunAttempts(s: Settings, backoff: Sleep -> Delay, mayRetry: bool, expected: set<int>,
                     replies: nat -> Reply, draws: nat -> real)
    returns (outcome: Outcome, records: seq<nat>, tokens: nat, delays: seq<Delay>, refreshes: nat,
             ghost sleeps: seq<Sleep>, ghost last: nat)
    requires forall i: nat :: -1.0 <= draws(i) <= 1.0
    requires forall i: nat :: replies(i).Response? && replies(i).retryAfter.Some? ==> replies(i).retryAfter.value >= 0.0
    ensures tokens == |records| >= 1 && forall i :: 0 <= i < |records| ==> records[i] == i + 1
    ensures outcome == Verdict(replies(|records| - 1), expected)
    ensures forall i: nat :: i < |records| - 1 ==> FollowedOn(s, replies, i, mayRetry, expected)
    ensures !FollowedOn(s, replies, |records| - 1, mayRetry, expected)
    ensures |records| == 1 + |delays| + refreshes
    ensures refreshes <= 1 && |delays| <= Attempts(s) - 1 && |records| <= Attempts(s) + 1
    ensures !mayRetry ==> |records| == 1 && delays == [] && refreshes == 0
    ensures |sleeps| == |delays| && forall i :: 0 <= i < |sleeps| ==> delays[i] == backoff(sleeps[i])
    ensures Journal(sleeps, last, replies, draws, refreshes) && last <= Attempts(s) - 1
  {
    var attempt, refreshed := 0, false;
    records, tokens, delays, refreshes := [], 0, [], 0;
    sleeps, last := [], 0;
    while true
      invariant tokens == |records| == attempt == |delays| + refreshes
      invariant forall i :: 0 <= i < |records| ==> records[i] == i + 1
      invariant refreshes == (if refreshed then 1 else 0)
      invariant refreshed <==> SeenUnauthorized(replies, attempt, expected)
      invariant forall i: nat :: i < attempt ==> FollowedOn(s, replies, i, mayRetry, expected)
      invariant attempt <= Attempts(s) && |delays| <= Attempts(s) - 1
      invariant attempt > 0 ==> mayRetry
      invariant |sleeps| == |delays| && forall i :: 0 <= i < |sleeps| ==> delays[i] == backoff(sleeps[i])
      invariant Journal(sleeps, last, replies, draws, refreshes) && last <= attempt && last <= Attempts(s) - 1
      decreases Attempts(s) - attempt, !refreshed
    {
      attempt := attempt + 1;
      tokens := tokens + 1;
      records := records + [attempt];
      var reply := replies(attempt - 1);
      var retryAfter := None;
      if reply.Faulted? {
        if !mayRetry || attempt >= s.maxAttempts {
          return ApiError(true), records, tokens, delays, refreshes, sleeps, last;
        }
      } else {
        if reply.status in expected {
          outcome := if reply.status == 204 || reply.body.Empty? then Nothing
                     else if reply.body.Json? then Decoded else ApiError(false);
          return;
        }
        if reply.status == 401 || reply.status == 403 {
          if reply.status == 401 && !refreshed && mayRetry {
            JournalRefreshed(sleeps, last, replies, draws);
            refreshed, refreshes := true, 1;
            continue;
          }
          return AuthError, records, tokens, delays, refreshes, sleeps, last;
        }
        var retryable := reply.status in RETRYABLE_STATUS;
        if !retryable || !mayRetry || attempt >= s.maxAttempts {
          outcome := if reply.status == 429 then RateLimitedError else ApiError(retryable);
          return;
        }
        retryAfter := reply.retryAfter;
      }
      var sleep := Sleep(attempt, retryAfter, draws(|delays|));
      JournalMore(sleeps, last, replies, draws, refreshes, sleep);
      sleeps, last := sleeps + [sleep], attempt;
      delays := delays + [backoff(sleep)];
    }
  }

  /** Every request ends.  It goes on exactly as `GoesOn` says; each attempt takes one token
      and leaves one record, numbered consecutively; the attempts are one more than the
      sleeps and the refreshes together; every sleep, and the total of the formula, is
      bounded. */
  method Request(s: Settings, verb: string, hasKey: bool, allowRetry: Option<bool>, expected: set<int>,
                 replies: nat -> Reply, draws: nat -> real)
    returns (outcome: Outcome, records: seq<nat>, tokens: nat, delays: seq<Delay>, refreshes: nat)
    requires Sane(s) && forall i: nat :: -1.0 <= draws(i) <= 1.0
    requires forall i: nat :: replies(i).Response? && replies(i).retryAfter.Some? ==> replies(i).retryAfter.value >= 0.0
    ensures tokens == |records| >= 1 && forall i :: 0 <= i < |records| ==> records[i] == i + 1
    ensures outcome == Verdict(replies(|records| - 1), expected)
    ensures var may := MayRetry(verb, hasKey, allowRetry);
      && (forall i: nat :: i < |records| - 1 ==> FollowedOn(s, replies, i, may, expected))
      && !FollowedOn(s, replies, |records| - 1, may, expected)
    ensures |records| == 1 + |delays| + refreshes
    ensures refreshes <= 1 && |delays| <= Attempts(s) - 1 && |records| <= Attempts(s) + 1
    ensures !MayRetry(verb, hasKey, allowRetry) ==> |records| == 1 && delays == [] && refreshes == 0
    ensures forall i :: 0 <= i < |delays| ==> 0.0 <= delays[i].seconds <= Longest(s)
    ensures FormulaTotal(delays) <= Budget(s, Attempts(s) - 1)
    ensures !hasKey && allowRetry.None? && verb !in {"GET", "HEAD", "OPTIONS"} ==> |records| == 1
    ensures allowRetry == Some(false) ==> |records| == 1
    ensures allowRetry == Some(true) || (allowRetry.None? && (hasKey || verb in {"GET", "HEAD", "OPTIONS"})) ==>
      GetsASecondTry(replies(0), s.maxAttempts, expected) ==> |records| >= 2
    ensures DelaysFit(s, delays, replies, draws, refreshes)
    ensures Answered(outcome, replies(|records| - 1), expected)
    ensures forall i: nat :: i < |records| - 1 ==> Repeatable(replies(i), expected)
    ensures allowRetry == Some(true) || (allowRetry.None? && (hasKey || verb in {"GET", "HEAD", "OPTIONS"})) ==>
      Exhausted(replies, |records| - 1, s.maxAttempts, expected)
  {
    ghost var sleeps, last;
    outcome, records, tokens, delays, refreshes, sleeps, last :=
      RunAttempts(s, p => DelayOf(s, p), MayRetry(verb, hasKey, allowRetry), expected, replies, draws);
    LoopMeans(s, replies, |records| - 1, MayRetry(verb, hasKey, allowRetry), expected);
    SleepsAreBounded(s, sleeps, delays, last);
    JournalFits(s, sleeps, last, delays, replies, draws, refreshes);
    BudgetGrows(s, last, Attempts(s) - 1);
  }
}
