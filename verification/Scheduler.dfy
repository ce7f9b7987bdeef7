/** The worker's periodic jobs, as values: one tick after another, with arbitrary durations
    and failures. */
module Scheduler {
  /** One execution of a job. */
  datatype Execution = Execution(start: real, finish: real, failed: bool)

  datatype Job = Job(interval: real, nextRunAt: real, failures: nat, runs: seq<Execution>)

  /** What a tick meets: the time since the last one, and how each job goes if it runs. */
  datatype Tick = Tick(idle: real, durations: seq<real>, fails: seq<bool>)

  predicate Due(j: Job, now: real) {
    now >= j.nextRunAt
  }

  /** A job that ran until `finish` is scheduled from then on, not from its start. */
  function Ran(j: Job, start: real, finish: real, failed: bool): Job {
    var failures := if failed then j.failures + 1 else 0;
    Job(j.interval, finish + j.interval, failures, j.runs + [Execution(start, finish, failed)])
  }

  datatype Clocked = Clocked(jobs: seq<Job>, now: real)

  /** The jobs from `i` on, in order; `due` is the instant the tick began. */
  function RunFrom(c: Clocked, i: nat, due: real, t: Tick): (c1: Clocked)
    requires |t.durations| == |t.fails| == |c.jobs|
    ensures |c1.jobs| == |c.jobs|
    decreases |c.jobs| - i
  {
    if i >= |c.jobs| then c
    else RunFrom(RunAt(c, i, due, t), i + 1, due, t)
  }

  function RunAt(c: Clocked, i: nat, due: real, t: Tick): Clocked
    requires |t.durations| == |t.fails| == |c.jobs| && i < |c.jobs|
  {
    if Due(c.jobs[i], due) then
      var finish := c.now + t.durations[i];
      Clocked(c.jobs[i := Ran(c.jobs[i], c.now, finish, t.fails[i])], finish)
    else c
  }

  function After(c: Clocked, t: Tick): Clocked
    requires |t.durations| == |t.fails| == |c.jobs|
  {
    RunFrom(c.(now := c.now + t.idle), 0, c.now + t.idle, t)
  }

  /** Time never goes back. */
  ghost predicate Possible(t: Tick, count: nat) {
    && |t.durations| == |t.fails| == count && t.idle >= 0.0
    && forall i :: 0 <= i < count ==> t.durations[i] >= 0.0
  }

  ghost predicate AllPossible(ts: seq<Tick>, count: nat) {
    forall i :: 0 <= i < |ts| ==> Possible(ts[i], count)
  }

  function Play(c: Clocked, ts: seq<Tick>): (c1: Clocked)
    requires forall i :: 0 <= i < |ts| ==> |ts[i].durations| == |ts[i].fails| == |c.jobs|
    ensures |c1.jobs| == |c.jobs|
    decreases ts
  {
    if ts == [] then c else Play(After(c, ts[0]), ts[1..])
  }

  /** How many of the last executions in a row failed. */
  function Streak(runs: seq<Execution>): nat {
    if runs == [] || !runs[|runs| - 1].failed then 0 else 1 + Streak(runs[..|runs| - 1])
  }

  ghost predicate Spaced(runs: seq<Execution>, interval: real) {
    && (forall k :: 0 <= k < |runs| ==> runs[k].start <= runs[k].finish)
    && (forall k :: 0 < k < |runs| ==> runs[k].start >= runs[k - 1].finish + interval)
  }

  /** What every job keeps. */
  ghost predicate Kept(j: Job) {
    && Spaced(j.runs, j.interval)
    && j.failures == Streak(j.runs)
    && (j.runs != [] ==> j.nextRunAt == j.runs[|j.runs| - 1].finish + j.interval)
  }

  lemma RanIsKept(j: Job, start: real, finish: real, failed: bool)
    requires Kept(j) && start <= finish && start >= j.nextRunAt
    ensures Kept(Ran(j, start, finish, failed))
  {
    var run := Execution(start, finish, failed);
    assert (j.runs + [run])[..|j.runs|] == j.runs;
  }

  lemma RunAtKeeps(c: Clocked, i: nat, due: real, t: Tick)
    requires Possible(t, |c.jobs|) && i < |c.jobs| && c.now >= due && Kept(c.jobs[i])
    ensures var c1 := RunAt(c, i, due, t);
      && |c1.jobs| == |c.jobs| && c1.now >= c.now
      && (forall k :: 0 <= k < |c.jobs| && k != i ==> c1.jobs[k] == c.jobs[k])
      && MovedOn(c.jobs[i], c1.jobs[i], due)
  {
    if Due(c.jobs[i], due) {
      RanIsKept(c.jobs[i], c.now, c.now + t.durations[i], t.fails[i]);
    }
  }

  /** The job has run once if it was due, and not otherwise. */
  ghost predicate MovedOn(j: Job, j1: Job, due: real) {
    && Kept(j1) && j1.interval == j.interval && j.runs <= j1.runs
    && |j1.runs| == |j.runs| + (if due >= j.nextRunAt then 1 else 0)
  }

  /** Within a tick, each job from `i` on that was due when the tick began runs exactly once,
      whatever the jobs before it do; the others do not run. */
  lemma {:induction false} RunFromKeeps(c: Clocked, i: nat, due: real, t: Tick)
    requires Possible(t, |c.jobs|) && i <= |c.jobs| && c.now >= due
    requires forall k :: i <= k < |c.jobs| ==> Kept(c.jobs[k])
    ensures var c1 := RunFrom(c, i, due, t);
      && |c1.jobs| == |c.jobs| && c1.now >= c.now
      && (forall k :: 0 <= k < i ==> c1.jobs[k] == c.jobs[k])
      && (forall k :: i <= k < |c.jobs| ==> MovedOn(c.jobs[k], c1.jobs[k], due))
    decreases |c.jobs| - i
  {
    if i < |c.jobs| {
      RunAtKeeps(c, i, due, t);
      RunFromKeeps(RunAt(c, i, due, t), i + 1, due, t);
    }
  }

  ghost predicate AllKept(jobs: seq<Job>) {
    forall k :: 0 <= k < |jobs| ==> Kept(jobs[k])
  }

  ghost predicate SameIntervals(a: seq<Job>, b: seq<Job>) {
    |a| == |b| && forall k :: 0 <= k < |a| ==> a[k].interval == b[k].interval
  }

  lemma AfterKeeps(c: Clocked, t: Tick)
    requires Possible(t, |c.jobs|) && AllKept(c.jobs)
    ensures AllKept(After(c, t).jobs) && SameIntervals(After(c, t).jobs, c.jobs)
  {
    RunFromKeeps(c.(now := c.now + t.idle), 0, c.now + t.idle, t);
  }

  lemma {:induction false} PlayKeeps(c: Clocked, ts: seq<Tick>)
    requires AllPossible(ts, |c.jobs|) && AllKept(c.jobs)
    ensures AllKept(Play(c, ts).jobs) && SameIntervals(Play(c, ts).jobs, c.jobs)
    decreases ts
  {
    if ts != [] {
      assert Possible(ts[0], |c.jobs|);
      AfterKeeps(c, ts[0]);
      assert AllPossible(ts[1..], |c.jobs|);
      PlayKeeps(After(c, ts[0]), ts[1..]);
    }
  }

  /** Main result: over any ticks, a job starts again no sooner than its interval after it
      last finished, however long it or the others take, and its failure counter is the
      length of its trailing streak of failures. */
  lemma JobsAreSpaced(c: Clocked, ts: seq<Tick>, k: nat)
    requires AllPossible(ts, |c.jobs|) && k < |c.jobs|
    requires forall i :: 0 <= i < |c.jobs| ==> c.jobs[i].runs == [] && c.jobs[i].failures == 0
    ensures var j := Play(c, ts).jobs[k];
      Spaced(j.runs, c.jobs[k].interval) && j.failures == Streak(j.runs)
  {
    PlayKeeps(c, ts);
  }
}
