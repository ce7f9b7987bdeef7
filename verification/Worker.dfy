/** The worker in the source's own form: job objects whose fields a tick updates. */
module Worker {
  import opened Scheduler

  class PeriodicJob {
    const interval: real
    var nextRunAt: real
    var running: bool
    var failures: nat
    ghost var runs: seq<Execution>

    constructor (interval: real, nextRunAt: real)
      ensures AsJob() == Job(interval, nextRunAt, 0, []) && !running
    {
      this.interval, this.nextRunAt := interval, nextRunAt;
      running, failures, runs := false, 0, [];
    }

    ghost function AsJob(): Job
      reads this
    {
      Job(interval, nextRunAt, failures, runs)
    }

    predicate IsDue(now: real)
      reads this
    {
      !running && now >= nextRunAt
    }

    method ScheduleNext(now: real)
      modifies this`nextRunAt
      ensures nextRunAt == now + interval
    {
      nextRunAt := now + interval;
    }
  }

  class Worker {
    const jobs: seq<PeriodicJob>
    var clock: real

    constructor (jobs: seq<PeriodicJob>, clock: real)
      ensures this.jobs == jobs && this.clock == clock
    {
      this.jobs, this.clock := jobs, clock;
    }

    ghost function AsJobs(): (s: seq<Job>)
      reads this, jobs
      ensures |s| == |jobs| && forall k :: 0 <= k < |jobs| ==> s[k] == jobs[k].AsJob()
    {
      seq(|jobs|, k requires 0 <= k < |jobs| reads jobs => jobs[k].AsJob())
    }

    ghost predicate Idle()
      reads this, jobs
    {
      && (forall i, k :: 0 <= i < k < |jobs| ==> jobs[i] != jobs[k])
      && (forall k :: 0 <= k < |jobs| ==> !jobs[k].running)
    }

    /** Runs job `i` if it was due. */
    method RunIfDue(i: nat, due: real, t: Tick) returns (ran: bool)
      requires Idle() && Possible(t, |jobs|) && i < |jobs|
      modifies this`clock, jobs[i]
      ensures Idle() && ran == Due(old(jobs[i].AsJob()), due)
      ensures Clocked(AsJobs(), clock) == RunAt(old(Clocked(AsJobs(), clock)), i, due, t)
    {
      ran := jobs[i].IsDue(due);
      if ran {
        RunJob(i, due, t);
      }
    }

    /** Runs job `i`, which is due. */
    method RunJob(i: nat, due: real, t: Tick)
      requires Idle() && Possible(t, |jobs|) && i < |jobs| && Due(jobs[i].AsJob(), due)
      modifies this`clock, jobs[i]
      ensures Idle()
      ensures Clocked(AsJobs(), clock) == RunAt(old(Clocked(AsJobs(), clock)), i, due, t)
    {
      var job := jobs[i];
      job.running := true;
      ghost var start := clock;
      clock := clock + t.durations[i];
      if t.fails[i] {
        job.failures := job.failures + 1;
      } else {
        job.failures := 0;
      }
      job.runs := job.runs + [Execution(start, clock, t.fails[i])];
      job.running := false;
      job.ScheduleNext(clock);
    }

    /** Runs whatever was due when the tick began; `ran` lists the jobs that ran. */
    method RunDue(t: Tick) returns (ran: seq<nat>)
      requires Idle() && Possible(t, |jobs|)
      modifies this`clock, jobs
      ensures Idle()
      ensures Clocked(AsJobs(), clock) == After(old(Clocked(AsJobs(), clock)), t)
      ensures RanAre(ran, old(AsJobs()), |jobs|, old(clock) + t.idle)
    {
      ghost var first := AsJobs();
      clock := clock + t.idle;
      assert AsJobs() == first;
      ran := [];
      var now := clock;
      ghost var target := RunFrom(Clocked(AsJobs(), clock), 0, now, t);
      for i := 0 to |jobs|
        invariant Idle()
        invariant RunFrom(Clocked(AsJobs(), clock), i, now, t) == target
        invariant forall k :: i <= k < |jobs| ==> AsJobs()[k] == first[k]
        invariant RanAre(ran, first, i, now)
      {
        RanMore(ran, first, i, now);
        var did := RunIfDue(i, now, t);
        if did {
          ran := ran + [i];
        }
      }
    }
  }

  /** `ran` lists, in order, exactly those of the first `i` jobs that were due. */
  ghost predicate RanAre(ran: seq<nat>, jobs: seq<Job>, i: nat, due: real)
    requires i <= |jobs|
  {
    && (forall k: nat :: k in ran <==> k < i && Due(jobs[k], due))
    && (forall j, k :: 0 <= j < k < |ran| ==> ran[j] < ran[k])
  }

  lemma RanMore(ran: seq<nat>, jobs: seq<Job>, i: nat, due: real)
    requires i < |jobs| && RanAre(ran, jobs, i, due)
    ensures RanAre(if Due(jobs[i], due) then ran + [i] else ran, jobs, i + 1, due)
  {
    forall j | 0 <= j < |ran|
      ensures ran[j] < i
    {
      assert ran[j] in ran;
    }
  }
}
