/** The bounded queue of deferred link jobs and its exponential backoff.  Times are milliseconds;
    every reading of the clock is a parameter. */
module RetryQueue {
  import opened Filesystem
  import opened Names

  const MAX_RETRY_ATTEMPTS: nat := 3
  const BASE_BACKOFF_MS: nat := 100
  const QUEUE_CAPACITY: nat := 4_096

  datatype RetryJob = RetryJob(target: WorkPath, slot: Path, attempts: nat, retryAfter: nat) {
    predicate IsReady(now: nat) {
      now >= retryAfter
    }

    /** The job for the next attempt, or None when the job is to be dropped. */
    function NextAttempt(now: nat): Option<RetryJob> {
      var next := attempts + 1;
      if next >= MAX_RETRY_ATTEMPTS then None
      else Some(RetryJob(target, slot, next, now + BackoffFor(next)))
    }
  }

  function NewJob(target: WorkPath, slot: Path, now: nat): RetryJob {
    RetryJob(target, slot, 0, now + BackoffFor(0))
  }

  function Pow2(n: nat): nat {
    if n == 0 then 1 else 2 * Pow2(n - 1)
  }

  function BackoffFor(attempt: nat): nat {
    BASE_BACKOFF_MS * Pow2(attempt)
  }

  /** A job first deferred at `start`, and each of its later attempts made when it was due or later. */
  ghost predicate Chain(jobs: seq<RetryJob>, start: nat, times: seq<nat>) {
    && |jobs| == |times| && |jobs| > 0
    && times[0] == start && jobs[0] == NewJob(jobs[0].target, jobs[0].slot, start)
    && forall i :: 0 < i < |jobs| ==> Follows(jobs[i - 1], jobs[i], times[i])
  }

  predicate Follows(job: RetryJob, next: RetryJob, now: nat) {
    job.IsReady(now) && job.NextAttempt(now) == Some(next)
  }

  lemma {:induction false} AttemptsCount(jobs: seq<RetryJob>, start: nat, times: seq<nat>, k: nat)
    requires Chain(jobs, start, times) && k < |jobs|
    ensures jobs[k].attempts == k < MAX_RETRY_ATTEMPTS
  {
    if k > 0 {
      AttemptsCount(jobs, start, times, k - 1);
      assert Follows(jobs[k - 1], jobs[k], times[k]);
    }
  }

  /** No job is tried more than three times, and attempt k is due no earlier than
      100 * (2^(k+1) - 1) ms after the job was first deferred. */
  lemma {:induction false} ChainIsBounded(jobs: seq<RetryJob>, start: nat, times: seq<nat>, k: nat)
    requires Chain(jobs, start, times) && k < |jobs|
    ensures jobs[k].attempts == k < 3
    ensures jobs[k].target == jobs[0].target && jobs[k].slot == jobs[0].slot
    ensures jobs[k].retryAfter >= start + 100 * (Pow2(k + 1) - 1)
    ensures |jobs| <= 3
  {
    if k > 0 {
      ChainIsBounded(jobs, start, times, k - 1);
      assert Follows(jobs[k - 1], jobs[k], times[k]);
      assert Pow2(k + 1) == 2 * Pow2(k);
    } else {
      assert Pow2(1) == 2 * Pow2(0);
    }
    if |jobs| > MAX_RETRY_ATTEMPTS {
      AttemptsCount(jobs, start, times, MAX_RETRY_ATTEMPTS);
    }
  }

  /** The delay before attempt k is 100, 200 and 400 ms, counted from the moment the job is made;
      a job is ready exactly from its due time on. */
  lemma DelaysAre(job: RetryJob, now: nat)
    ensures NewJob(job.target, job.slot, now) == RetryJob(job.target, job.slot, 0, now + 100)
    ensures job.IsReady(now) <==> job.retryAfter <= now
    ensures job.attempts == 0 ==> job.NextAttempt(now) == Some(RetryJob(job.target, job.slot, 1, now + 200))
    ensures job.attempts == 1 ==> job.NextAttempt(now) == Some(RetryJob(job.target, job.slot, 2, now + 400))
    ensures job.attempts >= 2 ==> job.NextAttempt(now) == None
  {
    assert Pow2(0) == 1;
    assert Pow2(1) == 2 * Pow2(0);
    assert Pow2(2) == 2 * Pow2(1);
  }

  /** Nothing but the third attempt ends a chain: one of fewer jobs goes on with any attempt that is
      made when the last job is due or later. */
  lemma ChainGoesOn(jobs: seq<RetryJob>, start: nat, times: seq<nat>, now: nat) returns (next: RetryJob)
    requires Chain(jobs, start, times) && |jobs| < 3 && now >= jobs[|jobs| - 1].retryAfter
    ensures Chain(jobs + [next], start, times + [now])
    ensures next.retryAfter == now + (if |jobs| == 1 then 200 else 400)
  {
    var last := jobs[|jobs| - 1];
    AttemptsCount(jobs, start, times, |jobs| - 1);
    DelaysAre(last, now);
    next := last.NextAttempt(now).value;
    var all, ts := jobs + [next], times + [now];
    forall i | 0 < i < |all| ensures Follows(all[i - 1], all[i], ts[i]) {
      if i < |jobs| {
        assert Follows(jobs[i - 1], jobs[i], times[i]);
      }
    }
  }

  // ─── The queue ────────────────────────────────────────────────────────────

  /** The jobs, in order, whose readiness at their reading of the clock is `ready`. */
  function Select(jobs: seq<RetryJob>, clock: seq<nat>, ready: bool): (r: seq<RetryJob>)
    requires |clock| == |jobs|
    ensures |r| <= |jobs|
  {
    if jobs == [] then []
    else
      var last := |jobs| - 1;
      Select(jobs[..last], clock[..last], ready)
      + if jobs[last].IsReady(clock[last]) == ready then [jobs[last]] else []
  }

  datatype EnqueueResult = Enqueued | QueueFull(target: WorkPath)

  class DeferRetryQueue {
    var jobs: seq<RetryJob>

    ghost predicate Valid()
      reads this
    {
      |jobs| <= QUEUE_CAPACITY
    }

    constructor ()
      ensures Valid() && jobs == []
    {
      jobs := [];
    }

    method Enqueue(job: RetryJob) returns (r: EnqueueResult)
      requires Valid()
      modifies this
      ensures Valid()
      ensures r == (if |old(jobs)| < 4_096 then Enqueued else QueueFull(job.target))
      ensures jobs == if |old(jobs)| < 4_096 then old(jobs) + [job] else old(jobs)
    {
      if |jobs| < QUEUE_CAPACITY {
        jobs := jobs + [job];
        r := Enqueued;
      } else {
        r := QueueFull(job.target);
      }
    }

    /** `clock[i]` is the reading at which job `i` is looked at. */
    method DrainReady(clock: seq<nat>) returns (ready: seq<RetryJob>)
      requires Valid() && |clock| == |jobs|
      modifies this
      ensures Valid()
      ensures ready == Select(old(jobs), clock, true)
      ensures jobs == Select(old(jobs), clock, false)
    {
      ghost var all := jobs;
      var requeue: seq<RetryJob> := [];
      ready := [];
      var i := 0;
      while |jobs| > 0
        invariant i <= |all| && jobs == all[i..]
        invariant ready == Select(all[..i], clock[..i], true)
        invariant requeue == Select(all[..i], clock[..i], false)
        decreases |jobs|
      {
        var job := jobs[0];
        jobs := jobs[1..];
        assert all[..i + 1][..i] == all[..i] && clock[..i + 1][..i] == clock[..i];
        if job.IsReady(clock[i]) {
          ready := ready + [job];
        } else {
          requeue := requeue + [job];
        }
        i := i + 1;
      }
      assert all[..i] == all && clock[..i] == clock;
      for n := 0 to |requeue|
        invariant jobs == requeue[..n]
      {
        if |jobs| < QUEUE_CAPACITY {
          jobs := jobs + [requeue[n]];
        }
      }
    }
  }

  lemma SelectNext(jobs: seq<RetryJob>, clock: seq<nat>)
    requires |clock| == |jobs|
    ensures jobs == [] ==> Select(jobs, clock, true) == [] && Select(jobs, clock, false) == []
    ensures jobs != [] ==>
              var last := |jobs| - 1;
              var x := if jobs[last].IsReady(clock[last]) then [jobs[last]] else [];
              var y := if jobs[last].IsReady(clock[last]) then [] else [jobs[last]];
              && Select(jobs, clock, true) == Select(jobs[..last], clock[..last], true) + x
              && Select(jobs, clock, false) == Select(jobs[..last], clock[..last], false) + y
  {
  }

  lemma AddOne(all: seq<RetryJob>, job: RetryJob, ready: seq<RetryJob>, kept: seq<RetryJob>)
    requires multiset(all) == multiset(ready) + multiset(kept)
    ensures multiset(all + [job]) == multiset(ready + [job]) + multiset(kept + [])
    ensures multiset(all + [job]) == multiset(ready + []) + multiset(kept + [job])
  {
    assert ready + [] == ready && kept + [] == kept;
    assert multiset(ready + [job]) + multiset(kept) == (multiset(ready) + multiset(kept)) + multiset{job};
    assert multiset(ready) + multiset(kept + [job]) == (multiset(ready) + multiset(kept)) + multiset{job};
  }

  /** Draining splits the queue: every job is handed out or kept, none twice and none lost. */
  lemma {:induction false} DrainPartitions(jobs: seq<RetryJob>, clock: seq<nat>)
    requires |clock| == |jobs|
    ensures multiset(jobs) == multiset(Select(jobs, clock, true)) + multiset(Select(jobs, clock, false))
  {
    hide Select;
    SelectNext(jobs, clock);
    if jobs != [] {
      var last := |jobs| - 1;
      DrainPartitions(jobs[..last], clock[..last]);
      AddOne(jobs[..last], jobs[last], Select(jobs[..last], clock[..last], true), Select(jobs[..last], clock[..last], false));
      assert jobs == jobs[..last] + [jobs[last]];
    }
  }

  /** Both halves keep the order of the queue: `at` lists, in increasing order, where their jobs
      stood, and the jobs that stood there are exactly those ready or not. */
  lemma {:induction false} DrainIsStable(jobs: seq<RetryJob>, clock: seq<nat>, ready: bool) returns (at: seq<nat>)
    requires |clock| == |jobs|
    ensures |at| == |Select(jobs, clock, ready)|
    ensures forall n :: 0 <= n < |at| ==> at[n] < |jobs| && Select(jobs, clock, ready)[n] == jobs[at[n]]
    ensures forall m, n :: 0 <= m < n < |at| ==> at[m] < at[n]
    ensures forall i: nat :: i < |jobs| ==> (i in at <==> (jobs[i].retryAfter <= clock[i]) == ready)
  {
    at := [];
    if jobs != [] {
      var last := |jobs| - 1;
      at := DrainIsStable(jobs[..last], clock[..last], ready);
      assert forall i: nat :: i < last ==> jobs[..last][i] == jobs[i] && clock[..last][i] == clock[i];
      if jobs[last].IsReady(clock[last]) == ready {
        at := at + [last];
      }
    }
  }
}
