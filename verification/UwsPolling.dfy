/** Waiting for a job by polling the job store. */
module UwsPolling {
  import opened Wrappers
  import opened UwsModel

  function Pow(b: real, k: nat): (p: real)
    requires b > 0.0
    ensures p > 0.0
  {
    if k == 0 then 1.0 else Pow(b, k - 1) * b
  }

  function Min(a: real, b: real): real { if a < b then a else b }

  /** The delay before the k-th request, in seconds. */
  function Delay(k: nat): real { Min(0.1 * Pow(1.5, k), 5.0) }

  function TotalDelay(n: nat): (t: real)
    ensures t >= 0.0
  {
    if n == 0 then 0.0 else TotalDelay(n - 1) + Delay(n - 1)
  }

  lemma {:induction false} NextDelay(k: nat)
    ensures Min(Delay(k) * 1.5, 5.0) == Delay(k + 1) && Delay(k) >= 0.1
    ensures Delay(0) == 0.1 && Delay(k + 1) <= 5.0
    ensures Delay(k + 1) == Delay(k) * 1.5 || (Delay(k + 1) == 5.0 && Delay(k) * 1.5 >= 5.0)
  {
    PowGrows(k);
    assert Pow(1.5, k + 1) == Pow(1.5, k) * 1.5;
  }

  lemma {:induction false} PowGrows(k: nat)
    ensures Pow(1.5, k) >= 1.0
  {
    if k > 0 {
      PowGrows(k - 1);
    }
  }

  lemma {:induction false} PowAtLeast(k: nat)
    requires k >= 10
    ensures Pow(1.5, k) >= 50.0
  {
    if k == 10 {
      assert Pow(1.5, 2) == 2.25;
      assert Pow(1.5, 4) == Pow(1.5, 2) * 1.5 * 1.5;
      assert Pow(1.5, 6) == Pow(1.5, 4) * 1.5 * 1.5;
      assert Pow(1.5, 8) == Pow(1.5, 6) * 1.5 * 1.5;
      assert Pow(1.5, 10) == Pow(1.5, 8) * 1.5 * 1.5;
    } else {
      PowAtLeast(k - 1);
    }
  }

  /** From the eleventh one on, the delays are five seconds. */
  lemma {:induction false} RequestsInTime(n: nat)
    ensures n > 10 ==> TotalDelay(n) >= 5.0 * (n - 10) as real
  {
    if n > 10 {
      RequestsInTime(n - 1);
      PowAtLeast(n - 1);
    }
  }

  /** `_wait_for_job`. Reading the job for the n-th time takes `latency(n)` seconds and gives
    `answers(n)`; None stands for `UnknownJobError`. What others do to the job meanwhile is in
    these. Also returned are the number of requests, whether the time was up, and the job
    as it was polled last. */
  method WaitForJob(job: Job, untilNot: set<Phase>, timeout: real, answers: nat -> Option<Job>, latency: nat -> real)
    returns (r: Option<Job>, n: nat, timedOut: bool, polled: Job)
    requires forall k :: latency(k) >= 0.0
    ensures n > 0 && r == answers(n - 1)
    ensures timeout >= 0.0 ==> 5.0 * (n - 11) as real <= timeout
    ensures r.Some? && !timedOut ==> polled.phase !in untilNot
    ensures polled == job || exists k: nat :: k < n && answers(k) == Some(polled)
    ensures job.phase !in untilNot ==> n == 1 && !timedOut
    ensures timedOut ==> polled.phase in untilNot && TotalDelay(n) + TotalLatency(latency, n) > timeout
  {
    var delay := 0.1;
    var elapsed := 0.0;
    polled := job;
    timedOut := false;
    n := 0;
    while polled.phase in untilNot
      invariant delay == Delay(n) && (n == 0 ==> polled == job) && (n > 0 ==> job.phase in untilNot)
      invariant elapsed == TotalDelay(n) + TotalLatency(latency, n) && TotalDelay(n) <= elapsed
      invariant n > 0 ==> elapsed <= timeout
      invariant polled == job || exists k: nat :: k < n && answers(k) == Some(polled)
      decreases (timeout - elapsed) * 10.0
    {
      NextDelay(n);
      if elapsed + delay > timeout {
        timedOut := true;
        break;
      }
      n := n + 1;
      if elapsed + delay + latency(n - 1) > timeout {
        timedOut := true;
        break;
      }
      elapsed := elapsed + delay + latency(n - 1);
      var got := answers(n - 1);
      if got.None? {
        RequestsInTime(n);
        return None, n, timedOut, polled;
      }
      polled := got.value;
      delay := Min(delay * 1.5, 5.0);
    }
    RequestsInTime(n);
    r := answers(n);
    n := n + 1;
  }

  function TotalLatency(latency: nat -> real, n: nat): (t: real)
    requires forall k :: latency(k) >= 0.0
    ensures t >= 0.0
  {
    if n == 0 then 0.0 else TotalLatency(latency, n - 1) + latency(n - 1)
  }

  /** The phases that are waited out: the active ones, the given one, or the one the job is in. */
  function Awaited(job: Job, waitPhase: Option<Phase>, forCompletion: bool): set<Phase> {
    if forCompletion then {Pending, Queued, Executing}
    else if waitPhase.Some? then {waitPhase.value} else {job.phase}
  }

  /** `JobService.get`, from its first read on. A wait of -1 seconds means as long as allowed;
    no wait is longer. A job in another phase than the awaited ones is only read once more. */
  method Get(first: Option<Job>, waitSeconds: int, waitPhase: Option<Phase>, forCompletion: bool, allowed: real,
             answers: nat -> Option<Job>, latency: nat -> real)
    returns (r: Option<Job>, n: nat, timedOut: bool, polled: Option<Job>)
    requires allowed >= 0.0 && forall k :: latency(k) >= 0.0
    ensures first.None? || waitSeconds == 0 || !Active(first.value.phase) ==> r == first && n == 0 && !timedOut
    ensures first.Some? && waitSeconds != 0 && Active(first.value.phase) ==>
              && n > 0 && r == answers(n - 1) && polled.Some?
              && (first.value.phase !in Awaited(first.value, waitPhase, forCompletion) ==> n == 1 && !timedOut)
              && (r.Some? && !timedOut ==> polled.value.phase !in Awaited(first.value, waitPhase, forCompletion))
              && (timedOut ==> polled.value.phase in Awaited(first.value, waitPhase, forCompletion))
              && (polled == first || exists k: nat :: k < n && answers(k) == polled)
    ensures timedOut ==>
              || TotalDelay(n) + TotalLatency(latency, n) > allowed
              || (waitSeconds > 0 && TotalDelay(n) + TotalLatency(latency, n) > waitSeconds as real)
    ensures r.Some? && n > 0 && !timedOut ==>
              && (forCompletion ==> polled.value.phase !in {Pending, Queued, Executing})
              && (!forCompletion && waitPhase.Some? ==> polled.value.phase != waitPhase.value)
              && (!forCompletion && waitPhase.None? ==> polled.value.phase != first.value.phase)
    ensures 5.0 * (n - 11) as real <= allowed
    ensures waitSeconds > 0 && n > 0 ==> 5 * (n - 11) <= waitSeconds
  {
    r, n, timedOut, polled := first, 0, false, first;
    if first.None? {
      return;
    }
    var job := first.value;
    if waitSeconds != 0 && Active(job.phase) {
      var wait := allowed;
      if waitSeconds >= 0 {
        wait := Min(waitSeconds as real, allowed);
      }
      var untilNot := {Pending, Queued, Executing};
      if !forCompletion {
        untilNot := if waitPhase.Some? then {waitPhase.value} else {job.phase};
      }
      var last;
      r, n, timedOut, last := WaitForJob(job, untilNot, wait, answers, latency);
      polled := Some(last);
    }
  }
}
