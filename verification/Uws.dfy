/** The services around UWS jobs, as they change the job store and the queue. */
module Uws {
  import opened Wrappers
  import opened UwsModel
  import UwsCalls

  class MockWobbly {
    var nextId: nat
    var jobs: map<Key, Job>

    function Model(): Store
      reads this
    {
      Store(nextId, jobs)
    }

    constructor ()
      ensures Model() == EMPTY_STORE
    {
      nextId := 1;
      jobs := map[];
    }

    method CreateJob(owner: Owner, destruction: int, duration: Option<int>, now: nat) returns (r: Response)
      modifies this
      ensures (Model(), r) == Serve(old(Model()), Post(owner, destruction, duration), now)
    {
      var id := nextId;
      nextId := nextId + 1;
      var job := Job(Pending, None, Whole(now), destruction, duration, None, None, [], []);
      jobs := jobs[Key(owner, id) := job];
      r := Created(id, job);
    }

    method DeleteJob(key: Key, now: nat) returns (r: Response)
      modifies this
      ensures (Model(), r) == Serve(old(Model()), Delete(key), now)
    {
      if key !in jobs {
        return NotFound;
      }
      jobs := jobs - {key};
      r := NoContent;
    }

    method GetJob(key: Key, now: nat) returns (r: Response)
      ensures (Model(), r) == Serve(Model(), Get(key), now)
    {
      r := if key in jobs then Ok(jobs[key]) else NotFound;
    }

    method UpdateJob(key: Key, body: Update, now: nat) returns (r: Response)
      modifies this
      ensures (Model(), r) == Serve(old(Model()), Patch(key, body), now)
    {
      if key !in jobs {
        return NotFound;
      }
      var job := jobs[key];
      match body {
        case Metadata(destruction, duration) =>
          job := job.(destruction := destruction);
          job := job.(duration := duration);
        case ToAborted =>
          if job.start.Some? {
            job := job.(end := Some(Whole(now)));
          }
          job := job.(phase := Aborted);
        case ToCompleted(results) =>
          job := job.(end := Some(Whole(now)));
          job := job.(results := results);
          job := job.(phase := Completed);
        case ToExecuting(start) =>
          job := job.(start := Some(Whole(start)));
          job := job.(phase := Executing);
        case ToError(errors) =>
          if errors == [] {
            return Refused;
          }
          job := job.(end := Some(Whole(now)));
          job := job.(errors := errors);
          job := job.(phase := Error);
        case ToQueued(messageId) =>
          job := job.(messageId := messageId);
          job := job.(phase := Queued);
        case ToOther(_) =>
          return Refused;
      }
      jobs := jobs[key := job];
      r := Ok(job);
    }
  }

  class MockArqQueue {
    var metadata: map<nat, Message>
    var outcomes: map<nat, Outcome>
    var sent: seq<Key>

    function Model(): Arq
      reads this
    {
      Arq(metadata, outcomes, sent)
    }

    constructor ()
      ensures Model() == EMPTY_ARQ
    {
      metadata, outcomes, sent := map[], map[], [];
    }

    method Enqueue(key: Key) returns (id: nat)
      modifies this
      ensures Model() == UwsModel.Enqueue(old(Model()), key) && id == |old(sent)|
    {
      id := |sent|;
      metadata := metadata[id := Message(key, InQueue)];
      sent := sent + [key];
    }

    method AbortJob(id: nat) returns (aborted: bool)
      modifies this
      ensures (Model(), aborted) == UwsModel.AbortJob(old(Model()), id)
      ensures UwsCalls.Stops(old(Model()), Model(), id)
    {
      UwsCalls.AbortJobStops(Model(), id);
      if id !in metadata {
        return false;
      }
      var message := metadata[id];
      if message.status.InProgress? {
        metadata := metadata[id := message.(status := Over)];
        outcomes := outcomes[id := Cancelled];
        return true;
      }
      if message.status.Deferred? || message.status.InQueue? {
        metadata := metadata - {id};
        return true;
      }
      return false;
    }

    /** None stands for `JobResultUnavailable`. */
    method GetJobResult(id: nat) returns (outcome: Option<Outcome>)
      ensures outcome == if id in outcomes then Some(outcomes[id]) else None
    {
      outcome := if id in outcomes then Some(outcomes[id]) else None;
    }

    /** An outcome that is there already stays there. */
    method SetInProgress(id: nat) returns (found: bool)
      modifies this
      ensures Model() == Or(SetStatus(old(Model()), id, InProgress), old(Model()))
      ensures found == SetStatus(old(Model()), id, InProgress).Some?
      ensures id in outcomes <==> id in old(outcomes)
    {
      found := id in metadata;
      if found {
        metadata := metadata[id := metadata[id].(status := InProgress)];
      }
    }

    method SetComplete(id: nat, outcome: Outcome) returns (found: bool)
      modifies this
      ensures Model() == Or(UwsModel.SetComplete(old(Model()), id, outcome), old(Model()))
      ensures found == UwsModel.SetComplete(old(Model()), id, outcome).Some?
    {
      found := id in metadata;
      if found {
        metadata := metadata[id := metadata[id].(status := Over)];
        outcomes := outcomes[id := outcome];
      }
    }
  }

  /** Every method is its own call of the model, from its first request to its last. */
  class JobService {
    const wobbly: MockWobbly
    const arq: MockArqQueue
    const config: Config

    constructor (wobbly: MockWobbly, arq: MockArqQueue, config: Config)
      ensures this.wobbly == wobbly && this.arq == arq && this.config == config
    {
      this.wobbly, this.arq, this.config := wobbly, arq, config;
    }

    function Model(): Sys
      reads wobbly, arq
    {
      Sys(wobbly.Model(), arq.Model())
    }

    method Create(owner: Owner, now: nat) returns (key: Key, job: Job)
      modifies wobbly
      ensures Model() == CreateJob(config, old(Model()), owner, now)
      ensures key == Key(owner, old(wobbly.nextId)) && key in wobbly.jobs && wobbly.jobs[key] == job
    {
      var r := wobbly.CreateJob(owner, Whole(now) + config.lifetime, Some(WholeSeconds(config.maxDuration)), now);
      key, job := Key(owner, r.id), r.job;
    }

    method Start(key: Key, now: nat) returns (r: Result)
      modifies wobbly, arq
      ensures (Model(), r) == Finish(config, old(Model()), Begun(UwsModel.Start(false), key), now)
    {
      FinishInFour(config, Model(), Begun(UwsModel.Start(false), key), now);
      var found := wobbly.GetJob(key, now);
      if found.NotFound? {
        return UnknownJob;
      }
      var job := found.job;
      if job.phase != Pending && job.phase != Held {
        return InvalidPhase;
      }
      var id := arq.Enqueue(key);
      var marked := wobbly.UpdateJob(key, ToQueued(Some(id)), now);
      r := Sent(id);
    }

    method Abort(key: Key, now: nat) returns (r: Result)
      modifies wobbly, arq
      ensures (Model(), r) == Finish(config, old(Model()), Begun(UwsModel.Abort, key), now)
      ensures key in old(wobbly.jobs) ==>
                && UwsCalls.StopsMessageOf(old(wobbly.jobs[key]), old(arq.Model()), arq.Model())
                && key in wobbly.jobs
                && wobbly.jobs[key].phase ==
                   if UwsCalls.IsActive(old(wobbly.jobs[key].phase)) then Aborted else old(wobbly.jobs[key].phase)
    {
      UwsCalls.AbortSays(config, Model(), key, now);
      FinishInFour(config, Model(), Begun(UwsModel.Abort, key), now);
      var found := wobbly.GetJob(key, now);
      if found.NotFound? {
        return UnknownJob;
      }
      var job := found.job;
      if !Active(job.phase) {
        return Finished;
      }
      if job.messageId.Some? {
        var aborted := arq.AbortJob(job.messageId.value);
      }
      var marked := wobbly.UpdateJob(key, ToAborted, now);
      r := Finished;
    }

    method Delete(key: Key, now: nat) returns (r: Result)
      modifies wobbly, arq
      ensures (Model(), r) == Finish(config, old(Model()), Begun(Drop, key), now)
      ensures wobbly.jobs == old(wobbly.jobs) - {key}
      ensures key in old(wobbly.jobs) ==>
                UwsCalls.StopsMessageOf(old(wobbly.jobs[key]), old(arq.Model()), arq.Model())
    {
      UwsCalls.DeleteSays(config, Model(), key, now);
      FinishInFour(config, Model(), Begun(Drop, key), now);
      var found := wobbly.GetJob(key, now);
      if found.NotFound? {
        return UnknownJob;
      }
      var job := found.job;
      if Active(job.phase) && job.messageId.Some? {
        var aborted := arq.AbortJob(job.messageId.value);
      }
      var deleted := wobbly.DeleteJob(key, now);
      r := Finished;
    }

    method UpdateDestruction(key: Key, time: int, now: nat) returns (r: Result)
      modifies wobbly
      ensures (Model(), r) == Finish(config, old(Model()), Begun(SetDestruction(time), key), now)
    {
      FinishInFour(config, Model(), Begun(SetDestruction(time), key), now);
      var found := wobbly.GetJob(key, now);
      if found.NotFound? {
        return UnknownJob;
      }
      var job := found.job;
      var destruction := time;
      if config.validateDestruction.Some? {
        destruction := config.validateDestruction.value(destruction, job);
      } else if destruction > job.destruction {
        destruction := job.destruction;
      }
      if destruction == job.destruction {
        return Unchanged;
      }
      var updated := wobbly.UpdateJob(key, Metadata(destruction, SentDuration(job.duration)), now);
      r := NewDestruction(destruction);
    }

    method UpdateExecutionDuration(key: Key, wanted: Option<int>, now: nat) returns (r: Result)
      modifies wobbly
      ensures (Model(), r) == Finish(config, old(Model()), Begun(SetDuration(wanted), key), now)
    {
      FinishInFour(config, Model(), Begun(SetDuration(wanted), key), now);
      var found := wobbly.GetJob(key, now);
      if found.NotFound? {
        return UnknownJob;
      }
      var job := found.job;
      var duration := wanted;
      if config.validateDuration.Some? {
        duration := config.validateDuration.value(duration, job);
      }
      if duration.Some? && duration.value != 0 {
        duration := Some(if duration.value < config.maxDuration then duration.value else config.maxDuration);
      }
      if duration == job.duration {
        return Unchanged;
      }
      var updated := wobbly.UpdateJob(key, Metadata(job.destruction, SentDuration(duration)), now);
      r := NewDuration(duration);
    }

    // ---- The worker that records what becomes of the jobs

    method JobStarted(key: Key, start: nat, now: nat)
      modifies wobbly
      ensures Model() == Patched(old(Model()), key, ToExecuting(start), Ended(Finished), now).0
    {
      var marked := wobbly.UpdateJob(key, ToExecuting(start), now);
    }

    /** `_get_job_result` never gives up, so that the outcome must come some time. */
    method JobCompleted(key: Key, now: nat) returns (r: Result)
      requires Ready(Model(), Begun(Record, key))
      modifies wobbly
      ensures (Model(), r) == Finish(config, old(Model()), Begun(Record, key), now)
    {
      FinishInFour(config, Model(), Begun(Record, key), now);
      var found := wobbly.GetJob(key, now);
      if found.NotFound? {
        return UnknownJob;
      }
      var job := found.job;
      if job.messageId.None? {
        return Finished;
      }
      var got := arq.GetJobResult(job.messageId.value);
      var outcome := got.value;
      if outcome.Raised? && outcome.exn.WorkerError? {
        outcome := Raised(TaskError(outcome.exn.error));
      }
      r := MarkCompleted(key, outcome, now);
    }

    /** `JobStore.mark_completed` and `mark_failed`; iterating over a cancellation fails. */
    method MarkCompleted(key: Key, outcome: Outcome, now: nat) returns (r: Result)
      modifies wobbly
      ensures UpdateOf(outcome).None? ==> Model() == old(Model()) && r == TypeError
      ensures UpdateOf(outcome).Some? ==>
                (Model(), Ended(r)) == Patched(old(Model()), key, UpdateOf(outcome).value, Ended(Finished), now)
    {
      if outcome.Cancelled? {
        return TypeError;
      }
      var marked: Response;
      if outcome.Raised? {
        marked := wobbly.UpdateJob(key, ToError([ErrorOf(outcome.exn)]), now);
      } else {
        marked := wobbly.UpdateJob(key, ToCompleted(outcome.results), now);
      }
      r := if marked.NotFound? then UnknownJob else Finished;
    }

    // ---- The simulated worker of the tests

    /** None if the job or its message is unknown. */
    method MarkInProgress(key: Key, now: nat) returns (job: Option<Job>)
      requires key in wobbly.jobs ==> wobbly.jobs[key].messageId.Some?
      modifies wobbly, arq
      ensures job.Some? <==> key in old(wobbly.jobs) && old(wobbly.jobs[key].messageId.value in arq.metadata)
      ensures job.None? ==> Model() == old(Model())
      ensures job.Some? ==>
                && wobbly.Model() == Serve(old(wobbly.Model()), Patch(key, ToExecuting(now)), now).0
                && Some(arq.Model()) == SetStatus(old(arq.Model()), old(wobbly.jobs[key].messageId.value), InProgress)
                && key in wobbly.jobs && wobbly.jobs[key] == job.value
    {
      var found := wobbly.GetJob(key, now);
      if found.NotFound? {
        return None;
      }
      var known := arq.SetInProgress(found.job.messageId.value);
      if !known {
        return None;
      }
      var marked := wobbly.UpdateJob(key, ToExecuting(now), now);
      found := wobbly.GetJob(key, now);
      job := Some(found.job);
    }

    method MarkComplete(key: Key, outcome: Outcome, now: nat) returns (job: Option<Job>)
      requires key in wobbly.jobs ==> wobbly.jobs[key].messageId.Some?
      requires !outcome.Cancelled?
      modifies wobbly, arq
      ensures job.Some? <==> key in old(wobbly.jobs) && old(wobbly.jobs[key].messageId.value in arq.metadata)
      ensures job.None? ==> Model() == old(Model())
      ensures job.Some? ==>
                && wobbly.Model() == Serve(old(wobbly.Model()), Patch(key, UpdateOf(outcome).value), now).0
                && Some(arq.Model()) == SetComplete(old(arq.Model()), old(wobbly.jobs[key].messageId.value), outcome)
                && key in wobbly.jobs && wobbly.jobs[key] == job.value
    {
      var found := wobbly.GetJob(key, now);
      if found.NotFound? {
        return None;
      }
      var id := found.job.messageId.value;
      var known := arq.SetComplete(id, outcome);
      if !known {
        return None;
      }
      var got := arq.GetJobResult(id);
      var r := MarkCompleted(key, got.value, now);
      found := wobbly.GetJob(key, now);
      job := Some(found.job);
    }
  }

  // ---- The worker that does the work

  datatype Note = JobStarted(key: Key, start: nat) | JobCompleted(key: Key)

  /** How waiting for the work ends. */
  datatype End = Done(results: seq<string>) | Failed(exn: Exn) | TimedOut(timeout: Exn) | WasCancelled

  class WorkerContext {
    var pool: nat
    var notes: seq<Note>

    /** `run`: whatever happens, the start is noted first and the end last, once each. The
      pool is replaced if the work may still be running in it. */
    method Run(key: Key, start: nat, end: End) returns (outcome: Outcome)
      modifies this
      ensures notes == old(notes) + [JobStarted(key, start), JobCompleted(key)]
      ensures pool == if end.TimedOut? || end.WasCancelled? then old(pool) + 1 else old(pool)
      ensures match end
              case Done(results) => outcome == Returned(results)
              case Failed(exn) => outcome == Raised(exn)
              case TimedOut(timeout) => outcome == Raised(timeout)
              case WasCancelled => outcome == Cancelled
    {
      notes := notes + [JobStarted(key, start)];
      match end {
        case Done(results) =>
          outcome := Returned(results);
        case WasCancelled =>
          pool := pool + 1;
          outcome := Cancelled;
        case TimedOut(timeout) =>
          pool := pool + 1;
          outcome := Raised(timeout);
        case Failed(exn) =>
          outcome := Raised(exn);
      }
      notes := notes + [JobCompleted(key)];
    }
  }
}
