/** What each call on UWS jobs does to the job store and the queue when nothing interrupts it,
  said in terms of their contents. */
module UwsCalls {
  import opened Wrappers
  import opened UwsModel

  // ---- The queue

  /** A waiting message is dropped; of one in progress the worker is cancelled; nothing
    becomes of one that is over or unknown. */
  predicate Stops(a: Arq, b: Arq, id: nat) {
    && b.sent == a.sent
    && if id in a.metadata && (a.metadata[id].status == InQueue || a.metadata[id].status == Deferred) then
         b.metadata == a.metadata - {id} && b.outcomes == a.outcomes
       else if id in a.metadata && a.metadata[id].status == InProgress then
         && b.metadata == a.metadata[id := Message(a.metadata[id].key, Over)]
         && b.outcomes == a.outcomes[id := Cancelled]
       else
         b.metadata == a.metadata && b.outcomes == a.outcomes
  }

  lemma {:induction false} AbortJobStops(a: Arq, id: nat)
    ensures Stops(a, AbortJob(a, id).0, id)
    ensures AbortJob(a, id).1 <==> id in a.metadata && a.metadata[id].status != Over
  {}

  /** A message that has been dropped never comes back, so that no worker ever gets it. */
  lemma {:induction false} DroppedStaysAway(c: Config, w: World, actions: seq<(Action, nat)>, id: nat)
    requires id < |w.sys.arq.sent| && id !in w.sys.arq.metadata
    ensures id < |Run(c, w, actions).sys.arq.sent| && id !in Run(c, w, actions).sys.arq.metadata
    decreases |actions|
  {
    if actions != [] {
      var last := |actions| - 1;
      DroppedStaysAway(c, w, actions[..last], id);
      NotAddedAgain(c, Run(c, w, actions[..last]), actions[last].0, actions[last].1, id);
    }
  }

  lemma {:induction false} NotAddedAgain(c: Config, w: World, a: Action, now: nat, id: nat)
    requires id < |w.sys.arq.sent| && id !in w.sys.arq.metadata
    ensures id < |Apply(c, w, a, now).sys.arq.sent| && id !in Apply(c, w, a, now).sys.arq.metadata
  {}

  // ---- Aborting and deleting

  predicate IsActive(p: Phase) { p in {Pending, Queued, Executing} }

  /** Exactly the message of an active job is stopped. */
  predicate StopsMessageOf(job: Job, a: Arq, b: Arq) {
    if IsActive(job.phase) && job.messageId.Some? then Stops(a, b, job.messageId.value) else a == b
  }

  /** An abort stops the message of an active job and marks the job as aborted, with the
    time if it had started. Any other job stays as it is. */
  lemma {:induction false} AbortSays(c: Config, s: Sys, key: Key, now: nat)
    ensures var (t, r) := Finish(c, s, Begun(Abort, key), now);
            if key !in s.store.jobs then (t, r) == (s, UnknownJob)
            else
              var job := s.store.jobs[key];
              && r == Finished && StopsMessageOf(job, s.arq, t.arq) && t.store.nextId == s.store.nextId
              && t.store.jobs == if !IsActive(job.phase) then s.store.jobs else
                   s.store.jobs[key := job.(phase := Aborted,
                                            end := if job.start.Some? then Some(Whole(now)) else job.end)]
  {
    FinishInFour(c, s, Begun(Abort, key), now);
  }

  /** A deletion stops the message of an active job, and the job is gone; nothing else is. */
  lemma {:induction false} DeleteSays(c: Config, s: Sys, key: Key, now: nat)
    ensures var (t, r) := Finish(c, s, Begun(Drop, key), now);
            if key !in s.store.jobs then (t, r) == (s, UnknownJob)
            else
              && r == Finished && StopsMessageOf(s.store.jobs[key], s.arq, t.arq)
              && t.store.nextId == s.store.nextId && t.store.jobs == s.store.jobs - {key}
  {
    FinishInFour(c, s, Begun(Drop, key), now);
  }

  /** So a worker never gets the message of a job that was aborted or deleted while it was
    waiting, whatever happens afterwards. */
  lemma {:induction false} StoppedNeverRuns(
      c: Config, w: World, key: Key, delete: bool, now: nat, actions: seq<(Action, nat)>)
    requires key in w.sys.store.jobs && w.sys.store.jobs[key].phase == Queued
    requires w.sys.store.jobs[key].messageId.Some?
    requires var id := w.sys.store.jobs[key].messageId.value;
             id < |w.sys.arq.sent| && id in w.sys.arq.metadata && w.sys.arq.metadata[id].status == InQueue
    ensures var op := if delete then Drop else Abort;
            var stopped := w.(sys := Finish(c, w.sys, Begun(op, key), now).0);
            w.sys.store.jobs[key].messageId.value !in Run(c, stopped, actions).sys.arq.metadata
  {
    AbortSays(c, w.sys, key, now);
    DeleteSays(c, w.sys, key, now);
    var stopped := w.(sys := Finish(c, w.sys, Begun(if delete then Drop else Abort, key), now).0);
    DroppedStaysAway(c, stopped, actions, w.sys.store.jobs[key].messageId.value);
  }

  // ---- Creating and starting

  /** A new job and nothing else: PENDING, without a trace of work, with the configured
    lifetime and the configured execution time in whole seconds. */
  lemma {:induction false} CreateSays(c: Config, s: Sys, owner: Owner, now: nat)
    ensures var (t, key) := (CreateJob(c, s, owner, now), Key(owner, s.store.nextId));
            && t.arq == s.arq && t.store.nextId == s.store.nextId + 1
            && key in t.store.jobs && t.store.jobs.Keys == s.store.jobs.Keys + {key}
            && (forall k :: k in s.store.jobs && k != key ==> t.store.jobs[k] == s.store.jobs[k])
            && var job := t.store.jobs[key];
               && job.phase == Pending && job.messageId == None
               && job.start == None && job.end == None && job.errors == [] && job.results == []
               && job.creation == Whole(now) && job.destruction == Whole(now) + c.lifetime
               && job.duration == Some(WholeSeconds(c.maxDuration))
  {}

  /** A start works on PENDING jobs only, among those there can be: it sends one message and
    records it, and the message waits. Other jobs and other messages stay as they are. */
  lemma {:induction false} StartSays(c: Config, s: Sys, key: Key, now: nat)
    requires StoreOk(s.store)
    ensures var (t, r) := Finish(c, s, Begun(Start(false), key), now);
            var id := |s.arq.sent|;
            if key !in s.store.jobs then (t, r) == (s, UnknownJob)
            else if s.store.jobs[key].phase != Pending then (t, r) == (s, InvalidPhase)
            else
              && r == Sent(id) && t.arq.sent == s.arq.sent + [key] && t.arq.outcomes == s.arq.outcomes
              && t.arq.metadata == s.arq.metadata[id := Message(key, InQueue)]
              && t.store.nextId == s.store.nextId
              && t.store.jobs ==
                 s.store.jobs[key := s.store.jobs[key].(phase := Queued, messageId := Some(id))]
  {
    FinishInFour(c, s, Begun(Start(false), key), now);
    if key in s.store.jobs {
      assert JobOk(s.store.jobs[key]);
    }
  }

  // ---- Whole seconds

  /** The whole seconds in a span of time, counted toward zero. */
  predicate IsWhole(d: int, whole: int) {
    && whole % 1_000_000 == 0
    && (d >= 0 ==> 0 <= whole <= d < whole + 1_000_000)
    && (d < 0 ==> whole - 1_000_000 < d <= whole <= 0)
  }

  lemma {:induction false} WholeSecondsSays(d: int, whole: int)
    ensures IsWhole(d, whole) <==> whole == WholeSeconds(d)
  {}

  lemma {:induction false} WholeSays(time: nat, whole: int)
    ensures IsWhole(time, whole) <==> whole == Whole(time)
  {}

  // ---- Changing the metadata

  /** A new destruction time is what the validator says, or without one the wanted time, but
    never a later one. Nothing is changed if the job has that time already. */
  lemma {:induction false} DestructionSays(c: Config, s: Sys, key: Key, time: int, now: nat)
    ensures var (t, r) := Finish(c, s, Begun(SetDestruction(time), key), now);
            if key !in s.store.jobs then (t, r) == (s, UnknownJob)
            else
              var job := s.store.jobs[key];
              var d := if c.validateDestruction.Some? then c.validateDestruction.value(time, job)
                       else if time <= job.destruction then time else job.destruction;
              if d == job.destruction then (t, r) == (s, Unchanged)
              else
                && r == NewDestruction(d) && t.arq == s.arq && t.store.nextId == s.store.nextId
                && t.store.jobs ==
                   s.store.jobs[key := job.(destruction := d, duration := SentDuration(job.duration))]
  {
    FinishInFour(c, s, Begun(SetDestruction(time), key), now);
  }

  /** What a wanted execution time is cut down to: never more than configured, and as it was
    wanted if that is less, or none, or zero. A validator is asked before. */
  lemma {:induction false} WantedDurationSays(c: Config, duration: Option<int>, job: Job)
    ensures var asked := if c.validateDuration.Some? then c.validateDuration.value(duration, job) else duration;
            var wanted := WantedDuration(c, duration, job);
            && (wanted.Some? <==> asked.Some?)
            && (asked.Some? && asked.value == 0 ==> wanted.value == 0)
            && (asked.Some? && asked.value != 0 ==>
                  && wanted.value <= asked.value && wanted.value <= c.maxDuration
                  && (wanted.value == asked.value || wanted.value == c.maxDuration))
  {}

  /** The change of an execution time: nothing if the job has it already. Otherwise none and
    zero take the limit away, and everything else is stored in whole seconds. */
  lemma {:induction false} DurationSays(c: Config, s: Sys, key: Key, duration: Option<int>, now: nat)
    ensures var (t, r) := Finish(c, s, Begun(SetDuration(duration), key), now);
            if key !in s.store.jobs then (t, r) == (s, UnknownJob)
            else
              var job := s.store.jobs[key];
              var wanted := WantedDuration(c, duration, job);
              if wanted == job.duration then (t, r) == (s, Unchanged)
              else
                && r == NewDuration(wanted) && t.arq == s.arq && t.store.nextId == s.store.nextId
                && key in t.store.jobs
                && var stored := t.store.jobs[key];
                   && t.store.jobs == s.store.jobs[key := job.(duration := stored.duration)]
                   && (stored.duration.None? <==> wanted.None? || wanted.value == 0)
                   && (stored.duration.Some? ==> IsWhole(wanted.value, stored.duration.value))
  {
    FinishInFour(c, s, Begun(SetDuration(duration), key), now);
    var wanted := if key in s.store.jobs then WantedDuration(c, duration, s.store.jobs[key]) else None;
    if wanted.Some? {
      WholeSecondsSays(wanted.value, WholeSeconds(wanted.value));
    }
  }

  // ---- Outcomes

  /** The error that is recorded: the one of the task, also if the worker has wrapped it, and
    for any other exception a general one with its name and text. */
  lemma {:induction false} ErrorSays(exn: Exn)
    ensures ErrorOf(Annotated(Raised(exn)).exn) == match exn
            case TaskError(error) => error
            case WorkerError(error, _, _) => error
            case OtherError(name, text) =>
              JobError(true, "Error", "Unknown error executing task", name + ": " + text)
  {}

  /** Recording an outcome: for a job that has returned, the results and the end; for one that
    has failed, its one error and the end. A cancellation cannot be recorded, and without a
    message there is nothing to record. */
  lemma {:induction false} RecordSays(c: Config, s: Sys, key: Key, now: nat)
    requires Ready(s, Begun(Record, key))
    ensures var (t, r) := Finish(c, s, Begun(Record, key), now);
            if key !in s.store.jobs then (t, r) == (s, UnknownJob)
            else
              var job := s.store.jobs[key];
              if job.messageId.None? then (t, r) == (s, Finished)
              else
                match s.arq.outcomes[job.messageId.value]
                case Cancelled => (t, r) == (s, TypeError)
                case Returned(results) =>
                  && r == Finished && t.arq == s.arq && t.store.nextId == s.store.nextId
                  && t.store.jobs ==
                     s.store.jobs[key := job.(phase := Completed, end := Some(Whole(now)), results := results)]
                case Raised(exn) =>
                  && r == Finished && t.arq == s.arq && t.store.nextId == s.store.nextId
                  && t.store.jobs == s.store.jobs[key := job.(phase := Error, end := Some(Whole(now)),
                                                             errors := [ErrorOf(Annotated(Raised(exn)).exn)])]
  {
    FinishInFour(c, s, Begun(Record, key), now);
  }

  // ---- Synchronous calls

  /** What a synchronous call makes of the job that it has read last. */
  lemma {:induction false} SyncOutcomeSays(job: Job)
    ensures var r := SyncOutcome(job);
            var over := job.phase == Completed || job.phase == Error;
            && (r == SyncTimeout <==> !over)
            && (r.SyncFailed? <==> over && job.errors != [])
            && (r.SyncFailed? ==> r.error == job.errors[0])
            && (r == SyncNoResults <==> over && job.errors == [] && job.results == [])
            && (r.SyncResult? <==> over && job.errors == [] && job.results != [])
            && (r.SyncResult? ==> r.value == job.results[0])
  {}

  /** While its job is active, a synchronous call that may wait goes on polling. When it
    finds the job inactive it reads it once more, or not if that was its first look. */
  lemma {:induction false} SyncWaits(c: Config, s: Sys, call: Call, now: nat)
    requires call.Checking? || call.Polling?
    ensures var (t, next) := StepCall(c, s, call, now);
            var key := call.key;
            && t == s
            && next == (if key !in s.store.jobs then Ended(UnknownJob)
                        else if !IsActive(s.store.jobs[key].phase) && call.Polling? then LastRead(key)
                        else if IsActive(s.store.jobs[key].phase) && (call.Polling? || c.syncWaits) then Polling(key)
                        else Ended(SyncOutcome(s.store.jobs[key])))
  {}

  /** So only the clock ends the polling of a job that stays active: whatever else happens,
    the call still polls. */
  lemma {:induction false} PollsWhileActive(c: Config, w: World, actions: seq<(Action, nat)>, i: nat, key: Key)
    requires i < |w.calls| && w.calls[i] == Polling(key)
    requires forall n :: 0 <= n < |actions| ==> actions[n].0 != TimeOut(i)
    requires StaysActive(c, w, actions, key)
    ensures i < |Run(c, w, actions).calls| && Run(c, w, actions).calls[i] == Polling(key)
    decreases |actions|
  {
    if actions != [] {
      var last := |actions| - 1;
      PollsWhileActive(c, w, actions[..last], i, key);
    }
  }

  ghost predicate StaysActive(c: Config, w: World, actions: seq<(Action, nat)>, key: Key)
    decreases |actions|
  {
    && (actions == [] || StaysActive(c, w, actions[..|actions| - 1], key))
    && var jobs := Run(c, w, actions).sys.store.jobs; key in jobs && IsActive(jobs[key].phase)
  }

  // ---- Updates of the job store

  /** Each field of a job has its own updates, and its creation time has none. */
  lemma {:induction false} UpdatedLeaves(job: Job, update: Update, now: nat)
    requires Updated(job, update, now).Some?
    ensures var after := Updated(job, update, now).value;
            && after.creation == job.creation
            && (!update.Metadata? ==> after.destruction == job.destruction && after.duration == job.duration)
            && (update.Metadata? ==> after.destruction == update.destruction && after.duration == update.duration)
            && (after.messageId == if update.ToQueued? then update.messageId else job.messageId)
            && (after.start == if update.ToExecuting? then Some(Whole(update.start)) else job.start)
            && (after.results == if update.ToCompleted? then update.results else job.results)
            && (after.errors == if update.ToError? then update.errors else job.errors)
            && (after.end == if update.ToCompleted? || update.ToError? || (update.ToAborted? && job.start.Some?)
                             then Some(Whole(now)) else job.end)
            && (update.Metadata? ==> after.phase == job.phase)
  {}

  /** When an update is refused, and that it then changes nothing. */
  lemma {:induction false} PatchSays(s: Store, key: Key, update: Update, now: nat)
    ensures var (t, r) := Serve(s, Patch(key, update), now);
            && (r == NotFound <==> key !in s.jobs)
            && (r == Refused <==> key in s.jobs && (update.ToOther? || (update.ToError? && update.errors == [])))
            && (r == NotFound || r == Refused ==> t == s)
            && (r.Ok? ==> t.nextId == s.nextId && t.jobs == s.jobs[key := r.job] &&
                          Some(r.job) == Updated(s.jobs[key], update, now))
            && (r.NotFound? || r.Refused? || r.Ok?)
  {}

  // ---- The beginning and the end of a synchronous call

  /** A synchronous call creates a job of its own and starts it, which sends one message and
    records it, before it looks at the job for the first time. */
  lemma {:induction false} SyncStarts(c: Config, w: World, owner: Owner, now: nat)
    ensures var (i, id, key) := (|w.calls|, |w.sys.arq.sent|, Key(owner, w.sys.store.nextId));
            var begun := Apply(c, w, RunSync(owner), now);
            var marked := Apply(c, Apply(c, Apply(c, begun, Step(i), now), Step(i), now), Step(i), now);
            && begun.sys == CreateJob(c, w.sys, owner, now) && |begun.calls| == i + 1
            && |marked.calls| == i + 1 && marked.calls[i] == Checking(key)
            && marked.sys.arq.metadata == w.sys.arq.metadata[id := Message(key, InQueue)]
            && marked.sys.arq.sent == w.sys.arq.sent + [key] && marked.sys.arq.outcomes == w.sys.arq.outcomes
            && key in begun.sys.store.jobs
            && marked.sys.store.jobs ==
               begun.sys.store.jobs[key := begun.sys.store.jobs[key].(phase := Queued, messageId := Some(id))]
  {
    var key := Key(owner, w.sys.store.nextId);
    var i := |w.calls|;
    var begun := Apply(c, w, RunSync(owner), now);
    var read := Apply(c, begun, Step(i), now);
    assert read.calls[i] == Enqueueing(key, true) && read.sys == begun.sys;
    var sent := Apply(c, read, Step(i), now);
    assert sent.calls[i] == Marking(key, |w.sys.arq.sent|, true) && sent.sys.store == begun.sys.store;
  }

  /** When its time is up, it reads the job once more and goes by that. */
  lemma {:induction false} TimeOutReadsAgain(c: Config, w: World, i: nat, key: Key, now: nat)
    requires i < |w.calls| && w.calls[i] == Polling(key)
    ensures var over := Apply(c, Apply(c, w, TimeOut(i), now), Step(i), now);
            var jobs := w.sys.store.jobs;
            && over.sys == w.sys && |over.calls| == |w.calls|
            && over.calls[i] == Ended(if key in jobs then SyncOutcome(jobs[key]) else UnknownJob)
  {
    var late := Apply(c, w, TimeOut(i), now);
    assert late.calls[i] == LastRead(key);
  }

  /** When the job has been deleted between two requests of a call, the next one that is about
    the job says so and changes nothing; only a message that was sent stays sent. */
  lemma {:induction false} GoneMeanwhile(c: Config, s: Sys, call: Call, now: nat)
    requires !call.Ended? && !call.Enqueueing? && !call.Stopping? && !call.Collecting? && call.key !in s.store.jobs
    ensures StepCall(c, s, call, now) == (s, Ended(UnknownJob))
  {}

  // ---- What workers do to their messages

  /** Only the status of the message changes, and its outcome when it is over. */
  lemma {:induction false} SetSays(a: Arq, id: nat, status: Status, outcome: Outcome)
    ensures SetStatus(a, id, status).Some? <==> id in a.metadata
    ensures SetComplete(a, id, outcome).Some? <==> id in a.metadata
    ensures id in a.metadata ==>
              && SetStatus(a, id, status).value ==
                 Arq(a.metadata[id := Message(a.metadata[id].key, status)], a.outcomes, a.sent)
              && SetComplete(a, id, outcome).value ==
                 Arq(a.metadata[id := Message(a.metadata[id].key, Over)], a.outcomes[id := outcome], a.sent)
  {}
}
