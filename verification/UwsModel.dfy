/** UWS jobs as values: the job store, the queue of messages to the workers, and the calls
  on both of them, which interleave at every request. */
module UwsModel {
  import opened Wrappers

  // ---- Jobs

  datatype Phase = Pending | Queued | Executing | Completed | Error | Aborted | Held | Suspended | Archived | Unknown

  /** `ACTIVE_PHASES` */
  predicate Active(p: Phase) { p == Pending || p == Queued || p == Executing }

  datatype Owner = Owner(service: string, user: string)

  datatype Key = Key(owner: Owner, id: nat)

  datatype JobError = JobError(fatal: bool, code: string, message: string, detail: string)

  /** Times and durations are in microseconds. */
  datatype Job = Job(phase: Phase, messageId: Option<nat>, creation: nat, destruction: int, duration: Option<int>,
                     start: Option<nat>, end: Option<nat>, errors: seq<JobError>, results: seq<string>)

  function Whole(time: nat): nat { time - time % 1_000_000 }

  /** `int(t.total_seconds())`: whole seconds, cut off toward zero. */
  function WholeSeconds(d: int): int {
    (if d >= 0 then d / 1_000_000 else -(-d / 1_000_000)) * 1_000_000
  }

  lemma {:induction false} WholeSecondsMonotone(d: int, e: int)
    requires d <= e
    ensures WholeSeconds(d) <= WholeSeconds(e) && WholeSeconds(WholeSeconds(e)) == WholeSeconds(e)
  {}

  /** A metadata update sends whole seconds; none and zero are both sent as none. */
  function SentDuration(d: Option<int>): Option<int> {
    if d.None? || d.value == 0 then None else Some(WholeSeconds(d.value))
  }

  // ---- The job store

  /** The body of a PATCH request. */
  datatype Update =
    | Metadata(destruction: int, duration: Option<int>)
    | ToAborted
    | ToCompleted(results: seq<string>)
    | ToExecuting(start: nat)
    | ToError(errors: seq<JobError>)
    | ToQueued(messageId: Option<nat>)
    | ToOther(phase: Phase)

  datatype Request = Post(owner: Owner, destruction: int, duration: Option<int>) | Get(key: Key) | Delete(key: Key)
                   | Patch(key: Key, update: Update)

  datatype Response = Created(id: nat, job: Job) | Ok(job: Job) | NoContent | NotFound | Refused

  datatype Store = Store(nextId: nat, jobs: map<Key, Job>)

  function NewJob(destruction: int, duration: Option<int>, now: nat): Job {
    Job(Pending, None, Whole(now), destruction, duration, None, None, [], [])
  }

  /** None if the body is refused: an unknown phase, or an error update without errors. */
  function Updated(job: Job, update: Update, now: nat): Option<Job> {
    match update
    case Metadata(destruction, duration) => Some(job.(destruction := destruction, duration := duration))
    case ToAborted => Some(job.(phase := Aborted, end := if job.start.Some? then Some(Whole(now)) else job.end))
    case ToCompleted(results) => Some(job.(phase := Completed, end := Some(Whole(now)), results := results))
    case ToExecuting(start) => Some(job.(phase := Executing, start := Some(Whole(start))))
    case ToError(errors) =>
      if errors == [] then None else Some(job.(phase := Error, end := Some(Whole(now)), errors := errors))
    case ToQueued(messageId) => Some(job.(phase := Queued, messageId := messageId))
    case ToOther(_) => None
  }

  function Serve(s: Store, request: Request, now: nat): (Store, Response) {
    match request
    case Post(owner, destruction, duration) =>
      var job := NewJob(destruction, duration, now);
      (Store(s.nextId + 1, s.jobs[Key(owner, s.nextId) := job]), Created(s.nextId, job))
    case Get(key) => (s, if key in s.jobs then Ok(s.jobs[key]) else NotFound)
    case Delete(key) => if key in s.jobs then (s.(jobs := s.jobs - {key}), NoContent) else (s, NotFound)
    case Patch(key, update) =>
      if key !in s.jobs then (s, NotFound) else
      var job := Updated(s.jobs[key], update, now);
      if job.None? then (s, Refused) else (s.(jobs := s.jobs[key := job.value]), Ok(job.value))
  }

  /** Requests in any order, each with the time at which it is served. */
  function ServeAll(s: Store, requests: seq<(Request, nat)>): Store
    decreases |requests|
  {
    if requests == [] then s
    else
      var last := |requests| - 1;
      Serve(ServeAll(s, requests[..last]), requests[last].0, requests[last].1).0
  }

  const EMPTY_STORE := Store(1, map[])

  /** What the phase of a job says about the rest of it. No job ever returns to PENDING,
    and none is HELD, so these only ever mean a new job. */
  predicate JobOk(job: Job) {
    && !job.phase.Held? && !job.phase.Suspended? && !job.phase.Archived? && !job.phase.Unknown?
    && (job.phase.Pending? ==>
          job.messageId.None? && job.start.None? && job.end.None? && job.errors == [] && job.results == [])
    && (job.phase.Executing? ==> job.start.Some?)
    && (job.phase.Completed? || job.phase.Error? ==> job.end.Some?)
    && (job.phase.Error? ==> job.errors != [])
    && (job.phase.Aborted? && job.start.Some? ==> job.end.Some?)
  }

  ghost predicate StoreOk(s: Store) {
    forall k :: k in s.jobs ==> JobOk(s.jobs[k]) && k.id < s.nextId
  }

  lemma {:induction false} UpdatedKeepsOk(job: Job, update: Update, now: nat)
    requires JobOk(job)
    ensures Updated(job, update, now).Some? ==> JobOk(Updated(job, update, now).value)
  {}

  lemma {:induction false} ServeKeepsOk(s: Store, request: Request, now: nat)
    requires StoreOk(s)
    ensures StoreOk(Serve(s, request, now).0) && s.nextId <= Serve(s, request, now).0.nextId
  {
    var t := Serve(s, request, now).0;
    forall k | k in t.jobs ensures JobOk(t.jobs[k]) && k.id < t.nextId {
      if k in s.jobs && request.Patch? {
        UpdatedKeepsOk(s.jobs[k], request.update, now);
      }
    }
  }

  /** In every interleaving of whatever requests, the phases mean what they say. */
  lemma {:induction false} RequestsKeepOk(requests: seq<(Request, nat)>)
    ensures StoreOk(ServeAll(EMPTY_STORE, requests))
    decreases |requests|
  {
    if requests != [] {
      var last := |requests| - 1;
      RequestsKeepOk(requests[..last]);
      ServeKeepsOk(ServeAll(EMPTY_STORE, requests[..last]), requests[last].0, requests[last].1);
    }
  }

  /** A request only changes the job it names, or adds one under an id never used before. */
  lemma {:induction false} ServeChangesOne(s: Store, request: Request, now: nat, k: Key)
    requires StoreOk(s)
    requires request.Post? || request.key != k
    requires k.id != s.nextId || !request.Post? || k.owner != request.owner
    ensures var t := Serve(s, request, now).0; k in t.jobs <==> k in s.jobs
    ensures var t := Serve(s, request, now).0; k in s.jobs ==> t.jobs[k] == s.jobs[k]
  {}

  // ---- The queue

  datatype Status = InQueue | Deferred | InProgress | Over

  datatype Message = Message(key: Key, status: Status)

  datatype Exn = TaskError(error: JobError) | WorkerError(error: JobError, name: string, text: string)
               | OtherError(name: string, text: string)

  /** What a message has led to. */
  datatype Outcome = Returned(results: seq<string>) | Raised(exn: Exn) | Cancelled

  /** `sent` says for which job each message was; its length is the next message's id. */
  datatype Arq = Arq(metadata: map<nat, Message>, outcomes: map<nat, Outcome>, sent: seq<Key>)

  const EMPTY_ARQ := Arq(map[], map[], [])

  function Enqueue(a: Arq, key: Key): Arq {
    Arq(a.metadata[|a.sent| := Message(key, InQueue)], a.outcomes, a.sent + [key])
  }

  function AbortJob(a: Arq, id: nat): (Arq, bool) {
    if id !in a.metadata then (a, false)
    else match a.metadata[id].status
      case InProgress =>
        var over := a.metadata[id := a.metadata[id].(status := Over)];
        (a.(metadata := over, outcomes := a.outcomes[id := Cancelled]), true)
      case Over => (a, false)
      case _ => (a.(metadata := a.metadata - {id}), true)
  }

  /** None stands for `JobNotFound`. */
  function SetStatus(a: Arq, id: nat, status: Status): Option<Arq> {
    if id in a.metadata then Some(a.(metadata := a.metadata[id := a.metadata[id].(status := status)])) else None
  }

  function SetComplete(a: Arq, id: nat, outcome: Outcome): Option<Arq> {
    var b := SetStatus(a, id, Over);
    if b.None? then None else Some(b.value.(outcomes := b.value.outcomes[id := outcome]))
  }

  // ---- Calls

  /** The validators are given the wanted value and the job. */
  datatype Config = Config(lifetime: int, maxDuration: int, syncWaits: bool,
                           validateDestruction: Option<(int, Job) -> int>,
                           validateDuration: Option<(Option<int>, Job) -> Option<int>>)

  datatype Op =
    | Start(sync: bool) | Abort | Drop | SetDestruction(time: int) | SetDuration(duration: Option<int>) | Record

  /** A call that is not over, by the request it will make next. `Begun` reads the job. */
  datatype Call =
    | Begun(op: Op, key: Key)
    | Enqueueing(key: Key, sync: bool)
    | Marking(key: Key, message: nat, sync: bool)
    | Stopping(key: Key, message: nat, drop: bool)
    | Dropping(key: Key)
    | Patching(key: Key, update: Update, result: Result)
    | Collecting(key: Key, message: nat)
    | Checking(key: Key)
    | Polling(key: Key)
    | LastRead(key: Key)
    | Ended(result: Result)

  /** UnknownJob is raised by the service and logged by the workers. */
  datatype Result =
    | Finished | Sent(message: nat) | NewDestruction(time: int) | NewDuration(duration: Option<int>) | Unchanged
    | UnknownJob | InvalidPhase | TypeError
    | SyncResult(value: string) | SyncFailed(error: JobError) | SyncNoResults | SyncTimeout

  function WantedDestruction(c: Config, time: int, job: Job): int {
    if c.validateDestruction.Some? then c.validateDestruction.value(time, job)
    else if time > job.destruction then job.destruction else time
  }

  /** No duration and a duration of zero are both false in a condition. */
  function WantedDuration(c: Config, duration: Option<int>, job: Job): Option<int> {
    var d := if c.validateDuration.Some? then c.validateDuration.value(duration, job) else duration;
    if d.None? || d.value == 0 || d.value <= c.maxDuration then d else Some(c.maxDuration)
  }

  /** What a call does about the job it has read. */
  function AfterRead(c: Config, op: Op, key: Key, job: Job): Call {
    match op
    case Start(sync) => if job.phase.Pending? || job.phase.Held? then Enqueueing(key, sync) else Ended(InvalidPhase)
    case Abort =>
      if !Active(job.phase) then Ended(Finished)
      else if job.messageId.Some? then Stopping(key, job.messageId.value, false)
      else Patching(key, ToAborted, Finished)
    case Drop =>
      if Active(job.phase) && job.messageId.Some? then Stopping(key, job.messageId.value, true) else Dropping(key)
    case SetDestruction(time) =>
      var d := WantedDestruction(c, time, job);
      if d == job.destruction then Ended(Unchanged)
      else Patching(key, Metadata(d, SentDuration(job.duration)), NewDestruction(d))
    case SetDuration(duration) =>
      var d := WantedDuration(c, duration, job);
      if d == job.duration then Ended(Unchanged)
      else Patching(key, Metadata(job.destruction, SentDuration(d)), NewDuration(d))
    case Record =>
      if job.messageId.None? then Ended(Finished) else Collecting(key, job.messageId.value)
  }

  function Unexpected(name: string, text: string): JobError {
    JobError(true, "Error", "Unknown error executing task", name + ": " + text)
  }

  function ErrorOf(exn: Exn): JobError {
    match exn
    case TaskError(error) => error
    case WorkerError(_, name, text) => Unexpected(name, text)
    case OtherError(name, text) => Unexpected(name, text)
  }

  /** `_annotate_worker_error` */
  function Annotated(outcome: Outcome): Outcome {
    if outcome.Raised? && outcome.exn.WorkerError? then Raised(TaskError(outcome.exn.error)) else outcome
  }

  /** The update that `mark_completed` sends. A cancellation is not an `Exception`, and no
    list of results either, so that for it nothing is sent. */
  function UpdateOf(outcome: Outcome): Option<Update> {
    match outcome
    case Returned(results) => Some(ToCompleted(results))
    case Raised(exn) => Some(ToError([ErrorOf(exn)]))
    case Cancelled => None
  }

  /** The end of `run_sync`. */
  function SyncOutcome(job: Job): Result {
    if job.phase != Completed && job.phase != Error then SyncTimeout
    else if job.errors != [] then SyncFailed(job.errors[0])
    else if job.results == [] then SyncNoResults
    else SyncResult(job.results[0])
  }

  datatype Sys = Sys(store: Store, arq: Arq)

  /** PATCH, and then go on with this unless the job is gone. */
  function Patched(s: Sys, key: Key, update: Update, next: Call, now: nat): (Sys, Call) {
    (s.(store := Serve(s.store, Patch(key, update), now).0), if key in s.store.jobs then next else Ended(UnknownJob))
  }

  /** The next request of a call. */
  function StepCall(c: Config, s: Sys, call: Call, now: nat): (Sys, Call) {
    var jobs := s.store.jobs;
    match call
    case Begun(op, key) => (s, if key in jobs then AfterRead(c, op, key, jobs[key]) else Ended(UnknownJob))
    case Enqueueing(key, sync) => (s.(arq := Enqueue(s.arq, key)), Marking(key, |s.arq.sent|, sync))
    case Marking(key, message, sync) =>
      Patched(s, key, ToQueued(Some(message)), if sync then Checking(key) else Ended(Sent(message)), now)
    case Stopping(key, message, drop) =>
      (s.(arq := AbortJob(s.arq, message).0), if drop then Dropping(key) else Patching(key, ToAborted, Finished))
    case Dropping(key) =>
      (s.(store := Serve(s.store, Delete(key), now).0), Ended(if key in jobs then Finished else UnknownJob))
    case Patching(key, update, result) => Patched(s, key, update, Ended(result), now)
    case Collecting(key, message) =>
      (s, if message !in s.arq.outcomes then call else
          var update := UpdateOf(Annotated(s.arq.outcomes[message]));
          if update.None? then Ended(TypeError) else Patching(key, update.value, Finished))
    case Checking(key) =>
      (s, if key !in jobs then Ended(UnknownJob)
          else if c.syncWaits && Active(jobs[key].phase) then Polling(key) else Ended(SyncOutcome(jobs[key])))
    case Polling(key) =>
      (s, if key !in jobs then Ended(UnknownJob) else if Active(jobs[key].phase) then call else LastRead(key))
    case LastRead(key) => (s, Ended(if key in jobs then SyncOutcome(jobs[key]) else UnknownJob))
    case Ended(_) => (s, call)
  }

  // ---- The system

  datatype World = World(sys: Sys, calls: seq<Call>)

  /** Begin: a call of the service, or a message to the worker that records outcomes.
    RunSync: a call that creates a job of its own and starts it. TimeOut ends the polling of
    a call. Mark: what a worker reports about a job. Work, Complete: what the worker does to
    its message in the queue. */
  datatype Action =
    | Create(owner: Owner)
    | Begin(op: Op, key: Key)
    | RunSync(owner: Owner)
    | Step(call: nat)
    | TimeOut(call: nat)
    | Mark(key: Key, update: Update)
    | Work(message: nat)
    | Complete(message: nat, outcome: Outcome)

  function CreateJob(c: Config, s: Sys, owner: Owner, now: nat): Sys {
    s.(store := Serve(s.store, Post(owner, Whole(now) + c.lifetime, Some(WholeSeconds(c.maxDuration))), now).0)
  }

  function Or(a: Option<Arq>, b: Arq): Arq { if a.Some? then a.value else b }

  function Apply(c: Config, w: World, a: Action, now: nat): World {
    match a
    case Create(owner) => w.(sys := CreateJob(c, w.sys, owner, now))
    case Begin(op, key) => if op.Start? && op.sync then w else w.(calls := w.calls + [Begun(op, key)])
    case RunSync(owner) =>
      World(CreateJob(c, w.sys, owner, now), w.calls + [Begun(Start(true), Key(owner, w.sys.store.nextId))])
    case Step(i) =>
      if i < |w.calls| then
        var (sys, call) := StepCall(c, w.sys, w.calls[i], now);
        World(sys, w.calls[i := call])
      else w
    case TimeOut(i) =>
      if i < |w.calls| && w.calls[i].Polling? then w.(calls := w.calls[i := LastRead(w.calls[i].key)]) else w
    case Mark(key, update) =>
      if update.Metadata? || update.ToQueued? then w
      else w.(sys := Patched(w.sys, key, update, Ended(Finished), now).0)
    case Work(message) => w.(sys := w.sys.(arq := Or(SetStatus(w.sys.arq, message, InProgress), w.sys.arq)))
    case Complete(message, outcome) => w.(sys := w.sys.(arq := Or(SetComplete(w.sys.arq, message, outcome), w.sys.arq)))
  }

  function Run(c: Config, w: World, actions: seq<(Action, nat)>): World
    decreases |actions|
  {
    if actions == [] then w
    else
      var last := |actions| - 1;
      Apply(c, Run(c, w, actions[..last]), actions[last].0, actions[last].1)
  }

  const INITIAL := World(Sys(EMPTY_STORE, EMPTY_ARQ), [])

  // ---- Calls that nothing interrupts

  /** The call never has to wait: it is not synchronous, and if it records an outcome then
    this is there. */
  predicate Ready(s: Sys, call: Call) {
    match call
    case Begun(op, key) =>
      && !(op.Start? && op.sync)
      && (op.Record? && key in s.store.jobs && s.store.jobs[key].messageId.Some? ==>
            s.store.jobs[key].messageId.value in s.arq.outcomes)
    case Enqueueing(_, sync) => !sync
    case Marking(_, _, sync) => !sync
    case Collecting(_, message) => message in s.arq.outcomes
    case Checking(_) => false
    case Polling(_) => false
    case LastRead(_) => false
    case _ => true
  }

  function Left(call: Call): nat {
    match call
    case Begun(_, _) => 4
    case Enqueueing(_, _) => 3
    case Stopping(_, _, _) => 3
    case Marking(_, _, _) => 2
    case Collecting(_, _) => 2
    case Ended(_) => 0
    case _ => 1
  }

  lemma {:induction false} StepStaysReady(c: Config, s: Sys, call: Call, now: nat)
    requires Ready(s, call) && !call.Ended?
    ensures var (t, next) := StepCall(c, s, call, now); Ready(t, next) && Left(next) < Left(call)
  {}

  /** All requests of a call, one right after the other. */
  function Finish(c: Config, s: Sys, call: Call, now: nat): (Sys, Result)
    requires Ready(s, call)
    decreases Left(call)
  {
    if call.Ended? then (s, call.result)
    else
      StepStaysReady(c, s, call, now);
      var (t, next) := StepCall(c, s, call, now);
      Finish(c, t, next, now)
  }

  /** There are at most four of them. */
  lemma {:induction false} FinishInFour(c: Config, s: Sys, call: Call, now: nat)
    requires Ready(s, call)
    ensures var (s1, c1) := StepCall(c, s, call, now);
            var (s2, c2) := StepCall(c, s1, c1, now);
            var (s3, c3) := StepCall(c, s2, c2, now);
            var (s4, c4) := StepCall(c, s3, c3, now);
            c4.Ended? && Finish(c, s, call, now) == (s4, c4.result)
  {
    var s1, c1 := FinishOne(c, s, call, now);
    var s2, c2 := FinishOne(c, s1, c1, now);
    var s3, c3 := FinishOne(c, s2, c2, now);
    var s4, c4 := FinishOne(c, s3, c3, now);
  }

  lemma {:induction false} FinishOne(c: Config, s: Sys, call: Call, now: nat) returns (t: Sys, next: Call)
    requires Ready(s, call)
    ensures (t, next) == StepCall(c, s, call, now) && Ready(t, next)
    ensures Left(next) < Left(call) || (call.Ended? && next == call)
    ensures Finish(c, s, call, now) == Finish(c, t, next, now)
  {
    var after := StepCall(c, s, call, now);
    t, next := after.0, after.1;
    if !call.Ended? {
      StepStaysReady(c, s, call, now);
    }
  }

  /** That is one of the interleavings. */
  lemma {:induction false} FinishIsSteps(c: Config, w: World, i: nat, now: nat) returns (actions: seq<(Action, nat)>)
    requires i < |w.calls| && Ready(w.sys, w.calls[i])
    ensures forall n :: 0 <= n < |actions| ==> actions[n] == (Step(i), now)
    ensures Run(c, w, actions) ==
            World(Finish(c, w.sys, w.calls[i], now).0, w.calls[i := Ended(Finish(c, w.sys, w.calls[i], now).1)])
    decreases Left(w.calls[i])
  {
    if w.calls[i].Ended? {
      actions := [];
    } else {
      StepStaysReady(c, w.sys, w.calls[i], now);
      var w' := Apply(c, w, Step(i), now);
      var more := FinishIsSteps(c, w', i, now);
      actions := [(Step(i), now)] + more;
      RunFirst(c, w, (Step(i), now), more);
      var ended := Ended(Finish(c, w.sys, w.calls[i], now).1);
      assert w'.calls[i := ended] == w.calls[i := ended];
    }
  }

  lemma {:induction false} RunFirst(c: Config, w: World, a: (Action, nat), actions: seq<(Action, nat)>)
    ensures Run(c, w, [a] + actions) == Run(c, Apply(c, w, a.0, a.1), actions)
    decreases |actions|
  {
    var all := [a] + actions;
    if actions == [] {
      assert all[..0] == [] && Run(c, w, all[..0]) == w;
    } else {
      var last := |actions| - 1;
      assert all[..|all| - 1] == [a] + actions[..last];
      RunFirst(c, w, a, actions[..last]);
    }
  }
}
