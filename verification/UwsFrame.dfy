/** What calls on other jobs do to a job: nothing, in every interleaving. */
module UwsFrame {
  import opened Wrappers
  import opened UwsModel
  import opened UwsProtocol

  // ---- No job is ever mixed up with the message of another one

  predicate Names(key: Key, message: nat, sent: seq<Key>) { message < |sent| && sent[message] == key }

  predicate CallNames(call: Call, sent: seq<Key>) {
    && (call.Patching? ==> !call.update.ToQueued?)
    && (call.Marking? || call.Stopping? || call.Collecting? ==> Names(call.key, call.message, sent))
  }

  ghost predicate JobsName(store: Store, sent: seq<Key>) {
    forall k :: k in store.jobs && store.jobs[k].messageId.Some? ==> Names(k, store.jobs[k].messageId.value, sent)
  }

  ghost predicate CallsName(calls: seq<Call>, sent: seq<Key>) {
    forall i :: 0 <= i < |calls| ==> CallNames(calls[i], sent)
  }

  ghost predicate QueueNames(arq: Arq) {
    forall m :: m in arq.metadata ==> Names(arq.metadata[m].key, m, arq.sent)
  }

  /** Each job and each call only names messages that were sent for its job, and the queue
    only knows messages that were sent, each with its job. */
  ghost predicate NamesOk(w: World) {
    && StoreOk(w.sys.store)
    && JobsName(w.sys.store, w.sys.arq.sent)
    && CallsName(w.calls, w.sys.arq.sent)
    && QueueNames(w.sys.arq)
  }

  lemma {:induction false} StepNames(c: Config, s: Sys, call: Call, now: nat)
    requires JobsName(s.store, s.arq.sent) && CallNames(call, s.arq.sent)
    ensures var (t, next) := StepCall(c, s, call, now);
            && s.arq.sent <= t.arq.sent
            && JobsName(t.store, t.arq.sent) && CallNames(next, t.arq.sent)
  {}

  lemma {:induction false} StepKeepsQueue(c: Config, s: Sys, call: Call, now: nat)
    requires QueueNames(s.arq)
    ensures QueueNames(StepCall(c, s, call, now).0.arq)
  {}

  lemma {:induction false} CallsNameMore(calls: seq<Call>, sent: seq<Key>, more: seq<Key>)
    requires CallsName(calls, sent) && sent <= more
    ensures CallsName(calls, more)
  {
    forall i | 0 <= i < |calls| ensures CallNames(calls[i], more) {
      assert CallNames(calls[i], sent);
    }
  }

  lemma {:induction false} StepKeepsNamesOk(c: Config, w: World, i: nat, now: nat)
    requires NamesOk(w) && i < |w.calls|
    ensures NamesOk(Apply(c, w, Step(i), now))
  {
    var (t, next) := StepCall(c, w.sys, w.calls[i], now);
    StepKeepsStoreOk(c, w.sys, w.calls[i], now);
    StepNames(c, w.sys, w.calls[i], now);
    StepKeepsQueue(c, w.sys, w.calls[i], now);
    CallsNameMore(w.calls, w.sys.arq.sent, t.arq.sent);
  }

  /** A new job has no message, and a worker's report leaves the message as it is. */
  lemma {:induction false} ServeNames(s: Store, request: Request, now: nat, sent: seq<Key>)
    requires JobsName(s, sent) && (request.Patch? ==> !request.update.ToQueued?)
    ensures JobsName(Serve(s, request, now).0, sent)
  {}

  lemma {:induction false} ApplyKeepsNamesOk(c: Config, w: World, a: Action, now: nat)
    requires NamesOk(w)
    ensures NamesOk(Apply(c, w, a, now))
  {
    ApplyKeepsStoreOk(c, w, a, now);
    var s, sent := w.sys.store, w.sys.arq.sent;
    match a
    case Step(i) =>
      if i < |w.calls| {
        StepKeepsNamesOk(c, w, i, now);
      }
    case Create(owner) =>
      ServeNames(s, Post(owner, Whole(now) + c.lifetime, Some(WholeSeconds(c.maxDuration))), now, sent);
    case RunSync(owner) =>
      ServeNames(s, Post(owner, Whole(now) + c.lifetime, Some(WholeSeconds(c.maxDuration))), now, sent);
    case Mark(key, update) =>
      if !update.ToQueued? {
        ServeNames(s, Patch(key, update), now, sent);
      }
    case _ =>
  }

  /** In every interleaving. */
  lemma {:induction false} RunKeepsNamesOk(c: Config, actions: seq<(Action, nat)>)
    ensures NamesOk(Run(c, INITIAL, actions))
    decreases |actions|
  {
    if actions != [] {
      var last := |actions| - 1;
      RunKeepsNamesOk(c, actions[..last]);
      ApplyKeepsNamesOk(c, Run(c, INITIAL, actions[..last]), actions[last].0, actions[last].1);
    }
  }

  // ---- Others leave a job alone

  predicate Elsewhere(call: Call, k: Key) { call.Ended? || call.key != k }

  /** The action is not about this job: it names another one, or steps a call on another
    one, or deals with a message of another one. */
  predicate Foreign(w: World, a: Action, k: Key) {
    match a
    case Create(_) => true
    case RunSync(_) => true
    case Begin(_, key) => key != k
    case Mark(key, _) => key != k
    case Step(i) => i < |w.calls| ==> Elsewhere(w.calls[i], k)
    case TimeOut(i) => i < |w.calls| ==> Elsewhere(w.calls[i], k)
    case Work(m) => m < |w.sys.arq.sent| ==> w.sys.arq.sent[m] != k
    case Complete(m, _) => m < |w.sys.arq.sent| ==> w.sys.arq.sent[m] != k
  }

  ghost predicate AllForeign(c: Config, w: World, actions: seq<(Action, nat)>, k: Key)
    decreases |actions|
  {
    actions == [] ||
    (AllForeign(c, w, actions[..|actions| - 1], k) &&
     Foreign(Run(c, w, actions[..|actions| - 1]), actions[|actions| - 1].0, k))
  }

  predicate SameJob(s: Store, t: Store, k: Key) {
    && (k in t.jobs <==> k in s.jobs) && (k in s.jobs ==> t.jobs[k] == s.jobs[k])
    && s.nextId <= t.nextId
  }

  predicate SameMessageState(a: Arq, b: Arq, m: nat) {
    && (m in b.metadata <==> m in a.metadata) && (m in a.metadata ==> b.metadata[m] == a.metadata[m])
    && (m in b.outcomes <==> m in a.outcomes) && (m in a.outcomes ==> b.outcomes[m] == a.outcomes[m])
  }

  /** The messages of this job are the same, each in the same state with the same outcome. */
  ghost predicate SameMessages(a: Arq, b: Arq, k: Key) {
    && a.sent <= b.sent
    && (forall m :: |a.sent| <= m < |b.sent| ==> b.sent[m] != k)
    && (forall m :: 0 <= m < |a.sent| && a.sent[m] == k ==> SameMessageState(a, b, m))
  }

  ghost predicate SameCalls(calls: seq<Call>, more: seq<Call>, k: Key) {
    && |calls| <= |more|
    && (forall i :: 0 <= i < |calls| && (calls[i].Ended? || calls[i].key == k) ==> more[i] == calls[i])
  }

  /** Everything about this job is as it was. */
  ghost predicate Same(v: World, w: World, k: Key) {
    && SameJob(v.sys.store, w.sys.store, k)
    && SameMessages(v.sys.arq, w.sys.arq, k)
    && SameCalls(v.calls, w.calls, k)
  }

  lemma {:induction false} SameTrans(u: World, v: World, w: World, k: Key)
    requires Same(u, v, k) && Same(v, w, k)
    ensures Same(u, w, k)
  {
    var a, b, d := u.sys.arq, v.sys.arq, w.sys.arq;
    forall m | 0 <= m < |a.sent| && a.sent[m] == k ensures SameMessageState(a, d, m) {
      assert b.sent[m] == k;
      assert SameMessageState(a, b, m) && SameMessageState(b, d, m);
    }
    assert forall i :: 0 <= i < |u.calls| && (u.calls[i].Ended? || u.calls[i].key == k) ==> v.calls[i] == u.calls[i];
  }

  /** A call on another job. */
  lemma {:induction false} StepElsewhere(c: Config, s: Sys, call: Call, now: nat, k: Key)
    requires Elsewhere(call, k) && CallNames(call, s.arq.sent)
    ensures var t := StepCall(c, s, call, now).0;
            SameJob(s.store, t.store, k) && SameMessages(s.arq, t.arq, k)
  {}

  lemma {:induction false} ForeignKeepsJob(c: Config, w: World, a: Action, now: nat, k: Key)
    requires NamesOk(w) && k.id < w.sys.store.nextId && Foreign(w, a, k)
    ensures SameJob(w.sys.store, Apply(c, w, a, now).sys.store, k)
  {
    if a.Step? && a.call < |w.calls| {
      StepElsewhere(c, w.sys, w.calls[a.call], now, k);
    }
  }

  lemma {:induction false} ForeignKeepsMessages(c: Config, w: World, a: Action, now: nat, k: Key)
    requires NamesOk(w) && Foreign(w, a, k)
    ensures SameMessages(w.sys.arq, Apply(c, w, a, now).sys.arq, k)
  {
    if a.Step? && a.call < |w.calls| {
      StepElsewhere(c, w.sys, w.calls[a.call], now, k);
    }
  }

  lemma {:induction false} ForeignLeavesAlone(c: Config, w: World, a: Action, now: nat, k: Key)
    requires NamesOk(w) && k.id < w.sys.store.nextId && Foreign(w, a, k)
    ensures Same(w, Apply(c, w, a, now), k)
  {
    ForeignKeepsJob(c, w, a, now, k);
    ForeignKeepsMessages(c, w, a, now, k);
  }

  /** Whatever happens to other jobs, and in whatever order, the record of a job, its
    messages with their outcomes, and the calls on it stay as they are. */
  lemma {:induction false} OthersLeaveAlone(c: Config, w: World, actions: seq<(Action, nat)>, k: Key)
    requires NamesOk(w) && k.id < w.sys.store.nextId && AllForeign(c, w, actions, k)
    ensures Same(w, Run(c, w, actions), k) && NamesOk(Run(c, w, actions))
    decreases |actions|
  {
    if actions != [] {
      var last := |actions| - 1;
      var v := Run(c, w, actions[..last]);
      OthersLeaveAlone(c, w, actions[..last], k);
      ForeignLeavesAlone(c, v, actions[last].0, actions[last].1, k);
      ApplyKeepsNamesOk(c, v, actions[last].0, actions[last].1);
      SameTrans(w, v, Apply(c, v, actions[last].0, actions[last].1), k);
    }
  }

  // ---- The life of a job among others

  /** Only actions that are not about this job lead from one of these to the other. */
  ghost predicate Meanwhile(c: Config, v: World, w: World, k: Key) {
    exists actions :: AllForeign(c, v, actions, k) && w == Run(c, v, actions)
  }

  lemma {:induction false} MeanwhileAlone(c: Config, v: World, w: World, k: Key)
    requires NamesOk(v) && k.id < v.sys.store.nextId && Meanwhile(c, v, w, k)
    ensures NamesOk(w) && Same(v, w, k)
  {
    var actions :| AllForeign(c, v, actions, k) && w == Run(c, v, actions);
    OthersLeaveAlone(c, v, actions, k);
  }

  /** The action, and then anything about other jobs. */
  ghost predicate Leads(c: Config, v: World, a: Action, now: nat, w: World, k: Key) {
    Meanwhile(c, Apply(c, v, a, now), w, k)
  }

  lemma {:induction false} LeadsAlone(c: Config, v: World, a: Action, now: nat, w: World, k: Key)
    requires NamesOk(v) && Leads(c, v, a, now, w, k)
    requires k.id < v.sys.store.nextId || (a.Create? && k.id == v.sys.store.nextId)
    ensures NamesOk(w) && k.id < w.sys.store.nextId && Same(Apply(c, v, a, now), w, k)
  {
    ApplyKeepsNamesOk(c, v, a, now);
    ApplyKeepsNextId(c, v, a, now);
    MeanwhileAlone(c, Apply(c, v, a, now), w, k);
  }

  lemma {:induction false} ApplyKeepsNextId(c: Config, w: World, a: Action, now: nat)
    ensures Apply(c, w, a, now).sys.store.nextId == w.sys.store.nextId + if a.Create? || a.RunSync? then 1 else 0
  {}

  /** The job is in the store like this. */
  ghost predicate Has(w: World, k: Key, job: Job) {
    NamesOk(w) && k.id < w.sys.store.nextId && k in w.sys.store.jobs && w.sys.store.jobs[k] == job
  }

  predicate Calls(w: World, i: nat, call: Call) { i < |w.calls| && w.calls[i] == call }

  predicate Waits(w: World, message: nat, status: Status) {
    message in w.sys.arq.metadata && w.sys.arq.metadata[message].status == status
  }

  predicate Leaves(w: World, message: nat, outcome: Outcome) {
    message in w.sys.arq.outcomes && w.sys.arq.outcomes[message] == outcome
  }

  /** A new job, as the configuration has it. */
  function Fresh(c: Config, now: nat): Job {
    NewJob(Whole(now) + c.lifetime, Some(WholeSeconds(c.maxDuration)), now)
  }

  lemma {:induction false} CreateLeads(c: Config, v: World, now: nat, w: World, k: Key)
    requires NamesOk(v) && k.id == v.sys.store.nextId && Leads(c, v, Create(k.owner), now, w, k)
    ensures Has(w, k, Fresh(c, now))
  {
    LeadsAlone(c, v, Create(k.owner), now, w, k);
  }

  /** A call begins. */
  lemma {:induction false} BeginLeads(c: Config, v: World, op: Op, now: nat, w: World, k: Key, job: Job)
    requires Has(v, k, job) && !(op.Start? && op.sync) && Leads(c, v, Begin(op, k), now, w, k)
    ensures Has(w, k, job) && Calls(w, |v.calls|, Begun(op, k)) && SameMessages(v.sys.arq, w.sys.arq, k)
  {
    LeadsAlone(c, v, Begin(op, k), now, w, k);
    assert Apply(c, v, Begin(op, k), now).calls[|v.calls|] == Begun(op, k);
  }

  /** A call goes on, and does among others exactly what it would do alone. */
  lemma {:induction false} StepLeads(c: Config, v: World, i: nat, now: nat, w: World, k: Key, job: Job)
    requires Has(v, k, job) && i < |v.calls| && Leads(c, v, Step(i), now, w, k)
    requires !v.calls[i].Ended? && v.calls[i].key == k && !v.calls[i].Dropping?
    ensures var (t, next) := StepCall(c, v.sys, v.calls[i], now);
            && Calls(w, i, next) && k in t.store.jobs && Has(w, k, t.store.jobs[k])
            && SameMessages(t.arq, w.sys.arq, k)
  {
    LeadsAlone(c, v, Step(i), now, w, k);
    assert Apply(c, v, Step(i), now).calls[i] == StepCall(c, v.sys, v.calls[i], now).1;
  }

  lemma {:induction false} ReadLeads(c: Config, v: World, op: Op, i: nat, now: nat, w: World, k: Key, job: Job)
    requires Has(v, k, job) && Calls(v, i, Begun(op, k)) && Leads(c, v, Step(i), now, w, k)
    ensures Has(w, k, job) && Calls(w, i, AfterRead(c, op, k, job)) && SameMessages(v.sys.arq, w.sys.arq, k)
  {
    StepLeads(c, v, i, now, w, k, job);
  }

  lemma {:induction false} EnqueueLeads(c: Config, v: World, i: nat, now: nat, w: World, k: Key, job: Job)
    requires Has(v, k, job) && Calls(v, i, Enqueueing(k, false)) && Leads(c, v, Step(i), now, w, k)
    ensures var message := |v.sys.arq.sent|;
            Has(w, k, job) && Calls(w, i, Marking(k, message, false))
            && Names(k, message, w.sys.arq.sent) && Waits(w, message, InQueue)
  {
    StepLeads(c, v, i, now, w, k, job);
    var arq := Enqueue(v.sys.arq, k);
    assert arq.sent[|v.sys.arq.sent|] == k;
    assert SameMessageState(arq, w.sys.arq, |v.sys.arq.sent|);
  }

  lemma {:induction false} MarkLeads(
      c: Config, v: World, i: nat, message: nat, now: nat, w: World, k: Key, job: Job)
    requires Has(v, k, job) && Calls(v, i, Marking(k, message, false)) && Leads(c, v, Step(i), now, w, k)
    ensures Has(w, k, job.(phase := Queued, messageId := Some(message))) && Calls(w, i, Ended(Sent(message)))
    ensures SameMessages(v.sys.arq, w.sys.arq, k)
  {
    StepLeads(c, v, i, now, w, k, job);
  }

  lemma {:induction false} WaitsStill(v: World, w: World, k: Key, message: nat, status: Status)
    requires SameMessages(v.sys.arq, w.sys.arq, k) && Names(k, message, v.sys.arq.sent) && Waits(v, message, status)
    ensures Names(k, message, w.sys.arq.sent) && Waits(w, message, status)
  {
    assert SameMessageState(v.sys.arq, w.sys.arq, message);
  }

  lemma {:induction false} LeavesStill(v: World, w: World, k: Key, message: nat, outcome: Outcome)
    requires SameMessages(v.sys.arq, w.sys.arq, k) && Names(k, message, v.sys.arq.sent) && Leaves(v, message, outcome)
    ensures Names(k, message, w.sys.arq.sent) && Leaves(w, message, outcome)
  {
    assert SameMessageState(v.sys.arq, w.sys.arq, message);
  }

  /** A job is created and started. */
  lemma {:induction false} StartAmongOthers(
      c: Config, w0: World, w1: World, w2: World, w3: World, w4: World, w5: World, t: seq<nat>, k: Key)
    requires |t| >= 5 && NamesOk(w0) && k.id == w0.sys.store.nextId
    requires Leads(c, w0, Create(k.owner), t[0], w1, k) && Leads(c, w1, Begin(Start(false), k), t[1], w2, k)
    requires Leads(c, w2, Step(|w1.calls|), t[2], w3, k) && Leads(c, w3, Step(|w1.calls|), t[3], w4, k)
    requires Leads(c, w4, Step(|w1.calls|), t[4], w5, k)
    ensures var message := |w3.sys.arq.sent|;
            && Has(w5, k, Fresh(c, t[0]).(phase := Queued, messageId := Some(message)))
            && Calls(w5, |w1.calls|, Ended(Sent(message)))
            && Names(k, message, w5.sys.arq.sent) && Waits(w5, message, InQueue)
  {
    var job, i, message := Fresh(c, t[0]), |w1.calls|, |w3.sys.arq.sent|;
    CreateLeads(c, w0, t[0], w1, k);
    BeginLeads(c, w1, Start(false), t[1], w2, k, job);
    ReadLeads(c, w2, Start(false), i, t[2], w3, k, job);
    EnqueueLeads(c, w3, i, t[3], w4, k, job);
    MarkLeads(c, w4, i, message, t[4], w5, k, job);
    WaitsStill(w4, w5, k, message, InQueue);
  }

  lemma {:induction false} WorkLeads(c: Config, v: World, message: nat, now: nat, w: World, k: Key, job: Job)
    requires Has(v, k, job) && Names(k, message, v.sys.arq.sent) && Waits(v, message, InQueue)
    requires Leads(c, v, Work(message), now, w, k)
    ensures Has(w, k, job) && Names(k, message, w.sys.arq.sent) && Waits(w, message, InProgress)
  {
    LeadsAlone(c, v, Work(message), now, w, k);
    WaitsStill(Apply(c, v, Work(message), now), w, k, message, InProgress);
  }

  lemma {:induction false} NoteLeads(
      c: Config, v: World, start: nat, message: nat, now: nat, w: World, k: Key, job: Job)
    requires Has(v, k, job) && Names(k, message, v.sys.arq.sent) && Waits(v, message, InProgress)
    requires Leads(c, v, Mark(k, ToExecuting(start)), now, w, k)
    ensures Has(w, k, job.(phase := Executing, start := Some(Whole(start))))
    ensures Names(k, message, w.sys.arq.sent) && Waits(w, message, InProgress)
  {
    LeadsAlone(c, v, Mark(k, ToExecuting(start)), now, w, k);
    WaitsStill(Apply(c, v, Mark(k, ToExecuting(start)), now), w, k, message, InProgress);
  }

  lemma {:induction false} CompleteLeads(
      c: Config, v: World, message: nat, outcome: Outcome, now: nat, w: World, k: Key, job: Job)
    requires Has(v, k, job) && Names(k, message, v.sys.arq.sent) && Waits(v, message, InProgress)
    requires Leads(c, v, Complete(message, outcome), now, w, k)
    ensures Has(w, k, job) && Names(k, message, w.sys.arq.sent) && Leaves(w, message, outcome)
  {
    LeadsAlone(c, v, Complete(message, outcome), now, w, k);
    LeavesStill(Apply(c, v, Complete(message, outcome), now), w, k, message, outcome);
  }

  lemma {:induction false} CollectLeads(
      c: Config, v: World, j: nat, message: nat, outcome: Outcome, now: nat, w: World, k: Key, job: Job)
    requires Has(v, k, job) && Names(k, message, v.sys.arq.sent) && Leaves(v, message, outcome)
    requires Calls(v, j, Collecting(k, message)) && Leads(c, v, Step(j), now, w, k)
    ensures Has(w, k, job)
    ensures var update := UpdateOf(Annotated(outcome));
            Calls(w, j, if update.None? then Ended(TypeError) else Patching(k, update.value, Finished))
  {
    StepLeads(c, v, j, now, w, k, job);
  }

  lemma {:induction false} PatchLeads(
      c: Config, v: World, j: nat, update: Update, result: Result, now: nat, w: World, k: Key, job: Job)
    requires Has(v, k, job) && Calls(v, j, Patching(k, update, result)) && Leads(c, v, Step(j), now, w, k)
    requires Updated(job, update, now).Some?
    ensures Has(w, k, Updated(job, update, now).value) && Calls(w, j, Ended(result))
  {
    StepLeads(c, v, j, now, w, k, job);
  }

  /** What the record of an outcome makes of the job. */
  function Recorded(job: Job, outcome: Outcome, now: nat): Job
    requires !outcome.Cancelled?
  {
    var over := job.(end := Some(Whole(now)));
    if outcome.Raised? then over.(phase := Error, errors := [ErrorOf(Annotated(outcome).exn)])
    else over.(phase := Completed, results := outcome.results)
  }

  lemma {:induction false} UpdateRecords(job: Job, outcome: Outcome, now: nat)
    requires !outcome.Cancelled?
    ensures var update := UpdateOf(Annotated(outcome));
            update.Some? && Updated(job, update.value, now) == Some(Recorded(job, outcome, now))
  {}

  /** The outcome of the work is recorded. */
  lemma {:induction false} RecordAmongOthers(
      c: Config, w0: World, w1: World, w2: World, w3: World, w4: World, t: seq<nat>, k: Key, message: nat,
      outcome: Outcome, job: Job)
    requires |t| == 12 && !outcome.Cancelled? && Has(w0, k, job) && job.messageId == Some(message)
    requires Names(k, message, w0.sys.arq.sent) && Leaves(w0, message, outcome)
    requires Leads(c, w0, Begin(Record, k), t[8], w1, k) && Leads(c, w1, Step(|w0.calls|), t[9], w2, k)
    requires Leads(c, w2, Step(|w0.calls|), t[10], w3, k) && Leads(c, w3, Step(|w0.calls|), t[11], w4, k)
    ensures Calls(w4, |w0.calls|, Ended(Finished)) && Has(w4, k, Recorded(job, outcome, t[11]))
  {
    var j := |w0.calls|;
    BeginLeads(c, w0, Record, t[8], w1, k, job);
    LeavesStill(w0, w1, k, message, outcome);
    ReadLeads(c, w1, Record, j, t[9], w2, k, job);
    LeavesStill(w1, w2, k, message, outcome);
    CollectLeads(c, w2, j, message, outcome, t[10], w3, k, job);
    UpdateRecords(job, outcome, t[11]);
    PatchLeads(c, w3, j, UpdateOf(Annotated(outcome)).value, Finished, t[11], w4, k, job);
  }

  /** The own requests in the life of a job, created, started, worked on and recorded, each
    followed by anything about other jobs. */
  ghost predicate Lives(c: Config, w: seq<World>, t: seq<nat>, k: Key, start: nat, outcome: Outcome) {
    && |w| == 13 && |t| == 12
    && var (i, message, j) := (|w[1].calls|, |w[3].sys.arq.sent|, |w[8].calls|);
    && Leads(c, w[0], Create(k.owner), t[0], w[1], k)
    && Leads(c, w[1], Begin(Start(false), k), t[1], w[2], k)
    && Leads(c, w[2], Step(i), t[2], w[3], k)
    && Leads(c, w[3], Step(i), t[3], w[4], k)
    && Leads(c, w[4], Step(i), t[4], w[5], k)
    && Leads(c, w[5], Work(message), t[5], w[6], k)
    && Leads(c, w[6], Mark(k, ToExecuting(start)), t[6], w[7], k)
    && Leads(c, w[7], Complete(message, outcome), t[7], w[8], k)
    && Leads(c, w[8], Begin(Record, k), t[8], w[9], k)
    && Leads(c, w[9], Step(j), t[9], w[10], k)
    && Leads(c, w[10], Step(j), t[10], w[11], k)
    && Leads(c, w[11], Step(j), t[11], w[12], k)
  }

  /** The whole life of a job, with anything about other jobs between any two of its requests:
    it ends up with its own message, in the phase of its own outcome and with what that says,
    so that a synchronous call returns its first result or raises its error. */
  lemma {:induction false} LifeAmongOthers(
      c: Config, w: seq<World>, t: seq<nat>, k: Key, start: nat, outcome: Outcome)
    requires Lives(c, w, t, k, start, outcome)
    requires NamesOk(w[0]) && k.id == w[0].sys.store.nextId && !outcome.Cancelled?
    ensures var message := |w[3].sys.arq.sent|;
            var end := Some(Whole(t[11]));
            var job := Fresh(c, t[0]).(messageId := Some(message), start := Some(Whole(start)), end := end);
            && Names(k, message, w[12].sys.arq.sent)
            && Calls(w[12], |w[8].calls|, Ended(Finished))
            && Has(w[12], k,
                   if outcome.Raised? then job.(phase := Error, errors := [ErrorOf(Annotated(outcome).exn)])
                   else job.(phase := Completed, results := outcome.results))
            && SyncOutcome(w[12].sys.store.jobs[k]) ==
               (if outcome.Raised? then SyncFailed(ErrorOf(Annotated(outcome).exn))
                else if outcome.results == [] then SyncNoResults else SyncResult(outcome.results[0]))
  {
    var message := |w[3].sys.arq.sent|;
    var queued := Fresh(c, t[0]).(phase := Queued, messageId := Some(message));
    var job := queued.(phase := Executing, start := Some(Whole(start)));
    StartAmongOthers(c, w[0], w[1], w[2], w[3], w[4], w[5], t, k);
    WorkLeads(c, w[5], message, t[5], w[6], k, queued);
    NoteLeads(c, w[6], start, message, t[6], w[7], k, queued);
    CompleteLeads(c, w[7], message, outcome, t[7], w[8], k, job);
    RecordAmongOthers(c, w[8], w[9], w[10], w[11], w[12], t, k, message, outcome, job);
  }
}
