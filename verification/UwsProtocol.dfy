/** What holds however the calls on UWS jobs interleave. */
module UwsProtocol {
  import opened Wrappers
  import opened UwsModel

  // ---- At most one message for each job

  /** A start of this job that has found it PENDING and not yet recorded its message. */
  predicate Past(call: Call, k: Key) {
    (call.Enqueueing? || call.Marking?) && call.key == k
  }

  /** Two starts of the job are at it at the same time. */
  ghost predicate Racing(calls: seq<Call>, k: Key) {
    exists i, j :: 0 <= i < j < |calls| && Past(calls[i], k) && Past(calls[j], k)
  }

  ghost predicate NeverRacing(c: Config, actions: seq<(Action, nat)>, k: Key)
    decreases |actions|
  {
    && (actions == [] || NeverRacing(c, actions[..|actions| - 1], k))
    && !Racing(Run(c, INITIAL, actions).calls, k)
  }

  ghost predicate NoneMarking(calls: seq<Call>, k: Key) {
    forall i :: 0 <= i < |calls| ==> !(calls[i].Marking? && calls[i].key == k)
  }

  ghost predicate NoneSent(sent: seq<Key>, k: Key) {
    forall m :: 0 <= m < |sent| ==> sent[m] != k
  }

  ghost predicate OneSent(sent: seq<Key>, k: Key) {
    forall m, n :: 0 <= m < n < |sent| ==> !(sent[m] == k && sent[n] == k)
  }

  /** What a call on this job knows about the messages. */
  ghost predicate CallOk(call: Call, sent: seq<Key>, nextId: nat, k: Key) {
    && (call.Patching? ==> !call.update.ToQueued?)
    && (call.Enqueueing? && call.key == k ==> NoneSent(sent, k) && k.id < nextId)
    && (call.Marking? && call.key == k ==> call.message < |sent| && sent[call.message] == k && k.id < nextId)
  }

  ghost predicate CallsOk(calls: seq<Call>, sent: seq<Key>, nextId: nat, k: Key) {
    forall i :: 0 <= i < |calls| ==> CallOk(calls[i], sent, nextId, k)
  }

  /** What the record of this job says about the messages. */
  ghost predicate RecordOk(store: Store, sent: seq<Key>, calls: seq<Call>, k: Key) {
    && (k.id >= store.nextId ==> NoneSent(sent, k))
    && (k in store.jobs ==>
          && (store.jobs[k].messageId.Some? ==>
                store.jobs[k].messageId.value < |sent| && sent[store.jobs[k].messageId.value] == k)
          && (store.jobs[k].phase.Pending? && NoneMarking(calls, k) ==> NoneSent(sent, k)))
  }

  ghost predicate MessagesOk(w: World, k: Key) {
    && StoreOk(w.sys.store)
    && OneSent(w.sys.arq.sent, k)
    && CallsOk(w.calls, w.sys.arq.sent, w.sys.store.nextId, k)
    && RecordOk(w.sys.store, w.sys.arq.sent, w.calls, k)
  }

  /** A change of the store that neither creates this job nor records a message for it. */
  ghost predicate Quiet(s: Store, t: Store, k: Key) {
    && s.nextId <= t.nextId
    && (k in t.jobs ==>
          && k in s.jobs && t.jobs[k].messageId == s.jobs[k].messageId
          && (t.jobs[k].phase.Pending? ==> s.jobs[k].phase.Pending?))
  }

  lemma {:induction false} ServeIsQuiet(s: Store, request: Request, now: nat, k: Key)
    requires request.Post? ==> Key(request.owner, s.nextId) != k
    requires request.Patch? && request.update.ToQueued? ==> request.key != k
    ensures Quiet(s, Serve(s, request, now).0, k)
  {}

  lemma {:induction false} QuietKeepsRecord(s: Store, t: Store, sent: seq<Key>, calls: seq<Call>, k: Key)
    requires RecordOk(s, sent, calls, k) && Quiet(s, t, k)
    ensures RecordOk(t, sent, calls, k)
  {}

  lemma {:induction false} CallsKeepOk(calls: seq<Call>, sent: seq<Key>, nextId: nat, later: nat, k: Key)
    requires CallsOk(calls, sent, nextId, k) && nextId <= later
    ensures CallsOk(calls, sent, later, k)
  {}

  lemma {:induction false} NoneMarkingBefore(calls: seq<Call>, i: nat, call: Call, k: Key)
    requires i < |calls| && !(calls[i].Marking? && calls[i].key == k) && NoneMarking(calls[i := call], k)
    ensures NoneMarking(calls, k)
  {
    assert forall j :: 0 <= j < |calls| && j != i ==> calls[i := call][j] == calls[j];
  }

  /** Where nobody races, nobody but the one who is past its read is. */
  lemma {:induction false} OnlyOnePast(calls: seq<Call>, i: nat, j: nat, k: Key)
    requires !Racing(calls, k) && i < |calls| && j < |calls| && i != j && Past(calls[i], k)
    ensures !Past(calls[j], k)
  {}

  /** A message for another job makes no difference. */
  lemma {:induction false} OtherMessage(s: Store, sent: seq<Key>, calls: seq<Call>, other: Key, k: Key)
    requires other != k && OneSent(sent, k) && CallsOk(calls, sent, s.nextId, k) && RecordOk(s, sent, calls, k)
    ensures var more := sent + [other];
            OneSent(more, k) && CallsOk(calls, more, s.nextId, k) && RecordOk(s, more, calls, k)
  {}

  /** Where a call that is not past its read as a start of this job goes. */
  lemma {:induction false} OtherStep(c: Config, s: Sys, call: Call, now: nat, k: Key)
    requires !Past(call, k) && (call.Patching? ==> !call.update.ToQueued?)
    requires k in s.store.jobs ==> JobOk(s.store.jobs[k])
    ensures var (t, next) := StepCall(c, s, call, now);
            && (next.Patching? ==> !next.update.ToQueued?)
            && Quiet(s.store, t.store, k)
            && t.arq.sent == (if call.Enqueueing? then s.arq.sent + [call.key] else s.arq.sent)
            && (Past(next, k) ==>
                  next.Enqueueing? && call.Begun? && k in s.store.jobs && s.store.jobs[k].phase.Pending?)
  {}

  lemma {:induction false} OtherStepKeepsOk(c: Config, w: World, i: nat, now: nat, k: Key)
    requires MessagesOk(w, k) && i < |w.calls| && !Past(w.calls[i], k)
    requires !Racing(Apply(c, w, Step(i), now).calls, k)
    ensures MessagesOk(Apply(c, w, Step(i), now), k)
  {
    var call, sent := w.calls[i], w.sys.arq.sent;
    assert CallOk(call, sent, w.sys.store.nextId, k);
    var (t, next) := StepCall(c, w.sys, call, now);
    var calls := w.calls[i := next];
    OtherStep(c, w.sys, call, now, k);
    StepKeepsStoreOk(c, w.sys, call, now);
    if Past(next, k) {
      forall j | 0 <= j < |w.calls| ensures !(w.calls[j].Marking? && w.calls[j].key == k) {
        if j != i {
          OnlyOnePast(calls, i, j, k);
        }
      }
    }
    assert CallOk(next, sent, w.sys.store.nextId, k);
    assert CallsOk(calls, sent, w.sys.store.nextId, k);
    CallsKeepOk(calls, sent, w.sys.store.nextId, t.store.nextId, k);
    QuietKeepsRecord(w.sys.store, t.store, sent, w.calls, k);
    assert NoneMarking(calls, k) ==> NoneMarking(w.calls, k) by {
      if NoneMarking(calls, k) {
        NoneMarkingBefore(w.calls, i, next, k);
      }
    }
    if call.Enqueueing? {
      OtherMessage(t.store, sent, calls, call.key, k);
    }
  }

  lemma {:induction false} StepKeepsStoreOk(c: Config, s: Sys, call: Call, now: nat)
    requires StoreOk(s.store)
    ensures StoreOk(StepCall(c, s, call, now).0.store)
  {
    match call
    case Marking(key, message, _) => ServeKeepsOk(s.store, Patch(key, ToQueued(Some(message))), now);
    case Dropping(key) => ServeKeepsOk(s.store, Delete(key), now);
    case Patching(key, update, _) => ServeKeepsOk(s.store, Patch(key, update), now);
    case _ =>
  }

  /** The only start that is past its read goes on. */
  lemma {:induction false} PastStepKeepsOk(c: Config, w: World, i: nat, now: nat, k: Key)
    requires MessagesOk(w, k) && !Racing(w.calls, k) && i < |w.calls| && Past(w.calls[i], k)
    ensures MessagesOk(Apply(c, w, Step(i), now), k)
  {
    var call, sent, store := w.calls[i], w.sys.arq.sent, w.sys.store;
    assert CallOk(call, sent, store.nextId, k);
    var (t, next) := StepCall(c, w.sys, call, now);
    var calls := w.calls[i := next];
    StepKeepsStoreOk(c, w.sys, call, now);
    forall j | 0 <= j < |calls| ensures CallOk(calls[j], t.arq.sent, t.store.nextId, k) {
      assert CallOk(w.calls[j], sent, store.nextId, k);
      if j != i {
        OnlyOnePast(w.calls, i, j, k);
      }
    }
    assert calls[i] == next;
  }

  lemma {:induction false} BeginKeepsRecord(s: Store, sent: seq<Key>, calls: seq<Call>, op: Op, key: Key, k: Key)
    requires RecordOk(s, sent, calls, k)
    ensures RecordOk(s, sent, calls + [Begun(op, key)], k)
  {
    var more := calls + [Begun(op, key)];
    assert NoneMarking(more, k) ==> NoneMarking(calls, k) by {
      assert forall j :: 0 <= j < |calls| ==> calls[j] == more[j];
    }
  }

  /** A new job comes without messages. */
  lemma {:induction false} CreateKeepsOk(c: Config, w: World, owner: Owner, now: nat, k: Key)
    requires MessagesOk(w, k)
    ensures MessagesOk(w.(sys := CreateJob(c, w.sys, owner, now)), k)
  {}

  lemma {:induction false} MarkKeepsOk(c: Config, w: World, key: Key, update: Update, now: nat, k: Key)
    requires MessagesOk(w, k)
    ensures MessagesOk(Apply(c, w, Mark(key, update), now), k)
  {
    if !update.Metadata? && !update.ToQueued? {
      ServeKeepsOk(w.sys.store, Patch(key, update), now);
      ServeIsQuiet(w.sys.store, Patch(key, update), now, k);
      QuietKeepsRecord(w.sys.store, Serve(w.sys.store, Patch(key, update), now).0, w.sys.arq.sent, w.calls, k);
    }
  }

  lemma {:induction false} TimeOutKeepsOk(c: Config, w: World, i: nat, now: nat, k: Key)
    requires MessagesOk(w, k)
    ensures MessagesOk(Apply(c, w, TimeOut(i), now), k)
  {
    if i < |w.calls| && w.calls[i].Polling? {
      var next := LastRead(w.calls[i].key);
      if NoneMarking(w.calls[i := next], k) {
        NoneMarkingBefore(w.calls, i, next, k);
      }
    }
  }

  lemma {:induction false} ApplyKeepsOk(c: Config, w: World, a: Action, now: nat, k: Key)
    requires MessagesOk(w, k) && !Racing(w.calls, k) && !Racing(Apply(c, w, a, now).calls, k)
    ensures MessagesOk(Apply(c, w, a, now), k)
  {
    match a
    case Create(owner) => CreateKeepsOk(c, w, owner, now, k);
    case Begin(op, key) => BeginKeepsRecord(w.sys.store, w.sys.arq.sent, w.calls, op, key, k);
    case RunSync(owner) =>
      var w' := w.(sys := CreateJob(c, w.sys, owner, now));
      CreateKeepsOk(c, w, owner, now, k);
      BeginKeepsRecord(w'.sys.store, w'.sys.arq.sent, w'.calls, Start(true), Key(owner, w.sys.store.nextId), k);
    case Step(i) =>
      if i < |w.calls| {
        if Past(w.calls[i], k) {
          PastStepKeepsOk(c, w, i, now, k);
        } else {
          OtherStepKeepsOk(c, w, i, now, k);
        }
      }
    case TimeOut(i) => TimeOutKeepsOk(c, w, i, now, k);
    case Mark(key, update) => MarkKeepsOk(c, w, key, update, now, k);
    case Work(_) =>
    case Complete(_, _) =>
  }

  lemma {:induction false} RunKeepsOk(c: Config, actions: seq<(Action, nat)>, k: Key)
    requires NeverRacing(c, actions, k)
    ensures MessagesOk(Run(c, INITIAL, actions), k)
    decreases |actions|
  {
    if actions != [] {
      var last := |actions| - 1;
      RunKeepsOk(c, actions[..last], k);
      ApplyKeepsOk(c, Run(c, INITIAL, actions[..last]), actions[last].0, actions[last].1, k);
    }
  }

  /** If no two starts of a job are past their read at the same time, whatever else overlaps,
    then at most one message is ever sent for it, and the record of the job names no other. */
  lemma {:induction false} AtMostOneMessage(c: Config, actions: seq<(Action, nat)>, k: Key)
    requires NeverRacing(c, actions, k)
    ensures var w := Run(c, INITIAL, actions);
            && OneSent(w.sys.arq.sent, k)
            && (k in w.sys.store.jobs && w.sys.store.jobs[k].messageId.Some? ==>
                  w.sys.store.jobs[k].messageId.value < |w.sys.arq.sent| &&
                  w.sys.arq.sent[w.sys.store.jobs[k].messageId.value] == k)
  {
    RunKeepsOk(c, actions, k);
  }

  // ---- Starts that do not overlap never race

  /** A call that may still send a message for this job, or record it. */
  predicate Starting(call: Call, k: Key) {
    (call.Begun? && call.op.Start? && call.key == k) || Past(call, k)
  }

  /** A start of this job only begins when no other one is under way. */
  ghost predicate StartsAlone(w: World, a: Action, k: Key) {
    ((a.Begin? && a.op.Start? && a.key == k) || (a.RunSync? && Key(a.owner, w.sys.store.nextId) == k)) ==>
    forall i :: 0 <= i < |w.calls| ==> !Starting(w.calls[i], k)
  }

  ghost predicate AlwaysAlone(c: Config, actions: seq<(Action, nat)>, k: Key)
    decreases |actions|
  {
    actions == [] ||
    (AlwaysAlone(c, actions[..|actions| - 1], k) &&
     StartsAlone(Run(c, INITIAL, actions[..|actions| - 1]), actions[|actions| - 1].0, k))
  }

  ghost predicate OneStarting(calls: seq<Call>, k: Key) {
    forall i, j :: 0 <= i < j < |calls| ==> !(Starting(calls[i], k) && Starting(calls[j], k))
  }

  lemma {:induction false} OnlyStartsStart(c: Config, s: Sys, call: Call, now: nat, k: Key)
    ensures Starting(StepCall(c, s, call, now).1, k) ==> Starting(call, k)
  {}

  lemma {:induction false} ApplyKeepsOneStarting(c: Config, w: World, a: Action, now: nat, k: Key)
    requires OneStarting(w.calls, k) && StartsAlone(w, a, k)
    ensures OneStarting(Apply(c, w, a, now).calls, k)
  {
    if a.Step? && a.call < |w.calls| {
      OnlyStartsStart(c, w.sys, w.calls[a.call], now, k);
    }
  }

  lemma {:induction false} RunKeepsOneStarting(c: Config, actions: seq<(Action, nat)>, k: Key)
    requires AlwaysAlone(c, actions, k)
    ensures OneStarting(Run(c, INITIAL, actions).calls, k)
    decreases |actions|
  {
    if actions != [] {
      var last := |actions| - 1;
      RunKeepsOneStarting(c, actions[..last], k);
      ApplyKeepsOneStarting(c, Run(c, INITIAL, actions[..last]), actions[last].0, actions[last].1, k);
    }
  }

  /** So it is enough to begin no start of a job while another one is under way. */
  lemma {:induction false} AloneNeverRaces(c: Config, actions: seq<(Action, nat)>, k: Key)
    requires AlwaysAlone(c, actions, k)
    ensures NeverRacing(c, actions, k)
    decreases |actions|
  {
    RunKeepsOneStarting(c, actions, k);
    if actions != [] {
      AloneNeverRaces(c, actions[..|actions| - 1], k);
    }
  }

  // ---- Starts that race send two messages

  predicate Owes(call: Call, k: Key) { call.Enqueueing? && call.key == k }

  /** How many messages for this job are still to be sent by starts that have found it PENDING. */
  function Owed(calls: seq<Call>, k: Key): nat
    decreases |calls|
  {
    if calls == [] then 0
    else Owed(calls[..|calls| - 1], k) + if Owes(calls[|calls| - 1], k) then 1 else 0
  }

  lemma {:induction false} OwedUpdate(calls: seq<Call>, i: nat, call: Call, k: Key)
    requires i < |calls|
    ensures Owed(calls[i := call], k) + (if Owes(calls[i], k) then 1 else 0) ==
            Owed(calls, k) + if Owes(call, k) then 1 else 0
    decreases |calls|
  {
    var last := |calls| - 1;
    if i < last {
      assert calls[i := call][..last] == calls[..last][i := call];
      OwedUpdate(calls[..last], i, call, k);
    } else {
      assert calls[i := call][..last] == calls[..last];
    }
  }

  lemma {:induction false} OwedNone(calls: seq<Call>, k: Key)
    requires forall i :: 0 <= i < |calls| ==> !Owes(calls[i], k)
    ensures Owed(calls, k) == 0
    decreases |calls|
  {
    if calls != [] {
      OwedNone(calls[..|calls| - 1], k);
    }
  }

  function Count(sent: seq<Key>, k: Key): nat { multiset(sent)[k] }

  lemma {:induction false} CountMore(sent: seq<Key>, other: Key, k: Key)
    ensures Count(sent + [other], k) == Count(sent, k) + if other == k then 1 else 0
  {}

  lemma {:induction false} Counted(sent: seq<Key>, k: Key)
    ensures Count(sent, k) >= 2 <==> !OneSent(sent, k)
    ensures Count(sent, k) >= 1 <==> !NoneSent(sent, k)
    decreases |sent|
  {
    if sent != [] {
      var front, last := sent[..|sent| - 1], sent[|sent| - 1];
      assert sent == front + [last];
      CountMore(front, last, k);
      Counted(front, k);
      assert sent[|sent| - 1] == last && forall m :: 0 <= m < |front| ==> front[m] == sent[m];
    }
  }

  /** The messages that have been sent for a job, and those that certainly will be. */
  function Messages(w: World, k: Key): nat { Count(w.sys.arq.sent, k) + Owed(w.calls, k) }

  lemma {:induction false} StepSends(c: Config, s: Sys, call: Call, now: nat, k: Key)
    ensures var (t, next) := StepCall(c, s, call, now);
            && (call.Enqueueing? ==> t.arq.sent == s.arq.sent + [call.key] && !Owes(next, k))
            && (!call.Enqueueing? ==> t.arq.sent == s.arq.sent)
  {}

  /** What has been sent or is to be sent is never taken back, whatever happens. */
  lemma {:induction false} MessagesNeverDecrease(c: Config, w: World, a: Action, now: nat, k: Key)
    ensures Messages(Apply(c, w, a, now), k) >= Messages(w, k)
  {
    var w' := Apply(c, w, a, now);
    if (a.Step? || a.TimeOut?) && a.call < |w.calls| {
      var call, sent := w.calls[a.call], w.sys.arq.sent;
      OwedUpdate(w.calls, a.call, w'.calls[a.call], k);
      if a.Step? {
        StepSends(c, w.sys, call, now, k);
        CountMore(sent, if call.Enqueueing? then call.key else k, k);
      }
    } else if |w'.calls| > |w.calls| {
      assert w'.calls[..|w'.calls| - 1] == w.calls;
    }
  }

  /** At the first race one start has just found the job PENDING. The other one has sent its
    message already or is going to. */
  lemma {:induction false} FirstRace(c: Config, actions: seq<(Action, nat)>, k: Key) returns (i: nat, j: nat)
    requires actions != [] && NeverRacing(c, actions[..|actions| - 1], k)
    requires Racing(Run(c, INITIAL, actions).calls, k)
    ensures var w := Run(c, INITIAL, actions);
            && i < |w.calls| && j < |w.calls| && i != j
            && Owes(w.calls[i], k) && Past(w.calls[j], k)
            && (w.calls[j].Marking? ==> !NoneSent(w.sys.arq.sent, k))
  {
    var last := |actions| - 1;
    var v, w := Run(c, INITIAL, actions[..last]), Run(c, INITIAL, actions);
    var (a, now) := actions[last];
    RunKeepsOk(c, actions[..last], k);
    i, j := RaceBegins(c, v, a, now, k);
    assert CallOk(v.calls[j], v.sys.arq.sent, v.sys.store.nextId, k);
  }

  lemma {:induction false} RaceBegins(c: Config, v: World, a: Action, now: nat, k: Key) returns (i: nat, j: nat)
    requires StoreOk(v.sys.store) && CallsOk(v.calls, v.sys.arq.sent, v.sys.store.nextId, k)
    requires !Racing(v.calls, k) && Racing(Apply(c, v, a, now).calls, k)
    ensures var w := Apply(c, v, a, now);
            && i < |w.calls| && j < |v.calls| && |v.calls| == |w.calls| && i != j
            && Owes(w.calls[i], k) && v.calls[j] == w.calls[j] && Past(w.calls[j], k)
            && v.sys.arq.sent == w.sys.arq.sent
  {
    var w := Apply(c, v, a, now);
    var m, n :| 0 <= m < n < |w.calls| && Past(w.calls[m], k) && Past(w.calls[n], k);
    i := a.call;
    j := if m == i then n else m;
    if Past(v.calls[i], k) {
      OnlyOnePast(v.calls, i, j, k);
    }
    assert CallOk(v.calls[i], v.sys.arq.sent, v.sys.store.nextId, k);
    OtherStep(c, v.sys, v.calls[i], now, k);
  }

  lemma {:induction false} RaceOwesTwo(w: World, i: nat, j: nat, k: Key)
    requires i < |w.calls| && j < |w.calls| && i != j && Owes(w.calls[i], k) && Past(w.calls[j], k)
    requires w.calls[j].Marking? ==> !NoneSent(w.sys.arq.sent, k)
    ensures Messages(w, k) >= 2
  {
    var none := Ended(Finished);
    OwedUpdate(w.calls, i, none, k);
    OwedUpdate(w.calls[i := none], j, none, k);
    Counted(w.sys.arq.sent, k);
  }

  lemma {:induction false} NoRaceOwesOne(w: World, k: Key)
    requires MessagesOk(w, k) && !Racing(w.calls, k)
    ensures Messages(w, k) <= 1
  {
    var sent := w.sys.arq.sent;
    Counted(sent, k);
    if i :| 0 <= i < |w.calls| && Owes(w.calls[i], k) {
      var none := Ended(Finished);
      assert CallOk(w.calls[i], sent, w.sys.store.nextId, k);
      OwedUpdate(w.calls, i, none, k);
      var others := w.calls[i := none];
      forall j | 0 <= j < |others| ensures !Owes(others[j], k) {
        if j != i {
          OnlyOnePast(w.calls, i, j, k);
        }
      }
      OwedNone(others, k);
    } else {
      OwedNone(w.calls, k);
    }
  }

  /** The exact danger, in every interleaving: two starts have raced for a job if and only if
    more than one message has been sent for it or is going to be. */
  lemma {:induction false} OneMessageIff(c: Config, actions: seq<(Action, nat)>, k: Key)
    ensures NeverRacing(c, actions, k) <==> Messages(Run(c, INITIAL, actions), k) <= 1
    decreases |actions|
  {
    var w := Run(c, INITIAL, actions);
    if NeverRacing(c, actions, k) {
      RunKeepsOk(c, actions, k);
      NoRaceOwesOne(w, k);
    } else if actions != [] {
      var last := |actions| - 1;
      OneMessageIff(c, actions[..last], k);
      if NeverRacing(c, actions[..last], k) {
        var i, j := FirstRace(c, actions, k);
        RaceOwesTwo(w, i, j, k);
      } else {
        MessagesNeverDecrease(c, Run(c, INITIAL, actions[..last]), actions[last].0, actions[last].1, k);
      }
    }
  }

  /** Once every start that has found the job PENDING has sent its message, there is at most
    one if and only if no two of them have raced. */
  lemma {:induction false} OneSentIff(c: Config, actions: seq<(Action, nat)>, k: Key)
    requires var calls := Run(c, INITIAL, actions).calls; forall i :: 0 <= i < |calls| ==> !Owes(calls[i], k)
    ensures NeverRacing(c, actions, k) <==> OneSent(Run(c, INITIAL, actions).sys.arq.sent, k)
  {
    OneMessageIff(c, actions, k);
    OwedNone(Run(c, INITIAL, actions).calls, k);
    Counted(Run(c, INITIAL, actions).sys.arq.sent, k);
  }

  /** Two more requests are enough to send the second message when a race has begun. */
  lemma {:induction false} RaceSendsTwo(c: Config, actions: seq<(Action, nat)>, k: Key, now: nat)
      returns (i: nat, j: nat)
    requires actions != [] && NeverRacing(c, actions[..|actions| - 1], k)
    requires Racing(Run(c, INITIAL, actions).calls, k)
    ensures var w := Run(c, INITIAL, actions);
            && i < |w.calls| && j < |w.calls| && i != j && Past(w.calls[i], k) && Past(w.calls[j], k)
            && !OneSent(Apply(c, Apply(c, w, Step(j), now), Step(i), now).sys.arq.sent, k)
  {
    i, j := FirstRace(c, actions, k);
    var w := Run(c, INITIAL, actions);
    RaceOwesTwo(w, i, j, k);
    var sent := w.sys.arq.sent;
    var v := Apply(c, w, Step(j), now);
    assert v.calls[i] == w.calls[i];
    assert Apply(c, v, Step(i), now).sys.arq.sent == v.sys.arq.sent + [k];
    Counted(sent, k);
    CountMore(sent, k, k);
    CountMore(v.sys.arq.sent, k, k);
    Counted(v.sys.arq.sent + [k], k);
  }

  // ---- The message of a job never changes

  /** No job comes back under an old id, and no message is forgotten. */
  lemma {:induction false} ApplyKeepsNames(c: Config, w: World, a: Action, now: nat, k: Key)
    requires StoreOk(w.sys.store)
    requires forall i :: 0 <= i < |w.calls| ==> w.calls[i].Patching? ==> !w.calls[i].update.ToQueued?
    ensures var t := Apply(c, w, a, now).sys;
            && w.sys.store.nextId <= t.store.nextId
            && w.sys.arq.sent <= t.arq.sent
            && (k in t.store.jobs && k.id < w.sys.store.nextId ==>
                  k in w.sys.store.jobs &&
                  (w.sys.store.jobs[k].messageId.Some? ==> t.store.jobs[k].messageId.Some?))
  {}

  /** Both records name a message for this job, and there is only one. */
  lemma {:induction false} ApplyKeepsMessage(c: Config, w: World, a: Action, now: nat, k: Key)
    requires MessagesOk(w, k) && MessagesOk(Apply(c, w, a, now), k)
    requires k in w.sys.store.jobs && w.sys.store.jobs[k].messageId.Some?
    ensures var t := Apply(c, w, a, now).sys.store;
            k in t.jobs ==> t.jobs[k].messageId == w.sys.store.jobs[k].messageId
  {
    assert k.id < w.sys.store.nextId;
    assert forall i :: 0 <= i < |w.calls| ==> CallOk(w.calls[i], w.sys.arq.sent, w.sys.store.nextId, k);
    ApplyKeepsNames(c, w, a, now, k);
    SameMessage(w, Apply(c, w, a, now), k);
  }

  lemma {:induction false} SameMessage(w: World, w': World, k: Key)
    requires MessagesOk(w, k) && MessagesOk(w', k) && w.sys.arq.sent <= w'.sys.arq.sent
    requires k in w.sys.store.jobs && w.sys.store.jobs[k].messageId.Some?
    requires k in w'.sys.store.jobs ==> w'.sys.store.jobs[k].messageId.Some?
    ensures k in w'.sys.store.jobs ==> w'.sys.store.jobs[k].messageId == w.sys.store.jobs[k].messageId
  {}

  /** Once a job has a message, it keeps it as long as it exists. */
  lemma {:induction false} MessageNeverChanges(c: Config, actions: seq<(Action, nat)>, n: nat, k: Key)
    requires NeverRacing(c, actions, k) && n <= |actions|
    requires var jobs := Run(c, INITIAL, actions[..n]).sys.store.jobs; k in jobs && jobs[k].messageId.Some?
    ensures var s, t := Run(c, INITIAL, actions[..n]).sys.store, Run(c, INITIAL, actions).sys.store;
            k.id < t.nextId && (k in t.jobs ==> t.jobs[k].messageId == s.jobs[k].messageId)
    decreases |actions|
  {
    var last := |actions| - 1;
    RunKeepsOk(c, actions, k);
    if n == |actions| {
      assert actions[..n] == actions;
    } else {
      assert actions[..last][..n] == actions[..n];
      MessageNeverChanges(c, actions[..last], n, k);
      var w := Run(c, INITIAL, actions[..last]);
      RunKeepsOk(c, actions[..last], k);
      assert forall i :: 0 <= i < |w.calls| ==> CallOk(w.calls[i], w.sys.arq.sent, w.sys.store.nextId, k);
      ApplyKeepsNames(c, w, actions[last].0, actions[last].1, k);
      if k in w.sys.store.jobs {
        ApplyKeepsMessage(c, w, actions[last].0, actions[last].1, k);
      }
    }
  }

  // ---- One more start

  /** When nothing has raced yet and a message has been sent for a job, one more start sends a
    second one exactly if the job is still PENDING. Then the first start has not been over. */
  lemma {:induction false} SecondMessageIff(c: Config, actions: seq<(Action, nat)>, k: Key, now: nat)
    requires NeverRacing(c, actions, k)
    requires var w := Run(c, INITIAL, actions); k in w.sys.store.jobs && !NoneSent(w.sys.arq.sent, k)
    ensures var w := Run(c, INITIAL, actions);
            var i := |w.calls|;
            var begun := Apply(c, w, Begin(Start(false), k), now);
            var enqueued := Apply(c, Apply(c, begun, Step(i), now), Step(i), now);
            && (!OneSent(enqueued.sys.arq.sent, k) <==> w.sys.store.jobs[k].phase.Pending?)
            && (w.sys.store.jobs[k].phase.Pending? ==> !NoneMarking(w.calls, k))
  {
    RunKeepsOk(c, actions, k);
    var w := Run(c, INITIAL, actions);
    var sent := w.sys.arq.sent;
    assert JobOk(w.sys.store.jobs[k]);
    var m :| 0 <= m < |sent| && sent[m] == k;
    var more := sent + [k];
    assert more[m] == k && more[|sent|] == k;
    StartAlone(c, w, k, now);
  }

  /** What a start does when nothing comes between its first two requests. */
  lemma {:induction false} StartAlone(c: Config, w: World, k: Key, now: nat)
    requires k in w.sys.store.jobs && JobOk(w.sys.store.jobs[k])
    ensures var i := |w.calls|;
            var begun := Apply(c, w, Begin(Start(false), k), now);
            var enqueued := Apply(c, Apply(c, begun, Step(i), now), Step(i), now);
            && enqueued.sys.store == w.sys.store && |enqueued.calls| == i + 1
            && enqueued.sys.arq.sent ==
               if w.sys.store.jobs[k].phase.Pending? then w.sys.arq.sent + [k] else w.sys.arq.sent
  {}

  /** Two starts of any new job send two messages when the second one reads the job while the
    first one is recording its own. */
  lemma {:induction false} OverlappingStarts(c: Config, w: World, k: Key, now: nat)
    requires k in w.sys.store.jobs && JobOk(w.sys.store.jobs[k]) && w.sys.store.jobs[k].phase.Pending?
    ensures var i := |w.calls|;
            var first := Apply(c, Apply(c, Apply(c, w, Begin(Start(false), k), now), Step(i), now), Step(i), now);
            var read := Apply(c, Apply(c, first, Begin(Start(false), k), now), Step(i + 1), now);
            var second := Apply(c, read, Step(i + 1), now);
            second.sys.arq.sent == w.sys.arq.sent + [k] + [k]
  {}

  /** They also do when both have read the job before either sends anything. */
  lemma {:induction false} OverlappingReads(c: Config, w: World, k: Key, now: nat)
    requires k in w.sys.store.jobs && JobOk(w.sys.store.jobs[k]) && w.sys.store.jobs[k].phase.Pending?
    ensures var i := |w.calls|;
            var begun := Apply(c, Apply(c, w, Begin(Start(false), k), now), Begin(Start(false), k), now);
            var read := Apply(c, Apply(c, begun, Step(i), now), Step(i + 1), now);
            && read.sys == w.sys
            && Apply(c, Apply(c, read, Step(i), now), Step(i + 1), now).sys.arq.sent == w.sys.arq.sent + [k] + [k]
  {}

  // ---- The destruction time never increases

  /** A call that may still reset the metadata of this job. */
  predicate Resetting(call: Call, k: Key) {
    && ((call.Begun? && (call.op.SetDestruction? || call.op.SetDuration?)) || (call.Patching? && call.update.Metadata?))
    && call.key == k
  }

  ghost predicate UpdatesAlone(w: World, a: Action, k: Key) {
    (a.Begin? && (a.op.SetDestruction? || a.op.SetDuration?) && a.key == k) ==>
    forall i :: 0 <= i < |w.calls| ==> !Resetting(w.calls[i], k)
  }

  ghost predicate AlwaysUpdatesAlone(c: Config, actions: seq<(Action, nat)>, k: Key)
    decreases |actions|
  {
    actions == [] ||
    (AlwaysUpdatesAlone(c, actions[..|actions| - 1], k) &&
     UpdatesAlone(Run(c, INITIAL, actions[..|actions| - 1]), actions[|actions| - 1].0, k))
  }

  /** A call that is about to reset the metadata of this job will not put it off. */
  ghost predicate ResetOk(call: Call, store: Store, k: Key) {
    call.Patching? && call.update.Metadata? && call.key == k ==>
    k.id < store.nextId && (k in store.jobs ==> call.update.destruction <= store.jobs[k].destruction)
  }

  ghost predicate ResetsOk(w: World, k: Key) {
    && StoreOk(w.sys.store)
    && (forall i :: 0 <= i < |w.calls| ==> ResetOk(w.calls[i], w.sys.store, k))
    && (forall i, j :: 0 <= i < j < |w.calls| ==> !(Resetting(w.calls[i], k) && Resetting(w.calls[j], k)))
  }

  /** Another call does not touch the destruction time of this job. */
  lemma {:induction false} OtherKeepsDestruction(c: Config, s: Sys, call: Call, now: nat, k: Key)
    requires !Resetting(call, k)
    ensures var (t, next) := StepCall(c, s, call, now);
            && !Resetting(next, k) && t.store.nextId == s.store.nextId
            && (k in t.store.jobs ==> k in s.store.jobs && t.store.jobs[k].destruction == s.store.jobs[k].destruction)
  {}

  lemma {:induction false} ResetStep(c: Config, s: Sys, call: Call, now: nat, k: Key)
    requires c.validateDestruction.None? && StoreOk(s.store) && Resetting(call, k) && ResetOk(call, s.store, k)
    ensures var (t, next) := StepCall(c, s, call, now);
            && ResetOk(next, t.store, k) && t.store.nextId == s.store.nextId
            && (k in t.store.jobs ==> k in s.store.jobs && t.store.jobs[k].destruction <= s.store.jobs[k].destruction)
  {}

  lemma {:induction false} StepKeepsResets(c: Config, w: World, i: nat, now: nat, k: Key)
    requires c.validateDestruction.None? && ResetsOk(w, k) && i < |w.calls|
    ensures ResetsOk(Apply(c, w, Step(i), now), k)
  {
    var call := w.calls[i];
    var (t, next) := StepCall(c, w.sys, call, now);
    var calls := w.calls[i := next];
    StepKeepsStoreOk(c, w.sys, call, now);
    if Resetting(call, k) {
      ResetStep(c, w.sys, call, now, k);
    } else {
      OtherKeepsDestruction(c, w.sys, call, now, k);
    }
    forall j | 0 <= j < |calls| ensures ResetOk(calls[j], t.store, k) {
      var lo, hi := if j < i then j else i, if j < i then i else j;
      assert lo < hi ==> !(Resetting(w.calls[lo], k) && Resetting(w.calls[hi], k));
      assert ResetOk(w.calls[j], w.sys.store, k);
    }
    forall m, n | 0 <= m < n < |calls| ensures !(Resetting(calls[m], k) && Resetting(calls[n], k)) {
      assert !(Resetting(w.calls[m], k) && Resetting(w.calls[n], k));
    }
  }

  lemma {:induction false} StoreChangeKeepsResets(w: World, t: Store, calls: seq<Call>, k: Key)
    requires ResetsOk(w, k) && StoreOk(t) && w.sys.store.nextId <= t.nextId
    requires k in t.jobs && k.id < w.sys.store.nextId ==>
             k in w.sys.store.jobs && t.jobs[k].destruction == w.sys.store.jobs[k].destruction
    requires |w.calls| <= |calls| <= |w.calls| + 1
    requires forall i :: 0 <= i < |w.calls| ==> calls[i] == w.calls[i] || !Resetting(calls[i], k)
    requires |w.calls| < |calls| ==> calls[|w.calls|].Begun?
    requires |w.calls| < |calls| && Resetting(calls[|w.calls|], k) ==>
             forall i :: 0 <= i < |w.calls| ==> !Resetting(w.calls[i], k)
    ensures ResetsOk(World(Sys(t, w.sys.arq), calls), k)
  {}

  lemma {:induction false} ApplyKeepsResets(c: Config, w: World, a: Action, now: nat, k: Key)
    requires c.validateDestruction.None? && ResetsOk(w, k) && UpdatesAlone(w, a, k)
    ensures ResetsOk(Apply(c, w, a, now), k)
    ensures var s, t := w.sys.store, Apply(c, w, a, now).sys.store;
            k in t.jobs && k.id < s.nextId ==> k in s.jobs && t.jobs[k].destruction <= s.jobs[k].destruction
    ensures w.sys.store.nextId <= Apply(c, w, a, now).sys.store.nextId
  {
    var w' := Apply(c, w, a, now);
    ApplyKeepsStoreOk(c, w, a, now);
    match a
    case Step(i) =>
      if i < |w.calls| {
        StepKeepsResets(c, w, i, now, k);
        if Resetting(w.calls[i], k) {
          ResetStep(c, w.sys, w.calls[i], now, k);
        } else {
          OtherKeepsDestruction(c, w.sys, w.calls[i], now, k);
        }
      }
    case _ =>
      StoreChangeKeepsResets(w, w'.sys.store, w'.calls, k);
  }

  lemma {:induction false} RunKeepsResets(c: Config, actions: seq<(Action, nat)>, k: Key)
    requires c.validateDestruction.None? && AlwaysUpdatesAlone(c, actions, k)
    ensures ResetsOk(Run(c, INITIAL, actions), k)
    decreases |actions|
  {
    if actions != [] {
      var last := |actions| - 1;
      RunKeepsResets(c, actions[..last], k);
      ApplyKeepsResets(c, Run(c, INITIAL, actions[..last]), actions[last].0, actions[last].1, k);
    }
  }

  /** Without a validator, and if the metadata updates of a job do not overlap, its
    destruction time never increases. */
  lemma {:induction false} DestructionNeverIncreases(c: Config, actions: seq<(Action, nat)>, n: nat, k: Key)
    requires c.validateDestruction.None? && AlwaysUpdatesAlone(c, actions, k) && n <= |actions|
    requires k in Run(c, INITIAL, actions[..n]).sys.store.jobs
    ensures var s, t := Run(c, INITIAL, actions[..n]).sys.store, Run(c, INITIAL, actions).sys.store;
            k.id < t.nextId && (k in t.jobs ==> t.jobs[k].destruction <= s.jobs[k].destruction)
    decreases |actions|
  {
    var last := |actions| - 1;
    if n == |actions| {
      assert actions[..n] == actions;
      RunKeepsResets(c, actions, k);
    } else {
      assert actions[..last][..n] == actions[..n];
      DestructionNeverIncreases(c, actions[..last], n, k);
      RunKeepsResets(c, actions[..last], k);
      ApplyKeepsResets(c, Run(c, INITIAL, actions[..last]), actions[last].0, actions[last].1, k);
    }
  }

  /** A job as some call leaves it when it reads first and sends last, and another call is
    made and finished in between. */
  function Interrupted(c: Config, w: World, first: Op, second: Op, k: Key, now: nat): (World, World) {
    var i := |w.calls|;
    var read := Apply(c, Apply(c, w, Begin(first, k), now), Step(i), now);
    var begun := Apply(c, read, Begin(second, k), now);
    var between := Apply(c, Apply(c, begun, Step(i + 1), now), Step(i + 1), now);
    (between, Apply(c, between, Step(i), now))
  }

  /** When updates do overlap, one of the duration sends back the destruction time that it
    has read, and so puts it off again if and only if the other one has brought it forward. */
  lemma {:induction false} OverlappingUpdates(c: Config, w: World, k: Key, duration: Option<int>, time: int, now: nat)
    requires k in w.sys.store.jobs && WantedDuration(c, duration, w.sys.store.jobs[k]) != w.sys.store.jobs[k].duration
    ensures var job := w.sys.store.jobs[k];
            var (between, undone) := Interrupted(c, w, SetDuration(duration), SetDestruction(time), k, now);
            && k in between.sys.store.jobs && k in undone.sys.store.jobs
            && between.sys.store.jobs[k].destruction == WantedDestruction(c, time, job)
            && undone.sys.store.jobs[k].destruction == job.destruction
            && (c.validateDestruction.None? ==>
                  (undone.sys.store.jobs[k].destruction > between.sys.store.jobs[k].destruction
                   <==> time < job.destruction))
  {}

  /** Two of the destruction time both compare with what they have read, so the first one puts
    it off again if and only if the other one has brought it forward further. */
  lemma {:induction false} OverlappingDestructions(c: Config, w: World, k: Key, a: int, b: int, now: nat)
    requires k in w.sys.store.jobs && c.validateDestruction.None?
    ensures var job := w.sys.store.jobs[k];
            var (between, undone) := Interrupted(c, w, SetDestruction(a), SetDestruction(b), k, now);
            && k in between.sys.store.jobs && k in undone.sys.store.jobs
            && (undone.sys.store.jobs[k].destruction > between.sys.store.jobs[k].destruction
                <==> b < a < job.destruction)
  {}

  /** The action sends a metadata update for this job with a later destruction time. */
  predicate PutsOff(w: World, a: Action, k: Key, destruction: int) {
    && a.Step? && a.call < |w.calls|
    && var call := w.calls[a.call];
       call.Patching? && call.key == k && call.update.Metadata? && call.update.destruction > destruction
  }

  /** Exactly these actions put off the destruction time of a job, whatever came before. */
  lemma {:induction false} DestructionRaisedIff(c: Config, w: World, a: Action, now: nat, k: Key)
    requires StoreOk(w.sys.store)
    requires k in w.sys.store.jobs && k in Apply(c, w, a, now).sys.store.jobs
    ensures var before := w.sys.store.jobs[k].destruction;
            Apply(c, w, a, now).sys.store.jobs[k].destruction > before <==> PutsOff(w, a, k, before)
  {}

  /** And one of the destruction time sends back the duration that it has read, which undoes
    the other one if and only if that has sent anything else. */
  lemma {:induction false} OverlappingUpdatesOfDuration(
      c: Config, w: World, k: Key, time: int, duration: Option<int>, now: nat)
    requires k in w.sys.store.jobs && WantedDestruction(c, time, w.sys.store.jobs[k]) != w.sys.store.jobs[k].destruction
    requires WantedDuration(c, duration, w.sys.store.jobs[k]) != w.sys.store.jobs[k].duration
    ensures var job := w.sys.store.jobs[k];
            var (between, undone) := Interrupted(c, w, SetDestruction(time), SetDuration(duration), k, now);
            && k in between.sys.store.jobs && k in undone.sys.store.jobs
            && between.sys.store.jobs[k].duration == SentDuration(WantedDuration(c, duration, job))
            && undone.sys.store.jobs[k].duration == SentDuration(job.duration)
            && (undone.sys.store.jobs[k].duration == between.sys.store.jobs[k].duration
                <==> SentDuration(WantedDuration(c, duration, job)) == SentDuration(job.duration))
  {}

  // ---- The execution duration is bounded

  predicate Bounded(c: Config, d: Option<int>) {
    d.Some? ==> d.value <= WholeSeconds(c.maxDuration)
  }

  predicate CallBounded(c: Config, call: Call) {
    call.Patching? ==> !call.result.SyncResult? && (call.update.Metadata? ==> Bounded(c, call.update.duration))
  }

  ghost predicate WorldOk(c: Config, w: World) {
    && StoreOk(w.sys.store)
    && (forall k :: k in w.sys.store.jobs ==> Bounded(c, w.sys.store.jobs[k].duration))
    && (forall i :: 0 <= i < |w.calls| ==> CallBounded(c, w.calls[i]))
  }

  lemma {:induction false} SentIsWhole(d: Option<int>, bound: int)
    requires d.Some? && d.value != 0 ==> d.value <= bound
    ensures SentDuration(d).Some? ==> SentDuration(d).value <= WholeSeconds(bound)
  {
    if d.Some? && d.value != 0 {
      WholeSecondsMonotone(d.value, bound);
    }
  }

  /** What a metadata update sends is bounded, whatever the validator says. */
  lemma {:induction false} SentIsBounded(c: Config, op: Op, key: Key, job: Job)
    requires Bounded(c, job.duration)
    ensures CallBounded(c, AfterRead(c, op, key, job))
  {
    match op
    case SetDestruction(_) =>
      SentIsWhole(job.duration, WholeSeconds(c.maxDuration));
      WholeSecondsMonotone(c.maxDuration, c.maxDuration);
    case SetDuration(duration) => SentIsWhole(WantedDuration(c, duration, job), c.maxDuration);
    case _ =>
  }

  lemma {:induction false} StepKeepsBounds(c: Config, s: Sys, call: Call, now: nat)
    requires CallBounded(c, call) && forall k :: k in s.store.jobs ==> Bounded(c, s.store.jobs[k].duration)
    ensures var (t, next) := StepCall(c, s, call, now);
            CallBounded(c, next) && forall k :: k in t.store.jobs ==> Bounded(c, t.store.jobs[k].duration)
  {
    if call.Begun? && call.key in s.store.jobs {
      SentIsBounded(c, call.op, call.key, s.store.jobs[call.key]);
    }
  }

  lemma {:induction false} ApplyKeepsStoreOk(c: Config, w: World, a: Action, now: nat)
    requires StoreOk(w.sys.store)
    ensures StoreOk(Apply(c, w, a, now).sys.store)
  {
    match a
    case Step(i) =>
      if i < |w.calls| {
        StepKeepsStoreOk(c, w.sys, w.calls[i], now);
      }
    case Create(owner) =>
      ServeKeepsOk(w.sys.store, Post(owner, Whole(now) + c.lifetime, Some(WholeSeconds(c.maxDuration))), now);
    case RunSync(owner) =>
      ServeKeepsOk(w.sys.store, Post(owner, Whole(now) + c.lifetime, Some(WholeSeconds(c.maxDuration))), now);
    case Mark(key, update) => ServeKeepsOk(w.sys.store, Patch(key, update), now);
    case _ =>
  }

  lemma {:induction false} ApplyKeepsWorld(c: Config, w: World, a: Action, now: nat)
    requires WorldOk(c, w)
    ensures WorldOk(c, Apply(c, w, a, now))
  {
    ApplyKeepsStoreOk(c, w, a, now);
    if a.Step? && a.call < |w.calls| {
      assert CallBounded(c, w.calls[a.call]);
      StepKeepsBounds(c, w.sys, w.calls[a.call], now);
    }
  }

  /** In every interleaving, and with whatever validator, a job may run for at most the
    configured time or without limit. */
  lemma {:induction false} RunKeepsWorld(c: Config, actions: seq<(Action, nat)>)
    ensures WorldOk(c, Run(c, INITIAL, actions))
    decreases |actions|
  {
    if actions != [] {
      var last := |actions| - 1;
      RunKeepsWorld(c, actions[..last]);
      ApplyKeepsWorld(c, Run(c, INITIAL, actions[..last]), actions[last].0, actions[last].1);
    }
  }

  /** A change of the duration lifts the limit if and only if none or zero is wanted, and
    otherwise sets the wanted whole seconds; the caller is told what was wanted. */
  lemma {:induction false} UnlimitedIff(c: Config, s: Sys, key: Key, duration: Option<int>, now: nat)
    requires key in s.store.jobs && WantedDuration(c, duration, s.store.jobs[key]) != s.store.jobs[key].duration
    ensures var wanted := WantedDuration(c, duration, s.store.jobs[key]);
            var (t, r) := Finish(c, s, Begun(SetDuration(duration), key), now);
            && r == NewDuration(wanted) && key in t.store.jobs
            && (t.store.jobs[key].duration.None? <==> wanted.None? || wanted.value == 0)
            && (t.store.jobs[key].duration.Some? ==> t.store.jobs[key].duration.value == WholeSeconds(wanted.value))
  {
    FinishInFour(c, s, Begun(SetDuration(duration), key), now);
  }

  // ---- Results of synchronous jobs

  /** The job of this call is completed, without error, and this is its first result. */
  predicate HasResult(s: Store, key: Key, value: string) {
    && key in s.jobs && s.jobs[key].phase.Completed? && s.jobs[key].errors == []
    && s.jobs[key].results != [] && s.jobs[key].results[0] == value
  }

  /** `run_sync` returns a result if and only if its last read finds the job completed with
    it; never for a failed job, because no job is in phase ERROR without an error. */
  lemma {:induction false} SyncStepIff(c: Config, w: World, i: nat, now: nat, value: string)
    requires WorldOk(c, w) && i < |w.calls| && !w.calls[i].Ended?
    ensures var call := w.calls[i];
            StepCall(c, w.sys, call, now).1 == Ended(SyncResult(value)) <==>
            (call.LastRead? || call.Checking?) && HasResult(w.sys.store, call.key, value)
  {}

  /** So every result that a synchronous call has returned, in any interleaving, has been
    the first result of its completed job when it read it last. */
  lemma {:induction false} SyncResultWasRead(c: Config, actions: seq<(Action, nat)>, i: nat, value: string)
    returns (n: nat)
    requires i < |Run(c, INITIAL, actions).calls| && Run(c, INITIAL, actions).calls[i] == Ended(SyncResult(value))
    ensures n < |actions| && actions[n].0 == Step(i)
    ensures var w := Run(c, INITIAL, actions[..n]);
            && i < |w.calls| && (w.calls[i].LastRead? || w.calls[i].Checking?)
            && HasResult(w.sys.store, w.calls[i].key, value)
    decreases |actions|
  {
    var last := |actions| - 1;
    var w := Run(c, INITIAL, actions[..last]);
    var (a, now) := actions[last];
    if i < |w.calls| && w.calls[i] == Ended(SyncResult(value)) {
      n := SyncResultWasRead(c, actions[..last], i, value);
      assert actions[..last][..n] == actions[..n];
    } else {
      assert a == Step(i);
      RunKeepsWorld(c, actions[..last]);
      SyncStepIff(c, w, i, now, value);
      n := last;
    }
  }

  // ---- What the worker reports

  /** The worker has noted that it starts, and its outcome is in the queue. */
  function Worked(s: Sys, key: Key, message: nat, start: nat, outcome: Outcome, now: nat): (over: Sys)
    requires key in s.store.jobs && s.store.jobs[key].messageId == Some(message) && message in s.arq.metadata
    ensures Ready(over, Begun(Record, key)) && message in over.arq.outcomes && over.arq.outcomes[message] == outcome
    ensures key in over.store.jobs
    ensures over.store.jobs[key] == s.store.jobs[key].(phase := Executing, start := Some(Whole(start)))
  {
    var started := Patched(s, key, ToExecuting(start), Ended(Finished), now).0;
    started.(arq := Or(SetComplete(started.arq, message, outcome), started.arq))
  }

  /** When the note that the work is over has been dealt with, the job says how it ended.
    Only after a cancellation it does not. */
  lemma {:induction false} WorkerReports(
      c: Config, s: Sys, key: Key, message: nat, start: nat, outcome: Outcome, now: nat)
    requires key in s.store.jobs && s.store.jobs[key].messageId == Some(message) && message in s.arq.metadata
    ensures var (t, r) := Finish(c, Worked(s, key, message, start, outcome, now), Begun(Record, key), now);
            var before := s.store.jobs[key].(start := Some(Whole(start)));
            var end := Some(Whole(now));
            && r == (if outcome.Cancelled? then TypeError else Finished)
            && key in t.store.jobs
            && t.store.jobs[key] == match outcome
               case Returned(results) => before.(phase := Completed, end := end, results := results)
               case Raised(_) => before.(phase := Error, end := end, errors := [ErrorOf(Annotated(outcome).exn)])
               case Cancelled => before.(phase := Executing)
  {
    FinishInFour(c, Worked(s, key, message, start, outcome, now), Begun(Record, key), now);
  }

  lemma {:induction false} NewJobStarts(c: Config, s: Sys, owner: Owner, now: nat)
    ensures var key, message := Key(owner, s.store.nextId), |s.arq.sent|;
            var (t, r) := Finish(c, CreateJob(c, s, owner, now), Begun(Start(false), key), now);
            && r == Sent(message) && t.arq == Enqueue(s.arq, key) && key in t.store.jobs
            && t.store.jobs[key] ==
               NewJob(Whole(now) + c.lifetime, Some(WholeSeconds(c.maxDuration)), now).(
                 phase := Queued, messageId := Some(message))
  {
    FinishInFour(c, CreateJob(c, s, owner, now), Begun(Start(false), Key(owner, s.store.nextId)), now);
  }

  /** The whole life of a job: created, started, worked on, recorded. In the end its first
    result is what a synchronous call returns, and its error what such a call raises. */
  lemma {:induction false} LifeOfAJob(c: Config, s: Sys, owner: Owner, start: nat, outcome: Outcome, now: nat)
    requires !outcome.Cancelled?
    ensures var key, message := Key(owner, s.store.nextId), |s.arq.sent|;
            var started := Finish(c, CreateJob(c, s, owner, now), Begun(Start(false), key), now).0;
            && key in started.store.jobs && started.store.jobs[key].messageId == Some(message)
            && message in started.arq.metadata
            && var t := Finish(c, Worked(started, key, message, start, outcome, now), Begun(Record, key), now).0;
               && key in t.store.jobs && JobOk(t.store.jobs[key])
               && SyncOutcome(t.store.jobs[key]) ==
                  (if outcome.Raised? then SyncFailed(ErrorOf(Annotated(outcome).exn))
                   else if outcome.results == [] then SyncNoResults else SyncResult(outcome.results[0]))
  {
    var key, message := Key(owner, s.store.nextId), |s.arq.sent|;
    NewJobStarts(c, s, owner, now);
    var started := Finish(c, CreateJob(c, s, owner, now), Begun(Start(false), key), now).0;
    WorkerReports(c, started, key, message, start, outcome, now);
  }

  /** When an abort is followed by nothing but the record of the cancelled work, the job
    stays as it was aborted. */
  lemma {:induction false} RecordAfterAbort(c: Config, s: Sys, key: Key, now: nat)
    requires key in s.store.jobs && JobOk(s.store.jobs[key]) && s.store.jobs[key].phase.Executing?
    requires s.store.jobs[key].messageId.Some? && s.store.jobs[key].messageId.value in s.arq.metadata
    requires s.arq.metadata[s.store.jobs[key].messageId.value].status.InProgress?
    ensures var (t, r) := Finish(c, s, Begun(Abort, key), now);
            && r == Finished && key in t.store.jobs
            && t.store.jobs[key] == s.store.jobs[key].(phase := Aborted, end := Some(Whole(now)))
            && Ready(t, Begun(Record, key)) && Finish(c, t, Begun(Record, key), now) == (t, TypeError)
  {
    FinishInFour(c, s, Begun(Abort, key), now);
    var t := Finish(c, s, Begun(Abort, key), now).0;
    FinishInFour(c, t, Begun(Record, key), now);
  }

  // ---- What a finished job can become

  predicate Terminal(p: Phase) { p == Aborted || p == Completed || p == Error }

  /** The phase that an update sets, if it is not refused. */
  function Target(update: Update): Option<Phase> {
    match update
    case ToAborted => Some(Aborted)
    case ToCompleted(_) => Some(Completed)
    case ToExecuting(_) => Some(Executing)
    case ToError(errors) => if errors == [] then None else Some(Error)
    case ToQueued(_) => Some(Queued)
    case _ => None
  }

  predicate Sets(update: Update, p: Phase) {
    Target(update).None? || Target(update).value == p
  }

  /** The actions that take a job out of a terminal phase: the last request of a start, or
    the report of a worker, directly or by way of a recorded outcome or an abort. */
  predicate Undoes(w: World, a: Action, k: Key, p: Phase) {
    match a
    case Step(i) =>
      && i < |w.calls| && !w.calls[i].Ended? && w.calls[i].key == k
      && (w.calls[i].Marking? || (w.calls[i].Patching? && !Sets(w.calls[i].update, p)))
    case Mark(key, update) => key == k && !update.Metadata? && !update.ToQueued? && !Sets(update, p)
    case _ => false
  }

  lemma {:induction false} PatchedPhase(s: Store, key: Key, update: Update, now: nat, k: Key)
    requires k in s.jobs
    ensures var t := Serve(s, Patch(key, update), now).0;
            && k in t.jobs
            && t.jobs[k].phase == if key == k && Target(update).Some? then Target(update).value else s.jobs[k].phase
  {}

  /** Exactly these actions do. */
  lemma {:induction false} PhaseLeftIff(c: Config, w: World, a: Action, now: nat, k: Key)
    requires StoreOk(w.sys.store) && k in w.sys.store.jobs && Terminal(w.sys.store.jobs[k].phase)
    requires k in Apply(c, w, a, now).sys.store.jobs
    ensures Apply(c, w, a, now).sys.store.jobs[k].phase != w.sys.store.jobs[k].phase
            <==> Undoes(w, a, k, w.sys.store.jobs[k].phase)
  {
    match a
    case Step(i) =>
      if i < |w.calls| {
        match w.calls[i]
        case Marking(key, message, _) => PatchedPhase(w.sys.store, key, ToQueued(Some(message)), now, k);
        case Patching(key, update, _) => PatchedPhase(w.sys.store, key, update, now, k);
        case _ =>
      }
    case Mark(key, update) => PatchedPhase(w.sys.store, key, update, now, k);
    case _ =>
  }

  /** A call that may yet do so, with the job in this phase. A start that has not read the
    job, and an abort likewise, will find it finished and stop. */
  predicate Disturbing(call: Call, k: Key, p: Phase) {
    && !call.Ended? && call.key == k
    && match call
       case Begun(op, _) => op.Record?
       case Enqueueing(_, _) => true
       case Marking(_, _, _) => true
       case Stopping(_, _, drop) => !drop && p != Aborted
       case Patching(_, update, _) => !Sets(update, p)
       case Collecting(_, _) => true
       case _ => false
  }

  /** No outcome of the job is recorded any more and no worker reports anything else. */
  predicate Quieting(a: Action, k: Key, p: Phase) {
    match a
    case Begin(op, key) => op.Record? ==> key != k
    case Mark(key, update) => key == k ==> Sets(update, p)
    case _ => true
  }

  /** The job is in this phase or gone, and nothing under way will change that. */
  ghost predicate Settled(w: World, k: Key, p: Phase) {
    && StoreOk(w.sys.store) && k.id < w.sys.store.nextId
    && (k in w.sys.store.jobs ==> w.sys.store.jobs[k].phase == p)
    && forall i :: 0 <= i < |w.calls| ==> !Disturbing(w.calls[i], k, p)
  }

  lemma {:induction false} CallStaysQuiet(c: Config, s: Sys, call: Call, now: nat, k: Key, p: Phase)
    requires Terminal(p) && !Disturbing(call, k, p) && (k in s.store.jobs ==> s.store.jobs[k].phase == p)
    ensures var (t, next) := StepCall(c, s, call, now);
            && !Disturbing(next, k, p) && t.store.nextId == s.store.nextId
            && (k in t.store.jobs ==> k in s.store.jobs && t.store.jobs[k].phase == p)
  {}

  lemma {:induction false} StaysSettled(c: Config, w: World, a: Action, now: nat, k: Key, p: Phase)
    requires Terminal(p) && Settled(w, k, p) && Quieting(a, k, p)
    ensures Settled(Apply(c, w, a, now), k, p)
  {
    ApplyKeepsStoreOk(c, w, a, now);
    match a
    case Step(i) =>
      if i < |w.calls| {
        CallStaysQuiet(c, w.sys, w.calls[i], now, k, p);
      }
    case Mark(key, update) =>
      if k in w.sys.store.jobs {
        PatchedPhase(w.sys.store, key, update, now, k);
      }
    case _ =>
  }

  /** A finished job stays in its phase as long as it exists, over every further run, if no
    start of it is past its first read, nothing of it is being recorded or will be, and no
    worker reports on it. */
  lemma {:induction false} TerminalStays(c: Config, w: World, actions: seq<(Action, nat)>, k: Key, p: Phase)
    requires Terminal(p) && Settled(w, k, p)
    requires forall n :: 0 <= n < |actions| ==> Quieting(actions[n].0, k, p)
    ensures Settled(Run(c, w, actions), k, p)
    decreases |actions|
  {
    if actions != [] {
      var last := |actions| - 1;
      TerminalStays(c, w, actions[..last], k, p);
      StaysSettled(c, Run(c, w, actions[..last]), actions[last].0, actions[last].1, k, p);
    }
  }

  /** Aborting a new job does not stick while a start of it is between its requests: the
    start puts it into the queue after all. */
  lemma {:induction false} StartUndoesAbort(c: Config, w: World, k: Key, now: nat)
    requires k in w.sys.store.jobs && JobOk(w.sys.store.jobs[k]) && w.sys.store.jobs[k].phase.Pending?
    ensures var i := |w.calls|;
            var enqueued := Apply(c, Apply(c, Apply(c, w, Begin(Start(false), k), now), Step(i), now), Step(i), now);
            var found := Apply(c, Apply(c, enqueued, Begin(Abort, k), now), Step(i + 1), now);
            var aborted := Apply(c, found, Step(i + 1), now);
            var marked := Apply(c, aborted, Step(i), now);
            && |aborted.calls| == i + 2 && aborted.calls[i + 1] == Ended(Finished)
            && k in aborted.sys.store.jobs && aborted.sys.store.jobs[k].phase.Aborted?
            && k in marked.sys.store.jobs && marked.sys.store.jobs[k].phase.Queued?
  {}

  /** Nor while the note that its work has started is still to be dealt with; the same note
    makes a job that is recorded as completed or failed execute again. */
  lemma {:induction false} LateNoteUndoesPhase(c: Config, w: World, k: Key, start: nat, now: nat)
    requires k in w.sys.store.jobs
    ensures var after := Apply(c, w, Mark(k, ToExecuting(start)), now);
            k in after.sys.store.jobs && after.sys.store.jobs[k].phase.Executing?
  {}
}
