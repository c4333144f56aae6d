/** The event manager as a circuit breaker with a clock: what each call does, and what
  holds over whole runs of calls. Times are microseconds. */
module EventManagerModel {

  datatype State = Uninitialized | ReadyToPublish | ErrorRecoverable | ErrorUnrecoverable

  predicate InError(s: State) { s == ErrorRecoverable || s == ErrorUnrecoverable }

  datatype Config = Config(backoff: nat, raiseOnError: bool)

  /** A publisher is real, or it only logs because it could not be built. */
  datatype Manager = Manager(state: State, failedAt: int, publishers: map<string, bool>)

  /** The operations wrapped by `abandonable`. */
  datatype Operation = Initialize | Publish | Build

  /** How the wrapped code ends, if it runs: what Kafka and the registry make of it. */
  datatype Outcome = Succeeds | Misused | Fails

  /** `Skipped` and `Abandoned` both return None, the latter after catching an exception. */
  datatype Reply = Done | Skipped | Abandoned | RaisedUsage | RaisedError

  /** Midnight of 1 January 1900 UTC. */
  const LONG_AGO: int := -2208988800 * 1000000

  function Init(): Manager { Manager(Uninitialized, LONG_AGO, map[]) }

  /** An error at which the operation is not attempted again. */
  predicate Recoverable(op: Operation) { op == Publish }

  /** Whether the wrapper returns without running the operation. */
  predicate Blocked(c: Config, m: Manager, now: int) {
    InError(m.state) && (now - m.failedAt <= c.backoff || m.state == ErrorUnrecoverable)
  }

  /** The wrapped code itself. */
  function Body(s: State, op: Operation, outcome: Outcome): (State, Outcome) {
    if op == Publish && s == Uninitialized then (s, Misused)
    else if op == Initialize && outcome == Succeeds then (ReadyToPublish, Succeeds)
    else (s, outcome)
  }

  /** The decorator around it. */
  function Attempt(c: Config, m: Manager, op: Operation, now: int, outcome: Outcome): (Manager, Reply) {
    if Blocked(c, m, now) then (m, Skipped)
    else
      var s := if m.state == ErrorRecoverable then ReadyToPublish else m.state;
      var (s', result) := Body(s, op, outcome);
      match result
      case Succeeds => (m.(state := s'), Done)
      case Misused => (m.(state := s'), RaisedUsage)
      case Fails =>
        if c.raiseOnError then (m.(state := s'), RaisedError)
        else (m.(state := if Recoverable(op) then ErrorRecoverable else ErrorUnrecoverable, failedAt := now), Abandoned)
  }

  datatype Call =
    | Wrapped(op: Operation, outcome: Outcome)
    | CreatePublisher(name: string, validModel: bool, outcome: Outcome)
    | Close(clean: bool)

  /** Whether the call gets as far as the wrapper. */
  predicate Reaches(m: Manager, call: Call) {
    match call
    case Wrapped(_, _) => true
    case CreatePublisher(name, validModel, _) => m.state != Uninitialized && name !in m.publishers && validModel
    case Close(_) => false
  }

  function CreateStep(
      c: Config, m: Manager, name: string, validModel: bool, now: int, outcome: Outcome): (Manager, Reply)
  {
    if m.state == Uninitialized || name in m.publishers || !validModel then (m, RaisedUsage)
    else
      var (m', reply) := Attempt(c, m, Build, now, outcome);
      if reply == RaisedUsage || reply == RaisedError then (m', reply)
      else (m'.(publishers := m'.publishers[name := reply == Done]), Done)
  }

  function CloseStep(m: Manager, clean: bool): Manager {
    if clean then m.(state := Uninitialized, publishers := map[]) else m
  }

  function Step(c: Config, m: Manager, call: Call, now: int): (Manager, Reply) {
    match call
    case Wrapped(op, outcome) => Attempt(c, m, op, now, outcome)
    case CreatePublisher(name, validModel, outcome) => CreateStep(c, m, name, validModel, now, outcome)
    case Close(clean) => (CloseStep(m, clean), Done)
  }

  // ---- Runs

  datatype Timed = Timed(call: Call, now: int)

  /** The manager after the first n calls of a run. */
  function After(c: Config, run: seq<Timed>, n: nat): Manager
    requires n <= |run|
  {
    if n == 0 then Init() else Step(c, After(c, run, n - 1), run[n - 1].call, run[n - 1].now).0
  }

  ghost predicate Clocked(run: seq<Timed>) {
    forall i, j :: 0 <= i <= j < |run| ==> run[i].now <= run[j].now
  }

  /** No shutdown that succeeds in the calls from i up to, but not including, j. */
  ghost predicate NoReset(run: seq<Timed>, i: nat, j: nat)
    requires j <= |run|
  {
    forall k :: i <= k < j ==> run[k].call != Close(true)
  }

  /** The k-th call runs the wrapped code. */
  ghost predicate Ran(c: Config, run: seq<Timed>, k: nat)
    requires k < |run|
  {
    Reaches(After(c, run, k), run[k].call) && !Blocked(c, After(c, run, k), run[k].now)
  }

  /** The k-th call runs the wrapped code, which fails, and the exception is caught. */
  ghost predicate Caught(c: Config, run: seq<Timed>, k: nat)
    requires k < |run|
  {
    && Ran(c, run, k)
    && !c.raiseOnError
    && match run[k].call
       case Wrapped(op, outcome) =>
         var state := After(c, run, k).state;
         Body(if state == ErrorRecoverable then ReadyToPublish else state, op, outcome).1 == Fails
       case CreatePublisher(_, _, outcome) => outcome == Fails
       case Close(_) => false
  }

  lemma {:induction false} CaughtSetsError(c: Config, run: seq<Timed>, k: nat)
    requires k < |run| && Caught(c, run, k)
    ensures InError(After(c, run, k + 1).state) && After(c, run, k + 1).failedAt == run[k].now
  {}

  /** While it is blocked, no call but a shutdown changes the state. */
  lemma {:induction false} BlockedStays(c: Config, m: Manager, call: Call, now: int)
    requires Blocked(c, m, now) && call != Close(true)
    ensures Step(c, m, call, now).0.state == m.state && Step(c, m, call, now).0.failedAt == m.failedAt
  {}

  lemma {:induction false} ErrorPersists(c: Config, run: seq<Timed>, i: nat, j: nat)
    requires i < j <= |run| && Caught(c, run, i) && NoReset(run, i, j)
    requires forall k :: i < k < j ==> run[k].now <= run[i].now + c.backoff
    ensures InError(After(c, run, j).state) && After(c, run, j).failedAt == run[i].now
    ensures After(c, run, j).state == After(c, run, i + 1).state
    decreases j
  {
    CaughtSetsError(c, run, i);
    if j > i + 1 {
      ErrorPersists(c, run, i, j - 1);
      BlockedStays(c, After(c, run, j - 1), run[j - 1].call, run[j - 1].now);
    }
  }

  /** After a caught failure, no wrapped code runs until more than the backoff has passed. */
  lemma {:induction false} QuietAfterFailure(c: Config, run: seq<Timed>, i: nat, j: nat)
    requires Clocked(run) && i < j < |run|
    requires Caught(c, run, i) && NoReset(run, i, j)
    requires run[j].now <= run[i].now + c.backoff
    ensures !Ran(c, run, j)
  {
    ErrorPersists(c, run, i, j);
  }

  /** A publish that failed is retried: the first call that reaches a wrapper later than
    the backoff runs. */
  lemma {:induction false} RetriesAfterBackoff(c: Config, run: seq<Timed>, i: nat, j: nat)
    requires i < j < |run| && Caught(c, run, i) && NoReset(run, i, j)
    requires run[i].call.Wrapped? && run[i].call.op == Publish
    requires forall k :: i < k < j ==> run[k].now <= run[i].now + c.backoff
    requires Reaches(After(c, run, j), run[j].call)
    ensures Ran(c, run, j) <==> run[j].now > run[i].now + c.backoff
  {
    ErrorPersists(c, run, i, j);
  }

  /** Caught failures, listed by call, are so far apart that n of them take more than n - 1
    backoff intervals. */
  lemma {:induction false} FailuresSpread(c: Config, run: seq<Timed>, failures: seq<nat>)
    requires Clocked(run) && |failures| >= 2
    requires forall a :: 0 <= a < |failures| ==> failures[a] < |run| && Caught(c, run, failures[a])
    requires forall a, b :: 0 <= a < b < |failures| ==> failures[a] < failures[b]
    requires NoReset(run, failures[0], failures[|failures| - 1])
    ensures run[failures[|failures| - 1]].now - run[failures[0]].now > (|failures| - 1) * c.backoff
    decreases |failures|
  {
    var n := |failures|;
    var p, q := failures[n - 2], failures[n - 1];
    if run[q].now <= run[p].now + c.backoff {
      QuietAfterFailure(c, run, p, q);
    }
    if n > 2 {
      FailuresSpread(c, run, failures[..n - 1]);
      assert (n - 2) * c.backoff + c.backoff == (n - 1) * c.backoff;
    }
  }

  /** The unrecoverable state is never left, and nothing runs in it, until a shutdown. */
  lemma {:induction false} UnrecoverableAbsorbs(c: Config, run: seq<Timed>, i: nat, j: nat)
    requires i <= j <= |run| && NoReset(run, i, j)
    requires After(c, run, i).state == ErrorUnrecoverable
    ensures After(c, run, j).state == ErrorUnrecoverable
    ensures forall k :: i <= k < j ==> !Ran(c, run, k)
    decreases j
  {
    if i < j {
      UnrecoverableAbsorbs(c, run, i, j - 1);
      BlockedStays(c, After(c, run, j - 1), run[j - 1].call, run[j - 1].now);
    }
  }

  /** The k-th call is an initialization that completes. */
  ghost predicate Initialized(c: Config, run: seq<Timed>, k: nat)
    requires k < |run|
  {
    Ran(c, run, k) && run[k].call == Wrapped(Initialize, Succeeds)
  }

  /** The manager is ready, or in the recoverable error state, only after an initialization
    has completed and no shutdown has succeeded since. */
  lemma {:induction false} ReadyWasInitialized(c: Config, run: seq<Timed>, n: nat) returns (k: nat)
    requires n <= |run|
    requires After(c, run, n).state == ReadyToPublish || After(c, run, n).state == ErrorRecoverable
    ensures k < n && Initialized(c, run, k) && NoReset(run, k, n)
    decreases n
  {
    var m, call, now := After(c, run, n - 1), run[n - 1].call, run[n - 1].now;
    if Initialized(c, run, n - 1) {
      k := n - 1;
    } else {
      StateBefore(c, m, call, now);
      k := ReadyWasInitialized(c, run, n - 1);
    }
  }

  lemma {:induction false} StateBefore(c: Config, m: Manager, call: Call, now: int)
    requires Step(c, m, call, now).0.state == ReadyToPublish || Step(c, m, call, now).0.state == ErrorRecoverable
    requires call != Wrapped(Initialize, Succeeds) || Blocked(c, m, now)
    ensures m.state == ReadyToPublish || m.state == ErrorRecoverable
    ensures call != Close(true)
  {}

  /** With `raise_on_error` the manager never enters an error state; without it, nothing
    but a usage error ever reaches the application. */
  lemma {:induction false} ErrorsAreRaisedOrCaught(c: Config, run: seq<Timed>, n: nat)
    requires n < |run|
    ensures c.raiseOnError ==> !InError(After(c, run, n + 1).state)
    ensures Step(c, After(c, run, n), run[n].call, run[n].now).1 == RaisedError ==> c.raiseOnError
    decreases n
  {
    if n > 0 {
      ErrorsAreRaisedOrCaught(c, run, n - 1);
    }
  }

  // ---- The publisher that stands in for one that could not be built

  /** When the last error was logged, and how often. */
  datatype Log = Log(publishCalledAt: int, times: seq<int>)

  function LogStep(backoff: nat, log: Log, now: int): Log {
    if now - log.publishCalledAt > backoff then Log(now, log.times + [now]) else log
  }

  function LogRun(backoff: nat, calls: seq<int>): Log {
    if calls == [] then Log(LONG_AGO, [])
    else LogStep(backoff, LogRun(backoff, calls[..|calls| - 1]), calls[|calls| - 1])
  }

  ghost predicate Ascending(calls: seq<int>) {
    forall i, j :: 0 <= i <= j < |calls| ==> calls[i] <= calls[j]
  }

  /** Over any calls it logs at most once per backoff interval, and no call comes later
    than one interval after a log entry without an entry of its own. */
  lemma {:induction false} LogsOncePerInterval(backoff: nat, calls: seq<int>)
    requires Ascending(calls)
    ensures var times := LogRun(backoff, calls).times;
            && (forall a :: 0 <= a < |times| - 1 ==> times[a + 1] - times[a] > backoff)
            && (forall i :: 0 <= i < |calls| && calls[i] - LONG_AGO > backoff ==>
                              exists a :: 0 <= a < |times| && times[a] <= calls[i] <= times[a] + backoff)
            && (times != [] ==> times[|times| - 1] == LogRun(backoff, calls).publishCalledAt)
            && (times == [] ==> LogRun(backoff, calls).publishCalledAt == LONG_AGO)
  {
    PublishCalledAt(backoff, calls);
    LogsApart(backoff, calls);
    forall i | 0 <= i < |calls| && calls[i] - LONG_AGO > backoff
      ensures exists a :: 0 <= a < |LogRun(backoff, calls).times| &&
                          LogRun(backoff, calls).times[a] <= calls[i] <= LogRun(backoff, calls).times[a] + backoff
    {
      var a := CallIsCovered(backoff, calls, i);
    }
  }

  lemma {:induction false} LogsApart(backoff: nat, calls: seq<int>)
    requires Ascending(calls)
    ensures var times := LogRun(backoff, calls).times;
            forall a :: 0 <= a < |times| - 1 ==> times[a + 1] - times[a] > backoff
    decreases |calls|
  {
    if calls != [] {
      LogsApart(backoff, calls[..|calls| - 1]);
      PublishCalledAt(backoff, calls[..|calls| - 1]);
    }
  }

  lemma {:induction false} CallIsCovered(backoff: nat, calls: seq<int>, i: nat) returns (a: nat)
    requires Ascending(calls) && i < |calls| && calls[i] - LONG_AGO > backoff
    ensures var times := LogRun(backoff, calls).times;
            a < |times| && times[a] <= calls[i] <= times[a] + backoff
    decreases |calls|
  {
    var front := calls[..|calls| - 1];
    if i < |front| {
      a := CallIsCovered(backoff, front, i);
      LogsAreKept(backoff, calls);
    } else {
      LastLogged(backoff, calls);
      a := |LogRun(backoff, calls).times| - 1;
    }
  }

  lemma {:induction false} LogsAreKept(backoff: nat, calls: seq<int>)
    requires calls != []
    ensures LogRun(backoff, calls[..|calls| - 1]).times <= LogRun(backoff, calls).times
  {}

  lemma {:induction false} LastLogged(backoff: nat, calls: seq<int>)
    requires calls != []
    requires Ascending(calls)
    requires calls[|calls| - 1] - LONG_AGO > backoff
    ensures var log := LogRun(backoff, calls);
            && log.times != [] && log.times[|log.times| - 1] == log.publishCalledAt
            && log.publishCalledAt <= calls[|calls| - 1] <= log.publishCalledAt + backoff
    decreases |calls|
  {
    PublishCalledAt(backoff, calls);
  }

  lemma {:induction false} PublishCalledAt(backoff: nat, calls: seq<int>)
    requires Ascending(calls)
    ensures var log := LogRun(backoff, calls);
            && (log.times == [] ==> log.publishCalledAt == LONG_AGO)
            && (log.times != [] ==> log.times[|log.times| - 1] == log.publishCalledAt && log.publishCalledAt in calls)
            && (calls != [] && log.times != [] ==> log.publishCalledAt <= calls[|calls| - 1])
    decreases |calls|
  {
    if calls != [] {
      var front := calls[..|calls| - 1];
      PublishCalledAt(backoff, front);
    }
  }
}
