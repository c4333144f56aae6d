/** What becomes of each call of the event manager, and what a failure means for later ones. */
module EventManagerFailures {
  import opened EventManagerModel

  // ---- One call

  /** The wrapper does not run the operation: for good, or until the backoff has passed. */
  predicate Off(c: Config, m: Manager, now: int) {
    m.state == ErrorUnrecoverable || (m.state == ErrorRecoverable && now <= m.failedAt + c.backoff)
  }

  /** The operation runs into an error of the caller: whatever Kafka says, a publish before
    the initialization is one. */
  predicate UsageError(m: Manager, op: Operation, outcome: Outcome) {
    (op == Publish && m.state == Uninitialized) || outcome == Misused
  }

  /** Which of its five ends a wrapped operation comes to. */
  lemma {:induction false} ReplySays(c: Config, m: Manager, op: Operation, now: int, outcome: Outcome)
    ensures var reply := Attempt(c, m, op, now, outcome).1;
            && (reply == Skipped <==> Off(c, m, now))
            && (reply == RaisedUsage <==> !Off(c, m, now) && UsageError(m, op, outcome))
            && (reply == Done <==> !Off(c, m, now) && !UsageError(m, op, outcome) && outcome == Succeeds)
            && (reply == RaisedError <==>
                  !Off(c, m, now) && !UsageError(m, op, outcome) && outcome == Fails && c.raiseOnError)
            && (reply == Abandoned <==>
                  !Off(c, m, now) && !UsageError(m, op, outcome) && outcome == Fails && !c.raiseOnError)
  {}

  /** The state afterwards. An initialization that succeeds, and any operation that is tried
    again and not abandoned, makes the manager ready. */
  lemma {:induction false} StateSays(c: Config, m: Manager, op: Operation, now: int, outcome: Outcome)
    ensures var (m', reply) := Attempt(c, m, op, now, outcome);
            && m'.publishers == m.publishers
            && m'.failedAt == (if reply == Abandoned then now else m.failedAt)
            && m'.state == match reply
               case Skipped => m.state
               case Abandoned => if op == Publish then ErrorRecoverable else ErrorUnrecoverable
               case _ =>
                 if m.state == ErrorRecoverable || (op == Initialize && reply == Done) then ReadyToPublish else m.state
  {}

  /** When a publisher is registered, and whether as a real one: if and only if its
    build ran and succeeded. One that could not be built is replaced by a stand-in. */
  lemma {:induction false} PublisherSays(
      c: Config, m: Manager, name: string, validModel: bool, now: int, outcome: Outcome)
    ensures var (m', reply) := CreateStep(c, m, name, validModel, now, outcome);
            if m.state == Uninitialized || name in m.publishers || !validModel then (m', reply) == (m, RaisedUsage)
            else
              && (reply == RaisedUsage <==> !Off(c, m, now) && outcome == Misused)
              && (reply == RaisedError <==> !Off(c, m, now) && outcome == Fails && c.raiseOnError)
              && (reply == RaisedUsage || reply == RaisedError || reply == Done)
              && m'.publishers ==
                 if reply == Done then m.publishers[name := !Off(c, m, now) && outcome == Succeeds] else m.publishers
  {}

  /** A shutdown starts all over, unless it fails. */
  lemma {:induction false} CloseSays(m: Manager, clean: bool)
    ensures clean ==> CloseStep(m, clean) == Manager(Uninitialized, m.failedAt, map[])
    ensures !clean ==> CloseStep(m, clean) == m
  {}

  // ---- Runs

  predicate IsPublish(call: Call) { call.Wrapped? && call.op == Publish }

  /** A caught failure is recoverable if and only if it was one of a publish. */
  lemma {:induction false} CaughtSays(c: Config, run: seq<Timed>, k: nat)
    requires k < |run| && Caught(c, run, k)
    ensures var m := After(c, run, k + 1);
            && m.failedAt == run[k].now
            && m.state == if IsPublish(run[k].call) then ErrorRecoverable else ErrorUnrecoverable
  {}

  /** A call that does not run anything, other than a shutdown, leaves the state alone. */
  lemma {:induction false} IdleCall(c: Config, run: seq<Timed>, k: nat)
    requires k < |run| && !Ran(c, run, k) && run[k].call != Close(true)
    ensures After(c, run, k + 1).state == After(c, run, k).state
    ensures After(c, run, k + 1).failedAt == After(c, run, k).failedAt
  {}

  lemma {:induction false} IdleCalls(c: Config, run: seq<Timed>, i: nat, j: nat)
    requires i <= j <= |run| && NoReset(run, i, j)
    requires forall k :: i <= k < j ==> !Ran(c, run, k)
    ensures After(c, run, j).state == After(c, run, i).state && After(c, run, j).failedAt == After(c, run, i).failedAt
    decreases j
  {
    if i < j {
      IdleCalls(c, run, i, j - 1);
      IdleCall(c, run, j - 1);
    }
  }

  /** The next call that gets to a wrapper after a caught failure runs if and only if the
    failure was one of a publish and more than the backoff has passed since, whatever calls
    came to nothing in between. */
  lemma {:induction false} RetriedIff(c: Config, run: seq<Timed>, i: nat, j: nat)
    requires i < j < |run| && Caught(c, run, i) && NoReset(run, i, j)
    requires forall k :: i < k < j ==> !Ran(c, run, k)
    requires Reaches(After(c, run, j), run[j].call)
    ensures Ran(c, run, j) <==> IsPublish(run[i].call) && run[j].now > run[i].now + c.backoff
  {
    CaughtSays(c, run, i);
    IdleCalls(c, run, i + 1, j);
  }

  /** After any other caught failure nothing ever runs again, however late, unless there is a
    shutdown that succeeds. */
  lemma {:induction false} NeverAgain(c: Config, run: seq<Timed>, i: nat, j: nat)
    requires i < j < |run| && Caught(c, run, i) && !IsPublish(run[i].call) && NoReset(run, i, j)
    ensures !Ran(c, run, j) && After(c, run, j).state == ErrorUnrecoverable
  {
    CaughtSays(c, run, i);
    UnrecoverableAbsorbs(c, run, i + 1, j);
    assert Blocked(c, After(c, run, j), run[j].now);
  }

  /** A publisher stays what it was registered as until a shutdown succeeds. */
  lemma {:induction false} PublishersKept(c: Config, run: seq<Timed>, i: nat, j: nat, name: string)
    requires i <= j <= |run| && NoReset(run, i, j) && name in After(c, run, i).publishers
    ensures name in After(c, run, j).publishers
    ensures After(c, run, j).publishers[name] == After(c, run, i).publishers[name]
    decreases j
  {
    if i < j {
      PublishersKept(c, run, i, j - 1, name);
    }
  }

  /** Whatever is published successfully was preceded by an initialization. */
  lemma {:induction false} PublishedWasInitialized(c: Config, run: seq<Timed>, n: nat) returns (k: nat)
    requires n < |run| && IsPublish(run[n].call)
    requires Step(c, After(c, run, n), run[n].call, run[n].now).1 == Done
    ensures k < n && Initialized(c, run, k) && NoReset(run, k, n)
  {
    ReplySays(c, After(c, run, n), Publish, run[n].now, run[n].call.outcome);
    k := ReadyWasInitialized(c, run, n);
  }
}
