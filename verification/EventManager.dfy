/** `KafkaEventManager` and `FailedEventPublisher` as objects; their methods are proved
  to take the steps of `EventManagerModel`. */
module EventManager {
  import opened EventManagerModel

  class KafkaEventManager {
    const config: Config
    var state: State
    var failedAt: int
    var publishers: map<string, bool>

    constructor (config: Config)
      ensures this.config == config && View() == Init()
    {
      this.config := config;
      state, failedAt, publishers := Uninitialized, LONG_AGO, map[];
    }

    ghost function View(): Manager
      reads this
    {
      Manager(state, failedAt, publishers)
    }

    /** The code inside the wrapper. */
    method RunBody(op: Operation, outcome: Outcome) returns (result: Outcome)
      modifies this`state
      ensures (state, result) == Body(old(state), op, outcome)
    {
      if op == Publish && state == Uninitialized {
        return Misused;
      }
      if op == Initialize && outcome == Succeeds {
        state := ReadyToPublish;
      }
      return outcome;
    }

    /** `abandonable` */
    method Abandonable(op: Operation, now: int, outcome: Outcome) returns (reply: Reply)
      modifies this`state, this`failedAt
      ensures (View(), reply) == Attempt(config, old(View()), op, now, outcome)
      ensures reply == Abandoned ==>
                failedAt == now && state == if op == Publish then ErrorRecoverable else ErrorUnrecoverable
    {
      var elapsed := now - failedAt;
      if InError(state) && elapsed <= config.backoff {
        return Skipped;
      }
      if state == ErrorUnrecoverable {
        return Skipped;
      }
      if state == ErrorRecoverable {
        state := ReadyToPublish;
      }
      var result := RunBody(op, outcome);
      if result == Succeeds {
        return Done;
      }
      if result == Misused {
        return RaisedUsage;
      }
      if config.raiseOnError {
        return RaisedError;
      }
      failedAt := now;
      if Recoverable(op) {
        state := ErrorRecoverable;
      } else {
        state := ErrorUnrecoverable;
      }
      return Abandoned;
    }

    method CreatePublisher(name: string, validModel: bool, now: int, outcome: Outcome) returns (reply: Reply)
      modifies this
      ensures (View(), reply) == CreateStep(config, old(View()), name, validModel, now, outcome)
    {
      if state == Uninitialized {
        return RaisedUsage;
      }
      if name in publishers {
        return RaisedUsage;
      }
      if !validModel {
        return RaisedUsage;
      }
      reply := Abandonable(Build, now, outcome);
      if reply == RaisedUsage || reply == RaisedError {
        return;
      }
      publishers := publishers[name := reply == Done];
      return Done;
    }

    /** `clean` tells whether the Kafka clients shut down without an error. */
    method Aclose(clean: bool)
      modifies this
      ensures View() == CloseStep(old(View()), clean)
    {
      if clean {
        publishers, state := map[], Uninitialized;
      }
    }
  }

  class FailedEventPublisher {
    const backoff: nat
    var publishCalledAt: int
    ghost var logged: seq<int>

    ghost function View(): Log
      reads this
    {
      Log(publishCalledAt, logged)
    }

    constructor (backoff: nat)
      ensures this.backoff == backoff && View() == Log(LONG_AGO, [])
    {
      this.backoff, publishCalledAt, logged := backoff, LONG_AGO, [];
    }

    method Publish(now: int) returns (logs: bool)
      modifies this
      ensures View() == LogStep(backoff, old(View()), now)
      ensures logs <==> logged != old(logged)
    {
      var elapsed := now - publishCalledAt;
      logs := elapsed > backoff;
      if logs {
        publishCalledAt, logged := now, logged + [now];
      }
    }
  }
}
