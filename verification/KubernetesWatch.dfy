/** Watches on the queue behind an event stream, while calls change the cluster. */
module KubernetesWatch {
  import opened Wrappers
  import K = KubernetesModel
  import Q = MultiQueueModel

  /** What is watched: the objects of one kind in one namespace. */
  datatype Topic = Topic(ns: string, kind: string)

  datatype System = System(cluster: K.Cluster, queue: Q.Queue<K.Event>)

  /** Watch: a watch begins, at this version or at the end of the stream. Next, Expire,
    Drop: it goes on to its next event, its time runs out, or the caller gives it up. */
  datatype Action =
    | Request(call: K.Call)
    | Watch(version: Option<nat>)
    | Next(id: nat)
    | Expire(id: nat)
    | Drop(id: nat)

  const INITIAL := System(K.Empty(), Q.Init())

  function Stream(c: K.Cluster, t: Topic): seq<K.Event> { K.Stream(c, t.ns, K.Kind(t.kind)) }

  function Apply(s: System, a: Action, t: Topic): System
    requires s.queue.gens != []
  {
    match a
    case Request(call) =>
      var events := K.NewEvents(s.cluster, call, t.ns, t.kind);
      System(K.Step(s.cluster, call), if events == [] then s.queue else Q.Apply(s.queue, Q.Put(events[0])))
    case Watch(version) =>
      var size := Q.QSize(Q.Current(s.queue));
      var start := if version.Some? then version.value else size;
      s.(queue := Q.Apply(s.queue, Q.Attach(start)))
    case Next(id) => s.(queue := Q.Apply(s.queue, Q.Resume(id)))
    case Expire(id) => s.(queue := Q.Apply(s.queue, Q.TimeOut(id)))
    case Drop(id) => s.(queue := Q.Apply(s.queue, Q.Abandon(id)))
  }

  function Run(s: System, actions: seq<Action>, t: Topic): (s': System)
    requires s.queue.gens != []
    ensures s'.queue.gens != []
    decreases |actions|
  {
    if actions == [] then s else Run(Apply(s, actions[0], t), actions[1..], t)
  }

  // ---- The queue holds the stream

  ghost predicate Inv(s: System, t: Topic) {
    && Q.Inv(s.queue) && |s.queue.gens| == 1 && !Q.Finished(s.queue.gens[0])
    && Q.Items(s.queue.gens[0]) == Stream(s.cluster, t) && |s.queue.gens[0]| == |Stream(s.cluster, t)|
  }

  lemma {:induction false} RequestKeepsInv(s: System, call: K.Call, t: Topic)
    requires Inv(s, t)
    ensures Inv(Apply(s, Request(call), t), t)
  {
    var events := K.NewEvents(s.cluster, call, t.ns, t.kind);
    if events != [] {
      Q.ApplyKeepsInv(s.queue, Q.Put(events[0]));
      Q.ItemsAppend(s.queue.gens[0], Q.Item(events[0]));
      assert events == [events[0]];
    }
  }

  lemma {:induction false} WatcherKeepsInv(s: System, a: Q.Action<K.Event>, t: Topic)
    requires Inv(s, t) && !a.Put? && !a.Close? && !a.Clear?
    ensures Inv(s.(queue := Q.Apply(s.queue, a)), t)
  {
    Q.ApplyKeepsInv(s.queue, a);
    Q.ReadersDoNotWrite(s.queue, a);
  }

  /** A watch without a version begins behind all events so far. */
  lemma {:induction false} FreshStart(s: System, t: Topic)
    requires Inv(s, t)
    ensures Apply(s, Watch(None), t) == Apply(s, Watch(Some(|Stream(s.cluster, t)|)), t)
  {}

  lemma {:induction false} ApplyKeepsInv(s: System, a: Action, t: Topic)
    requires Inv(s, t)
    ensures Inv(Apply(s, a, t), t)
  {
    match a
    case Request(call) => RequestKeepsInv(s, call, t);
    case Watch(version) =>
      if version.None? {
        FreshStart(s, t);
      }
      WatcherKeepsInv(s, Q.Attach(if version.Some? then version.value else |Stream(s.cluster, t)|), t);
    case Next(id) => WatcherKeepsInv(s, Q.Resume(id), t);
    case Expire(id) => WatcherKeepsInv(s, Q.TimeOut(id), t);
    case Drop(id) => WatcherKeepsInv(s, Q.Abandon(id), t);
  }

  lemma {:induction false} RunKeepsInv(s: System, actions: seq<Action>, t: Topic)
    requires Inv(s, t)
    ensures Inv(Run(s, actions, t), t)
    decreases |actions|
  {
    if actions != [] {
      ApplyKeepsInv(s, actions[0], t);
      RunKeepsInv(Apply(s, actions[0], t), actions[1..], t);
    }
  }

  // ---- The calls of a run

  function Calls(actions: seq<Action>): seq<K.Call> {
    if actions == [] then []
    else (if actions[0].Request? then [actions[0].call] else []) + Calls(actions[1..])
  }

  lemma {:induction false} OneCall(s: System, a: Action, rest: seq<K.Call>, t: Topic)
    requires s.queue.gens != []
    ensures K.Run(Apply(s, a, t).cluster, rest) == K.Run(s.cluster, (if a.Request? then [a.call] else []) + rest)
  {
    if a.Request? {
      assert ([a.call] + rest)[1..] == rest;
    } else {
      assert [] + rest == rest;
    }
  }

  lemma {:induction false} RunCalls(s: System, actions: seq<Action>, t: Topic)
    requires s.queue.gens != []
    ensures Run(s, actions, t).cluster == K.Run(s.cluster, Calls(actions))
    decreases |actions|
  {
    if actions != [] {
      RunCalls(Apply(s, actions[0], t), actions[1..], t);
      OneCall(s, actions[0], Calls(actions[1..]), t);
    }
  }

  lemma {:induction false} RunAppend(c: K.Cluster, first: seq<K.Call>, rest: seq<K.Call>)
    ensures K.Run(c, first + rest) == K.Run(K.Run(c, first), rest)
    decreases |first|
  {
    if first == [] {
      assert first + rest == rest;
    } else {
      assert (first + rest)[1..] == first[1..] + rest;
      RunAppend(K.Step(c, first[0]), first[1..], rest);
    }
  }

  // ---- What a watch has delivered

  /** What a watch that selects in this way has handed out. */
  function Delivered(s: System, id: nat, name: Option<string>, selector: map<string, string>): seq<K.Event>
    requires id < |s.queue.readers|
  {
    K.Matching(s.queue.readers[id].yielded, name, selector)
  }

  /** The watch waits and nothing has happened since it looked last. */
  predicate Idle(s: System, id: nat)
    requires id < |s.queue.readers|
  {
    s.queue.readers[id].pc.Waiting? && !s.queue.readers[id].triggered
  }

  lemma {:induction false} MatchingPrefix(
      front: seq<K.Event>, all: seq<K.Event>, name: Option<string>, selector: map<string, string>)
    requires front <= all
    ensures K.Matching(front, name, selector) <= K.Matching(all, name, selector)
    decreases |all|
  {
    if front != all {
      MatchingPrefix(front, all[..|all| - 1], name, selector);
    }
  }

  lemma {:induction false} ReaderFollows(s: System, id: nat, t: Topic)
    requires Inv(s, t) && id < |s.queue.readers|
    ensures var (r, all) := (s.queue.readers[id], Stream(s.cluster, t));
            && r.yielded <= Q.From(all, r.start)
            && (Idle(s, id) ==> r.yielded == Q.From(all, r.start))
  {
    assert Q.ReaderOk(s.queue, id);
    Q.PrefixOfItsList(s.queue.readers[id], s.queue.gens[0]);
  }

  lemma {:induction false} ApplyKeepsReader(s: System, a: Action, id: nat, t: Topic)
    requires s.queue.gens != [] && id < |s.queue.readers|
    ensures var q := Apply(s, a, t).queue; id < |q.readers| && q.readers[id].start == s.queue.readers[id].start
  {}

  lemma {:induction false} RunKeepsReader(s: System, actions: seq<Action>, id: nat, t: Topic)
    requires s.queue.gens != [] && id < |s.queue.readers|
    ensures var q := Run(s, actions, t).queue; id < |q.readers| && q.readers[id].start == s.queue.readers[id].start
    decreases |actions|
  {
    if actions != [] {
      ApplyKeepsReader(s, actions[0], id, t);
      RunKeepsReader(Apply(s, actions[0], t), actions[1..], id, t);
    }
  }

  /** The watch with this number, over a run from when it began. */
  lemma {:induction false} WatchSince(s: System, version: nat, after: seq<Action>, t: Topic)
    requires Inv(s, t)
    ensures var id := |s.queue.readers|;
            var now := Run(Apply(s, Watch(Some(version)), t), after, t);
            && now.cluster == K.Run(s.cluster, Calls(after))
            && id < |now.queue.readers|
            && now.queue.readers[id].yielded <= Q.From(Stream(now.cluster, t), version)
            && (Idle(now, id) ==> now.queue.readers[id].yielded == Q.From(Stream(now.cluster, t), version))
  {
    var begun := Apply(s, Watch(Some(version)), t);
    ApplyKeepsInv(s, Watch(Some(version)), t);
    RunKeepsInv(begun, after, t);
    RunKeepsReader(begun, after, |s.queue.readers|, t);
    ReaderFollows(Run(begun, after, t), |s.queue.readers|, t);
    RunCalls(begun, after, t);
  }

  /** In every interleaving, a watch has delivered a first part of the matching events from
    its version on, and all of them whenever it is idle. */
  lemma {:induction false} WatchFollows(
      before: seq<Action>, version: nat, after: seq<Action>, t: Topic,
      name: Option<string>, selector: map<string, string>)
    ensures var s := Run(INITIAL, before, t);
            var id := |s.queue.readers|;
            var now := Run(Apply(s, Watch(Some(version)), t), after, t);
            var wanted := K.Matching(Q.From(Stream(now.cluster, t), version), name, selector);
            && id < |now.queue.readers|
            && Delivered(now, id, name, selector) <= wanted
            && (Idle(now, id) ==> Delivered(now, id, name, selector) == wanted)
  {
    RunKeepsInv(INITIAL, before, t);
    var s := Run(INITIAL, before, t);
    WatchSince(s, version, after, t);
    var now := Run(Apply(s, Watch(Some(version)), t), after, t);
    var yielded := now.queue.readers[|s.queue.readers|].yielded;
    MatchingPrefix(yielded, Q.From(Stream(now.cluster, t), version), name, selector);
  }

  // ---- The client's view

  /** The client's view after these events, which came behind its list. */
  function Seen(c: K.Cluster, events: seq<K.Event>, t: Topic, selector: map<string, string>): map<string, nat> {
    K.Replay(K.View(c, t.ns, t.kind, selector), K.Matching(events, None, selector))
  }

  /** It is the list right after these of the calls, which have caused just those events. */
  ghost predicate IsList(
      c: K.Cluster, calls: seq<K.Call>, n: nat, events: seq<K.Event>, t: Topic, selector: map<string, string>)
    requires n <= |calls|
  {
    && Stream(K.Run(c, calls[..n]), t) == Stream(c, t) + events
    && Seen(c, events, t, selector) == K.View(K.Run(c, calls[..n]), t.ns, t.kind, selector)
  }

  lemma {:induction false} AllIsPresent(
      c: K.Cluster, calls: seq<K.Call>, t: Topic, selector: map<string, string>, events: seq<K.Event>)
    requires K.Tracks(c, calls, t.ns, t.kind, selector)
    requires Stream(c, t) + events == Stream(K.Run(c, calls), t)
    ensures Seen(c, events, t, selector) == K.View(K.Run(c, calls), t.ns, t.kind, selector)
  {
    assert Stream(K.Run(c, calls), t)[|Stream(c, t)|..] == events;
  }

  /** The last call has added one event at most. */
  lemma {:induction false} WithoutLastCall(
      c: K.Cluster, calls: seq<K.Call>, last: K.Call, t: Topic, events: seq<K.Event>)
    requires events <= Stream(K.Run(c, calls + [last]), t) && events != Stream(K.Run(c, calls + [last]), t)
    ensures events <= Stream(K.Run(c, calls), t)
  {
    K.RunMore(c, calls, last);
    var added := K.NewEvents(K.Run(c, calls), last, t.ns, t.kind);
  }

  /** Calls add events one by one, so that each first part of the new events leads to the
    list after some of the calls. */
  lemma {:induction false} PrefixIsPast(
      c: K.Cluster, calls: seq<K.Call>, t: Topic, selector: map<string, string>, events: seq<K.Event>) returns (n: nat)
    requires K.KeepsUp(c, calls, t.ns, t.kind, selector)
    requires Stream(c, t) + events <= Stream(K.Run(c, calls), t)
    ensures n <= |calls| && IsList(c, calls, n, events, t, selector)
    decreases |calls|
  {
    if Stream(c, t) + events == Stream(K.Run(c, calls), t) {
      n := |calls|;
      assert calls[..n] == calls;
      AllIsPresent(c, calls, t, selector, events);
    } else {
      assert calls != [];
      var front, last := calls[..|calls| - 1], calls[|calls| - 1];
      assert calls == front + [last];
      WithoutLastCall(c, front, last, t, Stream(c, t) + events);
      n := PrefixIsPast(c, front, t, selector, events);
      assert front[..n] == calls[..n];
    }
  }

  lemma {:induction false} ViewIsList(
      c: K.Cluster, calls: seq<K.Call>, t: Topic, selector: map<string, string>, events: seq<K.Event>, idle: bool)
      returns (n: nat)
    requires K.DropNamespace(t.ns) !in calls && K.NoneLeaves(c, calls, t.ns, t.kind, selector)
    requires var all := Q.From(Stream(K.Run(c, calls), t), |Stream(c, t)|);
             events <= all && (idle ==> events == all)
    ensures n <= |calls| && IsList(c, calls, n, events, t, selector)
    ensures idle ==> Seen(c, events, t, selector) == K.View(K.Run(c, calls), t.ns, t.kind, selector)
  {
    K.WatchKeepsUpIff(c, calls, t.ns, t.kind, selector);
    assert K.Tracks(c, calls, t.ns, t.kind, selector);
    n := PrefixIsPast(c, calls, t, selector, events);
  }

  /** A client that lists and then watches from where it has listed, at once or later, always
    sees the list as it was after some of the calls, later ones with every further event, and
    whenever its watch is idle the present list. It must only be that no replacement takes
    an object out of its selector. */
  lemma {:induction false} ClientSeesPast(
      before: seq<Action>, between: seq<Action>, after: seq<Action>, t: Topic, selector: map<string, string>)
      returns (n: nat)
    requires K.DropNamespace(t.ns) !in Calls(between) + Calls(after)
    requires var listed := Run(INITIAL, before, t).cluster;
             K.NoneLeaves(listed, Calls(between) + Calls(after), t.ns, t.kind, selector)
    ensures var listed := Run(INITIAL, before, t);
            var s := Run(listed, between, t);
            var id := |s.queue.readers|;
            var now := Run(Apply(s, Watch(Some(|Stream(listed.cluster, t)|)), t), after, t);
            var calls := Calls(between) + Calls(after);
            && id < |now.queue.readers|
            && now.cluster == K.Run(listed.cluster, calls)
            && var events := now.queue.readers[id].yielded;
               && n <= |calls| && IsList(listed.cluster, calls, n, events, t, selector)
               && (Idle(now, id) ==>
                     Seen(listed.cluster, events, t, selector) == K.View(now.cluster, t.ns, t.kind, selector))
  {
    var listed := Run(INITIAL, before, t);
    var s := Run(listed, between, t);
    var version, id := |Stream(listed.cluster, t)|, |s.queue.readers|;
    var now := Run(Apply(s, Watch(Some(version)), t), after, t);
    RunKeepsInv(INITIAL, before, t);
    RunKeepsInv(listed, between, t);
    WatchSince(s, version, after, t);
    RunCalls(listed, between, t);
    RunAppend(listed.cluster, Calls(between), Calls(after));
    n := ViewIsList(listed.cluster, Calls(between) + Calls(after), t, selector, now.queue.readers[id].yielded,
                    Idle(now, id));
  }

  /** A watch may also begin at any version since the namespace was deleted last. While it
    catches up it repeats events that the list shows already, but when it is idle the client
    has the present list. */
  lemma {:induction false} CatchesUp(
      first: seq<Action>, before: seq<Action>, version: nat, after: seq<Action>, t: Topic)
    requires K.DropNamespace(t.ns) !in Calls(before) + Calls(after)
    requires var since := Run(INITIAL, first, t);
             |Stream(since.cluster, t)| <= version <= |Stream(Run(since, before, t).cluster, t)|
    ensures var listed := Run(Run(INITIAL, first, t), before, t);
            var id := |listed.queue.readers|;
            var now := Run(Apply(listed, Watch(Some(version)), t), after, t);
            && id < |now.queue.readers|
            && (Idle(now, id) ==>
                  Seen(listed.cluster, now.queue.readers[id].yielded, t, map[])
                  == K.View(now.cluster, t.ns, t.kind, map[]))
  {
    var since := Run(INITIAL, first, t);
    var listed := Run(since, before, t);
    RunKeepsInv(INITIAL, first, t);
    RunKeepsInv(since, before, t);
    WatchSince(listed, version, after, t);
    RunCalls(since, before, t);
    K.ListThenWatch(since.cluster, Calls(before), Calls(after), t.ns, t.kind, version);
  }
}
