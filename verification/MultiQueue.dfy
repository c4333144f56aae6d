/** `AsyncMultiQueue` and its iterators as objects that share lists and events.

  Every method is proved to do to the abstract state exactly what the matching action
  of `MultiQueueModel` does, so the theorems there are about these objects. */
module MultiQueue {
  import opened MultiQueueModel

  /** A Python list, shared by the queue and the iterators that captured it. */
  class Contents<T> {
    var slots: seq<Slot<T>>

    constructor ()
      ensures slots == []
    {
      slots := [];
    }
  }

  /** An `asyncio.Event`. */
  class Event {
    var isSet: bool

    constructor ()
      ensures !isSet
    {
      isSet := false;
    }
  }

  method SetAll(events: seq<Event>)
    modifies events
    ensures forall e :: e in events ==> e.isSet
  {
    for k := 0 to |events|
      invariant forall e :: e in events[..k] ==> e.isSet
    {
      events[k].isSet := true;
    }
  }

  function Others(events: seq<Event>, e: Event): seq<Event> {
    if events == [] then []
    else if events[0] == e then Others(events[1..], e)
    else [events[0]] + Others(events[1..], e)
  }

  /** Events are dropped together with the numbers of their owners. */
  lemma {:induction false} OthersAreWithout(events: seq<Event>, ids: seq<nat>, owned: seq<Event>, id: nat)
    requires |events| == |ids| && id < |owned|
    requires forall k :: 0 <= k < |ids| ==> ids[k] < |owned| && events[k] == owned[ids[k]]
    requires forall i :: 0 <= i < |owned| && i != id ==> owned[i] != owned[id]
    ensures var others, rest := Others(events, owned[id]), Without(ids, id);
            |others| == |rest| && forall j :: 0 <= j < |rest| ==> rest[j] < |owned| && others[j] == owned[rest[j]]
  {
    if events != [] {
      OthersAreWithout(events[1..], ids[1..], owned, id);
    }
  }

  lemma {:induction false} ResumeStepIs<T>(q: Queue<T>, id: nat, r: Reader<T>)
    requires id < |q.readers| && q.readers[id].Live() && q.readers[id].gen < |q.gens|
    requires r == Advance(q.readers[id], q.gens[q.readers[id].gen])
    ensures var q' := q.(readers := q.readers[id := r]);
            ResumeStep(q, id) == if r.pc.Returned? then q'.(triggers := Without(q.triggers, id)) else q'
  {}

  /** The asynchronous generator that `aiter_from` returns. */
  class QueueIterator<T> {
    const queue: AsyncMultiQueue<T>
    const contents: Contents<T>
    const trigger: Event
    const start: nat
    var position: nat
    var pc: Pc
    ghost const id: nat
    ghost const gen: nat
    ghost var yielded: seq<T>

    constructor (
        queue: AsyncMultiQueue<T>, contents: Contents<T>, trigger: Event, start: nat, ghost id: nat, ghost gen: nat)
      ensures this.queue == queue && this.contents == contents && this.trigger == trigger
      ensures this.id == id && this.gen == gen
      ensures View() == Reader(gen, start, start, NotStarted, trigger.isSet, [])
    {
      this.queue, this.contents, this.trigger, this.start := queue, contents, trigger, start;
      this.id, this.gen, this.yielded := id, gen, [];
      this.position, this.pc := start, NotStarted;
    }

    ghost function View(): Reader<T>
      reads this, trigger
    {
      Reader(gen, start, position, pc, trigger.isSet, yielded)
    }

    /** The body of the generator, from one suspension point to the next. */
    method RunBody() returns (item: seq<T>)
      requires View().Live()
      modifies this, trigger
      ensures View() == Advance(old(View()), contents.slots)
      ensures yielded == old(yielded) + item
      ensures item != [] <==> pc.Yielded?
    {
      item := [];
      if pc.Waiting? && !trigger.isSet {
        return;
      }
      var inLoop := pc.Yielded?;
      var next: nat, end: nat := 0, 0;
      if inLoop {
        next, end := pc.next, pc.end;
      }
      ghost var after := Advance(View(), contents.slots);
      while true
        invariant inLoop ==> after == Advance(View().(pc := Yielded(next, end)), contents.slots)
        invariant !inLoop ==> after == LoopTop(View(), contents.slots)
        invariant item == [] && yielded == old(yielded)
        decreases inLoop
      {
        if !inLoop {
          trigger.isSet := false;
          end := |contents.slots|;
          if position < end {
            next, inLoop := position, true;
          } else if Finished(contents.slots) {
            pc := Returned;
            return;
          }
        }
        if inLoop {
          if next < end && next < |contents.slots| {
            if contents.slots[next].End? {
              pc := Returned;
              return;
            }
            item := [contents.slots[next].value];
            pc, yielded := Yielded(next + 1, end), yielded + item;
            return;
          }
          position, inLoop := end, false;
        }
        if !trigger.isSet {
          pc := Waiting;
          return;
        }
      }
    }

    /** One turn of the iterator: it yields an item, waits, or ends. */
    method Resume() returns (item: seq<T>)
      requires queue.Valid() && id < |queue.iterators| && queue.iterators[id] == this
      modifies this, trigger, queue
      ensures queue.Valid() && queue.history == old(queue.history) && queue.iterators == old(queue.iterators)
      ensures queue.Model() == ResumeStep(old(queue.Model()), id)
      ensures yielded == old(yielded) + item
    {
      ghost var q0 := queue.Model();
      item := [];
      if pc.NotStarted? || pc.Yielded? || pc.Waiting? {
        assert q0.readers[id] == View() && q0.gens[gen] == contents.slots;
        item := RunBody();
        queue.OnlyChanged(q0, id);
        ResumeStepIs(q0, id, View());
        if pc.Returned? {
          queue.Unregister(this);
        }
      }
    }

    /** The total time allowed for the iterator runs out while it waits. */
    method TimeOut()
      requires queue.Valid() && id < |queue.iterators| && queue.iterators[id] == this
      modifies this, queue
      ensures queue.Valid() && queue.history == old(queue.history) && queue.iterators == old(queue.iterators)
      ensures queue.Model() == TimeOutStep(old(queue.Model()), id)
    {
      ghost var q0 := queue.Model();
      if pc.Waiting? {
        pc := TimedOut;
        queue.OnlyChanged(q0, id);
        queue.Unregister(this);
      }
    }

    /** The caller closes the generator before it has ended. */
    method Abandon()
      requires queue.Valid() && id < |queue.iterators| && queue.iterators[id] == this
      modifies this, queue
      ensures queue.Valid() && queue.history == old(queue.history) && queue.iterators == old(queue.iterators)
      ensures queue.Model() == AbandonStep(old(queue.Model()), id)
    {
      ghost var q0 := queue.Model();
      var started := pc.Yielded? || pc.Waiting?;
      if pc.NotStarted? || started {
        pc := Abandoned;
        queue.OnlyChanged(q0, id);
        if started {
          queue.Unregister(this);
        }
      }
    }
  }

  ghost predicate Different<T>(history: seq<Contents<T>>) {
    forall g, h :: 0 <= g < h < |history| ==> history[g] != history[h]
  }

  /** Each iterator of the queue has its own number and has captured one of the lists. */
  ghost predicate Captured<T>(
      iterators: seq<QueueIterator<T>>, queue: AsyncMultiQueue<T>, history: seq<Contents<T>>)
  {
    forall i :: 0 <= i < |iterators| ==>
                  && iterators[i].queue == queue && iterators[i].id == i
                  && iterators[i].gen < |history| && iterators[i].contents == history[iterators[i].gen]
  }

  /** No two iterators share a trigger. */
  ghost predicate Apart<T>(iterators: seq<QueueIterator<T>>) {
    forall i, j :: 0 <= i < j < |iterators| ==> iterators[i].trigger != iterators[j].trigger
  }

  /** These are the numbers of the iterators that the triggers belong to. */
  ghost predicate Owned<T>(triggers: seq<Event>, ids: seq<nat>, iterators: seq<QueueIterator<T>>) {
    && |ids| == |triggers|
    && forall k :: 0 <= k < |ids| ==> ids[k] < |iterators| && triggers[k] == iterators[ids[k]].trigger
  }

  lemma {:induction false} OneMoreIterator<T>(
      triggers: seq<Event>, ids: seq<nat>, iterators: seq<QueueIterator<T>>, it: QueueIterator<T>)
    requires Apart(iterators) && Owned(triggers, ids, iterators)
    requires forall i :: 0 <= i < |iterators| ==> iterators[i].trigger != it.trigger
    ensures Apart(iterators + [it]) && Owned(triggers + [it.trigger], ids + [|iterators|], iterators + [it])
  {}

  lemma {:induction false} OneLess<T>(
      triggers: seq<Event>, ids: seq<nat>, iterators: seq<QueueIterator<T>>, id: nat)
    requires Apart(iterators) && Owned(triggers, ids, iterators) && id < |iterators|
    ensures Owned(Others(triggers, iterators[id].trigger), Without(ids, id), iterators)
  {
    var owned := seq(|iterators|, i requires 0 <= i < |iterators| => iterators[i].trigger);
    OthersAreWithout(triggers, ids, owned, id);
  }

  lemma {:induction false} OneMoreCaptured<T>(
      iterators: seq<QueueIterator<T>>, queue: AsyncMultiQueue<T>, history: seq<Contents<T>>, it: QueueIterator<T>)
    requires Captured(iterators, queue, history) && it.queue == queue && it.id == |iterators|
    requires it.gen < |history| && it.contents == history[it.gen]
    ensures Captured(iterators + [it], queue, history)
  {}

  lemma {:induction false} OneMoreList<T>(
      history: seq<Contents<T>>, list: Contents<T>, iterators: seq<QueueIterator<T>>, queue: AsyncMultiQueue<T>)
    requires Different(history) && Captured(iterators, queue, history) && list !in history
    ensures Different(history + [list]) && Captured(iterators, queue, history + [list])
  {}

  class AsyncMultiQueue<T> {
    var contents: Contents<T>
    var triggers: seq<Event>
    /** Every contents list so far, every iterator so far, and whose triggers those are. */
    ghost var history: seq<Contents<T>>
    ghost var iterators: seq<QueueIterator<T>>
    ghost var ids: seq<nat>

    ghost predicate Valid()
      reads this
    {
      && history != [] && contents == history[|history| - 1]
      && Different(history) && Captured(iterators, this, history)
      && Apart(iterators) && Owned(triggers, ids, iterators)
    }

    ghost function Events(): set<Event>
      reads this
    {
      set it | it in iterators :: it.trigger
    }

    ghost function Lists(n: nat): (lists: seq<seq<Slot<T>>>)
      requires n <= |history|
      reads this, history
      ensures |lists| == n
      ensures forall g :: 0 <= g < n ==> lists[g] == history[g].slots
    {
      if n == 0 then [] else Lists(n - 1) + [history[n - 1].slots]
    }

    ghost function Views(n: nat): (views: seq<Reader<T>>)
      requires n <= |iterators|
      reads this, iterators, Events()
      ensures |views| == n
      ensures forall i :: 0 <= i < n ==> views[i] == iterators[i].View()
    {
      if n == 0 then [] else Views(n - 1) + [iterators[n - 1].View()]
    }

    /** The abstract state. */
    ghost function Model(): Queue<T>
      reads this, history, iterators, Events()
    {
      Queue(Lists(|history|), Views(|iterators|), ids)
    }

    constructor ()
      ensures Valid() && fresh(contents) && Model() == Init()
    {
      contents := new Contents<T>();
      triggers, iterators, ids := [], [], [];
      new;
      history := [contents];
      assert Lists(1) == [[]];
    }

    /** Whether `close` has been called. */
    predicate IsFinished()
      requires Valid()
      reads this, contents
      ensures IsFinished() == Finished(history[|history| - 1].slots)
    {
      Finished(contents.slots)
    }

    method Size() returns (count: int)
      requires Valid()
      ensures count == QSize(Current(Model()))
    {
      count := |contents.slots|;
      if IsFinished() {
        count := count - 1;
      }
    }

    method AiterFrom(start: nat) returns (iterator_: QueueIterator<T>)
      requires Valid()
      modifies this
      ensures Valid() && history == old(history)
      ensures fresh(iterator_) && iterators == old(iterators) + [iterator_]
      ensures Model() == AttachStep(old(Model()), start)
    {
      ghost var q0 := Model();
      var trigger := new Event();
      iterator_ := new QueueIterator(this, contents, trigger, start, |iterators|, |history| - 1);
      OneMoreIterator(triggers, ids, iterators, iterator_);
      OneMoreCaptured(iterators, this, history, iterator_);
      triggers, ids := triggers + [trigger], ids + [|iterators|];
      iterators := iterators + [iterator_];
      Reflects(AttachStep(q0, start));
    }

    lemma Registered(i: nat)
      requires Valid() && i < |iterators|
      ensures iterators[i].trigger in triggers <==> i in ids
    {}

    /** Append to the current list and trigger every registered iterator. */
    method Push(slot: Slot<T>)
      requires Valid()
      modifies contents, triggers
      ensures Valid()
      ensures Model() == Append(old(Model()), slot)
    {
      contents.slots := contents.slots + [slot];
      SetAll(triggers);
      PushedLists(slot);
      PushedViews(slot);
    }

    twostate lemma PushedLists(slot: Slot<T>)
      requires old(Valid()) && unchanged(this)
      requires contents.slots == old(contents.slots) + [slot]
      requires forall g :: 0 <= g < |history| - 1 ==> history[g].slots == old(history[g].slots)
      ensures Model().gens == Append(old(Model()), slot).gens
    {}

    twostate lemma PushedViews(slot: Slot<T>)
      requires old(Valid()) && unchanged(this)
      requires forall e :: e in triggers ==> e.isSet
      requires forall i :: 0 <= i < |iterators| ==> unchanged(iterators[i])
      requires forall i :: 0 <= i < |iterators| && iterators[i].trigger !in triggers ==> unchanged(iterators[i].trigger)
      ensures Model().readers == Append(old(Model()), slot).readers
    {
      forall i | 0 <= i < |iterators| ensures Views(|iterators|)[i] == Append(old(Model()), slot).readers[i] {
        Woken(i);
      }
    }

    twostate lemma Woken(i: nat)
      requires old(Valid()) && unchanged(this) && i < |iterators| && unchanged(iterators[i])
      requires forall e :: e in triggers ==> e.isSet
      requires iterators[i].trigger !in triggers ==> unchanged(iterators[i].trigger)
      ensures iterators[i].View() ==
              if i in ids then old(iterators[i].View()).(triggered := true) else old(iterators[i].View())
    {
      Registered(i);
    }

    lemma Reflects(q: Queue<T>)
      requires |q.gens| == |history| && |q.readers| == |iterators| && q.triggers == ids
      requires forall g :: 0 <= g < |history| ==> q.gens[g] == history[g].slots
      requires forall i :: 0 <= i < |iterators| ==> q.readers[i] == iterators[i].View()
      ensures Model() == q
    {}

    /** False means that `AsyncMultiQueueError` was raised. */
    method Put(item: T) returns (ok: bool)
      requires Valid()
      modifies contents, triggers
      ensures Valid() && ok == !old(Finished(Current(Model())))
      ensures Model() == PutStep(old(Model()), item)
    {
      if IsFinished() {
        return false;
      }
      Push(Item(item));
      return true;
    }

    method Close()
      requires Valid()
      modifies contents, triggers
      ensures Valid()
      ensures Model() == Append(old(Model()), End)
    {
      Push(End);
    }

    method StartNewList()
      requires Valid()
      modifies this
      ensures Valid() && iterators == old(iterators)
      ensures Model() == StartList(old(Model()))
    {
      ghost var q0 := Model();
      contents := new Contents<T>();
      OneMoreList(history, contents, iterators, this);
      triggers, ids, history := [], [], history + [contents];
      Reflects(StartList(q0));
    }

    method Clear()
      requires Valid()
      modifies this, contents, triggers
      ensures Valid() && iterators == old(iterators)
      ensures Model() == ClearStep(old(Model()))
    {
      ghost var q0 := Model();
      assert IsFinished() == Finished(Current(q0));
      if !IsFinished() {
        Push(End);
      }
      ghost var q1 := Model();
      assert StartList(q1) == ClearStep(q0);
      StartNewList();
    }

    /** The `finally` clause of an iterator: keep the triggers that are not its own. */
    method Unregister(it: QueueIterator<T>)
      requires Valid() && it in iterators
      modifies this`triggers, this`ids
      ensures Valid()
      ensures Model() == old(Model()).(triggers := Without(old(ids), it.id))
    {
      ghost var q0 := Model();
      ghost var left := Without(ids, it.id);
      OneLess(triggers, ids, iterators, it.id);
      triggers, ids := Others(triggers, it.trigger), left;
      Reflects(q0.(triggers := left));
    }

    /** If only iterator `id` and its trigger differ from state `q0`, then so does the model. */
    lemma OnlyChanged(q0: Queue<T>, id: nat)
      requires Valid() && id < |iterators|
      requires |q0.readers| == |iterators| && q0.gens == Model().gens && q0.triggers == ids
      requires forall i :: 0 <= i < |iterators| && i != id ==> iterators[i].View() == q0.readers[i]
      ensures Model() == q0.(readers := q0.readers[id := iterators[id].View()])
    {}
  }
}
