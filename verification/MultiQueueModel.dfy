/** The multiple reader, multiple writer queue as a step system on values.

  A state holds every contents list the queue has ever had (one more for each
  `clear`; the last one is current), every iterator ever handed out, and the
  iterators whose triggers are registered, in registration order. One action is
  one uninterrupted stretch of code: asyncio can switch tasks only where an
  iterator yields or waits. */
module MultiQueueModel {

  /** An element of the contents list: an item, or the end-of-queue placeholder. */
  datatype Slot<+T> = Item(value: T) | End

  /** Where an iterator is suspended, or how it stopped. In `Yielded(next, end)` it
    is inside the loop over the slice that stops at `end`, and `next` comes next. */
  datatype Pc = NotStarted | Yielded(next: nat, end: nat) | Waiting | Returned | TimedOut | Abandoned

  datatype Reader<+T> =
    Reader(gen: nat, start: nat, position: nat, pc: Pc, triggered: bool, yielded: seq<T>)
  {
    predicate Live() { pc.NotStarted? || pc.Yielded? || pc.Waiting? }
  }

  datatype Queue<+T> = Queue(gens: seq<seq<Slot<T>>>, readers: seq<Reader<T>>, triggers: seq<nat>)

  datatype Action<+T> =
    | Put(item: T)
    | Close
    | Clear
    | Attach(start: nat)
    | Resume(id: nat)
    | TimeOut(id: nat)
    | Abandon(id: nat)

  /** Whether the last element is the placeholder. */
  predicate Finished<T>(slots: seq<Slot<T>>) {
    slots != [] && slots[|slots| - 1].End?
  }

  function FirstEnd<T>(slots: seq<Slot<T>>): (n: nat)
    ensures n <= |slots|
    ensures forall k :: 0 <= k < n ==> slots[k].Item?
    ensures n < |slots| ==> slots[n].End?
  {
    if slots == [] || slots[0].End? then 0 else 1 + FirstEnd(slots[1..])
  }

  /** The items in front of the first placeholder. */
  function Items<T>(slots: seq<Slot<T>>): (items: seq<T>)
    ensures |items| == FirstEnd(slots)
    ensures forall k :: 0 <= k < |items| ==> slots[k] == Item(items[k])
  {
    seq(FirstEnd(slots), k requires 0 <= k < FirstEnd(slots) => slots[k].value)
  }

  function QSize<T>(slots: seq<Slot<T>>): int {
    if Finished(slots) then |slots| - 1 else |slots|
  }

  function Init<T>(): Queue<T> { Queue([[]], [], []) }

  // ---- Writers

  /** Set the triggers of the readers in `ids`. */
  function Wake<T>(readers: seq<Reader<T>>, ids: seq<nat>): (woken: seq<Reader<T>>)
    ensures |woken| == |readers|
    ensures forall i :: 0 <= i < |readers| ==>
                          woken[i] == if i in ids then readers[i].(triggered := true) else readers[i]
  {
    seq(|readers|, i requires 0 <= i < |readers| =>
      if i in ids then readers[i].(triggered := true) else readers[i])
  }

  function Append<T>(q: Queue<T>, slot: Slot<T>): Queue<T>
    requires q.gens != []
  {
    var last := |q.gens| - 1;
    q.(gens := q.gens[last := q.gens[last] + [slot]], readers := Wake(q.readers, q.triggers))
  }

  function Current<T>(q: Queue<T>): seq<Slot<T>>
    requires q.gens != []
  {
    q.gens[|q.gens| - 1]
  }

  // ---- Iterators

  /** The `finally` clause, which drops this iterator's trigger. */
  function Without(ids: seq<nat>, id: nat): (rest: seq<nat>)
    ensures forall k :: k in rest <==> k in ids && k != id
  {
    if ids == [] then []
    else if ids[0] == id then Without(ids[1..], id)
    else [ids[0]] + Without(ids[1..], id)
  }

  function Stop<T>(q: Queue<T>, id: nat, pc: Pc): Queue<T>
    requires id < |q.readers|
  {
    q.(readers := q.readers[id := q.readers[id].(pc := pc)], triggers := Without(q.triggers, id))
  }

  /** From the head of the `while` loop to the next suspension point. */
  function LoopTop<T>(r: Reader<T>, slots: seq<Slot<T>>): Reader<T> {
    var r := r.(triggered := false);
    if r.position < |slots| then ForLoop(r, slots, r.position, |slots|)
    else if Finished(slots) then r.(pc := Returned)
    else r.(pc := Waiting)
  }

  /** The next turn of the loop over the slice, which still has an element. */
  function ForLoop<T>(r: Reader<T>, slots: seq<Slot<T>>, next: nat, end: nat): Reader<T>
    requires next < |slots|
  {
    match slots[next]
    case End => r.(pc := Returned)
    case Item(x) => r.(pc := Yielded(next + 1, end), yielded := r.yielded + [x])
  }

  /** Run a suspended iterator to its next suspension point. One that waits on an
    unset trigger cannot run, nor can one that has stopped. */
  function Advance<T>(r: Reader<T>, slots: seq<Slot<T>>): Reader<T> {
    match r.pc
    case NotStarted => LoopTop(r, slots)
    case Yielded(next, end) =>
      if next < end && next < |slots| then ForLoop(r, slots, next, end)
      else if r.triggered then LoopTop(r.(position := end), slots)
      else r.(position := end, pc := Waiting)
    case Waiting => if r.triggered then LoopTop(r, slots) else r
    case _ => r
  }

  // ---- Actions

  /** `put` raises an error, and changes nothing, once the list is finished. */
  function PutStep<T>(q: Queue<T>, item: T): Queue<T>
    requires q.gens != []
  {
    if Finished(Current(q)) then q else Append(q, Item(item))
  }

  function StartList<T>(q: Queue<T>): Queue<T> {
    q.(gens := q.gens + [[]], triggers := [])
  }

  function ClearStep<T>(q: Queue<T>): Queue<T>
    requires q.gens != []
  {
    StartList(if Finished(Current(q)) then q else Append(q, End))
  }

  function AttachStep<T>(q: Queue<T>, start: nat): Queue<T>
    requires q.gens != []
  {
    q.(readers := q.readers + [Reader(|q.gens| - 1, start, start, NotStarted, false, [])],
       triggers := q.triggers + [|q.readers|])
  }

  function ResumeStep<T>(q: Queue<T>, id: nat): Queue<T> {
    if id < |q.readers| && q.readers[id].Live() && q.readers[id].gen < |q.gens| then
      var r := Advance(q.readers[id], q.gens[q.readers[id].gen]);
      var q' := q.(readers := q.readers[id := r]);
      if r.pc.Returned? then q'.(triggers := Without(q.triggers, id)) else q'
    else q
  }

  function TimeOutStep<T>(q: Queue<T>, id: nat): Queue<T> {
    if id < |q.readers| && q.readers[id].pc.Waiting? then Stop(q, id, TimedOut) else q
  }

  /** Closing a generator that never ran does not execute its `finally` clause. */
  function AbandonStep<T>(q: Queue<T>, id: nat): Queue<T> {
    if id < |q.readers| && q.readers[id].pc.NotStarted? then
      q.(readers := q.readers[id := q.readers[id].(pc := Abandoned)])
    else if id < |q.readers| && q.readers[id].Live() then Stop(q, id, Abandoned)
    else q
  }

  function Apply<T>(q: Queue<T>, a: Action<T>): Queue<T>
    requires q.gens != []
  {
    match a
    case Put(x) => PutStep(q, x)
    case Close => Append(q, End)
    case Clear => ClearStep(q)
    case Attach(start) => AttachStep(q, start)
    case Resume(id) => ResumeStep(q, id)
    case TimeOut(id) => TimeOutStep(q, id)
    case Abandon(id) => AbandonStep(q, id)
  }

  function Run<T>(q: Queue<T>, actions: seq<Action<T>>): (q': Queue<T>)
    requires q.gens != []
    ensures q'.gens != []
    decreases |actions|
  {
    if actions == [] then q else Run(Apply(q, actions[0]), actions[1..])
  }

  // ---- The invariant

  /** Items first, then placeholders only. */
  ghost predicate Shaped<T>(slots: seq<Slot<T>>) {
    forall k :: FirstEnd(slots) <= k < |slots| ==> slots[k].End?
  }

  /** The part of `items` from `lo` to `hi`, which is empty where `items` is too short. */
  function Slice<T>(items: seq<T>, lo: nat, hi: nat): seq<T> {
    if lo <= hi <= |items| then items[lo..hi] else []
  }

  /** The items an iterator started at `start` is to deliver. */
  function From<T>(items: seq<T>, start: nat): seq<T> {
    if start <= |items| then items[start..] else []
  }

  /** An iterator's local variables against the contents list that it captured. */
  ghost predicate ReaderInv<T>(r: Reader<T>, slots: seq<Slot<T>>) {
    var items := Items(slots);
    match r.pc
    case NotStarted => r.position == r.start && r.yielded == []
    case Yielded(next, end) =>
      && r.start <= r.position < next <= end <= |slots|
      && next <= |items|
      && r.yielded == Slice(items, r.start, next)
      && (!r.triggered ==> end == |slots|)
    case Waiting =>
      && r.start <= r.position
      && (r.position <= |items| || (r.position == r.start && r.yielded == []))
      && (r.position <= |items| ==> r.yielded == Slice(items, r.start, r.position))
      && (!r.triggered ==> |slots| <= r.position && !Finished(slots))
    case Returned => Finished(slots) && r.yielded == From(items, r.start)
    case _ => r.yielded <= From(items, r.start)
  }

  ghost predicate ReaderOk<T>(q: Queue<T>, i: nat)
    requires i < |q.readers|
  {
    var r := q.readers[i];
    && r.gen < |q.gens|
    && ReaderInv(r, q.gens[r.gen])
    && (r.Live() && r.gen == |q.gens| - 1 ==> i in q.triggers)
  }

  ghost predicate Inv<T>(q: Queue<T>) {
    && q.gens != []
    && (forall g :: 0 <= g < |q.gens| ==> Shaped(q.gens[g]))
    && (forall g :: 0 <= g < |q.gens| - 1 ==> Finished(q.gens[g]))
    && (forall i :: 0 <= i < |q.readers| ==> ReaderOk(q, i))
  }

  lemma {:induction false} ItemsAppend<T>(slots: seq<Slot<T>>, slot: Slot<T>)
    requires Shaped(slots)
    requires slot.Item? ==> !Finished(slots)
    ensures Shaped(slots + [slot])
    ensures Items(slots + [slot]) == if slot.Item? then Items(slots) + [slot.value] else Items(slots)
    ensures slot.Item? ==> FirstEnd(slots) == |slots|
  {
    FirstEndAppend(slots, slot);
    var more := slots + [slot];
    if slot.Item? {
      assert Items(more)[..|slots|] == Items(slots);
    }
  }

  lemma {:induction false} FirstEndAppend<T>(slots: seq<Slot<T>>, slot: Slot<T>)
    ensures FirstEnd(slots + [slot]) ==
            if FirstEnd(slots) < |slots| || slot.End? then FirstEnd(slots) else |slots| + 1
  {
    if slots != [] {
      FirstEndAppend(slots[1..], slot);
      assert (slots + [slot])[1..] == slots[1..] + [slot];
    }
  }

  lemma {:induction false} AppendKeepsReader<T>(r: Reader<T>, slots: seq<Slot<T>>, slot: Slot<T>)
    requires Shaped(slots) && ReaderInv(r, slots)
    requires slot.Item? ==> !Finished(slots)
    requires r.Live() ==> r.triggered
    ensures ReaderInv(r, slots + [slot])
  {
    ItemsAppend(slots, slot);
  }

  lemma {:induction false} AppendKeepsReaderOk<T>(q: Queue<T>, slot: Slot<T>, i: nat)
    requires Inv(q) && i < |q.readers|
    requires slot.Item? ==> !Finished(Current(q))
    ensures ReaderOk(Append(q, slot), i)
  {
    assert ReaderOk(q, i);
    var r := q.readers[i];
    var woken := if i in q.triggers then r.(triggered := true) else r;
    assert Append(q, slot).readers[i] == woken;
    WakeKeepsReader(r, q.gens[r.gen]);
    if r.gen == |q.gens| - 1 {
      assert r.Live() ==> woken.triggered;
      AppendKeepsReader(woken, Current(q), slot);
    }
  }

  lemma {:induction false} WakeKeepsReader<T>(r: Reader<T>, slots: seq<Slot<T>>)
    requires ReaderInv(r, slots)
    ensures ReaderInv(r.(triggered := true), slots)
  {}

  lemma {:induction false} AppendKeepsInv<T>(q: Queue<T>, slot: Slot<T>)
    requires Inv(q)
    requires slot.Item? ==> !Finished(Current(q))
    ensures Inv(Append(q, slot))
    ensures slot.End? ==> Finished(Current(Append(q, slot)))
  {
    ItemsAppend(Current(q), slot);
    forall i | 0 <= i < |q.readers| ensures ReaderOk(Append(q, slot), i) {
      AppendKeepsReaderOk(q, slot, i);
    }
  }

  lemma {:induction false} ForLoopKeepsReader<T>(r: Reader<T>, slots: seq<Slot<T>>, next: nat, end: nat)
    requires Shaped(slots)
    requires r.start <= r.position <= next < end <= |slots|
    requires next <= |Items(slots)| && r.yielded == Slice(Items(slots), r.start, next)
    requires !r.triggered ==> end == |slots|
    ensures ReaderInv(ForLoop(r, slots, next, end), slots)
  {}

  lemma {:induction false} LoopTopKeepsReader<T>(r: Reader<T>, slots: seq<Slot<T>>)
    requires Shaped(slots)
    requires r.start <= r.position
    requires r.position <= |Items(slots)| ==> r.yielded == Slice(Items(slots), r.start, r.position)
    requires r.position > |Items(slots)| ==> r.position == r.start && r.yielded == []
    ensures ReaderInv(LoopTop(r, slots), slots)
  {}

  /** Running an iterator keeps its invariant. */
  lemma {:induction false} AdvanceKeepsReader<T>(r: Reader<T>, slots: seq<Slot<T>>)
    requires Shaped(slots) && ReaderInv(r, slots)
    ensures ReaderInv(Advance(r, slots), slots)
  {
    match r.pc
    case NotStarted => LoopTopKeepsReader(r, slots);
    case Yielded(next, end) =>
      if next < end {
        ForLoopKeepsReader(r, slots, next, end);
      } else if r.triggered {
        LoopTopKeepsReader(r.(position := end), slots);
      }
    case Waiting => if r.triggered { LoopTopKeepsReader(r, slots); }
    case _ =>
  }

  lemma {:induction false} ClearKeepsInv<T>(q: Queue<T>)
    requires Inv(q)
    ensures Inv(Apply(q, Clear))
  {
    if !Finished(Current(q)) {
      AppendKeepsInv(q, End);
    }
    var ended := if Finished(Current(q)) then q else Append(q, End);
    var q' := Apply(q, Clear);
    forall i | 0 <= i < |q'.readers|
      ensures ReaderOk(q', i)
    {
      assert ReaderOk(ended, i);
    }
  }

  /** A change to one reader's record and, if it stops, to the registrations. */
  lemma {:induction false} UpdateKeepsInv<T>(q: Queue<T>, id: nat, r: Reader<T>, triggers: seq<nat>)
    requires Inv(q) && id < |q.readers|
    requires r.gen == q.readers[id].gen < |q.gens| && ReaderInv(r, q.gens[r.gen])
    requires r.Live() ==> q.readers[id].Live()
    requires triggers == q.triggers || (triggers == Without(q.triggers, id) && !r.Live())
    ensures Inv(q.(readers := q.readers[id := r], triggers := triggers))
  {
    var q' := q.(readers := q.readers[id := r], triggers := triggers);
    forall i | 0 <= i < |q'.readers|
      ensures ReaderOk(q', i)
    {
      assert ReaderOk(q, i);
    }
  }

  /** A stopped iterator has delivered a first part of what it was to deliver. */
  lemma {:induction false} StopKeepsReader<T>(r: Reader<T>, slots: seq<Slot<T>>, pc: Pc)
    requires ReaderInv(r, slots) && r.Live()
    requires pc == TimedOut || pc == Abandoned
    ensures ReaderInv(r.(pc := pc), slots)
  {}

  lemma {:induction false} ResumeKeepsInv<T>(q: Queue<T>, id: nat)
    requires Inv(q)
    ensures Inv(ResumeStep(q, id))
  {
    if id < |q.readers| && q.readers[id].Live() {
      assert ReaderOk(q, id);
      var r := Advance(q.readers[id], q.gens[q.readers[id].gen]);
      AdvanceKeepsReader(q.readers[id], q.gens[q.readers[id].gen]);
      if r.pc.Returned? {
        UpdateKeepsInv(q, id, r, Without(q.triggers, id));
      } else {
        UpdateKeepsInv(q, id, r, q.triggers);
      }
    }
  }

  lemma {:induction false} ApplyKeepsInv<T>(q: Queue<T>, a: Action<T>)
    requires Inv(q)
    ensures Inv(Apply(q, a))
  {
    match a
    case Put(x) => if !Finished(Current(q)) { AppendKeepsInv(q, Item(x)); }
    case Close => AppendKeepsInv(q, End);
    case Clear => ClearKeepsInv(q);
    case Attach(start) => AttachKeepsInv(q, start);
    case Resume(id) => ResumeKeepsInv(q, id);
    case TimeOut(id) =>
      if id < |q.readers| && q.readers[id].pc.Waiting? {
        assert ReaderOk(q, id);
        StopKeepsReader(q.readers[id], q.gens[q.readers[id].gen], TimedOut);
        UpdateKeepsInv(q, id, q.readers[id].(pc := TimedOut), Without(q.triggers, id));
      }
    case Abandon(id) =>
      if id < |q.readers| && q.readers[id].Live() {
        assert ReaderOk(q, id);
        StopKeepsReader(q.readers[id], q.gens[q.readers[id].gen], Abandoned);
        var r := q.readers[id].(pc := Abandoned);
        UpdateKeepsInv(q, id, r, if q.readers[id].pc.NotStarted? then q.triggers else Without(q.triggers, id));
      }
  }

  lemma {:induction false} AttachKeepsInv<T>(q: Queue<T>, start: nat)
    requires Inv(q)
    ensures Inv(Apply(q, Attach(start)))
  {
    var q' := Apply(q, Attach(start));
    forall i | 0 <= i < |q'.readers|
      ensures ReaderOk(q', i)
    {
      if i < |q.readers| {
        assert ReaderOk(q, i);
      }
    }
  }

  lemma {:induction false} RunKeepsInv<T>(q: Queue<T>, actions: seq<Action<T>>)
    requires Inv(q)
    ensures Inv(Run(q, actions))
    decreases |actions|
  {
    if actions != [] {
      ApplyKeepsInv(q, actions[0]);
      RunKeepsInv(Apply(q, actions[0]), actions[1..]);
    }
  }

  // ---- The reference: what the writers did, with no iterators at all

  /** For each `clear` so far one finished list of items, then the current list, and
    how often `close` was called since the last `clear`. */
  datatype Log<+T> = Log(gens: seq<seq<T>>, closes: nat)

  function LogInit<T>(): Log<T> { Log([[]], 0) }

  function LogApply<T>(log: Log<T>, a: Action<T>): Log<T>
    requires log.gens != []
  {
    var last := |log.gens| - 1;
    match a
    case Put(x) => if log.closes > 0 then log else log.(gens := log.gens[last := log.gens[last] + [x]])
    case Close => log.(closes := log.closes + 1)
    case Clear => Log(log.gens + [[]], 0)
    case _ => log
  }

  function LogRun<T>(log: Log<T>, actions: seq<Action<T>>): (log': Log<T>)
    requires log.gens != []
    ensures log'.gens != []
    decreases |actions|
  {
    if actions == [] then log else LogRun(LogApply(log, actions[0]), actions[1..])
  }

  /** The queue holds exactly what the log says. */
  ghost predicate Agrees<T>(q: Queue<T>, log: Log<T>) {
    && q.gens != []
    && |q.gens| == |log.gens|
    && (forall g :: 0 <= g < |q.gens| ==> Items(q.gens[g]) == log.gens[g])
    && |Current(q)| == |log.gens[|log.gens| - 1]| + log.closes
  }

  lemma {:induction false} FinishedIsClosed<T>(q: Queue<T>, log: Log<T>)
    requires Inv(q) && Agrees(q, log)
    ensures Finished(Current(q)) <==> log.closes > 0
  {}

  /** A new current list agrees with a log of its items, and of the placeholders behind them. */
  lemma {:induction false} AgreesLast<T>(q: Queue<T>, q': Queue<T>, log: Log<T>, slots: seq<Slot<T>>, closes: nat)
    requires Agrees(q, log) && q'.gens == q.gens[|q.gens| - 1 := slots]
    requires |slots| == |Items(slots)| + closes
    ensures Agrees(q', Log(log.gens[|log.gens| - 1 := Items(slots)], closes))
  {
    forall g | 0 <= g < |q'.gens| ensures Items(q'.gens[g]) == log.gens[|log.gens| - 1 := Items(slots)][g] {
      assert Items(q.gens[g]) == log.gens[g];
    }
  }

  lemma {:induction false} AgreesPut<T>(q: Queue<T>, log: Log<T>, x: T)
    requires Inv(q) && Agrees(q, log) && !Finished(Current(q))
    ensures Agrees(Append(q, Item(x)), LogApply(log, Put(x)))
  {
    ItemsAppend(Current(q), Item(x));
    FinishedIsClosed(q, log);
    assert Items(Current(q)) == log.gens[|log.gens| - 1];
    AgreesLast(q, Append(q, Item(x)), log, Current(q) + [Item(x)], 0);
  }

  lemma {:induction false} AgreesClose<T>(q: Queue<T>, log: Log<T>)
    requires Inv(q) && Agrees(q, log)
    ensures Agrees(Append(q, End), LogApply(log, Close))
  {
    var q' := Append(q, End);
    ItemsAppend(Current(q), End);
    forall g | 0 <= g < |q'.gens| ensures Items(q'.gens[g]) == log.gens[g] {
      assert Items(q.gens[g]) == log.gens[g];
    }
  }

  lemma {:induction false} AgreesApply<T>(q: Queue<T>, log: Log<T>, a: Action<T>)
    requires Inv(q) && Agrees(q, log)
    ensures Agrees(Apply(q, a), LogApply(log, a))
  {
    FinishedIsClosed(q, log);
    match a
    case Put(x) => if !Finished(Current(q)) { AgreesPut(q, log, x); }
    case Close => AgreesClose(q, log);
    case Clear => AgreesClear(q, log);
    case _ => ReadersDoNotWrite(q, a);
  }

  lemma {:induction false} ReadersDoNotWrite<T>(q: Queue<T>, a: Action<T>)
    requires q.gens != [] && !a.Put? && !a.Close? && !a.Clear?
    ensures Apply(q, a).gens == q.gens
  {}

  lemma {:induction false} AgreesClear<T>(q: Queue<T>, log: Log<T>)
    requires Inv(q) && Agrees(q, log)
    ensures Agrees(ClearStep(q), LogApply(log, Clear))
  {
    if !Finished(Current(q)) {
      AgreesClose(q, log);
    }
  }

  lemma {:induction false} AgreesRun<T>(q: Queue<T>, log: Log<T>, actions: seq<Action<T>>)
    requires Inv(q) && Agrees(q, log)
    ensures Agrees(Run(q, actions), LogRun(log, actions))
    decreases |actions|
  {
    if actions != [] {
      ApplyKeepsInv(q, actions[0]);
      AgreesApply(q, log, actions[0]);
      AgreesRun(Apply(q, actions[0]), LogApply(log, actions[0]), actions[1..]);
    }
  }

  /** Every state that the queue can reach from its constructor. */
  lemma {:induction false} Reachable<T>(actions: seq<Action<T>>)
    ensures Inv(Run(Init(), actions)) && Agrees(Run(Init(), actions), LogRun(LogInit(), actions))
  {
    RunKeepsInv(Init<T>(), actions);
    AgreesRun(Init<T>(), LogInit<T>(), actions);
  }

  /** `qsize` counts the current items, and every `close` after the first as one more. */
  lemma {:induction false} QSizeCounts<T>(actions: seq<Action<T>>)
    ensures var log := LogRun(LogInit(), actions);
            var size := QSize(Current(Run(Init(), actions)));
            var items := |log.gens[|log.gens| - 1]|;
            && size == items + (if log.closes > 0 then log.closes - 1 else 0)
            && (size == items <==> log.closes <= 1)
  {
    Reachable(actions);
  }

  // ---- Delivery

  function Clears<T>(actions: seq<Action<T>>): nat {
    if actions == [] then 0 else (if actions[0].Clear? then 1 else 0) + Clears(actions[1..])
  }

  function Attaches<T>(actions: seq<Action<T>>): nat {
    if actions == [] then 0 else (if actions[0].Attach? then 1 else 0) + Attaches(actions[1..])
  }

  lemma {:induction false} ApplyCounts<T>(q: Queue<T>, a: Action<T>)
    requires q.gens != []
    ensures |Apply(q, a).gens| == |q.gens| + (if a.Clear? then 1 else 0)
    ensures |Apply(q, a).readers| == |q.readers| + (if a.Attach? then 1 else 0)
  {}

  lemma {:induction false} ApplyKeepsReader<T>(q: Queue<T>, a: Action<T>, i: nat)
    requires q.gens != [] && i < |q.readers|
    ensures var q' := Apply(q, a);
            i < |q'.readers| && q'.readers[i].gen == q.readers[i].gen && q'.readers[i].start == q.readers[i].start
  {}

  lemma {:induction false} RunCounts<T>(q: Queue<T>, actions: seq<Action<T>>)
    requires q.gens != []
    ensures |Run(q, actions).gens| == |q.gens| + Clears(actions)
    ensures |Run(q, actions).readers| == |q.readers| + Attaches(actions)
    decreases |actions|
  {
    if actions != [] {
      ApplyCounts(q, actions[0]);
      RunCounts(Apply(q, actions[0]), actions[1..]);
    }
  }

  lemma {:induction false} RunKeepsReader<T>(q: Queue<T>, actions: seq<Action<T>>, i: nat)
    requires q.gens != [] && i < |q.readers|
    ensures var q' := Run(q, actions);
            i < |q'.readers| && q'.readers[i].gen == q.readers[i].gen && q'.readers[i].start == q.readers[i].start
    decreases |actions|
  {
    if actions != [] {
      ApplyKeepsReader(q, actions[0], i);
      RunKeepsReader(Apply(q, actions[0]), actions[1..], i);
    }
  }

  lemma {:induction false} RunConcat<T>(q: Queue<T>, first: seq<Action<T>>, rest: seq<Action<T>>)
    requires q.gens != []
    ensures Run(q, first + rest) == Run(Run(q, first), rest)
    decreases |first|
  {
    if first == [] {
      assert first + rest == rest;
    } else {
      assert (first + rest)[1..] == first[1..] + rest;
      RunConcat(Apply(q, first[0]), first[1..], rest);
    }
  }

  /** Whatever the interleaving, an iterator has yielded a first part of the items of
    the list it attached to, from its start position, and when it ends by itself, all
    of them; that list is closed or has been cleared by then. */
  lemma {:induction false} DeliversItsGeneration<T>(before: seq<Action<T>>, start: nat, after: seq<Action<T>>)
    ensures var all := before + [Attach(start)] + after;
            var q := Run(Init(), all);
            var log := LogRun(LogInit(), all);
            var g := Clears(before);
            && Attaches(before) < |q.readers| && g < |log.gens|
            && var r := q.readers[Attaches(before)];
            && r.yielded <= From(log.gens[g], start)
            && (r.pc.Returned? ==> r.yielded == From(log.gens[g], start) && (g < |log.gens| - 1 || log.closes > 0))
  {
    var all := before + [Attach(start)] + after;
    AttachedReader(before, start, after);
    Reachable(all);
    var q := Run(Init(), all);
    var log := LogRun(LogInit(), all);
    var r := q.readers[Attaches(before)];
    assert ReaderOk(q, Attaches(before));
    var items := Items(q.gens[r.gen]);
    assert items == log.gens[r.gen];
    PrefixOfItsList(r, q.gens[r.gen]);
    FinishedIsClosed(q, log);
  }

  lemma {:induction false} PrefixOfItsList<T>(r: Reader<T>, slots: seq<Slot<T>>)
    requires ReaderInv(r, slots)
    ensures r.yielded <= From(Items(slots), r.start)
    ensures r.pc.Returned? ==> r.yielded == From(Items(slots), r.start) && Finished(slots)
  {}

  lemma {:induction false} AttachedReader<T>(before: seq<Action<T>>, start: nat, after: seq<Action<T>>)
    ensures var q := Run(Init(), before + [Attach(start)] + after);
            && Attaches(before) < |q.readers|
            && Clears(before) < |q.gens|
            && q.readers[Attaches(before)].gen == Clears(before)
            && q.readers[Attaches(before)].start == start
  {
    var q0 := Run(Init(), before);
    var q1 := Apply(q0, Attach(start));
    RunCounts(Init<T>(), before);
    RunConcat(Init<T>(), before + [Attach(start)], after);
    RunConcat(Init<T>(), before, [Attach(start)]);
    assert Run(q0, [Attach(start)]) == q1;
    RunCounts(q1, after);
    RunKeepsReader(q1, after, Attaches(before));
  }

  /** A finished list may get more placeholders, but no more items. */
  lemma {:induction false} FinishedIsFinal<T>(q: Queue<T>, g: nat, a: Action<T>)
    requires Inv(q) && g < |q.gens| && Finished(q.gens[g])
    ensures var q' := Apply(q, a);
            g < |q'.gens| && Finished(q'.gens[g]) && Items(q'.gens[g]) == Items(q.gens[g])
  {
    match a
    case Put(x) => if !Finished(Current(q)) { AppendKeepsFinished(q, g, Item(x)); }
    case Close => AppendKeepsFinished(q, g, End);
    case Clear => if !Finished(Current(q)) { AppendKeepsFinished(q, g, End); }
    case _ => ReadersDoNotWrite(q, a);
  }

  lemma {:induction false} AppendKeepsFinished<T>(q: Queue<T>, g: nat, slot: Slot<T>)
    requires Inv(q) && g < |q.gens| && Finished(q.gens[g])
    requires slot.Item? ==> !Finished(Current(q))
    ensures var q' := Append(q, slot);
            |q'.gens| == |q.gens| && Finished(q'.gens[g]) && Items(q'.gens[g]) == Items(q.gens[g])
  {
    ItemsAppend(Current(q), slot);
  }

  /** Nothing put after a clear ever becomes part of an earlier list: its items stay what
    they were, whatever writers and readers do, and it stays finished. */
  lemma {:induction false} ClearedIsFrozen<T>(q: Queue<T>, actions: seq<Action<T>>, g: nat)
    requires Inv(q) && g < |q.gens| - 1
    ensures var q' := Run(q, actions);
            g < |q'.gens| - 1 && Finished(q'.gens[g]) && Items(q'.gens[g]) == Items(q.gens[g])
    decreases |actions|
  {
    if actions != [] {
      var q' := Apply(q, actions[0]);
      FinishedIsFinal(q, g, actions[0]);
      ApplyCounts(q, actions[0]);
      ApplyKeepsInv(q, actions[0]);
      ClearedIsFrozen(q', actions[1..], g);
    }
  }

  /** No lost wakeup. An iterator that waits on an unset trigger has yielded all there
    is, more can still come, and it is registered: whatever a writer does next wakes it. */
  lemma {:induction false} NoLostWakeup<T>(actions: seq<Action<T>>, id: nat, writer: Action<T>)
    requires id < |Run(Init(), actions).readers|
    requires Run(Init(), actions).readers[id].pc.Waiting? && !Run(Init(), actions).readers[id].triggered
    requires writer.Put? || writer.Close? || writer.Clear?
    ensures var q := Run(Init(), actions);
            var log := LogRun(LogInit(), actions);
            var r := q.readers[id];
            && r.gen == |log.gens| - 1
            && log.closes == 0
            && r.yielded == From(log.gens[r.gen], r.start)
            && id in q.triggers
            && Apply(q, writer).readers[id].triggered
  {
    Reachable(actions);
    var q := Run(Init(), actions);
    assert ReaderOk(q, id);
    assert !Finished(q.gens[q.readers[id].gen]);
  }

  // ---- Ending

  function Resumes<T>(actions: seq<Action<T>>, id: nat): nat {
    if actions == [] then 0 else (if actions[0] == Resume(id) then 1 else 0) + Resumes(actions[1..], id)
  }

  /** How many items the iterator still has to yield. */
  function Remaining<T>(q: Queue<T>, id: nat): int
    requires id < |q.readers| && q.readers[id].gen < |q.gens|
  {
    |From(Items(q.gens[q.readers[id].gen]), q.readers[id].start)| - |q.readers[id].yielded|
  }

  ghost predicate Ending<T>(q: Queue<T>, id: nat) {
    && Inv(q)
    && id < |q.readers|
    && q.readers[id].Live()
    && q.readers[id].gen < |q.gens|
    && Finished(q.gens[q.readers[id].gen])
  }

  lemma {:induction false} EndingAdvance<T>(r: Reader<T>, slots: seq<Slot<T>>)
    requires Shaped(slots) && ReaderInv(r, slots) && r.Live() && Finished(slots)
    ensures var r' := Advance(r, slots);
            if |From(Items(slots), r.start)| <= |r.yielded| then r'.pc.Returned?
            else r'.Live() && |r'.yielded| == |r.yielded| + 1
  {}

  lemma {:induction false} EndingResume<T>(q: Queue<T>, id: nat)
    requires Ending(q, id)
    ensures var q' := ResumeStep(q, id);
            if Remaining(q, id) <= 0 then q'.readers[id].pc.Returned?
            else Ending(q', id) && Remaining(q', id) == Remaining(q, id) - 1
  {
    ResumeKeepsInv(q, id);
    assert ReaderOk(q, id);
    EndingAdvance(q.readers[id], q.gens[q.readers[id].gen]);
    AdvanceKeepsName(q.readers[id], q.gens[q.readers[id].gen]);
  }

  lemma {:induction false} AdvanceKeepsName<T>(r: Reader<T>, slots: seq<Slot<T>>)
    ensures Advance(r, slots).gen == r.gen && Advance(r, slots).start == r.start
  {}

  /** What others do changes no more of an iterator than its trigger. */
  lemma {:induction false} OthersOnlyWake<T>(q: Queue<T>, id: nat, a: Action<T>)
    requires q.gens != [] && id < |q.readers|
    requires a != Resume(id) && a != TimeOut(id) && a != Abandon(id)
    ensures var q' := Apply(q, a);
            id < |q'.readers| && q'.readers[id].(triggered := true) == q.readers[id].(triggered := true)
  {}

  lemma {:induction false} EndingOther<T>(q: Queue<T>, id: nat, a: Action<T>)
    requires Ending(q, id)
    requires a != Resume(id) && a != TimeOut(id) && a != Abandon(id)
    ensures Ending(Apply(q, a), id)
    ensures Remaining(Apply(q, a), id) == Remaining(q, id)
  {
    ApplyKeepsInv(q, a);
    FinishedIsFinal(q, q.readers[id].gen, a);
    OthersOnlyWake(q, id, a);
    SameReader(q.readers[id], Apply(q, a).readers[id]);
  }

  lemma {:induction false} SameReader<T>(r: Reader<T>, s: Reader<T>)
    requires r.(triggered := true) == s.(triggered := true)
    ensures r.gen == s.gen && r.start == s.start && r.pc == s.pc && r.yielded == s.yielded
  {}

  lemma {:induction false} StoppedStays<T>(q: Queue<T>, id: nat, more: seq<Action<T>>)
    requires q.gens != [] && id < |q.readers| && !q.readers[id].Live()
    ensures id < |Run(q, more).readers| && Run(q, more).readers[id].pc == q.readers[id].pc
    decreases |more|
  {
    if more != [] {
      StoppedStays(Apply(q, more[0]), id, more[1..]);
    }
  }

  /** Once the list is closed or cleared, an iterator that is not given up yields one
    remaining item each time it runs, and ends on the run after the last. */
  lemma {:induction false} ReturnsWhenFinished<T>(q: Queue<T>, id: nat, more: seq<Action<T>>)
    requires Ending(q, id)
    requires TimeOut(id) !in more && Abandon(id) !in more
    ensures Remaining(q, id) >= 0 && id < |Run(q, more).readers|
    ensures Resumes(more, id) > Remaining(q, id) <==> Run(q, more).readers[id].pc.Returned?
    ensures Resumes(more, id) <= Remaining(q, id) ==>
              Ending(Run(q, more), id) && Remaining(Run(q, more), id) == Remaining(q, id) - Resumes(more, id)
    decreases |more|
  {
    assert ReaderOk(q, id);
    if more != [] {
      var a, rest := more[0], more[1..];
      var q' := Apply(q, a);
      if a == Resume(id) {
        EndingResume(q, id);
        if Remaining(q, id) == 0 {
          StoppedStays(q', id, rest);
        } else {
          ReturnsWhenFinished(q', id, rest);
        }
      } else {
        EndingOther(q, id, a);
        ReturnsWhenFinished(q', id, rest);
      }
    }
  }
}
