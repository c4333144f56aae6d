/** What the iterators of the multiple reader, multiple writer queue get done, and who is
  registered for the next item. */
module MultiQueueProgress {
  import opened MultiQueueModel

  // ---- Progress

  /** The items that the iterator is to deliver as far as its list goes now. */
  function Due<T>(q: Queue<T>, id: nat): seq<T>
    requires id < |q.readers| && q.readers[id].gen < |q.gens|
  {
    From(Items(q.gens[q.readers[id].gen]), q.readers[id].start)
  }

  /** Whether its list is open or not, an iterator that has not stopped yields the next item
    due whenever it runs. When there is none it yields nothing; it ends if the list is
    finished, and waits otherwise. */
  lemma {:induction false} YieldsNextItem<T>(q: Queue<T>, id: nat)
    requires Inv(q) && id < |q.readers| && q.readers[id].Live()
    ensures q.readers[id].gen < |q.gens| && q.readers[id].yielded <= Due(q, id)
    ensures var r, r' := q.readers[id], ResumeStep(q, id).readers[id];
            var due := Due(q, id);
            if |r.yielded| < |due| then r'.yielded == r.yielded + [due[|r.yielded|]] && r'.pc.Yielded?
            else r'.yielded == r.yielded && if Finished(q.gens[r.gen]) then r'.pc.Returned? else r'.pc.Waiting?
  {
    assert ReaderOk(q, id);
  }

  /** A list only grows. */
  lemma {:induction false} ListGrows<T>(q: Queue<T>, a: Action<T>, g: nat)
    requires Inv(q) && g < |q.gens|
    ensures g < |Apply(q, a).gens| && Items(q.gens[g]) <= Items(Apply(q, a).gens[g])
  {
    if Finished(q.gens[g]) {
      FinishedIsFinal(q, g, a);
    } else {
      match a
      case Put(x) => ItemsAppend(q.gens[g], Item(x));
      case Close => ItemsAppend(q.gens[g], End);
      case Clear => ItemsAppend(q.gens[g], End);
      case _ => ReadersDoNotWrite(q, a);
    }
  }

  lemma {:induction false} DueGrows<T>(q: Queue<T>, a: Action<T>, id: nat)
    requires Inv(q) && id < |q.readers| && q.readers[id].gen < |q.gens|
    ensures var q' := Apply(q, a);
            && id < |q'.readers| && q'.readers[id].gen < |q'.gens|
            && Due(q, id) <= Due(q', id)
  {
    ApplyKeepsReader(q, a, id);
    ListGrows(q, a, q.readers[id].gen);
  }

  /** An iterator that was neither timed out nor abandoned. */
  predicate Kept<T>(r: Reader<T>) { !r.pc.TimedOut? && !r.pc.Abandoned? }

  lemma {:induction false} KeptStep<T>(q: Queue<T>, id: nat, a: Action<T>)
    requires Inv(q) && id < |q.readers| && Kept(q.readers[id]) && a != TimeOut(id) && a != Abandon(id)
    requires q.readers[id].gen < |q.gens|
    ensures var q' := Apply(q, a);
            && id < |q'.readers| && Kept(q'.readers[id])
            && (a != Resume(id) ==> |q'.readers[id].yielded| >= |q.readers[id].yielded|)
            && (a == Resume(id) ==>
                  |q'.readers[id].yielded| >= |q.readers[id].yielded| + 1 ||
                  |q'.readers[id].yielded| >= |Due(q, id)|)
  {
    if a == Resume(id) {
      assert ReaderOk(q, id);
      if q.readers[id].Live() {
        YieldsNextItem(q, id);
      }
    } else {
      OthersOnlyWake(q, id, a);
      SameReader(q.readers[id], Apply(q, a).readers[id]);
    }
  }

  /** In every interleaving, n runs of an iterator have delivered at least the next n of the
    items that were due in the beginning, if there were as many, whatever is put meanwhile. */
  lemma {:induction false} RunsDeliver<T>(q: Queue<T>, id: nat, more: seq<Action<T>>)
    requires Inv(q) && id < |q.readers| && Kept(q.readers[id]) && q.readers[id].gen < |q.gens|
    requires TimeOut(id) !in more && Abandon(id) !in more
    ensures var q' := Run(q, more);
            && id < |q'.readers| && q'.readers[id].gen < |q'.gens|
            && Due(q, id) <= Due(q', id) && q'.readers[id].yielded <= Due(q', id)
            && (|q'.readers[id].yielded| >= |q.readers[id].yielded| + Resumes(more, id) ||
                |q'.readers[id].yielded| >= |Due(q, id)|)
    decreases |more|
  {
    if more == [] {
      assert ReaderOk(q, id);
      PrefixOfItsList(q.readers[id], q.gens[q.readers[id].gen]);
    } else {
      var a, rest := more[0], more[1..];
      ApplyKeepsInv(q, a);
      KeptStep(q, id, a);
      DueGrows(q, a, id);
      RunsDeliver(Apply(q, a), id, rest);
    }
  }

  // ---- Registration

  ghost predicate Once(ids: seq<nat>) {
    forall a, b :: 0 <= a < b < |ids| ==> ids[a] != ids[b]
  }

  /** Only iterators of the current list are registered, each once, and none that has ended
    or timed out. */
  ghost predicate Registered<T>(q: Queue<T>) {
    && Once(q.triggers)
    && forall id :: id in q.triggers ==>
                      && id < |q.readers| && q.readers[id].gen == |q.gens| - 1
                      && (q.readers[id].Live() || q.readers[id].pc.Abandoned?)
  }

  lemma {:induction false} OneMore(ids: seq<nat>, id: nat)
    requires Once(ids) && id !in ids
    ensures Once(ids + [id]) && Once([id] + ids)
  {}

  lemma {:induction false} WithoutOnce(ids: seq<nat>, id: nat)
    requires Once(ids)
    ensures Once(Without(ids, id))
  {
    if ids != [] {
      assert forall a :: 0 <= a < |ids| - 1 ==> ids[1..][a] == ids[a + 1];
      WithoutOnce(ids[1..], id);
      assert ids[0] !in Without(ids[1..], id);
      OneMore(Without(ids[1..], id), ids[0]);
    }
  }

  /** Nothing but an iterator's own actions stops it. */
  lemma {:induction false} OthersKeepRegistered<T>(q: Queue<T>, a: Action<T>, id: nat)
    requires q.gens != [] && Registered(q) && !a.Clear? && id in q.triggers
    requires a != Resume(id) && a != TimeOut(id) && a != Abandon(id)
    ensures var q' := Apply(q, a);
            && id < |q'.readers| && q'.readers[id].gen == |q'.gens| - 1
            && (q'.readers[id].Live() || q'.readers[id].pc.Abandoned?)
  {
    ApplyCounts(q, a);
    OthersOnlyWake(q, id, a);
    SameReader(q.readers[id], Apply(q, a).readers[id]);
  }

  /** An iterator that acts itself is registered afterwards only if it has not ended. */
  lemma {:induction false} OwnKeepsRegistered<T>(q: Queue<T>, a: Action<T>, id: nat)
    requires q.gens != [] && Registered(q) && id in q.triggers
    requires a == Resume(id) || a == TimeOut(id) || a == Abandon(id)
    ensures var q' := Apply(q, a);
            && id < |q'.readers| && q'.readers[id].gen == |q'.gens| - 1
            && (id in q'.triggers ==> q'.readers[id].Live() || q'.readers[id].pc.Abandoned?)
  {}

  /** Who is registered after an action. */
  lemma {:induction false} TriggersAfter<T>(q: Queue<T>, a: Action<T>)
    requires q.gens != [] && Registered(q)
    ensures var triggers := Apply(q, a).triggers;
            && Once(triggers)
            && (forall id :: id in triggers ==> id in q.triggers || (a.Attach? && id == |q.readers|))
            && (a.Clear? ==> triggers == [])
            && (a.Attach? ==> triggers == q.triggers + [|q.readers|])
  {
    match a
    case Resume(id) => WithoutOnce(q.triggers, id);
    case TimeOut(id) => WithoutOnce(q.triggers, id);
    case Abandon(id) => WithoutOnce(q.triggers, id);
    case Attach(_) => OneMore(q.triggers, |q.readers|);
    case _ =>
  }

  lemma {:induction false} ApplyKeepsRegistered<T>(q: Queue<T>, a: Action<T>)
    requires q.gens != [] && Registered(q)
    ensures Registered(Apply(q, a))
  {
    var q' := Apply(q, a);
    TriggersAfter(q, a);
    forall id | id in q'.triggers
      ensures && id < |q'.readers| && q'.readers[id].gen == |q'.gens| - 1
              && (q'.readers[id].Live() || q'.readers[id].pc.Abandoned?)
    {
      if a == Resume(id) || a == TimeOut(id) || a == Abandon(id) {
        OwnKeepsRegistered(q, a, id);
      } else if id in q.triggers {
        OthersKeepRegistered(q, a, id);
      }
    }
  }

  /** In every interleaving. */
  lemma {:induction false} RunKeepsRegistered<T>(q: Queue<T>, actions: seq<Action<T>>)
    requires q.gens != [] && Registered(q)
    ensures Registered(Run(q, actions))
    decreases |actions|
  {
    if actions != [] {
      ApplyKeepsRegistered(q, actions[0]);
      RunKeepsRegistered(Apply(q, actions[0]), actions[1..]);
    }
  }

  /** An iterator that is given up, by the clock while it waits or by its caller at any time,
    never yields again. It is not registered any more, except that a generator that has
    never run stays registered when its caller closes it. */
  lemma {:induction false} GivenUp<T>(q: Queue<T>, id: nat, a: Action<T>, more: seq<Action<T>>)
    requires q.gens != [] && id < |q.readers|
    requires (a == TimeOut(id) && q.readers[id].pc.Waiting?) || (a == Abandon(id) && q.readers[id].Live())
    ensures var q', over := Apply(q, a), Run(Apply(q, a), more);
            && id < |over.readers| && over.readers[id].yielded == q.readers[id].yielded
            && over.readers[id].pc == (if a.TimeOut? then TimedOut else Abandoned)
            && (id in q'.triggers <==> id in q.triggers && q.readers[id].pc.NotStarted?)
            && (forall other :: other != id ==> (other in q'.triggers <==> other in q.triggers))
  {
    StoppedStays(Apply(q, a), id, more);
    StoppedYieldsNothing(Apply(q, a), id, more);
  }

  lemma {:induction false} StoppedYieldsNothing<T>(q: Queue<T>, id: nat, more: seq<Action<T>>)
    requires q.gens != [] && id < |q.readers| && !q.readers[id].Live()
    ensures id < |Run(q, more).readers| && Run(q, more).readers[id].yielded == q.readers[id].yielded
    decreases |more|
  {
    if more != [] {
      StoppedYieldsNothing(Apply(q, more[0]), id, more[1..]);
    }
  }
}
