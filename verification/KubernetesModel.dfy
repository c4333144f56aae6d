/** The Kubernetes mock on values: an object store beside append-only event streams. */
module KubernetesModel {
  import opened Wrappers

  /** Where an object is stored within its namespace. Only namespaces themselves are
    stored under the first; custom objects have their API path as the name. */
  datatype Key = NamespaceKey | Kind(name: string)

  /** Metadata that the mock looks at, and the rest. */
  datatype Object = Object(labels: map<string, string>, version: nat, body: string)

  datatype EventType = Added | Modified | Deleted

  datatype Event = Event(kind: EventType, name: string, obj: Object)

  datatype Status = Ok | NotFound | Conflict | AssertionFailed | TypeFailed

  datatype Cluster = Cluster(
    objects: map<string, map<Key, map<string, Object>>>,
    streams: map<(string, Key), seq<Event>>,
    namespaceStream: seq<Event>)

  function Empty(): Cluster { Cluster(map[], map[], []) }

  function Objects(c: Cluster, ns: string, key: Key): map<string, Object> {
    if ns in c.objects && key in c.objects[ns] then c.objects[ns][key] else map[]
  }

  function Stream(c: Cluster, ns: string, key: Key): seq<Event> {
    if key.NamespaceKey? then c.namespaceStream
    else if (ns, key) in c.streams then c.streams[(ns, key)] else []
  }

  // ---- Primitive updates

  function SetObjects(c: Cluster, ns: string, key: Key, objects: map<string, Object>): Cluster {
    var kinds := if ns in c.objects then c.objects[ns] else map[];
    c.(objects := c.objects[ns := kinds[key := objects]])
  }

  function Emit(c: Cluster, ns: string, key: Key, e: Event): Cluster {
    if key.NamespaceKey? then c.(namespaceStream := c.namespaceStream + [e])
    else c.(streams := c.streams[(ns, key) := Stream(c, ns, key) + [e]])
  }

  // ---- Operations; a failure changes nothing

  /** `_store_object` */
  function Store(c: Cluster, ns: string, key: Key, name: string, obj: Object, replace: bool): (Cluster, Status) {
    var present := name in Objects(c, ns, key);
    if replace && !present then (c, NotFound)
    else if !replace && present then (c, Conflict)
    else
      var stored := obj.(version := |Stream(c, ns, key)| + 1);
      var c' := SetObjects(c, ns, key, Objects(c, ns, key)[name := stored]);
      (Emit(c', ns, key, Event(if replace then Modified else Added, name, stored)), Ok)
  }

  /** `_delete_object` */
  function Delete(c: Cluster, ns: string, key: Key, name: string, policyOk: bool): (Cluster, Status) {
    var objects := Objects(c, ns, key);
    if !policyOk then (c, AssertionFailed)
    else if name !in objects then (c, NotFound)
    else (Emit(SetObjects(c, ns, key, objects - {name}), ns, key, Event(Deleted, name, objects[name])), Ok)
  }

  /** A namespace that was created implicitly cannot be created any more. */
  function CreateNamespace(c: Cluster, name: string, obj: Object): (Cluster, Status) {
    if name in c.objects then (c, Conflict) else Store(c, name, NamespaceKey, name, obj, false)
  }

  /** Contained objects vanish without an event of their own. */
  function DeleteNamespace(c: Cluster, name: string): (Cluster, Status) {
    if name !in c.objects then (c, NotFound)
    else
      var own := Objects(c, name, NamespaceKey);
      var c' := if name in own then Emit(c, name, NamespaceKey, Event(Deleted, name, own[name])) else c;
      (c'.(objects := c'.objects - {name}), Ok)
  }

  /** When an operation fails, and that it then leaves everything alone. */
  lemma {:induction false} FailuresChangeNothing(
      c: Cluster, ns: string, key: Key, name: string, obj: Object, replace: bool, policyOk: bool)
    ensures var (c', status) := Store(c, ns, key, name, obj, replace);
            && (status == NotFound <==> replace && name !in Objects(c, ns, key))
            && (status == Conflict <==> !replace && name in Objects(c, ns, key))
            && (c' == c <==> status != Ok)
    ensures var (c', status) := Delete(c, ns, key, name, policyOk);
            && (status == NotFound <==> policyOk && name !in Objects(c, ns, key))
            && (c' == c <==> status != Ok)
    ensures var (c', status) := CreateNamespace(c, ns, obj);
            && (status == Conflict <==> ns in c.objects)
            && (c' == c <==> status != Ok)
    ensures var (c', status) := DeleteNamespace(c, ns);
            && (status == NotFound <==> ns !in c.objects)
            && (c' == c <==> status != Ok)
  {}

  // ---- Runs

  datatype Call =
    | CreateObject(ns: string, kind: string, name: string, obj: Object)
    | ReplaceObject(ns: string, kind: string, name: string, obj: Object)
    | DeleteObject(ns: string, kind: string, name: string, policyOk: bool)
    | NewNamespace(name: string, obj: Object)
    | DropNamespace(name: string)

  function Step(c: Cluster, call: Call): Cluster {
    match call
    case CreateObject(ns, kind, name, obj) => Store(c, ns, Kind(kind), name, obj, false).0
    case ReplaceObject(ns, kind, name, obj) => Store(c, ns, Kind(kind), name, obj, true).0
    case DeleteObject(ns, kind, name, policyOk) => Delete(c, ns, Kind(kind), name, policyOk).0
    case NewNamespace(name, obj) => CreateNamespace(c, name, obj).0
    case DropNamespace(name) => DeleteNamespace(c, name).0
  }

  function Run(c: Cluster, calls: seq<Call>): Cluster
    decreases |calls|
  {
    if calls == [] then c else Run(Step(c, calls[0]), calls[1..])
  }

  // ---- What a client reconstructs from events

  /** Versions by name. */
  function ApplyEvent(view: map<string, nat>, e: Event): map<string, nat> {
    if e.kind.Deleted? then view - {e.name} else view[e.name := e.obj.version]
  }

  function Replay(view: map<string, nat>, events: seq<Event>): map<string, nat> {
    if events == [] then view else ApplyEvent(Replay(view, events[..|events| - 1]), events[|events| - 1])
  }

  function Versions(objects: map<string, Object>): map<string, nat> {
    map name | name in objects :: objects[name].version
  }

  lemma {:induction false} ReplayMore(view: map<string, nat>, events: seq<Event>, e: Event)
    ensures Replay(view, events + [e]) == ApplyEvent(Replay(view, events), e)
  {}

  lemma {:induction false} ReplayConcat(view: map<string, nat>, a: seq<Event>, b: seq<Event>)
    ensures Replay(view, a + b) == Replay(Replay(view, a), b)
    decreases |b|
  {
    if b == [] {
      assert a + b == a;
    } else {
      var front, e := b[..|b| - 1], b[|b| - 1];
      assert a + b == (a + front) + [e] && b == front + [e];
      ReplayConcat(view, a, front);
      ReplayMore(view, a + front, e);
      ReplayMore(Replay(view, a), front, e);
    }
  }

  // ---- Invariants

  /** The event at position i, counted from 1, has version i if it stores an object;
    if it deletes one, it carries the version that a replay up to there has for it. */
  ghost predicate Numbered(events: seq<Event>) {
    forall i :: 0 <= i < |events| ==>
                  if events[i].kind.Deleted?
                  then
                    var view := Replay(map[], events[..i]);
                    events[i].name in view && view[events[i].name] == events[i].obj.version
                  else events[i].obj.version == i + 1
  }

  ghost predicate SubMap(a: map<string, nat>, b: map<string, nat>) {
    forall n :: n in a ==> n in b && a[n] == b[n]
  }

  /** The events are numbered and replay to at least the stored versions. */
  ghost predicate Consistent(versions: map<string, nat>, events: seq<Event>) {
    Numbered(events) && SubMap(versions, Replay(map[], events))
  }

  ghost predicate KindInv(c: Cluster, ns: string, key: Key) {
    Consistent(Versions(Objects(c, ns, key)), Stream(c, ns, key))
  }

  /** Versions of the namespaces that were created explicitly and still exist. */
  function Namespaces(c: Cluster): map<string, nat> {
    map ns | ns in c.objects && ns in Objects(c, ns, NamespaceKey) :: Objects(c, ns, NamespaceKey)[ns].version
  }

  ghost predicate NamespaceInv(c: Cluster) {
    && Consistent(Namespaces(c), c.namespaceStream)
    && Replay(map[], c.namespaceStream) == Namespaces(c)
  }

  lemma {:induction false} NumberedMore(events: seq<Event>, e: Event)
    requires Numbered(events)
    requires if e.kind.Deleted? then e.name in Replay(map[], events) && Replay(map[], events)[e.name] == e.obj.version
             else e.obj.version == |events| + 1
    ensures Numbered(events + [e])
  {
    var more := events + [e];
    assert more[..|events|] == events;
    assert forall i :: 0 <= i < |events| ==> more[..i] == events[..i] && more[i] == events[i];
  }

  /** The stream replays to exactly what is stored. */
  ghost predicate Exact(c: Cluster, ns: string, key: Key) {
    Versions(Objects(c, ns, key)) == Replay(map[], Stream(c, ns, key))
  }

  /** One more event that stores an object, seen against the stored versions. */
  lemma {:induction false} StoredEvent(versions: map<string, nat>, events: seq<Event>, e: Event)
    requires Consistent(versions, events)
    requires !e.kind.Deleted? && e.obj.version == |events| + 1
    ensures Consistent(versions[e.name := e.obj.version], events + [e])
    ensures versions == Replay(map[], events) ==> versions[e.name := e.obj.version] == Replay(map[], events + [e])
  {
    NumberedMore(events, e);
    ReplayMore(map[], events, e);
  }

  /** One more event that deletes a stored object. */
  lemma {:induction false} DeletedEvent(versions: map<string, nat>, events: seq<Event>, e: Event)
    requires Consistent(versions, events)
    requires e.kind.Deleted? && e.name in versions && versions[e.name] == e.obj.version
    ensures Consistent(versions - {e.name}, events + [e])
    ensures versions == Replay(map[], events) ==> versions - {e.name} == Replay(map[], events + [e])
  {
    NumberedMore(events, e);
    ReplayMore(map[], events, e);
  }

  lemma {:induction false} StoreKeeps(c: Cluster, ns: string, key: Key, name: string, obj: Object, replace: bool)
    requires KindInv(c, ns, key)
    ensures KindInv(Store(c, ns, key, name, obj, replace).0, ns, key)
    ensures Exact(c, ns, key) ==> Exact(Store(c, ns, key, name, obj, replace).0, ns, key)
  {
    if Store(c, ns, key, name, obj, replace).1.Ok? {
      StoreEffect(c, ns, key, name, obj, replace);
      var stored := obj.(version := |Stream(c, ns, key)| + 1);
      var e := Event(if replace then Modified else Added, name, stored);
      StoredKeeps(c, Store(c, ns, key, name, obj, replace).0, ns, key, e);
    }
  }

  lemma {:induction false} StoredKeeps(c: Cluster, c': Cluster, ns: string, key: Key, e: Event)
    requires KindInv(c, ns, key)
    requires !e.kind.Deleted? && e.obj.version == |Stream(c, ns, key)| + 1
    requires Objects(c', ns, key) == Objects(c, ns, key)[e.name := e.obj]
    requires Stream(c', ns, key) == Stream(c, ns, key) + [e]
    ensures KindInv(c', ns, key)
    ensures Exact(c, ns, key) ==> Exact(c', ns, key)
  {
    var objects := Objects(c, ns, key);
    StoredEvent(Versions(objects), Stream(c, ns, key), e);
    assert Versions(objects[e.name := e.obj]) == Versions(objects)[e.name := e.obj.version];
  }

  lemma {:induction false} StoreEffect(c: Cluster, ns: string, key: Key, name: string, obj: Object, replace: bool)
    requires Store(c, ns, key, name, obj, replace).1.Ok?
    ensures var c' := Store(c, ns, key, name, obj, replace).0;
            var stored := obj.(version := |Stream(c, ns, key)| + 1);
            && Objects(c', ns, key) == Objects(c, ns, key)[name := stored]
            && Stream(c', ns, key) == Stream(c, ns, key) + [Event(if replace then Modified else Added, name, stored)]
            && (forall ns' :: ns' != ns ==>
                                && (ns' in c'.objects <==> ns' in c.objects)
                                && Objects(c', ns', key) == Objects(c, ns', key))
            && ns in c'.objects
  {}

  lemma {:induction false} DeleteKeeps(c: Cluster, ns: string, key: Key, name: string, policyOk: bool)
    requires KindInv(c, ns, key)
    ensures KindInv(Delete(c, ns, key, name, policyOk).0, ns, key)
    ensures Exact(c, ns, key) ==> Exact(Delete(c, ns, key, name, policyOk).0, ns, key)
  {
    var objects := Objects(c, ns, key);
    if policyOk && name in objects {
      DeletedEvent(Versions(objects), Stream(c, ns, key), Event(Deleted, name, objects[name]));
      assert Versions(objects - {name}) == Versions(objects) - {name};
    }
  }

  /** Calls about other objects leave a kind in a namespace alone. */
  lemma {:induction false} OthersUntouched(c: Cluster, call: Call, ns: string, kind: string)
    ensures (match call
             case CreateObject(ns', kind', _, _) => ns' != ns || kind' != kind
             case ReplaceObject(ns', kind', _, _) => ns' != ns || kind' != kind
             case DeleteObject(ns', kind', _, _) => ns' != ns || kind' != kind
             case NewNamespace(_, _) => true
             case DropNamespace(ns') => ns' != ns) ==>
              && Objects(Step(c, call), ns, Kind(kind)) == Objects(c, ns, Kind(kind))
              && Stream(Step(c, call), ns, Kind(kind)) == Stream(c, ns, Kind(kind))
  {}

  /** The streams stay numbered and replay to at least what is stored, and to exactly
    that unless the namespace is deleted. */
  lemma {:induction false} StepKeepsKindInv(c: Cluster, call: Call, ns: string, kind: string)
    requires KindInv(c, ns, Kind(kind))
    ensures KindInv(Step(c, call), ns, Kind(kind))
    ensures call != DropNamespace(ns) && Exact(c, ns, Kind(kind)) ==> Exact(Step(c, call), ns, Kind(kind))
  {
    var key := Kind(kind);
    OthersUntouched(c, call, ns, kind);
    match call
    case CreateObject(ns', kind', name, obj) =>
      if ns' == ns && kind' == kind { StoreKeeps(c, ns, key, name, obj, false); }
    case ReplaceObject(ns', kind', name, obj) =>
      if ns' == ns && kind' == kind { StoreKeeps(c, ns, key, name, obj, true); }
    case DeleteObject(ns', kind', name, policyOk) =>
      if ns' == ns && kind' == kind { DeleteKeeps(c, ns, key, name, policyOk); }
    case NewNamespace(name, obj) =>
    case DropNamespace(ns') =>
      if ns' == ns {
        assert Stream(Step(c, call), ns, key) == Stream(c, ns, key);
        assert Objects(Step(c, call), ns, key) == map[] || Step(c, call) == c;
      }
  }

  lemma {:induction false} RunKeepsKindInv(c: Cluster, calls: seq<Call>, ns: string, kind: string)
    requires KindInv(c, ns, Kind(kind))
    ensures KindInv(Run(c, calls), ns, Kind(kind))
    ensures DropNamespace(ns) !in calls && Exact(c, ns, Kind(kind)) ==> Exact(Run(c, calls), ns, Kind(kind))
    decreases |calls|
  {
    if calls != [] {
      StepKeepsKindInv(c, calls[0], ns, kind);
      RunKeepsKindInv(Step(c, calls[0]), calls[1..], ns, kind);
    }
  }

  /** Over every run: events are numbered by their position, everything stored is what a
    replay of the events gives, and if the namespace was never deleted, nothing more. */
  lemma {:induction false} ReplayGivesStore(calls: seq<Call>, ns: string, kind: string)
    ensures var c := Run(Empty(), calls);
            var replay := Replay(map[], Stream(c, ns, Kind(kind)));
            && Numbered(Stream(c, ns, Kind(kind)))
            && SubMap(Versions(Objects(c, ns, Kind(kind))), replay)
            && (DropNamespace(ns) !in calls ==> Versions(Objects(c, ns, Kind(kind))) == replay)
  {
    RunKeepsKindInv(Empty(), calls, ns, kind);
  }

  lemma {:induction false} NewKeepsNamespaceInv(c: Cluster, name: string, obj: Object)
    requires NamespaceInv(c) && name !in c.objects
    ensures NamespaceInv(CreateNamespace(c, name, obj).0)
  {
    var c' := CreateNamespace(c, name, obj).0;
    StoreEffect(c, name, NamespaceKey, name, obj, false);
    var stored := obj.(version := |c.namespaceStream| + 1);
    assert c'.namespaceStream == c.namespaceStream + [Event(Added, name, stored)];
    AddedKeepsNamespaceInv(c, c', Event(Added, name, stored));
  }

  lemma {:induction false} AddedKeepsNamespaceInv(c: Cluster, c': Cluster, e: Event)
    requires NamespaceInv(c)
    requires !e.kind.Deleted? && e.obj.version == |c.namespaceStream| + 1
    requires c'.namespaceStream == c.namespaceStream + [e]
    requires e.name in c'.objects
    requires e.name in Objects(c', e.name, NamespaceKey) && Objects(c', e.name, NamespaceKey)[e.name] == e.obj
    requires forall ns :: ns != e.name ==>
                            && (ns in c'.objects <==> ns in c.objects)
                            && Objects(c', ns, NamespaceKey) == Objects(c, ns, NamespaceKey)
    ensures NamespaceInv(c')
  {
    StoredEvent(Namespaces(c), c.namespaceStream, e);
    SameNamespaces(c, c', e.name);
    assert Namespaces(c')[e.name] == e.obj.version;
    assert Namespaces(c') == (Namespaces(c') - {e.name})[e.name := e.obj.version];
    assert Namespaces(c)[e.name := e.obj.version] == (Namespaces(c) - {e.name})[e.name := e.obj.version];
  }

  /** The namespaces depend on nothing but what is stored under their key. */
  lemma {:induction false} SameNamespaces(c: Cluster, c': Cluster, name: string)
    requires forall ns :: ns != name ==>
                            && (ns in c'.objects <==> ns in c.objects)
                            && Objects(c', ns, NamespaceKey) == Objects(c, ns, NamespaceKey)
    ensures Namespaces(c') - {name} == Namespaces(c) - {name}
  {}

  lemma {:induction false} WithoutNamespace(c: Cluster, c': Cluster, name: string)
    requires forall ns :: ns != name ==>
                            && (ns in c'.objects <==> ns in c.objects)
                            && Objects(c', ns, NamespaceKey) == Objects(c, ns, NamespaceKey)
    requires name !in c'.objects
    ensures Namespaces(c') == Namespaces(c) - {name}
  {
    SameNamespaces(c, c', name);
    assert Namespaces(c') == Namespaces(c') - {name};
  }

  /** A namespace that was created explicitly is deleted. */
  lemma {:induction false} DeletedKeepsNamespaceInv(c: Cluster, c': Cluster, e: Event)
    requires NamespaceInv(c) && c'.namespaceStream == c.namespaceStream + [e]
    requires e.kind.Deleted? && e.name in Namespaces(c) && Namespaces(c)[e.name] == e.obj.version
    requires Namespaces(c') == Namespaces(c) - {e.name}
    ensures NamespaceInv(c')
  {
    DeletedEvent(Namespaces(c), c.namespaceStream, e);
  }

  lemma {:induction false} DropEffect(c: Cluster, name: string)
    requires name in c.objects
    ensures var (c', own) := (DeleteNamespace(c, name).0, Objects(c, name, NamespaceKey));
            && name !in c'.objects
            && c'.namespaceStream ==
               c.namespaceStream + (if name in own then [Event(Deleted, name, own[name])] else [])
            && forall ns :: ns != name ==>
                              && (ns in c'.objects <==> ns in c.objects)
                              && Objects(c', ns, NamespaceKey) == Objects(c, ns, NamespaceKey)
  {}

  lemma {:induction false} DropKeepsNamespaceInv(c: Cluster, name: string)
    requires NamespaceInv(c) && name in c.objects
    ensures NamespaceInv(DeleteNamespace(c, name).0)
  {
    var c', own := DeleteNamespace(c, name).0, Objects(c, name, NamespaceKey);
    DropEffect(c, name);
    WithoutNamespace(c, c', name);
    if name in own {
      DeletedKeepsNamespaceInv(c, c', Event(Deleted, name, own[name]));
    } else {
      assert Namespaces(c) - {name} == Namespaces(c);
    }
  }

  lemma {:induction false} KindCallsKeepNamespaces(c: Cluster, call: Call)
    requires !call.NewNamespace? && !call.DropNamespace?
    ensures Step(c, call).namespaceStream == c.namespaceStream
    ensures forall ns :: Objects(Step(c, call), ns, NamespaceKey) == Objects(c, ns, NamespaceKey)
  {}

  lemma {:induction false} StepKeepsNamespaceInv(c: Cluster, call: Call)
    requires NamespaceInv(c)
    ensures NamespaceInv(Step(c, call))
  {
    var c' := Step(c, call);
    match call
    case NewNamespace(name, obj) => if name !in c.objects { NewKeepsNamespaceInv(c, name, obj); }
    case DropNamespace(name) => if name in c.objects { DropKeepsNamespaceInv(c, name); }
    case _ =>
      KindCallsKeepNamespaces(c, call);
      SameObjectsSameInv(c, c');
  }

  lemma {:induction false} SameObjectsSameInv(c: Cluster, c': Cluster)
    requires NamespaceInv(c) && c'.namespaceStream == c.namespaceStream
    requires forall ns :: Objects(c', ns, NamespaceKey) == Objects(c, ns, NamespaceKey)
    ensures NamespaceInv(c')
  {}

  lemma {:induction false} RunKeepsNamespaceInv(c: Cluster, calls: seq<Call>)
    requires NamespaceInv(c)
    ensures NamespaceInv(Run(c, calls))
    decreases |calls|
  {
    if calls != [] {
      StepKeepsNamespaceInv(c, calls[0]);
      RunKeepsNamespaceInv(Step(c, calls[0]), calls[1..]);
    }
  }

  /** Over every run, deletions included, the stream of namespaces replays to exactly the
    namespaces that were created explicitly and still exist. */
  lemma {:induction false} ReplayGivesNamespaces(calls: seq<Call>)
    ensures var c := Run(Empty(), calls);
            && Numbered(c.namespaceStream)
            && Replay(map[], c.namespaceStream) == Namespaces(c)
  {
    RunKeepsNamespaceInv(Empty(), calls);
  }

  /** The deletion of a namespace is the one call that makes stored objects vanish while
    the replay of their events still has them: it does so for each object there was. */
  lemma {:induction false} DropNamespaceHides(c: Cluster, ns: string, kind: string)
    requires Exact(c, ns, Kind(kind))
    ensures Exact(Step(c, DropNamespace(ns)), ns, Kind(kind)) <==> Objects(c, ns, Kind(kind)) == map[]
  {}

  // ---- Watches

  /** `_check_labels`, with the selector text already parsed. */
  predicate CheckLabels(labels: map<string, string>, selector: map<string, string>) {
    if selector == map[] then true
    else if labels == map[] then false
    else forall l :: l in selector ==> l in labels && selector[l] == labels[l]
  }

  predicate Wanted(e: Event, name: Option<string>, selector: map<string, string>) {
    (name.Some? ==> e.name == name.value) && CheckLabels(e.obj.labels, selector)
  }

  function Matching(events: seq<Event>, name: Option<string>, selector: map<string, string>): seq<Event> {
    if events == [] then []
    else
      var front, e := Matching(events[..|events| - 1], name, selector), events[|events| - 1];
      if Wanted(e, name, selector) then front + [e] else front
  }

  /** Where the events that a watch delivers stand in the stream. */
  function Positions(events: seq<Event>, name: Option<string>, selector: map<string, string>): seq<nat> {
    if events == [] then []
    else
      var front, k := Positions(events[..|events| - 1], name, selector), |events| - 1;
      if Wanted(events[k], name, selector) then front + [k] else front
  }

  /** A watch delivers the wanted events, each once, in stream order, and no other. */
  lemma {:induction false} WatchDelivers(events: seq<Event>, name: Option<string>, selector: map<string, string>)
    ensures var at := Positions(events, name, selector);
            var out := Matching(events, name, selector);
            && |out| == |at|
            && (forall i :: 0 <= i < |at| ==>
                              at[i] < |events| && out[i] == events[at[i]] && Wanted(out[i], name, selector))
            && (forall i, j :: 0 <= i < j < |at| ==> at[i] < at[j])
            && (forall k :: 0 <= k < |events| && Wanted(events[k], name, selector) ==> k in at)
    decreases |events|
  {
    if events != [] {
      WatchDelivers(events[..|events| - 1], name, selector);
    }
  }

  /** Two views agree on one name, and the first is as before everywhere else. */
  predicate SameAt(watched: map<string, nat>, all: map<string, nat>, before: map<string, nat>, name: string) {
    && watched - {name} == before - {name}
    && (name in watched <==> name in all)
    && (name in all ==> watched[name] == all[name])
  }

  lemma {:induction false} OwnEvent(
      watched: map<string, nat>, all: map<string, nat>, before: map<string, nat>, e: Event)
    requires SameAt(watched, all, before, e.name)
    ensures SameAt(ApplyEvent(watched, e), ApplyEvent(all, e), before, e.name)
  {}

  lemma {:induction false} OtherEvent(
      watched: map<string, nat>, all: map<string, nat>, before: map<string, nat>, e: Event, name: string)
    requires SameAt(watched, all, before, name) && e.name != name
    ensures SameAt(watched, ApplyEvent(all, e), before, name)
  {}

  /** A watch restricted to one name keeps that name up to date and touches no other. */
  lemma {:induction false} WatchOneName(view: map<string, nat>, events: seq<Event>, name: string)
    ensures SameAt(Replay(view, Matching(events, Some(name), map[])), Replay(view, events), view, name)
    decreases |events|
  {
    if events != [] {
      var front, e := events[..|events| - 1], events[|events| - 1];
      var watched, all := Replay(view, Matching(front, Some(name), map[])), Replay(view, front);
      WatchOneName(view, front, name);
      ReplayMore(view, Matching(front, Some(name), map[]), e);
      if e.name == name {
        OwnEvent(watched, all, view, e);
      } else {
        OtherEvent(watched, all, view, e, name);
      }
    }
  }

  lemma {:induction false} MatchingAll(events: seq<Event>)
    ensures Matching(events, None, map[]) == events
    decreases |events|
  {
    if events != [] {
      MatchingAll(events[..|events| - 1]);
    }
  }

  // ---- List, then watch

  function Selection(objects: map<string, Object>, selector: map<string, string>): map<string, nat> {
    map name | name in objects && CheckLabels(objects[name].labels, selector) :: objects[name].version
  }

  /** What a list with this selector shows. */
  function View(c: Cluster, ns: string, kind: string, selector: map<string, string>): map<string, nat> {
    Selection(Objects(c, ns, Kind(kind)), selector)
  }

  /** The call takes a listed object out of the selector without deleting it. */
  predicate Leaves(c: Cluster, call: Call, ns: string, kind: string, selector: map<string, string>) {
    var objects := Objects(c, ns, Kind(kind));
    && call.ReplaceObject? && call.ns == ns && call.kind == kind && call.name in objects
    && CheckLabels(objects[call.name].labels, selector) && !CheckLabels(call.obj.labels, selector)
  }

  /** A call adds at most one event to a stream. */
  function NewEvents(c: Cluster, call: Call, ns: string, kind: string): (events: seq<Event>)
    ensures Stream(Step(c, call), ns, Kind(kind)) == Stream(c, ns, Kind(kind)) + events && |events| <= 1
  {
    Stream(Step(c, call), ns, Kind(kind))[|Stream(c, ns, Kind(kind))|..]
  }

  /** A watcher that has the view before a call has the one after it as well if and only if
    the call takes nothing out of the selector. */
  lemma {:induction false} StepDelivered(
      c: Cluster, call: Call, ns: string, kind: string, selector: map<string, string>)
    requires call != DropNamespace(ns)
    ensures Replay(View(c, ns, kind, selector), Matching(NewEvents(c, call, ns, kind), None, selector))
            == View(Step(c, call), ns, kind, selector)
            <==> !Leaves(c, call, ns, kind, selector)
  {
    var key, c' := Kind(kind), Step(c, call);
    var events := NewEvents(c, call, ns, kind);
    OthersUntouched(c, call, ns, kind);
    if call.CreateObject? && call.ns == ns && call.kind == kind {
      StoreDelivered(c, ns, kind, call.name, call.obj, false, selector);
    } else if call.ReplaceObject? && call.ns == ns && call.kind == kind {
      StoreDelivered(c, ns, kind, call.name, call.obj, true, selector);
    } else if call.DeleteObject? && call.ns == ns && call.kind == kind {
      DeleteDelivered(c, ns, kind, call.name, call.policyOk, selector);
    } else {
      assert events == [];
    }
  }

  lemma {:induction false} MatchingOne(e: Event, selector: map<string, string>)
    ensures Matching([e], None, selector) == if CheckLabels(e.obj.labels, selector) then [e] else []
  {
    assert [e][..0] == [];
  }

  lemma {:induction false} SelectionStored(
      objects: map<string, Object>, name: string, obj: Object, selector: map<string, string>)
    ensures Selection(objects[name := obj], selector) ==
            if CheckLabels(obj.labels, selector) then Selection(objects, selector)[name := obj.version]
            else Selection(objects, selector) - {name}
  {}

  lemma {:induction false} SelectionDeleted(objects: map<string, Object>, name: string, selector: map<string, string>)
    ensures Selection(objects - {name}, selector) == Selection(objects, selector) - {name}
  {}

  lemma {:induction false} DeliveredOne(view: map<string, nat>, e: Event, selector: map<string, string>)
    ensures Replay(view, Matching([e], None, selector)) ==
            if CheckLabels(e.obj.labels, selector) then ApplyEvent(view, e) else view
  {
    MatchingOne(e, selector);
    ReplayMore(view, [], e);
  }

  lemma {:induction false} NothingRemoved(view: map<string, nat>, name: string)
    ensures view == view - {name} <==> name !in view
  {}

  /** What the event of a stored object does to the selection. */
  lemma {:induction false} StoredDelivered(objects: map<string, Object>, e: Event, selector: map<string, string>)
    requires !e.kind.Deleted?
    ensures Replay(Selection(objects, selector), Matching([e], None, selector))
            == Selection(objects[e.name := e.obj], selector)
            <==> CheckLabels(e.obj.labels, selector) || e.name !in Selection(objects, selector)
  {
    DeliveredOne(Selection(objects, selector), e, selector);
    SelectionStored(objects, e.name, e.obj, selector);
    NothingRemoved(Selection(objects, selector), e.name);
  }

  lemma {:induction false} DeletedDelivered(objects: map<string, Object>, e: Event, selector: map<string, string>)
    requires e.kind.Deleted? && e.name in objects && objects[e.name] == e.obj
    ensures Replay(Selection(objects, selector), Matching([e], None, selector))
            == Selection(objects - {e.name}, selector)
  {
    DeliveredOne(Selection(objects, selector), e, selector);
    SelectionDeleted(objects, e.name, selector);
    NothingRemoved(Selection(objects, selector), e.name);
  }

  lemma {:induction false} StoreDelivered(
      c: Cluster, ns: string, kind: string, name: string, obj: Object, replace: bool, selector: map<string, string>)
    ensures var call := if replace then ReplaceObject(ns, kind, name, obj) else CreateObject(ns, kind, name, obj);
            Replay(View(c, ns, kind, selector), Matching(NewEvents(c, call, ns, kind), None, selector))
            == View(Step(c, call), ns, kind, selector)
            <==> !Leaves(c, call, ns, kind, selector)
  {
    var call := if replace then ReplaceObject(ns, kind, name, obj) else CreateObject(ns, kind, name, obj);
    if Store(c, ns, Kind(kind), name, obj, replace).1 == Ok {
      var e := StoredEvents(c, ns, kind, name, obj, replace, call);
      StoredDelivered(Objects(c, ns, Kind(kind)), e, selector);
    } else {
      assert NewEvents(c, call, ns, kind) == [];
    }
  }

  lemma {:induction false} StoredEvents(
      c: Cluster, ns: string, kind: string, name: string, obj: Object, replace: bool, call: Call) returns (e: Event)
    requires call == if replace then ReplaceObject(ns, kind, name, obj) else CreateObject(ns, kind, name, obj)
    requires Store(c, ns, Kind(kind), name, obj, replace).1 == Ok
    ensures !e.kind.Deleted? && e.name == name && e.obj.labels == obj.labels
    ensures NewEvents(c, call, ns, kind) == [e]
    ensures Objects(Step(c, call), ns, Kind(kind)) == Objects(c, ns, Kind(kind))[name := e.obj]
    ensures !replace ==> name !in Objects(c, ns, Kind(kind))
  {
    StoreEffect(c, ns, Kind(kind), name, obj, replace);
    e := Event(if replace then Modified else Added, name, obj.(version := |Stream(c, ns, Kind(kind))| + 1));
  }

  lemma {:induction false} DeleteDelivered(
      c: Cluster, ns: string, kind: string, name: string, policyOk: bool, selector: map<string, string>)
    ensures var call := DeleteObject(ns, kind, name, policyOk);
            Replay(View(c, ns, kind, selector), Matching(NewEvents(c, call, ns, kind), None, selector))
            == View(Step(c, call), ns, kind, selector)
  {
    var call, objects := DeleteObject(ns, kind, name, policyOk), Objects(c, ns, Kind(kind));
    if policyOk && name in objects {
      var e := Event(Deleted, name, objects[name]);
      assert NewEvents(c, call, ns, kind) == [e];
      DeletedDelivered(objects, e, selector);
    } else {
      assert NewEvents(c, call, ns, kind) == [];
    }
  }

  /** Listing in `c` and then watching from the end of the stream gives the list after the
    calls. */
  ghost predicate Tracks(c: Cluster, calls: seq<Call>, ns: string, kind: string, selector: map<string, string>) {
    var seen, all := Stream(c, ns, Kind(kind)), Stream(Run(c, calls), ns, Kind(kind));
    && seen <= all
    && Replay(View(c, ns, kind, selector), Matching(all[|seen|..], None, selector))
       == View(Run(c, calls), ns, kind, selector)
  }

  lemma {:induction false} RunMore(c: Cluster, calls: seq<Call>, call: Call)
    ensures Run(c, calls + [call]) == Step(Run(c, calls), call)
    decreases |calls|
  {
    if calls == [] {
      assert Run(c, [call]) == Run(Step(c, call), [call][1..]);
    } else {
      assert (calls + [call])[1..] == calls[1..] + [call];
      RunMore(Step(c, calls[0]), calls[1..], call);
    }
  }

  lemma {:induction false} MatchingConcat(a: seq<Event>, b: seq<Event>, selector: map<string, string>)
    ensures Matching(a + b, None, selector) == Matching(a, None, selector) + Matching(b, None, selector)
    decreases |b|
  {
    if b == [] {
      assert a + b == a;
    } else {
      assert (a + b)[..|a + b| - 1] == a + b[..|b| - 1];
      MatchingConcat(a, b[..|b| - 1], selector);
    }
  }

  lemma {:induction false} DeliveredMore(
      view: map<string, nat>, seen: seq<Event>, all: seq<Event>, events: seq<Event>, selector: map<string, string>)
    requires seen <= all
    ensures seen <= all + events
    ensures Replay(view, Matching((all + events)[|seen|..], None, selector))
            == Replay(Replay(view, Matching(all[|seen|..], None, selector)), Matching(events, None, selector))
  {
    assert (all + events)[|seen|..] == all[|seen|..] + events;
    MatchingConcat(all[|seen|..], events, selector);
    ReplayConcat(view, Matching(all[|seen|..], None, selector), Matching(events, None, selector));
  }

  lemma {:induction false} TracksOneMore(
      c: Cluster, calls: seq<Call>, call: Call, ns: string, kind: string, selector: map<string, string>)
    requires Tracks(c, calls, ns, kind, selector) && call != DropNamespace(ns)
    ensures Tracks(c, calls + [call], ns, kind, selector) <==> !Leaves(Run(c, calls), call, ns, kind, selector)
  {
    var seen, all := Stream(c, ns, Kind(kind)), Stream(Run(c, calls), ns, Kind(kind));
    RunMore(c, calls, call);
    StepDelivered(Run(c, calls), call, ns, kind, selector);
    DeliveredMore(View(c, ns, kind, selector), seen, all, NewEvents(Run(c, calls), call, ns, kind), selector);
  }

  /** After every one of the calls the watcher has the list. */
  ghost predicate KeepsUp(c: Cluster, calls: seq<Call>, ns: string, kind: string, selector: map<string, string>)
    decreases |calls|
  {
    && (calls == [] || KeepsUp(c, calls[..|calls| - 1], ns, kind, selector))
    && Tracks(c, calls, ns, kind, selector)
  }

  ghost predicate NoneLeaves(c: Cluster, calls: seq<Call>, ns: string, kind: string, selector: map<string, string>)
    decreases |calls|
  {
    calls == [] ||
    (NoneLeaves(c, calls[..|calls| - 1], ns, kind, selector) &&
     !Leaves(Run(c, calls[..|calls| - 1]), calls[|calls| - 1], ns, kind, selector))
  }

  /** From any state, a watch with a selector keeps up with the list all the time if and only
    if no replacement takes a listed object out of the selector: a watcher is not told then. */
  lemma {:induction false} WatchKeepsUpIff(
      c: Cluster, calls: seq<Call>, ns: string, kind: string, selector: map<string, string>)
    requires DropNamespace(ns) !in calls
    ensures KeepsUp(c, calls, ns, kind, selector) <==> NoneLeaves(c, calls, ns, kind, selector)
    decreases |calls|
  {
    if calls == [] {
      assert Stream(c, ns, Kind(kind))[|Stream(c, ns, Kind(kind))|..] == [];
    } else {
      var front, last := calls[..|calls| - 1], calls[|calls| - 1];
      assert calls == front + [last];
      WatchKeepsUpIff(c, front, ns, kind, selector);
      if KeepsUp(c, front, ns, kind, selector) {
        TracksOneMore(c, front, last, ns, kind, selector);
      }
    }
  }

  lemma {:induction false} NothingLeavesAll(c: Cluster, calls: seq<Call>, ns: string, kind: string)
    ensures NoneLeaves(c, calls, ns, kind, map[])
    decreases |calls|
  {
    if calls != [] {
      NothingLeavesAll(c, calls[..|calls| - 1], ns, kind);
    }
  }

  /** Without a selector it always does, from any state, whatever was deleted before. */
  lemma {:induction false} FreshWatch(c: Cluster, calls: seq<Call>, ns: string, kind: string)
    requires DropNamespace(ns) !in calls
    ensures Tracks(c, calls, ns, kind, map[])
  {
    WatchKeepsUpIff(c, calls, ns, kind, map[]);
    NothingLeavesAll(c, calls, ns, kind);
  }

  // ---- Events that are delivered again

  ghost predicate Touches(events: seq<Event>, name: string) {
    exists i :: 0 <= i < |events| && events[i].name == name
  }

  predicate AgreeAt(a: map<string, nat>, b: map<string, nat>, name: string) {
    (name in a <==> name in b) && (name in a ==> a[name] == b[name])
  }

  /** What events say about a name they touch does not depend on the view before, and about
    other names they say nothing. */
  lemma {:induction false} LastWordCounts(a: map<string, nat>, b: map<string, nat>, events: seq<Event>, name: string)
    ensures Touches(events, name) ==> AgreeAt(Replay(a, events), Replay(b, events), name)
    ensures !Touches(events, name) ==> AgreeAt(Replay(a, events), a, name)
    decreases |events|
  {
    if events != [] {
      var front, e := events[..|events| - 1], events[|events| - 1];
      LastWordCounts(a, b, front, name);
      if e.name == name {
        assert events[|events| - 1].name == name;
      } else if Touches(events, name) {
        var i :| 0 <= i < |events| && events[i].name == name;
        assert front[i].name == name;
      } else {
        assert forall i :: 0 <= i < |front| ==> front[i] == events[i];
      }
    }
  }

  lemma {:induction false} AgreeEverywhere(a: map<string, nat>, b: map<string, nat>)
    requires forall name :: AgreeAt(a, b, name)
    ensures a == b
  {
    assert forall name :: name in a ==> AgreeAt(a, b, name);
    assert forall name :: name in b ==> AgreeAt(a, b, name);
  }

  /** Applying events that have been applied already changes nothing. */
  lemma {:induction false} ReplayIsIdempotent(view: map<string, nat>, events: seq<Event>)
    ensures Replay(Replay(view, events), events) == Replay(view, events)
  {
    forall name ensures AgreeAt(Replay(Replay(view, events), events), Replay(view, events), name) {
      LastWordCounts(Replay(view, events), view, events, name);
    }
    AgreeEverywhere(Replay(Replay(view, events), events), Replay(view, events));
  }

  /** List, then watch from any version since the namespace was deleted last, such as that
    of a listed object: applying what the watch delivers to the list gives the store. */
  lemma {:induction false} ListThenWatch(
      c: Cluster, before: seq<Call>, after: seq<Call>, ns: string, kind: string, version: nat)
    requires DropNamespace(ns) !in before + after
    requires |Stream(c, ns, Kind(kind))| <= version <= |Stream(Run(c, before), ns, Kind(kind))|
    ensures var listed := Run(c, before);
            var now := Run(listed, after);
            && version <= |Stream(now, ns, Kind(kind))|
            && Replay(View(listed, ns, kind, map[]), Matching(Stream(now, ns, Kind(kind))[version..], None, map[]))
               == View(now, ns, kind, map[])
  {
    var listed := Run(c, before);
    var now := Run(listed, after);
    assert forall x :: x in before || x in after ==> x in before + after;
    FreshWatch(c, before, ns, kind);
    FreshWatch(listed, after, ns, kind);
    var start, seen, all := |Stream(c, ns, Kind(kind))|, Stream(listed, ns, Kind(kind)), Stream(now, ns, Kind(kind));
    MatchingAll(seen[start..]);
    MatchingAll(all[|seen|..]);
    MatchingAll(all[version..]);
    Redelivered(View(c, ns, kind, map[]), seen, all, start, version);
  }

  /** Events up to `seen` have been applied; those from `version` on are applied again. */
  lemma {:induction false} Redelivered(
      view: map<string, nat>, seen: seq<Event>, all: seq<Event>, start: nat, version: nat)
    requires start <= version <= |seen| && seen <= all
    ensures var listed := Replay(view, seen[start..]);
            Replay(listed, all[version..]) == Replay(listed, all[|seen|..])
  {
    var again, more := seen[version..], all[|seen|..];
    assert seen[start..] == seen[start..version] + again;
    ReplayConcat(view, seen[start..version], again);
    ReplayIsIdempotent(Replay(view, seen[start..version]), again);
    assert all[version..] == again + more;
    ReplayConcat(Replay(view, seen[start..]), again, more);
  }

  /** Watching from an earlier version brings back objects that have vanished with their
    namespace. A watch over events that are past gives the list if and only if none of the
    names it touches would be brought back. */
  lemma {:induction false} StaleWatchIff(c: Cluster, ns: string, kind: string, version: nat)
    requires KindInv(c, ns, Kind(kind)) && version <= |Stream(c, ns, Kind(kind))|
    ensures var events := Stream(c, ns, Kind(kind));
            var view := Versions(Objects(c, ns, Kind(kind)));
            Replay(view, events[version..]) == view
            <==> forall name :: Touches(events[version..], name) && name in Replay(map[], events) ==> name in view
  {
    var events, view := Stream(c, ns, Kind(kind)), Versions(Objects(c, ns, Kind(kind)));
    var again := events[version..];
    var all := Replay(map[], events);
    assert events == events[..version] + again;
    ReplayConcat(map[], events[..version], again);
    forall name ensures Touches(again, name) ==> AgreeAt(Replay(view, again), all, name)
      ensures !Touches(again, name) ==> AgreeAt(Replay(view, again), view, name)
    {
      LastWordCounts(view, Replay(map[], events[..version]), again, name);
    }
    if forall name :: Touches(again, name) && name in all ==> name in view {
      forall name ensures AgreeAt(Replay(view, again), view, name) {
        assert name in view ==> name in all && view[name] == all[name];
      }
      AgreeEverywhere(Replay(view, again), view);
    }
  }
}
