/** `MockKubernetesApi`: nested dictionaries of objects, and jobs with their pods.

  The methods are proved to do what the functions of `KubernetesModel` say. */
module Kubernetes {
  import opened Wrappers
  import opened KubernetesModel
  import opened KubernetesLabels

  // ---- Jobs on values

  const JOB: Key := Kind("Job")
  const POD: Key := Kind("Pod")

  datatype Policy = Foreground | Background | Orphan | Invalid

  function JobSelector(job: string): map<string, string> { map["job-name" := job] }

  /** The names of the objects that match both selectors. */
  function Selected(objects: map<string, Object>, name: Option<string>, selector: map<string, string>): set<string> {
    set n | n in objects && (name.Some? ==> n == name.value) && CheckLabels(objects[n].labels, selector)
  }

  /** The object has this name, if one is wanted, and all wanted labels with their values. */
  predicate IsSelected(
      objects: map<string, Object>, name: Option<string>, selector: map<string, string>, n: string)
  {
    n in objects && (name.Some? ==> n == name.value) && selector.Items <= objects[n].labels.Items
  }

  lemma {:induction false} SelectedIff(
      objects: map<string, Object>, name: Option<string>, selector: map<string, string>, n: string)
    ensures n in Selected(objects, name, selector) <==> IsSelected(objects, name, selector, n)
  {
    if n in objects {
      CheckLabelsIff(objects[n].labels, selector);
    }
  }

  /** The names of the pods that carry the job's label. */
  function JobPods(c: Cluster, ns: string, job: string): set<string> {
    Selected(Objects(c, ns, POD), None, JobSelector(job))
  }

  /** The pod is labelled as one of this job. */
  predicate BelongsTo(pod: Object, job: string) {
    "job-name" in pod.labels && pod.labels["job-name"] == job
  }

  /** The pods of a job are those with its name in their label, and no others. */
  lemma {:induction false} JobPodsIff(c: Cluster, ns: string, job: string, pod: string)
    ensures var pods := Objects(c, ns, POD);
            pod in JobPods(c, ns, job) <==> pod in pods && BelongsTo(pods[pod], job)
  {
    var pods := Objects(c, ns, POD);
    if pod in pods {
      OneLabel(pods[pod].labels, "job-name", job);
    }
    SelectedIff(pods, None, JobSelector(job), pod);
  }

  lemma {:induction false} OneLabel(labels: map<string, string>, name: string, value: string)
    ensures map[name := value].Items <= labels.Items <==> name in labels && labels[name] == value
  {
    var selector := map[name := value];
    CheckLabelsIff(labels, selector);
    assert name in selector && selector[name] == value;
  }

  function DeletePods(c: Cluster, ns: string, pods: seq<string>): Cluster
    decreases |pods|
  {
    if pods == [] then c else DeletePods(Delete(c, ns, POD, pods[0], true).0, ns, pods[1..])
  }

  /** `create_namespaced_job`: the job, then a pod with the template's labels and one more.
    A template without labels makes it fail after the job was stored. */
  function CreateJob(
      c: Cluster, ns: string, job: string, obj: Object, pod: string, labels: map<string, string>, body: string)
    : (Cluster, Status)
  {
    var (c1, status) := Store(c, ns, JOB, job, obj, false);
    if status != Ok then (c1, status)
    else if labels == map[] then (c1, TypeFailed)
    else Store(c1, ns, POD, pod, Object(labels["job-name" := job], 0, body), false)
  }

  /** `delete_namespaced_job`, which lists the pods as `pods`. */
  function DeleteJob(c: Cluster, ns: string, job: string, policy: Policy, pods: seq<string>): (Cluster, Status) {
    if ns !in c.objects then (c, NotFound)
    else Delete(if policy == Orphan then c else DeletePods(c, ns, pods), ns, JOB, job, policy != Invalid)
  }

  ghost predicate Lists(pods: seq<string>, names: set<string>) {
    && (forall i, j :: 0 <= i < j < |pods| ==> pods[i] != pods[j])
    && (forall name :: name in pods <==> name in names)
  }

  lemma {:induction false} DeletePodEffect(c: Cluster, ns: string, pod: string)
    requires pod in Objects(c, ns, POD)
    ensures var c' := Delete(c, ns, POD, pod, true).0;
            && Objects(c', ns, POD) == Objects(c, ns, POD) - {pod}
            && Stream(c', ns, POD) == Stream(c, ns, POD) + [Event(Deleted, pod, Objects(c, ns, POD)[pod])]
            && Objects(c', ns, JOB) == Objects(c, ns, JOB) && Stream(c', ns, JOB) == Stream(c, ns, JOB)
            && ns in c'.objects
  {}

  lemma {:induction false} ListsRest(pods: seq<string>, names: set<string>)
    requires Lists(pods, names) && pods != []
    ensures pods[0] in names && Lists(pods[1..], names - {pods[0]})
  {}

  lemma {:induction false} ListLength(pods: seq<string>, names: set<string>)
    requires Lists(pods, names)
    ensures |pods| == |names|
    decreases |pods|
  {
    if pods == [] {
      assert forall name :: name in names ==> name in pods;
      assert names == {};
    } else {
      ListsRest(pods, names);
      ListLength(pods[1..], names - {pods[0]});
    }
  }

  /** What watchers hear when these objects are deleted. */
  function Deletions(names: seq<string>, objects: map<string, Object>): seq<Event>
    requires forall i :: 0 <= i < |names| ==> names[i] in objects
  {
    if names == [] then [] else [Event(Deleted, names[0], objects[names[0]])] + Deletions(names[1..], objects)
  }

  lemma {:induction false} DeletionsOfRest(names: seq<string>, objects: map<string, Object>, gone: string)
    requires gone !in names && forall i :: 0 <= i < |names| ==> names[i] in objects
    ensures Deletions(names, objects - {gone}) == Deletions(names, objects)
  {
    if names != [] {
      DeletionsOfRest(names[1..], objects, gone);
    }
  }

  /** Deleting a list of pods removes exactly these, with one event for each, in order. */
  lemma {:induction false} DeletePodsEffect(c: Cluster, ns: string, pods: seq<string>, names: set<string>)
    requires Lists(pods, names) && names <= Objects(c, ns, POD).Keys
    ensures forall i :: 0 <= i < |pods| ==> pods[i] in Objects(c, ns, POD)
    ensures var c' := DeletePods(c, ns, pods);
            && Objects(c', ns, POD) == Objects(c, ns, POD) - names
            && Stream(c', ns, POD) == Stream(c, ns, POD) + Deletions(pods, Objects(c, ns, POD))
            && Objects(c', ns, JOB) == Objects(c, ns, JOB) && Stream(c', ns, JOB) == Stream(c, ns, JOB)
            && (ns in c.objects ==> ns in c'.objects)
    decreases |pods|
  {
    assert forall i :: 0 <= i < |pods| ==> pods[i] in names;
    var objects := Objects(c, ns, POD);
    if pods != [] {
      var c1 := Delete(c, ns, POD, pods[0], true).0;
      ListsRest(pods, names);
      DeletePodEffect(c, ns, pods[0]);
      DeletePodsEffect(c1, ns, pods[1..], names - {pods[0]});
      MinusEach(objects, names, pods[0]);
      assert forall i :: 0 <= i < |pods[1..]| ==> pods[1..][i] == pods[i + 1];
      DeletionsOfRest(pods[1..], objects, pods[0]);
      ConcatAssoc(Stream(c, ns, POD), [Event(Deleted, pods[0], objects[pods[0]])], Deletions(pods[1..], objects));
    } else {
      ListLength(pods, names);
      assert objects - names == objects;
    }
  }

  lemma {:induction false} ConcatAssoc(x: seq<Event>, y: seq<Event>, z: seq<Event>)
    ensures x + y + z == x + (y + z)
  {}

  lemma {:induction false} MinusEach(objects: map<string, Object>, names: set<string>, name: string)
    requires name in names
    ensures objects - {name} - (names - {name}) == objects - names
  {}

  lemma {:induction false} DeletionsLength(names: seq<string>, objects: map<string, Object>)
    requires forall i :: 0 <= i < |names| ==> names[i] in objects
    ensures |Deletions(names, objects)| == |names|
  {
    if names != [] {
      DeletionsLength(names[1..], objects);
    }
  }

  /** Deleting a job removes it and its pods and nothing else, with one event for each. */
  lemma {:induction false} DeleteJobEffect(c: Cluster, ns: string, job: string, policy: Policy, pods: seq<string>)
    requires ns in c.objects && job in Objects(c, ns, JOB)
    requires Lists(pods, JobPods(c, ns, job)) && (policy == Foreground || policy == Background)
    ensures var (c', status) := DeleteJob(c, ns, job, policy, pods);
            && status == Ok
            && Objects(c', ns, JOB) == Objects(c, ns, JOB) - {job}
            && Objects(c', ns, POD) == Objects(c, ns, POD) - JobPods(c, ns, job)
            && |Stream(c', ns, POD)| == |Stream(c, ns, POD)| + |JobPods(c, ns, job)|
            && Stream(c', ns, JOB) == Stream(c, ns, JOB) + [Event(Deleted, job, Objects(c, ns, JOB)[job])]
  {
    DeletePodsEffect(c, ns, pods, JobPods(c, ns, job));
    DeletionsLength(pods, Objects(c, ns, POD));
    ListLength(pods, JobPods(c, ns, job));
  }

  /** When the deletion of a job fails, whatever becomes of its pods. */
  lemma {:induction false} DeleteJobFailsIff(c: Cluster, ns: string, job: string, policy: Policy, pods: seq<string>)
    requires Lists(pods, JobPods(c, ns, job))
    ensures DeleteJob(c, ns, job, policy, pods).1 != Ok <==> job !in Objects(c, ns, JOB) || policy == Invalid
  {
    DeletePodsEffect(c, ns, pods, JobPods(c, ns, job));
  }

  /** A deletion that fails has left the store and the streams alone if and only if the pods
    were to be orphaned or there were none: they are deleted before anything is checked. */
  lemma {:induction false} FailedDeleteJob(c: Cluster, ns: string, job: string, policy: Policy, pods: seq<string>)
    requires Lists(pods, JobPods(c, ns, job))
    requires DeleteJob(c, ns, job, policy, pods).1 != Ok
    ensures DeleteJob(c, ns, job, policy, pods).0 == c <==> policy == Orphan || JobPods(c, ns, job) == {}
  {
    DeletePodsEffect(c, ns, pods, JobPods(c, ns, job));
    DeletionsLength(pods, Objects(c, ns, POD));
    ListLength(pods, JobPods(c, ns, job));
    if ns in c.objects && policy != Orphan && pods != [] {
      assert |Stream(DeletePods(c, ns, pods), ns, POD)| > |Stream(c, ns, POD)|;
    }
  }

  /** When the creation of a job succeeds. */
  lemma {:induction false} CreateJobSucceedsIff(
      c: Cluster, ns: string, job: string, obj: Object, pod: string, labels: map<string, string>, body: string)
    ensures CreateJob(c, ns, job, obj, pod, labels, body).1 == Ok
            <==> job !in Objects(c, ns, JOB) && labels != map[] && pod !in Objects(c, ns, POD)
  {
    if job !in Objects(c, ns, JOB) {
      StoreNew(c, ns, JOB, job, obj, POD);
    }
  }

  /** A creation that fails has left the store and the streams alone if and only if the job
    was there before. Otherwise, for want of labels or because of the name of the pod, the
    job is stored, without a pod. */
  lemma {:induction false} FailedCreateJob(
      c: Cluster, ns: string, job: string, obj: Object, pod: string, labels: map<string, string>, body: string)
    requires CreateJob(c, ns, job, obj, pod, labels, body).1 != Ok
    ensures var c' := CreateJob(c, ns, job, obj, pod, labels, body).0;
            && (c' == c <==> job in Objects(c, ns, JOB))
            && (job !in Objects(c, ns, JOB) ==>
                  c' == Store(c, ns, JOB, job, obj, false).0 && job in Objects(c', ns, JOB))
            && Objects(c', ns, POD) == Objects(c, ns, POD)
  {
    if job !in Objects(c, ns, JOB) {
      StoreNew(c, ns, JOB, job, obj, POD);
    }
  }

  lemma {:induction false} CreateJobEffect(
      c: Cluster, ns: string, job: string, obj: Object, pod: string, labels: map<string, string>, body: string)
    requires CreateJob(c, ns, job, obj, pod, labels, body).1 == Ok
    ensures var c' := CreateJob(c, ns, job, obj, pod, labels, body).0;
            && ns in c'.objects
            && job !in Objects(c, ns, JOB) && pod !in Objects(c, ns, POD)
            && Objects(c', ns, JOB).Keys == Objects(c, ns, JOB).Keys + {job}
            && Objects(c', ns, JOB) - {job} == Objects(c, ns, JOB)
            && Objects(c', ns, POD) - {pod} == Objects(c, ns, POD)
            && JobPods(c', ns, job) == JobPods(c, ns, job) + {pod}
  {
    var c1 := Store(c, ns, JOB, job, obj, false).0;
    var podObject := Object(labels["job-name" := job], 0, body);
    StoreNew(c, ns, JOB, job, obj, POD);
    StoreNew(c1, ns, POD, pod, podObject, JOB);
    var c2 := Store(c1, ns, POD, pod, podObject, false).0;
    SelectedOneMore(Objects(c, ns, POD), Objects(c2, ns, POD), pod, JobSelector(job));
  }

  lemma {:induction false} SelectedOneMore(
      before: map<string, Object>, after: map<string, Object>, pod: string, selector: map<string, string>)
    requires pod !in before && pod in after && after - {pod} == before && CheckLabels(after[pod].labels, selector)
    ensures Selected(after, None, selector) == Selected(before, None, selector) + {pod}
  {}

  lemma {:induction false} StoreNew(c: Cluster, ns: string, key: Key, name: string, obj: Object, other: Key)
    requires Store(c, ns, key, name, obj, false).1 == Ok && other != key
    ensures var c' := Store(c, ns, key, name, obj, false).0;
            && ns in c'.objects
            && name !in Objects(c, ns, key)
            && Objects(c', ns, key).Keys == Objects(c, ns, key).Keys + {name}
            && Objects(c', ns, key) - {name} == Objects(c, ns, key)
            && Objects(c', ns, key)[name].labels == obj.labels
            && Objects(c', ns, other) == Objects(c, ns, other)
  {
    StoreEffect(c, ns, key, name, obj, false);
  }

  /** Creating a job and deleting it again gives back the objects there were if and only
    if no other pod carried the label of the job. */
  lemma {:induction false} CreateThenDeleteJob(
      c: Cluster, ns: string, job: string, obj: Object, pod: string, labels: map<string, string>, body: string,
      pods: seq<string>)
    requires CreateJob(c, ns, job, obj, pod, labels, body).1 == Ok
    requires Lists(pods, JobPods(CreateJob(c, ns, job, obj, pod, labels, body).0, ns, job))
    ensures var (c', status) := DeleteJob(CreateJob(c, ns, job, obj, pod, labels, body).0, ns, job, Foreground, pods);
            && status == Ok
            && Objects(c', ns, JOB) == Objects(c, ns, JOB)
            && (Objects(c', ns, POD) == Objects(c, ns, POD) <==> JobPods(c, ns, job) == {})
  {
    CreateJobEffect(c, ns, job, obj, pod, labels, body);
    var c2 := CreateJob(c, ns, job, obj, pod, labels, body).0;
    DeleteJobEffect(c2, ns, job, Foreground, pods);
    RemoveMore(Objects(c2, ns, POD), pod, JobPods(c, ns, job));
    SubtractNothing(Objects(c, ns, POD), JobPods(c, ns, job));
  }

  lemma RemoveMore(m: map<string, Object>, pod: string, names: set<string>)
    ensures m - (names + {pod}) == (m - {pod}) - names
  {}

  lemma SubtractNothing(m: map<string, Object>, names: set<string>)
    requires names <= m.Keys
    ensures m - names == m <==> names == {}
  {
    if names != {} {
      var x :| x in names;
      assert x in m && x !in m - names;
    } else {
      assert m - names == m;
    }
  }

  // ---- The mock

  class MockKubernetesApi {
    var objects: map<string, map<Key, map<string, Object>>>
    var streams: map<(string, Key), seq<Event>>
    var namespaceStream: seq<Event>

    constructor ()
      ensures State() == Empty()
    {
      objects, streams, namespaceStream := map[], map[], [];
    }

    ghost function State(): Cluster
      reads this
    {
      Cluster(objects, streams, namespaceStream)
    }

    function GetObject(ns: string, key: Key, name: string): (r: Option<Object>)
      reads this
      ensures r == if name in Objects(State(), ns, key) then Some(Objects(State(), ns, key)[name]) else None
    {
      if ns in objects && key in objects[ns] && name in objects[ns][key] then Some(objects[ns][key][name]) else None
    }

    /** The resource version of the next event. */
    function NextVersion(ns: string, key: Key): (v: nat)
      reads this
      ensures v == |Stream(State(), ns, key)| + 1
    {
      if key.NamespaceKey? then |namespaceStream| + 1
      else if (ns, key) in streams then |streams[(ns, key)]| + 1 else 1
    }

    method AddEvent(ns: string, key: Key, e: Event)
      modifies this`streams, this`namespaceStream
      ensures State() == Emit(old(State()), ns, key, e)
    {
      if key.NamespaceKey? {
        namespaceStream := namespaceStream + [e];
      } else {
        var events := if (ns, key) in streams then streams[(ns, key)] else [];
        streams := streams[(ns, key) := events + [e]];
      }
    }

    /** Insert into the nested dictionaries, which are created as needed. */
    method SetObject(ns: string, key: Key, name: string, obj: Object)
      modifies this`objects
      ensures State() == SetObjects(old(State()), ns, key, Objects(old(State()), ns, key)[name := obj])
    {
      var kinds := if ns in objects then objects[ns] else map[];
      var byName := if key in kinds then kinds[key] else map[];
      objects := objects[ns := kinds[key := byName[name := obj]]];
    }

    method StoreObject(ns: string, key: Key, name: string, obj: Object, replace: bool) returns (status: Status)
      modifies this
      ensures (State(), status) == Store(old(State()), ns, key, name, obj, replace)
    {
      var existing := GetObject(ns, key, name);
      if replace && existing.None? {
        return NotFound;
      }
      if !replace && existing.Some? {
        return Conflict;
      }
      var stored := obj.(version := NextVersion(ns, key));
      SetObject(ns, key, name, stored);
      AddEvent(ns, key, Event(if replace then Modified else Added, name, stored));
      return Ok;
    }

    method DeleteObject(ns: string, key: Key, name: string, policyOk: bool) returns (status: Status)
      modifies this
      ensures (State(), status) == Delete(old(State()), ns, key, name, policyOk)
    {
      if !policyOk {
        return AssertionFailed;
      }
      var obj := GetObject(ns, key, name);
      if obj.None? {
        return NotFound;
      }
      objects := objects[ns := objects[ns][key := objects[ns][key] - {name}]];
      AddEvent(ns, key, Event(Deleted, name, obj.value));
      return Ok;
    }

    method NewNamespace(name: string, obj: Object) returns (status: Status)
      modifies this
      ensures (State(), status) == CreateNamespace(old(State()), name, obj)
    {
      if name in objects {
        return Conflict;
      }
      status := StoreObject(name, NamespaceKey, name, obj, false);
    }

    method DropNamespace(name: string) returns (status: Status)
      modifies this
      ensures (State(), status) == DeleteNamespace(old(State()), name)
    {
      if name !in objects {
        return NotFound;
      }
      var own := GetObject(name, NamespaceKey, name);
      if own.Some? {
        AddEvent(name, NamespaceKey, Event(Deleted, name, own.value));
      }
      objects := objects - {name};
      return Ok;
    }

    /** `_list_objects`: the names that match both selectors, in dictionary order. */
    method ListObjects(ns: string, key: Key, name: Option<string>, selector: map<string, string>)
      returns (names: seq<string>)
      requires ns in objects
      ensures Lists(names, Selected(Objects(State(), ns, key), name, selector))
      ensures forall n :: n in names <==> IsSelected(Objects(State(), ns, key), name, selector, n)
    {
      forall n ensures n in Selected(Objects(State(), ns, key), name, selector)
                       <==> IsSelected(Objects(State(), ns, key), name, selector, n) {
        SelectedIff(Objects(State(), ns, key), name, selector, n);
      }
      names := [];
      if key !in objects[ns] {
        return;
      }
      if name.Some? {
        var obj := GetObject(ns, key, name.value);
        if obj.Some? && CheckLabels(obj.value.labels, selector) {
          names := [name.value];
        }
        return;
      }
      var todo := objects[ns][key].Keys;
      while todo != {}
        invariant todo <= objects[ns][key].Keys
        invariant forall i, j :: 0 <= i < j < |names| ==> names[i] != names[j]
        invariant forall n :: n in names <==>
                                n in objects[ns][key] && n !in todo && CheckLabels(objects[ns][key][n].labels, selector)
        decreases |todo|
      {
        var n :| n in todo;
        assert n !in names;
        if CheckLabels(objects[ns][key][n].labels, selector) {
          names := names + [n];
        }
        todo := todo - {n};
      }
    }

    /** What a watch yields before it has to wait. Without a version it starts after the
      most recent event. */
    method Watch(ns: string, key: Key, version: Option<nat>, name: Option<string>, selector: map<string, string>)
      returns (delivered: seq<Event>)
      ensures var events := Stream(State(), ns, key);
              var start := if version.Some? then version.value else |events|;
              delivered == if start <= |events| then Matching(events[start..], name, selector) else []
      ensures var events := Stream(State(), ns, key);
              var start := if version.Some? then version.value else |events|;
              forall e :: e in delivered <==>
                            && start <= |events| && e in events[start..]
                            && (name.Some? ==> e.name == name.value) && selector.Items <= e.obj.labels.Items
    {
      delivered := [];
      var events := if key.NamespaceKey? then namespaceStream
                    else if (ns, key) in streams then streams[(ns, key)] else [];
      var start := if version.Some? then version.value else |events|;
      if start > |events| {
        return;
      }
      ghost var rest := events[start..];
      for i := start to |events|
        invariant delivered == Matching(rest[..i - start], name, selector)
      {
        assert rest[..i + 1 - start][..i - start] == rest[..i - start] && rest[i - start] == events[i];
        if name.Some? && events[i].name != name.value {
          continue;
        }
        if !CheckLabels(events[i].obj.labels, selector) {
          continue;
        }
        delivered := delivered + [events[i]];
      }
      assert rest[..|rest|] == rest;
      forall e ensures e in delivered <==>
                         e in rest && (name.Some? ==> e.name == name.value) && selector.Items <= e.obj.labels.Items {
        MatchingIff(rest, name, selector, e);
      }
    }

    method CreateNamespacedJob(
        ns: string, job: string, obj: Object, pod: string, labels: map<string, string>, body: string)
      returns (status: Status)
      modifies this
      ensures (State(), status) == CreateJob(old(State()), ns, job, obj, pod, labels, body)
    {
      status := StoreObject(ns, JOB, job, obj, false);
      if status != Ok {
        return;
      }
      if labels == map[] {
        return TypeFailed;
      }
      status := StoreObject(ns, POD, pod, Object(labels["job-name" := job], 0, body), false);
    }

    method DeleteNamespacedJob(job: string, ns: string, policy: Policy) returns (status: Status, pods: seq<string>)
      modifies this
      ensures ns in old(objects) ==> Lists(pods, JobPods(old(State()), ns, job))
      ensures ns in old(objects) ==>
                var before := Objects(old(State()), ns, POD);
                forall pod :: pod in pods <==> pod in before && BelongsTo(before[pod], job)
      ensures (State(), status) == DeleteJob(old(State()), ns, job, policy, pods)
    {
      pods := [];
      if ns !in objects {
        return NotFound, [];
      }
      pods := ListObjects(ns, POD, None, JobSelector(job));
      ghost var start := State();
      forall pod ensures pod in JobPods(start, ns, job) <==>
                         pod in Objects(start, ns, POD) && BelongsTo(Objects(start, ns, POD)[pod], job) {
        JobPodsIff(start, ns, job, pod);
      }
      if policy != Orphan {
        for i := 0 to |pods|
          invariant DeletePods(start, ns, pods) == DeletePods(State(), ns, pods[i..])
        {
          var deleted := DeleteObject(ns, POD, pods[i], true);
        }
      }
      status := DeleteObject(ns, JOB, job, policy != Invalid);
    }
  }
}
