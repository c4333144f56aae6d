/** Jobs of the Kubernetes mock and their pods, by the labels that the pods carry. */
module KubernetesJobs {
  import opened Wrappers
  import opened KubernetesModel
  import opened Kubernetes

  /** Whether a pod is left, after the deletion of a job: always if the pods are orphaned, and
    otherwise exactly if it belongs to another job or to none. What is left is as it was. */
  lemma {:induction false} PodLeft(
      c: Cluster, ns: string, job: string, policy: Policy, pods: seq<string>, pod: string)
    requires ns in c.objects && Lists(pods, JobPods(c, ns, job))
    ensures var (before, after) := (Objects(c, ns, POD), Objects(DeleteJob(c, ns, job, policy, pods).0, ns, POD));
            && (pod in after <==> pod in before && (policy == Orphan || !BelongsTo(before[pod], job)))
            && (pod in after ==> after[pod] == before[pod])
  {
    JobPodsIff(c, ns, job, pod);
    DeletePodsEffect(c, ns, pods, JobPods(c, ns, job));
    var c1 := if policy == Orphan then c else DeletePods(c, ns, pods);
    JobDeletionKeepsPods(c1, ns, job, policy != Invalid);
  }

  lemma {:induction false} JobDeletionKeepsPods(c: Cluster, ns: string, job: string, policyOk: bool)
    ensures var c' := Delete(c, ns, JOB, job, policyOk).0;
            Objects(c', ns, POD) == Objects(c, ns, POD) && Stream(c', ns, POD) == Stream(c, ns, POD)
  {}

  /** The events that watchers of the pods hear: none if the pods are orphaned, and otherwise
    one deletion for each pod of the job. */
  lemma {:induction false} PodEvents(c: Cluster, ns: string, job: string, policy: Policy, pods: seq<string>)
    requires ns in c.objects && Lists(pods, JobPods(c, ns, job))
    ensures forall i :: 0 <= i < |pods| ==> pods[i] in Objects(c, ns, POD)
    ensures Stream(DeleteJob(c, ns, job, policy, pods).0, ns, POD) ==
            Stream(c, ns, POD) + if policy == Orphan then [] else Deletions(pods, Objects(c, ns, POD))
  {
    DeletePodsEffect(c, ns, pods, JobPods(c, ns, job));
    JobDeletionKeepsPods(if policy == Orphan then c else DeletePods(c, ns, pods), ns, job, policy != Invalid);
  }

  /** Other jobs stay, and this one goes exactly if the policy is valid. */
  lemma {:induction false} JobsLeft(c: Cluster, ns: string, job: string, policy: Policy, pods: seq<string>)
    requires Lists(pods, JobPods(c, ns, job)) && ns in c.objects
    ensures Objects(DeleteJob(c, ns, job, policy, pods).0, ns, JOB) ==
            if policy == Invalid then Objects(c, ns, JOB) else Objects(c, ns, JOB) - {job}
  {
    DeletePodsEffect(c, ns, pods, JobPods(c, ns, job));
    var c1 := if policy == Orphan then c else DeletePods(c, ns, pods);
    assert Objects(c1, ns, JOB) == Objects(c, ns, JOB);
    if job !in Objects(c, ns, JOB) {
      assert Objects(c, ns, JOB) - {job} == Objects(c, ns, JOB);
    }
  }

  /** A job that is created comes with a pod that has the labels of the template and the name
    of the job in one more; both are announced. */
  lemma {:induction false} CreatedWithPod(
      c: Cluster, ns: string, job: string, obj: Object, pod: string, labels: map<string, string>, body: string)
    requires CreateJob(c, ns, job, obj, pod, labels, body).1 == Ok
    ensures var c' := CreateJob(c, ns, job, obj, pod, labels, body).0;
            var stored := Object(obj.labels, |Stream(c, ns, JOB)| + 1, obj.body);
            var podStored := Object(labels["job-name" := job], |Stream(c, ns, POD)| + 1, body);
            && Objects(c', ns, JOB) == Objects(c, ns, JOB)[job := stored]
            && Objects(c', ns, POD) == Objects(c, ns, POD)[pod := podStored]
            && Stream(c', ns, JOB) == Stream(c, ns, JOB) + [Event(Added, job, stored)]
            && Stream(c', ns, POD) == Stream(c, ns, POD) + [Event(Added, pod, podStored)]
            && BelongsTo(podStored, job)
  {
    var c1 := Store(c, ns, JOB, job, obj, false).0;
    NewObject(c, ns, JOB, job, obj, POD);
    NewObject(c1, ns, POD, pod, Object(labels["job-name" := job], 0, body), JOB);
  }

  lemma {:induction false} NewObject(
      c: Cluster, ns: string, key: Key, name: string, obj: Object, other: Key)
    requires Store(c, ns, key, name, obj, false).1 == Ok && other != key && !other.NamespaceKey? && !key.NamespaceKey?
    ensures var c' := Store(c, ns, key, name, obj, false).0;
            var stored := Object(obj.labels, |Stream(c, ns, key)| + 1, obj.body);
            && Objects(c', ns, key) == Objects(c, ns, key)[name := stored]
            && Stream(c', ns, key) == Stream(c, ns, key) + [Event(Added, name, stored)]
            && Objects(c', ns, other) == Objects(c, ns, other) && Stream(c', ns, other) == Stream(c, ns, other)
  {}
}
