/** What labels and names select. */
module KubernetesLabels {
  import opened Wrappers
  import opened KubernetesModel

  /** A selector asks for each of its labels with its value. */
  lemma {:induction false} CheckLabelsIff(labels: map<string, string>, selector: map<string, string>)
    ensures CheckLabels(labels, selector) <==> selector.Items <= labels.Items
  {
    if CheckLabels(labels, selector) {
      forall item | item in selector.Items ensures item in labels.Items {
        assert item.0 in labels && labels[item.0] == item.1;
      }
    } else if selector.Items <= labels.Items {
      forall l | l in selector ensures l in labels && selector[l] == labels[l] {
        assert (l, selector[l]) in labels.Items;
      }
    }
  }

  /** A watch delivers an event if and only if it is in the stream, about the wanted name, and
    its object has all wanted labels with their values. */
  lemma {:induction false} MatchingIff(
      events: seq<Event>, name: Option<string>, selector: map<string, string>, e: Event)
    ensures e in Matching(events, name, selector)
            <==> e in events && (name.Some? ==> e.name == name.value) && selector.Items <= e.obj.labels.Items
    decreases |events|
  {
    if events != [] {
      var front, last := events[..|events| - 1], events[|events| - 1];
      MatchingIff(front, name, selector, e);
      assert events == front + [last];
      CheckLabelsIff(last.obj.labels, selector);
    }
  }

  /** A listed object is in the view of a selector, with its version, if and only if it has all
    wanted labels with their values. */
  lemma {:induction false} ViewIff(c: Cluster, ns: string, kind: string, selector: map<string, string>, name: string)
    ensures var (objects, view) := (Objects(c, ns, Kind(kind)), View(c, ns, kind, selector));
            && (name in view <==> name in objects && selector.Items <= objects[name].labels.Items)
            && (name in view ==> view[name] == objects[name].version)
  {
    var objects := Objects(c, ns, Kind(kind));
    if name in objects {
      CheckLabelsIff(objects[name].labels, selector);
    }
  }

  /** What an object is stored as, and what the watchers hear. */
  lemma {:induction false} StoreSays(
      c: Cluster, ns: string, key: Key, name: string, obj: Object, replace: bool)
    requires replace <==> name in Objects(c, ns, key)
    ensures var (c', status) := Store(c, ns, key, name, obj, replace);
            var stored := Object(obj.labels, |Stream(c, ns, key)| + 1, obj.body);
            && status == Ok
            && Objects(c', ns, key) == Objects(c, ns, key)[name := stored]
            && Stream(c', ns, key) == Stream(c, ns, key) + [Event(if replace then Modified else Added, name, stored)]
            && forall ns', key' :: ns' != ns || key' != key ==>
                 && Objects(c', ns', key') == Objects(c, ns', key')
                 && (!key'.NamespaceKey? || !key.NamespaceKey? ==> Stream(c', ns', key') == Stream(c, ns', key'))
  {}

  lemma {:induction false} DeleteSays(c: Cluster, ns: string, key: Key, name: string)
    requires name in Objects(c, ns, key)
    ensures var (c', status) := Delete(c, ns, key, name, true);
            var objects := Objects(c, ns, key);
            && status == Ok
            && Objects(c', ns, key) == objects - {name}
            && Stream(c', ns, key) == Stream(c, ns, key) + [Event(Deleted, name, objects[name])]
            && forall ns', key' :: ns' != ns || key' != key ==>
                 && Objects(c', ns', key') == Objects(c, ns', key')
                 && (!key'.NamespaceKey? || !key.NamespaceKey? ==> Stream(c', ns', key') == Stream(c, ns', key'))
  {}

  /** When a deletion fails, and how. */
  lemma {:induction false} DeleteFails(c: Cluster, ns: string, key: Key, name: string, policyOk: bool)
    requires !policyOk || name !in Objects(c, ns, key)
    ensures Delete(c, ns, key, name, policyOk) == (c, if policyOk then NotFound else AssertionFailed)
  {}
}
