/** The ProxmoxNode objects of a namespace and the pass that projects a cluster onto them: create or
    update one object per node, write only what changed, prune the rest. */
module NodeStore {
  import opened Basics
  import opened CephSpec
  import opened Inventory
  import opened NodeStatus
  import opened NodeHistory
  import opened Nodes

  type Store = map<string, NodeObject>

  /* ---------------------------------------------------------------- one object */

  /** How the requests of one upsert turn out. A get that succeeds is up to date. */
  datatype UpsertEnv = UpsertEnv(get: bool, create: Reply, patch: Reply, update: Reply)

  /** The object afterwards, whether the observation is recorded in it, how many writes were sent, and
      whether the caller sees success. */
  datatype Upserted = Upserted(node: Option<NodeObject>, recorded: bool, writes: nat, ok: bool)

  function Created(desired: NodeObject): NodeObject {
    desired.(status := EMPTY_STATUS)
  }

  function Relabelled(o: NodeObject, desired: NodeObject): NodeObject {
    o.(labels := desired.labels, annotations := desired.annotations)
  }

  /** The status part of an upsert. */
  function UpdateObject(o: NodeObject, desired: NodeObject, e: UpsertEnv, sent: nat): Upserted {
    var m := Merged(o.status, desired.status);
    if !m.changed then Upserted(Some(o), true, sent, true)
    else Upserted(Some(if e.update.TookEffect() then o.(status := m.status) else o), e.update.TookEffect(), sent + 1,
        e.update.Ok())
  }

  function Upsert(stored: Option<NodeObject>, desired: NodeObject, e: UpsertEnv): Upserted {
    if !e.get then Upserted(stored, false, 0, false)
    else
      match stored
      case None =>
        if !e.create.Ok() then Upserted(if e.create.TookEffect() then Some(Created(desired)) else None, false, 1, false)
        else
          var took := e.update.TookEffect();
          Upserted(Some(if took then desired else Created(desired)), took, 2, e.update.Ok())
      case Some(o) =>
        if o.labels == desired.labels && o.annotations == desired.annotations then UpdateObject(o, desired, e, 0)
        else
          var patched := if e.patch.TookEffect() then Relabelled(o, desired) else o;
          if !e.patch.Ok() then Upserted(Some(patched), false, 1, false) else UpdateObject(patched, desired, e, 1)
  }

  /** The object has the desired labels and annotations and tells the desired facts. */
  ghost predicate UpToDate(o: NodeObject, desired: NodeObject) {
    && o.labels == desired.labels && o.annotations == desired.annotations
    && Unique(o.status.conditions) && Facts(o.status) == Facts(desired.status)
  }

  /** Conditions are maps by type, as the schema of the CRD makes them. */
  ghost predicate MapsByType(stored: Option<NodeObject>, desired: NodeObject) {
    Unique(desired.status.conditions) && (stored.Some? ==> Unique(stored.value.status.conditions))
  }

  /** Success means that the object is there and says what is desired. */
  lemma OkUpsert(stored: Option<NodeObject>, desired: NodeObject, e: UpsertEnv)
    requires Upsert(stored, desired, e).ok
    ensures var r := Upsert(stored, desired, e).node;
              r.Some? && (MapsByType(stored, desired) ==> UpToDate(r.value, desired))
  {
    if stored.Some? && MapsByType(stored, desired) {
      ChangedExactly(stored.value.status, desired.status);
    }
    hide Unique, Facts, Merged;
  }

  /* ---------------------------------------------------------------- history */

  /** One observation meeting the store. */
  datatype Upserting = Upserting(desired: NodeObject, at: Time, env: UpsertEnv)

  datatype Tracked = Tracked(node: Option<NodeObject>, history: seq<Seen>)

  /** A sequence of upserts of one object, and the observations that got recorded. */
  function Track(us: seq<Upserting>): Tracked {
    if us == [] then Tracked(None, [])
    else
      var t, u := Track(us[..|us| - 1]), us[|us| - 1];
      var r := Upsert(t.node, u.desired, u.env);
      Tracked(r.node, if r.recorded then t.history + [Seen(u.desired.status, u.at)] else t.history)
  }

  /** The object has the status its history says. */
  ghost predicate Faithful(t: Tracked) {
    if t.history == [] then t.node.Some? ==> t.node.value.status == EMPTY_STATUS
    else t.node.Some? && Describes(t.node.value.status, t.history)
  }

  lemma UpsertFaithful(t: Tracked, u: Upserting)
    requires Faithful(t) && Observation(Seen(u.desired.status, u.at))
    ensures var r := Upsert(t.node, u.desired, u.env);
            Faithful(Tracked(r.node, if r.recorded then t.history + [Seen(u.desired.status, u.at)] else t.history))
  {
    var o := Seen(u.desired.status, u.at);
    hide Observation, Describes, Merged, Facts;
    if t.node.Some? {
      NextDescribes(t.node.value.status, t.history, o);
    } else {
      FirstObservation(o);
      assert [] + [o] == [o];
    }
  }

  /** History refinement: whatever requests fail in whatever way, the stored status is the last recorded
      observation; every condition carries the time its status has lasted since, and the status the
      time it last became new. */
  lemma {:induction false} StoreFollowsHistory(us: seq<Upserting>)
    requires forall u | u in us :: Observation(Seen(u.desired.status, u.at))
    ensures Faithful(Track(us))
  {
    if us != [] {
      var n := |us| - 1;
      assert us[n] in us;
      hide Observation, Faithful;
      StoreFollowsHistory(us[..n]);
      UpsertFaithful(Track(us[..n]), us[n]);
    }
  }

  ghost predicate Clocked(us: seq<Upserting>) {
    forall i, j | 0 <= i <= j < |us| :: us[i].at <= us[j].at
  }

  ghost predicate Rising(h: seq<Seen>, latest: Time) {
    && (forall i, j | 0 <= i <= j < |h| :: h[i].at <= h[j].at)
    && (forall i | 0 <= i < |h| :: h[i].at <= latest)
  }

  lemma {:induction false} HistoryClocked(us: seq<Upserting>, latest: Time)
    requires Clocked(us) && forall i | 0 <= i < |us| :: us[i].at <= latest
    ensures Rising(Track(us).history, latest)
  {
    hide Upsert;
    if us != [] {
      var n := |us| - 1;
      HistoryClocked(us[..n], us[n].at);
    }
  }

  /** With a clock that never runs backwards, no stored condition is younger than the status. */
  lemma StoredTimesOrdered(us: seq<Upserting>, c: string)
    requires Clocked(us) && forall u | u in us :: Observation(Seen(u.desired.status, u.at))
    requires Track(us).history != []
    ensures var st := Track(us).node;
            && st.Some? && st.value.status.observedAt.Some?
            && (c in ByType(st.value.status.conditions) ==>
                  ByType(st.value.status.conditions)[c].lastTransition <= st.value.status.observedAt.value)
  {
    assert us != [];
    hide Track, Facts, Observation;
    StoreFollowsHistory(us);
    HistoryClocked(us, us[|us| - 1].at);
    TransitionsBeforeObservedAt(Track(us).history, c);
  }

  /* ---------------------------------------------------------------- a pass over a cluster's nodes */

  /** Everything outside the operator during one pass. */
  datatype NodesEnv = NodesEnv(
    inventory: Option<string>,    // the output of cluster-inventory.sh, None if the exec failed
    pods: Option<seq<Pod>>,       // the pods of the cluster, None if the list failed
    upsert: int -> UpsertEnv,
    list: bool,                   // the list of the cluster's ProxmoxNodes succeeds
    visible: string -> bool,      // and shows these; the cache may lag
    delete: string -> Reply,
    now: Time)

  /** The last pod of that name. */
  function PodsByName(pods: seq<Pod>): map<string, Pod> {
    if pods == [] then map[] else PodsByName(pods[..|pods| - 1])[pods[|pods| - 1].name := pods[|pods| - 1]]
  }

  function Find<T>(m: map<string, T>, name: string): Option<T> {
    if name in m then Some(m[name]) else None
  }

  function Inventoried(out: Option<string>): map<string, NodeInventory> {
    if out.Some? then InventoryOf(out.value) else map[]
  }

  function Desired(cluster: string, spec: ClusterSpec, i: int, e: NodesEnv): NodeObject
    requires e.pods.Some?
  {
    var name := NodeName(cluster, i);
    NodeFor(cluster, spec, i, Find(PodsByName(e.pods.value), name), Find(Inventoried(e.inventory), name), e.now)
  }

  function With(s: Store, name: string, o: Option<NodeObject>): Store {
    if o.Some? then s[name := o.value] else s - {name}
  }

  datatype Projected = Projected(store: Store, writes: nat)

  /** The upserts of the first n ordinals; one that fails does not stop the others. */
  function UpsertAll(s: Store, cluster: string, spec: ClusterSpec, n: nat, e: NodesEnv): Projected
    requires e.pods.Some?
  {
    if n == 0 then Projected(s, 0)
    else
      var p, name := UpsertAll(s, cluster, spec, n - 1, e), NodeName(cluster, n - 1);
      var r := Upsert(Find(p.store, name), Desired(cluster, spec, n - 1, e), e.upsert(n - 1));
      Projected(With(p.store, name, r.node), p.writes + r.writes)
  }

  predicate Labelled(o: NodeObject, cluster: string) {
    CLUSTER_LABEL in o.labels && o.labels[CLUSTER_LABEL] == cluster
  }

  function DesiredNames(cluster: string, n: int): set<string> {
    if n <= 0 then {} else DesiredNames(cluster, n - 1) + {NodeName(cluster, n - 1)}
  }

  /** What the list of the cluster's objects shows. */
  function Listed(s: Store, cluster: string, e: NodesEnv): set<string> {
    set x | x in s && Labelled(s[x], cluster) && e.visible(x)
  }

  /** What the prune loop is about to delete. */
  function Doomed(s: Store, cluster: string, n: int, e: NodesEnv): set<string> {
    Listed(s, cluster, e) - DesiredNames(cluster, n)
  }

  function Deleted(names: set<string>, e: NodesEnv): set<string> {
    set x | x in names && e.delete(x).TookEffect()
  }

  function Prune(s: Store, cluster: string, n: int, e: NodesEnv): Projected {
    var doomed := Doomed(s, cluster, n, e);
    Projected(WithoutDeleted(s, doomed, e), |doomed|)
  }

  function Project(s: Store, cluster: string, spec: ClusterSpec, e: NodesEnv): Projected {
    if e.pods.None? then Projected(s, 0)
    else
      var p := UpsertAll(s, cluster, spec, Max(spec.nodes, 0), e);
      if !e.list then p
      else
        var q := Prune(p.store, cluster, spec.nodes, e);
        Projected(q.store, p.writes + q.writes)
  }

  /* ---------------------------------------------------------------- the loops */

  class NodeClient {
    var objects: Store
    var writes: nat

    constructor (s: Store)
      ensures objects == s && writes == 0
    {
      objects, writes := s, 0;
    }

    method UpsertNode(name: string, desired: NodeObject, e: UpsertEnv) returns (ok: bool)
      modifies this
      ensures var r := Upsert(Find(old(objects), name), desired, e);
              && objects == With(old(objects), name, r.node)
              && writes == old(writes) + r.writes && ok == r.ok
      ensures ok && MapsByType(Find(old(objects), name), desired) ==>
                name in objects && UpToDate(objects[name], desired)
    {
      hide Upsert, UpToDate, MapsByType;
      ok := SendUpsert(name, desired, e);
      if ok {
        OkUpsert(Find(old(objects), name), desired, e);
      }
    }

    method SendUpsert(name: string, desired: NodeObject, e: UpsertEnv) returns (ok: bool)
      modifies this
      ensures var r := Upsert(Find(old(objects), name), desired, e);
              && objects == With(old(objects), name, r.node)
              && writes == old(writes) + r.writes && ok == r.ok
    {
      hide Merged;
      if !e.get {
        return false;
      }
      if name !in objects {
        writes := writes + 1;
        if e.create.TookEffect() {
          objects := objects[name := desired.(status := EMPTY_STATUS)];
        }
        if !e.create.Ok() {
          return false;
        }
        writes := writes + 1;
        if e.update.TookEffect() {
          objects := objects[name := desired];
        }
        return e.update.Ok();
      }
      var existing := objects[name];
      if existing.labels != desired.labels || existing.annotations != desired.annotations {
        writes := writes + 1;
        existing := existing.(labels := desired.labels, annotations := desired.annotations);
        if e.patch.TookEffect() {
          objects := objects[name := existing];
        }
        if !e.patch.Ok() {
          return false;
        }
      }
      var merged, changed := MergeNodeStatus(existing.status, desired.status);
      if !changed {
        return true;
      }
      writes := writes + 1;
      if e.update.TookEffect() {
        objects := objects[name := existing.(status := merged)];
      }
      return e.update.Ok();
    }

    method ReconcileNodes(cluster: string, spec: ClusterSpec, e: NodesEnv) returns (ok: bool)
      modifies this
      ensures var p := Project(old(objects), cluster, spec, e);
              objects == p.store && writes == old(writes) + p.writes
    {
      hide Upsert, Desired, Labelled, NodeFor, NodeName, PodsByName, With, Prune;
      var inventory: map<string, NodeInventory> := map[];
      if e.inventory.Some? {
        inventory := ParseInventory(e.inventory.value);
      }
      if e.pods.None? {
        return false;
      }
      var podsByName := IndexPods(e.pods.value);
      var ordinal := 0;
      var desired: set<string> := {};
      while ordinal < spec.nodes
        invariant 0 <= ordinal <= Max(spec.nodes, 0)
        invariant desired == DesiredNames(cluster, ordinal)
        invariant var p := UpsertAll(old(objects), cluster, spec, ordinal, e);
                  objects == p.store && writes == old(writes) + p.writes
      {
        var name := NodeName(cluster, ordinal);
        desired := desired + {name};
        var node := ProxmoxNodeFor(cluster, spec, ordinal, Find(podsByName, name), Find(inventory, name), e.now);
        DesiredIs(cluster, spec, ordinal, e, node);
        var upserted := UpsertNode(name, node, e.upsert(ordinal));
        ordinal := ordinal + 1;
      }
      if !e.list {
        return false;
      }
      PruneNodes(cluster, spec.nodes, e, desired);
      return true;
    }

    method PruneNodes(cluster: string, n: int, e: NodesEnv, desired: set<string>)
      requires desired == DesiredNames(cluster, n)
      modifies this
      ensures objects == Prune(old(objects), cluster, n, e).store
      ensures writes == old(writes) + Prune(old(objects), cluster, n, e).writes
    {
      hide DesiredNames, Listed, WithoutDeleted;
      DeleteListed(Listed(objects, cluster, e), desired, e);
    }

    method DeleteListed(existing: set<string>, desired: set<string>, e: NodesEnv)
      modifies this
      ensures objects == WithoutDeleted(old(objects), existing - desired, e)
      ensures writes == old(writes) + |existing - desired|
    {
      hide WithoutDeleted, Pruned;
      var rest := existing;
      NothingDeleted(objects, existing, desired, e);
      while rest != {}
        invariant rest <= existing
        invariant objects == WithoutDeleted(old(objects), Pruned(existing, rest, desired), e)
        invariant writes == old(writes) + |Pruned(existing, rest, desired)|
      {
        var name :| name in rest;
        DeleteOne(old(objects), existing, rest, desired, name, e);
        rest := rest - {name};
        if name in desired {
          continue;
        }
        writes := writes + 1;
        if e.delete(name).TookEffect() {
          objects := objects - {name};
        }
      }
      AllPruned(existing, desired);
    }
  }

  function WithoutDeleted(s: Store, names: set<string>, e: NodesEnv): Store {
    s - Deleted(names, e)
  }

  /** What the loop is through with. */
  ghost function Pruned(existing: set<string>, rest: set<string>, desired: set<string>): set<string> {
    existing - rest - desired
  }

  lemma NothingDeleted(s: Store, existing: set<string>, desired: set<string>, e: NodesEnv)
    ensures WithoutDeleted(s, Pruned(existing, existing, desired), e) == s && |Pruned(existing, existing, desired)| == 0
  {
    assert Pruned(existing, existing, desired) == {};
  }

  lemma AllPruned(existing: set<string>, desired: set<string>)
    ensures Pruned(existing, {}, desired) == existing - desired
  {
  }

  lemma DeleteOne(s: Store, existing: set<string>, rest: set<string>, desired: set<string>, name: string, e: NodesEnv)
    requires name in rest && rest <= existing
    ensures var done, next := Pruned(existing, rest, desired), Pruned(existing, rest - {name}, desired);
            var left := WithoutDeleted(s, done, e);
            && |next| == |done| + (if name in desired then 0 else 1)
            && WithoutDeleted(s, next, e) ==
               if name !in desired && e.delete(name).TookEffect() then left - {name} else left
  {
    var done, next := Pruned(existing, rest, desired), Pruned(existing, rest - {name}, desired);
    assert next == if name in desired then done else done + {name};
  }

  method IndexPods(pods: seq<Pod>) returns (m: map<string, Pod>)
    ensures m == PodsByName(pods)
  {
    m := map[];
    for i := 0 to |pods|
      invariant m == PodsByName(pods[..i])
    {
      assert pods[..i + 1][..i] == pods[..i];
      m := m[pods[i].name := pods[i]];
    }
    assert pods[..|pods|] == pods;
  }

  lemma DesiredIs(cluster: string, spec: ClusterSpec, i: int, e: NodesEnv, node: NodeObject)
    requires e.pods.Some?
    requires var name := NodeName(cluster, i);
             node == NodeFor(cluster, spec, i, Find(PodsByName(e.pods.value), name),
                 Find(Inventoried(e.inventory), name), e.now)
    ensures node == Desired(cluster, spec, i, e)
  {
  }
}
