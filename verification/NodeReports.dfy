/** What the projected objects tell a user, in terms of the pods that are listed and the lines that
    cluster-inventory.sh prints. */
module NodeReports {
  import opened Basics
  import opened Text
  import opened CephSpec
  import opened Inventory
  import opened NodeStatus
  import opened NodeHistory
  import opened Nodes
  import opened NodeStore
  import opened NodePasses

  /* ---------------------------------------------------------------- what is there to tell */

  /** The one pod of this name that is listed, if any. */
  ghost predicate ListedPod(pods: seq<Pod>, name: string, pod: Option<Pod>) {
    match pod
    case None => forall p | p in pods :: p.name != name
    case Some(q) => q in pods && q.name == name && forall p | p in pods && p.name == name :: p == q
  }

  /** The lines of the script: records of different nodes amid other text. */
  ghost predicate Lines(ls: seq<Line>) {
    && (forall k | 0 <= k < |ls| :: Readable(ls[k]))
    && (forall j, k | 0 <= j < k < |ls| && ls[j].Record? && ls[k].Record? :: ls[j].node.name != ls[k].node.name)
  }

  /** The record printed for this node, if any. */
  ghost predicate RecordFor(ls: seq<Line>, name: string, r: Option<NodeInventory>) {
    match r
    case None => forall n | Record(n) in ls :: n.name != name
    case Some(n) => Record(n) in ls && n.name == name
  }

  /** What is known of this node: nothing if the script failed. */
  ghost predicate Known(out: Option<string>, name: string, r: Option<NodeInventory>) {
    match out
    case None => r.None?
    case Some(text) => exists ls :: Lines(ls) && text == Join(Texts(ls), '\n') && RecordFor(ls, name, r)
  }

  /* ---------------------------------------------------------------- what a status tells */

  /** The condition of this type has this truth value and reason. */
  ghost predicate Shows(st: NodeStatus, t: string, ok: bool, reason: string) {
    var cs := ByType(st.conditions);
    t in cs && cs[t].status == (if ok then True else False) && cs[t].reason == reason
  }

  ghost predicate TellsPod(st: NodeStatus, pod: Option<Pod>) {
    var ready := pod.Some? && exists c | c in pod.value.conditions :: c.ctype == "Ready" && c.status == True;
    && (pod.None? ==> st.podName == "" && st.podIP == "" && st.kubernetesNode == "")
    && (pod.Some? ==>
          st.podName == pod.value.name && st.podIP == pod.value.ip && st.kubernetesNode == pod.value.nodeName)
    && Shows(st, "PodReady", ready, if ready then "PodReady" else "PodNotReady")
  }

  ghost predicate TellsMembership(st: NodeStatus, r: Option<NodeInventory>) {
    var member := r.Some? && r.value.nodeID > 0;
    && st.inCluster == member
    && st.online == (r.Some? && r.value.online)
    && st.corosyncNodeID == (if r.Some? then r.value.nodeID else 0)
    && Shows(st, "ClusterMember", member, if member then "IsClusterMember" else "NotClusterMember")
  }

  ghost predicate TellsPhase(st: NodeStatus, pod: Option<Pod>, r: Option<NodeInventory>) {
    var ready := pod.Some? && exists c | c in pod.value.conditions :: c.ctype == "Ready" && c.status == True;
    var up := pod.Some? && pod.value.phase in {PodRunning, PodUnknown};
    && (st.phase == NodePending <==> pod.None? || pod.value.phase == PodPending)
    && (st.phase == NodePhase.NodeFailed <==> pod.Some? && pod.value.phase in {PodFailed, PodSucceeded})
    && (st.phase == NodeStarting <==> up && !ready)
    && (st.phase == NodeJoining <==> up && ready && !(r.Some? && r.value.nodeID > 0))
    && (st.phase == NodeOffline <==> up && ready && r.Some? && r.value.nodeID > 0 && !r.value.online)
    && (st.phase == NodeReady <==> up && ready && r.Some? && r.value.nodeID > 0 && r.value.online)
  }

  ghost predicate TellsCeph(st: NodeStatus, ceph: Option<CephSpec>, r: Option<NodeInventory>) {
    match ceph
    case None => st.ceph.None? && "CephOSDsUp" !in ByType(st.conditions)
    case Some(c) =>
      var expected := if c.osdsPerNode >= 1 then c.osdsPerNode else 1;
      var up := if r.Some? then r.value.osdsUp else 0;
      && st.ceph.Some?
      && st.ceph.value.monitor == (r.Some? && r.value.monitor)
      && st.ceph.value.manager == (r.Some? && r.value.manager)
      && st.ceph.value.osdsUp == up
      && st.ceph.value.osdsTotal == (if r.Some? then r.value.osdsTotal else 0)
      && st.ceph.value.osdSummary == Itoa(up) + "/" + Itoa(expected)
      && |st.ceph.value.devices| == expected
      && (forall k | 0 <= k < expected :: st.ceph.value.devices[k]
            == (if c.osdDevicePrefix == "" then "/dev/ceph-osd-" else c.osdDevicePrefix) + Itoa(k))
      && Shows(st, "CephOSDsUp", up >= expected, if up >= expected then "AllOSDsUp" else "OSDsNotUp")
  }

  /** The status of a node tells of this pod and this record, and of nothing else. */
  ghost predicate Tells(st: NodeStatus, ceph: Option<CephSpec>, pod: Option<Pod>, r: Option<NodeInventory>) {
    TellsPod(st, pod) && TellsMembership(st, r) && TellsPhase(st, pod, r) && TellsCeph(st, ceph, r)
  }

  /* ---------------------------------------------------------------- proofs */

  lemma {:induction false} ListedIsFound(pods: seq<Pod>, name: string, pod: Option<Pod>)
    requires ListedPod(pods, name, pod)
    ensures NodeStore.Find(PodsByName(pods), name) == pod
  {
    if pods != [] {
      var n := |pods| - 1;
      assert pods == pods[..n] + [pods[n]];
      if pods[n].name != name {
        ListedIsFound(pods[..n], name, pod);
      }
    }
  }

  lemma KnownIsFound(out: Option<string>, name: string, r: Option<NodeInventory>)
    requires Known(out, name, r)
    ensures NodeStore.Find(Inventoried(out), name) == r
  {
    if out.Some? {
      hide Readable, InventoryOf, Join, Texts, Printed;
      var ls :| Lines(ls) && out.value == Join(Texts(ls), '\n') && RecordFor(ls, name, r);
      InventoryRoundTrip(ls);
      PrintedExactly(ls);
      var inv := Printed(ls);
      if name in inv {
        assert Record(inv[name]) in ls && inv[name].name == name;
      }
    }
  }

  /** The k-th condition built is the one of its type. */
  lemma BuiltShows(spec: ClusterSpec, pod: Option<Pod>, r: Option<NodeInventory>, now: Time, k: nat)
    requires k < |StatusFor(spec, pod, r, now).conditions|
    ensures var st := StatusFor(spec, pod, r, now);
            Shows(st, st.conditions[k].ctype, st.conditions[k].status == True, st.conditions[k].reason)
  {
    StatusForObserves(spec, pod, r, now);
    ByTypeFinds(StatusFor(spec, pod, r, now).conditions);
    hide Itoa, PodReadyMessage, ClusterMemberMessage, OSDMessage, ByType;
  }

  lemma BuiltPod(spec: ClusterSpec, pod: Option<Pod>, r: Option<NodeInventory>, now: Time)
    ensures TellsPod(StatusFor(spec, pod, r, now), pod)
  {
    hide Itoa, PodReadyMessage, ClusterMemberMessage, OSDMessage, Shows, CephPart, PhaseOf;
    BuiltShows(spec, pod, r, now, 0);
  }

  lemma BuiltMembership(spec: ClusterSpec, pod: Option<Pod>, r: Option<NodeInventory>, now: Time)
    ensures TellsMembership(StatusFor(spec, pod, r, now), r)
  {
    hide Itoa, PodReadyMessage, ClusterMemberMessage, OSDMessage, Shows, CephPart, PhaseOf;
    BuiltShows(spec, pod, r, now, 1);
  }

  lemma BuiltPhase(spec: ClusterSpec, pod: Option<Pod>, r: Option<NodeInventory>, now: Time)
    ensures TellsPhase(StatusFor(spec, pod, r, now), pod, r)
  {
    hide Conditions, CephPart;
  }

  lemma BuiltCeph(spec: ClusterSpec, pod: Option<Pod>, r: Option<NodeInventory>, now: Time)
    ensures TellsCeph(StatusFor(spec, pod, r, now), spec.ceph, r)
  {
    hide Itoa, PodReadyMessage, ClusterMemberMessage, OSDMessage, PhaseOf;
    if spec.ceph.Some? {
      BuiltShows(spec, pod, r, now, 2);
      hide Shows;
    } else {
      NoCephShown(spec, pod, r, now);
    }
  }

  lemma NoCephShown(spec: ClusterSpec, pod: Option<Pod>, r: Option<NodeInventory>, now: Time)
    requires spec.ceph.None?
    ensures "CephOSDsUp" !in ByType(StatusFor(spec, pod, r, now).conditions)
  {
    ByTypeFinds(StatusFor(spec, pod, r, now).conditions);
    hide Itoa, PodReadyMessage, ClusterMemberMessage, ByType, PhaseOf;
  }

  lemma BuiltTells(spec: ClusterSpec, pod: Option<Pod>, r: Option<NodeInventory>, now: Time)
    ensures Tells(StatusFor(spec, pod, r, now), spec.ceph, pod, r)
  {
    hide StatusFor, TellsPod, TellsMembership, TellsPhase, TellsCeph;
    BuiltPod(spec, pod, r, now);
    BuiltMembership(spec, pod, r, now);
    BuiltPhase(spec, pod, r, now);
    BuiltCeph(spec, pod, r, now);
  }

  lemma SameFactsShow(a: NodeStatus, b: NodeStatus, t: string)
    requires Facts(a) == Facts(b)
    ensures t in ByType(a.conditions) <==> t in ByType(b.conditions)
    ensures forall ok, reason :: Shows(a, t, ok, reason) <==> Shows(b, t, ok, reason)
  {
    hide ByType, Facts;
    SameFactsByType(a, b);
    if t in ByType(a.conditions) {
      assert Timeless(ByType(a.conditions)[t]) == Timeless(ByType(b.conditions)[t]);
    }
  }

  /** Nothing that is told depends on more than these. */
  lemma TellsAlike(a: NodeStatus, b: NodeStatus, pod: Option<Pod>, r: Option<NodeInventory>)
    requires a.(conditions := [], observedAt := None) == b.(conditions := [], observedAt := None)
    requires forall ok, reason :: Shows(a, "PodReady", ok, reason) <==> Shows(b, "PodReady", ok, reason)
    requires forall ok, reason :: Shows(a, "ClusterMember", ok, reason) <==> Shows(b, "ClusterMember", ok, reason)
    requires TellsPod(b, pod) && TellsMembership(b, r) && TellsPhase(b, pod, r)
    ensures TellsPod(a, pod) && TellsMembership(a, r) && TellsPhase(a, pod, r)
  {
    hide Shows;
  }

  lemma TellsCephAlike(a: NodeStatus, b: NodeStatus, ceph: Option<CephSpec>, r: Option<NodeInventory>)
    requires a.ceph == b.ceph && TellsCeph(b, ceph, r)
    requires forall ok, reason :: Shows(a, "CephOSDsUp", ok, reason) <==> Shows(b, "CephOSDsUp", ok, reason)
    requires "CephOSDsUp" in ByType(a.conditions) <==> "CephOSDsUp" in ByType(b.conditions)
    ensures TellsCeph(a, ceph, r)
  {
    hide Shows, ByType, Itoa;
  }

  lemma SameFactsTell(a: NodeStatus, b: NodeStatus, ceph: Option<CephSpec>, pod: Option<Pod>, r: Option<NodeInventory>)
    requires Facts(a) == Facts(b) && Tells(b, ceph, pod, r)
    ensures Tells(a, ceph, pod, r)
  {
    hide ByType, Facts, Shows, TellsPod, TellsMembership, TellsPhase, TellsCeph;
    SameRest(a, b);
    SameFactsShow(a, b, "PodReady");
    SameFactsShow(a, b, "ClusterMember");
    SameFactsShow(a, b, "CephOSDsUp");
    TellsAlike(a, b, pod, r);
    TellsCephAlike(a, b, ceph, r);
  }

  /* ---------------------------------------------------------------- a clean pass */

  /** Labels by which the object of node i of a cluster is found. */
  ghost predicate CarriesLabels(labels: map<string, string>, cluster: string, i: nat) {
    labels == map[
      "app.kubernetes.io/name" := "proxmox-node",
      "app.kubernetes.io/instance" := cluster,
      "app.kubernetes.io/managed-by" := "multiprox-operator",
      "multiprox.io/cluster" := cluster,
      "multiprox.io/ordinal" := Digits(i)]
  }

  lemma UpToDateTells(o: NodeObject, cluster: string, spec: ClusterSpec, i: nat, e: NodesEnv, pod: Option<Pod>,
                      r: Option<NodeInventory>)
    requires e.pods.Some? && UpToDate(o, Desired(cluster, spec, i, e))
    requires ListedPod(e.pods.value, NodeName(cluster, i), pod) && Known(e.inventory, NodeName(cluster, i), r)
    ensures Tells(o.status, spec.ceph, pod, r) && CarriesLabels(o.labels, cluster, i)
  {
    hide NodeName, StatusFor, Tells, ListedPod, Known, Facts, Digits, PodsByName, Inventoried;
    ListedIsFound(e.pods.value, NodeName(cluster, i), pod);
    KnownIsFound(e.inventory, NodeName(cluster, i), r);
    BuiltTells(spec, pod, r, e.now);
    SameFactsTell(o.status, Desired(cluster, spec, i, e).status, spec.ceph, pod, r);
  }

  /** After a clean pass there is, from whatever store it started, an object for every ordinal that is named after
      cluster and ordinal and tells exactly of the pod of that name and of the record printed for it. */
  lemma CleanPassTells(s: Store, cluster: string, spec: ClusterSpec, e: NodesEnv, i: nat, pod: Option<Pod>,
                       r: Option<NodeInventory>)
    requires Clean(e) && WellFormed(s) && i < spec.nodes
    requires ListedPod(e.pods.value, cluster + "-" + Digits(i), pod) && Known(e.inventory, cluster + "-" + Digits(i), r)
    ensures var x, t := cluster + "-" + Digits(i), Project(s, cluster, spec, e).store;
            && x in t
            && Tells(t[x].status, spec.ceph, pod, r) && CarriesLabels(t[x].labels, cluster, i)
            && (x !in s ==> t[x].spec == NodeSpec(cluster, x, i) && t[x].owner == cluster)
  {
    assert NodeName(cluster, i) == cluster + "-" + Digits(i);
    hide NodeName, Project, Desired, Tells, UpToDate, Digits, ListedPod, Known, WellFormed;
    ConvergesAt(s, cluster, spec, e, i);
    UpToDateTells(Project(s, cluster, spec, e).store[NodeName(cluster, i)], cluster, spec, i, e, pod, r);
    if NodeName(cluster, i) !in s {
      ProjectOwn(s, cluster, spec, e, i);
      CreatedWhole(Desired(cluster, spec, i, e), e.upsert(i));
      DesiredIdentity(cluster, spec, i, e);
    }
  }

  lemma CreatedWhole(desired: NodeObject, e: UpsertEnv)
    requires AllGood(e)
    ensures Upsert(None, desired, e).node == Some(desired)
  {
  }

  lemma DesiredIdentity(cluster: string, spec: ClusterSpec, i: nat, e: NodesEnv)
    requires e.pods.Some?
    ensures var o := Desired(cluster, spec, i, e);
            o.spec == NodeSpec(cluster, NodeName(cluster, i), i) && o.owner == cluster
  {
    hide NodeName, StatusFor;
  }
}
