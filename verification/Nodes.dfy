/** The desired ProxmoxNode object for one ordinal, built from the pod and the inventory line. */
module Nodes {
  import opened Basics
  import opened Text
  import opened CephSpec
  import opened Inventory
  import opened NodeStatus
  import opened NodeHistory

  datatype PodPhase = PodPending | PodRunning | PodSucceeded | PodFailed | PodUnknown

  datatype PodCondition = PodCondition(ctype: string, status: CondStatus)

  datatype Pod = Pod(name: string, phase: PodPhase, ip: string, nodeName: string, conditions: seq<PodCondition>)

  datatype NodeSpec = NodeSpec(clusterRef: string, nodeName: string, ordinal: int)

  datatype NodeObject = NodeObject(
    labels: map<string, string>, annotations: map<string, string>, spec: NodeSpec, owner: string, status: NodeStatus)

  const CLUSTER_LABEL := "multiprox.io/cluster"

  /* ---------------------------------------------------------------- names */

  function NodeName(cluster: string, ordinal: int): string {
    cluster + "-" + Itoa(ordinal)
  }

  /** A decimal ordinal has no '-', so the last one ends the cluster name, whatever that name ends in. */
  lemma NodeNameInjective(a: string, i: nat, b: string, j: nat)
    requires NodeName(a, i) == NodeName(b, j)
    ensures a == b && i == j
  {
    var s := NodeName(a, i);
    DigitsWord(i);
    DigitsWord(j);
    DashAt(a, Digits(i));
    DashAt(b, Digits(j));
    assert |a| == |b|;
    assert a == s[..|a|] == s[..|b|] == b;
    assert Digits(i) == s[|a| + 1..] == s[|b| + 1..] == Digits(j);
    DigitsInjective(i, j);
  }

  lemma DashAt(a: string, d: string)
    requires '-' !in d
    ensures var s := a + "-" + d; s[|a|] == '-' && forall k | |a| < k < |s| :: s[k] != '-'
  {
  }

  /* ---------------------------------------------------------------- phase and conditions */

  predicate PodReady(pod: Option<Pod>) {
    pod.Some? && exists c | c in pod.value.conditions :: c.ctype == "Ready" && c.status == True
  }

  function PhaseOf(pod: Option<Pod>, podReady: bool, inCluster: bool, online: bool): NodePhase {
    if pod.None? || pod.value.phase.PodPending? then NodePending
    else if pod.value.phase.PodFailed? || pod.value.phase.PodSucceeded? then NodePhase.NodeFailed
    else if !podReady then NodeStarting
    else if !inCluster then NodeJoining
    else if !online then NodeOffline
    else NodeReady
  }

  function PodPhaseName(p: PodPhase): string {
    match p
    case PodPending => "Pending"
    case PodRunning => "Running"
    case PodSucceeded => "Succeeded"
    case PodFailed => "Failed"
    case PodUnknown => "Unknown"
  }

  function PodReadyMessage(pod: Option<Pod>, ready: bool): string {
    if pod.None? then "pod does not exist yet"
    else if ready then "pod " + pod.value.name + " is Running and Ready on " + pod.value.nodeName
    else "pod " + pod.value.name + " is " + PodPhaseName(pod.value.phase)
  }

  function ClusterMemberMessage(inCluster: bool, online: bool, nodeID: int): string {
    if !inCluster then "node does not appear in `pvecm nodes`"
    else if !online then "node is a member (nodeid " + Itoa(nodeID) + ") but not currently reachable"
    else "node is an online Corosync member (nodeid " + Itoa(nodeID) + ")"
  }

  function OSDMessage(up: int, expected: int): string {
    Itoa(up) + "/" + Itoa(expected) + " OSDs up on this node"
  }

  function NewCondition(ctype: string, ok: bool, trueReason: string, falseReason: string, message: string,
        now: Time): NodeCondition {
    NodeCondition(ctype, if ok then True else False, if ok then trueReason else falseReason, message, 0, now)
  }

  /* ---------------------------------------------------------------- the object */

  function DevicePath(ceph: CephSpec, i: int): string {
    (if ceph.osdDevicePrefix != "" then ceph.osdDevicePrefix else "/dev/ceph-osd-") + Itoa(i)
  }

  function CephPart(ceph: CephSpec, inv: Option<NodeInventory>): NodeCeph {
    var perNode := OSDsPerNode(ceph);
    var up := if inv.Some? then inv.value.osdsUp else 0;
    NodeCeph(
      inv.Some? && inv.value.monitor,
      inv.Some? && inv.value.manager,
      up,
      if inv.Some? then inv.value.osdsTotal else 0,
      Itoa(up) + "/" + Itoa(perNode),
      seq(perNode, i => DevicePath(ceph, i)))
  }

  function Conditions(spec: ClusterSpec, pod: Option<Pod>, inv: Option<NodeInventory>, now: Time): seq<NodeCondition> {
    var ready := PodReady(pod);
    var id := if inv.Some? then inv.value.nodeID else 0;
    var online := inv.Some? && inv.value.online;
    [NewCondition("PodReady", ready, "PodReady", "PodNotReady", PodReadyMessage(pod, ready), now),
     NewCondition("ClusterMember", id > 0, "IsClusterMember", "NotClusterMember",
         ClusterMemberMessage(id > 0, online, id), now)]
    + if spec.ceph.None? then []
      else
        var expected := OSDsPerNode(spec.ceph.value);
        var up := if inv.Some? then inv.value.osdsUp else 0;
        [NewCondition("CephOSDsUp", up >= expected, "AllOSDsUp", "OSDsNotUp", OSDMessage(up, expected), now)]
  }

  function StatusFor(spec: ClusterSpec, pod: Option<Pod>, inv: Option<NodeInventory>, now: Time): NodeStatus {
    var inCluster := inv.Some? && inv.value.nodeID > 0;
    var online := inv.Some? && inv.value.online;
    NodeStatus(
      PhaseOf(pod, PodReady(pod), inCluster, online),
      Conditions(spec, pod, inv, now),
      inCluster,
      online,
      if inv.Some? then inv.value.nodeID else 0,
      if pod.Some? then pod.value.name else "",
      if pod.Some? then pod.value.ip else "",
      if pod.Some? then pod.value.nodeName else "",
      if spec.ceph.Some? then Some(CephPart(spec.ceph.value, inv)) else None,
      Some(now))
  }

  function Labels(cluster: string, ordinal: int): map<string, string> {
    map[
      "app.kubernetes.io/name" := "proxmox-node",
      "app.kubernetes.io/instance" := cluster,
      "app.kubernetes.io/managed-by" := "multiprox-operator",
      CLUSTER_LABEL := cluster,
      "multiprox.io/ordinal" := Itoa(ordinal)]
  }

  const ANNOTATIONS: map<string, string> :=
    map["multiprox.io/projection" := "observed-state; written by the operator, "
                                     + "edits are overwritten on the next reconcile"]

  /** The controller reference is set right after. */
  function NodeFor(cluster: string, spec: ClusterSpec, ordinal: int, pod: Option<Pod>, inv: Option<NodeInventory>,
        now: Time): NodeObject {
    NodeObject(Labels(cluster, ordinal), ANNOTATIONS, NodeSpec(cluster, NodeName(cluster, ordinal), ordinal), cluster,
               StatusFor(spec, pod, inv, now))
  }

  method LookForReady(pod: Pod) returns (podReady: bool)
    ensures podReady == PodReady(Some(pod))
  {
    podReady := false;
    for i := 0 to |pod.conditions|
      invariant podReady == exists k | 0 <= k < i ::
                  pod.conditions[k].ctype == "Ready" && pod.conditions[k].status == True
    {
      if pod.conditions[i].ctype == "Ready" && pod.conditions[i].status == True {
        podReady := true;
      }
    }
  }

  method CephStatusFor(ceph: CephSpec, inv: Option<NodeInventory>) returns (cs: NodeCeph)
    ensures cs == CephPart(ceph, inv)
  {
    hide Itoa;
    cs := NodeCeph(false, false, 0, 0, "", []);
    if inv.Some? {
      cs := cs.(monitor := inv.value.monitor, manager := inv.value.manager, osdsUp := inv.value.osdsUp,
          osdsTotal := inv.value.osdsTotal);
    }
    var perNode := OSDsPerNode(ceph);
    ghost var start := cs;
    for i := 0 to perNode
      invariant cs == start.(devices := seq(i, k => DevicePath(ceph, k)))
    {
      cs := cs.(devices := cs.devices + [DevicePath(ceph, i)]);
    }
    cs := cs.(osdSummary := Itoa(cs.osdsUp) + "/" + Itoa(perNode));
  }

  method ProxmoxNodeFor(cluster: string, spec: ClusterSpec, ordinal: int, pod: Option<Pod>,
        inv: Option<NodeInventory>, now: Time)
    returns (node: NodeObject)
    ensures node == NodeFor(cluster, spec, ordinal, pod, inv, now)
  {
    hide Itoa, PodReadyMessage, ClusterMemberMessage, OSDMessage, Labels, NodeName, DevicePath, Conditions, CephPart;
    var st := EMPTY_STATUS.(observedAt := Some(now));
    var podReady := false;
    if pod.Some? {
      st := st.(podName := pod.value.name, podIP := pod.value.ip, kubernetesNode := pod.value.nodeName);
      podReady := LookForReady(pod.value);
    }
    if inv.Some? {
      st := st.(inCluster := inv.value.nodeID > 0, online := inv.value.online, corosyncNodeID := inv.value.nodeID);
    }
    if spec.ceph.Some? {
      var cs := CephStatusFor(spec.ceph.value, inv);
      st := st.(ceph := Some(cs));
    }
    st := st.(phase := PhaseOf(pod, podReady, st.inCluster, st.online));
    var conditions := ConditionsFor(spec, pod, podReady, inv, now);
    st := st.(conditions := conditions);
    node := NodeObject(Labels(cluster, ordinal), ANNOTATIONS, NodeSpec(cluster, NodeName(cluster, ordinal), ordinal),
        cluster, st);
  }

  /** Condition after condition. */
  method ConditionsFor(spec: ClusterSpec, pod: Option<Pod>, podReady: bool, inv: Option<NodeInventory>, now: Time)
    returns (cs: seq<NodeCondition>)
    requires podReady == PodReady(pod)
    ensures cs == Conditions(spec, pod, inv, now)
  {
    hide Itoa, PodReady, PodReadyMessage, ClusterMemberMessage, OSDMessage, NewCondition;
    var inCluster, online, id, osdsUp := false, false, 0, 0;
    if inv.Some? {
      inCluster, online, id, osdsUp := inv.value.nodeID > 0, inv.value.online, inv.value.nodeID, inv.value.osdsUp;
    }
    cs := SetNodeCondition([], "PodReady", podReady, "PodReady", "PodNotReady", PodReadyMessage(pod, podReady), now);
    cs := SetNodeCondition(cs, "ClusterMember", inCluster, "IsClusterMember", "NotClusterMember",
                           ClusterMemberMessage(inCluster, online, id), now);
    if spec.ceph.Some? {
      var expected := OSDsPerNode(spec.ceph.value);
      cs := SetNodeCondition(cs, "CephOSDsUp", osdsUp >= expected, "AllOSDsUp", "OSDsNotUp",
          OSDMessage(osdsUp, expected), now);
    }
  }

  method SetNodeCondition(before: seq<NodeCondition>, ctype: string, ok: bool, trueReason: string,
        falseReason: string, message: string, now: Time)
    returns (cs: seq<NodeCondition>)
    ensures cs == before + [NewCondition(ctype, ok, trueReason, falseReason, message, now)]
  {
    var status, reason := True, trueReason;
    if !ok {
      status, reason := False, falseReason;
    }
    cs := before + [NodeCondition(ctype, status, reason, message, 0, now)];
  }

  /* ---------------------------------------------------------------- what it says */

  /** Every status built is an observation with a condition of each type at most once. */
  lemma StatusForObserves(spec: ClusterSpec, pod: Option<Pod>, inv: Option<NodeInventory>, now: Time)
    ensures Observation(Seen(StatusFor(spec, pod, inv, now), now))
  {
    hide Itoa, PodReadyMessage, ClusterMemberMessage, OSDMessage;
  }

  ghost predicate Holds(st: NodeStatus, t: string) {
    t in ByType(st.conditions) && ByType(st.conditions)[t].status == True
  }

  /** Ready, as a node, is exactly: its pod is Ready, in phase Running or in one nobody knows, and Corosync knows it
      and reaches it; and the conditions agree with the phase. */
  lemma NodeReadyMeans(spec: ClusterSpec, pod: Option<Pod>, inv: Option<NodeInventory>, now: Time)
    ensures var st := StatusFor(spec, pod, inv, now);
            && (st.phase == NodeReady <==>
                  && PodReady(pod) && pod.value.phase in {PodRunning, PodUnknown}
                  && inv.Some? && inv.value.nodeID > 0 && inv.value.online)
            && (st.phase == NodeReady ==> Holds(st, "PodReady") && Holds(st, "ClusterMember"))
            && (st.phase in {NodeJoining, NodeOffline, NodeReady} ==> PodReady(pod))
  {
    hide Itoa, PodReadyMessage, ClusterMemberMessage, ByType;
    var st := StatusFor(spec, pod, inv, now);
    StatusForObserves(spec, pod, inv, now);
    ByTypeFinds(st.conditions);
    assert st.conditions[0].ctype == "PodReady" && st.conditions[1].ctype == "ClusterMember";
  }

  /** The clock alone tells nothing new. */
  lemma RetimedFacts(spec: ClusterSpec, pod: Option<Pod>, inv: Option<NodeInventory>, now: Time, later: Time)
    ensures Facts(StatusFor(spec, pod, inv, now)) == Facts(StatusFor(spec, pod, inv, later))
  {
    hide Itoa, PodReadyMessage, ClusterMemberMessage, ByType;
    assert Stripped(Conditions(spec, pod, inv, now)) == Stripped(Conditions(spec, pod, inv, later));
  }
}
