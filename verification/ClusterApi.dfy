/** The ProxmoxCluster object: its status, its metadata and its conditions. */
module ClusterApi {
  import opened Basics
  import opened CephSpec
  import opened CephStatus

  datatype Phase = Unset | Pending | Initializing | Joining | ConfiguringCeph | Ready | Degraded | Failed

  datatype CondType =
    | StatefulSetReady | ClusterInitialized | AllNodesJoined | QuorumHealthy
    | CephInitialized | CephMonsReady | CephOSDsReady | CephPoolsReady | CephHealthy

  datatype Condition = Condition(status: bool, reason: string, observedGeneration: nat)

  datatype Status = Status(
    phase: Phase,
    conditions: map<CondType, Condition>,
    joinedNodes: int,
    ceph: Option<CephStatus>,
    observedGeneration: nat)

  /** What a freshly created object holds. */
  const NO_STATUS := Status(Unset, map[], 0, None, 0)

  datatype Object = Object(
    generation: nat,
    spec: ClusterSpec,
    finalizers: seq<string>,
    labels: map<string, string>,
    deleting: bool,
    status: Status)

  /** meta.IsStatusConditionTrue. */
  predicate IsTrue(st: Status, c: CondType) {
    c in st.conditions && st.conditions[c].status
  }

  /** setCondition over meta.SetStatusCondition: one condition per type. */
  function SetCondition(st: Status, c: CondType, ok: bool, trueReason: string, falseReason: string,
        generation: nat): Status {
    var reason := if ok then trueReason else falseReason;
    st.(conditions := st.conditions[c := Condition(ok, if reason == "" then "Unknown" else reason, generation)])
  }
}
