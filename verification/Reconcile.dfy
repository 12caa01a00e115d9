/** One pass of the reconciler as a step of the whole system: the API server's object, the Proxmox
    cluster and the Ceph cluster, under every answer the surroundings can give. */
module Reconcile {
  import opened Basics
  import opened CephSpec
  import opened CephStatus
  import opened CephScripts
  import opened ClusterApi
  import opened ApiServer

  const FINALIZER := "proxmox.multiprox.io/finalizer"

  /** Which pods are Proxmox cluster members, how often `pvecm create` took effect, and Ceph. */
  datatype World = World(members: set<int>, creates: nat, ceph: CephWorld)

  datatype System = System(server: Server, world: World)

  /** The spec the scripts mounted in pod 0 were rendered from: that of the pass, or of some stored version
      when the kubelet has not refreshed the volume yet. */
  datatype Mount = Current | Rendered(version: nat)

  datatype StsView = StsGetFailed | StsNotVisible | StsSeen(readyReplicas: int)

  /** Everything the surroundings decide during one pass. A crash is a rejected or lost write. */
  datatype Env = Env(
    before: seq<Edit>,          // others' writes since the last pass
    get: Get,                   // the first read, through the cache
    finalizer: nat -> Attempt,
    resourcesOk: bool,          // services, ConfigMap and StatefulSet are in place
    sts: StsView,
    first: nat -> Attempt,      // the status write at the start of a stage
    second: nat -> Attempt,     // the status write at its end
    init: Exec,
    join: int -> Exec,
    blocks: set<(int, int)>,
    osdsPerNode: map<int, int>,
    mount: Mount,
    ceph: nat -> Exec,
    cephStatus: Option<string>) // the output of ceph-status.sh, None if the exec failed

  /** The pass's own copy of the object. */
  datatype Local = Local(spec: ClusterSpec, generation: nat, status: Status)

  /* ---------------------------------------------------------------- Proxmox scripts */

  datatype Executed = Executed(world: World, ok: bool)

  /** cluster-init.sh on pod 0: nothing to do once pvecm knows a cluster. */
  function ClusterInit(w: World, e: Exec): Executed {
    if !e.starts then Executed(w, false)
    else if 0 in w.members then Executed(w, e.answers)
    else
      Executed(if e.call(0).TookEffect() then w.(members := w.members + {0}, creates := w.creates + 1) else w,
               e.call(0).Ok() && e.answers)
  }

  /** cluster-join.sh on pod i: pvecm add needs a cluster on pod 0. */
  function ClusterJoin(w: World, i: int, e: Exec): Executed {
    if !e.starts then Executed(w, false)
    else if i in w.members then Executed(w, e.answers)
    else if 0 !in w.members then Executed(w, false)
    else
      Executed(if e.call(0).TookEffect() then w.(members := w.members + {i}) else w, e.call(0).Ok() && e.answers)
  }

  /** The join loop over ordinals 1..n-1: the world and the running counter it leaves. */
  datatype Joins = Joins(world: World, joined: int)

  function JoinAll(w: World, n: int, env: int -> Exec): (r: Joins)
    requires n >= 1
    ensures 1 <= r.joined <= n
  {
    if n == 1 then Joins(w, 1)
    else
      var r := JoinAll(w, n - 1, env);
      if r.joined < n - 1 then r
      else
        var x := ClusterJoin(r.world, n - 1, env(n - 1));
        Joins(x.world, if x.ok then n else n - 1)
  }

  /* ---------------------------------------------------------------- the pass */

  /** updateStatus: the system and the local copy it leaves, and whether it succeeded. */
  datatype Put = Put(sys: System, local: Local, ok: bool)

  function UpdateStatus(sys: System, c: Local, phase: Phase, env: nat -> Attempt): Put
    requires Stored(sys.server)
  {
    var st := c.status.(phase := phase, observedGeneration := c.generation);
    var r := Call(sys.server, PutStatus(st), env);
    Put(sys.(server := r.server), c.(status := st), r.verdict.Done?)
  }

  function Set(c: Local, t: CondType, ok: bool, trueReason: string, falseReason: string): Local {
    c.(status := SetCondition(c.status, t, ok, trueReason, falseReason, c.generation))
  }

  function StepCondition(step: CephStep): CondType {
    match step
    case StepInit => CephInitialized
    case StepMon => CephMonsReady
    case StepMgr => CephMonsReady
    case StepOSD => CephOSDsReady
    case StepPool => CephPoolsReady
    case StepStatus => CephHealthy
  }

  function StepFailed(step: CephStep): string {
    match step
    case StepInit => "initFailed"
    case StepMon => "monFailed"
    case StepMgr => "mgrFailed"
    case StepOSD => "osdFailed"
    case StepPool => "poolFailed"
    case StepStatus => "statusFailed"
  }

  function ReadyStage(sys: System, c: Local, env: nat -> Attempt): System
    requires Stored(sys.server)
  {
    UpdateStatus(sys, Set(c, QuorumHealthy, true, "QuorumOK", ""), Ready, env).sys
  }

  function InitStage(sys: System, c: Local, e: Env): System
    requires Stored(sys.server)
  {
    var p := UpdateStatus(sys, c, Initializing, e.first);
    if !p.ok then p.sys
    else
      var x := ClusterInit(sys.world, e.init);
      var after := p.sys.(world := x.world);
      if !x.ok then
        UpdateStatus(after, Set(p.local, ClusterInitialized, false, "", "InitFailed"), Failed, e.second).sys
      else
        var c2 := Set(p.local, ClusterInitialized, true, "ClusterCreated", "");
        UpdateStatus(after, c2.(status := c2.status.(joinedNodes := 1)), Joining, e.second).sys
  }

  function Joined(c: Local, joined: int): Local {
    c.(status := c.status.(joinedNodes := joined))
  }

  function JoinStage(sys: System, c: Local, e: Env): System
    requires Stored(sys.server) && c.spec.nodes >= 1
  {
    var p := UpdateStatus(sys, c, Joining, e.first);
    if !p.ok then p.sys
    else
      var r := JoinAll(sys.world, c.spec.nodes, e.join);
      var after, c2 := p.sys.(world := r.world), Joined(p.local, r.joined);
      if r.joined < c.spec.nodes then UpdateStatus(after, c2, Joining, e.second).sys
      else
        var c3 := Set(Set(c2, AllNodesJoined, true, "AllNodesJoined", ""), QuorumHealthy, true, "QuorumOK", "");
        UpdateStatus(after, c3, Joining, e.second).sys
  }

  function PlanDone(c: Local): Local {
    Set(Set(Set(c, CephInitialized, true, "CephInitialized", ""), CephMonsReady, true, "MonsCreated", ""),
        CephPoolsReady, true, "PoolsCreated", "")
  }

  function Polled(c: Local, st: CephStatus): Local {
    var c1 := c.(status := c.status.(ceph := Some(st)));
    var c2 := Set(c1, CephOSDsReady, st.osdsReady >= st.osdsExpected, "AllOSDsUp", "OSDsNotReady");
    Set(c2, CephHealthy, CephUsable(st), "CephUsable", "CephNotUsable")
  }

  /** The spec behind the mounted scripts. Validation comes first, so no other spec is ever rendered than those that
      passed it. */
  function MountedSpec(versions: seq<Object>, mount: Mount, spec: ClusterSpec): ClusterSpec {
    if mount.Rendered? && mount.version < |versions| && Admissible(versions[mount.version].spec) then
      versions[mount.version].spec
    else
      spec
  }

  /** What an execution of the plan finds. */
  function SiteOf(sys: System, c: Local, e: Env): Site {
    Site(e.blocks, e.osdsPerNode, sys.world.members, MountedSpec(sys.server.versions, e.mount, c.spec))
  }

  function CephStage(sys: System, c: Local, e: Env): System
    requires Stored(sys.server) && c.spec.ceph.Some?
  {
    var p := UpdateStatus(sys, c, ConfiguringCeph, e.first);
    if !p.ok then p.sys
    else
      var walk := Execute(sys.world.ceph, SiteOf(p.sys, c, e), c.spec, e.ceph);
      var after := p.sys.(world := sys.world.(ceph := walk.world));
      if walk.done < |Plan(c.spec)| then
        var step := Plan(c.spec)[walk.done].step;
        UpdateStatus(after, Set(p.local, StepCondition(step), false, "", StepFailed(step)), ConfiguringCeph,
            e.second).sys
      else if e.cephStatus.None? then after
      else
        var st := StatusOf(c.spec, e.cephStatus.value);
        var c2 := Polled(PlanDone(p.local), st);
        if !CephUsable(st) then UpdateStatus(after, c2, ConfiguringCeph, e.second).sys
        else ReadyStage(after, c2, e.second)
  }

  function Stages(sys: System, c: Local, e: Env): System
    requires Stored(sys.server) && c.spec.nodes >= 1
  {
    if !IsTrue(c.status, ClusterInitialized) then InitStage(sys, c, e)
    else if !IsTrue(c.status, AllNodesJoined) then JoinStage(sys, c, e)
    else if c.spec.ceph.Some? then CephStage(sys, c, e)
    else ReadyStage(sys, c, e.second)
  }

  /** From the validation of the Ceph spec on. */
  function Converge(sys: System, c: Local, e: Env): System
    requires Stored(sys.server) && c.spec.nodes >= 1
  {
    if !Admissible(c.spec) then
      UpdateStatus(sys, Set(c, CephInitialized, false, "", "InvalidCephSpec"), Failed, e.first).sys
    else if !e.resourcesOk then sys
    else
      match e.sts
      case StsGetFailed => sys
      case StsNotVisible => UpdateStatus(sys, c, Pending, e.first).sys
      case StsSeen(n) =>
        var ready := n == c.spec.nodes;
        var c1 := Set(c, StatefulSetReady, ready, "AllPodsReady", "NotAllPodsReady");
        if !ready then UpdateStatus(sys, c1, Pending, e.first).sys
        else Stages(sys, c1, e)
  }

  /** The object a pass starts from, None if the read fails or the object is gone. */
  function FirstRead(s: Server, get: Get): Option<Object>
    requires Stored(s)
  {
    if get.GetFailed? || VersionRead(s, get).None? then None
    else Some(s.versions[VersionRead(s, get).value])
  }

  /** Finalizers first; None if the pass ends here. */
  function Admit(s: Server, o: Object, env: nat -> Attempt): (Server, bool)
    requires Stored(s)
  {
    if o.deleting then (Call(s, RemoveFinalizer(FINALIZER), env).server, false)
    else if FINALIZER in o.finalizers then (s, true)
    else
      var r := Call(s, AddFinalizer(FINALIZER), env);
      (r.server, r.verdict.Done?)
  }

  function Pass(sys: System, e: Env): System
    requires Consistent(sys.server)
  {
    EditsExtend(sys.server, e.before);
    var s := ApplyEdits(sys.server, e.before);
    var read := FirstRead(s, e.get);
    if read.None? then sys.(server := s)
    else
      var o := read.value;
      var (s1, on) := Admit(s, o, e.finalizer);
      AdmitExtends(s, o, e.finalizer);
      if !on then sys.(server := s1)
      else Converge(sys.(server := s1), Local(o.spec, o.generation, o.status), e)
  }

  lemma AdmitExtends(s: Server, o: Object, env: nat -> Attempt)
    requires Consistent(s)
    ensures Consistent(Admit(s, o, env).0) && Extends(s, Admit(s, o, env).0, {})
  {
    CallExtends(s, RemoveFinalizer(FINALIZER), env);
    CallExtends(s, AddFinalizer(FINALIZER), env);
  }
}
