/** The reconciler as it runs: a local copy of the object whose status is filled in step by step, an
    API server it reads and writes, and a cluster it drives through scripts. */
module Reconciler {
  import opened Basics
  import opened CephSpec
  import opened CephStatus
  import opened CephScripts
  import opened ClusterApi
  import opened ApiServer
  import opened Reconcile

  /** The pass's copy of the ProxmoxCluster. */
  class Cluster {
    const spec: ClusterSpec
    const generation: nat
    var status: Status

    function Value(): Local
      reads this
    {
      Local(spec, generation, status)
    }

    constructor (o: Object)
      ensures Value() == Local(o.spec, o.generation, o.status)
    {
      spec, generation, status := o.spec, o.generation, o.status;
    }

    method SetCondition(t: CondType, ok: bool, trueReason: string, falseReason: string)
      modifies this
      ensures Value() == Set(old(Value()), t, ok, trueReason, falseReason)
      ensures IsTrue(status, t) == ok
    {
      var reason := trueReason;
      if !ok {
        reason := falseReason;
      }
      if reason == "" {
        reason := "Unknown";
      }
      status := status.(conditions := status.conditions[t := Condition(ok, reason, generation)]);
    }
  }

  /** The pods and what the scripts in them have built. */
  class Pods {
    var world: World

    constructor (w: World)
      ensures world == w
    {
      world := w;
    }

    method ClusterInitScript(e: Exec) returns (ok: bool)
      modifies this
      ensures Executed(world, ok) == ClusterInit(old(world), e)
      ensures ok ==> 0 in world.members
      ensures world.creates - old(world).creates == |world.members - old(world).members| <= 1
    {
      if !e.starts {
        return false;
      }
      if 0 in world.members {
        return e.answers;
      }
      if e.call(0).TookEffect() {
        world := world.(members := world.members + {0}, creates := world.creates + 1);
      }
      return e.call(0).Ok() && e.answers;
    }

    method ClusterJoinScript(i: int, e: Exec) returns (ok: bool)
      modifies this
      ensures Executed(world, ok) == ClusterJoin(old(world), i, e)
      ensures ok ==> i in world.members
      ensures i in world.members - old(world).members ==> 0 in old(world).members
    {
      if !e.starts {
        return false;
      }
      if i in world.members {
        return e.answers;
      }
      if 0 !in world.members {
        return false;
      }
      if e.call(0).TookEffect() {
        world := world.(members := world.members + {i});
      }
      return e.call(0).Ok() && e.answers;
    }

    method CephTaskScript(site: Site, t: CephTask, e: Exec) returns (ok: bool)
      modifies this
      ensures var r := RunTask(old(world).ceph, site, t, e); world == old(world).(ceph := r.world) && ok == r.ok
    {
      if !e.starts {
        return false;
      }
      var ceph := world.ceph;
      match t.step {
        case StepOSD =>
          ceph, ok := CephOSDScript(ceph, site, t.ordinal, e);
        case StepPool =>
          ceph, ok := CephPoolScript(ceph, site.mounted, e);
        case _ =>
          var r := ScriptOf(ceph, site, t, e);
          ceph, ok := r.world, r.ok;
      }
      world := world.(ceph := ceph);
      ok := ok && e.answers;
    }
  }

  lemma {:induction false} JoinsStopped(w: World, k: int, n: int, env: int -> Exec)
    requires 1 < k <= n && JoinAll(w, k, env).joined < k
    ensures JoinAll(w, n, env) == JoinAll(w, k, env)
  {
    if k < n {
      JoinsStopped(w, k, n - 1, env);
    }
  }

  lemma {:induction false} WalkStopped(w: CephWorld, site: Site, spec: ClusterSpec, k: nat, n: nat, env: nat -> Exec)
    requires k <= n <= |Plan(spec)| && WalkPlan(w, site, spec, k, env).done < k
    ensures WalkPlan(w, site, spec, n, env) == WalkPlan(w, site, spec, k, env)
  {
    if k < n {
      WalkStopped(w, site, spec, k, n - 1, env);
    }
  }

  class ProxmoxClusterReconciler {
    const api: Api
    const pods: Pods

    constructor (api: Api, pods: Pods)
      ensures this.api == api && this.pods == pods
    {
      this.api, this.pods := api, pods;
    }

    function Sys(): System
      reads api, pods
    {
      System(api.View(), pods.world)
    }

    method UpdateStatus(cluster: Cluster, phase: Phase, env: nat -> Attempt) returns (ok: bool)
      requires Stored(api.View())
      modifies api, cluster
      ensures Stored(api.View())
      ensures Put(Sys(), cluster.Value(), ok) == Reconcile.UpdateStatus(old(Sys()), old(cluster.Value()), phase, env)
      ensures cluster.status.phase == phase && (ok ==> Latest(api.View()).status == cluster.status)
    {
      StatusUpdateExact(api.View(), cluster.status.(phase := phase, observedGeneration := cluster.generation), env);
      cluster.status := cluster.status.(phase := phase, observedGeneration := cluster.generation);
      ok := api.RetryOnConflict(PutStatus(cluster.status), env);
    }

    /** The loop over the ordinals above 0, up to the first failure. */
    method JoinNodes(nodes: int, env: int -> Exec) returns (joined: int)
      requires nodes >= 1
      modifies pods
      ensures Joins(pods.world, joined) == JoinAll(old(pods.world), nodes, env)
    {
      joined := 1;
      for i := 1 to nodes
        invariant Joins(pods.world, joined) == JoinAll(old(pods.world), i, env) && joined == i
      {
        var ok := pods.ClusterJoinScript(i, env(i));
        if !ok {
          JoinsStopped(old(pods.world), i + 1, nodes, env);
          return;
        }
        joined := joined + 1;
      }
    }

    /** The plan, up to the first failure: how many tasks succeeded. */
    method WalkTasks(tasks: seq<CephTask>, site: Site, spec: ClusterSpec, env: nat -> Exec) returns (done: nat)
      requires tasks == Plan(spec)
      modifies pods
      ensures var walk := Execute(old(pods.world).ceph, site, spec, env);
              pods.world == old(pods.world).(ceph := walk.world) && done == walk.done
    {
      hide Plan, RunTask;
      done := 0;
      while done < |tasks|
        invariant done <= |tasks|
        invariant pods.world == old(pods.world).(ceph := pods.world.ceph)
        invariant WalkPlan(old(pods.world).ceph, site, spec, done, env) == Walk(pods.world.ceph, done)
      {
        var ok := pods.CephTaskScript(site, tasks[done], env(done));
        if !ok {
          WalkStopped(old(pods.world).ceph, site, spec, done + 1, |tasks|, env);
          return;
        }
        done := done + 1;
      }
    }

    /** True when Ceph is usable; what is left to do then is the Ready stage. */
    method ReconcileCeph(cluster: Cluster, e: Env) returns (done: bool)
      requires Stored(api.View()) && cluster.spec.ceph.Some?
      modifies api, pods, cluster
      ensures Stored(api.View())
      ensures CephStage(old(Sys()), old(cluster.Value()), e)
              == if done then ReadyStage(Sys(), cluster.Value(), e.second) else Sys()
    {
      hide Plan, Execute, CephUsable, StatusOf, Call;
      var ok := UpdateStatus(cluster, ConfiguringCeph, e.first);
      if !ok {
        return false;
      }
      var tasks := CephPlan(cluster.spec);
      var n := WalkTasks(tasks, SiteOf(Sys(), cluster.Value(), e), cluster.spec, e.ceph);
      if n < |tasks| {
        var step := tasks[n].step;
        cluster.SetCondition(StepCondition(step), false, "", StepFailed(step));
        ok := UpdateStatus(cluster, ConfiguringCeph, e.second);
        return false;
      }
      cluster.SetCondition(CephInitialized, true, "CephInitialized", "");
      cluster.SetCondition(CephMonsReady, true, "MonsCreated", "");
      cluster.SetCondition(CephPoolsReady, true, "PoolsCreated", "");
      if e.cephStatus.None? {
        return false;
      }
      var st := ParseCephStatus(cluster.spec, e.cephStatus.value);
      cluster.status := cluster.status.(ceph := Some(st));
      cluster.SetCondition(CephOSDsReady, st.osdsReady >= st.osdsExpected, "AllOSDsUp", "OSDsNotReady");
      var usable := CephUsable(st);
      cluster.SetCondition(CephHealthy, usable, "CephUsable", "CephNotUsable");
      if !usable {
        ok := UpdateStatus(cluster, ConfiguringCeph, e.second);
        return false;
      }
      return true;
    }

    method InitialiseCluster(cluster: Cluster, e: Env)
      requires Stored(api.View())
      modifies api, pods, cluster
      ensures Sys() == InitStage(old(Sys()), old(cluster.Value()), e)
      ensures IsTrue(cluster.status, ClusterInitialized) ==>
                IsTrue(old(cluster.status), ClusterInitialized) || 0 in pods.world.members
    {
      hide Call;
      var ok := UpdateStatus(cluster, Initializing, e.first);
      if !ok {
        return;
      }
      ok := pods.ClusterInitScript(e.init);
      if !ok {
        cluster.SetCondition(ClusterInitialized, false, "", "InitFailed");
        ok := UpdateStatus(cluster, Failed, e.second);
        return;
      }
      cluster.SetCondition(ClusterInitialized, true, "ClusterCreated", "");
      cluster.status := cluster.status.(joinedNodes := 1);
      ok := UpdateStatus(cluster, Joining, e.second);
    }

    method JoinCluster(cluster: Cluster, e: Env)
      requires Stored(api.View()) && cluster.spec.nodes >= 1
      modifies api, pods, cluster
      ensures Sys() == JoinStage(old(Sys()), old(cluster.Value()), e)
    {
      hide Call, JoinAll;
      var ok := UpdateStatus(cluster, Joining, e.first);
      if !ok {
        return;
      }
      var joined := JoinNodes(cluster.spec.nodes, e.join);
      cluster.status := cluster.status.(joinedNodes := joined);
      if joined < cluster.spec.nodes {
        ok := UpdateStatus(cluster, Joining, e.second);
        return;
      }
      cluster.SetCondition(AllNodesJoined, true, "AllNodesJoined", "");
      cluster.SetCondition(QuorumHealthy, true, "QuorumOK", "");
      ok := UpdateStatus(cluster, Joining, e.second);
    }

    /** From the validation of the Ceph spec on. */
    method ConvergeCluster(cluster: Cluster, e: Env)
      requires Stored(api.View()) && cluster.spec.nodes >= 1
      modifies api, pods, cluster
      ensures Sys() == Converge(old(Sys()), old(cluster.Value()), e)
    {
      hide Call, Admissible, InitStage, JoinStage, CephStage;
      var invalid := ValidateCeph(cluster.spec);
      var ok;
      if invalid.Some? {
        cluster.SetCondition(CephInitialized, false, "", "InvalidCephSpec");
        ok := UpdateStatus(cluster, Failed, e.first);
        return;
      }
      if !e.resourcesOk || e.sts.StsGetFailed? {
        return;
      }
      if e.sts.StsNotVisible? {
        ok := UpdateStatus(cluster, Pending, e.first);
        return;
      }
      var stsReady := e.sts.readyReplicas == cluster.spec.nodes;
      cluster.SetCondition(StatefulSetReady, stsReady, "AllPodsReady", "NotAllPodsReady");
      if !stsReady {
        ok := UpdateStatus(cluster, Pending, e.first);
        return;
      }
      if !IsTrue(cluster.status, ClusterInitialized) {
        InitialiseCluster(cluster, e);
        return;
      }
      if !IsTrue(cluster.status, AllNodesJoined) {
        JoinCluster(cluster, e);
        return;
      }
      if cluster.spec.ceph.Some? {
        var done := ReconcileCeph(cluster, e);
        if !done {
          return;
        }
      }
      cluster.SetCondition(QuorumHealthy, true, "QuorumOK", "");
      ok := UpdateStatus(cluster, Ready, e.second);
    }

    /** One pass does to the object and to the cluster exactly what Pass says. */
    method ReconcilePass(e: Env)
      requires Consistent(api.View())
      modifies api, pods
      ensures Sys() == Pass(old(Sys()), e)
    {
      hide Call, Converge, ApplyEdits, Extends;
      ghost var sys := Sys();
      EditsExtend(sys.server, e.before);
      api.Others(e.before);
      if e.get.GetFailed? || VersionRead(api.View(), e.get).None? {
        return;
      }
      var o := api.versions[VersionRead(api.View(), e.get).value];
      AdmitExtends(api.View(), o, e.finalizer);
      if o.deleting {
        var _ := api.RetryOnConflict(RemoveFinalizer(FINALIZER), e.finalizer);
        return;
      }
      if FINALIZER !in o.finalizers {
        var ok := api.RetryOnConflict(AddFinalizer(FINALIZER), e.finalizer);
        if !ok {
          return;
        }
      }
      var cluster := new Cluster(o);
      ConvergeCluster(cluster, e);
    }
  }
}
