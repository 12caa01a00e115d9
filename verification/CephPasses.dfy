/** A single pass that gets to its Ceph plan: what it finds, and what it has done when it leaves Ready. */
module CephPasses {
  import opened Basics
  import opened CephSpec
  import opened CephStatus
  import opened CephScripts
  import opened ClusterApi
  import opened ApiServer
  import opened Reconcile
  import opened Safety
  import opened Progress

  /** The spec behind the ceph-pool.sh that a pass with this local copy finds in pod 0. */
  function Mounted(sys: System, c: Local, e: Env): ClusterSpec
    requires Stored(sys.server)
  {
    var p := Opening(sys, c, e);
    SiteOf(p.sys, p.local, e).mounted
  }

  /** The local copy of a pass that gets to its Ceph plan, None for any other pass. */
  function PlanCopy(sys: System, e: Env): Option<Local>
    requires Stored(sys.server)
  {
    var s := ApplyEdits(sys.server, e.before);
    var read := FirstRead(s, e.get);
    if read.None? || read.value.deleting || !Admit(s, read.value, e.finalizer).1 then None
    else
      var c := Local(read.value.spec, read.value.generation, read.value.status);
      if && Admissible(c.spec) && c.spec.ceph.Some? && e.resourcesOk && e.sts == StsSeen(c.spec.nodes)
         && StagePhase(c.status) == ConfiguringCeph && Opening(Admitted(sys, e), c, e).ok
      then Some(c)
      else None
  }

  lemma PlanPass(sys: System, e: Env)
    requires Stored(sys.server) && Consistent(sys.server) && PlanCopy(sys, e).Some?
    ensures var c := PlanCopy(sys, e).value;
            var c1 := Set(c, StatefulSetReady, true, "AllPodsReady", "NotAllPodsReady");
            Pass(sys, e) == CephStage(Admitted(sys, e), c1, e)
  {
    hide CephStage, InitStage, JoinStage, ReadyStage, Admissible, Consistent, ApplyEdits, Admit, FirstRead,
         UpdateStatus, Extends;
    EditsExtend(sys.server, e.before);
    ReadNodes(ApplyEdits(sys.server, e.before), e.get);
  }

  /** A status update leaves the status from before or the one it writes. */
  lemma PutLatest(sys: System, c: Local, phase: Phase, env: nat -> Attempt)
    requires Stored(sys.server) && Consistent(sys.server)
    ensures var p := UpdateStatus(sys, c, phase, env);
            && Stored(p.sys.server) && Consistent(p.sys.server) && p.sys.world == sys.world && p.local.spec == c.spec
            && p.local.status.phase == phase
            && Latest(p.sys.server).status in {Latest(sys.server).status, p.local.status}
            && (p.ok ==> Latest(p.sys.server).status == p.local.status)
  {
    var st := c.status.(phase := phase, observedGeneration := c.generation);
    CallExtends(sys.server, PutStatus(st), env);
    StatusUpdateExact(sys.server, st, env);
    EditsExtend(sys.server, Call(sys.server, PutStatus(st), env).others);
    hide Call, Consistent, ApplyEdits, Extends;
  }

  /** The Ceph stage leaves Ready only after it has walked the whole plan. */
  lemma ReadyAfterPlan(sys: System, c: Local, e: Env)
    requires Stored(sys.server) && Consistent(sys.server) && c.spec.ceph.Some? && c.spec.nodes >= 1
    requires var p := UpdateStatus(sys, c, ConfiguringCeph, e.first); p.ok
    requires Latest(CephStage(sys, c, e).server).status.phase == Ready
    ensures var site := SiteOf(UpdateStatus(sys, c, ConfiguringCeph, e.first).sys, c, e);
            && Completes(sys.world.ceph, site, c.spec, e.ceph)
            && CephStage(sys, c, e).world.ceph == Execute(sys.world.ceph, site, c.spec, e.ceph).world
  {
    hide UpdateStatus, Consistent, Execute, Plan, StatusOf, CephUsable, SiteOf;
    PutLatest(sys, c, ConfiguringCeph, e.first);
    var p := UpdateStatus(sys, c, ConfiguringCeph, e.first);
    var site := SiteOf(p.sys, c, e);
    var walk := Execute(sys.world.ceph, site, c.spec, e.ceph);
    var after := p.sys.(world := sys.world.(ceph := walk.world));
    ExecuteDone(sys.world.ceph, site, c.spec, e.ceph);
    SecondLatest(after, e);
  }

  lemma SecondLatest(sys: System, e: Env)
    requires Stored(sys.server) && Consistent(sys.server) && Latest(sys.server).status.phase == ConfiguringCeph
    ensures forall d ::
              Latest(UpdateStatus(sys, d, ConfiguringCeph, e.second).sys.server).status.phase == ConfiguringCeph
    ensures forall d, phase :: UpdateStatus(sys, d, phase, e.second).sys.world == sys.world
  {
    forall d, phase
      ensures UpdateStatus(sys, d, phase, e.second).sys.world == sys.world
      ensures Latest(UpdateStatus(sys, d, ConfiguringCeph, e.second).sys.server).status.phase == ConfiguringCeph
    {
      PutLatest(sys, d, phase, e.second);
      PutLatest(sys, d, ConfiguringCeph, e.second);
    }
  }

  lemma AdmittedFacts(sys: System, e: Env)
    requires Stored(sys.server) && Consistent(sys.server) && PlanCopy(sys, e).Some?
    ensures var t, c := Admitted(sys, e), PlanCopy(sys, e).value;
            && Consistent(t.server) && t.world == sys.world
            && c.spec.nodes >= 1 && c.spec.ceph.Some? && StagePhase(c.status) == ConfiguringCeph && Opening(t, c, e).ok
  {
    hide Consistent, ApplyEdits, Admit, FirstRead, Extends, UpdateStatus, Admissible;
    EditsExtend(sys.server, e.before);
    var s := ApplyEdits(sys.server, e.before);
    ReadNodes(s, e.get);
    AdmitExtends(s, FirstRead(s, e.get).value, e.finalizer);
  }

  /** A pass that ran the plan and leaves Ready has built what the plan leads to. */
  lemma ReadyPassBuilt(sys: System, e: Env)
    requires Good(sys) && PlanCopy(sys, e).Some? && Stored(Pass(sys, e).server)
    requires Latest(Pass(sys, e).server).status.phase == Ready
    ensures var p := Opening(Admitted(sys, e), PlanCopy(sys, e).value, e);
            var site, spec := SiteOf(p.sys, p.local, e), PlanCopy(sys, e).value.spec;
            && spec.ceph.Some? && spec.nodes >= 1
            && site.members == sys.world.members && site.blocks == e.blocks && site.osdsPerNode == e.osdsPerNode
            && Completes(sys.world.ceph, site, spec, e.ceph)
            && Pass(sys, e).world.ceph == Execute(sys.world.ceph, site, spec, e.ceph).world
  {
    GoodParts(sys);
    PlanPass(sys, e);
    AdmittedFacts(sys, e);
    var c1 := Set(PlanCopy(sys, e).value, StatefulSetReady, true, "AllPodsReady", "NotAllPodsReady");
    hide Good, Consistent, Pass, PlanCopy, CephStage, UpdateStatus, Admitted, Execute, Completes;
    ReadyAfterPlan(Admitted(sys, e), c1, e);
    PutLatest(Admitted(sys, e), c1, ConfiguringCeph, e.first);
  }
}
