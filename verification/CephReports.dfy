/** What a pass over a joined cluster with Ceph leaves persisted: where its plan stopped, or what ceph-status.sh
    printed. */
module CephReports {
  import opened Basics
  import opened Text
  import opened CephSpec
  import opened CephStatus
  import opened CephScripts
  import opened ClusterApi
  import opened ApiServer
  import opened Retries
  import opened Reconcile
  import opened HonestReports
  import opened PassReports

  /* ---------------------------------------------------------------- the stage */

  /** The spec behind the ceph-pool.sh that is mounted. */
  ghost predicate FindsScripts(s: Server, mount: Mount, spec: ClusterSpec, mounted: ClusterSpec) {
    match mount
    case Current => mounted == spec
    case Rendered(v) => v < |s.versions| && s.versions[v].spec == mounted && Admissible(mounted)
  }

  /** What the plan finds. */
  function PlanSite(sys: System, e: Env, mounted: ClusterSpec): Site {
    Site(e.blocks, e.osdsPerNode, sys.world.members, mounted)
  }

  function PlanWalk(sys: System, e: Env, spec: ClusterSpec, mounted: ClusterSpec): Walk {
    Execute(sys.world.ceph, PlanSite(sys, e, mounted), spec, e.ceph)
  }

  /** The condition that a failed script turns off, and why. */
  function TurnedOff(step: CephStep, n: nat): Conditions {
    match step
    case StepInit => map[CephInitialized := Condition(false, "initFailed", n)]
    case StepMon => map[CephMonsReady := Condition(false, "monFailed", n)]
    case StepMgr => map[CephMonsReady := Condition(false, "mgrFailed", n)]
    case StepOSD => map[CephOSDsReady := Condition(false, "osdFailed", n)]
    case StepPool => map[CephPoolsReady := Condition(false, "poolFailed", n)]
    case StepStatus => map[]
  }

  lemma WalkIs(sys: System, e: Env, spec: ClusterSpec, mounted: ClusterSpec)
    ensures PlanWalk(sys, e, spec, mounted) == Execute(sys.world.ceph, PlanSite(sys, e, mounted), spec, e.ceph)
  {
  }

  lemma StageSite(t: System, c: Local, e: Env, mounted: ClusterSpec)
    requires GoodStage(t, e) && FindsScripts(t.server, e.mount, c.spec, mounted)
    ensures var p := UpdateStatus(t, c, ConfiguringCeph, e.first);
            p.ok && SiteOf(p.sys, c, e) == PlanSite(t, e, mounted)
  {
    hide Settles, AllSparing, UpdateStatus;
    SettledUpdate(t, c, ConfiguringCeph, e.first);
  }

  lemma PlanSteps(spec: ClusterSpec, i: nat)
    requires spec.ceph.Some? && spec.nodes >= 1 && i < |Plan(spec)|
    ensures !Plan(spec)[i].step.StepStatus?
  {
    PlanTasks(spec);
  }

  lemma StoppedStage(t: System, c: Local, e: Env, mounted: ClusterSpec)
    requires GoodStage(t, e) && FindsScripts(t.server, e.mount, c.spec, mounted)
    requires c.spec.ceph.Some? && c.spec.nodes >= 1
    requires PlanWalk(t, e, c.spec, mounted).done < |Plan(c.spec)|
    ensures var st, n, walk := c.status, c.generation, PlanWalk(t, e, c.spec, mounted);
            var off := TurnedOff(Plan(c.spec)[walk.done].step, n);
            Leaves(CephStage(t, c, e), t.world.(ceph := walk.world),
                   Status(ConfiguringCeph, st.conditions + off, st.joinedNodes, st.ceph, n))
  {
    hide Settles, AllSparing, UpdateStatus, Plan, Execute, StatusOf, CephUsable, SiteOf;
    StageSite(t, c, e, mounted);
    SettledUpdate(t, c, ConfiguringCeph, e.first);
    var p, walk := UpdateStatus(t, c, ConfiguringCeph, e.first), PlanWalk(t, e, c.spec, mounted);
    var after, step := p.sys.(world := t.world.(ceph := walk.world)), Plan(c.spec)[walk.done].step;
    PlanSteps(c.spec, walk.done);
    SettledUpdate(after, Set(p.local, StepCondition(step), false, "", StepFailed(step)), ConfiguringCeph, e.second);
  }

  /** What is reported about a plan that went through and this output of ceph-status.sh. */
  function HeardOfCeph(st: CephStatus, usable: bool, n: nat): Conditions {
    var up := st.osdsReady >= st.osdsExpected;
    map[CephInitialized := Condition(true, "CephInitialized", n),
        CephMonsReady := Condition(true, "MonsCreated", n),
        CephPoolsReady := Condition(true, "PoolsCreated", n),
        CephOSDsReady := Condition(up, if up then "AllOSDsUp" else "OSDsNotReady", n),
        CephHealthy := Condition(usable, if usable then "CephUsable" else "CephNotUsable", n)]
  }

  function Heard(st: CephStatus, usable: bool, n: nat): Conditions {
    if usable then HeardOfCeph(st, true, n) + map[QuorumHealthy := Condition(true, "QuorumOK", n)]
    else HeardOfCeph(st, false, n)
  }

  lemma FiveSet(m: Conditions, a: Condition, b: Condition, c: Condition, d: Condition, f: Condition)
    ensures m[CephInitialized := a][CephMonsReady := b][CephPoolsReady := c][CephOSDsReady := d][CephHealthy := f]
            == m + map[CephInitialized := a, CephMonsReady := b, CephPoolsReady := c, CephOSDsReady := d,
                       CephHealthy := f]
  {
  }

  lemma HeardStatus(c: Local, ceph: CephStatus)
    ensures var c2, st, n := Polled(PlanDone(c), ceph), c.status, c.generation;
            var heard := st.conditions + HeardOfCeph(ceph, CephUsable(ceph), n);
            c2 == c.(status := st.(conditions := heard, ceph := Some(ceph)))
  {
    hide CephUsable;
    var n, up, usable := c.generation, ceph.osdsReady >= ceph.osdsExpected, CephUsable(ceph);
    FiveSet(c.status.conditions, Condition(true, "CephInitialized", n), Condition(true, "MonsCreated", n),
            Condition(true, "PoolsCreated", n), Condition(up, if up then "AllOSDsUp" else "OSDsNotReady", n),
            Condition(usable, if usable then "CephUsable" else "CephNotUsable", n));
  }

  lemma OneMore(c: Local, d: Local, heard: Conditions)
    requires d.status.conditions == c.status.conditions + heard
    ensures var more: Conditions := heard + map[QuorumHealthy := Condition(true, "QuorumOK", d.generation)];
            Set(d, QuorumHealthy, true, "QuorumOK", "")
            == d.(status := d.status.(conditions := c.status.conditions + more))
  {
  }

  lemma FinishedStage(t: System, c: Local, e: Env, mounted: ClusterSpec)
    requires GoodStage(t, e) && FindsScripts(t.server, e.mount, c.spec, mounted)
    requires c.spec.ceph.Some? && c.spec.nodes >= 1
    requires PlanWalk(t, e, c.spec, mounted).done == |Plan(c.spec)|
    ensures var st, n, w := c.status, c.generation, t.world.(ceph := PlanWalk(t, e, c.spec, mounted).world);
            if e.cephStatus.None? then
              Leaves(CephStage(t, c, e), w, Status(ConfiguringCeph, st.conditions, st.joinedNodes, st.ceph, n))
            else
              var ceph := StatusOf(c.spec, e.cephStatus.value);
              var phase := if CephUsable(ceph) then Ready else ConfiguringCeph;
              Leaves(CephStage(t, c, e), w,
                     Status(phase, st.conditions + Heard(ceph, CephUsable(ceph), n), st.joinedNodes, Some(ceph), n))
  {
    hide Settles, AllSparing, UpdateStatus, Plan, Execute, StatusOf, CephUsable, SiteOf, HeardOfCeph, Polled,
         PlanDone, Set, PlanWalk;
    StageSite(t, c, e, mounted);
    SettledUpdate(t, c, ConfiguringCeph, e.first);
    var p, walk := UpdateStatus(t, c, ConfiguringCeph, e.first), PlanWalk(t, e, c.spec, mounted);
    assert walk == Execute(t.world.ceph, PlanSite(t, e, mounted), c.spec, e.ceph) by {
      WalkIs(t, e, c.spec, mounted);
    }
    var after := p.sys.(world := t.world.(ceph := walk.world));
    if e.cephStatus.Some? {
      HeardStatus(p.local, StatusOf(c.spec, e.cephStatus.value));
      var c2 := Polled(PlanDone(p.local), StatusOf(c.spec, e.cephStatus.value));
      if CephUsable(StatusOf(c.spec, e.cephStatus.value)) {
        OneMore(p.local, c2, HeardOfCeph(StatusOf(c.spec, e.cephStatus.value), true, c.generation));
      }
      SettledUpdate(after, c2, ConfiguringCeph, e.second);
      SettledUpdate(after, Set(c2, QuorumHealthy, true, "QuorumOK", ""), Ready, e.second);
    }
  }

  /* ---------------------------------------------------------------- the pass */

  /** A pass that gets to the plan of a joined cluster, on scripts of this spec, with status writes that settle. */
  ghost predicate ReachesPlan(sys: System, e: Env, o: Object, mounted: ClusterSpec) {
    && Begins(sys, e, o) && AllPodsUp(e, o) && o.spec.ceph.Some? && Settles(e.first) && Settles(e.second)
    && IsTrue(o.status, ClusterInitialized) && IsTrue(o.status, AllNodesJoined)
    && FindsScripts(ApplyEdits(sys.server, e.before), e.mount, o.spec, mounted)
  }

  lemma PassIsCephStage(sys: System, e: Env, o: Object, mounted: ClusterSpec)
    requires ReachesPlan(sys, e, o, mounted)
    ensures Stored(sys.server)
    ensures var t, c := Begun(sys, e, o), ReadyPods(o);
            && Pass(sys, e) == CephStage(t, c, e) && GoodStage(t, e) && t.world == sys.world && o.spec.nodes >= 1
            && FindsScripts(t.server, e.mount, o.spec, mounted)
            && PlanWalk(t, e, o.spec, mounted) == PlanWalk(sys, e, o.spec, mounted)
  {
    hide Settles, Begun, Alive, Pass, InitStage, JoinStage, CephStage, ReadyStage, GoodStage, ApplyEdits, AllPodsUp,
         Execute;
    PassReachesStages(sys, e, o);
    StageIsGood(sys, e, o);
  }

  /** When the plan stops at a task, exactly the condition of that task's stage is turned off, and nothing else about
      the cluster is said anew: */
  lemma StoppedReports(sys: System, e: Env, o: Object, mounted: ClusterSpec)
    requires ReachesPlan(sys, e, o, mounted)
    requires PlanWalk(sys, e, o.spec, mounted).done < |Plan(o.spec)|
    ensures var st, n, walk := o.status, o.generation, PlanWalk(sys, e, o.spec, mounted);
            var off := TurnedOff(Plan(o.spec)[walk.done].step, n);
            Leaves(Pass(sys, e), sys.world.(ceph := walk.world),
                   Status(ConfiguringCeph, st.conditions + PodsReady(n) + off, st.joinedNodes, st.ceph, n))
  {
    hide Begun, Pass, CephStage, GoodStage, Leaves, TurnedOff, PlanWalk, Plan, FindsScripts;
    PassIsCephStage(sys, e, o, mounted);
    StoppedStage(Begun(sys, e, o), ReadyPods(o), e, mounted);
  }

  /** When the plan went through but ceph-status.sh did not answer, nothing is said about Ceph. */
  lemma UnheardReports(sys: System, e: Env, o: Object, mounted: ClusterSpec)
    requires ReachesPlan(sys, e, o, mounted) && e.cephStatus.None?
    requires PlanWalk(sys, e, o.spec, mounted).done == |Plan(o.spec)|
    ensures var st, n, walk := o.status, o.generation, PlanWalk(sys, e, o.spec, mounted);
            Leaves(Pass(sys, e), sys.world.(ceph := walk.world),
                   Status(ConfiguringCeph, st.conditions + PodsReady(n), st.joinedNodes, st.ceph, n))
  {
    hide Begun, Pass, CephStage, GoodStage, Leaves, PlanWalk, Plan, FindsScripts;
    PassIsCephStage(sys, e, o, mounted);
    FinishedStage(Begun(sys, e, o), ReadyPods(o), e, mounted);
  }

  /** What a user is told when the script has printed r: its names, its counts and its health. */
  function ReportedCeph(r: Report, expected: int32): CephStatus {
    var up := Wrap32(r.osdsUp);
    CephStatus(r.health != "UNINITIALIZED", r.mons, r.mgrs, up, expected, Itoa(up) + "/" + Itoa(expected), r.pools,
               r.health, if r.health == "HEALTH_OK" then "" else r.detail)
  }

  /** All OSDs up, of which there are some, and none of the bad healths. Warnings do not count. */
  predicate Serves(r: Report, expected: int32) {
    Wrap32(r.osdsUp) >= expected > 0 && r.health !in {"HEALTH_ERR", "UNREACHABLE", "UNINITIALIZED"}
  }

  lemma ReportedIs(spec: ClusterSpec, out: string, r: Report, noise: string, spaces: string)
    requires Printed(out, r, noise, spaces)
    ensures StatusOf(spec, out) == ReportedCeph(r, ExpectedOSDs(spec))
    ensures CephUsable(StatusOf(spec, out)) <==> Serves(r, ExpectedOSDs(spec))
  {
    hide StatusOf, ReportLine, Printable, ExpectedOSDs, Itoa;
    StatusRoundTrip(spec, r, noise, spaces);
  }

  /** When the plan went through and ceph-status.sh printed r, the status holds what r says; all OSDs count as ready
      if r counts as many up as expected, and the cluster is Ready exactly if r says that Ceph serves. */
  lemma HeardReports(sys: System, e: Env, o: Object, mounted: ClusterSpec, r: Report, noise: string, spaces: string)
    requires ReachesPlan(sys, e, o, mounted) && e.cephStatus.Some? && Printed(e.cephStatus.value, r, noise, spaces)
    requires PlanWalk(sys, e, o.spec, mounted).done == |Plan(o.spec)|
    ensures var st, n, walk := o.status, o.generation, PlanWalk(sys, e, o.spec, mounted);
            var ceph, serves := ReportedCeph(r, ExpectedOSDs(o.spec)), Serves(r, ExpectedOSDs(o.spec));
            Leaves(Pass(sys, e), sys.world.(ceph := walk.world),
                   Status(if serves then Ready else ConfiguringCeph,
                          st.conditions + PodsReady(n) + Heard(ceph, serves, n), st.joinedNodes, Some(ceph), n))
  {
    hide Begun, Pass, CephStage, GoodStage, Leaves, PlanWalk, Plan, FindsScripts, Heard, StatusOf, CephUsable, Serves,
         ReportedCeph, Printed, ExpectedOSDs;
    PassIsCephStage(sys, e, o, mounted);
    FinishedStage(Begun(sys, e, o), ReadyPods(o), e, mounted);
    ReportedIs(o.spec, e.cephStatus.value, r, noise, spaces);
  }
}
