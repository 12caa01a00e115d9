/** Running the plan again: a task counts as done only if its exec came back, and what is done is not done again. */
module CephReplays {
  import opened Basics
  import opened CephSpec
  import opened CephScripts

  /** An exec that does not start, or whose answer gets lost, stops the walk at its task at the latest. */
  lemma {:induction false} BrokenStops(w: CephWorld, site: Site, spec: ClusterSpec, n: nat, env: nat -> Exec, k: nat)
    requires k < n <= |Plan(spec)| && !(env(k).starts && env(k).answers)
    ensures WalkPlan(w, site, spec, n, env).done <= k
  {
    hide ScriptOf, Plan;
    if k < n - 1 {
      BrokenStops(w, site, spec, n - 1, env, k);
    }
  }

  /** The exec comes back and the monitors can be reached; how changing tool calls would turn out is open. */
  ghost predicate Answers(e: Exec) {
    e.starts && e.reachable && e.answers
  }

  lemma {:induction false} DevicesRest(w: CephWorld, site: Site, i: int, n: nat, e: Exec)
    requires forall d | 0 <= d < n :: (i, d) in site.blocks ==> (i, d) in w.osds
    ensures Devices(w, site, i, n, e) == Outcome(w, true)
  {
    if n > 0 {
      DevicesRest(w, site, i, n - 1, e);
    }
  }

  lemma {:induction false} PoolsRest(w: CephWorld, pools: seq<PoolSpec>, n: nat, e: Exec)
    requires n <= |pools|
    requires forall k | 0 <= k < n ::
               pools[k].name in w.pools && (AddsStorage(pools[k]) ==> pools[k].name in w.storages)
    ensures Pools(w, pools, n, e) == Outcome(w, true)
  {
    if n > 0 {
      PoolsRest(w, pools, n - 1, e);
    }
  }

  /** All tasks of the plan are achieved, here and on these pods. */
  ghost predicate AllDone(w: CephWorld, site: Site, spec: ClusterSpec) {
    w.conf && w.mons != {} && Hosts(site, spec) && forall j | 0 <= j < |Plan(spec)| :: Achieved(w, site, Plan(spec)[j])
  }

  lemma TaskRests(w: CephWorld, site: Site, spec: ClusterSpec, j: nat, e: Exec)
    requires spec.ceph.Some? && spec.nodes >= 1 && j < |Plan(spec)| && AllDone(w, site, spec) && Answers(e)
    ensures RunTask(w, site, Plan(spec)[j], e) == Outcome(w, true)
  {
    PlanTasks(spec);
    PlanShape(spec);
    var t := Plan(spec)[j];
    assert Achieved(w, site, t) && 0 <= t.ordinal < spec.nodes;
    hide Plan, PoolsOf;
    if t.step.StepOSD? {
      DevicesRest(w, site, t.ordinal, Max(site.Devices(t.ordinal), 0), e);
    }
    if t.step.StepPool? {
      PoolsRest(w, PoolsOf(site.mounted), |PoolsOf(site.mounted)|, e);
    }
  }

  lemma {:induction false} WalkRests(w: CephWorld, site: Site, spec: ClusterSpec, n: nat, env: nat -> Exec)
    requires spec.ceph.Some? && spec.nodes >= 1 && n <= |Plan(spec)| && AllDone(w, site, spec)
    requires forall k :: Answers(env(k))
    ensures WalkPlan(w, site, spec, n, env) == Walk(w, n)
  {
    hide Plan, AllDone, Answers, RunTask;
    if n > 0 {
      WalkRests(w, site, spec, n - 1, env);
      TaskRests(w, site, spec, n - 1, env(n - 1));
    }
  }

  lemma DoneElsewhere(w: CephWorld, site: Site, other: Site, spec: ClusterSpec)
    requires spec.ceph.Some? && spec.nodes >= 1 && SamePlant(other, site) && Hosts(other, spec)
    requires forall j | 0 <= j < |Plan(spec)| :: Achieved(w, site, Plan(spec)[j])
    ensures AllDone(w, other, spec)
  {
    PlanTasks(spec);
    PlanShape(spec);
    var plan := Plan(spec);
    hide Plan, PoolsOf;
    assert Achieved(w, site, plan[0]) && w.conf;
    assert plan[1].step == StepMon && Achieved(w, site, plan[1]) && w.mons != {};
    forall j | 0 <= j < |plan|
      ensures Achieved(w, other, plan[j])
    {
      assert Achieved(w, site, plan[j]) && 0 <= plan[j].ordinal < spec.nodes;
    }
  }

  /** Once the plan went through, running it again changes nothing and succeeds, on the same devices and pools and
      whatever changing tool calls would answer: none is made. */
  lemma ReplayRests(w: CephWorld, site: Site, spec: ClusterSpec, env: nat -> Exec, other: Site, again: nat -> Exec)
    requires spec.ceph.Some? && spec.nodes >= 1 && Completes(w, site, spec, env)
    requires SamePlant(other, site) && Hosts(other, spec) && forall k :: Answers(again(k))
    ensures var v := Execute(w, site, spec, env).world; Execute(v, other, spec, again) == Walk(v, |Plan(spec)|)
  {
    WalkKeeps(w, site, spec, |Plan(spec)|, env);
    var v := Execute(w, site, spec, env).world;
    hide WalkPlan, Plan, Achieved, SamePlant, Hosts, Answers;
    DoneElsewhere(v, site, other, spec);
    WalkRests(v, other, spec, |Plan(spec)|, again);
  }

  /* ---------------------------------------------------------------- what an execution builds */

  lemma {:induction false} OnlyTheFirst(w: CephWorld, site: Site, i: int, n: nat, e: Exec)
    ensures forall b | b in Devices(w, site, i, n, e).world.osds - w.osds :: b.0 == i && 0 <= b.1 < n
  {
    if n > 0 {
      OnlyTheFirst(w, site, i, n - 1, e);
    }
  }

  /** How many devices ceph-osd.sh looks at on a pod: $CEPH_OSDS_PER_NODE, or one. */
  function LooksAt(site: Site, i: int): int {
    if i in site.osdsPerNode then site.osdsPerNode[i] else 1
  }

  /** After a complete execution, on top of what was there: ceph.conf, the first monitors and managers, and an OSD on
      every block device that the script looks at on a pod of the spec; and nothing else of these. */
  lemma CompleteBuilds(w: CephWorld, site: Site, spec: ClusterSpec, env: nat -> Exec)
    requires spec.ceph.Some? && spec.nodes >= 1 && Completes(w, site, spec, env)
    ensures var v := Execute(w, site, spec, env).world;
            && v.conf
            && (forall i :: i in v.mons <==> i in w.mons || 0 <= i < EffectiveMonCount(spec))
            && (forall i :: i in v.mgrs <==> i in w.mgrs || 0 <= i < EffectiveMgrCount(spec))
            && (forall i, d :: (i, d) in v.osds
                  <==> (i, d) in w.osds || ((i, d) in site.blocks && 0 <= i < spec.nodes && 0 <= d < LooksAt(site, i)))
  {
    CompleteReachesTarget(w, site, spec, env);
    hide Execute, Completes, PoolsOf, FirstConfigs, FirstContents, EffectiveMonCount, EffectiveMgrCount;
  }

  /* ---------------------------------------------------------------- what one exec does */

  /** One exec of ceph-init.sh, ceph-mon.sh or ceph-mgr.sh: what is there is left alone and counts as success, a
      rejected call changes nothing, and an effect whose answer gets lost stays without counting. */
  lemma TaskEffects(w: CephWorld, site: Site, i: int, e: Exec)
    ensures var r, did := RunTask(w, site, Task(StepInit, i), e), e.starts && e.call(0) != Rejected;
            && r.world == w.(conf := w.conf || did)
            && (r.ok <==> e.starts && e.answers && (w.conf || e.call(0) == Accepted))
    ensures var r, did := RunTask(w, site, Task(StepMon, i), e), e.starts && e.call(0) != Rejected;
            var sees := w.conf && i in site.members;
            && r.world == w.(mons := if sees && did then w.mons + {i} else w.mons)
            && (r.ok <==> e.starts && e.answers && sees && (i in w.mons || e.call(0) == Accepted))
    ensures var r, did := RunTask(w, site, Task(StepMgr, i), e), e.starts && e.call(0) != Rejected;
            && r.world == w.(mgrs := if did then w.mgrs + {i} else w.mgrs)
            && (r.ok <==> e.starts && e.answers && (i in w.mgrs || e.call(0) == Accepted))
  {
    assert i in w.mons ==> w.mons + {i} == w.mons;
    assert i in w.mgrs ==> w.mgrs + {i} == w.mgrs;
  }

  /** ceph-osd.sh and ceph-pool.sh fail without effect when no monitor answers, as does ceph-osd.sh on a pod that does
      not see ceph.conf and a pool script that is not mounted. */
  lemma UnreachableFails(w: CephWorld, site: Site, t: CephTask, e: Exec)
    requires t.step.StepOSD? || t.step.StepPool?
    requires || !e.starts || !e.reachable || w.mons == {}
             || (t.step.StepOSD? && !(w.conf && t.ordinal in site.members))
             || (t.step.StepPool? && site.mounted.ceph.None?)
    ensures RunTask(w, site, t, e) == Outcome(w, false)
  {
  }

  /** The first device of pod i whose OSD is still to be created and cannot be, or n. */
  ghost predicate FailsFirstAt(w: CephWorld, site: Site, i: int, n: nat, e: Exec, f: nat) {
    && f <= n
    && (forall d | 0 <= d < f && (i, d) in site.blocks && (i, d) !in w.osds :: e.call(d) == Accepted)
    && (f < n ==> (i, f) in site.blocks && (i, f) !in w.osds && e.call(f) != Accepted)
  }

  function BlocksOf(site: Site, i: int, n: nat): set<(int, int)> {
    set b | b in site.blocks && b.0 == i && 0 <= b.1 < n
  }

  /** ceph-osd.sh creates an OSD on every block device up to the first failure, and on that one only if the answer
      got lost. */
  lemma {:induction false} DevicesExactly(w: CephWorld, site: Site, i: int, n: nat, e: Exec, f: nat)
    requires FailsFirstAt(w, site, i, n, e, f)
    ensures var r := Devices(w, site, i, n, e);
            && r.world == w.(osds := w.osds + BlocksOf(site, i, f)
                                     + if f < n && e.call(f) == Lost then {(i, f)} else {})
            && (r.ok <==> f == n)
  {
    if f < n {
      if f < n - 1 {
        DevicesExactly(w, site, i, n - 1, e, f);
      } else {
        DevicesExactly(w, site, i, f, e, f);
        OnlyTheFirst(w, site, i, f, e);
      }
    } else if n > 0 {
      DevicesExactly(w, site, i, n - 1, e, n - 1);
      OnlyTheFirst(w, site, i, n - 1, e);
      assert BlocksOf(site, i, n) == BlocksOf(site, i, n - 1) + if (i, n - 1) in site.blocks then {(i, n - 1)} else {};
    }
  }

  /** One pool of ceph-pool.sh: its creation, and once it is there its storage. */
  lemma PoolEffects(w: CephWorld, p: PoolSpec, k: nat, e: Exec)
    ensures var r, there := PoolStep(w, p, k, e), p.name in w.pools || e.call(2 * k) == Accepted;
            var wants := p.addAsStorage != Some(false) && p.name !in w.storages;
            && r.world == w.(
                 pools := if p.name in w.pools || e.call(2 * k) == Rejected then w.pools
                          else w.pools[p.name := PoolConfig(p.size, p.minSize, p.pgNum)],
                 storages := if there && wants && e.call(2 * k + 1) != Rejected then w.storages[p.name := Content(p)]
                             else w.storages)
            && (r.ok <==> there && (wants ==> e.call(2 * k + 1) == Accepted))
  {
    hide Content;
  }
}
