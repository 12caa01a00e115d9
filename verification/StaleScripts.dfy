/** The scripts a pod runs come from a volume that follows the ConfigMap only after a while. ceph-pool.sh
    holds the pools of the spec it was rendered from, so Ready may be reported for pools nobody created. */
module StaleScripts {
  import opened Basics
  import opened CephSpec
  import opened CephStatus
  import opened CephScripts
  import opened ClusterApi
  import opened ApiServer
  import opened Reconcile
  import opened Safety
  import opened Progress
  import opened CephPasses
  import opened HonestReports
  import opened FullReports
  import opened GoodRuns

  /* ---------------------------------------------------------------- one pass */

  /** After a pass that ran the plan and leaves Ready, there are exactly the pools from before and those of the
      mounted script. So all pools of the spec it reports on exist if and only if these cover them. */
  lemma ReadyPassPools(sys: System, e: Env)
    requires Good(sys) && PlanCopy(sys, e).Some? && Stored(Pass(sys, e).server)
    requires Latest(Pass(sys, e).server).status.phase == Ready
    ensures var spec, m := PlanCopy(sys, e).value.spec, Mounted(Admitted(sys, e), PlanCopy(sys, e).value, e);
            var before, after := sys.world.ceph, Pass(sys, e).world.ceph;
            && (forall name :: name in after.pools <==> name in before.pools || HasPool(PoolsOf(m), name))
            && (AllPools(spec, after) <==> forall p | p in PoolsOf(spec) ::
                 p.name in before.pools || HasPool(PoolsOf(m), p.name))
  {
    ReadyPassBuilt(sys, e);
    var c := PlanCopy(sys, e).value;
    var p := Opening(Admitted(sys, e), c, e);
    var site := SiteOf(p.sys, p.local, e);
    hide Good, Pass, PlanCopy, UpdateStatus, Admitted, PoolsOf, Execute, Completes, SiteOf;
    forall name
      ensures name in Pass(sys, e).world.ceph.pools
              <==> name in sys.world.ceph.pools || HasPool(PoolsOf(site.mounted), name)
    {
      CompletePools(sys.world.ceph, site, c.spec, e.ceph, name);
    }
  }

  /** No pass creates a pool that the mounted script does not name. */
  lemma PassPools(sys: System, e: Env, name: string)
    requires Good(sys) && name in Pass(sys, e).world.ceph.pools && name !in sys.world.ceph.pools
    ensures ReadCopy(sys, e).Some? && HasPool(PoolsOf(Mounted(Admitted(sys, e), ReadCopy(sys, e).value, e)), name)
  {
    ActsOnlyAnnounced(sys, e);
    hide Good, Pass, Admitted, ReadCopy, UpdateStatus, Execute, PoolsOf, Admissible, ApplyEdits;
    var p := Opening(Admitted(sys, e), ReadCopy(sys, e).value, e);
    if p.local.status.phase == ConfiguringCeph {
      WalkPools(sys.world.ceph, SiteOf(p.sys, p.local, e), p.local.spec, e.ceph, name);
    }
  }

  /* ---------------------------------------------------------------- runs */

  /** A pool exists only if the start had it or some stored spec names it. */
  lemma {:induction false} PoolsWithinSpecs(start: System, envs: seq<Env>, sys: System, name: string)
    requires LeadsTo(start, envs, sys) && name in sys.world.ceph.pools
    ensures name in start.world.ceph.pools || exists i | 0 <= i < |sys.server.versions| ::
              HasPool(PoolsOf(sys.server.versions[i].spec), name)
    decreases |envs|
  {
    if envs != [] {
      hide Good, Pass, HasPool, PoolsOf;
      var n := |envs| - 1;
      var before := Run(start, envs[..n]);
      GoodParts(before);
      PassKeeps(before, envs[n]);
      if name in before.world.ceph.pools {
        PoolsWithinSpecs(start, envs[..n], before, name);
        if name !in start.world.ceph.pools {
          var i :| 0 <= i < |before.server.versions| && HasPool(PoolsOf(before.server.versions[i].spec), name);
          assert sys.server.versions[i] == before.server.versions[i];
        }
      } else {
        PassPools(before, envs[n], name);
        MountedIsOfRun(before, envs[n]);
      }
    }
  }

  /** What was mounted during a pass that changed the world had been stored by its end. */
  lemma MountedIsOfRun(sys: System, e: Env)
    requires Good(sys) && Pass(sys, e).world != sys.world
    ensures ReadCopy(sys, e).Some?
    ensures exists i | 0 <= i < |Pass(sys, e).server.versions| ::
              Pass(sys, e).server.versions[i].spec == Mounted(Admitted(sys, e), ReadCopy(sys, e).value, e)
  {
    ActsOnlyAnnounced(sys, e);
    GoodParts(sys);
    PassKeeps(sys, e);
    ReadIsStored(sys, e);
    var c := ReadCopy(sys, e).value;
    var p := Opening(Admitted(sys, e), c, e);
    hide Good, Pass, Admitted, ReadCopy, UpdateStatus, StageChange, Admissible, ApplyEdits, WorldGrows;
    if e.mount.Rendered? && e.mount.version < |p.sys.server.versions| {
      assert Pass(sys, e).server.versions[e.mount.version] == p.sys.server.versions[e.mount.version];
    }
  }

  lemma ReadIsStored(sys: System, e: Env)
    requires Stored(sys.server) && Consistent(sys.server) && ReadCopy(sys, e).Some?
    requires ApplyEdits(sys.server, e.before).versions <= Pass(sys, e).server.versions
    ensures exists i | 0 <= i < |Pass(sys, e).server.versions| ::
              Pass(sys, e).server.versions[i].spec == ReadCopy(sys, e).value.spec
  {
    hide Consistent, Pass, ApplyEdits;
    var s := ApplyEdits(sys.server, e.before);
    var i := VersionRead(s, e.get).value;
    assert Pass(sys, e).server.versions[i] == s.versions[i];
  }

  ghost predicate Covers(a: ClusterSpec, b: ClusterSpec) {
    forall p | p in PoolsOf(b) :: HasPool(PoolsOf(a), p.name)
  }

  /** The scripts of this spec, if there ever are any, create all pools of that one. */
  ghost predicate ScriptsSuffice(was: ClusterSpec, now: ClusterSpec) {
    was.ceph.None? || !Admissible(was) || Covers(was, now)
  }

  /** In sys, where a run that began with nothing led, version i says Ready for `now`, the spec of version u; no
      spec but `now` and `before` was ever stored. */
  ghost predicate ReadyOver(start: System, envs: seq<Env>, sys: System, i: nat, u: nat, before: ClusterSpec,
        now: ClusterSpec) {
    && Initial(start) && LeadsTo(start, envs, sys) && WrittenForSpecOf(sys, i, u)
    && var vs := sys.server.versions;
    && vs[i].status.phase == Ready && vs[u].spec == now
    && forall k | 0 <= k < |vs| :: vs[k].spec in {before, now}
  }

  lemma PoolsOfSome(sys: System, i: nat, u: nat)
    requires Good(sys) && WrittenForSpecOf(sys, i, u) && sys.server.versions[i].status.phase == Ready
    requires sys.server.versions[u].spec.ceph.Some?
    ensures PoolsStored(sys.server.versions, sys.world.ceph)
  {
    PhaseHolds(sys, i, u);
    hide Layered, WrittenFor, Consistent, PoolsStored, Admissible, Built;
    assert StatusOk(sys.server.versions[i].status, sys.server.versions, sys.world);
  }

  lemma ReadyOverCovered(start: System, envs: seq<Env>, sys: System, i: nat, u: nat, before: ClusterSpec,
        now: ClusterSpec)
    requires ReadyOver(start, envs, sys, i, u, before, now) && now.ceph.Some?
               && ScriptsSuffice(before, now)
    ensures AllPools(now, sys.world.ceph)
  {
    PoolsOfSome(sys, i, u);
    hide Run, Good, PoolsOf, Admissible;
    var k :| 0 <= k < |sys.server.versions| && sys.server.versions[k].spec.ceph.Some?
             && Admissible(sys.server.versions[k].spec) && AllPools(sys.server.versions[k].spec, sys.world.ceph);
    if sys.server.versions[k].spec == before {
      forall p | p in PoolsOf(now)
        ensures p.name in sys.world.ceph.pools
      {
        var q :| q in PoolsOf(before) && q.name == p.name;
      }
    }
  }

  /* ---------------------------------------------------------------- a run that ends Ready without the new pools */

  /** A spec is changed to another one, which has Ceph and can be fulfilled. */
  ghost predicate Respecified(was: ClusterSpec, now: ClusterSpec) {
    && was.nodes >= 1 && WellNamed(was)
    && now.nodes >= 1 && Fulfillable(now) && now.ceph.Some? && was != now
  }

  /** The mounted scripts stay those of the first version. */
  function OldScripts(before: seq<Edit>, spec: ClusterSpec): Env {
    Undisturbing(before, spec, Rendered(0), None)
  }

  /** The first pass is for the old spec. */
  lemma FirstPass(was: ClusterSpec)
    requires was.nodes >= 1 && Admissible(was)
    ensures var start := Created(was);
            && Good(start) && Initial(start)
            && var one := Run(start, [OldScripts([], was)]);
            && Steady(one.server, was, 0) && one.server.versions[0].spec == was && one.world.ceph == NO_CEPH
            && IsTrue(Latest(one.server).status, ClusterInitialized)
            && !IsTrue(Latest(one.server).status, AllNodesJoined)
  {
    var start, e := Created(was), OldScripts([], was);
    CreatedFacts(was);
    assert Answered(start.server, Latest(start.server).status, was, Rendered(0), None);
    assert start.server.versions[0].spec == was;
    hide Good, Pass, Run, Undisturbing, Admissible, CanFinish, Created, Answered, NoWorse;
    RunEmpty(start);
    RunStep(start, [], e);
    assert [] + [e] == [e];
    UndisturbedStep(start, was, 0, Rendered(0), None);
    CephUntouched(start, was, 0, Rendered(0), None);
  }

  /** The user changes the spec, and the second pass lets all its nodes join. */
  lemma SecondPass(one: System, was: ClusterSpec, now: ClusterSpec)
    requires Respecified(was, now) && Admissible(was) && Good(one) && Steady(one.server, was, 0)
    requires one.server.versions[0].spec == was && one.world.ceph == NO_CEPH
    requires IsTrue(Latest(one.server).status, ClusterInitialized) && !IsTrue(Latest(one.server).status, AllNodesJoined)
    ensures Consistent(one.server)
    ensures var two := Pass(one, OldScripts([Change(now)], now));
            && Good(two) && Steady(two.server, now, 1) && two.server.versions[0].spec == was
            && two.world.ceph == NO_CEPH
            && IsTrue(Latest(two.server).status, ClusterInitialized)
            && IsTrue(Latest(two.server).status, AllNodesJoined)
            && CanFinish(Latest(two.server).status, now, two.world)
            && (was.ceph.Some? ==> BeforeLast(two, now, 1, Rendered(0), was))
  {
    var e := OldScripts([Change(now)], now);
    GoodParts(one);
    UndisturbingParts([Change(now)], now, Rendered(0), None);
    Changed(one, was, now, 0);
    PassAfterEdits(one, e);
    var mid := one.(server := ApplyEdits(one.server, [Change(now)]));
    assert Answered(mid.server, Latest(mid.server).status, now, Rendered(0), None);
    assert CanFinish(Latest(mid.server).status, now, mid.world);
    assert mid.server.versions[0] == one.server.versions[0];
    hide Good, Pass, Undisturbing, Admissible, ExpectedOSDs, WellNamed, CanFinish, ApplyEdits, Consistent, Answered,
         NoWorse;
    UndisturbedStep(mid, now, 1, Rendered(0), None);
    CephUntouched(mid, now, 1, Rendered(0), None);
  }

  function ThreeOldPasses(was: ClusterSpec, now: ClusterSpec): seq<Env> {
    [OldScripts([], was)] + [OldScripts([Change(now)], now)] + [Last(now, Rendered(0), was)]
  }

  /** In the third pass the pools of the old spec are created, and Ready is reported for the new one. */
  lemma ThirdOldPass(was: ClusterSpec, now: ClusterSpec)
    requires Respecified(was, now) && was.ceph.Some? && Admissible(was)
    ensures var start := Created(was);
            && Good(start) && Initial(start)
            && var sys := Run(start, ThreeOldPasses(was, now));
            && Steady(sys.server, now, 1)
            && Latest(sys.server).status.phase == Ready && Latest(sys.server).status.observedGeneration == 1
            && Exact(FullReport(now, was), sys.world.ceph) && |sys.world.ceph.osds| == now.nodes * PerNode(now)
  {
    FirstPass(was);
    var start, e1, e2 := Created(was), OldScripts([], was), OldScripts([Change(now)], now);
    var one, two := Run(start, [e1]), Run(start, [e1] + [e2]);
    hide Good, Pass, Run, OldScripts, Last, Admissible, ExpectedOSDs, WellNamed, CanFinish, Created, FullReport,
         Exact, PerNode, BeforeLast;
    RunStep(start, [e1], e2);
    SecondPass(one, was, now);
    RunStep(start, [e1] + [e2], Last(now, Rendered(0), was));
    LastPass(two, now, 1, Rendered(0), was);
  }

  lemma OldReports(was: ClusterSpec, now: ClusterSpec)
    ensures var envs := ThreeOldPasses(was, now);
            && |envs| == 3 && envs[0].cephStatus.None? && envs[1].cephStatus.None?
            && envs[2].cephStatus == Some(FullLine(now, was))
  {
    UndisturbingParts([], was, Rendered(0), None);
    UndisturbingParts([Change(now)], now, Rendered(0), None);
    UndisturbingParts([], now, Rendered(0), Some(FullLine(now, was)));
    hide Undisturbing, FullLine;
  }

  lemma OldPassesAreHonest(was: ClusterSpec, now: ClusterSpec)
    requires Respecified(was, now) && was.ceph.Some? && Admissible(was)
    ensures Good(Created(was)) && HonestRun(Created(was), ThreeOldPasses(was, now))
  {
    hide Run, Good, Created, WellNamed, FullLine, FullReport, Exact, Admissible, ThreeOldPasses, ExpectedOSDs,
         PerNode, Honest, HonestRun, Initial;
    ThirdOldPass(was, now);
    OldReports(was, now);
    ExactIsHonest(now, was, Run(Created(was), ThreeOldPasses(was, now)).world.ceph);
    LastIsHonest(Created(was), ThreeOldPasses(was, now));
  }

  /** The pools that exist are those the report of a complete cluster lists. */
  lemma ExactPools(spec: ClusterSpec, mounted: ClusterSpec, w: CephWorld, name: string)
    requires Exact(FullReport(spec, mounted), w)
    ensures name in w.pools <==> HasPool(PoolsOf(mounted), name)
  {
    PoolNamesMeaning(PoolsOf(mounted), name);
    hide PoolsOf, HasPool;
  }

  /** A run in which no request and no script fails and every report is the exact truth ends Ready for the second
      spec, with all its OSDs, and with exactly the pools of the first. The devices it finds are those the second spec
      asks for, so if that asks for no more per node than the first, those of the first layout will do. */
  lemma ReadyWithoutNewPools(was: ClusterSpec, now: ClusterSpec)
    returns (start: System, envs: seq<Env>, sys: System, i: nat)
    requires Respecified(was, now) && was.ceph.Some? && Admissible(was)
    ensures ReadyOver(start, envs, sys, i, i, was, now) && HonestRun(start, envs)
    ensures Exact(FullReport(now, was), sys.world.ceph) && |sys.world.ceph.osds| == now.nodes * PerNode(now)
    ensures forall name :: name in sys.world.ceph.pools <==> HasPool(PoolsOf(was), name)
  {
    start, envs := Created(was), ThreeOldPasses(was, now);
    ThirdOldPass(was, now);
    OldPassesAreHonest(was, now);
    sys := Run(start, envs);
    forall name
      ensures name in sys.world.ceph.pools <==> HasPool(PoolsOf(was), name)
    {
      ExactPools(now, was, sys.world.ceph, name);
    }
    hide Good, Run, Respecified, PoolsOf, HasPool, Created, Exact, FullReport, HonestRun, ThreeOldPasses, PerNode;
    i := EndsReady(start, envs, sys, was, now);
  }

  lemma EndsReady(start: System, envs: seq<Env>, sys: System, was: ClusterSpec, now: ClusterSpec) returns (i: nat)
    requires start == Created(was) && Initial(start) && LeadsTo(start, envs, sys) && Steady(sys.server, now, 1)
    requires Latest(sys.server).status.phase == Ready && Latest(sys.server).status.observedGeneration == 1
    ensures ReadyOver(start, envs, sys, i, i, was, now)
  {
    i := |sys.server.versions| - 1;
    assert sys.server.versions[0] == start.server.versions[0];
    hide Run, Good;
    OnlyTheseSpecs(sys, was, now);
  }

  lemma OnlyTheseSpecs(sys: System, was: ClusterSpec, now: ClusterSpec)
    requires Good(sys) && Steady(sys.server, now, 1) && sys.server.versions[0].spec == was
               && sys.server.versions[0].generation == 0
    ensures forall k | 0 <= k < |sys.server.versions| :: sys.server.versions[k].spec in {was, now}
  {
    var vs, last := sys.server.versions, |sys.server.versions| - 1;
    forall k | 0 <= k < |vs|
      ensures vs[k].spec in {was, now}
    {
      assert vs[k].generation == vs[0].generation || vs[k].generation == vs[last].generation;
    }
  }

  /** When a spec is changed to one with Ceph: Ready for the new spec means that all its pools exist, whatever
      happens on the way, if and only if the old spec was without Ceph, was not admissible, or already named them
      all. Honest reports make no difference. */
  lemma ReadyMeansAllPools(was: ClusterSpec, now: ClusterSpec)
    requires Respecified(was, now)
    ensures (forall start, envs, sys, i, u | ReadyOver(start, envs, sys, i, u, was, now) ::
              AllPools(now, sys.world.ceph))
            <==> ScriptsSuffice(was, now)
    ensures (forall start, envs, sys, i, u | ReadyOver(start, envs, sys, i, u, was, now) && HonestRun(start, envs) ::
               AllPools(now, sys.world.ceph))
            <==> ScriptsSuffice(was, now)
  {
    if ScriptsSuffice(was, now) {
      hide ReadyOver, PoolsOf, HonestRun;
      forall start, envs, sys, i, u | ReadyOver(start, envs, sys, i, u, was, now)
        ensures AllPools(now, sys.world.ceph)
      {
        ReadyOverCovered(start, envs, sys, i, u, was, now);
      }
    } else {
      var start, envs, sys, i := ReadyWithoutNewPools(was, now);
      hide ReadyOver, PoolsOf, HonestRun;
    }
  }
}
