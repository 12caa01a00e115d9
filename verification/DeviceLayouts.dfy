/** The devices of the pods come from the volumeClaimTemplates with which the StatefulSet was created; later specs do
    not change them. What that means for a spec that asks for another number of devices per node. */
module DeviceLayouts {
  import opened Basics
  import opened CephSpec
  import opened CephStatus
  import opened CephScripts
  import opened ClusterApi
  import opened ApiServer
  import opened Reconcile
  import opened Safety
  import opened Progress
  import opened HonestReports
  import opened FullReports
  import opened GoodRuns

  /** No pass finds other devices than these. */
  ghost predicate Offers(envs: seq<Env>, devices: set<(int, int)>) {
    forall k | 0 <= k < |envs| :: envs[k].blocks <= devices
  }

  /** No execution, complete or not, creates an OSD on anything but a device on offer. */
  lemma WalkDevices(w: CephWorld, site: Site, spec: ClusterSpec, env: nat -> Exec)
    requires spec.nodes >= 1
    ensures Execute(w, site, spec, env).world.osds <= w.osds + site.blocks
  {
    if spec.ceph.Some? {
      WalkAims(w, site, site, spec, |Plan(spec)|, env);
      var v := Execute(w, site, spec, env).world;
      hide Execute, PoolsOf;
      assert Target(v, site, spec).osds == Target(w, site, spec).osds;
    }
  }

  lemma PassDevices(sys: System, e: Env)
    requires Good(sys)
    ensures Pass(sys, e).world.ceph.osds <= sys.world.ceph.osds + e.blocks
  {
    GoodParts(sys);
    hide Good, Pass, Admitted, ReadCopy, UpdateStatus, Execute, PoolsOf, Admissible, ApplyEdits;
    if Pass(sys, e).world != sys.world {
      ActsOnlyAnnounced(sys, e);
      var p := Opening(Admitted(sys, e), ReadCopy(sys, e).value, e);
      if p.local.status.phase == ConfiguringCeph {
        WalkDevices(sys.world.ceph, SiteOf(p.sys, p.local, e), p.local.spec, e.ceph);
      }
    }
  }

  /** An OSD is there only if the start had it or its device was on offer. */
  lemma {:induction false} RunDevices(start: System, envs: seq<Env>, sys: System, devices: set<(int, int)>)
    requires LeadsTo(start, envs, sys) && Offers(envs, devices)
    ensures sys.world.ceph.osds <= start.world.ceph.osds + devices
    decreases |envs|
  {
    if envs != [] {
      hide Good, Pass;
      var n := |envs| - 1;
      RunDevices(start, envs[..n], Run(start, envs[..n]), devices);
      PassDevices(Run(start, envs[..n]), envs[n]);
    }
  }

  /** With honest reports, Ready for a Ceph spec needs all its OSDs on the devices of the first layout, m on each of n
      pods, whatever specs came before it. If the spec has at least these pods and its product does not wrap around,
      it asks for no more devices per node than the layout has. */
  lemma ReadyFitsLayout(start: System, envs: seq<Env>, sys: System, i: nat, u: nat, n: nat, m: nat)
    requires Initial(start) && LeadsTo(start, envs, sys) && HonestRun(start, envs) && Offers(envs, Grid(n, m))
    requires WrittenForSpecOf(sys, i, u)
    requires sys.server.versions[i].status.phase == Ready && sys.server.versions[u].spec.ceph.Some?
    ensures var spec := sys.server.versions[u].spec;
            && 1 <= ExpectedOSDs(spec) <= n * m
            && (n <= spec.nodes && spec.nodes * PerNode(spec) <= 0x7fff_ffff ==> PerNode(spec) <= m)
  {
    hide Run, Good, HonestRun, Offers, Grid, ExpectedOSDs, PerNode, AllAtMost;
    assert AllAtMost(start.server, |start.world.ceph.osds|) by {
      NothingReported(start);
    }
    RunDevices(start, envs, sys, Grid(n, m));
    SubsetSize(sys.world.ceph.osds, Grid(n, m));
    ReadyExpects(start, envs, sys, i, u);
    NodesPositive(sys, u);
    NoMoreThan(sys.server.versions[u].spec, n, m);
  }

  lemma NothingReported(start: System)
    requires Initial(start)
    ensures AllAtMost(start.server, |start.world.ceph.osds|)
  {
  }

  lemma ReadyExpects(start: System, envs: seq<Env>, sys: System, i: nat, u: nat)
    requires LeadsTo(start, envs, sys) && HonestRun(start, envs) && AllAtMost(start.server, |start.world.ceph.osds|)
    requires WrittenForSpecOf(sys, i, u)
    requires sys.server.versions[i].status.phase == Ready && sys.server.versions[u].spec.ceph.Some?
    ensures 1 <= ExpectedOSDs(sys.server.versions[u].spec) <= |sys.world.ceph.osds|
  {
    ReportsHold(start, envs, sys);
    PersistedPhase(start, envs, sys, i, u);
    assert AtMost(sys.server.versions[i].status, |sys.world.ceph.osds|);
    hide Run, Good, HonestRun, Admissible, Built, ExpectedOSDs;
  }

  lemma NodesPositive(sys: System, u: nat)
    requires Good(sys) && u < |sys.server.versions|
    ensures sys.server.versions[u].spec.nodes >= 1
  {
  }

  lemma NoMoreThan(spec: ClusterSpec, n: nat, m: nat)
    requires spec.ceph.Some? && spec.nodes >= 1 && ExpectedOSDs(spec) <= n * m
    ensures n <= spec.nodes && spec.nodes * PerNode(spec) <= 0x7fff_ffff ==> PerNode(spec) <= m
  {
    if n <= spec.nodes && spec.nodes * PerNode(spec) <= 0x7fff_ffff {
      assert ExpectedOSDs(spec) == spec.nodes * PerNode(spec);
      Product(spec.nodes - n, m);
      Divided(spec.nodes, PerNode(spec), m);
    }
  }

  lemma Divided(n: nat, p: int, m: int)
    requires n >= 1 && n * p <= n * m
    ensures p <= m
  {
    if p - m >= 1 {
      Product(n, p - m - 1);
    }
  }

  lemma Product(a: nat, b: nat)
    ensures a * b >= 0
  {
  }

  lemma GridGrows(n: nat, k: nat, m: nat)
    requires k <= m
    ensures Grid(n, k) <= Grid(n, m)
  {
  }

  lemma ThreePassesOffer(spec: ClusterSpec, m: nat)
    requires spec.nodes >= 1 && PerNode(spec) <= m
    ensures Offers(ThreePasses(spec), Grid(spec.nodes, m))
  {
    hide Undisturbing, LastHeard, PerNode, PerNodeEnv, Grid;
    assert Blocks(spec) <= Grid(spec.nodes, m) by {
      GridGrows(spec.nodes, PerNode(spec), m);
    }
    hide Blocks;
    UndisturbingParts([], spec, Current, None);
    UndisturbingParts([], spec, Current, LastHeard(spec));
    var envs := ThreePasses(spec);
    assert |envs| == 3 && envs[0].blocks == envs[1].blocks == envs[2].blocks == Blocks(spec);
  }

  lemma ReadyOnLayout(start: System, envs: seq<Env>, spec: ClusterSpec, m: nat)
    requires start == Created(spec) && spec.nodes >= 1 && spec.ceph.Some? && spec.nodes * PerNode(spec) <= 0x7fff_ffff
    requires Good(start) && HonestRun(start, envs) && Offers(envs, Grid(spec.nodes, m))
    requires BecameReady(start, Run(start, envs), 0)
    ensures PerNode(spec) <= m
  {
    hide Run, Good, HonestRun, Offers, Grid, PerNode, ExpectedOSDs;
    CreatedFacts(spec);
    hide Initial;
    var sys := Run(start, envs);
    var i :| 0 <= i < |sys.server.versions| && sys.server.versions[i].status.phase == Ready
             && sys.server.versions[i].status.observedGeneration == 0;
    assert sys.server.versions[0] == start.server.versions[0];
    ReadyFitsLayout(start, envs, sys, i, 0, spec.nodes, m);
  }

  /** On pods with m devices each, a new Ceph cluster can become Ready, with honest reports, if and only if its spec
      asks for no more than m. */
  lemma LayoutDecides(spec: ClusterSpec, m: nat)
    requires spec.nodes >= 1 && spec.ceph.Some? && Fulfillable(spec) && WellNamed(spec)
    requires spec.nodes * PerNode(spec) <= 0x7fff_ffff
    ensures Good(Created(spec))
    ensures (exists envs :: HonestRun(Created(spec), envs) && Offers(envs, Grid(spec.nodes, m))
                            && BecameReady(Created(spec), Run(Created(spec), envs), 0))
            <==> PerNode(spec) <= m
  {
    hide Run, Good, HonestRun, Offers, Grid, PerNode, Exact, FullReport, Initial;
    var start := Created(spec);
    CreatedFacts(spec);
    if PerNode(spec) <= m {
      NewClusterCanBecomeReady(spec);
      ThreePassesOffer(spec, m);
    }
    forall envs | HonestRun(start, envs) && Offers(envs, Grid(spec.nodes, m)) && BecameReady(start, Run(start, envs), 0)
      ensures PerNode(spec) <= m
    {
      ReadyOnLayout(start, envs, spec, m);
    }
  }
}
