/** Runs in which nothing goes wrong, every pod brings its devices, and ceph-status.sh tells exactly what there
    is: they exist for every spec that can be fulfilled. */
module GoodRuns {
  import opened Basics
  import opened Text
  import opened CephSpec
  import opened CephStatus
  import opened CephScripts
  import opened ClusterApi
  import opened ApiServer
  import opened Reconcile
  import opened Retries
  import opened Safety
  import opened Progress
  import opened CephPasses
  import opened HonestReports
  import opened FullReports

  /** A spec Ceph can live up to: it expects an OSD. */
  predicate Fulfillable(spec: ClusterSpec) {
    Admissible(spec) && (spec.ceph.Some? ==> ExpectedOSDs(spec) >= 1)
  }

  /* ---------------------------------------------------------------- undisturbed passes */

  function Prompt(k: nat): Attempt {
    Attempt([], Fresh, [], Accepted)
  }

  lemma PromptSettles()
    ensures Settles(Prompt)
  {
    SettlesAtOnce(Prompt);
  }

  function Easy(k: int): Exec {
    Exec(true, true, n => Accepted, true)
  }

  function EasyTask(k: nat): Exec {
    Easy(k)
  }

  /** A pass nothing disturbs; out is what ceph-status.sh prints if it comes to that. */
  function Undisturbing(before: seq<Edit>, spec: ClusterSpec, mount: Mount, out: Option<string>): Env {
    Env(before, Fresh, Prompt, true, StsSeen(spec.nodes), Prompt, Prompt, Easy(0), Easy, Blocks(spec),
        PerNodeEnv(spec), mount,
        EasyTask, out)
  }

  function Created(spec: ClusterSpec): System {
    System(Server([Object(0, spec, [FINALIZER], map[], false, NO_STATUS)], false), World({}, 0, NO_CEPH))
  }

  lemma UndisturbingParts(before: seq<Edit>, spec: ClusterSpec, mount: Mount, out: Option<string>)
    ensures var e := Undisturbing(before, spec, mount, out);
            && e.before == before && e.get == Fresh && e.resourcesOk && e.sts == StsSeen(spec.nodes)
            && e.finalizer == e.first == e.second == Prompt && e.ceph == EasyTask && e.mount == mount
            && e.cephStatus == out
            && e.blocks == Blocks(spec) && e.osdsPerNode == PerNodeEnv(spec)
            && e.(before := []) == Undisturbing([], spec, mount, out)
  {
    hide Blocks, PerNodeEnv;
  }

  lemma RunEmpty(start: System)
    requires Good(start)
    ensures Run(start, []) == start
  {
  }

  lemma RunStep(start: System, envs: seq<Env>, e: Env)
    requires Good(start)
    ensures Good(Run(start, envs)) && Run(start, envs + [e]) == Pass(Run(start, envs), e)
  {
    GoodParts(Run(start, envs));
    assert (envs + [e])[..|envs|] == envs;
  }

  /** The status line, if the pass needs one, says that Ceph is usable, and the pool script is there. */
  ghost predicate Answered(s: Server, st: Status, spec: ClusterSpec, mount: Mount, out: Option<string>) {
    spec.ceph.Some? && IsTrue(st, AllNodesJoined) ==>
      && out.Some? && CephUsable(StatusOf(spec, out.value))
      && (mount.Current? || (mount.version < |s.versions| && s.versions[mount.version].spec.ceph.Some?))
  }

  lemma UndisturbedPass(sys: System, spec: ClusterSpec, generation: nat, mount: Mount, out: Option<string>)
    requires Good(sys) && Steady(sys.server, spec, generation)
    requires Answered(sys.server, Latest(sys.server).status, spec, mount, out)
    ensures var e := Undisturbing([], spec, mount, out);
            Calm(sys, e, spec) && Undisturbed(sys.server, Latest(sys.server).status, e, spec)
  {
    hide Good, StatusOf, CephUsable, Blocks, PerNodeEnv;
    var e := Undisturbing([], spec, mount, out);
    PromptSettles();
    hide Settles;
    assert GoodWrites(e) && Smooth(e.init) && (forall k :: Smooth(e.ceph(k))) && forall i :: Smooth(e.join(i));
  }

  lemma CreatedFacts(spec: ClusterSpec)
    requires spec.nodes >= 1
    ensures var start := Created(spec);
            && Initial(start) && Good(start) && Steady(start.server, spec, 0) && CalmRun(start, [], spec)
            && CanFinish(Latest(start.server).status, spec, start.world) && start.world.ceph == NO_CEPH
            && !IsTrue(Latest(start.server).status, ClusterInitialized)
            && !IsTrue(Latest(start.server).status, AllNodesJoined)
            && AllAtMost(start.server, |start.world.ceph.osds|)
  {
    InitialIsGood(Created(spec));
    hide Good;
  }

  /** One undisturbed pass. */
  lemma UndisturbedStep(sys: System, spec: ClusterSpec, generation: nat, mount: Mount, out: Option<string>)
    requires Good(sys) && Steady(sys.server, spec, generation) && Admissible(spec)
    requires Answered(sys.server, Latest(sys.server).status, spec, mount, out)
    requires CanFinish(Latest(sys.server).status, spec, sys.world)
    ensures Consistent(sys.server)
    ensures var was, t := Latest(sys.server).status, Pass(sys, Undisturbing([], spec, mount, out));
            && Good(t) && Steady(t.server, spec, generation) && sys.server.versions <= t.server.versions
            && CanFinish(Latest(t.server).status, spec, t.world)
            && NoWorse(was, Latest(t.server).status) && Gained(was, Latest(t.server).status, generation)
            && (IsTrue(Latest(t.server).status, AllNodesJoined) ==> IsTrue(was, ClusterInitialized))
  {
    hide Good, Pass, Undisturbing, Undisturbed, Calm, Advance, Admissible, CanFinish, Gained, NoWorse, WorldGrows,
         Answered;
    GoodParts(sys);
    var e := Undisturbing([], spec, mount, out);
    UndisturbedPass(sys, spec, generation, mount, out);
    PassAdvances(sys, e, spec, generation);
    PassKeeps(sys, e);
    AdvanceLatest(sys.server, Pass(sys, e).server);
  }

  lemma ReadsLatest(sys: System, e: Env, spec: ClusterSpec, generation: nat)
    requires Steady(sys.server, spec, generation) && e.before == [] && e.get == Fresh
    ensures ReadCopy(sys, e) == Some(Local(spec, generation, Latest(sys.server).status))
  {
    NoEdits(sys.server);
    hide ApplyEdits;
  }

  lemma StageSparesCeph(p: Put, e: Env, v: World, w: World)
    requires p.local.spec.nodes >= 1 && StageChange(p, e, v, w) && p.local.status.phase != ConfiguringCeph
    ensures w.ceph == v.ceph
  {
    hide JoinAll;
  }

  /** Before all nodes have joined, a pass leaves Ceph alone. */
  lemma CephUntouched(sys: System, spec: ClusterSpec, generation: nat, mount: Mount, out: Option<string>)
    requires Good(sys) && Steady(sys.server, spec, generation) && !IsTrue(Latest(sys.server).status, AllNodesJoined)
    ensures Consistent(sys.server) && Pass(sys, Undisturbing([], spec, mount, out)).world.ceph == sys.world.ceph
  {
    hide Good, Pass, ApplyEdits, Admissible, UpdateStatus, Admitted, Undisturbing, Consistent, StageChange, ReadCopy,
         Steady;
    GoodParts(sys);
    var e := Undisturbing([], spec, mount, out);
    UndisturbingParts([], spec, mount, out);
    ReadsLatest(sys, e, spec, generation);
    if Pass(sys, e).world != sys.world {
      ActsOnlyAnnounced(sys, e);
      StageSparesCeph(Opening(Admitted(sys, e), ReadCopy(sys, e).value, e), e, sys.world, Pass(sys, e).world);
    }
  }

  /* ---------------------------------------------------------------- the pass that builds Ceph */

  /** What a pass with this mount finds in pod 0. */
  ghost predicate MountedIs(s: Server, spec: ClusterSpec, mount: Mount, mounted: ClusterSpec) {
    match mount
    case Current => mounted == spec
    case Rendered(v) => v < |s.versions| && s.versions[v].spec == mounted && Admissible(mounted)
  }

  /** An undisturbed pass over a joined cluster gets to the plan. */
  lemma GetsToPlan(sys: System, e: Env, spec: ClusterSpec, generation: nat)
    requires Good(sys) && Steady(sys.server, spec, generation) && Admissible(spec) && spec.ceph.Some?
    requires StagePhase(Latest(sys.server).status) == ConfiguringCeph && Calm(sys, e, spec)
    requires Undisturbed(sys.server, Latest(sys.server).status, e, spec)
    ensures PlanCopy(sys, e).Some? && PlanCopy(sys, e).value.spec == spec
              && PlanCopy(sys, e).value.generation == generation
    ensures sys.server.versions <= Opening(Admitted(sys, e), PlanCopy(sys, e).value, e).sys.server.versions
  {
    hide Advance, Quiet, Settles, Call, ApplyEdits, Harmless, Smooth, CephGood, Admissible, Consistent,
         ScriptsMounted, UpdateStatus, Good;
    GoodParts(sys);
    EditsAdvance(sys.server, e.before, spec, generation);
    var s := ApplyEdits(sys.server, e.before);
    var o := Latest(s);
    AdvanceReflexive(s);
    CallAdvances(s, AddFinalizer(FINALIZER), e.finalizer, spec, generation);
    SmoothCall(s, AddFinalizer(FINALIZER), e.finalizer, spec, generation);
    var s1 := Admit(s, o, e.finalizer).0;
    AdvanceTransitive(sys.server, s, s1);
    var c := Local(o.spec, o.generation, o.status);
    NoWorseReflexive(o.status);
    var c1 := Set(c, StatefulSetReady, true, "AllPodsReady", "NotAllPodsReady");
    UpdateAdvances(sys.(server := s1), c1, ConfiguringCeph, e.first, spec, generation);
    var p := Opening(sys.(server := s1), c, e);
    AdvanceTransitive(sys.server, s1, p.sys.server);
    AdvancePrefix(sys.server, p.sys.server);
  }

  lemma AdvancePrefix(s: Server, t: Server)
    requires Advance(s, t)
    ensures s.versions <= t.versions
  {
  }

  /** Before a pass over a joined cluster whose last line tells of a complete Ceph cluster. */
  ghost predicate BeforeLast(sys: System, spec: ClusterSpec, generation: nat, mount: Mount, mounted: ClusterSpec) {
    && Good(sys) && Steady(sys.server, spec, generation) && Fulfillable(spec) && spec.ceph.Some?
    && StagePhase(Latest(sys.server).status) == ConfiguringCeph && CanFinish(Latest(sys.server).status, spec, sys.world)
    && sys.world.ceph == NO_CEPH
    && MountedIs(sys.server, spec, mount, mounted) && mounted.ceph.Some? && WellNamed(mounted)
  }

  function Last(spec: ClusterSpec, mount: Mount, mounted: ClusterSpec): Env {
    Undisturbing([], spec, mount, Some(FullLine(spec, mounted)))
  }

  lemma LastIsAnswered(sys: System, spec: ClusterSpec, generation: nat, mount: Mount, mounted: ClusterSpec)
    requires BeforeLast(sys, spec, generation, mount, mounted)
    ensures spec.nodes >= 1 && IsTrue(Latest(sys.server).status, AllNodesJoined)
    ensures IsTrue(Latest(sys.server).status, ClusterInitialized)
    ensures Answered(sys.server, Latest(sys.server).status, spec, mount, Some(FullLine(spec, mounted)))
  {
    LatestFacts(sys, spec, generation);
    hide Good, FullLine, StatusOf, CephUsable, ExpectedOSDs, WellNamed, CanFinish, Admissible;
    FullIsUsable(spec, mounted);
  }

  lemma LastIsReady(sys: System, spec: ClusterSpec, generation: nat, mount: Mount, mounted: ClusterSpec)
    requires BeforeLast(sys, spec, generation, mount, mounted)
    ensures Consistent(sys.server)
    ensures var t := Pass(sys, Last(spec, mount, mounted));
            && Good(t) && Steady(t.server, spec, generation)
            && Latest(t.server).status.phase == Ready && Latest(t.server).status.observedGeneration == generation
  {
    LastIsAnswered(sys, spec, generation, mount, mounted);
    hide Good, Pass, Undisturbing, FullLine, CanFinish, Answered, Admissible, ExpectedOSDs, WellNamed, NoWorse;
    UndisturbedStep(sys, spec, generation, mount, Some(FullLine(spec, mounted)));
  }

  lemma LastGetsToPlan(sys: System, spec: ClusterSpec, generation: nat, mount: Mount, mounted: ClusterSpec)
    requires BeforeLast(sys, spec, generation, mount, mounted)
    ensures var e := Last(spec, mount, mounted);
            && PlanCopy(sys, e).Some? && PlanCopy(sys, e).value.spec == spec
            && sys.server.versions <= Opening(Admitted(sys, e), PlanCopy(sys, e).value, e).sys.server.versions
  {
    LastIsAnswered(sys, spec, generation, mount, mounted);
    hide Good, Undisturbing, Undisturbed, Calm, Admissible, CanFinish, Answered, WellNamed, FullLine, ExpectedOSDs,
         PlanCopy;
    UndisturbedPass(sys, spec, generation, mount, Some(FullLine(spec, mounted)));
    GetsToPlan(sys, Last(spec, mount, mounted), spec, generation);
  }

  /** The ceph-pool.sh that it finds is the one meant. */
  lemma LastMounts(s: Server, t: System, c: Local, e: Env, spec: ClusterSpec, mounted: ClusterSpec)
    requires s.versions <= t.server.versions && c.spec == spec && MountedIs(s, spec, e.mount, mounted)
    ensures SiteOf(t, c, e).mounted == mounted
  {
  }

  /** A pass that ends Ready leaves the Ceph cluster that its report describes. */
  lemma LastIsExact(sys: System, e: Env, spec: ClusterSpec, mounted: ClusterSpec)
    requires Good(sys) && sys.world.ceph == NO_CEPH && MountedIs(sys.server, spec, e.mount, mounted)
    requires PlanCopy(sys, e).Some? && PlanCopy(sys, e).value.spec == spec
    requires sys.server.versions <= Opening(Admitted(sys, e), PlanCopy(sys, e).value, e).sys.server.versions
    requires e.blocks == Blocks(spec) && e.osdsPerNode == PerNodeEnv(spec)
    requires Stored(Pass(sys, e).server) && Latest(Pass(sys, e).server).status.phase == Ready
    ensures var w := Pass(sys, e).world.ceph;
            Exact(FullReport(spec, mounted), w) && |w.osds| == spec.nodes * PerNode(spec)
  {
    ReadyPassBuilt(sys, e);
    var p := Opening(Admitted(sys, e), PlanCopy(sys, e).value, e);
    hide Good, Pass, FullReport, Exact, Blocks, PerNodeEnv, PerNode, PlanCopy, UpdateStatus, Admitted, Execute,
         Completes, SiteOf;
    LastMounts(sys.server, p.sys, p.local, e, spec, mounted);
    FullIsExact(SiteOf(p.sys, p.local, e), spec, e.ceph);
  }

  /** It leaves Ready and what its report describes. */
  lemma LastPass(sys: System, spec: ClusterSpec, generation: nat, mount: Mount, mounted: ClusterSpec)
    requires BeforeLast(sys, spec, generation, mount, mounted)
    ensures Consistent(sys.server)
    ensures var t := Pass(sys, Last(spec, mount, mounted));
            && Good(t) && Steady(t.server, spec, generation)
            && Latest(t.server).status.phase == Ready && Latest(t.server).status.observedGeneration == generation
            && Exact(FullReport(spec, mounted), t.world.ceph) && |t.world.ceph.osds| == spec.nodes * PerNode(spec)
  {
    LastIsReady(sys, spec, generation, mount, mounted);
    LastGetsToPlan(sys, spec, generation, mount, mounted);
    UndisturbingParts([], spec, mount, Some(FullLine(spec, mounted)));
    hide Good, Pass, Undisturbing, Admissible, CanFinish, WellNamed, FullLine, FullReport, Exact, Blocks, PerNodeEnv,
         PerNode, ExpectedOSDs, PlanCopy, UpdateStatus, Admitted;
    LastIsExact(sys, Last(spec, mount, mounted), spec, mounted);
  }

  /* ---------------------------------------------------------------- new clusters */

  /** Nothing to hear in the first two passes; in the third, for Ceph, the whole truth. */
  function LastHeard(spec: ClusterSpec): Option<string> {
    if spec.ceph.Some? then Some(FullLine(spec, spec)) else None
  }

  function ThreePasses(spec: ClusterSpec): seq<Env> {
    var e := Undisturbing([], spec, Current, None);
    [e] + [e] + [Undisturbing([], spec, Current, LastHeard(spec))]
  }

  /** The first two passes on a new cluster. */
  lemma TwoPasses(spec: ClusterSpec)
    requires spec.nodes >= 1 && Admissible(spec)
    ensures var start, e := Created(spec), Undisturbing([], spec, Current, None);
            && Initial(start) && Good(start)
            && var one, sys := Run(start, [e]), Run(start, [e] + [e]);
            && IsTrue(Latest(one.server).status, ClusterInitialized)
            && Steady(one.server, spec, 0) && Steady(sys.server, spec, 0)
            && IsTrue(Latest(sys.server).status, ClusterInitialized)
            && IsTrue(Latest(sys.server).status, AllNodesJoined)
            && CanFinish(Latest(sys.server).status, spec, sys.world) && sys.world.ceph == NO_CEPH
  {
    var start, e := Created(spec), Undisturbing([], spec, Current, None);
    CreatedFacts(spec);
    assert Answered(start.server, Latest(start.server).status, spec, Current, None);
    hide Good, Pass, Run, Undisturbing, Admissible, CanFinish, Created;
    RunEmpty(start);
    RunStep(start, [], e);
    assert [] + [e] == [e];
    RunStep(start, [e], e);
    UndisturbedStep(start, spec, 0, Current, None);
    CephUntouched(start, spec, 0, Current, None);
    var one := Run(start, [e]);
    assert Answered(one.server, Latest(one.server).status, spec, Current, None);
    UndisturbedStep(one, spec, 0, Current, None);
    CephUntouched(one, spec, 0, Current, None);
  }

  lemma NothingToAsk(s: Server, spec: ClusterSpec)
    requires Stored(s) && spec.ceph.None?
    ensures Answered(s, Latest(s).status, spec, Current, None)
  {
  }

  lemma ThirdStep(two: System, spec: ClusterSpec)
    requires Good(two) && Steady(two.server, spec, 0) && Fulfillable(spec) && WellNamed(spec)
               && two.world.ceph == NO_CEPH
    requires IsTrue(Latest(two.server).status, ClusterInitialized) && IsTrue(Latest(two.server).status, AllNodesJoined)
    requires CanFinish(Latest(two.server).status, spec, two.world)
    ensures Consistent(two.server)
    ensures var sys := Pass(two, Undisturbing([], spec, Current, LastHeard(spec)));
            && Steady(sys.server, spec, 0)
            && Latest(sys.server).status.phase == Ready && Latest(sys.server).status.observedGeneration == 0
            && (spec.ceph.Some? ==>
                  Exact(FullReport(spec, spec), sys.world.ceph) && |sys.world.ceph.osds| == spec.nodes * PerNode(spec))
  {
    hide Good, Pass, Undisturbing, Admissible, CanFinish, WellNamed, FullLine, FullReport, Exact, PerNode,
         ExpectedOSDs, Answered, NoWorse;
    if spec.ceph.Some? {
      assert LastHeard(spec) == Some(FullLine(spec, spec));
      LastPass(two, spec, 0, Current, spec);
    } else {
      NothingToAsk(two.server, spec);
      UndisturbedStep(two, spec, 0, Current, None);
    }
  }

  /** The third. */
  lemma ThirdPass(spec: ClusterSpec)
    requires spec.nodes >= 1 && Fulfillable(spec) && WellNamed(spec)
    ensures var start := Created(spec);
            && Good(start)
            && var sys := Run(start, ThreePasses(spec));
            && Steady(sys.server, spec, 0)
            && Latest(sys.server).status.phase == Ready && Latest(sys.server).status.observedGeneration == 0
            && (spec.ceph.Some? ==>
                  Exact(FullReport(spec, spec), sys.world.ceph) && |sys.world.ceph.osds| == spec.nodes * PerNode(spec))
  {
    var start, e := Created(spec), Undisturbing([], spec, Current, None);
    TwoPasses(spec);
    hide Good, Pass, Run, Undisturbing, Admissible, CanFinish, Created, WellNamed, LastHeard, FullReport, Exact,
         PerNode;
    RunStep(start, [e] + [e], Undisturbing([], spec, Current, LastHeard(spec)));
    ThirdStep(Run(start, [e] + [e]), spec);
  }

  lemma SilenceIsHonest(w: CephWorld)
    ensures Honest(None, w)
  {
  }

  /** A run in which only the last pass hears something, and that is true. */
  lemma LastIsHonest(start: System, envs: seq<Env>)
    requires Good(start) && envs != [] && forall k | 0 <= k < |envs| - 1 :: envs[k].cephStatus.None?
    requires Honest(envs[|envs| - 1].cephStatus, Run(start, envs).world.ceph)
    ensures HonestRun(start, envs)
  {
    hide Run, Good, Honest;
    assert envs[..|envs|] == envs;
    forall k | 0 <= k < |envs|
      ensures Honest(envs[k].cephStatus, Run(start, envs[..k + 1]).world.ceph)
    {
      if k < |envs| - 1 {
        SilenceIsHonest(Run(start, envs[..k + 1]).world.ceph);
      }
    }
  }

  lemma ThreeHonestPasses(spec: ClusterSpec)
    requires spec.nodes >= 1 && Fulfillable(spec) && WellNamed(spec)
    ensures Good(Created(spec)) && HonestRun(Created(spec), ThreePasses(spec))
  {
    hide Run, Good, Created, Undisturbing, WellNamed, FullLine, FullReport, Exact, Fulfillable, PerNode, Honest,
         HonestRun, Initial;
    ThirdPass(spec);
    UndisturbingParts([], spec, Current, None);
    UndisturbingParts([], spec, Current, LastHeard(spec));
    var envs, w := ThreePasses(spec), Run(Created(spec), ThreePasses(spec)).world.ceph;
    assert |envs| == 3 && envs[0].cephStatus.None? && envs[1].cephStatus.None? && envs[2].cephStatus == LastHeard(spec);
    if spec.ceph.Some? {
      ExactIsHonest(spec, spec, w);
    } else {
      SilenceIsHonest(w);
    }
    hide ThreePasses;
    LastIsHonest(Created(spec), envs);
  }

  /** With honest reports, a new cluster can become Ready exactly if its spec is admissible and, with Ceph,
      expects an OSD; and then three undisturbed passes do it, the last of which hears the exact truth about a Ceph
      cluster with nodes times devices per node OSDs. */
  lemma NewClusterCanBecomeReady(spec: ClusterSpec)
    requires spec.nodes >= 1 && WellNamed(spec)
    ensures Good(Created(spec))
    ensures (exists envs :: HonestRun(Created(spec), envs) && BecameReady(Created(spec), Run(Created(spec), envs), 0))
            <==> Fulfillable(spec)
    ensures Fulfillable(spec) ==>
              var start, sys := Created(spec), Run(Created(spec), ThreePasses(spec));
              && HonestRun(start, ThreePasses(spec)) && BecameReady(start, sys, 0)
              && (spec.ceph.Some? ==>
                    Exact(FullReport(spec, spec), sys.world.ceph)
                        && |sys.world.ceph.osds| == spec.nodes * PerNode(spec))
  {
    var start := Created(spec);
    CreatedFacts(spec);
    if Fulfillable(spec) {
      ThirdPass(spec);
      ThreeHonestPasses(spec);
      LatestIsReady(start, Run(start, ThreePasses(spec)), spec);
    } else {
      forall envs
        ensures !BecameReady(start, Run(start, envs), 0)
      {
        if BecameReady(start, Run(start, envs), 0) {
          ReadyIsFulfillable(start, envs, spec);
        }
      }
    }
  }

  lemma LatestIsReady(start: System, sys: System, spec: ClusterSpec)
    requires |start.server.versions| == 1 && Steady(sys.server, spec, 0)
    requires Latest(sys.server).status.phase == Ready && Latest(sys.server).status.observedGeneration == 0
    ensures Stored(start.server) && BecameReady(start, sys, 0)
  {
    assert sys.server.versions[|sys.server.versions| - 1] == Latest(sys.server);
  }

  /** Whatever happens: Ready for the first spec needs that spec to be fulfillable. */
  lemma ReadyIsFulfillable(start: System, envs: seq<Env>, spec: ClusterSpec)
    requires start == Created(spec) && Good(start) && BecameReady(start, Run(start, envs), 0)
    ensures Fulfillable(spec)
  {
    hide Run, Good, Admissible, Built;
    var sys := Run(start, envs);
    var i :| 0 <= i < |sys.server.versions| && sys.server.versions[i].status.phase == Ready
             && sys.server.versions[i].status.observedGeneration == 0;
    assert sys.server.versions[0] == start.server.versions[0];
    hide Created;
    PhaseHolds(sys, i, 0);
  }

  /* ---------------------------------------------------------------- changing the spec on the way */

  function Change(spec: ClusterSpec): Edit {
    Edit(spec, [FINALIZER], map[], false)
  }

  /** What others write before a pass might as well have been there already. */
  lemma PassAfterEdits(sys: System, e: Env)
    requires Stored(sys.server) && Consistent(sys.server)
    ensures var s := ApplyEdits(sys.server, e.before);
            Consistent(s) && Pass(sys, e) == Pass(sys.(server := s), e.(before := []))
  {
    EditsExtend(sys.server, e.before);
    var s := ApplyEdits(sys.server, e.before);
    NoEdits(s);
    hide ApplyEdits, Consistent, Converge, Admit, Extends, FirstRead;
    var read := FirstRead(s, e.get);
    if read.Some? {
      var o := read.value;
      AdmitExtends(s, o, e.finalizer);
      ReadNodes(s, e.get);
      var s1 := Admit(s, o, e.finalizer).0;
      BeforeIsOver(sys.(server := s1), Local(o.spec, o.generation, o.status), e);
    }
  }

  lemma BeforeIsOver(sys: System, c: Local, e: Env)
    requires Stored(sys.server) && c.spec.nodes >= 1
    ensures Converge(sys, c, e) == Converge(sys, c, e.(before := []))
  {
    hide UpdateStatus, Execute, Plan, JoinAll, ClusterInit, StatusOf, CephUsable, Admissible;
  }

  lemma NoEdits(s: Server)
    requires Stored(s)
    ensures ApplyEdits(s, []) == s
  {
  }

  lemma OneEdit(s: Server, edit: Edit)
    requires Stored(s)
    ensures ApplyEdits(s, [edit]) == ApplyEdit(s, edit)
  {
    assert [edit][..0] == [];
  }

  lemma Changed(sys: System, was: ClusterSpec, spec: ClusterSpec, generation: nat)
    requires Good(sys) && Steady(sys.server, was, generation) && spec != was && spec.nodes >= 1
    ensures var t := sys.(server := ApplyEdits(sys.server, [Change(spec)]));
            && Good(t) && Steady(t.server, spec, generation + 1) && sys.server.versions <= t.server.versions
            && Latest(t.server).status == Latest(sys.server).status && FINALIZER in Latest(t.server).finalizers
  {
    GoodParts(sys);
    OneEdit(sys.server, Change(spec));
    EditsExtend(sys.server, [Change(spec)]);
    EditsPrefix(sys.server, [Change(spec)]);
    ServerStep(sys, ApplyEdits(sys.server, [Change(spec)]), {});
    hide Good, Consistent, Extends, Grown, ApplyEdits;
  }
}
