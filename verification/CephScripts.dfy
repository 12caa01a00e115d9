/** What the ceph-*.sh scripts do to the Ceph cluster, and what becomes of the cluster when the
    plan is replayed from the start again and again with every kind of failure in between. */
module CephScripts {
  import opened Basics
  import opened Text
  import opened CephSpec

  datatype PoolConfig = PoolConfig(size: int32, minSize: int32, pgNum: int32)

  /** What exists in the Ceph cluster. An OSD is a pod ordinal and a device index. */
  datatype CephWorld = CephWorld(
    conf: bool,
    mons: set<int>,
    mgrs: set<int>,
    osds: set<(int, int)>,
    pools: map<string, PoolConfig>,
    storages: map<string, string>)

  const NO_CEPH := CephWorld(false, {}, {}, {}, map[], map[])

  /** What the pods bring along: which devices are block devices; $CEPH_OSDS_PER_NODE; which pods are
      members of the Proxmox cluster and so see its /etc/pve; and the spec that the ceph-pool.sh mounted
      in pod 0 was rendered from. A changed ConfigMap reaches the mounted volume only some time later. */
  datatype Site = Site(blocks: set<(int, int)>, osdsPerNode: map<int, int>, members: set<int>, mounted: ClusterSpec) {
    function Devices(ordinal: int): int {
      if ordinal in osdsPerNode then osdsPerNode[ordinal] else 1
    }
  }

  /** The surroundings of one script run. The exec may not start; `ceph -s` may not reach the
      monitors; the n-th changing tool call has a reply; the answer may get lost on the way back. */
  datatype Exec = Exec(starts: bool, reachable: bool, call: nat -> Reply, answers: bool)

  ghost predicate Smooth(e: Exec) {
    e.starts && e.reachable && e.answers && forall n :: e.call(n) == Accepted
  }

  /** The state after a script and whether it exited with 0. */
  datatype Outcome = Outcome(world: CephWorld, ok: bool)

  /** /etc/pve/ceph.conf is there on pod i. */
  predicate SeesConf(w: CephWorld, site: Site, i: int) {
    w.conf && i in site.members
  }

  predicate Reaches(w: CephWorld, e: Exec) {
    e.reachable && w.mons != {}
  }

  /* ---------------------------------------------------------------- the scripts */

  /** It runs on pod 0, a member whenever the plan is walked. */
  function InitScript(w: CephWorld, e: Exec): Outcome {
    if w.conf then Outcome(w, true)
    else Outcome(w.(conf := e.call(0).TookEffect()), e.call(0).Ok())
  }

  function MonScript(w: CephWorld, site: Site, i: int, e: Exec): Outcome {
    if !SeesConf(w, site, i) then Outcome(w, false)
    else if i in w.mons then Outcome(w, true)
    else Outcome(if e.call(0).TookEffect() then w.(mons := w.mons + {i}) else w, e.call(0).Ok())
  }

  /** The script itself does not look for ceph.conf or a monitor. */
  function MgrScript(w: CephWorld, i: int, e: Exec): Outcome {
    if i in w.mgrs then Outcome(w, true)
    else Outcome(if e.call(0).TookEffect() then w.(mgrs := w.mgrs + {i}) else w, e.call(0).Ok())
  }

  /** Device d of pod i. */
  function DeviceStep(w: CephWorld, site: Site, i: int, d: nat, e: Exec): Outcome {
    if (i, d) !in site.blocks || (i, d) in w.osds then Outcome(w, true)
    else Outcome(if e.call(d).TookEffect() then w.(osds := w.osds + {(i, d)}) else w, e.call(d).Ok())
  }

  /** The first n devices, up to the first that fails. */
  function Devices(w: CephWorld, site: Site, i: int, n: nat, e: Exec): Outcome {
    if n == 0 then Outcome(w, true)
    else
      var r := Devices(w, site, i, n - 1, e);
      if r.ok then DeviceStep(r.world, site, i, n - 1, e) else r
  }

  function OSDScript(w: CephWorld, site: Site, i: int, e: Exec): Outcome {
    if !SeesConf(w, site, i) || !Reaches(w, e) then Outcome(w, false)
    else Devices(w, site, i, Max(site.Devices(i), 0), e)
  }

  function Config(p: PoolSpec): PoolConfig {
    PoolConfig(p.size, p.minSize, p.pgNum)
  }

  predicate AddsStorage(p: PoolSpec) {
    p.addAsStorage != Some(false)
  }

  function Content(p: PoolSpec): string {
    var content := Join(p.content, ',');
    if content == "" then "images,rootdir" else content
  }

  /** create_pool for the k-th pool: the pool first, then its storage. */
  function PoolStep(w: CephWorld, p: PoolSpec, k: nat, e: Exec): Outcome {
    var created := if p.name in w.pools then Outcome(w, true)
      else if e.call(2 * k).TookEffect() then Outcome(w.(pools := w.pools[p.name := Config(p)]), e.call(2 * k).Ok())
      else Outcome(w, e.call(2 * k).Ok());
    if !created.ok || !AddsStorage(p) || p.name in created.world.storages then created
    else
      var v := created.world;
      Outcome(if e.call(2 * k + 1).TookEffect() then v.(storages := v.storages[p.name := Content(p)]) else v,
              e.call(2 * k + 1).Ok())
  }

  function Pools(w: CephWorld, pools: seq<PoolSpec>, n: nat, e: Exec): Outcome
    requires n <= |pools|
  {
    if n == 0 then Outcome(w, true)
    else
      var r := Pools(w, pools, n - 1, e);
      if r.ok then PoolStep(r.world, pools[n - 1], n - 1, e) else r
  }

  /** The script as rendered from some spec; there is none for a spec without Ceph. */
  function PoolScript(w: CephWorld, mounted: ClusterSpec, e: Exec): Outcome {
    if mounted.ceph.None? || !Reaches(w, e) then Outcome(w, false)
    else Pools(w, PoolsOf(mounted), |PoolsOf(mounted)|, e)
  }

  /** The loop of ceph-osd.sh. */
  method CephOSDScript(w0: CephWorld, site: Site, i: int, e: Exec) returns (w: CephWorld, ok: bool)
    ensures Outcome(w, ok) == OSDScript(w0, site, i, e)
  {
    w := w0;
    if !SeesConf(w, site, i) {
      return w, false;
    }
    if !Reaches(w, e) {
      return w, false;
    }
    var d := 0;
    while d < site.Devices(i)
      invariant 0 <= d <= Max(site.Devices(i), 0)
      invariant Outcome(w, true) == Devices(w0, site, i, d, e)
    {
      if (i, d) in site.blocks && (i, d) !in w.osds {
        var reply := e.call(d);
        if reply.TookEffect() {
          w := w.(osds := w.osds + {(i, d)});
        }
        if !reply.Ok() {
          DevicesStopped(w0, site, i, d + 1, Max(site.Devices(i), 0), e);
          return w, false;
        }
      }
      d := d + 1;
    }
    ok := true;
  }

  lemma {:induction false} DevicesStopped(w: CephWorld, site: Site, i: int, d: nat, n: nat, e: Exec)
    requires d <= n && !Devices(w, site, i, d, e).ok
    ensures Devices(w, site, i, n, e) == Devices(w, site, i, d, e)
  {
    if d < n {
      DevicesStopped(w, site, i, d, n - 1, e);
    }
  }

  /** The create_pool calls of ceph-pool.sh, one for each effective pool of the spec it was rendered from. */
  method CephPoolScript(w0: CephWorld, mounted: ClusterSpec, e: Exec) returns (w: CephWorld, ok: bool)
    ensures Outcome(w, ok) == PoolScript(w0, mounted, e)
  {
    w := w0;
    if mounted.ceph.None? || !Reaches(w, e) {
      return w, false;
    }
    var pools := EffectivePools(mounted);
    for k := 0 to |pools|
      invariant Outcome(w, true) == Pools(w0, pools, k, e)
    {
      ghost var step := PoolStep(w, pools[k], k, e);
      var p := pools[k];
      if p.name !in w.pools {
        var reply := e.call(2 * k);
        if reply.TookEffect() {
          w := w.(pools := w.pools[p.name := Config(p)]);
        }
        if !reply.Ok() {
          PoolsStopped(w0, pools, k + 1, |pools|, e);
          return w, false;
        }
      }
      if p.addAsStorage != Some(false) && p.name !in w.storages {
        var content := Join(p.content, ',');
        if content == "" {
          content := "images,rootdir";
        }
        var reply := e.call(2 * k + 1);
        if reply.TookEffect() {
          w := w.(storages := w.storages[p.name := content]);
        }
        if !reply.Ok() {
          PoolsStopped(w0, pools, k + 1, |pools|, e);
          return w, false;
        }
      }
      assert Outcome(w, true) == step;
    }
    ok := true;
  }

  lemma {:induction false} PoolsStopped(w: CephWorld, pools: seq<PoolSpec>, k: nat, n: nat, e: Exec)
    requires k <= n <= |pools| && !Pools(w, pools, k, e).ok
    ensures Pools(w, pools, n, e) == Pools(w, pools, k, e)
  {
    if k < n {
      PoolsStopped(w, pools, k, n - 1, e);
    }
  }

  /* ---------------------------------------------------------------- one task, one execution of the plan */

  function ScriptOf(w: CephWorld, site: Site, t: CephTask, e: Exec): Outcome {
    match t.step
    case StepInit => InitScript(w, e)
    case StepMon => MonScript(w, site, t.ordinal, e)
    case StepMgr => MgrScript(w, t.ordinal, e)
    case StepOSD => OSDScript(w, site, t.ordinal, e)
    case StepPool => PoolScript(w, site.mounted, e)
    case StepStatus => Outcome(w, true)
  }

  /** One exec of a task as the operator sees it. A script not mounted yet is an exec that does not start. */
  function RunTask(w: CephWorld, site: Site, t: CephTask, e: Exec): Outcome {
    if !e.starts then Outcome(w, false)
    else
      var r := ScriptOf(w, site, t, e);
      Outcome(r.world, r.ok && e.answers)
  }

  /** A walk over the plan: the world it leaves and how many tasks succeeded before it stopped. */
  datatype Walk = Walk(world: CephWorld, done: nat)

  /** The walk over the first n tasks: after a failure nothing more runs. */
  function WalkPlan(w: CephWorld, site: Site, spec: ClusterSpec, n: nat, env: nat -> Exec): (r: Walk)
    requires n <= |Plan(spec)|
    ensures r.done <= n
  {
    if n == 0 then Walk(w, 0)
    else
      var r := WalkPlan(w, site, spec, n - 1, env);
      if r.done < n - 1 then r
      else
        var o := RunTask(r.world, site, Plan(spec)[n - 1], env(n - 1));
        Walk(o.world, if o.ok then n else n - 1)
  }

  function Execute(w: CephWorld, site: Site, spec: ClusterSpec, env: nat -> Exec): Walk {
    WalkPlan(w, site, spec, |Plan(spec)|, env)
  }

  predicate Completes(w: CephWorld, site: Site, spec: ClusterSpec, env: nat -> Exec) {
    Execute(w, site, spec, env).done == |Plan(spec)|
  }

  /** One execution: what it finds at the pods, and how its script runs turn out. */
  datatype Execution = Execution(site: Site, env: nat -> Exec)

  /** The world after any number of executions, each aborted anywhere or not at all. */
  function Replayed(w: CephWorld, spec: ClusterSpec, xs: seq<Execution>): CephWorld {
    if |xs| == 0 then w
    else Execute(Replayed(w, spec, xs[..|xs| - 1]), xs[|xs| - 1].site, spec, xs[|xs| - 1].env).world
  }

  /* ---------------------------------------------------------------- growth and layering */

  /** Nothing is ever removed or changed. */
  ghost predicate Grows(v: CephWorld, w: CephWorld) {
    && (v.conf ==> w.conf)
    && v.mons <= w.mons && v.mgrs <= w.mgrs && v.osds <= w.osds
    && (forall k | k in v.pools :: k in w.pools && w.pools[k] == v.pools[k])
    && (forall k | k in v.storages :: k in w.storages && w.storages[k] == v.storages[k])
  }

  /** A monitor needs ceph.conf; everything else needs a monitor. */
  ghost predicate Layered(w: CephWorld) {
    && (w.mons != {} ==> w.conf)
    && (w.mgrs != {} || w.osds != {} || w.pools != map[] || w.storages != map[] ==> w.mons != {})
  }

  lemma {:induction false} DevicesGrow(w: CephWorld, site: Site, i: int, n: nat, e: Exec)
    ensures var r := Devices(w, site, i, n, e).world;
            Grows(w, r) && r == w.(osds := r.osds)
  {
    if n > 0 {
      DevicesGrow(w, site, i, n - 1, e);
    }
  }

  lemma {:induction false} PoolsGrow(w: CephWorld, pools: seq<PoolSpec>, n: nat, e: Exec)
    requires n <= |pools|
    ensures var r := Pools(w, pools, n, e).world;
            Grows(w, r) && r == w.(pools := r.pools, storages := r.storages)
  {
    if n > 0 {
      PoolsGrow(w, pools, n - 1, e);
    }
  }

  lemma TaskGrows(w: CephWorld, site: Site, t: CephTask, e: Exec)
    ensures Grows(w, RunTask(w, site, t, e).world)
    ensures Layered(w) && (t.step.StepMgr? ==> w.mons != {}) ==> Layered(RunTask(w, site, t, e).world)
  {
    hide Devices, Pools, PoolsOf;
    if t.step.StepOSD? {
      DevicesGrow(w, site, t.ordinal, Max(site.Devices(t.ordinal), 0), e);
    }
    if t.step.StepPool? {
      PoolsGrow(w, PoolsOf(site.mounted), |PoolsOf(site.mounted)|, e);
    }
  }

  /* ---------------------------------------------------------------- what a task achieves */

  /** A task of the plan has nothing left to do. */
  ghost predicate Achieved(w: CephWorld, site: Site, t: CephTask) {
    match t.step
    case StepInit => w.conf
    case StepMon => t.ordinal in w.mons
    case StepMgr => t.ordinal in w.mgrs
    case StepOSD =>
      && t.ordinal in site.members
      && forall d | 0 <= d < site.Devices(t.ordinal) :: (t.ordinal, d) in site.blocks ==> (t.ordinal, d) in w.osds
    case StepPool =>
      && site.mounted.ceph.Some?
      && forall p | p in PoolsOf(site.mounted) :: p.name in w.pools && (AddsStorage(p) ==> p.name in w.storages)
    case StepStatus => true
  }

  lemma {:induction false} DevicesAchieve(w: CephWorld, site: Site, i: int, n: nat, e: Exec)
    requires Devices(w, site, i, n, e).ok
    ensures forall d | 0 <= d < n :: (i, d) in site.blocks ==> (i, d) in Devices(w, site, i, n, e).world.osds
  {
    if n > 0 {
      DevicesAchieve(w, site, i, n - 1, e);
    }
  }

  lemma {:induction false} PoolsAchieve(w: CephWorld, pools: seq<PoolSpec>, n: nat, e: Exec)
    requires n <= |pools| && Pools(w, pools, n, e).ok
    ensures var r := Pools(w, pools, n, e).world;
            forall k | 0 <= k < n :: pools[k].name in r.pools && (AddsStorage(pools[k]) ==> pools[k].name in r.storages)
  {
    if n > 0 {
      PoolsAchieve(w, pools, n - 1, e);
    }
  }

  lemma TaskAchieves(w: CephWorld, site: Site, t: CephTask, e: Exec)
    requires RunTask(w, site, t, e).ok
    ensures Achieved(RunTask(w, site, t, e).world, site, t)
  {
    if t.step.StepOSD? {
      DevicesAchieve(w, site, t.ordinal, Max(site.Devices(t.ordinal), 0), e);
    }
    if t.step.StepPool? {
      PoolsAchieve(w, PoolsOf(site.mounted), |PoolsOf(site.mounted)|, e);
    }
  }

  lemma AchievedStays(v: CephWorld, w: CephWorld, site: Site, t: CephTask)
    requires Grows(v, w) && Achieved(v, site, t)
    ensures Achieved(w, site, t)
  {
  }

  /** v was reached from w with the first k tasks of the plan achieved. */
  ghost predicate Reached(w: CephWorld, v: CephWorld, site: Site, spec: ClusterSpec, k: nat)
    requires k <= |Plan(spec)|
  {
    && Grows(w, v)
    && (Layered(w) ==> Layered(v))
    && forall j | 0 <= j < k :: Achieved(v, site, Plan(spec)[j])
  }

  /** After a walk, the tasks that succeeded are achieved, and the layers are kept. */
  lemma {:induction false} WalkKeeps(w: CephWorld, site: Site, spec: ClusterSpec, n: nat, env: nat -> Exec)
    requires spec.ceph.Some? && spec.nodes >= 1 && n <= |Plan(spec)|
    ensures var r := WalkPlan(w, site, spec, n, env); Reached(w, r.world, site, spec, r.done)
  {
    if n > 0 {
      hide Reached, RunTask, Plan;
      WalkKeeps(w, site, spec, n - 1, env);
      var r := WalkPlan(w, site, spec, n - 1, env);
      if r.done == n - 1 {
        StepKeeps(w, r.world, site, spec, n - 1, env(n - 1));
      }
    } else {
      GrowsReflexive(w);
    }
  }

  /** One more task after k successful ones. Managers are reached only after the first monitor. */
  lemma StepKeeps(w: CephWorld, v: CephWorld, site: Site, spec: ClusterSpec, k: nat, e: Exec)
    requires spec.ceph.Some? && spec.nodes >= 1 && k < |Plan(spec)| && Reached(w, v, site, spec, k)
    ensures var r := RunTask(v, site, Plan(spec)[k], e);
            Reached(w, r.world, site, spec, if r.ok then k + 1 else k)
  {
    hide Achieved, RunTask, Grows, Layered, Plan;
    var t := Plan(spec)[k];
    var next := RunTask(v, site, t, e);
    if t.step.StepMgr? {
      MonBeforeMgr(v, site, spec, k);
    }
    TaskGrows(v, site, t, e);
    GrowsTransitive(w, v, next.world);
    forall j | 0 <= j < k {
      AchievedStays(v, next.world, site, Plan(spec)[j]);
    }
    if next.ok {
      TaskAchieves(v, site, t, e);
    }
  }

  lemma GrowsTransitive(u: CephWorld, v: CephWorld, w: CephWorld)
    requires Grows(u, v) && Grows(v, w)
    ensures Grows(u, w)
  {
  }

  lemma GrowsReflexive(w: CephWorld)
    ensures Grows(w, w)
  {
  }

  /** Before the first manager comes the first monitor. */
  lemma MonBeforeMgr(w: CephWorld, site: Site, spec: ClusterSpec, k: nat)
    requires spec.ceph.Some? && spec.nodes >= 1 && k < |Plan(spec)| && Plan(spec)[k].step == StepMgr
    requires forall j | 0 <= j < k :: Achieved(w, site, Plan(spec)[j])
    ensures w.mons != {}
  {
    PlanTasks(spec);
    assert k >= 2 && Plan(spec)[1].step == StepMon;
  }

  /** Every world on the way, of any number of executions under any failures, is layered. Any
      intermediate world of a script is the final world of an execution aborted right there. */
  lemma {:induction false} ReplayLayered(w: CephWorld, spec: ClusterSpec, xs: seq<Execution>)
    requires spec.ceph.Some? && spec.nodes >= 1 && Layered(w)
    ensures Layered(Replayed(w, spec, xs)) && Grows(w, Replayed(w, spec, xs))
  {
    if |xs| > 0 {
      var n := |xs| - 1;
      ReplayLayered(w, spec, xs[..n]);
      WalkKeeps(Replayed(w, spec, xs[..n]), xs[n].site, spec, |Plan(spec)|, xs[n].env);
    }
  }

  /* ---------------------------------------------------------------- replay equals one clean run */

  /** The first pool of each name counts. */
  function FirstConfigs(pools: seq<PoolSpec>): map<string, PoolConfig> {
    if pools == [] then map[]
    else map[pools[|pools| - 1].name := Config(pools[|pools| - 1])] + FirstConfigs(pools[..|pools| - 1])
  }

  function FirstContents(pools: seq<PoolSpec>): map<string, string> {
    if pools == [] then map[]
    else
      var p, before := pools[|pools| - 1], FirstContents(pools[..|pools| - 1]);
      if AddsStorage(p) then map[p.name := Content(p)] + before else before
  }

  function Ordinals(n: int): (r: set<int>)
    ensures forall i :: i in r <==> 0 <= i < n
  {
    if n <= 0 then {} else Ordinals(n - 1) + {n - 1}
  }

  function PlannedOSDs(site: Site, nodes: int): set<(int, int)> {
    set b | b in site.blocks && 0 <= b.0 < nodes && 0 <= b.1 < site.Devices(b.0)
  }

  /** The same devices, and scripts with the same pools if they are mounted at all. Which pods are members
      may differ. */
  ghost predicate SamePlant(a: Site, b: Site) {
    && a.blocks == b.blocks && a.osdsPerNode == b.osdsPerNode
    && (a.mounted.ceph.Some? ==> PoolsOf(a.mounted) == PoolsOf(b.mounted))
  }

  /** Where the plan leads from w, whatever happens on the way: everything planned that w lacks
      is added, everything w has stays. */
  function Target(w: CephWorld, site: Site, spec: ClusterSpec): CephWorld {
    CephWorld(
      true,
      w.mons + Ordinals(EffectiveMonCount(spec)),
      w.mgrs + Ordinals(EffectiveMgrCount(spec)),
      w.osds + PlannedOSDs(site, spec.nodes),
      FirstConfigs(PoolsOf(site.mounted)) + w.pools,
      FirstContents(PoolsOf(site.mounted)) + w.storages)
  }

  lemma {:induction false} DevicesAim(w: CephWorld, site: Site, spec: ClusterSpec, i: int, n: nat, e: Exec)
    requires 0 <= i < spec.nodes && n <= Max(site.Devices(i), 0)
    ensures Devices(w, site, i, n, e).world.osds <= w.osds + PlannedOSDs(site, spec.nodes)
  {
    if n > 0 {
      DevicesAim(w, site, spec, i, n - 1, e);
    }
  }

  lemma {:induction false} FirstMeaning(pools: seq<PoolSpec>, k: nat)
    requires k < |pools|
    requires forall j | 0 <= j < k :: pools[j].name != pools[k].name
    ensures pools[k].name in FirstConfigs(pools) && FirstConfigs(pools)[pools[k].name] == Config(pools[k])
  {
    var n := |pools| - 1;
    if k < n {
      FirstMeaning(pools[..n], k);
    } else {
      FirstNames(pools[..n]);
    }
  }

  lemma {:induction false} FirstNames(pools: seq<PoolSpec>)
    ensures forall x :: x in FirstConfigs(pools) ==> exists j | 0 <= j < |pools| :: pools[j].name == x
    ensures forall x :: x in FirstContents(pools) ==>
              exists j | 0 <= j < |pools| :: AddsStorage(pools[j]) && pools[j].name == x
  {
    if pools != [] {
      var n := |pools| - 1;
      FirstNames(pools[..n]);
      forall x | x in FirstConfigs(pools[..n])
        ensures exists j | 0 <= j < |pools| :: pools[j].name == x
      {
        var j :| 0 <= j < n && pools[..n][j].name == x;
        assert pools[j].name == x;
      }
      forall x | x in FirstContents(pools[..n])
        ensures exists j | 0 <= j < |pools| :: AddsStorage(pools[j]) && pools[j].name == x
      {
        var j :| 0 <= j < n && AddsStorage(pools[..n][j]) && pools[..n][j].name == x;
        assert AddsStorage(pools[j]) && pools[j].name == x;
      }
    }
  }

  lemma {:induction false} FirstContentMeaning(pools: seq<PoolSpec>, k: nat)
    requires k < |pools| && AddsStorage(pools[k])
    requires forall j | 0 <= j < k :: AddsStorage(pools[j]) ==> pools[j].name != pools[k].name
    ensures pools[k].name in FirstContents(pools) && FirstContents(pools)[pools[k].name] == Content(pools[k])
  {
    var n := |pools| - 1;
    if k < n {
      FirstContentMeaning(pools[..n], k);
    } else {
      FirstNames(pools[..n]);
    }
  }

  /** The pool loop, however far it gets, only adds what the target holds anyway. */
  lemma {:induction false} PoolsAim(w: CephWorld, pools: seq<PoolSpec>, n: nat, e: Exec)
    requires n <= |pools|
    ensures var r := Pools(w, pools, n, e).world;
            && FirstConfigs(pools) + r.pools == FirstConfigs(pools) + w.pools
            && FirstContents(pools) + r.storages == FirstContents(pools) + w.storages
  {
    if n > 0 {
      PoolsAim(w, pools, n - 1, e);
      var r := Pools(w, pools, n - 1, e);
      if r.ok {
        PoolsAchieve(w, pools, n - 1, e);
        PoolStepAims(r.world, pools, n - 1, e);
      }
    }
  }

  lemma PoolStepAims(w: CephWorld, pools: seq<PoolSpec>, k: nat, e: Exec)
    requires k < |pools|
    requires forall j | 0 <= j < k ::
               pools[j].name in w.pools && (AddsStorage(pools[j]) ==> pools[j].name in w.storages)
    ensures var r := PoolStep(w, pools[k], k, e).world;
            && FirstConfigs(pools) + r.pools == FirstConfigs(pools) + w.pools
            && FirstContents(pools) + r.storages == FirstContents(pools) + w.storages
  {
    hide FirstConfigs, FirstContents, Content;
    var p := pools[k];
    var r := PoolStep(w, p, k, e).world;
    if p.name !in w.pools {
      FirstMeaning(pools, k);
    }
    if AddsStorage(p) && p.name !in w.storages {
      FirstContentMeaning(pools, k);
    }
    assert r.pools == w.pools || (p.name !in w.pools && r.pools == w.pools[p.name := Config(p)]);
    assert r.storages == w.storages
           || (p.name !in w.storages && AddsStorage(p) && r.storages == w.storages[p.name := Content(p)]);
  }

  lemma TaskAims(w: CephWorld, site: Site, plant: Site, spec: ClusterSpec, j: nat, e: Exec)
    requires spec.ceph.Some? && spec.nodes >= 1 && j < |Plan(spec)| && SamePlant(site, plant)
    ensures Target(RunTask(w, site, Plan(spec)[j], e).world, plant, spec) == Target(w, plant, spec)
  {
    PlanTasks(spec);
    var t := Plan(spec)[j];
    hide Plan, Target, Devices, Pools, PoolsOf;
    if t.step.StepOSD? {
      var n := Max(site.Devices(t.ordinal), 0);
      DevicesGrow(w, site, t.ordinal, n, e);
      DevicesAim(w, site, spec, t.ordinal, n, e);
      SamePlannedOSDs(site, plant, spec.nodes);
      SameTargetOSDs(w, Devices(w, site, t.ordinal, n, e).world, plant, spec);
    } else if t.step.StepPool? {
      var pools := PoolsOf(site.mounted);
      PoolsGrow(w, pools, |pools|, e);
      PoolsAim(w, pools, |pools|, e);
      if site.mounted.ceph.Some? {
        SameTargetPools(w, Pools(w, pools, |pools|, e).world, plant, spec);
      }
    } else {
      SmallTaskAims(w, site, plant, spec, t, e);
    }
  }

  lemma SamePlannedOSDs(site: Site, plant: Site, nodes: int)
    requires SamePlant(site, plant)
    ensures PlannedOSDs(site, nodes) == PlannedOSDs(plant, nodes)
  {
    hide PoolsOf;
  }

  lemma SmallTaskAims(w: CephWorld, site: Site, plant: Site, spec: ClusterSpec, t: CephTask, e: Exec)
    requires t.step.StepMon? ==> 0 <= t.ordinal < EffectiveMonCount(spec)
    requires t.step.StepMgr? ==> 0 <= t.ordinal < EffectiveMgrCount(spec)
    requires !t.step.StepOSD? && !t.step.StepPool?
    ensures Target(RunTask(w, site, t, e).world, plant, spec) == Target(w, plant, spec)
  {
    hide EffectiveMonCount, EffectiveMgrCount, FirstConfigs, FirstContents, PoolsOf, PlannedOSDs;
  }

  lemma SameTargetOSDs(w: CephWorld, v: CephWorld, site: Site, spec: ClusterSpec)
    requires v == w.(osds := v.osds) && w.osds <= v.osds <= w.osds + PlannedOSDs(site, spec.nodes)
    ensures Target(v, site, spec) == Target(w, site, spec)
  {
  }

  lemma SameTargetPools(w: CephWorld, v: CephWorld, site: Site, spec: ClusterSpec)
    requires v == w.(pools := v.pools, storages := v.storages)
    requires FirstConfigs(PoolsOf(site.mounted)) + v.pools == FirstConfigs(PoolsOf(site.mounted)) + w.pools
    requires FirstContents(PoolsOf(site.mounted)) + v.storages == FirstContents(PoolsOf(site.mounted)) + w.storages
    ensures Target(v, site, spec) == Target(w, site, spec)
  {
  }

  lemma {:induction false} WalkAims(w: CephWorld, site: Site, plant: Site, spec: ClusterSpec, n: nat, env: nat -> Exec)
    requires spec.ceph.Some? && spec.nodes >= 1 && n <= |Plan(spec)| && SamePlant(site, plant)
    ensures Target(WalkPlan(w, site, spec, n, env).world, plant, spec) == Target(w, plant, spec)
  {
    if n > 0 {
      hide SamePlant, Target, RunTask;
      WalkAims(w, site, plant, spec, n - 1, env);
      TaskAims(WalkPlan(w, site, spec, n - 1, env).world, site, plant, spec, n - 1, env(n - 1));
    }
  }

  /** Once every task is achieved the target is reached. */
  lemma AllAchieved(w: CephWorld, site: Site, spec: ClusterSpec)
    requires spec.ceph.Some? && spec.nodes >= 1
    requires forall j | 0 <= j < |Plan(spec)| :: Achieved(w, site, Plan(spec)[j])
    ensures Target(w, site, spec) == w
  {
    PlanTasks(spec);
    var plan := Plan(spec);
    var m: int, g: int, n: int := EffectiveMonCount(spec), EffectiveMgrCount(spec), spec.nodes;
    hide Plan, PoolsOf;
    assert plan[0].step == StepInit && Achieved(w, site, plan[0]);
    forall i | 0 <= i < m
      ensures i in w.mons
    {
      assert plan[1 + i] == Task(StepMon, i) && Achieved(w, site, plan[1 + i]);
    }
    forall i | 0 <= i < g
      ensures i in w.mgrs
    {
      assert plan[1 + m + i] == Task(StepMgr, i) && Achieved(w, site, plan[1 + m + i]);
    }
    forall b | b in PlannedOSDs(site, n)
      ensures b in w.osds
    {
      assert plan[1 + m + g + b.0] == Task(StepOSD, b.0) && Achieved(w, site, plan[1 + m + g + b.0]);
      assert (b.0, b.1) == b;
    }
    assert plan[1 + m + g + n] == Task(StepPool, 0) && Achieved(w, site, plan[1 + m + g + n]);
    PoolsAchieved(w, PoolsOf(site.mounted));
  }

  lemma PoolsAchieved(w: CephWorld, pools: seq<PoolSpec>)
    requires forall p | p in pools :: p.name in w.pools && (AddsStorage(p) ==> p.name in w.storages)
    ensures FirstConfigs(pools) + w.pools == w.pools
    ensures FirstContents(pools) + w.storages == w.storages
  {
    FirstNames(pools);
    assert forall j | 0 <= j < |pools| :: pools[j] in pools;
  }

  /** A complete execution reaches the target of wherever it started. */
  lemma CompleteReachesTarget(w: CephWorld, site: Site, spec: ClusterSpec, env: nat -> Exec)
    requires spec.ceph.Some? && spec.nodes >= 1 && Completes(w, site, spec, env)
    ensures Execute(w, site, spec, env).world == Target(w, site, spec)
  {
    WalkKeeps(w, site, spec, |Plan(spec)|, env);
    WalkAims(w, site, site, spec, |Plan(spec)|, env);
    AllAchieved(Execute(w, site, spec, env).world, site, spec);
  }

  lemma {:induction false} ReplayAims(w: CephWorld, plant: Site, spec: ClusterSpec, xs: seq<Execution>)
    requires spec.ceph.Some? && spec.nodes >= 1 && forall x | x in xs :: SamePlant(x.site, plant)
    ensures Target(Replayed(w, spec, xs), plant, spec) == Target(w, plant, spec)
  {
    if |xs| > 0 {
      hide SamePlant, Target;
      var n := |xs| - 1;
      assert xs[n] in xs;
      ReplayAims(w, plant, spec, xs[..n]);
      WalkAims(Replayed(w, spec, xs[..n]), xs[n].site, plant, spec, |Plan(spec)|, xs[n].env);
    }
  }

  /** A complete execution has found the pool script mounted and every pod of the spec in the cluster. */
  lemma CompleteNeeds(w: CephWorld, site: Site, spec: ClusterSpec, env: nat -> Exec)
    requires spec.ceph.Some? && spec.nodes >= 1 && Completes(w, site, spec, env)
    ensures site.mounted.ceph.Some? && Ordinals(spec.nodes) <= site.members
  {
    WalkKeeps(w, site, spec, |Plan(spec)|, env);
    PlanTasks(spec);
    var plan, v := Plan(spec), Execute(w, site, spec, env).world;
    var first: int := 1 + EffectiveMonCount(spec) + EffectiveMgrCount(spec);
    hide Plan, PoolsOf, EffectiveMonCount, EffectiveMgrCount;
    assert plan[first + spec.nodes] == Task(StepPool, 0) && Achieved(v, site, plan[first + spec.nodes]);
    forall i | 0 <= i < spec.nodes
      ensures i in site.members
    {
      assert plan[first + i] == Task(StepOSD, i) && Achieved(v, site, plan[first + i]);
    }
  }

  /** Any number of executions aborted anywhere, then one that completes, build exactly what a
      single uninterrupted execution builds from the same start. */
  lemma ReplayEqualsCleanRun(w: CephWorld, plant: Site, spec: ClusterSpec,
                             aborted: seq<Execution>, last: Execution, clean: Execution)
    requires spec.ceph.Some? && spec.nodes >= 1
    requires forall x | x in aborted + [last, clean] :: SamePlant(x.site, plant)
    requires Completes(Replayed(w, spec, aborted), last.site, spec, last.env)
    requires Completes(w, clean.site, spec, clean.env)
    ensures Execute(Replayed(w, spec, aborted), last.site, spec, last.env).world
              == Execute(w, clean.site, spec, clean.env).world
  {
    var v := Replayed(w, spec, aborted);
    assert SamePlant(last.site, plant) && SamePlant(clean.site, plant) by {
      assert last in aborted + [last, clean] && clean in aborted + [last, clean];
    }
    assert forall x | x in aborted :: x in aborted + [last, clean];
    hide Completes, Execute, Replayed, Target;
    ReplayAims(w, plant, spec, aborted);
    CompleteReachesTarget(v, last.site, spec, last.env);
    CompleteReachesTarget(w, clean.site, spec, clean.env);
    CompleteNeeds(v, last.site, spec, last.env);
    CompleteNeeds(w, clean.site, spec, clean.env);
    SameTargets(v, last.site, plant, spec);
    SameTargets(w, clean.site, plant, spec);
  }

  lemma SameTargets(w: CephWorld, site: Site, plant: Site, spec: ClusterSpec)
    requires SamePlant(site, plant) && site.mounted.ceph.Some?
    ensures Target(w, site, spec) == Target(w, plant, spec)
  {
    SamePlannedOSDs(site, plant, spec.nodes);
    hide EffectiveMonCount, EffectiveMgrCount, FirstConfigs, FirstContents, PoolsOf, PlannedOSDs;
  }

  /* ---------------------------------------------------------------- which pools there are */

  ghost predicate HasPool(pools: seq<PoolSpec>, name: string) {
    exists p :: p in pools && p.name == name
  }

  /** A complete execution leaves the pools that were there and those of the mounted script, no others. */
  lemma CompletePools(w: CephWorld, site: Site, spec: ClusterSpec, env: nat -> Exec, name: string)
    requires spec.ceph.Some? && spec.nodes >= 1 && Completes(w, site, spec, env)
    ensures name in Execute(w, site, spec, env).world.pools <==> name in w.pools || HasPool(PoolsOf(site.mounted), name)
  {
    CompleteReachesTarget(w, site, spec, env);
    hide Execute, Completes, PoolsOf;
    FirstConfigsNames(PoolsOf(site.mounted), name);
  }

  lemma {:induction false} FirstConfigsNames(pools: seq<PoolSpec>, name: string)
    ensures name in FirstConfigs(pools) <==> HasPool(pools, name)
  {
    if pools != [] {
      var n := |pools| - 1;
      FirstConfigsNames(pools[..n], name);
      assert pools == pools[..n] + [pools[n]];
    }
  }

  /** No execution, complete or not, creates a pool the mounted script does not name. */
  lemma WalkPools(w: CephWorld, site: Site, spec: ClusterSpec, env: nat -> Exec, name: string)
    requires spec.ceph.Some? && spec.nodes >= 1
    ensures name in Execute(w, site, spec, env).world.pools ==> name in w.pools || HasPool(PoolsOf(site.mounted), name)
  {
    WalkAims(w, site, site, spec, |Plan(spec)|, env);
    var v := Execute(w, site, spec, env).world;
    hide Execute, PoolsOf;
    FirstConfigsNames(PoolsOf(site.mounted), name);
    assert Target(v, site, spec).pools == Target(w, site, spec).pools;
  }

  /* ---------------------------------------------------------------- an undisturbed execution completes */

  lemma {:induction false} DevicesSmooth(w: CephWorld, site: Site, i: int, n: nat, e: Exec)
    requires Smooth(e)
    ensures Devices(w, site, i, n, e).ok
  {
    if n > 0 {
      DevicesSmooth(w, site, i, n - 1, e);
    }
  }

  lemma {:induction false} PoolsSmooth(w: CephWorld, pools: seq<PoolSpec>, n: nat, e: Exec)
    requires Smooth(e) && n <= |pools|
    ensures Pools(w, pools, n, e).ok
  {
    if n > 0 {
      PoolsSmooth(w, pools, n - 1, e);
    }
  }

  /** What the plan needs from the pods. */
  ghost predicate Hosts(site: Site, spec: ClusterSpec) {
    site.mounted.ceph.Some? && Ordinals(spec.nodes) <= site.members
  }

  /** The order of the plan lets every script find what it needs, from any world, if the pods are there. */
  lemma {:induction false} SmoothWalks(w: CephWorld, site: Site, spec: ClusterSpec, n: nat, env: nat -> Exec)
    requires spec.ceph.Some? && spec.nodes >= 1 && n <= |Plan(spec)| && Hosts(site, spec)
    requires forall j :: Smooth(env(j))
    ensures WalkPlan(w, site, spec, n, env).done == n
  {
    hide RunTask, Plan, Smooth, Hosts;
    if n > 0 {
      SmoothWalks(w, site, spec, n - 1, env);
      SmoothStep(w, site, spec, n - 1, env);
    }
  }

  lemma SmoothStep(w: CephWorld, site: Site, spec: ClusterSpec, k: nat, env: nat -> Exec)
    requires spec.ceph.Some? && spec.nodes >= 1 && k < |Plan(spec)| && Hosts(site, spec) && Smooth(env(k))
    requires WalkPlan(w, site, spec, k, env).done == k
    ensures RunTask(WalkPlan(w, site, spec, k, env).world, site, Plan(spec)[k], env(k)).ok
  {
    hide RunTask, Plan, Smooth, Hosts, WalkPlan, Achieved, Grows, Layered;
    WalkKeeps(w, site, spec, k, env);
    TaskSmooth(WalkPlan(w, site, spec, k, env).world, site, spec, k, env(k));
  }

  /** An undisturbed execution completes exactly if the pool script is mounted and every pod of the spec
      is a cluster member; no execution whatsoever completes otherwise. */
  lemma SmoothCompletes(w: CephWorld, site: Site, spec: ClusterSpec, env: nat -> Exec)
    requires spec.ceph.Some? && spec.nodes >= 1
    ensures Completes(w, site, spec, env) ==> Hosts(site, spec)
    ensures (forall j :: Smooth(env(j))) ==> (Completes(w, site, spec, env) <==> Hosts(site, spec))
  {
    hide Plan, Smooth;
    if Completes(w, site, spec, env) {
      CompleteNeeds(w, site, spec, env);
    }
    if Hosts(site, spec) && forall j :: Smooth(env(j)) {
      SmoothWalks(w, site, spec, |Plan(spec)|, env);
    }
  }

  lemma TaskSmooth(w: CephWorld, site: Site, spec: ClusterSpec, k: nat, e: Exec)
    requires spec.ceph.Some? && spec.nodes >= 1 && k < |Plan(spec)| && Smooth(e) && Hosts(site, spec)
    requires forall j | 0 <= j < k :: Achieved(w, site, Plan(spec)[j])
    ensures RunTask(w, site, Plan(spec)[k], e).ok
  {
    PlanTasks(spec);
    PlanShape(spec);
    var plan := Plan(spec);
    var t := plan[k];
    hide Plan, PoolsOf;
    if k >= 1 {
      assert Achieved(w, site, plan[0]) && w.conf;
    }
    if k >= 2 {
      assert plan[1].step == StepMon && Achieved(w, site, plan[1]) && w.mons != {};
    }
    assert t.ordinal in site.members;
    if t.step.StepOSD? {
      DevicesSmooth(w, site, t.ordinal, Max(site.Devices(t.ordinal), 0), e);
    }
    if t.step.StepPool? {
      PoolsSmooth(w, PoolsOf(site.mounted), |PoolsOf(site.mounted)|, e);
    }
  }
}
