/** The desired state a user writes, and what the operator makes of its Ceph part
    before touching the cluster: effective counts, effective pools, admission and
    the ordered plan of script runs. */
module CephSpec {
  import opened Basics

  datatype PoolSpec = PoolSpec(
    name: string, size: int32, minSize: int32, pgNum: int32, content: seq<string>, addAsStorage: Option<bool>)

  datatype CephSpec = CephSpec(
    osdsPerNode: int32, monCount: int32, mgrCount: int32, osdDevicePrefix: string, pools: seq<PoolSpec>)

  datatype ClusterSpec = ClusterSpec(nodes: int32, ceph: Option<CephSpec>)

  const DEFAULT_POOL_NAME := "ceph-vm"

  /* ---------------------------------------------------------------- counts */

  /** clampCount reassigns its argument three times. */
  method ClampCount(v: int32, def: int32, max: int32) returns (n: int32)
    ensures n == Clamp(v, def, max)
  {
    n := v;
    if n <= 0 {
      n := def;
    }
    if n > max {
      n := max;
    }
    if n < 1 {
      n := 1;
    }
  }

  /** The requested count, or the default when unset. */
  function Requested(v: int32, def: int32): int32 {
    if v <= 0 then def else v
  }

  function Clamp(v: int32, def: int32, max: int32): (n: int32)
    ensures n >= 1
  {
    Max(Min(Requested(v, def), max), 1)
  }

  function OSDsPerNode(ceph: CephSpec): int32 {
    Max(ceph.osdsPerNode, 1)
  }

  /** An int32 product in the source: it wraps around. */
  function ExpectedOSDs(spec: ClusterSpec): int32 {
    if spec.ceph.None? then 0 else Wrap32(spec.nodes * OSDsPerNode(spec.ceph.value))
  }

  function EffectiveMonCount(spec: ClusterSpec): int32 {
    if spec.ceph.None? then 0
    else
      var n := Clamp(spec.ceph.value.monCount, 3, spec.nodes);
      Max(if n % 2 == 0 then n - 1 else n, 1)
  }

  function EffectiveMgrCount(spec: ClusterSpec): int32 {
    if spec.ceph.None? then 0 else Clamp(spec.ceph.value.mgrCount, 2, spec.nodes)
  }

  /** Failures a monitor quorum of n survives. */
  function Tolerated(n: int): int {
    (n - 1) / 2
  }

  /** The monitor count is the largest odd number within the request and the node count,
      asking for it again gives it back, and dropping to an odd number costs no resilience. */
  lemma MonCountIsBestOdd(spec: ClusterSpec, ceph: CephSpec)
    requires spec.ceph == Some(ceph) && spec.nodes >= 1
    ensures var n := EffectiveMonCount(spec);
            var cap := Min(Requested(ceph.monCount, 3), spec.nodes);
            && n % 2 == 1 && 1 <= n <= cap
            && (forall k | k % 2 == 1 && k <= cap :: k <= n)
            && Tolerated(n) == Tolerated(cap)
            && EffectiveMonCount(spec.(ceph := Some(ceph.(monCount := n)))) == n
  {
  }

  /* ---------------------------------------------------------------- pools */

  function WithDefaults(p: PoolSpec): PoolSpec {
    var size: int32 := if p.size == 0 then 3 else p.size;
    var minSize: int32 := if p.minSize == 0 then Max(Wrap32(size - 1), 1) else p.minSize;
    var content := if p.content == [] then ["images", "rootdir"] else p.content;
    p.(size := size, minSize := minSize, content := content)
  }

  function DefaultPool(total: int32): PoolSpec {
    var size: int32 := Min(3, total);
    var minSize: int32 := Max(Wrap32(size - 1), 1);
    PoolSpec(DEFAULT_POOL_NAME, size, minSize, 0, ["images", "rootdir"], None)
  }

  function RequestedPools(spec: ClusterSpec): seq<PoolSpec> {
    if spec.ceph.None? then []
    else if spec.ceph.value.pools == [] then [DefaultPool(ExpectedOSDs(spec))]
    else spec.ceph.value.pools
  }

  function PoolsOf(spec: ClusterSpec): (pools: seq<PoolSpec>)
    ensures |pools| == |RequestedPools(spec)|
  {
    var ps := RequestedPools(spec);
    seq(|ps|, i requires 0 <= i < |ps| => WithDefaults(ps[i]))
  }

  method EffectivePools(spec: ClusterSpec) returns (out: seq<PoolSpec>)
    ensures out == PoolsOf(spec)
  {
    if spec.ceph.None? {
      return [];
    }
    var pools := spec.ceph.value.pools;
    if |pools| == 0 {
      var total := Wrap32(spec.nodes * OSDsPerNode(spec.ceph.value));
      pools := [DefaultPool(total)];
    }
    out := [];
    for i := 0 to |pools|
      invariant |out| == i
      invariant forall k | 0 <= k < i :: out[k] == WithDefaults(pools[k])
    {
      var p := pools[i];
      if p.size == 0 {
        p := p.(size := 3);
      }
      if p.minSize == 0 {
        p := p.(minSize := Max(Wrap32(p.size - 1), 1));
      }
      if |p.content| == 0 {
        p := p.(content := ["images", "rootdir"]);
      }
      out := out + [p];
    }
  }

  /** Feeding the effective pools back as the request changes nothing; names and their order stay. */
  lemma EffectivePoolsIdempotent(spec: ClusterSpec, ceph: CephSpec)
    requires spec.ceph == Some(ceph)
    ensures PoolsOf(spec.(ceph := Some(ceph.(pools := PoolsOf(spec))))) == PoolsOf(spec)
    ensures ceph.pools != [] ==> |PoolsOf(spec)| == |ceph.pools|
                                 && forall i | 0 <= i < |ceph.pools| :: PoolsOf(spec)[i].name == ceph.pools[i].name
    ensures forall p | p in PoolsOf(spec) :: p.size != 0 && p.minSize != 0 && p.content != []
  {
  }

  /** What a user gets who leaves things unset: three replicas or as many as there are OSDs, one fewer to serve
      from but at least one, and both kinds of content. */
  lemma PoolDefaults(spec: ClusterSpec, ceph: CephSpec, k: nat)
    requires spec.ceph == Some(ceph) && k < |PoolsOf(spec)|
    ensures var p := PoolsOf(spec)[k];
            && p.size != 0
            && (ceph.pools != [] ==>
                  var q := ceph.pools[k];
                  && p.name == q.name && p.pgNum == q.pgNum && p.addAsStorage == q.addAsStorage
                  && p.size == (if q.size == 0 then 3 else q.size)
                  && (q.minSize != 0 ==> p.minSize == q.minSize)
                  && (q.minSize == 0 && p.size >= 2 ==> p.minSize == p.size - 1)
                  && (q.minSize == 0 && -0x8000_0000 < p.size < 2 ==> p.minSize == 1)
                  && p.content == (if q.content == [] then ["images", "rootdir"] else q.content))
            && (ceph.pools == [] && ExpectedOSDs(spec) >= 1 ==>
                  var (size, minSize) :=
                    if ExpectedOSDs(spec) >= 3 then (3, 2) else if ExpectedOSDs(spec) == 2 then (2, 1) else (1, 1);
                  p == PoolSpec("ceph-vm", size, minSize, 0, ["images", "rootdir"], None))
  {
  }

  /** Two managers unless asked otherwise, but no more than nodes; at least one device per node. */
  lemma CountDefaults(spec: ClusterSpec, ceph: CephSpec)
    requires spec.ceph == Some(ceph) && spec.nodes >= 1
    ensures EffectiveMgrCount(spec) == if ceph.mgrCount >= 1 then Min(ceph.mgrCount, spec.nodes) else Min(2, spec.nodes)
    ensures var perNode := if ceph.osdsPerNode >= 1 then ceph.osdsPerNode else 1;
            spec.nodes * perNode <= 0x7fff_ffff ==> ExpectedOSDs(spec) == spec.nodes * perNode
  {
    var perNode := if ceph.osdsPerNode >= 1 then ceph.osdsPerNode else 1;
    Product(spec.nodes, perNode);
  }

  /* ---------------------------------------------------------------- admission */

  datatype Rejection = EvenMonCount | PoolTooLarge(pool: nat) | MinSizeAboveSize(pool: nat)

  predicate PoolFits(p: PoolSpec, total: int) {
    p.minSize <= p.size <= total
  }

  /** What admission is for: an odd quorum and pools every replica of which can be placed. */
  predicate Admissible(spec: ClusterSpec) {
    spec.ceph.Some? ==>
      && (spec.ceph.value.monCount <= 0 || spec.ceph.value.monCount % 2 == 1)
      && (forall p | p in PoolsOf(spec) :: PoolFits(p, ExpectedOSDs(spec)))
  }

  method ValidateCeph(spec: ClusterSpec) returns (err: Option<Rejection>)
    ensures err.None? <==> Admissible(spec)
    ensures err == Some(EvenMonCount) <==>
              spec.ceph.Some? && spec.ceph.value.monCount > 0 && spec.ceph.value.monCount % 2 == 0
    ensures err.Some? && !err.value.EvenMonCount? ==>
              && err.value.pool < |PoolsOf(spec)|
              && !PoolFits(PoolsOf(spec)[err.value.pool], ExpectedOSDs(spec))
              && (forall i | 0 <= i < err.value.pool :: PoolFits(PoolsOf(spec)[i], ExpectedOSDs(spec)))
              && (err.value.PoolTooLarge? <==> PoolsOf(spec)[err.value.pool].size > ExpectedOSDs(spec))
  {
    if spec.ceph.None? {
      return None;
    }
    var total := ExpectedOSDs(spec);
    var mons := spec.ceph.value.monCount;
    if mons > 0 && mons % 2 == 0 {
      return Some(EvenMonCount);
    }
    var pools := EffectivePools(spec);
    for i := 0 to |pools|
      invariant forall k | 0 <= k < i :: PoolFits(pools[k], total)
    {
      if pools[i].size > total {
        assert pools[i] in PoolsOf(spec);
        return Some(PoolTooLarge(i));
      }
      if pools[i].minSize > pools[i].size {
        assert pools[i] in PoolsOf(spec);
        return Some(MinSizeAboveSize(i));
      }
    }
    return None;
  }

  /** With no pools given, the default pool is admitted exactly when the (wrapping) product of
      nodes and OSDs per node is positive; in particular whenever it does not overflow. */
  lemma DefaultPoolAdmission(spec: ClusterSpec, ceph: CephSpec)
    requires spec.ceph == Some(ceph) && ceph.pools == []
    requires ceph.monCount <= 0 || ceph.monCount % 2 == 1
    ensures Admissible(spec) <==> Wrap32(spec.nodes * OSDsPerNode(ceph)) >= 1
    ensures spec.nodes >= 1 && spec.nodes * OSDsPerNode(ceph) <= 0x7fff_ffff ==> Admissible(spec)
  {
    var total := ExpectedOSDs(spec);
    var p := WithDefaults(DefaultPool(total));
    assert PoolsOf(spec) == [p];
    assert Admissible(spec) <==> PoolFits(p, total);
    if spec.nodes >= 1 {
      assert spec.nodes * OSDsPerNode(ceph) >= 1 by {
        Product(spec.nodes, OSDsPerNode(ceph));
      }
    }
  }

  lemma Product(a: int, b: int)
    requires a >= 1 && b >= 1
    ensures a * b >= 1
  {
  }

  /** The overflow is within what the CRD lets through: the product wraps to 0. */
  lemma DefaultPoolOverflow(spec: ClusterSpec)
    requires spec == ClusterSpec(0x800_0000, Some(CephSpec(32, 3, 2, "", [])))
    ensures !Admissible(spec)
  {
    DefaultPoolAdmission(spec, spec.ceph.value);
  }

  /* ---------------------------------------------------------------- plan */

  datatype CephStep = StepInit | StepMon | StepMgr | StepOSD | StepPool | StepStatus

  datatype CephTask = CephTask(step: CephStep, step0: bool, ordinal: int, script: string)

  function Script(step: CephStep): string {
    match step
    case StepInit => "/scripts/ceph-init.sh"
    case StepMon => "/scripts/ceph-mon.sh"
    case StepMgr => "/scripts/ceph-mgr.sh"
    case StepOSD => "/scripts/ceph-osd.sh"
    case StepPool => "/scripts/ceph-pool.sh"
    case StepStatus => "/scripts/ceph-status.sh"
  }

  function Task(step: CephStep, ordinal: int): CephTask {
    CephTask(step, step in {StepInit, StepPool, StepStatus}, ordinal, Script(step))
  }

  /** One task for each of the first n ordinals. */
  function Stage(step: CephStep, n: int): (tasks: seq<CephTask>)
    ensures |tasks| == Max(n, 0)
  {
    seq(Max(n, 0), i => Task(step, i))
  }

  function Plan(spec: ClusterSpec): seq<CephTask> {
    if spec.ceph.None? then []
    else
      Stage(StepInit, 1) + Stage(StepMon, EffectiveMonCount(spec)) + Stage(StepMgr, EffectiveMgrCount(spec))
      + Stage(StepOSD, spec.nodes) + Stage(StepPool, 1)
  }

  method CephPlan(spec: ClusterSpec) returns (tasks: seq<CephTask>)
    ensures tasks == Plan(spec)
  {
    if spec.ceph.None? {
      return [];
    }
    var monCount := EffectiveMonCount(spec);
    var mgrCount := EffectiveMgrCount(spec);
    tasks := [CephTask(StepInit, true, 0, "/scripts/ceph-init.sh")];
    ghost var before := tasks;
    assert before == Stage(StepInit, 1);
    for i := 0 to monCount
      invariant tasks == before + Stage(StepMon, i)
    {
      tasks := tasks + [CephTask(StepMon, false, i, "/scripts/ceph-mon.sh")];
    }
    before := tasks;
    for i := 0 to mgrCount
      invariant tasks == before + Stage(StepMgr, i)
    {
      tasks := tasks + [CephTask(StepMgr, false, i, "/scripts/ceph-mgr.sh")];
    }
    before := tasks;
    var i := 0;
    while i < spec.nodes
      invariant 0 <= i <= Max(spec.nodes, 0)
      invariant tasks == before + Stage(StepOSD, i)
    {
      tasks := tasks + [CephTask(StepOSD, false, i, "/scripts/ceph-osd.sh")];
      i := i + 1;
    }
    assert Stage(StepOSD, i) == Stage(StepOSD, spec.nodes);
    tasks := tasks + [CephTask(StepPool, true, 0, "/scripts/ceph-pool.sh")];
    assert [Task(StepPool, 0)] == Stage(StepPool, 1);
  }

  function Rank(step: CephStep): nat {
    match step
    case StepInit => 0
    case StepMon => 1
    case StepMgr => 2
    case StepOSD => 3
    case StepPool => 4
    case StepStatus => 5
  }

  /** How many ordinals a stage covers. */
  function StageSize(spec: ClusterSpec, step: CephStep): int {
    match step
    case StepInit => 1
    case StepMon => EffectiveMonCount(spec)
    case StepMgr => EffectiveMgrCount(spec)
    case StepOSD => spec.nodes
    case StepPool => 1
    case StepStatus => 0
  }

  ghost predicate Planned(tasks: seq<CephTask>, step: CephStep, ordinal: int) {
    exists i | 0 <= i < |tasks| :: tasks[i].step == step && tasks[i].ordinal == ordinal
  }

  /** The i-th task, read off the stage boundaries. */
  function TaskAt(m: int, g: int, n: int, i: int): CephTask {
    if i < 1 then CephTask(StepInit, true, i, "/scripts/ceph-init.sh")
    else if i < 1 + m then CephTask(StepMon, false, i - 1, "/scripts/ceph-mon.sh")
    else if i < 1 + m + g then CephTask(StepMgr, false, i - 1 - m, "/scripts/ceph-mgr.sh")
    else if i < 1 + m + g + n then CephTask(StepOSD, false, i - 1 - m - g, "/scripts/ceph-osd.sh")
    else CephTask(StepPool, true, i - 1 - m - g - n, "/scripts/ceph-pool.sh")
  }

  lemma PlanTasks(spec: ClusterSpec)
    requires spec.ceph.Some? && spec.nodes >= 1
    ensures var m, g, n := EffectiveMonCount(spec), EffectiveMgrCount(spec), spec.nodes;
            && |Plan(spec)| == 2 + m + g + n
            && forall i | 0 <= i < |Plan(spec)| :: Plan(spec)[i] == TaskAt(m, g, n, i)
  {
  }

  lemma TaskAtOrder(m: nat, g: nat, n: nat, i: int, j: int)
    requires 0 <= i < j < 2 + m + g + n
    ensures var a, b := TaskAt(m, g, n, i), TaskAt(m, g, n, j);
            Rank(a.step) <= Rank(b.step) && (a.step == b.step ==> a.ordinal < b.ordinal)
  {
  }

  lemma PlanShape(spec: ClusterSpec)
    requires spec.ceph.Some? && spec.nodes >= 1
    ensures var plan := Plan(spec);
            && |plan| == 2 + EffectiveMonCount(spec) + EffectiveMgrCount(spec) + spec.nodes
            && (forall i, j | 0 <= i < j < |plan| :: Rank(plan[i].step) <= Rank(plan[j].step))
            && (forall i, j | 0 <= i < j < |plan| :: plan[i].step == plan[j].step ==> plan[i].ordinal < plan[j].ordinal)
            && (forall i | 0 <= i < |plan| :: 0 <= plan[i].ordinal < spec.nodes)
  {
    PlanTasks(spec);
    var plan, m, g, n := Plan(spec), EffectiveMonCount(spec), EffectiveMgrCount(spec), spec.nodes;
    forall i, j | 0 <= i < j < |plan|
      ensures Rank(plan[i].step) <= Rank(plan[j].step)
                && (plan[i].step == plan[j].step ==> plan[i].ordinal < plan[j].ordinal)
    {
      TaskAtOrder(m, g, n, i, j);
    }
  }

  /** Every stage covers exactly an initial segment of the ordinals. */
  lemma PlanCovers(spec: ClusterSpec, step: CephStep, ordinal: int)
    requires spec.ceph.Some? && spec.nodes >= 1
    ensures Planned(Plan(spec), step, ordinal) <==> 0 <= ordinal < StageSize(spec, step)
  {
    PlanTasks(spec);
    var plan := Plan(spec);
    var m: int, g: int, n: int := EffectiveMonCount(spec), EffectiveMgrCount(spec), spec.nodes;
    if 0 <= ordinal < StageSize(spec, step) {
      var i := ordinal + match step
        case StepInit => 0
        case StepMon => 1
        case StepMgr => 1 + m
        case StepOSD => 1 + m + g
        case _ => 1 + m + g + n;
      assert plan[i] == TaskAt(m, g, n, i) == Task(step, ordinal);
    }
  }
}
