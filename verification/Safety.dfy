/** What every run of the reconciler keeps, under stale reads, spec edits by others, failed and
    half-failed execs, lost writes and crashes: the shape of the cluster, and that every status ever
    persisted tells the truth about it. */
module Safety {
  import opened Basics
  import opened CephSpec
  import opened CephStatus
  import opened CephScripts
  import opened ClusterApi
  import opened ApiServer
  import opened Reconcile

  /* ---------------------------------------------------------------- the world */

  /** Downward closed: no member without all smaller ordinals. */
  ghost predicate Segment(members: set<int>) {
    forall i, j | i in members && 0 <= j < i :: j in members
  }

  ghost predicate NonNegative(members: set<int>) {
    forall i | i in members :: i >= 0
  }

  ghost predicate WorldOk(w: World) {
    && NonNegative(w.members) && Segment(w.members)
    && w.creates == (if 0 in w.members then 1 else 0)
    && Layered(w.ceph)
  }

  ghost predicate WorldGrows(v: World, w: World) {
    v.members <= w.members && Grows(v.ceph, w.ceph)
  }

  lemma OrdinalsSize(n: nat)
    ensures |Ordinals(n)| == n
  {
  }

  /** A downward closed set of ordinals is exactly {0..k}. */
  lemma {:induction false} SegmentIsInitial(m: set<int>)
    requires NonNegative(m) && Segment(m)
    ensures m == Ordinals(|m|)
    decreases |m|
  {
    if m != {} {
      var top := Largest(m);
      SegmentIsInitial(m - {top});
      assert forall i :: i in m <==> 0 <= i <= top;
      assert m == Ordinals(top + 1);
      OrdinalsSize(top + 1);
    }
  }

  lemma {:induction false} Largest(m: set<int>) returns (top: int)
    requires m != {}
    ensures top in m && forall i | i in m :: i <= top
    decreases |m|
  {
    if forall i :: i !in m {
      assert false;
    }
    var x :| x in m;
    var rest := m - {x};
    top := x;
    if rest != {} {
      var t := Largest(rest);
      if t > x {
        top := t;
      }
    }
    forall i | i in m
      ensures i <= top
    {
      assert i == x || i in rest;
    }
  }

  lemma JoinGrows(w: World, i: int, e: Exec)
    requires WorldOk(w) && i >= 1 && forall j | 0 <= j < i :: j in w.members
    ensures var x := ClusterJoin(w, i, e);
            WorldOk(x.world) && WorldGrows(w, x.world) && (x.ok ==> i in x.world.members)
  {
  }

  /** The running counter of the join loop never runs ahead of the members. */
  lemma {:induction false} JoinAllGrows(w: World, n: int, env: int -> Exec)
    requires WorldOk(w) && n >= 1 && 0 in w.members
    ensures var r := JoinAll(w, n, env);
            WorldOk(r.world) && WorldGrows(w, r.world) && forall j | 0 <= j < r.joined :: j in r.world.members
  {
    hide ClusterJoin, Grows, WorldOk;
    if n == 1 {
      GrowsReflexive(w.ceph);
    } else {
      JoinAllGrows(w, n - 1, env);
      var r := JoinAll(w, n - 1, env);
      if r.joined == n - 1 {
        JoinGrows(r.world, n - 1, env(n - 1));
        GrowsTransitive(w.ceph, r.world.ceph, ClusterJoin(r.world, n - 1, env(n - 1)).world.ceph);
      }
    }
  }

  lemma InitGrows(w: World, e: Exec)
    requires WorldOk(w)
    ensures var x := ClusterInit(w, e);
            WorldOk(x.world) && WorldGrows(w, x.world) && (x.ok ==> 0 in x.world.members)
  {
  }

  /* ---------------------------------------------------------------- what a status claims */

  /** What a finished plan leaves for good. Which OSDs there are depends on the devices of the pods and is
      CephScripts.CompleteReachesTarget's business; which pools, on the script that was mounted. */
  ghost predicate Built(w: World, spec: ClusterSpec) {
    && w.ceph.conf && Ordinals(spec.nodes) <= w.members
    && Ordinals(EffectiveMonCount(spec)) <= w.ceph.mons && Ordinals(EffectiveMgrCount(spec)) <= w.ceph.mgrs
  }

  /** All pools of some stored admissible spec exist, not necessarily of the one at hand. */
  ghost predicate PoolsStored(versions: seq<Object>, w: CephWorld) {
    exists i | 0 <= i < |versions| ::
      versions[i].spec.ceph.Some? && Admissible(versions[i].spec) && AllPools(versions[i].spec, w)
  }

  ghost predicate AllPools(spec: ClusterSpec, w: CephWorld) {
    forall p | p in PoolsOf(spec) :: p.name in w.pools
  }

  /** The conditions a phase promises, for the spec the status was written for. */
  ghost predicate CephReady(st: Status, spec: ClusterSpec, w: World) {
    && IsTrue(st, CephInitialized) && IsTrue(st, CephMonsReady) && IsTrue(st, CephOSDsReady)
    && IsTrue(st, CephPoolsReady) && IsTrue(st, CephHealthy)
    && st.ceph.Some? && CephUsable(st.ceph.value) && st.ceph.value.osdsExpected == ExpectedOSDs(spec)
    && Built(w, spec)
  }

  ghost predicate PhaseOk(st: Status, spec: ClusterSpec, w: World) {
    && (!Admissible(spec) ==> st.phase == Failed && CephInitialized in st.conditions && !IsTrue(st, CephInitialized))
    && match st.phase
       case Unset => false
       case Pending => true
       case Initializing => IsTrue(st, StatefulSetReady) && !IsTrue(st, ClusterInitialized)
       case Joining => IsTrue(st, StatefulSetReady) && IsTrue(st, ClusterInitialized)
       case ConfiguringCeph => IsTrue(st, StatefulSetReady) && IsTrue(st, AllNodesJoined) && spec.ceph.Some?
       case Ready =>
         && IsTrue(st, StatefulSetReady) && IsTrue(st, ClusterInitialized)
         && IsTrue(st, AllNodesJoined) && IsTrue(st, QuorumHealthy)
         && (spec.ceph.Some? ==> CephReady(st, spec, w))
       case Degraded => false
       case Failed => Admissible(spec) ==> ClusterInitialized in st.conditions && !IsTrue(st, ClusterInitialized)
  }

  /** AllNodesJoined remembers the node count it was set for. */
  ghost predicate JoinedFor(st: Status, versions: seq<Object>)
    requires AllNodesJoined in st.conditions
  {
    exists i | 0 <= i < |versions| ::
      && versions[i].generation == st.conditions[AllNodesJoined].observedGeneration
      && versions[i].spec.nodes == st.joinedNodes
  }

  /** What a status says about members and Ceph, whatever its phase. */
  ghost predicate Evidence(st: Status, versions: seq<Object>, w: World) {
    && (IsTrue(st, ClusterInitialized) ==> 0 in w.members)
    && (IsTrue(st, AllNodesJoined) ==> IsTrue(st, ClusterInitialized) && JoinedFor(st, versions))
    && (forall j | 0 <= j < st.joinedNodes :: j in w.members)
    && (IsTrue(st, CephInitialized) ==> w.ceph.conf)
    && (IsTrue(st, CephPoolsReady) ==> PoolsStored(versions, w.ceph))
  }

  ghost predicate WrittenFor(st: Status, versions: seq<Object>, w: World) {
    exists i | 0 <= i < |versions| ::
        versions[i].generation == st.observedGeneration && PhaseOk(st, versions[i].spec, w)
  }

  ghost predicate StatusOk(st: Status, versions: seq<Object>, w: World) {
    Evidence(st, versions, w) && (st.phase != Unset ==> WrittenFor(st, versions, w))
  }

  ghost predicate Good(sys: System) {
    && Consistent(sys.server)
    && WorldOk(sys.world)
    && forall i | 0 <= i < |sys.server.versions| ::
         StatusOk(sys.server.versions[i].status, sys.server.versions, sys.world)
  }

  /** A pass's copy of some version, stale or not. */
  ghost predicate Fits(c: Local, sys: System) {
    && (exists i | 0 <= i < |sys.server.versions| ::
          sys.server.versions[i].generation == c.generation && sys.server.versions[i].spec == c.spec)
    && c.spec.nodes >= 1
    && Evidence(c.status, sys.server.versions, sys.world)
  }

  /* ---------------------------------------------------------------- growing keeps claims true */

  ghost predicate Grown(s: System, t: System) {
    s.server.versions <= t.server.versions && WorldGrows(s.world, t.world)
  }

  lemma PoolsStoredStays(s: System, t: System)
    requires Grown(s, t) && PoolsStored(s.server.versions, s.world.ceph)
    ensures PoolsStored(t.server.versions, t.world.ceph)
  {
    hide Admissible;
    var i :| 0 <= i < |s.server.versions| && s.server.versions[i].spec.ceph.Some?
             && Admissible(s.server.versions[i].spec) && AllPools(s.server.versions[i].spec, s.world.ceph);
    assert t.server.versions[i] == s.server.versions[i];
    hide PoolsOf;
    assert AllPools(t.server.versions[i].spec, t.world.ceph);
  }

  lemma EvidenceStays(st: Status, s: System, t: System)
    requires Grown(s, t) && Evidence(st, s.server.versions, s.world)
    ensures Evidence(st, t.server.versions, t.world)
  {
    hide PoolsStored;
    if IsTrue(st, CephPoolsReady) {
      PoolsStoredStays(s, t);
    }
  }

  lemma PhaseStays(st: Status, spec: ClusterSpec, v: World, w: World)
    requires WorldGrows(v, w) && PhaseOk(st, spec, v)
    ensures PhaseOk(st, spec, w)
  {
    hide Admissible;
  }

  lemma StatusStays(st: Status, s: System, t: System)
    requires Grown(s, t) && StatusOk(st, s.server.versions, s.world)
    ensures StatusOk(st, t.server.versions, t.world)
  {
    hide Evidence, PhaseOk, WorldGrows;
    EvidenceStays(st, s, t);
    if st.phase != Unset {
      var i :| 0 <= i < |s.server.versions|
               && s.server.versions[i].generation == st.observedGeneration
               && PhaseOk(st, s.server.versions[i].spec, s.world);
      PhaseStays(st, s.server.versions[i].spec, s.world, t.world);
      assert t.server.versions[i] == s.server.versions[i];
    }
  }

  lemma FitsStays(c: Local, s: System, t: System)
    requires Grown(s, t) && Fits(c, s)
    ensures Fits(c, t)
  {
  }

  lemma GrownTransitive(s: System, t: System, u: System)
    requires Grown(s, t) && Grown(t, u)
    ensures Grown(s, u)
  {
  }

  /* ---------------------------------------------------------------- steps of the system */

  /** The history grew by versions whose status was there before or is a good new one. */
  lemma ServerStep(sys: System, t: Server, added: set<Status>)
    requires Good(sys) && Consistent(t) && Extends(sys.server, t, added)
    requires forall st | st in added :: StatusOk(st, sys.server.versions, sys.world)
    ensures Good(sys.(server := t)) && Grown(sys, sys.(server := t))
  {
    hide StatusOk, Consistent, WorldOk, Grows;
    var next := sys.(server := t);
    GrowsReflexive(sys.world.ceph);
    assert Grown(sys, next);
    forall i | 0 <= i < |t.versions|
      ensures StatusOk(t.versions[i].status, t.versions, next.world)
    {
      var st := t.versions[i].status;
      if i < |sys.server.versions| {
        assert st == sys.server.versions[i].status;
      }
      StatusStays(st, sys, next);
    }
  }

  /** The world grew. */
  lemma WorldStep(sys: System, w: World)
    requires Good(sys) && WorldOk(w) && WorldGrows(sys.world, w)
    ensures Good(sys.(world := w)) && Grown(sys, sys.(world := w))
  {
    hide StatusOk, Consistent, WorldOk, WorldGrows;
    var next := sys.(world := w);
    forall i | 0 <= i < |sys.server.versions| {
      StatusStays(sys.server.versions[i].status, sys, next);
    }
  }

  /** The copy may be written under this phase. */
  ghost predicate MayWrite(c: Local, phase: Phase, sys: System) {
    && Fits(c, sys)
    && phase != Unset
    && PhaseOk(c.status.(phase := phase, observedGeneration := c.generation), c.spec, sys.world)
  }

  lemma UpdateKeeps(sys: System, c: Local, phase: Phase, env: nat -> Attempt)
    requires Good(sys) && MayWrite(c, phase, sys)
    ensures var p := UpdateStatus(sys, c, phase, env);
            && Good(p.sys) && Grown(sys, p.sys) && p.sys.world == sys.world
            && Fits(p.local, p.sys)
            && p.local == c.(status := c.status.(phase := phase, observedGeneration := c.generation))
  {
    var st := c.status.(phase := phase, observedGeneration := c.generation);
    StatusFromLocal(c, st, sys);
    hide StatusOk, PhaseOk, WorldOk, Consistent, Evidence, WorldGrows, Call, Extends;
    CallExtends(sys.server, PutStatus(st), env);
    ServerStep(sys, Call(sys.server, PutStatus(st), env).server, {st});
    var p := UpdateStatus(sys, c, phase, env);
    FitsStays(c.(status := st), sys, p.sys);
  }

  lemma StatusFromLocal(c: Local, st: Status, sys: System)
    requires Fits(c, sys) && st.phase != Unset && PhaseOk(st, c.spec, sys.world)
    requires st == c.status.(phase := st.phase, observedGeneration := c.generation)
    ensures StatusOk(st, sys.server.versions, sys.world) && Fits(c.(status := st), sys)
  {
  }

  /* ---------------------------------------------------------------- the stages */

  lemma ReadyKeeps(sys: System, c: Local, env: nat -> Attempt)
    requires Good(sys) && Fits(c, sys) && Admissible(c.spec)
    requires IsTrue(c.status, StatefulSetReady) && IsTrue(c.status, AllNodesJoined)
    requires c.spec.ceph.Some? ==> CephReady(c.status, c.spec, sys.world)
    ensures Good(ReadyStage(sys, c, env)) && Grown(sys, ReadyStage(sys, c, env))
  {
    hide UpdateStatus, Admissible, Built, WorldOk, Consistent, StatusOk;
    UpdateKeeps(sys, Set(c, QuorumHealthy, true, "QuorumOK", ""), Ready, env);
  }

  lemma InitKeeps(sys: System, c: Local, e: Env)
    requires Good(sys) && Fits(c, sys) && Admissible(c.spec)
    requires IsTrue(c.status, StatefulSetReady) && !IsTrue(c.status, ClusterInitialized)
    ensures Good(InitStage(sys, c, e)) && Grown(sys, InitStage(sys, c, e))
  {
    hide UpdateStatus, Admissible, WorldOk, Consistent, StatusOk, Good, Grown, ClusterInit, WorldGrows;
    GoodParts(sys);
    UpdateKeeps(sys, c, Initializing, e.first);
    var p := UpdateStatus(sys, c, Initializing, e.first);
    if p.ok {
      var x := ClusterInit(sys.world, e.init);
      InitGrows(sys.world, e.init);
      WorldStep(p.sys, x.world);
      var after := p.sys.(world := x.world);
      FitsStays(p.local, p.sys, after);
      GrownTransitive(sys, p.sys, after);
      if !x.ok {
        var c2 := Set(p.local, ClusterInitialized, false, "", "InitFailed");
        UpdateKeeps(after, c2, Failed, e.second);
        GrownTransitive(sys, after, UpdateStatus(after, c2, Failed, e.second).sys);
      } else {
        var c1 := Set(p.local, ClusterInitialized, true, "ClusterCreated", "");
        var c2 := c1.(status := c1.status.(joinedNodes := 1));
        UpdateKeeps(after, c2, Joining, e.second);
        GrownTransitive(sys, after, UpdateStatus(after, c2, Joining, e.second).sys);
      }
    }
  }

  lemma GoodParts(sys: System)
    requires Good(sys)
    ensures WorldOk(sys.world) && Consistent(sys.server) && Stored(sys.server)
  {
  }

  /** A join loop that went through has counted every pod of the spec the pass works on. */
  lemma JoinedStatus(c: Local, joined: int, sys: System)
    requires Fits(c, sys) && (forall j | 0 <= j < joined :: j in sys.world.members)
    requires !IsTrue(c.status, AllNodesJoined)
    ensures Fits(Joined(c, joined), sys)
  {
  }

  lemma AllJoinedStatus(c: Local, sys: System)
    requires Fits(c, sys) && c.status.joinedNodes == c.spec.nodes && IsTrue(c.status, ClusterInitialized)
    ensures Fits(Set(Set(c, AllNodesJoined, true, "AllNodesJoined", ""), QuorumHealthy, true, "QuorumOK", ""), sys)
  {
  }

  lemma JoinKeeps(sys: System, c: Local, e: Env)
    requires Good(sys) && Fits(c, sys) && Admissible(c.spec)
    requires IsTrue(c.status, StatefulSetReady) && IsTrue(c.status, ClusterInitialized)
               && !IsTrue(c.status, AllNodesJoined)
    ensures Good(JoinStage(sys, c, e)) && Grown(sys, JoinStage(sys, c, e))
  {
    hide UpdateStatus, Admissible, WorldOk, Consistent, StatusOk, Good, Grown, JoinAll, WorldGrows, Fits, Evidence;
    GoodParts(sys);
    UpdateKeeps(sys, c, Joining, e.first);
    var p := UpdateStatus(sys, c, Joining, e.first);
    if p.ok {
      var n: int := c.spec.nodes;
      FitsParts(c, sys);
      JoinAllGrows(sys.world, n, e.join);
      var r := JoinAll(sys.world, n, e.join);
      WorldStep(p.sys, r.world);
      var after := p.sys.(world := r.world);
      FitsStays(p.local, p.sys, after);
      GrownTransitive(sys, p.sys, after);
      JoinedStatus(p.local, r.joined, after);
      var c2 := Joined(p.local, r.joined);
      if r.joined < n {
        UpdateKeeps(after, c2, Joining, e.second);
        GrownTransitive(sys, after, UpdateStatus(after, c2, Joining, e.second).sys);
      } else {
        AllJoinedStatus(c2, after);
        var c3 := Set(Set(c2, AllNodesJoined, true, "AllNodesJoined", ""), QuorumHealthy, true, "QuorumOK", "");
        UpdateKeeps(after, c3, Joining, e.second);
        GrownTransitive(sys, after, UpdateStatus(after, c3, Joining, e.second).sys);
      }
    }
  }

  lemma FitsParts(c: Local, sys: System)
    requires Fits(c, sys)
    ensures c.spec.nodes >= 1 && (IsTrue(c.status, ClusterInitialized) ==> 0 in sys.world.members)
    ensures IsTrue(c.status, AllNodesJoined) ==> IsTrue(c.status, ClusterInitialized)
  {
  }

  lemma ExecuteGrows(w: World, site: Site, spec: ClusterSpec, env: nat -> Exec)
    requires WorldOk(w) && spec.ceph.Some? && spec.nodes >= 1 && site.members == w.members
    ensures var x := Execute(w.ceph, site, spec, env);
            && WorldOk(w.(ceph := x.world)) && WorldGrows(w, w.(ceph := x.world))
            && x.done <= |Plan(spec)|
            && (x.done == |Plan(spec)| ==>
                  Built(w.(ceph := x.world), spec) && site.mounted.ceph.Some? && AllPools(site.mounted, x.world))
  {
    hide Achieved, Grows, Layered, Plan, WalkPlan, PoolsOf;
    WalkKeeps(w.ceph, site, spec, |Plan(spec)|, env);
    var x := Execute(w.ceph, site, spec, env);
    if x.done == |Plan(spec)| {
      CompleteNeeds(w.ceph, site, spec, env);
      CompleteBuilds(w.ceph, site, spec, env);
    }
  }

  lemma CompleteBuilds(w: CephWorld, site: Site, spec: ClusterSpec, env: nat -> Exec)
    requires spec.ceph.Some? && spec.nodes >= 1 && Completes(w, site, spec, env)
    ensures var v := Execute(w, site, spec, env).world;
            && v.conf && AllPools(site.mounted, v)
            && Ordinals(EffectiveMonCount(spec)) <= v.mons && Ordinals(EffectiveMgrCount(spec)) <= v.mgrs
  {
    CompleteReachesTarget(w, site, spec, env);
    hide Execute, Completes, PoolsOf;
    forall p | p in PoolsOf(site.mounted)
      ensures p.name in Execute(w, site, spec, env).world.pools
    {
      CompletePools(w, site, spec, env, p.name);
    }
  }

  /** The mounted scripts were rendered from a stored spec. */
  lemma MountedIsStored(sys: System, c: Local, e: Env, w: CephWorld)
    requires Fits(c, sys) && Admissible(c.spec)
    requires var m := SiteOf(sys, c, e).mounted; m.ceph.Some? && AllPools(m, w)
    ensures PoolsStored(sys.server.versions, w)
  {
    hide AllPools, Evidence, Admissible;
    var vs, m := sys.server.versions, e.mount;
    if m.Rendered? && m.version < |vs| && Admissible(vs[m.version].spec) {
      assert vs[m.version].spec == SiteOf(sys, c, e).mounted;
    } else {
      var i :| 0 <= i < |sys.server.versions|
               && sys.server.versions[i].generation == c.generation && sys.server.versions[i].spec == c.spec;
    }
  }

  /** Conditions that are no evidence, or are taken back. */
  lemma SetFits(c: Local, t: CondType, ok: bool, trueReason: string, falseReason: string, sys: System)
    requires Fits(c, sys) && t != AllNodesJoined && t != ClusterInitialized
    requires ok ==> t != CephInitialized && t != CephPoolsReady
    ensures Fits(Set(c, t, ok, trueReason, falseReason), sys)
  {
  }

  lemma PolledFits(c: Local, st: CephStatus, sys: System)
    requires Fits(c, sys) && sys.world.ceph.conf && PoolsStored(sys.server.versions, sys.world.ceph)
    ensures Fits(Polled(PlanDone(c), st), sys)
  {
  }

  lemma CephKeeps(sys: System, c: Local, e: Env)
    requires Good(sys) && Fits(c, sys) && Admissible(c.spec) && c.spec.ceph.Some?
    requires IsTrue(c.status, StatefulSetReady) && IsTrue(c.status, AllNodesJoined)
    ensures Good(CephStage(sys, c, e)) && Grown(sys, CephStage(sys, c, e))
  {
    hide UpdateStatus, Admissible, WorldOk, Consistent, StatusOk, Good, Grown, WorldGrows, Fits, Evidence, Plan,
         Execute, Built, ReadyStage, StatusOf, CephUsable, AllPools, PoolsStored;
    GoodParts(sys);
    UpdateKeeps(sys, c, ConfiguringCeph, e.first);
    var p := UpdateStatus(sys, c, ConfiguringCeph, e.first);
    if p.ok {
      FitsParts(c, sys);
      var site := SiteOf(p.sys, c, e);
      ExecuteGrows(sys.world, site, c.spec, e.ceph);
      var walk := Execute(sys.world.ceph, site, c.spec, e.ceph);
      var after := p.sys.(world := sys.world.(ceph := walk.world));
      WorldStep(p.sys, after.world);
      FitsStays(p.local, p.sys, after);
      GrownTransitive(sys, p.sys, after);
      if walk.done < |Plan(c.spec)| {
        var step := Plan(c.spec)[walk.done].step;
        SetFits(p.local, StepCondition(step), false, "", StepFailed(step), after);
        var c2 := Set(p.local, StepCondition(step), false, "", StepFailed(step));
        UpdateKeeps(after, c2, ConfiguringCeph, e.second);
        GrownTransitive(sys, after, UpdateStatus(after, c2, ConfiguringCeph, e.second).sys);
      } else if e.cephStatus.Some? {
        var st := StatusOf(c.spec, e.cephStatus.value);
        MountedIsStored(after, p.local, e, walk.world);
        BuiltHasConf(after.world, c.spec);
        PolledFits(p.local, st, after);
        var c2 := Polled(PlanDone(p.local), st);
        if !CephUsable(st) {
          UpdateKeeps(after, c2, ConfiguringCeph, e.second);
          GrownTransitive(sys, after, UpdateStatus(after, c2, ConfiguringCeph, e.second).sys);
        } else {
          StatusExpects(c.spec, e.cephStatus.value);
          UsableReady(p.local, st, after.world);
          ReadyKeeps(after, c2, e.second);
          GrownTransitive(sys, after, ReadyStage(after, c2, e.second));
        }
      }
    }
  }

  lemma BuiltHasConf(w: World, spec: ClusterSpec)
    requires Built(w, spec)
    ensures w.ceph.conf
  {
  }

  lemma StatusExpects(spec: ClusterSpec, out: string)
    ensures StatusOf(spec, out).osdsExpected == ExpectedOSDs(spec)
  {
  }

  lemma UsableReady(c: Local, st: CephStatus, w: World)
    requires c.spec.ceph.Some? && CephUsable(st) && st.osdsExpected == ExpectedOSDs(c.spec) && Built(w, c.spec)
    ensures CephReady(Polled(PlanDone(c), st).status, c.spec, w)
  {
    hide Built, ExpectedOSDs;
  }

  lemma ConvergeKeeps(sys: System, c: Local, e: Env)
    requires Good(sys) && Fits(c, sys)
    ensures Good(Converge(sys, c, e)) && Grown(sys, Converge(sys, c, e))
  {
    hide UpdateStatus, Admissible, WorldOk, Consistent, StatusOk, Good, Grown, Fits, Evidence, InitStage, JoinStage,
         CephStage, ReadyStage;
    GrownReflexive(sys);
    FitsParts(c, sys);
    SetFits(c, CephInitialized, false, "", "InvalidCephSpec", sys);
    if !Admissible(c.spec) {
      UpdateKeeps(sys, Set(c, CephInitialized, false, "", "InvalidCephSpec"), Failed, e.first);
    } else if e.resourcesOk && e.sts.StsNotVisible? {
      UpdateKeeps(sys, c, Pending, e.first);
    } else if e.resourcesOk && e.sts.StsSeen? {
      var ready := e.sts.readyReplicas == c.spec.nodes;
      SetFits(c, StatefulSetReady, ready, "AllPodsReady", "NotAllPodsReady", sys);
      var c1 := Set(c, StatefulSetReady, ready, "AllPodsReady", "NotAllPodsReady");
      FitsParts(c1, sys);
      if !ready {
        UpdateKeeps(sys, c1, Pending, e.first);
      } else if !IsTrue(c1.status, ClusterInitialized) {
        InitKeeps(sys, c1, e);
      } else if !IsTrue(c1.status, AllNodesJoined) {
        JoinKeeps(sys, c1, e);
      } else if c1.spec.ceph.Some? {
        CephKeeps(sys, c1, e);
      } else {
        ReadyKeeps(sys, c1, e.second);
      }
    }
  }

  lemma GrownReflexive(sys: System)
    ensures Grown(sys, sys)
  {
  }

  /** The copy a pass starts from is some version, maybe an old one. */
  lemma ReadFits(sys: System, get: Get)
    requires Good(sys) && FirstRead(sys.server, get).Some?
    ensures var o := FirstRead(sys.server, get).value; Fits(Local(o.spec, o.generation, o.status), sys)
  {
  }

  lemma PassKeeps(sys: System, e: Env)
    requires Good(sys)
    ensures Good(Pass(sys, e)) && Grown(sys, Pass(sys, e))
    ensures ApplyEdits(sys.server, e.before).versions <= Pass(sys, e).server.versions
  {
    hide WorldOk, StatusOk, WorldGrows, Fits, Converge, Admit, ApplyEdits, Consistent, Extends;
    EditsExtend(sys.server, e.before);
    var s := ApplyEdits(sys.server, e.before);
    ServerStep(sys, s, {});
    var sys1 := sys.(server := s);
    var read := FirstRead(s, e.get);
    if read.Some? {
      var o := read.value;
      ReadFits(sys1, e.get);
      AdmitExtends(s, o, e.finalizer);
      var (s1, on) := Admit(s, o, e.finalizer);
      var sys2 := sys.(server := s1);
      ServerStep(sys1, s1, {});
      GrownTransitive(sys, sys1, sys2);
      if on {
        var c := Local(o.spec, o.generation, o.status);
        FitsStays(c, sys1, sys2);
        ConvergeKeeps(sys2, c, e);
        GrownTransitive(sys, sys2, Converge(sys2, c, e));
      }
    }
  }

  /* ---------------------------------------------------------------- whole runs */

  /** The system after any sequence of passes. A pass that stops anywhere, say because the operator
      dies, is a pass from there on whose writes are rejected and whose execs do not start. */
  ghost function Run(sys: System, envs: seq<Env>): (r: System)
    requires Good(sys)
    ensures Good(r) && Grown(sys, r)
  {
    if envs == [] then
      GrownReflexive(sys);
      sys
    else
      var before := Run(sys, envs[..|envs| - 1]);
      PassKeeps(before, envs[|envs| - 1]);
      GrownTransitive(sys, before, Pass(before, envs[|envs| - 1]));
      Pass(before, envs[|envs| - 1])
  }

  /** A user has just created the object; nothing exists yet. */
  ghost predicate Initial(sys: System) {
    && |sys.server.versions| == 1 && Latest(sys.server).status == NO_STATUS && Latest(sys.server).spec.nodes >= 1
    && sys.world == World({}, 0, NO_CEPH)
  }

  lemma InitialIsGood(sys: System)
    requires Initial(sys)
    ensures Good(sys)
  {
  }

  /** A run leads from start to sys. */
  ghost predicate LeadsTo(start: System, envs: seq<Env>, sys: System) {
    Good(start) && sys == Run(start, envs)
  }

  /** Version u holds the spec that the status of version i was written for. */
  ghost predicate WrittenForSpecOf(sys: System, i: nat, u: nat) {
    var vs := sys.server.versions;
    && i < |vs| && u < |vs|
    && vs[i].status.phase != Unset && vs[u].generation == vs[i].status.observedGeneration
  }

  /** Membership: in every reachable world the members are exactly {0..k} or nobody, `pvecm create`
      took effect at most once, no status ever persisted claims more members than there are, and
      nothing of Ceph exists without what it stands on. */
  lemma Membership(start: System, envs: seq<Env>, sys: System, i: nat)
    requires LeadsTo(start, envs, sys) && i < |sys.server.versions|
    ensures var st := sys.server.versions[i].status;
            && sys.world.members == Ordinals(|sys.world.members|)
            && sys.world.creates == (if sys.world.members == {} then 0 else 1)
            && (IsTrue(st, ClusterInitialized) ==> 0 in sys.world.members)
            && st.joinedNodes <= |sys.world.members|
            && Layered(sys.world.ceph)
            && start.world.members <= sys.world.members
  {
    hide Run;
    var st := sys.server.versions[i].status;
    assert StatusOk(st, sys.server.versions, sys.world);
    SegmentIsInitial(sys.world.members);
    hide Consistent, Layered, WrittenFor;
    assert |sys.world.members| !in sys.world.members;
  }

  /** The phase invariant, for every status ever persisted and the spec of the generation it observed. */
  lemma PersistedPhase(start: System, envs: seq<Env>, sys: System, i: nat, u: nat)
    requires LeadsTo(start, envs, sys) && WrittenForSpecOf(sys, i, u)
    ensures var st, spec := sys.server.versions[i].status, sys.server.versions[u].spec;
            && PhaseOk(st, spec, sys.world)
            && (IsTrue(st, AllNodesJoined) ==> IsTrue(st, ClusterInitialized))
            && (st.phase == Ready ==> Admissible(spec))
  {
    hide Run, Good, PhaseOk, Admissible;
    PhaseHolds(sys, i, u);
  }

  lemma PhaseHolds(sys: System, i: nat, u: nat)
    requires Good(sys) && WrittenForSpecOf(sys, i, u)
    ensures var st, spec := sys.server.versions[i].status, sys.server.versions[u].spec;
            && PhaseOk(st, spec, sys.world)
            && (IsTrue(st, AllNodesJoined) ==> IsTrue(st, ClusterInitialized))
            && (st.phase == Ready ==> Admissible(spec))
  {
    var st := sys.server.versions[i].status;
    hide PhaseOk, Layered, WorldOk, Admissible;
    assert StatusOk(st, sys.server.versions, sys.world);
    var w :| 0 <= w < |sys.server.versions|
             && sys.server.versions[w].generation == st.observedGeneration
             && PhaseOk(st, sys.server.versions[w].spec, sys.world);
    assert sys.server.versions[w].spec == sys.server.versions[u].spec;
    if st.phase == Ready {
      ReadyIsAdmissible(st, sys.server.versions[u].spec, sys.world);
    }
  }

  lemma ReadyIsAdmissible(st: Status, spec: ClusterSpec, w: World)
    requires PhaseOk(st, spec, w) && st.phase == Ready
    ensures Admissible(spec)
  {
  }

  /** A Ready Ceph cluster can place every replica of every pool of its spec, wrapped product or not; it
      has every monitor and manager that was asked for; all nodes of its spec are members, whether their
      number was raised or not; and it has all pools of some stored spec, the one that was mounted. */
  lemma ReadyCephPlacesReplicas(start: System, envs: seq<Env>, sys: System, i: nat, u: nat, p: PoolSpec)
    requires LeadsTo(start, envs, sys) && WrittenForSpecOf(sys, i, u)
    requires var vs := sys.server.versions;
               vs[i].status.phase == Ready && vs[u].spec.ceph.Some? && p in PoolsOf(vs[u].spec)
    ensures var st, spec := sys.server.versions[i].status, sys.server.versions[u].spec;
            && st.ceph.Some? && p.minSize <= p.size <= st.ceph.value.osdsReady
            && Ordinals(EffectiveMonCount(spec)) <= sys.world.ceph.mons
            && Ordinals(EffectiveMgrCount(spec)) <= sys.world.ceph.mgrs
            && Ordinals(spec.nodes) <= sys.world.members
            && PoolsStored(sys.server.versions, sys.world.ceph)
  {
    PersistedPhase(start, envs, sys, i, u);
    hide Run, Layered, WrittenFor, Consistent, PoolsStored;
    assert StatusOk(sys.server.versions[i].status, sys.server.versions, sys.world);
  }

  /** AllNodesJoined is never taken back, so without Ceph, Ready means that all nodes of the spec are
      members as long as the node count was not raised above the one the condition was set for. */
  lemma ReadyMembers(start: System, envs: seq<Env>, sys: System, i: nat, u: nat)
    requires LeadsTo(start, envs, sys) && WrittenForSpecOf(sys, i, u)
    requires var vs := sys.server.versions;
             vs[i].status.phase == Ready && (vs[u].spec.nodes <= vs[i].status.joinedNodes || vs[u].spec.ceph.Some?)
    ensures Ordinals(sys.server.versions[u].spec.nodes) <= sys.world.members
  {
    PersistedPhase(start, envs, sys, i, u);
    hide Run, Layered, WrittenFor, Consistent;
    assert StatusOk(sys.server.versions[i].status, sys.server.versions, sys.world);
  }

  /* ---------------------------------------------------------------- announced before done */

  /** The stage that the conditions of a status call for. */
  function StagePhase(st: Status): Phase {
    if !IsTrue(st, ClusterInitialized) then Initializing
    else if !IsTrue(st, AllNodesJoined) then Joining
    else ConfiguringCeph
  }

  /** The status update a stage begins with. */
  function Opening(sys: System, c: Local, e: Env): Put
    requires Stored(sys.server)
  {
    UpdateStatus(sys, Set(c, StatefulSetReady, true, "AllPodsReady", "NotAllPodsReady"), StagePhase(c.status), e.first)
  }

  /** What the stage announced by p does to a world: found a cluster, let pods join it, walk the plan. */
  ghost predicate StageChange(p: Put, e: Env, v: World, w: World)
    requires p.local.spec.nodes >= 1
  {
    match p.local.status.phase
    case Initializing => w == v.(members := v.members + {0}, creates := v.creates + 1)
    case Joining => w == v.(members := JoinAll(v, p.local.spec.nodes, e.join).world.members)
    case ConfiguringCeph => w == v.(ceph := Execute(v.ceph, SiteOf(p.sys, p.local, e), p.local.spec, e.ceph).world)
    case _ => false
  }

  lemma PutWrites(sys: System, c: Local, phase: Phase, env: nat -> Attempt)
    requires Consistent(sys.server)
    ensures var p := UpdateStatus(sys, c, phase, env);
            && Consistent(p.sys.server) && sys.server.versions <= p.sys.server.versions && p.sys.world == sys.world
            && (p.ok ==>
                  |sys.server.versions| < |p.sys.server.versions| && Latest(p.sys.server).status == p.local.status)
  {
    var st := c.status.(phase := phase, observedGeneration := c.generation);
    RetryLosesNothing(sys.server, PutStatus(st), env, 0, RETRY_STEPS);
    CallExtends(sys.server, PutStatus(st), env);
    EditsPrefix(sys.server, Call(sys.server, PutStatus(st), env).others);
    hide Call, Consistent, ApplyEdits;
  }

  lemma {:induction false} JoinAllMembers(w: World, n: int, env: int -> Exec)
    requires n >= 1
    ensures var r := JoinAll(w, n, env).world; r == w.(members := r.members)
  {
    if n > 1 {
      JoinAllMembers(w, n - 1, env);
    }
  }

  lemma ConvergeAnnounces(sys: System, c: Local, e: Env)
    requires Stored(sys.server) && Consistent(sys.server) && c.spec.nodes >= 1
    requires Converge(sys, c, e).world != sys.world
    ensures Admissible(c.spec) && e.sts == StsSeen(c.spec.nodes)
    ensures var p := Opening(sys, c, e);
            && p.ok && p.local.status.phase == StagePhase(c.status) && p.local.spec == c.spec
            && p.sys.server.versions <= Converge(sys, c, e).server.versions
            && StageChange(p, e, sys.world, Converge(sys, c, e).world)
  {
    hide UpdateStatus, Admissible, Consistent, JoinAll, Execute, Plan, StatusOf, CephUsable;
    PutWrites(sys, Set(c, CephInitialized, false, "", "InvalidCephSpec"), Failed, e.first);
    PutWrites(sys, c, Pending, e.first);
    var ready := e.sts.StsSeen? && e.sts.readyReplicas == c.spec.nodes;
    var c1 := Set(c, StatefulSetReady, ready, "AllPodsReady", "NotAllPodsReady");
    PutWrites(sys, c1, Pending, e.first);
    PutWrites(sys, Set(c1, QuorumHealthy, true, "QuorumOK", ""), Ready, e.second);
    var phase := StagePhase(c.status);
    PutWrites(sys, c1, phase, e.first);
    var p := UpdateStatus(sys, c1, phase, e.first);
    OpeningLocal(sys, c1, phase, e.first);
    JoinAllMembers(sys.world, c.spec.nodes, e.join);
    if p.ok {
      StageExtends(p.sys, p.local, e);
    }
  }

  lemma OpeningLocal(sys: System, c: Local, phase: Phase, env: nat -> Attempt)
    requires Stored(sys.server)
    ensures UpdateStatus(sys, c, phase, env).local.status.phase == phase
              && UpdateStatus(sys, c, phase, env).local.spec == c.spec
  {
  }

  /** Whatever a stage writes second goes on top of what it wrote first, and changes the object only. */
  lemma StageExtends(sys: System, c: Local, e: Env)
    requires Stored(sys.server) && Consistent(sys.server)
    ensures forall w, d, phase :: var p := UpdateStatus(System(sys.server, w), d, phase, e.second);
                                  sys.server.versions <= p.sys.server.versions && p.sys.world == w
  {
    forall w, d, phase
      ensures var p := UpdateStatus(System(sys.server, w), d, phase, e.second);
              sys.server.versions <= p.sys.server.versions && p.sys.world == w
    {
      PutWrites(System(sys.server, w), d, phase, e.second);
    }
  }

  /** What a pass is about to work on: the object it read and the system after its finalizer is in place. */
  function ReadCopy(sys: System, e: Env): Option<Local>
    requires Stored(sys.server)
  {
    var read := FirstRead(ApplyEdits(sys.server, e.before), e.get);
    if read.None? then None else Some(Local(read.value.spec, read.value.generation, read.value.status))
  }

  function Admitted(sys: System, e: Env): (t: System)
    requires Stored(sys.server)
    ensures Stored(t.server)
  {
    var s := ApplyEdits(sys.server, e.before);
    var read := FirstRead(s, e.get);
    sys.(server := if read.None? then s else Admit(s, read.value, e.finalizer).0)
  }

  /** The cluster is touched only for an admissible spec, with all its pods ready, and after the pass has
      persisted the phase of the stage at work: if that write fails nothing is touched. It comes after
      everything others wrote before the pass, and the stage changes nothing but what is its own: the first
      member and the cluster, other members, or Ceph. */
  lemma ActsOnlyAnnounced(sys: System, e: Env)
    requires Good(sys) && Pass(sys, e).world != sys.world
    ensures var c := ReadCopy(sys, e);
            && c.Some? && Admissible(c.value.spec) && e.sts == StsSeen(c.value.spec.nodes)
            && var p := Opening(Admitted(sys, e), c.value, e);
            && p.ok && p.sys.world == sys.world && p.local.status.phase == StagePhase(c.value.status)
            && p.local.spec == c.value.spec && p.local.spec.nodes >= 1
            && |ApplyEdits(sys.server, e.before).versions| < |p.sys.server.versions|
            && Latest(p.sys.server).status == p.local.status
            && p.sys.server.versions <= Pass(sys, e).server.versions
            && StageChange(p, e, sys.world, Pass(sys, e).world)
  {
    GoodParts(sys);
    EditsExtend(sys.server, e.before);
    var s := ApplyEdits(sys.server, e.before);
    var o := FirstRead(s, e.get).value;
    AdmitExtends(s, o, e.finalizer);
    var s1 := Admit(s, o, e.finalizer).0;
    ReadNodes(s, e.get);
    hide Good, Converge, Admissible, ApplyEdits, Admit, FirstRead, Consistent, UpdateStatus, StageChange;
    var c := Local(o.spec, o.generation, o.status);
    ConvergeAnnounces(sys.(server := s1), c, e);
    PutWrites(sys.(server := s1), Set(c, StatefulSetReady, true, "AllPodsReady", "NotAllPodsReady"),
        StagePhase(c.status), e.first);
  }

  lemma ReadNodes(s: Server, get: Get)
    requires Consistent(s)
    ensures FirstRead(s, get).Some? ==> FirstRead(s, get).value.spec.nodes >= 1
  {
  }
}
