/** How a cluster gets to Ready: with up-to-date first reads and a spec nobody changes, passes that
    fail in any way never lose ground, and each pass that goes well gains some. */
module Progress {
  import opened Basics
  import opened CephSpec
  import opened CephStatus
  import opened CephScripts
  import opened ClusterApi
  import opened ApiServer
  import opened Reconcile
  import opened Retries
  import opened Safety

  /* ---------------------------------------------------------------- ground gained */

  /** The two conditions that gate the stages. */
  ghost predicate NoWorse(a: Status, b: Status) {
    && (IsTrue(a, ClusterInitialized) ==> IsTrue(b, ClusterInitialized))
    && (IsTrue(a, AllNodesJoined) ==> IsTrue(b, AllNodesJoined))
  }

  /** How many good passes are still needed: one for each missing condition and one for Ready. */
  function Distance(st: Status): nat {
    (if IsTrue(st, ClusterInitialized) then 0 else 1) + (if IsTrue(st, AllNodesJoined) then 0 else 1) + 1
  }

  /** The object exists, is not being deleted, and this is its spec. */
  ghost predicate Steady(s: Server, spec: ClusterSpec, generation: nat) {
    && Stored(s) && !s.gone && !Latest(s).deleting
    && Latest(s).spec == spec && Latest(s).generation == generation
  }

  /** Others may touch labels and finalizers only. */
  ghost predicate Harmless(edits: seq<Edit>, spec: ClusterSpec) {
    forall e | e in edits :: e.spec == spec && !e.delete
  }

  ghost predicate Quiet(env: nat -> Attempt, spec: ClusterSpec) {
    forall k :: Harmless(env(k).before, spec) && Harmless(env(k).between, spec)
  }

  /** From s on every version is at least as far as all before it. */
  ghost predicate Advance(s: Server, t: Server) {
    && Stored(s) && s.versions <= t.versions
    && forall i, j | |s.versions| - 1 <= i <= j < |t.versions| :: NoWorse(t.versions[i].status, t.versions[j].status)
  }

  lemma AdvanceReflexive(s: Server)
    requires Stored(s)
    ensures Advance(s, s)
  {
  }

  lemma AdvanceTransitive(s: Server, t: Server, u: Server)
    requires Advance(s, t) && Advance(t, u)
    ensures Advance(s, u)
  {
    forall i, j | |s.versions| - 1 <= i <= j < |u.versions|
      ensures NoWorse(u.versions[i].status, u.versions[j].status)
    {
      var m := |t.versions| - 1;
      if i < m < j {
        assert NoWorse(t.versions[i].status, t.versions[m].status)
                 && NoWorse(u.versions[m].status, u.versions[j].status);
        assert u.versions[m] == t.versions[m];
      }
    }
  }

  lemma AdvanceLatest(s: Server, t: Server)
    requires Advance(s, t)
    ensures Stored(t) && NoWorse(Latest(s).status, Latest(t).status)
  {
  }

  /** One more version. */
  lemma CommitAdvances(s: Server, o: Object, spec: ClusterSpec, generation: nat)
    requires Steady(s, spec, generation) && o.spec == spec && o.generation == generation && !o.deleting
    requires NoWorse(Latest(s).status, o.status)
    ensures Steady(Commit(s, o), spec, generation) && Advance(s, Commit(s, o)) && Latest(Commit(s, o)) == o
  {
  }

  lemma {:induction false} EditsAdvance(s: Server, edits: seq<Edit>, spec: ClusterSpec, generation: nat)
    requires Steady(s, spec, generation) && Harmless(edits, spec)
    ensures var t := ApplyEdits(s, edits);
            Steady(t, spec, generation) && Advance(s, t) && Latest(t).status == Latest(s).status
  {
    if edits == [] {
      AdvanceReflexive(s);
    } else {
      hide Advance;
      var n := |edits| - 1;
      EditsAdvance(s, edits[..n], spec, generation);
      var t, e := ApplyEdits(s, edits[..n]), edits[n];
      if e.spec.nodes >= 1 {
        CommitAdvances(t, Edited(Latest(t), e), spec, generation);
        AdvanceTransitive(s, t, ApplyEdit(t, e));
      }
    }
  }

  lemma {:induction false} OthersHarmless(s: Server, op: Op, env: nat -> Attempt, k: nat, steps: nat, spec: ClusterSpec)
    requires Stored(s) && k <= steps && Quiet(env, spec)
    ensures Harmless(Retry(s, op, env, k, steps).others, spec)
    decreases steps - k
  {
    if k < steps {
      hide ApplyEdits, Wanted, VersionRead;
      var r := Try(s, op, env(k));
      assert Harmless(r.others, spec);
      if r.verdict.Conflict? {
        OthersHarmless(r.server, op, env, k + 1, steps, spec);
      }
    }
  }

  /** A call among harmless writes: the latest status is the desired one or the one from before. */
  lemma CallAdvances(s: Server, op: Op, env: nat -> Attempt, spec: ClusterSpec, generation: nat)
    requires Steady(s, spec, generation) && Quiet(env, spec) && !op.RemoveFinalizer?
    requires op.PutStatus? ==> NoWorse(Latest(s).status, op.status)
    ensures var r := Call(s, op, env);
            && Steady(r.server, spec, generation) && Advance(s, r.server)
            && (Latest(r.server).status == Latest(s).status || (op.PutStatus? && Latest(r.server).status == op.status))
            && (op.PutStatus? && r.verdict.Done? ==> Latest(r.server).status == op.status)
  {
    RetryLosesNothing(s, op, env, 0, RETRY_STEPS);
    OthersHarmless(s, op, env, 0, RETRY_STEPS, spec);
    var r := Call(s, op, env);
    hide Call, ApplyEdits, Advance, Harmless, Quiet, NoWorse;
    EditsAdvance(s, r.others, spec, generation);
    if r.written {
      var base := ApplyEdits(s, r.others);
      var o := Wanted(op, Latest(base)).value;
      NoWorseReflexive(Latest(base).status);
      CommitAdvances(base, o, spec, generation);
      AdvanceTransitive(s, base, r.server);
    }
  }

  lemma NoWorseReflexive(st: Status)
    ensures NoWorse(st, st)
  {
  }

  /** Among harmless writes a call that settles succeeds. */
  lemma SmoothCall(s: Server, op: Op, env: nat -> Attempt, spec: ClusterSpec, generation: nat)
    requires Steady(s, spec, generation) && Quiet(env, spec) && !op.RemoveFinalizer? && Settles(env)
    ensures Call(s, op, env).verdict.Done?
  {
    QuietIsSparing(env, spec);
    hide Call, Settles;
    SettledCall(s, op, env);
  }

  lemma QuietIsSparing(env: nat -> Attempt, spec: ClusterSpec)
    requires Quiet(env, spec)
    ensures AllSparing(env)
  {
  }

  /* ---------------------------------------------------------------- any pass */

  /** Others leave spec and existence alone, and the first read is up to date if it succeeds. */
  ghost predicate Calm(sys: System, e: Env, spec: ClusterSpec)
    requires Stored(sys.server)
  {
    && Harmless(e.before, spec)
    && Quiet(e.finalizer, spec) && Quiet(e.first, spec) && Quiet(e.second, spec)
    && var s := ApplyEdits(sys.server, e.before);
       (!e.get.GetFailed? ==> FirstRead(s, e.get) == Some(Latest(s)))
  }

  /** The copy, of whatever version it is, is at least as far as the server. */
  ghost predicate Leads(c: Local, s: Server, spec: ClusterSpec, generation: nat) {
    Steady(s, spec, generation) && NoWorse(Latest(s).status, c.status)
  }

  lemma UpdateAdvances(sys: System, c: Local, phase: Phase, env: nat -> Attempt, spec: ClusterSpec, generation: nat)
    requires Leads(c, sys.server, spec, generation) && Quiet(env, spec)
    ensures var p := UpdateStatus(sys, c, phase, env);
            && Advance(sys.server, p.sys.server) && Leads(p.local, p.sys.server, spec, generation)
            && p.sys.world == sys.world
            && p.local == c.(status := c.status.(phase := phase, observedGeneration := c.generation))
            && Latest(p.sys.server).status in {Latest(sys.server).status, p.local.status}
            && (p.ok ==> Latest(p.sys.server).status == p.local.status)
            && (Settles(env) ==> p.ok)
  {
    var st := c.status.(phase := phase, observedGeneration := c.generation);
    CallAdvances(sys.server, PutStatus(st), env, spec, generation);
    hide Call, Quiet, Advance;
    if Settles(env) {
      SmoothCall(sys.server, PutStatus(st), env, spec, generation);
    }
  }

  /** Whoever says that all nodes joined, and did not before, says so of the nodes of this spec. */
  ghost predicate JoinsTruly(sys: System, c: Local, t: System)
    requires Stored(sys.server) && Stored(t.server)
  {
    IsTrue(Latest(t.server).status, AllNodesJoined) ==>
      || IsTrue(Latest(sys.server).status, AllNodesJoined) || IsTrue(c.status, AllNodesJoined)
      || (IsTrue(c.status, ClusterInitialized) && Ordinals(c.spec.nodes) <= t.world.members)
  }

  ghost predicate StageCalm(sys: System, c: Local, e: Env, spec: ClusterSpec, generation: nat) {
    Leads(c, sys.server, spec, generation) && Quiet(e.first, spec) && Quiet(e.second, spec)
  }

  lemma ReadyAdvances(sys: System, c: Local, env: nat -> Attempt, spec: ClusterSpec, generation: nat)
    requires Leads(c, sys.server, spec, generation) && Quiet(env, spec)
    ensures Advance(sys.server, ReadyStage(sys, c, env).server)
              && Steady(ReadyStage(sys, c, env).server, spec, generation)
    ensures JoinsTruly(sys, c, ReadyStage(sys, c, env))
    ensures Settles(env) ==>
              && Latest(ReadyStage(sys, c, env).server).status.phase == Ready
              && Latest(ReadyStage(sys, c, env).server).status.observedGeneration == c.generation
  {
    hide UpdateStatus, Advance, Quiet;
    UpdateAdvances(sys, Set(c, QuorumHealthy, true, "QuorumOK", ""), Ready, env, spec, generation);
  }

  lemma InitAdvances(sys: System, c: Local, e: Env, spec: ClusterSpec, generation: nat)
    requires StageCalm(sys, c, e, spec, generation) && !IsTrue(c.status, ClusterInitialized)
    ensures Advance(sys.server, InitStage(sys, c, e).server) && Steady(InitStage(sys, c, e).server, spec, generation)
    ensures JoinsTruly(sys, c, InitStage(sys, c, e))
    ensures GoodWrites(e) && Smooth(e.init) ==> IsTrue(Latest(InitStage(sys, c, e).server).status, ClusterInitialized)
  {
    hide UpdateStatus, Advance, Quiet, Settles;
    UpdateAdvances(sys, c, Initializing, e.first, spec, generation);
    var p := UpdateStatus(sys, c, Initializing, e.first);
    if p.ok {
      var x := ClusterInit(sys.world, e.init);
      var after := p.sys.(world := x.world);
      if !x.ok {
        var c2 := Set(p.local, ClusterInitialized, false, "", "InitFailed");
        UpdateAdvances(after, c2, Failed, e.second, spec, generation);
        AdvanceTransitive(sys.server, after.server, UpdateStatus(after, c2, Failed, e.second).sys.server);
      } else {
        var c1 := Set(p.local, ClusterInitialized, true, "ClusterCreated", "");
        var c2 := c1.(status := c1.status.(joinedNodes := 1));
        UpdateAdvances(after, c2, Joining, e.second, spec, generation);
        AdvanceTransitive(sys.server, after.server, UpdateStatus(after, c2, Joining, e.second).sys.server);
      }
    }
  }

  ghost predicate GoodWrites(e: Env) {
    Settles(e.finalizer) && Settles(e.first) && Settles(e.second)
  }

  lemma {:induction false} JoinAllSmooth(w: World, n: int, env: int -> Exec)
    requires n >= 1 && 0 in w.members && forall i :: Smooth(env(i))
    ensures JoinAll(w, n, env).joined == n && 0 in JoinAll(w, n, env).world.members
  {
    if n > 1 {
      JoinAllSmooth(w, n - 1, env);
    }
  }

  lemma JoinAdvances(sys: System, c: Local, e: Env, spec: ClusterSpec, generation: nat)
    requires StageCalm(sys, c, e, spec, generation) && c.spec.nodes >= 1 && !IsTrue(c.status, AllNodesJoined)
    requires WorldOk(sys.world) && 0 in sys.world.members && IsTrue(c.status, ClusterInitialized)
    ensures Advance(sys.server, JoinStage(sys, c, e).server) && Steady(JoinStage(sys, c, e).server, spec, generation)
    ensures JoinsTruly(sys, c, JoinStage(sys, c, e))
    ensures GoodWrites(e) && (forall i :: Smooth(e.join(i))) ==>
              var st := Latest(JoinStage(sys, c, e).server).status;
                    IsTrue(st, AllNodesJoined) && IsTrue(st, ClusterInitialized)
  {
    hide UpdateStatus, Advance, Quiet, Settles, JoinAll, WorldOk, Grows;
    UpdateAdvances(sys, c, Joining, e.first, spec, generation);
    var p := UpdateStatus(sys, c, Joining, e.first);
    if p.ok {
      var r := JoinAll(sys.world, c.spec.nodes, e.join);
      JoinAllGrows(sys.world, c.spec.nodes, e.join);
      if forall i :: Smooth(e.join(i)) {
        JoinAllSmooth(sys.world, c.spec.nodes, e.join);
      }
      var after, c2 := p.sys.(world := r.world), Joined(p.local, r.joined);
      if r.joined < c.spec.nodes {
        UpdateAdvances(after, c2, Joining, e.second, spec, generation);
        AdvanceTransitive(sys.server, after.server, UpdateStatus(after, c2, Joining, e.second).sys.server);
      } else {
        var c3 := Set(Set(c2, AllNodesJoined, true, "AllNodesJoined", ""), QuorumHealthy, true, "QuorumOK", "");
        UpdateAdvances(after, c3, Joining, e.second, spec, generation);
        AdvanceTransitive(sys.server, after.server, UpdateStatus(after, c3, Joining, e.second).sys.server);
      }
    }
  }

  ghost predicate CephGood(e: Env, spec: ClusterSpec) {
    (forall k :: Smooth(e.ceph(k))) && e.cephStatus.Some? && CephUsable(StatusOf(spec, e.cephStatus.value))
  }

  /** The ceph-pool.sh in pod 0 is there, rendered now or from an older spec with Ceph. */
  ghost predicate ScriptsMounted(s: Server, e: Env) {
    e.mount.Current? || (e.mount.version < |s.versions| && s.versions[e.mount.version].spec.ceph.Some?)
  }

  lemma SiteHosts(sys: System, t: System, c: Local, e: Env)
    requires Advance(sys.server, t.server) && ScriptsMounted(sys.server, e)
    requires c.spec.ceph.Some? && Ordinals(c.spec.nodes) <= t.world.members
    ensures Hosts(SiteOf(t, c, e), c.spec)
  {
  }

  lemma CephAdvances(sys: System, c: Local, e: Env, spec: ClusterSpec, generation: nat)
    requires StageCalm(sys, c, e, spec, generation) && c.spec.ceph.Some? && c.spec.nodes >= 1
    ensures Advance(sys.server, CephStage(sys, c, e).server) && Steady(CephStage(sys, c, e).server, spec, generation)
    ensures JoinsTruly(sys, c, CephStage(sys, c, e))
    ensures GoodWrites(e) && CephGood(e, c.spec) && ScriptsMounted(sys.server, e)
              && Ordinals(c.spec.nodes) <= sys.world.members ==>
              var st := Latest(CephStage(sys, c, e).server).status;
                    st.phase == Ready && st.observedGeneration == c.generation
  {
    hide UpdateStatus, Advance, Quiet, Settles, Plan, Execute, ReadyStage, StatusOf, CephUsable, Smooth,
         ScriptsMounted, Hosts, SiteOf;
    UpdateAdvances(sys, c, ConfiguringCeph, e.first, spec, generation);
    var p := UpdateStatus(sys, c, ConfiguringCeph, e.first);
    if p.ok {
      var site := SiteOf(p.sys, c, e);
      if ScriptsMounted(sys.server, e) && Ordinals(c.spec.nodes) <= sys.world.members {
        SiteHosts(sys, p.sys, c, e);
      }
      ExecuteDone(sys.world.ceph, site, c.spec, e.ceph);
      var walk := Execute(sys.world.ceph, site, c.spec, e.ceph);
      var after := p.sys.(world := sys.world.(ceph := walk.world));
      if walk.done < |Plan(c.spec)| {
        var step := Plan(c.spec)[walk.done].step;
        var c2 := Set(p.local, StepCondition(step), false, "", StepFailed(step));
        UpdateAdvances(after, c2, ConfiguringCeph, e.second, spec, generation);
        AdvanceTransitive(sys.server, after.server, UpdateStatus(after, c2, ConfiguringCeph, e.second).sys.server);
      } else if e.cephStatus.Some? {
        var st := StatusOf(c.spec, e.cephStatus.value);
        var c2 := Polled(PlanDone(p.local), st);
        if !CephUsable(st) {
          UpdateAdvances(after, c2, ConfiguringCeph, e.second, spec, generation);
          AdvanceTransitive(sys.server, after.server, UpdateStatus(after, c2, ConfiguringCeph, e.second).sys.server);
        } else {
          ReadyAdvances(after, c2, e.second, spec, generation);
          AdvanceTransitive(sys.server, after.server, ReadyStage(after, c2, e.second).server);
        }
      }
    }
  }

  lemma ExecuteDone(w: CephWorld, site: Site, spec: ClusterSpec, env: nat -> Exec)
    requires spec.ceph.Some? && spec.nodes >= 1
    ensures Execute(w, site, spec, env).done <= |Plan(spec)|
    ensures (forall k :: Smooth(env(k))) && Hosts(site, spec) ==> Execute(w, site, spec, env).done == |Plan(spec)|
  {
    SmoothCompletes(w, site, spec, env);
  }

  /** Nothing goes wrong in a pass that starts from this status. */
  ghost predicate Undisturbed(s: Server, st: Status, e: Env, spec: ClusterSpec) {
    && e.get == Fresh && GoodWrites(e) && e.resourcesOk && e.sts == StsSeen(spec.nodes)
    && Smooth(e.init) && (forall i :: Smooth(e.join(i)))
    && (spec.ceph.Some? && IsTrue(st, AllNodesJoined) ==> CephGood(e, spec) && ScriptsMounted(s, e))
  }

  /** The plan can be completed: no pod of the spec is left out of the cluster for good. */
  ghost predicate CanFinish(st: Status, spec: ClusterSpec, w: World) {
    spec.ceph.None? || !IsTrue(st, AllNodesJoined) || Ordinals(spec.nodes) <= w.members
  }

  /** What a good pass makes of a status. */
  ghost predicate Gained(before: Status, after: Status, generation: nat) {
    if !IsTrue(before, ClusterInitialized) then IsTrue(after, ClusterInitialized)
    else if !IsTrue(before, AllNodesJoined) then IsTrue(after, AllNodesJoined) && IsTrue(after, ClusterInitialized)
    else after.phase == Ready && after.observedGeneration == generation
  }

  lemma ConvergeAdvances(sys: System, c: Local, e: Env, spec: ClusterSpec, generation: nat)
    requires StageCalm(sys, c, e, spec, generation) && c.spec.nodes >= 1 && WorldOk(sys.world)
    requires IsTrue(c.status, ClusterInitialized) ==> 0 in sys.world.members
    ensures Advance(sys.server, Converge(sys, c, e).server) && Steady(Converge(sys, c, e).server, spec, generation)
    ensures JoinsTruly(sys, c, Converge(sys, c, e))
    ensures Undisturbed(sys.server, c.status, e, c.spec) && Admissible(c.spec)
              && CanFinish(c.status, c.spec, sys.world) ==>
              Gained(c.status, Latest(Converge(sys, c, e).server).status, c.generation)
  {
    hide UpdateStatus, Advance, Quiet, Settles, Admissible, InitStage, JoinStage, CephStage, ReadyStage, Smooth,
         CephGood, WorldOk, ScriptsMounted;
    AdvanceReflexive(sys.server);
    if !Admissible(c.spec) {
      UpdateAdvances(sys, Set(c, CephInitialized, false, "", "InvalidCephSpec"), Failed, e.first, spec, generation);
    } else if e.resourcesOk && e.sts.StsNotVisible? {
      UpdateAdvances(sys, c, Pending, e.first, spec, generation);
    } else if e.resourcesOk && e.sts.StsSeen? {
      var c1 := Set(c, StatefulSetReady, e.sts.readyReplicas == c.spec.nodes, "AllPodsReady", "NotAllPodsReady");
      if e.sts.readyReplicas != c.spec.nodes {
        UpdateAdvances(sys, c1, Pending, e.first, spec, generation);
      } else if !IsTrue(c1.status, ClusterInitialized) {
        InitAdvances(sys, c1, e, spec, generation);
      } else if !IsTrue(c1.status, AllNodesJoined) {
        JoinAdvances(sys, c1, e, spec, generation);
      } else if c1.spec.ceph.Some? {
        CephAdvances(sys, c1, e, spec, generation);
      } else {
        ReadyAdvances(sys, c1, e.second, spec, generation);
      }
    }
  }

  /** However a calm pass fails, it loses no ground; an undisturbed one gains as long as the plan can be
      completed, and no pass takes that away. */
  lemma PassAdvances(sys: System, e: Env, spec: ClusterSpec, generation: nat)
    requires Good(sys) && Steady(sys.server, spec, generation) && Calm(sys, e, spec)
    ensures var u := Pass(sys, e); var t := u.server;
            && Advance(sys.server, t) && Steady(t, spec, generation)
            && (IsTrue(Latest(t).status, AllNodesJoined) ==> IsTrue(Latest(sys.server).status, ClusterInitialized))
            && (CanFinish(Latest(sys.server).status, spec, sys.world) ==>
                  && CanFinish(Latest(t).status, spec, u.world)
                  && (Undisturbed(sys.server, Latest(sys.server).status, e, spec) && Admissible(spec) ==>
                        Gained(Latest(sys.server).status, Latest(t).status, generation)))
  {
    hide Advance, Quiet, Settles, Converge, Call, ApplyEdits, Harmless, Smooth, CephGood, Admissible, WorldOk,
         Consistent, Gained, ScriptsMounted;
    GoodParts(sys);
    EditsAdvance(sys.server, e.before, spec, generation);
    var s := ApplyEdits(sys.server, e.before);
    var read := FirstRead(s, e.get);
    PassKeeps(sys, e);
    if read.Some? {
      var o := read.value;
      AdvanceReflexive(s);
      CallAdvances(s, AddFinalizer(FINALIZER), e.finalizer, spec, generation);
      if Settles(e.finalizer) {
        SmoothCall(s, AddFinalizer(FINALIZER), e.finalizer, spec, generation);
      }
      var (s1, on) := Admit(s, o, e.finalizer);
      AdvanceTransitive(sys.server, s, s1);
      if on {
        var c := Local(o.spec, o.generation, o.status);
        var sys1 := sys.(server := s1);
        NoWorseReflexive(o.status);
        LatestFacts(sys, spec, generation);
        if Undisturbed(sys.server, Latest(sys.server).status, e, spec) {
          StillUndisturbed(sys.server, s1, o.status, e, spec);
        }
        ConvergeAdvances(sys1, c, e, spec, generation);
        AdvanceTransitive(sys.server, s1, Converge(sys1, c, e).server);
      }
    }
  }

  lemma StillUndisturbed(s: Server, t: Server, st: Status, e: Env, spec: ClusterSpec)
    requires Advance(s, t) && Undisturbed(s, st, e, spec)
    ensures Undisturbed(t, st, e, spec)
  {
    hide CephGood, GoodWrites, Smooth;
  }

  lemma LatestFacts(sys: System, spec: ClusterSpec, generation: nat)
    requires Good(sys) && Steady(sys.server, spec, generation)
    ensures spec.nodes >= 1
    ensures IsTrue(Latest(sys.server).status, ClusterInitialized) ==> 0 in sys.world.members
    ensures IsTrue(Latest(sys.server).status, AllNodesJoined) ==> IsTrue(Latest(sys.server).status, ClusterInitialized)
  {
  }

  /* ---------------------------------------------------------------- runs */

  ghost predicate CalmRun(start: System, envs: seq<Env>, spec: ClusterSpec)
    requires Good(start)
  {
    forall k | 0 <= k < |envs| :: Calm(Run(start, envs[..k]), envs[k], spec)
  }

  lemma CalmPrefix(start: System, envs: seq<Env>, n: nat, spec: ClusterSpec)
    requires Good(start) && n <= |envs| && CalmRun(start, envs, spec)
    ensures CalmRun(start, envs[..n], spec)
  {
    hide Run, Calm;
    forall k | 0 <= k < n
      ensures Calm(Run(start, envs[..n][..k]), envs[..n][k], spec)
    {
      assert envs[..n][..k] == envs[..k];
    }
  }

  lemma {:induction false} RunAdvances(start: System, envs: seq<Env>, spec: ClusterSpec, generation: nat)
    requires Good(start) && Steady(start.server, spec, generation) && CalmRun(start, envs, spec)
    ensures Advance(start.server, Run(start, envs).server) && Steady(Run(start, envs).server, spec, generation)
  {
    hide Good, Advance, Pass, Calm;
    if envs == [] {
      AdvanceReflexive(start.server);
    } else {
      var n := |envs| - 1;
      CalmPrefix(start, envs, n, spec);
      RunAdvances(start, envs[..n], spec, generation);
      var before := Run(start, envs[..n]);
      GoodParts(before);
      PassAdvances(before, envs[n], spec, generation);
      AdvanceTransitive(start.server, before.server, Pass(before, envs[n]).server);
    }
  }

  /** How many passes of a run were undisturbed. */
  ghost function GoodPasses(start: System, envs: seq<Env>, spec: ClusterSpec): nat
    requires Good(start)
  {
    if envs == [] then 0
    else
      var n := |envs| - 1;
      var s := Run(start, envs[..n]).server;
      GoodPasses(start, envs[..n], spec) + if Undisturbed(s, Latest(s).status, envs[n], spec) then 1 else 0
  }

  /** Ready has been persisted for this generation, at the start or since. */
  ghost predicate BecameReady(start: System, sys: System, generation: nat)
    requires Stored(start.server)
  {
    exists i | |start.server.versions| - 1 <= i < |sys.server.versions| ::
      sys.server.versions[i].status.phase == Ready && sys.server.versions[i].status.observedGeneration == generation
  }

  /** A run of calm passes for this spec. */
  ghost predicate CalmlyLeadsTo(start: System, envs: seq<Env>, sys: System, spec: ClusterSpec, generation: nat) {
    LeadsTo(start, envs, sys) && Steady(start.server, spec, generation) && CalmRun(start, envs, spec)
  }

  /** What is still to go never grows, and as long as the plan can be completed every good pass takes one
      off it until Ready is there. */
  lemma {:induction false} GoodPassesCount(start: System, envs: seq<Env>, sys: System, spec: ClusterSpec,
        generation: nat)
    requires CalmlyLeadsTo(start, envs, sys, spec, generation)
    ensures Stored(sys.server) && Distance(Latest(sys.server).status) <= Distance(Latest(start.server).status)
    ensures Admissible(spec) && CanFinish(Latest(start.server).status, spec, start.world) ==>
              && CanFinish(Latest(sys.server).status, spec, sys.world)
              && (|| BecameReady(start, sys, generation)
                  || GoodPasses(start, envs, spec) + Distance(Latest(sys.server).status)
                     <= Distance(Latest(start.server).status))
    decreases |envs|
  {
    if envs != [] {
      hide Good, Pass, Calm, Undisturbed, Admissible, Advance, BecameReady, CanFinish;
      var n := |envs| - 1;
      CalmPrefix(start, envs, n, spec);
      var before := Run(start, envs[..n]);
      GoodPassesCount(start, envs[..n], before, spec, generation);
      RunAdvances(start, envs[..n], spec, generation);
      GoodParts(before);
      PassAdvances(before, envs[n], spec, generation);
      AdvanceLatest(before.server, sys.server);
      ReadyKept(start, before, sys, generation);
      LatestFacts(before, spec, generation);
      RunAdvances(start, envs, spec, generation);
      if Latest(sys.server).status.phase == Ready && Latest(sys.server).status.observedGeneration == generation {
        ReadyNow(start, sys, generation);
      }
    }
  }

  lemma ReadyKept(start: System, before: System, after: System, generation: nat)
    requires Stored(start.server) && Advance(before.server, after.server)
    ensures BecameReady(start, before, generation) ==> BecameReady(start, after, generation)
  {
  }

  lemma ReadyNow(start: System, sys: System, generation: nat)
    requires Advance(start.server, sys.server)
    requires Stored(sys.server) && Latest(sys.server).status.phase == Ready
    requires Latest(sys.server).status.observedGeneration == generation
    ensures BecameReady(start, sys, generation)
  {
  }

  /** Once all nodes count as joined, calm passes leave the members as they are. */
  lemma PassJoinsNoMore(sys: System, e: Env, spec: ClusterSpec, generation: nat)
    requires Good(sys) && Steady(sys.server, spec, generation) && Calm(sys, e, spec)
    requires IsTrue(Latest(sys.server).status, AllNodesJoined)
    ensures Pass(sys, e).world.members == sys.world.members
  {
    if Pass(sys, e).world != sys.world {
      ActsOnlyAnnounced(sys, e);
      GoodParts(sys);
      EditsAdvance(sys.server, e.before, spec, generation);
      LatestFacts(sys, spec, generation);
      hide Good, Pass, ApplyEdits, Advance, Admissible, UpdateStatus, Admitted, Harmless, Quiet;
    }
  }

  lemma {:induction false} RunJoinsNoMore(start: System, envs: seq<Env>, spec: ClusterSpec, generation: nat)
    requires Good(start) && Steady(start.server, spec, generation) && CalmRun(start, envs, spec)
    requires IsTrue(Latest(start.server).status, AllNodesJoined)
    ensures Run(start, envs).world.members == start.world.members
  {
    if envs != [] {
      hide Good, Pass, Calm, Advance;
      var n := |envs| - 1;
      CalmPrefix(start, envs, n, spec);
      RunJoinsNoMore(start, envs[..n], spec, generation);
      RunAdvances(start, envs[..n], spec, generation);
      var before := Run(start, envs[..n]);
      AdvanceLatest(start.server, before.server);
      PassJoinsNoMore(before, envs[n], spec, generation);
    }
  }

  /** Ready for a spec with Ceph has all its pods in the cluster. */
  lemma ReadyHasMembers(sys: System, i: nat, spec: ClusterSpec, generation: nat)
    requires Good(sys) && Steady(sys.server, spec, generation) && spec.ceph.Some? && i < |sys.server.versions|
    requires sys.server.versions[i].status.phase == Ready
               && sys.server.versions[i].status.observedGeneration == generation
    ensures Ordinals(spec.nodes) <= sys.world.members
  {
    PhaseHolds(sys, i, |sys.server.versions| - 1);
    hide Good, Admissible;
  }

  /** A Ceph cluster whose node count was raised after its nodes had joined never becomes Ready again:
      ceph-osd.sh fails on the new pods, which no join script runs on any more. */
  lemma RaisedCephNeverReady(start: System, envs: seq<Env>, sys: System, spec: ClusterSpec, generation: nat)
    requires CalmlyLeadsTo(start, envs, sys, spec, generation)
    requires !CanFinish(Latest(start.server).status, spec, start.world)
    ensures sys.world.members == start.world.members
    ensures forall i | 0 <= i < |sys.server.versions| :: sys.server.versions[i].status.phase == Ready ==>
              sys.server.versions[i].status.observedGeneration != generation
  {
    RunAdvances(start, envs, spec, generation);
    RunJoinsNoMore(start, envs, spec, generation);
    hide Good, Run, Calm, CalmRun, Steady, Advance;
    forall i | 0 <= i < |sys.server.versions| && sys.server.versions[i].status.phase == Ready
      ensures sys.server.versions[i].status.observedGeneration != generation
    {
      if sys.server.versions[i].status.observedGeneration == generation {
        ReadyHasMembers(sys, i, spec, generation);
      }
    }
  }

  /** Three good passes make a cluster Ready, whatever passes fail in whatever way before, between and after
      them (fewer do when conditions are already met), unless it has Ceph and was raised after joining; then
      nothing does. */
  lemma ReadyWithinThree(start: System, envs: seq<Env>, sys: System, spec: ClusterSpec, generation: nat)
    requires CalmlyLeadsTo(start, envs, sys, spec, generation) && Admissible(spec)
    requires GoodPasses(start, envs, spec) >= 3
               || GoodPasses(start, envs, spec) >= Distance(Latest(start.server).status)
    ensures BecameReady(start, sys, generation) <==> CanFinish(Latest(start.server).status, spec, start.world)
  {
    hide Run, Good, CalmRun, Admissible, GoodPasses, CanFinish;
    GoodPassesCount(start, envs, sys, spec, generation);
    if !CanFinish(Latest(start.server).status, spec, start.world) {
      RaisedCephNeverReady(start, envs, sys, spec, generation);
    }
  }

  /** Once Joining has been persisted, Initializing never is again. */
  lemma NeverInitializingAgain(start: System, envs: seq<Env>, sys: System, spec: ClusterSpec, generation: nat, i: nat,
        j: nat)
    requires CalmlyLeadsTo(start, envs, sys, spec, generation)
    requires |start.server.versions| - 1 <= i <= j < |sys.server.versions|
               && sys.server.versions[i].status.phase == Joining
    ensures sys.server.versions[j].status.phase != Initializing
  {
    RunAdvances(start, envs, spec, generation);
    hide Run, CalmRun, WorldOk, Consistent, Evidence;
    InitializedInPhase(sys, i);
    InitializedInPhase(sys, j);
  }

  lemma InitializedInPhase(sys: System, i: nat)
    requires Good(sys) && i < |sys.server.versions|
    ensures var st := sys.server.versions[i].status;
            && (st.phase == Joining ==> IsTrue(st, ClusterInitialized))
            && (st.phase == Initializing ==> !IsTrue(st, ClusterInitialized))
  {
  }
}
