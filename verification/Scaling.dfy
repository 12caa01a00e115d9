/** Raising spec.nodes of a cluster whose nodes have all joined: AllNodesJoined is never taken back, so no
    join script runs on the new pods. Without Ceph the cluster is reported Ready all the same; with Ceph it
    never is again. */
module Scaling {
  import opened Basics
  import opened CephSpec
  import opened CephStatus
  import opened CephScripts
  import opened ClusterApi
  import opened ApiServer
  import opened Reconcile
  import opened Retries
  import opened Safety
  import opened Progress
  import opened GoodRuns

  /* ---------------------------------------------------------------- no member beyond the spec */

  ghost predicate Below(members: set<int>, n: int) {
    forall i | i in members :: i < n
  }

  ghost predicate SpecsWithin(s: Server, n: int) {
    forall i | 0 <= i < |s.versions| :: s.versions[i].spec.nodes <= n
  }

  lemma {:induction false} JoinAllBelow(w: World, k: int, env: int -> Exec, n: int)
    requires 1 <= k <= n && Below(w.members, n)
    ensures Below(JoinAll(w, k, env).world.members, n)
  {
    if k > 1 {
      JoinAllBelow(w, k - 1, env, n);
    }
  }

  lemma ConvergeBelow(sys: System, c: Local, e: Env, n: int)
    requires Stored(sys.server) && 1 <= c.spec.nodes <= n && Below(sys.world.members, n)
    ensures Below(Converge(sys, c, e).world.members, n)
  {
    hide Call, Execute, Plan, StatusOf, CephUsable, Admissible, JoinAll;
    JoinAllBelow(sys.world, c.spec.nodes, e.join, n);
  }

  /** A pod becomes a member only if some stored spec asked for it. */
  lemma {:induction false} MembersWithinSpec(start: System, envs: seq<Env>, sys: System, n: int)
    requires LeadsTo(start, envs, sys) && Below(start.world.members, n) && SpecsWithin(sys.server, n)
    ensures Below(sys.world.members, n)
    decreases |envs|
  {
    if envs != [] {
      hide Good, Pass, Converge, Below;
      var k := |envs| - 1;
      var before, e := Run(start, envs[..k]), envs[k];
      GoodParts(before);
      PassKeeps(before, e);
      assert SpecsWithin(before.server, n);
      MembersWithinSpec(start, envs[..k], before, n);
      PassBelow(before, e, n);
    }
  }

  lemma PassBelow(sys: System, e: Env, n: int)
    requires Consistent(sys.server) && Below(sys.world.members, n) && SpecsWithin(ApplyEdits(sys.server, e.before), n)
    ensures Below(Pass(sys, e).world.members, n)
  {
    hide Below, Converge, Admit, Extends;
    EditsExtend(sys.server, e.before);
    var s := ApplyEdits(sys.server, e.before);
    var read := FirstRead(s, e.get);
    if read.Some? {
      var o := read.value;
      AdmitExtends(s, o, e.finalizer);
      var (s1, on) := Admit(s, o, e.finalizer);
      if on {
        ConvergeBelow(sys.(server := s1), Local(o.spec, o.generation, o.status), e, n);
      }
    }
  }

  /* ---------------------------------------------------------------- scaling up after Ready */

  /** In sys, where a run that began with nothing led, version i says Ready for the spec of version u with n1
      nodes, with Ceph or without, and counts n0 joined nodes. */
  ghost predicate ReadyAt(start: System, envs: seq<Env>, sys: System, i: nat, u: nat, n0: int, n1: int, ceph: bool) {
    && Initial(start) && LeadsTo(start, envs, sys) && WrittenForSpecOf(sys, i, u)
    && var vs := sys.server.versions;
    && vs[i].status.phase == Ready && vs[i].status.joinedNodes == n0
    && vs[u].spec.nodes == n1 && vs[u].spec.ceph.Some? == ceph
  }

  /** After two passes on a new cluster every node is a member. */
  lemma TwoPassesJoinAll(spec: ClusterSpec)
    requires spec.nodes >= 1 && Admissible(spec)
    ensures var start, e := Created(spec), Undisturbing([], spec, Current, None);
            && Initial(start) && Good(start)
            && var sys := Run(start, [e] + [e]);
            && Steady(sys.server, spec, 0)
            && IsTrue(Latest(sys.server).status, ClusterInitialized)
            && IsTrue(Latest(sys.server).status, AllNodesJoined)
            && Latest(sys.server).status.joinedNodes == spec.nodes && sys.world.members == Ordinals(spec.nodes)
  {
    hide Good, Run, Undisturbing, Admissible, CanFinish;
    TwoPasses(spec);
    var e := Undisturbing([], spec, Current, None);
    AllJoined(Created(spec), [e] + [e], Run(Created(spec), [e] + [e]), spec);
  }

  lemma AllJoined(start: System, envs: seq<Env>, sys: System, spec: ClusterSpec)
    requires start == Created(spec) && spec.nodes >= 1 && LeadsTo(start, envs, sys)
    requires Steady(sys.server, spec, 0) && IsTrue(Latest(sys.server).status, AllNodesJoined)
    ensures Latest(sys.server).status.joinedNodes == spec.nodes && sys.world.members == Ordinals(spec.nodes)
  {
    var last := |sys.server.versions| - 1;
    hide Run, Layered, WrittenFor, PoolsStored;
    forall i | 0 <= i < |sys.server.versions|
      ensures sys.server.versions[i].spec.nodes == spec.nodes
    {
      assert sys.server.versions[i].generation == 0 == sys.server.versions[last].generation;
    }
    MembersWithinSpec(start, envs, sys, spec.nodes);
    Membership(start, envs, sys, last);
    assert StatusOk(Latest(sys.server).status, sys.server.versions, sys.world);
    assert spec.nodes !in Ordinals(|sys.world.members|);
  }

  /** The local copy at the end of a pass over a cluster without Ceph. */
  function ReadyCopy(o: Object): Local {
    Set(Set(Local(o.spec, o.generation, o.status), StatefulSetReady, true, "AllPodsReady", "NotAllPodsReady"),
        QuorumHealthy, true, "QuorumOK", "")
  }

  lemma ConvergeIsReady(sys: System, o: Object, e: Env)
    requires Stored(sys.server) && o.spec.nodes >= 1 && o.spec.ceph.None? && e.resourcesOk
               && e.sts == StsSeen(o.spec.nodes)
    requires IsTrue(o.status, ClusterInitialized) && IsTrue(o.status, AllNodesJoined)
    ensures Converge(sys, Local(o.spec, o.generation, o.status), e)
              == UpdateStatus(sys, ReadyCopy(o), Ready, e.second).sys
  {
    hide UpdateStatus, InitStage, JoinStage, CephStage;
  }

  /** Such a pass is one status update when nodes have joined before. */
  lemma OnlyReady(sys: System, e: Env, spec: ClusterSpec, generation: nat)
    requires Good(sys) && Steady(sys.server, spec, generation) && spec.ceph.None?
               && FINALIZER in Latest(sys.server).finalizers
    requires IsTrue(Latest(sys.server).status, ClusterInitialized) && IsTrue(Latest(sys.server).status, AllNodesJoined)
    requires e.before == [] && e.get == Fresh && e.resourcesOk && e.sts == StsSeen(spec.nodes)
    ensures Consistent(sys.server)
    ensures Pass(sys, e) == UpdateStatus(sys, ReadyCopy(Latest(sys.server)), Ready, e.second).sys
  {
    hide Good, Consistent, UpdateStatus, Converge, Extends, ApplyEdits, ReadyCopy, FirstRead;
    GoodParts(sys);
    LatestFacts(sys, spec, generation);
    NoEdits(sys.server);
    FreshIsLatest(sys.server, e.get);
    ConvergeIsReady(sys, Latest(sys.server), e);
  }

  lemma FreshIsLatest(s: Server, get: Get)
    requires Stored(s) && !s.gone && get == Fresh
    ensures FirstRead(s, get) == Some(Latest(s))
  {
  }

  lemma ReadyPut(sys: System, spec: ClusterSpec, generation: nat)
    requires Steady(sys.server, spec, generation)
    ensures var o := Latest(sys.server);
            var p := UpdateStatus(sys, ReadyCopy(o), Ready, Prompt);
            && p.sys.world == sys.world && Steady(p.sys.server, spec, generation)
            && Latest(p.sys.server).status.phase == Ready
            && Latest(p.sys.server).status.observedGeneration == generation
            && Latest(p.sys.server).status.joinedNodes == o.status.joinedNodes
  {
    PromptIsQuiet(spec);
    hide Quiet, Advance;
    UpdateAdvances(sys, ReadyCopy(Latest(sys.server)), Ready, Prompt, spec, generation);
  }

  lemma PromptIsQuiet(spec: ClusterSpec)
    ensures Quiet(Prompt, spec) && Settles(Prompt)
  {
    PromptSettles();
  }

  /** Raise the node count, then one more pass. */
  lemma RaisedPass(sys: System, was: ClusterSpec, now: ClusterSpec)
    requires Good(sys) && Steady(sys.server, was, 0) && now != was && now.nodes >= 1 && now.ceph.None?
    requires IsTrue(Latest(sys.server).status, ClusterInitialized) && IsTrue(Latest(sys.server).status, AllNodesJoined)
    ensures Consistent(sys.server)
    ensures var t := Pass(sys, Undisturbing([Change(now)], now, Current, None));
            && t.world == sys.world && Steady(t.server, now, 1)
            && Latest(t.server).status.phase == Ready && Latest(t.server).status.observedGeneration == 1
            && Latest(t.server).status.joinedNodes == Latest(sys.server).status.joinedNodes
  {
    GoodParts(sys);
    var e := Undisturbing([Change(now)], now, Current, None);
    UndisturbingParts([Change(now)], now, Current, None);
    UndisturbingParts([], now, Current, None);
    Changed(sys, was, now, 0);
    PassAfterEdits(sys, e);
    var mid := sys.(server := ApplyEdits(sys.server, [Change(now)]));
    hide Good, Pass, Undisturbing, ApplyEdits, Consistent, UpdateStatus;
    OnlyReady(mid, Undisturbing([], now, Current, None), now, 1);
    ReadyPut(mid, now, 1);
  }

  /** For every n0 below n1 there is a run in which all goes well and that ends Ready for n1 nodes
      with only n0 members. */
  lemma ReadyWithoutNewNodes(n0: int32, n1: int32) returns (start: System, envs: seq<Env>, sys: System, i: nat)
    requires 1 <= n0 < n1
    ensures ReadyAt(start, envs, sys, i, i, n0, n1, false) && sys.world.members == Ordinals(n0)
  {
    var was, now := ClusterSpec(n0, None), ClusterSpec(n1, None);
    assert Admissible(was);
    var e, raise := Undisturbing([], was, Current, None), Undisturbing([Change(now)], now, Current, None);
    start, envs := Created(was), [e] + [e] + [raise];
    hide Good, Run, Pass, Undisturbing, Admissible, Created;
    TwoPassesJoinAll(was);
    RunStep(start, [e] + [e], raise);
    RaisedPass(Run(start, [e] + [e]), was, now);
    sys := Run(start, envs);
    i := EndsReadyAt(start, envs, sys, n0, now);
  }

  lemma EndsReadyAt(start: System, envs: seq<Env>, sys: System, n0: int, now: ClusterSpec) returns (i: nat)
    requires Initial(start) && LeadsTo(start, envs, sys) && Steady(sys.server, now, 1)
    requires var st := Latest(sys.server).status;
               st.phase == Ready && st.observedGeneration == 1 && st.joinedNodes == n0
    ensures ReadyAt(start, envs, sys, i, i, n0, now.nodes, now.ceph.Some?)
  {
    hide Run, Good, Initial;
    i := |sys.server.versions| - 1;
  }

  /** Ready for n1 nodes while AllNodesJoined was set for n0 means that all n1 nodes are members exactly when the
      count was not raised or the cluster has Ceph. */
  lemma ReadyMeansAllMembers(n0: int32, n1: int32, ceph: bool)
    requires n0 >= 1 && n1 >= 1
    ensures (forall start, envs, sys, i, u | ReadyAt(start, envs, sys, i, u, n0, n1, ceph) ::
              Ordinals(n1) <= sys.world.members)
            <==> n1 <= n0 || ceph
  {
    hide Run, Good;
    if n1 <= n0 || ceph {
      forall start, envs, sys, i, u | ReadyAt(start, envs, sys, i, u, n0, n1, ceph)
        ensures Ordinals(n1) <= sys.world.members
      {
        ReadyMembers(start, envs, sys, i, u);
      }
    } else {
      var start, envs, sys, i := ReadyWithoutNewNodes(n0, n1);
      assert n0 in Ordinals(n1);
    }
  }

  /** Raising a Ceph cluster after its nodes have joined does get it where Progress.RaisedCephNeverReady applies. */
  lemma RaisedCephIsStuck(was: ClusterSpec, now: ClusterSpec)
    requires was.nodes >= 1 && Admissible(was) && now.nodes > was.nodes && now.ceph.Some?
    ensures var start, e := Created(was), Undisturbing([], was, Current, None);
            && Good(start)
            && var joined := Run(start, [e] + [e]);
            && Stored(joined.server)
            && var raised := joined.(server := ApplyEdits(joined.server, [Change(now)]));
            && Good(raised) && Steady(raised.server, now, 1)
            && !CanFinish(Latest(raised.server).status, now, raised.world)
  {
    TwoPassesJoinAll(was);
    var e := Undisturbing([], was, Current, None);
    hide Good, Run, Undisturbing, Admissible, ApplyEdits;
    var joined := Run(Created(was), [e] + [e]);
    Changed(joined, was, now, 0);
    assert was.nodes in Ordinals(now.nodes);
  }
}
