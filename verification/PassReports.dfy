/** What a pass leaves persisted, case by case: the reports a user reads. Each case is spelled out from the version
    that was read and the answers of the surroundings alone. Others may write labels, finalizers and specs at any
    time, reads may be stale, and status writes may be overtaken as long as they settle. */
module PassReports {
  import opened Basics
  import opened CephSpec
  import opened CephScripts
  import opened ClusterApi
  import opened ApiServer
  import opened Retries
  import opened Reconcile

  /* ---------------------------------------------------------------- how a pass begins */

  /** The first read returns this version. */
  ghost predicate ReadBy(s: Server, get: Get, o: Object) {
    exists v: nat :: Returns(s, get, v) && s.versions[v] == o
  }

  /** Nobody deletes the object, and the pass gets to work on version o of it: the finalizer is there or is added. */
  ghost predicate Begins(sys: System, e: Env, o: Object) {
    && Consistent(sys.server)
    && var s := ApplyEdits(sys.server, e.before);
    && Alive(s) && ReadBy(s, e.get, o) && !o.deleting
    && (FINALIZER in o.finalizers || Settles(e.finalizer))
    && AllSparing(e.finalizer) && AllSparing(e.first) && AllSparing(e.second)
  }

  /** The server on which the stages start. */
  function Begun(sys: System, e: Env, o: Object): (t: System)
    requires Stored(sys.server)
    ensures Stored(t.server)
  {
    sys.(server := Admit(ApplyEdits(sys.server, e.before), o, e.finalizer).0)
  }

  lemma PassBegins(sys: System, e: Env, o: Object)
    requires Begins(sys, e, o)
    ensures var t := Begun(sys, e, o);
            && o.spec.nodes >= 1 && Alive(t.server) && Latest(t.server).status == Latest(sys.server).status
            && ApplyEdits(sys.server, e.before).versions <= t.server.versions
            && Pass(sys, e) == Converge(t, Local(o.spec, o.generation, o.status), e)
  {
    hide ApplyEdits, Converge, Settles, Call, AllSparing, Extends, Alive, Admit, FirstRead, ReadBy;
    var s := ApplyEdits(sys.server, e.before);
    EditsExtend(sys.server, e.before);
    ReadIs(s, e.get, o);
    ReadHasNodes(s, e.get, o);
    hide Consistent;
    AdmitAlive(s, o, e.finalizer);
    AdmitExtends(s, o, e.finalizer);
  }

  lemma ReadIs(s: Server, get: Get, o: Object)
    requires Stored(s) && ReadBy(s, get, o)
    ensures FirstRead(s, get) == Some(o)
  {
    var v: nat :| Returns(s, get, v) && s.versions[v] == o;
    ReadReturns(s, get);
    hide VersionRead;
  }

  lemma ReadHasNodes(s: Server, get: Get, o: Object)
    requires Consistent(s) && ReadBy(s, get, o)
    ensures o.spec.nodes >= 1
  {
  }

  lemma AdmitAlive(s: Server, o: Object, env: nat -> Attempt)
    requires Consistent(s) && Alive(s) && !o.deleting && AllSparing(env) && (FINALIZER in o.finalizers || Settles(env))
    ensures var (t, on) := Admit(s, o, env);
            on && Alive(t) && Latest(t).status == Latest(s).status && s.versions <= t.versions
  {
    var op := AddFinalizer(FINALIZER);
    if FINALIZER !in o.finalizers {
      SettledCall(s, op, env);
      CallKeepsStatus(s, op, env);
    }
    hide Call, Settles, Sparing, Alive, AllSparing;
  }

  lemma CallKeepsStatus(s: Server, op: Op, env: nat -> Attempt)
    requires Consistent(s) && !op.PutStatus?
    ensures Latest(Call(s, op, env).server).status == Latest(s).status && s.versions <= Call(s, op, env).server.versions
  {
    hide Call, ApplyEdits, Extends, Without;
    var r := Call(s, op, env);
    hide Consistent;
    assert AddsOnly(s, op, r) by {
      CallAddsOnly(s, op, env);
    }
    EditsExtend(s, r.others);
    EditsPrefix(s, r.others);
  }

  lemma CallAddsOnly(s: Server, op: Op, env: nat -> Attempt)
    requires Stored(s)
    ensures AddsOnly(s, op, Call(s, op, env))
  {
    RetryLosesNothing(s, op, env, 0, RETRY_STEPS);
    hide AddsOnly, Retry;
  }

  /** A status write that settles is there, and the object still is. */
  lemma SettledUpdate(sys: System, c: Local, phase: Phase, env: nat -> Attempt)
    requires Alive(sys.server) && AllSparing(env) && Settles(env)
    ensures var p := UpdateStatus(sys, c, phase, env);
            && p.ok && Alive(p.sys.server) && p.sys.world == sys.world && sys.server.versions <= p.sys.server.versions
            && p.local == c.(status := c.status.(phase := phase, observedGeneration := c.generation))
            && Latest(p.sys.server).status == p.local.status
  {
    var st := c.status.(phase := phase, observedGeneration := c.generation);
    SettledCall(sys.server, PutStatus(st), env);
    StatusUpdateExact(sys.server, st, env);
    CallPrefix(sys.server, PutStatus(st), env);
    hide Call, Settles, Sparing, AllSparing;
  }

  lemma CallPrefix(s: Server, op: Op, env: nat -> Attempt)
    requires Stored(s)
    ensures s.versions <= Call(s, op, env).server.versions
  {
    RetryLosesNothing(s, op, env, 0, RETRY_STEPS);
    EditsPrefix(s, Call(s, op, env).others);
    hide Call, ApplyEdits;
  }

  /** What a pass leaves: this world, and this status in the latest version. */
  ghost predicate Leaves(t: System, w: World, st: Status) {
    Stored(t.server) && t.world == w && Latest(t.server).status == st
  }

  type Conditions = map<CondType, Condition>

  /* ---------------------------------------------------------------- before the stages */

  /** How a pass that starts from this copy and does not get to the stages leaves things: the world as it was, and
      this status. */
  ghost predicate LeavesEarly(t: System, u: System, c: Local, e: Env)
    requires Stored(t.server)
  {
    var st, n := c.status, c.generation;
    if !Admissible(c.spec) then
      var invalid: Conditions := map[CephInitialized := Condition(false, "InvalidCephSpec", n)];
      Leaves(u, t.world, Status(Failed, st.conditions + invalid, st.joinedNodes, st.ceph, n))
    else if !e.resourcesOk || e.sts.StsGetFailed? then
      Leaves(u, t.world, Latest(t.server).status)
    else if e.sts.StsNotVisible? then
      Leaves(u, t.world, Status(Pending, st.conditions, st.joinedNodes, st.ceph, n))
    else
      var notReady: Conditions := map[StatefulSetReady := Condition(false, "NotAllPodsReady", n)];
      e.sts.readyReplicas != c.spec.nodes ==>
        Leaves(u, t.world, Status(Pending, st.conditions + notReady, st.joinedNodes, st.ceph, n))
  }

  lemma ConvergeEarly(t: System, c: Local, e: Env)
    requires Alive(t.server) && AllSparing(e.first) && Settles(e.first) && c.spec.nodes >= 1
    ensures LeavesEarly(t, Converge(t, c, e), c, e)
  {
    hide Settles, AllSparing, UpdateStatus, Admissible, Stages;
    SettledUpdate(t, Set(c, CephInitialized, false, "", "InvalidCephSpec"), Failed, e.first);
    SettledUpdate(t, c, Pending, e.first);
    SettledUpdate(t, Set(c, StatefulSetReady, false, "AllPodsReady", "NotAllPodsReady"), Pending, e.first);
  }

  /** An inadmissible spec, pods that cannot be seen yet and pods that are not all ready are reported, whatever had
      been reported before, and the pass does nothing else. If the StatefulSet cannot be looked up, or something the
      pods need cannot be put in place, nothing new is reported. */
  lemma EarlyReports(sys: System, e: Env, o: Object)
    requires Begins(sys, e, o) && Settles(e.first)
    ensures LeavesEarly(sys, Pass(sys, e), Local(o.spec, o.generation, o.status), e)
  {
    hide Settles, AllSparing, Converge, Admissible, Begun, Pass, Leaves, Alive;
    PassBegins(sys, e, o);
    BegunWorld(sys, e, o);
    BeginsParts(sys, e, o);
    ConvergeEarly(Begun(sys, e, o), Local(o.spec, o.generation, o.status), e);
  }

  lemma BegunWorld(sys: System, e: Env, o: Object)
    requires Stored(sys.server)
    ensures Begun(sys, e, o).world == sys.world
  {
  }

  /** So no pass that sees a pod not ready, or does not see the StatefulSet, leaves the cluster reported as Ready. */
  lemma NotReadyWithoutPods(sys: System, e: Env, o: Object)
    requires Begins(sys, e, o) && Settles(e.first) && e.resourcesOk
    requires e.sts.StsNotVisible? || (e.sts.StsSeen? && e.sts.readyReplicas != o.spec.nodes)
    ensures Stored(Pass(sys, e).server)
    ensures var st := Latest(Pass(sys, e).server).status;
            st.phase in {Pending, Failed} && st.observedGeneration == o.generation
  {
    EarlyReports(sys, e, o);
    hide Settles, Admissible, Pass;
  }

  /* ---------------------------------------------------------------- the stages */

  /** The spec is in order and all its pods are ready. */
  ghost predicate AllPodsUp(e: Env, o: Object) {
    Admissible(o.spec) && e.resourcesOk && e.sts == StsSeen(o.spec.nodes)
  }

  function PodsReady(generation: nat): Conditions {
    map[StatefulSetReady := Condition(true, "AllPodsReady", generation)]
  }

  /** The copy on which the stages start. */
  function ReadyPods(o: Object): Local {
    Local(o.spec, o.generation, o.status.(conditions := o.status.conditions + PodsReady(o.generation)))
  }

  lemma PassReachesStages(sys: System, e: Env, o: Object)
    requires Begins(sys, e, o) && AllPodsUp(e, o)
    ensures var t := Begun(sys, e, o);
            && o.spec.nodes >= 1 && Alive(t.server) && t.world == sys.world
            && ApplyEdits(sys.server, e.before).versions <= t.server.versions
            && Pass(sys, e) == Stages(t, ReadyPods(o), e)
  {
    hide Stages, ApplyEdits, Admit, ReadBy, Begun, Admissible;
    PassBegins(sys, e, o);
    BegunWorld(sys, e, o);
    var c := Local(o.spec, o.generation, o.status);
    assert Set(c, StatefulSetReady, true, "AllPodsReady", "NotAllPodsReady") == ReadyPods(o);
  }

  /** cluster-init.sh exits with 0 and the operator learns of it: the cluster was there or `pvecm create` is
      accepted. */
  predicate InitSucceeds(w: World, e: Exec) {
    e.starts && e.answers && (0 in w.members || e.call(0) == Accepted)
  }

  /** Nobody deletes the object meanwhile, and both status writes of the stage settle. */
  ghost predicate GoodStage(t: System, e: Env) {
    Alive(t.server) && AllSparing(e.first) && AllSparing(e.second) && Settles(e.first) && Settles(e.second)
  }

  lemma StageIsGood(sys: System, e: Env, o: Object)
    requires Begins(sys, e, o) && Settles(e.first) && Settles(e.second) && Alive(Begun(sys, e, o).server)
    ensures GoodStage(Begun(sys, e, o), e)
  {
    hide Settles, AllSparing, Begun, Alive;
  }

  function Initialised(w: World, e: Exec): World {
    if e.starts && 0 !in w.members && e.call(0) != Rejected then World(w.members + {0}, w.creates + 1, w.ceph) else w
  }

  lemma InitStageReports(t: System, c: Local, e: Env)
    requires GoodStage(t, e)
    ensures var st, n := c.status, c.generation;
            var w := Initialised(t.world, e.init);
            if InitSucceeds(t.world, e.init) then
              var done: Conditions := map[ClusterInitialized := Condition(true, "ClusterCreated", n)];
              0 in w.members && Leaves(InitStage(t, c, e), w, Status(Joining, st.conditions + done, 1, st.ceph, n))
            else
              var failed: Conditions := map[ClusterInitialized := Condition(false, "InitFailed", n)];
              Leaves(InitStage(t, c, e), w, Status(Failed, st.conditions + failed, st.joinedNodes, st.ceph, n))
  {
    hide Settles, AllSparing, UpdateStatus;
    SettledUpdate(t, c, Initializing, e.first);
    var p := UpdateStatus(t, c, Initializing, e.first);
    var x := ClusterInit(t.world, e.init);
    var after := p.sys.(world := x.world);
    SettledUpdate(after, Set(p.local, ClusterInitialized, false, "", "InitFailed"), Failed, e.second);
    var c2 := Set(p.local, ClusterInitialized, true, "ClusterCreated", "");
    SettledUpdate(after, c2.(status := c2.status.(joinedNodes := 1)), Joining, e.second);
  }

  /** One pass initialises, and reports how that went. */
  lemma InitReports(sys: System, e: Env, o: Object)
    requires Begins(sys, e, o) && AllPodsUp(e, o) && !IsTrue(o.status, ClusterInitialized)
    requires Settles(e.first) && Settles(e.second)
    ensures var t, st, n := Pass(sys, e), o.status, o.generation;
            var w := Initialised(sys.world, e.init);
            if InitSucceeds(sys.world, e.init) then
              var done: Conditions := map[ClusterInitialized := Condition(true, "ClusterCreated", n)];
              0 in w.members && Leaves(t, w, Status(Joining, st.conditions + PodsReady(n) + done, 1, st.ceph, n))
            else
              var failed: Conditions := map[ClusterInitialized := Condition(false, "InitFailed", n)];
              Leaves(t, w, Status(Failed, st.conditions + PodsReady(n) + failed, st.joinedNodes, st.ceph, n))
  {
    hide Settles, Begun, Alive, Pass, InitStage, JoinStage, CephStage, ReadyStage, GoodStage, Leaves, Initialised;
    PassReachesStages(sys, e, o);
    StageIsGood(sys, e, o);
    InitStageReports(Begun(sys, e, o), ReadyPods(o), e);
  }

  /* ---------------------------------------------------------------- joining */

  /** cluster-join.sh on pod i exits with 0 and the operator learns of it. */
  predicate JoinSucceeds(members: set<int>, i: int, e: Exec) {
    e.starts && e.answers && (i in members || (0 in members && e.call(0) == Accepted))
  }

  /** The pods above 0 join up to pod k - 1; pod k, if there is one, fails. */
  ghost predicate JoinedUpTo(members: set<int>, n: int, env: int -> Exec, k: int) {
    && 1 <= k <= n
    && (forall i | 1 <= i < k :: JoinSucceeds(members, i, env(i)))
    && (k < n ==> !JoinSucceeds(members, k, env(k)))
  }

  /** Who is a member then: the pod that failed may be one too, if only the answer got lost. */
  function MembersAfter(members: set<int>, n: int, env: int -> Exec, k: int): set<int> {
    var joined := members + Ordinals(k);
    if k < n && env(k).starts && 0 in members && env(k).call(0) != Rejected then joined + {k} else joined
  }

  lemma {:induction false} JoinAllExactly(w: World, n: int, env: int -> Exec)
    requires n >= 1 && 0 in w.members
    ensures var r := JoinAll(w, n, env);
            && JoinedUpTo(w.members, n, env, r.joined)
            && r.world == w.(members := MembersAfter(w.members, n, env, r.joined))
  {
    if n > 1 {
      JoinAllExactly(w, n - 1, env);
      var r := JoinAll(w, n - 1, env);
      if r.joined == n - 1 {
        JoinOneMore(w, n, env);
      }
    }
  }

  lemma JoinOneMore(w: World, n: int, env: int -> Exec)
    requires n > 1 && 0 in w.members && JoinedUpTo(w.members, n - 1, env, n - 1)
    requires JoinAll(w, n - 1, env) == Joins(w.(members := w.members + Ordinals(n - 1)), n - 1)
    ensures var r := JoinAll(w, n, env);
            && JoinedUpTo(w.members, n, env, r.joined)
            && r.world == w.(members := MembersAfter(w.members, n, env, r.joined))
  {
    assert Ordinals(n) == Ordinals(n - 1) + {n - 1};
  }

  lemma UpToOnce(members: set<int>, n: int, env: int -> Exec, j: int, k: int)
    requires JoinedUpTo(members, n, env, j) && JoinedUpTo(members, n, env, k)
    ensures j == k
  {
    hide JoinSucceeds;
    assert j < k ==> JoinSucceeds(members, j, env(j));
    assert k < j ==> JoinSucceeds(members, k, env(k));
  }

  function JoinedConditions(all: bool, n: nat): Conditions {
    if !all then map[]
    else map[AllNodesJoined := Condition(true, "AllNodesJoined", n), QuorumHealthy := Condition(true, "QuorumOK", n)]
  }

  lemma JoinStageWrites(t: System, c: Local, e: Env)
    requires GoodStage(t, e) && c.spec.nodes >= 1
    ensures var st, n, r := c.status, c.generation, JoinAll(t.world, c.spec.nodes, e.join);
            Leaves(JoinStage(t, c, e), r.world,
                   Status(Joining, st.conditions + JoinedConditions(r.joined == c.spec.nodes, n), r.joined, st.ceph, n))
  {
    hide Settles, AllSparing, UpdateStatus, JoinAll;
    SettledUpdate(t, c, Joining, e.first);
    var p, r := UpdateStatus(t, c, Joining, e.first), JoinAll(t.world, c.spec.nodes, e.join);
    var after, c2 := p.sys.(world := r.world), Joined(p.local, r.joined);
    if r.joined < c.spec.nodes {
      SettledUpdate(after, c2, Joining, e.second);
    } else {
      var c3 := Set(Set(c2, AllNodesJoined, true, "AllNodesJoined", ""), QuorumHealthy, true, "QuorumOK", "");
      SettledUpdate(after, c3, Joining, e.second);
    }
  }

  lemma JoinStageReports(t: System, c: Local, e: Env, k: int)
    requires GoodStage(t, e) && c.spec.nodes >= 1 && 0 in t.world.members
    requires JoinedUpTo(t.world.members, c.spec.nodes, e.join, k)
    ensures var st, n := c.status, c.generation;
            var w := t.world.(members := MembersAfter(t.world.members, c.spec.nodes, e.join, k));
            Leaves(JoinStage(t, c, e), w,
                   Status(Joining, st.conditions + JoinedConditions(k == c.spec.nodes, n), k, st.ceph, n))
  {
    hide GoodStage, Leaves, JoinStage, JoinAll, MembersAfter, JoinedUpTo, JoinedConditions;
    JoinAllExactly(t.world, c.spec.nodes, e.join);
    UpToOnce(t.world.members, c.spec.nodes, e.join, JoinAll(t.world, c.spec.nodes, e.join).joined, k);
    JoinStageWrites(t, c, e);
  }

  /** One pass lets pods join up to the first that fails: joinedNodes counts exactly these and pod 0, and
      AllNodesJoined is reported exactly if none fails. */
  lemma JoinReports(sys: System, e: Env, o: Object, k: int)
    requires Begins(sys, e, o) && AllPodsUp(e, o) && Settles(e.first) && Settles(e.second)
    requires IsTrue(o.status, ClusterInitialized) && !IsTrue(o.status, AllNodesJoined) && 0 in sys.world.members
    requires JoinedUpTo(sys.world.members, o.spec.nodes, e.join, k)
    ensures var t, st, n := Pass(sys, e), o.status, o.generation;
            var w := sys.world.(members := MembersAfter(sys.world.members, o.spec.nodes, e.join, k));
            var done := JoinedConditions(k == o.spec.nodes, n);
            Leaves(t, w, Status(Joining, st.conditions + PodsReady(n) + done, k, st.ceph, n))
  {
    hide Settles, Begun, Alive, Pass, InitStage, JoinStage, CephStage, ReadyStage, GoodStage, Leaves, MembersAfter,
         JoinedUpTo, JoinedConditions;
    PassReachesStages(sys, e, o);
    StageIsGood(sys, e, o);
    JoinStageReports(Begun(sys, e, o), ReadyPods(o), e, k);
  }

  /* ---------------------------------------------------------------- ready */

  lemma ReadyStageReports(t: System, c: Local, env: nat -> Attempt)
    requires Alive(t.server) && AllSparing(env) && Settles(env)
    ensures var st, n := c.status, c.generation;
            var done: Conditions := map[QuorumHealthy := Condition(true, "QuorumOK", n)];
            Leaves(ReadyStage(t, c, env), t.world, Status(Ready, st.conditions + done, st.joinedNodes, st.ceph, n))
  {
    hide Settles, AllSparing, UpdateStatus;
    SettledUpdate(t, Set(c, QuorumHealthy, true, "QuorumOK", ""), Ready, env);
  }

  /** One pass over a joined cluster without Ceph reports Ready and does nothing else. */
  lemma ReadyReports(sys: System, e: Env, o: Object)
    requires Begins(sys, e, o) && AllPodsUp(e, o) && o.spec.ceph.None? && Settles(e.second)
    requires IsTrue(o.status, ClusterInitialized) && IsTrue(o.status, AllNodesJoined)
    ensures var t, st, n := Pass(sys, e), o.status, o.generation;
            var done: Conditions := map[QuorumHealthy := Condition(true, "QuorumOK", n)];
            Leaves(t, sys.world, Status(Ready, st.conditions + PodsReady(n) + done, st.joinedNodes, st.ceph, n))
  {
    hide Settles, Begun, Alive, Pass, InitStage, JoinStage, CephStage, ReadyStage, Leaves;
    PassReachesStages(sys, e, o);
    BeginsParts(sys, e, o);
    ReadyStageReports(Begun(sys, e, o), ReadyPods(o), e.second);
  }

  lemma BeginsParts(sys: System, e: Env, o: Object)
    requires Begins(sys, e, o)
    ensures Stored(sys.server) && AllSparing(e.first) && AllSparing(e.second)
  {
  }

  /* ---------------------------------------------------------------- nothing read */

  /** A pass whose first read fails or finds no object does nothing. */
  lemma NothingReadNothingDone(sys: System, e: Env)
    requires Consistent(sys.server) && forall o :: !ReadBy(ApplyEdits(sys.server, e.before), e.get, o)
    ensures Leaves(Pass(sys, e), sys.world, Latest(sys.server).status)
  {
    var s := ApplyEdits(sys.server, e.before);
    EditsExtend(sys.server, e.before);
    hide ApplyEdits, FirstRead, Converge, Admit, ReadBy;
    FirstReadReads(s, e.get);
  }

  lemma FirstReadReads(s: Server, get: Get)
    requires Stored(s)
    ensures FirstRead(s, get).Some? ==> ReadBy(s, get, FirstRead(s, get).value)
  {
    if FirstRead(s, get).Some? {
      ReadReturns(s, get);
      assert Returns(s, get, VersionRead(s, get).value);
    }
  }

  /* ---------------------------------------------------------------- the finalizer */

  /** A pass that reads an object being deleted does nothing but let go of it. */
  lemma DeletionReleases(sys: System, e: Env, o: Object)
    requires Consistent(sys.server) && ReadBy(ApplyEdits(sys.server, e.before), e.get, o) && o.deleting
    ensures Leaves(Pass(sys, e), sys.world, Latest(sys.server).status)
    ensures Settles(e.finalizer) && FreshReads(e.finalizer) ==>
              var t := Pass(sys, e).server; t.gone || FINALIZER !in Latest(t).finalizers
  {
    var s := ApplyEdits(sys.server, e.before);
    EditsExtend(sys.server, e.before);
    ReadIs(s, e.get, o);
    hide ApplyEdits, Converge, Settles, Call, FirstRead, ReadBy, Consistent, Extends, FreshReads;
    CallKeepsStatus(s, RemoveFinalizer(FINALIZER), e.finalizer);
    if Settles(e.finalizer) && FreshReads(e.finalizer) {
      SettledRelease(s, FINALIZER, e.finalizer);
    }
  }

  /** Nothing is touched in the cluster of an object that is being deleted as far as the pass can see, or before some
      stored version of it has held the finalizer. */
  lemma NothingWithoutFinalizer(sys: System, e: Env)
    requires Consistent(sys.server) && Pass(sys, e).world != sys.world
    ensures var s := ApplyEdits(sys.server, e.before);
            && FirstRead(s, e.get).Some?
            && var o := FirstRead(s, e.get).value;
            && !o.deleting && exists p | p in Begun(sys, e, o).server.versions :: FINALIZER in p.finalizers
  {
    var s := ApplyEdits(sys.server, e.before);
    EditsExtend(sys.server, e.before);
    var o := FirstRead(s, e.get).value;
    hide ApplyEdits, Converge, Call, VersionRead, Consistent, Extends;
    var op := AddFinalizer(FINALIZER);
    if FINALIZER !in o.finalizers {
      RetryLosesNothing(s, op, e.finalizer, 0, RETRY_STEPS);
      AddedSomewhere(s, op, e.finalizer);
    } else {
      assert o in Begun(sys, e, o).server.versions;
    }
  }

  lemma AddedSomewhere(s: Server, op: Op, env: nat -> Attempt)
    requires Stored(s) && op.AddFinalizer? && Call(s, op, env).verdict.Done?
    ensures exists p | p in Call(s, op, env).server.versions :: op.name in p.finalizers
  {
    RetryLosesNothing(s, op, env, 0, RETRY_STEPS);
    var r := Call(s, op, env);
    hide Call, ApplyEdits;
    if r.written {
      var last := |r.server.versions| - 1;
      assert op.name in r.server.versions[last].finalizers;
    } else {
      var o :| o in r.server.versions && Wanted(op, o).None?;
      assert op.name in o.finalizers;
    }
  }
}
