/** When ceph-status.sh never reports more OSDs up than there are, what Ready says about reported OSDs holds
    of the OSDs that exist. */
module HonestReports {
  import opened Basics
  import opened Text
  import opened CephSpec
  import opened CephStatus
  import opened CephScripts
  import opened ClusterApi
  import opened ApiServer
  import opened Reconcile
  import opened Safety

  /* ---------------------------------------------------------------- honest outputs */

  /** This is what the script prints for r, with other lines before it and white space after it. */
  ghost predicate Printed(out: string, r: Report, noise: string, spaces: string) {
    && Printable(r)
    && (noise != "" ==> noise[|noise| - 1] == '\n') && Blank(spaces, 0, |spaces|)
    && out == noise + ReportLine(r) + spaces
  }

  /** An output, if there is one, that claims no more OSDs up than exist. */
  ghost predicate Honest(out: Option<string>, w: CephWorld) {
    out.Some? ==> exists r, noise, spaces :: Printed(out.value, r, noise, spaces) && r.osdsUp <= |w.osds|
  }

  ghost predicate HonestRun(start: System, envs: seq<Env>)
    requires Good(start)
  {
    forall k | 0 <= k < |envs| :: Honest(envs[k].cephStatus, Run(start, envs[..k + 1]).world.ceph)
  }

  lemma HeardIsThere(out: string, w: CephWorld, spec: ClusterSpec)
    requires Honest(Some(out), w)
    ensures StatusOf(spec, out).osdsReady <= |w.osds|
  {
    var r, noise, spaces :| Printed(out, r, noise, spaces) && r.osdsUp <= |w.osds|;
    StatusRoundTrip(spec, r, noise, spaces);
    hide StatusOf, ReportLine, Printable, ExpectedOSDs, Summary;
    WrapsDown(r.osdsUp);
  }

  lemma WrapsDown(x: nat)
    ensures Wrap32(x) <= x
  {
  }

  /* ---------------------------------------------------------------- what statuses hold */

  ghost predicate AtMost(st: Status, n: int) {
    st.ceph.Some? ==> st.ceph.value.osdsReady <= n
  }

  ghost predicate AllAtMost(s: Server, n: int) {
    forall i | 0 <= i < |s.versions| :: AtMost(s.versions[i].status, n)
  }

  lemma ExtendsAtMost(s: Server, t: Server, added: set<Status>, n: int)
    requires Extends(s, t, added) && AllAtMost(s, n) && forall st | st in added :: AtMost(st, n)
    ensures AllAtMost(t, n)
  {
  }

  lemma PutAtMost(sys: System, c: Local, phase: Phase, env: nat -> Attempt, n: int)
    requires Stored(sys.server) && Consistent(sys.server) && AllAtMost(sys.server, n) && AtMost(c.status, n)
    ensures var p := UpdateStatus(sys, c, phase, env);
            && Stored(p.sys.server) && Consistent(p.sys.server) && AllAtMost(p.sys.server, n)
            && p.local == c.(status := p.local.status) && AtMost(p.local.status, n)
            && p.local.status.conditions == c.status.conditions
  {
    var st := c.status.(phase := phase, observedGeneration := c.generation);
    CallExtends(sys.server, PutStatus(st), env);
    hide Call, Consistent, Extends, AllAtMost;
    ExtendsAtMost(sys.server, Call(sys.server, PutStatus(st), env).server, {st}, n);
  }

  lemma SecondAtMost(s: Server, e: Env, n: int)
    requires Stored(s) && Consistent(s) && AllAtMost(s, n)
    ensures forall w, d: Local, phase ::
              AtMost(d.status, n) ==> AllAtMost(UpdateStatus(System(s, w), d, phase, e.second).sys.server, n)
  {
    forall w, d: Local, phase | AtMost(d.status, n)
      ensures AllAtMost(UpdateStatus(System(s, w), d, phase, e.second).sys.server, n)
    {
      PutAtMost(System(s, w), d, phase, e.second, n);
    }
  }

  /** A stage writes what its copy held about Ceph, or what it has just heard. */
  lemma StagesAtMost(sys: System, c: Local, e: Env, n: int)
    requires Stored(sys.server) && Consistent(sys.server) && c.spec.nodes >= 1
    requires AllAtMost(sys.server, n) && AtMost(c.status, n)
    requires e.cephStatus.Some? ==> StatusOf(c.spec, e.cephStatus.value).osdsReady <= n
    ensures AllAtMost(Stages(sys, c, e).server, n)
  {
    hide UpdateStatus, Consistent, AllAtMost, JoinAll, Execute, Plan, StatusOf, CephUsable, ClusterInit, SiteOf;
    SecondAtMost(sys.server, e, n);
    var phase := StagePhase(c.status);
    PutAtMost(sys, c, phase, e.first, n);
    SecondAtMost(UpdateStatus(sys, c, phase, e.first).sys.server, e, n);
  }

  lemma ConvergeAtMost(sys: System, c: Local, e: Env, n: int)
    requires Stored(sys.server) && Consistent(sys.server) && c.spec.nodes >= 1
    requires AllAtMost(sys.server, n) && AtMost(c.status, n)
    requires e.cephStatus.Some? ==> StatusOf(c.spec, e.cephStatus.value).osdsReady <= n
    ensures AllAtMost(Converge(sys, c, e).server, n)
  {
    hide UpdateStatus, Admissible, Consistent, AllAtMost, Stages, StatusOf;
    PutAtMost(sys, Set(c, CephInitialized, false, "", "InvalidCephSpec"), Failed, e.first, n);
    PutAtMost(sys, c, Pending, e.first, n);
    if e.sts.StsSeen? {
      var c1 := Set(c, StatefulSetReady, e.sts.readyReplicas == c.spec.nodes, "AllPodsReady", "NotAllPodsReady");
      PutAtMost(sys, c1, Pending, e.first, n);
      StagesAtMost(sys, c1, e, n);
    }
  }

  lemma PassAtMost(sys: System, e: Env, n: int)
    requires Good(sys) && AllAtMost(sys.server, n)
    requires forall spec :: e.cephStatus.Some? ==> StatusOf(spec, e.cephStatus.value).osdsReady <= n
    ensures AllAtMost(Pass(sys, e).server, n)
  {
    hide Good, Consistent, AllAtMost, Converge, Admit, ApplyEdits, FirstRead, Extends, StatusOf;
    GoodParts(sys);
    EditsExtend(sys.server, e.before);
    var s := ApplyEdits(sys.server, e.before);
    ExtendsAtMost(sys.server, s, {}, n);
    ReadAtMost(s, e.get, n);
    ReadNodes(s, e.get);
    var read := FirstRead(s, e.get);
    if read.Some? {
      var o := read.value;
      AdmitExtends(s, o, e.finalizer);
      var s1 := Admit(s, o, e.finalizer).0;
      ExtendsAtMost(s, s1, {}, n);
      ConvergeAtMost(sys.(server := s1), Local(o.spec, o.generation, o.status), e, n);
    }
  }

  lemma ReadAtMost(s: Server, get: Get, n: int)
    requires Stored(s) && AllAtMost(s, n)
    ensures FirstRead(s, get).Some? ==> AtMost(FirstRead(s, get).value.status, n)
  {
  }

  lemma {:induction false} SubsetSize<T>(a: set<T>, b: set<T>)
    requires a <= b
    ensures |a| <= |b|
  {
    assert b == a + (b - a);
  }

  /* ---------------------------------------------------------------- whole runs */

  /** In a run of honest reports no status ever persisted counts more OSDs ready than there are. */
  lemma {:induction false} ReportsHold(start: System, envs: seq<Env>, sys: System)
    requires LeadsTo(start, envs, sys) && HonestRun(start, envs) && AllAtMost(start.server, |start.world.ceph.osds|)
    ensures AllAtMost(sys.server, |sys.world.ceph.osds|)
    decreases |envs|
  {
    if envs != [] {
      hide Good, Pass, AllAtMost, Honest, StatusOf;
      var k := |envs| - 1;
      var before, e := Run(start, envs[..k]), envs[k];
      HonestPrefix(start, envs);
      ReportsHold(start, envs[..k], before);
      PassKeeps(before, e);
      SubsetSize(before.world.ceph.osds, sys.world.ceph.osds);
      MoreAtMost(before.server, |before.world.ceph.osds|, |sys.world.ceph.osds|);
      assert envs[..k + 1] == envs;
      if e.cephStatus.Some? {
        forall spec {
          HeardIsThere(e.cephStatus.value, sys.world.ceph, spec);
        }
      }
      PassAtMost(before, e, |sys.world.ceph.osds|);
    }
  }

  lemma HonestPrefix(start: System, envs: seq<Env>)
    requires Good(start) && envs != [] && HonestRun(start, envs)
    ensures HonestRun(start, envs[..|envs| - 1])
  {
    hide Run, Honest;
    var before := envs[..|envs| - 1];
    forall k | 0 <= k < |before|
      ensures Honest(before[k].cephStatus, Run(start, before[..k + 1]).world.ceph)
    {
      assert before[..k + 1] == envs[..k + 1];
    }
  }

  lemma MoreAtMost(s: Server, m: int, n: int)
    requires AllAtMost(s, m) && m <= n
    ensures AllAtMost(s, n)
  {
  }

  /** With honest reports a Ready Ceph cluster has, not just reports, an OSD for every replica of every pool,
      and all the OSDs it expects. */
  lemma ReadyCephHasOSDs(start: System, envs: seq<Env>, sys: System, i: nat, u: nat, p: PoolSpec)
    requires LeadsTo(start, envs, sys) && HonestRun(start, envs) && AllAtMost(start.server, |start.world.ceph.osds|)
    requires WrittenForSpecOf(sys, i, u)
    requires var vs := sys.server.versions;
               vs[i].status.phase == Ready && vs[u].spec.ceph.Some? && p in PoolsOf(vs[u].spec)
    ensures p.minSize <= p.size <= ExpectedOSDs(sys.server.versions[u].spec) <= |sys.world.ceph.osds|
  {
    ReportsHold(start, envs, sys);
    PersistedPhase(start, envs, sys, i, u);
    assert AtMost(sys.server.versions[i].status, |sys.world.ceph.osds|);
    hide Run, Good, HonestRun, PoolsOf, ExpectedOSDs;
  }
}
