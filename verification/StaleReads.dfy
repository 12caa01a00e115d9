/** Passes that start from an old version of the object. Their status updates are not refused, because each
    reads again before it writes; so they put what they know on top of what has been reached since. */
module StaleReads {
  import opened Basics
  import opened CephSpec
  import opened CephStatus
  import opened CephScripts
  import opened ClusterApi
  import opened ApiServer
  import opened Reconcile
  import opened Retries
  import opened Safety
  import opened Progress
  import opened GoodRuns

  /** Others leave spec and existence alone; the first read returns version i. */
  ghost predicate CalmButStale(e: Env, i: nat, spec: ClusterSpec) {
    && e.get == Cached(i)
    && Harmless(e.before, spec)
    && Quiet(e.finalizer, spec) && Quiet(e.first, spec) && Quiet(e.second, spec)
  }

  lemma StillThere(s: Server, edits: seq<Edit>, i: nat)
    requires Stored(s) && i < |s.versions|
    ensures var t := ApplyEdits(s, edits); FirstRead(t, Cached(i)) == Some(s.versions[i])
  {
    EditsPrefix(s, edits);
  }

  lemma VersionFacts(sys: System, i: nat)
    requires Good(sys) && i < |sys.server.versions|
    ensures sys.server.versions[i].spec.nodes >= 1
    ensures IsTrue(sys.server.versions[i].status, ClusterInitialized) ==> 0 in sys.world.members
  {
    assert StatusOk(sys.server.versions[i].status, sys.server.versions, sys.world);
  }

  /** A version that is as far as the latest does no harm, whatever its spec was. */
  lemma HarmlessStaleRead(sys: System, e: Env, i: nat, spec: ClusterSpec, generation: nat)
    requires Good(sys) && Steady(sys.server, spec, generation) && i < |sys.server.versions|
    requires !sys.server.versions[i].deleting
    requires CalmButStale(e, i, spec) && NoWorse(Latest(sys.server).status, sys.server.versions[i].status)
    ensures Advance(sys.server, Pass(sys, e).server)
  {
    hide Advance, Quiet, Converge, Call, ApplyEdits, Harmless, WorldOk, Consistent, Undisturbed, JoinsTruly,
         FirstRead, NoWorse;
    GoodParts(sys);
    VersionFacts(sys, i);
    StillThere(sys.server, e.before, i);
    EditsAdvance(sys.server, e.before, spec, generation);
    var s, o := ApplyEdits(sys.server, e.before), sys.server.versions[i];
    AdvanceReflexive(s);
    CallAdvances(s, AddFinalizer(FINALIZER), e.finalizer, spec, generation);
    var (s1, on) := Admit(s, o, e.finalizer);
    AdvanceTransitive(sys.server, s, s1);
    if on {
      var c := Local(o.spec, o.generation, o.status);
      ConvergeAdvances(sys.(server := s1), c, e, spec, generation);
      AdvanceTransitive(sys.server, s1, Converge(sys.(server := s1), c, e).server);
    }
  }

  /** A pass that reads version i, finds the StatefulSet not visible yet, and meets no other obstacle. */
  function Late(i: nat): Env {
    Env([], Cached(i), Prompt, true, StsNotVisible, Prompt, Prompt, Easy(0), Easy, {}, map[], Current, EasyTask, None)
  }

  lemma LateIsCalm(i: nat, spec: ClusterSpec)
    ensures CalmButStale(Late(i), i, spec) && Quiet(Prompt, spec) && Settles(Prompt)
  {
    PromptSettles();
  }

  lemma SmoothUpdate(sys: System, c: Local, phase: Phase, spec: ClusterSpec, generation: nat)
    requires Steady(sys.server, spec, generation) && Quiet(Prompt, spec)
    ensures Latest(UpdateStatus(sys, c, phase, Prompt).sys.server).status
            == c.status.(phase := phase, observedGeneration := c.generation)
  {
    var st := c.status.(phase := phase, observedGeneration := c.generation);
    PromptSettles();
    SmoothCall(sys.server, PutStatus(st), Prompt, spec, generation);
    StatusUpdateExact(sys.server, st, Prompt);
    hide Call, Quiet;
  }

  lemma LateConverges(sys: System, c: Local, i: nat, spec: ClusterSpec, generation: nat)
    requires Steady(sys.server, spec, generation) && Quiet(Prompt, spec) && c.spec.nodes >= 1
    ensures var t := Converge(sys, c, Late(i)).server;
            Stored(t) && NoWorse(Latest(t).status, c.status) && NoWorse(c.status, Latest(t).status)
  {
    SmoothUpdate(sys, c, Pending, spec, generation);
    SmoothUpdate(sys, Set(c, CephInitialized, false, "", "InvalidCephSpec"), Failed, spec, generation);
    hide Call, Quiet, Admissible;
  }

  /** It leaves the two gating conditions as version i had them. */
  lemma LatePass(sys: System, i: nat, spec: ClusterSpec, generation: nat)
    requires Good(sys) && Steady(sys.server, spec, generation) && i < |sys.server.versions|
    requires !sys.server.versions[i].deleting
    ensures Stored(Pass(sys, Late(i)).server)
    ensures var st, was := Latest(Pass(sys, Late(i)).server).status, sys.server.versions[i].status;
            NoWorse(st, was) && NoWorse(was, st)
  {
    var e, o := Late(i), sys.server.versions[i];
    GoodParts(sys);
    LateIsCalm(i, spec);
    VersionFacts(sys, i);
    hide Good, Call, Quiet, Consistent, Converge, Advance, ApplyEdits, FirstRead, NoWorse;
    StillThere(sys.server, e.before, i);
    EditsAdvance(sys.server, e.before, spec, generation);
    var s := ApplyEdits(sys.server, e.before);
    CallAdvances(s, AddFinalizer(FINALIZER), e.finalizer, spec, generation);
    SmoothCall(s, AddFinalizer(FINALIZER), e.finalizer, spec, generation);
    var s1 := Admit(s, o, e.finalizer).0;
    LateConverges(sys.(server := s1), Local(o.spec, o.generation, o.status), i, spec, generation);
  }

  /** For a version from before an edit of the spec or after it: no pass that starts from it loses ground if and
      only if it holds every gating condition that the latest version holds. */
  lemma StaleReadExactly(sys: System, i: nat, spec: ClusterSpec, generation: nat)
    requires Good(sys) && Steady(sys.server, spec, generation) && i < |sys.server.versions|
    requires !sys.server.versions[i].deleting
    ensures Consistent(sys.server)
    ensures (forall e | CalmButStale(e, i, spec) :: Advance(sys.server, Pass(sys, e).server))
            <==> NoWorse(Latest(sys.server).status, sys.server.versions[i].status)
  {
    GoodParts(sys);
    hide Good, Consistent, Advance, Pass, CalmButStale, NoWorse;
    if NoWorse(Latest(sys.server).status, sys.server.versions[i].status) {
      forall e | CalmButStale(e, i, spec) {
        HarmlessStaleRead(sys, e, i, spec, generation);
      }
    } else {
      LateIsCalm(i, spec);
      LatePass(sys, i, spec, generation);
      if Advance(sys.server, Pass(sys, Late(i)).server) {
        AdvanceLatest(sys.server, Pass(sys, Late(i)).server);
        NoWorseTransitive(Latest(sys.server).status, Latest(Pass(sys, Late(i)).server).status,
            sys.server.versions[i].status);
      }
    }
  }

  lemma NoWorseTransitive(a: Status, b: Status, c: Status)
    requires NoWorse(a, b) && NoWorse(b, c)
    ensures NoWorse(a, c)
  {
  }

  /** It happens: after one good pass on a new cluster, a pass that still reads the first version takes
      ClusterInitialized back. */
  lemma StaleReadLosesGround(spec: ClusterSpec)
    requires spec.nodes >= 1 && Admissible(spec)
    ensures var start := Created(spec);
            && Good(start)
            && var sys := Run(start, [Undisturbing([], spec, Current, None)]);
            && Consistent(sys.server)
            && IsTrue(Latest(sys.server).status, ClusterInitialized)
            && Stored(Pass(sys, Late(0)).server)
            && !IsTrue(Latest(Pass(sys, Late(0)).server).status, ClusterInitialized)
  {
    TwoPasses(spec);
    var start, e := Created(spec), Undisturbing([], spec, Current, None);
    var sys := Run(start, [e]);
    hide Good, Pass, Undisturbing, Consistent, Admissible, CanFinish;
    RunStep(start, [], e);
    assert sys.server.versions[0] == start.server.versions[0];
    GoodParts(sys);
    hide Run;
    LatePass(sys, 0, spec, 0);
  }
}
