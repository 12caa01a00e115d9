/** What projection passes achieve: convergence from any store, no harm under any failures, silence
    when nothing changed, and independence of the clusters sharing a namespace. */
module NodePasses {
  import opened Basics
  import opened CephSpec
  import opened NodeStatus
  import opened NodeHistory
  import opened Nodes
  import opened NodeStore

  /* ---------------------------------------------------------------- a pass, name by name */

  ghost predicate OwnName(cluster: string, n: int, x: string) {
    exists i | 0 <= i < n :: NodeName(cluster, i) == x
  }

  lemma {:induction false} DesiredNamesMeaning(cluster: string, n: int, x: string)
    ensures x in DesiredNames(cluster, n) <==> OwnName(cluster, n, x)
    decreases Max(n, 0)
  {
    hide NodeName;
    if n > 0 {
      DesiredNamesMeaning(cluster, n - 1, x);
      if OwnName(cluster, n, x) {
        var i :| 0 <= i < n && NodeName(cluster, i) == x;
        assert i < n - 1 || i == n - 1;
      }
    }
  }

  lemma {:induction false} DesiredNamesCount(cluster: string, n: nat)
    ensures |DesiredNames(cluster, n)| == n
  {
    if n > 0 {
      DesiredNamesCount(cluster, n - 1);
      DesiredNamesMeaning(cluster, n - 1, NodeName(cluster, n - 1));
      hide NodeName;
      forall i | 0 <= i < n - 1
        ensures NodeName(cluster, i) != NodeName(cluster, n - 1)
      {
        if NodeName(cluster, i) == NodeName(cluster, n - 1) {
          NodeNameInjective(cluster, i, cluster, n - 1);
        }
      }
    }
  }

  lemma {:induction false} UpsertAllElse(s: Store, cluster: string, spec: ClusterSpec, n: nat, e: NodesEnv, x: string)
    requires e.pods.Some? && !OwnName(cluster, n, x)
    ensures Find(UpsertAll(s, cluster, spec, n, e).store, x) == Find(s, x)
  {
    hide Upsert, Desired, NodeName;
    if n > 0 {
      assert NodeName(cluster, n - 1) != x;
      UpsertAllElse(s, cluster, spec, n - 1, e, x);
    }
  }

  lemma {:induction false} UpsertAllOwn(s: Store, cluster: string, spec: ClusterSpec, n: nat, e: NodesEnv, i: nat)
    requires e.pods.Some? && i < n
    ensures Find(UpsertAll(s, cluster, spec, n, e).store, NodeName(cluster, i))
            == Upsert(Find(s, NodeName(cluster, i)), Desired(cluster, spec, i, e), e.upsert(i)).node
  {
    hide Upsert, Desired, NodeName;
    if i < n - 1 {
      if NodeName(cluster, i) == NodeName(cluster, n - 1) {
        NodeNameInjective(cluster, i, cluster, n - 1);
        assert false;
      }
      UpsertAllOwn(s, cluster, spec, n - 1, e, i);
    } else {
      forall k | 0 <= k < n - 1
        ensures NodeName(cluster, k) != NodeName(cluster, i)
      {
        if NodeName(cluster, k) == NodeName(cluster, i) {
          NodeNameInjective(cluster, k, cluster, i);
        }
      }
      UpsertAllElse(s, cluster, spec, n - 1, e, NodeName(cluster, i));
    }
  }

  lemma UpsertKeepsObject(stored: Option<NodeObject>, desired: NodeObject, e: UpsertEnv)
    requires stored.Some?
    ensures Upsert(stored, desired, e).node.Some?
  {
  }

  /** What a pass leaves of an object that is not one of its nodes. */
  function AfterPrune(o: Option<NodeObject>, cluster: string, e: NodesEnv, x: string): Option<NodeObject> {
    if e.pods.Some? && e.list && o.Some? && Labelled(o.value, cluster) && e.visible(x) && e.delete(x).TookEffect() then
      None
    else
      o
  }

  lemma ProjectElse(s: Store, cluster: string, spec: ClusterSpec, e: NodesEnv, x: string)
    requires !OwnName(cluster, spec.nodes, x)
    ensures Find(Project(s, cluster, spec, e).store, x) == AfterPrune(Find(s, x), cluster, e, x)
  {
    if e.pods.Some? {
      UpsertAllElse(s, cluster, spec, Max(spec.nodes, 0), e, x);
      DesiredNamesMeaning(cluster, spec.nodes, x);
      hide UpsertAll, Labelled, OwnName, DesiredNames;
    }
  }

  lemma ProjectOwn(s: Store, cluster: string, spec: ClusterSpec, e: NodesEnv, i: nat)
    requires e.pods.Some? && i < spec.nodes
    ensures Find(Project(s, cluster, spec, e).store, NodeName(cluster, i))
            == Upsert(Find(s, NodeName(cluster, i)), Desired(cluster, spec, i, e), e.upsert(i)).node
  {
    UpsertAllOwn(s, cluster, spec, spec.nodes, e, i);
    DesiredNamesMeaning(cluster, spec.nodes, NodeName(cluster, i));
    hide UpsertAll, Labelled, DesiredNames, Upsert, Desired, NodeName;
  }

  /* ---------------------------------------------------------------- convergence */

  ghost predicate AllGood(e: UpsertEnv) {
    e == UpsertEnv(true, Accepted, Accepted, Accepted)
  }

  /** Every request of the pass succeeds and the list is complete. */
  ghost predicate Clean(e: NodesEnv) {
    && e.pods.Some? && e.list
    && (forall i :: AllGood(e.upsert(i)))
    && (forall x :: e.visible(x) && e.delete(x) == Accepted)
  }

  /** The schema of the CRD makes conditions a map by type. */
  ghost predicate WellFormed(s: Store) {
    forall x | x in s :: Unique(s[x].status.conditions)
  }

  lemma CleanUpsert(stored: Option<NodeObject>, desired: NodeObject, e: UpsertEnv)
    requires AllGood(e) && Unique(desired.status.conditions)
    requires stored.Some? ==> Unique(stored.value.status.conditions)
    ensures var r := Upsert(stored, desired, e); r.ok && r.node.Some? && UpToDate(r.node.value, desired)
  {
    hide Unique, Facts, Merged;
    if stored.Some? {
      ChangedExactly(stored.value.status, desired.status);
    }
  }

  lemma DesiredObserves(cluster: string, spec: ClusterSpec, i: int, e: NodesEnv)
    requires e.pods.Some?
    ensures Unique(Desired(cluster, spec, i, e).status.conditions)
    ensures Labelled(Desired(cluster, spec, i, e), cluster)
  {
    var name := NodeName(cluster, i);
    hide StatusFor, NodeName;
    StatusForObserves(spec, Find(PodsByName(e.pods.value), name), Find(Inventoried(e.inventory), name), e.now);
  }

  /** From any store, a clean pass leaves exactly one object per ordinal with the cluster's label, each
      with the desired labels, annotations and facts. */
  lemma PassConverges(s: Store, cluster: string, spec: ClusterSpec, e: NodesEnv)
    requires Clean(e) && WellFormed(s) && spec.nodes >= 1
    ensures var t := Project(s, cluster, spec, e).store;
            && (set x | x in t && Labelled(t[x], cluster)) == DesiredNames(cluster, spec.nodes)
            && |DesiredNames(cluster, spec.nodes)| == spec.nodes
            && forall i | 0 <= i < spec.nodes ::
                 NodeName(cluster, i) in t && UpToDate(t[NodeName(cluster, i)], Desired(cluster, spec, i, e))
  {
    hide UpToDate, Project, NodeName, Desired, DesiredNames, Upsert, OwnName;
    var t := Project(s, cluster, spec, e).store;
    DesiredNamesCount(cluster, spec.nodes);
    forall i | 0 <= i < spec.nodes
      ensures NodeName(cluster, i) in t && UpToDate(t[NodeName(cluster, i)], Desired(cluster, spec, i, e))
      ensures Labelled(t[NodeName(cluster, i)], cluster)
    {
      ConvergesAt(s, cluster, spec, e, i);
    }
    forall x
      ensures x in t && Labelled(t[x], cluster) <==> x in DesiredNames(cluster, spec.nodes)
    {
      DesiredNamesMeaning(cluster, spec.nodes, x);
      LabelledIsOwn(s, cluster, spec, e, x);
    }
  }

  lemma ConvergesAt(s: Store, cluster: string, spec: ClusterSpec, e: NodesEnv, i: nat)
    requires Clean(e) && WellFormed(s) && i < spec.nodes
    ensures var t := Project(s, cluster, spec, e).store;
            && NodeName(cluster, i) in t && UpToDate(t[NodeName(cluster, i)], Desired(cluster, spec, i, e))
            && Labelled(t[NodeName(cluster, i)], cluster)
  {
    ProjectOwn(s, cluster, spec, e, i);
    DesiredObserves(cluster, spec, i, e);
    hide Project, NodeName, Desired, Upsert, Unique, Facts;
    CleanUpsert(Find(s, NodeName(cluster, i)), Desired(cluster, spec, i, e), e.upsert(i));
  }

  lemma LabelledIsOwn(s: Store, cluster: string, spec: ClusterSpec, e: NodesEnv, x: string)
    requires Clean(e) && WellFormed(s)
    ensures var t := Project(s, cluster, spec, e).store;
            x in t && Labelled(t[x], cluster) <==> OwnName(cluster, spec.nodes, x)
  {
    hide Project, NodeName, Desired, Upsert, UpToDate;
    if OwnName(cluster, spec.nodes, x) {
      var i :| 0 <= i < spec.nodes && NodeName(cluster, i) == x;
      ConvergesAt(s, cluster, spec, e, i);
    } else {
      ProjectElse(s, cluster, spec, e, x);
    }
  }

  /* ---------------------------------------------------------------- no harm */

  /** Under any pattern of failures: no node's object is deleted, and no other cluster's correctly
      labelled object is touched. */
  lemma PassDoesNoHarm(s: Store, cluster: string, spec: ClusterSpec, e: NodesEnv, x: string)
    requires x in s
    ensures OwnName(cluster, spec.nodes, x) ==> x in Project(s, cluster, spec, e).store
    ensures forall other, j | 0 <= j && other != cluster && x == NodeName(other, j) && Labelled(s[x], other) ::
              Find(Project(s, cluster, spec, e).store, x) == Some(s[x])
  {
    hide NodeName, Upsert, Desired;
    if OwnName(cluster, spec.nodes, x) && e.pods.Some? {
      var i :| 0 <= i < spec.nodes && NodeName(cluster, i) == x;
      ProjectOwn(s, cluster, spec, e, i);
      UpsertKeepsObject(Find(s, x), Desired(cluster, spec, i, e), e.upsert(i));
    }
    forall other, j | 0 <= j && other != cluster && x == NodeName(other, j) && Labelled(s[x], other)
      ensures Find(Project(s, cluster, spec, e).store, x) == Some(s[x])
    {
      NotOwnName(cluster, spec.nodes, other, j);
      ProjectElse(s, cluster, spec, e, x);
    }
  }

  lemma NotOwnName(cluster: string, n: int, other: string, j: nat)
    requires other != cluster
    ensures !OwnName(cluster, n, NodeName(other, j))
  {
    hide NodeName;
    if OwnName(cluster, n, NodeName(other, j)) {
      var i :| 0 <= i < n && NodeName(cluster, i) == NodeName(other, j);
      NodeNameInjective(cluster, i, other, j);
      assert false;
    }
  }

  /** Spec, owner and the transition times of conditions whose status stays are as before. */
  ghost predicate NotHealed(was: NodeObject, o: NodeObject) {
    && o.spec == was.spec && o.owner == was.owner
    && TimesCarried(was.status, o.status)
  }

  ghost predicate TimesCarried(was: NodeStatus, st: NodeStatus) {
    var a, b := ByType(was.conditions), ByType(st.conditions);
    forall t | t in a && t in b && a[t].status == b[t].status :: b[t].lastTransition == a[t].lastTransition
  }

  lemma MergeCarries(existing: NodeStatus, desired: NodeStatus)
    ensures TimesCarried(existing, Merged(existing, desired).status)
  {
    MergedTimes(existing, desired);
    ByTypeFinds(desired.conditions);
    hide ByType, Merged;
    var a, b, d := ByType(existing.conditions), ByType(Merged(existing, desired).status.conditions),
          ByType(desired.conditions);
    forall t | t in a && t in b && a[t].status == b[t].status
      ensures b[t].lastTransition == a[t].lastTransition
    {
      assert t in b.Keys && t in d && b[t] == Carry(a, d[t]);
    }
  }

  lemma UpsertDoesNotHeal(o: NodeObject, desired: NodeObject, e: UpsertEnv)
    ensures var r := Upsert(Some(o), desired, e).node; r.Some? && NotHealed(o, r.value)
  {
    MergeCarries(o.status, desired.status);
    hide Merged, ByType;
  }

  /** What a pass never repairs on an object that exists. */
  lemma PassDoesNotHeal(s: Store, cluster: string, spec: ClusterSpec, e: NodesEnv, i: nat)
    requires i < spec.nodes && NodeName(cluster, i) in s
    ensures var x := NodeName(cluster, i);
            var t := Project(s, cluster, spec, e).store;
            x in t && NotHealed(s[x], t[x])
  {
    hide NodeName, Upsert, Desired, Project, NotHealed;
    var o := s[NodeName(cluster, i)];
    if e.pods.Some? {
      ProjectOwn(s, cluster, spec, e, i);
      UpsertDoesNotHeal(o, Desired(cluster, spec, i, e), e.upsert(i));
    } else {
      NoPods(s, cluster, spec, e);
      NothingHealed(o);
    }
  }

  lemma NothingHealed(o: NodeObject)
    ensures NotHealed(o, o)
  {
  }

  /* ---------------------------------------------------------------- silence */

  lemma {:induction false} NothingToUpsert(s: Store, cluster: string, spec: ClusterSpec, n: nat, e: NodesEnv)
    requires e.pods.Some?
    requires forall i | 0 <= i < n ::
               NodeName(cluster, i) in s && UpToDate(s[NodeName(cluster, i)], Desired(cluster, spec, i, e))
    ensures UpsertAll(s, cluster, spec, n, e) == Projected(s, 0)
  {
    hide NodeName, Desired, UpToDate, Upsert;
    if n > 0 {
      NothingToUpsert(s, cluster, spec, n - 1, e);
      var name := NodeName(cluster, n - 1);
      DesiredObserves(cluster, spec, n - 1, e);
      UpToDateUpsert(s[name], Desired(cluster, spec, n - 1, e), e.upsert(n - 1));
    }
  }

  lemma UpToDateUpsert(o: NodeObject, desired: NodeObject, e: UpsertEnv)
    requires UpToDate(o, desired) && Unique(desired.status.conditions)
    ensures Upsert(Some(o), desired, e).node == Some(o) && Upsert(Some(o), desired, e).writes == 0
  {
    ChangedExactly(o.status, desired.status);
    hide Facts, Unique, Merged;
  }

  ghost predicate SameObservations(e: NodesEnv, f: NodesEnv) {
    e.pods == f.pods && e.inventory == f.inventory
  }

  lemma RetimedDesired(cluster: string, spec: ClusterSpec, i: int, e: NodesEnv, f: NodesEnv, o: NodeObject)
    requires e.pods.Some? && SameObservations(e, f) && UpToDate(o, Desired(cluster, spec, i, e))
    ensures UpToDate(o, Desired(cluster, spec, i, f))
  {
    var name := NodeName(cluster, i);
    hide StatusFor, NodeName, Facts, Unique;
    RetimedFacts(spec, Find(PodsByName(e.pods.value), name), Find(Inventoried(e.inventory), name), e.now, f.now);
  }

  /** After a clean pass, a pass that observes the same writes nothing, whatever the clock says and
      whichever of its reads fail. */
  lemma SecondPassIsSilent(s: Store, cluster: string, spec: ClusterSpec, e: NodesEnv, f: NodesEnv)
    requires Clean(e) && WellFormed(s) && spec.nodes >= 1 && SameObservations(e, f)
    ensures var t := Project(s, cluster, spec, e).store; Project(t, cluster, spec, f) == Projected(t, 0)
  {
    var t := Project(s, cluster, spec, e).store;
    PassConverges(s, cluster, spec, e);
    hide Clean, UpToDate, NodeName, Desired, UpsertAll, DesiredNames, Labelled;
    forall i | 0 <= i < spec.nodes
      ensures NodeName(cluster, i) in t && UpToDate(t[NodeName(cluster, i)], Desired(cluster, spec, i, f))
    {
      RetimedDesired(cluster, spec, i, e, f, t[NodeName(cluster, i)]);
    }
    NothingToUpsert(t, cluster, spec, spec.nodes, f);
    NothingDoomed(t, cluster, spec.nodes, f);
  }

  lemma NothingDoomed(t: Store, cluster: string, n: int, f: NodesEnv)
    requires (set x | x in t && Labelled(t[x], cluster)) == DesiredNames(cluster, n)
    ensures Prune(t, cluster, n, f) == Projected(t, 0)
  {
  }

  /* ---------------------------------------------------------------- independence */

  /** Whoever carries a cluster's label is named as one of its nodes. */
  ghost predicate LabelsMatch(s: Store) {
    forall x, c | x in s && Labelled(s[x], c) :: Named(c, x)
  }

  ghost predicate Named(cluster: string, x: string) {
    exists j | 0 <= j :: NodeName(cluster, j) == x
  }

  lemma NamesDiffer(a: string, b: string, n: int, x: string)
    requires a != b && Named(a, x)
    ensures !OwnName(b, n, x) && !Named(b, x)
  {
    hide NodeName;
    var i :| 0 <= i && NodeName(a, i) == x;
    NotOwnName(b, n, a, i);
    if Named(b, x) {
      var j :| 0 <= j && NodeName(b, j) == x;
      NodeNameInjective(a, i, b, j);
      assert false;
    }
  }

  lemma UpsertLabels(stored: Option<NodeObject>, desired: NodeObject, e: UpsertEnv)
    ensures var r := Upsert(stored, desired, e).node;
            r.Some? ==> r.value.labels == desired.labels || (stored.Some? && r.value.labels == stored.value.labels)
  {
    hide Merged;
  }

  /** Where a names its nodes, b has no say, before or after a's pass. */
  lemma OwnNameCommutes(s: Store, a: string, specA: ClusterSpec, ea: NodesEnv, b: string, specB: ClusterSpec,
        eb: NodesEnv, x: string)
    requires a != b && LabelsMatch(s) && OwnName(a, specA.nodes, x)
    ensures Find(Project(Project(s, a, specA, ea).store, b, specB, eb).store, x)
              == Find(Project(s, a, specA, ea).store, x)
    ensures Find(Project(Project(s, b, specB, eb).store, a, specA, ea).store, x)
              == Find(Project(s, a, specA, ea).store, x)
  {
    hide NodeName, Upsert, Desired, Project;
    var i :| 0 <= i < specA.nodes && NodeName(a, i) == x;
    NamesDiffer(a, b, specB.nodes, x);
    ProjectElse(Project(s, a, specA, ea).store, b, specB, eb, x);
    ProjectElse(s, b, specB, eb, x);
    if ea.pods.Some? {
      ProjectOwn(s, a, specA, ea, i);
      ProjectOwn(Project(s, b, specB, eb).store, a, specA, ea, i);
      UpsertLabels(Find(s, x), Desired(a, specA, i, ea), ea.upsert(i));
      DesiredObserves(a, specA, i, ea);
    } else {
      NoPods(s, a, specA, ea);
      NoPods(Project(s, b, specB, eb).store, a, specA, ea);
    }
  }

  lemma NoPods(s: Store, cluster: string, spec: ClusterSpec, e: NodesEnv)
    requires e.pods.None?
    ensures Project(s, cluster, spec, e).store == s
  {
  }

  /** The passes of two clusters commute, whatever fails in either, on stores whose labels match
      their names. */
  lemma PassesCommute(s: Store, a: string, specA: ClusterSpec, ea: NodesEnv, b: string, specB: ClusterSpec,
        eb: NodesEnv)
    requires a != b && LabelsMatch(s)
    ensures Project(Project(s, a, specA, ea).store, b, specB, eb).store
              == Project(Project(s, b, specB, eb).store, a, specA, ea).store
  {
    hide Project, OwnName, LabelsMatch, Named;
    var ab := Project(Project(s, a, specA, ea).store, b, specB, eb).store;
    var ba := Project(Project(s, b, specB, eb).store, a, specA, ea).store;
    forall x
      ensures Find(ab, x) == Find(ba, x)
    {
      if OwnName(a, specA.nodes, x) {
        OwnNameCommutes(s, a, specA, ea, b, specB, eb, x);
      } else if OwnName(b, specB.nodes, x) {
        OwnNameCommutes(s, b, specB, eb, a, specA, ea, x);
      } else {
        ProjectElse(s, a, specA, ea, x);
        ProjectElse(Project(s, a, specA, ea).store, b, specB, eb, x);
        ProjectElse(s, b, specB, eb, x);
        ProjectElse(Project(s, b, specB, eb).store, a, specA, ea, x);
      }
    }
    SameFinds(ab, ba);
  }

  lemma SameFinds(s: Store, t: Store)
    requires forall x :: Find(s, x) == Find(t, x)
    ensures s == t
  {
    forall x
      ensures x in s <==> x in t
      ensures x in s ==> s[x] == t[x]
    {
      assert Find(s, x) == Find(t, x);
    }
  }

  /** A pass keeps labels and names in step. */
  lemma PassKeepsLabels(s: Store, cluster: string, spec: ClusterSpec, e: NodesEnv)
    requires LabelsMatch(s)
    ensures LabelsMatch(Project(s, cluster, spec, e).store)
  {
    hide Project, NodeName, Upsert, Desired;
    var t := Project(s, cluster, spec, e).store;
    forall x, c | x in t && Labelled(t[x], c)
      ensures Named(c, x)
    {
      if OwnName(cluster, spec.nodes, x) && e.pods.Some? {
        var i :| 0 <= i < spec.nodes && NodeName(cluster, i) == x;
        ProjectOwn(s, cluster, spec, e, i);
        UpsertLabels(Find(s, x), Desired(cluster, spec, i, e), e.upsert(i));
        DesiredObserves(cluster, spec, i, e);
      } else if e.pods.Some? {
        ProjectElse(s, cluster, spec, e, x);
      } else {
        NoPods(s, cluster, spec, e);
      }
    }
  }

  /* ---------------------------------------------------------------- any run of passes */

  datatype PassStep = PassStep(cluster: string, spec: ClusterSpec, env: NodesEnv)

  /** Passes of any clusters, one after another. */
  function Passes(s: Store, steps: seq<PassStep>): Store {
    if steps == [] then s
    else
      var last := steps[|steps| - 1];
      Project(Passes(s, steps[..|steps| - 1]), last.cluster, last.spec, last.env).store
  }

  /** The observations of one node among them. */
  function Upserts(steps: seq<PassStep>, cluster: string, i: nat): seq<Upserting> {
    if steps == [] then []
    else
      var last, before := steps[|steps| - 1], Upserts(steps[..|steps| - 1], cluster, i);
      if last.cluster != cluster || last.env.pods.None? then before
      else before + [Upserting(Desired(cluster, last.spec, i, last.env), last.env.now, last.env.upsert(i))]
  }

  ghost predicate KeepsNode(steps: seq<PassStep>, cluster: string, i: nat) {
    forall k | 0 <= k < |steps| :: steps[k].cluster == cluster ==> i < steps[k].spec.nodes
  }

  lemma DesiredIsObservation(cluster: string, spec: ClusterSpec, i: int, e: NodesEnv)
    requires e.pods.Some?
    ensures Observation(Seen(Desired(cluster, spec, i, e).status, e.now))
  {
    var name := NodeName(cluster, i);
    hide StatusFor, NodeName, Observation;
    StatusForObserves(spec, Find(PodsByName(e.pods.value), name), Find(Inventoried(e.inventory), name), e.now);
  }

  lemma {:induction false} UpsertsObserve(steps: seq<PassStep>, cluster: string, i: nat)
    ensures forall u | u in Upserts(steps, cluster, i) :: Observation(Seen(u.desired.status, u.at))
  {
    hide Desired, Observation;
    if steps != [] {
      var last := steps[|steps| - 1];
      UpsertsObserve(steps[..|steps| - 1], cluster, i);
      if last.env.pods.Some? {
        DesiredIsObservation(cluster, last.spec, i, last.env);
      }
    }
  }

  /** One pass, seen from one node's object. */
  lemma StepTracks(s: Store, step: PassStep, cluster: string, i: nat, us: seq<Upserting>)
    requires LabelsMatch(s) && (step.cluster == cluster ==> i < step.spec.nodes)
    requires Find(s, NodeName(cluster, i)) == Track(us).node
    ensures var t := Project(s, step.cluster, step.spec, step.env).store;
            Find(t, NodeName(cluster, i))
            == if step.cluster != cluster || step.env.pods.None? then Track(us).node
               else Track(us + [Upserting(Desired(cluster, step.spec, i, step.env), step.env.now,
                   step.env.upsert(i))]).node
  {
    hide NodeName, Project, Upsert, Desired;
    var x := NodeName(cluster, i);
    if step.env.pods.None? {
      NoPods(s, step.cluster, step.spec, step.env);
    } else if step.cluster != cluster {
      NamesDiffer(cluster, step.cluster, step.spec.nodes, x);
      ProjectElse(s, step.cluster, step.spec, step.env, x);
    } else {
      ProjectOwn(s, cluster, step.spec, step.env, i);
      var u := Upserting(Desired(cluster, step.spec, i, step.env), step.env.now, step.env.upsert(i));
      assert (us + [u])[..|us|] == us;
    }
  }

  lemma {:induction false} PassesTrack(s: Store, steps: seq<PassStep>, cluster: string, i: nat)
    requires LabelsMatch(s) && NodeName(cluster, i) !in s && KeepsNode(steps, cluster, i)
    ensures LabelsMatch(Passes(s, steps))
    ensures Find(Passes(s, steps), NodeName(cluster, i)) == Track(Upserts(steps, cluster, i)).node
  {
    hide NodeName, Project, LabelsMatch, Desired, Track;
    if steps == [] {
      NoHistory();
    } else {
      var n := |steps| - 1;
      PassesTrack(s, steps[..n], cluster, i);
      var before, last := Passes(s, steps[..n]), steps[n];
      PassKeepsLabels(before, last.cluster, last.spec, last.env);
      StepTracks(before, last, cluster, i, Upserts(steps[..n], cluster, i));
    }
  }

  lemma NoHistory()
    ensures Track([]) == Tracked(None, [])
  {
  }

  /** History refinement for whole runs: after any passes of any clusters in the namespace, failing in
      any way, the object of a node that stays in its spec says what was last recorded of that node,
      with the times of its history. */
  lemma ProjectionFollowsHistory(s: Store, steps: seq<PassStep>, cluster: string, i: nat)
    requires LabelsMatch(s) && NodeName(cluster, i) !in s && KeepsNode(steps, cluster, i)
    ensures var t := Track(Upserts(steps, cluster, i));
            && Find(Passes(s, steps), NodeName(cluster, i)) == t.node
            && (t.history != [] ==> t.node.Some? && Describes(t.node.value.status, t.history))
            && (t.history == [] && t.node.Some? ==> t.node.value.status == EMPTY_STATUS)
  {
    hide NodeName, LabelsMatch, Describes, Observation, Passes;
    PassesTrack(s, steps, cluster, i);
    UpsertsObserve(steps, cluster, i);
    StoreFollowsHistory(Upserts(steps, cluster, i));
  }
}
