/** The API server's copy of one ProxmoxCluster object, with every version it ever stored, and
    the operator's read-modify-write calls on it: optimistic concurrency, retried on conflict. */
module ApiServer {
  import opened Basics
  import opened CephSpec
  import opened ClusterApi

  /** All versions, oldest first. A resourceVersion is an index into them. The object is gone once
      it is being deleted and its last finalizer is removed. */
  datatype Server = Server(versions: seq<Object>, gone: bool)

  /** A write by anybody else: spec and metadata are theirs, the status is not. */
  datatype Edit = Edit(spec: ClusterSpec, finalizers: seq<string>, labels: map<string, string>, delete: bool)

  /** A read through the cache: it fails, it returns some version, maybe an old one, or it is up to date. */
  datatype Get = GetFailed | Cached(version: nat) | Fresh

  /** One round of read, modify, write, with what others do before and in between. */
  datatype Attempt = Attempt(before: seq<Edit>, get: Get, between: seq<Edit>, reply: Reply)

  /** What the operator asks for. */
  datatype Op = PutStatus(status: Status) | AddFinalizer(name: string) | RemoveFinalizer(name: string)

  /** retry.DefaultRetry.Steps. */
  const RETRY_STEPS: nat := 5

  predicate Stored(s: Server) {
    |s.versions| > 0
  }

  function Latest(s: Server): Object
    requires Stored(s)
  {
    s.versions[|s.versions| - 1]
  }

  function Commit(s: Server, o: Object): (r: Server)
    ensures Stored(r)
  {
    Server(s.versions + [o], o.deleting && o.finalizers == [])
  }

  /** The generation counts changes of the spec and the start of a deletion. */
  function Edited(o: Object, e: Edit): Object {
    var deleting := o.deleting || e.delete;
    o.(generation := if e.spec != o.spec || deleting != o.deleting then o.generation + 1 else o.generation,
       spec := e.spec, finalizers := e.finalizers, labels := e.labels, deleting := deleting)
  }

  /** The CRD schema admits nothing below one node. */
  function ApplyEdit(s: Server, e: Edit): (r: Server)
    requires Stored(s)
    ensures Stored(r)
  {
    if s.gone || e.spec.nodes < 1 then s else Commit(s, Edited(Latest(s), e))
  }

  function ApplyEdits(s: Server, edits: seq<Edit>): (r: Server)
    requires Stored(s)
    ensures Stored(r)
  {
    if edits == [] then s else ApplyEdit(ApplyEdits(s, edits[..|edits| - 1]), edits[|edits| - 1])
  }

  /** The version a read returns, None for NotFound. */
  function VersionRead(s: Server, get: Get): (v: Option<nat>)
    requires Stored(s) && !get.GetFailed?
    ensures v.Some? ==> v.value < |s.versions|
  {
    if get.Cached? && get.version < |s.versions| then Some(get.version)
    else if s.gone then None
    else Some(|s.versions| - 1)
  }

  /** controllerutil.RemoveFinalizer drops every occurrence. */
  function Without(names: seq<string>, name: string): seq<string> {
    if names == [] then []
    else Without(names[..|names| - 1], name) + if names[|names| - 1] == name then [] else [names[|names| - 1]]
  }

  /** The object to write, None when there is nothing to write. */
  function Wanted(op: Op, o: Object): Option<Object> {
    match op
    case PutStatus(st) => Some(o.(status := st))
    case AddFinalizer(f) => if f in o.finalizers then None else Some(o.(finalizers := o.finalizers + [f]))
    case RemoveFinalizer(f) => if f in o.finalizers then Some(o.(finalizers := Without(o.finalizers, f))) else None
  }

  datatype Verdict = Done | Conflict | Error

  /** How a round, or a whole call, ended; whether it wrote; and what others wrote meanwhile. */
  datatype Result = Result(server: Server, verdict: Verdict, written: bool, others: seq<Edit>)

  function Try(s: Server, op: Op, a: Attempt): (r: Result)
    requires Stored(s)
    ensures Stored(r.server)
  {
    var s1 := ApplyEdits(s, a.before);
    if a.get.GetFailed? then Result(s1, Error, false, a.before)
    else
      var v := VersionRead(s1, a.get);
      if v.None? then Result(s1, if op.RemoveFinalizer? then Done else Error, false, a.before)
      else if Wanted(op, s1.versions[v.value]).None? then Result(s1, Done, false, a.before)
      else
        var s2 := ApplyEdits(s1, a.between);
        var others := a.before + a.between;
        if s2.gone then Result(s2, Error, false, others)
        else if v.value != |s2.versions| - 1 then Result(s2, Conflict, false, others)
        else if a.reply.Rejected? then Result(s2, Error, false, others)
        else
          Result(Commit(s2, Wanted(op, s1.versions[v.value]).value), if a.reply.Ok() then Done else Error, true, others)
  }

  /** The rounds from number k on, at most `steps` in all. */
  function Retry(s: Server, op: Op, env: nat -> Attempt, k: nat, steps: nat): (r: Result)
    requires Stored(s) && k <= steps
    ensures Stored(r.server)
    decreases steps - k
  {
    if k == steps then Result(s, Conflict, false, [])
    else
      var r := Try(s, op, env(k));
      if r.verdict != Conflict then r
      else
        var next := Retry(r.server, op, env, k + 1, steps);
        next.(others := r.others + next.others)
  }

  function Call(s: Server, op: Op, env: nat -> Attempt): (r: Result)
    requires Stored(s)
    ensures Stored(r.server)
  {
    Retry(s, op, env, 0, RETRY_STEPS)
  }

  lemma {:induction false} EditsConcat(s: Server, a: seq<Edit>, b: seq<Edit>)
    requires Stored(s)
    ensures ApplyEdits(s, a + b) == ApplyEdits(ApplyEdits(s, a), b)
  {
    if b == [] {
      assert a + b == a;
    } else {
      var n := |b| - 1;
      assert (a + b)[..|a| + n] == a + b[..n];
      EditsConcat(s, a, b[..n]);
    }
  }

  /** The server after a call is what the others made of it, plus at most one write of the operator
      on top of their latest version. */
  ghost predicate AddsOnly(s: Server, op: Op, r: Result)
    requires Stored(s)
  {
    var base := ApplyEdits(s, r.others);
    if r.written then
      !base.gone && Wanted(op, Latest(base)).Some? && r.server == Commit(base, Wanted(op, Latest(base)).value)
    else r.server == base
  }

  lemma {:induction false} EditsPrefix(s: Server, edits: seq<Edit>)
    requires Stored(s)
    ensures s.versions <= ApplyEdits(s, edits).versions
  {
    if edits != [] {
      EditsPrefix(s, edits[..|edits| - 1]);
    }
  }

  lemma TryAddsOnly(s: Server, op: Op, a: Attempt)
    requires Stored(s)
    ensures AddsOnly(s, op, Try(s, op, a))
    ensures Try(s, op, a).verdict.Conflict? ==> !Try(s, op, a).written
  {
    EditsConcat(s, a.before, a.between);
    EditsPrefix(ApplyEdits(s, a.before), a.between);
  }

  /** Whatever the interleaving: a call never overwrites what others wrote; an error means that
      nothing was written unless a reply got lost; a success means that the operator wrote, or that a
      version it read needed no change. */
  lemma {:induction false} RetryLosesNothing(s: Server, op: Op, env: nat -> Attempt, k: nat, steps: nat)
    requires Stored(s) && k <= steps
    ensures var r := Retry(s, op, env, k, steps);
            && AddsOnly(s, op, r)
            && (r.verdict.Done? && !r.written ==>
                  || (op.RemoveFinalizer? && r.server.gone)
                  || exists o :: o in r.server.versions && Wanted(op, o).None?)
            && (!r.verdict.Done? && r.written ==> exists i :: k <= i < steps && env(i).reply == Lost)
    decreases steps - k
  {
    if k < steps {
      hide Wanted, ApplyEdits, VersionRead;
      var r := Try(s, op, env(k));
      TryAddsOnly(s, op, env(k));
      if r.verdict.Conflict? {
        RetryLosesNothing(r.server, op, env, k + 1, steps);
        EditsConcat(s, r.others, Retry(r.server, op, env, k + 1, steps).others);
      }
    }
  }

  /** A status update that succeeds leaves exactly the desired status next to the others' latest spec
      and metadata. */
  lemma StatusUpdateExact(s: Server, st: Status, env: nat -> Attempt)
    requires Stored(s)
    ensures var r := Call(s, PutStatus(st), env);
            var others := Latest(ApplyEdits(s, r.others));
            && (r.verdict.Done? ==> Latest(r.server) == others.(status := st))
            && (!r.verdict.Done? ==> Latest(r.server) == others
                                     || (&& Latest(r.server) == others.(status := st)
                                         && exists i :: 0 <= i < RETRY_STEPS && env(i).reply == Lost))
  {
    RetryLosesNothing(s, PutStatus(st), env, 0, RETRY_STEPS);
  }

  /** The occurrences of one name. */
  function Count(names: seq<string>, n: string): nat {
    if names == [] then 0 else Count(names[..|names| - 1], n) + if names[|names| - 1] == n then 1 else 0
  }

  lemma CountAppend(names: seq<string>, m: string, n: string)
    ensures Count(names + [m], n) == Count(names, n) + if m == n then 1 else 0
  {
  }

  lemma {:induction false} WithoutCount(names: seq<string>, name: string, n: string)
    ensures Count(Without(names, name), n) == if n == name then 0 else Count(names, n)
  {
    if names != [] {
      var m := |names| - 1;
      WithoutCount(names[..m], name, n);
      CountAppend(Without(names[..m], name), names[m], n);
      assert Without(names[..m], name) + [] == Without(names[..m], name);
    }
  }

  /** Adding or removing the finalizer touches that finalizer and nothing else: every finalizer
      somebody else added meanwhile is still there. */
  lemma FinalizerUpdateExact(s: Server, op: Op, env: nat -> Attempt, n: string)
    requires Stored(s) && !op.PutStatus?
    ensures var r := Call(s, op, env);
            var others, now := Latest(ApplyEdits(s, r.others)), Latest(r.server);
            && now == others.(finalizers := now.finalizers)
            && (!r.written ==> now == others)
            && (r.written && op.AddFinalizer? ==> now.finalizers == others.finalizers + [op.name])
            && (r.written && op.RemoveFinalizer? ==> Count(now.finalizers, op.name) == 0)
            && (n != op.name ==> Count(now.finalizers, n) == Count(others.finalizers, n))
  {
    RetryLosesNothing(s, op, env, 0, RETRY_STEPS);
    var others := Latest(ApplyEdits(s, Call(s, op, env).others));
    hide Call, ApplyEdits, Count, Without;
    WithoutCount(others.finalizers, op.name, op.name);
    WithoutCount(others.finalizers, op.name, n);
    CountAppend(others.finalizers, op.name, n);
  }

  /** The versions of a history agree on what a generation means. */
  ghost predicate Consistent(s: Server) {
    && Stored(s)
    && (forall i | 0 <= i < |s.versions| :: s.versions[i].spec.nodes >= 1)
    && (forall i | 0 <= i < |s.versions| :: s.versions[i].generation <= Latest(s).generation)
    && (forall i, j | 0 <= i < |s.versions| && 0 <= j < |s.versions| ::
          s.versions[i].generation == s.versions[j].generation ==> s.versions[i].spec == s.versions[j].spec)
  }

  lemma CommitConsistent(s: Server, o: Object)
    requires Consistent(s) && o.spec.nodes >= 1
    requires (o.generation == Latest(s).generation && o.spec == Latest(s).spec)
               || o.generation == Latest(s).generation + 1
    ensures Consistent(Commit(s, o))
  {
  }

  /** History only grows, and only operator writes bring in a status that was not there before. */
  ghost predicate Extends(s: Server, t: Server, added: set<Status>)
  {
    && |s.versions| <= |t.versions|
    && (forall i | 0 <= i < |s.versions| :: t.versions[i] == s.versions[i])
    && (forall i | |s.versions| <= i < |t.versions| ::
          || t.versions[i].status in added
          || exists j | 0 <= j < |s.versions| :: s.versions[j].status == t.versions[i].status)
  }

  lemma {:induction false} EditsExtend(s: Server, edits: seq<Edit>)
    requires Consistent(s)
    ensures Consistent(ApplyEdits(s, edits)) && Extends(s, ApplyEdits(s, edits), {})
    ensures Latest(ApplyEdits(s, edits)).status == Latest(s).status
  {
    if edits != [] {
      var n := |edits| - 1;
      EditsExtend(s, edits[..n]);
      var t, e := ApplyEdits(s, edits[..n]), edits[n];
      if !t.gone && e.spec.nodes >= 1 {
        CommitConsistent(t, Edited(Latest(t), e));
        assert s.versions[|s.versions| - 1].status == Latest(t).status;
      }
    }
  }

  lemma CallExtends(s: Server, op: Op, env: nat -> Attempt)
    requires Consistent(s)
    ensures var r := Call(s, op, env);
            Consistent(r.server) && Extends(s, r.server, if op.PutStatus? then {op.status} else {})
  {
    RetryLosesNothing(s, op, env, 0, RETRY_STEPS);
    var r := Call(s, op, env);
    hide Call, ApplyEdits, Consistent, Extends, Wanted;
    EditsExtend(s, r.others);
    if r.written {
      WriteExtends(s, ApplyEdits(s, r.others), op);
    } else {
      ExtendsMore(s, r.server, if op.PutStatus? then {op.status} else {});
    }
  }

  lemma ExtendsMore(s: Server, t: Server, added: set<Status>)
    requires Extends(s, t, {})
    ensures Extends(s, t, added)
  {
  }

  lemma WriteExtends(s: Server, base: Server, op: Op)
    requires Consistent(s) && Consistent(base) && Extends(s, base, {}) && Latest(base).status == Latest(s).status
    requires Wanted(op, Latest(base)).Some?
    ensures var t := Commit(base, Wanted(op, Latest(base)).value);
            Consistent(t) && Extends(s, t, if op.PutStatus? then {op.status} else {})
  {
    var o := Wanted(op, Latest(base)).value;
    CommitConsistent(base, o);
    assert s.versions[|s.versions| - 1].status == Latest(base).status;
    assert o.status == if op.PutStatus? then op.status else Latest(base).status;
  }

  /* ---------------------------------------------------------------- the calls */

  class Api {
    var versions: seq<Object>
    var gone: bool

    function View(): Server
      reads this
    {
      Server(versions, gone)
    }

    constructor (o: Object)
      ensures View() == Server([o], false)
    {
      versions, gone := [o], false;
    }

    /** Anybody else's writes. */
    method Others(edits: seq<Edit>)
      requires Stored(View())
      modifies this
      ensures View() == ApplyEdits(old(View()), edits)
    {
      for i := 0 to |edits|
        invariant Stored(View()) && View() == ApplyEdits(old(View()), edits[..i])
      {
        assert edits[..i + 1][..i] == edits[..i];
        var e := edits[i];
        if !gone && e.spec.nodes >= 1 {
          Write(Edited(versions[|versions| - 1], e));
        }
      }
      assert edits[..|edits|] == edits;
    }

    method Write(o: Object)
      modifies this
      ensures View() == Commit(old(View()), o)
    {
      versions := versions + [o];
      gone := o.deleting && o.finalizers == [];
    }

    /** retry.RetryOnConflict around one read-modify-write closure. */
    method RetryOnConflict(op: Op, env: nat -> Attempt) returns (ok: bool)
      requires Stored(View())
      modifies this
      ensures View() == Call(old(View()), op, env).server
      ensures ok == Call(old(View()), op, env).verdict.Done?
    {
      var k := 0;
      while k < RETRY_STEPS
        invariant k <= RETRY_STEPS && Stored(View())
        invariant var r, rest := Call(old(View()), op, env), Retry(View(), op, env, k, RETRY_STEPS);
                  r.server == rest.server && r.verdict == rest.verdict
      {
        var verdict := RoundTrip(op, env(k));
        if verdict != Conflict {
          return verdict.Done?;
        }
        k := k + 1;
      }
      return false;
    }

    method RoundTrip(op: Op, a: Attempt) returns (verdict: Verdict)
      requires Stored(View())
      modifies this
      ensures View() == Try(old(View()), op, a).server && verdict == Try(old(View()), op, a).verdict
    {
      Others(a.before);
      if a.get.GetFailed? {
        return Error;
      }
      var v := VersionRead(View(), a.get);
      if v.None? {
        return if op.RemoveFinalizer? then Done else Error;
      }
      var wanted := Wanted(op, versions[v.value]);
      if wanted.None? {
        return Done;
      }
      Others(a.between);
      if gone {
        return Error;
      }
      if v.value != |versions| - 1 {
        return Conflict;
      }
      if a.reply.Rejected? {
        return Error;
      }
      Write(wanted.value);
      return if a.reply.Ok() then Done else Error;
    }
  }
}
