/** How the rounds of a retried call end: which interleavings with other writers it survives, and which not. */
module Retries {
  import opened Basics
  import opened ClusterApi
  import opened ApiServer

  /* ---------------------------------------------------------------- one round */

  /** A read of s returns version v. */
  predicate Returns(s: Server, get: Get, v: nat) {
    && v < |s.versions|
    && match get
       case GetFailed => false
       case Cached(i) => v == i || (i >= |s.versions| && !s.gone && v == |s.versions| - 1)
       case Fresh => !s.gone && v == |s.versions| - 1
  }

  /** This object still needs what is asked for. */
  predicate Asks(op: Op, o: Object) {
    match op
    case PutStatus(_) => true
    case AddFinalizer(f) => f !in o.finalizers
    case RemoveFinalizer(f) => f in o.finalizers
  }

  /** The server after everything others write in a round. */
  function AfterOthers(s: Server, a: Attempt): (t: Server)
    requires Stored(s)
    ensures Stored(t)
  {
    ApplyEdits(ApplyEdits(s, a.before), a.between)
  }

  /** What the round read is no longer the latest version when it wants to write. */
  ghost predicate Overtaken(s: Server, op: Op, a: Attempt)
    requires Stored(s)
  {
    var read, now := ApplyEdits(s, a.before), AfterOthers(s, a);
    !now.gone && exists v: nat :: Returns(read, a.get, v) && Asks(op, read.versions[v]) && v != |now.versions| - 1
  }

  /** The round finds nothing to do, or writes on top of the latest version and is told so. */
  ghost predicate GetsThrough(s: Server, op: Op, a: Attempt)
    requires Stored(s)
  {
    var read, now := ApplyEdits(s, a.before), AfterOthers(s, a);
    || (op.RemoveFinalizer? && !a.get.GetFailed? && forall v: nat :: !Returns(read, a.get, v))
    || exists v: nat :: Returns(read, a.get, v)
                        && (|| !Asks(op, read.versions[v])
                            || (!now.gone && v == |now.versions| - 1 && a.reply == Accepted))
  }

  lemma ReadReturns(s: Server, get: Get)
    requires Stored(s) && !get.GetFailed?
    ensures forall v: nat :: Returns(s, get, v) <==> VersionRead(s, get) == Some(v)
  {
  }

  lemma AsksMeans(op: Op, o: Object)
    ensures Asks(op, o) <==> Wanted(op, o).Some?
  {
  }

  lemma TryExactly(s: Server, op: Op, a: Attempt)
    requires Stored(s)
    ensures var r := Try(s, op, a);
            && (r.verdict.Conflict? <==> Overtaken(s, op, a))
            && (r.verdict.Done? <==> GetsThrough(s, op, a))
            && (r.verdict.Conflict? ==> r.server == AfterOthers(s, a))
            && (r.verdict.Done? && op.PutStatus? ==>
                  Latest(r.server) == Latest(AfterOthers(s, a)).(status := op.status))
  {
    var read := ApplyEdits(s, a.before);
    if !a.get.GetFailed? {
      ReadReturns(read, a.get);
      var v := VersionRead(read, a.get);
      if v.Some? {
        AsksMeans(op, read.versions[v.value]);
        EditsPrefix(read, a.between);
        hide ApplyEdits, VersionRead, Returns, Asks;
      }
    }
  }

  /* ---------------------------------------------------------------- all rounds */

  /** The server that round k meets when no round before it wrote. */
  function Met(s: Server, env: nat -> Attempt, k: nat): (t: Server)
    requires Stored(s)
    ensures Stored(t)
  {
    if k == 0 then s else AfterOthers(Met(s, env, k - 1), env(k - 1))
  }

  ghost predicate AllOvertaken(s: Server, op: Op, env: nat -> Attempt, k: nat, n: nat)
    requires Stored(s)
  {
    forall i | k <= i < n :: Overtaken(Met(s, env, i), op, env(i))
  }

  /** Round j ends the call well, after conflicts only. */
  ghost predicate SettledAt(s: Server, op: Op, env: nat -> Attempt, k: nat, j: nat)
    requires Stored(s)
  {
    GetsThrough(Met(s, env, j), op, env(j)) && AllOvertaken(s, op, env, k, j)
  }

  lemma FromNext(s: Server, op: Op, env: nat -> Attempt, k: nat, n: nat)
    requires Stored(s) && k < n
    ensures AllOvertaken(s, op, env, k, n)
            <==> Overtaken(Met(s, env, k), op, env(k)) && AllOvertaken(s, op, env, k + 1, n)
  {
    hide Overtaken, Met;
  }

  lemma SettledFromNext(s: Server, op: Op, env: nat -> Attempt, k: nat, j: nat)
    requires Stored(s) && k <= j
    ensures SettledAt(s, op, env, k, j)
            <==> if j == k then GetsThrough(Met(s, env, k), op, env(k))
                 else Overtaken(Met(s, env, k), op, env(k)) && SettledAt(s, op, env, k + 1, j)
  {
    hide Overtaken, Met, GetsThrough;
  }

  /** What the rounds from k on come to. */
  ghost predicate Ends(s: Server, op: Op, env: nat -> Attempt, k: nat, steps: nat, r: Result)
    requires Stored(s) && Stored(r.server)
  {
    && (r.verdict.Conflict? <==> AllOvertaken(s, op, env, k, steps))
    && (r.verdict.Done? <==> exists j :: k <= j < steps && SettledAt(s, op, env, k, j))
    && (forall j | k <= j < steps && SettledAt(s, op, env, k, j) && op.PutStatus? ::
          Latest(r.server) == Latest(Met(s, env, j + 1)).(status := op.status))
  }

  lemma EndsHere(s: Server, op: Op, env: nat -> Attempt, k: nat, steps: nat)
    requires Stored(s) && k < steps && !Try(Met(s, env, k), op, env(k)).verdict.Conflict?
    ensures Ends(s, op, env, k, steps, Try(Met(s, env, k), op, env(k)))
  {
    hide Overtaken, GetsThrough, Try, AfterOthers, SettledAt, AllOvertaken, Met;
    TryExactly(Met(s, env, k), op, env(k));
    FromNext(s, op, env, k, steps);
    MetNext(s, env, k);
    var r := Try(Met(s, env, k), op, env(k));
    forall j | k <= j < steps
      ensures SettledAt(s, op, env, k, j) <==> j == k && r.verdict.Done?
    {
      SettledFromNext(s, op, env, k, j);
    }
    assert r.verdict.Done? ==> SettledAt(s, op, env, k, k);
  }

  lemma MetNext(s: Server, env: nat -> Attempt, k: nat)
    requires Stored(s)
    ensures Met(s, env, k + 1) == AfterOthers(Met(s, env, k), env(k))
  {
  }

  lemma EndsLater(s: Server, op: Op, env: nat -> Attempt, k: nat, steps: nat, r: Result)
    requires Stored(s) && Stored(r.server) && k < steps && Try(Met(s, env, k), op, env(k)).verdict.Conflict?
    requires Ends(s, op, env, k + 1, steps, r)
    ensures Ends(s, op, env, k, steps, r)
  {
    hide Overtaken, GetsThrough, Try, Met, SettledAt, AllOvertaken;
    TryExactly(Met(s, env, k), op, env(k));
    FromNext(s, op, env, k, steps);
    forall j | k <= j < steps
      ensures SettledAt(s, op, env, k, j) <==> j > k && SettledAt(s, op, env, k + 1, j)
    {
      SettledFromNext(s, op, env, k, j);
    }
    if r.verdict.Done? {
      var j :| k + 1 <= j < steps && SettledAt(s, op, env, k + 1, j);
      assert SettledAt(s, op, env, k, j);
    }
  }

  lemma {:induction false} RetryExactly(s: Server, op: Op, env: nat -> Attempt, k: nat, steps: nat)
    requires Stored(s) && k <= steps
    ensures Ends(s, op, env, k, steps, Retry(Met(s, env, k), op, env, k, steps))
    decreases steps - k
  {
    if k < steps {
      hide Met, Try, Ends;
      var r := Try(Met(s, env, k), op, env(k));
      if r.verdict.Conflict? {
        TryExactly(Met(s, env, k), op, env(k));
        MetNext(s, env, k);
        RetryExactly(s, op, env, k + 1, steps);
        var next := Retry(r.server, op, env, k + 1, steps);
        EndsLater(s, op, env, k, steps, next);
        OthersAside(s, op, env, k, steps, next, r.others + next.others);
      } else {
        EndsHere(s, op, env, k, steps);
      }
    } else {
      hide Met;
    }
  }

  lemma OthersAside(s: Server, op: Op, env: nat -> Attempt, k: nat, steps: nat, r: Result, others: seq<Edit>)
    requires Stored(s) && Stored(r.server) && Ends(s, op, env, k, steps, r)
    ensures Ends(s, op, env, k, steps, r.(others := others))
  {
  }

  /** A call reports a conflict exactly if each of its rounds was overtaken; it succeeds exactly if some round within
      the bound gets through after rounds that were all overtaken, and then the object holds what was asked for, next
      to what others wrote up to that round. */
  lemma CallExactly(s: Server, op: Op, env: nat -> Attempt)
    requires Stored(s)
    ensures var r := Call(s, op, env);
            && (r.verdict.Conflict? <==> AllOvertaken(s, op, env, 0, RETRY_STEPS))
            && (r.verdict.Done? <==> exists j :: 0 <= j < RETRY_STEPS && SettledAt(s, op, env, 0, j))
            && (forall j | 0 <= j < RETRY_STEPS && SettledAt(s, op, env, 0, j) && op.PutStatus? ::
                  Latest(r.server) == Latest(Met(s, env, j + 1)).(status := op.status))
  {
    RetryExactly(s, op, env, 0, RETRY_STEPS);
    assert Met(s, env, 0) == s;
    hide SettledAt, AllOvertaken, Retry, Met;
  }

  /* ---------------------------------------------------------------- calls that settle */

  /** The object exists and is not being deleted. */
  ghost predicate Alive(s: Server) {
    Stored(s) && !s.gone && !Latest(s).deleting
  }

  ghost predicate Sparing(edits: seq<Edit>) {
    forall e | e in edits :: !e.delete
  }

  ghost predicate AllSparing(env: nat -> Attempt) {
    forall k :: Sparing(env(k).before) && Sparing(env(k).between)
  }

  /** An attempt that meets no obstacle. */
  ghost predicate SmoothAttempt(a: Attempt) {
    a.get == Fresh && a.between == [] && a.reply == Accepted
  }

  /** The first n rounds may read old versions and be overtaken, but no request of theirs fails. */
  ghost predicate Fair(env: nat -> Attempt, n: nat) {
    forall k | 0 <= k < n :: !env(k).get.GetFailed? && env(k).reply == Accepted
  }

  /** Some round within the bound meets no obstacle, and those before it fail by conflict at most. */
  ghost predicate Settles(env: nat -> Attempt) {
    exists j :: 0 <= j < RETRY_STEPS && SmoothAttempt(env(j)) && Fair(env, j)
  }

  lemma {:induction false} EditsSpare(s: Server, edits: seq<Edit>)
    requires Alive(s) && Sparing(edits)
    ensures Alive(ApplyEdits(s, edits)) && Latest(ApplyEdits(s, edits)).status == Latest(s).status
  {
    if edits != [] {
      EditsSpare(s, edits[..|edits| - 1]);
    }
  }

  lemma FairTry(s: Server, op: Op, a: Attempt)
    requires Alive(s) && Sparing(a.before) && Sparing(a.between) && !op.RemoveFinalizer?
    requires !a.get.GetFailed? && a.reply == Accepted
    ensures var r := Try(s, op, a);
            Alive(r.server) && !r.verdict.Error? && (SmoothAttempt(a) ==> r.verdict.Done?)
  {
    EditsSpare(s, a.before);
    EditsSpare(ApplyEdits(s, a.before), a.between);
    EditsPrefix(ApplyEdits(s, a.before), a.between);
    if a.between == [] {
      assert ApplyEdits(ApplyEdits(s, a.before), a.between) == ApplyEdits(s, a.before);
    }
    hide ApplyEdits, Sparing;
  }

  lemma {:induction false} SettledRetry(s: Server, op: Op, env: nat -> Attempt, k: nat, j: nat)
    requires Alive(s) && AllSparing(env) && !op.RemoveFinalizer?
    requires k <= j < RETRY_STEPS && SmoothAttempt(env(j)) && Fair(env, j)
    ensures var r := Retry(s, op, env, k, RETRY_STEPS); r.verdict.Done? && Alive(r.server)
    decreases j - k
  {
    hide Try, SmoothAttempt, Sparing;
    assert !env(k).get.GetFailed? && env(k).reply == Accepted by {
      SmoothIsFair(env(j));
    }
    FairTry(s, op, env(k));
    if k < j && Try(s, op, env(k)).verdict.Conflict? {
      SettledRetry(Try(s, op, env(k)).server, op, env, k + 1, j);
    }
  }

  lemma SmoothIsFair(a: Attempt)
    requires SmoothAttempt(a)
    ensures !a.get.GetFailed? && a.reply == Accepted
  {
  }

  /** As long as nobody deletes the object, a call that settles succeeds, however often it was overtaken. */
  lemma SettledCall(s: Server, op: Op, env: nat -> Attempt)
    requires Alive(s) && AllSparing(env) && !op.RemoveFinalizer? && Settles(env)
    ensures Call(s, op, env).verdict.Done? && Alive(Call(s, op, env).server)
  {
    var j :| 0 <= j < RETRY_STEPS && SmoothAttempt(env(j)) && Fair(env, j);
    SettledRetry(s, op, env, 0, j);
  }

  lemma SettlesAtOnce(env: nat -> Attempt)
    requires SmoothAttempt(env(0))
    ensures Settles(env)
  {
    assert Fair(env, 0);
  }

  /* ---------------------------------------------------------------- finalizers */

  ghost predicate FreshReads(env: nat -> Attempt) {
    forall k :: env(k).get == Fresh
  }

  /** A finalizer is where it was asked to be. */
  predicate InPlace(op: Op, s: Server)
    requires Stored(s)
  {
    match op
    case PutStatus(_) => true
    case AddFinalizer(f) => f in Latest(s).finalizers
    case RemoveFinalizer(f) => s.gone || f !in Latest(s).finalizers
  }

  lemma {:induction false} NotCounted(names: seq<string>, n: string)
    ensures Count(names, n) == 0 <==> n !in names
  {
    if names != [] {
      NotCounted(names[..|names| - 1], n);
      assert names == names[..|names| - 1] + [names[|names| - 1]];
    }
  }

  lemma FinalizerTry(s: Server, op: Op, a: Attempt)
    requires Stored(s) && a.get == Fresh && Try(s, op, a).verdict.Done?
    ensures InPlace(op, Try(s, op, a).server)
  {
    if op.RemoveFinalizer? {
      var o := Latest(ApplyEdits(s, a.before));
      WithoutCount(o.finalizers, op.name, op.name);
      NotCounted(Without(o.finalizers, op.name), op.name);
    }
    hide ApplyEdits, Without, Count;
  }

  lemma {:induction false} FinalizerRetry(s: Server, op: Op, env: nat -> Attempt, k: nat, steps: nat)
    requires Stored(s) && k <= steps && FreshReads(env) && Retry(s, op, env, k, steps).verdict.Done?
    ensures InPlace(op, Retry(s, op, env, k, steps).server)
    decreases steps - k
  {
    hide Try, InPlace;
    if Try(s, op, env(k)).verdict.Done? {
      FinalizerTry(s, op, env(k));
    } else {
      FinalizerRetry(Try(s, op, env(k)).server, op, env, k + 1, steps);
    }
  }

  /** With up-to-date reads, a call that succeeds leaves the finalizer in place, or gone. */
  lemma FinalizerInPlace(s: Server, op: Op, env: nat -> Attempt)
    requires Stored(s) && FreshReads(env) && Call(s, op, env).verdict.Done?
    ensures InPlace(op, Call(s, op, env).server)
  {
    FinalizerRetry(s, op, env, 0, RETRY_STEPS);
  }

  lemma ReleaseTry(s: Server, f: string, a: Attempt)
    requires Stored(s) && a.get == Fresh && a.reply == Accepted
    ensures var r := Try(s, RemoveFinalizer(f), a);
            && (r.verdict.Error? ==> r.server.gone)
            && (SmoothAttempt(a) ==> !r.verdict.Conflict?)
  {
    if a.between == [] {
      assert AfterOthers(s, a) == ApplyEdits(s, a.before);
    }
    hide ApplyEdits;
  }

  lemma {:induction false} ReleaseRetry(s: Server, f: string, env: nat -> Attempt, k: nat, j: nat)
    requires Stored(s) && FreshReads(env) && k <= j < RETRY_STEPS && SmoothAttempt(env(j)) && Fair(env, j)
    ensures InPlace(RemoveFinalizer(f), Retry(s, RemoveFinalizer(f), env, k, RETRY_STEPS).server)
    decreases j - k
  {
    hide Try, InPlace, SmoothAttempt;
    var r := Try(s, RemoveFinalizer(f), env(k));
    assert env(k).get == Fresh && env(k).reply == Accepted by {
      SmoothIsFair(env(j));
    }
    ReleaseTry(s, f, env(k));
    if r.verdict.Done? {
      FinalizerTry(s, RemoveFinalizer(f), env(k));
    } else if r.verdict.Error? {
      GoneIsReleased(f, r.server);
    } else {
      ReleaseRetry(r.server, f, env, k + 1, j);
    }
  }

  lemma GoneIsReleased(f: string, s: Server)
    requires Stored(s) && s.gone
    ensures InPlace(RemoveFinalizer(f), s)
  {
  }

  /** With up-to-date reads, a removal that settles lets go of the object, even while others delete it. */
  lemma SettledRelease(s: Server, f: string, env: nat -> Attempt)
    requires Stored(s) && FreshReads(env) && Settles(env)
    ensures InPlace(RemoveFinalizer(f), Call(s, RemoveFinalizer(f), env).server)
  {
    var j :| 0 <= j < RETRY_STEPS && SmoothAttempt(env(j)) && Fair(env, j);
    ReleaseRetry(s, f, env, 0, j);
  }
}
