/** The status of a ProxmoxNode and the decision whether a new observation is worth a write: a merge
    that carries transition times over and a comparison that ignores time and order. */
module NodeStatus {
  import opened Basics

  /** metav1.Time, in whole seconds. */
  type Time = int

  const ZERO_TIME: Time := 0

  datatype CondStatus = True | False | Unknown

  datatype NodeCondition = NodeCondition(
    ctype: string, status: CondStatus, reason: string, message: string, observedGeneration: int, lastTransition: Time)

  datatype NodePhase = NoPhase | NodePending | NodeStarting | NodeJoining | NodeReady | NodeOffline | NodeFailed

  datatype NodeCeph = NodeCeph(
    monitor: bool, manager: bool, osdsUp: int32, osdsTotal: int32, osdSummary: string, devices: seq<string>)

  datatype NodeStatus = NodeStatus(
    phase: NodePhase,
    conditions: seq<NodeCondition>,
    inCluster: bool,
    online: bool,
    corosyncNodeID: int32,
    podName: string,
    podIP: string,
    kubernetesNode: string,
    ceph: Option<NodeCeph>,
    observedAt: Option<Time>)

  /** What Create leaves: the status is a subresource and is dropped. */
  const EMPTY_STATUS := NodeStatus(NoPhase, [], false, false, 0, "", "", "", None, None)

  /* ---------------------------------------------------------------- the order of strings */

  /** Go's < on strings. */
  predicate Less(a: string, b: string) {
    if b == "" then false
    else if a == "" then true
    else if a[0] != b[0] then a[0] < b[0]
    else Less(a[1..], b[1..])
  }

  lemma {:induction false} LessIrreflexive(a: string)
    ensures !Less(a, a)
  {
    if a != "" {
      LessIrreflexive(a[1..]);
    }
  }

  lemma {:induction false} LessTransitive(a: string, b: string, c: string)
    requires Less(a, b) && Less(b, c)
    ensures Less(a, c)
  {
    if a != "" && a[0] == b[0] == c[0] {
      LessTransitive(a[1..], b[1..], c[1..]);
    }
  }

  lemma {:induction false} LessTotal(a: string, b: string)
    requires !Less(a, b) && !Less(b, a)
    ensures a == b
  {
    if a != "" && b != "" {
      LessTotal(a[1..], b[1..]);
      assert a == [a[0]] + a[1..] && b == [b[0]] + b[1..];
    }
  }

  /* ---------------------------------------------------------------- stripping and sorting in place */

  function Timeless(c: NodeCondition): NodeCondition {
    c.(lastTransition := ZERO_TIME)
  }

  function Stripped(cs: seq<NodeCondition>): (r: seq<NodeCondition>)
    ensures |r| == |cs|
  {
    seq(|cs|, i requires 0 <= i < |cs| => Timeless(cs[i]))
  }

  method StripConditionTimes(a: array<NodeCondition>)
    modifies a
    ensures a[..] == Stripped(old(a[..]))
  {
    for i := 0 to a.Length
      invariant forall k | 0 <= k < i :: a[k] == Timeless(old(a[k]))
      invariant forall k | i <= k < a.Length :: a[k] == old(a[k])
    {
      a[i] := a[i].(lastTransition := ZERO_TIME);
    }
  }

  /** c goes in behind everything that is not greater. */
  function Insert(s: seq<NodeCondition>, c: NodeCondition): (r: seq<NodeCondition>)
    ensures |r| == |s| + 1
  {
    var n := |s| - 1;
    if s == [] || !Less(c.ctype, s[n].ctype) then s + [c] else Insert(s[..n], c) + [s[n]]
  }

  function Sorted(s: seq<NodeCondition>): (r: seq<NodeCondition>)
    ensures |r| == |s|
  {
    if s == [] then [] else Insert(Sorted(s[..|s| - 1]), s[|s| - 1])
  }

  /** sort.Slice on a slice this short is an insertion sort. */
  method SortConditions(a: array<NodeCondition>)
    modifies a
    ensures a[..] == Sorted(old(a[..]))
  {
    ghost var was := a[..];
    var i := 0;
    while i < a.Length
      invariant 0 <= i <= a.Length
      invariant a[..i] == Sorted(was[..i])
      invariant forall k | i <= k < a.Length :: a[k] == was[k]
    {
      InsertAt(a, i);
      assert was[..i + 1][..i] == was[..i];
      i := i + 1;
    }
    assert a[..a.Length] == a[..] && was[..a.Length] == was;
  }

  /** Moves a[i] left, swap by swap, into the sorted part before it. */
  method InsertAt(a: array<NodeCondition>, i: nat)
    requires i < a.Length
    modifies a
    ensures a[..i + 1] == Insert(old(a[..i]), old(a[i]))
    ensures forall k | i < k < a.Length :: a[k] == old(a[k])
  {
    hide Insert, Less;
    ghost var s, c := a[..i], a[i];
    var j := i;
    while j > 0 && Less(a[j].ctype, a[j - 1].ctype)
      invariant 0 <= j <= i
      invariant forall k | 0 <= k < j :: a[k] == s[k]
      invariant a[j] == c
      invariant forall k | j < k <= i :: a[k] == s[k - 1]
      invariant forall k | i < k < a.Length :: a[k] == old(a[k])
      invariant forall k | j <= k < i :: Less(c.ctype, s[k].ctype)
    {
      a[j], a[j - 1] := a[j - 1], a[j];
      j := j - 1;
    }
    InsertWhere(s, c, j);
    Moved(a[..i + 1], s, c, j);
  }

  lemma Moved(t: seq<NodeCondition>, s: seq<NodeCondition>, c: NodeCondition, j: nat)
    requires |t| == |s| + 1 && j <= |s| && t[j] == c
    requires forall k | 0 <= k < j :: t[k] == s[k]
    requires forall k | j < k < |t| :: t[k] == s[k - 1]
    ensures t == s[..j] + [c] + s[j..]
  {
  }

  lemma {:induction false} InsertWhere(s: seq<NodeCondition>, c: NodeCondition, j: nat)
    requires j <= |s| && (j == 0 || !Less(c.ctype, s[j - 1].ctype))
    requires forall k | j <= k < |s| :: Less(c.ctype, s[k].ctype)
    ensures Insert(s, c) == s[..j] + [c] + s[j..]
  {
    var n := |s| - 1;
    if j == |s| {
      assert s[..j] == s;
    } else {
      InsertWhere(s[..n], c, j);
      assert s[..n][..j] == s[..j] && s[j..] == s[..n][j..] + [s[n]];
    }
  }

  /* ---------------------------------------------------------------- conditions by type */

  ghost predicate Unique(cs: seq<NodeCondition>) {
    forall i, j | 0 <= i < j < |cs| :: cs[i].ctype != cs[j].ctype
  }

  /** The last condition of each type. */
  function ByType(cs: seq<NodeCondition>): map<string, NodeCondition> {
    if cs == [] then map[] else ByType(cs[..|cs| - 1])[cs[|cs| - 1].ctype := cs[|cs| - 1]]
  }

  lemma {:induction false} ByTypeFinds(cs: seq<NodeCondition>)
    ensures forall t | t in ByType(cs) :: ByType(cs)[t].ctype == t && ByType(cs)[t] in cs
    ensures forall i | 0 <= i < |cs| :: cs[i].ctype in ByType(cs)
    ensures Unique(cs) ==> forall i | 0 <= i < |cs| :: ByType(cs)[cs[i].ctype] == cs[i]
  {
    if cs != [] {
      ByTypeFinds(cs[..|cs| - 1]);
    }
  }

  lemma ByTypeSnoc(cs: seq<NodeCondition>, c: NodeCondition)
    ensures ByType(cs + [c]) == ByType(cs)[c.ctype := c]
  {
  }

  lemma {:induction false} InsertByType(s: seq<NodeCondition>, c: NodeCondition)
    ensures ByType(Insert(s, c)) == ByType(s)[c.ctype := c]
  {
    var n := |s| - 1;
    if s == [] || !Less(c.ctype, s[n].ctype) {
      ByTypeSnoc(s, c);
    } else {
      InsertByType(s[..n], c);
      ByTypeSnoc(Insert(s[..n], c), s[n]);
      LessIrreflexive(c.ctype);
    }
  }

  /** Sorting keeps, for every type, the condition that counts. */
  lemma {:induction false} SortedByType(s: seq<NodeCondition>)
    ensures ByType(Sorted(s)) == ByType(s)
  {
    if s != [] {
      var n := |s| - 1;
      SortedByType(s[..n]);
      InsertByType(Sorted(s[..n]), s[n]);
    }
  }

  /** Strictly increasing types. */
  ghost predicate Ordered(cs: seq<NodeCondition>) {
    forall i, j | 0 <= i < j < |cs| :: Less(cs[i].ctype, cs[j].ctype)
  }

  lemma {:induction false} InsertOrdered(s: seq<NodeCondition>, c: NodeCondition)
    requires Ordered(s) && forall i | 0 <= i < |s| :: s[i].ctype != c.ctype
    ensures Ordered(Insert(s, c))
    ensures forall x | x in Insert(s, c) :: x in s || x == c
  {
    var n := |s| - 1;
    if s == [] {
    } else if !Less(c.ctype, s[n].ctype) {
      if !Less(s[n].ctype, c.ctype) {
        LessTotal(s[n].ctype, c.ctype);
        assert false;
      }
      forall i | 0 <= i < n {
        LessTransitive(s[i].ctype, s[n].ctype, c.ctype);
      }
    } else {
      InsertOrdered(s[..n], c);
      var r := Insert(s[..n], c);
      forall i | 0 <= i < |r|
        ensures Less(r[i].ctype, s[n].ctype)
      {
        assert r[i] in r;
      }
    }
  }

  lemma {:induction false} SortedOrdered(s: seq<NodeCondition>)
    requires Unique(s)
    ensures Ordered(Sorted(s)) && forall x | x in Sorted(s) :: x in s
  {
    if s != [] {
      var n := |s| - 1;
      SortedOrdered(s[..n]);
      var r := Sorted(s[..n]);
      forall i | 0 <= i < |r|
        ensures r[i].ctype != s[n].ctype
      {
        assert r[i] in s[..n];
      }
      InsertOrdered(r, s[n]);
    }
  }

  /** In an ordered sequence the greatest type comes last. */
  lemma LastIsGreatest(x: seq<NodeCondition>, t: string)
    requires Ordered(x) && x != [] && t in ByType(x)
    ensures t == x[|x| - 1].ctype || Less(t, x[|x| - 1].ctype)
  {
    ByTypeFinds(x);
    var i :| 0 <= i < |x| && x[i] == ByType(x)[t];
  }

  lemma OrderedUnique(x: seq<NodeCondition>)
    requires Ordered(x)
    ensures Unique(x)
  {
    forall i, j | 0 <= i < j < |x|
      ensures x[i].ctype != x[j].ctype
    {
      LessIrreflexive(x[i].ctype);
    }
  }

  /** Ordered sequences with the same conditions by type are the same. */
  lemma {:induction false} OrderedCanonical(x: seq<NodeCondition>, y: seq<NodeCondition>)
    requires Ordered(x) && Ordered(y) && ByType(x) == ByType(y)
    ensures x == y
  {
    if x == [] || y == [] {
      EmptyByType(x);
      EmptyByType(y);
    } else {
      var m, n := |x| - 1, |y| - 1;
      SameLast(x, y);
      OrderedUnique(x);
      OrderedUnique(y);
      ByTypeInit(x);
      ByTypeInit(y);
      hide ByType;
      OrderedCanonical(x[..m], y[..n]);
      assert x == x[..m] + [x[m]] && y == y[..n] + [y[n]];
    }
  }

  lemma SameLast(x: seq<NodeCondition>, y: seq<NodeCondition>)
    requires Ordered(x) && Ordered(y) && ByType(x) == ByType(y) && x != [] && y != []
    ensures x[|x| - 1] == y[|y| - 1]
  {
    var a, b := x[|x| - 1], y[|y| - 1];
    ByTypeFinds(x);
    ByTypeFinds(y);
    LastIsGreatest(x, b.ctype);
    LastIsGreatest(y, a.ctype);
    if a.ctype != b.ctype {
      LessTransitive(a.ctype, b.ctype, a.ctype);
      LessIrreflexive(a.ctype);
      assert false;
    }
    OrderedUnique(x);
    OrderedUnique(y);
  }

  lemma EmptyByType(x: seq<NodeCondition>)
    ensures ByType(x) == map[] <==> x == []
  {
    if x != [] {
      assert x[|x| - 1].ctype in ByType(x);
    }
  }

  lemma NotBefore(p: seq<NodeCondition>, l: NodeCondition)
    requires Unique(p + [l])
    ensures Unique(p) && l.ctype !in ByType(p)
  {
    ByTypeFinds(p);
    var x := p + [l];
    forall i | 0 <= i < |p|
      ensures p[i].ctype != l.ctype
    {
      assert x[i] == p[i] && x[|p|] == l;
    }
    forall i, j | 0 <= i < j < |p|
      ensures p[i].ctype != p[j].ctype
    {
      assert x[i] == p[i] && x[j] == p[j];
    }
  }

  lemma Undo<K, V>(m: map<K, V>, k: K, v: V)
    requires k !in m
    ensures m[k := v] - {k} == m
  {
  }

  lemma ByTypeInit(x: seq<NodeCondition>)
    requires Unique(x) && x != []
    ensures ByType(x[..|x| - 1]) == ByType(x) - {x[|x| - 1].ctype}
  {
    hide ByType, Unique;
    var n := |x| - 1;
    var p, l := x[..n], x[n];
    assert x == p + [l];
    ByTypeSnoc(p, l);
    NotBefore(p, l);
    Undo(ByType(p), l.ctype, l);
  }

  /** With unique types, sorting is a normal form: two sequences sort to the same exactly if they hold
      the same condition for every type. */
  lemma SortedNormalForm(a: seq<NodeCondition>, b: seq<NodeCondition>)
    requires Unique(a) && Unique(b)
    ensures Sorted(a) == Sorted(b) <==> ByType(a) == ByType(b)
  {
    SortedByType(a);
    SortedByType(b);
    SortedOrdered(a);
    SortedOrdered(b);
    if ByType(a) == ByType(b) {
      OrderedCanonical(Sorted(a), Sorted(b));
    }
  }

  /** Permutations sort to the same. */
  lemma PermutationsSortAlike(a: seq<NodeCondition>, b: seq<NodeCondition>)
    requires Unique(a) && Unique(b) && forall c :: c in a <==> c in b
    ensures Sorted(a) == Sorted(b)
  {
    ByTypeFinds(a);
    ByTypeFinds(b);
    forall t
      ensures t in ByType(a) <==> t in ByType(b)
      ensures t in ByType(a) && t in ByType(b) ==> ByType(a)[t] == ByType(b)[t]
    {
      if t in ByType(a) {
        assert ByType(a)[t] in b;
      }
      if t in ByType(b) {
        assert ByType(b)[t] in a;
      }
    }
    SortedNormalForm(a, b);
  }

  /* ---------------------------------------------------------------- comparing */

  /** A status without time and order. */
  function Norm(st: NodeStatus): NodeStatus {
    st.(observedAt := None, conditions := Sorted(Stripped(st.conditions)))
  }

  method NodeStatusEquivalent(a: NodeStatus, b: NodeStatus) returns (equal: bool)
    ensures equal == (Norm(a) == Norm(b))
  {
    var ca := new NodeCondition[|a.conditions|](i requires 0 <= i < |a.conditions| => a.conditions[i]);
    var cb := new NodeCondition[|b.conditions|](i requires 0 <= i < |b.conditions| => b.conditions[i]);
    assert ca[..] == a.conditions && cb[..] == b.conditions;
    StripConditionTimes(ca);
    StripConditionTimes(cb);
    SortConditions(ca);
    SortConditions(cb);
    equal := a.(observedAt := None, conditions := ca[..]) == b.(observedAt := None, conditions := cb[..]);
  }

  /** What a status says, told without sorting: its fields and its condition for every type, times aside. */
  function Facts(st: NodeStatus): (NodeStatus, map<string, NodeCondition>) {
    (st.(observedAt := None, conditions := []), ByType(Stripped(st.conditions)))
  }

  lemma StrippedUnique(cs: seq<NodeCondition>)
    requires Unique(cs)
    ensures Unique(Stripped(cs))
  {
  }

  /** The comparison is exact: equal up to time and order means the same facts, so it is an equivalence
      that neither time nor order can disturb. */
  lemma EquivalentIsSameFacts(a: NodeStatus, b: NodeStatus)
    requires Unique(a.conditions) && Unique(b.conditions)
    ensures Norm(a) == Norm(b) <==> Facts(a) == Facts(b)
  {
    StrippedUnique(a.conditions);
    StrippedUnique(b.conditions);
    SortedNormalForm(Stripped(a.conditions), Stripped(b.conditions));
    hide ByType, Unique, Sorted, Stripped;
    assert Facts(a).0 == Norm(a).(conditions := []) && Facts(b).0 == Norm(b).(conditions := []);
    assert Norm(a) == Facts(a).0.(conditions := Sorted(Stripped(a.conditions)));
    assert Norm(b) == Facts(b).0.(conditions := Sorted(Stripped(b.conditions)));
  }

  /* ---------------------------------------------------------------- merging */

  /** A condition keeps its transition time as long as its status stays. */
  function Carry(prev: map<string, NodeCondition>, c: NodeCondition): NodeCondition {
    if c.ctype in prev && prev[c.ctype].status == c.status then
      c.(lastTransition := prev[c.ctype].lastTransition)
    else
      c
  }

  function Carried(prev: map<string, NodeCondition>, cs: seq<NodeCondition>): (r: seq<NodeCondition>)
    ensures |r| == |cs|
  {
    seq(|cs|, i requires 0 <= i < |cs| => Carry(prev, cs[i]))
  }

  datatype Merge = Merge(status: NodeStatus, changed: bool)

  function Merged(existing: NodeStatus, desired: NodeStatus): Merge {
    var m := desired.(conditions := Carried(ByType(existing.conditions), desired.conditions));
    if Norm(existing) == Norm(m) then Merge(m.(observedAt := existing.observedAt), false) else Merge(m, true)
  }

  method MergeNodeStatus(existing: NodeStatus, desired: NodeStatus) returns (merged: NodeStatus, changed: bool)
    ensures Merge(merged, changed) == Merged(existing, desired)
  {
    var prev: map<string, NodeCondition> := map[];
    for i := 0 to |existing.conditions|
      invariant prev == ByType(existing.conditions[..i])
    {
      assert existing.conditions[..i + 1][..i] == existing.conditions[..i];
      prev := prev[existing.conditions[i].ctype := existing.conditions[i]];
    }
    assert existing.conditions[..|existing.conditions|] == existing.conditions;
    var n := |desired.conditions|;
    var cs := new NodeCondition[n](i requires 0 <= i < n => desired.conditions[i]);
    for i := 0 to n
      invariant forall k | 0 <= k < i :: cs[k] == Carry(prev, desired.conditions[k])
      invariant forall k | i <= k < n :: cs[k] == desired.conditions[k]
    {
      if cs[i].ctype in prev && prev[cs[i].ctype].status == cs[i].status {
        cs[i] := cs[i].(lastTransition := prev[cs[i].ctype].lastTransition);
      }
    }
    assert cs[..] == Carried(prev, desired.conditions);
    merged := desired.(conditions := cs[..]);
    var equivalent := NodeStatusEquivalent(existing, merged);
    changed := !equivalent;
    if !changed {
      merged := merged.(observedAt := existing.observedAt);
    }
  }

  lemma CarriedStrips(prev: map<string, NodeCondition>, cs: seq<NodeCondition>)
    ensures Stripped(Carried(prev, cs)) == Stripped(cs)
  {
  }

  lemma CarriedUnique(prev: map<string, NodeCondition>, cs: seq<NodeCondition>)
    requires Unique(cs)
    ensures Unique(Carried(prev, cs))
  {
  }

  /** A merge asks for a write exactly if the observation tells something new, whatever the times. */
  lemma ChangedExactly(existing: NodeStatus, desired: NodeStatus)
    requires Unique(existing.conditions) && Unique(desired.conditions)
    ensures Merged(existing, desired).changed <==> Facts(existing) != Facts(desired)
    ensures Facts(Merged(existing, desired).status) == Facts(desired)
              && Unique(Merged(existing, desired).status.conditions)
  {
    var prev := ByType(existing.conditions);
    CarriedStrips(prev, desired.conditions);
    CarriedUnique(prev, desired.conditions);
    hide ByType, Unique, Carried, Sorted, Stripped;
    EquivalentIsSameFacts(existing, desired.(conditions := Carried(prev, desired.conditions)));
  }

  lemma {:induction false} ByTypeStripped(cs: seq<NodeCondition>)
    ensures ByType(Stripped(cs)) == map t | t in ByType(cs) :: Timeless(ByType(cs)[t])
  {
    if cs != [] {
      var n := |cs| - 1;
      ByTypeStripped(cs[..n]);
      assert Stripped(cs) == Stripped(cs[..n]) + [Timeless(cs[n])];
      hide ByType, Stripped;
      ByTypeSnoc(Stripped(cs[..n]), Timeless(cs[n]));
      ByTypeSnoc(cs[..n], cs[n]);
      assert cs == cs[..n] + [cs[n]];
    }
  }

  lemma CarriedSnoc(prev: map<string, NodeCondition>, cs: seq<NodeCondition>, c: NodeCondition)
    ensures ByType(Carried(prev, cs + [c])) == ByType(Carried(prev, cs))[c.ctype := Carry(prev, c)]
  {
    assert Carried(prev, cs + [c]) == Carried(prev, cs) + [Carry(prev, c)];
    hide ByType, Carried;
    ByTypeSnoc(Carried(prev, cs), Carry(prev, c));
  }

  lemma {:induction false} ByTypeCarried(prev: map<string, NodeCondition>, cs: seq<NodeCondition>)
    ensures ByType(Carried(prev, cs)) == map t | t in ByType(cs) :: Carry(prev, ByType(cs)[t])
  {
    if cs != [] {
      var n := |cs| - 1;
      assert cs == cs[..n] + [cs[n]];
      hide ByType, Carried, Carry;
      ByTypeCarried(prev, cs[..n]);
      CarriedSnoc(prev, cs[..n], cs[n]);
      ByTypeSnoc(cs[..n], cs[n]);
    }
  }

  /** Same facts, type by type. */
  lemma SameFactsByType(a: NodeStatus, b: NodeStatus)
    requires Facts(a) == Facts(b)
    ensures ByType(a.conditions).Keys == ByType(b.conditions).Keys
    ensures forall t | t in ByType(a.conditions) ::
              Timeless(ByType(a.conditions)[t]) == Timeless(ByType(b.conditions)[t])
  {
    ByTypeStripped(a.conditions);
    ByTypeStripped(b.conditions);
    hide ByType, Stripped;
    forall t
      ensures t in ByType(a.conditions) <==> t in ByType(b.conditions)
      ensures t in ByType(a.conditions) ==> Timeless(ByType(a.conditions)[t]) == Timeless(ByType(b.conditions)[t])
    {
      assert t in ByType(a.conditions) <==> t in Facts(a).1;
      assert t in ByType(b.conditions) <==> t in Facts(b).1;
    }
  }

  /** When nothing changed, carrying the stored times over gives the stored conditions, type by type. */
  lemma UnchangedConditions(existing: NodeStatus, desired: NodeStatus)
    requires Facts(existing) == Facts(desired)
    ensures var e := ByType(existing.conditions); ByType(Carried(e, desired.conditions)) == e
  {
    var e, d := ByType(existing.conditions), ByType(desired.conditions);
    hide ByType, Carried, Stripped, Facts;
    SameFactsByType(existing, desired);
    ByTypeCarried(e, desired.conditions);
    ByTypeFinds(existing.conditions);
    ByTypeFinds(desired.conditions);
    forall t | t in e
      ensures t in d && Carry(e, d[t]) == e[t]
    {
      assert Timeless(e[t]) == Timeless(d[t]);
    }
  }

  /** When nothing changed, the merged status is the stored one up to the order of its conditions,
      every time included. */
  lemma UnchangedIsStored(existing: NodeStatus, desired: NodeStatus)
    requires Unique(existing.conditions) && Unique(desired.conditions)
    requires !Merged(existing, desired).changed
    ensures var m := Merged(existing, desired).status;
            m.(conditions := Sorted(m.conditions)) == existing.(conditions := Sorted(existing.conditions))
  {
    hide ByType, Unique, Sorted, Carried, Norm, Stripped;
    ChangedExactly(existing, desired);
    UnchangedConditions(existing, desired);
    SameRest(existing, desired);
    SortedNormalForm(Merged(existing, desired).status.conditions, existing.conditions);
  }

  lemma SameRest(a: NodeStatus, b: NodeStatus)
    requires Facts(a) == Facts(b)
    ensures a.(conditions := [], observedAt := None) == b.(conditions := [], observedAt := None)
  {
  }

  /** Seeing the same again, at whatever time and in whatever order, is no reason to write. */
  lemma RemergeUnchanged(existing: NodeStatus, desired: NodeStatus, again: NodeStatus)
    requires Unique(existing.conditions) && Unique(desired.conditions) && Unique(again.conditions)
    requires Facts(again) == Facts(desired)
    ensures !Merged(Merged(existing, desired).status, again).changed
  {
    ChangedExactly(existing, desired);
    ChangedExactly(Merged(existing, desired).status, again);
  }
}
