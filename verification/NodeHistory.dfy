/** What the stored status of a ProxmoxNode must be, told by the history of observations alone, and the
    proof that merging observation after observation keeps it so. */
module NodeHistory {
  import opened Basics
  import opened NodeStatus

  /** A freshly built status and when it was built. */
  datatype Seen = Seen(status: NodeStatus, at: Time)

  ghost predicate Observation(o: Seen) {
    && Unique(o.status.conditions)
    && o.status.phase != NoPhase
    && o.status.observedAt == Some(o.at)
    && forall c | c in o.status.conditions :: c.lastTransition == o.at
  }

  /** The status of a condition in an observation. */
  function StatusIn(o: Seen, t: string): Option<CondStatus> {
    var m := ByType(o.status.conditions);
    if t in m then Some(m[t].status) else None
  }

  /** The time of the first observation of the current unbroken run of t having its status. */
  function RunStart(h: seq<Seen>, t: string): Time
    requires h != []
  {
    var n := |h| - 1;
    if n == 0 || StatusIn(h[n - 1], t) != StatusIn(h[n], t) then h[n].at else RunStart(h[..n], t)
  }

  /** The time of the last observation that told something new. */
  function LastDiff(h: seq<Seen>): Time
    requires h != []
  {
    var n := |h| - 1;
    if n == 0 || Facts(h[n - 1].status) != Facts(h[n].status) then h[n].at else LastDiff(h[..n])
  }

  /** The stored status is the last observation, with the times of the history. */
  ghost predicate Describes(st: NodeStatus, h: seq<Seen>) {
    && h != []
    && Unique(st.conditions)
    && Facts(st) == Facts(h[|h| - 1].status)
    && st.observedAt == Some(LastDiff(h))
    && TimesMatch(st, h)
  }

  ghost predicate TimesMatch(st: NodeStatus, h: seq<Seen>)
    requires h != []
  {
    forall t | t in ByType(st.conditions) :: ByType(st.conditions)[t].lastTransition == RunStart(h, t)
  }

  lemma RunStartMeaning(h: seq<Seen>, t: string) returns (k: nat)
    requires h != []
    ensures k < |h| && RunStart(h, t) == h[k].at
    ensures forall j | k <= j < |h| :: StatusIn(h[j], t) == StatusIn(h[|h| - 1], t)
    ensures k == 0 || StatusIn(h[k - 1], t) != StatusIn(h[k], t)
  {
    var n := |h| - 1;
    if n == 0 || StatusIn(h[n - 1], t) != StatusIn(h[n], t) {
      k := n;
    } else {
      k := RunStartMeaning(h[..n], t);
      assert forall j | 0 <= j < n :: h[..n][j] == h[j];
    }
  }

  lemma LastDiffMeaning(h: seq<Seen>) returns (k: nat)
    requires h != []
    ensures k < |h| && LastDiff(h) == h[k].at
    ensures forall j | k <= j < |h| :: Facts(h[j].status) == Facts(h[|h| - 1].status)
    ensures k == 0 || Facts(h[k - 1].status) != Facts(h[k].status)
  {
    hide Facts;
    var n := |h| - 1;
    if n == 0 || Facts(h[n - 1].status) != Facts(h[n].status) {
      k := n;
    } else {
      k := LastDiffMeaning(h[..n]);
      assert forall j | 0 <= j < n :: h[..n][j] == h[j];
    }
  }

  lemma SameStatusIn(a: Seen, b: Seen, t: string)
    requires Facts(a.status) == Facts(b.status)
    ensures StatusIn(a, t) == StatusIn(b, t)
  {
    SameFactsByType(a.status, b.status);
    hide ByType, Facts;
    if t in ByType(a.status.conditions) {
      assert Timeless(ByType(a.status.conditions)[t]) == Timeless(ByType(b.status.conditions)[t]);
    }
  }

  /** With a clock that never runs backwards no condition changed after the status was last new. */
  lemma {:induction false} TransitionsBeforeObservedAt(h: seq<Seen>, t: string)
    requires h != [] && forall i, j | 0 <= i <= j < |h| :: h[i].at <= h[j].at
    ensures RunStart(h, t) <= LastDiff(h) <= h[|h| - 1].at
  {
    hide Facts, StatusIn;
    var n := |h| - 1;
    if n > 0 {
      TransitionsBeforeObservedAt(h[..n], t);
      var k := RunStartMeaning(h, t);
      if Facts(h[n - 1].status) == Facts(h[n].status) {
        SameStatusIn(h[n - 1], h[n], t);
      }
    }
  }

  lemma FirstObservation(o: Seen)
    requires Observation(o)
    ensures Describes(o.status, [o])
  {
    ByTypeFinds(o.status.conditions);
    hide ByType, Facts;
  }

  /** What the upsert of an existing object leaves as its status. */
  function Next(st: NodeStatus, desired: NodeStatus): NodeStatus {
    var m := Merged(st, desired);
    if m.changed then m.status else st
  }

  /** The times a changed merge stores. */
  lemma MergedTimes(existing: NodeStatus, desired: NodeStatus)
    ensures var e, d, m := ByType(existing.conditions), ByType(desired.conditions),
              ByType(Merged(existing, desired).status.conditions);
            && m.Keys == d.Keys
            && forall t | t in d :: m[t] == Carry(e, d[t])
  {
    hide ByType, Norm;
    ByTypeCarried(ByType(existing.conditions), desired.conditions);
  }

  lemma RunStartStep(h: seq<Seen>, o: Seen, t: string)
    requires h != []
    ensures RunStart(h + [o], t) == if StatusIn(h[|h| - 1], t) != StatusIn(o, t) then o.at else RunStart(h, t)
    ensures LastDiff(h + [o]) == if Facts(h[|h| - 1].status) != Facts(o.status) then o.at else LastDiff(h)
  {
    hide Facts, StatusIn;
    assert (h + [o])[..|h|] == h;
  }

  /** A merge starts a run exactly where the history does. */
  lemma CarryFollowsHistory(st: NodeStatus, h: seq<Seen>, o: Seen, t: string)
    requires Describes(st, h) && Observation(o) && t in ByType(o.status.conditions)
    ensures Carry(ByType(st.conditions), ByType(o.status.conditions)[t]).lastTransition == RunStart(h + [o], t)
  {
    ByTypeFinds(o.status.conditions);
    var last := h[|h| - 1];
    SameFactsByType(st, last.status);
    RunStartStep(h, o, t);
    hide ByType, Facts, Unique, RunStart;
    if t in ByType(st.conditions) {
      assert Timeless(ByType(st.conditions)[t]) == Timeless(ByType(last.status.conditions)[t]);
    }
  }

  lemma ChangedDescribes(st: NodeStatus, h: seq<Seen>, o: Seen)
    requires Describes(st, h) && Observation(o) && Merged(st, o.status).changed
    ensures Describes(Merged(st, o.status).status, h + [o])
  {
    ChangedExactly(st, o.status);
    MergedTimes(st, o.status);
    MergedObservedAt(st, o.status);
    RunStartStep(h, o, "");
    var m := Merged(st, o.status).status;
    forall t | t in ByType(m.conditions)
      ensures ByType(m.conditions)[t].lastTransition == RunStart(h + [o], t)
    {
      CarryFollowsHistory(st, h, o, t);
    }
    hide ByType, Facts, Unique, Merged, RunStart;
  }

  lemma MergedObservedAt(existing: NodeStatus, desired: NodeStatus)
    requires Merged(existing, desired).changed
    ensures Merged(existing, desired).status.observedAt == desired.observedAt
  {
  }

  lemma UnchangedDescribes(st: NodeStatus, h: seq<Seen>, o: Seen)
    requires Describes(st, h) && Observation(o) && !Merged(st, o.status).changed
    ensures Describes(st, h + [o])
  {
    ChangedExactly(st, o.status);
    var last := h[|h| - 1];
    var next := h + [o];
    assert next[..|h|] == h;
    hide ByType, Facts, Unique, Merged;
    forall t | t in ByType(st.conditions)
      ensures RunStart(next, t) == RunStart(h, t)
    {
      SameStatusIn(last, o, t);
    }
  }

  /** One more recorded observation. */
  lemma NextDescribes(st: NodeStatus, h: seq<Seen>, o: Seen)
    requires Observation(o) && if h == [] then st == EMPTY_STATUS else Describes(st, h)
    ensures Describes(Next(st, o.status), h + [o])
  {
    if h == [] {
      EmptyDiffers(o);
      assert [] + [o] == [o];
      CarriedNothing(o.status.conditions);
      FirstObservation(o);
    } else if Merged(st, o.status).changed {
      ChangedDescribes(st, h, o);
    } else {
      UnchangedDescribes(st, h, o);
    }
  }

  lemma CarriedNothing(cs: seq<NodeCondition>)
    ensures Carried(ByType([]), cs) == cs
  {
  }

  lemma EmptyDiffers(o: Seen)
    requires Observation(o)
    ensures Merged(EMPTY_STATUS, o.status).changed
  {
  }
}
