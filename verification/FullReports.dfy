/** The Ceph cluster a plan builds out of nothing when every pod brings all its devices, and the line that
    ceph-status.sh then prints about it. */
module FullReports {
  import opened Basics
  import opened Text
  import opened KeyValue
  import opened CephSpec
  import opened CephStatus
  import opened CephScripts
  import opened HonestReports

  /* ---------------------------------------------------------------- devices */

  function Row(i: int, m: nat): (r: set<(int, int)>)
    ensures forall b :: b in r <==> b.0 == i && 0 <= b.1 < m
    ensures |r| == m
  {
    if m == 0 then {} else Row(i, m - 1) + {(i, m - 1)}
  }

  /** m devices on each of the first n pods. */
  function Grid(n: nat, m: nat): (g: set<(int, int)>)
    ensures forall b :: b in g <==> 0 <= b.0 < n && 0 <= b.1 < m
    ensures |g| == n * m
  {
    if n == 0 then {}
    else
      var g, r := Grid(n - 1, m), Row(n - 1, m);
      assert g !! r;
      g + r
  }

  function PerNode(spec: ClusterSpec): nat {
    if spec.ceph.None? then 0 else OSDsPerNode(spec.ceph.value)
  }

  /** What the volumeClaimTemplates of the spec give its pods. */
  function Blocks(spec: ClusterSpec): set<(int, int)> {
    Grid(Max(spec.nodes, 0), PerNode(spec))
  }

  /** $CEPH_OSDS_PER_NODE on its pods. */
  function PerNodeEnv(spec: ClusterSpec): map<int, int> {
    map i | i in Ordinals(spec.nodes) :: PerNode(spec)
  }

  /* ---------------------------------------------------------------- the report */

  /** Pod names, whatever the cluster is called. */
  function PodName(i: nat): string {
    "pve-" + Digits(i)
  }

  function PodNames(n: nat): (names: seq<string>)
    ensures |names| == n && forall i | 0 <= i < n :: names[i] == PodName(i)
  {
    seq(n, i requires 0 <= i => PodName(i))
  }

  /** Each name once. */
  function PoolNames(pools: seq<PoolSpec>): seq<string> {
    if pools == [] then []
    else
      var before, name := PoolNames(pools[..|pools| - 1]), pools[|pools| - 1].name;
      if name in before then before else before + [name]
  }

  lemma {:induction false} PoolNamesMeaning(pools: seq<PoolSpec>, name: string)
    ensures name in PoolNames(pools) <==> HasPool(pools, name)
    ensures forall i, j | 0 <= i < j < |PoolNames(pools)| :: PoolNames(pools)[i] != PoolNames(pools)[j]
  {
    if pools != [] {
      var n := |pools| - 1;
      PoolNamesMeaning(pools[..n], name);
      PoolNamesMeaning(pools[..n], pools[n].name);
      assert pools == pools[..n] + [pools[n]];
    }
  }

  /** Everything is up: all OSDs, the monitors and the active manager of the spec, and the pools of the spec
      whose script was mounted. */
  function FullReport(spec: ClusterSpec, mounted: ClusterSpec): Report {
    var n := Max(spec.nodes, 0) * PerNode(spec);
    Report("HEALTH_OK", n, n, PodNames(EffectiveMonCount(spec)), [PodName(0)], PoolNames(PoolsOf(mounted)), "")
  }

  ghost predicate MonsExact(names: seq<string>, mons: set<int>) {
    forall n :: n in names <==> exists i :: 0 <= i && i in mons && n == PodName(i)
  }

  ghost predicate PoolsExact(names: seq<string>, pools: map<string, PoolConfig>) {
    && (forall n :: n in names <==> n in pools)
    && (forall i, j | 0 <= i < j < |names| :: names[i] != names[j])
  }

  /** The report says of this Ceph cluster what there is to say. */
  ghost predicate Exact(r: Report, w: CephWorld) {
    && r.osdsUp == r.osdsIn == |w.osds|
    && MonsExact(r.mons, w.mons)
    && (exists i :: 0 <= i && i in w.mgrs && r.mgrs == [PodName(i)])
    && PoolsExact(r.pools, w.pools)
  }

  /* ---------------------------------------------------------------- it can be printed and read */

  predicate PoolNameChar(c: char) {
    'a' <= c <= 'z' || '0' <= c <= '9' || c == '.' || c == '_' || c == '-'
  }

  /** Pool names as the CRD schema admits them. */
  predicate WellNamed(spec: ClusterSpec) {
    forall p | p in PoolsOf(spec) :: p.name != "" && forall c | c in p.name :: PoolNameChar(c)
  }

  /** A name that survives in a list of a key=value field. */
  ghost predicate Plain(n: string) {
    ListedName(n) && '=' !in n
  }

  lemma PodNameIsPlain(i: nat)
    ensures Plain(PodName(i))
  {
    DigitsWord(i);
    var d := Digits(i);
    hide Digits;
    forall k | 0 <= k < |PodName(i)|
      ensures !IsSpace(PodName(i)[k])
    {
      if k >= 4 {
        assert PodName(i)[k] == d[k - 4];
      }
    }
  }

  lemma PoolNameIsPlain(n: string)
    requires n != "" && forall c | c in n :: PoolNameChar(c)
    ensures Plain(n)
  {
    forall k | 0 <= k < |n|
      ensures !IsSpace(n[k])
    {
      assert n[k] in n;
    }
  }

  lemma {:induction false} JoinPlain(names: seq<string>)
    requires forall n | n in names :: Plain(n)
    ensures '=' !in Join(names, ',')
  {
    assert forall i | 0 <= i < |names| :: names[i] in names;
    if |names| >= 2 {
      JoinPlain(names[1..]);
    }
  }

  lemma FullNamesPlain(spec: ClusterSpec, mounted: ClusterSpec, n: string)
    requires WellNamed(mounted)
    requires var r := FullReport(spec, mounted); n in r.mons + r.mgrs + r.pools
    ensures Plain(n)
  {
    var r := FullReport(spec, mounted);
    hide Plain, PodName, PoolsOf, EffectiveMonCount;
    PodNameIsPlain(0);
    if n in r.mons {
      var i :| 0 <= i < |r.mons| && r.mons[i] == n;
      PodNameIsPlain(i);
    }
    if n in r.pools {
      PoolNamesMeaning(PoolsOf(mounted), n);
      var p :| p in PoolsOf(mounted) && p.name == n;
      PoolNameIsPlain(n);
    }
  }

  lemma NoDetail(k: string, v: string)
    requires k != "" && k[|k| - 1] != 'l' && '=' !in k && '=' !in v
    ensures !Contains(KV(k, v), DETAIL)
  {
    var w := KV(k, v);
    forall i | 0 <= i
      ensures !OccursAt(w, DETAIL, i)
    {
      if i + 7 <= |w| {
        assert w[i..i + 7][6] == w[i + 6] && w[i..i + 7][5] == w[i + 5];
        assert DETAIL[6] == '=' && DETAIL[5] == 'l';
      }
    }
  }

  lemma FullWords(spec: ClusterSpec, mounted: ClusterSpec, w: string)
    requires WellNamed(mounted) && w in ReportWords(FullReport(spec, mounted))
    ensures !Contains(w, DETAIL)
  {
    var r := FullReport(spec, mounted);
    DigitsWord(r.osdsUp);
    forall n | n in r.mons + r.mgrs + r.pools {
      FullNamesPlain(spec, mounted, n);
    }
    assert r.health == "HEALTH_OK" && r.osdsUp == r.osdsIn;
    hide Digits, Contains, KV, FullReport, WellNamed;
    JoinPlain(r.mons);
    JoinPlain(r.mgrs);
    JoinPlain(r.pools);
    hide Join, Plain;
    var i :| 0 <= i < 6 && ReportWords(r)[i] == w;
    assert w == KV(REPORT_KEYS[i], ReportVals(r)[i]);
    NoDetail(REPORT_KEYS[i], ReportVals(r)[i]);
  }

  lemma NotNegative(a: nat, b: nat)
    ensures a * b >= 0
  {
  }

  lemma Bounded(a: nat, b: nat)
    requires a <= 0x7fff_ffff && b <= 0x7fff_ffff
    ensures a * b <= 0x7fff_ffff_ffff_ffff
  {
    NotNegative(0x7fff_ffff - a, b);
    assert (0x7fff_ffff - a) * b == 0x7fff_ffff * b - a * b;
  }

  lemma FullIsPrintable(spec: ClusterSpec, mounted: ClusterSpec)
    requires WellNamed(mounted)
    ensures Printable(FullReport(spec, mounted))
  {
    var r := FullReport(spec, mounted);
    Bounded(Max(spec.nodes, 0), PerNode(spec));
    forall n | n in r.mons + r.mgrs + r.pools {
      FullNamesPlain(spec, mounted, n);
    }
    forall w | w in ReportWords(r) {
      FullWords(spec, mounted, w);
    }
    assert r.health == "HEALTH_OK" && r.detail == "" && r.osdsUp <= 0x7fff_ffff_ffff_ffff;
    hide ReportWords, Contains, FullReport, WellNamed, ListedName;
  }

  function FullLine(spec: ClusterSpec, mounted: ClusterSpec): string {
    ReportLine(FullReport(spec, mounted))
  }

  /** Read back, the number of OSDs is the expected one, however the int32 product comes out. */
  lemma FullIsUsable(spec: ClusterSpec, mounted: ClusterSpec)
    requires WellNamed(mounted) && spec.ceph.Some? && spec.nodes >= 1 && ExpectedOSDs(spec) >= 1
    ensures CephUsable(StatusOf(spec, FullLine(spec, mounted)))
  {
    var r := FullReport(spec, mounted);
    FullIsPrintable(spec, mounted);
    assert r.health == "HEALTH_OK" && Wrap32(r.osdsUp) == ExpectedOSDs(spec);
    hide StatusOf, Printable, ReportLine, Summary, CephUsable, FullReport, ExpectedOSDs;
    StatusRoundTrip(spec, r, "", "");
    assert "" + ReportLine(r) + "" == ReportLine(r);
    AllUpIsUsable(StatusOf(spec, FullLine(spec, mounted)));
  }

  lemma AllUpIsUsable(st: CephStatus)
    requires st.initialized && st.health == "HEALTH_OK" && st.osdsReady >= st.osdsExpected > 0
    ensures CephUsable(st)
  {
  }

  lemma ExactIsHonest(spec: ClusterSpec, mounted: ClusterSpec, w: CephWorld)
    requires WellNamed(mounted) && Exact(FullReport(spec, mounted), w)
    ensures Honest(Some(FullLine(spec, mounted)), w)
  {
    var r := FullReport(spec, mounted);
    FullIsPrintable(spec, mounted);
    hide Printable, ReportLine, FullReport;
    assert "" + ReportLine(r) + "" == ReportLine(r);
    assert Printed(FullLine(spec, mounted), r, "", "");
  }

  /* ---------------------------------------------------------------- it is true */

  lemma PodNamesExact(n: nat)
    ensures MonsExact(PodNames(n), Ordinals(n))
  {
    hide PodName;
    var names := PodNames(n);
    forall x
      ensures x in names <==> exists i :: 0 <= i && i in Ordinals(n) && x == PodName(i)
    {
      if x in names {
        var i :| 0 <= i < n && names[i] == x;
        assert i in Ordinals(n);
      }
      if i :| 0 <= i && i in Ordinals(n) && x == PodName(i) {
        assert names[i] == x;
      }
    }
  }

  lemma PoolNamesExact(pools: seq<PoolSpec>)
    ensures PoolsExact(PoolNames(pools), FirstConfigs(pools))
  {
    PoolNamesMeaning(pools, "");
    forall n
      ensures n in PoolNames(pools) <==> n in FirstConfigs(pools)
    {
      PoolNamesMeaning(pools, n);
      FirstConfigsNames(pools, n);
    }
  }

  lemma AllPlanned(site: Site, spec: ClusterSpec)
    requires spec.ceph.Some? && spec.nodes >= 1
    requires site.blocks == Blocks(spec) && site.osdsPerNode == PerNodeEnv(spec)
    ensures PlannedOSDs(site, spec.nodes) == Blocks(spec) && |Blocks(spec)| == spec.nodes * PerNode(spec)
  {
  }

  /** A complete execution out of nothing, on pods that bring all their devices, builds what the report says:
      nodes times devices per node OSDs, among others. */
  lemma FullIsExact(site: Site, spec: ClusterSpec, env: nat -> Exec)
    requires spec.ceph.Some? && spec.nodes >= 1 && Completes(NO_CEPH, site, spec, env)
    requires site.blocks == Blocks(spec) && site.osdsPerNode == PerNodeEnv(spec)
    ensures var w := Execute(NO_CEPH, site, spec, env).world;
            && Exact(FullReport(spec, site.mounted), w)
            && w.osds == Blocks(spec) && |w.osds| == spec.nodes * PerNode(spec)
  {
    CompleteReachesTarget(NO_CEPH, site, spec, env);
    AllPlanned(site, spec);
    PodNamesExact(EffectiveMonCount(spec));
    PoolNamesExact(PoolsOf(site.mounted));
    TargetOfNothing(site, spec);
    hide Execute, Completes, PoolsOf, EffectiveMonCount, PodName, Blocks, Target, PerNode;
    ExactFromParts(FullReport(spec, site.mounted), Target(NO_CEPH, site, spec));
  }

  lemma TargetOfNothing(site: Site, spec: ClusterSpec)
    requires spec.ceph.Some?
    ensures var w := Target(NO_CEPH, site, spec);
            && w.mons == Ordinals(EffectiveMonCount(spec)) && 0 in w.mgrs
            && w.osds == PlannedOSDs(site, spec.nodes) && w.pools == FirstConfigs(PoolsOf(site.mounted))
  {
    hide PoolsOf, FirstConfigs, FirstContents, PlannedOSDs;
  }

  lemma ExactFromParts(r: Report, w: CephWorld)
    requires r.osdsUp == r.osdsIn == |w.osds| && MonsExact(r.mons, w.mons) && PoolsExact(r.pools, w.pools)
    requires 0 in w.mgrs && r.mgrs == [PodName(0)]
    ensures Exact(r, w)
  {
    hide PodName;
  }
}
