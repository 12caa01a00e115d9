/** How the pools of a Ceph cluster are configured: as the spec says whose script created them, so that every pool
    there ever is can place its replicas on the OSDs that spec expects. */
module PoolConfigs {
  import opened Basics
  import opened Text
  import opened CephSpec
  import opened CephScripts
  import opened ClusterApi
  import opened ApiServer
  import opened Reconcile
  import opened Safety
  import opened StaleScripts

  /* ---------------------------------------------------------------- one execution */

  /** Pool p has been created as it is: size for size, minimum for minimum. */
  predicate CreatedAs(c: PoolConfig, p: PoolSpec) {
    c.size == p.size && c.minSize == p.minSize && c.pgNum == p.pgNum
  }

  /** The contents of p's storage: what is listed, joined by commas, or images and root directories. */
  predicate StoredAs(content: string, p: PoolSpec) {
    content == if Join(p.content, ',') == "" then "images,rootdir" else Join(p.content, ',')
  }

  predicate FirstOfItsName(pools: seq<PoolSpec>, k: nat) {
    k < |pools| && forall j | 0 <= j < k :: pools[j].name != pools[k].name
  }

  /** The first of its name that asks for a storage. */
  predicate FirstToStore(pools: seq<PoolSpec>, k: nat) {
    && k < |pools| && pools[k].addAsStorage != Some(false)
    && forall j | 0 <= j < k :: pools[j].addAsStorage != Some(false) ==> pools[j].name != pools[k].name
  }

  /** A complete execution creates every pool of the mounted spec that is not there yet as its first mention says, and
      its storage as the first mention that asks for one says. What was there stays; nothing else is created. */
  lemma CompleteConfigures(w: CephWorld, site: Site, spec: ClusterSpec, env: nat -> Exec, k: nat)
    requires spec.ceph.Some? && spec.nodes >= 1 && Completes(w, site, spec, env)
    requires k < |PoolsOf(site.mounted)|
    ensures var v, pools := Execute(w, site, spec, env).world, PoolsOf(site.mounted);
            var p := pools[k];
            && p.name in v.pools
            && (p.name in w.pools ==> v.pools[p.name] == w.pools[p.name])
            && (p.name !in w.pools && FirstOfItsName(pools, k) ==> CreatedAs(v.pools[p.name], p))
            && (p.name in w.storages ==> p.name in v.storages && v.storages[p.name] == w.storages[p.name])
            && (p.name !in w.storages && FirstToStore(pools, k) ==>
                  p.name in v.storages && StoredAs(v.storages[p.name], p))
            && (p.name !in w.storages && p.name in v.storages ==>
                  exists j | 0 <= j < |pools| :: pools[j].name == p.name && pools[j].addAsStorage != Some(false))
  {
    CompleteReachesTarget(w, site, spec, env);
    hide Execute, Completes, PoolsOf;
    var pools := PoolsOf(site.mounted);
    FirstNames(pools);
    FirstConfigsNames(pools, pools[k].name);
    assert pools[k] in pools;
    if FirstOfItsName(pools, k) {
      FirstMeaning(pools, k);
    }
    if FirstToStore(pools, k) {
      FirstContentMeaning(pools, k);
    }
    hide FirstConfigs, FirstContents;
  }

  /* ---------------------------------------------------------------- runs */

  /** Some pool of this name is configured like this in the spec. */
  ghost predicate Configures(spec: ClusterSpec, name: string, c: PoolConfig) {
    exists p | p in PoolsOf(spec) :: p.name == name && CreatedAs(c, p)
  }

  lemma {:induction false} FirstConfigsFrom(pools: seq<PoolSpec>, name: string)
    requires name in FirstConfigs(pools)
    ensures exists p | p in pools :: p.name == name && CreatedAs(FirstConfigs(pools)[name], p)
  {
    var n := |pools| - 1;
    assert pools == pools[..n] + [pools[n]];
    if name in FirstConfigs(pools[..n]) {
      FirstConfigsFrom(pools[..n], name);
    }
  }

  /** No execution, complete or not, creates a pool in any other way than the mounted script says. */
  lemma WalkConfigures(w: CephWorld, site: Site, spec: ClusterSpec, env: nat -> Exec, name: string)
    requires spec.nodes >= 1
    ensures var v := Execute(w, site, spec, env).world;
            && (name in w.pools ==> name in v.pools && v.pools[name] == w.pools[name])
            && (name in v.pools && name !in w.pools ==> Configures(site.mounted, name, v.pools[name]))
  {
    if spec.ceph.Some? {
      WalkAims(w, site, site, spec, |Plan(spec)|, env);
      WalkKeeps(w, site, spec, |Plan(spec)|, env);
      var v := Execute(w, site, spec, env).world;
      hide Execute, PoolsOf, Plan, FirstConfigs, FirstContents;
      assert Target(v, site, spec).pools == Target(w, site, spec).pools;
      if name in v.pools && name !in w.pools {
        var configs := FirstConfigs(PoolsOf(site.mounted));
        assert name in configs && configs[name] == Target(w, site, spec).pools[name] == v.pools[name];
        FirstConfigsFrom(PoolsOf(site.mounted), name);
      }
    }
  }

  /** Pool `name` has the configuration that an admissible stored spec gives it. */
  ghost predicate ConfiguredByStored(versions: seq<Object>, name: string, c: PoolConfig) {
    exists i | 0 <= i < |versions| :: Admissible(versions[i].spec) && Configures(versions[i].spec, name, c)
  }

  lemma ConfiguredStays(s: Server, t: Server, name: string, c: PoolConfig)
    requires s.versions <= t.versions && ConfiguredByStored(s.versions, name, c)
    ensures ConfiguredByStored(t.versions, name, c)
  {
    hide Admissible, Configures;
    var i :| 0 <= i < |s.versions| && Admissible(s.versions[i].spec) && Configures(s.versions[i].spec, name, c);
    assert t.versions[i] == s.versions[i];
  }

  /** What the pass found mounted is a stored spec that had passed validation. */
  lemma MountedIsAdmissible(versions: seq<Object>, mount: Mount, c: Local, t: seq<Object>)
    requires versions <= t && Admissible(c.spec) && exists i | 0 <= i < |t| :: t[i].spec == c.spec
    ensures exists i | 0 <= i < |t| :: Admissible(t[i].spec) && t[i].spec == MountedSpec(versions, mount, c.spec)
  {
    hide Admissible;
    if mount.Rendered? && mount.version < |versions| && Admissible(versions[mount.version].spec) {
      assert t[mount.version] == versions[mount.version];
    } else {
      var i :| 0 <= i < |t| && t[i].spec == c.spec;
      assert Admissible(t[i].spec);
    }
  }

  lemma PassConfigures(sys: System, e: Env, name: string)
    requires Good(sys)
    ensures Consistent(sys.server)
    ensures var v, w, t := sys.world.ceph, Pass(sys, e).world.ceph, Pass(sys, e).server;
            && (name in v.pools ==> name in w.pools && w.pools[name] == v.pools[name])
            && (name in w.pools && name !in v.pools ==> ConfiguredByStored(t.versions, name, w.pools[name]))
  {
    hide Good, Pass, Admitted, ReadCopy, UpdateStatus, Execute, Admissible, ApplyEdits, WorldGrows, MountedSpec,
         Configures;
    GoodParts(sys);
    if Pass(sys, e).world != sys.world {
      ActsOnlyAnnounced(sys, e);
      PassKeeps(sys, e);
      ReadIsStored(sys, e);
      var p := Opening(Admitted(sys, e), ReadCopy(sys, e).value, e);
      if p.local.status.phase == ConfiguringCeph {
        WalkConfigures(sys.world.ceph, SiteOf(p.sys, p.local, e), p.local.spec, e.ceph, name);
        MountedIsAdmissible(p.sys.server.versions, e.mount, p.local, Pass(sys, e).server.versions);
      }
    }
  }

  /** In every reachable state every pool is configured as an admissible stored spec says, so its minimum is at most
      its size, and its size at most the number of OSDs that spec expects. */
  lemma {:induction false} PoolsConfigured(start: System, envs: seq<Env>, sys: System, name: string)
    requires Initial(start) && LeadsTo(start, envs, sys) && name in sys.world.ceph.pools
    ensures var c := sys.world.ceph.pools[name];
            && ConfiguredByStored(sys.server.versions, name, c)
            && exists i | 0 <= i < |sys.server.versions| ::
                 var spec := sys.server.versions[i].spec;
                 Configures(spec, name, c) && c.minSize <= c.size <= ExpectedOSDs(spec)
    decreases |envs|
  {
    if envs != [] {
      hide Good, Pass, ConfiguredByStored, Configures, ExpectedOSDs, Initial;
      var n := |envs| - 1;
      var before := Run(start, envs[..n]);
      GoodParts(before);
      PassKeeps(before, envs[n]);
      PassConfigures(before, envs[n], name);
      if name in before.world.ceph.pools {
        PoolsConfigured(start, envs[..n], before, name);
        ConfiguredStays(before.server, sys.server, name, sys.world.ceph.pools[name]);
      }
      ConfiguredFits(sys.server.versions, name, sys.world.ceph.pools[name]);
    }
  }

  lemma ConfiguredFits(versions: seq<Object>, name: string, c: PoolConfig)
    requires ConfiguredByStored(versions, name, c)
    ensures exists i | 0 <= i < |versions| ::
              Configures(versions[i].spec, name, c) && c.minSize <= c.size <= ExpectedOSDs(versions[i].spec)
  {
    hide ExpectedOSDs, PoolsOf;
    var i :| 0 <= i < |versions| && Admissible(versions[i].spec) && Configures(versions[i].spec, name, c);
    var p :| p in PoolsOf(versions[i].spec) && p.name == name && CreatedAs(c, p);
    NoCephNoPools(versions[i].spec, p);
    assert PoolFits(p, ExpectedOSDs(versions[i].spec));
  }

  lemma NoCephNoPools(spec: ClusterSpec, p: PoolSpec)
    requires p in PoolsOf(spec)
    ensures spec.ceph.Some?
  {
  }
}
