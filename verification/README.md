# The Multiprox operator, verified

The operator under `kubernetes/operator/` is a level-triggered reconciler. It forms a Proxmox cluster out of
pods, brings up Ceph in it, and projects every node onto a read-only object. It works through scripts that may
fail before, in the middle of or after their effect, keeps its progress in a status object that others write
next to it, and may die at any point. This project models that in Dafny and proves what holds anyway.

Four parts, bottom up:

- **The Ceph plan and its admission** (`CephSpec`), **what the scripts do** (`CephScripts`). A script run is a
  guarded monotone update of a world of monitors, managers, OSDs, pools and storages. Each changing tool call is
  accepted, rejected, or takes effect while the caller sees an error. `CephReplays` is about running the plan
  again, `PoolConfigs` about how pools are configured.
- **The text protocols** (`Text`, `KeyValue`, `CephStatus`, `Inventory`, `OSDCount`, `OSDTrees`): strings are
  character sequences, with splitting, trimming, fields, cutting and number parsing written out.
- **The reconciler.** `ClusterApi` and `ApiServer` hold the object with all versions ever stored and the
  read-modify-write calls, `Retries` says exactly when their retries end well. `Reconcile` defines one pass as a
  step over object, Proxmox cluster and Ceph cluster, for every answer the surroundings can give. `Reconciler`
  is the imperative pass, proved to be that step. `PassReports` and `CephReports` spell out, case by case, what
  a pass leaves persisted. `Safety` proves what every run keeps, `HonestReports` what more it keeps when
  ceph-status.sh tells the truth, `Progress` how it gets to Ready and when it never does. `CephPasses` follows a
  single pass through its plan, `FullReports` prints the truth about a complete Ceph cluster, and `GoodRuns`
  builds runs that become Ready with it. `Scaling` is about raising `spec.nodes`, `DeviceLayouts` about
  `osdsPerNode`, `StaleReads` about old first reads, `StaleScripts` about old mounted scripts.
- **The projection.** `NodeStatus` merges and compares in place, `NodeHistory` says what the stored status must
  be in terms of the history of observations alone, `Nodes` builds the desired object, `NodeStore` is the store
  and its pass, `NodePasses` what passes achieve, `NodeReports` what the objects then tell.

Methods carry the loops and updates of the source and are proved equal to specification functions; the lemmas
are about these functions.

Assumptions. Built into the definitions:

- An edit that sets `spec.nodes` below 1 is refused, as the CRD schema enforces (`ApiServer.ApplyEdit`).
- /etc/pve/ceph.conf is seen exactly by the pods that are cluster members (`CephScripts.SeesConf`).
- Cluster members never leave, and nobody but the scripts changes the Ceph cluster: no step does either.
- Scripts come from a ConfigMap volume (`statefulset.go:165`, `183-191`) that the kubelet refreshes only after a
  while. The ceph-pool.sh a pass runs may be that of any stored spec that passed validation, which comes before
  rendering (`Reconcile.MountedSpec`); a Ceph script that is not there yet is an exec that does not start.
- Every pass may find other devices on the pods, and ceph-status.sh may print anything.

Hypotheses of the statements that need them:

- A first read may be stale in everything `Safety` says. `Progress` needs it to be up to date; `StaleReads`
  proves exactly which stale reads do harm. `NodeStore` assumes up-to-date gets of single objects and that
  conditions are a map by type, as the CRD schema enforces.
- Reports are honest (`HonestReports.HonestRun`): what ceph-status.sh prints in a pass has been printed in its
  format and counts no more OSDs up than exist then. The runs shown to exist print more than that: exactly the
  OSDs, monitors, active manager and pools that there are (`FullReports.Exact`).
- Pool names are as the CRD schema admits them (`proxmoxcluster_types.go:239`) where they are printed
  (`FullReports.WellNamed`).

Four places where the code does less than the repository's documentation or its own conditions suggest; the
model follows the code:

- `kubernetes/README.md:381-393` says that raising `spec.nodes` makes the new pods join. `AllNodesJoined` is set
  once and never cleared, so after that no join script runs. A cluster without Ceph is reported Ready all the
  same (`Scaling.ReadyMeansAllMembers`); one with Ceph does not become Ready again while its spec stays so and
  first reads are up to date, because ceph-osd.sh fails on the new pods (`Progress.RaisedCephNeverReady`).
- `kubernetes/README.md:372-375` says that changing `osdsPerNode` has no effect on a running cluster. The
  devices stay as they are, but the operator waits for the OSDs of the new number: raised beyond the devices
  there are, the cluster does not become Ready for that spec (`DeviceLayouts.ReadyFitsLayout`,
  `DeviceLayouts.LayoutDecides`).
- CephPoolsReady and Ready may be reported for a spec whose new pools nobody has created, because the pass ran
  the script that was mounted before (`StaleScripts.ReadyMeansAllPools`).
- `kubernetes/README.md:333` says a `monCount` above `spec.nodes` is rejected. It is capped; only an even one is
  rejected (`CephSpec.ValidateCeph`).

## Model

| member | source | states |
|---|---|---|
| `CephSpec.ClampCount` | kubernetes/operator/internal/resources/ceph.go:299-310 | the default replaces an unset count, the cap wins over both, and the result is at least 1 |
| `CephSpec.MonCountIsBestOdd` | kubernetes/operator/internal/resources/ceph.go:138-147 | the monitor count is the largest odd number within the request and the node count, asking for it again gives it back, and snapping down to odd costs no tolerated failure |
| `CephSpec.EffectivePools` | kubernetes/operator/internal/resources/configmap.go:640-673 | the loop yields, pool by pool and in order, the requested pools (or the one default pool) with every unset field defaulted |
| `CephSpec.EffectivePoolsIdempotent` | kubernetes/operator/internal/resources/configmap.go:640-673 | feeding the effective pools back as the request changes nothing; names and order stay; no field is left unset |
| `CephSpec.PoolDefaults` | kubernetes/operator/internal/resources/configmap.go:640-673 | what a user gets who leaves things unset: three replicas, one fewer to serve from but at least one, images and root directories; without any pools one named ceph-vm with as many replicas as there are OSDs, up to three |
| `CephSpec.CountDefaults` | kubernetes/operator/internal/resources/ceph.go:119-156 | two managers unless asked otherwise and no more than nodes; osdsPerNode below 1 counts as 1 in the expected OSDs |
| `CephSpec.ValidateCeph` | kubernetes/operator/internal/resources/ceph.go:171-209 | accepts exactly the specs whose monCount is unset or odd and whose every effective pool has minSize ≤ size ≤ OSDs; blames monCount exactly if it is set and even, otherwise the first pool that does not fit and the bound it breaks |
| `CephSpec.DefaultPoolAdmission` | kubernetes/operator/internal/resources/ceph.go:171-209 | with no pools given, admission depends only on the (wrapping) product of nodes and OSDs per node being positive, so every cluster whose product does not overflow is accepted |
| `CephSpec.DefaultPoolOverflow` | kubernetes/operator/internal/resources/ceph.go:120-125 | a spec within the CRD minimums whose int32 product wraps to 0 is rejected: the hypothesis of the previous row is needed |
| `CephSpec.CephPlan` | kubernetes/operator/internal/resources/ceph.go:69-110 | the three appending loops build init, monitors, managers, OSDs and pools in that order |
| `CephSpec.PlanTasks` | kubernetes/operator/internal/resources/ceph.go:69-110 | the plan has 2 + mons + mgrs + nodes tasks, and which task stands at each index |
| `CephSpec.PlanShape` | kubernetes/operator/internal/resources/ceph.go:69-110 | the plan is sorted by stage, names no (step, ordinal) twice and no ordinal at or above nodes |
| `CephSpec.PlanCovers` | kubernetes/operator/internal/resources/ceph.go:69-110 | a stage names an ordinal exactly if it lies in that stage's initial segment |
| `CephStatus.SplitCSV` | kubernetes/operator/internal/resources/ceph.go:284-296 | the trimmed non-blank entries, in order |
| `CephStatus.CSVRoundTrip` | kubernetes/operator/internal/resources/ceph.go:284-296 | a joined list of names is split back into exactly these names |
| `CephStatus.LastLineIsLastNonBlank` | kubernetes/operator/internal/resources/ceph.go:226-230 | for every output that line is the last non-blank one, trimmed |
| `CephStatus.ReadFields` | kubernetes/operator/internal/resources/ceph.go:239-259 | for every key the last field with it counts, for osds_up the last numeric one |
| `CephStatus.ParseCephStatus` | kubernetes/operator/internal/resources/ceph.go:221-267 | the parser computes StatusOf, the function the next two rows are about |
| `CephStatus.NoFalseUsable` | kubernetes/operator/internal/resources/ceph.go:221-282 | for every output whatsoever, a usable verdict comes with a health field on the last non-blank line, the last before any detail, that is none of the bad ones, and an osds_up field whose number reaches the positive expected count |
| `CephStatus.StatusRoundTrip` | kubernetes/operator/internal/resources/ceph.go:221-296 | whatever noise lines come first and white space last, parsing the printed line recovers every field, an OSD count beyond 32 bits modulo 2^32 as the int32 conversion leaves it; the detail, which may itself contain "=" or "detail=", is kept exactly when health is not HEALTH_OK |
| `CephStatus.ReportLineParts` | kubernetes/operator/internal/resources/configmap.go:590-631 | the printed line splits into its six fields and its detail, wherever "detail=" occurs again |
| `Inventory.ReadRecord` | kubernetes/operator/internal/resources/node.go:49-71 | for each key the last field of a line counts |
| `Inventory.ParseInventory` | kubernetes/operator/internal/resources/node.go:40-79 | the loop over the lines computes InventoryOf: later lines override earlier ones, others are skipped |
| `Inventory.ParseConcat` | kubernetes/operator/internal/resources/node.go:40-79 | parsing is a homomorphism: a text below another overrides it entry by entry, for all strings |
| `Inventory.EntriesNamed` | kubernetes/operator/internal/resources/node.go:73-75 | every entry is filed under its own non-empty name |
| `Inventory.RecordRoundTrip` | kubernetes/operator/internal/resources/configmap.go:326-333 | a printed record is read back exactly |
| `Inventory.InventoryRoundTrip` | kubernetes/operator/internal/resources/configmap.go:324-334 | records printed among arbitrary other lines are recovered, later ones of a name overriding earlier ones |
| `Inventory.PrintedExactly` | kubernetes/operator/internal/resources/node.go:40-79 | with distinct names, exactly the records printed and nothing else |
| `OSDCount.TallyOSDs` | kubernetes/operator/internal/resources/configmap.go:303-318 | the awk loop's two arrays hold for each host the number of its OSD lines and of those marked up, and the totals sum to the OSD lines read while a host is current |
| `OSDCount.CountsSurvive` | kubernetes/operator/internal/resources/configmap.go:297-334 | from the OSD tree through the printed lines and the parser every host's counts arrive unchanged, so up ≤ total for every entry, and exactly the names seen get one |
| `OSDTrees.TreeCounts` | kubernetes/operator/internal/resources/configmap.go:303-320 | for any table of host, OSD and other rows printed in columns of any widths, what awk counts for a host is the number of OSD rows under it and of those that say up |
| `CephScripts.CephOSDScript` | kubernetes/operator/internal/resources/configmap.go:466-505 | on a pod that is a cluster member and reaches Ceph, OSDs device by device up to the first failure, skipping what is no block device or has one; anywhere else a failure without effect |
| `CephScripts.CephPoolScript` | kubernetes/operator/internal/resources/configmap.go:525-573 | the pools of the spec the script was rendered from, one by one, each with its storage, up to the first failure, skipping what exists |
| `CephScripts.WalkKeeps` | kubernetes/operator/controllers/proxmoxcluster_controller.go:421-436 | after a walk stopped anywhere, the tasks that succeeded have nothing left to do, nothing was removed, and a monitor implies ceph.conf while everything else implies a monitor |
| `CephScripts.ReplayLayered` | kubernetes/operator/internal/resources/configmap.go:356-582 | the same layering in every world any number of aborted executions can reach |
| `CephScripts.WalkAims` | kubernetes/operator/controllers/proxmoxcluster_controller.go:421-436 | no execution, however it fails, changes where the plan leads |
| `CephScripts.CompleteReachesTarget` | kubernetes/operator/controllers/proxmoxcluster_controller.go:438-456 | a complete execution builds exactly what was planned on top of what was there: which monitors, managers, OSDs, pools with their first configuration, and storages |
| `CephScripts.ReplayEqualsCleanRun` | kubernetes/operator/controllers/proxmoxcluster_controller.go:404-436 | for fixed devices and mounted pools, whichever pods are members when: any number of executions aborted anywhere, also inside a task, then one that completes, reach the same world as one uninterrupted execution from the same start |
| `CephScripts.CompletePools` | kubernetes/operator/internal/resources/configmap.go:560-573 | a complete execution leaves exactly the pools that were there and those named by the mounted script |
| `CephScripts.SmoothCompletes` | kubernetes/operator/internal/resources/configmap.go:461-475 | no execution completes unless the pool script is mounted and every pod of the spec is a cluster member, and then an undisturbed one does, from any world: the plan's order lets every script find what it needs |
| `CephReplays.BrokenStops` | kubernetes/operator/controllers/proxmoxcluster_controller.go:421-436 | an exec that does not start or whose answer gets lost stops the walk at its task at the latest |
| `CephReplays.ReplayRests` | kubernetes/operator/controllers/proxmoxcluster_controller.go:404-436 | once the plan went through, running it again on the same devices and pools succeeds and changes nothing, whatever changing tool calls would answer |
| `CephReplays.TaskEffects` | kubernetes/operator/internal/resources/configmap.go:356-453 | one exec of the init, monitor or manager script: what is there is left alone and counts as success, a rejected call changes nothing, an effect whose answer is lost stays without counting, and a monitor needs ceph.conf on a member pod |
| `CephReplays.UnreachableFails` | kubernetes/operator/internal/resources/configmap.go:466-475 | the OSD and pool scripts fail without effect when no monitor answers, the OSD script also on a pod that does not see ceph.conf |
| `CephReplays.DevicesExactly` | kubernetes/operator/internal/resources/configmap.go:477-503 | ceph-osd.sh creates an OSD on every block device up to the first failure, on that one only if just the answer got lost, and succeeds exactly if none fails |
| `CephReplays.PoolEffects` | kubernetes/operator/internal/resources/configmap.go:530-558 | one pool: created with its size, minimum and placement groups unless it is there or the call is rejected, and only once it is there its storage, unless unwanted or there |
| `CephReplays.CompleteBuilds` | kubernetes/operator/controllers/proxmoxcluster_controller.go:404-436 | after a complete execution, on top of what was there, exactly ceph.conf, the first monitors and managers of the plan, and an OSD on every block device among the first $CEPH_OSDS_PER_NODE, by default one, of every pod of the spec |
| `PoolConfigs.CompleteConfigures` | kubernetes/operator/internal/resources/configmap.go:530-573 | a complete execution creates each pool that is not there with exactly the size, minimum size and placement groups of its first mention in the mounted spec, and its storage, if any mention asks for one, with the contents of the first that does; what was there stays |
| `PoolConfigs.PoolsConfigured` | kubernetes/operator/internal/resources/configmap.go:530-573 | in every reachable state every pool has the configuration that some stored admissible spec gives it, so minSize ≤ size ≤ that spec's expected OSDs |
| `ApiServer.RetryLosesNothing` | kubernetes/operator/controllers/proxmoxcluster_controller.go:681-701 | under any interleaving with other writers and for any number of rounds, the object is what the others made of it plus at most one operator write on their latest version; success means written or nothing to write; an error with a write means a lost reply |
| `ApiServer.StatusUpdateExact` | kubernetes/operator/controllers/proxmoxcluster_controller.go:681-701 | a successful status update leaves exactly the desired status beside the others' latest spec and metadata; a failed one leaves theirs, or also took effect when a reply got lost |
| `ApiServer.FinalizerUpdateExact` | kubernetes/operator/controllers/proxmoxcluster_controller.go:634-668 | adding or removing the finalizer changes no field but the finalizers and no other finalizer's number of occurrences, whatever others added meanwhile |
| `Retries.CallExactly` | kubernetes/operator/controllers/proxmoxcluster_controller.go:681-701 | a call reports a conflict exactly if what each of its rounds read was no longer the latest version; it succeeds exactly if some round within the bound gets through after such rounds only, and then the object holds the status asked for beside what others wrote up to that round |
| `Retries.SettledCall` | kubernetes/operator/controllers/proxmoxcluster_controller.go:681-701 | as long as nobody deletes the object a call succeeds if some round within the bound meets no obstacle and no request of the rounds before fails, however stale their reads and however often they were overtaken |
| `Retries.FinalizerInPlace` | kubernetes/operator/controllers/proxmoxcluster_controller.go:634-668 | with up-to-date reads, success means that the finalizer is there when it was to be added, and not there, or the object gone, when it was to be removed |
| `ApiServer.CallExtends` | kubernetes/operator/controllers/proxmoxcluster_controller.go:681-701 | history only grows, stays consistent (one spec per generation), and shows no status but old ones and the one written |
| `ApiServer.Api.RetryOnConflict` | kubernetes/operator/controllers/proxmoxcluster_controller.go:688-700 | the retry loop ends within its bound with the server and the verdict of Call |
| `Reconciler.Cluster.SetCondition` | kubernetes/operator/controllers/proxmoxcluster_controller.go:703-726 | one condition per type, true exactly if asked for, with the reason of its status or Unknown |
| `Reconciler.Pods.ClusterInitScript` | kubernetes/operator/internal/resources/configmap.go:143-158 | success means that pod 0 is a member; a cluster is created exactly when it becomes one |
| `Reconciler.Pods.ClusterJoinScript` | kubernetes/operator/internal/resources/configmap.go:176-208 | success means that the pod is a member; it becomes one only if pod 0 was one before |
| `Reconciler.Pods.CephTaskScript` | kubernetes/operator/internal/resources/configmap.go:356-582 | one exec of a task changes the Ceph cluster as RunTask says, given what is mounted and which pods are members, and nothing else |
| `Reconciler.ProxmoxClusterReconciler.UpdateStatus` | kubernetes/operator/controllers/proxmoxcluster_controller.go:681-701 | success means that the copy's status, with phase and generation, is the stored one |
| `Reconciler.ProxmoxClusterReconciler.JoinNodes` | kubernetes/operator/controllers/proxmoxcluster_controller.go:207-219 | the counter and the members after the join loop, up to its first failure |
| `Reconciler.ProxmoxClusterReconciler.WalkTasks` | kubernetes/operator/controllers/proxmoxcluster_controller.go:421-436 | the plan loop is the walk the replay theorem is about |
| `Reconciler.ProxmoxClusterReconciler.ReconcileCeph` | kubernetes/operator/controllers/proxmoxcluster_controller.go:409-497 | done exactly when only the Ready stage is left of the Ceph stage |
| `Reconciler.ProxmoxClusterReconciler.InitialiseCluster` | kubernetes/operator/controllers/proxmoxcluster_controller.go:179-200 | the whole new state of object and cluster after the init stage; the copy turns initialised only if pod 0 is a member |
| `Reconciler.ProxmoxClusterReconciler.JoinCluster` | kubernetes/operator/controllers/proxmoxcluster_controller.go:203-229 | the whole new state after the join stage |
| `Reconciler.ProxmoxClusterReconciler.ConvergeCluster` | kubernetes/operator/controllers/proxmoxcluster_controller.go:95-253 | the whole new state from validation on, in every branch |
| `Reconciler.ProxmoxClusterReconciler.ReconcilePass` | kubernetes/operator/controllers/proxmoxcluster_controller.go:73-254 | one imperative pass is exactly the step Pass that the theorems below are about |
| `Safety.JoinAllGrows` | kubernetes/operator/controllers/proxmoxcluster_controller.go:207-219 | the join loop keeps members downward closed, and its counter never runs ahead of them |
| `Safety.UpdateKeeps` | kubernetes/operator/controllers/proxmoxcluster_controller.go:681-701 | writing a truthful status keeps every persisted status truthful |
| `Safety.PassKeeps` | kubernetes/operator/controllers/proxmoxcluster_controller.go:73-254 | every pass, under stale first reads, spec edits, ambiguous execs, lost writes and crashes, keeps the invariant Good and shrinks neither history nor world |
| `Safety.Membership` | kubernetes/operator/controllers/proxmoxcluster_controller.go:178-229 | in every reachable world the members are exactly {0..k} or nobody, pvecm create took effect at most once, no persisted joinedNodes exceeds the members, ClusterInitialized means node 0 is one, and Ceph is layered |
| `Safety.PersistedPhase` | kubernetes/operator/controllers/proxmoxcluster_controller.go:98-254 | the phase invariant for every persisted status and the spec of the generation it observed: what each phase implies about the conditions, Ready with Ceph all five Ceph conditions and a usable Ceph status |
| `Safety.ReadyCephPlacesReplicas` | kubernetes/operator/controllers/proxmoxcluster_controller.go:466-490 | whenever Ready is persisted with Ceph: every effective pool satisfies minSize ≤ size ≤ reported OSDs, even if the product wraps; all planned monitors and managers exist; all nodes of the spec are members, raised or not; and all pools of some stored admissible spec exist |
| `Safety.ReadyMembers` | kubernetes/operator/controllers/proxmoxcluster_controller.go:202-253 | Ready means that all nodes of the spec are members when the spec has Ceph or its nodes are at most joinedNodes |
| `Safety.ActsOnlyAnnounced` | kubernetes/operator/controllers/proxmoxcluster_controller.go:164-240 | a pass touches the cluster only for an admissible spec, with all pods ready, and only if its own first status write succeeded, before and on top of what others had written; that write holds the phase of the stage at work, and the stage changes nothing but what is its own: creation and member 0, other members, or Ceph |
| `PassReports.EarlyReports` | kubernetes/operator/controllers/proxmoxcluster_controller.go:95-176 | whatever was persisted before: an inadmissible spec leaves Failed with CephInitialized false, a StatefulSet not visible Pending, pods not all ready Pending with StatefulSetReady false, for the generation read and with every other condition of the version read; if something the pods need fails, nothing new; the cluster is not touched in any of these cases |
| `PassReports.NotReadyWithoutPods` | kubernetes/operator/controllers/proxmoxcluster_controller.go:148-176 | no such pass that sees a pod not ready, or does not see the StatefulSet, leaves Ready |
| `PassReports.InitReports` | kubernetes/operator/controllers/proxmoxcluster_controller.go:177-200 | the status and world after the init stage, case by case: Joining with one node joined exactly if the script succeeds, else Failed with ClusterInitialized false |
| `PassReports.JoinReports` | kubernetes/operator/controllers/proxmoxcluster_controller.go:202-229 | the status and world after the join stage: joinedNodes counts exactly the pods up to the first whose script fails, AllNodesJoined exactly if none does |
| `PassReports.ReadyReports` | kubernetes/operator/controllers/proxmoxcluster_controller.go:242-250 | a pass over a joined cluster without Ceph leaves Ready with the quorum healthy and touches nothing |
| `PassReports.NothingReadNothingDone` | kubernetes/operator/controllers/proxmoxcluster_controller.go:76-82 | a pass whose first read fails or finds no object writes nothing and touches nothing |
| `PassReports.DeletionReleases` | kubernetes/operator/controllers/proxmoxcluster_controller.go:84-87 | a pass that reads an object being deleted writes no status, touches nothing, and takes the finalizer away if its requests settle |
| `PassReports.NothingWithoutFinalizer` | kubernetes/operator/controllers/proxmoxcluster_controller.go:84-92 | nothing is touched in the cluster before some stored version has held the finalizer, nor for an object read as being deleted |
| `CephReports.StoppedReports` | kubernetes/operator/controllers/proxmoxcluster_controller.go:421-436 | when the plan stops at a task, ConfiguringCeph is persisted with exactly the condition of that task's stage turned off, the world is what the plan reached, and nothing else is said anew |
| `CephReports.UnheardReports` | kubernetes/operator/controllers/proxmoxcluster_controller.go:438-463 | when the plan went through but ceph-status.sh failed, no condition about Ceph is persisted |
| `CephReports.HeardReports` | kubernetes/operator/controllers/proxmoxcluster_controller.go:438-499 | when the plan went through and ceph-status.sh printed a report, the status holds its names, counts, health and detail; CephOSDsReady is true exactly if it counts enough OSDs up; CephHealthy, and Ready in place of ConfiguringCeph, exactly if moreover there are OSDs and the health is none of the three bad ones, warnings included |
| `Scaling.MembersWithinSpec` | kubernetes/operator/controllers/proxmoxcluster_controller.go:202-229 | no pod becomes a member that no stored spec asked for |
| `Scaling.ReadyWithoutNewNodes` | kubernetes/operator/controllers/proxmoxcluster_controller.go:203-222 | for all n0 < n1 a run in which everything succeeds ends Ready for n1 nodes with n0 members |
| `Scaling.ReadyMeansAllMembers` | kubernetes/operator/controllers/proxmoxcluster_controller.go:202-253 | Ready for n1 nodes after AllNodesJoined was set for n0 means all n1 are members if and only if n1 ≤ n0 or the cluster has Ceph |
| `Scaling.RaisedCephIsStuck` | kubernetes/operator/controllers/proxmoxcluster_controller.go:203-229 | raising any Ceph cluster after its nodes joined does lead where the never-Ready theorem applies |
| `Progress.PassAdvances` | kubernetes/operator/controllers/proxmoxcluster_controller.go:73-254 | with an up-to-date first read and a spec nobody changes, no pass takes ClusterInitialized or AllNodesJoined back in any version it writes; as long as no pod of a Ceph spec is left out of the cluster for good, no pass takes that away and an undisturbed one meets the next condition or reaches Ready |
| `Progress.GoodPassesCount` | kubernetes/operator/controllers/proxmoxcluster_controller.go:164-254 | the distance [not initialised] + [not joined] + 1 never grows over a run, and where the plan can be completed it drops with every undisturbed pass until Ready has been persisted |
| `Progress.ReadyWithinThree` | kubernetes/operator/controllers/proxmoxcluster_controller.go:164-254 | three undisturbed passes, whose status writes may be overtaken as long as they settle, suffice for Ready, whatever passes fail in between, if and only if the cluster has no Ceph, or had not all joined, or all pods of its spec are members |
| `Progress.RaisedCephNeverReady` | kubernetes/operator/internal/resources/configmap.go:466-469 | a Ceph cluster with a pod left out after AllNodesJoined never becomes Ready for its spec in any calm run, because ceph-osd.sh fails there and no join script runs any more |
| `GoodRuns.NewClusterCanBecomeReady` | kubernetes/operator/controllers/proxmoxcluster_controller.go:164-254 | with honest reports a new cluster can become Ready if and only if its spec is admissible and, with Ceph, expects an OSD; then three undisturbed passes do it, the last of which is told the exact truth about a Ceph cluster with nodes × osdsPerNode OSDs, all monitors and all pools, even if that product exceeds 32 bits |
| `CephPasses.ReadyPassBuilt` | kubernetes/operator/controllers/proxmoxcluster_controller.go:404-490 | a pass that got to its plan and leaves Ready has completed the whole plan, on the devices, members and mounted script of that pass, and has changed Ceph in no other way |
| `FullReports.FullIsExact` | kubernetes/operator/internal/resources/configmap.go:457-508 | a complete execution out of nothing on pods that bring all their devices leaves exactly nodes × osdsPerNode OSDs, and of monitors, active manager and pools exactly what the full report lists |
| `FullReports.FullIsUsable` | kubernetes/operator/internal/resources/ceph.go:221-282 | read back, the full report is a usable Ceph status for every spec that expects an OSD, however the int32 product wraps |
| `HonestReports.ReportsHold` | kubernetes/operator/controllers/proxmoxcluster_controller.go:466-475 | in a run of honest reports, from a start of which that is true, no status ever persisted, whatever was read stale or lost, counts more OSDs ready than there are |
| `HonestReports.ReadyCephHasOSDs` | kubernetes/operator/internal/resources/ceph.go:119-125 | with honest reports, whenever Ready is persisted with Ceph, every effective pool has minSize ≤ size ≤ expected OSDs ≤ the OSDs that exist |
| `DeviceLayouts.RunDevices` | kubernetes/operator/internal/resources/configmap.go:457-508 | in any run an OSD exists only if the start had it or its device was on offer in some pass |
| `DeviceLayouts.ReadyFitsLayout` | kubernetes/operator/controllers/proxmoxcluster_controller.go:603-610 | with honest reports and the devices of one layout of n pods with m each, Ready for any later Ceph spec needs its expected OSDs within n × m; with no fewer nodes and no wrap-around, osdsPerNode within m |
| `DeviceLayouts.LayoutDecides` | kubernetes/operator/controllers/proxmoxcluster_controller.go:603-610 | on pods with at most m devices a new Ceph cluster can become Ready, with honest reports, if and only if osdsPerNode ≤ m |
| `Progress.NeverInitializingAgain` | kubernetes/operator/controllers/proxmoxcluster_controller.go:178-200 | once Joining has been persisted, Initializing never is again |
| `StaleReads.StaleReadExactly` | kubernetes/operator/controllers/proxmoxcluster_controller.go:681-701 | for any version of an object not being deleted, also one from before an edit of the spec, no pass whose first read returns it takes a gating condition back if and only if that version has every gating condition the latest one has |
| `StaleReads.StaleReadLosesGround` | kubernetes/operator/controllers/proxmoxcluster_controller.go:681-701 | it happens: after one good pass on any new cluster, a pass that still reads the first version takes ClusterInitialized back |
| `StaleScripts.ReadyPassPools` | kubernetes/operator/internal/resources/statefulset.go:183-191 | after a pass that ran its plan and leaves Ready there are exactly the pools from before and those of the mounted script; all pools of the reported spec exist if and only if these cover them |
| `StaleScripts.PoolsWithinSpecs` | kubernetes/operator/internal/resources/configmap.go:560-573 | no pool exists that neither the start had nor any stored spec names |
| `StaleScripts.ReadyWithoutNewPools` | kubernetes/operator/internal/resources/statefulset.go:183-191 | for any two Ceph specs a run in which nothing fails and every report is the exact truth ends Ready for the second, with all its OSDs and exactly the pools of the first |
| `StaleScripts.ReadyMeansAllPools` | kubernetes/operator/controllers/proxmoxcluster_controller.go:421-456 | after changing any spec to one with Ceph, Ready for the new spec means that all its pools exist if and only if the old spec had no Ceph, was not admissible, or named them all; honest reports make no difference |
| `NodeStatus.StripConditionTimes` | kubernetes/operator/internal/resources/node.go:336-340 | in place, every transition time and nothing else is reset |
| `NodeStatus.SortConditions` | kubernetes/operator/internal/resources/node.go:342-344 | in place, the array becomes the sorted sequence |
| `NodeStatus.SortedNormalForm` | kubernetes/operator/internal/resources/node.go:342-344 | with unique types two sequences sort to the same exactly if they hold the same condition for every type |
| `NodeStatus.PermutationsSortAlike` | kubernetes/operator/internal/resources/node.go:342-344 | sorting makes permutations equal |
| `NodeStatus.NodeStatusEquivalent` | kubernetes/operator/internal/resources/node.go:324-334 | the comparison by stripping and sorting copies |
| `NodeStatus.EquivalentIsSameFacts` | kubernetes/operator/internal/resources/node.go:322-334 | with unique types the comparison is equality of facts: fields and conditions by type, times and order aside; hence an equivalence neither can disturb |
| `NodeStatus.MergeNodeStatus` | kubernetes/operator/internal/resources/node.go:296-320 | map, carrying loop and comparison together compute Merged |
| `NodeStatus.ChangedExactly` | kubernetes/operator/internal/resources/node.go:296-320 | a write is asked for exactly if the observation tells something new |
| `NodeStatus.UnchangedIsStored` | kubernetes/operator/internal/resources/node.go:311-319 | when nothing changed, the merged status is the stored one up to condition order, every time included |
| `NodeStatus.RemergeUnchanged` | kubernetes/operator/internal/resources/node.go:282-294 | merging any retimed or reordered copy of the same observation into the result asks for no write |
| `NodeHistory.RunStartMeaning` | kubernetes/operator/internal/resources/node.go:276-286 | RunStart is the time of the first observation of the current unbroken run of a condition's status |
| `NodeHistory.LastDiffMeaning` | kubernetes/operator/internal/resources/node.go:291-295 | LastDiff is the time of the last observation that differed from its predecessor |
| `NodeHistory.CarryFollowsHistory` | kubernetes/operator/internal/resources/node.go:304-309 | the merge starts a new transition time exactly where the history starts a new run |
| `NodeHistory.NextDescribes` | kubernetes/operator/internal/resources/node.go:296-320 | one more recorded observation keeps the stored status as the history tells it |
| `NodeHistory.TransitionsBeforeObservedAt` | kubernetes/operator/internal/resources/node.go:291-295 | with a non-decreasing clock no run starts after the last difference |
| `NodeStore.StoreFollowsHistory` | kubernetes/operator/controllers/proxmoxcluster_controller.go:357-398 | over any upserts failing in any way the stored status is the last recorded observation, each transition time is the start of its run, and observedAt the last difference |
| `NodeStore.StoredTimesOrdered` | kubernetes/operator/controllers/proxmoxcluster_controller.go:357-398 | with a non-decreasing clock every stored transition time is at most observedAt |
| `Nodes.NodeNameInjective` | kubernetes/operator/internal/resources/node.go:83-85 | cluster name and ordinal can be read off an object name, also when cluster names end in "-digits" |
| `Nodes.ProxmoxNodeFor` | kubernetes/operator/internal/resources/node.go:93-197 | the object built step by step, devices and conditions by loops |
| `Nodes.NodeReadyMeans` | kubernetes/operator/internal/resources/node.go:200-226 | a node is Ready exactly if its pod is Ready, in phase Running or Unknown, and Corosync knows and reaches it; the phase agrees with the conditions |
| `Nodes.StatusForObserves` | kubernetes/operator/internal/resources/node.go:126-193 | every status built has unique condition types, all stamped with the time of building |
| `Nodes.RetimedFacts` | kubernetes/operator/internal/resources/node.go:93-197 | the clock alone changes no fact |
| `NodeStore.NodeClient.UpsertNode` | kubernetes/operator/controllers/proxmoxcluster_controller.go:357-398 | which object and how many writes under every outcome of every request; success means that the object is there with the desired labels, annotations and facts |
| `NodeStore.NodeClient.PruneNodes` | kubernetes/operator/controllers/proxmoxcluster_controller.go:331-347 | exactly the listed objects with the cluster's label and no desired name are deleted |
| `NodeStore.NodeClient.ReconcileNodes` | kubernetes/operator/controllers/proxmoxcluster_controller.go:270-350 | the pass over all ordinals and the prune together are Project, down to the number of writes |
| `NodePasses.ProjectOwn` | kubernetes/operator/controllers/proxmoxcluster_controller.go:307-325 | an object of a desired name after the pass depends only on itself, its observation and its own requests |
| `NodePasses.ProjectElse` | kubernetes/operator/controllers/proxmoxcluster_controller.go:331-347 | any other object is left alone unless it has the cluster's label |
| `NodePasses.PassConverges` | kubernetes/operator/controllers/proxmoxcluster_controller.go:270-398 | from any store a clean pass leaves exactly one object per ordinal with the cluster's label, each with the desired labels, annotations and facts |
| `NodeReports.CleanPassTells` | kubernetes/operator/controllers/proxmoxcluster_controller.go:270-350 | after a clean pass the object named after cluster and ordinal tells of the one listed pod of that name and of the record printed for it, or of their absence: names and IP of the pod, membership, reachability and node id, monitor, manager and OSDs up and in all, the phase, the truth and reason of every condition, the device paths and the labels |
| `NodePasses.PassDoesNoHarm` | kubernetes/operator/controllers/proxmoxcluster_controller.go:270-398 | under any failures no desired object is deleted and no other cluster's correctly labelled object is touched |
| `NodePasses.PassDoesNotHeal` | kubernetes/operator/controllers/proxmoxcluster_controller.go:377-398 | spec, owner and the times of conditions whose status stays are never repaired |
| `NodePasses.SecondPassIsSilent` | kubernetes/operator/controllers/proxmoxcluster_controller.go:352-398 | after a clean pass, a pass observing the same sends no write |
| `NodePasses.PassesCommute` | kubernetes/operator/controllers/proxmoxcluster_controller.go:305-347 | the passes of two clusters commute, whatever fails in either, on stores whose labels match their names |
| `NodePasses.PassKeepsLabels` | kubernetes/operator/controllers/proxmoxcluster_controller.go:305-347 | a pass keeps labels matching names, so passes go on commuting |
| `NodePasses.ProjectionFollowsHistory` | kubernetes/operator/controllers/proxmoxcluster_controller.go:270-398 | after any passes of any clusters in the namespace the object of a node that stays in its spec says what was last recorded of it, with the times of its history |

## Left out

- Reconciler.Cluster.SetCondition: transition times and messages of the ProxmoxCluster's own conditions are not
  modelled, because nothing in the operator reads them; those of a ProxmoxNode are.
- Requeue delays, logging, events and the error a pass returns: a pass is its effect on object and cluster.
- Services, ConfigMap and StatefulSet: their creation is one yes-or-no answer of the surroundings, and the
  StatefulSet's ready replicas another. Their builders are constant and would only add easy members.
- Corosync templates, datacenter.cfg, the bootstrap script and the contents of ceph.conf.
- The insides of pvecm, pveceph, ceph and pvesm, waiting for SSH, and the scraping of monitor and manager dumps
  by grep and sed; the awk program over the OSD tree is modelled.
- CephScripts.CephPoolScript: `grep -qx` reads a pool name as a pattern and bash expands quoted text once more; the
  model compares names literally.
- Which OSDs a Ready cluster has: their number is bounded from below when reports are honest
  (`HonestReports.ReadyCephHasOSDs`) and their places by the devices on offer (`DeviceLayouts.RunDevices`). Which of
  these devices carry one is said of single executions only (`CephScripts.CompleteReachesTarget`).
- ceph-mgr.sh has no check of its own; that `pveceph mgr create` would fail outside the cluster belongs to the
  insides of pveceph.
- A script that goes on running in a pod after its exec stream broke: an exec is over when the pass goes on.
- Text that is not valid UTF-8; a string is a sequence of characters.
- NodeStore.NodeClient.UpsertNode: the object it reads is the stored one. A stale read, or an edit by somebody else
  between the get and the write, appears only as a write that fails. Fractions of a second are dropped.
- The projection is refreshed by a deferred call of the same pass; since neither reads what the other writes,
  the two are modelled side by side.
- NodeStatus.SortConditions: above twelve elements sort.Slice leaves insertion sort; with unique types every sort
  gives the same sequence, which is the one specified here.
- The docker path, the end-to-end suite, the exec transport, manager wiring, RBAC and Helm.
