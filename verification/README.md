# Special Resource Operator: a verified model

The Special Resource Operator is a Kubernetes operator that rolls out out-of-tree drivers. It keeps a watch index that
decides which modules to wake, runs Helm charts state by state and kernel by kernel, creates and updates objects under
a hash annotation, validates recipes before a cluster upgrade, and cleans up behind deleted resources. This project
models that logic in Dafny and proves what holds of it over all inputs, all failure patterns and all histories of
calls.

`dafny verify dfyconfig.toml` checks everything. Each file is one module.

| file | component |
|---|---|
| `Watcher.dfy`, `WatcherRuns.dfy` | the watch index, one call at a time and over whole runs |
| `ModuleController.dfy`, `ModuleStatus.dfy`, `VersionScan.dfy` | the SpecialResourceModule controller |
| `ChartStates.dfy`, `Upgrade.dfy`, `KernelAffinity.dfy` | chart states, kernels of the cluster, one replica per kernel |
| `ResourceApi.dfy`, `YamlScanner.dfy`, `HelmHooks.dfy` | objects, documents and hooks of a release |
| `PreflightCheck.dfy`, `PreflightController.dfy` | validation before an upgrade |
| `Finalizer.dfy`, `ManagedReconcile.dfy` | node labels, finalization, status conditions |
| `Annotations.dfy`, `Assets.dfy`, `Strings.dfy`, `StringOrder.dfy`, `Sequences.dfy` | shared vocabulary |

## How the outside world is modelled

The API server is a map, a list or a record held in a class; a call to it may fail at any time, and a write that fails
has no effect. A read returns the current stored object. Helm, the registry, the poller and the status writes answer
through parameters that range over all possible answers. Hashes are arbitrary functions; where distinctness matters,
the absence of collisions on the strings in play is a hypothesis. A Go map that is iterated is read in an arbitrary
order. Loops and updates of the code are methods and classes; each is proved equal to a function, or shown to produce
only lawful traces, and the results about runs are lemmas about those functions and traces.

## What does not hold, and exactly when it does

- A chart load that fails returns an empty list of finished templates, so work is repeated.
  `ModuleController.ExactlyOnceIff`: each template succeeds exactly once if and only if no load fails while there is
  progress to forget; `ModuleController.SuccessesAreCounted` counts the repetitions.
- A Helm error stops a state only if it is the error of run number `len(ClusterUpgradeInfo)`. A state that is not
  kernel-affine on a cluster with two or more kernels never stops on one (`ChartStates.PlainStateIgnoresHelmErrors`,
  `ChartStates.PlainRunStopsIff`).
- The `Complete` flag computed in memory is set if and only if the pass returned no error, or the chart did not load,
  or the first step failed while the list in hand named no state of the chart (`ModuleStatus.CompleteInMemoryIff`); it
  is never persisted behind a failed pass (`ModuleStatus.PersistedIsEarned`).
- Not every kernel gets a replica. Helm runs exactly once per kernel whichever runs fail and however the reconcile
  ends, but a node is served if and only if the run for its kernel applied the object and the server still holds that
  replica in the end (`KernelAffinity.EveryNodeServedOnce`). Replicas of kernels that run the same OS version and
  differ only in `_` against `-` share a name: the later run's replica takes the earlier one's place and leaves its
  node without (`KernelAffinity.StaysIff`, `KernelAffinity.AlikeKernelIsDropped`). If no two kernels are alike,
  applying is enough (`KernelAffinity.ServedIffCreated`).
- A request may succeed without creating: behind it the object is there if and only if it was before, or it is neither
  a skipped BuildConfig nor a one-time Pod of an installed release (`ResourceApi.SuccessMeansThereIff`).
- The version loop of a module writes its status with the resource version it began with, so every write behind one
  that changes the status conflicts. A reconcile adds at most one version to the status
  (`ModuleStatus.OneVersionPerReconcile`), and n active versions take n reconciles, of which all but the last end in
  an error (`ModuleStatus.OneReconcilePerVersion`).
- A reconcile without active versions writes no status, so stale versions stay (`ModuleStatus.DoneMeansActive`).
- The spelling `Statefulset` keeps a StatefulSet from getting a node selector: a kernel-affine object selects a kernel
  if and only if it is a DaemonSet, Deployment, Pod or BuildConfig (`KernelAffinity.SelectsKernelIff`).
- A node selector of the custom resource that names a kernel overrides the replica's own
  (`KernelAffinity.ReplicaIsPinned`).
- The real-time kernel gets a second architecture suffix when it has one and the plain kernel has none, so a node that
  runs it is not given its toolkit; `Upgrade.RealTimeNodeGetsToolkitIff` says exactly when it is.
- Finalizing a resource strips the label of another resource's state if and only if the name starts the other's name,
  dash and state digits (`Finalizer.FinalizeTakesIff`). This takes in longer names
  (`Finalizer.FinalizeTakesLongerNames`) and also shorter ones: `foo-0` takes the labels of `foo`
  (`Finalizer.FinalizeTakesShorterNames`).
- Labelling and finalizing restore the labels of all nodes if and only if no cleaned node had a label with the prefix
  before, and each labelled node that is not cleaned had its labels before (`Finalizer.RoundTripIff`). A node that is
  tainted in between is not cleaned, nor is one whose update fails with neither a conflict nor a missing permission
  (`Finalizer.Cluster.FinalizeNodes`); the finalizer comes off all the same.
- A preflight entry that is not True and whose resource is no longer listed, or is listed under deletion, blocks
  completion as long as that lasts, over any history (`PreflightController.BlockedForever`).
  `PreflightController.CompletedIff` says exactly when completion is reported; of the status writes of the checks only
  the last one matters.
- `GetObjectsFromYAML` ignores the scanner's error, so a manifest that cannot be read to its end is checked in part
  (`YamlScanner.GetObjectsFromYAML`). Documents are lost without an error if and only if one lies behind a failing
  read or more than a hundred empty ones (`YamlScanner.TruncationGoesUnnoticedIff`).
- The hook marker belongs to an event and a namespace, not to a release: a call that succeeds has applied all hooks of
  its release if and only if there are none, or no earlier call of any release recorded its own
  (`HelmHooks.AllAppliedIff`).
- A Service stored without a cluster address can never be updated (`ResourceApi.ServiceWithoutAddressIsStuck`); a
  changed Service is updated if and only if it has an address and a version on the server
  (`ResourceApi.ServiceIsUpdatedIff`).
- Behind an update, the template generation that the wait for a DaemonSet goes by is the one from before the update
  (`ResourceApi.GenerationIsCurrentIff`).

## Model

| member | source | states |
|---|---|---|
| `Watcher.DeleteFirst` | pkg/watcher/watcher.go:134-141 | searching for a member and joining the slices around it removes its first occurrence and nothing else |
| `Watcher.Watcher.DropData` | pkg/watcher/watcher.go:147 | between deleting a data key and deleting its path, every data key still has its path listed |
| `Watcher.Watcher.DropPath` | pkg/watcher/watcher.go:149-162 | removes the path, and the resource with its last path, without unlisting any data key |
| `Watcher.Watcher.AddPath` | pkg/watcher/watcher.go:228-241 | lists the path once, before there is data for it |
| `Watcher.Watcher.AddData` | pkg/watcher/watcher.go:243-249 | adds the subscriber to a key whose path is already listed |
| `Watcher.Watcher.IsAlreadyBeingWatched` | pkg/watcher/watcher.go:206-218 | answers exactly whether the pair is in the subscription relation |
| `Watcher.Watcher.TryAdd` | pkg/watcher/watcher.go:176-204 | asks for a watch exactly when the pair is new; a refused watch changes nothing |
| `Watcher.Watcher.RemoveUnwanted` | pkg/watcher/watcher.go:130-164 | whatever the iteration order, the index ends as the old one without the module's unwanted pairs |
| `Watcher.Watcher.ReconcileWatches` | pkg/watcher/watcher.go:119-174 | keeps the index valid and computes the reconciled index, the watches started and the outcome |
| `Watcher.KeptLists` | pkg/watcher/watcher.go:130-164 | removal keeps the two maps in agreement, with no empty or repeated list |
| `Watcher.KeptPairs` | pkg/watcher/watcher.go:130-164 | removal takes exactly the module's pairs that it no longer wants |
| `Watcher.AddOneValid` | pkg/watcher/watcher.go:186-250 | because of the guard before it, an addition never repeats a subscriber or a path |
| `Watcher.AddAllPairs` | pkg/watcher/watcher.go:167-171 | additions stop at the first refused new watch and have added exactly the entries before it |
| `Watcher.StartedAreNew` | pkg/watcher/watcher.go:186-200 | a watch is asked for exactly for the entries that are new to the module, in order, up to the first that is refused |
| `Watcher.ReconcileReplacesOwnPairs` | pkg/watcher/watcher.go:119-250 | on success the relation is the old one with this module's pairs replaced by its watch list; on a refused watch, exactly what was kept and added |
| `Watcher.ReconcileKeepsValues` | pkg/watcher/watcher.go:119-250 | surviving keys keep their stored value, new keys start empty |
| `Watcher.ReconcileIsValid` | pkg/watcher/watcher.go:119-250 | validity of the index survives every reconcile, also one with a refused watch |
| `Watcher.ReconcileIdempotent` | pkg/watcher/watcher.go:119-218 | a second reconcile with the same watch list changes nothing and starts no watch |
| `Watcher.Watcher.AreEqual` | pkg/watcher/watcher.go:340-355 | compares as multisets, sorting both lists only when their lengths agree |
| `Watcher.Watcher.Mapper` | pkg/watcher/watcher.go:258-309 | the new index and the woken modules for one delivered object; an object that is not unstructured changes nothing |
| `Watcher.DeliverWakesChanged` | pkg/watcher/watcher.go:276-309 | wakes exactly the subscribers of keys of the routed entry whose value changed as a multiset, and records the values |
| `Watcher.RouteByFields` | pkg/watcher/watcher.go:259-284 | an object is looked up by its apiVersion and kind; by its name and namespace only if the whole kind is not watched |
| `Watcher.WokenOncePerPath` | pkg/watcher/watcher.go:286-304 | a module is woken once for each of its paths whose value changed |
| `Watcher.RedeliveryIsSilent` | pkg/watcher/watcher.go:293-304 | delivering the same object again wakes nobody |
| `WatcherRuns.ReachableIsValid` | pkg/watcher/watcher.go:79-309 | in every reachable state a path is listed if and only if it has data, without empty or repeated lists |
| `WatcherRuns.ReconcileRefines` | pkg/watcher/watcher.go:119-250 | one reconcile of the two maps is one step of a machine with a single relation and a value per key |
| `WatcherRuns.DeliverRefines` | pkg/watcher/watcher.go:276-309 | one delivery is one step of that machine |
| `WatcherRuns.RunRefines` | pkg/watcher/watcher.go:79-309 | over every run, the index represents exactly the state of that machine |
| `WatcherRuns.WakesRefine` | pkg/watcher/watcher.go:276-309 | after any run, an event wakes exactly whom that machine wakes |
| `WatcherRuns.StoredValueIsLastRouted` | pkg/watcher/watcher.go:258-309 | after any run, the stored value of a key is, as a multiset, that of the last object routed to it since registration |
| `ModuleController.SplitStates` | controllers/specialresourcemodule_controller.go:410-420 | splits the state templates into pending and already reconciled, in chart order |
| `ModuleController.RunSteps` | controllers/specialresourcemodule_controller.go:426-457 | runs the steps in order up to the first failure and returns what is done, or nothing on success |
| `ModuleController.ReconcileChart` | controllers/specialresourcemodule_controller.go:396-458 | one pass over the chart: the list returned, the templates that succeeded, the outcome |
| `ModuleController.PassExtendsRecord` | controllers/specialresourcemodule_controller.go:396-458 | a pass from a record of the first k states succeeds on the next ones in name order |
| `ModuleController.ResumeRecords` | controllers/specialresourcemodule_controller.go:396-458 | under any failures, the list in hand names exactly the first states in name order |
| `ModuleController.ProgressIsMonotone` | controllers/specialresourcemodule_controller.go:396-458 | if the chart loads, finished templates stay finished and grow by the successes of the call |
| `ModuleController.SuccessesAreCounted` | controllers/specialresourcemodule_controller.go:396-458 | a template has succeeded once if it is done now, plus once per failed load that forgot it |
| `ModuleController.RunsInOrder` | controllers/specialresourcemodule_controller.go:422-456 | if nothing is forgotten, the successes over all calls are the states in name order, each once |
| `ModuleController.ExactlyOnceIff` | controllers/specialresourcemodule_controller.go:396-458 | a finished series ran each state exactly once, in order, if and only if no load failed while there was progress |
| `ModuleController.FailedLoadRepeatsWork` | controllers/specialresourcemodule_controller.go:402-405 | there is a series in which a failed load makes a template run twice |
| `ModuleStatus.Controller.UpdateList` | controllers/specialresourcemodule_controller.go:523-527 | the active versions in ascending order, whatever the order of the map |
| `ModuleStatus.Controller.DropObsolete` | controllers/specialresourcemodule_controller.go:530-535 | keeps exactly the status entries of active versions |
| `ModuleStatus.Controller.UpdateStatus` | controllers/specialresourcemodule_controller.go:389-394 | accepted only with the stored resource version; a change moves that version on, a write without change does not |
| `ModuleStatus.Controller.ProcessVersions` | controllers/specialresourcemodule_controller.go:538-559 | the version loop, which keeps the resource version it began with: what is stored, what was run, how it ended |
| `ModuleStatus.Controller.Reconcile` | controllers/specialresourcemodule_controller.go:481-563 | one reconcile: what is stored, what was run, how it ended; a resource that is gone or under deletion is left alone |
| `ModuleStatus.VerdictSays` | controllers/specialresourcemodule_controller.go:538-559 | a requeue stands behind a chart that did not run through, an error behind a status write |
| `ModuleStatus.ProcessIsHonest` | controllers/specialresourcemodule_controller.go:538-559 | the loop writes only entries that were earned before the write |
| `ModuleStatus.PersistedIsEarned` | controllers/specialresourcemodule_controller.go:519-559 | in every history, a persisted entry is complete, has nothing pending, and was written after all states of the chart loaded for it succeeded in order |
| `ModuleStatus.DoneMeansActive` | controllers/specialresourcemodule_controller.go:519-563 | after an error-free run the persisted versions are exactly the active ones, unless none is active |
| `ModuleStatus.DoneMeansWatched` | controllers/specialresourcemodule_controller.go:342-563 | from the watch list: after an error-free run the persisted versions are exactly the toolkit images that the watched objects name, if they name one |
| `ModuleStatus.ReconcileGrowsByOne` | controllers/specialresourcemodule_controller.go:519-559 | one reconcile adds at most one version to the status |
| `ModuleStatus.OneVersionPerReconcile` | controllers/specialresourcemodule_controller.go:389-559 | in every history there are at most as many persisted versions as reconciles |
| `ModuleStatus.OneReconcilePerVersion` | controllers/specialresourcemodule_controller.go:389-559 | with nothing in the way, n active versions are added one per reconcile in name order, and exactly the reconciles from the n-th on end without error |
| `ModuleStatus.CompleteInMemoryIff` | controllers/specialresourcemodule_controller.go:402-457 | exactly when the flag computed in memory is set: success, a failed load, or a failing first step with nothing of the chart in hand |
| `ModuleStatus.CompleteInMemoryProvesNothing` | controllers/specialresourcemodule_controller.go:547-554 | the flag computed in memory is true also for a failed pass over a chart that loads |
| `VersionScan.FilterResources` | controllers/specialresourcemodule_controller.go:269-296 | the objects of each selector in turn; fails if and only if a selector path cannot be read |
| `VersionScan.SelectionIsKept` | controllers/specialresourcemodule_controller.go:269-296 | an object is kept if and only if one selector matches it, or there is none |
| `VersionScan.GetOCPVersions` | controllers/specialresourcemodule_controller.go:342-387 | succeeds if and only if every watch can be evaluated and every observed string is a version or an image that resolves; the map built from these strings in order |
| `VersionScan.ResolveIff` | controllers/specialresourcemodule_controller.go:364-381 | which image a string stands for, and what is known of it |
| `VersionScan.StringsConcat` | controllers/specialresourcemodule_controller.go:345-363 | the strings come in the order of the watches |
| `VersionScan.StringsAreObserved` | controllers/specialresourcemodule_controller.go:345-363 | those strings are exactly the ones at the watched path of a selected object |
| `VersionScan.LastStringCounts` | controllers/specialresourcemodule_controller.go:378-382 | of several strings that name one toolkit image, the last one gives the entry |
| `VersionScan.KeysAreToolkits` | controllers/specialresourcemodule_controller.go:378-382 | the keys are exactly the toolkit images of the observed versions |
| `Assets.StateNameShape` | pkg/assets/assets.go:105-111 | a state is never a named template, and its base name has four leading digits |
| `Assets.StateDigits` | controllers/resources.go:243 | cutting four characters out of a state name is in bounds and gives digits |
| `Assets.BaseIs` | pkg/assets/assets.go:105-111 | the base of a path is what stands behind its last slash |
| `Assets.NamesInDirectory` | pkg/assets/assets.go:105-111 | in any directory: a state is four digits, a dash or underscore, one line and the extension; a named template starts with an underscore; the digits of a state are its first four characters |
| `StringOrder.LeqIff` | controllers/resources.go:145-147 | names are ordered by the first character in which they differ, a prefix first |
| `ChartStates.Split` | controllers/resources.go:133-142 | the three template lists in chart order |
| `ChartStates.SplitIsPartition` | controllers/resources.go:133-142 | the lists together hold every template as often as the chart |
| `ChartStates.OfClassConcat` | controllers/resources.go:133-142 | the lists keep the order of the chart |
| `ChartStates.ClassByName` | controllers/resources.go:133-142 | which list a template goes to, from its file name alone |
| `ChartStates.Prepare` | controllers/resources.go:126-147 | states sorted by name, each with a valid state name |
| `ChartStates.RunKernels` | controllers/resources.go:167-236 | in any kernel order, one Helm run per kernel for an affine state and one in all for another; stops on a Helm error exactly at run number len(kernels) |
| `ChartStates.RunState` | controllers/resources.go:149-250 | status, runs, label, in this order; stops only for the reason it gives; every state begun so far is covered, whatever the stop |
| `ChartStates.ReconcileChartStates` | controllers/resources.go:123-284 | every trace is lawful and truthful; a Helm error stops exactly when the last run of a state fails; the stateless chart ends a run that passed all states; every state begun whose values merge ran once per kernel |
| `ChartStates.HelmRunsInNameOrder` | controllers/resources.go:145-149 | in every lawful trace, states run one after the other in ascending name order |
| `ChartStates.RunsAreDistinctKernels` | controllers/resources.go:179-236 | a state never runs twice for one kernel |
| `ChartStates.LabelledMeansCovered` | controllers/resources.go:179-249 | a labelled affine state ran Helm exactly once for each kernel |
| `ChartStates.EveryStopCovers` | controllers/resources.go:179-249 | whatever the stop, including a failed last run and failed labelling, each state begun whose values merge ran Helm exactly once per kernel if affine, once if not |
| `ChartStates.CreatedAreRuns` | controllers/resources.go:209-236 | the runs of a state leave an object for a kernel at most once, and only for kernels that were run |
| `ChartStates.CreatedInOrder` | controllers/resources.go:201-232 | runs and applied kernels come in the order of the trace |
| `ChartStates.CreatedMembers` | controllers/resources.go:209-236 | these kernels are exactly those whose run created its object |
| `ChartStates.StatelessComesLast` | controllers/resources.go:252-284 | the stateless chart ends the trace, and before it every state was labelled with its own label |
| `ChartStates.PlainStateIgnoresHelmErrors` | controllers/resources.go:222-235 | only an affine state, or one on a cluster with a single kernel, can stop on a Helm error |
| `ChartStates.PlainRunStopsIff` | controllers/resources.go:222-235 | the run of a state that is not affine stops the reconcile if and only if it fails on a cluster with a single kernel |
| `ChartStates.AffineRunStopsIff` | controllers/resources.go:222-230 | the run of an affine state stops the reconcile if and only if it fails and every kernel has been run |
| `ChartStates.LawfulEvents` | controllers/resources.go:160-284 | what each run and label carries: named templates and the state, resource and digits, named templates and the rest |
| `Upgrade.FilterTaints` | pkg/clients/clients.go:194-213 | filtering in the array that is being read leaves exactly the untainted nodes, in order |
| `Upgrade.UntaintedMembers` | pkg/clients/clients.go:194-213 | a node stays if and only if none of its taints is NoSchedule or NoExecute |
| `Upgrade.ParseOSInfo` | pkg/utils/osversion.go:14-24 | versions are a digit, a point and digits, the major version is the first digit; fails if and only if the pattern matches nowhere |
| `Upgrade.MatchIff` | pkg/utils/osversion.go:9 | the pattern matches exactly where two numbers, a time stamp and a number stand, and its groups are the two numbers in order |
| `Upgrade.ParsedFromText` | pkg/utils/osversion.go:14-24 | at the first such place, the cluster version is the first number and the OS version the second |
| `Upgrade.VersionFromText` | pkg/upgrade/upgrade.go:71-87 | what is known of a node, from its kernel and the text of its image name |
| `Upgrade.UnreadableIff` | pkg/upgrade/upgrade.go:71-81 | a node cannot be read if and only if it has no kernel or nothing in its image name reads as a version |
| `Upgrade.LastWithIs` | pkg/upgrade/upgrade.go:71-87 | of several nodes with one kernel the last one counts |
| `Upgrade.NodeVersionInfo` | pkg/upgrade/upgrade.go:67-90 | the keys are exactly the kernels of the nodes, each with the data of its last node; fails if and only if a node has no kernel or no readable version |
| `Upgrade.UpdateKeepsKernels` | pkg/upgrade/upgrade.go:92-135 | toolkit data adds and drops no kernel and changes nothing known of the nodes |
| `Upgrade.UpdateInfoIff` | pkg/upgrade/upgrade.go:92-135 | exactly when toolkit data can be used, and what it sets for which kernels |
| `Upgrade.IdealTakesFirst` | pkg/upgrade/upgrade.go:137-155 | the first toolkit image is the one that is used |
| `Upgrade.ArchSuffixIsStable` | pkg/upgrade/upgrade.go:95-106 | the architecture is named behind the first use and not added again |
| `Upgrade.RealTimeNodeGetsToolkitIff` | pkg/upgrade/upgrade.go:92-135 | exactly when a node with the toolkit's real-time kernel is given the toolkit |
| `Upgrade.ClusterInfo.GetDTKData` | pkg/upgrade/upgrade.go:157-181 | the data is the registry's with and without the cache; failures are not cached; other entries stay |
| `Upgrade.ClusterInfo.DriverToolkitVersion` | pkg/upgrade/upgrade.go:92-155 | works on a copy: the result depends on the registry's data only, cached entries keep theirs, and an image that was read stays in the cache |
| `Upgrade.ClusterInfo.GetClusterInfo` | pkg/upgrade/upgrade.go:47-65 | the answer and the images known behind it; its kernels are exactly those of the nodes |
| `Upgrade.KnownIffFetched` | pkg/upgrade/upgrade.go:157-181 | over any calls, an image is cached if and only if some call asked for it while the registry answered |
| `Upgrade.CacheIsTransparent` | pkg/upgrade/upgrade.go:47-181 | over any calls, the answer is that without a cache and with a registry that answers, unless the registry does not and nobody has fetched the image |
| `Upgrade.RepeatNeedsNoRegistry` | pkg/upgrade/upgrade.go:47-181 | a call that succeeded gives the same again, with or without the registry |
| `Upgrade.DescriptionIsUnique` | pkg/upgrade/upgrade.go:67-90 | two calls on the same nodes start from the same map |
| `KernelAffinity.Manifest.SetAffineAttributes` | pkg/kernel/kernel.go:28-102 | the new name, its copies in the labels, and the kernel in the node selector; fails if and only if one of these fields has a value of another type in the way |
| `KernelAffinity.Manifest.SetNodeSelectorTerms` | internal/resourcehelper/helper.go:116-152 | the terms of the custom resource, in any order, over what is there; an unreadable selector fails and changes nothing |
| `KernelAffinity.Manifest.MakeReplica` | pkg/resource/resource.go:400-411 | affinity first, then the terms; succeeds if and only if every field it goes through fits |
| `KernelAffinity.ReplicaIsPinned` | pkg/kernel/kernel.go:65-102 | a replica selects its kernel, unless the custom resource names one: then that |
| `KernelAffinity.SelectsKernelIff` | pkg/kernel/kernel.go:65-102 | where nothing else names a kernel, a replica selects one if and only if its kind is spelt as in Kubernetes |
| `KernelAffinity.ReplicaIsNamed` | pkg/kernel/kernel.go:28-60 | the name of a replica and exactly which fields repeat it |
| `KernelAffinity.PlainObjectGetsTerms` | internal/resourcehelper/helper.go:116-152 | an object that is not kernel-affine gets the terms and nothing else |
| `KernelAffinity.FitsByKind` | pkg/kernel/kernel.go:40-102 | kind by kind, the fields whose type can make an edit fail |
| `KernelAffinity.NamesAgreeIff` | pkg/kernel/kernel.go:32-38 | two replicas share a name exactly when OS versions agree and kernels differ only in `_` against `-` |
| `KernelAffinity.ServedIffStays` | pkg/resource/resource.go:205-288 | among replicas applied in order, a stored one serves a kernel if and only if one for it stays under its name, or an old object that is never updated serves it |
| `KernelAffinity.EveryNodeServedOnce` | controllers/resources.go:179-236 | from nodes over cluster info and Helm runs to the stored objects, however the reconcile ends: one run per kernel; an untainted node is served if and only if the run for its kernel applied a replica that stays, or by an old object that is never updated; no two stored replicas serve it |
| `KernelAffinity.StaysIff` | pkg/kernel/kernel.go:32-38 | a replica stays if and only if no later run applied one for a kernel that is alike; for a kind that is never updated, no earlier run did and nothing was there |
| `KernelAffinity.ServedIffCreated` | controllers/resources.go:179-236 | if no two kernels are alike, a node is served if and only if the run for its kernel applied its object |
| `KernelAffinity.AlikeKernelIsDropped` | pkg/kernel/kernel.go:32-38 | of two kernels that are alike, the node of the one run first is left without |
| `KernelAffinity.ReplicaNamesDistinct` | pkg/kernel/kernel.go:28-38 | the names of the replicas of one object are pairwise distinct |
| `ResourceApi.Api.Crud` | pkg/resource/resource.go:188-291 | one create-or-update: the store, the write made, the object in memory, the outcome |
| `ResourceApi.Api.CheckForImagePullBackOff` | pkg/resource/resource.go:293-353 | the new rebuild vendor and the outcome |
| `ResourceApi.Api.CreateObjFromYAML` | pkg/resource/resource.go:413-444 | skip test, crud and checks of one object |
| `ResourceApi.InspectLooksAtFirst` | pkg/resource/resource.go:319-352 | the verdict comes from the first pod with container statuses and the reason of its last container |
| `ResourceApi.CrudLeavesHash` | pkg/resource/resource.go:205-290 | success leaves the hash of the desired object behind, and writes if and only if it was not there |
| `ResourceApi.WritesFollowHashChanges` | pkg/resource/resource.go:188-291 | over any run, the stored hash is that of the last object applied and the server was written to once per change of it |
| `ResourceApi.RepeatWritesNothing` | pkg/resource/resource.go:249-264 | repeating a reconcile writes nothing |
| `ResourceApi.CrudOkIff` | pkg/resource/resource.go:188-291 | exactly when create-or-update returns no error |
| `ResourceApi.SendsDesired` | pkg/resource/resource.go:225-281 | what is sent: the desired object under its hash, in an update with the stored version and address where needed |
| `ResourceApi.WriteStoresDesired` | pkg/resource/resource.go:225-281 | a write stores the content of the desired object |
| `ResourceApi.StoredIsLastApplied` | pkg/resource/resource.go:188-291 | over any run, what is stored has the content of the last object applied, if the hash does not collide on those |
| `ResourceApi.ProcessOkIff` | pkg/resource/resource.go:413-444 | exactly when processing one object returns no error |
| `ResourceApi.SkippedAndPrepared` | pkg/resource/resource.go:446-455 | only a BuildConfig of another vendor than the one to rebuild is skipped |
| `ResourceApi.PinnedKindsStay` | pkg/resource/resource.go:249-253 | over any run, stored Pods and ServiceAccounts never change |
| `ResourceApi.ServiceWithoutAddressIsStuck` | internal/resourcehelper/helper.go:102-111 | an update of such a Service fails and changes nothing |
| `ResourceApi.ServiceIsUpdatedIff` | internal/resourcehelper/helper.go:86-114 | a changed Service that the server accepts is updated if and only if it has an address and a version there |
| `ResourceApi.GenerationIsCurrentIff` | pkg/resource/resource.go:255-288 | the template generation in hand is the server's, unless the stored object has another hash and its update changes the generation |
| `ResourceApi.IsThereIff` | pkg/resource/resource.go:205-253 | exactly when a request leaves its object on the server |
| `ResourceApi.SuccessMeansThereIff` | pkg/resource/resource.go:413-444 | behind success the object is there if and only if it was, or it is neither a skipped build nor an installed one-time Pod |
| `ResourceApi.VendorStep` | pkg/resource/resource.go:293-353 | only a decisive look at the pods moves the rebuild vendor |
| `ResourceApi.RebuildIffLastPullFailed` | pkg/resource/resource.go:446-454 | over any interleaving, a BuildConfig passes the skip test if and only if the last decisive look found a pull failure of its vendor |
| `YamlScanner.Scanner.Scan` | pkg/yamlutil/scan.go:50-81 | hands out the next document if there is one, and otherwise records why not; terminates; behind the end it answers the same again |
| `YamlScanner.ReachesEndIff` | pkg/yamlutil/scan.go:50-81 | all non-empty tokens come out in order if and only if no read fails and at most a hundred in a row are empty |
| `YamlScanner.YieldsAPrefix` | pkg/yamlutil/scan.go:50-81 | what comes out is always a prefix of the tokens |
| `YamlScanner.YieldsUpToEnd` | pkg/yamlutil/scan.go:50-81 | a scan that ends early has yielded exactly the documents before that read, and says why |
| `YamlScanner.LosesDocumentsIff` | pkg/yamlutil/scan.go:50-81 | documents are lost if and only if one lies behind a failing read or a stall |
| `YamlScanner.CreateFromYAML` | pkg/resource/resource.go:122-161 | succeeds if and only if every document was processed, in order, and the manifest was read to its end; else stops at the first failure |
| `YamlScanner.GetObjectsFromYAML` | pkg/resource/resource.go:163-185 | the objects of the documents handed out, or nothing if one of them does not parse; the scanner's error is not looked at |
| `YamlScanner.TruncationGoesUnnoticedIff` | pkg/resource/resource.go:168-184 | the call returns too few objects without an error if and only if what it sees parses and a document lies behind a failing read or a stall |
| `YamlScanner.TruncationGoesUnnoticed` | pkg/resource/resource.go:168-184 | with one document before a read error, the call returns its object alone |
| `HelmHooks.Collect` | pkg/helmer/helmer.go:449-457 | the hooks of the event, once per mention of it |
| `HelmHooks.ForEventCounts` | pkg/helmer/helmer.go:449-457 | how often a hook is collected |
| `HelmHooks.SortedByWeightThenName` | pkg/helmer/helmer.go:406-459 | the smaller weight first, and by name where weights agree |
| `HelmHooks.Helmer.ExecHook` | pkg/helmer/helmer.go:418-520 | one pass: the manifests applied, the deletions in order, the marker, the outcome |
| `HelmHooks.Helmer.DeleteHookByPolicy` | pkg/helmer/helmer.go:215-242 | deletes if and only if the hook has the policy and is no resource definition |
| `HelmHooks.DeletionsFollowPolicies` | pkg/helmer/helmer.go:461-507 | what an earlier run left goes before a manifest is applied; only a failed hook is cleared as failed; hooks are cleared as succeeded only behind the success of all |
| `HelmHooks.PassIsOrdered` | pkg/helmer/helmer.go:449-519 | a pass applies a prefix in order; the marker appears only behind a pass that applied all hooks; with it nothing is applied |
| `HelmHooks.PassIff` | pkg/helmer/helmer.go:418-520 | exactly when a pass succeeds, exactly when it leaves the marker, and which hooks it applied otherwise |
| `HelmHooks.FullPassSettles` | pkg/helmer/helmer.go:438-519 | over any calls, behind one in which everything went well no later call applies anything |
| `HelmHooks.DeletionsAreMade` | pkg/helmer/helmer.go:461-507 | the deletions that the policies ask for are made |
| `HelmHooks.NothingAppliedTwice` | pkg/helmer/helmer.go:438-447 | over any calls, once the marker exists no manifest is applied, of whatever release |
| `HelmHooks.MarkerMeansApplied` | pkg/helmer/helmer.go:500-519 | over any calls, the marker goes back to a call that applied every hook of its release |
| `HelmHooks.AllAppliedIff` | pkg/helmer/helmer.go:438-519 | a successful call applied all hooks of its release if and only if there are none or no earlier call recorded its own |
| `PreflightCheck.GetRelevantDaemonSets` | pkg/preflight/preflight.go:159-193 | exactly the driver containers that no BuildConfig of the same token pairs with |
| `PreflightCheck.DaemonSetPreflightCheck` | pkg/preflight/preflight.go:195-228 | verified if and only if the topmost toolkit layer is for the kernel and it and all layers above can be read; the reason in every other case |
| `PreflightCheck.HandleYAMLsCheck` | pkg/preflight/preflight.go:127-157 | verified if and only if the documents handed out parse and every driver container can be built or is there; the reason and the error in every other case |
| `PreflightCheck.ReadyIgnoresOrder` | pkg/preflight/preflight.go:127-228 | the verdict is invariant under permuting the manifest |
| `PreflightController.Controller.Entry` | controllers/preflightvalidation_controller.go:202-210 | the entry of a name, appended if there was none |
| `PreflightController.Controller.SetVerificationStatus` | internal/controllers/state/statusupdater.go:84-94 | the change in memory and, if the merge patch is accepted and differs, in the stored list |
| `PreflightController.Controller.PresetStatuses` | controllers/preflightvalidation_controller.go:172-183 | presets new entries and stops at a failed write |
| `PreflightController.Controller.CheckItems` | controllers/preflightvalidation_controller.go:122-141 | checks what is neither deleted nor verified, and goes on past failed writes |
| `PreflightController.Controller.CheckCompletion` | controllers/preflightvalidation_controller.go:185-200 | complete if and only if every stored entry is True |
| `PreflightController.Controller.RunPreflightValidation` | controllers/preflightvalidation_controller.go:62-144 | one reconcile: the stored list and the report |
| `PreflightController.PresetEffect` | controllers/preflightvalidation_controller.go:172-183 | presetting gives every listed resource a stored entry and touches no True one |
| `PreflightController.TrueIsSticky` | controllers/preflightvalidation_controller.go:122-141 | a stored True entry survives every reconcile unchanged |
| `PreflightController.ReconcileIsSound` | controllers/preflightvalidation_controller.go:100-183 | names stay unique, none disappears, and a new True was earned by a check |
| `PreflightController.CompletionIsSound` | controllers/preflightvalidation_controller.go:100-200 | completion means a stored True entry for every listed resource, also when writes failed |
| `PreflightController.UncheckedEntryBlocks` | controllers/preflightvalidation_controller.go:122-200 | an entry that is not True stays and blocks completion while its resource is unlisted or under deletion |
| `PreflightController.BlockedForever` | controllers/preflightvalidation_controller.go:100-200 | over any history, as long as that lasts no reconcile reports completion |
| `PreflightController.PresetOkIff` | controllers/preflightvalidation_controller.go:172-183 | presetting goes through if and only if each write for a resource without an entry is accepted |
| `PreflightController.ChecksCompleteIff` | controllers/preflightvalidation_controller.go:122-141 | the checks leave all entries True if and only if unlisted ones were True, listed ones were or are verified, and the last status write is accepted; earlier failed writes do not matter |
| `PreflightController.CompletedIff` | controllers/preflightvalidation_controller.go:62-200 | exactly when a reconcile reports completion, in terms of what it starts from and what it is answered |
| `PreflightController.CompletionIffEntriesTrue` | controllers/preflightvalidation_controller.go:185-200 | for any listing: completion if and only if each listed resource has a stored True entry and each unlisted entry was True |
| `PreflightController.CheckIsRecorded` | controllers/preflightvalidation_controller.go:122-141 | what a check found is stored, if its own write is accepted |
| `PreflightController.UncheckedIsPreset` | controllers/preflightvalidation_controller.go:122-183 | a resource under deletion without an entry ends with the preset one |
| `PreflightController.ReportIff` | controllers/preflightvalidation_controller.go:62-144 | exactly when a reconcile fails, and that it changes nothing when it cannot begin |
| `PreflightController.TrueIsEarned` | controllers/preflightvalidation_controller.go:100-210 | in every history, names are unique and a stored True goes back to a check of that resource that returned verified without error |
| `PreflightController.TrueForever` | controllers/preflightvalidation_controller.go:122-141 | in every history, a True entry stays for good |
| `Finalizer.Cluster.LabelNodes` | controllers/label_nodes.go:13-39 | labels the nodes up to the first update that is not accepted |
| `Finalizer.Cluster.StripLabels` | internal/controllers/finalizers/specialresource.go:92-100 | drops exactly the labels that contain the prefix |
| `Finalizer.Cluster.FinalizeNodes` | internal/controllers/finalizers/specialresource.go:85-113 | cleans the nodes whose update is accepted; fails if and only if one is forbidden or in conflict |
| `Finalizer.Cluster.FinalizeSpecialResource` | internal/controllers/finalizers/specialresource.go:115-157 | succeeds if and only if the nodes were handled and the namespace is absent, unowned, or deleted and seen gone |
| `Finalizer.Cluster.Finalize` | internal/controllers/finalizers/specialresource.go:64-83 | the finalizer comes off the stored resource exactly then, and not otherwise |
| `Finalizer.CleaningForgetsLabels` | internal/controllers/finalizers/specialresource.go:91-103 | any sequence of state labels leaves no trace on a node that is cleaned |
| `Finalizer.LabelsOf` | controllers/label_nodes.go:13-39 | behind the states a node has Ready where one of them put a label, and otherwise what it had |
| `Finalizer.NodeRestoredIff` | internal/controllers/finalizers/specialresource.go:85-113 | exactly when a node ends with the labels it began with |
| `Finalizer.StrippedIs` | internal/controllers/finalizers/specialresource.go:92-100 | exactly the labels with the prefix anywhere in their key are taken, the others keep their value |
| `Finalizer.RoundTripIff` | internal/controllers/finalizers/specialresource.go:85-125 | labelling and finalizing, each over its own nodes, restore all labels if and only if cleaned nodes had none with the prefix and labelled ones that are not cleaned had theirs before |
| `Finalizer.RoundTripOnSameNodesIff` | internal/controllers/finalizers/specialresource.go:115-125 | if all labelled nodes are cleaned: if and only if no label contained the prefix before |
| `Finalizer.FinalizeTakesIff` | internal/controllers/finalizers/specialresource.go:96-98 | the clean-up of one resource takes the state label of another if and only if its name starts the other's name, dash and digits |
| `Finalizer.FinalizeTakesLongerNames` | internal/controllers/finalizers/specialresource.go:96-98 | so it takes the labels of longer resource names |
| `Finalizer.FinalizeTakesShorterNames` | internal/controllers/finalizers/specialresource.go:96-98 | and those of a shorter name that it continues by a dash and leading digits |
| `ManagedReconcile.SetConditionHolds` | internal/controllers/state/statusupdater.go:52-56 | setting a condition changes the truth of its own type only |
| `ManagedReconcile.ExactlyOneHolds` | internal/controllers/state/statusupdater.go:51-82 | after a status call exactly the condition that was set is true |
| `ManagedReconcile.ConditionsAre` | internal/controllers/state/statusupdater.go:51-82 | the reason and message of the condition that was set, and the reason of the two that are false |
| `ManagedReconcile.Reconciler.SetStatus` | internal/controllers/state/statusupdater.go:51-82 | the conditions in memory and, if accepted, in the store, which then shows that phase and no other |
| `ManagedReconcile.Reconciler.DeployDependencies` | controllers/specialresource.go:81-130 | goes through if and only if every dependency loads, is linked, exists and deploys, in order; else which error is written to whom and what is returned |
| `ManagedReconcile.Reconciler.ReconcileManaged` | controllers/specialresource.go:68-146 | Ready is stored if and only if everything succeeded; else which error is written and what is returned; the server shows what was last written |
| `ManagedReconcile.Reconciler.SpecialResourcesReconcile` | controllers/specialresource.go:26-146 | Ready is written last and only behind every deployment; every other exit leaves the stored Ready condition false |

## Left out

- Network, registry and certificate access, release images by version, and the rest of `pkg/clients`: answers from
  outside.
- Helm rendering, value merging, JSON path lookup, YAML and JSON conversion: libraries; their results are parameters.
- The race between the unlocked removal loop and the locked mapper of the watcher: calls are atomic here, except that
  the order of statements inside an update is covered by `DropData`, `DropPath`, `AddPath` and `AddData`.
- Watcher.Watcher.Mapper: values at a path are strings; on others the source panics.
- Watcher.Watcher.AreEqual: sorts copies and returns them; the caller stores them where the source sorts in place.
- ChartStates.ReconcileChartStates: template lists are values; the source appends to slices that may share a backing
  array, each of which is used up before the next append.
- ChartStates.Prepare: templates of equal name are ordered by an insertion sort, where the source leaves their order
  open.
- KernelAffinity.Manifest.SetAffineAttributes: how far an object is edited before an error is left open; the source
  drops it.
- KernelAffinity.EveryNodeServedOnce: assumes that the node label with the kernel agrees with the node's kernel
  version; it follows one object of a state's manifest in one namespace, and whether a run applies it is an answer
  from outside.
- PreflightController.CompletedIff: listed resources have distinct names, as cluster-scoped objects of one kind do;
  `PreflightController.CompletionIffEntriesTrue` is without that.
- Finalizer.FinalizeTakesIff: the other resource's name has no slash; the API server admits none that has.
- VersionScan.GetOCPVersions: the pattern for versions, release images by version and the registry are parameters.
- ResourceApi.Api.CreateObjFromYAML: the proxy setup can only fail here; the container list it edits is a copy of the
  object's.
- ResourceApi.Api.Crud: an object is its kind, key, annotations, version, address, restart policy and an opaque body;
  labels and owner references are part of the body. A write that is reported as failed has no effect.
- PreflightController.Controller.RunPreflightValidation: reads return the current stored object, not a stale cached
  one.
- HelmHooks.Helmer.ExecHook: the phases and times of hooks in the release record.
- `pkg/proxy`, `pkg/poll`, `pkg/filter`, storage of dependency links, metrics, logging, leader election and the
  command line: they would add only easy members.
- `createImagePullerRoleBinding`, `createSpecialResourceFrom` and `RemoveResources`: single API calls without state of
  their own.
