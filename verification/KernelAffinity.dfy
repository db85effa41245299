/** pkg/kernel/kernel.go and the node selector part of internal/resourcehelper/helper.go, and what they give together with
    the node list, the cluster information and the Helm runs: which nodes are served by the replicas that the API server
    holds in the end. */
module KernelAffinity {
  import opened Annotations
  import opened Sequences
  import opened Strings
  import Upgrade
  import ChartStates
  import ResourceApi

  const KERNEL := "feature.node.kubernetes.io/kernel-version.full"

  const BUILD_REF := "spec.buildRef.name"
  const APP_LABEL := "metadata.labels.app"
  const MATCH_APP := "spec.selector.matchLabels.app"
  const TEMPLATE_APP := "spec.template.metadata.labels.app"
  const TEMPLATE_SELECTOR := "spec.template.spec.nodeSelector"
  const SELECTOR := "spec.nodeSelector"

  /** The fields of an object that the affinity code reads or writes. `templateSelector` is the node selector of a
      pod template, `selector` that of the object itself. `misfits` are the paths at which a value of another type is in
      the way, so that reading or setting the field is an error. */
  datatype Obj = Obj(kind: string, name: string, annotations: map<string, string>,
                     appLabel: string, matchApp: string, templateApp: string, buildRef: string,
                     templateSelector: map<string, string>, selector: map<string, string>, misfits: set<string>)

  predicate IsAffine(o: Obj) { AFFINE in o.annotations && o.annotations[AFFINE] == "true" }

  /** The kinds whose pod template gets a node selector. The source spells the third kind `Statefulset`. */
  predicate HasTemplate(kind: string) { kind == "DaemonSet" || kind == "Deployment" || kind == "Statefulset" }

  predicate HasSelector(kind: string) { kind == "Pod" || kind == "BuildConfig" }

  predicate HasApp(kind: string) { kind == "DaemonSet" || kind == "Deployment" || kind == "StatefulSet" }

  /** The paths that naming a replica of this kind sets. */
  function NamePaths(kind: string): set<string> {
    if kind == "BuildRun" then {BUILD_REF} else if HasApp(kind) then {APP_LABEL, MATCH_APP, TEMPLATE_APP} else {}
  }

  /** The path of the node selector that the code edits, if it edits one. */
  function SelectorPaths(kind: string): set<string> {
    if HasTemplate(kind) then {TEMPLATE_SELECTOR} else if HasSelector(kind) then {SELECTOR} else {}
  }

  /** Every field that an edit of this object goes through can be read and set. */
  predicate Fits(o: Obj) {
    SelectorPaths(o.kind) !! o.misfits && (IsAffine(o) ==> NamePaths(o.kind) !! o.misfits)
  }

  function ReplicaName(name: string, kernel: string, os: string, hash: string -> string): string {
    name + "-" + hash(Tag(kernel, os))
  }

  /** The string that is hashed into a replica's name. */
  function Tag(kernel: string, os: string): string { os + "-" + Dashed(kernel) }

  /** The object under a new name, which its label, selector and template, or its build reference, repeat. */
  function Renamed(o: Obj, name: string): (r: Obj)
    ensures r.kind == o.kind && r.name == name && r.annotations == o.annotations
    ensures r.templateSelector == o.templateSelector && r.selector == o.selector && r.misfits == o.misfits
  {
    if o.kind == "BuildRun" then o.(name := name, buildRef := name)
    else if HasApp(o.kind) then o.(name := name, appLabel := name, matchApp := name, templateApp := name)
    else o.(name := name)
  }

  /** `SetAffineAttributes`: the name of the replica, and the kernel in the node selector. */
  function SetAffine(o: Obj, kernel: string, os: string, hash: string -> string): Obj {
    var r := Renamed(o, ReplicaName(o.name, kernel, os, hash));
    if HasTemplate(o.kind) then r.(templateSelector := r.templateSelector[KERNEL := kernel])
    else if HasSelector(o.kind) then r.(selector := r.selector[KERNEL := kernel])
    else r
  }

  /** `SetNodeSelectorTerms`: the terms of the custom resource, which override what is there. */
  function SetTerms(o: Obj, terms: map<string, string>): Obj {
    if HasTemplate(o.kind) then o.(templateSelector := o.templateSelector + terms)
    else if HasSelector(o.kind) then o.(selector := o.selector + terms)
    else o
  }

  /** The object as it is created for one kernel. */
  function Replica(o: Obj, kernel: string, os: string, terms: map<string, string>, hash: string -> string): Obj {
    SetTerms(if IsAffine(o) then SetAffine(o, kernel, os, hash) else o, terms)
  }

  /** The node selector that the scheduler reads. */
  function NodeSelector(o: Obj): map<string, string> {
    if HasApp(o.kind) then o.templateSelector else o.selector
  }

  /** The replica may run on a node with this kernel. */
  predicate Serves(o: Obj, kernel: string) { KERNEL in NodeSelector(o) && NodeSelector(o)[KERNEL] == kernel }

  predicate Pinned(kind: string) { kind == "DaemonSet" || kind == "Deployment" || kind == "Pod" || kind == "BuildConfig" }

  lemma PinnedSelector(o: Obj, kernel: string, os: string, terms: map<string, string>, hash: string -> string)
    requires IsAffine(o) && Pinned(o.kind)
    ensures var r := Replica(o, kernel, os, terms, hash);
      NodeSelector(r) == NodeSelector(o)[KERNEL := kernel] + terms && r.name == ReplicaName(o.name, kernel, os, hash)
  {
    hide Renamed, ReplicaName, IsAffine;
  }

  /** A replica is pinned to its kernel, unless the custom resource's selector names one: then to that. */
  lemma ReplicaIsPinned(o: Obj, kernel: string, os: string, terms: map<string, string>, hash: string -> string)
    requires IsAffine(o) && Pinned(o.kind)
    ensures var r := Replica(o, kernel, os, terms, hash);
      && KERNEL in NodeSelector(r)
      && NodeSelector(r)[KERNEL] == (if KERNEL in terms then terms[KERNEL] else kernel)
      && r.name == ReplicaName(o.name, kernel, os, hash)
      && (forall k :: k in terms ==> k in NodeSelector(r) && NodeSelector(r)[k] == terms[k])
  {
    PinnedSelector(o, kernel, os, terms, hash);
    hide *;
  }

  /** A StatefulSet gets a name per kernel but no node selector, so its replicas are not kept apart. */
  lemma StatefulSetIsNotPinned(o: Obj, kernel: string, os: string, terms: map<string, string>, hash: string -> string)
    requires IsAffine(o) && o.kind == "StatefulSet"
    ensures NodeSelector(Replica(o, kernel, os, terms, hash)) == NodeSelector(o)
    ensures Replica(o, kernel, os, terms, hash).name == ReplicaName(o.name, kernel, os, hash)
  {}

  /** Where neither the chart nor the custom resource names a kernel, the replica of a kernel-affine object selects one if
      and only if its kind is one that the switch spells as Kubernetes does. */
  lemma SelectsKernelIff(o: Obj, kernel: string, os: string, terms: map<string, string>, hash: string -> string)
    requires IsAffine(o) && KERNEL !in terms && KERNEL !in NodeSelector(o)
    ensures KERNEL in NodeSelector(Replica(o, kernel, os, terms, hash)) <==> Pinned(o.kind)
  {
    if Pinned(o.kind) {
      PinnedSelector(o, kernel, os, terms, hash);
      hide *;
    } else {
      hide Renamed, ReplicaName, IsAffine;
    }
  }

  /** What a replica is called and which fields repeat that: the labels of the object, of its selector and of its pods for
      the kinds with pods, the build reference for a BuildRun, and nothing else. Without the annotation nothing is renamed. */
  lemma ReplicaIsNamed(o: Obj, kernel: string, os: string, terms: map<string, string>, hash: string -> string)
    ensures var r := Replica(o, kernel, os, terms, hash);
      var affine := AFFINE in o.annotations && o.annotations[AFFINE] == "true";
      var name := if affine then o.name + "-" + hash(os + "-" + Dashed(kernel)) else o.name;
      var pods := affine && (o.kind == "DaemonSet" || o.kind == "Deployment" || o.kind == "StatefulSet");
      && r.kind == o.kind && r.annotations == o.annotations && r.name == name
      && r.appLabel == (if pods then name else o.appLabel)
      && r.matchApp == (if pods then name else o.matchApp)
      && r.templateApp == (if pods then name else o.templateApp)
      && r.buildRef == (if affine && o.kind == "BuildRun" then name else o.buildRef)
  {
    var named := if IsAffine(o) then Renamed(o, ReplicaName(o.name, kernel, os, hash)) else o;
    SelectorEditsKeepNames(o, kernel, os, terms, hash);
    RenamedIs(o, ReplicaName(o.name, kernel, os, hash));
    hide Dashed, Replica, Renamed;
  }

  /** The objects agree on all but their node selectors. */
  predicate SameNames(r: Obj, o: Obj) { r == o.(templateSelector := r.templateSelector, selector := r.selector) }

  lemma SelectorEditsKeepNames(o: Obj, kernel: string, os: string, terms: map<string, string>, hash: string -> string)
    ensures SameNames(Replica(o, kernel, os, terms, hash), if IsAffine(o) then Renamed(o, ReplicaName(o.name, kernel, os, hash)) else o)
  {
    hide Renamed, ReplicaName, IsAffine, HasTemplate, HasSelector;
  }

  lemma RenamedIs(o: Obj, name: string)
    ensures var r := Renamed(o, name);
      var pods := o.kind == "DaemonSet" || o.kind == "Deployment" || o.kind == "StatefulSet";
      && r.appLabel == (if pods then name else o.appLabel)
      && r.matchApp == (if pods then name else o.matchApp)
      && r.templateApp == (if pods then name else o.templateApp)
      && r.buildRef == (if o.kind == "BuildRun" then name else o.buildRef)
  {
    assert "BuildRun"[0] == 'B' && "DaemonSet"[0] == 'D' && "Deployment"[0] == 'D' && "StatefulSet"[0] == 'S';
  }

  /** The terms alone are added where the object is not kernel-affine. */
  lemma PlainObjectGetsTerms(o: Obj, kernel: string, os: string, terms: map<string, string>, hash: string -> string)
    requires !IsAffine(o)
    ensures var r := Replica(o, kernel, os, terms, hash);
      && r == o.(templateSelector := r.templateSelector, selector := r.selector)
      && (Pinned(o.kind) ==> NodeSelector(r) == NodeSelector(o) + terms)
      && (!Pinned(o.kind) ==> NodeSelector(r) == NodeSelector(o))
  {
    hide IsAffine;
  }

  /** An edit fails exactly on a field that is in the way of it, and on the other kinds never. */
  lemma FitsByKind(o: Obj)
    ensures var affine := AFFINE in o.annotations && o.annotations[AFFINE] == "true";
      var apps := affine ==> "metadata.labels.app" !in o.misfits && "spec.selector.matchLabels.app" !in o.misfits
                             && "spec.template.metadata.labels.app" !in o.misfits;
      var template := "spec.template.spec.nodeSelector" !in o.misfits;
      && (o.kind == "DaemonSet" || o.kind == "Deployment" ==> (Fits(o) <==> template && apps))
      && (o.kind == "StatefulSet" ==> (Fits(o) <==> apps))
      && (o.kind == "Statefulset" ==> (Fits(o) <==> template))
      && (o.kind == "Pod" || o.kind == "BuildConfig" ==> (Fits(o) <==> "spec.nodeSelector" !in o.misfits))
      && (o.kind == "BuildRun" ==> (Fits(o) <==> (affine ==> "spec.buildRef.name" !in o.misfits)))
      && (o.kind !in {"DaemonSet", "Deployment", "StatefulSet", "Statefulset", "Pod", "BuildConfig", "BuildRun"} ==> Fits(o))
  {}

  /** With a hash that does not collide on the two, two replicas share a name exactly when they agree on the OS version
      and their kernels differ only in `_` against `-`. */
  lemma NamesAgreeIff(name: string, k1: string, os1: string, k2: string, os2: string, hash: string -> string)
    requires '-' !in os1 && '-' !in os2
    requires hash(Tag(k1, os1)) == hash(Tag(k2, os2)) ==> Tag(k1, os1) == Tag(k2, os2)
    ensures ReplicaName(name, k1, os1, hash) == ReplicaName(name, k2, os2, hash) <==> os1 == os2 && Dashed(k1) == Dashed(k2)
  {
    var h1, h2 := hash(Tag(k1, os1)), hash(Tag(k2, os2));
    if ReplicaName(name, k1, os1, hash) == ReplicaName(name, k2, os2, hash) {
      assert (name + "-" + h1)[|name| + 1..] == h1 && (name + "-" + h2)[|name| + 1..] == h2;
      SplitAtFirst(os1, Dashed(k1), os2, Dashed(k2), '-');
    }
  }

  // ---------------------------------------------------------------- from nodes to replicas

  /** The objects created by the Helm runs `runs`, from what the chart renders for each kernel. */
  function Replicas(runs: seq<string>, render: string -> Obj, info: map<string, Upgrade.NodeVersion>,
                    terms: map<string, string>, hash: string -> string): (r: seq<Obj>)
    requires forall k :: k in runs ==> k in info
    ensures |r| == |runs|
    ensures forall i :: 0 <= i < |runs| ==> r[i] == Replica(render(runs[i]), runs[i], info[runs[i]].os, terms, hash)
  {
    if runs == [] then []
    else
      [Replica(render(runs[0]), runs[0], info[runs[0]].os, terms, hash)] + Replicas(runs[1..], render, info, terms, hash)
  }

  // ---------------------------------------------------------------- what the API server holds

  /** The API server keys objects by kind and name; the replicas of a state share a namespace. */
  datatype Key = Key(kind: string, name: string)

  function KeyOf(o: Obj): Key { Key(o.kind, o.name) }

  type Store = map<Key, Obj>

  /** Applying `o`: what is there is replaced, unless its kind is never updated or it has the hash of `o`. */
  function Put(store: Store, o: Obj, objHash: Obj -> string): Store {
    var k := KeyOf(o);
    if k in store && (ResourceApi.NotUpdateable(o.kind) || objHash(store[k]) == objHash(o)) then store else store[k := o]
  }

  function StoreAfter(start: Store, rs: seq<Obj>, objHash: Obj -> string): Store {
    if rs == [] then start else Put(StoreAfter(start, rs[..|rs| - 1], objHash), rs[|rs| - 1], objHash)
  }

  /** The hash does not collide on the objects in play. */
  ghost predicate Faithful(start: Store, rs: seq<Obj>, objHash: Obj -> string) {
    forall a, b :: (a in rs || a in start.Values) && (b in rs || b in start.Values) && objHash(a) == objHash(b) ==> a == b
  }

  /** Replica `i` is what the server holds under its key in the end: the last one of an updateable kind, the first one of
      another kind if nothing was there. */
  ghost predicate Stays(start: Store, rs: seq<Obj>, i: nat)
    requires i < |rs|
  {
    if ResourceApi.NotUpdateable(rs[i].kind)
    then KeyOf(rs[i]) !in start && forall j :: 0 <= j < i ==> KeyOf(rs[j]) != KeyOf(rs[i])
    else forall j :: i < j < |rs| ==> KeyOf(rs[j]) != KeyOf(rs[i])
  }

  ghost predicate HasKey(rs: seq<Obj>, k: Key) { exists i :: 0 <= i < |rs| && KeyOf(rs[i]) == k }

  /** An object that is never updated was there under `k` before. */
  predicate Kept(start: Store, k: Key) { ResourceApi.NotUpdateable(k.kind) && k in start }

  lemma {:induction false} StoreMembers(start: Store, rs: seq<Obj>, objHash: Obj -> string, k: Key)
    ensures var store := StoreAfter(start, rs, objHash);
      && (k in store <==> k in start || HasKey(rs, k))
      && (k in store ==> store[k] in rs || store[k] in start.Values)
      && (!HasKey(rs, k) && k in start ==> store[k] == start[k])
      && (Kept(start, k) ==> k in store && store[k] == start[k])
    decreases |rs|
  {
    hide ResourceApi.NotUpdateable;
    if rs != [] {
      var n := |rs| - 1;
      var init := rs[..n];
      HasKeyNext(rs, k);
      hide HasKey;
      assert rs == init + [rs[n]];
      StoreMembers(start, init, objHash, k);
    }
  }

  lemma HasKeyNext(rs: seq<Obj>, k: Key)
    requires rs != []
    ensures HasKey(rs, k) <==> HasKey(rs[..|rs| - 1], k) || KeyOf(rs[|rs| - 1]) == k
  {
    hide KeyOf;
    var init := rs[..|rs| - 1];
    if HasKey(init, k) {
      var i :| 0 <= i < |init| && KeyOf(init[i]) == k;
      assert KeyOf(rs[i]) == k;
    }
    if HasKey(rs, k) && KeyOf(rs[|rs| - 1]) != k {
      var i :| 0 <= i < |rs| && KeyOf(rs[i]) == k;
      assert KeyOf(init[i]) == k;
    }
  }

  lemma FaithfulPrefix(start: Store, rs: seq<Obj>, objHash: Obj -> string, n: nat)
    requires Faithful(start, rs, objHash) && n <= |rs|
    ensures Faithful(start, rs[..n], objHash)
  {}

  lemma {:induction false} StaysIsStored(start: Store, rs: seq<Obj>, objHash: Obj -> string, i: nat)
    requires Faithful(start, rs, objHash) && i < |rs| && Stays(start, rs, i)
    ensures var store := StoreAfter(start, rs, objHash); KeyOf(rs[i]) in store && store[KeyOf(rs[i])] == rs[i]
    decreases |rs|
  {
    hide ResourceApi.NotUpdateable;
    var n := |rs| - 1;
    var init := rs[..n];
    if i < n {
      FaithfulPrefix(start, rs, objHash, n);
      assert Stays(start, init, i) by { assert forall j :: 0 <= j < n ==> init[j] == rs[j]; }
      StaysIsStored(start, init, objHash, i);
      assert ResourceApi.NotUpdateable(rs[n].kind) || KeyOf(rs[n]) != KeyOf(rs[i]);
    } else {
      StoreMembers(start, init, objHash, KeyOf(rs[n]));
      assert ResourceApi.NotUpdateable(rs[n].kind) ==> !HasKey(init, KeyOf(rs[n]));
      assert rs[n] in rs && forall o :: o in init ==> o in rs;
    }
  }

  /** Under each key of the replicas the server holds one of them in the end, or what it never updates. */
  lemma {:induction false} SomeReplicaStays(start: Store, rs: seq<Obj>, k: Key)
    requires HasKey(rs, k) && !Kept(start, k)
    ensures exists i :: 0 <= i < |rs| && KeyOf(rs[i]) == k && Stays(start, rs, i)
    decreases |rs|
  {
    hide ResourceApi.NotUpdateable;
    var n := |rs| - 1;
    var init := rs[..n];
    assert forall j :: 0 <= j < n ==> init[j] == rs[j];
    if HasKey(init, k) && (ResourceApi.NotUpdateable(k.kind) || KeyOf(rs[n]) != k) {
      SomeReplicaStays(start, init, k);
      var i :| 0 <= i < n && KeyOf(init[i]) == k && Stays(start, init, i);
      assert Stays(start, rs, i);
    } else {
      assert KeyOf(rs[n]) == k by {
        var i :| 0 <= i < |rs| && KeyOf(rs[i]) == k;
        if i < n { assert KeyOf(init[i]) == k; }
      }
      assert Stays(start, rs, n) by {
        if ResourceApi.NotUpdateable(k.kind) {
          forall j | 0 <= j < n ensures KeyOf(rs[j]) != k { assert KeyOf(init[j]) != k; }
        }
      }
    }
  }

  /** The object under key `k` of one of the replicas may run on a node with this kernel. */
  ghost predicate ServesUnder(store: Store, rs: seq<Obj>, k: Key, kernel: string) {
    HasKey(rs, k) && k in store && Serves(store[k], kernel)
  }

  ghost predicate Served(store: Store, rs: seq<Obj>, kernel: string) { exists k :: ServesUnder(store, rs, k, kernel) }

  /** A replica for this kernel stays. */
  ghost predicate ReplicaStays(start: Store, rs: seq<Obj>, kernel: string) {
    exists i :: 0 <= i < |rs| && Serves(rs[i], kernel) && Stays(start, rs, i)
  }

  /** An object that was there before, is never updated and may run on a node with this kernel. */
  ghost predicate KeptServes(start: Store, rs: seq<Obj>, kernel: string) {
    exists k :: Kept(start, k) && ServesUnder(start, rs, k, kernel)
  }

  /** A stored object serves the kernel if and only if a replica for it stays, or an old object that is never updated
      serves it. */
  lemma ServedIffStays(start: Store, rs: seq<Obj>, objHash: Obj -> string, kernel: string)
    requires Faithful(start, rs, objHash)
    ensures Served(StoreAfter(start, rs, objHash), rs, kernel) <==>
            ReplicaStays(start, rs, kernel) || KeptServes(start, rs, kernel)
  {
    hide Serves, Stays, StoreAfter, Faithful;
    var store := StoreAfter(start, rs, objHash);
    if Served(store, rs, kernel) {
      var k :| ServesUnder(store, rs, k, kernel);
      StoreMembers(start, rs, objHash, k);
      if Kept(start, k) {
        assert ServesUnder(start, rs, k, kernel);
      } else {
        SomeReplicaStays(start, rs, k);
        var i :| 0 <= i < |rs| && KeyOf(rs[i]) == k && Stays(start, rs, i);
        StaysIsStored(start, rs, objHash, i);
      }
    }
    if ReplicaStays(start, rs, kernel) {
      var i :| 0 <= i < |rs| && Serves(rs[i], kernel) && Stays(start, rs, i);
      StaysIsStored(start, rs, objHash, i);
      assert ServesUnder(store, rs, KeyOf(rs[i]), kernel);
    }
    if KeptServes(start, rs, kernel) {
      var k :| Kept(start, k) && ServesUnder(start, rs, k, kernel);
      StoreMembers(start, rs, objHash, k);
      assert ServesUnder(store, rs, k, kernel);
    }
  }

  /** Nothing that is never updated is in the way of a replica. */
  ghost predicate Clear(start: Store, rs: seq<Obj>) { forall k :: HasKey(rs, k) ==> !Kept(start, k) }

  // ---------------------------------------------------------------- from nodes to stored replicas

  /** Replica `i` is the one for `created[i]`, so at most one replica serves a kernel. */
  lemma ReplicaServes(created: seq<string>, render: string -> Obj, info: map<string, Upgrade.NodeVersion>,
                      terms: map<string, string>, hash: string -> string, kernel: string, i: nat)
    requires i < |created| && forall k :: k in created ==> k in info
    requires KERNEL !in terms && forall k :: k in info ==> IsAffine(render(k)) && Pinned(render(k).kind)
    ensures Serves(Replicas(created, render, info, terms, hash)[i], kernel) <==> created[i] == kernel
  {
    hide Pinned, IsAffine, Replica, Serves;
    assert created[i] in info;
    PinnedServesItsKernel(render(created[i]), created[i], info[created[i]].os, terms, hash, kernel);
  }

  /** The run for `kernel` applied its replica, and the server holds that replica in the end. */
  ghost predicate OwnReplicaStays(start: Store, created: seq<string>, rs: seq<Obj>, kernel: string)
    requires |rs| == |created|
  {
    exists i :: 0 <= i < |created| && created[i] == kernel && Stays(start, rs, i)
  }

  /** End to end: a kernel-affine state that was begun and whose values merge, over the kernels of the untainted nodes,
      however the reconcile ended. Helm ran exactly once for each kernel, whichever runs failed. If the custom resource
      does not select a kernel itself and the chart renders a pinned, kernel-affine object, a selected untainted node is
      served by a stored replica if and only if the run for its kernel applied one and no other run's replica took its
      place under the same name, or by what was there before and is never updated. No two stored replicas serve it,
      unless such old objects are in the way. */
  lemma EveryNodeServedOnce(nodes: seq<Upgrade.Node>, info: map<string, Upgrade.NodeVersion>, j: ChartStates.Job,
                            a: ChartStates.Answers, trace: seq<ChartStates.Event>, s: nat, render: string -> Obj,
                            terms: map<string, string>, hash: string -> string, start: Store, objHash: Obj -> string,
                            node: Upgrade.Node)
    requires forall k :: k in info <==> exists n :: n in Upgrade.Untainted(nodes) && n.kernel == k
    requires j.kernels == info.Keys && ChartStates.Lawful(j, trace) && ChartStates.Covered(j, a, trace)
    requires s < |j.states| && j.states[s].affine && ChartStates.Progress(s) in trace && ChartStates.Merges(j, a, s)
    requires KERNEL !in terms && forall k :: k in info ==> IsAffine(render(k)) && Pinned(render(k).kind)
    requires node in nodes && !Upgrade.Repels(node)
    ensures multiset(ChartStates.Runs(trace, s)) == multiset(info.Keys) && node.kernel in ChartStates.Runs(trace, s)
    ensures forall k :: k in ChartStates.CreatedFor(trace, s) ==> k in info
    ensures var created := ChartStates.CreatedFor(trace, s);
      var rs := Replicas(created, render, info, terms, hash);
      var store := StoreAfter(start, rs, objHash);
      Faithful(start, rs, objHash) ==>
        && (Served(store, rs, node.kernel) <==>
              OwnReplicaStays(start, created, rs, node.kernel) || KeptServes(start, rs, node.kernel))
        && (Clear(start, rs) ==>
              forall k, l :: ServesUnder(store, rs, k, node.kernel) && ServesUnder(store, rs, l, node.kernel) ==> k == l)
  {
    assert ChartStates.CoveredAt(j, trace, s);
    assert multiset(ChartStates.Runs(trace, s)) == multiset(info.Keys);
    hide *;
    Upgrade.UntaintedMembers(nodes, node);
    assert node.kernel in info;
    ChartStates.CreatedAreRuns(j, trace, s);
    var runs, created := ChartStates.Runs(trace, s), ChartStates.CreatedFor(trace, s);
    assert node.kernel in multiset(runs);
    forall k | k in created ensures k in info { assert k in multiset(runs); }
    var rs := Replicas(created, render, info, terms, hash);
    if Faithful(start, rs, objHash) { StoredReplicas(created, render, info, terms, hash, start, objHash, node.kernel); }
  }

  lemma StoredReplicas(created: seq<string>, render: string -> Obj, info: map<string, Upgrade.NodeVersion>,
                       terms: map<string, string>, hash: string -> string, start: Store, objHash: Obj -> string, kernel: string)
    requires Distinct(created) && forall k :: k in created ==> k in info
    requires KERNEL !in terms && forall k :: k in info ==> IsAffine(render(k)) && Pinned(render(k).kind)
    requires Faithful(start, Replicas(created, render, info, terms, hash), objHash)
    ensures var rs := Replicas(created, render, info, terms, hash);
      var store := StoreAfter(start, rs, objHash);
      && (Served(store, rs, kernel) <==> OwnReplicaStays(start, created, rs, kernel) || KeptServes(start, rs, kernel))
      && (Clear(start, rs) ==> forall k, l :: ServesUnder(store, rs, k, kernel) && ServesUnder(store, rs, l, kernel) ==> k == l)
  {
    var rs := Replicas(created, render, info, terms, hash);
    var store := StoreAfter(start, rs, objHash);
    forall i | 0 <= i < |rs| ensures Serves(rs[i], kernel) <==> created[i] == kernel {
      ReplicaServes(created, render, info, terms, hash, kernel, i);
    }
    hide *;
    ServedIffStays(start, rs, objHash, kernel);
    OwnIsReplica(start, created, rs, kernel);
    if Clear(start, rs) { AtMostOneServes(start, created, rs, objHash, kernel); }
  }

  lemma OwnIsReplica(start: Store, created: seq<string>, rs: seq<Obj>, kernel: string)
    requires |rs| == |created| && forall i :: 0 <= i < |rs| ==> (Serves(rs[i], kernel) <==> created[i] == kernel)
    ensures ReplicaStays(start, rs, kernel) <==> OwnReplicaStays(start, created, rs, kernel)
  {
    hide Serves, Stays;
  }

  lemma AtMostOneServes(start: Store, created: seq<string>, rs: seq<Obj>, objHash: Obj -> string, kernel: string)
    requires |rs| == |created| && Distinct(created) && Faithful(start, rs, objHash) && Clear(start, rs)
    requires forall i :: 0 <= i < |rs| ==> (Serves(rs[i], kernel) <==> created[i] == kernel)
    ensures var store := StoreAfter(start, rs, objHash);
      forall k, l :: ServesUnder(store, rs, k, kernel) && ServesUnder(store, rs, l, kernel) ==> k == l
  {
    hide Serves, Faithful, StoreAfter, KeyOf, HasKey;
    var store := StoreAfter(start, rs, objHash);
    forall k, l | ServesUnder(store, rs, k, kernel) && ServesUnder(store, rs, l, kernel) ensures k == l {
      var i := HolderOf(start, rs, objHash, k);
      var m := HolderOf(start, rs, objHash, l);
      assert created[i] == kernel == created[m];
    }
  }

  /** The replica that the server holds under one of their keys. */
  lemma HolderOf(start: Store, rs: seq<Obj>, objHash: Obj -> string, k: Key) returns (i: nat)
    requires Faithful(start, rs, objHash) && HasKey(rs, k) && !Kept(start, k)
    ensures i < |rs| && KeyOf(rs[i]) == k
    ensures var store := StoreAfter(start, rs, objHash); k in store && store[k] == rs[i]
  {
    hide Stays, StoreAfter, Faithful;
    SomeReplicaStays(start, rs, k);
    i :| 0 <= i < |rs| && KeyOf(rs[i]) == k && Stays(start, rs, i);
    StaysIsStored(start, rs, objHash, i);
  }

  // ---------------------------------------------------------------- when replicas share a name

  /** The kernels run the same OS version and differ only in `_` against `-`. */
  predicate Alike(info: map<string, Upgrade.NodeVersion>, k: string, l: string)
    requires k in info && l in info
  {
    info[k].os == info[l].os && Dashed(k) == Dashed(l)
  }

  /** What is hashed into the names does not collide, and OS versions have no dash. */
  ghost predicate Tagged(info: map<string, Upgrade.NodeVersion>, hash: string -> string) {
    && (forall k :: k in info ==> '-' !in info[k].os)
    && (forall k, l :: k in info && l in info && hash(Tag(k, info[k].os)) == hash(Tag(l, info[l].os)) ==>
          Tag(k, info[k].os) == Tag(l, info[l].os))
  }

  /** The chart renders the object under one kind and one name for all kernels. */
  ghost predicate OneObject(info: map<string, Upgrade.NodeVersion>, render: string -> Obj, kind: string, name: string) {
    forall k :: k in info ==> IsAffine(render(k)) && render(k).kind == kind && render(k).name == name
  }

  lemma KeysAgreeIff(created: seq<string>, render: string -> Obj, info: map<string, Upgrade.NodeVersion>, kind: string,
                     name: string, terms: map<string, string>, hash: string -> string, a: nat, b: nat)
    requires a < |created| && b < |created| && forall k :: k in created ==> k in info
    requires OneObject(info, render, kind, name) && Tagged(info, hash)
    ensures created[a] in info && created[b] in info
    ensures var rs := Replicas(created, render, info, terms, hash);
      && rs[a].kind == kind
      && (KeyOf(rs[a]) == KeyOf(rs[b]) <==> Alike(info, created[a], created[b]))
  {
    var k, l := created[a], created[b];
    assert k in info && l in info;
    ReplicaKey(render(k), k, info[k].os, terms, hash);
    ReplicaKey(render(l), l, info[l].os, terms, hash);
    hide Replica, ReplicaName, IsAffine, Replicas;
    NamesAgreeIff(name, k, info[k].os, l, info[l].os, hash);
  }

  lemma ReplicaKey(o: Obj, kernel: string, os: string, terms: map<string, string>, hash: string -> string)
    requires IsAffine(o)
    ensures KeyOf(Replica(o, kernel, os, terms, hash)) == Key(o.kind, ReplicaName(o.name, kernel, os, hash))
  {
    hide Renamed, ReplicaName, IsAffine;
  }

  /** The replica for a kernel stays if and only if no later run applied one for a kernel that is alike; for a kind that is
      never updated, no earlier run did and nothing was there. */
  lemma StaysIff(created: seq<string>, render: string -> Obj, info: map<string, Upgrade.NodeVersion>, kind: string,
                 name: string, terms: map<string, string>, hash: string -> string, start: Store, i: nat)
    requires i < |created| && forall k :: k in created ==> k in info
    requires OneObject(info, render, kind, name) && Tagged(info, hash)
    ensures created[i] in info
    ensures var rs := Replicas(created, render, info, terms, hash);
      Stays(start, rs, i) <==>
        if ResourceApi.NotUpdateable(kind)
        then KeyOf(rs[i]) !in start && forall j :: 0 <= j < i ==> created[j] in info && !Alike(info, created[j], created[i])
        else forall j :: i < j < |created| ==> created[j] in info && !Alike(info, created[j], created[i])
  {
    assert created[i] in info;
    var rs := Replicas(created, render, info, terms, hash);
    hide Replicas, OneObject, Tagged, Alike, ResourceApi.NotUpdateable;
    forall j | 0 <= j < |created|
      ensures created[j] in info && rs[j].kind == kind && (KeyOf(rs[j]) == KeyOf(rs[i]) <==> Alike(info, created[j], created[i]))
    {
      KeysAgreeIff(created, render, info, kind, name, terms, hash, j, i);
    }
  }

  /** So if no two kernels of the cluster are alike and nothing was there that is never updated, a node is served, and by
      exactly one stored replica, if and only if the run for its kernel applied its object. */
  lemma ServedIffCreated(nodes: seq<Upgrade.Node>, info: map<string, Upgrade.NodeVersion>, j: ChartStates.Job,
                         a: ChartStates.Answers, trace: seq<ChartStates.Event>, s: nat, render: string -> Obj, kind: string,
                         name: string, terms: map<string, string>, hash: string -> string, start: Store,
                         objHash: Obj -> string, node: Upgrade.Node)
    requires forall k :: k in info <==> exists n :: n in Upgrade.Untainted(nodes) && n.kernel == k
    requires j.kernels == info.Keys && ChartStates.Lawful(j, trace) && ChartStates.Covered(j, a, trace)
    requires s < |j.states| && j.states[s].affine && ChartStates.Progress(s) in trace && ChartStates.Merges(j, a, s)
    requires KERNEL !in terms && OneObject(info, render, kind, name) && Pinned(kind) && Tagged(info, hash)
    requires forall k, l :: k in info && l in info && k != l ==> !Alike(info, k, l)
    requires node in nodes && !Upgrade.Repels(node)
    ensures forall k :: k in ChartStates.CreatedFor(trace, s) ==> k in info
    ensures var rs := Replicas(ChartStates.CreatedFor(trace, s), render, info, terms, hash);
      Faithful(start, rs, objHash) && Clear(start, rs) ==>
        (Served(StoreAfter(start, rs, objHash), rs, node.kernel) <==> ChartStates.Created(trace, s, node.kernel))
  {
    forall k | k in info ensures IsAffine(render(k)) && Pinned(render(k).kind) {}
    hide *;
    EveryNodeServedOnce(nodes, info, j, a, trace, s, render, terms, hash, start, objHash, node);
    ChartStates.CreatedAreRuns(j, trace, s);
    ChartStates.CreatedMembers(trace, s, node.kernel);
    var created := ChartStates.CreatedFor(trace, s);
    var rs := Replicas(created, render, info, terms, hash);
    if Clear(start, rs) {
      ClearKeepsNothing(start, rs, node.kernel);
      OwnIffCreated(created, render, info, kind, name, terms, hash, start, node.kernel);
    }
  }

  lemma OwnIffCreated(created: seq<string>, render: string -> Obj, info: map<string, Upgrade.NodeVersion>, kind: string,
                      name: string, terms: map<string, string>, hash: string -> string, start: Store, kernel: string)
    requires Distinct(created) && forall k :: k in created ==> k in info
    requires OneObject(info, render, kind, name) && Tagged(info, hash)
    requires forall k, l :: k in info && l in info && k != l ==> !Alike(info, k, l)
    requires Clear(start, Replicas(created, render, info, terms, hash))
    ensures OwnReplicaStays(start, created, Replicas(created, render, info, terms, hash), kernel) <==> kernel in created
  {
    hide Replicas, OneObject, Tagged, Alike, Clear, Stays, Distinct;
    if kernel in created {
      var i :| 0 <= i < |created| && created[i] == kernel;
      AllStay(created, render, info, kind, name, terms, hash, start, i);
    }
  }

  lemma AllStay(created: seq<string>, render: string -> Obj, info: map<string, Upgrade.NodeVersion>, kind: string,
                name: string, terms: map<string, string>, hash: string -> string, start: Store, i: nat)
    requires Distinct(created) && i < |created| && forall k :: k in created ==> k in info
    requires OneObject(info, render, kind, name) && Tagged(info, hash)
    requires forall k, l :: k in info && l in info && k != l ==> !Alike(info, k, l)
    requires Clear(start, Replicas(created, render, info, terms, hash))
    ensures Stays(start, Replicas(created, render, info, terms, hash), i)
  {
    hide Alike, Tagged, OneObject, Stays, ResourceApi.NotUpdateable;
    StaysIff(created, render, info, kind, name, terms, hash, start, i);
    KeysAgreeIff(created, render, info, kind, name, terms, hash, i, i);
    var rs := Replicas(created, render, info, terms, hash);
    assert HasKey(rs, KeyOf(rs[i]));
    assert forall j :: 0 <= j < |created| ==> created[j] in created;
  }

  /** Two kernels that are alike: the replica of the later run takes the place of the earlier one, whose node is left
      without. */
  lemma AlikeKernelIsDropped(info: map<string, Upgrade.NodeVersion>, render: string -> Obj, kind: string, name: string,
                             terms: map<string, string>, hash: string -> string, objHash: Obj -> string, k1: string, k2: string)
    requires k1 in info && k2 in info && k1 != k2 && Alike(info, k1, k2)
    requires KERNEL !in terms && OneObject(info, render, kind, name) && Tagged(info, hash)
    requires Pinned(kind) && !ResourceApi.NotUpdateable(kind)
    requires Faithful(map[], Replicas([k1, k2], render, info, terms, hash), objHash)
    ensures var rs := Replicas([k1, k2], render, info, terms, hash);
      !Served(StoreAfter(map[], rs, objHash), rs, k1) && Served(StoreAfter(map[], rs, objHash), rs, k2)
  {
    var created := [k1, k2];
    var rs := Replicas(created, render, info, terms, hash);
    forall k | k in info ensures IsAffine(render(k)) && Pinned(render(k).kind) {}
    assert created[0] == k1 && created[1] == k2;
    assert Clear(map[], rs);
    ClearKeepsNothing(map[], rs, k1);
    ClearKeepsNothing(map[], rs, k2);
    hide Replicas, OneObject, Tagged, Faithful, Served, StoreAfter, Pinned, IsAffine, Stays, Alike, KeptServes, Clear,
      ServesUnder, Dashed;
    StoredReplicas(created, render, info, terms, hash, map[], objHash, k1);
    StoredReplicas(created, render, info, terms, hash, map[], objHash, k2);
    StaysIff(created, render, info, kind, name, terms, hash, map[], 0);
    StaysIff(created, render, info, kind, name, terms, hash, map[], 1);
  }

  lemma ClearKeepsNothing(start: Store, rs: seq<Obj>, kernel: string)
    requires Clear(start, rs)
    ensures !KeptServes(start, rs, kernel)
  {
    hide Serves;
  }

  lemma PinnedServesItsKernel(o: Obj, kernel: string, os: string, terms: map<string, string>, hash: string -> string,
                              other: string)
    requires IsAffine(o) && Pinned(o.kind) && KERNEL !in terms
    ensures Serves(Replica(o, kernel, os, terms, hash), other) <==> kernel == other
  {
    ReplicaIsPinned(o, kernel, os, terms, hash);
  }

  /** The replicas of one named object have pairwise distinct names, if the hash does not collide on the kernels of the
      cluster and no two of these differ only in `_` against `-`. */
  lemma ReplicaNamesDistinct(info: map<string, Upgrade.NodeVersion>, runs: seq<string>, name: string,
                             hash: string -> string, a: nat, b: nat)
    requires a < b < |runs| && multiset(runs) == multiset(info.Keys)
    requires forall k :: k in info ==> '-' !in info[k].os
    requires forall k, l :: k in info && l in info && hash(Tag(k, info[k].os)) == hash(Tag(l, info[l].os)) ==>
               Tag(k, info[k].os) == Tag(l, info[l].os)
    requires forall k, l :: k in info && l in info && k != l ==> Dashed(k) != Dashed(l)
    ensures runs[a] in info && runs[b] in info
    ensures ReplicaName(name, runs[a], info[runs[a]].os, hash) != ReplicaName(name, runs[b], info[runs[b]].os, hash)
  {
    assert runs[a] in multiset(runs) && runs[b] in multiset(runs);
    DistinctFromCounts(runs);
    NamesAgreeIff(name, runs[a], info[runs[a]].os, runs[b], info[runs[b]].os, hash);
  }

  // ---------------------------------------------------------------- the edits, one after the other

  class Manifest {
    var obj: Obj

    constructor (o: Obj)
      ensures obj == o
    {
      obj := o;
    }

    /** Fails at the first field that cannot be set; the caller then drops the object. */
    method SetAffineAttributes(kernel: string, os: string, hash: string -> string) returns (ok: bool)
      modifies this
      ensures ok <==> (NamePaths(old(obj).kind) + SelectorPaths(old(obj).kind)) !! old(obj).misfits
      ensures ok ==> obj == SetAffine(old(obj), kernel, os, hash)
      ensures obj.kind == old(obj).kind && obj.misfits == old(obj).misfits
    {
      var name := obj.name + "-" + hash(os + "-" + Dashed(kernel));
      hide Dashed;
      obj := obj.(name := name);
      if obj.kind == "BuildRun" {
        if BUILD_REF in obj.misfits { return false; }
        obj := obj.(buildRef := name);
      } else if HasApp(obj.kind) {
        if APP_LABEL in obj.misfits { return false; }
        obj := obj.(appLabel := name);
        if MATCH_APP in obj.misfits { return false; }
        obj := obj.(matchApp := name);
        if TEMPLATE_APP in obj.misfits { return false; }
        obj := obj.(templateApp := name);
      }
      if HasTemplate(obj.kind) {
        if TEMPLATE_SELECTOR in obj.misfits { return false; }
        obj := obj.(templateSelector := obj.templateSelector[KERNEL := kernel]);
      } else if HasSelector(obj.kind) {
        if SELECTOR in obj.misfits { return false; }
        obj := obj.(selector := obj.selector[KERNEL := kernel]);
      }
      ok := true;
    }

    /** The loop over the terms, in any order. */
    static method WithTerms(selector: map<string, string>, terms: map<string, string>) returns (r: map<string, string>)
      ensures r == selector + terms
    {
      r := selector;
      var todo := terms.Keys;
      while todo != {}
        invariant todo <= terms.Keys
        invariant r == selector + (map k | k in terms && k !in todo :: terms[k])
      {
        var k :| k in todo;
        todo := todo - {k};
        r := r[k := terms[k]];
      }
    }

    method SetNodeSelectorTerms(terms: map<string, string>) returns (ok: bool)
      modifies this
      ensures ok <==> SelectorPaths(old(obj).kind) !! old(obj).misfits
      ensures obj == if ok then SetTerms(old(obj), terms) else old(obj)
    {
      if HasTemplate(obj.kind) {
        if TEMPLATE_SELECTOR in obj.misfits { return false; }
        var s := WithTerms(obj.templateSelector, terms);
        obj := obj.(templateSelector := s);
      } else if HasSelector(obj.kind) {
        if SELECTOR in obj.misfits { return false; }
        var s := WithTerms(obj.selector, terms);
        obj := obj.(selector := s);
      }
      ok := true;
    }

    method MakeReplica(kernel: string, os: string, terms: map<string, string>, hash: string -> string)
      returns (ok: bool)
      modifies this
      ensures ok <==> Fits(old(obj))
      ensures ok ==> obj == Replica(old(obj), kernel, os, terms, hash)
    {
      hide SetAffine, SetTerms, NamePaths, SelectorPaths, IsAffine;
      if IsAffine(obj) {
        ok := SetAffineAttributes(kernel, os, hash);
        if !ok { return; }
      }
      ok := SetNodeSelectorTerms(terms);
    }
  }
}
