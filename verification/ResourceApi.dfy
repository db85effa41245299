/** pkg/resource/resource.go, with the parts of internal/resourcehelper and pkg/utils/hash.go it uses: objects are
    created or updated under a hash annotation, and a package-level variable links image pull failures of driver
    containers to the BuildConfigs that rebuild them. */
module ResourceApi {
  import opened Annotations

  const GENERATION := "deprecated.daemonset.template.generation"

  /** An unstructured object: the fields this code reads or writes, and the rest of it as `body`. */
  datatype Obj = Obj(kind: string, namespace: string, name: string, annotations: map<string, string>, body: string,
                     restartPolicy: Option<string>, resourceVersion: Option<string>, clusterIP: Option<string>)

  datatype Key = Key(kind: string, namespace: string, name: string)

  function KeyOf(o: Obj): Key { Key(o.kind, o.namespace, o.name) }

  predicate NotUpdateable(kind: string) { kind == "ServiceAccount" || kind == "Pod" }

  predicate NeedsResourceVersionUpdate(kind: string) {
    kind in {"SecurityContextConstraints", "Service", "ServiceMonitor", "Route", "Build", "BuildRun", "BuildConfig",
             "ImageStream", "PrometheusRule", "CSIDriver", "Issuer", "CustomResourceDefinition", "Certificate",
             "SpecialResource", "OperatorGroup", "CertManager", "MutatingWebhookConfiguration",
             "ValidatingWebhookConfiguration", "Deployment", "ImagePolicy", "PlacementBinding", "PlacementRule", "Policy"}
  }

  /** The answers of the API server and of the hash library to one object; `version`, `ip` and `generation` are what the
      server fills in when it accepts a write. */
  datatype Answers = Answers(owned: bool, reachable: bool, hashed: bool, accepted: bool,
                             version: string, ip: Option<string>, generation: string)

  /** A write carries the object as it was sent. */
  datatype Write = NoWrite | Created(sent: Obj) | Updated(sent: Obj)

  datatype CrudResult = CrudResult(store: map<Key, Obj>, obj: Obj, write: Write, ok: bool)

  /** `SetMetaData`, for the kinds that get an owner. */
  function Prepared(o: Obj, name: string, namespace: string): Obj {
    if o.kind == "SpecialResource" || o.kind == "Namespace" then o
    else o.(annotations := o.annotations["meta.helm.sh/release-name" := name]["meta.helm.sh/release-namespace" := namespace])
  }

  function Annotated(o: Obj, hash: Obj -> string): Obj { o.(annotations := o.annotations[HASH := hash(o)]) }

  /** What the server stores: the object with a version, for a Service without an address an assigned one, and for a
      DaemonSet the generation of its template. */
  function Admitted(o: Obj, a: Answers): Obj {
    o.(resourceVersion := Some(a.version),
       clusterIP := if o.kind == "Service" && o.clusterIP.None? then a.ip else o.clusterIP,
       annotations := if o.kind == "DaemonSet" then o.annotations[GENERATION := a.generation] else o.annotations)
  }

  function OneTimer(o: Obj): bool { o.kind == "Pod" && o.restartPolicy == Some("Never") }

  /** `UpdateResourceVersion`; nothing when the stored object lacks a field it needs. */
  function Versioned(req: Obj, found: Obj): Option<Obj> {
    if NeedsResourceVersionUpdate(found.kind) && found.resourceVersion.None? then None
    else if found.kind == "Service" && found.clusterIP.None? then None
    else
      var r := if NeedsResourceVersionUpdate(found.kind) then req.(resourceVersion := found.resourceVersion) else req;
      Some(if found.kind == "Service" then r.(clusterIP := found.clusterIP) else r)
  }

  function WithGeneration(o: Obj, found: Obj): Obj {
    if o.kind == "DaemonSet" && GENERATION in found.annotations
    then o.(annotations := o.annotations[GENERATION := found.annotations[GENERATION]]) else o
  }

  function SameHash(found: Obj, o: Obj, hash: Obj -> string): bool {
    HASH in found.annotations && found.annotations[HASH] == hash(o)
  }

  function CrudSpec(store: map<Key, Obj>, o: Obj, installed: bool, a: Answers, hash: Obj -> string): CrudResult {
    var k := KeyOf(o);
    if (o.kind != "SpecialResource" && o.kind != "Namespace" && !a.owned) || !a.reachable then CrudResult(store, o, NoWrite, false)
    else if k !in store then
      if o.kind == "Pod" && o.restartPolicy.None? then CrudResult(store, o, NoWrite, false)
      else if installed && OneTimer(o) then CrudResult(store, o, NoWrite, true)
      else if !a.hashed || !a.accepted then CrudResult(store, o, NoWrite, false)
      else
        var stored := Admitted(Annotated(o, hash), a);
        CrudResult(store[k := stored], stored, Created(Annotated(o, hash)), true)
    else if NotUpdateable(o.kind) then CrudResult(store, o, NoWrite, true)
    else if !a.hashed then CrudResult(store, o, NoWrite, false)
    else if SameHash(store[k], o, hash) then CrudResult(store, WithGeneration(o, store[k]), NoWrite, true)
    else
      var req := Versioned(Annotated(o, hash), store[k]);
      if req.None? || !a.accepted then CrudResult(store, o, NoWrite, false)
      else CrudResult(store[k := Admitted(req.value, a)], WithGeneration(o, store[k]), Updated(req.value), true)
  }

  // ---------------------------------------------------------------- image pull failures

  /** A pod: its phase, and for each container the reason it is waiting for, if it is. */
  datatype Pod = Pod(phase: string, statuses: Option<seq<Option<string>>>)

  datatype Finding = Inconclusive | Healthy | PullFailure

  /** The reason left over after the loop over the containers: that of the last one. */
  function LastReason(statuses: seq<Option<string>>): string {
    if statuses == [] then ""
    else match statuses[|statuses| - 1] { case None => "" case Some(r) => r }
  }

  predicate CannotPull(reason: string) { reason == "ImagePullBackOff" || reason == "ErrImagePull" }

  function Inspect(pods: seq<Pod>): Finding {
    if pods == [] then Inconclusive
    else match pods[0].statuses {
      case Some(statuses) => if CannotPull(LastReason(statuses)) then PullFailure else Healthy
      case None => if pods[0].phase == "" then Inconclusive else Inspect(pods[1..])
    }
  }

  /** Pod `i` is the first with container statuses, and no pod before it has an empty phase. */
  ghost predicate Deciding(pods: seq<Pod>, i: nat) {
    i < |pods| && pods[i].statuses.Some? && forall j :: 0 <= j < i ==> pods[j].statuses.None? && pods[j].phase != ""
  }

  /** The last container waits because its image cannot be pulled. */
  ghost predicate StuckPulling(statuses: seq<Option<string>>) {
    statuses != [] && (statuses[|statuses| - 1] == Some("ImagePullBackOff") || statuses[|statuses| - 1] == Some("ErrImagePull"))
  }

  lemma {:induction false} InspectLooksAtFirst(pods: seq<Pod>)
    ensures Inspect(pods) == Inconclusive ==> forall i: nat :: !Deciding(pods, i)
    ensures Inspect(pods) != Inconclusive ==>
              exists i: nat :: Deciding(pods, i) && (Inspect(pods) == PullFailure <==> StuckPulling(pods[i].statuses.value))
  {
    if pods != [] && pods[0].statuses.None? {
      InspectLooksAtFirst(pods[1..]);
      if pods[0].phase != "" {
        forall i: nat ensures Deciding(pods, i) <==> i > 0 && Deciding(pods[1..], i - 1) {
          if i > 0 && Deciding(pods[1..], i - 1) {
            forall j | 0 <= j < i ensures pods[j].statuses.None? && pods[j].phase != "" {
              if j > 0 { assert pods[1..][j - 1] == pods[j]; }
            }
          }
        }
        if Inspect(pods) != Inconclusive {
          var i: nat :| Deciding(pods[1..], i)
                        && (Inspect(pods[1..]) == PullFailure <==> StuckPulling(pods[1..][i].statuses.value));
          assert Deciding(pods, i + 1) && pods[i + 1] == pods[1..][i];
        }
      }
    } else if pods != [] {
      assert Deciding(pods, 0);
    }
  }

  /** The outside world while one document is processed. */
  datatype Request = Request(obj: Obj, installed: bool, name: string, namespace: string, proxied: bool, answers: Answers,
                             rolledOut: bool, podsListed: bool, pods: seq<Pod>, waited: bool)

  /** The API server's objects and the variable `UpdateVendor`. */
  datatype World = World(store: map<Key, Obj>, vendor: string)

  /** `skipRebuildDriverContainer`. */
  predicate Skips(vendor: string, o: Obj) {
    o.kind == "BuildConfig" && VENDOR in o.annotations && o.annotations[VENDOR] != vendor
  }

  predicate DriverContainer(o: Obj) { STATE in o.annotations && o.annotations[STATE] == "driver-container" }

  /** `checkForImagePullBackOff`: the new vendor and whether it returned no error. */
  function PullCheck(vendor: string, o: Obj, r: Request): (string, bool) {
    if r.rolledOut then (vendor, true)
    else if !r.podsListed then (vendor, false)
    else match Inspect(r.pods) {
      case Inconclusive => (vendor, false)
      case Healthy => ("", true)
      case PullFailure => if VENDOR in o.annotations then (o.annotations[VENDOR], false) else ("", true)
    }
  }

  /** `createObjFromYAML` from the skip test on. The proxy setup before crud may fail; the container list it edits is a
      copy, so the object stays as it is. */
  function Process(w: World, r: Request, hash: Obj -> string): (World, bool) {
    if Skips(w.vendor, r.obj) then (w, true)
    else if !r.proxied then (w, false)
    else
      var c := CrudSpec(w.store, Prepared(r.obj, r.name, r.namespace), r.installed, r.answers, hash);
      if !c.ok then (w.(store := c.store), false)
      else if DriverContainer(c.obj) then
        var (vendor, ok) := PullCheck(w.vendor, c.obj, r);
        (World(c.store, vendor), ok && r.waited)
      else (World(c.store, w.vendor), r.waited)
  }

  function Run(start: World, rs: seq<Request>, hash: Obj -> string): World {
    if rs == [] then start else Process(Run(start, rs[..|rs| - 1], hash), rs[|rs| - 1], hash).0
  }

  // ---------------------------------------------------------------- hashes and writes over a run

  /** The request applies its object: it is not skipped and its crud step succeeds. */
  predicate Applies(w: World, r: Request, hash: Obj -> string) {
    !Skips(w.vendor, r.obj) && r.proxied && CrudSpec(w.store, Prepared(r.obj, r.name, r.namespace), r.installed, r.answers, hash).ok
  }

  function Wanted(r: Request): Obj { Prepared(r.obj, r.name, r.namespace) }

  /** The hashes of the objects applied at `k`, in order. */
  ghost function Hashes(start: World, rs: seq<Request>, k: Key, hash: Obj -> string): seq<string> {
    if rs == [] then []
    else
      var init, r := rs[..|rs| - 1], rs[|rs| - 1];
      var hs := Hashes(start, init, k, hash);
      if KeyOf(r.obj) == k && Applies(Run(start, init, hash), r, hash) then hs + [hash(Wanted(r))] else hs
  }

  /** The writes that reached the server at `k`. */
  ghost function Writes(start: World, rs: seq<Request>, k: Key, hash: Obj -> string): nat {
    if rs == [] then 0
    else
      var init, r := rs[..|rs| - 1], rs[|rs| - 1];
      var w := Run(start, init, hash);
      Writes(start, init, k, hash) +
      if KeyOf(r.obj) == k && Applies(w, r, hash)
         && CrudSpec(w.store, Wanted(r), r.installed, r.answers, hash).write != NoWrite then 1 else 0
  }

  /** One for the first, and one for each that differs from its predecessor. */
  function Changes(hs: seq<string>): nat {
    if hs == [] then 0
    else Changes(hs[..|hs| - 1]) + if |hs| == 1 || hs[|hs| - 1] != hs[|hs| - 2] then 1 else 0
  }

  /** A request that does not apply, or is for another key, leaves `k` alone. */
  lemma OthersLeaveKey(w: World, r: Request, k: Key, hash: Obj -> string)
    requires KeyOf(r.obj) != k || !Applies(w, r, hash)
    ensures var v := Process(w, r, hash).0; (k in v.store <==> k in w.store) && (k in w.store ==> v.store[k] == w.store[k])
  {
    hide Annotated, Admitted, Versioned, WithGeneration, SameHash, OneTimer, PullCheck, DriverContainer, Skips;
    WantedKey(r);
    CrudLeavesOthers(w.store, Wanted(r), r.installed, r.answers, hash, k);
  }

  lemma WantedKey(r: Request)
    ensures KeyOf(Wanted(r)) == KeyOf(r.obj)
  {}

  lemma CrudLeavesOthers(store: map<Key, Obj>, o: Obj, installed: bool, a: Answers, hash: Obj -> string, k: Key)
    ensures var c := CrudSpec(store, o, installed, a, hash);
      && (c.write == NoWrite ==> c.store == store)
      && (!c.ok ==> c.write == NoWrite)
      && (k != KeyOf(o) ==> (k in c.store <==> k in store) && (k in store ==> c.store[k] == store[k]))
  {
    hide Annotated, Admitted, Versioned, WithGeneration, SameHash, OneTimer;
  }

  /** `o` is stored under its own hash. */
  ghost predicate StoredWithHash(store: map<Key, Obj>, k: Key, h: string) {
    k in store && HASH in store[k].annotations && store[k].annotations[HASH] == h
  }

  lemma VersionedKeepsHash(o: Obj, found: Obj, a: Answers, hash: Obj -> string)
    ensures HASH in Admitted(Annotated(o, hash), a).annotations && Admitted(Annotated(o, hash), a).annotations[HASH] == hash(o)
    ensures var v := Versioned(Annotated(o, hash), found);
      v.Some? ==> HASH in Admitted(v.value, a).annotations && Admitted(v.value, a).annotations[HASH] == hash(o)
  {
    MarksDiffer();
    hide NeedsResourceVersionUpdate;
  }

  /** A successful crud step of an updateable kind leaves the object's hash behind, and it writes if and only if
      that hash was not there. */
  lemma CrudLeavesHash(store: map<Key, Obj>, o: Obj, installed: bool, a: Answers, hash: Obj -> string)
    requires !NotUpdateable(o.kind) && CrudSpec(store, o, installed, a, hash).ok
    ensures var c := CrudSpec(store, o, installed, a, hash);
      StoredWithHash(c.store, KeyOf(o), hash(o)) && (c.write == NoWrite <==> StoredWithHash(store, KeyOf(o), hash(o)))
  {
    if KeyOf(o) in store {
      VersionedKeepsHash(o, store[KeyOf(o)], a, hash);
    } else {
      VersionedKeepsHash(o, o, a, hash);
    }
    hide Annotated, Admitted, Versioned, WithGeneration;
  }

  lemma AppliedLeavesHash(w: World, r: Request, hash: Obj -> string)
    requires Applies(w, r, hash) && !NotUpdateable(r.obj.kind)
    ensures StoredWithHash(Process(w, r, hash).0.store, KeyOf(r.obj), hash(Wanted(r)))
    ensures CrudSpec(w.store, Wanted(r), r.installed, r.answers, hash).write == NoWrite <==>
            StoredWithHash(w.store, KeyOf(r.obj), hash(Wanted(r)))
  {
    WantedKey(r);
    CrudLeavesHash(w.store, Wanted(r), r.installed, r.answers, hash);
    hide CrudSpec, PullCheck, DriverContainer, Skips;
  }

  /** The store at `k` after a run agrees with the hashes applied there. */
  ghost predicate Tracks(w: World, k: Key, hs: seq<string>) {
    if hs == [] then k !in w.store else StoredWithHash(w.store, k, hs[|hs| - 1])
  }

  /** For an updateable kind at a key that starts absent, under any failures and any other objects in between:
      the stored hash is that of the last object applied, and the server was written to once per change of it. */
  lemma {:induction false} WritesFollowHashChanges(start: World, rs: seq<Request>, k: Key, hash: Obj -> string)
    requires k !in start.store && !NotUpdateable(k.kind)
    ensures Tracks(Run(start, rs, hash), k, Hashes(start, rs, k, hash))
    ensures Writes(start, rs, k, hash) == Changes(Hashes(start, rs, k, hash))
    decreases |rs|
  {
    hide Process, Applies, CrudSpec, Wanted, Tracks, Changes, KeyOf;
    if rs == [] {
      NothingTracked(start, k);
    } else {
      var init, r := rs[..|rs| - 1], rs[|rs| - 1];
      WritesFollowHashChanges(start, init, k, hash);
      TracksNext(Run(start, init, hash), r, k, Hashes(start, init, k, hash), hash);
    }
  }

  lemma NothingTracked(w: World, k: Key)
    requires k !in w.store
    ensures Tracks(w, k, []) && Changes([]) == 0
  {}

  lemma TracksNext(w: World, r: Request, k: Key, hs: seq<string>, hash: Obj -> string)
    requires !NotUpdateable(k.kind) && Tracks(w, k, hs)
    ensures var v := Process(w, r, hash).0;
      if KeyOf(r.obj) == k && Applies(w, r, hash) then
        var next := hs + [hash(Wanted(r))];
        && Tracks(v, k, next)
        && Changes(next) == Changes(hs) +
             if CrudSpec(w.store, Wanted(r), r.installed, r.answers, hash).write != NoWrite then 1 else 0
      else Tracks(v, k, hs)
  {
    hide Process, Applies, CrudSpec, Wanted;
    if KeyOf(r.obj) == k && Applies(w, r, hash) {
      AppliedLeavesHash(w, r, hash);
      assert (hs + [hash(Wanted(r))])[..|hs|] == hs;
    } else {
      OthersLeaveKey(w, r, k, hash);
    }
  }

  // ---------------------------------------------------------------- when a call succeeds, what it sends and what is stored

  /** Exactly when create-or-update returns no error. */
  lemma CrudOkIff(store: map<Key, Obj>, o: Obj, installed: bool, a: Answers, hash: Obj -> string)
    ensures CrudSpec(store, o, installed, a, hash).ok <==>
      && (o.kind == "SpecialResource" || o.kind == "Namespace" || a.owned) && a.reachable
      && (KeyOf(o) !in store ==>
            && !(o.kind == "Pod" && o.restartPolicy == None)
            && ((installed && o.kind == "Pod" && o.restartPolicy == Some("Never")) || (a.hashed && a.accepted)))
      && (KeyOf(o) in store && o.kind != "Pod" && o.kind != "ServiceAccount" ==>
            a.hashed && (SameHash(store[KeyOf(o)], o, hash) || (a.accepted && CanBeSent(store[KeyOf(o)]))))
  {
    hide SameHash, Annotated, Admitted, WithGeneration, NeedsResourceVersionUpdate;
  }

  /** The stored object has what an update must carry: the version, for the kinds that need it, and a Service's address. */
  predicate CanBeSent(found: Obj) {
    (NeedsResourceVersionUpdate(found.kind) ==> found.resourceVersion.Some?) && (found.kind == "Service" ==> found.clusterIP.Some?)
  }

  /** What is sent is the desired object under its hash, and in an update with the stored version and address where these
      are needed. */
  lemma SendsDesired(store: map<Key, Obj>, o: Obj, installed: bool, a: Answers, hash: Obj -> string)
    ensures var w := CrudSpec(store, o, installed, a, hash).write;
      && (w.Created? ==> KeyOf(o) !in store && w.sent == o.(annotations := o.annotations[HASH := hash(o)]))
      && (w.Updated? ==>
            && KeyOf(o) in store
            && var found := store[KeyOf(o)];
               w.sent == o.(annotations := o.annotations[HASH := hash(o)],
                            resourceVersion := if NeedsResourceVersionUpdate(found.kind) then found.resourceVersion else o.resourceVersion,
                            clusterIP := if found.kind == "Service" then found.clusterIP else o.clusterIP))
  {
    hide SameHash, Admitted, WithGeneration, NeedsResourceVersionUpdate, OneTimer;
  }

  /** The two objects agree on all that the server does not fill in. */
  ghost predicate SameContent(p: Obj, o: Obj) {
    && KeyOf(p) == KeyOf(o) && p.body == o.body && p.restartPolicy == o.restartPolicy
    && forall x :: x != HASH && x != GENERATION ==>
         (x in p.annotations <==> x in o.annotations) && (x in o.annotations ==> p.annotations[x] == o.annotations[x])
  }

  /** What the server fills in: a version, an address where a Service has none, a generation where it is a DaemonSet. */
  lemma ServerFillsIn(o: Obj, a: Answers)
    ensures var r := Admitted(o, a);
      && r.resourceVersion == Some(a.version)
      && r.clusterIP == (if o.kind != "Service" then o.clusterIP else match o.clusterIP case None => a.ip case Some(ip) => Some(ip))
      && (o.kind == "DaemonSet" ==> r.annotations == o.annotations[GENERATION := a.generation])
      && (o.kind != "DaemonSet" ==> r.annotations == o.annotations)
      && r == o.(resourceVersion := r.resourceVersion, clusterIP := r.clusterIP, annotations := r.annotations)
  {}

  /** A write stores the content of the desired object. */
  lemma WriteStoresDesired(store: map<Key, Obj>, o: Obj, installed: bool, a: Answers, hash: Obj -> string)
    requires CrudSpec(store, o, installed, a, hash).write != NoWrite
    ensures var c := CrudSpec(store, o, installed, a, hash); KeyOf(o) in c.store && SameContent(c.store[KeyOf(o)], o)
  {
    hide SameHash, NeedsResourceVersionUpdate, OneTimer, WithGeneration;
  }

  /** The objects applied at `k`, in order. */
  ghost function AppliedAt(start: World, rs: seq<Request>, k: Key, hash: Obj -> string): seq<Obj> {
    if rs == [] then []
    else
      var init, r := rs[..|rs| - 1], rs[|rs| - 1];
      var before := AppliedAt(start, init, k, hash);
      if KeyOf(r.obj) == k && Applies(Run(start, init, hash), r, hash) then before + [Wanted(r)] else before
  }

  ghost predicate NoCollision(os: seq<Obj>, hash: Obj -> string) {
    forall i, j :: 0 <= i < |os| && 0 <= j < |os| && hash(os[i]) == hash(os[j]) ==> os[i] == os[j]
  }

  /** What is stored at `k`: under the hash of the last object applied, the content of one with that hash. */
  ghost predicate Holds(w: World, k: Key, os: seq<Obj>, hash: Obj -> string) {
    if os == [] then k !in w.store
    else
      && StoredWithHash(w.store, k, hash(os[|os| - 1]))
      && exists i :: 0 <= i < |os| && hash(os[i]) == hash(os[|os| - 1]) && SameContent(w.store[k], os[i])
  }

  lemma HoldsNext(w: World, r: Request, k: Key, os: seq<Obj>, hash: Obj -> string)
    requires !NotUpdateable(k.kind) && Holds(w, k, os, hash)
    ensures var v := Process(w, r, hash).0;
      Holds(v, k, if KeyOf(r.obj) == k && Applies(w, r, hash) then os + [Wanted(r)] else os, hash)
  {
    hide Process, Applies, CrudSpec, Wanted, SameContent;
    if KeyOf(r.obj) == k && Applies(w, r, hash) {
      AppliedHolds(w, r, hash);
      var next, v := os + [Wanted(r)], Process(w, r, hash).0;
      if CrudSpec(w.store, Wanted(r), r.installed, r.answers, hash).write == NoWrite {
        var i :| 0 <= i < |os| && hash(os[i]) == hash(os[|os| - 1]) && SameContent(w.store[k], os[i]);
        assert next[i] == os[i];
      } else {
        assert next[|os|] == Wanted(r);
      }
    } else {
      OthersLeaveKey(w, r, k, hash);
    }
  }

  lemma AppliedHolds(w: World, r: Request, hash: Obj -> string)
    requires Applies(w, r, hash) && !NotUpdateable(r.obj.kind)
    ensures var v, c, k := Process(w, r, hash).0, CrudSpec(w.store, Wanted(r), r.installed, r.answers, hash), KeyOf(r.obj);
      && StoredWithHash(v.store, k, hash(Wanted(r)))
      && (c.write == NoWrite ==> v.store == w.store)
      && (c.write != NoWrite ==> SameContent(v.store[k], Wanted(r)))
  {
    AppliedLeavesHash(w, r, hash);
    WantedKey(r);
    CrudLeavesOthers(w.store, Wanted(r), r.installed, r.answers, hash, KeyOf(r.obj));
    if CrudSpec(w.store, Wanted(r), r.installed, r.answers, hash).write != NoWrite {
      WriteStoresDesired(w.store, Wanted(r), r.installed, r.answers, hash);
    }
    hide CrudSpec, PullCheck, DriverContainer, Skips, SameContent, KeyOf;
  }

  lemma {:induction false} RunHolds(start: World, rs: seq<Request>, k: Key, hash: Obj -> string)
    requires k !in start.store && !NotUpdateable(k.kind)
    ensures Holds(Run(start, rs, hash), k, AppliedAt(start, rs, k, hash), hash)
    decreases |rs|
  {
    hide Process, Applies, Wanted, KeyOf;
    if rs != [] {
      var init, r := rs[..|rs| - 1], rs[|rs| - 1];
      RunHolds(start, init, k, hash);
      hide Holds;
      HoldsNext(Run(start, init, hash), r, k, AppliedAt(start, init, k, hash), hash);
    }
  }

  /** Over any run, for an updateable kind at a key that starts absent: if the hash does not collide on the objects applied
      there, what is stored has the content of the last of them. */
  lemma StoredIsLastApplied(start: World, rs: seq<Request>, k: Key, hash: Obj -> string)
    requires k !in start.store && !NotUpdateable(k.kind)
    requires NoCollision(AppliedAt(start, rs, k, hash), hash) && AppliedAt(start, rs, k, hash) != []
    ensures var os := AppliedAt(start, rs, k, hash);
      k in Run(start, rs, hash).store && SameContent(Run(start, rs, hash).store[k], os[|os| - 1])
  {
    hide Run, AppliedAt, SameContent;
    RunHolds(start, rs, k, hash);
  }

  /** Exactly when processing an object returns no error. */
  lemma ProcessOkIff(w: World, r: Request, hash: Obj -> string)
    ensures Process(w, r, hash).1 <==>
      || Skips(w.vendor, r.obj)
      || (Applies(w, r, hash) && r.waited
          && (STATE in r.obj.annotations && r.obj.annotations[STATE] == "driver-container" && !r.rolledOut ==>
            r.podsListed && (Inspect(r.pods) == Healthy || (Inspect(r.pods) == PullFailure && VENDOR !in r.obj.annotations))))
  {
    CrudKeepsMarks(w, r, hash);
    hide CrudSpec, Inspect, Skips;
  }

  /** Only a BuildConfig of another vendor than the one to rebuild is skipped, and the release it belongs to is noted on every
      object that gets an owner. */
  lemma SkippedAndPrepared(vendor: string, o: Obj, name: string, namespace: string)
    ensures Skips(vendor, o) ==> o.kind == "BuildConfig" && VENDOR in o.annotations && o.annotations[VENDOR] != vendor
    ensures o.kind == "BuildConfig" && VENDOR in o.annotations && o.annotations[VENDOR] != vendor ==> Skips(vendor, o)
    ensures var p := Prepared(o, name, namespace);
      && p.(annotations := o.annotations) == o
      && (o.kind == "SpecialResource" || o.kind == "Namespace" ==> p == o)
      && (o.kind != "SpecialResource" && o.kind != "Namespace" ==>
            && "meta.helm.sh/release-name" in p.annotations && p.annotations["meta.helm.sh/release-name"] == name
            && "meta.helm.sh/release-namespace" in p.annotations
            && p.annotations["meta.helm.sh/release-namespace"] == namespace)
  {
    assert "meta.helm.sh/release-name" != "meta.helm.sh/release-namespace" by {
      assert |"meta.helm.sh/release-name"| < |"meta.helm.sh/release-namespace"|;
    }
  }

  /** Repeating a request that was applied writes nothing, and keeps the world, whatever the server answers. */
  lemma RepeatWritesNothing(w: World, o: Obj, installed: bool, a: Answers, b: Answers, hash: Obj -> string)
    requires var c := CrudSpec(w.store, o, installed, a, hash); c.ok && KeyOf(o) in c.store
    ensures var store := CrudSpec(w.store, o, installed, a, hash).store;
      CrudSpec(store, o, installed, b, hash).store == store && CrudSpec(store, o, installed, b, hash).write == NoWrite
  {
    if !NotUpdateable(o.kind) {
      CrudLeavesHash(w.store, o, installed, a, hash);
    }
    hide Annotated, Admitted, Versioned, WithGeneration;
  }

  /** A Service that the server keeps without an address can never be updated by this code. */
  lemma ServiceWithoutAddressIsStuck(store: map<Key, Obj>, o: Obj, installed: bool, a: Answers, hash: Obj -> string)
    requires o.kind == "Service" && KeyOf(o) in store && store[KeyOf(o)].kind == "Service"
    requires store[KeyOf(o)].clusterIP.None? && !SameHash(store[KeyOf(o)], o, hash)
    ensures !CrudSpec(store, o, installed, a, hash).ok && CrudSpec(store, o, installed, a, hash).store == store
  {}

  /** The template generation that the wait for a DaemonSet goes by is the server's, except when the stored object has
      another hash and its update changes the generation: then it is the one from before the update. */
  lemma GenerationIsCurrentIff(store: map<Key, Obj>, o: Obj, installed: bool, a: Answers, hash: Obj -> string)
    requires o.kind == "DaemonSet" && CrudSpec(store, o, installed, a, hash).ok
    requires KeyOf(o) in store ==> GENERATION in store[KeyOf(o)].annotations
    ensures var c, k := CrudSpec(store, o, installed, a, hash), KeyOf(o);
      && k in c.store && GENERATION in c.store[k].annotations && GENERATION in c.obj.annotations
      && (c.obj.annotations[GENERATION] == c.store[k].annotations[GENERATION] <==>
            k in store && !SameHash(store[k], o, hash) ==> a.generation == store[k].annotations[GENERATION])
  {
    hide NeedsResourceVersionUpdate;
  }

  /** A changed Service that the server is willing to store is updated if and only if it has both an address and a version
      on the server. */
  lemma ServiceIsUpdatedIff(store: map<Key, Obj>, o: Obj, installed: bool, a: Answers, hash: Obj -> string)
    requires o.kind == "Service" && KeyOf(o) in store && store[KeyOf(o)].kind == "Service"
    requires !SameHash(store[KeyOf(o)], o, hash) && a.owned && a.reachable && a.hashed && a.accepted
    ensures var found := store[KeyOf(o)];
      CrudSpec(store, o, installed, a, hash).write.Updated? <==> found.clusterIP.Some? && found.resourceVersion.Some?
  {
    hide SameHash, Annotated, Admitted, WithGeneration, OneTimer;
  }

  /** A request leaves its object behind if and only if it was there before, or the request is applied and is not for a
      one-time Pod of a release that is installed. Success alone is not enough: a skipped BuildConfig succeeds. */
  lemma IsThereIff(w: World, r: Request, hash: Obj -> string)
    ensures KeyOf(r.obj) in Process(w, r, hash).0.store <==>
            KeyOf(r.obj) in w.store || (Applies(w, r, hash) && !(r.installed && OneTimer(r.obj)))
  {
    WantedKey(r);
    hide Annotated, Admitted, Versioned, WithGeneration, SameHash, PullCheck, DriverContainer, Skips;
  }

  /** Behind a request that succeeds, the object is there if and only if it was there before, or the request is neither for
      a BuildConfig that is skipped nor for a one-time Pod of a release that is installed. */
  lemma SuccessMeansThereIff(w: World, r: Request, hash: Obj -> string)
    requires Process(w, r, hash).1
    ensures KeyOf(r.obj) in Process(w, r, hash).0.store <==>
            KeyOf(r.obj) in w.store || !(Skips(w.vendor, r.obj) || (r.installed && OneTimer(r.obj)))
  {
    IsThereIff(w, r, hash);
    hide CrudSpec, PullCheck, DriverContainer, Skips, OneTimer;
  }

  // ---------------------------------------------------------------- the rebuild decision over a run

  /** The request comes to a decisive look at the pods. */
  ghost predicate Decides(w: World, r: Request, hash: Obj -> string) {
    && Applies(w, r, hash)
    && STATE in r.obj.annotations && r.obj.annotations[STATE] == "driver-container"
    && !r.rolledOut && r.podsListed && Inspect(r.pods) != Inconclusive
  }

  /** The last decisive look in the run found that the images of vendor `v` cannot be pulled. */
  ghost predicate LastLookFailed(start: World, rs: seq<Request>, v: string, hash: Obj -> string) {
    exists i :: 0 <= i < |rs| && LookFailed(start, rs, i, v, hash)
                && forall j :: i < j < |rs| ==> !Decides(Run(start, rs[..j], hash), rs[j], hash)
  }

  ghost predicate LookFailed(start: World, rs: seq<Request>, i: nat, v: string, hash: Obj -> string)
    requires i < |rs|
  {
    && Decides(Run(start, rs[..i], hash), rs[i], hash)
    && Inspect(rs[i].pods) == PullFailure && VENDOR in rs[i].obj.annotations && rs[i].obj.annotations[VENDOR] == v
  }

  /** The two objects agree on the two annotations that the pull check reads. */
  ghost predicate SameMarks(p: Obj, o: Obj) {
    && (DriverContainer(p) <==> DriverContainer(o))
    && (VENDOR in p.annotations <==> VENDOR in o.annotations)
    && (VENDOR in o.annotations ==> p.annotations[VENDOR] == o.annotations[VENDOR])
  }

  lemma EditsKeepMarks(o: Obj, found: Obj, name: string, namespace: string, a: Answers, hash: Obj -> string)
    ensures SameMarks(Prepared(o, name, namespace), o)
    ensures SameMarks(Admitted(Annotated(o, hash), a), o)
    ensures SameMarks(WithGeneration(o, found), o)
  {
    MarksDiffer();
  }

  /** Crud never touches these. */
  lemma CrudKeepsMarks(w: World, r: Request, hash: Obj -> string)
    ensures SameMarks(CrudSpec(w.store, Wanted(r), r.installed, r.answers, hash).obj, r.obj)
  {
    var o := Wanted(r);
    EditsKeepMarks(r.obj, o, r.name, r.namespace, r.answers, hash);
    EditsKeepMarks(o, if KeyOf(o) in w.store then w.store[KeyOf(o)] else o, r.name, r.namespace, r.answers, hash);
    hide Annotated, Admitted, WithGeneration, Versioned, SameHash, Prepared, DriverContainer;
  }

  lemma MarksDiffer()
    ensures var marks := [HASH, GENERATION, "meta.helm.sh/release-name", "meta.helm.sh/release-namespace"];
      STATE !in marks && VENDOR !in marks && HASH != GENERATION
  {
    assert HASH[29] == 'h' && STATE[29] == 's' && VENDOR[29] == 'd';
    assert GENERATION[0] == 'd' && STATE[0] == 's' && VENDOR[0] == 's' && HASH[0] == 's';
  }

  /** One request: an undecided one keeps the vendor, a decisive one sets it to the failing vendor or clears it. */
  lemma VendorStep(w: World, r: Request, hash: Obj -> string)
    ensures var v := Process(w, r, hash).0.vendor;
      && (!Decides(w, r, hash) ==> v == w.vendor)
      && (Decides(w, r, hash) ==> v == if Inspect(r.pods) == PullFailure && VENDOR in r.obj.annotations then r.obj.annotations[VENDOR] else "")
  {
    CrudKeepsMarks(w, r, hash);
    hide CrudSpec, Inspect;
  }

  lemma {:induction false} VendorIsLastLook(start: World, rs: seq<Request>, v: string, hash: Obj -> string)
    requires start.vendor == "" && v != ""
    ensures Run(start, rs, hash).vendor == v <==> LastLookFailed(start, rs, v, hash)
    decreases |rs|
  {
    hide Process, Decides;
    if rs != [] {
      var n := |rs| - 1;
      var init, r := rs[..n], rs[n];
      VendorIsLastLook(start, init, v, hash);
      VendorStep(Run(start, init, hash), r, hash);
      LastLookNext(start, rs, v, hash);
    }
  }

  lemma LastLookNext(start: World, rs: seq<Request>, v: string, hash: Obj -> string)
    requires rs != []
    ensures var n := |rs| - 1;
      LastLookFailed(start, rs, v, hash) <==>
        if Decides(Run(start, rs[..n], hash), rs[n], hash) then LookFailed(start, rs, n, v, hash)
        else LastLookFailed(start, rs[..n], v, hash)
  {
    hide Decides, Run, Inspect;
    var n := |rs| - 1;
    if LastLookFailed(start, rs, v, hash) && !LookFailed(start, rs, n, v, hash) { LastLookWas(start, rs, v, hash); }
    if LastLookFailed(start, rs[..n], v, hash) && !Decides(Run(start, rs[..n], hash), rs[n], hash) {
      LastLookStays(start, rs, v, hash);
    }
    if LookFailed(start, rs, n, v, hash) { assert LastLookFailed(start, rs, v, hash); }
    hide LastLookFailed;
  }

  lemma SameLook(start: World, rs: seq<Request>, v: string, hash: Obj -> string)
    requires rs != []
    ensures var n := |rs| - 1;
      forall j: nat :: j < n ==>
        && rs[..n][j] == rs[j] && rs[..n][..j] == rs[..j]
        && (LookFailed(start, rs[..n], j, v, hash) <==> LookFailed(start, rs, j, v, hash))
  {
    hide Decides, Run, Inspect;
    assert forall j: nat :: j < |rs| - 1 ==> rs[..|rs| - 1][j] == rs[j] && rs[..|rs| - 1][..j] == rs[..j];
  }

  lemma LastLookWas(start: World, rs: seq<Request>, v: string, hash: Obj -> string)
    requires rs != [] && LastLookFailed(start, rs, v, hash) && !LookFailed(start, rs, |rs| - 1, v, hash)
    ensures var n := |rs| - 1;
      !Decides(Run(start, rs[..n], hash), rs[n], hash) && LastLookFailed(start, rs[..n], v, hash)
  {
    hide Decides, Run, Inspect, LookFailed;
    SameLook(start, rs, v, hash);
    var i :| 0 <= i < |rs| && LookFailed(start, rs, i, v, hash)
             && forall j :: i < j < |rs| ==> !Decides(Run(start, rs[..j], hash), rs[j], hash);
    assert LookFailed(start, rs[..|rs| - 1], i, v, hash);
  }

  lemma LastLookStays(start: World, rs: seq<Request>, v: string, hash: Obj -> string)
    requires rs != [] && LastLookFailed(start, rs[..|rs| - 1], v, hash)
    requires !Decides(Run(start, rs[..|rs| - 1], hash), rs[|rs| - 1], hash)
    ensures LastLookFailed(start, rs, v, hash)
  {
    hide Decides, Run, Inspect, LookFailed;
    SameLook(start, rs, v, hash);
    var n := |rs| - 1;
    var i :| 0 <= i < n && LookFailed(start, rs[..n], i, v, hash)
             && forall j :: i < j < n ==> !Decides(Run(start, rs[..n][..j], hash), rs[..n][j], hash);
    assert LookFailed(start, rs, i, v, hash);
  }

  /** Over any interleaving of objects, a BuildConfig of vendor `v` gets past the skip test if and only if the last
      decisive look at a driver container's pods found that images of vendor `v` cannot be pulled. */
  lemma RebuildIffLastPullFailed(start: World, rs: seq<Request>, o: Obj, hash: Obj -> string)
    requires start.vendor == "" && o.kind == "BuildConfig" && VENDOR in o.annotations && o.annotations[VENDOR] != ""
    ensures !Skips(Run(start, rs, hash).vendor, o) <==> LastLookFailed(start, rs, o.annotations[VENDOR], hash)
  {
    VendorIsLastLook(start, rs, o.annotations[VENDOR], hash);
  }

  /** Pods and ServiceAccounts are never updated: what is stored stays as it is. */
  lemma {:induction false} PinnedKindsStay(start: World, rs: seq<Request>, k: Key, hash: Obj -> string)
    requires k in start.store && NotUpdateable(k.kind)
    ensures k in Run(start, rs, hash).store && Run(start, rs, hash).store[k] == start.store[k]
    decreases |rs|
  {
    if rs != [] {
      var init, r := rs[..|rs| - 1], rs[|rs| - 1];
      PinnedKindsStay(start, init, k, hash);
      var w := Run(start, init, hash);
      WantedKey(r);
      CrudLeavesOthers(w.store, Wanted(r), r.installed, r.answers, hash, k);
      hide Annotated, Admitted, Versioned, WithGeneration, SameHash, OneTimer, PullCheck, DriverContainer, Skips;
    }
  }

  // ---------------------------------------------------------------- the API object

  lemma {:induction false} InspectSkips(pods: seq<Pod>, i: nat)
    requires i <= |pods| && forall j :: 0 <= j < i ==> pods[j].statuses.None? && pods[j].phase != ""
    ensures Inspect(pods) == Inspect(pods[i..])
    decreases i
  {
    if i > 0 {
      assert forall j :: 0 <= j < i - 1 ==> pods[1..][j] == pods[j + 1];
      InspectSkips(pods[1..], i - 1);
      assert pods[1..][i - 1..] == pods[i..];
    }
  }

  class Api {
    var store: map<Key, Obj>
    var updateVendor: string
    const hash: Obj -> string

    constructor (hash: Obj -> string)
      ensures store == map[] && updateVendor == "" && this.hash == hash
    {
      store, updateVendor := map[], "";
      this.hash := hash;
    }

    method Crud(desired: Obj, installed: bool, a: Answers) returns (obj: Obj, write: Write, ok: bool)
      modifies this`store
      ensures CrudResult(store, obj, write, ok) == CrudSpec(old(store), desired, installed, a, hash)
    {
      hide Admitted, Versioned, WithGeneration;
      obj, write := desired, NoWrite;
      var k := KeyOf(obj);
      if obj.kind != "SpecialResource" && obj.kind != "Namespace" && !a.owned { return obj, write, false; }
      if !a.reachable { return obj, write, false; }
      if k !in store {
        if obj.kind == "Pod" && obj.restartPolicy.None? { return obj, write, false; }
        if installed && OneTimer(obj) { return obj, write, true; }
        if !a.hashed { return obj, write, false; }
        if !a.accepted { return obj, write, false; }
        var sent := Annotated(obj, hash);
        obj := Admitted(sent, a);
        store := store[k := obj];
        return obj, Created(sent), true;
      }
      var found := store[k];
      if NotUpdateable(obj.kind) { return obj, write, true; }
      if !a.hashed { return obj, write, false; }
      if SameHash(found, obj, hash) { return WithGeneration(obj, found), write, true; }
      var required := Versioned(Annotated(obj, hash), found);
      if required.None? { return obj, write, false; }
      if !a.accepted { return obj, write, false; }
      store := store[k := Admitted(required.value, a)];
      return WithGeneration(obj, found), Updated(required.value), true;
    }

    method CheckForImagePullBackOff(obj: Obj, r: Request) returns (ok: bool)
      modifies this`updateVendor
      ensures (updateVendor, ok) == PullCheck(old(updateVendor), obj, r)
    {
      if r.rolledOut { return true; }
      if !r.podsListed { return false; }
      var reason := "";
      for i := 0 to |r.pods|
        invariant updateVendor == old(updateVendor)
        invariant forall j :: 0 <= j < i ==> r.pods[j].statuses.None? && r.pods[j].phase != ""
        invariant reason == ""
      {
        var pod := r.pods[i];
        InspectSkips(r.pods, i);
        if pod.statuses.None? {
          if pod.phase == "" { return false; }
          continue;
        }
        var statuses := pod.statuses.value;
        for n := 0 to |statuses|
          invariant reason == LastReason(statuses[..n])
        {
          assert statuses[..n + 1][n] == statuses[n];
          reason := "";
          if statuses[n].Some? { reason := statuses[n].value; }
        }
        assert statuses[..|statuses|] == statuses;
        if CannotPull(reason) {
          if VENDOR in obj.annotations {
            updateVendor := obj.annotations[VENDOR];
            return false;
          }
        }
        updateVendor := "";
        return true;
      }
      InspectSkips(r.pods, |r.pods|);
      ok := false;
    }

    method CreateObjFromYAML(r: Request) returns (ok: bool)
      modifies this
      ensures (World(store, updateVendor), ok) == Process(World(old(store), old(updateVendor)), r, hash)
    {
      hide CrudSpec, PullCheck;
      if Skips(updateVendor, r.obj) { return true; }
      if !r.proxied { return false; }
      var obj, write, applied := Crud(Prepared(r.obj, r.name, r.namespace), r.installed, r.answers);
      if !applied { return false; }
      ok := true;
      if DriverContainer(obj) {
        ok := CheckForImagePullBackOff(obj, r);
      }
      ok := ok && r.waited;
    }
  }
}
