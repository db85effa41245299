/** pkg/preflight/preflight.go: does a rendered recipe have driver containers for the kernel of an upgrade? */
module PreflightCheck {
  import opened Annotations
  import YamlScanner

  /** An object of the manifest. `converts` says whether it can be read as a typed DaemonSet. */
  datatype Obj = Obj(kind: string, name: string, annotations: map<string, string>, converts: bool, images: seq<string>)

  datatype Layer = Inaccessible | Plain | Toolkit(kernel: string)

  /** The registry's answer for an image; layers are listed bottom first. */
  datatype Image = Unreachable | Layers(layers: seq<Layer>)

  datatype Reason =
    | BadManifest | BadDaemonSet | NoContainer | NoImage | NoLayer | OtherKernel | NoToolkit
    | BuildConfigPresent | NoDaemonSet | AllPresent

  // ---------------------------------------------------------------- what is promised

  predicate DriverContainer(o: Obj) {
    o.kind == "DaemonSet" && STATE in o.annotations && o.annotations[STATE] == "driver-container"
  }

  /** The vendor token; a DaemonSet without the annotation has the empty one. */
  function Vendor(o: Obj): string {
    if VENDOR in o.annotations then o.annotations[VENDOR] else ""
  }

  predicate Builds(o: Obj, token: string) {
    o.kind == "BuildConfig" && VENDOR in o.annotations && o.annotations[VENDOR] == token
  }

  ghost predicate CanBeBuilt(objs: seq<Obj>, token: string) {
    exists o :: o in objs && Builds(o, token)
  }

  ghost predicate HasBuildConfig(objs: seq<Obj>) {
    exists o :: o in objs && o.kind == "BuildConfig"
  }

  /** The topmost layer with toolkit data is for `kernel`, and it and every layer above it can be read. */
  ghost predicate Carries(layers: seq<Layer>, kernel: string) {
    exists i :: 0 <= i < |layers| && layers[i] == Toolkit(kernel) && forall j :: i < j < |layers| ==> layers[j] == Plain
  }

  ghost predicate ImageReady(o: Obj, registry: string -> Image, kernel: string) {
    && o.images != []
    && registry(o.images[0]).Layers?
    && Carries(registry(o.images[0]).layers, kernel)
  }

  ghost predicate ObjectsReady(objs: seq<Obj>, registry: string -> Image, kernel: string) {
    && (forall o :: o in objs && o.kind == "DaemonSet" ==> o.converts)
    && (forall o :: o in objs && DriverContainer(o) && !CanBeBuilt(objs, Vendor(o)) ==> ImageReady(o, registry, kernel))
  }

  /** The recipe is ready: its documents parse, and each driver container either can be built or is there. */
  ghost predicate Ready(docs: seq<string>, parse: string -> Option<Obj>, registry: string -> Image, kernel: string) {
    var objs := YamlScanner.Objects(docs, parse);
    objs.Some? && ObjectsReady(objs.value, registry, kernel)
  }

  // ---------------------------------------------------------------- the checks

  /** The driver containers that no BuildConfig of the recipe pairs with. */
  method GetRelevantDaemonSets(objs: seq<Obj>) returns (ok: bool, relevant: seq<Obj>, buildConfigPresent: bool)
    ensures ok <==> forall o :: o in objs && o.kind == "DaemonSet" ==> o.converts
    ensures ok ==> forall o :: o in relevant <==> o in objs && DriverContainer(o) && !CanBeBuilt(objs, Vendor(o))
    ensures ok ==> (buildConfigPresent <==> HasBuildConfig(objs))
  {
    var tokens: set<string> := {};
    var candidates: seq<Obj> := [];
    buildConfigPresent := false;
    for i := 0 to |objs|
      invariant forall o :: o in objs[..i] && o.kind == "DaemonSet" ==> o.converts
      invariant forall o :: o in candidates <==> o in objs[..i] && DriverContainer(o)
      invariant forall t :: t in tokens <==> CanBeBuilt(objs[..i], t)
      invariant buildConfigPresent <==> HasBuildConfig(objs[..i])
    {
      var o := objs[i];
      assert objs[..i + 1] == objs[..i] + [o];
      assert forall x :: x in objs[..i + 1] <==> x in objs[..i] || x == o;
      ghost var was := tokens;
      if o.kind == "BuildConfig" {
        buildConfigPresent := true;
        if VENDOR in o.annotations { tokens := tokens + {o.annotations[VENDOR]}; }
      } else if o.kind == "DaemonSet" {
        if !o.converts { return false, [], false; }
        if STATE in o.annotations && o.annotations[STATE] == "driver-container" { candidates := candidates + [o]; }
      }
      forall t ensures t in tokens <==> CanBeBuilt(objs[..i + 1], t) {
        assert CanBeBuilt(objs[..i + 1], t) <==> CanBeBuilt(objs[..i], t) || Builds(o, t);
      }
    }
    assert objs[..|objs|] == objs;
    relevant := [];
    for i := 0 to |candidates|
      invariant forall o :: o in relevant <==> o in candidates[..i] && Vendor(o) !in tokens
    {
      if Vendor(candidates[i]) !in tokens { relevant := relevant + [candidates[i]]; }
    }
    assert candidates[..|candidates|] == candidates;
    ok := true;
  }

  /** Layer `i` is the topmost that is not plain. */
  ghost predicate Topmost(layers: seq<Layer>, i: nat) {
    i < |layers| && layers[i] != Plain && forall j :: i < j < |layers| ==> layers[j] == Plain
  }

  /** The reason given for one driver container. */
  ghost predicate ReasonIs(o: Obj, registry: string -> Image, kernel: string, reason: Reason) {
    if o.images == [] then reason == NoContainer
    else match registry(o.images[0])
      case Unreachable => reason == NoImage
      case Layers(layers) =>
        if forall i :: 0 <= i < |layers| ==> layers[i] == Plain then reason == NoToolkit
        else exists i: nat :: Topmost(layers, i) &&
               reason == match layers[i] case Inaccessible => NoLayer case Toolkit(k) => (if k == kernel then AllPresent else OtherKernel) case Plain => NoToolkit
  }

  /** Scans the image from its top layer down. */
  method DaemonSetPreflightCheck(ds: Obj, registry: string -> Image, kernel: string)
    returns (verified: bool, reason: Reason, failed: bool)
    ensures verified <==> ImageReady(ds, registry, kernel)
    ensures failed <==> ds.images == []
    ensures verified <==> reason == AllPresent
    ensures reason != BuildConfigPresent && reason != NoDaemonSet
    ensures ReasonIs(ds, registry, kernel, reason)
  {
    if ds.images == [] { return false, NoContainer, true; }
    var image := registry(ds.images[0]);
    if image.Unreachable? { return false, NoImage, false; }
    var layers := image.layers;
    var i := |layers|;
    while i > 0
      invariant 0 <= i <= |layers|
      invariant forall j :: i <= j < |layers| ==> layers[j] == Plain
    {
      i := i - 1;
      assert layers[i] != Plain ==> Topmost(layers, i);
      match layers[i] {
        case Inaccessible => return false, NoLayer, false;
        case Plain =>
        case Toolkit(found) =>
          if found != kernel { return false, OtherKernel, false; }
          return true, AllPresent, false;
      }
    }
    return false, NoToolkit, false;
  }

  /** A driver container that no BuildConfig of the recipe pairs with. */
  ghost predicate Relevant(objs: seq<Obj>, o: Obj) {
    && o in objs && o.kind == "DaemonSet" && STATE in o.annotations && o.annotations[STATE] == "driver-container"
    && forall b :: b in objs && b.kind == "BuildConfig" && VENDOR in b.annotations ==>
         b.annotations[VENDOR] != if VENDOR in o.annotations then o.annotations[VENDOR] else ""
  }

  /** How a check ends: on a manifest or DaemonSet that cannot be read, on the first driver container that is not there, or
      well, with or without driver containers to look at. */
  ghost predicate EndsAs(objs: Option<seq<Obj>>, registry: string -> Image, kernel: string, verified: bool, reason: Reason, failed: bool) {
    match objs
    case None => !verified && failed && reason == BadManifest
    case Some(os) =>
      if exists o :: o in os && o.kind == "DaemonSet" && !o.converts then !verified && failed && reason == BadDaemonSet
      else if forall o :: !Relevant(os, o) then
        verified && !failed && reason == if exists o :: o in os && o.kind == "BuildConfig" then BuildConfigPresent else NoDaemonSet
      else if forall o :: Relevant(os, o) ==> ImageReady(o, registry, kernel) then verified && !failed && reason == AllPresent
      else exists o :: Relevant(os, o) && !ImageReady(o, registry, kernel) && !verified && (failed <==> o.images == [])
                       && ReasonIs(o, registry, kernel, reason)
  }

  lemma EndsWell(objs: seq<Obj>, relevant: seq<Obj>, registry: string -> Image, kernel: string)
    requires relevant != [] && (forall o :: o in objs && o.kind == "DaemonSet" ==> o.converts)
    requires forall o :: Relevant(objs, o) <==> o in relevant
    requires forall o :: o in relevant ==> ImageReady(o, registry, kernel)
    ensures EndsAs(Some(objs), registry, kernel, true, AllPresent, false)
  {
    hide Relevant, ImageReady, ReasonIs;
    assert Relevant(objs, relevant[0]);
  }

  lemma EndsBadly(objs: seq<Obj>, relevant: seq<Obj>, registry: string -> Image, kernel: string, i: nat, reason: Reason, failed: bool)
    requires i < |relevant| && (forall o :: o in objs && o.kind == "DaemonSet" ==> o.converts)
    requires forall o :: Relevant(objs, o) <==> o in relevant
    requires var o := relevant[i]; !ImageReady(o, registry, kernel) && (failed <==> o.images == []) && ReasonIs(o, registry, kernel, reason)
    ensures EndsAs(Some(objs), registry, kernel, false, reason, failed)
  {
    hide Relevant, ImageReady, ReasonIs;
    assert Relevant(objs, relevant[i]);
  }

  lemma RelevantIff(objs: seq<Obj>, o: Obj)
    ensures Relevant(objs, o) <==> o in objs && DriverContainer(o) && !CanBeBuilt(objs, Vendor(o))
  {}

  /** The check sees the documents that the scanner hands out of the manifest. */
  method HandleYAMLsCheck(input: seq<YamlScanner.Read>, parse: string -> Option<Obj>, registry: string -> Image,
                          kernel: string)
    returns (verified: bool, reason: Reason, failed: bool)
    ensures verified <==> Ready(YamlScanner.YieldOf(input, 0).tokens, parse, registry, kernel)
    ensures failed ==> !verified
    ensures var objs := YamlScanner.ObjectsFrom(input, parse);
      && (objs.None? ==> failed)
      && (verified ==> reason == AllPresent || reason == if HasBuildConfig(objs.value) then BuildConfigPresent else NoDaemonSet)
    ensures !verified ==> reason !in {AllPresent, BuildConfigPresent, NoDaemonSet}
    ensures EndsAs(YamlScanner.ObjectsFrom(input, parse), registry, kernel, verified, reason, failed)
  {
    hide YamlScanner.YieldOf, YamlScanner.Objects, ImageReady;
    var parsed := YamlScanner.GetObjectsFromYAML(input, parse);
    if parsed.None? { return false, BadManifest, true; }
    var objs := parsed.value;
    var converted, relevant, buildConfigPresent := GetRelevantDaemonSets(objs);
    if !converted { return false, BadDaemonSet, true; }
    forall o ensures Relevant(objs, o) <==> o in relevant { RelevantIff(objs, o); }
    hide Relevant, ReasonIs, DriverContainer, Vendor, CanBeBuilt;
    if |relevant| == 0 {
      assert forall o :: !Relevant(objs, o);
      return true, if buildConfigPresent then BuildConfigPresent else NoDaemonSet, false;
    }
    hide EndsAs;
    for i := 0 to |relevant|
      invariant forall j :: 0 <= j < i ==> ImageReady(relevant[j], registry, kernel)
    {
      verified, reason, failed := DaemonSetPreflightCheck(relevant[i], registry, kernel);
      if !verified {
        assert relevant[i] in relevant;
        EndsBadly(objs, relevant, registry, kernel, i, reason, failed);
        return;
      }
    }
    forall o | o in relevant ensures ImageReady(o, registry, kernel) {
      var j :| 0 <= j < |relevant| && relevant[j] == o;
    }
    EndsWell(objs, relevant, registry, kernel);
    return true, AllPresent, false;
  }

  // ---------------------------------------------------------------- order of the manifest

  lemma ObjectsMembers(docs: seq<string>, other: seq<string>, parse: string -> Option<Obj>)
    requires forall d :: d in docs ==> d in other
    requires YamlScanner.Objects(other, parse).Some?
    ensures var a, b := YamlScanner.Objects(docs, parse), YamlScanner.Objects(other, parse);
      a.Some? && forall o :: o in a.value ==> o in b.value
  {
    hide YamlScanner.Objects;
    forall i | 0 <= i < |docs| ensures parse(docs[i]).Some? {
      assert docs[i] in docs;
      var j :| 0 <= j < |other| && other[j] == docs[i];
    }
    var a, b := YamlScanner.Objects(docs, parse), YamlScanner.Objects(other, parse);
    forall o | o in a.value ensures o in b.value {
      var i :| 0 <= i < |docs| && a.value[i] == o;
      assert docs[i] in docs;
      var j :| 0 <= j < |other| && other[j] == docs[i];
      assert Some(b.value[j]) == Some(o);
    }
  }

  lemma ReadyFollows(docs: seq<string>, other: seq<string>, parse: string -> Option<Obj>, registry: string -> Image,
                     kernel: string)
    requires forall d :: d in docs <==> d in other
    requires Ready(docs, parse, registry, kernel)
    ensures Ready(other, parse, registry, kernel)
  {
    hide YamlScanner.Objects, ImageReady;
    ObjectsMembers(other, docs, parse);
    ObjectsMembers(docs, other, parse);
    var a, b := YamlScanner.Objects(docs, parse).value, YamlScanner.Objects(other, parse).value;
    forall token ensures CanBeBuilt(a, token) <==> CanBeBuilt(b, token) {}
  }

  /** The verdict does not depend on the order of the documents. */
  lemma ReadyIgnoresOrder(docs: seq<string>, other: seq<string>, parse: string -> Option<Obj>,
                          registry: string -> Image, kernel: string)
    requires multiset(docs) == multiset(other)
    ensures Ready(docs, parse, registry, kernel) <==> Ready(other, parse, registry, kernel)
  {
    hide Ready;
    forall d ensures d in docs <==> d in other { assert d in multiset(docs) <==> d in multiset(other); }
    if Ready(docs, parse, registry, kernel) { ReadyFollows(docs, other, parse, registry, kernel); }
    if Ready(other, parse, registry, kernel) { ReadyFollows(other, docs, parse, registry, kernel); }
  }
}
