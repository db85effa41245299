/** controllers/specialresourcemodule_controller.go, `filterResources` and `getOCPVersions`: from the watch list of a module to
    the driver-toolkit images that are active. */
module VersionScan {
  import opened Annotations

  /** A watched object: the values at its paths, and the paths at which the lookup fails. */
  datatype Obj = Obj(name: string, values: map<string, seq<string>>, broken: set<string>)

  function ValuesAt(o: Obj, path: string): seq<string> { if path in o.values then o.values[path] else [] }

  datatype Selector = Selector(path: string, value: string, exclude: bool)

  /** What listing the watched resource gave; a resource that is not found is left out. */
  datatype Listing = NotFound | ListFailed | Objects(objs: seq<Obj>)

  datatype Watch = Watch(listing: Listing, selectors: seq<Selector>, path: string)

  /** What an image is known by. */
  datatype Info = Info(toolkit: string, kernel: string, rtKernel: string, os: string, osImage: string, version: string)

  // ---------------------------------------------------------------- selectors

  predicate Matches(s: Selector, o: Obj) { (s.value in ValuesAt(o, s.path)) != s.exclude }

  /** The object has the value at the path. */
  ghost predicate Has(o: Obj, path: string, value: string) { path in o.values && value in o.values[path] }

  /** Selectors are alternatives: an object is kept if there is none, or one of them asks for a value it has or excludes a
      value it does not have. */
  ghost predicate Kept(ss: seq<Selector>, o: Obj) {
    ss == [] || exists s :: s in ss && (if s.exclude then !Has(o, s.path, s.value) else Has(o, s.path, s.value))
  }

  ghost predicate Readable(ss: seq<Selector>, objs: seq<Obj>) {
    forall s, o :: s in ss && o in objs ==> s.path !in o.broken
  }

  /** The objects that one selector matches, in order. */
  function SelectedBy(s: Selector, objs: seq<Obj>): seq<Obj> {
    if objs == [] then []
    else SelectedBy(s, objs[..|objs| - 1]) + if Matches(s, objs[|objs| - 1]) then [objs[|objs| - 1]] else []
  }

  /** The objects a list of selectors keeps: those of each selector in turn, so an object may come up again. */
  function SelectedByAny(ss: seq<Selector>, objs: seq<Obj>): seq<Obj> {
    if ss == [] then [] else SelectedByAny(ss[..|ss| - 1], objs) + SelectedBy(ss[|ss| - 1], objs)
  }

  function Selection(ss: seq<Selector>, objs: seq<Obj>): seq<Obj> {
    if ss == [] then objs else SelectedByAny(ss, objs)
  }

  lemma {:induction false} SelectedByMembers(s: Selector, objs: seq<Obj>, o: Obj)
    ensures o in SelectedBy(s, objs) <==> o in objs && Matches(s, o)
  {
    hide Matches;
    if objs != [] {
      assert objs == objs[..|objs| - 1] + [objs[|objs| - 1]];
      SelectedByMembers(s, objs[..|objs| - 1], o);
    }
  }

  lemma {:induction false} SelectedByAnyMembers(ss: seq<Selector>, objs: seq<Obj>, o: Obj)
    ensures o in SelectedByAny(ss, objs) <==> o in objs && exists s :: s in ss && Matches(s, o)
  {
    hide Matches;
    if ss != [] {
      assert ss == ss[..|ss| - 1] + [ss[|ss| - 1]];
      SelectedByMembers(ss[|ss| - 1], objs, o);
      SelectedByAnyMembers(ss[..|ss| - 1], objs, o);
    }
  }

  /** The selectors are gone through in order. */
  lemma {:induction false} SelectedByAnyConcat(a: seq<Selector>, b: seq<Selector>, objs: seq<Obj>)
    ensures SelectedByAny(a + b, objs) == SelectedByAny(a, objs) + SelectedByAny(b, objs)
    decreases |b|
  {
    hide SelectedBy;
    if b == [] {
      assert a + b == a;
    } else {
      assert (a + b)[..|a + b| - 1] == a + b[..|b| - 1];
      SelectedByAnyConcat(a, b[..|b| - 1], objs);
    }
  }

  /** An object is selected if and only if one selector matches it, or there is none. */
  lemma SelectionIsKept(ss: seq<Selector>, objs: seq<Obj>, o: Obj)
    ensures o in Selection(ss, objs) <==> o in objs && Kept(ss, o)
  {
    SelectedByAnyMembers(ss, objs, o);
    hide SelectedByAny;
    forall s ensures Matches(s, o) <==> if s.exclude then !Has(o, s.path, s.value) else Has(o, s.path, s.value) {}
    hide Matches, Has;
  }

  /** The inner loop of the filter: one selector over all objects. */
  method FilterBy(s: Selector, objs: seq<Obj>) returns (r: Option<seq<Obj>>)
    ensures r.Some? <==> forall o :: o in objs ==> s.path !in o.broken
    ensures r.Some? ==> r.value == SelectedBy(s, objs)
  {
    var kept: seq<Obj> := [];
    for j := 0 to |objs|
      invariant forall o :: o in objs[..j] ==> s.path !in o.broken
      invariant kept == SelectedBy(s, objs[..j])
    {
      var o := objs[j];
      assert objs[..j + 1][..j] == objs[..j];
      if s.path in o.broken {
        assert o in objs;
        return None;
      }
      var candidates := ValuesAt(o, s.path);
      var found := false;
      for n := 0 to |candidates|
        invariant found <==> s.value in candidates[..n]
      {
        if candidates[n] == s.value { found := true; }
      }
      assert candidates[..|candidates|] == candidates;
      if s.exclude { found := !found; }
      if found { kept := kept + [o]; }
    }
    assert objs[..|objs|] == objs;
    r := Some(kept);
  }

  method FilterResources(ss: seq<Selector>, objs: seq<Obj>) returns (r: Option<seq<Obj>>)
    ensures r.Some? <==> Readable(ss, objs)
    ensures r.Some? ==> r.value == Selection(ss, objs)
  {
    if |ss| == 0 { return Some(objs); }
    hide SelectedBy;
    var kept: seq<Obj> := [];
    for i := 0 to |ss|
      invariant Readable(ss[..i], objs)
      invariant kept == SelectedByAny(ss[..i], objs)
    {
      assert ss[i] in ss && ss[..i + 1] == ss[..i] + [ss[i]] && ss[..i + 1][..i] == ss[..i];
      var more := FilterBy(ss[i], objs);
      if more.None? { return None; }
      kept := kept + more.value;
    }
    assert ss[..|ss|] == ss;
    r := Some(kept);
  }

  // ---------------------------------------------------------------- versions

  /** What is known outside: which strings have the form of a version, the release image of a version, and what the
      registry says about an image. */
  datatype Oracle = Oracle(isVersion: string -> bool, release: string -> Option<string>, describe: string -> Option<Info>)

  /** The information behind a string: a version stands for its release image, a string with `@` or `:` is an image. */
  function Resolve(o: Oracle, e: string): Option<Info> {
    var image := if o.isVersion(e) then o.release(e) else if '@' in e || ':' in e then Some(e) else None;
    if image.None? then None else o.describe(image.value)
  }

  /** The string stands for this image: a version for its release image, and otherwise a string with `@` or `:` for itself. */
  ghost predicate Names(o: Oracle, e: string, image: string) {
    if o.isVersion(e) then o.release(e) == Some(image) else image == e && exists i :: 0 <= i < |e| && (e[i] == '@' || e[i] == ':')
  }

  lemma ResolveIff(o: Oracle, e: string, info: Info)
    ensures Resolve(o, e) == Some(info) <==> exists image :: Names(o, e, image) && o.describe(image) == Some(info)
  {
    if Resolve(o, e) == Some(info) {
      var image := if o.isVersion(e) then o.release(e).value else e;
      assert Names(o, e, image);
    }
  }

  /** The watch can be evaluated. */
  ghost predicate Answers(w: Watch) {
    w.listing.NotFound? || (w.listing.Objects? && Readable(w.selectors, w.listing.objs))
  }

  /** The strings at a path, object by object; objects at which the lookup fails are passed over. */
  function StringsAt(objs: seq<Obj>, path: string): seq<string> {
    if objs == [] then []
    else
      var last := objs[|objs| - 1];
      StringsAt(objs[..|objs| - 1], path) + if path in last.broken then [] else ValuesAt(last, path)
  }

  function StringsOf(w: Watch): seq<string> {
    if w.listing.Objects? then StringsAt(Selection(w.selectors, w.listing.objs), w.path) else []
  }

  /** All strings that the watches observe, in order. */
  function Strings(ws: seq<Watch>): seq<string> {
    if ws == [] then [] else Strings(ws[..|ws| - 1]) + StringsOf(ws[|ws| - 1])
  }

  /** The version map `m` with the versions that `es` name, later ones over earlier ones. */
  function AddAll(m: map<string, Info>, es: seq<string>, o: Oracle): map<string, Info> {
    if es == [] then m
    else
      var before, info := AddAll(m, es[..|es| - 1], o), Resolve(o, es[|es| - 1]);
      if info.Some? then before[info.value.toolkit := info.value] else before
  }

  lemma {:induction false} AddAllJoin(m: map<string, Info>, a: seq<string>, b: seq<string>, o: Oracle)
    ensures AddAll(m, a + b, o) == AddAll(AddAll(m, a, o), b, o)
    decreases |b|
  {
    hide Resolve;
    if b == [] {
      assert a + b == a;
    } else {
      AddAllJoin(m, a, b[..|b| - 1], o);
      assert (a + b)[..|a + b| - 1] == a + b[..|b| - 1];
    }
  }

  ghost predicate Resolvable(es: seq<string>, o: Oracle) { forall e :: e in es ==> Resolve(o, e).Some? }

  /** Adds the versions that the given strings name. */
  method ScanValues(versions: map<string, Info>, values: seq<string>, o: Oracle) returns (r: Option<map<string, Info>>)
    ensures r.Some? <==> Resolvable(values, o)
    ensures r.Some? ==> r.value == AddAll(versions, values, o)
  {
    var m := versions;
    for n := 0 to |values|
      invariant Resolvable(values[..n], o) && m == AddAll(versions, values[..n], o)
    {
      var e := values[n];
      assert e in values && values[..n + 1][..n] == values[..n];
      var image;
      if o.isVersion(e) {
        image := o.release(e);
        if image.None? { return None; }
      } else if '@' in e || ':' in e {
        image := Some(e);
      } else {
        return None;
      }
      var info := o.describe(image.value);
      if info.None? { return None; }
      m := m[info.value.toolkit := info.value];
    }
    assert values[..|values|] == values;
    r := Some(m);
  }

  /** Adds the versions at the watched path of the selected objects. */
  method ScanObjects(versions: map<string, Info>, objs: seq<Obj>, path: string, o: Oracle)
    returns (r: Option<map<string, Info>>)
    ensures r.Some? <==> Resolvable(StringsAt(objs, path), o)
    ensures r.Some? ==> r.value == AddAll(versions, StringsAt(objs, path), o)
  {
    hide Resolve, AddAll;
    NothingAdded(versions, o);
    var m := versions;
    for i := 0 to |objs|
      invariant Resolvable(StringsAt(objs[..i], path), o) && m == AddAll(versions, StringsAt(objs[..i], path), o)
    {
      StringsAtGrow(objs, i, path);
      assert objs[..i + 1][..i] == objs[..i];
      if path in objs[i].broken {
        assert StringsAt(objs[..i + 1], path) == StringsAt(objs[..i], path);
        continue;
      }
      var next := ScanValues(m, ValuesAt(objs[i], path), o);
      if next.None? { return None; }
      AddAllJoin(versions, StringsAt(objs[..i], path), ValuesAt(objs[i], path), o);
      m := next.value;
    }
    assert objs[..|objs|] == objs;
    r := Some(m);
  }

  lemma NothingAdded(m: map<string, Info>, o: Oracle)
    ensures AddAll(m, [], o) == m
  {}

  lemma {:induction false} StringsAtGrow(objs: seq<Obj>, i: nat, path: string)
    requires i < |objs|
    ensures StringsAt(objs[..i + 1], path) <= StringsAt(objs, path)
    ensures forall e :: path !in objs[i].broken && e in ValuesAt(objs[i], path) ==> e in StringsAt(objs, path)
    decreases |objs|
  {
    hide ValuesAt;
    if i + 1 == |objs| {
      assert objs[..i + 1] == objs;
    } else {
      var init := objs[..|objs| - 1];
      assert init[..i + 1] == objs[..i + 1];
      StringsAtGrow(init, i, path);
    }
  }

  /** The active versions. The call succeeds if and only if every watch can be evaluated and every string it observes names
      a version; of two strings that name the same driver-toolkit image, the later one counts. */
  method GetOCPVersions(ws: seq<Watch>, o: Oracle) returns (r: Option<map<string, Info>>)
    ensures r.Some? <==> (forall w :: w in ws ==> Answers(w)) && Resolvable(Strings(ws), o)
    ensures r.Some? ==> r.value == AddAll(map[], Strings(ws), o)
  {
    hide Resolve, AddAll, StringsAt, Selection, Readable;
    NothingAdded(map[], o);
    var m: map<string, Info> := map[];
    for i := 0 to |ws|
      invariant forall w :: w in ws[..i] ==> Answers(w)
      invariant Resolvable(Strings(ws[..i]), o) && m == AddAll(map[], Strings(ws[..i]), o)
    {
      var w := ws[i];
      assert w in ws && ws[..i + 1] == ws[..i] + [w] && ws[..i + 1][..i] == ws[..i];
      StringsGrow(ws, i);
      match w.listing {
        case NotFound => assert Strings(ws[..i + 1]) == Strings(ws[..i]);
        case ListFailed => return None;
        case Objects(objs) =>
          var kept := FilterResources(w.selectors, objs);
          if kept.None? { return None; }
          var scanned := ScanObjects(m, kept.value, w.path, o);
          if scanned.None? { return None; }
          AddAllJoin(map[], Strings(ws[..i]), StringsOf(w), o);
          m := scanned.value;
      }
    }
    assert ws[..|ws|] == ws;
    r := Some(m);
  }

  lemma {:induction false} StringsGrow(ws: seq<Watch>, i: nat)
    requires i < |ws|
    ensures forall e :: e in StringsOf(ws[i]) ==> e in Strings(ws)
    decreases |ws|
  {
    hide StringsOf;
    if i + 1 < |ws| { StringsGrow(ws[..|ws| - 1], i); }
  }

  // ---------------------------------------------------------------- what the version map means

  /** `e` is at the watched path of an object the watch selects. */
  ghost predicate Observes(w: Watch, e: string) {
    && w.listing.Objects?
    && exists o :: o in w.listing.objs && Kept(w.selectors, o) && w.path !in o.broken && Has(o, w.path, e)
  }

  ghost predicate Observed(ws: seq<Watch>, e: string) {
    exists w :: w in ws && Observes(w, e)
  }

  lemma {:induction false} StringsAtMembers(objs: seq<Obj>, path: string, e: string)
    ensures e in StringsAt(objs, path) <==> exists o :: o in objs && path !in o.broken && e in ValuesAt(o, path)
    decreases |objs|
  {
    hide ValuesAt;
    if objs != [] {
      assert objs == objs[..|objs| - 1] + [objs[|objs| - 1]];
      StringsAtMembers(objs[..|objs| - 1], path, e);
    }
  }

  lemma StringsOfMembers(w: Watch, e: string)
    ensures e in StringsOf(w) <==> Observes(w, e)
  {
    hide Kept, Selection, StringsAt;
    if w.listing.Objects? {
      var objs := Selection(w.selectors, w.listing.objs);
      StringsAtMembers(objs, w.path, e);
      forall o ensures Has(o, w.path, e) <==> e in ValuesAt(o, w.path) {}
      hide ValuesAt, Has;
      forall o ensures o in objs <==> o in w.listing.objs && Kept(w.selectors, o) {
        SelectionIsKept(w.selectors, w.listing.objs, o);
      }
    }
  }

  /** The strings are exactly those observed at the watched path of a selected object. */
  lemma {:induction false} StringsAreObserved(ws: seq<Watch>, e: string)
    ensures e in Strings(ws) <==> Observed(ws, e)
    decreases |ws|
  {
    hide Observes, StringsOf;
    if ws != [] {
      assert ws == ws[..|ws| - 1] + [ws[|ws| - 1]];
      StringsAreObserved(ws[..|ws| - 1], e);
      StringsOfMembers(ws[|ws| - 1], e);
    }
  }

  /** The strings come in the order of the watches, of their objects, and of the values at the path. */
  lemma {:induction false} StringsConcat(a: seq<Watch>, b: seq<Watch>)
    ensures Strings(a + b) == Strings(a) + Strings(b)
    decreases |b|
  {
    hide StringsOf;
    if b == [] {
      assert a + b == a;
    } else {
      assert (a + b)[..|a + b| - 1] == a + b[..|b| - 1];
      StringsConcat(a, b[..|b| - 1]);
    }
  }

  lemma {:induction false} StringsAtConcat(a: seq<Obj>, b: seq<Obj>, path: string)
    ensures StringsAt(a + b, path) == StringsAt(a, path) + StringsAt(b, path)
    decreases |b|
  {
    hide ValuesAt;
    if b == [] {
      assert a + b == a;
    } else {
      assert (a + b)[..|a + b| - 1] == a + b[..|b| - 1];
      StringsAtConcat(a, b[..|b| - 1], path);
    }
  }

  /** The information of the last string that names toolkit `k`. */
  function LastNaming(es: seq<string>, k: string, o: Oracle): Option<Info> {
    if es == [] then None
    else
      var info := Resolve(o, es[|es| - 1]);
      if info.Some? && info.value.toolkit == k then info else LastNaming(es[..|es| - 1], k, o)
  }

  /** Each toolkit image is mapped to what the last string that names it says. */
  lemma {:induction false} LastStringCounts(es: seq<string>, k: string, o: Oracle)
    ensures var m := AddAll(map[], es, o);
      LastNaming(es, k, o) == if k in m then Some(m[k]) else None
    decreases |es|
  {
    hide Resolve;
    if es != [] { LastStringCounts(es[..|es| - 1], k, o); }
  }

  lemma {:induction false} NamedIffSome(es: seq<string>, k: string, o: Oracle)
    ensures LastNaming(es, k, o).Some? <==> exists e :: e in es && Resolve(o, e).Some? && Resolve(o, e).value.toolkit == k
    decreases |es|
  {
    hide Resolve;
    if es != [] {
      assert es == es[..|es| - 1] + [es[|es| - 1]];
      NamedIffSome(es[..|es| - 1], k, o);
    }
  }

  /** `k` is the driver-toolkit image of a string that the watches observe. */
  ghost predicate Toolkit(ws: seq<Watch>, o: Oracle, k: string) {
    exists e :: Observed(ws, e) && NamesToolkit(o, e, k)
  }

  /** The string stands for an image that the registry describes as having toolkit `k`. */
  ghost predicate NamesToolkit(o: Oracle, e: string, k: string) {
    exists image :: Names(o, e, image) && o.describe(image).Some? && o.describe(image).value.toolkit == k
  }

  /** The keys are the active toolkit images. */
  lemma KeysAreToolkits(ws: seq<Watch>, o: Oracle)
    ensures forall k :: k in AddAll(map[], Strings(ws), o) <==> Toolkit(ws, o, k)
  {
    forall e, k ensures Resolve(o, e).Some? && Resolve(o, e).value.toolkit == k <==> NamesToolkit(o, e, k) {
      if image :| Names(o, e, image) && o.describe(image).Some? && o.describe(image).value.toolkit == k {
        ResolveIff(o, e, o.describe(image).value);
      }
      if Resolve(o, e).Some? { ResolveIff(o, e, Resolve(o, e).value); }
    }
    hide Resolve, AddAll, Strings, Observed, LastNaming, NamesToolkit;
    forall k ensures k in AddAll(map[], Strings(ws), o) <==> Toolkit(ws, o, k) {
      LastStringCounts(Strings(ws), k, o);
      NamedIffSome(Strings(ws), k, o);
      forall e ensures e in Strings(ws) <==> Observed(ws, e) { StringsAreObserved(ws, e); }
    }
  }
}
