/** The watch index of pkg/watcher/watcher.go: two maps that together represent one relation
    "module m is woken when the value at path p of resource r changes". */
module Watcher {
  import opened Sequences
  import opened StringOrder

  datatype Resource = Resource(apiVersion: string, kind: string, name: string, namespace: string)

  /** A resource and a path in it: the key of the data map, and the compared part of a watch entry. */
  datatype Key = Key(res: Resource, path: string)

  datatype Module = Module(name: string, namespace: string)

  /** The last value seen at a key and the modules to wake. */
  datatype PathData = PathData(value: seq<string>, subs: seq<Module>)

  datatype Index = Index(paths: map<Resource, seq<string>>, data: map<Key, PathData>)

  /** An entry of a module's watch list, with the answer the controller gives if asked to watch it. */
  datatype Entry = Entry(key: Key, accepted: bool)

  /** An object delivered to the mapper. A path without a value is one whose lookup fails. */
  datatype Object = Object(apiVersion: string, kind: string, name: string, namespace: string,
                           values: map<string, seq<string>>)

  function ValueAt(o: Object, path: string): seq<string> {
    if path in o.values then o.values[path] else []
  }

  function Wanted(entries: seq<Entry>): set<Key> {
    set e | e in entries :: e.key
  }

  /** Each data key has its path listed. Holds between any two statements of an update. */
  ghost predicate Listed(ix: Index) {
    forall k :: k in ix.data ==> k.res in ix.paths && k.path in ix.paths[k.res]
  }

  /** The two maps agree, and no list in them is empty or repeats a member. */
  ghost predicate Valid(ix: Index) {
    && Listed(ix)
    && (forall r, p :: r in ix.paths && p in ix.paths[r] ==> Key(r, p) in ix.data)
    && (forall r :: r in ix.paths ==> ix.paths[r] != [] && Distinct(ix.paths[r]))
    && (forall k :: k in ix.data ==> ix.data[k].subs != [] && Distinct(ix.data[k].subs))
  }

  /** The relation that the index represents. */
  ghost function Pairs(ix: Index): set<(Key, Module)> {
    set k, m | k in ix.data && m in ix.data[k].subs :: (k, m)
  }

  const Empty := Index(map[], map[])

  // ---------------------------------------------------------------- lists

  function RemoveFirst<T(==)>(xs: seq<T>, x: T): seq<T> {
    if xs == [] then [] else if xs[0] == x then xs[1..] else [xs[0]] + RemoveFirst(xs[1..], x)
  }

  lemma {:induction false} RemoveFirstDistinct<T>(xs: seq<T>, x: T)
    requires Distinct(xs)
    ensures Distinct(RemoveFirst(xs, x))
    ensures forall y :: y in RemoveFirst(xs, x) <==> y in xs && y != x
  {
    if xs != [] {
      assert xs == [xs[0]] + xs[1..];
      assert forall y :: y in xs <==> y == xs[0] || y in xs[1..];
      RemoveFirstDistinct(xs[1..], x);
      assert xs[0] !in xs[1..];
    }
  }

  lemma {:induction false} RemoveFirstAbsent<T>(xs: seq<T>, x: T)
    requires x !in xs
    ensures RemoveFirst(xs, x) == xs
  {
    if xs != [] { RemoveFirstAbsent(xs[1..], x); }
  }

  lemma {:induction false} RemoveFirstMembers<T>(xs: seq<T>, x: T, y: T)
    requires y != x
    ensures y in RemoveFirst(xs, x) <==> y in xs
  {
    if xs != [] {
      assert xs == [xs[0]] + xs[1..];
      RemoveFirstMembers(xs[1..], x, y);
    }
  }

  lemma {:induction false} RemoveFirstAt<T>(xs: seq<T>, x: T, i: nat)
    requires i < |xs| && xs[i] == x && x !in xs[..i]
    ensures RemoveFirst(xs, x) == xs[..i] + xs[i + 1..]
  {
    if i > 0 {
      assert xs[0] in xs[..i];
      assert xs[1..][..i - 1] == xs[..i][1..];
      assert forall y :: y in xs[..i][1..] ==> y in xs[..i];
      RemoveFirstAt(xs[1..], x, i - 1);
      assert [xs[0]] + xs[1..][..i - 1] == xs[..i];
    }
  }

  /** The deletion idiom `append(xs[:idx], xs[idx+1:]...)` behind a search for `x`. */
  method DeleteFirst<T(==)>(xs: seq<T>, x: T) returns (ys: seq<T>)
    ensures ys == RemoveFirst(xs, x)
  {
    for i := 0 to |xs|
      invariant x !in xs[..i]
    {
      if xs[i] == x {
        RemoveFirstAt(xs, x, i);
        return xs[..i] + xs[i + 1..];
      }
    }
    RemoveFirstAbsent(xs, x);
    return xs;
  }

  // ---------------------------------------------------------------- removal

  /** Who stays subscribed to `k` when module `m` now wants the keys in `wanted`. */
  function Rest(pd: PathData, k: Key, m: Module, wanted: set<Key>): seq<Module> {
    if k in wanted then pd.subs else RemoveFirst(pd.subs, m)
  }

  /** The paths of `r` among `ps` that still have data. */
  function Known(r: Resource, ps: seq<string>, keys: set<Key>): seq<string> {
    if ps == [] then []
    else if Key(r, ps[0]) in keys then [ps[0]] + Known(r, ps[1..], keys)
    else Known(r, ps[1..], keys)
  }

  function PathsFor(paths: map<Resource, seq<string>>, keys: set<Key>): map<Resource, seq<string>> {
    map r | r in paths && Known(r, paths[r], keys) != [] :: Known(r, paths[r], keys)
  }

  /** The index once `m`'s unwanted subscriptions are gone. */
  function Keep(ix: Index, m: Module, wanted: set<Key>): Index {
    var data := map k | k in ix.data && Rest(ix.data[k], k, m, wanted) != []
                  :: PathData(ix.data[k].value, Rest(ix.data[k], k, m, wanted));
    Index(PathsFor(ix.paths, data.Keys), data)
  }

  lemma {:induction false} KnownMembers(r: Resource, ps: seq<string>, keys: set<Key>)
    ensures forall p :: p in Known(r, ps, keys) <==> p in ps && Key(r, p) in keys
    ensures Distinct(ps) ==> Distinct(Known(r, ps, keys))
  {
    if ps != [] {
      assert ps == [ps[0]] + ps[1..];
      assert forall p :: p in ps <==> p == ps[0] || p in ps[1..];
      KnownMembers(r, ps[1..], keys);
      if Distinct(ps) {
        assert ps[0] !in ps[1..];
      }
    }
  }

  lemma {:induction false} KnownAll(r: Resource, ps: seq<string>, keys: set<Key>)
    requires forall p :: p in ps ==> Key(r, p) in keys
    ensures Known(r, ps, keys) == ps
  {
    if ps != [] {
      assert forall p :: p in ps[1..] ==> p in ps;
      KnownAll(r, ps[1..], keys);
    }
  }

  lemma {:induction false} KnownWithout(r: Resource, ps: seq<string>, keys: set<Key>, k: Key)
    requires Distinct(ps) && k in keys
    ensures Known(r, ps, keys - {k}) == if r == k.res then RemoveFirst(Known(r, ps, keys), k.path) else Known(r, ps, keys)
  {
    if ps != [] {
      assert Distinct(ps[1..]);
      KnownWithout(r, ps[1..], keys, k);
      if Key(r, ps[0]) == k {
        assert forall p :: p in ps[1..] ==> p != ps[0];
        KnownMembers(r, ps[1..], keys);
        RemoveFirstAbsent(Known(r, ps[1..], keys), ps[0]);
      }
    }
  }

  /** Deleting one data key and then its path is `PathsFor` with one key fewer. */
  function Unlisted(paths: map<Resource, seq<string>>, k: Key): map<Resource, seq<string>> {
    if k.res !in paths then paths
    else if RemoveFirst(paths[k.res], k.path) == [] then paths - {k.res}
    else paths[k.res := RemoveFirst(paths[k.res], k.path)]
  }

  lemma UnlistedIsPathsFor(paths: map<Resource, seq<string>>, keys: set<Key>, k: Key)
    requires forall r :: r in paths ==> Distinct(paths[r])
    requires k in keys
    ensures Unlisted(PathsFor(paths, keys), k) == PathsFor(paths, keys - {k})
  {
    var before, after := PathsFor(paths, keys), PathsFor(paths, keys - {k});
    var got := Unlisted(before, k);
    forall r | r in paths
      ensures r in got <==> r in after
      ensures r in got ==> got[r] == after[r]
    {
      KnownWithout(r, paths[r], keys, k);
    }
    assert got.Keys == after.Keys;
  }

  /** The index half-way through the removal loop: the keys in `todo` are still to be visited. */
  function Partial(ix: Index, m: Module, wanted: set<Key>, todo: set<Key>): Index {
    var data := map k | k in ix.data && (k in todo || Rest(ix.data[k], k, m, wanted) != [])
                  :: if k in todo then ix.data[k] else PathData(ix.data[k].value, Rest(ix.data[k], k, m, wanted));
    Index(PathsFor(ix.paths, data.Keys), data)
  }

  /** One visit of the removal loop. */
  function Visit(ix: Index, k: Key, m: Module, wanted: set<Key>): Index
    requires k in ix.data
  {
    var left := Rest(ix.data[k], k, m, wanted);
    if left == [] then Index(Unlisted(ix.paths, k), ix.data - {k})
    else ix.(data := ix.data[k := PathData(ix.data[k].value, left)])
  }

  lemma PartialStart(ix: Index, m: Module, wanted: set<Key>)
    requires forall r, p :: r in ix.paths && p in ix.paths[r] ==> Key(r, p) in ix.data
    requires forall r :: r in ix.paths ==> ix.paths[r] != []
    ensures Partial(ix, m, wanted, ix.data.Keys) == ix
  {
    var start := Partial(ix, m, wanted, ix.data.Keys);
    assert start.data == ix.data;
    forall r | r in ix.paths ensures Known(r, ix.paths[r], start.data.Keys) == ix.paths[r] {
      KnownAll(r, ix.paths[r], start.data.Keys);
    }
    assert start.paths == ix.paths;
  }

  lemma PartialVisit(ix: Index, m: Module, wanted: set<Key>, todo: set<Key>, k: Key)
    requires forall r :: r in ix.paths ==> Distinct(ix.paths[r])
    requires todo <= ix.data.Keys && k in todo
    ensures Visit(Partial(ix, m, wanted, todo), k, m, wanted) == Partial(ix, m, wanted, todo - {k})
  {
    var before, after := Partial(ix, m, wanted, todo), Partial(ix, m, wanted, todo - {k});
    if Rest(ix.data[k], k, m, wanted) == [] {
      assert before.data - {k} == after.data;
      assert before.data.Keys - {k} == after.data.Keys;
      UnlistedIsPathsFor(ix.paths, before.data.Keys, k);
    } else {
      assert before.data.Keys == after.data.Keys;
      assert before.data[k := after.data[k]] == after.data;
    }
  }

  lemma PartialEnd(ix: Index, m: Module, wanted: set<Key>)
    ensures Partial(ix, m, wanted, {}) == Keep(ix, m, wanted)
  {
    assert Partial(ix, m, wanted, {}).data == Keep(ix, m, wanted).data;
  }

  lemma KeptLists(ix: Index, m: Module, wanted: set<Key>)
    requires Valid(ix)
    ensures Valid(Keep(ix, m, wanted))
  {
    var kept := Keep(ix, m, wanted);
    forall k | k in kept.data ensures Distinct(kept.data[k].subs) {
      RemoveFirstDistinct(ix.data[k].subs, m);
    }
    forall r | r in ix.paths
      ensures forall p :: p in Known(r, ix.paths[r], kept.data.Keys) <==> p in ix.paths[r] && Key(r, p) in kept.data
      ensures Distinct(Known(r, ix.paths[r], kept.data.Keys))
    {
      KnownMembers(r, ix.paths[r], kept.data.Keys);
    }
  }

  lemma KeptPairs(ix: Index, m: Module, wanted: set<Key>)
    requires forall k :: k in ix.data ==> Distinct(ix.data[k].subs)
    ensures Pairs(Keep(ix, m, wanted)) == set p | p in Pairs(ix) && (p.1 != m || p.0 in wanted)
  {
    var kept := Keep(ix, m, wanted);
    forall k, n
      ensures (k, n) in Pairs(kept) <==> (k, n) in Pairs(ix) && (n != m || k in wanted)
    {
      if k in ix.data { RemoveFirstDistinct(ix.data[k].subs, m); }
    }
    forall p: (Key, Module)
      ensures p in Pairs(kept) <==> p in Pairs(ix) && (p.1 != m || p.0 in wanted)
    {
      assert p == (p.0, p.1);
    }
  }

  // ---------------------------------------------------------------- addition

  function Subscribes(ix: Index, k: Key, m: Module): bool {
    k in ix.data && m in ix.data[k].subs
  }

  function WithPath(ix: Index, k: Key): Index {
    var ps := if k.res in ix.paths then ix.paths[k.res] else [];
    ix.(paths := ix.paths[k.res := if k.path in ps then ps else ps + [k.path]])
  }

  function WithSubscriber(ix: Index, k: Key, m: Module): Index {
    var pd := if k in ix.data then ix.data[k] else PathData([], []);
    ix.(data := ix.data[k := PathData(pd.value, pd.subs + [m])])
  }

  function AddOne(ix: Index, k: Key, m: Module): Index {
    WithSubscriber(WithPath(ix, k), k, m)
  }

  lemma AddOneValid(ix: Index, k: Key, m: Module)
    requires Valid(ix) && !Subscribes(ix, k, m)
    ensures Valid(AddOne(ix, k, m))
  {
    var next := AddOne(ix, k, m);
    var ps := if k.res in ix.paths then ix.paths[k.res] else [];
    var subs := if k in ix.data then ix.data[k].subs else [];
    assert next.data[k].subs == subs + [m] && Distinct(subs + [m]);
    assert next.paths[k.res] == (if k.path in ps then ps else ps + [k.path]) && Distinct(next.paths[k.res]);
    assert Listed(next);
    forall r, p | r in next.paths && p in next.paths[r] ensures Key(r, p) in next.data {}
  }

  lemma AddOnePairs(ix: Index, k: Key, m: Module)
    ensures Pairs(AddOne(ix, k, m)) == Pairs(ix) + {(k, m)}
  {
    var next := AddOne(ix, k, m);
    var subs := if k in ix.data then ix.data[k].subs else [];
    assert next.data[k].subs == subs + [m];
    forall p: (Key, Module) ensures p in Pairs(next) <==> p in Pairs(ix) + {(k, m)} {
      assert p == (p.0, p.1);
      assert p.1 in subs + [m] <==> p.1 in subs || p.1 == m;
    }
  }

  /** What a call leaves behind: the index, the watches it started, how many entries it handled. */
  datatype Outcome = Outcome(index: Index, started: seq<Resource>, handled: nat, ok: bool)

  function AddAll(ix: Index, m: Module, entries: seq<Entry>): Outcome
    decreases |entries|
  {
    if entries == [] then Outcome(ix, [], 0, true)
    else
      var k := entries[0].key;
      if Subscribes(ix, k, m) then
        var rest := AddAll(ix, m, entries[1..]);
        rest.(handled := rest.handled + 1)
      else if !entries[0].accepted then Outcome(ix, [k.res], 0, false)
      else
        var rest := AddAll(AddOne(ix, k, m), m, entries[1..]);
        rest.(started := [k.res] + rest.started, handled := rest.handled + 1)
  }

  function Reconcile(ix: Index, m: Module, entries: seq<Entry>): Outcome {
    AddAll(Keep(ix, m, Wanted(entries)), m, entries)
  }

  ghost function PairsOf(entries: seq<Entry>, m: Module): set<(Key, Module)> {
    set e | e in entries :: (e.key, m)
  }

  lemma {:induction false} AddAllPairs(ix: Index, m: Module, entries: seq<Entry>)
    requires Valid(ix)
    ensures var r := AddAll(ix, m, entries);
      && Valid(r.index)
      && r.handled <= |entries|
      && (r.ok <==> r.handled == |entries|)
      && Pairs(r.index) == Pairs(ix) + PairsOf(entries[..r.handled], m)
      && (!r.ok ==> !entries[r.handled].accepted && (entries[r.handled].key, m) !in Pairs(r.index))
    decreases |entries|
  {
    hide Valid, AddOne, PairsOf;
    PairsOfNone(entries, m);
    if entries != [] {
      var k := entries[0].key;
      var r := AddAll(ix, m, entries);
      if Subscribes(ix, k, m) {
        AddAllPairs(ix, m, entries[1..]);
        assert (k, m) in Pairs(ix);
        PairsOfCons(entries, r.handled, m);
      } else if entries[0].accepted {
        AddOneValid(ix, k, m);
        AddOnePairs(ix, k, m);
        AddAllPairs(AddOne(ix, k, m), m, entries[1..]);
        PairsOfCons(entries, r.handled, m);
      }
    }
  }

  lemma {:induction false} AddAllValues(ix: Index, m: Module, entries: seq<Entry>)
    ensures var r := AddAll(ix, m, entries);
      && (forall k :: k in ix.data ==> k in r.index.data && r.index.data[k].value == ix.data[k].value)
      && (forall k :: k in r.index.data && k !in ix.data ==> r.index.data[k].value == [])
    decreases |entries|
  {
    if entries != [] {
      AddAllValues(ix, m, entries[1..]);
      AddAllValues(AddOne(ix, entries[0].key, m), m, entries[1..]);
    }
  }

  /** The entries that are new to the module: its key is neither subscribed to before nor earlier in the list. */
  ghost function NewEntries(pairs: set<(Key, Module)>, m: Module, entries: seq<Entry>): seq<Entry> {
    if entries == [] then []
    else
      var init, last := entries[..|entries| - 1], entries[|entries| - 1];
      NewEntries(pairs, m, init) + if (last.key, m) !in pairs && last.key !in Wanted(init) then [last] else []
  }

  ghost function ResourcesOf(entries: seq<Entry>): seq<Resource> {
    if entries == [] then [] else ResourcesOf(entries[..|entries| - 1]) + [entries[|entries| - 1].key.res]
  }

  lemma {:induction false} NewEntriesCons(pairs: set<(Key, Module)>, m: Module, entries: seq<Entry>)
    requires entries != []
    ensures var e := entries[0];
      NewEntries(pairs, m, entries) ==
        (if (e.key, m) !in pairs then [e] else []) + NewEntries(pairs + {(e.key, m)}, m, entries[1..])
    decreases |entries|
  {
    var init, last, e := entries[..|entries| - 1], entries[|entries| - 1], entries[0];
    if init == [] {
      assert entries[1..] == [] && NewEntries(pairs, m, init) == [] && Wanted(init) == {};
    } else {
      NewEntriesCons(pairs, m, init);
      var tail := entries[1..];
      assert tail[..|tail| - 1] == init[1..] && tail[|tail| - 1] == last;
      assert init == [e] + init[1..];
      assert Wanted(init) == {e.key} + Wanted(init[1..]);
    }
  }

  lemma {:induction false} ResourcesCons(e: Entry, entries: seq<Entry>)
    ensures ResourcesOf([e] + entries) == [e.key.res] + ResourcesOf(entries)
    decreases |entries|
  {
    if entries == [] {
      assert [e] + entries == [e] && [e][..0] == [];
    } else {
      var n := |entries| - 1;
      assert ([e] + entries)[..|[e] + entries| - 1] == [e] + entries[..n];
      ResourcesCons(e, entries[..n]);
    }
  }

  /** How many entries a call got to: those it handled, and the one that was refused. */
  function Reached(r: Outcome): nat { if r.ok then r.handled else r.handled + 1 }

  lemma StartedCons(pairs: set<(Key, Module)>, m: Module, entries: seq<Entry>, n: nat)
    requires 0 < n <= |entries|
    ensures var k := entries[0].key;
      ResourcesOf(NewEntries(pairs, m, entries[..n])) ==
        (if (k, m) !in pairs then [k.res] else []) + ResourcesOf(NewEntries(pairs + {(k, m)}, m, entries[1..][..n - 1]))
  {
    var seen := entries[..n];
    assert seen[0] == entries[0] && seen[1..] == entries[1..][..n - 1];
    NewEntriesCons(pairs, m, seen);
    hide NewEntries, ResourcesOf;
    ResourcesCons(entries[0], NewEntries(pairs + {(entries[0].key, m)}, m, seen[1..]));
    assert [] + NewEntries(pairs + {(entries[0].key, m)}, m, seen[1..]) == NewEntries(pairs + {(entries[0].key, m)}, m, seen[1..]);
  }

  /** A watch is asked for exactly for the new entries, in order, up to the first that is refused. */
  lemma {:induction false} StartedAreNew(ix: Index, m: Module, entries: seq<Entry>)
    requires Valid(ix)
    ensures var r := AddAll(ix, m, entries);
      Reached(r) <= |entries| && r.started == ResourcesOf(NewEntries(Pairs(ix), m, entries[..Reached(r)]))
    decreases |entries|
  {
    hide Valid, Pairs, AddOne, NewEntries, ResourcesOf, Subscribes, PairsOf;
    AddAllPairs(ix, m, entries);
    var r := AddAll(ix, m, entries);
    if entries == [] {
      NothingNew(Pairs(ix), m, entries);
    } else {
      var k, tail := entries[0].key, entries[1..];
      SubscribesIff(ix, k, m);
      StartedCons(Pairs(ix), m, entries, Reached(r));
      if Subscribes(ix, k, m) {
        assert Pairs(ix) + {(k, m)} == Pairs(ix);
        StartedAreNew(ix, m, tail);
      } else if entries[0].accepted {
        AddOneValid(ix, k, m);
        AddOnePairs(ix, k, m);
        StartedAreNew(AddOne(ix, k, m), m, tail);
      } else {
        NothingNew(Pairs(ix) + {(k, m)}, m, tail);
      }
    }
  }

  lemma SubscribesIff(ix: Index, k: Key, m: Module)
    ensures Subscribes(ix, k, m) <==> (k, m) in Pairs(ix)
  {}

  lemma NothingNew(pairs: set<(Key, Module)>, m: Module, entries: seq<Entry>)
    ensures ResourcesOf(NewEntries(pairs, m, entries[..0])) == []
  {}

  lemma AddAllEnd(ix: Index, m: Module, entries: seq<Entry>)
    ensures AddAll(ix, m, entries[|entries|..]) == Outcome(ix, [], 0, true)
  {}

  /** The additions from entry `i` on, one entry at a time. */
  lemma AddAllNext(ix: Index, m: Module, entries: seq<Entry>, i: nat)
    requires i < |entries|
    ensures var e, now := entries[i], AddAll(ix, m, entries[i..]);
      if Subscribes(ix, e.key, m) then
        var rest := AddAll(ix, m, entries[i + 1..]);
        now == rest.(handled := rest.handled + 1)
      else if !e.accepted then now == Outcome(ix, [e.key.res], 0, false)
      else
        var rest := AddAll(AddOne(ix, e.key, m), m, entries[i + 1..]);
        now == rest.(started := [e.key.res] + rest.started, handled := rest.handled + 1)
  {
    assert entries[i..][1..] == entries[i + 1..];
  }

  lemma PairsOfNone(entries: seq<Entry>, m: Module)
    ensures PairsOf(entries[..0], m) == {}
  {}

  lemma PairsOfCons(entries: seq<Entry>, n: nat, m: Module)
    requires 0 < n <= |entries|
    ensures PairsOf(entries[..n], m) == {(entries[0].key, m)} + PairsOf(entries[1..][..n - 1], m)
  {
    assert entries[..n] == [entries[0]] + entries[1..][..n - 1];
  }

  lemma ReconcileIsValid(ix: Index, m: Module, entries: seq<Entry>)
    requires Valid(ix)
    ensures Valid(Reconcile(ix, m, entries).index)
  {
    KeptLists(ix, m, Wanted(entries));
    AddAllPairs(Keep(ix, m, Wanted(entries)), m, entries);
  }

  /** The pairs of other modules, and the module's own ones that it still wants. */
  ghost function Others(pairs: set<(Key, Module)>, m: Module): set<(Key, Module)> { set p | p in pairs && p.1 != m }

  ghost function Own(pairs: set<(Key, Module)>, m: Module, wanted: set<Key>): set<(Key, Module)> {
    set p | p in pairs && p.1 == m && p.0 in wanted
  }

  lemma KeptIsOthersAndOwn(ix: Index, m: Module, wanted: set<Key>)
    requires Valid(ix)
    ensures Pairs(Keep(ix, m, wanted)) == Others(Pairs(ix), m) + Own(Pairs(ix), m, wanted)
  {
    KeptPairs(ix, m, wanted);
    hide Pairs, Keep;
  }

  lemma OwnAreListed(pairs: set<(Key, Module)>, m: Module, entries: seq<Entry>)
    ensures Own(pairs, m, Wanted(entries)) <= PairsOf(entries, m)
  {
    forall p | p in Own(pairs, m, Wanted(entries)) ensures p in PairsOf(entries, m) {
      var e :| e in entries && e.key == p.0;
      assert p == (e.key, m);
    }
  }

  /** A reconcile replaces exactly the module's own pairs. On success they are the pairs of the watch
      list; when a watch is refused, the earlier entries have been added and the wanted old ones stay. */
  lemma ReconcileReplacesOwnPairs(ix: Index, m: Module, entries: seq<Entry>)
    requires Valid(ix)
    ensures var r, others := Reconcile(ix, m, entries), Others(Pairs(ix), m);
      && r.handled <= |entries| && (r.ok <==> r.handled == |entries|)
      && (r.ok ==> Pairs(r.index) == others + PairsOf(entries, m))
      && (!r.ok ==> Pairs(r.index) == others + Own(Pairs(ix), m, Wanted(entries)) + PairsOf(entries[..r.handled], m))
  {
    var wanted := Wanted(entries);
    var kept := Keep(ix, m, wanted);
    var r := Reconcile(ix, m, entries);
    assert r == AddAll(kept, m, entries);
    hide *;
    KeptLists(ix, m, wanted);
    KeptIsOthersAndOwn(ix, m, wanted);
    AddAllPairs(kept, m, entries);
    OwnAreListed(Pairs(ix), m, entries);
    if r.ok { assert entries[..r.handled] == entries; }
  }

  /** Surviving keys keep their value; new keys start with none. */
  lemma ReconcileKeepsValues(ix: Index, m: Module, entries: seq<Entry>)
    requires Valid(ix)
    ensures var next := Reconcile(ix, m, entries).index;
      forall k :: k in next.data ==> next.data[k].value == if k in ix.data then ix.data[k].value else []
  {
    var kept := Keep(ix, m, Wanted(entries));
    AddAllValues(kept, m, entries);
    forall k | k in Reconcile(ix, m, entries).index.data && k in ix.data ensures k in kept.data {
      SurvivorWasKept(ix, m, entries, k);
    }
  }

  /** A key that lost its last subscriber was not wanted, so the additions do not bring it back. */
  lemma SurvivorWasKept(ix: Index, m: Module, entries: seq<Entry>, k: Key)
    requires Valid(ix) && k in ix.data && k in Reconcile(ix, m, entries).index.data
    ensures k in Keep(ix, m, Wanted(entries)).data
  {
    var kept := Keep(ix, m, Wanted(entries));
    KeptLists(ix, m, Wanted(entries));
    AddAllPairs(kept, m, entries);
    var r := Reconcile(ix, m, entries);
    var n := r.index.data[k].subs[0];
    assert (k, n) in Pairs(r.index);
    if (k, n) in PairsOf(entries[..r.handled], m) {
      var e :| e in entries[..r.handled] && e.key == k;
      assert e in entries && Rest(ix.data[k], k, m, Wanted(entries)) == ix.data[k].subs;
    }
  }

  lemma {:induction false} AddAllSettled(ix: Index, m: Module, entries: seq<Entry>)
    requires forall e :: e in entries ==> Subscribes(ix, e.key, m)
    ensures AddAll(ix, m, entries) == Outcome(ix, [], |entries|, true)
  {
    if entries != [] {
      assert forall e :: e in entries[1..] ==> e in entries;
      AddAllSettled(ix, m, entries[1..]);
    }
  }

  /** Repeating a successful reconcile changes nothing and asks for no watch, whatever the controller
      would have answered. */
  lemma ReconcileIdempotent(ix: Index, m: Module, entries: seq<Entry>, again: seq<Entry>)
    requires Valid(ix) && Reconcile(ix, m, entries).ok
    requires Wanted(again) == Wanted(entries)
    ensures var settled := Reconcile(ix, m, entries).index;
      Reconcile(settled, m, again) == Outcome(settled, [], |again|, true)
  {
    var settled := Reconcile(ix, m, entries).index;
    ReconcileIsValid(ix, m, entries);
    ReconcileReplacesOwnPairs(ix, m, entries);
    forall k | k in settled.data && m in settled.data[k].subs ensures k in Wanted(entries) {
      assert (k, m) in Pairs(settled);
      assert (k, m) in PairsOf(entries, m);
    }
    KeepSettled(settled, m, Wanted(entries));
    forall e | e in again ensures Subscribes(settled, e.key, m) {
      assert e.key in Wanted(again);
      var f :| f in entries && f.key == e.key;
      assert (f.key, m) in PairsOf(entries, m) && (e.key, m) in Pairs(settled);
    }
    AddAllSettled(settled, m, again);
  }

  lemma KeepSettled(ix: Index, m: Module, wanted: set<Key>)
    requires Valid(ix)
    requires forall k :: k in ix.data && m in ix.data[k].subs ==> k in wanted
    ensures Keep(ix, m, wanted) == ix
  {
    forall k | k in ix.data ensures Rest(ix.data[k], k, m, wanted) == ix.data[k].subs {
      if k !in wanted { RemoveFirstAbsent(ix.data[k].subs, m); }
    }
    var kept := Keep(ix, m, wanted);
    assert kept.data == ix.data;
    forall r | r in ix.paths ensures Known(r, ix.paths[r], kept.data.Keys) == ix.paths[r] {
      KnownAll(r, ix.paths[r], kept.data.Keys);
    }
    assert kept.paths == ix.paths;
  }

  // ---------------------------------------------------------------- delivery

  /** What the event source hands to the mapper. */
  datatype Delivery = Typed | Unstructured(obj: Object)

  function KindWide(o: Object): Resource { Resource(o.apiVersion, o.kind, "", "") }

  function Named(o: Object): Resource { Resource(o.apiVersion, o.kind, o.name, o.namespace) }

  /** The entry an object is checked against: the kind-wide one shadows the named one. */
  function Route(ix: Index, o: Object): Resource {
    if KindWide(o) in ix.paths then KindWide(o) else Named(o)
  }

  /** Routing by fields: apiVersion and kind are the object's; name and namespace are empty if there is an entry for the
      whole kind, and the object's own otherwise. */
  lemma RouteByFields(ix: Index, o: Object)
    ensures var r := Route(ix, o);
      && r.apiVersion == o.apiVersion && r.kind == o.kind
      && (Resource(o.apiVersion, o.kind, "", "") in ix.paths ==> r.name == "" && r.namespace == "")
      && (Resource(o.apiVersion, o.kind, "", "") !in ix.paths ==> r.name == o.name && r.namespace == o.namespace)
  {}

  /** The stored value after a comparison with `vals`: `areEqual` sorts both lists, but only when their
      lengths agree, and an unequal comparison stores the new list. */
  function Seen(known: seq<string>, vals: seq<string>): seq<string> {
    if |known| == |vals| then Sort(vals) else vals
  }

  function Changed(pd: PathData, o: Object, path: string): bool {
    multiset(pd.value) != multiset(ValueAt(o, path))
  }

  function Observed(data: map<Key, PathData>, r: Resource, ps: seq<string>, o: Object): map<Key, PathData> {
    map k | k in data :: if k.res == r && k.path in ps
                         then data[k].(value := Seen(data[k].value, ValueAt(o, k.path))) else data[k]
  }

  function Woken(data: map<Key, PathData>, r: Resource, ps: seq<string>, o: Object): seq<Module> {
    if ps == [] then []
    else
      var last := ps[|ps| - 1];
      var k := Key(r, last);
      Woken(data, r, ps[..|ps| - 1], o) + if k in data && Changed(data[k], o, last) then data[k].subs else []
  }

  function Deliver(ix: Index, o: Object): (Index, seq<Module>) {
    var r := Route(ix, o);
    if r in ix.paths then (ix.(data := Observed(ix.data, r, ix.paths[r], o)), Woken(ix.data, r, ix.paths[r], o))
    else (ix, [])
  }

  lemma {:induction false} WokenMembers(data: map<Key, PathData>, r: Resource, ps: seq<string>, o: Object, m: Module)
    ensures m in Woken(data, r, ps, o) <==>
            exists p :: p in ps && Key(r, p) in data && Changed(data[Key(r, p)], o, p) && m in data[Key(r, p)].subs
  {
    if ps != [] {
      var init, last := ps[..|ps| - 1], ps[|ps| - 1];
      assert ps == init + [last];
      WokenMembers(data, r, init, o, m);
      assert forall p :: p in ps <==> p in init || p == last;
    }
  }

  /** `m` subscribes to a key of the entry `o` is routed to whose value differs in `o`, as a multiset. */
  ghost predicate Affected(ix: Index, o: Object, m: Module) {
    exists k :: k in ix.data && k.res == Route(ix, o) && Changed(ix.data[k], o, k.path) && m in ix.data[k].subs
  }

  /** An event wakes exactly the modules subscribed to a key of the routed entry whose value changed as
      a multiset, and records the object's values. */
  lemma DeliverWakesChanged(ix: Index, o: Object)
    requires Valid(ix)
    ensures var (next, woken) := Deliver(ix, o);
      && Valid(next) && next.paths == ix.paths && Pairs(next) == Pairs(ix)
      && next.data.Keys == ix.data.Keys
      && (forall k :: k in ix.data ==> (
            multiset(next.data[k].value) ==
            if k.res == Route(ix, o) then multiset(ValueAt(o, k.path)) else multiset(ix.data[k].value)))
      && (forall m :: m in woken <==> Affected(ix, o, m))
  {
    var (next, woken) := Deliver(ix, o);
    var r := Route(ix, o);
    forall k | k in ix.data ensures k in next.data && next.data[k].subs == ix.data[k].subs {}
    forall p: (Key, Module) ensures p in Pairs(next) <==> p in Pairs(ix) { assert p == (p.0, p.1); }
    forall m ensures m in woken <==> Affected(ix, o, m) { WokenIffAffected(ix, o, m); }
  }

  lemma WokenIffAffected(ix: Index, o: Object, m: Module)
    requires Valid(ix)
    ensures m in Deliver(ix, o).1 <==> Affected(ix, o, m)
  {
    var r := Route(ix, o);
    if r in ix.paths {
      WokenMembers(ix.data, r, ix.paths[r], o, m);
      if m in Deliver(ix, o).1 {
        var p :| p in ix.paths[r] && Key(r, p) in ix.data && Changed(ix.data[Key(r, p)], o, p) && m in ix.data[Key(r, p)].subs;
        assert Key(r, p).path == p;
      }
      if k :| k in ix.data && k.res == r && Changed(ix.data[k], o, k.path) && m in ix.data[k].subs {
        assert k == Key(r, k.path) && k.path in ix.paths[r];
      }
    }
  }

  /** The paths of `ps` under `r` at which `m` subscribes to a changed value. */
  ghost function ChangedPaths(data: map<Key, PathData>, r: Resource, ps: seq<string>, o: Object, m: Module): set<string> {
    set p | p in ps && Key(r, p) in data && Changed(data[Key(r, p)], o, p) && m in data[Key(r, p)].subs
  }

  lemma ChangedPathsNext(data: map<Key, PathData>, r: Resource, ps: seq<string>, o: Object, m: Module)
    requires ps != [] && Distinct(ps)
    ensures var last := ps[|ps| - 1];
      |ChangedPaths(data, r, ps, o, m)| == |ChangedPaths(data, r, ps[..|ps| - 1], o, m)| +
        if Key(r, last) in data && Changed(data[Key(r, last)], o, last) && m in data[Key(r, last)].subs then 1 else 0
  {
    hide Changed;
    var init, last := ps[..|ps| - 1], ps[|ps| - 1];
    assert ps == init + [last] && last !in init;
    var before, now := ChangedPaths(data, r, init, o, m), ChangedPaths(data, r, ps, o, m);
    if Key(r, last) in data && Changed(data[Key(r, last)], o, last) && m in data[Key(r, last)].subs {
      assert now == before + {last};
    } else {
      assert now == before;
    }
  }

  lemma {:induction false} WokenCounts(data: map<Key, PathData>, r: Resource, ps: seq<string>, o: Object, m: Module)
    requires Distinct(ps) && forall k :: k in data ==> Distinct(data[k].subs)
    ensures multiset(Woken(data, r, ps, o))[m] == |ChangedPaths(data, r, ps, o, m)|
    decreases |ps|
  {
    if ps != [] {
      var k := Key(r, ps[|ps| - 1]);
      WokenCounts(data, r, ps[..|ps| - 1], o, m);
      ChangedPathsNext(data, r, ps, o, m);
      if k in data { DistinctMultiset(data[k].subs); }
      hide Changed, Distinct, ChangedPaths;
    }
  }

  /** A module is woken once for each of its paths of the routed entry whose value changed. */
  lemma WokenOncePerPath(ix: Index, o: Object, m: Module)
    requires Valid(ix)
    ensures var r := Route(ix, o);
      multiset(Deliver(ix, o).1)[m] == |ChangedPaths(ix.data, r, if r in ix.paths then ix.paths[r] else [], o, m)|
  {
    var r := Route(ix, o);
    WokenCounts(ix.data, r, if r in ix.paths then ix.paths[r] else [], o, m);
    hide Changed, Route;
  }

  lemma ObserveNothing(data: map<Key, PathData>, r: Resource, o: Object)
    ensures Observed(data, r, [], o) == data
  {
    assert Observed(data, r, [], o).Keys == data.Keys;
  }

  /** One more path of the routed entry. */
  lemma ObserveNext(data: map<Key, PathData>, r: Resource, ps: seq<string>, i: nat, o: Object)
    requires i < |ps| && Distinct(ps)
    ensures var k := Key(r, ps[i]);
      var now := Observed(data, r, ps[..i], o);
      && (k in now <==> k in data)
      && (k in data ==> now[k] == data[k])
      && Observed(data, r, ps[..i + 1], o) ==
           (if k in data then now[k := data[k].(value := Seen(data[k].value, ValueAt(o, ps[i])))] else now)
      && Woken(data, r, ps[..i + 1], o) ==
           Woken(data, r, ps[..i], o) + if k in data && Changed(data[k], o, ps[i]) then data[k].subs else []
  {
    assert ps[..i + 1] == ps[..i] + [ps[i]];
    assert ps[i] !in ps[..i];
    assert ps[..i + 1][..|ps[..i + 1]| - 1] == ps[..i];
  }

  /** Redelivering an object wakes nobody. */
  lemma RedeliveryIsSilent(ix: Index, o: Object)
    requires Valid(ix)
    ensures Deliver(Deliver(ix, o).0, o).1 == []
  {
    var (next, _) := Deliver(ix, o);
    DeliverWakesChanged(ix, o);
    DeliverWakesChanged(next, o);
    var woken := Deliver(next, o).1;
    assert Route(next, o) == Route(ix, o);
    assert forall m :: m !in woken;
    EmptyOrMember(woken);
  }

  // ---------------------------------------------------------------- the class

  class Watcher {
    var paths: map<Resource, seq<string>>
    var data: map<Key, PathData>

    ghost function View(): Index reads this { Index(paths, data) }

    constructor ()
      ensures View() == Empty && Valid(View())
    {
      paths, data := map[], map[];
    }

    /** Statement `delete(w.watchedResToData, key)`. */
    method DropData(k: Key)
      requires Listed(View())
      modifies this`data
      ensures data == old(data) - {k} && Listed(View())
    {
      data := data - {k};
    }

    /** The path clean-up behind it; between its two statements every data key is listed as well. */
    method DropPath(k: Key)
      requires Listed(View()) && k !in data
      modifies this`paths
      ensures paths == Unlisted(old(paths), k) && Listed(View())
    {
      if k.res in paths {
        var left := DeleteFirst(paths[k.res], k.path);
        forall p | p != k.path ensures p in left <==> p in paths[k.res] {
          RemoveFirstMembers(paths[k.res], k.path, p);
        }
        paths := paths[k.res := left];
        assert Listed(View());
        if |paths[k.res]| == 0 {
          paths := paths - {k.res};
        }
      }
    }

    /** First half of `addToWatched`. */
    method AddPath(k: Key)
      requires Listed(View())
      modifies this`paths
      ensures View() == WithPath(old(View()), k) && Listed(View())
      ensures k.res in paths && k.path in paths[k.res]
    {
      var ps := [];
      var addPath := true;
      if k.res in paths {
        ps := paths[k.res];
        for i := 0 to |ps|
          invariant addPath && k.path !in ps[..i]
        {
          if ps[i] == k.path {
            addPath := false;
            break;
          }
        }
      }
      if addPath { ps := ps + [k.path]; }
      paths := paths[k.res := ps];
    }

    /** Second half of `addToWatched`. */
    method AddData(k: Key, m: Module)
      requires Listed(View()) && k.res in paths && k.path in paths[k.res]
      modifies this`data
      ensures View() == WithSubscriber(old(View()), k, m) && Listed(View())
    {
      var pd := PathData([], []);
      if k in data { pd := data[k]; }
      data := data[k := PathData(pd.value, pd.subs + [m])];
    }

    method IsAlreadyBeingWatched(k: Key, m: Module) returns (b: bool)
      ensures b <==> (k, m) in Pairs(View())
    {
      b := false;
      if k in data {
        for i := 0 to |data[k].subs|
          invariant m !in data[k].subs[..i]
        {
          if data[k].subs[i] == m { return true; }
        }
      }
    }

    /** `tryAddResourceToWatch`: a refused watch leaves the index as it was. */
    method TryAdd(e: Entry, m: Module) returns (ok: bool, asked: bool)
      requires Listed(View())
      modifies this
      ensures asked <==> !Subscribes(old(View()), e.key, m)
      ensures ok <==> !asked || e.accepted
      ensures View() == if asked && ok then AddOne(old(View()), e.key, m) else old(View())
      ensures Listed(View())
    {
      var watched := IsAlreadyBeingWatched(e.key, m);
      if watched { return true, false; }
      asked, ok := true, e.accepted;
      if ok {
        AddPath(e.key);
        AddData(e.key, m);
      }
    }

    /** One visit of the removal loop; every data key is listed behind each of its statements. */
    method RemoveFrom(k: Key, m: Module, wanted: set<Key>)
      requires Listed(View()) && k in data && data[k].subs != []
      modifies this
      ensures View() == Visit(old(View()), k, m, wanted)
      ensures Listed(View())
    {
      var pd := data[k];
      if k !in wanted {
        var left := DeleteFirst(pd.subs, m);
        pd := pd.(subs := left);
        data := data[k := pd];
        assert Listed(View());
      }
      if |pd.subs| == 0 {
        DropData(k);
        DropPath(k);
        assert data == old(data) - {k};
      }
    }

    /** The removal loop, over the keys in any order. */
    method RemoveUnwanted(m: Module, wanted: set<Key>)
      requires Valid(View())
      modifies this
      ensures View() == Keep(old(View()), m, wanted)
      ensures Listed(View())
    {
      ghost var ix := View();
      var todo := data.Keys;
      PartialStart(ix, m, wanted);
      while todo != {}
        invariant todo <= ix.data.Keys
        invariant View() == Partial(ix, m, wanted, todo)
        invariant Listed(View())
      {
        var k :| k in todo;
        PartialVisit(ix, m, wanted, todo, k);
        RemoveFrom(k, m, wanted);
        todo := todo - {k};
      }
      PartialEnd(ix, m, wanted);
    }

    /** The addition loop; it stops at the first refused watch. */
    method AddWanted(m: Module, entries: seq<Entry>) returns (ok: bool, started: seq<Resource>)
      requires Listed(View())
      modifies this
      ensures View() == AddAll(old(View()), m, entries).index
      ensures started == AddAll(old(View()), m, entries).started && ok == AddAll(old(View()), m, entries).ok
    {
      hide AddAll, AddOne, Listed, Subscribes;
      ghost var whole := AddAll(View(), m, entries);
      ghost var rest := whole;
      assert entries[0..] == entries;
      started := [];
      for i := 0 to |entries|
        invariant Listed(View())
        invariant rest == AddAll(View(), m, entries[i..])
        invariant whole.index == rest.index && whole.started == started + rest.started && whole.ok == rest.ok
      {
        AddAllNext(View(), m, entries, i);
        var asked;
        ok, asked := TryAdd(entries[i], m);
        if asked { started := started + [entries[i].key.res]; }
        if !ok { return; }
        rest := AddAll(View(), m, entries[i + 1..]);
      }
      AddAllEnd(View(), m, entries);
      ok := true;
    }

    method ReconcileWatches(m: Module, entries: seq<Entry>) returns (ok: bool, started: seq<Resource>)
      requires Valid(View())
      modifies this
      ensures Valid(View())
      ensures View() == Reconcile(old(View()), m, entries).index
      ensures started == Reconcile(old(View()), m, entries).started && ok == Reconcile(old(View()), m, entries).ok
    {
      ReconcileIsValid(View(), m, entries);
      RemoveUnwanted(m, Wanted(entries));
      ok, started := AddWanted(m, entries);
    }

    static method SameStrings(t1: seq<string>, t2: seq<string>) returns (same: bool)
      requires |t1| == |t2|
      ensures same <==> t1 == t2
    {
      for i := 0 to |t1|
        invariant forall j :: 0 <= j < i ==> t1[j] == t2[j]
      {
        if t1[i] != t2[i] { return false; }
      }
      same := true;
    }

    /** `areEqual`: compares two value lists as multisets. The sorted lists it leaves behind are returned. */
    static method AreEqual(s1: seq<string>, s2: seq<string>) returns (equal: bool, t1: seq<string>, t2: seq<string>)
      ensures equal <==> multiset(s1) == multiset(s2)
      ensures t1 == (if |s1| == |s2| then Sort(s1) else s1) && t2 == Seen(s1, s2)
    {
      t1, t2 := s1, s2;
      if |s1| != |s2| {
        assert |multiset(s1)| == |s1| && |multiset(s2)| == |s2|;
        return false, s1, s2;
      }
      t1, t2 := Sort(s1), Sort(s2);
      SortCanonical(s1, s2);
      equal := SameStrings(t1, t2);
    }

    /** The mapper's work for one path of the routed entry. */
    method CheckPath(k: Key, o: Object) returns (woken: seq<Module>)
      modifies this`data
      ensures k in old(data) ==> data == old(data)[k := old(data)[k].(value := Seen(old(data)[k].value, ValueAt(o, k.path)))]
      ensures k !in old(data) ==> data == old(data)
      ensures woken == if k in old(data) && Changed(old(data)[k], o, k.path) then old(data)[k].subs else []
    {
      woken := [];
      if k in data {
        var pd := data[k];
        var equal, t1, t2 := AreEqual(pd.value, ValueAt(o, k.path));
        SortCanonical(pd.value, ValueAt(o, k.path));
        if !equal {
          woken := pd.subs;
          data := data[k := pd.(value := t2)];
        } else {
          assert |multiset(pd.value)| == |pd.value| && |multiset(ValueAt(o, k.path))| == |ValueAt(o, k.path)|;
          data := data[k := pd.(value := t1)];
        }
      }
    }

    method CheckPaths(r: Resource, o: Object) returns (woken: seq<Module>)
      requires r in paths && Distinct(paths[r])
      modifies this`data
      ensures data == Observed(old(data), r, paths[r], o)
      ensures woken == Woken(old(data), r, paths[r], o)
    {
      ghost var before := data;
      woken := [];
      var ps := paths[r];
      assert ps[..0] == [] && ps[..|ps|] == ps;
      ObserveNothing(data, r, o);
      for i := 0 to |ps|
        invariant data == Observed(before, r, ps[..i], o)
        invariant woken == Woken(before, r, ps[..i], o)
      {
        ObserveNext(before, r, ps, i, o);
        var more := CheckPath(Key(r, ps[i]), o);
        woken := woken + more;
      }
    }

    /** An object that does not come as unstructured data wakes nobody and leaves no value behind. */
    method Mapper(d: Delivery) returns (woken: seq<Module>)
      requires Valid(View())
      modifies this`data
      ensures Valid(View())
      ensures (View(), woken) == if d.Typed? then (old(View()), []) else Deliver(old(View()), d.obj)
    {
      woken := [];
      if d.Typed? { return; }
      var o := d.obj;
      DeliverWakesChanged(View(), o);
      var r := KindWide(o);
      if r !in paths { r := Named(o); }
      if r in paths { woken := CheckPaths(r, o); }
    }
  }
}
