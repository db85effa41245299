/** Whole runs of the watcher: the two-map index refines a single relation with one value per key, and
    the stored values are those of the last object routed to each key. */
module WatcherRuns {
  import opened Watcher

  datatype Event =
    | Reconciled(m: Module, entries: seq<Entry>)
    | Delivered(o: Object)

  function Step(ix: Index, e: Event): Index {
    match e
    case Reconciled(m, entries) => Reconcile(ix, m, entries).index
    case Delivered(o) => Deliver(ix, o).0
  }

  function Run(events: seq<Event>): Index {
    if events == [] then Empty else Step(Run(events[..|events| - 1]), events[|events| - 1])
  }

  /** In every reachable state, refused watches included, the two maps agree. */
  lemma {:induction false} ReachableIsValid(events: seq<Event>)
    ensures Valid(Run(events))
  {
    if events != [] {
      var before, e := Run(events[..|events| - 1]), events[|events| - 1];
      ReachableIsValid(events[..|events| - 1]);
      match e {
        case Reconciled(m, entries) => ReconcileIsValid(before, m, entries);
        case Delivered(o) => DeliverWakesChanged(before, o);
      }
    }
  }

  // ---------------------------------------------------------------- the simple machine

  /** One relation, and for each subscribed key the multiset last seen there. */
  datatype Registry = Registry(pairs: set<(Key, Module)>, values: map<Key, multiset<string>>)

  ghost function Abstract(ix: Index): Registry {
    Registry(Pairs(ix), Values(ix.data))
  }

  ghost function Values(data: map<Key, PathData>): map<Key, multiset<string>> {
    map k | k in data :: multiset(data[k].value)
  }

  ghost function KeysOf(pairs: set<(Key, Module)>): set<Key> {
    set p | p in pairs :: p.0
  }

  /** How many entries are handled before a refused watch: an entry is refused only if it is new. */
  ghost function Handled(pairs: set<(Key, Module)>, m: Module, entries: seq<Entry>): nat
    decreases |entries|
  {
    if entries == [] then 0
    else
      var p := (entries[0].key, m);
      if p in pairs || entries[0].accepted then 1 + Handled(pairs + {p}, m, entries[1..]) else 0
  }

  lemma {:induction false} HandledBound(pairs: set<(Key, Module)>, m: Module, entries: seq<Entry>)
    ensures Handled(pairs, m, entries) <= |entries|
    decreases |entries|
  {
    if entries != [] { HandledBound(pairs + {(entries[0].key, m)}, m, entries[1..]); }
  }

  ghost function SpecReconcile(reg: Registry, m: Module, entries: seq<Entry>): Registry {
    var kept := set p | p in reg.pairs && (p.1 != m || p.0 in Wanted(entries));
    HandledBound(kept, m, entries);
    var pairs := kept + PairsOf(entries[..Handled(kept, m, entries)], m);
    Registry(pairs, Carry(reg.values, KeysOf(pairs)))
  }

  ghost function Carry(values: map<Key, multiset<string>>, keys: set<Key>): map<Key, multiset<string>> {
    map k | k in keys :: if k in values then values[k] else multiset{}
  }

  /** Some key is subscribed to for the whole kind of the object. */
  ghost predicate KindIsWatched(keys: set<Key>, o: Object) {
    exists k :: k in keys && k.res.apiVersion == o.apiVersion && k.res.kind == o.kind && k.res.name == "" && k.res.namespace == ""
  }

  /** The object is routed to the keys of its whole kind if there is one, and else to those of its own name. */
  ghost predicate RoutedTo(keys: set<Key>, o: Object, r: Resource) {
    && r.apiVersion == o.apiVersion && r.kind == o.kind
    && (if KindIsWatched(keys, o) then r.name == "" && r.namespace == "" else r.name == o.name && r.namespace == o.namespace)
  }

  /** What the object has at the path, if anything. */
  ghost function Carried(o: Object, path: string): multiset<string> {
    if path in o.values then multiset(o.values[path]) else multiset{}
  }

  ghost function Overwrite(values: map<Key, multiset<string>>, keys: set<Key>, o: Object): map<Key, multiset<string>> {
    map k | k in values :: if RoutedTo(keys, o, k.res) then Carried(o, k.path) else values[k]
  }

  ghost function SpecDeliver(reg: Registry, o: Object): Registry {
    Registry(reg.pairs, Overwrite(reg.values, reg.values.Keys, o))
  }

  ghost predicate SpecWakes(reg: Registry, o: Object, m: Module) {
    exists k :: (k, m) in reg.pairs && k in reg.values && RoutedTo(reg.values.Keys, o, k.res)
                && reg.values[k] != Carried(o, k.path)
  }

  ghost function SpecStep(reg: Registry, e: Event): Registry {
    match e
    case Reconciled(m, entries) => SpecReconcile(reg, m, entries)
    case Delivered(o) => SpecDeliver(reg, o)
  }

  ghost function SpecRun(events: seq<Event>): Registry {
    if events == [] then Registry({}, map[]) else SpecStep(SpecRun(events[..|events| - 1]), events[|events| - 1])
  }

  // ---------------------------------------------------------------- refinement

  lemma {:induction false} HandledAgrees(ix: Index, m: Module, entries: seq<Entry>)
    requires Valid(ix)
    ensures AddAll(ix, m, entries).handled == Handled(Pairs(ix), m, entries)
    decreases |entries|
  {
    if entries != [] {
      var k := entries[0].key;
      assert Subscribes(ix, k, m) <==> (k, m) in Pairs(ix);
      if Subscribes(ix, k, m) {
        assert Pairs(ix) + {(k, m)} == Pairs(ix);
        HandledAgrees(ix, m, entries[1..]);
      } else if entries[0].accepted {
        AddOneValid(ix, k, m);
        AddOnePairs(ix, k, m);
        HandledAgrees(AddOne(ix, k, m), m, entries[1..]);
      }
    }
  }

  lemma KeysArePairs(ix: Index)
    requires Valid(ix)
    ensures KeysOf(Pairs(ix)) == ix.data.Keys
  {
    forall k | k in ix.data ensures k in KeysOf(Pairs(ix)) {
      assert (k, ix.data[k].subs[0]) in Pairs(ix);
    }
  }

  lemma ReconcilePairsRefine(ix: Index, m: Module, entries: seq<Entry>)
    requires Valid(ix)
    ensures Pairs(Reconcile(ix, m, entries).index) == SpecReconcile(Abstract(ix), m, entries).pairs
  {
    var wanted := Wanted(entries);
    var kept := Keep(ix, m, wanted);
    KeptLists(ix, m, wanted);
    KeptPairs(ix, m, wanted);
    HandledAgrees(kept, m, entries);
    AddAllPairs(kept, m, entries);
  }

  lemma ReconcileRefines(ix: Index, m: Module, entries: seq<Entry>)
    requires Valid(ix)
    ensures Abstract(Reconcile(ix, m, entries).index) == SpecReconcile(Abstract(ix), m, entries)
  {
    var next := Reconcile(ix, m, entries).index;
    ReconcilePairsRefine(ix, m, entries);
    ReconcileIsValid(ix, m, entries);
    ReconcileKeepsValues(ix, m, entries);
    KeysArePairs(next);
    CarryValues(ix.data, next.data);
  }

  lemma CarryValues(data: map<Key, PathData>, next: map<Key, PathData>)
    requires forall k :: k in next ==> next[k].value == if k in data then data[k].value else []
    ensures Values(next) == Carry(Values(data), next.Keys)
  {
    assert Values(next).Keys == Carry(Values(data), next.Keys).Keys;
  }

  lemma RouteRefines(ix: Index, o: Object, r: Resource)
    requires Valid(ix)
    ensures RoutedTo(ix.data.Keys, o, r) <==> r == Route(ix, o)
  {
    var wide := Resource(o.apiVersion, o.kind, "", "");
    RouteByFields(ix, o);
    hide Route;
    if wide in ix.paths { assert Key(wide, ix.paths[wide][0]) in ix.data; }
    if k :| k in ix.data && k.res.apiVersion == o.apiVersion && k.res.kind == o.kind && k.res.name == "" && k.res.namespace == "" {
      assert k.res == wide;
    }
  }

  lemma DeliverRefines(ix: Index, o: Object)
    requires Valid(ix)
    ensures Abstract(Deliver(ix, o).0) == SpecDeliver(Abstract(ix), o)
  {
    DeliverWakesChanged(ix, o);
    var next := Deliver(ix, o).0;
    forall k | k in ix.data
      ensures multiset(next.data[k].value) == if RoutedTo(ix.data.Keys, o, k.res) then Carried(o, k.path) else multiset(ix.data[k].value)
    {
      RouteRefines(ix, o, k.res);
    }
    hide RoutedTo, Carried, Deliver;
    OverwriteValues(ix.data, next.data, o);
    assert Values(ix.data).Keys == ix.data.Keys;
  }

  lemma OverwriteValues(data: map<Key, PathData>, next: map<Key, PathData>, o: Object)
    requires next.Keys == data.Keys
    requires forall k :: k in data ==>
      multiset(next[k].value) == (if RoutedTo(data.Keys, o, k.res) then Carried(o, k.path) else multiset(data[k].value))
    ensures Values(next) == Overwrite(Values(data), data.Keys, o)
  {
    var left, right := Values(next), Overwrite(Values(data), data.Keys, o);
    assert left.Keys == data.Keys && right.Keys == data.Keys;
    hide *;
    forall k | k in left ensures left[k] == right[k] { OverwriteAt(data, next, o, k); }
  }

  lemma OverwriteAt(data: map<Key, PathData>, next: map<Key, PathData>, o: Object, k: Key)
    requires next.Keys == data.Keys && k in data
    requires multiset(next[k].value) == (if RoutedTo(data.Keys, o, k.res) then Carried(o, k.path) else multiset(data[k].value))
    ensures Values(next)[k] == Overwrite(Values(data), data.Keys, o)[k]
  {
    hide RoutedTo, Carried;
  }

  lemma AffectedRefines(ix: Index, o: Object, m: Module)
    requires Valid(ix)
    ensures Affected(ix, o, m) <==> SpecWakes(Abstract(ix), o, m)
  {
    assert Abstract(ix).values.Keys == ix.data.Keys;
    forall r ensures RoutedTo(ix.data.Keys, o, r) <==> r == Route(ix, o) { RouteRefines(ix, o, r); }
    hide Valid, RoutedTo, Route;
    if k :| k in ix.data && k.res == Route(ix, o) && Changed(ix.data[k], o, k.path) && m in ix.data[k].subs {
      assert (k, m) in Abstract(ix).pairs && RoutedTo(ix.data.Keys, o, k.res);
    }
    if k :| (k, m) in Pairs(ix) && k in Abstract(ix).values && RoutedTo(ix.data.Keys, o, k.res)
            && Abstract(ix).values[k] != Carried(o, k.path) {
      assert Changed(ix.data[k], o, k.path);
    }
  }

  /** The index is a faithful implementation of the simple machine over every run. */
  lemma {:induction false} RunRefines(events: seq<Event>)
    ensures Abstract(Run(events)) == SpecRun(events)
  {
    if events == [] {
      assert Pairs(Empty) == {};
      assert Abstract(Empty).values == map[];
    } else {
      var init, e := events[..|events| - 1], events[|events| - 1];
      RunRefines(init);
      ReachableIsValid(init);
      match e {
        case Reconciled(m, entries) => ReconcileRefines(Run(init), m, entries);
        case Delivered(o) => DeliverRefines(Run(init), o);
      }
    }
  }

  /** After any run, an event wakes exactly the modules the simple machine wakes. */
  lemma WakesRefine(events: seq<Event>, o: Object, m: Module)
    ensures m in Deliver(Run(events), o).1 <==> SpecWakes(SpecRun(events), o, m)
  {
    ReachableIsValid(events);
    RunRefines(events);
    WokenIffAffected(Run(events), o, m);
    AffectedRefines(Run(events), o, m);
  }

  // ---------------------------------------------------------------- what the stored value is

  /** The value at `k` in the last object routed to it since `k` was last registered. */
  ghost function LastRouted(events: seq<Event>, k: Key): multiset<string> {
    if events == [] then multiset{}
    else
      var init, e := events[..|events| - 1], events[|events| - 1];
      if k !in Run(init).data then multiset{}
      else if e.Delivered? && RoutedTo(Run(init).data.Keys, e.o, k.res) then Carried(e.o, k.path)
      else LastRouted(init, k)
  }

  lemma {:induction false} StoredValueIsLastRouted(events: seq<Event>, k: Key)
    requires k in Run(events).data
    ensures multiset(Run(events).data[k].value) == LastRouted(events, k)
  {
    var init, e := events[..|events| - 1], events[|events| - 1];
    ReachableIsValid(init);
    if k in Run(init).data { StoredValueIsLastRouted(init, k); }
    match e {
      case Reconciled(m, entries) => ReconcileKeepsValues(Run(init), m, entries);
      case Delivered(o) =>
        DeliverWakesChanged(Run(init), o);
        RouteRefines(Run(init), o, k.res);
    }
  }
}
