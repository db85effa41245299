/** controllers/specialresourcemodule_controller.go, `Reconcile`: the per-version status map that is kept
    in memory and persisted, over any history of reconciles from an empty status. */
module ModuleStatus {
  import opened Sequences
  import opened StringOrder
  import opened ModuleController
  import VersionScan

  datatype Status = Status(templates: seq<string>, complete: bool)

  /** What happens to one version: its chart, its successes before a failure, and whether its status write is accepted when
      the resource version it carries is current. */
  datatype Work = Work(load: Load, budget: nat, saved: bool)

  /** The driver-toolkit images that are active, unless finding them failed. */
  datatype Scan = ScanFailed | Active(images: set<string>)

  /** The answers one reconcile gets from outside. */
  datatype Env = Env(listed: bool, found: bool, deleting: bool, watched: bool, scan: Scan, work: string -> Work)

  datatype Event =
    | Started(version: string, templates: seq<string>)
    | Ran(version: string, template: string)
    | Saved(versions: map<string, Status>)

  datatype Verdict = Failed | Skipped | Requeued | Done

  datatype Result = Result(stored: map<string, Status>, trace: seq<Event>, verdict: Verdict)

  function RanEvents(v: string, ran: seq<string>): seq<Event> {
    seq(|ran|, i requires 0 <= i < |ran| => Ran(v, ran[i]))
  }

  function Trail(v: string, load: Load, ran: seq<string>): seq<Event> {
    if load.LoadFailed? then [] else [Started(v, load.templates)] + RanEvents(v, ran)
  }

  /** The loop over the active versions: the in-memory map is saved after each version that succeeds. `current` says whether
      the resource version in hand is the stored one. A write that changes the status moves the stored one on, and the loop
      keeps the one it began with, because the helper that writes is handed a copy. */
  function Process(mem: map<string, Status>, stored: map<string, Status>, current: bool, keys: seq<string>,
                   work: string -> Work): Result
    decreases |keys|
  {
    if keys == [] then Result(stored, [], Done)
    else
      var v := keys[0];
      var w := work(v);
      var p := ChartPass(w.load, if v in mem then mem[v].templates else [], w.budget);
      var trail := Trail(v, w.load, p.ran);
      var mem' := mem[v := Status(p.list, |p.list| == 0)];
      if !p.ok then Result(stored, trail, Requeued)
      else if !w.saved || !current then Result(stored, trail, Failed)
      else
        var rest := Process(mem', mem', mem' == stored, keys[1..], work);
        rest.(trace := trail + [Saved(mem')] + rest.trace)
  }

  /** The members of a set in ascending order. */
  ghost function Enumerate(s: set<string>): (r: seq<string>)
    ensures |r| == |s| && forall x :: x in r <==> x in s
  {
    if s == {} then []
    else
      var x :| x in s;
      var rest := Enumerate(s - {x});
      var r := Insert(x, rest, Self);
      assert forall y :: y in multiset(r) <==> y == x || y in multiset(rest);
      assert forall y :: y in r <==> y in multiset(r);
      assert forall y :: y in rest <==> y in multiset(rest);
      r
  }

  lemma {:induction false} EnumerateAscends(s: set<string>)
    ensures Ascending(Enumerate(s), Self)
  {
    if s != {} {
      var x :| x in s && Enumerate(s) == Insert(x, Enumerate(s - {x}), Self);
      EnumerateAscends(s - {x});
      InsertAscends(x, Enumerate(s - {x}), Self);
    }
  }

  lemma {:induction false} EnumerateDistinct(s: set<string>)
    ensures forall x :: multiset(Enumerate(s))[x] == if x in s then 1 else 0
  {
    if s != {} {
      var x :| x in s && Enumerate(s) == Insert(x, Enumerate(s - {x}), Self);
      hide *;
      EnumerateDistinct(s - {x});
      var rest := Enumerate(s - {x});
      assert multiset(Insert(x, rest, Self)) == multiset(rest) + multiset{x};
    }
  }

  ghost function ReconcileOnce(stored: map<string, Status>, env: Env): Result {
    if !env.listed then Result(stored, [], Failed)
    else if !env.found || env.deleting then Result(stored, [], Skipped)
    else if !env.watched || env.scan.ScanFailed? then Result(stored, [], Failed)
    else
      var active := env.scan.images;
      var mem := map v | v in stored && v in active :: stored[v];
      Process(mem, stored, true, Enumerate(active), env.work)
  }

  datatype History = History(stored: map<string, Status>, trace: seq<Event>)

  ghost function Run(envs: seq<Env>): History {
    if envs == [] then History(map[], [])
    else
      var before := Run(envs[..|envs| - 1]);
      var r := ReconcileOnce(before.stored, envs[|envs| - 1]);
      History(r.stored, before.trace + r.trace)
  }

  // ---------------------------------------------------------------- what a persisted entry means

  /** At `a`, the chart `ts` was loaded for `v` and every state template of it then succeeded, in order. */
  ghost predicate Block(h: seq<Event>, a: nat, v: string, ts: seq<string>) {
    var ran := Sort(AllStates(ts));
    a + 1 + |ran| <= |h| && h[a] == Started(v, ts) && forall i :: 0 <= i < |ran| ==> h[a + 1 + i] == Ran(v, ran[i])
  }

  ghost predicate Earned(h: seq<Event>, v: string) {
    exists a: nat, ts :: Block(h, a, v, ts)
  }

  /** Each entry is complete, has nothing pending, and was earned in `h`. */
  ghost predicate Backed(h: seq<Event>, m: map<string, Status>) {
    forall v :: v in m ==> m[v] == Status([], true) && Earned(h, v)
  }

  /** Every status write in `h` held only entries earned before it. */
  ghost predicate Honest(h: seq<Event>) {
    forall i :: 0 <= i < |h| && h[i].Saved? ==> Backed(h[..i], h[i].versions)
  }

  lemma BlockExtends(h: seq<Event>, more: seq<Event>, a: nat, v: string, ts: seq<string>)
    requires Block(h, a, v, ts)
    ensures Block(h + more, a, v, ts)
  {
    hide Sort, AllStates;
  }

  lemma BackedExtends(h: seq<Event>, more: seq<Event>, m: map<string, Status>)
    requires Backed(h, m)
    ensures Backed(h + more, m)
  {
    forall v | v in m ensures Earned(h + more, v) {
      var a: nat, ts :| Block(h, a, v, ts);
      BlockExtends(h, more, a, v, ts);
    }
  }

  lemma HonestWithoutSaves(h: seq<Event>, more: seq<Event>)
    requires Honest(h) && forall e :: e in more ==> !e.Saved?
    ensures Honest(h + more)
  {
    var g := h + more;
    assert forall j :: |h| <= j < |g| ==> g[j] == more[j - |h|] && g[j] in more;
    forall i | 0 <= i < |g| && g[i].Saved? ensures Backed(g[..i], g[i].versions) {
      assert g[..i] == h[..i];
    }
  }

  lemma HonestWithSave(h: seq<Event>, m: map<string, Status>)
    requires Honest(h) && Backed(h, m)
    ensures Honest(h + [Saved(m)])
  {
    var g := h + [Saved(m)];
    forall i | 0 <= i < |g| && g[i].Saved? ensures Backed(g[..i], g[i].versions) {
      assert g[..i] == h[..i];
      if i == |h| { assert h[..i] == h; }
    }
  }

  lemma TrailHasNoSave(v: string, load: Load, ran: seq<string>)
    ensures forall e :: e in Trail(v, load, ran) ==> !e.Saved?
  {}

  /** A pass from an empty list that returns no error leaves the block that earns the entry. */
  lemma PassEarns(h: seq<Event>, v: string, load: Load, budget: nat)
    requires ChartPass(load, [], budget).ok
    ensures Earned(h + Trail(v, load, ChartPass(load, [], budget).ran), v)
    ensures ChartPass(load, [], budget).list == []
  {
    hide Sort;
    var p := ChartPass(load, [], budget);
    assert p.ran == Sort(AllStates(load.templates)) && load.Loaded?;
    BlockIsThere(h, v, load.templates);
    hide Block, RanEvents;
  }

  lemma BlockIsThere(h: seq<Event>, v: string, ts: seq<string>)
    ensures Block(h + ([Started(v, ts)] + RanEvents(v, Sort(AllStates(ts)))), |h|, v, ts)
  {
    var ran := Sort(AllStates(ts));
    hide Sort, AllStates;
    var g := h + ([Started(v, ts)] + RanEvents(v, ran));
    forall i | 0 <= i < |ran| ensures g[|h| + 1 + i] == Ran(v, ran[i]) { assert g[|h| + 1 + i] == RanEvents(v, ran)[i]; }
  }

  lemma {:induction false} ProcessIsHonest(h: seq<Event>, mem: map<string, Status>, stored: map<string, Status>,
                                           current: bool,
                                           keys: seq<string>, work: string -> Work)
    requires Honest(h) && Backed(h, mem) && Backed(h, stored)
    ensures var r := Process(mem, stored, current, keys, work);
      Honest(h + r.trace) && Backed(h + r.trace, r.stored)
    decreases |keys|
  {
    hide ChartPass, Trail, Earned;
    var r := Process(mem, stored, current, keys, work);
    if keys == [] {
      assert h + r.trace == h;
    } else {
      var v := keys[0];
      var w := work(v);
      var p := ChartPass(w.load, [], w.budget);
      var trail := Trail(v, w.load, p.ran);
      var g := h + trail;
      TrailHasNoSave(v, w.load, p.ran);
      HonestWithoutSaves(h, trail);
      BackedExtends(h, trail, stored);
      BackedExtends(h, trail, mem);
      if p.ok && w.saved && current {
        var mem' := mem[v := Status(p.list, |p.list| == 0)];
        PassEarns(h, v, w.load, w.budget);
        HonestWithSave(g, mem');
        BackedExtends(g, [Saved(mem')], mem');
        ProcessIsHonest(g + [Saved(mem')], mem', mem', mem' == stored, keys[1..], work);
        var rest := Process(mem', mem', mem' == stored, keys[1..], work);
        assert h + r.trace == g + [Saved(mem')] + rest.trace;
      }
    }
  }

  lemma BackedSubmap(h: seq<Event>, m: map<string, Status>, active: set<string>)
    requires Backed(h, m)
    ensures Backed(h, map v | v in m && v in active :: m[v])
  {}

  /** In every history from an empty status, each persisted entry is complete with nothing pending, and
      was written only after every state template of the chart loaded for it had succeeded, in name order. */
  lemma {:induction false} PersistedIsEarned(envs: seq<Env>)
    ensures Honest(Run(envs).trace) && Backed(Run(envs).trace, Run(envs).stored)
    decreases |envs|
  {
    if envs != [] {
      var env := envs[|envs| - 1];
      var before := Run(envs[..|envs| - 1]);
      PersistedIsEarned(envs[..|envs| - 1]);
      var r := ReconcileOnce(before.stored, env);
      if env.listed && env.found && !env.deleting && env.watched && env.scan.Active? {
        var active := env.scan.images;
        BackedSubmap(before.trace, before.stored, active);
        ProcessIsHonest(before.trace, map v | v in before.stored && v in active :: before.stored[v], before.stored, true,
                        Enumerate(active), env.work);
      } else {
        assert before.trace + r.trace == before.trace;
      }
    }
  }

  lemma {:induction false} ProcessKeys(mem: map<string, Status>, stored: map<string, Status>, current: bool,
                                       keys: seq<string>, work: string -> Work)
    requires Process(mem, stored, current, keys, work).verdict.Done? && keys != []
    ensures Process(mem, stored, current, keys, work).stored.Keys == mem.Keys + set k | k in keys
    decreases |keys|
  {
    hide ChartPass;
    var v := keys[0];
    var w := work(v);
    var p := ChartPass(w.load, if v in mem then mem[v].templates else [], w.budget);
    var mem' := mem[v := Status(p.list, |p.list| == 0)];
    assert keys == [v] + keys[1..];
    if keys[1..] != [] { ProcessKeys(mem', mem', mem' == stored, keys[1..], work); }
  }

  /** After a reconcile that ends without error or requeue, the persisted versions are exactly the active
      images, unless none is active: then nothing is written and stale versions stay. */
  lemma DoneMeansActive(stored: map<string, Status>, env: Env)
    requires ReconcileOnce(stored, env).verdict.Done?
    ensures env.scan.Active?
    ensures env.scan.images != {} ==> ReconcileOnce(stored, env).stored.Keys == env.scan.images
    ensures env.scan.images == {} ==> ReconcileOnce(stored, env).stored == stored
  {
    var active := env.scan.images;
    if active != {} {
      var x :| x in active;
      assert x in Enumerate(active);
      ProcessKeys(map v | v in stored && v in active :: stored[v], stored, true, Enumerate(active), env.work);
    } else {
      assert Enumerate(active) == [];
    }
  }

  /** From the watch list to the status: if the active versions are what the scan of the watch list found, then after a
      reconcile without error or requeue the persisted versions are exactly the driver-toolkit images that the watched
      objects name, unless they name none. */
  lemma DoneMeansWatched(stored: map<string, Status>, env: Env, ws: seq<VersionScan.Watch>, o: VersionScan.Oracle)
    requires env.scan == Active(VersionScan.AddAll(map[], VersionScan.Strings(ws), o).Keys)
    requires ReconcileOnce(stored, env).verdict.Done? && exists k :: VersionScan.Toolkit(ws, o, k)
    ensures forall k :: k in ReconcileOnce(stored, env).stored <==> VersionScan.Toolkit(ws, o, k)
  {
    hide *;
    DoneMeansActive(stored, env);
    VersionScan.KeysAreToolkits(ws, o);
  }

  /** Exactly when the `Complete` flag is set in memory: behind a pass without error, behind a failed chart load whatever
      list was in hand, and behind a failure of the first step run when the list in hand names no state of the chart.
      Only the order of the error return and the write keeps the last two from being persisted. */
  lemma CompleteInMemoryIff(load: Load, input: seq<string>, budget: nat)
    ensures var p := ChartPass(load, input, budget);
      |p.list| == 0 <==>
        p.ok || load.LoadFailed? || (budget == 0 && forall t :: t in AllStates(load.templates) ==> t !in input)
  {
    hide Sort;
    if load.Loaded? {
      StatesMembers(load.templates, input, true);
      StatesMembers(load.templates, [], false);
      EmptyOrMember(States(load.templates, input, true));
    }
  }

  /** So the flag is no evidence by itself: it is set behind a failed pass over a chart that loads, too. */
  lemma CompleteInMemoryProvesNothing()
    ensures exists load: Load, budget ::
              load.Loaded? && !ChartPass(load, [], budget).ok && |ChartPass(load, [], budget).list| == 0
  {
    var ts := ["0000-a.yaml", "0001-b.yaml"];
    TwoStates();
    CompleteInMemoryIff(Loaded(ts), [], 0);
    hide Sort;
    assert |Sort(AllStates(ts))| == 2 by { assert multiset(Sort(AllStates(ts))) == multiset(ts); }
    assert !ChartPass(Loaded(ts), [], 0).ok;
  }

  // ---------------------------------------------------------------- how a reconcile ends

  /** The chart of version `v` runs through when nothing of it is on record. */
  ghost predicate RunsThrough(w: Work) { ChartPass(w.load, [], w.budget).ok }

  /** The loop ends in a requeue only behind a chart that does not run through, and in an error only behind one that does
      and whose status write was refused; where all charts run through and no write conflicts, it ends well. */
  lemma {:induction false} VerdictSays(mem: map<string, Status>, stored: map<string, Status>, current: bool, keys: seq<string>,
                                       work: string -> Work)
    requires forall v :: v in mem ==> mem[v] == Status([], true)
    ensures var verdict := Process(mem, stored, current, keys, work).verdict;
      && verdict != Skipped
      && (verdict == Requeued ==> exists v :: v in keys && !RunsThrough(work(v)))
      && (verdict == Failed ==> exists v :: v in keys && RunsThrough(work(v)))
      && (keys != [] && !RunsThrough(work(keys[0])) ==> verdict == Requeued)
      && (keys != [] && RunsThrough(work(keys[0])) && !work(keys[0]).saved ==> verdict == Failed)
    decreases |keys|
  {
    hide Trail;
    if keys != [] {
      var v := keys[0];
      if RunsThrough(work(v)) && work(v).saved && current {
        FullPassReturnsNothing(work(v).load, work(v).budget);
        hide RunsThrough, ChartPass;
        VerdictSays(mem[v := Status([], true)], mem[v := Status([], true)], mem[v := Status([], true)] == stored, keys[1..], work);
        assert forall x :: x in keys[1..] ==> x in keys;
      }
      hide ChartPass;
    }
  }

  // ---------------------------------------------------------------- one changing write per reconcile

  const COMPLETE := Status([], true)

  ghost predicate AllComplete(m: map<string, Status>) { forall v :: v in m ==> m[v] == COMPLETE }

  /** The versions gained at most one key, and every entry is complete. */
  ghost predicate GrowsByOne(before: map<string, Status>, now: map<string, Status>) {
    AllComplete(now) && exists v :: now.Keys <= before.Keys + {v}
  }

  /** With a resource version that is not current, nothing is stored any more and only an empty loop ends well. */
  lemma StaleStoresNothing(mem: map<string, Status>, stored: map<string, Status>, keys: seq<string>,
                           work: string -> Work)
    ensures var r := Process(mem, stored, false, keys, work); r.stored == stored && (r.verdict == Done <==> keys == [])
  {
    hide ChartPass, Trail;
  }

  lemma FullPassReturnsNothing(load: Load, budget: nat)
    requires ChartPass(load, [], budget).ok
    ensures ChartPass(load, [], budget).list == []
  {}

  /** The loop from a complete map: it stores at most one map that differs, with at most one more version. */
  lemma {:induction false} ProcessGrowsByOne(mem: map<string, Status>, stored: map<string, Status>, keys: seq<string>,
                                             work: string -> Work)
    requires AllComplete(mem) && AllComplete(stored) && mem.Keys <= stored.Keys
    ensures GrowsByOne(stored, Process(mem, stored, true, keys, work).stored)
    decreases |keys|
  {
    hide ChartPass, Trail;
    assert stored.Keys <= stored.Keys + {""};
    if keys != [] {
      var v := keys[0];
      var w := work(v);
      var p := ChartPass(w.load, [], w.budget);
      if p.ok && w.saved {
        FullPassReturnsNothing(w.load, w.budget);
        var mem' := mem[v := COMPLETE];
        if mem' == stored {
          ProcessGrowsByOne(mem', mem', keys[1..], work);
        } else {
          StaleStoresNothing(mem', mem', keys[1..], work);
          assert mem'.Keys <= stored.Keys + {v};
        }
      }
    }
  }

  lemma ReconcileGrowsByOne(stored: map<string, Status>, env: Env)
    requires AllComplete(stored)
    ensures GrowsByOne(stored, ReconcileOnce(stored, env).stored)
  {
    assert stored.Keys <= stored.Keys + {""};
    if env.listed && env.found && !env.deleting && env.watched && env.scan.Active? {
      var active := env.scan.images;
      ProcessGrowsByOne(map v | v in stored && v in active :: stored[v], stored, Enumerate(active), env.work);
    }
  }

  /** In every history, at most one version is added to the status per reconcile. */
  lemma {:induction false} OneVersionPerReconcile(envs: seq<Env>)
    ensures AllComplete(Run(envs).stored) && |Run(envs).stored.Keys| <= |envs|
    decreases |envs|
  {
    if envs != [] {
      var before := Run(envs[..|envs| - 1]).stored;
      OneVersionPerReconcile(envs[..|envs| - 1]);
      ReconcileGrowsByOne(before, envs[|envs| - 1]);
      hide ReconcileOnce, AllComplete;
      var now := Run(envs).stored;
      var v :| now.Keys <= before.Keys + {v};
      SubsetSize(now.Keys, before.Keys + {v});
    }
  }

  lemma {:induction false} SubsetSize<T>(a: set<T>, b: set<T>)
    requires a <= b
    ensures |a| <= |b|
    decreases |a|
  {
    if a != {} {
      var x :| x in a;
      SubsetSize(a - {x}, b - {x});
    }
  }

  /** Nothing outside stands in the way: the images `active` are found, every chart loads and runs through, and every status
      write that carries the current version is accepted. */
  ghost predicate Willing(env: Env, active: set<string>) {
    && env.listed && env.found && !env.deleting && env.watched && env.scan == Active(active)
    && forall v :: v in active ==> env.work(v).saved && ChartPass(env.work(v).load, [], env.work(v).budget).ok
  }

  /** The first `n` of the versions, all complete. */
  function FirstOf(keys: seq<string>, n: nat): map<string, Status>
    requires n <= |keys|
  {
    map v | v in keys[..n] :: COMPLETE
  }

  /** A version that is stored already passes without a change. */
  lemma StoredVersionPasses(m: map<string, Status>, keys: seq<string>, i: nat, work: string -> Work)
    requires i < |keys| && keys[i] in m && m[keys[i]] == COMPLETE
    requires work(keys[i]).saved && ChartPass(work(keys[i]).load, [], work(keys[i]).budget).ok
    ensures var a, b := Process(m, m, true, keys[i..], work), Process(m, m, true, keys[i + 1..], work);
      a.stored == b.stored && a.verdict == b.verdict
  {
    hide ChartPass, Trail, Process;
    var v := keys[i];
    FullPassReturnsNothing(work(v).load, work(v).budget);
    assert m[v := COMPLETE] == m;
    ProcessNext(m, m, true, keys, i, work);
  }

  lemma InFirst(keys: seq<string>, n: nat, i: nat)
    requires i < n <= |keys|
    ensures keys[i] in keys && keys[i] in FirstOf(keys, n) && FirstOf(keys, n)[keys[i]] == COMPLETE
  {
    assert keys[i] in keys[..n];
  }

  lemma {:induction false} StoredVersionsPass(keys: seq<string>, n: nat, i: nat, work: string -> Work)
    requires i <= n <= |keys|
    requires forall v :: v in keys ==> work(v).saved && ChartPass(work(v).load, [], work(v).budget).ok
    ensures var m := FirstOf(keys, n);
      var a, b := Process(m, m, true, keys[i..], work), Process(m, m, true, keys[n..], work);
      a.stored == b.stored && a.verdict == b.verdict
    decreases n - i
  {
    hide *;
    if i < n {
      InFirst(keys, n, i);
      StoredVersionPasses(FirstOf(keys, n), keys, i, work);
      StoredVersionsPass(keys, n, i + 1, work);
    }
  }

  /** The first version that is not stored is added, and the write behind it conflicts. */
  lemma NextVersionIsAdded(keys: seq<string>, n: nat, work: string -> Work)
    requires n < |keys| && keys[n] !in keys[..n]
    requires forall v :: v in keys ==> work(v).saved && ChartPass(work(v).load, [], work(v).budget).ok
    ensures var m := FirstOf(keys, n);
      var r := Process(m, m, true, keys[n..], work);
      r.stored == FirstOf(keys, n + 1) && (r.verdict == Done <==> n + 1 == |keys|)
  {
    hide ChartPass, Trail;
    var m, v := FirstOf(keys, n), keys[n];
    assert v in keys;
    FullPassReturnsNothing(work(v).load, work(v).budget);
    assert keys[..n + 1] == keys[..n] + [v];
    assert m[v := COMPLETE] == FirstOf(keys, n + 1) && v !in m;
    ProcessNext(m, m, true, keys, n, work);
    StaleStoresNothing(m[v := COMPLETE], m[v := COMPLETE], keys[n + 1..], work);
  }

  lemma EnumerationIsNew(active: set<string>, n: nat)
    requires n < |Enumerate(active)|
    ensures Enumerate(active)[n] !in Enumerate(active)[..n]
  {
    hide *;
    var keys := Enumerate(active);
    EnumerateDistinct(active);
    DistinctFromCounts(keys);
    DistinctAt(keys, n);
  }

  lemma DistinctAt(keys: seq<string>, n: nat)
    requires n < |keys| && Distinct(keys)
    ensures keys[n] !in keys[..n]
  {}

  lemma WillingReconcile(active: set<string>, env: Env, n: nat)
    requires Willing(env, active) && n <= |Enumerate(active)|
    ensures var keys := Enumerate(active);
      var r := ReconcileOnce(FirstOf(keys, n), env);
      && r.stored == FirstOf(keys, if n < |keys| then n + 1 else n)
      && (r.verdict == Done <==> n + 1 >= |keys|)
  {
    var keys := Enumerate(active);
    var m := FirstOf(keys, n);
    assert m.Keys <= active by { assert forall v :: v in keys[..n] ==> v in keys; }
    ReconcileIsLoop(m, env, active);
    assert keys[0..] == keys;
    assert forall v :: v in keys ==> env.work(v).saved && ChartPass(env.work(v).load, [], env.work(v).budget).ok;
    hide *;
    StoredVersionsPass(keys, n, 0, env.work);
    if n < |keys| {
      EnumerationIsNew(active, n);
      NextVersionIsAdded(keys, n, env.work);
    } else {
      ProcessEnd(m, m, true, keys, env.work);
    }
  }

  /** Without obsolete versions the reconcile is the loop from what is stored. */
  lemma ReconcileIsLoop(stored: map<string, Status>, env: Env, active: set<string>)
    requires Willing(env, active) && stored.Keys <= active
    ensures ReconcileOnce(stored, env) == Process(stored, stored, true, Enumerate(active), env.work)
  {
    assert (map v | v in stored && v in active :: stored[v]) == stored;
    hide Process, Enumerate, ChartPass;
  }

  /** With nothing in the way, n active versions take n reconciles: each adds the next one in name order, and exactly the
      reconciles from the n-th on end without error. All others end in a conflict of the resource version. */
  lemma {:induction false} OneReconcilePerVersion(envs: seq<Env>, active: set<string>)
    requires forall i :: 0 <= i < |envs| ==> Willing(envs[i], active)
    ensures var keys := Enumerate(active);
      && Run(envs).stored == FirstOf(keys, if |envs| < |keys| then |envs| else |keys|)
      && (envs != [] ==>
            (ReconcileOnce(Run(envs[..|envs| - 1]).stored, envs[|envs| - 1]).verdict == Done <==> |envs| >= |keys|))
    decreases |envs|
  {
    var keys := Enumerate(active);
    hide Willing, ReconcileOnce, Enumerate;
    if envs == [] {
      assert FirstOf(keys, 0) == map[];
    } else {
      var init := envs[..|envs| - 1];
      OneReconcilePerVersion(init, active);
      WillingReconcile(active, envs[|envs| - 1], if |init| < |keys| then |init| else |keys|);
    }
  }

  // ---------------------------------------------------------------- the controller

  /** One turn of the version loop. */
  lemma ProcessNext(mem: map<string, Status>, stored: map<string, Status>, current: bool, keys: seq<string>, i: nat,
                    work: string -> Work)
    requires i < |keys|
    ensures var now, v := Process(mem, stored, current, keys[i..], work), keys[i];
      var w := work(v);
      var p := ChartPass(w.load, if v in mem then mem[v].templates else [], w.budget);
      var trail := Trail(v, w.load, p.ran);
      var mem' := mem[v := Status(p.list, |p.list| == 0)];
      var rest := Process(mem', mem', mem' == stored, keys[i + 1..], work);
      if !p.ok then now == Result(stored, trail, Requeued)
      else if !w.saved || !current then now == Result(stored, trail, Failed)
      else now == rest.(trace := trail + [Saved(mem')] + rest.trace)
  {
    hide ChartPass, Trail;
    assert keys[i..][0] == keys[i] && keys[i..][1..] == keys[i + 1..];
  }

  lemma Regroup(whole: Result, trace: seq<Event>, now: Result, step: seq<Event>, rest: Result)
    requires whole == now.(trace := trace + now.trace) && now == rest.(trace := step + rest.trace)
    ensures whole == rest.(trace := (trace + step) + rest.trace)
  {
    assert trace + (step + rest.trace) == (trace + step) + rest.trace;
  }

  lemma ProcessEnd(mem: map<string, Status>, stored: map<string, Status>, current: bool, keys: seq<string>,
                   work: string -> Work)
    ensures Process(mem, stored, current, keys[|keys|..], work) == Result(stored, [], Done)
  {}

  lemma SortedListIsEnumeration(keys: seq<string>, s: set<string>)
    requires forall x :: multiset(keys)[x] == if x in s then 1 else 0
    ensures Sort(keys) == Enumerate(s)
  {
    EnumerateDistinct(s);
    EnumerateAscends(s);
    SortAscends(keys, Self);
    assert multiset(Sort(keys)) == multiset(Enumerate(s));
    AscendingUnique(Sort(keys), Enumerate(s));
  }

  class Controller {
    /** The status map held by the API server, and its resource version. */
    var stored: map<string, Status>
    var version: nat

    constructor ()
      ensures stored == map[]
    {
      stored, version := map[], 0;
    }

    /** The status update: refused when the resource version it carries is not the stored one; a write that changes nothing
        leaves the stored version as it is. */
    method UpdateStatus(versions: map<string, Status>, seen: nat, willing: bool) returns (ok: bool)
      modifies this
      ensures ok <==> willing && seen == old(version)
      ensures stored == if ok then versions else old(stored)
      ensures version == if ok && versions != old(stored) then old(version) + 1 else old(version)
    {
      ok := willing && seen == version;
      if ok && versions != stored {
        stored := versions;
        version := version + 1;
      }
    }

    /** The keys of the version map, sorted; the map is read in any order. */
    static method UpdateList(images: set<string>) returns (keys: seq<string>)
      ensures keys == Enumerate(images)
    {
      keys := [];
      var todo := images;
      while todo != {}
        invariant todo <= images
        invariant forall x :: multiset(keys)[x] == if x in images && x !in todo then 1 else 0
      {
        var k :| k in todo;
        keys := keys + [k];
        todo := todo - {k};
      }
      SortedListIsEnumeration(keys, images);
      keys := Sort(keys);
    }

    /** Deletes obsolete versions from the in-memory map, in any order. */
    static method DropObsolete(versions: map<string, Status>, images: set<string>) returns (mem: map<string, Status>)
      ensures mem == map v | v in versions && v in images :: versions[v]
    {
      mem := versions;
      var todo := versions.Keys;
      while todo != {}
        invariant todo <= versions.Keys
        invariant mem == map v | v in versions && (v in todo || v in images) :: versions[v]
      {
        var k :| k in todo;
        todo := todo - {k};
        if k !in images { mem := mem - {k}; }
      }
    }

    method ProcessVersions(versions: map<string, Status>, seen: nat, keys: seq<string>, work: string -> Work)
      returns (trace: seq<Event>, verdict: Verdict)
      requires seen <= version
      modifies this
      ensures Result(stored, trace, verdict) == Process(versions, old(stored), seen == old(version), keys, work)
    {
      hide *;
      ghost var whole := Process(versions, stored, seen == version, keys, work);
      ghost var rest := whole;
      var mem := versions;
      trace := [];
      assert keys[0..] == keys;
      for i := 0 to |keys|
        invariant seen <= version
        invariant rest == Process(mem, stored, seen == version, keys[i..], work)
        invariant whole == rest.(trace := trace + rest.trace)
      {
        var v := keys[i];
        ProcessNext(mem, stored, seen == version, keys, i, work);
        var w := work(v);
        var input := [];
        if v in mem { input := mem[v].templates; }
        var list, ran, ok := ReconcileChart(w.load, input, w.budget);
        mem := mem[v := Status(list, |list| == 0)];
        var trail := Trail(v, w.load, ran);
        if !ok { return trace + trail, Requeued; }
        var written := UpdateStatus(mem, seen, w.saved);
        if !written { return trace + trail, Failed; }
        ghost var now := rest;
        rest := Process(mem, stored, seen == version, keys[i + 1..], work);
        Regroup(whole, trace, now, trail + [Saved(mem)], rest);
        trace := trace + (trail + [Saved(mem)]);
      }
      ProcessEnd(mem, stored, seen == version, keys, work);
      verdict := Done;
    }

    method Reconcile(env: Env) returns (trace: seq<Event>, verdict: Verdict)
      modifies this
      ensures Result(stored, trace, verdict) == ReconcileOnce(old(stored), env)
      ensures !env.listed ==> verdict == Failed
      ensures env.listed && (!env.found || env.deleting) ==> verdict == Skipped
      ensures env.listed && env.found && !env.deleting && (!env.watched || env.scan.ScanFailed?) ==> verdict == Failed
      ensures !env.listed || !env.found || env.deleting || !env.watched || env.scan.ScanFailed? ==>
                trace == [] && stored == old(stored)
    {
      trace := [];
      if !env.listed { return trace, Failed; }
      if !env.found || env.deleting { return trace, Skipped; }
      if !env.watched || env.scan.ScanFailed? { return trace, Failed; }
      var keys := UpdateList(env.scan.images);
      var mem := DropObsolete(stored, env.scan.images);
      trace, verdict := ProcessVersions(mem, version, keys, env.work);
    }
  }
}
