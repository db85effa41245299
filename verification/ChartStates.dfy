/** controllers/resources.go, `ReconcileChartStates`: a chart is split into states, named templates and the rest;
    states run in name order, kernel-affine ones once per kernel of the cluster. */
module ChartStates {
  import opened Sequences
  import opened StringOrder
  import opened Assets

  /** A chart file; `affine` says whether its text sets the kernel-affine annotation. */
  datatype Template = Template(name: string, affine: bool)

  function NameOf(t: Template): string { t.name }

  datatype Class = State | Named | Plain

  /** The switch over the template's name. */
  function ClassOf(t: Template): Class {
    if ValidStateName(t.name) then State else if NamedTemplate(t.name) then Named else Plain
  }

  function OfClass(ts: seq<Template>, c: Class): seq<Template> {
    if ts == [] then []
    else
      var init, last := ts[..|ts| - 1], ts[|ts| - 1];
      if ClassOf(last) == c then OfClass(init, c) + [last] else OfClass(init, c)
  }

  lemma {:induction false} OfClassMembers(ts: seq<Template>, c: Class)
    ensures forall t :: t in OfClass(ts, c) ==> ClassOf(t) == c
  {
    if ts != [] { OfClassMembers(ts[..|ts| - 1], c); }
  }

  lemma OfClassNext(ts: seq<Template>, c: Class)
    requires ts != []
    ensures var init, last := ts[..|ts| - 1], ts[|ts| - 1];
      multiset(OfClass(ts, c)) == multiset(OfClass(init, c)) + if ClassOf(last) == c then multiset{last} else multiset{}
  {
    hide ClassOf;
  }

  /** The three lists together hold the templates of the chart, each as often as the chart does. */
  lemma {:induction false} SplitIsPartition(ts: seq<Template>)
    ensures multiset(ts) == multiset(OfClass(ts, State)) + multiset(OfClass(ts, Named)) + multiset(OfClass(ts, Plain))
  {
    hide ClassOf, OfClass;
    if ts == [] {
      NothingOfClass(State);
      NothingOfClass(Named);
      NothingOfClass(Plain);
    } else {
      SplitIsPartition(ts[..|ts| - 1]);
      OfClassNext(ts, State);
      OfClassNext(ts, Named);
      OfClassNext(ts, Plain);
      assert ts == ts[..|ts| - 1] + [ts[|ts| - 1]];
    }
  }

  lemma NothingOfClass(c: Class)
    ensures OfClass([], c) == []
  {}

  /** The lists keep the order of the chart: they are put together from those of its parts. */
  lemma {:induction false} OfClassConcat(a: seq<Template>, b: seq<Template>, c: Class)
    ensures OfClass(a + b, c) == OfClass(a, c) + OfClass(b, c)
    decreases |b|
  {
    hide ClassOf;
    if b == [] {
      assert a + b == a;
    } else {
      assert (a + b)[..|a + b| - 1] == a + b[..|b| - 1];
      OfClassConcat(a, b[..|b| - 1], c);
    }
  }

  /** In any directory of the chart: a template goes with the states if its file name is four digits, a dash or underscore,
      anything and the extension; with the named templates if it starts with an underscore; else with the rest. */
  lemma ClassByName(dir: string, name: string, affine: bool)
    requires name != "" && '/' !in name
    ensures var c, state := ClassOf(Template(dir + "/" + name, affine)), exists digits, mark, rest :: StateParts(name, digits, mark, rest);
      && (c == State <==> state)
      && (c == Named <==> name[0] == '_')
      && (c == Plain <==> !state && name[0] != '_')
      && OfClass([Template(dir + "/" + name, affine)], c) == [Template(dir + "/" + name, affine)]
  {
    NamesInDirectory(dir, name);
    if ValidStateName(dir + "/" + name) { StateNameShape(dir + "/" + name); }
    hide ValidStateName, NamedTemplate, StateParts;
    var t := Template(dir + "/" + name, affine);
    assert [t][..|[t]| - 1] == [];
  }

  method Split(ts: seq<Template>) returns (states: seq<Template>, named: seq<Template>, plain: seq<Template>)
    ensures states == OfClass(ts, State) && named == OfClass(ts, Named) && plain == OfClass(ts, Plain)
  {
    hide ValidStateName, NamedTemplate;
    states, named, plain := [], [], [];
    for i := 0 to |ts|
      invariant states == OfClass(ts[..i], State) && named == OfClass(ts[..i], Named) && plain == OfClass(ts[..i], Plain)
    {
      assert ts[..i + 1][..i] == ts[..i];
      if ValidStateName(ts[i].name) {
        states := states + [ts[i]];
      } else if NamedTemplate(ts[i].name) {
        named := named + [ts[i]];
      } else {
        plain := plain + [ts[i]];
      }
    }
    assert ts[..|ts|] == ts;
  }

  // ---------------------------------------------------------------- what a run may do

  /** A chart prepared for running on a cluster with the given kernels. */
  datatype Job = Job(resource: string, states: seq<Template>, named: seq<Template>, plain: seq<Template>, kernels: set<string>)

  ghost predicate WellFormed(j: Job) {
    (forall t :: t in j.states ==> ValidStateName(t.name)) && Ascending(j.states, NameOf)
  }

  /** The calls made outside, each naming its state by its position in the sorted list. A Helm run that fails may or may
      not have come as far as the object of the state: `created` says whether applying that object succeeded. */
  datatype Event =
    | Progress(state: nat)
    | Helm(state: nat, kernel: string, templates: seq<Template>, ok: bool, created: bool)
    | Label(state: nat, key: string)
    | Stateless(kernel: string, templates: seq<Template>, ok: bool)

  function Passed(trace: seq<Event>): nat {
    if trace == [] then 0
    else Passed(trace[..|trace| - 1]) + if trace[|trace| - 1].Label? then 1 else 0
  }

  /** The kernels for which Helm was run for state `s`, in order. */
  function Runs(trace: seq<Event>, s: nat): seq<string> {
    if trace == [] then []
    else
      var init, e := trace[..|trace| - 1], trace[|trace| - 1];
      if e.Helm? && e.state == s then Runs(init, s) + [e.kernel] else Runs(init, s)
  }

  /** The kernels whose Helm run for state `s` applied its object, in order. */
  function CreatedFor(trace: seq<Event>, s: nat): seq<string> {
    if trace == [] then []
    else
      var init, e := trace[..|trace| - 1], trace[|trace| - 1];
      if e.Helm? && e.state == s && e.created then CreatedFor(init, s) + [e.kernel] else CreatedFor(init, s)
  }

  /** How many Helm runs state `s` makes when nothing goes wrong before them. */
  function RunsDue(j: Job, s: nat): nat
    requires s < |j.states|
  {
    if j.states[s].affine then |j.kernels| else if j.kernels == {} then 0 else 1
  }

  /** The kernel of the last Helm run, if there was one. */
  function LastKernel(trace: seq<Event>, current: string): string {
    if trace == [] then current
    else if trace[|trace| - 1].Helm? then trace[|trace| - 1].kernel else LastKernel(trace[..|trace| - 1], current)
  }

  /** There was a Helm run, and the last one was for `kernel`. */
  ghost predicate IsLast(trace: seq<Event>, kernel: string) { forall c :: LastKernel(trace, c) == kernel }

  lemma LastKernelSnoc(trace: seq<Event>, e: Event)
    ensures e.Helm? ==> IsLast(trace + [e], e.kernel)
    ensures !e.Helm? ==> forall k :: IsLast(trace, k) ==> IsLast(trace + [e], k)
  {
    assert (trace + [e])[..|trace|] == trace;
    forall c
      ensures LastKernel(trace + [e], c) == if e.Helm? then e.kernel else LastKernel(trace, c)
    {
    }
  }

  lemma IsLastMeans(trace: seq<Event>, kernel: string, current: string)
    requires IsLast(trace, kernel)
    ensures kernel == LastKernel(trace, current)
  {}

  /** The last event is Helm run number `|kernels|` of its state, and it failed. */
  predicate FinalRunFailed(j: Job, trace: seq<Event>) {
    && trace != []
    && trace[|trace| - 1].Helm? && !trace[|trace| - 1].ok
    && |Runs(trace, trace[|trace| - 1].state)| == |j.kernels|
  }

  function StateLabel(resource: string, name: string): string
    requires ValidStateName(name)
  {
    "specialresource.openshift.io/state-" + resource + "-" + StateDigits(name)
  }

  /** `e` may follow the events `p`. */
  ghost predicate Allowed(j: Job, p: seq<Event>, e: Event) {
    match e
    case Progress(s) => s == Passed(p) < |j.states|
    case Helm(s, k, ts, _, _) =>
      && s == Passed(p) < |j.states|
      && Progress(s) in p
      && ts == j.named + [j.states[s]]
      && k in j.kernels && k !in Runs(p, s)
      && (j.states[s].affine || Runs(p, s) == [])
      && !FinalRunFailed(j, p)
    case Label(s, l) =>
      && s == Passed(p) < |j.states|
      && ValidStateName(j.states[s].name) && l == StateLabel(j.resource, j.states[s].name)
      && j.kernels != {} && |Runs(p, s)| == RunsDue(j, s)
      && !FinalRunFailed(j, p)
    case Stateless(_, ts, _) =>
      Passed(p) == |j.states| && ts == j.named + j.plain
  }

  /** Every event may follow those before it, and a stateless run ends the trace. */
  ghost predicate Lawful(j: Job, trace: seq<Event>) {
    && (forall i :: 0 <= i < |trace| ==> Allowed(j, trace[..i], trace[i]))
    && (forall i :: 0 <= i < |trace| - 1 ==> !trace[i].Stateless?)
  }

  lemma LawfulSnoc(j: Job, trace: seq<Event>, e: Event)
    requires Lawful(j, trace) && Allowed(j, trace, e) && (trace == [] || !trace[|trace| - 1].Stateless?)
    ensures Lawful(j, trace + [e])
  {
    hide Allowed;
    var t := trace + [e];
    assert t[..|trace|] == trace;
    forall i | 0 <= i < |trace| ensures t[..i] == trace[..i] && t[i] == trace[i] {}
  }

  lemma LawfulPrefix(j: Job, trace: seq<Event>, n: nat)
    requires Lawful(j, trace) && n <= |trace|
    ensures Lawful(j, trace[..n])
  {
    hide Allowed;
    forall i | 0 <= i < n ensures trace[..n][..i] == trace[..i] && trace[..n][i] == trace[i] {}
  }

  // ---------------------------------------------------------------- consequences, for every lawful trace

  lemma {:induction false} PassedMonotone(trace: seq<Event>, n: nat)
    requires n <= |trace|
    ensures Passed(trace[..n]) <= Passed(trace)
  {
    if n == |trace| {
      assert trace[..n] == trace;
    } else {
      assert trace[..|trace| - 1][..n] == trace[..n];
      PassedMonotone(trace[..|trace| - 1], n);
    }
  }

  /** States run one after the other in ascending name order. */
  lemma HelmRunsInNameOrder(j: Job, trace: seq<Event>, a: nat, b: nat)
    requires WellFormed(j) && Lawful(j, trace) && a < b < |trace| && trace[a].Helm? && trace[b].Helm?
    ensures trace[a].state <= trace[b].state < |j.states|
    ensures Leq(j.states[trace[a].state].name, j.states[trace[b].state].name)
  {
    assert Allowed(j, trace[..a], trace[a]) && Allowed(j, trace[..b], trace[b]);
    assert trace[..b][..a] == trace[..a];
    PassedMonotone(trace[..b], a);
    var s, t := trace[a].state, trace[b].state;
    if s == t {
      LeqReflexive(j.states[s].name);
    } else {
      assert Leq(NameOf(j.states[s]), NameOf(j.states[t]));
    }
  }

  lemma {:induction false} RunsAreDistinctKernels(j: Job, trace: seq<Event>, s: nat)
    requires Lawful(j, trace)
    ensures Distinct(Runs(trace, s)) && forall k :: k in Runs(trace, s) ==> k in j.kernels
    decreases |trace|
  {
    if trace != [] {
      var n := |trace| - 1;
      LawfulPrefix(j, trace, n);
      RunsAreDistinctKernels(j, trace[..n], s);
      assert Allowed(j, trace[..n], trace[n]);
    }
  }

  lemma FullDistinct(xs: seq<string>, s: set<string>)
    requires Distinct(xs) && (forall x :: x in xs ==> x in s) && |xs| == |s|
    ensures multiset(xs) == multiset(s)
    decreases |xs|
  {
    if xs == [] {
      assert s == {};
    } else {
      DistinctTail(xs);
      assert xs == [xs[0]] + xs[1..];
      FullDistinct(xs[1..], s - {xs[0]});
      assert s == (s - {xs[0]}) + {xs[0]};
    }
  }

  /** A state that was passed made all its runs. */
  lemma {:induction false} PassedMadeItsRuns(j: Job, trace: seq<Event>, s: nat)
    requires Lawful(j, trace) && s < Passed(trace)
    ensures s < |j.states| && j.kernels != {} && |Runs(trace, s)| == RunsDue(j, s)
    decreases |trace|
  {
    hide ValidStateName, StateLabel, FinalRunFailed, RunsDue;
    var n := |trace| - 1;
    LawfulPrefix(j, trace, n);
    assert Allowed(j, trace[..n], trace[n]);
    if s < Passed(trace[..n]) { PassedMadeItsRuns(j, trace[..n], s); }
  }

  /** Helm ran for `s` exactly once for each kernel if the state is kernel-affine, else once in all. */
  ghost predicate CoveredAt(j: Job, trace: seq<Event>, s: nat)
    requires s < |j.states|
  {
    if j.states[s].affine then multiset(Runs(trace, s)) == multiset(j.kernels)
    else |Runs(trace, s)| == if j.kernels == {} then 0 else 1
  }

  lemma FullRunsCover(j: Job, trace: seq<Event>, s: nat)
    requires Lawful(j, trace) && s < |j.states| && |Runs(trace, s)| == RunsDue(j, s)
    ensures CoveredAt(j, trace, s)
  {
    hide Lawful, Runs, Distinct;
    RunsAreDistinctKernels(j, trace, s);
    if j.states[s].affine { FullDistinct(Runs(trace, s), j.kernels); }
  }

  lemma ProgressIsDue(j: Job, trace: seq<Event>, s: nat)
    requires Lawful(j, trace) && Progress(s) in trace
    ensures s <= Passed(trace) && s < |j.states|
  {
    var i :| 0 <= i < |trace| && trace[i] == Progress(s);
    assert Allowed(j, trace[..i], trace[i]);
    PassedMonotone(trace, i);
  }

  /** A labelled kernel-affine state ran Helm exactly once for each kernel of the cluster, whichever runs failed,
      except that its last run did not fail. */
  lemma LabelledMeansCovered(j: Job, trace: seq<Event>, i: nat)
    requires Lawful(j, trace) && i < |trace| && trace[i].Label?
    ensures var s := trace[i].state;
      && s < |j.states|
      && (j.states[s].affine ==> multiset(Runs(trace, s)) == multiset(j.kernels))
      && (!j.states[s].affine ==> |Runs(trace, s)| == 1)
  {
    hide ValidStateName, StateLabel, FinalRunFailed, Passed, Runs, Distinct, RunsDue;
    var s, p := trace[i].state, trace[..i];
    assert Allowed(j, p, trace[i]);
    hide Lawful, Allowed;
    SnocFacts(p, trace[i], s);
    assert p + [trace[i]] == trace[..i + 1];
    PassedMonotone(trace, i + 1);
    PassedMadeItsRuns(j, trace, s);
    FullRunsCover(j, trace, s);
  }

  /** The run of state `s` for kernel `k` created its object. */
  ghost predicate Created(trace: seq<Event>, s: nat, k: string) {
    exists i :: 0 <= i < |trace| && CreatesAt(trace[i], s, k)
  }

  predicate CreatesAt(e: Event, s: nat, k: string) { e.Helm? && e.state == s && e.kernel == k && e.created }

  lemma {:induction false} CreatedMembers(trace: seq<Event>, s: nat, k: string)
    ensures k in CreatedFor(trace, s) <==> Created(trace, s, k)
    decreases |trace|
  {
    if trace != [] {
      var n := |trace| - 1;
      CreatedMembers(trace[..n], s, k);
      assert forall i :: 0 <= i < n ==> trace[..n][i] == trace[i];
    }
  }

  /** They come in the order of the runs. */
  lemma {:induction false} CreatedInOrder(a: seq<Event>, b: seq<Event>, s: nat)
    ensures CreatedFor(a + b, s) == CreatedFor(a, s) + CreatedFor(b, s)
    ensures Runs(a + b, s) == Runs(a, s) + Runs(b, s)
    decreases |b|
  {
    if b == [] {
      assert a + b == a;
    } else {
      assert (a + b)[..|a + b| - 1] == a + b[..|b| - 1];
      CreatedInOrder(a, b[..|b| - 1], s);
    }
  }

  /** What the runs of a state left behind: no kernel twice, and none without a run. */
  lemma {:induction false} CreatedAreRuns(j: Job, trace: seq<Event>, s: nat)
    requires Lawful(j, trace)
    ensures Distinct(CreatedFor(trace, s))
    ensures forall k :: k in CreatedFor(trace, s) ==> k in Runs(trace, s)
    decreases |trace|
  {
    hide FinalRunFailed, RunsDue, StateLabel, ValidStateName;
    if trace != [] {
      var n := |trace| - 1;
      LawfulPrefix(j, trace, n);
      CreatedAreRuns(j, trace[..n], s);
      assert Allowed(j, trace[..n], trace[n]);
      hide Allowed, Lawful;
    }
  }

  /** Every state that was passed has its own label in the trace. */
  lemma {:induction false} PassedIsLabelled(j: Job, trace: seq<Event>, s: nat)
    requires Lawful(j, trace) && s < Passed(trace)
    ensures s < |j.states| && ValidStateName(j.states[s].name)
    ensures Label(s, StateLabel(j.resource, j.states[s].name)) in trace
    decreases |trace|
  {
    hide ValidStateName, StateLabel, FinalRunFailed, Runs, RunsDue;
    var n := |trace| - 1;
    LawfulPrefix(j, trace, n);
    assert Allowed(j, trace[..n], trace[n]);
    if s < Passed(trace[..n]) { PassedIsLabelled(j, trace[..n], s); }
  }

  /** The stateless part ends the trace, and before it every state was labelled with its own label. */
  lemma StatelessComesLast(j: Job, trace: seq<Event>, i: nat)
    requires Lawful(j, trace) && i < |trace| && trace[i].Stateless?
    ensures i == |trace| - 1
    ensures forall s :: 0 <= s < |j.states| ==>
              ValidStateName(j.states[s].name) && Label(s, StateLabel(j.resource, j.states[s].name)) in trace[..i]
  {
    assert Allowed(j, trace[..i], trace[i]);
    LawfulPrefix(j, trace, i);
    hide ValidStateName, StateLabel, Allowed;
    forall s | 0 <= s < |j.states|
      ensures ValidStateName(j.states[s].name) && Label(s, StateLabel(j.resource, j.states[s].name)) in trace[..i]
    {
      PassedIsLabelled(j, trace[..i], s);
    }
  }

  /** What each event carries: Helm runs the named templates and the one state, the label is made of the resource's name and
      the first four characters of the state's file name, and the stateless part is the named templates and the rest. */
  ghost predicate EventsAre(j: Job, trace: seq<Event>) {
    && (forall i :: 0 <= i < |trace| && trace[i].Helm? ==>
          trace[i].state < |j.states| && trace[i].templates == j.named + [j.states[trace[i].state]] && trace[i].kernel in j.kernels)
    && (forall i :: 0 <= i < |trace| && trace[i].Label? ==>
          && trace[i].state < |j.states| && |Base(j.states[trace[i].state].name)| >= 4
          && trace[i].key == "specialresource.openshift.io/state-" + j.resource + "-" + Base(j.states[trace[i].state].name)[..4])
    && (forall i :: 0 <= i < |trace| && trace[i].Stateless? ==> trace[i].templates == j.named + j.plain)
  }

  lemma LawfulEvents(j: Job, trace: seq<Event>)
    requires Lawful(j, trace)
    ensures EventsAre(j, trace)
  {
    hide Passed, Runs, RunsDue, FinalRunFailed, Base;
    forall i | 0 <= i < |trace| ensures Allowed(j, trace[..i], trace[i]) {}
  }

  // ---------------------------------------------------------------- the reconcile

  datatype Stop = Finished | StatusFailed | NoKernels | MergeFailed | HelmFailed | LabelFailed | StatelessFailed

  /** The answers from outside, by state and kernel. */
  datatype Answers = Answers(status: nat -> bool, merged: (nat, string) -> bool, helm: (nat, string) -> bool,
                             created: (nat, string) -> bool, labelled: nat -> bool, statelessMerged: bool, stateless: bool)

  /** The event reports what was answered. */
  ghost predicate Agrees(a: Answers, e: Event) {
    match e
    case Progress(s) => a.status(s)
    case Helm(s, k, _, ok, created) => a.merged(s, k) && ok == a.helm(s, k) && created == a.created(s, k)
    case Label(s, _) => a.labelled(s)
    case Stateless(_, _, ok) => a.statelessMerged && ok == a.stateless
  }

  ghost predicate Truthful(a: Answers, trace: seq<Event>) {
    forall i :: 0 <= i < |trace| ==> Agrees(a, trace[i])
  }

  lemma TruthfulProgress(a: Answers, trace: seq<Event>, s: nat)
    requires Truthful(a, trace) && a.status(s)
    ensures Truthful(a, trace + [Progress(s)])
  {}

  lemma TruthfulLabel(a: Answers, trace: seq<Event>, s: nat, key: string)
    requires Truthful(a, trace) && a.labelled(s)
    ensures Truthful(a, trace + [Label(s, key)])
  {}

  lemma TruthfulStateless(a: Answers, trace: seq<Event>, kernel: string, ts: seq<Template>)
    requires Truthful(a, trace) && a.statelessMerged
    ensures Truthful(a, trace + [Stateless(kernel, ts, a.stateless)])
  {}

  lemma TruthfulSnoc(a: Answers, trace: seq<Event>, e: Event)
    requires Truthful(a, trace) && Agrees(a, e)
    ensures Truthful(a, trace + [e])
  {}

  /** The reconcile stops only for the reason it gives. */
  ghost predicate Justified(j: Job, a: Answers, trace: seq<Event>, stop: Stop) {
    var s := Passed(trace);
    match stop
    case Finished => s == |j.states| && a.statelessMerged && a.stateless
    case StatusFailed => s < |j.states| && !a.status(s)
    case NoKernels => s < |j.states| && j.kernels == {}
    case MergeFailed =>
      if s == |j.states| then !a.statelessMerged else exists k :: k in j.kernels && !a.merged(s, k)
    case HelmFailed => s < |j.states| && FinalRunFailed(j, trace)
    case LabelFailed => s < |j.states| && !a.labelled(s) && |Runs(trace, s)| == RunsDue(j, s)
    case StatelessFailed => s == |j.states| && !a.stateless
  }

  /** The values of every run of state `s` can be merged. */
  ghost predicate Merges(j: Job, a: Answers, s: nat) { forall k :: k in j.kernels ==> a.merged(s, k) }

  /** Every state that was begun and whose values merge was run for each kernel, however the reconcile ended. */
  ghost predicate Covered(j: Job, a: Answers, trace: seq<Event>) {
    forall s: nat :: s < |j.states| && Progress(s) in trace && Merges(j, a, s) ==> CoveredAt(j, trace, s)
  }

  /** Whatever the reason to stop, which runs failed, and whether the nodes could be labelled: the states that were begun
      and whose values merge ran Helm exactly once for each kernel if affine, and once otherwise. */
  lemma EveryStopCovers(j: Job, a: Answers, trace: seq<Event>, stop: Stop)
    requires Lawful(j, trace) && Truthful(a, trace) && Justified(j, a, trace, stop)
    ensures Covered(j, a, trace)
  {
    forall s: nat | s < |j.states| && Progress(s) in trace && Merges(j, a, s) ensures CoveredAt(j, trace, s) {
      hide Lawful, CoveredAt;
      ProgressIsDue(j, trace, s);
      if s < Passed(trace) {
        PassedMadeItsRuns(j, trace, s);
      } else {
        StoppedStateMadeItsRuns(j, a, trace, s, stop);
      }
      FullRunsCover(j, trace, s);
    }
  }

  /** The state in which the reconcile stopped. */
  lemma StoppedStateMadeItsRuns(j: Job, a: Answers, trace: seq<Event>, s: nat, stop: Stop)
    requires Lawful(j, trace) && Truthful(a, trace) && Justified(j, a, trace, stop)
    requires Passed(trace) == s < |j.states| && Progress(s) in trace && Merges(j, a, s)
    ensures |Runs(trace, s)| == RunsDue(j, s)
  {
    var i :| 0 <= i < |trace| && trace[i] == Progress(s);
    assert Agrees(a, trace[i]);
    hide Truthful, Passed, Lawful, Runs, FinalRunFailed;
    if stop == HelmFailed {
      FailedRunWasDue(j, trace, s);
    } else if stop == NoKernels {
      NothingRunsWithoutKernels(j, trace, s);
    }
  }

  lemma {:induction false} NothingRunsWithoutKernels(j: Job, trace: seq<Event>, s: nat)
    requires Lawful(j, trace) && j.kernels == {}
    ensures Runs(trace, s) == []
    decreases |trace|
  {
    if trace != [] {
      LawfulPrefix(j, trace, |trace| - 1);
      NothingRunsWithoutKernels(j, trace[..|trace| - 1], s);
      assert Allowed(j, trace[..|trace| - 1], trace[|trace| - 1]);
    }
  }

  lemma FailedRunWasDue(j: Job, trace: seq<Event>, s: nat)
    requires Lawful(j, trace) && FinalRunFailed(j, trace) && Passed(trace) == s < |j.states|
    ensures |Runs(trace, s)| == RunsDue(j, s)
  {
    var n := |trace| - 1;
    assert Allowed(j, trace[..n], trace[n]);
  }

  /** Between two states, every state that was begun was passed. */
  lemma BegunIsPassed(j: Job, trace: seq<Event>, s: nat)
    requires Lawful(j, trace) && Progress(s) in trace && trace[|trace| - 1].Label?
    ensures s < Passed(trace)
  {
    hide *;
    var m := |trace| - 1;
    var init, last := trace[..m], trace[m];
    assert trace == init + [last];
    assert Progress(s) in init;
    LawfulPrefix(j, trace, m);
    SnocFacts(init, last, s);
    ProgressIsDue(j, init, s);
  }

  lemma BetweenCovers(j: Job, a: Answers, trace: seq<Event>, n: nat)
    requires Between(j, trace, n)
    ensures Covered(j, a, trace)
  {
    forall s: nat | s < |j.states| && Progress(s) in trace && Merges(j, a, s) ensures CoveredAt(j, trace, s) {
      hide CoveredAt, RunsDue, Runs, Lawful;
      BegunIsPassed(j, trace, s);
      PassedMadeItsRuns(j, trace, s);
      FullRunsCover(j, trace, s);
    }
  }

  /** The reasons to stop inside state `s`. */
  lemma StopsInState(j: Job, a: Answers, trace: seq<Event>, s: nat, stop: Stop, k: string)
    requires Passed(trace) == s < |j.states|
    requires stop.StatusFailed? ==> !a.status(s)
    requires stop.NoKernels? ==> j.kernels == {}
    requires stop.MergeFailed? ==> k in j.kernels && !a.merged(s, k)
    requires stop.HelmFailed? ==> FinalRunFailed(j, trace)
    requires stop.LabelFailed? ==> !a.labelled(s) && |Runs(trace, s)| == RunsDue(j, s)
    requires !stop.Finished? && !stop.StatelessFailed?
    ensures Justified(j, a, trace, stop)
  {}

  /** The reasons to stop behind the last state. */
  lemma StopsAtEnd(j: Job, a: Answers, trace: seq<Event>, stop: Stop)
    requires Passed(trace) == |j.states|
    requires stop == if !a.statelessMerged then MergeFailed else if a.stateless then Finished else StatelessFailed
    ensures Justified(j, a, trace, stop)
  {}

  lemma SnocFacts(trace: seq<Event>, e: Event, s: nat)
    ensures Passed(trace + [e]) == Passed(trace) + if e.Label? then 1 else 0
    ensures Runs(trace + [e], s) == if e.Helm? && e.state == s then Runs(trace, s) + [e.kernel] else Runs(trace, s)
  {
    assert (trace + [e])[..|trace|] == trace;
  }

  /** What holds when state `s` is about to make its next Helm run. */
  ghost predicate InState(j: Job, trace: seq<Event>, s: nat) {
    && Lawful(j, trace) && trace != [] && !trace[|trace| - 1].Stateless?
    && Passed(trace) == s < |j.states| && Progress(s) in trace
  }

  /** The Helm run for one kernel. */
  lemma HelmStep(j: Job, trace: seq<Event>, s: nat, k: string, ok: bool, created: bool)
    requires InState(j, trace, s) && !FinalRunFailed(j, trace)
    requires k in j.kernels && k !in Runs(trace, s) && (j.states[s].affine || Runs(trace, s) == [])
    ensures var e := Helm(s, k, j.named + [j.states[s]], ok, created);
      && InState(j, trace + [e], s)
      && Runs(trace + [e], s) == Runs(trace, s) + [k]
      && (FinalRunFailed(j, trace + [e]) <==> !ok && |Runs(trace, s)| + 1 == |j.kernels|)
  {
    var e := Helm(s, k, j.named + [j.states[s]], ok, created);
    LawfulSnoc(j, trace, e);
    SnocFacts(trace, e, s);
  }

  /** The loop over the kernels of the cluster, in any order. */
  method RunKernels(j: Job, before: seq<Event>, s: nat, a: Answers, current: string)
    returns (trace: seq<Event>, kernel: string, stop: Stop)
    requires InState(j, before, s) && !FinalRunFailed(j, before) && Runs(before, s) == [] && j.kernels != {}
    requires Truthful(a, before)
    ensures stop != MergeFailed ==> IsLast(trace, kernel)
    ensures (stop.Finished? || stop.MergeFailed? || stop.HelmFailed?) && Truthful(a, trace)
    ensures stop == MergeFailed ==> !a.merged(s, kernel)
    ensures InState(j, trace, s)
    ensures stop == HelmFailed <==> FinalRunFailed(j, trace)
    ensures stop != MergeFailed ==> |Runs(trace, s)| == RunsDue(j, s)
    ensures kernel in j.kernels
  {
    assert s < |j.states|;
    hide InState, FinalRunFailed, Runs, Truthful, IsLast;
    trace, kernel, stop := before, current, Finished;
    var todo := j.kernels;
    var replicas := 0;
    while todo != {}
      invariant InState(j, trace, s) && s < |j.states|
      invariant todo <= j.kernels && replicas == |Runs(trace, s)| == |j.kernels| - |todo|
      invariant forall k :: k in todo ==> k !in Runs(trace, s)
      invariant replicas > 0 ==> j.states[s].affine && kernel in j.kernels
      invariant todo == {} ==> replicas > 0
      invariant replicas > 0 ==> IsLast(trace, kernel)
      invariant !FinalRunFailed(j, trace) && Truthful(a, trace)
    {
      var k :| k in todo;
      todo := todo - {k};
      kernel := k;
      if !a.merged(s, k) { return trace, kernel, MergeFailed; }
      var ok, created := a.helm(s, k), a.created(s, k);
      HelmStep(j, trace, s, k, ok, created);
      TruthfulSnoc(a, trace, Helm(s, k, j.named + [j.states[s]], ok, created));
      LastKernelSnoc(trace, Helm(s, k, j.named + [j.states[s]], ok, created));
      trace := trace + [Helm(s, k, j.named + [j.states[s]], ok, created)];
      replicas := replicas + 1;
      if !ok && replicas == |j.kernels| { return trace, kernel, HelmFailed; }
      if !j.states[s].affine { return trace, kernel, Finished; }
    }
  }

  /** Between two states: everything so far was lawful and `s` states were passed. */
  ghost predicate Between(j: Job, trace: seq<Event>, s: nat) {
    Lawful(j, trace) && Passed(trace) == s <= |j.states| && (trace == [] || trace[|trace| - 1].Label?)
  }

  lemma ProgressStep(j: Job, trace: seq<Event>, s: nat)
    requires Between(j, trace, s) && s < |j.states|
    ensures var next := trace + [Progress(s)];
      InState(j, next, s) && !FinalRunFailed(j, next) && Runs(next, s) == []
  {
    LawfulSnoc(j, trace, Progress(s));
    SnocFacts(trace, Progress(s), s);
    NoRunsAtStart(j, trace);
    assert Progress(s) in trace + [Progress(s)];
  }

  lemma LabelStep(j: Job, trace: seq<Event>, s: nat)
    requires WellFormed(j) && InState(j, trace, s) && !FinalRunFailed(j, trace) && j.kernels != {}
    requires |Runs(trace, s)| == RunsDue(j, s)
    ensures ValidStateName(j.states[s].name)
    ensures var next := trace + [Label(s, StateLabel(j.resource, j.states[s].name))];
      Between(j, next, s + 1) && !FinalRunFailed(j, next)
  {
    assert j.states[s] in j.states;
    var e := Label(s, StateLabel(j.resource, j.states[s].name));
    hide StateLabel, ValidStateName, Ascending;
    LawfulSnoc(j, trace, e);
    SnocFacts(trace, e, s);
  }

  /** One state: status, kernel loop, node label. A refused status leaves the trace as it was. */
  method RunState(j: Job, before: seq<Event>, s: nat, a: Answers, current: string)
    returns (trace: seq<Event>, kernel: string, stop: Stop)
    requires WellFormed(j) && Between(j, before, s) && s < |j.states| && Truthful(a, before)
    ensures stop == Finished ==> IsLast(trace, kernel)
    ensures !stop.StatelessFailed? && Truthful(a, trace)
    ensures stop != Finished ==> Justified(j, a, trace, stop)
    ensures stop == Finished ==> Between(j, trace, s + 1)
    ensures stop == StatusFailed ==> Between(j, trace, s)
    ensures !stop.Finished? && !stop.StatusFailed? ==> InState(j, trace, s)
    ensures stop == HelmFailed <==> FinalRunFailed(j, trace)
    ensures Covered(j, a, trace)
  {
    hide *;
    trace, kernel := before, current;
    BetweenFacts(j, trace, s);
    if !a.status(s) {
      StopsInState(j, a, trace, s, StatusFailed, kernel);
      EveryStopCovers(j, a, trace, StatusFailed);
      return trace, kernel, StatusFailed;
    }
    ProgressStep(j, trace, s);
    TruthfulProgress(a, trace, s);
    trace := trace + [Progress(s)];
    InStateFacts(j, trace, s);
    if |j.kernels| == 0 {
      StopsInState(j, a, trace, s, NoKernels, kernel);
      EveryStopCovers(j, a, trace, NoKernels);
      return trace, kernel, NoKernels;
    }
    trace, kernel, stop := RunKernels(j, trace, s, a, kernel);
    InStateFacts(j, trace, s);
    if stop != Finished {
      StopsInState(j, a, trace, s, stop, kernel);
      EveryStopCovers(j, a, trace, stop);
      return;
    }
    if !a.labelled(s) {
      StopsInState(j, a, trace, s, LabelFailed, kernel);
      EveryStopCovers(j, a, trace, LabelFailed);
      return trace, kernel, LabelFailed;
    }
    LabelStep(j, trace, s);
    var e := Label(s, StateLabel(j.resource, j.states[s].name));
    TruthfulLabel(a, trace, s, e.key);
    LastKernelSnoc(trace, e);
    trace := trace + [e];
    BetweenCovers(j, a, trace, s + 1);
  }

  /** Later states have no Helm runs yet. */
  lemma {:induction false} NoRunsAhead(j: Job, trace: seq<Event>, s: nat)
    requires Lawful(j, trace) && s > Passed(trace)
    ensures Runs(trace, s) == []
    decreases |trace|
  {
    if trace != [] {
      var n := |trace| - 1;
      LawfulPrefix(j, trace, n);
      PassedMonotone(trace, n);
      NoRunsAhead(j, trace[..n], s);
      assert Allowed(j, trace[..n], trace[n]);
    }
  }

  lemma {:induction false} NoRunsAtStart(j: Job, trace: seq<Event>)
    requires Lawful(j, trace) && (trace == [] || trace[|trace| - 1].Label?)
    ensures Runs(trace, Passed(trace)) == []
  {
    if trace != [] {
      var n := |trace| - 1;
      LawfulPrefix(j, trace, n);
      NoRunsAhead(j, trace[..n], Passed(trace));
    }
  }

  /** The job made of a chart: its templates split, its states sorted by name. */
  method Prepare(resource: string, templates: seq<Template>, kernels: set<string>) returns (j: Job)
    ensures j.resource == resource && j.kernels == kernels
    ensures multiset(j.states) == multiset(OfClass(templates, State))
    ensures j.named == OfClass(templates, Named) && j.plain == OfClass(templates, Plain)
    ensures WellFormed(j)
  {
    var states, named, plain := Split(templates);
    hide ValidStateName, NamedTemplate;
    OfClassMembers(templates, State);
    SortAscends(states, NameOf);
    j := Job(resource, SortBy(states, NameOf), named, plain, kernels);
    forall t | t in j.states ensures ValidStateName(t.name) {
      assert t in multiset(j.states);
      assert t in states && ClassOf(t) == State;
    }
  }

  lemma StatelessStep(j: Job, trace: seq<Event>, kernel: string, ok: bool)
    requires Between(j, trace, |j.states|)
    ensures var next := trace + [Stateless(kernel, j.named + j.plain, ok)];
      Lawful(j, next) && Passed(next) == |j.states| && !FinalRunFailed(j, next)
  {
    var e := Stateless(kernel, j.named + j.plain, ok);
    LawfulSnoc(j, trace, e);
    SnocFacts(trace, e, 0);
  }

  lemma BetweenFacts(j: Job, trace: seq<Event>, s: nat)
    requires Between(j, trace, s)
    ensures Passed(trace) == s && Lawful(j, trace) && !FinalRunFailed(j, trace) && (trace == [] || !trace[|trace| - 1].Stateless?)
  {}

  lemma InStateFacts(j: Job, trace: seq<Event>, s: nat)
    requires InState(j, trace, s)
    ensures Lawful(j, trace) && trace != [] && !trace[|trace| - 1].Stateless? && Passed(trace) == s < |j.states|
  {}

  lemma NothingYet(j: Job, a: Answers, current: string)
    ensures Between(j, [], 0) && Truthful(a, []) && LastKernel([], current) == current
  {}

  /** The loop over the states; it stops at the first that is not passed. */
  method RunStates(j: Job, a: Answers, current: string) returns (trace: seq<Event>, kernel: string, stop: Stop)
    requires WellFormed(j)
    ensures !stop.StatelessFailed?
    ensures Truthful(a, trace) && (stop != Finished ==> Justified(j, a, trace, stop))
    ensures Lawful(j, trace) && (trace == [] || !trace[|trace| - 1].Stateless?)
    ensures stop == Finished ==> Between(j, trace, |j.states|) && kernel == LastKernel(trace, current)
    ensures stop == HelmFailed <==> FinalRunFailed(j, trace)
    ensures Covered(j, a, trace)
  {
    trace, kernel, stop := [], current, Finished;
    hide *;
    NothingYet(j, a, current);
    for s := 0 to |j.states|
      invariant Between(j, trace, s) && Truthful(a, trace)
      invariant kernel == LastKernel(trace, current)
    {
      trace, kernel, stop := RunState(j, trace, s, a, kernel);
      if stop == StatusFailed { BetweenFacts(j, trace, s); }
      if !stop.Finished? && !stop.StatusFailed? { InStateFacts(j, trace, s); }
      if stop != Finished { return; }
      IsLastMeans(trace, kernel, current);
    }
    stop := Finished;
    BetweenFacts(j, trace, |j.states|);
    BetweenCovers(j, a, trace, |j.states|);
  }

  /** The trace is lawful. It ends in a failed Helm run number `|kernels|` of a state exactly when the reconcile stops
      on a Helm error; otherwise states that had failing runs were passed. The stateless chart ran exactly when
      every state was passed and the values could be merged. */
  method ReconcileChartStates(resource: string, templates: seq<Template>, kernels: set<string>, a: Answers,
                              current: string)
    returns (j: Job, trace: seq<Event>, stop: Stop)
    ensures j.resource == resource && j.kernels == kernels
    ensures multiset(j.states) == multiset(OfClass(templates, State))
    ensures j.named == OfClass(templates, Named) && j.plain == OfClass(templates, Plain)
    ensures WellFormed(j) && Lawful(j, trace)
    ensures stop == HelmFailed <==> FinalRunFailed(j, trace)
    ensures stop == Finished <==> trace != [] && trace[|trace| - 1].Stateless? && trace[|trace| - 1].ok
    ensures stop == StatelessFailed <==> trace != [] && trace[|trace| - 1].Stateless? && !trace[|trace| - 1].ok
    ensures Truthful(a, trace) && Justified(j, a, trace, stop)
    ensures Covered(j, a, trace)
    ensures EventsAre(j, trace)
    ensures trace != [] && trace[|trace| - 1].Stateless? ==>
              trace[|trace| - 1].kernel == LastKernel(trace[..|trace| - 1], current)
  {
    j := Prepare(resource, templates, kernels);
    hide *;
    var kernel;
    trace, kernel, stop := RunStates(j, a, current);
    if stop != Finished {
      LawfulEvents(j, trace);
      return;
    }
    if !a.statelessMerged {
      BetweenFacts(j, trace, |j.states|);
      LawfulEvents(j, trace);
      StopsAtEnd(j, a, trace, MergeFailed);
      return j, trace, MergeFailed;
    }
    StatelessStep(j, trace, kernel, a.stateless);
    TruthfulStateless(a, trace, kernel, j.named + j.plain);
    ghost var before := trace;
    trace := trace + [Stateless(kernel, j.named + j.plain, a.stateless)];
    assert trace[..|trace| - 1] == before;
    LawfulEvents(j, trace);
    stop := if a.stateless then Finished else StatelessFailed;
    StopsAtEnd(j, a, trace, stop);
    EveryStopCovers(j, a, trace, stop);
  }

  /** A state that is not kernel-affine, on a cluster with two or more kernels, never stops on a Helm error. */
  lemma PlainStateIgnoresHelmErrors(j: Job, trace: seq<Event>)
    requires Lawful(j, trace) && FinalRunFailed(j, trace)
    ensures var s := trace[|trace| - 1].state; s < |j.states| && (j.states[s].affine || |j.kernels| == 1)
  {
    var n := |trace| - 1;
    assert Allowed(j, trace[..n], trace[n]);
  }

  /** The Helm run of a state that is not kernel-affine stops the reconcile if and only if it fails and the cluster has a
      single kernel. */
  lemma PlainRunStopsIff(j: Job, trace: seq<Event>)
    requires Lawful(j, trace) && trace != [] && trace[|trace| - 1].Helm?
    requires trace[|trace| - 1].state < |j.states| && !j.states[trace[|trace| - 1].state].affine
    ensures FinalRunFailed(j, trace) <==> |j.kernels| == 1 && !trace[|trace| - 1].ok
  {
    var n := |trace| - 1;
    assert Allowed(j, trace[..n], trace[n]);
    assert Runs(trace, trace[n].state) == [trace[n].kernel];
  }

  /** A Helm run of a kernel-affine state stops the reconcile if and only if it fails and every kernel has been run. */
  lemma AffineRunStopsIff(j: Job, trace: seq<Event>)
    requires Lawful(j, trace) && trace != [] && trace[|trace| - 1].Helm?
    requires trace[|trace| - 1].state < |j.states| && j.states[trace[|trace| - 1].state].affine
    ensures var last := trace[|trace| - 1];
      FinalRunFailed(j, trace) <==> !last.ok && multiset(Runs(trace, last.state)) == multiset(j.kernels)
  {
    var s := trace[|trace| - 1].state;
    RunsAreDistinctKernels(j, trace, s);
    hide Lawful, Runs, Distinct;
    if |Runs(trace, s)| == |j.kernels| { FullDistinct(Runs(trace, s), j.kernels); }
    if multiset(Runs(trace, s)) == multiset(j.kernels) { assert |multiset(Runs(trace, s))| == |multiset(j.kernels)|; }
  }
}
