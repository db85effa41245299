/** internal/controllers/state/statusupdater.go and controllers/specialresource.go: the Ready, Progressing and Errored
    conditions, and when a managed reconcile may report Ready. */
module ManagedReconcile {

  datatype Phase = Ready | Progressing | Errored

  datatype Condition = Condition(phase: Phase, isTrue: bool, reason: string, message: string)

  // ---------------------------------------------------------------- conditions

  /** The position of the first condition of a type, or the length of the list. */
  function Find(cs: seq<Condition>, p: Phase): (i: nat)
    ensures i <= |cs| && (i < |cs| ==> cs[i].phase == p) && forall j :: 0 <= j < i ==> cs[j].phase != p
  {
    if cs == [] || cs[0].phase == p then 0 else 1 + Find(cs[1..], p)
  }

  /** `meta.SetStatusCondition`: overwrites the condition of that type, or appends it. */
  function SetCondition(cs: seq<Condition>, c: Condition): seq<Condition> {
    var i := Find(cs, c.phase);
    if i < |cs| then cs[i := c] else cs + [c]
  }

  predicate Holds(cs: seq<Condition>, p: Phase) {
    Find(cs, p) < |cs| && cs[Find(cs, p)].isTrue
  }

  lemma FirstIsFound(cs: seq<Condition>, p: Phase, i: nat)
    requires i < |cs| && cs[i].phase == p && forall j :: 0 <= j < i ==> cs[j].phase != p
    ensures Find(cs, p) == i
  {
    assert Find(cs, p) <= i;
  }

  lemma SetConditionHolds(cs: seq<Condition>, c: Condition, p: Phase)
    ensures Holds(SetCondition(cs, c), p) <==> if p == c.phase then c.isTrue else Holds(cs, p)
  {
    var next, i := SetCondition(cs, c), Find(cs, c.phase);
    if p == c.phase {
      FirstIsFound(next, p, i);
    } else {
      var j := Find(cs, p);
      if j < |cs| {
        FirstIsFound(next, p, j);
      } else {
        assert forall m :: 0 <= m < |next| ==> next[m].phase != p;
      }
    }
  }

  function ReasonFor(p: Phase): string {
    match p case Ready => "SpecialResourceIsReady" case Progressing => "Progressing" case Errored => "ErrorHasOccurred"
  }

  /** `SetAsReady`, `SetAsProgressing` and `SetAsErrored`: one condition becomes true, the other two false. */
  function SetAs(cs: seq<Condition>, p: Phase, reason: string, message: string): seq<Condition> {
    var off := ReasonFor(p);
    match p
    case Ready => SetCondition(SetCondition(SetCondition(cs, Condition(Ready, true, reason, message)),
                                            Condition(Progressing, false, off, "")), Condition(Errored, false, off, ""))
    case Progressing => SetCondition(SetCondition(SetCondition(cs, Condition(Progressing, true, reason, message)),
                                                  Condition(Ready, false, off, "")), Condition(Errored, false, off, ""))
    case Errored => SetCondition(SetCondition(SetCondition(cs, Condition(Errored, true, reason, message)),
                                              Condition(Ready, false, off, "")), Condition(Progressing, false, off, ""))
  }

  /** The condition of a type, if there is one. */
  ghost function At(cs: seq<Condition>, p: Phase): seq<Condition> {
    if Find(cs, p) < |cs| then [cs[Find(cs, p)]] else []
  }

  lemma SetConditionAt(cs: seq<Condition>, c: Condition, p: Phase)
    ensures At(SetCondition(cs, c), p) == if p == c.phase then [c] else At(cs, p)
  {
    var next, i := SetCondition(cs, c), Find(cs, c.phase);
    if p == c.phase {
      FirstIsFound(next, p, i);
    } else {
      var j := Find(cs, p);
      if j < |cs| {
        FirstIsFound(next, p, j);
      } else {
        assert forall m :: 0 <= m < |next| ==> next[m].phase != p;
      }
    }
  }

  /** After a status call the condition that was set carries the reason and the message, and the two others give it as the
      reason why they are false. */
  lemma ConditionsAre(cs: seq<Condition>, p: Phase, reason: string, message: string, q: Phase)
    ensures At(SetAs(cs, p, reason, message), q) ==
      [if q == p then Condition(p, true, reason, message)
       else Condition(q, false, if p == Ready then "SpecialResourceIsReady" else if p == Progressing then "Progressing" else "ErrorHasOccurred", "")]
  {
    hide At, SetCondition;
    var off := ReasonFor(p);
    var second := if p == Ready then Progressing else Ready;
    var third := if p == Errored then Progressing else Errored;
    var c1, c2, c3 := Condition(p, true, reason, message), Condition(second, false, off, ""), Condition(third, false, off, "");
    SetConditionAt(cs, c1, q);
    SetConditionAt(SetCondition(cs, c1), c2, q);
    SetConditionAt(SetCondition(SetCondition(cs, c1), c2), c3, q);
  }

  /** After a status call exactly the condition that was set is true, whatever the list held before. */
  lemma ExactlyOneHolds(cs: seq<Condition>, p: Phase, reason: string, message: string, q: Phase)
    ensures Holds(SetAs(cs, p, reason, message), q) <==> q == p
  {
    hide Holds, SetCondition;
    var off := ReasonFor(p);
    var second := if p == Ready then Progressing else Ready;
    var third := if p == Errored then Progressing else Errored;
    var c1, c2, c3 := Condition(p, true, reason, message), Condition(second, false, off, ""), Condition(third, false, off, "");
    SetConditionHolds(cs, c1, q);
    SetConditionHolds(SetCondition(cs, c1), c2, q);
    SetConditionHolds(SetCondition(SetCondition(cs, c1), c2), c3, q);
  }

  // ---------------------------------------------------------------- the reconcile

  /** A chart reconcile: the status writes it makes while working, all but the last accepted if `writesOk` is false, and
      its own outcome. */
  datatype Chart = Chart(writes: nat, writesOk: bool, ok: bool)

  predicate Deploys(c: Chart) { c.writesOk && c.ok }

  /** A dependency: does its chart load, is the link stored, does its resource exist, or else can it be created. */
  datatype Dependency = Dependency(name: string, conditions: seq<Condition>, loads: bool, linked: bool, present: bool,
                                   created: bool, chart: Chart, noted: bool)

  datatype Env = Env(deleting: bool, management: string, started: bool, finalized: bool, removed: bool,
                     loads: bool, noted: bool, deps: seq<Dependency>, chart: Chart, finished: bool)

  datatype Event =
    | Wrote(name: string, phase: Phase, reason: string, accepted: bool)
    | Deployed(name: string, ok: bool)

  datatype Result = Done | Requeue | Failed | Ignored

  function DeployedOk(deps: seq<Dependency>): seq<Event> {
    seq(|deps|, i requires 0 <= i < |deps| => Deployed(deps[i].name, true))
  }

  /** The chart outcomes in a trace, in order. */
  function Deployments(trace: seq<Event>): seq<Event> {
    if trace == [] then []
    else
      var init, e := trace[..|trace| - 1], trace[|trace| - 1];
      if e.Deployed? then Deployments(init) + [e] else Deployments(init)
  }

  lemma {:induction false} DeploymentsConcat(a: seq<Event>, b: seq<Event>)
    ensures Deployments(a + b) == Deployments(a) + Deployments(b)
    decreases |b|
  {
    if b == [] {
      assert a + b == a;
    } else {
      assert (a + b)[..|a + b| - 1] == a + b[..|b| - 1];
      DeploymentsConcat(a, b[..|b| - 1]);
    }
  }

  /** No status call in the trace is for Ready. */
  ghost predicate NeverReady(trace: seq<Event>) {
    forall i :: 0 <= i < |trace| ==> !(trace[i].Wrote? && trace[i].phase == Ready)
  }

  /** The chart outcomes of a full success. */
  function AllDeployed(deps: seq<Dependency>, name: string): seq<Event> { DeployedOk(deps) + [Deployed(name, true)] }

  /** A Ready status call ends the trace, is for `name`, and stands behind a full success. */
  ghost predicate ReadyIsLast(trace: seq<Event>, deps: seq<Dependency>, name: string) {
    forall i :: 0 <= i < |trace| && trace[i].Wrote? && trace[i].phase == Ready ==>
      i == |trace| - 1 && trace[i].name == name && Deployments(trace) == AllDeployed(deps, name)
  }

  lemma NeverReadyConcat(a: seq<Event>, b: seq<Event>)
    requires NeverReady(a) && NeverReady(b)
    ensures NeverReady(a + b)
  {}

  lemma NoEvents()
    ensures NeverReady([]) && Deployments([]) == []
  {}

  lemma NotReadyEvent(e: Event)
    requires !(e.Wrote? && e.phase == Ready)
    ensures NeverReady([e]) && Deployments([e]) == if e.Deployed? then [e] else []
  {
    assert [e][..0] == [];
  }

  lemma NeverReadyIsLast(trace: seq<Event>, deps: seq<Dependency>, name: string)
    requires NeverReady(trace)
    ensures ReadyIsLast(trace, deps, name)
  {}

  lemma ReadyBehindSuccess(a: seq<Event>, b: seq<Event>, deps: seq<Dependency>, name: string, accepted: bool)
    requires NeverReady(a) && NeverReady(b) && Deployments(a) == DeployedOk(deps) && Deployments(b) == [Deployed(name, true)]
    ensures ReadyIsLast(a + b + [Wrote(name, Ready, "Success", accepted)], deps, name)
  {
    hide DeployedOk;
    DeploymentsConcat(a, b);
    DeploymentsConcat(a + b, [Wrote(name, Ready, "Success", accepted)]);
    NeverReadyConcat(a, b);
    var last := [Wrote(name, Ready, "Success", accepted)];
    assert last[..0] == [] && Deployments(last) == [];
    hide Deployments;
    assert Deployments(a + b + last) == AllDeployed(deps, name);
  }

  /** The dependency lets the loop go on. */
  predicate Passes(d: Dependency) { d.loads && d.linked && d.present && Deploys(d.chart) }

  ghost predicate FirstStop(deps: seq<Dependency>, i: nat) {
    i < |deps| && !Passes(deps[i]) && forall j :: 0 <= j < i ==> Passes(deps[j])
  }

  ghost predicate EndsWith(trace: seq<Event>, e: Event) { trace != [] && trace[|trace| - 1] == e }

  /** How the loop stops at a dependency: which error is written, to whom, and what is returned. */
  ghost predicate StopsAt(name: string, d: Dependency, noted: bool, trace: seq<Event>, result: Result) {
    if !d.loads then result == Failed && EndsWith(trace, Wrote(name, Errored, "DependencyChartFailure", noted))
    else if !d.linked then result == Failed && EndsWith(trace, Wrote(name, Errored, "FailedToStoreDependencyInfo", noted))
    else if !d.present then result == (if d.created then Requeue else Failed)
    else result == Requeue && EndsWith(trace, Wrote(d.name, Errored, "FailedToDeployDependencyChart", d.noted))
  }

  /** How the managed part ends, from what it is answered. */
  ghost predicate EndsAs(name: string, env: Env, trace: seq<Event>, result: Result) {
    if !env.loads then result == Failed && trace == [Wrote(name, Errored, "ChartFailure", env.noted)]
    else if exists i: nat :: FirstStop(env.deps, i) then exists i: nat :: FirstStop(env.deps, i) && StopsAt(name, env.deps[i], env.noted, trace, result)
    else if !Deploys(env.chart) then result == Requeue && EndsWith(trace, Wrote(name, Errored, "FailedToDeployChart", env.noted))
    else result == (if env.finished then Done else Failed) && EndsWith(trace, Wrote(name, Ready, "Success", env.finished))
  }

  lemma NoStop(deps: seq<Dependency>)
    requires forall d :: d in deps ==> Passes(d)
    ensures forall i: nat :: !FirstStop(deps, i)
  {}

  /** The phase last written for `n` with success, if any. */
  ghost function LastPhase(trace: seq<Event>, n: string): seq<Phase> {
    if trace == [] then []
    else
      var e := trace[|trace| - 1];
      if e.Wrote? && e.accepted && e.name == n then [e.phase] else LastPhase(trace[..|trace| - 1], n)
  }

  lemma {:induction false} LastPhaseConcat(a: seq<Event>, b: seq<Event>, n: string)
    ensures LastPhase(a + b, n) == if LastPhase(b, n) == [] then LastPhase(a, n) else LastPhase(b, n)
    decreases |b|
  {
    if b == [] {
      assert a + b == a;
    } else {
      assert (a + b)[..|a + b| - 1] == a + b[..|b| - 1];
      LastPhaseConcat(a, b[..|b| - 1], n);
    }
  }

  /** The server shows for each resource exactly the phase last written, and is unchanged where nothing was written. */
  ghost predicate Follows(before: map<string, seq<Condition>>, now: map<string, seq<Condition>>, trace: seq<Event>) {
    forall n :: if LastPhase(trace, n) == [] then (n in now <==> n in before) && (n in now ==> now[n] == before[n])
                else n in now && forall q :: Holds(now[n], q) <==> q == LastPhase(trace, n)[0]
  }

  lemma FollowsConcat(before: map<string, seq<Condition>>, middle: map<string, seq<Condition>>, now: map<string, seq<Condition>>,
                      a: seq<Event>, b: seq<Event>)
    requires Follows(before, middle, a) && Follows(middle, now, b)
    ensures Follows(before, now, a + b)
  {
    hide Holds, LastPhase;
    forall n ensures LastPhase(a + b, n) == if LastPhase(b, n) == [] then LastPhase(a, n) else LastPhase(b, n) {
      LastPhaseConcat(a, b, n);
    }
  }

  lemma FollowsNothing(stored: map<string, seq<Condition>>)
    ensures Follows(stored, stored, [])
  {}

  lemma LastPhaseOne(e: Event, n: string)
    ensures LastPhase([e], n) == if e.Wrote? && e.accepted && e.name == n then [e.phase] else []
  {
    assert [e][..|[e]| - 1] == [];
  }

  lemma FollowsDeployed(stored: map<string, seq<Condition>>, name: string, ok: bool)
    ensures Follows(stored, stored, [Deployed(name, ok)])
  {
    forall n ensures LastPhase([Deployed(name, ok)], n) == [] { LastPhaseOne(Deployed(name, ok), n); }
    hide LastPhase, Holds;
  }

  lemma FollowsWrite(before: map<string, seq<Condition>>, now: map<string, seq<Condition>>, e: Event)
    requires e.Wrote? && (!e.accepted ==> now == before)
    requires e.accepted ==>
      e.name in now && now == before[e.name := now[e.name]] && forall q :: Holds(now[e.name], q) <==> q == e.phase
    ensures Follows(before, now, [e])
  {
    hide Holds;
    forall n ensures LastPhase([e], n) == if e.accepted && e.name == n then [e.phase] else [] { LastPhaseOne(e, n); }
  }

  /** If the last write that was accepted is not Ready, the resource is not shown as Ready. */
  lemma NeverReadyFollows(before: map<string, seq<Condition>>, now: map<string, seq<Condition>>, trace: seq<Event>, n: string)
    requires Follows(before, now, trace) && NeverReady(trace)
    requires !(n in before && Holds(before[n], Ready))
    ensures !(n in now && Holds(now[n], Ready))
  {
    hide Holds;
    NeverReadyPhase(trace, n);
    hide NeverReady;
  }

  lemma {:induction false} NeverReadyPhase(trace: seq<Event>, n: string)
    requires NeverReady(trace)
    ensures LastPhase(trace, n) == [] || LastPhase(trace, n)[0] != Ready
    decreases |trace|
  {
    if trace != [] { NeverReadyPhase(trace[..|trace| - 1], n); }
  }

  /** The management states under which the operator works on a resource. */
  const MANAGED := {"Force", "Managed", ""}

  class Reconciler {
    /** The stored conditions of each SpecialResource. */
    var stored: map<string, seq<Condition>>

    /** Whether the API server shows the resource as Ready. */
    predicate ReadyNow(name: string)
      reads this
    {
      name in stored && Holds(stored[name], Ready)
    }

    /** A status call: the list in memory changes, the stored one only if the write is accepted. */
    method SetStatus(name: string, mem: seq<Condition>, phase: Phase, reason: string, message: string, accepted: bool)
      returns (next: seq<Condition>, trace: seq<Event>)
      modifies this
      ensures next == SetAs(mem, phase, reason, message)
      ensures stored == if accepted then old(stored)[name := next] else old(stored)
      ensures trace == [Wrote(name, phase, reason, accepted)] && Follows(old(stored), stored, trace)
    {
      next := SetAs(mem, phase, reason, message);
      trace := [Wrote(name, phase, reason, accepted)];
      forall q ensures Holds(next, q) <==> q == phase { ExactlyOneHolds(mem, phase, reason, message, q); }
      hide SetAs, Holds;
      if accepted { stored := stored[name := next]; }
      FollowsWrite(old(stored), stored, trace[0]);
    }

    /** `ReconcileSpecialResourceChart`, seen from its status writes: Progressing for each state it works on. */
    method DeployChart(name: string, conditions: seq<Condition>, chart: Chart)
      returns (mem: seq<Condition>, trace: seq<Event>, ok: bool)
      modifies this
      ensures ok <==> chart.writesOk && chart.ok
      ensures Deployments(trace) == [Deployed(name, ok)]
      ensures NeverReady(trace) && Follows(old(stored), stored, trace)
    {
      hide NeverReady, Deployments, SetAs, Holds, Follows;
      mem, trace := conditions, [];
      NoEvents();
      FollowsNothing(stored);
      for i := 0 to chart.writes
        invariant Deployments(trace) == []
        invariant NeverReady(trace) && Follows(old(stored), stored, trace)
      {
        var accepted := chart.writesOk || i + 1 < chart.writes;
        ghost var middle := stored;
        var more;
        mem, more := SetStatus(name, mem, Progressing, "HandlingState", "", accepted);
        NotReadyEvent(more[0]);
        DeploymentsConcat(trace, more);
        NeverReadyConcat(trace, more);
        FollowsConcat(old(stored), middle, stored, trace, more);
        trace := trace + more;
      }
      ok := chart.writesOk && chart.ok;
      var last := [Deployed(name, ok)];
      NotReadyEvent(last[0]);
      DeploymentsConcat(trace, last);
      NeverReadyConcat(trace, last);
      FollowsDeployed(stored, name, ok);
      FollowsConcat(old(stored), stored, stored, trace, last);
      trace := trace + last;
    }

    /** A status call that writes an error ends the trace. */
    method Fail(ghost before: map<string, seq<Condition>>, trace: seq<Event>, name: string, mem: seq<Condition>,
                reason: string, accepted: bool)
      returns (next: seq<Condition>, longer: seq<Event>)
      requires NeverReady(trace) && Follows(before, stored, trace)
      modifies this
      ensures EndsWith(longer, Wrote(name, Errored, reason, accepted)) && longer == trace + [Wrote(name, Errored, reason, accepted)]
      ensures NeverReady(longer) && Follows(before, stored, longer)
    {
      hide NeverReady, Follows, SetAs;
      ghost var middle := stored;
      var more;
      next, more := SetStatus(name, mem, Errored, reason, "", accepted);
      NotReadyEvent(more[0]);
      NeverReadyConcat(trace, more);
      FollowsConcat(before, middle, stored, trace, more);
      longer := trace + more;
    }

    /** The dependency loop: goes on only past dependencies whose chart was deployed, and says why it stops. */
    method DeployDependencies(name: string, conditions: seq<Condition>, deps: seq<Dependency>, noted: bool)
      returns (mem: seq<Condition>, trace: seq<Event>, result: Result)
      modifies this
      ensures result == Done ==> Deployments(trace) == DeployedOk(deps)
      ensures result == Done <==> forall d :: d in deps ==> d.loads && d.linked && d.present && Deploys(d.chart)
      ensures result != Done ==> exists i: nat :: FirstStop(deps, i) && StopsAt(name, deps[i], noted, trace, result)
      ensures NeverReady(trace) && Follows(old(stored), stored, trace)
    {
      hide NeverReady, Deployments, Follows;
      mem, trace := conditions, [];
      NoEvents();
      FollowsNothing(stored);
      assert DeployedOk(deps[..0]) == [];
      for i := 0 to |deps|
        invariant Deployments(trace) == DeployedOk(deps[..i])
        invariant forall j :: 0 <= j < i ==> Passes(deps[j])
        invariant NeverReady(trace) && Follows(old(stored), stored, trace)
      {
        var d := deps[i];
        assert d in deps;
        assert !Passes(d) ==> FirstStop(deps, i);
        if !d.loads {
          mem, trace := Fail(old(stored), trace, name, mem, "DependencyChartFailure", noted);
          return mem, trace, Failed;
        }
        if !d.linked {
          mem, trace := Fail(old(stored), trace, name, mem, "FailedToStoreDependencyInfo", noted);
          return mem, trace, Failed;
        }
        if !d.present { return mem, trace, if d.created then Requeue else Failed; }
        ghost var middle := stored;
        var child, more, ok := DeployChart(d.name, d.conditions, d.chart);
        NeverReadyConcat(trace, more);
        FollowsConcat(old(stored), middle, stored, trace, more);
        DeploymentsConcat(trace, more);
        trace := trace + more;
        if !ok {
          child, trace := Fail(old(stored), trace, d.name, child, "FailedToDeployDependencyChart", d.noted);
          return mem, trace, Requeue;
        }
        assert deps[..i + 1] == deps[..i] + [d];
        assert DeployedOk(deps[..i + 1]) == DeployedOk(deps[..i]) + [Deployed(d.name, true)];
      }
      assert deps[..|deps|] == deps;
      result := Done;
    }

    /** The managed part, once Progressing is stored: how it ends, what is written, and what the server shows then. */
    method ReconcileManaged(name: string, conditions: seq<Condition>, env: Env)
      returns (trace: seq<Event>, result: Result)
      requires !ReadyNow(name)
      modifies this
      ensures EndsAs(name, env, trace, result) && Follows(old(stored), stored, trace)
      ensures ReadyIsLast(trace, env.deps, name)
      ensures ReadyNow(name) <==> result == Done
      ensures result == Done <==>
        && env.loads && Deploys(env.chart) && env.finished
        && forall d :: d in env.deps ==> d.loads && d.linked && d.present && Deploys(d.chart)
    {
      hide NeverReady, ReadyIsLast, Deployments, DeployedOk, SetAs, Holds, Follows, StopsAt;
      var mem, more, ok;
      if !env.loads {
        NoEvents();
        FollowsNothing(stored);
        mem, trace := Fail(old(stored), [], name, conditions, "ChartFailure", env.noted);
        NeverReadyIsLast(trace, env.deps, name);
        NeverReadyFollows(old(stored), stored, trace, name);
        return trace, Failed;
      }
      mem, trace, result := DeployDependencies(name, conditions, env.deps, env.noted);
      if result != Done {
        NeverReadyIsLast(trace, env.deps, name);
        NeverReadyFollows(old(stored), stored, trace, name);
        return;
      }
      NoStop(env.deps);
      hide FirstStop;
      ghost var middle, before := stored, trace;
      mem, more, ok := DeployChart(name, mem, env.chart);
      NeverReadyConcat(trace, more);
      FollowsConcat(old(stored), middle, stored, trace, more);
      trace := trace + more;
      if !ok {
        mem, trace := Fail(old(stored), trace, name, mem, "FailedToDeployChart", env.noted);
        NeverReadyIsLast(trace, env.deps, name);
        NeverReadyFollows(old(stored), stored, trace, name);
        return trace, Requeue;
      }
      NeverReadyFollows(old(stored), stored, trace, name);
      middle := stored;
      var last;
      mem, last := SetStatus(name, mem, Ready, "Success", "", env.finished);
      ReadyBehindSuccess(before, more, env.deps, name, env.finished);
      FollowsConcat(old(stored), middle, stored, trace, last);
      if env.finished { LastIsShown(old(stored), stored, trace + last, name); }
      trace := trace + last;
      result := if env.finished then Done else Failed;
    }

    /** Ready is written only behind the deployment of every dependency, in order, and then of the resource itself. Once
        the first Progressing write is accepted, every exit but the accepted Ready write leaves the stored Ready
        condition false. A resource that is not managed is not written to. */
    method SpecialResourcesReconcile(name: string, conditions: seq<Condition>, env: Env)
      returns (trace: seq<Event>, result: Result)
      modifies this
      ensures ReadyIsLast(trace, env.deps, name) && Follows(old(stored), stored, trace)
      ensures MANAGED == {"Force", "Managed", ""}
      ensures !env.deleting && env.management in MANAGED && env.started ==> (ReadyNow(name) <==> result == Done)
      ensures !env.deleting && env.management in MANAGED ==>
        (result == Done <==> env.started && env.loads && Deploys(env.chart) && env.finished
                             && forall d :: d in env.deps ==> d.loads && d.linked && d.present && Deploys(d.chart))
      ensures !env.deleting && env.management in MANAGED && env.started ==>
        trace != [] && trace[0] == Wrote(name, Progressing, "Progressing", true) && EndsAs(name, env, trace[1..], result)
      ensures env.deleting ==> trace == [Wrote(name, Progressing, "MarkedForDeletion", env.started)]
                               && result == if env.started && env.finalized then Done else Failed
      ensures env.deleting && env.started ==> !ReadyNow(name)
      ensures (env.deleting || env.management in MANAGED) && !env.started ==> stored == old(stored) && result == Failed
      ensures !env.deleting && env.management !in MANAGED ==> stored == old(stored) && trace == []
      ensures !env.deleting && env.management !in MANAGED ==>
        result == if env.management == "Removed" then (if env.removed then Done else Failed)
                  else if env.management == "Unmanaged" then Ignored else Failed
    {
      hide Deploys, AllDeployed, NeverReady, Follows, Holds, SetAs, EndsAs;
      trace := [];
      NoEvents();
      NeverReadyIsLast(trace, env.deps, name);
      FollowsNothing(stored);
      var mem, first;
      if env.deleting {
        mem, trace := SetStatus(name, conditions, Progressing, "MarkedForDeletion", "CR is marked for deletion", env.started);
        NotReadyEvent(trace[0]);
        NeverReadyIsLast(trace, env.deps, name);
        if !env.started { return trace, Failed; }
        LastIsShown(old(stored), stored, trace, name);
        return trace, if env.finalized then Done else Failed;
      }
      if env.management == "Removed" { return trace, if env.removed then Done else Failed; }
      if env.management == "Unmanaged" { return trace, Ignored; }
      if env.management !in MANAGED { return trace, Failed; }
      mem, first := SetStatus(name, conditions, Progressing, "Progressing", "Progressing", env.started);
      NotReadyEvent(first[0]);
      NeverReadyIsLast(first, env.deps, name);
      if !env.started { return first, Failed; }
      LastIsShown(old(stored), stored, first, name);
      ghost var middle := stored;
      trace, result := ReconcileManaged(name, mem, env);
      StartKeepsOrder(trace, env.deps, name);
      FollowsConcat(old(stored), middle, stored, first, trace);
      assert (first + trace)[1..] == trace;
      trace := first + trace;
    }
  }

  /** A trace that ends in an accepted write: the server shows that phase and no other. */
  lemma LastIsShown(before: map<string, seq<Condition>>, now: map<string, seq<Condition>>, trace: seq<Event>, n: string)
    requires Follows(before, now, trace) && trace != []
    requires var e := trace[|trace| - 1]; e.Wrote? && e.accepted && e.name == n
    ensures n in now && forall q :: Holds(now[n], q) <==> q == trace[|trace| - 1].phase
  {
    hide Holds;
  }

  lemma StartKeepsOrder(trace: seq<Event>, deps: seq<Dependency>, name: string)
    requires ReadyIsLast(trace, deps, name)
    ensures ReadyIsLast([Wrote(name, Progressing, "Progressing", true)] + trace, deps, name)
  {
    hide AllDeployed;
    var first := [Wrote(name, Progressing, "Progressing", true)];
    DeploymentsConcat(first, trace);
    assert first[..0] == [] && Deployments(first) == [];
    assert forall i :: 1 <= i < |first + trace| ==> (first + trace)[i] == trace[i - 1];
  }
}
