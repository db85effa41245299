/** pkg/helmer/helmer.go, `ExecHook`: the hooks of a release for one event run in order of weight and name; a ConfigMap
    records, per event and namespace, that this has been done. */
module HelmHooks {
  import opened StringOrder

  /** When the resources of a hook are deleted. */
  datatype Policy = BeforeCreation | OnSuccess | OnFailure

  datatype Hook = Hook(name: string, weight: int, events: seq<string>, manifest: string, kind: string, policies: seq<Policy>)

  /** The policy test of `deleteHookByPolicy`: resource definitions are never deleted, and a hook without policies has the
      one to delete before creation. */
  predicate Deletes(h: Hook, p: Policy) {
    h.kind != "CustomResourceDefinition" && p in (if h.policies == [] then [BeforeCreation] else h.policies)
  }

  // ---------------------------------------------------------------- selection and order

  /** `hookByWeight.Less`, as the order it induces. */
  predicate Before(a: Hook, b: Hook) {
    a.weight < b.weight || (a.weight == b.weight && Leq(a.name, b.name))
  }

  ghost predicate InOrder(hs: seq<Hook>) {
    forall i, j :: 0 <= i < j < |hs| ==> Before(hs[i], hs[j])
  }

  function Place(h: Hook, hs: seq<Hook>): (r: seq<Hook>)
    ensures multiset(r) == multiset(hs) + multiset{h}
  {
    if hs == [] then [h]
    else if Before(h, hs[0]) then [h] + hs
    else
      assert hs == [hs[0]] + hs[1..];
      [hs[0]] + Place(h, hs[1..])
  }

  lemma {:induction false} PlaceInOrder(h: Hook, hs: seq<Hook>)
    requires InOrder(hs)
    ensures InOrder(Place(h, hs))
  {
    if hs != [] {
      if Before(h, hs[0]) {
        forall j | 0 < j < |hs| ensures Before(h, hs[j]) { BeforeTransitive(h, hs[0], hs[j]); }
      } else {
        var rest := Place(h, hs[1..]);
        PlaceInOrder(h, hs[1..]);
        BeforeTotal(h, hs[0]);
        forall j | 0 <= j < |rest| ensures Before(hs[0], rest[j]) {
          assert rest[j] in multiset(rest);
          assert rest[j] == h || rest[j] in hs[1..];
        }
      }
    }
  }

  lemma BeforeTransitive(a: Hook, b: Hook, c: Hook)
    requires Before(a, b) && Before(b, c)
    ensures Before(a, c)
  {
    if a.weight == b.weight == c.weight { LeqTransitive(a.name, b.name, c.name); }
  }

  lemma BeforeTotal(a: Hook, b: Hook)
    ensures Before(a, b) || Before(b, a)
  {
    LeqTotal(a.name, b.name);
  }

  /** `sort.Stable`. */
  function Sorted(hs: seq<Hook>): (r: seq<Hook>)
    ensures multiset(r) == multiset(hs)
  {
    if hs == [] then []
    else
      assert hs == [hs[0]] + hs[1..];
      Place(hs[0], Sorted(hs[1..]))
  }

  lemma {:induction false} SortedInOrder(hs: seq<Hook>)
    ensures InOrder(Sorted(hs))
  {
    if hs != [] {
      SortedInOrder(hs[1..]);
      PlaceInOrder(hs[0], Sorted(hs[1..]));
    }
  }

  /** Sorting orders by weight, the smaller first, and by name where weights agree. */
  lemma SortedByWeightThenName(hs: seq<Hook>, i: nat, j: nat)
    requires i < j < |Sorted(hs)|
    ensures var a, b := Sorted(hs)[i], Sorted(hs)[j];
      a.weight <= b.weight && (a.weight == b.weight ==> Leq(a.name, b.name))
  {
    SortedInOrder(hs);
    hide Sorted;
  }

  function Repeat(h: Hook, n: nat): seq<Hook> { seq(n, i => h) }

  function CountEvent(events: seq<string>, e: string): nat { multiset(events)[e] }

  /** The hooks for `event`, each once per mention of the event. */
  function ForEvent(hs: seq<Hook>, event: string): seq<Hook> {
    if hs == [] then []
    else ForEvent(hs[..|hs| - 1], event) + Repeat(hs[|hs| - 1], CountEvent(hs[|hs| - 1].events, event))
  }

  /** A hook is collected as often as it is listed, times the mentions of the event in it. */
  lemma {:induction false} ForEventCounts(hs: seq<Hook>, event: string, h: Hook)
    ensures multiset(ForEvent(hs, event))[h] == multiset(hs)[h] * multiset(h.events)[event]
    decreases |hs|
  {
    if hs != [] {
      var init, last := hs[..|hs| - 1], hs[|hs| - 1];
      assert hs == init + [last];
      ForEventCounts(init, event, h);
      RepeatCounts(last, CountEvent(last.events, event), h);
      assert multiset(hs)[h] == multiset(init)[h] + if h == last then 1 else 0;
      if h == last {
        assert (multiset(init)[h] + 1) * multiset(h.events)[event] == multiset(init)[h] * multiset(h.events)[event] + multiset(h.events)[event];
      }
    }
  }

  lemma {:induction false} RepeatCounts(last: Hook, n: nat, h: Hook)
    ensures multiset(Repeat(last, n))[h] == if h == last then n else 0
    decreases n
  {
    if n > 0 {
      RepeatCounts(last, n - 1, h);
      assert Repeat(last, n) == Repeat(last, n - 1) + [last];
    }
  }

  method Collect(hs: seq<Hook>, event: string) returns (r: seq<Hook>)
    ensures r == ForEvent(hs, event)
  {
    r := [];
    for i := 0 to |hs|
      invariant r == ForEvent(hs[..i], event)
    {
      ghost var before := r;
      for n := 0 to |hs[i].events|
        invariant r == before + Repeat(hs[i], CountEvent(hs[i].events[..n], event))
      {
        assert hs[i].events[..n + 1] == hs[i].events[..n] + [hs[i].events[n]];
        if hs[i].events[n] == event {
          r := r + [hs[i]];
        }
      }
      assert hs[i].events[..|hs[i].events|] == hs[i].events;
      assert hs[..i + 1][..i] == hs[..i];
    }
    assert hs[..|hs|] == hs;
  }

  // ---------------------------------------------------------------- one pass

  /** What becomes of one hook. */
  datatype Step = Fine | DeleteFails | ReleaseFails | ApplyFails

  datatype Creation = Accepted | AlreadyExists | Refused

  /** The answers for the hooks by position: deleting its resources, storing the release, applying its manifest. */
  datatype Env = Env(reachable: bool, removed: (nat, Policy) -> bool, recorded: nat -> bool, accepted: nat -> bool,
                     creation: Creation)

  /** The calls that touch resources of hooks. */
  datatype Act = Deleted(hook: Hook, policy: Policy, ok: bool) | Applied(hook: Hook, ok: bool)

  /** A call: the hooks whose manifest was applied, those for which that succeeded, whether the marker exists behind it. */
  datatype Pass = Pass(attempted: seq<Hook>, applied: seq<Hook>, acts: seq<Act>, marker: bool, ok: bool)

  function StepOf(h: Hook, i: nat, env: Env): Step {
    if Deletes(h, BeforeCreation) && !env.removed(i, BeforeCreation) then DeleteFails
    else if !env.recorded(i) then ReleaseFails
    else if !env.accepted(i) then ApplyFails
    else Fine
  }

  /** Deletes the resources of hook `i` if it has the policy. */
  function DeleteActs(h: Hook, i: nat, p: Policy, env: Env): seq<Act> {
    if Deletes(h, p) then [Deleted(h, p, env.removed(i, p))] else []
  }

  function HookActs(h: Hook, i: nat, env: Env): seq<Act> {
    DeleteActs(h, i, BeforeCreation, env) +
    match StepOf(h, i, env) {
      case DeleteFails => []
      case ReleaseFails => []
      case ApplyFails => [Applied(h, false)] + DeleteActs(h, i, OnFailure, env)
      case Fine => [Applied(h, true)]
    }
  }

  /** How many of the first `n` hooks go well before one does not. */
  function Prefix(hs: seq<Hook>, n: nat, env: Env): (r: nat)
    requires n <= |hs|
    ensures r <= n && (forall i :: 0 <= i < r ==> StepOf(hs[i], i, env) == Fine) && (r < n ==> StepOf(hs[r], r, env) != Fine)
  {
    if n == 0 then 0
    else if Prefix(hs, n - 1, env) < n - 1 || StepOf(hs[n - 1], n - 1, env) != Fine then Prefix(hs, n - 1, env) else n
  }

  function LoopActs(hs: seq<Hook>, n: nat, env: Env): seq<Act>
    requires n <= |hs|
  {
    if n == 0 then [] else LoopActs(hs, n - 1, env) + HookActs(hs[n - 1], n - 1, env)
  }

  predicate CleanedUp(h: Hook, i: nat, env: Env) { Deletes(h, OnSuccess) ==> env.removed(i, OnSuccess) }

  /** How many of the first `n` hooks are cleaned up before one cannot be. */
  function Cleared(hs: seq<Hook>, n: nat, env: Env): (r: nat)
    requires n <= |hs|
    ensures r <= n && (forall i :: 0 <= i < r ==> CleanedUp(hs[i], i, env)) && (r < n ==> !CleanedUp(hs[r], r, env))
  {
    if n == 0 then 0
    else if Cleared(hs, n - 1, env) < n - 1 || !CleanedUp(hs[n - 1], n - 1, env) then Cleared(hs, n - 1, env) else n
  }

  function CleanActs(hs: seq<Hook>, n: nat, env: Env): seq<Act>
    requires n <= |hs|
  {
    if n == 0 then [] else CleanActs(hs, n - 1, env) + DeleteActs(hs[n - 1], n - 1, OnSuccess, env)
  }

  /** The number of hooks a loop reaches that stops at the first which does not go well. */
  function Reached(good: nat, n: nat): nat
    requires good <= n
  {
    if good < n then good + 1 else n
  }

  ghost function Exec(marker: bool, hs: seq<Hook>, event: string, env: Env): Pass {
    if !env.reachable then Pass([], [], [], marker, false)
    else if marker then Pass([], [], [], marker, true)
    else
      var sorted := Sorted(ForEvent(hs, event));
      var n := Prefix(sorted, |sorted|, env);
      var acts := LoopActs(sorted, Reached(n, |sorted|), env);
      if n < |sorted| then
        Pass(sorted[..if StepOf(sorted[n], n, env) == ApplyFails then n + 1 else n], sorted[..n], acts, marker, false)
      else
        var m := Cleared(sorted, |sorted|, env);
        var all := acts + CleanActs(sorted, Reached(m, |sorted|), env);
        if m < |sorted| then Pass(sorted, sorted, all, marker, false)
        else if sorted == [] then Pass([], [], all, marker, true)
        else Pass(sorted, sorted, all, marker || env.creation != Refused, env.creation != Refused)
  }

  /** A pass applies the hooks for the event from the front, in order of weight and name, at most one of them in vain; the
      marker appears only behind a pass that applied every one of them; and with the marker nothing is applied. */
  lemma PassIsOrdered(marker: bool, hs: seq<Hook>, event: string, env: Env)
    ensures var p, sorted := Exec(marker, hs, event, env), Sorted(ForEvent(hs, event));
      && InOrder(sorted) && multiset(sorted) == multiset(ForEvent(hs, event))
      && p.applied <= p.attempted <= sorted && |p.attempted| <= |p.applied| + 1
      && (p.ok && !marker ==> p.applied == sorted)
      && (p.marker && !marker ==> p.applied == sorted && sorted != [])
      && (marker ==> p.attempted == [] && p.marker)
  {
    hide Sorted, ForEvent, InOrder;
    SortedInOrder(ForEvent(hs, event));
    var sorted := Sorted(ForEvent(hs, event));
    assert sorted[..|sorted|] == sorted;
  }

  // ---------------------------------------------------------------- exactly when a pass succeeds and leaves the marker

  /** The policy test, spelt out. */
  lemma DeletesIff(h: Hook, p: Policy)
    ensures Deletes(h, p) <==>
            h.kind != "CustomResourceDefinition" && ((h.policies == [] && p == BeforeCreation) || exists i :: 0 <= i < |h.policies| && h.policies[i] == p)
  {}

  /** Hook `i` goes well: what an earlier run left is deleted where its policies ask for it, the release is stored and the
      manifest is applied. */
  ghost predicate GoesWell(h: Hook, i: nat, env: Env) {
    (Deletes(h, BeforeCreation) ==> env.removed(i, BeforeCreation)) && env.recorded(i) && env.accepted(i)
  }

  ghost predicate AllGoWell(sorted: seq<Hook>, env: Env) {
    forall i :: 0 <= i < |sorted| ==> GoesWell(sorted[i], i, env)
  }

  /** The manifest of hook `i` is sent and not accepted. */
  ghost predicate Tried(h: Hook, i: nat, env: Env) {
    (Deletes(h, BeforeCreation) ==> env.removed(i, BeforeCreation)) && env.recorded(i) && !env.accepted(i)
  }

  /** Hook `i` is the first that does not go well. */
  ghost predicate FirstBad(sorted: seq<Hook>, i: nat, env: Env)
    requires i < |sorted|
  {
    !GoesWell(sorted[i], i, env) && forall j :: 0 <= j < i ==> GoesWell(sorted[j], j, env)
  }

  ghost predicate AllCleared(sorted: seq<Hook>, env: Env) {
    forall i :: 0 <= i < |sorted| && Deletes(sorted[i], OnSuccess) ==> env.removed(i, OnSuccess)
  }

  lemma FineIffGoesWell(h: Hook, i: nat, env: Env)
    ensures StepOf(h, i, env) == Fine <==> GoesWell(h, i, env)
    ensures StepOf(h, i, env) == ApplyFails <==> Tried(h, i, env)
  {
    hide Deletes;
  }

  /** A pass succeeds if and only if the marker was there, or every hook goes well and is cleared, and there is none or the
      marker can be created or is there by now. It leaves the marker if and only if it was there, or all that holds and
      there is a hook. Otherwise it applies the hooks before the first that does not go well. */
  lemma PassIff(marker: bool, hs: seq<Hook>, event: string, env: Env)
    ensures var p, sorted := Exec(marker, hs, event, env), Sorted(ForEvent(hs, event));
      var full := AllGoWell(sorted, env) && AllCleared(sorted, env);
      && (p.ok <==> env.reachable && (marker || (full && (sorted == [] || env.creation != Refused))))
      && (p.marker <==> marker || (env.reachable && sorted != [] && full && env.creation != Refused))
      && (env.reachable && !marker && AllGoWell(sorted, env) ==> p.applied == sorted && p.attempted == sorted)
      && (env.reachable && !marker ==> forall i :: 0 <= i < |sorted| && FirstBad(sorted, i, env) ==>
            && p.applied == sorted[..i]
            && p.attempted == if Tried(sorted[i], i, env) then sorted[..i + 1] else sorted[..i])
  {
    var sorted := Sorted(ForEvent(hs, event));
    hide Sorted, ForEvent, Deletes, GoesWell, Tried, LoopActs, CleanActs;
    forall i | 0 <= i < |sorted|
      ensures StepOf(sorted[i], i, env) == Fine <==> GoesWell(sorted[i], i, env)
      ensures StepOf(sorted[i], i, env) == ApplyFails <==> Tried(sorted[i], i, env)
    {
      FineIffGoesWell(sorted[i], i, env);
    }
    hide StepOf;
    assert sorted[..|sorted|] == sorted;
  }

  /** Once a reachable call finds hooks for the event, all of which go well and are cleared, and its marker is not refused, no
      later call of any release in the namespace applies anything. */
  lemma FullPassSettles(calls: seq<Call>, i: nat, j: nat, event: string)
    requires i < j < |calls|
    requires var sorted, env := Sorted(ForEvent(calls[i].hooks, event)), calls[i].env;
      env.reachable && sorted != [] && AllGoWell(sorted, env) && AllCleared(sorted, env) && env.creation != Refused
    ensures PassAt(calls, j, event).attempted == []
  {
    hide Exec, Sorted, ForEvent, AllGoWell, AllCleared;
    PassIff(MarkerAfter(calls[..i], event), calls[i].hooks, event, calls[i].env);
    NothingAppliedTwice(calls, i, j, event);
  }

  /** The deletions that the policies ask for are made: before a hook that is applied, behind one that failed, and of all
      hooks when all succeeded. */
  lemma DeletionsAreMade(marker: bool, hs: seq<Hook>, event: string, env: Env, i: nat)
    requires var sorted := Sorted(ForEvent(hs, event)); env.reachable && !marker && i < |sorted|
    requires var sorted := Sorted(ForEvent(hs, event)); forall j :: 0 <= j < i ==> GoesWell(sorted[j], j, env)
    ensures var p, sorted := Exec(marker, hs, event, env), Sorted(ForEvent(hs, event));
      var h := sorted[i];
      && (Deletes(h, BeforeCreation) ==> Deleted(h, BeforeCreation, env.removed(i, BeforeCreation)) in p.acts)
      && (GoesWell(h, i, env) ==> Applied(h, true) in p.acts)
      && ((Deletes(h, BeforeCreation) ==> env.removed(i, BeforeCreation)) && env.recorded(i) && !env.accepted(i) ==>
            Applied(h, false) in p.acts && (Deletes(h, OnFailure) ==> Deleted(h, OnFailure, env.removed(i, OnFailure)) in p.acts))
      && (p.ok && Deletes(h, OnSuccess) ==> Deleted(h, OnSuccess, true) in p.acts)
  {
    var p, sorted := Exec(marker, hs, event, env), Sorted(ForEvent(hs, event));
    PassIff(marker, hs, event, env);
    hide Sorted, ForEvent, Deletes;
    forall j | 0 <= j < i ensures StepOf(sorted[j], j, env) == Fine { FineIffGoesWell(sorted[j], j, env); }
    var n := Reached(Prefix(sorted, |sorted|, env), |sorted|);
    assert i < n;
    LoopActsHave(sorted, n, env, i);
    HookActsAre(sorted[i], i, env);
    forall a | a in HookActs(sorted[i], i, env) ensures a in p.acts { assert a in LoopActs(sorted, n, env); }
    if p.ok && Deletes(sorted[i], OnSuccess) {
      CleanActsHave(sorted, |sorted|, env, i);
    }
    hide HookActs, LoopActs, CleanActs, StepOf;
  }

  lemma HookActsAre(h: Hook, i: nat, env: Env)
    ensures var acts := HookActs(h, i, env);
      && (Deletes(h, BeforeCreation) ==> Deleted(h, BeforeCreation, env.removed(i, BeforeCreation)) in acts)
      && (GoesWell(h, i, env) ==> Applied(h, true) in acts)
      && ((Deletes(h, BeforeCreation) ==> env.removed(i, BeforeCreation)) && env.recorded(i) && !env.accepted(i) ==>
            Applied(h, false) in acts && (Deletes(h, OnFailure) ==> Deleted(h, OnFailure, env.removed(i, OnFailure)) in acts))
  {
    hide Deletes;
  }

  lemma {:induction false} LoopActsHave(hs: seq<Hook>, n: nat, env: Env, i: nat)
    requires i < n <= |hs|
    ensures forall a :: a in HookActs(hs[i], i, env) ==> a in LoopActs(hs, n, env)
    decreases n
  {
    hide HookActs;
    if i < n - 1 { LoopActsHave(hs, n - 1, env, i); }
  }

  lemma {:induction false} CleanActsHave(hs: seq<Hook>, n: nat, env: Env, i: nat)
    requires i < n <= |hs| && Deletes(hs[i], OnSuccess)
    ensures Deleted(hs[i], OnSuccess, env.removed(i, OnSuccess)) in CleanActs(hs, n, env)
    decreases n
  {
    hide Deletes;
    if i < n - 1 { CleanActsHave(hs, n - 1, env, i); }
  }

  /** Each deletion follows a policy of its hook. */
  ghost predicate Allowed(a: Act) { a.Deleted? ==> Deletes(a.hook, a.policy) }

  /** A manifest is applied only behind a successful deletion of what an earlier run left, if the policy asks for it. */
  ghost predicate ClearedBefore(acts: seq<Act>) {
    forall i :: 0 <= i < |acts| && acts[i].Applied? && Deletes(acts[i].hook, BeforeCreation) ==>
      i > 0 && acts[i - 1] == Deleted(acts[i].hook, BeforeCreation, true)
  }

  /** What the hook loop may do: nothing against a policy, and no clearing of hooks that succeeded. */
  ghost predicate LoopAct(a: Act) { Allowed(a) && !(a.Deleted? && a.policy == OnSuccess) }

  predicate ClearsFailure(a: Act) { a.Deleted? && a.policy == OnFailure }

  lemma {:induction false} LoopActsLawful(hs: seq<Hook>, n: nat, env: Env)
    requires n <= |hs|
    ensures (forall a :: a in LoopActs(hs, n, env) ==> LoopAct(a)) && ClearedBefore(LoopActs(hs, n, env))
    decreases n
  {
    hide HookActs, LoopAct, ClearedBefore;
    if n > 0 {
      LoopActsLawful(hs, n - 1, env);
      HookActsLawful(hs[n - 1], n - 1, env);
      ClearedAppend(LoopActs(hs, n - 1, env), HookActs(hs[n - 1], n - 1, env));
    } else {
      NothingDone();
    }
  }

  lemma NothingDone()
    ensures ClearedBefore([])
  {}

  /** A failure is cleared for a hook that failed. */
  lemma {:induction false} FailuresCleared(hs: seq<Hook>, n: nat, env: Env, a: Act)
    requires n <= |hs| && a in LoopActs(hs, n, env) && ClearsFailure(a)
    ensures exists i :: 0 <= i < n && hs[i] == a.hook && StepOf(hs[i], i, env) == ApplyFails
    decreases n
  {
    hide HookActs, StepOf;
    HookActsLawful(hs[n - 1], n - 1, env);
    if a in LoopActs(hs, n - 1, env) { FailuresCleared(hs, n - 1, env, a); }
  }

  lemma HookActsLawful(h: Hook, i: nat, env: Env)
    ensures var acts := HookActs(h, i, env);
      && (forall a :: a in acts ==> LoopAct(a)) && ClearedBefore(acts)
      && (forall a :: a in acts && ClearsFailure(a) ==> a.hook == h && StepOf(h, i, env) == ApplyFails)
  {
    hide Deletes;
  }

  lemma ClearedAppend(a: seq<Act>, b: seq<Act>)
    requires ClearedBefore(a) && ClearedBefore(b)
    ensures ClearedBefore(a + b)
  {
    hide Deletes;
    forall i | 0 <= i < |a + b| && (a + b)[i].Applied? && Deletes((a + b)[i].hook, BeforeCreation)
      ensures i > 0 && (a + b)[i - 1] == Deleted((a + b)[i].hook, BeforeCreation, true)
    {
      if i >= |a| { assert b[i - |a|].Applied?; }
    }
  }

  lemma {:induction false} CleanActsLawful(hs: seq<Hook>, n: nat, env: Env)
    requires n <= |hs|
    ensures forall a :: a in CleanActs(hs, n, env) ==> a.Deleted? && a.policy == OnSuccess && Allowed(a)
    ensures ClearedBefore(CleanActs(hs, n, env))
    decreases n
  {
    hide Deletes;
    if n > 0 { CleanActsLawful(hs, n - 1, env); }
  }

  /** Deletions follow the policies: none without one and none of a resource definition, what an earlier run left goes
      before a manifest is applied, a failed hook is cleared only if it failed, and hooks that succeeded are cleared only
      when all of them have. */
  lemma DeletionsFollowPolicies(marker: bool, hs: seq<Hook>, event: string, env: Env)
    ensures var p, sorted := Exec(marker, hs, event, env), Sorted(ForEvent(hs, event));
      && (forall a :: a in p.acts ==> Allowed(a)) && ClearedBefore(p.acts)
      && (forall a :: a in p.acts && a.Deleted? && a.policy == OnSuccess ==> p.applied == sorted)
      && (forall a :: a in p.acts && ClearsFailure(a) ==>
            !p.ok && |p.applied| < |p.attempted| && a.hook == p.attempted[|p.applied|])
  {
    var p, sorted := Exec(marker, hs, event, env), Sorted(ForEvent(hs, event));
    hide Sorted, ForEvent, StepOf, Allowed, ClearedBefore, LoopActs, CleanActs;
    NothingDone();
    if env.reachable && !marker {
      var n := Prefix(sorted, |sorted|, env);
      var loop := LoopActs(sorted, Reached(n, |sorted|), env);
      LoopActsLawful(sorted, Reached(n, |sorted|), env);
      forall a | a in loop && ClearsFailure(a) ensures n < |sorted| && a.hook == sorted[n] && StepOf(sorted[n], n, env) == ApplyFails {
        FailuresCleared(sorted, Reached(n, |sorted|), env, a);
      }
      if n == |sorted| {
        var m := Reached(Cleared(sorted, |sorted|, env), |sorted|);
        CleanActsLawful(sorted, m, env);
        ClearedAppend(loop, CleanActs(sorted, m, env));
      }
      hide Prefix, Cleared;
    }
  }

  // ---------------------------------------------------------------- runs for one event and namespace

  /** A call for some release; different releases may share the namespace. */
  datatype Call = Call(hooks: seq<Hook>, env: Env)

  ghost function MarkerAfter(calls: seq<Call>, event: string): bool {
    if calls == [] then false
    else Exec(MarkerAfter(calls[..|calls| - 1], event), calls[|calls| - 1].hooks, event, calls[|calls| - 1].env).marker
  }

  ghost function PassAt(calls: seq<Call>, i: nat, event: string): Pass
    requires i < |calls|
  {
    Exec(MarkerAfter(calls[..i], event), calls[i].hooks, event, calls[i].env)
  }

  lemma {:induction false} MarkerStays(calls: seq<Call>, n: nat, event: string)
    requires n <= |calls| && MarkerAfter(calls[..n], event)
    ensures MarkerAfter(calls, event)
    decreases |calls|
  {
    hide Exec;
    if n == |calls| {
      assert calls[..n] == calls;
    } else {
      var init, last := calls[..|calls| - 1], calls[|calls| - 1];
      assert init[..n] == calls[..n];
      MarkerStays(init, n, event);
      PassIsOrdered(MarkerAfter(init, event), last.hooks, event, last.env);
    }
  }

  /** Once a call has created the marker, no later call applies a hook manifest, of whatever release. */
  lemma NothingAppliedTwice(calls: seq<Call>, i: nat, j: nat, event: string)
    requires i < j < |calls| && PassAt(calls, i, event).marker
    ensures PassAt(calls, j, event).attempted == []
  {
    hide Exec;
    assert calls[..i + 1][..i] == calls[..i];
    assert MarkerAfter(calls[..i + 1], event);
    assert calls[..j][..i + 1] == calls[..i + 1];
    MarkerStays(calls[..j], i + 1, event);
    PassIsOrdered(MarkerAfter(calls[..j], event), calls[j].hooks, event, calls[j].env);
  }

  /** The marker exists only if one call applied all hooks of its release, of which there was one, and recorded it. */
  lemma {:induction false} MarkerMeansApplied(calls: seq<Call>, event: string)
    ensures MarkerAfter(calls, event) ==> exists i :: 0 <= i < |calls| && Recorded(calls, i, event)
    decreases |calls|
  {
    hide Exec, Sorted, ForEvent, InOrder;
    if calls != [] && MarkerAfter(calls, event) {
      var n := |calls| - 1;
      var init := calls[..n];
      if MarkerAfter(init, event) {
        MarkerMeansApplied(init, event);
        var i :| 0 <= i < |init| && Recorded(init, i, event);
        assert init[..i] == calls[..i] && init[i] == calls[i];
        assert Recorded(calls, i, event);
      } else {
        PassIsOrdered(MarkerAfter(init, event), calls[n].hooks, event, calls[n].env);
        assert Recorded(calls, n, event);
      }
    }
  }

  ghost predicate Recorded(calls: seq<Call>, i: nat, event: string)
    requires i < |calls|
  {
    var sorted := Sorted(ForEvent(calls[i].hooks, event));
    sorted != [] && PassAt(calls, i, event).applied == sorted && PassAt(calls, i, event).marker
  }

  lemma RecordedInPrefix(calls: seq<Call>, i: nat, j: nat, event: string)
    requires j < i <= |calls|
    ensures Recorded(calls[..i], j, event) <==> Recorded(calls, j, event)
  {
    hide Exec, Sorted, ForEvent;
    assert calls[..i][..j] == calls[..j] && calls[..i][j] == calls[j];
  }

  lemma RecordedLeavesMarker(calls: seq<Call>, i: nat, j: nat, event: string)
    requires j < i <= |calls| && Recorded(calls, j, event)
    ensures MarkerAfter(calls[..i], event)
  {
    hide Exec, Sorted, ForEvent;
    var upTo := calls[..j + 1];
    assert upTo[..j] == calls[..j];
    assert calls[..i][..j + 1] == upTo;
    MarkerStays(calls[..i], j + 1, event);
  }

  lemma MarkerIff(calls: seq<Call>, i: nat, event: string)
    requires i <= |calls|
    ensures MarkerAfter(calls[..i], event) <==> exists j :: 0 <= j < i && Recorded(calls, j, event)
  {
    hide *;
    if MarkerAfter(calls[..i], event) {
      MarkerMeansApplied(calls[..i], event);
      var j :| 0 <= j < i && Recorded(calls[..i], j, event);
      RecordedInPrefix(calls, i, j, event);
    }
    if exists j :: 0 <= j < i && Recorded(calls, j, event) {
      var j :| 0 <= j < i && Recorded(calls, j, event);
      RecordedLeavesMarker(calls, i, j, event);
    }
  }

  /** Exactly when a successful call has applied all hooks of its release: there are none for the event, or no earlier call
      of any release in the namespace applied all of its own and recorded it. */
  lemma AllAppliedIff(calls: seq<Call>, i: nat, event: string)
    requires i < |calls| && PassAt(calls, i, event).ok
    ensures var sorted := Sorted(ForEvent(calls[i].hooks, event));
      PassAt(calls, i, event).applied == sorted <==>
        sorted == [] || forall j :: 0 <= j < i ==> !Recorded(calls, j, event)
  {
    hide Exec, Sorted, ForEvent, Recorded, InOrder;
    MarkerIff(calls, i, event);
    PassIsOrdered(MarkerAfter(calls[..i], event), calls[i].hooks, event, calls[i].env);
  }

  // ---------------------------------------------------------------- the code

  class Helmer {
    /** Whether the marker ConfigMap of the event exists in the namespace. */
    var marker: bool

    constructor ()
      ensures !marker
    {
      marker := false;
    }

    /** `deleteHookByPolicy` on hook `i`. */
    static method DeleteHookByPolicy(h: Hook, i: nat, p: Policy, env: Env) returns (acts: seq<Act>, ok: bool)
      ensures acts == DeleteActs(h, i, p, env) && (ok <==> Deletes(h, p) ==> env.removed(i, p))
    {
      if h.kind == "CustomResourceDefinition" { return [], true; }
      var policies := if h.policies == [] then [BeforeCreation] else h.policies;
      var found := false;
      for n := 0 to |policies|
        invariant found <==> p in policies[..n]
      {
        if policies[n] == p { found := true; }
      }
      assert policies[..|policies|] == policies;
      if !found { return [], true; }
      ok := env.removed(i, p);
      acts := [Deleted(h, p, ok)];
    }

    /** The hook loop. */
    static method ApplyAll(hooks: seq<Hook>, env: Env)
      returns (attempted: seq<Hook>, applied: seq<Hook>, acts: seq<Act>, ok: bool)
      ensures var n := Prefix(hooks, |hooks|, env);
        && (ok <==> n == |hooks|) && applied == hooks[..n]
        && attempted == hooks[..if n < |hooks| && StepOf(hooks[n], n, env) == ApplyFails then n + 1 else n]
        && acts == LoopActs(hooks, Reached(n, |hooks|), env)
    {
      hide Deletes, DeleteActs;
      attempted, applied, acts := [], [], [];
      for i := 0 to |hooks|
        invariant attempted == applied == hooks[..i] && acts == LoopActs(hooks, i, env)
        invariant forall j :: 0 <= j < i ==> StepOf(hooks[j], j, env) == Fine
      {
        assert LoopActs(hooks, i + 1, env) == acts + HookActs(hooks[i], i, env);
        var removal, removed := DeleteHookByPolicy(hooks[i], i, BeforeCreation, env);
        acts := acts + removal;
        if !removed { return attempted, applied, acts, false; }
        if !env.recorded(i) { return attempted, applied, acts, false; }
        attempted := attempted + [hooks[i]];
        acts := acts + [Applied(hooks[i], env.accepted(i))];
        if !env.accepted(i) {
          var clearing, cleared := DeleteHookByPolicy(hooks[i], i, OnFailure, env);
          return attempted, applied, acts + clearing, false;
        }
        applied := applied + [hooks[i]];
      }
      ok := true;
    }

    static method CleanAll(hooks: seq<Hook>, env: Env) returns (acts: seq<Act>, ok: bool)
      ensures var m := Cleared(hooks, |hooks|, env);
        (ok <==> m == |hooks|) && acts == CleanActs(hooks, Reached(m, |hooks|), env)
    {
      hide Deletes, DeleteActs;
      acts := [];
      for i := 0 to |hooks|
        invariant acts == CleanActs(hooks, i, env)
        invariant forall j :: 0 <= j < i ==> CleanedUp(hooks[j], j, env)
      {
        var more, cleaned := DeleteHookByPolicy(hooks[i], i, OnSuccess, env);
        acts := acts + more;
        if !cleaned { return acts, false; }
      }
      ok := true;
    }

    method ExecHook(hs: seq<Hook>, event: string, env: Env)
      returns (attempted: seq<Hook>, applied: seq<Hook>, acts: seq<Act>, ok: bool)
      modifies this
      ensures Pass(attempted, applied, acts, marker, ok) == Exec(old(marker), hs, event, env)
    {
      if !env.reachable { return [], [], [], false; }
      if marker { return [], [], [], true; }
      var hooks := Collect(hs, event);
      hooks := Sorted(hooks);
      hide Sorted, ForEvent, Prefix, Cleared, LoopActs, CleanActs, StepOf;
      attempted, applied, acts, ok := ApplyAll(hooks, env);
      if !ok { return; }
      assert hooks[..|hooks|] == hooks;
      var clearing;
      clearing, ok := CleanAll(hooks, env);
      acts := acts + clearing;
      if !ok { return; }
      if |hooks| > 0 {
        match env.creation {
          case Accepted => marker := true;
          case AlreadyExists => marker := true;
          case Refused => ok := false;
        }
      }
    }
  }
}
