/** controllers/specialresourcemodule_controller.go: the resumable chart executor and the status map
    that the module controller persists. Charts are lists of template names. */
module ModuleController {
  import opened Sequences
  import opened StringOrder
  import opened Assets
  import Strings

  /** What loading the chart gave. */
  datatype Load = LoadFailed | Loaded(templates: seq<string>)

  // ---------------------------------------------------------------- one pass of reconcileChart

  /** The state templates of a chart that are (not) in `input`, in chart order. */
  function States(ts: seq<string>, input: seq<string>, reconciled: bool): seq<string> {
    if ts == [] then []
    else if ValidStateName(ts[0]) && (ts[0] in input) == reconciled
    then [ts[0]] + States(ts[1..], input, reconciled)
    else States(ts[1..], input, reconciled)
  }

  function AllStates(ts: seq<string>): seq<string> { States(ts, [], false) }

  /** A pass: the list it returns, the templates it ran successfully, whether it returned no error. */
  datatype Pass = Pass(list: seq<string>, ran: seq<string>, ok: bool)

  /** `budget` is the number of steps that succeed before the first that fails. */
  function ChartPass(load: Load, input: seq<string>, budget: nat): Pass {
    if load.LoadFailed? then Pass([], [], false)
    else
      var todo := Sort(States(load.templates, input, false));
      if budget >= |todo| then Pass([], todo, true)
      else Pass(States(load.templates, input, true) + todo[..budget], todo[..budget], false)
  }

  lemma {:induction false} StatesSnoc(ts: seq<string>, i: nat, input: seq<string>, reconciled: bool)
    requires i < |ts|
    ensures States(ts[..i + 1], input, reconciled) == States(ts[..i], input, reconciled) +
      (if ValidStateName(ts[i]) && (ts[i] in input) == reconciled then [ts[i]] else [])
  {
    hide ValidStateName;
    if i == 0 {
      assert ts[..1] == [ts[0]];
      assert States(ts[..1][1..], input, reconciled) == [];
    } else {
      StatesSnoc(ts[1..], i - 1, input, reconciled);
      assert ts[..i + 1][1..] == ts[1..][..i] && ts[..i][1..] == ts[1..][..i - 1];
    }
  }

  /** The split of the chart's templates, in chart order. */
  method SplitStates(ts: seq<string>, input: seq<string>) returns (todo: seq<string>, already: seq<string>)
    ensures todo == States(ts, input, false) && already == States(ts, input, true)
  {
    todo, already := [], [];
    for i := 0 to |ts|
      invariant todo == States(ts[..i], input, false)
      invariant already == States(ts[..i], input, true)
    {
      StatesSnoc(ts, i, input, false);
      StatesSnoc(ts, i, input, true);
      if ValidStateName(ts[i]) {
        if ts[i] !in input {
          todo := todo + [ts[i]];
        } else {
          already := already + [ts[i]];
        }
      }
    }
    assert ts[..|ts|] == ts;
  }

  /** The step loop: runs `todo` in order and stops at the first failure. */
  method RunSteps(already: seq<string>, todo: seq<string>, budget: nat)
    returns (result: seq<string>, ran: seq<string>, ok: bool)
    ensures ok <==> budget >= |todo|
    ensures ok ==> result == [] && ran == todo
    ensures !ok ==> ran == todo[..budget] && result == already + todo[..budget]
  {
    result, ran := already, [];
    for i := 0 to |todo|
      invariant i <= budget
      invariant ran == todo[..i] && result == already + todo[..i]
    {
      if i == budget { return result, ran, false; }
      ran := ran + [todo[i]];
      result := result + [todo[i]];
    }
    return [], ran, true;
  }

  method ReconcileChart(load: Load, input: seq<string>, budget: nat)
    returns (result: seq<string>, ran: seq<string>, ok: bool)
    ensures Pass(result, ran, ok) == ChartPass(load, input, budget)
  {
    if load.LoadFailed? { return [], [], false; }
    var todo, already := SplitStates(load.templates, input);
    var sorted := Sort(todo);
    result, ran, ok := RunSteps(already, sorted, budget);
  }

  // ---------------------------------------------------------------- resuming after failures

  lemma {:induction false} StatesMembers(ts: seq<string>, input: seq<string>, reconciled: bool)
    ensures forall t :: t in States(ts, input, reconciled) <==>
              t in ts && ValidStateName(t) && (t in input) == reconciled
  {
    if ts != [] {
      assert ts == [ts[0]] + ts[1..];
      assert forall t :: t in ts <==> t == ts[0] || t in ts[1..];
      StatesMembers(ts[1..], input, reconciled);
    }
  }

  lemma {:induction false} StatesDistinct(ts: seq<string>, input: seq<string>, reconciled: bool)
    requires Distinct(AllStates(ts))
    ensures Distinct(States(ts, input, reconciled))
  {
    if ts != [] {
      var tail := States(ts[1..], input, reconciled);
      if ValidStateName(ts[0]) {
        assert AllStates(ts) == [ts[0]] + AllStates(ts[1..]);
        assert AllStates(ts)[1..] == AllStates(ts[1..]);
        DistinctTail(AllStates(ts));
        StatesMembers(ts[1..], [], false);
        StatesMembers(ts[1..], input, reconciled);
        assert ts[0] !in tail;
      }
      StatesDistinct(ts[1..], input, reconciled);
    }
  }

  /** `s` lists the state templates of `ts` once each, in ascending name order. */
  ghost predicate Ranks(s: seq<string>, ts: seq<string>) {
    && Distinct(s)
    && (forall t :: t in s <==> t in ts && ValidStateName(t))
    && Ascending(s, Self)
  }

  lemma SortedStatesRank(ts: seq<string>)
    requires Distinct(AllStates(ts))
    ensures Ranks(Sort(AllStates(ts)), ts)
  {
    var all := AllStates(ts);
    var s := Sort(all);
    DistinctMultiset(all);
    DistinctFromCounts(s);
    SortAscends(all, Self);
    StatesMembers(ts, [], false);
    forall t ensures t in s <==> t in all { assert t in multiset(s) <==> t in multiset(all); }
  }

  /** `list` is a record of the first k states of `s`. */
  ghost predicate Records(list: seq<string>, s: seq<string>, k: nat) {
    && |list| == k <= |s|
    && Distinct(list)
    && (forall t :: t in list <==> t in s[..k])
  }

  lemma RemainingMembers(ts: seq<string>, s: seq<string>, list: seq<string>, k: nat)
    requires Distinct(AllStates(ts)) && Ranks(s, ts) && Records(list, s, k)
    ensures multiset(States(ts, list, false)) == multiset(s[k..])
  {
    var todo := States(ts, list, false);
    StatesMembers(ts, list, false);
    StatesDistinct(ts, list, false);
    forall t ensures t in todo <==> t in s[k..] { InSuffix(s, k, t); }
    assert Distinct(s[k..]);
    SameMultiset(todo, s[k..]);
  }

  lemma AscendingSuffix(s: seq<string>, k: nat)
    requires k <= |s| && Ascending(s, Self)
    ensures Ascending(s[k..], Self)
  {
    forall i, j | 0 <= i < j < |s[k..]| ensures Leq(Self(s[k..][i]), Self(s[k..][j])) {
      assert Leq(Self(s[k + i]), Self(s[k + j]));
    }
  }

  /** With the first k states (in name order) recorded, what remains is the other states in name order. */
  lemma RemainingIsSuffix(ts: seq<string>, s: seq<string>, list: seq<string>, k: nat)
    requires Distinct(AllStates(ts)) && Ranks(s, ts) && Records(list, s, k)
    ensures Sort(States(ts, list, false)) == s[k..]
  {
    var todo := States(ts, list, false);
    RemainingMembers(ts, s, list, k);
    AscendingSuffix(s, k);
    SortAscends(todo, Self);
    AscendingUnique(Sort(todo), s[k..]);
  }

  lemma RecordsAgain(ts: seq<string>, s: seq<string>, list: seq<string>, k: nat, n: nat)
    requires Distinct(AllStates(ts)) && Ranks(s, ts) && Records(list, s, k) && k + n <= |s|
    ensures Records(States(ts, list, true) + s[k..k + n], s, k + n)
  {
    var kept, more := States(ts, list, true), s[k..k + n];
    StatesMembers(ts, list, true);
    StatesDistinct(ts, list, true);
    forall t ensures t in kept <==> t in list {
      if t in list { assert t in s[..k] && t in s; }
    }
    SameMultiset(kept, list);
    assert |kept| == |multiset(kept)| == |multiset(list)| == |list|;
    assert s[..k + n] == s[..k] + more;
    forall t | t in more ensures t !in kept { InMiddle(s, k, n, t); }
    assert Distinct(more);
    DistinctConcat(kept, more);
  }

  function Min(a: nat, b: nat): nat { if a < b then a else b }

  /** A pass from a record of k states succeeds on the next ones in name order, and returns either no
      error or a record of all that are done. */
  lemma PassExtendsRecord(ts: seq<string>, s: seq<string>, list: seq<string>, k: nat, budget: nat)
    requires Distinct(AllStates(ts)) && Ranks(s, ts) && Records(list, s, k)
    ensures var p := ChartPass(Loaded(ts), list, budget);
      var k' := k + Min(budget, |s| - k);
      && p.ran == s[k..k']
      && (p.ok <==> budget >= |s| - k)
      && (p.ok ==> p.list == [])
      && (!p.ok ==> Records(p.list, s, k'))
  {
    hide Sort, States, Ranks, Distinct;
    RemainingIsSuffix(ts, s, list, k);
    assert |s[k..]| == |s| - k;
    if budget < |s| - k {
      RecordsAgain(ts, s, list, k, budget);
      assert s[k..][..budget] == s[k..k + budget];
    } else {
      assert s[k..] == s[k..|s|];
    }
  }

  /** One call in a series of calls on the same chart. */
  datatype Attempt = Attempt(loads: bool, budget: nat)

  datatype Progress = Progress(list: seq<string>, ran: seq<string>, done: bool)

  /** Feeds the list each failing call returns into the next, from an empty list, until one succeeds. */
  function Resume(ts: seq<string>, attempts: seq<Attempt>): Progress {
    if attempts == [] then Progress([], [], false)
    else
      var before := Resume(ts, attempts[..|attempts| - 1]);
      var a := attempts[|attempts| - 1];
      if before.done then before
      else
        var p := ChartPass(if a.loads then Loaded(ts) else LoadFailed, before.list, a.budget);
        Progress(p.list, before.ran + p.ran, p.ok)
  }

  /** The list after any series of failing calls records the first states in name order. A call that loads
      the chart extends the record by its successes; a call that cannot load it forgets all of it. */
  lemma {:induction false} ResumeRecords(ts: seq<string>, s: seq<string>, attempts: seq<Attempt>)
    requires Distinct(AllStates(ts)) && Ranks(s, ts)
    ensures var p := Resume(ts, attempts); !p.done ==> Records(p.list, s, |p.list|)
    decreases |attempts|
  {
    if attempts != [] {
      var init, a := attempts[..|attempts| - 1], attempts[|attempts| - 1];
      var p := Resume(ts, init);
      ResumeRecords(ts, s, init);
      if !p.done && a.loads { PassExtendsRecord(ts, s, p.list, |p.list|, a.budget); }
    }
  }

  lemma ResumeStep(ts: seq<string>, s: seq<string>, init: seq<Attempt>, a: Attempt)
    requires Distinct(AllStates(ts)) && Ranks(s, ts) && a.loads && !Resume(ts, init).done
    ensures var p, q := Resume(ts, init), Resume(ts, init + [a]);
      var k := |p.list|;
      && k <= |s|
      && var k' := k + Min(a.budget, |s| - k);
      && q.ran == p.ran + s[k..k']
      && (q.done <==> a.budget >= |s| - k)
      && (q.done ==> q.list == [])
      && (!q.done ==> Records(q.list, s, k'))
  {
    hide ChartPass, Ranks, Distinct;
    assert (init + [a])[..|init + [a]| - 1] == init;
    ResumeRecords(ts, s, init);
    PassExtendsRecord(ts, s, Resume(ts, init).list, |Resume(ts, init).list|, a.budget);
  }

  /** Without a failed load, the number of finished templates grows by the successes of the call. */
  lemma ProgressIsMonotone(ts: seq<string>, s: seq<string>, init: seq<Attempt>, a: Attempt)
    requires Distinct(AllStates(ts)) && Ranks(s, ts) && a.loads && !Resume(ts, init).done
    ensures var p, q := Resume(ts, init), Resume(ts, init + [a]);
      && |p.list| <= |s|
      && (q.done <==> a.budget >= |s| - |p.list|)
      && (!q.done ==> |q.list| == |p.list| + a.budget && forall t :: t in p.list ==> t in q.list)
  {
    assert (init + [a])[..|init + [a]| - 1] == init;
    var p, q := Resume(ts, init), Resume(ts, init + [a]);
    ResumeRecords(ts, s, init);
    PassExtendsRecord(ts, s, p.list, |p.list|, a.budget);
    RemainingIsSuffix(ts, s, p.list, |p.list|);
    if !q.done {
      assert s[..|p.list|] <= s[..|q.list|];
      forall t | t in p.list ensures t in q.list { assert t in s[..|p.list|]; }
    }
  }

  /** How often a failed load forgot that `t` was done. */
  ghost function Lost(ts: seq<string>, attempts: seq<Attempt>, t: string): nat {
    if attempts == [] then 0
    else
      var init, a := attempts[..|attempts| - 1], attempts[|attempts| - 1];
      var p := Resume(ts, init);
      Lost(ts, init, t) + if !p.done && !a.loads && t in p.list then 1 else 0
  }

  lemma RecordCount(s: seq<string>, list: seq<string>, k: nat, k': nat, t: string)
    requires Distinct(s) && Records(list, s, k) && k <= k' <= |s|
    ensures (if t in list then 1 else 0) + multiset(s[k..k'])[t] == if t in s[..k'] then 1 else 0
  {
    assert s[..k'] == s[..k] + s[k..k'];
    assert Distinct(s[..k']) && Distinct(s[..k]);
    DistinctMultiset(s[..k']);
    DistinctMultiset(s[..k]);
  }

  /** Conservation: a state template has succeeded once if it counts as done now, plus once for every
      failed load that forgot it. */
  lemma {:induction false} SuccessesAreCounted(ts: seq<string>, s: seq<string>, attempts: seq<Attempt>, t: string)
    requires Distinct(AllStates(ts)) && Ranks(s, ts) && t in s
    ensures var p := Resume(ts, attempts);
      multiset(p.ran)[t] == Lost(ts, attempts, t) + if p.done || t in p.list then 1 else 0
    decreases |attempts|
  {
    hide Resume, ChartPass, Distinct, Ranks;
    ResumeNothing(ts);
    if attempts != [] {
      var init, a := attempts[..|attempts| - 1], attempts[|attempts| - 1];
      SuccessesAreCounted(ts, s, init, t);
      var p, q := Resume(ts, init), Resume(ts, attempts);
      assert init + [a] == attempts;
      ResumeSettled(ts, init, a);
      if !p.done && a.loads { CountStep(ts, s, init, a, t); }
    }
  }

  lemma CountStep(ts: seq<string>, s: seq<string>, init: seq<Attempt>, a: Attempt, t: string)
    requires Distinct(AllStates(ts)) && Ranks(s, ts) && t in s && a.loads && !Resume(ts, init).done
    ensures var p, q := Resume(ts, init), Resume(ts, init + [a]);
      multiset(q.ran)[t] + (if t in p.list then 1 else 0) == multiset(p.ran)[t] + if q.done || t in q.list then 1 else 0
  {
    hide Resume, ChartPass, Distinct, Ascending, ValidStateName;
    var p, q := Resume(ts, init), Resume(ts, init + [a]);
    var k := |p.list|;
    ResumeRecords(ts, s, init);
    ResumeStep(ts, s, init, a);
    var k' := k + Min(a.budget, |s| - k);
    assert multiset(q.ran) == multiset(p.ran) + multiset(s[k..k']);
    RecordCount(s, p.list, k, k', t);
    PrefixExtends(s, k, k');
  }

  /** No load fails while there is progress to forget. */
  ghost predicate NothingForgotten(ts: seq<string>, attempts: seq<Attempt>) {
    attempts == [] ||
    (var init, a := attempts[..|attempts| - 1], attempts[|attempts| - 1];
     NothingForgotten(ts, init) && (a.loads || Resume(ts, init).done || Resume(ts, init).list == []))
  }

  /** If nothing is forgotten, the successes over all calls are the states in name order, each once. */
  lemma {:induction false} RunsInOrder(ts: seq<string>, s: seq<string>, attempts: seq<Attempt>)
    requires Distinct(AllStates(ts)) && Ranks(s, ts) && NothingForgotten(ts, attempts)
    ensures var p := Resume(ts, attempts);
      |p.list| <= |s| && p.ran == if p.done then s else s[..|p.list|]
    decreases |attempts|
  {
    hide Resume, ChartPass, Distinct, Ranks;
    ResumeNothing(ts);
    if attempts != [] {
      var init, a := attempts[..|attempts| - 1], attempts[|attempts| - 1];
      var p := Resume(ts, init);
      assert init + [a] == attempts;
      assert NothingForgotten(ts, init) && (a.loads || p.done || p.list == []);
      hide NothingForgotten, AllStates;
      RunsInOrder(ts, s, init);
      if p.done {
        ResumeSettled(ts, init, a);
      } else if a.loads {
        ResumeStep(ts, s, init, a);
        PrefixExtends(s, |p.list|, |p.list| + Min(a.budget, |s| - |p.list|));
      } else {
        ResumeSettled(ts, init, a);
      }
    }
  }

  lemma ResumeNothing(ts: seq<string>)
    ensures Resume(ts, []) == Progress([], [], false)
  {}

  lemma ResumeSettled(ts: seq<string>, init: seq<Attempt>, a: Attempt)
    ensures var p, q := Resume(ts, init), Resume(ts, init + [a]);
      && (p.done ==> q == p)
      && (!p.done && !a.loads ==> q == Progress([], p.ran, false))
  {
    assert (init + [a])[..|init + [a]| - 1] == init;
  }

  /** When the series ends without error, the successes are the states in name order, each exactly once,
      if and only if no load failed while there was progress to forget. */
  lemma ExactlyOnceIff(ts: seq<string>, attempts: seq<Attempt>)
    requires Distinct(AllStates(ts)) && Resume(ts, attempts).done
    ensures Resume(ts, attempts).ran == Sort(AllStates(ts)) <==> NothingForgotten(ts, attempts)
  {
    var s := Sort(AllStates(ts));
    SortedStatesRank(ts);
    if NothingForgotten(ts, attempts) {
      RunsInOrder(ts, s, attempts);
    } else {
      ForgottenRepeats(ts, s, attempts);
    }
  }

  lemma ForgottenRepeats(ts: seq<string>, s: seq<string>, attempts: seq<Attempt>)
    requires Distinct(AllStates(ts)) && Ranks(s, ts) && Resume(ts, attempts).done
    requires !NothingForgotten(ts, attempts)
    ensures Resume(ts, attempts).ran != s
  {
    hide Resume;
    var t := ForgottenIsLost(ts, s, attempts);
    SuccessesAreCounted(ts, s, attempts, t);
    DistinctMultiset(s);
    assert multiset(Resume(ts, attempts).ran)[t] >= 2 && multiset(s)[t] == 1;
  }

  lemma {:induction false} ForgottenIsLost(ts: seq<string>, s: seq<string>, attempts: seq<Attempt>) returns (t: string)
    requires Distinct(AllStates(ts)) && Ranks(s, ts) && !NothingForgotten(ts, attempts)
    ensures t in s && Lost(ts, attempts, t) >= 1
    decreases |attempts|
  {
    var init, a := attempts[..|attempts| - 1], attempts[|attempts| - 1];
    if NothingForgotten(ts, init) {
      var p := Resume(ts, init);
      ResumeRecords(ts, s, init);
      t := p.list[0];
      assert t in s[..|p.list|];
    } else {
      t := ForgottenIsLost(ts, s, init);
    }
  }

  /** The failing family exists: one success, a failed load, and the template runs a second time. */
  lemma FailedLoadRepeatsWork()
    ensures exists ts, attempts :: Distinct(AllStates(ts)) && Resume(ts, attempts).done
              && Resume(ts, attempts).ran != Sort(AllStates(ts))
  {
    hide *;
    TwoStates();
    var ts, attempts := ["0000-a.yaml", "0001-b.yaml"], [Attempt(true, 1), Attempt(false, 0), Attempt(true, 2)];
    ForgetfulSeries(ts, attempts);
    ExactlyOnceIff(ts, attempts);
  }

  lemma ForgetfulSeries(ts: seq<string>, attempts: seq<Attempt>)
    requires attempts == [Attempt(true, 1), Attempt(false, 0), Attempt(true, 2)]
    requires Distinct(AllStates(ts)) && |AllStates(ts)| == 2
    ensures Resume(ts, attempts).done && !NothingForgotten(ts, attempts)
  {
    var s := Sort(AllStates(ts));
    SortedStatesRank(ts);
    var none, one, two := attempts[..0], attempts[..1], attempts[..2];
    assert attempts[..|attempts| - 1] == two && two[..|two| - 1] == one;
    assert none + [attempts[0]] == one && two + [attempts[2]] == attempts;
    ResumeStep(ts, s, none, attempts[0]);
    assert !Resume(ts, two).done && Resume(ts, two).list == [];
    ResumeStep(ts, s, two, attempts[2]);
  }

  lemma TwoStates()
    ensures AllStates(["0000-a.yaml", "0001-b.yaml"]) == ["0000-a.yaml", "0001-b.yaml"]
    ensures Distinct(AllStates(["0000-a.yaml", "0001-b.yaml"]))
  {
    var a, b := "0000-a.yaml", "0001-b.yaml";
    assert a != b by { assert a[3] != b[3]; }
    assert a == "0000" + "-" + "a" + ".yaml" && b == "0001" + "-" + "b" + ".yaml";
    StateName("0000", "a");
    StateName("0001", "b");
    TwoValid(a, b);
  }

  /** Four digits, a dash, a plain name and the extension make a state name. */
  lemma StateName(digits: string, rest: string)
    requires |digits| == 4 && (forall c :: c in digits ==> Strings.Digit(c)) && '/' !in rest && '\n' !in rest
    ensures ValidStateName(digits + "-" + rest + ".yaml")
  {
    var name := digits + "-" + rest + ".yaml";
    assert digits + ['-'] + rest + ".yaml" == name;
    assert StateParts(name, digits, '-', rest);
    NamesInDirectory("", name);
  }

  lemma TwoValid(a: string, b: string)
    requires ValidStateName(a) && ValidStateName(b) && a != b
    ensures AllStates([a, b]) == [a, b] && Distinct(AllStates([a, b]))
  {
    hide ValidStateName;
    var pair, single: seq<string> := [a, b], [b];
    assert pair[1..] == single && single[1..] == [];
    assert States(single, [], false) == single;
    assert States(pair, [], false) == [a] + single;
  }
}
