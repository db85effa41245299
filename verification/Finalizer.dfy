/** controllers/label_nodes.go and internal/controllers/finalizers/specialresource.go: node labels of states, their removal,
    and when the finalizer is taken off a SpecialResource. */
module Finalizer {
  import opened Strings
  import opened Assets
  import ChartStates

  type Labels = map<string, string>

  const FINALIZER := "sro.openshift.io/finalizer"
  const OLD_FINALIZER := "finalizer.sro.openshift.io"

  /** The API server's answer to a node update. */
  datatype Answer = Accepted | Forbidden | Conflict | OtherError

  // ---------------------------------------------------------------- labels

  /** The nodes in `on` carry the label of a state. */
  function Labelled(nodes: map<string, Labels>, on: set<string>, key: string): map<string, Labels> {
    map n | n in nodes :: if n in on then nodes[n][key := "Ready"] else nodes[n]
  }

  /** One state's labelling: nodes come and go between the states, as taints are set and lifted. */
  datatype Labelling = Labelling(on: set<string>, key: string)

  function LabelledAll(nodes: map<string, Labels>, steps: seq<Labelling>): (r: map<string, Labels>)
    ensures r.Keys == nodes.Keys
  {
    if steps == [] then nodes
    else Labelled(LabelledAll(nodes, steps[..|steps| - 1]), steps[|steps| - 1].on, steps[|steps| - 1].key)
  }

  function Stripped(labels: Labels, remove: string): Labels {
    map k | k in labels && !Contains(k, remove) :: labels[k]
  }

  function Cleaned(nodes: map<string, Labels>, on: set<string>, remove: string): map<string, Labels> {
    map n | n in nodes :: if n in on then Stripped(nodes[n], remove) else nodes[n]
  }

  /** What finalizing resource `name` removes: every label whose key contains this. */
  function StatePrefix(name: string): string { "specialresource.openshift.io/state-" + name }

  lemma StateLabelHasPrefix(resource: string, template: string)
    requires ValidStateName(template)
    ensures Contains(ChartStates.StateLabel(resource, template), StatePrefix(resource))
  {
    FinalizeTakesLongerNames(resource, "", template);
    assert resource + "" == resource;
  }

  /** Labels that contain `remove` leave no trace behind a clean-up of the node. */
  lemma {:induction false} CleaningForgetsLabels(nodes: map<string, Labels>, steps: seq<Labelling>, remove: string,
                                                 n: string)
    requires n in nodes && forall i :: 0 <= i < |steps| ==> Contains(steps[i].key, remove)
    ensures Stripped(LabelledAll(nodes, steps)[n], remove) == Stripped(nodes[n], remove)
    decreases |steps|
  {
    hide Contains;
    if steps != [] {
      var init, last := steps[..|steps| - 1], steps[|steps| - 1];
      CleaningForgetsLabels(nodes, init, remove, n);
      var before := LabelledAll(nodes, init)[n];
      assert Stripped(before[last.key := "Ready"], remove) == Stripped(before, remove);
    }
  }

  /** Some step puts label `k` on node `n`. */
  ghost predicate Puts(steps: seq<Labelling>, n: string, k: string) {
    exists i :: 0 <= i < |steps| && n in steps[i].on && steps[i].key == k
  }

  lemma PutsNext(steps: seq<Labelling>, n: string, k: string)
    requires steps != []
    ensures var last := steps[|steps| - 1];
      Puts(steps, n, k) <==> Puts(steps[..|steps| - 1], n, k) || (n in last.on && last.key == k)
  {
    assert forall i :: 0 <= i < |steps| - 1 ==> steps[..|steps| - 1][i] == steps[i];
  }

  /** The labels of a node behind the states: "Ready" where a state put one, and otherwise what was there. */
  lemma {:induction false} LabelsOf(nodes: map<string, Labels>, steps: seq<Labelling>, n: string, k: string)
    requires n in nodes
    ensures var now := LabelledAll(nodes, steps)[n];
      && (k in now <==> k in nodes[n] || Puts(steps, n, k))
      && (k in now ==> now[k] == if Puts(steps, n, k) then "Ready" else nodes[n][k])
    decreases |steps|
  {
    if steps != [] {
      PutsNext(steps, n, k);
      hide Puts;
      LabelsOf(nodes, steps[..|steps| - 1], n, k);
    }
  }

  /** The node had every label that the states put on it. */
  ghost predicate HadLabels(labels: Labels, steps: seq<Labelling>, n: string) {
    forall i :: 0 <= i < |steps| && n in steps[i].on ==> steps[i].key in labels && labels[steps[i].key] == "Ready"
  }

  lemma LabellingKeepsIff(nodes: map<string, Labels>, steps: seq<Labelling>, n: string)
    requires n in nodes
    ensures LabelledAll(nodes, steps)[n] == nodes[n] <==> HadLabels(nodes[n], steps, n)
  {
    var now := LabelledAll(nodes, steps)[n];
    hide LabelledAll;
    if HadLabels(nodes[n], steps, n) {
      forall k ensures (k in now <==> k in nodes[n]) && (k in now ==> now[k] == nodes[n][k]) { LabelsOf(nodes, steps, n, k); }
    }
    if now == nodes[n] {
      forall i | 0 <= i < |steps| && n in steps[i].on ensures steps[i].key in now && now[steps[i].key] == "Ready" {
        assert Puts(steps, n, steps[i].key);
        LabelsOf(nodes, steps, n, steps[i].key);
      }
    }
  }

  /** Each state puts its own label of the resource. */
  ghost predicate LabelsStates(steps: seq<Labelling>, resource: string, templates: seq<string>) {
    && |steps| == |templates|
    && forall i :: 0 <= i < |templates| ==>
         ValidStateName(templates[i]) && steps[i].key == ChartStates.StateLabel(resource, templates[i])
  }

  /** The node is clean of the prefix before, if it is cleaned behind; else it had every label it was given. */
  ghost predicate Restorable(labels: Labels, steps: seq<Labelling>, cleaned: set<string>, remove: string, n: string) {
    if n in cleaned then forall k :: k in labels ==> !Contains(k, remove) else HadLabels(labels, steps, n)
  }

  lemma NodeRestoredIff(nodes: map<string, Labels>, steps: seq<Labelling>, cleaned: set<string>, remove: string,
                        n: string)
    requires n in nodes && forall i :: 0 <= i < |steps| ==> Contains(steps[i].key, remove)
    ensures Cleaned(LabelledAll(nodes, steps), cleaned, remove)[n] == nodes[n] <==>
            Restorable(nodes[n], steps, cleaned, remove, n)
  {
    hide Contains, LabelledAll, HadLabels;
    CleaningForgetsLabels(nodes, steps, remove, n);
    LabellingKeepsIff(nodes, steps, n);
    StrippingKeepsIff(nodes[n], remove);
    hide Stripped;
  }

  /** A clean-up takes the labels whose key has the prefix in it anywhere, and leaves the others as they are. */
  lemma StrippedIs(labels: Labels, remove: string, k: string)
    ensures k in Stripped(labels, remove) <==> k in labels && !exists a, b :: k == a + remove + b
    ensures k in Stripped(labels, remove) ==> Stripped(labels, remove)[k] == labels[k]
  {
    ContainsIff(k, remove);
    hide Contains;
  }

  lemma StrippingKeepsIff(labels: Labels, remove: string)
    ensures Stripped(labels, remove) == labels <==> forall k :: k in labels ==> !Contains(k, remove)
  {
    hide Contains;
    if Stripped(labels, remove) == labels {
      forall k | k in labels ensures !Contains(k, remove) { assert k in Stripped(labels, remove); }
    }
  }

  /** Labelling nodes with any sequence of states and finalizing restores every label exactly, if and only if no node that
      is cleaned had a label containing the resource's state prefix to begin with, and each node that was labelled but is
      not cleaned, because it was tainted in between or its update was not accepted, had those very labels before. */
  lemma RoundTripIff(nodes: map<string, Labels>, steps: seq<Labelling>, cleaned: set<string>, resource: string,
                     templates: seq<string>)
    requires LabelsStates(steps, resource, templates)
    ensures Cleaned(LabelledAll(nodes, steps), cleaned, StatePrefix(resource)) == nodes <==>
            forall n :: n in nodes ==> Restorable(nodes[n], steps, cleaned, StatePrefix(resource), n)
  {
    var remove := StatePrefix(resource);
    forall i | 0 <= i < |steps| ensures Contains(steps[i].key, remove) { StateLabelHasPrefix(resource, templates[i]); }
    var after := Cleaned(LabelledAll(nodes, steps), cleaned, remove);
    assert after.Keys == nodes.Keys;
    hide *;
    forall n | n in nodes ensures after[n] == nodes[n] <==> Restorable(nodes[n], steps, cleaned, remove, n) {
      NodeRestoredIff(nodes, steps, cleaned, remove, n);
    }
  }

  /** If every node that was labelled is cleaned, that comes down to: no label contained the prefix before. */
  lemma RoundTripOnSameNodesIff(nodes: map<string, Labels>, steps: seq<Labelling>, cleaned: set<string>,
                                resource: string,
                                templates: seq<string>)
    requires LabelsStates(steps, resource, templates) && forall i :: 0 <= i < |steps| ==> steps[i].on <= cleaned
    ensures Cleaned(LabelledAll(nodes, steps), cleaned, StatePrefix(resource)) == nodes <==>
            forall n, k :: n in nodes && n in cleaned && k in nodes[n] ==> !Contains(k, StatePrefix(resource))
  {
    RoundTripIff(nodes, steps, cleaned, resource, templates);
    hide Contains, StatePrefix, LabelledAll, Cleaned;
  }

  /** Finalizing a resource also removes the state labels of any resource whose name extends its name. */
  lemma FinalizeTakesLongerNames(resource: string, more: string, template: string)
    requires ValidStateName(template)
    ensures Contains(ChartStates.StateLabel(resource + more, template), StatePrefix(resource))
  {
    LongerContains("specialresource.openshift.io/state-", resource, more, StateDigits(template));
    hide StateDigits, ValidStateName, Contains;
  }

  lemma LongerContains(head: string, resource: string, more: string, digits: string)
    ensures Contains(head + (resource + more) + "-" + digits, head + resource)
  {
    ContainsMiddle("", head + resource, more + "-" + digits);
    assert "" + (head + resource) + (more + "-" + digits) == head + (resource + more) + "-" + digits;
  }

  /** Both strings start with a part that ends in the only `c` of the longer one: then containing is starting with. */
  lemma ContainsIsPrefix(head: string, c: char, tail: string, name: string)
    requires c !in head && c !in tail
    ensures Contains(head + [c] + tail, head + [c] + name) <==> name <= tail
  {
    var whole, part := head + [c] + tail, head + [c] + name;
    if Contains(whole, part) {
      var i :| 0 <= i <= |whole| && OccursAt(whole, part, i);
      assert part[|head|] == c && whole[i..i + |part|] == part;
      assert whole[i + |head|] == c;
      assert i == 0;
      assert forall n :: 0 <= n < |name| ==> part[|head| + 1 + n] == name[n] && whole[|head| + 1 + n] == tail[n];
    }
    if name <= tail {
      assert whole == "" + part + tail[|name|..];
      ContainsMiddle("", part, tail[|name|..]);
    }
  }

  /** The part of a label key before the slash; the name follows behind `state-`. */
  const DOMAIN := "specialresource.openshift.io"

  lemma DomainHasNoSlash()
    ensures '/' !in DOMAIN
  {}

  /** Finalizing `resource` removes the label of state `template` of resource `other` if and only if the name starts the
      other's name, dash and digits. Names of Kubernetes objects have no slash. */
  lemma FinalizeTakesIff(resource: string, other: string, template: string)
    requires ValidStateName(template) && '/' !in other
    ensures Contains(ChartStates.StateLabel(other, template), StatePrefix(resource)) <==>
            resource <= other + "-" + StateDigits(template)
  {
    LabelParts(resource, other, template);
    DomainHasNoSlash();
    var rest := other + "-" + StateDigits(template);
    assert '/' !in StateDigits(template) by { assert forall c :: c in StateDigits(template) ==> Strings.Digit(c); }
    hide *;
    ContainsIsPrefix(DOMAIN, '/', "state-" + rest, "state-" + resource);
    BehindCommonHead("state-", resource, rest);
  }

  lemma LabelParts(resource: string, other: string, template: string)
    requires ValidStateName(template)
    ensures ChartStates.StateLabel(other, template) == DOMAIN + ['/'] + ("state-" + (other + "-" + StateDigits(template)))
    ensures StatePrefix(resource) == DOMAIN + ['/'] + ("state-" + resource)
  {
    hide StateDigits, ValidStateName;
  }

  lemma BehindCommonHead(head: string, a: string, b: string)
    ensures head + a <= head + b <==> a <= b
  {
    assert forall n :: 0 <= n < |a| ==> (head + a)[|head| + n] == a[n];
    assert forall n :: 0 <= n < |b| ==> (head + b)[|head| + n] == b[n];
  }

  /** Not only longer names: a resource that is called like another's label from some digit on, as `foo-0` beside `foo`,
      takes the label of the shorter name. */
  lemma FinalizeTakesShorterNames(other: string, template: string, n: nat)
    requires ValidStateName(template) && '/' !in other && n <= 4
    ensures var resource := other + "-" + StateDigits(template)[..n];
      |resource| > |other| && Contains(ChartStates.StateLabel(other, template), StatePrefix(resource))
  {
    var digits := StateDigits(template);
    hide StateDigits, ValidStateName, Contains, ChartStates.StateLabel, StatePrefix;
    FinalizeTakesIff(other + "-" + digits[..n], other, template);
  }

  // ---------------------------------------------------------------- the cluster

  /** The namespace lookup of the finalizer; `owners` are the kinds of its owners. */
  datatype Lookup = Absent | LookupFailed | Present(owners: seq<string>)

  /** The answers the finalizer gets. */
  datatype Env = Env(nodesListed: bool, answer: string -> Answer, namespace: Lookup,
                     deleted: nat -> bool, gone: nat -> bool, updated: bool)

  /** The namespace is absent, owned by no SpecialResource, or its deletion was accepted and seen through for each owner
      reference of that kind. */
  ghost predicate Released(env: Env) {
    match env.namespace
    case Absent => true
    case LookupFailed => false
    case Present(owners) => forall i :: 0 <= i < |owners| && owners[i] == "SpecialResource" ==> env.deleted(i) && env.gone(i)
  }

  predicate Hinders(a: Answer) { a == Forbidden || a == Conflict }

  /** No node update is forbidden or in conflict. */
  ghost predicate Unhindered(ns: seq<string>, answer: string -> Answer) {
    forall n :: n in ns ==> !Hinders(answer(n))
  }

  function Members(ns: seq<string>): set<string> { set n | n in ns }

  /** The nodes whose update was accepted. */
  function Updated(ns: seq<string>, answer: string -> Answer): set<string> { set n | n in ns && answer(n) == Accepted }

  function Without(fs: seq<string>, f: string): seq<string> {
    if fs == [] then [] else if fs[0] == f then Without(fs[1..], f) else [fs[0]] + Without(fs[1..], f)
  }

  /** The other finalizers keep their order. */
  lemma {:induction false} WithoutConcat(a: seq<string>, b: seq<string>, f: string)
    ensures Without(a + b, f) == Without(a, f) + Without(b, f)
    decreases |a|
  {
    if a == [] {
      assert a + b == b;
    } else {
      assert (a + b)[1..] == a[1..] + b;
      WithoutConcat(a[1..], b, f);
    }
  }

  lemma {:induction false} WithoutMembers(fs: seq<string>, f: string, g: string)
    ensures g in Without(fs, f) <==> g in fs && g != f
  {
    if fs != [] {
      assert fs == [fs[0]] + fs[1..];
      WithoutMembers(fs[1..], f, g);
    }
  }

  class Cluster {
    /** The labels of each node, as stored. */
    var nodes: map<string, Labels>
    /** The finalizers of the custom resource, as stored. */
    var finalizers: seq<string>

    /** `labelNodesAccordingToState`: stops at the first update that is not accepted. */
    method LabelNodes(selected: seq<string>, key: string, answer: string -> Answer) returns (ok: bool)
      requires forall n :: n in selected ==> n in nodes
      modifies this`nodes
      ensures ok <==> forall n :: n in selected ==> answer(n) == Accepted
      ensures ok ==> nodes == Labelled(old(nodes), Members(selected), key)
      ensures !ok ==> exists i ::
        0 <= i < |selected| && answer(selected[i]) != Accepted && nodes == Labelled(old(nodes), Members(selected[..i]), key)
    {
      ghost var before := nodes;
      for i := 0 to |selected|
        invariant nodes == Labelled(before, Members(selected[..i]), key)
        invariant forall n :: n in selected[..i] ==> answer(n) == Accepted
      {
        var n := selected[i];
        assert n in selected;
        assert selected[..i + 1] == selected[..i] + [n];
        if answer(n) != Accepted { return false; }
        nodes := nodes[n := nodes[n][key := "Ready"]];
        LabelledNext(before, selected, i, key);
      }
      assert selected[..|selected|] == selected;
      ok := true;
    }

    /** `finalizeNodes`: a forbidden or conflicting update stops it; any other failed update is passed over in silence. */
    method FinalizeNodes(selected: seq<string>, remove: string, answer: string -> Answer) returns (ok: bool)
      requires forall n :: n in selected ==> n in nodes
      modifies this`nodes
      ensures ok <==> Unhindered(selected, answer)
      ensures ok ==> nodes == Cleaned(old(nodes), Updated(selected, answer), remove)
      ensures !ok ==> exists i ::
        0 <= i < |selected| && Hinders(answer(selected[i])) && nodes == Cleaned(old(nodes), Updated(selected[..i], answer), remove)
    {
      hide Contains;
      ghost var before := nodes;
      for i := 0 to |selected|
        invariant nodes == Cleaned(before, Updated(selected[..i], answer), remove)
        invariant Unhindered(selected[..i], answer)
      {
        var n := selected[i];
        assert n in selected;
        assert selected[..i + 1] == selected[..i] + [n];
        var update := StripLabels(nodes[n], remove);
        CleanedNext(before, selected, i, remove, answer);
        if answer(n) == Accepted { nodes := nodes[n := update]; }
        if answer(n) == Forbidden || answer(n) == Conflict { return false; }
      }
      assert selected[..|selected|] == selected;
      ok := true;
    }

    /** The loop that rebuilds a label map, in any order. */
    static method StripLabels(labels: Labels, remove: string) returns (update: Labels)
      ensures update == Stripped(labels, remove)
    {
      hide Contains;
      update := map[];
      var todo := labels.Keys;
      while todo != {}
        invariant todo <= labels.Keys
        invariant update == map k | k in labels && k !in todo && !Contains(k, remove) :: labels[k]
      {
        var k :| k in todo;
        todo := todo - {k};
        if !Contains(k, remove) { update := update[k := labels[k]]; }
      }
    }

    /** `finalizeSpecialResource`. */
    method FinalizeSpecialResource(resource: string, selected: seq<string>, env: Env) returns (ok: bool)
      requires forall n :: n in selected ==> n in nodes
      modifies this`nodes
      ensures ok <==> env.nodesListed && Released(env) && Unhindered(selected, env.answer)
      ensures ok ==> nodes == Cleaned(old(nodes), Updated(selected, env.answer), StatePrefix(resource))
    {
      hide StatePrefix, Contains, Cleaned, Unhindered;
      if !env.nodesListed { return false; }
      var cleaned := FinalizeNodes(selected, StatePrefix(resource), env.answer);
      if !cleaned { return false; }
      match env.namespace {
        case Absent => return true;
        case LookupFailed => return false;
        case Present(owners) =>
          for i := 0 to |owners|
            invariant forall j :: 0 <= j < i && owners[j] == "SpecialResource" ==> env.deleted(j) && env.gone(j)
          {
            if owners[i] == "SpecialResource" {
              if !env.deleted(i) { return false; }
              if !env.gone(i) { return false; }
            }
          }
          return true;
      }
    }

    /** `controllerutil.RemoveFinalizer`. */
    static method RemoveFinalizer(fs: seq<string>, f: string) returns (r: seq<string>)
      ensures r == Without(fs, f)
    {
      r := [];
      assert fs[0..] == fs;
      for i := 0 to |fs|
        invariant Without(fs, f) == r + Without(fs[i..], f)
      {
        assert fs[i..][1..] == fs[i + 1..];
        if fs[i] != f { r := r + [fs[i]]; }
      }
    }

    /** The finalizer comes off the stored resource exactly when node clean-up returned without error, the namespace is
        released, and the update was accepted; and it never comes off before. */
    method Finalize(resource: string, selected: seq<string>, env: Env) returns (ok: bool)
      requires forall n :: n in selected ==> n in nodes
      modifies this
      ensures FINALIZER in old(finalizers) ==>
        (FINALIZER !in finalizers <==>
          && env.nodesListed && (forall n :: n in selected ==> env.answer(n) != Forbidden && env.answer(n) != Conflict)
          && (env.namespace.Absent? ||
              (env.namespace.Present? && forall i :: 0 <= i < |env.namespace.owners| && env.namespace.owners[i] == "SpecialResource" ==>
                                           env.deleted(i) && env.gone(i)))
          && env.updated)
      ensures FINALIZER in old(finalizers) ==> (ok <==> FINALIZER !in finalizers)
      ensures FINALIZER in old(finalizers) && ok ==>
                && nodes == Cleaned(old(nodes), Updated(selected, env.answer), StatePrefix(resource))
                && OLD_FINALIZER !in finalizers
                && forall f :: f in old(finalizers) && f != FINALIZER && f != OLD_FINALIZER ==> f in finalizers
      ensures FINALIZER !in old(finalizers) ==> ok && nodes == old(nodes)
      ensures finalizers != old(finalizers) ==> FINALIZER in old(finalizers) && ok
    {
      hide StatePrefix, Contains, Cleaned;
      if FINALIZER !in finalizers { return true; }
      var done := FinalizeSpecialResource(resource, selected, env);
      if !done { return false; }
      var fs := RemoveFinalizer(finalizers, FINALIZER);
      forall g ensures g in fs <==> g in finalizers && g != FINALIZER { WithoutMembers(finalizers, FINALIZER, g); }
      ghost var first := fs;
      fs := RemoveFinalizer(fs, OLD_FINALIZER);
      forall g ensures g in fs <==> g in first && g != OLD_FINALIZER { WithoutMembers(first, OLD_FINALIZER, g); }
      hide Without;
      if !env.updated { return false; }
      finalizers := fs;
      ok := true;
    }
  }

  lemma LabelledNext(nodes: map<string, Labels>, selected: seq<string>, i: nat, key: string)
    requires i < |selected| && selected[i] in nodes
    ensures var now := Labelled(nodes, Members(selected[..i]), key);
      now[selected[i] := now[selected[i]][key := "Ready"]] == Labelled(nodes, Members(selected[..i + 1]), key)
  {
    assert selected[..i + 1] == selected[..i] + [selected[i]];
    var now := Labelled(nodes, Members(selected[..i]), key);
    var next := Labelled(nodes, Members(selected[..i + 1]), key);
    assert now[selected[i]][key := "Ready"] == nodes[selected[i]][key := "Ready"];
    assert now[selected[i] := now[selected[i]][key := "Ready"]].Keys == next.Keys;
  }

  lemma CleanedNext(nodes: map<string, Labels>, selected: seq<string>, i: nat, remove: string, answer: string -> Answer)
    requires i < |selected| && selected[i] in nodes
    ensures var now := Cleaned(nodes, Updated(selected[..i], answer), remove);
      Cleaned(nodes, Updated(selected[..i + 1], answer), remove) ==
        if answer(selected[i]) == Accepted then now[selected[i] := Stripped(now[selected[i]], remove)] else now
  {
    hide Contains;
    assert selected[..i + 1] == selected[..i] + [selected[i]];
    var now := Cleaned(nodes, Updated(selected[..i], answer), remove);
    var next := Cleaned(nodes, Updated(selected[..i + 1], answer), remove);
    assert Stripped(Stripped(nodes[selected[i]], remove), remove) == Stripped(nodes[selected[i]], remove);
    assert next.Keys == now.Keys;
  }
}
