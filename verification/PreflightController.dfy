/** controllers/preflightvalidation_controller.go: the verification status of each SpecialResource, kept in
    one list that is patched as a whole (a JSON merge patch replaces arrays, section 2 of RFC 7396). */
module PreflightController {
  datatype Verdict = Unset | Unknown | Verified | NotVerified | Errored

  datatype Status = Status(name: string, verdict: Verdict, reason: string, time: nat)

  /** A status write: whether the API server accepts it, and the clock it carries. */
  datatype Write = Write(ok: bool, time: nat)

  /** A listed SpecialResource, with what its check returns and what becomes of its two status writes. */
  datatype Item = Item(name: string, deleting: bool, preset: Write,
                       verified: bool, failed: bool, message: string, update: Write)

  datatype Env = Env(fetched: bool, prepared: bool, listed: bool, items: seq<Item>, reread: bool)

  /** The object in memory and the one in the API server. */
  datatype Copies = Copies(pv: seq<Status>, stored: seq<Status>)

  const NotStarted := "Verification has not started yet"

  ghost function Names(ss: seq<Status>): set<string> { set s | s in ss :: s.name }

  ghost predicate Unique(ss: seq<Status>) {
    forall i, j :: 0 <= i < j < |ss| ==> ss[i].name != ss[j].name
  }

  /** The position of `name`, or the length of the list. */
  function Find(ss: seq<Status>, name: string): (i: nat)
    ensures i <= |ss|
    ensures i < |ss| ==> ss[i].name == name
    ensures forall j :: 0 <= j < i ==> ss[j].name != name
  {
    if ss == [] || ss[0].name == name then 0 else 1 + Find(ss[1..], name)
  }

  /** `getPreflightSRStatus`: the list with an entry for `name`, appended if there was none. */
  function WithEntry(ss: seq<Status>, name: string): seq<Status> {
    if Find(ss, name) < |ss| then ss else ss + [Status(name, Unset, "", 0)]
  }

  lemma EntryIsThere(ss: seq<Status>, name: string)
    ensures Find(WithEntry(ss, name), name) < |WithEntry(ss, name)|
  {
    var t := WithEntry(ss, name);
    if Find(ss, name) == |ss| { assert t[|ss|].name == name; }
  }

  /** `StatusPatch`: an accepted patch carries the list if the list differs, and returns the stored object. */
  function Patch(original: seq<Status>, modified: seq<Status>, stored: seq<Status>, ok: bool): Copies {
    if !ok then Copies(modified, stored)
    else if original != modified then Copies(modified, modified)
    else Copies(stored, stored)
  }

  /** `SetVerificationStatus` on the entry of `name`. */
  function SetStatus(c: Copies, name: string, verdict: Verdict, reason: string, w: Write): Copies {
    var original := WithEntry(c.pv, name);
    EntryIsThere(c.pv, name);
    Patch(original, original[Find(original, name) := Status(name, verdict, reason, w.time)], c.stored, w.ok)
  }

  /** `presetStatusesForCRs`; stops at a write that fails. */
  function Preset(c: Copies, items: seq<Item>): (Copies, bool)
    decreases |items|
  {
    if items == [] then (c, true)
    else
      var it := items[0];
      var pv := WithEntry(c.pv, it.name);
      EntryIsThere(c.pv, it.name);
      if pv[Find(pv, it.name)].verdict != Unset then Preset(c.(pv := pv), items[1..])
      else
        var next := SetStatus(c, it.name, Unknown, NotStarted, it.preset);
        if it.preset.ok then Preset(next, items[1..]) else (next, false)
  }

  function Outcome(it: Item): Verdict {
    if it.failed then Errored else if it.verified then Verified else NotVerified
  }

  /** An item is checked unless it is being deleted or was verified when the reconcile began. */
  predicate Checked(it: Item, known: set<string>) { !it.deleting && it.name !in known }

  /** The check loop; a status write that fails is only logged. */
  function CheckAll(c: Copies, known: set<string>, items: seq<Item>): Copies
    decreases |items|
  {
    if items == [] then c
    else
      var it := items[0];
      var next := if Checked(it, known) then SetStatus(c, it.name, Outcome(it), it.message, it.update) else c;
      CheckAll(next, known, items[1..])
  }

  /** The resources whose check in this reconcile returned verified without error. */
  ghost function Passed(known: set<string>, items: seq<Item>): set<string> {
    set it | it in items && Checked(it, known) && Outcome(it) == Verified :: it.name
  }

  function KnownTrue(ss: seq<Status>): set<string> {
    set s | s in ss && s.verdict == Verified :: s.name
  }

  datatype Report = NothingDone | Failed | Incomplete | Completed

  datatype Result = Result(stored: seq<Status>, report: Report, passed: set<string>)

  ghost function Reconcile(stored: seq<Status>, env: Env): Result {
    if !env.fetched then Result(stored, NothingDone, {})
    else if !env.prepared || !env.listed then Result(stored, Failed, {})
    else
      var known := KnownTrue(stored);
      var (c, ok) := Preset(Copies(stored, stored), env.items);
      if !ok then Result(c.stored, Failed, {})
      else
        var d := CheckAll(c, known, env.items);
        Result(d.stored,
               if !env.reread then Failed
               else if forall s :: s in d.stored ==> s.verdict == Verified then Completed else Incomplete,
               Passed(known, env.items))
  }

  // ---------------------------------------------------------------- one status write

  lemma SetStatusEffect(c: Copies, name: string, verdict: Verdict, reason: string, w: Write)
    requires Unique(c.pv) && Unique(c.stored) && Names(c.stored) <= Names(c.pv)
    ensures var d := SetStatus(c, name, verdict, reason, w);
      && Unique(d.pv) && Unique(d.stored) && Names(c.stored) <= Names(d.stored) <= Names(d.pv)
      && (forall s: Status :: s.name != name && s in c.pv && s in c.stored ==> s in d.pv && s in d.stored)
      && (forall s :: s in d.pv || s in d.stored ==>
            s in c.pv || s in c.stored || s == Status(name, verdict, reason, w.time) || s == Status(name, Unset, "", 0))
  {
    hide WithEntry, Find;
    var original := WithEntry(c.pv, name);
    EntryIsThere(c.pv, name);
    var i := Find(original, name);
    var modified := original[i := Status(name, verdict, reason, w.time)];
    WithEntryMembers(c.pv, name);
    UpdateMembers(original, i, modified);
    hide Unique, Names;
  }

  lemma WithEntryMembers(ss: seq<Status>, name: string)
    ensures var tt := WithEntry(ss, name);
      && (Unique(ss) ==> Unique(tt)) && Names(ss) <= Names(tt)
      && (forall s :: s in ss ==> s in tt)
      && (forall s :: s in tt ==> s in ss || s == Status(name, Unset, "", 0))
  {
    if Find(ss, name) == |ss| { assert forall s :: s in ss ==> s.name != name; }
  }

  lemma UpdateMembers(ss: seq<Status>, i: nat, tt: seq<Status>)
    requires i < |ss| && |tt| == |ss| && tt[i].name == ss[i].name
    requires forall j :: 0 <= j < |ss| && j != i ==> tt[j] == ss[j]
    ensures forall s :: s in ss && s.name != ss[i].name ==> s in tt
    ensures forall s :: s in tt ==> s in ss || s == tt[i]
    ensures Names(tt) == Names(ss) && (Unique(ss) ==> Unique(tt))
  {
    assert forall j :: 0 <= j < |ss| ==> tt[j].name == ss[j].name;
    forall s | s in ss ensures s.name in Names(tt) {
      var j :| 0 <= j < |ss| && ss[j] == s;
      assert tt[j] in tt;
    }
    forall s | s in tt ensures s.name in Names(ss) {
      var j :| 0 <= j < |tt| && tt[j] == s;
      assert ss[j] in ss;
    }
    forall s | s in ss && s.name != ss[i].name ensures s in tt {
      var j :| 0 <= j < |ss| && ss[j] == s;
      assert tt[j] == s;
    }
  }

  // ---------------------------------------------------------------- one reconcile

  /** What holds of both copies throughout a reconcile that began with `stored`. */
  ghost predicate Consistent(c: Copies, stored: seq<Status>) {
    Unique(c.pv) && Unique(c.stored) && Names(stored) <= Names(c.stored) <= Names(c.pv)
  }

  /** No item in `items` writes to the entry of `s`. */
  ghost predicate Untouched(s: Status, known: set<string>, items: seq<Item>) {
    forall it :: it in items && it.name == s.name ==> s.verdict != Unset && !Checked(it, known)
  }

  lemma {:induction false} PresetEffect(c: Copies, items: seq<Item>)
    requires Consistent(c, c.stored) && c.pv == c.stored
    ensures var (d, ok) := Preset(c, items);
      && Consistent(d, c.stored)
      && (ok ==> d.pv == d.stored && forall it :: it in items ==> it.name in Names(d.stored))
      && (forall s :: s in d.pv || s in d.stored ==> s in c.stored || s.verdict != Verified)
      && (forall s :: s in c.stored && s.verdict != Unset ==> s in d.pv && s in d.stored)
    decreases |items|
  {
    if items != [] {
      var it := items[0];
      assert items == [it] + items[1..];
      var pv := WithEntry(c.pv, it.name);
      EntryIsThere(c.pv, it.name);
      var i := Find(pv, it.name);
      if pv[i].verdict != Unset {
        assert pv == c.pv && pv[i] in c.stored && it.name in Names(c.stored);
        PresetEffect(c, items[1..]);
      } else {
        var next := SetStatus(c, it.name, Unknown, NotStarted, it.preset);
        SetStatusEffect(c, it.name, Unknown, NotStarted, it.preset);
        PresetStep(c, it);
        if it.preset.ok { PresetEffect(next, items[1..]); }
      }
    }
  }

  lemma PresetStep(c: Copies, it: Item)
    requires Consistent(c, c.stored) && c.pv == c.stored
    requires var pv := WithEntry(c.pv, it.name); Find(pv, it.name) < |pv| && pv[Find(pv, it.name)].verdict == Unset
    ensures var next := SetStatus(c, it.name, Unknown, NotStarted, it.preset);
      && (it.preset.ok ==> next.pv == next.stored && it.name in Names(next.stored))
      && (forall s :: s in c.stored && s.verdict != Unset ==> s in next.pv && s in next.stored)
  {
    var pv := WithEntry(c.pv, it.name);
    var i := Find(pv, it.name);
    var modified := pv[i := Status(it.name, Unknown, NotStarted, it.preset.time)];
    assert modified[i] != pv[i] && modified != pv && modified[i] in modified;
    forall s | s in c.stored && s.verdict != Unset ensures s in modified {
      var j :| 0 <= j < |c.stored| && c.stored[j] == s;
      assert pv[j] == s && modified[j] == s;
    }
  }

  lemma {:induction false} CheckAllEffect(c: Copies, stored: seq<Status>, known: set<string>, items: seq<Item>)
    requires Consistent(c, stored)
    ensures var d := CheckAll(c, known, items);
      && Consistent(d, stored) && Names(c.stored) <= Names(d.stored)
      && (forall s :: s in d.pv || s in d.stored ==>
            s in c.pv || s in c.stored || s.verdict != Verified || s.name in Passed(known, items))
    decreases |items|
  {
    if items != [] {
      var it := items[0];
      assert items == [it] + items[1..];
      var next := if Checked(it, known) then SetStatus(c, it.name, Outcome(it), it.message, it.update) else c;
      if Checked(it, known) { SetStatusEffect(c, it.name, Outcome(it), it.message, it.update); }
      CheckAllEffect(next, stored, known, items[1..]);
      assert Passed(known, items[1..]) <= Passed(known, items);
      assert Checked(it, known) && Outcome(it) == Verified ==> it.name in Passed(known, items);
    }
  }

  lemma {:induction false} CheckAllKeeps(c: Copies, stored: seq<Status>, known: set<string>, items: seq<Item>,
                                         s: Status)
    requires Consistent(c, stored) && s in c.pv && s in c.stored && Untouched(s, known, items)
    ensures s in CheckAll(c, known, items).stored
    decreases |items|
  {
    if items != [] {
      var it := items[0];
      var next := if Checked(it, known) then SetStatus(c, it.name, Outcome(it), it.message, it.update) else c;
      if Checked(it, known) { SetStatusEffect(c, it.name, Outcome(it), it.message, it.update); }
      CheckAllKeeps(next, stored, known, items[1..], s);
    }
  }

  lemma {:induction false} PresetKeeps(c: Copies, items: seq<Item>, s: Status)
    requires Consistent(c, c.stored) && c.pv == c.stored && s in c.stored
    requires s.verdict != Unset || forall it :: it in items ==> it.name != s.name
    ensures s in Preset(c, items).0.pv && s in Preset(c, items).0.stored
    decreases |items|
  {
    if items != [] {
      var it := items[0];
      var pv := WithEntry(c.pv, it.name);
      EntryIsThere(c.pv, it.name);
      if pv[Find(pv, it.name)].verdict != Unset {
        PresetKeeps(c, items[1..], s);
      } else {
        SetStatusEffect(c, it.name, Unknown, NotStarted, it.preset);
        PresetStep(c, it);
        if it.preset.ok { PresetKeeps(SetStatus(c, it.name, Unknown, NotStarted, it.preset), items[1..], s); }
      }
    }
  }

  /** An entry that no item writes to survives a reconcile exactly as it is. */
  lemma UntouchedSurvives(stored: seq<Status>, env: Env, s: Status)
    requires Unique(stored) && s in stored && Untouched(s, KnownTrue(stored), env.items)
    ensures s in Reconcile(stored, env).stored
  {
    if env.fetched && env.prepared && env.listed {
      var (c, ok) := Preset(Copies(stored, stored), env.items);
      PresetEffect(Copies(stored, stored), env.items);
      PresetKeeps(Copies(stored, stored), env.items, s);
      if ok { CheckAllKeeps(c, stored, KnownTrue(stored), env.items, s); }
    }
  }

  /** Success is sticky: a stored True entry stays, with its reason and time, whatever the reconcile does. */
  lemma TrueIsSticky(stored: seq<Status>, env: Env, s: Status)
    requires Unique(stored) && s in stored && s.verdict == Verified
    ensures s in Reconcile(stored, env).stored
  {
    assert s.name in KnownTrue(stored);
    UntouchedSurvives(stored, env, s);
  }

  /** Names stay unique and none disappears; a True entry is an old one or was just earned by a check. */
  lemma ReconcileIsSound(stored: seq<Status>, env: Env)
    requires Unique(stored)
    ensures var r := Reconcile(stored, env);
      && Unique(r.stored) && Names(stored) <= Names(r.stored)
      && (forall s :: s in r.stored && s.verdict == Verified ==> s in stored || s.name in r.passed)
  {
    if env.fetched && env.prepared && env.listed {
      var known := KnownTrue(stored);
      var (c, ok) := Preset(Copies(stored, stored), env.items);
      PresetEffect(Copies(stored, stored), env.items);
      if ok { CheckAllEffect(c, stored, known, env.items); }
    }
  }

  /** Completion is reported only when every listed resource has a stored True entry, even if status writes
      failed on the way. */
  lemma CompletionIsSound(stored: seq<Status>, env: Env)
    requires Unique(stored) && Reconcile(stored, env).report == Completed
    ensures EachListedTrue(Reconcile(stored, env).stored, env.items)
  {
    var known := KnownTrue(stored);
    var (c, ok) := Preset(Copies(stored, stored), env.items);
    PresetEffect(Copies(stored, stored), env.items);
    CheckAllEffect(c, stored, known, env.items);
    var d := CheckAll(c, known, env.items);
    forall it | it in env.items ensures exists s :: s in d.stored && s.name == it.name && s.verdict == Verified {
      assert it.name in Names(d.stored);
      var s :| s in d.stored && s.name == it.name;
    }
  }

  /** The entry of a resource that is no longer listed, or is under deletion, is not written to. If it is not True, the
      reconcile keeps it and does not report completion. */
  lemma UncheckedEntryBlocks(stored: seq<Status>, env: Env, s: Status)
    requires Unique(stored) && s in stored && s.verdict != Verified && OutOfReach(s, env)
    ensures s in Reconcile(stored, env).stored && Reconcile(stored, env).report != Completed
  {
    UntouchedSurvives(stored, env, s);
  }

  /** No listed resource of this name is checked: none is listed, or those that are are under deletion. */
  ghost predicate OutOfReach(s: Status, env: Env) {
    forall it :: it in env.items && it.name == s.name ==> it.deleting && s.verdict != Unset
  }

  // ---------------------------------------------------------------- exactly when completion is reported

  /** Listed resources have distinct names, as the objects of one kind without a namespace have. */
  ghost predicate DistinctItems(items: seq<Item>) {
    forall i, j :: 0 <= i < j < |items| ==> items[i].name != items[j].name
  }

  ghost predicate AllTrue(ss: seq<Status>) { forall s :: s in ss ==> s.verdict == Verified }

  /** Every preset that is written is accepted: the others find an entry. */
  ghost predicate PresetsAccepted(stored: seq<Status>, items: seq<Item>) {
    forall it :: it in items ==> it.preset.ok || HasEntry(stored, it.name)
  }

  ghost predicate HasEntry(ss: seq<Status>,
                           name: string) { exists s :: s in ss && s.name == name && s.verdict != Unset }

  /** The status write of the last resource that is checked is accepted. */
  ghost predicate LastWriteAccepted(known: set<string>, items: seq<Item>) {
    forall i :: 0 <= i < |items| && LastChecked(known, items, i) ==> items[i].update.ok
  }

  ghost predicate LastChecked(known: set<string>, items: seq<Item>, i: nat)
    requires i < |items|
  {
    Checked(items[i], known) && forall j :: i < j < |items| ==> !Checked(items[j], known)
  }

  /** Every listed resource was True before, or its check says so now. */
  ghost predicate AllVerified(known: set<string>, items: seq<Item>) {
    forall it :: it in items ==> it.name in known || (!it.deleting && Outcome(it) == Verified)
  }

  ghost predicate UnlistedTrue(stored: seq<Status>, items: seq<Item>) {
    forall s :: s in stored && (forall it :: it in items ==> it.name != s.name) ==> s.verdict == Verified
  }

  lemma ItemsTail(items: seq<Item>)
    requires items != [] && DistinctItems(items)
    ensures DistinctItems(items[1..]) && forall it :: it in items[1..] ==> it.name != items[0].name
  {
    assert forall i :: 0 <= i < |items| - 1 ==> items[1..][i] == items[i + 1];
  }

  lemma {:induction false} PresetOkIff(c: Copies, items: seq<Item>)
    requires Consistent(c, c.stored) && c.pv == c.stored && DistinctItems(items)
    ensures Preset(c, items).1 <==> PresetsAccepted(c.stored, items)
    decreases |items|
  {
    if items != [] {
      var it := items[0];
      ItemsTail(items);
      assert items == [it] + items[1..];
      var pv := WithEntry(c.pv, it.name);
      EntryIsThere(c.pv, it.name);
      var e := pv[Find(pv, it.name)];
      assert e in pv;
      if e.verdict != Unset {
        assert HasEntry(c.stored, it.name);
        PresetOkIff(c, items[1..]);
      } else {
        NoEntry(c.stored, it.name);
        var next := SetStatus(c, it.name, Unknown, NotStarted, it.preset);
        SetStatusEffect(c, it.name, Unknown, NotStarted, it.preset);
        PresetStep(c, it);
        if it.preset.ok {
          assert forall t :: t in items[1..] ==> (HasEntry(c.stored, t.name) <==> HasEntry(next.stored, t.name));
          PresetOkIff(next, items[1..]);
        }
      }
    }
  }

  lemma NoEntry(ss: seq<Status>, name: string)
    requires Unique(ss) && var t := WithEntry(ss, name); Find(t, name) < |t| && t[Find(t, name)].verdict == Unset
    ensures !HasEntry(ss, name)
  {
    forall s | s in ss && s.name == name ensures s.verdict == Unset {
      var j :| 0 <= j < |ss| && ss[j] == s;
      assert Find(ss, name) == j;
    }
  }

  /** Writing True over an entry that is not True: an accepted patch carries the whole list in memory, with it whatever
      earlier patches failed to carry. */
  lemma WriteTrue(c: Copies, name: string, reason: string, w: Write)
    requires Unique(c.pv) && forall s :: s in c.pv && s.name == name ==> s.verdict != Verified
    ensures var d := SetStatus(c, name, Verified, reason, w);
      && (forall s :: s in d.pv ==> s == Status(name, Verified, reason, w.time) || (s in c.pv && s.name != name))
      && d.stored == if w.ok then d.pv else c.stored
  {
    var original := WithEntry(c.pv, name);
    EntryIsThere(c.pv, name);
    var i := Find(original, name);
    var modified := original[i := Status(name, Verified, reason, w.time)];
    assert original[i].verdict != Verified by { assert original[i] in original; }
    assert modified[i] != original[i];
    forall s | s in modified ensures s == modified[i] || (s in c.pv && s.name != name) {
      var j :| 0 <= j < |modified| && modified[j] == s;
      if j != i { assert original[j] == s && s.name != name && s in original; }
    }
  }

  /** Before `items` are checked: in memory everything else is True, their own entries are not, and if none of them will
      be checked the stored list is all True. */
  ghost predicate Pending(c: Copies, known: set<string>, items: seq<Item>) {
    && Unique(c.pv) && Unique(c.stored) && Names(c.stored) <= Names(c.pv)
    && (forall s :: s in c.pv && !Awaits(s.name, known, items) ==> s.verdict == Verified)
    && (forall s :: (s in c.pv || s in c.stored) && Awaits(s.name, known, items) ==> s.verdict != Verified)
    && ((forall it :: it in items ==> !Checked(it, known)) ==> AllTrue(c.stored))
  }

  ghost predicate Awaits(name: string, known: set<string>, items: seq<Item>) {
    exists it :: it in items && it.name == name && Checked(it, known)
  }

  lemma AwaitsTail(name: string, known: set<string>, items: seq<Item>)
    requires items != [] && DistinctItems(items)
    ensures Awaits(name, known, items) <==> (items[0].name == name && Checked(items[0], known)) || Awaits(name, known, items[1..])
    ensures Awaits(name, known, items[1..]) ==> name != items[0].name
  {
    ItemsTail(items);
    assert items == [items[0]] + items[1..];
  }

  lemma PendingStep(c: Copies, known: set<string>, items: seq<Item>)
    requires items != [] && DistinctItems(items) && Pending(c, known, items)
    requires AllVerified(known, items) && LastWriteAccepted(known, items)
    ensures var it := items[0];
      Pending(if Checked(it, known) then SetStatus(c, it.name, Outcome(it), it.message, it.update) else c, known, items[1..])
  {
    var it, rest := items[0], items[1..];
    assert items == [it] + rest;
    if Checked(it, known) {
      assert Outcome(it) == Verified;
      var next := SetStatus(c, it.name, Verified, it.message, it.update);
      AwaitsTail(it.name, known, items);
      WriteTrue(c, it.name, it.message, it.update);
      SetStatusEffect(c, it.name, Verified, it.message, it.update);
      hide SetStatus;
      if forall t :: t in rest ==> !Checked(t, known) {
        assert LastChecked(known, items, 0) by { assert forall j :: 0 < j < |items| ==> items[j] in rest; }
        NothingAwaits(known, rest);
      }
      PendingAfterWrite(c, next, Status(it.name, Verified, it.message, it.update.time), known, items);
    } else {
      forall s: Status ensures Awaits(s.name, known, items) <==> Awaits(s.name, known, rest) { AwaitsTail(s.name, known, items); }
      hide Awaits;
    }
  }

  /** The copies `next` hold the new entry `e` of the first item and otherwise what `c` held. */
  lemma PendingAfterWrite(c: Copies, next: Copies, e: Status, known: set<string>, items: seq<Item>)
    requires items != [] && DistinctItems(items) && Pending(c, known, items)
    requires Unique(next.pv) && Unique(next.stored) && Names(next.stored) <= Names(next.pv)
    requires e.name == items[0].name && e.verdict == Verified
    requires forall s :: s in next.pv ==> s == e || (s in c.pv && s.name != e.name)
    requires next.stored == c.stored || next.stored == next.pv
    requires (forall it :: it in items[1..] ==> !Checked(it, known)) ==>
               next.stored == next.pv && forall name :: !Awaits(name, known, items[1..])
    ensures Pending(next, known, items[1..])
  {
    var rest := items[1..];
    forall s | s in next.pv && !Awaits(s.name, known, rest) ensures s.verdict == Verified {
      AwaitsTail(s.name, known, items);
    }
    forall s | (s in next.pv || s in next.stored) && Awaits(s.name, known, rest) ensures s.verdict != Verified {
      AwaitsTail(s.name, known, items);
    }
    hide Awaits, Unique, Names;
  }

  lemma NothingAwaits(known: set<string>, items: seq<Item>)
    requires forall it :: it in items ==> !Checked(it, known)
    ensures forall name :: !Awaits(name, known, items)
  {}

  lemma LastWriteTail(known: set<string>, items: seq<Item>)
    requires items != [] && LastWriteAccepted(known, items)
    ensures LastWriteAccepted(known, items[1..])
  {
    forall i | 0 <= i < |items| - 1 && LastChecked(known, items[1..], i) ensures items[1..][i].update.ok {
      assert forall j :: i + 1 < j < |items| ==> items[j] == items[1..][j - 1];
      assert LastChecked(known, items, i + 1);
    }
  }

  /** The last accepted write brings the stored list to all True, whatever writes failed before it. */
  lemma {:induction false} LastWriteCompletes(c: Copies, known: set<string>, items: seq<Item>)
    requires DistinctItems(items) && Pending(c, known, items) && AllVerified(known, items) && LastWriteAccepted(known, items)
    ensures AllTrue(CheckAll(c, known, items).stored)
    decreases |items|
  {
    hide Pending, LastWriteAccepted, AllTrue, SetStatus;
    if items == [] {
      NothingPending(c, known);
    } else {
      PendingStep(c, known, items);
      ItemsTail(items);
      LastWriteTail(known, items);
      var it := items[0];
      LastWriteCompletes(if Checked(it, known) then SetStatus(c, it.name, Outcome(it), it.message, it.update) else c, known, items[1..]);
    }
  }

  lemma NothingPending(c: Copies, known: set<string>)
    requires Pending(c, known, [])
    ensures AllTrue(c.stored)
  {}

  lemma {:induction false} NothingChecked(c: Copies, known: set<string>, items: seq<Item>)
    requires forall it :: it in items ==> !Checked(it, known)
    ensures CheckAll(c, known, items) == c
    decreases |items|
  {
    if items != [] {
      assert items == [items[0]] + items[1..];
      NothingChecked(c, known, items[1..]);
    }
  }

  /** Entry `name` is stored and True in neither copy. */
  ghost predicate NotTrueYet(c: Copies, name: string) {
    && Unique(c.pv) && Unique(c.stored) && Names(c.stored) <= Names(c.pv) && name in Names(c.stored)
    && forall s :: (s in c.pv || s in c.stored) && s.name == name ==> s.verdict != Verified
  }

  /** If the write of the last resource checked fails, its entry is not True in the end. */
  lemma {:induction false} LastWriteMatters(c: Copies, known: set<string>, items: seq<Item>, i: nat)
    requires DistinctItems(items) && i < |items| && LastChecked(known, items, i) && !items[i].update.ok
    requires NotTrueYet(c, items[i].name)
    ensures !AllTrue(CheckAll(c, known, items).stored)
    decreases |items|
  {
    var it, rest := items[0], items[1..];
    ItemsTail(items);
    var next := if Checked(it, known) then SetStatus(c, it.name, Outcome(it), it.message, it.update) else c;
    if i == 0 {
      NotTrueStored(c, it.name);
      assert forall t :: t in rest ==> !Checked(t, known);
      NothingChecked(next, known, rest);
      assert next.stored == c.stored;
    } else {
      assert items[i] == rest[i - 1] && items[i].name != it.name;
      assert LastChecked(known, rest, i - 1) by { assert forall j :: i <= j < |rest| ==> rest[j] == items[j + 1]; }
      if Checked(it, known) { SetStatusEffect(c, it.name, Outcome(it), it.message, it.update); }
      hide SetStatus;
      assert NotTrueYet(next, items[i].name);
      LastWriteMatters(next, known, rest, i - 1);
    }
  }

  lemma NotTrueStored(c: Copies, name: string)
    requires NotTrueYet(c, name)
    ensures !AllTrue(c.stored)
  {
    var s :| s in c.stored && s.name == name;
  }

  /** What the presets leave for the checks. */
  lemma PresetsLeavePending(stored: seq<Status>, items: seq<Item>)
    requires Unique(stored) && Preset(Copies(stored, stored), items).1
    ensures var c := Preset(Copies(stored, stored), items).0;
      && Consistent(c, stored) && c.pv == c.stored
      && (forall it :: it in items && it.name !in KnownTrue(stored) ==> NotTrueYet(c, it.name))
      && (forall s :: s in c.stored ==> s in stored || exists it :: it in items && it.name == s.name)
      && (forall s :: s in stored && s.verdict == Verified ==> s in c.stored)
  {
    var c := Preset(Copies(stored, stored), items).0;
    PresetEffect(Copies(stored, stored), items);
    PresetNames(Copies(stored, stored), items);
    forall it | it in items && it.name !in KnownTrue(stored) ensures NotTrueYet(c, it.name) {
      assert it.name in Names(c.stored);
    }
  }

  lemma {:induction false} PresetNames(c: Copies, items: seq<Item>)
    requires Consistent(c, c.stored) && c.pv == c.stored
    ensures var d := Preset(c, items).0;
      forall s :: s in d.pv || s in d.stored ==> s in c.stored || exists it :: it in items && it.name == s.name
    decreases |items|
  {
    if items != [] {
      var it := items[0];
      assert items == [it] + items[1..];
      EntryIsThere(c.pv, it.name);
      var pv := WithEntry(c.pv, it.name);
      if pv[Find(pv, it.name)].verdict != Unset {
        assert pv == c.pv;
        PresetNames(c, items[1..]);
      } else {
        var next := SetStatus(c, it.name, Unknown, NotStarted, it.preset);
        SetStatusEffect(c, it.name, Unknown, NotStarted, it.preset);
        PresetStep(c, it);
        hide SetStatus, WithEntry;
        if it.preset.ok { PresetNames(next, items[1..]); }
      }
    }
  }

  /** The checks complete the list if and only if every entry of an unlisted resource was True, every listed resource was
      True or is verified now, and the last status write was accepted. Writes that fail before it do not matter. */
  lemma ChecksCompleteIff(stored: seq<Status>, items: seq<Item>)
    requires Unique(stored) && DistinctItems(items) && Preset(Copies(stored, stored), items).1
    ensures var known, c := KnownTrue(stored), Preset(Copies(stored, stored), items).0;
      AllTrue(CheckAll(c, known, items).stored) <==>
        UnlistedTrue(stored, items) && AllVerified(known, items) && LastWriteAccepted(known, items)
  {
    var known, c := KnownTrue(stored), Preset(Copies(stored, stored), items).0;
    PresetsLeavePending(stored, items);
    if UnlistedTrue(stored, items) && AllVerified(known, items) && LastWriteAccepted(known, items) {
      PendingAtStart(stored, items, c);
      LastWriteCompletes(c, known, items);
    }
    if AllTrue(CheckAll(c, known, items).stored) {
      CompleteMeansAllVerified(stored, items, c);
      CompleteMeansUnlistedTrue(stored, items, c);
      forall i | 0 <= i < |items| && LastChecked(known, items, i) ensures items[i].update.ok {
        if !items[i].update.ok { LastWriteMatters(c, known, items, i); }
      }
    }
  }

  lemma SameEntry(ss: seq<Status>, s: Status, t: Status)
    requires Unique(ss) && s in ss && t in ss && s.name == t.name
    ensures s == t
  {
    var i :| 0 <= i < |ss| && ss[i] == s;
    var j :| 0 <= j < |ss| && ss[j] == t;
  }

  lemma {:induction false} CheckAllNames(c: Copies, stored: seq<Status>, known: set<string>, items: seq<Item>)
    requires Consistent(c, stored)
    ensures forall s :: s in CheckAll(c, known, items).stored ==>
              s in c.pv || s in c.stored || exists it :: it in items && it.name == s.name
    decreases |items|
  {
    if items != [] {
      var it := items[0];
      assert items == [it] + items[1..];
      var next := if Checked(it, known) then SetStatus(c, it.name, Outcome(it), it.message, it.update) else c;
      if Checked(it, known) { SetStatusEffect(c, it.name, Outcome(it), it.message, it.update); }
      hide SetStatus, Outcome;
      CheckAllNames(next, stored, known, items[1..]);
    }
  }

  /** Whatever the listing, once the presets are through and the object is read again: completion is reported if and only
      if every listed resource has a stored True entry and every entry of an unlisted one was True before. */
  lemma CompletionIffEntriesTrue(stored: seq<Status>, env: Env)
    requires Unique(stored) && env.fetched && env.prepared && env.listed && env.reread
    requires Preset(Copies(stored, stored), env.items).1
    ensures var r := Reconcile(stored, env);
      r.report == Completed <==>
        EachListedTrue(r.stored, env.items) && UnlistedTrue(stored, env.items)
  {
    var known, c, r := KnownTrue(stored), Preset(Copies(stored, stored), env.items).0, Reconcile(stored, env);
    var d := CheckAll(c, known, env.items);
    assert r.stored == d.stored && (r.report == Completed <==> AllTrue(d.stored));
    PresetsLeavePending(stored, env.items);
    assert Consistent(c, stored);
    hide *;
    if r.report == Completed {
      CompletionIsSound(stored, env);
      CompleteMeansUnlistedTrue(stored, env.items, c);
    }
    if EachListedTrue(r.stored, env.items) && UnlistedTrue(stored, env.items) {
      EntriesTrueComplete(stored, env.items, c);
    }
  }

  /** Every listed resource has a True entry. */
  ghost predicate EachListedTrue(ss: seq<Status>, items: seq<Item>) {
    forall it :: it in items ==> exists s :: s in ss && s.name == it.name && s.verdict == Verified
  }

  lemma EntriesTrueComplete(stored: seq<Status>, items: seq<Item>, c: Copies)
    requires Consistent(c, stored) && c.pv == c.stored
    requires forall s :: s in c.stored ==> s in stored || exists it :: it in items && it.name == s.name
    requires EachListedTrue(CheckAll(c, KnownTrue(stored), items).stored, items) && UnlistedTrue(stored, items)
    ensures AllTrue(CheckAll(c, KnownTrue(stored), items).stored)
  {
    var d := CheckAll(c, KnownTrue(stored), items);
    CheckAllEffect(c, stored, KnownTrue(stored), items);
    CheckAllNames(c, stored, KnownTrue(stored), items);
    hide CheckAll, KnownTrue, Unique, Names, Passed;
    forall s | s in d.stored ensures s.verdict == Verified {
      if exists it :: it in items && it.name == s.name {
        var it :| it in items && it.name == s.name;
        var t :| t in d.stored && t.name == it.name && t.verdict == Verified;
        SameEntry(d.stored, s, t);
      }
    }
  }

  lemma PendingAtStart(stored: seq<Status>, items: seq<Item>, c: Copies)
    requires Consistent(c, stored) && c.pv == c.stored
    requires forall it :: it in items && it.name !in KnownTrue(stored) ==> NotTrueYet(c, it.name)
    requires forall s :: s in c.stored ==> s in stored || exists it :: it in items && it.name == s.name
    requires forall s :: s in stored && s.verdict == Verified ==> s in c.stored
    requires UnlistedTrue(stored, items) && AllVerified(KnownTrue(stored), items)
    ensures Pending(c, KnownTrue(stored), items)
  {
    var known := KnownTrue(stored);
    forall s | s in c.pv && !Awaits(s.name, known, items) ensures s.verdict == Verified {
      if exists it :: it in items && it.name == s.name {
        var it :| it in items && it.name == s.name;
        assert it.name in known;
        var t :| t in stored && t.verdict == Verified && t.name == s.name;
        SameEntry(c.pv, s, t);
      }
    }
  }

  lemma CompleteMeansAllVerified(stored: seq<Status>, items: seq<Item>, c: Copies)
    requires DistinctItems(items) && Consistent(c, stored)
    requires forall it :: it in items && it.name !in KnownTrue(stored) ==> NotTrueYet(c, it.name)
    requires AllTrue(CheckAll(c, KnownTrue(stored), items).stored)
    ensures AllVerified(KnownTrue(stored), items)
  {
    var known := KnownTrue(stored);
    var d := CheckAll(c, known, items);
    CheckAllEffect(c, stored, known, items);
    forall it | it in items && it.name !in known ensures !it.deleting && Outcome(it) == Verified {
      assert NotTrueYet(c, it.name) && it.name in Names(d.stored);
      var s :| s in d.stored && s.name == it.name;
      assert it.name in Passed(known, items);
      var t :| t in items && Checked(t, known) && Outcome(t) == Verified && t.name == it.name;
      assert t == it;
    }
  }

  lemma CompleteMeansUnlistedTrue(stored: seq<Status>, items: seq<Item>, c: Copies)
    requires Unique(stored) && Preset(Copies(stored, stored), items) == (c, true)
    requires AllTrue(CheckAll(c, KnownTrue(stored), items).stored)
    ensures UnlistedTrue(stored, items)
  {
    PresetEffect(Copies(stored, stored), items);
    forall s | s in stored && (forall it :: it in items ==> it.name != s.name) ensures s.verdict == Verified {
      PresetKeeps(Copies(stored, stored), items, s);
      CheckAllKeeps(c, stored, KnownTrue(stored), items, s);
    }
  }

  /** Exactly when a reconcile reports completion, in terms of what it starts from and what it is answered. */
  lemma CompletedIff(stored: seq<Status>, env: Env)
    requires Unique(stored) && DistinctItems(env.items)
    ensures Reconcile(stored, env).report == Completed <==>
      && env.fetched && env.prepared && env.listed && env.reread
      && PresetsAccepted(stored, env.items)
      && UnlistedTrue(stored, env.items)
      && AllVerified(KnownTrue(stored), env.items)
      && LastWriteAccepted(KnownTrue(stored), env.items)
  {
    hide UnlistedTrue, AllVerified, LastWriteAccepted, Preset, CheckAll, KnownTrue, PresetsAccepted, DistinctItems;
    PresetOkIff(Copies(stored, stored), env.items);
    if Preset(Copies(stored, stored), env.items).1 { ChecksCompleteIff(stored, env.items); }
  }

  // ---------------------------------------------------------------- what one resource's entry becomes

  /** What a check writes: Error if it returned one, else True or False as it found. */
  function FoundStatus(it: Item): Status {
    Status(it.name, if it.failed then Errored else if it.verified then Verified else NotVerified, it.message, it.update.time)
  }

  /** The two copies hold the same entries of this name. */
  ghost predicate Agree(c: Copies, name: string) {
    forall s: Status :: s.name == name ==> (s in c.pv <==> s in c.stored)
  }

  lemma OtherWriteKeepsAgreement(c: Copies, name: string, verdict: Verdict, reason: string, w: Write, other: string)
    requires Agree(c, other) && other != name && Unique(c.pv)
    ensures Agree(SetStatus(c, name, verdict, reason, w), other)
  {
    hide Find, WithEntry;
    var original := WithEntry(c.pv, name);
    EntryIsThere(c.pv, name);
    var i := Find(original, name);
    var modified := original[i := Status(name, verdict, reason, w.time)];
    WithEntryMembers(c.pv, name);
    UpdateMembers(original, i, modified);
  }

  lemma OwnWriteIsStored(c: Copies, name: string, verdict: Verdict, reason: string, w: Write)
    requires Agree(c, name) && w.ok && verdict != Unset
    ensures var d := SetStatus(c, name, verdict, reason, w);
      Status(name, verdict, reason, w.time) in d.pv && Status(name, verdict, reason, w.time) in d.stored
  {
    var original := WithEntry(c.pv, name);
    EntryIsThere(c.pv, name);
    var i := Find(original, name);
    var modified := original[i := Status(name, verdict, reason, w.time)];
    assert modified[i] in modified;
    if modified == original {
      assert original[i] in original;
      WithEntryMembers(c.pv, name);
    }
  }

  lemma {:induction false} CheckedIsStored(c: Copies, stored: seq<Status>, known: set<string>, items: seq<Item>, i: nat)
    requires Consistent(c, stored) && DistinctItems(items) && i < |items| && Checked(items[i], known) && items[i].update.ok
    requires Agree(c, items[i].name)
    ensures FoundStatus(items[i]) in CheckAll(c, known, items).stored
    decreases |items|
  {
    var it, rest := items[0], items[1..];
    ItemsTail(items);
    var next := if Checked(it, known) then SetStatus(c, it.name, Outcome(it), it.message, it.update) else c;
    if Checked(it, known) { SetStatusEffect(c, it.name, Outcome(it), it.message, it.update); }
    hide SetStatus;
    if i == 0 {
      OwnWriteIsStored(c, it.name, Outcome(it), it.message, it.update);
      CheckAllKeeps(next, stored, known, rest, FoundStatus(it));
    } else {
      assert rest[i - 1] == items[i] && rest[i - 1].name != it.name;
      if Checked(it, known) {
        OtherWriteKeepsAgreement(c, it.name, Outcome(it), it.message, it.update, items[i].name);
      }
      CheckedIsStored(next, stored, known, rest, i - 1);
    }
  }

  /** A listed resource that is neither under deletion nor True already: what its check found is stored, if that write is
      accepted, whatever became of the others. */
  lemma CheckIsRecorded(stored: seq<Status>, env: Env, i: nat)
    requires Unique(stored) && DistinctItems(env.items) && i < |env.items|
    requires env.fetched && env.prepared && env.listed && PresetsAccepted(stored, env.items)
    requires var it := env.items[i];
      !it.deleting && it.update.ok && forall s :: s in stored && s.name == it.name ==> s.verdict != Verified
    ensures FoundStatus(env.items[i]) in Reconcile(stored, env).stored
  {
    PresetOkIff(Copies(stored, stored), env.items);
    PresetsLeavePending(stored, env.items);
    var c := Preset(Copies(stored, stored), env.items).0;
    CheckedIsStored(c, stored, KnownTrue(stored), env.items, i);
  }

  lemma {:induction false} PresetIsStored(c: Copies, items: seq<Item>, i: nat)
    requires Consistent(c, c.stored) && c.pv == c.stored && DistinctItems(items) && i < |items| && Preset(c, items).1
    requires forall s :: s in c.stored ==> s.name != items[i].name
    ensures Status(items[i].name, Unknown, NotStarted, items[i].preset.time) in Preset(c, items).0.stored
    decreases |items|
  {
    var it, rest := items[0], items[1..];
    ItemsTail(items);
    var pv := WithEntry(c.pv, it.name);
    EntryIsThere(c.pv, it.name);
    var e := pv[Find(pv, it.name)];
    assert e in pv;
    if e.verdict != Unset {
      assert i != 0 && rest[i - 1] == items[i];
      PresetIsStored(c, rest, i - 1);
    } else {
      var next := SetStatus(c, it.name, Unknown, NotStarted, it.preset);
      SetStatusEffect(c, it.name, Unknown, NotStarted, it.preset);
      PresetStep(c, it);
      if i == 0 {
        OwnWriteIsStored(c, it.name, Unknown, NotStarted, it.preset);
        PresetKeeps(next, rest, Status(it.name, Unknown, NotStarted, it.preset.time));
      } else {
        assert rest[i - 1] == items[i];
        hide SetStatus, WithEntry;
        PresetIsStored(next, rest, i - 1);
      }
    }
  }

  /** A resource under deletion that had no entry ends with the preset one. */
  lemma UncheckedIsPreset(stored: seq<Status>, env: Env, i: nat)
    requires Unique(stored) && DistinctItems(env.items) && i < |env.items| && env.items[i].deleting
    requires env.fetched && env.prepared && env.listed && PresetsAccepted(stored, env.items)
    requires forall s :: s in stored ==> s.name != env.items[i].name
    ensures Status(env.items[i].name, Unknown, "Verification has not started yet", env.items[i].preset.time) in Reconcile(stored, env).stored
  {
    PresetOkIff(Copies(stored, stored), env.items);
    PresetIsStored(Copies(stored, stored), env.items, i);
    PresetEffect(Copies(stored, stored), env.items);
    var c, s := Preset(Copies(stored, stored), env.items).0, Status(env.items[i].name, Unknown, NotStarted, env.items[i].preset.time);
    assert Untouched(s, KnownTrue(stored), env.items) by {
      forall it | it in env.items && it.name == s.name ensures it.deleting {
        var j :| 0 <= j < |env.items| && env.items[j] == it;
      }
    }
    CheckAllKeeps(c, stored, KnownTrue(stored), env.items, s);
  }

  /** Exactly when a reconcile reports failure, and that it leaves everything alone when it cannot begin. */
  lemma ReportIff(stored: seq<Status>, env: Env)
    requires Unique(stored) && DistinctItems(env.items)
    ensures var r := Reconcile(stored, env);
      && (r.report == NothingDone <==> !env.fetched)
      && (r.report == Failed <==>
            env.fetched && !(env.prepared && env.listed && env.reread && PresetsAccepted(stored, env.items)))
      && (!env.fetched || !env.prepared || !env.listed ==> r.stored == stored && r.passed == {})
  {
    hide Preset, CheckAll, PresetsAccepted;
    PresetOkIff(Copies(stored, stored), env.items);
  }

  // ---------------------------------------------------------------- whole histories

  datatype History = History(stored: seq<Status>, passed: set<string>)

  ghost function Run(envs: seq<Env>): History {
    if envs == [] then History([], {})
    else
      var before := Run(envs[..|envs| - 1]);
      var r := Reconcile(before.stored, envs[|envs| - 1]);
      History(r.stored, before.passed + r.passed)
  }

  /** A history is one reconcile behind the other, from an empty list. */
  lemma RunSnoc(envs: seq<Env>, env: Env)
    ensures Run([]) == History([], {})
    ensures var before, r := Run(envs), Reconcile(Run(envs).stored, env);
      Run(envs + [env]) == History(r.stored, before.passed + r.passed)
  {
    hide Reconcile;
    assert (envs + [env])[..|envs + [env]| - 1] == envs;
  }

  /** In every history: names are unique, and a stored True goes back to a check that returned verified
      without error. */
  lemma {:induction false} TrueIsEarned(envs: seq<Env>)
    ensures var h := Run(envs);
      && Unique(h.stored)
      && (forall s :: s in h.stored && s.verdict == Verified ==> s.name in h.passed)
      && (forall name :: name in h.passed ==> VerifiedIn(envs, name))
    decreases |envs|
  {
    if envs != [] {
      var n := |envs| - 1;
      TrueIsEarned(envs[..n]);
      ReconcileIsSound(Run(envs[..n]).stored, envs[n]);
      forall name | name in Run(envs).passed ensures VerifiedIn(envs, name) {
        if name in Run(envs[..n]).passed {
          var m :| 0 <= m < n && SaysVerified(envs[..n][m].items, name);
          assert envs[m] == envs[..n][m];
        } else {
          PassedSaysVerified(Run(envs[..n]).stored, envs[n], name);
        }
      }
    }
  }

  /** A listed resource of this name, not under deletion, whose check returned verified and no error. */
  ghost predicate SaysVerified(items: seq<Item>, name: string) {
    exists it :: it in items && it.name == name && !it.deleting && it.verified && !it.failed
  }

  ghost predicate VerifiedIn(envs: seq<Env>, name: string) {
    exists m :: 0 <= m < |envs| && SaysVerified(envs[m].items, name)
  }

  lemma PassedSaysVerified(stored: seq<Status>, env: Env, name: string)
    requires name in Reconcile(stored, env).passed
    ensures SaysVerified(env.items, name)
  {
    var it :| it in env.items && Checked(it, KnownTrue(stored)) && Outcome(it) == Verified && it.name == name;
  }

  /** While no reconcile can check it, an entry that is not True stays, and no reconcile reports completion. */
  lemma {:induction false} BlockedForever(envs: seq<Env>, n: nat, s: Status)
    requires n <= |envs| && s in Run(envs[..n]).stored && s.verdict != Verified
    requires forall m :: n <= m < |envs| ==> OutOfReach(s, envs[m])
    ensures s in Run(envs).stored
    ensures forall m :: n <= m < |envs| ==> Reconcile(Run(envs[..m]).stored, envs[m]).report != Completed
    decreases |envs|
  {
    hide OutOfReach, Reconcile, Unique;
    if n == |envs| {
      assert envs[..n] == envs;
    } else {
      var last := |envs| - 1;
      var init := envs[..last];
      assert forall m :: 0 <= m <= last ==> init[..m] == envs[..m];
      assert forall m :: 0 <= m < last ==> init[m] == envs[m];
      BlockedForever(init, n, s);
      TrueIsEarned(init);
      UncheckedEntryBlocks(Run(init).stored, envs[last], s);
    }
  }

  /** A True entry, once stored, is in every later state of the history. */
  lemma {:induction false} TrueForever(envs: seq<Env>, n: nat, s: Status)
    requires n <= |envs| && s in Run(envs[..n]).stored && s.verdict == Verified
    ensures s in Run(envs).stored
    decreases |envs|
  {
    if n == |envs| {
      assert envs[..n] == envs;
    } else {
      var init := envs[..|envs| - 1];
      assert init[..n] == envs[..n];
      TrueForever(init, n, s);
      TrueIsEarned(init);
      TrueIsSticky(Run(init).stored, envs[|envs| - 1], s);
    }
  }

  // ---------------------------------------------------------------- the controller

  lemma PresetNext(c: Copies, items: seq<Item>, i: nat)
    requires i < |items|
    ensures var it, now := items[i], Preset(c, items[i..]);
      var pv := WithEntry(c.pv, it.name);
      var next := SetStatus(c, it.name, Unknown, NotStarted, it.preset);
      && Find(pv, it.name) < |pv|
      && now == if pv[Find(pv, it.name)].verdict != Unset then Preset(c.(pv := pv), items[i + 1..])
                else if it.preset.ok then Preset(next, items[i + 1..]) else (next, false)
  {
    EntryIsThere(c.pv, items[i].name);
    assert items[i..][1..] == items[i + 1..];
  }

  lemma CheckAllNext(c: Copies, known: set<string>, items: seq<Item>, i: nat)
    requires i < |items|
    ensures var it := items[i];
      var next := if Checked(it, known) then SetStatus(c, it.name, Outcome(it), it.message, it.update) else c;
      CheckAll(c, known, items[i..]) == CheckAll(next, known, items[i + 1..])
  {
    assert items[i..][1..] == items[i + 1..];
  }

  class Controller {
    /** The status list held by the API server. */
    var stored: seq<Status>
    /** The working copy of a reconcile. */
    var pv: seq<Status>

    constructor ()
      ensures stored == []
    {
      stored, pv := [], [];
    }

    ghost function View(): Copies reads this { Copies(pv, stored) }

    /** `getPreflightSRStatus`: the entry's position. */
    method Entry(name: string) returns (i: nat)
      modifies this`pv
      ensures pv == WithEntry(old(pv), name) && i < |pv| && i == Find(pv, name)
    {
      EntryIsThere(pv, name);
      i := 0;
      while i < |pv| && pv[i].name != name
        invariant i <= |pv|
        invariant forall j :: 0 <= j < i ==> pv[j].name != name
      {
        i := i + 1;
      }
      if i == |pv| { pv := pv + [Status(name, Unset, "", 0)]; }
    }

    /** `SetVerificationStatus` on the entry at `i`. */
    method SetVerificationStatus(i: nat, verdict: Verdict, reason: string, w: Write)
      requires i < |pv|
      modifies this
      ensures View() == Patch(old(pv), old(pv)[i := Status(old(pv)[i].name, verdict, reason, w.time)], old(stored), w.ok)
      ensures !w.ok ==> stored == old(stored) && pv == old(pv)[i := Status(old(pv)[i].name, verdict, reason, w.time)]
      ensures w.ok ==> pv == stored
      ensures w.ok && old(pv)[i] == Status(old(pv)[i].name, verdict, reason, w.time) ==> stored == old(stored)
      ensures w.ok && old(pv)[i] != Status(old(pv)[i].name, verdict, reason, w.time) ==>
                stored == old(pv)[i := Status(old(pv)[i].name, verdict, reason, w.time)]
    {
      var original := pv;
      pv := pv[i := Status(pv[i].name, verdict, reason, w.time)];
      if w.ok {
        if original != pv { stored := pv; }
        pv := stored;
      }
    }

    method PresetStatuses(items: seq<Item>) returns (ok: bool)
      modifies this
      ensures (View(), ok) == Preset(old(View()), items)
    {
      hide Preset;
      assert items[0..] == items;
      ghost var whole := Preset(View(), items);
      for n := 0 to |items|
        invariant whole == Preset(View(), items[n..])
      {
        PresetNext(View(), items, n);
        var i := Entry(items[n].name);
        if pv[i].verdict == Unset {
          SetVerificationStatus(i, Unknown, NotStarted, items[n].preset);
          if !items[n].preset.ok { return false; }
        }
      }
      PresetEnd(View(), items);
      ok := true;
    }

    method CheckItems(known: set<string>, items: seq<Item>)
      modifies this
      ensures View() == CheckAll(old(View()), known, items)
    {
      hide CheckAll;
      assert items[0..] == items;
      ghost var whole := CheckAll(View(), known, items);
      for n := 0 to |items|
        invariant whole == CheckAll(View(), known, items[n..])
      {
        CheckAllNext(View(), known, items, n);
        var it := items[n];
        if it.deleting { continue; }
        if it.name in known { continue; }
        var i := Entry(it.name);
        SetVerificationStatus(i, Outcome(it), it.message, it.update);
      }
      CheckAllEnd(View(), known, items);
    }

    method CheckCompletion() returns (done: bool)
      ensures done <==> forall s :: s in stored ==> s.verdict == Verified
    {
      for i := 0 to |stored|
        invariant forall j :: 0 <= j < i ==> stored[j].verdict == Verified
      {
        if stored[i].verdict != Verified {
          assert stored[i] in stored;
          return false;
        }
      }
      done := true;
    }

    method RunPreflightValidation(env: Env) returns (report: Report)
      modifies this
      ensures stored == Reconcile(old(stored), env).stored && report == Reconcile(old(stored), env).report
    {
      if !env.fetched { return NothingDone; }
      pv := stored;
      if !env.prepared || !env.listed { return Failed; }
      var known := KnownTrue(pv);
      var ok := PresetStatuses(env.items);
      if !ok { return Failed; }
      CheckItems(known, env.items);
      if !env.reread { return Failed; }
      var done := CheckCompletion();
      report := if done then Completed else Incomplete;
    }
  }

  lemma PresetEnd(c: Copies, items: seq<Item>)
    ensures Preset(c, items[|items|..]) == (c, true)
  {}

  lemma CheckAllEnd(c: Copies, known: set<string>, items: seq<Item>)
    ensures CheckAll(c, known, items[|items|..]) == c
  {}
}
