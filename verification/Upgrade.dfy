/** pkg/upgrade/upgrade.go, with the taint filter of pkg/clients/clients.go and pkg/utils/osversion.go: which kernels run
    in the cluster, which toolkit belongs to them, and the cache of toolkit data. */
module Upgrade {
  import opened Annotations
  import opened Strings

  // ---------------------------------------------------------------- nodes

  datatype Effect = NoSchedule | PreferNoSchedule | NoExecute

  datatype Node = Node(name: string, kernel: string, osImage: string, taints: seq<Effect>)

  /** `isNodeNotExecOrSchedule`. */
  predicate Repels(n: Node) { NoSchedule in n.taints || NoExecute in n.taints }

  function Untainted(ns: seq<Node>): seq<Node> {
    if ns == [] then []
    else
      var init, last := ns[..|ns| - 1], ns[|ns| - 1];
      if Repels(last) then Untainted(init) else Untainted(init) + [last]
  }

  lemma {:induction false} UntaintedMembers(ns: seq<Node>, n: Node)
    ensures n in Untainted(ns) <==> n in ns && !Repels(n)
    ensures Repels(n) <==> exists i :: 0 <= i < |n.taints| && (n.taints[i] == NoSchedule || n.taints[i] == NoExecute)
    ensures |Untainted(ns)| <= |ns|
  {
    if ns != [] {
      var init := ns[..|ns| - 1];
      assert ns == init + [ns[|ns| - 1]];
      UntaintedMembers(init, n);
    }
  }

  /** The nodes that stay keep their order. */
  lemma {:induction false} UntaintedConcat(a: seq<Node>, b: seq<Node>)
    ensures Untainted(a + b) == Untainted(a) + Untainted(b)
    decreases |b|
  {
    if b == [] {
      assert a + b == a;
    } else {
      assert (a + b)[..|a + b| - 1] == a + b[..|b| - 1];
      UntaintedConcat(a, b[..|b| - 1]);
    }
  }

  /** The filter of `GetNodesByLabels`: it overwrites the list in its own backing array while reading it. */
  method FilterTaints(items: array<Node>) returns (n: nat)
    modifies items
    ensures n <= items.Length && items[..n] == Untainted(old(items[..]))
  {
    ghost var all := items[..];
    n := 0;
    for i := 0 to items.Length
      invariant n <= i
      invariant items[..n] == Untainted(all[..i])
      invariant forall k :: i <= k < items.Length ==> items[k] == all[k]
    {
      assert all[..i + 1][..i] == all[..i];
      var node := items[i];
      var repels := false;
      for t := 0 to |node.taints|
        invariant repels <==> NoSchedule in node.taints[..t] || NoExecute in node.taints[..t]
      {
        assert node.taints[..t + 1] == node.taints[..t] + [node.taints[t]];
        if node.taints[t] == NoSchedule || node.taints[t] == NoExecute { repels := true; }
      }
      assert node.taints[..|node.taints|] == node.taints;
      if repels { continue; }
      items[n] := node;
      n := n + 1;
    }
    assert all[..items.Length] == all;
  }

  // ---------------------------------------------------------------- operating system strings

  predicate AllDigits(s: string) { forall i :: 0 <= i < |s| ==> Digit(s[i]) }

  /** The end of the run of digits that starts at `i`. */
  function DigitsEnd(s: string, i: nat): (r: nat)
    requires i <= |s|
    ensures i <= r <= |s| && (forall k :: i <= k < r ==> Digit(s[k])) && (r < |s| ==> !Digit(s[r]))
    decreases |s| - i
  {
    if i < |s| && Digit(s[i]) then DigitsEnd(s, i + 1) else i
  }

  /** A match of `(\d{2,})\.(\d{2,})\.\d{12}-\d` at `i`: the two groups. */
  function MatchAt(s: string, i: nat): (r: Option<(string, string)>)
    requires i <= |s|
    ensures r.Some? ==> |r.value.0| >= 2 && |r.value.1| >= 2 && AllDigits(r.value.0) && AllDigits(r.value.1)
  {
    var a := DigitsEnd(s, i);
    if a < i + 2 || a >= |s| || s[a] != '.' then None
    else
      var b := DigitsEnd(s, a + 1);
      if b < a + 3 || b + 14 >= |s| || s[b] != '.' then None
      else if (forall k :: b + 1 <= k < b + 13 ==> Digit(s[k])) && s[b + 13] == '-' && Digit(s[b + 14])
      then Some((s[i..a], s[a + 1..b])) else None
  }

  /** The text at `i`: two groups of digits, a time stamp of twelve digits and a number. */
  ghost predicate Reads(s: string, i: nat, first: string, second: string, stamp: string, last: char)
    requires i <= |s|
  {
    && |first| >= 2 && |second| >= 2 && |stamp| == 12 && AllDigits(first) && AllDigits(second) && AllDigits(stamp) && Digit(last)
    && first + "." + second + "." + stamp + "-" + [last] <= s[i..]
  }

  lemma DigitsEndIs(s: string, i: nat, r: nat)
    requires i <= r < |s| && (forall k :: i <= k < r ==> Digit(s[k])) && !Digit(s[r])
    ensures DigitsEnd(s, i) == r
  {}

  /** A match is found at `i` exactly when the text there reads so, and its groups are the two first numbers, in order. */
  lemma MatchIff(s: string, i: nat, first: string, second: string)
    requires i <= |s|
    ensures MatchAt(s, i) == Some((first, second)) <==> exists stamp, last :: Reads(s, i, first, second, stamp, last)
  {
    if MatchAt(s, i) == Some((first, second)) {
      var a := DigitsEnd(s, i);
      var b := DigitsEnd(s, a + 1);
      var stamp, last := s[b + 1..b + 13], s[b + 14];
      assert first == s[i..a] && second == s[a + 1..b];
      assert s[i..a] + "." + s[a + 1..b] == s[i..b];
      assert s[i..b] + "." + stamp + "-" + [last] == s[i..b + 15];
      assert s[i..b + 15] == s[i..][..b + 15 - i];
      assert Reads(s, i, first, second, stamp, last);
    }
    if stamp, last :| Reads(s, i, first, second, stamp, last) { ReadsMatches(s, i, first, second, stamp, last); }
  }

  lemma ReadsMatches(s: string, i: nat, first: string, second: string, stamp: string, last: char)
    requires i <= |s| && Reads(s, i, first, second, stamp, last)
    ensures MatchAt(s, i) == Some((first, second))
  {
    var a := i + |first|;
    var b := a + 1 + |second|;
    TextParts(s, i, first, second, stamp, last);
    hide Reads;
    forall k | i <= k < a ensures Digit(s[k]) { assert s[k] == s[i..a][k - i]; }
    forall k | a + 1 <= k < b ensures Digit(s[k]) { assert s[k] == s[a + 1..b][k - a - 1]; }
    forall k | b + 1 <= k < b + 13 ensures Digit(s[k]) { assert s[k] == s[b + 1..b + 13][k - b - 1]; }
    DigitsEndIs(s, i, a);
    DigitsEndIs(s, a + 1, b);
    hide DigitsEnd;
  }

  lemma TextParts(s: string, i: nat, first: string, second: string, stamp: string, last: char)
    requires i <= |s| && Reads(s, i, first, second, stamp, last)
    ensures var a := i + |first|;
      var b := a + 1 + |second|;
      && b + 14 < |s| && AllDigits(first) && AllDigits(second) && AllDigits(stamp) && Digit(last)
      && |first| >= 2 && |second| >= 2 && |stamp| == 12
      && s[i..a] == first && s[a] == '.' && s[a + 1..b] == second && s[b] == '.'
      && s[b + 1..b + 13] == stamp && s[b + 13] == '-' && s[b + 14] == last
  {
    hide AllDigits, Digit;
    var text := first + "." + second + "." + stamp + "-" + [last];
    var n := |first| + |second| + 16;
    assert |text| == n && s[i..][..n] == text;
    var t := s[i..i + n];
    assert t == s[i..][..n];
    assert t[..|first|] == first && t[|first|] == '.';
    assert t[|first| + 1..|first| + 1 + |second|] == second && t[|first| + 1 + |second|] == '.';
    assert t[|first| + |second| + 2..|first| + |second| + 14] == stamp;
    assert t[|first| + |second| + 14] == '-' && t[|first| + |second| + 15] == last;
    SlicesOf(s, i, t, |first|, |second|);
  }

  lemma SlicesOf(s: string, i: nat, t: string, m: nat, n: nat)
    requires |t| == m + n + 16 && i + |t| <= |s| && s[i..i + |t|] == t
    ensures var a := i + m;
      var b := a + 1 + n;
      && s[i..a] == t[..m] && s[a] == t[m] && s[a + 1..b] == t[m + 1..m + 1 + n] && s[b] == t[m + 1 + n]
      && s[b + 1..b + 13] == t[m + n + 2..m + n + 14] && s[b + 13] == t[m + n + 14] && s[b + 14] == t[m + n + 15]
  {
    assert forall k :: 0 <= k < |t| ==> s[i + k] == t[k];
  }

  function FindMatch(s: string, i: nat): (r: Option<(string, string)>)
    requires i <= |s|
    ensures r.Some? ==> |r.value.0| >= 2 && |r.value.1| >= 2 && AllDigits(r.value.0) && AllDigits(r.value.1)
    ensures r.None? <==> forall k :: i <= k <= |s| ==> MatchAt(s, k).None?
    decreases |s| - i
  {
    if MatchAt(s, i).Some? then MatchAt(s, i)
    else if i == |s| then None else FindMatch(s, i + 1)
  }

  lemma {:induction false} FirstMatchCounts(s: string, i: nat, k: nat)
    requires i <= k <= |s| && MatchAt(s, k).Some? && forall j :: i <= j < k ==> MatchAt(s, j).None?
    ensures FindMatch(s, i) == MatchAt(s, k)
    decreases k - i
  {
    hide MatchAt;
    if i < k { FirstMatchCounts(s, i + 1, k); }
  }

  /** "84" becomes "8.4". */
  function Pointed(digits: string): string
    requires digits != ""
  {
    [digits[0]] + "." + digits[1..]
  }

  /** One digit, a point, and at least one more digit. */
  predicate IsVersion(v: string) {
    |v| >= 3 && v[1] == '.' && forall i :: 0 <= i < |v| && i != 1 ==> Digit(v[i])
  }

  lemma PointedIsVersion(digits: string)
    requires |digits| >= 2 && AllDigits(digits)
    ensures IsVersion(Pointed(digits))
  {
    assert forall i :: 2 <= i < |digits| + 1 ==> Pointed(digits)[i] == digits[i - 1];
  }

  lemma VersionHasNoDash(v: string)
    requires IsVersion(v)
    ensures '-' !in v
  {}

  datatype OSInfo = OSInfo(cluster: string, os: string, osMajor: string)

  /** Versions such as 8.4 from an image name such as 49.84.202201102104-0. Both are digits around a point, the major
      version is the digit before it, and there is no result exactly when the pattern matches nowhere. */
  function ParseOSInfo(osImage: string): (r: Option<OSInfo>)
    ensures r.Some? ==> IsVersion(r.value.os) && IsVersion(r.value.cluster) && r.value.osMajor == r.value.os[..1]
    ensures r.None? <==> forall i :: 0 <= i <= |osImage| ==> MatchAt(osImage, i).None?
  {
    match FindMatch(osImage, 0)
    case None => None
    case Some(m) =>
      PointedIsVersion(m.0);
      PointedIsVersion(m.1);
      Some(OSInfo(Pointed(m.0), Pointed(m.1), [m.1[0]]))
  }

  /** The image name reads so at `i` and nothing reads so before: the cluster version is the first number and the OS
      version the second, each with a point behind its first digit; the major version is that digit of the OS. */
  lemma ParsedFromText(osImage: string, i: nat, first: string, second: string, stamp: string, last: char)
    requires i <= |osImage| && Reads(osImage, i, first, second, stamp, last)
    requires forall j :: 0 <= j < i ==> MatchAt(osImage, j).None?
    ensures ParseOSInfo(osImage) ==
            Some(OSInfo([first[0]] + "." + first[1..], [second[0]] + "." + second[1..], [second[0]]))
  {
    ReadsMatches(osImage, i, first, second, stamp, last);
    FirstMatchCounts(osImage, 0, i);
    hide MatchAt, Reads, Digit, FindMatch;
  }

  // ---------------------------------------------------------------- kernels of the cluster

  datatype Toolkit = Toolkit(imageURL: string, kernel: string, rtKernel: string, os: string)

  datatype NodeVersion = NodeVersion(os: string, osMajor: string, osMajorMinor: string, cluster: string, toolkit: Option<Toolkit>)

  function VersionOf(n: Node): Option<NodeVersion> {
    if n.kernel == "" then None
    else match ParseOSInfo(n.osImage)
      case None => None
      case Some(i) => Some(NodeVersion(i.os, "rhel" + i.osMajor, "rhel" + i.os, i.cluster, None))
  }

  /** The version of the last node that runs kernel `k`. */
  function LastWith(ns: seq<Node>, k: string): Option<NodeVersion> {
    if ns == [] then None
    else if ns[|ns| - 1].kernel == k then VersionOf(ns[|ns| - 1]) else LastWith(ns[..|ns| - 1], k)
  }

  ghost predicate Describes(info: map<string, NodeVersion>, ns: seq<Node>) {
    && (forall k :: k in info <==> exists n :: n in ns && n.kernel == k)
    && (forall k :: k in info ==> LastWith(ns, k) == Some(info[k]))
  }

  /** What is known of a node follows from its kernel and from the text of its image name. */
  lemma VersionFromText(n: Node, i: nat, first: string, second: string, stamp: string, last: char)
    requires n.kernel != "" && i <= |n.osImage| && Reads(n.osImage, i, first, second, stamp, last)
    requires forall j :: 0 <= j < i ==> MatchAt(n.osImage, j).None?
    ensures var os := [second[0]] + "." + second[1..];
      VersionOf(n) == Some(NodeVersion(os, "rhel" + [second[0]], "rhel" + os, [first[0]] + "." + first[1..], None))
  {
    ParsedFromText(n.osImage, i, first, second, stamp, last);
  }

  ghost predicate ReadsSomewhere(s: string) {
    exists i, first, second, stamp, last :: 0 <= i <= |s| && Reads(s, i, first, second, stamp, last)
  }

  /** A node cannot be read exactly when it has no kernel or nothing in its image name reads as a version. */
  lemma UnreadableIff(n: Node)
    ensures VersionOf(n).None? <==> (|n.kernel| == 0 || !ReadsSomewhere(n.osImage))
  {
    if |n.kernel| != 0 {
      if VersionOf(n).None? {
        if ReadsSomewhere(n.osImage) {
          var i, first, second, stamp, last :| 0 <= i <= |n.osImage| && Reads(n.osImage, i, first, second, stamp, last);
          ReadsMatches(n.osImage, i, first, second, stamp, last);
        }
      } else {
        var i :| 0 <= i <= |n.osImage| && MatchAt(n.osImage, i).Some?;
        var m := MatchAt(n.osImage, i).value;
        hide Reads, MatchAt;
        MatchIff(n.osImage, i, m.0, m.1);
      }
    }
  }

  /** The version that counts for a kernel is that of the last node running it. */
  lemma {:induction false} LastWithIs(ns: seq<Node>, k: string, i: nat)
    requires i < |ns| && ns[i].kernel == k && forall j :: i < j < |ns| ==> ns[j].kernel != k
    ensures LastWith(ns, k) == VersionOf(ns[i])
    decreases |ns|
  {
    if i + 1 < |ns| { LastWithIs(ns[..|ns| - 1], k, i); }
  }

  method NodeVersionInfo(ns: seq<Node>) returns (r: Option<map<string, NodeVersion>>)
    ensures r == Description(ns)
    ensures r.None? <==> exists n :: n in ns && VersionOf(n).None?
    ensures r.Some? ==> Describes(r.value, ns)
  {
    var info: map<string, NodeVersion> := map[];
    for i := 0 to |ns|
      invariant forall n :: n in ns[..i] ==> VersionOf(n).Some?
      invariant Describes(info, ns[..i]) && Description(ns[..i]) == Some(info)
    {
      var n := ns[i];
      assert n in ns && ns[..i + 1][..i] == ns[..i];
      if |n.kernel| == 0 { return None; }
      var parsed := ParseOSInfo(n.osImage);
      if parsed.None? { return None; }
      DescribesNext(info, ns, i);
      info := info[n.kernel := NodeVersion(parsed.value.os, "rhel" + parsed.value.osMajor, "rhel" + parsed.value.os, parsed.value.cluster, None)];
    }
    assert ns[..|ns|] == ns;
    r := Some(info);
  }

  lemma DescribesNext(info: map<string, NodeVersion>, ns: seq<Node>, i: nat)
    requires i < |ns| && Describes(info, ns[..i]) && VersionOf(ns[i]).Some?
    ensures Describes(info[ns[i].kernel := VersionOf(ns[i]).value], ns[..i + 1])
    ensures forall n :: n in ns[..i + 1] <==> n in ns[..i] || n == ns[i]
  {
    hide VersionOf;
    var next := info[ns[i].kernel := VersionOf(ns[i]).value];
    assert ns[..i + 1] == ns[..i] + [ns[i]] && ns[..i + 1][..i] == ns[..i];
    forall k ensures k in next <==> exists n :: n in ns[..i + 1] && n.kernel == k {
      if k == ns[i].kernel { assert ns[i] in ns[..i + 1]; }
      if k in info {
        var n :| n in ns[..i] && n.kernel == k;
        assert n in ns[..i + 1];
      }
    }
  }

  // ---------------------------------------------------------------- toolkit data

  /** Adds the running architecture to both kernels, unless the plain kernel already names it. */
  function WithArch(t: Toolkit, arch: string): Toolkit {
    if Contains(t.kernel, arch) then t
    else t.(kernel := t.kernel + "." + arch, rtKernel := t.rtKernel + "." + arch)
  }

  /** `updateInfo`: sets the toolkit of the kernels it is for; fails on another OS version or without a match. */
  function UpdateInfo(info: map<string, NodeVersion>, toolkit: Toolkit, imageURL: string,
                      arch: string): Option<map<string, NodeVersion>> {
    var t := WithArch(toolkit.(imageURL := imageURL), arch);
    var plain, rt := t.kernel in info, t.rtKernel in info;
    if (plain && info[t.kernel].os != t.os) || (rt && info[t.rtKernel].os != t.os) || (!plain && !rt) then None
    else
      var first := if plain then info[t.kernel := info[t.kernel].(toolkit := Some(t))] else info;
      Some(if rt then first[t.rtKernel := first[t.rtKernel].(toolkit := Some(t))] else first)
  }

  /** Toolkit data never adds or drops a kernel, nor changes what is known of the nodes. */
  lemma UpdateKeepsKernels(info: map<string, NodeVersion>, toolkit: Toolkit, imageURL: string, arch: string)
    ensures var r := UpdateInfo(info, toolkit, imageURL, arch);
      r.Some? ==> r.value.Keys == info.Keys && forall k :: k in info ==> r.value[k].(toolkit := info[k].toolkit) == info[k]
  {}

  /** Exactly when toolkit data can be used, and what it sets: the toolkit as the registry describes it, with the image and
      both kernels carrying the architecture, for the nodes of these two kernels and no others. */
  lemma UpdateInfoIff(info: map<string, NodeVersion>, t: Toolkit, imageURL: string, arch: string)
    ensures var named := exists a, b :: t.kernel == a + arch + b;
      var kernel := if named then t.kernel else t.kernel + "." + arch;
      var rt := if named then t.rtKernel else t.rtKernel + "." + arch;
      var r := UpdateInfo(info, t, imageURL, arch);
      && (r.Some? <==> (kernel in info || rt in info) && (kernel in info ==> info[kernel].os == t.os)
                       && (rt in info ==> info[rt].os == t.os))
      && (r.Some? ==> r.value.Keys == info.Keys)
      && (r.Some? ==> forall k :: k in info ==>
            r.value[k] == info[k].(toolkit := if k == kernel || k == rt then Some(Toolkit(imageURL, kernel, rt, t.os)) else info[k].toolkit))
  {
    ContainsIff(t.kernel, arch);
    hide Contains;
  }

  /** The architecture suffix is not repeated when the data is used again. */
  lemma ArchSuffixIsStable(t: Toolkit, arch: string)
    ensures Contains(WithArch(t, arch).kernel, arch)
    ensures WithArch(WithArch(t, arch), arch) == WithArch(t, arch)
  {
    if !Contains(t.kernel, arch) {
      ContainsMiddle(t.kernel + ".", arch, "");
      assert t.kernel + "." + arch + "" == t.kernel + "." + arch;
    }
  }

  /** The real-time kernel gets a second suffix if and only if it names the architecture and the plain one does not:
      only the plain kernel is looked at. */
  lemma RealTimeSuffixDoubledIff(t: Toolkit, arch: string)
    ensures Contains(t.rtKernel, arch) && WithArch(t, arch).rtKernel != t.rtKernel <==>
            Contains(t.rtKernel, arch) && !Contains(t.kernel, arch)
  {
    assert |t.rtKernel + "." + arch| > |t.rtKernel|;
  }

  /** What that costs: a node that runs the real-time kernel as the toolkit spells it is given the toolkit if and only if
      the plain kernel names the architecture, or the two kernels agree once the plain one has its suffix. */
  lemma RealTimeNodeGetsToolkitIff(info: map<string, NodeVersion>, toolkit: Toolkit, imageURL: string, arch: string)
    requires toolkit.rtKernel in info && info[toolkit.rtKernel].toolkit.None?
    requires UpdateInfo(info, toolkit, imageURL, arch).Some?
    ensures UpdateInfo(info, toolkit, imageURL, arch).value[toolkit.rtKernel].toolkit.Some? <==>
            Contains(toolkit.kernel, arch) || toolkit.rtKernel == toolkit.kernel + "." + arch
  {
    hide Contains;
    assert |toolkit.rtKernel + "." + arch| > |toolkit.rtKernel|;
  }

  // ---------------------------------------------------------------- calls and the cache

  /** What the cluster information should be, with a registry that always answers `truth`. */
  function ClusterInfoSpec(info: map<string, NodeVersion>, images: seq<string>, truth: string -> Toolkit,
                           arch: string): Option<map<string, NodeVersion>> {
    if images == [] then Some(info) else UpdateInfo(info, truth(images[0]), images[0], arch)
  }

  /** What is known of the nodes: their kernels, unless a node cannot be read. */
  function Description(ns: seq<Node>): (r: Option<map<string, NodeVersion>>)
    ensures r.None? <==> exists n :: n in ns && VersionOf(n).None?
    ensures r.Some? ==> Describes(r.value, ns)
  {
    if ns == [] then Some(map[])
    else
      var i := |ns| - 1;
      var before, v := Description(ns[..i]), VersionOf(ns[i]);
      assert ns[..i + 1] == ns && ns == ns[..i] + [ns[i]];
      hide VersionOf, Describes;
      if before.None? || v.None? then None
      else
        DescribesNext(before.value, ns, i);
        Some(before.value[ns[i].kernel := v.value])
  }

  /** A call of `GetClusterInfo`: the nodes, the toolkit images if their lookup succeeds, whether the registry answers. */
  datatype Call = Call(nodes: seq<Node>, listed: Option<seq<string>>, answers: bool)

  /** The call comes as far as asking for the data of a toolkit image. */
  predicate Asks(c: Call) { Description(c.nodes).Some? && c.listed.Some? && c.listed.value != [] }

  /** What a call should return when it has all data: nothing in here knows of a cache. */
  function Ideal(c: Call, truth: string -> Toolkit, arch: string): Option<map<string, NodeVersion>> {
    if Description(c.nodes).None? || c.listed.None? then None
    else ClusterInfoSpec(Description(c.nodes).value, c.listed.value, truth, arch)
  }

  /** It takes the first of the toolkit images, if there is one. */
  lemma IdealTakesFirst(c: Call, truth: string -> Toolkit, arch: string)
    requires Description(c.nodes).Some? && c.listed.Some?
    ensures c.listed.value == [] ==> Ideal(c, truth, arch) == Description(c.nodes)
    ensures c.listed.value != [] ==>
      (var image := c.listed.value[0]; Ideal(c, truth, arch) == UpdateInfo(Description(c.nodes).value, truth(image), image, arch))
  {}

  /** What it returns with a cache that knows the images `known`, and which images it knows then. */
  function Answer(known: set<string>, c: Call, truth: string -> Toolkit,
                  arch: string): (Option<map<string, NodeVersion>>, set<string>) {
    if Asks(c) && c.listed.value[0] !in known && !c.answers then (None, known)
    else (Ideal(c, truth, arch), if Asks(c) then known + {c.listed.value[0]} else known)
  }

  /** The images known behind a series of calls. */
  function KnownAfter(calls: seq<Call>, truth: string -> Toolkit, arch: string): set<string> {
    if calls == [] then {} else Answer(KnownAfter(calls[..|calls| - 1], truth, arch), calls[|calls| - 1], truth, arch).1
  }

  /** Some call asked for the image while the registry answered. */
  ghost predicate Fetched(calls: seq<Call>, image: string) {
    exists i :: 0 <= i < |calls| && Asks(calls[i]) && calls[i].listed.value[0] == image && calls[i].answers
  }

  lemma {:induction false} KnownIffFetched(calls: seq<Call>, image: string, truth: string -> Toolkit, arch: string)
    ensures image in KnownAfter(calls, truth, arch) <==> Fetched(calls, image)
    decreases |calls|
  {
    hide Description, Ideal;
    if calls != [] {
      var n := |calls| - 1;
      KnownIffFetched(calls[..n], image, truth, arch);
      if Asks(calls[n]) { KnownIffFetched(calls[..n], calls[n].listed.value[0], truth, arch); }
      FetchedNext(calls, image);
      if Asks(calls[n]) && Fetched(calls[..n], calls[n].listed.value[0]) { FetchedNext(calls, calls[n].listed.value[0]); }
    }
  }

  lemma FetchedNext(calls: seq<Call>, image: string)
    requires calls != []
    ensures var n := |calls| - 1;
      Fetched(calls, image) <==>
        Fetched(calls[..n], image) || (Asks(calls[n]) && calls[n].listed.value[0] == image && calls[n].answers)
  {
    hide Description;
    var n := |calls| - 1;
    assert forall i :: 0 <= i < n ==> calls[..n][i] == calls[i];
  }

  /** Over any calls, the cache shows in nothing but this: a call returns what it should with a registry that answers,
      unless the registry does not and no earlier call has fetched the image. */
  lemma CacheIsTransparent(calls: seq<Call>, c: Call, truth: string -> Toolkit, arch: string)
    ensures Answer(KnownAfter(calls, truth, arch), c, truth, arch).0 ==
            if Asks(c) && !c.answers && !Fetched(calls, c.listed.value[0]) then None else Ideal(c, truth, arch)
  {
    hide Description, Ideal, KnownAfter, Fetched;
    if Asks(c) { KnownIffFetched(calls, c.listed.value[0], truth, arch); }
  }

  /** A call that succeeded gives the same again on the same nodes and images, with or without the registry. */
  lemma RepeatNeedsNoRegistry(known: set<string>, c: Call, answers: bool, truth: string -> Toolkit, arch: string)
    requires Answer(known, c, truth, arch).0.Some?
    ensures var first := Answer(known, c, truth, arch);
      Answer(first.1, c.(answers := answers), truth, arch).0 == first.0
  {
    hide Description, UpdateInfo;
  }

  /** A cached entry: callers get a pointer to it. */
  class Cell {
    var entry: Toolkit
    constructor (e: Toolkit) ensures entry == e { entry := e; }
  }

  class ClusterInfo {
    var cache: map<string, Cell>
    /** What the registry says about each image whenever it answers. */
    const truth: string -> Toolkit
    const arch: string

    /** The cache holds nothing but the registry's data. */
    ghost predicate Valid()
      reads this, cache.Values
    {
      forall i :: i in cache ==> cache[i].entry == truth(i)
    }

    constructor (truth: string -> Toolkit, arch: string)
      ensures Valid() && cache == map[] && this.truth == truth && this.arch == arch
    {
      cache, this.truth, this.arch := map[], truth, arch;
    }

    /** Cached data needs no registry; a failure is returned and not cached; data is the registry's either way. */
    method GetDTKData(image: string, answers: bool) returns (r: Option<Cell>)
      requires Valid()
      modifies this`cache
      ensures Valid()
      ensures r.None? <==> image !in old(cache) && !answers
      ensures r.Some? ==> r.value.entry == truth(image) && cache.Keys == old(cache).Keys + {image}
      ensures r.None? ==> cache == old(cache)
      ensures forall i :: i in old(cache) ==> i in cache && cache[i] == old(cache)[i]
    {
      if image in cache { return Some(cache[image]); }
      if !answers { return None; }
      var cell := new Cell(truth(image));
      cache := cache[image := cell];
      r := Some(cell);
    }

    /** Works on a copy of the data: no cached entry changes. */
    method DriverToolkitVersion(images: seq<string>, info: map<string, NodeVersion>, answers: bool)
      returns (r: Option<map<string, NodeVersion>>)
      requires Valid()
      modifies this`cache
      ensures Valid()
      ensures r.Some? ==> r == ClusterInfoSpec(info, images, truth, arch)
      ensures images == [] || images[0] in old(cache) || answers ==> r == ClusterInfoSpec(info, images, truth, arch)
      ensures images != [] && images[0] !in old(cache) && !answers ==> r.None?
      ensures cache.Keys == old(cache).Keys + if images == [] || (images[0] !in old(cache) && !answers) then {} else {images[0]}
    {
      if images == [] { return Some(info); }
      var image := images[0];
      var cell := GetDTKData(image, answers);
      if cell.None? { return None; }
      var copy := cell.value.entry;
      copy := copy.(imageURL := image);
      if !Contains(copy.kernel, arch) {
        copy := copy.(kernel := copy.kernel + "." + arch, rtKernel := copy.rtKernel + "." + arch);
      }
      hide Contains;
      var updated := info;
      var found := false;
      if copy.kernel in updated {
        if updated[copy.kernel].os != copy.os { return None; }
        updated := updated[copy.kernel := updated[copy.kernel].(toolkit := Some(copy))];
        found := true;
      }
      if copy.rtKernel in updated {
        if updated[copy.rtKernel].os != copy.os { return None; }
        updated := updated[copy.rtKernel := updated[copy.rtKernel].(toolkit := Some(copy))];
        found := true;
      }
      if !found { return None; }
      r := Some(updated);
    }

    /** `GetClusterInfo`: the result depends on the nodes, the images and the registry's data, not on the cache; so
        repeated calls agree. Its kernels are exactly those of the nodes. `listed` is nothing if the lookup of the toolkit
        images fails. */
    method GetClusterInfo(ns: seq<Node>, listed: Option<seq<string>>, answers: bool)
      returns (r: Option<map<string, NodeVersion>>)
      requires Valid()
      modifies this`cache
      ensures Valid()
      ensures (r, cache.Keys) == Answer(old(cache).Keys, Call(ns, listed, answers), truth, arch)
      ensures r.Some? ==> forall k :: k in r.value <==> exists n :: n in ns && n.kernel == k
      ensures r.Some? ==> forall k :: k in r.value ==> '-' !in r.value[k].os
    {
      hide Description, Describes, ClusterInfoSpec, VersionOf;
      var info := NodeVersionInfo(ns);
      if info.None? { return None; }
      if listed.None? { return None; }
      r := DriverToolkitVersion(listed.value, info.value, answers);
      if r.Some? { SpecKeepsKernels(info.value, ns, listed.value, truth, arch); }
      assert old(cache).Keys + {} == old(cache).Keys;
    }
  }

  lemma SpecKeepsKernels(info: map<string, NodeVersion>, ns: seq<Node>, images: seq<string>, truth: string -> Toolkit,
                         arch: string)
    requires Describes(info, ns) && ClusterInfoSpec(info, images, truth, arch).Some?
    ensures var r := ClusterInfoSpec(info, images, truth, arch).value;
      && (forall k :: k in r <==> exists n :: n in ns && n.kernel == k)
      && (forall k :: k in r ==> '-' !in r[k].os)
  {
    if images != [] { UpdateKeepsKernels(info, truth(images[0]), images[0], arch); }
    VersionsHaveNoDash(info, ns);
    hide UpdateInfo, LastWith;
  }

  lemma {:induction false} LastWithHasNoDash(ns: seq<Node>, k: string)
    ensures LastWith(ns, k).Some? ==> '-' !in LastWith(ns, k).value.os
  {
    if ns != [] {
      LastWithHasNoDash(ns[..|ns| - 1], k);
      var v := VersionOf(ns[|ns| - 1]);
      if v.Some? { VersionHasNoDash(v.value.os); }
    }
  }

  lemma VersionsHaveNoDash(info: map<string, NodeVersion>, ns: seq<Node>)
    requires Describes(info, ns)
    ensures forall k :: k in info ==> '-' !in info[k].os
  {
    forall k | k in info ensures '-' !in info[k].os { LastWithHasNoDash(ns, k); }
  }

  /** The description of the nodes is unique, so two calls on the same nodes start from the same map. */
  lemma DescriptionIsUnique(a: map<string, NodeVersion>, b: map<string, NodeVersion>, ns: seq<Node>)
    requires Describes(a, ns) && Describes(b, ns)
    ensures a == b
  {
    assert a.Keys == b.Keys;
    forall k | k in a ensures a[k] == b[k] { assert Some(a[k]) == Some(b[k]); }
  }
}
