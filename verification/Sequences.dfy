/** Facts about lists without repetitions. */
module Sequences {

  ghost predicate Distinct<T>(xs: seq<T>) {
    forall i, j :: 0 <= i < j < |xs| ==> xs[i] != xs[j]
  }

  lemma MultisetTail<T>(a: seq<T>)
    requires a != []
    ensures multiset(a[1..]) == multiset(a) - multiset{a[0]}
  {
    assert a == [a[0]] + a[1..];
  }

  lemma EmptyOrMember<T>(xs: seq<T>)
    ensures xs == [] || exists x :: x in xs
  {
    if xs != [] { assert xs[0] in xs; }
  }

  lemma DistinctTail<T>(xs: seq<T>)
    requires xs != [] && Distinct(xs)
    ensures Distinct(xs[1..]) && xs[0] !in xs[1..]
  {
    forall i | 0 <= i < |xs[1..]| ensures xs[1..][i] != xs[0] { assert xs[1..][i] == xs[i + 1]; }
  }

  lemma {:induction false} DistinctMultiset<T>(xs: seq<T>)
    requires Distinct(xs)
    ensures forall x :: multiset(xs)[x] == if x in xs then 1 else 0
  {
    if xs != [] {
      assert xs == [xs[0]] + xs[1..];
      DistinctMultiset(xs[1..]);
      assert xs[0] !in xs[1..];
    }
  }

  lemma SameMultiset<T>(a: seq<T>, b: seq<T>)
    requires Distinct(a) && Distinct(b) && forall x :: x in a <==> x in b
    ensures multiset(a) == multiset(b)
  {
    DistinctMultiset(a);
    DistinctMultiset(b);
  }

  lemma {:induction false} DistinctFromCounts<T>(xs: seq<T>)
    requires forall x :: multiset(xs)[x] <= 1
    ensures Distinct(xs)
  {
    if xs != [] {
      assert xs == [xs[0]] + xs[1..];
      assert forall x :: multiset(xs)[x] == multiset(xs[1..])[x] + if x == xs[0] then 1 else 0;
      DistinctFromCounts(xs[1..]);
      assert multiset(xs[1..])[xs[0]] == 0;
    }
  }

  lemma InSuffix<T>(s: seq<T>, k: nat, t: T)
    requires k <= |s| && Distinct(s)
    ensures t in s[k..] <==> t in s && t !in s[..k]
  {
    assert s == s[..k] + s[k..];
    if t in s[k..] {
      var j :| 0 <= j < |s[k..]| && s[k..][j] == t;
      assert s[k + j] == t;
    }
  }

  lemma InMiddle<T>(s: seq<T>, k: nat, n: nat, t: T)
    requires k + n <= |s| && Distinct(s) && t in s[k..k + n]
    ensures t !in s[..k]
  {
    var j :| 0 <= j < n && s[k..k + n][j] == t;
    assert s[k + j] == t;
  }

  lemma DistinctConcat<T>(a: seq<T>, b: seq<T>)
    requires Distinct(a) && Distinct(b) && forall x :: x in b ==> x !in a
    ensures Distinct(a + b)
  {
    var c := a + b;
    forall i, j | 0 <= i < j < |c| ensures c[i] != c[j] {
      if i < |a| <= j { assert c[j] == b[j - |a|] && c[j] in b && c[i] in a; }
    }
  }

  lemma PrefixExtends<T>(s: seq<T>, k: nat, k': nat)
    requires k <= k' <= |s|
    ensures s[..k] + s[k..k'] == s[..k'] && s[..|s|] == s
  {}
}
