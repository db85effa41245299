/** The order of Go strings (`a < b`, `sort.Strings`, `sort.Slice` by name): element by element,
    a proper prefix first. Dafny's own `<` on strings is the prefix relation, so it is not used. */
module StringOrder {
  import opened Sequences

  predicate Leq(a: string, b: string) {
    a == "" || (b != "" && (a[0] < b[0] || (a[0] == b[0] && Leq(a[1..], b[1..]))))
  }

  /** `a` is a prefix of `b`, or they differ first at a position where `a` has the smaller character. */
  ghost predicate Before(a: string, b: string) {
    a <= b || exists i :: 0 <= i < |a| && i < |b| && SmallerAt(a, b, i)
  }

  ghost predicate SmallerAt(a: string, b: string, i: nat)
    requires i < |a| && i < |b|
  {
    a[..i] == b[..i] && a[i] < b[i]
  }

  /** The order is the one of the Go language: element by element, a prefix first. */
  lemma {:induction false} LeqIff(a: string, b: string)
    ensures Leq(a, b) <==> Before(a, b)
  {
    if a != "" && b != "" {
      var x, y := a[1..], b[1..];
      LeqIff(x, y);
      if a[0] == b[0] {
        assert a == [a[0]] + x && b == [b[0]] + y;
        assert a <= b <==> x <= y;
        if i :| 0 <= i < |x| && i < |y| && SmallerAt(x, y, i) {
          assert a[..i + 1] == [a[0]] + x[..i] && b[..i + 1] == [b[0]] + y[..i];
          assert SmallerAt(a, b, i + 1);
        }
        if i :| 0 <= i < |a| && i < |b| && SmallerAt(a, b, i) {
          assert i > 0 && x[..i - 1] == a[..i][1..] && y[..i - 1] == b[..i][1..];
          assert SmallerAt(x, y, i - 1);
        }
      } else {
        if a[0] < b[0] { assert SmallerAt(a, b, 0); }
        if i :| 0 <= i < |a| && i < |b| && SmallerAt(a, b, i) {
          assert i > 0 ==> a[..i][0] == b[..i][0];
        }
      }
    }
  }

  lemma {:induction false} LeqReflexive(a: string)
    ensures Leq(a, a)
  {
    if a != "" { LeqReflexive(a[1..]); }
  }

  lemma {:induction false} LeqTotal(a: string, b: string)
    ensures Leq(a, b) || Leq(b, a)
  {
    if a != "" && b != "" { LeqTotal(a[1..], b[1..]); }
  }

  lemma {:induction false} LeqAntisymmetric(a: string, b: string)
    requires Leq(a, b) && Leq(b, a)
    ensures a == b
  {
    if a != "" && b != "" {
      LeqAntisymmetric(a[1..], b[1..]);
      assert a == [a[0]] + a[1..] && b == [b[0]] + b[1..];
    }
  }

  lemma {:induction false} LeqTransitive(a: string, b: string, c: string)
    requires Leq(a, b) && Leq(b, c)
    ensures Leq(a, c)
  {
    if a != "" && a[0] == b[0] == c[0] { LeqTransitive(a[1..], b[1..], c[1..]); }
  }

  /** `xs` is in ascending order of `key`. */
  ghost predicate Ascending<T>(xs: seq<T>, key: T -> string) {
    forall i, j :: 0 <= i < j < |xs| ==> Leq(key(xs[i]), key(xs[j]))
  }

  function Insert<T>(x: T, xs: seq<T>, key: T -> string): (r: seq<T>)
    ensures |r| == |xs| + 1
    ensures multiset(r) == multiset(xs) + multiset{x}
  {
    if xs == [] then [x]
    else if Leq(key(x), key(xs[0])) then [x] + xs
    else
      assert xs == [xs[0]] + xs[1..];
      [xs[0]] + Insert(x, xs[1..], key)
  }

  lemma {:induction false} InsertAscends<T>(x: T, xs: seq<T>, key: T -> string)
    requires Ascending(xs, key)
    ensures Ascending(Insert(x, xs, key), key)
  {
    if xs != [] {
      if Leq(key(x), key(xs[0])) {
        InsertInFront(x, xs, key);
      } else {
        InsertAscends(x, xs[1..], key);
        InsertBehind(x, xs, Insert(x, xs[1..], key), key);
      }
    }
  }

  lemma InsertInFront<T>(x: T, xs: seq<T>, key: T -> string)
    requires xs != [] && Leq(key(x), key(xs[0]))
    ensures Ascending(xs, key) ==> Ascending([x] + xs, key)
  {
    if Ascending(xs, key) {
      forall j | 0 < j < |xs| ensures Leq(key(x), key(xs[j])) {
        LeqTransitive(key(x), key(xs[0]), key(xs[j]));
      }
    }
  }

  lemma InsertBehind<T>(x: T, xs: seq<T>, rest: seq<T>, key: T -> string)
    requires xs != [] && !Leq(key(x), key(xs[0]))
    requires multiset(rest) == multiset(xs[1..]) + multiset{x}
    requires Ascending(xs[1..], key) ==> Ascending(rest, key)
    ensures Ascending(xs, key) ==> Ascending([xs[0]] + rest, key)
  {
    if Ascending(xs, key) {
      forall j | 0 <= j < |rest| ensures Leq(key(xs[0]), key(rest[j])) {
        assert rest[j] in multiset(rest);
        if rest[j] == x {
          LeqTotal(key(x), key(xs[0]));
        } else {
          assert rest[j] in xs[1..];
        }
      }
    }
  }

  /** A sorted copy: what `sort.Slice`, `sort.Strings` and `sort.Stable` leave behind. */
  function SortBy<T>(xs: seq<T>, key: T -> string): (r: seq<T>)
    ensures |r| == |xs|
    ensures multiset(r) == multiset(xs)
  {
    if xs == [] then []
    else
      assert xs == [xs[0]] + xs[1..];
      Insert(xs[0], SortBy(xs[1..], key), key)
  }

  lemma {:induction false} SortAscends<T>(xs: seq<T>, key: T -> string)
    ensures Ascending(SortBy(xs, key), key)
  {
    if xs != [] {
      SortAscends(xs[1..], key);
      InsertAscends(xs[0], SortBy(xs[1..], key), key);
    }
  }

  function Self(s: string): string { s }

  function Sort(xs: seq<string>): (r: seq<string>)
    ensures |r| == |xs|
    ensures multiset(r) == multiset(xs)
  {
    SortBy(xs, Self)
  }

  /** The head of an ascending sequence is below each of its members. */
  lemma HeadIsLeast(a: seq<string>, x: string)
    requires Ascending(a, Self) && x in multiset(a)
    ensures a != [] && Leq(a[0], x)
  {
    var j :| 0 <= j < |a| && a[j] == x;
    if j == 0 {
      LeqReflexive(x);
    } else {
      assert Leq(Self(a[0]), Self(a[j]));
    }
  }

  lemma AscendingTail(a: seq<string>)
    requires Ascending(a, Self) && a != []
    ensures Ascending(a[1..], Self)
  {
    forall i, j | 0 <= i < j < |a[1..]| ensures Leq(Self(a[1..][i]), Self(a[1..][j])) {
      assert Leq(Self(a[i + 1]), Self(a[j + 1]));
    }
  }

  /** Two ascending arrangements of the same strings are the same sequence. */
  lemma {:induction false} AscendingUnique(a: seq<string>, b: seq<string>)
    requires Ascending(a, Self) && Ascending(b, Self)
    requires multiset(a) == multiset(b)
    ensures a == b
  {
    hide Ascending, Leq;
    if a == [] {
      assert |multiset(b)| == 0;
    } else {
      SameHead(a, b);
      MultisetTail(a);
      MultisetTail(b);
      AscendingTail(a);
      AscendingTail(b);
      AscendingUnique(a[1..], b[1..]);
      assert a == [a[0]] + a[1..] && b == [b[0]] + b[1..];
    }
  }

  lemma SameHead(a: seq<string>, b: seq<string>)
    requires Ascending(a, Self) && Ascending(b, Self) && a != [] && multiset(a) == multiset(b)
    ensures b != [] && a[0] == b[0]
  {
    hide Ascending, Leq;
    assert a[0] in multiset(a);
    HeadIsLeast(b, a[0]);
    assert b[0] in multiset(b);
    HeadIsLeast(a, b[0]);
    LeqAntisymmetric(a[0], b[0]);
  }

  /** Sorting sees exactly the multiset of its argument. */
  lemma SortCanonical(a: seq<string>, b: seq<string>)
    ensures Sort(a) == Sort(b) <==> multiset(a) == multiset(b)
  {
    SortAscends(a, Self);
    SortAscends(b, Self);
    if multiset(a) == multiset(b) { AscendingUnique(Sort(a), Sort(b)); }
  }
}
