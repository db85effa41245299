/** The Go string helpers that the models share. */
module Strings {

  predicate Digit(c: char) { '0' <= c <= '9' }

  lemma DigitIff(c: char)
    ensures Digit(c) <==> c in "0123456789"
  {
    var digits := "0123456789";
    forall i | 0 <= i < 10 ensures digits[i] == '0' + i as char && Digit(digits[i]) {}
    if Digit(c) { assert digits[(c - '0') as int] == c; }
  }

  predicate OccursAt(s: string, sub: string, i: nat) {
    i + |sub| <= |s| && s[i..i + |sub|] == sub
  }

  /** `strings.Contains`. */
  predicate Contains(s: string, sub: string) {
    exists i :: 0 <= i <= |s| && OccursAt(s, sub, i)
  }

  lemma ContainsMiddle(before: string, sub: string, after: string)
    ensures Contains(before + sub + after, sub)
  {
    var s := before + sub + after;
    assert s[|before|..|before| + |sub|] == sub;
    assert OccursAt(s, sub, |before|);
  }

  /** A string contains another exactly when it is that one with something before and something behind it. */
  lemma ContainsIff(s: string, sub: string)
    ensures Contains(s, sub) <==> exists a, b :: s == a + sub + b
  {
    if Contains(s, sub) {
      var i :| 0 <= i <= |s| && OccursAt(s, sub, i);
      assert s == s[..i] + sub + s[i + |sub|..];
    }
    if a, b :| s == a + sub + b { ContainsMiddle(a, sub, b); }
  }

  /** `strings.ReplaceAll(s, "_", "-")`. */
  function Dashed(s: string): (r: string)
    ensures |r| == |s|
    ensures forall i :: 0 <= i < |s| ==> r[i] == if s[i] == '_' then '-' else s[i]
  {
    if s == "" then "" else [if s[0] == '_' then '-' else s[0]] + Dashed(s[1..])
  }

  /** The part of `s` before the first `c`. */
  function Until(s: string, c: char): string {
    if s == "" || s[0] == c then "" else [s[0]] + Until(s[1..], c)
  }

  lemma {:induction false} UntilSeparator(a: string, c: char, x: string)
    requires c !in a
    ensures Until(a + [c] + x, c) == a
  {
    if a != "" {
      assert (a + [c] + x)[1..] == a[1..] + [c] + x;
      UntilSeparator(a[1..], c, x);
      assert a == [a[0]] + a[1..];
    }
  }

  /** A prefix without `c`, then `c`, then the rest: the parts are determined by the whole. */
  lemma SplitAtFirst(a: string, x: string, b: string, y: string, c: char)
    requires c !in a && c !in b && a + [c] + x == b + [c] + y
    ensures a == b && x == y
  {
    UntilSeparator(a, c, x);
    UntilSeparator(b, c, y);
    assert (a + [c] + x)[|a| + 1..] == x && (b + [c] + y)[|b| + 1..] == y;
  }
}
