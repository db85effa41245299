/** The template name tests of pkg/assets/assets.go. */
module Assets {
  import opened Strings

  function TrimSlashes(p: string): (r: string)
    ensures r == "" || r[|r| - 1] != '/'
  {
    if p != "" && p[|p| - 1] == '/' then TrimSlashes(p[..|p| - 1]) else p
  }

  function LastElement(p: string): (r: string)
    ensures '/' !in r
    ensures p != "" && p[|p| - 1] != '/' ==> r != ""
  {
    if p == "" || p[|p| - 1] == '/' then "" else LastElement(p[..|p| - 1]) + [p[|p| - 1]]
  }

  /** `filepath.Base`: the last element of a path. */
  function Base(p: string): (r: string)
    ensures r != ""
  {
    if p == "" then "."
    else if TrimSlashes(p) == "" then "/"
    else LastElement(TrimSlashes(p))
  }

  /** The regular expression `^[0-9]{4}[-_].*\.yaml$` on a base name; `.` does not match a newline. */
  predicate IsStateBase(b: string) {
    && |b| >= 10
    && (forall i :: 0 <= i < 4 ==> Digit(b[i]))
    && (b[4] == '-' || b[4] == '_')
    && (forall i :: 5 <= i < |b| - 5 ==> b[i] != '\n')
    && b[|b| - 5..] == ".yaml"
  }

  predicate ValidStateName(path: string) { IsStateBase(Base(path)) }

  predicate NamedTemplate(path: string) { Base(path)[0] == '_' }

  /** A state is never also a named template, and its name has the four digits that are cut out of it. */
  lemma StateNameShape(path: string)
    requires ValidStateName(path)
    ensures !NamedTemplate(path)
    ensures |Base(path)| > 4 && forall i :: 0 <= i < 4 ==> Digit(Base(path)[i])
  {
    assert Digit(Base(path)[0]);
  }

  /** The digits `path.Base(name)[:4]` that end a state's node label. */
  function StateDigits(path: string): (r: string)
    requires ValidStateName(path)
    ensures |r| == 4 && forall c :: c in r ==> Digit(c)
  {
    Base(path)[..4]
  }

  lemma {:induction false} LastElementIs(dir: string, name: string)
    requires '/' !in name
    ensures LastElement(dir + "/" + name) == name && LastElement(name) == name
    decreases |name|
  {
    var p := dir + "/" + name;
    if name != "" {
      var n := |name| - 1;
      assert p[..|p| - 1] == dir + "/" + name[..n] && name == name[..n] + [name[n]];
      LastElementIs(dir, name[..n]);
    }
  }

  /** The base of a path is what stands behind its last slash, or the path itself if it has none. */
  lemma BaseIs(dir: string, name: string)
    requires name != "" && '/' !in name
    ensures Base(dir + "/" + name) == name && Base(name) == name
  {
    LastElementIs(dir, name);
    assert (dir + "/" + name)[|dir| + |name|] == name[|name| - 1];
  }

  /** The base of an empty path is a point, that of slashes alone one slash. */
  lemma {:induction false} BaseOfNothing(p: string)
    requires forall i :: 0 <= i < |p| ==> p[i] == '/'
    ensures Base(p) == if p == "" then "." else "/"
    decreases |p|
  {
    if |p| > 1 {
      assert TrimSlashes(p) == TrimSlashes(p[..|p| - 1]);
      BaseOfNothing(p[..|p| - 1]);
    } else if |p| == 1 {
      assert p[..0] == "";
    }
  }

  /** Slashes at the end of a path do not count. */
  lemma BaseIgnoresSlashes(p: string)
    requires p != ""
    ensures Base(p + "/") == Base(p)
  {
    assert (p + "/")[..|p|] == p;
  }

  /** Four digits, a dash or an underscore, anything on one line, the extension. */
  ghost predicate StateParts(name: string, digits: string, mark: char, rest: string) {
    && |digits| == 4 && (forall c :: c in digits ==> Digit(c)) && (mark == '-' || mark == '_') && '\n' !in rest
    && name == digits + [mark] + rest + ".yaml"
  }

  lemma StateBaseIff(name: string)
    ensures IsStateBase(name) <==> exists digits, mark, rest :: StateParts(name, digits, mark, rest)
  {
    if IsStateBase(name) {
      var digits, mark, rest := name[..4], name[4], name[5..|name| - 5];
      assert name == digits + [mark] + rest + ".yaml";
      assert StateParts(name, digits, mark, rest);
    }
    if digits, mark, rest :| StateParts(name, digits, mark, rest) {
      assert forall i :: 0 <= i < 4 ==> name[i] == digits[i];
      assert forall i :: 5 <= i < |name| - 5 ==> name[i] == rest[i - 5];
    }
  }

  /** In any directory: a template is a state exactly when its file name has these parts, its digits are the first four
      characters, and it is a named template exactly when its file name starts with an underscore. */
  lemma NamesInDirectory(dir: string, name: string)
    requires name != "" && '/' !in name
    ensures ValidStateName(dir + "/" + name) <==> exists digits, mark, rest :: StateParts(name, digits, mark, rest)
    ensures ValidStateName(name) <==> exists digits, mark, rest :: StateParts(name, digits, mark, rest)
    ensures ValidStateName(dir + "/" + name) ==> StateDigits(dir + "/" + name) == name[..4]
    ensures NamedTemplate(dir + "/" + name) <==> name[0] == '_'
    ensures NamedTemplate(name) <==> name[0] == '_'
  {
    BaseIs(dir, name);
    StateBaseIff(name);
    hide Base, StateParts;
  }
}
