/** pkg/yamlutil/scan.go and its two users in pkg/resource/resource.go: a manifest is cut into documents, and these are
    processed in order. */
module YamlScanner {
  import opened Annotations

  const MAX_EMPTIES := 100

  /** What a call to the reader returns; behind the last one it reports the end of the file. */
  datatype Read = Token(text: string) | Empty | Broken

  datatype Error = NoError | EndOfFile | ReadError | TooManyEmpties

  // ---------------------------------------------------------------- what the scanner should yield

  /** The documents before the scanner stops, and why it stops. */
  datatype Yield = Yield(tokens: seq<string>, stop: Error)

  function YieldOf(input: seq<Read>, empties: nat): Yield {
    if input == [] then Yield([], EndOfFile)
    else match input[0] {
      case Broken => Yield([], ReadError)
      case Empty => if empties + 1 > MAX_EMPTIES then Yield([], TooManyEmpties) else YieldOf(input[1..], empties + 1)
      case Token(t) =>
        var rest := YieldOf(input[1..], 0);
        rest.(tokens := [t] + rest.tokens)
    }
  }

  function Texts(input: seq<Read>): seq<string> {
    if input == [] then []
    else (match input[0] { case Token(t) => [t] case Empty => [] case Broken => [] }) + Texts(input[1..])
  }

  /** More than a hundred empty reads in a row, counting `empties` that came before. */
  ghost predicate Stalls(input: seq<Read>, empties: nat) {
    exists i :: 0 <= i < |input| && StallAt(input, empties, i)
  }

  /** The reads up to `i` are empty back to the start with `empties` before it, or back over a hundred others. */
  ghost predicate StallAt(input: seq<Read>, empties: nat, i: nat)
    requires i < |input|
  {
    if i < MAX_EMPTIES then empties + i >= MAX_EMPTIES && forall j :: 0 <= j <= i ==> input[j] == Empty
    else forall j :: i - MAX_EMPTIES <= j <= i ==> input[j] == Empty
  }

  /** Behind a read that does not end the scan, a stall of the whole is a stall of the rest. */
  lemma StallShifts(input: seq<Read>, empties: nat, i: nat)
    requires 0 < i < |input| && empties <= MAX_EMPTIES
    ensures input[0] == Empty && empties < MAX_EMPTIES ==> (StallAt(input, empties, i) <==> StallAt(input[1..], empties + 1, i - 1))
    ensures input[0] != Empty ==> (StallAt(input, empties, i) <==> StallAt(input[1..], 0, i - 1))
  {
    var tail := input[1..];
    assert forall j :: 0 <= j < |tail| ==> tail[j] == input[j + 1];
    assert forall j :: 1 <= j < |input| ==> input[j] == tail[j - 1];
  }

  lemma StallsNext(input: seq<Read>, empties: nat)
    requires input != [] && empties <= MAX_EMPTIES
    ensures input[0] == Empty && empties == MAX_EMPTIES ==> Stalls(input, empties)
    ensures input[0] == Empty && empties < MAX_EMPTIES ==> (Stalls(input, empties) <==> Stalls(input[1..], empties + 1))
    ensures input[0] != Empty ==> (Stalls(input, empties) <==> Stalls(input[1..], 0))
  {
    var tail, next := input[1..], if input[0] == Empty then empties + 1 else 0;
    if input[0] == Empty && empties == MAX_EMPTIES {
      assert StallAt(input, empties, 0);
    } else {
      assert !StallAt(input, empties, 0);
      if Stalls(input, empties) {
        var i :| 0 <= i < |input| && StallAt(input, empties, i);
        StallShifts(input, empties, i);
        assert StallAt(tail, next, i - 1);
      }
      if Stalls(tail, next) {
        var i :| 0 <= i < |tail| && StallAt(tail, next, i);
        StallShifts(input, empties, i + 1);
        assert StallAt(input, empties, i + 1);
      }
    }
  }

  /** The scanner reaches the end, having yielded every non-empty token in order, if and only if no read fails and no more
      than a hundred reads in a row are empty. */
  lemma {:induction false} ReachesEndIff(input: seq<Read>, empties: nat)
    requires empties <= MAX_EMPTIES
    ensures YieldOf(input, empties).stop == EndOfFile <==> Broken !in input && !Stalls(input, empties)
    ensures YieldOf(input, empties).stop == EndOfFile ==> YieldOf(input, empties).tokens == Texts(input)
    decreases |input|
  {
    if input != [] {
      assert input == [input[0]] + input[1..];
      StallsNext(input, empties);
      match input[0] {
        case Broken =>
        case Empty => if empties < MAX_EMPTIES { ReachesEndIff(input[1..], empties + 1); }
        case Token(t) => ReachesEndIff(input[1..], 0);
      }
    }
  }

  lemma {:induction false} StopIsGiven(input: seq<Read>, empties: nat)
    ensures YieldOf(input, empties).stop != NoError
    decreases |input|
  {
    if input != [] {
      StopIsGiven(input[1..], empties + 1);
      StopIsGiven(input[1..], 0);
    }
  }

  /** In any case it yields the tokens from the front. */
  lemma {:induction false} YieldsAPrefix(input: seq<Read>, empties: nat)
    ensures YieldOf(input, empties).tokens <= Texts(input)
    decreases |input|
  {
    if input != [] {
      YieldsAPrefix(input[1..], empties + 1);
      YieldsAPrefix(input[1..], 0);
    }
  }

  /** A document lies behind a read at which the scan ends. */
  ghost predicate CutOff(input: seq<Read>, empties: nat) {
    exists i, j :: 0 <= i < j < |input| && EndsAt(input, empties, i) && input[j].Token?
  }

  ghost predicate EndsAt(input: seq<Read>, empties: nat, i: nat)
    requires i < |input|
  {
    input[i] == Broken || StallAt(input, empties, i)
  }

  lemma {:induction false} SomeText(input: seq<Read>)
    ensures Texts(input) != [] <==> exists j :: 0 <= j < |input| && input[j].Token?
    decreases |input|
  {
    if input != [] {
      SomeText(input[1..]);
      assert forall j :: 1 <= j < |input| ==> input[j] == input[1..][j - 1];
    }
  }

  lemma CutOffNext(input: seq<Read>, empties: nat)
    requires input != [] && empties <= MAX_EMPTIES && !EndsAt(input, empties, 0)
    ensures CutOff(input, empties) <==> CutOff(input[1..], if input[0] == Empty then empties + 1 else 0)
  {
    var tail, next := input[1..], if input[0] == Empty then empties + 1 else 0;
    if CutOff(input, empties) {
      var i, j :| 0 <= i < j < |input| && EndsAt(input, empties, i) && input[j].Token?;
      StallShifts(input, empties, i);
      assert EndsAt(tail, next, i - 1) && tail[j - 1].Token?;
    }
    if CutOff(tail, next) {
      var i, j :| 0 <= i < j < |tail| && EndsAt(tail, next, i) && tail[j].Token?;
      StallShifts(input, empties, i + 1);
      assert EndsAt(input, empties, i + 1) && input[j + 1].Token?;
    }
  }

  /** Documents are lost if and only if one lies behind a failing read or a stall. */
  lemma {:induction false} LosesDocumentsIff(input: seq<Read>, empties: nat)
    requires empties <= MAX_EMPTIES
    ensures |YieldOf(input, empties).tokens| < |Texts(input)| <==> CutOff(input, empties)
    decreases |input|
  {
    YieldsAPrefix(input, empties);
    if input != [] {
      hide StallAt;
      FirstEnds(input, empties);
      if EndsAt(input, empties, 0) {
        SomeText(input);
        if Texts(input) != [] {
          var j :| 0 <= j < |input| && input[j].Token?;
          assert EndsAt(input, empties, 0) && 0 < j;
        }
      } else {
        CutOffNext(input, empties);
        LosesDocumentsIff(input[1..], if input[0] == Empty then empties + 1 else 0);
      }
    }
  }

  lemma FirstEnds(input: seq<Read>, empties: nat)
    requires input != [] && empties <= MAX_EMPTIES
    ensures EndsAt(input, empties, 0) <==> input[0] == Broken || (input[0] == Empty && empties == MAX_EMPTIES)
  {}

  /** Where the scan ends early, it has yielded exactly the documents before that read, and says why. */
  lemma {:induction false} YieldsUpToEnd(input: seq<Read>, empties: nat, i: nat)
    requires empties <= MAX_EMPTIES && i < |input| && EndsAt(input, empties, i)
    requires forall j :: 0 <= j < i ==> !EndsAt(input, empties, j)
    ensures YieldOf(input, empties) == Yield(Texts(input[..i]), if input[i] == Broken then ReadError else TooManyEmpties)
    decreases |input|
  {
    FirstEnds(input, empties);
    if i == 0 {
      assert input[..0] == [];
    } else {
      var tail, next := input[1..], if input[0] == Empty then empties + 1 else 0;
      forall j | 0 <= j < i ensures EndsAt(tail, next, j) <==> EndsAt(input, empties, j + 1) { StallShifts(input, empties, j + 1); }
      assert !EndsAt(input, empties, 0);
      hide StallAt;
      YieldsUpToEnd(tail, next, i - 1);
      assert input[..i][1..] == tail[..i - 1];
    }
  }

  // ---------------------------------------------------------------- the scanner

  class Scanner {
    const input: seq<Read>
    var pos: nat
    var token: string
    var err: Error
    var empties: nat
    var done: bool

    ghost predicate Valid()
      reads this
    {
      pos <= |input| && (done ==> pos == |input| && err == EndOfFile)
    }

    /** What is still to come. */
    ghost function Left(): Yield
      reads this
      requires pos <= |input|
    {
      YieldOf(input[pos..], empties)
    }

    constructor (input: seq<Read>)
      ensures Valid() && !done && err == NoError && this.input == input && Left() == YieldOf(input, 0)
    {
      this.input := input;
      pos, token, err, empties, done := 0, "", NoError, 0, false;
      new;
      assert input[0..] == input;
    }

    /** Hands out the next document, if there is one, and otherwise records why there is none. Behind the end of the file
        it answers the same again; behind an error it goes on with the reads that are left. */
    method Scan() returns (more: bool)
      requires Valid()
      modifies this
      ensures Valid() && old(pos) <= pos
      ensures more <==> old(Left()).tokens != []
      ensures more ==> token == old(Left()).tokens[0] && pos > old(pos) && err == old(err) && empties == 0
      ensures more ==> Left() == old(Left()).(tokens := old(Left()).tokens[1..])
      ensures !more ==> err == old(Left()).stop && token == old(token) && (done <==> err == EndOfFile)
      ensures old(done) ==> unchanged(this)
    {
      if done { return false; }
      while true
        invariant Valid() && !done && old(pos) <= pos && Left() == old(Left())
        invariant token == old(token) && err == old(err)
        decreases |input| - pos
      {
        if pos == |input| {
          done, err := true, EndOfFile;
          return false;
        }
        var r := input[pos];
        assert input[pos..][1..] == input[pos + 1..];
        pos := pos + 1;
        match r {
          case Broken =>
            err := ReadError;
            return false;
          case Empty =>
            empties := empties + 1;
            if empties > MAX_EMPTIES {
              err := TooManyEmpties;
              return false;
            }
          case Token(t) =>
            empties, token := 0, t;
            return true;
        }
      }
    }

    /** `Err`: the end of the file is no error. */
    function Failure(): Error
      reads this
    {
      if err == EndOfFile then NoError else err
    }
  }

  /** `CreateFromYAML`: processes the documents in order, stops at the first that fails, and succeeds if and only if all of
      them were processed and the manifest was read to its end. */
  method CreateFromYAML(input: seq<Read>, process: (nat, string) -> bool) returns (processed: seq<string>, ok: bool)
    ensures ok <==> YieldOf(input, 0).stop == EndOfFile
                    && forall i :: 0 <= i < |YieldOf(input, 0).tokens| ==> process(i, YieldOf(input, 0).tokens[i])
    ensures processed <= YieldOf(input, 0).tokens
    ensures forall i :: 0 <= i < |processed| - 1 ==> process(i, processed[i])
    ensures |processed| < |YieldOf(input, 0).tokens| ==>
              processed != [] && !process(|processed| - 1, processed[|processed| - 1])
  {
    StopIsGiven(input, 0);
    hide YieldOf;
    ghost var all := YieldOf(input, 0);
    var scanner := new Scanner(input);
    processed := [];
    while true
      invariant scanner.Valid() && scanner.input == input && fresh(scanner)
      invariant |processed| <= |all.tokens| && processed == all.tokens[..|processed|]
      invariant scanner.Left() == all.(tokens := all.tokens[|processed|..])
      invariant forall i :: 0 <= i < |processed| ==> process(i, processed[i])
      decreases |input| - scanner.pos
    {
      var more := scanner.Scan();
      if !more { break; }
      processed := processed + [scanner.token];
      if !process(|processed| - 1, scanner.token) { return processed, false; }
    }
    return processed, scanner.Failure() == NoError;
  }

  /** The objects of the given documents, or nothing if one of them does not parse. */
  function Objects<T>(docs: seq<string>, parse: string -> Option<T>): (r: Option<seq<T>>)
    ensures r.Some? <==> forall i :: 0 <= i < |docs| ==> parse(docs[i]).Some?
    ensures r.Some? ==> |r.value| == |docs| && forall i :: 0 <= i < |docs| ==> Some(r.value[i]) == parse(docs[i])
  {
    if docs == [] then Some([])
    else
      var init, last := Objects(docs[..|docs| - 1], parse), parse(docs[|docs| - 1]);
      if init.Some? && last.Some? then Some(init.value + [last.value]) else None
  }

  /** What `GetObjectsFromYAML` returns: the objects of the documents handed out. It does not look at the scanner's error. */
  function ObjectsFrom<T>(input: seq<Read>, parse: string -> Option<T>): Option<seq<T>> {
    Objects(YieldOf(input, 0).tokens, parse)
  }

  method GetObjectsFromYAML<T>(input: seq<Read>, parse: string -> Option<T>) returns (r: Option<seq<T>>)
    ensures r == ObjectsFrom(input, parse)
  {
    hide YieldOf, Objects;
    ghost var all := YieldOf(input, 0);
    var scanner := new Scanner(input);
    var objs := [];
    ghost var n := 0;
    while true
      invariant scanner.Valid() && scanner.input == input && fresh(scanner)
      invariant n == |objs| <= |all.tokens|
      invariant scanner.Left() == all.(tokens := all.tokens[n..])
      invariant forall i :: 0 <= i < n ==> Some(objs[i]) == parse(all.tokens[i])
      decreases |input| - scanner.pos
    {
      var more := scanner.Scan();
      if !more { break; }
      var obj := parse(scanner.token);
      assert scanner.token == all.tokens[n];
      if obj.None? { return None; }
      objs := objs + [obj.value];
      n := n + 1;
    }
    assert Objects(all.tokens, parse).value == objs;
    r := Some(objs);
  }

  /** The call returns fewer objects than the manifest has documents, without an error, if and only if the documents that
      it sees parse and one lies behind a failing read or a stall. Applying such a manifest fails. */
  lemma TruncationGoesUnnoticedIff<T>(input: seq<Read>, parse: string -> Option<T>)
    ensures ObjectsFrom(input, parse).Some? && |ObjectsFrom(input, parse).value| < |Texts(input)| <==>
            CutOff(input, 0) && forall i :: 0 <= i < |YieldOf(input, 0).tokens| ==> parse(YieldOf(input, 0).tokens[i]).Some?
    ensures CutOff(input, 0) ==> YieldOf(input, 0).stop != EndOfFile
  {
    hide YieldOf, Objects, CutOff;
    LosesDocumentsIff(input, 0);
    ReachesEndIff(input, 0);
  }

  /** The smallest case: one document, a failing read, anything behind it. */
  lemma TruncationGoesUnnoticed<T>(doc: string, rest: seq<Read>, parse: string -> Option<T>)
    requires parse(doc).Some?
    ensures ObjectsFrom([Token(doc), Broken] + rest, parse) == Some([parse(doc).value])
  {
    var input := [Token(doc), Broken] + rest;
    assert input[1..] == [Broken] + rest;
    assert YieldOf(input, 0).tokens == [doc];
    assert Objects([doc], parse).value == [parse(doc).value];
  }
}
