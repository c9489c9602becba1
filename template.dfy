/** The template language of gb.c's `subBuildArgs`: `%name%` references are replaced by
    the (recursively expanded) value of the token `name`, and the resulting text is cut
    into arguments at every whitespace character. This module holds the reference
    definitions that the imperative expander in module Gb is proved against. */
module Template {
  import opened Wrappers
  import opened Errors
  import opened Tokens

  /** `isspace` in the C locale: space, tab, newline, vertical tab, form feed, return. */
  predicate IsSpace(c: char) {
    c == ' ' || c == '\t' || c == '\n' || c == '\U{B}' || c == '\U{C}' || c == '\r'
  }

  predicate NoSpace(s: string) {
    forall i :: 0 <= i < |s| ==> !IsSpace(s[i])
  }

  /** The whitespace characters of `s`, in order. */
  function Spaces(s: string): string {
    if s == [] then [] else (if IsSpace(s[0]) then [s[0]] else []) + Spaces(s[1..])
  }

  lemma {:induction false} SpacesAreSpaces(s: string)
    ensures forall i :: 0 <= i < |Spaces(s)| ==> IsSpace(Spaces(s)[i])
  {
    if s != [] {
      SpacesAreSpaces(s[1..]);
    }
  }

  lemma {:induction false} SpacesAppend(a: string, b: string)
    ensures Spaces(a + b) == Spaces(a) + Spaces(b)
  {
    if a == [] {
      assert a + b == b;
    } else {
      var h := if IsSpace(a[0]) then [a[0]] else [];
      assert (a + b)[0] == a[0] && (a + b)[1..] == a[1..] + b;
      SpacesAppend(a[1..], b);
      calc {
        Spaces(a + b);
        h + Spaces(a[1..] + b);
        h + (Spaces(a[1..]) + Spaces(b));
        (h + Spaces(a[1..])) + Spaces(b);
      }
    }
  }

  lemma {:induction false} SpacesOfNoSpace(s: string)
    requires NoSpace(s)
    ensures Spaces(s) == []
  {
    if s != [] {
      SpacesOfNoSpace(s[1..]);
    }
  }

  lemma {:induction false} NoSpaceOfSpaces(s: string)
    requires Spaces(s) == []
    ensures NoSpace(s)
  {
    if s != [] {
      NoSpaceOfSpaces(s[1..]);
    }
  }

  /** The position of the first whitespace character of `s`. */
  function FirstSpace(s: string): (r: Option<nat>)
    ensures r.Some? ==> r.value < |s|
  {
    if s == [] then None
    else if IsSpace(s[0]) then Some(0)
    else match FirstSpace(s[1..])
      case None => None
      case Some(j) => Some(j + 1)
  }

  lemma {:induction false} FirstSpaceSpec(s: string)
    ensures FirstSpace(s).None? <==> NoSpace(s)
    ensures FirstSpace(s).Some? ==>
      IsSpace(s[FirstSpace(s).value]) && NoSpace(s[..FirstSpace(s).value])
  {
    if s != [] && !IsSpace(s[0]) {
      FirstSpaceSpec(s[1..]);
      if FirstSpace(s[1..]).Some? {
        var j := FirstSpace(s[1..]).value;
        assert s[..j + 1] == [s[0]] + s[1..][..j];
      }
    }
  }

  /** A whitespace character with none before it is the first one. */
  lemma {:induction false} FirstSpaceAt(s: string, k: nat)
    requires k < |s| && IsSpace(s[k]) && NoSpace(s[..k])
    ensures FirstSpace(s) == Some(k)
  {
    if k > 0 {
      assert s[..k][0] == s[0];
      assert s[1..][..k - 1] == s[..k][1..];
      FirstSpaceAt(s[1..], k - 1);
    }
  }

  /** Pieces put back together with one separator between each two neighbours. */
  function Join(parts: seq<string>, seps: string): string
    requires |parts| == |seps| + 1
  {
    if seps == [] then parts[0] else parts[0] + [seps[0]] + Join(parts[1..], seps[1..])
  }

  /** `s` cut at every whitespace character. */
  function SplitWs(s: string): (parts: seq<string>)
    ensures |parts| > 0
    decreases |s|
  {
    match FirstSpace(s)
    case None => [s]
    case Some(i) => [s[..i]] + SplitWs(s[i + 1..])
  }

  /** The cut has one more piece than `s` has whitespace characters (adjacent whitespace
      gives empty pieces), no piece holds whitespace, and the pieces joined by the
      whitespace they were cut at give `s` back. */
  lemma {:induction false} SplitWsSpec(s: string)
    ensures |SplitWs(s)| == |Spaces(s)| + 1
    ensures forall i :: 0 <= i < |SplitWs(s)| ==> NoSpace(SplitWs(s)[i])
    ensures Join(SplitWs(s), Spaces(s)) == s
    decreases |s|
  {
    FirstSpaceSpec(s);
    match FirstSpace(s) {
      case None =>
        SpacesOfNoSpace(s);
      case Some(i) =>
        var rest := s[i + 1..];
        SplitWsSpec(rest);
        SpacesAtFirst(s, i);
        var parts := SplitWs(s);
        assert parts == [s[..i]] + SplitWs(rest);
        assert parts[1..] == SplitWs(rest);
        assert s == s[..i] + [s[i]] + rest;
    }
  }

  /** The first whitespace character is the first of `Spaces`. */
  lemma SpacesAtFirst(s: string, i: nat)
    requires FirstSpace(s) == Some(i)
    ensures Spaces(s) == [s[i]] + Spaces(s[i + 1..])
  {
    FirstSpaceSpec(s);
    var rest := s[i + 1..];
    assert s == s[..i] + [s[i]] + rest;
    SpacesAppend(s[..i] + [s[i]], rest);
    SpacesAppend(s[..i], [s[i]]);
    SpacesOfNoSpace(s[..i]);
    assert Spaces([s[i]]) == [s[i]] + Spaces([]);
  }

  /** The pieces are determined by the text: any list of whitespace-free pieces that
      joins back to `s` at its whitespace is `SplitWs(s)`. */
  lemma {:induction false} SplitWsUnique(s: string, parts: seq<string>)
    requires |parts| == |Spaces(s)| + 1
    requires forall i :: 0 <= i < |parts| ==> NoSpace(parts[i])
    requires Join(parts, Spaces(s)) == s
    ensures parts == SplitWs(s)
    decreases |s|
  {
    var ws := Spaces(s);
    if ws == [] {
      NoSpaceOfSpaces(s);
      FirstSpaceSpec(s);
    } else {
      var p := parts[0];
      var tail := Join(parts[1..], ws[1..]);
      assert s == p + [ws[0]] + tail;
      assert s[..|p|] == p;
      SpacesAreSpaces(s);
      assert IsSpace(s[|p|]);
      FirstSpaceAt(s, |p|);
      assert s[|p| + 1..] == tail;
      SpacesAtFirst(s, |p|);
      assert Spaces(tail) == ws[1..];
      SplitWsUnique(tail, parts[1..]);
      assert parts == [p] + parts[1..];
    }
  }

  /** Cutting at a whitespace character that separates two texts cuts each of them
      independently: the argument lists are concatenated. */
  lemma {:induction false} SplitWsAtSpace(x: string, c: char, y: string)
    requires IsSpace(c)
    ensures SplitWs(x + [c] + y) == SplitWs(x) + SplitWs(y)
    decreases |x|
  {
    var s := x + [c] + y;
    FirstSpaceSpec(x);
    match FirstSpace(x) {
      case None =>
        assert s[..|x|] == x;
        FirstSpaceAt(s, |x|);
        assert s[|x| + 1..] == y;
      case Some(k) =>
        assert s[..k] == x[..k];
        FirstSpaceAt(s, k);
        assert s[k + 1..] == x[k + 1..] + [c] + y;
        SplitWsAtSpace(x[k + 1..], c, y);
    }
  }

  /** The state `subBuildArgs` keeps between characters: the arguments emitted so far and
      the shared `buffer` that collects the argument being built. */
  datatype Acc = Acc(args: seq<string>, buffer: string)

  /** One character through the accumulator: whitespace closes the current argument,
      anything else extends it. */
  function Step(a: Acc, c: char): Acc {
    if IsSpace(c) then Acc(a.args + [a.buffer], "") else Acc(a.args, a.buffer + [c])
  }

  /** A whole text through the accumulator, character by character. */
  function Feed(a: Acc, s: string): Acc
    decreases |s|
  {
    if s == [] then a else Feed(Step(a, s[0]), s[1..])
  }

  lemma {:induction false} FeedConcat(a: Acc, x: string, y: string)
    ensures Feed(a, x + y) == Feed(Feed(a, x), y)
    decreases |x|
  {
    if x == [] {
      assert x + y == y;
    } else {
      assert x + y != [] && (x + y)[0] == x[0];
      assert (x + y)[1..] == x[1..] + y;
      FeedConcat(Step(a, x[0]), x[1..], y);
    }
  }

  /** A whitespace character with no whitespace before it closes exactly the text before it. */
  lemma SplitWsAfterWord(b: string, c: char, rest: string)
    requires NoSpace(b) && IsSpace(c)
    ensures SplitWs(b + [c] + rest) == [b] + SplitWs(rest)
  {
    var s := b + [c] + rest;
    assert s[..|b|] == b;
    FirstSpaceAt(s, |b|);
    assert s[|b| + 1..] == rest;
  }

  /** What the accumulator holds after a text is exactly the cut of the pending buffer
      followed by that text: every piece but the last has been emitted, the last is still
      in the buffer. */
  lemma {:induction false} FeedIsSplit(a: Acc, s: string)
    requires NoSpace(a.buffer)
    ensures Feed(a, s).args == a.args + Init(SplitWs(a.buffer + s))
    ensures Feed(a, s).buffer == Last(SplitWs(a.buffer + s))
    decreases |s|
  {
    var b := a.buffer;
    if s == [] {
      assert b + s == b;
      FirstSpaceSpec(b);
    } else if IsSpace(s[0]) {
      FeedIsSplitAtSpace(a, s);
    } else {
      assert b + s == (b + [s[0]]) + s[1..];
      FeedIsSplit(Acc(a.args, b + [s[0]]), s[1..]);
    }
  }

  lemma {:induction false} FeedIsSplitAtSpace(a: Acc, s: string)
    requires NoSpace(a.buffer) && s != [] && IsSpace(s[0])
    ensures Feed(a, s).args == a.args + Init(SplitWs(a.buffer + s))
    ensures Feed(a, s).buffer == Last(SplitWs(a.buffer + s))
    decreases |s|, 0
  {
    var b := a.buffer;
    var rest := s[1..];
    var next := Acc(a.args + [b], "");
    FeedAtSpace(a, s);
    assert "" + rest == rest;
    FeedIsSplit(next, rest);
    SplitAtFirstSpace(b, s);
    InitLastCons(b, SplitWs(rest));
  }

  lemma FeedAtSpace(a: Acc, s: string)
    requires s != [] && IsSpace(s[0])
    ensures Feed(a, s) == Feed(Acc(a.args + [a.buffer], ""), s[1..])
  {
  }

  lemma SplitAtFirstSpace(b: string, s: string)
    requires NoSpace(b) && s != [] && IsSpace(s[0])
    ensures SplitWs(b + s) == [b] + SplitWs(s[1..])
  {
    assert b + s == b + [s[0]] + s[1..];
    SplitWsAfterWord(b, s[0], s[1..]);
  }

  lemma InitLastCons(b: string, p: seq<string>)
    requires |p| > 0
    ensures Init([b] + p) == [b] + Init(p) && Last([b] + p) == Last(p)
  {
  }

  /** All pieces of a cut but the last one, and the last one. */
  function Init(parts: seq<string>): seq<string>
    requires |parts| > 0
  {
    parts[..|parts| - 1]
  }

  function Last(parts: seq<string>): string
    requires |parts| > 0
  {
    parts[|parts| - 1]
  }

  /** Flushing what is left in the buffer after a text has gone through the accumulator
      gives the pending buffer and the text, cut at whitespace, after the earlier
      arguments. */
  lemma FeedThenFlush(a: Acc, s: string)
    requires NoSpace(a.buffer)
    ensures Feed(a, s).args + [Feed(a, s).buffer] == a.args + SplitWs(a.buffer + s)
  {
    FeedIsSplit(a, s);
    var p := SplitWs(a.buffer + s);
    assert Init(p) + [Last(p)] == p;
  }

  /** The accumulator never holds whitespace in its buffer. */
  lemma FeedKeepsNoSpace(a: Acc, s: string)
    requires NoSpace(a.buffer)
    ensures NoSpace(Feed(a, s).buffer)
  {
    FeedIsSplit(a, s);
    SplitWsSpec(a.buffer + s);
  }

  /** A flattening result fed into the accumulator; a failure passes through. */
  function FeedResult(a: Acc, r: Result<string, Error>): Result<Acc, Error> {
    match r
    case Failure(e) => Failure(e)
    case Success(x) => Success(Feed(a, x))
  }

  lemma FeedResultCons(a: Acc, c: char, r: Result<string, Error>)
    ensures FeedResult(a, Cons(c, r)) == FeedResult(Step(a, c), r)
  {
    if r.Success? {
      var x := r.value;
      assert ([c] + x)[0] == c && ([c] + x)[1..] == x;
    }
  }

  lemma FeedResultConcat(a: Acc, x: string, r: Result<string, Error>)
    ensures FeedResult(a, Concat(Success(x), r)) == FeedResult(Feed(a, x), r)
  {
    if r.Success? {
      FeedConcat(a, x, r.value);
    }
  }

  /** The first `%` at or after position `from`. */
  function NextPercent(s: string, from: nat): (r: Option<nat>)
    requires from <= |s|
    ensures r.Some? ==> from <= r.value < |s| && s[r.value] == '%'
    ensures r.Some? ==> forall k :: from <= k < r.value ==> s[k] != '%'
    ensures r.None? ==> forall k :: from <= k < |s| ==> s[k] != '%'
    decreases |s| - from
  {
    if from == |s| then None
    else if s[from] == '%' then Some(from)
    else NextPercent(s, from + 1)
  }

  /** `c` in front of a flattened text; a failure passes through. */
  function Cons(c: char, r: Result<string, Error>): Result<string, Error> {
    match r
    case Failure(e) => Failure(e)
    case Success(x) => Success([c] + x)
  }

  /** Two flattened texts one after the other; the first failure wins. */
  function Concat(r1: Result<string, Error>, r2: Result<string, Error>): Result<string, Error> {
    match r1
    case Failure(e) => Failure(e)
    case Success(x) =>
      match r2
      case Failure(e) => Failure(e)
      case Success(y) => Success(x + y)
  }

  lemma ConcatAssoc(r1: Result<string, Error>, r2: Result<string, Error>, r3: Result<string, Error>)
    ensures Concat(r1, Concat(r2, r3)) == Concat(Concat(r1, r2), r3)
  {
    if r1.Success? && r2.Success? && r3.Success? {
      assert r1.value + (r2.value + r3.value) == (r1.value + r2.value) + r3.value;
    }
  }

  /** The text a template stands for: every `%name%` replaced by the flattened value of
      token `name`, literal text kept. `fuel` bounds how deeply references may nest; the
      error is that of the first reference, from the left, that cannot be expanded. */
  function Flatten(ts: seq<Token>, s: string, fuel: nat): Result<string, Error>
    decreases fuel, |s|, 1
  {
    if s == [] then Success("")
    else if s[0] != '%' then Cons(s[0], Flatten(ts, s[1..], fuel))
    else Reference(ts, s, fuel)
  }

  /** A template that starts with `%`: the reference up to the next `%`, then the rest. */
  function Reference(ts: seq<Token>, s: string, fuel: nat): Result<string, Error>
    requires s != [] && s[0] == '%'
    decreases fuel, |s|, 0
  {
    match NextPercent(s, 1)
    case None => Failure(MalformedTemplate(s))
    case Some(j) =>
      var name := s[1..j];
      match Lookup(ts, name)
      case None => Failure(UndefinedToken(name))
      case Some(v) =>
        if fuel == 0 then Failure(TooDeep(name))
        else Concat(Flatten(ts, v, fuel - 1), Flatten(ts, s[j + 1..], fuel))
  }

  /** The argument vector of a template: its flattened text cut at whitespace. */
  function Expand(ts: seq<Token>, s: string, fuel: nat): Result<seq<string>, Error> {
    match Flatten(ts, s, fuel)
    case Failure(e) => Failure(e)
    case Success(x) => Success(SplitWs(x))
  }

  /** An expansion has one argument more than its flattened text has whitespace
      characters, and no argument holds whitespace. */
  lemma ExpandCount(ts: seq<Token>, s: string, fuel: nat)
    requires Flatten(ts, s, fuel).Success?
    ensures Expand(ts, s, fuel).Success?
    ensures |Expand(ts, s, fuel).value| == |Spaces(Flatten(ts, s, fuel).value)| + 1
    ensures forall i :: 0 <= i < |Expand(ts, s, fuel).value| ==> NoSpace(Expand(ts, s, fuel).value[i])
  {
    SplitWsSpec(Flatten(ts, s, fuel).value);
  }

  /** A template whose flattened text has no whitespace, such as `%prefix%include` over a
      prefix without spaces, is a single argument. */
  lemma ExpandSingle(ts: seq<Token>, s: string, fuel: nat)
    requires Flatten(ts, s, fuel).Success? && NoSpace(Flatten(ts, s, fuel).value)
    ensures Expand(ts, s, fuel) == Success([Flatten(ts, s, fuel).value])
  {
    FirstSpaceSpec(Flatten(ts, s, fuel).value);
  }

  /** The number of `%` characters of `s`. */
  function Percents(s: string): nat {
    if s == [] then 0 else (if s[0] == '%' then 1 else 0) + Percents(s[1..])
  }

  lemma {:induction false} PercentsAppend(a: string, b: string)
    ensures Percents(a + b) == Percents(a) + Percents(b)
  {
    if a == [] {
      assert a + b == b;
    } else {
      assert a + b != [] && (a + b)[0] == a[0];
      assert (a + b)[1..] == a[1..] + b;
      PercentsAppend(a[1..], b);
    }
  }

  lemma {:induction false} PercentsNone(s: string)
    requires forall k :: 0 <= k < |s| ==> s[k] != '%'
    ensures Percents(s) == 0
  {
    if s != [] {
      PercentsNone(s[1..]);
    }
  }

  /** Text without `%` stands for itself. */
  lemma {:induction false} FlattenLiteral(ts: seq<Token>, s: string, fuel: nat)
    requires forall k :: 0 <= k < |s| ==> s[k] != '%'
    ensures Flatten(ts, s, fuel) == Success(s)
    decreases |s|
  {
    if s != [] {
      FlattenLiteral(ts, s[1..], fuel);
      assert [s[0]] + s[1..] == s;
    }
  }

  /** A template without `%` expands to the plain whitespace cut of its text. */
  lemma ExpandLiteral(ts: seq<Token>, s: string, fuel: nat)
    requires forall k :: 0 <= k < |s| ==> s[k] != '%'
    ensures Expand(ts, s, fuel) == Success(SplitWs(s))
  {
    FlattenLiteral(ts, s, fuel);
  }

  /** Every `%` of a template that expands is paired with a closing one, so a template
      with an odd number of `%` (some `%` without a closing `%` after it) fails. */
  lemma {:induction false} UnterminatedReferenceFails(ts: seq<Token>, s: string, fuel: nat)
    requires Percents(s) % 2 == 1
    ensures Flatten(ts, s, fuel).Failure?
    decreases |s|
  {
    if s[0] != '%' {
      assert s == [s[0]] + s[1..];
      PercentsAppend([s[0]], s[1..]);
      UnterminatedReferenceFails(ts, s[1..], fuel);
    } else {
      match NextPercent(s, 1)
      case None =>
      case Some(j) =>
        assert s == [s[0]] + s[1..j] + [s[j]] + s[j + 1..];
        PercentsAppend([s[0]] + s[1..j] + [s[j]], s[j + 1..]);
        PercentsAppend([s[0]] + s[1..j], [s[j]]);
        PercentsAppend([s[0]], s[1..j]);
        PercentsNone(s[1..j]);
        UnterminatedReferenceFails(ts, s[j + 1..], fuel);
    }
  }

  /** Flattening works left to right: a prefix that flattens on its own contributes its
      text, and the rest of the template is flattened after it. */
  lemma {:induction false} FlattenAppend(ts: seq<Token>, a: string, b: string, fuel: nat)
    requires Flatten(ts, a, fuel).Success?
    ensures Flatten(ts, a + b, fuel) == Concat(Flatten(ts, a, fuel), Flatten(ts, b, fuel))
    decreases |a|, 1
  {
    if a == [] {
      assert a + b == b;
      if Flatten(ts, b, fuel).Success? {
        assert "" + Flatten(ts, b, fuel).value == Flatten(ts, b, fuel).value;
      }
    } else if a[0] != '%' {
      assert a + b != [] && (a + b)[0] == a[0];
      assert (a + b)[1..] == a[1..] + b;
      FlattenAppend(ts, a[1..], b, fuel);
      var x := Flatten(ts, a[1..], fuel).value;
      if Flatten(ts, b, fuel).Success? {
        var y := Flatten(ts, b, fuel).value;
        assert [a[0]] + (x + y) == ([a[0]] + x) + y;
      }
    } else {
      ReferenceAppend(ts, a, b, fuel);
    }
  }

  lemma {:induction false} ReferenceAppend(ts: seq<Token>, a: string, b: string, fuel: nat)
    requires a != [] && a[0] == '%'
    requires Reference(ts, a, fuel).Success?
    ensures Reference(ts, a + b, fuel) == Concat(Reference(ts, a, fuel), Flatten(ts, b, fuel))
    decreases |a|, 0
  {
    var j := NextPercent(a, 1).value;
    NextPercentPrefix(a, b, 1);
    assert (a + b)[1..j] == a[1..j];
    assert (a + b)[j + 1..] == a[j + 1..] + b;
    var v := Lookup(ts, a[1..j]).value;
    var x := Flatten(ts, v, fuel - 1);
    FlattenAppend(ts, a[j + 1..], b, fuel);
    ConcatAssoc(x, Flatten(ts, a[j + 1..], fuel), Flatten(ts, b, fuel));
  }

  lemma {:induction false} NextPercentPrefix(a: string, b: string, from: nat)
    requires from <= |a| && NextPercent(a, from).Some?
    ensures NextPercent(a + b, from) == NextPercent(a, from)
    decreases |a| - from
  {
    if a[from] != '%' {
      NextPercentPrefix(a, b, from + 1);
    }
  }

  /** Two templates separated by whitespace give the arguments of the first followed by
      the arguments of the second: a multi-word value contributes whole arguments. */
  lemma SeparatedTemplates(ts: seq<Token>, a: string, c: char, b: string, fuel: nat)
    requires IsSpace(c)
    requires Flatten(ts, a, fuel).Success? && Flatten(ts, b, fuel).Success?
    ensures Expand(ts, a + [c] + b, fuel) ==
      Success(Expand(ts, a, fuel).value + Expand(ts, b, fuel).value)
  {
    var x := Flatten(ts, a, fuel).value;
    var y := Flatten(ts, b, fuel).value;
    assert Flatten(ts, [c] + b, fuel) == Success([c] + y) by {
      assert ([c] + b)[0] == c && ([c] + b)[1..] == b;
    }
    FlattenAppend(ts, a, [c] + b, fuel);
    assert a + [c] + b == a + ([c] + b);
    assert x + ([c] + y) == x + [c] + y;
    SplitWsAtSpace(x, c, y);
  }

  /** More fuel never changes an expansion that already succeeded. */
  lemma {:induction false} FlattenFuelMonotone(ts: seq<Token>, s: string, fuel: nat, more: nat)
    requires fuel <= more
    requires Flatten(ts, s, fuel).Success?
    ensures Flatten(ts, s, more) == Flatten(ts, s, fuel)
    decreases fuel, |s|
  {
    if s == [] {
    } else if s[0] != '%' {
      FlattenFuelMonotone(ts, s[1..], fuel, more);
    } else {
      var j := NextPercent(s, 1).value;
      var v := Lookup(ts, s[1..j]).value;
      FlattenFuelMonotone(ts, v, fuel - 1, more - 1);
      FlattenFuelMonotone(ts, s[j + 1..], fuel, more);
    }
  }
}
