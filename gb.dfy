/** The global state of gb.c (the token table, the active class, the shared expansion
    buffer and the five argument vectors) and the operations that change it. */
module Gb {
  import opened Wrappers
  import opened Errors
  import opened Tokens
  import opened Profiles
  import opened Template
  import Paths

  /** `starts_with`: the text of `s` after `prefix`, or None (the C NULL) when `s` does
      not begin with `prefix`. */
  function StartsWith(s: string, prefix: string): (r: Option<string>)
    ensures r.Some? <==> prefix <= s
    ensures r.Some? ==> s == prefix + r.value
  {
    if |prefix| <= |s| && s[..|prefix|] == prefix then Some(s[|prefix|..]) else None
  }

  /** A string that differs from `prefix` at some position inside both does not start
      with it. */
  lemma StartsWithMismatch(s: string, prefix: string, i: nat)
    requires i < |s| && i < |prefix| && s[i] != prefix[i]
    ensures StartsWith(s, prefix) == None
  {
  }

  /** The tail `starts_with` returns is the only one that completes the prefix. */
  lemma StartsWithTail(prefix: string, tail: string)
    ensures StartsWith(prefix + tail, prefix) == Some(tail)
  {
    assert (prefix + tail)[..|prefix|] == prefix;
    assert (prefix + tail)[|prefix|..] == tail;
  }

  /** What `option` does with one argument, decided by the first prefix the argument
      carries, in the order the source tests them. */
  datatype Request =
    | SetPath(key: string, path: string)           // --prefix=, --gbdklibdir=, --gbdkincludedir=, --sdccbin=
    | Machine(port: string, plat: Option<string>)  // -mPORT or -mPORT/PLAT
    | Model(model: string, cppModel: string)       // --model-small, --model-medium
    | NotAnOption

  /** `strchr(tail, '/')` and the cut made there: the text before the first slash and,
      when there is a slash, the text after it. */
  function SplitAtSlash(s: string): (r: (string, Option<string>))
    ensures '/' !in r.0
    ensures r.1.None? ==> r.0 == s
    ensures r.1.Some? ==> s == r.0 + "/" + r.1.value
    decreases |s|
  {
    if s == [] then ("", None)
    else if s[0] == '/' then ("", Some(s[1..]))
    else
      var (head, rest) := SplitAtSlash(s[1..]);
      ([s[0]] + head, rest)
  }

  function Classify(arg: string): Request {
    match StartsWith(arg, "--prefix=")
    case Some(t) => SetPath("prefix", t)
    case None =>
    match StartsWith(arg, "--gbdklibdir=")
    case Some(t) => SetPath("libdir", t)
    case None =>
    match StartsWith(arg, "--gbdkincludedir=")
    case Some(t) => SetPath("includedir", t)
    case None =>
    match StartsWith(arg, "--sdccbin=")
    case Some(t) => SetPath("sdccbin", t)
    case None =>
    match StartsWith(arg, "-m")
    case Some(t) => var (port, plat) := SplitAtSlash(t); Machine(port, plat)
    case None =>
    match StartsWith(arg, "--model-")
    case Some("small") => Model("small", "SDCC_MODEL_SMALL")
    case Some("medium") => Model("medium", "SDCC_MODEL_MEDIUM")
    case _ => NotAnOption
  }

  /** `-mPORT/PLAT` names the port before the FIRST slash; everything after it, further
      slashes included, is the platform. */
  lemma MachineWithPlatform(port: string, plat: string)
    requires '/' !in port
    ensures Classify("-m" + port + "/" + plat) == Machine(port, Some(plat))
  {
    var arg := "-m" + port + "/" + plat;
    assert arg == "-m" + (port + "/" + plat);
    MachineNotPath(port + "/" + plat);
    StartsWithTail("-m", port + "/" + plat);
    SplitAtSlashUnique(port, plat);
  }

  lemma MachineWithoutPlatform(port: string)
    requires '/' !in port
    ensures Classify("-m" + port) == Machine(port, None)
  {
    MachineNotPath(port);
    StartsWithTail("-m", port);
    SplitAtSlashNone(port);
  }

  /** A `-m` argument carries none of the path prefixes. */
  lemma MachineNotPath(tail: string)
    ensures StartsWith("-m" + tail, "--prefix=") == None
    ensures StartsWith("-m" + tail, "--gbdklibdir=") == None
    ensures StartsWith("-m" + tail, "--gbdkincludedir=") == None
    ensures StartsWith("-m" + tail, "--sdccbin=") == None
  {
    var arg := "-m" + tail;
    assert arg[1] == 'm';
    StartsWithMismatch(arg, "--prefix=", 1);
    StartsWithMismatch(arg, "--gbdklibdir=", 1);
    StartsWithMismatch(arg, "--gbdkincludedir=", 1);
    StartsWithMismatch(arg, "--sdccbin=", 1);
  }

  lemma {:induction false} SplitAtSlashUnique(head: string, tail: string)
    requires '/' !in head
    ensures SplitAtSlash(head + "/" + tail) == (head, Some(tail))
    decreases |head|
  {
    var s := head + "/" + tail;
    if head == [] {
      assert s == "/" + tail;
    } else {
      assert s[0] == head[0] && s[1..] == head[1..] + "/" + tail;
      SplitAtSlashUnique(head[1..], tail);
      assert [head[0]] + head[1..] == head;
    }
  }

  lemma {:induction false} SplitAtSlashNone(s: string)
    requires '/' !in s
    ensures SplitAtSlash(s) == (s, None)
    decreases |s|
  {
    if s != [] {
      SplitAtSlashNone(s[1..]);
      assert [s[0]] + s[1..] == s;
    }
  }

  /** `--model-` with a tail other than `small` or `medium` is not an option at all. */
  lemma OtherModelIgnored(tail: string)
    requires tail != "small" && tail != "medium"
    ensures Classify("--model-" + tail) == NotAnOption
  {
    var arg := "--model-" + tail;
    assert arg[1] == '-' && arg[2] == 'm';
    StartsWithMismatch(arg, "--prefix=", 2);
    StartsWithMismatch(arg, "--gbdklibdir=", 2);
    StartsWithMismatch(arg, "--gbdkincludedir=", 2);
    StartsWithMismatch(arg, "--sdccbin=", 2);
    StartsWithMismatch(arg, "-m", 1);
    StartsWithTail("--model-", tail);
  }

  /** `--prefix=PATH` sets `prefix` to PATH. */
  lemma PrefixOption(path: string)
    ensures Classify("--prefix=" + path) == SetPath("prefix", path)
  {
    StartsWithTail("--prefix=", path);
  }

  /** `--gbdklibdir=PATH` sets `libdir` to PATH. */
  lemma LibDirOption(path: string)
    ensures Classify("--gbdklibdir=" + path) == SetPath("libdir", path)
  {
    var arg := "--gbdklibdir=" + path;
    assert arg[2] == 'g';
    StartsWithMismatch(arg, "--prefix=", 2);
    StartsWithTail("--gbdklibdir=", path);
  }

  /** `--gbdkincludedir=PATH` sets `includedir` to PATH. */
  lemma IncludeDirOption(path: string)
    ensures Classify("--gbdkincludedir=" + path) == SetPath("includedir", path)
  {
    var arg := "--gbdkincludedir=" + path;
    assert arg[2] == 'g' && arg[6] == 'i';
    StartsWithMismatch(arg, "--prefix=", 2);
    StartsWithMismatch(arg, "--gbdklibdir=", 6);
    StartsWithTail("--gbdkincludedir=", path);
  }

  /** `--sdccbin=PATH` sets `sdccbin` to PATH. */
  lemma SdccBinOption(path: string)
    ensures Classify("--sdccbin=" + path) == SetPath("sdccbin", path)
  {
    var arg := "--sdccbin=" + path;
    assert arg[2] == 's';
    StartsWithMismatch(arg, "--prefix=", 2);
    StartsWithMismatch(arg, "--gbdklibdir=", 2);
    StartsWithMismatch(arg, "--gbdkincludedir=", 2);
    StartsWithTail("--sdccbin=", path);
  }

  /** The token table after the writes a request makes. */
  function Written(ts: seq<Token>, req: Request): seq<Token> {
    match req
    case SetPath(key, path) => Assign(ts, key, path)
    case Machine(port, plat) =>
      var withPlat := if plat.Some? then Assign(ts, "plat", plat.value) else ts;
      Assign(withPlat, "port", port)
    case Model(model, cppModel) =>
      Assign(Assign(Assign(ts, "commodel", model), "libmodel", model), "cppmodel", cppModel)
    case NotAnOption => ts
  }

  /** The token names a request writes. */
  function WrittenKeys(req: Request): set<string> {
    match req
    case SetPath(key, _) => {key}
    case Machine(_, _) => {"plat", "port"}
    case Model(_, _) => {"commodel", "libmodel", "cppmodel"}
    case NotAnOption => {}
  }

  /** A request leaves every token it does not name as it was, and never adds a key. */
  lemma WrittenKeepsOthers(ts: seq<Token>, req: Request, key: string)
    requires key !in WrittenKeys(req)
    ensures Lookup(Written(ts, req), key) == Lookup(ts, key)
    ensures Names(Written(ts, req)) == Names(ts)
  {
  }

  /** Every token a request names holds, afterwards, the value the request gives it. */
  lemma WrittenSetsValues(ts: seq<Token>, req: Request)
    requires FixedKeys(ts)
    ensures req.SetPath? && req.key in DefaultNames ==> Lookup(Written(ts, req), req.key) == Some(req.path)
    ensures req.Machine? ==> Lookup(Written(ts, req), "port") == Some(req.port)
    ensures req.Machine? && req.plat.Some? ==> Lookup(Written(ts, req), "plat") == Some(req.plat.value)
    ensures req.Model? ==>
      Lookup(Written(ts, req), "commodel") == Some(req.model)
      && Lookup(Written(ts, req), "libmodel") == Some(req.model)
      && Lookup(Written(ts, req), "cppmodel") == Some(req.cppModel)
  {
    assert "port" in DefaultNames && "plat" in DefaultNames;
    assert "commodel" in DefaultNames && "libmodel" in DefaultNames && "cppmodel" in DefaultNames;
  }

  /** What `option` returns: 1 for a recognised option, 0 for any other argument, and
      the error exit for a `-m` request no class accepts. */
  function Verdict(req: Request, arg: string): Result<bool, Error> {
    match req
    case NotAnOption => Success(false)
    case Machine(port, plat) =>
      if FirstMatch(Classes, port, plat).Some? then Success(true) else Failure(UnknownPort(arg))
    case _ => Success(true)
  }

  /** The class `option` leaves active. */
  function ClassAfter(req: Request, cls: nat): nat {
    if req.Machine? && FirstMatch(Classes, req.port, req.plat).Some?
    then FirstMatch(Classes, req.port, req.plat).value
    else cls
  }

  /** The platform a class forces on the table before expansion: a class with a NULL
      platform writes its default platform into `plat`. */
  function PlatDefaulted(ts: seq<Token>, c: Profile): seq<Token> {
    if c.plat.None? then Assign(ts, "plat", c.defaultPlat) else ts
  }

  /** Defaulting the platform touches `plat` and nothing else. */
  lemma PlatDefaultedSpec(ts: seq<Token>, c: Profile)
    requires FixedKeys(ts)
    ensures FixedKeys(PlatDefaulted(ts, c))
    ensures c.plat.None? ==> Lookup(PlatDefaulted(ts, c), "plat") == Some(c.defaultPlat)
    ensures c.plat.Some? ==> PlatDefaulted(ts, c) == ts
    ensures forall k :: k != "plat" ==> Lookup(PlatDefaulted(ts, c), k) == Lookup(ts, k)
  {
    assert "plat" in DefaultNames;
  }

  /** The five argument vectors `finalise` builds. */
  datatype Vectors = Vectors(
    preprocess: seq<string>,
    includes: seq<string>,
    compile: seq<string>,
    assemble: seq<string>,
    link: seq<string>)

  /** Enough expansion depth for any table whose references do not loop: a chain of
      references without a repeat is no longer than the table. */
  function Depth(ts: seq<Token>): nat {
    |ts|
  }

  /** The five templates of a class expanded over a table, in the order `finalise`
      builds them; the first failure is the one reported. */
  function BuildAll(ts: seq<Token>, c: Profile): Result<Vectors, Error> {
    var cpp :- Expand(ts, c.preprocess, Depth(ts));
    var inc :- Expand(ts, c.includes, Depth(ts));
    var com :- Expand(ts, c.compile, Depth(ts));
    var asm :- Expand(ts, c.assemble, Depth(ts));
    var ld :- Expand(ts, c.link, Depth(ts));
    Success(Vectors(cpp, inc, com, asm, ld))
  }

  /** Text with no `%`: it holds no reference and flattens to itself. */
  predicate Plain(s: string) {
    forall k :: 0 <= k < |s| ==> s[k] != '%'
  }

  /** A reference to `name` followed by `rest`: the value flattened one level deeper,
      then the rest. */
  lemma ReferenceThen(ts: seq<Token>, name: string, v: string, x: string, rest: string, y: string, fuel: nat)
    requires Plain(name) && Lookup(ts, name) == Some(v) && fuel >= 1
    requires Flatten(ts, v, fuel - 1) == Success(x)
    requires Flatten(ts, rest, fuel) == Success(y)
    ensures Flatten(ts, "%" + name + "%" + rest, fuel) == Success(x + y)
  {
    var t := "%" + name + "%" + rest;
    var c := |name| + 1;
    assert t[0] == '%' && t[c] == '%';
    assert forall k :: 0 < k < c ==> t[k] == name[k - 1];
    assert t[1..c] == name && t[0..] == t && t[c + 1..] == rest;
    ReferenceFound(ts, t, 0, c, fuel, v);
  }

  /** A template that is a single reference flattens to the flattened value. */
  lemma ReferenceAlone(ts: seq<Token>, name: string, v: string, x: string, fuel: nat)
    requires Plain(name) && Lookup(ts, name) == Some(v) && fuel >= 1
    requires Flatten(ts, v, fuel - 1) == Success(x)
    ensures Flatten(ts, "%" + name + "%", fuel) == Success(x)
  {
    assert Flatten(ts, "", fuel) == Success("");
    ReferenceThen(ts, name, v, x, "", "", fuel);
    assert "%" + name + "%" + "" == "%" + name + "%";
    assert x + "" == x;
  }

  /** A reference to a plain value, followed by plain text, is the value then the text. */
  lemma ReferencePlain(ts: seq<Token>, name: string, v: string, tail: string, fuel: nat)
    requires Plain(name) && Plain(v) && Plain(tail) && Lookup(ts, name) == Some(v) && fuel >= 1
    ensures Flatten(ts, "%" + name + "%" + tail, fuel) == Success(v + tail)
  {
    assert Flatten(ts, v, fuel - 1) == Success(v) by { FlattenLiteral(ts, v, fuel - 1); }
    assert Flatten(ts, tail, fuel) == Success(tail) by { FlattenLiteral(ts, tail, fuel); }
    ReferenceThen(ts, name, v, v, tail, tail, fuel);
  }

  /** Plain text in front of a template is kept in front of its flattening. */
  lemma PlainThen(ts: seq<Token>, lead: string, r: string, y: string, fuel: nat)
    requires Plain(lead) && Flatten(ts, r, fuel) == Success(y)
    ensures Flatten(ts, lead + r, fuel) == Success(lead + y)
  {
    assert Flatten(ts, lead, fuel) == Success(lead) by { FlattenLiteral(ts, lead, fuel); }
    FlattenAppend(ts, lead, r, fuel);
  }

  /** A chain of three references, `n1` = `lead%n2%`, `n2` = `%n3%tail`, `n3` = `pv`,
      resolves within a depth of three: each level spends one unit of depth, so a depth
      of at least the chain's length never ends in TooDeep. */
  lemma ReferenceChain(ts: seq<Token>, n1: string, n2: string, n3: string, lead: string, tail: string, pv: string, fuel: nat)
    requires Plain(n1) && Plain(n2) && Plain(n3) && Plain(lead) && Plain(tail) && Plain(pv)
    requires Lookup(ts, n1) == Some(lead + ("%" + n2 + "%"))
    requires Lookup(ts, n2) == Some("%" + n3 + "%" + tail)
    requires Lookup(ts, n3) == Some(pv)
    requires fuel >= 3
    ensures Flatten(ts, "%" + n1 + "%", fuel) == Success(lead + (pv + tail))
  {
    var v2, v1 := "%" + n3 + "%" + tail, "%" + n2 + "%";
    assert Flatten(ts, v2, fuel - 2) == Success(pv + tail) by {
      ReferencePlain(ts, n3, pv, tail, fuel - 2);
    }
    assert Flatten(ts, v1, fuel - 1) == Success(pv + tail) by {
      ReferenceAlone(ts, n2, v2, pv + tail, fuel - 1);
    }
    assert Flatten(ts, lead + v1, fuel - 1) == Success(lead + (pv + tail)) by {
      PlainThen(ts, lead, v1, pv + tail, fuel - 1);
    }
    ReferenceAlone(ts, n1, lead + v1, lead + (pv + tail), fuel);
  }

  /** The texts of the default include chain, cut into their plain parts. */
  lemma IncludeChainText()
    ensures Plain("includedefault") && Plain("includedir") && Plain("prefix")
    ensures Plain("-I") && Plain("include") && Plain("\\gbdk\\")
    ensures "-I%includedir%" == "-I" + ("%" + "includedir" + "%")
    ensures "%prefix%include" == "%" + "prefix" + "%" + "include"
    ensures NoSpace("-I" + ("\\gbdk\\" + "include"))
    ensures "-I" + ("\\gbdk\\" + "include") == "-I\\gbdk\\include"
  {
  }

  /** Over any table whose `includedefault`, `includedir` and `prefix` hold the built-in
      values, `%includedefault%` expands at depth three or more to one argument. */
  lemma IncludeChainExpands(ts: seq<Token>, fuel: nat)
    requires Lookup(ts, "includedefault") == Some("-I%includedir%")
    requires Lookup(ts, "includedir") == Some("%prefix%include")
    requires Lookup(ts, "prefix") == Some("\\gbdk\\")
    requires fuel >= 3
    ensures Expand(ts, "%" + "includedefault" + "%", fuel) == Success(["-I\\gbdk\\include"])
  {
    IncludeChainText();
    ReferenceChain(ts, "includedefault", "includedir", "prefix", "-I", "include", "\\gbdk\\", fuel);
    ExpandSingle(ts, "%" + "includedefault" + "%", fuel);
  }

  lemma FirstClassIncludes()
    ensures Classes[0].includes == "%" + "includedefault" + "%"
  {
  }

  /** The include vector of the first class over the built-in table is the single
      argument `-I\gbdk\include` at any depth of three or more, so at `Depth`, which is
      18 for that table: the default templates do not run out of depth. */
  lemma DefaultIncludesExpand(fuel: nat)
    requires fuel >= 3
    ensures Expand(DefaultTokens, Classes[0].includes, fuel) == Success(["-I\\gbdk\\include"])
  {
    DefaultIncludeDefault();
    DefaultIncludeDir();
    DefaultPrefix();
    IncludeChainExpands(DefaultTokens, fuel);
    FirstClassIncludes();
  }

  /** The state gb.c keeps in file-scope variables. */
  class Lcc {
    var tokens: seq<Token>      // _tokens
    var cls: nat                // _class, as a position in Classes
    var buffer: string          // the static buffer of subBuildArgs
    var indent: nat             // the static indent of subBuildArgs
    var cppArgs: seq<string>    // cpp[]
    var includeArgs: seq<string> // include[]
    var comArgs: seq<string>    // com[]
    var asArgs: seq<string>     // as[]
    var ldArgs: seq<string>     // ld[]

    /** The key set is the fixed one and `_class` points into the class table. */
    ghost predicate Valid()
      reads this
    {
      FixedKeys(tokens) && cls < |Classes|
    }

    /** No expansion is under way: the shared buffer is empty and the depth is zero. */
    ghost predicate Idle()
      reads this
    {
      buffer == "" && indent == 0
    }

    /** The static initialisers. */
    constructor ()
      ensures Valid() && Idle()
      ensures tokens == DefaultTokens && cls == 0
      ensures cppArgs == [] && includeArgs == [] && comArgs == ["", "", ""]
      ensures asArgs == [] && ldArgs == []
    {
      tokens := DefaultTokens;
      cls := 0;
      buffer := "";
      indent := 0;
      cppArgs := [];
      includeArgs := [];
      comArgs := ["", "", ""];
      asArgs := [];
      ldArgs := [];
      DefaultsHaveFixedKeys();
    }

    /** `getTokenVal`: the value of the first entry named `key`; an unknown key is the
        failed assertion. */
    method GetTokenVal(key: string) returns (r: Result<string, Error>)
      ensures r.Success? <==> key in Names(tokens)
      ensures r.Success? ==> Lookup(tokens, key) == Some(r.value)
      ensures r.Failure? ==> r.error == UndefinedToken(key)
    {
      var i := 0;
      while i < |tokens|
        invariant i <= |tokens|
        invariant forall j :: 0 <= j < i ==> tokens[j].name != key
      {
        if tokens[i].name == key {
          return Success(tokens[i].val);
        }
        i := i + 1;
      }
      return Failure(UndefinedToken(key));
    }

    /** `setTokenVal`: overwrites the value of the first entry named `key`; an unknown
        key is the failed assertion and leaves the table as it was. */
    method SetTokenVal(key: string, val: string) returns (r: Outcome<Error>)
      modifies this`tokens
      ensures tokens == Assign(old(tokens), key, val)
      ensures r == if key in Names(old(tokens)) then Pass else Fail(UndefinedToken(key))
    {
      var i := 0;
      while i < |tokens|
        invariant i <= |tokens|
        invariant forall j :: 0 <= j < i ==> tokens[j].name != key
      {
        if tokens[i].name == key {
          tokens := tokens[i := tokens[i].(val := val)];
          return Pass;
        }
        i := i + 1;
      }
      return Fail(UndefinedToken(key));
    }

    /** `setClass`: makes the first class that accepts the request the active one. */
    method SetClass(port: string, plat: Option<string>) returns (found: bool)
      modifies this`cls
      ensures found == FirstMatch(Classes, port, plat).Some?
      ensures cls == if found then FirstMatch(Classes, port, plat).value else old(cls)
    {
      var i := 0;
      while i < |Classes|
        invariant i <= |Classes|
        invariant forall j :: 0 <= j < i ==> !Accepts(Classes[j], port, plat)
      {
        var c := Classes[i];
        if c.port == port {
          if plat.Some? && c.plat.Some? && c.plat.value == plat.value {
            cls := i;
            return true;
          } else if c.plat.None? || plat.None? {
            cls := i;
            return true;
          }
        }
        i := i + 1;
      }
      return false;
    }

    /** `subBuildArgs`: scans `template`, closes an argument at every whitespace
        character, and expands each `%name%` by a recursive call that shares `buffer`.
        The scan is exactly the accumulator `Feed` run over the flattened template; only
        the outermost call (depth 1) flushes the buffer as a last argument. */
    method SubBuildArgs(args: seq<string>, template: string, fuel: nat) returns (r: Result<seq<string>, Error>)
      requires NoSpace(buffer)
      modifies this`buffer, this`indent
      decreases fuel, 3
      ensures r.Failure? ==> Flatten(tokens, template, fuel) == Failure(r.error)
      ensures r.Success? ==> Flatten(tokens, template, fuel).Success?
      ensures r.Success? ==> indent == old(indent) && NoSpace(buffer)
      ensures r.Success? && old(indent) == 0 ==>
        buffer == "" && r.value == args + SplitWs(old(buffer) + Flatten(tokens, template, fuel).value)
      ensures r.Success? && old(indent) > 0 ==>
        Acc(r.value, buffer) == Feed(Acc(args, old(buffer)), Flatten(tokens, template, fuel).value)
    {
      ghost var start := Acc(args, buffer);
      indent := indent + 1;
      var out := args;
      var last: nat := 0;
      var src: nat := 0;
      assert template[0..] == template && buffer + template[0..0] == buffer;
      while src < |template|
        invariant last <= src <= |template|
        invariant indent == old(indent) + 1
        invariant Scanned(start, out, template, last, src, fuel)
        decreases |template| - src
      {
        var step := ScanStep(start, out, template, last, src, fuel);
        if step.Failure? {
          return Failure(step.error);
        }
        out, last, src := step.value.0, step.value.1, step.value.2;
      }
      ScanEnd(tokens, start, Acc(out, buffer + template[last..src]), template, fuel);
      assert template[last..src] == template[last..];
      buffer := buffer + template[last..];
      if indent == 1 {
        FeedThenFlush(start, Flatten(tokens, template, fuel).value);
        out := out + [buffer];
        buffer := "";
      } else {
        FeedKeepsNoSpace(start, Flatten(tokens, template, fuel).value);
      }
      indent := indent - 1;
      return Success(out);
    }

    /** What the scan of `subBuildArgs` keeps true: the pending text `template[last..src]`
        appended to `buffer` holds no whitespace, and the accumulator after the arguments
        `out` and that pending text, fed with the rest of the template, ends where the
        whole template fed from `start` ends. */
    ghost predicate Scanned(start: Acc, out: seq<string>, template: string, last: nat, src: nat, fuel: nat)
      reads this
      requires last <= src <= |template|
    {
      NoSpace(buffer + template[last..src])
      && FeedResult(start, Flatten(tokens, template, fuel))
        == FeedResult(Acc(out, buffer + template[last..src]), Flatten(tokens, template[src..], fuel))
    }

    /** One turn of the `subBuildArgs` loop, at `template[src]`: whitespace ends an
        argument, `%` flushes the pending text and expands a reference, anything else is
        left pending. On success it gives the new `out`, `last` and `src`. */
    method ScanStep(ghost start: Acc, out: seq<string>, template: string, last: nat, src: nat, fuel: nat)
      returns (r: Result<(seq<string>, nat, nat), Error>)
      requires last <= src < |template| && indent > 0
      requires Scanned(start, out, template, last, src, fuel)
      modifies this`buffer, this`indent
      decreases fuel, 2
      ensures r.Failure? ==> Flatten(tokens, template, fuel) == Failure(r.error)
      ensures r.Success? ==>
        r.value.1 <= r.value.2 <= |template| && src < r.value.2 && indent == old(indent)
        && Scanned(start, r.value.0, template, r.value.1, r.value.2, fuel)
    {
      var c := template[src];
      if IsSpace(c) {
        // the pending text ends an argument
        ScanSpace(tokens, start, out, buffer, template, last, src, fuel);
        buffer := buffer + template[last..src];
        var closed := out + [buffer];
        buffer := "";
        return Success((closed, src + 1, src + 1));
      } else if c == '%' {
        r := ScanPercent(start, out, template, last, src, fuel);
      } else {
        ScanOther(tokens, start, out, buffer, template, last, src, fuel);
        PendingGrows(buffer, template, last, src);
        return Success((out, last, src + 1));
      }
    }

    /** The `%` turn of the `subBuildArgs` loop: the pending text is flushed into
        `buffer`, the reference is expanded, and the scan resumes after the closing `%`
        with nothing pending. */
    method ScanPercent(ghost start: Acc, out: seq<string>, template: string, last: nat, src: nat, fuel: nat)
      returns (r: Result<(seq<string>, nat, nat), Error>)
      requires last <= src < |template| && indent > 0 && template[src] == '%'
      requires Scanned(start, out, template, last, src, fuel)
      modifies this`buffer, this`indent
      decreases fuel, 1
      ensures r.Failure? ==> Flatten(tokens, template, fuel) == Failure(r.error)
      ensures r.Success? ==>
        r.value.1 <= r.value.2 <= |template| && src < r.value.2 && indent == old(indent)
        && Scanned(start, r.value.0, template, r.value.1, r.value.2, fuel)
    {
      buffer := buffer + template[last..src];
      ghost var here := Acc(out, buffer);
      var sub, x := SubstituteReference(out, template, src, fuel);
      if sub.Failure? {
        ScanFails(tokens, start, here, template, src, fuel);
        return Failure(sub.error);
      }
      var next := sub.value.0;
      var close := sub.value.1;
      ScanReference(tokens, start, here, Acc(next, buffer), template, src, close, x, fuel);
      return Success((next, close + 1, close + 1));
    }

    /** The `%` branch of `subBuildArgs`: finds the `%` that closes the reference opened
        at `open`, looks the name up and expands its value one level deeper. On success
        it gives the arguments so far and the position of the closing `%`; the ghost `x`
        is the flattened value the accumulator took in. */
    method SubstituteReference(args: seq<string>, template: string, open: nat, fuel: nat)
      returns (r: Result<(seq<string>, nat), Error>, ghost x: string)
      requires open < |template| && template[open] == '%'
      requires NoSpace(buffer) && indent > 0
      modifies this`buffer, this`indent
      decreases fuel, 0
      ensures r.Failure? ==> Flatten(tokens, template[open..], fuel) == Failure(r.error)
      ensures r.Success? ==>
        var (out, close) := r.value;
        open < close < |template|
        && Flatten(tokens, template[open..], fuel) == Concat(Success(x), Flatten(tokens, template[close + 1..], fuel))
        && Acc(out, buffer) == Feed(Acc(args, old(buffer)), x)
        && indent == old(indent) && NoSpace(buffer)
    {
      var closing := FindClosing(template, open);
      if closing.None? {
        ReferenceUnclosed(tokens, template, open, fuel);
        return Failure(MalformedTemplate(template[open..])), "";
      }
      var src := closing.value;
      var name := template[open + 1..src];
      var value := GetTokenVal(name);
      if value.Failure? {
        ReferenceUndefined(tokens, template, open, src, fuel);
        return Failure(value.error), "";
      }
      if fuel == 0 {
        ReferenceTooDeep(tokens, template, open, src);
        return Failure(TooDeep(name)), "";
      }
      var sub := SubBuildArgs(args, value.value, fuel - 1);
      ReferenceFound(tokens, template, open, src, fuel, value.value);
      if sub.Failure? {
        return Failure(sub.error), "";
      }
      x := Flatten(tokens, value.value, fuel - 1).value;
      return Success((sub.value, src)), x;
    }

    /** The inner scan of the `%` branch: the position of the `%` that closes the
        reference opened at `open`, or None when the template ends first (the failed
        `assert(0)`). */
    static method FindClosing(template: string, open: nat) returns (r: Option<nat>)
      requires open < |template|
      ensures r.Some? ==> open < r.value < |template| && template[r.value] == '%'
      ensures r.Some? ==> forall k :: open < k < r.value ==> template[k] != '%'
      ensures r.None? ==> forall k :: open < k < |template| ==> template[k] != '%'
    {
      var src := open + 1;
      while src < |template| && template[src] != '%'
        invariant open < src <= |template|
        invariant forall k :: open < k < src ==> template[k] != '%'
      {
        src := src + 1;
      }
      if src == |template| {
        return None;
      }
      return Some(src);
    }

    /** `buildArgs`: the argument vector of a whole template, which is the flattened
        template cut at every whitespace character. */
    method BuildArgs(template: string, fuel: nat) returns (r: Result<seq<string>, Error>)
      requires Idle()
      modifies this`buffer, this`indent
      ensures r == Expand(tokens, template, fuel)
      ensures r.Success? ==> Idle()
    {
      r := SubBuildArgs([], template, fuel);
      if r.Success? {
        var flat := Flatten(tokens, template, fuel).value;
        assert "" + flat == flat && [] + SplitWs(flat) == SplitWs(flat);
      }
    }

    /** `option`: applies one command-line argument to the token table and the class. */
    method ApplyOption(arg: string) returns (r: Result<bool, Error>)
      requires Valid()
      modifies this`tokens, this`cls
      ensures Valid()
      ensures r == Verdict(Classify(arg), arg)
      ensures tokens == Written(old(tokens), Classify(arg))
      ensures cls == ClassAfter(Classify(arg), old(cls))
    {
      var tail := StartsWith(arg, "--prefix=");
      if tail.Some? {
        var _ := SetTokenVal("prefix", tail.value);
        return Success(true);
      }
      tail := StartsWith(arg, "--gbdklibdir=");
      if tail.Some? {
        var _ := SetTokenVal("libdir", tail.value);
        return Success(true);
      }
      tail := StartsWith(arg, "--gbdkincludedir=");
      if tail.Some? {
        var _ := SetTokenVal("includedir", tail.value);
        return Success(true);
      }
      tail := StartsWith(arg, "--sdccbin=");
      if tail.Some? {
        var _ := SetTokenVal("sdccbin", tail.value);
        return Success(true);
      }
      tail := StartsWith(arg, "-m");
      if tail.Some? {
        r := ApplyMachine(arg, tail.value);
        return;
      }
      tail := StartsWith(arg, "--model-");
      if tail.Some? {
        if tail.value == "small" {
          ApplyModel("small", "SDCC_MODEL_SMALL");
          return Success(true);
        } else if tail.value == "medium" {
          ApplyModel("medium", "SDCC_MODEL_MEDIUM");
          return Success(true);
        }
      }
      return Success(false);
    }

    /** The `-m` branch of `option`: `tail` is split at its first slash into port and
        platform, both are written, and the class is looked up; no match is the error
        exit. */
    method ApplyMachine(arg: string, tail: string) returns (r: Result<bool, Error>)
      requires Valid()
      modifies this`tokens, this`cls
      ensures Valid()
      ensures var req := Machine(SplitAtSlash(tail).0, SplitAtSlash(tail).1);
        r == Verdict(req, arg) && tokens == Written(old(tokens), req) && cls == ClassAfter(req, old(cls))
    {
      var (port, plat) := SplitAtSlash(tail);
      if plat.Some? {
        var _ := SetTokenVal("plat", plat.value);
      }
      var _ := SetTokenVal("port", port);
      var found := SetClass(port, plat);
      if !found {
        return Failure(UnknownPort(arg));
      }
      return Success(true);
    }

    /** The `--model-small` and `--model-medium` branches of `option`: the compiler, library
        and preprocessor models are written together. */
    method ApplyModel(model: string, cppModel: string)
      modifies this`tokens
      ensures tokens == Written(old(tokens), Model(model, cppModel))
    {
      var _ := SetTokenVal("commodel", model);
      var _ := SetTokenVal("libmodel", model);
      var _ := SetTokenVal("cppmodel", cppModel);
    }

    /** `finalise`: defaults the platform of a class that has none, then builds the five
        vectors from the active class's templates. */
    method Finalise() returns (r: Outcome<Error>)
      requires Valid() && Idle()
      modifies this`tokens, this`buffer, this`indent
      modifies this`cppArgs, this`includeArgs, this`comArgs, this`asArgs, this`ldArgs
      ensures Valid() && cls == old(cls)
      ensures tokens == PlatDefaulted(old(tokens), Classes[cls])
      ensures match BuildAll(tokens, Classes[cls])
        case Failure(e) => r == Fail(e)
        case Success(v) =>
          r == Pass && Idle()
          && cppArgs == v.preprocess && includeArgs == v.includes && comArgs == v.compile
          && asArgs == v.assemble && ldArgs == v.link
    {
      var c := Classes[cls];
      PlatDefaultedSpec(tokens, c);
      if c.plat.None? {
        var _ := SetTokenVal("plat", c.defaultPlat);
      }
      r := BuildVectors(c);
    }

    /** The five `buildArgs` calls of `finalise`, over the templates of class `c`. */
    method BuildVectors(c: Profile) returns (r: Outcome<Error>)
      requires Idle()
      modifies this`buffer, this`indent
      modifies this`cppArgs, this`includeArgs, this`comArgs, this`asArgs, this`ldArgs
      ensures match BuildAll(tokens, c)
        case Failure(e) => r == Fail(e)
        case Success(v) =>
          r == Pass && Idle()
          && cppArgs == v.preprocess && includeArgs == v.includes && comArgs == v.compile
          && asArgs == v.assemble && ldArgs == v.link
    {
      var fuel := Depth(tokens);
      var v := BuildArgs(c.preprocess, fuel);
      if v.Failure? {
        return Fail(v.error);
      }
      cppArgs := v.value;
      v := BuildArgs(c.includes, fuel);
      if v.Failure? {
        return Fail(v.error);
      }
      includeArgs := v.value;
      v := BuildArgs(c.compile, fuel);
      if v.Failure? {
        return Fail(v.error);
      }
      comArgs := v.value;
      v := BuildArgs(c.assemble, fuel);
      if v.Failure? {
        return Fail(v.error);
      }
      asArgs := v.value;
      v := BuildArgs(c.link, fuel);
      if v.Failure? {
        return Fail(v.error);
      }
      ldArgs := v.value;
      return Pass;
    }

    /** `set_gbdk_dir` outside Windows: `argv0` is copied into a 1024-byte buffer, its
        `//`, `/./` and `seg/../` are simplified in place, and when two `/` are left the
        text up to and including the second-to-last of them becomes `prefix`. */
    method SetGbdkDir(argv0: string)
      requires |argv0| < 1024 && forall k :: 0 <= k < |argv0| ==> argv0[k] != '\0'
      modifies this`tokens
      ensures tokens == match Paths.GbdkPrefix(argv0)
        case None => old(tokens)
        case Some(prefix) => Assign(old(tokens), "prefix", prefix)
    {
      var buf := new char[1024](_ => '\0');
      var n := |argv0|;
      var i := 0;
      while i < n
        invariant i <= n && buf[..i] == argv0[..i] && buf[n] == '\0'
        modifies buf
      {
        buf[i] := argv0[i];
        i := i + 1;
      }
      assert buf[..n] == argv0;
      n := Paths.SqueezeSlashes(buf, n);
      n := Paths.DropDotSegments(buf, n);
      n := Paths.ResolveParentSegments(buf, n);
      assert buf[..n] == Paths.Normalise(argv0);
      ghost var normal := buf[..n];
      var cut := Paths.CutPrefix(buf, n);
      assert Paths.GbdkPrefix(argv0) == Paths.StripTail(normal);
      if cut.Some? {
        assert buf[..cut.value] == Paths.GbdkPrefix(argv0).value;
        var _ := SetTokenVal("prefix", buf[..cut.value]);
      }
    }
  }

  /** One whitespace step of the scan: the pending text ends an argument. */
  lemma ScanSpace(ts: seq<Token>, start: Acc, out: seq<string>, buffer: string, t: string,
                  last: nat, src: nat, fuel: nat)
    requires last <= src < |t| && IsSpace(t[src])
    requires FeedResult(start, Flatten(ts, t, fuel))
      == FeedResult(Acc(out, buffer + t[last..src]), Flatten(ts, t[src..], fuel))
    ensures FeedResult(start, Flatten(ts, t, fuel))
      == FeedResult(Acc(out + [buffer + t[last..src]], "" + t[src + 1..src + 1]),
                    Flatten(ts, t[src + 1..], fuel))
  {
    assert t[src..][0] == t[src] && t[src..][1..] == t[src + 1..];
    FeedResultCons(Acc(out, buffer + t[last..src]), t[src], Flatten(ts, t[src + 1..], fuel));
    assert "" + t[src + 1..src + 1] == "";
  }

  /** One step of the scan over an ordinary character: the pending text grows. */
  lemma ScanOther(ts: seq<Token>, start: Acc, out: seq<string>, buffer: string, t: string,
                  last: nat, src: nat, fuel: nat)
    requires last <= src < |t| && !IsSpace(t[src]) && t[src] != '%'
    requires FeedResult(start, Flatten(ts, t, fuel))
      == FeedResult(Acc(out, buffer + t[last..src]), Flatten(ts, t[src..], fuel))
    ensures FeedResult(start, Flatten(ts, t, fuel))
      == FeedResult(Acc(out, buffer + t[last..src + 1]), Flatten(ts, t[src + 1..], fuel))
  {
    assert t[src..][0] == t[src] && t[src..][1..] == t[src + 1..];
    FeedResultCons(Acc(out, buffer + t[last..src]), t[src], Flatten(ts, t[src + 1..], fuel));
    assert buffer + t[last..src] + [t[src]] == buffer + t[last..src + 1];
  }

  /** The pending text grows by a character that is not whitespace. */
  lemma PendingGrows(buffer: string, t: string, last: nat, src: nat)
    requires last <= src < |t| && NoSpace(buffer + t[last..src]) && !IsSpace(t[src])
    ensures NoSpace(buffer + t[last..src + 1])
  {
    assert buffer + t[last..src + 1] == (buffer + t[last..src]) + [t[src]];
  }

  /** A reference with no closing `%` is the failed assertion of the inner scan. */
  lemma ReferenceUnclosed(ts: seq<Token>, t: string, open: nat, fuel: nat)
    requires open < |t| && t[open] == '%'
    requires forall k :: open < k < |t| ==> t[k] != '%'
    ensures Flatten(ts, t[open..], fuel) == Failure(MalformedTemplate(t[open..]))
  {
    var s := t[open..];
    assert NextPercent(s, 1).None?;
  }

  /** A reference to a name the table does not hold fails with that name. */
  lemma ReferenceUndefined(ts: seq<Token>, t: string, open: nat, close: nat, fuel: nat)
    requires open < close < |t| && t[open] == '%' && t[close] == '%'
    requires forall k :: open < k < close ==> t[k] != '%'
    requires t[open + 1..close] !in Names(ts)
    ensures Flatten(ts, t[open..], fuel) == Failure(UndefinedToken(t[open + 1..close]))
  {
    var s := t[open..];
    assert NextPercent(s, 1) == Some(close - open);
    assert s[1..close - open] == t[open + 1..close];
  }

  /** A reference met with no fuel left fails as too deep. */
  lemma ReferenceTooDeep(ts: seq<Token>, t: string, open: nat, close: nat)
    requires open < close < |t| && t[open] == '%' && t[close] == '%'
    requires forall k :: open < k < close ==> t[k] != '%'
    requires t[open + 1..close] in Names(ts)
    ensures Flatten(ts, t[open..], 0) == Failure(TooDeep(t[open + 1..close]))
  {
    var s := t[open..];
    assert NextPercent(s, 1) == Some(close - open);
    assert s[1..close - open] == t[open + 1..close];
  }

  /** A reference closed at `close` whose token has value `v`: the value is flattened one
      level deeper, then the scan goes on after the closing `%`. */
  lemma ReferenceFound(ts: seq<Token>, t: string, open: nat, close: nat, fuel: nat, v: string)
    requires open < close < |t| && t[open] == '%' && t[close] == '%'
    requires forall k :: open < k < close ==> t[k] != '%'
    requires Lookup(ts, t[open + 1..close]) == Some(v) && fuel > 0
    ensures Flatten(ts, t[open..], fuel) == Concat(Flatten(ts, v, fuel - 1), Flatten(ts, t[close + 1..], fuel))
  {
    var s := t[open..];
    assert NextPercent(s, 1) == Some(close - open);
    assert s[1..close - open] == t[open + 1..close];
    assert s[close - open + 1..] == t[close + 1..];
  }

  /** A failure met at position `i` is the failure of the whole template. */
  lemma ScanFails(ts: seq<Token>, start: Acc, a: Acc, t: string, i: nat, fuel: nat)
    requires i <= |t|
    requires FeedResult(start, Flatten(ts, t, fuel)) == FeedResult(a, Flatten(ts, t[i..], fuel))
    requires Flatten(ts, t[i..], fuel).Failure?
    ensures Flatten(ts, t, fuel) == Flatten(ts, t[i..], fuel)
  {
  }

  /** A reference whose value flattened to `x`: the accumulator has taken in `x`, and the
      scan goes on after the closing `%` with nothing pending. */
  lemma ScanReference(ts: seq<Token>, start: Acc, a: Acc, b: Acc, t: string, open: nat,
                      close: nat, x: string, fuel: nat)
    requires open < close < |t|
    requires FeedResult(start, Flatten(ts, t, fuel)) == FeedResult(a, Flatten(ts, t[open..], fuel))
    requires Flatten(ts, t[open..], fuel) == Concat(Success(x), Flatten(ts, t[close + 1..], fuel))
    requires b == Feed(a, x)
    ensures FeedResult(start, Flatten(ts, t, fuel))
      == FeedResult(Acc(b.args, b.buffer + t[close + 1..close + 1]), Flatten(ts, t[close + 1..], fuel))
  {
    FeedResultConcat(a, x, Flatten(ts, t[close + 1..], fuel));
    assert b.buffer + t[close + 1..close + 1] == b.buffer;
  }

  /** The end of the scan: nothing is left to feed, so the template flattened and the
      accumulator holds what it produced. */
  lemma ScanEnd(ts: seq<Token>, start: Acc, a: Acc, t: string, fuel: nat)
    requires FeedResult(start, Flatten(ts, t, fuel)) == FeedResult(a, Flatten(ts, t[|t|..], fuel))
    ensures Flatten(ts, t, fuel).Success?
    ensures Feed(start, Flatten(ts, t, fuel).value) == a
  {
    assert t[|t|..] == [];
  }
}
