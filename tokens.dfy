/** The token table `_tokens` of gb.c: a fixed, ordered list of (name, value) pairs whose
    values are themselves templates that may contain `%name%` references. */
module Tokens {
  import opened Wrappers

  datatype Token = Token(name: string, val: string)

  /** The names of a table, in table order. */
  function Names(ts: seq<Token>): (ns: seq<string>)
    ensures |ns| == |ts|
    ensures forall i :: 0 <= i < |ts| ==> ns[i] == ts[i].name
  {
    seq(|ts|, i requires 0 <= i < |ts| => ts[i].name)
  }

  /** The position of the first entry named `key`: the entry a linear scan stops at. */
  function IndexOf(ts: seq<Token>, key: string): (r: Option<nat>)
    ensures r.Some? ==> r.value < |ts| && ts[r.value].name == key
    ensures r.Some? ==> forall j :: 0 <= j < r.value ==> ts[j].name != key
    ensures r.None? <==> key !in Names(ts)
  {
    if ts == [] then None
    else if ts[0].name == key then Some(0)
    else match IndexOf(ts[1..], key)
      case None => None
      case Some(j) => Some(j + 1)
  }

  /** The value of `key`, or None when the table has no such key. */
  function Lookup(ts: seq<Token>, key: string): (r: Option<string>)
    ensures r.Some? <==> key in Names(ts)
    ensures r.Some? ==> exists i :: 0 <= i < |ts| && ts[i] == Token(key, r.value)
  {
    match IndexOf(ts, key)
    case None => None
    case Some(i) => Some(ts[i].val)
  }

  /** The table after `key` is given the value `val`; unchanged when `key` is absent. */
  function Assign(ts: seq<Token>, key: string, val: string): (r: seq<Token>)
    ensures Names(r) == Names(ts)
    ensures key in Names(ts) ==> Lookup(r, key) == Some(val)
    ensures key !in Names(ts) ==> r == ts
    ensures forall k :: k != key ==> Lookup(r, k) == Lookup(ts, k)
  {
    match IndexOf(ts, key)
    case None => ts
    case Some(i) =>
      var r := ts[i := Token(key, val)];
      assert Names(r) == Names(ts);
      forall k | k != key ensures Lookup(r, k) == Lookup(ts, k) {
        SameNamesSameIndex(r, ts, k);
      }
      SameNamesSameIndex(r, ts, key);
      r
  }

  /** Lookup only depends on where the names are, so tables with the same names agree on
      the position a scan stops at. */
  lemma {:induction false} SameNamesSameIndex(a: seq<Token>, b: seq<Token>, key: string)
    requires Names(a) == Names(b)
    ensures IndexOf(a, key) == IndexOf(b, key)
  {
    if a != [] {
      assert Names(a[1..]) == Names(a)[1..];
      assert Names(b[1..]) == Names(b)[1..];
      SameNamesSameIndex(a[1..], b[1..], key);
    }
  }

  /** Assigning twice to one key keeps only the second value (last write wins). */
  lemma LastWriteWins(ts: seq<Token>, key: string, v1: string, v2: string)
    ensures Assign(Assign(ts, key, v1), key, v2) == Assign(ts, key, v2)
  {
    SameNamesSameIndex(Assign(ts, key, v1), ts, key);
  }

  /** The built-in defaults of `_tokens`, for the non-Windows build without GBDKBINDIR
      and with the default GBDKLIBDIR. */
  const DefaultTokens: seq<Token> := [
    Token("port", "gbz80"),
    Token("plat", "gb"),
    Token("sdccbin", "%bindir%"),
    Token("cpp", "%sdccbin%sdcpp"),
    Token("cppdefault", "-Wall -DSDCC=1 -DSDCC_PORT=%port% -DSDCC_PLAT=%plat% -D%cppmodel%"),
    Token("cppmodel", "SDCC_MODEL_SMALL"),
    Token("includedefault", "-I%includedir%"),
    Token("includedir", "%prefix%include"),
    Token("prefix", "\\gbdk\\"),
    Token("comopt", "--noinvariant --noinduction"),
    Token("commodel", "small"),
    Token("com", "%sdccbin%sdcc"),
    Token("comdefault", "-mgbz80 --no-std-crt0 --fsigned-char --use-stdout --c1mode"),
    Token("as", "%sdccbin%sdasgb"),
    Token("ld", "%bindir%link-%port%"),
    Token("libdir", "%prefix%lib/%libmodel%/asxxxx/"),
    Token("libmodel", "small"),
    Token("bindir", "%prefix%bin/")
  ]

  const DefaultNames: seq<string> := [
    "port", "plat", "sdccbin", "cpp", "cppdefault", "cppmodel", "includedefault",
    "includedir", "prefix", "comopt", "commodel", "com", "comdefault", "as", "ld",
    "libdir", "libmodel", "bindir"
  ]

  /** The key set is fixed: every table gb.c can reach has the default names. */
  predicate FixedKeys(ts: seq<Token>) {
    Names(ts) == DefaultNames
  }

  lemma DefaultsHaveFixedKeys()
    ensures FixedKeys(DefaultTokens)
  {
    assert Names(DefaultTokens) == DefaultNames;
  }

  /** The entry a lookup finds is the first one carrying the name. */
  lemma FirstNamed(ts: seq<Token>, key: string, i: nat)
    requires i < |ts| && Names(ts)[i] == key
    requires forall j :: 0 <= j < i ==> Names(ts)[j] != key
    ensures Lookup(ts, key) == Some(ts[i].val)
  {
  }

  /** `includedefault`, `includedir` and `prefix` in the built-in table: the chain of
      references the default include flag goes through. */
  lemma DefaultIncludeDefault()
    ensures Lookup(DefaultTokens, "includedefault") == Some("-I%includedir%")
  {
    DefaultsHaveFixedKeys();
    FirstNamed(DefaultTokens, "includedefault", 6);
  }

  lemma DefaultIncludeDir()
    ensures Lookup(DefaultTokens, "includedir") == Some("%prefix%include")
  {
    DefaultsHaveFixedKeys();
    FirstNamed(DefaultTokens, "includedir", 7);
  }

  lemma DefaultPrefix()
    ensures Lookup(DefaultTokens, "prefix") == Some("\\gbdk\\")
  {
    DefaultsHaveFixedKeys();
    FirstNamed(DefaultTokens, "prefix", 8);
  }

  /** A name outside the fixed key set is never found and never added, whatever values
      the table holds. */
  lemma UnknownKeyRejected(ts: seq<Token>, key: string, val: string)
    requires FixedKeys(ts) && key !in DefaultNames
    ensures Lookup(ts, key) == None
    ensures Assign(ts, key, val) == ts
  {
  }
}
