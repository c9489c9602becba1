/** The non-Windows branch of gb.c's `set_gbdk_dir`: the program path is simplified by
    three rewrite loops that work in place on a NUL-terminated character buffer, and the
    text up to its second-to-last `/` becomes the installation prefix. The functions
    give the meaning of each loop; the methods are the loops over the buffer. */
module Paths {
  import opened Wrappers

  /** `pat` occurs in `s` at position `i`. */
  predicate At(s: string, i: int, pat: string) {
    0 <= i && i + |pat| <= |s| && forall j :: 0 <= j < |pat| ==> s[i + j] == pat[j]
  }

  /** `pat` occurs nowhere in `s`. */
  predicate Free(s: string, pat: string) {
    forall i :: 0 <= i <= |s| ==> !At(s, i, pat)
  }

  /** An occurrence in the tail of `s` is an occurrence in `s`, one position later. */
  lemma AtShift(s: string, k: int, pat: string)
    requires s != []
    ensures At(s[1..], k, pat) <==> k >= 0 && At(s, k + 1, pat)
  {
    if k >= 0 && k + |pat| <= |s[1..]| {
      assert forall i :: k <= i < k + |pat| ==> s[1..][i] == s[i + 1];
    }
  }

  lemma AtDoubleSlash(s: string, i: int)
    ensures At(s, i, "//") <==> 0 <= i && i + 2 <= |s| && s[i] == '/' && s[i + 1] == '/'
  {
    if At(s, i, "//") {
      assert s[i + 0] == "//"[0] && s[i + 1] == "//"[1];
    }
  }

  lemma AtDotSegment(s: string, i: int)
    ensures At(s, i, "/./") <==>
      0 <= i && i + 3 <= |s| && s[i] == '/' && s[i + 1] == '.' && s[i + 2] == '/'
  {
    if At(s, i, "/./") {
      assert s[i + 0] == "/./"[0] && s[i + 1] == "/./"[1] && s[i + 2] == "/./"[2];
    }
  }

  lemma AtParentSegment(s: string, i: int)
    ensures At(s, i, "/../") <==>
      0 <= i && i + 4 <= |s| && s[i] == '/' && s[i + 1] == '.' && s[i + 2] == '.' && s[i + 3] == '/'
  {
    if At(s, i, "/../") {
      assert s[i + 0] == "/../"[0] && s[i + 1] == "/../"[1];
      assert s[i + 2] == "/../"[2] && s[i + 3] == "/../"[3];
    }
  }

  /** `strstr` from position `from` on: the first occurrence of `pat`. */
  function FindFrom(s: string, pat: string, from: nat): (r: Option<nat>)
    ensures r.Some? ==> from <= r.value && At(s, r.value, pat)
    ensures r.Some? ==> forall k :: from <= k < r.value ==> !At(s, k, pat)
    ensures r.None? ==> forall k :: from <= k ==> !At(s, k, pat)
    decreases |s| - from
  {
    if from + |pat| > |s| then None
    else if At(s, from, pat) then Some(from)
    else FindFrom(s, pat, from + 1)
  }

  function Find(s: string, pat: string): (r: Option<nat>)
    ensures r.None? <==> Free(s, pat)
    ensures r.Some? ==> At(s, r.value, pat) && forall k :: 0 <= k < r.value ==> !At(s, k, pat)
  {
    FindFrom(s, pat, 0)
  }

  /** The first occurrence, found by its position. */
  lemma FindAt(s: string, pat: string, m: nat)
    requires At(s, m, pat) && forall k :: 0 <= k < m ==> !At(s, k, pat)
    ensures Find(s, pat) == Some(m)
  {
  }

  /** `strrchr`: the position of the last `c` in `s`. */
  function LastIndex(s: string, c: char): (r: Option<nat>)
    ensures r.Some? ==> r.value < |s| && s[r.value] == c
    ensures r.Some? ==> forall k :: r.value < k < |s| ==> s[k] != c
    ensures r.None? ==> forall k :: 0 <= k < |s| ==> s[k] != c
    decreases |s|
  {
    if s == [] then None
    else if s[|s| - 1] == c then Some(|s| - 1)
    else LastIndex(s[..|s| - 1], c)
  }

  // ---------------------------------------------------------------------------------
  // First loop: every run of slashes becomes one slash.

  /** Runs of `/` collapsed to a single `/`, read left to right. */
  function Collapse(s: string): string
    decreases |s|
  {
    if |s| < 2 then s
    else if s[0] == '/' && s[1] == '/' then Collapse(s[1..])
    else [s[0]] + Collapse(s[1..])
  }

  lemma {:induction false} CollapseHead(s: string)
    requires s != []
    ensures Collapse(s) != [] && Collapse(s)[0] == s[0]
    decreases |s|
  {
    if |s| >= 2 && s[0] == '/' && s[1] == '/' {
      CollapseHead(s[1..]);
    }
  }

  /** No `//` is left after the first loop. */
  lemma {:induction false} CollapseHasNoDoubleSlash(s: string)
    ensures Free(Collapse(s), "//")
    decreases |s|
  {
    if |s| >= 2 {
      CollapseHasNoDoubleSlash(s[1..]);
      if !(s[0] == '/' && s[1] == '/') {
        var t := Collapse(s[1..]);
        CollapseHead(s[1..]);
        var u := [s[0]] + t;
        forall i | 0 <= i <= |u| ensures !At(u, i, "//") {
          AtDoubleSlash(u, i);
          if i >= 1 {
            AtDoubleSlash(t, i - 1);
          }
        }
      }
    }
  }

  /** Deleting one slash of a `//`, the first loop's `memmove`, does not change what the
      loop ends with. */
  lemma {:induction false} CollapseDelete(s: string, m: nat)
    requires At(s, m, "//")
    ensures Collapse(s[..m] + s[m + 1..]) == Collapse(s)
    decreases m
  {
    var t := s[..m] + s[m + 1..];
    AtDoubleSlash(s, m);
    if m == 0 {
      assert t == s[1..];
    } else {
      assert t[0] == s[0] && t[1] == s[1];
      assert t[1..] == s[1..][..m - 1] + s[1..][m..];
      AtShift(s, m - 1, "//");
      CollapseDelete(s[1..], m - 1);
    }
  }

  /** A text with no `//` is left as it is. */
  lemma {:induction false} CollapseFree(s: string)
    requires Free(s, "//")
    ensures Collapse(s) == s
    decreases |s|
  {
    if |s| >= 2 {
      AtDoubleSlash(s, 0);
      forall i | 0 <= i <= |s[1..]| ensures !At(s[1..], i, "//") {
        AtShift(s, i, "//");
      }
      CollapseFree(s[1..]);
    }
  }

  // ---------------------------------------------------------------------------------
  // Second loop: every `/./` becomes `/`.

  /** `/./` segments dropped, read left to right. */
  function DropDots(s: string): string
    decreases |s|
  {
    if |s| < 3 then s
    else if s[0] == '/' && s[1] == '.' && s[2] == '/' then DropDots(s[2..])
    else [s[0]] + DropDots(s[1..])
  }

  lemma {:induction false} DropDotsHead(s: string)
    requires s != []
    ensures DropDots(s) != [] && DropDots(s)[0] == s[0]
    decreases |s|
  {
    if |s| >= 3 && s[0] == '/' && s[1] == '.' && s[2] == '/' {
      DropDotsHead(s[2..]);
    }
  }

  /** A text that does not start with `/./` keeps its first character in front. */
  lemma DropDotsCons(s: string)
    requires s != [] && !At(s, 0, "/./")
    ensures DropDots(s) == [s[0]] + DropDots(s[1..])
  {
    AtDotSegment(s, 0);
    if |s| < 3 {
      assert [s[0]] + s[1..] == s;
    }
  }

  /** No `/./` is left after the second loop. */
  lemma {:induction false} DropDotsHasNoDotSegment(s: string)
    ensures Free(DropDots(s), "/./")
    decreases |s|
  {
    if |s| >= 3 {
      if s[0] == '/' && s[1] == '.' && s[2] == '/' {
        DropDotsHasNoDotSegment(s[2..]);
      } else {
        DropDotsHasNoDotSegment(s[1..]);
        var t := DropDots(s[1..]);
        var u := [s[0]] + t;
        DropDotsHead(s[1..]);
        if s[1] == '.' {
          AtDotSegment(s[1..], 0);
          DropDotsCons(s[1..]);
          DropDotsHead(s[2..]);
          assert t[1] == s[2];
        }
        forall i | 0 <= i <= |u| ensures !At(u, i, "/./") {
          AtDotSegment(u, i);
          if i >= 1 {
            AtDotSegment(t, i - 1);
          }
        }
      }
    }
  }

  /** Deleting the `/.` of the first `/./`, the second loop's `memmove`, does not change
      what the loop ends with. */
  lemma {:induction false} DropDotsDelete(s: string, m: nat)
    requires Find(s, "/./") == Some(m)
    ensures DropDots(s[..m] + s[m + 2..]) == DropDots(s)
    decreases m
  {
    var t := s[..m] + s[m + 2..];
    AtDotSegment(s, m);
    if m == 0 {
      assert t == s[2..];
    } else {
      DropDotsCons(s);
      DeleteKeepsStart(s, m);
      DropDotsCons(t);
      assert t[1..] == s[1..][..m - 1] + s[1..][m + 1..];
      forall k | 0 <= k < m - 1 ensures !At(s[1..], k, "/./") {
        AtShift(s, k, "/./");
      }
      AtShift(s, m - 1, "/./");
      DropDotsDelete(s[1..], m - 1);
    }
  }

  /** Deleting at the first `/./`, when that is not at the start, leaves a text that does
      not start with `/./` either. */
  lemma DeleteKeepsStart(s: string, m: nat)
    requires Find(s, "/./") == Some(m) && m > 0
    ensures var t := s[..m] + s[m + 2..]; t != [] && t[0] == s[0] && !At(t, 0, "/./")
  {
    var t := s[..m] + s[m + 2..];
    AtDotSegment(s, m);
    AtDotSegment(s, 0);
    AtDotSegment(t, 0);
    assert t[0] == s[0];
    if m == 1 {
      assert t[1] == s[3];
    } else if m == 2 {
      assert t[1] == s[1] && t[2] == s[4];
    } else {
      assert t[1] == s[1] && t[2] == s[2];
    }
  }

  /** A text with no `/./` is left as it is. */
  lemma {:induction false} DropDotsFree(s: string)
    requires Free(s, "/./")
    ensures DropDots(s) == s
    decreases |s|
  {
    if |s| >= 3 {
      AtDotSegment(s, 0);
      forall i | 0 <= i <= |s[1..]| ensures !At(s[1..], i, "/./") {
        AtShift(s, i, "/./");
      }
      DropDotsFree(s[1..]);
    }
  }

  // ---------------------------------------------------------------------------------
  // Third loop: `seg/../` is removed, as the code (not its comment) does it.

  /** One pass of the third loop, on a text whose first `/../` is at `m`: the text after
      the pass, or None when the loop breaks. The code looks for the last `/` before the
      match. Failing that, a text that does not start with `.` (a start at the match
      itself counts as the NUL written there) loses everything up to the match and the
      `/../` itself; a text starting with `.` breaks the loop. */
  function ParentStep(s: string, m: nat): (r: Option<string>)
    requires At(s, m, "/../")
    ensures r.Some? ==> |r.value| + 4 <= |s|
  {
    match LastIndex(s[..m], '/')
    case Some(rm) => Some(s[..rm] + s[m + 3..])
    case None =>
      var first := if m == 0 then '\0' else s[0];
      if first != '.' && first != '/' then Some(s[m + 4..]) else None
  }

  /** The third loop: passes until no `/../` is left or a pass breaks. */
  function ResolveParents(s: string): string
    decreases |s|
  {
    match Find(s, "/../")
    case None => s
    case Some(m) =>
      match ParentStep(s, m)
      case None => s
      case Some(t) => ResolveParents(t)
  }

  /** The loop breaks exactly when nothing but a name starting with `.` precedes the
      first `/../`: `./..` and `../..` are kept. */
  lemma ParentStepBreaks(s: string, m: nat)
    requires At(s, m, "/../")
    ensures ParentStep(s, m).None? <==> m > 0 && s[0] == '.' && '/' !in s[..m]
  {
    if m > 0 && s[0] == '.' && '/' !in s[..m] {
      assert LastIndex(s[..m], '/').None?;
    }
  }

  /** A pass that finds a `/` before the match removes the segment between that `/` and
      the match together with the `/..` after it; the segment holds no `/`. */
  lemma ParentStepRemovesSegment(s: string, m: nat, rm: nat)
    requires At(s, m, "/../") && LastIndex(s[..m], '/') == Some(rm)
    ensures ParentStep(s, m) == Some(s[..rm] + s[m + 3..])
    ensures s == s[..rm] + "/" + s[rm + 1..m] + "/.." + s[m + 3..]
    ensures '/' !in s[rm + 1..m]
  {
    AtParentSegment(s, m);
    assert s[m..m + 3] == "/..";
    assert s == s[..rm] + [s[rm]] + s[rm + 1..m] + s[m..m + 3] + s[m + 3..];
  }

  /** The `strcmp(rmatch, "/..")` test of the third loop never succeeds: with the NUL
      written at the match, it would need a `/../` earlier than the first one. So the
      loop breaks only on the leading-dot case. */
  lemma DeadDotDotGuard(s: string, m: nat)
    requires Find(s, "/../") == Some(m)
    ensures LastIndex(s[..m], '/').Some? ==> s[LastIndex(s[..m], '/').value..m] != "/.."
    ensures LastIndex(s[..m], '/').None? && (m == 0 || s[0] != '/') ==> s[..m] != "/.."
  {
    AtParentSegment(s, m);
    if LastIndex(s[..m], '/').Some? {
      var rm := LastIndex(s[..m], '/').value;
      AtParentSegment(s, rm);
      if m == rm + 3 {
        assert s[rm..m][1] == s[rm + 1] && s[rm..m][2] == s[rm + 2];
      }
    }
    if m > 0 {
      assert s[..m][0] == s[0];
    }
  }

  /** What the third loop ends with: no `/../` at all, or a first `/../` preceded only by
      a name starting with `.`. */
  lemma {:induction false} ResolveParentsResult(s: string)
    ensures var r := ResolveParents(s);
      Free(r, "/../")
      || (Find(r, "/../").Some? && Find(r, "/../").value > 0 && r[0] == '.'
          && '/' !in r[..Find(r, "/../").value])
    decreases |s|
  {
    match Find(s, "/../") {
      case None =>
      case Some(m) =>
        ParentStepBreaks(s, m);
        match ParentStep(s, m) {
          case None =>
          case Some(t) => ResolveParentsResult(t);
        }
    }
  }

  /** The third loop never lengthens the text. */
  lemma {:induction false} ResolveParentsShortens(s: string)
    ensures |ResolveParents(s)| <= |s|
    decreases |s|
  {
    match Find(s, "/../") {
      case None =>
      case Some(m) =>
        match ParentStep(s, m) {
          case None =>
          case Some(t) => ResolveParentsShortens(t);
        }
    }
  }

  /** All three loops in order. */
  function Normalise(s: string): string {
    ResolveParents(DropDots(Collapse(s)))
  }

  /** A text free of `pat` has tails free of it. */
  lemma FreeSuffix(s: string, k: nat, pat: string)
    requires Free(s, pat) && k <= |s|
    ensures Free(s[k..], pat)
  {
    forall i | 0 <= i <= |s[k..]| ensures !At(s[k..], i, pat) {
      assert !At(s, k + i, pat);
    }
  }

  /** The second loop cannot bring two slashes together: the `/` that follows a dropped
      `/.` is preceded by what preceded that `/.`, which was not a `/`. */
  lemma {:induction false} DropDotsKeepsNoDoubleSlash(s: string)
    requires Free(s, "//")
    ensures Free(DropDots(s), "//")
    decreases |s|
  {
    if |s| >= 3 {
      if s[0] == '/' && s[1] == '.' && s[2] == '/' {
        FreeSuffix(s, 2, "//");
        DropDotsKeepsNoDoubleSlash(s[2..]);
      } else {
        FreeSuffix(s, 1, "//");
        DropDotsKeepsNoDoubleSlash(s[1..]);
        var t := DropDots(s[1..]);
        DropDotsHead(s[1..]);
        var u := [s[0]] + t;
        forall i | 0 <= i <= |u| ensures !At(u, i, "//") {
          AtDoubleSlash(u, i);
          if i >= 1 {
            AtDoubleSlash(t, i - 1);
          } else {
            AtDoubleSlash(s, 0);
          }
        }
      }
    }
  }

  /** Cutting `s[rm..m + 3]` out between two slashes creates neither `//` nor `/./`: the
      text keeps `s` up to the slash at `rm` and continues as `s` after the slash at
      `m + 3`. */
  lemma CutKeepsFree(s: string, rm: nat, m: nat, pat: string)
    requires rm < m && m + 3 < |s| && s[rm] == '/' && s[m + 3] == '/'
    requires pat == "//" || pat == "/./"
    requires Free(s, pat)
    ensures Free(s[..rm] + s[m + 3..], pat)
  {
    var t := s[..rm] + s[m + 3..];
    assert forall k :: 0 <= k <= rm ==> t[k] == s[k];
    assert forall k :: rm <= k < |t| ==> t[k] == s[k - rm + m + 3];
    forall i | 0 <= i <= |t| ensures !At(t, i, pat) {
      if i + |pat| <= rm + 1 {
        assert !At(s, i, pat);
      } else if i >= rm {
        assert !At(s, i - rm + m + 3, pat);
      } else {
        // only `/./` can straddle the slash at `rm`, and it would need a `.` there
        assert t[i + 1] != pat[1];
      }
    }
  }

  /** A pass of the third loop keeps a text free of `//` and of `/./`. */
  lemma ParentStepKeepsFree(s: string, m: nat)
    requires At(s, m, "/../") && Free(s, "//") && Free(s, "/./")
    requires ParentStep(s, m).Some?
    ensures Free(ParentStep(s, m).value, "//") && Free(ParentStep(s, m).value, "/./")
  {
    AtParentSegment(s, m);
    match LastIndex(s[..m], '/') {
      case Some(rm) =>
        assert s[rm] == s[..m][rm];
        CutKeepsFree(s, rm, m, "//");
        CutKeepsFree(s, rm, m, "/./");
      case None =>
        FreeSuffix(s, m + 4, "//");
        FreeSuffix(s, m + 4, "/./");
    }
  }

  /** The third loop keeps a text free of `//` and of `/./`. */
  lemma {:induction false} ResolveParentsKeepsFree(s: string)
    requires Free(s, "//") && Free(s, "/./")
    ensures Free(ResolveParents(s), "//") && Free(ResolveParents(s), "/./")
    decreases |s|
  {
    match Find(s, "/../") {
      case None =>
      case Some(m) =>
        match ParentStep(s, m) {
          case None =>
          case Some(t) =>
            ParentStepKeepsFree(s, m);
            ResolveParentsKeepsFree(t);
        }
    }
  }

  /** What the third loop ends with is left as it is by another run of it. */
  lemma ResolveParentsIdempotent(s: string)
    ensures ResolveParents(ResolveParents(s)) == ResolveParents(s)
  {
    var r := ResolveParents(s);
    ResolveParentsResult(s);
    if Find(r, "/../").Some? {
      ParentStepBreaks(r, Find(r, "/../").value);
    }
  }

  /** Normalising a normalised path gives it back unchanged. */
  lemma NormaliseIdempotent(s: string)
    ensures Normalise(Normalise(s)) == Normalise(s)
  {
    var c := Collapse(s);
    var d := DropDots(c);
    var r := ResolveParents(d);
    CollapseHasNoDoubleSlash(s);
    DropDotsHasNoDotSegment(c);
    DropDotsKeepsNoDoubleSlash(c);
    ResolveParentsKeepsFree(d);
    CollapseFree(r);
    DropDotsFree(r);
    ResolveParentsIdempotent(d);
  }

  // ---------------------------------------------------------------------------------
  // The prefix.

  function SlashCount(s: string): nat
    decreases |s|
  {
    if s == [] then 0 else SlashCount(s[..|s| - 1]) + (if s[|s| - 1] == '/' then 1 else 0)
  }

  /** The two `strrchr` calls after the loops: the text cut just after its second-to-last
      `/`, or None when it has fewer than two. */
  function StripTail(s: string): Option<string> {
    match LastIndex(s, '/')
    case None => None
    case Some(p) =>
      match LastIndex(s[..p], '/')
      case None => None
      case Some(q) => Some(s[..q + 1])
  }

  lemma {:induction false} SlashCountNone(s: string)
    requires forall k :: 0 <= k < |s| ==> s[k] != '/'
    ensures SlashCount(s) == 0
    decreases |s|
  {
    if s != [] {
      SlashCountNone(s[..|s| - 1]);
    }
  }

  lemma {:induction false} SlashCountAppend(a: string, b: string)
    ensures SlashCount(a + b) == SlashCount(a) + SlashCount(b)
    decreases |b|
  {
    if b == [] {
      assert a + b == a;
    } else {
      assert (a + b)[..|a + b| - 1] == a + b[..|b| - 1];
      SlashCountAppend(a, b[..|b| - 1]);
    }
  }

  /** A text cut around one character. */
  lemma SplitAround(s: string, i: nat, j: nat)
    requires i <= j < |s|
    ensures s[i..] == s[i..j] + [s[j]] + s[j + 1..]
  {
  }

  /** The slashes of a text cut at a slash: those before it, the one at it, and none
      after it when it is the last. */
  lemma SlashCountAtLast(s: string, p: nat)
    requires LastIndex(s, '/') == Some(p)
    ensures SlashCount(s) == SlashCount(s[..p]) + 1
  {
    SplitAround(s, 0, p);
    assert s[0..] == s && s[0..p] == s[..p];
    SlashCountAppend(s[..p] + [s[p]], s[p + 1..]);
    SlashCountAppend(s[..p], [s[p]]);
    SlashCountNone(s[p + 1..]);
    assert [s[p]][..0] == [];
  }

  /** A text with a single `/` between two slash-free parts. */
  lemma SlashCountOne(a: string, b: string)
    requires forall k :: 0 <= k < |a| ==> a[k] != '/'
    requires forall k :: 0 <= k < |b| ==> b[k] != '/'
    ensures SlashCount(a + "/" + b) == 1
  {
    SlashCountAppend(a + "/", b);
    SlashCountAppend(a, "/");
    SlashCountNone(a);
    SlashCountNone(b);
    assert "/"[..0] == [];
    assert SlashCount("/") == SlashCount([]) + 1;
  }

  /** The text after a slash `q` that has exactly one more slash, at `p`, after it. */
  lemma SlashCountBetween(s: string, q: nat, p: nat)
    requires q < p < |s| && s[p] == '/' && LastIndex(s, '/') == Some(p)
    requires LastIndex(s[..p], '/') == Some(q)
    ensures SlashCount(s[q + 1..]) == 1
  {
    var mid := s[q + 1..p];
    var tail := s[p + 1..];
    SplitAround(s, q + 1, p);
    assert s[q + 1..] == mid + "/" + tail;
    forall k | 0 <= k < |mid| ensures mid[k] != '/' {
      assert mid[k] == s[..p][q + 1 + k];
    }
    forall k | 0 <= k < |tail| ensures tail[k] != '/' {
      assert tail[k] == s[p + 1 + k];
    }
    SlashCountOne(mid, tail);
  }

  /** The prefix exists exactly when the path has two slashes; it is the part of the path
      up to and including a `/`, followed by a rest holding exactly one `/`. */
  lemma StripTailSpec(s: string)
    ensures StripTail(s).Some? <==> SlashCount(s) >= 2
    ensures StripTail(s).Some? ==>
      var pre := StripTail(s).value;
      pre <= s && pre != [] && pre[|pre| - 1] == '/' && SlashCount(s[|pre|..]) == 1
  {
    match LastIndex(s, '/') {
      case None =>
        SlashCountNone(s);
      case Some(p) =>
        SlashCountAtLast(s, p);
        match LastIndex(s[..p], '/') {
          case None =>
            SlashCountNone(s[..p]);
          case Some(q) =>
            assert s[..p][..q] == s[..q];
            SlashCountAtLast(s[..p], q);
            SlashCountBetween(s, q, p);
        }
    }
  }

  /** The prefix `set_gbdk_dir` derives from the program path, if any. */
  function GbdkPrefix(argv0: string): Option<string> {
    StripTail(Normalise(argv0))
  }

  /** A path starting with `/../`: the NUL written at the match makes the first character
      look like neither `.` nor `/`, so the leading `/../` is cut and the path becomes
      relative. */
  lemma LeadingParentDropped(t: string)
    requires Free(t, "/../")
    ensures ResolveParents("/../" + t) == t
  {
    var s := "/../" + t;
    AtParentSegment(s, 0);
    FindAt(s, "/../", 0);
    assert s[4..] == t;
  }

  // ---------------------------------------------------------------------------------
  // The buffer: `char buf[1024]` holding a NUL-terminated string.

  /** `b` holds a C string of length `n`: a NUL at `n` and none before it. */
  predicate CStr(b: seq<char>, n: nat) {
    n < |b| && b[n] == '\0' && forall k :: 0 <= k < n ==> b[k] != '\0'
  }

  /** The buffer after `memmove(b + dst, b + src, count)` with `dst <= src`. */
  function Moved(b: seq<char>, dst: nat, src: nat, count: nat): (r: seq<char>)
    requires dst <= src && src + count <= |b|
    ensures |r| == |b|
  {
    b[..dst] + b[src..src + count] + b[dst + count..]
  }

  /** Moving the tail of a C string at `len`, NUL included, from `src` down to `dst`
      closes the gap: the string loses `b[dst..src]` and stays terminated. */
  lemma MovedCloses(b: seq<char>, dst: nat, src: nat, len: nat)
    requires dst <= src <= len < |b| && b[len] == '\0'
    requires forall k :: 0 <= k < dst ==> b[k] != '\0'
    requires forall k :: src <= k < len ==> b[k] != '\0'
    ensures var r := Moved(b, dst, src, len + 1 - src);
      CStr(r, len - (src - dst)) && r[..len - (src - dst)] == b[..dst] + b[src..len]
  {
    var r := Moved(b, dst, src, len + 1 - src);
    var nl := len - (src - dst);
    var head := b[..dst] + b[src..len];
    assert r == head + [b[len]] + b[nl + 1..];
    assert r[..nl] == head && r[nl] == b[len];
    forall k | 0 <= k < nl
      ensures r[k] != '\0'
    {
      if k < dst {
        assert r[k] == b[k];
      } else {
        assert r[k] == b[k - dst + src];
      }
    }
  }

  /** One more character of a forward `memmove`: the byte at `src + i` is still the
      original one, and copying it to `dst + i` extends the move by one. */
  lemma MovedStep(b: seq<char>, dst: nat, src: nat, i: nat)
    requires dst <= src && src + i < |b|
    ensures Moved(b, dst, src, i)[src + i] == b[src + i]
    ensures Moved(b, dst, src, i)[dst + i := b[src + i]] == Moved(b, dst, src, i + 1)
  {
    var r := Moved(b, dst, src, i);
    assert r[src + i] == b[dst + i..][src - dst];
    var r' := Moved(b, dst, src, i + 1);
    assert b[src..src + i + 1] == b[src..src + i] + [b[src + i]];
    assert b[dst + i..] == [b[dst + i]] + b[dst + i + 1..];
    assert r[dst + i := b[src + i]] == r';
  }

  /** `memmove` for an overlapping move towards the start of the buffer, copying forward. */
  method Memmove(buf: array<char>, dst: nat, src: nat, count: nat)
    requires dst <= src && src + count <= buf.Length
    modifies buf
    ensures buf[..] == Moved(old(buf[..]), dst, src, count)
  {
    ghost var b := buf[..];
    var i := 0;
    assert b[src..src] == [] && b[..dst] + [] == b[..dst] && b[..dst] + b[dst..] == b;
    while i < count
      invariant i <= count && buf[..] == Moved(b, dst, src, i)
    {
      MovedStep(b, dst, src, i);
      buf[dst + i] := buf[src + i];
      i := i + 1;
    }
  }

  /** `strstr` on the string of length `n` in `buf`. */
  method Strstr(buf: array<char>, n: nat, pat: string) returns (r: Option<nat>)
    requires n <= buf.Length && pat != []
    ensures r == Find(buf[..n], pat)
  {
    var i := 0;
    while i + |pat| <= n
      invariant forall k :: 0 <= k < i ==> !At(buf[..n], k, pat)
    {
      var j := 0;
      while j < |pat| && buf[i + j] == pat[j]
        invariant j <= |pat|
        invariant forall l :: 0 <= l < j ==> buf[i + l] == pat[l]
      {
        j := j + 1;
      }
      if j == |pat| {
        assert At(buf[..n], i, pat);
        return Some(i);
      }
      i := i + 1;
    }
    return None;
  }

  /** `strrchr` on the string of length `n` in `buf`: a forward scan that remembers the
      last hit. */
  method Strrchr(buf: array<char>, n: nat, c: char) returns (r: Option<nat>)
    requires n <= buf.Length
    ensures r == LastIndex(buf[..n], c)
  {
    r := None;
    var i := 0;
    while i < n
      invariant i <= n
      invariant r == LastIndex(buf[..i], c)
    {
      assert buf[..i + 1][..i] == buf[..i];
      if buf[i] == c {
        r := Some(i);
      }
      i := i + 1;
    }
  }

  /** The first loop of `set_gbdk_dir`: while a `//` is found, the first of its slashes is
      deleted by moving the rest of the string, NUL included, one place down. */
  method SqueezeSlashes(buf: array<char>, n: nat) returns (len: nat)
    requires CStr(buf[..], n)
    modifies buf
    ensures CStr(buf[..], len) && buf[..len] == Collapse(old(buf[..n]))
  {
    len := n;
    var hit := Strstr(buf, len, "//");
    while hit.Some?
      invariant CStr(buf[..], len)
      invariant Collapse(buf[..len]) == Collapse(old(buf[..n]))
      invariant hit == Find(buf[..len], "//")
      decreases len
    {
      var m := hit.value;
      ghost var b := buf[..len];
      AtDoubleSlash(b, m);
      len := CloseGap(buf, len, m, m + 1);
      assert buf[..len] == b[..m] + b[m + 1..];
      CollapseDelete(b, m);
      hit := Strstr(buf, len, "//");
    }
    CollapseFree(buf[..len]);
  }

  /** The second loop: while a `/./` is found, its `/.` is deleted. */
  method DropDotSegments(buf: array<char>, n: nat) returns (len: nat)
    requires CStr(buf[..], n)
    modifies buf
    ensures CStr(buf[..], len) && buf[..len] == DropDots(old(buf[..n]))
  {
    len := n;
    var hit := Strstr(buf, len, "/./");
    while hit.Some?
      invariant CStr(buf[..], len)
      invariant DropDots(buf[..len]) == DropDots(old(buf[..n]))
      invariant hit == Find(buf[..len], "/./")
      decreases len
    {
      var m := hit.value;
      ghost var b := buf[..len];
      AtDotSegment(b, m);
      len := CloseGap(buf, len, m, m + 2);
      assert buf[..len] == b[..m] + b[m + 2..];
      DropDotsDelete(b, m);
      hit := Strstr(buf, len, "/./");
    }
    DropDotsFree(buf[..len]);
  }

  /** The two cuts a pass of the third loop makes: from the last `/` before the match up
      to the match's second `/`, or, with no `/` before it, from the start through the
      whole `/../`. */
  lemma ParentStepCut(s: string, m: nat, rm: nat, from: nat)
    requires At(s, m, "/../")
    requires (LastIndex(s[..m], '/') == Some(rm) && from == m)
      || (LastIndex(s[..m], '/') == None && rm == 0 && from == m + 1
          && (m == 0 || (s[0] != '.' && s[0] != '/')))
    ensures rm <= from && from + 3 <= |s|
    ensures ParentStep(s, m) == Some(s[..rm] + s[from + 3..])
  {
    if LastIndex(s[..m], '/').None? {
      assert s[..rm] + s[from + 3..] == s[m + 4..];
    }
  }

  /** `memmove(buf + dst, buf + src, strlen(buf + src) + 1)`: the C string of length
      `len` loses `buf[dst..src]`. */
  method CloseGap(buf: array<char>, len: nat, dst: nat, src: nat) returns (cut: nat)
    requires dst <= src <= len < buf.Length && buf[len] == '\0'
    requires forall k :: 0 <= k < dst ==> buf[k] != '\0'
    requires forall k :: src <= k < len ==> buf[k] != '\0'
    modifies buf
    ensures cut == len - (src - dst)
    ensures CStr(buf[..], cut) && buf[..cut] == old(buf[..dst]) + old(buf[src..len])
  {
    ghost var b := buf[..];
    Memmove(buf, dst, src, len + 1 - src);
    MovedCloses(b, dst, src, len);
    return len - (src - dst);
  }

  /** One pass of the third loop, at a `/../` found at `m`. A NUL is written at the match
      so that `strrchr` sees only the text before it; with no `/` there, a text that does
      not start with `.` or `/` is cut up to the match, and the restoring `/` lands one
      place after the match, where the move then covers it. `None` is the `break`. */
  method CutParent(buf: array<char>, len: nat, m: nat) returns (r: Option<nat>)
    requires CStr(buf[..], len) && Find(buf[..len], "/../") == Some(m)
    modifies buf
    ensures match ParentStep(old(buf[..len]), m)
      case None => r == None && buf[..] == old(buf[..])
      case Some(t) => r == Some(|t|) && CStr(buf[..], |t|) && buf[..|t|] == t
  {
    ghost var s := buf[..len];
    ghost var whole := buf[..];
    AtParentSegment(s, m);
    DeadDotDotGuard(s, m);
    var rmatch, from := LocateCut(buf, len, m);
    if rmatch.None? || buf[rmatch.value..m] == "/.." {
      buf[from] := '/';
      assert buf[..] == whole;
      return None;
    }
    var rm := rmatch.value;
    ParentStepCut(s, m, rm, from);
    buf[from] := '/';
    var cut := CutSegment(buf, len, s, rm, from + 3);
    return Some(cut);
  }

  /** The start of a pass of the third loop: a NUL is written at the match, `strrchr`
      looks for the last `/` before it, and a text with none that starts with neither
      `.` nor `/` (the NUL itself when the match is at 0) is cut from its start, with the
      match pointer moved past the first `/`. */
  method LocateCut(buf: array<char>, len: nat, m: nat) returns (rmatch: Option<nat>, from: nat)
    requires CStr(buf[..], len) && At(buf[..len], m, "/../")
    modifies buf
    ensures buf[..] == old(buf[..])[m := '\0']
    ensures var s := old(buf[..len]);
      var leading := LastIndex(s[..m], '/').None? && (m == 0 || (s[0] != '.' && s[0] != '/'));
      rmatch == (if leading then Some(0) else LastIndex(s[..m], '/'))
      && from == (if leading then m + 1 else m)
  {
    ghost var s := buf[..len];
    AtParentSegment(s, m);
    buf[m] := '\0';
    assert buf[..m] == s[..m] && buf[0] == if m == 0 then '\0' else s[0];
    rmatch := Strrchr(buf, m, '/');
    from := m;
    if rmatch.None? && buf[0] != '.' && buf[0] != '/' {
      rmatch := Some(0);
      from := m + 1;
    }
  }

  /** The `memmove(rmatch, match + 3, ...)` of a pass: the buffer still holds the text `s`
      before `dst` and from `src` on, and the text between them is dropped. */
  method CutSegment(buf: array<char>, len: nat, ghost s: string, dst: nat, src: nat) returns (cut: nat)
    requires dst <= src <= len == |s| < buf.Length && buf[len] == '\0'
    requires forall k :: 0 <= k < len ==> s[k] != '\0'
    requires forall k :: 0 <= k < dst ==> buf[k] == s[k]
    requires forall k :: src <= k < len ==> buf[k] == s[k]
    modifies buf
    ensures CStr(buf[..], cut) && buf[..cut] == s[..dst] + s[src..]
  {
    assert old(buf[..dst]) == s[..dst] && old(buf[src..len]) == s[src..];
    cut := CloseGap(buf, len, dst, src);
  }

  /** The third loop of `set_gbdk_dir`: while a `/../` is found, the segment before it
      goes with it. */
  method ResolveParentSegments(buf: array<char>, n: nat) returns (len: nat)
    requires CStr(buf[..], n)
    modifies buf
    ensures CStr(buf[..], len) && buf[..len] == ResolveParents(old(buf[..n]))
  {
    len := n;
    var hit := Strstr(buf, len, "/../");
    while hit.Some?
      invariant CStr(buf[..], len)
      invariant ResolveParents(buf[..len]) == ResolveParents(old(buf[..n]))
      invariant hit == Find(buf[..len], "/../")
      decreases len
    {
      var next := CutParent(buf, len, hit.value);
      if next.None? {
        break;
      }
      len := next.value;
      hit := Strstr(buf, len, "/../");
    }
  }

  /** The prefix cut after the loops: the last `/` becomes the end of the string, then the
      string is ended just after the `/` before it. */
  method CutPrefix(buf: array<char>, n: nat) returns (r: Option<nat>)
    requires CStr(buf[..], n)
    modifies buf
    ensures match StripTail(old(buf[..n]))
      case None => r == None
      case Some(p) => r == Some(|p|) && CStr(buf[..], |p|) && buf[..|p|] == p
  {
    ghost var s := buf[..n];
    var p := Strrchr(buf, n, '/');
    if p.Some? {
      buf[p.value] := '\0';
      assert buf[..p.value] == s[..p.value];
      var q := Strrchr(buf, p.value, '/');
      if q.Some? {
        buf[q.value + 1] := '\0';
        assert buf[..q.value + 1] == s[..q.value + 1];
        return Some(q.value + 1);
      }
    }
    return None;
  }
}
