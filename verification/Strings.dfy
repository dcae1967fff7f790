/**
 * The handful of PHP string built-ins the importer relies on: `trim` with a
 * character list, `implode`, `str_repeat`, `str_replace`, and counting the
 * occurrences of one character (used to count SQL placeholders).
 */
module Strings {

  /** The characters PHP's `trim` strips when no character list is given. */
  const PHP_WHITESPACE: set<char> := {' ', '\t', '\n', '\r', '\0', '\U{000B}'}

  /**
   * `ltrim($s, $cs)`: drops the longest prefix made of characters in `cs`.
   * That the result is a suffix of `s` is the lemma `TrimLeftIsSuffix`; as an
   * `ensures` here it would let the solver build slices of slices without end.
   */
  function TrimLeft(s: string, cs: set<char>): (r: string)
    ensures |r| <= |s|
    ensures r == [] || r[0] !in cs
    ensures forall i :: 0 <= i < |s| - |r| ==> s[i] in cs
  {
    if s == [] || s[0] !in cs then s else TrimLeft(s[1..], cs)
  }

  /** `rtrim($s, $cs)`: drops the longest suffix made of characters in `cs`. */
  function TrimRight(s: string, cs: set<char>): (r: string)
    ensures |r| <= |s| && r == s[..|r|]
    ensures r == [] || r[|r| - 1] !in cs
    ensures forall i :: |r| <= i < |s| ==> s[i] in cs
  {
    if s == [] || s[|s| - 1] !in cs then s else TrimRight(s[..|s| - 1], cs)
  }

  /** `ltrim` keeps a suffix of its argument. */
  lemma {:induction false} TrimLeftIsSuffix(s: string, cs: set<char>)
    ensures TrimLeft(s, cs) == s[|s| - |TrimLeft(s, cs)|..]
  {
    if s != [] && s[0] in cs {
      TrimLeftIsSuffix(s[1..], cs);
    }
  }

  /** `trim($s, $cs)`: strips characters of `cs` from both ends. */
  function Trim(s: string, cs: set<char>): (r: string)
  {
    TrimRight(TrimLeft(s, cs), cs)
  }

  /** `trim($s)` with PHP's default whitespace list. */
  function TrimSpace(s: string): string
  {
    Trim(s, PHP_WHITESPACE)
  }

  /** Neither end of a trimmed string is in `cs`. */
  lemma TrimEdges(s: string, cs: set<char>)
    ensures Trim(s, cs) == [] || (Trim(s, cs)[0] !in cs && Trim(s, cs)[|Trim(s, cs)| - 1] !in cs)
  {
    var l := TrimLeft(s, cs);
    var r := TrimRight(l, cs);
    if r != [] {
      assert r[0] == l[0];
    }
  }

  /**
   * What `trim` promises: the result is the slice `s[i..j]` of its input,
   * everything cut off is in `cs`, and neither end of the result is in `cs`.
   */
  lemma TrimIsSlice(s: string, cs: set<char>)
    ensures exists i, j :: 0 <= i <= j <= |s| && Trim(s, cs) == s[i..j]
                           && (forall k :: 0 <= k < i ==> s[k] in cs)
                           && (forall k :: j <= k < |s| ==> s[k] in cs)
    ensures Trim(s, cs) == [] || (Trim(s, cs)[0] !in cs && Trim(s, cs)[|Trim(s, cs)| - 1] !in cs)
  {
    var l := TrimLeft(s, cs);
    var r := TrimRight(l, cs);
    var i := |s| - |l|;
    var j := i + |r|;
    assert r == s[i..j] by {
      TrimLeftIsSuffix(s, cs);
      assert l == s[i..];
      assert r == l[..|r|];
    }
    assert forall k :: 0 <= k < i ==> s[k] in cs;
    assert forall k :: j <= k < |s| ==> s[k] in cs by {
      TrimLeftIsSuffix(s, cs);
      forall k | j <= k < |s| ensures s[k] in cs {
        assert s[k] == l[k - i];
      }
    }
    TrimEdges(s, cs);
  }

  /** Trimming twice is trimming once. */
  lemma TrimIdempotent(s: string, cs: set<char>)
    ensures Trim(Trim(s, cs), cs) == Trim(s, cs)
  {
    TrimEdges(s, cs);
    TrimNoEdge(Trim(s, cs), cs);
  }

  /** A string with no character of `cs` at either end is left alone by `trim`. */
  lemma TrimNoEdge(s: string, cs: set<char>)
    requires s == [] || (s[0] !in cs && s[|s| - 1] !in cs)
    ensures Trim(s, cs) == s
  {
  }

  /** `ltrim` of a concatenation: the first part is trimmed, unless it is trimmed away entirely. */
  lemma {:induction false} TrimLeftConcat(a: string, b: string, cs: set<char>)
    ensures TrimLeft(a + b, cs) == if TrimLeft(a, cs) == [] then TrimLeft(b, cs) else TrimLeft(a, cs) + b
  {
    if a == [] {
      assert a + b == b;
    } else if a[0] in cs {
      assert (a + b)[1..] == a[1..] + b;
      TrimLeftConcat(a[1..], b, cs);
    }
  }

  /** `rtrim` of a concatenation: the last part is trimmed, unless it is trimmed away entirely. */
  lemma {:induction false} TrimRightConcat(a: string, b: string, cs: set<char>)
    ensures TrimRight(a + b, cs) == if TrimRight(b, cs) == [] then TrimRight(a, cs) else a + TrimRight(b, cs)
    decreases |b|
  {
    if b == [] {
      assert a + b == a;
    } else if b[|b| - 1] in cs {
      assert (a + b)[..|a + b| - 1] == a + b[..|b| - 1];
      TrimRightConcat(a, b[..|b| - 1], cs);
    }
  }

  /** `implode($sep, $parts)`. */
  function Join(parts: seq<string>, sep: string): string
  {
    if |parts| == 0 then ""
    else if |parts| == 1 then parts[0]
    else parts[0] + sep + Join(parts[1..], sep)
  }

  /** `str_repeat($s, $k)` for a non-negative count. */
  function Repeat(s: string, k: nat): (r: string)
    ensures |r| == k * |s|
  {
    if k == 0 then "" else s + Repeat(s, k - 1)
  }

  /** The number of occurrences of `c` in `s`. */
  function Count(s: string, c: char): nat
  {
    if s == [] then 0 else (if s[0] == c then 1 else 0) + Count(s[1..], c)
  }

  lemma {:induction false} CountAppend(a: string, b: string, c: char)
    ensures Count(a + b, c) == Count(a, c) + Count(b, c)
  {
    if a != [] {
      assert (a + b)[1..] == a[1..] + b;
      CountAppend(a[1..], b, c);
    } else {
      assert a + b == b;
    }
  }

  lemma {:induction false} CountAbsent(s: string, c: char)
    requires c !in s
    ensures Count(s, c) == 0
  {
    if s != [] {
      assert c !in s[1..];
      CountAbsent(s[1..], c);
    }
  }

  lemma {:induction false} CountRepeat(s: string, k: nat, c: char)
    ensures Count(Repeat(s, k), c) == k * Count(s, c)
  {
    if k > 0 {
      CountRepeat(s, k - 1, c);
      CountAppend(s, Repeat(s, k - 1), c);
    }
  }

  /**
   * `str_replace($pat, $rep, $s)`: scans left to right and replaces every
   * non-overlapping occurrence of `pat`.
   */
  function ReplaceAll(s: string, pat: string, rep: string): string
    requires |pat| > 0
    decreases |s|
  {
    if |s| < |pat| then s
    else if s[..|pat|] == pat then rep + ReplaceAll(s[|pat|..], pat, rep)
    else [s[0]] + ReplaceAll(s[1..], pat, rep)
  }

  /** A prefix that does not contain the pattern's first character is copied unchanged. */
  lemma {:induction false} ReplaceAllSkips(x: string, y: string, pat: string, rep: string)
    requires |pat| > 0 && pat[0] !in x
    ensures ReplaceAll(x + y, pat, rep) == x + ReplaceAll(y, pat, rep)
  {
    if x != [] {
      var s := x + y;
      assert s[0] == x[0];
      if |s| >= |pat| {
        assert s[..|pat|][0] != pat[0];
      }
      assert s[1..] == x[1..] + y;
      assert pat[0] !in x[1..];
      ReplaceAllSkips(x[1..], y, pat, rep);
    } else {
      assert x + y == y;
    }
  }

  /** An occurrence of the pattern at the front is replaced. */
  lemma ReplaceAllHead(y: string, pat: string, rep: string)
    requires |pat| > 0
    ensures ReplaceAll(pat + y, pat, rep) == rep + ReplaceAll(y, pat, rep)
  {
    var s := pat + y;
    assert s[..|pat|] == pat;
    assert s[|pat|..] == y;
  }

  /**
   * A template `pre + pat + post` in which only the marked spot can start an
   * occurrence (neither `pre` nor `post` holds the pattern's first character)
   * becomes `pre + rep + post`.
   */
  lemma ReplaceSingle(pre: string, pat: string, post: string, rep: string)
    requires |pat| > 0 && pat[0] !in pre && pat[0] !in post
    ensures ReplaceAll(pre + pat + post, pat, rep) == pre + rep + post
  {
    assert pre + pat + post == pre + (pat + post);
    ReplaceAllSkips(pre, pat + post, pat, rep);
    ReplaceAllHead(post, pat, rep);
    ReplaceAllSkips(post, [], pat, rep);
    assert post + [] == post;
    assert ReplaceAll([], pat, rep) == [];
  }

  /** `implode` adds no character that neither the parts nor the separator contain. */
  lemma {:induction false} JoinAbsent(parts: seq<string>, sep: string, c: char)
    requires c !in sep && forall i :: 0 <= i < |parts| ==> c !in parts[i]
    ensures c !in Join(parts, sep)
  {
    if |parts| >= 2 {
      JoinAbsent(parts[1..], sep, c);
    }
  }
}
