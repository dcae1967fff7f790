/**
 * The URL-key normaliser: turns a product name into a lower-case,
 * dash-separated key such as `cafe-table-deluxe`.
 *
 * The pipeline is lowercase, transliterate to ASCII, replace every
 * character outside `[a-z0-9]` with `-`, collapse runs of `-`, and strip
 * `-` from both ends. Transliteration (iconv's `ASCII//TRANSLIT`) is a call
 * into the C library whose table is locale dependent; it is a parameter
 * here, and the properties that need to know something about it say so.
 */
module UrlKey {
  import opened Strings

  const DASH: set<char> := {'-'}

  predicate IsUpper(c: char)
  {
    'A' <= c <= 'Z'
  }

  /** The characters that survive the replacement step: `[a-z0-9]`. */
  predicate IsKeyChar(c: char)
  {
    ('a' <= c <= 'z') || ('0' <= c <= '9')
  }

  /** ASCII letters and digits, either case. */
  predicate IsAsciiAlnum(c: char)
  {
    IsUpper(c) || IsKeyChar(c)
  }

  predicate IsAscii(s: string)
  {
    forall i :: 0 <= i < |s| ==> s[i] < 128 as char
  }

  /** A string over `[a-z0-9-]`. */
  predicate IsSlugAlphabet(s: string)
  {
    forall i :: 0 <= i < |s| ==> IsKeyChar(s[i]) || s[i] == '-'
  }

  predicate NoDoubleDash(s: string)
  {
    forall i :: 0 <= i < |s| - 1 ==> !(s[i] == '-' && s[i + 1] == '-')
  }

  predicate NoEdgeDash(s: string)
  {
    s == [] || (s[0] != '-' && s[|s| - 1] != '-')
  }

  /** A well-formed URL key: the three properties the pipeline establishes. */
  predicate IsUrlKey(s: string)
  {
    IsSlugAlphabet(s) && NoDoubleDash(s) && NoEdgeDash(s)
  }

  function LowerChar(c: char): char
  {
    if IsUpper(c) then (c as int + 32) as char else c
  }

  /** `strtolower`: ASCII upper-case letters become lower case, everything else is kept. */
  function ToLower(s: string): (r: string)
    ensures |r| == |s| && forall i :: 0 <= i < |s| ==> r[i] == LowerChar(s[i])
  {
    if s == [] then [] else [LowerChar(s[0])] + ToLower(s[1..])
  }

  /** `preg_replace("/[^a-z0-9]/", "-", ...)`. */
  function DashNonKeyChars(s: string): (r: string)
    ensures |r| == |s| && IsSlugAlphabet(r)
    ensures forall i :: 0 <= i < |s| ==> r[i] == if IsKeyChar(s[i]) then s[i] else '-'
  {
    if s == [] then [] else [if IsKeyChar(s[0]) then s[0] else '-'] + DashNonKeyChars(s[1..])
  }

  /**
   * `preg_replace("/-{2,}/", "-", ...)`: every maximal run of dashes becomes
   * a single dash (a run of one is already one).
   */
  function CollapseDashes(s: string): (r: string)
    ensures |r| <= |s|
    ensures s != [] ==> r != [] && r[0] == s[0]
    ensures forall i :: 0 <= i < |r| ==> r[i] in s
    ensures NoDoubleDash(r)
    decreases |s|
  {
    if s == [] then []
    else if s[0] == '-' then
      var rest := TrimLeft(s, DASH);
      var tail := CollapseDashes(rest);
      assert forall i :: 0 <= i < |tail| ==> tail[i] in s by {
        TrimLeftIsSuffix(s, DASH);
        forall i | 0 <= i < |tail| ensures tail[i] in s {
          assert tail[i] in rest;
          var k :| 0 <= k < |rest| && rest[k] == tail[i];
          assert s[|s| - |rest| + k] == tail[i];
        }
      }
      "-" + tail
    else
      var tail := CollapseDashes(s[1..]);
      assert forall i :: 0 <= i < |tail| ==> tail[i] in s by {
        forall i | 0 <= i < |tail| ensures tail[i] in s {
          assert tail[i] in s[1..];
        }
      }
      [s[0]] + tail
  }

  /**
   * `createUrlKeyFromName`, with `transliterate` standing for
   * `iconv('UTF-8', 'ASCII//TRANSLIT', ...)`. Whatever transliteration does,
   * the key holds only `[a-z0-9-]`, has no `--` and does not start or end
   * with `-`.
   */
  function CreateUrlKeyFromName(name: string, transliterate: string -> string): (key: string)
    ensures IsUrlKey(key)
  {
    var lowered := ToLower(name);
    var ascii := transliterate(lowered);
    var dashed := DashNonKeyChars(ascii);
    var collapsed := CollapseDashes(dashed);
    TrimPreservesKeyShape(collapsed);
    Trim(collapsed, DASH)
  }

  /** Stripping dashes keeps the alphabet and the absence of `--`, and leaves no edge dash. */
  lemma TrimPreservesKeyShape(s: string)
    requires IsSlugAlphabet(s) && NoDoubleDash(s)
    ensures IsUrlKey(Trim(s, DASH))
  {
    TrimIsSlice(s, DASH);
  }

  // ---------------------------------------------------------------------
  // Letters and digits are kept, in order
  // ---------------------------------------------------------------------

  /** The `[a-z0-9]` characters of `s`, in order. */
  function KeyChars(s: string): string
  {
    if s == [] then [] else (if IsKeyChar(s[0]) then [s[0]] else []) + KeyChars(s[1..])
  }

  /** The ASCII letters and digits of `s`, in order, in their own case. */
  function AsciiAlnum(s: string): string
  {
    if s == [] then [] else (if IsAsciiAlnum(s[0]) then [s[0]] else []) + AsciiAlnum(s[1..])
  }

  lemma {:induction false} KeyCharsAppend(a: string, b: string)
    ensures KeyChars(a + b) == KeyChars(a) + KeyChars(b)
  {
    if a != [] {
      assert (a + b)[1..] == a[1..] + b;
      KeyCharsAppend(a[1..], b);
    } else {
      assert a + b == b;
    }
  }

  lemma {:induction false} KeyCharsOfDashes(s: string)
    requires forall i :: 0 <= i < |s| ==> s[i] == '-'
    ensures KeyChars(s) == []
  {
    if s != [] {
      KeyCharsOfDashes(s[1..]);
    }
  }

  lemma {:induction false} KeyCharsDashNonKey(s: string)
    ensures KeyChars(DashNonKeyChars(s)) == KeyChars(s)
  {
    if s != [] {
      assert DashNonKeyChars(s)[1..] == DashNonKeyChars(s[1..]);
      KeyCharsDashNonKey(s[1..]);
    }
  }

  lemma {:induction false} KeyCharsCollapse(s: string)
    ensures KeyChars(CollapseDashes(s)) == KeyChars(s)
    decreases |s|
  {
    if s != [] {
      if s[0] == '-' {
        var rest := TrimLeft(s, DASH);
        KeyCharsCollapse(rest);
        TrimLeftIsSuffix(s, DASH);
        assert s == s[..|s| - |rest|] + rest;
        KeyCharsAppend(s[..|s| - |rest|], rest);
        KeyCharsOfDashes(s[..|s| - |rest|]);
        KeyCharsAppend("-", CollapseDashes(rest));
      } else {
        KeyCharsCollapse(s[1..]);
        KeyCharsAppend([s[0]], CollapseDashes(s[1..]));
      }
    }
  }

  lemma {:induction false} KeyCharsTrimLeft(s: string)
    ensures KeyChars(TrimLeft(s, DASH)) == KeyChars(s)
  {
    if s != [] && s[0] == '-' {
      KeyCharsTrimLeft(s[1..]);
    }
  }

  lemma {:induction false} KeyCharsTrimRight(s: string)
    ensures KeyChars(TrimRight(s, DASH)) == KeyChars(s)
  {
    if s != [] && s[|s| - 1] == '-' {
      var init := s[..|s| - 1];
      KeyCharsTrimRight(init);
      assert s == init + [s[|s| - 1]];
      KeyCharsAppend(init, [s[|s| - 1]]);
    }
  }

  lemma KeyCharsTrim(s: string)
    ensures KeyChars(Trim(s, DASH)) == KeyChars(s)
  {
    KeyCharsTrimLeft(s);
    KeyCharsTrimRight(TrimLeft(s, DASH));
  }

  lemma {:induction false} KeyCharsToLower(s: string)
    ensures KeyChars(ToLower(s)) == ToLower(AsciiAlnum(s))
  {
    if s != [] {
      assert ToLower(s)[1..] == ToLower(s[1..]);
      KeyCharsToLower(s[1..]);
      var head := if IsAsciiAlnum(s[0]) then [s[0]] else [];
      assert ToLower(head + AsciiAlnum(s[1..])) == ToLower(head) + ToLower(AsciiAlnum(s[1..]));
    }
  }

  /**
   * The letters and digits of the key are those of the transliterated,
   * lower-cased name, in the same order; nothing else of the name survives
   * but dashes.
   */
  lemma KeyKeepsLettersAndDigits(name: string, transliterate: string -> string)
    ensures KeyChars(CreateUrlKeyFromName(name, transliterate)) == KeyChars(transliterate(ToLower(name)))
  {
    var ascii := transliterate(ToLower(name));
    KeyCharsDashNonKey(ascii);
    KeyCharsCollapse(DashNonKeyChars(ascii));
    KeyCharsTrim(CollapseDashes(DashNonKeyChars(ascii)));
  }

  /** Transliteration leaves ASCII text alone (true of iconv's `ASCII//TRANSLIT`). */
  ghost predicate KeepsAscii(transliterate: string -> string)
  {
    forall s :: IsAscii(s) ==> transliterate(s) == s
  }

  lemma AsciiToLower(s: string)
    requires IsAscii(s)
    ensures IsAscii(ToLower(s))
  {
  }

  /**
   * For an ASCII name, the letters and digits of the key are the name's
   * letters and digits, lower-cased, in order.
   */
  lemma AsciiNameKeepsLettersAndDigits(name: string, transliterate: string -> string)
    requires IsAscii(name) && KeepsAscii(transliterate)
    ensures KeyChars(CreateUrlKeyFromName(name, transliterate)) == ToLower(AsciiAlnum(name))
  {
    AsciiToLower(name);
    KeyKeepsLettersAndDigits(name, transliterate);
    KeyCharsToLower(name);
  }

  /** A name with no letter or digit after transliteration gives the empty key. */
  lemma NoLettersNoKey(name: string, transliterate: string -> string)
    requires KeyChars(transliterate(ToLower(name))) == []
    ensures CreateUrlKeyFromName(name, transliterate) == []
  {
    var key := CreateUrlKeyFromName(name, transliterate);
    KeyKeepsLettersAndDigits(name, transliterate);
    OnlyDashesWithoutKeyChars(key);
  }

  lemma {:induction false} OnlyDashesWithoutKeyChars(s: string)
    requires IsSlugAlphabet(s) && KeyChars(s) == []
    ensures forall i :: 0 <= i < |s| ==> s[i] == '-'
  {
    if s != [] {
      assert !IsKeyChar(s[0]);
      OnlyDashesWithoutKeyChars(s[1..]);
      forall i | 1 <= i < |s| ensures s[i] == '-' {
        assert s[i] == s[1..][i - 1];
      }
    }
  }

  // ---------------------------------------------------------------------
  // Idempotence
  // ---------------------------------------------------------------------

  /** Transliteration leaves strings over `[a-z0-9-]` alone (implied by `KeepsAscii`). */
  ghost predicate KeepsSlugs(transliterate: string -> string)
  {
    forall s :: IsSlugAlphabet(s) ==> transliterate(s) == s
  }

  /** After one leading dash that is not followed by another, `ltrim` stops at the next character. */
  lemma TrimLeftSingleDash(s: string)
    requires |s| >= 1 && s[0] == '-' && (|s| == 1 || s[1] != '-')
    ensures TrimLeft(s, DASH) == s[1..]
  {
    var t := s[1..];
    assert t == [] || t[0] != '-';
    assert TrimLeft(t, DASH) == t;
  }

  lemma NoDoubleDashTail(s: string)
    requires |s| >= 1 && NoDoubleDash(s)
    ensures NoDoubleDash(s[1..])
  {
    var t := s[1..];
    forall i | 0 <= i < |t| - 1 ensures !(t[i] == '-' && t[i + 1] == '-') {
      assert t[i] == s[i + 1] && t[i + 1] == s[i + 2];
    }
  }

  lemma {:induction false} CollapseKeepsSingleDashes(s: string)
    requires NoDoubleDash(s)
    ensures CollapseDashes(s) == s
    decreases |s|
  {
    if s != [] {
      NoDoubleDashTail(s);
      CollapseKeepsSingleDashes(s[1..]);
      if s[0] == '-' {
        assert |s| == 1 || s[1] != '-' by {
          if |s| > 1 { assert !(s[0] == '-' && s[1] == '-'); }
        }
        TrimLeftSingleDash(s);
      }
      assert s == [s[0]] + s[1..];
    }
  }

  lemma SlugUnchangedByLowerAndDash(s: string)
    requires IsSlugAlphabet(s)
    ensures ToLower(s) == s && DashNonKeyChars(s) == s
  {
  }

  /** Normalising a key again returns it unchanged. */
  lemma CreateUrlKeyIdempotent(name: string, transliterate: string -> string)
    requires KeepsSlugs(transliterate)
    ensures var key := CreateUrlKeyFromName(name, transliterate);
            CreateUrlKeyFromName(key, transliterate) == key
  {
    var key := CreateUrlKeyFromName(name, transliterate);
    SlugUnchangedByLowerAndDash(key);
    assert transliterate(ToLower(key)) == key;
    CollapseKeepsSingleDashes(key);
    TrimNoEdge(key, DASH);
  }

  lemma KeepsAsciiKeepsSlugs(transliterate: string -> string)
    requires KeepsAscii(transliterate)
    ensures KeepsSlugs(transliterate)
  {
    forall s | IsSlugAlphabet(s) ensures transliterate(s) == s {
      assert IsAscii(s);
    }
  }

  // ---------------------------------------------------------------------
  // Runs of dashes
  // ---------------------------------------------------------------------

  lemma {:induction false} TrimLeftDashes(k: nat, y: string)
    ensures TrimLeft(Repeat("-", k) + y, DASH) == TrimLeft(y, DASH)
  {
    if k > 0 {
      assert Repeat("-", k) + y == "-" + (Repeat("-", k - 1) + y);
      assert ("-" + (Repeat("-", k - 1) + y))[1..] == Repeat("-", k - 1) + y;
      TrimLeftDashes(k - 1, y);
    } else {
      assert Repeat("-", k) + y == y;
    }
  }

  lemma CollapseRunFront(k: nat, y: string)
    requires k >= 1 && (y == [] || y[0] != '-')
    ensures CollapseDashes(Repeat("-", k) + y) == "-" + CollapseDashes(y)
  {
    var s := Repeat("-", k) + y;
    assert s[0] == '-' by {
      assert Repeat("-", k) == "-" + Repeat("-", k - 1);
    }
    assert TrimLeft(s, DASH) == y by {
      TrimLeftDashes(k, y);
      assert TrimLeft(y, DASH) == y;
    }
  }

  /** Collapsing past a character that is not a dash keeps it and goes on with the rest. */
  lemma CollapseKeyHead(s: string)
    requires s != [] && s[0] != '-'
    ensures CollapseDashes(s) == [s[0]] + CollapseDashes(s[1..])
  {
  }

  /** Collapsing from a dash keeps one dash and goes on after the whole run. */
  lemma CollapseDashHeadRun(s: string)
    requires s != [] && s[0] == '-'
    ensures CollapseDashes(s) == "-" + CollapseDashes(TrimLeft(s, DASH))
  {
  }

  /** Concatenation regrouped, stated once so that the steps below stay small. */
  lemma Regroup(a: string, b: string, c: string, d: string)
    ensures a + (b + c + d) == (a + b) + c + d
  {
  }

  /** Collapsing `x + run + y` from a non-dash first character of `x`. */
  lemma CollapseRunKeyHead(x: string, run: string, y: string)
    requires x != [] && x[0] != '-'
    ensures CollapseDashes(x + run + y) == [x[0]] + CollapseDashes(x[1..] + run + y)
  {
    assert (x + run + y)[1..] == x[1..] + run + y;
    CollapseKeyHead(x + run + y);
  }

  /** Stripping leading dashes stops inside `x` when `x` has a character that is not a dash. */
  lemma TrimLeftInFirst(x: string, run: string, y: string)
    requires TrimLeft(x, DASH) != []
    ensures TrimLeft(x + run + y, DASH) == TrimLeft(x, DASH) + run + y
  {
    TrimLeftConcat(x, run + y, DASH);
    assert x + run + y == x + (run + y);
    assert TrimLeft(x, DASH) + (run + y) == TrimLeft(x, DASH) + run + y;
  }

  /** Collapsing `x + run + y` from a leading dash of `x`, where `x` does not end in a dash. */
  lemma CollapseRunDashHead(x: string, run: string, y: string)
    requires x != [] && x[0] == '-' && x[|x| - 1] != '-'
    ensures CollapseDashes(x + run + y) == "-" + CollapseDashes(TrimLeft(x, DASH) + run + y)
  {
    TrimLeftKeepsLast(x);
    TrimLeftInFirst(x, run, y);
    assert (x + run + y)[0] == '-';
    CollapseDashHeadRun(x + run + y);
  }

  lemma CollapseRunKeyStep(x: string, run: string, y: string)
    requires x != [] && x[0] != '-'
    requires CollapseDashes(x[1..] + run + y) == CollapseDashes(x[1..]) + "-" + CollapseDashes(y)
    ensures CollapseDashes(x + run + y) == CollapseDashes(x) + "-" + CollapseDashes(y)
  {
    CollapseRunKeyHead(x, run, y);
    CollapseKeyHead(x);
    Regroup([x[0]], CollapseDashes(x[1..]), "-", CollapseDashes(y));
  }

  lemma CollapseRunDashStep(x: string, run: string, y: string)
    requires x != [] && x[0] == '-' && x[|x| - 1] != '-'
    requires var xl := TrimLeft(x, DASH);
             CollapseDashes(xl + run + y) == CollapseDashes(xl) + "-" + CollapseDashes(y)
    ensures CollapseDashes(x + run + y) == CollapseDashes(x) + "-" + CollapseDashes(y)
  {
    CollapseRunDashHead(x, run, y);
    CollapseDashHeadRun(x);
    Regroup("-", CollapseDashes(TrimLeft(x, DASH)), "-", CollapseDashes(y));
  }

  /** Stripping the leading dashes of a part that does not end in one keeps its last character. */
  lemma TrimLeftKeepsLast(x: string)
    requires x != [] && x[0] == '-' && x[|x| - 1] != '-'
    ensures var xl := TrimLeft(x, DASH);
            xl != [] && |xl| < |x| && xl[|xl| - 1] == x[|x| - 1]
  {
    var xl := TrimLeft(x, DASH);
    assert xl == TrimLeft(x[1..], DASH);
  }

  /**
   * A run of `k >= 1` dashes between two parts that do not border it with
   * another dash becomes exactly one dash; the parts are collapsed on their own.
   */
  lemma {:induction false} CollapseRun(x: string, k: nat, y: string)
    requires k >= 1
    requires x == [] || x[|x| - 1] != '-'
    requires y == [] || y[0] != '-'
    ensures CollapseDashes(x + Repeat("-", k) + y) == CollapseDashes(x) + "-" + CollapseDashes(y)
    decreases |x|
  {
    var run := Repeat("-", k);
    if x == [] {
      assert x + run + y == run + y;
      CollapseRunFront(k, y);
    } else if x[0] != '-' {
      CollapseRun(x[1..], k, y);
      CollapseRunKeyStep(x, run, y);
    } else {
      TrimLeftKeepsLast(x);
      CollapseRun(TrimLeft(x, DASH), k, y);
      CollapseRunDashStep(x, run, y);
    }
  }

  // ---------------------------------------------------------------------
  // The key is the words of the name, joined by single dashes
  // ---------------------------------------------------------------------

  /** A non-empty run of `[a-z0-9]`. */
  predicate IsWord(w: string)
  {
    |w| >= 1 && forall j :: 0 <= j < |w| ==> IsKeyChar(w[j])
  }

  /** The length of the longest prefix of `s` over `[a-z0-9]`. */
  function WordLength(s: string): (n: nat)
    ensures n <= |s|
    ensures forall i :: 0 <= i < n ==> IsKeyChar(s[i])
    ensures n < |s| ==> !IsKeyChar(s[n])
  {
    if s == [] || !IsKeyChar(s[0]) then 0
    else
      var m := WordLength(s[1..]);
      assert forall i :: 1 <= i < 1 + m ==> s[i] == s[1..][i - 1];
      1 + m
  }

  /**
   * The words of `s`: its maximal runs of `[a-z0-9]`, in order. Every other
   * character only separates words.
   */
  function Words(s: string): (ws: seq<string>)
    ensures forall i :: 0 <= i < |ws| ==> IsWord(ws[i])
    decreases |s|
  {
    if s == [] then []
    else if !IsKeyChar(s[0]) then Words(s[1..])
    else
      var n := WordLength(s);
      [s[..n]] + Words(s[n..])
  }

  lemma {:induction false} WordLengthIs(s: string, n: nat)
    requires n <= |s| && (forall i :: 0 <= i < n ==> IsKeyChar(s[i])) && (n < |s| ==> !IsKeyChar(s[n]))
    ensures WordLength(s) == n
  {
    if n > 0 {
      assert forall i :: 0 <= i < n - 1 ==> s[1..][i] == s[i + 1];
      WordLengthIs(s[1..], n - 1);
    }
  }

  /** Replacing separators with dashes does not change the words. */
  lemma {:induction false} WordsDashNonKey(s: string)
    ensures Words(DashNonKeyChars(s)) == Words(s)
    decreases |s|
  {
    var d := DashNonKeyChars(s);
    if s != [] {
      if !IsKeyChar(s[0]) {
        assert d[1..] == DashNonKeyChars(s[1..]);
        WordsDashNonKey(s[1..]);
      } else {
        var n := WordLength(s);
        WordLengthIs(d, n);
        assert d[..n] == s[..n];
        assert d[n..] == DashNonKeyChars(s[n..]);
        WordsDashNonKey(s[n..]);
      }
    }
  }

  /** A prefix over `[a-z0-9]` passes through collapsing unchanged. */
  lemma {:induction false} CollapseWordPrefix(w: string, r: string)
    requires forall j :: 0 <= j < |w| ==> IsKeyChar(w[j])
    ensures CollapseDashes(w + r) == w + CollapseDashes(r)
  {
    if w != [] {
      assert IsKeyChar(w[0]);
      assert (w + r)[1..] == w[1..] + r;
      assert forall j :: 0 <= j < |w| - 1 ==> w[1..][j] == w[j + 1];
      CollapseWordPrefix(w[1..], r);
      assert [w[0]] + (w[1..] + CollapseDashes(r)) == w + CollapseDashes(r);
    } else {
      assert w + r == r;
    }
  }

  lemma TrimDashHead(y: string)
    ensures Trim("-" + y, DASH) == Trim(y, DASH)
  {
    assert ("-" + y)[1..] == y;
  }

  /** A leading dash makes no difference once the dashes at the edges are trimmed. */
  lemma CollapseDashHead(d: string)
    requires |d| >= 1 && d[0] == '-'
    ensures Trim(CollapseDashes(d), DASH) == Trim(CollapseDashes(d[1..]), DASH)
  {
    var t := d[1..];
    if t != [] && t[0] == '-' {
      assert TrimLeft(d, DASH) == TrimLeft(t, DASH);
    } else {
      assert TrimLeft(d, DASH) == t by {
        assert TrimLeft(t, DASH) == t;
      }
      TrimDashHead(CollapseDashes(t));
    }
  }

  /** A word followed by a dash loses only that dash to `rtrim`. */
  lemma TrimRightWordDash(w: string)
    requires IsWord(w)
    ensures TrimRight(w + "-", DASH) == w
  {
    assert (w + "-")[..|w|] == w;
    assert w[|w| - 1] != '-';
  }

  /** A word, a dash, then text that does not start with a dash: trimming only reaches into the text. */
  lemma WordThenDash(w: string, x: string)
    requires IsWord(w) && (x == [] || x[0] != '-')
    ensures Trim(w + "-" + x, DASH) == if Trim(x, DASH) == [] then w else w + "-" + Trim(x, DASH)
  {
    assert TrimLeft(x, DASH) == x;
    assert w[0] != '-';
    assert TrimLeft(w + "-" + x, DASH) == w + "-" + x;
    TrimRightConcat(w + "-", x, DASH);
    TrimRightWordDash(w);
  }

  lemma JoinCons(w: string, ws: seq<string>, sep: string)
    ensures Join([w] + ws, sep) == if ws == [] then w else w + sep + Join(ws, sep)
  {
    assert ([w] + ws)[1..] == ws;
  }

  lemma JoinWordsEmpty(ws: seq<string>, sep: string)
    requires forall i :: 0 <= i < |ws| ==> IsWord(ws[i])
    ensures Join(ws, sep) == [] <==> ws == []
  {
    if |ws| >= 2 {
      assert IsWord(ws[0]);
    } else if |ws| == 1 {
      assert IsWord(ws[0]);
    }
  }

  /** A slug that starts with a word splits into that word and a rest that is empty or starts with a dash. */
  lemma SlugSplit(d: string)
    requires IsSlugAlphabet(d) && d != [] && d[0] != '-'
    ensures var n := WordLength(d);
            d == d[..n] + d[n..] && IsWord(d[..n]) && IsSlugAlphabet(d[n..]) &&
            (d[n..] == [] || d[n..][0] == '-') && Words(d) == [d[..n]] + Words(d[n..])
  {
    var n := WordLength(d);
    assert forall i :: 0 <= i < |d| - n ==> d[n..][i] == d[n + i];
  }

  lemma SlugTail(d: string)
    requires IsSlugAlphabet(d) && d != []
    ensures IsSlugAlphabet(d[1..])
  {
    assert forall i :: 0 <= i < |d| - 1 ==> d[1..][i] == d[i + 1];
  }

  /** After a word, the dash run that follows collapses to one dash. */
  lemma CollapseWordThenRun(w: string, r: string)
    requires IsWord(w) && r != [] && r[0] == '-'
    ensures CollapseDashes(w + r) == w + "-" + CollapseDashes(TrimLeft(r, DASH))
  {
    CollapseWordPrefix(w, r);
    assert w + ("-" + CollapseDashes(TrimLeft(r, DASH))) == w + "-" + CollapseDashes(TrimLeft(r, DASH));
  }

  /** The one dash a leading run collapses to goes once the edges are trimmed. */
  lemma TrimCollapseDashRun(r: string)
    requires r != [] && r[0] == '-'
    ensures var x := CollapseDashes(TrimLeft(r, DASH));
            (x == [] || x[0] != '-') && Trim(CollapseDashes(r), DASH) == Trim(x, DASH)
  {
    TrimDashHead(CollapseDashes(TrimLeft(r, DASH)));
  }

  /** A word alone is its own key. */
  lemma WordAlone(w: string)
    requires IsWord(w)
    ensures Trim(CollapseDashes(w), DASH) == w
  {
    assert w + [] == w;
    CollapseWordPrefix(w, []);
    TrimNoEdge(w, DASH);
  }

  /** The inductive step of `SlugKeyIsJoinedWords` for a slug that is one word. */
  lemma WordStepLast(w: string)
    requires IsWord(w)
    ensures Trim(CollapseDashes(w + []), DASH) == Join([w] + Words([]), "-")
  {
    assert w + [] == w;
    WordAlone(w);
    JoinCons(w, [], "-");
  }

  /** The inductive step of `SlugKeyIsJoinedWords` for a slug that is a word and a dash run. */
  lemma WordStepRun(w: string, r: string)
    requires IsWord(w) && r != [] && r[0] == '-'
    requires Trim(CollapseDashes(r), DASH) == Join(Words(r), "-")
    ensures Trim(CollapseDashes(w + r), DASH) == Join([w] + Words(r), "-")
  {
    var x := CollapseDashes(TrimLeft(r, DASH));
    CollapseWordThenRun(w, r);
    TrimCollapseDashRun(r);
    WordThenDash(w, x);
    JoinWordsEmpty(Words(r), "-");
    JoinCons(w, Words(r), "-");
  }

  /** A leading dash separates no word. */
  lemma JoinWordsSkipDash(d: string)
    requires d != [] && d[0] == '-'
    ensures Join(Words(d), "-") == Join(Words(d[1..]), "-")
  {
    assert Words(d) == Words(d[1..]);
  }

  /** The inductive step of `SlugKeyIsJoinedWords` for a slug that starts with a dash. */
  lemma DashStep(d: string)
    requires d != [] && d[0] == '-'
    requires Trim(CollapseDashes(d[1..]), DASH) == Join(Words(d[1..]), "-")
    ensures Trim(CollapseDashes(d), DASH) == Join(Words(d), "-")
  {
    JoinWordsSkipDash(d);
    CollapseDashHead(d);
  }

  /** The inductive step of `SlugKeyIsJoinedWords` for a slug that starts with a word. */
  lemma WordStep(d: string)
    requires IsSlugAlphabet(d) && d != [] && d[0] != '-'
    requires var n := WordLength(d);
             Trim(CollapseDashes(d[n..]), DASH) == Join(Words(d[n..]), "-")
    ensures Trim(CollapseDashes(d), DASH) == Join(Words(d), "-")
  {
    var n := WordLength(d);
    SlugSplit(d);
    if d[n..] == [] {
      WordStepLast(d[..n]);
    } else {
      WordStepRun(d[..n], d[n..]);
    }
  }

  /** On a string over `[a-z0-9-]`, collapsing and trimming dashes joins its words with single dashes. */
  lemma {:induction false} SlugKeyIsJoinedWords(d: string)
    requires IsSlugAlphabet(d)
    ensures Trim(CollapseDashes(d), DASH) == Join(Words(d), "-")
    decreases |d|
  {
    if d != [] {
      if d[0] == '-' {
        SlugTail(d);
        SlugKeyIsJoinedWords(d[1..]);
        DashStep(d);
      } else {
        SlugSplit(d);
        SlugKeyIsJoinedWords(d[WordLength(d)..]);
        WordStep(d);
      }
    }
  }

  /**
   * The key is the words of the transliterated, lower-cased name (its
   * maximal runs of `[a-z0-9]`) joined by single dashes: every run of other
   * characters between two words becomes one dash, and runs at either end
   * disappear.
   */
  lemma CreateUrlKeyIsJoinedWords(name: string, transliterate: string -> string)
    ensures CreateUrlKeyFromName(name, transliterate) == Join(Words(transliterate(ToLower(name))), "-")
  {
    var ascii := transliterate(ToLower(name));
    WordsDashNonKey(ascii);
    SlugKeyIsJoinedWords(DashNonKeyChars(ascii));
  }

  lemma AmpersandLowered()
    ensures ToLower(" A&B ") == " a&b "
  {
    var lowered := ToLower(" A&B ");
    assert lowered[0] == ' ' && lowered[1] == 'a' && lowered[2] == '&' && lowered[3] == 'b' && lowered[4] == ' ';
  }

  lemma AmpersandDashed()
    ensures DashNonKeyChars(" a&b ") == "-a-b-"
  {
    var dashed := DashNonKeyChars(" a&b ");
    assert dashed[0] == '-' && dashed[1] == 'a' && dashed[2] == '-' && dashed[3] == 'b' && dashed[4] == '-';
  }

  lemma AmpersandCollapsed()
    ensures CollapseDashes("-a-b-") == "-a-b-"
  {
    var s := "-a-b-";
    assert NoDoubleDash(s) by {
      forall i | 0 <= i < |s| - 1 ensures !(s[i] == '-' && s[i + 1] == '-') {
        assert i % 2 == 0 ==> s[i + 1] != '-';
        assert i % 2 == 1 ==> s[i] != '-';
      }
    }
    CollapseKeepsSingleDashes(s);
  }

  lemma AmpersandTrimmed()
    ensures Trim("-a-b-", DASH) == "a-b"
  {
    TrimLeftSingleDash("-a-b-");
    assert "-a-b-"[1..] == "a-b-";
    assert "a-b-"[..3] == "a-b";
    assert TrimRight("a-b", DASH) == "a-b";
  }

  /** A worked case: spaces and punctuation become dashes, capitals lower case, edge dashes go. */
  lemma AmpersandKey(transliterate: string -> string)
    requires KeepsAscii(transliterate)
    ensures CreateUrlKeyFromName(" A&B ", transliterate) == "a-b"
  {
    AmpersandLowered();
    assert IsAscii(" a&b ");
    assert transliterate(" a&b ") == " a&b ";
    AmpersandDashed();
    AmpersandCollapsed();
    AmpersandTrimmed();
  }

  /** Separators in front of a text add no word. */
  lemma {:induction false} WordsAfterSeparators(p: string, t: string)
    requires forall i :: 0 <= i < |p| ==> !IsKeyChar(p[i])
    ensures Words(p + t) == Words(t)
    decreases |p|
  {
    if p == [] {
      assert p + t == t;
    } else {
      assert (p + t)[1..] == p[1..] + t;
      WordsAfterSeparators(p[1..], t);
    }
  }

  /** A word followed by a separator, or by nothing, is the first word. */
  lemma WordThenSeparator(w: string, t: string)
    requires IsWord(w) && (t == [] || !IsKeyChar(t[0]))
    ensures Words(w + t) == [w] + Words(t)
  {
    WordLengthIs(w + t, |w|);
    assert (w + t)[..|w|] == w;
    assert (w + t)[|w|..] == t;
  }

  lemma RunLowered()
    ensures ToLower("A--B") == "a--b"
  {
    var lowered := ToLower("A--B");
    assert lowered[0] == 'a' && lowered[1] == '-' && lowered[2] == '-' && lowered[3] == 'b';
  }

  lemma RunWords()
    ensures Words("a--b") == ["a", "b"]
  {
    assert "a--b" == "a" + ("--" + ("b" + []));
    WordThenSeparator("b", []);
    WordsAfterSeparators("--", "b" + []);
    WordThenSeparator("a", "--" + ("b" + []));
  }

  /** Collapsing alone already turns the run of two dashes into one. */
  lemma RunCollapsed()
    ensures CollapseDashes("a--b") == "a-b"
  {
    assert Repeat("-", 2) == "--";
    assert "a" + Repeat("-", 2) + "b" == "a--b";
    CollapseRun("a", 2, "b");
  }

  lemma RunTransliterated(transliterate: string -> string)
    requires KeepsAscii(transliterate)
    ensures transliterate(ToLower("A--B")) == "a--b"
  {
    RunLowered();
    assert IsAscii("a--b");
  }

  lemma RunJoined()
    ensures Join(["a", "b"], "-") == "a-b"
  {
    JoinCons("a", ["b"], "-");
    assert ["a", "b"] == ["a"] + ["b"];
  }

  /** A worked case with a run: the two dashes between the words become one, so the key is not `ab`. */
  lemma RunKey(transliterate: string -> string)
    requires KeepsAscii(transliterate)
    ensures CreateUrlKeyFromName("A--B", transliterate) == "a-b"
  {
    CreateUrlKeyIsJoinedWords("A--B", transliterate);
    RunTransliterated(transliterate);
    RunWords();
    RunJoined();
  }
}
