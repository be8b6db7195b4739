/** The JavaScript string operations the core relies on: `trim`, `split` on a
    one-character separator and `replace` of every occurrence of one
    character, plus `join`, which the lemmas use to characterise `split` and
    the rendering. */
module Strings {

  /** The characters `String.prototype.trim` removes: the WhiteSpace and
      LineTerminator code points of ECMAScript (tab, vertical tab, form feed,
      byte-order mark, the space separators of Unicode category Zs, line feed,
      carriage return, line and paragraph separator). */
  const JsWhitespace: set<char> :=
    {'\t', '\n', '\U{000B}', '\U{000C}', '\r', ' ', '\U{00A0}', '\U{1680}',
     '\U{2000}', '\U{2001}', '\U{2002}', '\U{2003}', '\U{2004}', '\U{2005}',
     '\U{2006}', '\U{2007}', '\U{2008}', '\U{2009}', '\U{200A}',
     '\U{2028}', '\U{2029}', '\U{202F}', '\U{205F}', '\U{3000}', '\U{FEFF}'}

  predicate IsWhitespace(c: char) {
    c in JsWhitespace
  }

  /** Every character of `s` is whitespace. */
  predicate IsBlank(s: string) {
    forall i :: 0 <= i < |s| ==> IsWhitespace(s[i])
  }

  /** `s` with its leading whitespace removed: a suffix of `s`, everything
      dropped is whitespace, and what is kept does not start with whitespace. */
  function TrimStart(s: string): (r: string)
    ensures |r| <= |s| && r == s[|s| - |r|..]
    ensures IsBlank(s[..|s| - |r|])
    ensures r != [] ==> !IsWhitespace(r[0])
  {
    if |s| > 0 && IsWhitespace(s[0]) then
      var r := TrimStart(s[1..]);
      assert s[1..][|s| - 1 - |r|..] == s[|s| - |r|..];
      assert forall i :: 1 <= i < |s| - |r| ==> s[i] == s[1..][..|s| - 1 - |r|][i - 1];
      r
    else
      assert s[..0] == [];
      s
  }

  /** `s` with its trailing whitespace removed: a prefix of `s`, everything
      dropped is whitespace, and what is kept does not end with whitespace. */
  function TrimEnd(s: string): (r: string)
    ensures |r| <= |s| && r == s[..|r|]
    ensures IsBlank(s[|r|..])
    ensures r != [] ==> !IsWhitespace(r[|r| - 1])
  {
    if |s| > 0 && IsWhitespace(s[|s| - 1]) then
      var r := TrimEnd(s[..|s| - 1]);
      assert s[..|s| - 1][..|r|] == s[..|r|];
      assert forall i :: |r| <= i < |s| - 1 ==> s[i] == s[..|s| - 1][|r|..][i - |r|];
      r
    else
      assert s[|s|..] == [];
      s
  }

  /** `String.prototype.trim`: a contiguous piece of `s` with only
      whitespace before and after it, neither starting nor ending with
      whitespace. */
  function Trim(s: string): (r: string)
    ensures |r| <= |s|
    ensures r != [] ==> !IsWhitespace(r[0]) && !IsWhitespace(r[|r| - 1])
    ensures IsTrimmedPiece(s, r)
  {
    var t := TrimStart(s);
    var r := TrimEnd(t);
    TrimmedPiece(s, t, r);
    r
  }

  /** `r` is a contiguous piece of `s` with only whitespace before and
      after it. */
  predicate IsTrimmedPiece(s: string, r: string) {
    exists i :: 0 <= i <= |s| - |r| && s[i..i + |r|] == r && IsBlank(s[..i]) && IsBlank(s[i + |r|..])
  }

  /** A prefix `r` of a suffix `t` of `s`, with only whitespace dropped on
      either side, is a contiguous piece of `s` between blank text. */
  lemma TrimmedPiece(s: string, t: string, r: string)
    requires |t| <= |s| && t == s[|s| - |t|..] && IsBlank(s[..|s| - |t|])
    requires |r| <= |t| && r == t[..|r|] && IsBlank(t[|r|..])
    requires t != [] ==> !IsWhitespace(t[0])
    requires r != [] ==> !IsWhitespace(r[|r| - 1])
    ensures r != [] ==> !IsWhitespace(r[0]) && !IsWhitespace(r[|r| - 1])
    ensures IsTrimmedPiece(s, r)
  {
    var k := |s| - |t|;
    assert s[k..k + |r|] == r;
    assert s[k + |r|..] == t[|r|..];
  }

  /** A string trims to the empty string exactly when it is all whitespace. */
  lemma TrimEmptyIffBlank(s: string)
    ensures Trim(s) == [] <==> IsBlank(s)
  {
    var t := TrimStart(s);
    if t == [] {
      assert s[..|s|] == s;
    } else {
      assert !IsWhitespace(t[0]) && t[0] == s[|s| - |t|];
      assert t[|TrimEnd(t)|..] == t || |TrimEnd(t)| > 0;
    }
  }

  /** `s.trim() === ''`: true exactly for an all-whitespace string. */
  function TrimsToEmpty(s: string): (r: bool)
    ensures r <==> IsBlank(s)
  {
    TrimEmptyIffBlank(s);
    Trim(s) == []
  }

  lemma {:induction false} TrimStartPadded(pad: string, t: string)
    requires IsBlank(pad)
    ensures TrimStart(pad + t) == TrimStart(t)
  {
    if pad != [] {
      assert (pad + t)[1..] == pad[1..] + t;
      TrimStartPadded(pad[1..], t);
    } else {
      assert pad + t == t;
    }
  }

  lemma {:induction false} TrimEndPadded(t: string, pad: string)
    requires IsBlank(pad)
    ensures TrimEnd(t + pad) == TrimEnd(t)
  {
    if pad != [] {
      var n := |pad|;
      assert (t + pad)[..|t + pad| - 1] == t + pad[..n - 1];
      assert (t + pad)[|t + pad| - 1] == pad[n - 1];
      TrimEndPadded(t, pad[..n - 1]);
    } else {
      assert t + pad == t;
    }
  }

  /** Blank padding appended to a text stays in place through `TrimStart`:
      the result is `TrimStart(t)` followed by the padding, or both are empty
      when the text and the padding are all whitespace. */
  lemma TrimStartOfBlankSuffix(t: string, pad: string)
    requires IsBlank(pad)
    ensures TrimStart(t + pad) == TrimStart(t) + pad || (TrimStart(t) == [] && TrimStart(t + pad) == [])
    decreases |t|
  {
    if |t| > 0 && IsWhitespace(t[0]) {
      assert (t + pad)[1..] == t[1..] + pad;
      assert TrimStart(t + pad) == TrimStart(t[1..] + pad);
      assert TrimStart(t) == TrimStart(t[1..]);
      TrimStartOfBlankSuffix(t[1..], pad);
    } else if |t| > 0 {
      assert (t + pad)[0] == t[0];
      assert TrimStart(t + pad) == t + pad && TrimStart(t) == t;
    } else {
      assert t + pad == pad;
      TrimStartPadded(pad, []);
      assert pad + [] == pad;
    }
  }

  /** Whitespace around a text does not change what it trims to. */
  lemma TrimIgnoresPadding(before: string, t: string, after: string)
    requires IsBlank(before) && IsBlank(after)
    ensures Trim(before + t + after) == Trim(t)
  {
    var padded := before + t + after;
    assert padded == before + (t + after);
    TrimStartPadded(before, t + after);
    assert TrimStart(padded) == TrimStart(t + after);
    TrimStartOfBlankSuffix(t, after);
    if TrimStart(t + after) == TrimStart(t) + after {
      TrimEndPadded(TrimStart(t), after);
      assert Trim(padded) == TrimEnd(TrimStart(t) + after);
      assert Trim(padded) == TrimEnd(TrimStart(t));
    } else {
      assert TrimStart(t) == [] && TrimStart(padded) == [];
      assert Trim(padded) == TrimEnd([]) && Trim(t) == TrimEnd([]);
    }
  }

  /** Number of occurrences of `c` in `s`. */
  function Count(s: string, c: char): nat {
    if s == [] then 0 else (if s[0] == c then 1 else 0) + Count(s[1..], c)
  }

  /** `s.split(sep)` for a one-character separator: the maximal pieces of `s`
      between occurrences of `sep`, always at least one. */
  function Split(s: string, sep: char): (parts: seq<string>)
    ensures |parts| >= 1
  {
    if s == [] then [[]]
    else if s[0] == sep then [[]] + Split(s[1..], sep)
    else
      var rest := Split(s[1..], sep);
      [[s[0]] + rest[0]] + rest[1..]
  }

  /** `parts.join(sep)`. */
  function Join(parts: seq<string>, sep: string): string {
    if parts == [] then []
    else if |parts| == 1 then parts[0]
    else parts[0] + sep + Join(parts[1..], sep)
  }

  /** `s.replace(/c/g, replacement)` for a replacement without `$` (JavaScript
      expands `$&`, `$$` and the like in a replacement string): every `c`
      replaced by `replacement`, every other character kept in order. */
  function ReplaceAll(s: string, c: char, replacement: string): (r: string)
    ensures |r| == |s| + (|replacement| - 1) * Count(s, c)
    ensures c !in replacement ==> c !in r
    ensures c !in s ==> r == s
  {
    if s == [] then []
    else
      var rest := ReplaceAll(s[1..], c, replacement);
      var n := Count(s[1..], c);
      var d := |replacement| - 1;
      assert |rest| == |s| - 1 + d * n;
      if s[0] == c then
        assert Count(s, c) == n + 1;
        assert d * (n + 1) == d * n + d;
        assert |replacement + rest| == |s| + d * (n + 1);
        replacement + rest
      else
        assert Count(s, c) == n;
        assert s == [s[0]] + s[1..];
        [s[0]] + rest
  }

  /** The pieces of `Split` never contain the separator, and there is one
      more piece than there are separators. */
  lemma {:induction false} SplitPieces(s: string, sep: char)
    ensures |Split(s, sep)| == Count(s, sep) + 1
    ensures forall k :: 0 <= k < |Split(s, sep)| ==> sep !in Split(s, sep)[k]
  {
    if s != [] {
      SplitPieces(s[1..], sep);
    }
  }

  /** Replacing every separator is splitting at the separators and joining
      with the replacement; with `replacement == [sep]` this is `Join(Split(s)) == s`. */
  lemma {:induction false} ReplaceAllIsSplitJoin(s: string, c: char, replacement: string)
    ensures ReplaceAll(s, c, replacement) == Join(Split(s, c), replacement)
  {
    if s == [] {
    } else if s[0] == c {
      ReplaceAllIsSplitJoin(s[1..], c, replacement);
      JoinCons([], Split(s[1..], c), replacement);
    } else {
      ReplaceAllIsSplitJoin(s[1..], c, replacement);
      JoinGlue([s[0]], Split(s[1..], c), replacement);
    }
  }

  lemma JoinCons(x: string, parts: seq<string>, sep: string)
    requires |parts| >= 1
    ensures Join([x] + parts, sep) == x + sep + Join(parts, sep)
  {
    assert ([x] + parts)[1..] == parts;
  }

  lemma JoinGlue(a: string, parts: seq<string>, sep: string)
    requires |parts| >= 1
    ensures Join([a + parts[0]] + parts[1..], sep) == a + Join(parts, sep)
  {
    if |parts| > 1 {
      JoinCons(a + parts[0], parts[1..], sep);
      JoinCons(parts[0], parts[1..], sep);
      assert [parts[0]] + parts[1..] == parts;
    }
  }

  /** Joining with the separator undoes splitting. */
  lemma SplitJoin(s: string, sep: char)
    ensures Join(Split(s, sep), [sep]) == s
  {
    ReplaceAllIsNoopWithSelf(s, sep);
    ReplaceAllIsSplitJoin(s, sep, [sep]);
  }

  lemma {:induction false} ReplaceAllIsNoopWithSelf(s: string, c: char)
    ensures ReplaceAll(s, c, [c]) == s
  {
    if s != [] {
      ReplaceAllIsNoopWithSelf(s[1..], c);
      assert (if s[0] == c then [c] else [s[0]]) == [s[0]];
      assert s == [s[0]] + s[1..];
    }
  }

  /** Splitting undoes joining pieces that do not contain the separator. */
  lemma {:induction false} JoinSplit(parts: seq<string>, sep: char)
    requires |parts| >= 1
    requires forall k :: 0 <= k < |parts| ==> sep !in parts[k]
    ensures Split(Join(parts, [sep]), sep) == parts
  {
    if |parts| == 1 {
      SplitNoSep(parts[0], sep);
    } else {
      JoinSplit(parts[1..], sep);
      assert Join(parts, [sep]) == parts[0] + ([sep] + Join(parts[1..], [sep]));
      var tail := [sep] + Join(parts[1..], [sep]);
      SplitPrefix(parts[0], tail, sep);
      assert tail[0] == sep && tail[1..] == Join(parts[1..], [sep]);
      assert Split(tail, sep) == [[]] + parts[1..];
      assert parts[0] + [] == parts[0];
      assert [parts[0]] + parts[1..] == parts;
    }
  }

  lemma {:induction false} SplitNoSep(a: string, sep: char)
    requires sep !in a
    ensures Split(a, sep) == [a]
  {
    if a != [] {
      SplitNoSep(a[1..], sep);
      assert a == [a[0]] + a[1..];
    }
  }

  /** A separator-free prefix is glued onto the first piece of what follows. */
  lemma {:induction false} SplitPrefix(a: string, t: string, sep: char)
    requires sep !in a
    ensures Split(a + t, sep) == [a + Split(t, sep)[0]] + Split(t, sep)[1..]
  {
    if a == [] {
      assert a + t == t;
      assert a + Split(t, sep)[0] == Split(t, sep)[0];
      assert [Split(t, sep)[0]] + Split(t, sep)[1..] == Split(t, sep);
    } else {
      assert (a + t)[0] == a[0];
      assert (a + t)[1..] == a[1..] + t;
      SplitPrefix(a[1..], t, sep);
      assert [a[0]] + (a[1..] + Split(t, sep)[0]) == a + Split(t, sep)[0];
    }
  }

  /** The first piece of a split is the text up to the first separator, or
      all of it. */
  lemma {:induction false} SplitFirstPiece(t: string, sep: char)
    ensures var p := Split(t, sep)[0];
      |p| <= |t| && t[..|p|] == p && sep !in p && (|p| == |t| || t[|p|] == sep)
  {
    if t != [] && t[0] != sep {
      var rest := Split(t[1..], sep);
      var q := rest[0];
      SplitFirstPiece(t[1..], sep);
      assert Split(t, sep)[0] == [t[0]] + q;
      assert t[..1 + |q|] == [t[0]] + t[1..][..|q|];
      assert 1 + |q| == |t| || t[1 + |q|] == t[1..][|q|];
    } else if t != [] {
      assert Split(t, sep)[0] == [];
    }
  }

  /** Past the first piece and its separator, splitting continues on the
      rest of the text. */
  lemma {:induction false} SplitAfterFirst(s: string, sep: char)
    requires |Split(s, sep)| >= 2
    ensures var k := |Split(s, sep)[0]|;
      k < |s| && s[..k] == Split(s, sep)[0] && s[k] == sep
      && Split(s[k + 1..], sep) == Split(s, sep)[1..]
  {
    if s[0] != sep {
      SplitAfterFirst(s[1..], sep);
      var k := |Split(s[1..], sep)[0]|;
      assert s[1..][k + 1..] == s[k + 2..];
    }
  }

  /** `needle` occurs somewhere in `hay`. */
  predicate Contains(hay: string, needle: string) {
    exists i :: 0 <= i <= |hay| && needle <= hay[i..]
  }

  /** Left-to-right concatenation of a sequence of strings. */
  function Concat(pieces: seq<string>): string {
    if pieces == [] then []
    else Concat(pieces[..|pieces| - 1]) + pieces[|pieces| - 1]
  }
}
