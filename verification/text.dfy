/** The Python `str` operations the parser and the resolver rely on, over
    `string` (a sequence of Unicode scalar values). */
module Text {
  import opened Wrappers

  /** Python's `str.isspace` on one character: the set that `strip()` and
      `split()` without arguments treat as whitespace. */
  predicate IsSpace(c: char) {
    c == ' ' || ('\t' <= c <= '\r') || ('\U{1C}' <= c <= '\U{1F}')
    || c == '\U{85}' || c == '\U{A0}' || c == '\U{1680}'
    || ('\U{2000}' <= c <= '\U{200A}') || c == '\U{2028}' || c == '\U{2029}'
    || c == '\U{202F}' || c == '\U{205F}' || c == '\U{3000}'
  }

  /** `str.lower()` restricted to ASCII capitals. */
  function LowerChar(c: char): (d: char)
    ensures IsSpace(d) <==> IsSpace(c)
    ensures 'A' <= c <= 'Z' ==> 'a' <= d <= 'z' && d as int == c as int + 32
    ensures !('A' <= c <= 'Z') ==> d == c
  {
    if 'A' <= c <= 'Z' then (c as int + 32) as char else c
  }

  function Lower(s: string): (r: string)
    ensures |r| == |s|
    ensures forall i :: 0 <= i < |s| ==> r[i] == LowerChar(s[i])
  {
    seq(|s|, i requires 0 <= i < |s| => LowerChar(s[i]))
  }

  /** `s.startswith(p)`. */
  predicate StartsWith(s: string, p: string) {
    |p| <= |s| && s[..|p|] == p
  }

  /** `t` occurs in `s` at position `j`. */
  predicate OccursAt(s: string, t: string, j: int) {
    0 <= j && j + |t| <= |s| && s[j..j + |t|] == t
  }

  lemma OccursAtTail(s: string, t: string, j: int)
    requires |s| > 0 && 0 <= j
    ensures OccursAt(s[1..], t, j) <==> OccursAt(s, t, j + 1)
  {
    if j + 1 + |t| <= |s| {
      assert s[1..][j..j + |t|] == s[j + 1..j + 1 + |t|];
    }
  }

  /** `s.find(t)`, with `None` for -1: the leftmost occurrence. */
  function IndexOf(s: string, t: string): (r: Option<nat>)
    ensures r.Some? ==> OccursAt(s, t, r.value)
    ensures r.Some? ==> forall j :: 0 <= j < r.value ==> !OccursAt(s, t, j)
    ensures r.None? <==> forall j :: !OccursAt(s, t, j)
  {
    IndexFrom(s, t, 0)
  }

  /** The leftmost occurrence of `t` in `s` at or after position `k`. */
  function IndexFrom(s: string, t: string, k: nat): (r: Option<nat>)
    ensures r.Some? ==> k <= r.value && OccursAt(s, t, r.value)
    ensures r.Some? ==> forall j :: k <= j < r.value ==> !OccursAt(s, t, j)
    ensures r.None? <==> forall j :: k <= j ==> !OccursAt(s, t, j)
    decreases |s| - k
  {
    if k + |t| > |s| then None
    else if OccursAt(s, t, k) then Some(k)
    else IndexFrom(s, t, k + 1)
  }

  /** `t in s`. */
  predicate Contains(s: string, t: string)
    decreases |s|
  {
    StartsWith(s, t) || (|s| > 0 && Contains(s[1..], t))
  }

  /** `t in s` exactly when `s.find(t)` finds it. */
  lemma {:induction false} ContainsIndexOf(s: string, t: string)
    ensures Contains(s, t) <==> IndexOf(s, t).Some?
    decreases |s|
  {
    assert StartsWith(s, t) <==> OccursAt(s, t, 0);
    if |s| > 0 {
      ContainsIndexOf(s[1..], t);
      if IndexOf(s[1..], t).Some? {
        OccursAtTail(s, t, IndexOf(s[1..], t).value);
      }
      if IndexOf(s, t).Some? && IndexOf(s, t).value > 0 {
        OccursAtTail(s, t, IndexOf(s, t).value - 1);
      }
    }
  }

  /** An occurrence of `t` inside a prefix of `s` is an occurrence in `s`. */
  lemma OccursInPrefix(s: string, t: string, i: nat, j: int)
    requires i <= |s|
    ensures OccursAt(s[..i], t, j) ==> OccursAt(s, t, j) && j + |t| <= i
  {
    if OccursAt(s[..i], t, j) {
      assert s[..i][j..j + |t|] == s[j..j + |t|];
    }
  }

  lemma OccursInSlice(s: string, t: string, a: nat, b: nat, j: int)
    requires a <= b <= |s|
    ensures OccursAt(s[a..b], t, j) ==> OccursAt(s, t, a + j)
  {
    if OccursAt(s[a..b], t, j) {
      var u := s[a..b][j..j + |t|];
      assert forall i :: 0 <= i < |t| ==> u[i] == s[a + j + i];
      assert s[a + j..a + j + |t|] == u;
    }
  }

  /** A slice of a string that does not contain `t` does not contain `t`. */
  lemma SliceFree(s: string, t: string, a: nat, b: nat)
    requires a <= b <= |s| && !Contains(s, t)
    ensures !Contains(s[a..b], t)
  {
    ContainsIndexOf(s, t);
    ContainsIndexOf(s[a..b], t);
    forall j ensures !OccursAt(s[a..b], t, j) {
      OccursInSlice(s, t, a, b, j);
    }
  }

  /** Removes a leading run of whitespace: `lstrip()`. */
  function TrimLeft(s: string): (r: string)
    ensures |r| <= |s| && r == s[|s| - |r|..]
    ensures |r| > 0 ==> !IsSpace(r[0])
    ensures forall i :: 0 <= i < |s| - |r| ==> IsSpace(s[i])
    decreases |s|
  {
    if |s| > 0 && IsSpace(s[0]) then TrimLeft(s[1..]) else s
  }

  /** Removes a trailing run of whitespace: `rstrip()`. */
  function TrimRight(s: string): (r: string)
    ensures |r| <= |s| && r == s[..|r|]
    ensures |r| > 0 ==> !IsSpace(r[|r| - 1])
    ensures forall i :: |r| <= i < |s| ==> IsSpace(s[i])
    decreases |s|
  {
    if |s| > 0 && IsSpace(s[|s| - 1]) then TrimRight(s[..|s| - 1]) else s
  }

  /** `strip()`: the result is a slice of `s` with no whitespace at either end,
      and everything cut off is whitespace. */
  function Strip(s: string): (r: string)
    ensures |r| > 0 ==> !IsSpace(r[0]) && !IsSpace(r[|r| - 1])
    ensures exists a :: StrippedAt(s, r, a)
  {
    var l := TrimLeft(s);
    var r := TrimRight(l);
    var a := |s| - |l|;
    assert StrippedAt(s, r, a);
    r
  }

  /** `r` is the slice of `s` starting at `a`, and everything around it in
      `s` is whitespace. */
  predicate StrippedAt(s: string, r: string, a: int) {
    0 <= a <= |s| - |r| && r == s[a..a + |r|]
    && (forall i :: 0 <= i < a ==> IsSpace(s[i]))
    && (forall i :: a + |r| <= i < |s| ==> IsSpace(s[i]))
  }

  /** `r` is `s` with whitespace cut off around it, at some offset. */
  ghost predicate StrippedFrom(s: string, r: string) {
    exists a :: StrippedAt(s, r, a)
  }

  /** A string that starts with a non-space character keeps that character
      under `strip()`. */
  lemma StripKeepsFirst(s: string)
    requires |s| > 0 && !IsSpace(s[0])
    ensures |Strip(s)| > 0 && Strip(s)[0] == s[0]
  {
    assert TrimLeft(s) == s;
  }

  /** `lstrip(chars)`: removes the leading run of characters drawn from `chars`. */
  function LStripChars(s: string, chars: string): (r: string)
    ensures |r| <= |s| && r == s[|s| - |r|..]
    ensures |r| > 0 ==> r[0] !in chars
    ensures forall i :: 0 <= i < |s| - |r| ==> s[i] in chars
    decreases |s|
  {
    if |s| > 0 && s[0] in chars then LStripChars(s[1..], chars) else s
  }

  /** `s.split(sep)` for a non-empty separator: the pieces between
      successive non-overlapping occurrences, scanned left to right. */
  function Split(s: string, sep: string): (parts: seq<string>)
    requires |sep| > 0
    ensures |parts| >= 1
    ensures StartsWith(s, sep) ==> |parts| >= 2
    decreases |s|
  {
    match IndexOf(s, sep)
    case None => [s]
    case Some(i) =>
      assert StartsWith(s, sep) ==> OccursAt(s, sep, 0) && i == 0;
      [s[..i]] + Split(s[i + |sep|..], sep)
  }

  /** `sep.join(parts)`. */
  function Join(parts: seq<string>, sep: string): string
    requires |parts| >= 1
    decreases |parts|
  {
    if |parts| == 1 then parts[0] else parts[0] + sep + Join(parts[1..], sep)
  }

  /** Splitting loses nothing: joining the pieces restores the string. */
  lemma {:induction false} SplitJoin(s: string, sep: string)
    requires |sep| > 0
    ensures Join(Split(s, sep), sep) == s
    decreases |s|
  {
    match IndexOf(s, sep)
    case None =>
    case Some(i) =>
      var rest := s[i + |sep|..];
      var parts := Split(s, sep);
      assert parts == [s[..i]] + Split(rest, sep);
      SplitJoin(rest, sep);
      assert parts[1..] == Split(rest, sep);
      assert Join(parts, sep) == s[..i] + sep + Join(parts[1..], sep);
      assert s[i..i + |sep|] == sep;
      assert s == s[..i] + s[i..i + |sep|] + rest;
  }

  /** No piece of a split contains the separator. */
  lemma {:induction false} SplitPartsFree(s: string, sep: string)
    requires |sep| > 0
    ensures forall part :: part in Split(s, sep) ==> !Contains(part, sep)
    decreases |s|
  {
    match IndexOf(s, sep)
    case None =>
      ContainsIndexOf(s, sep);
    case Some(i) =>
      var rest := s[i + |sep|..];
      SplitPartsFree(rest, sep);
      HeadFree(s, sep, i);
      assert Split(s, sep) == [s[..i]] + Split(rest, sep);
  }

  /** The text before the leftmost occurrence does not contain the separator. */
  lemma HeadFree(s: string, sep: string, i: nat)
    requires |sep| > 0 && IndexOf(s, sep) == Some(i)
    ensures !Contains(s[..i], sep)
  {
    ContainsIndexOf(s[..i], sep);
    forall j ensures !OccursAt(s[..i], sep, j) {
      OccursInPrefix(s, sep, i, j);
    }
  }

  /** `s.split(sep)[0]` is the text before the first occurrence of `sep`. */
  lemma SplitHead(s: string, sep: string)
    requires |sep| > 0
    ensures var h := Split(s, sep)[0];
      StartsWith(s, h) && !Contains(h, sep)
      && (|h| < |s| ==> OccursAt(s, sep, |h|))
  {
    SplitPartsFree(s, sep);
    assert Split(s, sep)[0] in Split(s, sep);
  }

  /** When `s` starts with `sep`, `s.split(sep)[1]` is the text between the
      first and the second occurrence of `sep` (or up to the end when there
      is no second one), not everything after the first. */
  lemma SplitSecond(s: string, sep: string)
    requires |sep| > 0 && StartsWith(s, sep)
    ensures |Split(s, sep)| >= 2
    ensures var f := Split(s, sep)[1]; var rest := s[|sep|..];
      StartsWith(rest, f) && !Contains(f, sep)
      && (|f| < |rest| ==> OccursAt(rest, sep, |f|))
  {
    assert OccursAt(s, sep, 0);
    var rest := s[|sep|..];
    assert Split(s, sep)[1] == Split(rest, sep)[0];
    SplitHead(rest, sep);
  }

  /** The leading run of non-space characters: a prefix of `t` with no
      whitespace, ending at the end of `t` or at a whitespace character. */
  function Token(t: string): (w: string)
    ensures |w| <= |t| && w == t[..|w|]
    ensures forall i :: 0 <= i < |w| ==> !IsSpace(w[i])
    ensures |w| < |t| ==> IsSpace(t[|w|])
    decreases |t|
  {
    if |t| > 0 && !IsSpace(t[0]) then [t[0]] + Token(t[1..]) else []
  }

  /** `s.split()`: the maximal runs of non-space characters, in order. */
  function Words(s: string): seq<string>
    decreases |s|
  {
    if |s| == 0 then []
    else if IsSpace(s[0]) then Words(s[1..])
    else
      var w := Token(s);
      [w] + Words(s[|w|..])
  }

  /** A string of whitespace only. */
  predicate AllSpace(g: string) {
    forall i :: 0 <= i < |g| ==> IsSpace(g[i])
  }

  /** A non-empty string with no whitespace: the shape of one word. */
  predicate IsWord(w: string) {
    |w| > 0 && forall i :: 0 <= i < |w| ==> !IsSpace(w[i])
  }

  /** Every word `split()` yields is non-empty and free of whitespace. */
  lemma {:induction false} WordsAreWords(s: string)
    ensures forall w :: w in Words(s) ==> IsWord(w)
    decreases |s|
  {
    if |s| > 0 {
      if IsSpace(s[0]) {
        WordsAreWords(s[1..]);
      } else {
        var w := Token(s);
        WordsAreWords(s[|w|..]);
        assert Words(s) == [w] + Words(s[|w|..]);
      }
    }
  }

  /** Leading whitespace yields no word. */
  lemma {:induction false} WordsSkipSpace(g: string, s: string)
    requires AllSpace(g)
    ensures Words(g + s) == Words(s)
    decreases |g|
  {
    if |g| > 0 {
      var t := g + s;
      assert t[0] == g[0] && IsSpace(t[0]);
      assert t[1..] == g[1..] + s;
      assert Words(t) == Words(t[1..]);
      WordsSkipSpace(g[1..], s);
    } else {
      assert g + s == s;
    }
  }

  /** A word followed by whitespace (or by nothing) is the first word, and
      the words of the rest follow it. Together with `WordsSkipSpace` and
      `Words("") == []` these equations determine `split()` on every
      string: a word is a maximal run of non-space characters. */
  lemma WordsNext(w: string, g: string, s: string)
    requires IsWord(w) && AllSpace(g) && (|g| > 0 || |s| == 0)
    ensures Words(w + g + s) == [w] + Words(s)
  {
    var rest := g + s;
    var t := w + rest;
    assert w + g + s == t;
    assert |rest| == 0 || rest[0] == g[0];
    TokenOfWord(w, rest);
    assert t[0] == w[0] && t[|w|..] == rest;
    assert Words(t) == [w] + Words(rest);
    WordsSkipSpace(g, s);
  }

  /** The token of a word followed by whitespace (or nothing) is that word. */
  lemma {:induction false} TokenOfWord(w: string, rest: string)
    requires IsWord(w) && (|rest| == 0 || IsSpace(rest[0]))
    ensures Token(w + rest) == w
    decreases |w|
  {
    var t := w + rest;
    assert t[0] == w[0] && t[1..] == w[1..] + rest;
    if |w| == 1 {
      assert Token(rest) == [];
    } else {
      TokenOfWord(w[1..], rest);
    }
  }

  /** A string has no words exactly when it is all whitespace. */
  lemma {:induction false} WordsEmpty(s: string)
    ensures |Words(s)| == 0 <==> forall i :: 0 <= i < |s| ==> IsSpace(s[i])
    decreases |s|
  {
    if |s| > 0 && IsSpace(s[0]) {
      WordsEmpty(s[1..]);
      assert forall i :: 1 <= i < |s| ==> s[1..][i - 1] == s[i];
    }
  }
}
