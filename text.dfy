/**
 * The .NET string operations the relay relies on: `char.IsWhiteSpace`,
 * `string.IsNullOrWhiteSpace`, `string.Trim` and
 * `string.Contains(..., StringComparison.OrdinalIgnoreCase)`.
 */
module Text {
  import opened Wrappers

  /** `char.IsWhiteSpace`: the control characters U+0009..U+000D and U+0085,
      and the Unicode separators (Zs, Zl, Zp). */
  predicate IsWhiteSpace(c: char)
  {
    || '\U{0009}' <= c <= '\U{000D}'
    || c == '\U{0020}' || c == '\U{0085}' || c == '\U{00A0}' || c == '\U{1680}'
    || '\U{2000}' <= c <= '\U{200A}'
    || c == '\U{2028}' || c == '\U{2029}' || c == '\U{202F}' || c == '\U{205F}' || c == '\U{3000}'
  }

  predicate AllWhiteSpace(s: string)
  {
    forall i :: 0 <= i < |s| ==> IsWhiteSpace(s[i])
  }

  /** `string.IsNullOrWhiteSpace`: null, empty, or nothing but white space. */
  predicate IsNullOrWhiteSpace(s: Option<string>)
  {
    s.None? || AllWhiteSpace(s.value)
  }

  /** `string.TrimStart()`: the suffix left after dropping leading white space. */
  function TrimStart(s: string): (r: string)
    ensures |r| <= |s| && r == s[|s| - |r|..]
    ensures AllWhiteSpace(s[..|s| - |r|])
    ensures r == [] || !IsWhiteSpace(r[0])
  {
    if s != [] && IsWhiteSpace(s[0]) then
      var r := TrimStart(s[1..]);
      TrimStartStep(s, r);
      r
    else
      s
  }

  /** `string.TrimEnd()`: the prefix left after dropping trailing white space. */
  function TrimEnd(s: string): (r: string)
    ensures |r| <= |s| && r == s[..|r|]
    ensures AllWhiteSpace(s[|r|..])
    ensures r == [] || !IsWhiteSpace(r[|r| - 1])
  {
    if s != [] && IsWhiteSpace(s[|s| - 1]) then
      var r := TrimEnd(s[..|s| - 1]);
      TrimEndStep(s, r);
      r
    else
      s
  }

  /** Dropping one more leading white-space character keeps `r` a suffix
      preceded only by white space. */
  lemma TrimStartStep(s: string, r: string)
    requires s != [] && IsWhiteSpace(s[0])
    requires |r| <= |s[1..]| && r == s[1..][|s[1..]| - |r|..] && AllWhiteSpace(s[1..][..|s[1..]| - |r|])
    ensures |r| <= |s| && r == s[|s| - |r|..] && AllWhiteSpace(s[..|s| - |r|])
  {
    var n := |s| - |r|;
    assert s[1..][|s[1..]| - |r|..] == s[n..];
    forall k | 0 <= k < n ensures IsWhiteSpace(s[..n][k]) {
      if k > 0 { assert s[..n][k] == s[1..][..|s[1..]| - |r|][k - 1]; }
    }
  }

  /** Dropping one more trailing white-space character keeps `r` a prefix
      followed only by white space. */
  lemma TrimEndStep(s: string, r: string)
    requires s != [] && IsWhiteSpace(s[|s| - 1])
    requires |r| <= |s| - 1 && r == s[..|s| - 1][..|r|] && AllWhiteSpace(s[..|s| - 1][|r|..])
    ensures |r| <= |s| && r == s[..|r|] && AllWhiteSpace(s[|r|..])
  {
    assert s[..|s| - 1][..|r|] == s[..|r|];
    var tail := s[|r|..];
    forall k | 0 <= k < |tail| ensures IsWhiteSpace(tail[k]) {
      if k < |tail| - 1 { assert tail[k] == s[..|s| - 1][|r|..][k]; }
    }
  }

  /** `string.Trim()`: the input with leading and trailing white space removed.
      The result is a contiguous slice of the input, everything cut off is white
      space, and the result neither starts nor ends with white space. */
  function Trim(s: string): (r: string)
    ensures exists i :: Slices(s, r, i)
    ensures r == [] || (!IsWhiteSpace(r[0]) && !IsWhiteSpace(r[|r| - 1]))
  {
    var t := TrimStart(s);
    var r := TrimEnd(t);
    SliceOfSlice(s, t, r);
    assert r != [] ==> r[0] == t[0];
    r
  }

  /** `r` is `s[i..i + |r|]` and everything of `s` around it is white space. */
  ghost predicate Slices(s: string, r: string, i: int)
  {
    && 0 <= i && i + |r| <= |s|
    && r == s[i..i + |r|]
    && AllWhiteSpace(s[..i])
    && AllWhiteSpace(s[i + |r|..])
  }

  /** A prefix of a suffix of `s`, cut from white space on both sides, is a slice of `s`. */
  lemma SliceOfSlice(s: string, t: string, r: string)
    requires |t| <= |s| && t == s[|s| - |t|..] && AllWhiteSpace(s[..|s| - |t|])
    requires |r| <= |t| && r == t[..|r|] && AllWhiteSpace(t[|r|..])
    ensures Slices(s, r, |s| - |t|)
  {
    var i := |s| - |t|;
    assert s[i..i + |r|] == t[..|r|];
    assert s[i + |r|..] == t[|r|..];
  }

  /** Trimming yields the empty string exactly when the input is all white space. */
  lemma TrimEmptyIff(s: string)
    ensures Trim(s) == [] <==> AllWhiteSpace(s)
  {
    var r := Trim(s);
    var i :| Slices(s, r, i);
    if r == [] {
      assert s == s[..i] + s[i..];
      forall k | 0 <= k < |s| ensures IsWhiteSpace(s[k]) {
        if k < i { assert s[k] == s[..i][k]; } else { assert s[k] == s[i..][k - i]; }
      }
    } else {
      assert s[i] == r[0];
    }
  }

  /** Upper-casing restricted to ASCII letters: the case mapping that matters
      for an ASCII needle under ordinal ignore-case comparison. */
  function AsciiUpper(c: char): char
  {
    if 'a' <= c <= 'z' then (c as int - 32) as char else c
  }

  /** Ordinal ignore-case equality of two strings of the same length. */
  predicate EqualsIgnoreCase(a: string, b: string)
  {
    |a| == |b| && forall k :: 0 <= k < |a| ==> AsciiUpper(a[k]) == AsciiUpper(b[k])
  }

  /** `needle` occurs in `hay` at offset `i`, ignoring case. */
  predicate MatchesAt(hay: string, needle: string, i: int)
  {
    0 <= i && i + |needle| <= |hay| && EqualsIgnoreCase(hay[i..i + |needle|], needle)
  }

  /** `hay.Contains(needle, StringComparison.OrdinalIgnoreCase)`: true exactly
      when `needle` occurs somewhere in `hay` ignoring case. */
  function ContainsIgnoreCase(hay: string, needle: string): (b: bool)
    ensures b <==> exists i :: MatchesAt(hay, needle, i)
    decreases |hay|
  {
    if |hay| < |needle| then
      false
    else if EqualsIgnoreCase(hay[..|needle|], needle) then
      assert MatchesAt(hay, needle, 0);
      true
    else
      var rest := ContainsIgnoreCase(hay[1..], needle);
      assert forall i :: MatchesAt(hay[1..], needle, i) ==> MatchesAt(hay, needle, i + 1) by {
        forall i | MatchesAt(hay[1..], needle, i) ensures MatchesAt(hay, needle, i + 1) {
          assert hay[1..][i..i + |needle|] == hay[i + 1..i + 1 + |needle|];
        }
      }
      assert forall i :: MatchesAt(hay, needle, i) ==> MatchesAt(hay[1..], needle, i - 1) by {
        forall i | MatchesAt(hay, needle, i) ensures MatchesAt(hay[1..], needle, i - 1) {
          assert i != 0;
          assert hay[1..][i - 1..i - 1 + |needle|] == hay[i..i + |needle|];
        }
      }
      rest
  }
}
