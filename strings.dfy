/**
 * The parts of Rust's `str` and `char` API that the editor integration relies on:
 * `char::is_whitespace`, `str::trim` (with `trim_start` and `trim_end`),
 * `str::trim_end_matches` with a `char` pattern, and `str::len` (a length in
 * UTF-8 bytes). Strings are sequences of Unicode scalar values.
 */
module Strings {

  /** `char::is_whitespace`: the characters with the Unicode White_Space property. */
  predicate IsWhitespace(c: char) {
    || ('\t' <= c <= '\r')
    || c == ' '
    || c == '\U{85}'
    || c == '\U{A0}'
    || c == '\U{1680}'
    || ('\U{2000}' <= c <= '\U{200A}')
    || c == '\U{2028}'
    || c == '\U{2029}'
    || c == '\U{202F}'
    || c == '\U{205F}'
    || c == '\U{3000}'
  }

  predicate AllWhitespace(s: string) {
    forall i :: 0 <= i < |s| ==> IsWhitespace(s[i])
  }

  /** `str::trim_start`: drops the longest whitespace prefix. */
  function TrimStart(s: string): (r: string)
    ensures |r| <= |s| && r == s[|s| - |r|..]
    ensures forall i :: 0 <= i < |s| - |r| ==> IsWhitespace(s[i])
    ensures r == [] || !IsWhitespace(r[0])
    decreases |s|
  {
    if s != [] && IsWhitespace(s[0]) then TrimStart(s[1..]) else s
  }

  /** `str::trim_end`: drops the longest whitespace suffix. */
  function TrimEnd(s: string): (r: string)
    ensures |r| <= |s| && r == s[..|r|]
    ensures forall i :: |r| <= i < |s| ==> IsWhitespace(s[i])
    ensures r == [] || !IsWhitespace(r[|r| - 1])
    decreases |s|
  {
    if s != [] && IsWhitespace(s[|s| - 1]) then TrimEnd(s[..|s| - 1]) else s
  }

  /** `str::trim`: drops leading and trailing whitespace. */
  function Trim(s: string): (r: string)
    ensures |r| <= |s|
    ensures r == [] <==> AllWhitespace(s)
    ensures r == [] || (!IsWhitespace(r[0]) && !IsWhitespace(r[|r| - 1]))
  {
    TrimStart(TrimEnd(s))
  }

  /** `str::trim_end_matches(c)` for a single character `c`: drops every trailing `c`. */
  function TrimEndMatches(s: string, c: char): (r: string)
    ensures |r| <= |s| && r == s[..|r|]
    ensures forall i :: |r| <= i < |s| ==> s[i] == c
    ensures r == [] || r[|r| - 1] != c
    decreases |s|
  {
    if s != [] && s[|s| - 1] == c then TrimEndMatches(s[..|s| - 1], c) else s
  }

  /** Number of bytes of the UTF-8 encoding of `c`. */
  function Utf8Width(c: char): (w: nat)
    ensures 1 <= w <= 4
    ensures w == 1 <==> c as int < 0x80
  {
    if c as int < 0x80 then 1
    else if c as int < 0x800 then 2
    else if c as int < 0x1_0000 then 3
    else 4
  }

  /** `str::len`: the length of `s` in UTF-8 bytes. */
  function Utf8Len(s: string): (n: nat)
    ensures n >= |s|
    ensures n == 0 <==> s == []
    ensures (forall i :: 0 <= i < |s| ==> s[i] as int < 0x80) ==> n == |s|
  {
    if s == [] then 0 else Utf8Width(s[0]) + Utf8Len(s[1..])
  }

  /** Whitespace appended at the end does not survive `trim_end`. */
  lemma {:induction false} TrimEndAppendWhitespace(s: string, w: string)
    requires AllWhitespace(w)
    ensures TrimEnd(s + w) == TrimEnd(s)
    decreases |w|
  {
    if w != [] {
      var w' := w[..|w| - 1];
      assert (s + w)[..|s + w| - 1] == s + w';
      TrimEndAppendWhitespace(s, w');
    } else {
      assert s + w == s;
    }
  }

  /** Whitespace prepended at the start does not survive `trim_start`. */
  lemma {:induction false} TrimStartPrependWhitespace(w: string, s: string)
    requires AllWhitespace(w)
    ensures TrimStart(w + s) == TrimStart(s)
    decreases |w|
  {
    if w != [] {
      assert (w + s)[1..] == w[1..] + s;
      TrimStartPrependWhitespace(w[1..], s);
    } else {
      assert w + s == s;
    }
  }

  /** `trim_end` of a string that is not all whitespace keeps any prefix in front of it. */
  lemma {:induction false} TrimEndKeepsPrefix(w: string, s: string)
    requires !AllWhitespace(s)
    ensures TrimEnd(w + s) == w + TrimEnd(s)
    decreases |s|
  {
    assert s != [];
    if IsWhitespace(s[|s| - 1]) {
      var s' := s[..|s| - 1];
      assert (w + s)[..|w + s| - 1] == w + s';
      assert !AllWhitespace(s') by {
        var k :| 0 <= k < |s| && !IsWhitespace(s[k]);
        assert s'[k] == s[k];
      }
      TrimEndKeepsPrefix(w, s');
    }
  }

  /** `trim` ignores whitespace padding on either side. */
  lemma TrimIgnoresPadding(w1: string, s: string, w2: string)
    requires AllWhitespace(w1) && AllWhitespace(w2)
    ensures Trim(w1 + s + w2) == Trim(s)
  {
    TrimEndAppendWhitespace(w1 + s, w2);
    if AllWhitespace(s) {
      assert AllWhitespace(w1 + s) by {
        forall i | 0 <= i < |w1 + s| ensures IsWhitespace((w1 + s)[i]) {
          if i >= |w1| { assert (w1 + s)[i] == s[i - |w1|]; }
        }
      }
      assert Trim(w1 + s) == [];
    } else {
      TrimEndKeepsPrefix(w1, s);
      TrimStartPrependWhitespace(w1, TrimEnd(s));
    }
  }

  /**
   * Reference characterisation of `trim`: whenever `s` is a core `m` padded with
   * whitespace, and `m` is empty or neither begins nor ends with whitespace,
   * `trim` returns exactly `m`.
   */
  lemma TrimIsCore(w1: string, m: string, w2: string)
    requires AllWhitespace(w1) && AllWhitespace(w2)
    requires m == [] || (!IsWhitespace(m[0]) && !IsWhitespace(m[|m| - 1]))
    ensures Trim(w1 + m + w2) == m
  {
    TrimIgnoresPadding(w1, m, w2);
  }

  /**
   * Reference characterisation of `trim_end_matches(c)`: a split of `s` into a
   * prefix `p` not ending in `c` and a run of `c` determines the result.
   */
  lemma {:induction false} TrimEndMatchesIsPrefix(p: string, q: string, c: char)
    requires forall i :: 0 <= i < |q| ==> q[i] == c
    requires p == [] || p[|p| - 1] != c
    ensures TrimEndMatches(p + q, c) == p
    decreases |q|
  {
    if q == [] {
      assert p + q == p;
    } else {
      var q' := q[..|q| - 1];
      assert (p + q)[..|p + q| - 1] == p + q';
      TrimEndMatchesIsPrefix(p, q', c);
    }
  }

  /** `trim_end_matches(c)` is idempotent. */
  lemma TrimEndMatchesIdempotent(s: string, c: char)
    ensures TrimEndMatches(TrimEndMatches(s, c), c) == TrimEndMatches(s, c)
  {
    var p := TrimEndMatches(s, c);
    TrimEndMatchesIsPrefix(p, [], c);
    assert p + [] == p;
  }

  /** Dropping trailing newlines does not change what `trim` returns. */
  lemma TrimAfterTrimEndNewlines(s: string)
    ensures Trim(TrimEndMatches(s, '\n')) == Trim(s)
  {
    var p := TrimEndMatches(s, '\n');
    var q := s[|p|..];
    assert s == p + q;
    assert AllWhitespace(q) by {
      forall i | 0 <= i < |q| ensures IsWhitespace(q[i]) {
        assert q[i] == s[|p| + i] == '\n';
      }
    }
    TrimEndAppendWhitespace(p, q);
  }
}
