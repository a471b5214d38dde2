/**
 * Character-level helpers the feedback form's validator relies on:
 * the whitespace set shared by `String.prototype.trim` and the regex
 * class `\s`, trimming, whitespace removal (`replace(/\s+/g, '')`) and
 * the UTF-16 length that `.length` reports.
 */
module Chars {

  /** ECMAScript WhiteSpace and LineTerminator code points (what `trim` removes and `\s` matches). */
  predicate IsWhitespace(c: char)
  {
    || c == '\t' || c == '\n' || c == '\U{0B}' || c == '\U{0C}' || c == '\r'
    || c == ' ' || c == '\U{A0}' || c == '\U{1680}'
    || ('\U{2000}' <= c <= '\U{200A}')
    || c == '\U{2028}' || c == '\U{2029}' || c == '\U{202F}' || c == '\U{205F}'
    || c == '\U{3000}' || c == '\U{FEFF}'
  }

  /** Every character of `s` is whitespace (vacuously true of ""). */
  ghost predicate AllWhitespace(s: string)
  {
    forall i :: 0 <= i < |s| ==> IsWhitespace(s[i])
  }

  /** No character of `s` is whitespace. */
  ghost predicate NoWhitespace(s: string)
  {
    forall i :: 0 <= i < |s| ==> !IsWhitespace(s[i])
  }

  /** Index of the first non-whitespace character of `s` at or after `i` (`|s|` when there is none). */
  function SkipLeading(s: string, i: nat): (j: nat)
    requires i <= |s|
    ensures i <= j <= |s|
    decreases |s| - i
  {
    if i < |s| && IsWhitespace(s[i]) then SkipLeading(s, i + 1) else i
  }

  /** One past the last non-whitespace character of `s` before `j`, going no lower than `lo`. */
  function SkipTrailing(s: string, lo: nat, j: nat): (k: nat)
    requires lo <= j <= |s|
    ensures lo <= k <= j
    decreases j
  {
    if lo < j && IsWhitespace(s[j - 1]) then SkipTrailing(s, lo, j - 1) else j
  }

  /** SkipLeading passes over whitespace only, and stops at a non-whitespace character or the end. */
  lemma {:induction false} SkipLeadingSpec(s: string, i: nat)
    requires i <= |s|
    ensures var j := SkipLeading(s, i);
      && (forall k :: i <= k < j ==> IsWhitespace(s[k]))
      && (j == |s| || !IsWhitespace(s[j]))
    decreases |s| - i
  {
    if i < |s| && IsWhitespace(s[i]) {
      SkipLeadingSpec(s, i + 1);
    }
  }

  /** SkipTrailing passes over whitespace only, and stops after a non-whitespace character or at `lo`. */
  lemma {:induction false} SkipTrailingSpec(s: string, lo: nat, j: nat)
    requires lo <= j <= |s|
    ensures var k := SkipTrailing(s, lo, j);
      && (forall m :: k <= m < j ==> IsWhitespace(s[m]))
      && (k == lo || !IsWhitespace(s[k - 1]))
    decreases j
  {
    if lo < j && IsWhitespace(s[j - 1]) {
      SkipTrailingSpec(s, lo, j - 1);
    }
  }

  /** `String.prototype.trim`: the text between the leading and the trailing whitespace. */
  function Trim(s: string): string
  {
    var a := SkipLeading(s, 0);
    s[a..SkipTrailing(s, a, |s|)]
  }

  /**
   * What trim leaves: a contiguous piece `s[a..b]` that neither starts nor
   * ends with whitespace, everything cut away on either side being
   * whitespace.
   */
  lemma TrimSlice(s: string)
    ensures var a := SkipLeading(s, 0); var b := SkipTrailing(s, a, |s|);
      && Trim(s) == s[a..b]
      && (forall k :: 0 <= k < a ==> IsWhitespace(s[k]))
      && (forall k :: b <= k < |s| ==> IsWhitespace(s[k]))
      && (a < b ==> !IsWhitespace(s[a]) && !IsWhitespace(s[b - 1]))
  {
    var a := SkipLeading(s, 0);
    SkipLeadingSpec(s, 0);
    SkipTrailingSpec(s, a, |s|);
  }

  /** The source's "required" test `!value.trim()`: trim is empty exactly for all-whitespace input. */
  lemma TrimEmptyIff(s: string)
    ensures Trim(s) == [] <==> AllWhitespace(s)
  {
    TrimSlice(s);
    var a := SkipLeading(s, 0);
    var b := SkipTrailing(s, a, |s|);
    if a < b {
      assert Trim(s)[0] == s[a];
    } else {
      // a == b: the kept piece is empty and both cut-away parts cover `s`
      assert a == b;
    }
  }

  /** Trimming twice is trimming once. */
  lemma TrimIdempotent(s: string)
    ensures Trim(Trim(s)) == Trim(s)
  {
    TrimSlice(s);
    var r := Trim(s);
    TrimSlice(r);
    var a := SkipLeading(s, 0);
    var b := SkipTrailing(s, a, |s|);
    if r != [] {
      assert r[0] == s[a] && r[|r| - 1] == s[b - 1];
      assert SkipLeading(r, 0) == 0;
      assert SkipTrailing(r, 0, |r|) == |r|;
    }
  }

  /** The first `n` characters of `s` with every whitespace character removed. */
  function StripPrefix(s: string, n: nat): (r: string)
    requires n <= |s|
    ensures |r| <= n
    ensures NoWhitespace(r)
  {
    if n == 0 then []
    else StripPrefix(s, n - 1) + (if IsWhitespace(s[n - 1]) then [] else [s[n - 1]])
  }

  /** `s.replace(/\s+/g, '')`: every whitespace character removed. */
  function StripWhitespace(s: string): (r: string)
    ensures |r| <= |s|
    ensures NoWhitespace(r)
  {
    StripPrefix(s, |s|)
  }

  /** Stripping a prefix looks at that prefix only. */
  lemma {:induction false} StripPrefixLocal(s: string, t: string, n: nat)
    requires n <= |s| && n <= |t| && s[..n] == t[..n]
    ensures StripPrefix(s, n) == StripPrefix(t, n)
  {
    if n > 0 {
      assert s[n - 1] == s[..n][n - 1] == t[..n][n - 1] == t[n - 1];
      assert s[..n - 1] == s[..n][..n - 1] == t[..n][..n - 1] == t[..n - 1];
      StripPrefixLocal(s, t, n - 1);
    }
  }

  /** Stripping `a + b[..n]` strips `a`, then `b[..n]`. */
  lemma {:induction false} StripPrefixConcat(a: string, b: string, n: nat)
    requires n <= |b|
    ensures StripPrefix(a + b, |a| + n) == StripWhitespace(a) + StripPrefix(b, n)
  {
    if n == 0 {
      assert (a + b)[..|a|] == a[..|a|];
      StripPrefixLocal(a + b, a, |a|);
    } else {
      StripPrefixConcat(a, b, n - 1);
      assert (a + b)[|a| + n - 1] == b[n - 1];
    }
  }

  /** Stripping distributes over concatenation. */
  lemma StripConcat(a: string, b: string)
    ensures StripWhitespace(a + b) == StripWhitespace(a) + StripWhitespace(b)
  {
    StripPrefixConcat(a, b, |b|);
  }

  /** A whitespace character inserted anywhere is invisible after stripping. */
  lemma StripIgnoresWhitespace(a: string, w: char, b: string)
    requires IsWhitespace(w)
    ensures StripWhitespace(a + [w] + b) == StripWhitespace(a + b)
  {
    StripConcat(a + [w], b);
    StripConcat(a, [w]);
    StripConcat(a, b);
    assert StripWhitespace([w]) == [];
  }

  /** A whitespace-free prefix is kept as it is. */
  lemma {:induction false} StripPrefixClean(s: string, n: nat)
    requires n <= |s| && NoWhitespace(s)
    ensures StripPrefix(s, n) == s[..n]
  {
    if n > 0 {
      StripPrefixClean(s, n - 1);
      assert s[..n] == s[..n - 1] + [s[n - 1]];
    }
  }

  /** Characters outside the stripped set are kept in order: a whitespace-free string is unchanged. */
  lemma StripKeepsClean(s: string)
    requires NoWhitespace(s)
    ensures StripWhitespace(s) == s
  {
    StripPrefixClean(s, |s|);
  }

  /** Stripping is idempotent. */
  lemma StripIdempotent(s: string)
    ensures StripWhitespace(StripWhitespace(s)) == StripWhitespace(s)
  {
    StripKeepsClean(StripWhitespace(s));
  }

  /** A prefix strips to nothing exactly when it is all whitespace. */
  lemma {:induction false} StripPrefixEmptyIff(s: string, n: nat)
    requires n <= |s|
    ensures StripPrefix(s, n) == [] <==> forall k :: 0 <= k < n ==> IsWhitespace(s[k])
  {
    if n > 0 {
      StripPrefixEmptyIff(s, n - 1);
    }
  }

  /** The phone rule's stripped text is empty exactly for all-whitespace input. */
  lemma StripEmptyIff(s: string)
    ensures StripWhitespace(s) == [] <==> AllWhitespace(s)
  {
    StripPrefixEmptyIff(s, |s|);
  }

  /** Characters beyond the Basic Multilingual Plane are two UTF-16 code units. */
  function CodeUnits(c: char): nat
  {
    if c as int > 0xFFFF then 2 else 1
  }

  /** JavaScript's `.length`: the number of UTF-16 code units of `s`. */
  function Utf16Length(s: string): (n: nat)
    ensures |s| <= n <= 2 * |s|
    ensures n == 0 <==> s == []
  {
    if s == [] then 0 else CodeUnits(s[0]) + Utf16Length(s[1..])
  }

  /** Within the Basic Multilingual Plane `.length` is the number of characters. */
  lemma {:induction false} Utf16LengthBmp(s: string)
    requires forall i :: 0 <= i < |s| ==> s[i] as int <= 0xFFFF
    ensures Utf16Length(s) == |s|
  {
    if s != [] {
      Utf16LengthBmp(s[1..]);
    }
  }
}
