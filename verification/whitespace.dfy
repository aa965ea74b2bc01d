/** A model of Python's argument-less `str.strip()`: removal of leading and trailing
    whitespace, where whitespace is what `str.isspace` accepts. */
module Whitespace {

  /** Python's `str.isspace` for one character: the ASCII controls TAB to CR, the four
      information separators 0x1C..0x1F, SPACE, NEL, NO-BREAK SPACE, and the Unicode
      space separators, LINE SEPARATOR and PARAGRAPH SEPARATOR. */
  predicate IsSpace(c: char) {
    || ('\t' <= c <= '\r')
    || ('\U{1C}' <= c <= '\U{1F}')
    || c == ' '
    || c == '\U{85}'
    || c == '\U{A0}'
    || c == '\U{1680}'
    || ('\U{2000}' <= c <= '\U{200A}')
    || c == '\U{2028}'
    || c == '\U{2029}'
    || c == '\U{202F}'
    || c == '\U{205F}'
    || c == '\U{3000}'
  }

  predicate AllSpace(s: string) {
    forall i :: 0 <= i < |s| ==> IsSpace(s[i])
  }

  lemma AllSpaceConcat(a: string, b: string)
    requires AllSpace(a) && AllSpace(b)
    ensures AllSpace(a + b)
  {
    assert forall i :: 0 <= i < |a + b| ==> (a + b)[i] == if i < |a| then a[i] else b[i - |a|];
  }

  lemma Regroup(a: string, b: string, c: string, d: string, e: string)
    ensures a + (b + c + d) + e == (a + b) + c + (d + e)
  {
  }

  /** Neither starts nor ends with whitespace. */
  predicate IsStripped(s: string) {
    |s| == 0 || (!IsSpace(s[0]) && !IsSpace(s[|s| - 1]))
  }

  /** How many whitespace characters `s` starts with: `s.lstrip()` is `s[LeadingSpace(s)..]`. */
  function LeadingSpace(s: string): (n: nat)
    ensures n <= |s|
    ensures forall k :: 0 <= k < n ==> IsSpace(s[k])
    ensures n == |s| || !IsSpace(s[n])
  {
    if |s| > 0 && IsSpace(s[0]) then 1 + LeadingSpace(s[1..]) else 0
  }

  /** How many whitespace characters `s` ends with: `s.rstrip()` is
      `s[..|s| - TrailingSpace(s)]`. */
  function TrailingSpace(s: string): (n: nat)
    ensures n <= |s|
    ensures forall k :: |s| - n <= k < |s| ==> IsSpace(s[k])
    ensures n == |s| || !IsSpace(s[|s| - 1 - n])
  {
    if |s| > 0 && IsSpace(s[|s| - 1]) then 1 + TrailingSpace(s[..|s| - 1]) else 0
  }

  /** `s.strip()`: the result is a stripped slice of `s`, starting after the leading
      whitespace, with only whitespace cut away after it. */
  function Strip(s: string): (r: string)
    ensures IsStripped(r)
    ensures LeadingSpace(s) + |r| <= |s|
    ensures r == s[LeadingSpace(s)..LeadingSpace(s) + |r|]
    ensures forall k :: LeadingSpace(s) + |r| <= k < |s| ==> IsSpace(s[k])
  {
    var i := LeadingSpace(s);
    if i == |s| then [] else s[i..|s| - TrailingSpace(s)]
  }

  /** Leading whitespace is counted in full and the count goes on into what follows. */
  lemma {:induction false} LeadingSpaceOver(w: string, x: string)
    requires AllSpace(w)
    ensures LeadingSpace(w + x) == |w| + LeadingSpace(x)
    decreases |w|
  {
    if |w| > 0 {
      assert (w + x)[0] == w[0];
      assert (w + x)[1..] == w[1..] + x;
      LeadingSpaceOver(w[1..], x);
    } else {
      assert w + x == x;
    }
  }

  /** Trailing whitespace is counted in full and the count goes on into what precedes. */
  lemma {:induction false} TrailingSpaceOver(x: string, w: string)
    requires AllSpace(w)
    ensures TrailingSpace(x + w) == |w| + TrailingSpace(x)
    decreases |w|
  {
    if |w| > 0 {
      assert (x + w)[|x + w| - 1] == w[|w| - 1];
      assert (x + w)[..|x + w| - 1] == x + w[..|w| - 1];
      TrailingSpaceOver(x, w[..|w| - 1]);
    } else {
      assert x + w == x;
    }
  }

  /** `Strip` is characterized by its result: whenever `s` is a stripped core surrounded
      by whitespace, `Strip(s)` is that core. Together with the ensures of `Strip`, this
      says that the decomposition is unique. */
  lemma StripCharacterization(w1: string, m: string, w2: string)
    requires AllSpace(w1) && AllSpace(w2) && IsStripped(m)
    ensures Strip(w1 + m + w2) == m
  {
    var s := w1 + m + w2;
    assert s == w1 + (m + w2);
    LeadingSpaceOver(w1, m + w2);
    if |m| == 0 {
      assert m + w2 == w2 + [];
      LeadingSpaceOver(w2, []);
    } else {
      assert (m + w2)[0] == m[0];
      assert s == (w1 + m) + w2;
      TrailingSpaceOver(w1 + m, w2);
      assert (w1 + m)[|w1 + m| - 1] == m[|m| - 1];
      assert s[|w1|..|s| - |w2|] == m;
    }
  }

  /** A string without surrounding whitespace is its own strip. */
  lemma StripStripped(s: string)
    requires IsStripped(s)
    ensures Strip(s) == s
  {
    assert [] + s + [] == s;
    StripCharacterization([], s, []);
  }

  /** Stripping is idempotent. */
  lemma StripIdempotent(s: string)
    ensures Strip(Strip(s)) == Strip(s)
  {
    StripStripped(Strip(s));
  }

  /** `s` equals `s.strip()` exactly when `s` has no surrounding whitespace. */
  lemma StripFixedPoint(s: string)
    ensures Strip(s) == s <==> IsStripped(s)
  {
    if IsStripped(s) {
      StripStripped(s);
    }
  }

  /** Every string is its strip surrounded by whitespace. */
  lemma StripSplit(s: string) returns (w1: string, w2: string)
    ensures AllSpace(w1) && AllSpace(w2)
    ensures s == w1 + Strip(s) + w2
  {
    var i := LeadingSpace(s);
    var m := Strip(s);
    w1, w2 := s[..i], s[i + |m|..];
    assert s == w1 + m + w2;
  }

  /** Extra whitespace around a string does not change its strip. */
  lemma StripIgnoresOuterSpace(w1: string, x: string, w2: string)
    requires AllSpace(w1) && AllSpace(w2)
    ensures Strip(w1 + x + w2) == Strip(x)
  {
    var u1, u2 := StripSplit(x);
    var m := Strip(x);
    var v1, v2 := w1 + u1, u2 + w2;
    Regroup(w1, u1, m, u2, w2);
    AllSpaceConcat(w1, u1);
    AllSpaceConcat(u2, w2);
    StripCharacterization(v1, m, v2);
  }
}
