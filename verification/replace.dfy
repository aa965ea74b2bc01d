/** A model of Python's `str.replace(old, new)` on strings, with the facts about it
    that the SQL cleanup relies on. */
module Replace {

  /** `p` occurs in `s` starting at index `i`. */
  predicate OccursAt(s: string, p: string, i: int) {
    0 <= i && i + |p| <= |s| && s[i..i + |p|] == p
  }

  /** `p` is a substring of `s` (Python's `p in s`). */
  predicate Contains(s: string, p: string) {
    exists i | 0 <= i <= |s| - |p| :: OccursAt(s, p, i)
  }

  /** `s.replace(pat, rep)`: scans left to right and replaces every non-overlapping
      occurrence of `pat` by `rep`. With an empty `pat`, Python inserts `rep` before
      every character and once at the end. */
  function ReplaceAll(s: string, pat: string, rep: string): (r: string)
    ensures |pat| == 0 ==> |r| == |s| + (|s| + 1) * |rep|
    ensures |pat| > 0 && rep == [] ==> |r| <= |s|
    ensures forall c :: c in r ==> c in s || c in rep
    decreases |s|
  {
    if |pat| == 0 then
      if |s| == 0 then rep else rep + [s[0]] + ReplaceAll(s[1..], pat, rep)
    else if |s| == 0 then []
    else if pat <= s then rep + ReplaceAll(s[|pat|..], pat, rep)
    else [s[0]] + ReplaceAll(s[1..], pat, rep)
  }

  /** With an empty pattern, appending a character to the input appends that character
      and then `rep` to the result. Together with `ReplaceAll([], [], rep) == rep` this
      places `rep` before every character and once at the end. */
  lemma {:induction false} EmptyPatternAppend(a: string, c: char, rep: string)
    ensures ReplaceAll(a + [c], [], rep) == ReplaceAll(a, [], rep) + [c] + rep
    decreases |a|
  {
    if |a| == 0 {
      assert a + [c] == [c];
      assert [c][1..] == [];
    } else {
      assert (a + [c])[1..] == a[1..] + [c];
      EmptyPatternAppend(a[1..], c, rep);
    }
  }

  /** One step of the scan when the pattern matches at the front. */
  lemma ReplaceMatchStep(s: string, pat: string, rep: string)
    requires |pat| > 0 && pat <= s
    ensures ReplaceAll(s, pat, rep) == rep + ReplaceAll(s[|pat|..], pat, rep)
  {
  }

  /** One step of the scan when the pattern does not match at the front. */
  lemma ReplaceMissStep(s: string, pat: string, rep: string)
    requires |pat| > 0 && |s| > 0 && !(pat <= s)
    ensures ReplaceAll(s, pat, rep) == [s[0]] + ReplaceAll(s[1..], pat, rep)
  {
  }

  /** An occurrence at the very start is replaced and the scan resumes after it. */
  lemma ReplaceLeading(pat: string, x: string, rep: string)
    requires |pat| > 0
    ensures ReplaceAll(pat + x, pat, rep) == rep + ReplaceAll(x, pat, rep)
  {
    assert pat <= pat + x;
    assert (pat + x)[|pat|..] == x;
  }

  /** An occurrence inside a slice is an occurrence in the whole string. */
  lemma OccursInSlice(s: string, p: string, lo: int, hi: int, i: int)
    requires 0 <= lo <= hi <= |s|
    requires OccursAt(s[lo..hi], p, i)
    ensures OccursAt(s, p, lo + i)
  {
    forall k | 0 <= k < |p|
      ensures s[lo + i..lo + i + |p|][k] == p[k]
    {
      assert s[lo..hi][i..i + |p|][k] == p[k];
    }
  }

  /** Removing characters from both ends cannot create an occurrence. */
  lemma SliceAvoids(s: string, p: string, lo: int, hi: int)
    requires 0 <= lo <= hi <= |s|
    requires !Contains(s, p)
    ensures !Contains(s[lo..hi], p)
  {
    if Contains(s[lo..hi], p) {
      var i :| 0 <= i <= hi - lo - |p| && OccursAt(s[lo..hi], p, i);
      OccursInSlice(s, p, lo, hi, i);
    }
  }

  /** A string in which `pat` does not occur is left alone. */
  lemma {:induction false} ReplaceAbsent(s: string, pat: string, rep: string)
    requires |pat| > 0
    requires !Contains(s, pat)
    ensures ReplaceAll(s, pat, rep) == s
    decreases |s|
  {
    if |s| > 0 {
      assert !(pat <= s) by {
        if pat <= s { assert OccursAt(s, pat, 0); }
      }
      SliceAvoids(s, pat, 1, |s|);
      assert s[1..|s|] == s[1..];
      ReplaceAbsent(s[1..], pat, rep);
    }
  }

  /** Removing a pattern that still occurs strictly shortens the string. */
  lemma {:induction false} RemovePresentShrinks(s: string, pat: string)
    requires |pat| > 0
    requires Contains(s, pat)
    ensures |ReplaceAll(s, pat, [])| < |s|
    decreases |s|
  {
    var i :| 0 <= i <= |s| - |pat| && OccursAt(s, pat, i);
    if !(pat <= s) {
      assert i > 0;
      assert OccursAt(s[1..], pat, i - 1) by {
        assert s[1..][i - 1..i - 1 + |pat|] == s[i..i + |pat|];
      }
      RemovePresentShrinks(s[1..], pat);
    }
  }

  /** Removing `pat` leaves a string unchanged exactly when `pat` does not occur in it. */
  lemma RemoveFixedPoint(s: string, pat: string)
    requires |pat| > 0
    ensures ReplaceAll(s, pat, []) == s <==> !Contains(s, pat)
  {
    if Contains(s, pat) {
      RemovePresentShrinks(s, pat);
    } else {
      ReplaceAbsent(s, pat, []);
    }
  }

  /** A prefix without the pattern's first character passes through untouched. */
  lemma {:induction false} ReplaceFreePrefix(a: string, b: string, pat: string, rep: string)
    requires |pat| > 0
    requires pat[0] !in a
    ensures ReplaceAll(a + b, pat, rep) == a + ReplaceAll(b, pat, rep)
    decreases |a|
  {
    if |a| > 0 {
      assert !(pat <= a + b) by {
        assert (a + b)[0] == a[0];
      }
      assert (a + b)[1..] == a[1..] + b;
      ReplaceFreePrefix(a[1..], b, pat, rep);
    } else {
      assert a + b == b;
    }
  }

  /** A suffix made of characters foreign to the pattern passes through untouched. */
  lemma {:induction false} ReplaceFreeSuffix(a: string, b: string, pat: string, rep: string)
    requires |pat| > 0
    requires forall c :: c in b ==> c !in pat
    ensures ReplaceAll(a + b, pat, rep) == ReplaceAll(a, pat, rep) + b
    decreases |b|
  {
    if |b| == 0 {
      assert a + b == a;
    } else {
      var c, rest := b[0], b[1..];
      assert b == [c] + rest;
      assert a + b == a + [c] + rest;
      assert [] + rest == rest;
      assert c in b;
      assert forall x :: x in rest ==> x in b;
      ReplaceFreeSuffix([], rest, pat, rep);
      ReplaceSplitsAt(a, c, rest, pat, rep);
    }
  }

  /** A character foreign to the pattern separates the string into two halves that are
      rewritten independently: no replacement ever spans it. */
  lemma {:induction false} ReplaceSplitsAt(a: string, c: char, b: string, pat: string, rep: string)
    requires |pat| > 0
    requires c !in pat
    ensures ReplaceAll(a + [c] + b, pat, rep)
         == ReplaceAll(a, pat, rep) + [c] + ReplaceAll(b, pat, rep)
    decreases |a|
  {
    var s := a + [c] + b;
    if |a| == 0 {
      assert s == [c] + b;
      ForeignHeadKept(c, b, pat, rep);
    } else if pat <= s {
      MatchStaysLeft(a, c, b, pat);
      ReplaceMatchStep(s, pat, rep);
      ReplaceMatchStep(a, pat, rep);
      ReplaceSplitsAt(a[|pat|..], c, b, pat, rep);
    } else {
      assert !(pat <= a);
      assert s[1..] == a[1..] + [c] + b;
      ReplaceMissStep(s, pat, rep);
      ReplaceMissStep(a, pat, rep);
      ReplaceSplitsAt(a[1..], c, b, pat, rep);
    }
  }

  /** A leading character foreign to the pattern is copied and the scan moves on. */
  lemma ForeignHeadKept(c: char, b: string, pat: string, rep: string)
    requires |pat| > 0
    requires c !in pat
    ensures ReplaceAll([c] + b, pat, rep) == [c] + ReplaceAll(b, pat, rep)
  {
    var s := [c] + b;
    assert pat[0] in pat;
    assert !(pat <= s);
    assert s[1..] == b;
  }

  /** A match at the front cannot reach a character foreign to the pattern. */
  lemma MatchStaysLeft(a: string, c: char, b: string, pat: string)
    requires c !in pat
    requires pat <= a + [c] + b
    ensures pat <= a
    ensures (a + [c] + b)[|pat|..] == a[|pat|..] + [c] + b
  {
    var s := a + [c] + b;
    assert s[|a|] == c;
    assert |pat| <= |a|;
    assert a[..|pat|] == s[..|pat|];
  }
}
