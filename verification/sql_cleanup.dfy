/** `clean_sql_query`: strips Markdown code-fence markers and surrounding whitespace
    from the text the language model returned.

    The markers are removed wherever they occur, not only at the ends of the text,
    so this is plain substring deletion and not a Markdown fenced-code-block parser. */
module SqlCleanup {
  import opened Replace
  import opened Whitespace

  /** The opening marker of a fenced block tagged as SQL. */
  const SqlFence: string := "```sql"

  /** A bare fence marker. */
  const Fence: string := "```"

  /** `s.replace('```sql', '').replace('```', '').strip()`. */
  function CleanSqlQuery(s: string): (r: string)
    ensures IsStripped(r)
    ensures !Contains(r, Fence)
    ensures |r| <= |s|
  {
    var untagged := ReplaceAll(s, SqlFence, []);
    var unfenced := ReplaceAll(untagged, Fence, []);
    NoFenceAfterRemoval(untagged);
    StripKeepsAbsent(unfenced, Fence);
    Strip(unfenced)
  }

  /** A run of `n` backticks. */
  function Ticks(n: nat): (r: string)
    ensures |r| == n
    ensures forall i :: 0 <= i < n ==> r[i] == '`'
  {
    if n == 0 then [] else ['`'] + Ticks(n - 1)
  }

  lemma TicksStartWithFence(n: nat)
    requires n >= 3
    ensures Ticks(n) == Fence + Ticks(n - 3)
  {
    assert Ticks(n)[..3] == Fence;
    assert Ticks(n)[3..] == Ticks(n - 3);
  }

  /** Stripping only cuts characters away, so it cannot create an occurrence. */
  lemma StripKeepsAbsent(t: string, p: string)
    requires !Contains(t, p)
    ensures !Contains(Strip(t), p)
  {
    var i := LeadingSpace(t);
    SliceAvoids(t, p, i, i + |Strip(t)|);
  }

  /** Removing fences from a string that does not start with two backticks gives a
      string that does not start with two backticks. */
  lemma FenceRemovalKeepsShortLead(t: string)
    requires !("``" <= t)
    ensures !("``" <= ReplaceAll(t, Fence, []))
  {
    if |t| > 0 {
      assert !(Fence <= t);
      var u := ReplaceAll(t[1..], Fence, []);
      assert ReplaceAll(t, Fence, []) == [t[0]] + u;
      if t[0] == '`' && |t| > 1 {
        assert t[1] != '`';
        assert !(Fence <= t[1..]);
        assert u == [t[1]] + ReplaceAll(t[2..], Fence, []);
      }
    }
  }

  /** Putting a character in front of a fence-free string keeps it fence-free, unless
      it is a backtick followed by two more. */
  lemma ConsKeepsNoFence(x: char, u: string)
    requires !Contains(u, Fence)
    requires x == '`' ==> !("``" <= u)
    ensures !Contains([x] + u, Fence)
  {
    var r := [x] + u;
    forall i | 0 <= i <= |r| - |Fence|
      ensures !OccursAt(r, Fence, i)
    {
      if i > 0 {
        assert r[i..i + 3] == u[i - 1..i - 1 + 3];
        assert !OccursAt(u, Fence, i - 1);
      } else if x == '`' {
        assert r[1..3] == u[..2];
      } else {
        assert r[0] == x;
      }
    }
  }

  /** After `.replace('```', '')` no three consecutive backticks remain: the scan never
      leaves a run of three behind, and a shortened run is never joined to the next. */
  lemma {:induction false} NoFenceAfterRemoval(s: string)
    ensures !Contains(ReplaceAll(s, Fence, []), Fence)
    decreases |s|
  {
    if |s| == 0 {
    } else if Fence <= s {
      ReplaceMatchStep(s, Fence, []);
      assert [] + ReplaceAll(s[3..], Fence, []) == ReplaceAll(s[3..], Fence, []);
      NoFenceAfterRemoval(s[3..]);
    } else {
      ReplaceMissStep(s, Fence, []);
      NoFenceAfterRemoval(s[1..]);
      if s[0] == '`' {
        assert !("``" <= s[1..]);
        FenceRemovalKeepsShortLead(s[1..]);
      }
      ConsKeepsNoFence(s[0], ReplaceAll(s[1..], Fence, []));
    }
  }

  /** A run of `n` backticks ending at a non-backtick shrinks to `n % 3` backticks. */
  lemma {:induction false} TickRunShrinks(n: nat, t: string)
    requires t == [] || t[0] != '`'
    ensures ReplaceAll(Ticks(n) + t, Fence, []) == Ticks(n % 3) + ReplaceAll(t, Fence, [])
    decreases n
  {
    if n >= 3 {
      var k := n % 3;
      assert (n - 3) % 3 == k;
      LongTickRunStep(n, t);
      TickRunShrinks(n - 3, t);
      assert Ticks((n - 3) % 3) == Ticks(k);
    } else {
      ShortTickRunKept(n, t);
      assert n % 3 == n;
    }
  }

  /** Three leading backticks form a marker and are removed. */
  lemma LongTickRunStep(n: nat, t: string)
    requires n >= 3
    ensures ReplaceAll(Ticks(n) + t, Fence, []) == ReplaceAll(Ticks(n - 3) + t, Fence, [])
  {
    var rest := Ticks(n - 3) + t;
    TicksStartWithFence(n);
    assert Ticks(n) + t == Fence + rest;
    ReplaceLeading(Fence, rest, []);
    assert [] + ReplaceAll(rest, Fence, []) == ReplaceAll(rest, Fence, []);
  }

  /** One or two backticks before a non-backtick are not a marker and stay. */
  lemma ShortTickRunKept(n: nat, t: string)
    requires n < 3
    requires t == [] || t[0] != '`'
    ensures ReplaceAll(Ticks(n) + t, Fence, []) == Ticks(n) + ReplaceAll(t, Fence, [])
  {
    if n == 1 {
      OneTickKept(t);
    } else if n == 2 {
      TwoTicksKept(t);
    } else {
      assert Ticks(n) + t == t;
    }
  }

  lemma OneTickKept(t: string)
    requires t == [] || t[0] != '`'
    ensures ReplaceAll(Ticks(1) + t, Fence, []) == Ticks(1) + ReplaceAll(t, Fence, [])
  {
    var s := Ticks(1) + t;
    assert s == ['`'] + t;
    assert t != [] ==> s[1] == t[0];
    assert !(Fence <= s);
    assert s[1..] == t;
  }

  lemma TwoTicksKept(t: string)
    requires t == [] || t[0] != '`'
    ensures ReplaceAll(Ticks(2) + t, Fence, []) == Ticks(2) + ReplaceAll(t, Fence, [])
  {
    var s := Ticks(2) + t;
    assert s == ['`'] + (['`'] + t);
    assert t != [] ==> s[2] == t[0];
    assert !(Fence <= s);
    assert s[1..] == Ticks(1) + t;
    OneTickKept(t);
  }

  /** Whitespace shares no character with either marker. */
  lemma SpaceIsNotFence(w: string)
    requires AllSpace(w)
    ensures forall c :: c in w ==> c !in SqlFence && c !in Fence
  {
    forall c | c in w
      ensures c !in SqlFence && c !in Fence
    {
      var i :| 0 <= i < |w| && w[i] == c;
      assert IsSpace(w[i]);
    }
  }

  /** Removing either marker passes whitespace on both sides through unchanged. */
  lemma RemoveAroundSpace(w1: string, x: string, w2: string, pat: string)
    requires AllSpace(w1) && AllSpace(w2)
    requires pat == SqlFence || pat == Fence
    ensures ReplaceAll(w1 + x + w2, pat, []) == w1 + ReplaceAll(x, pat, []) + w2
  {
    SpaceIsNotFence(w1);
    SpaceIsNotFence(w2);
    assert pat[0] == '`' && '`' in pat;
    assert w1 + x + w2 == w1 + (x + w2);
    ReplaceFreePrefix(w1, x + w2, pat, []);
    ReplaceFreeSuffix(x, w2, pat, []);
  }

  /** Whitespace around the model's text never changes the cleaned query. */
  lemma CleanIgnoresOuterSpace(w1: string, s: string, w2: string)
    requires AllSpace(w1) && AllSpace(w2)
    ensures CleanSqlQuery(w1 + s + w2) == CleanSqlQuery(s)
  {
    var untagged := ReplaceAll(s, SqlFence, []);
    RemoveAroundSpace(w1, s, w2, SqlFence);
    RemoveAroundSpace(w1, untagged, w2, Fence);
    StripIgnoresOuterSpace(w1, ReplaceAll(untagged, Fence, []), w2);
  }

  /** Stripping before cleaning is redundant. */
  lemma CleanAfterStrip(s: string)
    ensures CleanSqlQuery(Strip(s)) == CleanSqlQuery(s)
  {
    var w1, w2 := StripSplit(s);
    CleanIgnoresOuterSpace(w1, Strip(s), w2);
  }

  /** The cleaner leaves a string alone exactly when it holds no fence and no
      surrounding whitespace. */
  lemma CleanFixedPoint(s: string)
    ensures CleanSqlQuery(s) == s <==> !Contains(s, Fence) && IsStripped(s)
  {
    if !Contains(s, Fence) && IsStripped(s) {
      assert !Contains(s, SqlFence) by {
        forall i | 0 <= i <= |s| - |SqlFence|
          ensures !OccursAt(s, SqlFence, i)
        {
          assert !OccursAt(s, Fence, i);
          assert s[i..i + |SqlFence|][..3] == s[i..i + 3];
        }
      }
      ReplaceAbsent(s, SqlFence, []);
      ReplaceAbsent(s, Fence, []);
      StripStripped(s);
    }
  }

  /** Cleaning twice is cleaning once. */
  lemma CleanIdempotent(s: string)
    ensures CleanSqlQuery(CleanSqlQuery(s)) == CleanSqlQuery(s)
  {
    CleanFixedPoint(CleanSqlQuery(s));
  }

  /** The number of backticks at the end of `s`. */
  function TrailingTicks(s: string): (n: nat)
    ensures n <= |s|
    ensures forall i :: |s| - n <= i < |s| ==> s[i] == '`'
    ensures n == |s| || s[|s| - 1 - n] != '`'
  {
    if |s| > 0 && s[|s| - 1] == '`' then 1 + TrailingTicks(s[..|s| - 1]) else 0
  }

  /** A string without a marker ends in at most two backticks. */
  lemma TrailingTicksShort(s: string)
    requires !Contains(s, Fence)
    ensures TrailingTicks(s) < 3
  {
    if |s| >= 3 {
      assert !OccursAt(s, Fence, |s| - 3);
    }
  }

  lemma TicksAppendFence(k: nat)
    ensures Ticks(k) + Fence == Ticks(k + 3)
  {
  }

  /** A tag marker needs three backticks followed by `sql`, so it cannot end inside a
      closing fence appended to a string without a marker. */
  lemma TagAbsentBeforeFence(body: string)
    requires !Contains(body, Fence)
    ensures !Contains(body + Fence, SqlFence)
  {
    var x := body + Fence;
    forall i | 0 <= i <= |x| - |SqlFence|
      ensures !OccursAt(x, SqlFence, i)
    {
      assert x[i..i + 3] == body[i..i + 3];
      assert !OccursAt(body, Fence, i);
      assert x[i..i + |SqlFence|][..3] == x[i..i + 3];
    }
  }

  /** Removing the tag marker from a fenced block leaves the body and the closing fence. */
  lemma UntagFencedBlock(body: string)
    requires !Contains(body, Fence)
    ensures ReplaceAll(SqlFence + body + Fence, SqlFence, []) == body + Fence
  {
    assert SqlFence + body + Fence == SqlFence + (body + Fence);
    ReplaceLeading(SqlFence, body + Fence, []);
    TagAbsentBeforeFence(body);
    ReplaceAbsent(body + Fence, SqlFence, []);
  }

  /** A closing fence after at most two backticks leaves those backticks. */
  lemma UnfenceShortRun(k: nat)
    requires k < 3
    ensures ReplaceAll(Ticks(k) + Fence, Fence, []) == Ticks(k)
  {
    TicksAppendFence(k);
    assert Ticks(k + 3) + [] == Ticks(k + 3);
    TickRunShrinks(k + 3, []);
    assert (k + 3) % 3 == k;
    assert Ticks(k) + [] == Ticks(k);
  }

  /** A closing fence after a marker-free text ending in a non-backtick and at most two
      backticks leaves exactly that text. */
  lemma UnfenceAfterForeign(a: string, c: char, k: nat)
    requires !Contains(a, Fence) && c != '`' && k < 3
    ensures ReplaceAll(a + [c] + Ticks(k) + Fence, Fence, []) == a + [c] + Ticks(k)
  {
    assert a + [c] + Ticks(k) + Fence == a + [c] + (Ticks(k) + Fence);
    ReplaceSplitsAt(a, c, Ticks(k) + Fence, Fence, []);
    ReplaceAbsent(a, Fence, []);
    UnfenceShortRun(k);
  }

  /** Removing the bare marker from a marker-free body followed by the closing fence
      leaves the body, backtick-quoted identifiers included. */
  lemma UnfenceBody(body: string)
    requires !Contains(body, Fence)
    ensures ReplaceAll(body + Fence, Fence, []) == body
  {
    var k := TrailingTicks(body);
    TrailingTicksShort(body);
    var n := |body| - k;
    assert body[n..] == Ticks(k);
    if n == 0 {
      assert body == Ticks(k);
      UnfenceShortRun(k);
    } else {
      var a := body[..n - 1];
      assert body == a + [body[n - 1]] + Ticks(k);
      SliceAvoids(body, Fence, 0, n - 1);
      UnfenceAfterForeign(a, body[n - 1], k);
    }
  }

  /** A whole fenced SQL block yields its body without surrounding whitespace.
      `'```sql'` is removed before the bare marker, so no stray `sql` tag is left in
      front of the query. */
  lemma CleanFencedBlock(body: string)
    requires !Contains(body, Fence)
    ensures CleanSqlQuery(SqlFence + body + Fence) == Strip(body)
  {
    UntagFencedBlock(body);
    UnfenceBody(body);
  }

  /** The same holds when the block itself is indented or followed by blank lines. */
  lemma CleanPaddedFencedBlock(pre: string, body: string, post: string)
    requires AllSpace(pre) && AllSpace(post)
    requires !Contains(body, Fence)
    ensures CleanSqlQuery(pre + (SqlFence + body + Fence) + post) == Strip(body)
  {
    CleanIgnoresOuterSpace(pre, SqlFence + body + Fence, post);
    CleanFencedBlock(body);
  }

  /** Text without any backtick has no marker in it. */
  lemma NoTickNoFence(s: string)
    requires '`' !in s
    ensures !Contains(s, Fence)
  {
    forall i | 0 <= i <= |s| - |Fence|
      ensures !OccursAt(s, Fence, i)
    {
      assert s[i] in s;
      assert s[i..i + |Fence|][0] == s[i];
    }
  }

  /** A fenced block with the query on its own line. */
  lemma CleanMultiLineExample()
    ensures CleanSqlQuery("```sql\nSELECT 1;\n```") == "SELECT 1;"
  {
    MultiLineBlockShape();
    NoTickNoFence("\nSELECT 1;\n");
    CleanFencedBlock("\nSELECT 1;\n");
    StripLineBreaks();
  }

  lemma MultiLineBlockShape()
    ensures SqlFence + "\nSELECT 1;\n" + Fence == "```sql\nSELECT 1;\n```"
  {
  }

  lemma StripLineBreaks()
    ensures Strip("\nSELECT 1;\n") == "SELECT 1;"
  {
    assert "\n" + "SELECT 1;" + "\n" == "\nSELECT 1;\n";
    StripCharacterization("\n", "SELECT 1;", "\n");
  }

  /** A fenced block glued to the query on one line. */
  lemma CleanGluedExample()
    ensures CleanSqlQuery("```sqlSELECT 1;```") == "SELECT 1;"
  {
    assert SqlFence + "SELECT 1;" + Fence == "```sqlSELECT 1;```";
    NoTickNoFence("SELECT 1;");
    CleanFencedBlock("SELECT 1;");
    StripStripped("SELECT 1;");
  }

  /** Why the tagged marker goes first: with the two removals swapped, the tag of a
      glued block would survive as a `sql` prefix of the query. */
  lemma SwappedOrderKeepsTag()
    ensures ReplaceAll(ReplaceAll("```sqlSELECT 1;```", Fence, []), SqlFence, [])
         == "sqlSELECT 1;"
  {
    FenceFirstLeavesTag();
    TagWithoutFenceKept();
  }

  lemma FenceFirstLeavesTag()
    ensures ReplaceAll("```sqlSELECT 1;```", Fence, []) == "sqlSELECT 1;"
  {
    var q := "sqlSELECT 1;";
    assert "```sqlSELECT 1;```" == Fence + (q + Fence);
    ReplaceLeading(Fence, q + Fence, []);
    NoTickNoFence(q);
    UnfenceBody(q);
  }

  lemma TagWithoutFenceKept()
    ensures ReplaceAll("sqlSELECT 1;", SqlFence, []) == "sqlSELECT 1;"
  {
    var q := "sqlSELECT 1;";
    assert q == q + [];
    ReplaceFreePrefix(q, [], SqlFence, []);
  }

  /** `TickRunShrinks` describes the bare-marker pass alone. Over the whole cleanup the
      tag pass can join runs first: here a run of five backticks and a run of one meet
      once `'```sql'` is gone, and the bare-marker pass then removes all of them. */
  lemma TagRemovalJoinsTickRuns()
    ensures CleanSqlQuery("`````sql`") == ""
  {
    TagRemovalLeavesFence();
    assert Fence == Fence + [];
    ReplaceLeading(Fence, [], []);
  }

  lemma TagRemovalLeavesFence()
    ensures ReplaceAll("`````sql`", SqlFence, []) == Fence
  {
    var s := "`````sql`";
    assert s[3] != SqlFence[3];
    ReplaceMissStep(s, SqlFence, []);
    assert s[1..] == "````sql`";
    ReplaceMissStep(s[1..], SqlFence, []);
    assert s[1..][1..] == SqlFence + "`";
    ReplaceLeading(SqlFence, "`", []);
    ReplaceAbsent("`", SqlFence, []);
  }
}
