/**
  Stepping laws for the left-to-right scanners of `Text`: across a stretch
  where a scanner finds nothing, it copies (or skips) the stretch. The worked
  examples evaluate the scanners on literal class names with these.
 */
module Scans {
  import opened Text

  lemma {:induction false} RemoveFromAppend(a: string, b: string, c: char, i: nat)
    requires i <= |a|
    ensures RemoveFrom(a + b, c, i) == RemoveFrom(a, c, i) + Remove(b, c)
    decreases |a| - i
  {
    if i < |a| {
      RemoveFromAppend(a, b, c, i + 1);
      assert (a + b)[i] == a[i];
    } else {
      RemoveFromShift(a, b, c, 0);
    }
  }

  lemma {:induction false} RemoveFromShift(a: string, b: string, c: char, k: nat)
    requires k <= |b|
    ensures RemoveFrom(a + b, c, |a| + k) == RemoveFrom(b, c, k)
    decreases |b| - k
  {
    if k < |b| {
      RemoveFromShift(a, b, c, k + 1);
      assert (a + b)[|a| + k] == b[k];
    }
  }

  /** Dropping a character distributes over concatenation. */
  lemma RemoveAppend(a: string, b: string, c: char)
    ensures Remove(a + b, c) == Remove(a, c) + Remove(b, c)
  {
    RemoveFromAppend(a, b, c, 0);
  }

  /** `a-b` loses its one hyphen. */
  lemma RemoveJoined(s: string, a: string, b: string)
    requires s == a + "-" + b && '-' !in a && '-' !in b
    ensures Remove(s, '-') == a + b
  {
    RemoveAppend(a + "-", b, '-');
    RemoveAppend(a, "-", '-');
    assert Remove("-", '-') == RemoveFrom("-", '-', 1);
  }

  lemma {:induction false} MatchAllSkip(s: string, alts: seq<string>, i: nat, j: nat)
    requires i <= j <= |s|
    requires forall a :: 0 <= a < |alts| ==> |alts[a]| > 0
    requires forall k, a :: i <= k < j && 0 <= a < |alts| ==> !MatchAt(s, k, alts[a])
    ensures MatchAllFrom(s, alts, i) == MatchAllFrom(s, alts, j)
    decreases j - i
  {
    if i < j {
      assert FirstAlt(s, i, alts, 0) == |alts|;
      MatchAllSkip(s, alts, i + 1, j);
    }
  }

  /** A match of the first alternative that fits at `i` is taken, and the scan resumes after it. */
  lemma MatchAllHit(s: string, alts: seq<string>, i: nat, a: nat)
    requires i < |s| && a < |alts|
    requires forall b :: 0 <= b < |alts| ==> |alts[b]| > 0
    requires MatchAt(s, i, alts[a]) && forall b :: 0 <= b < a ==> !MatchAt(s, i, alts[b])
    ensures MatchAllFrom(s, alts, i) == [alts[a]] + MatchAllFrom(s, alts, i + |alts[a]|)
  {
    FirstAltIs(s, i, alts, a, 0);
  }

  /** The end of the alternative the alternation picks. */
  lemma AltEndOf(s: string, i: nat, alts: seq<string>, a: nat)
    requires i <= |s| && a < |alts| && FirstAlt(s, i, alts, 0) == a
    ensures AltEnd(s, i, alts) == i + |alts[a]|
  {
  }

  /** With no alternative matching, nothing is consumed. */
  lemma AltEndNone(s: string, i: nat, alts: seq<string>)
    requires i <= |s| && FirstAlt(s, i, alts, 0) == |alts|
    ensures AltEnd(s, i, alts) == i
  {
  }

  lemma {:induction false} FirstAltIs(s: string, i: nat, alts: seq<string>, a: nat, k: nat)
    requires k <= a < |alts|
    requires MatchAt(s, i, alts[a]) && forall b :: k <= b < a ==> !MatchAt(s, i, alts[b])
    ensures FirstAlt(s, i, alts, k) == a
    decreases a - k
  {
    if k < a {
      FirstAltIs(s, i, alts, a, k + 1);
    }
  }

  lemma {:induction false} ReplaceAllSkip(s: string, pat: string, rep: string, i: nat, j: nat)
    requires |pat| > 0 && i <= j <= |s|
    requires forall k :: i <= k < j ==> !MatchAt(s, k, pat)
    ensures ReplaceAllFrom(s, pat, rep, i) == s[i..j] + ReplaceAllFrom(s, pat, rep, j)
    decreases j - i
  {
    if i < j {
      var rest := ReplaceAllFrom(s, pat, rep, j);
      ReplaceAllStep(s, pat, rep, i);
      ReplaceAllSkip(s, pat, rep, i + 1, j);
      ConsSlice(s, i, j, rest);
    }
  }

  lemma ReplaceAllStep(s: string, pat: string, rep: string, i: nat)
    requires |pat| > 0 && i < |s| && !MatchAt(s, i, pat)
    ensures ReplaceAllFrom(s, pat, rep, i) == [s[i]] + ReplaceAllFrom(s, pat, rep, i + 1)
  {
  }

  /** Putting back the first character of a stretch in front of it. */
  lemma ConsSlice(s: string, i: nat, j: nat, rest: string)
    requires i < j <= |s|
    ensures [s[i]] + (s[i + 1..j] + rest) == s[i..j] + rest
  {
    assert s[i..j] == [s[i]] + s[i + 1..j];
  }

  lemma {:induction false} ReplaceFirstSkip(s: string, pat: string, rep: string, i: nat, j: nat)
    requires i <= j && j + |pat| <= |s|
    requires forall k :: i <= k < j ==> !MatchAt(s, k, pat)
    ensures ReplaceFirstFrom(s, pat, rep, i) == s[i..j] + ReplaceFirstFrom(s, pat, rep, j)
    decreases j - i
  {
    if i < j {
      var rest := ReplaceFirstFrom(s, pat, rep, j);
      ReplaceFirstStep(s, pat, rep, i);
      ReplaceFirstSkip(s, pat, rep, i + 1, j);
      ConsSlice(s, i, j, rest);
    }
  }

  lemma ReplaceFirstStep(s: string, pat: string, rep: string, i: nat)
    requires i + |pat| <= |s| && !MatchAt(s, i, pat)
    ensures ReplaceFirstFrom(s, pat, rep, i) == [s[i]] + ReplaceFirstFrom(s, pat, rep, i + 1)
  {
  }

  lemma {:induction false} CollapseSkip(s: string, cs: set<char>, rep: char, i: nat, j: nat)
    requires i <= j <= |s|
    requires forall k :: i <= k < j ==> s[k] !in cs
    ensures CollapseFrom(s, cs, rep, i) == s[i..j] + CollapseFrom(s, cs, rep, j)
    decreases j - i
  {
    if i < j {
      var rest := CollapseFrom(s, cs, rep, j);
      CollapseStep(s, cs, rep, i);
      CollapseSkip(s, cs, rep, i + 1, j);
      ConsSlice(s, i, j, rest);
    }
  }

  lemma CollapseStep(s: string, cs: set<char>, rep: char, i: nat)
    requires i < |s| && s[i] !in cs
    ensures CollapseFrom(s, cs, rep, i) == [s[i]] + CollapseFrom(s, cs, rep, i + 1)
  {
  }
}
