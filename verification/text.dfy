/**
  String primitives: the JavaScript string operations the compiler uses
  (`toLowerCase`, `split`, `startsWith`, `includes`, `replace` with a string or a
  global regular expression), written on `seq<char>`.

  Scanners are written over an index (`F(s, i)` looks at `s[i..]`) rather than by
  slicing, so that they can be unfolded on concrete strings.
 */
module Text {

  predicate IsDigit(c: char) { '0' <= c <= '9' }
  predicate IsLower(c: char) { 'a' <= c <= 'z' }
  predicate IsUpper(c: char) { 'A' <= c <= 'Z' }
  predicate IsLetter(c: char) { IsLower(c) || IsUpper(c) }

  /** The `\w` class of a JavaScript regular expression. */
  predicate IsWordChar(c: char) { IsLetter(c) || IsDigit(c) || c == '_' }

  /** The `\s` class of a JavaScript regular expression (white space and line terminators). */
  predicate IsSpace(c: char) {
    || c == ' ' || c == '\t' || c == '\n' || c == '\r' || c == '\U{0B}' || c == '\U{0C}'
    || c == '\U{A0}' || c == '\U{1680}' || ('\U{2000}' <= c <= '\U{200A}')
    || c == '\U{2028}' || c == '\U{2029}' || c == '\U{202F}' || c == '\U{205F}'
    || c == '\U{3000}' || c == '\U{FEFF}'
  }

  predicate AllSpace(s: string) { forall k :: 0 <= k < |s| ==> IsSpace(s[k]) }

  /** Concatenation regroups freely. */
  lemma Assoc<T>(h: seq<T>, u: seq<T>, v: seq<T>)
    ensures h + (u + v) == (h + u) + v
  {
  }

  // ---------------------------------------------------------------------------
  // Case mapping

  function LowerChar(c: char): char
  {
    if IsUpper(c) then (c as int + 32) as char else c
  }

  function LowerFrom(s: string, i: nat): (r: string)
    requires i <= |s|
    ensures |r| == |s| - i
    ensures forall k :: 0 <= k < |r| ==> r[k] == LowerChar(s[i + k])
    decreases |s| - i
  {
    if i == |s| then [] else [LowerChar(s[i])] + LowerFrom(s, i + 1)
  }

  /** `toLowerCase`, on the ASCII letters. */
  function Lower(s: string): (r: string)
    ensures |r| == |s|
    ensures forall k :: 0 <= k < |s| ==> r[k] == LowerChar(s[k])
    ensures forall k :: 0 <= k < |s| ==> !IsUpper(r[k])
  {
    LowerFrom(s, 0)
  }

  // ---------------------------------------------------------------------------
  // Literal matching

  predicate SameFrom(s: string, i: nat, pat: string, k: nat)
    requires k <= |pat| && i + |pat| <= |s|
    decreases |pat| - k
  {
    k == |pat| || (s[i + k] == pat[k] && SameFrom(s, i, pat, k + 1))
  }

  /** `pat` occurs in `s` at index `i`. */
  predicate MatchAt(s: string, i: nat, pat: string)
  {
    i + |pat| <= |s| && SameFrom(s, i, pat, 0)
  }

  lemma {:induction false} SameFromSlice(s: string, i: nat, pat: string, k: nat)
    requires k <= |pat| && i + |pat| <= |s|
    ensures SameFrom(s, i, pat, k) <==> s[i + k..i + |pat|] == pat[k..]
    decreases |pat| - k
  {
    if k < |pat| {
      SameFromSlice(s, i, pat, k + 1);
      assert s[i + k..i + |pat|] == [s[i + k]] + s[i + k + 1..i + |pat|];
      assert pat[k..] == [pat[k]] + pat[k + 1..];
    }
  }

  /** Index matching agrees with slicing. */
  lemma MatchAtSlice(s: string, i: nat, pat: string)
    ensures MatchAt(s, i, pat) <==> i + |pat| <= |s| && s[i..i + |pat|] == pat
  {
    if i + |pat| <= |s| {
      SameFromSlice(s, i, pat, 0);
    }
  }

  predicate StartsWith(s: string, prefix: string)
  {
    MatchAt(s, 0, prefix)
  }

  predicate ContainsFrom(s: string, pat: string, i: nat)
    decreases |s| - i
  {
    i + |pat| <= |s| && (MatchAt(s, i, pat) || ContainsFrom(s, pat, i + 1))
  }

  /** `includes`. */
  predicate Contains(s: string, pat: string)
  {
    ContainsFrom(s, pat, 0)
  }

  lemma {:induction false} ContainsFromWitness(s: string, pat: string, i: nat)
    ensures ContainsFrom(s, pat, i) <==> exists k :: i <= k && MatchAt(s, k, pat)
    decreases |s| - i
  {
    if i + |pat| <= |s| {
      ContainsFromWitness(s, pat, i + 1);
      if !MatchAt(s, i, pat) {
        forall k | i <= k && MatchAt(s, k, pat) ensures i + 1 <= k { }
      }
    }
  }

  /** `includes` finds the pattern exactly when it occurs somewhere. */
  lemma ContainsWitness(s: string, pat: string)
    ensures Contains(s, pat) <==> exists k :: MatchAt(s, k, pat)
  {
    ContainsFromWitness(s, pat, 0);
  }

  // ---------------------------------------------------------------------------
  // replace(/<pat>/g, rep) and replace("<pat>", rep)

  function ReplaceAllFrom(s: string, pat: string, rep: string, i: nat): string
    requires |pat| > 0 && i <= |s|
    decreases |s| - i
  {
    if i == |s| then []
    else if MatchAt(s, i, pat) then rep + ReplaceAllFrom(s, pat, rep, i + |pat|)
    else [s[i]] + ReplaceAllFrom(s, pat, rep, i + 1)
  }

  /** Replaces every non-overlapping occurrence of `pat`, scanning left to right. */
  function ReplaceAll(s: string, pat: string, rep: string): string
    requires |pat| > 0
  {
    ReplaceAllFrom(s, pat, rep, 0)
  }

  lemma {:induction false} ReplaceAllFromAbsent(s: string, pat: string, rep: string, i: nat)
    requires |pat| > 0 && i <= |s|
    requires !ContainsFrom(s, pat, i)
    ensures ReplaceAllFrom(s, pat, rep, i) == s[i..]
    decreases |s| - i
  {
    if i < |s| {
      assert !MatchAt(s, i, pat);
      if i + |pat| <= |s| {
        ReplaceAllFromAbsent(s, pat, rep, i + 1);
      } else {
        NoMatchNearEnd(s, pat, i + 1);
        ReplaceAllFromAbsent(s, pat, rep, i + 1);
      }
      assert s[i..] == [s[i]] + s[i + 1..];
    }
  }

  lemma {:induction false} NoMatchNearEnd(s: string, pat: string, i: nat)
    requires |s| < i + |pat|
    ensures !ContainsFrom(s, pat, i)
  {
  }

  /** Replacing a pattern that does not occur changes nothing. */
  lemma ReplaceAllAbsent(s: string, pat: string, rep: string)
    requires |pat| > 0 && !Contains(s, pat)
    ensures ReplaceAll(s, pat, rep) == s
  {
    ReplaceAllFromAbsent(s, pat, rep, 0);
  }

  function ReplaceFirstFrom(s: string, pat: string, rep: string, i: nat): string
    requires i <= |s|
    decreases |s| - i
  {
    if i + |pat| > |s| then s[i..]
    else if MatchAt(s, i, pat) then rep + s[i + |pat|..]
    else [s[i]] + ReplaceFirstFrom(s, pat, rep, i + 1)
  }

  /** `replace` with a string pattern: only the first occurrence is replaced. */
  function ReplaceFirst(s: string, pat: string, rep: string): string
  {
    ReplaceFirstFrom(s, pat, rep, 0)
  }

  // ---------------------------------------------------------------------------
  // Runs: the greedy `c+` and `\s*`

  /** The end of the run of `c` starting at `i`. */
  function CharRunEnd(s: string, i: nat, c: char): (j: nat)
    requires i <= |s|
    ensures i <= j <= |s|
    ensures forall k :: i <= k < j ==> s[k] == c
    ensures j == |s| || s[j] != c
    decreases |s| - i
  {
    if i < |s| && s[i] == c then CharRunEnd(s, i + 1, c) else i
  }

  /** The end of the run of white space starting at `i`. */
  function SpaceEnd(s: string, i: nat): (j: nat)
    requires i <= |s|
    ensures i <= j <= |s|
    ensures forall k :: i <= k < j ==> IsSpace(s[k])
    ensures j == |s| || !IsSpace(s[j])
    decreases |s| - i
  {
    if i < |s| && IsSpace(s[i]) then SpaceEnd(s, i + 1) else i
  }

  // ---------------------------------------------------------------------------
  // replace(/[<cs>]+/g, rep) and replace(/<c>+/g, '')

  function CollapseFrom(s: string, cs: set<char>, rep: char, i: nat): (r: string)
    requires i <= |s|
    ensures |r| <= |s| - i
    ensures rep !in cs ==> forall k :: 0 <= k < |r| ==> r[k] !in cs
    ensures (forall k :: i <= k < |s| ==> s[k] !in cs) ==> r == s[i..]
    decreases |s| - i
  {
    if i == |s| then []
    else if s[i] in cs then
      (if i > 0 && s[i - 1] in cs then [] else [rep]) + CollapseFrom(s, cs, rep, i + 1)
    else
      assert s[i..] == [s[i]] + s[i + 1..];
      [s[i]] + CollapseFrom(s, cs, rep, i + 1)
  }

  /**
    Replaces every maximal run of characters from `cs` by the single character `rep`
    (a global regular expression `[cs]+`).
   */
  function CollapseRuns(s: string, cs: set<char>, rep: char): (r: string)
    ensures |r| <= |s|
    ensures rep !in cs ==> forall k :: 0 <= k < |r| ==> r[k] !in cs
    ensures (forall k :: 0 <= k < |s| ==> s[k] !in cs) ==> r == s
  {
    CollapseFrom(s, cs, rep, 0)
  }

  /** `rep` in place of every character of `cs`, one for one. */
  function MapChars(s: string, cs: set<char>, rep: char): (r: string)
    ensures |r| == |s|
    ensures forall k :: 0 <= k < |s| ==> r[k] == (if s[k] in cs then rep else s[k])
  {
    if |s| == 0 then [] else MapChars(s[..|s| - 1], cs, rep) + [if s[|s| - 1] in cs then rep else s[|s| - 1]]
  }

  predicate NoAdjacent(s: string, cs: set<char>)
  {
    forall k :: 0 < k < |s| ==> !(s[k - 1] in cs && s[k] in cs)
  }

  lemma {:induction false} CollapseFromSingles(s: string, cs: set<char>, rep: char, i: nat)
    requires i <= |s| && NoAdjacent(s, cs)
    ensures CollapseFrom(s, cs, rep, i) == MapChars(s[i..], cs, rep)
    decreases |s| - i
  {
    if i < |s| {
      CollapseFromSingles(s, cs, rep, i + 1);
      var a := CollapseFrom(s, cs, rep, i);
      var b := MapChars(s[i..], cs, rep);
      assert |a| == |b|;
      forall k | 0 <= k < |a| ensures a[k] == b[k] {
        if k > 0 {
          assert a[k] == CollapseFrom(s, cs, rep, i + 1)[k - 1];
        }
      }
    }
  }

  /** With no two set characters adjacent, collapsing runs is a one-for-one replacement. */
  lemma CollapseSingles(s: string, cs: set<char>, rep: char)
    requires NoAdjacent(s, cs)
    ensures CollapseRuns(s, cs, rep) == MapChars(s, cs, rep)
  {
    CollapseFromSingles(s, cs, rep, 0);
  }

  /** No run of `cs` crosses the boundary between `a` and `b`. */
  predicate RunBoundary(a: string, b: string, cs: set<char>)
  {
    |a| == 0 || |b| == 0 || a[|a| - 1] !in cs || b[0] !in cs
  }

  lemma {:induction false} CollapseFromAppend(a: string, b: string, cs: set<char>, rep: char, i: nat)
    requires i <= |a|
    ensures CollapseFrom(a + b, cs, rep, i) == CollapseFrom(a, cs, rep, i) + CollapseFrom(a + b, cs, rep, |a|)
    decreases |a| - i
  {
    if i < |a| {
      var s := a + b;
      CollapseFromAppend(a, b, cs, rep, i + 1);
      assert s[i] == a[i];
      assert i > 0 ==> s[i - 1] == a[i - 1];
      var h := if a[i] in cs then (if i > 0 && a[i - 1] in cs then [] else [rep]) else [a[i]];
      assert CollapseFrom(s, cs, rep, i) == h + CollapseFrom(s, cs, rep, i + 1);
      assert CollapseFrom(a, cs, rep, i) == h + CollapseFrom(a, cs, rep, i + 1);
      Assoc(h, CollapseFrom(a, cs, rep, i + 1), CollapseFrom(s, cs, rep, |a|));
    }
  }

  lemma {:induction false} CollapseFromShift(a: string, b: string, cs: set<char>, rep: char, k: nat)
    requires k <= |b|
    requires k > 0 || RunBoundary(a, b, cs)
    ensures CollapseFrom(a + b, cs, rep, |a| + k) == CollapseFrom(b, cs, rep, k)
    decreases |b| - k
  {
    if k < |b| {
      CollapseFromShift(a, b, cs, rep, k + 1);
      assert (a + b)[|a| + k] == b[k];
      if k > 0 {
        assert (a + b)[|a| + k - 1] == b[k - 1];
      } else if |a| > 0 {
        assert (a + b)[|a| - 1] == a[|a| - 1];
      }
    }
  }

  /** Collapsing distributes over a concatenation that does not cut a run in two. */
  lemma CollapseAppend(a: string, b: string, cs: set<char>, rep: char)
    requires RunBoundary(a, b, cs)
    ensures CollapseRuns(a + b, cs, rep) == CollapseRuns(a, cs, rep) + CollapseRuns(b, cs, rep)
  {
    CollapseFromAppend(a, b, cs, rep, 0);
    CollapseFromShift(a, b, cs, rep, 0);
  }

  lemma {:induction false} CollapseFromInRun(u: string, cs: set<char>, rep: char, i: nat)
    requires 0 < i <= |u|
    requires forall k :: 0 <= k < |u| ==> u[k] in cs
    ensures CollapseFrom(u, cs, rep, i) == []
    decreases |u| - i
  {
    if i < |u| {
      CollapseFromInRun(u, cs, rep, i + 1);
    }
  }

  /** A whole non-empty run of `cs` becomes the single character `rep`. */
  lemma CollapseRun(u: string, cs: set<char>, rep: char)
    requires |u| > 0 && forall k :: 0 <= k < |u| ==> u[k] in cs
    ensures CollapseRuns(u, cs, rep) == [rep]
  {
    CollapseFromInRun(u, cs, rep, 1);
  }

  /**
    A maximal run `u` of `cs` between `a` and `b` becomes exactly one `rep`, and
    the text on either side is collapsed on its own.
   */
  lemma CollapseRunBetween(a: string, u: string, b: string, cs: set<char>, rep: char)
    requires |u| > 0 && forall k :: 0 <= k < |u| ==> u[k] in cs
    requires |a| == 0 || a[|a| - 1] !in cs
    requires |b| == 0 || b[0] !in cs
    ensures CollapseRuns(a + u + b, cs, rep) == CollapseRuns(a, cs, rep) + [rep] + CollapseRuns(b, cs, rep)
  {
    CollapseAppend(a, u, cs, rep);
    assert (a + u)[|a + u| - 1] == u[|u| - 1];
    CollapseAppend(a + u, b, cs, rep);
    CollapseRun(u, cs, rep);
  }

  function RemoveFrom(s: string, c: char, i: nat): (r: string)
    requires i <= |s|
    ensures |r| <= |s| - i
    ensures c !in r
    ensures c !in s[i..] ==> r == s[i..]
    decreases |s| - i
  {
    if i == |s| then []
    else if s[i] == c then RemoveFrom(s, c, i + 1)
    else
      assert s[i..] == [s[i]] + s[i + 1..];
      [s[i]] + RemoveFrom(s, c, i + 1)
  }

  /** Deletes every occurrence of `c` (`replace(/-+/g, '')` for `c == '-'`). */
  function Remove(s: string, c: char): (r: string)
    ensures |r| <= |s| && c !in r
    ensures c !in s ==> r == s
  {
    RemoveFrom(s, c, 0)
  }

  lemma {:induction false} RemoveFromCounts(s: string, c: char, i: nat)
    requires i <= |s|
    ensures |RemoveFrom(s, c, i)| == |s| - i - multiset(s[i..])[c]
    ensures forall x :: x != c ==> multiset(RemoveFrom(s, c, i))[x] == multiset(s[i..])[x]
    decreases |s| - i
  {
    if i < |s| {
      RemoveFromCounts(s, c, i + 1);
      assert s[i..] == [s[i]] + s[i + 1..];
    }
  }

  /**
    Deleting `c` keeps everything else: the result is shorter by the number of
    `c`s, and every other character occurs in it as often as in `s`.
   */
  lemma RemoveCounts(s: string, c: char)
    ensures |Remove(s, c)| == |s| - multiset(s)[c]
    ensures forall x :: x != c ==> multiset(Remove(s, c))[x] == multiset(s)[x]
  {
    RemoveFromCounts(s, c, 0);
    assert s[0..] == s;
  }

  // ---------------------------------------------------------------------------
  // match(/(a|b|...)/g) for literal alternatives

  /** The index of the first alternative (from `k` on) that occurs at `i`. */
  function FirstAlt(s: string, i: nat, alts: seq<string>, k: nat): (r: nat)
    requires k <= |alts|
    ensures k <= r <= |alts|
    ensures r < |alts| ==> MatchAt(s, i, alts[r])
    ensures forall j {:trigger MatchAt(s, i, alts[j])} :: k <= j < r ==> !MatchAt(s, i, alts[j])
    decreases |alts| - k
  {
    if k == |alts| || MatchAt(s, i, alts[k]) then k else FirstAlt(s, i, alts, k + 1)
  }

  /** The position after the first alternative of `alts` that matches at `i`, or `i` when none does. */
  function AltEnd(s: string, i: nat, alts: seq<string>): (e: nat)
    requires i <= |s|
    ensures i <= e <= |s|
  {
    var a := FirstAlt(s, i, alts, 0);
    if a < |alts| then i + |alts[a]| else i
  }

  function MatchAllFrom(s: string, alts: seq<string>, i: nat): (r: seq<string>)
    requires i <= |s|
    requires forall j :: 0 <= j < |alts| ==> |alts[j]| > 0
    ensures forall j :: 0 <= j < |r| ==> r[j] in alts
    decreases |s| - i
  {
    if i == |s| then []
    else
      var a := FirstAlt(s, i, alts, 0);
      if a < |alts| then [alts[a]] + MatchAllFrom(s, alts, i + |alts[a]|)
      else MatchAllFrom(s, alts, i + 1)
  }

  /** The list a global `match` returns for an alternation of literals (empty for `null`). */
  function MatchAll(s: string, alts: seq<string>): (r: seq<string>)
    requires forall j :: 0 <= j < |alts| ==> |alts[j]| > 0
    ensures forall j :: 0 <= j < |r| ==> r[j] in alts
  {
    MatchAllFrom(s, alts, 0)
  }

  lemma {:induction false} MatchAllFromNone(s: string, alts: seq<string>, i: nat)
    requires i <= |s|
    requires forall j :: 0 <= j < |alts| ==> |alts[j]| > 0
    requires forall j :: 0 <= j < |alts| ==> !ContainsFrom(s, alts[j], i)
    ensures MatchAllFrom(s, alts, i) == []
    decreases |s| - i
  {
    if i < |s| {
      forall j | 0 <= j < |alts| ensures !ContainsFrom(s, alts[j], i + 1) && !MatchAt(s, i, alts[j]) {
        if i + |alts[j]| > |s| { NoMatchNearEnd(s, alts[j], i + 1); }
      }
      MatchAllFromNone(s, alts, i + 1);
    }
  }

  /** A global match finds nothing when no alternative occurs. */
  lemma MatchAllNone(s: string, alts: seq<string>)
    requires forall j :: 0 <= j < |alts| ==> |alts[j]| > 0
    requires forall j :: 0 <= j < |alts| ==> !Contains(s, alts[j])
    ensures MatchAll(s, alts) == []
  {
    MatchAllFromNone(s, alts, 0);
  }

  /** Every occurrence of an alternative that starts in `a` also ends in `a`. */
  predicate NoStraddle(a: string, b: string, alts: seq<string>)
  {
    forall i, j :: 0 <= i < |a| && 0 <= j < |alts| && MatchAt(a + b, i, alts[j]) ==> i + |alts[j]| <= |a|
  }

  lemma MatchAtPrefix(a: string, b: string, i: nat, p: string)
    requires i + |p| <= |a|
    ensures MatchAt(a + b, i, p) <==> MatchAt(a, i, p)
  {
    MatchAtSlice(a + b, i, p);
    MatchAtSlice(a, i, p);
    assert (a + b)[i..i + |p|] == a[i..i + |p|];
  }

  lemma MatchAtShift(a: string, b: string, k: nat, p: string)
    ensures MatchAt(a + b, |a| + k, p) <==> MatchAt(b, k, p)
  {
    MatchAtSlice(a + b, |a| + k, p);
    MatchAtSlice(b, k, p);
    if k + |p| <= |b| {
      assert (a + b)[|a| + k..|a| + k + |p|] == b[k..k + |p|];
    }
  }

  /** Two positions where the same alternatives match pick the same one. */
  lemma {:induction false} FirstAltSame(s: string, i: nat, t: string, j: nat, alts: seq<string>, k: nat)
    requires k <= |alts|
    requires forall m :: k <= m < |alts| ==> (MatchAt(s, i, alts[m]) <==> MatchAt(t, j, alts[m]))
    ensures FirstAlt(s, i, alts, k) == FirstAlt(t, j, alts, k)
    decreases |alts| - k
  {
    if k < |alts| {
      FirstAltSame(s, i, t, j, alts, k + 1);
    }
  }

  /** Before the boundary, with no occurrence straddling it, the alternation picks the same alternative in `a` as in `a + b`. */
  lemma FirstAltPrefix(a: string, b: string, alts: seq<string>, i: nat)
    requires i < |a| && NoStraddle(a, b, alts)
    ensures FirstAlt(a + b, i, alts, 0) == FirstAlt(a, i, alts, 0)
  {
    forall m | 0 <= m < |alts| ensures MatchAt(a + b, i, alts[m]) <==> MatchAt(a, i, alts[m]) {
      if i + |alts[m]| <= |a| {
        MatchAtPrefix(a, b, i, alts[m]);
      }
    }
    FirstAltSame(a + b, i, a, i, alts, 0);
  }

  /** The matches the scan from `i` makes before reaching `p`. */
  function MatchAllUpTo(s: string, alts: seq<string>, i: nat, p: nat): seq<string>
    requires p <= |s|
    requires forall j :: 0 <= j < |alts| ==> |alts[j]| > 0
    decreases p - i
  {
    if i >= p then []
    else
      var f := FirstAlt(s, i, alts, 0);
      if f < |alts| then [alts[f]] + MatchAllUpTo(s, alts, i + |alts[f]|, p)
      else MatchAllUpTo(s, alts, i + 1, p)
  }

  /** Every match the scan can pick before `p` ends by `p`. */
  predicate EndsBy(s: string, alts: seq<string>, p: nat)
  {
    forall k :: 0 <= k < p ==> FirstAlt(s, k, alts, 0) < |alts| ==> k + |alts[FirstAlt(s, k, alts, 0)]| <= p
  }

  lemma {:induction false} MatchAllFromUpTo(s: string, alts: seq<string>, i: nat, p: nat)
    requires i <= p <= |s|
    requires forall j :: 0 <= j < |alts| ==> |alts[j]| > 0
    requires EndsBy(s, alts, p)
    ensures MatchAllFrom(s, alts, i) == MatchAllUpTo(s, alts, i, p) + MatchAllFrom(s, alts, p)
    decreases p - i
  {
    if i < p {
      var f := FirstAlt(s, i, alts, 0);
      var n := if f < |alts| then i + |alts[f]| else i + 1;
      MatchAllFromUpTo(s, alts, n, p);
      UpToStep(s, alts, i, p, f, n);
    }
  }

  /** One step of the scan below `p` keeps the scan from `i` split at `p`. */
  lemma UpToStep(s: string, alts: seq<string>, i: nat, p: nat, f: nat, n: nat)
    requires i < p <= |s|
    requires forall j :: 0 <= j < |alts| ==> |alts[j]| > 0
    requires f == FirstAlt(s, i, alts, 0) && n == (if f < |alts| then i + |alts[f]| else i + 1) && n <= p
    requires MatchAllFrom(s, alts, n) == MatchAllUpTo(s, alts, n, p) + MatchAllFrom(s, alts, p)
    ensures MatchAllFrom(s, alts, i) == MatchAllUpTo(s, alts, i, p) + MatchAllFrom(s, alts, p)
  {
    if f < |alts| {
      Assoc([alts[f]], MatchAllUpTo(s, alts, n, p), MatchAllFrom(s, alts, p));
    }
  }


  lemma {:induction false} MatchAllUpToSame(s: string, t: string, alts: seq<string>, i: nat, p: nat)
    requires p <= |s| && p <= |t|
    requires forall j :: 0 <= j < |alts| ==> |alts[j]| > 0
    requires forall k :: 0 <= k < p ==> FirstAlt(s, k, alts, 0) == FirstAlt(t, k, alts, 0)
    ensures MatchAllUpTo(s, alts, i, p) == MatchAllUpTo(t, alts, i, p)
    decreases p - i
  {
    if i < p {
      var f := FirstAlt(s, i, alts, 0);
      if f < |alts| {
        var n := i + |alts[f]|;
        MatchAllUpToSame(s, t, alts, n, p);
        assert MatchAllUpTo(s, alts, i, p) == [alts[f]] + MatchAllUpTo(s, alts, n, p);
        assert MatchAllUpTo(t, alts, i, p) == [alts[f]] + MatchAllUpTo(t, alts, n, p);
      } else {
        MatchAllUpToSame(s, t, alts, i + 1, p);
      }
    }
  }

  /** Past the boundary, the alternation picks in `a + b` what it picks in `b`. */
  lemma FirstAltShift(a: string, b: string, alts: seq<string>, k: nat)
    ensures FirstAlt(a + b, |a| + k, alts, 0) == FirstAlt(b, k, alts, 0)
  {
    forall m | 0 <= m < |alts| ensures MatchAt(a + b, |a| + k, alts[m]) <==> MatchAt(b, k, alts[m]) {
      MatchAtShift(a, b, k, alts[m]);
    }
    FirstAltSame(a + b, |a| + k, b, k, alts, 0);
  }

  lemma {:induction false} MatchAllFromShift(a: string, b: string, alts: seq<string>, k: nat)
    requires k <= |b|
    requires forall j :: 0 <= j < |alts| ==> |alts[j]| > 0
    requires forall m :: 0 <= m < |b| ==> FirstAlt(a + b, |a| + m, alts, 0) == FirstAlt(b, m, alts, 0)
    ensures MatchAllFrom(a + b, alts, |a| + k) == MatchAllFrom(b, alts, k)
    decreases |b| - k
  {
    if k < |b| {
      var f := FirstAlt(b, k, alts, 0);
      if f < |alts| {
        var n := k + |alts[f]|;
        MatchAllFromShift(a, b, alts, n);
        assert MatchAllFrom(a + b, alts, |a| + k) == [alts[f]] + MatchAllFrom(a + b, alts, |a| + n);
        assert MatchAllFrom(b, alts, k) == [alts[f]] + MatchAllFrom(b, alts, n);
      } else {
        MatchAllFromShift(a, b, alts, k + 1);
      }
    }
  }

  /**
    A global match over a concatenation is the matches of each part, in order,
    when no occurrence straddles the boundary.
   */
  lemma MatchAllAppend(a: string, b: string, alts: seq<string>)
    requires forall j :: 0 <= j < |alts| ==> |alts[j]| > 0
    requires NoStraddle(a, b, alts)
    ensures MatchAll(a + b, alts) == MatchAll(a, alts) + MatchAll(b, alts)
  {
    PicksAgree(a, b, alts);
    MatchAllFromUpTo(a + b, alts, 0, |a|);
    MatchAllFromUpTo(a, alts, 0, |a|);
    MatchAllUpToSame(a + b, a, alts, 0, |a|);
    MatchAllFromShift(a, b, alts, 0);
    var u := MatchAllUpTo(a, alts, 0, |a|);
    assert MatchAllFrom(a, alts, |a|) == [];
    assert u + [] == u;
  }

  /** With no occurrence straddling the boundary, the alternation picks the same in `a + b` as in each part. */
  lemma PicksAgree(a: string, b: string, alts: seq<string>)
    requires NoStraddle(a, b, alts)
    ensures forall k :: 0 <= k < |a| ==> FirstAlt(a + b, k, alts, 0) == FirstAlt(a, k, alts, 0)
    ensures forall m :: 0 <= m < |b| ==> FirstAlt(a + b, |a| + m, alts, 0) == FirstAlt(b, m, alts, 0)
    ensures EndsBy(a + b, alts, |a|) && EndsBy(a, alts, |a|)
  {
    forall k | 0 <= k < |a| ensures FirstAlt(a + b, k, alts, 0) == FirstAlt(a, k, alts, 0) {
      FirstAltPrefix(a, b, alts, k);
    }
    forall m | 0 <= m < |b| ensures FirstAlt(a + b, |a| + m, alts, 0) == FirstAlt(b, m, alts, 0) {
      FirstAltShift(a, b, alts, m);
    }
  }

  /**
    A string that is one of the alternatives, with no earlier alternative matching
    at its start, is matched once, as a whole.
   */
  lemma MatchAllWhole(s: string, alts: seq<string>, k: nat)
    requires forall j :: 0 <= j < |alts| ==> |alts[j]| > 0
    requires k < |alts| && s == alts[k]
    requires forall j :: 0 <= j < k ==> !MatchAt(s, 0, alts[j])
    ensures MatchAll(s, alts) == [s]
  {
    MatchAtSlice(s, 0, s);
    assert s[0..|s|] == s;
    var f := FirstAlt(s, 0, alts, 0);
    assert f == k;
    assert MatchAllFrom(s, alts, |s|) == [];
  }

  // ---------------------------------------------------------------------------
  // split and join

  function Join(parts: seq<string>, sep: string): string
  {
    if |parts| == 0 then []
    else if |parts| == 1 then parts[0]
    else parts[0] + sep + Join(parts[1..], sep)
  }

  function SplitFrom(s: string, sep: char, start: nat, i: nat): (r: seq<string>)
    requires start <= i <= |s|
    requires sep !in s[start..i]
    ensures |r| >= 1
    ensures forall k :: 0 <= k < |r| ==> sep !in r[k]
    ensures Join(r, [sep]) == s[start..]
    decreases |s| - i
  {
    if i == |s| then [s[start..]]
    else if s[i] == sep then
      var rest := SplitFrom(s, sep, i + 1, i + 1);
      assert s[start..] == s[start..i] + [sep] + s[i + 1..];
      [s[start..i]] + rest
    else
      assert s[start..i + 1] == s[start..i] + [s[i]];
      SplitFrom(s, sep, start, i + 1)
  }

  /** `split(sep)`: the pieces between separators; there is always at least one. */
  function Split(s: string, sep: char): (r: seq<string>)
    ensures |r| >= 1
    ensures forall k :: 0 <= k < |r| ==> sep !in r[k]
    ensures Join(r, [sep]) == s
  {
    SplitFrom(s, sep, 0, 0)
  }

  lemma {:induction false} SplitFromShift(s: string, sep: char, d: nat, start: nat, i: nat)
    requires d <= start <= i <= |s|
    requires sep !in s[start..i]
    ensures s[d..][start - d..i - d] == s[start..i]
    ensures SplitFrom(s, sep, start, i) == SplitFrom(s[d..], sep, start - d, i - d)
    decreases |s| - i
  {
    var t := s[d..];
    assert t[start - d..i - d] == s[start..i];
    if i == |s| {
      assert t[start - d..] == s[start..];
    } else if s[i] == sep {
      assert t[i - d] == sep;
      SplitFromShift(s, sep, d, i + 1, i + 1);
    } else {
      assert t[i - d] == s[i];
      assert s[start..i + 1] == s[start..i] + [s[i]];
      SplitFromShift(s, sep, d, start, i + 1);
    }
  }

  lemma {:induction false} SplitFromPiece(s: string, sep: char, start: nat, i: nat, j: nat)
    requires start <= i <= j < |s|
    requires sep !in s[start..j] && s[j] == sep
    ensures SplitFrom(s, sep, start, i) == [s[start..j]] + SplitFrom(s, sep, j + 1, j + 1)
    decreases j - i
  {
    assert s[start..i] == s[start..j][..i - start];
    if i < j {
      assert s[i] == s[start..j][i - start];
      assert s[start..i + 1] == s[start..j][..i + 1 - start];
      SplitFromPiece(s, sep, start, i + 1, j);
    }
  }

  lemma {:induction false} SplitNoSep(s: string, sep: char)
    requires sep !in s
    ensures Split(s, sep) == [s]
  {
    SplitFromWhole(s, sep, 0);
  }

  lemma {:induction false} SplitFromWhole(s: string, sep: char, i: nat)
    requires i <= |s| && sep !in s
    ensures SplitFrom(s, sep, 0, i) == [s]
    decreases |s| - i
  {
    assert s[0..i] == s[..i];
    if i < |s| {
      assert s[i] in s;
      SplitFromWhole(s, sep, i + 1);
    }
  }

  /** Splitting undoes joining: pieces free of the separator come back unchanged. */
  lemma {:induction false} SplitJoin(parts: seq<string>, sep: char)
    requires |parts| >= 1
    requires forall k :: 0 <= k < |parts| ==> sep !in parts[k]
    ensures Split(Join(parts, [sep]), sep) == parts
    decreases |parts|
  {
    if |parts| == 1 {
      SplitNoSep(parts[0], sep);
    } else {
      var s := Join(parts, [sep]);
      var n := |parts[0]|;
      var tail := Join(parts[1..], [sep]);
      assert s == parts[0] + [sep] + tail;
      assert s[..n] == parts[0];
      assert s[n + 1..] == tail;
      assert s[0..n] == parts[0];
      SplitFromPiece(s, sep, 0, 0, n);
      SplitFromShift(s, sep, n + 1, n + 1, n + 1);
      SplitJoin(parts[1..], sep);
      assert parts == [parts[0]] + parts[1..];
    }
  }
}
