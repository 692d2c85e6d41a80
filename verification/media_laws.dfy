/**
  What `#validateMediaQuery` makes of a one-condition media token
  `MQ<Feature><digits><Unit>_`: the capture groups, the rewriting round and the
  final check, proved for every feature, every digit string and every unit.
 */
module MediaLaws {
  import opened Wrappers
  import opened Text
  import Shapes
  import Scans
  import opened Media

  /** A non-empty run of decimal digits. */
  predicate IsNumber(n: string)
  {
    |n| > 0 && forall k :: 0 <= k < |n| ==> IsDigit(n[k])
  }

  /** The token of one numeric condition, as the class-name grammar captures it. */
  function Token(feature: string, n: string, unit: string): string
  {
    "MQ" + (feature + n + unit) + "_"
  }

  // ---------------------------------------------------------------------------
  // Matching helpers

  /** One differing character rules a match out. */
  lemma NoMatchAtChar(s: string, i: nat, pat: string, k: nat)
    requires k < |pat| && (i + k < |s| ==> s[i + k] != pat[k])
    ensures !MatchAt(s, i, pat)
  {
    MatchAtSlice(s, i, pat);
  }

  /** The feature alternative that matches is the one the alternation picks. */
  lemma FirstFeature(s: string, i: nat, fi: nat)
    requires fi < |MediaFeatures| && MatchAt(s, i, MediaFeatures[fi])
    ensures FirstAlt(s, i, MediaFeatures, 0) == fi
  {
    var feature := MediaFeatures[fi];
    MatchAtSlice(s, i, feature);
    forall j | 0 <= j < fi ensures !MatchAt(s, i, MediaFeatures[j]) {
      var other := MediaFeatures[j];
      var k := if other[0] != feature[0] then 0 else if other[1] != feature[1] then 1 else 3;
      assert other[k] != feature[k];
      assert s[i + k] == s[i..i + |feature|][k];
      NoMatchAtChar(s, i, other, k);
    }
  }

  lemma FirstUnit(s: string, i: nat, ui: nat)
    requires ui < |MediaUnits| && MatchAt(s, i, MediaUnits[ui])
    ensures FirstAlt(s, i, MediaUnits, 0) == ui
  {
    var unit := MediaUnits[ui];
    MatchAtSlice(s, i, unit);
    forall j | 0 <= j < ui ensures !MatchAt(s, i, MediaUnits[j]) {
      var other := MediaUnits[j];
      var k := if other[0] != unit[0] then 0 else 2;
      assert other[k] != unit[k];
      assert s[i + k] == s[i..i + |unit|][k];
      NoMatchAtChar(s, i, other, k);
    }
  }

  /** No feature starts with the character at `i`. */
  lemma NoFeatureAt(s: string, i: nat)
    requires i < |s| && s[i] != 'O' && s[i] != 'M'
    ensures FeatureEnd(s, i) == i && PairAt(s, i).None?
  {
    forall j | 0 <= j < |MediaFeatures| ensures !MatchAt(s, i, MediaFeatures[j]) {
      NoMatchAtChar(s, i, MediaFeatures[j], 0);
    }
  }

  // ---------------------------------------------------------------------------
  // The capture groups

  lemma Pieces(a: string, b: string, c: string)
    ensures (a + b + c)[..|a|] == a
    ensures (a + b + c)[|a|..|a| + |b|] == b
    ensures (a + b + c)[|a| + |b|..] == c
  {
    assert a + b + c == a + (b + c);
  }

  lemma SliceOfSlice(s: string, i: nat, e: nat, a: nat, b: nat)
    requires i <= e <= |s| && a <= b <= e - i
    ensures s[i..e][a..b] == s[i + a..i + b]
  {
    assert forall k :: 0 <= k < b - a ==> s[i..e][a..b][k] == s[i + a + k];
  }

  /** A setting of digits and a unit at `f` ends after the unit. */
  lemma SettingOfNumber(s: string, f: nat, n: string, ui: nat)
    requires ui < |MediaUnits| && IsNumber(n)
    requires f + |n| + |MediaUnits[ui]| <= |s|
    requires s[f..f + |n|] == n && s[f + |n|..f + |n| + |MediaUnits[ui]|] == MediaUnits[ui]
    ensures SettingEnd(s, f) == f + |n| + |MediaUnits[ui]|
  {
    var unit := MediaUnits[ui];
    var d := f + |n|;
    assert s[f] == s[f..d][0];
    NoMatchAtChar(s, f, "Portrait", 0);
    NoMatchAtChar(s, f, "Landscape", 0);
    assert Shapes.DigitEnd(s, f) == d by {
      forall k | f <= k < d ensures IsDigit(s[k]) {
        assert s[k] == s[f..d][k - f];
      }
      assert s[d] == s[d..d + |unit|][0];
    }
    MatchAtSlice(s, d, unit);
    FirstUnit(s, d, ui);
  }

  /** The feature at `i` is the alternative the expression takes. */
  lemma FeatureAt(s: string, i: nat, fi: nat)
    requires fi < |MediaFeatures| && i + |MediaFeatures[fi]| <= |s|
    requires s[i..i + |MediaFeatures[fi]|] == MediaFeatures[fi]
    ensures FeatureEnd(s, i) == i + |MediaFeatures[fi]|
  {
    MatchAtSlice(s, i, MediaFeatures[fi]);
    FirstFeature(s, i, fi);
  }

  /** The three pieces of a condition written at `i`. */
  lemma ConditionPieces(s: string, i: nat, feature: string, n: string, unit: string)
    requires i + |feature| + |n| + |unit| <= |s|
    requires s[i..i + |feature| + |n| + |unit|] == feature + n + unit
    ensures var f := i + |feature|;
      var d := f + |n|;
      s[i..f] == feature && s[f..d] == n && s[d..d + |unit|] == unit
  {
    var e := i + |feature| + |n| + |unit|;
    Pieces(feature, n, unit);
    SliceOfSlice(s, i, e, 0, |feature|);
    SliceOfSlice(s, i, e, |feature|, |feature| + |n|);
    SliceOfSlice(s, i, e, |feature| + |n|, e - i);
  }

  /** The first pair of the expression at `i`: a feature, then digits and a unit. */
  lemma PairOfCondition(s: string, i: nat, fi: nat, n: string, ui: nat)
    requires fi < |MediaFeatures| && ui < |MediaUnits| && IsNumber(n)
    requires i + |MediaFeatures[fi]| + |n| + |MediaUnits[ui]| <= |s|
    requires var f := i + |MediaFeatures[fi]|;
      s[i..f] == MediaFeatures[fi] && s[f..f + |n|] == n && s[f + |n|..f + |n| + |MediaUnits[ui]|] == MediaUnits[ui]
    ensures var f := i + |MediaFeatures[fi]|;
      PairAt(s, i) == Some(Pair(i, f, f + |n| + |MediaUnits[ui]|))
  {
    var f := i + |MediaFeatures[fi]|;
    FeatureAt(s, i, fi);
    SettingOfNumber(s, f, n, ui);
    PairIs(s, i, f, f + |n| + |MediaUnits[ui]|);
  }

  lemma PairIs(s: string, i: nat, f: nat, e: nat)
    requires i < f < e <= |s| && FeatureEnd(s, i) == f && SettingEnd(s, f) == e
    ensures PairAt(s, i) == Some(Pair(i, f, e))
  {
  }

  /** Nothing matches at the `MQ` prefix. */
  lemma SkipPrefix(s: string)
    requires |s| > 2 && s[0] == 'M' && s[1] == 'Q'
    ensures Groups(s) == GroupsFrom(s, 2)
  {
    SkipBeforeQ(s);
    SkipQ(s);
  }

  lemma SkipBeforeQ(s: string)
    requires |s| > 2 && s[1] == 'Q'
    ensures GroupsFrom(s, 0) == GroupsFrom(s, 1)
  {
    NoFeatureBeforeQ(s, 0);
    NoPairSkipped(s, 0);
  }

  lemma SkipQ(s: string)
    requires |s| > 2 && s[1] == 'Q'
    ensures GroupsFrom(s, 1) == GroupsFrom(s, 2)
  {
    NoFeatureAt(s, 1);
    NoPairSkipped(s, 1);
  }

  /** No feature name has `Q` as its second letter. */
  lemma NoFeatureBeforeQ(s: string, i: nat)
    requires i + 1 < |s| && s[i + 1] == 'Q'
    ensures PairAt(s, i).None?
  {
    forall j | 0 <= j < |MediaFeatures| ensures !MatchAt(s, i, MediaFeatures[j]) {
      NoMatchAtChar(s, i, MediaFeatures[j], 1);
    }
    assert FeatureEnd(s, i) == i;
  }

  /** Where no pair starts, the search moves on by one character. */
  lemma NoPairSkipped(s: string, i: nat)
    requires i < |s| && PairAt(s, i).None?
    ensures GroupsFrom(s, i) == GroupsFrom(s, i + 1)
  {
  }

  /** A pair with no pair after it: the groups are the pair alone and three absent ones. */
  lemma LonePair(s: string, i: nat, f: nat, e: nat)
    requires i < f < e < |s|
    requires PairAt(s, i) == Some(Pair(i, f, e)) && PairAt(s, e).None?
    ensures GroupsFrom(s, i) == [Some(s[i..e]), Some(s[i..f]), Some(s[f..e]), None, None, None]
  {
    assert RepeatFrom(s, e, None) == (e, None);
  }

  /**
    The media-token expression matches from the feature on: the whole match is
    the condition, the first pair is the feature and its setting, and the
    repetition group took nothing.
   */
  lemma GroupsOfCondition(fi: nat, n: string, ui: nat)
    requires fi < |MediaFeatures| && ui < |MediaUnits| && IsNumber(n)
    ensures var feature := MediaFeatures[fi];
      var unit := MediaUnits[ui];
      Groups(Token(feature, n, unit)) == [Some(feature + n + unit), Some(feature), Some(n + unit), None, None, None]
  {
    NamesNotEmpty(fi, ui);
    PairOfToken(fi, n, ui);
    GroupsOfToken(MediaFeatures[fi], n, MediaUnits[ui]);
  }

  lemma PairOfToken(fi: nat, n: string, ui: nat)
    requires fi < |MediaFeatures| && ui < |MediaUnits| && IsNumber(n)
    ensures var f := 2 + |MediaFeatures[fi]|;
      PairAt(Token(MediaFeatures[fi], n, MediaUnits[ui]), 2) == Some(Pair(2, f, f + |n| + |MediaUnits[ui]|))
  {
    var feature := MediaFeatures[fi];
    var unit := MediaUnits[ui];
    var s := Token(feature, n, unit);
    TokenLaidOut(feature, n, unit);
    ConditionPieces(s, 2, feature, n, unit);
    PairOfCondition(s, 2, fi, n, ui);
  }

  /** A token whose condition is one pair: the groups are that pair alone. */
  lemma GroupsOfToken(feature: string, n: string, unit: string)
    requires |feature| > 0 && |n| > 0 && |unit| > 0
    requires var f := 2 + |feature|;
      PairAt(Token(feature, n, unit), 2) == Some(Pair(2, f, f + |n| + |unit|))
    ensures Groups(Token(feature, n, unit)) == [Some(feature + n + unit), Some(feature), Some(n + unit), None, None, None]
  {
    var s := Token(feature, n, unit);
    var f := 2 + |feature|;
    var e := f + |n| + |unit|;
    TokenLaidOut(feature, n, unit);
    TokenSlices(feature, n, unit);
    SkipPrefix(s);
    NoFeatureAt(s, e);
    LonePair(s, 2, f, e);
  }

  lemma TokenSlices(feature: string, n: string, unit: string)
    ensures var s := Token(feature, n, unit);
      var f := 2 + |feature|;
      var e := f + |n| + |unit|;
      |s| == e + 1 && s[2..f] == feature && s[f..e] == n + unit && s[e] == '_'
  {
    var s := Token(feature, n, unit);
    var f := 2 + |feature|;
    var e := f + |n| + |unit|;
    TokenLaidOut(feature, n, unit);
    assert feature + n + unit == feature + (n + unit);
    SliceOfSlice(s, 2, e, 0, |feature|);
    SliceOfSlice(s, 2, e, |feature|, e - 2);
  }

  lemma NamesNotEmpty(fi: nat, ui: nat)
    requires fi < |MediaFeatures| && ui < |MediaUnits|
    ensures |MediaFeatures[fi]| > 0 && |MediaUnits[ui]| > 0
  {
  }

  lemma TokenLaidOut(feature: string, n: string, unit: string)
    ensures var s := Token(feature, n, unit);
      var e := 2 + |feature| + |n| + |unit|;
      |s| == e + 1 && s[0] == 'M' && s[1] == 'Q' && s[e] == '_' && s[2..e] == feature + n + unit
  {
    var s := Token(feature, n, unit);
    assert s[2..|s| - 1] == feature + n + unit;
  }

  // ---------------------------------------------------------------------------
  // Lowering and stripping

  /** The lowered features, in the order of `MediaFeatures`. */
  const FeatureKeys: seq<string> :=
    ["orientation", "maxwidth", "maxheight", "minwidth", "minheight", "minresolution", "maxresolution"]

  /** The lowered units, in the order of `MediaUnits`. */
  const UnitKeys: seq<string> := ["dppx", "dpi", "px"]

  lemma LowerAppend(a: string, b: string)
    ensures Lower(a + b) == Lower(a) + Lower(b)
  {
    var l := Lower(a + b);
    var la := Lower(a);
    var lb := Lower(b);
    assert |l| == |la| + |lb|;
    forall k | 0 <= k < |l| ensures l[k] == (la + lb)[k] {
      if k < |a| {
        assert (a + b)[k] == a[k];
        assert l[k] == LowerChar(a[k]) == la[k];
      } else {
        assert (a + b)[k] == b[k - |a|];
        assert l[k] == LowerChar(b[k - |a|]) == lb[k - |a|];
      }
    }
  }

  /** Lowering is fixed character by character. */
  lemma LowerIs(s: string, t: string)
    requires |s| == |t| && forall k :: 0 <= k < |s| ==> LowerChar(s[k]) == t[k]
    ensures Lower(s) == t
  {
  }

  lemma LowerNumber(n: string)
    requires IsNumber(n)
    ensures Lower(n) == n
  {
  }

  lemma LowerFeature(fi: nat)
    requires fi < |MediaFeatures|
    ensures Lower(MediaFeatures[fi]) == FeatureKeys[fi]
  {
    LowerIs(MediaFeatures[fi], FeatureKeys[fi]);
  }

  lemma LowerUnit(ui: nat)
    requires ui < |MediaUnits|
    ensures Lower(MediaUnits[ui]) == UnitKeys[ui]
  {
    LowerIs(MediaUnits[ui], UnitKeys[ui]);
  }

  lemma LowerToken(fi: nat, n: string, ui: nat)
    requires fi < |MediaFeatures| && ui < |MediaUnits| && IsNumber(n)
    ensures Lower(Token(MediaFeatures[fi], n, MediaUnits[ui])) == "mq" + (FeatureKeys[fi] + n + UnitKeys[ui]) + "_"
  {
    LowerFeature(fi);
    LowerUnit(ui);
    LowerNumber(n);
    LowerTokenOf(MediaFeatures[fi], n, MediaUnits[ui], FeatureKeys[fi], UnitKeys[ui]);
  }

  /** Lowering a token lowers its prefix, feature, digits and unit one by one. */
  lemma LowerTokenOf(feature: string, n: string, unit: string, fkey: string, ukey: string)
    requires Lower(feature) == fkey && Lower(n) == n && Lower(unit) == ukey
    ensures Lower(Token(feature, n, unit)) == "mq" + (fkey + n + ukey) + "_"
  {
    var core := feature + n + unit;
    LowerCore(feature, n, unit, fkey, ukey);
    LowerWrapped(core, fkey + n + ukey);
  }

  lemma LowerCore(feature: string, n: string, unit: string, fkey: string, ukey: string)
    requires Lower(feature) == fkey && Lower(n) == n && Lower(unit) == ukey
    ensures Lower(feature + n + unit) == fkey + n + ukey
  {
    LowerAppend(feature, n);
    LowerAppend(feature + n, unit);
  }

  /** `MQ` and `_` around a core lower to `mq` and `_` around its lowering. */
  lemma LowerWrapped(core: string, lowered: string)
    requires Lower(core) == lowered
    ensures Lower("MQ" + core + "_") == "mq" + lowered + "_"
  {
    LowerIs("MQ", "mq");
    LowerIs("_", "_");
    LowerAppend("MQ", core);
    LowerAppend("MQ" + core, "_");
  }

  /** A token that lowers to `mq`, a core and `_` is stripped to the core. */
  lemma StripLowered(token: string, core: string)
    requires Lower(token) == "mq" + core + "_"
    ensures StripToken(token) == core
  {
    var lowered := Lower(token);
    assert StartsWith(lowered, "mq") by { MatchAtSlice(lowered, 0, "mq"); }
    assert lowered[2..] == core + "_";
  }

  /** The lowered token loses its `mq` prefix and `_` suffix. */
  lemma StripCondition(fi: nat, n: string, ui: nat)
    requires fi < |MediaFeatures| && ui < |MediaUnits| && IsNumber(n)
    ensures StripToken(Token(MediaFeatures[fi], n, MediaUnits[ui])) == FeatureKeys[fi] + n + UnitKeys[ui]
  {
    LowerToken(fi, n, ui);
    StripLowered(Token(MediaFeatures[fi], n, MediaUnits[ui]), FeatureKeys[fi] + n + UnitKeys[ui]);
  }

  // ---------------------------------------------------------------------------
  // The group loop

  /** Every key of the word map is a lower-case word. */
  lemma KeysAreWords(key: string)
    requires key in MediaWords
    ensures forall k :: 0 <= k < |key| ==> IsLower(key[k])
  {
  }

  /** A string with a digit is no key of the word map. */
  lemma DigitNoKey(s: string, k: nat)
    requires k < |s| && IsDigit(s[k])
    ensures s !in MediaWords
  {
    if s in MediaWords {
      KeysAreWords(s);
    }
  }

  /**
    Of the three groups present, only the feature is a key of the word map, so
    the group loop runs exactly one round, for the feature.
   */
  lemma OneRound(fi: nat, n: string, ui: nat)
    requires fi < |MediaFeatures| && ui < |MediaUnits| && IsNumber(n)
    ensures var feature := MediaFeatures[fi];
      var unit := MediaUnits[ui];
      var stripped := FeatureKeys[fi] + n + UnitKeys[ui];
      RewriteGroups(stripped, [Some(feature + n + unit), Some(feature), Some(n + unit), None, None, None]) ==
        RewriteRound(stripped, FeatureKeys[fi])
  {
    var feature := MediaFeatures[fi];
    var unit := MediaUnits[ui];
    TokenNoWord(fi, n, ui);
    LowerFeature(fi);
    SettingNoWord(n, unit);
    LoneRound(FeatureKeys[fi] + n + UnitKeys[ui], feature + n + unit, feature, n + unit);
  }

  /** The whole condition, once lowered, is not a key of the word map: a digit follows the feature. */
  lemma TokenNoWord(fi: nat, n: string, ui: nat)
    requires fi < |MediaFeatures| && ui < |MediaUnits| && IsNumber(n)
    ensures Lower(MediaFeatures[fi] + n + MediaUnits[ui]) !in MediaWords
  {
    var feature := MediaFeatures[fi];
    var unit := MediaUnits[ui];
    var key := FeatureKeys[fi];
    LowerAppend(feature + n, unit);
    LowerAppend(feature, n);
    LowerFeature(fi);
    LowerNumber(n);
    assert Lower(feature + n + unit)[|key|] == n[0];
    DigitNoKey(Lower(feature + n + unit), |key|);
  }

  /** The setting, once lowered, is not a key of the word map: it starts with a digit. */
  lemma SettingNoWord(n: string, unit: string)
    requires IsNumber(n)
    ensures Lower(n + unit) !in MediaWords
  {
    LowerAppend(n, unit);
    LowerNumber(n);
    assert Lower(n + unit)[0] == n[0];
    DigitNoKey(Lower(n + unit), 0);
  }

  /** Three present groups of which only the second is a key: the group loop runs one round, for it. */
  lemma LoneRound(s: string, whole: string, feature: string, setting: string)
    requires |whole| > 0 && |feature| > 0 && |setting| > 0
    requires Lower(whole) !in MediaWords && Lower(setting) !in MediaWords && Lower(feature) in MediaWords
    ensures RewriteGroups(s, [Some(whole), Some(feature), Some(setting), None, None, None]) ==
      RewriteRound(s, Lower(feature))
  {
    var groups := [Some(whole), Some(feature), Some(setting), None, None, None];
    var once := RewriteRound(s, Lower(feature));
    assert RewriteGroups(s, groups) == RewriteGroups(s, groups[1..]);
    assert RewriteGroups(s, groups[1..]) == RewriteGroups(once, groups[2..]);
    assert RewriteGroups(once, groups[2..]) == RewriteGroups(once, groups[3..]);
    assert RewriteGroups(once, groups[3..]) == RewriteGroups(once, groups[4..]);
    assert RewriteGroups(once, groups[4..]) == RewriteGroups(once, groups[5..]);
    assert RewriteGroups(once, groups[5..]) == RewriteGroups(once, []);
  }

  // ---------------------------------------------------------------------------
  // Scanning past text the replacements leave alone

  /** `new RegExp(key + '+', 'g')` finds nothing where the key's first letter never occurs. */
  lemma {:induction false} KeyRunsSkip(s: string, key: string, rep: string, i: nat)
    requires |key| > 0 && i <= |s|
    requires forall k :: i <= k < |s| ==> s[k] != key[0]
    ensures ReplaceKeyRunsFrom(s, key, rep, i) == s[i..]
    decreases |s| - i
  {
    if i < |s| {
      NoMatchAtChar(s, i, key, 0);
      KeyRunsSkip(s, key, rep, i + 1);
      assert s[i..] == [s[i]] + s[i + 1..];
    }
  }

  lemma KeyRunStep(s: string, key: string, rep: string, i: nat)
    requires |key| > 0 && i < |s| && !MatchAt(s, i, key)
    ensures ReplaceKeyRunsFrom(s, key, rep, i) == [s[i]] + ReplaceKeyRunsFrom(s, key, rep, i + 1)
  {
    assert KeyRunEnd(s, i, key) == i;
  }

  /** `new RegExp(key + '+', 'g')` copies a stretch where the key never starts. */
  lemma {:induction false} KeyRunsBetween(s: string, key: string, rep: string, i: nat, j: nat)
    requires |key| > 0 && i <= j <= |s|
    requires forall k :: i <= k < j ==> !MatchAt(s, k, key)
    ensures ReplaceKeyRunsFrom(s, key, rep, i) == s[i..j] + ReplaceKeyRunsFrom(s, key, rep, j)
    decreases j - i
  {
    if i < j {
      var rest := ReplaceKeyRunsFrom(s, key, rep, j);
      KeyRunStep(s, key, rep, i);
      KeyRunsBetween(s, key, rep, i + 1, j);
      assert [s[i]] + (s[i + 1..j] + rest) == s[i..j] + rest by {
        assert s[i..j] == [s[i]] + s[i + 1..j];
      }
    }
  }

  /** No unit run starts at `k`: no `p` there, and no `p` after a `d` there. */
  lemma NoUnitAt(s: string, k: nat)
    requires k < |s| && s[k] != 'p'
    requires s[k] == 'd' ==> k + 1 < |s| && s[k + 1] != 'p'
    ensures UnitRunEnd(s, k) == k
  {
    forall j | 0 <= j < |LengthWords| ensures !MatchAt(s, k, LengthWords[j]) {
      if s[k] == 'd' && j < 2 {
        NoMatchAtChar(s, k, LengthWords[j], 1);
      } else {
        NoMatchAtChar(s, k, LengthWords[j], 0);
      }
    }
  }

  lemma {:induction false} UnitRunsSkip(s: string, i: nat, j: nat)
    requires i <= j <= |s|
    requires forall k :: i <= k < j ==> UnitRunEnd(s, k) == k
    ensures UnitRunsFrom(s, i) == UnitRunsFrom(s, j)
    decreases j - i
  {
    if i < j {
      UnitRunsSkip(s, i + 1, j);
    }
  }

  lemma {:induction false} ReplaceUnitRunsSkip(s: string, rep: string, i: nat, j: nat)
    requires i <= j <= |s|
    requires forall k :: i <= k < j ==> UnitRunEnd(s, k) == k
    ensures ReplaceUnitRunsFrom(s, rep, i) == s[i..j] + ReplaceUnitRunsFrom(s, rep, j)
    decreases j - i
  {
    if i < j {
      var rest := ReplaceUnitRunsFrom(s, rep, j);
      ReplaceUnitRunsSkip(s, rep, i + 1, j);
      assert ReplaceUnitRunsFrom(s, rep, i) == [s[i]] + ReplaceUnitRunsFrom(s, rep, i + 1);
      Scans.ConsSlice(s, i, j, rest);
    }
  }

  /** A unit word that ends the string is one whole run. */
  lemma UnitAtEnd(s: string, j: nat, ui: nat)
    requires ui < |UnitKeys| && j <= |s| && s[j..] == UnitKeys[ui]
    ensures UnitRunEnd(s, j) == |s|
  {
    var li := if ui == 0 then 1 else if ui == 1 then 0 else 2;
    assert LengthWords[li] == UnitKeys[ui];
    MatchAtSlice(s, j, LengthWords[li]);
    forall m | 0 <= m < li ensures !MatchAt(s, j, LengthWords[m]) {
      var k := if ui == 0 then 2 else 0;
      assert s[j + k] == s[j..][k];
      NoMatchAtChar(s, j, LengthWords[m], k);
    }
    assert FirstAlt(s, j, LengthWords, 0) == li;
    forall m | 0 <= m < |LengthWords| ensures !MatchAt(s, |s|, LengthWords[m]) {
    }
    assert UnitRunEnd(s, |s|) == |s|;
  }

  lemma {:induction false} DropClosersSkip(s: string, i: nat, j: nat)
    requires i <= j <= |s|
    requires forall k :: i <= k < j ==> s[k] != ')'
    ensures DropClosersFrom(s, i) == s[i..j] + DropClosersFrom(s, j)
    decreases j - i
  {
    if i < j {
      var rest := DropClosersFrom(s, j);
      assert DropClosersFrom(s, i) == [s[i]] + DropClosersFrom(s, i + 1);
      DropClosersSkip(s, i + 1, j);
      Scans.ConsSlice(s, i, j, rest);
    }
  }

  lemma {:induction false} JoinConditionsSkip(s: string, i: nat, j: nat)
    requires i <= j <= |s|
    requires forall k :: i <= k < j ==> s[k] != ')'
    ensures JoinConditionsFrom(s, i) == s[i..j] + JoinConditionsFrom(s, j)
    decreases j - i
  {
    if i < j {
      var rest := JoinConditionsFrom(s, j);
      JoinConditionsSkip(s, i + 1, j);
      assert JoinConditionsFrom(s, i) == [s[i]] + JoinConditionsFrom(s, i + 1);
      Scans.ConsSlice(s, i, j, rest);
    }
  }

  // ---------------------------------------------------------------------------
  // The round of one condition

  /** An opening with no `p`, no `)` and no `d` before a `p`: the unit and bracket passes skip it. */
  predicate Plain(open: string)
  {
    forall k :: 0 <= k < |open| ==>
      open[k] != 'p' && open[k] != ')' && !IsDigit(open[k]) && (open[k] == 'd' ==> k + 1 < |open| && open[k + 1] != 'p')
  }

  /** The openings the word map gives the lowered features, in the order of `FeatureKeys`. */
  const Openers: seq<string> :=
    ["(orientation: ", "(max-width: ", "(max-height: ", "(min-width: ", "(min-height: ", "(min-resolution: ", "(max-resolution: "]

  lemma OpenerWord(fi: nat)
    requires fi < |FeatureKeys|
    ensures FeatureKeys[fi] in MediaWords && MediaWords[FeatureKeys[fi]] == Openers[fi]
  {
  }

  lemma OpenerPlain(fi: nat)
    requires fi < |FeatureKeys|
    ensures FeatureKeys[fi] in MediaWords && Plain(MediaWords[FeatureKeys[fi]])
  {
    OpenerWord(fi);
    if fi == 0 {
      PlainOrientationOpener();
    } else if fi in {1, 2, 6} {
      PlainMaxOpeners();
    } else {
      PlainMinOpeners();
    }
  }

  lemma PlainOrientationOpener()
    ensures Plain(Openers[0])
  {
    assert Openers[0] == "(orientation: ";
  }

  lemma PlainMaxOpeners()
    ensures Plain(Openers[1]) && Plain(Openers[2]) && Plain(Openers[6])
  {
    assert Openers[1] == "(max-width: ";
    assert Openers[2] == "(max-height: ";
    assert Openers[6] == "(max-resolution: ";
  }

  lemma PlainMinOpeners()
    ensures Plain(Openers[3]) && Plain(Openers[4]) && Plain(Openers[5])
  {
    assert Openers[3] == "(min-width: ";
    assert Openers[4] == "(min-height: ";
    assert Openers[5] == "(min-resolution: ";
  }

  /** The keyword pass puts the opening in place of the feature and leaves the setting alone. */
  lemma StartedOf(fi: nat, n: string, ui: nat)
    requires fi < |FeatureKeys| && ui < |UnitKeys| && IsNumber(n)
    ensures FeatureKeys[fi] in MediaWords
    ensures var key := FeatureKeys[fi];
      ReplaceKeyRuns(key + n + UnitKeys[ui], key, MediaWords[key]) == MediaWords[key] + n + UnitKeys[ui]
  {
    OpenerWord(fi);
    KeysApart(fi, ui);
    KeyReplaced(FeatureKeys[fi], MediaWords[FeatureKeys[fi]], n, UnitKeys[ui]);
  }

  /** No lowered feature starts with a digit or with a letter of a lowered unit. */
  lemma KeysApart(fi: nat, ui: nat)
    requires fi < |FeatureKeys| && ui < |UnitKeys|
    ensures |FeatureKeys[fi]| > 0 && !IsDigit(FeatureKeys[fi][0]) && !IsDigit(FeatureKeys[fi][|FeatureKeys[fi]| - 1])
    ensures forall k :: 0 <= k < |UnitKeys[ui]| ==> UnitKeys[ui][k] != FeatureKeys[fi][0]
  {
    var key := FeatureKeys[fi];
    assert key[0] == 'o' || key[0] == 'm';
    assert key[|key| - 1] == 'n' || key[|key| - 1] == 'h' || key[|key| - 1] == 't';
  }

  /** A key followed by digits and a unit: the key alone is replaced. */
  lemma KeyReplaced(key: string, open: string, n: string, unit: string)
    requires |key| > 0 && !IsDigit(key[0]) && !IsDigit(key[|key| - 1]) && IsNumber(n)
    requires forall k :: 0 <= k < |unit| ==> unit[k] != key[0]
    ensures ReplaceKeyRuns(key + n + unit, key, open) == open + n + unit
  {
    var s := key + n + unit;
    var rest := n + unit;
    assert s == key + rest;
    assert s[..|key|] == key && s[|key|..] == rest;
    forall k | 0 <= k < |rest| ensures rest[k] != key[0] {
      if k < |n| {
        assert rest[k] == n[k];
      } else {
        assert rest[k] == unit[k - |n|];
      }
    }
    assert s[|key|] == rest[0] == n[0];
    LeadingKeyRun(s, key, open);
  }

  /** A key at the start, not followed by its last letter nor by its first anywhere after: one replacement. */
  lemma LeadingKeyRun(s: string, key: string, rep: string)
    requires 0 < |key| < |s| && s[..|key|] == key && s[|key|] != key[|key| - 1]
    requires forall k :: 0 <= k < |s| - |key| ==> s[|key|..][k] != key[0]
    ensures ReplaceKeyRuns(s, key, rep) == rep + s[|key|..]
  {
    MatchAtSlice(s, 0, key);
    assert CharRunEnd(s, |key|, key[|key| - 1]) == |key|;
    assert KeyRunEnd(s, 0, key) == |key|;
    forall k | |key| <= k < |s| ensures s[k] != key[0] {
      assert s[k] == s[|key|..][k - |key|];
    }
    KeyRunsSkip(s, key, rep, |key|);
  }

  /** Over a plain opening and digits, the only unit run is the trailing unit, which gets closed. */
  lemma UnitsClosed(open: string, n: string, ui: nat)
    requires Plain(open) && IsNumber(n) && ui < |UnitKeys|
    ensures UnitRunsFrom(open + n + UnitKeys[ui], 0) == [UnitKeys[ui]]
    ensures CloseUnits(open + n + UnitKeys[ui], [UnitKeys[ui]]) == open + n + UnitKeys[ui] + ") "
  {
    var unit := UnitKeys[ui];
    var s := open + n + unit;
    var j := |open| + |n|;
    forall k | 0 <= k < j ensures UnitRunEnd(s, k) == k {
      if k < |open| {
        assert s[k] == open[k];
        if k + 1 < |open| {
          assert s[k + 1] == open[k + 1];
        }
      } else {
        assert s[k] == n[k - |open|];
      }
      NoUnitAt(s, k);
    }
    assert s[j..] == unit;
    UnitAtEnd(s, j, ui);
    UnitRunsSkip(s, 0, j);
    assert UnitRunsFrom(s, j) == [s[j..|s|]] + UnitRunsFrom(s, |s|);
    assert s[j..|s|] == unit && UnitRunsFrom(s, |s|) == [];
    var rep := unit + ") ";
    ReplaceUnitRunsSkip(s, rep, 0, j);
    assert ReplaceUnitRunsFrom(s, rep, j) == rep + ReplaceUnitRunsFrom(s, rep, |s|);
    assert s[0..j] == open + n;
    assert CloseUnits(s, [unit]) == CloseUnits(ReplaceUnitRunsFrom(s, rep, 0), []);
  }

  /** A single closing bracket and space at the end survive both bracket passes. */
  lemma BracketsKept(x: string)
    requires forall k :: 0 <= k < |x| ==> x[k] != ')'
    ensures DropClosersFrom(x + ") ", 0) == x + ") "
    ensures JoinConditionsFrom(x + ") ", 0) == x + ") "
  {
    var s := x + ") ";
    var j := |x|;
    assert s[..j] == x && s[j] == ')' && s[j + 1] == ' ';
    DropClosersSkip(s, 0, j);
    assert CharRunEnd(s, j, ')') == j + 1;
    assert SpaceEnd(s, j + 1) == |s|;
    assert DropClosersFrom(s, j) == ")" + DropClosersFrom(s, j + 1);
    assert DropClosersFrom(s, j + 1) == " ";
    JoinConditionsSkip(s, 0, j);
    assert JoinConditionsFrom(s, j) == [')'] + JoinConditionsFrom(s, j + 1);
    assert JoinConditionsFrom(s, j + 1) == " ";
  }

  /** The one rewriting round of a numeric condition. */
  lemma RoundOfCondition(fi: nat, n: string, ui: nat)
    requires fi < |FeatureKeys| && ui < |UnitKeys| && IsNumber(n)
    ensures FeatureKeys[fi] in MediaWords
    ensures var key := FeatureKeys[fi];
      RewriteRound(key + n + UnitKeys[ui], key) == MediaWords[key] + n + UnitKeys[ui] + ") "
  {
    var key := FeatureKeys[fi];
    var unit := UnitKeys[ui];
    var open := MediaWords[key];
    StartedOf(fi, n, ui);
    OpenerPlain(fi);
    UnitsClosed(open, n, ui);
    var x := open + n + unit;
    forall k | 0 <= k < |x| ensures x[k] != ')' {
      if k < |open| {
        assert x[k] == open[k];
      } else if k < |open| + |n| {
        assert x[k] == n[k - |open|];
      } else {
        assert x[k] == unit[k - |open| - |n|];
      }
    }
    BracketsKept(x);
  }

  // ---------------------------------------------------------------------------
  // The recogniser on one condition

  /** The syntax unit a lowered unit word is, in `mediaQueryRegex`'s alternation. */
  function SyntaxUnitIndex(ui: nat): nat
  {
    if ui == 0 then 9 else if ui == 1 then 7 else 0
  }

  lemma FirstSyntaxUnit(s: string, i: nat, ui: nat)
    requires ui < |UnitKeys| && i + |UnitKeys[ui]| <= |s| && s[i..i + |UnitKeys[ui]|] == UnitKeys[ui]
    ensures FirstAlt(s, i, SyntaxUnits, 0) == SyntaxUnitIndex(ui)
  {
    var unit := UnitKeys[ui];
    var ti := SyntaxUnitIndex(ui);
    assert SyntaxUnits[ti] == unit;
    MatchAtSlice(s, i, unit);
    forall j | 0 <= j < ti ensures !MatchAt(s, i, SyntaxUnits[j]) {
      var other := SyntaxUnits[j];
      var k := if other[0] != unit[0] then 0 else 2;
      assert other[k] != unit[k];
      assert s[i + k] == s[i..i + |unit|][k];
      NoMatchAtChar(s, i, other, k);
    }
  }

  lemma FirstSyntaxFeature(s: string, i: nat, si: nat)
    requires si < |SyntaxFeatures| && i + |SyntaxFeatures[si]| <= |s| && s[i..i + |SyntaxFeatures[si]|] == SyntaxFeatures[si]
    ensures FirstAlt(s, i, SyntaxFeatures, 0) == si
  {
    var feature := SyntaxFeatures[si];
    MatchAtSlice(s, i, feature);
    forall j | 0 <= j < si ensures !MatchAt(s, i, SyntaxFeatures[j]) {
      assert s[i] == s[i..i + |feature|][0];
      NoMatchAtChar(s, i, SyntaxFeatures[j], 0);
    }
  }

  /** Digits from `c` to the start of the unit, which begins with a letter. */
  lemma DigitsOfNumber(s: string, c: nat, n: string, ui: nat)
    requires ui < |UnitKeys| && IsNumber(n)
    requires c + |n| + |UnitKeys[ui]| <= |s|
    requires s[c..c + |n|] == n && s[c + |n|..c + |n| + |UnitKeys[ui]|] == UnitKeys[ui]
    ensures Shapes.DigitEnd(s, c) == c + |n|
  {
    var d := c + |n|;
    forall k | c <= k < d ensures IsDigit(s[k]) {
      assert s[k] == s[c..d][k - c];
    }
    assert s[d] == s[d..d + |UnitKeys[ui]|][0];
  }

  /** A bracket right after `i` closes the condition. */
  lemma CloseAt(s: string, i: nat)
    requires i < |s| && s[i] == ')'
    ensures CloseAfter(s, i) == i + 1
  {
    assert SpaceEnd(s, i) == i;
  }

  /** Nothing but spaces after `i`: no further `and` condition, and the expression ends. */
  lemma SpacesToEnd(s: string, i: nat)
    requires i <= |s| && forall k :: i <= k < |s| ==> s[k] == ' '
    ensures AndTail(s, i)
  {
    SpaceRun(s, i);
    NoMatchAtChar(s, |s|, "and", 0);
  }

  lemma {:induction false} SpaceRun(s: string, i: nat)
    requires i <= |s| && forall k :: i <= k < |s| ==> s[k] == ' '
    ensures SpaceEnd(s, i) == |s|
    decreases |s| - i
  {
    if i < |s| {
      SpaceRun(s, i + 1);
    }
  }

  /** `\s*:\s*` read at a colon followed by one space and a non-space. */
  lemma ColonSpace(s: string, p: nat)
    requires p + 2 < |s| && s[p] == ':' && s[p + 1] == ' ' && !IsSpace(s[p + 2])
    ensures ColonAfter(s, p) == p + 2
  {
    assert SpaceEnd(s, p) == p;
    assert SpaceEnd(s, p + 2) == p + 2;
    assert SpaceEnd(s, p + 1) == SpaceEnd(s, p + 2);
  }

  /** Digits, a unit word and a bracket at `c` close the condition opened at `i`. */
  lemma SettingCloses(s: string, i: nat, c: nat, n: string, ui: nat)
    requires i < c && ui < |UnitKeys| && IsNumber(n)
    requires c + |n| + |UnitKeys[ui]| < |s|
    requires s[c..c + |n|] == n && s[c + |n|..c + |n| + |UnitKeys[ui]|] == UnitKeys[ui]
    requires s[c + |n| + |UnitKeys[ui]|] == ')'
    ensures SettingClose(s, i, c) == c + |n| + |UnitKeys[ui]| + 1
  {
    var d := c + |n|;
    var e := d + |UnitKeys[ui]|;
    DigitsOfNumber(s, c, n, ui);
    FirstSyntaxUnit(s, d, ui);
    SyntaxUnitWord(ui);
    Scans.AltEndOf(s, d, SyntaxUnits, SyntaxUnitIndex(ui));
    CloseAt(s, e);
    SettingCloseIs(s, i, c, d, e, e + 1);
  }

  lemma SyntaxUnitWord(ui: nat)
    requires ui < |UnitKeys|
    ensures SyntaxUnitIndex(ui) < |SyntaxUnits| && SyntaxUnits[SyntaxUnitIndex(ui)] == UnitKeys[ui]
  {
  }

  /** The setting reader, given the digits, the unit and the bracket it reads. */
  lemma SettingCloseIs(s: string, i: nat, c: nat, d: nat, u: nat, g: nat)
    requires i < c < d < u < g <= |s|
    requires Shapes.DigitEnd(s, c) == d && AltEnd(s, d, SyntaxUnits) == u && CloseAfter(s, u) == g
    ensures SettingClose(s, i, c) == g
  {
  }

  /** The text of a range condition, piece by piece. */
  predicate RangeLaidOut(s: string, prefix: string, si: nat, n: string, ui: nat)
    requires si < |SyntaxFeatures| && ui < |UnitKeys|
  {
    var p := 5 + |SyntaxFeatures[si]|;
    var d := p + 2 + |n|;
    var e := d + |UnitKeys[ui]|;
    |s| == e + 2 && s[0] == '(' && s[1..5] == prefix && s[5..p] == SyntaxFeatures[si] &&
    s[p] == ':' && s[p + 1] == ' ' && s[p + 2..d] == n && s[d..e] == UnitKeys[ui] &&
    s[e] == ')' && s[e + 1] == ' '
  }

  lemma RangeLaidOutSyntax(s: string, prefix: string, si: nat, n: string, ui: nat)
    requires prefix == "min-" || prefix == "max-"
    requires si < |SyntaxFeatures| && ui < |UnitKeys| && IsNumber(n)
    requires RangeLaidOut(s, prefix, si, n, ui)
    ensures MediaQuerySyntax(s)
  {
    LaidOutEdges(s, prefix, si, n, ui);
    RangeEndLaidOut(s, prefix, si, n, ui);
    RangeConditionSyntax(s);
  }

  lemma LaidOutEdges(s: string, prefix: string, si: nat, n: string, ui: nat)
    requires si < |SyntaxFeatures| && ui < |UnitKeys|
    requires RangeLaidOut(s, prefix, si, n, ui)
    ensures 5 < |s| && s[0] == '(' && s[|s| - 1] == ' ' && MatchAt(s, 1, prefix)
  {
    MatchAtSlice(s, 1, prefix);
  }

  /** A range condition that the range reader reads up to a final space passes the recogniser. */
  lemma RangeConditionSyntax(s: string)
    requires 5 < |s| && s[0] == '(' && s[|s| - 1] == ' '
    requires MatchAt(s, 1, "min-") || MatchAt(s, 1, "max-")
    requires RangeEnd(s, 0, 5) == |s| - 1
    ensures MediaQuerySyntax(s)
  {
    var e := |s| - 1;
    RangeOpener(s, 0);
    assert ConditionAt(s, 0) == e;
    SyntaxOfCondition(s, e);
  }

  /** `(` and `min-` or `max-` leave the rest of the condition to the range reader. */
  lemma RangeOpener(s: string, i: nat)
    requires i + 5 <= |s| && s[i] == '('
    requires MatchAt(s, i + 1, "min-") || MatchAt(s, i + 1, "max-")
    ensures ConditionAt(s, i) == RangeEnd(s, i, i + 5)
  {
    assert s[i + 1] == 'm';
    assert SpaceEnd(s, i + 1) == i + 1;
  }

  /** The range reader over a laid-out condition stops after its bracket. */
  lemma RangeEndLaidOut(s: string, prefix: string, si: nat, n: string, ui: nat)
    requires si < |SyntaxFeatures| && ui < |UnitKeys| && IsNumber(n)
    requires RangeLaidOut(s, prefix, si, n, ui)
    ensures RangeEnd(s, 0, 5) == |s| - 1
  {
    var p := 5 + |SyntaxFeatures[si]|;
    var c := p + 2;
    FirstSyntaxFeature(s, 5, si);
    assert s[c] == s[c..c + |n|][0] == n[0];
    ColonSpace(s, p);
    SettingCloses(s, 0, c, n, ui);
    Scans.AltEndOf(s, 5, SyntaxFeatures, si);
    RangeEndIs(s, 0, 5, p, c, |s| - 1);
  }

  /** The range reader, given the end of the feature, the colon and the setting it reads. */
  lemma RangeEndIs(s: string, i: nat, b: nat, m: nat, c: nat, e: nat)
    requires i < b < m < c <= |s|
    requires AltEnd(s, b, SyntaxFeatures) == m
    requires ColonAfter(s, m) == c
    requires SettingClose(s, i, c) == e
    ensures RangeEnd(s, i, b) == e
  {
  }

  /** A condition opened at the first character and followed by one space passes the recogniser. */
  lemma SyntaxOfCondition(s: string, e: nat)
    requires 0 < e && e + 1 == |s| && s[0] == '(' && s[e] == ' ' && ConditionAt(s, 0) == e
    ensures MediaQuerySyntax(s)
  {
    NoLeadingSpace(s);
    SpaceTail(s, e);
    SyntaxFrom(s, e);
  }

  lemma NoLeadingSpace(s: string)
    requires 0 < |s| && s[0] == '('
    ensures SpaceEnd(s, 0) == 0
  {
  }

  lemma SpaceTail(s: string, e: nat)
    requires e + 1 == |s| && s[e] == ' '
    ensures AndTail(s, e)
  {
    SpacesToEnd(s, e);
  }

  /** The recogniser accepts a condition at the start that its tail follows. */
  lemma SyntaxFrom(s: string, e: nat)
    requires 0 < e <= |s| && SpaceEnd(s, 0) == 0 && ConditionAt(s, 0) == e && AndTail(s, e)
    ensures MediaQuerySyntax(s)
  {
  }

  /** The pieces of the text after a condition's feature. */
  lemma SettingPieces(t: string, n: string, unit: string)
    requires t == ": " + n + unit + ") "
    ensures |t| == |n| + |unit| + 4 && t[0] == ':' && t[1] == ' '
    ensures t[2..2 + |n|] == n && t[2 + |n|..2 + |n| + |unit|] == unit
    ensures t[2 + |n| + |unit|] == ')' && t[3 + |n| + |unit|] == ' '
  {
    assert t == ": " + n + unit + ") ";
    Pieces(": ", n, unit + ") ");
    Pieces(": " + n, unit, ") ");
  }

  /** A range condition `(min-` or `(max-`, a feature, `: `, digits, a unit and `) ` passes the recogniser. */
  lemma RangeSyntax(prefix: string, si: nat, n: string, ui: nat)
    requires prefix == "min-" || prefix == "max-"
    requires si < |SyntaxFeatures| && ui < |UnitKeys| && IsNumber(n)
    ensures MediaQuerySyntax("(" + prefix + SyntaxFeatures[si] + ": " + n + UnitKeys[ui] + ") ")
  {
    var s := "(" + prefix + SyntaxFeatures[si] + ": " + n + UnitKeys[ui] + ") ";
    RangeLaidOutOf(prefix, si, n, ui);
    RangeLaidOutSyntax(s, prefix, si, n, ui);
  }

  lemma RangeLaidOutOf(prefix: string, si: nat, n: string, ui: nat)
    requires |prefix| == 4 && si < |SyntaxFeatures| && ui < |UnitKeys|
    ensures RangeLaidOut("(" + prefix + SyntaxFeatures[si] + ": " + n + UnitKeys[ui] + ") ", prefix, si, n, ui)
  {
    RangePieces(prefix, SyntaxFeatures[si], n, UnitKeys[ui]);
  }

  /** The pieces of `(`, a prefix, a feature, `: `, digits, a unit and `) `, by position. */
  lemma RangePieces(prefix: string, feature: string, n: string, unit: string)
    requires |prefix| == 4
    ensures var s := "(" + prefix + feature + ": " + n + unit + ") ";
      var p := 5 + |feature|;
      var d := p + 2 + |n|;
      var e := d + |unit|;
      |s| == e + 2 && s[0] == '(' && s[1..5] == prefix && s[5..p] == feature &&
      s[p] == ':' && s[p + 1] == ' ' && s[p + 2..d] == n && s[d..e] == unit &&
      s[e] == ')' && s[e + 1] == ' '
  {
    var head := "(" + prefix;
    var tail := ": " + n + unit + ") ";
    var s := "(" + prefix + feature + ": " + n + unit + ") ";
    RangeRegrouped(prefix, feature, n, unit);
    Pieces(head, feature, tail);
    HeadPieces(s, prefix);
    SettingPieces(tail, n, unit);
    TailPieces(s, 5 + |feature|, tail, n, unit);
  }

  lemma RangeRegrouped(prefix: string, feature: string, n: string, unit: string)
    ensures "(" + prefix + feature + ": " + n + unit + ") " == ("(" + prefix) + feature + (": " + n + unit + ") ")
  {
  }

  lemma HeadPieces(s: string, prefix: string)
    requires |prefix| == 4 && |s| >= 5 && s[..5] == "(" + prefix
    ensures s[0] == '(' && s[1..5] == prefix
  {
    assert s[0] == s[..5][0];
    assert s[1..5] == s[..5][1..5];
  }

  /** The facts about a setting text carried over to the place it sits in a longer string. */
  lemma TailPieces(s: string, p: nat, tail: string, n: string, unit: string)
    requires p <= |s| && s[p..] == tail && |tail| == |n| + |unit| + 4
    requires tail[0] == ':' && tail[1] == ' '
    requires tail[2..2 + |n|] == n && tail[2 + |n|..2 + |n| + |unit|] == unit
    requires tail[2 + |n| + |unit|] == ')' && tail[3 + |n| + |unit|] == ' '
    ensures var d := p + 2 + |n|;
      var e := d + |unit|;
      |s| == e + 2 && s[p] == ':' && s[p + 1] == ' ' && s[p + 2..d] == n && s[d..e] == unit &&
      s[e] == ')' && s[e + 1] == ' '
  {
    var d := p + 2 + |n|;
    var e := d + |unit|;
    assert s[p + 2..d] == tail[2..2 + |n|];
    assert s[d..e] == tail[2 + |n|..2 + |n| + |unit|];
    assert s[p] == tail[0] && s[p + 1] == tail[1] && s[e] == tail[e - p] && s[e + 1] == tail[e + 1 - p];
  }

  /** An orientation with a number instead of `landscape` or `portrait` fails the recogniser. */
  lemma OrientationNumberSyntax(n: string, ui: nat)
    requires ui < |UnitKeys| && IsNumber(n)
    ensures !MediaQuerySyntax("(orientation: " + n + UnitKeys[ui] + ") ")
  {
    var s := "(orientation: " + n + UnitKeys[ui] + ") ";
    OrientationLaidOut(n, UnitKeys[ui] + ") ");
    ColonSpace(s, 12);
    OrientationOpens(s, 0);
    OrientationNumber(s, 14);
    NoCondition(s);
  }

  /** The pieces of `(orientation: ` followed by digits and more text. */
  lemma OrientationLaidOut(n: string, rest: string)
    requires IsNumber(n)
    ensures var s := "(orientation: " + n + rest;
      14 < |s| && s[0] == '(' && s[1..12] == "orientation" && s[12] == ':' && s[13] == ' ' && IsDigit(s[14])
  {
    var s := "(orientation: " + n + rest;
    assert s[..14] == "(orientation: ";
    assert s[1..12] == s[..14][1..12];
    assert s[14] == n[0];
  }

  /** `(` and `orientation` leave the rest of the condition to the orientation reader. */
  lemma OrientationOpens(s: string, i: nat)
    requires i + 12 <= |s| && s[i] == '(' && s[i + 1..i + 12] == "orientation"
    ensures ConditionAt(s, i) == OrientationEnd(s, i, i + 12)
  {
    MatchAtSlice(s, i + 1, "orientation");
    assert s[i + 1] == s[i + 1..i + 12][0];
    assert SpaceEnd(s, i + 1) == i + 1;
    NoMatchAtChar(s, i + 1, "min-", 0);
    NoMatchAtChar(s, i + 1, "max-", 0);
  }

  /** `(orientation: landscape)` and `(orientation: portrait)` pass the recogniser. */
  lemma OrientationWordSyntax(oi: nat)
    requires oi < |Orientations|
    ensures MediaQuerySyntax("(orientation: " + Orientations[oi] + ")")
  {
    var w := Orientations[oi];
    var s := "(orientation: " + w + ")";
    OrientationWordLaidOut(w);
    ColonSpace(s, 12);
    OrientationOpens(s, 0);
    FirstOrientation(s, 14, oi);
    CloseAt(s, 14 + |w|);
    OrientationEndIs(s, 0, 12, 14, 14 + |w|, |s|);
    NoLeadingSpace(s);
    SpacesToEnd(s, |s|);
    SyntaxFrom(s, |s|);
  }

  lemma OrientationWordLaidOut(w: string)
    requires |w| > 0
    ensures var s := "(orientation: " + w + ")";
      |s| == 15 + |w| && s[0] == '(' && s[1..12] == "orientation" && s[12] == ':' && s[13] == ' ' &&
      s[14..14 + |w|] == w && s[14] == w[0] && s[14 + |w|] == ')'
  {
    var s := "(orientation: " + w + ")";
    assert s[..14] == "(orientation: ";
    assert s[1..12] == s[..14][1..12];
    assert s[14..14 + |w|] == w;
    assert s[14] == s[14..14 + |w|][0];
  }

  /** The orientation word at `c` is the alternative the expression takes. */
  lemma FirstOrientation(s: string, c: nat, oi: nat)
    requires oi < |Orientations| && c + |Orientations[oi]| <= |s|
    requires s[c..c + |Orientations[oi]|] == Orientations[oi]
    ensures AltEnd(s, c, Orientations) == c + |Orientations[oi]|
  {
    MatchAtSlice(s, c, Orientations[oi]);
    if oi == 1 {
      assert s[c] == s[c..c + |Orientations[oi]|][0];
      NoMatchAtChar(s, c, Orientations[0], 0);
    }
    Scans.FirstAltIs(s, c, Orientations, oi, 0);
    Scans.AltEndOf(s, c, Orientations, oi);
  }

  /** The orientation reader, given the colon, the word and the bracket it reads. */
  lemma OrientationEndIs(s: string, i: nat, b: nat, c: nat, o: nat, g: nat)
    requires i < b < c < o < g <= |s|
    requires ColonAfter(s, b) == c && AltEnd(s, c, Orientations) == o && CloseAfter(s, o) == g
    ensures OrientationEnd(s, i, b) == g
  {
  }

  /** A digit where `landscape` or `portrait` should be: no orientation condition. */
  lemma OrientationNumber(s: string, c: nat)
    requires 12 < c < |s| && ColonAfter(s, 12) == c && IsDigit(s[c])
    ensures OrientationEnd(s, 0, 12) == 0
  {
    forall j | 0 <= j < |Orientations| ensures !MatchAt(s, c, Orientations[j]) {
      NoMatchAtChar(s, c, Orientations[j], 0);
    }
    assert FirstAlt(s, c, Orientations, 0) == |Orientations|;
    Scans.AltEndNone(s, c, Orientations);
  }

  /** Without a condition at its opening bracket, a string is no media query. */
  lemma NoCondition(s: string)
    requires 0 < |s| && s[0] == '(' && ConditionAt(s, 0) == 0
    ensures !MediaQuerySyntax(s)
  {
    assert SpaceEnd(s, 0) == 0;
  }

  // ---------------------------------------------------------------------------
  // A one-condition numeric token, end to end

  /** The rewrite of `MQ<Feature><digits><Unit>_` is the CSS condition, lower-cased and bracketed. */
  lemma RewriteOfCondition(fi: nat, n: string, ui: nat)
    requires fi < |MediaFeatures| && ui < |MediaUnits| && IsNumber(n)
    ensures FeatureKeys[fi] in MediaWords
    ensures Rewrite(Token(MediaFeatures[fi], n, MediaUnits[ui])) == MediaWords[FeatureKeys[fi]] + n + UnitKeys[ui] + ") "
  {
    var token := Token(MediaFeatures[fi], n, MediaUnits[ui]);
    GroupsOfCondition(fi, n, ui);
    StripCondition(fi, n, ui);
    OneRound(fi, n, ui);
    RoundOfCondition(fi, n, ui);
  }

  /** `min-` or `max-`, for the range features. */
  function RangePrefix(fi: nat): string
  {
    if fi in {1, 2, 6} then "max-" else "min-"
  }

  /** The recogniser's feature word for a range feature. */
  function RangeFeature(fi: nat): nat
  {
    if fi in {1, 3} then 0 else if fi in {2, 4} then 1 else 2
  }

  lemma OpenerOfRange(fi: nat)
    requires 0 < fi < |FeatureKeys|
    ensures FeatureKeys[fi] in MediaWords
    ensures MediaWords[FeatureKeys[fi]] == "(" + RangePrefix(fi) + SyntaxFeatures[RangeFeature(fi)] + ": "
  {
    OpenerWord(fi);
    RangeOpeners(fi);
  }

  lemma RangeOpeners(fi: nat)
    requires 0 < fi < |Openers|
    ensures Openers[fi] == "(" + RangePrefix(fi) + SyntaxFeatures[RangeFeature(fi)] + ": "
  {
  }

  /**
    A token naming one numeric condition becomes that CSS condition; every
    range feature passes the recogniser and gains `@media `, while an
    orientation given a number does not.
   */
  lemma NumericCondition(fi: nat, n: string, ui: nat)
    requires fi < |MediaFeatures| && ui < |MediaUnits| && IsNumber(n)
    ensures FeatureKeys[fi] in MediaWords
    ensures var condition := MediaWords[FeatureKeys[fi]] + n + UnitKeys[ui] + ") ";
      MediaRule(Some(Token(MediaFeatures[fi], n, MediaUnits[ui]))) ==
        Some(if fi == 0 then condition else "@media " + condition)
  {
    RewriteOfCondition(fi, n, ui);
    ConditionSyntax(fi, n, ui);
    var token := Token(MediaFeatures[fi], n, MediaUnits[ui]);
    assert Truthy(Some(token));
  }

  /** A range condition token becomes `@media ` and its CSS condition. */
  lemma RangeRule(fi: nat, n: string, ui: nat)
    requires 0 < fi < |MediaFeatures| && ui < |MediaUnits| && IsNumber(n)
    ensures MediaRule(Some(Token(MediaFeatures[fi], n, MediaUnits[ui]))) ==
      Some("@media " + (Openers[fi] + n + UnitKeys[ui] + ") "))
  {
    NumericCondition(fi, n, ui);
    OpenerWord(fi);
  }

  /** Of the numeric conditions, exactly the range ones pass the recogniser. */
  lemma ConditionSyntax(fi: nat, n: string, ui: nat)
    requires fi < |FeatureKeys| && ui < |UnitKeys| && IsNumber(n)
    ensures FeatureKeys[fi] in MediaWords
    ensures MediaQuerySyntax(MediaWords[FeatureKeys[fi]] + n + UnitKeys[ui] + ") ") <==> fi != 0
  {
    if fi == 0 {
      OrientationWord();
      OrientationNumberSyntax(n, ui);
    } else {
      OpenerOfRange(fi);
      RangeSyntax(RangePrefix(fi), RangeFeature(fi), n, ui);
    }
  }

  lemma OrientationWord()
    ensures FeatureKeys[0] in MediaWords && MediaWords[FeatureKeys[0]] == "(orientation: "
  {
  }
}
