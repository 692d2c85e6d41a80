/**
  Worked instances of each stage of the compiler on typical class names,
  with a small excerpt of the two catalogues.
 */
module Examples {
  import opened Wrappers
  import opened Text
  import Shapes
  import Properties
  import Lookup
  import Scans
  import Values
  import Media
  import MediaLaws
  import Compiler

  /** An excerpt of `dySTYLE_Properties`. */
  const PropertyTable: seq<string> := ["background-color", "color", "padding-top"]

  /** An excerpt of `dySTYLE_Values`. */
  const ValueTable: seq<string> := ["border-box", "red"]

  // ---------------------------------------------------------------------------
  // Direction shorthands
  //
  // Each example names its class-name text through a parameter fixed by its
  // precondition, so that the verifier steps through the scanners as the
  // proof directs instead of unfolding them on the literal.

  /** Lowering is pinned down character by character. */
  lemma LowerSpelled(s: string, r: string)
    requires |s| == |r| && forall k :: 0 <= k < |s| ==> r[k] == LowerChar(s[k])
    ensures Lower(s) == r
  {
  }

  lemma LowerPadding(s: string)
    requires s == "Padding"
    ensures Lower(s) == "padding"
  {
    var r := "padding";
    forall k | 0 <= k < |s| ensures r[k] == LowerChar(s[k]) {
    }
    LowerSpelled(s, r);
  }

  lemma LowerMargin(s: string)
    requires s == "Margin"
    ensures Lower(s) == "margin"
  {
    var r := "margin";
    forall k | 0 <= k < |s| ensures r[k] == LowerChar(s[k]) {
    }
    LowerSpelled(s, r);
  }

  /** A segment holding a shorthand pushes its expansion. */
  lemma Expanded(s: string, sh: Properties.Shorthand)
    requires Properties.FindShorthand(s, 0) == Some(sh)
    ensures Properties.ValidateProperty(PropertyTable, s) == Ok(Properties.Expand(s, sh))
  {
  }

  lemma PaddingTRFound(s: string)
    requires s == "PaddingTR"
    ensures Properties.FindShorthand(s, 0) == Some(Properties.Shorthand("Padding", "TR"))
  {
    MatchAtSlice(s, 0, "Padding");
    assert Properties.LeaderAt(s, 0) == Some("Padding");
    assert Properties.SideEnd(s, 7, 4) == 9;
    assert s[7..9] == "TR";
  }

  lemma PaddingNames(p: string)
    requires p == "padding"
    ensures p + "-" + "top" == p + "-top" == "padding-top"
    ensures p + "-" + "right" == "padding-right" && p + "-bottom" == "padding-bottom"
  {
  }

  /** The side letters `TR` and the axis letter `Y` after `Padding`. */
  lemma PaddingExpansion(s: string, sh: Properties.Shorthand)
    requires sh.leader == "Padding" && (sh.codes == "TR" || sh.codes == "Y")
    ensures sh.codes == "TR" ==> Properties.Expand(s, sh) == Properties.Pushes(["padding-top", "padding-right"], [])
    ensures sh.codes == "Y" ==> Properties.Expand(s, sh) == Properties.Pushes(["padding-top", "padding-bottom"], [])
  {
    LowerPadding(sh.leader);
    PaddingNames(Lower(sh.leader));
  }

  /** `PaddingTR` is `padding-top, padding-right`, in letter order. */
  lemma PaddingTR(s: string)
    requires s == "PaddingTR"
    ensures Properties.ValidateProperty(PropertyTable, s) ==
      Ok(Properties.Pushes(["padding-top", "padding-right"], []))
  {
    var sh := Properties.Shorthand("Padding", "TR");
    PaddingTRFound(s);
    Expanded(s, sh);
    PaddingExpansion(s, sh);
  }

  lemma PaddingYFound(s: string)
    requires s == "PaddingY"
    ensures Properties.FindShorthand(s, 0) == Some(Properties.Shorthand("Padding", "Y"))
  {
    MatchAtSlice(s, 0, "Padding");
    assert Properties.LeaderAt(s, 0) == Some("Padding");
    assert Properties.SideEnd(s, 7, 4) == 7;
    assert [s[7]] == "Y";
  }

  /** `PaddingY` is `padding-top, padding-bottom`. */
  lemma PaddingY(s: string)
    requires s == "PaddingY"
    ensures Properties.ValidateProperty(PropertyTable, s) ==
      Ok(Properties.Pushes(["padding-top", "padding-bottom"], []))
  {
    var sh := Properties.Shorthand("Padding", "Y");
    PaddingYFound(s);
    Expanded(s, sh);
    PaddingExpansion(s, sh);
  }

  lemma MarginXFound(s: string)
    requires s == "MarginX"
    ensures Properties.FindShorthand(s, 0) == Some(Properties.Shorthand("Margin", "X"))
  {
    MediaLaws.NoMatchAtChar(s, 0, "Padding", 0);
    MatchAtSlice(s, 0, "Margin");
    assert Properties.LeaderAt(s, 0) == Some("Margin");
    assert Properties.SideEnd(s, 6, 4) == 6;
    assert [s[6]] == "X";
  }

  lemma MarginXExpansion(s: string, sh: Properties.Shorthand)
    requires sh == Properties.Shorthand("Margin", "X")
    ensures Properties.Expand(s, sh) == Properties.Pushes(["margin-right", "margin-left"], [])
  {
    LowerMargin(sh.leader);
    MarginNames(Lower(sh.leader));
  }

  lemma MarginNames(m: string)
    requires m == "margin"
    ensures m + "-right" == "margin-right" && m + "-left" == "margin-left"
  {
  }

  /** `MarginX` is `margin-right, margin-left`. */
  lemma MarginX(s: string)
    requires s == "MarginX"
    ensures Properties.ValidateProperty(PropertyTable, s) ==
      Ok(Properties.Pushes(["margin-right", "margin-left"], []))
  {
    var sh := Properties.Shorthand("Margin", "X");
    MarginXFound(s);
    Expanded(s, sh);
    MarginXExpansion(s, sh);
  }

  /** A segment without the capitals `P` and `M` holds no direction shorthand. */
  lemma {:induction false} NoLeader(s: string, i: nat)
    requires i <= |s| && 'P' !in s && 'M' !in s
    ensures Properties.FindShorthand(s, i).None?
    decreases |s| - i
  {
    MediaLaws.NoMatchAtChar(s, i, "Padding", 0);
    MediaLaws.NoMatchAtChar(s, i, "Margin", 0);
    if i < |s| {
      NoLeader(s, i + 1);
    }
  }

  // ---------------------------------------------------------------------------
  // Catalogue lookup

  /** `background-color` is the entry that `BackgroundColor` and `Bgc` both find. */
  lemma CanonicalBackgroundColor(name: string)
    requires Lookup.Strip(name) == "backgroundcolor"
    ensures Lookup.Canonical(PropertyTable, name) == Some("background-color")
  {
    BackgroundColorStripped(PropertyTable[0]);
    Lookup.CanonicalIsFirst(PropertyTable, name, 0);
  }

  lemma LowerBackgroundColor(s: string)
    requires s == "BackgroundColor"
    ensures Lower(s) == "backgroundcolor"
  {
    var r := "backgroundcolor";
    forall k | 0 <= k < |s| ensures r[k] == LowerChar(s[k]) {
    }
    LowerSpelled(s, r);
  }

  lemma LowerBgc(s: string)
    requires s == "Bgc"
    ensures Lower(s) == "bgc"
  {
    var r := "bgc";
    forall k | 0 <= k < |s| ensures r[k] == LowerChar(s[k]) {
    }
    LowerSpelled(s, r);
  }

  /** A segment without a shorthand pushes the catalogue entry its abbreviation-mapped name finds. */
  lemma Plain(s: string, lowered: string, name: string, entry: string)
    requires Properties.FindShorthand(s, 0).None? && Lower(s) == lowered
    requires lowered !in Properties.PrototypeMembers && Properties.Abbreviate(lowered) == name
    requires Lookup.Canonical(PropertyTable, name) == Some(entry)
    ensures Properties.ValidateProperty(PropertyTable, s) == Ok(Properties.Pushes([entry], [name]))
  {
  }

  lemma PlainName(lowered: string)
    requires lowered == "backgroundcolor"
    ensures lowered !in Properties.PrototypeMembers && Properties.Abbreviate(lowered) == lowered
    ensures Lookup.Strip(lowered) == "backgroundcolor"
  {
    assert lowered !in Properties.Abbreviations;
  }

  lemma AbbreviatedName(lowered: string, name: string)
    requires lowered == "bgc" && name == "background-color"
    ensures lowered !in Properties.PrototypeMembers && Properties.Abbreviate(lowered) == name
    ensures Lookup.Strip(name) == "backgroundcolor"
  {
    BgcEntry(lowered, name);
    assert lowered != Properties.PrototypeMembers[0] && lowered != Properties.PrototypeMembers[1];
    BackgroundColorStripped(name);
  }

  lemma BackgroundColorStripped(name: string)
    requires name == "background-color"
    ensures Lookup.Strip(name) == "backgroundcolor"
  {
    Scans.RemoveJoined(name, "background", "color");
  }

  lemma BgcEntry(lowered: string, name: string)
    requires lowered == "bgc" && name == "background-color"
    ensures lowered in Properties.Abbreviations && Properties.Abbreviations[lowered] == name
  {
  }

  /** `BackgroundColor` is `background-color`; the lowered name is recorded as invalidated. */
  lemma BackgroundColor(s: string)
    requires s == "BackgroundColor"
    ensures Properties.ValidateProperty(PropertyTable, s) ==
      Ok(Properties.Pushes(["background-color"], ["backgroundcolor"]))
  {
    var lowered := Lower(s);
    NoLeader(s, 0);
    LowerBackgroundColor(s);
    PlainName(lowered);
    CanonicalBackgroundColor(lowered);
    Plain(s, lowered, lowered, PropertyTable[0]);
  }

  /** The abbreviation `Bgc` is `background-color` too. */
  lemma Bgc(s: string)
    requires s == "Bgc"
    ensures Properties.ValidateProperty(PropertyTable, s) ==
      Ok(Properties.Pushes(["background-color"], ["background-color"]))
  {
    var lowered, name := Lower(s), PropertyTable[0];
    NoLeader(s, 0);
    LowerBgc(s);
    AbbreviatedName(lowered, name);
    CanonicalBackgroundColor(name);
    Plain(s, lowered, name, name);
  }

  // ---------------------------------------------------------------------------
  // Scanning steps

  lemma {:induction false} DigitRun(s: string, i: nat, j: nat)
    requires i <= j <= |s| && forall k :: i <= k < j ==> IsDigit(s[k])
    requires j == |s| || !IsDigit(s[j])
    ensures Shapes.DigitEnd(s, i) == j
    decreases j - i
  {
    if i < j {
      DigitRun(s, i + 1, j);
    }
  }

  lemma {:induction false} LowerRun(s: string, i: nat, j: nat)
    requires i <= j <= |s| && forall k :: i <= k < j ==> IsLower(s[k])
    requires j == |s| || !IsLower(s[j])
    ensures Shapes.LowerEnd(s, i) == j
    decreases j - i
  {
    if i < j {
      LowerRun(s, i + 1, j);
    }
  }

  lemma {:induction false} NoLeadingZeros(s: string, i: nat)
    requires i <= |s| && forall k :: i <= k < |s| ==> !Values.LeadingZeroAt(s, k)
    ensures Values.LeadingZerosFrom(s, i) == []
    decreases |s| - i
  {
    if i + 2 <= |s| {
      NoLeadingZeros(s, i + 1);
    }
  }

  /** No alternative occurs at any position from `i` to `j`, each told apart by its first or second character. */
  lemma NoAltsBetween(s: string, alts: seq<string>, i: nat, j: nat)
    requires forall a :: 0 <= a < |alts| ==> |alts[a]| >= 2
    requires forall k, a :: i <= k < j && 0 <= a < |alts| && k + 1 < |s| ==>
      s[k] != alts[a][0] || s[k + 1] != alts[a][1]
    ensures forall k, a :: i <= k < j && 0 <= a < |alts| ==> !MatchAt(s, k, alts[a])
  {
    forall k, a | i <= k < j && 0 <= a < |alts| ensures !MatchAt(s, k, alts[a]) {
      if k + 1 >= |s| || s[k] == alts[a][0] {
        MediaLaws.NoMatchAtChar(s, k, alts[a], 1);
      } else {
        MediaLaws.NoMatchAtChar(s, k, alts[a], 0);
      }
    }
  }

  // ---------------------------------------------------------------------------
  // Values

  lemma TenPercentShape(s: string)
    requires s == "10pct"
    ensures !StartsWith(s, "calc") && Shapes.IsNumericShape(s) && Values.NormalizeNumber(s) == s
  {
    MediaLaws.NoMatchAtChar(s, 0, "calc", 0);
    DigitRun(s, 0, 2);
    LowerRun(s, 2, 5);
    assert s[2..5] == "pct";
    Shapes.SpanInSlice(s, 2, 5, Shapes.LengthUnits);
    assert !Values.IsStrictHex(s);
    NoLeadingZeros(s, 0);
  }

  lemma TenPercentDecoded(s: string)
    requires s == "10pct"
    ensures MatchAll(s, Values.NumericSentinels) == ["pct"]
    ensures ReplaceAll(s, "pct", "%") == "10%"
  {
    var alts := Values.NumericSentinels;
    NoAltsBetween(s, alts, 0, 2);
    Scans.MatchAllSkip(s, alts, 0, 2);
    MediaLaws.NoMatchAtChar(s, 2, "mn", 0);
    MatchAtSlice(s, 2, "pct");
    assert FirstAlt(s, 2, alts, 0) == 1;
    Scans.ReplaceAllSkip(s, "pct", "%", 0, 2);
    assert s[..2] == "10";
  }

  /** `10pct` is `10%`. */
  lemma TenPercent(s: string)
    requires s == "10pct"
    ensures Values.ValidateValue(ValueTable, s) == ["10%"]
  {
    TenPercentShape(s);
    TenPercentDecoded(s);
  }

  lemma LeadingZeroShape(s: string)
    requires s == "05"
    ensures !StartsWith(s, "calc") && Shapes.IsNumericShape(s) && '-' !in s && !Values.IsStrictHex(s)
    ensures Values.LeadingZeros(s) == ["05"]
  {
    MediaLaws.NoMatchAtChar(s, 0, "calc", 0);
    DigitRun(s, 0, 2);
    assert Shapes.IsDigits(s);
    assert Values.LeadingZeroAt(s, 0);
    assert s[0..2] == "05";
  }

  lemma LeadingZeroRewritten(s: string)
    requires s == "05"
    ensures ReplaceFirst(s, "05", "0." + [s[1]]) == "0.5"
  {
    MatchAtSlice(s, 0, "05");
    assert s[2..] == [];
  }

  /** `05` is `0.5`. */
  lemma LeadingZero(s: string)
    requires s == "05"
    ensures Values.ValidateValue(ValueTable, s) == ["0.5"]
  {
    LeadingZeroShape(s);
    LeadingZeroRewritten(s);
    var r := "0.5";
    assert Values.RewriteDecimals(s, Values.LeadingZeros(s)) == Values.RewriteDecimals(r, []);
    Values.NoSentinels(r);
  }

  /** `mn`, one digit and a three-letter unit: a negative length that normalising leaves alone. */
  lemma NegativeUnitShape(s: string)
    requires |s| == 6 && s[..2] == "mn" && IsDigit(s[2]) && s[3..] in Shapes.LengthUnits
    requires forall k :: 3 <= k < 6 ==> IsLower(s[k])
    ensures !StartsWith(s, "calc") && Shapes.IsNumericShape(s) && Values.NormalizeNumber(s) == s
  {
    MediaLaws.NoMatchAtChar(s, 0, "calc", 0);
    MatchAtSlice(s, 0, "mn");
    DigitRun(s, 2, 3);
    assert s[3..6] == s[3..];
    Shapes.SpanInSlice(s, 3, 6, Shapes.LengthUnits);
    assert Shapes.IsNegative(s);
    assert !Values.IsStrictHex(s);
    NoLeadingZeros(s, 0);
  }

  lemma NegativeDecoded(s: string)
    requires s == "mn4rem"
    ensures MatchAll(s, Values.NumericSentinels) == ["mn"]
    ensures ReplaceAll(s, "mn", "-") == "-4rem"
  {
    var alts := Values.NumericSentinels;
    MatchAtSlice(s, 0, "mn");
    assert FirstAlt(s, 0, alts, 0) == 0;
    NoAltsBetween(s, alts, 2, 6);
    Scans.MatchAllSkip(s, alts, 2, 6);
    forall k | 2 <= k < 6 ensures !MatchAt(s, k, "mn") {
      assert "mn" == alts[0];
    }
    Scans.ReplaceAllSkip(s, "mn", "-", 2, 6);
    assert s[2..6] == "4rem";
  }

  /** `mn4rem` is `-4rem`. */
  lemma Negative(s: string)
    requires s == "mn4rem"
    ensures Values.ValidateValue(ValueTable, s) == ["-4rem"]
  {
    NegativeUnitShape(s);
    NegativeDecoded(s);
  }

  lemma BothSentinelsFound(s: string)
    requires s == "mn5pct"
    ensures MatchAll(s, Values.NumericSentinels) == ["mn", "pct"]
  {
    var alts := Values.NumericSentinels;
    MatchAtSlice(s, 0, "mn");
    Scans.MatchAllHit(s, alts, 0, 0);
    NoAltsBetween(s, alts, 2, 3);
    Scans.MatchAllSkip(s, alts, 2, 3);
    MediaLaws.NoMatchAtChar(s, 3, "mn", 0);
    MatchAtSlice(s, 3, "pct");
    Scans.MatchAllHit(s, alts, 3, 1);
  }

  lemma BothSentinelsReplaced(s: string)
    requires s == "mn5pct"
    ensures ReplaceAll(s, "mn", "-") == "-5pct"
    ensures ReplaceAll(s, "pct", "%") == "mn5%"
  {
    MatchAtSlice(s, 0, "mn");
    forall k | 2 <= k < 6 ensures !MatchAt(s, k, "mn") {
      MediaLaws.NoMatchAtChar(s, k, "mn", 0);
    }
    Scans.ReplaceAllSkip(s, "mn", "-", 2, 6);
    assert s[2..6] == "5pct";
    forall k | 0 <= k < 3 ensures !MatchAt(s, k, "pct") {
      MediaLaws.NoMatchAtChar(s, k, "pct", 0);
    }
    Scans.ReplaceAllSkip(s, "pct", "%", 0, 3);
    MatchAtSlice(s, 3, "pct");
    assert s[..3] == "mn5";
  }

  /**
    Every sentinel occurrence pushes its own value, with only that sentinel
    decoded: `mn5pct` pushes `-5pct` and `mn5%`, not `-5%`.
   */
  lemma SentinelPushesEach(s: string)
    requires s == "mn5pct"
    ensures Values.ValidateValue(ValueTable, s) == ["-5pct", "mn5%"]
  {
    NegativeUnitShape(s);
    BothSentinelsFound(s);
    BothSentinelsReplaced(s);
  }

  lemma BorderShape(s: string)
    requires s == "1px-solid-red"
    ensures !StartsWith(s, "calc") && Shapes.IsBorder(s)
  {
    MediaLaws.NoMatchAtChar(s, 0, "calc", 0);
    DigitRun(s, 0, 1);
    LowerRun(s, 1, 3);
    assert s[1..3] == "px";
    Shapes.SpanInSlice(s, 1, 3, Shapes.LengthUnits);
    LowerRun(s, 4, 9);
    LowerRun(s, 10, 13);
  }

  /** Turning lone hyphens into spaces, pinned down character by character. */
  lemma DehyphenSpelled(s: string, r: string)
    requires forall k :: 0 < k < |s| ==> !(s[k - 1] == '-' && s[k] == '-')
    requires |s| == |r| && forall k :: 0 <= k < |s| ==> r[k] == (if s[k] == '-' then ' ' else s[k])
    ensures Values.Dehyphen(s) == r
  {
    CollapseSingles(s, {'-'}, ' ');
  }

  lemma BorderSpaced(s: string)
    requires s == "1px-solid-red"
    ensures Values.Dehyphen(s) == "1px solid red"
  {
    var r := "1px solid red";
    forall k | 0 < k < |s| ensures !(s[k - 1] == '-' && s[k] == '-') {
    }
    forall k | 0 <= k < |s| ensures r[k] == (if s[k] == '-' then ' ' else s[k]) {
    }
    DehyphenSpelled(s, r);
  }

  lemma BorderNormalized(s: string)
    requires s == "1px solid red"
    ensures !Values.IsStrictHex(s) && Values.LeadingZeros(s) == []
    ensures MatchAll(s, Values.NumericSentinels) == []
  {
    NoLeadingZeros(s, 0);
    NoAltsBetween(s, Values.NumericSentinels, 0, |s|);
    Scans.MatchAllSkip(s, Values.NumericSentinels, 0, |s|);
  }

  /** `1px-solid-red` is `1px solid red`. */
  lemma Border(s: string)
    requires s == "1px-solid-red"
    ensures Values.ValidateValue(ValueTable, s) == ["1px solid red"]
  {
    BorderShape(s);
    BorderSpaced(s);
    BorderNormalized(Values.Dehyphen(s));
  }

  lemma TwoPercentsShape(s: string)
    requires s == "10pct-20pct"
    ensures !StartsWith(s, "calc") && Shapes.IsNumericShape(s)
  {
    MediaLaws.NoMatchAtChar(s, 0, "calc", 0);
    DigitRun(s, 0, 2);
    LowerRun(s, 2, 5);
    assert s[2..5] == "pct";
    Shapes.SpanInSlice(s, 2, 5, Shapes.LengthUnits);
    DigitRun(s, 6, 8);
    LowerRun(s, 8, 11);
    assert s[8..11] == "pct";
    Shapes.SpanInSlice(s, 8, 11, Shapes.LengthUnits);
    assert Shapes.DigitLengthFrom(s, 6);
  }

  lemma TwoPercentsPieces(s: string, a: string, b: string)
    requires s == "10pct-20pct" && a == "10pct" && b == "20pct"
    ensures s == a + "-" + b && a + " " + b == "10pct 20pct"
  {
  }

  /** The one hyphen becomes a space. */
  lemma TwoPercentsSpaced(s: string)
    requires s == "10pct-20pct"
    ensures '-' in s && Values.Dehyphen(s) == "10pct 20pct"
  {
    var a, b := "10pct", "20pct";
    TwoPercentsPieces(s, a, b);
    assert s[5] == '-';
    Values.DehyphenRun(a, "-", b);
  }

  /** After a stretch with no sentinel, `pct` at `j` is the next sentinel found. */
  lemma PctAfter(n: string, i: nat, j: nat)
    requires i <= j && j + 3 <= |n| && n[j..j + 3] == "pct"
    requires forall k, a :: i <= k < j && 0 <= a < |Values.NumericSentinels| ==> !MatchAt(n, k, Values.NumericSentinels[a])
    ensures MatchAllFrom(n, Values.NumericSentinels, i) == ["pct"] + MatchAllFrom(n, Values.NumericSentinels, j + 3)
  {
    var alts := Values.NumericSentinels;
    Scans.MatchAllSkip(n, alts, i, j);
    MediaLaws.NoMatchAtChar(n, j, "mn", 0);
    MatchAtSlice(n, j, "pct");
    Scans.MatchAllHit(n, alts, j, 1);
  }

  lemma TwoPercentsFound(n: string)
    requires n == "10pct 20pct"
    ensures !Values.IsStrictHex(n) && Values.LeadingZeros(n) == []
    ensures MatchAll(n, Values.NumericSentinels) == ["pct", "pct"]
  {
    NoLeadingZeros(n, 0);
    var alts := Values.NumericSentinels;
    NoAltsBetween(n, alts, 0, 2);
    PctAfter(n, 0, 2);
    NoAltsBetween(n, alts, 5, 8);
    PctAfter(n, 5, 8);
  }

  lemma PercentsJoined(a: string, b: string)
    requires a == "10" && b == " 20"
    ensures a + ("%" + (b + ("%" + []))) == "10% 20%"
  {
  }

  lemma TwoPercentsReplaced(n: string)
    requires n == "10pct 20pct"
    ensures ReplaceAll(n, "pct", "%") == "10% 20%"
  {
    forall k | 0 <= k < 2 ensures !MatchAt(n, k, "pct") {
      MediaLaws.NoMatchAtChar(n, k, "pct", 0);
    }
    Scans.ReplaceAllSkip(n, "pct", "%", 0, 2);
    MatchAtSlice(n, 2, "pct");
    forall k | 5 <= k < 8 ensures !MatchAt(n, k, "pct") {
      MediaLaws.NoMatchAtChar(n, k, "pct", 0);
    }
    Scans.ReplaceAllSkip(n, "pct", "%", 5, 8);
    MatchAtSlice(n, 8, "pct");
    assert ReplaceAllFrom(n, "pct", "%", 11) == [];
    PercentsJoined(n[0..2], n[5..8]);
  }

  /**
    Two `pct` occurrences push two values, each the whole segment with every
    `pct` decoded: `10pct-20pct` pushes `10% 20%` twice, so it validates only
    against a property list of two names (`PaddingY`, say).
   */
  lemma TwoPercents(s: string)
    requires s == "10pct-20pct"
    ensures Values.ValidateValue(ValueTable, s) == ["10% 20%", "10% 20%"]
  {
    TwoPercentsShape(s);
    TwoPercentsSpaced(s);
    TwoPercentsFound(Values.Dehyphen(s));
    TwoPercentsReplaced(Values.Dehyphen(s));
  }

  lemma CalcPieces(s: string, a: string, b: string)
    requires s == "calc(10px)" && a == "calc" && b == "10px"
    ensures s == a + "(" + (b + ")" + "") && a + "_" + (b + "_" + "") == "calc_10px_"
  {
  }

  /** A call `f(x)` of word characters sanitises to `f_x_`. */
  lemma SanitizeCall(f: string, x: string)
    requires |f| > 0 && |x| > 0
    requires forall k :: 0 <= k < |f| ==> IsWordChar(f[k])
    requires forall k :: 0 <= k < |x| ==> IsWordChar(x[k])
    ensures Compiler.Sanitize(f + "(" + (x + ")" + "")) == f + "_" + (x + "_" + "")
  {
    var t := x + ")" + "";
    SanitizeClose(x);
    assert t[0] == x[0];
    Compiler.SanitizeRun(f, "(", t);
  }

  lemma SanitizeClose(x: string)
    requires |x| > 0 && forall k :: 0 <= k < |x| ==> IsWordChar(x[k])
    ensures Compiler.Sanitize(x + ")" + "") == x + "_" + ""
  {
    assert Compiler.Sanitize("") == "";
    Compiler.SanitizeRun(x, ")", "");
  }

  /** Each bracket of `calc(10px)` becomes its own `_` in a class name. */
  lemma SanitizeCalc(s: string)
    requires s == "calc(10px)"
    ensures Compiler.Sanitize(s) == "calc_10px_"
  {
    var a, b := "calc", "10px";
    CalcPieces(s, a, b);
    SanitizeCall(a, b);
  }

  lemma CalcSpaced(s: string)
    requires s == "calc(10px-pl-5px)"
    ensures StartsWith(s, "calc") && Values.Dehyphen(s) == "calc(10px pl 5px)"
  {
    MatchAtSlice(s, 0, "calc");
    var r := "calc(10px pl 5px)";
    forall k | 0 < k < |s| ensures !(s[k - 1] == '-' && s[k] == '-') {
    }
    forall k | 0 <= k < |s| ensures r[k] == (if s[k] == '-' then ' ' else s[k]) {
    }
    DehyphenSpelled(s, r);
  }

  /** No sentinel starts in `calc(10px ` or in ` 5px)`. */
  lemma CalcPlain(s: string)
    requires s == "calc(10px pl 5px)"
    ensures forall k, a :: 0 <= k < 10 && 0 <= a < |Values.CalcSentinels| ==> !MatchAt(s, k, Values.CalcSentinels[a])
    ensures forall k, a :: 12 <= k < |s| && 0 <= a < |Values.CalcSentinels| ==> !MatchAt(s, k, Values.CalcSentinels[a])
  {
    NoAltsBetween(s, Values.CalcSentinels, 0, 10);
    NoAltsBetween(s, Values.CalcSentinels, 12, |s|);
  }

  lemma CalcMatches(s: string)
    requires s == "calc(10px pl 5px)"
    ensures MatchAll(s, Values.CalcSentinels) == ["pl"]
  {
    var alts := Values.CalcSentinels;
    CalcPlain(s);
    Scans.MatchAllSkip(s, alts, 0, 10);
    MatchAtSlice(s, 10, alts[0]);
    Scans.MatchAllHit(s, alts, 10, 0);
    Scans.MatchAllSkip(s, alts, 12, |s|);
  }

  lemma CalcReplaced(s: string)
    requires s == "calc(10px pl 5px)"
    ensures ReplaceAll(s, "pl", "+") == "calc(10px + 5px)"
  {
    var alts := Values.CalcSentinels;
    assert "pl" == alts[0];
    CalcPlain(s);
    Scans.ReplaceAllSkip(s, "pl", "+", 0, 10);
    MatchAtSlice(s, 10, "pl");
    Scans.ReplaceAllSkip(s, "pl", "+", 12, |s|);
    CalcJoined(s[..10], s[12..]);
  }

  lemma CalcJoined(a: string, b: string)
    requires a == "calc(10px " && b == " 5px)"
    ensures a + "+" + b == "calc(10px + 5px)"
  {
  }

  /** `calc(10px-pl-5px)` is `calc(10px + 5px)`. */
  lemma Calc(s: string)
    requires s == "calc(10px-pl-5px)"
    ensures Values.ValidateValue(ValueTable, s) == ["calc(10px + 5px)"]
  {
    CalcSpaced(s);
    var spaced := Values.Dehyphen(s);
    CalcMatches(spaced);
    CalcReplaced(spaced);
  }

  /** A word that starts with neither a digit, `#` nor `mn` has no numeric shape. */
  lemma WordNotNumeric(s: string)
    requires |s| > 0 && !IsDigit(s[0]) && s[0] != '#' && s[0] != 'm' && s[0] != 'c'
    ensures !StartsWith(s, "calc") && !Shapes.IsNumericShape(s)
  {
    MediaLaws.NoMatchAtChar(s, 0, "calc", 0);
    MediaLaws.NoMatchAtChar(s, 0, "mn", 0);
  }

  lemma ValueEntries()
    ensures Lookup.Strip(ValueTable[0]) == "borderbox" && Lookup.Strip(ValueTable[1]) == "red"
  {
    Scans.RemoveJoined(ValueTable[0], "border", "box");
  }

  /** `borderbox` finds the keyword `border-box`. */
  lemma Keyword(s: string)
    requires s == "borderbox"
    ensures Values.ValidateValue(ValueTable, s) == ["border-box"]
  {
    WordNotNumeric(s);
    ValueEntries();
    assert Lookup.Strip(s) == s;
    Values.KeywordLookup(ValueTable, s);
    assert Lookup.FirstMatchAt(ValueTable, s, 0);
  }

  /** A word that no catalogue entry spells pushes nothing. */
  lemma UnknownKeyword(s: string)
    requires s == "blurple"
    ensures Values.ValidateValue(ValueTable, s) == []
  {
    WordNotNumeric(s);
    ValueEntries();
    assert Lookup.Strip(s) == s;
    Values.KeywordLookup(ValueTable, s);
  }

  /** `#abc` is pushed as written. */
  lemma ShortHex(s: string)
    requires s == "#abc"
    ensures Values.ValidateValue(ValueTable, s) == [s]
  {
    assert Shapes.HexDigitsFrom(s, 4);
    assert Shapes.HexDigitsFrom(s, 3);
    assert Shapes.HexDigitsFrom(s, 2);
    assert Shapes.HexDigitsFrom(s, 1);
    Values.HexColourUnchanged(ValueTable, s);
  }

  // ---------------------------------------------------------------------------
  // Two consequences of rewriting decimals through a first-occurrence `replace`

  lemma FourDigitHexShape(s: string)
    requires s == "#0123"
    ensures !StartsWith(s, "calc") && Shapes.IsNumericShape(s) && '-' !in s && !Values.IsStrictHex(s)
    ensures Values.LeadingZeros(s) == ["01"]
  {
    MediaLaws.NoMatchAtChar(s, 0, "calc", 0);
    assert Shapes.HexDigitsFrom(s, 4);
    assert Shapes.HexDigitsFrom(s, 2);
    assert Shapes.HexDigitsFrom(s, 1);
    assert Values.LeadingZeroAt(s, 1) && s[1..3] == "01";
    assert Values.LeadingZerosFrom(s, 3) == [];
    assert Values.LeadingZerosFrom(s, 0) == Values.LeadingZerosFrom(s, 1);
  }

  /** A first-occurrence `replace` whose pattern first occurs at index 1 rewrites it there. */
  lemma ReplaceFirstAtOne(s: string, pat: string, rep: string)
    requires 0 < |pat| && 1 + |pat| <= |s| && s[0] != pat[0] && s[1..1 + |pat|] == pat
    ensures ReplaceFirst(s, pat, rep) == s[..1] + rep + s[1 + |pat|..]
  {
    MediaLaws.NoMatchAtChar(s, 0, pat, 0);
    Scans.ReplaceFirstSkip(s, pat, rep, 0, 1);
    MatchAtSlice(s, 1, pat);
  }

  /**
    A four-digit hex colour fits the hex shape but not the strict check that
    guards the decimal rewrite, so its `01` becomes `0.1`.
   */
  lemma FourDigitHexGainsPoint(s: string)
    requires s == "#0123"
    ensures Values.ValidateValue(ValueTable, s) == ["#0.123"]
  {
    FourDigitHexShape(s);
    ReplaceFirstAtOne(s, "01", "0.1");
    assert s[..1] == "#" && s[3..] == "23";
    var pair, r := "01", "#0.123";
    assert "0." + [pair[1]] == "0.1";
    assert Values.RewriteDecimals(s, [pair]) == Values.RewriteDecimals(r, []);
    Values.NoSentinels(r);
  }

  lemma DigitPairShape(s: string)
    requires s == "105-05"
    ensures !StartsWith(s, "calc") && Shapes.IsNumericShape(s) && '-' in s
    ensures Values.Dehyphen(s) == "105 05"
  {
    MediaLaws.NoMatchAtChar(s, 0, "calc", 0);
    DigitRun(s, 0, 3);
    DigitRun(s, 4, 6);
    assert Shapes.DigitsFrom(s, 4);
    assert Shapes.IsDigits(s);
    var r := "105 05";
    forall k | 0 < k < |s| ensures !(s[k - 1] == '-' && s[k] == '-') {
    }
    forall k | 0 <= k < |s| ensures r[k] == (if s[k] == '-' then ' ' else s[k]) {
    }
    DehyphenSpelled(s, r);
  }

  lemma DigitPairZeros(s: string)
    requires s == "105 05"
    ensures !Values.IsStrictHex(s) && Values.LeadingZeros(s) == ["05"]
  {
    assert !Values.LeadingZeroAt(s, 1);
    assert Values.LeadingZeroAt(s, 4) && s[4..6] == "05";
    assert Values.LeadingZerosFrom(s, 6) == [];
    assert Values.LeadingZerosFrom(s, 2) == Values.LeadingZerosFrom(s, 4);
    assert Values.LeadingZerosFrom(s, 0) == Values.LeadingZerosFrom(s, 2);
  }

  lemma DigitPairNormalized(s: string)
    requires s == "105-05"
    ensures Values.NormalizeNumber(s) == "10.5 05"
  {
    var spaced := "105 05";
    DigitPairShape(s);
    DigitPairZeros(spaced);
    ReplaceFirstAtOne(spaced, "05", "0.5");
    assert spaced[..1] == "1" && spaced[3..] == " 05";
    assert "0." + ["05"[1]] == "0.5";
    assert Values.RewriteDecimals(spaced, ["05"]) == Values.RewriteDecimals("10.5 05", []);
  }

  /**
    The `05` matched after the space is rewritten at its first occurrence,
    inside `105`: `105-05` becomes `10.5 05`.
   */
  lemma RewriteHitsEarlierOccurrence(s: string)
    requires s == "105-05"
    ensures Values.ValidateValue(ValueTable, s) == ["10.5 05"]
  {
    DigitPairShape(s);
    DigitPairNormalized(s);
    var r := "10.5 05";
    Values.NoSentinels(r);
  }

  // ---------------------------------------------------------------------------
  // Media tokens

  lemma MaxWidthToken(t: string, feature: string, n: string, unit: string)
    requires t == "MQMaxWidth600PX_" && feature == "MaxWidth" && n == "600" && unit == "PX"
    ensures MediaLaws.Token(feature, n, unit) == t
  {
  }

  lemma MaxWidthCondition(c: string, word: string, n: string, unit: string)
    requires c == word + n + unit + ") " && word == "(max-width: " && n == "600" && unit == "px"
    ensures c == "(max-width: 600px) "
    ensures "@media " + c == "@media (max-width: 600px) "
  {
  }

  lemma MaxWidthRule(t: string, n: string, word: string, unit: string)
    requires t == "MQMaxWidth600PX_" && n == "600"
    requires word == "(max-width: " && unit == "px"
    ensures Media.MediaRule(Some(t)) == Some("@media " + (word + n + unit + ") "))
  {
    var feature, big := Media.MediaFeatures[1], Media.MediaUnits[2];
    assert feature == "MaxWidth" && big == "PX";
    assert word == MediaLaws.Openers[1] && unit == MediaLaws.UnitKeys[2];
    assert MediaLaws.IsNumber(n);
    MaxWidthToken(t, feature, n, big);
    MediaLaws.RangeRule(1, n, 2);
  }

  /** `MQMaxWidth600PX_` is `@media (max-width: 600px) `, trailing space included. */
  lemma MaxWidth(t: string)
    requires t == "MQMaxWidth600PX_"
    ensures Media.MediaRule(Some(t)) == Some("@media (max-width: 600px) ")
  {
    var n, word, unit := "600", "(max-width: ", "px";
    var c := word + n + unit + ") ";
    MaxWidthRule(t, n, word, unit);
    MaxWidthCondition(c, word, n, unit);
  }

  /** The six capture groups: the whole repetition, then its first pair's feature and setting; no second pair. */
  lemma PortraitGroups(t: string)
    requires t == "MQOrientationPortrait_"
    ensures Media.Groups(t) == [Some(t[2..21]), Some(t[2..13]), Some(t[13..21]), None, None, None]
  {
    MediaLaws.SkipPrefix(t);
    PortraitPair(t);
    MediaLaws.NoFeatureAt(t, 21);
    assert Media.RepeatFrom(t, 21, None) == (21, None);
  }

  lemma PortraitPair(t: string)
    requires t == "MQOrientationPortrait_"
    ensures Media.PairAt(t, 2) == Some(Media.Pair(2, 13, 21))
  {
    assert t[2..13] == Media.MediaFeatures[0];
    MediaLaws.FeatureAt(t, 2, 0);
    assert t[13..21] == "Portrait";
    MatchAtSlice(t, 13, "Portrait");
    assert Media.SettingEnd(t, 13) == 21;
  }

  lemma PortraitStripped(t: string)
    requires t == "MQOrientationPortrait_"
    ensures Media.StripToken(t) == "orientationportrait"
  {
    var r := Lower(t);
    forall k | 0 <= k < |t| ensures r[k] == ("mq" + "orientationportrait" + "_")[k] {
      assert r[k] == LowerChar(t[k]);
    }
    assert r == "mq" + "orientationportrait" + "_";
    MediaLaws.StripLowered(t, "orientationportrait");
  }

  /** A string where no unit word starts leaves the unit step of a round alone. */
  lemma NoUnits(s: string)
    requires forall k :: 0 <= k < |s| ==> Media.UnitRunEnd(s, k) == k
    ensures Media.CloseUnits(s, Media.UnitRunsFrom(s, 0)) == s
  {
    MediaLaws.UnitRunsSkip(s, 0, |s|);
  }

  lemma UnitFree(s: string)
    requires forall k, a :: 0 <= k < |s| && 0 <= a < |Media.LengthWords| && k + 1 < |s| ==>
      s[k] != Media.LengthWords[a][0] || s[k + 1] != Media.LengthWords[a][1]
    ensures forall k :: 0 <= k < |s| ==> Media.UnitRunEnd(s, k) == k
  {
    NoAltsBetween(s, Media.LengthWords, 0, |s|);
    forall k | 0 <= k < |s| ensures Media.UnitRunEnd(s, k) == k {
      assert FirstAlt(s, k, Media.LengthWords, 0) == |Media.LengthWords|;
    }
  }

  lemma PortraitStarted(s: string)
    requires s == "orientationportrait"
    ensures Media.ReplaceKeyRuns(s, "orientation", "(orientation: ") == "(orientation: portrait"
  {
    var key, open, rest := "orientation", "(orientation: ", "portrait";
    assert s[..11] == key && s[11..] == rest;
    MatchAtSlice(s, 0, key);
    assert CharRunEnd(s, 11, 'n') == 11;
    assert Media.KeyRunEnd(s, 0, key) == 11;
    assert Media.ReplaceKeyRuns(s, key, open) == open + Media.ReplaceKeyRunsFrom(s, key, open, 11);
    MediaLaws.KeyRunsBetween(s, key, open, 11, |s|);
    assert Media.ReplaceKeyRunsFrom(s, key, open, |s|) == [];
    assert open + rest == "(orientation: portrait";
  }

  lemma PortraitOpened(u: string)
    requires u == "(orientation: portrait"
    ensures Media.CloseUnits(u, Media.UnitRunsFrom(u, 0)) == u
    ensures Media.JoinConditionsFrom(Media.DropClosersFrom(u, 0), 0) == u
  {
    UnitFree(u);
    NoUnits(u);
    assert u[0..|u|] == u;
    MediaLaws.DropClosersSkip(u, 0, |u|);
    assert Media.DropClosersFrom(u, 0) == u;
    MediaLaws.JoinConditionsSkip(u, 0, |u|);
    assert Media.JoinConditionsFrom(u, 0) == u;
  }

  lemma PortraitRoundOne(s: string)
    requires s == "orientationportrait"
    ensures Media.RewriteRound(s, "orientation") == "(orientation: portrait"
  {
    var key := "orientation";
    var u := Media.ReplaceKeyRuns(s, key, Media.MediaWords[key]);
    PortraitStarted(s);
    PortraitOpened(u);
  }

  lemma PortraitClosed(s: string)
    requires s == "(orientation: portrait"
    ensures Media.ReplaceKeyRuns(s, "portrait", "portrait)") == "(orientation: portrait)"
  {
    var key, close, head := "portrait", "portrait)", "(orientation: ";
    assert s[..14] == head && s[14..] == key;
    forall k | 0 <= k < 14 ensures !MatchAt(s, k, key) {
      assert s[k] == head[k];
      assert 'p' !in head;
      MediaLaws.NoMatchAtChar(s, k, key, 0);
    }
    MediaLaws.KeyRunsBetween(s, key, close, 0, 14);
    MatchAtSlice(s, 14, key);
    assert CharRunEnd(s, 22, 't') == 22;
    assert Media.KeyRunEnd(s, 14, key) == 22;
    assert Media.ReplaceKeyRunsFrom(s, key, close, 14) == close + Media.ReplaceKeyRunsFrom(s, key, close, 22);
    assert Media.ReplaceKeyRunsFrom(s, key, close, 22) == [];
    assert head + close == "(orientation: portrait)";
  }

  lemma PortraitBracketKept(v: string)
    requires v == "(orientation: portrait)"
    ensures Media.JoinConditionsFrom(Media.DropClosersFrom(v, 0), 0) == v
  {
    MediaLaws.DropClosersSkip(v, 0, 22);
    assert CharRunEnd(v, 22, ')') == 23 && SpaceEnd(v, 23) == 23;
    assert Media.DropClosersFrom(v, 22) == ")";
    MediaLaws.JoinConditionsSkip(v, 0, 22);
    assert Media.JoinConditionsFrom(v, 22) == ")";
    assert v[..22] + ")" == v;
  }

  lemma PortraitRoundTwo(s: string)
    requires s == "(orientation: portrait"
    ensures Media.RewriteRound(s, "portrait") == "(orientation: portrait)"
  {
    var key := "portrait";
    var v := Media.ReplaceKeyRuns(s, key, Media.MediaWords[key]);
    PortraitClosed(s);
    UnitFree(v);
    NoUnits(v);
    PortraitBracketKept(v);
  }

  lemma LowerOrientation(s: string)
    requires s == "Orientation"
    ensures Lower(s) == "orientation"
  {
    var r := "orientation";
    forall k | 0 <= k < |s| ensures r[k] == LowerChar(s[k]) {
    }
    LowerSpelled(s, r);
  }

  lemma LowerPortrait(s: string)
    requires s == "Portrait"
    ensures Lower(s) == "portrait"
  {
    var r := "portrait";
    forall k | 0 <= k < |s| ensures r[k] == LowerChar(s[k]) {
    }
    LowerSpelled(s, r);
  }

  /** Absent groups change nothing. */
  lemma {:induction false} AbsentGroups(s: string, groups: seq<Option<string>>)
    requires forall k :: 0 <= k < |groups| ==> groups[k].None?
    ensures Media.RewriteGroups(s, groups) == s
    decreases |groups|
  {
    if |groups| > 0 {
      AbsentGroups(s, groups[1..]);
    }
  }

  lemma PortraitSlices(t: string)
    requires t == "MQOrientationPortrait_"
    ensures t[2..13] == "Orientation" && t[13..21] == "Portrait"
  {
  }

  /** The lowered groups: the whole repetition is no key, then the feature, the setting, and nothing. */
  lemma PortraitKeys(t: string)
    requires t == "MQOrientationPortrait_"
    ensures var groups := Media.Groups(t);
      |groups| == 6 && groups[0].Some? && groups[1].Some? && groups[2].Some? &&
      Lower(groups[0].value) !in Media.MediaWords &&
      Lower(groups[1].value) == "orientation" && Lower(groups[2].value) == "portrait" &&
      groups[3].None? && groups[4].None? && groups[5].None?
  {
    PortraitGroups(t);
    PortraitSlices(t);
    var whole, feature, setting := t[2..21], t[2..13], t[13..21];
    assert |Lower(whole)| == 19;
    LowerOrientation(feature);
    LowerPortrait(setting);
  }

  /** A group that is no key of the word map is skipped. */
  lemma SkipGroup(s: string, groups: seq<Option<string>>)
    requires |groups| > 0 && groups[0].Some? && Lower(groups[0].value) !in Media.MediaWords
    ensures Media.RewriteGroups(s, groups) == Media.RewriteGroups(s, groups[1..])
  {
  }

  /** A group spelling a key of the word map triggers a round for that key. */
  lemma RoundGroup(s: string, groups: seq<Option<string>>, key: string)
    requires |groups| > 0 && groups[0].Some? && Lower(groups[0].value) == key && key in Media.MediaWords
    ensures Media.RewriteGroups(s, groups) == Media.RewriteGroups(Media.RewriteRound(s, key), groups[1..])
  {
  }

  lemma RewriteOf(t: string)
    requires |Media.Groups(t)| > 2
    ensures Media.Rewrite(t) == Media.RewriteGroups(Media.StripToken(t), Media.Groups(t))
  {
  }

  lemma PortraitWords(a: string, b: string)
    requires a == "orientation" && b == "portrait"
    ensures a in Media.MediaWords && b in Media.MediaWords
  {
  }

  /** Six groups of which only the second and third spell keys run two rounds, in group order. */
  lemma TwoRounds(s: string, groups: seq<Option<string>>, a: string, b: string)
    requires |groups| == 6 && groups[0].Some? && groups[1].Some? && groups[2].Some?
    requires Lower(groups[0].value) !in Media.MediaWords
    requires Lower(groups[1].value) == a && Lower(groups[2].value) == b
    requires a in Media.MediaWords && b in Media.MediaWords
    requires groups[3].None? && groups[4].None? && groups[5].None?
    ensures Media.RewriteGroups(s, groups) == Media.RewriteRound(Media.RewriteRound(s, a), b)
  {
    var u := Media.RewriteRound(s, a);
    SkipGroup(s, groups);
    RoundGroup(s, groups[1..], a);
    RoundGroup(u, groups[2..], b);
    AbsentGroups(Media.RewriteRound(u, b), groups[3..]);
    assert groups[1..][1..] == groups[2..] && groups[2..][1..] == groups[3..];
  }

  /** The group loop over the groups of `MQOrientationPortrait_`. */
  lemma PortraitLoop(t: string)
    requires var groups := Media.Groups(t);
      |groups| == 6 && groups[0].Some? && groups[1].Some? && groups[2].Some? &&
      Lower(groups[0].value) !in Media.MediaWords &&
      Lower(groups[1].value) == "orientation" && Lower(groups[2].value) == "portrait" &&
      groups[3].None? && groups[4].None? && groups[5].None?
    requires Media.StripToken(t) == "orientationportrait"
    ensures Media.Rewrite(t) == "(orientation: portrait)"
  {
    var groups := Media.Groups(t);
    var s := Media.StripToken(t);
    var a, b := Lower(groups[1].value), Lower(groups[2].value);
    PortraitWords(a, b);
    TwoRounds(s, groups, a, b);
    PortraitRoundOne(s);
    PortraitRoundTwo(Media.RewriteRound(s, a));
    RewriteOf(t);
  }

  /**
    `MQOrientationPortrait_` rewrites to `(orientation: portrait)`: the whole
    repetition is no key of the word map, the feature opens the condition and
    the setting closes it.
   */
  lemma PortraitRewrite(t: string)
    requires t == "MQOrientationPortrait_"
    ensures Media.Rewrite(t) == "(orientation: portrait)"
  {
    PortraitKeys(t);
    PortraitStripped(t);
    PortraitLoop(t);
  }

  /** `(orientation: portrait)` is a media query. */
  lemma PortraitSyntax(s: string)
    requires s == "(orientation: portrait)"
    ensures Media.MediaQuerySyntax(s)
  {
    var w := Media.Orientations[1];
    assert s == "(orientation: " + w + ")";
    MediaLaws.OrientationWordSyntax(1);
  }

  lemma PortraitPrefixed(c: string, m: string)
    requires c == "(orientation: portrait)" && m == "@media "
    ensures m + c == "@media (orientation: portrait)"
  {
    var r := m + c;
    forall k | 0 <= k < |r| ensures r[k] == "@media (orientation: portrait)"[k] {
      if k < |m| { assert r[k] == m[k]; } else { assert r[k] == c[k - |m|]; }
    }
  }

  /** `MQOrientationPortrait_` is the rule `@media (orientation: portrait)`. */
  lemma Portrait(t: string)
    requires t == "MQOrientationPortrait_"
    ensures Media.MediaRule(Some(t)) == Some("@media (orientation: portrait)")
  {
    var c := Media.Rewrite(t);
    PortraitRewrite(t);
    PortraitSyntax(c);
    var r := Media.MediaRule(Some(t));
    assert r.Some? && r.value == "@media " + c;
    PortraitPrefixed(c, "@media ");
  }

}
