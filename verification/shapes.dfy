/**
  The value-shape recognisers of dySTYLE: each predicate accepts exactly the
  strings its anchored pattern (`^...$`) accepts.

  The patterns are regular and, read left to right, need no backtracking once two
  facts are used: a run of digits is always followed by a non-digit, and a length
  unit is always followed by a non-letter (`-`, `)` or the end), so the unit is
  the whole run of lower-case letters after the digits. The one place where a unit
  is directly followed by letters (`-5pxfitcontent(` in the fit-content form) is
  handled on its own.
 */
module Shapes {
  import opened Text

  /** The unit alternatives of `lengthsPattern`. */
  const LengthUnits: seq<string> :=
    ["px", "em", "rem", "cm", "mm", "in", "pt", "pct", "pc", "vh", "vw", "vmin", "vmax", "ch", "ex", "fr"]

  /** The operator sentinels a `calc(...)` token may carry. */
  const CalcOperators: seq<string> := ["pl", "mn", "mp", "dv"]

  // ---------------------------------------------------------------------------
  // Runs and spans

  function DigitEnd(s: string, i: nat): (j: nat)
    requires i <= |s|
    ensures i <= j <= |s|
    ensures forall k :: i <= k < j ==> IsDigit(s[k])
    ensures j == |s| || !IsDigit(s[j])
    decreases |s| - i
  {
    if i < |s| && IsDigit(s[i]) then DigitEnd(s, i + 1) else i
  }

  function LowerEnd(s: string, i: nat): (j: nat)
    requires i <= |s|
    ensures i <= j <= |s|
    ensures forall k :: i <= k < j ==> IsLower(s[k])
    ensures j == |s| || !IsLower(s[j])
    decreases |s| - i
  {
    if i < |s| && IsLower(s[i]) then LowerEnd(s, i + 1) else i
  }

  predicate SpanInFrom(s: string, i: nat, j: nat, words: seq<string>, k: nat)
    decreases |words| - k
  {
    k < |words| && ((j == i + |words[k]| && MatchAt(s, i, words[k])) || SpanInFrom(s, i, j, words, k + 1))
  }

  /** `s[i..j]` is one of `words`. */
  predicate SpanIn(s: string, i: nat, j: nat, words: seq<string>)
  {
    SpanInFrom(s, i, j, words, 0)
  }

  lemma {:induction false} SpanInFromSlice(s: string, i: nat, j: nat, words: seq<string>, k: nat)
    requires k <= |words|
    ensures SpanInFrom(s, i, j, words, k) <==> i <= j <= |s| && s[i..j] in words[k..]
    decreases |words| - k
  {
    if k < |words| {
      SpanInFromSlice(s, i, j, words, k + 1);
      MatchAtSlice(s, i, words[k]);
      assert words[k..] == [words[k]] + words[k + 1..];
    }
  }

  lemma SpanInSlice(s: string, i: nat, j: nat, words: seq<string>)
    ensures SpanIn(s, i, j, words) <==> i <= j <= |s| && s[i..j] in words
  {
    SpanInFromSlice(s, i, j, words, 0);
    assert words[0..] == words;
  }

  predicate IsUnitSpan(s: string, i: nat, j: nat)
  {
    SpanIn(s, i, j, LengthUnits)
  }

  // ---------------------------------------------------------------------------
  // Number shapes

  /** `\d+L(?:-\d+L)*` from `i` to the end (`digitLengthOnlyPattern`). */
  predicate DigitLengthFrom(s: string, i: nat)
    requires i <= |s|
    decreases |s| - i
  {
    var j := DigitEnd(s, i);
    var k := LowerEnd(s, j);
    j > i && IsUnitSpan(s, j, k) && (k == |s| || (s[k] == '-' && DigitLengthFrom(s, k + 1)))
  }

  predicate IsDigitLength(s: string) { DigitLengthFrom(s, 0) }

  /** `\d+(?:-\d+)*` from `i` to the end (`digitOnlyPattern`). */
  predicate DigitsFrom(s: string, i: nat)
    requires i <= |s|
    decreases |s| - i
  {
    var j := DigitEnd(s, i);
    j > i && (j == |s| || (s[j] == '-' && DigitsFrom(s, j + 1)))
  }

  predicate IsDigits(s: string) { DigitsFrom(s, 0) }

  /** `1|0[0-9]|0` on `s[i..j]` (`floatPattern`). */
  predicate FloatSpan(s: string, i: nat, j: nat)
    requires i <= j <= |s|
  {
    || (j == i + 1 && (s[i] == '1' || s[i] == '0'))
    || (j == i + 2 && s[i] == '0' && IsDigit(s[i + 1]))
  }

  predicate IsFloat(s: string) { FloatSpan(s, 0, |s|) }

  /** `mn\d+L?` (`negativeDigitOnlyPattern`). */
  predicate IsNegative(s: string)
  {
    MatchAt(s, 0, "mn") &&
    var j := DigitEnd(s, 2);
    j > 2 && (j == |s| || IsUnitSpan(s, j, |s|))
  }

  predicate HexDigit(c: char) { IsDigit(c) || 'a' <= c <= 'f' }

  predicate HexDigitsFrom(s: string, i: nat)
    requires i <= |s|
    decreases |s| - i
  {
    i == |s| || (HexDigit(s[i]) && HexDigitsFrom(s, i + 1))
  }

  /** `#[a-f0-9]{3,8}` from `i` to the end (`hexColorOnlyPattern`). */
  predicate HexFrom(s: string, i: nat)
    requires i <= |s|
  {
    i + 4 <= |s| <= i + 9 && s[i] == '#' && HexDigitsFrom(s, i + 1)
  }

  predicate IsHex(s: string) { HexFrom(s, 0) }

  /** `calc\(\d+L?-(?:pl|mn|mp|dv)-\d+L?\)` (`calcFuncOnlyPattern`). */
  predicate IsCalc(s: string)
  {
    MatchAt(s, 0, "calc(") &&
    var j := DigitEnd(s, 5);
    var k := LowerEnd(s, j);
    j > 5 && (k == j || IsUnitSpan(s, j, k)) && k + 4 <= |s| && s[k] == '-' &&
    SpanIn(s, k + 1, k + 3, CalcOperators) && s[k + 3] == '-' &&
    var j2 := DigitEnd(s, k + 4);
    var k2 := LowerEnd(s, j2);
    j2 > k + 4 && (k2 == j2 || IsUnitSpan(s, j2, k2)) && k2 + 1 == |s| && s[k2] == ')'
  }

  /** The arguments of a colour function from `i`: `\d+-\d+-\d+(?:-<float>)?\)` to the end. */
  predicate ColorArgsFrom(s: string, i: nat)
    requires i <= |s|
  {
    var a := DigitEnd(s, i);
    a > i && a < |s| && s[a] == '-' &&
    var b := DigitEnd(s, a + 1);
    b > a + 1 && b < |s| && s[b] == '-' &&
    var c := DigitEnd(s, b + 1);
    c > b + 1 && c < |s| &&
    ( (c + 1 == |s| && s[c] == ')')
    || (s[c] == '-' &&
        var d := DigitEnd(s, c + 1);
        d < |s| && FloatSpan(s, c + 1, d) && d + 1 == |s| && s[d] == ')'))
  }

  /** `(?:rgb|hsl)(?:a)?\(...\)` from `i` to the end (`colorFuncOnlyPattern`). */
  predicate ColorFuncFrom(s: string, i: nat)
    requires i <= |s|
  {
    if MatchAt(s, i, "rgba(") || MatchAt(s, i, "hsla(") then ColorArgsFrom(s, i + 5)
    else if MatchAt(s, i, "rgb(") || MatchAt(s, i, "hsl(") then ColorArgsFrom(s, i + 4)
    else false
  }

  predicate IsColorFunc(s: string) { ColorFuncFrom(s, 0) }

  /** `(?:1|0[0-9]|0|\d+)L-[a-z]{4,}(?:-(?:<hex>|<colour function>|[a-z]{3,}))?` (`borderSettingOnlyPattern`). */
  predicate IsBorder(s: string)
  {
    var j := DigitEnd(s, 0);
    var k := LowerEnd(s, j);
    j > 0 && IsUnitSpan(s, j, k) && k < |s| && s[k] == '-' &&
    var m := LowerEnd(s, k + 1);
    m >= k + 5 &&
    (m == |s| || (s[m] == '-' && BorderColorFrom(s, m + 1)))
  }

  predicate BorderColorFrom(s: string, i: nat)
    requires i <= |s|
  {
    HexFrom(s, i) || ColorFuncFrom(s, i) || (LowerEnd(s, i) == |s| && |s| >= i + 3)
  }

  /** `[a-z]{2,}(?:-[a-z]{2,})*` from `i` to the end (`textOnlyPattern`). */
  predicate TextFrom(s: string, i: nat)
    requires i <= |s|
    decreases |s| - i
  {
    var m := LowerEnd(s, i);
    m >= i + 2 && (m == |s| || (s[m] == '-' && TextFrom(s, m + 1)))
  }

  predicate IsText(s: string) { TextFrom(s, 0) }

  // ---------------------------------------------------------------------------
  // Grid template helpers (`gridTempOnlyPattern`)

  /** The end of `minmax\(\d+L-\d+L\)` at `i`, or `i` when there is none. */
  function MinmaxAt(s: string, i: nat): (e: nat)
    requires i <= |s|
    ensures e == i || i + 7 < e <= |s|
  {
    if !MatchAt(s, i, "minmax(") then i
    else
      var a := DigitEnd(s, i + 7);
      var b := LowerEnd(s, a);
      if a > i + 7 && IsUnitSpan(s, a, b) && b < |s| && s[b] == '-' then
        var c := DigitEnd(s, b + 1);
        var d := LowerEnd(s, c);
        if c > b + 1 && IsUnitSpan(s, c, d) && d < |s| && s[d] == ')' then d + 1 else i
      else i
  }

  /** `(?:-minmax\(...\))*` from `i` to the end. */
  predicate MinmaxTail(s: string, i: nat)
    requires i <= |s|
    decreases |s| - i
  {
    i == |s| ||
    (s[i] == '-' && i + 1 <= |s| && var e := MinmaxAt(s, i + 1); e > i + 1 && MinmaxTail(s, e))
  }

  /** `(?:-\d+L)*(?:-minmax\(...\))*` from `i` to the end. */
  predicate LengthsThenMinmax(s: string, i: nat)
    requires i <= |s|
    decreases |s| - i
  {
    if i + 1 < |s| && s[i] == '-' && IsDigit(s[i + 1]) then
      var j := DigitEnd(s, i + 1);
      var k := LowerEnd(s, j);
      IsUnitSpan(s, j, k) && LengthsThenMinmax(s, k)
    else MinmaxTail(s, i)
  }

  /** `minmax\(...\)(?:-\d+L)*(?:-minmax\(...\))*`. */
  predicate IsMinmaxForm(s: string)
  {
    var e := MinmaxAt(s, 0);
    e > 0 && LengthsThenMinmax(s, e)
  }

  /** The end of `fitcontent\(\d+L\)` at `i`, or `i` when there is none. */
  function FitAt(s: string, i: nat): (e: nat)
    requires i <= |s|
    ensures e == i || i + 11 < e <= |s|
  {
    if !MatchAt(s, i, "fitcontent(") then i
    else
      var a := DigitEnd(s, i + 11);
      var b := LowerEnd(s, a);
      if a > i + 11 && IsUnitSpan(s, a, b) && b < |s| && s[b] == ')' then b + 1 else i
  }

  /** `(?:fitcontent\(\d+L\))*` from `i` to the end. */
  predicate FitCalls(s: string, i: nat)
    requires i <= |s|
    decreases |s| - i
  {
    i == |s| || (var e := FitAt(s, i); e > i && FitCalls(s, e))
  }

  /**
    `(?:-\d+L)*(?:fitcontent\(\d+L\))*` from `i` to the end. A unit directly followed
    by `fitcontent(` shares its run of letters with it.
   */
  predicate FitLengths(s: string, i: nat)
    requires i <= |s|
    decreases |s| - i
  {
    || FitCalls(s, i)
    || (i + 1 < |s| && s[i] == '-' &&
        var j := DigitEnd(s, i + 1);
        var k := LowerEnd(s, j);
        j > i + 1 &&
        ( (IsUnitSpan(s, j, k) && FitLengths(s, k))
        || (k >= j + 10 && MatchAt(s, k - 10, "fitcontent") && IsUnitSpan(s, j, k - 10) && FitCalls(s, k - 10))))
  }

  /** `fitcontent\(\d+L\)(?:-\d+L)*(?:fitcontent\(\d+L\))*`. */
  predicate IsFitContentForm(s: string)
  {
    var e := FitAt(s, 0);
    e > 0 && FitLengths(s, e)
  }

  /** `repeat\((?:\d+|autofill|autofit)-(?:<digit-length>|<minmax>)\)`. */
  predicate IsRepeatForm(s: string)
  {
    MatchAt(s, 0, "repeat(") &&
    var c := if MatchAt(s, 7, "autofill") then 15 else if MatchAt(s, 7, "autofit") then 14 else DigitEnd(s, 7);
    c > 7 && c + 2 < |s| && s[c] == '-' && s[|s| - 1] == ')' &&
    var inner := s[c + 1..|s| - 1];
    IsDigitLength(inner) || (|inner| > 0 && MinmaxAt(inner, 0) == |inner|)
  }

  predicate IsGridTemplate(s: string)
  {
    IsFitContentForm(s) || IsMinmaxForm(s) || IsRepeatForm(s)
  }

  // ---------------------------------------------------------------------------
  // Unions used by the compiler

  /** One segment of a value list (`valuesOnlyPattern`, the check `#matchRegex` applies). */
  predicate IsValueShape(s: string)
  {
    || IsBorder(s) || IsGridTemplate(s) || IsDigitLength(s) || IsDigits(s) || IsFloat(s)
    || IsNegative(s) || IsCalc(s) || IsColorFunc(s) || IsHex(s) || IsText(s)
  }

  /**
    The shapes `#validateCSSValue` treats as numeric: hex colour, border shorthand,
    digit-length list, digit list, negative number.
   */
  predicate IsNumericShape(s: string)
  {
    IsHex(s) || IsBorder(s) || IsDigitLength(s) || IsDigits(s) || IsNegative(s)
  }

  /** A value segment after the first in the class-name grammar: `negativeDigitPattern` is missing. */
  predicate IsTailValueShape(s: string)
  {
    || IsBorder(s) || IsGridTemplate(s) || IsDigitLength(s) || IsDigits(s) || IsFloat(s)
    || IsCalc(s) || IsColorFunc(s) || IsHex(s) || IsText(s)
  }

  /** The value-list group of the class-name grammar (`valuesPattern`). */
  predicate IsValueList(s: string)
  {
    var segs := Split(s, '.');
    IsValueShape(segs[0]) && forall k :: 1 <= k < |segs| ==> IsTailValueShape(segs[k])
  }

  predicate PropertyWordFrom(s: string, i: nat)
    decreases |s| - i
  {
    i + 1 < |s| && ((IsUpper(s[i]) && IsLetter(s[i + 1])) || PropertyWordFrom(s, i + 1))
  }

  /**
    The unanchored test of `propertiesPattern` that `#matchRegex` applies to one
    property segment: an upper-case letter followed by a letter occurs somewhere.
   */
  predicate HasPropertyWord(s: string)
  {
    PropertyWordFrom(s, 0)
  }

  // ---------------------------------------------------------------------------
  // Properties of the shapes

  /** A negative-number token is a value shape, but not one allowed after the first segment. */
  lemma NegativeIsFirstOnly(s: string)
    requires IsNegative(s)
    ensures IsValueShape(s)
    ensures !IsTailValueShape(s)
  {
    assert s[0] == 'm' && s[1] == 'n' && IsDigit(s[2]);
    assert LowerEnd(s, 0) == 2 by {
      assert LowerEnd(s, 2) == 2;
    }
    assert !MatchAt(s, 0, "minmax(");
    assert !IsText(s);
  }

  /**
    In the class-name grammar a negative number is accepted as the first value and
    rejected in every later position.
   */
  lemma {:induction false} NegativeOnlyInFirstSlot(segs: seq<string>, k: nat)
    requires 1 <= k < |segs|
    requires forall j :: 0 <= j < |segs| ==> '.' !in segs[j]
    requires IsNegative(segs[k])
    ensures !IsValueList(Join(segs, "."))
  {
    SplitJoin(segs, '.');
    NegativeIsFirstOnly(segs[k]);
  }

  /** A lone negative number is a valid value list. */
  lemma NegativeAloneIsValueList(s: string)
    requires IsNegative(s) && '.' !in s
    ensures IsValueList(s)
  {
    SplitNoSep(s, '.');
    NegativeIsFirstOnly(s);
  }
}
