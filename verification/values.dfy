/**
  `#validateCSSValue`: turns one value segment into the CSS values it pushes.
  A `calc…` segment has its hyphen runs turned into spaces and its operator
  sentinels decoded; a numeric segment (hex colour, border shorthand, lengths,
  digits, negative number) has its hyphens turned into spaces, its leading-zero
  decimals rewritten and its `mn`/`pct` sentinels decoded; any other segment is
  looked up in the keyword catalogue.

  Both decoding branches push one value per sentinel OCCURRENCE, each with
  every occurrence of that one sentinel replaced.
 */
module Values {
  import opened Text
  import Shapes
  import Lookup

  /** The `operatorMap` object literal. */
  const OperatorSymbols: map<string, string> := map["pl" := "+", "mn" := "-", "mp" := "*", "dv" := "/", "pct" := "%"]

  /** `/(pl|mn|mp|dv|pct)/g`, the sentinels of the calc branch, in alternation order. */
  const CalcSentinels: seq<string> := ["pl", "mn", "mp", "dv", "pct"]

  /** `/(mn|pct)/g`, the sentinels of the numeric branch. */
  const NumericSentinels: seq<string> := ["mn", "pct"]

  predicate IsSentinelList(ops: seq<string>)
  {
    forall j :: 0 <= j < |ops| ==> |ops[j]| > 0 && ops[j] in OperatorSymbols
  }

  /** `replace(/-+/g, ' ')`. */
  function Dehyphen(s: string): string
  {
    CollapseRuns(s, {'-'}, ' ')
  }

  /**
    `r` holds one value per sentinel found, in the order found: the whole of `s`
    with every occurrence of that sentinel replaced by its operator symbol.
   */
  predicate DecodesEach(s: string, found: seq<string>, r: seq<string>)
  {
    |r| == |found| &&
    forall k :: 0 <= k < |r| ==>
      found[k] in OperatorSymbols && |found[k]| > 0 && r[k] == ReplaceAll(s, found[k], OperatorSymbols[found[k]])
  }

  /**
    The pushes of the sentinel loop: for every occurrence found by the global
    match, the whole string with every occurrence of that sentinel replaced by
    its symbol.
   */
  function DecodeSentinels(s: string, ops: seq<string>): (r: seq<string>)
    requires IsSentinelList(ops)
    ensures DecodesEach(s, MatchAll(s, ops), r)
  {
    var found := MatchAll(s, ops);
    seq(|found|, k requires 0 <= k < |found| => ReplaceAll(s, found[k], OperatorSymbols[found[k]]))
  }

  // ---------------------------------------------------------------------------
  // Leading-zero decimals: /\b0[0-9]{1}/

  predicate HexDigitAnyCase(c: char) { IsDigit(c) || 'a' <= c <= 'f' || 'A' <= c <= 'F' }

  /** `^#[0-9A-Fa-f]{3}([0-9A-Fa-f]{3})?([0-9A-Fa-f]{2})?$`: a hash and 3, 5, 6 or 8 hex digits of either case. */
  predicate IsStrictHex(s: string)
  {
    (|s| == 4 || |s| == 6 || |s| == 7 || |s| == 9) && s[0] == '#' &&
    forall k :: 1 <= k < |s| ==> HexDigitAnyCase(s[k])
  }

  /** A `0` followed by a digit at `i`, with a word boundary before it. */
  predicate LeadingZeroAt(s: string, i: nat)
  {
    i + 2 <= |s| && s[i] == '0' && IsDigit(s[i + 1]) && (i == 0 || !IsWordChar(s[i - 1]))
  }

  /** The list `match(/\b0[0-9]{1}/g)` returns, scanning from `i`. */
  function LeadingZerosFrom(s: string, i: nat): (r: seq<string>)
    requires i <= |s|
    ensures forall k :: 0 <= k < |r| ==> |r[k]| == 2
    decreases |s| - i
  {
    if i + 2 > |s| then []
    else if LeadingZeroAt(s, i) then [s[i..i + 2]] + LeadingZerosFrom(s, i + 2)
    else LeadingZerosFrom(s, i + 1)
  }

  function LeadingZeros(s: string): (r: seq<string>)
    ensures forall k :: 0 <= k < |r| ==> |r[k]| == 2
  {
    LeadingZerosFrom(s, 0)
  }

  /**
    The rewriting loop: each matched pair `0d` becomes `0.d`, but through a
    string `replace`, so it is the FIRST occurrence of `0d` in the current
    string that is rewritten, not necessarily the one that was matched.
   */
  function RewriteDecimals(s: string, pairs: seq<string>): string
    requires forall k :: 0 <= k < |pairs| ==> |pairs[k]| == 2
    decreases |pairs|
  {
    if |pairs| == 0 then s
    else RewriteDecimals(ReplaceFirst(s, pairs[0], "0." + [pairs[0][1]]), pairs[1..])
  }

  /** The numeric branch up to the sentinel loop: hyphens, then decimals unless the value is a hex colour. */
  function NormalizeNumber(v: string): string
  {
    var spaced := if '-' in v then Dehyphen(v) else v;
    if IsStrictHex(spaced) then spaced else RewriteDecimals(spaced, LeadingZeros(spaced))
  }

  /** `#validateCSSValue(segment)`: the values one segment pushes (possibly none). */
  function ValidateValue(table: seq<string>, segment: string): (r: seq<string>)
    ensures StartsWith(segment, "calc") ==> |r| == |MatchAll(Dehyphen(segment), CalcSentinels)|
    ensures StartsWith(segment, "calc") ==>
      DecodesEach(Dehyphen(segment), MatchAll(Dehyphen(segment), CalcSentinels), r)
    ensures !StartsWith(segment, "calc") && Shapes.IsNumericShape(segment) ==> |r| >= 1
    ensures !StartsWith(segment, "calc") && Shapes.IsNumericShape(segment) ==>
      var n := NormalizeNumber(segment);
      var found := MatchAll(n, NumericSentinels);
      (|found| == 0 ==> r == [n]) && (|found| > 0 ==> DecodesEach(n, found, r))
    ensures !StartsWith(segment, "calc") && !Shapes.IsNumericShape(segment) ==> |r| <= 1
  {
    if StartsWith(segment, "calc") then DecodeSentinels(Dehyphen(segment), CalcSentinels)
    else if Shapes.IsNumericShape(segment) then
      var n := NormalizeNumber(segment);
      if |MatchAll(n, NumericSentinels)| > 0 then DecodeSentinels(n, NumericSentinels) else [n]
    else
      match Lookup.Canonical(table, segment)
      case Some(entry) => [entry]
      case None => []
  }

  /** The value loop of `#startValidation`, run only when the whole list passed its shape check. */
  function ValidateValues(table: seq<string>, segments: seq<string>): seq<string>
  {
    Pushed(segment => ValidateValue(table, segment), segments)
  }

  /** The pushes of `validate` over the segments, in segment order. */
  function Pushed(validate: string -> seq<string>, segments: seq<string>): seq<string>
    decreases |segments|
  {
    if |segments| == 0 then [] else validate(segments[0]) + Pushed(validate, segments[1..])
  }

  lemma {:induction false} PushedAppend(validate: string -> seq<string>, a: seq<string>, b: seq<string>)
    ensures Pushed(validate, a + b) == Pushed(validate, a) + Pushed(validate, b)
    decreases |a|
  {
    if |a| == 0 {
      assert a + b == b;
    } else {
      assert (a + b)[0] == a[0];
      assert (a + b)[1..] == a[1..] + b;
      PushedAppend(validate, a[1..], b);
    }
  }

  // ---------------------------------------------------------------------------
  // Properties

  /** The loop keeps segment order: validating a concatenation concatenates the pushes. */
  lemma ValidateValuesAppend(table: seq<string>, a: seq<string>, b: seq<string>)
    ensures ValidateValues(table, a + b) == ValidateValues(table, a) + ValidateValues(table, b)
  {
    PushedAppend(segment => ValidateValue(table, segment), a, b);
  }

  /**
    A keyword is accepted exactly when it equals a catalogue entry once hyphens
    are ignored, and the entry pushed is the earliest such one.
   */
  lemma KeywordLookup(table: seq<string>, segment: string)
    requires !StartsWith(segment, "calc") && !Shapes.IsNumericShape(segment)
    ensures |ValidateValue(table, segment)| == 1 <==>
      exists k :: 0 <= k < |table| && Lookup.Strip(table[k]) == Lookup.Strip(segment)
    ensures forall k :: Lookup.FirstMatchAt(table, segment, k) ==> ValidateValue(table, segment) == [table[k]]
  {
    forall k | Lookup.FirstMatchAt(table, segment, k)
      ensures ValidateValue(table, segment) == [table[k]]
    {
      Lookup.CanonicalIsFirst(table, segment, k);
    }
  }

  /** A string that never contains the character `c` contains no pattern that does. */
  lemma AbsentCharAbsentPattern(s: string, pat: string, c: char)
    requires c !in s && c in pat
    ensures !Contains(s, pat)
  {
    if Contains(s, pat) {
      ContainsWitness(s, pat);
      var i: nat :| MatchAt(s, i, pat);
      MatchAtSlice(s, i, pat);
    }
  }

  /** No sentinel can occur in a string without `m` and `p`. */
  lemma NoSentinels(s: string)
    requires 'm' !in s && 'p' !in s
    ensures MatchAll(s, NumericSentinels) == []
  {
    AbsentCharAbsentPattern(s, "mn", 'm');
    AbsentCharAbsentPattern(s, "pct", 'p');
    MatchAllNone(s, NumericSentinels);
  }

  /**
    A hex colour with 3, 5, 6 or 8 digits passes through the numeric branch
    unchanged.
   */
  lemma HexColourUnchanged(table: seq<string>, segment: string)
    requires Shapes.IsHex(segment)
    requires |segment| in {4, 6, 7, 9}
    ensures ValidateValue(table, segment) == [segment]
  {
    assert segment[0] == '#';
    forall k | 1 <= k < |segment| ensures Shapes.HexDigit(segment[k]) {
      HexDigits(segment, 1, k);
    }
    assert !StartsWith(segment, "calc");
    assert '-' !in segment && 'm' !in segment && 'p' !in segment;
    assert IsStrictHex(segment);
    NoSentinels(segment);
  }

  lemma {:induction false} HexDigits(s: string, i: nat, k: nat)
    requires i <= k < |s| && Shapes.HexDigitsFrom(s, i)
    ensures Shapes.HexDigit(s[k])
    decreases k - i
  {
    if i < k {
      HexDigits(s, i + 1, k);
    }
  }

  /**
    A numeric segment with no hyphen, no sentinel letters `m` and `p`, and no
    leading-zero pair is pushed exactly as written.
   */
  lemma PlainNumberUnchanged(table: seq<string>, segment: string)
    requires Shapes.IsNumericShape(segment) && !StartsWith(segment, "calc")
    requires '-' !in segment && 'm' !in segment && 'p' !in segment
    requires LeadingZeros(segment) == []
    ensures ValidateValue(table, segment) == [segment]
  {
    NoSentinels(segment);
  }

  /** Each maximal run of hyphens becomes exactly one space. */
  lemma DehyphenRun(a: string, u: string, b: string)
    requires |u| > 0 && forall k :: 0 <= k < |u| ==> u[k] == '-'
    requires |a| == 0 || a[|a| - 1] != '-'
    requires |b| == 0 || b[0] != '-'
    ensures Dehyphen(a + u + b) == Dehyphen(a) + " " + Dehyphen(b)
  {
    CollapseRunBetween(a, u, b, {'-'}, ' ');
  }

  /**
    Turning single hyphens into spaces loses nothing: in a segment with no
    spaces and no doubled hyphen, turning the spaces back restores it.
   */
  lemma DehyphenRoundTrip(s: string)
    requires ' ' !in s && NoAdjacent(s, {'-'})
    ensures MapChars(Dehyphen(s), {' '}, '-') == s
  {
    CollapseSingles(s, {'-'}, ' ');
    var d := Dehyphen(s);
    var back := MapChars(d, {' '}, '-');
    forall k | 0 <= k < |s| ensures back[k] == s[k] {
      assert d[k] == (if s[k] == '-' then ' ' else s[k]);
    }
  }
}
