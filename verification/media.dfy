/**
  `#validateMediaQuery`: rewrites the media token of a class name (`MQMaxWidth600PX_`)
  into a CSS media condition (`@media (max-width: 600px) `).

  The token is lowered and stripped of its `mq` prefix and `_` suffix. Every
  capture group of the first match of the media-token expression that names a
  feature or an orientation then triggers one rewriting round on the whole
  string: the keyword is replaced by its CSS opening, length units are closed
  with `) `, surplus closing brackets are removed and adjacent conditions are
  joined with `and`. The result is prefixed with `@media ` only when it passes
  the `mediaQueryRegex` recogniser.
 */
module Media {
  import opened Wrappers
  import opened Text
  import Shapes

  /** JavaScript truthiness of an optional string: present and non-empty. */
  predicate Truthy(o: Option<string>) { o.Some? && |o.value| > 0 }

  // ---------------------------------------------------------------------------
  // Token normalisation: toLowerCase().replace(/^mq/, '') and replace(/_$/, '')

  function StripToken(token: string): string
  {
    var lowered := Lower(token);
    var rest := if StartsWith(lowered, "mq") then lowered[2..] else lowered;
    if |rest| > 0 && rest[|rest| - 1] == '_' then rest[..|rest| - 1] else rest
  }

  // ---------------------------------------------------------------------------
  // The capture groups of
  // /(F)(Portrait|Landscape|\d+(?:DPPX|DPI|PX))((F)(Portrait|Landscape|\d+(?:DPPX|DPI|PX)))*/

  /** The feature alternatives `F`, in alternation order. */
  const MediaFeatures: seq<string> :=
    ["Orientation", "MaxWidth", "MaxHeight", "MinWidth", "MinHeight", "MinResolution", "MaxResolution"]

  const MediaUnits: seq<string> := ["DPPX", "DPI", "PX"]

  function FeatureEnd(s: string, i: nat): (e: nat)
    requires i <= |s|
    ensures i <= e <= |s|
  {
    AltEnd(s, i, MediaFeatures)
  }

  function SettingEnd(s: string, i: nat): (e: nat)
    requires i <= |s|
    ensures i <= e <= |s|
  {
    if MatchAt(s, i, "Portrait") then i + 8
    else if MatchAt(s, i, "Landscape") then i + 9
    else
      var d := Shapes.DigitEnd(s, i);
      var u := AltEnd(s, d, MediaUnits);
      if d > i && u > d then u else i
  }

  /** One feature-setting pair: the feature is `s[start..split]`, the setting `s[split..end]`. */
  datatype Pair = Pair(start: nat, split: nat, end: nat)

  predicate ValidPair(s: string, p: Pair) { p.start < p.split < p.end <= |s| }

  function PairAt(s: string, i: nat): (r: Option<Pair>)
    requires i <= |s|
    ensures r.Some? ==> ValidPair(s, r.value) && r.value.start == i
  {
    var f := FeatureEnd(s, i);
    var e := if f > i then SettingEnd(s, f) else f;
    if e > f then Some(Pair(i, f, e)) else None
  }

  /** The greedy repetition from `i`: where it stops and the last pair it took. */
  function RepeatFrom(s: string, i: nat, last: Option<Pair>): (r: (nat, Option<Pair>))
    requires i <= |s|
    requires last.Some? ==> ValidPair(s, last.value)
    ensures i <= r.0 <= |s|
    ensures r.1.Some? ==> ValidPair(s, r.1.value)
    decreases |s| - i
  {
    match PairAt(s, i)
    case Some(p) => RepeatFrom(s, p.end, Some(p))
    case None => (i, last)
  }

  function Slice(s: string, p: Pair): string
    requires ValidPair(s, p)
  {
    s[p.start..p.end]
  }

  /**
    The array `match` returns for the leftmost match from `i` on: the whole match,
    the first feature and setting, then the last repetition with its feature and
    setting (absent when the group did not repeat); empty for `null`.
   */
  function GroupsFrom(s: string, i: nat): (r: seq<Option<string>>)
    requires i <= |s|
    ensures |r| == 0 || |r| == 6
    decreases |s| - i
  {
    match PairAt(s, i)
    case Some(p) =>
      var (e, last) := RepeatFrom(s, p.end, None);
      [Some(s[i..e]), Some(s[p.start..p.split]), Some(s[p.split..p.end])] +
      (match last
       case None => [None, None, None]
       case Some(q) => [Some(Slice(s, q)), Some(s[q.start..q.split]), Some(s[q.split..q.end])])
    case None => if i == |s| then [] else GroupsFrom(s, i + 1)
  }

  function Groups(s: string): (r: seq<Option<string>>)
    ensures |r| == 0 || |r| == 6
  {
    GroupsFrom(s, 0)
  }

  // ---------------------------------------------------------------------------
  // One rewriting round

  /** The `mqsMap` object literal. */
  const MediaWords: map<string, string> := map[
    "orientation" := "(orientation: ",
    "maxwidth" := "(max-width: ",
    "minwidth" := "(min-width: ",
    "maxheight" := "(max-height: ",
    "minheight" := "(min-height: ",
    "maxresolution" := "(max-resolution: ",
    "minresolution" := "(min-resolution: ",
    "landscape" := "landscape)",
    "portrait" := "portrait)"
  ]

  /** The end of a match of `new RegExp(key + '+')` at `i` (the last letter of `key` repeated), or `i`. */
  function KeyRunEnd(s: string, i: nat, key: string): (e: nat)
    requires |key| > 0 && i <= |s|
    ensures e == i || i + |key| <= e <= |s|
  {
    if MatchAt(s, i, key) then CharRunEnd(s, i + |key|, key[|key| - 1]) else i
  }

  function ReplaceKeyRunsFrom(s: string, key: string, rep: string, i: nat): string
    requires |key| > 0 && i <= |s|
    decreases |s| - i
  {
    if i == |s| then []
    else
      var e := KeyRunEnd(s, i, key);
      if e > i then rep + ReplaceKeyRunsFrom(s, key, rep, e)
      else [s[i]] + ReplaceKeyRunsFrom(s, key, rep, i + 1)
  }

  /** `replace(new RegExp(key + '+', 'g'), rep)`. */
  function ReplaceKeyRuns(s: string, key: string, rep: string): string
    requires |key| > 0
  {
    ReplaceKeyRunsFrom(s, key, rep, 0)
  }

  /** The alternatives of `/(dpi|dppx|px)+/g`, in alternation order. */
  const LengthWords: seq<string> := ["dpi", "dppx", "px"]

  /** The end of the greedy `(dpi|dppx|px)+` run at `i` (`i` when there is none). */
  function UnitRunEnd(s: string, i: nat): (e: nat)
    requires i <= |s|
    ensures i <= e <= |s|
    decreases |s| - i
  {
    var a := AltEnd(s, i, LengthWords);
    if a > i then UnitRunEnd(s, a) else i
  }

  /** The list `match(/(dpi|dppx|px)+/g)` returns, scanning from `i`. */
  function UnitRunsFrom(s: string, i: nat): seq<string>
    requires i <= |s|
    decreases |s| - i
  {
    if i == |s| then []
    else
      var e := UnitRunEnd(s, i);
      if e > i then [s[i..e]] + UnitRunsFrom(s, e) else UnitRunsFrom(s, i + 1)
  }

  function ReplaceUnitRunsFrom(s: string, rep: string, i: nat): string
    requires i <= |s|
    decreases |s| - i
  {
    if i == |s| then []
    else
      var e := UnitRunEnd(s, i);
      if e > i then rep + ReplaceUnitRunsFrom(s, rep, e) else [s[i]] + ReplaceUnitRunsFrom(s, rep, i + 1)
  }

  /**
    The unit loop: the list of runs is taken once, and then for each run `m`
    EVERY run of the current string is replaced by `m + ") "`.
   */
  function CloseUnits(s: string, runs: seq<string>): string
    decreases |runs|
  {
    if |runs| == 0 then s else CloseUnits(ReplaceUnitRunsFrom(s, runs[0] + ") ", 0), runs[1..])
  }

  /**
    `replace(/\)+\s*(?=\))/g, '')` from `i`. At a run of `k` closing brackets
    followed by white space and another bracket, the run and the white space go;
    otherwise a run of two or more loses all but one bracket.
   */
  function DropClosersFrom(s: string, i: nat): string
    requires i <= |s|
    decreases |s| - i
  {
    if i == |s| then []
    else if s[i] != ')' then [s[i]] + DropClosersFrom(s, i + 1)
    else
      var k := CharRunEnd(s, i, ')');
      var w := SpaceEnd(s, k);
      if w > k && w < |s| && s[w] == ')' then DropClosersFrom(s, w)
      else ")" + DropClosersFrom(s, k)
  }

  /** `replace(/\)\s\(+/g, ') and (')` from `i`. */
  function JoinConditionsFrom(s: string, i: nat): string
    requires i <= |s|
    decreases |s| - i
  {
    if i == |s| then []
    else if i + 2 < |s| && s[i] == ')' && IsSpace(s[i + 1]) && s[i + 2] == '(' then
      ") and (" + JoinConditionsFrom(s, CharRunEnd(s, i + 2, '('))
    else [s[i]] + JoinConditionsFrom(s, i + 1)
  }

  /** The four replacements one feature or orientation group triggers. */
  function RewriteRound(s: string, key: string): string
    requires key in MediaWords
  {
    var started := ReplaceKeyRuns(s, key, MediaWords[key]);
    var closed := CloseUnits(started, UnitRunsFrom(started, 0));
    JoinConditionsFrom(DropClosersFrom(closed, 0), 0)
  }

  /** The group loop: a round for every present group whose lowered text is a key of the word map. */
  function RewriteGroups(s: string, groups: seq<Option<string>>): string
    decreases |groups|
  {
    if |groups| == 0 then s
    else
      var g := groups[0];
      var next := if Truthy(g) && Lower(g.value) in MediaWords then RewriteRound(s, Lower(g.value)) else s;
      RewriteGroups(next, groups[1..])
  }

  // ---------------------------------------------------------------------------
  // mediaQueryRegex

  const SyntaxFeatures: seq<string> := ["width", "height", "resolution"]

  const SyntaxUnits: seq<string> := ["px", "em", "rem", "vh", "vw", "vmin", "vmax", "dpi", "dpcm", "dppx"]

  const Orientations: seq<string> := ["landscape", "portrait"]

  /** `\s*W\s*\)` after the colon of a condition: the word `W` is one of `words`, after optional digits. */
  function CloseAfter(s: string, i: nat): (e: nat)
    requires i <= |s|
    ensures e == i || i < e <= |s|
  {
    var g := SpaceEnd(s, i);
    if g < |s| && s[g] == ')' then g + 1 else i
  }

  /** `\s*:\s*` at `i`: the position after it, or `i`. */
  function ColonAfter(s: string, i: nat): (e: nat)
    requires i <= |s|
    ensures e == i || i < e <= |s|
  {
    var c := SpaceEnd(s, i);
    if c < |s| && s[c] == ':' then SpaceEnd(s, c + 1) else i
  }

  /** `\d+UNIT\s*\)` after the colon of a range condition at `c`: the end of the condition opened at `i`, or `i`. */
  function SettingClose(s: string, i: nat, c: nat): (e: nat)
    requires i < c <= |s|
    ensures e == i || c < e <= |s|
  {
    var d := Shapes.DigitEnd(s, c);
    var u := AltEnd(s, d, SyntaxUnits);
    if d == c || u == d then i
    else
      var g := CloseAfter(s, u);
      if g == u then i else g
  }

  /** `(width|height|resolution)\s*:\s*` and a setting, read at `b` after `min-` or `max-`. */
  function RangeEnd(s: string, i: nat, b: nat): (e: nat)
    requires i < b <= |s|
    ensures e == i || b < e <= |s|
  {
    var m := AltEnd(s, b, SyntaxFeatures);
    if m == b then i
    else
      var c := ColonAfter(s, m);
      if c == m then i else SettingClose(s, i, c)
  }

  /** `\s*:\s*(landscape|portrait)\s*\)` read at `b` after `orientation`. */
  function OrientationEnd(s: string, i: nat, b: nat): (e: nat)
    requires i < b <= |s|
    ensures e == i || b < e <= |s|
  {
    var c := ColonAfter(s, b);
    var o := AltEnd(s, c, Orientations);
    if c == b || o == c then i
    else
      var g := CloseAfter(s, o);
      if g == o then i else g
  }

  /** The end of one parenthesised condition starting at `i`, or `i` when there is none. */
  function ConditionAt(s: string, i: nat): (e: nat)
    requires i <= |s|
    ensures e == i || i < e <= |s|
  {
    if i == |s| || s[i] != '(' then i
    else
      var a := SpaceEnd(s, i + 1);
      if MatchAt(s, a, "min-") || MatchAt(s, a, "max-") then RangeEnd(s, i, a + 4)
      else if MatchAt(s, a, "orientation") then OrientationEnd(s, i, a + 11)
      else i
  }

  /** `(?:\s*and\s*COND)*\s*$` from `i`. */
  predicate AndTail(s: string, i: nat)
    requires i <= |s|
    decreases |s| - i
  {
    var a := SpaceEnd(s, i);
    if MatchAt(s, a, "and") && ConditionAt(s, SpaceEnd(s, a + 3)) > SpaceEnd(s, a + 3) then
      AndTail(s, ConditionAt(s, SpaceEnd(s, a + 3)))
    else a == |s|
  }

  /** `mediaQueryRegex.test(s)`. */
  predicate MediaQuerySyntax(s: string)
  {
    var a := SpaceEnd(s, 0);
    var c := ConditionAt(s, a);
    c > a && AndTail(s, c)
  }

  // ---------------------------------------------------------------------------
  // The whole rewrite

  /** The rewritten condition before the `@media ` check. */
  function Rewrite(token: string): string
  {
    var groups := Groups(token);
    var stripped := StripToken(token);
    if |groups| > 2 then RewriteGroups(stripped, groups) else stripped
  }

  /** `#validateMediaQuery`: `None` stands for the `null` it stores when there is no media token. */
  function MediaRule(token: Option<string>): (r: Option<string>)
    ensures r.Some? <==> Truthy(token)
    ensures r.Some? && MediaQuerySyntax(Rewrite(token.value)) ==> r.value == "@media " + Rewrite(token.value)
    ensures r.Some? && !MediaQuerySyntax(Rewrite(token.value)) ==> r.value == Rewrite(token.value)
  {
    if !Truthy(token) then None
    else
      var rewritten := Rewrite(token.value);
      Some(if MediaQuerySyntax(rewritten) then "@media " + rewritten else rewritten)
  }
}
