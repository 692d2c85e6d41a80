# dySTYLE class-name compiler, modelled in Dafny

dySTYLE turns encoded class names such as `lcsBackgroundColor_red` or
`lcsMQMaxWidth600PX_Width_100px` into CSS rules at page load. This project
models the compiler core of `src/ld.js` as pure Dafny functions over strings
and proves what that code does. The core has these parts:

- **`#matchRegex`** splits a property or value list on `.` and sorts the
  segments into matches and mismatches by shape.
- **`#validateCSSProperty`** expands the `Padding`/`Margin` direction
  shorthands. It also lowers other names, applies the abbreviation map and
  looks them up in the property catalogue, ignoring hyphens.
- **`#validateCSSValue`** handles three kinds of value:
  - `calc` values and their operator sentinels;
  - numeric values (hex colours, border shorthands, lengths, digits, negative
    numbers) with their hyphens, leading-zero decimals and `mn`/`pct`
    sentinels;
  - keywords, looked up in the value catalogue.
- **`#validateMediaQuery`** rewrites an `MQ…` token into a CSS media condition
  and prefixes `@media ` when `mediaQueryRegex` accepts the result.
- **`#startValidation`** runs the stages and applies the count gate and the
  attached-element check.
- **`#setRules`** derives the selector, the rule text and the class to add.
- **`lcsRunDyStyleDependency`** is the pass over the page's elements. It keeps
  two de-duplicating buckets, regular rules and `@media` rules, and flushes
  the regular bucket before the media bucket.

## Modules

| module | file | contents |
|---|---|---|
| `Wrappers` | `wrappers.dfy` | `Option` and `Result` |
| `Failures` | `failures.dfy` | the exceptions: one constructor per `throw` |
| `Text` | `text.dfy` | ASCII `toLowerCase`, matching, `includes`, `split`, `join`, global replacement, run collapsing, global `match` of literal alternatives |
| `Scans` | `scans.dfy` | stepping lemmas for those scanners |
| `Shapes` | `shapes.dfy` | the value-shape and property-shape recognisers (`src/ld.js:744-799`) |
| `Segments` | `segments.dfy` | `#matchRegex` |
| `Lookup` | `lookup.dfy` | the hyphen-insensitive catalogue lookup |
| `Properties` | `properties.dfy` | `#validateCSSProperty` and the property loop |
| `Values` | `values.dfy` | `#validateCSSValue` and the value loop |
| `Media` | `media.dfy` | `#validateMediaQuery` and the recogniser `mediaQueryRegex` |
| `MediaLaws` | `media_laws.dfy` | the media rewrite of every single numeric condition, end to end |
| `Compiler` | `compiler.dfy` | `#startValidation`, `#setRules`, the constructor |
| `Driver` | `driver.dfy` | `lcsRunDyStyleDependency` |
| `Examples` | `examples.dfy` | worked instances of each stage on typical class names |
| `Walkthrough` | `walkthrough.dfy` | `lcsBackgroundColor_red` carried through every stage to its rule |

## How the code behaves

These behaviours of the code are easy to miss. They are all stated and
proved in the model:

- **No error catching.** The pass has no `try`/`catch`. One throwing class
  name aborts the whole pass, and the flush never happens. Rules already put
  in a bucket and classes already added stay. `Driver.PassCompletesIffNothingThrows`
  states it.
- **Failed media check.** A media token whose rewrite fails `mediaQueryRegex`
  still wraps the rule. It is just not prefixed with `@media `:
  `MQOrientation5PX_` gives the wrapper `(orientation: 5px) `
  (`MediaLaws.NumericCondition`).
- **Trailing space.** A numeric media condition keeps a trailing space:
  `@media (max-width: 600px) `.
- **Sentinel pushes.** The `calc` and numeric branches push one value per
  sentinel OCCURRENCE. Each push replaces every occurrence of that one
  sentinel. So `10pct-20pct` pushes `10% 20%` twice
  (`Examples.TwoPercents`), and the count gate, which passes exactly when the
  two counts agree (`Compiler.CountGate`), then fails against a single
  property and passes against a two-name list such as `PaddingY`. And
  `mn5pct` pushes `-5pct` and `mn5%` rather than `-5%`.
- **Leading-zero rewrite.** It is done with a string `replace`, so it rewrites
  the first occurrence of the matched pair, which is not always the matched
  one: `105-05` becomes `10.5 05`. A four-digit hex colour passes the hex
  shape but not the stricter check that guards the rewrite, so `#0123`
  becomes `#0.123`.
- **Negative numbers.** A negative number (`mn4`) is accepted only in the
  first value slot, because the repeated tail of the value grammar leaves
  that shape out.
- **Invalidated list.** Every non-shorthand property token is recorded as
  invalidated, even when it matched.
- **Inherited members.** The abbreviation map is a plain object, so a lowered
  name such as `constructor` finds an inherited member, and the following
  `replace` throws. This is `Failure.PrototypeMember`.
- **Unused tokens.** The pseudo token and `_IMPT` are stored and never used.
- **Invalid property message.** The invalid-property message reads a field
  that is never set, so `Failure.InvalidProperty` carries no segment.
- **Default class name.** It starts with exactly one `_`, so `lcsBackgroundColor_red`
  gets the class `_BackgroundColor_red`. A media token keeps its own trailing
  `_` and gains two more: `MQMaxWidth600PX___Width_100px`.

## Model

| member | source | states |
|---|---|---|
| Text.Lower | src/ld.js:1359 | lowering keeps the length and maps every character through ASCII `toLowerCase`; no upper-case letter is left |
| Text.Split | src/ld.js:1553 | `split('.')` yields at least one piece, no piece holds the separator, and joining the pieces with it gives back the input |
| Text.SplitJoin | src/ld.js:1553 | splitting undoes joining for pieces free of the separator |
| Text.CollapseRuns | src/ld.js:1443 | `replace(/-+/g, ' ')`-style collapsing never makes the string longer, leaves no character of the set behind, and is the identity on strings without one |
| Text.CollapseAppend | src/ld.js:1168-1172 | collapsing runs distributes over a concatenation whose boundary does not cut a run of set characters in two |
| Text.CollapseRun | src/ld.js:1443 | a whole non-empty run of set characters becomes the single replacement character |
| Text.CollapseRunBetween | src/ld.js:1443 | a maximal run between two stretches becomes exactly one replacement character, and the stretches on either side are collapsed on their own |
| Text.CollapseSingles | src/ld.js:1463 | with no two set characters adjacent, collapsing runs is a one-for-one character replacement |
| Text.Remove | src/ld.js:1367 | `replace(/-+/g, '')` deletes every hyphen and changes nothing else when there is none |
| Scans.RemoveAppend | src/ld.js:1367 | deleting hyphens distributes over concatenation, so the kept characters stay in order |
| Text.RemoveCounts | src/ld.js:1367 | deleting hyphens shortens the string by exactly its number of hyphens and keeps every other character as often as it occurred; with `Scans.RemoveAppend` this pins the result down to the input with its hyphens dropped, in order |
| Text.ContainsWitness | src/ld.js:1141 | `includes` holds exactly when the pattern occurs at some index |
| Text.ReplaceAllAbsent | src/ld.js:1453-1454 | a global replacement of a pattern that does not occur changes nothing |
| Text.MatchAll | src/ld.js:1446 | every string a global `match` of literal alternatives returns is one of the alternatives |
| Text.MatchAllAppend | src/ld.js:1446 | when no occurrence straddles the boundary, the global match of a concatenation is the matches of the first part followed by those of the second |
| Text.MatchAllWhole | src/ld.js:1483 | a string that is one alternative, with no earlier alternative matching at its start, is matched exactly once, as a whole |
| Text.MatchAllNone | src/ld.js:1483 | a global `match` finds nothing (returns `null`) when no alternative occurs |
| Text.FirstAlt | src/ld.js:1225 | the alternative chosen at an index is the first that matches there: all earlier alternatives fail |
| Shapes.DigitEnd | src/ld.js:745-746 | the `\d+` scanner stops at the first non-digit, and everything it passed is a digit |
| Shapes.NegativeIsFirstOnly | src/ld.js:781 | a negative-number segment is a value shape, but not a shape the repeated tail of the value grammar admits |
| Shapes.NegativeOnlyInFirstSlot | src/ld.js:781 | a value list with a negative number in any slot after the first does not match the value grammar |
| Shapes.NegativeAloneIsValueList | src/ld.js:781 | a negative number on its own is a value list |
| Segments.Partition | src/ld.js:1559-1580 | the split segments are partitioned into accepted and rejected: counts add up, every accepted one passes, every rejected one fails |
| Segments.MatchSegments | src/ld.js:1539-1593 | the segments are the `split('.')` pieces, matches and mismatches are their partition by the purpose's shape test, and the list matched iff there are no mismatches and at least one match |
| Segments.PartitionAppend | src/ld.js:1559-1580 | partitioning is order-preserving: partitioning a concatenation concatenates the partitions |
| Segments.PartitionKeepsFailure | src/ld.js:1565 | every failing segment ends up among the mismatches |
| Segments.MatchedIffAllSegmentsPass | src/ld.js:1584 | a list is matched exactly when every one of its segments passes, and then the matches are all the segments in order |
| Lookup.Canonical | src/ld.js:1367-1376 | the lookup succeeds iff some catalogue entry equals the name once hyphens are removed, and it returns such an entry |
| Lookup.CanonicalIsFirst | src/ld.js:1370-1376 | the entry returned is the FIRST matching entry of the catalogue |
| Lookup.CanonicalIgnoresHyphens | src/ld.js:1367-1371 | names that differ only in hyphens find the same entry |
| Properties.ShorthandAt | src/ld.js:1325 | there is a shorthand at an index exactly when `Padding` or `Margin` starts there and is followed by two side letters or an axis letter; the side alternative is tried first and takes the whole run of `TRBL` up to four, otherwise the single `Y`/`X` is taken |
| Properties.ShorthandFound | src/ld.js:1325 | whatever `/(Padding\|Margin)((T\|R\|B\|L){2,4}\|(Y\|X){1})/` matches at an index (leader, greedy side run or lone axis letter) is exactly the shorthand found there |
| Properties.FindShorthand | src/ld.js:1325-1326 | the search finds the leftmost shorthand, and finding none means none starts anywhere |
| Properties.ValidateProperty | src/ld.js:1296-1384 | a segment throws iff it is no shorthand and its lowered form is an inherited member; a shorthand pushes 2-4 names and records nothing invalid; any other segment pushes at most one name and records its lowered, abbreviation-mapped form as invalidated |
| Properties.SideShorthandExpands | src/ld.js:1335-1344 | `PaddingTR`-style shorthands push `leader-direction` for each letter, in letter order |
| Properties.AxisShorthandExpands | src/ld.js:1347-1352 | `Y` pushes `-top` then `-bottom` and `X` pushes `-right` then `-left` |
| Properties.PlainPropertyLookup | src/ld.js:1357-1379 | a plain property is lowered and abbreviation-mapped; it pushes one name iff the hyphen-stripped form equals a catalogue entry's, and that name is the first such entry; the mapped form is always recorded as invalidated |
| Properties.ValidateProperties | src/ld.js:1061-1067 | the property loop completes exactly when no segment throws |
| Properties.ValidatePropertiesAppend | src/ld.js:1063-1067 | the property loop keeps segment order: validating a concatenation concatenates the pushes |
| Values.ValidateValue | src/ld.js:1409-1514 | a `calc` segment pushes one value per sentinel occurrence, in order, each the dehyphened segment with every occurrence of that sentinel turned into its operator; a numeric segment pushes its normalised text when it holds no sentinel, and otherwise one such decoded value per sentinel occurrence; any other segment pushes at most one value |
| Values.ValidateValuesAppend | src/ld.js:1076-1080 | the value loop keeps segment order: validating a concatenation concatenates the pushes |
| Values.KeywordLookup | src/ld.js:1499-1510 | a keyword pushes one value iff it matches a catalogue entry ignoring hyphens, and that value is the first such entry |
| Values.HexColourUnchanged | src/ld.js:1467-1468 | a hex colour of 3, 5, 6 or 8 digits is pushed exactly as written |
| Values.PlainNumberUnchanged | src/ld.js:1493-1496 | a numeric segment with no hyphen, sentinel letter or leading-zero pair is pushed as written |
| Values.DehyphenRun | src/ld.js:1443 | each maximal run of hyphens becomes exactly one space, and the text on either side is handled on its own |
| Values.DehyphenRoundTrip | src/ld.js:1462-1464 | turning single hyphens into spaces is invertible on segments without spaces or doubled hyphens |
| Media.MediaRule | src/ld.js:1202-1269 | a rule exists iff the token is present and non-empty; it is `@media ` and the rewrite when the recogniser accepts the rewrite, and the bare rewrite otherwise |
| Media.Groups | src/ld.js:1225 | the media-token `match` yields no array or the six-entry capture array |
| MediaLaws.GroupsOfCondition | src/ld.js:1225 | for `MQ<Feature><digits><Unit>_` the capture array is the whole condition, the feature, the setting, and three absent groups |
| MediaLaws.StripCondition | src/ld.js:1222-1223 | the lowered token loses its `mq` prefix and its `_` suffix |
| MediaLaws.OneRound | src/ld.js:1226-1233 | of the present groups only the feature is a key of the word map, so exactly one rewriting round runs |
| MediaLaws.StartedOf | src/ld.js:1236-1237 | the keyword replacement puts the opening text in place of the feature and leaves the setting alone |
| MediaLaws.UnitsClosed | src/ld.js:1240-1246 | the only unit run is the trailing unit, which gets `) ` appended |
| MediaLaws.BracketsKept | src/ld.js:1249-1252 | a single closing bracket and space at the end survive both bracket clean-ups |
| MediaLaws.RoundOfCondition | src/ld.js:1233-1253 | one round turns `feature digits unit` into `(feature: digits unit) ` |
| MediaLaws.RewriteOfCondition | src/ld.js:1209-1257 | the rewrite of `MQ<Feature><digits><Unit>_` is the lower-case CSS condition with its opening, setting and `) ` |
| MediaLaws.SyntaxOfCondition | src/ld.js:769 | one bracketed condition followed by a space is accepted by the recogniser |
| MediaLaws.RangeSyntax | src/ld.js:769 | `(min-`/`(max-` with width, height or resolution, `: `, digits, a unit and `) ` is accepted by the recogniser |
| MediaLaws.OrientationNumberSyntax | src/ld.js:769 | an orientation condition with a number in place of `landscape`/`portrait` is rejected by the recogniser |
| MediaLaws.OrientationWordSyntax | src/ld.js:769 | `(orientation: landscape)` and `(orientation: portrait)` are accepted by the recogniser |
| MediaLaws.ConditionSyntax | src/ld.js:769 | of the numeric conditions the rewrite produces, the recogniser accepts exactly the range ones (every feature but orientation) |
| MediaLaws.NumericCondition | src/ld.js:1202-1269 | a token with one numeric condition becomes that CSS condition, with `@media ` for every range feature and without it for orientation |
| MediaLaws.RangeRule | src/ld.js:1209-1262 | a range-feature token becomes `@media ` followed by its opening, number, unit and `) ` |
| Compiler.Validate | src/ld.js:1057-1108 | validation fails with the invalid-property error exactly when the property list is unmatched; on success both lists have the same length, the element is attached, the media rule is the rewrite and the properties are the property loop's pushes over the matched segments, the values are the value loop's pushes; a count mismatch carries two different counts |
| Compiler.PropertyFailureIsPrototype | src/ld.js:1362-1363 | the only exception the property loop raises is the inherited-member one |
| Compiler.Sanitize | src/ld.js:1168-1172 | the sanitised name holds none of `.#(),` and a name without them is unchanged |
| Compiler.SanitizeAppend | src/ld.js:1168-1172 | sanitising distributes over a concatenation that does not cut a run of `.#(),` in two |
| Compiler.SanitizeRun | src/ld.js:1168-1172 | each maximal run of `.#(),` in a class name becomes exactly one `_`, and the text around it is sanitised on its own |
| Compiler.SetRules | src/ld.js:1130-1195 | a class is added exactly when the selector is not a tag selector, and it holds none of `.#(),` |
| Compiler.Compile | src/ld.js:1038-1110 | the constructor throws exactly when validation fails |
| Compiler.InvalidPropertyIffBadSegment | src/ld.js:1060-1070 | the invalid-property exception is raised exactly when some property segment fails its shape check |
| Compiler.CountGate | src/ld.js:1089-1102 | once the properties are validated on an attached element, compiling succeeds iff the two counts agree, and otherwise it fails with exactly those counts |
| Compiler.InvalidValuesCompileOnlyEmpty | src/ld.js:1073-1083 | an unmatched value list pushes nothing, so compilation can only succeed with no properties |
| Compiler.DetachedNeverCompiles | src/ld.js:1106-1108 | a detached element never compiles, and it fails with the detached error exactly when the same attached element would compile |
| Compiler.PseudoAndStrictIgnored | src/ld.js:1035-1036 | the pseudo token and the strict flag do not affect the result |
| Compiler.DefaultSelector | src/ld.js:1133-1134 | without a specific selection the class is the sanitised `media_` + `_props_values` string, the selector is `.` + class, and the rule wraps the declarations |
| Compiler.OfTypeSelector | src/ld.js:1151-1154 | an `alloftype` selection selects by the lowered tag and adds no class |
| Compiler.ChildSelector | src/ld.js:1141-1150 | `allchildlikethis` with a parent selects `parent > tag` and adds no class; without a parent the default class selector is kept |
| Compiler.BodyAppend | src/ld.js:1182-1187 | the rule body zips properties and values in order and joins the declarations with single spaces |
| Compiler.SingleDeclaration | src/ld.js:1182 | one property and value make the body `property: value;` |
| Driver.ClassNames | src/ld.js:889-899 | an element that opts out has no class names; otherwise a string is a class name exactly when it is a non-blank piece of the class attribute split on spaces, and no name holds a space |
| Driver.NonBlankAppend | src/ld.js:899 | filtering keeps the order and the repetitions of the kept items: it distributes over concatenation, so a class listed twice is compiled twice |
| Driver.NonBlank | src/ld.js:899 | filtering keeps exactly the items with a non-space character; one item is kept or dropped on its own |
| Driver.AddOnce | src/ld.js:945-952 | adding a rule to a bucket extends it, and it holds the rule and the old contents, nothing else |
| Driver.ProcessName | src/ld.js:903-953 | a class name adds at most one rule, routed into the bucket of its kind; a throwing one changes nothing |
| Driver.Run | src/ld.js:856-978 | a pass does nothing exactly when the body is missing or opted out; otherwise the buckets only grow |
| Driver.BucketsAccount | src/ld.js:945-953 | after a pass every bucket holds no duplicates and only rules of its kind, and a rule is in a bucket exactly when it was there before or was compiled in the pass and is of that kind |
| Driver.FlushOrder | src/ld.js:960-976 | the flushed text has no duplicate rule and every regular rule comes before every media rule |
| Driver.OptedOutElementContributesNothing | src/ld.js:889-892 | an element with `data-dystyle="false"` changes nothing |
| Driver.NamesStopIff | src/ld.js:902-955 | the loop over an element's class names stops exactly when one of them throws |
| Driver.JobsStopIff | src/ld.js:882-957 | the loop over the elements stops exactly when some class name of some element throws |
| Driver.PassCompletesIffNothingThrows | src/ld.js:882-976 | a pass over a body that does not opt out completes exactly when nothing throws, and is aborted otherwise |
| Driver.JobsFrame | src/ld.js:945-953 | the buckets do not steer the pass: two starts with the same log end with the same rules, the same classes and the same failure |
| Driver.JobsStable | src/ld.js:945-953 | buckets that already hold every rule a pass compiles come out unchanged |
| Driver.SecondPass | src/ld.js:856-978 | a second pass over the buckets a completed pass left compiles the same rules, adds the same classes, pushes nothing new and flushes both buckets again |
| Examples.PaddingTR | src/ld.js:1335-1344 | `PaddingTR` gives `padding-top, padding-right` |
| Examples.PaddingY | src/ld.js:1347-1349 | `PaddingY` gives `padding-top, padding-bottom` |
| Examples.MarginX | src/ld.js:1350-1352 | `MarginX` gives `margin-right, margin-left` |
| Examples.BackgroundColor | src/ld.js:1357-1379 | `BackgroundColor` gives `background-color`, with `backgroundcolor` recorded as invalidated |
| Examples.Bgc | src/ld.js:1301-1323 | the abbreviation `Bgc` gives `background-color` too |
| Examples.Calc | src/ld.js:1441-1457 | `calc(10px-pl-5px)` gives `calc(10px + 5px)` |
| Examples.Negative | src/ld.js:1483-1492 | `mn4rem` gives `-4rem` |
| Examples.TwoPercents | src/ld.js:1483-1492 | `10pct-20pct` pushes `10% 20%` twice, one value per `pct` occurrence |
| Examples.SanitizeCalc | src/ld.js:1168-1172 | the operation string `calc(10px)` becomes `calc_10px_`, one `_` per bracket |
| Examples.SentinelPushesEach | src/ld.js:1483-1492 | `mn5pct` pushes two values, `-5pct` and `mn5%`: each sentinel occurrence pushes the segment with only that sentinel decoded |
| Examples.TenPercent | src/ld.js:1483-1492 | `10pct` gives `10%` |
| Examples.LeadingZero | src/ld.js:1469-1480 | `05` gives `0.5` |
| Examples.Border | src/ld.js:1462-1464 | `1px-solid-red` gives `1px solid red` |
| Examples.ShortHex | src/ld.js:1467-1468 | `#abc` is left as written |
| Examples.Keyword | src/ld.js:1499-1510 | `borderbox` gives the catalogue entry `border-box` |
| Examples.UnknownKeyword | src/ld.js:1499-1510 | a word no catalogue entry spells pushes nothing |
| Examples.FourDigitHexGainsPoint | src/ld.js:1467-1476 | the four-digit colour `#0123` passes the hex shape but not the strict check, so it becomes `#0.123` |
| Examples.RewriteHitsEarlierOccurrence | src/ld.js:1472-1476 | `105-05` becomes `10.5 05`: the pair matched after the space is rewritten at its first occurrence |
| Examples.MaxWidth | src/ld.js:1202-1265 | `MQMaxWidth600PX_` gives `@media (max-width: 600px) ` |
| Examples.Portrait | src/ld.js:1202-1265 | `MQOrientationPortrait_` gives `@media (orientation: portrait)` |
| Walkthrough.BackgroundColorRed | src/ld.js:1038-1195 | the class name `lcsBackgroundColor_red` (property list `BackgroundColor`, value list `red`) compiles on any attached element to `._BackgroundColor_red{background-color: red;}` and adds the class `_BackgroundColor_red` |

## Left out

- The DOM boundary is left out: creating the style element, the `DOMContentLoaded` hook, `querySelectorAll`, `insertAdjacentText` and `classList.add`.
  - `classList.add` throws on a class text holding white space; `Compiler.SetRules` returns it anyway. The class-name grammar never yields such a text.
  - The page is a list of `(opted out, class attribute, tag, parent tag, attached)` records.
  - The class to add is returned as a value.
  - The style text is returned as the flushed list of rules.
  - The `instanceof HTMLElement` / `document.contains` check is the input flag `attached`.
- `src/la.js` is not part of this model. It is network plumbing and a polling lock around asynchronous requests.
- The class-name grammar (`src/ld.js:909`) is a parameter of the driver, because the JavaScript regular-expression engine is not modelled.
  - The parameter maps a class name to its six capture groups, or to none.
  - The value-list part of that grammar is modelled separately, for the negative-number rule.
- The grid-template and colour-function value shapes are simplified recognisers. They do not reproduce every corner of their regular expressions.
- The property and value catalogues (`src/ld.js:159-730`) are a parameter. The examples use a small excerpt. The abbreviation map, the direction map, the media keyword map and the operator map are written out in full.
- `toLowerCase` is modelled on ASCII letters only. Class names are ASCII.
- Console warnings and the text of error messages are not modelled. Each exception is a `Failure` constructor.
- The `purpose` check of `#matchRegex` is not modelled: both call sites pass a valid purpose, so that `throw` cannot happen. `Segments.Purpose` is a two-value datatype.
- Behaviour promised only in the header comment is not modelled, because the code does not implement it: pseudo-element suffixes, `!important`, keyframes.
- The media rewrite is proved end to end for every token with ONE numeric condition. A token with one orientation word is covered only by the example `MQOrientationPortrait_`; no general law covers `landscape`. Tokens that chain several conditions are modelled by `Media.MediaRule`, but no law covers their result.
- `Driver.Run` does not model JavaScript's module-level buckets being shared between passes. The buckets a pass starts from are an explicit parameter instead.
- `Driver.SecondPass`: the rerun reads the same page, without the classes the first pass added to the elements. Those classes never start with `lcs`, so the class-name grammar would skip them.
- `Values.ValidateValue`: the numeric branch is stated through `NormalizeNumber` (hyphens, then leading-zero decimals); the text that normalisation produces is covered only by the laws and examples for particular shapes.
