/**
  `#validateCSSProperty`: turns one property segment into the canonical CSS
  property names it stands for. A padding/margin direction shorthand
  (`PaddingTR`, `MarginX`) expands to one name per direction; any other
  segment is lowered, abbreviation-mapped and looked up in the catalogue.
 */
module Properties {
  import opened Wrappers
  import opened Text
  import opened Failures
  import Lookup

  /** What one segment appends to the validated and invalidated property lists. */
  datatype Pushes = Pushes(validated: seq<string>, invalidated: seq<string>)

  // ---------------------------------------------------------------------------
  // Direction shorthands: /(Padding|Margin)((T|R|B|L){2,4}|(Y|X){1})/

  /** A direction shorthand found in a segment: the leader as written and the direction letters after it. */
  datatype Shorthand = Shorthand(leader: string, codes: string)

  predicate IsSide(c: char) { c == 'T' || c == 'R' || c == 'B' || c == 'L' }

  predicate IsAxis(c: char) { c == 'Y' || c == 'X' }

  function LeaderAt(s: string, i: nat): (r: Option<string>)
    ensures r.Some? ==> (r.value == "Padding" || r.value == "Margin") && MatchAt(s, i, r.value)
    ensures r.None? ==> !MatchAt(s, i, "Padding") && !MatchAt(s, i, "Margin")
  {
    if MatchAt(s, i, "Padding") then Some("Padding")
    else if MatchAt(s, i, "Margin") then Some("Margin")
    else None
  }

  /** The end of the run of side letters from `j`, taking at most `room` of them (the greedy `{2,4}`). */
  function SideEnd(s: string, j: nat, room: nat): (e: nat)
    requires j <= |s|
    ensures j <= e <= |s| && e - j <= room
    ensures forall k :: j <= k < e ==> IsSide(s[k])
    ensures e - j < room ==> e == |s| || !IsSide(s[e])
    decreases room
  {
    if room == 0 || j == |s| || !IsSide(s[j]) then j else SideEnd(s, j + 1, room - 1)
  }

  /** At least two side letters start at `j`, so the `{2,4}` alternative matches there. */
  predicate TwoSidesAt(s: string, j: nat)
  {
    j + 2 <= |s| && IsSide(s[j]) && IsSide(s[j + 1])
  }

  /** An axis letter starts at `j`. */
  predicate AxisAt(s: string, j: nat)
  {
    j < |s| && IsAxis(s[j])
  }

  /**
    The shorthand that the regular expression matches starting exactly at `i`, if
    any. There is one exactly when a leader starts at `i` and is followed by two
    side letters or by an axis letter. The side alternative is tried first and is
    greedy: it takes the whole run of side letters, up to four; otherwise the one
    axis letter is taken.
   */
  function ShorthandAt(s: string, i: nat): (r: Option<Shorthand>)
    ensures r.Some? ==> LeaderAt(s, i) == Some(r.value.leader)
    ensures r.Some? ==> MatchAt(s, i + |r.value.leader|, r.value.codes)
    ensures r.Some? ==>
      (2 <= |r.value.codes| <= 4 && forall k :: 0 <= k < |r.value.codes| ==> IsSide(r.value.codes[k]))
      || (|r.value.codes| == 1 && IsAxis(r.value.codes[0]))
    ensures r.Some? <==>
      LeaderAt(s, i).Some? &&
      (TwoSidesAt(s, i + |LeaderAt(s, i).value|) || AxisAt(s, i + |LeaderAt(s, i).value|))
    ensures r.Some? && TwoSidesAt(s, i + |r.value.leader|) ==>
      var e := i + |r.value.leader| + |r.value.codes|;
      |r.value.codes| >= 2 && (|r.value.codes| == 4 || e == |s| || !IsSide(s[e]))
    ensures r.Some? && !TwoSidesAt(s, i + |r.value.leader|) ==>
      r.value.codes == [s[i + |r.value.leader|]]
  {
    match LeaderAt(s, i)
    case None => None
    case Some(leader) =>
      var j := i + |leader|;
      var e := SideEnd(s, j, 4);
      if e - j >= 2 then
        assert MatchAt(s, j, s[j..e]) by { MatchAtSlice(s, j, s[j..e]); }
        Some(Shorthand(leader, s[j..e]))
      else if j < |s| && IsAxis(s[j]) then
        assert MatchAt(s, j, [s[j]]) by { MatchAtSlice(s, j, [s[j]]); }
        Some(Shorthand(leader, [s[j]]))
      else None
  }

  /** `sh` is what the regular expression matches at `i`: a leader, then the greedy side run or one axis letter. */
  predicate ShorthandMatchAt(s: string, i: nat, sh: Shorthand)
  {
    var j := i + |sh.leader|;
    var e := j + |sh.codes|;
    (sh.leader == "Padding" || sh.leader == "Margin") && MatchAt(s, i, sh.leader) && MatchAt(s, j, sh.codes) &&
    (|| (2 <= |sh.codes| <= 4 && (forall k :: 0 <= k < |sh.codes| ==> IsSide(sh.codes[k]))
         && (|sh.codes| == 4 || e == |s| || !IsSide(s[e])))
     || (|sh.codes| == 1 && IsAxis(sh.codes[0]) && !TwoSidesAt(s, j)))
  }

  /** `Padding` and `Margin` differ in their first letter, so at most one of them starts at `i`. */
  lemma LeaderFound(s: string, i: nat, leader: string)
    requires (leader == "Padding" || leader == "Margin") && MatchAt(s, i, leader)
    ensures LeaderAt(s, i) == Some(leader)
  {
    MatchAtSlice(s, i, leader);
    MatchAtSlice(s, i, "Padding");
    assert s[i] == leader[0];
  }

  /** Whatever the regular expression matches at `i` is the shorthand found there. */
  lemma ShorthandFound(s: string, i: nat, sh: Shorthand)
    requires ShorthandMatchAt(s, i, sh)
    ensures ShorthandAt(s, i) == Some(sh)
  {
    var j := i + |sh.leader|;
    LeaderFound(s, i, sh.leader);
    MatchAtSlice(s, j, sh.codes);
    if 2 <= |sh.codes| {
      SideEndIs(s, j, 4, j + |sh.codes|);
      assert s[j..j + |sh.codes|] == sh.codes;
    } else {
      assert SideEnd(s, j, 4) - j < 2;
      assert sh.codes == [s[j]];
    }
  }

  /** A run of side letters from `j` to `e` that stops at `e` or fills `room` is what `SideEnd` finds. */
  lemma {:induction false} SideEndIs(s: string, j: nat, room: nat, e: nat)
    requires j <= e <= |s| && e - j <= room
    requires forall k :: j <= k < e ==> IsSide(s[k])
    requires e - j == room || e == |s| || !IsSide(s[e])
    ensures SideEnd(s, j, room) == e
    decreases room
  {
    if j < e {
      SideEndIs(s, j + 1, room - 1, e);
    }
  }

  /** The shorthand `r` starts at `j`, and none starts between `i` and `j`. */
  predicate FirstShorthandAt(s: string, i: nat, j: nat, r: Option<Shorthand>)
  {
    i <= j <= |s| && ShorthandAt(s, j) == r && forall k :: i <= k < j ==> ShorthandAt(s, k).None?
  }

  /** The leftmost shorthand at or after `i`. */
  function FindShorthand(s: string, i: nat): (r: Option<Shorthand>)
    requires i <= |s|
    ensures r.None? ==> forall j :: i <= j <= |s| ==> ShorthandAt(s, j).None?
    ensures r.Some? ==> exists j :: FirstShorthandAt(s, i, j, r)
    decreases |s| - i
  {
    var here := ShorthandAt(s, i);
    if here.Some? || i == |s| then
      assert FirstShorthandAt(s, i, i, here);
      here
    else
      var r := FindShorthand(s, i + 1);
      LeftmostFrom(s, i, i + 1, r);
      r
  }

  /** A leftmost shorthand after `i` is still the leftmost one from `i` when there is none at `i`. */
  lemma LeftmostFrom(s: string, i: nat, next: nat, r: Option<Shorthand>)
    requires i < |s| && next == i + 1 && ShorthandAt(s, i).None?
    requires r.Some? ==> exists j :: FirstShorthandAt(s, next, j, r)
    ensures r.Some? ==> exists j :: FirstShorthandAt(s, i, j, r)
  {
    if r.Some? {
      var j :| FirstShorthandAt(s, next, j, r);
      forall k | i <= k < j ensures ShorthandAt(s, k).None? {
        if k != i {
          assert next <= k;
        }
      }
      assert FirstShorthandAt(s, i, j, r);
    }
  }

  function DirectionName(c: char): string
  {
    if c == 'T' then "top"
    else if c == 'R' then "right"
    else if c == 'B' then "bottom"
    else "left"
  }

  /**
    The pushes of the shorthand branch. The side letters of the whole match are
    the letters after the leader, since neither `Padding` nor `Margin` contains one.
   */
  function Expand(segment: string, sh: Shorthand): Pushes
  {
    var leader := Lower(sh.leader);
    if |sh.codes| > 1 then
      Pushes(seq(|sh.codes|, k requires 0 <= k < |sh.codes| => leader + "-" + DirectionName(sh.codes[k])), [])
    else if sh.codes == "Y" then Pushes([leader + "-top", leader + "-bottom"], [])
    else if sh.codes == "X" then Pushes([leader + "-right", leader + "-left"], [])
    else Pushes([], [segment])
  }

  // ---------------------------------------------------------------------------
  // Plain properties: lower-case, abbreviation map, catalogue lookup

  /** The `shorthandMap` object literal. */
  const Abbreviations: map<string, string> := map[
    "paddingt" := "padding-top",
    "paddingr" := "padding-right",
    "paddingb" := "padding-bottom",
    "paddingl" := "padding-left",
    "margint" := "margin-top",
    "marginr" := "margin-right",
    "marginb" := "margin-bottom",
    "marginl" := "margin-left",
    "ai" := "align-items",
    "bd" := "border",
    "bdc" := "border-color",
    "bds" := "border-style",
    "bdw" := "border-width",
    "bg" := "background",
    "bgc" := "background-color",
    "bgs" := "background-size",
    "bs" := "box-shadow",
    "gtc" := "grid-template-columns",
    "gtr" := "grid-template-rows",
    "jc" := "justify-content"
  ]

  /**
    Lower-case names that an object literal inherits from `Object.prototype`:
    indexing `shorthandMap` with one yields a truthy non-string, and the
    following `replace` call throws.
   */
  const PrototypeMembers: seq<string> := ["constructor", "__proto__"]

  /** `shorthandMap[name]` when present, else `name`. */
  function Abbreviate(name: string): string
  {
    if name in Abbreviations then Abbreviations[name] else name
  }

  /** `#validateCSSProperty(segment)`: what one segment pushes, or the exception it raises. */
  function ValidateProperty(table: seq<string>, segment: string): (r: Result<Pushes, Failure>)
    ensures r.Err? <==> FindShorthand(segment, 0).None? && Lower(segment) in PrototypeMembers
    ensures r.Ok? && FindShorthand(segment, 0).Some? ==>
      2 <= |r.value.validated| <= 4 && r.value.invalidated == []
    ensures r.Ok? && FindShorthand(segment, 0).None? ==>
      |r.value.validated| <= 1 && r.value.invalidated == [Abbreviate(Lower(segment))]
  {
    match FindShorthand(segment, 0)
    case Some(sh) => Ok(Expand(segment, sh))
    case None =>
      var lowered := Lower(segment);
      if lowered in PrototypeMembers then Err(PrototypeMember(lowered))
      else
        var name := Abbreviate(lowered);
        match Lookup.Canonical(table, name)
        case Some(entry) => Ok(Pushes([entry], [name]))
        case None => Ok(Pushes([], [name]))
  }

  /** Runs `validate` over the segments in order, concatenating the pushes; the first exception ends the run. */
  function Collect(validate: string -> Result<Pushes, Failure>, segments: seq<string>): Result<Pushes, Failure>
    decreases |segments|
  {
    if |segments| == 0 then Ok(Pushes([], []))
    else
      var first := validate(segments[0]);
      var rest := Collect(validate, segments[1..]);
      if first.Err? then first
      else if rest.Err? then rest
      else Ok(Concat(first.value, rest.value))
  }

  function Concat(p: Pushes, q: Pushes): Pushes
  {
    Pushes(p.validated + q.validated, p.invalidated + q.invalidated)
  }

  /** The property loop of `#startValidation`. */
  function ValidateProperties(table: seq<string>, segments: seq<string>): (r: Result<Pushes, Failure>)
    ensures r.Ok? <==> forall k :: 0 <= k < |segments| ==> ValidateProperty(table, segments[k]).Ok?
  {
    CollectOk(segment => ValidateProperty(table, segment), segments);
    Collect(segment => ValidateProperty(table, segment), segments)
  }

  // ---------------------------------------------------------------------------
  // Properties

  /**
    A side shorthand pushes one `leader-direction` name per letter, in letter
    order, with T, R, B, L read as top, right, bottom, left.
   */
  lemma SideShorthandExpands(table: seq<string>, segment: string, sh: Shorthand)
    requires FindShorthand(segment, 0) == Some(sh) && |sh.codes| > 1
    ensures sh.leader == "Padding" || sh.leader == "Margin"
    ensures ValidateProperty(table, segment).Ok?
    ensures |ValidateProperty(table, segment).value.validated| == |sh.codes|
    ensures forall k :: 0 <= k < |sh.codes| ==>
      ValidateProperty(table, segment).value.validated[k] == Lower(sh.leader) + "-" + DirectionName(sh.codes[k])
  {
    var j :| 0 <= j <= |segment| && ShorthandAt(segment, j) == Some(sh);
  }

  /** An axis shorthand pushes the two sides of its axis: Y is top then bottom, X is right then left. */
  lemma AxisShorthandExpands(table: seq<string>, segment: string, sh: Shorthand)
    requires FindShorthand(segment, 0) == Some(sh) && |sh.codes| <= 1
    ensures sh.codes == "Y" || sh.codes == "X"
    ensures sh.codes == "Y" ==>
      ValidateProperty(table, segment) == Ok(Pushes([Lower(sh.leader) + "-top", Lower(sh.leader) + "-bottom"], []))
    ensures sh.codes == "X" ==>
      ValidateProperty(table, segment) == Ok(Pushes([Lower(sh.leader) + "-right", Lower(sh.leader) + "-left"], []))
  {
    var j :| 0 <= j <= |segment| && ShorthandAt(segment, j) == Some(sh);
    assert sh.codes == [sh.codes[0]];
  }

  /**
    A plain property is accepted exactly when its lowered, abbreviation-mapped
    name equals some catalogue entry once hyphens are ignored; the one name
    pushed is then the earliest such entry, and the mapped name is recorded as
    invalidated whether or not it matched.
   */
  lemma PlainPropertyLookup(table: seq<string>, segment: string)
    requires FindShorthand(segment, 0).None? && Lower(segment) !in PrototypeMembers
    ensures ValidateProperty(table, segment).Ok?
    ensures ValidateProperty(table, segment).value.invalidated == [Abbreviate(Lower(segment))]
    ensures |ValidateProperty(table, segment).value.validated| == 1 <==>
      exists k :: 0 <= k < |table| && Lookup.Strip(table[k]) == Lookup.Strip(Abbreviate(Lower(segment)))
    ensures forall k :: Lookup.FirstMatchAt(table, Abbreviate(Lower(segment)), k) ==>
      ValidateProperty(table, segment).value.validated == [table[k]]
  {
    var name := Abbreviate(Lower(segment));
    forall k | Lookup.FirstMatchAt(table, name, k)
      ensures ValidateProperty(table, segment).value.validated == [table[k]]
    {
      Lookup.CanonicalIsFirst(table, name, k);
    }
  }

  /** The loop completes exactly when no segment throws. */
  lemma {:induction false} CollectOk(validate: string -> Result<Pushes, Failure>, segments: seq<string>)
    ensures Collect(validate, segments).Ok? <==> forall k :: 0 <= k < |segments| ==> validate(segments[k]).Ok?
    decreases |segments|
  {
    if |segments| > 0 {
      CollectOk(validate, segments[1..]);
      assert forall k :: 1 <= k < |segments| ==> segments[k] == segments[1..][k - 1];
    }
  }

  /** The loop keeps segment order: running it over a concatenation concatenates the pushes. */
  lemma {:induction false} CollectAppend(validate: string -> Result<Pushes, Failure>, a: seq<string>, b: seq<string>)
    requires Collect(validate, a).Ok? && Collect(validate, b).Ok?
    ensures Collect(validate, a + b) == Ok(Concat(Collect(validate, a).value, Collect(validate, b).value))
    decreases |a|
  {
    if |a| == 0 {
      assert a + b == b;
      var r := Collect(validate, b).value;
      assert Concat(Pushes([], []), r) == r;
    } else {
      var ab := a + b;
      assert ab[0] == a[0];
      assert ab[1..] == a[1..] + b;
      CollectAppend(validate, a[1..], b);
      var p := validate(a[0]).value;
      var q := Collect(validate, a[1..]).value;
      var r := Collect(validate, b).value;
      assert Concat(p, Concat(q, r)) == Concat(Concat(p, q), r);
    }
  }

  /** Validating the segments of a concatenation concatenates their pushes. */
  lemma ValidatePropertiesAppend(table: seq<string>, a: seq<string>, b: seq<string>)
    requires ValidateProperties(table, a).Ok? && ValidateProperties(table, b).Ok?
    ensures ValidateProperties(table, a + b) ==
      Ok(Concat(ValidateProperties(table, a).value, ValidateProperties(table, b).value))
  {
    CollectAppend(segment => ValidateProperty(table, segment), a, b);
  }
}
