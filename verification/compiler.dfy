/**
  The `dySTYLE` class: one decomposed class name compiled into one CSS rule.

  `#startValidation` validates the property list (an invalid list or an
  inherited-member name throws), validates the value list only when it passed
  its shape check (otherwise it pushes nothing), rewrites the media token,
  insists that the two validated lists have the same length and that the
  element is attached, and then `#setRules` derives the selector and the rule
  text and names the class to add to the element.
 */
module Compiler {
  import opened Wrappers
  import opened Text
  import opened Failures
  import Lookup
  import Segments
  import Properties
  import Values
  import Media

  /**
    The six capture groups of the class-name grammar: media token, specific
    selection, pseudo selection, property list, value list, strict flag.
   */
  datatype ClassParts = ClassParts(
    media: Option<string>,
    spec: Option<string>,
    pseudo: Option<string>,
    properties: string,
    values: string,
    strict: Option<string>)

  /**
    What the compiler reads of the element: its tag name, its parent's tag name
    (`None` for no parent element) and whether it is an HTML element contained
    in the document.
   */
  datatype Element = Element(tag: string, parentTag: Option<string>, attached: bool)

  /** The state after validation: both lists and the media rule. */
  datatype Validated = Validated(properties: seq<string>, values: seq<string>, mediaRule: Option<string>)

  /** The rule text and the class to add to the element (`None` for a tag selector). */
  datatype Compiled = Compiled(rule: string, classToAdd: Option<string>)

  /** The values the value list pushes: nothing when the list fails its shape check. */
  function ValueList(table: seq<string>, values: string): seq<string>
  {
    var vm := Segments.MatchSegments(values, Segments.ValuesPurpose);
    if vm.matched then Values.ValidateValues(table, vm.matches) else []
  }

  /** `#startValidation` up to the call of `#setRules`. */
  function Validate(tables: Lookup.Tables, parts: ClassParts, element: Element): (r: Result<Validated, Failure>)
    ensures r.Ok? ==> |r.value.properties| == |r.value.values|
    ensures r.Ok? ==> element.attached
    ensures r.Ok? ==> r.value.mediaRule == Media.MediaRule(parts.media)
    ensures r.Ok? ==> r.value.values == ValueList(tables.values, parts.values)
    ensures r.Ok? ==>
      var pm := Segments.MatchSegments(parts.properties, Segments.PropertiesPurpose);
      var pushed := Properties.ValidateProperties(tables.properties, pm.matches);
      pushed.Ok? && r.value.properties == pushed.value.validated
    ensures r == Err(InvalidProperty) <==> !Segments.MatchSegments(parts.properties, Segments.PropertiesPurpose).matched
    ensures r.Err? && r.error.CountMismatch? ==> r.error.properties != r.error.values
  {
    var pm := Segments.MatchSegments(parts.properties, Segments.PropertiesPurpose);
    if !pm.matched then Err(InvalidProperty)
    else
      match Properties.ValidateProperties(tables.properties, pm.matches)
      case Err(f) =>
        assert f.PrototypeMember? by { PropertyFailureIsPrototype(tables.properties, pm.matches); }
        Err(f)
      case Ok(pushes) =>
        var values := ValueList(tables.values, parts.values);
        var mediaRule := Media.MediaRule(parts.media);
        if |pushes.validated| != |values| then Err(CountMismatch(|pushes.validated|, |values|))
        else if !element.attached then Err(Detached)
        else Ok(Validated(pushes.validated, values, mediaRule))
  }

  /** The only exception a property loop raises is the inherited-member one. */
  lemma {:induction false} PropertyFailureIsPrototype(table: seq<string>, segments: seq<string>)
    ensures Properties.ValidateProperties(table, segments).Err? ==>
      Properties.ValidateProperties(table, segments).error.PrototypeMember?
    decreases |segments|
  {
    if |segments| > 0 {
      PropertyFailureIsPrototype(table, segments[1..]);
      var validate := segment => Properties.ValidateProperty(table, segment);
      assert Properties.ValidateProperties(table, segments) == Properties.Collect(validate, segments);
      assert Properties.ValidateProperties(table, segments[1..]) == Properties.Collect(validate, segments[1..]);
    }
  }

  // ---------------------------------------------------------------------------
  // #setRules

  /** The characters of `[.#(),]+`. */
  const Reserved: set<char> := {'.', '#', '(', ')', ','}

  /** `replace(/[.#(),]+/g, '_')`. */
  function Sanitize(s: string): (r: string)
    ensures forall k :: 0 <= k < |r| ==> r[k] !in Reserved
    ensures (forall k :: 0 <= k < |s| ==> s[k] !in Reserved) ==> r == s
  {
    CollapseRuns(s, Reserved, '_')
  }

  /** Sanitising distributes over a concatenation that does not cut a run of reserved characters in two. */
  lemma SanitizeAppend(a: string, b: string)
    requires RunBoundary(a, b, Reserved)
    ensures Sanitize(a + b) == Sanitize(a) + Sanitize(b)
  {
    CollapseAppend(a, b, Reserved, '_');
  }

  /** Each maximal run of `.#(),` becomes exactly one `_`. */
  lemma SanitizeRun(a: string, u: string, b: string)
    requires |u| > 0 && forall k :: 0 <= k < |u| ==> u[k] in Reserved
    requires |a| == 0 || a[|a| - 1] !in Reserved
    requires |b| == 0 || b[0] !in Reserved
    ensures Sanitize(a + u + b) == Sanitize(a) + "_" + Sanitize(b)
  {
    CollapseRunBetween(a, u, b, Reserved, '_');
  }

  /** The default operation string: the media token (if any) and `_`, then `_properties_values`. */
  function OperationString(parts: ClassParts): string
  {
    (if Media.Truthy(parts.media) then parts.media.value + "_" else "") + "_" + parts.properties + "_" + parts.values
  }

  /** What the selector is built from, and whether it selects by tag name. */
  datatype Target = Target(text: string, byTag: bool)

  /**
    The `switch (true)` on the lowered specific selection: a child selector when
    it mentions `allchildlikethis` and the element has a parent (no change
    otherwise), a tag selector when it mentions `alloftype`.
   */
  function TargetOf(parts: ClassParts, element: Element): Target
  {
    var default := Target(OperationString(parts), false);
    if !Media.Truthy(parts.spec) then default
    else
      var lowered := Lower(parts.spec.value);
      if Contains(lowered, "allchildlikethis") then
        match element.parentTag
        case Some(parent) => Target(Lower(parent) + " > " + Lower(element.tag), true)
        case None => default
      else if Contains(lowered, "alloftype") then Target(Lower(element.tag), true)
      else default
  }

  /** One `property: value;` declaration per index. */
  function Declarations(properties: seq<string>, values: seq<string>): (r: seq<string>)
    requires |properties| == |values|
    ensures |r| == |properties|
  {
    seq(|properties|, k requires 0 <= k < |properties| => properties[k] + ": " + values[k] + ";")
  }

  /** The declarations joined by single spaces. */
  function Body(properties: seq<string>, values: seq<string>): string
    requires |properties| == |values|
  {
    Join(Declarations(properties, values), " ")
  }

  /** The rule text, nested in the media rule when that is truthy. */
  function Wrap(mediaRule: Option<string>, selector: string, body: string): string
  {
    if Media.Truthy(mediaRule) then mediaRule.value + "{" + selector + "{" + body + "}}"
    else selector + "{" + body + "}"
  }

  /** `#setRules`. */
  function SetRules(parts: ClassParts, element: Element, v: Validated): (r: Compiled)
    requires |v.properties| == |v.values|
    ensures r.classToAdd.Some? <==> !TargetOf(parts, element).byTag
    ensures r.classToAdd.Some? ==> forall k :: 0 <= k < |r.classToAdd.value| ==> r.classToAdd.value[k] !in Reserved
  {
    var target := TargetOf(parts, element);
    var name := Sanitize(target.text);
    var selector := if target.byTag then name else "." + name;
    Compiled(Wrap(v.mediaRule, selector, Body(v.properties, v.values)), if target.byTag then None else Some(name))
  }

  /** The constructor: the rule of one decomposed class name, or the exception it throws. */
  function Compile(tables: Lookup.Tables, parts: ClassParts, element: Element): (r: Result<Compiled, Failure>)
    ensures r.Err? <==> Validate(tables, parts, element).Err?
    ensures r.Ok? ==> (r.value.classToAdd.Some? <==> !TargetOf(parts, element).byTag)
  {
    match Validate(tables, parts, element)
    case Err(f) => Err(f)
    case Ok(v) => Ok(SetRules(parts, element, v))
  }

  // ---------------------------------------------------------------------------
  // Properties

  /**
    A class name is rejected as an invalid property exactly when one of its
    dot-separated property segments fails the property-word check.
   */
  lemma InvalidPropertyIffBadSegment(tables: Lookup.Tables, parts: ClassParts, element: Element)
    ensures Compile(tables, parts, element) == Err(InvalidProperty) <==>
      exists k :: 0 <= k < |Split(parts.properties, '.')| &&
        !Segments.Accepts(Segments.PropertiesPurpose, Split(parts.properties, '.')[k])
  {
    Segments.MatchedIffAllSegmentsPass(parts.properties, Segments.PropertiesPurpose);
  }

  /**
    The count gate: once every property segment passes and validates, an
    attached element compiles exactly when the number of property names equals
    the number of values, and otherwise the error reports both counts.
   */
  lemma CountGate(tables: Lookup.Tables, parts: ClassParts, element: Element)
    requires element.attached
    requires Segments.MatchSegments(parts.properties, Segments.PropertiesPurpose).matched
    requires Properties.ValidateProperties(tables.properties,
      Segments.MatchSegments(parts.properties, Segments.PropertiesPurpose).matches).Ok?
    ensures var n := |Properties.ValidateProperties(tables.properties,
        Segments.MatchSegments(parts.properties, Segments.PropertiesPurpose).matches).value.validated|;
      var m := |ValueList(tables.values, parts.values)|;
      (Compile(tables, parts, element).Ok? <==> n == m) &&
      (n != m ==> Compile(tables, parts, element) == Err(CountMismatch(n, m)))
  {
  }

  /**
    A value list that fails its shape check pushes no value, so the class name
    compiles only if no property name was validated either.
   */
  lemma InvalidValuesCompileOnlyEmpty(tables: Lookup.Tables, parts: ClassParts, element: Element)
    requires !Segments.MatchSegments(parts.values, Segments.ValuesPurpose).matched
    ensures Compile(tables, parts, element).Ok? ==> Validate(tables, parts, element).value.properties == []
  {
  }

  /**
    A detached element never compiles; it fails on the attachment check exactly
    when the same class name would compile on an attached element.
   */
  lemma DetachedNeverCompiles(tables: Lookup.Tables, parts: ClassParts, element: Element)
    requires !element.attached
    ensures Compile(tables, parts, element).Err?
    ensures Compile(tables, parts, element) == Err(Detached) <==>
      Compile(tables, parts, element.(attached := true)).Ok?
  {
    var live := element.(attached := true);
    var pm := Segments.MatchSegments(parts.properties, Segments.PropertiesPurpose);
    if pm.matched {
      var props := Properties.ValidateProperties(tables.properties, pm.matches);
      if props.Ok? {
        var values := ValueList(tables.values, parts.values);
        if |props.value.validated| == |values| {
          assert Validate(tables, parts, element) == Err(Detached);
          assert Validate(tables, parts, live).Ok?;
        } else {
          assert Validate(tables, parts, element) == Validate(tables, parts, live);
        }
      } else {
        PropertyFailureIsPrototype(tables.properties, pm.matches);
        assert Validate(tables, parts, element) == Err(props.error);
      }
    }
  }

  /** The pseudo selection and the strict flag are captured but never read. */
  lemma PseudoAndStrictIgnored(tables: Lookup.Tables, parts: ClassParts, element: Element,
                               pseudo: Option<string>, strict: Option<string>)
    ensures Compile(tables, parts, element) == Compile(tables, parts.(pseudo := pseudo, strict := strict), element)
  {
    var other := parts.(pseudo := pseudo, strict := strict);
    assert OperationString(parts) == OperationString(other);
    assert TargetOf(parts, element) == TargetOf(other, element);
  }

  /**
    Without a specific selection the class added to the element is the
    sanitised operation string, and the rule selects that class.
   */
  lemma DefaultSelector(tables: Lookup.Tables, parts: ClassParts, element: Element)
    requires !Media.Truthy(parts.spec)
    requires Compile(tables, parts, element).Ok?
    ensures var c := Compile(tables, parts, element).value;
      var v := Validate(tables, parts, element).value;
      c.classToAdd == Some(Sanitize(OperationString(parts))) &&
      c.rule == Wrap(Media.MediaRule(parts.media), "." + Sanitize(OperationString(parts)), Body(v.properties, v.values))
  {
  }

  /**
    `alloftype` (without `allchildlikethis`) selects every element with the
    element's lowered tag name, and no class is added.
   */
  lemma OfTypeSelector(tables: Lookup.Tables, parts: ClassParts, element: Element)
    requires Media.Truthy(parts.spec)
    requires !Contains(Lower(parts.spec.value), "allchildlikethis") && Contains(Lower(parts.spec.value), "alloftype")
    requires Compile(tables, parts, element).Ok?
    ensures var c := Compile(tables, parts, element).value;
      var v := Validate(tables, parts, element).value;
      c.classToAdd == None &&
      c.rule == Wrap(Media.MediaRule(parts.media), Sanitize(Lower(element.tag)), Body(v.properties, v.values))
  {
  }

  /**
    `allchildlikethis` selects the children of the parent's tag name with the
    element's tag name; without a parent element it falls back to the class.
   */
  lemma ChildSelector(tables: Lookup.Tables, parts: ClassParts, element: Element)
    requires Media.Truthy(parts.spec) && Contains(Lower(parts.spec.value), "allchildlikethis")
    requires Compile(tables, parts, element).Ok?
    ensures var c := Compile(tables, parts, element).value;
      var v := Validate(tables, parts, element).value;
      var body := Body(v.properties, v.values);
      var media := Media.MediaRule(parts.media);
      match element.parentTag
      case Some(parent) =>
        c.classToAdd == None &&
        c.rule == Wrap(media, Sanitize(Lower(parent) + " > " + Lower(element.tag)), body)
      case None =>
        c.classToAdd == Some(Sanitize(OperationString(parts))) &&
        c.rule == Wrap(media, "." + Sanitize(OperationString(parts)), body)
  {
  }

  /** The declarations keep the pairing and the order of the two lists: the body distributes over concatenation. */
  lemma BodyAppend(p1: seq<string>, v1: seq<string>, p2: seq<string>, v2: seq<string>)
    requires |p1| == |v1| && |p2| == |v2| && |p1| > 0 && |p2| > 0
    ensures Body(p1 + p2, v1 + v2) == Body(p1, v1) + " " + Body(p2, v2)
  {
    assert Declarations(p1 + p2, v1 + v2) == Declarations(p1, v1) + Declarations(p2, v2);
    JoinAppend(Declarations(p1, v1), Declarations(p2, v2), " ");
  }

  lemma {:induction false} JoinAppend(a: seq<string>, b: seq<string>, sep: string)
    requires |a| > 0 && |b| > 0
    ensures Join(a + b, sep) == Join(a, sep) + sep + Join(b, sep)
    decreases |a|
  {
    if |a| == 1 {
      assert (a + b)[1..] == b;
    } else {
      assert (a + b)[1..] == a[1..] + b;
      JoinAppend(a[1..], b, sep);
    }
  }

  /** A body with one declaration is that declaration. */
  lemma SingleDeclaration(property: string, value: string)
    ensures Body([property], [value]) == property + ": " + value + ";"
  {
  }
}
