/**
  The class name `lcsBackgroundColor_red` carried through every stage of the
  compiler: its property list `BackgroundColor` and value list `red` compile,
  on any attached element, to the rule `._BackgroundColor_red{background-color: red;}`
  and the class `_BackgroundColor_red` is added to the element.
 */
module Walkthrough {
  import opened Wrappers
  import opened Text
  import Shapes
  import Segments
  import Properties
  import Values
  import Lookup
  import Failures
  import Compiler
  import Examples

  /** A list without a dot whose one segment passes its test is matched as that segment. */
  lemma SingleSegment(s: string, purpose: Segments.Purpose)
    requires '.' !in s && Segments.Accepts(purpose, s)
    ensures Segments.MatchSegments(s, purpose) == Segments.SegmentMatch(true, [s], [], [s])
  {
    SplitNoSep(s, '.');
    Segments.MatchedIffAllSegmentsPass(s, purpose);
  }

  lemma PropertyWord(s: string)
    requires s == "BackgroundColor"
    ensures '.' !in s && Shapes.HasPropertyWord(s)
  {
    assert IsUpper(s[0]) && IsLetter(s[1]);
  }

  /** Collecting over one segment that validates yields that segment's pushes. */
  lemma CollectOne(validate: string -> Result<Properties.Pushes, Failures.Failure>, s: string)
    requires validate(s).Ok?
    ensures Properties.Collect(validate, [s]) == validate(s)
  {
    assert [s][1..] == [];
    var p := validate(s).value;
    assert Properties.Concat(p, Properties.Pushes([], [])) == p;
  }

  /** A property list of one segment pushes what that segment pushes. */
  lemma OneProperty(table: seq<string>, s: string)
    requires Properties.ValidateProperty(table, s).Ok?
    ensures Properties.ValidateProperties(table, [s]) == Properties.ValidateProperty(table, s)
  {
    var validate := segment => Properties.ValidateProperty(table, segment);
    assert Properties.ValidateProperties(table, [s]) == Properties.Collect(validate, [s]);
    CollectOne(validate, s);
  }

  /** `BackgroundColor` passes the property-word test and validates to `background-color`. */
  lemma PropertyList(s: string)
    requires s == "BackgroundColor"
    ensures Segments.MatchSegments(s, Segments.PropertiesPurpose) == Segments.SegmentMatch(true, [s], [], [s])
    ensures Properties.ValidateProperties(Examples.PropertyTable, [s]) ==
      Ok(Properties.Pushes(["background-color"], ["backgroundcolor"]))
  {
    PropertyWord(s);
    SingleSegment(s, Segments.PropertiesPurpose);
    Examples.BackgroundColor(s);
    OneProperty(Examples.PropertyTable, s);
  }

  /** `red` is a text-shaped value that finds the catalogue keyword `red`. */
  lemma ValueList(s: string)
    requires s == "red"
    ensures Compiler.ValueList(Examples.ValueTable, s) == ["red"]
  {
    Examples.LowerRun(s, 0, 3);
    SingleSegment(s, Segments.ValuesPurpose);
    Examples.WordNotNumeric(s);
    Examples.ValueEntries();
    assert Lookup.Strip(s) == s;
    Values.KeywordLookup(Examples.ValueTable, s);
    assert Lookup.FirstMatchAt(Examples.ValueTable, s, 1);
    assert Values.ValidateValues(Examples.ValueTable, [s]) == Values.ValidateValue(Examples.ValueTable, s);
  }

  /** Without a media token or a specific selection, the class is `_properties_values`. */
  lemma ClassName(parts: Compiler.ClassParts, element: Compiler.Element)
    requires parts == Compiler.ClassParts(None, None, None, "BackgroundColor", "red", None)
    ensures Compiler.TargetOf(parts, element) == Compiler.Target("_BackgroundColor_red", false)
  {
    assert Compiler.OperationString(parts) == "_" + parts.properties + "_" + parts.values;
  }

  /** Letters and underscores pass through the sanitiser untouched. */
  lemma WordClean(s: string)
    requires forall k :: 0 <= k < |s| ==> IsLetter(s[k]) || s[k] == '_'
    ensures Compiler.Sanitize(s) == s
  {
  }

  lemma ClassClean(s: string)
    requires s == "_BackgroundColor_red"
    ensures Compiler.Sanitize(s) == s
  {
    WordClean(s);
  }

  /** Both lists validate, one property against one value, and there is no media rule. */
  lemma BackgroundColorRedValidates(parts: Compiler.ClassParts, element: Compiler.Element)
    requires parts == Compiler.ClassParts(None, None, None, "BackgroundColor", "red", None)
    requires element.attached
    ensures Compiler.Validate(Lookup.Tables(Examples.PropertyTable, Examples.ValueTable), parts, element) ==
      Ok(Compiler.Validated(["background-color"], ["red"], None))
  {
    PropertyList(parts.properties);
    ValueList(parts.values);
  }

  /** A class target the sanitiser leaves alone, without a media rule, is selected as written. */
  lemma ClassRule(parts: Compiler.ClassParts, element: Compiler.Element, v: Compiler.Validated, name: string)
    requires Compiler.TargetOf(parts, element) == Compiler.Target(name, false) && Compiler.Sanitize(name) == name
    requires v.mediaRule == None && |v.properties| == |v.values|
    ensures Compiler.SetRules(parts, element, v) ==
      Compiler.Compiled("." + name + "{" + Compiler.Body(v.properties, v.values) + "}", Some(name))
  {
  }

  lemma DeclarationText(property: string, value: string)
    requires property == "background-color" && value == "red"
    ensures property + ": " + value + ";" == "background-color: red;"
  {
  }

  lemma RuleText(name: string, body: string)
    requires name == "_BackgroundColor_red" && body == "background-color: red;"
    ensures "." + name + "{" + body + "}" == "._BackgroundColor_red{background-color: red;}"
  {
    assert "._BackgroundColor_red{background-color: red;}" ==
      "._BackgroundColor_red" + "{background-color: red;}";
    assert "." + name == "._BackgroundColor_red";
    assert "{" + body + "}" == "{background-color: red;}";
  }

  /** The validated pair becomes one declaration under the class selector. */
  lemma BackgroundColorRedRule(parts: Compiler.ClassParts, element: Compiler.Element)
    requires Compiler.TargetOf(parts, element) == Compiler.Target("_BackgroundColor_red", false)
    ensures Compiler.SetRules(parts, element, Compiler.Validated(["background-color"], ["red"], None)) ==
      Compiler.Compiled("._BackgroundColor_red{background-color: red;}", Some("_BackgroundColor_red"))
  {
    var name := "_BackgroundColor_red";
    ClassClean(name);
    ClassRule(parts, element, Compiler.Validated(["background-color"], ["red"], None), name);
    Compiler.SingleDeclaration("background-color", "red");
    DeclarationText("background-color", "red");
    RuleText(name, "background-color: red;");
  }

  /**
    `lcsBackgroundColor_red` compiles to one declaration under the class
    selector `._BackgroundColor_red`, and that class is added to the element.
   */
  lemma BackgroundColorRed(parts: Compiler.ClassParts, element: Compiler.Element)
    requires parts == Compiler.ClassParts(None, None, None, "BackgroundColor", "red", None)
    requires element.attached
    ensures Compiler.Compile(Lookup.Tables(Examples.PropertyTable, Examples.ValueTable), parts, element) ==
      Ok(Compiler.Compiled("._BackgroundColor_red{background-color: red;}", Some("_BackgroundColor_red")))
  {
    BackgroundColorRedValidates(parts, element);
    ClassName(parts, element);
    BackgroundColorRedRule(parts, element);
  }
}
