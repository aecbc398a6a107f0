/**
  The `component-definition-name-casing` rule: the name a component is
  defined with — the first argument of a two-argument `component(...)`
  call, or the `name` property of a component object — must follow the
  configured casing. Only a literal or a template literal without
  expressions is checked; the fix rewrites the text between its delimiters.
 */
module ComponentDefinitionNameCasing {
  import opened Lint

  datatype CaseType = PascalCase | KebabCase

  function CaseTypeName(c: CaseType): string {
    match c
    case PascalCase => "PascalCase"
    case KebabCase => "kebab-case"
  }

  /** An option outside the allowed list, or none, means PascalCase. */
  function ParseCaseType(option: Option<string>): (c: CaseType)
    ensures c == KebabCase <==> option == Some("kebab-case")
    ensures option.Some? ==> (CaseTypeName(c) == option.value <==> option.value in ["PascalCase", "kebab-case"])
  {
    if option == Some("kebab-case") then KebabCase else PascalCase
  }

  /** The casing collaborators: the checker and the exact converter for each case type. */
  datatype Casing = Casing(check: (CaseType, string) -> bool, convert: (CaseType, string) -> string)

  /** A template element: its cooked text and its location, delimiters included. */
  datatype Quasi = Quasi(cooked: string, loc: Loc)

  /**
    An expression that may name a component. A literal carries its value
    as text (`${node.value}`) and its location, quotes included.
   */
  datatype NameNode =
    | LiteralNode(text: string, loc: Loc)
    | TemplateNode(expressionCount: nat, quasis: seq<Quasi>, loc: Loc)
    | OtherNode

  /** `canConvert`: a literal, or a template literal with no expression and exactly one element. */
  predicate CanConvert(n: NameNode) {
    n.LiteralNode? || (n.TemplateNode? && n.expressionCount == 0 && |n.quasis| == 1)
  }

  /** The name a convertible node holds. */
  function NodeValue(n: NameNode): string
    requires CanConvert(n)
  {
    if n.TemplateNode? then n.quasis[0].cooked else n.text
  }

  /** The range whose interior the fix rewrites: the template element's, or the literal's own. */
  function NodeRange(n: NameNode): Loc
    requires CanConvert(n)
  {
    if n.TemplateNode? then n.quasis[0].loc else n.loc
  }

  function NotCasedMessage(value: string, caseType: CaseType): string {
    "Property name \"" + value + "\" is not " + CaseTypeName(caseType) + "."
  }

  /** `convertName`: a name that fails the checker is reported, with its interior rewritten by the converter. */
  function ConvertName(n: NameNode, caseType: CaseType, casing: Casing): (r: seq<Diagnostic>)
    requires CanConvert(n)
    ensures |r| <= 1
    ensures |r| == 1 <==> !casing.check(caseType, NodeValue(n))
    ensures |r| == 1 ==>
      && r[0].loc == n.loc
      && r[0].message == NotCasedMessage(NodeValue(n), caseType)
      && r[0].fix == [Edit(NodeRange(n).start + 1, NodeRange(n).end - 1, casing.convert(caseType, NodeValue(n)))]
  {
    var value := NodeValue(n);
    var range := NodeRange(n);
    if casing.check(caseType, value) then []
    else [Diagnostic(n.loc, NotCasedMessage(value, caseType),
                     [Edit(range.start + 1, range.end - 1, casing.convert(caseType, value))], [])]
  }

  /** The handler for `component(name, definition)` calls: only two-argument calls are checked. */
  function CheckComponentCall(args: seq<NameNode>, caseType: CaseType, casing: Casing): (r: seq<Diagnostic>)
    ensures |args| != 2 ==> r == []
    ensures |args| == 2 && !CanConvert(args[0]) ==> r == []
    ensures |args| == 2 && CanConvert(args[0]) ==> r == ConvertName(args[0], caseType, casing)
  {
    if |args| == 2 && CanConvert(args[0]) then ConvertName(args[0], caseType, casing) else []
  }

  /** A property of a component object: its static name (None when it has none) and its value. */
  datatype Property = Property(name: Option<string>, value: NameNode)

  /** A property's static name, for `FindProperty`. */
  function NameOf(p: Property): Option<string> {
    p.name
  }

  /** The handler for component objects: the `name` property, when present and convertible. */
  function CheckComponentObject(props: seq<Property>, caseType: CaseType, casing: Casing): (r: seq<Diagnostic>)
    ensures FindProperty(props, NameOf, "name").None? ==> r == []
    ensures forall i :: FindProperty(props, NameOf, "name") == Some(i) && !CanConvert(props[i].value) ==> r == []
    ensures forall i :: FindProperty(props, NameOf, "name") == Some(i) && CanConvert(props[i].value) ==>
              r == ConvertName(props[i].value, caseType, casing)
  {
    match FindProperty(props, NameOf, "name")
    case None => []
    case Some(i) => if CanConvert(props[i].value) then ConvertName(props[i].value, caseType, casing) else []
  }

  /**
    Applying the fix to a source text whose node range holds a delimited
    literal keeps both delimiters and puts the converted name between them;
    when the converter's output passes the checker, a literal holding it is
    not reported again.
   */
  lemma FixConverges(src: string, n: NameNode, caseType: CaseType, casing: Casing)
    requires CanConvert(n) && |ConvertName(n, caseType, casing)| == 1
    requires 0 <= NodeRange(n).start && NodeRange(n).start + 2 <= NodeRange(n).end <= |src|
    requires casing.check(caseType, casing.convert(caseType, NodeValue(n)))
    ensures var e := ConvertName(n, caseType, casing)[0].fix[0];
            var converted := casing.convert(caseType, NodeValue(n));
            var start := NodeRange(n).start;
            && ValidEdit(src, e)
            && ApplyEdit(src, e)[start] == src[start]
            && ApplyEdit(src, e)[start + 1..start + 1 + |converted|] == converted
            && ApplyEdit(src, e)[start + 1 + |converted|] == src[NodeRange(n).end - 1]
            && ConvertName(LiteralNode(converted, n.loc), caseType, casing) == []
  {
    var converted := casing.convert(caseType, NodeValue(n));
    InteriorRewriteKeepsDelimiters(src, NodeRange(n).start, NodeRange(n).end, converted);
  }

  /**
    Scenario: `component("myComponent", {...})` under PascalCase, with a
    checker rejecting `myComponent` and a converter giving `MyComponent`,
    yields one report whose fix rewrites only the interior of the quotes.
   */
  lemma PascalCaseScenario(loc: Loc, definition: NameNode, casing: Casing)
    requires !casing.check(PascalCase, "myComponent")
    requires casing.convert(PascalCase, "myComponent") == "MyComponent"
    ensures CheckComponentCall([LiteralNode("myComponent", loc), definition], ParseCaseType(None), casing)
            == [Diagnostic(loc, "Property name \"myComponent\" is not PascalCase.",
                           [Edit(loc.start + 1, loc.end - 1, "MyComponent")], [])]
  {
    assert CaseTypeName(PascalCase) == "PascalCase";
    assert NotCasedMessage("myComponent", PascalCase) == "Property name \"myComponent\" is not PascalCase.";
  }
}
