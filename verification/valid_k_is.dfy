/**
  The `valid-k-is` rule: a `k-is` directive takes no argument, no modifier,
  and a non-empty value, and must sit on a native HTML element. The four
  checks are independent, so one directive gets up to four reports.
 */
module ValidKIs {
  import opened Lint

  /**
    The element owning the directive: its name and raw name, and whether it
    is an HTML element node (as opposed to an SVG, MathML or custom one).
   */
  datatype Owner = Owner(name: string, rawName: string, isHtmlElement: bool)

  /** A `k-is` directive: its location, its argument's location if any, its modifiers' locations, and whether its value is missing or empty. */
  datatype Directive = Directive(loc: Loc, argument: Option<Loc>, modifiers: seq<Loc>, valueMissingOrEmpty: bool, owner: Owner)

  /** `isValidElement`: a non-HTML element, or an HTML element with a well-known name. */
  predicate IsValidElement(owner: Owner, isWellKnown: string -> bool) {
    !(owner.isHtmlElement && !isWellKnown(owner.rawName))
  }

  const UnexpectedArgument := "'k-is' directives require no argument."
  const UnexpectedModifier := "'k-is' directives require no modifier."
  const ExpectedValue := "'k-is' directives require that attribute value."

  function OwnerMessage(name: string): string {
    "'k-is' directive must be owned by a native HTML element, but '" + name + "' is not."
  }

  function ArgumentReports(d: Directive): (r: seq<Diagnostic>)
    ensures |r| == 1 <==> d.argument.Some?
    ensures |r| <= 1
    ensures |r| == 1 ==> r[0].loc == d.argument.value && r[0].message == UnexpectedArgument && r[0].fix == []
  {
    if d.argument.Some? then [Diagnostic(d.argument.value, UnexpectedArgument, [], [])] else []
  }

  /** The span of the modifiers: from the first one's start to the last one's end. */
  function ModifierSpan(modifiers: seq<Loc>): (l: Loc)
    requires |modifiers| > 0
    ensures l.start == modifiers[0].start && l.startLine == modifiers[0].startLine
    ensures l.end == Last(modifiers).end && l.endLine == Last(modifiers).endLine
  {
    Loc(modifiers[0].startLine, Last(modifiers).endLine, modifiers[0].start, Last(modifiers).end)
  }

  function ModifierReports(d: Directive): (r: seq<Diagnostic>)
    ensures |r| <= 1
    ensures |r| == 1 <==> |d.modifiers| > 0
    ensures |r| == 1 ==> r[0].loc == ModifierSpan(d.modifiers) && r[0].message == UnexpectedModifier
  {
    if |d.modifiers| > 0 then [Diagnostic(ModifierSpan(d.modifiers), UnexpectedModifier, [], [])] else []
  }

  function ValueReports(d: Directive): (r: seq<Diagnostic>)
    ensures |r| <= 1
    ensures |r| == 1 <==> d.valueMissingOrEmpty
    ensures |r| == 1 ==> r[0].loc == d.loc && r[0].message == ExpectedValue
  {
    if d.valueMissingOrEmpty then [Diagnostic(d.loc, ExpectedValue, [], [])] else []
  }

  function OwnerReports(d: Directive, isWellKnown: string -> bool): (r: seq<Diagnostic>)
    ensures |r| <= 1
    ensures |r| == 1 <==> d.owner.isHtmlElement && !isWellKnown(d.owner.rawName)
    ensures |r| == 1 ==> r[0].loc == d.loc && r[0].message == OwnerMessage(d.owner.name)
  {
    if IsValidElement(d.owner, isWellKnown) then [] else [Diagnostic(d.loc, OwnerMessage(d.owner.name), [], [])]
  }

  /** The directive handler: the four checks in source order. */
  function CheckDirective(d: Directive, isWellKnown: string -> bool): (r: seq<Diagnostic>)
    ensures |r| <= 4
    ensures r == ArgumentReports(d) + ModifierReports(d) + ValueReports(d) + OwnerReports(d, isWellKnown)
    ensures forall i :: 0 <= i < |r| ==> r[i].fix == [] && r[i].suggestions == []
  {
    ArgumentReports(d) + ModifierReports(d) + ValueReports(d) + OwnerReports(d, isWellKnown)
  }

  /** A directive passes every check exactly when it has no argument, no modifier, a value and a valid owner. */
  lemma CleanDirective(d: Directive, isWellKnown: string -> bool)
    ensures CheckDirective(d, isWellKnown) == [] <==>
              && d.argument.None?
              && |d.modifiers| == 0
              && !d.valueMissingOrEmpty
              && IsValidElement(d.owner, isWellKnown)
  {
    var a, m, v, o := ArgumentReports(d), ModifierReports(d), ValueReports(d), OwnerReports(d, isWellKnown);
    assert |CheckDirective(d, isWellKnown)| == |a| + |m| + |v| + |o|;
  }

  /** The number of reports is the number of failed checks; all four can fail at once. */
  lemma ReportCount(d: Directive, isWellKnown: string -> bool)
    ensures |CheckDirective(d, isWellKnown)|
            == (if d.argument.Some? then 1 else 0) + (if |d.modifiers| > 0 then 1 else 0)
               + (if d.valueMissingOrEmpty then 1 else 0) + (if IsValidElement(d.owner, isWellKnown) then 0 else 1)
  {
  }
}
