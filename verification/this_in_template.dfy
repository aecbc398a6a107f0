/**
  The `this-in-template` rule. A stack of scope layers follows the element
  nesting: entering an element pushes a copy of the enclosing layer's names
  extended by the element's own variables (no name twice); leaving it pops
  the layer. In `never` mode `this.p` is reported when `p` could be written
  bare; in `always` mode every reference not bound in the current layer is
  reported, with a fix inserting `this.` before it.
 */
module ThisInTemplate {
  import opened Lint

  datatype Mode = Always | Never

  /** Any option other than `'always'`, including none, means `never`. */
  function ParseMode(option: Option<string>): (m: Mode)
    ensures m == Always <==> option == Some("always")
  {
    if option == Some("always") then Always else Never
  }

  /** The names visible in one element, in the order they were added. */
  type Layer = seq<string>

  predicate NoDuplicates(names: seq<string>) {
    forall i, j :: 0 <= i < j < |names| ==> names[i] != names[j]
  }

  /** Adds each variable name, in order, unless the layer already holds it. */
  function AddVariables(layer: Layer, vars: seq<string>): (r: Layer)
    ensures |layer| <= |r| && r[..|layer|] == layer
    ensures NoDuplicates(layer) ==> NoDuplicates(r)
    ensures forall x :: x in r <==> x in layer || x in vars
    decreases |vars|
  {
    if |vars| == 0 then layer
    else
      var next := if vars[0] in layer then layer else layer + [vars[0]];
      var r := AddVariables(next, vars[1..]);
      assert forall x :: x in vars <==> x == vars[0] || x in vars[1..];
      assert r[..|layer|] == r[..|next|][..|layer|];
      r
  }

  /** The scope stack: the innermost layer last. */
  type Stack = seq<Layer>

  /** The names the innermost layer holds; none outside any element. */
  function Visible(stack: Stack): Layer {
    if |stack| == 0 then [] else Last(stack)
  }

  /** `KElement`: push a copy of the enclosing layer extended by the element's variables. */
  function EnterElement(stack: Stack, vars: seq<string>): (s: Stack)
    ensures |s| == |stack| + 1 && s[..|stack|] == stack
    ensures forall x :: x in Visible(s) <==> x in Visible(stack) || x in vars
    ensures NoDuplicates(Visible(stack)) ==> NoDuplicates(Visible(s))
  {
    stack + [AddVariables(Visible(stack), vars)]
  }

  /** `KElement:exit`: pop the innermost layer; an empty stack stays empty. */
  function ExitElement(stack: Stack): (s: Stack)
    ensures |stack| > 0 ==> s == stack[..|stack| - 1]
    ensures |stack| == 0 ==> s == []
  {
    if |stack| == 0 then [] else stack[..|stack| - 1]
  }

  /** Leaving an element restores exactly the layers that were there before entering it. */
  lemma ExitRestoresParent(stack: Stack, vars: seq<string>)
    ensures ExitElement(EnterElement(stack, vars)) == stack
  {
  }

  predicate IsIdentifierChar(c: char) {
    ('a' <= c <= 'z') || ('A' <= c <= 'Z') || ('0' <= c <= '9') || c == '_' || c == '$'
  }

  /**
    The names that need bracket access, `/^[0-9].*$|[^a-zA-Z0-9_$]/`: a
    leading digit, or any character outside `[A-Za-z0-9_$]`.
   */
  predicate NeedsBrackets(p: string) {
    (|p| > 0 && IsDigit(p[0])) || exists i :: 0 <= i < |p| && !IsIdentifierChar(p[i])
  }

  /**
    `never` mode, `this` as the object of a member expression: `property`
    is the member's static name (None when it has none), `reserved` the
    reserved-word set.
   */
  function CheckThisMember(stack: Stack, property: Option<string>, thisLoc: Loc, memberLoc: Loc,
                           reserved: string -> bool): (r: seq<Diagnostic>)
    ensures |r| <= 1
    ensures |r| == 1 <==>
      && |stack| > 0
      && property.Some? && property.value != ""
      && property.value !in Visible(stack)
      && !reserved(property.value)
      && !NeedsBrackets(property.value)
    ensures |r| == 1 ==> r[0].loc == thisLoc && r[0].fix == [ReplaceText(memberLoc, property.value)]
    ensures |r| == 1 ==> r[0].message == "Unexpected usage of 'this'."
  {
    if |stack| == 0 then []
    else if property.None? || property.value == "" then []
    else
      var p := property.value;
      if p in Last(stack) || reserved(p) || NeedsBrackets(p) then []
      else [Diagnostic(thisLoc, "Unexpected usage of 'this'.", [ReplaceText(memberLoc, p)], [])]
  }

  /** A reference in an expression container: the identifier's name and location. */
  datatype Reference = Reference(name: string, loc: Loc)

  function ExpectThis(ref: Reference): Diagnostic {
    Diagnostic(ref.loc, "Expected 'this'.", [InsertTextBefore(ref.loc, "this.")], [])
  }

  /** The references not bound in `layer`, each reported in order with the `this.` insertion. */
  function UnboundReferences(layer: Layer, refs: seq<Reference>): (r: seq<Diagnostic>)
    ensures |r| <= |refs|
    ensures forall d :: d in r ==> exists ref :: ref in refs && ref.name !in layer && d == ExpectThis(ref)
    ensures forall ref :: ref in refs && ref.name !in layer ==> ExpectThis(ref) in r
  {
    if |refs| == 0 then []
    else
      var head := if refs[0].name in layer then [] else [ExpectThis(refs[0])];
      var r := head + UnboundReferences(layer, refs[1..]);
      assert forall ref :: ref in refs <==> ref == refs[0] || ref in refs[1..];
      r
  }

  /** The reports for a concatenation are those for each part, in order. */
  lemma {:induction false} UnboundReferencesAppend(layer: Layer, a: seq<Reference>, b: seq<Reference>)
    ensures UnboundReferences(layer, a + b) == UnboundReferences(layer, a) + UnboundReferences(layer, b)
    decreases |a|
  {
    if |a| > 0 {
      var ab := a + b;
      assert ab[0] == a[0] && ab[1..] == a[1..] + b;
      var head := if a[0].name in layer then [] else [ExpectThis(a[0])];
      assert UnboundReferences(layer, ab) == head + UnboundReferences(layer, a[1..] + b);
      assert UnboundReferences(layer, a) == head + UnboundReferences(layer, a[1..]);
      UnboundReferencesAppend(layer, a[1..], b);
    } else {
      assert a + b == b;
    }
  }

  /** One reference is reported once when it is unbound and not at all otherwise. */
  lemma UnboundReferencesSingle(layer: Layer, ref: Reference)
    ensures UnboundReferences(layer, [ref]) == if ref.name in layer then [] else [ExpectThis(ref)]
  {
    assert [ref][1..] == [];
  }

  /** `always` mode, an expression container; `underDirectiveKey` when its parent is a directive key. */
  function CheckContainer(stack: Stack, underDirectiveKey: bool, refs: seq<Reference>): (r: seq<Diagnostic>)
    ensures |stack| == 0 || underDirectiveKey ==> r == []
    ensures |stack| > 0 && !underDirectiveKey ==> r == UnboundReferences(Last(stack), refs)
  {
    if |stack| == 0 || underDirectiveKey then [] else UnboundReferences(Last(stack), refs)
  }

  /** The template traversal events the rule listens to, in document order. */
  datatype Event =
    | Enter(variables: seq<string>)
    | Exit
    | ThisMember(property: Option<string>, thisLoc: Loc, memberLoc: Loc)
    | Container(underDirectiveKey: bool, references: seq<Reference>)

  /** One event: the new stack and the reports it produces under `mode`. */
  function Step(stack: Stack, e: Event, mode: Mode, reserved: string -> bool): (result: (Stack, seq<Diagnostic>))
    ensures e.Enter? ==> result == (EnterElement(stack, e.variables), [])
    ensures e.Exit? ==> result == (ExitElement(stack), [])
    ensures e.ThisMember? || e.Container? ==> result.0 == stack
    ensures mode == Never && e.Container? ==> result.1 == []
    ensures mode == Always && e.ThisMember? ==> result.1 == []
    ensures mode == Never && e.ThisMember? ==>
              result.1 == CheckThisMember(stack, e.property, e.thisLoc, e.memberLoc, reserved)
    ensures mode == Always && e.Container? ==> result.1 == CheckContainer(stack, e.underDirectiveKey, e.references)
  {
    match e
    case Enter(vars) => (EnterElement(stack, vars), [])
    case Exit => (ExitElement(stack), [])
    case ThisMember(p, thisLoc, memberLoc) =>
      (stack, if mode == Never then CheckThisMember(stack, p, thisLoc, memberLoc, reserved) else [])
    case Container(underKey, refs) =>
      (stack, if mode == Always then CheckContainer(stack, underKey, refs) else [])
  }

  /** The whole traversal: the events folded over the stack, reports concatenated in order. */
  function Run(stack: Stack, events: seq<Event>, mode: Mode, reserved: string -> bool): seq<Diagnostic>
    decreases |events|
  {
    if |events| == 0 then []
    else
      var (next, reports) := Step(stack, events[0], mode, reserved);
      reports + Run(next, events[1..], mode, reserved)
  }

  /** Outside any element nothing is reported, in either mode, whatever events arrive before the first element. */
  lemma {:induction false} NothingOutsideElements(events: seq<Event>, mode: Mode, reserved: string -> bool)
    requires forall i :: 0 <= i < |events| ==> !events[i].Enter?
    ensures Run([], events, mode, reserved) == []
    decreases |events|
  {
    if |events| > 0 {
      assert !events[0].Enter?;
      NothingOutsideElements(events[1..], mode, reserved);
    }
  }

  /**
    Shadowing: inside an element that declares `p`, and in every element
    nested in it, neither `this.p` (never mode) nor a bare `p` (always
    mode) is reported.
   */
  lemma DeclaredNameShadows(stack: Stack, vars: seq<string>, nested: seq<seq<string>>,
                                                p: string, thisLoc: Loc, memberLoc: Loc, ref: Reference,
                                                reserved: string -> bool)
    requires p in vars && ref.name == p
    ensures var inner := NestAll(EnterElement(stack, vars), nested);
            && CheckThisMember(inner, Some(p), thisLoc, memberLoc, reserved) == []
            && CheckContainer(inner, false, [ref]) == []
  {
    NestAllKeepsNames(EnterElement(stack, vars), nested, p);
  }

  /** Entering the elements of `nested` one inside the other. */
  function NestAll(stack: Stack, nested: seq<seq<string>>): (s: Stack)
    ensures |s| == |stack| + |nested|
    decreases |nested|
  {
    if |nested| == 0 then stack else NestAll(EnterElement(stack, nested[0]), nested[1..])
  }

  /** A name visible in a layer stays visible in every layer nested inside it. */
  lemma {:induction false} NestAllKeepsNames(stack: Stack, nested: seq<seq<string>>, p: string)
    requires p in Visible(stack)
    ensures p in Visible(NestAll(stack, nested))
    decreases |nested|
  {
    if |nested| > 0 {
      NestAllKeepsNames(EnterElement(stack, nested[0]), nested[1..], p);
    }
  }
}
