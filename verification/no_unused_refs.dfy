/**
  The `no-unused-refs` rule. The template's plain `ref="name"` attributes
  define refs; reading `$refs.name` (in the template or the script) uses
  one. When the root template element is left, every defined ref that was
  never used is reported. Any use of `$refs` that cannot be followed
  statically latches `hasUnknown`, which stops collecting definitions and
  suppresses every report.
 */
module NoUnusedRefs {
  import opened Lint

  /** A property of an object pattern: a `Property` with its static name (None when it has none), or a rest element. */
  datatype PatternProperty = Property(name: Option<string>) | RestElement

  /** The target of an assignment or declaration that receives `$refs`. */
  datatype Pattern = ObjectPattern(properties: seq<PatternProperty>) | IdentifierPattern | OtherPattern

  /** How the parent of a `$refs` node (after skipping enclosing chain expressions) uses it. */
  datatype RefsUse =
    | AssignmentRight(left: Pattern)          // `left = $refs`
    | AssignmentLeft                          // `$refs` anywhere else in an assignment
    | DeclaratorInit(id: Pattern)             // `const id = $refs`
    | DeclaratorId                            // `$refs` anywhere else in a declarator
    | MemberObject(property: Option<string>)  // `$refs.foo` / `$refs[expr]`, with the static name if any
    | MemberProperty                          // `$refs` as the property of a member expression
    | CallArgument                            // `foo($refs)`
    | CallCallee                              // `$refs(…)`
    | ForIn                                   // `for (… in $refs)`
    | Return                                  // `return $refs`
    | OtherParent

  /** An identifier reference of an expression container: name, whether the scope manager resolved it, its use. */
  datatype Reference = Reference(name: string, resolved: bool, use: RefsUse)

  /** The value literal of a `ref` attribute. */
  datatype RefDef = RefDef(value: string, loc: Loc)

  /** A variable of a script scope with its number of definitions. */
  datatype ScopeVar = ScopeVar(name: string, defs: nat)

  /** The rule's state: names used, refs defined (in order), and the `hasUnknown` latch. */
  datatype Tracker = Tracker(used: set<string>, defined: seq<RefDef>, hasUnknown: bool)

  const Initial := Tracker({}, [], false)

  /** A static name that is truthy in JavaScript: present and not the empty string. */
  predicate Truthy(name: Option<string>) {
    name.Some? && name.value != ""
  }

  /** `getReferences`: the references the scope manager left unresolved, in order. */
  function GetReferences(refs: seq<Reference>): (r: seq<Reference>)
    ensures |r| <= |refs|
    ensures forall x :: x in r <==> x in refs && !x.resolved
  {
    if |refs| == 0 then []
    else
      assert forall x :: x in refs <==> x == refs[0] || x in refs[1..];
      (if refs[0].resolved then [] else [refs[0]]) + GetReferences(refs[1..])
  }

  /** The unresolved references of a concatenation are those of each part, in order. */
  lemma {:induction false} GetReferencesAppend(a: seq<Reference>, b: seq<Reference>)
    ensures GetReferences(a + b) == GetReferences(a) + GetReferences(b)
    decreases |a|
  {
    if |a| > 0 {
      var ab := a + b;
      assert ab[0] == a[0] && ab[1..] == a[1..] + b;
      var head := if a[0].resolved then [] else [a[0]];
      assert GetReferences(ab) == head + GetReferences(a[1..] + b);
      assert GetReferences(a) == head + GetReferences(a[1..]);
      GetReferencesAppend(a[1..], b);
    } else {
      assert a + b == b;
    }
  }

  /** One reference is kept exactly when it is unresolved. */
  lemma GetReferencesSingle(x: Reference)
    ensures GetReferences([x]) == if x.resolved then [] else [x]
  {
    assert [x][1..] == [];
  }

  predicate StaticProperty(p: PatternProperty) {
    p.Property? && Truthy(p.name)
  }

  /** Every property up to and including index `i` is a statically named `Property`. */
  predicate StaticUpTo(props: seq<PatternProperty>, i: int)
    requires 0 <= i < |props|
  {
    forall j :: 0 <= j <= i ==> StaticProperty(props[j])
  }

  /**
    `extractUsedForObjectPattern`: every statically named property is used,
    until the first property without a static name or the first
    non-`Property`, which sets `hasUnknown` and ends the scan.
   */
  function ExtractObjectPattern(props: seq<PatternProperty>, t: Tracker): (r: Tracker)
    ensures r.defined == t.defined
    ensures t.used <= r.used
    ensures r.hasUnknown <==> t.hasUnknown || exists i :: 0 <= i < |props| && !StaticProperty(props[i])
    ensures forall i :: 0 <= i < |props| && StaticUpTo(props, i) ==> props[i].name.value in r.used
    ensures forall x :: x in r.used ==>
              x in t.used || exists i :: 0 <= i < |props| && StaticProperty(props[i]) && props[i].name.value == x
    ensures forall x :: x in r.used ==>
              x in t.used || exists i :: 0 <= i < |props| && StaticUpTo(props, i) && props[i].name.value == x
    decreases |props|
  {
    if |props| == 0 then t
    else if !StaticProperty(props[0]) then t.(hasUnknown := true)
    else
      var r := ExtractObjectPattern(props[1..], t.(used := t.used + {props[0].name.value}));
      assert forall i :: 1 <= i < |props| ==> props[i] == props[1..][i - 1];
      assert forall i :: 1 <= i < |props| && StaticUpTo(props, i) ==> StaticUpTo(props[1..], i - 1);
      assert forall i :: 1 <= i < |props| && StaticUpTo(props[1..], i - 1) ==> StaticUpTo(props, i);
      assert StaticUpTo(props, 0);
      r
  }

  /** `extractUsedForPattern`: the effect of one use of `$refs`. */
  function ExtractUse(use: RefsUse, t: Tracker): (r: Tracker)
    ensures r.defined == t.defined
    ensures t.used <= r.used
    ensures t.hasUnknown ==> r.hasUnknown
    ensures use.MemberObject? && Truthy(use.property) ==> r == t.(used := t.used + {use.property.value})
    ensures use.MemberObject? && !Truthy(use.property) ==> r == t.(hasUnknown := true)
    ensures use.CallArgument? || use.ForIn? || use.Return? ==> r == t.(hasUnknown := true)
    ensures use.AssignmentRight? && use.left.ObjectPattern? ==> r == ExtractObjectPattern(use.left.properties, t)
    ensures use.DeclaratorInit? && use.id.ObjectPattern? ==> r == ExtractObjectPattern(use.id.properties, t)
    ensures ((use.AssignmentRight? && use.left.IdentifierPattern?) || (use.DeclaratorInit? && use.id.IdentifierPattern?))
              ==> r == t.(hasUnknown := true)
    ensures ((use.AssignmentRight? && use.left.OtherPattern?) || (use.DeclaratorInit? && use.id.OtherPattern?))
              ==> r == t
    ensures (use.AssignmentLeft? || use.DeclaratorId? || use.MemberProperty? || use.CallCallee? || use.OtherParent?)
              ==> r == t
  {
    match use
    case AssignmentRight(left) => ExtractPattern(left, t)
    case DeclaratorInit(id) => ExtractPattern(id, t)
    case MemberObject(property) =>
      if Truthy(property) then t.(used := t.used + {property.value}) else t.(hasUnknown := true)
    case CallArgument => t.(hasUnknown := true)
    case ForIn => t.(hasUnknown := true)
    case Return => t.(hasUnknown := true)
    case _ => t
  }

  /** `$refs` assigned to a pattern: destructuring names the used refs, a plain identifier loses track. */
  function ExtractPattern(p: Pattern, t: Tracker): (r: Tracker)
    ensures r.defined == t.defined && t.used <= r.used
    ensures t.hasUnknown ==> r.hasUnknown
    ensures p.ObjectPattern? ==> r == ExtractObjectPattern(p.properties, t)
    ensures p.IdentifierPattern? ==> r == t.(hasUnknown := true)
    ensures p.OtherPattern? ==> r == t
  {
    match p
    case ObjectPattern(props) => ExtractObjectPattern(props, t)
    case IdentifierPattern => t.(hasUnknown := true)
    case OtherPattern => t
  }

  /** `$refs.name` with a truthy static `name`: a read of the ref `name`. */
  predicate ReadsRef(use: RefsUse, name: string) {
    use.MemberObject? && Truthy(use.property) && use.property.value == name
  }

  /** A use of `$refs` that cannot be followed statically, whatever the state. */
  predicate Opaque(use: RefsUse) {
    || use.CallArgument? || use.ForIn? || use.Return?
    || (use.MemberObject? && !Truthy(use.property))
    || (use.AssignmentRight? && use.left.IdentifierPattern?)
    || (use.DeclaratorInit? && use.id.IdentifierPattern?)
  }

  /**
    The uses of `$refs` among the references of one container, applied in
    order: every `$refs.name` read marks `name` used, an opaque use sets
    `hasUnknown`, and references to other names change nothing.
   */
  function ExtractAll(refs: seq<Reference>, t: Tracker): (r: Tracker)
    ensures r.defined == t.defined && t.used <= r.used
    ensures t.hasUnknown ==> r.hasUnknown
    ensures forall x, name :: x in refs && x.name == "$refs" && ReadsRef(x.use, name) ==> name in r.used
    ensures (exists x :: x in refs && x.name == "$refs" && Opaque(x.use)) ==> r.hasUnknown
    ensures (forall x :: x in refs ==> x.name != "$refs") ==> r == t
    decreases |refs|
  {
    if |refs| == 0 then t
    else
      var next := if refs[0].name == "$refs" then ExtractUse(refs[0].use, t) else t;
      assert forall x :: x in refs <==> x == refs[0] || x in refs[1..];
      ExtractAll(refs[1..], next)
  }

  /** The references of a concatenation are applied part by part, in order. */
  lemma {:induction false} ExtractAllAppend(a: seq<Reference>, b: seq<Reference>, t: Tracker)
    ensures ExtractAll(a + b, t) == ExtractAll(b, ExtractAll(a, t))
    decreases |a|
  {
    if |a| > 0 {
      var ab := a + b;
      assert ab[0] == a[0] && ab[1..] == a[1..] + b;
      var next := if a[0].name == "$refs" then ExtractUse(a[0].use, t) else t;
      assert ExtractAll(ab, t) == ExtractAll(a[1..] + b, next);
      assert ExtractAll(a, t) == ExtractAll(a[1..], next);
      ExtractAllAppend(a[1..], b, next);
    } else {
      assert a + b == b;
    }
  }

  /** One reference: a `$refs` reference has exactly the effect of its use; any other name changes nothing. */
  lemma ExtractAllSingle(x: Reference, t: Tracker)
    ensures ExtractAll([x], t) == if x.name == "$refs" then ExtractUse(x.use, t) else t
  {
    assert [x][1..] == [];
  }

  function UnusedMessage(name: string): string {
    "'" + name + "' is defined as ref, but never used."
  }

  function Unused(def: RefDef): Diagnostic {
    Diagnostic(def.loc, UnusedMessage(def.value), [], [])
  }

  /** The message names its ref: different names give different messages. */
  lemma UnusedMessageInjective(a: string, b: string)
    requires UnusedMessage(a) == UnusedMessage(b)
    ensures a == b
  {
    var ma := UnusedMessage(a);
    assert |a| == |b|;
    assert a == ma[1..1 + |a|];
  }

  /** `reportUnusedRefs`: each defined ref whose value is not used, in definition order. */
  function ReportUnused(defined: seq<RefDef>, used: set<string>): (r: seq<Diagnostic>)
    ensures |r| <= |defined|
    ensures forall d :: d in r ==> exists def :: def in defined && def.value !in used && d == Unused(def)
    ensures forall def :: def in defined && def.value !in used ==> Unused(def) in r
  {
    if |defined| == 0 then []
    else
      assert forall x :: x in defined <==> x == defined[0] || x in defined[1..];
      (if defined[0].value in used then [] else [Unused(defined[0])]) + ReportUnused(defined[1..], used)
  }

  /** Reports of a concatenation are the reports of each part, in order. */
  lemma {:induction false} ReportUnusedAppend(x: seq<RefDef>, y: seq<RefDef>, used: set<string>)
    ensures ReportUnused(x + y, used) == ReportUnused(x, used) + ReportUnused(y, used)
    decreases |x|
  {
    if |x| > 0 {
      var xy := x + y;
      assert xy[0] == x[0] && xy[1..] == x[1..] + y;
      var head := if x[0].value in used then [] else [Unused(x[0])];
      assert ReportUnused(xy, used) == head + ReportUnused(x[1..] + y, used);
      assert ReportUnused(x, used) == head + ReportUnused(x[1..], used);
      ReportUnusedAppend(x[1..], y, used);
    } else {
      assert x + y == y;
      assert ReportUnused(x, used) == [];
    }
  }

  /** One definition is reported once when its value is unused and not at all otherwise. */
  lemma ReportUnusedSingle(def: RefDef, used: set<string>)
    ensures ReportUnused([def], used) == if def.value in used then [] else [Unused(def)]
  {
    assert [def][1..] == [];
  }

  /**
    The reports follow definition order: each unused definition is reported
    once, at its position among the definitions.
   */
  lemma ReportUnusedInOrder(x: seq<RefDef>, def: RefDef, y: seq<RefDef>, used: set<string>)
    requires def.value !in used
    ensures ReportUnused(x + [def] + y, used) == ReportUnused(x, used) + [Unused(def)] + ReportUnused(y, used)
  {
    ReportUnusedAppend(x + [def], y, used);
    ReportUnusedAppend(x, [def], used);
    ReportUnusedSingle(def, used);
  }

  /**
    The traversal events the rule listens to, template and script
    interleaved in visiting order. A script identifier carries how its
    parent uses it (`use`) and, for the case where that parent is a member
    expression holding the identifier as its property (`this.$refs`), how
    the member expression's own parent uses the member expression
    (`outer`); `outer` is ignored otherwise.
   */
  datatype Event =
    | ExpressionContainer(references: seq<Reference>)
    | Attribute(directive: bool, key: string, value: Option<RefDef>)
    | RootElementExit
    | SetupProgram(globalScope: Option<seq<ScopeVar>>, moduleScope: Option<seq<ScopeVar>>)
    | ComponentEnter(setupProperties: seq<string>)
    | ScriptIdentifier(name: string, use: RefsUse, outer: RefsUse)

  /**
    The use the script's `Identifier` handler classifies: `this.$refs` is
    followed through the member expression it is the property of; any other
    `$refs` identifier is classified by its own parent.
   */
  function ScriptRefsUse(use: RefsUse, outer: RefsUse): (r: RefsUse)
    ensures use.MemberProperty? ==> r == outer
    ensures !use.MemberProperty? ==> r == use
  {
    if use.MemberProperty? then outer else use
  }

  /** The names a script-setup program marks used: those defined in the global scope and in its module scope, when present. */
  function SetupNames(globalScope: Option<seq<ScopeVar>>, moduleScope: Option<seq<ScopeVar>>): set<string> {
    if globalScope.None? then {}
    else DefinedNames(globalScope.value) + (if moduleScope.None? then {} else DefinedNames(moduleScope.value))
  }

  /** The names of the variables that have definitions. */
  function DefinedNames(vars: seq<ScopeVar>): (names: set<string>)
    ensures forall v :: v in vars && v.defs > 0 ==> v.name in names
    ensures forall x :: x in names ==> exists v :: v in vars && v.defs > 0 && v.name == x
  {
    set v | v in vars && v.defs > 0 :: v.name
  }

  /** One event: the new state and the reports it produces. */
  function Step(t: Tracker, e: Event): (result: (Tracker, seq<Diagnostic>))
    ensures t.used <= result.0.used
    ensures t.hasUnknown ==> result.0.hasUnknown && result.0.defined == t.defined && result.1 == []
    ensures |result.1| > 0 ==> e.RootElementExit?
    ensures !e.Attribute? ==> result.0.defined == t.defined
    ensures e.Attribute? && !t.hasUnknown ==>
              result.0.defined == t.defined + (if !e.directive && e.key == "ref" && e.value.Some? then [e.value.value] else [])
    ensures e.RootElementExit? && !t.hasUnknown ==> result == (t, ReportUnused(t.defined, t.used))
    ensures !e.Attribute? && !e.SetupProgram? && !e.ComponentEnter? && t.hasUnknown ==> result.0 == t
    ensures e.ExpressionContainer? && !t.hasUnknown ==>
              && (forall x, name :: x in e.references && !x.resolved && x.name == "$refs" && ReadsRef(x.use, name)
                    ==> name in result.0.used)
              && ((exists x :: x in e.references && !x.resolved && x.name == "$refs" && Opaque(x.use))
                    ==> result.0.hasUnknown)
    ensures e.ExpressionContainer? && (forall x :: x in e.references && !x.resolved ==> x.name != "$refs") ==> result.0 == t
    ensures e.ExpressionContainer? && !t.hasUnknown ==> result.0 == ExtractAll(GetReferences(e.references), t)
    ensures e.Attribute? ==> result.0.used == t.used && result.0.hasUnknown == t.hasUnknown
    ensures e.SetupProgram? || e.ComponentEnter? ==> result.0.defined == t.defined && result.0.hasUnknown == t.hasUnknown
    ensures e.SetupProgram? && e.globalScope.Some? ==> DefinedNames(e.globalScope.value) <= result.0.used
    ensures e.SetupProgram? && e.globalScope.Some? && e.moduleScope.Some? ==> DefinedNames(e.moduleScope.value) <= result.0.used
    ensures e.SetupProgram? ==> result.0.used == t.used + SetupNames(e.globalScope, e.moduleScope)
    ensures e.ComponentEnter? ==> forall x :: x in result.0.used <==> x in t.used || x in e.setupProperties
    ensures e.ScriptIdentifier? && !t.hasUnknown && e.name == "$refs" ==> result.0 == ExtractUse(ScriptRefsUse(e.use, e.outer), t)
    ensures e.ScriptIdentifier? && e.name != "$refs" ==> result.0 == t
  {
    match e
    case ExpressionContainer(refs) =>
      (if t.hasUnknown then t else ExtractAll(GetReferences(refs), t), [])
    case Attribute(directive, key, value) =>
      if directive || t.hasUnknown then (t, [])
      else if key == "ref" && value.Some? then (t.(defined := t.defined + [value.value]), [])
      else (t, [])
    case RootElementExit =>
      (t, if t.hasUnknown then [] else ReportUnused(t.defined, t.used))
    case SetupProgram(globalScope, moduleScope) =>
      if globalScope.None? then (t, [])
      else
        var withGlobal := t.used + DefinedNames(globalScope.value);
        if moduleScope.None? then (t.(used := withGlobal), [])
        else (t.(used := withGlobal + DefinedNames(moduleScope.value)), [])
    case ComponentEnter(props) =>
      (t.(used := t.used + set p | p in props), [])
    case ScriptIdentifier(name, use, outer) =>
      (if t.hasUnknown || name != "$refs" then t else ExtractUse(ScriptRefsUse(use, outer), t), [])
  }

  /** The whole traversal: the final state and all reports, in order. */
  function Run(t: Tracker, events: seq<Event>): (Tracker, seq<Diagnostic>)
    decreases |events|
  {
    if |events| == 0 then (t, [])
    else
      var (next, reports) := Step(t, events[0]);
      var (last, rest) := Run(next, events[1..]);
      (last, reports + rest)
  }

  /** Once set, `hasUnknown` stays set: no further definition is collected and nothing is reported. */
  lemma {:induction false} UnknownLatches(t: Tracker, events: seq<Event>)
    requires t.hasUnknown
    ensures Run(t, events).0.hasUnknown
    ensures Run(t, events).0.defined == t.defined
    ensures Run(t, events).1 == []
    decreases |events|
  {
    if |events| > 0 {
      UnknownLatches(Step(t, events[0]).0, events[1..]);
    }
  }

  /** Used names are never forgotten. */
  lemma {:induction false} UsedGrows(t: Tracker, events: seq<Event>)
    ensures t.used <= Run(t, events).0.used
    decreases |events|
  {
    if |events| > 0 {
      UsedGrows(Step(t, events[0]).0, events[1..]);
    }
  }

  /** A ref whose name is already used is never reported, however the traversal continues. */
  lemma {:induction false} UsedRefNeverReported(t: Tracker, events: seq<Event>, def: RefDef)
    requires def.value in t.used
    ensures Unused(def) !in Run(t, events).1
    decreases |events|
  {
    if |events| > 0 {
      var (next, reports) := Step(t, events[0]);
      if Unused(def) in reports {
        assert events[0].RootElementExit? && !t.hasUnknown;
        var other :| other in t.defined && other.value !in t.used && Unused(def) == Unused(other);
        UnusedMessageInjective(def.value, other.value);
        assert false;
      }
      UsedRefNeverReported(next, events[1..], def);
    }
  }

  /** Scenario: `ref="foo"` read back through `this.$refs.foo` in the script is not reported. */
  lemma ReadRefIsNotReported(loc: Loc)
    ensures Run(Initial, [Attribute(false, "ref", Some(RefDef("foo", loc))),
                          ScriptIdentifier("$refs", MemberProperty, MemberObject(Some("foo"))),
                          RootElementExit]).1 == []
  {
    var def := RefDef("foo", loc);
    var events := [Attribute(false, "ref", Some(def)), ScriptIdentifier("$refs", MemberProperty, MemberObject(Some("foo"))), RootElementExit];
    var t1 := Tracker({}, [def], false);
    assert Initial.defined + [def] == [def];
    var t2 := Tracker({"foo"}, [def], false);
    assert t1.used + {"foo"} == {"foo"};
    assert Step(Initial, events[0]) == (t1, []);
    assert Step(t1, events[1]) == (t2, []);
    assert Step(t2, events[2]) == (t2, []);
    assert events[1..][1..] == [RootElementExit];
    assert Run(t2, [RootElementExit]) == (t2, []);
  }

  /** Scenario: passing `$refs` to a call makes the analysis indeterminate, so even an unread ref is not reported. */
  lemma OpaqueUseSuppressesReports(loc: Loc)
    ensures Run(Initial, [Attribute(false, "ref", Some(RefDef("foo", loc))),
                          ScriptIdentifier("$refs", CallArgument, OtherParent),
                          RootElementExit]).1 == []
  {
    var def := RefDef("foo", loc);
    var events := [Attribute(false, "ref", Some(def)), ScriptIdentifier("$refs", CallArgument, OtherParent), RootElementExit];
    var t1 := Tracker({}, [def], false);
    assert Initial.defined + [def] == [def];
    assert Step(Initial, events[0]) == (t1, []);
    UnknownLatches(t1.(hasUnknown := true), events[2..]);
  }

  /** Scenario: a ref nobody reads (the script reads only `this.$refs.bar`) is reported once, at its value. */
  lemma UnreadRefIsReported(loc: Loc)
    ensures Run(Initial, [Attribute(false, "ref", Some(RefDef("foo", loc))),
                          ScriptIdentifier("$refs", MemberProperty, MemberObject(Some("bar"))),
                          RootElementExit]).1 == [Unused(RefDef("foo", loc))]
  {
    var def := RefDef("foo", loc);
    var events := [Attribute(false, "ref", Some(def)), ScriptIdentifier("$refs", MemberProperty, MemberObject(Some("bar"))), RootElementExit];
    var t1 := Tracker({}, [def], false);
    assert Initial.defined + [def] == [def];
    var t2 := Tracker({"bar"}, [def], false);
    assert t1.used + {"bar"} == {"bar"};
    assert Step(Initial, events[0]) == (t1, []);
    assert Step(t1, events[1]) == (t2, []);
    assert "foo" !in t2.used;
    assert [def][1..] == [];
    assert ReportUnused([def], t2.used) == [Unused(def)] + ReportUnused([], t2.used) == [Unused(def)] + [];
    assert events[2] == RootElementExit;
    assert ReportUnused(t2.defined, t2.used) == [Unused(def)];
    assert Step(t2, events[2]) == (t2, [Unused(def)]);
    assert events[1..][1..] == [RootElementExit];
    assert Run(t2, [RootElementExit]) == (t2, [Unused(def)]);
  }
}
