/**
  The `no-restricted-custom-event` rule: custom events emitted with a
  string-literal name (`$emit('x')` in the template, `this.$emit('x')` in
  the script, and `emit('x')` / `context.emit('x')` through the context
  parameter of a component's `setup`) are checked against the configured
  options; the first matching option produces the single report, optionally
  with a suggestion that replaces the name.
 */
module NoRestrictedCustomEvent {
  import opened Lint

  /** A matcher: exact name equality, or a regular expression given by its source text. */
  datatype Matcher = Exact(name: string) | RegExp(source: string)

  /** A configured option: an event name, or an object with `event` and optional `message` and `suggest`. */
  datatype RawOption =
    | EventName(name: string)
    | EventObject(event: string, message: Option<string>, suggest: Option<string>)

  datatype ParsedOption = ParsedOption(matcher: Matcher, message: Option<string>, suggest: Option<string>)

  /** `buildMatcher`: a string that reads as a regular expression (`isRegExp`) becomes one; any other matches exactly. */
  function BuildMatcher(s: string, isRegExp: string -> bool): (m: Matcher)
    ensures !isRegExp(s) ==> m == Exact(s)
    ensures isRegExp(s) ==> m == RegExp(s)
  {
    if isRegExp(s) then RegExp(s) else Exact(s)
  }

  /** Whether a matcher accepts `name`; a regular expression is decided by the `regExpTest` collaborator. */
  predicate Test(m: Matcher, name: string, regExpTest: (string, string) -> bool) {
    match m
    case Exact(s) => name == s
    case RegExp(source) => regExpTest(source, name)
  }

  /** `parseOption`: an object option builds its matcher from `event` and carries its `message` and `suggest`. */
  function ParseOption(option: RawOption, isRegExp: string -> bool): (p: ParsedOption)
    ensures option.EventName? ==> p == ParsedOption(BuildMatcher(option.name, isRegExp), None, None)
    ensures option.EventObject? ==>
              p == ParsedOption(BuildMatcher(option.event, isRegExp), option.message, option.suggest)
  {
    match option
    case EventName(name) => ParsedOption(BuildMatcher(name, isRegExp), None, None)
    case EventObject(event, message, suggest) => ParsedOption(BuildMatcher(event, isRegExp), message, suggest)
  }

  function ParseOptions(options: seq<RawOption>, isRegExp: string -> bool): (r: seq<ParsedOption>)
    ensures |r| == |options|
    ensures forall i :: 0 <= i < |options| ==> r[i] == ParseOption(options[i], isRegExp)
  {
    seq(|options|, i requires 0 <= i < |options| => ParseOption(options[i], isRegExp))
  }

  /** A plain-string option never matches a longer or shorter name: the match is equality, not containment. */
  lemma ExactMatchIsEquality(s: string, name: string, isRegExp: string -> bool, regExpTest: (string, string) -> bool)
    requires !isRegExp(s)
    ensures Test(ParseOption(EventName(s), isRegExp).matcher, name, regExpTest) <==> name == s
  {
  }

  /** The index of the first option in configured order whose matcher accepts `name`. */
  function FirstMatch(options: seq<ParsedOption>, name: string, regExpTest: (string, string) -> bool): (r: Option<nat>)
    ensures r.Some? ==> r.value < |options| && Test(options[r.value].matcher, name, regExpTest)
    ensures r.Some? ==> forall j :: 0 <= j < r.value ==> !Test(options[j].matcher, name, regExpTest)
    ensures r.None? ==> forall j :: 0 <= j < |options| ==> !Test(options[j].matcher, name, regExpTest)
  {
    if |options| == 0 then None
    else if Test(options[0].matcher, name, regExpTest) then Some(0)
    else
      match FirstMatch(options[1..], name, regExpTest)
      case None => None
      case Some(i) =>
        assert forall j :: 1 <= j < i + 1 ==> options[j] == options[1..][j - 1];
        Some(i + 1)
  }

  /** The name argument: a string literal with its location and the source characters at its two ends. */
  datatype NameLiteral = NameLiteral(value: string, loc: Loc, open: char, close: char)

  /** The message of a report: the option's message if it is non-empty, else the default naming the event. */
  function Message(option: ParsedOption, name: string): string {
    if option.message.Some? && option.message.value != "" then option.message.value
    else "Using `" + name + "` event is not allowed."
  }

  /** `replace(/'/gu, "\\'")`: every single quote gets a backslash before it. */
  function EscapeSingleQuotes(s: string): (r: string)
    ensures |r| == |s| + CountChar(s, '\'')
    ensures |r| > 0 ==> r[0] != '\''
    decreases |s|
  {
    if |s| == 0 then []
    else
      CountCharAppend([s[0]], s[1..], '\'');
      assert [s[0]] + s[1..] == s;
      (if s[0] == '\'' then "\\'" else [s[0]]) + EscapeSingleQuotes(s[1..])
  }

  /** How a single-quoted JavaScript literal reads `\'`: each such pair, left to right, stands for a quote. */
  function UnescapeSingleQuotes(s: string): string
    decreases |s|
  {
    if |s| == 0 then []
    else if |s| >= 2 && s[0] == '\\' && s[1] == '\'' then "'" + UnescapeSingleQuotes(s[2..])
    else [s[0]] + UnescapeSingleQuotes(s[1..])
  }

  /** The escaping loses nothing: reading the escaped text back gives the original. */
  lemma {:induction false} EscapeRoundTrip(s: string)
    ensures UnescapeSingleQuotes(EscapeSingleQuotes(s)) == s
    decreases |s|
  {
    if |s| > 0 {
      var rest := EscapeSingleQuotes(s[1..]);
      EscapeRoundTrip(s[1..]);
      if s[0] == '\'' {
        assert EscapeSingleQuotes(s) == "\\'" + rest;
        assert (EscapeSingleQuotes(s))[2..] == rest;
      } else {
        var e := EscapeSingleQuotes(s);
        assert e == [s[0]] + rest;
        assert e[1..] == rest;
        assert !(|e| >= 2 && e[0] == '\\' && e[1] == '\'');
        assert s == [s[0]] + s[1..];
      }
    }
  }

  /**
    The suggestion: the literal's text becomes its original first
    character, the escaped suggestion and its original last character.
    `jsonBody` is the collaborator for `JSON.stringify(s).slice(1, -1)`.
   */
  function SuggestionEdit(lit: NameLiteral, suggest: string, jsonBody: string -> string): (e: Edit)
    ensures e.start == lit.loc.start && e.end == lit.loc.end
    ensures |e.text| >= 2 && e.text[0] == lit.open && Last(e.text) == lit.close
    ensures e.text[1..|e.text| - 1] == EscapeSingleQuotes(jsonBody(suggest))
  {
    var text := [lit.open] + EscapeSingleQuotes(jsonBody(suggest)) + [lit.close];
    assert text[1..|text| - 1] == EscapeSingleQuotes(jsonBody(suggest));
    ReplaceText(lit.loc, text)
  }

  /** `verify`: at most one report per name literal, from the first matching option. */
  function Verify(lit: NameLiteral, options: seq<ParsedOption>, regExpTest: (string, string) -> bool,
                  jsonBody: string -> string): (r: seq<Diagnostic>)
    ensures |r| <= 1
    ensures |r| == 1 <==> exists i :: 0 <= i < |options| && Test(options[i].matcher, lit.value, regExpTest)
    ensures |r| == 1 ==>
      var option := options[FirstMatch(options, lit.value, regExpTest).value];
      && r[0].loc == lit.loc
      && r[0].message == Message(option, lit.value)
      && r[0].fix == []
      && (option.suggest.Some? && option.suggest.value != "" ==>
            r[0].suggestions == [SuggestionEdit(lit, option.suggest.value, jsonBody)])
      && (option.suggest.None? || option.suggest.value == "" ==> r[0].suggestions == [])
  {
    match FirstMatch(options, lit.value, regExpTest)
    case None => []
    case Some(i) =>
      var option := options[i];
      var suggestions :=
        if option.suggest.Some? && option.suggest.value != "" then [SuggestionEdit(lit, option.suggest.value, jsonBody)]
        else [];
      [Diagnostic(lit.loc, Message(option, lit.value), [], suggestions)]
  }

  /** A call argument: a literal whose value is a string, another literal, or any other expression. */
  datatype Argument = StringLiteral(lit: NameLiteral) | OtherLiteral | OtherArgument

  /** `getNameParamNode`: the first argument, when it is a string literal. */
  function GetNameParam(args: seq<Argument>): (r: Option<NameLiteral>)
    ensures r.Some? <==> |args| > 0 && args[0].StringLiteral?
    ensures r.Some? ==> r.value == args[0].lit
  {
    if |args| > 0 && args[0].StringLiteral? then Some(args[0].lit) else None
  }

  /**
    The callee of a call (enclosing chain expressions skipped): an
    identifier with its node id, a member expression with its static
    property name (None when it has none) and the node id of its object when
    that object is an identifier, or anything else.
   */
  datatype Callee =
    | IdentifierCallee(name: string, id: nat)
    | MemberCallee(property: Option<string>, objectId: Option<nat>)
    | OtherCallee

  /** `getCalleeMemberNode`: the static name of a member callee, when it has a non-empty one. */
  function GetCalleeMember(callee: Callee): (r: Option<string>)
    ensures r.Some? <==> callee.MemberCallee? && callee.property.Some? && callee.property.value != ""
    ensures r.Some? ==> r.value == callee.property.value
  {
    if callee.MemberCallee? && callee.property.Some? && callee.property.value != "" then Some(callee.property.value)
    else None
  }

  /** The context parameter of a `setup` function, default value skipped. */
  datatype EmitProperty = EmitProperty(valueIsIdentifier: bool, references: Option<set<nat>>)

  datatype ContextParam =
    | NoParam                                   // `setup(props)`
    | RestParam                                 // `setup(...args)`
    | ArrayParam                                // `setup(props, [a])`
    | ObjectParam(emit: Option<EmitProperty>)   // `setup(props, {emit})`: the `emit` property, if any
    | OtherParam(references: Option<set<nat>>)  // `setup(props, context)`: the references of the variable, if found

  /** The identifiers through which the component's setup context emits. */
  datatype SetupContext = SetupContext(contextReferences: set<nat>, emitReferences: set<nat>)

  /** `onSetupFunctionEnter`: the tracked identifiers, or None when the parameter cannot be followed. */
  function TrackContext(param: ContextParam): (r: Option<SetupContext>)
    ensures param.NoParam? || param.RestParam? || param.ArrayParam? ==> r.None?
    ensures param.ObjectParam? && (param.emit.None? || !param.emit.value.valueIsIdentifier) ==> r.None?
    ensures (param.ObjectParam? && param.emit.Some? && param.emit.value.valueIsIdentifier
             && param.emit.value.references.Some?)
              ==> r == Some(SetupContext({}, param.emit.value.references.value))
    ensures param.OtherParam? && param.references.Some? ==> r == Some(SetupContext(param.references.value, {}))
    ensures r.Some? <==>
              || (param.ObjectParam? && param.emit.Some? && param.emit.value.valueIsIdentifier
                  && param.emit.value.references.Some?)
              || (param.OtherParam? && param.references.Some?)
  {
    match param
    case NoParam => None
    case RestParam => None
    case ArrayParam => None
    case ObjectParam(emit) =>
      if emit.None? || !emit.value.valueIsIdentifier || emit.value.references.None? then None
      else Some(SetupContext({}, emit.value.references.value))
    case OtherParam(references) =>
      if references.None? then None else Some(SetupContext(references.value, {}))
  }

  /** Setup contexts by component node id. */
  type Contexts = map<nat, SetupContext>

  /** The traversal events the rule listens to, in visiting order. */
  datatype Event =
    | TemplateCall(callee: Callee, args: seq<Argument>)
    | SetupEnter(component: nat, param: ContextParam)
    | ScriptCall(callee: Callee, args: seq<Argument>, owner: Option<nat>)  // the enclosing component object, if any
    | ComponentExit(component: nat)

  /** A call through the setup context of its component: `emit(…)` or `context.emit(…)`. */
  predicate EmitsThroughContext(callee: Callee, ctx: SetupContext) {
    || (callee.IdentifierCallee? && callee.id in ctx.emitReferences)
    || (!(callee.IdentifierCallee? && callee.id in ctx.emitReferences)
        && GetCalleeMember(callee) == Some("emit")
        && callee.objectId.Some? && callee.objectId.value in ctx.contextReferences)
  }

  /** A template call emits when its callee is the bare identifier `$emit`. */
  predicate TemplateEmits(callee: Callee) {
    callee.IdentifierCallee? && callee.name == "$emit"
  }

  /** One event: the new setup contexts and the reports it produces. */
  function Step(contexts: Contexts, e: Event, options: seq<ParsedOption>, regExpTest: (string, string) -> bool,
                jsonBody: string -> string): (result: (Contexts, seq<Diagnostic>))
    ensures e.SetupEnter? && TrackContext(e.param).None? ==> result.0 == contexts
    ensures e.SetupEnter? && TrackContext(e.param).Some? ==>
              result.0 == contexts[e.component := TrackContext(e.param).value]
    ensures e.ComponentExit? ==> result.0 == contexts - {e.component}
    ensures e.SetupEnter? || e.ComponentExit? ==> result.1 == []
    ensures e.TemplateCall? || e.ScriptCall? ==> result.0 == contexts
    ensures (e.TemplateCall? || e.ScriptCall?) && GetNameParam(e.args).None? ==> result.1 == []
    ensures e.TemplateCall? && GetNameParam(e.args).Some? ==>
              result.1 == (if TemplateEmits(e.callee) then Verify(GetNameParam(e.args).value, options, regExpTest, jsonBody) else [])
  {
    match e
    case SetupEnter(component, param) =>
      (match TrackContext(param)
       case None => contexts
       case Some(ctx) => contexts[component := ctx], [])
    case ComponentExit(component) => (contexts - {component}, [])
    case TemplateCall(callee, args) =>
      var lit := GetNameParam(args);
      if lit.None? || !TemplateEmits(callee) then (contexts, [])
      else (contexts, Verify(lit.value, options, regExpTest, jsonBody))
    case ScriptCall(callee, args, owner) =>
      var lit := GetNameParam(args);
      if lit.None? then (contexts, [])
      else
        var viaContext := owner.Some? && owner.value in contexts
                          && EmitsThroughContext(callee, contexts[owner.value]);
        var viaThis := GetCalleeMember(callee) == Some("$emit");
        (contexts, (if viaContext then Verify(lit.value, options, regExpTest, jsonBody) else [])
                   + (if viaThis then Verify(lit.value, options, regExpTest, jsonBody) else []))
  }

  function Run(contexts: Contexts, events: seq<Event>, options: seq<ParsedOption>,
               regExpTest: (string, string) -> bool, jsonBody: string -> string): seq<Diagnostic>
    decreases |events|
  {
    if |events| == 0 then []
    else
      var (next, reports) := Step(contexts, events[0], options, regExpTest, jsonBody);
      reports + Run(next, events[1..], options, regExpTest, jsonBody)
  }

  /** A script call is verified at most once: through the setup context or as `x.$emit`, never both. */
  lemma ScriptCallReportsAtMostOnce(contexts: Contexts, e: Event, options: seq<ParsedOption>,
                                    regExpTest: (string, string) -> bool, jsonBody: string -> string)
    requires e.ScriptCall?
    ensures |Step(contexts, e, options, regExpTest, jsonBody).1| <= 1
  {
    var lit := GetNameParam(e.args);
    if lit.Some? && GetCalleeMember(e.callee) == Some("$emit") {
      assert !e.callee.IdentifierCallee?;
      assert GetCalleeMember(e.callee) != Some("emit");
    }
  }

  /** The call goes through the tracked setup context of its enclosing component. */
  predicate ViaSetupContext(contexts: Contexts, callee: Callee, owner: Option<nat>) {
    owner.Some? && owner.value in contexts && EmitsThroughContext(callee, contexts[owner.value])
  }

  /**
    The script calls that are verified: a call whose first argument is a
    string literal is verified, once, exactly when it is `x.$emit('…')`,
    `emit('…')` through the `emit` of the component's `setup(props, {emit})`,
    or `context.emit('…')` through the `context` of its `setup(props, context)`;
    every other call produces nothing.
   */
  lemma ScriptCallRoutes(contexts: Contexts, callee: Callee, args: seq<Argument>, owner: Option<nat>,
                         options: seq<ParsedOption>, regExpTest: (string, string) -> bool, jsonBody: string -> string)
    requires GetNameParam(args).Some?
    ensures var r := Step(contexts, ScriptCall(callee, args, owner), options, regExpTest, jsonBody).1;
            var verified := Verify(GetNameParam(args).value, options, regExpTest, jsonBody);
            && (GetCalleeMember(callee) == Some("$emit") ==> r == verified)
            && ((owner.Some? && owner.value in contexts && callee.IdentifierCallee?
                 && callee.id in contexts[owner.value].emitReferences) ==> r == verified)
            && ((owner.Some? && owner.value in contexts && GetCalleeMember(callee) == Some("emit")
                 && callee.objectId.Some? && callee.objectId.value in contexts[owner.value].contextReferences)
                  ==> r == verified)
            && (!ViaSetupContext(contexts, callee, owner) && GetCalleeMember(callee) != Some("$emit") ==> r == [])
  {
    ScriptCallReportsAtMostOnce(contexts, ScriptCall(callee, args, owner), options, regExpTest, jsonBody);
  }

  /** After a component is left, calls attributed to it no longer go through its setup context. */
  lemma ExitDropsTracking(contexts: Contexts, component: nat, callee: Callee, args: seq<Argument>,
                          options: seq<ParsedOption>, regExpTest: (string, string) -> bool, jsonBody: string -> string)
    requires GetCalleeMember(callee) != Some("$emit")
    ensures var after := Step(contexts, ComponentExit(component), options, regExpTest, jsonBody).0;
            Step(after, ScriptCall(callee, args, Some(component)), options, regExpTest, jsonBody).1 == []
  {
  }

  /** Scenario: the option `"update"` reports `this.$emit('update', x)` once and leaves `this.$emit('updated', x)` alone. */
  lemma ExactOptionScenario(loc: Loc, isRegExp: string -> bool, regExpTest: (string, string) -> bool,
                            jsonBody: string -> string)
    requires !isRegExp("update")
    ensures var options := ParseOptions([EventName("update")], isRegExp);
            var call := (name: string) => ScriptCall(MemberCallee(Some("$emit"), None),
                                                     [StringLiteral(NameLiteral(name, loc, '\'', '\'')), OtherArgument], None);
            && |Step(map[], call("update"), options, regExpTest, jsonBody).1| == 1
            && Step(map[], call("updated"), options, regExpTest, jsonBody).1 == []
  {
    var options := ParseOptions([EventName("update")], isRegExp);
    assert options == [ParsedOption(Exact("update"), None, None)];
    assert "updated" != "update";
  }
}
