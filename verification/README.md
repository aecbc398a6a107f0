# A Dafny model of the eslint-plugin-kdu rule layer

eslint-plugin-kdu lints single-file Kdu components: the template (elements,
attributes, directives, expression containers) and the component script.
Each rule listens to traversal events, inspects small pieces of the syntax
tree, and reports diagnostics. A diagnostic is a location and a message. It
may carry fix edits (a range of the source text and its replacement) or
suggestions.

This project models the decision logic of fourteen checks and one static
table. The checks are thirteen rules and the `is`-attribute syntax check. Every rule is a pure function from abstract records to a
sequence of `Diagnostic` values:

- Tokens, attributes, elements, properties and call arguments are records.
  Each carries the line numbers and string indices the rule reads.
- A rule that keeps state across the traversal is a fold over an explicit
  event sequence. This covers the scope stack of `this-in-template`, the
  refs tracker of `no-unused-refs`, the setup contexts of
  `no-restricted-custom-event` and the quote state of `quote-props`.
- Collaborators whose source is not part of this model become parameters:
  - the casing checker and converter;
  - the reserved-word set;
  - the HTML void and well-known element tables;
  - `isRegExp` and the regexp test;
  - the `JSON.stringify` body;
  - the token store and the scope manager, whose answers are given as
    fields of the input records.

`lint.dfy` (module `Lint`) holds what the rules share:

- the `Loc`, `Token`, `Edit` and `Diagnostic` records;
- the fixer's `replaceText`, `insertTextBefore` and `insertTextAfter`;
- `ApplyEdit`, which applies one edit to a source text, used to state what
  a fix does;
- line counting and JavaScript's `${n}` for integers.

Each rule has its own module, named after the rule.

Two behaviours of the code are easy to miss:

- `no-unused-vars` reports only the trailing run of unreferenced variables
  of an element, not every unreferenced one. An unreferenced variable
  declared before a referenced one is never reported
  (`NoUnusedVars.ReferencedVariableShieldsEarlierOnes`).
- In `max-attributes-per-line`, every overflowing attribute is reported, but
  only the first attribute of each reported batch carries the line-break
  fix. The others get none.

## Model

| member | source | states |
|---|---|---|
| MaxAttributesPerLine.ParseOptions | lib/rules/max-attributes-per-line.js:102-129 | Both maxima default to 1. A number, or an object's numeric `max`, overrides the default. A `multiline` of 0 fails the truthiness test and keeps 1. Schema-valid options give maxima of at least 1. |
| MaxAttributesPerLine.ShowErrors | lib/rules/max-attributes-per-line.js:134-159 | One report per attribute, at its location and naming its key. Only the first carries a fix, which replaces the gap after the previous non-whitespace token with one line break. |
| MaxAttributesPerLine.GroupAttrsByLine | lib/rules/max-attributes-per-line.js:164-177 | The groups are non-empty and concatenate back to the attributes in order. The last group's size is one more than the last attribute's same-line rank. |
| MaxAttributesPerLine.GroupsSplitAtLineChanges | lib/rules/max-attributes-per-line.js:168-172 | Inside a group consecutive attributes share a line; across a group boundary they do not. |
| MaxAttributesPerLine.CheckStartTag | lib/rules/max-attributes-per-line.js:77-93 | No attributes, no report. A single-line tag with at most `singleline` attributes gives no report. With more, it reports exactly `attributes[singleline..]`, each at its location with the message `'name' should be on a new line.`, and only the first report has a fix. |
| MaxAttributesPerLine.OverflowMatchesRank | lib/rules/max-attributes-per-line.js:88-91 | Reporting each group's members from index `max` on, the first with a fix, equals reporting each attribute preceded on its own line by at least `max` attributes, with a fix exactly for the one preceded by exactly `max`. |
| MaxAttributesPerLine.ShowErrorsSnoc | lib/rules/max-attributes-per-line.js:135-156 | Adding an attribute to a batch appends one report for it. That report carries the line-break fix exactly when the attribute is the first of the batch. |
| MaxAttributesPerLine.MultiLineReportsOverflowingAttributes | lib/rules/max-attributes-per-line.js:88-92 | For a multi-line tag, the reports are exactly those of attributes preceded on their line by at least `multiline` attributes, in order. Each has its location and message. Only the attribute preceded by exactly `multiline` carries the fix, which turns the gap after the previous token into one line break. |
| NoMultiSpaces.IgnoreProperties | lib/rules/no-multi-spaces.js:49-50 | Ignoring is on exactly when `ignoreProperties` is `true`; a missing options object reads as `{}`. |
| NoMultiSpaces.ScanTokens | lib/rules/no-multi-spaces.js:74-103 | The token loop yields exactly the pairwise reference reports: every adjacent pair is examined in order, and `prevToken` advances whether or not a report was made. |
| NoMultiSpaces.PairReportsSound | lib/rules/no-multi-spaces.js:76-100 | Every report belongs to an adjacent pair whose gap exceeds 1, whose tokens start on one line and which is not ignored. It carries that pair's single-space fix. |
| NoMultiSpaces.PairReportsComplete | lib/rules/no-multi-spaces.js:75-103 | Every flagged adjacent pair is reported. |
| NoMultiSpaces.CheckProgram | lib/rules/no-multi-spaces.js:53-73 | Without a template token store, a `.kdu` file gets exactly one report at line 1, column 0, and other files get none. Without a template body there is no report. Otherwise the result is the token scan. |
| NoMultiSpaces.SpaceFixConverges | lib/rules/no-multi-spaces.js:92-96 | Applying the fix leaves exactly one space between the tokens and keeps the text on both sides, so the pair is no longer flagged. |
| HtmlClosingBracketNewline.ResolveOptions | lib/rules/html-closing-bracket-newline.js:58-65 | Defaults are singleline `never` and multiline `always`; each user key overrides its default. |
| HtmlClosingBracketNewline.GetPhrase | lib/rules/html-closing-bracket-newline.js:20-29 | 0 reads "no line breaks" and 1 reads "1 line break". Any other n reads as its numeral followed by " line breaks". |
| HtmlClosingBracketNewline.PhraseNamesCount | lib/rules/html-closing-bracket-newline.js:26-27 | For n ≥ 2 the numeral in the phrase consists of digits and parses back to n. |
| HtmlClosingBracketNewline.ExpectedLineBreaks | lib/rules/html-closing-bracket-newline.js:82-86 | The expected count is 1 exactly when the mode for the tag's kind is `always`, else 0. A tag is single-line when it starts on the line where the token before the bracket ends. |
| HtmlClosingBracketNewline.BreakFix | lib/rules/html-closing-bracket-newline.js:103-108 | The fix spans from the previous token's end to the bracket's start. Its text is exactly `expected` line breaks. |
| HtmlClosingBracketNewline.CheckTag | lib/rules/html-closing-bracket-newline.js:72-111 | Only tags ending in a closing-bracket token are checked. A report occurs exactly when the actual line-break count differs from the expected one. It spans the gap, carries the break fix, and its message names both counts through `GetPhrase`: "Expected <expected> before closing bracket, but <actual> found." |
| HtmlClosingBracketNewline.FixConverges | lib/rules/html-closing-bracket-newline.js:103-108 | After the fix, the bracket sits exactly `expected` lines below the previous token. The re-read tag is not reported. |
| ThisInTemplate.ParseMode | lib/rules/this-in-template.js:41 | The mode is `always` exactly when the option is `'always'`; anything else means `never`. |
| ThisInTemplate.AddVariables | lib/rules/this-in-template.js:60-69 | The copied layer is kept as a prefix. The names become the union of the layer and the variables, and no name appears twice. |
| ThisInTemplate.EnterElement | lib/rules/this-in-template.js:53-70 | Entering pushes one layer and leaves the enclosing layers untouched. The new layer holds the parent's names plus the element's variables, without duplicates. |
| ThisInTemplate.ExitElement | lib/rules/this-in-template.js:71-73 | Leaving pops the innermost layer; an empty stack stays empty. |
| ThisInTemplate.ExitRestoresParent | lib/rules/this-in-template.js:53-73 | Leaving an element restores exactly the stack that was there before entering it. |
| ThisInTemplate.CheckThisMember | lib/rules/this-in-template.js:77-100 | `this.p` is reported exactly inside an element when p is a non-empty static name that is not shadowed, not reserved, has no leading digit and only `[A-Za-z0-9_$]` characters. The report reads "Unexpected usage of 'this'." and its fix replaces the member expression with `p`. |
| ThisInTemplate.UnboundReferences | lib/rules/this-in-template.js:113-130 | Every reference whose name is not in the layer is reported with a `this.` insertion before it, and nothing else is reported; there are no more reports than references. |
| ThisInTemplate.UnboundReferencesAppend | lib/rules/this-in-template.js:114-128 | The reports for a concatenation of references are those of each part, in reference order. |
| ThisInTemplate.UnboundReferencesSingle | lib/rules/this-in-template.js:115-127 | One reference is reported once when unbound and not at all otherwise. |
| ThisInTemplate.CheckContainer | lib/rules/this-in-template.js:104-131 | Outside any element, or under a directive key, a container gives no report. Otherwise it reports the unbound references. |
| ThisInTemplate.Step | lib/rules/this-in-template.js:51-131 | Entering and leaving an element move the stack; no other event does. In `never` mode only `this` members are checked and containers are ignored; in `always` mode only containers are checked and `this` members are ignored. |
| ThisInTemplate.NothingOutsideElements | lib/rules/this-in-template.js:74-112 | Before the first element is entered, no event produces a report, in either mode. |
| ThisInTemplate.DeclaredNameShadows | lib/rules/this-in-template.js:81-119 | Inside an element declaring `p`, and in every element nested in it, neither `this.p` nor a bare `p` is reported. |
| ThisInTemplate.NestAllKeepsNames | lib/rules/this-in-template.js:54-59 | A name visible in a layer stays visible in every layer nested inside it. |
| NoUnusedRefs.GetReferences | lib/rules/no-unused-refs.js:21-23 | Keeps exactly the references without a resolved variable; the result is no longer than the input. |
| NoUnusedRefs.GetReferencesAppend | lib/rules/no-unused-refs.js:21-23 | Filtering a concatenation gives the filtered parts in the same order, so the references keep their order. |
| NoUnusedRefs.GetReferencesSingle | lib/rules/no-unused-refs.js:21-23 | One reference is kept, once, exactly when it is unresolved. |
| NoUnusedRefs.ExtractObjectPattern | lib/rules/no-unused-refs.js:76-91 | Every statically named property before the first unknown one is used. The first property without a static name, or the first non-`Property`, sets `hasUnknown`. No other name is added: every added name belongs to a property at or before which all properties are static. |
| NoUnusedRefs.ExtractUse | lib/rules/no-unused-refs.js:97-146 | `$refs.foo` adds `foo`. `({foo} = $refs)` and `const {foo} = $refs` scan the object pattern. A dynamic member, an identifier target, a call argument, `for-in` or `return` sets `hasUnknown`. Other positions change nothing. |
| NoUnusedRefs.ExtractPattern | lib/rules/no-unused-refs.js:104-123 | An object pattern is scanned for used names. An identifier target sets `hasUnknown`. Any other target changes nothing. |
| NoUnusedRefs.ExtractAll | lib/rules/no-unused-refs.js:158-163 | Within one container, every `$refs.name` read marks `name` used and any opaque use sets `hasUnknown`. References to other names change nothing. |
| NoUnusedRefs.ExtractAllAppend | lib/rules/no-unused-refs.js:158-163 | The references of a concatenation are applied part after part. |
| NoUnusedRefs.ExtractAllSingle | lib/rules/no-unused-refs.js:158-163 | One `$refs` reference has exactly the effect its use is given by `extractUsedForPattern`; a reference to another name changes nothing. With the append lemma this makes a container do exactly that per reference and nothing else. |
| NoUnusedRefs.ReportUnused | lib/rules/no-unused-refs.js:55-69 | Each defined ref whose value is not used is reported, and only those. |
| NoUnusedRefs.ReportUnusedAppend | lib/rules/no-unused-refs.js:56-68 | The reports of a list of definitions are the reports of its parts, concatenated in order. |
| NoUnusedRefs.ReportUnusedSingle | lib/rules/no-unused-refs.js:57-67 | One definition gives one report when its value is unused, and none otherwise. |
| NoUnusedRefs.ReportUnusedInOrder | lib/rules/no-unused-refs.js:55-69 | Each unused definition is reported once, at its own position among the definitions' reports. |
| NoUnusedRefs.UnusedMessageInjective | lib/rules/no-unused-refs.js:40 | The message names its ref: different refs get different messages. |
| NoUnusedRefs.DefinedNames | lib/rules/no-unused-refs.js:192-207 | The names added from a script-setup scope are exactly those of variables that have definitions. |
| NoUnusedRefs.ScriptRefsUse | lib/rules/no-unused-refs.js:229-237 | `$refs` as the property of a member expression (`this.$refs`) is classified by how that member expression is used; any other `$refs` identifier by its own parent. |
| NoUnusedRefs.Step | lib/rules/no-unused-refs.js:154-238 | Used names only grow and `hasUnknown` stays set. Only the root element's exit reports. Only plain `ref` attributes with a value add definitions, and none once `hasUnknown` is set. A template container applies exactly `ExtractAll` to its unresolved references, so it marks every `$refs.name` read as used and an opaque use sets `hasUnknown`. An attribute changes neither the used names nor `hasUnknown`. A script-setup program adds the defined names of the global and module scopes. A component adds its `setup` property names. A script `$refs` identifier applies its redirected use. |
| NoUnusedRefs.UnknownLatches | lib/rules/no-unused-refs.js:155-180 | Once `hasUnknown` is set, no further definition is collected and nothing is reported, whatever events follow. |
| NoUnusedRefs.UsedGrows | lib/rules/no-unused-refs.js:46 | The set of used names is never shrunk by any traversal. |
| NoUnusedRefs.UsedRefNeverReported | lib/rules/no-unused-refs.js:55-69 | A ref whose name is already used is never reported later. |
| NoUnusedRefs.ReadRefIsNotReported | lib/rules/no-unused-refs.js:124-133 | `ref="foo"` read back through `this.$refs.foo` is not reported. |
| NoUnusedRefs.OpaqueUseSuppressesReports | lib/rules/no-unused-refs.js:134-139 | Passing `$refs` to a call suppresses every report, even for an unread ref. |
| NoUnusedRefs.UnreadRefIsReported | lib/rules/no-unused-refs.js:168-180 | A ref nobody reads is reported exactly once, at its value. |
| NoUnusedVars.ReportsFrom | lib/rules/no-unused-vars.js:25-31 | The reports name the variables from the last one back, one each, at each identifier. |
| NoUnusedVars.CheckElement | lib/rules/no-unused-vars.js:17-33 | The reported variables are exactly the maximal suffix of variables without references, in reverse declaration order. |
| NoUnusedVars.MaximalSuffixUnique | lib/rules/no-unused-vars.js:20-24 | The maximal unreferenced suffix is unique, so the reports of an element are determined. |
| NoUnusedVars.ReferencedVariableShieldsEarlierOnes | lib/rules/no-unused-vars.js:20-24 | In `(a, b, c)` with only `b` referenced, the maximal unreferenced suffix is `(c)`, so only `c` is reported. |
| NoUnusedVars.NoVariablesNoReports | lib/rules/no-unused-vars.js:20-23 | An element without variables has an empty suffix and produces no report. |
| NoRestrictedCustomEvent.BuildMatcher | lib/rules/no-restricted-custom-event.js:30-39 | A string that is not a regular expression matches by exact equality; one that is becomes a regexp matcher. |
| NoRestrictedCustomEvent.ParseOption | lib/rules/no-restricted-custom-event.js:44-57 | A string option carries no message or suggestion. An object option builds its matcher from `event` and carries its `message` and `suggest`. |
| NoRestrictedCustomEvent.ParseOptions | lib/rules/no-restricted-custom-event.js:134 | Every configured option is parsed, in order. |
| NoRestrictedCustomEvent.ExactMatchIsEquality | lib/rules/no-restricted-custom-event.js:30-39 | A plain string option accepts a name exactly when the name equals it, so `update` does not match `updated`. |
| NoRestrictedCustomEvent.FirstMatch | lib/rules/no-restricted-custom-event.js:142-143 | The chosen option accepts the name and no earlier option does. With no choice, no option accepts it. |
| NoRestrictedCustomEvent.EscapeSingleQuotes | lib/rules/no-restricted-custom-event.js:159-161 | Each single quote gains one backslash: the length grows by the number of quotes, and the text never starts with a quote. |
| NoRestrictedCustomEvent.EscapeRoundTrip | lib/rules/no-restricted-custom-event.js:159-161 | Reading each `\'` of the escaped text back as a quote gives the original text. |
| NoRestrictedCustomEvent.SuggestionEdit | lib/rules/no-restricted-custom-event.js:153-165 | The suggestion replaces the literal. It keeps the literal's original first and last characters around the escaped suggestion. |
| NoRestrictedCustomEvent.Verify | lib/rules/no-restricted-custom-event.js:139-175 | At most one report, made exactly when some option matches, using the first match. The message is the option's, or ``Using `name` event is not allowed.``. A suggestion exists exactly when `suggest` is non-empty. |
| NoRestrictedCustomEvent.GetNameParam | lib/rules/no-restricted-custom-event.js:64-76 | A call is checkable exactly when its first argument is a string literal. |
| NoRestrictedCustomEvent.GetCalleeMember | lib/rules/no-restricted-custom-event.js:81-91 | Only a member callee with a non-empty static name yields a name. |
| NoRestrictedCustomEvent.TrackContext | lib/rules/no-restricted-custom-event.js:194-240 | Tracking is off when the context parameter is absent, a rest element, an array pattern, or an object pattern without an identifier `emit`. `{emit}` tracks the emit references; a plain parameter tracks the context references. When the scope manager finds no variable for `emit` or for the parameter, nothing is tracked: tracking happens exactly in the two found cases. |
| NoRestrictedCustomEvent.Step | lib/rules/no-restricted-custom-event.js:177-293 | A setup entry records or keeps the contexts, and a component exit drops its own; neither reports anything. A template `$emit('x')` is verified exactly when its name is a string literal; calls without one are never reported. |
| NoRestrictedCustomEvent.ScriptCallRoutes | lib/rules/no-restricted-custom-event.js:238-290 | A script call whose name is a string literal is verified exactly once in three cases: it is `x.$emit(…)`; it is `emit(…)` through the `emit` of its component's `setup(props, {emit})`; or it is `context.emit(…)` through the `context` of `setup(props, context)`. Any other call gives nothing. |
| NoRestrictedCustomEvent.ScriptCallReportsAtMostOnce | lib/rules/no-restricted-custom-event.js:248-290 | A script call is verified at most once: through the setup context or as `x.$emit`, never both. |
| NoRestrictedCustomEvent.ExitDropsTracking | lib/rules/no-restricted-custom-event.js:272-274 | After a component is left, calls attributed to it no longer go through its setup context. |
| NoRestrictedCustomEvent.ExactOptionScenario | lib/rules/no-restricted-custom-event.js:283-288 | The option `"update"` reports `this.$emit('update', x)` once and leaves `this.$emit('updated', x)` alone. |
| ComponentDefinitionNameCasing.ParseCaseType | lib/rules/component-definition-name-casing.js:32-34 | The case type is `kebab-case` exactly when that is the option. The option names the case type exactly when it is one of the two allowed values; anything else means PascalCase. |
| ComponentDefinitionNameCasing.ConvertName | lib/rules/component-definition-name-casing.js:43-72 | A report occurs exactly when the checker rejects the name, with a template literal's quasi value or a literal's text used as the name. The fix puts the converted name into `[range.start+1, range.end-1)`. |
| ComponentDefinitionNameCasing.CheckComponentCall | lib/rules/component-definition-name-casing.js:89-97 | Only calls with exactly two arguments check their first argument, and only when it is convertible. |
| Lint.FindProperty | lib/rules/component-definition-name-casing.js:99 | The lookup the rules use: the result has the given static name, and no earlier property does. Without a result, no property has that name. |
| ComponentDefinitionNameCasing.CheckComponentObject | lib/rules/component-definition-name-casing.js:98-104 | Only the first `name` property is checked, and only when it is convertible. Without one there is no report. |
| ComponentDefinitionNameCasing.FixConverges | lib/rules/component-definition-name-casing.js:65-69 | The fix keeps both delimiters and puts the converted name between them. When the converter's output passes the checker, it is not reported again. |
| ComponentDefinitionNameCasing.PascalCaseScenario | lib/rules/component-definition-name-casing.js:89-96 | `"myComponent"` under PascalCase gives one report whose fix writes `MyComponent` inside the quotes. |
| NoDeprecatedDestroyedLifecycle.RenameFix | lib/rules/no-deprecated-destroyed-lifecycle.js:66-83 | A computed literal or template-literal key has its interior replaced. Any other computed key gets no fix. A shorthand gets `newName:` inserted before the key, and a plain key is replaced. |
| NoDeprecatedDestroyedLifecycle.HookReport | lib/rules/no-deprecated-destroyed-lifecycle.js:41-58 | The report sits at the property key and carries the rename fix when there is one. |
| NoDeprecatedDestroyedLifecycle.CheckHook | lib/rules/no-deprecated-destroyed-lifecycle.js:38-59 | A hook is reported at most once, and exactly when the object has a property of that name. |
| NoDeprecatedDestroyedLifecycle.CheckComponentObject | lib/rules/no-deprecated-destroyed-lifecycle.js:37-59 | At most two reports: `destroyed` (to `unmounted`) first, then `beforeDestroy` (to `beforeUnmount`). |
| NoDeprecatedDestroyedLifecycle.RenamedObjectIsClean | lib/rules/no-deprecated-destroyed-lifecycle.js:38-59 | Renaming every deprecated hook leaves nothing to report. |
| NoDeprecatedDestroyedLifecycle.PlainKeyFixRenames | lib/rules/no-deprecated-destroyed-lifecycle.js:82 | A plain key is replaced by the new name, and the surrounding text is kept. |
| NoDeprecatedDestroyedLifecycle.ShorthandFixKeepsValue | lib/rules/no-deprecated-destroyed-lifecycle.js:79-81 | A shorthand becomes `newName:` followed by the original key, which stays as the value. |
| NoDeprecatedDestroyedLifecycle.ComputedLiteralFixKeepsQuotes | lib/rules/no-deprecated-destroyed-lifecycle.js:67-76 | A computed literal key keeps its delimiters and gets the new name between them. |
| QuoteProps.EnterValue | lib/rules/quote-props.js:20-24 | `htmlQuote` is the value's first character when that is `'` or `"`, and none otherwise. |
| QuoteProps.ExpectedQuote | lib/rules/quote-props.js:34 | The expected quote is a quote different from `htmlQuote`. |
| QuoteProps.SwapQuotes | lib/rules/quote-props.js:43 | Every `'` and `"` becomes the expected quote, every other character is kept, and the length is unchanged. |
| QuoteProps.Report | lib/rules/quote-props.js:32-51 | Without `htmlQuote` the descriptor passes through unchanged. With it, each fix keeps its range and gets its quotes swapped; location and message are kept. |
| QuoteProps.NoHtmlQuoteRemains | lib/rules/quote-props.js:33-46 | Inside a quoted value, no rewritten fix text contains the value's own quote, and every edit keeps its range and length. |
| QuoteProps.ReportIdempotent | lib/rules/quote-props.js:38-45 | Rewriting an already rewritten report changes nothing. |
| QuoteProps.Step | lib/rules/quote-props.js:18-52 | Entering a value sets `htmlQuote`, leaving resets it, and each core report is rewritten under the current `htmlQuote`. |
| QuoteProps.OutsideValuesPassThrough | lib/rules/quote-props.js:48-50 | Outside every attribute value, the wrapper reports exactly what the core rule reports. |
| HtmlEndTags.CheckElement | lib/rules/html-end-tags.js:35-54 | An element is reported exactly when the EOF is valid and it is not void, has no end tag and is not self-closing. The report is on the start tag and names the element; the fix inserts `</name>` after the element. |
| HtmlEndTags.MissingEndTag | lib/rules/html-end-tags.js:40-45 | A void element, an element with an end tag and a self-closing element are exempt; every other element lacks its end tag. |
| HtmlEndTags.CheckTemplate | lib/rules/html-end-tags.js:30-61 | An invalid EOF suppresses every report. Otherwise every element missing its end tag is reported, and every report is exactly the element handler's report for one of the elements. |
| HtmlEndTags.CheckTemplateAppend | lib/rules/html-end-tags.js:35-54 | The reports for a concatenation of elements are those of each part, in document order. |
| HtmlEndTags.CheckTemplateSingle | lib/rules/html-end-tags.js:35-54 | One element gives exactly the element handler's reports: at most one, so no element is reported twice. |
| HtmlEndTags.FixClosesElement | lib/rules/html-end-tags.js:51 | The fix appends exactly `</name>` after the element's text, and the closed element is not reported again. |
| ValidKIs.ArgumentReports | lib/rules/valid-k-is.js:59-64 | An argument yields exactly one report, on the argument. |
| ValidKIs.ModifierSpan | lib/rules/valid-k-is.js:67-71 | The span runs from the first modifier's start to the last modifier's end. |
| ValidKIs.ModifierReports | lib/rules/valid-k-is.js:65-74 | Modifiers yield exactly one report over their span. |
| ValidKIs.ValueReports | lib/rules/valid-k-is.js:75-80 | A missing or empty value yields exactly one report. |
| ValidKIs.OwnerReports | lib/rules/valid-k-is.js:82-91 | An owner that is an HTML element with a name that is not well known yields one report naming the element. |
| ValidKIs.CleanDirective | lib/rules/valid-k-is.js:58-92 | A directive gets no report exactly when it has no argument, no modifier, a value and a valid owner. |
| ValidKIs.ReportCount | lib/rules/valid-k-is.js:58-92 | The checks are independent: the number of reports is the number of failed checks, up to four. |
| ValidKIs.CheckDirective | lib/rules/valid-k-is.js:58-92 | The argument, modifier, value and owner reports, in that order. No report carries a fix or a suggestion. |
| NoMultipleObjectsInClass.CountObjects | lib/rules/no-multiple-objects-in-class.js:22-26 | The count never exceeds the number of elements. |
| NoMultipleObjectsInClass.PositiveCountIffObject | lib/rules/no-multiple-objects-in-class.js:22-26 | The count is positive exactly when some element is an object literal. |
| NoMultipleObjectsInClass.CountAboveOneIffTwoObjects | lib/rules/no-multiple-objects-in-class.js:22-26 | The count exceeds 1 exactly when two distinct elements are object literals; holes and other elements never count. |
| NoMultipleObjectsInClass.CheckAttribute | lib/rules/no-multiple-objects-in-class.js:46-55 | Only `:class` bind directives with an array value are examined. At most one report, on the attribute, made exactly when the count exceeds 1. |
| NoMultipleObjectsInClass.ReportIffTwoObjects | lib/rules/no-multiple-objects-in-class.js:46-55 | A `:class` array is reported exactly when two of its elements are object literals. |
| KeycodeToKey.LettersContiguous | lib/utils/keycode-to-key.js:37-62 | Codes 65 to 90 map to `a` to `z` in order. |
| KeycodeToKey.FunctionKeys | lib/utils/keycode-to-key.js:85-96 | Code 111 + n maps to `f` followed by the numeral of n, for n from 1 to 12. |
| KeycodeToKey.LayoutDependentCodesAbsent | lib/utils/keycode-to-key.js:25-84 | The digit row 48-57, the meta keys 91-93 and the numeric pad 96-111 have no entry. |
| KeycodeToKey.NamedKeys | lib/utils/keycode-to-key.js:12-13 | 27 maps to `escape` and 32 to `space`. |
| KeycodeToKey.KeyCodeInverts | lib/utils/keycode-to-key.js:3-99 | The inverse table maps every key name of the table back to its code. |
| KeycodeToKey.KeyNamesDistinct | lib/utils/keycode-to-key.js:3-99 | No two codes share a key name. |
| KeycodeToKey.KeyName | lib/utils/keycode-to-key.js:3-99 | Every entry lies between 8 and 145, names a non-empty key, and is given back by the inverse table. |
| IsAttributeWithKduPrefix.CheckAttribute | lib/rules/syntaxes/is-attribute-with-kdu-prefix.js:12-21 | Only plain `is` attributes with a value are examined. At most one report, on the value, with the `forbiddenIsAttributeWithKduPrefix` message and no fix, made exactly when the value starts with `kdu:`. |
| IsAttributeWithKduPrefix.PrefixIsExact | lib/rules/syntaxes/is-attribute-with-kdu-prefix.js:16 | Examples only (the all-inputs statement is `CheckAttribute`'s contract): `kdu:foo` is reported; `Kdu:foo`, `kdu-foo` and the directive form are not. |

## Left out

- Visitor composition, the template-body visitor, the component-object
  visitors and the fix engine: lib/utils/index.js is not part of this
  model.
  - Traversal is an explicit event sequence.
  - A fix is a list of edits, and `Lint.ApplyEdit` applies a single one.
  - Arbitration between overlapping fixes of different rules is not
    modelled.
- `findProperty`, `getStaticPropertyName`, `iterateProperties`,
  `findAssignmentProperty`, `skipChainExpression`, `isEmptyValueDirective`,
  `hasInvalidEOF` and `isHtmlElementNode`: their source is not part of this
  model. Their answers are fields of the input records.
  - `findProperty` is modelled as `Lint.FindProperty`: the first property
    with the given static name.
- `template-curly-spacing`, and the `wrapCoreRule` plumbing of
  `quote-props`: thin wrappers over host core rules whose source is not
  part of this model. `quote-props` is modelled from its `report` override
  onward; the core rule's descriptors are inputs.
- `no-deprecated-scope-attribute`, `no-deprecated-slot-attribute`,
  `syntaxes/script-setup` and `require-render-return`: one-line delegations
  to helpers whose source is not part of this model.
- `NoRestrictedCustomEvent.BuildMatcher`: does not model the regexp branch.
  Compiling a pattern and its `lastIndex` handling belong to a foreign
  library, so the test is the `regExpTest` parameter.
- `NoRestrictedCustomEvent.SuggestionEdit`: `JSON.stringify(s).slice(1, -1)`
  is the `jsonBody` parameter, not an implementation of JSON escaping.
- `NoRestrictedCustomEvent.Step`: the enclosing component of a script call
  and the identity of identifier nodes are given as node ids. Chain
  expressions around a callee are taken as already skipped.
- `NoUnusedRefs.Step`: the parent of a `$refs` identifier is given as a
  classified use (`RefsUse`), with chain expressions already skipped. For
  `this.$refs`, the event also carries how the enclosing member expression
  is used.
- Offsets are string indices, one per UTF-16 code unit, as in the host's
  ranges. `Lint.LineAt` counts only `'\n'` line breaks, while the host also
  breaks lines at `\r`, `\u2028` and `\u2029`. The fix lemmas assume that
  convention: `NoMultiSpaces.SpaceFixConverges`, both `FixConverges`
  lemmas and `HtmlEndTags.FixClosesElement`.
- `IsAttributeWithKduPrefix.CheckAttribute`: the message is the message id
  `forbiddenIsAttributeWithKduPrefix`. Its text lives in the meta of the
  hosting rule, which is not part of this model.
- Casing checkers and converters, `js-reserved.json`, and the HTML void and
  well-known element tables are parameters, so properties that depend on
  their contents are stated under explicit assumptions.
- `ComponentDefinitionNameCasing.FixConverges`: it requires that the
  converter's output passes the checker. That is a property of the casing
  helpers, whose source is not part of this model.
- JavaScript numbers are modelled as integers. Option values that are not
  integers are not represented.
- Source text, file names and token-store lookups are inputs: each token or
  attribute carries its text, its previous token and its line numbers.
  `path.extname` is the `extension` field.
- Rule `meta`, JSON schemas, message-id templating and documentation URLs
  are left out. Messages are built as the rule's data would fill them.
  Schema validation is the host's job, so `CheckStartTag` requires both
  maxima to be at least 1, as the schema does.
