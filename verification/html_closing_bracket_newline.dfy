/**
  The `html-closing-bracket-newline` rule: the number of line breaks
  between a tag's closing bracket and the token before it must be 1 when
  the mode for the tag's kind (single-line or multi-line) is `always`, and 0
  otherwise. A mismatch is reported with a fix that replaces the gap by
  exactly the expected number of line breaks.
 */
module HtmlClosingBracketNewline {
  import opened Lint

  datatype Mode = Always | Never

  /** The user options; a key left out keeps its default. */
  datatype RawOptions = RawOptions(singleline: Option<Mode>, multiline: Option<Mode>)

  datatype Config = Config(singleline: Mode, multiline: Mode)

  /** `Object.assign({}, {singleline: 'never', multiline: 'always'}, options)`. */
  function ResolveOptions(options: Option<RawOptions>): (c: Config)
    ensures options.None? ==> c == Config(Never, Always)
    ensures options.Some? && options.value.singleline.Some? ==> c.singleline == options.value.singleline.value
    ensures options.Some? && options.value.singleline.None? ==> c.singleline == Never
    ensures options.Some? && options.value.multiline.Some? ==> c.multiline == options.value.multiline.value
    ensures options.Some? && options.value.multiline.None? ==> c.multiline == Always
  {
    match options
    case None => Config(Never, Always)
    case Some(o) =>
      Config(if o.singleline.Some? then o.singleline.value else Never,
             if o.multiline.Some? then o.multiline.value else Always)
  }

  /** `getPhrase`: how a number of line breaks reads in the message. */
  function GetPhrase(lineBreaks: int): (s: string)
    ensures lineBreaks == 0 ==> s == "no line breaks"
    ensures lineBreaks == 1 ==> s == "1 line break"
    ensures lineBreaks != 0 && lineBreaks != 1 ==>
              |s| > |" line breaks"| && s[|s| - |" line breaks"|..] == " line breaks"
              && s[..|s| - |" line breaks"|] == IntToString(lineBreaks)
  {
    if lineBreaks == 0 then "no line breaks"
    else if lineBreaks == 1 then "1 line break"
    else IntToString(lineBreaks) + " line breaks"
  }

  /** The phrase of a count of at least 2 names that count: reading its numeral back yields the count. */
  lemma PhraseNamesCount(n: nat)
    requires n >= 2
    ensures var s := GetPhrase(n);
            var digits := s[..|s| - |" line breaks"|];
            (forall i :: 0 <= i < |digits| ==> IsDigit(digits[i])) && ParseDigits(digits) == n
  {
    NatToStringRoundTrip(n);
  }

  /**
    A start or end tag: its location, its last token (`getLastToken`) and
    the token before that one (`getTokenBefore`), both from the template
    token store.
   */
  datatype Tag = Tag(loc: Loc, last: Token, prev: Token)

  predicate IsClosingBracket(t: Token) {
    t.kind == HTMLTagClose || t.kind == HTMLSelfClosingTagClose
  }

  /** A tag is single-line when it starts on the line where the token before its closing bracket ends. */
  predicate SingleLineTag(tag: Tag) {
    tag.loc.startLine == tag.prev.loc.endLine
  }

  function ExpectedLineBreaks(tag: Tag, cfg: Config): (n: nat)
    ensures n <= 1
    ensures n == 1 <==> (if SingleLineTag(tag) then cfg.singleline else cfg.multiline) == Always
  {
    var mode := if SingleLineTag(tag) then cfg.singleline else cfg.multiline;
    if mode == Always then 1 else 0
  }

  function ActualLineBreaks(tag: Tag): int {
    tag.last.loc.startLine - tag.prev.loc.endLine
  }

  /** The fix: the gap between the previous token and the bracket becomes `expected` line breaks. */
  function BreakFix(tag: Tag, expected: nat): (e: Edit)
    ensures e.start == tag.prev.loc.end && e.end == tag.last.loc.start
    ensures |e.text| == expected && CountChar(e.text, '\n') == expected
  {
    CountRepeat('\n', expected);
    Edit(tag.prev.loc.end, tag.last.loc.start, Repeat('\n', expected))
  }

  /** The `KStartTag, KEndTag` handler. */
  function CheckTag(tag: Tag, cfg: Config): (r: seq<Diagnostic>)
    ensures !IsClosingBracket(tag.last) ==> r == []
    ensures |r| <= 1
    ensures IsClosingBracket(tag.last) ==> (|r| == 1 <==> ActualLineBreaks(tag) != ExpectedLineBreaks(tag, cfg))
    ensures |r| == 1 ==> r[0].fix == [BreakFix(tag, ExpectedLineBreaks(tag, cfg))]
    ensures |r| == 1 ==> r[0].message == "Expected " + GetPhrase(ExpectedLineBreaks(tag, cfg))
                                         + " before closing bracket, but " + GetPhrase(ActualLineBreaks(tag)) + " found."
    ensures |r| == 1 ==> r[0].loc == Loc(tag.prev.loc.endLine, tag.last.loc.startLine, tag.prev.loc.end, tag.last.loc.start)
  {
    if !IsClosingBracket(tag.last) then []
    else
      var expected := ExpectedLineBreaks(tag, cfg);
      var actual := ActualLineBreaks(tag);
      if actual == expected then []
      else
        [Diagnostic(Loc(tag.prev.loc.endLine, tag.last.loc.startLine, tag.prev.loc.end, tag.last.loc.start),
                    "Expected " + GetPhrase(expected) + " before closing bracket, but " + GetPhrase(actual) + " found.",
                    [BreakFix(tag, expected)], [])]
  }

  /**
    Applying the fix to a source text in which the previous token's end
    line is its true line puts the closing bracket exactly `expected` lines
    below the previous token; the tag re-read from the fixed text is not
    reported again.
   */
  lemma FixConverges(src: string, tag: Tag, cfg: Config)
    requires |CheckTag(tag, cfg)| == 1
    requires 0 <= tag.prev.loc.end <= tag.last.loc.start <= |src|
    requires tag.prev.loc.endLine == LineAt(src, tag.prev.loc.end)
    ensures var e := CheckTag(tag, cfg)[0].fix[0];
            var fixed := ApplyEdit(src, e);
            var bracketStart := e.start + |e.text|;
            var moved := tag.(last := tag.last.(loc := tag.last.loc.(startLine := LineAt(fixed, bracketStart))));
            && LineAt(fixed, bracketStart) == tag.prev.loc.endLine + ExpectedLineBreaks(tag, cfg)
            && CheckTag(moved, cfg) == []
  {
    var expected := ExpectedLineBreaks(tag, cfg);
    var e := BreakFix(tag, expected);
    var fixed := ApplyEdit(src, e);
    var bracketStart := e.start + |e.text|;
    assert fixed[..bracketStart] == src[..e.start] + e.text by {
      assert fixed[..e.start] == src[..e.start];
      assert fixed[e.start..bracketStart] == e.text;
      assert fixed[..bracketStart] == fixed[..e.start] + fixed[e.start..bracketStart];
    }
    CountCharAppend(src[..e.start], e.text, '\n');
  }
}
