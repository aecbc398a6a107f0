/**
  The `no-multi-spaces` rule: walking the template tokens (comments
  included) in order, every pair of adjacent tokens that start on the same
  line and are separated by more than one character is reported, with a
  fix that shrinks the gap to a single space. With `ignoreProperties`, a pair
  touching a `:` punctuator is left alone.
 */
module NoMultiSpaces {
  import opened Lint

  datatype Options = Options(ignoreProperties: Option<bool>)

  /** `options.ignoreProperties === true`, with a missing options object read as `{}`. */
  function IgnoreProperties(options: Option<Options>): (ignore: bool)
    ensures ignore <==> options.Some? && options.value.ignoreProperties == Some(true)
  {
    match options
    case None => false
    case Some(o) => o.ignoreProperties == Some(true)
  }

  /** `isProperty`: a `:` punctuator. */
  predicate IsProperty(t: Token) {
    t.kind == Punctuator && t.text == ":"
  }

  predicate ShouldIgnore(ignore: bool, prev: Token, tok: Token) {
    ignore && (IsProperty(tok) || IsProperty(prev))
  }

  /** The number of characters between the end of `prev` and the start of `tok`. */
  function Gap(prev: Token, tok: Token): int {
    tok.loc.start - prev.loc.end
  }

  /** The report condition for one adjacent pair. */
  predicate Flagged(ignore: bool, prev: Token, tok: Token) {
    Gap(prev, tok) > 1 && tok.loc.startLine == prev.loc.startLine && !ShouldIgnore(ignore, prev, tok)
  }

  /** The single-space fix of a pair. */
  function SpaceFix(prev: Token, tok: Token): Edit {
    Edit(prev.loc.end, tok.loc.start, " ")
  }

  /** The report of a flagged pair: it spans the gap and carries the single-space fix. */
  function Report(prev: Token, tok: Token): Diagnostic {
    Diagnostic(Loc(prev.loc.endLine, tok.loc.startLine, prev.loc.end, tok.loc.start),
               "Multiple spaces found before '" + tok.text + "'.",
               [SpaceFix(prev, tok)], [])
  }

  /** Reference definition: the reports of all adjacent pairs of `tokens`, pair by pair, in order. */
  function PairReports(tokens: seq<Token>, ignore: bool): seq<Diagnostic> {
    if |tokens| < 2 then []
    else
      var n := |tokens|;
      PairReports(tokens[..n - 1], ignore)
        + (if Flagged(ignore, tokens[n - 2], tokens[n - 1]) then [Report(tokens[n - 2], tokens[n - 1])] else [])
  }

  /**
    The loop of the `Program` handler: the first token becomes `prevToken`,
    then every later token is compared with it and becomes the next
    `prevToken`, reported or not.
   */
  method ScanTokens(tokens: seq<Token>, ignore: bool) returns (reports: seq<Diagnostic>)
    ensures reports == PairReports(tokens, ignore)
  {
    reports := [];
    if |tokens| == 0 {
      return;
    }
    var prev := tokens[0];
    var i := 1;
    assert tokens[..1] == [tokens[0]];
    while i < |tokens|
      invariant 1 <= i <= |tokens|
      invariant prev == tokens[i - 1]
      invariant reports == PairReports(tokens[..i], ignore)
    {
      var tok := tokens[i];
      assert tokens[..i + 1][..i] == tokens[..i];
      if Flagged(ignore, prev, tok) {
        reports := reports + [Report(prev, tok)];
      }
      prev := tok;
      i := i + 1;
    }
    assert tokens[..i] == tokens;
  }

  /** Every report of the scan belongs to a flagged adjacent pair and carries its single-space fix. */
  lemma {:induction false} PairReportsSound(tokens: seq<Token>, ignore: bool, d: Diagnostic)
    requires d in PairReports(tokens, ignore)
    ensures exists i :: 1 <= i < |tokens| && Flagged(ignore, tokens[i - 1], tokens[i]) && d == Report(tokens[i - 1], tokens[i])
    decreases |tokens|
  {
    var n := |tokens|;
    var prefix := tokens[..n - 1];
    if d in PairReports(prefix, ignore) {
      PairReportsSound(prefix, ignore, d);
      var i :| 1 <= i < |prefix| && Flagged(ignore, prefix[i - 1], prefix[i]) && d == Report(prefix[i - 1], prefix[i]);
      assert prefix[i - 1] == tokens[i - 1] && prefix[i] == tokens[i];
    } else {
      assert Flagged(ignore, tokens[n - 2], tokens[n - 1]) && d == Report(tokens[n - 2], tokens[n - 1]);
    }
  }

  /** Every flagged adjacent pair is reported: `prevToken` advances on every iteration. */
  lemma {:induction false} PairReportsComplete(tokens: seq<Token>, ignore: bool, i: int)
    requires 1 <= i < |tokens| && Flagged(ignore, tokens[i - 1], tokens[i])
    ensures Report(tokens[i - 1], tokens[i]) in PairReports(tokens, ignore)
    decreases |tokens|
  {
    var n := |tokens|;
    var prefix := tokens[..n - 1];
    if i < n - 1 {
      assert prefix[i - 1] == tokens[i - 1] && prefix[i] == tokens[i];
      PairReportsComplete(prefix, ignore, i);
    }
  }

  /** The parser front end of a lint run, as far as the rule sees it. */
  datatype Program = Program(
    hasTemplateTokenStore: bool,  // the parser offers a template body token store
    extension: string,            // `path.extname` of the file name
    templateTokens: Option<seq<Token>>)  // the template body's tokens, comments included; None without a template body

  /** The report of a `.kdu` file parsed without template token support, at line 1, column 0. */
  const ParserReport := Diagnostic(Loc(1, 1, 0, 0),
    "Use the latest kdu-eslint-parser. See also https://kdujs-eslint.web.app/user-guide/#what-is-the-use-the-latest-kdu-eslint-parser-error.",
    [], [])

  /** The `Program` handler. */
  method CheckProgram(p: Program, options: Option<Options>) returns (reports: seq<Diagnostic>)
    ensures !p.hasTemplateTokenStore && p.extension == ".kdu" ==> reports == [ParserReport]
    ensures !p.hasTemplateTokenStore && p.extension != ".kdu" ==> reports == []
    ensures p.hasTemplateTokenStore && p.templateTokens.None? ==> reports == []
    ensures p.hasTemplateTokenStore && p.templateTokens.Some? ==>
              reports == PairReports(p.templateTokens.value, IgnoreProperties(options))
  {
    if !p.hasTemplateTokenStore {
      if p.extension == ".kdu" {
        reports := [ParserReport];
      } else {
        reports := [];
      }
      return;
    }
    if p.templateTokens.None? {
      reports := [];
      return;
    }
    reports := ScanTokens(p.templateTokens.value, IgnoreProperties(options));
  }

  /**
    Applying the fix of a flagged pair to the source leaves exactly one
    space between the two tokens, so the shifted pair is no longer flagged.
   */
  lemma SpaceFixConverges(src: string, ignore: bool, prev: Token, tok: Token)
    requires Flagged(ignore, prev, tok)
    requires 0 <= prev.loc.end && tok.loc.start <= |src|
    ensures ValidEdit(src, SpaceFix(prev, tok))
    ensures var fixed := ApplyEdit(src, SpaceFix(prev, tok));
            var shift := Gap(prev, tok) - 1;
            var moved := tok.(loc := tok.loc.(start := tok.loc.start - shift, end := tok.loc.end - shift));
            && fixed[..prev.loc.end] == src[..prev.loc.end]
            && fixed[prev.loc.end] == ' '
            && fixed[moved.loc.start..] == src[tok.loc.start..]
            && Gap(prev, moved) == 1
            && !Flagged(ignore, prev, moved)
  {
    var e := SpaceFix(prev, tok);
    var fixed := ApplyEdit(src, e);
    assert fixed[prev.loc.end] == fixed[e.start..e.start + |e.text|][0];
  }
}
