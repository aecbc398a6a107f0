/**
  Shared vocabulary of the rule layer: source locations, template tokens,
  fix edits and diagnostics, plus the small string helpers the rules use.

  A rule is modelled as a pure function from abstract node and token records
  to a sequence of diagnostics; a diagnostic may carry fix edits and
  suggestion edits, each replacing a half-open range of string indices
  into the source text. One string index stands for one UTF-16 code unit.
 */
module Lint {

  datatype Option<+T> = None | Some(value: T)

  /** A node or token location: 1-based start and end lines and the half-open range [start, end) of string indices. */
  datatype Loc = Loc(startLine: int, endLine: int, start: int, end: int)

  /** The template token kinds the rules distinguish; every other kind is `OtherToken`. */
  datatype TokenType = Punctuator | HTMLTagClose | HTMLSelfClosingTagClose | HTMLWhitespace | OtherToken

  /** A template token as handed out by the template token store: kind, source text and location. */
  datatype Token = Token(kind: TokenType, text: string, loc: Loc)

  /** A fix edit: replace the source characters at indices [start, end) with `text`. */
  datatype Edit = Edit(start: int, end: int, text: string)

  /**
    A reported problem. `fix` holds the edits of the fix (empty when the
    rule offers none); `suggestions` holds the edits of a suggestion.
   */
  datatype Diagnostic = Diagnostic(loc: Loc, message: string, fix: seq<Edit>, suggestions: seq<Edit>)

  /** A node is on one line when it starts and ends on the same line. */
  predicate IsSingleLine(loc: Loc) {
    loc.startLine == loc.endLine
  }

  /** The fixer's `replaceText(node, text)`. */
  function ReplaceText(loc: Loc, text: string): (e: Edit)
    ensures e.start == loc.start && e.end == loc.end && e.text == text
  {
    Edit(loc.start, loc.end, text)
  }

  /** The fixer's `insertTextBefore(node, text)`: an empty range at the node's start. */
  function InsertTextBefore(loc: Loc, text: string): (e: Edit)
    ensures e.start == e.end == loc.start && e.text == text
  {
    Edit(loc.start, loc.start, text)
  }

  /** The fixer's `insertTextAfter(node, text)`: an empty range at the node's end. */
  function InsertTextAfter(loc: Loc, text: string): (e: Edit)
    ensures e.start == e.end == loc.end && e.text == text
  {
    Edit(loc.end, loc.end, text)
  }

  // ---------------------------------------------------------------------------
  // Applying an edit to source text
  // ---------------------------------------------------------------------------

  predicate ValidEdit(src: string, e: Edit) {
    0 <= e.start <= e.end <= |src|
  }

  /** The source text after one edit: the characters before the range, the new text, the characters after the range. */
  function ApplyEdit(src: string, e: Edit): (r: string)
    requires ValidEdit(src, e)
    ensures |r| == |src| - (e.end - e.start) + |e.text|
    ensures r[..e.start] == src[..e.start]
    ensures r[e.start..e.start + |e.text|] == e.text
    ensures r[e.start + |e.text|..] == src[e.end..]
  {
    src[..e.start] + e.text + src[e.end..]
  }

  /**
    Replacing the interior [start + 1, end - 1) of a delimited literal keeps
    both delimiters: the opening character stays at `start` and the closing
    character follows the new text directly.
   */
  lemma InteriorRewriteKeepsDelimiters(src: string, start: int, end: int, text: string)
    requires 0 <= start && start + 2 <= end <= |src|
    ensures ValidEdit(src, Edit(start + 1, end - 1, text))
    ensures var r := ApplyEdit(src, Edit(start + 1, end - 1, text));
            && |r| == |src| - (end - start - 2) + |text|
            && r[start] == src[start]
            && r[start + 1..start + 1 + |text|] == text
            && r[start + 1 + |text|] == src[end - 1]
  {
    var e := Edit(start + 1, end - 1, text);
    var r := ApplyEdit(src, e);
    assert r[start] == r[..e.start][start] == src[..e.start][start];
    assert r[start + 1 + |text|] == r[e.start + |e.text|..][0] == src[e.end..][0];
  }

  // ---------------------------------------------------------------------------
  // Sequences of groups
  // ---------------------------------------------------------------------------

  function Last<T>(s: seq<T>): T
    requires |s| > 0
  {
    s[|s| - 1]
  }

  /** The concatenation of a sequence of groups, in order. */
  function Flatten<T>(gs: seq<seq<T>>): seq<T> {
    if |gs| == 0 then [] else Flatten(gs[..|gs| - 1]) + Last(gs)
  }

  /**
    The index of the first property whose static name is `name`, where
    `nameOf` reads a property's static name (None when it has none).
   */
  function FindProperty<P>(props: seq<P>, nameOf: P -> Option<string>, name: string): (r: Option<nat>)
    ensures r.Some? ==> r.value < |props| && nameOf(props[r.value]) == Some(name)
    ensures r.Some? ==> forall j :: 0 <= j < r.value ==> nameOf(props[j]) != Some(name)
    ensures r.None? ==> forall j :: 0 <= j < |props| ==> nameOf(props[j]) != Some(name)
  {
    if |props| == 0 then None
    else if nameOf(props[0]) == Some(name) then Some(0)
    else
      match FindProperty(props[1..], nameOf, name)
      case None => None
      case Some(i) =>
        assert forall j :: 1 <= j < i + 1 ==> props[j] == props[1..][j - 1];
        Some(i + 1)
  }

  // ---------------------------------------------------------------------------
  // Characters, counting and decimal numerals
  // ---------------------------------------------------------------------------

  /** `n` copies of `c`: the JavaScript `c.repeat(n)`. */
  function Repeat(c: char, n: nat): (r: string)
    ensures |r| == n
    ensures forall i :: 0 <= i < n ==> r[i] == c
  {
    if n == 0 then [] else [c] + Repeat(c, n - 1)
  }

  /** The number of occurrences of `c` in `s`. */
  function CountChar(s: string, c: char): (n: nat)
    ensures n <= |s|
  {
    if |s| == 0 then 0 else CountChar(s[..|s| - 1], c) + (if Last(s) == c then 1 else 0)
  }

  lemma {:induction false} CountCharAppend(a: string, b: string, c: char)
    ensures CountChar(a + b, c) == CountChar(a, c) + CountChar(b, c)
    decreases |b|
  {
    if |b| == 0 {
      assert a + b == a;
    } else {
      var b' := b[..|b| - 1];
      assert (a + b)[..|a + b| - 1] == a + b';
      CountCharAppend(a, b', c);
    }
  }

  lemma {:induction false} CountRepeat(c: char, n: nat)
    ensures CountChar(Repeat(c, n), c) == n
  {
    if n > 0 {
      var r := Repeat(c, n);
      assert r[..|r| - 1] == Repeat(c, n - 1) by {
        assert Repeat(c, n - 1) + [c] == r;
      }
      CountRepeat(c, n - 1);
    }
  }

  /** The 1-based line of string index `offset`: one more than the `'\n'` line breaks before it. */
  function LineAt(src: string, offset: int): (line: int)
    requires 0 <= offset <= |src|
    ensures 1 <= line <= offset + 1
  {
    1 + CountChar(src[..offset], '\n')
  }

  predicate StartsWith(s: string, prefix: string) {
    |prefix| <= |s| && s[..|prefix|] == prefix
  }

  predicate IsDigit(c: char) {
    '0' <= c <= '9'
  }

  function DigitChar(d: nat): (c: char)
    requires d < 10
    ensures IsDigit(c) && DigitValue(c) == d
  {
    ('0' as int + d) as char
  }

  function DigitValue(c: char): (d: nat)
    requires IsDigit(c)
    ensures d < 10
  {
    c as int - '0' as int
  }

  /** The decimal numeral of `n`, without leading zeros: JavaScript's `${n}` for a non-negative integer. */
  function NatToString(n: nat): (s: string)
    ensures |s| > 0
    ensures forall i :: 0 <= i < |s| ==> IsDigit(s[i])
    ensures n >= 10 ==> s[0] != '0'
  {
    if n < 10 then [DigitChar(n)] else NatToString(n / 10) + [DigitChar(n % 10)]
  }

  /** JavaScript's `${n}` for an integer: a minus sign before the numeral of a negative number. */
  function IntToString(n: int): (s: string)
    ensures |s| > 0
    ensures n >= 0 ==> s == NatToString(n)
    ensures n < 0 ==> s[0] == '-' && s[1..] == NatToString(-n)
  {
    if n >= 0 then NatToString(n) else "-" + NatToString(-n)
  }

  /** The value of a string of decimal digits. */
  function ParseDigits(s: string): nat
    requires forall i :: 0 <= i < |s| ==> IsDigit(s[i])
  {
    if |s| == 0 then 0 else 10 * ParseDigits(s[..|s| - 1]) + DigitValue(Last(s))
  }

  /** Reading back the numeral of `n` yields `n`, so distinct numbers have distinct numerals. */
  lemma {:induction false} NatToStringRoundTrip(n: nat)
    ensures ParseDigits(NatToString(n)) == n
  {
    if n >= 10 {
      var s := NatToString(n);
      assert s[..|s| - 1] == NatToString(n / 10);
      NatToStringRoundTrip(n / 10);
    }
  }

  lemma NatToStringInjective(m: nat, n: nat)
    requires NatToString(m) == NatToString(n)
    ensures m == n
  {
    NatToStringRoundTrip(m);
    NatToStringRoundTrip(n);
  }
}
