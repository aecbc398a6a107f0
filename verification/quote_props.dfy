/**
  The `quote-props` wrapper around the core rule of the same name: while
  the traversal is inside an attribute value that opens with a quote, every
  fix the core rule reports has its quotes swapped for the opposite kind,
  so that the fixed text cannot close the attribute value early.
 */
module QuoteProps {
  import opened Lint

  predicate IsQuote(c: char) {
    c == '\'' || c == '"'
  }

  /** Entering an attribute's expression container: its first character, if that is a quote. */
  function EnterValue(text: string): (q: Option<char>)
    ensures q.Some? <==> |text| > 0 && IsQuote(text[0])
    ensures q.Some? ==> q.value == text[0]
  {
    if |text| > 0 && IsQuote(text[0]) then Some(text[0]) else None
  }

  /** The quote the fixed text must use: the other one. */
  function ExpectedQuote(htmlQuote: char): (q: char)
    requires IsQuote(htmlQuote)
    ensures IsQuote(q) && q != htmlQuote
  {
    if htmlQuote == '"' then '\'' else '"'
  }

  /** `text.replace(/["']/gu, expected)`. */
  function SwapQuotes(text: string, expected: char): (r: string)
    ensures |r| == |text|
    ensures forall i :: 0 <= i < |text| && IsQuote(text[i]) ==> r[i] == expected
    ensures forall i :: 0 <= i < |text| && !IsQuote(text[i]) ==> r[i] == text[i]
  {
    seq(|text|, i requires 0 <= i < |text| => if IsQuote(text[i]) then expected else text[i])
  }

  function RewriteEdit(e: Edit, expected: char): (r: Edit)
    ensures r.start == e.start && r.end == e.end
    ensures r.text == SwapQuotes(e.text, expected)
  {
    Edit(e.start, e.end, SwapQuotes(e.text, expected))
  }

  /** The overridden `report`: the descriptor as is outside a quoted value, its fixes rewritten inside one. */
  function Report(htmlQuote: Option<char>, d: Diagnostic): (r: Diagnostic)
    requires htmlQuote.Some? ==> IsQuote(htmlQuote.value)
    ensures htmlQuote.None? ==> r == d
    ensures r.loc == d.loc && r.message == d.message && r.suggestions == d.suggestions
    ensures |r.fix| == |d.fix|
    ensures htmlQuote.Some? ==>
              forall i :: 0 <= i < |d.fix| ==> r.fix[i] == RewriteEdit(d.fix[i], ExpectedQuote(htmlQuote.value))
  {
    match htmlQuote
    case None => d
    case Some(q) =>
      var expected := ExpectedQuote(q);
      d.(fix := seq(|d.fix|, i requires 0 <= i < |d.fix| => RewriteEdit(d.fix[i], expected)))
  }

  /** Inside a quoted value, no fix text holds the value's own quote, and every edit keeps its range and length. */
  lemma NoHtmlQuoteRemains(q: char, d: Diagnostic)
    requires IsQuote(q)
    ensures var r := Report(Some(q), d);
            forall i :: 0 <= i < |r.fix| ==>
              && r.fix[i].start == d.fix[i].start && r.fix[i].end == d.fix[i].end
              && |r.fix[i].text| == |d.fix[i].text|
              && forall k :: 0 <= k < |r.fix[i].text| ==> r.fix[i].text[k] != q
  {
    var r := Report(Some(q), d);
    forall i, k | 0 <= i < |r.fix| && 0 <= k < |r.fix[i].text|
      ensures r.fix[i].text[k] != q
    {
      assert r.fix[i].text == SwapQuotes(d.fix[i].text, ExpectedQuote(q));
    }
  }

  /** Rewriting is idempotent: a rewritten report passes through a second rewrite unchanged. */
  lemma ReportIdempotent(htmlQuote: Option<char>, d: Diagnostic)
    requires htmlQuote.Some? ==> IsQuote(htmlQuote.value)
    ensures Report(htmlQuote, Report(htmlQuote, d)) == Report(htmlQuote, d)
  {
    if htmlQuote.Some? {
      var expected := ExpectedQuote(htmlQuote.value);
      var once := Report(htmlQuote, d);
      var twice := Report(htmlQuote, once);
      forall i | 0 <= i < |d.fix|
        ensures twice.fix[i] == once.fix[i]
      {
        var t := once.fix[i].text;
        assert SwapQuotes(t, expected) == t;
      }
      assert twice.fix == once.fix;
    }
  }

  /** The traversal events the wrapper sees, in order. */
  datatype Event =
    | EnterAttributeValue(text: string)
    | ExitAttributeValue
    | CoreReport(descriptor: Diagnostic)

  /** One event: the new `htmlQuote` and the reports it produces. */
  function Step(htmlQuote: Option<char>, e: Event): (result: (Option<char>, seq<Diagnostic>))
    requires htmlQuote.Some? ==> IsQuote(htmlQuote.value)
    ensures result.0.Some? ==> IsQuote(result.0.value)
    ensures e.EnterAttributeValue? ==> result == (EnterValue(e.text), [])
    ensures e.ExitAttributeValue? ==> result == (None, [])
    ensures e.CoreReport? ==> result == (htmlQuote, [Report(htmlQuote, e.descriptor)])
  {
    match e
    case EnterAttributeValue(text) => (EnterValue(text), [])
    case ExitAttributeValue => (None, [])
    case CoreReport(d) => (htmlQuote, [Report(htmlQuote, d)])
  }

  function Run(htmlQuote: Option<char>, events: seq<Event>): seq<Diagnostic>
    requires htmlQuote.Some? ==> IsQuote(htmlQuote.value)
    decreases |events|
  {
    if |events| == 0 then []
    else
      var (next, reports) := Step(htmlQuote, events[0]);
      reports + Run(next, events[1..])
  }

  /** The descriptors reported by the core rule, in order. */
  function Descriptors(events: seq<Event>): (r: seq<Diagnostic>)
    decreases |events|
  {
    if |events| == 0 then []
    else (if events[0].CoreReport? then [events[0].descriptor] else []) + Descriptors(events[1..])
  }

  /** Outside every attribute value, the wrapper reports exactly what the core rule reports. */
  lemma {:induction false} OutsideValuesPassThrough(events: seq<Event>)
    requires forall i :: 0 <= i < |events| ==> !events[i].EnterAttributeValue?
    ensures Run(None, events) == Descriptors(events)
    decreases |events|
  {
    if |events| > 0 {
      assert !events[0].EnterAttributeValue?;
      OutsideValuesPassThrough(events[1..]);
    }
  }
}
