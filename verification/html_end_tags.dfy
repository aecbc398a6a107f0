/**
  The `html-end-tags` rule: an element that is neither void nor
  self-closing and has no end tag is reported on its start tag, with a fix
  appending `</name>` after it. When the template ends in an invalid way,
  nothing is reported.
 */
module HtmlEndTags {
  import opened Lint

  /** An element: its name, its location, its start tag's location, whether that tag self-closes, whether it has an end tag. */
  datatype Element = Element(name: string, loc: Loc, startTagLoc: Loc, selfClosing: bool, hasEndTag: bool)

  /** The elements that need an end tag they lack; `isVoid` is the HTML void-element table. */
  predicate MissingEndTag(e: Element, isVoid: string -> bool): (b: bool)
    ensures isVoid(e.name) || e.hasEndTag || e.selfClosing ==> !b
    ensures !isVoid(e.name) && !e.hasEndTag && !e.selfClosing ==> b
  {
    !isVoid(e.name) && !e.hasEndTag && !e.selfClosing
  }

  function EndTag(name: string): string {
    "</" + name + ">"
  }

  /** The `KElement` handler, under the flag set by the `Program` handler. */
  function CheckElement(e: Element, isVoid: string -> bool, hasInvalidEOF: bool): (r: seq<Diagnostic>)
    ensures |r| <= 1
    ensures |r| == 1 <==> !hasInvalidEOF && MissingEndTag(e, isVoid)
    ensures |r| == 1 ==>
      && r[0].loc == e.startTagLoc
      && r[0].message == "'<" + e.name + ">' should have end tag."
      && r[0].fix == [InsertTextAfter(e.loc, EndTag(e.name))]
  {
    if hasInvalidEOF || !MissingEndTag(e, isVoid) then []
    else [Diagnostic(e.startTagLoc, "'<" + e.name + ">' should have end tag.", [InsertTextAfter(e.loc, EndTag(e.name))], [])]
  }

  /** The whole template: the `Program` handler runs first, then each element in document order. */
  function CheckTemplate(elements: seq<Element>, isVoid: string -> bool, hasInvalidEOF: bool): (r: seq<Diagnostic>)
    ensures |r| <= |elements|
    ensures hasInvalidEOF ==> r == []
    ensures forall d :: d in r ==> exists e :: e in elements && MissingEndTag(e, isVoid) && d.loc == e.startTagLoc
    ensures forall d :: d in r ==> exists e :: e in elements && CheckElement(e, isVoid, false) == [d]
    ensures !hasInvalidEOF ==>
              forall e :: e in elements && MissingEndTag(e, isVoid) ==> CheckElement(e, isVoid, false)[0] in r
    decreases |elements|
  {
    if |elements| == 0 then []
    else
      var r := CheckElement(elements[0], isVoid, hasInvalidEOF) + CheckTemplate(elements[1..], isVoid, hasInvalidEOF);
      assert forall e :: e in elements <==> e == elements[0] || e in elements[1..];
      r
  }

  /** The reports for a concatenation are those for each part, in document order. */
  lemma {:induction false} CheckTemplateAppend(a: seq<Element>, b: seq<Element>, isVoid: string -> bool, hasInvalidEOF: bool)
    ensures CheckTemplate(a + b, isVoid, hasInvalidEOF)
            == CheckTemplate(a, isVoid, hasInvalidEOF) + CheckTemplate(b, isVoid, hasInvalidEOF)
    decreases |a|
  {
    if |a| > 0 {
      var ab := a + b;
      assert ab[0] == a[0] && ab[1..] == a[1..] + b;
      var head := CheckElement(a[0], isVoid, hasInvalidEOF);
      assert CheckTemplate(ab, isVoid, hasInvalidEOF) == head + CheckTemplate(a[1..] + b, isVoid, hasInvalidEOF);
      assert CheckTemplate(a, isVoid, hasInvalidEOF) == head + CheckTemplate(a[1..], isVoid, hasInvalidEOF);
      CheckTemplateAppend(a[1..], b, isVoid, hasInvalidEOF);
    } else {
      assert a + b == b;
    }
  }

  /** One element gives exactly the reports of the element handler. */
  lemma CheckTemplateSingle(e: Element, isVoid: string -> bool, hasInvalidEOF: bool)
    ensures CheckTemplate([e], isVoid, hasInvalidEOF) == CheckElement(e, isVoid, hasInvalidEOF)
  {
    assert [e][1..] == [];
  }

  /**
    The fix closes the element: the end tag follows the element's text
    directly, and the element read back with its end tag is not reported.
   */
  lemma FixClosesElement(src: string, e: Element, isVoid: string -> bool)
    requires |CheckElement(e, isVoid, false)| == 1
    requires 0 <= e.loc.end <= |src|
    ensures var fix := CheckElement(e, isVoid, false)[0].fix[0];
            && ValidEdit(src, fix)
            && ApplyEdit(src, fix) == src[..e.loc.end] + "</" + e.name + ">" + src[e.loc.end..]
            && CheckElement(e.(hasEndTag := true), isVoid, false) == []
  {
  }
}
