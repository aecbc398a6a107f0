/**
  The `is` attribute syntax check: a plain (non-directive) `is` attribute
  whose value starts with `kdu:` is reported on its value.
 */
module IsAttributeWithKduPrefix {
  import opened Lint

  /** An attribute value: its string and its location. */
  datatype AttributeValue = AttributeValue(value: string, loc: Loc)

  /** A template attribute: directive or not, its key's name, and its value if any. */
  datatype Attribute = Attribute(directive: bool, key: string, value: Option<AttributeValue>)

  /**
    The report's message, identified by its message id: the text belongs
    to the meta of the rule that hosts this syntax check, which is not part
    of this model.
   */
  const Forbidden := "forbiddenIsAttributeWithKduPrefix"

  function CheckAttribute(a: Attribute): (r: seq<Diagnostic>)
    ensures |r| <= 1
    ensures a.directive || a.key != "is" || a.value.None? ==> r == []
    ensures !a.directive && a.key == "is" && a.value.Some? ==>
              (|r| == 1 <==> StartsWith(a.value.value.value, "kdu:"))
    ensures |r| == 1 ==> r[0].loc == a.value.value.loc && r[0].fix == []
    ensures |r| == 1 ==> r[0].message == Forbidden
  {
    if a.directive || a.key != "is" || a.value.None? then []
    else if StartsWith(a.value.value.value, "kdu:") then [Diagnostic(a.value.value.loc, Forbidden, [], [])]
    else []
  }

  /** The prefix is case-sensitive and exact: `kdu:foo` is reported, `Kdu:foo` and `kdu-foo` are not. */
  lemma PrefixIsExact(loc: Loc)
    ensures |CheckAttribute(Attribute(false, "is", Some(AttributeValue("kdu:foo", loc))))| == 1
    ensures CheckAttribute(Attribute(false, "is", Some(AttributeValue("Kdu:foo", loc)))) == []
    ensures CheckAttribute(Attribute(false, "is", Some(AttributeValue("kdu-foo", loc)))) == []
    ensures CheckAttribute(Attribute(true, "is", Some(AttributeValue("kdu:foo", loc)))) == []
  {
    assert "kdu:foo"[..4] == "kdu:";
    assert "Kdu:foo"[0] != "kdu:"[0];
    assert "kdu-foo"[3] != "kdu:"[3];
  }
}
