/**
  The `no-multiple-objects-in-class` rule: a `:class` binding whose value
  is an array literal may hold at most one object literal.
 */
module NoMultipleObjectsInClass {
  import opened Lint

  /** An array element: a hole, an object literal, or anything else. */
  datatype ArrayElement = Hole | ObjectExpression | OtherElement

  /** The value expression of a directive. */
  datatype Expression = ArrayExpression(elements: seq<ArrayElement>) | OtherExpression

  /** A template attribute: directive or not, its key's name and argument, and its value expression if any. */
  datatype Attribute = Attribute(directive: bool, name: string, argument: Option<string>, value: Option<Expression>, loc: Loc)

  /** The selector: a `bind` directive with argument `class` and an array expression as value. */
  predicate Selected(a: Attribute) {
    && a.directive
    && a.argument == Some("class")
    && a.name == "bind"
    && a.value.Some? && a.value.value.ArrayExpression?
  }

  /** `countObjectExpression`: how many elements are object literals, holes excluded. */
  function CountObjects(elements: seq<ArrayElement>): (n: nat)
    ensures n <= |elements|
    decreases |elements|
  {
    if |elements| == 0 then 0
    else CountObjects(elements[..|elements| - 1]) + (if Last(elements) == ObjectExpression then 1 else 0)
  }

  /** Two distinct positions hold object literals. */
  predicate TwoObjects(elements: seq<ArrayElement>) {
    exists i, j :: 0 <= i < j < |elements| && elements[i] == ObjectExpression && elements[j] == ObjectExpression
  }

  /** A count that is positive locates an object literal, and an object literal makes the count positive. */
  lemma {:induction false} PositiveCountIffObject(elements: seq<ArrayElement>)
    ensures CountObjects(elements) > 0 <==> exists i :: 0 <= i < |elements| && elements[i] == ObjectExpression
    decreases |elements|
  {
    if |elements| > 0 {
      var init := elements[..|elements| - 1];
      PositiveCountIffObject(init);
      assert forall i :: 0 <= i < |init| ==> init[i] == elements[i];
      if Last(elements) != ObjectExpression {
        forall i | 0 <= i < |elements| && elements[i] == ObjectExpression
          ensures 0 <= i < |init| && init[i] == ObjectExpression
        {
        }
      }
    }
  }

  /** More than one object literal is counted exactly when two positions hold one. */
  lemma {:induction false} CountAboveOneIffTwoObjects(elements: seq<ArrayElement>)
    ensures CountObjects(elements) > 1 <==> TwoObjects(elements)
    decreases |elements|
  {
    if |elements| > 0 {
      var init := elements[..|elements| - 1];
      var last := |elements| - 1;
      CountAboveOneIffTwoObjects(init);
      PositiveCountIffObject(init);
      assert forall i :: 0 <= i < |init| ==> init[i] == elements[i];
      if TwoObjects(elements) {
        var i, j :| 0 <= i < j < |elements| && elements[i] == ObjectExpression && elements[j] == ObjectExpression;
        if j < last {
          assert init[i] == ObjectExpression && init[j] == ObjectExpression;
        } else {
          assert init[i] == ObjectExpression;
        }
      }
      if CountObjects(elements) > 1 {
        if Last(elements) == ObjectExpression {
          var i :| 0 <= i < |init| && init[i] == ObjectExpression;
          assert elements[i] == ObjectExpression && elements[last] == ObjectExpression;
        } else {
          var i, j :| 0 <= i < j < |init| && init[i] == ObjectExpression && init[j] == ObjectExpression;
          assert elements[i] == ObjectExpression && elements[j] == ObjectExpression;
        }
      }
    }
  }

  const Unexpected := "Unexpected multiple objects. Merge objects."

  /** The attribute handler: one report on the attribute when it holds more than one object literal. */
  function CheckAttribute(a: Attribute): (r: seq<Diagnostic>)
    ensures |r| <= 1
    ensures !Selected(a) ==> r == []
    ensures Selected(a) ==> (|r| == 1 <==> CountObjects(a.value.value.elements) > 1)
    ensures |r| == 1 ==> r[0] == Diagnostic(a.loc, Unexpected, [], [])
  {
    if Selected(a) && CountObjects(a.value.value.elements) > 1 then [Diagnostic(a.loc, Unexpected, [], [])] else []
  }

  /** A `:class` array is reported exactly when two of its elements are object literals; holes never count. */
  lemma ReportIffTwoObjects(a: Attribute)
    requires Selected(a)
    ensures |CheckAttribute(a)| == 1 <==> TwoObjects(a.value.value.elements)
  {
    CountAboveOneIffTwoObjects(a.value.value.elements);
  }
}
