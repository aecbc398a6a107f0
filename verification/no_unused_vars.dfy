/**
  The `no-unused-vars` rule: for the variables an element declares
  (`k-for` aliases, scope attributes), walk backwards from the last one and
  report each variable without references, stopping at the first variable
  that has one. Only the trailing run of unreferenced variables is
  reported, last declared first.
 */
module NoUnusedVars {
  import opened Lint

  /** A template variable: its identifier's name and location, and how many references resolve to it. */
  datatype Variable = Variable(name: string, loc: Loc, references: nat)

  function DefinedButNeverUsed(v: Variable): Diagnostic {
    Diagnostic(v.loc, "'" + v.name + "' is defined but never used.", [], [])
  }

  predicate Unreferenced(v: Variable) {
    v.references == 0
  }

  /** `vars[k..]` is the longest suffix of `vars` whose variables all lack references. */
  predicate MaximalUnusedSuffix(vars: seq<Variable>, k: int) {
    && 0 <= k <= |vars|
    && (forall j :: k <= j < |vars| ==> Unreferenced(vars[j]))
    && (k == 0 || !Unreferenced(vars[k - 1]))
  }

  /** The reports for `vars[k..]`, from the last variable back to `vars[k]`. */
  function ReportsFrom(vars: seq<Variable>, k: int): (r: seq<Diagnostic>)
    requires 0 <= k <= |vars|
    ensures |r| == |vars| - k
    ensures forall i :: 0 <= i < |r| ==> r[i] == DefinedButNeverUsed(vars[|vars| - 1 - i])
  {
    seq(|vars| - k, i requires 0 <= i < |vars| - k => DefinedButNeverUsed(vars[|vars| - 1 - i]))
  }

  /** The `KElement` handler: the backward scan of the source's `for` loop. */
  method CheckElement(vars: seq<Variable>) returns (reports: seq<Diagnostic>)
    ensures exists k :: MaximalUnusedSuffix(vars, k) && reports == ReportsFrom(vars, k)
  {
    reports := [];
    var i := |vars| - 1;
    while i >= 0 && Unreferenced(vars[i])
      invariant -1 <= i < |vars|
      invariant forall j :: i < j < |vars| ==> Unreferenced(vars[j])
      invariant reports == ReportsFrom(vars, i + 1)
    {
      reports := reports + [DefinedButNeverUsed(vars[i])];
      i := i - 1;
    }
    assert MaximalUnusedSuffix(vars, i + 1);
  }

  /** The maximal unreferenced suffix is unique, so the reports of an element are determined. */
  lemma MaximalSuffixUnique(vars: seq<Variable>, k1: int, k2: int)
    requires MaximalUnusedSuffix(vars, k1) && MaximalUnusedSuffix(vars, k2)
    ensures k1 == k2
  {
  }

  /**
    Scenario: in `(a, b, c)` where only `b` is referenced, the maximal
    unreferenced suffix is `(c)`, so only `c` is reported; `a` precedes a
    referenced variable and is never reached.
   */
  lemma ReferencedVariableShieldsEarlierOnes(la: Loc, lb: Loc, lc: Loc)
    ensures var vars := [Variable("a", la, 0), Variable("b", lb, 1), Variable("c", lc, 0)];
            forall k :: MaximalUnusedSuffix(vars, k) ==> ReportsFrom(vars, k) == [DefinedButNeverUsed(Variable("c", lc, 0))]
  {
    var vars := [Variable("a", la, 0), Variable("b", lb, 1), Variable("c", lc, 0)];
    forall k | MaximalUnusedSuffix(vars, k)
      ensures ReportsFrom(vars, k) == [DefinedButNeverUsed(Variable("c", lc, 0))]
    {
      MaximalSuffixUnique(vars, k, 2);
    }
  }

  /** An element without variables has an empty unreferenced suffix, so it produces no report. */
  lemma NoVariablesNoReports()
    ensures forall k :: MaximalUnusedSuffix([], k) ==> ReportsFrom([], k) == []
  {
  }
}
