/**
  The `max-attributes-per-line` rule: a start tag on one line may carry at
  most `singleline` attributes; in a start tag spanning several lines, each
  run of attributes sharing a line may hold at most `multiline` of them.
  Every attribute beyond the limit is reported; the first one of each
  reported batch carries a fix that moves it onto a new line.
 */
module MaxAttributesPerLine {
  import opened Lint

  /** A raw `singleline` / `multiline` option value: absent, a number, or an object with an optional `max`. */
  datatype LimitOption = Missing | Number(n: int) | Object(max: Option<int>)

  datatype RawOptions = RawOptions(singleline: LimitOption, multiline: LimitOption)

  /** The resolved maxima. */
  datatype Config = Config(singleline: int, multiline: int)

  /** The host's schema admits numbers of at least 1 only. */
  predicate SchemaValidLimit(o: LimitOption) {
    match o
    case Missing => true
    case Number(n) => n >= 1
    case Object(max) => max.None? || max.value >= 1
  }

  /**
    `parseOptions`: both maxima default to 1; a number, or an object's
    numeric `max`, overrides the default. The `multiline` value is first
    read for truthiness, so a `multiline` of 0 keeps the default while a
    `singleline` of 0 is taken as given.
   */
  function ParseOptions(options: Option<RawOptions>): (c: Config)
    ensures options.None? ==> c == Config(1, 1)
    ensures options.Some? ==>
      var o := options.value;
      && (o.singleline.Number? ==> c.singleline == o.singleline.n)
      && (o.singleline.Object? && o.singleline.max.Some? ==> c.singleline == o.singleline.max.value)
      && (o.singleline.Missing? || (o.singleline.Object? && o.singleline.max.None?) ==> c.singleline == 1)
      && (o.multiline.Number? && o.multiline.n != 0 ==> c.multiline == o.multiline.n)
      && (o.multiline.Object? && o.multiline.max.Some? ==> c.multiline == o.multiline.max.value)
      && ((o.multiline.Missing? || o.multiline == Number(0) || (o.multiline.Object? && o.multiline.max.None?))
            ==> c.multiline == 1)
    ensures (options.Some? && SchemaValidLimit(options.value.singleline) && SchemaValidLimit(options.value.multiline))
              ==> c.singleline >= 1 && c.multiline >= 1
  {
    match options
    case None => Config(1, 1)
    case Some(o) =>
      var single :=
        match o.singleline
        case Number(n) => n
        case Object(Some(m)) => m
        case _ => 1;
      var multi :=
        match o.multiline
        case Number(n) => if n != 0 then n else 1
        case Object(Some(m)) => m
        case _ => 1;
      Config(single, multi)
  }

  /** An attribute or directive of a start tag; `before` is the closest non-whitespace template token before it. */
  datatype Attr = Attr(key: string, loc: Loc, before: Loc)

  datatype StartTag = StartTag(loc: Loc, attributes: seq<Attr>)

  function NewLineMessage(key: string): string {
    "'" + key + "' should be on a new line."
  }

  /** The fix of the first attribute of a batch: the gap after the previous token becomes one line break. */
  function NewLineFix(a: Attr): Edit {
    Edit(a.before.end, a.loc.start, "\n")
  }

  /** The report of one overflowing attribute; only the first of a batch carries the line-break fix. */
  function LineReport(a: Attr, first: bool): Diagnostic {
    Diagnostic(a.loc, NewLineMessage(a.key), if first then [NewLineFix(a)] else [], [])
  }

  /** `showErrors`: one report per attribute, only the first of the batch carrying a fix. */
  function ShowErrors(attrs: seq<Attr>): (r: seq<Diagnostic>)
    ensures |r| == |attrs|
    ensures forall i :: 0 <= i < |r| ==> r[i].loc == attrs[i].loc && r[i].message == NewLineMessage(attrs[i].key)
    ensures forall i :: 0 < i < |r| ==> r[i].fix == []
    ensures |r| > 0 ==> r[0].fix == [NewLineFix(attrs[0])]
    ensures forall i :: 0 <= i < |r| ==> r[i].suggestions == []
  {
    seq(|attrs|, i requires 0 <= i < |attrs| => LineReport(attrs[i], i == 0))
  }

  /** Showing one more attribute appends its report, which carries the fix only when it opens the batch. */
  lemma ShowErrorsSnoc(attrs: seq<Attr>, a: Attr)
    ensures ShowErrors(attrs + [a]) == ShowErrors(attrs) + [LineReport(a, |attrs| == 0)]
  {
    var l, r := ShowErrors(attrs + [a]), ShowErrors(attrs) + [LineReport(a, |attrs| == 0)];
    assert |l| == |r|;
    forall i | 0 <= i < |l|
      ensures l[i] == r[i]
    {
      if i < |attrs| {
        assert (attrs + [a])[i] == attrs[i];
      }
    }
  }

  /** Two consecutive attributes share a line when the first ends on the line where the second starts. */
  predicate SameLine(prev: Attr, cur: Attr) {
    prev.loc.endLine == cur.loc.startLine
  }

  /**
    The position of the last attribute within the run of consecutive
    same-line attributes that ends with it (0 when it starts a new line).
   */
  function Rank(attrs: seq<Attr>): nat
    requires |attrs| > 0
  {
    if |attrs| == 1 then 0
    else if SameLine(attrs[|attrs| - 2], Last(attrs)) then Rank(attrs[..|attrs| - 1]) + 1
    else 0
  }

  /** Attributes `j - 1` and `j` of one group share a line. */
  predicate JoinedAt(g: seq<Attr>, j: int)
    requires 0 < j < |g|
  {
    SameLine(g[j - 1], g[j])
  }

  /** Group `k - 1` ends on a different line from where group `k` starts. */
  predicate BrokenAt(groups: seq<seq<Attr>>, k: int)
    requires 0 < k < |groups| && |groups[k - 1]| > 0 && |groups[k]| > 0
  {
    !SameLine(Last(groups[k - 1]), groups[k][0])
  }

  predicate NonEmptyGroups(groups: seq<seq<Attr>>) {
    forall k :: 0 <= k < |groups| ==> |groups[k]| > 0
  }

  /**
    `groups` splits the attributes exactly at the line changes: inside a
    group consecutive attributes share a line, across a group boundary they
    do not.
   */
  predicate SplitAtLineChanges(groups: seq<seq<Attr>>)
    requires NonEmptyGroups(groups)
  {
    && (forall k, j :: 0 <= k < |groups| && 0 < j < |groups[k]| ==> JoinedAt(groups[k], j))
    && (forall k :: 0 < k < |groups| ==> BrokenAt(groups, k))
  }

  /**
    One step of the source's reduce: the current attribute either joins the
    last group or opens a new one.
   */
  function Extend(gs: seq<seq<Attr>>, joined: bool, cur: Attr): (r: seq<seq<Attr>>)
    requires |gs| > 0
    ensures |r| > 0
    ensures Flatten(r) == Flatten(gs) + [cur]
    ensures NonEmptyGroups(gs) ==> NonEmptyGroups(r)
    ensures joined ==> |Last(r)| == |Last(gs)| + 1
    ensures !joined ==> Last(r) == [cur]
  {
    var init := gs[..|gs| - 1];
    assert Flatten(gs) == Flatten(init) + Last(gs);
    if joined then
      var r := init + [Last(gs) + [cur]];
      assert r[..|r| - 1] == init;
      r
    else
      var r := gs + [[cur]];
      assert r[..|r| - 1] == gs;
      r
  }

  /**
    `groupAttrsByLine`: a partition of the attributes, in order, into
    non-empty groups, built left to right; the size of the last group is one
    more than the rank of the last attribute.
   */
  function GroupAttrsByLine(attrs: seq<Attr>): (groups: seq<seq<Attr>>)
    requires |attrs| > 0
    ensures |groups| > 0
    ensures NonEmptyGroups(groups)
    ensures Flatten(groups) == attrs
    ensures |Last(groups)| == Rank(attrs) + 1
    decreases |attrs|
  {
    if |attrs| == 1 then
      assert Flatten([[attrs[0]]]) == Flatten([]) + [attrs[0]];
      [[attrs[0]]]
    else
      var prefix := attrs[..|attrs| - 1];
      assert attrs == prefix + [Last(attrs)];
      Extend(GroupAttrsByLine(prefix), SameLine(attrs[|attrs| - 2], Last(attrs)), Last(attrs))
  }

  /** The last attribute of a flattened grouping is the last attribute of its last group. */
  lemma LastOfFlatten(gs: seq<seq<Attr>>)
    requires |gs| > 0 && |Last(gs)| > 0
    ensures |Flatten(gs)| > 0 && Last(Flatten(gs)) == Last(Last(gs))
  {
    assert Flatten(gs) == Flatten(gs[..|gs| - 1]) + Last(gs);
  }

  lemma ExtendJoinedKeepsSplit(gs: seq<seq<Attr>>, cur: Attr)
    requires |gs| > 0 && NonEmptyGroups(gs) && SplitAtLineChanges(gs)
    requires SameLine(Last(Last(gs)), cur)
    ensures NonEmptyGroups(Extend(gs, true, cur)) && SplitAtLineChanges(Extend(gs, true, cur))
  {
    var groups := Extend(gs, true, cur);
    var init := gs[..|gs| - 1];
    assert groups == init + [Last(gs) + [cur]];
    forall k, j | 0 <= k < |groups| && 0 < j < |groups[k]|
      ensures JoinedAt(groups[k], j)
    {
      if k < |init| {
        assert groups[k] == gs[k];
        assert JoinedAt(gs[k], j);
      } else if j < |Last(gs)| {
        assert JoinedAt(gs[|gs| - 1], j);
      }
    }
    forall k | 0 < k < |groups|
      ensures BrokenAt(groups, k)
    {
      assert BrokenAt(gs, k);
    }
  }

  lemma ExtendBrokenKeepsSplit(gs: seq<seq<Attr>>, cur: Attr)
    requires |gs| > 0 && NonEmptyGroups(gs) && SplitAtLineChanges(gs)
    requires !SameLine(Last(Last(gs)), cur)
    ensures NonEmptyGroups(Extend(gs, false, cur)) && SplitAtLineChanges(Extend(gs, false, cur))
  {
    var groups := Extend(gs, false, cur);
    assert groups == gs + [[cur]];
    forall k, j | 0 <= k < |groups| && 0 < j < |groups[k]|
      ensures JoinedAt(groups[k], j)
    {
      assert groups[k] == gs[k];
      assert JoinedAt(gs[k], j);
    }
    forall k | 0 < k < |groups|
      ensures BrokenAt(groups, k)
    {
      if k < |gs| {
        assert BrokenAt(gs, k);
      }
    }
  }

  /** Consecutive attributes share a group exactly when the earlier one ends on the line where the later starts. */
  lemma {:induction false} GroupsSplitAtLineChanges(attrs: seq<Attr>)
    requires |attrs| > 0
    ensures SplitAtLineChanges(GroupAttrsByLine(attrs))
    decreases |attrs|
  {
    if |attrs| > 1 {
      var prefix := attrs[..|attrs| - 1];
      var gs := GroupAttrsByLine(prefix);
      GroupsSplitAtLineChanges(prefix);
      LastOfFlatten(gs);
      assert attrs[|attrs| - 2] == Last(prefix);
      if SameLine(Last(prefix), Last(attrs)) {
        ExtendJoinedKeepsSplit(gs, Last(attrs));
      } else {
        ExtendBrokenKeepsSplit(gs, Last(attrs));
      }
    }
  }

  /** The reports of a multi-line tag: each group longer than `max` reports its members from index `max` on. */
  function Overflow(groups: seq<seq<Attr>>, max: int): seq<Diagnostic>
    requires max >= 0
  {
    if |groups| == 0 then []
    else
      var g := Last(groups);
      Overflow(groups[..|groups| - 1], max) + (if |g| > max then ShowErrors(g[max..]) else [])
  }

  /** The `KStartTag` handler: the reports of one start tag under the resolved maxima. */
  function CheckStartTag(tag: StartTag, cfg: Config): (r: seq<Diagnostic>)
    requires cfg.singleline >= 1 && cfg.multiline >= 1
    ensures |tag.attributes| == 0 ==> r == []
    ensures IsSingleLine(tag.loc) && |tag.attributes| <= cfg.singleline ==> r == []
    ensures IsSingleLine(tag.loc) && |tag.attributes| > cfg.singleline ==>
      && |r| == |tag.attributes| - cfg.singleline
      && (forall i :: 0 <= i < |r| ==> r[i].loc == tag.attributes[cfg.singleline + i].loc)
      && (forall i :: 0 <= i < |r| ==> r[i].message == NewLineMessage(tag.attributes[cfg.singleline + i].key))
      && r[0].fix == [NewLineFix(tag.attributes[cfg.singleline])]
      && (forall i :: 0 < i < |r| ==> r[i].fix == [])
  {
    var attrs := tag.attributes;
    if |attrs| == 0 then []
    else if IsSingleLine(tag.loc) then
      if |attrs| > cfg.singleline then ShowErrors(attrs[cfg.singleline..]) else []
    else
      Overflow(GroupAttrsByLine(attrs), cfg.multiline)
  }

  /**
    Independent description of the multi-line reports: walking the
    attributes in order, an attribute is reported exactly when at least
    `max` attributes precede it on its own line, and its report carries the
    line-break fix exactly when exactly `max` precede it, which makes it the
    first of its line's batch.
   */
  function RankedReports(attrs: seq<Attr>, max: int): seq<Diagnostic> {
    if |attrs| == 0 then []
    else
      var cur := Last(attrs);
      RankedReports(attrs[..|attrs| - 1], max) + (if Rank(attrs) >= max then [LineReport(cur, Rank(attrs) == max)] else [])
  }

  /** Extending a grouping adds at most the report of the new attribute to the multi-line reports. */
  lemma OverflowExtend(gs: seq<seq<Attr>>, joined: bool, cur: Attr, max: int)
    requires |gs| > 0 && max >= 1
    ensures Overflow(Extend(gs, joined, cur), max)
         == Overflow(gs, max) + (if joined && |Last(gs)| >= max then [LineReport(cur, |Last(gs)| == max)] else [])
  {
    var groups := Extend(gs, joined, cur);
    var init := gs[..|gs| - 1];
    var L := Last(gs);
    var before := if |L| > max then ShowErrors(L[max..]) else [];
    assert Overflow(gs, max) == Overflow(init, max) + before;
    if joined {
      assert groups == init + [L + [cur]];
      assert groups[..|groups| - 1] == init;
      var batch := if |L + [cur]| > max then ShowErrors((L + [cur])[max..]) else [];
      assert Overflow(groups, max) == Overflow(init, max) + batch;
      if |L| >= max {
        assert (L + [cur])[max..] == L[max..] + [cur];
        ShowErrorsSnoc(L[max..], cur);
        assert batch == before + [LineReport(cur, |L| == max)];
      }
    } else {
      assert groups == gs + [[cur]];
      assert groups[..|groups| - 1] == gs;
      assert Overflow(groups, max) == Overflow(gs, max) + [];
    }
  }

  lemma {:induction false} OverflowMatchesRank(attrs: seq<Attr>, max: int)
    requires |attrs| > 0 && max >= 1
    ensures Overflow(GroupAttrsByLine(attrs), max) == RankedReports(attrs, max)
    decreases |attrs|
  {
    if |attrs| == 1 {
      assert GroupAttrsByLine(attrs) == [[attrs[0]]];
      assert ([] + [[attrs[0]]])[..0] == [];
      assert attrs[..0] == [];
    } else {
      var prefix := attrs[..|attrs| - 1];
      var gs := GroupAttrsByLine(prefix);
      var joined := SameLine(attrs[|attrs| - 2], Last(attrs));
      var cur := Last(attrs);
      assert GroupAttrsByLine(attrs) == Extend(gs, joined, cur);
      assert RankedReports(attrs, max)
          == RankedReports(prefix, max) + (if Rank(attrs) >= max then [LineReport(cur, Rank(attrs) == max)] else []);
      assert Rank(attrs) == if joined then |Last(gs)| else 0;
      assert (Rank(attrs) >= max) == (joined && |Last(gs)| >= max);
      OverflowMatchesRank(prefix, max);
      OverflowExtend(gs, joined, cur, max);
    }
  }

  /**
    For a tag spanning several lines, the reports are exactly those of the
    attributes preceded on their own line by at least `multiline`
    attributes, in order; the one preceded by exactly `multiline` carries
    the line-break fix and the rest of its line's batch carries none.
   */
  lemma MultiLineReportsOverflowingAttributes(tag: StartTag, cfg: Config)
    requires cfg.singleline >= 1 && cfg.multiline >= 1
    requires !IsSingleLine(tag.loc)
    ensures CheckStartTag(tag, cfg) == RankedReports(tag.attributes, cfg.multiline)
  {
    if |tag.attributes| > 0 {
      OverflowMatchesRank(tag.attributes, cfg.multiline);
    }
  }
}
