/**
  The `no-deprecated-destroyed-lifecycle` rule: in a component object, the
  `destroyed` and `beforeDestroy` hooks are reported at their keys, each
  with a fix renaming it to `unmounted` or `beforeUnmount`.
 */
module NoDeprecatedDestroyedLifecycle {
  import opened Lint

  /** The syntactic kind of a property key. */
  datatype KeyKind = LiteralKey | TemplateLiteralKey | OtherKey

  /**
    A property of a component object: its static name (None when it has
    none), its key's kind and location, and whether it is computed or
    shorthand.
   */
  datatype Property = Property(name: Option<string>, keyKind: KeyKind, keyLoc: Loc, computed: bool, shorthand: bool)

  /** A property's static name, for `FindProperty`. */
  function NameOf(p: Property): Option<string> {
    p.name
  }

  const DestroyedMessage := "The `destroyed` lifecycle hook is deprecated. Use `unmounted` instead."
  const BeforeDestroyMessage := "The `beforeDestroy` lifecycle hook is deprecated. Use `beforeUnmount` instead."

  /** The fix renaming a hook's key to `newName`; a computed key that is not a literal gets none. */
  function RenameFix(p: Property, newName: string): (r: Option<Edit>)
    ensures p.computed && !p.keyKind.OtherKey? ==> r == Some(Edit(p.keyLoc.start + 1, p.keyLoc.end - 1, newName))
    ensures p.computed && p.keyKind.OtherKey? ==> r.None?
    ensures !p.computed && p.shorthand ==> r == Some(InsertTextBefore(p.keyLoc, newName + ":"))
    ensures !p.computed && !p.shorthand ==> r == Some(ReplaceText(p.keyLoc, newName))
  {
    if p.computed then
      if p.keyKind.LiteralKey? || p.keyKind.TemplateLiteralKey? then
        Some(Edit(p.keyLoc.start + 1, p.keyLoc.end - 1, newName))
      else None
    else if p.shorthand then Some(InsertTextBefore(p.keyLoc, newName + ":"))
    else Some(ReplaceText(p.keyLoc, newName))
  }

  function HookReport(p: Property, message: string, newName: string): (d: Diagnostic)
    ensures d.loc == p.keyLoc && d.message == message
    ensures RenameFix(p, newName).Some? ==> d.fix == [RenameFix(p, newName).value]
    ensures RenameFix(p, newName).None? ==> d.fix == []
  {
    var fix := RenameFix(p, newName);
    Diagnostic(p.keyLoc, message, if fix.Some? then [fix.value] else [], [])
  }

  /** The reports for one deprecated hook: its first property, if any. */
  function CheckHook(props: seq<Property>, hook: string, message: string, newName: string): (r: seq<Diagnostic>)
    ensures |r| <= 1
    ensures |r| == 1 <==> exists j :: 0 <= j < |props| && props[j].name == Some(hook)
    ensures |r| == 1 ==> r[0] == HookReport(props[FindProperty(props, NameOf, hook).value], message, newName)
  {
    match FindProperty(props, NameOf, hook)
    case None => []
    case Some(i) => [HookReport(props[i], message, newName)]
  }

  /** The component-object handler: `destroyed` first, then `beforeDestroy`. */
  function CheckComponentObject(props: seq<Property>): (r: seq<Diagnostic>)
    ensures |r| <= 2
    ensures r == CheckHook(props, "destroyed", DestroyedMessage, "unmounted")
                 + CheckHook(props, "beforeDestroy", BeforeDestroyMessage, "beforeUnmount")
  {
    CheckHook(props, "destroyed", DestroyedMessage, "unmounted")
      + CheckHook(props, "beforeDestroy", BeforeDestroyMessage, "beforeUnmount")
  }

  /** A deprecated hook's name in its replacement; other names are kept. */
  function NewName(name: string): string {
    if name == "destroyed" then "unmounted"
    else if name == "beforeDestroy" then "beforeUnmount"
    else name
  }

  /** The component object after every fix: each deprecated hook renamed. */
  function Renamed(props: seq<Property>): (r: seq<Property>)
    ensures |r| == |props|
    ensures forall i :: 0 <= i < |props| ==>
              r[i] == props[i].(name := if props[i].name.Some? then Some(NewName(props[i].name.value)) else None)
  {
    seq(|props|, i requires 0 <= i < |props| =>
      props[i].(name := if props[i].name.Some? then Some(NewName(props[i].name.value)) else None))
  }

  /** Renaming every deprecated hook leaves nothing to report. */
  lemma RenamedObjectIsClean(props: seq<Property>)
    ensures CheckComponentObject(Renamed(props)) == []
  {
    var r := Renamed(props);
    assert forall j :: 0 <= j < |r| ==> r[j].name != Some("destroyed") && r[j].name != Some("beforeDestroy") by {
      forall j | 0 <= j < |r|
        ensures r[j].name != Some("destroyed") && r[j].name != Some("beforeDestroy")
      {
        if props[j].name.Some? {
          assert r[j].name == Some(NewName(props[j].name.value));
        }
      }
    }
  }

  /**
    A plain key holding the hook's name is renamed in place: after the fix
    the key's range holds the new name and the text around it is kept.
   */
  lemma PlainKeyFixRenames(src: string, p: Property, newName: string)
    requires !p.computed && !p.shorthand
    requires 0 <= p.keyLoc.start <= p.keyLoc.end <= |src|
    ensures var e := RenameFix(p, newName).value;
            && ValidEdit(src, e)
            && ApplyEdit(src, e) == src[..p.keyLoc.start] + newName + src[p.keyLoc.end..]
  {
  }

  /**
    A shorthand `{ destroyed }` becomes `{ unmounted:destroyed }`: the new
    name and a colon go before the key, which stays as the value.
   */
  lemma ShorthandFixKeepsValue(src: string, p: Property, newName: string)
    requires !p.computed && p.shorthand
    requires 0 <= p.keyLoc.start <= p.keyLoc.end <= |src|
    ensures var e := RenameFix(p, newName).value;
            && ValidEdit(src, e)
            && ApplyEdit(src, e) == src[..p.keyLoc.start] + newName + ":" + src[p.keyLoc.start..]
  {
  }

  /** A computed literal key `['destroyed']` keeps its quotes and gets the new name between them. */
  lemma ComputedLiteralFixKeepsQuotes(src: string, p: Property, newName: string)
    requires p.computed && !p.keyKind.OtherKey?
    requires 0 <= p.keyLoc.start && p.keyLoc.start + 2 <= p.keyLoc.end <= |src|
    ensures var e := RenameFix(p, newName).value;
            && ValidEdit(src, e)
            && ApplyEdit(src, e)[p.keyLoc.start] == src[p.keyLoc.start]
            && ApplyEdit(src, e)[p.keyLoc.start + 1..p.keyLoc.start + 1 + |newName|] == newName
            && ApplyEdit(src, e)[p.keyLoc.start + 1 + |newName|] == src[p.keyLoc.end - 1]
  {
    InteriorRewriteKeepsDelimiters(src, p.keyLoc.start, p.keyLoc.end, newName);
  }
}
