/** Tokens, the directives and node properties among them, and what tokens and events say. */
module YamlTokens {
  import opened Bytes
  import opened Sequences
  import opened YamlEvents

  datatype Token =
    | StreamStartToken
    | StreamEndToken
    | VersionDirectiveToken(major: int, minor: int)
    | TagDirectiveToken(handle: string, prefix: string)
    | DocumentStartToken
    | DocumentEndToken
    | BlockSequenceStartToken
    | BlockMappingStartToken
    | BlockEndToken
    | FlowSequenceStartToken
    | FlowSequenceEndToken
    | FlowMappingStartToken
    | FlowMappingEndToken
    | BlockEntryToken
    | FlowEntryToken
    | KeyToken
    | ValueToken
    | AliasToken(name: string)
    | AnchorToken(name: string)
    | TagToken(handle: string, suffix: string)
    | ScalarToken(value: string, plain: bool)

  datatype TagDirective = TagDirective(handle: string, prefix: string)

  const DEFAULT_TAG_DIRECTIVES := [TagDirective("!", "!"), TagDirective("!!", "tag:yaml.org,2002:")]

  // ----- directives and properties

  predicate IsDirective(t: Token) {
    t.VersionDirectiveToken? || t.TagDirectiveToken?
  }

  predicate HasHandle(table: seq<TagDirective>, handle: string) {
    exists i :: 0 <= i < |table| && table[i].handle == handle
  }

  function TagsOf(ds: seq<Token>): seq<TagDirective> {
    if ds == [] then []
    else
      var last := ds[|ds| - 1];
      TagsOf(ds[..|ds| - 1]) + (if last.TagDirectiveToken? then [TagDirective(last.handle, last.prefix)] else [])
  }

  /** At most one version, which is 1.1, and no handle declared twice. */
  predicate Declarable(ds: seq<Token>, table: seq<TagDirective>) {
    && (forall i :: 0 <= i < |ds| && ds[i].VersionDirectiveToken? ==> ds[i].major == 1 && ds[i].minor == 1)
    && (forall i, j :: 0 <= i < j < |ds| ==> !(ds[i].VersionDirectiveToken? && ds[j].VersionDirectiveToken?))
    && (forall i :: 0 <= i < |ds| && ds[i].TagDirectiveToken? ==> !HasHandle(table, ds[i].handle))
    && (forall i, j :: 0 <= i < j < |ds| && ds[i].TagDirectiveToken? && ds[j].TagDirectiveToken? ==> ds[i].handle != ds[j].handle)
  }

  predicate Versioned(ds: seq<Token>) {
    exists i :: 0 <= i < |ds| && ds[i].VersionDirectiveToken?
  }

  lemma {:induction false} HandlesOf(table: seq<TagDirective>, ds: seq<Token>, handle: string)
    ensures HasHandle(table + TagsOf(ds), handle) <==>
            HasHandle(table, handle) || exists i :: 0 <= i < |ds| && ds[i].TagDirectiveToken? && ds[i].handle == handle
    decreases |ds|
  {
    if ds == [] {
      assert table + [] == table;
    } else {
      var init, last := ds[..|ds| - 1], ds[|ds| - 1];
      HandlesOf(table, init, handle);
      assert forall i :: 0 <= i < |init| ==> ds[i] == init[i];
      if last.TagDirectiveToken? {
        assert table + TagsOf(ds) == table + TagsOf(init) + [TagDirective(last.handle, last.prefix)];
        HandleAppend(table + TagsOf(init), TagDirective(last.handle, last.prefix), handle);
      } else {
        assert TagsOf(ds) == TagsOf(init);
      }
    }
  }

  lemma HandleAppend(table: seq<TagDirective>, d: TagDirective, handle: string)
    ensures HasHandle(table + [d], handle) <==> HasHandle(table, handle) || d.handle == handle
  {
    assert (table + [d])[|table|] == d;
    assert forall i :: 0 <= i < |table| ==> (table + [d])[i] == table[i];
  }

  /** One more directive. */
  lemma DeclareNext(ds: seq<Token>, t: Token, table: seq<TagDirective>)
    requires Declarable(ds, table) && IsDirective(t)
    ensures Declarable(ds + [t], table) <==>
            if t.VersionDirectiveToken? then t.major == 1 && t.minor == 1 && !Versioned(ds)
            else !HasHandle(table + TagsOf(ds), t.handle)
    ensures Versioned(ds + [t]) <==> Versioned(ds) || t.VersionDirectiveToken?
    ensures TagsOf(ds + [t]) == TagsOf(ds) + (if t.TagDirectiveToken? then [TagDirective(t.handle, t.prefix)] else [])
  {
    var all := ds + [t];
    assert all[..|ds|] == ds && all[|ds|] == t;
    assert forall i :: 0 <= i < |ds| ==> all[i] == ds[i];
    if t.TagDirectiveToken? {
      HandlesOf(table, ds, t.handle);
    }
    hide HasHandle, TagsOf;
  }

  function Declared(table: seq<TagDirective>, d: TagDirective): seq<TagDirective> {
    if HasHandle(table, d.handle) then table else table + [d]
  }

  /** The prefix of the first declaration of a handle. */
  function PrefixOf(table: seq<TagDirective>, handle: string): Option<string> {
    if table == [] then None
    else if table[0].handle == handle then Some(table[0].prefix)
    else PrefixOf(table[1..], handle)
  }

  /** What a tag stands for; an undeclared handle stands for nothing. */
  function Resolved(table: seq<TagDirective>, handle: string, suffix: string): Option<string> {
    if handle == "" then Some(suffix)
    else
      var prefix := PrefixOf(table, handle);
      if prefix.None? || prefix.value + suffix == "" then None else Some(prefix.value + suffix)
  }

  function AnchorIn(props: seq<Token>): Option<string> {
    if props == [] then None else if props[0].AnchorToken? then Some(props[0].name) else AnchorIn(props[1..])
  }

  function TagTokenIn(props: seq<Token>): Option<(string, string)> {
    if props == [] then None
    else if props[0].TagToken? then Some((props[0].handle, props[0].suffix))
    else TagTokenIn(props[1..])
  }

  /** The tag among the properties of a node, "" if there is none; `None` if it does not resolve. */
  function TagIn(props: seq<Token>, table: seq<TagDirective>): Option<string> {
    var t := TagTokenIn(props);
    if t.None? then Some("") else Resolved(table, t.value.0, t.value.1)
  }

  lemma NoDirectives(table: seq<TagDirective>)
    ensures Declarable([], table) && !Versioned([]) && table + TagsOf([]) == table
  {
    assert table + [] == table;
  }

  predicate IsProperty(t: Token) {
    t.AnchorToken? || t.TagToken?
  }

  // ----- what tokens and events say

  /** The parts of a text that the parser hands on as they are. */
  datatype Item = Value(text: string) | Reference(name: string) | AnchorName(name: string) | Finish

  /** A plain scalar without text says nothing: the parser supplies such scalars where a node is missing. */
  function Valued(text: string, plain: bool): seq<Item> {
    if plain && text == "" then [] else [Value(text)]
  }

  function AnchorItems(anchor: Option<string>): seq<Item> {
    if anchor.Some? then [AnchorName(anchor.value)] else []
  }

  function TokenItems(t: Token): seq<Item> {
    match t
    case ScalarToken(value, plain) => Valued(value, plain)
    case AliasToken(name) => [Reference(name)]
    case AnchorToken(name) => [AnchorName(name)]
    case StreamEndToken => [Finish]
    case _ => []
  }

  function EventItems(e: Event): seq<Item> {
    match e
    case ScalarEvent(anchor, _, value, _, plain) => AnchorItems(anchor) + Valued(value, plain)
    case AliasEvent(name) => [Reference(name)]
    case SequenceStartEvent(anchor, _) => AnchorItems(anchor)
    case MappingStartEvent(anchor, _) => AnchorItems(anchor)
    case StreamEndEvent => [Finish]
    case _ => []
  }

  function TokensSay(tokens: seq<Token>): seq<Item> {
    if tokens == [] then [] else TokensSay(tokens[..|tokens| - 1]) + TokenItems(tokens[|tokens| - 1])
  }

  function EventsSay(events: seq<Event>): seq<Item> {
    if events == [] then [] else EventsSay(events[..|events| - 1]) + EventItems(events[|events| - 1])
  }

  const EMPTY_SCALAR := ScalarEvent(None, "", "", true, true)
}
