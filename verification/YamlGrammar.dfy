/** The productions that the parser implements, each as a function from the tokens ahead to the events they
    stand for and the tokens after them. */
module YamlGrammar {
  import opened Bytes
  import opened Sequences
  import opened YamlEvents
  import opened YamlTokens

  datatype Parse = Got(events: seq<Event>, rest: seq<Token>) | Stuck

  /** The events `es`, then whatever comes of the rest. */
  function Then(es: seq<Event>, p: Parse): Parse {
    if p.Stuck? then Stuck else Got(es + p.events, p.rest)
  }

  // ----- nodes

  function PropertyCount(ts: seq<Token>): (n: nat)
    ensures n <= |ts| && n <= 2
  {
    if ts == [] || !IsProperty(ts[0]) then 0
    else if |ts| > 1 && IsProperty(ts[1]) && ts[0].AnchorToken? != ts[1].AnchorToken? then 2
    else 1
  }

  function NodeAt(ts: seq<Token>, block: bool, indentless: bool, table: seq<TagDirective>): (p: Parse)
    ensures p.Got? ==> |p.rest| < |ts|
    decreases |ts|, 2
  {
    if ts == [] then Stuck
    else if ts[0].AliasToken? then Got([AliasEvent(ts[0].name)], ts[1..])
    else
      var n := PropertyCount(ts);
      var tag := TagIn(ts[..n], table);
      if tag.None? then Stuck else ContentAt(ts[n..], block, indentless, AnchorIn(ts[..n]), tag.value, table)
  }

  /** What may follow the properties of a node; nothing may only follow if there are any. */
  function ContentAt(ts: seq<Token>, block: bool, indentless: bool, anchor: Option<string>, tag: string,
                     table: seq<TagDirective>): (p: Parse)
    ensures p.Got? ==> |p.rest| < |ts| || (|p.rest| == |ts| && (anchor.Some? || tag != ""))
    decreases |ts|, 1
  {
    if ts == [] then Stuck
    else if indentless && ts[0].BlockEntryToken? then
      Then([SequenceStartEvent(anchor, tag)], IndentlessEntries(ts, table))
    else if ts[0].ScalarToken? then
      var implicit := (tag == "" && ts[0].plain) || tag == "!";
      Got([ScalarEvent(anchor, tag, ts[0].value, implicit, ts[0].plain)], ts[1..])
    else if ts[0].FlowSequenceStartToken? then Then([SequenceStartEvent(anchor, tag)], FlowItems(ts[1..], true, table))
    else if ts[0].FlowMappingStartToken? then Then([MappingStartEvent(anchor, tag)], FlowPairs(ts[1..], true, table))
    else if block && ts[0].BlockSequenceStartToken? then Then([SequenceStartEvent(anchor, tag)], BlockEntries(ts[1..], table))
    else if block && ts[0].BlockMappingStartToken? then Then([MappingStartEvent(anchor, tag)], BlockPairs(ts[1..], table))
    else if (anchor.Some? && anchor.value != "") || tag != "" then Got([ScalarEvent(anchor, tag, "", tag == "", true)], ts)
    else Stuck
  }

  // ----- block collections

  predicate EndsBlockEntry(t: Token) { t.BlockEntryToken? || t.BlockEndToken? }

  predicate EndsIndentlessEntry(t: Token) { t.BlockEntryToken? || t.KeyToken? || t.ValueToken? || t.BlockEndToken? }

  predicate EndsBlockPart(t: Token) { t.KeyToken? || t.ValueToken? || t.BlockEndToken? }

  function BlockEntries(ts: seq<Token>, table: seq<TagDirective>): (p: Parse)
    ensures p.Got? ==> |p.rest| < |ts|
    decreases |ts|, 3
  {
    if ts == [] then Stuck
    else if ts[0].BlockEndToken? then Got([SequenceEndEvent], ts[1..])
    else if !ts[0].BlockEntryToken? || |ts| == 1 then Stuck
    else if EndsBlockEntry(ts[1]) then Then([EMPTY_SCALAR], BlockEntries(ts[1..], table))
    else
      match NodeAt(ts[1..], true, false, table)
      case Stuck => Stuck
      case Got(es, rest) => Then(es, BlockEntries(rest, table))
  }

  function IndentlessEntries(ts: seq<Token>, table: seq<TagDirective>): (p: Parse)
    ensures p.Got? ==> ts != [] && |p.rest| <= |ts| && (ts[0].BlockEntryToken? ==> |p.rest| < |ts|)
    decreases |ts|, 0
  {
    if ts == [] then Stuck
    else if !ts[0].BlockEntryToken? then Got([SequenceEndEvent], ts)
    else if |ts| == 1 then Stuck
    else if EndsIndentlessEntry(ts[1]) then Then([EMPTY_SCALAR], IndentlessEntries(ts[1..], table))
    else
      match NodeAt(ts[1..], true, false, table)
      case Stuck => Stuck
      case Got(es, rest) => Then(es, IndentlessEntries(rest, table))
  }

  function BlockPairs(ts: seq<Token>, table: seq<TagDirective>): (p: Parse)
    ensures p.Got? ==> |p.rest| < |ts|
    decreases |ts|, 3
  {
    if ts == [] then Stuck
    else if ts[0].BlockEndToken? then Got([MappingEndEvent], ts[1..])
    else if !ts[0].KeyToken? || |ts| == 1 then Stuck
    else if EndsBlockPart(ts[1]) then Then([EMPTY_SCALAR], BlockValue(ts[1..], table))
    else
      match NodeAt(ts[1..], true, true, table)
      case Stuck => Stuck
      case Got(es, rest) => Then(es, BlockValue(rest, table))
  }

  function BlockValue(ts: seq<Token>, table: seq<TagDirective>): (p: Parse)
    ensures p.Got? ==> |p.rest| < |ts|
    decreases |ts|, 4
  {
    if ts == [] then Stuck
    else if !ts[0].ValueToken? then Then([EMPTY_SCALAR], BlockPairs(ts, table))
    else if |ts| == 1 then Stuck
    else if EndsBlockPart(ts[1]) then Then([EMPTY_SCALAR], BlockPairs(ts[1..], table))
    else
      match NodeAt(ts[1..], true, true, table)
      case Stuck => Stuck
      case Got(es, rest) => Then(es, BlockPairs(rest, table))
  }

  // ----- flow collections

  predicate EndsFlowItem(t: Token) { t.FlowEntryToken? || t.FlowSequenceEndToken? }

  predicate EndsFlowPair(t: Token) { t.FlowEntryToken? || t.FlowMappingEndToken? }

  function FlowItems(ts: seq<Token>, first: bool, table: seq<TagDirective>): (p: Parse)
    ensures p.Got? ==> |p.rest| < |ts|
    decreases |ts|, 4
  {
    if ts == [] then Stuck
    else if first || ts[0].FlowSequenceEndToken? then FlowItem(ts, table)
    else if !ts[0].FlowEntryToken? then Stuck
    else FlowItem(ts[1..], table)
  }

  function FlowItem(ts: seq<Token>, table: seq<TagDirective>): (p: Parse)
    ensures p.Got? ==> |p.rest| < |ts|
    decreases |ts|, 3
  {
    if ts == [] then Stuck
    else if ts[0].KeyToken? then Then([MappingStartEvent(None, "")], PairKey(ts[1..], table))
    else if ts[0].FlowSequenceEndToken? then Got([SequenceEndEvent], ts[1..])
    else
      match NodeAt(ts, false, false, table)
      case Stuck => Stuck
      case Got(es, rest) => Then(es, FlowItems(rest, false, table))
  }

  /** The key of a single pair. Where it is missing, the token in its place is passed over, whichever it is. */
  function PairKey(ts: seq<Token>, table: seq<TagDirective>): (p: Parse)
    ensures p.Got? ==> |p.rest| < |ts|
    decreases |ts|, 7
  {
    if ts == [] then Stuck
    else if ts[0].ValueToken? || EndsFlowItem(ts[0]) then Then([EMPTY_SCALAR], PairValue(ts[1..], table))
    else
      match NodeAt(ts, false, false, table)
      case Stuck => Stuck
      case Got(es, rest) => Then(es, PairValue(rest, table))
  }

  function PairValue(ts: seq<Token>, table: seq<TagDirective>): (p: Parse)
    ensures p.Got? ==> |p.rest| < |ts|
    decreases |ts|, 6
  {
    if ts == [] then Stuck
    else if !ts[0].ValueToken? then Then([EMPTY_SCALAR], PairEnd(ts, table))
    else if |ts| == 1 then Stuck
    else if EndsFlowItem(ts[1]) then Then([EMPTY_SCALAR], PairEnd(ts[1..], table))
    else
      match NodeAt(ts[1..], false, false, table)
      case Stuck => Stuck
      case Got(es, rest) => Then(es, PairEnd(rest, table))
  }

  function PairEnd(ts: seq<Token>, table: seq<TagDirective>): (p: Parse)
    ensures p.Got? ==> |p.rest| < |ts|
    decreases |ts|, 5
  {
    if ts == [] then Stuck else Then([MappingEndEvent], FlowItems(ts, false, table))
  }

  function FlowPairs(ts: seq<Token>, first: bool, table: seq<TagDirective>): (p: Parse)
    ensures p.Got? ==> |p.rest| < |ts|
    decreases |ts|, 4
  {
    if ts == [] then Stuck
    else if first || ts[0].FlowMappingEndToken? then FlowPair(ts, table)
    else if !ts[0].FlowEntryToken? then Stuck
    else FlowPair(ts[1..], table)
  }

  function FlowPair(ts: seq<Token>, table: seq<TagDirective>): (p: Parse)
    ensures p.Got? ==> |p.rest| < |ts|
    decreases |ts|, 3
  {
    if ts == [] then Stuck
    else if ts[0].FlowMappingEndToken? then Got([MappingEndEvent], ts[1..])
    else if !ts[0].KeyToken? then
      match NodeAt(ts, false, false, table)
      case Stuck => Stuck
      case Got(es, rest) => Then(es, NoFlowValue(rest, table))
    else if |ts| == 1 then Stuck
    else if ts[1].ValueToken? || EndsFlowPair(ts[1]) then Then([EMPTY_SCALAR], FlowValue(ts[1..], table))
    else
      match NodeAt(ts[1..], false, false, table)
      case Stuck => Stuck
      case Got(es, rest) => Then(es, FlowValue(rest, table))
  }

  function FlowValue(ts: seq<Token>, table: seq<TagDirective>): (p: Parse)
    ensures p.Got? ==> |p.rest| < |ts|
    decreases |ts|, 5
  {
    if ts == [] then Stuck
    else if !ts[0].ValueToken? then Then([EMPTY_SCALAR], FlowPairs(ts, false, table))
    else if |ts| == 1 then Stuck
    else if EndsFlowPair(ts[1]) then Then([EMPTY_SCALAR], FlowPairs(ts[1..], false, table))
    else
      match NodeAt(ts[1..], false, false, table)
      case Stuck => Stuck
      case Got(es, rest) => Then(es, FlowPairs(rest, false, table))
  }

  function NoFlowValue(ts: seq<Token>, table: seq<TagDirective>): (p: Parse)
    ensures p.Got? ==> |p.rest| < |ts|
    decreases |ts|, 5
  {
    if ts == [] then Stuck else Then([EMPTY_SCALAR], FlowPairs(ts, false, table))
  }

  // ----- documents

  predicate EndsDocument(t: Token) {
    IsDirective(t) || t.DocumentStartToken? || t.DocumentEndToken? || t.StreamEndToken?
  }

  function DirectiveCount(ts: seq<Token>): (n: nat)
    ensures n <= |ts| && (forall i :: 0 <= i < n ==> IsDirective(ts[i])) && (n < |ts| ==> !IsDirective(ts[n]))
  {
    if ts == [] || !IsDirective(ts[0]) then 0 else 1 + DirectiveCount(ts[1..])
  }

  /** The tags in force in a document with the given directives. */
  function TableOf(ds: seq<Token>): seq<TagDirective> {
    Declared(Declared(TagsOf(ds), DEFAULT_TAG_DIRECTIVES[0]), DEFAULT_TAG_DIRECTIVES[1])
  }

  /** What tags stand for: the two handles that every document has, and one that it declares, even if that is one of them. */
  lemma DeclaredTags(handle: string, prefix: string, suffix: string)
    ensures Resolved(TableOf([]), "!!", suffix) == Some("tag:yaml.org,2002:" + suffix)
    ensures Resolved(TableOf([]), "!", suffix) == Some("!" + suffix)
    ensures Resolved(TableOf([]), "", suffix) == Some(suffix)
    ensures handle != "" && prefix != "" ==> Resolved(TableOf([TagDirectiveToken(handle, prefix)]), handle, suffix) == Some(prefix + suffix)
    ensures handle != "" && handle != "!" && handle != "!!" ==> Resolved(TableOf([]), handle, suffix) == None
  {
    hide HasHandle;
    NoHandles();
    var last := DEFAULT_TAG_DIRECTIVES[1..];
    assert last == [TagDirective("!!", "tag:yaml.org,2002:")] && last[1..] == [] && PrefixOf([], handle) == None;
    assert handle != "!!" ==> PrefixOf(last, handle) == None;
    var d := TagDirective(handle, prefix);
    var ds := [TagDirectiveToken(handle, prefix)];
    assert ds[..0] == [] && TagsOf([]) == [] && TagsOf(ds) == [d];
    FirstStays([d], DEFAULT_TAG_DIRECTIVES[0]);
    FirstStays(Declared([d], DEFAULT_TAG_DIRECTIVES[0]), DEFAULT_TAG_DIRECTIVES[1]);
  }

  lemma NoHandles()
    ensures TableOf([]) == DEFAULT_TAG_DIRECTIVES
  {
    assert TagsOf([]) == [];
    assert Declared([], DEFAULT_TAG_DIRECTIVES[0]) == [DEFAULT_TAG_DIRECTIVES[0]];
    assert !HasHandle([DEFAULT_TAG_DIRECTIVES[0]], "!!");
  }

  lemma FirstStays(table: seq<TagDirective>, d: TagDirective)
    requires table != []
    ensures Declared(table, d) != [] && Declared(table, d)[0] == table[0]
  {
  }

  /** The one node of a document with an explicit start, which may be missing. */
  function DocumentNode(ts: seq<Token>, table: seq<TagDirective>): (p: Parse)
    ensures p.Got? ==> |p.rest| <= |ts|
  {
    if ts == [] then Stuck
    else if EndsDocument(ts[0]) then Got([EMPTY_SCALAR], ts)
    else NodeAt(ts, true, false, table)
  }

  /** The end of a document, and all documents after it. */
  function DocumentEnd(ts: seq<Token>): Parse
    decreases |ts|, 3
  {
    if ts == [] then Stuck
    else if ts[0].DocumentEndToken? then Then([DocumentEndEvent(true)], NextDocument(ts[1..]))
    else Then([DocumentEndEvent(false)], NextDocument(ts))
  }

  function NextDocument(ts: seq<Token>): Parse
    decreases |ts|, 2
  {
    if ts == [] then Stuck
    else if ts[0].DocumentEndToken? then NextDocument(ts[1..])
    else ExplicitDocument(ts)
  }

  function ExplicitDocument(ts: seq<Token>): Parse
    decreases |ts|, 1
  {
    if ts == [] then Stuck
    else if ts[0].StreamEndToken? then Got([StreamEndEvent], ts[1..])
    else
      var n := DirectiveCount(ts);
      if n == |ts| || !Declarable(ts[..n], []) || !ts[n].DocumentStartToken? then Stuck
      else
        match DocumentNode(ts[n + 1..], TableOf(ts[..n]))
        case Stuck => Stuck
        case Got(es, rest) => Then([DocumentStartEvent] + es, DocumentEnd(rest))
  }

  /** The first document may do without an explicit start. */
  function FirstDocument(ts: seq<Token>): Parse {
    if ts == [] then Stuck
    else if IsDirective(ts[0]) || ts[0].DocumentStartToken? || ts[0].StreamEndToken? then ExplicitDocument(ts)
    else
      match NodeAt(ts, true, false, TableOf([]))
      case Stuck => Stuck
      case Got(es, rest) => Then([DocumentStartEvent] + es, DocumentEnd(rest))
  }

  function Stream(ts: seq<Token>): Parse {
    if ts == [] || !ts[0].StreamStartToken? then Stuck else Then([StreamStartEvent], FirstDocument(ts[1..]))
  }

  lemma ThenThen(a: seq<Event>, b: seq<Event>, p: Parse)
    ensures Then(a, Then(b, p)) == Then(a + b, p)
  {
    if p.Got? { Regroup(a, b, p.events); }
  }
}
