/** The concrete syntax of token streams: how documents can be written, and that the grammar reads exactly what
    was written. */
module YamlSyntax {
  import opened Bytes
  import opened Sequences
  import opened YamlEvents
  import opened YamlTokens
  import opened YamlGrammar

  // ----- how nodes are written

  /** An anchor and a tag, in either order. */
  datatype Properties = Properties(anchor: Option<string>, tag: Option<(string, string)>, tagFirst: bool)

  datatype Form = BlockSequence | Indentless | BlockMapping | FlowSequence | FlowMapping

  datatype Node = Missing | Alias(name: string) | Node(props: Properties, content: Content)

  datatype Content =
    | Nothing
    | Scalar(value: string, plain: bool)
    | Collection(kind: Form, entries: seq<Entry>, trailing: bool)

  /** An entry of a collection: a single node in `key`, or a pair, with or without a KEY or VALUE token. A pair
      without a key inside a flow sequence has a token that is passed over. */
  datatype Entry = Entry(keyed: bool, passed: seq<Token>, key: Node, valued: bool, value: Node)

  function PropertyTokens(p: Properties): (ts: seq<Token>)
    ensures |ts| <= 2
  {
    var anchor := if p.anchor.Some? then [AnchorToken(p.anchor.value)] else [];
    var tag := if p.tag.Some? then [TagToken(p.tag.value.0, p.tag.value.1)] else [];
    if p.tagFirst then tag + anchor else anchor + tag
  }

  function Opening(k: Form): seq<Token> {
    match k
    case BlockSequence => [BlockSequenceStartToken]
    case Indentless => []
    case BlockMapping => [BlockMappingStartToken]
    case FlowSequence => [FlowSequenceStartToken]
    case FlowMapping => [FlowMappingStartToken]
  }

  function Closing(k: Form): seq<Token> {
    match k
    case BlockSequence | BlockMapping => [BlockEndToken]
    case Indentless => []
    case FlowSequence => [FlowSequenceEndToken]
    case FlowMapping => [FlowMappingEndToken]
  }

  predicate IsFlow(k: Form) { k.FlowSequence? || k.FlowMapping? }

  predicate IsMapping(k: Form) { k.BlockMapping? || k.FlowMapping? }

  function NodeTokens(n: Node): seq<Token>
    decreases n
  {
    match n
    case Missing => []
    case Alias(name) => [AliasToken(name)]
    case Node(props, content) => PropertyTokens(props) + ContentTokens(content)
  }

  function ContentTokens(c: Content): seq<Token>
    decreases c
  {
    match c
    case Nothing => []
    case Scalar(value, plain) => [ScalarToken(value, plain)]
    case Collection(k, entries, trailing) => Opening(k) + TailTokens(k, entries, trailing, true)
  }

  /** The rest of a collection from some entry on: its entries, and its end. */
  function TailTokens(k: Form, entries: seq<Entry>, trailing: bool, first: bool): seq<Token>
    decreases entries
  {
    var comma := if IsFlow(k) && !first then [FlowEntryToken] else [];
    if entries == [] then (if trailing then comma else []) + Closing(k)
    else comma + EntryTokens(k, entries[0]) + TailTokens(k, entries[1..], trailing, false)
  }

  function Lead(k: Form, e: Entry): seq<Token> {
    if k.BlockSequence? || k.Indentless? then [BlockEntryToken] else if e.keyed then [KeyToken] else []
  }

  function EntryTokens(k: Form, e: Entry): seq<Token>
    decreases e
  {
    Lead(k, e) + e.passed + NodeTokens(e.key) + ValueTokens(e)
  }

  function ValueTokens(e: Entry): seq<Token>
    decreases e, 0
  {
    if e.valued then [ValueToken] + NodeTokens(e.value) else []
  }

  // ----- what may be written where

  function TagOf(p: Properties, table: seq<TagDirective>): Option<string> {
    if p.tag.None? then Some("") else Resolved(table, p.tag.value.0, p.tag.value.1)
  }

  predicate Fits(n: Node, block: bool, indentless: bool, table: seq<TagDirective>)
    decreases n
  {
    n.Node? ==>
      && TagOf(n.props, table).Some?
      && ContentFits(n.content, block, indentless, table)
      && (n.content.Nothing? ==>
            (n.props.anchor.Some? && n.props.anchor.value != "") || TagOf(n.props, table) != Some(""))
  }

  /** Block collections only inside block collections, and sequences without indentation only in mappings. */
  predicate ContentFits(c: Content, block: bool, indentless: bool, table: seq<TagDirective>)
    decreases c
  {
    c.Collection? ==>
      && (c.kind.BlockSequence? || c.kind.BlockMapping? ==> block)
      && (c.kind.Indentless? ==> indentless && c.entries != [])
      && (c.trailing ==> c.entries != [])
      && EntriesFit(c.kind, c.entries, table)
  }

  predicate EntriesFit(k: Form, entries: seq<Entry>, table: seq<TagDirective>)
    decreases entries
  {
    entries != [] ==> EntryFits(k, entries[0], table) && EntriesFit(k, entries[1..], table)
  }

  predicate IsPassed(e: Entry) {
    e.key.Missing? && |e.passed| == 1 && (e.passed[0].ValueToken? || EndsFlowItem(e.passed[0]))
  }

  predicate EntryFits(k: Form, e: Entry, table: seq<TagDirective>)
    decreases e
  {
    var block := !IsFlow(k);
    && Fits(e.key, block, k.BlockMapping?, table) && Fits(e.value, block, k.BlockMapping?, table)
    && (!e.valued ==> e.value.Missing?)
    && (!e.keyed ==> !e.valued)
    && match k
       case BlockSequence | Indentless => !e.keyed && e.passed == []
       case BlockMapping => e.keyed && e.passed == []
       case FlowSequence => if e.keyed && e.key.Missing? then IsPassed(e) else e.passed == [] && !e.key.Missing?
       case FlowMapping => e.passed == [] && (e.keyed || !e.key.Missing?)
  }

  // ----- what it means

  /** The tag of a node, "" if it has none. */
  function TagText(p: Properties, table: seq<TagDirective>): string {
    var tag := TagOf(p, table);
    if tag.Some? then tag.value else ""
  }

  function TreeOf(n: Node, table: seq<TagDirective>): Tree
    decreases n
  {
    match n
    case Missing => Leaf(EMPTY_SCALAR)
    case Alias(name) => Leaf(AliasEvent(name))
    case Node(props, content) => ContentTree(content, props.anchor, TagText(props, table), table)
  }

  function ContentTree(c: Content, anchor: Option<string>, tag: string, table: seq<TagDirective>): Tree
    decreases c
  {
    match c
    case Nothing => Leaf(ScalarEvent(anchor, tag, "", tag == "", true))
    case Scalar(value, plain) => Leaf(ScalarEvent(anchor, tag, value, (tag == "" && plain) || tag == "!", plain))
    case Collection(k, entries, _) =>
      if IsMapping(k) then Mapping(MappingStartEvent(anchor, tag), TreesOf(k, entries, table))
      else Sequence(SequenceStartEvent(anchor, tag), TreesOf(k, entries, table))
  }

  function TreesOf(k: Form, entries: seq<Entry>, table: seq<TagDirective>): seq<Tree>
    decreases entries
  {
    if entries == [] then [] else EntryTrees(k, entries[0], table) + TreesOf(k, entries[1..], table)
  }

  function EntryTrees(k: Form, e: Entry, table: seq<TagDirective>): seq<Tree>
    decreases e
  {
    var pair := [TreeOf(e.key, table), TreeOf(e.value, table)];
    if IsMapping(k) then pair
    else if e.keyed then [Mapping(MappingStartEvent(None, ""), pair)]
    else [TreeOf(e.key, table)]
  }

  function NodeEvents(n: Node, table: seq<TagDirective>): seq<Event> {
    TreeEvents(TreeOf(n, table))
  }

  function EntryEvents(k: Form, e: Entry, table: seq<TagDirective>): seq<Event> {
    ForestEvents(EntryTrees(k, e, table))
  }

  function EndEvent(k: Form): Event {
    if IsMapping(k) then MappingEndEvent else SequenceEndEvent
  }

  /** The events of the rest of a collection. */
  function TailEvents(k: Form, entries: seq<Entry>, table: seq<TagDirective>): seq<Event> {
    ForestEvents(TreesOf(k, entries, table)) + [EndEvent(k)]
  }

  lemma TailEventsStep(k: Form, entries: seq<Entry>, table: seq<TagDirective>)
    requires entries != []
    ensures TailEvents(k, entries, table) == EntryEvents(k, entries[0], table) + TailEvents(k, entries[1..], table)
  {
    hide ForestEvents, EntryTrees;
    ForestConcat(EntryTrees(k, entries[0], table), TreesOf(k, entries[1..], table));
    Regroup(EntryEvents(k, entries[0], table), ForestEvents(TreesOf(k, entries[1..], table)), [EndEvent(k)]);
  }

  lemma TailEventsEnd(k: Form, table: seq<TagDirective>)
    ensures TailEvents(k, [], table) == [EndEvent(k)]
  {
    assert ForestEvents([]) == [];
  }

  /** The events of an entry are those of its nodes. */
  lemma EntryEventsAre(k: Form, e: Entry, table: seq<TagDirective>)
    ensures var pair := NodeEvents(e.key, table) + NodeEvents(e.value, table);
      EntryEvents(k, e, table) ==
        if IsMapping(k) then pair
        else if e.keyed then [MappingStartEvent(None, "")] + pair + [MappingEndEvent]
        else NodeEvents(e.key, table)
  {
    var key, value := TreeOf(e.key, table), TreeOf(e.value, table);
    var m := Mapping(MappingStartEvent(None, ""), [key, value]);
    assert TreeEvents(m) == [MappingStartEvent(None, "")] + ForestEvents([key, value]) + [MappingEndEvent];
    hide TreeEvents, ForestEvents, TreeOf;
    ForestOne(key);
    ForestOne(value);
    ForestOne(m);
    ForestConcat([key], [value]);
    assert [key] + [value] == [key, value];
  }

  // ----- what was written is read

  /** Tokens that can begin a node. */
  predicate Begins(t: Token, indentless: bool) {
    || t.AliasToken? || IsProperty(t) || t.ScalarToken? || t.FlowSequenceStartToken? || t.FlowMappingStartToken?
    || t.BlockSequenceStartToken? || t.BlockMappingStartToken? || (indentless && t.BlockEntryToken?)
  }

  lemma FirstToken(n: Node, block: bool, indentless: bool, table: seq<TagDirective>)
    requires !n.Missing? && Fits(n, block, indentless, table)
    ensures NodeTokens(n) != [] && Begins(NodeTokens(n)[0], indentless)
  {
    if n.Node? {
      var props := PropertyTokens(n.props);
      if props != [] {
        assert NodeTokens(n)[0] == props[0];
      } else if n.content.Collection? {
        FirstOfCollection(n.content);
        assert NodeTokens(n)[0] == ContentTokens(n.content)[0];
      }
    }
  }

  lemma FirstOfCollection(c: Content)
    requires c.Collection? && (c.kind.Indentless? ==> c.entries != [])
    ensures ContentTokens(c) != [] && Begins(ContentTokens(c)[0], c.kind.Indentless?)
  {
    if c.kind.Indentless? {
      var tail := TailTokens(c.kind, c.entries, c.trailing, true);
      TailStep(c.kind, c.entries, c.trailing, true);
      assert tail[0] == BlockEntryToken && ContentTokens(c) == [] + tail;
    }
  }

  /** The first entry of the rest of a collection, piece by piece. */
  lemma {:induction false} TailStep(k: Form, entries: seq<Entry>, trailing: bool, first: bool)
    requires entries != []
    ensures var e := entries[0];
      TailTokens(k, entries, trailing, first) ==
        (if IsFlow(k) && !first then [FlowEntryToken] else []) + Lead(k, e) + e.passed + NodeTokens(e.key)
        + ValueTokens(e) + TailTokens(k, entries[1..], trailing, false)
  {
    hide NodeTokens, ValueTokens, Lead;
    var e, tail := entries[0], TailTokens(k, entries[1..], trailing, false);
    var comma := if IsFlow(k) && !first then [FlowEntryToken] else [];
    assert TailTokens(k, entries, trailing, first) == comma + EntryTokens(k, e) + tail;
    assert EntryTokens(k, e) == Lead(k, e) + e.passed + NodeTokens(e.key) + ValueTokens(e);
    hide *;
    Regroup(comma, Lead(k, e) + e.passed + NodeTokens(e.key), ValueTokens(e));
    Regroup(comma, Lead(k, e) + e.passed, NodeTokens(e.key));
    Regroup(comma, Lead(k, e), e.passed);
  }

  /** What may follow a node: nothing that could still be part of it. */
  predicate Follows(rest: seq<Token>, indentless: bool) {
    rest != [] && if indentless then EndsBlockPart(rest[0]) else !Begins(rest[0], false)
  }

  /** The grammar's function for the rest of a collection. */
  function TailAt(k: Form, ts: seq<Token>, first: bool, table: seq<TagDirective>): Parse {
    match k
    case BlockSequence => BlockEntries(ts, table)
    case Indentless => IndentlessEntries(ts, table)
    case BlockMapping => BlockPairs(ts, table)
    case FlowSequence => FlowItems(ts, first, table)
    case FlowMapping => FlowPairs(ts, first, table)
  }

  /** What comes after an entry. */
  predicate AfterEntry(k: Form, ts: seq<Token>) {
    ts != [] &&
    match k
    case BlockSequence => EndsBlockEntry(ts[0])
    case Indentless => EndsIndentlessEntry(ts[0])
    case BlockMapping => ts[0].KeyToken? || ts[0].BlockEndToken?
    case FlowSequence => EndsFlowItem(ts[0])
    case FlowMapping => EndsFlowPair(ts[0])
  }

  lemma TailFirst(k: Form, entries: seq<Entry>, trailing: bool, rest: seq<Token>, table: seq<TagDirective>)
    requires EntriesFit(k, entries, table) && (k.Indentless? ==> Follows(rest, true))
    ensures AfterEntry(k, TailTokens(k, entries, trailing, false) + rest)
  {
    hide NodeTokens, ValueTokens, Fits;
    var tail := TailTokens(k, entries, trailing, false);
    if entries == [] {
      if k.Indentless? {
        assert tail == [];
        AddNothing(rest);
      }
    } else {
      TailStep(k, entries, trailing, false);
      if IsFlow(k) {
        assert tail[0] == FlowEntryToken;
      } else {
        assert tail[0] == Lead(k, entries[0])[0];
      }
    }
  }

  /** A node, missing or not, in front of `tail`. */
  ghost predicate Reads(n: Node, tail: seq<Token>, block: bool, indentless: bool, table: seq<TagDirective>) {
    && (!n.Missing? ==>
          && NodeAt(NodeTokens(n) + tail, block, indentless, table) == Got(NodeEvents(n, table), tail)
          && NodeTokens(n) != [] && Begins(NodeTokens(n)[0], indentless))
    && (n.Missing? ==> NodeTokens(n) + tail == tail && NodeEvents(n, table) == [EMPTY_SCALAR])
  }

  lemma BlockEntryReads(e: Entry, tail: seq<Token>, table: seq<TagDirective>)
    requires EntryFits(BlockSequence, e, table) && AfterEntry(BlockSequence, tail) && Reads(e.key, tail, true, false, table)
    ensures BlockEntries([BlockEntryToken] + (NodeTokens(e.key) + tail), table)
         == Then(NodeEvents(e.key, table), BlockEntries(tail, table))
  {
    hide NodeAt, NodeTokens, NodeEvents, Fits;
    var ts := [BlockEntryToken] + (NodeTokens(e.key) + tail);
    assert ts[1..] == NodeTokens(e.key) + tail;
  }

  lemma IndentlessEntryReads(e: Entry, tail: seq<Token>, table: seq<TagDirective>)
    requires EntryFits(Indentless, e, table) && AfterEntry(Indentless, tail) && Reads(e.key, tail, true, false, table)
    ensures IndentlessEntries([BlockEntryToken] + (NodeTokens(e.key) + tail), table)
         == Then(NodeEvents(e.key, table), IndentlessEntries(tail, table))
  {
    hide NodeAt, NodeTokens, NodeEvents, Fits;
    var ts := [BlockEntryToken] + (NodeTokens(e.key) + tail);
    assert ts[1..] == NodeTokens(e.key) + tail;
  }

  lemma BlockValueReads(e: Entry, tail: seq<Token>, table: seq<TagDirective>)
    requires EntryFits(BlockMapping, e, table) && AfterEntry(BlockMapping, tail) && Reads(e.value, tail, true, true, table)
    ensures EndsBlockPart((ValueTokens(e) + tail)[0])
    ensures BlockValue(ValueTokens(e) + tail, table) == Then(NodeEvents(e.value, table), BlockPairs(tail, table))
  {
    hide NodeAt, NodeTokens, NodeEvents, Fits;
    var ts := ValueTokens(e) + tail;
    if e.valued {
      assert ts[1..] == NodeTokens(e.value) + tail;
    } else {
      assert ts == tail;
    }
  }

  lemma BlockPairReads(e: Entry, tail: seq<Token>, table: seq<TagDirective>)
    requires EntryFits(BlockMapping, e, table) && AfterEntry(BlockMapping, tail)
    requires Reads(e.key, ValueTokens(e) + tail, true, true, table) && Reads(e.value, tail, true, true, table)
    ensures BlockPairs([KeyToken] + (NodeTokens(e.key) + (ValueTokens(e) + tail)), table)
         == Then(NodeEvents(e.key, table) + NodeEvents(e.value, table), BlockPairs(tail, table))
  {
    hide NodeAt, NodeTokens, NodeEvents, Fits, BlockValue, ValueTokens;
    BlockValueReads(e, tail, table);
    var more := ValueTokens(e) + tail;
    var ts := [KeyToken] + (NodeTokens(e.key) + more);
    assert ts[1..] == NodeTokens(e.key) + more;
    assert BlockPairs(ts, table) == Then(NodeEvents(e.key, table), BlockValue(more, table));
    ThenThen(NodeEvents(e.key, table), NodeEvents(e.value, table), BlockPairs(tail, table));
  }

  lemma PairValueReads(e: Entry, tail: seq<Token>, table: seq<TagDirective>)
    requires EntryFits(FlowSequence, e, table) && AfterEntry(FlowSequence, tail) && Reads(e.value, tail, false, false, table)
    ensures var more := ValueTokens(e) + tail; more != [] && (more[0].ValueToken? || EndsFlowItem(more[0]))
    ensures PairValue(ValueTokens(e) + tail, table)
         == Then(NodeEvents(e.value, table) + [MappingEndEvent], FlowItems(tail, false, table))
  {
    hide NodeAt, NodeTokens, NodeEvents, Fits, FlowItems;
    var ts := ValueTokens(e) + tail;
    if e.valued {
      assert ts[1..] == NodeTokens(e.value) + tail;
    } else {
      assert ts == tail;
    }
    assert PairValue(ts, table) == Then(NodeEvents(e.value, table), PairEnd(tail, table));
    ThenThen(NodeEvents(e.value, table), [MappingEndEvent], FlowItems(tail, false, table));
  }

  lemma FlowItemReads(e: Entry, tail: seq<Token>, table: seq<TagDirective>)
    requires EntryFits(FlowSequence, e, table) && AfterEntry(FlowSequence, tail)
    requires Reads(e.key, ValueTokens(e) + tail, false, false, table) && Reads(e.value, tail, false, false, table)
    ensures FlowItem(Lead(FlowSequence, e) + (e.passed + (NodeTokens(e.key) + (ValueTokens(e) + tail))), table)
         == Then(EntryEvents(FlowSequence, e, table), FlowItems(tail, false, table))
  {
    hide NodeAt, NodeTokens, NodeEvents, Fits, FlowItems, PairValue, ValueTokens, EntryEvents, Then, EntryFits, PairKey;
    EntryEventsAre(FlowSequence, e, table);
    var more := ValueTokens(e) + tail;
    var ts := Lead(FlowSequence, e) + (e.passed + (NodeTokens(e.key) + more));
    if e.keyed {
      assert ts[1..] == e.passed + (NodeTokens(e.key) + more);
      assert FlowItem(ts, table) == Then([MappingStartEvent(None, "")], PairKey(e.passed + (NodeTokens(e.key) + more), table));
      hide FlowItem;
      PairReads(e, tail, table);
    } else {
      SingleItem(e, table);
      assert ts == NodeTokens(e.key) + tail && more == tail;
    }
  }

  lemma SingleItem(e: Entry, table: seq<TagDirective>)
    requires EntryFits(FlowSequence, e, table) && !e.keyed
    ensures e.passed == [] && ValueTokens(e) == [] && !e.key.Missing?
  {
    hide Fits;
  }

  /** The key and the value of a single pair, and its end. */
  lemma PairReads(e: Entry, tail: seq<Token>, table: seq<TagDirective>)
    requires EntryFits(FlowSequence, e, table) && AfterEntry(FlowSequence, tail) && e.keyed
    requires Reads(e.key, ValueTokens(e) + tail, false, false, table) && Reads(e.value, tail, false, false, table)
    ensures Then([MappingStartEvent(None, "")], PairKey(e.passed + (NodeTokens(e.key) + (ValueTokens(e) + tail)), table))
         == Then(EntryEvents(FlowSequence, e, table), FlowItems(tail, false, table))
  {
    hide Then, PairKey, NodeTokens, ValueTokens, EntryEvents, NodeEvents, FlowItems, Reads, EntryFits, AfterEntry, PairValue;
    PairValueReads(e, tail, table);
    PairKeyReads(e, ValueTokens(e) + tail, table);
    EntryEventsAre(FlowSequence, e, table);
    var start, key, value, items := [MappingStartEvent(None, "")], NodeEvents(e.key, table), NodeEvents(e.value, table),
                                    FlowItems(tail, false, table);
    ThenThen(key, value + [MappingEndEvent], items);
    ThenThen(start, key + (value + [MappingEndEvent]), items);
    PairEvents(key, value);
  }

  lemma PairEvents(key: seq<Event>, value: seq<Event>)
    ensures [MappingStartEvent(None, "")] + (key + (value + [MappingEndEvent]))
         == [MappingStartEvent(None, "")] + (key + value) + [MappingEndEvent]
  {
  }

  lemma NoValue(e: Entry)
    requires !e.valued
    ensures ValueTokens(e) == []
  {
  }

  lemma PairKeyReads(e: Entry, more: seq<Token>, table: seq<TagDirective>)
    requires EntryFits(FlowSequence, e, table) && e.keyed && Reads(e.key, more, false, false, table)
    ensures PairKey(e.passed + (NodeTokens(e.key) + more), table) == Then(NodeEvents(e.key, table), PairValue(more, table))
  {
    hide NodeAt, NodeTokens, NodeEvents, Fits, PairValue;
    var ts := e.passed + (NodeTokens(e.key) + more);
    if e.key.Missing? {
      assert ts[0] == e.passed[0] && ts[1..] == more;
    } else {
      assert ts == NodeTokens(e.key) + more;
    }
  }

  lemma FlowValueReads(e: Entry, tail: seq<Token>, table: seq<TagDirective>)
    requires EntryFits(FlowMapping, e, table) && AfterEntry(FlowMapping, tail) && Reads(e.value, tail, false, false, table)
    ensures var more := ValueTokens(e) + tail; more != [] && (more[0].ValueToken? || EndsFlowPair(more[0]))
    ensures FlowValue(ValueTokens(e) + tail, table) == Then(NodeEvents(e.value, table), FlowPairs(tail, false, table))
  {
    hide NodeAt, NodeTokens, NodeEvents, Fits, FlowPairs;
    var ts := ValueTokens(e) + tail;
    if e.valued {
      assert ts[1..] == NodeTokens(e.value) + tail;
    } else {
      assert ts == tail;
    }
  }

  lemma FlowPairReads(e: Entry, tail: seq<Token>, table: seq<TagDirective>)
    requires EntryFits(FlowMapping, e, table) && AfterEntry(FlowMapping, tail)
    requires Reads(e.key, ValueTokens(e) + tail, false, false, table) && Reads(e.value, tail, false, false, table)
    ensures FlowPair(Lead(FlowMapping, e) + (NodeTokens(e.key) + (ValueTokens(e) + tail)), table)
         == Then(NodeEvents(e.key, table) + NodeEvents(e.value, table), FlowPairs(tail, false, table))
  {
    hide NodeAt, NodeTokens, NodeEvents, Fits, FlowPairs, FlowValue, ValueTokens;
    var more := ValueTokens(e) + tail;
    var ts := Lead(FlowMapping, e) + (NodeTokens(e.key) + more);
    ThenThen(NodeEvents(e.key, table), NodeEvents(e.value, table), FlowPairs(tail, false, table));
    if e.keyed {
      FlowValueReads(e, tail, table);
      assert ts[1..] == NodeTokens(e.key) + more;
      assert FlowPair(ts, table) == Then(NodeEvents(e.key, table), FlowValue(more, table));
    } else {
      assert ValueTokens(e) == [] by { NoValue(e); }
      assert more == tail && ts == NodeTokens(e.key) + tail;
      assert FlowPair(ts, table) == Then(NodeEvents(e.key, table), NoFlowValue(tail, table));
    }
  }

  function Comma(k: Form, first: bool): seq<Token> {
    if IsFlow(k) && !first then [FlowEntryToken] else []
  }

  /** One entry of any collection. */
  lemma EntryReads(k: Form, e: Entry, tail: seq<Token>, first: bool, table: seq<TagDirective>)
    requires EntryFits(k, e, table) && AfterEntry(k, tail)
    requires Reads(e.key, ValueTokens(e) + tail, !IsFlow(k), k.BlockMapping?, table)
    requires Reads(e.value, tail, !IsFlow(k), k.BlockMapping?, table)
    ensures TailAt(k, Comma(k, first) + (Lead(k, e) + (e.passed + (NodeTokens(e.key) + (ValueTokens(e) + tail)))), first, table)
         == Then(EntryEvents(k, e, table), TailAt(k, tail, false, table))
  {
    hide NodeAt, NodeTokens, NodeEvents, Fits, Reads, ValueTokens, EntryEvents, BlockEntries, IndentlessEntries, BlockPairs,
         FlowItem, FlowPair, AfterEntry;
    EntryEventsAre(k, e, table);
    var pieces := Lead(k, e) + (e.passed + (NodeTokens(e.key) + (ValueTokens(e) + tail)));
    var ts := Comma(k, first) + pieces;
    assert ts[|Comma(k, first)|..] == pieces;
    match k {
      case BlockSequence =>
        NoValue(e);
        assert ts == [BlockEntryToken] + (NodeTokens(e.key) + tail) && ValueTokens(e) + tail == tail;
        BlockEntryReads(e, tail, table);
      case Indentless =>
        NoValue(e);
        assert ts == [BlockEntryToken] + (NodeTokens(e.key) + tail) && ValueTokens(e) + tail == tail;
        IndentlessEntryReads(e, tail, table);
      case BlockMapping =>
        assert ts == [KeyToken] + (NodeTokens(e.key) + (ValueTokens(e) + tail));
        BlockPairReads(e, tail, table);
      case FlowSequence =>
        FlowItemReads(e, tail, table);
        FlowItemsFirst(ts, first, table);
      case FlowMapping =>
        assert pieces == Lead(k, e) + (NodeTokens(e.key) + (ValueTokens(e) + tail));
        FlowPairReads(e, tail, table);
        FlowPairsFirst(ts, first, table);
    }
  }

  /** Entries of a flow collection after the first are behind a comma. */
  lemma FlowItemsFirst(ts: seq<Token>, first: bool, table: seq<TagDirective>)
    ensures first ==> FlowItems(ts, true, table) == FlowItem(ts, table)
    ensures ts != [] && ts[0].FlowEntryToken? ==> FlowItems(ts, false, table) == FlowItem(ts[1..], table)
  {
    hide FlowItem;
    if ts == [] { assert FlowItem(ts, table) == Stuck by { NoFlowItem(table); } }
  }

  lemma FlowPairsFirst(ts: seq<Token>, first: bool, table: seq<TagDirective>)
    ensures first ==> FlowPairs(ts, true, table) == FlowPair(ts, table)
    ensures ts != [] && ts[0].FlowEntryToken? ==> FlowPairs(ts, false, table) == FlowPair(ts[1..], table)
  {
    hide FlowPair;
    if ts == [] { assert FlowPair(ts, table) == Stuck by { NoFlowItem(table); } }
  }

  lemma NoFlowItem(table: seq<TagDirective>)
    ensures FlowItem([], table) == Stuck && FlowPair([], table) == Stuck
  {
  }

  /** The end of any collection. */
  lemma EndReads(k: Form, trailing: bool, first: bool, rest: seq<Token>, table: seq<TagDirective>)
    requires k.Indentless? ==> Follows(rest, true)
    ensures TailAt(k, TailTokens(k, [], trailing, first) + rest, first, table) == Got([EndEvent(k)], rest)
  {
    hide NodeAt, TailAt;
    var ts := TailTokens(k, [], trailing, first) + rest;
    if IsFlow(k) {
      var end := Closing(k) + rest;
      if !first && trailing {
        assert ts == [FlowEntryToken] + end;
      } else {
        assert ts == end;
        AddNothing(end);
      }
      FlowTailEnds(k, first, !first && trailing, rest, table);
    } else {
      assert ts == Closing(k) + rest;
      BlockTailEnds(k, first, rest, table);
    }
  }

  lemma FlowTailEnds(k: Form, first: bool, comma: bool, rest: seq<Token>, table: seq<TagDirective>)
    requires IsFlow(k) && (comma ==> !first)
    ensures TailAt(k, (if comma then [FlowEntryToken] else []) + (Closing(k) + rest), first, table) == Got([EndEvent(k)], rest)
  {
    hide NodeAt;
    var end := Closing(k) + rest;
    assert end[1..] == rest;
    FlowEnds(k, rest, table);
    if comma {
      assert ([FlowEntryToken] + end)[1..] == end;
    } else {
      AddNothing(end);
    }
  }

  lemma BlockTailEnds(k: Form, first: bool, rest: seq<Token>, table: seq<TagDirective>)
    requires !IsFlow(k) && (k.Indentless? ==> Follows(rest, true))
    ensures TailAt(k, Closing(k) + rest, first, table) == Got([EndEvent(k)], rest)
  {
    hide NodeAt;
    if k.Indentless? { AddNothing(rest); } else { assert (Closing(k) + rest)[1..] == rest; }
  }

  lemma FlowEnds(k: Form, rest: seq<Token>, table: seq<TagDirective>)
    requires IsFlow(k)
    ensures if k.FlowSequence? then FlowItem(Closing(k) + rest, table) == Got([SequenceEndEvent], rest)
            else FlowPair(Closing(k) + rest, table) == Got([MappingEndEvent], rest)
  {
    assert (Closing(k) + rest)[1..] == rest;
  }

  /** Whatever properties are written are read. */
  lemma PropertiesRead(p: Properties, rest: seq<Token>, table: seq<TagDirective>)
    requires rest != [] ==> !IsProperty(rest[0])
    ensures var props := PropertyTokens(p);
      && PropertyCount(props + rest) == |props| && (props + rest)[..|props|] == props && (props + rest)[|props|..] == rest
      && AnchorIn(props) == p.anchor && TagIn(props, table) == TagOf(p, table)
      && (props != [] ==> IsProperty(props[0]))
  {
    hide Resolved;
    var props := PropertyTokens(p);
    if |props| == 1 {
      assert props == [props[0]] && props[1..] == [];
      assert AnchorIn([]) == None && TagTokenIn([]) == None;
    } else if |props| == 2 {
      assert props == [props[0], props[1]] && props[1..] == [props[1]] && [props[1]][1..] == [];
      assert AnchorIn([]) == None && TagTokenIn([]) == None;
      assert AnchorIn(props[1..]) == if props[1].AnchorToken? then Some(props[1].name) else None;
      assert TagTokenIn(props[1..]) == if props[1].TagToken? then Some((props[1].handle, props[1].suffix)) else None;
    }
  }

  lemma {:induction false} NodeReads(n: Node, block: bool, indentless: bool, table: seq<TagDirective>, rest: seq<Token>)
    requires !n.Missing? && Fits(n, block, indentless, table) && Follows(rest, indentless)
    ensures NodeAt(NodeTokens(n) + rest, block, indentless, table) == Got(NodeEvents(n, table), rest)
    decreases n, 0
  {
    hide ContentAt, ContentTokens, TreeEvents, ContentTree, Resolved, AnchorIn, TagIn;
    if n.Alias? {
      assert (NodeTokens(n) + rest)[1..] == rest;
      LeafEvents(AliasEvent(n.name));
    } else {
      var props, content := PropertyTokens(n.props), ContentTokens(n.content);
      var more := content + rest;
      assert more != [] && !IsProperty(more[0]) && !more[0].AliasToken? by {
        FirstOfContent(n.content, block, indentless, table, rest);
      }
      PropertiesRead(n.props, more, table);
      var ts := NodeTokens(n) + rest;
      Regroup(props, content, rest);
      assert ts == props + more;
      assert props != [] ==> ts[0] == props[0];
      ContentReads(n.content, block, indentless, n.props.anchor, TagText(n.props, table), table, rest);
    }
  }

  lemma LeafEvents(e: Event)
    ensures TreeEvents(Leaf(e)) == [e]
  {
  }

  lemma FirstOfContent(c: Content, block: bool, indentless: bool, table: seq<TagDirective>, rest: seq<Token>)
    requires ContentFits(c, block, indentless, table) && Follows(rest, indentless)
    ensures var more := ContentTokens(c) + rest; more != [] && !IsProperty(more[0]) && !more[0].AliasToken?
    ensures c.Nothing? ==> ContentTokens(c) + rest == rest
  {
    if c.Collection? {
      var ts := ContentTokens(c);
      FirstOfCollection(c);
      assert (ts + rest)[0] == ts[0];
      if c.kind.Indentless? {
        TailStep(c.kind, c.entries, c.trailing, true);
        assert ts[0] == BlockEntryToken;
      }
    } else if c.Nothing? {
      AddNothing(rest);
    }
  }

  lemma {:induction false} ContentReads(c: Content, block: bool, indentless: bool, anchor: Option<string>, tag: string,
                                        table: seq<TagDirective>, rest: seq<Token>)
    requires ContentFits(c, block, indentless, table) && Follows(rest, indentless)
    requires c.Nothing? ==> (anchor.Some? && anchor.value != "") || tag != ""
    ensures ContentAt(ContentTokens(c) + rest, block, indentless, anchor, tag, table)
         == Got(TreeEvents(ContentTree(c, anchor, tag, table)), rest)
    decreases c
  {
    hide NodeAt, TreesOf, BlockEntries, IndentlessEntries, BlockPairs, FlowItems, FlowPairs, TailTokens, TreeEvents, ForestEvents,
         EntriesFit, TailEvents;
    match c {
      case Nothing =>
        AddNothing(rest);
        LeafEvents(ScalarEvent(anchor, tag, "", tag == "", true));
      case Scalar(value, plain) =>
        assert (ContentTokens(c) + rest)[1..] == rest;
        LeafEvents(ScalarEvent(anchor, tag, value, (tag == "" && plain) || tag == "!", plain));
      case Collection(k, entries, trailing) =>
        var tail := TailTokens(k, entries, trailing, true) + rest;
        Regroup(Opening(k), TailTokens(k, entries, trailing, true), rest);
        TailReads(k, entries, trailing, true, table, rest);
        CollectionEvents(c, anchor, tag, table);
        if k.Indentless? {
          assert ContentTokens(c) + rest == tail;
          FirstOfIndentless(entries, trailing, rest);
        } else {
          assert (ContentTokens(c) + rest)[1..] == tail;
        }
    }
  }

  lemma FirstOfIndentless(entries: seq<Entry>, trailing: bool, rest: seq<Token>)
    requires entries != []
    ensures var tail := TailTokens(Indentless, entries, trailing, true) + rest; tail != [] && tail[0].BlockEntryToken?
  {
    TailStep(Indentless, entries, trailing, true);
  }

  function StartEvent(k: Form, anchor: Option<string>, tag: string): Event {
    if IsMapping(k) then MappingStartEvent(anchor, tag) else SequenceStartEvent(anchor, tag)
  }

  lemma CollectionEvents(c: Content, anchor: Option<string>, tag: string, table: seq<TagDirective>)
    requires c.Collection?
    ensures TreeEvents(ContentTree(c, anchor, tag, table)) == [StartEvent(c.kind, anchor, tag)] + TailEvents(c.kind, c.entries, table)
  {
    hide TreesOf, ForestEvents;
    Regroup([StartEvent(c.kind, anchor, tag)], ForestEvents(TreesOf(c.kind, c.entries, table)), [EndEvent(c.kind)]);
  }

  /** The rest of any collection, from any entry on. */
  lemma {:induction false} TailReads(k: Form, entries: seq<Entry>, trailing: bool, first: bool, table: seq<TagDirective>,
                                     rest: seq<Token>)
    requires EntriesFit(k, entries, table) && (k.Indentless? ==> Follows(rest, true))
    ensures TailAt(k, TailTokens(k, entries, trailing, first) + rest, first, table) == Got(TailEvents(k, entries, table), rest)
    decreases entries
  {
    hide TailAt, TailTokens, TailEvents, AfterEntry, Reads, EntryEvents, Comma, Lead;
    if entries == [] {
      EndReads(k, trailing, first, rest, table);
      TailEventsEnd(k, table);
    } else {
      var e, tail := entries[0], TailTokens(k, entries[1..], trailing, false) + rest;
      TailFirst(k, entries[1..], trailing, rest, table);
      MoreFirst(k, e, tail, table);
      PartReads(e.value, k, tail, table);
      PartReads(e.key, k, ValueTokens(e) + tail, table);
      EntryReads(k, e, tail, first, table);
      TailReads(k, entries[1..], trailing, false, table, rest);
      TailEventsStep(k, entries, table);
      Grouped(k, entries, trailing, first, rest);
      hide *;
    }
  }

  /** The pieces of the rest of a collection, nested to the right. */
  lemma Grouped(k: Form, entries: seq<Entry>, trailing: bool, first: bool, rest: seq<Token>)
    requires entries != []
    ensures var e, tail := entries[0], TailTokens(k, entries[1..], trailing, false) + rest;
      TailTokens(k, entries, trailing, first) + rest
      == Comma(k, first) + (Lead(k, e) + (e.passed + (NodeTokens(e.key) + (ValueTokens(e) + tail))))
  {
    hide NodeTokens, ValueTokens, Lead, TailTokens;
    TailStep(k, entries, trailing, first);
  }

  /** What comes between the key of an entry and the next entry. */
  lemma MoreFirst(k: Form, e: Entry, tail: seq<Token>, table: seq<TagDirective>)
    requires AfterEntry(k, tail)
    ensures var more := ValueTokens(e) + tail; Follows(more, k.BlockMapping?)
    ensures Follows(tail, k.BlockMapping?)
  {
    hide NodeTokens;
    assert Follows(tail, k.BlockMapping?);
    if e.valued {
      assert (ValueTokens(e) + tail)[0] == ValueTokens(e)[0] == ValueToken;
    } else {
      assert ValueTokens(e) + tail == tail;
    }
  }

  lemma {:induction false} PartReads(n: Node, k: Form, tail: seq<Token>, table: seq<TagDirective>)
    requires Fits(n, !IsFlow(k), k.BlockMapping?, table) && Follows(tail, k.BlockMapping?)
    ensures Reads(n, tail, !IsFlow(k), k.BlockMapping?, table)
    decreases n, 1
  {
    hide NodeAt;
    if n.Missing? {
      AddNothing(tail);
    } else {
      FirstToken(n, !IsFlow(k), k.BlockMapping?, table);
      NodeReads(n, !IsFlow(k), k.BlockMapping?, table, tail);
    }
  }
}
