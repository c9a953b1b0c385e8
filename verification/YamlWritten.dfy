/** Whatever the grammar reads was written: every node it accepts has a concrete syntax with those tokens. */
module YamlWritten {
  import opened Bytes
  import opened Sequences
  import opened YamlEvents
  import opened YamlTokens
  import opened YamlGrammar
  import opened YamlSyntax

  /** The syntax of the properties at the start of `ts`. */
  lemma PropertiesWritten(ts: seq<Token>, table: seq<TagDirective>) returns (p: Properties)
    ensures var props := ts[..PropertyCount(ts)];
      PropertyTokens(p) == props && AnchorIn(props) == p.anchor && TagIn(props, table) == TagOf(p, table)
  {
    var n := PropertyCount(ts);
    p := Properties(None, None, false);
    if n == 1 {
      assert ts[..1] == [ts[0]];
      p := if ts[0].AnchorToken? then Properties(Some(ts[0].name), None, false)
           else Properties(None, Some((ts[0].handle, ts[0].suffix)), false);
    } else if n == 2 {
      assert ts[..2] == [ts[0], ts[1]];
      p := if ts[0].AnchorToken? then Properties(Some(ts[0].name), Some((ts[1].handle, ts[1].suffix)), false)
           else Properties(Some(ts[1].name), Some((ts[0].handle, ts[0].suffix)), true);
    }
    assert PropertyTokens(p) == ts[..n];
    PropertiesRead(p, [], table);
  }

  /** The order in which the lemmas below rely on each other for the same tokens. */
  function Level(k: Form): nat { if k.Indentless? then 0 else 3 }

  lemma {:induction false} NodeWritten(ts: seq<Token>, block: bool, indentless: bool, table: seq<TagDirective>) returns (n: Node)
    requires NodeAt(ts, block, indentless, table).Got?
    ensures !n.Missing? && Fits(n, block, indentless, table)
    ensures var p := NodeAt(ts, block, indentless, table); ts == NodeTokens(n) + p.rest && p.events == NodeEvents(n, table)
    decreases |ts|, 2, 0
  {
    hide ContentAt, ContentTokens, TreeEvents, ContentTree, Resolved, AnchorIn, TagIn, ContentFits;
    var rest := NodeAt(ts, block, indentless, table).rest;
    if ts[0].AliasToken? {
      n := Alias(ts[0].name);
      assert ts == [ts[0]] + ts[1..];
      LeafEvents(AliasEvent(n.name));
    } else {
      var k := PropertyCount(ts);
      var p := PropertiesWritten(ts, table);
      var c := ContentWritten(ts[k..], block, indentless, p.anchor, TagText(p, table), table);
      n := Node(p, c);
      Prefixes(ts, k, k);
      Regroup(PropertyTokens(p), ContentTokens(c), rest);
    }
  }

  lemma {:induction false} ContentWritten(ts: seq<Token>, block: bool, indentless: bool, anchor: Option<string>, tag: string,
                                          table: seq<TagDirective>) returns (c: Content)
    requires ContentAt(ts, block, indentless, anchor, tag, table).Got?
    ensures ContentFits(c, block, indentless, table) && (c.Nothing? ==> (anchor.Some? && anchor.value != "") || tag != "")
    ensures var p := ContentAt(ts, block, indentless, anchor, tag, table);
      ts == ContentTokens(c) + p.rest && p.events == TreeEvents(ContentTree(c, anchor, tag, table))
    decreases |ts|, 1
  {
    hide NodeAt, TreesOf, BlockEntries, IndentlessEntries, BlockPairs, FlowItems, FlowPairs, TailTokens, TreeEvents, ForestEvents,
         EntriesFit, TailEvents, ContentTree, ContentTokens;
    var rest := ContentAt(ts, block, indentless, anchor, tag, table).rest;
    c := Nothing;
    if indentless && ts[0].BlockEntryToken? {
      c := CollectionWritten(Indentless, ts, anchor, tag, table);
      assert c.entries != [] by { AnyEntries(c, ts, rest); }
    } else if ts[0].ScalarToken? {
      c := Scalar(ts[0].value, ts[0].plain);
      LeafWritten(c, anchor, tag, table);
      assert ts == [ts[0]] + ts[1..];
    } else if ts[0].FlowSequenceStartToken? {
      c := CollectionWritten(FlowSequence, ts, anchor, tag, table);
    } else if ts[0].FlowMappingStartToken? {
      c := CollectionWritten(FlowMapping, ts, anchor, tag, table);
    } else if block && ts[0].BlockSequenceStartToken? {
      c := CollectionWritten(BlockSequence, ts, anchor, tag, table);
    } else if block && ts[0].BlockMappingStartToken? {
      c := CollectionWritten(BlockMapping, ts, anchor, tag, table);
    } else {
      LeafWritten(c, anchor, tag, table);
      AddNothing(ts);
    }
  }

  lemma LeafWritten(c: Content, anchor: Option<string>, tag: string, table: seq<TagDirective>)
    requires !c.Collection?
    ensures ContentTokens(c) == if c.Scalar? then [ScalarToken(c.value, c.plain)] else []
    ensures TreeEvents(ContentTree(c, anchor, tag, table)) ==
      [if c.Scalar? then ScalarEvent(anchor, tag, c.value, (tag == "" && c.plain) || tag == "!", c.plain)
       else ScalarEvent(anchor, tag, "", tag == "", true)]
  {
  }

  lemma AnyEntries(c: Content, ts: seq<Token>, rest: seq<Token>)
    requires c.Collection? && c.kind.Indentless? && ts == ContentTokens(c) + rest && |rest| < |ts|
    ensures c.entries != []
  {
  }

  /** A collection from its opening token on. */
  lemma {:induction false} CollectionWritten(k: Form, ts: seq<Token>, anchor: Option<string>, tag: string, table: seq<TagDirective>)
    returns (c: Content)
    requires ts != [] && (if k.Indentless? then ts[0].BlockEntryToken? else Opening(k) == [ts[0]])
    requires TailAt(k, if k.Indentless? then ts else ts[1..], true, table).Got?
    ensures c.Collection? && c.kind == k && EntriesFit(k, c.entries, table) && (c.trailing ==> c.entries != [])
    ensures var p := TailAt(k, if k.Indentless? then ts else ts[1..], true, table);
      && |p.rest| < |ts| && ts == ContentTokens(c) + p.rest
      && [StartEvent(k, anchor, tag)] + p.events == TreeEvents(ContentTree(c, anchor, tag, table))
    decreases |ts|, 0, 3
  {
    hide TailAt, TailTokens, TreeEvents, TreesOf, EntriesFit, TailEvents, ContentTree;
    var more := if k.Indentless? then ts else ts[1..];
    var entries, trailing := TailWritten(k, more, true, table);
    c := Collection(k, entries, trailing);
    CollectionEvents(c, anchor, tag, table);
    var rest := TailAt(k, more, true, table).rest;
    assert |rest| < |ts| by { TailShrinks(k, more, table); }
    Regroup(Opening(k), TailTokens(k, entries, trailing, true), rest);
    assert ts == Opening(k) + more;
  }

  lemma TailShrinks(k: Form, ts: seq<Token>, table: seq<TagDirective>)
    requires TailAt(k, ts, true, table).Got? && (k.Indentless? ==> ts != [] && ts[0].BlockEntryToken?)
    ensures |TailAt(k, ts, true, table).rest| < |ts|
  {
    hide BlockEntries, IndentlessEntries, BlockPairs, FlowItems, FlowPairs;
  }

  /** The end of a collection, with or without a comma before it. */
  predicate AtEnd(k: Form, ts: seq<Token>, first: bool) {
    ts != [] &&
    match k
    case BlockSequence | BlockMapping => ts[0].BlockEndToken?
    case Indentless => !ts[0].BlockEntryToken?
    case FlowSequence =>
      ts[0].FlowSequenceEndToken? || (!first && ts[0].FlowEntryToken? && |ts| > 1 && ts[1].FlowSequenceEndToken?)
    case FlowMapping =>
      ts[0].FlowMappingEndToken? || (!first && ts[0].FlowEntryToken? && |ts| > 1 && ts[1].FlowMappingEndToken?)
  }

  lemma EndWritten(k: Form, ts: seq<Token>, first: bool, table: seq<TagDirective>) returns (trailing: bool)
    requires TailAt(k, ts, first, table).Got? && AtEnd(k, ts, first)
    ensures first ==> !trailing
    ensures var p := TailAt(k, ts, first, table); ts == TailTokens(k, [], trailing, first) + p.rest && p.events == [EndEvent(k)]
  {
    hide TailAt, TailTokens;
    trailing := IsFlow(k) && ts[0].FlowEntryToken?;
    if k.Indentless? {
      IndentlessEnds(ts, first, table);
      AddNothing(ts);
    } else {
      var rest := if trailing then ts[2..] else ts[1..];
      EndSpelled(k, ts, trailing, first, rest);
      EndReads(k, trailing, first, rest, table);
    }
  }

  lemma IndentlessEnds(ts: seq<Token>, first: bool, table: seq<TagDirective>)
    requires TailAt(Indentless, ts, first, table).Got? && AtEnd(Indentless, ts, first)
    ensures TailAt(Indentless, ts, first, table) == Got([EndEvent(Indentless)], ts) && TailTokens(Indentless, [], false, first) == []
  {
    hide NodeAt;
  }

  lemma EndSpelled(k: Form, ts: seq<Token>, trailing: bool, first: bool, rest: seq<Token>)
    requires AtEnd(k, ts, first) && !k.Indentless? && trailing == (IsFlow(k) && ts[0].FlowEntryToken?)
    requires rest == if trailing then ts[2..] else ts[1..]
    ensures ts == TailTokens(k, [], trailing, first) + rest
  {
    if trailing {
      assert TailTokens(k, [], trailing, first) == [FlowEntryToken] + Closing(k);
      assert ts == [ts[0], ts[1]] + rest;
    } else {
      assert TailTokens(k, [], trailing, first) == Closing(k);
      assert ts == [ts[0]] + rest;
    }
  }

  /** The rest of a collection. */
  lemma {:induction false} TailWritten(k: Form, ts: seq<Token>, first: bool, table: seq<TagDirective>)
    returns (entries: seq<Entry>, trailing: bool)
    requires TailAt(k, ts, first, table).Got?
    ensures EntriesFit(k, entries, table) && (first && trailing ==> entries != [])
    ensures var p := TailAt(k, ts, first, table);
      ts == TailTokens(k, entries, trailing, first) + p.rest && p.events == TailEvents(k, entries, table)
    decreases |ts|, Level(k), 2
  {
    hide TailAt, TailTokens, TailEvents, EntryEvents, Comma, Lead, EntryTokens, EntryFits;
    if AtEnd(k, ts, first) {
      trailing := EndWritten(k, ts, first, table);
      entries := [];
      TailEventsEnd(k, table);
    } else {
      var e, tail := EntryWritten(k, ts, first, table);
      var more;
      more, trailing := TailWritten(k, tail, false, table);
      entries := [e] + more;
      assert entries[1..] == more;
      TailEventsStep(k, entries, table);
      assert TailTokens(k, entries, trailing, first) == Comma(k, first) + EntryTokens(k, e) + TailTokens(k, more, trailing, false)
        by { TailTokensStep(k, entries, trailing, first); }
      var p := TailAt(k, tail, false, table);
      Regroup(Comma(k, first) + EntryTokens(k, e), TailTokens(k, more, trailing, false), p.rest);
    }
  }

  lemma TailTokensStep(k: Form, entries: seq<Entry>, trailing: bool, first: bool)
    requires entries != []
    ensures TailTokens(k, entries, trailing, first)
         == Comma(k, first) + EntryTokens(k, entries[0]) + TailTokens(k, entries[1..], trailing, false)
  {
    hide EntryTokens;
  }

  /** The first entry and what comes after it. */
  ghost predicate Splits(k: Form, ts: seq<Token>, first: bool, table: seq<TagDirective>, e: Entry, tail: seq<Token>) {
    && EntryFits(k, e, table) && ts == Comma(k, first) + EntryTokens(k, e) + tail && |tail| < |ts|
    && TailAt(k, ts, first, table) == Then(EntryEvents(k, e, table), TailAt(k, tail, false, table))
  }

  lemma {:induction false} EntryWritten(k: Form, ts: seq<Token>, first: bool, table: seq<TagDirective>) returns (e: Entry, tail: seq<Token>)
    requires TailAt(k, ts, first, table).Got? && !AtEnd(k, ts, first)
    ensures Splits(k, ts, first, table, e, tail)
    decreases |ts|, Level(k), 1
  {
    hide NodeAt, Splits;
    match k {
      case BlockSequence => e, tail := BlockEntryWritten(k, ts, first, table);
      case Indentless => e, tail := BlockEntryWritten(k, ts, first, table);
      case BlockMapping => e, tail := BlockPairWritten(ts, first, table);
      case FlowSequence => e, tail := FlowItemWritten(ts, first, table);
      case FlowMapping => e, tail := FlowPairWritten(ts, first, table);
    }
  }

  /** A node at the start of `ts`, or none where `ts` begins with a token that ends the part. */
  lemma {:induction false} PartWritten(ts: seq<Token>, missing: bool, block: bool, indentless: bool, table: seq<TagDirective>)
    returns (n: Node, tail: seq<Token>)
    requires !missing ==> NodeAt(ts, block, indentless, table).Got?
    ensures Fits(n, block, indentless, table) && n.Missing? == missing && ts == NodeTokens(n) + tail
    ensures missing ==> tail == ts && NodeEvents(n, table) == [EMPTY_SCALAR]
    ensures !missing ==> NodeAt(ts, block, indentless, table) == Got(NodeEvents(n, table), tail) && |tail| < |ts|
    decreases |ts|, 2, 1
  {
    hide NodeAt;
    if missing {
      n, tail := Missing, ts;
      AddNothing(ts);
      LeafEvents(EMPTY_SCALAR);
    } else {
      n := NodeWritten(ts, block, indentless, table);
      tail := NodeAt(ts, block, indentless, table).rest;
    }
  }

  lemma {:induction false} BlockEntryWritten(k: Form, ts: seq<Token>, first: bool, table: seq<TagDirective>)
    returns (e: Entry, tail: seq<Token>)
    requires k.BlockSequence? || k.Indentless?
    requires TailAt(k, ts, first, table).Got? && !AtEnd(k, ts, first)
    ensures Splits(k, ts, first, table, e, tail)
    decreases |ts|, Level(k), 0
  {
    hide NodeAt, NodeTokens, NodeEvents, Fits, EntryEvents;
    assert |ts| > 1 && ts[0].BlockEntryToken?;
    var missing := if k.BlockSequence? then EndsBlockEntry(ts[1]) else EndsIndentlessEntry(ts[1]);
    var n;
    n, tail := PartWritten(ts[1..], missing, true, false, table);
    assert TailAt(k, ts, first, table) == Then(NodeEvents(n, table), TailAt(k, tail, false, table));
    hide TailAt, AtEnd;
    e := Entry(false, [], n, false, Missing);
    MissingFits(true, false, table);
    EntryEventsAre(k, e, table);
    EntrySpelled(k, ts, e, tail);
  }

  /** The tokens of an entry of a block collection. */
  lemma EntrySpelled(k: Form, ts: seq<Token>, e: Entry, tail: seq<Token>)
    requires !IsFlow(k) && e.passed == [] && ts != [] && Lead(k, e) == [ts[0]]
    requires ts[1..] == NodeTokens(e.key) + (ValueTokens(e) + tail)
    ensures forall first :: ts == Comma(k, first) + EntryTokens(k, e) + tail
  {
    hide NodeTokens, ValueTokens, Lead;
    assert ts == [ts[0]] + ts[1..];
    assert EntryTokens(k, e) + tail == [ts[0]] + (NodeTokens(e.key) + (ValueTokens(e) + tail));
    assert Comma(k, true) == Comma(k, false) == [];
    AddNothing(EntryTokens(k, e));
  }

  lemma MissingFits(block: bool, indentless: bool, table: seq<TagDirective>)
    ensures Fits(Missing, block, indentless, table)
  {
  }

  lemma {:induction false} BlockPairWritten(ts: seq<Token>, first: bool, table: seq<TagDirective>)
    returns (e: Entry, tail: seq<Token>)
    requires TailAt(BlockMapping, ts, first, table).Got? && !AtEnd(BlockMapping, ts, first)
    ensures Splits(BlockMapping, ts, first, table, e, tail)
    decreases |ts|, Level(BlockMapping), 0
  {
    hide NodeAt, NodeTokens, NodeEvents, Fits, BlockValue, EntryEvents;
    assert |ts| > 1 && ts[0].KeyToken?;
    var key, more := PartWritten(ts[1..], EndsBlockPart(ts[1]), true, true, table);
    assert BlockPairs(ts, table) == Then(NodeEvents(key, table), BlockValue(more, table));
    hide AtEnd, BlockPairs;
    var valued, value;
    valued, value, tail := BlockValueWritten(more, table);
    e := Entry(true, [], key, valued, value);
    EntryEventsAre(BlockMapping, e, table);
    ThenThen(NodeEvents(key, table), NodeEvents(value, table), BlockPairs(tail, table));
    EntrySpelled(BlockMapping, ts, e, tail);
  }

  lemma {:induction false} BlockValueWritten(ts: seq<Token>, table: seq<TagDirective>) returns (valued: bool, value: Node, tail: seq<Token>)
    requires BlockValue(ts, table).Got?
    ensures Fits(value, true, true, table) && (!valued ==> value.Missing?) && |tail| <= |ts|
    ensures ts == (if valued then [ValueToken] + NodeTokens(value) else []) + tail
    ensures BlockValue(ts, table) == Then(NodeEvents(value, table), BlockPairs(tail, table))
    decreases |ts|, 2, 2
  {
    hide NodeAt, NodeTokens, NodeEvents, Fits, BlockPairs;
    valued := ts[0].ValueToken?;
    if valued {
      value, tail := PartWritten(ts[1..], EndsBlockPart(ts[1]), true, true, table);
      assert ts == [ts[0]] + ts[1..];
    } else {
      value, tail := PartWritten(ts, true, true, true, table);
      AddNothing(ts);
    }
  }

  lemma {:induction false} PairValueWritten(ts: seq<Token>, table: seq<TagDirective>) returns (valued: bool, value: Node, tail: seq<Token>)
    requires PairValue(ts, table).Got?
    ensures Fits(value, false, false, table) && (!valued ==> value.Missing?) && |tail| <= |ts|
    ensures ts == (if valued then [ValueToken] + NodeTokens(value) else []) + tail
    ensures PairValue(ts, table) == Then(NodeEvents(value, table) + [MappingEndEvent], FlowItems(tail, false, table))
    decreases |ts|, 2, 2
  {
    hide NodeAt, NodeTokens, NodeEvents, Fits, FlowItems;
    valued := ts[0].ValueToken?;
    if valued {
      value, tail := PartWritten(ts[1..], EndsFlowItem(ts[1]), false, false, table);
      assert ts == [ts[0]] + ts[1..];
    } else {
      value, tail := PartWritten(ts, true, false, false, table);
      AddNothing(ts);
    }
    assert PairValue(ts, table) == Then(NodeEvents(value, table), PairEnd(tail, table));
    ThenThen(NodeEvents(value, table), [MappingEndEvent], FlowItems(tail, false, table));
  }

  lemma {:induction false} FlowValueWritten(ts: seq<Token>, table: seq<TagDirective>) returns (valued: bool, value: Node, tail: seq<Token>)
    requires FlowValue(ts, table).Got?
    ensures Fits(value, false, false, table) && (!valued ==> value.Missing?) && |tail| <= |ts|
    ensures ts == (if valued then [ValueToken] + NodeTokens(value) else []) + tail
    ensures FlowValue(ts, table) == Then(NodeEvents(value, table), FlowPairs(tail, false, table))
    decreases |ts|, 2, 2
  {
    hide NodeAt, NodeTokens, NodeEvents, Fits, FlowPairs;
    valued := ts[0].ValueToken?;
    if valued {
      value, tail := PartWritten(ts[1..], EndsFlowPair(ts[1]), false, false, table);
      assert ts == [ts[0]] + ts[1..];
    } else {
      value, tail := PartWritten(ts, true, false, false, table);
      AddNothing(ts);
    }
  }

  /** Behind the comma of a flow collection, if there is one. */
  lemma BehindComma(k: Form, ts: seq<Token>, first: bool, table: seq<TagDirective>) returns (us: seq<Token>)
    requires IsFlow(k) && TailAt(k, ts, first, table).Got? && !AtEnd(k, ts, first)
    ensures ts == Comma(k, first) + us && us != [] && |us| <= |ts|
    ensures TailAt(k, ts, first, table) == if k.FlowSequence? then FlowItem(us, table) else FlowPair(us, table)
    ensures !us[0].FlowSequenceEndToken? || !k.FlowSequence?
    ensures !us[0].FlowMappingEndToken? || !k.FlowMapping?
  {
    hide NodeAt;
    us := if first then ts else ts[1..];
    NoFlowItem(table);
    FlowItemsFirst(ts, first, table);
    FlowPairsFirst(ts, first, table);
    AddNothing(ts);
    assert !first ==> ts == [ts[0]] + ts[1..];
  }

  lemma {:induction false} FlowItemWritten(ts: seq<Token>, first: bool, table: seq<TagDirective>)
    returns (e: Entry, tail: seq<Token>)
    requires TailAt(FlowSequence, ts, first, table).Got? && !AtEnd(FlowSequence, ts, first)
    ensures Splits(FlowSequence, ts, first, table, e, tail)
    decreases |ts|, Level(FlowSequence), 0
  {
    hide NodeAt, NodeTokens, NodeEvents, Fits, FlowItems, PairValue, EntryEvents, Then, TailAt, Comma, AtEnd;
    var us := BehindComma(FlowSequence, ts, first, table);
    MissingFits(false, false, table);
    if us[0].KeyToken? {
      e, tail := PairWritten(us, table);
    } else {
      var n;
      n, tail := PartWritten(us, false, false, false, table);
      e := Entry(false, [], n, false, Missing);
      EntryEventsAre(FlowSequence, e, table);
      assert EntryTokens(FlowSequence, e) == NodeTokens(n);
    }
    Regroup(Comma(FlowSequence, first), EntryTokens(FlowSequence, e), tail);
    assert TailAt(FlowSequence, tail, false, table) == FlowItems(tail, false, table) by { TailIs(tail, table); }
  }

  lemma TailIs(ts: seq<Token>, table: seq<TagDirective>)
    ensures TailAt(FlowSequence, ts, false, table) == FlowItems(ts, false, table)
    ensures TailAt(FlowMapping, ts, false, table) == FlowPairs(ts, false, table)
  {
  }

  /** A single pair in a flow sequence. */
  lemma {:induction false} PairWritten(us: seq<Token>, table: seq<TagDirective>) returns (e: Entry, tail: seq<Token>)
    requires us != [] && us[0].KeyToken? && FlowItem(us, table).Got?
    ensures EntryFits(FlowSequence, e, table) && us == EntryTokens(FlowSequence, e) + tail && |tail| < |us|
    ensures FlowItem(us, table) == Then(EntryEvents(FlowSequence, e, table), FlowItems(tail, false, table))
    decreases |us|, 2, 3
  {
    hide PairKey, PairValue, FlowItems, NodeAt, NodeTokens, NodeEvents, EntryEvents, Fits, EntryTokens;
    assert FlowItem(us, table) == Then([MappingStartEvent(None, "")], PairKey(us[1..], table));
    hide FlowItem;
    var passed, key, more := PairKeyWritten(us[1..], table);
    var valued, value;
    valued, value, tail := PairValueWritten(more, table);
    e := Entry(true, passed, key, valued, value);
    EntryEventsAre(FlowSequence, e, table);
    PairSpelled(us, e, more, tail);
    hide Then;
    var start, last, items := [MappingStartEvent(None, "")], NodeEvents(value, table) + [MappingEndEvent], FlowItems(tail, false, table);
    ThenThen(NodeEvents(key, table), last, items);
    ThenThen(start, NodeEvents(key, table) + last, items);
    PairEvents(NodeEvents(key, table), NodeEvents(value, table));
  }

  lemma {:induction false} PairKeyWritten(ts: seq<Token>, table: seq<TagDirective>)
    returns (passed: seq<Token>, key: Node, more: seq<Token>)
    requires PairKey(ts, table).Got?
    ensures Fits(key, false, false, table) && |more| <= |ts| && ts == passed + (NodeTokens(key) + more)
    ensures if key.Missing? then |passed| == 1 && (passed[0].ValueToken? || EndsFlowItem(passed[0])) else passed == []
    ensures PairKey(ts, table) == Then(NodeEvents(key, table), PairValue(more, table)) && PairValue(more, table).Got?
    decreases |ts|, 2, 2
  {
    hide PairValue, NodeAt, NodeTokens, NodeEvents, Fits;
    var missing := ts[0].ValueToken? || EndsFlowItem(ts[0]);
    passed := if missing then [ts[0]] else [];
    key, more := PartWritten(if missing then ts[1..] else ts, missing, false, false, table);
    if missing {
      assert ts == [ts[0]] + ts[1..];
    } else {
      AddNothing(ts);
    }
  }

  lemma PairSpelled(us: seq<Token>, e: Entry, more: seq<Token>, tail: seq<Token>)
    requires us != [] && us[0].KeyToken? && e.keyed
    requires us[1..] == e.passed + (NodeTokens(e.key) + more) && more == ValueTokens(e) + tail
    ensures us == EntryTokens(FlowSequence, e) + tail && us == EntryTokens(FlowMapping, e) + tail
  {
    hide NodeTokens, ValueTokens;
    assert us == [us[0]] + us[1..];
  }

  lemma {:induction false} FlowPairWritten(ts: seq<Token>, first: bool, table: seq<TagDirective>)
    returns (e: Entry, tail: seq<Token>)
    requires TailAt(FlowMapping, ts, first, table).Got? && !AtEnd(FlowMapping, ts, first)
    ensures Splits(FlowMapping, ts, first, table, e, tail)
    decreases |ts|, Level(FlowMapping), 0
  {
    hide FlowPairs, FlowPair, EntryEvents, EntryTokens, EntryFits, TailAt, Comma, AtEnd, Then;
    var us := BehindComma(FlowMapping, ts, first, table);
    if us[0].KeyToken? {
      e, tail := KeyedPairWritten(us, table);
    } else {
      e, tail := LonePairWritten(us, table);
    }
    Regroup(Comma(FlowMapping, first), EntryTokens(FlowMapping, e), tail);
    TailIs(tail, table);
  }

  lemma {:induction false} KeyedPairWritten(us: seq<Token>, table: seq<TagDirective>) returns (e: Entry, tail: seq<Token>)
    requires us != [] && us[0].KeyToken? && FlowPair(us, table).Got?
    ensures EntryFits(FlowMapping, e, table) && us == EntryTokens(FlowMapping, e) + tail && |tail| < |us|
    ensures FlowPair(us, table) == Then(EntryEvents(FlowMapping, e, table), FlowPairs(tail, false, table))
    decreases |us|, 2, 3
  {
    hide NodeAt, NodeTokens, NodeEvents, Fits, FlowPairs, FlowValue, EntryEvents, EntryTokens;
    assert |us| > 1;
    var key, more := PartWritten(us[1..], us[1].ValueToken? || EndsFlowPair(us[1]), false, false, table);
    assert FlowPair(us, table) == Then(NodeEvents(key, table), FlowValue(more, table));
    hide FlowPair;
    var valued, value;
    valued, value, tail := FlowValueWritten(more, table);
    e := Entry(true, [], key, valued, value);
    EntryEventsAre(FlowMapping, e, table);
    ThenThen(NodeEvents(key, table), NodeEvents(value, table), FlowPairs(tail, false, table));
    AddNothing(NodeTokens(key) + more);
    PairSpelled(us, e, more, tail);
  }

  lemma {:induction false} LonePairWritten(us: seq<Token>, table: seq<TagDirective>) returns (e: Entry, tail: seq<Token>)
    requires us != [] && !us[0].KeyToken? && !us[0].FlowMappingEndToken? && FlowPair(us, table).Got?
    ensures EntryFits(FlowMapping, e, table) && us == EntryTokens(FlowMapping, e) + tail && |tail| < |us|
    ensures FlowPair(us, table) == Then(EntryEvents(FlowMapping, e, table), FlowPairs(tail, false, table))
    decreases |us|, 2, 3
  {
    hide NodeAt, NodeTokens, NodeEvents, Fits, FlowPairs, EntryEvents, EntryTokens;
    var key;
    key, tail := PartWritten(us, false, false, false, table);
    assert FlowPair(us, table) == Then(NodeEvents(key, table), NoFlowValue(tail, table));
    hide FlowPair;
    e := Entry(false, [], key, false, Missing);
    LoneTokens(key);
    MissingFits(false, false, table);
    MissingEvents(table);
    EntryEventsAre(FlowMapping, e, table);
    ThenThen(NodeEvents(key, table), [EMPTY_SCALAR], FlowPairs(tail, false, table));
  }

  lemma LoneTokens(key: Node)
    ensures EntryTokens(FlowMapping, Entry(false, [], key, false, Missing)) == NodeTokens(key)
  {
    hide NodeTokens;
    AddNothing(NodeTokens(key));
  }

  lemma MissingEvents(table: seq<TagDirective>)
    ensures NodeEvents(Missing, table) == [EMPTY_SCALAR]
  {
    LeafEvents(EMPTY_SCALAR);
  }
}
