/** The pushdown parser that turns tokens into events, and the invariant that keeps them well nested. */
module YamlParser {
  import opened Bytes
  import opened Sequences
  import opened YamlEvents
  import opened YamlTokens
  import opened YamlGrammar
  import opened YamlSources

  datatype State =
    | StreamStart
    | ImplicitDocumentStart
    | DocumentStart
    | DocumentContent
    | DocumentEnd
    | BlockNode
    | BlockNodeOrIndentlessSequence
    | FlowNode
    | BlockSequenceFirstEntry
    | BlockSequenceEntry
    | IndentlessSequenceEntry
    | BlockMappingFirstKey
    | BlockMappingKey
    | BlockMappingValue
    | FlowSequenceFirstEntry
    | FlowSequenceEntry
    | FlowSequenceEntryMappingKey
    | FlowSequenceEntryMappingValue
    | FlowSequenceEntryMappingEnd
    | FlowMappingFirstKey
    | FlowMappingKey
    | FlowMappingValue
    | FlowMappingEmptyValue
    | End

  datatype Error = NoError | ScannerError | ParserError(problem: string)

  // ----- what the state stack says about the open collections

  /** States a node can return to: each belongs to the collection or document the node is part of. */
  predicate IsReturn(s: State) {
    match s
    case BlockSequenceEntry | IndentlessSequenceEntry | BlockMappingKey | BlockMappingValue => true
    case FlowSequenceEntry | FlowSequenceEntryMappingValue | FlowSequenceEntryMappingEnd => true
    case FlowMappingKey | FlowMappingValue | FlowMappingEmptyValue => true
    case _ => false
  }

  /** States inside a collection. */
  predicate InCollection(s: State) {
    IsReturn(s) || IsFirst(s) || s == FlowSequenceEntryMappingKey
  }

  /** States entered on a collection's opening token, before that token is consumed. */
  predicate IsFirst(s: State) {
    match s
    case BlockSequenceFirstEntry | BlockMappingFirstKey | FlowSequenceFirstEntry | FlowMappingFirstKey => true
    case _ => false
  }

  /** The collections that the state itself stands for, innermost last. */
  function Now(s: State): seq<Shape> {
    match s
    case DocumentEnd => [DocDone]
    case BlockSequenceFirstEntry | BlockSequenceEntry | IndentlessSequenceEntry => [Seq]
    case FlowSequenceFirstEntry | FlowSequenceEntry => [Seq]
    case BlockMappingFirstKey | BlockMappingKey | FlowMappingFirstKey | FlowMappingKey => [MapEven]
    case BlockMappingValue | FlowMappingValue | FlowMappingEmptyValue => [MapOdd]
    case FlowSequenceEntryMappingKey | FlowSequenceEntryMappingEnd => [Seq, MapEven]
    case FlowSequenceEntryMappingValue => [Seq, MapOdd]
    case _ => []
  }

  /** The same collections while the node that will return to `s` is still being parsed. */
  function Pending(s: State): seq<Shape> {
    match s
    case DocumentEnd => [DocWanted]
    case BlockMappingKey | FlowMappingKey => [MapOdd]
    case BlockMappingValue | FlowMappingValue | FlowMappingEmptyValue => [MapEven]
    case FlowSequenceEntryMappingValue => [Seq, MapEven]
    case FlowSequenceEntryMappingEnd => [Seq, MapOdd]
    case _ => Now(s)
  }

  function Below(states: seq<State>): seq<Shape> {
    if states == [] then [] else Below(states[..|states| - 1]) + Pending(states[|states| - 1])
  }

  /** Whether the collection of state `s` keeps a mark: all do but indentless sequences. */
  function Marked(s: State): nat {
    if s == DocumentEnd || s == IndentlessSequenceEntry || IsFirst(s) || s == DocumentContent || s == BlockNode then 0 else 1
  }

  function MarksBelow(states: seq<State>): nat {
    if states == [] then 0 else MarksBelow(states[..|states| - 1]) + Marked(states[|states| - 1])
  }

  /** A stack of return states: the document at the bottom, collections above it. */
  predicate ReturnStack(states: seq<State>) {
    && states != []
    && states[0] == DocumentEnd
    && forall i :: 1 <= i < |states| ==> IsReturn(states[i])
  }

  /** Inside a document, the stacks describe the open collections and their marks. */
  predicate Inside(state: State, states: seq<State>, marks: nat, nesting: Nesting) {
    && ReturnStack(states)
    && nesting == Open(Below(states) + Now(state))
    && marks == MarksBelow(states) + Marked(state)
  }

  /** The parser's state and stacks describe exactly the nesting of the events emitted so far. */
  predicate Coherent(state: State, states: seq<State>, marks: nat, more: bool, nesting: Nesting) {
    match state
    case StreamStart => nesting == Fresh && states == [] && marks == 0
    case ImplicitDocumentStart | DocumentStart => nesting == Open([]) && states == [] && marks == 0
    case DocumentEnd => nesting == Open([DocDone]) && states == [] && marks == 0
    case End => nesting == Ended && states == []
    case _ =>
      && (InCollection(state) || state == DocumentContent || state == BlockNode)
      && Inside(state, states, marks, nesting)
      && (IsFirst(state) ==> more)
  }

  /** In a collection, the stacks are all that matters. */
  lemma CoherentInside(state: State, states: seq<State>, marks: nat, more: bool, nesting: Nesting)
    requires InCollection(state)
    ensures Coherent(state, states, marks, more, nesting) <==>
            Inside(state, states, marks, nesting) && (IsFirst(state) ==> more)
  {
    hide Inside;
  }

  /** Ready to parse a node that returns to the top of the stack. */
  predicate NodeWanted(states: seq<State>, marks: nat, nesting: Nesting) {
    && ReturnStack(states)
    && nesting == Open(Below(states))
    && marks == MarksBelow(states)
  }

  /** How many more events a state can produce without a token, stack aside. */
  function Rank(s: State): nat {
    match s
    case ImplicitDocumentStart => 11
    case FlowSequenceEntryMappingKey => 10
    case DocumentContent | BlockNode => 6
    case FlowSequenceEntryMappingValue => 2
    case DocumentEnd | FlowSequenceEntryMappingEnd | BlockMappingValue | FlowMappingValue | FlowMappingEmptyValue => 1
    case BlockSequenceFirstEntry | BlockMappingFirstKey | FlowSequenceFirstEntry | FlowMappingFirstKey => 1
    case _ => 0
  }

  // ----- how the stacks move

  lemma BelowPush(states: seq<State>, r: State)
    ensures Below(states + [r]) == Below(states) + Pending(r)
    ensures MarksBelow(states + [r]) == MarksBelow(states) + Marked(r)
  {
    assert (states + [r])[..|states|] == states;
  }

  /** Every return state waits for a node, and gets one step further when the node is complete. */
  lemma PendingStep(r: State, outer: seq<Shape>)
    requires IsReturn(r) || r == DocumentEnd
    ensures outer + Pending(r) != [] && WantsNode(outer + Pending(r))
    ensures Completed(outer + Pending(r)) == outer + Now(r)
  {
    PendingParts(r);
    hide Pending, Now, Completed, WantsNode;
    CompletedAbove(outer, Pending(r));
  }

  lemma PendingParts(r: State)
    requires IsReturn(r) || r == DocumentEnd
    ensures Pending(r) != [] && WantsNode(Pending(r)) && Completed(Pending(r)) == Now(r)
  {
  }

  lemma CompletedAbove(outer: seq<Shape>, p: seq<Shape>)
    requires p != [] && WantsNode(p)
    ensures outer + p != [] && WantsNode(outer + p) && Completed(outer + p) == outer + Completed(p)
  {
    hide Advance;
    var stack := outer + p;
    assert stack[..|stack| - 1] == outer + p[..|p| - 1] && stack[|stack| - 1] == p[|p| - 1];
  }

  /** A complete node lets the parser return to the state on top of the stack. */
  lemma Returning(states: seq<State>, marks: nat, nesting: Nesting, more: bool)
    requires NodeWanted(states, marks, nesting)
    ensures nesting.Open? && WantsNode(nesting.stack) && Rank(states[|states| - 1]) < 4
    ensures !StartsDocument(states[|states| - 1])
    ensures Coherent(states[|states| - 1], states[..|states| - 1], marks, more, Open(Completed(nesting.stack)))
  {
    hide Coherent, Completed, Now, Pending, WantsNode, Marked, IsReturn;
    var k := |states| - 1;
    var r, outer := states[k], states[..k];
    RankOfReturn(r);
    PendingStep(r, Below(outer));
    if k > 0 {
      CoherentInside(r, outer, marks, more, Open(Completed(nesting.stack)));
    } else {
      assert outer == [] && r == DocumentEnd && marks == MarksBelow(outer) + 0;
      assert Below(outer) + Now(r) == Now(r);
      AfterDocument(more);
    }
  }

  lemma RankOfReturn(r: State)
    ensures IsReturn(r) ==> Rank(r) < 4 && !IsFirst(r) && !StartsDocument(r)
    ensures Rank(DocumentEnd) < 4 && Marked(DocumentEnd) == 0
  {
  }

  lemma AfterDocument(more: bool)
    ensures Coherent(DocumentEnd, [], 0, more, Open(Now(DocumentEnd)))
  {
  }

  /** Opening a collection inside the node that is wanted. */
  lemma Opening(states: seq<State>, marks: nat, nesting: Nesting, s: State)
    requires NodeWanted(states, marks, nesting) && (IsFirst(s) || s == IndentlessSequenceEntry)
    ensures nesting.Open? && WantsNode(nesting.stack)
    ensures Coherent(s, states, marks, true, Open(nesting.stack + Now(s)))
  {
    Returning(states, marks, nesting, true);
  }

  /** Asking for a node from inside a collection: `r` is where the parser continues afterwards. */
  lemma Descending(s: State, states: seq<State>, marks: nat, nesting: Nesting, r: State)
    requires Inside(s, states, marks, nesting)
    requires IsReturn(r) && Pending(r) == Now(s) && Marked(r) == Marked(s)
    ensures NodeWanted(states + [r], marks, nesting)
  {
    BelowPush(states, r);
  }

  /** An empty node in place of a missing one moves the same collection to the state `r`. */
  lemma Filling(s: State, states: seq<State>, marks: nat, nesting: Nesting, r: State)
    requires Inside(s, states, marks, nesting)
    requires IsReturn(r) && Pending(r) == Now(s) && Marked(r) == Marked(s)
    ensures nesting.Open? && WantsNode(nesting.stack)
    ensures Inside(r, states, marks, Open(Completed(nesting.stack)))
  {
    hide Now, Pending;
    PendingStep(r, Below(states));
  }

  /** Closing a collection completes the node it was, so the parser returns below it. */
  lemma Closing(s: State, states: seq<State>, marks: nat, more: bool, nesting: Nesting, shape: Shape)
    requires Inside(s, states, marks, nesting) && Now(s) == [shape]
    ensures nesting.Open? && Close(nesting.stack, shape).Some? && Marked(s) <= marks
    ensures states != [] && Rank(states[|states| - 1]) < 4 && !StartsDocument(states[|states| - 1])
    ensures Coherent(states[|states| - 1], states[..|states| - 1], marks - Marked(s), more,
                     Close(nesting.stack, shape).value)
  {
    hide Coherent, Now, Below;
    var stack := nesting.stack;
    assert stack[..|stack| - 1] == Below(states);
    Returning(states, marks - Marked(s), Open(Below(states)), more);
  }

  /** A one-pair mapping inside a flow sequence closes and leaves the sequence. */
  lemma ClosingPair(states: seq<State>, marks: nat, nesting: Nesting)
    requires Inside(FlowSequenceEntryMappingEnd, states, marks, nesting)
    ensures nesting.Open? && Close(nesting.stack, MapEven).Some?
    ensures Inside(FlowSequenceEntry, states, marks, Close(nesting.stack, MapEven).value)
  {
    hide Below, ReturnStack, MarksBelow, Close;
    PairClosed(Below(states));
  }

  lemma PairClosed(outer: seq<Shape>)
    ensures Close(outer + [Seq, MapEven], MapEven) == Some(Open(outer + [Seq]))
  {
    var stack := outer + [Seq, MapEven];
    assert stack[..|stack| - 1] == outer + [Seq] && stack[|stack| - 1] == MapEven;
    CompletedAbove(outer, [Seq]);
    assert Completed([Seq]) == [Seq];
  }

  /** A one-pair mapping opens inside a flow sequence. */
  lemma OpeningPair(states: seq<State>, marks: nat, nesting: Nesting)
    requires Inside(FlowSequenceEntry, states, marks, nesting)
    ensures nesting.Open? && WantsNode(nesting.stack)
    ensures Inside(FlowSequenceEntryMappingKey, states, marks, Open(nesting.stack + [MapEven]))
  {
    assert Below(states) + [Seq] + [MapEven] == Below(states) + [Seq, MapEven];
  }

  /** A document opens and waits for its node. */
  lemma OpeningDocument(s: State, more: bool)
    requires s == BlockNode || s == DocumentContent
    ensures Coherent(s, [DocumentEnd], 0, more, Open([DocWanted]))
  {
    assert [DocumentEnd][..0] == [];
    assert Below([DocumentEnd]) == [] + [DocWanted];
    assert [DocWanted] + [] == [DocWanted];
    assert MarksBelow([DocumentEnd]) == 0;
  }

  lemma MarkedUnlessIndentless(s: State)
    requires InCollection(s) && !IsFirst(s)
    ensures Marked(s) == if s == IndentlessSequenceEntry then 0 else 1
  {
  }

  predicate IsOpening(t: Token) {
    t.BlockSequenceStartToken? || t.BlockMappingStartToken? || t.FlowSequenceStartToken? || t.FlowMappingStartToken?
  }

  /** The events say what the first `pos` tokens say, except for what is owed. */
  predicate Said(events: seq<Event>, owed: seq<Item>, tokens: seq<Token>, pos: nat)
    requires pos <= |tokens|
  {
    EventsSay(events) + owed == TokensSay(tokens[..pos])
  }

  /** Consuming a token is owing what it says. */
  lemma Owing(events: seq<Event>, owed: seq<Item>, tokens: seq<Token>, pos: nat)
    requires pos < |tokens| && Said(events, owed, tokens, pos)
    ensures Said(events, owed + TokenItems(tokens[pos]), tokens, pos + 1)
  {
    assert tokens[..pos + 1][..pos] == tokens[..pos];
    var said := EventsSay(events);
    assert said + (owed + TokenItems(tokens[pos])) == said + owed + TokenItems(tokens[pos]);
  }

  /** Emitting an event is saying what is owed. */
  lemma Saying(events: seq<Event>, owed: seq<Item>, tokens: seq<Token>, pos: nat, e: Event)
    requires pos <= |tokens| && Said(events, owed, tokens, pos) && owed == EventItems(e)
    ensures Said(events + [e], [], tokens, pos)
  {
    assert (events + [e])[..|events|] == events;
    assert EventsSay(events + [e]) + [] == EventsSay(events + [e]);
  }

  // ----- what the grammar expects next

  /** The production that a state is in the middle of. */
  function After(s: State, ts: seq<Token>, table: seq<TagDirective>): Parse {
    match s
    case StreamStart => YamlGrammar.Stream(ts)
    case ImplicitDocumentStart => FirstDocument(ts)
    case DocumentStart => NextDocument(ts)
    case DocumentContent => DocumentNode(ts, table)
    case DocumentEnd => YamlGrammar.DocumentEnd(ts)
    case BlockNode => NodeAt(ts, true, false, table)
    case BlockSequenceFirstEntry => if ts == [] then Stuck else BlockEntries(ts[1..], table)
    case BlockSequenceEntry => BlockEntries(ts, table)
    case IndentlessSequenceEntry => IndentlessEntries(ts, table)
    case BlockMappingFirstKey => if ts == [] then Stuck else BlockPairs(ts[1..], table)
    case BlockMappingKey => BlockPairs(ts, table)
    case BlockMappingValue => BlockValue(ts, table)
    case FlowSequenceFirstEntry => if ts == [] then Stuck else FlowItems(ts[1..], true, table)
    case FlowSequenceEntry => FlowItems(ts, false, table)
    case FlowSequenceEntryMappingKey => PairKey(ts, table)
    case FlowSequenceEntryMappingValue => PairValue(ts, table)
    case FlowSequenceEntryMappingEnd => PairEnd(ts, table)
    case FlowMappingFirstKey => if ts == [] then Stuck else FlowPairs(ts[1..], true, table)
    case FlowMappingKey => FlowPairs(ts, false, table)
    case FlowMappingValue => FlowValue(ts, table)
    case FlowMappingEmptyValue => NoFlowValue(ts, table)
    case End => Got([], ts)
    case BlockNodeOrIndentlessSequence | FlowNode => Stuck
  }

  /** A part of the text, then what the state `r` is in the middle of. */
  function Bind(p: Parse, r: State, table: seq<TagDirective>): Parse {
    if p.Stuck? then Stuck else Then(p.events, After(r, p.rest, table))
  }

  /** A part of the text, then everything that the stack of states is in the middle of. */
  function Resumed(states: seq<State>, p: Parse, table: seq<TagDirective>): Parse
    decreases |states|
  {
    if p.Stuck? || states == [] then p
    else Then(p.events, Resumed(states[..|states| - 1], After(states[|states| - 1], p.rest, table), table))
  }

  /** The grammar makes of all the tokens what has been emitted, then `p`, then what the stack expects. */
  ghost predicate Foretold(tokens: seq<Token>, events: seq<Event>, states: seq<State>, p: Parse, table: seq<TagDirective>) {
    YamlGrammar.Stream(tokens) == Then(events, Resumed(states, p, table))
  }

  /** States between documents. */
  predicate StartsDocument(s: State) {
    s.StreamStart? || s.ImplicitDocumentStart? || s.DocumentStart?
  }

  lemma ForetoldFirst(tokens: seq<Token>)
    ensures Foretold(tokens, [], [], YamlGrammar.Stream(tokens), [])
  {
    hide YamlGrammar.Stream;
    var p := YamlGrammar.Stream(tokens);
    if p.Got? { AddNothing(p.events); }
  }

  /** An event that the grammar expects is emitted. */
  lemma ForetoldEmit(tokens: seq<Token>, events: seq<Event>, states: seq<State>, e: Event, q: Parse, table: seq<TagDirective>)
    requires Foretold(tokens, events, states, Then([e], q), table)
    ensures Foretold(tokens, events + [e], states, q, table)
  {
    hide YamlGrammar.Stream, After;
    if q.Got? && states != [] {
      var more := Resumed(states[..|states| - 1], After(states[|states| - 1], q.rest, table), table);
      ThenThen([e], q.events, more);
    }
    ThenThen(events, [e], Resumed(states, q, table));
  }

  /** The last event of a node is emitted, and the state on top of the stack continues. */
  lemma ForetoldPop(tokens: seq<Token>, events: seq<Event>, states: seq<State>, e: Event, rest: seq<Token>, table: seq<TagDirective>)
    requires states != [] && Foretold(tokens, events, states, Got([e], rest), table)
    ensures Foretold(tokens, events + [e], states[..|states| - 1], After(states[|states| - 1], rest, table), table)
  {
    hide YamlGrammar.Stream, After;
    var k := |states| - 1;
    ThenThen(events, [e], Resumed(states[..k], After(states[k], rest, table), table));
  }

  /** A node is expected, and `r` after it. */
  lemma ForetoldPush(tokens: seq<Token>, events: seq<Event>, states: seq<State>, p: Parse, r: State, table: seq<TagDirective>)
    requires Foretold(tokens, events, states, Bind(p, r, table), table)
    ensures Foretold(tokens, events, states + [r], p, table)
  {
    hide YamlGrammar.Stream, After;
    var more := states + [r];
    assert more[..|more| - 1] == states;
    if p.Got? {
      var q := After(r, p.rest, table);
      assert Resumed(more, p, table) == Then(p.events, Resumed(states, q, table));
      if q.Got? && states != [] {
        ThenThen(p.events, q.events, Resumed(states[..|states| - 1], After(states[|states| - 1], q.rest, table), table));
      }
    }
  }

  lemma ForetoldStuck(tokens: seq<Token>, events: seq<Event>, states: seq<State>, table: seq<TagDirective>)
    requires Foretold(tokens, events, states, Stuck, table)
    ensures YamlGrammar.Stream(tokens).Stuck?
  {
  }

  class Parser {
    /** The tokens the scanner will deliver before it ends or fails. */
    const tokens: seq<Token>
    var pos: nat
    var state: State
    var states: seq<State>
    var marks: seq<nat>
    var tagDirectives: seq<TagDirective>
    var streamEndProduced: bool
    var error: Error
    /** All events emitted so far, and their nesting. */
    ghost var events: seq<Event>
    ghost var nesting: Nesting
    /** What the consumed tokens say that no event has said yet. */
    ghost var owed: seq<Item>
    /** What the grammar makes of the tokens that are left, up to where the stack of states continues. */
    ghost var ahead: Parse

    ghost predicate Recorded()
      reads this
    {
      && pos <= |tokens| && Run(Fresh, events) == Some(nesting)
      && Said(events, owed, tokens, pos)
    }

    ghost function Rest(): seq<Token>
      requires pos <= |tokens|
      reads this
    {
      tokens[pos..]
    }

    ghost predicate Expects()
      reads this
    {
      Foretold(tokens, events, states, ahead, tagDirectives)
    }

    /** The events always nest, and without an error the stacks say how, nothing is owed, and the state says what
        the grammar expects; with an error, the grammar does not accept the tokens. */
    ghost predicate Valid()
      reads this
    {
      && Recorded()
      && if error.NoError? then
           && owed == []
           && Coherent(state, states, |marks|, AtOpening(), nesting)
           && (streamEndProduced ==> state == End)
           && Expects() && ahead == After(state, Rest(), tagDirectives)
           && (StartsDocument(state) ==> tagDirectives == [])
         else YamlGrammar.Stream(tokens).Stuck?
    }

    predicate AtOpening()
      reads this
    {
      pos < |tokens| && IsOpening(tokens[pos])
    }

    /** One call either emits one event or fails for good. */
    twostate predicate Emitted(new r: Option<Event>)
      reads this
    {
      && (r.Some? <==> error.NoError?)
      && events == old(events) + (if r.Some? then [r.value] else [])
    }

    /** A bound on the events that can follow without consuming a token. */
    function Budget(): nat
      reads this
    {
      4 * |states| + Rank(state)
    }

    /** One call emits one event, and either consumes tokens or eats into the budget. */
    twostate predicate Stepped(new r: Option<Event>)
      reads this
    {
      && Emitted(r)
      && old(pos) <= pos
      && (r.Some? && pos == old(pos) ==> Budget() < old(Budget()))
    }

    constructor (tokens: seq<Token>)
      ensures Valid() && error.NoError? && events == [] && this.tokens == tokens
      ensures state == StreamStart
    {
      this.tokens := tokens;
      pos, state, states, marks, tagDirectives := 0, StreamStart, [], [], [];
      streamEndProduced, error := false, NoError;
      events, nesting, owed, ahead := [], Fresh, [], YamlGrammar.Stream(tokens);
      ForetoldFirst(tokens);
    }

    // ----- primitives

    method Peek() returns (t: Option<Token>)
      requires Recorded() && error.NoError? && Expects() && (pos == |tokens| ==> ahead.Stuck?)
      modifies `error
      ensures t.Some? ==> pos < |tokens| && t.value == tokens[pos] && error.NoError?
      ensures t.None? ==> error == ScannerError && Valid()
    {
      hide Foretold, YamlGrammar.Stream;
      if pos < |tokens| { return Some(tokens[pos]); }
      ForetoldStuck(tokens, events, states, tagDirectives);
      error := ScannerError;
      return None;
    }

    method Skip()
      requires Recorded() && pos < |tokens|
      modifies `pos, `streamEndProduced, `owed
      ensures Recorded() && pos == old(pos) + 1 && owed == old(owed) + TokenItems(tokens[old(pos)])
      ensures streamEndProduced == tokens[old(pos)].StreamEndToken?
    {
      hide Run, Said, TokenItems;
      Owing(events, owed, tokens, pos);
      owed := owed + TokenItems(tokens[pos]);
      streamEndProduced := tokens[pos].StreamEndToken?;
      pos := pos + 1;
    }

    /** Consumes the next token and looks at the one after it. */
    method SkipAndPeek() returns (t: Option<Token>)
      requires Recorded() && pos < |tokens| && error.NoError? && !tokens[pos].StreamEndToken?
      requires Expects() && (pos + 1 == |tokens| ==> ahead.Stuck?)
      modifies `pos, `streamEndProduced, `error, `owed
      ensures Recorded() && pos == old(pos) + 1 && !streamEndProduced && owed == old(owed) + TokenItems(tokens[old(pos)])
      ensures t.Some? ==> pos < |tokens| && t.value == tokens[pos] && error.NoError?
      ensures t.None? ==> error == ScannerError && Valid()
    {
      hide Foretold, YamlGrammar.Stream;
      Skip();
      t := Peek();
    }

    method PopState()
      requires states != []
      modifies `state, `states
      ensures state == old(states)[|old(states)| - 1] && states == old(states)[..|old(states)| - 1]
    {
      state, states := states[|states| - 1], states[..|states| - 1];
    }

    method PopMark() returns (mark: nat)
      requires marks != []
      modifies `marks
      ensures marks == old(marks)[..|old(marks)| - 1]
    {
      mark, marks := marks[|marks| - 1], marks[..|marks| - 1];
    }

    method Fail(problem: string)
      modifies `error
      ensures error.ParserError?
    {
      error := ParserError(problem);
    }

    /** An event that the grammar expects, with more to come of the same production. */
    ghost method Emit(e: Event, q: Parse)
      requires Recorded() && Feed(nesting, e).Some? && owed == EventItems(e) && Expects() && ahead == Then([e], q)
      modifies `events, `nesting, `owed, `ahead
      ensures Recorded() && events == old(events) + [e] && nesting == old(Feed(nesting, e).value) && owed == []
      ensures Expects() && ahead == q
    {
      hide Run, Feed, Said, EventItems, Foretold;
      ForetoldEmit(tokens, events, states, e, q, tagDirectives);
      ahead := q;
      Record(e);
    }

    /** The last event of a production: the state on top of the stack continues. */
    ghost method EmitLast(e: Event)
      requires Recorded() && Feed(nesting, e).Some? && owed == EventItems(e) && Expects() && ahead == Got([e], Rest()) && states != []
      modifies `events, `nesting, `owed, `ahead
      ensures Recorded() && events == old(events) + [e] && nesting == old(Feed(nesting, e).value) && owed == []
      ensures ahead == After(states[|states| - 1], Rest(), tagDirectives)
      ensures Foretold(tokens, events, states[..|states| - 1], ahead, tagDirectives)
    {
      hide Run, Feed, Said, EventItems, Foretold, After;
      ForetoldPop(tokens, events, states, e, Rest(), tagDirectives);
      ahead := After(states[|states| - 1], Rest(), tagDirectives);
      Record(e);
    }

    ghost method Record(e: Event)
      requires Recorded() && Feed(nesting, e).Some? && owed == EventItems(e)
      modifies `events, `nesting, `owed
      ensures Recorded() && events == old(events) + [e] && nesting == old(Feed(nesting, e).value) && owed == []
    {
      hide Run, Feed, Said, EventItems;
      RunStep(Fresh, events, e);
      Saying(events, owed, tokens, pos, e);
      events, nesting, owed := events + [e], Feed(nesting, e).value, [];
    }

    // ----- moving inside a collection

    /** The parser works on the collection of state `s`. */
    ghost predicate At(s: State)
      reads this
    {
      && Recorded() && error.NoError? && !streamEndProduced && owed == [] && Expects()
      && InCollection(s) && !IsFirst(s)
      && Inside(s, states, |marks|, nesting)
      && (Marked(s) == 1 ==> marks != [])
    }

    /** Between events the parser is inside the collection of its own state. */
    lemma Resume()
      requires Valid() && error.NoError? && !streamEndProduced && InCollection(state) && !IsFirst(state)
      ensures At(state) && pos <= |tokens| && Recorded() && Expects()
    {
      hide Run, Said;
      CoherentInside(state, states, |marks|, AtOpening(), nesting);
    }

    /** Ready to parse a node, or its content once its anchor is read. */
    ghost predicate Ready(anchor: Option<string>)
      reads this
    {
      && Recorded() && error.NoError? && !streamEndProduced && owed == AnchorItems(anchor) && Expects()
      && NodeWanted(states, |marks|, nesting)
    }

    /** Consumes the opening token of a collection and remembers where it was. */
    method Enter(ghost s: State)
      requires Valid() && error.NoError? && !streamEndProduced && IsFirst(state)
      requires Now(s) == Now(state) && InCollection(s) && !IsFirst(s) && Marked(s) == 1
      modifies `pos, `marks, `streamEndProduced, `owed
      ensures At(s) && pos == old(pos) + 1
    {
      hide Run, Said, Coherent, Foretold, After, YamlGrammar.Stream;
      CoherentInside(state, states, |marks|, AtOpening(), nesting);
      marks := marks + [pos];
      Skip();
    }

    /** At an entry of the collection of state `s`, the first one or a later one. */
    method Arrive(ghost s: State, first: bool)
      requires Valid() && error.NoError? && !streamEndProduced && InCollection(s) && !IsFirst(s) && Marked(s) == 1
      requires if first then IsFirst(state) && Now(s) == Now(state) else state == s
      modifies `pos, `marks, `streamEndProduced, `owed
      ensures At(s) && pos == old(pos) + (if first then 1 else 0)
      ensures pos <= |tokens| && error.NoError? && !streamEndProduced && Recorded() && Expects()
    {
      hide Run, Said, Coherent, Inside;
      if first { Enter(s); } else { Resume(); }
    }

    /** Consumes a token that says nothing, inside the collection of state `s`. */
    method Drop(ghost s: State)
      requires At(s) && pos < |tokens| && !tokens[pos].StreamEndToken? && TokenItems(tokens[pos]) == []
      modifies `pos, `streamEndProduced, `owed
      ensures At(s) && pos == old(pos) + 1 && pos <= |tokens| && !streamEndProduced && Recorded() && Expects()
    {
      hide Run, Said, Inside, Foretold;
      AddNothing(owed);
      Skip();
    }

    /** The same, looking at the token after it. */
    method Pass(ghost s: State) returns (t: Option<Token>)
      requires At(s) && pos < |tokens| && !tokens[pos].StreamEndToken? && TokenItems(tokens[pos]) == []
      requires pos + 1 == |tokens| ==> ahead.Stuck?
      modifies `pos, `streamEndProduced, `error, `owed
      ensures pos == old(pos) + 1 && pos <= |tokens| && Recorded()
      ensures t.Some? ==> At(s) && pos < |tokens| && t.value == tokens[pos] && error.NoError? && !streamEndProduced && Expects()
      ensures t.None? ==> !error.NoError? && Valid()
    {
      hide Run, Said, Inside, Foretold, YamlGrammar.Stream;
      Drop(s);
      t := Peek();
    }

    /** Gives up where the grammar does. */
    method GiveUp(problem: string)
      requires Recorded() && Expects() && ahead.Stuck?
      modifies `error
      ensures Valid() && error.ParserError?
    {
      hide Run, Said, Foretold, YamlGrammar.Stream;
      ForetoldStuck(tokens, events, states, tagDirectives);
      Fail(problem);
    }

    /** Gives up inside the collection of state `s`. */
    method Refuse(ghost s: State, problem: string)
      requires At(s) && Marked(s) == 1 && ahead.Stuck?
      modifies `marks, `error
      ensures Valid() && !error.NoError?
    {
      hide Run, Said, Inside, Foretold, YamlGrammar.Stream, Valid;
      var _ := PopMark();
      GiveUp(problem);
    }

    /** Asks for a node, after which the parser continues in state `r`. */
    method Descend(ghost s: State, r: State, ghost p: Parse)
      requires At(s) && IsReturn(r) && Pending(r) == Now(s) && Marked(r) == Marked(s) && ahead == Bind(p, r, tagDirectives)
      modifies `states, `ahead
      ensures Ready(None) && |states| == old(|states|) + 1 && ahead == p
    {
      hide Run, Said, Inside, NodeWanted, Foretold, Bind;
      Descending(s, states, |marks|, nesting, r);
      ForetoldPush(tokens, events, states, p, r, tagDirectives);
      states := states + [r];
      ahead := p;
    }

    /** Supplies an empty scalar for a missing node and continues in state `r`. */
    method Fill(ghost s: State, r: State) returns (e: Option<Event>)
      requires At(s) && IsReturn(r) && Pending(r) == Now(s) && Marked(r) == Marked(s)
      requires ahead == Then([EMPTY_SCALAR], After(r, Rest(), tagDirectives))
      modifies `state, `events, `nesting, `owed, `ahead
      ensures Valid() && Emitted(e) && state == r
      ensures e == Some(EMPTY_SCALAR)
    {
      hide Run, Said, Inside, Coherent, Now, Pending, Marked, Rank, Completed, Foretold, After, Then;
      Filling(s, states, |marks|, nesting, r);
      state := r;
      CoherentInside(r, states, |marks|, AtOpening(), Nesting.Open(Completed(nesting.stack)));
      e := Some(EMPTY_SCALAR);
      Emit(EMPTY_SCALAR, After(r, Rest(), tagDirectives));
    }

    /** Ends the innermost collection and returns below it. */
    method CloseCollection(s: State, end: Event) returns (e: Option<Event>)
      requires At(s) && ((Now(s) == [Seq] && end == SequenceEndEvent) || (Now(s) == [MapEven] && end == MappingEndEvent))
      requires ahead == Got([end], Rest())
      modifies `state, `states, `marks, `events, `nesting, `owed, `ahead
      ensures Valid() && Emitted(e) && Budget() < 4 * old(|states|)
      ensures e == Some(end)
    {
      hide Run, Said, Inside, Coherent, Now, Rank, Marked, IsReturn, IsFirst, Foretold, After;
      Closing(s, states, |marks|, AtOpening(), nesting, Now(s)[0]);
      MarkedUnlessIndentless(s);
      EmitLast(end);
      PopState();
      if s != IndentlessSequenceEntry { var _ := PopMark(); }
      e := Some(end);
    }

    // ----- nodes

    /** Emits a leaf and returns to the state on top of the stack. */
    method Leave(leaf: Event) returns (e: Option<Event>)
      requires Recorded() && error.NoError? && !streamEndProduced && NodeWanted(states, |marks|, nesting)
      requires (leaf.ScalarEvent? || leaf.AliasEvent?) && owed == EventItems(leaf) && Expects() && ahead == Got([leaf], Rest())
      modifies `state, `states, `events, `nesting, `owed, `ahead
      ensures Valid() && Emitted(e) && Budget() < 4 * old(|states|)
      ensures e == Some(leaf)
    {
      hide Run, Said, Coherent, Below, MarksBelow, Foretold, After;
      Returning(states, |marks|, nesting, AtOpening());
      EmitLast(leaf);
      PopState();
      e := Some(leaf);
    }

    /** Emits the start of a collection and continues inside it. */
    method Open(s: State, start: Event) returns (e: Option<Event>)
      requires Ready(Anchored(start)) && ((IsFirst(s) && AtOpening()) || s == IndentlessSequenceEntry)
      requires (Now(s) == [Seq] && start.SequenceStartEvent?) || (Now(s) == [MapEven] && start.MappingStartEvent?)
      requires ahead == Then([start], After(s, Rest(), tagDirectives))
      modifies `state, `events, `nesting, `owed, `ahead
      ensures Valid() && Emitted(e) && Budget() <= 4 * |states| + 1
      ensures e == Some(start)
    {
      hide Run, Said, NodeWanted, Foretold, After, Then;
      Opening(states, |marks|, nesting, s);
      state := s;
      e := Some(start);
      Emit(start, After(s, Rest(), tagDirectives));
    }

    /** The tag a handle and a suffix stand for, or an error if the handle is not declared. */
    method ResolveTag(handle: string, suffix: string) returns (tag: string)
      modifies `error
      ensures var r := Resolved(tagDirectives, handle, suffix);
        if r.Some? then tag == r.value && error == old(error) else error.ParserError?
    {
      if handle == "" { return suffix; }
      tag := "";
      var i, found := 0, false;
      assert tagDirectives[0..] == tagDirectives;
      while i < |tagDirectives| && !found
        invariant i <= |tagDirectives| && error == old(error)
        invariant !found ==> tag == "" && PrefixOf(tagDirectives, handle) == PrefixOf(tagDirectives[i..], handle)
        invariant found ==> PrefixOf(tagDirectives, handle).Some? && tag == PrefixOf(tagDirectives, handle).value + suffix
        decreases |tagDirectives| - i, !found
      {
        assert tagDirectives[i..][1..] == tagDirectives[i + 1..];
        if tagDirectives[i].handle == handle {
          tag := tagDirectives[i].prefix + suffix;
          found := true;
        } else {
          i := i + 1;
        }
      }
      if tag == "" { Fail("found undefined tag handle"); }
    }

    /** Reads an anchor and a tag in either order. */
    method Properties(ghost block: bool, ghost indentless: bool) returns (anchor: Option<string>, tag: string)
      requires Ready(None) && pos < |tokens| && !tokens[pos].AliasToken?
      requires ahead == NodeAt(Rest(), block, indentless, tagDirectives)
      modifies `pos, `streamEndProduced, `error, `owed
      ensures Recorded() && old(pos) <= pos <= |tokens| && !streamEndProduced
      ensures error.NoError? ==> ahead == ContentAt(Rest(), block, indentless, anchor, tag, tagDirectives)
      ensures !error.NoError? ==> Valid()
      ensures error.NoError? ==> pos < |tokens| && owed == AnchorItems(anchor)
      ensures error.NoError? ==>
        && (forall i :: old(pos) <= i < pos ==> IsProperty(tokens[i]))
        && anchor == AnchorIn(tokens[old(pos)..pos]) && TagIn(tokens[old(pos)..pos], tagDirectives) == Some(tag)
    {
      hide Run, Said, NodeWanted, Resolved, AnchorIn, TagTokenIn, TokenItems, ContentAt, Foretold, YamlGrammar.Stream, PropertyCount;
      var tagToken;
      ghost var ts, n := Rest(), PropertyCount(Rest());
      NodeParts(ts, block, indentless, tagDirectives);
      anchor, tagToken := PropertyTokens();
      tag := "";
      if error.NoError? {
        assert tokens[old(pos)..pos] == ts[..n] && tokens[pos..] == ts[n..];
        assert forall i :: old(pos) <= i < pos ==> tokens[i] == tokens[old(pos)..pos][i - old(pos)];
        if tagToken.Some? { tag := ResolveTag(tagToken.value.0, tagToken.value.1); }
        if !error.NoError? { ForetoldStuck(tokens, events, states, tagDirectives); }
      }
    }

    method PropertyTokens() returns (anchor: Option<string>, tagToken: Option<(string, string)>)
      requires Recorded() && error.NoError? && !streamEndProduced && owed == [] && pos < |tokens|
      requires Expects() && (PropertyCount(Rest()) == |Rest()| ==> ahead.Stuck?)
      modifies `pos, `streamEndProduced, `error, `owed
      ensures Recorded() && old(pos) <= pos <= |tokens| && !streamEndProduced
      ensures error.NoError? ==> pos < |tokens| && Read(tokens[old(pos)..pos], anchor, tagToken, owed)
      ensures error.NoError? ==> pos == old(pos) + PropertyCount(old(Rest()))
      ensures !error.NoError? ==> Valid()
    {
      hide Run, Said, Read, TokenItems, Foretold, YamlGrammar.Stream;
      anchor, tagToken := None, None;
      NoProperty(tokens, pos);
      OneProperty(tokens, pos);
      if pos + 1 < |tokens| { TwoProperties(tokens, pos); }
      var t := Some(tokens[pos]);
      if t.value.AnchorToken? {
        anchor := Some(t.value.name);
        t := SkipAndPeek();
        if t.None? { return; }
        if t.value.TagToken? {
          tagToken := Some((t.value.handle, t.value.suffix));
          t := SkipAndPeek();
        }
      } else if t.value.TagToken? {
        tagToken := Some((t.value.handle, t.value.suffix));
        t := SkipAndPeek();
        if t.None? { return; }
        if t.value.AnchorToken? {
          anchor := Some(t.value.name);
          t := SkipAndPeek();
        }
      }
    }

    /** The content of a node, once its properties are read. */
    method Content(block: bool, indentless: bool, anchor: Option<string>, tag: string) returns (e: Option<Event>)
      requires Ready(anchor) && pos < |tokens|
      requires ahead == ContentAt(Rest(), block, indentless, anchor, tag, tagDirectives)
      modifies this
      ensures Valid() && Emitted(e) && old(pos) <= pos && (e.Some? ==> Budget() <= 4 * old(|states|) + 1)
      ensures e.Some? ==> (e.value.ScalarEvent? || e.value.SequenceStartEvent? || e.value.MappingStartEvent?)
                          && e.value.anchor == anchor && e.value.tag == tag
    {
      hide Run, Said, Coherent, NodeWanted, Foretold, YamlGrammar.Stream, ContentAt, After, Then, Valid;
      var token := tokens[pos];
      ContentParts(Rest(), block, indentless, anchor, tag, tagDirectives);
      if indentless && token.BlockEntryToken? {
        e := Open(IndentlessSequenceEntry, SequenceStartEvent(anchor, tag));
      } else if token.ScalarToken? {
        Skip();
        e := Leave(ScalarEvent(anchor, tag, token.value, (tag == "" && token.plain) || tag == "!", token.plain));
      } else if token.FlowSequenceStartToken? {
        e := Open(FlowSequenceFirstEntry, SequenceStartEvent(anchor, tag));
      } else if token.FlowMappingStartToken? {
        e := Open(FlowMappingFirstKey, MappingStartEvent(anchor, tag));
      } else {
        e := BlockContent(block, indentless, anchor, tag);
      }
    }

    /** A block collection, or the empty scalar that properties alone stand for. */
    method BlockContent(block: bool, indentless: bool, anchor: Option<string>, tag: string) returns (e: Option<Event>)
      requires Ready(anchor) && pos < |tokens| && !(indentless && tokens[pos].BlockEntryToken?)
      requires !tokens[pos].ScalarToken? && !tokens[pos].FlowSequenceStartToken? && !tokens[pos].FlowMappingStartToken?
      requires ahead == ContentAt(Rest(), block, indentless, anchor, tag, tagDirectives)
      modifies this
      ensures Valid() && Emitted(e) && old(pos) <= pos && (e.Some? ==> Budget() <= 4 * old(|states|) + 1)
      ensures e.Some? ==> (e.value.ScalarEvent? || e.value.SequenceStartEvent? || e.value.MappingStartEvent?)
                          && e.value.anchor == anchor && e.value.tag == tag
    {
      hide Run, Said, Coherent, NodeWanted, Foretold, YamlGrammar.Stream, ContentAt, After, Then, Valid;
      var token := tokens[pos];
      ContentParts(Rest(), block, indentless, anchor, tag, tagDirectives);
      if block && token.BlockSequenceStartToken? {
        e := Open(BlockSequenceFirstEntry, SequenceStartEvent(anchor, tag));
      } else if block && token.BlockMappingStartToken? {
        e := Open(BlockMappingFirstKey, MappingStartEvent(anchor, tag));
      } else if (anchor.Some? && anchor.value != "") || tag != "" {
        e := Leave(ScalarEvent(anchor, tag, "", tag == "", true));
      } else {
        GiveUp("did not find expected node content");
        e := None;
      }
    }

    method Node(block: bool, indentless: bool) returns (e: Option<Event>)
      requires Ready(None) && ahead == NodeAt(Rest(), block, indentless, tagDirectives)
      modifies this
      ensures Valid() && Emitted(e) && old(pos) <= pos && (e.Some? ==> Budget() <= 4 * old(|states|) + 1)
    {
      hide Run, Said, Coherent, NodeWanted, Foretold, YamlGrammar.Stream, ContentAt, Valid;
      var t := Peek();
      if t.None? { return None; }
      if t.value.AliasToken? {
        Skip();
        e := Leave(AliasEvent(t.value.name));
        return;
      }
      var anchor, tag := Properties(block, indentless);
      if !error.NoError? { return None; }
      e := Content(block, indentless, anchor, tag);
    }

    /** Parses a node, after which the parser continues in state `r`. */
    method Child(ghost s: State, r: State, block: bool, indentless: bool) returns (e: Option<Event>)
      requires At(s) && IsReturn(r) && Pending(r) == Now(s) && Marked(r) == Marked(s)
      requires ahead == Bind(NodeAt(Rest(), block, indentless, tagDirectives), r, tagDirectives)
      modifies this
      ensures Valid() && Emitted(e) && old(pos) <= pos && (e.Some? ==> Budget() <= 4 * old(|states|) + 5)
    {
      hide Run, Said, Coherent, Inside, NodeWanted, NodeAt, Bind, Foretold;
      Descend(s, r, NodeAt(Rest(), block, indentless, tagDirectives));
      e := Node(block, indentless);
    }

    /** Consumes the closing token of the innermost collection. */
    method SkipAndClose(s: State, end: Event) returns (e: Option<Event>)
      requires At(s) && ((Now(s) == [Seq] && end == SequenceEndEvent) || (Now(s) == [MapEven] && end == MappingEndEvent))
      requires pos < |tokens| && IsClosing(tokens[pos]) && ahead == Got([end], tokens[pos + 1..])
      modifies this
      ensures Valid() && Emitted(e) && pos == old(pos) + 1
      ensures e == Some(end)
    {
      hide Run, Said, Coherent, Inside, NodeWanted, Now, Foretold;
      Skip();
      e := CloseCollection(s, end);
    }

    // ----- block collections

    method ParseBlockSequenceEntry(first: bool) returns (e: Option<Event>)
      requires Valid() && error.NoError? && !streamEndProduced
      requires state == if first then BlockSequenceFirstEntry else BlockSequenceEntry
      modifies this
      ensures Valid() && Stepped(e)
    {
      hide Run, Said, Coherent, Inside, NodeWanted, Foretold, YamlGrammar.Stream, NodeAt, After, Then, Bind, At;
      FirstEntryParts(Rest(), tagDirectives);
      Arrive(BlockSequenceEntry, first);
      e := BlockSequenceItem();
    }

    /** An entry of a block sequence, or its end. */
    method BlockSequenceItem() returns (e: Option<Event>)
      requires At(BlockSequenceEntry) && pos <= |tokens| && error.NoError? && !streamEndProduced && Recorded() && Expects()
      requires ahead == After(BlockSequenceEntry, Rest(), tagDirectives)
      modifies this
      ensures Valid() && Emitted(e) && old(pos) <= pos && (e.Some? ==> old(pos) < pos)
    {
      hide Run, Said, Coherent, Inside, NodeWanted, Foretold, YamlGrammar.Stream, NodeAt, After, Then, Bind, At, Valid;
      BlockEntryParts(Rest(), tagDirectives);
      assert pos + 1 <= |tokens| ==> Rest()[1..] == tokens[pos + 1..];
      var t := Peek();
      if t.None? { return None; }
      if t.value.BlockEntryToken? {
        t := Pass(BlockSequenceEntry);
        if t.None? { return None; }
        if !t.value.BlockEntryToken? && !t.value.BlockEndToken? {
          e := Child(BlockSequenceEntry, BlockSequenceEntry, true, false);
        } else {
          e := Fill(BlockSequenceEntry, BlockSequenceEntry);
        }
      } else if t.value.BlockEndToken? {
        e := SkipAndClose(BlockSequenceEntry, SequenceEndEvent);
      } else {
        Refuse(BlockSequenceEntry, "did not find expected '-' indicator");
        e := None;
      }
    }

    method ParseIndentlessSequenceEntry() returns (e: Option<Event>)
      requires Valid() && error.NoError? && !streamEndProduced && state == IndentlessSequenceEntry
      modifies this
      ensures Valid() && Stepped(e)
    {
      hide Run, Said, Coherent, Inside, NodeWanted, Foretold, YamlGrammar.Stream, NodeAt, After, Then, Bind, At;
      Resume();
      IndentlessEntryParts(Rest(), tagDirectives);
      assert pos + 1 <= |tokens| ==> Rest()[1..] == tokens[pos + 1..];
      var t := Peek();
      if t.None? { return None; }
      if t.value.BlockEntryToken? {
        t := Pass(IndentlessSequenceEntry);
        if t.None? { return None; }
        if !t.value.BlockEntryToken? && !t.value.KeyToken? && !t.value.ValueToken? && !t.value.BlockEndToken? {
          e := Child(IndentlessSequenceEntry, IndentlessSequenceEntry, true, false);
        } else {
          e := Fill(IndentlessSequenceEntry, IndentlessSequenceEntry);
        }
      } else {
        e := CloseCollection(IndentlessSequenceEntry, SequenceEndEvent);
      }
    }

    method ParseBlockMappingKey(first: bool) returns (e: Option<Event>)
      requires Valid() && error.NoError? && !streamEndProduced
      requires state == if first then BlockMappingFirstKey else BlockMappingKey
      modifies this
      ensures Valid() && Stepped(e)
    {
      hide Run, Said, Coherent, Inside, NodeWanted, Foretold, YamlGrammar.Stream, NodeAt, After, Then, Bind, At;
      FirstEntryParts(Rest(), tagDirectives);
      Arrive(BlockMappingKey, first);
      e := BlockMappingItem();
    }

    /** A key of a block mapping, or its end. */
    method BlockMappingItem() returns (e: Option<Event>)
      requires At(BlockMappingKey) && pos <= |tokens| && error.NoError? && !streamEndProduced && Recorded() && Expects()
      requires ahead == After(BlockMappingKey, Rest(), tagDirectives)
      modifies this
      ensures Valid() && Emitted(e) && old(pos) <= pos && (e.Some? ==> old(pos) < pos)
    {
      hide Run, Said, Coherent, Inside, NodeWanted, Foretold, YamlGrammar.Stream, NodeAt, After, Then, Bind, At, Valid;
      BlockKeyParts(Rest(), tagDirectives);
      assert pos + 1 <= |tokens| ==> Rest()[1..] == tokens[pos + 1..];
      var t := Peek();
      if t.None? { return None; }
      if t.value.KeyToken? {
        t := Pass(BlockMappingKey);
        if t.None? { return None; }
        if !t.value.KeyToken? && !t.value.ValueToken? && !t.value.BlockEndToken? {
          e := Child(BlockMappingKey, BlockMappingValue, true, true);
        } else {
          e := Fill(BlockMappingKey, BlockMappingValue);
        }
      } else if t.value.BlockEndToken? {
        e := SkipAndClose(BlockMappingKey, MappingEndEvent);
      } else {
        Refuse(BlockMappingKey, "did not find expected key");
        e := None;
      }
    }

    method ParseBlockMappingValue() returns (e: Option<Event>)
      requires Valid() && error.NoError? && !streamEndProduced && state == BlockMappingValue
      modifies this
      ensures Valid() && Stepped(e)
    {
      hide Run, Said, Coherent, Inside, NodeWanted, Foretold, YamlGrammar.Stream, NodeAt, After, Then, Bind, At;
      Resume();
      BlockValueParts(Rest(), tagDirectives);
      assert pos + 1 <= |tokens| ==> Rest()[1..] == tokens[pos + 1..];
      var t := Peek();
      if t.None? { return None; }
      if t.value.ValueToken? {
        t := Pass(BlockMappingValue);
        if t.None? { return None; }
        if !t.value.KeyToken? && !t.value.ValueToken? && !t.value.BlockEndToken? {
          e := Child(BlockMappingValue, BlockMappingKey, true, true);
          return;
        }
      }
      e := Fill(BlockMappingValue, BlockMappingKey);
    }

    // ----- flow collections

    method ParseFlowSequenceEntry(first: bool) returns (e: Option<Event>)
      requires Valid() && error.NoError? && !streamEndProduced
      requires state == if first then FlowSequenceFirstEntry else FlowSequenceEntry
      modifies this
      ensures Valid() && Stepped(e)
    {
      hide Run, Said, Coherent, Inside, NodeWanted, Foretold, YamlGrammar.Stream, NodeAt, After, Then, Bind, At;
      FirstEntryParts(Rest(), tagDirectives);
      Arrive(FlowSequenceEntry, first);
      FlowItemsParts(Rest(), first, tagDirectives);
      ghost var ts := Rest();
      var t := Peek();
      if t.None? { return None; }
      if !t.value.FlowSequenceEndToken? && !first {
        t := SkipFlowEntry(FlowSequenceEntry, "did not find expected ',' or ']'");
        if t.None? { return None; }
        assert ts[1..] == Rest();
      }
      e := FlowSequenceItem();
    }

    /** An entry of a flow sequence, or its end. */
    method FlowSequenceItem() returns (e: Option<Event>)
      requires At(FlowSequenceEntry) && pos < |tokens| && ahead == FlowItem(Rest(), tagDirectives)
      modifies this
      ensures Valid() && Emitted(e) && old(pos) <= pos
      ensures old(tokens[pos]).FlowSequenceEndToken? ==> old(pos) < pos
    {
      hide Run, Said, Coherent, Inside, NodeWanted, Foretold, YamlGrammar.Stream, NodeAt, After, Then, Bind, At, Valid;
      FlowItemParts(Rest(), tagDirectives);
      assert Rest()[1..] == tokens[pos + 1..];
      if tokens[pos].KeyToken? {
        Drop(FlowSequenceEntry);
        e := OpenPair();
      } else if !tokens[pos].FlowSequenceEndToken? {
        e := Child(FlowSequenceEntry, FlowSequenceEntry, false, false);
      } else {
        e := SkipAndClose(FlowSequenceEntry, SequenceEndEvent);
      }
    }

    /** Entries of a flow collection are separated by commas. */
    method SkipFlowEntry(ghost s: State, problem: string) returns (t: Option<Token>)
      requires At(s) && Marked(s) == 1 && pos < |tokens|
      requires !tokens[pos].FlowEntryToken? || pos + 1 == |tokens| ==> ahead.Stuck?
      modifies `pos, `streamEndProduced, `error, `owed, `marks
      ensures Recorded() && old(pos) <= pos
      ensures t.Some? ==> At(s) && pos < |tokens| && t.value == tokens[pos] && pos == old(pos) + 1 && marks == old(marks)
      ensures t.Some? ==> error.NoError? && !streamEndProduced && Expects()
      ensures t.Some? ==> tokens[old(pos)].FlowEntryToken?
      ensures t.None? ==> !error.NoError? && Valid()
    {
      hide Run, Said, Inside, Foretold, YamlGrammar.Stream;
      if !tokens[pos].FlowEntryToken? {
        Refuse(s, problem);
        return None;
      }
      t := Pass(s);
    }

    /** A key inside a flow sequence opens a mapping of one pair. */
    method OpenPair() returns (e: Option<Event>)
      requires At(FlowSequenceEntry)
      requires ahead == Then([MappingStartEvent(None, "")], After(FlowSequenceEntryMappingKey, Rest(), tagDirectives))
      modifies `state, `events, `nesting, `owed, `ahead
      ensures Valid() && Emitted(e) && state == FlowSequenceEntryMappingKey
    {
      hide Run, Said, Coherent, Inside, NodeWanted, Foretold, YamlGrammar.Stream, NodeAt;
      OpeningPair(states, |marks|, nesting);
      state := FlowSequenceEntryMappingKey;
      CoherentInside(state, states, |marks|, AtOpening(), Nesting.Open(nesting.stack + [MapEven]));
      e := Some(MappingStartEvent(None, ""));
      Emit(e.value, After(FlowSequenceEntryMappingKey, Rest(), tagDirectives));
    }

    method ParseFlowSequenceEntryMappingKey() returns (e: Option<Event>)
      requires Valid() && error.NoError? && !streamEndProduced && state == FlowSequenceEntryMappingKey
      modifies this
      ensures Valid() && Stepped(e)
    {
      hide Run, Said, Coherent, Inside, NodeWanted, Foretold, YamlGrammar.Stream, NodeAt, After, Then, Bind, At;
      Resume();
      PairKeyParts(Rest(), tagDirectives);
      assert pos + 1 <= |tokens| ==> Rest()[1..] == tokens[pos + 1..];
      var t := Peek();
      if t.None? { return None; }
      if !t.value.ValueToken? && !t.value.FlowEntryToken? && !t.value.FlowSequenceEndToken? {
        e := Child(FlowSequenceEntryMappingKey, FlowSequenceEntryMappingValue, false, false);
      } else {
        Drop(FlowSequenceEntryMappingKey);
        e := Fill(FlowSequenceEntryMappingKey, FlowSequenceEntryMappingValue);
      }
    }

    method ParseFlowSequenceEntryMappingValue() returns (e: Option<Event>)
      requires Valid() && error.NoError? && !streamEndProduced && state == FlowSequenceEntryMappingValue
      modifies this
      ensures Valid() && Stepped(e)
    {
      hide Run, Said, Coherent, Inside, NodeWanted, Foretold, YamlGrammar.Stream, NodeAt, After, Then, Bind, At;
      Resume();
      PairValueParts(Rest(), tagDirectives);
      assert pos + 1 <= |tokens| ==> Rest()[1..] == tokens[pos + 1..];
      var t := Peek();
      if t.None? { return None; }
      if t.value.ValueToken? {
        t := Pass(FlowSequenceEntryMappingValue);
        if t.None? { return None; }
        if !t.value.FlowEntryToken? && !t.value.FlowSequenceEndToken? {
          e := Child(FlowSequenceEntryMappingValue, FlowSequenceEntryMappingEnd, false, false);
          return;
        }
      }
      e := Fill(FlowSequenceEntryMappingValue, FlowSequenceEntryMappingEnd);
    }

    method ParseFlowSequenceEntryMappingEnd() returns (e: Option<Event>)
      requires Valid() && error.NoError? && !streamEndProduced && state == FlowSequenceEntryMappingEnd
      modifies this
      ensures Valid() && Stepped(e)
    {
      hide Run, Said, Coherent, Inside, NodeWanted, Foretold, YamlGrammar.Stream, NodeAt, After, Then, Bind;
      Resume();
      PairEndParts(Rest(), tagDirectives);
      assert pos + 1 <= |tokens| ==> Rest()[1..] == tokens[pos + 1..];
      var t := Peek();
      if t.None? { return None; }
      ClosingPair(states, |marks|, nesting);
      state := FlowSequenceEntry;
      CoherentInside(state, states, |marks|, AtOpening(), Close(nesting.stack, MapEven).value);
      e := Some(MappingEndEvent);
      Emit(MappingEndEvent, After(FlowSequenceEntry, Rest(), tagDirectives));
    }

    method ParseFlowMappingKey(first: bool) returns (e: Option<Event>)
      requires Valid() && error.NoError? && !streamEndProduced
      requires state == if first then FlowMappingFirstKey else FlowMappingKey
      modifies this
      ensures Valid() && Stepped(e)
    {
      hide Run, Said, Coherent, Inside, NodeWanted, Foretold, YamlGrammar.Stream, NodeAt, After, Then, Bind, At;
      FirstEntryParts(Rest(), tagDirectives);
      Arrive(FlowMappingKey, first);
      FlowPairsParts(Rest(), first, tagDirectives);
      ghost var ts := Rest();
      var t := Peek();
      if t.None? { return None; }
      if !t.value.FlowMappingEndToken? && !first {
        t := SkipFlowEntry(FlowMappingKey, "did not find expected ',' or '}'");
        if t.None? { return None; }
        assert ts[1..] == Rest();
      }
      e := FlowMappingEntry();
    }

    /** An entry of a flow mapping, or its end. */
    method FlowMappingEntry() returns (e: Option<Event>)
      requires At(FlowMappingKey) && pos < |tokens| && ahead == FlowPair(Rest(), tagDirectives)
      modifies this
      ensures Valid() && Emitted(e) && old(pos) <= pos
      ensures old(tokens[pos]).FlowMappingEndToken? ==> old(pos) < pos
    {
      hide Run, Said, Coherent, Inside, NodeWanted, Foretold, YamlGrammar.Stream, NodeAt, After, Then, Bind, At, Valid;
      FlowPairParts(Rest(), tagDirectives);
      assert Rest()[1..] == tokens[pos + 1..];
      if tokens[pos].KeyToken? {
        e := FlowMappingExplicitKey();
      } else if !tokens[pos].FlowMappingEndToken? {
        e := Child(FlowMappingKey, FlowMappingEmptyValue, false, false);
      } else {
        e := SkipAndClose(FlowMappingKey, MappingEndEvent);
      }
    }

    /** The node behind a KEY token of a flow mapping. */
    method FlowMappingExplicitKey() returns (e: Option<Event>)
      requires At(FlowMappingKey) && pos < |tokens| && tokens[pos].KeyToken? && ahead == FlowPair(Rest(), tagDirectives)
      modifies this
      ensures Valid() && Emitted(e) && old(pos) < pos
    {
      hide Run, Said, Coherent, Inside, NodeWanted, Foretold, YamlGrammar.Stream, NodeAt, After, Then, Bind, At, Valid;
      FlowPairParts(Rest(), tagDirectives);
      assert Rest()[1..] == tokens[pos + 1..];
      var t := Pass(FlowMappingKey);
      if t.None? { return None; }
      if !t.value.ValueToken? && !t.value.FlowEntryToken? && !t.value.FlowMappingEndToken? {
        e := Child(FlowMappingKey, FlowMappingValue, false, false);
      } else {
        e := Fill(FlowMappingKey, FlowMappingValue);
      }
    }

    method ParseFlowMappingValue(empty: bool) returns (e: Option<Event>)
      requires Valid() && error.NoError? && !streamEndProduced
      requires state == if empty then FlowMappingEmptyValue else FlowMappingValue
      modifies this
      ensures Valid() && Stepped(e)
    {
      hide Run, Said, Coherent, Inside, NodeWanted, Foretold, YamlGrammar.Stream, NodeAt, After, Then, Bind, At;
      Resume();
      FlowValueParts(Rest(), tagDirectives);
      assert pos + 1 <= |tokens| ==> Rest()[1..] == tokens[pos + 1..];
      var t := Peek();
      if t.None? { return None; }
      if empty {
        e := Fill(FlowMappingEmptyValue, FlowMappingKey);
        return;
      }
      if t.value.ValueToken? {
        t := Pass(FlowMappingValue);
        if t.None? { return None; }
        if !t.value.FlowEntryToken? && !t.value.FlowMappingEndToken? {
          e := Child(FlowMappingValue, FlowMappingKey, false, false);
          return;
        }
      }
      e := Fill(FlowMappingValue, FlowMappingKey);
    }

    // ----- documents

    method ParseStreamStart() returns (e: Option<Event>)
      requires Valid() && error.NoError? && !streamEndProduced && state == StreamStart
      modifies this
      ensures Valid() && Stepped(e)
    {
      hide Run, Said, Foretold, YamlGrammar.Stream, NodeAt, After, Then;
      StreamParts(Rest());
      assert pos + 1 <= |tokens| ==> Rest()[1..] == tokens[pos + 1..];
      var t := Peek();
      if t.None? { return None; }
      if !t.value.StreamStartToken? {
        GiveUp("did not find expected <stream-start>");
        return None;
      }
      state := ImplicitDocumentStart;
      e := Some(StreamStartEvent);
      Emit(StreamStartEvent, After(ImplicitDocumentStart, tokens[pos + 1..], []));
      Skip();
    }

    method AppendTagDirective(value: TagDirective, allowDuplicates: bool)
      modifies `tagDirectives, `error
      ensures tagDirectives == Declared(old(tagDirectives), value)
      ensures if HasHandle(old(tagDirectives), value.handle) && !allowDuplicates then error.ParserError? else error == old(error)
    {
      for i := 0 to |tagDirectives|
        invariant forall k :: 0 <= k < i ==> tagDirectives[k].handle != value.handle
      {
        if tagDirectives[i].handle == value.handle {
          if !allowDuplicates { Fail("found duplicate %TAG directive"); }
          return;
        }
      }
      tagDirectives := tagDirectives + [value];
    }

    /** Puts one more directive in force, if it can be declared together with those before it. */
    method Declare(t: Token, versioned: bool, ghost ds: seq<Token>, ghost table: seq<TagDirective>) returns (v: bool)
      requires error.NoError? && IsDirective(t) && Declarable(ds, table) && (versioned <==> Versioned(ds))
      requires tagDirectives == table + TagsOf(ds)
      modifies `tagDirectives, `error
      ensures if Declarable(ds + [t], table) then error.NoError? else error.ParserError?
      ensures error.NoError? ==> (v <==> Versioned(ds + [t])) && tagDirectives == table + TagsOf(ds + [t])
    {
      hide Declarable, TagsOf, HasHandle, Versioned;
      v := versioned;
      DeclareNext(ds, t, table);
      if t.VersionDirectiveToken? {
        if versioned { Fail("found duplicate %YAML directive"); return; }
        if t.major != 1 || t.minor != 1 { Fail("found incompatible YAML document"); return; }
        v := true;
        AddNothing(TagsOf(ds));
      } else {
        Regroup(table, TagsOf(ds), [TagDirective(t.handle, t.prefix)]);
        AppendTagDirective(TagDirective(t.handle, t.prefix), false);
      }
    }

    /** Consumes the directives in front of a document. It fails exactly at the first that cannot be declared
        together with those before it; otherwise all are in force, and the default tags. */
    method ProcessDirectives()
      requires Recorded() && error.NoError? && !streamEndProduced && states == [] && Expects()
      requires DirectivesFail(Rest(), tagDirectives) ==> ahead.Stuck?
      modifies `pos, `streamEndProduced, `tagDirectives, `error, `owed
      ensures Recorded() && !streamEndProduced && old(pos) <= pos && owed == old(owed) && Expects()
      ensures error.NoError? ==> pos == old(pos) + DirectiveCount(old(Rest()))
      ensures !error.NoError? ==> Valid()
      ensures forall i :: old(pos) <= i < pos ==> IsDirective(tokens[i])
      ensures Declarable(tokens[old(pos)..pos], old(tagDirectives))
      ensures error.ParserError? ==>
        pos < |tokens| && IsDirective(tokens[pos]) && !Declarable(tokens[old(pos)..pos + 1], old(tagDirectives))
      ensures error.NoError? ==>
        && pos < |tokens| && !IsDirective(tokens[pos])
        && tagDirectives == Declared(Declared(old(tagDirectives) + TagsOf(tokens[old(pos)..pos]), DEFAULT_TAG_DIRECTIVES[0]),
                                     DEFAULT_TAG_DIRECTIVES[1])
    {
      hide Run, Said, Declarable, TagsOf, HasHandle, Versioned, Foretold, YamlGrammar.Stream, DirectiveCount, Declared, Valid;
      var versioned := false;
      CountDirectives(tokens, pos, pos);
      var t := Peek();
      ghost var ds: seq<Token> := [];
      NoDirectives(tagDirectives);
      assert tokens[pos..pos] == [];
      while t.Some? && IsDirective(t.value)
        invariant Recorded() && !streamEndProduced && old(pos) <= pos && owed == old(owed) && Expects()
        invariant t.Some? ==> pos < |tokens| && t.value == tokens[pos] && error.NoError?
        invariant t.None? ==> error == ScannerError && Valid()
        invariant forall i :: old(pos) <= i < pos ==> IsDirective(tokens[i])
        invariant ds == tokens[old(pos)..pos] && Declarable(ds, old(tagDirectives))
        invariant versioned <==> Versioned(ds)
        invariant tagDirectives == old(tagDirectives) + TagsOf(ds)
        decreases |tokens| - pos
      {
        assert tokens[old(pos)..pos + 1] == ds + [t.value];
        versioned := TakeDirective(t.value, versioned, ds, old(pos), old(tagDirectives));
        if !error.NoError? { return; }
        ds := ds + [t.value];
        CountDirectives(tokens, old(pos), pos + 1);
        t := SkipAndPeek();
      }
      if t.None? { return; }
      CountDirectives(tokens, old(pos), pos);
      DeclareDefaults();
    }

    method DeclareDefaults()
      requires Recorded() && error.NoError? && states == [] && Expects()
      modifies `tagDirectives, `error
      ensures error.NoError? && Recorded() && Expects()
      ensures tagDirectives == Declared(Declared(old(tagDirectives), DEFAULT_TAG_DIRECTIVES[0]), DEFAULT_TAG_DIRECTIVES[1])
    {
      hide Run, Said, HasHandle, Foretold, Declared, Valid;
      AppendTagDirective(DEFAULT_TAG_DIRECTIVES[0], true);
      AppendTagDirective(DEFAULT_TAG_DIRECTIVES[1], true);
      ForetoldBetween(tokens, events, ahead, old(tagDirectives), tagDirectives);
    }

    /** Declares the directive at hand, one of those from `start` on. */
    method TakeDirective(t: Token, versioned: bool, ghost ds: seq<Token>, ghost start: nat, ghost table: seq<TagDirective>)
      returns (v: bool)
      requires Recorded() && error.NoError? && states == [] && Expects() && pos < |tokens| && t == tokens[pos] && start <= pos
      requires IsDirective(t) && Declarable(ds, table) && (versioned <==> Versioned(ds)) && tagDirectives == table + TagsOf(ds)
      requires ds == tokens[start..pos] && forall i :: start <= i < pos ==> IsDirective(tokens[i])
      requires DirectivesFail(tokens[start..], table) ==> ahead.Stuck?
      modifies `tagDirectives, `error
      ensures Expects() && if Declarable(ds + [t], table) then error.NoError? else error.ParserError? && Valid()
      ensures error.NoError? ==> (v <==> Versioned(ds + [t])) && tagDirectives == table + TagsOf(ds + [t])
    {
      hide Run, Said, Declarable, TagsOf, HasHandle, Versioned, Foretold, YamlGrammar.Stream, DirectiveCount;
      ghost var was := tagDirectives;
      v := Declare(t, versioned, ds, table);
      ForetoldBetween(tokens, events, ahead, was, tagDirectives);
      if !error.NoError? {
        assert tokens[start..pos + 1] == ds + [t];
        UndeclarablePrefix(tokens, start, pos + 1, table);
        ForetoldStuck(tokens, events, states, tagDirectives);
      }
    }

    /** Between two documents. */
    ghost predicate Between()
      reads this
    {
      && Recorded() && error.NoError? && !streamEndProduced && owed == [] && Expects()
      && nesting == Nesting.Open([]) && states == [] && marks == []
    }

    /** Emits DOCUMENT-START and expects one node, after which the document can end. */
    method BeginDocument(s: State) returns (e: Option<Event>)
      requires Between() && (s == BlockNode || s == DocumentContent)
      requires ahead == Then([DocumentStartEvent], Bind(After(s, Rest(), tagDirectives), DocumentEnd, tagDirectives))
      modifies `state, `states, `events, `nesting, `owed, `ahead
      ensures Valid() && Emitted(e) && Budget() == 10
    {
      hide Run, Said, Coherent, Foretold, After, Bind, Then, YamlGrammar.Stream;
      OpeningDocument(s, AtOpening());
      e := Some(DocumentStartEvent);
      ghost var p := After(s, Rest(), tagDirectives);
      Emit(DocumentStartEvent, Bind(p, DocumentEnd, tagDirectives));
      ForetoldPush(tokens, events, states, p, DocumentEnd, tagDirectives);
      ahead := p;
      states := states + [DocumentEnd];
      assert states == [DocumentEnd];
      state := s;
    }

    /** A document with directives and an explicit start. */
    method BeginExplicitDocument() returns (e: Option<Event>)
      requires Between() && tagDirectives == [] && pos < |tokens| && !tokens[pos].StreamEndToken?
      requires ahead == ExplicitDocument(Rest())
      modifies this
      ensures Valid() && Emitted(e) && old(pos) <= pos && (e.Some? ==> old(pos) < pos)
    {
      hide Run, Said, Declarable, Declared, TagsOf, Foretold, YamlGrammar.Stream, After, Then, Bind, ExplicitDocument, DirectiveCount, Valid;
      ghost var ts, n := Rest(), DirectiveCount(Rest());
      ExplicitParts(ts);
      ProcessDirectives();
      if !error.NoError? { return None; }
      assert tokens[old(pos)..pos] == ts[..n] && tokens[pos] == ts[n] && tokens[pos + 1..] == ts[n + 1..];
      AddNothing(TagsOf(ts[..n]));
      if !tokens[pos].DocumentStartToken? {
        GiveUp("did not find expected <document start>");
        return None;
      }
      Skip();
      e := BeginDocument(DocumentContent);
    }

    method EndStream() returns (e: Option<Event>)
      requires Between() && pos < |tokens| && tokens[pos].StreamEndToken? && ahead == Got([StreamEndEvent], tokens[pos + 1..])
      modifies this
      ensures Valid() && Emitted(e) && old(pos) < pos
    {
      hide Run, Said, Foretold, YamlGrammar.Stream;
      state := End;
      e := Some(StreamEndEvent);
      Skip();
      AddNothing([StreamEndEvent]);
      Emit(StreamEndEvent, Got([], Rest()));
    }

    /** Passes over extra document end indicators. */
    method SkipDocumentEnds() returns (t: Option<Token>)
      requires Recorded() && pos < |tokens| && error.NoError? && !streamEndProduced
      requires Expects() && ahead == NextDocument(Rest())
      modifies `pos, `streamEndProduced, `error, `owed
      ensures Recorded() && old(pos) <= pos <= |tokens| && !streamEndProduced && owed == old(owed)
      ensures t.Some? ==> error.NoError? && pos < |tokens| && t.value == tokens[pos]
      ensures t.Some? ==> ahead == ExplicitDocument(Rest())
      ensures t.None? ==> !error.NoError? && Valid()
    {
      hide Run, Said, Foretold, YamlGrammar.Stream, NextDocument;
      t := Some(tokens[pos]);
      while t.Some? && t.value.DocumentEndToken?
        invariant Recorded() && old(pos) <= pos <= |tokens| && !streamEndProduced && owed == old(owed)
        invariant t.Some? ==> error.NoError? && pos < |tokens| && t.value == tokens[pos] && ahead == NextDocument(Rest())
        invariant t.None? ==> !error.NoError? && Valid()
        decreases |tokens| - pos
      {
        NextParts(Rest());
        assert Rest()[1..] == tokens[pos + 1..];
        t := SkipAndPeek();
      }
      if t.Some? { NextParts(Rest()); }
    }

    method ParseDocumentStart(implicit: bool) returns (e: Option<Event>)
      requires Valid() && error.NoError? && !streamEndProduced
      requires state == if implicit then ImplicitDocumentStart else DocumentStart
      modifies this
      ensures Valid() && Stepped(e)
    {
      hide Run, Said, Declarable, Declared, TagsOf, Foretold, YamlGrammar.Stream, FirstDocument, NextDocument, ExplicitDocument, NodeAt;
      NoStream();
      StreamParts(Rest());
      assert pos == |tokens| ==> Rest() == [];
      var t := Peek();
      if t.None? { return None; }
      FirstParts(Rest());
      if !implicit {
        t := SkipDocumentEnds();
        if t.None? { return None; }
      }
      if implicit && !t.value.VersionDirectiveToken? && !t.value.TagDirectiveToken?
         && !t.value.DocumentStartToken? && !t.value.StreamEndToken? {
        BeforeDocument();
        ProcessDirectives();
        if !error.NoError? { return None; }
        e := BeginDocument(BlockNode);
      } else if !t.value.StreamEndToken? {
        e := BeginExplicitDocument();
      } else {
        LastParts(Rest());
        e := EndStream();
      }
    }

    /** A document without directives. */
    lemma BeforeDocument()
      requires pos < |tokens| && !IsDirective(tokens[pos]) && tagDirectives == []
      ensures DirectiveCount(Rest()) == 0 && !DirectivesFail(Rest(), tagDirectives)
      ensures tokens[pos..pos] == [] && TagsOf([]) == [] && [] + TagsOf([]) == []
    {
      CountDirectives(tokens, pos, pos);
      assert Rest()[..0] == [];
      NoDirectives([]);
    }

    method ParseDocumentContent() returns (e: Option<Event>)
      requires Valid() && error.NoError? && !streamEndProduced && state == DocumentContent
      modifies this
      ensures Valid() && Stepped(e)
    {
      hide Run, Said, Foretold, YamlGrammar.Stream, NodeAt, After, Then;
      assert Below(states) + [] == Below(states);
      DocumentParts(Rest(), tagDirectives);
      assert pos + 1 <= |tokens| ==> Rest()[1..] == tokens[pos + 1..];
      var t := Peek();
      if t.None? { return None; }
      if t.value.VersionDirectiveToken? || t.value.TagDirectiveToken? || t.value.DocumentStartToken?
         || t.value.DocumentEndToken? || t.value.StreamEndToken? {
        e := Leave(EMPTY_SCALAR);
      } else {
        e := Node(true, false);
      }
    }

    method ParseDocumentEnd() returns (e: Option<Event>)
      requires Valid() && error.NoError? && !streamEndProduced && state == DocumentEnd
      modifies this
      ensures Valid() && Stepped(e)
    {
      hide Run, Said, Foretold, YamlGrammar.Stream, NodeAt, After, Then;
      DocumentParts(Rest(), tagDirectives);
      assert pos + 1 <= |tokens| ==> Rest()[1..] == tokens[pos + 1..];
      var t := Peek();
      if t.None? { return None; }
      var explicit := t.value.DocumentEndToken?;
      if explicit { Skip(); }
      ForetoldBetween(tokens, events, ahead, tagDirectives, []);
      tagDirectives := [];
      state := DocumentStart;
      e := Some(DocumentEndEvent(explicit));
      Emit(e.value, After(DocumentStart, Rest(), tagDirectives));
    }

    // ----- the machine

    /** The state dispatcher. The three states that would start no production are never reached. */
    method StateMachine() returns (e: Option<Event>)
      requires Valid() && error.NoError? && !streamEndProduced && state != End
      modifies this
      ensures Valid() && Stepped(e)
    {
      hide Run, Said, Foretold, YamlGrammar.Stream, NodeAt;
      match state {
        case StreamStart => e := ParseStreamStart();
        case ImplicitDocumentStart => e := ParseDocumentStart(true);
        case DocumentStart => e := ParseDocumentStart(false);
        case DocumentContent => e := ParseDocumentContent();
        case DocumentEnd => e := ParseDocumentEnd();
        case BlockNode =>
          assert Below(states) + [] == Below(states);
          e := Node(true, false);
        case BlockSequenceFirstEntry => e := ParseBlockSequenceEntry(true);
        case BlockSequenceEntry => e := ParseBlockSequenceEntry(false);
        case IndentlessSequenceEntry => e := ParseIndentlessSequenceEntry();
        case BlockMappingFirstKey => e := ParseBlockMappingKey(true);
        case BlockMappingKey => e := ParseBlockMappingKey(false);
        case BlockMappingValue => e := ParseBlockMappingValue();
        case FlowSequenceFirstEntry => e := ParseFlowSequenceEntry(true);
        case FlowSequenceEntry => e := ParseFlowSequenceEntry(false);
        case FlowSequenceEntryMappingKey => e := ParseFlowSequenceEntryMappingKey();
        case FlowSequenceEntryMappingValue => e := ParseFlowSequenceEntryMappingValue();
        case FlowSequenceEntryMappingEnd => e := ParseFlowSequenceEntryMappingEnd();
        case FlowMappingFirstKey => e := ParseFlowMappingKey(true);
        case FlowMappingKey => e := ParseFlowMappingKey(false);
        case FlowMappingValue => e := ParseFlowMappingValue(false);
        case FlowMappingEmptyValue => e := ParseFlowMappingValue(true);
      }
    }

    /** The next event; None with no error set means that there are no more. */
    method Parse() returns (e: Option<Event>)
      requires Valid()
      modifies this
      ensures Valid() && old(pos) <= pos
      ensures events == old(events) + (if e.Some? then [e.value] else [])
      ensures old(!error.NoError?) ==> e.None? && !error.NoError?
      ensures e.None? ==> !error.NoError? || state == End
      ensures e.Some? ==> error.NoError? && (old(pos) < pos || Budget() < old(Budget()))
    {
      hide Run, Said, Coherent, Foretold, YamlGrammar.Stream, After;
      if streamEndProduced || !error.NoError? || state == End { return None; }
      e := StateMachine();
    }
  }

  /** What a run of properties amounts to, and what is owed for it. */
  predicate Read(props: seq<Token>, anchor: Option<string>, tagToken: Option<(string, string)>, owed: seq<Item>) {
    && (forall i :: 0 <= i < |props| ==> IsProperty(props[i]))
    && anchor == AnchorIn(props) && tagToken == TagTokenIn(props) && owed == AnchorItems(anchor)
  }

  lemma NoProperty(tokens: seq<Token>, i: nat)
    requires i <= |tokens|
    ensures Read(tokens[i..i], None, None, [])
  {
    assert tokens[i..i] == [];
  }

  lemma OneProperty(tokens: seq<Token>, i: nat)
    requires i < |tokens|
    ensures var t := tokens[i];
      && (t.AnchorToken? ==> Read(tokens[i..i + 1], Some(t.name), None, [] + TokenItems(t)))
      && (t.TagToken? ==> Read(tokens[i..i + 1], None, Some((t.handle, t.suffix)), [] + TokenItems(t)))
  {
    Alone(tokens[i]);
    One(tokens, i);
    assert [] + TokenItems(tokens[i]) == TokenItems(tokens[i]);
  }

  lemma Alone(t: Token)
    ensures AnchorIn([t]) == if t.AnchorToken? then Some(t.name) else None
    ensures TagTokenIn([t]) == if t.TagToken? then Some((t.handle, t.suffix)) else None
  {
    assert [t][1..] == [];
    assert AnchorIn([]) == None && TagTokenIn([]) == None;
  }

  lemma TwoProperties(tokens: seq<Token>, i: nat)
    requires i + 1 < |tokens|
    ensures var t, u := tokens[i], tokens[i + 1];
      && (t.AnchorToken? && u.TagToken? ==>
            Read(tokens[i..i + 2], Some(t.name), Some((u.handle, u.suffix)), [] + TokenItems(t) + TokenItems(u)))
      && (t.TagToken? && u.AnchorToken? ==>
            Read(tokens[i..i + 2], Some(u.name), Some((t.handle, t.suffix)), [] + TokenItems(t) + TokenItems(u)))
  {
    var t, u := tokens[i], tokens[i + 1];
    Alone(u);
    assert tokens[i..i + 2] == [t, u] && [t, u][1..] == [u];
    assert AnchorIn([t, u]) == if t.AnchorToken? then Some(t.name) else AnchorIn([u]);
    assert TagTokenIn([t, u]) == if t.TagToken? then Some((t.handle, t.suffix)) else TagTokenIn([u]);
    assert [] + TokenItems(t) + TokenItems(u) == TokenItems(t) + TokenItems(u);
  }

  /** Between documents no tags are in force. */
  lemma ForetoldBetween(tokens: seq<Token>, events: seq<Event>, p: Parse, was: seq<TagDirective>, table: seq<TagDirective>)
    requires Foretold(tokens, events, [], p, was)
    ensures Foretold(tokens, events, [], p, table)
  {
    hide YamlGrammar.Stream;
  }

  /** The directives at the start of `ts` are not followed by anything, or cannot be declared together. */
  ghost predicate DirectivesFail(ts: seq<Token>, table: seq<TagDirective>) {
    DirectiveCount(ts) == |ts| || !Declarable(ts[..DirectiveCount(ts)], table)
  }

  lemma CountDirectives(tokens: seq<Token>, a: nat, b: nat)
    requires a <= b <= |tokens| && (forall i :: a <= i < b ==> IsDirective(tokens[i]))
    ensures b - a <= DirectiveCount(tokens[a..])
    ensures b == |tokens| || !IsDirective(tokens[b]) ==> DirectiveCount(tokens[a..]) == b - a
  {
    var ts := tokens[a..];
    var n := DirectiveCount(ts);
    assert forall i :: 0 <= i < b - a ==> ts[i] == tokens[a + i];
    assert n < |ts| ==> ts[n] == tokens[a + n];
    assert b < |tokens| ==> ts[b - a] == tokens[b];
  }

  lemma UndeclarablePrefix(tokens: seq<Token>, a: nat, b: nat, table: seq<TagDirective>)
    requires a <= b <= |tokens| && (forall i :: a <= i < b ==> IsDirective(tokens[i])) && !Declarable(tokens[a..b], table)
    ensures !Declarable(tokens[a..][..DirectiveCount(tokens[a..])], table)
  {
    hide HasHandle;
    CountDirectives(tokens, a, b);
    var all, some := tokens[a..][..DirectiveCount(tokens[a..])], tokens[a..b];
    assert forall i :: 0 <= i < |some| ==> some[i] == all[i];
  }

  /** A document with an explicit start is its directives, DOCUMENT-START, and the rest. */
  lemma ExplicitParts(ts: seq<Token>)
    requires ts != [] && !ts[0].StreamEndToken?
    ensures var n := DirectiveCount(ts);
      ExplicitDocument(ts) ==
        if DirectivesFail(ts, []) || !ts[n].DocumentStartToken? then Stuck
        else var table := TableOf(ts[..n]);
             Then([DocumentStartEvent], Bind(After(DocumentContent, ts[n + 1..], table), DocumentEnd, table))
  {
    hide Declarable, TableOf, DocumentNode, YamlGrammar.DocumentEnd;
    var n := DirectiveCount(ts);
    if !DirectivesFail(ts, []) {
      var p := DocumentNode(ts[n + 1..], TableOf(ts[..n]));
      if p.Got? { ThenThen([DocumentStartEvent], p.events, YamlGrammar.DocumentEnd(p.rest)); }
    }
  }

  /** What the content of a node can be, by its first token. */
  lemma ContentParts(ts: seq<Token>, block: bool, indentless: bool, anchor: Option<string>, tag: string, table: seq<TagDirective>)
    requires ts != []
    ensures var p, t := ContentAt(ts, block, indentless, anchor, tag, table), ts[0];
      var sequence, mapping := SequenceStartEvent(anchor, tag), MappingStartEvent(anchor, tag);
      if indentless && t.BlockEntryToken? then p == Then([sequence], After(IndentlessSequenceEntry, ts, table))
      else if t.ScalarToken? then
        p == Got([ScalarEvent(anchor, tag, t.value, (tag == "" && t.plain) || tag == "!", t.plain)], ts[1..])
      else if t.FlowSequenceStartToken? then p == Then([sequence], After(FlowSequenceFirstEntry, ts, table))
      else if t.FlowMappingStartToken? then p == Then([mapping], After(FlowMappingFirstKey, ts, table))
      else if block && t.BlockSequenceStartToken? then p == Then([sequence], After(BlockSequenceFirstEntry, ts, table))
      else if block && t.BlockMappingStartToken? then p == Then([mapping], After(BlockMappingFirstKey, ts, table))
      else if (anchor.Some? && anchor.value != "") || tag != "" then p == Got([ScalarEvent(anchor, tag, "", tag == "", true)], ts)
      else p == Stuck
  {
    hide BlockEntries, IndentlessEntries, BlockPairs, FlowItems, FlowPairs, Then;
  }

  // What each state makes of the tokens ahead, one step of its production at a time.

  lemma FirstEntryParts(ts: seq<Token>, table: seq<TagDirective>)
    ensures ts == [] ==> After(BlockSequenceFirstEntry, ts, table) == After(BlockMappingFirstKey, ts, table) == Stuck
    ensures ts == [] ==> After(FlowSequenceFirstEntry, ts, table) == After(FlowMappingFirstKey, ts, table) == Stuck
    ensures ts != [] ==>
      && After(BlockSequenceFirstEntry, ts, table) == After(BlockSequenceEntry, ts[1..], table)
      && After(BlockMappingFirstKey, ts, table) == After(BlockMappingKey, ts[1..], table)
      && After(FlowSequenceFirstEntry, ts, table) == FlowItems(ts[1..], true, table)
      && After(FlowMappingFirstKey, ts, table) == FlowPairs(ts[1..], true, table)
  {
    hide BlockEntries, BlockPairs, FlowItems, FlowPairs;
  }

  lemma BlockEntryParts(ts: seq<Token>, table: seq<TagDirective>)
    ensures var p := After(BlockSequenceEntry, ts, table);
      if ts == [] then p == Stuck
      else if ts[0].BlockEndToken? then p == Got([SequenceEndEvent], ts[1..])
      else if !ts[0].BlockEntryToken? || |ts| == 1 then p == Stuck
      else p == if EndsBlockEntry(ts[1]) then Then([EMPTY_SCALAR], After(BlockSequenceEntry, ts[1..], table))
                else Bind(NodeAt(ts[1..], true, false, table), BlockSequenceEntry, table)
  {
    hide NodeAt;
  }

  lemma IndentlessEntryParts(ts: seq<Token>, table: seq<TagDirective>)
    ensures var p := After(IndentlessSequenceEntry, ts, table);
      if ts == [] then p == Stuck
      else if !ts[0].BlockEntryToken? then p == Got([SequenceEndEvent], ts)
      else if |ts| == 1 then p == Stuck
      else p == if EndsIndentlessEntry(ts[1]) then Then([EMPTY_SCALAR], After(IndentlessSequenceEntry, ts[1..], table))
                else Bind(NodeAt(ts[1..], true, false, table), IndentlessSequenceEntry, table)
  {
    hide NodeAt;
  }

  lemma BlockKeyParts(ts: seq<Token>, table: seq<TagDirective>)
    ensures var p := After(BlockMappingKey, ts, table);
      if ts == [] then p == Stuck
      else if ts[0].BlockEndToken? then p == Got([MappingEndEvent], ts[1..])
      else if !ts[0].KeyToken? || |ts| == 1 then p == Stuck
      else p == if EndsBlockPart(ts[1]) then Then([EMPTY_SCALAR], After(BlockMappingValue, ts[1..], table))
                else Bind(NodeAt(ts[1..], true, true, table), BlockMappingValue, table)
  {
    hide NodeAt, BlockValue;
  }

  lemma BlockValueParts(ts: seq<Token>, table: seq<TagDirective>)
    ensures var p := After(BlockMappingValue, ts, table);
      if ts == [] then p == Stuck
      else if !ts[0].ValueToken? then p == Then([EMPTY_SCALAR], After(BlockMappingKey, ts, table))
      else if |ts| == 1 then p == Stuck
      else p == if EndsBlockPart(ts[1]) then Then([EMPTY_SCALAR], After(BlockMappingKey, ts[1..], table))
                else Bind(NodeAt(ts[1..], true, true, table), BlockMappingKey, table)
  {
    hide NodeAt, BlockPairs;
  }

  lemma PairKeyParts(ts: seq<Token>, table: seq<TagDirective>)
    ensures var p := After(FlowSequenceEntryMappingKey, ts, table);
      if ts == [] then p == Stuck
      else if ts[0].ValueToken? || EndsFlowItem(ts[0]) then
        p == Then([EMPTY_SCALAR], After(FlowSequenceEntryMappingValue, ts[1..], table))
      else p == Bind(NodeAt(ts, false, false, table), FlowSequenceEntryMappingValue, table)
  {
    hide NodeAt, PairValue;
  }

  lemma PairValueParts(ts: seq<Token>, table: seq<TagDirective>)
    ensures var p := After(FlowSequenceEntryMappingValue, ts, table);
      if ts == [] then p == Stuck
      else if !ts[0].ValueToken? then p == Then([EMPTY_SCALAR], After(FlowSequenceEntryMappingEnd, ts, table))
      else if |ts| == 1 then p == Stuck
      else p == if EndsFlowItem(ts[1]) then Then([EMPTY_SCALAR], After(FlowSequenceEntryMappingEnd, ts[1..], table))
                else Bind(NodeAt(ts[1..], false, false, table), FlowSequenceEntryMappingEnd, table)
  {
    hide NodeAt, PairEnd;
  }

  lemma PairEndParts(ts: seq<Token>, table: seq<TagDirective>)
    ensures After(FlowSequenceEntryMappingEnd, ts, table) ==
      if ts == [] then Stuck else Then([MappingEndEvent], After(FlowSequenceEntry, ts, table))
  {
    hide FlowItems;
  }

  lemma FlowValueParts(ts: seq<Token>, table: seq<TagDirective>)
    ensures var p := After(FlowMappingValue, ts, table);
      if ts == [] then p == Stuck
      else if !ts[0].ValueToken? then p == Then([EMPTY_SCALAR], After(FlowMappingKey, ts, table))
      else if |ts| == 1 then p == Stuck
      else p == if EndsFlowPair(ts[1]) then Then([EMPTY_SCALAR], After(FlowMappingKey, ts[1..], table))
                else Bind(NodeAt(ts[1..], false, false, table), FlowMappingKey, table)
    ensures After(FlowMappingEmptyValue, ts, table) ==
      if ts == [] then Stuck else Then([EMPTY_SCALAR], After(FlowMappingKey, ts, table))
  {
    hide NodeAt, FlowPairs;
  }

  /** A flow sequence after its bracket or after an entry. */
  lemma FlowItemsParts(ts: seq<Token>, first: bool, table: seq<TagDirective>)
    ensures var p := FlowItems(ts, first, table);
      if ts == [] then p == Stuck
      else if first || ts[0].FlowSequenceEndToken? then p == FlowItem(ts, table)
      else p == if !ts[0].FlowEntryToken? || |ts| == 1 then Stuck else FlowItem(ts[1..], table)
    ensures After(FlowSequenceEntry, ts, table) == FlowItems(ts, false, table)
  {
    hide NodeAt;
    NothingLeft(table);
    assert |ts| == 1 ==> ts[1..] == [];
  }

  lemma FlowItemParts(ts: seq<Token>, table: seq<TagDirective>)
    requires ts != []
    ensures FlowItem(ts, table) ==
      if ts[0].KeyToken? then Then([MappingStartEvent(None, "")], After(FlowSequenceEntryMappingKey, ts[1..], table))
      else if ts[0].FlowSequenceEndToken? then Got([SequenceEndEvent], ts[1..])
      else Bind(NodeAt(ts, false, false, table), FlowSequenceEntry, table)
  {
    hide NodeAt, FlowItems, PairKey;
  }

  lemma FlowPairsParts(ts: seq<Token>, first: bool, table: seq<TagDirective>)
    ensures var p := FlowPairs(ts, first, table);
      if ts == [] then p == Stuck
      else if first || ts[0].FlowMappingEndToken? then p == FlowPair(ts, table)
      else p == if !ts[0].FlowEntryToken? || |ts| == 1 then Stuck else FlowPair(ts[1..], table)
    ensures After(FlowMappingKey, ts, table) == FlowPairs(ts, false, table)
  {
    hide NodeAt;
    NothingLeft(table);
    assert |ts| == 1 ==> ts[1..] == [];
  }

  lemma FlowPairParts(ts: seq<Token>, table: seq<TagDirective>)
    requires ts != []
    ensures FlowPair(ts, table) ==
      if ts[0].FlowMappingEndToken? then Got([MappingEndEvent], ts[1..])
      else if !ts[0].KeyToken? then Bind(NodeAt(ts, false, false, table), FlowMappingEmptyValue, table)
      else if |ts| == 1 then Stuck
      else if ts[1].ValueToken? || EndsFlowPair(ts[1]) then Then([EMPTY_SCALAR], After(FlowMappingValue, ts[1..], table))
      else Bind(NodeAt(ts[1..], false, false, table), FlowMappingValue, table)
  {
    hide NodeAt, FlowPairs, FlowValue;
  }

  lemma NothingLeft(table: seq<TagDirective>)
    ensures FlowItem([], table) == Stuck && FlowPair([], table) == Stuck
  {
  }

  lemma DocumentParts(ts: seq<Token>, table: seq<TagDirective>)
    ensures After(DocumentContent, ts, table) ==
      if ts == [] then Stuck
      else if EndsDocument(ts[0]) then Got([EMPTY_SCALAR], ts) else NodeAt(ts, true, false, table)
    ensures After(DocumentEnd, ts, table) ==
      if ts == [] then Stuck
      else if ts[0].DocumentEndToken? then Then([DocumentEndEvent(true)], After(DocumentStart, ts[1..], []))
      else Then([DocumentEndEvent(false)], After(DocumentStart, ts, []))
    ensures After(BlockNode, ts, table) == NodeAt(ts, true, false, table)
  {
    hide NodeAt, NextDocument;
  }

  lemma StreamParts(ts: seq<Token>)
    ensures After(StreamStart, ts, []) ==
      if ts == [] || !ts[0].StreamStartToken? then Stuck
      else Then([StreamStartEvent], After(ImplicitDocumentStart, ts[1..], []))
    ensures After(ImplicitDocumentStart, ts, []) == FirstDocument(ts) && After(DocumentStart, ts, []) == NextDocument(ts)
  {
    hide FirstDocument, NextDocument;
  }

  /** Extra DOCUMENT-END tokens are passed over. */
  lemma NextParts(ts: seq<Token>)
    requires ts != []
    ensures NextDocument(ts) == if ts[0].DocumentEndToken? then NextDocument(ts[1..]) else ExplicitDocument(ts)
    ensures |ts| == 1 && ts[0].DocumentEndToken? ==> NextDocument(ts) == Stuck
  {
    hide ExplicitDocument;
    assert |ts| == 1 ==> ts[1..] == [];
  }

  lemma FirstParts(ts: seq<Token>)
    requires ts != []
    ensures FirstDocument(ts) ==
      if IsDirective(ts[0]) || ts[0].DocumentStartToken? || ts[0].StreamEndToken? then ExplicitDocument(ts)
      else Then([DocumentStartEvent], Bind(After(BlockNode, ts, TableOf([])), DocumentEnd, TableOf([])))
  {
    hide NodeAt, ExplicitDocument, TableOf, YamlGrammar.DocumentEnd;
    var p := NodeAt(ts, true, false, TableOf([]));
    if p.Got? { ThenThen([DocumentStartEvent], p.events, YamlGrammar.DocumentEnd(p.rest)); }
  }

  lemma NoStream()
    ensures FirstDocument([]) == Stuck && NextDocument([]) == Stuck && ExplicitDocument([]) == Stuck
  {
  }

  lemma LastParts(ts: seq<Token>)
    requires ts != [] && ts[0].StreamEndToken?
    ensures ExplicitDocument(ts) == Got([StreamEndEvent], ts[1..])
  {
  }

  /** A node is its properties and its content. */
  lemma NodeParts(ts: seq<Token>, block: bool, indentless: bool, table: seq<TagDirective>)
    requires ts != [] && !ts[0].AliasToken?
    ensures var n := PropertyCount(ts); var tag := TagIn(ts[..n], table);
      NodeAt(ts, block, indentless, table) ==
        if tag.None? then Stuck else ContentAt(ts[n..], block, indentless, AnchorIn(ts[..n]), tag.value, table)
    ensures PropertyCount(ts) == |ts| ==> NodeAt(ts, block, indentless, table) == Stuck
  {
    hide TagIn, AnchorIn;
    assert PropertyCount(ts) == |ts| ==> ts[PropertyCount(ts)..] == [];
  }

  predicate IsClosing(t: Token) {
    t.BlockEndToken? || t.FlowSequenceEndToken? || t.FlowMappingEndToken?
  }

  /** The anchor of the node that an event starts. */
  function Anchored(e: Event): Option<string> {
    if e.ScalarEvent? || e.SequenceStartEvent? || e.MappingStartEvent? then e.anchor else None
  }

  /** Runs the parser over a token stream until it ends or fails; it always does one or the other. It succeeds
      exactly on the streams that can be written, and emits the events of the documents that were written. In
      either case the events nest, and what the consumed tokens say (scalars, aliases and anchors) is what the
      events say, in the same order. */
  method ParseStream(tokens: seq<Token>) returns (events: seq<Event>, n: nat, ok: bool)
    ensures Run(Fresh, events).Some? && n <= |tokens|
    ensures ok ==> exists s :: Written(s) && tokens[..n] == SourceTokens(s) && events == StreamEvents(Documents(s))
    ensures forall s :: Written(s) && SourceTokens(s) <= tokens ==>
      ok && n == |SourceTokens(s)| && events == StreamEvents(Documents(s))
    ensures ok ==> exists docs :: WellFormedDocuments(docs) && events == StreamEvents(docs)
    ensures ok ==> EventsSay(events) == TokensSay(tokens[..n])
  {
    hide Run, StreamEvents, Coherent, EventsSay, TokensSay, YamlGrammar.Stream, Foretold, Written, SourceTokens, Documents;
    var p := new Parser(tokens);
    events := [];
    while true
      invariant p.Valid() && p.tokens == tokens && events == p.events
      decreases |tokens| - p.pos, p.Budget()
    {
      var e := p.Parse();
      if e.None? {
        assert events + [] == events;
        break;
      }
      events := events + [e.value];
    }
    ok, n := p.error.NoError?, p.pos;
    if ok {
      assert EventsSay(events) + [] == EventsSay(events);
      AtTheEnd(p);
      ghost var docs := NestedStreamIsDocuments(events);
      ghost var s := SourceWritten(tokens);
      assert tokens[..n] == SourceTokens(s);
    }
    forall s | Written(s) && SourceTokens(s) <= tokens
      ensures ok && n == |SourceTokens(s)| && events == StreamEvents(Documents(s))
    {
      var k := |SourceTokens(s)|;
      assert tokens == SourceTokens(s) + tokens[k..];
      SourceReads(s, tokens[k..]);
    }
  }

  lemma AtTheEnd(p: Parser)
    requires p.Valid() && p.error.NoError? && p.state == End
    ensures p.nesting == Ended && YamlGrammar.Stream(p.tokens) == Got(p.events, p.tokens[p.pos..])
  {
    hide Run, Said, YamlGrammar.Stream;
    AddNothing(p.events);
  }
}
