/** The token side of the scanner: the queue, the simple keys, the indentation stack, and the fetchers
    that drive them. What the characters spell is taken as given, one lexeme at a time. */
module YamlScanner {
  import opened Bytes
  import opened Sequences
  import opened YamlTokens
  import opened YamlTokenStream
  import opened YamlLexemes

  class Scanner {
    var input: seq<Lexeme>
    var mark: Mark
    var tokens: seq<Token>
    var capacity: nat
    var tokensHead: nat
    var tokensParsed: nat
    var tokenAvailable: bool
    var streamStartProduced: bool
    var streamEndProduced: bool
    var indent: int
    var indents: seq<int>
    var simpleKeys: seq<SimpleKey>
    var simpleKeyAllowed: bool
    var flowLevel: nat
    ghost var delivered: seq<Token>
    ghost var scanned: seq<Lexeme>           // the lexemes consumed
    ghost const text: seq<Lexeme>            // all of them

    // ----- invariants

    /** What is left to fetch. */
    ghost function Work(): nat
      reads this
    {
      |input| + if streamStartProduced then 0 else 1
    }

    ghost predicate Queue()
      reads this
    {
      tokensHead <= |tokens| <= capacity && |delivered| == tokensParsed
    }

    /** Every token so far: those handed to the parser, then those in the queue. */
    ghost function Stream(): seq<Token>
      requires tokensHead <= |tokens|
      reads this
    {
      delivered + tokens[tokensHead..]
    }

    /** What matters of the state for the tokens to come. */
    ghost function View(): Scanning
      requires tokensHead <= |tokens|
      reads this
    {
      Scanning(Stream(), indent, indents, simpleKeys, simpleKeyAllowed, flowLevel)
    }

    ghost predicate Blocks()
      requires Queue()
      reads this
    {
      Rising(indents + [indent]) && Depth(Stream()) == |indents| && NeverNegative(Stream())
    }

    ghost predicate Keys()
      requires Queue()
      reads this
    {
      |simpleKeys| == flowLevel + 1 && KeysInOrder(simpleKeys, tokensParsed, Stream())
    }

    ghost predicate Started()
      reads this
    {
      Queue() && Blocks() && Keys()
    }

    /** No key may yet turn out to begin at the head of the queue. */
    ghost predicate HeadSettled()
      reads this
    {
      forall i :: 0 <= i < |simpleKeys| && simpleKeys[i].possible ==> simpleKeys[i].number != tokensParsed
    }

    ghost predicate Valid()
      reads this
    {
      && Queue() && (forall i :: 0 <= i < |input| ==> Proper(input[i])) && text == scanned + input
      && (streamStartProduced ==> Started() && Kept(Stream()) == [StreamStartToken] + LexemeTokens(scanned))
      && (!streamStartProduced ==> Stream() == [] && indents == [] && simpleKeys == [] && flowLevel == 0 && scanned == [])
      && (tokenAvailable ==> tokensHead < |tokens| && HeadSettled())
      && Tracked()
    }

    ghost predicate Tracked()
      requires Queue()
      reads this
    {
      OnTrack(text, scanned, input, streamStartProduced, View(), mark)
    }

    constructor (input: seq<Lexeme>)
      requires forall i :: 0 <= i < |input| ==> Proper(input[i])
      ensures Valid() && text == input && delivered == [] && !tokenAvailable && !streamStartProduced
    {
      this.input, mark, tokens, capacity, tokensHead, tokensParsed := input, Mark(0, 0, 0), [], 16, 0, 0;
      tokenAvailable, streamStartProduced, streamEndProduced := false, false, false;
      indent, indents, simpleKeys, simpleKeyAllowed, flowLevel, delivered, scanned, text := 0, [], [], false, 0, [], [], input;
    }

    // ----- the queue

    /** Appends, or inserts before the token at `pos` in the queue. The queue is first moved to the front
        of its storage when that is full; the stream of tokens does not show it. */
    method InsertToken(pos: int, t: Token)
      requires Queue() && pos <= |tokens| - tokensHead
      modifies this`tokens, this`capacity, this`tokensHead
      ensures Queue()
      ensures Stream() == if pos < 0 then old(Stream()) + [t] else Insert(old(Stream()), tokensParsed + pos, t)
    {
      hide Insert;
      MoveToFront();
      if |tokens| == capacity {
        capacity := 2 * capacity + 1;
      }
      if pos < 0 {
        AppendedToQueue(delivered, tokens, tokensHead, t);
        tokens := tokens + [t];
      } else {
        Place(pos, t);
      }
    }

    /** Appends, then shifts what comes after `pos` up by one. */
    method Place(pos: nat, t: Token)
      requires Queue() && |tokens| < capacity && pos <= |tokens| - tokensHead
      modifies this`tokens
      ensures Queue() && Stream() == Insert(old(Stream()), tokensParsed + pos, t)
    {
      hide Insert;
      InsertedInQueue(delivered, tokens, tokensHead, pos, t);
      var at := tokensHead + pos;
      ghost var queue := tokens;
      tokens := tokens + [t];
      tokens := tokens[..at] + [t] + tokens[at..|tokens| - 1];
      assert tokens == queue[..at] + [t] + queue[at..];
    }

    method MoveToFront()
      requires Queue()
      modifies this`tokens, this`tokensHead
      ensures Queue() && Stream() == old(Stream()) && |tokens| - tokensHead == old(|tokens| - tokensHead)
    {
      if tokensHead > 0 && |tokens| == capacity {
        tokens := tokens[tokensHead..];
        tokensHead := 0;
      }
    }

    /** Appending keeps everything, if it closes no block that is not open. */
    method Append(t: Token)
      requires Queue() && Blocks() && |simpleKeys| == flowLevel + 1 && Opens(t) == 0
      requires KeysInOrder(simpleKeys, tokensParsed, Stream() + [t])
      modifies this`tokens, this`capacity, this`tokensHead
      ensures Started() && View() == Appended(old(View()), t)
    {
      hide Depth, KeysInOrder, Rising;
      DepthAppend(Stream(), t);
      NeverNegativeAppend(Stream(), t);
      InsertToken(-1, t);
    }

    // ----- simple keys

    /** Drops the keys that are on an earlier line or too far back. */
    method StaleSimpleKeys() returns (ok: bool)
      requires Queue() && Keys()
      modifies this`simpleKeys
      ensures ok <==> !Overdue(old(simpleKeys), mark)
      ensures ok ==> Keys() && simpleKeys == Aged(old(simpleKeys), mark)
    {
      hide KeysInOrder;
      var i := 0;
      while i < |simpleKeys|
        invariant Keys() && i <= |simpleKeys| == |old(simpleKeys)|
        invariant forall k :: 0 <= k < i ==> simpleKeys[k] == AgedKey(old(simpleKeys)[k], mark)
        invariant forall k :: 0 <= k < i && IsStale(old(simpleKeys)[k], mark) ==> !old(simpleKeys)[k].required
        invariant forall k :: i <= k < |simpleKeys| ==> simpleKeys[k] == old(simpleKeys)[k]
      {
        var key := simpleKeys[i];
        if IsStale(key, mark) {
          if key.required {
            return false;
          }
          KeysForget(simpleKeys, tokensParsed, Stream(), i);
          simpleKeys := simpleKeys[i := key.(possible := false)];
        }
        i := i + 1;
      }
      return true;
    }

    /** The next token, `t`, may begin a simple key if one is allowed here. */
    method SaveSimpleKey(ghost t: Token) returns (ok: bool)
      requires Queue() && Keys() && StartsKey(t)
      modifies this`simpleKeys
      ensures ok ==> |simpleKeys| == flowLevel + 1 && KeysInOrder(simpleKeys, tokensParsed, Stream() + [t])
      ensures Sane(old(View())) && (ok <==> Saved(old(View()), mark).Some?) && (ok ==> View() == Saved(old(View()), mark).value)
    {
      hide KeysInOrder;
      KeysSane();
      var required := flowLevel == 0 && indent == mark.column;
      KeysAppend(simpleKeys, tokensParsed, Stream(), t);
      if simpleKeyAllowed {
        var key := SimpleKey(true, required, tokensParsed + (|tokens| - tokensHead), mark);
        ok := RemoveSimpleKey();
        if !ok {
          return;
        }
        KeysSave(simpleKeys, tokensParsed, Stream(), key, t);
        simpleKeys := simpleKeys[|simpleKeys| - 1 := key];
      }
      return true;
    }

    method RemoveSimpleKey() returns (ok: bool)
      requires Queue() && Keys()
      modifies this`simpleKeys
      ensures ok ==> Keys()
      ensures Sane(old(View())) && (ok <==> Removed(old(View())).Some?) && (ok ==> View() == Removed(old(View())).value)
    {
      hide KeysInOrder;
      KeysSane();
      var i := |simpleKeys| - 1;
      if Demanded(simpleKeys[i]) {
        return false;
      }
      KeysForget(simpleKeys, tokensParsed, Stream(), i);
      simpleKeys := simpleKeys[i := simpleKeys[i].(possible := false)];
      return true;
    }

    method IncreaseFlowLevel(ghost stream: seq<Token>) returns (ok: bool)
      requires |simpleKeys| == flowLevel + 1 && KeysInOrder(simpleKeys, tokensParsed, stream)
      modifies this`simpleKeys, this`flowLevel
      ensures |simpleKeys| == flowLevel + 1 && KeysInOrder(simpleKeys, tokensParsed, stream)
      ensures flowLevel == old(flowLevel) + 1 && (ok <==> flowLevel <= MAX_FLOW_LEVEL)
      ensures simpleKeys == old(simpleKeys) + [NO_KEY]
    {
      KeysPush(simpleKeys, tokensParsed, stream);
      simpleKeys := simpleKeys + [NO_KEY];
      flowLevel := flowLevel + 1;
      return flowLevel <= MAX_FLOW_LEVEL;
    }

    method DecreaseFlowLevel()
      requires Queue() && Keys()
      modifies this`simpleKeys, this`flowLevel
      ensures Keys() && flowLevel == if old(flowLevel) > 0 then old(flowLevel) - 1 else 0
      ensures simpleKeys == if old(flowLevel) > 0 then old(simpleKeys)[..old(flowLevel)] else old(simpleKeys)
    {
      if flowLevel > 0 {
        KeysPop(simpleKeys, tokensParsed, Stream());
        flowLevel := flowLevel - 1;
        simpleKeys := simpleKeys[..|simpleKeys| - 1];
      }
    }

    // ----- indentation

    /** Opens a block collection when the column is deeper than the current level; its start token goes to
        the end of the stream, or to where the key that reveals it began. */
    method RollIndent(column: nat, number: int, t: Token) returns (ok: bool)
      requires Queue() && Blocks() && Opens(t) == 1
      requires number == -1 || tokensParsed <= number <= |Stream()|
      modifies this`indents, this`indent, this`tokens, this`capacity, this`tokensHead
      ensures Queue() && (ok ==> Blocks())
      ensures var r := Rolled(old(View()), column, if number == -1 then None else Some(number), t);
        (ok <==> r.Some?) && (ok ==> View() == r.value)
    {
      hide Depth, Rising, Insert, Opens;
      if flowLevel > 0 {
        return true;
      }
      if indent < column {
        RisingPush(indents + [indent], column);
        indents := indents + [indent];
        indent := column;
        if |indents| > MAX_INDENTS {
          return false;
        }
        DepthAppend(Stream(), t);
        NeverNegativeAppend(Stream(), t);
        if number > -1 {
          DepthInsert(Stream(), number, t);
          NeverNegativeInsert(Stream(), number, t);
          InsertToken(number - tokensParsed, t);
        } else {
          InsertToken(-1, t);
        }
      }
      return true;
    }

    /** Closes block collections until the level is no deeper than the column: exactly the deeper ones, with
        one BLOCK-END each. */
    method UnrollIndent(column: int)
      requires Started() && column >= -1
      modifies this`indents, this`indent, this`tokens, this`capacity, this`tokensHead
      ensures Started() && (flowLevel > 0 || indent <= column) && View() == Unrolled(old(View()), column)
    {
      hide Depth, KeysInOrder;
      if flowLevel > 0 {
        return;
      }
      while indent > column
        invariant Started() && flowLevel == 0 && Unrolled(View(), column) == Unrolled(old(View()), column)
        decreases |indents|
      {
        PopLevel();
      }
    }

    /** One level up. */
    method PopLevel()
      requires Started() && indent > -1
      modifies this`indents, this`indent, this`tokens, this`capacity, this`tokensHead
      ensures Started() && |indents| == |old(indents)| - 1
      ensures View() == old(View()).(stream := old(Stream()) + [BlockEndToken], indent := old(indents)[|indents|],
                                     indents := old(indents)[..|indents|])
    {
      hide Depth, KeysInOrder;
      assert (indents + [indent])[|indents|] == indent;
      DepthAppend(Stream(), BlockEndToken);
      NeverNegativeAppend(Stream(), BlockEndToken);
      KeysAppend(simpleKeys, tokensParsed, Stream(), BlockEndToken);
      RisingPop(indents, indent);
      InsertToken(-1, BlockEndToken);
      indent := indents[|indents| - 1];
      indents := indents[..|indents| - 1];
    }

    /** Possible keys are tokens of the stream. */
    lemma KeysSane()
      requires Queue() && Keys()
      ensures Sane(View())
    {
      hide StartsKey;
    }

    // ----- fetchers: one for each kind of lexeme

    method FetchStreamStart()
      requires Valid() && !streamStartProduced
      modifies this`indent, this`simpleKeys, this`simpleKeyAllowed, this`streamStartProduced,
               this`tokens, this`capacity, this`tokensHead
      ensures Started() && streamStartProduced && View() == START
    {
      indent := -1;
      simpleKeys := simpleKeys + [NO_KEY];
      simpleKeyAllowed := true;
      streamStartProduced := true;
      assert NeverNegative([]);
      Append(StreamStartToken);
    }

    /** At the end of the text all blocks are closed, unless a flow collection is still open. */
    method FetchStreamEnd() returns (ok: bool)
      requires Started()
      modifies this`tokens, this`capacity, this`tokensHead, this`simpleKeys, this`simpleKeyAllowed, this`mark,
               this`indents, this`indent, this`flowLevel
      ensures ok ==> Started()
      ensures var r := MarkerRead(old(View()), StreamEndToken); (ok <==> r.Some?) && (ok ==> View() == r.value)
    {
      hide Depth, KeysInOrder, Rising, NeverNegative, Insert, Unrolled;
      KeysSane();
      if mark.column != 0 {
        mark := mark.(column := 0, line := mark.line + 1);
      }
      UnrollIndent(-1);
      ok := RemoveSimpleKey();
      if !ok {
        return;
      }
      simpleKeyAllowed := false;
      AppendPlain(StreamEndToken);
    }

    /** Directives and document indicators close all blocks too. */
    method FetchMarker(t: Token, x: Lexeme) returns (ok: bool)
      requires Started() && Opens(t) == 0
      modifies this`tokens, this`capacity, this`tokensHead, this`simpleKeys, this`simpleKeyAllowed, this`mark,
               this`indents, this`indent, this`flowLevel
      ensures ok ==> Started() && mark == x.end
      ensures var r := MarkerRead(old(View()), t); (ok <==> x.sound && r.Some?) && (ok ==> View() == r.value)
    {
      hide Depth, KeysInOrder, Rising, NeverNegative, Insert, Unrolled;
      KeysSane();
      UnrollIndent(-1);
      ok := RemoveSimpleKey();
      if !ok {
        return;
      }
      simpleKeyAllowed := false;
      mark := x.end;
      if !x.sound {
        return false;
      }
      AppendPlain(t);
    }

    method FetchFlowCollectionStart(t: Token, x: Lexeme) returns (ok: bool)
      requires Started() && (t.FlowSequenceStartToken? || t.FlowMappingStartToken?)
      modifies this`tokens, this`capacity, this`tokensHead, this`simpleKeys, this`simpleKeyAllowed, this`mark,
               this`indents, this`indent, this`flowLevel
      ensures ok ==> Started() && mark == x.end
      ensures var r := FlowStarted(old(View()), t, old(mark)); (ok <==> r.Some?) && (ok ==> View() == r.value)
    {
      hide Depth, KeysInOrder, Rising, NeverNegative, Insert, Unrolled;
      KeysSane();
      ok := SaveSimpleKey(t);
      if !ok {
        return;
      }
      ok := IncreaseFlowLevel(Stream() + [t]);
      if !ok {
        return;
      }
      simpleKeyAllowed := true;
      mark := x.end;
      Append(t);
    }

    method FetchFlowCollectionEnd(t: Token, x: Lexeme) returns (ok: bool)
      requires Started() && (t.FlowSequenceEndToken? || t.FlowMappingEndToken?)
      modifies this`tokens, this`capacity, this`tokensHead, this`simpleKeys, this`simpleKeyAllowed, this`mark,
               this`indents, this`indent, this`flowLevel
      ensures ok ==> Started() && mark == x.end
      ensures var r := FlowEnded(old(View()), t); (ok <==> r.Some?) && (ok ==> View() == r.value)
    {
      hide Depth, KeysInOrder, Rising, NeverNegative, Insert, Unrolled;
      KeysSane();
      ok := RemoveSimpleKey();
      if !ok {
        return;
      }
      DecreaseFlowLevel();
      simpleKeyAllowed := false;
      mark := x.end;
      AppendPlain(t);
    }

    method FetchFlowEntry(x: Lexeme) returns (ok: bool)
      requires Started()
      modifies this`tokens, this`capacity, this`tokensHead, this`simpleKeys, this`simpleKeyAllowed, this`mark,
               this`indents, this`indent, this`flowLevel
      ensures ok ==> Started() && mark == x.end
      ensures var r := Separated(old(View())); (ok <==> r.Some?) && (ok ==> View() == r.value)
    {
      hide Depth, KeysInOrder, Rising, NeverNegative, Insert, Unrolled;
      KeysSane();
      ok := RemoveSimpleKey();
      if !ok {
        return;
      }
      simpleKeyAllowed := true;
      mark := x.end;
      AppendPlain(FlowEntryToken);
    }

    method FetchBlockEntry(x: Lexeme) returns (ok: bool)
      requires Started()
      modifies this`tokens, this`capacity, this`tokensHead, this`simpleKeys, this`simpleKeyAllowed, this`mark,
               this`indents, this`indent, this`flowLevel
      ensures ok ==> Started() && mark == x.end
      ensures var r := Begun(old(View()), old(mark.column), BlockSequenceStartToken, BlockEntryToken); (ok <==> r.Some?) && (ok ==> View() == r.value)
    {
      hide Depth, KeysInOrder, Rising, NeverNegative, Insert, Unrolled;
      KeysSane();
      if flowLevel == 0 {
        if !simpleKeyAllowed {
          return false;
        }
        ok := OpenBlock(BlockSequenceStartToken);
        if !ok {
          return;
        }
      }
      ok := RemoveSimpleKey();
      if !ok {
        return;
      }
      simpleKeyAllowed := true;
      mark := x.end;
      AppendPlain(BlockEntryToken);
    }

    method FetchKey(x: Lexeme) returns (ok: bool)
      requires Started()
      modifies this`tokens, this`capacity, this`tokensHead, this`simpleKeys, this`simpleKeyAllowed, this`mark,
               this`indents, this`indent, this`flowLevel
      ensures ok ==> Started() && mark == x.end
      ensures var r := Begun(old(View()), old(mark.column), BlockMappingStartToken, KeyToken); (ok <==> r.Some?) && (ok ==> View() == r.value)
    {
      hide Depth, KeysInOrder, Rising, NeverNegative, Insert, Unrolled;
      KeysSane();
      if flowLevel == 0 {
        if !simpleKeyAllowed {
          return false;
        }
        ok := OpenBlock(BlockMappingStartToken);
        if !ok {
          return;
        }
      }
      ok := RemoveSimpleKey();
      if !ok {
        return;
      }
      simpleKeyAllowed := flowLevel == 0;
      mark := x.end;
      AppendPlain(KeyToken);
    }

    /** A ':' after a simple key reveals that key: KEY goes right before the token that began it, and a mapping
        that begins with it goes right before KEY. The tokens already delivered are before all of these. */
    method FetchValue(x: Lexeme) returns (ok: bool)
      requires Started()
      modifies this`tokens, this`capacity, this`tokensHead, this`simpleKeys, this`simpleKeyAllowed, this`mark,
               this`indents, this`indent, this`flowLevel
      ensures ok ==> Started() && mark == x.end
      ensures var r := ColonRead(old(View()), old(mark.column)); (ok <==> r.Some?) && (ok ==> View() == r.value)
    {
      hide Depth, KeysInOrder, Rising, NeverNegative, Insert, Unrolled;
      KeysSane();
      var key := simpleKeys[|simpleKeys| - 1];
      if key.possible {
        ok := RevealKey(key);
        if !ok {
          return;
        }
        simpleKeys := simpleKeys[|simpleKeys| - 1 := key.(possible := false)];
        simpleKeyAllowed := false;
      } else {
        if flowLevel == 0 {
          if !simpleKeyAllowed {
            return false;
          }
          ok := OpenBlock(BlockMappingStartToken);
          if !ok {
            return;
          }
        }
        simpleKeyAllowed := flowLevel == 0;
      }
      mark := x.end;
      AppendPlain(ValueToken);
      ok := true;
    }

    /** Anchors, aliases, tags and quoted or plain scalars may begin a simple key, and none may follow them
        directly; only a plain scalar may end in a line break. */
    method FetchNodeStart(t: Token, x: Lexeme, allowed: bool) returns (ok: bool)
      requires Started() && StartsKey(t) && Opens(t) == 0
      modifies this`tokens, this`capacity, this`tokensHead, this`simpleKeys, this`simpleKeyAllowed, this`mark,
               this`indents, this`indent, this`flowLevel
      ensures ok ==> Started() && mark == x.end
      ensures var r := NodeStarted(old(View()), t, old(mark), allowed); (ok <==> x.sound && r.Some?) && (ok ==> View() == r.value)
    {
      hide Depth, KeysInOrder, Rising, NeverNegative, Insert, Unrolled;
      KeysSane();
      ok := SaveSimpleKey(t);
      if !ok {
        return;
      }
      simpleKeyAllowed := false;
      if !x.sound {
        return false;
      }
      mark := x.end;
      if allowed {
        simpleKeyAllowed := true;
      }
      Append(t);
    }

    method FetchBlockScalar(t: Token, x: Lexeme) returns (ok: bool)
      requires Started() && t.ScalarToken?
      modifies this`tokens, this`capacity, this`tokensHead, this`simpleKeys, this`simpleKeyAllowed, this`mark,
               this`indents, this`indent, this`flowLevel
      ensures ok ==> Started() && mark == x.end
      ensures var r := BlockScalarRead(old(View()), t); (ok <==> x.sound && r.Some?) && (ok ==> View() == r.value)
    {
      hide Depth, KeysInOrder, Rising, NeverNegative, Insert, Unrolled;
      KeysSane();
      ok := RemoveSimpleKey();
      if !ok {
        return;
      }
      simpleKeyAllowed := true;
      if !x.sound {
        return false;
      }
      mark := x.end;
      AppendPlain(t);
    }

    method AppendPlain(t: Token)
      requires Started() && Opens(t) == 0
      modifies this`tokens, this`capacity, this`tokensHead
      ensures Started() && View() == Appended(old(View()), t)
    {
      hide Depth, KeysInOrder, Rising, NeverNegative;
      KeysAppend(simpleKeys, tokensParsed, Stream(), t);
      Append(t);
    }

    /** A block collection that begins at the current column. */
    method OpenBlock(t: Token) returns (ok: bool)
      requires Started() && Opens(t) == 1
      modifies this`indents, this`indent, this`tokens, this`capacity, this`tokensHead
      ensures ok ==> Started()
      ensures var r := Rolled(old(View()), mark.column, None, t); (ok <==> r.Some?) && (ok ==> View() == r.value)
    {
      hide Depth, KeysInOrder, Rising, NeverNegative;
      KeysAppend(simpleKeys, tokensParsed, Stream(), t);
      ok := RollIndent(mark.column, -1, t);
    }

    method RevealKey(key: SimpleKey) returns (ok: bool)
      requires Started() && key == simpleKeys[flowLevel] && key.possible
      modifies this`indents, this`indent, this`tokens, this`capacity, this`tokensHead
      ensures tokensParsed <= key.number < |old(Stream())| && StartsKey(old(Stream())[key.number])
      ensures Queue() && (ok ==> Blocks())
      ensures ok ==> KeysInOrder(simpleKeys[flowLevel := key.(possible := false)], tokensParsed, Stream())
      ensures var keyed := old(View()).(stream := Insert(old(Stream()), key.number, KeyToken));
        var r := Rolled(keyed, key.mark.column, Some(key.number), BlockMappingStartToken);
        (ok <==> r.Some?) && (ok ==> View() == r.value)
    {
      hide Depth, Rising, NeverNegative, Insert;
      ghost var keys, n := simpleKeys[flowLevel := key.(possible := false)], key.number;
      ghost var stream := Stream();
      KeysForget(simpleKeys, tokensParsed, stream, flowLevel);
      KeysInsert(keys, tokensParsed, stream, n, KeyToken);
      KeysInsert(keys, tokensParsed, Insert(stream, n, KeyToken), n, BlockMappingStartToken);
      hide KeysInOrder;
      DepthInsert(stream, n, KeyToken);
      NeverNegativeInsert(stream, n, KeyToken);
      InsertToken(key.number - tokensParsed, KeyToken);
      ok := RollIndent(key.mark.column, key.number, BlockMappingStartToken);
    }

    /** The fetcher for a lexeme that begins a node. */
    method DispatchNode(x: Lexeme) returns (ok: bool)
      requires Started() && Proper(x) && mark == x.start
      requires !x.kind.EndOfText? && !x.kind.Directive? && !x.kind.DocumentIndicator? && !x.kind.FlowStart? && !x.kind.FlowEnd?
      requires !x.kind.FlowComma? && !x.kind.Dash? && !x.kind.QuestionMark? && !x.kind.Colon?
      modifies this`tokens, this`capacity, this`tokensHead, this`simpleKeys, this`simpleKeyAllowed, this`mark,
               this`indents, this`indent, this`flowLevel
      ensures ok ==> Started() && mark == x.end
      ensures var r := Dispatched(old(View()), x); (ok <==> r.Some?) && (ok ==> View() == r.value)
    {
      hide Depth, KeysInOrder, Rising, NeverNegative, Insert, Unrolled;
      KeysSane();
      match x.kind
      case Alias(name) => ok := FetchNodeStart(AliasToken(name), x, false);
      case Anchor(name) => ok := FetchNodeStart(AnchorToken(name), x, false);
      case Tag(handle, suffix) => ok := FetchNodeStart(TagToken(handle, suffix), x, false);
      case BlockScalar(value) => ok := FetchBlockScalar(ScalarToken(value, false), x);
      case QuotedScalar(value) => ok := FetchNodeStart(ScalarToken(value, false), x, false);
      case PlainScalar(value, trailingBreak) => ok := FetchNodeStart(ScalarToken(value, true), x, trailingBreak);
      case _ => ok := false;
    }

    /** The fetcher for a lexeme. */
    method Dispatch(x: Lexeme) returns (ok: bool)
      requires Started() && Proper(x) && mark == x.start
      modifies this`tokens, this`capacity, this`tokensHead, this`simpleKeys, this`simpleKeyAllowed, this`mark,
               this`indents, this`indent, this`flowLevel
      ensures ok ==> Started() && (x.kind.EndOfText? || mark == x.end)
      ensures var r := Dispatched(old(View()), x); (ok <==> r.Some?) && (ok ==> View() == r.value)
    {
      hide Depth, KeysInOrder, Rising, NeverNegative, Insert, Unrolled;
      KeysSane();
      match x.kind
      case EndOfText => ok := FetchStreamEnd();
      case Directive(t) => ok := FetchMarker(t, x);
      case DocumentIndicator(t) => ok := FetchMarker(t, x);
      case FlowStart(sequence) => ok := FetchFlowCollectionStart(if sequence then FlowSequenceStartToken else FlowMappingStartToken, x);
      case FlowEnd(sequence) => ok := FetchFlowCollectionEnd(if sequence then FlowSequenceEndToken else FlowMappingEndToken, x);
      case FlowComma => ok := FetchFlowEntry(x);
      case Dash => ok := FetchBlockEntry(x);
      case QuestionMark => ok := FetchKey(x);
      case Colon => ok := FetchValue(x);
      case _ => ok := DispatchNode(x);
    }

    /** Everything between two lexemes, and the second of them. */
    method FetchLexeme(x: Lexeme) returns (ok: bool)
      requires Started() && Proper(x)
      modifies this`tokens, this`capacity, this`tokensHead, this`simpleKeys, this`simpleKeyAllowed, this`mark,
               this`indents, this`indent, this`flowLevel
      ensures ok ==> Started() && (x.kind.EndOfText? || mark == x.end)
      ensures var r := Fetched(old(View()), x); (ok <==> r.Some?) && (ok ==> View() == r.value)
    {
      hide Depth, KeysInOrder, Rising, NeverNegative, Insert, Unrolled, Dispatched;
      KeysSane();
      mark := x.start;
      if x.newLine && flowLevel == 0 {
        simpleKeyAllowed := true;
      }
      ok := StaleSimpleKeys();
      if !ok {
        return;
      }
      UnrollIndent(mark.column);
      ok := Dispatch(x);
    }

    method FetchNextToken() returns (ok: bool)
      requires Valid() && !tokenAvailable
      modifies this
      ensures ok ==> Valid() && streamStartProduced && !tokenAvailable
      ensures delivered == old(delivered) && tokensParsed == old(tokensParsed)
      ensures ok ==> Work() < old(Work())
      ensures !ok ==> old(streamStartProduced) && (old(input) == [] || !Scannable(text))
      ensures !ok && old(input) == [] ==> unchanged(this)
    {
      hide Depth, KeysInOrder, Rising, NeverNegative, Insert, Kept, LexemeTokens, Fetched, OnTrack, Scannable;
      if !streamStartProduced {
        StartOnTrack(text, input, View(), mark);
        FetchStreamStart();
        StartKeeps();
        return true;
      }
      if input == [] {
        return false;
      }
      var x := input[0];
      ghost var before, rest, v, m := scanned, input[1..], View(), mark;
      assert input == [x] + rest && scanned + [x] + rest == text;
      LexemesAppend(scanned, x);
      KeysSane();
      input := input[1..];
      scanned := scanned + [x];
      ok := FetchLexeme(x);
      NextOnTrack(text, before, x, rest, v, m, if ok then View() else v, mark);
      if ok { FetchedKeeps(v, x); }
    }

    /** Fetches until the head of the queue can no longer turn out to be preceded by a KEY. A text that can be scanned
        only stops this once all its tokens are delivered. */
    method FetchMoreTokens() returns (ok: bool)
      requires Valid() && !tokenAvailable
      modifies this
      ensures ok ==> Valid() && tokenAvailable && streamStartProduced
      ensures ok ==> Work() < old(Work()) || (Work() == old(Work()) && Stream() == old(Stream()))
      ensures delivered == old(delivered) && tokensParsed == old(tokensParsed)
      ensures !ok && Scannable(text) ==> delivered == ScannedTokens(text)
    {
      hide Depth, KeysInOrder, Rising, NeverNegative, Kept, LexemeTokens, Scannable, OnTrack, Overdue, Aged;
      while true
        invariant Valid() && !tokenAvailable
        invariant delivered == old(delivered) && tokensParsed == old(tokensParsed)
        invariant Work() < old(Work()) || (Work() == old(Work()) && Stream() == old(Stream()))
        decreases Work()
      {
        var need := tokensHead == |tokens|;
        if !need {
          assert tokens[tokensHead..] != [];
          if Overdue(simpleKeys, mark) { StopsOverdue(); }
          ghost var v := View();
          ok := StaleSimpleKeys();
          if !ok {
            return;
          }
          AgedOnTrack(text, scanned, input, streamStartProduced, v, mark);
          need := KeyAtHead();
        }
        if !need {
          break;
        }
        if streamStartProduced && input == [] { StopsEmpty(); }
        ok := FetchNextToken();
        if !ok {
          return;
        }
      }
      tokenAvailable := true;
      return true;
    }

    /** A needed key that is overdue means that the text cannot be scanned. */
    lemma StopsOverdue()
      requires Valid() && streamStartProduced && Overdue(simpleKeys, mark)
      ensures !Scannable(text)
    {
      hide Fetched, FetchedAll, Ordered, EndsOnce, Overdue, Kept, LexemeTokens, Depth, KeysInOrder, Rising, NeverNegative;
      if Scannable(text) {
        KeysSane();
        var s := FetchedAll(START, scanned).value;
        if input == [] {
          AddNothing(scanned);
          QuietAged(View(), s, mark);
        } else {
          var x, rest := input[0], input[1..];
          assert input == [x] + rest;
          NextInOrder(scanned, x, rest);
          OverdueFails(View(), s, mark, x);
          CannotFetch(scanned, x, rest);
        }
      }
    }

    /** Nothing is left to fetch: a text that can be scanned is delivered as a whole. */
    lemma StopsEmpty()
      requires Valid() && streamStartProduced && input == [] && (tokensHead == |tokens| || !HeadSettled())
      ensures Scannable(text) ==> delivered == ScannedTokens(text)
    {
      hide Fetched, FetchedAll, Ordered, EndsOnce, Overdue, Kept, LexemeTokens, Depth, KeysInOrder, Rising, NeverNegative;
      if Scannable(text) {
        AddNothing(scanned);
        QuietAged(View(), FetchedAll(START, scanned).value, mark);
        AddNothing(delivered);
      }
    }

    method KeyAtHead() returns (found: bool)
      ensures !found <==> HeadSettled()
    {
      var i := 0;
      while i < |simpleKeys|
        invariant i <= |simpleKeys|
        invariant forall k :: 0 <= k < i && simpleKeys[k].possible ==> simpleKeys[k].number != tokensParsed
      {
        if simpleKeys[i].possible && simpleKeys[i].number == tokensParsed {
          return true;
        }
        i := i + 1;
      }
      return false;
    }

    // ----- the parser's side

    method PeekToken() returns (t: Option<Token>)
      requires Valid()
      modifies this
      ensures delivered == old(delivered) && tokensParsed == old(tokensParsed)
      ensures t.Some? ==> Valid() && tokenAvailable && streamStartProduced && t.value == Stream()[tokensParsed]
      ensures t.Some? ==> Work() < old(Work()) || (Work() == old(Work()) && Stream() == old(Stream()))
      ensures old(tokenAvailable) ==> t.Some? && Stream() == old(Stream())
      ensures t.None? && Scannable(text) ==> delivered == ScannedTokens(text)
    {
      hide Depth, KeysInOrder, Rising, NeverNegative, Kept, LexemeTokens, Scannable;
      if !tokenAvailable {
        var ok := FetchMoreTokens();
        if !ok {
          return None;
        }
      }
      return Some(tokens[tokensHead]);
    }

    /** Hands the head of the queue to the parser; the tokens after it are as they were. */
    method SkipToken()
      requires Valid() && tokenAvailable && streamStartProduced
      modifies this`tokenAvailable, this`tokensParsed, this`streamEndProduced, this`tokensHead, this`delivered
      ensures Valid() && delivered == old(delivered) + [old(Stream()[tokensParsed])] && Stream() == old(Stream())
    {
      hide Depth, Rising, NeverNegative, Kept, LexemeTokens;
      ghost var stream := Stream();
      KeysLater(simpleKeys, tokensParsed, stream);
      hide KeysInOrder;
      tokenAvailable := false;
      delivered := delivered + [tokens[tokensHead]];
      tokensParsed := tokensParsed + 1;
      streamEndProduced := tokens[tokensHead] == StreamEndToken;
      assert tokens[tokensHead..] == [tokens[tokensHead]] + tokens[tokensHead + 1..];
      tokensHead := tokensHead + 1;
      assert Stream() == stream;
    }
  }

  /** A whole run: the tokens up to the end of the stream or the first error, as the parser gets them.
      Whatever was inserted while scanning, no block ends before it began, and the tokens are those that the
      lexemes stand for, in order, as far as they go, and implied ones. */
  method ScanAll(s: Scanner) returns (scanned: seq<Token>)
    requires s.Valid() && s.delivered == [] && forall i :: 0 <= i < |s.text| ==> Proper(s.text[i])
    modifies s
    ensures NeverNegative(scanned) && Kept(scanned) <= [StreamStartToken] + LexemeTokens(s.text)
    ensures Scannable(s.text) ==> scanned == ScannedTokens(s.text)
  {
    hide Depth, Rising, KeysInOrder, LexemeTokens, Kept, Scannable, ScannedTokens, OnTrack;
    scanned := [];
    NothingNegative();
    if Scannable(s.text) { EndInStream(s.text); }
    while true
      invariant s.Valid() && scanned == s.delivered && NeverNegative(scanned)
      invariant Kept(scanned) <= [StreamStartToken] + LexemeTokens(s.text)
      invariant StreamEndToken !in scanned
      decreases s.Work(), |s.tokens| - s.tokensHead
    {
      var t := s.PeekToken();
      if t.None? {
        break;
      }
      s.SkipToken();
      scanned := scanned + [t.value];
      NeverNegativePrefix(s.Stream(), |s.delivered|);
      KeptPrefix(s.Stream(), |s.delivered|);
      LexemesPrefix(s.scanned, s.input);
      assert s.Stream()[..|s.delivered|] == s.delivered;
      if t.value == StreamEndToken {
        EndDelivered(s);
        break;
      }
    }
  }

  /** The end of the stream is delivered last. */
  lemma EndDelivered(s: Scanner)
    requires s.Valid() && s.streamStartProduced && s.delivered != [] && s.delivered[|s.delivered| - 1] == StreamEndToken
    requires forall i :: 0 <= i < |s.text| ==> Proper(s.text[i])
    ensures Scannable(s.text) ==> s.delivered == ScannedTokens(s.text)
  {
    hide FetchedAll, Ordered, Quiet, Kept, LexemeTokens, Depth, KeysInOrder, Rising, NeverNegative;
    if Scannable(s.text) {
      var stream, n := s.Stream(), |s.delivered|;
      assert s.delivered == stream[..n] && stream[n - 1] == StreamEndToken;
      EndKept(stream);
      if s.input != [] {
        assert forall i :: 0 <= i < |s.scanned| ==> s.scanned[i] == s.text[i];
        EndSpelled(s.scanned);
      } else {
        AddNothing(s.scanned);
        QuietAged(s.View(), FetchedAll(START, s.text).value, s.mark);
        EndOnlyLast(s.text);
        EndAt(stream, n);
      }
    }
  }

  lemma EndAt(stream: seq<Token>, n: nat)
    requires 0 < n <= |stream| && stream[n - 1] == StreamEndToken && StreamEndToken !in stream[..|stream| - 1]
    ensures stream[..n] == stream
  {
    assert forall i :: 0 <= i < |stream| - 1 ==> stream[i] == stream[..|stream| - 1][i];
  }

  lemma NothingNegative()
    ensures NeverNegative([]) && Kept([]) == []
  {
  }

  /** Where the lexemes are in order, the state is what comes of those consumed, except that keys may have been
      dropped a little earlier. */
  ghost predicate OnTrack(text: seq<Lexeme>, scanned: seq<Lexeme>, input: seq<Lexeme>, started: bool, v: Scanning, mark: Mark) {
    Ordered(text, ORIGIN) ==>
      && (input != [] ==> mark == EndMark(scanned, ORIGIN))
      && (started ==> FetchedAll(START, scanned).Some? && SameOrAged(v, FetchedAll(START, scanned).value, mark))
  }

  lemma StartOnTrack(text: seq<Lexeme>, input: seq<Lexeme>, v: Scanning, mark: Mark)
    requires OnTrack(text, [], input, false, v, mark)
    ensures OnTrack(text, [], input, true, START, mark)
  {
    assert FetchedAll(START, []) == Some(START);
  }

  /** Dropping old keys keeps the state on track. */
  lemma AgedOnTrack(text: seq<Lexeme>, scanned: seq<Lexeme>, input: seq<Lexeme>, started: bool, v: Scanning, mark: Mark)
    requires OnTrack(text, scanned, input, started, v, mark) && !Overdue(v.keys, mark)
    ensures OnTrack(text, scanned, input, started, v.(keys := Aged(v.keys, mark)), mark)
  {
    hide FetchedAll, Ordered, Overdue;
    if Ordered(text, ORIGIN) && started {
      AgedTwice(FetchedAll(START, scanned).value.keys, mark, mark);
    }
  }

  /** The state after a lexeme is what comes of all lexemes so far; if there is none, there is none of the text. */
  lemma NextOnTrack(text: seq<Lexeme>, before: seq<Lexeme>, x: Lexeme, rest: seq<Lexeme>, v: Scanning, m: Mark, w: Scanning, n: Mark)
    requires text == before + ([x] + rest) && OnTrack(text, before, [x] + rest, true, v, m) && Sane(v)
    ensures Fetched(v, x).None? ==> !Scannable(text)
    ensures Fetched(v, x) == Some(w) && (x.kind.EndOfText? || n == x.end) ==> OnTrack(text, before + [x], rest, true, w, n)
  {
    hide Fetched, FetchedAll, Ordered, SameOrAged, EndsOnce, Quiet;
    if Ordered(text, ORIGIN) {
      var s := FetchedAll(START, before).value;
      NextInOrder(before, x, rest);
      FetchedAged(v, s, m, x);
      CanFetch(before, x);
      if Fetched(v, x).None? { CannotFetch(before, x, rest); }
      Same(w, n);
    }
  }

  lemma Same(s: Scanning, mark: Mark)
    ensures SameOrAged(s, s, mark)
  {
  }

  lemma StartKeeps()
    ensures Kept([StreamStartToken]) == [StreamStartToken] + LexemeTokens([])
  {
    assert [StreamStartToken][..0] == [];
    assert Kept([]) == [];
  }

  lemma RisingPop(levels: seq<int>, last: int)
    requires Rising(levels + [last]) && |levels| > 0
    ensures Rising(levels[..|levels| - 1] + [levels[|levels| - 1]])
  {
    assert levels[..|levels| - 1] + [levels[|levels| - 1]] == levels;
    assert forall i :: 0 <= i < |levels| ==> levels[i] == (levels + [last])[i];
  }

  lemma AppendedToQueue(delivered: seq<Token>, tokens: seq<Token>, head: nat, t: Token)
    requires head <= |tokens|
    ensures delivered + (tokens + [t])[head..] == delivered + tokens[head..] + [t]
  {
    assert (tokens + [t])[head..] == tokens[head..] + [t];
  }

  lemma InsertedInQueue(delivered: seq<Token>, tokens: seq<Token>, head: nat, pos: nat, t: Token)
    requires head + pos <= |tokens|
    ensures delivered + (tokens[..head + pos] + [t] + tokens[head + pos..])[head..]
         == Insert(delivered + tokens[head..], |delivered| + pos, t)
  {
    var at, queue := head + pos, tokens[head..];
    assert tokens[..at] == tokens[..head] + queue[..pos] && tokens[at..] == queue[pos..];
    assert (tokens[..at] + [t] + tokens[at..])[head..] == queue[..pos] + [t] + queue[pos..];
    assert (delivered + queue)[..|delivered| + pos] == delivered + queue[..pos];
    assert (delivered + queue)[|delivered| + pos..] == queue[pos..];
  }
}
