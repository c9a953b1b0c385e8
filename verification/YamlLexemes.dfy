/** The lexemes of a text, and what each does to the token stream, the simple keys and the indentation. */
module YamlLexemes {
  import opened Bytes
  import opened Sequences
  import opened YamlTokens
  import opened YamlTokenStream

  const MAX_FLOW_LEVEL := 10000
  const MAX_INDENTS := 10000

  /** What comes next in the text. */
  datatype Kind =
    | EndOfText
    | Directive(token: Token)
    | DocumentIndicator(token: Token)
    | FlowStart(sequence: bool)
    | FlowEnd(sequence: bool)
    | FlowComma
    | Dash
    | QuestionMark
    | Colon
    | Alias(name: string)
    | Anchor(name: string)
    | Tag(handle: string, suffix: string)
    | BlockScalar(value: string)
    | QuotedScalar(value: string)
    | PlainScalar(value: string, trailingBreak: bool)
    | NoToken

  /** A lexeme with the position where it begins and where it ends, whether a line break came before it,
      and whether the text of the token itself is in order. */
  datatype Lexeme = Lexeme(kind: Kind, start: Mark, end: Mark, newLine: bool, sound: bool)

  predicate Proper(x: Lexeme) {
    && (x.kind.Directive? ==> x.kind.token.VersionDirectiveToken? || x.kind.token.TagDirectiveToken?)
    && (x.kind.DocumentIndicator? ==> x.kind.token.DocumentStartToken? || x.kind.token.DocumentEndToken?)
  }

  // ----- the tokens that lexemes stand for

  /** The token of a lexeme. The KEY of a question mark is left out, since keys without one have a KEY too. */
  function KindTokens(k: Kind): seq<Token> {
    match k
    case EndOfText => [StreamEndToken]
    case Directive(t) => [t]
    case DocumentIndicator(t) => [t]
    case FlowStart(sequence) => [if sequence then FlowSequenceStartToken else FlowMappingStartToken]
    case FlowEnd(sequence) => [if sequence then FlowSequenceEndToken else FlowMappingEndToken]
    case FlowComma => [FlowEntryToken]
    case Dash => [BlockEntryToken]
    case QuestionMark => []
    case Colon => [ValueToken]
    case Alias(name) => [AliasToken(name)]
    case Anchor(name) => [AnchorToken(name)]
    case Tag(handle, suffix) => [TagToken(handle, suffix)]
    case BlockScalar(value) => [ScalarToken(value, false)]
    case QuotedScalar(value) => [ScalarToken(value, false)]
    case PlainScalar(value, _) => [ScalarToken(value, true)]
    case NoToken => []
  }

  function LexemeTokens(xs: seq<Lexeme>): seq<Token> {
    if xs == [] then [] else LexemeTokens(xs[..|xs| - 1]) + KindTokens(xs[|xs| - 1].kind)
  }

  /** Tokens that no lexeme stands for: they come from indentation, or from a key being one. */
  predicate Implied(t: Token) {
    t.KeyToken? || t.BlockSequenceStartToken? || t.BlockMappingStartToken? || t.BlockEndToken?
  }

  function Kept(stream: seq<Token>): seq<Token> {
    if stream == [] then []
    else
      var last := stream[|stream| - 1];
      Kept(stream[..|stream| - 1]) + if Implied(last) then [] else [last]
  }

  lemma KeptAppend(stream: seq<Token>, t: Token)
    ensures Kept(stream + [t]) == Kept(stream) + if Implied(t) then [] else [t]
  {
    assert (stream + [t])[..|stream|] == stream;
  }

  lemma {:induction false} KeptInsert(stream: seq<Token>, n: nat, t: Token)
    requires n <= |stream| && Implied(t)
    ensures Kept(Insert(stream, n, t)) == Kept(stream)
    decreases |stream|
  {
    hide Implied, Insert, Kept;
    if n == |stream| {
      InsertLast(stream, t);
      KeptAppend(stream, t);
      AddNothing(Kept(stream));
    } else {
      var init, last := stream[..|stream| - 1], stream[|stream| - 1];
      KeptInsert(init, n, t);
      InsertBefore(stream, n, t);
      assert stream == init + [last];
      KeptAppend(Insert(init, n, t), last);
      KeptAppend(init, last);
    }
  }

  lemma InsertLast(stream: seq<Token>, t: Token)
    ensures Insert(stream, |stream|, t) == stream + [t]
  {
  }

  lemma InsertBefore(stream: seq<Token>, n: nat, t: Token)
    requires n < |stream|
    ensures Insert(stream, n, t) == Insert(stream[..|stream| - 1], n, t) + [stream[|stream| - 1]]
  {
  }

  lemma {:induction false} KeptPrefix(stream: seq<Token>, n: nat)
    requires n <= |stream|
    ensures Kept(stream[..n]) <= Kept(stream)
    decreases |stream|
  {
    if n == |stream| {
      assert stream[..n] == stream;
    } else {
      KeptPrefix(stream[..|stream| - 1], n);
      assert stream[..|stream| - 1][..n] == stream[..n];
    }
  }

  /** Tokens that are implied say nothing. */
  lemma {:induction false} KeptSays(stream: seq<Token>)
    ensures TokensSay(Kept(stream)) == TokensSay(stream)
  {
    if stream == [] {
    } else {
      var init, last := stream[..|stream| - 1], stream[|stream| - 1];
      KeptSays(init);
      if Implied(last) {
        AddNothing(Kept(init));
        AddNothing(TokensSay(init));
      } else {
        SayAppend(Kept(init), last);
      }
    }
  }

  lemma LexemesAppend(xs: seq<Lexeme>, x: Lexeme)
    ensures LexemeTokens(xs + [x]) == LexemeTokens(xs) + KindTokens(x.kind)
  {
    assert (xs + [x])[..|xs|] == xs;
  }

  lemma {:induction false} LexemesPrefix(xs: seq<Lexeme>, ys: seq<Lexeme>)
    ensures LexemeTokens(xs) <= LexemeTokens(xs + ys)
    decreases |ys|
  {
    if ys == [] {
      assert xs + ys == xs;
    } else {
      var init, last := ys[..|ys| - 1], ys[|ys| - 1];
      LexemesPrefix(xs, init);
      assert xs + ys == xs + init + [last];
      LexemesAppend(xs + init, last);
    }
  }

  /** What the lexemes say. */
  function LexemesSay(xs: seq<Lexeme>): seq<Item> {
    TokensSay(LexemeTokens(xs))
  }

  // ----- simple keys

  /** A simple key must be on one line and within 1024 characters. */
  predicate IsStale(key: SimpleKey, mark: Mark) {
    key.possible && (key.mark.line < mark.line || key.mark.index + 1024 < mark.index)
  }

  /** A key that may not be dropped any more: the ':' that it needs is missing. */
  predicate Demanded(key: SimpleKey) {
    key.possible && key.required
  }

  function AgedKey(key: SimpleKey, mark: Mark): SimpleKey {
    if IsStale(key, mark) then key.(possible := false) else key
  }

  /** The keys that are still possible at a position. */
  function Aged(keys: seq<SimpleKey>, mark: Mark): (r: seq<SimpleKey>)
    ensures |r| == |keys| && forall i :: 0 <= i < |keys| ==> r[i] == AgedKey(keys[i], mark)
  {
    seq(|keys|, i requires 0 <= i < |keys| => AgedKey(keys[i], mark))
  }

  /** A key that is needed has become impossible. */
  predicate Overdue(keys: seq<SimpleKey>, mark: Mark) {
    exists i :: 0 <= i < |keys| && IsStale(keys[i], mark) && keys[i].required
  }

  // ----- the state of scanning

  /** All tokens so far, the indentation levels, the simple keys of each flow level, whether one may begin, and
      the flow level. */
  datatype Scanning = Scanning(stream: seq<Token>, indent: int, indents: seq<int>, keys: seq<SimpleKey>, allowed: bool, flow: nat)

  const START := Scanning([StreamStartToken], -1, [], [NO_KEY], true, 0)

  predicate Sane(s: Scanning) {
    && |s.keys| == s.flow + 1
    && forall i :: 0 <= i < |s.keys| && s.keys[i].possible ==> s.keys[i].number < |s.stream|
  }

  function Appended(s: Scanning, t: Token): Scanning {
    s.(stream := s.stream + [t])
  }

  function InnerKey(s: Scanning): SimpleKey
    requires Sane(s)
  {
    s.keys[s.flow]
  }

  function Forgotten(s: Scanning): Scanning
    requires Sane(s)
  {
    s.(keys := s.keys[s.flow := InnerKey(s).(possible := false)])
  }

  function Removed(s: Scanning): Option<Scanning>
    requires Sane(s)
  {
    if Demanded(InnerKey(s)) then None else Some(Forgotten(s))
  }

  /** The next token may begin a simple key, if one is allowed. */
  function Saved(s: Scanning, mark: Mark): (r: Option<Scanning>)
    requires Sane(s)
    ensures r.Some? ==> |r.value.keys| == s.flow + 1
  {
    if !s.allowed then Some(s)
    else if Demanded(InnerKey(s)) then None
    else Some(s.(keys := s.keys[s.flow := SimpleKey(true, s.flow == 0 && s.indent == mark.column, |s.stream|, mark)]))
  }

  /** Closes the blocks that are deeper than the column. */
  function Unrolled(s: Scanning, column: int): Scanning
    decreases |s.indents|
  {
    if s.flow > 0 || s.indent <= column || s.indents == [] then s
    else
      var k := |s.indents| - 1;
      Unrolled(s.(stream := s.stream + [BlockEndToken], indent := s.indents[k], indents := s.indents[..k]), column)
  }

  /** Opens a block if the column is deeper than the current level; its start token goes to the end, or to where
      the key that reveals it began. */
  function Rolled(s: Scanning, column: int, number: Option<nat>, t: Token): Option<Scanning>
    requires number.Some? ==> number.value <= |s.stream|
  {
    if s.flow > 0 || s.indent >= column then Some(s)
    else if |s.indents| >= MAX_INDENTS then None
    else Some(s.(indents := s.indents + [s.indent], indent := column,
                 stream := if number.None? then s.stream + [t] else Insert(s.stream, number.value, t)))
  }

  // ----- the effect of each lexeme

  function MarkerRead(s: Scanning, t: Token): (r: Option<Scanning>)
    requires Sane(s)
    ensures r.Some? ==> Sane(r.value)
  {
    var u := Unrolled(s, -1);
    UnrolledSane(s, -1);
    var r := Removed(u);
    if r.None? then None else Some(Appended(r.value.(allowed := false), t))
  }

  function FlowStarted(s: Scanning, t: Token, mark: Mark): (r: Option<Scanning>)
    requires Sane(s)
    ensures r.Some? ==> Sane(r.value)
  {
    var r := Saved(s, mark);
    if r.None? || s.flow + 1 > MAX_FLOW_LEVEL then None
    else Some(Appended(r.value.(keys := r.value.keys + [NO_KEY], flow := s.flow + 1, allowed := true), t))
  }

  function FlowEnded(s: Scanning, t: Token): (r: Option<Scanning>)
    requires Sane(s)
    ensures r.Some? ==> Sane(r.value)
  {
    var r := Removed(s);
    if r.None? then None
    else
      var u := if s.flow > 0 then r.value.(flow := s.flow - 1, keys := r.value.keys[..s.flow]) else r.value;
      Some(Appended(u.(allowed := false), t))
  }

  function Separated(s: Scanning): (r: Option<Scanning>)
    requires Sane(s)
    ensures r.Some? ==> Sane(r.value)
  {
    var r := Removed(s);
    if r.None? then None else Some(Appended(r.value.(allowed := true), FlowEntryToken))
  }

  /** A dash or a question mark at a column. */
  function Begun(s: Scanning, column: int, start: Token, t: Token): (r: Option<Scanning>)
    requires Sane(s)
    ensures r.Some? ==> Sane(r.value)
  {
    if s.flow == 0 && !s.allowed then None
    else
      var u := Rolled(s, column, None, start);
      if u.None? then None
      else
        var r := Removed(u.value);
        if r.None? then None else Some(Appended(r.value.(allowed := t.BlockEntryToken? || s.flow == 0), t))
  }

  /** A colon: it reveals the simple key before it, if there is one. */
  function ColonRead(s: Scanning, column: int): (r: Option<Scanning>)
    requires Sane(s)
    ensures r.Some? ==> Sane(r.value)
  {
    var key := InnerKey(s);
    if key.possible then
      var keyed := s.(stream := Insert(s.stream, key.number, KeyToken));
      var u := Rolled(keyed, key.mark.column, Some(key.number), BlockMappingStartToken);
      if u.None? then None else Some(Appended(Forgotten(u.value.(keys := s.keys)).(allowed := false), ValueToken))
    else if s.flow == 0 && !s.allowed then None
    else
      var u := Rolled(s, column, None, BlockMappingStartToken);
      if u.None? then None else Some(Appended(u.value.(allowed := s.flow == 0), ValueToken))
  }

  function NodeStarted(s: Scanning, t: Token, mark: Mark, after: bool): (r: Option<Scanning>)
    requires Sane(s)
    ensures r.Some? ==> Sane(r.value)
  {
    var r := Saved(s, mark);
    if r.None? then None else Some(Appended(r.value.(allowed := after), t))
  }

  function BlockScalarRead(s: Scanning, t: Token): (r: Option<Scanning>)
    requires Sane(s)
    ensures r.Some? ==> Sane(r.value)
  {
    var r := Removed(s);
    if r.None? then None else Some(Appended(r.value.(allowed := true), t))
  }

  /** The effect of a lexeme, once blocks that end before it are closed. */
  function Dispatched(s: Scanning, x: Lexeme): (r: Option<Scanning>)
    requires Sane(s)
    ensures r.Some? ==> Sane(r.value)
  {
    match x.kind
    case EndOfText => MarkerRead(s, StreamEndToken)
    case Directive(t) => if x.sound then MarkerRead(s, t) else None
    case DocumentIndicator(t) => if x.sound then MarkerRead(s, t) else None
    case FlowStart(sequence) => FlowStarted(s, if sequence then FlowSequenceStartToken else FlowMappingStartToken, x.start)
    case FlowEnd(sequence) => FlowEnded(s, if sequence then FlowSequenceEndToken else FlowMappingEndToken)
    case FlowComma => Separated(s)
    case Dash => Begun(s, x.start.column, BlockSequenceStartToken, BlockEntryToken)
    case QuestionMark => Begun(s, x.start.column, BlockMappingStartToken, KeyToken)
    case Colon => ColonRead(s, x.start.column)
    case Alias(name) => if x.sound then NodeStarted(s, AliasToken(name), x.start, false) else None
    case Anchor(name) => if x.sound then NodeStarted(s, AnchorToken(name), x.start, false) else None
    case Tag(handle, suffix) => if x.sound then NodeStarted(s, TagToken(handle, suffix), x.start, false) else None
    case BlockScalar(value) => if x.sound then BlockScalarRead(s, ScalarToken(value, false)) else None
    case QuotedScalar(value) => if x.sound then NodeStarted(s, ScalarToken(value, false), x.start, false) else None
    case PlainScalar(value, trailingBreak) =>
      if x.sound then NodeStarted(s, ScalarToken(value, true), x.start, trailingBreak) else None
    case NoToken => None
  }

  /** Keys too old for the position of the lexeme are dropped, and blocks that it is not part of are closed. */
  function Reached(s: Scanning, x: Lexeme): (r: Option<Scanning>)
    requires Sane(s)
    ensures r.Some? ==> Sane(r.value)
  {
    if Overdue(s.keys, x.start) then None
    else
      var aged := s.(keys := Aged(s.keys, x.start), allowed := s.allowed || (x.newLine && s.flow == 0));
      UnrolledSane(aged, x.start.column);
      Some(Unrolled(aged, x.start.column))
  }

  /** The whole effect of a lexeme, or None where the scanner fails. */
  function Fetched(s: Scanning, x: Lexeme): (r: Option<Scanning>)
    requires Sane(s)
    ensures r.Some? ==> Sane(r.value)
  {
    var u := Reached(s, x);
    if u.None? then None else Dispatched(u.value, x)
  }

  function FetchedAll(s: Scanning, xs: seq<Lexeme>): (r: Option<Scanning>)
    requires Sane(s)
    ensures r.Some? ==> Sane(r.value)
    decreases |xs|
  {
    if xs == [] then Some(s)
    else
      var u := Fetched(s, xs[0]);
      if u.None? then None else FetchedAll(u.value, xs[1..])
  }

  // ----- what always holds

  lemma {:induction false} UnrolledSane(s: Scanning, column: int)
    requires Sane(s)
    ensures Sane(Unrolled(s, column)) && Unrolled(s, column).keys == s.keys && Unrolled(s, column).flow == s.flow
    ensures Unrolled(s, column).allowed == s.allowed && |s.stream| <= |Unrolled(s, column).stream|
    decreases |s.indents|
  {
    if s.flow > 0 || s.indent <= column || s.indents == [] {
    } else {
      var k := |s.indents| - 1;
      UnrolledSane(s.(stream := s.stream + [BlockEndToken], indent := s.indents[k], indents := s.indents[..k]), column);
    }
  }

  lemma {:induction false} UnrolledKeeps(s: Scanning, column: int)
    ensures Kept(Unrolled(s, column).stream) == Kept(s.stream)
    decreases |s.indents|
  {
    if s.flow > 0 || s.indent <= column || s.indents == [] {
    } else {
      var k := |s.indents| - 1;
      var t := s.(stream := s.stream + [BlockEndToken], indent := s.indents[k], indents := s.indents[..k]);
      UnrolledKeeps(t, column);
      KeptAppend(s.stream, BlockEndToken);
      AddNothing(Kept(s.stream));
    }
  }

  lemma RolledKeeps(s: Scanning, column: int, number: Option<nat>, t: Token)
    requires (number.Some? ==> number.value <= |s.stream|) && Implied(t)
    ensures Rolled(s, column, number, t).Some? ==> Kept(Rolled(s, column, number, t).value.stream) == Kept(s.stream)
  {
    hide Kept, Insert;
    if number.Some? {
      KeptInsert(s.stream, number.value, t);
    } else {
      KeptAppend(s.stream, t);
      AddNothing(Kept(s.stream));
    }
  }

  /** Every lexeme adds the token it stands for behind those of the lexemes before it, whatever is implied. */
  lemma FetchedKeeps(s: Scanning, x: Lexeme)
    requires Sane(s) && Proper(x) && Fetched(s, x).Some?
    ensures Kept(Fetched(s, x).value.stream) == Kept(s.stream) + KindTokens(x.kind)
  {
    hide Kept, Unrolled, Overdue, Aged, Demanded, Dispatched;
    var u := Reached(s, x).value;
    UnrolledKeeps(s.(keys := Aged(s.keys, x.start), allowed := s.allowed || (x.newLine && s.flow == 0)), x.start.column);
    DispatchedKeeps(u, x);
  }

  lemma DispatchedKeeps(s: Scanning, x: Lexeme)
    requires Sane(s) && Proper(x) && Dispatched(s, x).Some?
    ensures Kept(Dispatched(s, x).value.stream) == Kept(s.stream) + KindTokens(x.kind)
  {
    hide Kept, Unrolled, Demanded, Insert;
    match x.kind
    case EndOfText => MarkerKeeps(s, StreamEndToken);
    case Directive(t) => MarkerKeeps(s, t);
    case DocumentIndicator(t) => MarkerKeeps(s, t);
    case Dash =>
      RolledKeeps(s, x.start.column, None, BlockSequenceStartToken);
      KeptAppend(Rolled(s, x.start.column, None, BlockSequenceStartToken).value.stream, BlockEntryToken);
    case QuestionMark =>
      RolledKeeps(s, x.start.column, None, BlockMappingStartToken);
      KeptAppend(Rolled(s, x.start.column, None, BlockMappingStartToken).value.stream, KeyToken);
    case Colon => ColonKeeps(s, x.start.column);
    case NoToken =>
    case _ => KeptAppend(s.stream, KindTokens(x.kind)[0]);
  }

  lemma MarkerKeeps(s: Scanning, t: Token)
    requires Sane(s) && MarkerRead(s, t).Some? && !Implied(t)
    ensures Kept(MarkerRead(s, t).value.stream) == Kept(s.stream) + [t]
  {
    hide Kept, Unrolled, Demanded;
    UnrolledSane(s, -1);
    UnrolledKeeps(s, -1);
    KeptAppend(Unrolled(s, -1).stream, t);
  }

  lemma ColonKeeps(s: Scanning, column: int)
    requires Sane(s) && ColonRead(s, column).Some?
    ensures Kept(ColonRead(s, column).value.stream) == Kept(s.stream) + [ValueToken]
  {
    hide Kept, Insert;
    var key := InnerKey(s);
    if key.possible {
      var keyed := s.(stream := Insert(s.stream, key.number, KeyToken));
      KeptInsert(s.stream, key.number, KeyToken);
      RolledKeeps(keyed, key.mark.column, Some(key.number), BlockMappingStartToken);
      KeptAppend(Rolled(keyed, key.mark.column, Some(key.number), BlockMappingStartToken).value.stream, ValueToken);
    } else {
      RolledKeeps(s, column, None, BlockMappingStartToken);
      KeptAppend(Rolled(s, column, None, BlockMappingStartToken).value.stream, ValueToken);
    }
  }

  // ----- lexemes in the order of the text

  /** Positions only move on. */
  predicate NotAfter(m: Mark, n: Mark) {
    m.line <= n.line && m.index <= n.index
  }

  /** Each lexeme begins where the one before it ended or later, on a later line if a line break came before it,
      and nothing follows the end of the text. */
  predicate Ordered(xs: seq<Lexeme>, at: Mark)
    decreases |xs|
  {
    xs != [] ==>
      && NotAfter(at, xs[0].start) && NotAfter(xs[0].start, xs[0].end)
      && (xs[0].newLine ==> at.line < xs[0].start.line)
      && (xs[0].kind.EndOfText? ==> |xs| == 1)
      && Ordered(xs[1..], xs[0].end)
  }

  const ORIGIN := Mark(0, 0, 0)

  function EndMark(xs: seq<Lexeme>, at: Mark): Mark {
    if xs == [] then at else xs[|xs| - 1].end
  }

  lemma {:induction false} OrderedSplit(xs: seq<Lexeme>, ys: seq<Lexeme>, at: Mark)
    ensures Ordered(xs + ys, at) && ys != [] ==> Ordered(xs, at) && Ordered(ys, EndMark(xs, at))
    ensures Ordered(xs + ys, at) && ys != [] ==> forall i :: 0 <= i < |xs| ==> !xs[i].kind.EndOfText?
    decreases |xs|
  {
    hide NotAfter;
    if xs == [] {
      AddNothing(ys);
    } else if Ordered(xs + ys, at) && ys != [] {
      assert (xs + ys)[1..] == xs[1..] + ys && (xs + ys)[0] == xs[0];
      OrderedSplit(xs[1..], ys, xs[0].end);
      assert EndMark(xs[1..], xs[0].end) == EndMark(xs, at);
      hide Ordered, EndMark;
      forall i | 0 <= i < |xs| ensures !xs[i].kind.EndOfText? {
        if i > 0 { assert xs[i] == xs[1..][i - 1]; }
      }
    }
  }

  lemma {:induction false} FetchedConcat(s: Scanning, xs: seq<Lexeme>, ys: seq<Lexeme>)
    requires Sane(s)
    ensures FetchedAll(s, xs + ys) ==
      var r := FetchedAll(s, xs); if r.None? then None else FetchedAll(r.value, ys)
    decreases |xs|
  {
    hide Fetched;
    if xs == [] {
      AddNothing(ys);
    } else {
      assert (xs + ys)[1..] == xs[1..] + ys && (xs + ys)[0] == xs[0];
      var u := Fetched(s, xs[0]);
      if u.Some? { FetchedConcat(u.value, xs[1..], ys); }
    }
  }

  lemma FetchedOne(s: Scanning, x: Lexeme)
    requires Sane(s)
    ensures FetchedAll(s, [x]) == Fetched(s, x)
  {
    hide Fetched;
    assert [x][1..] == [];
  }

  // ----- keys may be dropped early

  lemma AgedTwice(keys: seq<SimpleKey>, m: Mark, n: Mark)
    requires NotAfter(m, n)
    ensures Aged(Aged(keys, m), n) == Aged(keys, n)
    ensures Overdue(keys, m) ==> Overdue(keys, n)
    ensures !Overdue(keys, m) ==> (Overdue(Aged(keys, m), n) <==> Overdue(keys, n))
  {
    assert forall i :: 0 <= i < |keys| && IsStale(keys[i], m) ==> IsStale(keys[i], n);
    var aged := Aged(keys, m);
    if Overdue(keys, n) && !Overdue(keys, m) {
      var i :| 0 <= i < |keys| && IsStale(keys[i], n) && keys[i].required;
      assert aged[i] == keys[i];
    }
  }

  /** The state `s`, or that state with the keys dropped that are too old at `mark`. */
  predicate SameOrAged(v: Scanning, s: Scanning, mark: Mark) {
    v == s || (!Overdue(s.keys, mark) && v == s.(keys := Aged(s.keys, mark)))
  }

  /** Dropping old keys early makes no difference to what comes of the next lexeme. */
  lemma FetchedAged(v: Scanning, s: Scanning, mark: Mark, x: Lexeme)
    requires Sane(s) && Sane(v) && SameOrAged(v, s, mark) && NotAfter(mark, x.start)
    ensures Fetched(v, x) == Fetched(s, x)
  {
    hide Dispatched, Unrolled, Overdue, Aged;
    AgedTwice(s.keys, mark, x.start);
  }

  /** A key that has become overdue stops the scanner at the next lexeme at the latest. */
  lemma OverdueFails(v: Scanning, s: Scanning, mark: Mark, x: Lexeme)
    requires Sane(s) && Sane(v) && SameOrAged(v, s, mark) && NotAfter(mark, x.start) && Overdue(v.keys, mark)
    ensures Fetched(s, x).None?
  {
    hide Dispatched, Unrolled;
    AgedTwice(s.keys, mark, mark);
    AgedTwice(s.keys, mark, x.start);
  }

  // ----- texts that can be scanned

  /** The text ends once, at its end. */
  predicate EndsOnce(text: seq<Lexeme>) {
    text != [] && text[|text| - 1].kind.EndOfText? && forall i :: 0 <= i < |text| - 1 ==> !text[i].kind.EndOfText?
  }

  predicate Quiet(s: Scanning) {
    forall i :: 0 <= i < |s.keys| ==> !s.keys[i].possible
  }

  /** The lexemes are in order, none is refused, and no key is open at the end. */
  predicate Scannable(text: seq<Lexeme>) {
    && Ordered(text, ORIGIN) && EndsOnce(text)
    && FetchedAll(START, text).Some? && Quiet(FetchedAll(START, text).value)
  }

  /** The tokens of such a text. */
  function ScannedTokens(text: seq<Lexeme>): seq<Token>
    requires Scannable(text)
  {
    FetchedAll(START, text).value.stream
  }

  /** The lexeme `x` comes after those scanned. */
  lemma NextInOrder(scanned: seq<Lexeme>, x: Lexeme, rest: seq<Lexeme>)
    requires Ordered(scanned + ([x] + rest), ORIGIN)
    ensures NotAfter(EndMark(scanned, ORIGIN), x.start) && (rest != [] ==> !x.kind.EndOfText?)
    ensures EndMark(scanned + [x], ORIGIN) == x.end
  {
    OrderedSplit(scanned, [x] + rest, ORIGIN);
  }

  /** Where one lexeme cannot be fetched, neither can the text. */
  lemma CannotFetch(scanned: seq<Lexeme>, x: Lexeme, rest: seq<Lexeme>)
    requires FetchedAll(START, scanned).Some? && Fetched(FetchedAll(START, scanned).value, x).None?
    ensures FetchedAll(START, scanned + ([x] + rest)).None?
  {
    hide Fetched, Ordered;
    FetchedConcat(START, scanned, [x] + rest);
    assert ([x] + rest)[0] == x;
  }

  lemma CanFetch(scanned: seq<Lexeme>, x: Lexeme)
    requires FetchedAll(START, scanned).Some?
    ensures FetchedAll(START, scanned + [x]) == Fetched(FetchedAll(START, scanned).value, x)
  {
    hide Fetched;
    FetchedConcat(START, scanned, [x]);
    FetchedOne(FetchedAll(START, scanned).value, x);
  }

  lemma QuietAged(v: Scanning, s: Scanning, mark: Mark)
    requires SameOrAged(v, s, mark) && Quiet(s)
    ensures Quiet(v) && v.stream == s.stream && !Overdue(v.keys, mark)
  {
  }

  /** What has been scanned of a text ends with its end exactly when it is all of it. */
  lemma EndInStream(text: seq<Lexeme>)
    requires Scannable(text) && forall i :: 0 <= i < |text| ==> Proper(text[i])
    ensures var stream := ScannedTokens(text); stream != [] && stream[|stream| - 1] == StreamEndToken
  {
    hide Fetched, Kept, Ordered;
    var init, x := text[..|text| - 1], text[|text| - 1];
    assert text == init + [x];
    FetchedConcat(START, init, [x]);
    FetchedOne(FetchedAll(START, init).value, x);
    LastToken(FetchedAll(START, init).value, x);
  }

  lemma LastToken(s: Scanning, x: Lexeme)
    requires Sane(s) && x.kind.EndOfText? && Fetched(s, x).Some?
    ensures var stream := Fetched(s, x).value.stream; stream != [] && stream[|stream| - 1] == StreamEndToken
  {
    hide Unrolled, Overdue, Aged;
  }

  lemma {:induction false} EndKept(stream: seq<Token>)
    ensures StreamEndToken in stream <==> StreamEndToken in Kept(stream)
  {
    if stream != [] {
      EndKept(stream[..|stream| - 1]);
      assert stream == stream[..|stream| - 1] + [stream[|stream| - 1]];
    }
  }

  lemma {:induction false} EndSpelled(xs: seq<Lexeme>)
    requires forall i :: 0 <= i < |xs| ==> Proper(xs[i]) && !xs[i].kind.EndOfText?
    ensures StreamEndToken !in LexemeTokens(xs)
  {
    hide KindTokens, Proper;
    if xs != [] {
      EndSpelled(xs[..|xs| - 1]);
      NotTheEnd(xs[|xs| - 1]);
    }
  }

  lemma NotTheEnd(x: Lexeme)
    requires Proper(x) && !x.kind.EndOfText?
    ensures StreamEndToken !in KindTokens(x.kind)
  {
  }

  lemma SameBeforeLast(a: seq<Token>, b: seq<Token>, t: Token)
    requires a + [t] == b + [t]
    ensures a == b
  {
    assert (a + [t])[..|a|] == a && (b + [t])[..|b|] == b;
    assert |a| == |a + [t]| - 1 == |b + [t]| - 1 == |b|;
  }

  /** The end of the stream is its last token only. */
  lemma EndOnlyLast(text: seq<Lexeme>)
    requires Scannable(text) && forall i :: 0 <= i < |text| ==> Proper(text[i])
    requires Kept(ScannedTokens(text)) == [StreamStartToken] + LexemeTokens(text)
    ensures var stream := ScannedTokens(text); stream != [] && StreamEndToken !in stream[..|stream| - 1]
  {
    hide FetchedAll, Ordered, Quiet, Kept, LexemeTokens;
    EndInStream(text);
    var init, last := text[..|text| - 1], text[|text| - 1];
    var stream := ScannedTokens(text);
    var y := stream[..|stream| - 1];
    assert text == init + [last] && stream == y + [StreamEndToken];
    LexemesAppend(init, last);
    KeptAppend(y, StreamEndToken);
    EndSpelled(init);
    EndKept(y);
    Regroup([StreamStartToken], LexemeTokens(init), [StreamEndToken]);
    SameBeforeLast(Kept(y), [StreamStartToken] + LexemeTokens(init), StreamEndToken);
  }

  /** Tokens that reach the end of a text are all that its lexemes stand for. */
  lemma {:induction false} AllKept(tokens: seq<Token>, text: seq<Lexeme>)
    requires EndsOnce(text) && (forall i :: 0 <= i < |text| ==> Proper(text[i]))
    requires tokens != [] && tokens[|tokens| - 1] == StreamEndToken && Kept(tokens) <= [StreamStartToken] + LexemeTokens(text)
    ensures Kept(tokens) == [StreamStartToken] + LexemeTokens(text) && TokensSay(tokens) == LexemesSay(text)
  {
    hide Kept, LexemeTokens, TokensSay;
    var init, last := text[..|text| - 1], text[|text| - 1];
    assert text == init + [last];
    LexemesAppend(init, last);
    EndSpelled(init);
    var y := tokens[..|tokens| - 1];
    assert tokens == y + [StreamEndToken];
    KeptAppend(y, StreamEndToken);
    var all, k := [StreamStartToken] + LexemeTokens(text), Kept(tokens);
    assert k[|k| - 1] == StreamEndToken;
    LastOnly([StreamStartToken] + LexemeTokens(init), k);
    Regroup([StreamStartToken], LexemeTokens(init), [StreamEndToken]);
    KeptSays(tokens);
    SayStart(LexemeTokens(text));
  }

  lemma LastOnly(a: seq<Token>, k: seq<Token>)
    requires StreamEndToken !in a && k <= a + [StreamEndToken] && k != [] && k[|k| - 1] == StreamEndToken
    ensures k == a + [StreamEndToken]
  {
    assert forall i :: 0 <= i < |a| ==> (a + [StreamEndToken])[i] == a[i];
  }

  lemma {:induction false} SayStart(ts: seq<Token>)
    ensures TokensSay([StreamStartToken] + ts) == TokensSay(ts)
  {
    if ts == [] {
      assert [StreamStartToken][..0] == [] && [StreamStartToken] + ts == [StreamStartToken];
      assert TokensSay([]) == [];
    } else {
      var init, last := ts[..|ts| - 1], ts[|ts| - 1];
      SayStart(init);
      assert [StreamStartToken] + ts == ([StreamStartToken] + init) + [last] && ts == init + [last];
      SayAppend([StreamStartToken] + init, last);
      SayAppend(init, last);
    }
  }
}
