/** Nodes laid out by indentation are scanned as the tokens of their syntax. */
module YamlIndented {
  import opened Bytes
  import opened Sequences
  import opened YamlTokens
  import opened YamlTokenStream
  import opened YamlLexemes
  import opened YamlSyntax
  import opened YamlLayout
  import opened YamlInline

  // ----- levels

  /** Outside of brackets, with no key needed, and none that begins after `at`. */
  predicate Loose(s: Scanning, at: Mark) {
    && Sane(s) && s.flow == 0 && !Demanded(s.keys[0]) && (s.keys[0].possible ==> NotAfter(s.keys[0].mark, at))
  }

  /** Once the blocks deeper than `column` are closed, the tokens are `stream`, inside the blocks of `indents` and one
      at `column`. */
  predicate Settled(s: Scanning, column: int, stream: seq<Token>, indents: seq<int>, at: Mark) {
    && Loose(s, at)
    && var u := Unrolled(s, column); u.stream == stream && u.indent == column && u.indents == indents
  }

  lemma {:induction false} UnrolledTwice(s: Scanning, i: int, j: int)
    requires i >= j
    ensures Unrolled(Unrolled(s, i), j) == Unrolled(s, j)
    decreases |s.indents|
  {
    if s.flow > 0 || s.indent <= i || s.indents == [] {
    } else {
      var k := |s.indents| - 1;
      UnrolledTwice(s.(stream := s.stream + [BlockEndToken], indent := s.indents[k], indents := s.indents[..k]), i, j);
    }
  }

  /** Closing blocks does not look at the keys. */
  lemma {:induction false} UnrolledKeys(s: Scanning, column: int, keys: seq<SimpleKey>, allowed: bool)
    ensures Unrolled(s.(keys := keys, allowed := allowed), column) == Unrolled(s, column).(keys := keys, allowed := allowed)
    decreases |s.indents|
  {
    if s.flow > 0 || s.indent <= column || s.indents == [] {
    } else {
      var k := |s.indents| - 1;
      UnrolledKeys(s.(stream := s.stream + [BlockEndToken], indent := s.indents[k], indents := s.indents[..k]), column, keys, allowed);
    }
  }

  /** Closing the blocks that a lexeme is not part of beforehand makes no difference. */
  lemma UnrollFirst(s: Scanning, x: Lexeme)
    requires Sane(s)
    ensures Sane(Unrolled(s, x.start.column)) && Fetched(Unrolled(s, x.start.column), x) == Fetched(s, x)
  {
    hide Unrolled, Dispatched, Aged, Overdue;
    var u, c := Unrolled(s, x.start.column), x.start.column;
    UnrolledSane(s, c);
    UnrolledTwice(s, c, c);
    var keys, allowed := Aged(s.keys, x.start), s.allowed || (x.newLine && s.flow == 0);
    UnrolledKeys(s, c, keys, allowed);
    UnrolledKeys(u, c, keys, allowed);
  }

  lemma UnrollThenScan(s: Scanning, xs: seq<Lexeme>, r: Scanning)
    requires Sane(s) && xs != [] && Sane(Unrolled(s, xs[0].start.column)) && Scans(Unrolled(s, xs[0].start.column), xs, r)
    ensures Scans(s, xs, r)
  {
    hide Unrolled, Fetched;
    UnrollFirst(s, xs[0]);
  }

  lemma SettledUnrolled(s: Scanning, column: int, stream: seq<Token>, indents: seq<int>, at: Mark)
    requires Settled(s, column, stream, indents, at)
    ensures var u := Unrolled(s, column); Loose(u, at) && u.stream == stream && u.indent == column && u.indents == indents
  {
    hide Unrolled;
    UnrolledSane(s, column);
  }

  lemma SettledHere(s: Scanning, at: Mark)
    requires Loose(s, at)
    ensures Settled(s, s.indent, s.stream, s.indents, at)
  {
  }

  /** The end of a block closes it. */
  lemma SettledOutside(s: Scanning, column: int, stream: seq<Token>, indent: int, indents: seq<int>, at: Mark)
    requires Settled(s, column, stream, indents + [indent], at) && indent < column
    ensures Settled(s, indent, stream + [BlockEndToken], indents, at)
  {
    UnrolledTwice(s, column, indent);
    var u := Unrolled(s, column);
    hide Loose;
    assert u.flow == 0 by { SettledUnrolled(s, column, stream, indents + [indent], at); LooseFlow(u, at); }
    assert (indents + [indent])[..|indents|] == indents;
  }

  lemma LooseFlow(s: Scanning, at: Mark)
    requires Loose(s, at)
    ensures s.flow == 0 && |s.keys| == 1 && Sane(s)
  {
  }

  lemma LooseLater(s: Scanning, at: Mark, later: Mark)
    requires Loose(s, at) && NotAfter(at, later)
    ensures Loose(s, later)
  {
  }

  // ----- single lexemes

  /** A needed key is never in the way. */
  lemma NothingNeeded(s: Scanning, at: Mark, m: Mark)
    requires Loose(s, at)
    ensures !Overdue(s.keys, m)
  {
  }

  /** A part of a node to the right of the current level. */
  lemma PartStep(s: Scanning, x: Lexeme, at: Mark) returns (r: Scanning)
    requires Loose(s, at) && BeginsPart(x) && s.indent < x.start.column && Ordered([x], at)
    ensures Scans(s, [x], r) && Loose(r, x.end) && r.stream == s.stream + KindTokens(x.kind)
    ensures r.indent == s.indent && r.indents == s.indents && r.allowed == AllowedAfter(x)
  {
    InOrder([x], at);
    NothingNeeded(s, at, x.start);
    PartScans(s, x);
    r := s.(stream := s.stream + KindTokens(x.kind), keys := Aged(KeysWith(s, x), x.start), allowed := AllowedAfter(x));
    ScansSane(s, [x], r);
  }

  lemma BlockScalarStep(s: Scanning, x: Lexeme, at: Mark) returns (r: Scanning)
    requires Loose(s, at) && x.kind.BlockScalar? && x.sound && s.indent < x.start.column && Ordered([x], at)
    ensures Scans(s, [x], r) && Loose(r, x.end) && r.stream == s.stream + KindTokens(x.kind)
    ensures r.indent == s.indent && r.indents == s.indents
  {
    InOrder([x], at);
    NothingNeeded(s, at, x.start);
    hide Overdue;
    ReachedInner(s, x);
    r := Dispatched(Reached(s, x).value, x).value;
    ScansOne(s, x, r);
  }

  /** The tokens that open a block at `column`, if there is none yet. */
  function Opened(s: Scanning, column: int, start: Token): seq<Token> {
    if s.indent < column then [start] else []
  }

  function Inside(s: Scanning, column: int): seq<int> {
    if s.indent < column then s.indents + [s.indent] else s.indents
  }

  /** A dash or a question mark at the current level, or one that opens a block. */
  lemma MarkStep(s: Scanning, x: Lexeme, at: Mark) returns (r: Scanning)
    requires Loose(s, at) && (x.kind.Dash? || x.kind.QuestionMark?) && MayBegin(s, x) && s.indent <= x.start.column && Ordered([x], at)
    requires s.indent < x.start.column ==> |s.indents| < MAX_INDENTS
    ensures var start := if x.kind.Dash? then BlockSequenceStartToken else BlockMappingStartToken;
      && Scans(s, [x], r) && Loose(r, x.end) && r.allowed && r.indent == x.start.column && r.indents == Inside(s, x.start.column)
      && r.stream == s.stream + Opened(s, x.start.column, start) + [if x.kind.Dash? then BlockEntryToken else KeyToken]
  {
    InOrder([x], at);
    NothingNeeded(s, at, x.start);
    hide Overdue;
    ReachedInner(s, x);
    r := Dispatched(Reached(s, x).value, x).value;
    ScansOne(s, x, r);
    AddNothing(s.stream);
  }

  /** The colon of a key with a question mark. */
  lemma ColonStep(s: Scanning, x: Lexeme, at: Mark) returns (r: Scanning)
    requires Loose(s, at) && x.kind.Colon? && x.newLine && s.indent == x.start.column && Ordered([x], at)
    ensures Scans(s, [x], r) && Loose(r, x.end) && r.allowed && r.indent == s.indent && r.indents == s.indents
    ensures r.stream == s.stream + [ValueToken]
  {
    InOrder([x], at);
    NothingNeeded(s, at, x.start);
    hide Overdue;
    ReachedInner(s, x);
    assert at.line < x.start.line;
    r := Dispatched(Reached(s, x).value, x).value;
    ScansOne(s, x, r);
  }

  /** A simple key with its colon, at the current level or one that opens a mapping. */
  lemma SimpleKeyStep(t: Text, x: Lexeme, s: Scanning, at: Mark) returns (r: Scanning)
    requires Loose(s, at) && t.Text? && Inline(t, 0) && TextLexemes(t) != [] && Ordered(TextLexemes(t) + [x], at)
    requires OnLine(t, TextLexemes(t)[0].start.column) && MayBegin(s, TextLexemes(t)[0])
    requires var c := TextLexemes(t)[0].start.column; s.indent <= c <= x.start.column && (s.indent < c ==> |s.indents| < MAX_INDENTS)
    requires x.kind.Colon? && KeyFits(t, x)
    ensures var c := TextLexemes(t)[0].start.column;
      && Scans(s, TextLexemes(t) + [x], r) && Loose(r, x.end) && !r.allowed && r.indent == c && r.indents == Inside(s, c)
      && r.stream == s.stream + Opened(s, c, BlockMappingStartToken) + ([KeyToken] + NodeTokens(NodeOf(t)) + [ValueToken])
  {
    hide NodeTokens, NodeOf, Inline, Ordered, Scans, TextLexemes;
    var xs, key := TextLexemes(t), NodeTokens(NodeOf(t));
    OrderedParts(xs, [x], at);
    StartsInOrder(xs, at, 0, |xs| - 1);
    OrderedParts(xs[..|xs| - 1], [xs[|xs| - 1]], at) by { assert xs == xs[..|xs| - 1] + [xs[|xs| - 1]]; }
    var n := xs[|xs| - 1].start;
    InOrder([x], EndMark(xs, at));
    InOrder([xs[|xs| - 1]], EndMark(xs[..|xs| - 1], at));
    KeyStays(s, xs[0], n, x.start);
    assert Clear(s, xs);
    OnLineInner(t, xs[0].start.column, s.indent);
    InlineScans(t, s, at);
    var q := s.(stream := s.stream + key, keys := Aged(KeysWith(s, xs[0]), n), allowed := AllowedBehind(t));
    ScansSane(s, xs, q);
    r := RevealBlock(q, x, s, xs[0], key);
    ScansBoth(s, xs, q, [x], r);
  }

  lemma OnLineInner(t: Text, column: int, indent: int)
    requires OnLine(t, column) && indent <= column
    ensures OnLine(t, indent)
  {
  }

  lemma RevealBlock(q: Scanning, x: Lexeme, s: Scanning, y: Lexeme, key: seq<Token>) returns (r: Scanning)
    requires Sane(s) && s.flow == 0 && Sane(q) && q.flow == 0 && q.indent == s.indent && q.indents == s.indents
    requires q.stream == s.stream + key && q.keys[0] == KeyAt(s, y) && !IsStale(q.keys[0], x.start) && NotAfter(y.start, x.end)
    requires var c := y.start.column; s.indent <= c <= x.start.column && (s.indent < c ==> |s.indents| < MAX_INDENTS) && x.kind.Colon?
    ensures var c := y.start.column;
      && Scans(q, [x], r) && Loose(r, x.end) && !r.allowed && r.indent == c && r.indents == Inside(s, c)
      && r.stream == s.stream + Opened(s, c, BlockMappingStartToken) + ([KeyToken] + key + [ValueToken])
  {
    assert !Overdue(q.keys, x.start);
    ReachedInner(q, x);
    var u := Reached(q, x).value;
    assert u.keys == q.keys;
    hide Reached, Overdue, Aged;
    r := ColonRead(u, x.start.column).value;
    assert Dispatched(u, x) == Some(r) by { RevealedAt(u, x.start.column, s, y, key); }
    ScansOne(q, x, r);
    RevealedAt(u, x.start.column, s, y, key);
  }

  /** What a colon does after the key that began at `y`. */
  lemma RevealedAt(u: Scanning, column: int, s: Scanning, y: Lexeme, key: seq<Token>)
    requires Sane(u) && s.flow == 0 && u.flow == 0 && u.indent == s.indent && u.indents == s.indents
    requires u.stream == s.stream + key && u.keys[0] == KeyAt(s, y) && (s.indent < y.start.column ==> |s.indents| < MAX_INDENTS)
    requires s.indent <= y.start.column
    ensures var c := y.start.column;
      ColonRead(u, column) == Some(Scanning(s.stream + Opened(s, c, BlockMappingStartToken) + ([KeyToken] + key + [ValueToken]), c, Inside(s, c),
                                            [KeyAt(s, y).(possible := false)], false, 0))
  {
    hide Insert;
    InsertAt(s.stream, key, KeyToken);
    InsertAt(s.stream, [KeyToken] + key, BlockMappingStartToken);
    Regroup(s.stream, [BlockMappingStartToken], [KeyToken] + key + [ValueToken]);
    AddNothing(s.stream);
    assert [BlockMappingStartToken] + ([KeyToken] + key) + [ValueToken] == [BlockMappingStartToken] + ([KeyToken] + key + [ValueToken]);
    var r := ColonRead(u, column).value;
    assert r.stream == s.stream + Opened(s, y.start.column, BlockMappingStartToken) + ([KeyToken] + key + [ValueToken]);
    assert r.keys == [KeyAt(s, y).(possible := false)];
  }

  // ----- what is not a key, and how deep is too deep

  /** A colon on a later line than the node before it, or more than 1024 characters behind its beginning, finds no key. */
  lemma KeyTooFar(s: Scanning, x: Lexeme, y: Lexeme, at: Mark)
    requires Loose(s, at) && BeginsPart(x) && !AllowedAfter(x) && s.indent <= x.start.column && MayBegin(s, x) && Ordered([x, y], at)
    requires y.kind.Colon? && !y.newLine && (y.start.line > x.start.line || y.start.index > x.start.index + 1024)
    ensures FetchedAll(s, [x] + [y]) == None
  {
    hide Ordered, Unrolled;
    NothingNeeded(s, at, x.start);
    PartScans(s, x);
    var r := s.(stream := s.stream + KindTokens(x.kind), keys := Aged(KeysWith(s, x), x.start), allowed := false);
    FetchedConcat(s, [x], [y]);
    FetchedOne(r, y);
    var key := r.keys[0];
    assert key == KeyAt(s, x) by { FreshKey(s, x); }
    if !key.required {
      var aged := r.(keys := Aged(r.keys, y.start), allowed := false);
      UnrolledSane(aged, y.start.column);
    }
  }

  /** No block is opened inside 10000 others, and no bracket inside 10000 others. */
  lemma TooDeep(s: Scanning, x: Lexeme)
    requires Sane(s)
    ensures x.kind.FlowStart? && s.flow >= 10000 ==> Fetched(s, x) == None
    ensures (x.kind.Dash? || x.kind.QuestionMark?) && s.flow == 0 && s.indent < x.start.column && |s.indents| >= 10000 ==>
      Fetched(s, x) == None
  {
    hide Overdue, Aged;
    var aged := s.(keys := Aged(s.keys, x.start), allowed := s.allowed || (x.newLine && s.flow == 0));
    UnrolledSane(aged, x.start.column);
  }

  // ----- nodes

  lemma EndsBoth(xs: seq<Lexeme>, ys: seq<Lexeme>, at: Mark)
    ensures EndMark(xs + ys, at) == EndMark(ys, EndMark(xs, at))
  {
    if ys == [] { AddNothing(xs); }
  }

  /** The lexemes are scanned as `tokens`, once the blocks among them are closed. */
  ghost predicate Lays(s: Scanning, xs: seq<Lexeme>, r: Scanning, tokens: seq<Token>, at: Mark) {
    Scans(s, xs, r) && Settled(r, s.indent, s.stream + tokens, s.indents, EndMark(xs, at))
  }

  /** The lexemes are scanned as `tokens`, and open no block. */
  ghost predicate Goes(s: Scanning, xs: seq<Lexeme>, r: Scanning, tokens: seq<Token>, at: Mark) {
    Scans(s, xs, r) && Loose(r, EndMark(xs, at)) && r.stream == s.stream + tokens && r.indent == s.indent && r.indents == s.indents
  }

  lemma GoesBoth(s: Scanning, xs: seq<Lexeme>, r: Scanning, a: seq<Token>, ys: seq<Lexeme>, q: Scanning, b: seq<Token>, at: Mark)
    requires Goes(s, xs, r, a, at) && Goes(r, ys, q, b, EndMark(xs, at))
    ensures Goes(s, xs + ys, q, a + b, at)
  {
    hide Scans, Loose;
    ScansBoth(s, xs, r, ys, q);
    EndsBoth(xs, ys, at);
    Regroup(s.stream, a, b);
  }

  lemma GoesThenLays(s: Scanning, xs: seq<Lexeme>, r: Scanning, a: seq<Token>, ys: seq<Lexeme>, q: Scanning, b: seq<Token>, at: Mark)
    requires Goes(s, xs, r, a, at) && Lays(r, ys, q, b, EndMark(xs, at))
    ensures Lays(s, xs + ys, q, a + b, at)
  {
    hide Scans, Loose, Settled;
    ScansBoth(s, xs, r, ys, q);
    EndsBoth(xs, ys, at);
    Regroup(s.stream, a, b);
  }

  lemma GoesNowhere(s: Scanning, at: Mark)
    requires Loose(s, at)
    ensures Goes(s, [], s, [], at)
  {
    ScansNothing(s);
    AddNothing(s.stream);
  }

  lemma GoesLays(s: Scanning, xs: seq<Lexeme>, r: Scanning, tokens: seq<Token>, at: Mark)
    requires Goes(s, xs, r, tokens, at)
    ensures Lays(s, xs, r, tokens, at)
  {
    SettledHere(r, EndMark(xs, at));
  }

  /** Properties and scalars to the right of the current level, on whatever lines. */
  lemma {:induction false} PartsGo(s: Scanning, xs: seq<Lexeme>, at: Mark) returns (r: Scanning)
    requires Loose(s, at) && Ordered(xs, at) && forall i :: 0 <= i < |xs| ==> BeginsPart(xs[i]) && s.indent < xs[i].start.column
    ensures Goes(s, xs, r, LexemeTokens(xs), at) && (xs == [] ==> r == s)
    decreases |xs|
  {
    hide Scans, Loose, Ordered, LexemeTokens;
    if xs == [] {
      GoesNowhere(s, at);
      NothingSpelled();
      r := s;
    } else {
      var init, x := xs[..|xs| - 1], xs[|xs| - 1];
      assert xs == init + [x];
      OrderedParts(init, [x], at);
      var q := PartsGo(s, init, at);
      r := PartStep(q, x, EndMark(init, at));
      LexemesAppend(init, x);
      GoesBoth(s, init, q, LexemeTokens(init), [x], r, KindTokens(x.kind), at);
    }
  }

  /** A scalar or an alias with its properties, or properties alone. */
  lemma WordGoes(t: Text, s: Scanning, at: Mark, allowed: bool, indentless: bool) returns (r: Scanning)
    requires t.Text? && !t.body.Group? && Loose(s, at) && Ordered(TextLexemes(t), at)
    requires Indented(t, s.indent, |s.indents|, allowed, indentless)
    ensures Goes(s, TextLexemes(t), r, NodeTokens(NodeOf(t)), at)
  {
    hide Loose, Ordered, LexemeTokens, NodeTokens, NodeOf, Goes, RightOf;
    var xs := TextLexemes(t);
    assert forall i :: 0 <= i < |t.props| ==> s.indent < t.props[i].start.column by { RightOfIs(t.props, s.indent); }
    WordTokens(t);
    if t.body.Word? && t.body.x.kind.BlockScalar? {
      var x := t.body.x;
      OrderedParts(t.props, [x], at);
      var q := PartsGo(s, t.props, at);
      GoesIs(s, t.props, q, LexemeTokens(t.props), at);
      r := BlockScalarStep(q, x, EndMark(t.props, at));
      LexemesAppend(t.props, x);
      GoesOne(q, x, r, KindTokens(x.kind), EndMark(t.props, at));
      GoesBoth(s, t.props, q, LexemeTokens(t.props), [x], r, KindTokens(x.kind), at);
    } else {
      assert xs == t.props + (if t.body.Word? then [t.body.x] else []);
      r := PartsGo(s, xs, at);
    }
  }

  lemma RightOfIs(xs: seq<Lexeme>, column: int)
    requires RightOf(xs, column)
    ensures forall i :: 0 <= i < |xs| ==> column < xs[i].start.column
  {
  }

  lemma GoesIs(s: Scanning, xs: seq<Lexeme>, r: Scanning, tokens: seq<Token>, at: Mark)
    requires Goes(s, xs, r, tokens, at)
    ensures Loose(r, EndMark(xs, at)) && r.indent == s.indent && r.indents == s.indents
  {
  }

  lemma GoesOne(s: Scanning, x: Lexeme, r: Scanning, tokens: seq<Token>, at: Mark)
    requires Scans(s, [x], r) && Loose(r, x.end) && r.stream == s.stream + tokens && r.indent == s.indent && r.indents == s.indents
    ensures Goes(s, [x], r, tokens, at)
  {
  }

  /** A bracketed collection to the right of the current level. */
  lemma GroupGoes(b: Body, s: Scanning, at: Mark) returns (r: Scanning)
    requires b.Group? && Bracketed(b, 0) && s.indent < b.open[0].start.column && Loose(s, at) && Ordered(BodyLexemes(b), at)
    ensures Goes(s, BodyLexemes(b), r, ContentTokens(ContentOf(b)), at)
  {
    hide Ordered, InlineItems, ItemsLexemes, ContentTokens, ContentOf, Scans;
    var xs := BodyLexemes(b);
    FirstOfGroup(b, 0);
    StartsInOrder(xs, at, 0, |xs| - 1);
    OrderedParts(xs[..|xs| - 1], [xs[|xs| - 1]], at) by { assert xs == xs[..|xs| - 1] + [xs[|xs| - 1]]; }
    InOrder([xs[|xs| - 1]], EndMark(xs[..|xs| - 1], at));
    GroupScans(b, s, at);
    r := s.(stream := s.stream + ContentTokens(ContentOf(b)), keys := Aged(KeysWith(s, xs[0]), xs[|xs| - 1].start), allowed := false);
    ScansSane(s, xs, r);
  }

  /** A node is scanned as its tokens, once the blocks in it are closed. */
  lemma {:induction false} NodeLays(t: Text, s: Scanning, at: Mark, allowed: bool, indentless: bool) returns (r: Scanning)
    requires Loose(s, at) && Ordered(TextLexemes(t), at) && (allowed ==> s.allowed)
    requires Indented(t, s.indent, |s.indents|, allowed, indentless)
    ensures Lays(s, TextLexemes(t), r, NodeTokens(NodeOf(t)), at)
    decreases t
  {
    hide Loose, Ordered, Goes, Lays, LexemeTokens, ContentTokens, ContentOf, BodyLexemes, PropertiesOf, PropertyTokens, Bracketed, Block;
    if t.NoText? {
      GoesNowhere(s, at);
      GoesLays(s, [], s, [], at);
      r := s;
    } else if !t.body.Group? {
      r := WordGoes(t, s, at, allowed, indentless);
      GoesLays(s, TextLexemes(t), r, NodeTokens(NodeOf(t)), at);
    } else {
      var xs, ys := t.props, BodyLexemes(t.body);
      OrderedParts(xs, ys, at);
      RightOfIs(xs, s.indent);
      PropertiesSpelled(xs);
      var q := PartsGo(s, xs, at);
      GoesIs(s, xs, q, LexemeTokens(xs), at);
      if IsFlow(t.body.form) {
        r := GroupGoes(t.body, q, EndMark(xs, at));
        GoesLays(q, ys, r, ContentTokens(ContentOf(t.body)), EndMark(xs, at));
      } else {
        BlockText(t.body);
        r := BlockLays(t.body.form, t.body.items, q, EndMark(xs, at), allowed && xs == [], indentless);
      }
      GoesThenLays(s, xs, q, LexemeTokens(xs), ys, r, ContentTokens(ContentOf(t.body)), at);
    }
  }

  lemma BlockText(b: Body)
    requires b.Group? && !IsFlow(b.form) && b.open == [] && b.end == []
    ensures BodyLexemes(b) == ItemsLexemes(b.items)
    ensures ContentTokens(ContentOf(b)) == Opening(b.form) + EntriesTokens(b.form, EntriesOf(b.form, b.items), true) + Closing(b.form)
  {
    hide ItemsLexemes, EntriesOf, EntriesTokens, TailTokens;
    AddNothing(ItemsLexemes(b.items));
    TailIsEntries(b.form, EntriesOf(b.form, b.items), false, true);
    AddNothing(Closing(b.form));
    Regroup(Opening(b.form), EntriesTokens(b.form, EntriesOf(b.form, b.items), true), Closing(b.form));
  }

  /** A collection laid out by indentation. */
  lemma {:induction false} BlockLays(form: Form, items: seq<Element>, s: Scanning, at: Mark, allowed: bool, indentless: bool)
    returns (r: Scanning)
    requires !IsFlow(form) && Loose(s, at) && Ordered(ItemsLexemes(items), at) && (allowed ==> s.allowed)
    requires Block(form, items, s.indent, |s.indents|, allowed, indentless)
    ensures Lays(s, ItemsLexemes(items), r, Opening(form) + EntriesTokens(form, EntriesOf(form, items), true) + Closing(form), at)
    decreases items, 1
  {
    hide Loose, Ordered, Scans, Settled, EntryTokens, EntryOf, ItemLexemes, EntriesTokens, IndentedItem, EntriesOf;
    var i, x := items[0], FirstLexeme(items);
    var c := x.start.column;
    var xs, ys := ItemLexemes(i), ItemsLexemes(items[1..]);
    OrderedParts(xs, ys, at);
    var start := Opened(s, c, Starting(form));
    LooseFlow(s, at);
    var q := ItemLays(form, i, s, at, c, true);
    var a, b := EntryTokens(form, EntryOf(form, i)), EntriesTokens(form, EntriesOf(form, items[1..]), false);
    r := ItemsLay(form, items[1..], q, c, s.stream + start + a, Inside(s, c), EndMark(xs, at));
    ScansBoth(s, xs, q, ys, r);
    EndsBoth(xs, ys, at);
    BlockEntries(form, items);
    Regroup(s.stream + start, a, b);
    var entries := a + b;
    Regroup(s.stream, start, entries);
    if s.indent < c {
      SettledOutside(r, c, s.stream + start + entries, s.indent, s.indents, EndMark(xs + ys, at));
      Regroup(s.stream, start + entries, [BlockEndToken]);
    } else {
      AddNothing(start + entries);
    }
  }

  lemma BlockEntries(form: Form, items: seq<Element>)
    requires items != [] && !IsFlow(form)
    ensures EntriesTokens(form, EntriesOf(form, items), true)
      == EntryTokens(form, EntryOf(form, items[0])) + EntriesTokens(form, EntriesOf(form, items[1..]), false)
    ensures EntriesTokens(form, EntriesOf(form, items), false) == EntriesTokens(form, EntriesOf(form, items), true)
  {
    hide EntryTokens, EntryOf;
    assert EntriesOf(form, items)[1..] == EntriesOf(form, items[1..]);
    AddNothing(EntryTokens(form, EntryOf(form, items[0])));
  }

  /** The entries of a block after the first. */
  lemma {:induction false} ItemsLay(form: Form, items: seq<Element>, s: Scanning, c: int, stream: seq<Token>, indents: seq<int>, at: Mark)
    returns (r: Scanning)
    requires !IsFlow(form) && Settled(s, c, stream, indents, at) && Ordered(ItemsLexemes(items), at)
    requires IndentedItems(form, items, c, |indents|, false)
    ensures Scans(s, ItemsLexemes(items), r)
    ensures Settled(r, c, stream + EntriesTokens(form, EntriesOf(form, items), false), indents, EndMark(ItemsLexemes(items), at))
    decreases items, 0
  {
    hide Loose, Ordered, Scans, EntryTokens, EntryOf, ItemLexemes, EntriesTokens, Unrolled, EntriesOf;
    if items == [] {
      NoEntries(form);
      AddNothing(stream);
      assert Sane(s) by { LooseFlow(s, at); }
      ScansNothing(s);
      r := s;
    } else {
      var i := items[0];
      var xs, ys := ItemLexemes(i), ItemsLexemes(items[1..]);
      OrderedParts(xs, ys, at);
      SettledUnrolled(s, c, stream, indents, at);
      var u := Unrolled(s, c);
      NotEmptyItem(form, i, c, |indents|, false);
      LooseFlow(s, at);
      LooseFlow(u, at);
      var q := ItemLays(form, i, u, at, c, false);
      UnrollThenScan(s, xs, q);
      var a, b := EntryTokens(form, EntryOf(form, i)), EntriesTokens(form, EntriesOf(form, items[1..]), false);
      AddNothing(stream);
      r := ItemsLay(form, items[1..], q, c, stream + a, indents, EndMark(xs, at));
      ScansBoth(s, xs, q, ys, r);
      EndsBoth(xs, ys, at);
      BlockEntries(form, items);
      Regroup(stream, a, b);
    }
  }

  lemma NoEntries(form: Form)
    ensures EntriesTokens(form, EntriesOf(form, []), false) == []
  {
  }

  lemma NotEmptyItem(form: Form, i: Element, column: int, depth: nat, first: bool)
    requires IndentedItem(form, i, column, depth, first)
    ensures ItemLexemes(i) != [] && ItemLexemes(i)[0].start.column == column && (first || ItemLexemes(i)[0].newLine)
  {
  }

  /** The token that opens the block of a collection. */
  function Starting(form: Form): Token {
    if IsMapping(form) then BlockMappingStartToken else BlockSequenceStartToken
  }

  /** An entry of a block at column `c`; the first one opens the block. */
  lemma {:induction false} ItemLays(form: Form, i: Element, s: Scanning, at: Mark, c: int, first: bool) returns (r: Scanning)
    requires !IsFlow(form) && Loose(s, at) && Ordered(ItemLexemes(i), at) && s.indent <= c && (s.indent < c ==> |s.indents| < MAX_INDENTS)
    requires IndentedItem(form, i, c, |Inside(s, c)|, first) && MayBegin(s, ItemLexemes(i)[0])
    ensures Scans(s, ItemLexemes(i), r)
    ensures Settled(r, c, s.stream + Opened(s, c, Starting(form)) + EntryTokens(form, EntryOf(form, i)), Inside(s, c),
                    EndMark(ItemLexemes(i), at))
    decreases i, 2
  {
    hide Loose, Ordered, Settled, Indented, Inline, EntryTokens, EntryOf, ItemLexemes, Opened, Inside, MayBegin, IndentedItem, Scans;
    if i.mark != [] {
      r := MarkedLays(form, i, s, at, c, first);
    } else {
      r := SimpleLays(form, i, s, at, c, first);
    }
  }

  /** An entry with a dash or a question mark. */
  lemma {:induction false} MarkedLays(form: Form, i: Element, s: Scanning, at: Mark, c: int, first: bool) returns (r: Scanning)
    requires !IsFlow(form) && Loose(s, at) && Ordered(ItemLexemes(i), at) && s.indent <= c && (s.indent < c ==> |s.indents| < MAX_INDENTS)
    requires IndentedItem(form, i, c, |Inside(s, c)|, first) && MayBegin(s, ItemLexemes(i)[0]) && i.mark != []
    ensures Scans(s, ItemLexemes(i), r)
    ensures Settled(r, c, s.stream + Opened(s, c, Starting(form)) + EntryTokens(form, EntryOf(form, i)), Inside(s, c),
                    EndMark(ItemLexemes(i), at))
    decreases i, 1
  {
    hide Loose, Ordered, Settled, Lays, Indented, Inline, OnLine, KeyFits, NodeTokens, NodeOf, TextLexemes, MayBegin, Opened, Inside, Scans,
         EntryTokens, EntryOf;
    var xs, ys, n := TextLexemes(i.key), TextLexemes(i.value), |Inside(s, c)|;
    var key, value := NodeTokens(NodeOf(i.key)), NodeTokens(NodeOf(i.value));
    var start := Opened(s, c, Starting(form));
    BlockItem(form, i, c, n, first);
    var x := i.mark[0];
    var rest := xs + (i.colon + ys);
    assert ItemLexemes(i) == [x] + rest;
    OrderedParts([x], rest, at);
    var q := MarkStep(s, x, at);
    var lead := if x.kind.Dash? then BlockEntryToken else KeyToken;
    OrderedParts(xs, i.colon + ys, x.end);
    if i.colon == [] {
      assert i.colon + ys == [];
      AddNothing(xs);
      r := NodeLays(i.key, q, x.end, true, !x.kind.Dash?);
      ThenLays(s, [x], q, start, [lead], c, xs, r, key, at);
    } else {
      r := ExplicitLays(form, i, q, x.end, first);
      ThenLays(s, [x], q, start, [lead], c, rest, r, key + ([ValueToken] + value), at);
      Regroup([lead], key, [ValueToken] + value);
    }
  }

  /** An entry with a simple key. */
  lemma {:induction false} SimpleLays(form: Form, i: Element, s: Scanning, at: Mark, c: int, first: bool) returns (r: Scanning)
    requires !IsFlow(form) && Loose(s, at) && Ordered(ItemLexemes(i), at) && s.indent <= c && (s.indent < c ==> |s.indents| < MAX_INDENTS)
    requires IndentedItem(form, i, c, |Inside(s, c)|, first) && MayBegin(s, ItemLexemes(i)[0]) && i.mark == []
    ensures Scans(s, ItemLexemes(i), r)
    ensures Settled(r, c, s.stream + Opened(s, c, Starting(form)) + EntryTokens(form, EntryOf(form, i)), Inside(s, c),
                    EndMark(ItemLexemes(i), at))
    decreases i, 1
  {
    hide Loose, Ordered, Settled, Lays, Indented, Inline, OnLine, KeyFits, NodeTokens, NodeOf, TextLexemes, MayBegin, Opened, Inside, Scans,
         EntryTokens, EntryOf;
    var xs, ys, n := TextLexemes(i.key), TextLexemes(i.value), |Inside(s, c)|;
    var key, value := NodeTokens(NodeOf(i.key)), NodeTokens(NodeOf(i.value));
    var start := Opened(s, c, Starting(form));
    BlockItem(form, i, c, n, first);
    var x := i.colon[0];
    Regroup(xs, [x], ys);
    assert i.colon == [x];
    AddNothing(xs + ([x] + ys));
    assert ItemLexemes(i) == xs + [x] + ys;
    hide ItemLexemes;
    OrderedParts(xs + [x], ys, at);
    var q := SimpleKeyStep(i.key, x, s, at);
    r := NodeLays(i.value, q, x.end, false, true);
    ThenLays(s, xs + [x], q, start, [KeyToken] + key + [ValueToken], c, ys, r, value, at);
    Regroup([KeyToken] + key, [ValueToken], value);
  }

  /** What is in front of a node, and the node. */
  lemma ThenLays(s: Scanning, xs: seq<Lexeme>, q: Scanning, start: seq<Token>, a: seq<Token>, c: int, ys: seq<Lexeme>, r: Scanning,
                 b: seq<Token>, at: Mark)
    requires Scans(s, xs, q) && q.stream == s.stream + start + a && q.indent == c && q.indents == Inside(s, c)
    requires Lays(q, ys, r, b, EndMark(xs, at))
    ensures Scans(s, xs + ys, r) && Settled(r, c, s.stream + start + (a + b), Inside(s, c), EndMark(xs + ys, at))
  {
    hide Scans, Settled, Inside;
    ScansBoth(s, xs, q, ys, r);
    EndsBoth(xs, ys, at);
    Regroup(s.stream + start, a, b);
  }

  /** What an entry of a block is written as. */
  lemma BlockItem(form: Form, i: Element, column: int, depth: nat, first: bool)
    requires !IsFlow(form) && IndentedItem(form, i, column, depth, first)
    ensures var e, key, value := EntryOf(form, i), NodeTokens(NodeOf(i.key)), NodeTokens(NodeOf(i.value));
      && EntryTokens(form, e) == [if IsMapping(form) then KeyToken else BlockEntryToken] + key + (if i.colon == [] then [] else [ValueToken] + value)
      && (i.colon == [] ==> EntryTokens(form, e) == [if IsMapping(form) then KeyToken else BlockEntryToken] + key)
      && (i.colon == [] ==> TextLexemes(i.value) == [] && i.mark != [])
      && (i.mark == [] ==> TextLexemes(i.key) != [] && TextLexemes(i.key)[0] == ItemLexemes(i)[0])
      && (i.mark != [] ==> ItemLexemes(i)[0] == i.mark[0])
  {
    hide NodeTokens, NodeOf, Inline, Indented, KeyFits, OnLine;
    var lead := if IsMapping(form) then KeyToken else BlockEntryToken;
    AddNothing([lead]);
    AddNothing([lead] + NodeTokens(NodeOf(i.key)));
    if i.mark == [] {
      assert i.key.Text?;
      TextNotEmpty(i.key, 0);
    }
  }

  /** A key behind its question mark, and its value behind a colon on a line of its own. */
  lemma {:induction false} ExplicitLays(form: Form, i: Element, s: Scanning, at: Mark, first: bool) returns (r: Scanning)
    requires !IsFlow(form) && IndentedItem(form, i, s.indent, |s.indents|, first) && i.mark != [] && i.colon != []
    requires Loose(s, at) && s.allowed && Ordered(TextLexemes(i.key) + (i.colon + TextLexemes(i.value)), at)
    ensures Lays(s, TextLexemes(i.key) + (i.colon + TextLexemes(i.value)), r,
                 NodeTokens(NodeOf(i.key)) + ([ValueToken] + NodeTokens(NodeOf(i.value))), at)
    decreases i, 0
  {
    hide Loose, Ordered, Lays, Indented, NodeTokens, NodeOf, TextLexemes, Unrolled, ItemLexemes;
    var xs, ys, x := TextLexemes(i.key), TextLexemes(i.value), i.colon[0];
    var key, value := NodeTokens(NodeOf(i.key)), NodeTokens(NodeOf(i.value));
    assert i.colon == [x];
    OrderedParts(xs, [x] + ys, at);
    OrderedParts([x], ys, EndMark(xs, at));
    var q := NodeLays(i.key, s, at, true, true);
    var u := Unrolled(q, s.indent);
    LaysIs(s, xs, q, key, at);
    SettledUnrolled(q, s.indent, s.stream + key, s.indents, EndMark(xs, at));
    var v := ColonStep(u, x, EndMark(xs, at));
    LooseFlow(u, EndMark(xs, at));
    LooseFlow(q, EndMark(xs, at));
    UnrollThenScan(q, [x], v);
    r := NodeLays(i.value, v, x.end, true, true);
    LaysIs(v, ys, r, value, x.end);
    ScansBoth(q, [x], v, ys, r);
    ScansBoth(s, xs, q, [x] + ys, r);
    Regroup(s.stream + key, [ValueToken], value);
    Regroup(s.stream, key, [ValueToken] + value);
    EndsBoth([x], ys, EndMark(xs, at));
    EndsBoth(xs, [x] + ys, at);
    IsLays(s, xs + ([x] + ys), r, key + ([ValueToken] + value), at);
  }

  lemma LaysIs(s: Scanning, xs: seq<Lexeme>, r: Scanning, tokens: seq<Token>, at: Mark)
    requires Lays(s, xs, r, tokens, at)
    ensures Scans(s, xs, r) && Settled(r, s.indent, s.stream + tokens, s.indents, EndMark(xs, at)) && Loose(r, EndMark(xs, at))
  {
  }

  lemma IsLays(s: Scanning, xs: seq<Lexeme>, r: Scanning, tokens: seq<Token>, at: Mark)
    requires Scans(s, xs, r) && Settled(r, s.indent, s.stream + tokens, s.indents, EndMark(xs, at))
    ensures Lays(s, xs, r, tokens, at)
  {
  }
}
