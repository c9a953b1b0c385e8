/** Scalars and bracketed collections are scanned as the tokens of their syntax, on whatever flow level. */
module YamlInline {
  import opened Bytes
  import opened Sequences
  import opened YamlTokens
  import opened YamlTokenStream
  import opened YamlLexemes
  import opened YamlSyntax
  import opened YamlLayout

  /** Scanning the lexemes leads from one state to another. */
  ghost predicate Scans(s: Scanning, xs: seq<Lexeme>, r: Scanning) {
    Sane(s) && FetchedAll(s, xs) == Some(r)
  }

  lemma ScansNothing(s: Scanning)
    requires Sane(s)
    ensures Scans(s, [], s)
  {
  }

  lemma ScansOne(s: Scanning, x: Lexeme, r: Scanning)
    requires Sane(s) && Fetched(s, x) == Some(r)
    ensures Scans(s, [x], r)
  {
    hide Fetched;
    FetchedOne(s, x);
  }

  lemma ScansBoth(s: Scanning, xs: seq<Lexeme>, r: Scanning, ys: seq<Lexeme>, q: Scanning)
    requires Scans(s, xs, r) && Scans(r, ys, q)
    ensures Scans(s, xs + ys, q)
  {
    hide FetchedAll;
    FetchedConcat(s, xs, ys);
  }

  // ----- keys

  /** Only a key outside of all brackets can be needed. */
  predicate Calm(s: Scanning) {
    Sane(s) && forall i :: 1 <= i < |s.keys| ==> !s.keys[i].required
  }

  /** A lexeme may begin a key. */
  predicate MayBegin(s: Scanning, x: Lexeme) {
    s.allowed || (x.newLine && s.flow == 0)
  }

  function KeyAt(s: Scanning, x: Lexeme): SimpleKey {
    SimpleKey(true, s.flow == 0 && s.indent == x.start.column, |s.stream|, x.start)
  }

  /** The keys once a lexeme that can begin one is there. */
  function KeysWith(s: Scanning, x: Lexeme): (keys: seq<SimpleKey>)
    requires Sane(s)
    ensures |keys| == |s.keys|
  {
    if MayBegin(s, x) then s.keys[s.flow := KeyAt(s, x)] else s.keys
  }

  /** The lexeme belongs to the innermost open block. */
  predicate Inner(s: Scanning, x: Lexeme) {
    s.flow > 0 || s.indent <= x.start.column
  }

  lemma ReachedInner(s: Scanning, x: Lexeme)
    requires Sane(s) && Inner(s, x) && !Overdue(s.keys, x.start)
    ensures Reached(s, x) == Some(s.(keys := Aged(s.keys, x.start), allowed := MayBegin(s, x)))
  {
  }

  lemma AgedUpdate(keys: seq<SimpleKey>, i: nat, key: SimpleKey, m: Mark)
    requires i < |keys|
    ensures Aged(keys, m)[i := AgedKey(key, m)] == Aged(keys[i := key], m)
  {
  }

  lemma FreshKey(s: Scanning, x: Lexeme)
    ensures AgedKey(KeyAt(s, x), x.start) == KeyAt(s, x)
  {
  }

  /** A property, an alias, or a scalar that can begin a key. */
  predicate BeginsPart(x: Lexeme) {
    x.sound && (x.kind.Alias? || x.kind.Anchor? || x.kind.Tag? || x.kind.QuotedScalar? || x.kind.PlainScalar?)
  }

  predicate AllowedAfter(x: Lexeme) {
    x.kind.PlainScalar? && x.kind.trailingBreak
  }

  /** The innermost key, if it is needed, is not displaced. */
  predicate Displaceable(s: Scanning, x: Lexeme)
    requires Sane(s)
  {
    MayBegin(s, x) ==> !Demanded(InnerKey(s))
  }

  lemma KeySaved(s: Scanning, x: Lexeme)
    requires Sane(s) && Inner(s, x) && !Overdue(s.keys, x.start) && Displaceable(s, x)
    ensures var u := Reached(s, x).value; Reached(s, x).Some? && Saved(u, x.start) == Some(u.(keys := Aged(KeysWith(s, x), x.start)))
  {
    hide Overdue, Aged, Unrolled, Reached, IsStale;
    ReachedInner(s, x);
    AgedUpdate(s.keys, s.flow, KeyAt(s, x), x.start);
    FreshKey(s, x);
    Undemanded(s.keys, s.flow, x.start);
  }

  lemma Undemanded(keys: seq<SimpleKey>, i: nat, m: Mark)
    requires i < |keys|
    ensures Demanded(Aged(keys, m)[i]) ==> Demanded(keys[i])
  {
  }

  /** One lexeme that begins a node or is one of its properties. */
  lemma PartScans(s: Scanning, x: Lexeme)
    requires Sane(s) && Inner(s, x) && BeginsPart(x) && !Overdue(s.keys, x.start) && Displaceable(s, x)
    ensures Scans(s, [x], s.(stream := s.stream + KindTokens(x.kind), keys := Aged(KeysWith(s, x), x.start), allowed := AllowedAfter(x)))
  {
    hide Overdue, Aged, Unrolled, Reached, Saved, KeysWith;
    KeySaved(s, x);
    ReachedInner(s, x);
    ScansOne(s, x, s.(stream := s.stream + KindTokens(x.kind), keys := Aged(KeysWith(s, x), x.start), allowed := AllowedAfter(x)));
  }

  lemma OpenScans(s: Scanning, x: Lexeme)
    requires Sane(s) && Inner(s, x) && x.kind.FlowStart? && !Overdue(s.keys, x.start) && Displaceable(s, x) && s.flow < MAX_FLOW_LEVEL
    ensures Scans(s, [x], s.(stream := s.stream + KindTokens(x.kind), keys := Aged(KeysWith(s, x), x.start) + [NO_KEY], allowed := true,
                             flow := s.flow + 1))
  {
    hide Overdue, Aged, Unrolled, Reached, Saved, KeysWith;
    KeySaved(s, x);
    ReachedInner(s, x);
    ScansOne(s, x, s.(stream := s.stream + KindTokens(x.kind), keys := Aged(KeysWith(s, x), x.start) + [NO_KEY], allowed := true,
                      flow := s.flow + 1));
  }

  // ----- inside brackets

  /** What scanning inside brackets does: it adds tokens, and leaves the keys outside of them as old as they are at `m`. */
  ghost predicate Moves(s: Scanning, r: Scanning, tokens: seq<Token>, m: Mark) {
    && Calm(r) && r.flow == s.flow && r.indent == s.indent && r.indents == s.indents && |r.keys| == |s.keys| == s.flow + 1
    && r.stream == s.stream + tokens && r.keys[..s.flow] == Aged(s.keys[..s.flow], m)
  }

  lemma MovesBoth(s: Scanning, r: Scanning, a: seq<Token>, m: Mark, q: Scanning, b: seq<Token>, n: Mark)
    requires Moves(s, r, a, m) && Moves(r, q, b, n) && NotAfter(m, n)
    ensures Moves(s, q, a + b, n)
  {
    hide Aged;
    Regroup(s.stream, a, b);
    AgedTwice(s.keys[..s.flow], m, n);
  }

  /** No needed key is too old at `bound`, so none is before. */
  lemma NotOverdueYet(s: Scanning, r: Scanning, tokens: seq<Token>, m: Mark, bound: Mark)
    requires Calm(s) && Moves(s, r, tokens, m) && NotAfter(m, bound) && s.flow > 0 && !Overdue(s.keys, bound)
    ensures !Overdue(r.keys, bound)
  {
    var outer := s.keys[..s.flow];
    assert r.keys[0] == r.keys[..s.flow][0] == AgedKey(outer[0], m) && outer[0] == s.keys[0];
  }

  lemma NotOverdueEarlier(keys: seq<SimpleKey>, m: Mark, bound: Mark)
    requires NotAfter(m, bound) && !Overdue(keys, bound)
    ensures !Overdue(keys, m)
  {
    AgedTwice(keys, m, bound);
  }

  lemma PrefixAged(keys: seq<SimpleKey>, n: nat, m: Mark)
    requires n <= |keys|
    ensures Aged(keys, m)[..n] == Aged(keys[..n], m)
  {
  }

  /** A comma, a question mark or a colon with nothing to reveal, inside brackets. */
  lemma SignScans(s: Scanning, x: Lexeme)
    returns (r: Scanning)
    requires Calm(s) && s.flow > 0 && !Overdue(s.keys, x.start)
    requires x.kind.FlowComma? || x.kind.QuestionMark? || (x.kind.Colon? && !InnerKey(s).possible)
    ensures Scans(s, [x], r)
    ensures Moves(s, r, [if x.kind.FlowComma? then FlowEntryToken else if x.kind.QuestionMark? then KeyToken else ValueToken], x.start)
    ensures r.allowed == x.kind.FlowComma? && !InnerKey(r).possible
  {
    hide Overdue, Unrolled;
    ReachedInner(s, x);
    PrefixAged(s.keys, s.flow, x.start);
    hide Aged;
    var u := Reached(s, x).value;
    hide Reached;
    assert u.keys[s.flow] == AgedKey(s.keys[s.flow], x.start) by { AgedAt(s.keys, s.flow, x.start); }
    r := Dispatched(u, x).value;
    ScansOne(s, x, r);
    assert r.keys[..s.flow] == u.keys[..s.flow];
  }

  lemma AgedAt(keys: seq<SimpleKey>, i: nat, m: Mark)
    requires i < |keys|
    ensures Aged(keys, m)[i] == AgedKey(keys[i], m)
  {
  }

  // ----- the order of lexemes

  lemma {:induction false} StartsInOrder(xs: seq<Lexeme>, at: Mark, i: nat, j: nat)
    requires Ordered(xs, at) && i <= j < |xs|
    ensures NotAfter(at, xs[i].start) && NotAfter(xs[i].start, xs[j].start)
    decreases j
  {
    if j > 0 {
      if i == 0 {
        StartsInOrder(xs[1..], xs[0].end, 0, j - 1);
      } else {
        StartsInOrder(xs[1..], xs[0].end, i - 1, j - 1);
      }
    }
  }

  lemma {:induction false} OrderedParts(xs: seq<Lexeme>, ys: seq<Lexeme>, at: Mark)
    requires Ordered(xs + ys, at)
    ensures Ordered(xs, at) && Ordered(ys, EndMark(xs, at))
    decreases |xs|
  {
    if xs == [] {
      AddNothing(ys);
    } else {
      assert (xs + ys)[1..] == xs[1..] + ys && (xs + ys)[0] == xs[0];
      OrderedParts(xs[1..], ys, xs[0].end);
      assert EndMark(xs[1..], xs[0].end) == EndMark(xs, at);
    }
  }

  // ----- properties and words

  /** Properties and the scalar after them: the first of them may begin a key, the others may not. */
  lemma {:induction false} PartsScan(s: Scanning, xs: seq<Lexeme>, at: Mark)
    requires Sane(s) && xs != [] && Ordered(xs, at)
    requires forall i :: 0 <= i < |xs| ==> BeginsPart(xs[i]) && Inner(s, xs[i])
    requires forall i :: 0 <= i < |xs| - 1 ==> !AllowedAfter(xs[i])
    requires forall i :: 0 < i < |xs| ==> s.flow > 0 || !xs[i].newLine
    requires Displaceable(s, xs[0]) && !Overdue(KeysWith(s, xs[0]), xs[|xs| - 1].start)
    ensures var last := xs[|xs| - 1];
      Scans(s, xs, s.(stream := s.stream + LexemeTokens(xs), keys := Aged(KeysWith(s, xs[0]), last.start), allowed := AllowedAfter(last)))
    decreases |xs|
  {
    hide Overdue, Aged, BeginsPart, KeysWith, Scans;
    var n := |xs| - 1;
    var x, keys := xs[n], KeysWith(s, xs[0]);
    StartsInOrder(xs, at, 0, n);
    if n == 0 {
      FirstNotOverdue(s, x, x.start);
      PartScans(s, x);
      OneToken(x);
      assert xs == [x];
    } else {
      var init := xs[..n];
      assert xs == init + [x];
      OrderedParts(init, [x], at);
      StartsInOrder(xs, at, n - 1, n);
      NotOverdueEarlier(keys, xs[n - 1].start, x.start);
      PartsScan(s, init, at);
      var r := s.(stream := s.stream + LexemeTokens(init), keys := Aged(keys, xs[n - 1].start), allowed := false);
      AgedTwice(keys, xs[n - 1].start, x.start);
      assert Sane(r) by { ScansSane(s, init, r); }
      assert KeysWith(r, x) == r.keys by { NoKey(r, x); }
      PartScans(r, x);
      OneToken(x);
      LexemesAppend(init, x);
      Regroup(s.stream, LexemeTokens(init), KindTokens(x.kind));
      var q := s.(stream := s.stream + LexemeTokens(xs), keys := Aged(keys, x.start), allowed := AllowedAfter(x));
      ScansBoth(s, init, r, [x], q);
    }
  }

  lemma ScansSane(s: Scanning, xs: seq<Lexeme>, r: Scanning)
    requires Scans(s, xs, r)
    ensures Sane(r)
  {
  }

  lemma NoKey(s: Scanning, x: Lexeme)
    requires Sane(s) && !MayBegin(s, x)
    ensures KeysWith(s, x) == s.keys
  {
  }

  lemma OneToken(x: Lexeme)
    ensures LexemeTokens([x]) == KindTokens(x.kind)
  {
    assert [x][..0] == [] && LexemeTokens([]) == [];
    AddNothing(KindTokens(x.kind));
  }

  /** Where the key that begins is in order at the end, all keys are at its beginning. */
  lemma FirstNotOverdue(s: Scanning, x: Lexeme, bound: Mark)
    requires Sane(s) && Displaceable(s, x) && !Overdue(KeysWith(s, x), bound) && NotAfter(x.start, bound)
    ensures !Overdue(s.keys, x.start)
  {
    NotOverdueEarlier(KeysWith(s, x), x.start, bound);
    var keys := KeysWith(s, x);
    assert forall i :: 0 <= i < |s.keys| && i != s.flow ==> keys[i] == s.keys[i];
  }

  /** The tokens of properties are those of their lexemes. */
  lemma {:induction false} PropertiesSpelled(xs: seq<Lexeme>)
    requires ArePropertyLexemes(xs)
    ensures LexemeTokens(xs) == PropertyTokens(PropertiesOf(xs))
  {
    hide LexemeTokens;
    assert AnchorOf([]) == None && TagWrittenIn([]) == None;
    if |xs| == 0 {
      assert LexemeTokens([]) == [] by { NothingSpelled(); }
      assert xs == [];
    } else if |xs| == 1 {
      OneToken(xs[0]);
      assert xs == [xs[0]] && xs[1..] == [];
    } else {
      OneToken(xs[0]);
      LexemesAppend([xs[0]], xs[1]);
      assert xs == [xs[0]] + [xs[1]] && xs[1..] == [xs[1]] && [xs[1]][1..] == [];
      assert AnchorOf(xs[1..]) == if xs[1].kind.Anchor? then Some(xs[1].kind.name) else None;
      assert TagWrittenIn(xs[1..]) == if xs[1].kind.Tag? then Some((xs[1].kind.handle, xs[1].kind.suffix)) else None;
    }
  }

  lemma NothingSpelled()
    ensures LexemeTokens([]) == []
  {
  }

  // ----- the end of brackets

  lemma CloseScans(s: Scanning, x: Lexeme)
    requires Calm(s) && s.flow > 0 && x.kind.FlowEnd? && !Overdue(s.keys, x.start)
    ensures Scans(s, [x], s.(stream := s.stream + KindTokens(x.kind), keys := Aged(s.keys[..s.flow], x.start), allowed := false,
                             flow := s.flow - 1))
  {
    hide Overdue, Unrolled;
    ReachedInner(s, x);
    PrefixAged(s.keys, s.flow, x.start);
    hide Aged;
    var u := Reached(s, x).value;
    hide Reached;
    assert u.keys[s.flow] == AgedKey(s.keys[s.flow], x.start) by { AgedAt(s.keys, s.flow, x.start); }
    var r := s.(stream := s.stream + KindTokens(x.kind), keys := Aged(s.keys[..s.flow], x.start), allowed := false, flow := s.flow - 1);
    assert Forgotten(u).keys[..s.flow] == u.keys[..s.flow];
    assert Dispatched(u, x) == Some(r);
    ScansOne(s, x, r);
  }

  // ----- a colon that reveals the key before it

  /** The stream `base + key`, with the simple key beginning at `base`. */
  lemma RevealScans(s: Scanning, x: Lexeme, base: seq<Token>, key: seq<Token>) returns (r: Scanning)
    requires Calm(s) && s.flow > 0 && x.kind.Colon? && !Overdue(s.keys, x.start)
    requires s.stream == base + key && InnerKey(s).possible && !IsStale(InnerKey(s), x.start) && InnerKey(s).number == |base|
    ensures Scans(s, [x], r) && Calm(r) && r.flow == s.flow && r.indent == s.indent && r.indents == s.indents && !r.allowed
    ensures r.stream == base + ([KeyToken] + key + [ValueToken]) && |r.keys| == |s.keys|
    ensures r.keys[..s.flow] == Aged(s.keys[..s.flow], x.start)
  {
    hide Overdue, Unrolled;
    ReachedInner(s, x);
    PrefixAged(s.keys, s.flow, x.start);
    hide Aged;
    var u := Reached(s, x).value;
    hide Reached;
    assert u.keys[s.flow] == s.keys[s.flow] by { AgedAt(s.keys, s.flow, x.start); }
    r := ColonRead(u, x.start.column).value;
    InsertAt(base, key, KeyToken);
    assert r.keys[..s.flow] == u.keys[..s.flow];
    assert Dispatched(u, x) == Some(r);
    ScansOne(s, x, r);
  }

  lemma InsertAt(base: seq<Token>, key: seq<Token>, t: Token)
    ensures Insert(base + key, |base|, t) == base + ([t] + key)
    ensures base + ([t] + key) + [ValueToken] == base + ([t] + key + [ValueToken])
  {
    assert (base + key)[..|base|] == base && (base + key)[|base|..] == key;
  }

  // ----- the tokens of entries

  /** The entries of a collection without its end. */
  function EntriesTokens(form: Form, entries: seq<Entry>, first: bool): seq<Token> {
    if entries == [] then []
    else Comma(form, first) + EntryTokens(form, entries[0]) + EntriesTokens(form, entries[1..], false)
  }

  lemma {:induction false} TailIsEntries(form: Form, entries: seq<Entry>, trailing: bool, first: bool)
    ensures TailTokens(form, entries, trailing, first) == EntriesTokens(form, entries, first)
      + ((if trailing then Comma(form, first && entries == []) else []) + Closing(form))
    decreases |entries|
  {
    hide EntryTokens;
    var end := (if trailing then Comma(form, first && entries == []) else []) + Closing(form);
    if entries == [] {
      AddNothing(end);
    } else {
      TailIsEntries(form, entries[1..], trailing, false);
      Regroup(Comma(form, first) + EntryTokens(form, entries[0]), EntriesTokens(form, entries[1..], false), end);
    }
  }

  // ----- nodes on one line or between brackets

  /** Whether a key may begin right after a node. */
  predicate AllowedBehind(t: Text) {
    t.Text? && t.body.Word? && AllowedAfter(t.body.x)
  }

  lemma TextNotEmpty(t: Text, flow: nat)
    requires t.Text? && Inline(t, flow)
    ensures TextLexemes(t) != []
  {
    hide ItemsLexemes, InlineItems;
  }

  /** A key may begin with `xs`, and no needed key becomes too old before their end. */
  predicate Clear(s: Scanning, xs: seq<Lexeme>)
    requires Sane(s)
  {
    xs != [] && Displaceable(s, xs[0]) && !Overdue(KeysWith(s, xs[0]), xs[|xs| - 1].start)
  }

  /** The lexemes are scanned as the given tokens, and the first of them is a possible key if it may be one. */
  ghost predicate Taken(s: Scanning, xs: seq<Lexeme>, tokens: seq<Token>, allowed: bool) {
    && Sane(s) && xs != []
    && Scans(s, xs, s.(stream := s.stream + tokens, keys := Aged(KeysWith(s, xs[0]), xs[|xs| - 1].start), allowed := allowed))
  }

  /** A node is scanned as its tokens. */
  lemma {:induction false} InlineScans(t: Text, s: Scanning, at: Mark)
    requires t.Text? && Inline(t, s.flow) && Calm(s) && Ordered(TextLexemes(t), at) && Clear(s, TextLexemes(t))
    requires s.flow == 0 ==> OnLine(t, s.indent)
    ensures Taken(s, TextLexemes(t), NodeTokens(NodeOf(t)), AllowedBehind(t))
    decreases t, 1
  {
    hide Clear, Taken, Calm, ContentOf, ContentTokens;
    if !t.body.Group? {
      WordScans(t, s, at);
    } else if t.props == [] {
      AddNothing(BodyLexemes(t.body));
      GroupScans(t.body, s, at);
      NoProperties();
      AddNothing(ContentTokens(ContentOf(t.body)));
    } else {
      PropsThenGroup(t, s, at);
    }
  }

  lemma NoProperties()
    ensures PropertyTokens(PropertiesOf([])) == []
  {
  }

  lemma WordScans(t: Text, s: Scanning, at: Mark)
    requires t.Text? && !t.body.Group? && Inline(t, s.flow) && Calm(s) && Ordered(TextLexemes(t), at) && Clear(s, TextLexemes(t))
    requires s.flow == 0 ==> OnLine(t, s.indent)
    ensures Taken(s, TextLexemes(t), NodeTokens(NodeOf(t)), AllowedBehind(t))
  {
    hide Overdue, Aged, KeysWith, Scans, Displaceable, PropertiesOf, PropertyTokens, LexemeTokens, NodeTokens, NodeOf, Ordered;
    var xs := TextLexemes(t);
    assert xs == t.props + (if t.body.Word? then [t.body.x] else []);
    WordTokens(t);
    PartsScan(s, xs, at);
  }

  lemma WordTokens(t: Text)
    requires t.Text? && !t.body.Group? && ArePropertyLexemes(t.props)
    requires t.body.Word? ==> IsScalarKind(t.body.x.kind) || (t.body.x.kind.Alias? && t.props == [])
    ensures LexemeTokens(TextLexemes(t)) == NodeTokens(NodeOf(t))
  {
    hide PropertiesOf, PropertyTokens, LexemeTokens;
    PropertiesSpelled(t.props);
    if t.body.Word? {
      LexemesAppend(t.props, t.body.x);
      if t.body.x.kind.Alias? {
        OneToken(t.body.x);
        assert t.props + [t.body.x] == [t.body.x];
      }
    } else {
      AddNothing(t.props);
      AddNothing(LexemeTokens(t.props));
    }
  }

  /** A bracketed collection with properties. */
  lemma {:induction false} PropsThenGroup(t: Text, s: Scanning, at: Mark)
    requires t.Text? && t.body.Group? && t.props != [] && Inline(t, s.flow) && Calm(s) && Ordered(TextLexemes(t), at)
    requires (s.flow == 0 ==> OnLine(t, s.indent)) && Clear(s, TextLexemes(t))
    ensures Taken(s, TextLexemes(t), NodeTokens(NodeOf(t)), false)
    decreases t, 0
  {
    hide Overdue, Aged, Scans, PropertiesOf, PropertyTokens, LexemeTokens, BodyLexemes, Ordered, Bracketed, ContentOf, ContentTokens, KeysWith,
         ArePropertyLexemes, Inline, OnLine;
    var xs, ys := TextLexemes(t), BodyLexemes(t.body);
    InlineGroup(t, s.flow);
    FirstOfGroup(t.body, s.flow);
    assert xs[0] == t.props[0] && xs[|xs| - 1] == ys[|ys| - 1];
    var keys, m, n := KeysWith(s, xs[0]), t.props[|t.props| - 1].start, xs[|xs| - 1].start;
    var r := PropsFirst(t, s, at, ys);
    OrderedParts(t.props, ys, at);
    InnerGroup(t, s, r);
    NoKey(r, ys[0]);
    AgedTwice(keys, m, n);
    GroupScans(t.body, r, EndMark(t.props, at));
    PropertiesSpelled(t.props);
    Regroup(s.stream, LexemeTokens(t.props), ContentTokens(ContentOf(t.body)));
    ScansBoth(s, t.props, r, ys, s.(stream := s.stream + NodeTokens(NodeOf(t)), keys := Aged(keys, n), allowed := false));
  }

  lemma InlineGroup(t: Text, flow: nat)
    requires t.Text? && t.body.Group? && Inline(t, flow)
    ensures Bracketed(t.body, flow) && ArePropertyLexemes(t.props) && t.body.open != []
  {
  }

  lemma InnerGroup(t: Text, s: Scanning, r: Scanning)
    requires t.Text? && t.body.Group? && t.props != [] && t.body.open != [] && (s.flow == 0 ==> OnLine(t, s.indent))
    requires r.flow == s.flow && r.indent == s.indent && !r.allowed
    ensures Inner(r, t.body.open[0]) && !MayBegin(r, t.body.open[0])
  {
  }

  /** The properties in front of a bracketed collection. */
  lemma PropsFirst(t: Text, s: Scanning, at: Mark, ys: seq<Lexeme>) returns (r: Scanning)
    requires t.Text? && t.body.Group? && t.props != [] && ArePropertyLexemes(t.props) && Calm(s) && ys != []
    requires Ordered(t.props + ys, at) && (s.flow == 0 ==> OnLine(t, s.indent)) && Clear(s, t.props + ys)
    ensures var keys, m := KeysWith(s, t.props[0]), t.props[|t.props| - 1].start;
      && Scans(s, t.props, r) && Calm(r)
      && r == s.(stream := s.stream + LexemeTokens(t.props), keys := Aged(keys, m), allowed := false)
      && NotAfter(m, ys[|ys| - 1].start) && !Overdue(keys, m)
  {
    hide Overdue, Aged, Scans, LexemeTokens, Ordered, KeysWith;
    var xs := t.props + ys;
    assert xs[0] == t.props[0] && xs[|xs| - 1] == ys[|ys| - 1];
    var keys, m := KeysWith(s, xs[0]), t.props[|t.props| - 1].start;
    StartsInOrder(xs, at, |t.props| - 1, |xs| - 1);
    OrderedParts(t.props, ys, at);
    NotOverdueEarlier(keys, m, xs[|xs| - 1].start);
    PartsScan(s, t.props, at);
    r := s.(stream := s.stream + LexemeTokens(t.props), keys := Aged(keys, m), allowed := false);
    ScansSane(s, t.props, r);
    CalmAfter(s, xs[0], r, m);
  }

  lemma CalmAfter(s: Scanning, x: Lexeme, r: Scanning, m: Mark)
    requires Calm(s) && Sane(r) && r.flow == s.flow && r.keys == Aged(KeysWith(s, x), m)
    ensures Calm(r)
  {
  }

  lemma FirstOfGroup(b: Body, flow: nat)
    requires b.Group? && Bracketed(b, flow)
    ensures BodyLexemes(b) != [] && BodyLexemes(b)[0] == b.open[0]
    ensures var xs := BodyLexemes(b); xs[|xs| - 1] == b.end[|b.end| - 1]
  {
    hide ItemsLexemes, InlineItems;
  }

  // ----- steps inside brackets

  predicate Within(xs: seq<Lexeme>, bound: Mark) {
    forall i :: 0 <= i < |xs| ==> NotAfter(xs[i].start, bound)
  }

  /** Inside brackets that end at `bound`, with the lexemes `xs` to come and the outer keys as old as they are at `m`. */
  predicate Ready(s: Scanning, xs: seq<Lexeme>, at: Mark, m: Mark, bound: Mark) {
    && Calm(s) && s.flow > 0 && !Overdue(s.keys, bound) && Ordered(xs, at) && Within(xs, bound)
    && Aged(s.keys[..s.flow], m) == s.keys[..s.flow] && NotAfter(m, at) && NotAfter(m, bound)
  }

  /** The lexemes `xs`, which begin at `at` or later, are scanned as `tokens`. */
  ghost predicate Leads(s: Scanning, xs: seq<Lexeme>, r: Scanning, tokens: seq<Token>, at: Mark, m: Mark, n: Mark, bound: Mark) {
    Scans(s, xs, r) && Moves(s, r, tokens, n) && NotAfter(m, n) && NotAfter(n, EndMark(xs, at)) && NotAfter(n, bound)
  }

  lemma LeadsBoth(s: Scanning, xs: seq<Lexeme>, r: Scanning, a: seq<Token>, ys: seq<Lexeme>, q: Scanning, b: seq<Token>,
                  at: Mark, m: Mark, n: Mark, k: Mark, bound: Mark)
    requires Leads(s, xs, r, a, at, m, n, bound) && Leads(r, ys, q, b, EndMark(xs, at), n, k, bound)
    ensures Leads(s, xs + ys, q, a + b, at, m, k, bound)
  {
    hide Scans, Moves;
    ScansBoth(s, xs, r, ys, q);
    MovesBoth(s, r, a, n, q, b, k);
    if ys == [] { AddNothing(xs); }
  }

  lemma LeadsNowhere(s: Scanning, at: Mark, m: Mark, bound: Mark)
    requires Ready(s, [], at, m, bound)
    ensures Leads(s, [], s, [], at, m, m, bound)
  {
    hide Aged, Overdue;
    ScansNothing(s);
    AddNothing(s.stream);
  }

  lemma ReadyParts(s: Scanning, xs: seq<Lexeme>, ys: seq<Lexeme>, at: Mark, m: Mark, bound: Mark)
    requires Ready(s, xs + ys, at, m, bound)
    ensures Ready(s, xs, at, m, bound) && Ordered(ys, EndMark(xs, at)) && Within(ys, bound)
  {
    hide Aged, Overdue, Ordered, Calm;
    OrderedParts(xs, ys, at);
    assert forall i :: 0 <= i < |xs| ==> xs[i] == (xs + ys)[i];
    assert forall i :: 0 <= i < |ys| ==> ys[i] == (xs + ys)[|xs| + i];
  }

  lemma ReadyNext(s: Scanning, xs: seq<Lexeme>, r: Scanning, tokens: seq<Token>, ys: seq<Lexeme>, at: Mark, m: Mark, n: Mark, bound: Mark)
    requires Ready(s, xs, at, m, bound) && Leads(s, xs, r, tokens, at, m, n, bound)
    requires Ordered(ys, EndMark(xs, at)) && Within(ys, bound)
    ensures Ready(r, ys, EndMark(xs, at), n, bound)
  {
    hide Aged, Overdue, Ordered, Scans;
    NotOverdueYet(s, r, tokens, n, bound);
    AgedTwice(s.keys[..s.flow], n, n);
  }

  /** A comma, a question mark or a colon with nothing to reveal. */
  lemma SignLeads(s: Scanning, x: Lexeme, at: Mark, m: Mark, bound: Mark)
    returns (r: Scanning)
    requires Ready(s, [x], at, m, bound)
    requires x.kind.FlowComma? || x.kind.QuestionMark? || (x.kind.Colon? && !InnerKey(s).possible)
    ensures Leads(s, [x], r, [if x.kind.FlowComma? then FlowEntryToken else if x.kind.QuestionMark? then KeyToken else ValueToken],
                  at, m, x.start, bound)
    ensures r.allowed == x.kind.FlowComma? && !InnerKey(r).possible
  {
    hide Aged, Overdue, Scans;
    assert [x][0] == x;
    NotOverdueEarlier(s.keys, x.start, bound);
    r := SignScans(s, x);
  }

  /** The innermost key does not matter inside brackets: it is never needed. */
  lemma ClearInside(s: Scanning, xs: seq<Lexeme>, at: Mark, m: Mark, bound: Mark)
    requires Ready(s, xs, at, m, bound) && xs != []
    ensures Clear(s, xs) && NotAfter(m, xs[|xs| - 1].start) && NotAfter(xs[|xs| - 1].start, xs[|xs| - 1].end)
  {
    hide Aged;
    StartsInOrder(xs, at, 0, |xs| - 1);
    OrderedParts(xs[..|xs| - 1], [xs[|xs| - 1]], at) by { assert xs == xs[..|xs| - 1] + [xs[|xs| - 1]]; }
    var keys := KeysWith(s, xs[0]);
    assert forall i :: 0 <= i < |keys| && i != s.flow ==> keys[i] == s.keys[i];
    NotOverdueEarlier(keys, xs[|xs| - 1].start, bound);
  }

  /** A node inside brackets. */
  lemma TakenLeads(s: Scanning, xs: seq<Lexeme>, tokens: seq<Token>, allowed: bool, at: Mark, m: Mark, bound: Mark)
    returns (r: Scanning, n: Mark)
    requires Ready(s, xs, at, m, bound) && xs != [] && Taken(s, xs, tokens, allowed)
    ensures r == s.(stream := s.stream + tokens, keys := Aged(KeysWith(s, xs[0]), n), allowed := allowed) && n == xs[|xs| - 1].start
    ensures Leads(s, xs, r, tokens, at, m, n, bound)
  {
    n := xs[|xs| - 1].start;
    r := s.(stream := s.stream + tokens, keys := Aged(KeysWith(s, xs[0]), n), allowed := allowed);
    hide Aged, Overdue, Scans, KeysWith;
    ClearInside(s, xs, at, m, bound);
    ScansSane(s, xs, r);
    CalmAfter(s, xs[0], r, n);
    PrefixAged(KeysWith(s, xs[0]), s.flow, n);
    assert KeysWith(s, xs[0])[..s.flow] == s.keys[..s.flow] by { OuterKeys(s, xs[0]); }
  }

  lemma OuterKeys(s: Scanning, x: Lexeme)
    requires Sane(s)
    ensures KeysWith(s, x)[..s.flow] == s.keys[..s.flow]
  {
  }

  /** A node inside brackets, or none. */
  lemma {:induction false} TextLeads(t: Text, s: Scanning, at: Mark, m: Mark, bound: Mark)
    returns (r: Scanning, n: Mark)
    requires Inline(t, s.flow) && Ready(s, TextLexemes(t), at, m, bound)
    ensures Leads(s, TextLexemes(t), r, NodeTokens(NodeOf(t)), at, m, n, bound)
    ensures !s.allowed && !InnerKey(s).possible ==> !InnerKey(r).possible
    decreases t, 2
  {
    hide Ready, Leads, TextLexemes, Inline, Taken, Clear, NodeTokens, NodeOf;
    if t.NoText? {
      NoLexemes();
      LeadsNowhere(s, at, m, bound);
      r, n := s, m;
    } else {
      assert Calm(s) && s.flow > 0 && Ordered(TextLexemes(t), at) by { ReadyIs(s, TextLexemes(t), at, m, bound); }
      TextNotEmpty(t, s.flow);
      ClearInside(s, TextLexemes(t), at, m, bound);
      InlineScans(t, s, at);
      r, n := TakenLeads(s, TextLexemes(t), NodeTokens(NodeOf(t)), AllowedBehind(t), at, m, bound);
    }
  }

  lemma NoLexemes()
    ensures TextLexemes(NoText) == [] && NodeTokens(NodeOf(NoText)) == []
  {
  }

  lemma ReadyIs(s: Scanning, xs: seq<Lexeme>, at: Mark, m: Mark, bound: Mark)
    requires Ready(s, xs, at, m, bound)
    ensures Calm(s) && s.flow > 0 && Ordered(xs, at) && !Overdue(s.keys, bound) && Within(xs, bound)
  {
  }

  /** A simple key and the colon that reveals it. */
  lemma {:induction false} KeyLeads(t: Text, x: Lexeme, s: Scanning, at: Mark, m: Mark, bound: Mark)
    returns (r: Scanning)
    requires t.Text? && Inline(t, s.flow) && Ready(s, TextLexemes(t) + [x], at, m, bound) && s.allowed
    requires x.kind.Colon? && KeyFits(t, x)
    ensures Leads(s, TextLexemes(t) + [x], r, [KeyToken] + NodeTokens(NodeOf(t)) + [ValueToken], at, m, x.start, bound)
    decreases t, 2
  {
    hide Aged, Overdue, TextLexemes, Inline, Taken, Clear, NodeTokens, NodeOf, Ordered, Scans;
    var xs, key := TextLexemes(t), NodeTokens(NodeOf(t));
    ReadyParts(s, xs, [x], at, m, bound);
    assert [x][0] == x;
    TextNotEmpty(t, s.flow);
    ClearInside(s, xs, at, m, bound);
    InlineScans(t, s, at);
    var q, n := TakenLeads(s, xs, key, AllowedBehind(t), at, m, bound);
    ReadyNext(s, xs, q, key, [x], at, m, n, bound);
    StartsInOrder(xs, at, 0, |xs| - 1);
    assert NotAfter(n, x.start) by { StartsInOrder([x], EndMark(xs, at), 0, 0); }
    KeyStays(s, xs[0], n, x.start);
    NotOverdueEarlier(q.keys, x.start, bound);
    r := RevealScans(q, x, s.stream, key);
    AgedTwice(s.keys[..s.flow], n, x.start);
    ScansBoth(s, xs, q, [x], r);
    InOrder([x], EndMark(xs, at));
  }

  lemma InOrder(xs: seq<Lexeme>, at: Mark)
    requires Ordered(xs, at) && xs != []
    ensures NotAfter(at, xs[0].start) && NotAfter(xs[0].start, xs[0].end)
  {
  }

  /** A key that begins stays possible on its line, for 1024 characters. */
  lemma KeyStays(s: Scanning, x: Lexeme, m: Mark, n: Mark)
    requires Sane(s) && MayBegin(s, x) && NotAfter(x.start, m) && NotAfter(m, n)
    requires x.start.line == n.line && n.index <= x.start.index + 1024
    ensures var key := Aged(KeysWith(s, x), m)[s.flow]; key == KeyAt(s, x) && !IsStale(key, n)
  {
  }

  /** The entries of a bracketed collection. */
  lemma {:induction false} ItemsLead(form: Form, items: seq<Element>, s: Scanning, first: bool, at: Mark, m: Mark, bound: Mark)
    returns (r: Scanning, n: Mark)
    requires IsFlow(form) && InlineItems(form, items, s.flow, first) && Ready(s, ItemsLexemes(items), at, m, bound) && (first ==> s.allowed)
    ensures Leads(s, ItemsLexemes(items), r, EntriesTokens(form, EntriesOf(form, items), first), at, m, n, bound)
    decreases items
  {
    hide Ready, Leads, Inline, InlineItem, EntryTokens, EntryOf, ItemLexemes;
    if items == [] {
      LeadsNowhere(s, at, m, bound);
      r, n := s, m;
    } else {
      var i := items[0];
      var xs, ys := ItemLexemes(i), ItemsLexemes(items[1..]);
      var a, b := Comma(form, first) + EntryTokens(form, EntryOf(form, i)), EntriesTokens(form, EntriesOf(form, items[1..]), false);
      ReadyParts(s, xs, ys, at, m, bound);
      var q, k := ItemLeads(form, i, s, first, at, m, bound);
      ReadyNext(s, xs, q, a, ys, at, m, k, bound);
      assert q.flow == s.flow by { LeadsFlow(s, xs, q, a, at, m, k, bound); }
      r, n := ItemsLead(form, items[1..], q, false, EndMark(xs, at), k, bound);
      LeadsBoth(s, xs, q, a, ys, r, b, at, m, k, n, bound);
      assert EntriesOf(form, items)[1..] == EntriesOf(form, items[1..]);
    }
  }

  lemma LeadsFlow(s: Scanning, xs: seq<Lexeme>, r: Scanning, tokens: seq<Token>, at: Mark, m: Mark, n: Mark, bound: Mark)
    requires Leads(s, xs, r, tokens, at, m, n, bound)
    ensures r.flow == s.flow && Sane(r)
  {
  }

  lemma {:induction false} ItemLeads(form: Form, i: Element, s: Scanning, first: bool, at: Mark, m: Mark, bound: Mark)
    returns (r: Scanning, n: Mark)
    requires IsFlow(form) && InlineItem(form, i, s.flow, first) && Ready(s, ItemLexemes(i), at, m, bound) && (first ==> s.allowed)
    ensures Leads(s, ItemLexemes(i), r, Comma(form, first) + EntryTokens(form, EntryOf(form, i)), at, m, n, bound)
    decreases i, 2
  {
    hide Ready, Leads, Inline, KeyFits, EntryTokens, EntryOf, TextLexemes, Ordered, Within;
    var rest := i.mark + (TextLexemes(i.key) + (i.colon + TextLexemes(i.value)));
    if first {
      AddNothing(rest);
      r, n := CoreLeads(form, i, s, first, at, m, bound);
      AddNothing(EntryTokens(form, EntryOf(form, i)));
    } else {
      var x := i.comma[0];
      assert i.comma == [x];
      ReadyParts(s, [x], rest, at, m, bound);
      var q := SignLeads(s, x, at, m, bound);
      ReadyNext(s, [x], q, [FlowEntryToken], rest, at, m, x.start, bound);
      LeadsFlow(s, [x], q, [FlowEntryToken], at, m, x.start, bound);
      r, n := CoreLeads(form, i, q, first, EndMark([x], at), x.start, bound);
      LeadsBoth(s, [x], q, [FlowEntryToken], rest, r, EntryTokens(form, EntryOf(form, i)), at, m, x.start, n, bound);
    }
  }

  /** An entry behind its comma. */
  lemma {:induction false} CoreLeads(form: Form, i: Element, s: Scanning, first: bool, at: Mark, m: Mark, bound: Mark)
    returns (r: Scanning, n: Mark)
    requires IsFlow(form) && InlineItem(form, i, s.flow, first) && s.allowed
    requires Ready(s, i.mark + (TextLexemes(i.key) + (i.colon + TextLexemes(i.value))), at, m, bound)
    ensures Leads(s, i.mark + (TextLexemes(i.key) + (i.colon + TextLexemes(i.value))), r, EntryTokens(form, EntryOf(form, i)), at, m, n, bound)
    decreases i, 1
  {
    hide Ready, Leads, Inline, KeyFits, EntryTokens, NodeTokens, NodeOf, TextLexemes, Ordered, Within;
    var xs, ys := TextLexemes(i.key), TextLexemes(i.value);
    var key, value := NodeTokens(NodeOf(i.key)), NodeTokens(NodeOf(i.value));
    InlineEntry(form, i, s.flow, first);
    if i.mark == [] {
      AddNothing(xs + (i.colon + ys));
      if i.colon == [] {
        NoLexemes();
        AddNothing(xs);
        assert i.colon + ys == [];
        r, n := TextLeads(i.key, s, at, m, bound);
      } else {
        var x := i.colon[0];
        assert i.colon == [x];
        Regroup(xs, [x], ys);
        ReadyParts(s, xs + [x], ys, at, m, bound);
        var q := KeyLeads(i.key, x, s, at, m, bound);
        var tokens := [KeyToken] + key + [ValueToken];
        ReadyNext(s, xs + [x], q, tokens, ys, at, m, x.start, bound);
        LeadsFlow(s, xs + [x], q, tokens, at, m, x.start, bound);
        r, n := TextLeads(i.value, q, EndMark(xs + [x], at), x.start, bound);
        LeadsBoth(s, xs + [x], q, tokens, ys, r, value, at, m, x.start, n, bound);
        Regroup([KeyToken] + key, [ValueToken], value);
      }
    } else {
      var x := i.mark[0];
      assert i.mark == [x];
      ReadyParts(s, [x], xs + (i.colon + ys), at, m, bound);
      var q := SignLeads(s, x, at, m, bound);
      ReadyNext(s, [x], q, [KeyToken], xs + (i.colon + ys), at, m, x.start, bound);
      LeadsFlow(s, [x], q, [KeyToken], at, m, x.start, bound);
      r, n := MarkedLeads(form, i, q, first, EndMark([x], at), x.start, bound);
      var more := key + ValueTokens(EntryOf(form, i));
      LeadsBoth(s, [x], q, [KeyToken], xs + (i.colon + ys), r, more, at, m, x.start, n, bound);
      Regroup([KeyToken], key, ValueTokens(EntryOf(form, i)));
    }
  }

  /** What an entry between brackets is written as. */
  lemma InlineEntry(form: Form, i: Element, flow: nat, first: bool)
    requires IsFlow(form) && InlineItem(form, i, flow, first)
    ensures var e, key, value := EntryOf(form, i), NodeTokens(NodeOf(i.key)), NodeTokens(NodeOf(i.value));
      && EntryTokens(form, e) == (if i.mark == [] && i.colon == [] then key else [KeyToken] + key + ValueTokens(e))
      && ValueTokens(e) == (if i.colon == [] then [] else [ValueToken] + value)
  {
    hide NodeTokens, NodeOf, Inline, KeyFits;
    var key := NodeTokens(NodeOf(i.key));
    AddNothing([KeyToken]);
    AddNothing(key);
    assert [] + [] + key + [] == key;
  }

  /** The key of an entry behind its question mark, and its value. */
  lemma {:induction false} MarkedLeads(form: Form, i: Element, s: Scanning, first: bool, at: Mark, m: Mark, bound: Mark)
    returns (r: Scanning, n: Mark)
    requires IsFlow(form) && InlineItem(form, i, s.flow, first) && i.mark != []
    requires Ready(s, TextLexemes(i.key) + (i.colon + TextLexemes(i.value)), at, m, bound) && !s.allowed && !InnerKey(s).possible
    ensures Leads(s, TextLexemes(i.key) + (i.colon + TextLexemes(i.value)), r, NodeTokens(NodeOf(i.key)) + ValueTokens(EntryOf(form, i)),
                  at, m, n, bound)
    decreases i, 0
  {
    hide Ready, Leads, Inline, KeyFits, NodeTokens, NodeOf, TextLexemes, Ordered, Within;
    var xs, ys := TextLexemes(i.key), TextLexemes(i.value);
    var key, value := NodeTokens(NodeOf(i.key)), NodeTokens(NodeOf(i.value));
    ReadyParts(s, xs, i.colon + ys, at, m, bound);
    var q, k := TextLeads(i.key, s, at, m, bound);
    InlineEntry(form, i, s.flow, first);
    if i.colon == [] {
      NoLexemes();
      assert i.colon + ys == [];
      AddNothing(xs);
      AddNothing(key);
      r, n := q, k;
    } else {
      var x := i.colon[0];
      assert i.colon == [x];
      ReadyNext(s, xs, q, key, [x] + ys, at, m, k, bound);
      LeadsFlow(s, xs, q, key, at, m, k, bound);
      var at2 := EndMark(xs, at);
      ReadyParts(q, [x], ys, at2, k, bound);
      var u := SignLeads(q, x, at2, k, bound);
      ReadyNext(q, [x], u, [ValueToken], ys, at2, k, x.start, bound);
      LeadsFlow(q, [x], u, [ValueToken], at2, k, x.start, bound);
      r, n := TextLeads(i.value, u, EndMark([x], at2), x.start, bound);
      LeadsBoth(q, [x], u, [ValueToken], ys, r, value, at2, k, x.start, n, bound);
      LeadsBoth(s, xs, q, key, [x] + ys, r, [ValueToken] + value, at, m, k, n, bound);
    }
  }

  /** A bracketed collection: whatever is inside leaves the state outside as it was. */
  lemma {:induction false} GroupScans(b: Body, s: Scanning, at: Mark)
    requires b.Group? && Bracketed(b, s.flow) && Calm(s) && Ordered(BodyLexemes(b), at)
    requires Inner(s, b.open[0]) && Clear(s, BodyLexemes(b))
    ensures Taken(s, BodyLexemes(b), ContentTokens(ContentOf(b)), false)
    decreases b
  {
    hide Overdue, Aged, Scans, Ordered, ItemsLexemes, InlineItems, EntriesOf, TailTokens, EntriesTokens, KeysWith, Ready, Leads, Within,
         ContentTokens, ContentOf;
    FirstOfGroup(b, s.flow);
    var xs, x, inner, bound := BodyLexemes(b), b.open[0], ItemsLexemes(b.items), b.end[|b.end| - 1].start;
    assert xs == [x] + (inner + b.end);
    StartsInOrder(xs, at, 0, |xs| - 1);
    FirstNotOverdue(s, x, bound);
    OpenScans(s, x);
    var r := s.(stream := s.stream + KindTokens(x.kind), keys := Aged(KeysWith(s, x), x.start) + [NO_KEY], allowed := true,
                flow := s.flow + 1);
    ScansSane(s, [x], r);
    Opened(s, x, r, inner + b.end, at, bound);
    ReadyParts(r, inner, b.end, x.end, x.start, bound);
    var q, m := ItemsLead(b.form, b.items, r, true, x.end, x.start, bound);
    var entries := EntriesTokens(b.form, EntriesOf(b.form, b.items), true);
    ReadyNext(r, inner, q, entries, b.end, x.end, x.start, m, bound);
    LeadsFlow(r, inner, q, entries, x.end, x.start, m, bound);
    var z := EndScans(b, s.flow, q, EndMark(inner, x.end), m, bound);
    GroupDone(b, s, r, q, z, entries, x.end, m, bound);
  }

  lemma NotNeeded(s: Scanning, x: Lexeme, m: Mark)
    requires Calm(s)
    ensures forall i :: 1 <= i < |s.keys| ==> !Aged(KeysWith(s, x), m)[i].required
  {
  }

  /** The state behind an opening bracket. */
  lemma Opened(s: Scanning, x: Lexeme, r: Scanning, rest: seq<Lexeme>, at: Mark, bound: Mark)
    requires Calm(s) && Sane(r) && Ordered([x] + rest, at) && rest != [] && rest[|rest| - 1].start == bound
    requires r.keys == Aged(KeysWith(s, x), x.start) + [NO_KEY] && r.flow == s.flow + 1 && !Overdue(KeysWith(s, x), bound)
    ensures Ready(r, rest, x.end, x.start, bound)
  {
    var xs, keys := [x] + rest, KeysWith(s, x);
    hide KeysWith;
    assert xs[1..] == rest;
    forall i | 0 <= i < |rest| ensures NotAfter(rest[i].start, bound) {
      StartsInOrder(rest, x.end, i, |rest| - 1);
    }
    StartsInOrder(xs, at, 0, |xs| - 1);
    InOrder(xs, at);
    AgedTwice(keys, x.start, x.start);
    AgedTwice(keys, x.start, bound);
    NotOverdueEarlier(keys, x.start, bound);
    NotNeeded(s, x, x.start);
    assert r.keys[..r.flow] == Aged(keys, x.start);
  }

  /** The end of a bracketed collection, after a comma or without one. */
  lemma EndScans(b: Body, flow: nat, s: Scanning, at: Mark, m: Mark, bound: Mark) returns (r: Scanning)
    requires b.Group? && Bracketed(b, flow) && s.flow == flow + 1 && bound == b.end[|b.end| - 1].start && Ready(s, b.end, at, m, bound)
    ensures Scans(s, b.end, r)
    ensures r == s.(stream := s.stream + EndOfGroup(b), keys := Aged(s.keys[..s.flow], bound), allowed := false, flow := flow)
  {
    hide Aged, Overdue, Scans, Ordered, InlineItems;
    var x := b.end[|b.end| - 1];
    if |b.end| == 1 {
      assert b.end == [x];
      CloseScans(s, x);
      AddNothing(KindTokens(x.kind));
      r := s.(stream := s.stream + EndOfGroup(b), keys := Aged(s.keys[..s.flow], bound), allowed := false, flow := flow);
    } else {
      var y := b.end[0];
      assert b.end == [y] + [x];
      ReadyParts(s, [y], [x], at, m, bound);
      var q := SignLeads(s, y, at, m, bound);
      ReadyNext(s, [y], q, [FlowEntryToken], [x], at, m, y.start, bound);
      CloseScans(q, x);
      Regroup(s.stream, [FlowEntryToken], KindTokens(x.kind));
      AgedTwice(s.keys[..s.flow], y.start, bound);
      r := s.(stream := s.stream + EndOfGroup(b), keys := Aged(s.keys[..s.flow], bound), allowed := false, flow := flow);
      ScansBoth(s, [y], q, [x], r);
    }
  }

  function EndOfGroup(b: Body): seq<Token>
    requires b.Group? && b.end != []
  {
    (if |b.end| == 2 then [FlowEntryToken] else []) + KindTokens(b.end[|b.end| - 1].kind)
  }

  lemma GroupTokens(b: Body, flow: nat)
    requires b.Group? && Bracketed(b, flow)
    ensures ContentTokens(ContentOf(b)) ==
      KindTokens(b.open[0].kind) + (EntriesTokens(b.form, EntriesOf(b.form, b.items), true) + EndOfGroup(b))
  {
    hide EntriesTokens, TailTokens, InlineItems, EntryOf;
    var entries := EntriesOf(b.form, b.items);
    TailIsEntries(b.form, entries, |b.end| == 2, true);
    assert b.items != [] ==> entries != [];
  }

  lemma GroupDone(b: Body, s: Scanning, r: Scanning, q: Scanning, z: Scanning, entries: seq<Token>, at: Mark, m: Mark, bound: Mark)
    requires b.Group? && Bracketed(b, s.flow) && Calm(s) && Sane(r) && BodyLexemes(b) != [] && BodyLexemes(b)[0] == b.open[0]
    requires bound == b.end[|b.end| - 1].start && BodyLexemes(b)[|BodyLexemes(b)| - 1] == b.end[|b.end| - 1]
    requires entries == EntriesTokens(b.form, EntriesOf(b.form, b.items), true)
    requires var x := b.open[0];
      && Scans(s, [x], r)
      && r == s.(stream := s.stream + KindTokens(x.kind), keys := Aged(KeysWith(s, x), x.start) + [NO_KEY], allowed := true, flow := s.flow + 1)
      && Leads(r, ItemsLexemes(b.items), q, entries, at, x.start, m, bound)
      && Scans(q, b.end, z) && NotAfter(x.start, bound)
      && z == q.(stream := q.stream + EndOfGroup(b), keys := Aged(q.keys[..q.flow], bound), allowed := false, flow := s.flow)
    ensures Taken(s, BodyLexemes(b), ContentTokens(ContentOf(b)), false)
  {
    hide Aged, Scans, ItemsLexemes, InlineItems, EntriesOf, EntriesTokens, KeysWith, ContentTokens, ContentOf, EndOfGroup;
    var x, inner := b.open[0], ItemsLexemes(b.items);
    var keys := KeysWith(s, x);
    assert b.open == [x];
    ScansBoth(r, inner, q, b.end, z);
    ScansBoth(s, [x], r, inner + b.end, z);
    GroupTokens(b, s.flow);
    assert r.keys[..r.flow] == Aged(keys, x.start);
    AgedTwice(keys, x.start, m);
    AgedTwice(keys, m, bound);
    Regroup(s.stream, KindTokens(x.kind), entries);
    Regroup(s.stream, KindTokens(x.kind) + entries, EndOfGroup(b));
    Regroup(KindTokens(x.kind), entries, EndOfGroup(b));
  }
}
