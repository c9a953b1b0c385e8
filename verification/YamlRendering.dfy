/** Every list of documents that any text can stand for has a layout: one lexeme on a line, one column deeper inside
    each collection, with a question mark before every key. */
module YamlRendering {
  import opened Bytes
  import opened Sequences
  import opened YamlEvents
  import opened YamlTokens
  import opened YamlTokenStream
  import opened YamlLexemes
  import G = YamlGrammar
  import Y = YamlSyntax
  import opened YamlSources
  import opened YamlLayout
  import opened YamlPages

  // ----- which documents

  /** The parser derives from the tag and the style of a scalar whether its type is implicit. */
  predicate SpellableScalar(e: Event)
    requires e.ScalarEvent?
  {
    || e.implicit == ((e.tag == "" && e.plain) || e.tag == "!")
    || (e.value == "" && e.plain && e.implicit == (e.tag == ""))
  }

  predicate Spellable(t: Tree) {
    match t
    case Leaf(e) => e.ScalarEvent? ==> SpellableScalar(e)
    case Sequence(_, cs) => forall c <- cs :: Spellable(c)
    case Mapping(_, cs) => forall c <- cs :: Spellable(c)
  }

  /** The number of blocks inside one another. */
  function Height(t: Tree): nat
    decreases t, 0
  {
    if t.Leaf? || t.children == [] then 0 else 1 + HeightAll(t.children)
  }

  function HeightAll(ts: seq<Tree>): nat
    decreases ts, 0
  {
    if ts == [] then 0
    else
      var a, b := Height(ts[0]), HeightAll(ts[1..]);
      if a > b then a else b
  }

  predicate Renderable(docs: seq<Document>) {
    forall d <- docs :: WellFormed(d.root) && Spellable(d.root) && Height(d.root) <= 10000
  }

  // ----- rendering

  /** A lexeme alone on line `k`. */
  function On(kind: Kind, c: nat, k: nat): Lexeme {
    Lexeme(kind, Mark(k, k, c), Mark(k, k, c), k > 0, true)
  }

  function PropsText(anchor: Option<string>, tag: string, c: nat, k: nat): seq<Lexeme> {
    var first := if anchor.Some? then [On(Anchor(anchor.value), c, k)] else [];
    first + if tag == "" then [] else [On(Tag("", tag), c, k + |first|)]
  }

  /** Scalars without text have no lexeme of their own. */
  predicate IsSilent(e: Event)
    requires e.ScalarEvent?
  {
    e.value == "" && e.plain && e.implicit == (e.tag == "") && !(e.anchor == Some("") && e.tag == "")
  }

  function LeafText(e: Event, c: nat, k: nat): Text {
    if e.AliasEvent? then Text([], Word(On(Kind.Alias(e.name), c, k)))
    else if !e.ScalarEvent? then NoText
    else
      var props := PropsText(e.anchor, e.tag, c, k);
      if !IsSilent(e) then
        Text(props, Word(On(if e.plain then PlainScalar(e.value, false) else QuotedScalar(e.value), c, k + |props|)))
      else if props == [] then NoText
      else Text(props, NoBody)
  }

  function StartText(e: Event, c: nat, k: nat): seq<Lexeme> {
    if e.SequenceStartEvent? || e.MappingStartEvent? then PropsText(e.anchor, e.tag, c, k) else []
  }

  function EmptyGroup(sequence: bool, c: nat, k: nat): Body {
    Group(if sequence then Y.FlowSequence else Y.FlowMapping, [On(FlowStart(sequence), c, k)], [], [On(FlowEnd(sequence), c, k + 1)])
  }

  function TreeText(t: Tree, c: nat, k: nat): Text
    decreases t, 0
  {
    match t
    case Leaf(e) => LeafText(e, c, k)
    case Sequence(e, cs) =>
      var props := StartText(e, c, k);
      Text(props, if cs == [] then EmptyGroup(true, c, k + |props|) else Group(Y.BlockSequence, [], Entries(cs, c, k + |props|), []))
    case Mapping(e, cs) =>
      var props := StartText(e, c, k);
      Text(props, if |cs| < 2 then EmptyGroup(false, c, k + |props|) else Group(Y.BlockMapping, [], Pairs(cs, c, k + |props|), []))
  }

  function EntryText(t: Tree, c: nat, k: nat): Element
    decreases t, 1
  {
    Element([], [On(Dash, c, k)], TreeText(t, c + 1, k + 1), [], NoText)
  }

  function Entries(ts: seq<Tree>, c: nat, k: nat): seq<Element>
    decreases ts, 0
  {
    if ts == [] then []
    else
      var e := EntryText(ts[0], c, k);
      [e] + Entries(ts[1..], c, k + |ItemLexemes(e)|)
  }

  function PairText(ts: seq<Tree>, c: nat, k: nat): Element
    requires |ts| >= 2
    decreases ts, 0
  {
    var key := TreeText(ts[0], c + 1, k + 1);
    var n := k + 1 + |TextLexemes(key)|;
    Element([], [On(QuestionMark, c, k)], key, [On(Colon, c, n)], TreeText(ts[1], c + 1, n + 1))
  }

  function Pairs(ts: seq<Tree>, c: nat, k: nat): seq<Element>
    decreases ts, 1
  {
    if |ts| < 2 then []
    else
      var e := PairText(ts, c, k);
      [e] + Pairs(ts[2..], c, k + |ItemLexemes(e)|)
  }

  function DocPage(d: Document, k: nat): Page {
    var root := TreeText(d.root, 0, k + 1);
    Page([], [], [On(DocumentIndicator(DocumentStartToken), 0, k)], root,
         if d.explicitEnd then [On(DocumentIndicator(DocumentEndToken), 0, k + 1 + |TextLexemes(root)|)] else [])
  }

  function DocPages(docs: seq<Document>, k: nat): seq<Page> {
    if docs == [] then []
    else
      var p := DocPage(docs[0], k);
      [p] + DocPages(docs[1..], k + |PageLexemes(p)|)
  }

  /** The documents as a text. */
  function Rendering(docs: seq<Document>): Book {
    var pages := DocPages(docs, 0);
    Book(pages, [], On(EndOfText, 0, |PagesLexemes(pages)|))
  }

  // ----- line after line

  predicate Lined(xs: seq<Lexeme>, k: nat) {
    forall i :: 0 <= i < |xs| ==>
      && xs[i] == On(xs[i].kind, xs[i].start.column, k + i) && !xs[i].kind.EndOfText? && Proper(xs[i])
  }

  lemma LinedBoth(xs: seq<Lexeme>, ys: seq<Lexeme>, k: nat)
    requires Lined(xs, k) && Lined(ys, k + |xs|)
    ensures Lined(xs + ys, k)
  {
    hide Proper, On;
    var n := |xs|;
    forall i | 0 <= i < |xs + ys|
      ensures var x := (xs + ys)[i]; x == On(x.kind, x.start.column, k + i) && !x.kind.EndOfText? && Proper(x)
    {
      if i >= n { assert (xs + ys)[i] == ys[i - n]; }
    }
  }

  lemma LinedOne(kind: Kind, c: nat, k: nat)
    requires !kind.EndOfText? && Proper(On(kind, c, k))
    ensures Lined([On(kind, c, k)], k)
  {
  }

  lemma LinedNothing(k: nat)
    ensures Lined([], k)
  {
  }

  lemma PropsLined(anchor: Option<string>, tag: string, c: nat, k: nat)
    ensures Lined(PropsText(anchor, tag, c, k), k) && ArePropertyLexemes(PropsText(anchor, tag, c, k))
  {
  }

  lemma LeafLined(e: Event, c: nat, k: nat)
    ensures Lined(TextLexemes(LeafText(e, c, k)), k)
  {
    hide PropsText;
    if e.ScalarEvent? {
      var props := PropsText(e.anchor, e.tag, c, k);
      PropsLined(e.anchor, e.tag, c, k);
      AddNothing(props);
      var kind := if e.plain then PlainScalar(e.value, false) else QuotedScalar(e.value);
      LinedOne(kind, c, k + |props|);
      LinedBoth(props, [On(kind, c, k + |props|)], k);
    } else if e.AliasEvent? {
      LinedOne(Kind.Alias(e.name), c, k);
      AddNothing([On(Kind.Alias(e.name), c, k)]);
    }
  }

  lemma StartLined(e: Event, c: nat, k: nat)
    ensures Lined(StartText(e, c, k), k) && ArePropertyLexemes(StartText(e, c, k))
    ensures forall i :: 0 <= i < |StartText(e, c, k)| ==> StartText(e, c, k)[i].start.column == c
  {
    if e.SequenceStartEvent? || e.MappingStartEvent? { PropsLined(e.anchor, e.tag, c, k); }
  }

  lemma EmptyLined(sequence: bool, c: nat, k: nat)
    ensures Lined(BodyLexemes(EmptyGroup(sequence, c, k)), k)
  {
    LinedOne(FlowStart(sequence), c, k);
    LinedOne(FlowEnd(sequence), c, k + 1);
    LinedBoth([On(FlowStart(sequence), c, k)], [On(FlowEnd(sequence), c, k + 1)], k);
    AddNothing([On(FlowEnd(sequence), c, k + 1)]);
    assert ItemsLexemes([]) == [];
  }

  lemma {:induction false} TreeLined(t: Tree, c: nat, k: nat)
    ensures Lined(TextLexemes(TreeText(t, c, k)), k)
    decreases t, 0
  {
    hide Lined, LeafText, StartText, EmptyGroup, ItemsLexemes, ArePropertyLexemes;
    if t.Leaf? {
      LeafLined(t.event, c, k);
    } else {
      var props := StartText(t.start, c, k);
      var n := k + |props|;
      StartLined(t.start, c, k);
      var body := TreeText(t, c, k).body;
      if t.Sequence? && t.children != [] {
        EntriesLined(t.children, c, n);
        AddNothing(ItemsLexemes(Entries(t.children, c, n)));
      } else if t.Mapping? && |t.children| >= 2 {
        PairsLined(t.children, c, n);
        AddNothing(ItemsLexemes(Pairs(t.children, c, n)));
      } else {
        EmptyLined(t.Sequence?, c, n);
      }
      LinedBoth(props, BodyLexemes(body), k);
    }
  }

  lemma {:induction false} EntriesLined(ts: seq<Tree>, c: nat, k: nat)
    ensures Lined(ItemsLexemes(Entries(ts, c, k)), k)
    decreases ts, 0
  {
    hide TreeText, TextLexemes;
    if ts != [] {
      var e := EntryText(ts[0], c, k);
      var xs := TextLexemes(e.key);
      TreeLined(ts[0], c + 1, k + 1);
      LinedOne(Dash, c, k);
      LinedBoth([On(Dash, c, k)], xs, k);
      EntryLexemes(e);
      EntriesLined(ts[1..], c, k + |ItemLexemes(e)|);
      hide Lined;
      LinedBoth(ItemLexemes(e), ItemsLexemes(Entries(ts[1..], c, k + |ItemLexemes(e)|)), k);
    }
  }

  lemma EntryLexemes(e: Element)
    requires e.comma == [] && e.colon == [] && e.value.NoText?
    ensures ItemLexemes(e) == e.mark + TextLexemes(e.key)
  {
    AddNothing(TextLexemes(e.key));
    AddNothing(e.mark + TextLexemes(e.key));
  }

  lemma {:induction false} PairsLined(ts: seq<Tree>, c: nat, k: nat)
    ensures Lined(ItemsLexemes(Pairs(ts, c, k)), k)
    decreases ts, 1
  {
    hide Lined, TreeText, TextLexemes, ItemLexemes, On;
    if |ts| >= 2 {
      var e := PairText(ts, c, k);
      PairLined(ts, c, k);
      PairsLined(ts[2..], c, k + |ItemLexemes(e)|);
      LinedBoth(ItemLexemes(e), ItemsLexemes(Pairs(ts[2..], c, k + |ItemLexemes(e)|)), k);
    } else {
      LinedNothing(k);
    }
  }

  lemma {:induction false} PairLined(ts: seq<Tree>, c: nat, k: nat)
    requires |ts| >= 2
    ensures Lined(ItemLexemes(PairText(ts, c, k)), k)
    decreases ts, 0
  {
    hide Lined, TreeText, TextLexemes, On;
    var e := PairText(ts, c, k);
    var xs, ys := TextLexemes(e.key), TextLexemes(e.value);
    var n := k + 1 + |xs|;
    TreeLined(ts[0], c + 1, k + 1);
    TreeLined(ts[1], c + 1, n + 1);
    LinedOne(QuestionMark, c, k) by { ProperSign(c, k); }
    LinedOne(Colon, c, n) by { ProperSign(c, n); }
    LinedBoth(e.colon, ys, n);
    LinedBoth(xs, e.colon + ys, k + 1);
    LinedBoth(e.mark, xs + (e.colon + ys), k);
    AddNothing(e.mark + (xs + (e.colon + ys)));
  }

  lemma ProperSign(c: nat, k: nat)
    ensures Proper(On(QuestionMark, c, k)) && Proper(On(Colon, c, k))
  {
  }

  // ----- the rendering is laid out

  lemma LeafIndented(e: Event, c: nat, k: nat, depth: nat, allowed: bool, indentless: bool)
    ensures Indented(LeafText(e, c, k), c - 1, depth, allowed, indentless)
  {
    if e.ScalarEvent? {
      PropsLined(e.anchor, e.tag, c, k);
    }
  }

  lemma {:induction false} TreeIndented(t: Tree, c: nat, k: nat, allowed: bool, indentless: bool)
    requires c + Height(t) <= 10000 && k > 0
    ensures Indented(TreeText(t, c, k), c - 1, c, allowed, indentless)
    decreases t, 0
  {
    hide Lined, LeafText, StartText, IndentedItems, ItemsLexemes, ItemLexemes, ArePropertyLexemes, HeightAll;
    if t.Leaf? {
      LeafIndented(t.event, c, k, c, allowed, indentless);
    } else {
      var props := StartText(t.start, c, k);
      var n := k + |props|;
      StartLined(t.start, c, k);
      if t.Sequence? && t.children != [] {
        EntriesIndented(t.children, c, n, true);
        var items := Entries(t.children, c, n);
        assert items[0] == EntryText(t.children[0], c, n);
        FirstOfItem(items[0]);
      } else if t.Mapping? && |t.children| >= 2 {
        PairsIndented(t.children, c, n, true);
        var items := Pairs(t.children, c, n);
        assert items[0] == PairText(t.children, c, n);
        FirstOfItem(items[0]);
      } else {
        EmptyBracketed(t.Sequence?, c, n);
      }
    }
  }

  lemma EmptyBracketed(sequence: bool, c: nat, k: nat)
    ensures Bracketed(EmptyGroup(sequence, c, k), 0)
  {
  }

  lemma FirstOfItem(e: Element)
    requires e.comma == [] && |e.mark| == 1
    ensures ItemLexemes(e) != [] && ItemLexemes(e)[0] == e.mark[0]
  {
    hide TextLexemes;
  }

  lemma {:induction false} EntriesIndented(ts: seq<Tree>, c: nat, k: nat, first: bool)
    requires c + 1 + HeightAll(ts) <= 10000 && k > 0
    ensures IndentedItems(Y.BlockSequence, Entries(ts, c, k), c, c + 1, first)
    decreases ts, 0
  {
    hide Indented, TreeText, ItemLexemes;
    if ts != [] {
      var e := EntryText(ts[0], c, k);
      TreeIndented(ts[0], c + 1, k + 1, true, false);
      FirstOfItem(e);
      EntriesIndented(ts[1..], c, k + |ItemLexemes(e)|, false);
      assert Entries(ts, c, k)[1..] == Entries(ts[1..], c, k + |ItemLexemes(e)|);
    }
  }

  lemma {:induction false} PairsIndented(ts: seq<Tree>, c: nat, k: nat, first: bool)
    requires c + 1 + HeightAll(ts) <= 10000 && k > 0
    ensures IndentedItems(Y.BlockMapping, Pairs(ts, c, k), c, c + 1, first)
    decreases ts, 1
  {
    hide IndentedItem, ItemLexemes, PairText, Height;
    if |ts| >= 2 {
      var e := PairText(ts, c, k);
      TwoHeights(ts);
      PairIndented(ts, c, k, first);
      PairsIndented(ts[2..], c, k + |ItemLexemes(e)|, false);
      var items := Pairs(ts, c, k);
      assert items == [e] + Pairs(ts[2..], c, k + |ItemLexemes(e)|);
      assert items[0] == e && items[1..] == Pairs(ts[2..], c, k + |ItemLexemes(e)|);
      hide Pairs;
    }
  }

  lemma TwoHeights(ts: seq<Tree>)
    requires |ts| >= 2
    ensures Height(ts[0]) <= HeightAll(ts) && Height(ts[1]) <= HeightAll(ts) && HeightAll(ts[2..]) <= HeightAll(ts)
  {
    hide Height;
    assert ts[1..][0] == ts[1] && ts[1..][1..] == ts[2..];
    assert HeightAll(ts[1..]) <= HeightAll(ts);
  }

  lemma {:induction false} PairIndented(ts: seq<Tree>, c: nat, k: nat, first: bool)
    requires |ts| >= 2 && c + 1 + HeightAll(ts) <= 10000 && k > 0
    ensures IndentedItem(Y.BlockMapping, PairText(ts, c, k), c, c + 1, first)
    decreases ts, 0
  {
    hide Indented, TreeText, ItemLexemes, TextLexemes, HeightAll, Height;
    var e := PairText(ts, c, k);
    TwoHeights(ts);
    TreeIndented(ts[0], c + 1, k + 1, true, true);
    TreeIndented(ts[1], c + 1, k + 1 + |TextLexemes(e.key)| + 1, true, true);
    FirstOfItem(e);
  }

  // ----- the rendering can be written

  lemma PropsFit(anchor: Option<string>, tag: string, c: nat, k: nat, table: seq<TagDirective>)
    ensures var p := PropertiesOf(PropsText(anchor, tag, c, k));
      p.anchor == anchor && Y.TagOf(p, table) == Some(tag) && Y.TagText(p, table) == tag
  {
    var xs := PropsText(anchor, tag, c, k);
    assert AnchorOf([]) == None && TagWrittenIn([]) == None;
    if anchor.None? {
      assert tag != "" ==> xs == [On(Tag("", tag), c, k)];
      assert xs != [] ==> xs[1..] == [] && AnchorOf(xs) == None;
    } else if tag == "" {
      assert xs == [On(Anchor(anchor.value), c, k)] && xs[1..] == [];
    } else {
      assert xs[1..] == [On(Tag("", tag), c, k + 1)];
      assert TagWrittenIn(xs) == TagWrittenIn(xs[1..]) == Some(("", tag));
    }
  }

  lemma NoPropsFit(table: seq<TagDirective>)
    ensures var p := PropertiesOf([]); p.anchor == None && Y.TagOf(p, table) == Some("") && Y.TagText(p, table) == ""
  {
  }

  lemma LeafFits(e: Event, c: nat, k: nat, indentless: bool, table: seq<TagDirective>)
    ensures Y.Fits(NodeOf(LeafText(e, c, k)), true, indentless, table)
  {
    hide PropsText, PropertiesOf, Y.TagOf, Y.TagText;
    if e.ScalarEvent? {
      PropsFit(e.anchor, e.tag, c, k, table);
      if IsSilent(e) { SomeProps(e.anchor, e.tag, c, k); }
    }
  }

  lemma SomeProps(anchor: Option<string>, tag: string, c: nat, k: nat)
    ensures PropsText(anchor, tag, c, k) == [] <==> anchor == None && tag == ""
  {
  }

  lemma StartFits(e: Event, c: nat, k: nat, table: seq<TagDirective>)
    ensures var p := PropertiesOf(StartText(e, c, k));
      && Y.TagOf(p, table).Some?
      && (e.SequenceStartEvent? || e.MappingStartEvent? ==> p.anchor == e.anchor && Y.TagText(p, table) == e.tag)
  {
    hide PropsText, PropertiesOf, Y.TagOf, Y.TagText;
    NoPropsFit(table);
    if e.SequenceStartEvent? || e.MappingStartEvent? { PropsFit(e.anchor, e.tag, c, k, table); }
  }

  lemma {:induction false} TreeFits(t: Tree, c: nat, k: nat, indentless: bool, table: seq<TagDirective>)
    ensures Y.Fits(NodeOf(TreeText(t, c, k)), true, indentless, table)
    decreases t, 0
  {
    hide LeafText, StartText, PropertiesOf, Y.TagOf, Y.EntriesFit, EntriesOf;
    if t.Leaf? {
      LeafFits(t.event, c, k, indentless, table);
    } else {
      var n := k + |StartText(t.start, c, k)|;
      StartFits(t.start, c, k, table);
      if t.Sequence? && t.children != [] {
        EntriesFitted(t.children, c, n, table);
      } else if t.Mapping? && |t.children| >= 2 {
        PairsFitted(t.children, c, n, table);
      } else {
        NothingFits(if t.Sequence? then Y.FlowSequence else Y.FlowMapping, table);
      }
    }
  }

  lemma NothingFits(form: Y.Form, table: seq<TagDirective>)
    ensures EntriesOf(form, []) == [] && Y.EntriesFit(form, [], table) && Y.TreesOf(form, [], table) == []
  {
  }

  lemma {:induction false} EntriesFitted(ts: seq<Tree>, c: nat, k: nat, table: seq<TagDirective>)
    ensures Y.EntriesFit(Y.BlockSequence, EntriesOf(Y.BlockSequence, Entries(ts, c, k)), table)
    decreases ts, 0
  {
    hide Y.Fits, NodeOf, TreeText, ItemLexemes;
    if ts == [] {
      NothingFits(Y.BlockSequence, table);
    } else {
      var items := Entries(ts, c, k);
      TreeFits(ts[0], c + 1, k + 1, false, table);
      MissingFits(false, table);
      EntriesFitted(ts[1..], c, k + |ItemLexemes(items[0])|, table);
      assert items[1..] == Entries(ts[1..], c, k + |ItemLexemes(items[0])|);
      assert EntriesOf(Y.BlockSequence, items)[1..] == EntriesOf(Y.BlockSequence, items[1..]);
    }
  }

  lemma MissingFits(indentless: bool, table: seq<TagDirective>)
    ensures Y.Fits(NodeOf(NoText), true, indentless, table) && NodeOf(NoText).Missing?
  {
  }

  lemma {:induction false} PairsFitted(ts: seq<Tree>, c: nat, k: nat, table: seq<TagDirective>)
    ensures Y.EntriesFit(Y.BlockMapping, EntriesOf(Y.BlockMapping, Pairs(ts, c, k)), table)
    decreases ts, 0
  {
    hide Y.Fits, NodeOf, TreeText, ItemLexemes, TextLexemes;
    if |ts| < 2 {
      NothingFits(Y.BlockMapping, table);
    } else {
      var items := Pairs(ts, c, k);
      TreeFits(ts[0], c + 1, k + 1, true, table);
      TreeFits(ts[1], c + 1, k + 1 + |TextLexemes(items[0].key)| + 1, true, table);
      PairsFitted(ts[2..], c, k + |ItemLexemes(items[0])|, table);
      assert items[1..] == Pairs(ts[2..], c, k + |ItemLexemes(items[0])|);
      assert EntriesOf(Y.BlockMapping, items)[1..] == EntriesOf(Y.BlockMapping, items[1..]);
    }
  }

  // ----- the rendering means what it renders

  lemma LeafMeans(e: Event, c: nat, k: nat, table: seq<TagDirective>)
    requires (e.ScalarEvent? && SpellableScalar(e)) || e.AliasEvent?
    ensures Y.TreeOf(NodeOf(LeafText(e, c, k)), table) == Leaf(e)
  {
    hide PropsText, PropertiesOf, Y.TagText;
    if e.ScalarEvent? {
      PropsFit(e.anchor, e.tag, c, k, table);
      SomeProps(e.anchor, e.tag, c, k);
    }
  }

  lemma {:induction false} TreeMeans(t: Tree, c: nat, k: nat, table: seq<TagDirective>)
    requires WellFormed(t) && Spellable(t)
    ensures Y.TreeOf(NodeOf(TreeText(t, c, k)), table) == t
    decreases t, 0
  {
    hide LeafText, StartText, PropertiesOf, Y.TagText, Y.TreesOf, EntriesOf;
    if t.Leaf? {
      LeafMeans(t.event, c, k, table);
    } else {
      var n := k + |StartText(t.start, c, k)|;
      StartFits(t.start, c, k, table);
      if t.Sequence? && t.children != [] {
        EntriesMean(t.children, c, n, table);
      } else if t.Mapping? && |t.children| >= 2 {
        PairsMean(t.children, c, n, table);
      } else {
        NothingFits(if t.Sequence? then Y.FlowSequence else Y.FlowMapping, table);
      }
    }
  }

  lemma {:induction false} EntriesMean(ts: seq<Tree>, c: nat, k: nat, table: seq<TagDirective>)
    requires forall t <- ts :: WellFormed(t) && Spellable(t)
    ensures Y.TreesOf(Y.BlockSequence, EntriesOf(Y.BlockSequence, Entries(ts, c, k)), table) == ts
    decreases ts, 0
  {
    hide Y.TreeOf, NodeOf, TreeText, ItemLexemes, WellFormed, Spellable;
    if ts == [] {
      NothingFits(Y.BlockSequence, table);
    } else {
      var items := Entries(ts, c, k);
      TreeMeans(ts[0], c + 1, k + 1, table);
      EntriesMean(ts[1..], c, k + |ItemLexemes(items[0])|, table);
      assert items[1..] == Entries(ts[1..], c, k + |ItemLexemes(items[0])|);
      assert EntriesOf(Y.BlockSequence, items)[1..] == EntriesOf(Y.BlockSequence, items[1..]);
      assert [ts[0]] + ts[1..] == ts;
    }
  }

  lemma {:induction false} PairsMean(ts: seq<Tree>, c: nat, k: nat, table: seq<TagDirective>)
    requires |ts| % 2 == 0 && forall t <- ts :: WellFormed(t) && Spellable(t)
    ensures Y.TreesOf(Y.BlockMapping, EntriesOf(Y.BlockMapping, Pairs(ts, c, k)), table) == ts
    decreases ts, 0
  {
    hide Y.TreeOf, NodeOf, TreeText, ItemLexemes, WellFormed, Spellable, TextLexemes, EntriesOf, Y.TreesOf;
    if |ts| < 2 {
      NothingFits(Y.BlockMapping, table);
    } else {
      var items := Pairs(ts, c, k);
      TreeMeans(ts[0], c + 1, k + 1, table);
      TreeMeans(ts[1], c + 1, k + 1 + |TextLexemes(items[0].key)| + 1, table);
      PairsMean(ts[2..], c, k + |ItemLexemes(items[0])|, table);
      assert items[1..] == Pairs(ts[2..], c, k + |ItemLexemes(items[0])|);
      PairTrees(items, table);
      assert [ts[0], ts[1]] + ts[2..] == ts;
    }
  }

  lemma PairTrees(items: seq<Element>, table: seq<TagDirective>)
    requires items != []
    ensures Y.TreesOf(Y.BlockMapping, EntriesOf(Y.BlockMapping, items), table)
      == [Y.TreeOf(NodeOf(items[0].key), table), Y.TreeOf(NodeOf(items[0].value), table)]
         + Y.TreesOf(Y.BlockMapping, EntriesOf(Y.BlockMapping, items[1..]), table)
  {
    hide Y.TreeOf, NodeOf;
    assert EntriesOf(Y.BlockMapping, items)[1..] == EntriesOf(Y.BlockMapping, items[1..]);
  }

  // ----- whole documents

  lemma PageRendered(d: Document, k: nat, first: bool)
    requires WellFormed(d.root) && Spellable(d.root) && Height(d.root) <= 10000
    ensures PageLaid(DocPage(d, k), first) && Lined(PageLexemes(DocPage(d, k)), k)
    ensures DocWritten(DocOf(DocPage(d, k)), first) && DocumentOf(DocOf(DocPage(d, k))) == d
  {
    hide TreeText, TextLexemes, Indented, Lined, NodeOf, Y.Fits, Y.TreeOf, WellFormed, Spellable, Height, G.TableOf;
    var p := DocPage(d, k);
    var xs, n := TextLexemes(p.root), k + 1 + |TextLexemes(p.root)|;
    TreeIndented(d.root, 0, k + 1, false, false);
    TreeLined(d.root, 0, k + 1);
    NoDirectives([]);
    assert LexemeTokens([]) == [];
    TreeFits(d.root, 0, k + 1, false, G.TableOf([]));
    TreeMeans(d.root, 0, k + 1, G.TableOf([]));
    LinedOne(DocumentIndicator(DocumentStartToken), 0, k);
    LinedOne(DocumentIndicator(DocumentEndToken), 0, n);
    LinedNothing(n);
    LinedBoth(xs, p.end, k + 1);
    assert HeadLexemes(p) == p.start;
    LinedBoth(p.start, xs + p.end, k);
  }

  lemma {:induction false} PagesRendered(docs: seq<Document>, k: nat, first: bool, ended: bool)
    requires Renderable(docs)
    ensures var pages := DocPages(docs, k);
      && PagesLaid(pages, first) && Lined(PagesLexemes(pages), k)
      && DocsWritten(DocsOf(pages), 0, first, ended) && DocumentsOf(DocsOf(pages)) == docs
    decreases |docs|
  {
    hide Lined, PageLaid, PageLexemes, DocPage, DocWritten, DocumentOf, WellFormed, Spellable, Height;
    if docs == [] {
      LinedNothing(k);
    } else {
      var p, pages := DocPage(docs[0], k), DocPages(docs, k);
      var n := k + |PageLexemes(p)|;
      PageRendered(docs[0], k, first);
      PagesRendered(docs[1..], n, false, DocOf(p).explicitEnd);
      LinedBoth(PageLexemes(p), PagesLexemes(DocPages(docs[1..], n)), k);
      assert pages[1..] == DocPages(docs[1..], n);
      assert DocsOf(pages)[1..] == DocsOf(pages[1..]);
      NoEnds(docs[0], k);
      assert [docs[0]] + docs[1..] == docs;
    }
  }

  lemma NoEnds(d: Document, k: nat)
    ensures DocPage(d, k).ends == []
  {
  }

  lemma {:induction false} LinedOrdered(xs: seq<Lexeme>, k: nat, at: Mark, c: nat)
    requires Lined(xs, k) && at.index <= k && if k == 0 then at.line == 0 else at.line < k
    ensures Ordered(xs + [On(EndOfText, c, k + |xs|)], at)
    decreases |xs|
  {
    hide Proper;
    var last := On(EndOfText, c, k + |xs|);
    if xs == [] {
      assert xs + [last] == [last] && [last][1..] == [];
    } else {
      assert (xs + [last])[0] == xs[0] && (xs + [last])[1..] == xs[1..] + [last];
      assert forall i :: 0 <= i < |xs| - 1 ==> xs[1..][i] == xs[i + 1];
      LinedOrdered(xs[1..], k + 1, xs[0].end, c);
    }
  }

  /** Every list of documents that can be spelled, with at most 10000 blocks inside one another, is rendered as a text
      that is laid out, can be written, and stands for those documents. */
  lemma RenderingStands(docs: seq<Document>)
    requires Renderable(docs)
    ensures var b := Rendering(docs);
      && LaidOut(b) && Written(SourceOf(b)) && Documents(SourceOf(b)) == docs
      && forall i :: 0 <= i < |BookLexemes(b)| ==> Proper(BookLexemes(b)[i])
  {
    hide PagesLaid, PagesLexemes, DocPages, DocsWritten, Ordered, DocsOf, DocumentsOf, Renderable, Proper;
    var b := Rendering(docs);
    var xs := PagesLexemes(b.pages);
    PagesRendered(docs, 0, true, false);
    LinedOrdered(xs, 0, ORIGIN, 0);
    AddNothing([b.last]);
    assert BookLexemes(b) == xs + [b.last];
    assert Proper(b.last) by { ProperEnd(b.last); }
  }

  lemma ProperEnd(x: Lexeme)
    requires x.kind.EndOfText?
    ensures Proper(x)
  {
  }

  // ----- nothing else is loaded

  /** Whatever is written stands for trees that can be spelled. */
  lemma {:induction false} NodeSpellable(n: Y.Node, table: seq<TagDirective>)
    ensures Spellable(Y.TreeOf(n, table))
    decreases n, 0
  {
    hide Y.TreesOf, Y.TagText;
    if n.Node? && n.content.Collection? {
      EntriesSpellable(n.content.kind, n.content.entries, table);
    }
  }

  lemma {:induction false} EntriesSpellable(form: Y.Form, entries: seq<Y.Entry>, table: seq<TagDirective>)
    ensures forall t <- Y.TreesOf(form, entries, table) :: Spellable(t)
    decreases entries, 0
  {
    hide Y.TreeOf;
    if entries != [] {
      var e := entries[0];
      NodeSpellable(e.key, table);
      NodeSpellable(e.value, table);
      EntriesSpellable(form, entries[1..], table);
      var pair := [Y.TreeOf(e.key, table), Y.TreeOf(e.value, table)];
      assert Spellable(Mapping(MappingStartEvent(None, ""), pair));
      assert forall t <- Y.EntryTrees(form, e, table) :: Spellable(t);
    }
  }

  lemma {:induction false} DocumentsSpellable(docs: seq<Doc>)
    ensures forall d <- DocumentsOf(docs) :: Spellable(d.root)
  {
    hide Spellable, Y.TreeOf;
    if docs != [] {
      NodeSpellable(docs[0].root, G.TableOf(docs[0].directives));
      DocumentsSpellable(docs[1..]);
    }
  }
}
