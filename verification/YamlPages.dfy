/** Whole texts as they are laid out, and that each is scanned as the stream it is a layout of. */
module YamlPages {
  import opened Bytes
  import opened Sequences
  import opened YamlTokens
  import opened YamlTokenStream
  import opened YamlLexemes
  import opened YamlSyntax
  import opened YamlSources
  import opened YamlLayout
  import opened YamlInline
  import opened YamlIndented

  /** The lexemes of a document: extra end markers before it, its directives, its start marker, its node, its end marker. */
  datatype Page = Page(ends: seq<Lexeme>, directives: seq<Lexeme>, start: seq<Lexeme>, root: Text, end: seq<Lexeme>)

  /** Documents, extra end markers, and the end of the text. */
  datatype Book = Book(pages: seq<Page>, ends: seq<Lexeme>, last: Lexeme)

  function HeadLexemes(p: Page): seq<Lexeme> {
    p.ends + (p.directives + p.start)
  }

  function PageLexemes(p: Page): seq<Lexeme> {
    HeadLexemes(p) + (TextLexemes(p.root) + p.end)
  }

  function PagesLexemes(pages: seq<Page>): seq<Lexeme> {
    if pages == [] then [] else PageLexemes(pages[0]) + PagesLexemes(pages[1..])
  }

  function BookLexemes(b: Book): seq<Lexeme> {
    PagesLexemes(b.pages) + (b.ends + [b.last])
  }

  function DocOf(p: Page): Doc {
    Doc(|p.ends|, LexemeTokens(p.directives), p.start != [], NodeOf(p.root), p.end != [])
  }

  function DocsOf(pages: seq<Page>): seq<Doc> {
    if pages == [] then [] else [DocOf(pages[0])] + DocsOf(pages[1..])
  }

  /** The stream that a text is a layout of. */
  function SourceOf(b: Book): Source {
    Source(DocsOf(b.pages), |b.ends|)
  }

  // ----- where things are

  predicate AreAll(xs: seq<Lexeme>, kind: Kind) {
    forall i :: 0 <= i < |xs| ==> xs[i].sound && xs[i].kind == kind
  }

  /** A block collection on the line of a document start would not be one; without a start marker it may begin anywhere. */
  predicate PageLaid(p: Page, first: bool) {
    && AreAll(p.ends, DocumentIndicator(DocumentEndToken))
    && (forall i :: 0 <= i < |p.directives| ==> p.directives[i].sound && p.directives[i].kind.Directive? && IsDirective(p.directives[i].kind.token))
    && |p.start| <= 1 && AreAll(p.start, DocumentIndicator(DocumentStartToken)) && (!first ==> p.start != [])
    && Indented(p.root, -1, 0, HeadLexemes(p) == [], false)
    && |p.end| <= 1 && AreAll(p.end, DocumentIndicator(DocumentEndToken))
  }

  predicate PagesLaid(pages: seq<Page>, first: bool) {
    pages != [] ==> PageLaid(pages[0], first) && PagesLaid(pages[1..], false)
  }

  /** The lexemes are in order, and each document is laid out by indentation from column 0. */
  predicate LaidOut(b: Book) {
    && Ordered(BookLexemes(b), ORIGIN) && PagesLaid(b.pages, true)
    && AreAll(b.ends, DocumentIndicator(DocumentEndToken)) && b.last.kind.EndOfText?
  }

  // ----- markers

  predicate IsMarker(x: Lexeme) {
    x.kind.EndOfText? || (x.sound && (x.kind.Directive? || x.kind.DocumentIndicator?))
  }

  /** Outside of all blocks. */
  predicate Bare(s: Scanning) {
    s.indent == -1 && s.indents == []
  }

  /** A marker closes every block. */
  lemma MarkerStep(s: Scanning, x: Lexeme, stream: seq<Token>, at: Mark) returns (r: Scanning)
    requires Settled(s, -1, stream, [], at) && IsMarker(x)
    ensures Scans(s, [x], r) && r.stream == stream + KindTokens(x.kind) && Quiet(r) && Loose(r, x.end) && Bare(r)
  {
    hide Unrolled;
    NothingNeeded(s, at, x.start);
    hide Overdue;
    var aged := s.(keys := Aged(s.keys, x.start), allowed := s.allowed || (x.newLine && s.flow == 0));
    UnrolledSane(aged, x.start.column);
    UnrolledSane(Unrolled(aged, x.start.column), -1);
    UnrolledTwice(aged, x.start.column, -1);
    UnrolledKeys(s, -1, aged.keys, aged.allowed);
    r := Dispatched(Reached(s, x).value, x).value;
    ScansOne(s, x, r);
  }

  lemma {:induction false} MarkersLay(s: Scanning, xs: seq<Lexeme>, stream: seq<Token>, at: Mark) returns (r: Scanning)
    requires Settled(s, -1, stream, [], at) && forall i :: 0 <= i < |xs| ==> IsMarker(xs[i])
    ensures Scans(s, xs, r) && Settled(r, -1, stream + LexemeTokens(xs), [], EndMark(xs, at))
    ensures if xs == [] then r == s else Bare(r) && Quiet(r)
    decreases |xs|
  {
    hide Scans, LexemeTokens, Unrolled;
    if xs == [] {
      NothingSpelled();
      AddNothing(stream);
      ScansNothing(s);
      r := s;
    } else {
      var init, x := xs[..|xs| - 1], xs[|xs| - 1];
      assert xs == init + [x];
      var q := MarkersLay(s, init, stream, at);
      r := MarkerStep(q, x, stream + LexemeTokens(init), EndMark(init, at));
      ScansBoth(s, init, q, [x], r);
      LexemesAppend(init, x);
      Regroup(stream, LexemeTokens(init), KindTokens(x.kind));
      SettledHere(r, x.end);
    }
  }

  lemma {:induction false} LexemesBoth(xs: seq<Lexeme>, ys: seq<Lexeme>)
    ensures LexemeTokens(xs + ys) == LexemeTokens(xs) + LexemeTokens(ys)
    decreases |ys|
  {
    hide LexemeTokens, KindTokens;
    if ys == [] {
      AddNothing(xs);
      AddNothing(LexemeTokens(xs));
      NothingSpelled();
    } else {
      var init, y := ys[..|ys| - 1], ys[|ys| - 1];
      LexemesBoth(xs, init);
      Regroup(xs, init, [y]);
      assert ys == init + [y];
      LexemesAppend(init, y);
      LexemesAppend(xs + init, y);
      Regroup(LexemeTokens(xs), LexemeTokens(init), KindTokens(y.kind));
    }
  }

  lemma {:induction false} EndsSpelled(xs: seq<Lexeme>)
    requires AreAll(xs, DocumentIndicator(DocumentEndToken))
    ensures LexemeTokens(xs) == DocumentEnds(|xs|)
    decreases |xs|
  {
    if xs == [] {
    } else {
      assert xs == [xs[0]] + xs[1..];
      EndsSpelled(xs[1..]);
      LexemesBoth([xs[0]], xs[1..]);
      OneToken(xs[0]);
    }
  }

  /** What stands around the node of a document. */
  lemma PageTokens(p: Page, first: bool)
    requires PageLaid(p, first)
    ensures LexemeTokens(HeadLexemes(p)) == DocumentEnds(|p.ends|) + StartTokens(DocOf(p)) && LexemeTokens(p.end) == EndTokens(DocOf(p))
    ensures forall i :: 0 <= i < |HeadLexemes(p)| ==> IsMarker(HeadLexemes(p)[i])
    ensures forall i :: 0 <= i < |p.end| ==> IsMarker(p.end[i])
  {
    hide LexemeTokens, NodeOf, Indented, DocumentEnds;
    EndsSpelled(p.ends);
    LexemesBoth(p.directives, p.start);
    LexemesBoth(p.ends, p.directives + p.start);
    NothingSpelled();
    if p.start != [] {
      assert p.start == [p.start[0]];
      OneToken(p.start[0]);
    }
    if p.end != [] {
      assert p.end == [p.end[0]];
      OneToken(p.end[0]);
    }
  }

  /** A document and its markers. */
  lemma PageLays(p: Page, s: Scanning, stream: seq<Token>, at: Mark, first: bool) returns (r: Scanning)
    requires Settled(s, -1, stream, [], at) && PageLaid(p, first) && Ordered(PageLexemes(p), at)
    requires first ==> Bare(s) && s.allowed
    ensures Scans(s, PageLexemes(p), r)
    ensures Settled(r, -1, stream + (LexemeTokens(HeadLexemes(p)) + (NodeTokens(NodeOf(p.root)) + LexemeTokens(p.end))), [],
                    EndMark(PageLexemes(p), at))
  {
    hide Scans, LexemeTokens, NodeTokens, NodeOf, Indented, Ordered, HeadLexemes, TextLexemes, Unrolled, Loose, Lays;
    var heads, xs := HeadLexemes(p), TextLexemes(p.root);
    var a, b, c := LexemeTokens(heads), NodeTokens(NodeOf(p.root)), LexemeTokens(p.end);
    PageTokens(p, first);
    OrderedParts(heads, xs + p.end, at);
    OrderedParts(xs, p.end, EndMark(heads, at));
    var q := MarkersLay(s, heads, stream, at);
    HeadsNeeded(p, first);
    assert Bare(q);
    assert q.stream == stream + a by { UnrolledBare(q); }
    assert Loose(q, EndMark(heads, at));
    var u := NodeLays(p.root, q, EndMark(heads, at), heads == [], false);
    LaysIs(q, xs, u, b, EndMark(heads, at));
    EndsBoth(heads, xs + p.end, at);
    EndsBoth(xs, p.end, EndMark(heads, at));
    r := MarkersLay(u, p.end, stream + a + b, EndMark(xs, EndMark(heads, at)));
    ScansBoth(q, xs, u, p.end, r);
    ScansBoth(s, heads, q, xs + p.end, r);
    Regroup(stream + a, b, c);
    Regroup(stream, a, b + c);
  }

  lemma HeadsNeeded(p: Page, first: bool)
    requires PageLaid(p, first)
    ensures !first ==> HeadLexemes(p) != []
  {
    hide Indented;
  }

  lemma UnrolledBare(s: Scanning)
    requires Bare(s)
    ensures Unrolled(s, -1) == s
  {
  }

  /** All documents from some document on, and the end of the text. */
  lemma {:induction false} PagesScan(pages: seq<Page>, ends: seq<Lexeme>, last: Lexeme, s: Scanning, stream: seq<Token>, at: Mark, first: bool)
    returns (r: Scanning)
    requires Settled(s, -1, stream, [], at) && PagesLaid(pages, first) && (first ==> Bare(s) && s.allowed)
    requires AreAll(ends, DocumentIndicator(DocumentEndToken)) && last.kind.EndOfText?
    requires Ordered(PagesLexemes(pages) + (ends + [last]), at)
    ensures Scans(s, PagesLexemes(pages) + (ends + [last]), r) && Quiet(r) && r.stream == stream + DocsTokens(DocsOf(pages), |ends|)
    decreases |pages|
  {
    hide Scans, Settled, Ordered, LexemeTokens, PageLaid, NodeTokens, NodeOf, Quiet, PageLexemes, DocumentEnds, StartTokens, EndTokens;
    if pages == [] {
      AddNothing(ends + [last]);
      EndsSpelled(ends);
      var q := MarkersLay(s, ends, stream, at);
      r := MarkerStep(q, last, stream + LexemeTokens(ends), EndMark(ends, at));
      ScansBoth(s, ends, q, [last], r);
      Regroup(stream, LexemeTokens(ends), [StreamEndToken]);
    } else {
      var p, xs, ys := pages[0], PageLexemes(pages[0]), PagesLexemes(pages[1..]) + (ends + [last]);
      Regroup(xs, PagesLexemes(pages[1..]), ends + [last]);
      OrderedParts(xs, ys, at);
      var tokens := LexemeTokens(HeadLexemes(p)) + (NodeTokens(NodeOf(p.root)) + LexemeTokens(p.end));
      var q := PageLays(p, s, stream, at, first);
      r := PagesScan(pages[1..], ends, last, q, stream + tokens, EndMark(xs, at), false);
      ScansBoth(s, xs, q, ys, r);
      PageThen(pages, |ends|, first);
      Regroup(stream, tokens, DocsTokens(DocsOf(pages[1..]), |ends|));
    }
  }

  lemma PageThen(pages: seq<Page>, ends: nat, first: bool)
    requires pages != [] && PageLaid(pages[0], first)
    ensures var p := pages[0];
      DocsTokens(DocsOf(pages), ends)
      == LexemeTokens(HeadLexemes(p)) + (NodeTokens(NodeOf(p.root)) + LexemeTokens(p.end)) + DocsTokens(DocsOf(pages[1..]), ends)
  {
    hide LexemeTokens, PageLaid, NodeTokens, NodeOf, DocumentEnds, StartTokens, EndTokens;
    var d, rest := DocOf(pages[0]), DocsTokens(DocsOf(pages[1..]), ends);
    PageTokens(pages[0], first);
    assert DocsOf(pages)[0] == d && DocsOf(pages)[1..] == DocsOf(pages[1..]);
    var a, b, c, e := DocumentEnds(d.ends), StartTokens(d), NodeTokens(d.root), EndTokens(d);
    assert DocsTokens(DocsOf(pages), ends) == a + (b + (c + (e + rest)));
    hide DocsTokens;
    Regroup(c, e, rest);
    Regroup(a + b, c + e, rest);
    Regroup(a, b, (c + e) + rest);
  }

  /** A text that is laid out can be scanned, and its tokens are those of the stream it is a layout of. */
  lemma LayoutScans(b: Book)
    requires LaidOut(b)
    ensures Scannable(BookLexemes(b)) && ScannedTokens(BookLexemes(b)) == SourceTokens(SourceOf(b))
  {
    hide FetchedAll, Ordered, PagesLaid, DocsTokens, PagesLexemes, Quiet;
    var text, init := BookLexemes(b), PagesLexemes(b.pages) + b.ends;
    assert Sane(START) && Loose(START, ORIGIN);
    SettledHere(START, ORIGIN);
    var r := PagesScan(b.pages, b.ends, b.last, START, [StreamStartToken], ORIGIN, true);
    Regroup(PagesLexemes(b.pages), b.ends, [b.last]);
    assert text == init + [b.last];
    OrderedSplit(init, [b.last], ORIGIN);
    assert EndsOnce(text) by { assert forall i :: 0 <= i < |text| - 1 ==> text[i] == init[i]; }
  }
}
