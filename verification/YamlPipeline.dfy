/** From the lexemes of a text to its documents, through scanner, parser and builder. */
module YamlPipeline {
  import opened YamlEvents
  import opened YamlTokens
  import opened YamlBuilder
  import opened YamlTokenStream
  import opened YamlLexemes
  import opened YamlScanner
  import opened YamlSources
  import opened YamlPages
  import opened YamlRendering
  import opened YamlGraph
  import D = YamlDecoder

  lemma LastOfSource(s: Source)
    ensures SourceTokens(s) != [] && SourceTokens(s)[|SourceTokens(s)| - 1] == StreamEndToken
  {
    LastOfDocs(s.docs, s.ends);
  }

  lemma {:induction false} LastOfDocs(docs: seq<Doc>, ends: nat)
    ensures var ts := DocsTokens(docs, ends); ts != [] && ts[|ts| - 1] == StreamEndToken
    decreases |docs|
  {
    if docs != [] {
      LastOfDocs(docs[1..], ends);
    }
  }

  /** Loads a text, given as its lexemes. Whatever documents come of it are those of some stream whose tokens are
      exactly the ones that the lexemes stand for, in order, and implied ones: no entry, key, value, bracket, comma,
      scalar, alias, anchor, tag, directive or document indicator is lost, doubled, moved, changed or made up. Where
      the scanner makes a stream that can be written of the lexemes, its documents are loaded if their aliases
      resolve, and only then. In particular those of every text that is laid out by indentation, with any mixture of
      brackets, simple keys, question marks and properties, are. */
  method Load(text: seq<Lexeme>) returns (docs: seq<Document>, r: StreamOutcome)
    requires forall i :: 0 <= i < |text| ==> Proper(text[i])
    ensures !r.Crashed? && WellFormedDocuments(docs) && AllResolvable(docs)
    ensures r.Complete? && EndsOnce(text) ==>
      exists s :: Written(s) && docs == Documents(s) && Kept(SourceTokens(s)) == [StreamStartToken] + LexemeTokens(text)
    ensures r.Complete? && EndsOnce(text) ==> EventsSay(StreamEvents(docs)) == LexemesSay(text)
    ensures r.Complete? && EndsOnce(text) ==> forall d <- docs :: Spellable(d.root)
    ensures forall s :: Scannable(text) && Written(s) && ScannedTokens(text) == SourceTokens(s) ==>
      (r.Complete? <==> AllResolvable(Documents(s))) && (r.Complete? ==> docs == Documents(s))
    ensures forall b :: LaidOut(b) && BookLexemes(b) == text && Written(SourceOf(b)) ==>
      (r.Complete? <==> AllResolvable(Documents(SourceOf(b)))) && (r.Complete? ==> docs == Documents(SourceOf(b)))
  {
    hide TokensSay, EventsSay, LexemeTokens, Kept, NeverNegative, WellFormedDocuments, StreamEvents, AllResolvable, Written, SourceTokens,
         Documents, Scannable, ScannedTokens, EndsOnce, LexemesSay, LaidOut, SourceOf, BookLexemes, Spellable;
    var scanner := new Scanner(text);
    var tokens := ScanAll(scanner);
    var n;
    ghost var events;
    docs, n, r, events := BuildDocuments(tokens);
    if r.Complete? && EndsOnce(text) {
      ghost var s :| Written(s) && tokens[..n] == SourceTokens(s) && docs == Documents(s);
      LastOfSource(s);
      KeptPrefix(tokens, n);
      AllKept(SourceTokens(s), text);
      AllSpellable(s);
    }
    forall b | LaidOut(b) && BookLexemes(b) == text
      ensures Scannable(text) && ScannedTokens(text) == SourceTokens(SourceOf(b))
    {
      LayoutScans(b);
    }
  }

  lemma AllSpellable(s: Source)
    ensures forall d <- Documents(s) :: Spellable(d.root)
  {
    DocumentsSpellable(s.docs);
  }

  /** Documents that are rendered as a text are loaded from it again if their aliases resolve, and only then. */
  method LoadRendering(docs: seq<Document>) returns (back: seq<Document>, r: StreamOutcome)
    requires Renderable(docs)
    ensures r.Complete? <==> AllResolvable(docs)
    ensures r.Complete? ==> back == docs
  {
    hide Renderable, AllResolvable, LaidOut, Written, SourceOf, Documents, BookLexemes, Rendering, Proper;
    var b := Rendering(docs);
    RenderingStands(docs);
    back, r := Load(BookLexemes(b));
  }

  /** Decode operations allowed for a document: linear in its nodes, however far its aliases expand. */
  function Allowance(doc: Document): nat
    requires Resolvable(doc.root)
  {
    D.Bound(D.Size(D.Document(LinkTree(doc.root, 0, map[]).tops))) + 1
  }

  /** Loading and decoding any text ends, and the work on each document is within its allowance. */
  method LoadAndDecode(text: seq<Lexeme>) returns (docs: seq<Document>, work: seq<nat>)
    requires forall i :: 0 <= i < |text| ==> Proper(text[i])
    ensures |work| == |docs| && forall i :: 0 <= i < |docs| ==> Resolvable(docs[i].root) && work[i] <= Allowance(docs[i])
  {
    hide Resolvable, WellFormed, Allowance;
    var r;
    docs, r := Load(text);
    work := [];
    var i := 0;
    while i < |docs|
      invariant i <= |docs| && |work| == i
      invariant forall k :: 0 <= k < i ==> Resolvable(docs[k].root) && work[k] <= Allowance(docs[k])
    {
      assert docs[i] in docs;
      var n := DecodeOne(docs[i]);
      work := work + [n];
      i := i + 1;
    }
  }

  method DecodeOne(doc: Document) returns (work: nat)
    requires WellFormed(doc.root) && Resolvable(doc.root)
    ensures work <= Allowance(doc)
  {
    hide Resolvable, WellFormed;
    var r;
    r, work := DecodeDocument(doc.root);
  }
}
