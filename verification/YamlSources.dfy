/** Whole streams as they are written, and that the grammar reads exactly those. */
module YamlSources {
  import opened Bytes
  import opened Sequences
  import opened YamlEvents
  import opened YamlTokens
  import opened YamlGrammar
  import opened YamlSyntax
  import opened YamlWritten

  /** A document: `ends` extra DOCUMENT-END tokens before it, its directives, and one node, which may be missing
      after an explicit start. */
  datatype Doc = Doc(ends: nat, directives: seq<Token>, explicit: bool, root: Node, explicitEnd: bool)

  /** Documents, and extra DOCUMENT-END tokens after the last. */
  datatype Source = Source(docs: seq<Doc>, ends: nat)

  function DocumentEnds(n: nat): seq<Token> {
    if n == 0 then [] else [DocumentEndToken] + DocumentEnds(n - 1)
  }

  function StartTokens(d: Doc): seq<Token> {
    d.directives + if d.explicit then [DocumentStartToken] else []
  }

  function EndTokens(d: Doc): seq<Token> {
    if d.explicitEnd then [DocumentEndToken] else []
  }

  function DocsTokens(docs: seq<Doc>, ends: nat): seq<Token> {
    if docs == [] then DocumentEnds(ends) + [StreamEndToken]
    else
      var d := docs[0];
      DocumentEnds(d.ends) + (StartTokens(d) + (NodeTokens(d.root) + (EndTokens(d) + DocsTokens(docs[1..], ends))))
  }

  function SourceTokens(s: Source): seq<Token> {
    [StreamStartToken] + DocsTokens(s.docs, s.ends)
  }

  predicate DocWritten(d: Doc, first: bool) {
    && (forall i :: 0 <= i < |d.directives| ==> IsDirective(d.directives[i]))
    && Declarable(d.directives, [])
    && (!d.explicit ==> first && d.directives == [] && !d.root.Missing?)
    && Fits(d.root, true, false, TableOf(d.directives))
  }

  /** Extra DOCUMENT-END tokens only follow one that ends a document, and only the first document may do without
      an explicit start. */
  predicate DocsWritten(docs: seq<Doc>, ends: nat, first: bool, ended: bool)
    decreases |docs|
  {
    if docs == [] then ends > 0 ==> ended
    else
      && (docs[0].ends > 0 ==> ended) && DocWritten(docs[0], first)
      && DocsWritten(docs[1..], ends, false, docs[0].explicitEnd)
  }

  predicate Written(s: Source) {
    DocsWritten(s.docs, s.ends, true, false)
  }

  function DocumentOf(d: Doc): Document {
    Document(TreeOf(d.root, TableOf(d.directives)), d.explicitEnd)
  }

  function DocumentsOf(docs: seq<Doc>): seq<Document> {
    if docs == [] then [] else [DocumentOf(docs[0])] + DocumentsOf(docs[1..])
  }

  /** The documents that a source stands for. */
  function Documents(s: Source): seq<Document> {
    DocumentsOf(s.docs)
  }

  // ----- events from the front

  /** The events of the documents from some document on, to the end of the stream. */
  function RestEvents(docs: seq<Doc>): seq<Event> {
    DocumentEvents(DocumentsOf(docs)) + [StreamEndEvent]
  }

  lemma RestEventsStep(docs: seq<Doc>)
    requires docs != []
    ensures var d := docs[0];
      RestEvents(docs) == [DocumentStartEvent] + NodeEvents(d.root, TableOf(d.directives))
                          + ([DocumentEndEvent(d.explicitEnd)] + RestEvents(docs[1..]))
  {
    hide TreeEvents, TreeOf, DocumentEvents, TableOf;
    DocumentsPrepend(DocumentOf(docs[0]), DocumentsOf(docs[1..]));
  }

  /** The parts of the first document and what comes after it. */
  lemma DocsTokensStep(docs: seq<Doc>, ends: nat, rest: seq<Token>)
    requires docs != []
    ensures var d := docs[0];
      DocsTokens(docs, ends) + rest
      == DocumentEnds(d.ends) + (StartTokens(d) + (NodeTokens(d.root) + (EndTokens(d) + (DocsTokens(docs[1..], ends) + rest))))
  {
    hide NodeTokens, StartTokens, EndTokens, DocumentEnds;
    var d, tail := docs[0], DocsTokens(docs[1..], ends);
    assert DocsTokens(docs, ends) == DocumentEnds(d.ends) + (StartTokens(d) + (NodeTokens(d.root) + (EndTokens(d) + tail)));
    hide DocsTokens;
    Regroup(EndTokens(d), tail, rest);
    Regroup(NodeTokens(d.root), EndTokens(d) + tail, rest);
    Regroup(StartTokens(d), NodeTokens(d.root) + (EndTokens(d) + tail), rest);
    Regroup(DocumentEnds(d.ends), StartTokens(d) + (NodeTokens(d.root) + (EndTokens(d) + tail)), rest);
  }

  // ----- what was written is read

  lemma {:induction false} EndsRead(n: nat, ts: seq<Token>)
    ensures NextDocument(DocumentEnds(n) + ts) == NextDocument(ts)
  {
    hide ExplicitDocument;
    if n == 0 {
      AddNothing(ts);
    } else {
      assert (DocumentEnds(n) + ts)[1..] == DocumentEnds(n - 1) + ts;
      EndsRead(n - 1, ts);
    }
  }

  /** How the documents after another begin. */
  lemma DocsFirst(docs: seq<Doc>, ends: nat, first: bool, ended: bool, rest: seq<Token>)
    requires DocsWritten(docs, ends, first, ended)
    ensures var ts := DocsTokens(docs, ends) + rest; ts != []
    ensures !first ==> var ts := DocsTokens(docs, ends) + rest; EndsDocument(ts[0]) && (!ended ==> !ts[0].DocumentEndToken?)
  {
    hide NodeTokens, Fits, TableOf;
    var ts := DocsTokens(docs, ends) + rest;
    var n := if docs == [] then ends else docs[0].ends;
    if n > 0 {
      assert DocumentEnds(n)[0] == DocumentEndToken;
      assert ts[0] == DocumentEndToken;
    } else if docs == [] {
      assert ts == [StreamEndToken] + rest;
    } else {
      assert DocumentEnds(0) == [];
      FirstOfDocument(docs, ends, first, ended, rest);
    }
  }

  lemma FirstOfDocument(docs: seq<Doc>, ends: nat, first: bool, ended: bool, rest: seq<Token>)
    requires DocsWritten(docs, ends, first, ended) && docs != [] && docs[0].ends == 0
    ensures var ts := DocsTokens(docs, ends) + rest;
      ts != [] && (docs[0].explicit ==> IsDirective(ts[0]) || ts[0].DocumentStartToken?)
  {
    hide Fits, TableOf, NodeTokens, Declarable;
    var d := docs[0];
    var start, more := StartTokens(d), NodeTokens(d.root) + (EndTokens(d) + DocsTokens(docs[1..], ends));
    assert DocumentEnds(0) == [];
    assert DocsTokens(docs, ends) == start + more;
    hide DocsTokens, DocsWritten;
    if d.explicit {
      assert d.directives != [] ==> start[0] == d.directives[0];
      assert (start + more + rest)[0] == start[0];
    } else {
      FirstToken(d.root, true, false, TableOf(d.directives));
    }
  }

  /** What follows the node of a document. */
  lemma AfterRoot(d: Doc, docs: seq<Doc>, ends: nat, rest: seq<Token>)
    requires DocsWritten(docs, ends, false, d.explicitEnd)
    requires NextDocument(DocsTokens(docs, ends) + rest) == Got(RestEvents(docs), rest)
    ensures var ts := EndTokens(d) + (DocsTokens(docs, ends) + rest);
      && ts != [] && EndsDocument(ts[0]) && Follows(ts, false)
      && DocumentEnd(ts) == Got([DocumentEndEvent(d.explicitEnd)] + RestEvents(docs), rest)
  {
    hide NextDocument, DocsTokens, RestEvents, DocsWritten;
    var after := DocsTokens(docs, ends) + rest;
    var ts := EndTokens(d) + after;
    DocsFirst(docs, ends, false, d.explicitEnd, rest);
    if d.explicitEnd {
      assert ts[1..] == after;
    } else {
      assert ts == after;
    }
  }

  /** The node of a document and everything after it. */
  lemma RootReads(d: Doc, first: bool, docs: seq<Doc>, ends: nat, rest: seq<Token>)
    requires DocWritten(d, first) && DocsWritten(docs, ends, false, d.explicitEnd)
    requires NextDocument(DocsTokens(docs, ends) + rest) == Got(RestEvents(docs), rest)
    ensures var ts, table := EndTokens(d) + (DocsTokens(docs, ends) + rest), TableOf(d.directives);
      && ts != [] && EndsDocument(ts[0]) && Follows(ts, false)
      && DocumentEnd(ts) == Got([DocumentEndEvent(d.explicitEnd)] + RestEvents(docs), rest)
      && (!d.root.Missing? ==> NodeAt(NodeTokens(d.root) + ts, true, false, table) == Got(NodeEvents(d.root, table), ts))
      && DocumentNode(NodeTokens(d.root) + ts, table) == Got(NodeEvents(d.root, table), ts)
  {
    hide NextDocument, NodeAt, NodeTokens, TreeEvents, Fits, DocsTokens, TableOf, RestEvents, DocsWritten, DocumentEnd, EndTokens;
    var table := TableOf(d.directives);
    var ts := EndTokens(d) + (DocsTokens(docs, ends) + rest);
    AfterRoot(d, docs, ends, rest);
    if d.root.Missing? {
      assert NodeTokens(d.root) == [] by { NoTokens(); }
      AddNothing(ts);
      MissingEvents(table);
    } else {
      FirstToken(d.root, true, false, table);
      NodeReads(d.root, true, false, table, ts);
      assert (NodeTokens(d.root) + ts)[0] == NodeTokens(d.root)[0];
    }
  }

  lemma NoTokens()
    ensures NodeTokens(Missing) == []
  {
  }

  lemma DirectivesRead(ds: seq<Token>, ts: seq<Token>)
    requires (forall i :: 0 <= i < |ds| ==> IsDirective(ds[i])) && ts != [] && !IsDirective(ts[0])
    ensures DirectiveCount(ds + ts) == |ds| && (ds + ts)[..|ds|] == ds && (ds + ts)[|ds|..] == ts
  {
    assert forall i :: 0 <= i < |ds| ==> (ds + ts)[i] == ds[i];
    assert (ds + ts)[|ds|] == ts[0];
  }

  /** A document with an explicit start. */
  lemma ExplicitReads(d: Doc, first: bool, docs: seq<Doc>, ends: nat, rest: seq<Token>)
    requires DocWritten(d, first) && d.explicit && DocsWritten(docs, ends, false, d.explicitEnd)
    requires NextDocument(DocsTokens(docs, ends) + rest) == Got(RestEvents(docs), rest)
    ensures var ts := StartTokens(d) + (NodeTokens(d.root) + (EndTokens(d) + (DocsTokens(docs, ends) + rest)));
      && ts != [] && (IsDirective(ts[0]) || ts[0].DocumentStartToken?)
      && ExplicitDocument(ts) == Got(RestEvents([d] + docs), rest)
  {
    hide NextDocument, NodeAt, NodeTokens, NodeEvents, TreeEvents, Fits, DocsTokens, TableOf, RestEvents, DocumentEnd, DocumentNode;
    RootReads(d, first, docs, ends, rest);
    var ts := NodeTokens(d.root) + (EndTokens(d) + (DocsTokens(docs, ends) + rest));
    var all := StartTokens(d) + ts;
    assert all == d.directives + ([DocumentStartToken] + ts);
    DirectivesRead(d.directives, [DocumentStartToken] + ts);
    assert all[|d.directives| + 1..] == ts;
    assert d.directives != [] ==> all[0] == d.directives[0];
    RestEventsStep([d] + docs);
    assert ([d] + docs)[1..] == docs;
  }

  lemma {:induction false} DocsRead(docs: seq<Doc>, ends: nat, ended: bool, rest: seq<Token>)
    requires DocsWritten(docs, ends, false, ended)
    ensures NextDocument(DocsTokens(docs, ends) + rest) == Got(RestEvents(docs), rest)
    decreases |docs|
  {
    hide NodeTokens, RestEvents, Fits, TableOf, ExplicitDocument, DocumentEnds, StartTokens, EndTokens, NextDocument, Declarable;
    if docs == [] {
      Regroup(DocumentEnds(ends), [StreamEndToken], rest);
      EndsRead(ends, [StreamEndToken] + rest);
      StreamEnds(rest);
    } else {
      var d := docs[0];
      DocsRead(docs[1..], ends, d.explicitEnd, rest);
      ExplicitReads(d, false, docs[1..], ends, rest);
      var ts := StartTokens(d) + (NodeTokens(d.root) + (EndTokens(d) + (DocsTokens(docs[1..], ends) + rest)));
      DocsTokensStep(docs, ends, rest);
      EndsRead(d.ends, ts);
      assert docs == [d] + docs[1..];
      assert NextDocument(ts) == ExplicitDocument(ts) by { NotAnEnd(ts); }
    }
  }

  lemma NotAnEnd(ts: seq<Token>)
    requires ts != [] && !ts[0].DocumentEndToken?
    ensures NextDocument(ts) == ExplicitDocument(ts)
  {
    hide ExplicitDocument;
  }

  lemma StreamEnds(rest: seq<Token>)
    ensures NextDocument([StreamEndToken] + rest) == Got(RestEvents([]), rest)
    ensures ExplicitDocument([StreamEndToken] + rest) == Got(RestEvents([]), rest)
  {
    var ts := [StreamEndToken] + rest;
    assert ts[1..] == rest;
    assert ExplicitDocument(ts) == Got([StreamEndEvent], rest);
    assert DocumentEvents([]) == [];
  }

  /** Every stream that is written is read as its documents, whatever tokens come after it. */
  lemma SourceReads(s: Source, rest: seq<Token>)
    requires Written(s)
    ensures Stream(SourceTokens(s) + rest) == Got(StreamEvents(Documents(s)), rest)
  {
    hide NodeTokens, NodeEvents, TreeEvents, Fits, TableOf, ExplicitDocument, NextDocument, NodeAt, DocumentEvents;
    var ts := DocsTokens(s.docs, s.ends) + rest;
    assert SourceTokens(s) + rest == [StreamStartToken] + ts;
    assert ([StreamStartToken] + ts)[1..] == ts;
    FirstReads(s.docs, s.ends, rest);
    assert [StreamStartEvent] + RestEvents(s.docs) == StreamEvents(Documents(s));
  }

  lemma FirstReads(docs: seq<Doc>, ends: nat, rest: seq<Token>)
    requires DocsWritten(docs, ends, true, false)
    ensures FirstDocument(DocsTokens(docs, ends) + rest) == Got(RestEvents(docs), rest)
  {
    hide NodeTokens, TableOf, ExplicitDocument, NextDocument, NodeAt, RestEvents, DocsTokens, DocWritten;
    if docs == [] {
      NoDocuments();
      StreamEnds(rest);
    } else {
      var d := docs[0];
      assert docs == [d] + docs[1..];
      DocsRead(docs[1..], ends, d.explicitEnd, rest);
      OneMoreDocument(d, docs[1..], ends, true, rest);
      hide *;
      if d.explicit {
        ExplicitFirst(d, docs[1..], ends, rest);
      } else {
        ImplicitReads(d, docs[1..], ends, rest);
        NothingBefore(d);
      }
    }
  }

  lemma NothingBefore(d: Doc)
    requires DocWritten(d, true) && !d.explicit
    ensures forall ts :: StartTokens(d) + ts == ts
  {
  }

  lemma ExplicitFirst(d: Doc, docs: seq<Doc>, ends: nat, rest: seq<Token>)
    requires DocWritten(d, true) && d.explicit && DocsWritten(docs, ends, false, d.explicitEnd)
    requires NextDocument(DocsTokens(docs, ends) + rest) == Got(RestEvents(docs), rest)
    ensures FirstDocument(StartTokens(d) + (NodeTokens(d.root) + (EndTokens(d) + (DocsTokens(docs, ends) + rest))))
         == Got(RestEvents([d] + docs), rest)
  {
    hide NodeTokens, TableOf, ExplicitDocument, NextDocument, NodeAt, RestEvents, DocsTokens, DocWritten, StartTokens;
    ExplicitReads(d, true, docs, ends, rest);
  }

  lemma ImplicitReads(d: Doc, docs: seq<Doc>, ends: nat, rest: seq<Token>)
    requires DocWritten(d, true) && !d.explicit && DocsWritten(docs, ends, false, d.explicitEnd)
    requires NextDocument(DocsTokens(docs, ends) + rest) == Got(RestEvents(docs), rest)
    ensures FirstDocument(NodeTokens(d.root) + (EndTokens(d) + (DocsTokens(docs, ends) + rest))) == Got(RestEvents([d] + docs), rest)
  {
    hide NodeTokens, NodeEvents, TreeEvents, Fits, TableOf, ExplicitDocument, NextDocument, NodeAt, RestEvents, DocumentEnd,
         DocsTokens, DocsWritten, Declarable;
    RootReads(d, true, docs, ends, rest);
    FirstToken(d.root, true, false, TableOf(d.directives));
    RestEventsStep([d] + docs);
    assert ([d] + docs)[1..] == docs;
  }

  // ----- whatever is read was written

  /** The documents after some DOCUMENT-END tokens. */
  lemma {:induction false} NextWritten(ts: seq<Token>) returns (docs: seq<Doc>, ends: nat)
    requires NextDocument(ts).Got?
    ensures DocsWritten(docs, ends, false, ts[0].DocumentEndToken?)
    ensures var p := NextDocument(ts); ts == DocsTokens(docs, ends) + p.rest && p.events == RestEvents(docs)
    decreases |ts|, 2
  {
    hide ExplicitDocument, RestEvents, NodeTokens, Fits, TableOf, Declarable;
    if ts[0].DocumentEndToken? {
      docs, ends := NextWritten(ts[1..]);
      var rest := NextDocument(ts).rest;
      assert ts == [DocumentEndToken] + ts[1..];
      docs, ends := OneMoreEnd(docs, ends, rest);
    } else {
      docs, ends := ExplicitWritten(ts, false);
    }
  }

  lemma OneMoreEnd(docs: seq<Doc>, ends: nat, rest: seq<Token>) returns (docs': seq<Doc>, ends': nat)
    requires DocsWritten(docs, ends, false, true) || DocsWritten(docs, ends, false, false)
    ensures DocsWritten(docs', ends', false, true) && RestEvents(docs') == RestEvents(docs)
    ensures DocsTokens(docs', ends') + rest == [DocumentEndToken] + (DocsTokens(docs, ends) + rest)
  {
    hide NodeTokens, DocumentEvents, DocWritten, StartTokens, EndTokens, DocumentOf;
    if docs == [] {
      docs', ends' := [], ends + 1;
      assert DocumentEnds(ends + 1) == [DocumentEndToken] + DocumentEnds(ends);
    } else {
      var d := docs[0];
      docs', ends' := [d.(ends := d.ends + 1)] + docs[1..], ends;
      SameDocument(d);
      assert docs'[1..] == docs[1..];
      hide DocsTokens;
      DocsTokensStep(docs, ends, rest);
      DocsTokensStep(docs', ends, rest);
      var tail := StartTokens(d) + (NodeTokens(d.root) + (EndTokens(d) + (DocsTokens(docs[1..], ends) + rest)));
      Regroup([DocumentEndToken], DocumentEnds(d.ends), tail);
    }
  }

  lemma SameDocument(d: Doc)
    ensures var e := d.(ends := d.ends + 1);
      && DocumentEnds(e.ends) == [DocumentEndToken] + DocumentEnds(d.ends) && StartTokens(e) == StartTokens(d) && EndTokens(e) == EndTokens(d)
      && DocumentOf(e) == DocumentOf(d) && forall first :: DocWritten(e, first) == DocWritten(d, first)
  {
  }

  lemma {:induction false} ExplicitWritten(ts: seq<Token>, first: bool) returns (docs: seq<Doc>, ends: nat)
    requires ExplicitDocument(ts).Got?
    ensures DocsWritten(docs, ends, first, false)
    ensures var p := ExplicitDocument(ts); ts == DocsTokens(docs, ends) + p.rest && p.events == RestEvents(docs)
    decreases |ts|, 1
  {
    hide RestEvents, NodeTokens, NodeEvents, Fits, TableOf, Declarable, DocumentNode, DocumentEnd, DocsTokens;
    if ts[0].StreamEndToken? {
      docs, ends := [], 0;
      StreamEnds(ts[1..]);
      assert ts == [StreamEndToken] + ts[1..];
      NoDocuments();
    } else {
      var n := DirectiveCount(ts);
      var ds, more := ts[..n], ts[n + 1..];
      var root, after := RootWritten(more, TableOf(ds));
      var explicitEnd;
      explicitEnd, docs, ends := EndWrittenBy(after);
      var d := Doc(0, ds, true, root, explicitEnd);
      OneMoreDocument(d, docs, ends, first, DocumentEnd(after).rest);
      assert ts == StartTokens(d) + more by { Started(ts, n, d); }
      hide StartTokens, EndTokens, DirectiveCount;
      ThenThen([DocumentStartEvent], NodeEvents(root, TableOf(ds)), DocumentEnd(after));
      docs := [d] + docs;
    }
  }

  lemma Started(ts: seq<Token>, n: nat, d: Doc)
    requires n < |ts| && ts[n].DocumentStartToken? && d.directives == ts[..n] && d.explicit
    ensures ts == StartTokens(d) + ts[n + 1..]
  {
    assert ts == ts[..n] + [ts[n]] + ts[n + 1..];
  }

  lemma NoDocuments()
    ensures DocsTokens([], 0) == [StreamEndToken]
  {
    assert DocumentEnds(0) == [];
  }

  lemma RootWritten(ts: seq<Token>, table: seq<TagDirective>) returns (root: Node, after: seq<Token>)
    requires DocumentNode(ts, table).Got?
    ensures Fits(root, true, false, table) && ts == NodeTokens(root) + after && |after| <= |ts|
    ensures DocumentNode(ts, table) == Got(NodeEvents(root, table), after)
  {
    hide NodeAt;
    root, after := PartWritten(ts, EndsDocument(ts[0]), true, false, table);
  }

  lemma {:induction false} EndWrittenBy(ts: seq<Token>) returns (explicitEnd: bool, docs: seq<Doc>, ends: nat)
    requires DocumentEnd(ts).Got?
    ensures DocsWritten(docs, ends, false, explicitEnd)
    ensures var p := DocumentEnd(ts);
      && ts == (if explicitEnd then [DocumentEndToken] else []) + (DocsTokens(docs, ends) + p.rest)
      && p.events == [DocumentEndEvent(explicitEnd)] + RestEvents(docs)
    decreases |ts|, 3
  {
    hide RestEvents, DocsTokens, NextDocument;
    explicitEnd := ts[0].DocumentEndToken?;
    if explicitEnd {
      docs, ends := NextWritten(ts[1..]);
      assert ts == [DocumentEndToken] + ts[1..];
      Endable(docs, ends);
    } else {
      docs, ends := NextWritten(ts);
      AddNothing(ts);
    }
  }

  /** After a DOCUMENT-END anything may come. */
  lemma Endable(docs: seq<Doc>, ends: nat)
    requires DocsWritten(docs, ends, false, true) || DocsWritten(docs, ends, false, false)
    ensures DocsWritten(docs, ends, false, true)
  {
    hide DocWritten;
  }

  lemma OneMoreDocument(d: Doc, docs: seq<Doc>, ends: nat, first: bool, rest: seq<Token>)
    requires d.ends == 0 && DocWritten(d, first) && DocsWritten(docs, ends, false, d.explicitEnd)
    ensures var all := [d] + docs;
      && DocsWritten(all, ends, first, false)
      && DocsTokens(all, ends) + rest == StartTokens(d) + (NodeTokens(d.root) + (EndTokens(d) + (DocsTokens(docs, ends) + rest)))
      && RestEvents(all) == [DocumentStartEvent] + NodeEvents(d.root, TableOf(d.directives))
                            + ([DocumentEndEvent(d.explicitEnd)] + RestEvents(docs))
  {
    hide NodeTokens, TableOf, RestEvents, NodeEvents, DocWritten, DocsTokens, StartTokens, EndTokens;
    var all := [d] + docs;
    assert all[1..] == docs && DocumentEnds(0) == [];
    RestEventsStep(all);
    DocsTokensStep(all, ends, rest);
  }

  lemma {:induction false} FirstWritten(ts: seq<Token>) returns (docs: seq<Doc>, ends: nat)
    requires FirstDocument(ts).Got?
    ensures DocsWritten(docs, ends, true, false)
    ensures var p := FirstDocument(ts); ts == DocsTokens(docs, ends) + p.rest && p.events == RestEvents(docs)
  {
    hide RestEvents, NodeTokens, NodeEvents, Fits, TableOf, ExplicitDocument, DocumentEnd, DocsTokens, NodeAt, Declarable;
    if IsDirective(ts[0]) || ts[0].DocumentStartToken? || ts[0].StreamEndToken? {
      docs, ends := ExplicitWritten(ts, true);
    } else {
      var root, after := PartWritten(ts, false, true, false, TableOf([]));
      var explicitEnd;
      explicitEnd, docs, ends := EndWrittenBy(after);
      var d := Doc(0, [], false, root, explicitEnd);
      NoDirectives([]);
      OneMoreDocument(d, docs, ends, true, DocumentEnd(after).rest);
      NothingBefore(d);
      hide StartTokens, EndTokens;
      ThenThen([DocumentStartEvent], NodeEvents(root, TableOf([])), DocumentEnd(after));
      docs := [d] + docs;
    }
  }

  /** Nothing else is read: a stream without an error is one that was written, and its events are those of the
      documents it stands for. */
  lemma SourceWritten(ts: seq<Token>) returns (s: Source)
    requires Stream(ts).Got?
    ensures Written(s) && ts == SourceTokens(s) + Stream(ts).rest && Stream(ts).events == StreamEvents(Documents(s))
  {
    hide DocsTokens, DocumentEvents, FirstDocument;
    var docs, ends := FirstWritten(ts[1..]);
    s := Source(docs, ends);
    assert ts == [StreamStartToken] + ts[1..];
  }

  // ----- the documents are well formed

  lemma {:induction false} TreeFormed(n: Node, block: bool, indentless: bool, table: seq<TagDirective>)
    requires Fits(n, block, indentless, table)
    ensures WellFormed(TreeOf(n, table))
    decreases n
  {
    if n.Node? && n.content.Collection? {
      TreesFormed(n.content.kind, n.content.entries, table);
    }
  }

  lemma {:induction false} TreesFormed(k: Form, entries: seq<Entry>, table: seq<TagDirective>)
    requires EntriesFit(k, entries, table)
    ensures forall t <- TreesOf(k, entries, table) :: WellFormed(t)
    ensures IsMapping(k) ==> |TreesOf(k, entries, table)| % 2 == 0
    decreases entries
  {
    hide WellFormed;
    if entries != [] {
      EntryFormed(k, entries[0], table);
      TreesFormed(k, entries[1..], table);
    }
  }

  lemma {:induction false} EntryFormed(k: Form, e: Entry, table: seq<TagDirective>)
    requires EntryFits(k, e, table)
    ensures forall t <- EntryTrees(k, e, table) :: WellFormed(t)
    decreases e
  {
    TreeFormed(e.key, !IsFlow(k), k.BlockMapping?, table);
    TreeFormed(e.value, !IsFlow(k), k.BlockMapping?, table);
  }

  lemma {:induction false} DocumentsFormed(docs: seq<Doc>, ends: nat, first: bool, ended: bool)
    requires DocsWritten(docs, ends, first, ended)
    ensures WellFormedDocuments(DocumentsOf(docs))
    decreases |docs|
  {
    hide WellFormed, Fits, Declarable;
    if docs != [] {
      TreeFormed(docs[0].root, true, false, TableOf(docs[0].directives));
      DocumentsFormed(docs[1..], ends, false, docs[0].explicitEnd);
    }
  }

  lemma SourceDocuments(s: Source)
    requires Written(s)
    ensures WellFormedDocuments(Documents(s))
  {
    hide DocsWritten;
    DocumentsFormed(s.docs, s.ends, true, false);
  }
}
