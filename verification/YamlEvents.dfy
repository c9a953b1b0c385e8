/** Parser events, what it means for them to be well nested, and the trees they stand for. */
module YamlEvents {
  import opened Bytes
  import opened Sequences

  datatype Event =
    | StreamStartEvent
    | StreamEndEvent
    | DocumentStartEvent
    | DocumentEndEvent(explicit: bool)
    | AliasEvent(name: string)
    | ScalarEvent(anchor: Option<string>, tag: string, value: string, implicit: bool, plain: bool)
    | SequenceStartEvent(anchor: Option<string>, tag: string)
    | SequenceEndEvent
    | MappingStartEvent(anchor: Option<string>, tag: string)
    | MappingEndEvent

  // ----- nesting, one event at a time

  /** What an open document or collection is waiting for. A mapping alternates between keys and values. */
  datatype Shape = DocWanted | DocDone | Seq | MapEven | MapOdd

  datatype Nesting = Fresh | Open(stack: seq<Shape>) | Ended

  predicate WantsNode(stack: seq<Shape>) {
    stack != [] && stack[|stack| - 1] != DocDone
  }

  /** The shape after one more complete node. */
  function Advance(s: Shape): Shape {
    match s
    case DocWanted => DocDone
    case DocDone => DocDone
    case Seq => Seq
    case MapEven => MapOdd
    case MapOdd => MapEven
  }

  function Completed(stack: seq<Shape>): seq<Shape>
    requires stack != []
  {
    stack[..|stack| - 1] + [Advance(stack[|stack| - 1])]
  }

  /** Closing a collection completes a node of whatever encloses it. */
  function Close(stack: seq<Shape>, s: Shape): Option<Nesting> {
    if |stack| >= 2 && stack[|stack| - 1] == s && WantsNode(stack[..|stack| - 1])
    then Some(Open(Completed(stack[..|stack| - 1]))) else None
  }

  function Feed(n: Nesting, e: Event): Option<Nesting> {
    match n
    case Fresh => if e.StreamStartEvent? then Some(Open([])) else None
    case Ended => None
    case Open(stack) =>
      match e
      case StreamStartEvent => None
      case StreamEndEvent => if stack == [] then Some(Ended) else None
      case DocumentStartEvent => if stack == [] then Some(Open([DocWanted])) else None
      case DocumentEndEvent(_) => if stack == [DocDone] then Some(Open([])) else None
      case AliasEvent(_) => if WantsNode(stack) then Some(Open(Completed(stack))) else None
      case ScalarEvent(_, _, _, _, _) => if WantsNode(stack) then Some(Open(Completed(stack))) else None
      case SequenceStartEvent(_, _) => if WantsNode(stack) then Some(Open(stack + [Seq])) else None
      case MappingStartEvent(_, _) => if WantsNode(stack) then Some(Open(stack + [MapEven])) else None
      case SequenceEndEvent => Close(stack, Seq)
      case MappingEndEvent => Close(stack, MapEven)
  }

  /** The nesting that `events` leave a reader in, or None if some event does not fit. */
  function Run(n: Nesting, events: seq<Event>): Option<Nesting>
    decreases |events|
  {
    if events == [] then Some(n)
    else match Feed(n, events[0])
         case None => None
         case Some(n') => Run(n', events[1..])
  }

  lemma {:induction false} RunConcat(n: Nesting, a: seq<Event>, b: seq<Event>)
    requires Run(n, a).Some?
    ensures Run(n, a + b) == Run(Run(n, a).value, b)
    decreases |a|
  {
    if a == [] {
      assert a + b == b;
    } else {
      assert (a + b)[1..] == a[1..] + b;
      RunConcat(Feed(n, a[0]).value, a[1..], b);
    }
  }

  lemma RunStep(n: Nesting, a: seq<Event>, e: Event)
    requires Run(n, a).Some?
    ensures Run(n, a + [e]) == Feed(Run(n, a).value, e)
  {
    RunConcat(n, a, [e]);
    var m := Run(n, a).value;
    assert [e][1..] == [];
    if Feed(m, e).Some? { assert Run(Feed(m, e).value, []) == Feed(m, e); }
  }

  // ----- trees

  datatype Tree =
    | Leaf(event: Event)
    | Sequence(start: Event, children: seq<Tree>)
    | Mapping(start: Event, children: seq<Tree>)

  datatype Document = Document(root: Tree, explicitEnd: bool)

  /** Leaves are scalars and aliases, and every mapping holds key and value pairs. */
  predicate WellFormed(t: Tree) {
    match t
    case Leaf(e) => e.ScalarEvent? || e.AliasEvent?
    case Sequence(e, cs) => e.SequenceStartEvent? && forall c <- cs :: WellFormed(c)
    case Mapping(e, cs) => e.MappingStartEvent? && |cs| % 2 == 0 && forall c <- cs :: WellFormed(c)
  }

  function TreeEvents(t: Tree): seq<Event>
    decreases t, 0
  {
    match t
    case Leaf(e) => [e]
    case Sequence(e, cs) => [e] + ForestEvents(cs) + [SequenceEndEvent]
    case Mapping(e, cs) => [e] + ForestEvents(cs) + [MappingEndEvent]
  }

  function ForestEvents(ts: seq<Tree>): seq<Event>
    decreases ts, 0
  {
    if ts == [] then [] else ForestEvents(ts[..|ts| - 1]) + TreeEvents(ts[|ts| - 1])
  }

  function DocumentEvents(docs: seq<Document>): seq<Event> {
    if docs == [] then []
    else
      var doc := docs[|docs| - 1];
      DocumentEvents(docs[..|docs| - 1]) +
      [DocumentStartEvent] + TreeEvents(doc.root) + [DocumentEndEvent(doc.explicitEnd)]
  }

  /** The events of a whole stream: documents of exactly one node each. */
  function StreamEvents(docs: seq<Document>): seq<Event> {
    [StreamStartEvent] + DocumentEvents(docs) + [StreamEndEvent]
  }

  predicate WellFormedDocuments(docs: seq<Document>) {
    forall d <- docs :: WellFormed(d.root)
  }

  // ----- nested events are trees

  /** An open document or collection with the children seen so far. */
  datatype Frame =
    | DocFrame(root: Option<Tree>)
    | SeqFrame(start: Event, children: seq<Tree>)
    | MapFrame(start: Event, children: seq<Tree>)

  function FrameShape(f: Frame): Shape {
    match f
    case DocFrame(root) => if root.None? then DocWanted else DocDone
    case SeqFrame(_, _) => Seq
    case MapFrame(_, cs) => if |cs| % 2 == 0 then MapEven else MapOdd
  }

  predicate FrameOk(f: Frame) {
    match f
    case DocFrame(root) => root.Some? ==> WellFormed(root.value)
    case SeqFrame(e, cs) => e.SequenceStartEvent? && forall c <- cs :: WellFormed(c)
    case MapFrame(e, cs) => e.MappingStartEvent? && forall c <- cs :: WellFormed(c)
  }

  function FrameEvents(f: Frame): seq<Event> {
    match f
    case DocFrame(root) => [DocumentStartEvent] + if root.None? then [] else TreeEvents(root.value)
    case SeqFrame(e, cs) => [e] + ForestEvents(cs)
    case MapFrame(e, cs) => [e] + ForestEvents(cs)
  }

  function FramesEvents(fs: seq<Frame>): seq<Event> {
    if fs == [] then [] else FramesEvents(fs[..|fs| - 1]) + FrameEvents(fs[|fs| - 1])
  }

  /** Events that have been read, sorted into finished documents and open frames. */
  ghost predicate Sorted(events: seq<Event>, docs: seq<Document>, fs: seq<Frame>, stack: seq<Shape>) {
    && WellFormedDocuments(docs)
    && |fs| == |stack|
    && (forall i :: 0 <= i < |fs| ==> FrameOk(fs[i]) && FrameShape(fs[i]) == stack[i])
    && events == [StreamStartEvent] + DocumentEvents(docs) + FramesEvents(fs)
  }

  /** Adds a finished node to the innermost frame. */
  function AddNode(f: Frame, t: Tree): Frame
    requires FrameShape(f) != DocDone
  {
    match f
    case DocFrame(_) => DocFrame(Some(t))
    case SeqFrame(e, cs) => SeqFrame(e, cs + [t])
    case MapFrame(e, cs) => MapFrame(e, cs + [t])
  }

  lemma AddNodeEvents(f: Frame, t: Tree)
    requires FrameOk(f) && FrameShape(f) != DocDone && WellFormed(t)
    ensures FrameOk(AddNode(f, t)) && FrameShape(AddNode(f, t)) == Advance(FrameShape(f))
    ensures FrameEvents(AddNode(f, t)) == FrameEvents(f) + TreeEvents(t)
  {
    hide TreeEvents, ForestEvents, WellFormed;
    if f.DocFrame? {
      AddNothing([DocumentStartEvent]);
    } else {
      ForestAppend(f.children, t);
      Regroup([f.start], ForestEvents(f.children), TreeEvents(t));
      hide FrameEvents, FrameShape;
      assert forall c <- f.children + [t] :: c in f.children || c == t;
    }
  }

  lemma ForestAppend(ts: seq<Tree>, t: Tree)
    ensures ForestEvents(ts + [t]) == ForestEvents(ts) + TreeEvents(t)
  {
    hide TreeEvents;
    assert (ts + [t])[..|ts|] == ts;
  }

  /** A finished node joins the innermost frame: its events come right after those of the frames. */
  lemma SortedAdd(events: seq<Event>, docs: seq<Document>, fs: seq<Frame>, stack: seq<Shape>, t: Tree)
    returns (fs': seq<Frame>)
    requires Sorted(events, docs, fs, stack) && WantsNode(stack) && WellFormed(t)
    ensures Sorted(events + TreeEvents(t), docs, fs', Completed(stack))
  {
    hide FrameEvents, DocumentEvents, FrameOk, FrameShape, WellFormedDocuments, TreeEvents, WellFormed, AddNode;
    var k := |fs| - 1;
    fs' := fs[..k] + [AddNode(fs[k], t)];
    AddNodeEvents(fs[k], t);
    assert fs'[..k] == fs[..k];
    assert FramesEvents(fs') == FramesEvents(fs) + TreeEvents(t);
  }

  lemma SortedPush(events: seq<Event>, docs: seq<Document>, fs: seq<Frame>, stack: seq<Shape>, f: Frame)
    requires Sorted(events, docs, fs, stack) && FrameOk(f)
    ensures Sorted(events + FrameEvents(f), docs, fs + [f], stack + [FrameShape(f)])
  {
    hide FrameEvents, DocumentEvents, FrameOk, FrameShape, WellFormedDocuments;
    assert (fs + [f])[..|fs|] == fs;
    assert FramesEvents(fs + [f]) == FramesEvents(fs) + FrameEvents(f);
  }

  /** Without its innermost frame, the rest of what has been read is sorted too. */
  lemma SortedPop(events: seq<Event>, docs: seq<Document>, fs: seq<Frame>, stack: seq<Shape>)
    returns (rest: seq<Event>)
    requires Sorted(events, docs, fs, stack) && stack != []
    ensures Sorted(rest, docs, fs[..|fs| - 1], stack[..|stack| - 1])
    ensures events == rest + FrameEvents(fs[|fs| - 1])
  {
    hide FrameEvents, DocumentEvents, FrameOk, FrameShape, WellFormedDocuments;
    rest := [StreamStartEvent] + DocumentEvents(docs) + FramesEvents(fs[..|fs| - 1]);
  }

  /** A collection closes: its frame becomes a node of the frame around it. */
  lemma SortedClose(events: seq<Event>, docs: seq<Document>, fs: seq<Frame>, stack: seq<Shape>, e: Event)
    returns (fs': seq<Frame>)
    requires Sorted(events, docs, fs, stack)
    requires (e == SequenceEndEvent && Close(stack, Seq).Some?) || (e == MappingEndEvent && Close(stack, MapEven).Some?)
    ensures Sorted(events + [e], docs, fs', Completed(stack[..|stack| - 1]))
  {
    var rest := SortedPop(events, docs, fs, stack);
    var f := fs[|fs| - 1];
    assert FrameShape(f) == stack[|stack| - 1];
    var t := if e.SequenceEndEvent? then Sequence(f.start, f.children) else Mapping(f.start, f.children);
    assert WellFormed(t);
    fs' := SortedAdd(rest, docs, fs[..|fs| - 1], stack[..|stack| - 1], t);
    assert rest + TreeEvents(t) == events + [e];
  }

  lemma SortedEndDocument(events: seq<Event>, docs: seq<Document>, fs: seq<Frame>, explicit: bool)
    returns (docs': seq<Document>)
    requires Sorted(events, docs, fs, [DocDone])
    ensures Sorted(events + [DocumentEndEvent(explicit)], docs', [], [])
  {
    hide TreeEvents, WellFormed;
    var f := fs[0];
    assert FrameShape(f) == DocDone;
    docs' := docs + [Document(f.root.value, explicit)];
    assert docs'[..|docs|] == docs;
    assert fs[..0] == [] && fs == [f];
    assert FramesEvents(fs) == [] + FrameEvents(f);
    assert forall d <- docs' :: d in docs || d == Document(f.root.value, explicit);
    var root := TreeEvents(f.root.value);
    assert DocumentEvents(docs') == DocumentEvents(docs) + [DocumentStartEvent] + root + [DocumentEndEvent(explicit)];
    assert FramesEvents([]) == [] && FrameEvents(f) == [DocumentStartEvent] + root;
    hide *;
    var before := DocumentEvents(docs);
    AddNothing(FrameEvents(f));
    AddNothing([StreamStartEvent] + DocumentEvents(docs'));
    Regroup([StreamStartEvent] + before, [DocumentStartEvent], root);
    Regroup([StreamStartEvent], before, [DocumentStartEvent]);
    Regroup([StreamStartEvent], before + [DocumentStartEvent], root);
    Regroup([StreamStartEvent], before + [DocumentStartEvent] + root, [DocumentEndEvent(explicit)]);
  }

  /** Whatever has been read without an error is finished documents followed by open frames. */
  lemma {:induction false} NestedIsSorted(events: seq<Event>, stack: seq<Shape>)
    returns (docs: seq<Document>, fs: seq<Frame>)
    requires Run(Fresh, events) == Some(Open(stack))
    ensures Sorted(events, docs, fs, stack)
    decreases |events|
  {
    var k := |events| - 1;
    var before, e := events[..k], events[k];
    assert events == before + [e];
    PrefixRuns(Fresh, before, [e]);
    RunStep(Fresh, before, e);
    var n := Run(Fresh, before).value;
    if n == Fresh {
      FreshIsEmpty(before);
      docs, fs := [], [];
      assert Sorted([e], [], [], []);
    } else {
      docs, fs := NestedIsSorted(before, n.stack);
      docs, fs := SortedStep(before, docs, fs, n.stack, e);
    }
  }

  lemma SortedStep(before: seq<Event>, docs: seq<Document>, fs: seq<Frame>, stack: seq<Shape>, e: Event)
    returns (docs': seq<Document>, fs': seq<Frame>)
    requires Sorted(before, docs, fs, stack) && Feed(Open(stack), e).Some? && !e.StreamEndEvent?
    ensures Sorted(before + [e], docs', fs', Feed(Open(stack), e).value.stack)
  {
    hide Sorted, FramesEvents, ForestEvents;
    docs' := docs;
    match e {
      case DocumentStartEvent =>
        fs' := fs + [DocFrame(None)];
        SortedPush(before, docs, fs, stack, DocFrame(None));
        assert stack + [DocWanted] == [DocWanted];
        assert FrameEvents(DocFrame(None)) == [e];
      case SequenceStartEvent(_, _) =>
        fs' := fs + [SeqFrame(e, [])];
        SortedPush(before, docs, fs, stack, SeqFrame(e, []));
        ForestOfNone(e);
      case MappingStartEvent(_, _) =>
        fs' := fs + [MapFrame(e, [])];
        SortedPush(before, docs, fs, stack, MapFrame(e, []));
        ForestOfNone(e);
      case DocumentEndEvent(explicit) =>
        docs' := SortedEndDocument(before, docs, fs, explicit);
        fs' := [];
      case AliasEvent(_) => fs' := SortedAdd(before, docs, fs, stack, Leaf(e));
      case ScalarEvent(_, _, _, _, _) => fs' := SortedAdd(before, docs, fs, stack, Leaf(e));
      case SequenceEndEvent => fs' := SortedClose(before, docs, fs, stack, e);
      case MappingEndEvent => fs' := SortedClose(before, docs, fs, stack, e);
    }
  }

  lemma ForestOfNone(e: Event)
    ensures [e] + ForestEvents([]) == [e]
  {
  }

  lemma {:induction false} PrefixRuns(n: Nesting, a: seq<Event>, b: seq<Event>)
    requires Run(n, a + b).Some?
    ensures Run(n, a).Some?
    decreases |a|
  {
    if a != [] {
      assert (a + b)[1..] == a[1..] + b;
      PrefixRuns(Feed(n, a[0]).value, a[1..], b);
    }
  }

  lemma FreshIsEmpty(events: seq<Event>)
    requires Run(Fresh, events) == Some(Fresh)
    ensures events == []
  {
    if events != [] {
      NeverFreshAgain(Feed(Fresh, events[0]).value, events[1..]);
    }
  }

  lemma {:induction false} NeverFreshAgain(n: Nesting, events: seq<Event>)
    requires n != Fresh && Run(n, events).Some?
    ensures Run(n, events).value != Fresh
    decreases |events|
  {
    if events != [] { NeverFreshAgain(Feed(n, events[0]).value, events[1..]); }
  }

  /** Events that nest properly from the start to the end of a stream are the events of some documents. */
  lemma NestedStreamIsDocuments(events: seq<Event>) returns (docs: seq<Document>)
    requires Run(Fresh, events) == Some(Ended)
    ensures WellFormedDocuments(docs) && events == StreamEvents(docs)
  {
    var k := |events| - 1;
    var before, e := events[..k], events[k];
    assert events == before + [e];
    PrefixRuns(Fresh, before, [e]);
    RunStep(Fresh, before, e);
    var fs;
    docs, fs := NestedIsSorted(before, []);
    assert FramesEvents(fs) == [];
  }

  // ----- trees are nested events

  lemma {:induction false} TreeNests(t: Tree, stack: seq<Shape>)
    requires WellFormed(t) && WantsNode(stack)
    ensures Run(Open(stack), TreeEvents(t)) == Some(Open(Completed(stack)))
    decreases t, 0
  {
    if t.Leaf? {
      assert [t.event] == [] + [t.event];
      RunStep(Open(stack), [], t.event);
    } else {
      var s, end := if t.Sequence? then Seq else MapEven, if t.Sequence? then SequenceEndEvent else MappingEndEvent;
      var inner := stack + [s];
      RunStep(Open(stack), [], t.start);
      assert [t.start] == [] + [t.start];
      ForestNests(t.children, stack, s);
      RunConcat(Open(stack), [t.start], ForestEvents(t.children));
      RunStep(Open(stack), [t.start] + ForestEvents(t.children), end);
      assert inner[..|inner| - 1] == stack;
    }
  }

  /** The shape after `n` nodes. */
  function AdvanceBy(s: Shape, n: nat): Shape {
    if s == MapEven && n % 2 == 1 then MapOdd else s
  }

  lemma {:induction false} ForestNests(ts: seq<Tree>, stack: seq<Shape>, s: Shape)
    requires (s == Seq || s == MapEven) && forall t <- ts :: WellFormed(t)
    ensures Run(Open(stack + [s]), ForestEvents(ts)) == Some(Open(stack + [AdvanceBy(s, |ts|)]))
    decreases ts, 0
  {
    hide TreeEvents, WellFormed, Feed;
    if ts != [] {
      var k := |ts| - 1;
      ForestNests(ts[..k], stack, s);
      var now := stack + [AdvanceBy(s, k)];
      assert ts[k] in ts;
      TreeNests(ts[k], now);
      RunConcat(Open(stack + [s]), ForestEvents(ts[..k]), TreeEvents(ts[k]));
      assert now[..|now| - 1] == stack;
    }
  }

  lemma {:induction false} DocumentsNest(docs: seq<Document>)
    requires WellFormedDocuments(docs)
    ensures Run(Open([]), DocumentEvents(docs)) == Some(Open([]))
    decreases |docs|
  {
    hide TreeEvents, WellFormed;
    if docs != [] {
      var k := |docs| - 1;
      var doc, before := docs[k], DocumentEvents(docs[..k]);
      DocumentsNest(docs[..k]);
      assert doc in docs;
      RunStep(Open([]), before, DocumentStartEvent);
      TreeNests(doc.root, [DocWanted]);
      assert Completed([DocWanted]) == [DocDone];
      RunConcat(Open([]), before + [DocumentStartEvent], TreeEvents(doc.root));
      RunStep(Open([]), before + [DocumentStartEvent] + TreeEvents(doc.root), DocumentEndEvent(doc.explicitEnd));
    }
  }

  /** The events of any documents nest properly, so the two descriptions agree. */
  lemma DocumentsNestAsStream(docs: seq<Document>)
    requires WellFormedDocuments(docs)
    ensures Run(Fresh, StreamEvents(docs)) == Some(Ended)
  {
    RunStep(Fresh, [], StreamStartEvent);
    assert [StreamStartEvent] == [] + [StreamStartEvent];
    DocumentsNest(docs);
    RunConcat(Fresh, [StreamStartEvent], DocumentEvents(docs));
    RunStep(Fresh, [StreamStartEvent] + DocumentEvents(docs), StreamEndEvent);
  }

  // ----- the events of trees are unambiguous

  lemma {:induction false} ForestConcat(a: seq<Tree>, b: seq<Tree>)
    ensures ForestEvents(a + b) == ForestEvents(a) + ForestEvents(b)
    decreases |b|
  {
    hide TreeEvents;
    if b == [] {
      AddNothing(a);
      AddNothing(ForestEvents(a));
    } else {
      var init, last := b[..|b| - 1], b[|b| - 1];
      ForestConcat(a, init);
      assert (a + b)[..|a + b| - 1] == a + init;
      Regroup(ForestEvents(a), ForestEvents(init), TreeEvents(last));
    }
  }

  lemma ForestOne(t: Tree)
    ensures ForestEvents([t]) == TreeEvents(t)
  {
    hide TreeEvents;
    assert [t][..0] == [];
    assert ForestEvents([]) == [];
    AddNothing(TreeEvents(t));
  }

  /** A forest from the front. */
  lemma ForestFirst(ts: seq<Tree>)
    requires ts != []
    ensures ForestEvents(ts) == TreeEvents(ts[0]) + ForestEvents(ts[1..])
  {
    hide TreeEvents, ForestEvents;
    ForestConcat([ts[0]], ts[1..]);
    ForestOne(ts[0]);
    assert ts == [ts[0]] + ts[1..];
  }

  predicate BeginsNode(e: Event) {
    e.ScalarEvent? || e.AliasEvent? || e.SequenceStartEvent? || e.MappingStartEvent?
  }

  lemma TreeFirst(t: Tree)
    requires WellFormed(t)
    ensures TreeEvents(t) != [] && BeginsNode(TreeEvents(t)[0])
    ensures TreeEvents(t)[0] == if t.Leaf? then t.event else t.start
  {
  }

  lemma {:induction false} TreeUnique(t: Tree, a: seq<Event>, u: Tree, b: seq<Event>)
    requires WellFormed(t) && WellFormed(u) && TreeEvents(t) + a == TreeEvents(u) + b
    ensures t == u && a == b
    decreases t, 0
  {
    TreeFirst(t);
    TreeFirst(u);
    assert (TreeEvents(t) + a)[0] == TreeEvents(t)[0] && (TreeEvents(u) + b)[0] == TreeEvents(u)[0];
    if t.Leaf? {
      assert (TreeEvents(t) + a)[1..] == a && (TreeEvents(u) + b)[1..] == b;
    } else {
      var end := if t.Sequence? then SequenceEndEvent else MappingEndEvent;
      Inner(t, a);
      Inner(u, b);
      ForestUnique(t.children, [end] + a, u.children, [end] + b);
      assert ([end] + a)[1..] == a && ([end] + b)[1..] == b;
    }
  }

  lemma Inner(t: Tree, a: seq<Event>)
    requires !t.Leaf?
    ensures (TreeEvents(t) + a)[1..] == ForestEvents(t.children) + ([if t.Sequence? then SequenceEndEvent else MappingEndEvent] + a)
  {
    hide ForestEvents;
  }

  lemma {:induction false} ForestUnique(ts: seq<Tree>, a: seq<Event>, us: seq<Tree>, b: seq<Event>)
    requires (forall t <- ts :: WellFormed(t)) && (forall u <- us :: WellFormed(u))
    requires a != [] && !BeginsNode(a[0]) && b != [] && !BeginsNode(b[0])
    requires ForestEvents(ts) + a == ForestEvents(us) + b
    ensures ts == us && a == b
    decreases ts, 0
  {
    hide TreeEvents, ForestEvents, WellFormed;
    ForestBegins(ts, a);
    ForestBegins(us, b);
    if ts != [] && us != [] {
      ForestFirst(ts);
      ForestFirst(us);
      Regroup(TreeEvents(ts[0]), ForestEvents(ts[1..]), a);
      Regroup(TreeEvents(us[0]), ForestEvents(us[1..]), b);
      TreeUnique(ts[0], ForestEvents(ts[1..]) + a, us[0], ForestEvents(us[1..]) + b);
      ForestUnique(ts[1..], a, us[1..], b);
      assert ts == [ts[0]] + ts[1..] && us == [us[0]] + us[1..];
    }
  }

  /** Whether there are any trees shows in the first event. */
  lemma ForestBegins(ts: seq<Tree>, a: seq<Event>)
    requires (forall t <- ts :: WellFormed(t)) && a != [] && !BeginsNode(a[0])
    ensures var es := ForestEvents(ts) + a; es != [] && (BeginsNode(es[0]) <==> ts != []) && (ts == [] ==> es == a)
  {
    hide TreeEvents, ForestEvents, WellFormed;
    if ts == [] {
      assert ForestEvents([]) == [] by { ForestOfNone(StreamStartEvent); NoForest(); }
      AddNothing(a);
    } else {
      ForestFirst(ts);
      TreeFirst(ts[0]);
      assert (ForestEvents(ts) + a)[0] == TreeEvents(ts[0])[0];
    }
  }

  lemma NoForest()
    ensures ForestEvents([]) == []
  {
  }

  /** The events of a document of one node. */
  function OneDocument(d: Document): seq<Event> {
    [DocumentStartEvent] + TreeEvents(d.root) + [DocumentEndEvent(d.explicitEnd)]
  }

  lemma {:induction false} DocumentsPrepend(d: Document, docs: seq<Document>)
    ensures DocumentEvents([d] + docs) == OneDocument(d) + DocumentEvents(docs)
    decreases |docs|
  {
    hide TreeEvents;
    var all := [d] + docs;
    if docs == [] {
      assert all[..0] == [] && DocumentEvents([]) == [];
    } else {
      assert all[..|all| - 1] == [d] + docs[..|docs| - 1] && all[|all| - 1] == docs[|docs| - 1];
      DocumentsPrepend(d, docs[..|docs| - 1]);
    }
  }

  /** Documents from the front. */
  lemma DocumentsFirst(docs: seq<Document>)
    requires docs != []
    ensures DocumentEvents(docs) == OneDocument(docs[0]) + DocumentEvents(docs[1..])
  {
    hide DocumentEvents, OneDocument;
    DocumentsPrepend(docs[0], docs[1..]);
    assert docs == [docs[0]] + docs[1..];
  }

  /** Different documents have different events. */
  lemma {:induction false} DocumentsUnique(ds: seq<Document>, es: seq<Document>)
    requires WellFormedDocuments(ds) && WellFormedDocuments(es)
    requires DocumentEvents(ds) + [StreamEndEvent] == DocumentEvents(es) + [StreamEndEvent]
    ensures ds == es
    decreases |ds|
  {
    hide TreeEvents, WellFormed, DocumentEvents;
    if ds == [] || es == [] {
      DocumentsBegin(ds);
      DocumentsBegin(es);
    } else {
      DocumentsFirst(ds);
      DocumentsFirst(es);
      var d, e := ds[0], es[0];
      var a := [DocumentEndEvent(d.explicitEnd)] + (DocumentEvents(ds[1..]) + [StreamEndEvent]);
      var b := [DocumentEndEvent(e.explicitEnd)] + (DocumentEvents(es[1..]) + [StreamEndEvent]);
      assert DocumentEvents(ds) + [StreamEndEvent] == [DocumentStartEvent] + (TreeEvents(d.root) + a);
      assert DocumentEvents(es) + [StreamEndEvent] == [DocumentStartEvent] + (TreeEvents(e.root) + b);
      SameTails(DocumentStartEvent, TreeEvents(d.root) + a, DocumentStartEvent, TreeEvents(e.root) + b);
      TreeUnique(d.root, a, e.root, b);
      SameTails(DocumentEndEvent(d.explicitEnd), DocumentEvents(ds[1..]) + [StreamEndEvent],
                DocumentEndEvent(e.explicitEnd), DocumentEvents(es[1..]) + [StreamEndEvent]);
      DocumentsUnique(ds[1..], es[1..]);
      assert ds == [d] + ds[1..] && es == [e] + es[1..];
    }
  }

  lemma SameTails(x: Event, a: seq<Event>, y: Event, b: seq<Event>)
    requires [x] + a == [y] + b
    ensures x == y && a == b
  {
    assert ([x] + a)[1..] == a && ([y] + b)[1..] == b;
    assert ([x] + a)[0] == x && ([y] + b)[0] == y;
  }

  lemma DocumentsBegin(docs: seq<Document>)
    ensures var es := DocumentEvents(docs) + [StreamEndEvent]; es[0] == if docs == [] then StreamEndEvent else DocumentStartEvent
  {
    hide TreeEvents;
    if docs != [] {
      DocumentsFirst(docs);
      assert OneDocument(docs[0])[0] == DocumentStartEvent;
      hide DocumentEvents, OneDocument;
      assert (OneDocument(docs[0]) + DocumentEvents(docs[1..]) + [StreamEndEvent])[0] == OneDocument(docs[0])[0];
    }
  }

  lemma StreamUnique(ds: seq<Document>, es: seq<Document>)
    requires WellFormedDocuments(ds) && WellFormedDocuments(es) && StreamEvents(ds) == StreamEvents(es)
    ensures ds == es
  {
    hide DocumentEvents, WellFormedDocuments;
    Regroup([StreamStartEvent], DocumentEvents(ds), [StreamEndEvent]);
    Regroup([StreamStartEvent], DocumentEvents(es), [StreamEndEvent]);
    SameTails(StreamStartEvent, DocumentEvents(ds) + [StreamEndEvent], StreamStartEvent, DocumentEvents(es) + [StreamEndEvent]);
    DocumentsUnique(ds, es);
  }
}
