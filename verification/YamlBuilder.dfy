/** The node builder, which turns the parser's events into trees. */
module YamlBuilder {
  import opened Bytes
  import opened Sequences
  import opened YamlEvents
  import opened YamlTokens
  import opened YamlParser
  import opened YamlGraph
  import opened YamlSources

  datatype Outcome =
    | Built(tree: Tree)
    /** An error is reported: the parser failed, or an alias names no anchor. */
    | Failed
    /** The builder met an event it has no case for. */
    | Panicked

  /** Every event fits the nesting of those before it. */
  lemma FitsAt(events: seq<Event>, i: nat)
    requires Run(Fresh, events).Some? && i <= |events|
    ensures Run(Fresh, events[..i]).Some?
    ensures i < |events| ==> Feed(Run(Fresh, events[..i]).value, events[i]).Some?
  {
    hide Run, Feed;
    assert events == events[..i] + events[i..];
    PrefixRuns(Fresh, events[..i], events[i..]);
    if i < |events| {
      assert events == events[..i + 1] + events[i + 1..];
      PrefixRuns(Fresh, events[..i + 1], events[i + 1..]);
      assert events[..i + 1] == events[..i] + [events[i]];
      RunStep(Fresh, events[..i], events[i]);
    }
  }

  /** Where a node is wanted, the next event starts one or closes the innermost collection. */
  lemma NodeOrEnd(stack: seq<Shape>, e: Event)
    requires WantsNode(stack) && Feed(Open(stack), e).Some?
    ensures BeginsNode(e) || (e == SequenceEndEvent && stack[|stack| - 1] == Seq)
            || (e == MappingEndEvent && stack[|stack| - 1] == MapEven)
  {
  }

  /** From `at` on, the events are those of the children `cs` from number `k` on and the end of their collection. */
  ghost predicate Ahead(cs: seq<Tree>, k: nat, end: Event, events: seq<Event>, at: nat, first: nat, known: map<string, nat>) {
    && at <= |events| && k <= |cs| && (forall c <- cs :: WellFormed(c))
    && ForestEvents(cs[k..]) + [end] <= events[at..] && LinkForest(cs, first, known).Graph?
  }

  class Builder {
    /** The events that the parser delivers before it ends or fails. */
    const events: seq<Event>
    var pos: nat
    /** How many nodes the document has so far, and the number of the node that last had each anchor. */
    var count: nat
    var anchors: map<string, nat>

    ghost predicate Valid()
      reads this
    {
      pos <= |events| && Run(Fresh, events).Some?
    }

    /** The nesting of the events consumed so far. */
    ghost function Nest(): Nesting
      reads this
      requires Valid()
    {
      FitsAt(events, pos);
      Run(Fresh, events[..pos]).value
    }

    constructor (events: seq<Event>)
      requires Run(Fresh, events).Some?
      ensures Valid() && pos == 0 && this.events == events
    {
      this.events, pos, count, anchors := events, 0, 0, map[];
    }

    /** The tree that the events ahead describe, if it is known and its aliases resolve. */
    ghost predicate Aims(goal: Option<Tree>)
      reads this
    {
      goal.Some? ==>
        pos <= |events| && WellFormed(goal.value) && TreeEvents(goal.value) <= events[pos..]
        && LinkTree(goal.value, count, anchors).Graph?
    }

    /** The children that the events ahead describe, from number `k` on, and the end of their collection. */
    ghost predicate Heading(goal: Option<seq<Tree>>, children: seq<Tree>, end: Event, first: nat, known: map<string, nat>)
      reads this
    {
      goal.Some? ==>
        Ahead(goal.value, |children|, end, events, pos, first, known) && children == goal.value[..|children|]
    }

    /** Consuming one event. */
    lemma Step()
      requires Valid() && pos < |events|
      ensures Feed(Nest(), events[pos]).Some?
      ensures Run(Fresh, events[..pos + 1]) == Feed(Nest(), events[pos])
    {
      hide Run, Feed;
      FitsAt(events, pos);
      assert events[..pos + 1] == events[..pos] + [events[pos]];
      RunStep(Fresh, events[..pos], events[pos]);
    }

    /** Inside the collection that the events describe. */
    lemma Entered(goal: Option<Tree>, first: nat, known: map<string, nat>, at: nat, number: nat, before: map<string, nat>, start: Event)
      returns (cs: Option<seq<Tree>>)
      requires Valid() && pos == at + 1 && start == events[at] && (start.SequenceStartEvent? || start.MappingStartEvent?)
      requires first == number + 1 && known == Registered(before, start.anchor, number)
      requires goal.Some? ==>
        WellFormed(goal.value) && TreeEvents(goal.value) <= events[at..] && LinkTree(goal.value, number, before).Graph?
      ensures goal.Some? <==> cs.Some?
      ensures Heading(cs, [], if start.SequenceStartEvent? then SequenceEndEvent else MappingEndEvent, first, known)
      ensures goal.Some? ==> goal.value == if start.SequenceStartEvent? then Sequence(start, cs.value) else Mapping(start, cs.value)
      ensures goal.Some? && start.MappingStartEvent? ==> |cs.value| % 2 == 0
    {
      hide Run, Registered;
      cs := None;
      if goal.Some? {
        TreeFirst(goal.value);
        assert events[at..][0] == TreeEvents(goal.value)[0];
        cs := Some(goal.value.children);
        assert goal.value.children[0..] == goal.value.children;
        InnerPrefix(goal.value, events, at);
      }
    }

    /** The next child that the events describe. */
    lemma Child(cs: Option<seq<Tree>>, children: seq<Tree>, end: Event, first: nat, known: map<string, nat>) returns (child: Option<Tree>)
      requires Valid() && pos < |events| && events[pos] != end && (end == SequenceEndEvent || end == MappingEndEvent)
      requires Heading(cs, children, end, first, known) && ForestLinks(children, first, known, count, anchors)
      ensures Aims(child) && (cs.Some? <==> child.Some?)
      ensures cs.Some? ==> |children| < |cs.value| && child.value == cs.value[|children|] && children == cs.value[..|children|]
      ensures cs.Some? ==> Ahead(cs.value, |children|, end, events, pos, first, known)
    {
      hide Run, TreeEvents, ForestEvents, WellFormed, LinkTree;
      child := None;
      if cs.Some? {
        NextChild(cs.value, |children|, end, events, pos);
        child := Some(cs.value[|children|]);
        ChildLinks(cs.value, |children|, first, known, count, anchors);
      }
    }

    /** The value of a pair follows its key. */
    lemma HalfPair(cs: Option<seq<Tree>>, children: seq<Tree>, key: Tree, first: nat, known: map<string, nat>) returns (child: Option<Tree>)
      requires Valid() && Heading(cs, children + [key], MappingEndEvent, first, known)
      requires cs.Some? ==> |cs.value| % 2 == |children| % 2 == 0
      requires ForestLinks(children + [key], first, known, count, anchors)
      ensures Aims(child) && (cs.Some? <==> child.Some?)
      ensures cs.Some? ==> |children| + 1 < |cs.value| && child.value == cs.value[|children| + 1]
      ensures cs.Some? ==> children + [key] == cs.value[..|children| + 1]
      ensures cs.Some? ==> Ahead(cs.value, |children| + 1, MappingEndEvent, events, pos, first, known)
    {
      hide Run, TreeEvents, ForestEvents, WellFormed, LinkTree;
      child := None;
      if cs.Some? {
        var k := |children| + 1;
        assert |cs.value| != k;
        NextChild(cs.value, k, MappingEndEvent, events, pos);
        child := Some(cs.value[k]);
        ChildLinks(cs.value, k, first, known, count, anchors);
      }
    }

    /** A child has been built. */
    lemma Passed(cs: Option<seq<Tree>>, children: seq<Tree>, t: Tree, end: Event, first: nat, known: map<string, nat>, mid: nat)
      requires Valid() && mid <= pos && events[mid..pos] == TreeEvents(t)
      requires cs.Some? ==>
        var k := |children|;
        && k < |cs.value| && children == cs.value[..k] && t == cs.value[k]
        && Ahead(cs.value, k, end, events, mid, first, known)
      ensures Heading(cs, children + [t], end, first, known)
    {
      hide Run, TreeEvents, ForestEvents, WellFormed, LinkForest;
      if cs.Some? {
        AfterChild(cs.value, |children|, end, events, mid, pos);
      }
    }

    /** The children have all been built. */
    lemma AllPassed(cs: Option<seq<Tree>>, children: seq<Tree>, end: Event, first: nat, known: map<string, nat>)
      requires Valid() && Heading(cs, children, end, first, known) && (end == SequenceEndEvent || end == MappingEndEvent)
      requires pos == |events| || events[pos] == end
      ensures cs.Some? ==> pos < |events| && children == cs.value
    {
      hide Run, TreeEvents, ForestEvents, WellFormed, LinkForest;
      if cs.Some? {
        NextChild(cs.value, |children|, end, events, pos);
      }
    }

    /** Makes a node. */
    method Register(anchor: Option<string>)
      modifies `anchors, `count
      ensures count == old(count) + 1 && anchors == Registered(old(anchors), anchor, old(count))
    {
      if anchor.Some? { anchors := anchors[anchor.value := count]; }
      count := count + 1;
    }

    /** Builds the node that starts at the next event. */
    method BuildNode(ghost stack: seq<Shape>, ghost goal: Option<Tree>) returns (r: Outcome)
      requires Valid() && Nest() == Open(stack) && WantsNode(stack)
      requires pos < |events| ==> BeginsNode(events[pos])
      requires Aims(goal)
      modifies this
      ensures Valid() && old(pos) <= pos && (r.Built? || r.Failed?)
      ensures r.Built? ==> old(pos) < pos && WellFormed(r.tree) && events[old(pos)..pos] == TreeEvents(r.tree)
      ensures r.Built? ==> Nest() == Open(Completed(stack))
      ensures r.Built? ==> Links(r.tree, old(count), old(anchors), count, anchors)
      ensures goal.Some? ==> r == Built(goal.value)
      decreases |events| - pos, 1
    {
      hide Run, Feed, WellFormed, TreeEvents, LinkTree, Links;
      if goal.Some? { TreeFirst(goal.value); }
      if pos == |events| { return Failed; }
      var e := events[pos];
      if e.ScalarEvent? || e.AliasEvent? {
        r := BuildLeaf(stack, goal);
      } else if e.SequenceStartEvent? {
        r := BuildSequence(stack, goal);
      } else if e.MappingStartEvent? {
        r := BuildMapping(stack, goal);
      } else {
        r := Panicked;
      }
    }

    /** A scalar or an alias; an alias fails exactly when no node before it has its anchor. */
    method BuildLeaf(ghost stack: seq<Shape>, ghost goal: Option<Tree>) returns (r: Outcome)
      requires Valid() && Nest() == Open(stack) && WantsNode(stack)
      requires pos < |events| && (events[pos].ScalarEvent? || events[pos].AliasEvent?)
      requires Aims(goal)
      modifies this
      ensures Valid() && old(pos) <= pos && (r.Built? || r.Failed?)
      ensures r.Built? ==> old(pos) < pos && WellFormed(r.tree) && events[old(pos)..pos] == TreeEvents(r.tree)
      ensures r.Built? ==> Nest() == Open(Completed(stack))
      ensures r.Built? ==> Links(r.tree, old(count), old(anchors), count, anchors)
      ensures goal.Some? ==> r == Built(goal.value)
      ensures r.Failed? <==> events[old(pos)].AliasEvent? && events[old(pos)].name !in old(anchors)
    {
      hide Run, Links;
      if goal.Some? {
        TreeFirst(goal.value);
        assert events[pos..][0] == TreeEvents(goal.value)[0];
      }
      var e := events[pos];
      if e.AliasEvent? {
        if e.name !in anchors { return Failed; }
        Register(None);
      } else {
        Register(e.anchor);
      }
      LeafLinks(e, old(count), old(anchors));
      Step();
      pos := pos + 1;
      r := Built(Leaf(e));
      One(events, old(pos));
    }

    method BuildSequence(ghost stack: seq<Shape>, ghost goal: Option<Tree>) returns (r: Outcome)
      requires Valid() && Nest() == Open(stack) && WantsNode(stack)
      requires pos < |events| && events[pos].SequenceStartEvent?
      requires Aims(goal)
      modifies this
      ensures Valid() && old(pos) <= pos && (r.Built? || r.Failed?)
      ensures r.Built? ==> old(pos) < pos && WellFormed(r.tree) && events[old(pos)..pos] == TreeEvents(r.tree)
      ensures r.Built? ==> Nest() == Open(Completed(stack))
      ensures r.Built? ==> Links(r.tree, old(count), old(anchors), count, anchors)
      ensures goal.Some? ==> r == Built(goal.value)
      decreases |events| - pos, 0
    {
      hide Run, Feed, ForestEvents, TreeEvents, WellFormed, Links, ForestLinks, Registered, LinkTree, LinkForest, Heading, Ahead;
      var start, children := events[pos], [];
      Register(start.anchor);
      ghost var first, known := count, anchors;
      ForestLinksNone(first, known);
      ghost var inner := stack + [Seq];
      Opened(this, stack);
      pos := pos + 1;
      One(events, old(pos));
      ForestOfNone(start);
      ghost var cs := Entered(goal, first, known, old(pos), old(count), old(anchors), start);
      while pos < |events| && events[pos] != SequenceEndEvent
        invariant Valid() && old(pos) < pos && Nest() == Open(inner)
        invariant forall c <- children :: WellFormed(c)
        invariant ForestLinks(children, first, known, count, anchors)
        invariant goal.Some? <==> cs.Some?
        invariant Heading(cs, children, SequenceEndEvent, first, known)
        invariant events[old(pos)..pos] == [start] + ForestEvents(children)
        decreases |events| - pos
      {
        Step();
        NodeOrEnd(inner, events[pos]);
        ghost var mid, number, before := pos, count, anchors;
        ghost var child := Child(cs, children, SequenceEndEvent, first, known);
        r := BuildNode(inner, child);
        if r.Failed? { return; }
        Passed(cs, children, r.tree, SequenceEndEvent, first, known, mid);
        ForestLinksAppend(children, r.tree, first, known, number, before, count, anchors);
        assert Completed(inner) == inner;
        ForestAppend(children, r.tree);
        Slices(events, old(pos), mid, pos);
        Regroup([start], ForestEvents(children), TreeEvents(r.tree));
        children := children + [r.tree];
      }
      AllPassed(cs, children, SequenceEndEvent, first, known);
      if pos == |events| { return Failed; }
      Closed(this, stack, Seq);
      pos := pos + 1;
      r := Built(Sequence(start, children));
      if goal.Some? { assert goal.value == Sequence(start, children); }
      SequenceTree(start, children);
      CollectionLinks(start, children, old(count), old(anchors), count, anchors);
      Slices(events, old(pos), pos - 1, pos);
      One(events, pos - 1);
    }

    method BuildMapping(ghost stack: seq<Shape>, ghost goal: Option<Tree>) returns (r: Outcome)
      requires Valid() && Nest() == Open(stack) && WantsNode(stack)
      requires pos < |events| && events[pos].MappingStartEvent?
      requires Aims(goal)
      modifies this
      ensures Valid() && old(pos) <= pos && (r.Built? || r.Failed?)
      ensures r.Built? ==> old(pos) < pos && WellFormed(r.tree) && events[old(pos)..pos] == TreeEvents(r.tree)
      ensures r.Built? ==> Nest() == Open(Completed(stack))
      ensures r.Built? ==> Links(r.tree, old(count), old(anchors), count, anchors)
      ensures goal.Some? ==> r == Built(goal.value)
      decreases |events| - pos, 0
    {
      hide Run, Feed, ForestEvents, TreeEvents, WellFormed, Links, ForestLinks, Registered, LinkTree, LinkForest, Heading, Ahead;
      var start, children := events[pos], [];
      Register(start.anchor);
      ghost var first, known := count, anchors;
      ForestLinksNone(first, known);
      ghost var inner := stack + [MapEven];
      Opened(this, stack);
      pos := pos + 1;
      One(events, old(pos));
      ForestOfNone(start);
      ghost var cs := Entered(goal, first, known, old(pos), old(count), old(anchors), start);
      while pos < |events| && events[pos] != MappingEndEvent
        invariant Valid() && old(pos) < pos && Nest() == Open(inner)
        invariant ForestLinks(children, first, known, count, anchors)
        invariant goal.Some? <==> cs.Some?
        invariant Heading(cs, children, MappingEndEvent, first, known) && (cs.Some? ==> |cs.value| % 2 == 0)
        invariant |children| % 2 == 0 && forall c <- children :: WellFormed(c)
        invariant events[old(pos)..pos] == [start] + ForestEvents(children)
        decreases |events| - pos
      {
        Step();
        NodeOrEnd(inner, events[pos]);
        ghost var mid := pos;
        var ok, key, value := BuildPair(stack, children, first, known, cs);
        if !ok { return Failed; }
        ForestAppendPair(start, children, key, value);
        Slices(events, old(pos), mid, pos);
        children := children + [key, value];
      }
      AllPassed(cs, children, MappingEndEvent, first, known);
      if pos == |events| { return Failed; }
      Closed(this, stack, MapEven);
      pos := pos + 1;
      r := Built(Mapping(start, children));
      if goal.Some? { assert goal.value == Mapping(start, children); }
      CollectionLinks(start, children, old(count), old(anchors), count, anchors);
      MappingTree(start, children);
      Slices(events, old(pos), pos - 1, pos);
      One(events, pos - 1);
    }

    /** A key and its value. The mapping cannot end between the two, so both are nodes. */
    method BuildPair(ghost stack: seq<Shape>, ghost children: seq<Tree>, ghost first: nat, ghost known: map<string, nat>,
                     ghost cs: Option<seq<Tree>>)
      returns (ok: bool, key: Tree, value: Tree)
      requires ForestLinks(children, first, known, count, anchors)
      requires Valid() && Nest() == Open(stack + [MapEven])
      requires pos < |events| && BeginsNode(events[pos])
      requires Heading(cs, children, MappingEndEvent, first, known) && (cs.Some? ==> |cs.value| % 2 == |children| % 2 == 0)
      requires events[pos] != MappingEndEvent
      modifies this
      ensures Valid() && old(pos) <= pos
      ensures ok ==> old(pos) < pos && WellFormed(key) && WellFormed(value)
      ensures ok ==> events[old(pos)..pos] == TreeEvents(key) + TreeEvents(value)
      ensures ok ==> Nest() == Open(stack + [MapEven])
      ensures ok ==> ForestLinks(children + [key, value], first, known, count, anchors)
      ensures cs.Some? ==> ok
      ensures ok ==> Heading(cs, children + [key, value], MappingEndEvent, first, known)
      decreases |events| - pos, 2
    {
      hide Run, Feed, WellFormed, TreeEvents, Links, ForestLinks, LinkTree, LinkForest, Heading, ForestEvents, Aims, Ahead;
      key, value := Leaf(SequenceEndEvent), Leaf(SequenceEndEvent);
      ghost var child := Child(cs, children, MappingEndEvent, first, known);
      var r := BuildNode(stack + [MapEven], child);
      if r.Failed? { return false, key, value; }
      Passed(cs, children, r.tree, MappingEndEvent, first, known, old(pos));
      key := r.tree;
      ForestLinksAppend(children, key, first, known, old(count), old(anchors), count, anchors);
      ghost var number, before := count, anchors;
      assert Completed(stack + [MapEven]) == stack + [MapOdd];
      if pos < |events| {
        Step();
        NodeOrEnd(stack + [MapOdd], events[pos]);
      }
      ghost var mid := pos;
      child := HalfPair(cs, children, key, first, known);
      r := BuildNode(stack + [MapOdd], child);
      if r.Failed? { return false, key, value; }
      Passed(cs, children + [key], r.tree, MappingEndEvent, first, known, mid);
      value := r.tree;
      ForestLinksAppend(children + [key], value, first, known, number, before, count, anchors);
      assert children + [key] + [value] == children + [key, value];
      assert Completed(stack + [MapOdd]) == stack + [MapEven];
      Slices(events, old(pos), mid, pos);
      ok := true;
    }

    /** The document that the events ahead describe, if it is known and its aliases resolve. */
    ghost predicate AimsAt(goal: Option<Document>)
      reads this
    {
      goal.Some? ==>
        pos <= |events| && WellFormed(goal.value.root) && Resolvable(goal.value.root) && OneDocument(goal.value) <= events[pos..]
    }

    /** Builds a whole document: its start, exactly one node, its end. */
    method BuildDocument(ghost goal: Option<Document>) returns (r: Outcome, explicitEnd: bool)
      requires Valid() && Nest() == Open([]) && pos < |events| && events[pos] == DocumentStartEvent
      requires AimsAt(goal)
      modifies this
      ensures Valid() && old(pos) < pos && (r.Built? || r.Failed?)
      ensures r.Built? ==> WellFormed(r.tree) && Resolvable(r.tree) && Nest() == Open([])
      ensures r.Built? ==> events[old(pos)..pos] == OneDocument(Document(r.tree, explicitEnd))
      ensures goal.Some? ==> r == Built(goal.value.root) && explicitEnd == goal.value.explicitEnd
    {
      hide Run, Feed, WellFormed, TreeEvents, LinkTree, OneDocument, Links;
      anchors, count, explicitEnd := map[], 0, false;
      Opens();
      if goal.Some? { DocumentAhead(goal.value, events, pos); }
      pos := pos + 1;
      if pos < |events| {
        Step();
        NodeOrEnd([DocWanted], events[pos]);
      }
      ghost var mid := pos;
      r := BuildNode([DocWanted], if goal.Some? then Some(goal.value.root) else None);
      if r.Failed? { return; }
      LinksResolve(r.tree, count, anchors);
      if goal.Some? { assert |events[mid..pos]| == |TreeEvents(goal.value.root)|; }
      if pos == |events| { return Failed, false; }
      if !events[pos].DocumentEndEvent? { return Failed, false; }
      Shuts();
      explicitEnd := events[pos].explicit;
      pos := pos + 1;
      Span(events, old(pos), pos, Document(r.tree, explicitEnd));
    }

    /** A document begins. */
    lemma Opens()
      requires Valid() && Nest() == Open([]) && pos < |events| && events[pos] == DocumentStartEvent
      ensures Run(Fresh, events[..pos + 1]) == Some(Open([DocWanted])) && WantsNode([DocWanted])
    {
      hide Run;
      Step();
    }

    /** A document ends after its node. */
    lemma Shuts()
      requires Valid() && Nest() == Open(Completed([DocWanted])) && pos < |events| && events[pos].DocumentEndEvent?
      ensures Run(Fresh, events[..pos + 1]) == Some(Open([]))
    {
      hide Run;
      assert Completed([DocWanted]) == [DocDone];
      Step();
    }
  }

  lemma LinksResolve(t: Tree, at: nat, anchors: map<string, nat>)
    requires Links(t, 0, map[], at, anchors)
    ensures Resolvable(t)
  {
    hide LinkTree;
  }

  lemma Span(events: seq<Event>, i: nat, k: nat, d: Document)
    requires i + 2 <= k <= |events| && events[i] == DocumentStartEvent && events[i + 1..k - 1] == TreeEvents(d.root)
    requires events[k - 1] == DocumentEndEvent(d.explicitEnd)
    ensures events[i..k] == OneDocument(d)
  {
    hide TreeEvents;
    Ends(events, i, k);
  }

  /** Where the parts of a document are. */
  lemma DocumentAhead(d: Document, events: seq<Event>, at: nat)
    requires at < |events| && OneDocument(d) <= events[at..]
    ensures var end := at + 1 + |TreeEvents(d.root)|;
      TreeEvents(d.root) <= events[at + 1..] && end < |events| && events[end] == DocumentEndEvent(d.explicitEnd)
  {
    hide TreeEvents;
    var all, n := OneDocument(d), |TreeEvents(d.root)|;
    assert all[1..n + 1] == TreeEvents(d.root) && all[n + 1] == DocumentEndEvent(d.explicitEnd);
    assert events[at..][..|all|] == all;
    assert events[at..][n + 1] == events[at + 1 + n];
    assert events[at + 1..][..n] == events[at..][..|all|][1..n + 1];
  }

  lemma InnerPrefix(t: Tree, events: seq<Event>, at: nat)
    requires at < |events| && !t.Leaf? && TreeEvents(t) <= events[at..]
    ensures ForestEvents(t.children) + [if t.Sequence? then SequenceEndEvent else MappingEndEvent] <= events[at + 1..]
  {
    hide ForestEvents;
    var n, end := |TreeEvents(t)|, if t.Sequence? then SequenceEndEvent else MappingEndEvent;
    assert events[at..][..n][1..] == events[at + 1..][..n - 1];
    assert TreeEvents(t)[1..] == ForestEvents(t.children) + [end];
  }

  /** What comes next among the children of a collection: one of them, or its end. */
  lemma NextChild(cs: seq<Tree>, k: nat, end: Event, events: seq<Event>, pos: nat)
    requires k <= |cs| && pos <= |events| && (forall c <- cs :: WellFormed(c)) && (end == SequenceEndEvent || end == MappingEndEvent)
    requires ForestEvents(cs[k..]) + [end] <= events[pos..]
    ensures pos < |events| && (k == |cs| ==> events[pos] == end)
    ensures k < |cs| ==> events[pos] != end && TreeEvents(cs[k]) <= events[pos..]
  {
    hide TreeEvents, ForestEvents, WellFormed;
    var es := ForestEvents(cs[k..]) + [end];
    ForestBegins(cs[k..], [end]);
    assert events[pos..][0] == es[0];
    if k < |cs| {
      ForestFirst(cs[k..]);
      var a := TreeEvents(cs[k]);
      assert es == a + (ForestEvents(cs[k..][1..]) + [end]);
      assert events[pos..][..|es|][..|a|] == events[pos..][..|a|];
    }
  }

  lemma AfterChild(cs: seq<Tree>, k: nat, end: Event, events: seq<Event>, mid: nat, pos: nat)
    requires k < |cs| && mid <= pos <= |events| && ForestEvents(cs[k..]) + [end] <= events[mid..]
    requires events[mid..pos] == TreeEvents(cs[k])
    ensures ForestEvents(cs[k + 1..]) + [end] <= events[pos..] && cs[..k] + [cs[k]] == cs[..k + 1]
  {
    hide TreeEvents, ForestEvents;
    ForestFirst(cs[k..]);
    assert cs[k..][1..] == cs[k + 1..];
    var a, b := TreeEvents(cs[k]), ForestEvents(cs[k + 1..]) + [end];
    Regroup(a, ForestEvents(cs[k + 1..]), [end]);
    assert events[mid..][..|a + b|][|a|..] == events[pos..][..|b|];
  }

  lemma ForestAppendPair(start: Event, ts: seq<Tree>, key: Tree, value: Tree)
    ensures [start] + ForestEvents(ts + [key, value]) == [start] + ForestEvents(ts) + (TreeEvents(key) + TreeEvents(value))
  {
    hide ForestEvents, TreeEvents;
    ForestAppend(ts, key);
    ForestAppend(ts + [key], value);
    assert ts + [key] + [value] == ts + [key, value];
  }

  lemma SequenceTree(start: Event, children: seq<Tree>)
    requires start.SequenceStartEvent? && forall c <- children :: WellFormed(c)
    ensures WellFormed(Sequence(start, children))
    ensures TreeEvents(Sequence(start, children)) == [start] + ForestEvents(children) + [SequenceEndEvent]
  {
  }

  lemma MappingTree(start: Event, children: seq<Tree>)
    requires start.MappingStartEvent? && |children| % 2 == 0 && forall c <- children :: WellFormed(c)
    ensures WellFormed(Mapping(start, children))
    ensures TreeEvents(Mapping(start, children)) == [start] + ForestEvents(children) + [MappingEndEvent]
  {
  }

  /** Past a collection's start, the collection is open. */
  lemma Opened(b: Builder, stack: seq<Shape>)
    requires b.Valid() && b.pos < |b.events| && b.Nest() == Open(stack) && WantsNode(stack)
    requires b.events[b.pos].SequenceStartEvent? || b.events[b.pos].MappingStartEvent?
    ensures Run(Fresh, b.events[..b.pos + 1])
         == Some(Open(stack + [if b.events[b.pos].SequenceStartEvent? then Seq else MapEven]))
  {
    hide Run;
    b.Step();
  }

  /** Past a collection's end, the node it was is complete. */
  lemma Closed(b: Builder, stack: seq<Shape>, s: Shape)
    requires b.Valid() && b.pos < |b.events| && b.Nest() == Open(stack + [s])
    requires (s == Seq && b.events[b.pos] == SequenceEndEvent) || (s == MapEven && b.events[b.pos] == MappingEndEvent)
    ensures stack != [] && Run(Fresh, b.events[..b.pos + 1]) == Some(Open(Completed(stack)))
  {
    hide Run;
    b.Step();
    assert (stack + [s])[..|stack|] == stack;
  }

  datatype StreamOutcome = Complete | Aborted | Crashed

  /** Every alias of every document names an anchor before it. */
  predicate AllResolvable(docs: seq<Document>) {
    forall d <- docs :: Resolvable(d.root)
  }

  /** Parses a token stream and builds its documents, as a caller that decodes every document does. The
      builder never meets an event it cannot handle, whatever the tokens are. It is complete exactly for the
      streams that can be written and whose aliases resolve, and then it builds the documents that were written;
      they say what the tokens say. */
  method BuildDocuments(tokens: seq<Token>)
    returns (docs: seq<Document>, n: nat, r: StreamOutcome, ghost events: seq<Event>)
    ensures !r.Crashed?
    ensures WellFormedDocuments(docs) && AllResolvable(docs)
    ensures r.Complete? ==> events == StreamEvents(docs)
    ensures r.Complete? ==> n <= |tokens| && EventsSay(StreamEvents(docs)) == TokensSay(tokens[..n])
    ensures r.Complete? ==> exists s :: Written(s) && tokens[..n] == SourceTokens(s) && docs == Documents(s)
    ensures forall s :: Written(s) && SourceTokens(s) <= tokens ==>
      (r.Complete? <==> AllResolvable(Documents(s))) && (r.Complete? ==> docs == Documents(s))
  {
    hide Run, Feed, TreeEvents, WellFormed, DocumentEvents, OneDocument, EventsSay, TokensSay, Resolvable, Written, SourceTokens,
         Documents;
    var es, used, ok := ParseStream(tokens);
    n := used;
    ghost var plan := Planned(tokens, es, ok);
    docs, r := BuildAll(es, ok, plan);
    events := es;
    if r.Complete? {
      ghost var s :| Written(s) && tokens[..n] == SourceTokens(s) && es == StreamEvents(Documents(s));
      SourceDocuments(s);
      StreamUnique(docs, Documents(s));
      forall s | Written(s) && SourceTokens(s) <= tokens ensures docs == Documents(s) {
        SourceDocuments(s);
        StreamUnique(docs, Documents(s));
      }
    }
  }

  /** The documents that a stream of tokens stands for, if there are any and their aliases resolve. */
  lemma Planned(tokens: seq<Token>, es: seq<Event>, ok: bool) returns (plan: Option<seq<Document>>)
    requires forall s :: Written(s) && SourceTokens(s) <= tokens ==> ok && es == StreamEvents(Documents(s))
    ensures plan.Some? ==> ok && WellFormedDocuments(plan.value) && AllResolvable(plan.value) && es == StreamEvents(plan.value)
    ensures forall s :: Written(s) && SourceTokens(s) <= tokens && AllResolvable(Documents(s)) ==> plan == Some(Documents(s))
  {
    hide Written, SourceTokens, Documents, StreamEvents, WellFormedDocuments, AllResolvable;
    plan := None;
    if s0 :| Written(s0) && SourceTokens(s0) <= tokens && AllResolvable(Documents(s0)) {
      plan := Some(Documents(s0));
      SourceDocuments(s0);
      forall s | Written(s) && SourceTokens(s) <= tokens && AllResolvable(Documents(s)) ensures plan == Some(Documents(s)) {
        SourceDocuments(s);
        StreamUnique(Documents(s), Documents(s0));
      }
    }
  }

  /** Builds the documents of events that nest. */
  method BuildAll(es: seq<Event>, ok: bool, ghost plan: Option<seq<Document>>) returns (docs: seq<Document>, r: StreamOutcome)
    requires Run(Fresh, es).Some?
    requires plan.Some? ==> ok && WellFormedDocuments(plan.value) && AllResolvable(plan.value) && es == StreamEvents(plan.value)
    ensures !r.Crashed? && WellFormedDocuments(docs) && AllResolvable(docs)
    ensures r.Complete? ==> ok && es == StreamEvents(docs)
    ensures plan.Some? ==> r.Complete? && docs == plan.value
  {
    hide Run, Feed, TreeEvents, WellFormed, DocumentEvents, OneDocument, Resolvable;
    docs := [];
    var b := new Builder(es);
    if es == [] { return docs, Aborted; }
    FirstEvent(es);
    b.pos := 1;
    NoDocuments();
    if plan.Some? { PlanStarts(plan.value, es); }
    while b.pos < |es| && es[b.pos] != StreamEndEvent
      invariant b.Valid() && b.events == es && b.Nest() == Open([])
      invariant WellFormedDocuments(docs) && AllResolvable(docs)
      invariant es[..b.pos] == [StreamStartEvent] + DocumentEvents(docs)
      invariant plan.Some? ==> Remaining(plan.value, docs, es, b.pos)
      decreases |es| - b.pos
    {
      b.Step();
      BetweenDocuments(es[b.pos]);
      ghost var before := b.pos;
      ghost var next := NextPlanned(plan, docs, es, b.pos);
      var d, explicitEnd := b.BuildDocument(next);
      if !d.Built? { return docs, if d.Panicked? then Crashed else Aborted; }
      DocumentsAppend(docs, Document(d.tree, explicitEnd));
      assert es[..b.pos] == es[..before] + es[before..b.pos];
      if plan.Some? { PlanGoesOn(plan.value, docs, es, before, b.pos); }
      docs := docs + [Document(d.tree, explicitEnd)];
    }
    if plan.Some? { PlanEnds(plan.value, docs, es, b.pos); }
    if b.pos == |es| || !ok { return docs, Aborted; }
    FitsAt(es, b.pos);
    NothingAfterEnd(es, b.pos);
    assert es == es[..b.pos] + [StreamEndEvent];
    r := Complete;
  }

  /** From `at` on, the events are those of the documents that are left to build. */
  ghost predicate Remaining(plan: seq<Document>, docs: seq<Document>, es: seq<Event>, at: nat) {
    && at <= |es| && |docs| <= |plan| && docs == plan[..|docs|]
    && es[at..] == DocumentEvents(plan[|docs|..]) + [StreamEndEvent]
  }

  lemma PlanStarts(plan: seq<Document>, es: seq<Event>)
    requires es == StreamEvents(plan)
    ensures Remaining(plan, [], es, 1)
  {
    hide DocumentEvents;
    assert plan[0..] == plan;
    assert es == [StreamStartEvent] + (DocumentEvents(plan) + [StreamEndEvent]);
  }

  lemma NextPlanned(plan: Option<seq<Document>>, docs: seq<Document>, es: seq<Event>, at: nat) returns (next: Option<Document>)
    requires at < |es| && es[at] != StreamEndEvent
    requires plan.Some? ==> WellFormedDocuments(plan.value) && AllResolvable(plan.value) && Remaining(plan.value, docs, es, at)
    ensures plan.Some? <==> next.Some?
    ensures plan.Some? ==>
      && |docs| < |plan.value| && next.value == plan.value[|docs|]
      && WellFormed(next.value.root) && Resolvable(next.value.root) && OneDocument(next.value) <= es[at..]
  {
    hide DocumentEvents, OneDocument, WellFormed, Resolvable;
    next := None;
    if plan.Some? {
      var left := plan.value[|docs|..];
      DocumentsBegin(left);
      assert es[at..][0] == es[at];
      assert left != [];
      DocumentsFirst(left);
      Regroup(OneDocument(left[0]), DocumentEvents(left[1..]), [StreamEndEvent]);
      next := Some(left[0]);
      assert left[0] in plan.value;
    }
  }

  lemma PlanGoesOn(plan: seq<Document>, docs: seq<Document>, es: seq<Event>, at: nat, pos: nat)
    requires Remaining(plan, docs, es, at) && |docs| < |plan| && at <= pos <= |es| && es[at..pos] == OneDocument(plan[|docs|])
    ensures Remaining(plan, docs + [plan[|docs|]], es, pos)
  {
    hide DocumentEvents, OneDocument;
    var left := plan[|docs|..];
    DocumentsFirst(left);
    assert left[1..] == plan[|docs| + 1..];
    Regroup(OneDocument(left[0]), DocumentEvents(left[1..]), [StreamEndEvent]);
    assert es[at..][pos - at..] == es[pos..];
    assert |es[at..pos]| == |OneDocument(left[0])|;
  }

  lemma PlanEnds(plan: seq<Document>, docs: seq<Document>, es: seq<Event>, at: nat)
    requires Remaining(plan, docs, es, at) && (at == |es| || es[at] == StreamEndEvent)
    ensures at < |es| && docs == plan
  {
    hide DocumentEvents;
    DocumentsBegin(plan[|docs|..]);
    assert es[at..] != [] && es[at..][0] == es[at];
  }

  lemma NoDocuments()
    ensures DocumentEvents([]) == [] && [StreamStartEvent] + [] == [StreamStartEvent]
  {
  }

  lemma DocumentsAppend(docs: seq<Document>, doc: Document)
    ensures [StreamStartEvent] + DocumentEvents(docs + [doc]) == [StreamStartEvent] + DocumentEvents(docs) + OneDocument(doc)
    ensures WellFormedDocuments(docs) && WellFormed(doc.root) ==> WellFormedDocuments(docs + [doc])
    ensures AllResolvable(docs) && Resolvable(doc.root) ==> AllResolvable(docs + [doc])
  {
    hide TreeEvents, WellFormed, Resolvable;
    assert (docs + [doc])[..|docs|] == docs;
    assert forall d <- docs + [doc] :: d in docs || d == doc;
  }

  lemma FirstEvent(events: seq<Event>)
    requires Run(Fresh, events).Some? && events != []
    ensures events[0] == StreamStartEvent && Run(Fresh, events[..1]) == Some(Open([]))
  {
    FitsAt(events, 0);
    RunStep(Fresh, [], events[0]);
    assert events[..1] == [] + [events[0]] && events[..0] == [];
  }

  lemma BetweenDocuments(e: Event)
    requires Feed(Open([]), e).Some?
    ensures e == DocumentStartEvent || e == StreamEndEvent
  {
  }

  lemma NothingAfterEnd(events: seq<Event>, i: nat)
    requires Run(Fresh, events).Some? && i < |events| && events[i] == StreamEndEvent
    requires Run(Fresh, events[..i]) == Some(Open([]))
    ensures i + 1 == |events|
  {
    RunStep(Fresh, events[..i], events[i]);
    assert events[..i] + [events[i]] == events[..i + 1];
    FitsAt(events, i + 1);
  }
}
