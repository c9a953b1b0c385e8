/** The node graph of a document: every alias resolved to the node that last had its anchor. */
module YamlGraph {
  import opened Bytes
  import opened YamlEvents
  import D = YamlDecoder

  /** Nodes are numbered in the order they are made, parents first. `all` has every node at its number, counted
      from where the numbering began; `tops` are those that are no one's children. */
  datatype Graph =
    | Graph(tops: seq<D.Node>, all: seq<D.Node>, anchors: map<string, nat>)
    | UnknownAnchor

  function Registered(anchors: map<string, nat>, anchor: Option<string>, at: nat): map<string, nat> {
    if anchor.Some? then anchors[anchor.value := at] else anchors
  }

  function LinkTree(t: Tree, at: nat, anchors: map<string, nat>): (g: Graph)
    ensures g.Graph? ==> |g.tops| == 1 && |g.all| >= 1
    decreases t, 0
  {
    match t
    case Leaf(e) =>
      if e.AliasEvent? then
        if e.name !in anchors then UnknownAnchor
        else var n := D.Alias(at, e.name, anchors[e.name]); Graph([n], [n], anchors)
      else if e.ScalarEvent? then
        var n := D.Scalar(e.value, e.tag, e.implicit); Graph([n], [n], Registered(anchors, e.anchor, at))
      else UnknownAnchor
    case Sequence(e, cs) =>
      var g := LinkForest(cs, at + 1, if e.SequenceStartEvent? then Registered(anchors, e.anchor, at) else anchors);
      if g.UnknownAnchor? then g else var n := D.Sequence(g.tops); Graph([n], [n] + g.all, g.anchors)
    case Mapping(e, cs) =>
      var g := LinkForest(cs, at + 1, if e.MappingStartEvent? then Registered(anchors, e.anchor, at) else anchors);
      if g.UnknownAnchor? then g else var n := D.Mapping(g.tops); Graph([n], [n] + g.all, g.anchors)
  }

  function LinkForest(ts: seq<Tree>, at: nat, anchors: map<string, nat>): (g: Graph)
    ensures g.Graph? ==> |g.tops| == |ts|
    decreases ts, 0
  {
    if ts == [] then Graph([], [], anchors)
    else
      var g := LinkForest(ts[..|ts| - 1], at, anchors);
      if g.UnknownAnchor? then g else
      var h := LinkTree(ts[|ts| - 1], at + |g.all|, g.anchors);
      if h.UnknownAnchor? then h else Graph(g.tops + h.tops, g.all + h.all, h.anchors)
  }

  // ----- every reference leads somewhere

  predicate Below(anchors: map<string, nat>, n: nat) {
    forall name :: name in anchors ==> anchors[name] < n
  }

  predicate AllLinked(nodes: seq<D.Node>, n: nat) {
    forall i :: 0 <= i < |nodes| ==> D.Linked(nodes[i], n, n)
  }

  lemma AllLinkedConcat(a: seq<D.Node>, b: seq<D.Node>, n: nat)
    requires AllLinked(a, n) && AllLinked(b, n)
    ensures AllLinked(a + b, n)
  {
  }

  lemma BelowRegistered(anchors: map<string, nat>, anchor: Option<string>, at: nat)
    requires Below(anchors, at)
    ensures Below(Registered(anchors, anchor, at), at + 1)
  {
  }

  lemma {:induction false} TreeLinked(t: Tree, at: nat, anchors: map<string, nat>, n: nat)
    requires WellFormed(t) && LinkTree(t, at, anchors).Graph? && Below(anchors, at)
    requires at + |LinkTree(t, at, anchors).all| <= n
    ensures var g := LinkTree(t, at, anchors);
      AllLinked(g.tops, n) && AllLinked(g.all, n) && Below(g.anchors, at + |g.all|)
    decreases t, 0
  {
    hide Registered;
    match t
    case Leaf(e) =>
      if e.ScalarEvent? {
        BelowRegistered(anchors, e.anchor, at);
      }
    case Sequence(e, cs) =>
      BelowRegistered(anchors, e.anchor, at);
      ForestLinked(cs, at + 1, Registered(anchors, e.anchor, at), n);
    case Mapping(e, cs) =>
      BelowRegistered(anchors, e.anchor, at);
      ForestLinked(cs, at + 1, Registered(anchors, e.anchor, at), n);
  }

  lemma {:induction false} ForestLinked(ts: seq<Tree>, at: nat, anchors: map<string, nat>, n: nat)
    requires (forall t <- ts :: WellFormed(t)) && LinkForest(ts, at, anchors).Graph? && Below(anchors, at)
    requires at + |LinkForest(ts, at, anchors).all| <= n
    ensures var g := LinkForest(ts, at, anchors);
      AllLinked(g.tops, n) && AllLinked(g.all, n) && Below(g.anchors, at + |g.all|)
    decreases ts, 0
  {
    if ts != [] {
      var init, last := ts[..|ts| - 1], ts[|ts| - 1];
      var g := LinkForest(init, at, anchors);
      var h := LinkTree(last, at + |g.all|, g.anchors);
      ForestLinked(init, at, anchors, n);
      TreeLinked(last, at + |g.all|, g.anchors, n);
      hide LinkTree, AllLinked;
      AllLinkedConcat(g.tops, h.tops, n);
      AllLinkedConcat(g.all, h.all, n);
    }
  }

  // ----- as it is built

  /** Linking the tree from number `at` leads to number `at'` and the anchors `anchors'`. */
  predicate Links(t: Tree, at: nat, anchors: map<string, nat>, at': nat, anchors': map<string, nat>) {
    var g := LinkTree(t, at, anchors);
    g.Graph? && g.anchors == anchors' && at' == at + |g.all|
  }

  predicate ForestLinks(ts: seq<Tree>, at: nat, anchors: map<string, nat>, at': nat, anchors': map<string, nat>) {
    var g := LinkForest(ts, at, anchors);
    g.Graph? && g.anchors == anchors' && at' == at + |g.all|
  }

  lemma ForestLinksNone(at: nat, anchors: map<string, nat>)
    ensures ForestLinks([], at, anchors, at, anchors)
  {
  }

  lemma ForestLinksAppend(ts: seq<Tree>, t: Tree, at: nat, anchors: map<string, nat>,
                          at1: nat, anchors1: map<string, nat>, at2: nat, anchors2: map<string, nat>)
    requires ForestLinks(ts, at, anchors, at1, anchors1) && Links(t, at1, anchors1, at2, anchors2)
    ensures ForestLinks(ts + [t], at, anchors, at2, anchors2)
  {
    assert (ts + [t])[..|ts|] == ts;
    hide LinkTree;
  }

  /** If a whole forest links, each of its trees links after those before it. */
  lemma {:induction false} ChildLinks(cs: seq<Tree>, k: nat, first: nat, known: map<string, nat>, at: nat, anchors: map<string, nat>)
    requires k < |cs| && LinkForest(cs, first, known).Graph? && ForestLinks(cs[..k], first, known, at, anchors)
    ensures LinkTree(cs[k], at, anchors).Graph?
    decreases |cs|
  {
    hide LinkTree;
    if k < |cs| - 1 {
      var init := cs[..|cs| - 1];
      assert init[..k] == cs[..k];
      ChildLinks(init, k, first, known, at, anchors);
    }
  }

  lemma LeafLinks(e: Event, at: nat, anchors: map<string, nat>)
    requires e.ScalarEvent? || (e.AliasEvent? && e.name in anchors)
    ensures Links(Leaf(e), at, anchors, at + 1, if e.ScalarEvent? then Registered(anchors, e.anchor, at) else anchors)
  {
  }

  lemma CollectionLinks(start: Event, cs: seq<Tree>, at: nat, anchors: map<string, nat>, at': nat, anchors': map<string, nat>)
    requires start.SequenceStartEvent? || start.MappingStartEvent?
    requires ForestLinks(cs, at + 1, Registered(anchors, start.anchor, at), at', anchors')
    ensures start.SequenceStartEvent? ==> Links(Sequence(start, cs), at, anchors, at', anchors')
    ensures start.MappingStartEvent? ==> Links(Mapping(start, cs), at, anchors, at', anchors')
  {
    hide Registered;
  }

  // ----- decoding a document

  /** All aliases of a document name anchors that came before them. */
  predicate Resolvable(root: Tree) {
    LinkTree(root, 0, map[]).Graph?
  }

  /** A document whose aliases resolve is decoded, whatever its cycles, with work linear in its nodes. */
  method DecodeDocument(root: Tree) returns (r: D.Outcome, work: nat)
    requires WellFormed(root) && Resolvable(root)
    ensures var g := LinkTree(root, 0, map[]);
      work <= D.Bound(D.Size(D.Document(g.tops))) + (if r == D.Failed then 1 else 0)
  {
    var g := LinkTree(root, 0, map[]);
    TreeLinked(root, 0, map[], |g.all|);
    r, work := D.DecodeAll(D.Document(g.tops), g.all, g.anchors, |g.all|);
  }
}
