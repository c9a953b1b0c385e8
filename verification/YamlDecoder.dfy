/** The walk of the decoder over the node graph: why it ends on every graph, cyclic ones included, and
    how much work it can be made to do. */
module YamlDecoder {

  /** `target` names the node that an alias stands for, by its place in a table of anchored nodes; that
      node may contain the alias. `id` tells alias nodes apart. */
  datatype Node =
    | Document(children: seq<Node>)
    | Mapping(children: seq<Node>)
    | Sequence(children: seq<Node>)
    | Scalar(value: string, tag: string, implicit: bool)
    | Alias(id: nat, name: string, target: nat)

  const MERGE_TAG := "tag:yaml.org,2002:merge"

  predicate IsMerge(n: Node) {
    n.Scalar? && n.value == "<<" && (n.implicit || n.tag == MERGE_TAG)
  }

  /** The number of nodes of a tree. */
  function Size(n: Node): (s: nat)
    ensures s > 0
    decreases n, 1
  {
    1 + if n.Scalar? || n.Alias? then 0 else SizeAll(n.children)
  }

  function SizeAll(ns: seq<Node>): nat
    decreases ns, 0
  {
    if ns == [] then 0 else Size(ns[0]) + SizeAll(ns[1..])
  }

  /** Aliases are numbered below `ids`, and each stands for one of `anchored` nodes. */
  predicate Linked(n: Node, ids: nat, anchored: nat)
    decreases n
  {
    match n
    case Alias(id, _, target) => id < ids && target < anchored
    case Scalar(_, _, _) => true
    case Document(children) => forall i :: 0 <= i < |children| ==> Linked(children[i], ids, anchored)
    case Mapping(children) => |children| % 2 == 0 && forall i :: 0 <= i < |children| ==> Linked(children[i], ids, anchored)
    case Sequence(children) => forall i :: 0 <= i < |children| ==> Linked(children[i], ids, anchored)
  }

  lemma {:induction false} SizeSplit(ns: seq<Node>, k: nat)
    requires k <= |ns|
    ensures SizeAll(ns) == SizeAll(ns[..k]) + SizeAll(ns[k..])
  {
    if k == 0 {
      assert ns[..0] == [] && ns[0..] == ns;
    } else {
      SizeSplit(ns[1..], k - 1);
      assert ns[..k][1..] == ns[1..][..k - 1] && ns[1..][k - 1..] == ns[k..];
    }
  }

  /** What is left of the children after one of them. */
  lemma SizeNext(ns: seq<Node>, i: nat)
    requires i < |ns|
    ensures SizeAll(ns[i..]) == Size(ns[i]) + SizeAll(ns[i + 1..])
    ensures SizeAll(ns[i..]) <= SizeAll(ns)
  {
    assert ns[i..][1..] == ns[i + 1..];
    SizeSplit(ns, i);
  }

  /** A key and its value. */
  lemma SizePair(ns: seq<Node>, i: nat)
    requires i + 1 < |ns|
    ensures SizeAll(ns[i..]) == Size(ns[i]) + Size(ns[i + 1]) + SizeAll(ns[i + 2..])
    ensures SizeAll(ns[i..]) <= SizeAll(ns)
  {
    hide Size, SizeAll;
    SizeNext(ns, i);
    SizeNext(ns, i + 1);
  }

  lemma SizeOne(n: Node)
    ensures SizeAll([n]) == Size(n)
  {
    assert SizeAll([n]) == Size([n][0]) + SizeAll([n][1..]);
  }

  lemma SizeBefore(ns: seq<Node>, i: nat)
    requires i < |ns|
    ensures SizeAll(ns[..i + 1]) == SizeAll(ns[..i]) + Size(ns[i])
    ensures SizeAll(ns[..i + 1]) <= SizeAll(ns)
  {
    SizeOne(ns[i]);
    hide Size, SizeAll;
    SizeSplit(ns[..i + 1], i);
    assert ns[..i + 1][..i] == ns[..i] && ns[..i + 1][i..] == [ns[i]];
    SizeSplit(ns, i + 1);
  }

  // ----- the budget

  const ALIAS_RATIO_RANGE_LOW := 400000
  const ALIAS_RATIO_RANGE_HIGH := 4000000

  /** The share of decode operations that may come from aliases: from 99% down to 10%. */
  function AllowedAliasRatio(decodeCount: nat): (r: real)
    ensures 0.10 <= r <= 0.99
  {
    if decodeCount <= ALIAS_RATIO_RANGE_LOW then 0.99
    else if decodeCount >= ALIAS_RATIO_RANGE_HIGH then 0.10
    else
      var part := (decodeCount - ALIAS_RATIO_RANGE_LOW) as real / (ALIAS_RATIO_RANGE_HIGH - ALIAS_RATIO_RANGE_LOW) as real;
      assert 0.0 <= part <= 1.0;
      0.99 - 0.89 * part
  }

  /** The share never grows with the count: it is constant up to 400000 and from 4000000 on, and falls evenly
      in between. */
  lemma AliasRatioFalls(m: nat, n: nat)
    requires m <= n
    ensures AllowedAliasRatio(n) <= AllowedAliasRatio(m)
    ensures n <= 400000 ==> AllowedAliasRatio(n) == 0.99
    ensures m >= 4000000 ==> AllowedAliasRatio(m) == 0.10
    ensures 400000 <= m && n <= 4000000 ==>
      (AllowedAliasRatio(m) - AllowedAliasRatio(n)) * 3600000.0 == 0.89 * (n - m) as real
  {
  }

  predicate Excessive(aliasCount: nat, decodeCount: nat) {
    aliasCount > 100 && decodeCount > 1000 && aliasCount as real / decodeCount as real > AllowedAliasRatio(decodeCount)
  }

  /** When a run is stopped: never with at most 100 decodes inside aliases or 1000 in all; otherwise when more than 99%
      are inside aliases, more than 10% from four million on, and more than the share in between that falls evenly. */
  lemma ExcessiveExactly(a: nat, d: nat)
    ensures a <= 100 || d <= 1000 ==> !Excessive(a, d)
    ensures a > 100 && 1000 < d <= 400000 ==> (Excessive(a, d) <==> 100 * a > 99 * d)
    ensures a > 100 && d >= 4000000 ==> (Excessive(a, d) <==> 10 * a > d)
    ensures a > 100 && 400000 <= d <= 4000000 ==> (Excessive(a, d) <==> 360000000 * a > d * (356400000 - 89 * (d - 400000)))
  {
    if a > 100 && d > 1000 {
      var r := AllowedAliasRatio(d);
      Over(a as real, d as real, r);
      if 400000 <= d <= 4000000 {
        var part := (d - 400000) as real;
        assert 360000000.0 * r == 356400000.0 - 89.0 * part;
        assert 360000000.0 * (r * d as real) == d as real * (356400000.0 - 89.0 * part);
      }
    }
  }

  lemma Over(a: real, d: real, r: real)
    requires d > 0.0
    ensures a / d > r <==> a > r * d
  {
    assert a == (a / d) * d;
    if a / d > r {
      assert (a / d) * d > r * d;
    } else {
      assert (a / d) * d <= r * d;
    }
  }

  function Bound(size: nat): nat {
    if 100 * size < 1000 then 1000 else 100 * size
  }

  /** What passes the check is linear in the size of the document, when the decodes outside aliases are
      no more than its nodes. */
  lemma WithinBound(aliasCount: nat, decodeCount: nat, size: nat)
    requires !Excessive(aliasCount, decodeCount) && aliasCount <= decodeCount <= aliasCount + size
    ensures decodeCount <= Bound(size)
  {
    if aliasCount > 100 && decodeCount > 1000 {
      var a, d := aliasCount as real, decodeCount as real;
      Share(a, d, AllowedAliasRatio(decodeCount));
    }
  }

  lemma Share(a: real, d: real, r: real)
    requires d > 0.0 && a / d <= r <= 0.99
    ensures a <= 0.99 * d
  {
    assert a == (a / d) * d;
  }

  // ----- the walk

  datatype Outcome = Good | Bad | Failed

  class Decoder {
    const anchored: seq<Node>               // the nodes that aliases stand for
    const anchors: map<string, nat>         // the document's last anchor of each name
    const ids: nat
    ghost const size: nat                   // nodes of the document
    var aliases: set<nat>                   // the aliases being followed
    var decodeCount: nat
    var aliasCount: nat
    var aliasDepth: nat

    ghost predicate Valid()
      reads this
    {
      && (forall i :: 0 <= i < |anchored| ==> Linked(anchored[i], ids, |anchored|))
      && (forall name :: name in anchors ==> anchors[name] < |anchored|)
      && aliases <= Numbers(ids) && aliasDepth == |aliases|
      && aliasCount <= decodeCount <= aliasCount + size
      && decodeCount <= Bound(size)
    }

    /** Decode operations outside aliases. */
    ghost function Direct(): int
      reads this
    {
      decodeCount - aliasCount
    }

    /** What a walk over a tree of `n` nodes leaves behind. */
    ghost predicate Walked(n: nat, aliases0: set<nat>, direct0: int)
      reads this
    {
      Valid() && aliases == aliases0 && Direct() <= direct0 + (if aliases0 == {} then n else 0)
    }

    ghost function Inactive(): nat
      reads this
    {
      |Numbers(ids) - aliases|
    }

    constructor (ghost root: Node, anchored: seq<Node>, anchors: map<string, nat>, ids: nat)
      requires forall i :: 0 <= i < |anchored| ==> Linked(anchored[i], ids, |anchored|)
      requires forall name :: name in anchors ==> anchors[name] < |anchored|
      ensures Valid() && size == Size(root) && aliases == {} && decodeCount == 0 && Direct() == 0
      ensures this.ids == ids && this.anchored == anchored
    {
      this.anchored, this.anchors, this.ids, size := anchored, anchors, ids, Size(root);
      aliases, decodeCount, aliasCount, aliasDepth := {}, 0, 0, 0;
    }

    /** Counts one decode operation; it passes exactly when the share of aliases is not excessive. */
    method Count() returns (passed: bool)
      requires Valid() && (aliases == {} ==> Direct() < size)
      modifies this`decodeCount, this`aliasCount
      ensures decodeCount == old(decodeCount) + 1 && aliasCount == old(aliasCount) + (if aliasDepth > 0 then 1 else 0)
      ensures passed <==> !Excessive(aliasCount, decodeCount)
      ensures passed ==> Valid()
      ensures decodeCount <= Bound(size) + 1
    {
      decodeCount := decodeCount + 1;
      if aliasDepth > 0 {
        aliasCount := aliasCount + 1;
      }
      if Excessive(aliasCount, decodeCount) {
        return false;
      }
      WithinBound(aliasCount, decodeCount, size);
      return true;
    }

    method Unmarshal(n: Node) returns (r: Outcome)
      requires Valid() && Linked(n, ids, |anchored|) && (aliases == {} ==> Direct() + Size(n) <= size)
      modifies this
      ensures decodeCount <= Bound(size) + 1
      ensures r != Failed ==> Walked(Size(n), old(aliases), old(Direct()))
      decreases Inactive(), Size(n), 1
    {
      var passed := Count();
      if !passed {
        return Failed;
      }
      match n
      case Document(children) => r := DecodeDocument(n);
      case Alias(id, name, target) => r := FollowAlias(n);
      case Scalar(value, tag, implicit) =>
        // whether the value suits the wanted type is not part of the walk
        if {
          case true => r := Good;
          case true => r := Bad;
          case true => r := Failed;
        }
      case Mapping(children) =>
        if {
          case true => r := DecodeMapping(n);
          case true => r := Bad;
          case true => r := Failed;
        }
      case Sequence(children) =>
        if {
          case true => r := DecodeSequence(n);
          case true => r := Bad;
          case true => r := Failed;
        }
    }

    method DecodeDocument(n: Node) returns (r: Outcome)
      requires n.Document? && Valid() && Linked(n, ids, |anchored|) && (aliases == {} ==> Direct() + Size(n) - 1 <= size)
      modifies this
      ensures decodeCount <= Bound(size) + 1
      ensures r != Failed ==> Walked(Size(n) - 1, old(aliases), old(Direct()))
      decreases Inactive(), Size(n), 0
    {
      if |n.children| == 1 {
        SizeNext(n.children, 0);
        assert n.children[0..] == n.children;
        r := Unmarshal(n.children[0]);
        return if r == Failed then Failed else Good;
      }
      return Bad;
    }

    /** An alias that is met again while it is being followed is an error; so following one leaves fewer. */
    method FollowAlias(n: Node) returns (r: Outcome)
      requires n.Alias? && Valid() && Linked(n, ids, |anchored|)
      modifies this
      ensures n.id in old(aliases) ==> r == Failed
      ensures decodeCount <= Bound(size) + 1
      ensures r != Failed ==> Walked(0, old(aliases), old(Direct()))
      decreases Inactive(), 1, 0
    {
      if n.id in aliases {
        return Failed;
      }
      FewerInactive(ids, aliases, n.id);
      aliases := aliases + {n.id};
      aliasDepth := aliasDepth + 1;
      r := Unmarshal(anchored[n.target]);
      if r == Failed {
        return;
      }
      aliasDepth := aliasDepth - 1;
      aliases := aliases - {n.id};
      assert aliases == old(aliases);
    }

    method DecodeSequence(n: Node) returns (r: Outcome)
      requires n.Sequence? && Valid() && Linked(n, ids, |anchored|) && (aliases == {} ==> Direct() + Size(n) - 1 <= size)
      modifies this
      ensures decodeCount <= Bound(size) + 1
      ensures r != Failed ==> Walked(Size(n) - 1, old(aliases), old(Direct()))
      decreases Inactive(), Size(n), 0
    {
      var i := 0;
      assert n.children[0..] == n.children;
      while i < |n.children|
        invariant i <= |n.children| && aliases == old(aliases) && Valid()
        invariant aliases == {} ==> Direct() + SizeAll(n.children[i..]) <= old(Direct()) + Size(n) - 1
        invariant aliases != {} ==> Direct() <= old(Direct())
      {
        SizeNext(n.children, i);
        r := Unmarshal(n.children[i]);
        if r == Failed {
          return;
        }
        i := i + 1;
      }
      return Good;
    }

    /** Keys and values in turn; a value is decoded only if its key could be, and wanted. */
    method DecodeMapping(n: Node) returns (r: Outcome)
      requires n.Mapping? && Valid() && Linked(n, ids, |anchored|) && (aliases == {} ==> Direct() + Size(n) - 1 <= size)
      modifies this
      ensures decodeCount <= Bound(size) + 1
      ensures r != Failed ==> Walked(Size(n) - 1, old(aliases), old(Direct()))
      decreases Inactive(), Size(n), 0
    {
      var i := 0;
      assert n.children[0..] == n.children && Size(n) == 1 + SizeAll(n.children);
      assert forall k :: 0 <= k < |n.children| ==> Linked(n.children[k], ids, |anchored|);
      hide Size, SizeAll, Bound, Linked, Excessive;
      ghost var pairs, half := 0, |n.children| / 2;
      while i < |n.children|
        invariant i == 2 * pairs <= 2 * half == |n.children| && aliases == old(aliases) && Valid()
        invariant aliases == {} ==> Direct() + SizeAll(n.children[i..]) <= old(Direct()) + Size(n) - 1
        invariant aliases != {} ==> Direct() <= old(Direct())
      {
        var key, value := n.children[i], n.children[i + 1];
        SizePair(n.children, i);
        r := DecodePair(key, value);
        if r == Failed {
          return;
        }
        i, pairs := i + 2, pairs + 1;
      }
      return Good;
    }

    method DecodePair(key: Node, value: Node) returns (r: Outcome)
      requires Valid() && Linked(key, ids, |anchored|) && Linked(value, ids, |anchored|)
      requires aliases == {} ==> Direct() + Size(key) + Size(value) <= size
      modifies this
      ensures decodeCount <= Bound(size) + 1
      ensures r != Failed ==> Walked(Size(key) + Size(value), old(aliases), old(Direct()))
      decreases Inactive(), Size(key) + Size(value), 3
    {
      if IsMerge(key) {
        r := Merge(value);
        return;
      }
      r := Unmarshal(key);
      if r == Good {
        if {
          case true => r := Unmarshal(value);
          case true => r := Bad;
          case true => r := Failed;
        }
      }
    }

    /** The values to merge are mappings, aliases of mappings, or a sequence of these, taken backwards. */
    method Merge(n: Node) returns (r: Outcome)
      requires Valid() && Linked(n, ids, |anchored|) && (aliases == {} ==> Direct() + Size(n) <= size)
      modifies this
      ensures decodeCount <= Bound(size) + 1
      ensures r != Failed ==> Walked(Size(n), old(aliases), old(Direct()))
      ensures !n.Sequence? && !Mergeable(n) ==> r == Failed
      ensures n.Sequence? && (exists i :: 0 <= i < |n.children| && !Mergeable(n.children[i])) ==> r == Failed
      decreases Inactive(), Size(n), 2
    {
      if !n.Sequence? {
        if !Mergeable(n) {
          return Failed;
        }
        r := Unmarshal(n);
        return;
      }
      var i := |n.children|;
      assert n.children[..i] == n.children;
      while i > 0
        invariant i <= |n.children| && aliases == old(aliases) && Valid()
        invariant forall k :: i <= k < |n.children| ==> Mergeable(n.children[k])
        invariant aliases == {} ==> Direct() + SizeAll(n.children[..i]) <= old(Direct()) + Size(n) - 1
        invariant aliases != {} ==> Direct() <= old(Direct())
      {
        i := i - 1;
        SizeBefore(n.children, i);
        if !Mergeable(n.children[i]) {
          return Failed;
        }
        r := Unmarshal(n.children[i]);
        if r == Failed {
          return;
        }
      }
      return Good;
    }

    predicate Mergeable(n: Node)
      requires forall name :: name in anchors ==> anchors[name] < |anchored|
    {
      n.Mapping? || (n.Alias? && (n.name in anchors ==> anchored[anchors[n.name]].Mapping?))
    }
  }

  /** Decoding a document: it ends, and however much its aliases expand to, the work done before it ends or
      is given up is at most a hundred decode operations for each of its nodes, or a thousand. */
  method DecodeAll(root: Node, anchored: seq<Node>, anchors: map<string, nat>, ids: nat) returns (r: Outcome, work: nat)
    requires Linked(root, ids, |anchored|) && forall i :: 0 <= i < |anchored| ==> Linked(anchored[i], ids, |anchored|)
    requires forall name :: name in anchors ==> anchors[name] < |anchored|
    ensures work <= Bound(Size(root)) + (if r == Failed then 1 else 0)
  {
    var d := new Decoder(root, anchored, anchors, ids);
    r := d.Unmarshal(root);
    work := d.decodeCount;
  }

  function Numbers(n: nat): set<nat> {
    if n == 0 then {} else Numbers(n - 1) + {n - 1}
  }

  lemma {:induction false} InNumbers(n: nat, k: nat)
    ensures k in Numbers(n) <==> k < n
  {
    if n > 0 {
      InNumbers(n - 1, k);
    }
  }

  lemma FewerInactive(ids: nat, aliases: set<nat>, id: nat)
    requires id < ids && id !in aliases
    ensures id in Numbers(ids)
    ensures |Numbers(ids) - (aliases + {id})| < |Numbers(ids) - aliases|
  {
    InNumbers(ids, id);
    assert Numbers(ids) - (aliases + {id}) == (Numbers(ids) - aliases) - {id};
  }
}
