/** The token stream as the scanner builds it: appended to at the end, and inserted into where a simple
    key turns out to have begun. */
module YamlTokenStream {
  import opened Sequences
  import opened YamlTokens

  datatype Mark = Mark(index: nat, line: nat, column: nat)

  /** A place where a simple key may have begun: `number` counts tokens from the start of the stream. */
  datatype SimpleKey = SimpleKey(possible: bool, required: bool, number: nat, mark: Mark)

  const NO_KEY := SimpleKey(false, false, 0, Mark(0, 0, 0))

  /** Tokens that can begin a simple key. */
  predicate StartsKey(t: Token) {
    || t.FlowSequenceStartToken? || t.FlowMappingStartToken? || t.AliasToken? || t.AnchorToken?
    || t.TagToken? || t.ScalarToken?
  }

  /** Every possible key is a token not yet delivered that can begin one, and keys of deeper flow levels
      begin later. */
  predicate KeysInOrder(keys: seq<SimpleKey>, parsed: nat, stream: seq<Token>) {
    && (forall i :: 0 <= i < |keys| && keys[i].possible ==>
          parsed <= keys[i].number < |stream| && StartsKey(stream[keys[i].number]))
    && (forall i, j :: 0 <= i < j < |keys| && keys[i].possible && keys[j].possible ==> keys[i].number < keys[j].number)
  }

  /** How many block collections a token opens or closes. */
  function Opens(t: Token): int {
    if t.BlockSequenceStartToken? || t.BlockMappingStartToken? then 1 else if t.BlockEndToken? then -1 else 0
  }

  function Depth(stream: seq<Token>): int {
    if stream == [] then 0 else Depth(stream[..|stream| - 1]) + Opens(stream[|stream| - 1])
  }

  /** No block ends before it began. */
  predicate NeverNegative(stream: seq<Token>) {
    forall k :: 0 <= k <= |stream| ==> Depth(stream[..k]) >= 0
  }

  function Insert(stream: seq<Token>, n: nat, t: Token): (r: seq<Token>)
    requires n <= |stream|
    ensures |r| == |stream| + 1
  {
    stream[..n] + [t] + stream[n..]
  }

  /** The indentation levels, the current one last: strictly increasing from -1. */
  predicate Rising(levels: seq<int>) {
    && |levels| > 0 && levels[0] == -1
    && forall i, j :: 0 <= i < j < |levels| ==> levels[i] < levels[j]
  }

  // ----- appending and inserting

  lemma DepthAppend(stream: seq<Token>, t: Token)
    ensures Depth(stream + [t]) == Depth(stream) + Opens(t)
  {
    assert (stream + [t])[..|stream|] == stream;
  }

  lemma NeverNegativeAppend(stream: seq<Token>, t: Token)
    requires NeverNegative(stream) && Depth(stream) + Opens(t) >= 0
    ensures NeverNegative(stream + [t])
  {
    hide Depth;
    DepthAppend(stream, t);
    var longer := stream + [t];
    forall k | 0 <= k <= |longer| ensures Depth(longer[..k]) >= 0 {
      if k <= |stream| {
        assert longer[..k] == stream[..k];
      } else {
        assert longer[..k] == longer;
      }
    }
  }

  lemma {:induction false} DepthInsert(stream: seq<Token>, n: nat, t: Token)
    requires n <= |stream|
    ensures Depth(Insert(stream, n, t)) == Depth(stream) + Opens(t)
    decreases |stream|
  {
    if n == |stream| {
      assert Insert(stream, n, t) == stream + [t];
      DepthAppend(stream, t);
    } else {
      var init, last := stream[..|stream| - 1], stream[|stream| - 1];
      DepthInsert(init, n, t);
      assert Insert(stream, n, t) == Insert(init, n, t) + [last] && stream == init + [last];
      DepthAppend(Insert(init, n, t), last);
    }
  }

  lemma NeverNegativeInsert(stream: seq<Token>, n: nat, t: Token)
    requires NeverNegative(stream) && n <= |stream| && Opens(t) >= 0
    ensures NeverNegative(Insert(stream, n, t))
  {
    hide Depth, Opens;
    var longer := Insert(stream, n, t);
    forall k | 0 <= k <= |longer| ensures Depth(longer[..k]) >= 0 {
      if k <= n {
        assert longer[..k] == stream[..k];
      } else {
        assert longer[..k] == Insert(stream[..k - 1], n, t);
        DepthInsert(stream[..k - 1], n, t);
      }
    }
  }

  lemma KeysAppend(keys: seq<SimpleKey>, parsed: nat, stream: seq<Token>, t: Token)
    requires KeysInOrder(keys, parsed, stream)
    ensures KeysInOrder(keys, parsed, stream + [t])
  {
  }

  /** A key saved at the end of the stream is in order once its token is there. */
  lemma KeysSave(keys: seq<SimpleKey>, parsed: nat, stream: seq<Token>, key: SimpleKey, t: Token)
    requires KeysInOrder(keys, parsed, stream) && keys != [] && parsed <= |stream|
    requires key.number == |stream| && StartsKey(t)
    ensures KeysInOrder(keys[|keys| - 1 := key], parsed, stream + [t])
  {
    hide StartsKey;
  }

  /** An insertion at or after the innermost key disturbs none of the keys below it. */
  lemma KeysInsert(keys: seq<SimpleKey>, parsed: nat, stream: seq<Token>, n: nat, t: Token)
    requires KeysInOrder(keys, parsed, stream) && keys != [] && n <= |stream|
    requires forall i :: 0 <= i < |keys| - 1 && keys[i].possible ==> keys[i].number < n
    requires !keys[|keys| - 1].possible
    ensures KeysInOrder(keys, parsed, Insert(stream, n, t))
  {
    var longer := Insert(stream, n, t);
    forall i | 0 <= i < |keys| && keys[i].possible ensures longer[keys[i].number] == stream[keys[i].number] {
      var k := keys[i].number;
      assert longer[..n][k] == stream[..n][k];
    }
  }

  lemma KeysForget(keys: seq<SimpleKey>, parsed: nat, stream: seq<Token>, i: nat)
    requires KeysInOrder(keys, parsed, stream) && i < |keys|
    ensures KeysInOrder(keys[i := keys[i].(possible := false)], parsed, stream)
  {
    hide StartsKey;
  }

  lemma KeysPush(keys: seq<SimpleKey>, parsed: nat, stream: seq<Token>)
    requires KeysInOrder(keys, parsed, stream)
    ensures KeysInOrder(keys + [NO_KEY], parsed, stream)
  {
    hide StartsKey;
  }

  lemma KeysPop(keys: seq<SimpleKey>, parsed: nat, stream: seq<Token>)
    requires KeysInOrder(keys, parsed, stream) && keys != []
    ensures KeysInOrder(keys[..|keys| - 1], parsed, stream)
  {
    hide StartsKey;
  }

  lemma KeysLater(keys: seq<SimpleKey>, parsed: nat, stream: seq<Token>)
    requires KeysInOrder(keys, parsed, stream)
    requires forall i :: 0 <= i < |keys| && keys[i].possible ==> keys[i].number != parsed
    ensures KeysInOrder(keys, parsed + 1, stream)
  {
    hide StartsKey;
  }

  lemma RisingPush(levels: seq<int>, column: int)
    requires Rising(levels) && levels[|levels| - 1] < column
    ensures Rising(levels + [column])
  {
  }

  lemma NeverNegativePrefix(stream: seq<Token>, n: nat)
    requires NeverNegative(stream) && n <= |stream|
    ensures NeverNegative(stream[..n])
  {
    hide Depth;
    forall k | 0 <= k <= n ensures Depth(stream[..n][..k]) >= 0 {
      assert stream[..n][..k] == stream[..k];
    }
  }

  // ----- what the stream says

  lemma SayAppend(stream: seq<Token>, t: Token)
    ensures TokensSay(stream + [t]) == TokensSay(stream) + TokenItems(t)
  {
    assert (stream + [t])[..|stream|] == stream;
  }

  lemma {:induction false} SayPrefix(stream: seq<Token>, n: nat)
    requires n <= |stream|
    ensures TokensSay(stream[..n]) <= TokensSay(stream)
    decreases |stream|
  {
    if n == |stream| {
      assert stream[..n] == stream;
    } else {
      SayPrefix(stream[..|stream| - 1], n);
      assert stream[..|stream| - 1][..n] == stream[..n];
    }
  }
}
