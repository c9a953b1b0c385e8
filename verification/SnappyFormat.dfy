/** The Snappy block format as a function on byte sequences: what a run of chunks means. */
module SnappyFormat {
  import opened Bytes
  import opened Sequences

  /** A chunk: bytes given outright, or `length` bytes copied from `offset` bytes ago. */
  datatype Op = Literal(text: seq<byte>) | Copy(offset: nat, length: nat)

  /** A chunk together with the number of bytes that encode it. */
  datatype Chunk = Chunk(op: Op, size: nat)

  const MAX_BLOCK_SIZE := 65536

  /** Bytes taken by the tag byte and the length or offset bytes that follow it. */
  function HeaderSize(tag: byte): nat {
    if tag % 4 == 0 then (if tag / 4 < 60 then 1 else tag / 4 - 58)
    else if tag % 4 == 1 then 2
    else if tag % 4 == 2 then 3
    else 5
  }

  /** The number of literal bytes announced by a literal tag and the bytes after it. */
  function LiteralLength(src: seq<byte>): nat
    requires src != [] && HeaderSize(src[0]) <= |src|
  {
    1 + if src[0] / 4 < 60 then src[0] / 4 else LittleEndian(src[1..HeaderSize(src[0])])
  }

  /** The first chunk of `src`, when all its bytes are there. */
  function ReadChunk(src: seq<byte>): (r: Option<Chunk>)
    requires src != []
    ensures r.Some? ==> 0 < r.value.size <= |src|
    ensures r.Some? && r.value.op.Copy? ==> 1 <= r.value.op.length <= 64
  {
    var l, m, h := src[0] % 4, src[0] / 4, HeaderSize(src[0]);
    if h > |src| then None
    else if l == 0 then
      var length := LiteralLength(src);
      if h + length > |src| then None else Some(Chunk(Literal(src[h..h + length]), h + length))
    else if l == 1 then Some(Chunk(Copy(Uint16(src[1], m / 8), 4 + m % 8), h))
    else Some(Chunk(Copy(LittleEndian(src[1..h]), 1 + m), h))
  }

  /** Copies one byte at a time, so that the copy may read bytes it has itself produced. */
  function ForwardCopy(out: seq<byte>, offset: nat, length: nat): (r: seq<byte>)
    requires 1 <= offset <= |out|
    ensures |r| == |out| + length && out <= r
    decreases length
  {
    if length == 0 then out
    else ForwardCopy(out + [out[|out| - offset]], offset, length - 1)
  }

  /** The text after one more chunk, or None for a copy that reaches before the start. */
  function Apply(op: Op, out: seq<byte>): (r: Option<seq<byte>>)
    ensures r.Some? ==> out <= r.value
  {
    match op
    case Literal(text) => Some(out + text)
    case Copy(offset, length) =>
      if 1 <= offset <= |out| then Some(ForwardCopy(out, offset, length)) else None
  }

  /** The text that the chunks `src` produce after the text `out`. */
  function Expand(src: seq<byte>, out: seq<byte>): (r: Option<seq<byte>>)
    ensures r.Some? ==> out <= r.value
    decreases |src|
  {
    if src == [] then Some(out)
    else
      match ReadChunk(src)
      case None => None
      case Some(chunk) =>
        match Apply(chunk.op, out)
        case None => None
        case Some(text) => Expand(src[chunk.size..], text)
  }

  // ----- composition

  /** Chunks are self-delimiting: what follows a chunk does not change how it is read. */
  lemma ReadChunkPrefix(a: seq<byte>, b: seq<byte>)
    requires a != [] && ReadChunk(a).Some?
    ensures ReadChunk(a + b) == ReadChunk(a)
  {
    var h := HeaderSize(a[0]);
    assert (a + b)[1..h] == a[1..h];
    var chunk := ReadChunk(a).value;
    if chunk.op.Literal? {
      assert (a + b)[h..chunk.size] == a[h..chunk.size];
    }
  }

  // ----- the forms that the encoder never writes

  /** A literal whose length takes `k` bytes of its own, whether or not fewer would do. */
  lemma LongLiteral(text: seq<byte>, k: nat, tag: byte, rest: seq<byte>)
    requires 1 <= k <= 4 && 1 <= |text| <= Pow256(k) && tag == 4 * (59 + k)
    ensures ReadChunk([tag] + ToLittleEndian(|text| - 1, k) + text + rest) == Some(Chunk(Literal(text), 1 + k + |text|))
  {
    hide LittleEndian, ToLittleEndian, Pow256, ReadChunk, HeaderSize, LiteralLength;
    LittleEndianRoundTrip(|text| - 1, k);
    SpelledLiteral(text, ToLittleEndian(|text| - 1, k), tag, rest);
  }

  lemma SpelledLiteral(text: seq<byte>, n: seq<byte>, tag: byte, rest: seq<byte>)
    requires 1 <= |n| <= 4 && LittleEndian(n) + 1 == |text| && tag == 4 * (59 + |n|)
    ensures ReadChunk([tag] + n + text + rest) == Some(Chunk(Literal(text), 1 + |n| + |text|))
  {
    hide LittleEndian, ReadChunk, HeaderSize, LiteralLength;
    LiteralPieces(tag, n, text, rest);
    ReadLiteral([tag] + n + text + rest, |n|, |text|);
  }

  lemma LiteralPieces(tag: byte, n: seq<byte>, text: seq<byte>, rest: seq<byte>)
    ensures var src := [tag] + n + text + rest;
      && |src| >= 1 + |n| + |text| && src[0] == tag && src[1..1 + |n|] == n && src[1 + |n|..1 + |n| + |text|] == text
  {
    Cut([tag], n, text, rest);
  }

  lemma ReadLiteral(src: seq<byte>, k: nat, n: nat)
    requires 1 <= k <= 4 && src != [] && src[0] == 4 * (59 + k) && 1 + k + n <= |src| && n == LittleEndian(src[1..1 + k]) + 1
    ensures ReadChunk(src) == Some(Chunk(Literal(src[1 + k..1 + k + n]), 1 + k + n))
  {
    hide LittleEndian;
    LongTag(k);
  }

  lemma LongTag(k: nat)
    requires 1 <= k <= 4
    ensures var tag := 4 * (59 + k); tag % 4 == 0 && tag / 4 == 59 + k && HeaderSize(tag) == 1 + k
  {
  }

  /** A copy with a four-byte offset. */
  lemma Copy4(offset: nat, length: nat, rest: seq<byte>)
    requires offset < Pow256(4) && 1 <= length <= 64
    ensures ReadChunk([4 * (length - 1) + 3] + ToLittleEndian(offset, 4) + rest) == Some(Chunk(Copy(offset, length), 5))
  {
    hide LittleEndian, ToLittleEndian, Pow256;
    var tag, n := 4 * (length - 1) + 3, ToLittleEndian(offset, 4);
    LittleEndianRoundTrip(offset, 4);
    Cut([tag], n, rest, []);
    AddNothing([tag] + n + rest);
    assert tag / 4 == length - 1 && tag % 4 == 3;
  }

  lemma ExpandNothing(out: seq<byte>)
    ensures Expand([], out) == Some(out)
  {
  }

  /** The first chunk, then the rest. */
  lemma ExpandStep(src: seq<byte>, out: seq<byte>)
    requires src != []
    ensures Expand(src, out) ==
            var chunk := ReadChunk(src);
            if chunk.None? then None else
            var out' := Apply(chunk.value.op, out);
            if out'.None? then None else Expand(src[chunk.value.size..], out'.value)
  {
    hide ReadChunk, Apply;
  }

  /** Two runs of chunks, one after the other, mean the second applied to the text of the first. */
  lemma {:induction false} ExpandConcat(a: seq<byte>, b: seq<byte>, out: seq<byte>)
    requires Expand(a, out).Some?
    ensures Expand(a + b, out) == Expand(b, Expand(a, out).value)
    decreases |a|
  {
    hide ReadChunk, Apply, Expand;
    if a == [] {
      assert a + b == b;
      ExpandNothing(out);
    } else {
      ExpandStep(a, out);
      ReadChunkPrefix(a, b);
      ExpandStep(a + b, out);
      var chunk := ReadChunk(a).value;
      assert (a + b)[chunk.size..] == a[chunk.size..] + b;
      ExpandConcat(a[chunk.size..], b, Apply(chunk.op, out).value);
    }
  }

  /** A single chunk means its own operation. */
  lemma ExpandSingle(src: seq<byte>, op: Op, out: seq<byte>)
    requires src != [] && ReadChunk(src) == Some(Chunk(op, |src|))
    ensures Expand(src, out) == Apply(op, out)
  {
    assert src[|src|..] == [];
  }

  // ----- forward copies

  /** A copy of `m + n` bytes is a copy of `m` bytes followed by one of `n`. */
  lemma {:induction false} ForwardCopySplit(out: seq<byte>, offset: nat, m: nat, n: nat)
    requires 1 <= offset <= |out|
    ensures ForwardCopy(ForwardCopy(out, offset, m), offset, n) == ForwardCopy(out, offset, m + n)
    decreases m
  {
    if m > 0 {
      ForwardCopySplit(out + [out[|out| - offset]], offset, m - 1, n);
    }
  }

  /** A copy that ends before its own start copies a slice of the old text. */
  lemma {:induction false} ForwardCopyDisjoint(out: seq<byte>, offset: nat, length: nat)
    requires length <= offset && 1 <= offset <= |out|
    ensures ForwardCopy(out, offset, length) == out + out[|out| - offset..|out| - offset + length]
  {
    if length > 0 {
      var n := length - 1;
      ForwardCopyDisjoint(out, offset, n);
      ForwardCopySplit(out, offset, n, 1);
      var mid := ForwardCopy(out, offset, n);
      assert ForwardCopy(mid, offset, 1) == mid + [mid[|mid| - offset]];
      assert mid[|mid| - offset] == out[|out| - offset + n];
    }
  }

  /** Copying from a true match rebuilds the text, also where source and destination overlap. */
  lemma {:induction false} ForwardCopyMatch(pre: seq<byte>, text: seq<byte>, from: nat, base: nat, end: nat)
    requires from < base <= end <= |text|
    requires forall k :: base <= k < end ==> text[k] == text[k - (base - from)]
    ensures ForwardCopy(pre + text[..base], base - from, end - base) == pre + text[..end]
    decreases end - base
  {
    if base < end {
      var out := pre + text[..base];
      assert out[|out| - (base - from)] == text[base];
      assert out + [text[base]] == pre + text[..base + 1];
      ForwardCopyMatch(pre, text, from + 1, base + 1, end);
    }
  }
}
