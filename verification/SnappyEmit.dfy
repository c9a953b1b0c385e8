/** The chunk emitters: what bytes they write, what those bytes mean, and how many there are. */
module SnappyEmit {
  import opened Bytes
  import opened Sequences
  import opened SnappyFormat

  // ----- literals

  /** The literal chunk for `lit`: one, two or three header bytes, then the text itself. */
  function LiteralChunk(lit: seq<byte>): seq<byte>
    requires 1 <= |lit| <= MAX_BLOCK_SIZE
  {
    var n := |lit| - 1;
    (if n < 60 then [4 * n] else if n < 256 then [240, n] else [244, n % 256, n / 256]) + lit
  }

  lemma LiteralChunkMeaning(lit: seq<byte>, out: seq<byte>)
    requires 1 <= |lit| <= MAX_BLOCK_SIZE
    ensures Expand(LiteralChunk(lit), out) == Some(out + lit)
  {
    hide Expand, ForwardCopy;
    var n, c := |lit| - 1, LiteralChunk(lit);
    var h := HeaderSize(c[0]);
    if 60 <= n < 256 {
      assert c[1..h] == [n];
      LittleEndian1(n);
    } else if 256 <= n {
      assert c[1..h] == [n % 256, n / 256];
      LittleEndian2(n % 256, n / 256);
    }
    assert c[h..] == lit && c[h..|c|] == lit;
    ExpandSingle(c, Literal(lit), out);
  }

  method EmitLiteral(dst: array<byte>, d: nat, lit: seq<byte>) returns (d': nat)
    requires 1 <= |lit| <= MAX_BLOCK_SIZE
    requires d + |LiteralChunk(lit)| <= dst.Length
    modifies dst
    ensures d' == d + |LiteralChunk(lit)|
    ensures dst[..d'] == old(dst[..d]) + LiteralChunk(lit)
    ensures dst[d'..] == old(dst[d'..])
  {
    var n := |lit| - 1;
    var i: nat;
    ghost var was := dst[..];
    if n < 60 {
      dst[d] := 4 * n;
      i := 1;
    } else if n < 256 {
      dst[d], dst[d + 1] := 240, n;
      i := 2;
    } else {
      dst[d], dst[d + 1], dst[d + 2] := 244, n % 256, n / 256;
      i := 3;
    }
    assert dst[..d + i] == was[..d] + LiteralChunk(lit)[..i];
    CopyInto(dst, d + i, lit);
    d' := d + i + |lit|;
  }

  // ----- copies

  /** A copy chunk of up to 64 bytes with a two-byte offset. */
  function Copy2Chunk(offset: nat, length: nat): (c: seq<byte>)
    requires offset < 65536 && 1 <= length <= 64
    ensures |c| == 3
  {
    [4 * (length - 1) + 2, offset % 256, offset / 256]
  }

  /** A copy chunk of four to eleven bytes with an eleven-bit offset. */
  function Copy1Chunk(offset: nat, length: nat): (c: seq<byte>)
    requires offset < 2048 && 4 <= length < 12
    ensures |c| == 2
  {
    [offset / 256 * 32 + 4 * (length - 4) + 1, offset % 256]
  }

  /** The chunks written for one match of any length. */
  function CopyChunks(offset: nat, length: nat): seq<byte>
    requires offset < 65536 && 4 <= length
    decreases length
  {
    if length >= 68 then Copy2Chunk(offset, 64) + CopyChunks(offset, length - 64)
    else if length > 64 then Copy2Chunk(offset, 60) + CopyChunks(offset, length - 60)
    else if length >= 12 || offset >= 2048 then Copy2Chunk(offset, length)
    else Copy1Chunk(offset, length)
  }

  lemma Copy2Meaning(offset: nat, length: nat, out: seq<byte>)
    requires 1 <= offset < 65536 && offset <= |out| && 1 <= length <= 64
    ensures Expand(Copy2Chunk(offset, length), out) == Some(ForwardCopy(out, offset, length))
  {
    hide Expand, ForwardCopy;
    var c := Copy2Chunk(offset, length);
    assert c[1..3] == [offset % 256, offset / 256];
    LittleEndian2(offset % 256, offset / 256);
    ExpandSingle(c, Copy(offset, length), out);
  }

  lemma Copy1Meaning(offset: nat, length: nat, out: seq<byte>)
    requires 1 <= offset < 2048 && offset <= |out| && 4 <= length < 12
    ensures Expand(Copy1Chunk(offset, length), out) == Some(ForwardCopy(out, offset, length))
  {
    hide Expand, ForwardCopy;
    var c := Copy1Chunk(offset, length);
    var hi, k := offset / 256, length - 4;
    assert c[0] == 4 * (8 * hi + k) + 1;
    assert c[0] % 4 == 1 && c[0] / 4 == 8 * hi + k;
    assert (8 * hi + k) / 8 == hi && (8 * hi + k) % 8 == k;
    ExpandSingle(c, Copy(offset, length), out);
  }

  /** However a match is cut into pieces, the pieces rebuild the same bytes as one forward copy. */
  lemma {:induction false} CopyChunksMeaning(offset: nat, length: nat, out: seq<byte>)
    requires 1 <= offset < 65536 && offset <= |out| && 4 <= length
    ensures Expand(CopyChunks(offset, length), out) == Some(ForwardCopy(out, offset, length))
    decreases length
  {
    hide Expand, ForwardCopy, Copy1Chunk, Copy2Chunk;
    if length > 64 {
      var k := if length >= 68 then 64 else 60;
      Copy2Meaning(offset, k, out);
      var mid := ForwardCopy(out, offset, k);
      CopyChunksMeaning(offset, length - k, mid);
      ExpandConcat(Copy2Chunk(offset, k), CopyChunks(offset, length - k), out);
      ForwardCopySplit(out, offset, k, length - k);
    } else if length >= 12 || offset >= 2048 {
      Copy2Meaning(offset, length, out);
    } else {
      Copy1Meaning(offset, length, out);
    }
  }

  /** A match always takes fewer bytes than it stands for. */
  lemma {:induction false} CopyChunksShrink(offset: nat, length: nat)
    requires offset < 65536 && 4 <= length
    ensures |CopyChunks(offset, length)| < length
    decreases length
  {
    if length > 64 {
      CopyChunksShrink(offset, length - if length >= 68 then 64 else 60);
    }
  }

  /** Writes a copy chunk of `length` bytes with a two-byte offset. */
  method EmitCopy2(dst: array<byte>, d: nat, offset: nat, length: nat) returns (d': nat)
    requires offset < 65536 && 1 <= length <= 64
    requires d + 3 <= dst.Length
    modifies dst
    ensures d' == d + 3
    ensures dst[..d'] == old(dst[..d]) + Copy2Chunk(offset, length)
    ensures dst[d'..] == old(dst[d'..])
  {
    dst[d], dst[d + 1], dst[d + 2] := 4 * (length - 1) + 2, offset % 256, offset / 256;
    d' := d + 3;
  }

  /** Writes a copy chunk of `length` bytes with an eleven-bit offset. */
  method EmitCopy1(dst: array<byte>, d: nat, offset: nat, length: nat) returns (d': nat)
    requires offset < 2048 && 4 <= length < 12
    requires d + 2 <= dst.Length
    modifies dst
    ensures d' == d + 2
    ensures dst[..d'] == old(dst[..d]) + Copy1Chunk(offset, length)
    ensures dst[d'..] == old(dst[d'..])
  {
    dst[d], dst[d + 1] := offset / 256 * 32 + 4 * (length - 4) + 1, offset % 256;
    d' := d + 2;
  }

  method EmitCopy(dst: array<byte>, d: nat, offset: nat, length: nat) returns (d': nat)
    requires offset < 65536 && 4 <= length
    requires d + |CopyChunks(offset, length)| <= dst.Length
    modifies dst
    ensures d' == d + |CopyChunks(offset, length)|
    ensures dst[..d'] == old(dst[..d]) + CopyChunks(offset, length)
    ensures dst[d'..] == old(dst[d'..])
  {
    hide Copy1Chunk, Copy2Chunk, CopyChunks;
    ghost var whole, was, tail := CopyChunks(offset, length), dst[..d], dst[d + |CopyChunks(offset, length)|..];
    var left := length;
    d' := d;
    while left >= 68
      invariant 4 <= left && Remaining(dst, d', offset, left, was, whole, tail)
    {
      d' := EmitPiece(dst, d', offset, left, 64, was, whole, tail);
      left := left - 64;
    }
    if left > 64 {
      d' := EmitPiece(dst, d', offset, left, 60, was, whole, tail);
      left := left - 60;
    }
    LastPiece(offset, left);
    if left >= 12 || offset >= 2048 {
      d' := EmitCopy2(dst, d', offset, left);
    } else {
      d' := EmitCopy1(dst, d', offset, left);
    }
  }

  /** What has been written before `d`, with the chunks for what is left, is `was` with all the chunks. */
  ghost predicate Remaining(dst: array<byte>, d: nat, offset: nat, left: nat, was: seq<byte>, whole: seq<byte>, tail: seq<byte>)
    requires offset < 65536 && 4 <= left
    reads dst
  {
    var end := |was| + |whole|;
    && |was| <= d && d + |CopyChunks(offset, left)| == end <= dst.Length
    && dst[..d] + CopyChunks(offset, left) == was + whole && dst[end..] == tail
  }

  /** A piece that leaves at least four bytes. */
  method EmitPiece(dst: array<byte>, d: nat, offset: nat, left: nat, n: nat,
                   ghost was: seq<byte>, ghost whole: seq<byte>, ghost tail: seq<byte>) returns (d': nat)
    requires offset < 65536 && left > 64 && n == (if left >= 68 then 64 else 60)
    requires Remaining(dst, d, offset, left, was, whole, tail)
    modifies dst
    ensures Remaining(dst, d', offset, left - n, was, whole, tail)
  {
    hide Copy2Chunk, CopyChunks;
    FirstPiece(offset, left, n);
    ghost var end := |was| + |whole|;
    ghost var before, chunk, more := dst[..d], Copy2Chunk(offset, n), CopyChunks(offset, left - n);
    assert dst[d + 3..][end - (d + 3)..] == dst[end..];
    d' := EmitCopy2(dst, d, offset, n);
    Regroup(before, chunk, more);
    assert dst[d'..][end - d'..] == dst[end..];
  }

  lemma FirstPiece(offset: nat, left: nat, n: nat)
    requires offset < 65536 && left > 64 && n == (if left >= 68 then 64 else 60)
    ensures CopyChunks(offset, left) == Copy2Chunk(offset, n) + CopyChunks(offset, left - n)
  {
  }

  lemma LastPiece(offset: nat, left: nat)
    requires offset < 65536 && 4 <= left <= 64
    ensures CopyChunks(offset, left) ==
            if left >= 12 || offset >= 2048 then Copy2Chunk(offset, left) else Copy1Chunk(offset, left)
  {
  }
}
