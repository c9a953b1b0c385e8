/** The block decoder: the in-place chunk interpreter and the length header in front of it. */
module SnappyDecode {
  import opened Bytes
  import opened SnappyFormat

  /** Bits of an `int` on the target platform. */
  datatype WordSize = W32 | W64

  function MaxInt(word: WordSize): nat {
    if word.W32? then 0x7fff_ffff else 0x7fff_ffff_ffff_ffff
  }

  /** An `int` obtained from an unsigned value of at most 33 bits, wrapping on 32-bit platforms. */
  function ToInt(word: WordSize, v: nat): int
    requires v <= 0x1_0000_0000
  {
    if word.W64? || v <= 0x7fff_ffff then v else v - 0x1_0000_0000
  }

  const CORRUPT := 1
  const UNSUPPORTED_LITERAL_LENGTH := 2

  /** Continuing with the chunks `src` after the text `out` ends with exactly `n` bytes. */
  predicate Completes(src: seq<byte>, out: seq<byte>, n: nat) {
    var r := Expand(src, out);
    r.Some? && |r.value| == n
  }

  /** Moves `length` bytes inside `dst` as if through a temporary buffer. */
  method CopyWithin(dst: array<byte>, to: nat, from: nat, length: nat)
    requires from + length <= dst.Length && to + length <= dst.Length
    modifies dst
    ensures dst[..] == old(dst[..to] + dst[from..from + length] + dst[to + length..])
  {
    forall i | 0 <= i < length {
      dst[to + i] := dst[from + i];
    }
  }

  /** Copies forwards one byte at a time, reading bytes written earlier in the same copy. */
  method CopyForwards(dst: array<byte>, d: nat, offset: nat, length: nat)
    requires 1 <= offset <= d && d + length <= dst.Length
    modifies dst
    ensures dst[..d + length] == ForwardCopy(old(dst[..d]), offset, length)
    ensures dst[d + length..] == old(dst[d + length..])
  {
    var i := 0;
    ghost var out := dst[..d];
    while i < length
      invariant i <= length
      invariant dst[..d + i] == ForwardCopy(out, offset, i)
      invariant dst[d + length..] == old(dst[d + length..])
    {
      ghost var mid := dst[..d + i];
      dst[d + i] := dst[d - offset + i];
      ForwardCopySplit(out, offset, i, 1);
      assert ForwardCopy(mid, offset, 1) == mid + [mid[|mid| - offset]];
      assert dst[..d + i + 1] == mid + [mid[|mid| - offset]];
      i := i + 1;
    }
  }

  /** The copy of a copy chunk: a block move when the two ranges are apart, else byte by byte. */
  method CopyBack(dst: array<byte>, d: nat, offset: nat, length: nat)
    requires 1 <= offset <= d && d + length <= dst.Length
    modifies dst
    ensures dst[..d + length] == ForwardCopy(old(dst[..d]), offset, length)
    ensures dst[d + length..] == old(dst[d + length..])
  {
    if offset >= length {
      ghost var out := dst[..d];
      CopyWithin(dst, d, d - offset, length);
      ForwardCopyDisjoint(out, offset, length);
      assert dst[..d + length] == out + out[d - offset..d - offset + length];
    } else {
      CopyForwards(dst, d, offset, length);
    }
  }

  /** The literal length announced at `src[s]`, and the position of the literal's first byte. */
  method LiteralHeader(src: seq<byte>, s: nat) returns (ok: bool, x: nat, s': nat)
    requires s < |src| && src[s] % 4 == 0
    ensures s' == s + HeaderSize(src[s])
    ensures ok <==> s' <= |src|
    ensures ok ==> x < 0x1_0000_0000
    ensures ok ==> x + 1 == LiteralLength(src[s..])
  {
    x := src[s] / 4;
    if x < 60 {
      s' := s + 1;
    } else if x == 60 {
      s' := s + 2;
      if s' > |src| { return false, x, s'; }
      LittleEndian1(src[s' - 1]);
      assert src[s..][1..2] == [src[s' - 1]];
      x := src[s' - 1];
    } else if x == 61 {
      s' := s + 3;
      if s' > |src| { return false, x, s'; }
      LittleEndian2(src[s' - 2], src[s' - 1]);
      assert src[s..][1..3] == [src[s' - 2], src[s' - 1]];
      x := Uint16(src[s' - 2], src[s' - 1]);
    } else if x == 62 {
      s' := s + 4;
      if s' > |src| { return false, x, s'; }
      LittleEndian3(src[s' - 3], src[s' - 2], src[s' - 1]);
      assert src[s..][1..4] == [src[s' - 3], src[s' - 2], src[s' - 1]];
      x := Uint24(src[s' - 3], src[s' - 2], src[s' - 1]);
    } else {
      s' := s + 5;
      if s' > |src| { return false, x, s'; }
      LittleEndian4(src[s' - 4], src[s' - 3], src[s' - 2], src[s' - 1]);
      assert src[s..][1..5] == [src[s' - 4], src[s' - 3], src[s' - 2], src[s' - 1]];
      x := Uint32(src[s' - 4], src[s' - 3], src[s' - 2], src[s' - 1]);
    }
    ok := true;
  }

  /** Offset and length of the copy chunk at `src[s]`, and the position after it. */
  method CopyHeader(src: seq<byte>, s: nat) returns (ok: bool, offset: nat, length: nat, s': nat)
    requires s < |src| && src[s] % 4 != 0
    ensures ok <==> ReadChunk(src[s..]).Some?
    ensures ok ==> s < s' <= |src| && offset < 0x1_0000_0000
    ensures ok ==> ReadChunk(src[s..]) == Some(Chunk(Copy(offset, length), s' - s))
  {
    hide LittleEndian;
    ok, offset, length := true, 0, 0;
    if src[s] % 4 == 1 {
      s' := s + 2;
      if s' > |src| { return false, 0, 0, s'; }
      length := 4 + src[s' - 2] / 4 % 8;
      offset := Uint16(src[s' - 1], src[s' - 2] / 32);
    } else if src[s] % 4 == 2 {
      s' := s + 3;
      if s' > |src| { return false, 0, 0, s'; }
      length := 1 + src[s' - 3] / 4;
      offset := Uint16(src[s' - 2], src[s' - 1]);
      LittleEndian2(src[s' - 2], src[s' - 1]);
      assert src[s..][1..3] == [src[s' - 2], src[s' - 1]];
    } else {
      s' := s + 5;
      if s' > |src| { return false, 0, 0, s'; }
      length := 1 + src[s' - 5] / 4;
      offset := Uint32(src[s' - 4], src[s' - 3], src[s' - 2], src[s' - 1]);
      LittleEndian4(src[s' - 4], src[s' - 3], src[s' - 2], src[s' - 1]);
      assert src[s..][1..5] == [src[s' - 4], src[s' - 3], src[s' - 2], src[s' - 1]];
    }
  }

  /** A literal chunk with missing bytes has no meaning. */
  lemma LiteralCutShort(src: seq<byte>, out: seq<byte>)
    requires src != [] && src[0] % 4 == 0
    requires HeaderSize(src[0]) > |src| || HeaderSize(src[0]) + LiteralLength(src) > |src|
    ensures Expand(src, out) == None
  {
  }

  /** A complete literal chunk contributes the bytes behind its header. */
  lemma ExpandLiteral(src: seq<byte>, out: seq<byte>, h: nat, end: nat)
    requires src != [] && src[0] % 4 == 0
    requires h == HeaderSize(src[0]) <= |src| && end == h + LiteralLength(src) <= |src|
    ensures Expand(src, out) == Expand(src[end..], out + src[h..end])
  {
    assert ReadChunk(src) == Some(Chunk(Literal(src[h..end]), end));
    hide ReadChunk, HeaderSize, LiteralLength;
  }

  /** The literal chunk at `src[s..s']` contributes `src[s1..s']`. */
  lemma LiteralAt(src: seq<byte>, out: seq<byte>, s: nat, s1: nat, s': nat)
    requires s < s1 <= s' <= |src| && src[s] % 4 == 0
    requires s1 == s + HeaderSize(src[s]) && s' == s1 + LiteralLength(src[s..])
    ensures Expand(src[s..], out) == Expand(src[s'..], out + src[s1..s'])
  {
    hide Expand, LiteralLength;
    var tail := src[s..];
    ExpandLiteral(tail, out, s1 - s, s' - s);
    assert tail[s1 - s..s' - s] == src[s1..s'];
    assert tail[s' - s..] == src[s'..];
  }

  /** One literal chunk. */
  method DecodeLiteral(dst: array<byte>, n: nat, d: nat, src: seq<byte>, s: nat, word: WordSize)
    returns (code: nat, d': nat, s': nat)
    requires |src| <= MaxInt(word) && n <= MaxInt(word) && n <= dst.Length
    requires s < |src| && d <= n && src[s] % 4 == 0
    modifies dst
    ensures dst[n..] == old(dst[n..])
    ensures code == 0 || code == CORRUPT || (code == UNSUPPORTED_LITERAL_LENGTH && word.W32?)
    ensures code == 0 ==> d' <= n && s < s' <= |src|
    ensures code == 0 ==> Expand(src[s'..], dst[..d']) == Expand(src[s..], old(dst[..d]))
    ensures code != 0 ==> !Completes(src[s..], old(dst[..d]), n)
  {
    hide Expand, LiteralLength;
    ghost var out := dst[..d];
    var ok, x, s1 := LiteralHeader(src, s);
    if !ok {
      LiteralCutShort(src[s..], out);
      return CORRUPT, d, s;
    }
    var length := ToInt(word, x + 1);
    if x + 1 > |src| - s1 {
      LiteralCutShort(src[s..], out);
    } else {
      LiteralAt(src, out, s, s1, s1 + x + 1);
    }
    if length <= 0 { return UNSUPPORTED_LITERAL_LENGTH, d, s; }
    if length > n - d || length > |src| - s1 { return CORRUPT, d, s; }
    CopyInto(dst, d, src[s1..s1 + length]);
    return 0, d + length, s1 + length;
  }

  /** What a copy chunk contributes. */
  lemma ExpandCopy(src: seq<byte>, out: seq<byte>, offset: nat, length: nat, size: nat)
    requires src != [] && ReadChunk(src) == Some(Chunk(Copy(offset, length), size))
    ensures Expand(src, out) ==
            if 1 <= offset <= |out| then Expand(src[size..], ForwardCopy(out, offset, length)) else None
  {
  }

  /** One copy chunk. */
  method DecodeCopy(dst: array<byte>, n: nat, d: nat, src: seq<byte>, s: nat, word: WordSize)
    returns (code: nat, d': nat, s': nat)
    requires |src| <= MaxInt(word) && n <= MaxInt(word) && n <= dst.Length
    requires s < |src| && d <= n && src[s] % 4 != 0
    modifies dst
    ensures dst[n..] == old(dst[n..])
    ensures code == 0 || code == CORRUPT
    ensures code == 0 ==> d' <= n && s < s' <= |src|
    ensures code == 0 ==> Expand(src[s'..], dst[..d']) == Expand(src[s..], old(dst[..d]))
    ensures code != 0 ==> !Completes(src[s..], old(dst[..d]), n)
  {
    ghost var tail, out := src[s..], dst[..d];
    var ok, offset, length, s1 := CopyHeader(src, s);
    if !ok { return CORRUPT, d, s; }
    ExpandCopy(tail, out, offset, length, s1 - s);
    if ToInt(word, offset) <= 0 || d < ToInt(word, offset) || length > n - d { return CORRUPT, d, s; }
    CopyBack(dst, d, offset, length);
    code, d', s' := 0, d + length, s1;
    assert dst[..d'] == ForwardCopy(out, offset, length);
    assert tail[s' - s..] == src[s'..];
  }

  /** Interprets the chunks `src` into the slice `dst[..n]`. It succeeds on exactly the runs of chunks
      that produce `n` bytes, the slice then holds what they mean, and no byte outside it changes. */
  method DecodeChunks(dst: array<byte>, n: nat, src: seq<byte>, word: WordSize) returns (code: nat)
    requires |src| <= MaxInt(word) && n <= MaxInt(word) && n <= dst.Length
    modifies dst
    ensures code == 0 || code == CORRUPT || (code == UNSUPPORTED_LITERAL_LENGTH && word.W32?)
    ensures code == 0 <==> Completes(src, [], n)
    ensures code == 0 ==> Expand(src, []) == Some(dst[..n])
    ensures dst[n..] == old(dst[n..])
  {
    var d: nat, s: nat := 0, 0;
    assert src[0..] == src && dst[..0] == [];
    while s < |src|
      invariant s <= |src| && d <= n
      invariant Expand(src[s..], dst[..d]) == Expand(src, [])
      invariant dst[n..] == old(dst[n..])
      decreases |src| - s
    {
      if src[s] % 4 == 0 {
        code, d, s := DecodeLiteral(dst, n, d, src, s, word);
      } else {
        code, d, s := DecodeCopy(dst, n, d, src, s, word);
      }
      if code != 0 { return code; }
    }
    assert src[s..] == [];
    if d != n { return CORRUPT; }
    return 0;
  }

  // ----- the length header

  /** A decoded varint and the number of bytes it took. */
  datatype Varint = Varint(value: nat, size: nat)

  /** Reads a base-128 number, the `i` bytes before `src` having been read already. Ten bytes are the
      most a 64-bit number takes, and the tenth may only add its lowest bit. */
  function ReadUvarint(src: seq<byte>, i: nat): (r: Option<Varint>)
    ensures r.Some? ==> 0 < r.value.size <= |src|
  {
    if src == [] then None
    else if src[0] < 128 then
      if i > 9 || (i == 9 && src[0] > 1) then None else Some(Varint(src[0], 1))
    else
      match ReadUvarint(src[1..], i + 1)
      case None => None
      case Some(rest) => Some(Varint(src[0] - 128 + 128 * rest.value, 1 + rest.size))
  }

  /** The base-128 bytes of `v`, least significant first. */
  function PutUvarint(v: nat): (b: seq<byte>)
    ensures b != []
  {
    if v < 128 then [v] else [v % 128 + 128] + PutUvarint(v / 128)
  }

  lemma PutUvarintSize(v: nat)
    requires v <= 0xffff_ffff
    ensures |PutUvarint(v)| <= 5
  {
    assert v / 128 / 128 / 128 / 128 < 128;
    assert |PutUvarint(v / 128 / 128 / 128 / 128)| == 1;
    assert |PutUvarint(v / 128 / 128 / 128)| <= 2;
    assert |PutUvarint(v / 128 / 128)| <= 3;
    assert |PutUvarint(v / 128)| <= 4;
  }

  /** The header is read back whatever follows it. */
  lemma {:induction false} UvarintRoundTrip(v: nat, rest: seq<byte>, i: nat)
    requires i + |PutUvarint(v)| <= 9
    ensures ReadUvarint(PutUvarint(v) + rest, i) == Some(Varint(v, |PutUvarint(v)|))
    decreases v
  {
    if v >= 128 {
      UvarintRoundTrip(v / 128, rest, i + 1);
      assert (PutUvarint(v) + rest)[1..] == PutUvarint(v / 128) + rest;
    }
  }

  // ----- the header as it is written

  function Pow128(n: nat): (p: nat)
    ensures p > 0
  {
    if n == 0 then 1 else 128 * Pow128(n - 1)
  }

  /** The low seven bits of each byte, the last byte counting most. */
  function Base128(b: seq<byte>): nat {
    if b == [] then 0 else Base128(b[..|b| - 1]) + (b[|b| - 1] % 128) * Pow128(|b| - 1)
  }

  lemma {:induction false} Base128First(b: seq<byte>)
    requires b != []
    ensures Base128(b) == b[0] % 128 + 128 * Base128(b[1..])
    decreases |b|
  {
    var n := |b| - 1;
    if n == 0 {
      assert b[..0] == [] && b[1..] == [] && Pow128(0) == 1;
    } else {
      var init, last := b[..n], b[n] % 128;
      Base128First(init);
      assert init[1..] == b[1..][..n - 1] && b[1..][n - 1] == b[n];
      assert Base128(b[1..]) == Base128(b[1..][..n - 1]) + last * Pow128(n - 1);
      Scaled(last, Pow128(n - 1));
    }
  }

  lemma Scaled(x: nat, p: nat)
    ensures x * (128 * p) == 128 * (x * p)
  {
  }

  /** The high bit of a byte tells whether another follows; the value is read in base 128, and must fit 64 bits. */
  lemma {:induction false} UvarintExact(b: seq<byte>, rest: seq<byte>, i: nat)
    requires b != [] && b[|b| - 1] < 128 && forall k :: 0 <= k < |b| - 1 ==> b[k] >= 128
    ensures ReadUvarint(b + rest, i) ==
      if i + |b| < 10 || (i + |b| == 10 && b[|b| - 1] <= 1) then Some(Varint(Base128(b), |b|)) else None
    decreases |b|
  {
    Base128First(b);
    if |b| == 1 {
      assert Base128(b[1..]) == 0;
    } else {
      assert (b + rest)[1..] == b[1..] + rest;
      UvarintExact(b[1..], rest, i + 1);
    }
  }

  /** Without a last byte there is no value. */
  lemma {:induction false} UvarintUnfinished(b: seq<byte>, i: nat)
    requires forall k :: 0 <= k < |b| ==> b[k] >= 128
    ensures ReadUvarint(b, i) == None
  {
    if b != [] { UvarintUnfinished(b[1..], i + 1); }
  }

  datatype Error = Corrupt | TooLarge | UnsupportedLiteralLength

  datatype Result<+T> = Ok(value: T) | Err(error: Error)

  /** The announced length of the decoded block and the size of the header announcing it. */
  function DecodedLen(src: seq<byte>, word: WordSize): (r: Result<Varint>)
    ensures r.Ok? ==> r.value.size <= |src| && r.value.value <= MaxInt(word)
  {
    match ReadUvarint(src, 0)
    case None => Err(Corrupt)
    case Some(header) =>
      if header.value > 0xffff_ffff then Err(Corrupt)
      else if word.W32? && header.value > 0x7fff_ffff then Err(TooLarge)
      else Ok(header)
  }

  /** Which lengths may be announced. */
  lemma AnnouncedLength(v: nat, rest: seq<byte>, word: WordSize)
    requires |PutUvarint(v)| <= 9
    ensures DecodedLen(PutUvarint(v) + rest, word) ==
      if v > 4_294_967_295 then Err(Corrupt)
      else if word.W32? && v > 2_147_483_647 then Err(TooLarge)
      else Ok(Varint(v, |PutUvarint(v)|))
  {
    UvarintRoundTrip(v, rest, 0);
  }

  /** `src` is an encoded block and `text` is what it encodes. */
  predicate Encodes(src: seq<byte>, text: seq<byte>, word: WordSize) {
    var header := DecodedLen(src, word);
    && header.Ok?
    && header.value.value == |text|
    && Expand(src[header.value.size..], []) == Some(text)
  }

  /** Decodes a whole block, into `dst` if it is long enough and into a new buffer otherwise. */
  method Decode(dst: array<byte>, src: seq<byte>, word: WordSize) returns (r: Result<array<byte>>, n: nat)
    requires |src| <= MaxInt(word)
    modifies dst
    ensures r.Ok? ==> (r.value == dst || fresh(r.value)) && n <= r.value.Length
    ensures r.Ok? ==> (r.value == dst <==> n <= dst.Length)
    ensures r.Ok? ==> Encodes(src, r.value[..n], word)
    ensures r.Err? ==> forall text :: !Encodes(src, text, word)
    ensures r.Err? && r.error == UnsupportedLiteralLength ==> word.W32?
    ensures r.Ok? && r.value == dst ==> dst[n..] == old(dst[n..])
  {
    var header := DecodedLen(src, word);
    if header.Err? { return Err(header.error), 0; }
    n := header.value.value;
    var buf := dst;
    if n > dst.Length {
      buf := new byte[n];
    }
    var code := DecodeChunks(buf, n, src[header.value.size..], word);
    if code == 0 { return Ok(buf), n; }
    if code == UNSUPPORTED_LITERAL_LENGTH { return Err(UnsupportedLiteralLength), 0; }
    return Err(Corrupt), 0;
  }
}
