/** The block encoder: match finding over a lossy hash table, and the loop over 64 KiB blocks. */
module SnappyEncode {
  import opened Bytes
  import opened SnappyFormat
  import opened SnappyEmit
  import opened SnappyDecode

  const INPUT_MARGIN := 15
  const MIN_NON_LITERAL_BLOCK_SIZE := 1 + 1 + INPUT_MARGIN
  const MAX_TABLE_SIZE := 16384

  // ----- what emitted bytes mean

  /** After any earlier text, the chunks `p` append exactly `text`. */
  ghost predicate Denotes(p: seq<byte>, text: seq<byte>) {
    forall pre :: Expand(p, pre) == Some(pre + text)
  }

  lemma DenotesNothing()
    ensures Denotes([], [])
  {
    forall pre: seq<byte> ensures Expand([], pre) == Some(pre + []) {
      assert pre + [] == pre;
    }
  }

  lemma DenotesAlone(p: seq<byte>, text: seq<byte>)
    requires Denotes(p, text)
    ensures Expand(p, []) == Some(text)
  {
    hide Expand;
    assert Expand(p, []) == Some([] + text);
    assert [] + text == text;
  }

  lemma DenotesConcat(p: seq<byte>, a: seq<byte>, q: seq<byte>, b: seq<byte>)
    requires Denotes(p, a) && Denotes(q, b)
    ensures Denotes(p + q, a + b)
  {
    hide Expand;
    forall pre ensures Expand(p + q, pre) == Some(pre + (a + b)) {
      ExpandConcat(p, q, pre);
      assert (pre + a) + b == pre + (a + b);
    }
  }

  lemma DenotesLiteral(p: seq<byte>, src: seq<byte>, from: nat, to: nat)
    requires from < to <= |src| <= MAX_BLOCK_SIZE
    requires Denotes(p, src[..from])
    ensures Denotes(p + LiteralChunk(src[from..to]), src[..to])
  {
    hide Expand;
    var lit := src[from..to];
    forall pre ensures Expand(LiteralChunk(lit), pre) == Some(pre + lit) {
      LiteralChunkMeaning(lit, pre);
    }
    DenotesConcat(p, src[..from], LiteralChunk(lit), lit);
    assert src[..from] + lit == src[..to];
  }

  /** `src[base..end]` repeats the bytes that start at `candidate`, byte by byte. */
  predicate IsMatch(src: seq<byte>, candidate: nat, base: nat, end: nat) {
    && candidate < base <= end <= |src|
    && forall k :: base <= k < end ==> src[k] == src[k - (base - candidate)]
  }

  lemma DenotesCopy(p: seq<byte>, src: seq<byte>, candidate: nat, base: nat, end: nat)
    requires |src| <= MAX_BLOCK_SIZE && base + 4 <= end
    requires IsMatch(src, candidate, base, end)
    requires Denotes(p, src[..base])
    ensures Denotes(p + CopyChunks(base - candidate, end - base), src[..end])
  {
    hide Expand, ForwardCopy, CopyChunks;
    var chunks := CopyChunks(base - candidate, end - base);
    forall pre ensures Expand(p + chunks, pre) == Some(pre + src[..end]) {
      ExpandConcat(p, chunks, pre);
      CopyChunksMeaning(base - candidate, end - base, pre + src[..base]);
      ForwardCopyMatch(pre, src, candidate, base, end);
    }
  }

  // ----- loads and hashes

  function Load32(b: seq<byte>, i: nat): uint32
    requires i + 4 <= |b|
  {
    Uint32(b[i], b[i + 1], b[i + 2], b[i + 3])
  }

  function Load64(b: seq<byte>, i: nat): nat
    requires i + 8 <= |b|
  {
    Load32(b, i) + 0x1_0000_0000 * Load32(b, i + 4)
  }

  lemma SplitLow(low: nat, high: nat, base: nat)
    requires low < base && (base == 256 || base == 65536 || base == 0x1_0000_0000)
    ensures (low + base * high) % base == low && (low + base * high) / base == high
  {
    if base == 256 {
      assert (low + 256 * high) / 256 == high;
    } else if base == 65536 {
      assert (low + 65536 * high) / 65536 == high;
    } else {
      assert (low + 0x1_0000_0000 * high) / 0x1_0000_0000 == high;
    }
  }

  /** `x >> (8 * k)` of an eight-byte load, cut to 32 bits, is the four-byte load `k` bytes later. */
  lemma Load64Shifted(b: seq<byte>, i: nat)
    requires i + 8 <= |b|
    ensures Load64(b, i) % 0x1_0000_0000 == Load32(b, i)
    ensures Load64(b, i) / 256 % 0x1_0000_0000 == Load32(b, i + 1)
    ensures Load64(b, i) / 65536 % 0x1_0000_0000 == Load32(b, i + 2)
  {
    var x := Load64(b, i);
    SplitLow(Load32(b, i), Load32(b, i + 4), 0x1_0000_0000);
    var top1, top2 := Uint24(b[i + 5], b[i + 6], b[i + 7]), Uint16(b[i + 6], b[i + 7]);
    SplitLow(b[i], Load32(b, i + 1) + 0x1_0000_0000 * top1, 256);
    SplitLow(Load32(b, i + 1), top1, 0x1_0000_0000);
    SplitLow(Uint16(b[i], b[i + 1]), Load32(b, i + 2) + 0x1_0000_0000 * top2, 65536);
    SplitLow(Load32(b, i + 2), top2, 0x1_0000_0000);
  }

  /** `x >> n`. */
  function ShiftRight(x: nat, n: nat): nat {
    if n == 0 then x else ShiftRight(x / 2, n - 1)
  }

  /** A multiplicative hash; the multiplication wraps at 32 bits. */
  function Hash(u: uint32, shift: nat): nat {
    ShiftRight(u * 0x1e35a7bd % 0x1_0000_0000, shift)
  }

  /** The hash table holds positions that were all visited before `s`. */
  ghost predicate TableBelow(table: array<uint16>, s: nat)
    reads table
  {
    && table.Length == MAX_TABLE_SIZE
    && forall i :: 0 <= i < table.Length ==> table[i] < s
  }

  /** The shift that leaves as many hash bits as the table is to use: 8 to 14. */
  method TableShift(n: nat) returns (shift: nat)
    ensures 18 <= shift <= 24
  {
    shift := 24;
    var tableSize := 256;
    while tableSize < MAX_TABLE_SIZE && tableSize < n
      invariant (tableSize == 256 && shift == 24) || (tableSize == 512 && shift == 23)
             || (tableSize == 1024 && shift == 22) || (tableSize == 2048 && shift == 21)
             || (tableSize == 4096 && shift == 20) || (tableSize == 8192 && shift == 19)
             || (tableSize == 16384 && shift == 18)
      decreases MAX_TABLE_SIZE - tableSize
    {
      shift := shift - 1;
      tableSize := tableSize * 2;
    }
  }

  // ----- matches

  /** Extends a match as far as the bytes agree, and no further. */
  method ExtendMatch(src: seq<byte>, i: nat, j: nat) returns (k: nat)
    requires i < j <= |src|
    ensures IsMatch(src, i, j, k)
    ensures k == |src| || src[k] != src[k - (j - i)]
  {
    k := j;
    var m := i;
    while k < |src| && src[m] == src[k]
      invariant m == k - (j - i) && IsMatch(src, i, j, k)
    {
      m, k := m + 1, k + 1;
    }
  }

  /** Scans forward, in steps that grow while nothing matches, for a position whose four bytes occurred
      before. Whatever the hash table holds, a reported match is a true one. */
  method FindMatch(src: seq<byte>, table: array<uint16>, s0: nat, hash0: nat, shift: nat)
    returns (found: bool, s: nat, candidate: nat, nextHash: nat)
    requires 1 <= s0 <= |src| - INPUT_MARGIN && |src| <= MAX_BLOCK_SIZE
    requires TableBelow(table, s0)
    modifies table
    ensures found ==> s0 <= s < |src| - INPUT_MARGIN && candidate < s
    ensures found ==> Load32(src, s) == Load32(src, candidate)
    ensures found ==> TableBelow(table, s + 1)
  {
    var sLimit := |src| - INPUT_MARGIN;
    var skip, nextS := 32, s0;
    candidate, nextHash := 0, hash0;
    while true
      invariant s0 <= nextS <= sLimit && 32 <= skip
      invariant TableBelow(table, nextS)
      decreases sLimit - nextS
    {
      s := nextS;
      var bytesBetweenHashLookups := skip / 32;
      nextS := s + bytesBetweenHashLookups;
      skip := skip + bytesBetweenHashLookups;
      if nextS > sLimit { return false, s, candidate, nextHash; }
      candidate := table[nextHash % MAX_TABLE_SIZE];
      table[nextHash % MAX_TABLE_SIZE] := s;
      nextHash := Hash(Load32(src, nextS), shift);
      if Load32(src, s) == Load32(src, candidate) { return true, s, candidate, nextHash; }
    }
  }

  lemma PeelByte(a: byte, b: byte, x: nat, y: nat)
    requires a + 256 * x == b + 256 * y
    ensures a == b && x == y
  {
  }

  /** Equal loads are a match of four bytes. */
  lemma Load32Match(b: seq<byte>, candidate: nat, base: nat)
    requires candidate < base <= |b| - 4 && Load32(b, base) == Load32(b, candidate)
    ensures IsMatch(b, candidate, base, base + 4)
  {
    var i, j := base, candidate;
    PeelByte(b[i], b[j], Uint24(b[i + 1], b[i + 2], b[i + 3]), Uint24(b[j + 1], b[j + 2], b[j + 3]));
    PeelByte(b[i + 1], b[j + 1], Uint16(b[i + 2], b[i + 3]), Uint16(b[j + 2], b[j + 3]));
    PeelByte(b[i + 2], b[j + 2], b[i + 3], b[j + 3]);
    forall k | base <= k < base + 4 ensures b[k] == b[k - (base - candidate)] {
      assert k == base || k == base + 1 || k == base + 2 || k == base + 3;
    }
  }

  // ----- one block

  /** The bytes written for the first `n` bytes of a block stay within 65/64 of them, `extra` apart. */
  predicate WithinBudget(written: int, n: int, extra: int) {
    64 * written <= 65 * n + extra
  }

  /** Room that one block of `n` bytes can need. */
  function Room(n: nat): nat { n + n / 64 + 3 }

  /** A literal adds at most three header bytes, and few enough of them for its length. */
  lemma LiteralBudget(lit: seq<byte>, written: nat, n: nat)
    requires 1 <= |lit| <= MAX_BLOCK_SIZE && WithinBudget(written, n, 0)
    ensures WithinBudget(written + |LiteralChunk(lit)|, n + |lit|, 68)
    ensures WithinBudget(written + |LiteralChunk(lit)|, n + |lit|, 192)
  {
  }

  /** Enters the positions `s - 1` and `s` into the table with one eight-byte load, and tells whether
      the four bytes at `s` occurred before. */
  method Rehash(src: seq<byte>, table: array<uint16>, s: nat, shift: nat)
    returns (again: bool, candidate: nat, nextHash: nat)
    requires 1 <= s < |src| - INPUT_MARGIN && |src| <= MAX_BLOCK_SIZE && TableBelow(table, s)
    modifies table
    ensures TableBelow(table, s + 1) && candidate < s
    ensures again <==> Load32(src, s) == Load32(src, candidate)
  {
    hide Hash;
    var x := Load64(src, s - 1);
    Load64Shifted(src, s - 1);
    var prevHash := Hash(x % 0x1_0000_0000, shift);
    table[prevHash % MAX_TABLE_SIZE] := s - 1;
    var currHash := Hash(x / 256 % 0x1_0000_0000, shift);
    candidate := table[currHash % MAX_TABLE_SIZE];
    table[currHash % MAX_TABLE_SIZE] := s;
    again := x / 256 % 0x1_0000_0000 == Load32(src, candidate);
    nextHash := if again then currHash else Hash(x / 65536 % 0x1_0000_0000, shift);
  }

  /** Emits copies back to back while the input keeps matching. `done` is set when the input is nearly
      exhausted; otherwise scanning resumes at `s`. */
  method EmitCopies(dst: array<byte>, d0: nat, ghost start: nat, src: seq<byte>, table: array<uint16>,
                    s0: nat, candidate0: nat, shift: nat)
    returns (done: bool, d: nat, nextEmit: nat, s: nat, nextHash: nat)
    requires |src| <= MAX_BLOCK_SIZE && s0 < |src| - INPUT_MARGIN
    requires candidate0 < s0 && Load32(src, s0) == Load32(src, candidate0)
    requires TableBelow(table, s0 + 1)
    requires start <= d0 <= dst.Length && start + Room(|src|) <= dst.Length
    requires WithinBudget(d0 - start, s0, 68)
    requires Denotes(dst[start..d0], src[..s0])
    modifies dst, table
    ensures start <= d <= dst.Length && dst[..start] == old(dst[..start])
    ensures s0 < nextEmit <= |src|
    ensures WithinBudget(d - start, nextEmit, 0)
    ensures Denotes(dst[start..d], src[..nextEmit])
    ensures !done ==> s == nextEmit + 1 <= |src| - INPUT_MARGIN && TableBelow(table, s)
  {
    hide Denotes, Load32;
    d, s := d0, s0;
    var candidate: nat := candidate0;
    var sLimit := |src| - INPUT_MARGIN;
    while true
      invariant s0 <= s < sLimit && candidate < s && Load32(src, s) == Load32(src, candidate)
      invariant TableBelow(table, s + 1)
      invariant start <= d <= dst.Length && dst[..start] == old(dst[..start])
      invariant WithinBudget(d - start, s, 68)
      invariant Denotes(dst[start..d], src[..s])
      decreases sLimit - s
    {
      var base := s;
      s := ExtendMatch(src, candidate + 4, s + 4);
      d := AppendCopy(dst, d, start, src, candidate, base, s);
      nextEmit := s;
      if s >= sLimit { return true, d, nextEmit, s, 0; }
      var again;
      again, candidate, nextHash := Rehash(src, table, s, shift);
      if !again { return false, d, nextEmit, s + 1, nextHash; }
    }
  }

  /** Appends the copy chunks of one match to the bytes written so far. */
  method AppendCopy(dst: array<byte>, d: nat, ghost start: nat, src: seq<byte>, candidate: nat, base: nat, end: nat)
    returns (d': nat)
    requires |src| <= MAX_BLOCK_SIZE && base + 4 <= |src| && candidate < base
    requires Load32(src, base) == Load32(src, candidate)
    requires IsMatch(src, candidate + 4, base + 4, end)
    requires start <= d <= dst.Length && start + Room(|src|) <= dst.Length
    requires WithinBudget(d - start, base, 68)
    requires Denotes(dst[start..d], src[..base])
    modifies dst
    ensures start <= d' <= dst.Length && dst[..start] == old(dst[..start])
    ensures WithinBudget(d' - start, end, 0)
    ensures Denotes(dst[start..d'], src[..end])
  {
    hide CopyChunks, Denotes;
    ghost var p := dst[start..d];
    Load32Match(src, candidate, base);
    assert IsMatch(src, candidate, base, end);
    CopyChunksShrink(base - candidate, end - base);
    d' := EmitCopy(dst, d, base - candidate, end - base);
    assert dst[start..d'] == p + CopyChunks(base - candidate, end - base);
    DenotesCopy(p, src, candidate, base, end);
  }

  /** Appends a literal chunk for `src[from..to]` to the bytes written so far. */
  method AppendLiteral(dst: array<byte>, d: nat, ghost start: nat, src: seq<byte>, from: nat, to: nat)
    returns (d': nat)
    requires from < to <= |src| <= MAX_BLOCK_SIZE
    requires start <= d <= dst.Length && start + Room(|src|) <= dst.Length
    requires WithinBudget(d - start, from, 0)
    requires Denotes(dst[start..d], src[..from])
    modifies dst
    ensures start <= d' <= dst.Length && dst[..start] == old(dst[..start])
    ensures WithinBudget(d' - start, to, 68) && WithinBudget(d' - start, to, 192)
    ensures Denotes(dst[start..d'], src[..to])
  {
    hide LiteralChunk, Denotes;
    ghost var p := dst[start..d];
    LiteralBudget(src[from..to], d - start, from);
    d' := EmitLiteral(dst, d, src[from..to]);
    assert dst[start..d'] == p + LiteralChunk(src[from..to]);
    DenotesLiteral(p, src, from, to);
  }

  /** Compresses one block. The chunks it appends denote the block after any earlier text, whatever
      matches the table and the skipping produced, and they fit in `Room`. */
  method EncodeBlock(dst: array<byte>, start: nat, src: seq<byte>) returns (d: nat)
    requires MIN_NON_LITERAL_BLOCK_SIZE <= |src| <= MAX_BLOCK_SIZE
    requires start + Room(|src|) <= dst.Length
    modifies dst
    ensures start <= d <= dst.Length && dst[..start] == old(dst[..start])
    ensures WithinBudget(d - start, |src|, 192)
    ensures Denotes(dst[start..d], src)
  {
    hide Denotes;
    var shift := TableShift(|src|);
    var table: array<uint16> := new uint16[MAX_TABLE_SIZE](_ => 0);
    var nextEmit, s := 0, 1;
    var nextHash := Hash(Load32(src, s), shift);
    d := start;
    assert dst[start..d] == [] && src[..0] == [];
    DenotesNothing();
    while true
      invariant fresh(table) && TableBelow(table, s) && 1 <= s <= |src| - INPUT_MARGIN
      invariant nextEmit < s
      invariant start <= d <= dst.Length && dst[..start] == old(dst[..start])
      invariant WithinBudget(d - start, nextEmit, 0)
      invariant Denotes(dst[start..d], src[..nextEmit])
      decreases |src| - s
    {
      var found, s1, candidate, hash := FindMatch(src, table, s, nextHash, shift);
      if !found { break; }
      d := AppendLiteral(dst, d, start, src, nextEmit, s1);
      var done;
      done, d, nextEmit, s, nextHash := EmitCopies(dst, d, start, src, table, s1, candidate, shift);
      if done { break; }
    }
    if nextEmit < |src| {
      d := AppendLiteral(dst, d, start, src, nextEmit, |src|);
    }
    assert src[..|src|] == src;
  }

  // ----- whole inputs

  /** The most bytes an encoded block can take, or a negative number when the input is too long: the
      length must fit in 32 bits, and in an `int`. */
  function MaxEncodedLen(n: nat, word: WordSize): int {
    if n > 0xffff_ffff then -1
    else var m := 32 + n + n / 6; if m > 0xffff_ffff then -1 else ToInt(word, m)
  }

  /** The longest input that can be encoded: the bound on its encoding fits in 32 bits, and in an `int`. */
  function LongestInput(word: WordSize): nat {
    if word == W64 then 3_681_400_511 else 1_840_700_242
  }

  lemma MaxEncodedLenValue(n: nat, word: WordSize)
    ensures MaxEncodedLen(n, word) >= 0 <==> n <= LongestInput(word)
    ensures n <= LongestInput(word) ==> MaxEncodedLen(n, word) == 32 + n + n / 6
  {
  }

  /** Encodes one block of at most 64 KiB, as a plain literal when it is too short to hold a match. */
  method EncodePiece(dst: array<byte>, start: nat, src: seq<byte>) returns (d: nat)
    requires 1 <= |src| <= MAX_BLOCK_SIZE && start + Room(|src|) <= dst.Length
    modifies dst
    ensures start <= d <= dst.Length && dst[..start] == old(dst[..start])
    ensures WithinBudget(d - start, |src|, 192)
    ensures Denotes(dst[start..d], src)
  {
    hide Denotes;
    if |src| < MIN_NON_LITERAL_BLOCK_SIZE {
      assert dst[start..start] == [] && src[..0] == [];
      DenotesNothing();
      d := AppendLiteral(dst, start, start, src, 0, |src|);
      assert src[..|src|] == src;
    } else {
      d := EncodeBlock(dst, start, src);
    }
  }

  /** Appends the next block of `src` to the chunks that `dst` holds from `h` on. */
  method AppendPiece(dst: array<byte>, d: nat, h: nat, src: seq<byte>, pos: nat) returns (d': nat, end: nat)
    requires h <= d && pos < |src| && d + 8 + (|src| - pos) + (|src| - pos) / 6 <= dst.Length
    requires Denotes(dst[h..d], src[..pos])
    modifies dst
    ensures d <= d' <= dst.Length && dst[..h] == old(dst[..h])
    ensures end == (if |src| - pos > MAX_BLOCK_SIZE then pos + MAX_BLOCK_SIZE else |src|)
    ensures WithinBudget(d' - d, end - pos, 192)
    ensures Denotes(dst[h..d'], src[..end])
  {
    hide Denotes;
    end := if |src| - pos > MAX_BLOCK_SIZE then pos + MAX_BLOCK_SIZE else |src|;
    ghost var before, chunks := dst[..d], dst[h..d];
    d' := EncodePiece(dst, d, src[pos..end]);
    DenotesConcat(chunks, src[..pos], dst[d..d'], src[pos..end]);
    assert dst[..d] == before;
    assert chunks == before[h..] && dst[..h] == before[..h];
    assert dst[h..d'] == chunks + dst[d..d'];
    assert src[..pos] + src[pos..end] == src[..end];
  }

  /** Encodes `src` block by block after its length. The result is an encoding of `src`, never longer
      than its bound of 32 + n + n / 6 bytes; only inputs longer than `LongestInput` are refused. */
  method Encode(dst: array<byte>, src: seq<byte>, word: WordSize) returns (r: Option<array<byte>>, d: nat)
    requires |src| <= MaxInt(word)
    modifies dst
    ensures r.Some? <==> |src| <= LongestInput(word)
    ensures r.Some? ==> d <= 32 + |src| + |src| / 6 && d <= r.value.Length
    ensures r.Some? ==> if dst.Length >= 32 + |src| + |src| / 6 then r.value == dst else fresh(r.value)
    ensures r.Some? ==> Encodes(r.value[..d], src, word)
  {
    hide Denotes, PutUvarint, MaxEncodedLen;
    MaxEncodedLenValue(|src|, word);
    var n := MaxEncodedLen(|src|, word);
    if n < 0 { return None, 0; }
    var buf := dst;
    if dst.Length < n {
      buf := new byte[n];
    }
    PutUvarintSize(|src|);
    CopyInto(buf, 0, PutUvarint(|src|));
    var h := |PutUvarint(|src|)|;
    d := h;
    var pos := 0;
    assert buf[h..d] == [] && src[..0] == [] && buf[..h] == PutUvarint(|src|);
    DenotesNothing();
    while pos < |src|
      invariant pos <= |src| && h <= d <= buf.Length
      invariant 6 * (d - h) <= 7 * pos + if pos < |src| then 0 else 18
      invariant buf[..h] == PutUvarint(|src|)
      invariant Denotes(buf[h..d], src[..pos])
    {
      d, pos := AppendPiece(buf, d, h, src, pos);
    }
    assert src[..pos] == src;
    assert buf[..d] == PutUvarint(|src|) + buf[h..d];
    EncodedBlock(src, buf[h..d], word);
    return Some(buf), d;
  }

  /** The length header followed by chunks that denote the text is an encoding of the text. */
  lemma EncodedBlock(src: seq<byte>, chunks: seq<byte>, word: WordSize)
    requires |src| <= 0xffff_ffff && |src| <= MaxInt(word) && Denotes(chunks, src)
    ensures Encodes(PutUvarint(|src|) + chunks, src, word)
  {
    hide Denotes, Expand, PutUvarint, ReadUvarint;
    PutUvarintSize(|src|);
    UvarintRoundTrip(|src|, chunks, 0);
    var h := |PutUvarint(|src|)|;
    assert (PutUvarint(|src|) + chunks)[h..] == chunks;
    DenotesAlone(chunks, src);
  }

  /** Decoding what was encoded gives the input back, for every input up to the longest that can be encoded. */
  method RoundTrip(src: seq<byte>, word: WordSize) returns (r: Option<Result<seq<byte>>>)
    requires |src| <= MaxInt(word)
    ensures r == if |src| <= LongestInput(word) then Some(Ok(src)) else None
  {
    var scratch := new byte[0];
    var encoded, d := Encode(scratch, src, word);
    if encoded.None? { return None; }
    var block := encoded.value[..d];
    var decoded, n := Decode(scratch, block, word);
    assert Encodes(block, src, word);
    assert Encodes(block, decoded.value[..n], word);
    return Some(Ok(decoded.value[..n]));
  }
}
