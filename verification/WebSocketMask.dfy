/** Payload masking: the byte-wise form, the word-wise form, and why they agree. */
module WebSocketMask {
  import opened Bytes

  // ----- exclusive or on unsigned integers

  function Xor(a: nat, b: nat): nat
    decreases a + b
  {
    if a == 0 && b == 0 then 0 else (a + b) % 2 + 2 * Xor(a / 2, b / 2)
  }

  function Pow2(n: nat): (p: nat)
    ensures p > 0
  {
    if n == 0 then 1 else 2 * Pow2(n - 1)
  }

  lemma {:induction false} XorBound(a: nat, b: nat, n: nat)
    requires a < Pow2(n) && b < Pow2(n)
    ensures Xor(a, b) < Pow2(n)
    decreases n
  {
    if n > 0 { XorBound(a / 2, b / 2, n - 1); }
  }

  /** One bit at a time: the low bits add without carry, the rest is combined alike. */
  lemma XorStep(i: nat, x: nat, j: nat, y: nat)
    requires i < 2 && j < 2
    ensures Xor(i + 2 * x, j + 2 * y) == (i + j) % 2 + 2 * Xor(x, y)
  {
    var a, b := i + 2 * x, j + 2 * y;
    assert a / 2 == x && b / 2 == y && (a + b) % 2 == (i + j) % 2;
    assert a == 0 && b == 0 ==> i == j == x == y == 0;
  }

  /** Applying the same bits twice changes nothing. */
  lemma {:induction false} XorTwice(a: nat, b: nat)
    ensures Xor(Xor(a, b), b) == a
    decreases a + b
  {
    if a == 0 && b == 0 {
      assert Xor(0, 0) == 0;
    } else {
      var i, x, j, y := a % 2, a / 2, b % 2, b / 2;
      XorTwice(x, y);
      BitsTwice(i, x, j, y);
    }
  }

  lemma BitsTwice(i: nat, x: nat, j: nat, y: nat)
    requires i < 2 && j < 2 && Xor(Xor(x, y), y) == x
    ensures Xor(Xor(i + 2 * x, j + 2 * y), j + 2 * y) == i + 2 * x
  {
    hide Xor;
    XorStep(i, x, j, y);
    XorStep((i + j) % 2, Xor(x, y), j, y);
  }

  /** Bit `k` of a number. */
  function Bit(a: nat, k: nat): nat {
    if k == 0 then a % 2 else Bit(a / 2, k - 1)
  }

  /** A bit of the result is set exactly when one of the two bits is. */
  lemma {:induction false} XorBits(a: nat, b: nat, k: nat)
    ensures Bit(Xor(a, b), k) == 1 <==> Bit(a, k) != Bit(b, k)
    decreases k
  {
    XorStep(a % 2, a / 2, b % 2, b / 2);
    if k > 0 {
      hide Xor;
      XorBits(a / 2, b / 2, k - 1);
    }
  }

  lemma {:induction false} XorZero(a: nat)
    ensures Xor(a, 0) == a && Xor(0, a) == a
    decreases a
  {
    if a > 0 { XorZero(a / 2); }
  }

  /** The low bits of words are combined separately from the high bits. */
  lemma {:induction false} XorSplit(a: nat, b: nat, x: nat, y: nat, n: nat)
    requires a < Pow2(n) && b < Pow2(n)
    ensures Xor(a + Pow2(n) * x, b + Pow2(n) * y) == Xor(a, b) + Pow2(n) * Xor(x, y)
    decreases n
  {
    if n == 0 {
      assert Xor(0, 0) == 0;
    } else {
      hide Xor;
      var p := Pow2(n - 1);
      assert Pow2(n) == 2 * p && a / 2 < p && b / 2 < p;
      hide Pow2;
      XorSplit(a / 2, b / 2, x, y, n - 1);
      Double(p, x);
      Double(p, y);
      Double(p, Xor(x, y));
      XorWide(a, b, p * x, p * y, p * Xor(x, y));
    }
  }

  lemma XorWide(a: nat, b: nat, u: nat, v: nat, w: nat)
    requires Xor(a / 2 + u, b / 2 + v) == Xor(a / 2, b / 2) + w
    ensures Xor(a + 2 * u, b + 2 * v) == Xor(a, b) + 2 * w
  {
    hide Xor;
    XorShift(a, b, u, v);
  }

  lemma XorShift(a: nat, b: nat, u: nat, v: nat)
    ensures Xor(a + 2 * u, b + 2 * v) == Xor(a, b) - 2 * Xor(a / 2, b / 2) + 2 * Xor(a / 2 + u, b / 2 + v)
  {
    hide Xor;
    XorStep(a % 2, a / 2, b % 2, b / 2);
    XorStep(a % 2, a / 2 + u, b % 2, b / 2 + v);
  }

  lemma Double(p: nat, x: nat)
    ensures 2 * p * x == 2 * (p * x) && p * x >= 0
  {
  }

  lemma Pow2Of8()
    ensures Pow2(8) == 256
  {
    assert Pow2(2) == 4 && Pow2(4) == 4 * Pow2(2) && Pow2(6) == 4 * Pow2(4);
  }

  function XorByte(a: byte, b: byte): byte {
    Pow2Of8();
    XorBound(a, b, 8);
    Xor(a, b)
  }

  // ----- masking

  type Key = k: seq<byte> | |k| == 4 witness [0, 0, 0, 0]

  /** Where in the key a position falls. */
  function Phase(pos: nat): nat {
    pos % 4
  }

  lemma PhaseAdd(p: nat, q: nat, n: nat)
    requires Phase(p) == Phase(q)
    ensures Phase(p + n) == Phase(q + n)
  {
  }

  lemma PhaseWords(p: nat, n: nat)
    requires n % 4 == 0
    ensures Phase(p + n) == Phase(p) && Phase(Phase(p)) == Phase(p)
  {
  }

  /** The key byte used at position `pos`; the key repeats. */
  function KeyAt(key: Key, pos: nat): byte {
    key[Phase(pos)]
  }

  lemma KeyPhase(key: Key, p: nat, q: nat, i: nat)
    requires Phase(p) == Phase(q)
    ensures KeyAt(key, p + i) == KeyAt(key, q + i)
  {
    PhaseAdd(p, q, i);
  }

  /** The bytes `b` masked with the key, starting at key position `pos`. */
  function Mask(key: Key, pos: nat, b: seq<byte>): (m: seq<byte>)
    ensures |m| == |b|
    ensures forall i :: 0 <= i < |b| ==> m[i] == XorByte(b[i], KeyAt(key, pos + i))
  {
    seq(|b|, i requires 0 <= i < |b| => XorByte(b[i], KeyAt(key, pos + i)))
  }

  /** Masking is its own inverse. */
  lemma MaskTwice(key: Key, pos: nat, b: seq<byte>)
    ensures Mask(key, pos, Mask(key, pos, b)) == b
  {
    hide KeyAt;
    forall i | 0 <= i < |b| ensures XorByte(XorByte(b[i], KeyAt(key, pos + i)), KeyAt(key, pos + i)) == b[i] {
      XorTwice(b[i], KeyAt(key, pos + i));
    }
  }

  /** Masking zeros lays down the key from its byte at `pos` on, over and over (section 5.3 of RFC 6455). */
  lemma MaskZeros(key: Key, pos: nat, b: seq<byte>)
    requires forall i :: 0 <= i < |b| ==> b[i] == 0
    ensures forall i :: 0 <= i < |b| ==> Mask(key, pos, b)[i] == key[(pos + i) % 4]
  {
    hide Xor;
    forall i | 0 <= i < |b| ensures Mask(key, pos, b)[i] == key[(pos + i) % 4] {
      XorZero(key[(pos + i) % 4]);
    }
  }

  lemma ZeroKey(pos: nat, b: seq<byte>)
    ensures Mask([0, 0, 0, 0], pos, b) == b
  {
    hide Xor;
    forall i | 0 <= i < |b| ensures Mask([0, 0, 0, 0], pos, b)[i] == b[i] {
      ZeroAt(pos + i);
      XorZero(b[i]);
    }
  }

  lemma ZeroAt(pos: nat)
    ensures KeyAt([0, 0, 0, 0], pos) == 0
  {
  }

  /** Masking in pieces, each from the position the one before returned, is masking the whole. */
  lemma MaskConcat(key: Key, pos: nat, a: seq<byte>, b: seq<byte>)
    ensures Mask(key, pos, a + b) == Mask(key, pos, a) + Mask(key, Phase(pos + |a|), b)
  {
    hide XorByte, KeyAt;
    var whole, parts := Mask(key, pos, a + b), Mask(key, pos, a) + Mask(key, Phase(pos + |a|), b);
    forall i | 0 <= i < |whole| ensures whole[i] == parts[i] {
      if i >= |a| {
        KeyPhase(key, pos + |a|, Phase(pos + |a|), i - |a|);
        assert pos + i == pos + |a| + (i - |a|);
      }
    }
  }

  /** Only the position's place in the key matters. */
  lemma MaskPhase(key: Key, p: nat, q: nat, b: seq<byte>)
    requires Phase(p) == Phase(q)
    ensures Mask(key, p, b) == Mask(key, q, b)
  {
    hide XorByte, KeyAt, Phase;
    forall i | 0 <= i < |b| ensures Mask(key, p, b)[i] == Mask(key, q, b)[i] {
      KeyPhase(key, p, q, i);
    }
  }

  /** `now` is `was` with the range `lo..hi` masked from key position `pos` on. */
  ghost predicate MaskedRange(now: seq<byte>, was: seq<byte>, key: Key, pos: nat, lo: nat, hi: nat) {
    && |now| == |was| && lo <= hi <= |was|
    && (forall i :: lo <= i < hi ==> now[i] == XorByte(was[i], KeyAt(key, pos + (i - lo))))
    && (forall i :: 0 <= i < |was| && !(lo <= i < hi) ==> now[i] == was[i])
  }

  /** A masked range holds the masked bytes, and everything else is as before. */
  lemma MaskedRangeIs(now: seq<byte>, was: seq<byte>, key: Key, pos: nat, lo: nat, hi: nat)
    requires MaskedRange(now, was, key, pos, lo, hi)
    ensures now == was[..lo] + Mask(key, pos, was[lo..hi]) + was[hi..]
  {
    hide XorByte, KeyAt;
  }

  /** Each byte of a masked range is combined with the key byte whose turn it is. */
  lemma MaskedByKey(now: seq<byte>, was: seq<byte>, key: Key, pos: nat, lo: nat, hi: nat)
    requires MaskedRange(now, was, key, pos, lo, hi)
    ensures forall i :: lo <= i < hi ==> now[i] == XorByte(was[i], key[(pos + (i - lo)) % 4])
    ensures forall i :: 0 <= i < |was| && !(lo <= i < hi) ==> now[i] == was[i]
  {
    hide XorByte;
  }

  /** Two adjacent ranges, masked one after the other in phase, are one masked range. */
  lemma MaskedRangeJoin(a: seq<byte>, b: seq<byte>, c: seq<byte>, key: Key, pos: nat, q: nat, lo: nat, mid: nat, hi: nat)
    requires MaskedRange(b, a, key, pos, lo, mid) && MaskedRange(c, b, key, q, mid, hi)
    requires Phase(q) == Phase(pos + (mid - lo))
    ensures MaskedRange(c, a, key, pos, lo, hi)
  {
    hide XorByte, KeyAt;
    forall i | lo <= i < hi ensures c[i] == XorByte(a[i], KeyAt(key, pos + (i - lo))) {
      if i >= mid {
        KeyPhase(key, q, pos + (mid - lo), i - mid);
        assert pos + (i - lo) == pos + (mid - lo) + (i - mid);
      }
    }
  }

  /** One byte at a time. */
  method MaskBytesSimple(key: Key, pos: nat, a: array<byte>, lo: nat, hi: nat) returns (pos': nat)
    requires lo <= hi <= a.Length
    modifies a
    ensures MaskedRange(a[..], old(a[..]), key, pos, lo, hi)
    ensures forall i :: lo <= i < hi ==> a[i] == XorByte(old(a[i]), key[(pos + (i - lo)) % 4])
    ensures forall i :: 0 <= i < a.Length && !(lo <= i < hi) ==> a[i] == old(a[i])
    ensures pos' == Phase(pos + (hi - lo))
  {
    hide XorByte;
    var i := lo;
    while i < hi
      invariant lo <= i <= hi
      invariant MaskedRange(a[..], old(a[..]), key, pos, lo, i)
    {
      a[i] := XorByte(a[i], key[Phase(pos + (i - lo))]);
      i := i + 1;
    }
    MaskedByKey(a[..], old(a[..]), key, pos, lo, hi);
    pos' := Phase(pos + (hi - lo));
  }

  /** The low byte of a combined word, and the word above it. */
  lemma XorLowByte(x: byte, y: byte, u: nat, v: nat)
    ensures var w := Xor(x + 256 * u, y + 256 * v); w % 256 == XorByte(x, y) && w / 256 == Xor(u, v)
  {
    hide Xor, Pow2;
    Pow2Of8();
    XorSplit(x, y, u, v, 8);
  }

  /** The word with the given bytes, combined with another word, has the bytes combined one by one. */
  lemma {:induction false} XorWord(x: seq<byte>, y: seq<byte>)
    requires |x| == |y|
    ensures var w := ToLittleEndian(Xor(LittleEndian(x), LittleEndian(y)), |x|);
            forall i :: 0 <= i < |x| ==> w[i] == XorByte(x[i], y[i])
    decreases |x|
  {
    hide Xor, XorByte;
    if x != [] {
      var x', y' := x[1..], y[1..];
      XorLowByte(x[0], y[0], LittleEndian(x'), LittleEndian(y'));
      XorWord(x', y');
      var w := ToLittleEndian(Xor(LittleEndian(x), LittleEndian(y)), |x|);
      var w' := ToLittleEndian(Xor(LittleEndian(x'), LittleEndian(y')), |x'|);
      assert w == [XorByte(x[0], y[0])] + w';
      hide LittleEndian, ToLittleEndian;
      forall i | 0 <= i < |x| ensures w[i] == XorByte(x[i], y[i]) {
        if i > 0 {
          assert x'[i - 1] == x[i] && y'[i - 1] == y[i];
        }
      }
    }
  }

  /** One machine word: the key bytes fill a word, and the two words are combined. */
  method MaskWord(key: Key, pos: nat, a: array<byte>, i: nat, k: seq<byte>)
    requires i + |k| <= a.Length && forall j :: 0 <= j < |k| ==> k[j] == KeyAt(key, pos + j)
    modifies a
    ensures MaskedRange(a[..], old(a[..]), key, pos, i, i + |k|)
  {
    hide Xor, LittleEndian, ToLittleEndian, XorByte, KeyAt;
    var word := a[i..i + |k|];
    XorWord(word, k);
    var masked := ToLittleEndian(Xor(LittleEndian(word), LittleEndian(k)), |k|);
    forall j | 0 <= j < |k| {
      a[i + j] := masked[j];
    }
  }

  /** The key bytes that cover `n` bytes from position `pos` on. */
  function KeyWord(key: Key, pos: nat, n: nat): (k: seq<byte>)
    ensures |k| == n && forall j :: 0 <= j < n ==> k[j] == KeyAt(key, pos + j)
  {
    seq<byte>(n, j requires 0 <= j < n => KeyAt(key, pos + j))
  }

  /** How far an address is past a word boundary. */
  function Misalignment(address: nat, wordSize: nat): (n: nat)
    requires wordSize > 0
    ensures n < wordSize
  {
    address % wordSize
  }

  /** As many whole words as fit below `hi`. */
  method MaskWords(key: Key, pos: nat, a: array<byte>, lo: nat, hi: nat, wordSize: nat, k: seq<byte>) returns (i: nat)
    requires lo <= hi <= a.Length && (wordSize == 4 || wordSize == 8)
    requires k == KeyWord(key, pos, wordSize)
    modifies a
    ensures lo <= i <= hi < i + wordSize && (i - lo) % 4 == 0
    ensures MaskedRange(a[..], old(a[..]), key, pos, lo, i)
  {
    hide XorByte, KeyAt, MaskedRange, KeyWord, Phase;
    ghost var was := a[..];
    i := lo;
    MaskedNothing(was, key, pos, lo);
    while hi - i >= wordSize
      invariant lo <= i <= hi && (i - lo) % 4 == 0
      invariant MaskedRange(a[..], was, key, pos, lo, i)
    {
      ghost var before := a[..];
      PhaseWords(pos, i - lo);
      MaskWord(key, pos, a, i, k);
      MaskedRangeJoin(was, before, a[..], key, pos, pos, lo, i, i + wordSize);
      i := i + wordSize;
    }
  }

  /** One machine word at a time, once the start of the rest of the buffer is aligned. `addr` is the
      address of `a[0]`. The result is that of the byte-wise form, whatever the alignment. */
  method MaskBytes(key: Key, pos: nat, a: array<byte>, lo: nat, hi: nat, addr: nat, wordSize: nat) returns (pos': nat)
    requires lo <= hi <= a.Length && (wordSize == 4 || wordSize == 8)
    modifies a
    ensures MaskedRange(a[..], old(a[..]), key, pos, lo, hi)
    ensures forall i :: lo <= i < hi ==> a[i] == XorByte(old(a[i]), key[(pos + (i - lo)) % 4])
    ensures forall i :: 0 <= i < a.Length && !(lo <= i < hi) ==> a[i] == old(a[i])
    ensures pos' == Phase(pos + (hi - lo))
  {
    hide XorByte, KeyAt, MaskedRange, KeyWord, Misalignment, Phase;
    if hi - lo < 2 * wordSize {
      pos' := MaskBytesSimple(key, pos, a, lo, hi);
      return;
    }
    ghost var was := a[..];
    var start, p := lo, pos;
    if Misalignment(addr + lo, wordSize) != 0 {
      start := lo + (wordSize - Misalignment(addr + lo, wordSize));
      p := MaskBytesSimple(key, pos, a, lo, start);
    } else {
      MaskedNothing(was, key, pos, lo);
    }
    ghost var aligned := a[..];
    var i := MaskWords(key, p, a, start, hi, wordSize, KeyWord(key, p, wordSize));
    PhaseWords(pos + (start - lo), 0);
    assert Phase(p) == Phase(pos + (start - lo));
    MaskedRangeJoin(was, aligned, a[..], key, pos, p, lo, start, i);
    PhaseAdd(p, pos + (start - lo), i - start);
    PhaseWords(p, i - start);
    ghost var words := a[..];
    pos' := MaskBytesSimple(key, p, a, i, hi);
    MaskedRangeJoin(was, words, a[..], key, pos, p, lo, i, hi);
    PhaseAdd(p, pos + (i - lo), hi - i);
    MaskedByKey(a[..], was, key, pos, lo, hi);
  }

  lemma MaskedNothing(b: seq<byte>, key: Key, pos: nat, lo: nat)
    requires lo <= |b|
    ensures MaskedRange(b, b, key, pos, lo, lo)
  {
  }
}
