/** UTF-8, section 3 of RFC 3629. */
module Utf8 {
  import opened Bytes

  /** The length of a character by its first byte, 0 for a byte that starts none. */
  function Width(b: byte): nat {
    if b < 0x80 then 1
    else if 0xC0 <= b < 0xE0 then 2
    else if 0xE0 <= b < 0xF0 then 3
    else if 0xF0 <= b < 0xF8 then 4
    else 0
  }

  predicate IsTail(b: byte) { 0x80 <= b < 0xC0 }

  /** Unicode scalar values. */
  predicate IsScalar(v: nat) {
    v <= 0x10FFFF && !(0xD800 <= v <= 0xDFFF)
  }

  /** Appends the six bits of a tail byte to a value. */
  function Fold(v: nat, tail: byte): nat { 64 * v + tail % 64 }

  function Decode(c: seq<byte>): nat
    requires 1 <= |c| <= 4
  {
    if |c| == 1 then c[0]
    else if |c| == 2 then Fold(c[0] % 32, c[1])
    else if |c| == 3 then Fold(Fold(c[0] % 16, c[1]), c[2])
    else Fold(Fold(Fold(c[0] % 8, c[1]), c[2]), c[3])
  }

  function Encode(v: nat): seq<byte>
    requires v <= 0x10FFFF
  {
    if v <= 0x7F then [v]
    else if v <= 0x7FF then [0xC0 + v / 64, 0x80 + v % 64]
    else if v <= 0xFFFF then [0xE0 + v / 4096, 0x80 + v / 64 % 64, 0x80 + v % 64]
    else [0xF0 + v / 262144, 0x80 + v / 4096 % 64, 0x80 + v / 64 % 64, 0x80 + v % 64]
  }

  /** A well-formed character: the right number of tail bytes, the shortest form, a scalar value. */
  predicate ValidChar(c: seq<byte>) {
    && 1 <= |c| <= 4 && Width(c[0]) == |c|
    && (forall k :: 1 <= k < |c| ==> IsTail(c[k]))
    && IsScalar(Decode(c))
    && (|c| == 2 ==> Decode(c) > 0x7F)
    && (|c| == 3 ==> Decode(c) > 0x7FF)
    && (|c| == 4 ==> Decode(c) > 0xFFFF)
  }

  predicate ValidUtf8(b: seq<byte>)
    decreases |b|
  {
    b == [] ||
    var w := Width(b[0]);
    1 <= w <= |b| && ValidChar(b[..w]) && ValidUtf8(b[w..])
  }

  lemma Unfold(v: nat, tail: byte)
    requires IsTail(tail)
    ensures Fold(v, tail) / 64 == v && 0x80 + Fold(v, tail) % 64 == tail
    ensures Fold(v, tail) / 4096 == v / 64 && Fold(v, tail) / 262144 == v / 64 / 64
  {
    var f := Fold(v, tail);
    assert f / 64 == v;
    assert f / 4096 == f / 64 / 64;
    assert f / 262144 == f / 64 / 64 / 64;
  }

  lemma EncodeDecodeTwo(c: seq<byte>)
    requires ValidChar(c) && |c| == 2
    ensures Encode(Decode(c)) == c
  {
    hide Fold;
    Unfold(c[0] % 32, c[1]);
  }

  lemma EncodeDecodeThree(c: seq<byte>)
    requires ValidChar(c) && |c| == 3
    ensures Encode(Decode(c)) == c
  {
    hide Fold;
    Unfold(c[0] % 16, c[1]);
    Unfold(Fold(c[0] % 16, c[1]), c[2]);
  }

  lemma EncodeDecodeFour(c: seq<byte>)
    requires ValidChar(c) && |c| == 4
    ensures Encode(Decode(c)) == c
  {
    hide Fold;
    Unfold(c[0] % 8, c[1]);
    Unfold(Fold(c[0] % 8, c[1]), c[2]);
    Unfold(Fold(Fold(c[0] % 8, c[1]), c[2]), c[3]);
  }

  /** A well-formed character is the encoding of its value. */
  lemma EncodeDecode(c: seq<byte>)
    requires ValidChar(c)
    ensures Encode(Decode(c)) == c
  {
    if |c| == 2 {
      EncodeDecodeTwo(c);
    } else if |c| == 3 {
      EncodeDecodeThree(c);
    } else if |c| == 4 {
      EncodeDecodeFour(c);
    }
  }
}
