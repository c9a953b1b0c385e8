/** Machine bytes as bounded integers, and the few facts about them that the codecs share. */
module Bytes {

  type byte = x: int | 0 <= x < 256

  type uint16 = x: int | 0 <= x < 65536

  type uint32 = x: int | 0 <= x < 0x1_0000_0000

  datatype Option<+T> = None | Some(value: T)

  /** The unsigned integer whose little-endian bytes are `b`. */
  function LittleEndian(b: seq<byte>): nat {
    if b == [] then 0 else b[0] + 256 * LittleEndian(b[1..])
  }

  /** The low `n` little-endian bytes of `v`; higher bytes are dropped, as a truncating cast does. */
  function ToLittleEndian(v: nat, n: nat): (b: seq<byte>)
    ensures |b| == n
  {
    if n == 0 then [] else [v % 256] + ToLittleEndian(v / 256, n - 1)
  }

  /** `256` raised to `n`. */
  function Pow256(n: nat): (p: nat)
    ensures p > 0
  {
    if n == 0 then 1 else 256 * Pow256(n - 1)
  }

  /** Reading back the bytes of a number loses exactly what does not fit in them. */
  lemma {:induction false} LittleEndianRoundTrip(v: nat, n: nat)
    requires v < Pow256(n)
    ensures LittleEndian(ToLittleEndian(v, n)) == v
  {
    if n > 0 {
      LittleEndianRoundTrip(v / 256, n - 1);
      assert ToLittleEndian(v, n)[1..] == ToLittleEndian(v / 256, n - 1);
    }
  }

  /** And different bytes are different numbers. */
  lemma {:induction false} LittleEndianUnique(b: seq<byte>)
    ensures LittleEndian(b) < Pow256(|b|) && ToLittleEndian(LittleEndian(b), |b|) == b
  {
    if b != [] {
      var low, high := b[0], LittleEndian(b[1..]);
      LittleEndianUnique(b[1..]);
      Digits(low, high);
      assert b == [low] + b[1..];
      assert ToLittleEndian(low + 256 * high, |b|) == [low] + ToLittleEndian(high, |b| - 1);
    }
  }

  lemma Digits(low: byte, high: nat)
    ensures (low + 256 * high) % 256 == low && (low + 256 * high) / 256 == high
  {
  }

  /** The little-endian loads that the sources spell out byte by byte. */
  function Uint16(a: nat, b: nat): nat { a + 256 * b }

  function Uint24(a: nat, b: nat, c: nat): nat { a + 256 * b + 65536 * c }

  function Uint32(a: nat, b: nat, c: nat, d: nat): nat { a + 256 * b + 65536 * c + 16777216 * d }

  lemma LittleEndian1(a: byte)
    ensures LittleEndian([a]) == a
  {
    assert [a][1..] == [];
  }

  lemma LittleEndian2(a: byte, b: byte)
    ensures LittleEndian([a, b]) == Uint16(a, b)
  {
    assert [a, b][1..] == [b];
    LittleEndian1(b);
  }

  lemma LittleEndian3(a: byte, b: byte, c: byte)
    ensures LittleEndian([a, b, c]) == Uint24(a, b, c)
  {
    assert [a, b, c][1..] == [b, c];
    LittleEndian2(b, c);
  }

  lemma LittleEndian4(a: byte, b: byte, c: byte, d: byte)
    ensures LittleEndian([a, b, c, d]) == Uint32(a, b, c, d)
  {
    assert [a, b, c, d][1..] == [b, c, d];
    LittleEndian3(b, c, d);
  }

  lemma Bytes3(v: nat)
    requires v < 0x100_0000
    ensures var b := ToLittleEndian(v, 3); Uint24(b[0], b[1], b[2]) == v
  {
    assert Pow256(3) == 256 * Pow256(2);
    assert Pow256(2) == 256 * Pow256(1);
    LittleEndianRoundTrip(v, 3);
    var b := ToLittleEndian(v, 3);
    LittleEndian3(b[0], b[1], b[2]);
    assert b == [b[0], b[1], b[2]];
  }

  lemma Bytes4(v: uint32)
    ensures var b := ToLittleEndian(v, 4); Uint32(b[0], b[1], b[2], b[3]) == v
  {
    assert Pow256(4) == 256 * Pow256(3);
    assert Pow256(3) == 256 * Pow256(2);
    assert Pow256(2) == 256 * Pow256(1);
    LittleEndianRoundTrip(v, 4);
    var b := ToLittleEndian(v, 4);
    LittleEndian4(b[0], b[1], b[2], b[3]);
    assert b == [b[0], b[1], b[2], b[3]];
  }

  /** The unsigned integer whose big-endian bytes are `b`. */
  function BigEndian(b: seq<byte>): nat {
    if b == [] then 0 else 256 * BigEndian(b[..|b| - 1]) + b[|b| - 1] as nat
  }

  function ToBigEndian(v: nat, n: nat): (b: seq<byte>)
    ensures |b| == n
  {
    if n == 0 then [] else ToBigEndian(v / 256, n - 1) + [v % 256]
  }

  lemma {:induction false} BigEndianRoundTrip(v: nat, n: nat)
    requires v < Pow256(n)
    ensures BigEndian(ToBigEndian(v, n)) == v
  {
    if n > 0 {
      BigEndianRoundTrip(v / 256, n - 1);
      assert ToBigEndian(v, n)[..n - 1] == ToBigEndian(v / 256, n - 1);
    }
  }

  lemma {:induction false} BigEndianUnique(b: seq<byte>)
    ensures BigEndian(b) < Pow256(|b|) && ToBigEndian(BigEndian(b), |b|) == b
  {
    if b != [] {
      var low, high := b[|b| - 1], BigEndian(b[..|b| - 1]);
      BigEndianUnique(b[..|b| - 1]);
      Digits(low, high);
      assert b == b[..|b| - 1] + [low];
      assert ToBigEndian(256 * high + low, |b|) == ToBigEndian(high, |b| - 1) + [low];
    }
  }

  /** The concatenation of all parts. */
  function Joined(parts: seq<seq<byte>>): seq<byte> {
    if parts == [] then [] else parts[0] + Joined(parts[1..])
  }

  lemma {:induction false} JoinedAppend(parts: seq<seq<byte>>, last: seq<byte>)
    ensures Joined(parts + [last]) == Joined(parts) + last
  {
    if parts == [] {
      assert ([] + [last])[1..] == [];
    } else {
      JoinedAppend(parts[1..], last);
      assert (parts + [last])[1..] == parts[1..] + [last];
    }
  }

  /** Writes `text` at `dst[d..]` and touches nothing else. */
  method CopyInto(dst: array<byte>, d: nat, text: seq<byte>)
    requires d + |text| <= dst.Length
    modifies dst
    ensures dst[..d + |text|] == old(dst[..d]) + text
    ensures dst[d + |text|..] == old(dst[d + |text|..])
  {
    forall i | 0 <= i < |text| {
      dst[d + i] := text[i];
    }
  }
}
