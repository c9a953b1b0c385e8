/** Byte-level character classes shared by the YAML scanner and emitter. */
module YamlChars {
  import opened Bytes

  const SPACE: byte := 0x20
  const TAB: byte := 0x09
  const QUOTE: byte := 0x22
  const BACKSLASH: byte := 0x5C
  const LF: byte := 0x0A
  const CR: byte := 0x0D

  /** The byte at position `i`; a buffer is followed by NULs. */
  function At(b: seq<byte>, i: nat): byte {
    if i < |b| then b[i] else 0
  }

  predicate IsBlank(b: seq<byte>, i: nat) {
    At(b, i) == SPACE || At(b, i) == TAB
  }

  predicate IsBreak(b: seq<byte>, i: nat) {
    || At(b, i) == CR
    || At(b, i) == LF
    || (At(b, i) == 0xC2 && At(b, i + 1) == 0x85)
    || (At(b, i) == 0xE2 && At(b, i + 1) == 0x80 && At(b, i + 2) == 0xA8)
    || (At(b, i) == 0xE2 && At(b, i + 1) == 0x80 && At(b, i + 2) == 0xA9)
  }

  predicate IsBlankZ(b: seq<byte>, i: nat) {
    IsBlank(b, i) || IsBreak(b, i) || At(b, i) == 0
  }

  predicate IsAscii(b: seq<byte>, i: nat) {
    At(b, i) <= 0x7F
  }

  /** Characters that may be printed as they are; four-byte characters are not among them. */
  predicate IsPrintable(b: seq<byte>, i: nat) {
    || At(b, i) == 0x0A
    || 0x20 <= At(b, i) <= 0x7E
    || (At(b, i) == 0xC2 && At(b, i + 1) >= 0xA0)
    || 0xC2 < At(b, i) < 0xED
    || (At(b, i) == 0xED && At(b, i + 1) < 0xA0)
    || At(b, i) == 0xEE
    || (At(b, i) == 0xEF
        && !(At(b, i + 1) == 0xBB && At(b, i + 2) == 0xBF)
        && !(At(b, i + 1) == 0xBF && (At(b, i + 2) == 0xBE || At(b, i + 2) == 0xBF)))
  }

  /** The byte order mark test looks at the start of the buffer, whatever position it is asked about. */
  predicate IsBom(b: seq<byte>) {
    At(b, 0) == 0xEF && At(b, 1) == 0xBB && At(b, 2) == 0xBF
  }

  predicate IsHex(c: byte) {
    0x30 <= c <= 0x39 || 0x41 <= c <= 0x46 || 0x61 <= c <= 0x66
  }

  function AsHex(c: byte): nat
    requires IsHex(c)
  {
    if 0x41 <= c <= 0x46 then c - 0x41 + 10
    else if 0x61 <= c <= 0x66 then c - 0x61 + 10
    else c - 0x30
  }

  // ----- hexadecimal numbers

  function HexDigit(d: nat): byte
    requires d < 16
  {
    if d < 10 then 0x30 + d else 0x41 + d - 10
  }

  /** The `n` lowest hexadecimal digits of `v`, most significant first. */
  function Hex(v: nat, n: nat): (h: seq<byte>)
    ensures |h| == n && forall k :: 0 <= k < n ==> IsHex(h[k])
  {
    if n == 0 then [] else Hex(v / 16, n - 1) + [HexDigit(v % 16)]
  }

  /** The number that hexadecimal digits denote. */
  function HexValue(h: seq<byte>): nat
    requires forall k :: 0 <= k < |h| ==> IsHex(h[k])
  {
    if h == [] then 0 else 16 * HexValue(h[..|h| - 1]) + AsHex(h[|h| - 1])
  }

  function Pow16(n: nat): nat {
    if n == 0 then 1 else 16 * Pow16(n - 1)
  }

  lemma {:induction false} HexRoundTrip(v: nat, n: nat)
    requires v < Pow16(n)
    ensures HexValue(Hex(v, n)) == v
  {
    if n > 0 {
      HexRoundTrip(v / 16, n - 1);
      assert Hex(v, n)[..n - 1] == Hex(v / 16, n - 1);
    }
  }
}
