/** Frames on the wire (section 5.2 of RFC 6455) and the messages they carry (section 5.4). */
module WebSocketFrame {
  import opened Bytes
  import opened Sequences
  import opened WebSocketMask

  const CONTINUATION := 0
  const TEXT := 1
  const BINARY := 2
  const CLOSE := 8
  const PING := 9
  const PONG := 10

  const MAX_CONTROL_PAYLOAD := 125

  /** Lengths are signed 64-bit integers. */
  const LENGTH_LIMIT := 0x8000_0000_0000_0000

  predicate IsControl(op: int) {
    op == CLOSE || op == PING || op == PONG
  }

  predicate IsData(op: int) {
    op == TEXT || op == BINARY
  }

  /** `width` is the number of bytes of extended length: 0, 2 or 8. */
  datatype Header = Header(final: bool, reserved: nat, opcode: nat, width: nat, length: nat, key: Option<Key>)

  predicate WellFormed(h: Header) {
    && h.reserved < 8 && h.opcode < 16
    && match h.width
       case 0 => h.length <= 125
       case 2 => h.length < 65536
       case 8 => h.length < 2 * LENGTH_LIMIT
       case _ => false
  }

  // ----- headers

  function FirstByte(final: bool, reserved: nat, opcode: nat): byte
    requires reserved < 8 && opcode < 16
  {
    (if final then 128 else 0) + 16 * reserved + opcode
  }

  function SecondByte(masked: bool, code: nat): byte
    requires code < 128
  {
    (if masked then 128 else 0) + code
  }

  function ReservedBits(first: byte): nat { first / 16 % 8 }

  function LowBits(first: byte): nat { first % 16 }

  function CodeOf(second: byte): nat { second % 128 }

  lemma FirstByteParts(b: byte, final: bool, reserved: nat, opcode: nat)
    requires reserved < 8 && opcode < 16
    ensures b == FirstByte(final, reserved, opcode)
       <==> final == (b >= 128) && reserved == ReservedBits(b) && opcode == LowBits(b)
  {
  }

  lemma SecondByteParts(b: byte, masked: bool, code: nat)
    requires code < 128
    ensures b == SecondByte(masked, code) <==> masked == (b >= 128) && code == CodeOf(b)
  {
  }

  function LengthCode(width: nat, length: nat): nat {
    if width == 0 then length else if width == 2 then 126 else 127
  }

  function WidthOf(code: nat): nat {
    if code == 126 then 2 else if code == 127 then 8 else 0
  }

  function LengthBytes(width: nat, length: nat): (b: seq<byte>)
    ensures |b| == width
  {
    ToBigEndian(length, width)
  }

  function KeyBytes(key: Option<Key>): seq<byte> {
    if key.Some? then key.value else []
  }

  function HeaderBytes(h: Header): (b: seq<byte>)
    requires WellFormed(h)
    ensures |b| >= 2
  {
    [FirstByte(h.final, h.reserved, h.opcode), SecondByte(h.key.Some?, LengthCode(h.width, h.length))]
    + LengthBytes(h.width, h.length) + KeyBytes(h.key)
  }

  function LengthOf(code: nat, extended: seq<byte>): nat {
    if extended == [] then code else BigEndian(extended)
  }

  /** The header at the start of `b` and what follows it; `None` when `b` ends inside the header. */
  function ReadHeader(b: seq<byte>): (r: Option<(Header, seq<byte>)>)
    ensures r.Some? ==> |r.value.1| + 2 <= |b|
  {
    if |b| < 2 then None else
    var keyAt := 2 + WidthOf(CodeOf(b[1]));
    var end := keyAt + (if b[1] >= 128 then 4 else 0);
    if |b| < end then None else
    Some((Header(b[0] >= 128, ReservedBits(b[0]), LowBits(b[0]), keyAt - 2, LengthOf(CodeOf(b[1]), b[2..keyAt]),
                 if b[1] >= 128 then Some(b[keyAt..end]) else None),
          b[end..]))
  }

  lemma Pow256Small()
    ensures Pow256(2) == 65536 && Pow256(8) == 2 * LENGTH_LIMIT
  {
    assert Pow256(1) == 256 && Pow256(4) == 65536 * Pow256(2) && Pow256(6) == 65536 * Pow256(4);
  }

  lemma LengthRoundTrip(h: Header)
    requires WellFormed(h)
    ensures LengthOf(LengthCode(h.width, h.length), LengthBytes(h.width, h.length)) == h.length
  {
    hide ToBigEndian, BigEndian, Pow256;
    Pow256Small();
    if h.width != 0 {
      BigEndianRoundTrip(h.length, h.width);
    }
  }

  /** Every header is read back from its bytes, whatever follows. */
  lemma HeaderRoundTrip(h: Header, rest: seq<byte>)
    requires WellFormed(h)
    ensures ReadHeader(HeaderBytes(h) + rest) == Some((h, rest))
  {
    hide FirstByte, SecondByte, ReservedBits, LowBits, CodeOf, LengthBytes, LengthOf;
    var code := LengthCode(h.width, h.length);
    var b0, b1 := FirstByte(h.final, h.reserved, h.opcode), SecondByte(h.key.Some?, code);
    FirstByteParts(b0, h.final, h.reserved, h.opcode);
    SecondByteParts(b1, h.key.Some?, code);
    LengthRoundTrip(h);
    Cut([b0, b1], LengthBytes(h.width, h.length), KeyBytes(h.key), rest);
  }

  lemma LengthUnique(code: nat, extended: seq<byte>)
    requires code < 128 && |extended| == WidthOf(code)
    ensures var length := LengthOf(code, extended);
      && LengthCode(|extended|, length) == code && LengthBytes(|extended|, length) == extended
      && WellFormed(Header(true, 0, 0, |extended|, length, None))
  {
    hide ToBigEndian, BigEndian, Pow256;
    Pow256Small();
    BigEndianUnique(extended);
  }

  /** And nothing else reads as that header. */
  lemma HeaderUnique(b: seq<byte>)
    requires ReadHeader(b).Some?
    ensures var (h, rest) := ReadHeader(b).value; WellFormed(h) && b == HeaderBytes(h) + rest
  {
    var (h, rest) := ReadHeader(b).value;
    var code := CodeOf(b[1]);
    assert ReservedBits(b[0]) < 8 && LowBits(b[0]) < 16 && code < 128;
    hide FirstByte, SecondByte, ReservedBits, LowBits, CodeOf, LengthBytes, LengthOf;
    LengthUnique(code, b[2..2 + h.width]);
    FirstByteParts(b[0], h.final, h.reserved, h.opcode);
    SecondByteParts(b[1], h.key.Some?, code);
    var end := 2 + h.width + |KeyBytes(h.key)|;
    Pieces(b, 2 + h.width, end);
  }

  lemma Pieces(b: seq<byte>, i: nat, j: nat)
    requires 2 <= i <= j <= |b|
    ensures b == [b[0], b[1]] + b[2..i] + b[i..j] + b[j..]
  {
  }
}
