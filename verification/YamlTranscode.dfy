/** What the reader accepts, and the UTF-8 text it makes of it: UTF-8 by section 3 of RFC 3629, UTF-16 by
    section 2 of RFC 2781, and the characters that YAML allows. */
module YamlTranscode {
  import opened Bytes
  import opened Utf8

  datatype Encoding = Utf8 | Utf16LE | Utf16BE

  function EncodingOf(stream: seq<byte>): Encoding {
    if |stream| >= 2 && stream[0] == 0xFF && stream[1] == 0xFE then Utf16LE
    else if |stream| >= 2 && stream[0] == 0xFE && stream[1] == 0xFF then Utf16BE
    else Utf8
  }

  /** The length of the byte order mark, if there is one. */
  function BomLength(stream: seq<byte>): (n: nat)
    ensures n <= |stream|
  {
    if EncodingOf(stream) != Utf8 then 2
    else if |stream| >= 3 && stream[0] == 0xEF && stream[1] == 0xBB && stream[2] == 0xBF then 3
    else 0
  }

  /** Characters that may appear in a YAML stream. */
  predicate Allowed(v: nat) {
    || v == 0x09 || v == 0x0A || v == 0x0D || 0x20 <= v <= 0x7E || v == 0x85
    || 0xA0 <= v <= 0xD7FF || 0xE000 <= v <= 0xFFFD || 0x10000 <= v <= 0x10FFFF
  }

  // ----- one character

  datatype Char = Char(value: nat, width: nat) | Short | Bad

  function Unit(e: Encoding, a: nat, b: nat): nat {
    if e == Utf16LE then Uint16(a, b) else Uint16(b, a)
  }

  predicate IsHigh(u: nat) { 0xD800 <= u < 0xDC00 }

  predicate IsLow(u: nat) { 0xDC00 <= u < 0xE000 }

  function Pair(high: nat, low: nat): nat
    requires IsHigh(high) && IsLow(low)
  {
    0x10000 + 1024 * (high - 0xD800) + (low - 0xDC00)
  }

  /** The first character of `b`; `Short` when `b` ends inside it. */
  function NextChar(e: Encoding, b: seq<byte>): (c: Char)
    requires b != []
    ensures c.Char? ==> 1 <= c.width <= |b| && Allowed(c.value)
  {
    var raw := if e == Utf8 then NextUtf8(b) else NextUtf16(e, b);
    if raw.Char? && !Allowed(raw.value) then Bad else raw
  }

  function NextUtf8(b: seq<byte>): (c: Char)
    requires b != []
    ensures c.Char? ==> 1 <= c.width <= |b|
  {
    var w := Width(b[0]);
    if w == 0 then Bad
    else if w > |b| then Short
    else if !ValidChar(b[..w]) then Bad
    else Char(Decode(b[..w]), w)
  }

  function NextUtf16(e: Encoding, b: seq<byte>): (c: Char)
    requires b != []
    ensures c.Char? ==> 1 <= c.width <= |b|
  {
    if |b| < 2 then Short else
    var u := Unit(e, b[0], b[1]);
    if IsLow(u) then Bad
    else if !IsHigh(u) then Char(u, 2)
    else if |b| < 4 then Short
    else
      var u2 := Unit(e, b[2], b[3]);
      if IsLow(u2) then Char(Pair(u, u2), 4) else Bad
  }

  /** More bytes never change what has been decided. */
  lemma NextCharPrefix(e: Encoding, b: seq<byte>, more: seq<byte>)
    requires b != [] && !NextChar(e, b).Short?
    ensures NextChar(e, b + more) == NextChar(e, b)
  {
    hide ValidChar, Decode;
    if e == Utf8 && Width(b[0]) <= |b| {
      assert (b + more)[..Width(b[0])] == b[..Width(b[0])];
    }
  }

  // ----- whole texts

  function Before(text: seq<byte>, t: Option<seq<byte>>): Option<seq<byte>> {
    if t.Some? then Some(text + t.value) else None
  }

  /** The UTF-8 of a text in the given encoding; `None` when it is ill-formed or has a character that is not allowed. */
  function Transcode(e: Encoding, b: seq<byte>): Option<seq<byte>>
    decreases |b|
  {
    if b == [] then Some([]) else
    match NextChar(e, b)
    case Char(v, w) => Before(Encode(v), Transcode(e, b[w..]))
    case _ => None
  }

  /** What the reader makes of a whole stream. */
  function Meaning(stream: seq<byte>): Option<seq<byte>> {
    Transcode(EncodingOf(stream), stream[BomLength(stream)..])
  }

  /** Accepted UTF-8 is left as it is. */
  lemma {:induction false} Utf8Unchanged(b: seq<byte>)
    requires Transcode(Utf8, b).Some?
    ensures Transcode(Utf8, b).value == b && ValidUtf8(b)
    decreases |b|
  {
    hide Encode, Decode, ValidChar, Allowed;
    if b != [] {
      var w := Width(b[0]);
      Utf8Unchanged(b[w..]);
      EncodeDecode(b[..w]);
      assert b == b[..w] + b[w..];
    }
  }

  /** The characters of well-formed UTF-8. */
  function Values(b: seq<byte>): seq<nat>
    requires ValidUtf8(b)
    decreases |b|
  {
    if b == [] then [] else [Decode(b[..Width(b[0])])] + Values(b[Width(b[0])..])
  }

  predicate AllAllowed(vs: seq<nat>) {
    forall i :: 0 <= i < |vs| ==> Allowed(vs[i])
  }

  /** UTF-8 is accepted exactly when it is well-formed and has only allowed characters. */
  lemma {:induction false} Utf8Accepted(b: seq<byte>)
    ensures Transcode(Utf8, b).Some? <==> ValidUtf8(b) && AllAllowed(Values(b))
    decreases |b|
  {
    hide Encode, Decode, ValidChar, Allowed;
    if b != [] {
      var w := Width(b[0]);
      if 1 <= w <= |b| && ValidChar(b[..w]) {
        Utf8Accepted(b[w..]);
        if ValidUtf8(b[w..]) {
          AllAllowedFirst(Decode(b[..w]), Values(b[w..]));
        }
      }
    }
  }

  lemma AllAllowedFirst(v: nat, vs: seq<nat>)
    ensures AllAllowed([v] + vs) <==> Allowed(v) && AllAllowed(vs)
  {
    hide Allowed;
    var all := [v] + vs;
    assert all[0] == v;
    assert forall i :: 0 <= i < |vs| ==> vs[i] == all[i + 1];
    assert forall i :: 0 < i < |all| ==> all[i] == vs[i - 1];
  }

  // ----- UTF-16 as written, section 2.1 of RFC 2781

  function UnitBytes(e: Encoding, u: nat): seq<byte>
    requires u < 65536
  {
    if e == Utf16LE then [u % 256, u / 256] else [u / 256, u % 256]
  }

  function Encode16(e: Encoding, v: nat): (b: seq<byte>)
    requires IsScalar(v)
    ensures |b| >= 2
  {
    if v < 0x10000 then UnitBytes(e, v)
    else UnitBytes(e, 0xD800 + (v - 0x10000) / 1024) + UnitBytes(e, 0xDC00 + (v - 0x10000) % 1024)
  }

  function Encode16All(e: Encoding, vs: seq<nat>): seq<byte>
    requires AllAllowed(vs)
  {
    if vs == [] then [] else Encode16(e, vs[0]) + Encode16All(e, vs[1..])
  }

  function EncodeAll(vs: seq<nat>): seq<byte>
    requires AllAllowed(vs)
  {
    if vs == [] then [] else Encode(vs[0]) + EncodeAll(vs[1..])
  }

  lemma UnitRoundTrip(e: Encoding, u: nat)
    requires u < 65536 && e != Utf8
    ensures var b := UnitBytes(e, u); Unit(e, b[0], b[1]) == u
  {
  }

  lemma Next16(e: Encoding, v: nat, rest: seq<byte>)
    requires e != Utf8 && Allowed(v)
    ensures NextChar(e, Encode16(e, v) + rest) == Char(v, |Encode16(e, v)|)
  {
    hide Unit;
    if v < 0x10000 {
      UnitRoundTrip(e, v);
    } else {
      var high, low := 0xD800 + (v - 0x10000) / 1024, 0xDC00 + (v - 0x10000) % 1024;
      UnitRoundTrip(e, high);
      UnitRoundTrip(e, low);
      assert Pair(high, low) == v;
    }
  }

  /** Any allowed characters, written in UTF-16 of either byte order, are read as their UTF-8. */
  lemma {:induction false} Utf16Accepted(e: Encoding, vs: seq<nat>)
    requires e != Utf8 && AllAllowed(vs)
    ensures Transcode(e, Encode16All(e, vs)) == Some(EncodeAll(vs))
  {
    hide Encode, Encode16, NextChar;
    if vs != [] {
      var b, rest := Encode16(e, vs[0]), Encode16All(e, vs[1..]);
      Next16(e, vs[0], rest);
      Utf16Accepted(e, vs[1..]);
      assert (b + rest)[|b|..] == rest;
    }
  }

  /** A byte order mark announces its own byte order. */
  lemma MarkedUtf16(e: Encoding, vs: seq<nat>)
    requires e != Utf8 && AllAllowed(vs)
    ensures Meaning(Encode16(e, 0xFEFF) + Encode16All(e, vs)) == Some(EncodeAll(vs))
  {
    hide Encode16All, EncodeAll, Transcode;
    var mark, text := Encode16(e, 0xFEFF), Encode16All(e, vs);
    assert (mark + text)[2..] == text;
    Utf16Accepted(e, vs);
  }

  /** Without a mark of UTF-16 a stream is UTF-8, and the mark of UTF-8 is not part of the text. */
  lemma MarkedUtf8(b: seq<byte>)
    ensures Meaning(Encode(0xFEFF) + b) == Transcode(Utf8, b)
    ensures !(Encode16(Utf16LE, 0xFEFF) <= b) && !(Encode16(Utf16BE, 0xFEFF) <= b) && !(Encode(0xFEFF) <= b) ==>
      Meaning(b) == Transcode(Utf8, b)
  {
    hide Transcode, Encode, Encode16;
    MarkBytes();
    assert (Encode(0xFEFF) + b)[3..] == b && b[0..] == b;
    if |b| >= 2 { assert b[..2] == [b[0], b[1]]; }
    if |b| >= 3 { assert b[..3] == [b[0], b[1], b[2]]; }
  }

  lemma MarkBytes()
    ensures Encode(0xFEFF) == [0xEF, 0xBB, 0xBF]
    ensures Encode16(Utf16LE, 0xFEFF) == [0xFF, 0xFE] && Encode16(Utf16BE, 0xFEFF) == [0xFE, 0xFF]
  {
  }

  lemma UnitUnique(e: Encoding, a: byte, b: byte)
    requires e != Utf8
    ensures Unit(e, a, b) < 65536 && UnitBytes(e, Unit(e, a, b)) == [a, b]
  {
  }

  lemma Char16(e: Encoding, b: seq<byte>)
    requires e != Utf8 && b != [] && NextChar(e, b).Char?
    ensures var c := NextChar(e, b); IsScalar(c.value) && b[..c.width] == Encode16(e, c.value)
  {
    hide Unit, UnitBytes;
    var c := NextChar(e, b);
    UnitUnique(e, b[0], b[1]);
    if c.width == 4 {
      UnitUnique(e, b[2], b[3]);
      PairUnique(Unit(e, b[0], b[1]), Unit(e, b[2], b[3]));
      assert b[..4] == [b[0], b[1]] + [b[2], b[3]];
    } else {
      assert b[..2] == [b[0], b[1]];
    }
  }

  lemma PairUnique(high: nat, low: nat)
    requires IsHigh(high) && IsLow(low)
    ensures var v := Pair(high, low) - 0x10000; 0 <= v < 0x100000 && v / 1024 + 0xD800 == high && v % 1024 + 0xDC00 == low
  {
  }

  /** And nothing else is accepted as UTF-16. */
  lemma {:induction false} Utf16Only(e: Encoding, b: seq<byte>) returns (vs: seq<nat>)
    requires e != Utf8 && Transcode(e, b).Some?
    ensures AllAllowed(vs) && b == Encode16All(e, vs) && Transcode(e, b).value == EncodeAll(vs)
    decreases |b|
  {
    hide Encode, Encode16, NextChar;
    vs := [];
    if b != [] {
      var c := NextChar(e, b);
      var more := Utf16Only(e, b[c.width..]);
      Char16(e, b);
      vs := [c.value] + more;
      assert vs[1..] == more;
      assert b == b[..c.width] + b[c.width..];
    }
  }
}
