/** What the emitter prints in double quotes: which characters as they are, and that the reader accepts all of it. */
module YamlPrinting {
  import opened Bytes
  import opened Sequences
  import opened Utf8
  import opened YamlChars
  import opened YamlQuoted
  import T = YamlTranscode

  // ----- which characters are printed as they are

  /** By code point: visible ASCII, spaces, and with the unicode setting everything of the basic plane that is neither a
      line separator, nor a byte order mark, nor no character at all. */
  predicate Plain(unicode: bool, v: nat) {
    || (0x20 <= v <= 0x7E && v != 0x22 && v != 0x5C)
    || (unicode && 0xA0 <= v <= 0xFFFD && v != 0x2028 && v != 0x2029 && v != 0xFEFF)
  }

  lemma CharBytes(value: seq<byte>, i: nat, w: nat)
    requires i + w <= |value| && 1 <= w <= 4
    ensures var c := value[i..i + w]; forall k :: 0 <= k < w ==> c[k] == At(value, i + k)
  {
  }

  /** The byte tests of the emitter, in terms of code points. */
  lemma EscapesExactly(style: Style, value: seq<byte>, i: nat)
    requires i < |value| && ValidUtf8(value[i..])
    ensures var w := Width(value[i]);
      && 1 <= w <= 4 && i + w <= |value|
      && (NeedsEscape(style, value, i) <==> IsBom(value) || !Plain(style.unicode, Decode(value[i..i + w])))
  {
    hide ValidUtf8, ValidChar;
    SkipChar(value, i);
    var w := Width(value[i]);
    assert 1 <= w <= 4;
    var c := value[i..i + w];
    CharBytes(value, i, w);
    PlainBytes(c);
    hide Decode;
    assert c[0] == At(value, i);
  }

  lemma PlainBytes(c: seq<byte>)
    requires ValidChar(c)
    ensures |c| == 1 ==> Decode(c) == c[0] < 0x80
    ensures |c| == 2 ==> 0xC2 <= c[0] <= 0xDF && 0x80 <= Decode(c) <= 0x7FF
    ensures |c| == 2 ==> (Decode(c) < 0xA0 <==> c[0] == 0xC2 && c[1] < 0xA0) && (Decode(c) == 0x85 <==> c[0] == 0xC2 && c[1] == 0x85)
    ensures |c| == 3 ==> 0xE0 <= c[0] <= 0xEF && 0x800 <= Decode(c) <= 0xFFFF && (c[0] == 0xED ==> c[1] < 0xA0)
    ensures |c| == 3 ==> (Decode(c) == 0x2028 <==> c[0] == 0xE2 && c[1] == 0x80 && c[2] == 0xA8)
    ensures |c| == 3 ==> (Decode(c) == 0x2029 <==> c[0] == 0xE2 && c[1] == 0x80 && c[2] == 0xA9)
    ensures |c| == 3 ==> (Decode(c) == 0xFEFF <==> c[0] == 0xEF && c[1] == 0xBB && c[2] == 0xBF)
    ensures |c| == 3 ==> (Decode(c) > 0xFFFD <==> c[0] == 0xEF && c[1] == 0xBF && (c[2] == 0xBE || c[2] == 0xBF))
    ensures |c| == 4 ==> c[0] >= 0xF0 && Decode(c) >= 0x10000
  {
    if |c| == 2 {
      TwoBytes(c);
    } else if |c| == 3 {
      ThreeByteChar(c);
    }
  }

  lemma TwoBytes(c: seq<byte>)
    requires ValidChar(c) && |c| == 2
    ensures 0xC2 <= c[0] <= 0xDF && 0x80 <= Decode(c) <= 0x7FF
    ensures (Decode(c) < 0xA0 <==> c[0] == 0xC2 && c[1] < 0xA0) && (Decode(c) == 0x85 <==> c[0] == 0xC2 && c[1] == 0x85)
  {
  }

  lemma ThreeByteChar(c: seq<byte>)
    requires ValidChar(c) && |c| == 3
    ensures 0xE0 <= c[0] <= 0xEF && 0x800 <= Decode(c) <= 0xFFFF && (c[0] == 0xED ==> c[1] < 0xA0)
    ensures Decode(c) == 0x2028 <==> c[0] == 0xE2 && c[1] == 0x80 && c[2] == 0xA8
    ensures Decode(c) == 0x2029 <==> c[0] == 0xE2 && c[1] == 0x80 && c[2] == 0xA9
    ensures Decode(c) == 0xFEFF <==> c[0] == 0xEF && c[1] == 0xBB && c[2] == 0xBF
    ensures Decode(c) > 0xFFFD <==> c[0] == 0xEF && c[1] == 0xBF && (c[2] == 0xBE || c[2] == 0xBF)
  {
    var v := Decode(c);
    assert IsScalar(v) && v > 0x7FF;
    assert 0xE0 <= c[0] <= 0xEF && 0x80 <= c[1] <= 0xBF && 0x80 <= c[2] <= 0xBF;
    var a, b, d := c[0] - 0xE0, c[1] - 0x80, c[2] - 0x80;
    assert v == Fold(Fold(a, b), d) by {
      assert c[0] % 16 == a && c[1] % 64 == b && c[2] % 64 == d;
    }
    hide ValidChar, Decode, Fold;
    ThreeBytes(a, b, d);
  }

  /** A number below 65536 has one way of being cut into 4, 6 and 6 bits. */
  lemma ThreeBytes(a: nat, b: nat, c: nat)
    requires a < 16 && b < 64 && c < 64
    ensures var v := Fold(Fold(a, b), c);
      && v < 0x10000 && (a == 13 && b >= 32 <==> 0xD800 <= v <= 0xDFFF)
      && (v == 0x2028 <==> a == 2 && b == 0 && c == 40) && (v == 0x2029 <==> a == 2 && b == 0 && c == 41)
      && (v == 0xFEFF <==> a == 15 && b == 59 && c == 63) && (v > 0xFFFD <==> a == 15 && b == 63 && c >= 62)
  {
    assert Fold(Fold(a, b), c) == 4096 * a + 64 * b + c;
  }

  predicate AllPlain(unicode: bool, b: seq<byte>)
    requires ValidUtf8(b)
    decreases |b|
  {
    b != [] ==> var w := Width(b[0]); Plain(unicode, Decode(b[..w])) && AllPlain(unicode, b[w..])
  }

  /** The rest of such a text, on a line that is long enough, is printed as it is. */
  lemma {:induction false} BodyItself(style: Style, value: seq<byte>, i: nat, column: int, spaces: bool)
    requires i <= |value| && ValidUtf8(value[i..]) && AllPlain(style.unicode, value[i..]) && !IsBom(value)
    requires style.allowBreaks ==> column + (|value| - i) <= style.bestWidth
    ensures Body(style, value, i, column, spaces) == value[i..]
    decreases |value| - i
  {
    hide ValidChar, NeedsEscape, Plain, Decode, IsBom;
    if i < |value| {
      var w := Width(value[i]);
      SkipChar(value, i);
      assert value[i..][..w] == value[i..i + w] && value[i..][w..] == value[i + w..];
      EscapesExactly(style, value, i);
      BodyItself(style, value, i + w, column + 1, value[i] == SPACE);
      assert value[i..i + w] + value[i + w..] == value[i..];
      assert value[i] == SPACE ==> value[i..i + w] == [SPACE];
    }
  }

  /** A text of such characters that fits its line is printed between quotes as it is. */
  lemma PrintsItself(style: Style, value: seq<byte>, column: int)
    requires ValidUtf8(value) && AllPlain(style.unicode, value)
    requires style.allowBreaks ==> column + 1 + |value| <= style.bestWidth
    ensures Printed(style, value, column) == [0x22] + value + [0x22]
  {
    hide ValidUtf8, Body, AllPlain, IsBom;
    assert value[0..] == value;
    NotBom(style.unicode, value);
    BodyItself(style, value, 0, column + 1, false);
  }

  lemma NotBom(unicode: bool, value: seq<byte>)
    requires ValidUtf8(value) && AllPlain(unicode, value)
    ensures !IsBom(value)
  {
    hide ValidChar, Decode;
    if IsBom(value) {
      assert value[..3] == [0xEF, 0xBB, 0xBF];
      BomValue();
    }
  }

  lemma BomValue()
    ensures Width(0xEF) == 3 && Decode([0xEF, 0xBB, 0xBF]) == 0xFEFF
  {
  }

  // ----- hexadecimal digits

  const DIGITS := "0123456789ABCDEF"

  lemma OneDigit(d: nat)
    requires d < 16
    ensures HexDigit(d) as char == DIGITS[d]
  {
  }

  /** Digits come in capital letters, the most significant first: two for the lowest byte, and before them those of the
      rest. */
  lemma HexDigits(v: nat, n: nat)
    ensures Hex(v, 2)[0] as char == DIGITS[v / 16 % 16] && Hex(v, 2)[1] as char == DIGITS[v % 16]
    ensures Hex(v, n + 2) == Hex(v / 256, n) + Hex(v, 2)
  {
    OneDigit(v / 16 % 16);
    OneDigit(v % 16);
    hide HexDigit;
    assert Hex(v / 16 / 16, 0) == [];
    assert Hex(v / 16, 1) == [] + [HexDigit(v / 16 % 16)];
    assert Hex(v / 16, n + 1) == Hex(v / 256, n) + [HexDigit(v / 16 % 16)];
    Regroup(Hex(v / 256, n), [HexDigit(v / 16 % 16)], [HexDigit(v % 16)]);
  }

  // ----- the reader accepts what is printed

  predicate Readable(b: seq<byte>) {
    T.Transcode(T.Utf8, b).Some?
  }

  lemma {:induction false} ReadableBoth(a: seq<byte>, b: seq<byte>)
    requires Readable(a) && Readable(b)
    ensures Readable(a + b)
    decreases |a|
  {
    hide T.NextChar, Encode;
    if a == [] {
      AddNothing(b);
    } else {
      var c := T.NextChar(T.Utf8, a);
      T.NextCharPrefix(T.Utf8, a, b);
      ReadableBoth(a[c.width..], b);
      assert (a + b)[c.width..] == a[c.width..] + b;
    }
  }

  lemma ReadableChar(c: seq<byte>)
    requires ValidChar(c) && T.Allowed(Decode(c))
    ensures Readable(c)
  {
    hide ValidChar, Decode, T.Allowed;
    assert 1 <= |c| && Width(c[0]) == |c| by { CharWidth(c); }
    assert c[..|c|] == c && c[|c|..] == [];
    assert T.NextChar(T.Utf8, c) == T.Char(Decode(c), |c|);
    assert T.Transcode(T.Utf8, []).Some?;
  }

  lemma CharWidth(c: seq<byte>)
    requires ValidChar(c)
    ensures 1 <= |c| <= 4 && Width(c[0]) == |c|
  {
  }

  lemma {:induction false} ReadableAscii(b: seq<byte>)
    requires forall k :: 0 <= k < |b| ==> 0x20 <= b[k] <= 0x7E || b[k] == CR || b[k] == LF
    ensures Readable(b)
  {
    if b == [] {
    } else {
      ReadableAscii(b[1..]);
      ReadableChar([b[0]]);
      ReadableBoth([b[0]], b[1..]);
      assert b == [b[0]] + b[1..];
    }
  }

  lemma ReadableEscape(v: nat)
    ensures Readable(Escape(v))
  {
    ReadableAscii(Escape(v));
  }

  lemma PlainAllowed(unicode: bool, v: nat)
    requires Plain(unicode, v) && IsScalar(v)
    ensures T.Allowed(v)
  {
  }

  lemma {:induction false} BodyReadable(style: Style, value: seq<byte>, i: nat, column: int, spaces: bool)
    requires i <= |value| && ValidUtf8(value[i..])
    ensures Readable(Body(style, value, i, column, spaces))
    decreases |value| - i
  {
    hide ValidUtf8, ValidChar, NeedsEscape, Decode, Escape, Readable, Plain, IsBom;
    if i == |value| {
      ReadableAscii([]);
    } else {
      var w := Width(value[i]);
      SkipChar(value, i);
      EscapesExactly(style, value, i);
      if NeedsEscape(style, value, i) {
        var e := Escape(Decode(value[i..i + w]));
        ReadableEscape(Decode(value[i..i + w]));
        BodyReadable(style, value, i + w, column + |e|, false);
        ReadableBoth(e, Body(style, value, i + w, column + |e|, false));
      } else if value[i] == SPACE {
        SpaceReadable(style, value, i, column, spaces);
      } else {
        var c := value[i..i + w];
        ScalarChar(c);
        PlainAllowed(style.unicode, Decode(c));
        ReadableChar(c);
        BodyReadable(style, value, i + w, column + 1, false);
        ReadableBoth(c, Body(style, value, i + w, column + 1, false));
      }
    }
  }

  lemma ScalarChar(c: seq<byte>)
    requires ValidChar(c)
    ensures 1 <= |c| <= 4 && IsScalar(Decode(c))
  {
  }

  lemma {:induction false} SpaceReadable(style: Style, value: seq<byte>, i: nat, column: int, spaces: bool)
    requires i < |value| && ValidUtf8(value[i..]) && value[i] == SPACE && !NeedsEscape(style, value, i)
    ensures Readable(Body(style, value, i, column, spaces))
    decreases |value| - i, 0
  {
    hide ValidUtf8, ValidChar, NeedsEscape, Decode, Readable;
    SkipChar(value, i);
    if Folds(style, value, i, column, spaces) {
      var guard: seq<byte> := if value[i + 1] == SPACE then [BACKSLASH] else [];
      var lead := BreakBytes(style.lineBreak) + Spaces(style.indent) + guard;
      ReadableAscii(lead);
      BodyReadable(style, value, i + 1, style.indent + |guard|, true);
      ReadableBoth(lead, Body(style, value, i + 1, style.indent + |guard|, true));
    } else {
      ReadableAscii([SPACE]);
      BodyReadable(style, value, i + 1, column + 1, true);
      ReadableBoth([SPACE], Body(style, value, i + 1, column + 1, true));
    }
  }

  /** Whatever the settings and the value: the reader accepts what is printed and passes it on unchanged. */
  lemma PrintedIsRead(style: Style, value: seq<byte>, column: int)
    requires ValidUtf8(value)
    ensures T.Transcode(T.Utf8, Printed(style, value, column)) == Some(Printed(style, value, column))
  {
    hide Body, ValidUtf8, Readable;
    assert value[0..] == value;
    var body := Body(style, value, 0, column + 1, false);
    BodyReadable(style, value, 0, column + 1, false);
    ReadableAscii([QUOTE]);
    ReadableBoth([QUOTE], body);
    ReadableBoth([QUOTE] + body, [QUOTE]);
    assert Readable(Printed(style, value, column));
    ReadableIs(Printed(style, value, column));
  }

  lemma ReadableIs(b: seq<byte>)
    requires Readable(b)
    ensures T.Transcode(T.Utf8, b) == Some(b)
  {
    T.Utf8Unchanged(b);
  }
}
