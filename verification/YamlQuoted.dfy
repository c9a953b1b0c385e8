/** Double-quoted scalars: what the emitter prints, what the scanner reads, and when the two agree. */
module YamlQuoted {
  import opened Bytes
  import opened Utf8
  import opened YamlChars

  // ----- printing

  datatype LineBreak = CrBreak | LnBreak | CrLnBreak

  /** The emitter settings that matter for one scalar. `indent` is the indentation of continuation
      lines, a negative emitter indent counting as 0. */
  datatype Style = Style(unicode: bool, allowBreaks: bool, bestWidth: int, indent: nat, lineBreak: LineBreak)

  function BreakBytes(b: LineBreak): seq<byte> {
    match b
    case CrBreak => [CR]
    case LnBreak => [LF]
    case CrLnBreak => [CR, LF]
  }

  function Spaces(n: nat): (s: seq<byte>)
    ensures |s| == n && forall k :: 0 <= k < n ==> s[k] == SPACE
  {
    seq(n, _ => SPACE)
  }

  /** The letter of a short escape sequence, if there is one for `v`. */
  function ShortEscape(v: nat): Option<byte> {
    if v == 0x00 then Some(0x30)
    else if v == 0x07 then Some(0x61)
    else if v == 0x08 then Some(0x62)
    else if v == 0x09 then Some(0x74)
    else if v == 0x0A then Some(0x6E)
    else if v == 0x0B then Some(0x76)
    else if v == 0x0C then Some(0x66)
    else if v == 0x0D then Some(0x72)
    else if v == 0x1B then Some(0x65)
    else if v == 0x22 then Some(0x22)
    else if v == 0x5C then Some(0x5C)
    else if v == 0x85 then Some(0x4E)
    else if v == 0xA0 then Some(0x5F)
    else if v == 0x2028 then Some(0x4C)
    else if v == 0x2029 then Some(0x50)
    else None
  }

  function Escape(v: nat): (e: seq<byte>)
    ensures |e| >= 2 && e[0] == BACKSLASH
  {
    if ShortEscape(v).Some? then [BACKSLASH, ShortEscape(v).value]
    else if v <= 0xFF then [BACKSLASH, 0x78] + Hex(v, 2)
    else if v <= 0xFFFF then [BACKSLASH, 0x75] + Hex(v, 4)
    else [BACKSLASH, 0x55] + Hex(v, 8)
  }

  predicate NeedsEscape(style: Style, value: seq<byte>, i: nat) {
    || !IsPrintable(value, i)
    || (!style.unicode && !IsAscii(value, i))
    || IsBom(value)
    || IsBreak(value, i)
    || At(value, i) == QUOTE
    || At(value, i) == BACKSLASH
  }

  /** Whether the space at `i` is printed as a line break. */
  predicate Folds(style: Style, value: seq<byte>, i: nat, column: int, spaces: bool) {
    style.allowBreaks && !spaces && column > style.bestWidth && 0 < i < |value| - 1
  }

  /** What is printed for `value[i..]`, starting at the given column; `spaces` tells whether the
      character before was a space. */
  function Body(style: Style, value: seq<byte>, i: nat, column: int, spaces: bool): seq<byte>
    requires i <= |value| && ValidUtf8(value[i..])
    decreases |value| - i
  {
    if i == |value| then []
    else
      var w := Width(value[i]);
      SkipChar(value, i);
      if NeedsEscape(style, value, i) then
        var e := Escape(Decode(value[i..i + w]));
        e + Body(style, value, i + w, column + |e|, false)
      else if value[i] == SPACE then
        if Folds(style, value, i, column, spaces) then
          var guard := if value[i + 1] == SPACE then [BACKSLASH] else [];
          BreakBytes(style.lineBreak) + Spaces(style.indent) + guard +
          Body(style, value, i + 1, style.indent + |guard|, true)
        else
          [SPACE] + Body(style, value, i + 1, column + 1, true)
      else
        value[i..i + w] + Body(style, value, i + w, column + 1, false)
  }

  /** The printed scalar, quotes included, when the opening quote is printed at `column`. */
  function Printed(style: Style, value: seq<byte>, column: int): seq<byte>
    requires ValidUtf8(value)
  {
    assert value[0..] == value;
    [QUOTE] + Body(style, value, 0, column + 1, false) + [QUOTE]
  }

  lemma SkipChar(value: seq<byte>, i: nat)
    requires i < |value| && ValidUtf8(value[i..])
    ensures var w := Width(value[i]);
            1 <= w && i + w <= |value| && ValidChar(value[i..i + w]) && ValidUtf8(value[i + w..])
  {
    var tail := value[i..];
    var w := Width(value[i]);
    assert tail[..w] == value[i..i + w];
    assert tail[w..] == value[i + w..];
  }

  // ----- scanning

  /** Where the scanner is: at the top of its loop, among text, or among blanks with what it has
      collected of them. */
  datatype Mode =
    | LineStart
    | Text
    | Blanks(leading: bool, white: seq<byte>, first: seq<byte>, more: seq<byte>)

  datatype Problem = DocumentIndicator | EndOfInput | UnknownEscape | BadHexNumber | BadCodePoint | BadCharacter

  datatype Scan = Scanned(text: seq<byte>, end: nat) | Rejected(problem: Problem)

  predicate IsDocumentIndicator(b: seq<byte>, p: nat) {
    && ((At(b, p) == 0x2D && At(b, p + 1) == 0x2D && At(b, p + 2) == 0x2D)
        || (At(b, p) == 0x2E && At(b, p + 1) == 0x2E && At(b, p + 2) == 0x2E))
    && IsBlankZ(b, p + 3)
  }

  /** Bytes of the line break at `p`. */
  function BreakWidth(b: seq<byte>, p: nat): (w: nat)
    requires IsBreak(b, p)
    ensures 1 <= w && p + w <= |b|
  {
    if At(b, p) == CR && At(b, p + 1) == LF then 2 else Width(At(b, p))
  }

  /** What a line break contributes: a line feed, except for the two Unicode separators. */
  function ReadLine(b: seq<byte>, p: nat): seq<byte>
    requires IsBreak(b, p)
  {
    if At(b, p) == 0xE2 then [0xE2, 0x80, At(b, p + 2)] else [LF]
  }

  /** Escapes of a single letter. */
  function Unescape(c: byte): Option<seq<byte>> {
    if c == 0x30 then Some([0])
    else if c == 0x61 then Some([0x07])
    else if c == 0x62 then Some([0x08])
    else if c == 0x74 || c == 0x09 then Some([0x09])
    else if c == 0x6E then Some([0x0A])
    else if c == 0x76 then Some([0x0B])
    else if c == 0x66 then Some([0x0C])
    else if c == 0x72 then Some([0x0D])
    else if c == 0x65 then Some([0x1B])
    else if c == 0x20 then Some([0x20])
    else if c == 0x22 then Some([0x22])
    else if c == 0x27 then Some([0x27])
    else if c == 0x5C then Some([0x5C])
    else if c == 0x4E then Some([0xC2, 0x85])
    else if c == 0x5F then Some([0xC2, 0xA0])
    else if c == 0x4C then Some([0xE2, 0x80, 0xA8])
    else if c == 0x50 then Some([0xE2, 0x80, 0xA9])
    else None
  }

  /** The number of hexadecimal digits behind an escape letter. */
  function CodeLength(c: byte): nat {
    if c == 0x78 then 2 else if c == 0x75 then 4 else if c == 0x55 then 8 else 0
  }

  predicate AllHex(b: seq<byte>, p: nat, n: nat) {
    p + n <= |b| && forall k :: p <= k < p + n ==> IsHex(b[k])
  }

  /** An escape sequence at `p`: the bytes it stands for and its length, or what is wrong with it. */
  datatype EscapeRead = Means(bytes: seq<byte>, size: nat) | Wrong(problem: Problem)

  function ReadEscape(b: seq<byte>, p: nat): (r: EscapeRead)
    requires At(b, p) == BACKSLASH
    ensures r.Means? ==> 2 <= r.size && p + r.size <= |b|
  {
    var c := At(b, p + 1);
    var n := CodeLength(c);
    if Unescape(c).Some? then Means(Unescape(c).value, 2)
    else if n == 0 then Wrong(UnknownEscape)
    else if !AllHex(b, p + 2, n) then Wrong(BadHexNumber)
    else
      var v := HexValue(b[p + 2..p + 2 + n]);
      if !IsScalar(v) then Wrong(BadCodePoint) else Means(Encode(v), 2 + n)
  }

  /** The text contributed by a run of blanks: spaces as they are, or line breaks folded. */
  function FoldedText(m: Mode): seq<byte>
    requires m.Blanks?
  {
    if !m.leading then m.white
    else if m.first != [] && m.first[0] == LF then (if m.more == [] then [SPACE] else m.more)
    else m.first + m.more
  }

  function Rank(m: Mode): nat {
    match m case LineStart => 2 case Text => 1 case Blanks(_, _, _, _) => 3
  }

  /** Scans from position `p` at column `col`, having collected `s`. */
  function ScanFrom(b: seq<byte>, p: nat, col: nat, s: seq<byte>, m: Mode): Scan
    decreases |b| - p, Rank(m)
  {
    match m
    case LineStart =>
      if col == 0 && IsDocumentIndicator(b, p) then Rejected(DocumentIndicator)
      else if At(b, p) == 0 then Rejected(EndOfInput)
      else ScanFrom(b, p, col, s, Text)
    case Text =>
      if At(b, p) == 0 then Rejected(EndOfInput)
      else if IsBlank(b, p) || IsBreak(b, p) then
        BlankStep(b, p, col, s, false, [], [], [])
      else if At(b, p) == QUOTE then Scanned(s, p + 1)
      else if At(b, p) == BACKSLASH && IsBreak(b, p + 1) then
        ScanFrom(b, p + 1 + BreakWidth(b, p + 1), 0, s, Blanks(true, [], [], []))
      else if At(b, p) == BACKSLASH then
        match ReadEscape(b, p)
        case Wrong(problem) => Rejected(problem)
        case Means(bytes, size) => ScanFrom(b, p + size, col + size, s + bytes, Text)
      else
        var w := Width(At(b, p));
        if w == 0 || p + w > |b| then Rejected(BadCharacter)
        else ScanFrom(b, p + w, col + 1, s + b[p..p + w], Text)
    case Blanks(leading, white, first, more) =>
      if IsBlank(b, p) || IsBreak(b, p) then BlankStep(b, p, col, s, leading, white, first, more)
      else ScanFrom(b, p, col, s + FoldedText(m), LineStart)
  }

  /** One blank or line break. */
  function BlankStep(b: seq<byte>, p: nat, col: nat, s: seq<byte>,
                     leading: bool, white: seq<byte>, first: seq<byte>, more: seq<byte>): Scan
    requires IsBlank(b, p) || IsBreak(b, p)
    decreases |b| - p, 0
  {
    if IsBlank(b, p) then
      ScanFrom(b, p + 1, col + 1, s, Blanks(leading, if leading then white else white + [At(b, p)], first, more))
    else
      var q := p + BreakWidth(b, p);
      if !leading then ScanFrom(b, q, 0, s, Blanks(true, [], ReadLine(b, p), more))
      else ScanFrom(b, q, 0, s, Blanks(true, white, first, more + ReadLine(b, p)))
  }

  // ----- where folding is safe

  /** Three dashes or dots and a space. */
  predicate LooksLikeIndicator(value: seq<byte>, i: nat) {
    && i + 3 < |value|
    && (value[i..i + 3] == [0x2D, 0x2D, 0x2D] || value[i..i + 3] == [0x2E, 0x2E, 0x2E])
    && value[i + 3] == SPACE
  }

  /** No continuation line printed for `value[i..]` starts at column 0 with a document indicator. */
  predicate SafeFolds(style: Style, value: seq<byte>, i: nat, column: int, spaces: bool)
    requires i <= |value| && ValidUtf8(value[i..])
    decreases |value| - i
  {
    if i == |value| then true
    else
      var w := Width(value[i]);
      SkipChar(value, i);
      if NeedsEscape(style, value, i) then
        SafeFolds(style, value, i + w, column + |Escape(Decode(value[i..i + w]))|, false)
      else if value[i] == SPACE then
        if Folds(style, value, i, column, spaces) then
          && !(style.indent == 0 && LooksLikeIndicator(value, i + 1))
          && SafeFolds(style, value, i + 1, style.indent + (if value[i + 1] == SPACE then 1 else 0), true)
        else
          SafeFolds(style, value, i + 1, column + 1, true)
      else
        SafeFolds(style, value, i + w, column + 1, false)
  }

  // ----- single characters

  lemma AtSlice(b: seq<byte>, p: nat, part: seq<byte>, rest: seq<byte>, k: nat)
    requires p <= |b| && b[p..] == part + rest && k < |part|
    ensures At(b, p + k) == part[k]
    ensures p + |part| <= |b| && b[p..p + |part|] == part && b[p + |part|..] == rest
  {
    assert b[p..][k] == part[k];
    assert b[p..p + |part|] == b[p..][..|part|];
    assert b[p + |part|..] == b[p..][|part|..];
  }

  /** A character printed as it is looks like plain text to the scanner. */
  lemma RawChar(style: Style, value: seq<byte>, i: nat, b: seq<byte>, p: nat, rest: seq<byte>)
    requires i < |value| && ValidUtf8(value[i..]) && !NeedsEscape(style, value, i) && value[i] != SPACE
    requires p <= |b| && b[p..] == value[i..i + Width(value[i])] + rest
    ensures At(b, p) == value[i] && !IsBlankZ(b, p) && At(b, p) != QUOTE && At(b, p) != BACKSLASH
    ensures p + Width(value[i]) <= |b| && b[p..p + Width(value[i])] == value[i..i + Width(value[i])]
  {
    hide ValidUtf8;
    SkipChar(value, i);
    var w := Width(value[i]);
    var c := value[i..i + w];
    AtSlice(b, p, c, rest, 0);
    if w >= 2 { AtSlice(b, p, c, rest, 1); }
    if w >= 3 { AtSlice(b, p, c, rest, 2); }
  }

  /** Every short escape is read back as the character it was printed for. */
  lemma ShortEscapeMeaning(v: nat)
    requires ShortEscape(v).Some?
    ensures Unescape(ShortEscape(v).value) == Some(Encode(v))
    ensures ShortEscape(v).value != CR && ShortEscape(v).value != LF && ShortEscape(v).value < 0x80
  {
  }

  lemma Powers()
    ensures Pow16(2) == 0x100 && Pow16(4) == 0x10000 && Pow16(8) == 0x1_0000_0000
  {
    assert Pow16(1) == 16 && Pow16(3) == 16 * Pow16(2) && Pow16(5) == 16 * Pow16(4);
    assert Pow16(6) == 16 * Pow16(5) && Pow16(7) == 16 * Pow16(6) && Pow16(8) == 16 * Pow16(7);
  }

  lemma LongEscapeMeaning(v: nat, letter: byte, n: nat, b: seq<byte>, p: nat, rest: seq<byte>)
    requires IsScalar(v) && v < Pow16(n)
    requires (letter == 0x78 && n == 2) || (letter == 0x75 && n == 4) || (letter == 0x55 && n == 8)
    requires p <= |b| && b[p..] == [BACKSLASH, letter] + Hex(v, n) + rest
    ensures At(b, p) == BACKSLASH && ReadEscape(b, p) == Means(Encode(v), 2 + n) && At(b, p + 1) == letter
  {
    hide Hex, HexValue, Pow16, Encode;
    var part := [BACKSLASH, letter] + Hex(v, n);
    AtSlice(b, p, part, rest, 0);
    AtSlice(b, p, part, rest, 1);
    assert b[p + 2..p + 2 + n] == b[p..p + 2 + n][2..];
    assert b[p + 2..p + 2 + n] == Hex(v, n);
    forall k | p + 2 <= k < p + 2 + n ensures IsHex(b[k]) {
      assert b[k] == b[p + 2..p + 2 + n][k - (p + 2)];
    }
    HexRoundTrip(v, n);
  }

  /** An escape sequence is read back as the character it was printed for. */
  lemma EscapeMeaning(c: seq<byte>, b: seq<byte>, p: nat, rest: seq<byte>)
    requires ValidChar(c) && p <= |b| && b[p..] == Escape(Decode(c)) + rest
    ensures At(b, p) == BACKSLASH && !IsBreak(b, p + 1)
    ensures ReadEscape(b, p) == Means(c, |Escape(Decode(c))|)
  {
    hide Decode, Encode, Hex, Pow16, ShortEscape, Unescape, AllHex;
    EncodeDecode(c);
    var v := Decode(c);
    Powers();
    AtSlice(b, p, Escape(v), rest, 0);
    AtSlice(b, p, Escape(v), rest, 1);
    if ShortEscape(v).Some? {
      ShortEscapeMeaning(v);
    } else if v <= 0xFF {
      LongEscapeMeaning(v, 0x78, 2, b, p, rest);
    } else if v <= 0xFFFF {
      LongEscapeMeaning(v, 0x75, 4, b, p, rest);
    } else {
      LongEscapeMeaning(v, 0x55, 8, b, p, rest);
    }
  }

  // ----- the scanner undoes the printer

  /** From `p` on, `b` holds what is printed for `value[i..]`, the closing quote and anything else. */
  ghost predicate Holds(b: seq<byte>, p: nat, style: Style, value: seq<byte>, i: nat, column: int, spaces: bool,
                        rest: seq<byte>) {
    && p <= |b| && i <= |value| && ValidUtf8(value[i..])
    && b[p..] == Body(style, value, i, column, spaces) + ([QUOTE] + rest)
  }

  /** What scanning must give, `s` being the text so far. */
  function Expected(s: seq<byte>, value: seq<byte>, i: nat, end: nat, safe: bool): Scan
    requires i <= |value|
  {
    if safe then Scanned(s + value[i..], end) else Rejected(DocumentIndicator)
  }

  lemma LeaveBlanks(b: seq<byte>, p: nat, col: nat, s: seq<byte>, white: seq<byte>)
    requires !IsBlankZ(b, p) && col >= 1
    ensures ScanFrom(b, p, col, s, Blanks(false, white, [], [])) == ScanFrom(b, p, col, s + white, Text)
  {
  }

  /** The indentation of a continuation line is dropped, and its line break counts as one space. */
  lemma {:induction false} SkipIndent(b: seq<byte>, p: nat, col: nat, s: seq<byte>, n: nat)
    requires p + n <= |b| && (forall k :: p <= k < p + n ==> b[k] == SPACE)
    requires !IsBlankZ(b, p + n)
    ensures ScanFrom(b, p, col, s, Blanks(true, [], [LF], [])) == ScanFrom(b, p + n, col + n, s + [SPACE], LineStart)
    decreases n
  {
    if n > 0 {
      SkipIndent(b, p + 1, col + 1, s, n - 1);
    }
  }

  /** A fold is read up to the text of the continuation line. */
  lemma ReadFold(b: seq<byte>, p: nat, col: nat, s: seq<byte>, style: Style, rest: seq<byte>)
    requires p <= |b| && b[p..] == BreakBytes(style.lineBreak) + Spaces(style.indent) + rest
    requires rest != [] && !IsBlankZ(rest, 0)
    ensures var q := p + |BreakBytes(style.lineBreak)| + style.indent;
            && q <= |b| && b[q..] == rest
            && ScanFrom(b, p, col, s, Text) == ScanFrom(b, q, style.indent, s + [SPACE], LineStart)
  {
    hide ScanFrom, IsBlankZ, IsBreak, IsBlank;
    var nl := BreakBytes(style.lineBreak);
    var r := p + |nl|;
    FoldLayout(b, p, nl, style.indent, rest);
    SameTail(b, r + style.indent, rest);
    NotLineFeed(rest);
    StepBreak(b, p, col, s, |nl|);
    SkipIndent(b, r, 0, s, style.indent);
  }

  lemma NotLineFeed(b: seq<byte>)
    requires !IsBlankZ(b, 0)
    ensures At(b, 0) != LF
  {
  }

  /** Where the line break, the indentation and the text of a fold are. */
  lemma FoldLayout(b: seq<byte>, p: nat, nl: seq<byte>, n: nat, rest: seq<byte>)
    requires p <= |b| && nl != [] && b[p..] == nl + Spaces(n) + rest
    ensures var r := p + |nl|;
      && r + n <= |b| && b[r + n..] == rest && (forall k :: r <= k < r + n ==> b[k] == SPACE)
      && At(b, p) == nl[0] && (|nl| == 2 ==> At(b, p + 1) == nl[1])
      && At(b, r) == if n > 0 then SPACE else At(rest, 0)
  {
    var r, tail := p + |nl|, nl + Spaces(n) + rest;
    assert forall k :: 0 <= k < |tail| ==> b[p + k] == tail[k];
    assert forall k :: r <= k < r + n ==> b[k] == tail[k - p];
    assert b[r + n..] == b[p..][|nl| + n..];
  }

  lemma StepBreak(b: seq<byte>, p: nat, col: nat, s: seq<byte>, n: nat)
    requires (n == 1 && At(b, p) == LF) || (n == 1 && At(b, p) == CR && At(b, p + 1) != LF)
             || (n == 2 && At(b, p) == CR && At(b, p + 1) == LF)
    ensures ScanFrom(b, p, col, s, Text) == ScanFrom(b, p + n, 0, s, Blanks(true, [], [LF], []))
  {
  }

  /** Character tests at `q` only depend on what follows `q`. */
  lemma SameTail(b: seq<byte>, q: nat, rest: seq<byte>)
    requires q <= |b| && b[q..] == rest
    ensures At(b, q) == At(rest, 0) && IsBreak(b, q) == IsBreak(rest, 0) && IsBlankZ(b, q) == IsBlankZ(rest, 0)
  {
    assert forall k :: 0 <= k < |rest| ==> b[q + k] == rest[k];
    assert At(b, q) == At(rest, 0) && At(b, q + 1) == At(rest, 1) && At(b, q + 2) == At(rest, 2);
  }

  lemma BodyRaw(style: Style, value: seq<byte>, i: nat, column: int, spaces: bool)
    requires i < |value| && ValidUtf8(value[i..]) && !NeedsEscape(style, value, i) && value[i] != SPACE
    ensures var w := Width(value[i]);
            && 1 <= w && i + w <= |value| && ValidUtf8(value[i + w..])
            && Body(style, value, i, column, spaces) == value[i..i + w] + Body(style, value, i + w, column + 1, false)
  {
    hide ValidUtf8, NeedsEscape, ValidChar, Escape;
    SkipChar(value, i);
  }

  lemma BodySpace(style: Style, value: seq<byte>, i: nat, column: int, spaces: bool)
    requires i < |value| && ValidUtf8(value[i..]) && !NeedsEscape(style, value, i) && value[i] == SPACE
    ensures ValidUtf8(value[i + 1..])
    ensures !Folds(style, value, i, column, spaces) ==>
              Body(style, value, i, column, spaces) == [SPACE] + Body(style, value, i + 1, column + 1, true)
    ensures Folds(style, value, i, column, spaces) ==>
              var guard := if value[i + 1] == SPACE then [BACKSLASH] else [];
              Body(style, value, i, column, spaces)
              == BreakBytes(style.lineBreak) + Spaces(style.indent) + guard +
                 Body(style, value, i + 1, style.indent + |guard|, true)
  {
    hide ValidUtf8, NeedsEscape, ValidChar, Escape, Spaces;
    SkipChar(value, i);
  }

  // What the buffer holds at the position of one character, by the way the character is printed.

  lemma AtEnd(b: seq<byte>, p: nat, style: Style, value: seq<byte>, column: int, spaces: bool, rest: seq<byte>)
    requires Holds(b, p, style, value, |value|, column, spaces, rest)
    ensures At(b, p) == QUOTE
  {
    assert [] + ([QUOTE] + rest) == [QUOTE] + rest;
    AtSlice(b, p, [QUOTE], rest, 0);
  }

  lemma AtEscape(b: seq<byte>, p: nat, style: Style, value: seq<byte>, i: nat, column: int, spaces: bool, rest: seq<byte>)
    requires i < |value| && Holds(b, p, style, value, i, column, spaces, rest) && NeedsEscape(style, value, i)
    ensures var w := Width(value[i]);
            && 1 <= w && i + w <= |value| && ValidChar(value[i..i + w])
            && var e := Escape(Decode(value[i..i + w]));
               && Holds(b, p + |e|, style, value, i + w, column + |e|, false, rest)
               && At(b, p) == BACKSLASH && !IsBreak(b, p + 1)
               && ReadEscape(b, p) == Means(value[i..i + w], |e|)
  {
    hide ValidUtf8, NeedsEscape, ReadEscape, IsBreak, Escape, Decode, ValidChar;
    SkipChar(value, i);
    var w := Width(value[i]);
    var e := Escape(Decode(value[i..i + w]));
    var tail := Body(style, value, i + w, column + |e|, false) + ([QUOTE] + rest);
    assert b[p..] == e + tail;
    AtSlice(b, p, e, tail, 0);
    EscapeMeaning(value[i..i + w], b, p, tail);
  }

  lemma AtRaw(b: seq<byte>, p: nat, style: Style, value: seq<byte>, i: nat, column: int, spaces: bool, rest: seq<byte>)
    requires i < |value| && Holds(b, p, style, value, i, column, spaces, rest)
    requires !NeedsEscape(style, value, i) && value[i] != SPACE
    ensures var w := Width(value[i]);
            && 1 <= w && i + w <= |value|
            && Holds(b, p + w, style, value, i + w, column + 1, false, rest)
            && At(b, p) == value[i] && !IsBlankZ(b, p) && At(b, p) != QUOTE && At(b, p) != BACKSLASH
            && p + w <= |b| && b[p..p + w] == value[i..i + w]
  {
    hide ValidUtf8, NeedsEscape, IsBlankZ, Body;
    BodyRaw(style, value, i, column, spaces);
    var w := Width(value[i]);
    var tail := Body(style, value, i + w, column + 1, false) + ([QUOTE] + rest);
    assert b[p..] == value[i..i + w] + tail;
    AtSlice(b, p, value[i..i + w], tail, 0);
    RawChar(style, value, i, b, p, tail);
  }

  lemma AtSpace(b: seq<byte>, p: nat, style: Style, value: seq<byte>, i: nat, column: int, spaces: bool, rest: seq<byte>)
    requires i < |value| && Holds(b, p, style, value, i, column, spaces, rest)
    requires !NeedsEscape(style, value, i) && value[i] == SPACE && !Folds(style, value, i, column, spaces)
    ensures Holds(b, p + 1, style, value, i + 1, column + 1, true, rest) && At(b, p) == SPACE
  {
    hide ValidUtf8, NeedsEscape, Body, Folds;
    BodySpace(style, value, i, column, spaces);
    var tail := Body(style, value, i + 1, column + 1, true) + ([QUOTE] + rest);
    assert b[p..] == [SPACE] + tail;
    AtSlice(b, p, [SPACE], tail, 0);
  }

  lemma AtFold(b: seq<byte>, p: nat, style: Style, value: seq<byte>, i: nat, column: int, spaces: bool, rest: seq<byte>)
    returns (tail: seq<byte>)
    requires i < |value| && Holds(b, p, style, value, i, column, spaces, rest)
    requires !NeedsEscape(style, value, i) && value[i] == SPACE && Folds(style, value, i, column, spaces)
    ensures ValidUtf8(value[i + 1..])
    ensures b[p..] == BreakBytes(style.lineBreak) + Spaces(style.indent) + tail
    ensures var guard := if value[i + 1] == SPACE then [BACKSLASH] else [];
            tail == guard + (Body(style, value, i + 1, style.indent + |guard|, true) + ([QUOTE] + rest))
  {
    hide ValidUtf8, NeedsEscape, Body, Spaces;
    BodySpace(style, value, i, column, spaces);
    var guard := if value[i + 1] == SPACE then [BACKSLASH] else [];
    var body := Body(style, value, i + 1, style.indent + |guard|, true);
    tail := guard + (body + ([QUOTE] + rest));
    var head := BreakBytes(style.lineBreak) + Spaces(style.indent);
    assert head + guard + body + ([QUOTE] + rest) == head + tail;
  }

  /** Whether what is printed for `value[i..]` begins with a given ASCII character that needs no escape. */
  lemma FirstChar(style: Style, value: seq<byte>, i: nat, column: int, spaces: bool, b: seq<byte>, p: nat,
                  rest: seq<byte>, c: byte)
    requires Holds(b, p, style, value, i, column, spaces, rest) && !IsBom(value)
    requires c == 0x2D || c == 0x2E
    ensures At(b, p) == c <==> i < |value| && value[i] == c
    ensures At(b, p) == c ==> Holds(b, p + 1, style, value, i + 1, column + 1, false, rest)
  {
    if i == |value| {
      hide *;
      AtEnd(b, p, style, value, column, spaces, rest);
    } else if value[i] == c {
      hide Holds, ValidUtf8;
      AtRaw(b, p, style, value, i, column, spaces, rest);
    } else {
      NotFirst(style, value, i, column, spaces, b, p, rest, c);
    }
  }

  lemma NotFirst(style: Style, value: seq<byte>, i: nat, column: int, spaces: bool, b: seq<byte>, p: nat,
                 rest: seq<byte>, c: byte)
    requires i < |value| && value[i] != c && Holds(b, p, style, value, i, column, spaces, rest)
    requires c == 0x2D || c == 0x2E
    ensures At(b, p) != c
  {
    hide Holds, ValidUtf8, NeedsEscape, Folds, ReadEscape, Escape, IsBlankZ, IsBreak;
    if NeedsEscape(style, value, i) {
      AtEscape(b, p, style, value, i, column, spaces, rest);
    } else if value[i] != SPACE {
      AtRaw(b, p, style, value, i, column, spaces, rest);
    } else if !Folds(style, value, i, column, spaces) {
      AtSpace(b, p, style, value, i, column, spaces, rest);
    } else {
      BreakFirst(style, value, i, column, spaces, b, p, rest);
    }
  }

  lemma BreakFirst(style: Style, value: seq<byte>, i: nat, column: int, spaces: bool, b: seq<byte>, p: nat, rest: seq<byte>)
    requires i < |value| && Holds(b, p, style, value, i, column, spaces, rest)
    requires !NeedsEscape(style, value, i) && value[i] == SPACE && Folds(style, value, i, column, spaces)
    ensures At(b, p) == CR || At(b, p) == LF
  {
    hide ValidUtf8, NeedsEscape, Folds, Body;
    var tail := AtFold(b, p, style, value, i, column, spaces, rest);
    var nl := BreakBytes(style.lineBreak);
    assert b[p..] == nl + (Spaces(style.indent) + tail);
    AtSlice(b, p, nl, Spaces(style.indent) + tail, 0);
  }

  /** A blank is printed, in one form or another, exactly for a space that is not escaped. */
  lemma BlankPrinted(style: Style, value: seq<byte>, i: nat, column: int, b: seq<byte>, p: nat, rest: seq<byte>)
    requires Holds(b, p, style, value, i, column, false, rest) && !IsBom(value)
    ensures IsBlankZ(b, p) <==> i < |value| && value[i] == SPACE
  {
    if i == |value| {
      AtEnd(b, p, style, value, column, false, rest);
    } else if value[i] == SPACE {
      hide Holds, ValidUtf8, Folds;
      if Folds(style, value, i, column, false) {
        BreakFirst(style, value, i, column, false, b, p, rest);
      } else {
        AtSpace(b, p, style, value, i, column, false, rest);
      }
    } else {
      hide Holds, ValidUtf8, NeedsEscape, Escape;
      if NeedsEscape(style, value, i) {
        AtEscape(b, p, style, value, i, column, false, rest);
      } else {
        AtRaw(b, p, style, value, i, column, false, rest);
      }
    }
  }

  /** A continuation line is mistaken for a document indicator exactly when its text looks like one. */
  lemma IndicatorPrinted(style: Style, value: seq<byte>, i: nat, column: int, spaces: bool, b: seq<byte>, p: nat,
                         rest: seq<byte>)
    requires Holds(b, p, style, value, i, column, spaces, rest) && !IsBom(value)
    ensures IsDocumentIndicator(b, p) <==> LooksLikeIndicator(value, i)
  {
    hide Holds, ValidUtf8, Body, NeedsEscape, IsBlankZ;
    IndicatorOf(style, value, i, column, spaces, b, p, rest, 0x2D);
    IndicatorOf(style, value, i, column, spaces, b, p, rest, 0x2E);
  }

  lemma IndicatorOf(style: Style, value: seq<byte>, i: nat, column: int, spaces: bool, b: seq<byte>, p: nat,
                    rest: seq<byte>, c: byte)
    requires Holds(b, p, style, value, i, column, spaces, rest) && !IsBom(value)
    requires c == 0x2D || c == 0x2E
    ensures At(b, p) == c && At(b, p + 1) == c && At(b, p + 2) == c && IsBlankZ(b, p + 3)
            <==> i + 3 < |value| && value[i..i + 3] == [c, c, c] && value[i + 3] == SPACE
  {
    hide Holds, ValidUtf8, Body, NeedsEscape, IsBlankZ;
    FirstChar(style, value, i, column, spaces, b, p, rest, c);
    if At(b, p) == c {
      FirstChar(style, value, i + 1, column + 1, false, b, p + 1, rest, c);
      if At(b, p + 1) == c {
        FirstChar(style, value, i + 2, column + 2, false, b, p + 2, rest, c);
        if At(b, p + 2) == c {
          BlankPrinted(style, value, i + 3, column + 3, b, p + 3, rest);
        }
      }
    }
    assert i + 3 <= |value| ==> value[i..i + 3] == [value[i], value[i + 1], value[i + 2]];
  }

  /** Scanning what is printed for `value[i..]` gives back `value[i..]`, or stops at the first
      continuation line that looks like a document indicator. The scanner may be among text, or among the
      spaces just printed. */
  lemma {:induction false} ScanBody(b: seq<byte>, p: nat, col: nat, s: seq<byte>, m: Mode, style: Style, value: seq<byte>,
                                    i: nat, column: int, spaces: bool, rest: seq<byte>)
    requires Holds(b, p, style, value, i, column, spaces, rest)
    requires m == Text || (spaces && m.Blanks? && m == Blanks(false, m.white, [], []))
    requires col >= 1 || (m == Text && i < |value| && value[i] != SPACE)
    ensures ScanFrom(b, p, col, s, m)
         == Expected(s + (if m.Text? then [] else m.white), value, i, |b| - |rest|,
                     SafeFolds(style, value, i, column, spaces))
    decreases |value| - i, 2
  {
    hide ScanFrom, Body, SafeFolds, ValidUtf8, NeedsEscape;
    var s' := s + if m.Text? then [] else m.white;
    if i < |value| && !NeedsEscape(style, value, i) && value[i] == SPACE {
      if Folds(style, value, i, column, spaces) {
        assert s' == s;
        ScanAtFold(b, p, col, s, style, value, i, column, spaces, rest);
      } else {
        ScanAtSpace(b, p, col, s, m, style, value, i, column, spaces, rest);
      }
    } else {
      if m.Blanks? {
        VisibleNext(b, p, style, value, i, column, spaces, rest);
        LeaveBlanks(b, p, col, s, m.white);
      } else {
        assert s' == s;
      }
      ScanVisible(b, p, col, s', style, value, i, column, spaces, rest);
    }
  }

  /** Anything but a space shows itself to the scanner. */
  lemma VisibleNext(b: seq<byte>, p: nat, style: Style, value: seq<byte>, i: nat, column: int, spaces: bool, rest: seq<byte>)
    requires i <= |value| && Holds(b, p, style, value, i, column, spaces, rest)
    requires i == |value| || NeedsEscape(style, value, i) || value[i] != SPACE
    ensures !IsBlankZ(b, p)
  {
    hide Holds, ValidUtf8, NeedsEscape, Escape;
    if i == |value| {
      AtEnd(b, p, style, value, column, spaces, rest);
    } else if NeedsEscape(style, value, i) {
      AtEscape(b, p, style, value, i, column, spaces, rest);
    } else {
      AtRaw(b, p, style, value, i, column, spaces, rest);
    }
  }

  lemma ScanVisible(b: seq<byte>, p: nat, col: nat, s: seq<byte>, style: Style, value: seq<byte>,
                    i: nat, column: int, spaces: bool, rest: seq<byte>)
    requires i <= |value| && ValidUtf8(value[i..]) && Holds(b, p, style, value, i, column, spaces, rest)
    requires i == |value| || NeedsEscape(style, value, i) || value[i] != SPACE
    ensures ScanFrom(b, p, col, s, Text)
         == Expected(s, value, i, |b| - |rest|, SafeFolds(style, value, i, column, spaces))
    decreases |value| - i, 0
  {
    hide ScanFrom, SafeFolds, Holds, ValidUtf8, NeedsEscape, IsBlankZ, IsBreak, ReadEscape, Escape, Decode, ValidChar;
    VisibleNext(b, p, style, value, i, column, spaces, rest);
    if i == |value| {
      EndsHere(b, p, style, value, column, spaces, rest);
      StepQuote(b, p, col, s);
      assert s + value[i..] == s;
      assert SafeFolds(style, value, i, column, spaces) by { NothingLeft(style, value, column, spaces); }
    } else {
      var w := Width(value[i]);
      SafeStep(style, value, i, column, spaces);
      if NeedsEscape(style, value, i) {
        AtEscape(b, p, style, value, i, column, spaces, rest);
        var n := |Escape(Decode(value[i..i + w]))|;
        StepEscape(b, p, col, s);
        ScanBody(b, p + n, col + n, s + value[i..i + w], Text, style, value, i + w, column + n, false, rest);
      } else {
        AtRaw(b, p, style, value, i, column, spaces, rest);
        StepRaw(b, p, col, s);
        ScanBody(b, p + w, col + 1, s + value[i..i + w], Text, style, value, i + w, column + 1, false, rest);
      }
      ValueSplit(s, value, i, i + w);
    }
  }

  lemma StepQuote(b: seq<byte>, p: nat, col: nat, s: seq<byte>)
    requires At(b, p) == QUOTE
    ensures ScanFrom(b, p, col, s, Text) == Scanned(s, p + 1)
  {
  }

  lemma StepEscape(b: seq<byte>, p: nat, col: nat, s: seq<byte>)
    requires At(b, p) == BACKSLASH && !IsBreak(b, p + 1) && ReadEscape(b, p).Means?
    ensures var r := ReadEscape(b, p); ScanFrom(b, p, col, s, Text) == ScanFrom(b, p + r.size, col + r.size, s + r.bytes, Text)
  {
    hide ReadEscape;
  }

  lemma StepRaw(b: seq<byte>, p: nat, col: nat, s: seq<byte>)
    requires !IsBlankZ(b, p) && At(b, p) != QUOTE && At(b, p) != BACKSLASH
    requires 1 <= Width(At(b, p)) && p + Width(At(b, p)) <= |b|
    ensures var w := Width(At(b, p)); ScanFrom(b, p, col, s, Text) == ScanFrom(b, p + w, col + 1, s + b[p..p + w], Text)
  {
    hide Width;
  }

  lemma NothingLeft(style: Style, value: seq<byte>, column: int, spaces: bool)
    ensures ValidUtf8(value[|value|..]) && SafeFolds(style, value, |value|, column, spaces)
  {
  }

  lemma SafeStep(style: Style, value: seq<byte>, i: nat, column: int, spaces: bool)
    requires i < |value| && ValidUtf8(value[i..]) && (NeedsEscape(style, value, i) || value[i] != SPACE)
    ensures var w := Width(value[i]);
            && 1 <= w && i + w <= |value| && ValidChar(value[i..i + w]) && ValidUtf8(value[i + w..])
            && SafeFolds(style, value, i, column, spaces) ==
               if NeedsEscape(style, value, i)
               then SafeFolds(style, value, i + w, column + |Escape(Decode(value[i..i + w]))|, false)
               else SafeFolds(style, value, i + w, column + 1, false)
  {
    hide ValidUtf8, NeedsEscape, Escape, Decode, ValidChar;
    SkipChar(value, i);
  }

  lemma EndsHere(b: seq<byte>, p: nat, style: Style, value: seq<byte>, column: int, spaces: bool, rest: seq<byte>)
    requires Holds(b, p, style, value, |value|, column, spaces, rest)
    ensures p + 1 == |b| - |rest| && At(b, p) == QUOTE
  {
    AtEnd(b, p, style, value, column, spaces, rest);
  }

  lemma ScanAtSpace(b: seq<byte>, p: nat, col: nat, s: seq<byte>, m: Mode, style: Style, value: seq<byte>,
                    i: nat, column: int, spaces: bool, rest: seq<byte>)
    requires Holds(b, p, style, value, i, column, spaces, rest)
    requires m == Text || (spaces && m.Blanks? && m == Blanks(false, m.white, [], []))
    requires i < |value| && !NeedsEscape(style, value, i) && value[i] == SPACE && !Folds(style, value, i, column, spaces)
    ensures ScanFrom(b, p, col, s, m)
         == Expected(s + (if m.Text? then [] else m.white), value, i, |b| - |rest|,
                     SafeFolds(style, value, i, column, spaces))
    decreases |value| - i, 0
  {
    hide ValidUtf8, NeedsEscape, Body, Folds;
    AtSpace(b, p, style, value, i, column, spaces, rest);
    var white := (if m.Text? then [] else m.white) + [SPACE];
    ScanBody(b, p + 1, col + 1, s, Blanks(false, white, [], []), style, value, i + 1, column + 1, true, rest);
    assert value[i..] == [SPACE] + value[i + 1..];
    assert s + white + value[i + 1..] == s + (if m.Text? then [] else m.white) + value[i..];
  }

  lemma ScanAtFold(b: seq<byte>, p: nat, col: nat, s: seq<byte>, style: Style, value: seq<byte>,
                   i: nat, column: int, spaces: bool, rest: seq<byte>)
    requires Holds(b, p, style, value, i, column, spaces, rest)
    requires i < |value| && !NeedsEscape(style, value, i) && value[i] == SPACE && Folds(style, value, i, column, spaces)
    ensures ScanFrom(b, p, col, s, Text)
         == Expected(s, value, i, |b| - |rest|, SafeFolds(style, value, i, column, spaces))
    decreases |value| - i, 1
  {
    hide ScanFrom, ValidUtf8, NeedsEscape, Body;
    var tail := AtFold(b, p, style, value, i, column, spaces, rest);
    if value[i + 1] == SPACE {
      SpacesAlike(style, value, i, i + 1);
      ScanGuarded(b, p, col, s, style, value, i, rest, tail);
    } else {
      ScanUnguarded(b, p, col, s, style, value, i, rest, tail);
    }
    hide SafeFolds;
    SafeAtFold(style, value, i, column, spaces);
    ValueSplit(s, value, i, i + 1);
  }

  lemma SafeAtFold(style: Style, value: seq<byte>, i: nat, column: int, spaces: bool)
    requires i < |value| && ValidUtf8(value[i..]) && value[i] == SPACE
    requires !NeedsEscape(style, value, i) && Folds(style, value, i, column, spaces)
    ensures ValidUtf8(value[i + 1..])
    ensures var n := if value[i + 1] == SPACE then 1 else 0;
      SafeFolds(style, value, i, column, spaces) ==
      (!(style.indent == 0 && LooksLikeIndicator(value, i + 1)) && SafeFolds(style, value, i + 1, style.indent + n, true))
  {
    hide ValidUtf8, NeedsEscape;
    SkipChar(value, i);
  }

  /** Text read so far, a part of the value, and the rest of it. */
  lemma ValueSplit(s: seq<byte>, value: seq<byte>, i: nat, j: nat)
    requires i <= j <= |value|
    ensures s + value[i..j] + value[j..] == s + value[i..] && s + value[i..j] + [] == s + value[i..j]
    ensures j == i + 1 ==> value[i..j] == [value[i]]
  {
    assert value[i..] == value[i..j] + value[j..];
  }

  /** Either all spaces of a value are escaped or none. */
  lemma SpacesAlike(style: Style, value: seq<byte>, i: nat, j: nat)
    requires i < |value| && j < |value| && value[i] == SPACE && value[j] == SPACE
    ensures NeedsEscape(style, value, i) == NeedsEscape(style, value, j)
  {
  }

  /** The continuation line starts with an escaped space. */
  lemma ScanGuarded(b: seq<byte>, p: nat, col: nat, s: seq<byte>, style: Style, value: seq<byte>, i: nat,
                    rest: seq<byte>, tail: seq<byte>)
    requires p <= |b| && i + 1 < |value| && value[i] == SPACE && value[i + 1] == SPACE
    requires !NeedsEscape(style, value, i) && !NeedsEscape(style, value, i + 1) && ValidUtf8(value[i + 1..])
    requires b[p..] == BreakBytes(style.lineBreak) + Spaces(style.indent) + tail
    requires tail == [BACKSLASH] + (Body(style, value, i + 1, style.indent + 1, true) + ([QUOTE] + rest))
    ensures !LooksLikeIndicator(value, i + 1)
    ensures ScanFrom(b, p, col, s, Text)
         == Expected(s + [SPACE], value, i + 1, |b| - |rest|, SafeFolds(style, value, i + 1, style.indent + 1, true))
    decreases |value| - i, 0
  {
    hide ScanFrom, ValidUtf8, Body, SafeFolds, Holds;
    ReadFold(b, p, col, s, style, tail);
    var q := p + |BreakBytes(style.lineBreak)| + style.indent;
    AfterGuard(b, q, style, value, i + 1, rest, tail);
    ReadEscapedSpace(b, q, style.indent, s + [SPACE]);
    var s2 := s + [SPACE] + [SPACE];
    ScanBody(b, q + 2, style.indent + 2, s2, Text, style, value, i + 2, style.indent + 2, true, rest);
    assert s2 + [] == s2 && s2 + value[i + 2..] == s + [SPACE] + value[i + 1..];
  }

  lemma AfterGuard(b: seq<byte>, q: nat, style: Style, value: seq<byte>, i: nat, rest: seq<byte>, tail: seq<byte>)
    requires q <= |b| && b[q..] == tail && i < |value| && value[i] == SPACE
    requires !NeedsEscape(style, value, i) && ValidUtf8(value[i..])
    requires tail == [BACKSLASH] + (Body(style, value, i, style.indent + 1, true) + ([QUOTE] + rest))
    ensures At(b, q) == BACKSLASH && At(b, q + 1) == SPACE
    ensures Holds(b, q + 2, style, value, i + 1, style.indent + 2, true, rest)
    ensures SafeFolds(style, value, i, style.indent + 1, true) == SafeFolds(style, value, i + 1, style.indent + 2, true)
  {
    hide ValidUtf8, Body, NeedsEscape;
    SkipChar(value, i);
    AtSlice(b, q, [BACKSLASH], Body(style, value, i, style.indent + 1, true) + ([QUOTE] + rest), 0);
    assert Holds(b, q + 1, style, value, i, style.indent + 1, true, rest);
    AtSpace(b, q + 1, style, value, i, style.indent + 1, true, rest);
  }

  lemma ReadEscapedSpace(b: seq<byte>, q: nat, col: nat, s: seq<byte>)
    requires At(b, q) == BACKSLASH && At(b, q + 1) == SPACE
    ensures ScanFrom(b, q, col, s, LineStart) == ScanFrom(b, q + 2, col + 2, s + [SPACE], Text)
  {
    SpaceEscape(b, q);
    hide ReadEscape, BlankStep;
    assert ScanFrom(b, q, col, s, LineStart) == ScanFrom(b, q, col, s, Text);
  }

  lemma SpaceEscape(b: seq<byte>, q: nat)
    requires At(b, q) == BACKSLASH && At(b, q + 1) == SPACE
    ensures ReadEscape(b, q) == Means([SPACE], 2)
  {
  }

  /** The continuation line starts with text. */
  lemma ScanUnguarded(b: seq<byte>, p: nat, col: nat, s: seq<byte>, style: Style, value: seq<byte>, i: nat,
                      rest: seq<byte>, tail: seq<byte>)
    requires p <= |b| && i + 1 < |value| && value[i] == SPACE && value[i + 1] != SPACE
    requires !NeedsEscape(style, value, i) && ValidUtf8(value[i + 1..])
    requires b[p..] == BreakBytes(style.lineBreak) + Spaces(style.indent) + tail
    requires tail == [] + (Body(style, value, i + 1, style.indent, true) + ([QUOTE] + rest))
    ensures ScanFrom(b, p, col, s, Text)
         == Expected(s + [SPACE], value, i + 1, |b| - |rest|,
                     !(style.indent == 0 && LooksLikeIndicator(value, i + 1))
                     && SafeFolds(style, value, i + 1, style.indent, true))
    decreases |value| - i, 0
  {
    hide ValidUtf8, Body, SafeFolds, LooksLikeIndicator, IsDocumentIndicator, IsBreak, Spaces, BreakBytes, ScanFrom, NeedsEscape;
    var q := p + |BreakBytes(style.lineBreak)| + style.indent;
    var t2 := Body(style, value, i + 1, style.indent, true) + ([QUOTE] + rest);
    assert tail == t2;
    assert !IsBom(value) by { NoBom(style, value, i); }
    TailVisible(style, value, i + 1, rest, tail);
    ReadFold(b, p, col, s, style, tail);
    assert Holds(b, q, style, value, i + 1, style.indent, true, rest);
    IndicatorPrinted(style, value, i + 1, style.indent, true, b, q, rest);
    SameTail(b, q, tail);
    LineBegins(b, q, style.indent, s + [SPACE]);
    ScanBody(b, q, style.indent, s + [SPACE], Text, style, value, i + 1, style.indent, true, rest);
    assert s + [SPACE] + [] == s + [SPACE];
  }

  lemma NoBom(style: Style, value: seq<byte>, i: nat)
    requires !NeedsEscape(style, value, i)
    ensures !IsBom(value)
  {
  }

  lemma LineBegins(b: seq<byte>, q: nat, col: nat, s: seq<byte>)
    requires !IsBlankZ(b, q)
    ensures ScanFrom(b, q, col, s, LineStart)
         == if col == 0 && IsDocumentIndicator(b, q) then Rejected(DocumentIndicator) else ScanFrom(b, q, col, s, Text)
  {
  }

  lemma TailVisible(style: Style, value: seq<byte>, i: nat, rest: seq<byte>, tail: seq<byte>)
    requires i < |value| && ValidUtf8(value[i..]) && value[i] != SPACE
    requires tail == Body(style, value, i, style.indent, true) + ([QUOTE] + rest)
    ensures tail != [] && !IsBlankZ(tail, 0)
  {
    hide ValidUtf8, Body;
    assert tail[0..] == tail;
    assert Holds(tail, 0, style, value, i, style.indent, true, rest);
    VisibleNext(tail, 0, style, value, i, style.indent, true, rest);
  }

  // ----- the whole scalar

  /** The scanner on a quoted scalar that starts at position `p` and column `col`. */
  function ScanScalar(b: seq<byte>, p: nat, col: nat): Scan
    requires p < |b|
  {
    ScanFrom(b, p + 1, col + 1, [], LineStart)
  }

  /** The printing function on its own: what it prints for any indentation, 0 included, is scanned back
      exactly when no continuation line at column 0 looks like a document indicator. */
  lemma PrintedScan(style: Style, value: seq<byte>, column: int, before: seq<byte>, rest: seq<byte>, col: nat)
    requires ValidUtf8(value)
    ensures value[0..] == value
    ensures var b := before + Printed(style, value, column) + rest;
            ScanScalar(b, |before|, col) ==
            if SafeFolds(style, value, 0, column + 1, false)
            then Scanned(value, |before| + |Printed(style, value, column)|) else Rejected(DocumentIndicator)
  {
    hide Body, SafeFolds, ValidUtf8, NeedsEscape;
    assert value[0..] == value;
    var printed := Printed(style, value, column);
    var b := before + printed + rest;
    var p := |before| + 1;
    assert b[p..] == Body(style, value, 0, column + 1, false) + ([QUOTE] + rest);
    assert Holds(b, p, style, value, 0, column + 1, false, rest);
    StartsVisibly(b, p, style, value, column + 1, rest);
    ScanBody(b, p, col + 1, [], Text, style, value, 0, column + 1, false, rest);
    assert [] + [] + value[0..] == value;
  }

  /** The first character is never a NUL. */
  lemma StartsVisibly(b: seq<byte>, p: nat, style: Style, value: seq<byte>, column: int, rest: seq<byte>)
    requires Holds(b, p, style, value, 0, column, false, rest)
    ensures At(b, p) != 0
  {
    hide Holds, ValidUtf8, NeedsEscape, Escape;
    if value != [] && !NeedsEscape(style, value, 0) && value[0] == SPACE {
      AtSpace(b, p, style, value, 0, column, false, rest);
    } else {
      VisibleNext(b, p, style, value, 0, column, false, rest);
    }
  }

  /** Indented continuation lines are always safe. */
  lemma {:induction false} IndentedIsSafe(style: Style, value: seq<byte>, i: nat, column: int, spaces: bool)
    requires i <= |value| && ValidUtf8(value[i..]) && (style.indent > 0 || !style.allowBreaks)
    ensures SafeFolds(style, value, i, column, spaces)
    decreases |value| - i
  {
    hide ValidUtf8, NeedsEscape, Escape, Decode, ValidChar;
    if i < |value| {
      SkipChar(value, i);
      var w := Width(value[i]);
      if NeedsEscape(style, value, i) {
        IndentedIsSafe(style, value, i + w, column + |Escape(Decode(value[i..i + w]))|, false);
      } else if value[i] == SPACE {
        if Folds(style, value, i, column, spaces) {
          IndentedIsSafe(style, value, i + 1, style.indent + (if value[i + 1] == SPACE then 1 else 0), true);
        } else {
          IndentedIsSafe(style, value, i + 1, column + 1, true);
        }
      } else {
        IndentedIsSafe(style, value, i + w, column + 1, false);
      }
    }
  }

  /** With the indentation that the emitter always gives it, a printed scalar is scanned back as itself,
      whatever comes before and after it. */
  lemma QuotedRoundTrip(style: Style, value: seq<byte>, column: int, before: seq<byte>, rest: seq<byte>, col: nat)
    requires ValidUtf8(value) && style.indent >= 2
    ensures var b := before + Printed(style, value, column) + rest;
            ScanScalar(b, |before|, col) == Scanned(value, |before| + |Printed(style, value, column)|)
  {
    hide Body, SafeFolds, ValidUtf8, ScanFrom;
    assert value[0..] == value;
    IndentedIsSafe(style, value, 0, column + 1, false);
    PrintedScan(style, value, column, before, rest, col);
  }
}
