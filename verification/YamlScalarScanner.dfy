/** The scanner's loops over a double-quoted scalar, and the round trip through emitter and scanner. */
module YamlScalarScanner {
  import opened Bytes
  import opened Utf8
  import opened YamlChars
  import opened YamlQuoted
  import opened YamlEmitter

  /** Reads the escape sequence at `p`. */
  method ScanEscape(b: seq<byte>, p: nat) returns (r: EscapeRead)
    requires At(b, p) == BACKSLASH
    ensures r == ReadEscape(b, p)
  {
    hide HexValue;
    var c := At(b, p + 1);
    var short := Unescape(c);
    if short.Some? { return Means(short.value, 2); }
    var n := CodeLength(c);
    if n == 0 { return Wrong(UnknownEscape); }
    var value, k := 0, 0;
    assert p + 2 <= |b|;
    HexOfNone();
    assert b[p + 2..p + 2] == [];
    while k < n
      invariant 0 <= k <= n && AllHex(b, p + 2, k) && value == HexValue(b[p + 2..p + 2 + k])
    {
      if !IsHex(At(b, p + 2 + k)) {
        assert p + 2 + k < |b| ==> !IsHex(b[p + 2 + k]);
        return Wrong(BadHexNumber);
      }
      assert b[p + 2..p + 3 + k] == b[p + 2..p + 2 + k] + [b[p + 2 + k]];
      HexOfMore(b[p + 2..p + 2 + k], b[p + 2 + k]);
      value := 16 * value + AsHex(At(b, p + 2 + k));
      k := k + 1;
    }
    if (0xD800 <= value <= 0xDFFF) || value > 0x10FFFF { return Wrong(BadCodePoint); }
    return Means(Encode(value), 2 + n);
  }

  lemma HexOfNone()
    ensures HexValue([]) == 0
  {
  }

  lemma HexOfMore(h: seq<byte>, c: byte)
    requires IsHex(c) && forall k :: 0 <= k < |h| ==> IsHex(h[k])
    ensures HexValue(h + [c]) == 16 * HexValue(h) + AsHex(c)
  {
    assert (h + [c])[..|h|] == h;
  }

  /** Where a run of text ended: with an error, at an escaped line break, or at a blank or a quote. */
  datatype TextEnd = Bad(problem: Problem) | AtLineBreak | AtBlankOrQuote

  /** One step of text that is neither blank nor the closing quote. */
  lemma TextStep(b: seq<byte>, p: nat, col: nat, s: seq<byte>)
    requires !IsBlankZ(b, p) && At(b, p) != QUOTE
    ensures p < |b| && (IsBreak(b, p + 1) ==> p + 1 + BreakWidth(b, p + 1) <= |b|)
    ensures At(b, p) == BACKSLASH && IsBreak(b, p + 1) ==>
      ScanFrom(b, p, col, s, Text) == ScanFrom(b, p + 1 + BreakWidth(b, p + 1), 0, s, Blanks(true, [], [], []))
    ensures At(b, p) == BACKSLASH && !IsBreak(b, p + 1) ==>
      ScanFrom(b, p, col, s, Text) == (var r := ReadEscape(b, p);
        if r.Wrong? then Rejected(r.problem) else ScanFrom(b, p + r.size, col + r.size, s + r.bytes, Text))
    ensures At(b, p) != BACKSLASH ==>
      ScanFrom(b, p, col, s, Text) == (var w := Width(b[p]);
        if w == 0 || p + w > |b| then Rejected(BadCharacter) else ScanFrom(b, p + w, col + 1, s + b[p..p + w], Text))
  {
    hide ReadEscape, BlankStep;
  }

  /** Consumes text up to the next blank, line break or closing quote. */
  method ScanText(b: seq<byte>, p0: nat, col0: nat, s0: seq<byte>) returns (end: TextEnd, p: nat, col: nat, s: seq<byte>)
    requires p0 <= |b|
    ensures p0 <= p <= |b|
    ensures end.Bad? ==> ScanFrom(b, p0, col0, s0, Text) == Rejected(end.problem)
    ensures end.AtLineBreak? ==> p0 < p && ScanFrom(b, p0, col0, s0, Text) == ScanFrom(b, p, col, s, Blanks(true, [], [], []))
    ensures end.AtBlankOrQuote? ==>
              && ScanFrom(b, p0, col0, s0, Text) == ScanFrom(b, p, col, s, Text)
              && (IsBlankZ(b, p) || At(b, p) == QUOTE)
  {
    hide ReadEscape, Encode, ScanFrom, IsBlankZ, IsBreak, BreakWidth;
    p, col, s := p0, col0, s0;
    while !IsBlankZ(b, p)
      invariant p0 <= p <= |b| && ScanFrom(b, p0, col0, s0, Text) == ScanFrom(b, p, col, s, Text)
      decreases |b| - p
    {
      if At(b, p) == QUOTE {
        break;
      }
      TextStep(b, p, col, s);
      if At(b, p) == BACKSLASH && IsBreak(b, p + 1) {
        return AtLineBreak, p + 1 + BreakWidth(b, p + 1), 0, s;
      } else if At(b, p) == BACKSLASH {
        var r := ScanEscape(b, p);
        if r.Wrong? { return Bad(r.problem), p, col, s; }
        p, col, s := p + r.size, col + r.size, s + r.bytes;
      } else {
        var w := Width(At(b, p));
        if w == 0 || p + w > |b| { return Bad(BadCharacter), p, col, s; }
        p, col, s := p + w, col + 1, s + b[p..p + w];
      }
    }
    end := AtBlankOrQuote;
  }

  /** Consumes blanks and line breaks, keeping what may have to be joined. */
  method ScanBlanks(b: seq<byte>, p0: nat, col0: nat, ghost s: seq<byte>, leading0: bool)
    returns (p: nat, col: nat, m: Mode)
    requires p0 <= |b|
    ensures p0 <= p <= |b| && m.Blanks? && !IsBlank(b, p) && !IsBreak(b, p)
    ensures IsBlank(b, p0) || IsBreak(b, p0) ==> p0 < p
    ensures ScanFrom(b, p0, col0, s, Blanks(leading0, [], [], [])) == ScanFrom(b, p, col, s, m)
  {
    p, col, m := p0, col0, Blanks(leading0, [], [], []);
    while IsBlank(b, p) || IsBreak(b, p)
      invariant p0 <= p <= |b| && m.Blanks? && (p == p0 || p0 < p)
      invariant ScanFrom(b, p0, col0, s, Blanks(leading0, [], [], [])) == ScanFrom(b, p, col, s, m)
      decreases |b| - p
    {
      if IsBlank(b, p) {
        if !m.leading { m := m.(white := m.white + [At(b, p)]); }
        p, col := p + 1, col + 1;
      } else {
        if !m.leading {
          m := Blanks(true, [], ReadLine(b, p), m.more);
        } else {
          m := m.(more := m.more + ReadLine(b, p));
        }
        p, col := p + BreakWidth(b, p), 0;
      }
    }
  }

  /** Scans a double-quoted scalar whose opening quote is at `start`. */
  method ScanDoubleQuoted(b: seq<byte>, start: nat, startCol: nat) returns (r: Scan)
    requires start < |b|
    ensures r == ScanScalar(b, start, startCol)
  {
    hide ScanFrom;
    var p: nat, col: nat, s: seq<byte> := start + 1, startCol + 1, [];
    while true
      invariant p <= |b| && ScanFrom(b, p, col, s, LineStart) == ScanScalar(b, start, startCol)
      decreases |b| - p
    {
      AtLineStart(b, p, col, s);
      if col == 0 && IsDocumentIndicator(b, p) { return Rejected(DocumentIndicator); }
      if At(b, p) == 0 { return Rejected(EndOfInput); }
      var end;
      end, p, col, s := ScanText(b, p, col, s);
      if end.Bad? { return Rejected(end.problem); }
      AfterText(b, p, col, s, end.AtLineBreak?);
      if At(b, p) == QUOTE { return Scanned(s, p + 1); }
      var m;
      p, col, m := ScanBlanks(b, p, col, s, end.AtLineBreak?);
      AfterBlanks(b, p, col, s, m);
      s := s + FoldedText(m);
    }
  }

  lemma AtLineStart(b: seq<byte>, p: nat, col: nat, s: seq<byte>)
    ensures ScanFrom(b, p, col, s, LineStart) ==
            if col == 0 && IsDocumentIndicator(b, p) then Rejected(DocumentIndicator)
            else if At(b, p) == 0 then Rejected(EndOfInput)
            else ScanFrom(b, p, col, s, Text)
  {
  }

  lemma AfterText(b: seq<byte>, p: nat, col: nat, s: seq<byte>, broke: bool)
    requires broke || IsBlankZ(b, p) || At(b, p) == QUOTE
    ensures At(b, p) == QUOTE ==> ScanFrom(b, p, col, s, if broke then Blanks(true, [], [], []) else Text) == Scanned(s, p + 1)
    ensures !broke && At(b, p) != QUOTE ==> ScanFrom(b, p, col, s, Text) == ScanFrom(b, p, col, s, Blanks(false, [], [], []))
  {
    assert s + [] == s;
    assert FoldedText(Blanks(true, [], [], [])) == [];
    if !broke && At(b, p) == 0 {
      assert FoldedText(Blanks(false, [], [], [])) == [];
      AtLineStart(b, p, col, s);
    }
    if broke && At(b, p) == QUOTE {
      AtLineStart(b, p, col, s);
    }
  }

  lemma AfterBlanks(b: seq<byte>, p: nat, col: nat, s: seq<byte>, m: Mode)
    requires m.Blanks? && !IsBlank(b, p) && !IsBreak(b, p)
    ensures ScanFrom(b, p, col, s, m) == ScanFrom(b, p, col, s + FoldedText(m), LineStart)
  {
  }

  /** Emits a scalar from any state that the emitter can be in and scans what was printed, whatever follows
      it: the value comes back, for every valid UTF-8 value, width, unicode setting and line-break style. */
  method EmitAndScan(e: Emitter, value: seq<byte>, simpleKeyContext: bool, rest: seq<byte>, col: nat) returns (r: Scan)
    requires e.Started() && ValidUtf8(value)
    modifies e, e.buffer
    ensures e.Started() && e.indent == old(e.indent) && e.indents == old(e.indents)
    ensures r == Scanned(value, |e.Contents()|)
  {
    hide Body, ValidUtf8, ScanFrom;
    var before := e.Output();
    var gap := if e.whitespace then [] else [SPACE];
    ghost var style := Style(e.unicode, !simpleKeyContext, e.bestWidth,
                             if e.indent < 0 then e.bestIndent else e.indent + e.bestIndent, e.lineBreak);
    ghost var column := e.column + |gap|;
    e.EmitScalar(value, simpleKeyContext);
    var output := e.Output();
    QuotedRoundTrip(style, value, column, before + gap, rest, col);
    r := ScanDoubleQuoted(output + rest, |before + gap|, col);
  }

  /** What an emitter does after the start of the stream, as far as its layout goes. */
  datatype Move =
    | Deeper(flow: bool, indentless: bool)
    | Back
    | Other(text: seq<byte>, column: nat, whitespace: bool, indention: bool)
    | Quoted(value: seq<byte>, simpleKey: bool)

  /** Levels are left only after they were entered, and scalars are valid UTF-8. */
  predicate Orderly(moves: seq<Move>, depth: nat)
    decreases |moves|
  {
    moves == [] ||
    match moves[0]
    case Deeper(_, _) => Orderly(moves[1..], depth + 1)
    case Back => depth > 0 && Orderly(moves[1..], depth - 1)
    case Other(_, _, _, _) => Orderly(moves[1..], depth)
    case Quoted(value, _) => ValidUtf8(value) && Orderly(moves[1..], depth)
  }

  function Scalars(moves: seq<Move>): seq<seq<byte>> {
    if moves == [] then []
    else (if moves[0].Quoted? then [moves[0].value] else []) + Scalars(moves[1..])
  }

  /** The first move, and what it leaves to be done. */
  lemma FirstMove(moves: seq<Move>, depth: nat)
    requires moves != [] && Orderly(moves, depth)
    ensures Scalars(moves) == (if moves[0].Quoted? then [moves[0].value] else []) + Scalars(moves[1..])
    ensures moves[0].Deeper? ==> Orderly(moves[1..], depth + 1)
    ensures moves[0].Back? ==> depth > 0 && Orderly(moves[1..], depth - 1)
    ensures moves[0].Other? ==> Orderly(moves[1..], depth)
    ensures moves[0].Quoted? ==> ValidUtf8(moves[0].value) && Orderly(moves[1..], depth)
  {
    hide ValidUtf8;
  }

  /** One move; a quoted scalar is scanned as it was printed. */
  method Perform(e: Emitter, move: Move) returns (values: seq<seq<byte>>)
    requires e.Started() && (move.Back? ==> e.indents != []) && (move.Quoted? ==> ValidUtf8(move.value))
    modifies e, e.buffer
    ensures e.Started() && values == if move.Quoted? then [move.value] else []
    ensures |e.indents| == |old(e.indents)| + (if move.Deeper? then 1 else if move.Back? then -1 else 0)
  {
    hide ValidUtf8;
    values := [];
    match move {
      case Deeper(flow, indentless) => e.IncreaseIndent(flow, indentless);
      case Back => e.DecreaseIndent();
      case Other(text, column, whitespace, indention) => e.EmitOther(text, column, whitespace, indention);
      case Quoted(value, simpleKey) =>
        var r := EmitAndScan(e, value, simpleKey, [], e.column);
        values := [r.text];
    }
  }

  /** A whole run of the emitter, from any settings: every double-quoted scalar is scanned back as it was. */
  method EmitAll(unicode: bool, bestIndent: int, bestWidth: int, lineBreak: Option<LineBreak>, moves: seq<Move>)
    returns (values: seq<seq<byte>>)
    requires Orderly(moves, 0)
    ensures values == Scalars(moves)
  {
    hide Orderly, Scalars, ValidUtf8;
    var e := new Emitter(unicode, bestIndent, bestWidth, lineBreak);
    values := [];
    var left: seq<Move> := moves;
    while left != []
      invariant e.Started() && fresh(e) && fresh(e.buffer)
      invariant Orderly(left, |e.indents|) && values + Scalars(left) == Scalars(moves)
      decreases |left|
    {
      FirstMove(left, |e.indents|);
      var more := Perform(e, left[0]);
      assert values + more + Scalars(left[1..]) == values + (more + Scalars(left[1..]));
      values, left := values + more, left[1..];
    }
    NoMoves();
  }

  lemma NoMoves()
    ensures Scalars([]) == []
  {
  }
}
