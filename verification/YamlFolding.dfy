/** What a double-quoted scalar of several lines means (section 7.3.1 of YAML 1.2), said without the scanner. */
module YamlFolding {
  import opened Bytes
  import opened Sequences
  import opened Utf8
  import opened YamlChars
  import opened YamlQuoted

  // ----- how such a scalar is spelled

  /** Text without blanks, line breaks, quotes, backslashes and NULs. */
  predicate Solid(u: seq<byte>)
    decreases |u|
  {
    u != [] ==>
      var w := Width(u[0]);
      && 1 <= w <= |u| && ValidChar(u[..w])
      && !IsBlankZ(u[..w], 0) && u[0] != QUOTE && u[0] != BACKSLASH
      && Solid(u[w..])
  }

  predicate AllBlank(b: seq<byte>) {
    forall i :: 0 <= i < |b| ==> b[i] == SPACE || b[i] == TAB
  }

  datatype Break = Cr | Lf | CrLf | Nel | Ls | Ps

  function BreakText(k: Break): (b: seq<byte>)
    ensures |b| > 0
  {
    match k
    case Cr => [CR]
    case Lf => [LF]
    case CrLf => [CR, LF]
    case Nel => [0xC2, 0x85]
    case Ls => [0xE2, 0x80, 0xA8]
    case Ps => [0xE2, 0x80, 0xA9]
  }

  /** A line break and the blanks at the start of the next line. */
  datatype Line = Line(nl: Break, indent: seq<byte>)

  function LinesText(lines: seq<Line>): seq<byte> {
    if lines == [] then [] else BreakText(lines[0].nl) + lines[0].indent + LinesText(lines[1..])
  }

  /** Indentation is blank, and a carriage return is not followed by a line feed of its own. */
  predicate LinesSpelled(lines: seq<Line>) {
    lines != [] ==>
      && AllBlank(lines[0].indent)
      && (lines[0] == Line(Cr, []) && |lines| > 1 ==> lines[1].nl != Lf)
      && LinesSpelled(lines[1..])
  }

  /** What may come between two pieces of text: blanks, a fold with blanks before its first line break, or a
      line break escaped by a backslash and any after it. */
  datatype Gap = Blank(white: seq<byte>) | Fold(white: seq<byte>, lines: seq<Line>) | Escaped(lines: seq<Line>)

  function GapText(g: Gap): seq<byte> {
    match g
    case Blank(white) => white
    case Fold(white, lines) => white + LinesText(lines)
    case Escaped(lines) => [BACKSLASH] + LinesText(lines)
  }

  predicate GapSpelled(g: Gap) {
    match g
    case Blank(white) => white != [] && AllBlank(white)
    case Fold(white, lines) => AllBlank(white) && lines != [] && LinesSpelled(lines)
    case Escaped(lines) => lines != [] && LinesSpelled(lines)
  }

  /** A gap and the text after it. */
  datatype Piece = Piece(gap: Gap, text: seq<byte>)

  function Spelling(u: seq<byte>, pieces: seq<Piece>): seq<byte>
    decreases |pieces|
  {
    u + if pieces == [] then [] else GapText(pieces[0].gap) + Spelling(pieces[0].text, pieces[1..])
  }

  predicate AtMargin(g: Gap) {
    !g.Blank? && g.lines != [] && g.lines[|g.lines| - 1].indent == []
  }

  /** Gaps are separated by text, and no line starts with a document indicator. */
  predicate Spelled(u: seq<byte>, pieces: seq<Piece>)
    decreases |pieces|
  {
    && Solid(u)
    && (pieces != [] ==>
          && GapSpelled(pieces[0].gap) && Spelled(pieces[0].text, pieces[1..])
          && (|pieces| > 1 ==> pieces[0].text != [])
          && (|pieces| > 1 && AtMargin(pieces[0].gap) ==>
                pieces[0].text != [0x2D, 0x2D, 0x2D] && pieces[0].text != [0x2E, 0x2E, 0x2E]))
  }

  // ----- what it means

  /** What a line break that is not folded away stands for. */
  function Kept(lines: seq<Line>): seq<byte> {
    if lines == [] then []
    else (if lines[0].nl.Ls? || lines[0].nl.Ps? then BreakText(lines[0].nl) else [LF]) + Kept(lines[1..])
  }

  function GapMeaning(g: Gap): seq<byte>
    requires GapSpelled(g)
  {
    match g
    case Blank(white) => white
    case Escaped(lines) => Kept(lines[1..])
    case Fold(_, lines) =>
      if lines[0].nl.Ls? || lines[0].nl.Ps? then Kept(lines)
      else if |lines| == 1 then [SPACE]
      else Kept(lines[1..])
  }

  function Meaning(u: seq<byte>, pieces: seq<Piece>): seq<byte>
    requires Spelled(u, pieces)
    decreases |pieces|
  {
    u + if pieces == [] then [] else GapMeaning(pieces[0].gap) + Meaning(pieces[0].text, pieces[1..])
  }

  // ----- text

  /** The number of characters. */
  function Chars(u: seq<byte>): (n: nat)
    requires Solid(u)
    ensures u != [] ==> n >= 1
    decreases |u|
  {
    if u == [] then 0 else 1 + Chars(u[Width(u[0])..])
  }

  lemma FirstSolid(u: seq<byte>, b: seq<byte>, p: nat, rest: seq<byte>)
    requires u != [] && Solid(u) && p <= |b| && b[p..] == u + rest
    ensures var w := Width(u[0]);
      && 1 <= w <= |u| && p + w <= |b| && At(b, p) == u[0] && b[p..p + w] == u[..w] && b[p + w..] == u[w..] + rest
      && !IsBlankZ(b, p) && At(b, p) != QUOTE && At(b, p) != BACKSLASH
  {
    hide Solid, ValidChar;
    assert Solid(u) ==> var w := Width(u[0]); 1 <= w <= |u| && ValidChar(u[..w]) && !IsBlankZ(u[..w], 0)
                                              && u[0] != QUOTE && u[0] != BACKSLASH by { OpenSolid(u); }
    var w := Width(u[0]);
    var c := u[..w];
    assert u + rest == c + (u[w..] + rest);
    AtSlice(b, p, c, u[w..] + rest, 0);
    CharClasses(b, p, c, u[w..] + rest);
  }

  lemma OpenSolid(u: seq<byte>)
    requires u != [] && Solid(u)
    ensures var w := Width(u[0]);
      1 <= w <= |u| && ValidChar(u[..w]) && !IsBlankZ(u[..w], 0) && u[0] != QUOTE && u[0] != BACKSLASH && Solid(u[w..])
  {
  }

  /** Whether a character is a blank or a line break is decided by its own bytes. */
  lemma CharClasses(b: seq<byte>, p: nat, c: seq<byte>, rest: seq<byte>)
    requires ValidChar(c) && p <= |b| && b[p..] == c + rest && !IsBlankZ(c, 0)
    ensures !IsBlankZ(b, p)
  {
    AtSlice(b, p, c, rest, 0);
    if |c| >= 2 { AtSlice(b, p, c, rest, 1); }
    if |c| >= 3 { AtSlice(b, p, c, rest, 2); }
  }

  lemma {:induction false} SkipText(b: seq<byte>, p: nat, col: nat, s: seq<byte>, u: seq<byte>, rest: seq<byte>)
    requires Solid(u) && p <= |b| && b[p..] == u + rest
    ensures p + |u| <= |b| && b[p + |u|..] == rest
    ensures ScanFrom(b, p, col, s, Text) == ScanFrom(b, p + |u|, col + Chars(u), s + u, Text)
    decreases |u|
  {
    hide ScanFrom, IsBlankZ, ValidChar;
    if u == [] {
      AddNothing(rest);
      AddNothing(s);
    } else {
      var w := Width(u[0]);
      FirstSolid(u, b, p, rest);
      StepRaw(b, p, col, s);
      SkipText(b, p + w, col + 1, s + u[..w], u[w..], rest);
      Prefixes(u, w, w);
      Regroup(s, u[..w], u[w..]);
    }
  }

  // ----- gaps

  lemma {:induction false} SkipIndentation(b: seq<byte>, p: nat, col: nat, s: seq<byte>, m: Mode, white: seq<byte>, rest: seq<byte>)
    requires AllBlank(white) && m.Blanks? && m.leading && p <= |b| && b[p..] == white + rest
    ensures p + |white| <= |b| && b[p + |white|..] == rest
    ensures ScanFrom(b, p, col, s, m) == ScanFrom(b, p + |white|, col + |white|, s, m)
    decreases |white|
  {
    if white == [] {
      AddNothing(rest);
    } else {
      var tail := white[1..];
      assert white + rest == [white[0]] + (tail + rest);
      AtSlice(b, p, [white[0]], tail + rest, 0);
      SkipIndentation(b, p + 1, col + 1, s, m, tail, rest);
    }
  }

  lemma {:induction false} CollectBlanks(b: seq<byte>, p: nat, col: nat, s: seq<byte>, had: seq<byte>, white: seq<byte>, rest: seq<byte>)
    requires AllBlank(white) && p <= |b| && b[p..] == white + rest
    ensures p + |white| <= |b| && b[p + |white|..] == rest
    ensures ScanFrom(b, p, col, s, Blanks(false, had, [], []))
         == ScanFrom(b, p + |white|, col + |white|, s, Blanks(false, had + white, [], []))
    decreases |white|
  {
    if white == [] {
      AddNothing(rest);
      AddNothing(had);
    } else {
      var tail := white[1..];
      assert white + rest == [white[0]] + (tail + rest);
      AtSlice(b, p, [white[0]], tail + rest, 0);
      CollectBlanks(b, p + 1, col + 1, s, had + [white[0]], tail, rest);
      assert had + [white[0]] + tail == had + white;
    }
  }

  /** A line break is seen as one, and a carriage return is not taken for half of a pair. */
  lemma SeeBreak(b: seq<byte>, p: nat, k: Break, rest: seq<byte>)
    requires p <= |b| && b[p..] == BreakText(k) + rest && (k.Cr? ==> At(rest, 0) != LF)
    ensures IsBreak(b, p) && !IsBlank(b, p) && BreakWidth(b, p) == |BreakText(k)|
    ensures ReadLine(b, p) == if k.Ls? || k.Ps? then BreakText(k) else [LF]
    ensures b[p + |BreakText(k)|..] == rest
  {
    var t := BreakText(k);
    AtSlice(b, p, t, rest, 0);
    if |t| >= 2 { AtSlice(b, p, t, rest, 1); }
    if |t| >= 3 { AtSlice(b, p, t, rest, 2); }
    if k.Cr? { SameTail(b, p + 1, rest); }
  }

  /** What follows a carriage return: an indentation, another line break, or what comes after the gap. */
  lemma NoLineFeed(lines: seq<Line>, rest: seq<byte>)
    requires lines != [] && LinesSpelled(lines) && lines[0].nl.Cr? && At(rest, 0) != LF
    ensures At(lines[0].indent + LinesText(lines[1..]) + rest, 0) != LF
  {
    var more := lines[1..];
    if lines[0].indent == [] {
      assert lines[0] == Line(Cr, []);
      if more == [] {
        assert [] + LinesText(more) + rest == rest;
      } else {
        var tail := [] + LinesText(more) + rest;
        assert LinesText(more)[0] == BreakText(more[0].nl)[0];
        assert tail[0] == BreakText(more[0].nl)[0];
      }
    }
  }

  /** The first line of a list of lines, and the rest of them. */
  lemma FirstLine(b: seq<byte>, p: nat, lines: seq<Line>, rest: seq<byte>)
    requires lines != [] && LinesSpelled(lines) && p <= |b| && b[p..] == LinesText(lines) + rest && At(rest, 0) != LF
    ensures var q := p + |BreakText(lines[0].nl)|;
      && IsBreak(b, p) && !IsBlank(b, p) && BreakWidth(b, p) == q - p
      && ReadLine(b, p) == (if lines[0].nl.Ls? || lines[0].nl.Ps? then BreakText(lines[0].nl) else [LF])
      && q <= |b| && b[q..] == lines[0].indent + (LinesText(lines[1..]) + rest)
  {
    hide IsBreak, BreakWidth, ReadLine, BreakText, AllBlank;
    var k, indent, more := lines[0].nl, lines[0].indent, LinesText(lines[1..]);
    assert LinesText(lines) == BreakText(k) + indent + more;
    assert LinesText(lines) + rest == BreakText(k) + (indent + more + rest);
    if k.Cr? { NoLineFeed(lines, rest); }
    SeeBreak(b, p, k, indent + more + rest);
    Regroup(indent, more, rest);
  }

  /** Line breaks after the first one are kept, and all indentation is dropped. */
  lemma {:induction false} SkipLines(b: seq<byte>, p: nat, col: nat, s: seq<byte>, first: seq<byte>, had: seq<byte>,
                                     lines: seq<Line>, rest: seq<byte>) returns (col': nat)
    requires LinesSpelled(lines) && p <= |b| && b[p..] == LinesText(lines) + rest && At(rest, 0) != LF
    ensures p + |LinesText(lines)| <= |b| && b[p + |LinesText(lines)|..] == rest
    ensures ScanFrom(b, p, col, s, Blanks(true, [], first, had))
         == ScanFrom(b, p + |LinesText(lines)|, col', s, Blanks(true, [], first, had + Kept(lines)))
    ensures col' == if lines == [] then col else |lines[|lines| - 1].indent|
    decreases |lines|
  {
    hide ScanFrom, BreakText, IsBreak, IsBlank, BreakWidth, ReadLine, AllBlank, At;
    if lines == [] {
      AddNothing(rest);
      AddNothing(had);
      col' := col;
    } else {
      TailSpelled(lines);
      hide LinesSpelled, LinesText;
      FirstLine(b, p, lines, rest);
      var q, read := p + |BreakText(lines[0].nl)|, ReadLine(b, p);
      StepMore(b, p, col, s, first, had);
      SkipIndentation(b, q, 0, s, Blanks(true, [], first, had + read), lines[0].indent, LinesText(lines[1..]) + rest);
      col' := SkipLines(b, q + |lines[0].indent|, |lines[0].indent|, s, first, had + read, lines[1..], rest);
      Regroup(had, read, Kept(lines[1..]));
    }
  }

  lemma StepMore(b: seq<byte>, p: nat, col: nat, s: seq<byte>, first: seq<byte>, had: seq<byte>)
    requires IsBreak(b, p) && !IsBlank(b, p)
    ensures ScanFrom(b, p, col, s, Blanks(true, [], first, had))
         == ScanFrom(b, p + BreakWidth(b, p), 0, s, Blanks(true, [], first, had + ReadLine(b, p)))
  {
  }

  lemma StepFirst(b: seq<byte>, p: nat, col: nat, s: seq<byte>, white: seq<byte>)
    requires IsBreak(b, p) && !IsBlank(b, p)
    ensures ScanFrom(b, p, col, s, Blanks(false, white, [], []))
         == ScanFrom(b, p + BreakWidth(b, p), 0, s, Blanks(true, [], ReadLine(b, p), []))
  {
  }

  lemma StepEscaped(b: seq<byte>, p: nat, col: nat, s: seq<byte>)
    requires At(b, p) == BACKSLASH && IsBreak(b, p + 1)
    ensures ScanFrom(b, p, col, s, Text) == ScanFrom(b, p + 1 + BreakWidth(b, p + 1), 0, s, Blanks(true, [], [], []))
  {
  }

  lemma EnterBlanks(b: seq<byte>, p: nat, col: nat, s: seq<byte>)
    requires IsBlank(b, p) || IsBreak(b, p)
    ensures ScanFrom(b, p, col, s, Text) == ScanFrom(b, p, col, s, Blanks(false, [], [], []))
  {
  }

  lemma LeaveGap(b: seq<byte>, p: nat, col: nat, s: seq<byte>, m: Mode)
    requires m.Blanks? && !IsBlankZ(b, p) && !(col == 0 && IsDocumentIndicator(b, p))
    ensures ScanFrom(b, p, col, s, m) == ScanFrom(b, p, col, s + FoldedText(m), Text)
  {
  }

  /** Where a gap ends, and at which column. */
  ghost predicate GapEnds(b: seq<byte>, p: nat, col: nat, s: seq<byte>, g: Gap, rest: seq<byte>, col': nat)
    requires GapSpelled(g)
  {
    && p + |GapText(g)| <= |b| && b[p + |GapText(g)|..] == rest && (col' == 0 ==> AtMargin(g))
    && (!(col' == 0 && IsDocumentIndicator(b, p + |GapText(g)|)) ==>
          ScanFrom(b, p, col, s, Text) == ScanFrom(b, p + |GapText(g)|, col', s + GapMeaning(g), Text))
  }

  /** Everything after the first line break of a gap. */
  lemma AfterFirst(b: seq<byte>, r: nat, s: seq<byte>, first: seq<byte>, lines: seq<Line>, rest: seq<byte>)
    returns (p': nat, col': nat)
    requires lines != [] && LinesSpelled(lines) && !IsBlankZ(rest, 0)
    requires r <= |b| && b[r..] == lines[0].indent + (LinesText(lines[1..]) + rest)
    ensures p' == r + |lines[0].indent| + |LinesText(lines[1..])| && p' <= |b| && b[p'..] == rest && !IsBlankZ(b, p')
    ensures col' == |lines[|lines| - 1].indent|
    ensures ScanFrom(b, r, 0, s, Blanks(true, [], first, []))
         == ScanFrom(b, p', col', s, Blanks(true, [], first, Kept(lines[1..])))
  {
    hide ScanFrom, LinesText, LinesSpelled, AllBlank, IsBlankZ, Kept;
    TailSpelled(lines);
    NotLineFeed(rest);
    var n := |lines[0].indent|;
    SkipIndentation(b, r, 0, s, Blanks(true, [], first, []), lines[0].indent, LinesText(lines[1..]) + rest);
    col' := SkipLines(b, r + n, n, s, first, [], lines[1..], rest);
    p' := r + n + |LinesText(lines[1..])|;
    AddNothing(Kept(lines[1..]));
    SameTail(b, p', rest);
  }

  /** Leaving a gap once its blanks and line breaks are read. */
  lemma Concluded(b: seq<byte>, p: nat, col: nat, s: seq<byte>, g: Gap, rest: seq<byte>, col': nat, m: Mode)
    requires GapSpelled(g) && m.Blanks? && FoldedText(m) == GapMeaning(g) && (col' == 0 ==> AtMargin(g))
    requires var p' := p + |GapText(g)|; p' <= |b| && b[p'..] == rest && !IsBlankZ(b, p')
    requires ScanFrom(b, p, col, s, Text) == ScanFrom(b, p + |GapText(g)|, col', s, m)
    ensures GapEnds(b, p, col, s, g, rest, col')
  {
    hide ScanFrom, GapSpelled, GapMeaning, GapText, IsDocumentIndicator, FoldedText, IsBlankZ, AtMargin;
    var p' := p + |GapText(g)|;
    if !(col' == 0 && IsDocumentIndicator(b, p')) {
      LeaveGap(b, p', col', s, m);
    }
  }

  lemma SkipBlank(b: seq<byte>, p: nat, col: nat, s: seq<byte>, g: Gap, rest: seq<byte>) returns (col': nat)
    requires g.Blank? && GapSpelled(g) && p <= |b| && b[p..] == GapText(g) + rest && !IsBlankZ(rest, 0)
    ensures GapEnds(b, p, col, s, g, rest, col')
  {
    hide ScanFrom, IsBlankZ, IsDocumentIndicator, GapEnds;
    var white := g.white;
    col' := col + |white|;
    FirstBlank(b, p, white, rest);
    hide IsBlank, AllBlank;
    EnterBlanks(b, p, col, s);
    CollectBlanks(b, p, col, s, [], white, rest);
    AddNothing(white);
    SameTail(b, p + |white|, rest);
    Concluded(b, p, col, s, g, rest, col', Blanks(false, white, [], []));
  }

  lemma FirstBlank(b: seq<byte>, p: nat, white: seq<byte>, rest: seq<byte>)
    requires white != [] && AllBlank(white) && p <= |b| && b[p..] == white + rest
    ensures IsBlank(b, p)
  {
    AtSlice(b, p, white, rest, 0);
  }

  lemma SkipFold(b: seq<byte>, p: nat, col: nat, s: seq<byte>, g: Gap, rest: seq<byte>) returns (col': nat)
    requires g.Fold? && GapSpelled(g) && p <= |b| && b[p..] == GapText(g) + rest && !IsBlankZ(rest, 0)
    ensures GapEnds(b, p, col, s, g, rest, col')
  {
    hide ScanFrom, BreakText, IsDocumentIndicator, LinesSpelled, LinesText, IsBreak, IsBlank, BreakWidth, ReadLine, AllBlank,
         Kept, GapMeaning, IsBlankZ, FoldedText, GapEnds;
    var white, lines := g.white, g.lines;
    var q := p + |white|;
    Regroup(white, LinesText(lines), rest);
    EnterFold(b, p, col, s, white, lines, rest);
    TailSpelled(lines);
    var p', read := 0, ReadLine(b, q);
    p', col' := AfterFirst(b, q + BreakWidth(b, q), s, read, lines, rest);
    FoldMeans(g, read);
    Concluded(b, p, col, s, g, rest, col', Blanks(true, [], read, Kept(lines[1..])));
  }

  /** A fold up to its first line break: the blanks before it are dropped. */
  lemma EnterFold(b: seq<byte>, p: nat, col: nat, s: seq<byte>, white: seq<byte>, lines: seq<Line>, rest: seq<byte>)
    requires AllBlank(white) && lines != [] && LinesSpelled(lines) && !IsBlankZ(rest, 0)
    requires p <= |b| && b[p..] == white + (LinesText(lines) + rest)
    ensures var q := p + |white|; var r := q + |BreakText(lines[0].nl)|;
      && r <= |b| && IsBreak(b, q) && BreakWidth(b, q) == r - q
      && b[r..] == lines[0].indent + (LinesText(lines[1..]) + rest)
      && ReadLine(b, q) == (if lines[0].nl.Ls? || lines[0].nl.Ps? then BreakText(lines[0].nl) else [LF])
      && ScanFrom(b, p, col, s, Text) == ScanFrom(b, r, 0, s, Blanks(true, [], ReadLine(b, q), []))
  {
    hide ScanFrom, BreakText, LinesSpelled, LinesText, IsBreak, IsBlank, BreakWidth, ReadLine, AllBlank, IsBlankZ;
    var q := p + |white|;
    NotLineFeed(rest);
    CollectBlanks(b, p, col, s, [], white, LinesText(lines) + rest);
    AddNothing(white);
    FirstLine(b, q, lines, rest);
    FoldBegins(b, p, white, LinesText(lines) + rest);
    EnterBlanks(b, p, col, s);
    StepFirst(b, q, col + |white|, s, white);
  }

  lemma TailSpelled(lines: seq<Line>)
    requires lines != [] && LinesSpelled(lines)
    ensures AllBlank(lines[0].indent) && LinesSpelled(lines[1..])
    ensures |LinesText(lines)| == |BreakText(lines[0].nl)| + |lines[0].indent| + |LinesText(lines[1..])|
  {
  }

  lemma FoldBegins(b: seq<byte>, p: nat, white: seq<byte>, rest: seq<byte>)
    requires AllBlank(white) && p + |white| <= |b| && b[p..] == white + rest && IsBreak(b, p + |white|)
    ensures IsBlank(b, p) || IsBreak(b, p)
  {
    if white != [] {
      FirstBlank(b, p, white, rest);
    }
  }

  lemma FoldMeans(g: Gap, read: seq<byte>)
    requires g.Fold? && GapSpelled(g)
    requires read == if g.lines[0].nl.Ls? || g.lines[0].nl.Ps? then BreakText(g.lines[0].nl) else [LF]
    ensures FoldedText(Blanks(true, [], read, Kept(g.lines[1..]))) == GapMeaning(g)
  {
    if |g.lines| > 1 {
      assert Kept(g.lines[1..]) != [];
    }
  }

  lemma SkipEscaped(b: seq<byte>, p: nat, col: nat, s: seq<byte>, g: Gap, rest: seq<byte>) returns (col': nat)
    requires g.Escaped? && GapSpelled(g) && p <= |b| && b[p..] == GapText(g) + rest && !IsBlankZ(rest, 0)
    ensures GapEnds(b, p, col, s, g, rest, col')
  {
    hide ScanFrom, BreakText, LinesSpelled, LinesText, IsBreak, IsBlank, BreakWidth, ReadLine, IsBlankZ, Kept, GapEnds;
    var lines := g.lines;
    Regroup([BACKSLASH], LinesText(lines), rest);
    EnterEscaped(b, p, col, s, lines, rest);
    TailSpelled(lines);
    var p';
    p', col' := AfterFirst(b, p + 1 + BreakWidth(b, p + 1), s, [], lines, rest);
    AddNothing(Kept(lines[1..]));
    Concluded(b, p, col, s, g, rest, col', Blanks(true, [], [], Kept(lines[1..])));
  }

  lemma EnterEscaped(b: seq<byte>, p: nat, col: nat, s: seq<byte>, lines: seq<Line>, rest: seq<byte>)
    requires lines != [] && LinesSpelled(lines) && !IsBlankZ(rest, 0)
    requires p <= |b| && b[p..] == [BACKSLASH] + (LinesText(lines) + rest)
    ensures var r := p + 1 + |BreakText(lines[0].nl)|;
      && r <= |b| && IsBreak(b, p + 1) && BreakWidth(b, p + 1) == r - (p + 1)
      && b[r..] == lines[0].indent + (LinesText(lines[1..]) + rest)
      && ScanFrom(b, p, col, s, Text) == ScanFrom(b, r, 0, s, Blanks(true, [], [], []))
  {
    hide ScanFrom, BreakText, LinesSpelled, LinesText, IsBreak, IsBlank, BreakWidth, ReadLine, IsBlankZ;
    NotLineFeed(rest);
    AtSlice(b, p, [BACKSLASH], LinesText(lines) + rest, 0);
    FirstLine(b, p + 1, lines, rest);
    StepEscaped(b, p, col, s);
  }

  lemma SkipGap(b: seq<byte>, p: nat, col: nat, s: seq<byte>, g: Gap, rest: seq<byte>) returns (col': nat)
    requires GapSpelled(g) && p <= |b| && b[p..] == GapText(g) + rest && !IsBlankZ(rest, 0)
    ensures GapEnds(b, p, col, s, g, rest, col')
  {
    hide *;
    if g.Blank? {
      col' := SkipBlank(b, p, col, s, g, rest);
    } else if g.Fold? {
      col' := SkipFold(b, p, col, s, g, rest);
    } else {
      col' := SkipEscaped(b, p, col, s, g, rest);
    }
  }

  // ----- the whole scalar

  /** What follows a gap is text or the closing quote. */
  lemma AfterGap(u: seq<byte>, pieces: seq<Piece>, rest: seq<byte>)
    requires Spelled(u, pieces) && (pieces != [] ==> u != [])
    ensures !IsBlankZ(Spelling(u, pieces) + ([QUOTE] + rest), 0)
  {
    hide Solid, IsBlankZ, GapText, GapSpelled, AtMargin;
    var b := Spelling(u, pieces) + ([QUOTE] + rest);
    if u == [] {
      assert b == [QUOTE] + rest;
      QuoteIsVisible(rest);
    } else {
      var tail := if pieces == [] then [] else GapText(pieces[0].gap) + Spelling(pieces[0].text, pieces[1..]);
      assert b == u + (tail + ([QUOTE] + rest));
      Visible(u, tail + ([QUOTE] + rest));
    }
  }

  lemma Visible(u: seq<byte>, rest: seq<byte>)
    requires u != [] && Solid(u)
    ensures !IsBlankZ(u + rest, 0)
  {
    hide Solid, IsBlankZ;
    assert (u + rest)[0..] == u + rest;
    FirstSolid(u, u + rest, 0, rest);
  }

  /** A scalar reads as its text and the meaning of its gaps, from any position in it. */
  lemma {:induction false} ScanPieces(b: seq<byte>, p: nat, col: nat, s: seq<byte>, u: seq<byte>, pieces: seq<Piece>, rest: seq<byte>)
    requires Spelled(u, pieces) && p <= |b| && b[p..] == Spelling(u, pieces) + ([QUOTE] + rest)
    ensures ScanFrom(b, p, col, s, Text) == Scanned(s + Meaning(u, pieces), p + |Spelling(u, pieces)| + 1)
    decreases |pieces|
  {
    hide ScanFrom, Solid, IsBlankZ, GapSpelled, GapText, GapMeaning, IsDocumentIndicator, AtMargin;
    var end := [QUOTE] + rest;
    if pieces == [] {
      AddNothing(u);
      SkipText(b, p, col, s, u, end);
      AtSlice(b, p + |u|, [QUOTE], rest, 0);
      StepQuote(b, p + |u|, col + Chars(u), s + u);
    } else {
      var g, v, more := pieces[0].gap, pieces[0].text, pieces[1..];
      var gap, tail := GapText(g), Spelling(v, more);
      assert Spelling(u, pieces) + end == u + (gap + (tail + end));
      SkipText(b, p, col, s, u, gap + (tail + end));
      var q := p + |u|;
      AfterGap(v, more, rest);
      var col' := SkipGap(b, q, col + Chars(u), s + u, g, tail + end);
      if col' == 0 { NoIndicator(b, q + |gap|, v, more, rest); }
      ScanPieces(b, q + |gap|, col', s + u + GapMeaning(g), v, more, rest);
      assert s + u + GapMeaning(g) + Meaning(v, more) == s + Meaning(u, pieces);
    }
  }

  /** Text that is not a document indicator is not taken for one. */
  lemma NoIndicator(b: seq<byte>, p: nat, u: seq<byte>, pieces: seq<Piece>, rest: seq<byte>)
    requires Spelled(u, pieces) && p <= |b| && b[p..] == Spelling(u, pieces) + ([QUOTE] + rest)
    requires pieces != [] ==> u != [] && u != [0x2D, 0x2D, 0x2D] && u != [0x2E, 0x2E, 0x2E]
    ensures !IsDocumentIndicator(b, p)
  {
    hide Spelling, Spelled, IsBlankZ;
    var c := At(b, p);
    if (c == 0x2D || c == 0x2E) && At(b, p + 1) == c && At(b, p + 2) == c {
      LongText(b, p, u, pieces, rest, c);
    }
  }

  lemma LongText(b: seq<byte>, p: nat, u: seq<byte>, pieces: seq<Piece>, rest: seq<byte>, c: byte)
    requires Spelled(u, pieces) && p <= |b| && b[p..] == Spelling(u, pieces) + ([QUOTE] + rest)
    requires pieces != [] ==> u != [] && u != [c, c, c]
    requires c == 0x2D || c == 0x2E
    requires At(b, p) == c && At(b, p + 1) == c && At(b, p + 2) == c
    ensures !IsBlankZ(b, p + 3)
  {
    hide Solid, IsBlankZ, GapText, GapSpelled, AtMargin;
    var end := [QUOTE] + rest;
    var more := if pieces == [] then [] else GapText(pieces[0].gap) + Spelling(pieces[0].text, pieces[1..]);
    assert Spelling(u, pieces) + end == u + (more + end);
    if pieces != [] {
      GapBegins(pieces[0].gap);
      assert (more + end)[0] == GapText(pieces[0].gap)[0];
    }
    Dashes(b, p, u, more + end, c, 3);
    if |u| == 3 {
      assert u == [c, c, c] && more + end == end;
      SameTail(b, p + 3, end);
      assert !IsBlankZ(end, 0) by { QuoteIsVisible(rest); }
    }
  }

  lemma QuoteIsVisible(rest: seq<byte>)
    ensures !IsBlankZ([QUOTE] + rest, 0)
  {
  }

  /** A gap begins with a blank, a line break or a backslash. */
  lemma GapBegins(g: Gap)
    requires GapSpelled(g)
    ensures GapText(g) != [] && GapText(g)[0] != 0x2D && GapText(g)[0] != 0x2E
  {
    if g.Fold? {
      var line := LinesText(g.lines);
      assert line[0] == BreakText(g.lines[0].nl)[0];
      if g.white == [] {
        assert GapText(g)[0] == line[0];
      } else {
        assert GapText(g)[0] == g.white[0];
      }
    }
  }

  /** `n` equal characters seen in front of a gap or a quote all belong to the text, and what follows them in the
      text is visible. */
  lemma {:induction false} Dashes(b: seq<byte>, p: nat, u: seq<byte>, tail: seq<byte>, c: byte, n: nat)
    requires Solid(u) && p <= |b| && b[p..] == u + tail && (c == 0x2D || c == 0x2E)
    requires tail != [] && tail[0] != c && forall k :: p <= k < p + n ==> At(b, k) == c
    ensures n <= |u| && (forall k :: 0 <= k < n ==> u[k] == c) && b[p + n..] == u[n..] + tail
    ensures |u| > n ==> !IsBlankZ(b, p + n)
    decreases n
  {
    hide Solid, IsBlankZ, ValidChar;
    if u == [] {
      assert b[p] == tail[0];
      assert n > 0 ==> At(b, p) == c;
    } else {
      FirstSolid(u, b, p, tail);
      if n > 0 {
        OpenSolid(u);
        assert At(b, p) == c;
        assert Width(u[0]) == 1;
        Dashes(b, p + 1, u[1..], tail, c, n - 1);
        assert forall k :: 1 <= k < n ==> u[k] == u[1..][k - 1];
        assert u[1..][n - 1..] == u[n..];
      }
    }
  }

  /** A double-quoted scalar means its text and its gaps, whatever comes before and after it and wherever it
      starts. */
  lemma QuotedMeaning(u: seq<byte>, pieces: seq<Piece>, before: seq<byte>, rest: seq<byte>, col: nat)
    requires Spelled(u, pieces)
    ensures var b := before + ([QUOTE] + Spelling(u, pieces) + [QUOTE]) + rest;
      ScanScalar(b, |before|, col) == Scanned(Meaning(u, pieces), |before| + |Spelling(u, pieces)| + 2)
  {
    hide ScanFrom, Solid, Spelling, Meaning, Spelled;
    var b := before + ([QUOTE] + Spelling(u, pieces) + [QUOTE]) + rest;
    var p := |before| + 1;
    assert b[p..] == Spelling(u, pieces) + ([QUOTE] + rest);
    BeginScalar(b, p, col + 1, u, pieces, rest);
    ScanPieces(b, p, col + 1, [], u, pieces, rest);
    AddNothing(Meaning(u, pieces));
  }

  lemma BeginScalar(b: seq<byte>, p: nat, col: nat, u: seq<byte>, pieces: seq<Piece>, rest: seq<byte>)
    requires Spelled(u, pieces) && p <= |b| && b[p..] == Spelling(u, pieces) + ([QUOTE] + rest) && col >= 1
    ensures ScanFrom(b, p, col, [], LineStart) == ScanFrom(b, p, col, [], Text)
  {
    hide Solid, Spelling;
  }

  function LineFeeds(n: nat): (b: seq<byte>)
    ensures |b| == n && forall i :: 0 <= i < n ==> b[i] == LF
  {
    seq(n, _ => LF)
  }

  predicate Ordinary(lines: seq<Line>) {
    forall i :: 0 <= i < |lines| ==> !lines[i].nl.Ls? && !lines[i].nl.Ps?
  }

  lemma {:induction false} KeptOrdinary(lines: seq<Line>)
    requires Ordinary(lines)
    ensures Kept(lines) == LineFeeds(|lines|)
  {
    if lines != [] {
      KeptOrdinary(lines[1..]);
      assert LineFeeds(|lines|) == [LF] + LineFeeds(|lines| - 1);
    }
  }

  /** Line folding: one line break between two pieces of text is a space, `n` of them are `n - 1` line feeds; the
      blanks around them do not count. */
  lemma FoldingLaw(u: seq<byte>, white: seq<byte>, lines: seq<Line>, v: seq<byte>, before: seq<byte>, rest: seq<byte>, col: nat)
    requires Solid(u) && Solid(v) && AllBlank(white) && lines != [] && LinesSpelled(lines) && Ordinary(lines)
    ensures var b := before + ([QUOTE] + (u + (white + LinesText(lines) + v)) + [QUOTE]) + rest;
      var text := u + (if |lines| == 1 then [SPACE] else LineFeeds(|lines| - 1)) + v;
      ScanScalar(b, |before|, col) == Scanned(text, |b| - |rest|)
  {
    hide ScanFrom, Solid, LinesText, LinesSpelled, AllBlank;
    var pieces := [Piece(Fold(white, lines), v)];
    OneGap(u, Fold(white, lines), v);
    KeptOrdinary(lines[1..]);
    QuotedMeaning(u, pieces, before, rest, col);
  }

  /** A backslash before the first line break removes it, and the others stay. */
  lemma JoiningLaw(u: seq<byte>, lines: seq<Line>, v: seq<byte>, before: seq<byte>, rest: seq<byte>, col: nat)
    requires Solid(u) && Solid(v) && lines != [] && LinesSpelled(lines) && Ordinary(lines)
    ensures var b := before + ([QUOTE] + (u + ([BACKSLASH] + LinesText(lines) + v)) + [QUOTE]) + rest;
      ScanScalar(b, |before|, col) == Scanned(u + LineFeeds(|lines| - 1) + v, |b| - |rest|)
  {
    hide ScanFrom, Solid, LinesText, LinesSpelled;
    OneGap(u, Escaped(lines), v);
    KeptOrdinary(lines[1..]);
    QuotedMeaning(u, [Piece(Escaped(lines), v)], before, rest, col);
  }

  lemma OneGap(u: seq<byte>, g: Gap, v: seq<byte>)
    requires Solid(u) && Solid(v) && GapSpelled(g)
    ensures Spelled(u, [Piece(g, v)]) && Spelling(u, [Piece(g, v)]) == u + (GapText(g) + v)
    ensures Meaning(u, [Piece(g, v)]) == u + GapMeaning(g) + v
  {
    hide Solid, GapText, GapMeaning, GapSpelled;
    var pieces := [Piece(g, v)];
    assert pieces[1..] == [] && Spelled(v, []);
    assert Spelling(v, []) == v + [] == v && Meaning(v, []) == v + [] == v;
    Regroup(u, GapMeaning(g), v);
  }

  // ----- escape sequences

  /** The escapes of a single character (section 5.5 of YAML 1.1, and the quotation mark). */
  const ESCAPES: map<char, nat> := map[
    '0' := 0x00, 'a' := 0x07, 'b' := 0x08, 't' := 0x09, '\t' := 0x09, 'n' := 0x0A, 'v' := 0x0B, 'f' := 0x0C, 'r' := 0x0D,
    'e' := 0x1B, ' ' := 0x20, '"' := 0x22, '\'' := 0x27, '\\' := 0x5C, 'N' := 0x85, '_' := 0xA0, 'L' := 0x2028, 'P' := 0x2029]

  lemma EscapeLetters(c: byte)
    ensures Unescape(c) == if c as char in ESCAPES then Some(Encode(ESCAPES[c as char])) else None
  {
    assert 'a' as int == 0x61;
  }
}
