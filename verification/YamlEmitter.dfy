/** The emitter's output buffer and its double-quoted style. */
module YamlEmitter {
  import opened Bytes
  import opened Sequences
  import opened Utf8
  import opened YamlChars
  import opened YamlQuoted

  const OUTPUT_BUFFER_SIZE := 128

  /** The preferred indentation as the stream starts with it: 2 unless a sensible one was set. */
  function NormalIndent(bestIndent: int): (n: int)
    ensures 2 <= n <= 9
  {
    if bestIndent < 2 || bestIndent > 9 then 2 else bestIndent
  }

  /** The preferred width likewise: 80 unless set to more than twice the indentation, or to none. */
  function NormalWidth(bestWidth: int, bestIndent: int): int {
    if 0 <= bestWidth <= 2 * bestIndent then 80 else if bestWidth < 0 then 0x7FFF_FFFF else bestWidth
  }

  class Emitter {
    const unicode: bool
    const buffer: array<byte>
    var bestIndent: int
    var bestWidth: int
    var lineBreak: LineBreak
    var bufferPos: nat
    /** Bytes already handed to the write handler. */
    var flushed: seq<byte>
    var indent: int
    var indents: seq<int>
    var column: nat
    var line: nat
    var whitespace: bool
    var indention: bool

    ghost predicate Valid()
      reads this
    {
      buffer.Length == OUTPUT_BUFFER_SIZE && bufferPos < buffer.Length
    }

    /** What holds from the start of the stream on: no indentation level is below -1, and the step between
        levels is at least 2. */
    ghost predicate Started()
      reads this
    {
      Valid() && 2 <= bestIndent <= 9 && indent >= -1 && forall i :: 0 <= i < |indents| ==> indents[i] >= -1
    }

    /** Everything emitted, flushed or not. */
    ghost function Contents(): seq<byte>
      reads this, buffer
      requires Valid()
    {
      flushed + buffer[..bufferPos]
    }

    /** The settings for a scalar printed now. */
    function CurrentStyle(allowBreaks: bool): Style
      reads this
    {
      Style(unicode, allowBreaks, bestWidth, if indent < 0 then 0 else indent, lineBreak)
    }

    /** A new emitter, with whatever the caller set, as it is when the stream has started. */
    constructor (unicode: bool, bestIndent: int, bestWidth: int, lineBreak: Option<LineBreak>)
      ensures Started() && fresh(buffer) && Contents() == [] && indents == [] && indent == -1
      ensures column == 0 && whitespace && indention && this.unicode == unicode
      ensures this.bestIndent == NormalIndent(bestIndent) && this.bestWidth == NormalWidth(bestWidth, NormalIndent(bestIndent))
      ensures this.lineBreak == if lineBreak.Some? then lineBreak.value else LnBreak
    {
      this.unicode := unicode;
      this.bestIndent := NormalIndent(bestIndent);
      this.bestWidth := NormalWidth(bestWidth, NormalIndent(bestIndent));
      this.lineBreak := if lineBreak.Some? then lineBreak.value else LnBreak;
      buffer := new byte[OUTPUT_BUFFER_SIZE];
      bufferPos, flushed, indents := 0, [], [];
      indent, column, line, whitespace, indention := -1, 0, 0, true, true;
    }

    // ----- indentation

    /** One level deeper. The outermost level of a block collection is 0, everything in flow context is
        indented, and a sequence that is the value of a mapping may stay where it is. */
    method IncreaseIndent(flow: bool, indentless: bool)
      requires Started()
      modifies `indent, `indents
      ensures Started() && indents == old(indents) + [old(indent)]
      ensures indent == if old(indent) < 0 then (if flow then bestIndent else 0)
                        else if indentless then old(indent) else old(indent) + bestIndent
      ensures flow && !indentless ==> indent >= 2
    {
      indents := indents + [indent];
      if indent < 0 {
        indent := if flow then bestIndent else 0;
      } else if !indentless {
        indent := indent + bestIndent;
      }
    }

    /** Back to the level before. */
    method DecreaseIndent()
      requires Started() && indents != []
      modifies `indent, `indents
      ensures Started() && indent == old(indents)[|old(indents)| - 1] && indents == old(indents)[..|old(indents)| - 1]
    {
      indent := indents[|indents| - 1];
      indents := indents[..|indents| - 1];
    }

    /** Emits a scalar in double quotes: one level deeper than what it belongs to. */
    method EmitScalar(value: seq<byte>, simpleKeyContext: bool)
      requires Started() && ValidUtf8(value)
      modifies `bufferPos, `flushed, `column, `line, `whitespace, `indention, `indent, `indents, buffer
      ensures Started() && indent == old(indent) && indents == old(indents)
      ensures var gap := if old(whitespace) then [] else [SPACE];
              var deeper := if old(indent) < 0 then bestIndent else old(indent) + bestIndent;
              Contents() == old(Contents()) + gap +
                Printed(Style(unicode, !simpleKeyContext, bestWidth, deeper, lineBreak), value, old(column) + |gap|)
    {
      hide Printed, ValidUtf8;
      IncreaseIndent(true, false);
      assert indents[..|indents| - 1] == old(indents);
      WriteDoubleQuoted(value, !simpleKeyContext);
      DecreaseIndent();
    }

    /** Anything else that is emitted in between: indicators, anchors, tags, other scalars. */
    method EmitOther(text: seq<byte>, column: nat, whitespace: bool, indention: bool)
      requires Started()
      modifies `bufferPos, `flushed, `column, `whitespace, `indention, buffer
      ensures Started() && Contents() == old(Contents()) + text
      ensures this.column == column && this.whitespace == whitespace && this.indention == indention
    {
      var i := 0;
      assert text[..0] == [] && Contents() + [] == Contents();
      while i < |text|
        invariant Started() && i <= |text| && Contents() == old(Contents()) + text[..i]
      {
        Append([text[i]]);
        assert text[..i + 1] == text[..i] + [text[i]];
        i := i + 1;
      }
      assert text[..i] == text;
      this.column, this.whitespace, this.indention := column, whitespace, indention;
    }

    /** Everything emitted so far. */
    method Output() returns (output: seq<byte>)
      requires Valid()
      ensures output == Contents()
    {
      output := flushed + buffer[..bufferPos];
    }

    // ----- the output buffer

    /** Puts the bytes of one character into the buffer, which is flushed first when nearly full. */
    method Append(c: seq<byte>)
      requires Valid() && |c| <= 4
      modifies `bufferPos, `flushed, buffer
      ensures Valid() && Contents() == old(Contents()) + c
    {
      if bufferPos + 5 >= buffer.Length {
        flushed := flushed + buffer[..bufferPos];
        bufferPos := 0;
        assert flushed + buffer[..bufferPos] == flushed;
      }
      ghost var was := buffer[..bufferPos];
      CopyInto(buffer, bufferPos, c);
      bufferPos := bufferPos + |c|;
      assert flushed + (was + c) == (flushed + was) + c;
    }

    method Put(c: byte)
      requires Valid()
      modifies `bufferPos, `flushed, `column, buffer
      ensures Valid() && Contents() == old(Contents()) + [c] && column == old(column) + 1
    {
      Append([c]);
      column := column + 1;
    }

    method PutBreak()
      requires Valid()
      modifies `bufferPos, `flushed, `column, `line, buffer
      ensures Valid() && Contents() == old(Contents()) + BreakBytes(lineBreak) && column == 0
    {
      Append(BreakBytes(lineBreak));
      column, line := 0, line + 1;
    }

    /** Copies the character at `value[i]`. */
    method WriteChar(value: seq<byte>, i: nat) returns (i': nat)
      requires Valid() && i < |value| && 1 <= Width(value[i]) && i + Width(value[i]) <= |value|
      modifies `bufferPos, `flushed, `column, buffer
      ensures Valid() && i' == i + Width(value[i])
      ensures Contents() == old(Contents()) + value[i..i'] && column == old(column) + 1
    {
      i' := i + Width(value[i]);
      Append(value[i..i']);
      column := column + 1;
    }

    /** Whether the indentation can only be reached on a new line. */
    predicate NeedsBreak()
      reads this
    {
      var n := if indent < 0 then 0 else indent;
      !indention || column > n || (column == n && !whitespace)
    }

    /** Moves to the current indentation, on a new line unless the emitter is short of it already. */
    method WriteIndent()
      requires Valid()
      modifies `bufferPos, `flushed, `column, `line, `whitespace, `indention, buffer
      ensures Valid() && whitespace && indention && column == if indent < 0 then 0 else indent
      ensures Contents() == old(Contents()) +
                            if old(NeedsBreak()) then BreakBytes(lineBreak) + Spaces(column)
                            else Spaces(column - old(column))
    {
      var n := if indent < 0 then 0 else indent;
      if NeedsBreak() {
        PutBreak();
      }
      hide Spaces, BreakBytes;
      ghost var start, from := Contents(), column;
      NoSpace();
      AddNothing(start);
      while column < n
        invariant Valid() && from <= column <= n && indent == old(indent)
        invariant Contents() == start + Spaces(column - from)
        decreases n - column
      {
        OneMoreSpace(column - from);
        Regroup(start, Spaces(column - from), [SPACE]);
        Put(SPACE);
      }
      Regroup(old(Contents()), BreakBytes(lineBreak), Spaces(column - from));
      whitespace, indention := true, true;
    }

    /** A quotation mark, set off by a space where one is needed. */
    method WriteQuote(needWhitespace: bool)
      requires Valid()
      modifies `bufferPos, `flushed, `column, `whitespace, `indention, buffer
      ensures Valid() && !whitespace && !indention
      ensures var gap := if needWhitespace && !old(whitespace) then [SPACE] else [];
              Contents() == old(Contents()) + gap + [QUOTE] && column == old(column) + |gap| + 1
    {
      if needWhitespace && !whitespace {
        Put(SPACE);
      } else {
        assert Contents() + [] == Contents();
      }
      Put(QUOTE);
      whitespace, indention := false, false;
    }

    /** The `n` hexadecimal digits of `v`, most significant first. */
    method PutHex(v: nat, n: nat)
      requires Valid()
      modifies `bufferPos, `flushed, `column, buffer
      ensures Valid() && Contents() == old(Contents()) + Hex(v, n) && column == old(column) + n
    {
      hide Hex, HexDigit;
      ghost var start := Contents();
      var k := n;
      HexNone(Shift(v, k));
      assert start + [] == start;
      while k > 0
        invariant Valid() && 0 <= k <= n && column == old(column) + (n - k)
        invariant Contents() == start + Hex(Shift(v, k), n - k)
      {
        k := k - 1;
        HexNext(Shift(v, k), n - k);
        Put(HexDigit(Shift(v, k) % 16));
        assert start + Hex(Shift(v, k + 1), n - k - 1) + [HexDigit(Shift(v, k) % 16)] == start + Hex(Shift(v, k), n - k);
      }
    }

    /** The escape sequence for the character of value `v`. */
    method PutEscape(v: nat)
      requires Valid()
      modifies `bufferPos, `flushed, `column, buffer
      ensures Valid() && Contents() == old(Contents()) + Escape(v) && column == old(column) + |Escape(v)|
    {
      hide Hex, ShortEscape;
      ghost var start := Contents();
      Put(BACKSLASH);
      var short := ShortEscape(v);
      if short.Some? {
        Put(short.value);
        assert start + [BACKSLASH] + [short.value] == start + Escape(v);
      } else {
        var letter, n := 0x55, 8;
        if v <= 0xFF {
          letter, n := 0x78, 2;
        } else if v <= 0xFFFF {
          letter, n := 0x75, 4;
        }
        Put(letter);
        PutHex(v, n);
        assert start + [BACKSLASH] + [letter] + Hex(v, n) == start + ([BACKSLASH, letter] + Hex(v, n));
      }
    }

    /** The value of the character at `value[i]`, put together from its bytes. */
    method CharValue(value: seq<byte>, i: nat) returns (v: nat)
      requires i < |value| && i + Width(value[i]) <= |value| && ValidChar(value[i..i + Width(value[i])])
      ensures v == Decode(value[i..i + Width(value[i])])
    {
      var w := Width(value[i]);
      ghost var c := value[i..i + w];
      v := if w == 1 then value[i] as nat else if w == 2 then value[i] % 32 else if w == 3 then value[i] % 16 else value[i] % 8;
      var k := 1;
      while k < w
        invariant 1 <= k <= w
        invariant k == 1 ==> v == if w == 1 then c[0] as nat else if w == 2 then c[0] % 32 else if w == 3 then c[0] % 16 else c[0] % 8
        invariant k == 2 ==> v == Fold(if w == 2 then c[0] % 32 else if w == 3 then c[0] % 16 else c[0] % 8, c[1])
        invariant k == 3 ==> v == Fold(Fold(if w == 3 then c[0] % 16 else c[0] % 8, c[1]), c[2])
        invariant k == 4 ==> v == Fold(Fold(Fold(c[0] % 8, c[1]), c[2]), c[3])
      {
        v := 64 * v + value[i + k] % 64;
        k := k + 1;
      }
    }

    /** Prints a double-quoted scalar: exactly what `Printed` says for the current column. */
    method WriteDoubleQuoted(value: seq<byte>, allowBreaks: bool)
      requires Valid() && ValidUtf8(value)
      modifies `bufferPos, `flushed, `column, `line, `whitespace, `indention, buffer
      ensures Valid() && !whitespace && !indention
      ensures var gap := if old(whitespace) then [] else [SPACE];
              Contents() == old(Contents()) + gap + Printed(old(CurrentStyle(allowBreaks)), value, old(column) + |gap|)
    {
      hide Body, ValidUtf8;
      assert value[0..] == value;
      WriteQuote(true);
      ghost var whole := Body(CurrentStyle(allowBreaks), value, 0, column, false);
      WriteBody(value, allowBreaks);
      WriteQuote(false);
      ghost var before := old(Contents()) + (if old(whitespace) then [] else [SPACE]);
      AddNothing(before + [QUOTE] + whole);
      Regroup(before, [QUOTE], whole);
      Regroup(before, [QUOTE] + whole, [QUOTE]);
    }

    /** What is between the quotation marks. */
    method WriteBody(value: seq<byte>, allowBreaks: bool)
      requires Valid() && ValidUtf8(value[0..]) && !indention
      modifies `bufferPos, `flushed, `column, `line, `whitespace, `indention, buffer
      ensures Valid()
      ensures Contents() == old(Contents()) + Body(CurrentStyle(allowBreaks), value, 0, old(column), false)
    {
      hide Body, ValidUtf8;
      ghost var style, start := CurrentStyle(allowBreaks), Contents();
      ghost var whole := Body(style, value, 0, column, false);
      var i, spaces := 0, false;
      while i < |value|
        invariant Valid() && i <= |value| && ValidUtf8(value[i..]) && CurrentStyle(allowBreaks) == style
        invariant indention ==> column >= style.indent && (spaces || column > style.indent)
        invariant Contents() + Body(style, value, i, column, spaces) == start + whole
        decreases |value| - i
      {
        i, spaces := WriteNext(value, allowBreaks, i, spaces);
      }
      NothingPrinted(style, value, column, spaces);
      AddNothing(Contents());
    }

    /** Prints the next character of a double-quoted scalar. */
    method WriteNext(value: seq<byte>, allowBreaks: bool, i: nat, spaces: bool) returns (i': nat, spaces': bool)
      requires Valid() && i < |value| && ValidUtf8(value[i..])
      requires indention ==> column >= CurrentStyle(allowBreaks).indent && (spaces || column > CurrentStyle(allowBreaks).indent)
      modifies `bufferPos, `flushed, `column, `line, `whitespace, `indention, buffer
      ensures Valid() && i < i' <= |value| && ValidUtf8(value[i'..])
      ensures indention ==> column >= CurrentStyle(allowBreaks).indent && (spaces' || column > CurrentStyle(allowBreaks).indent)
      ensures var style := CurrentStyle(allowBreaks);
              Contents() + Body(style, value, i', column, spaces')
              == old(Contents()) + Body(style, value, i, old(column), spaces)
    {
      hide Body, ValidUtf8, NeedsEscape, Escape, Decode, ValidChar, Folds, Spaces;
      var style := CurrentStyle(allowBreaks);
      ghost var start := Contents();
      SkipChar(value, i);
      if NeedsEscape(style, value, i) {
        BodyEscape(style, value, i, column, spaces);
        var v := CharValue(value, i);
        i', spaces' := i + Width(value[i]), false;
        PutEscape(v);
        assert start + Escape(v) + Body(style, value, i', column, false) == start + (Escape(v) + Body(style, value, i', column, false));
      } else if value[i] == SPACE {
        i', spaces' := WriteSpace(value, allowBreaks, i, spaces);
      } else {
        BodyRaw(style, value, i, column, spaces);
        i' := WriteChar(value, i);
        spaces' := false;
        assert start + value[i..i'] + Body(style, value, i', column, false) == start + (value[i..i'] + Body(style, value, i', column, false));
      }
    }

    /** Prints a space, as itself or as a line break. */
    method WriteSpace(value: seq<byte>, allowBreaks: bool, i: nat, spaces: bool) returns (i': nat, spaces': bool)
      requires Valid() && i < |value| && ValidUtf8(value[i..])
      requires value[i] == SPACE && !NeedsEscape(CurrentStyle(allowBreaks), value, i)
      requires indention ==> column >= CurrentStyle(allowBreaks).indent && (spaces || column > CurrentStyle(allowBreaks).indent)
      modifies `bufferPos, `flushed, `column, `line, `whitespace, `indention, buffer
      ensures Valid() && i' == i + 1 && spaces' && ValidUtf8(value[i'..])
      ensures indention ==> column >= CurrentStyle(allowBreaks).indent
      ensures var style := CurrentStyle(allowBreaks);
              Contents() + Body(style, value, i', column, spaces')
              == old(Contents()) + Body(style, value, i, old(column), spaces)
    {
      hide Body, ValidUtf8, NeedsEscape, Spaces, BreakBytes;
      ghost var style, start := CurrentStyle(allowBreaks), Contents();
      BodySpace(style, value, i, column, spaces);
      i', spaces' := i + 1, true;
      if allowBreaks && !spaces && column > bestWidth && 0 < i < |value| - 1 {
        ghost var nl, sp := BreakBytes(lineBreak), Spaces(style.indent);
        ghost var guard := WriteFold(value[i + 1] == SPACE);
        Regroup(start, nl + sp, guard);
        Regroup(start, nl + sp + guard, Body(style, value, i', column, true));
      } else {
        var _ := WriteChar(value, i);
        assert value[i..i'] == [SPACE];
        Regroup(start, [SPACE], Body(style, value, i', column, true));
      }
    }

    /** A line break and the indentation, and a backslash if the next line starts with a space. */
    method WriteFold(guarded: bool) returns (ghost guard: seq<byte>)
      requires Valid() && NeedsBreak()
      modifies `bufferPos, `flushed, `column, `line, `whitespace, `indention, buffer
      ensures Valid() && guard == if guarded then [BACKSLASH] else []
      ensures column == (if indent < 0 then 0 else indent) + |guard|
      ensures Contents() == old(Contents()) + (BreakBytes(lineBreak) + Spaces(if indent < 0 then 0 else indent)) + guard
    {
      hide Spaces, BreakBytes;
      WriteIndent();
      guard := if guarded then [BACKSLASH] else [];
      AddNothing(Contents());
      if guarded { Put(BACKSLASH); }
    }
  }

  lemma NoSpace()
    ensures Spaces(0) == []
  {
  }

  lemma OneMoreSpace(n: nat)
    ensures Spaces(n + 1) == Spaces(n) + [SPACE]
  {
  }

  lemma BodyEscape(style: Style, value: seq<byte>, i: nat, column: int, spaces: bool)
    requires i < |value| && ValidUtf8(value[i..]) && NeedsEscape(style, value, i)
    ensures var w := Width(value[i]);
            && 1 <= w && i + w <= |value| && ValidUtf8(value[i + w..]) && ValidChar(value[i..i + w])
            && var e := Escape(Decode(value[i..i + w]));
               Body(style, value, i, column, spaces) == e + Body(style, value, i + w, column + |e|, false)
  {
    hide ValidUtf8, NeedsEscape, ValidChar, Escape;
    SkipChar(value, i);
  }

  lemma NothingPrinted(style: Style, value: seq<byte>, column: int, spaces: bool)
    ensures ValidUtf8(value[|value|..]) && Body(style, value, |value|, column, spaces) == []
  {
  }

  /** `v` without its `k` lowest hexadecimal digits. */
  function Shift(v: nat, k: nat): nat {
    if k == 0 then v else Shift(v, k - 1) / 16
  }

  lemma HexNone(v: nat)
    ensures Hex(v, 0) == []
  {
  }

  lemma HexNext(v: nat, n: nat)
    requires n > 0
    ensures Hex(v, n) == Hex(v / 16, n - 1) + [HexDigit(v % 16)]
  {
  }
}
