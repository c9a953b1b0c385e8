/** The reader under the scanner: raw bytes in chunks of any size go in, UTF-8 characters come out. */
module YamlReader {
  import opened Bytes
  import opened Utf8
  import opened YamlTranscode

  const RAW_BUFFER_SIZE := 512
  const BUFFER_SIZE := 3 * RAW_BUFFER_SIZE

  /** The most characters the scanner asks for at once is well below this. */
  const MAX_REQUEST := 150

  function Nuls(n: nat): (z: seq<byte>)
    ensures |z| == n && forall i :: 0 <= i < n ==> z[i] == 0
  {
    seq(n, i => 0)
  }

  /** `b` begins with `n` characters and ends in at most `pad` NULs beyond them. */
  predicate Holds(b: seq<byte>, n: nat, pad: nat)
    decreases n
  {
    if n == 0 then |b| <= pad && forall i :: 0 <= i < |b| ==> b[i] == 0
    else
      && b != [] && 1 <= Width(b[0]) <= |b| && (forall k :: 1 <= k < Width(b[0]) ==> b[k] != 0)
      && Holds(b[Width(b[0])..], n - 1, pad)
  }

  lemma {:induction false} HoldsSize(b: seq<byte>, n: nat, pad: nat)
    requires Holds(b, n, pad)
    ensures n <= |b| <= 4 * n + pad
    decreases n
  {
    if n > 0 {
      HoldsSize(b[Width(b[0])..], n - 1, pad);
    }
  }

  lemma {:induction false} HoldsMore(b: seq<byte>, n: nat, c: seq<byte>, pad: nat)
    requires Holds(b, n, 0) && c != [] && Width(c[0]) == |c| && 0 !in c
    ensures Holds(b + c, n + 1, pad)
    decreases n
  {
    if n == 0 {
      assert b + c == c && c[|c|..] == [];
      assert Holds([], 0, pad);
    } else {
      var w := Width(b[0]);
      HoldsMore(b[w..], n - 1, c, pad);
      assert (b + c)[w..] == b[w..] + c;
    }
  }

  /** A NUL at the end counts as one more character, or as padding if there is little in the buffer. */
  lemma {:induction false} HoldsNul(b: seq<byte>, n: nat, pad: nat)
    requires Holds(b, n, pad)
    ensures Holds(b + [0], n + 1, pad)
    ensures |b| < pad ==> Holds(b + [0], n, pad)
    decreases n
  {
    if n == 0 {
      var z: seq<byte> := b + [0];
      assert z[0] == 0 && z[1..] == b by {
        assert forall i :: 0 <= i < |b| ==> z[i + 1] == b[i];
      }
    } else {
      var w := Width(b[0]);
      HoldsNul(b[w..], n - 1, pad);
      assert (b + [0])[w..] == b[w..] + [0];
    }
  }

  lemma {:induction false} HoldsLooser(b: seq<byte>, n: nat, pad: nat)
    requires Holds(b, n, 0)
    ensures Holds(b, n, pad)
    decreases n
  {
    if n > 0 {
      HoldsLooser(b[Width(b[0])..], n - 1, pad);
    }
  }

  // ----- one character out of the raw buffer

  /** The leading octet tells the length; the others are checked one by one. */
  method DecodeUtf8(raw: seq<byte>) returns (c: Char)
    requires raw != []
    ensures c == NextUtf8(raw)
  {
    var octet := raw[0];
    var width := Width(octet);
    if width == 0 {
      return Bad;
    }
    if width > |raw| {
      return Short;
    }
    var value: nat := if width == 1 then octet else if width == 2 then octet % 32 else if width == 3 then octet % 16 else octet % 8;
    ghost var ch := raw[..width];
    hide Fold, Decode, ValidChar;
    var k := 1;
    while k < width
      invariant 1 <= k <= width && forall i :: 1 <= i < k ==> IsTail(ch[i])
      invariant value == Folded(ch, k)
    {
      if !IsTail(raw[k]) {
        NoTail(ch, k);
        return Bad;
      }
      value := Fold(value, raw[k]);
      k := k + 1;
    }
    Checked(ch);
    if !(width == 1 || (width == 2 && value >= 0x80) || (width == 3 && value >= 0x800) || (width == 4 && value >= 0x10000)) {
      return Bad;
    }
    if 0xD800 <= value <= 0xDFFF || value > 0x10FFFF {
      return Bad;
    }
    return Char(value, width);
  }

  /** The value after `k` octets of a character. */
  function Folded(ch: seq<byte>, k: nat): nat
    requires 1 <= k <= |ch| <= 4
  {
    if k == 1 then
      if |ch| == 1 then ch[0] else if |ch| == 2 then ch[0] % 32 else if |ch| == 3 then ch[0] % 16 else ch[0] % 8
    else Fold(Folded(ch, k - 1), ch[k - 1])
  }

  lemma NoTail(ch: seq<byte>, k: nat)
    requires 1 <= k < |ch| && !IsTail(ch[k])
    ensures !ValidChar(ch)
  {
  }

  /** The checks on length and range are those of a well-formed character. */
  lemma Checked(ch: seq<byte>)
    requires 1 <= |ch| <= 4 && Width(ch[0]) == |ch| && forall k :: 1 <= k < |ch| ==> IsTail(ch[k])
    ensures var v := Folded(ch, |ch|);
      && v == Decode(ch)
      && (ValidChar(ch) <==>
            && (|ch| == 1 || (|ch| == 2 && v >= 0x80) || (|ch| == 3 && v >= 0x800) || (|ch| == 4 && v >= 0x10000))
            && !(0xD800 <= v <= 0xDFFF || v > 0x10FFFF))
  {
    hide Fold;
    var v := Folded(ch, |ch|);
    assert v == Decode(ch) by {
      if |ch| >= 2 {
        assert Folded(ch, 2) == Fold(Folded(ch, 1), ch[1]);
      }
      if |ch| >= 3 {
        assert Folded(ch, 3) == Fold(Folded(ch, 2), ch[2]);
      }
      if |ch| == 4 {
        assert Folded(ch, 4) == Fold(Folded(ch, 3), ch[3]);
      }
    }
    hide Folded;
  }

  method DecodeUtf16(e: Encoding, raw: seq<byte>) returns (c: Char)
    requires raw != [] && e != Utf8
    ensures c == NextUtf16(e, raw)
  {
    var low, high := if e == Utf16LE then 0 else 1, if e == Utf16LE then 1 else 0;
    if |raw| < 2 {
      return Short;
    }
    var value: nat := Uint16(raw[low], raw[high]);
    if IsLow(value) {
      return Bad;
    }
    if IsHigh(value) {
      if |raw| < 4 {
        return Short;
      }
      var value2: nat := Uint16(raw[low + 2], raw[high + 2]);
      if !IsLow(value2) {
        return Bad;
      }
      return Char(0x10000 + value % 1024 * 1024 + value2 % 1024, 4);
    }
    return Char(value, 2);
  }

  method DecodeChar(e: Encoding, raw: seq<byte>) returns (c: Char)
    requires raw != []
    ensures c == NextChar(e, raw)
  {
    if e == Utf8 {
      c := DecodeUtf8(raw);
    } else {
      c := DecodeUtf16(e, raw);
    }
    if c.Char? && !Allowed(c.value) {
      return Bad;
    }
  }

  /** An encoded character announces its own length, and is at most half as long again as what it came from. */
  lemma EncodedSize(e: Encoding, b: seq<byte>)
    requires b != [] && NextChar(e, b).Char?
    ensures var c := NextChar(e, b);
      c.value <= 0x10FFFF && Encode(c.value) != [] && Width(Encode(c.value)[0]) == |Encode(c.value)|
      && 2 * |Encode(c.value)| <= 3 * c.width
  {
    var c := NextChar(e, b);
    if e == Utf8 {
      EncodeDecode(b[..c.width]);
    }
  }

  // ----- the buffers

  /** Whatever the chunks, the characters so far and those still to come are the meaning of the stream. */
  predicate Decoded(stream: seq<byte>, encoding: Option<Encoding>, at: nat, chars: seq<byte>) {
    && at <= |stream| && 0 !in chars
    && (encoding.None? ==> at == 0 && chars == [])
    && (encoding.Some? ==> encoding.value == EncodingOf(stream)
                           && Meaning(stream) == Before(chars, Transcode(encoding.value, stream[at..])))
  }

  /** What the scanner has not moved past: `unread` characters and then only NULs. NULs come after all of them. */
  predicate Available(b: seq<byte>, unread: nat, chars: seq<byte>, nuls: nat, taken: seq<byte>) {
    chars + Nuls(nuls) == taken + b && Holds(b, unread, if nuls > 0 then MAX_REQUEST else 0)
  }

  class Reader {
    ghost const stream: seq<byte>         // everything the read handler will ever deliver
    var input: seq<byte>                  // what it has yet to deliver
    var idle: nat                         // how often it will deliver nothing without being at its end
    var eof: bool
    var rawBuffer: seq<byte>
    var rawBufferPos: nat
    var encoding: Option<Encoding>
    var buffer: seq<byte>
    var bufferPos: nat
    var unread: nat                       // characters in the buffer
    ghost var at: nat                     // raw bytes turned into characters
    ghost var chars: seq<byte>            // those characters
    ghost var nuls: nat                   // NULs put after the last of them
    ghost var taken: seq<byte>            // what the scanner has moved past

    ghost predicate Faithful()
      reads this
    {
      Decoded(stream, encoding, at, chars) && 2 * |chars| <= 3 * at && (nuls > 0 ==> eof && at == |stream|)
    }

    ghost predicate Raw()
      reads this
    {
      && rawBufferPos <= |rawBuffer| <= RAW_BUFFER_SIZE && at <= |stream|
      && stream[at..] == rawBuffer[rawBufferPos..] + input
      && (eof ==> input == [])
    }

    ghost predicate Buffered()
      reads this
    {
      bufferPos <= |buffer| <= BUFFER_SIZE && Available(buffer[bufferPos..], unread, chars, nuls, taken)
    }

    ghost predicate Valid()
      reads this
    {
      Faithful() && Raw() && Buffered()
    }

    constructor (stream: seq<byte>, idle: nat)
      ensures Valid() && this.stream == stream && encoding.None? && buffer == [] && unread == 0 && taken == []
    {
      this.stream, this.idle, input, eof, rawBuffer, rawBufferPos, encoding := stream, idle, stream, false, [], 0, None;
      buffer, bufferPos, unread, at, chars, nuls, taken := [], 0, 0, 0, [], 0, [];
    }

    /** What the handler has still to do before it reports the end of its input. */
    ghost function Supply(): nat
      reads this
    {
      |input| + idle
    }

    /** Some bytes, as many as the handler likes, or for once none at all; the end may come with the last of
        them or after. */
    method ReadHandler(room: nat) returns (b: seq<byte>, end: bool)
      requires room > 0
      modifies this`input, this`idle
      ensures old(input) == b + input && |b| <= room && (end ==> input == [])
      ensures Supply() <= old(Supply()) && (end || Supply() < old(Supply()))
    {
      var lazy: bool := *;
      if idle > 0 && lazy {
        idle := idle - 1;
        return [], false;
      }
      var n: int := *;
      var most := if room < |input| then room else |input|;
      n := if n > most then most else if n < 1 && most > 0 then 1 else if n < 1 then 0 else n;
      b := input[..n];
      input := input[n..];
      end := n == 0;
      if input == [] {
        var early: bool := *;
        end := end || early;
      }
    }

    method UpdateRawBuffer()
      requires Raw()
      modifies this`rawBuffer, this`rawBufferPos, this`input, this`idle, this`eof
      ensures Raw()
      ensures old(rawBufferPos > 0 || |rawBuffer| < RAW_BUFFER_SIZE) ==> eof || Supply() < old(Supply())
      ensures Supply() <= old(Supply()) && (old(eof) ==> eof)
      ensures !old(eof) && old(rawBufferPos > 0 || |rawBuffer| < RAW_BUFFER_SIZE) ==> rawBufferPos == 0
      ensures |rawBuffer| - rawBufferPos >= old(|rawBuffer| - rawBufferPos)
      ensures old(eof) ==> rawBuffer == old(rawBuffer) && rawBufferPos == old(rawBufferPos)
    {
      if rawBufferPos == 0 && |rawBuffer| == RAW_BUFFER_SIZE {
        return;
      }
      if eof {
        return;
      }
      rawBuffer := rawBuffer[rawBufferPos..];
      rawBufferPos := 0;
      var b, end := ReadHandler(RAW_BUFFER_SIZE - |rawBuffer|);
      ghost var kept := rawBuffer;
      rawBuffer := rawBuffer + b;
      assert rawBuffer[0..] + input == kept + (b + input);
      if end {
        eof := true;
      }
    }

    /** The byte order mark is waited for, so that the answer depends on the stream alone. */
    method DetermineEncoding()
      requires Valid() && encoding.None?
      modifies this`rawBuffer, this`rawBufferPos, this`input, this`idle, this`eof, this`encoding, this`at
      ensures Valid() && encoding.Some?
    {
      hide Transcode, Decoded, Available, Meaning;
      while !eof && |rawBuffer| - rawBufferPos < 3
        invariant Valid() && encoding.None?
        decreases Supply(), !eof
      {
        UpdateRawBuffer();
      }
      var b := rawBuffer[rawBufferPos..];
      Detected(stream, at, chars, b, input);
      encoding := Some(EncodingOf(b));
      rawBufferPos := rawBufferPos + BomLength(b);
      at := BomLength(b);
      assert rawBuffer[rawBufferPos..] == b[at..];
    }

    /** Puts one character into the buffer. */
    method PutChar(c: Char)
      requires Valid() && encoding.Some? && rawBufferPos < |rawBuffer| && bufferPos == 0
      requires c == NextChar(encoding.value, rawBuffer[rawBufferPos..]) && c.Char?
      requires c.value <= 0x10FFFF && |buffer| + |Encode(c.value)| <= BUFFER_SIZE
      requires Encode(c.value) != [] && Width(Encode(c.value)[0]) == |Encode(c.value)|
      requires 2 * |Encode(c.value)| <= 3 * c.width
      modifies this`rawBufferPos, this`buffer, this`unread, this`at, this`chars
      ensures Valid() && rawBufferPos == old(rawBufferPos) + c.width && unread == old(unread) + 1
      ensures buffer == old(buffer) + Encode(c.value)
    {
      hide NextChar, Transcode, Encode, Meaning, Available, Decoded, Allowed, Width;
      ghost var b, text := rawBuffer[rawBufferPos..], Encode(c.value);
      NoNul(c.value);
      DecodedMore(stream, encoding.value, at, chars, b, input);
      assert buffer[0..] == buffer && nuls == 0;
      AvailableMore(buffer, unread, chars, taken, text);
      assert stream[at..][c.width..] == stream[at + c.width..] && b[c.width..] == rawBuffer[rawBufferPos + c.width..];
      rawBufferPos := rawBufferPos + c.width;
      at := at + c.width;
      buffer := buffer + Encode(c.value);
      chars := chars + text;
      unread := unread + 1;
      assert buffer[0..] == buffer;
    }

    /** Turns raw bytes into characters until they run out or the last character is incomplete. */
    method DecodeRaw() returns (ok: bool)
      requires Valid() && encoding.Some? && bufferPos == 0
      requires 2 * |buffer| + 3 * (|rawBuffer| - rawBufferPos) < 2 * BUFFER_SIZE
      modifies this`rawBufferPos, this`buffer, this`unread, this`at, this`chars
      ensures ok ==> Valid() && |rawBuffer| - rawBufferPos < 4 && (eof ==> rawBufferPos == |rawBuffer|)
      ensures ok ==> |buffer| < BUFFER_SIZE && old(buffer) <= buffer
      ensures !ok ==> Meaning(stream).None?
    {
      hide NextChar, Transcode, Encode, Meaning, Width, Available, Decoded;
      while rawBufferPos != |rawBuffer|
        invariant Valid() && old(buffer) <= buffer
        invariant 2 * |buffer| + 3 * (|rawBuffer| - rawBufferPos) < 2 * BUFFER_SIZE
        decreases |rawBuffer| - rawBufferPos
      {
        ghost var b := rawBuffer[rawBufferPos..];
        var c := DecodeChar(encoding.value, rawBuffer[rawBufferPos..]);
        if c.Bad? || (c.Short? && eof) {
          NoMeaning(stream, encoding.value, at, chars, b, input);
          return false;
        }
        if c.Short? {
          ShortSize(encoding.value, b);
          break;
        }
        EncodedSize(encoding.value, b);
        PutChar(c);
      }
      return true;
    }

    /** At the end of the stream: a NUL that counts as a character, or one that only fills the buffer. */
    method PutNul(counted: bool)
      requires Valid() && eof && at == |stream| && encoding.Some? && bufferPos == 0 && |buffer| < BUFFER_SIZE
      requires !counted ==> |buffer| < MAX_REQUEST
      modifies this`buffer, this`unread, this`nuls
      ensures Valid() && nuls > 0 && buffer == old(buffer) + [0]
      ensures unread == old(unread) + if counted then 1 else 0
    {
      hide Available, Decoded;
      assert buffer[0..] == buffer;
      AvailableNul(buffer, unread, chars, nuls, taken);
      buffer := buffer + [0];
      nuls := nuls + 1;
      if counted {
        unread := unread + 1;
      }
      assert buffer[0..] == buffer;
    }

    /** Makes `length` characters available, NULs standing in for those past the end of the stream. It fails
        only if the stream is ill-formed. What was in the buffer stays at its front. */
    method UpdateBuffer(length: nat) returns (ok: bool)
      requires Valid() && length <= MAX_REQUEST
      modifies this
      ensures ok ==> Valid() && |buffer| - bufferPos >= length && (unread >= length || nuls > 0)
      ensures ok ==> old(buffer[bufferPos..]) <= buffer[bufferPos..] && taken == old(taken)
      ensures ok && length > 0 ==> unread > 0
      ensures !ok ==> Meaning(stream).None?
    {
      hide Meaning, Available, Decoded;
      AvailableSize(buffer[bufferPos..], unread, chars, nuls, taken);
      if unread >= length {
        return true;
      }
      if encoding.None? {
        DetermineEncoding();
      }
      ghost var kept := buffer[bufferPos..];
      buffer := buffer[bufferPos..];
      bufferPos := 0;
      assert buffer[0..] == buffer;
      ok := Fill(length);
      if !ok {
        return;
      }
      while |buffer| < length
        invariant Valid() && bufferPos == 0 && encoding.Some? && kept <= buffer
        invariant |buffer| < length ==> eof && at == |stream|
        invariant (unread >= length || (nuls > 0 && unread > 0)) && taken == old(taken)
        decreases length - |buffer|
      {
        PutNul(false);
      }
    }

    /** The loop that alternates between reading and decoding. */
    method Fill(length: nat) returns (ok: bool)
      requires Valid() && length <= MAX_REQUEST && encoding.Some? && bufferPos == 0
      modifies this
      ensures ok ==> Valid() && encoding == old(encoding) && bufferPos == 0 && old(buffer) <= buffer && taken == old(taken)
      ensures ok ==> unread >= length || (eof && at == |stream| && nuls > 0 && unread > 0)
      ensures ok && |buffer| < length ==> eof && at == |stream|
      ensures !ok ==> Meaning(stream).None?
    {
      hide Meaning, Available, Decoded;
      var first := true;
      while unread < length
        invariant Valid() && encoding == old(encoding) && bufferPos == 0 && old(buffer) <= buffer && taken == old(taken)
        invariant !first ==> |rawBuffer| - rawBufferPos < 4
        decreases Supply(), first
      {
        ok := Refill(!first || rawBufferPos == |rawBuffer|);
        first := false;
        if !ok {
          return;
        }
        if eof {
          assert rawBuffer[rawBufferPos..] == [];
          PutNul(true);
          return true;
        }
      }
      assert buffer[0..] == buffer;
      AvailableSize(buffer, unread, chars, nuls, taken);
      return true;
    }

    method Refill(read: bool) returns (ok: bool)
      requires Valid() && encoding.Some? && bufferPos == 0 && unread < MAX_REQUEST
      requires read ==> |rawBuffer| - rawBufferPos < 4
      modifies this
      ensures ok ==> Valid() && encoding == old(encoding) && bufferPos == 0 && old(buffer) <= buffer && taken == old(taken)
      ensures ok ==> |rawBuffer| - rawBufferPos < 4 && |buffer| < BUFFER_SIZE && (eof ==> rawBufferPos == |rawBuffer|)
      ensures Supply() <= old(Supply()) && (read ==> eof || Supply() < old(Supply()))
      ensures !ok ==> Meaning(stream).None?
    {
      hide Meaning, Available, Decoded;
      if read {
        UpdateRawBuffer();
      }
      assert buffer[0..] == buffer;
      AvailableSize(buffer, unread, chars, nuls, taken);
      ok := DecodeRaw();
    }

    /** The scanner moves past one character. */
    method Skip() returns (c: seq<byte>)
      requires Valid() && unread > 0
      modifies this`bufferPos, this`unread, this`taken
      ensures Valid() && c != [] && old(buffer[bufferPos..]) == c + buffer[bufferPos..] && unread == old(unread) - 1
      ensures c[0] == old(buffer[bufferPos]) && taken == old(taken) + c
      ensures c[0] != 0 ==> 0 !in c
    {
      hide Available, Decoded;
      AvailableNext(buffer[bufferPos..], unread, chars, nuls, taken);
      var w := Width(buffer[bufferPos]);
      c := buffer[bufferPos..bufferPos + w];
      assert buffer[bufferPos..][w..] == buffer[bufferPos + w..] && buffer[bufferPos..][..w] == c;
      bufferPos := bufferPos + w;
      unread := unread - 1;
      taken := taken + c;
    }
  }

  lemma Detected(stream: seq<byte>, at: nat, chars: seq<byte>, b: seq<byte>, input: seq<byte>)
    requires Decoded(stream, None, at, chars) && stream[at..] == b + input && (|b| >= 3 || input == [])
    ensures EncodingOf(b) == EncodingOf(stream) && BomLength(b) == BomLength(stream)
    ensures Decoded(stream, Some(EncodingOf(stream)), BomLength(stream), chars)
    ensures stream[BomLength(stream)..] == b[BomLength(stream)..] + input
  {
    hide Transcode;
    assert stream == stream[0..];
    BeforeNothing(Meaning(stream));
  }

  lemma DecodedMore(stream: seq<byte>, e: Encoding, at: nat, chars: seq<byte>, b: seq<byte>, input: seq<byte>)
    requires Decoded(stream, Some(e), at, chars) && stream[at..] == b + input && b != [] && NextChar(e, b).Char?
    ensures var c := NextChar(e, b);
      c.value <= 0x10FFFF && Decoded(stream, Some(e), at + c.width, chars + Encode(c.value))
  {
    hide NextChar, Transcode, Encode, Meaning, Allowed;
    var c := NextChar(e, b);
    TranscodeStep(e, b, input);
    assert stream[at..][c.width..] == stream[at + c.width..];
    BeforeTwice(chars, Encode(c.value), Transcode(e, stream[at + c.width..]));
    NoNul(c.value);
  }

  lemma NoMeaning(stream: seq<byte>, e: Encoding, at: nat, chars: seq<byte>, b: seq<byte>, input: seq<byte>)
    requires Decoded(stream, Some(e), at, chars) && stream[at..] == b + input
    requires b != [] && (NextChar(e, b).Bad? || (NextChar(e, b).Short? && input == []))
    ensures Meaning(stream).None?
  {
    hide Transcode, NextChar, Meaning;
    Undecodable(e, b, input);
  }

  lemma AvailableMore(b: seq<byte>, unread: nat, chars: seq<byte>, taken: seq<byte>, c: seq<byte>)
    requires Available(b, unread, chars, 0, taken) && c != [] && Width(c[0]) == |c| && 0 !in c
    ensures Available(b + c, unread + 1, chars + c, 0, taken)
  {
    hide Holds;
    HoldsMore(b, unread, c, 0);
    assert Nuls(0) == [];
    assert chars + [] == chars && chars + c + [] == taken + (b + c);
  }

  lemma AvailableNul(b: seq<byte>, unread: nat, chars: seq<byte>, nuls: nat, taken: seq<byte>)
    requires Available(b, unread, chars, nuls, taken)
    ensures Available(b + [0], unread + 1, chars, nuls + 1, taken)
    ensures |b| < MAX_REQUEST ==> Available(b + [0], unread, chars, nuls + 1, taken)
  {
    hide Holds, Nuls;
    if nuls == 0 {
      HoldsLooser(b, unread, MAX_REQUEST);
    }
    HoldsNul(b, unread, MAX_REQUEST);
    OneMoreNul(nuls);
    assert chars + (Nuls(nuls) + [0]) == chars + Nuls(nuls) + [0];
    assert taken + (b + [0]) == taken + b + [0];
  }

  lemma AvailableSize(b: seq<byte>, unread: nat, chars: seq<byte>, nuls: nat, taken: seq<byte>)
    requires Available(b, unread, chars, nuls, taken)
    ensures unread <= |b| <= 4 * unread + MAX_REQUEST
  {
    HoldsSize(b, unread, if nuls > 0 then MAX_REQUEST else 0);
  }

  lemma AvailableNext(b: seq<byte>, unread: nat, chars: seq<byte>, nuls: nat, taken: seq<byte>)
    requires Available(b, unread, chars, nuls, taken) && unread > 0
    ensures b != [] && 1 <= Width(b[0]) <= |b|
    ensures var w := Width(b[0]);
      Available(b[w..], unread - 1, chars, nuls, taken + b[..w]) && (b[0] != 0 ==> 0 !in b[..w])
  {
    hide Nuls;
    var w := Width(b[0]);
    assert taken + b == taken + b[..w] + b[w..];
  }

  lemma OneMoreNul(n: nat)
    ensures Nuls(n + 1) == Nuls(n) + [0]
  {
  }

  /** Characters have no NUL in them, so the first NUL marks the end of the text. */
  lemma TextEnds(chars: seq<byte>, n: nat, taken: seq<byte>, rest: seq<byte>)
    requires chars + Nuls(n) == taken + rest && 0 !in chars && 0 !in taken
    ensures |taken| <= |chars|
    ensures rest != [] && rest[0] == 0 ==> taken == chars && n > 0
  {
    var all := chars + Nuls(n);
    assert forall i :: 0 <= i < |taken| ==> all[i] == taken[i];
    assert |chars| < |all| ==> all[|chars|] == 0;
    assert rest != [] ==> all[|taken|] == rest[0];
    assert taken == all[..|taken|] && chars == all[..|chars|];
  }

  /** Reading a whole stream, character by character up to the first NUL, gives its meaning, and fails if it
      has none, however the stream is cut into chunks. */
  method ReadStream(stream: seq<byte>, idle: nat) returns (text: Option<seq<byte>>)
    ensures text == Meaning(stream)
  {
    hide Meaning, Nuls, Transcode, Before, Holds;
    var r := new Reader(stream, idle);
    var got: seq<byte> := [];
    while true
      invariant r.Valid() && got == r.taken && 0 !in got && r.stream == stream
      decreases 3 * |stream| - 2 * |got|
    {
      var ok := r.UpdateBuffer(1);
      if !ok {
        return None;
      }
      TextEnds(r.chars, r.nuls, r.taken, r.buffer[r.bufferPos..]);
      if r.buffer[r.bufferPos] == 0 {
        EndOfMeaning(r);
        return Some(got);
      }
      var c := r.Skip();
      got := got + c;
      TextEnds(r.chars, r.nuls, r.taken, r.buffer[r.bufferPos..]);
    }
  }

  lemma EndOfMeaning(r: Reader)
    requires r.Valid() && r.nuls > 0
    ensures Meaning(r.stream) == Some(r.chars)
  {
    assert r.stream[r.at..] == [];
    assert r.chars + [] == r.chars;
  }

  lemma TranscodeStep(e: Encoding, b: seq<byte>, more: seq<byte>)
    requires b != [] && NextChar(e, b).Char?
    ensures NextChar(e, b).value <= 0x10FFFF
    ensures Transcode(e, b + more) == Before(Encode(NextChar(e, b).value), Transcode(e, (b + more)[NextChar(e, b).width..]))
  {
    hide Encode;
    NextCharPrefix(e, b, more);
    hide NextChar;
  }

  lemma Undecodable(e: Encoding, b: seq<byte>, more: seq<byte>)
    requires b != [] && (NextChar(e, b).Bad? || (NextChar(e, b).Short? && more == []))
    ensures Transcode(e, b + more).None?
  {
    if more == [] {
      assert b + more == b;
    } else {
      NextCharPrefix(e, b, more);
    }
    hide NextChar;
  }

  lemma NoNul(v: nat)
    requires Allowed(v)
    ensures 0 !in Encode(v)
  {
  }

  lemma ShortSize(e: Encoding, b: seq<byte>)
    requires b != [] && NextChar(e, b).Short?
    ensures |b| < 4
  {
    hide ValidChar, Decode;
  }

  lemma BeforeTwice(a: seq<byte>, b: seq<byte>, t: Option<seq<byte>>)
    ensures Before(a, Before(b, t)) == Before(a + b, t)
  {
    if t.Some? { assert a + (b + t.value) == a + b + t.value; }
  }

  lemma BeforeNothing(t: Option<seq<byte>>)
    ensures Before([], t) == t
  {
    if t.Some? { assert [] + t.value == t.value; }
  }
}
