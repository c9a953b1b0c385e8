/** The stream reader, and the round trip from any writes to any reads. */
module SnappyReader {
  import opened Bytes
  import opened Sequences
  import opened SnappyFormat
  import opened SnappyDecode
  import opened SnappyEncode
  import opened SnappyStream
  import opened SnappyWriter

  class Reader {
    const crc: Checksum
    const decoded: array<byte>
    /** The bytes not yet taken from the underlying reader. */
    var input: seq<byte>
    /** `decoded[i..j]` is text not yet passed on. */
    var i: nat
    var j: nat
    var readHeader: bool
    var err: Option<ReadError>

    ghost predicate Valid()
      reads this
    {
      && decoded.Length == MAX_BLOCK_SIZE
      && i <= j <= decoded.Length
      && (err.Some? ==> i == j)
    }

    /** All that is still to come: the text, then the error that ends it. */
    ghost function Pending(): Outcome
      reads this, decoded
      requires Valid()
    {
      if err.Some? then Outcome([], err.value)
      else var rest := ReadStream(crc, input, readHeader); Outcome(decoded[i..j] + rest.text, rest.error)
    }

    constructor (crc: Checksum, input: seq<byte>)
      ensures Valid() && fresh(decoded) && this.crc == crc
      ensures Pending() == ReadStream(crc, input, false)
    {
      this.crc, this.input := crc, input;
      decoded := new byte[MAX_BLOCK_SIZE];
      i, j, readHeader, err := 0, 0, false, None;
      new;
      assert decoded[i..j] + ReadStream(crc, input, false).text == ReadStream(crc, input, false).text;
    }

    /** Takes exactly `n` bytes, or sets the error. Only at a chunk boundary may the input end. */
    method ReadFull(n: nat, allowEOF: bool) returns (ok: bool, p: seq<byte>)
      requires Valid() && err.None? && i == j
      modifies `input, `err
      ensures ok <==> n <= |old(input)|
      ensures ok ==> p == old(input)[..n] && input == old(input)[n..] && err.None?
      ensures !ok ==> err == Some(if allowEOF && old(input) == [] then EndOfStream else CorruptStream)
    {
      if n <= |input| {
        p, input := input[..n], input[n..];
        return true, p;
      }
      err := Some(if allowEOF && input == [] then EndOfStream else CorruptStream);
      input := [];
      return false, [];
    }

    /** A compressed chunk of `length` bytes. */
    method ReadCompressed(length: nat)
      requires length <= READ_BUFFER && Valid() && err.None? && i == j
      modifies this, decoded
      ensures Valid() && readHeader == old(readHeader)
      ensures var was := old(input);
              if length < 4 || |was| < length then err == Some(CorruptStream)
              else var f := Checked(crc, Uint32(was[0], was[1], was[2], was[3]), BlockText(was[4..length]), length);
                   Took(f, was, input, err, decoded[i..j])
    {
      hide BlockText, Encodes;
      if length < 4 { err := Some(CorruptStream); return; }
      ghost var was := input;
      var ok, buf := ReadFull(length, false);
      if !ok { return; }
      var checksum := Uint32(buf[0], buf[1], buf[2], buf[3]);
      buf := buf[4..];
      assert buf == was[4..length];
      LengthOfBlock(buf);
      var n := DecodedLen(buf, W64);
      if n.Err? || n.value.value > decoded.Length { err := Some(CorruptStream); return; }
      var r, m := Decode(decoded, buf, W64);
      if r.Err? { err := Some(CorruptStream); return; }
      BlockTextUnique(buf, decoded[..m]);
      if crc(decoded[..m]) != checksum { err := Some(CorruptStream); return; }
      i, j := 0, m;
      assert decoded[i..j] == decoded[..m];
    }

    /** A stored chunk of `length` bytes, read straight into place. */
    method ReadStored(length: nat)
      requires Valid() && err.None? && i == j
      modifies this, decoded
      ensures Valid() && readHeader == old(readHeader)
      ensures var was := old(input);
              if length < 4 || |was| < length then err == Some(CorruptStream)
              else var f := Checked(crc, Uint32(was[0], was[1], was[2], was[3]), Some(was[4..length]), length);
                   Took(f, was, input, err, decoded[i..j])
    {
      if length < 4 { err := Some(CorruptStream); return; }
      ghost var was := input;
      var ok, buf := ReadFull(4, false);
      if !ok { return; }
      var checksum := Uint32(buf[0], buf[1], buf[2], buf[3]);
      var n := length - 4;
      if n > decoded.Length { err := Some(CorruptStream); return; }
      var body;
      ok, body := ReadFull(n, false);
      if !ok { return; }
      assert body == was[4..length] && input == was[length..];
      CopyInto(decoded, 0, body);
      assert decoded[..0] + body == body && decoded[..n] == body;
      if crc(decoded[..n]) != checksum { err := Some(CorruptStream); return; }
      i, j := 0, n;
      assert decoded[i..j] == decoded[..n];
    }

    /** Reads what follows a chunk's header. */
    method ReadBody(kind: byte, length: nat)
      requires Valid() && err.None? && i == j
      modifies this, decoded
      ensures Valid() && readHeader == old(readHeader)
      ensures Took(ChunkBody(crc, kind, length, old(input)), old(input), input, err, decoded[i..j])
    {
      hide BlockText, Checked;
      ghost var was := input;
      if length > READ_BUFFER {
        err := Some(Unsupported);
      } else if kind == COMPRESSED {
        ReadCompressed(length);
      } else if kind == UNCOMPRESSED {
        ReadStored(length);
      } else if kind == IDENTIFIER {
        if length != |MAGIC_BODY| { err := Some(CorruptStream); return; }
        var ok, magic := ReadFull(|MAGIC_BODY|, false);
        if ok && magic != MAGIC_BODY { err := Some(CorruptStream); }
      } else if kind <= 0x7f {
        err := Some(Unsupported);
      } else {
        var ok, skipped := ReadFull(length, false);
      }
    }

    /** Reads one chunk: it becomes the pending text, is skipped, or ends the stream. */
    method ReadChunkInto()
      requires Valid() && err.None? && i == j
      modifies this, decoded
      ensures Valid()
      ensures var f := old(NextFrame(crc, input, readHeader));
              && Took(f, old(input), input, err, decoded[i..j])
              && (!f.Stop? ==> readHeader)
    {
      hide ChunkBody;
      ghost var was := input;
      var ok, head := ReadFull(4, true);
      if !ok { return; }
      if !readHeader {
        if head[0] != IDENTIFIER { err := Some(CorruptStream); return; }
        readHeader := true;
      }
      ReadBody(head[0], Uint24(head[1], head[2], head[3]));
      ghost var f := NextFrame(crc, was, true);
      assert !f.Stop? ==> was[4..][f.size - 4..] == was[f.size..];
    }

    /** Moves on to the next chunk without losing anything that is to come. */
    method Advance()
      requires Valid() && err.None? && i == j
      modifies this, decoded
      ensures Valid() && Pending() == old(Pending())
      ensures err.None? ==> |input| < |old(input)|
    {
      hide ReadStream, NextFrame;
      ghost var was, header := input, readHeader;
      assert decoded[i..j] == [];
      Unfold(crc, was, header);
      ReadChunkInto();
      ghost var rest := ReadStream(crc, input, readHeader).text;
      assert NextFrame(crc, was, header).Skip? ==> decoded[i..j] + rest == rest;
    }

    /** Passes on up to `n` bytes of the current chunk. */
    method Deliver(n: nat) returns (p: seq<byte>)
      requires Valid() && i < j
      modifies `i
      ensures Valid() && |p| <= n && (n > 0 ==> p != [])
      ensures old(Pending()) == Outcome(p + Pending().text, Pending().error)
    {
      hide ReadStream;
      ghost var was, rest := decoded[i..j], ReadStream(crc, input, readHeader).text;
      var k := if n < j - i then n else j - i;
      p, i := decoded[i..i + k], i + k;
      assert p + (decoded[i..j] + rest) == was + rest;
    }

    /** Fills a buffer of `n` bytes as far as the current chunk goes. What is delivered, followed by what
        is still pending, is what was pending before; an error comes only once the text is exhausted,
        and it stays. */
    method Read(n: nat) returns (p: seq<byte>, e: Option<ReadError>)
      requires Valid()
      modifies this, decoded
      ensures Valid() && |p| <= n
      ensures old(Pending()) == Outcome(p + Pending().text, Pending().error)
      ensures e.None? && n > 0 ==> p != []
      ensures e.Some? ==> p == [] && Pending() == Outcome([], e.value)
    {
      hide ReadStream;
      while err.None?
        invariant Valid() && Pending() == old(Pending())
        decreases err.None?, |input|
      {
        if i < j {
          p := Deliver(n);
          return p, None;
        }
        Advance();
      }
      assert [] + Pending().text == Pending().text;
      return [], err;
    }
  }

  /** How a reader that consumed the chunk `f` from `was` is left. */
  ghost predicate Took(f: Frame, was: seq<byte>, input: seq<byte>, err: Option<ReadError>, text: seq<byte>) {
    match f
    case Stop(error) => err == Some(error)
    case Skip(size) => err == None && size <= |was| && input == was[size..] && text == []
    case Data(t, size) => err == None && size <= |was| && input == was[size..] && text == t
  }

  /** A block's text is as long as its header says. */
  lemma LengthOfBlock(body: seq<byte>)
    ensures BlockText(body).Some? ==>
              DecodedLen(body, W64).Ok? && DecodedLen(body, W64).value.value == |BlockText(body).value|
  {
  }

  /** One step of `ReadStream`, with the empty text that precedes it. */
  lemma Unfold(crc: Checksum, input: seq<byte>, header: bool)
    ensures var f, r := NextFrame(crc, input, header), ReadStream(crc, input, header);
            && [] + r.text == r.text
            && match f
               case Stop(error) => r == Outcome([], error)
               case Skip(size) => r == ReadStream(crc, input[size..], true)
               case Data(text, size) =>
                 var tail := ReadStream(crc, input[size..], true);
                 r == Outcome(text + tail.text, tail.error)
  {
    hide NextFrame;
  }

  /** Reads to the end, the `k`-th time with a buffer of `sizes(k)` bytes. */
  method Drain(r: Reader, sizes: nat -> nat) returns (text: seq<byte>, e: ReadError)
    requires r.Valid() && forall k :: sizes(k) > 0
    modifies r, r.decoded
    ensures old(r.Pending()) == Outcome(text, e)
  {
    hide ReadStream;
    text := [];
    var k := 0;
    ghost var whole, left := r.Pending(), r.Pending();
    AddNothing(left.text);
    while true
      invariant r.Valid() && r.Pending() == left
      invariant whole == Outcome(text + left.text, left.error)
      decreases |left.text|
    {
      var p, err := r.Read(sizes(k));
      Regroup(text, p, r.Pending().text);
      left := r.Pending();
      text, k := text + p, k + 1;
      if err.Some? {
        AddNothing(text);
        return text, err.value;
      }
    }
  }

  /** One call on the writer. */
  datatype Call = WriteCall(p: seq<byte>) | FlushCall

  /** The bytes of all writes, in order. */
  function Written(calls: seq<Call>): seq<byte> {
    if calls == [] then []
    else Written(calls[..|calls| - 1]) +
         match calls[|calls| - 1] case WriteCall(p) => p case FlushCall => []
  }

  /** Any writes and flushes, a close, and reads of any sizes: the reads return what was written. */
  method StreamRoundTrip(crc: Checksum, buffered: bool, calls: seq<Call>, sizes: nat -> nat)
    returns (text: seq<byte>, e: ReadError)
    requires forall k :: sizes(k) > 0
    ensures text == Written(calls) && e == EndOfStream
  {
    hide ReadStream;
    var sink := new Sink(false);
    var w := new Writer(crc, sink, buffered);
    for k := 0 to |calls|
      invariant w.Valid() && w.err.None? && !sink.broken
      invariant w.Accepted() == Written(calls[..k])
    {
      assert calls[..k + 1][..k] == calls[..k];
      match calls[k] {
        case WriteCall(p) => var _ := w.Write(p);
        case FlushCall =>
          w.Flush();
          assert Written(calls[..k]) + [] == Written(calls[..k]);
      }
    }
    assert calls[..|calls|] == calls;
    var _ := w.Close();
    var r := new Reader(crc, sink.data);
    text, e := Drain(r, sizes);
  }
}
