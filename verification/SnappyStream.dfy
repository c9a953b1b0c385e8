/** The stream format: the chunked framing, its writer and its reader, on a 64-bit platform. */
module SnappyStream {
  import opened Bytes
  import opened Sequences
  import opened SnappyFormat
  import opened SnappyDecode
  import opened SnappyEncode

  type Checksum = seq<byte> -> uint32

  const MAGIC_BODY: seq<byte> := [0x73, 0x4e, 0x61, 0x50, 0x70, 0x59]
  const MAGIC_CHUNK: seq<byte> := [0xff, 0x06, 0x00, 0x00] + MAGIC_BODY
  const MAX_ENCODED_LEN_OF_MAX_BLOCK_SIZE := 76490
  const READ_BUFFER := MAX_ENCODED_LEN_OF_MAX_BLOCK_SIZE + 4

  const COMPRESSED: byte := 0x00
  const UNCOMPRESSED: byte := 0x01
  const IDENTIFIER: byte := 0xff

  // ----- what a stream of bytes means

  datatype ReadError = EndOfStream | CorruptStream | Unsupported

  /** The text a reader delivers, and the error it ends with. */
  datatype Outcome = Outcome(text: seq<byte>, error: ReadError)

  /** One chunk of the framing: `size` bytes carrying text, `size` bytes carrying none, or the end. */
  datatype Frame = Data(text: seq<byte>, size: nat) | Skip(size: nat) | Stop(error: ReadError)

  /** The text of an encoded block, if it is one. */
  function BlockText(body: seq<byte>): (r: Option<seq<byte>>)
    ensures r.Some? <==> exists text :: Encodes(body, text, W64)
    ensures r.Some? ==> Encodes(body, r.value, W64)
  {
    match DecodedLen(body, W64)
    case Err(_) => None
    case Ok(header) =>
      match Expand(body[header.size..], [])
      case None => None
      case Some(text) =>
        if |text| == header.value then assert Encodes(body, text, W64); Some(text) else None
  }

  /** A data chunk's text, provided that its length and its checksum are right. */
  function Checked(crc: Checksum, sum: nat, text: Option<seq<byte>>, size: nat): Frame {
    if text.Some? && |text.value| <= MAX_BLOCK_SIZE && crc(text.value) == sum
    then Data(text.value, size) else Stop(CorruptStream)
  }

  /** A chunk of kind `kind` whose announced `length` bytes start `rest`. */
  function ChunkBody(crc: Checksum, kind: byte, length: nat, rest: seq<byte>): (f: Frame)
    ensures !f.Stop? ==> f.size <= |rest|
  {
    if length > READ_BUFFER then Stop(Unsupported)
    else if kind == COMPRESSED || kind == UNCOMPRESSED then
      if length < 4 || |rest| < length then Stop(CorruptStream)
      else
        var sum, body := Uint32(rest[0], rest[1], rest[2], rest[3]), rest[4..length];
        Checked(crc, sum, if kind == COMPRESSED then BlockText(body) else Some(body), length)
    else if kind == IDENTIFIER then
      if length == |MAGIC_BODY| <= |rest| && rest[..length] == MAGIC_BODY then Skip(length) else Stop(CorruptStream)
    else if kind <= 0x7f then Stop(Unsupported)
    else if |rest| < length then Stop(CorruptStream)
    else Skip(length)
  }

  /** The first chunk of `rest`; `header` tells whether the stream identifier has been seen. */
  function NextFrame(crc: Checksum, rest: seq<byte>, header: bool): (f: Frame)
    ensures !f.Stop? ==> 4 <= f.size <= |rest|
  {
    if rest == [] then Stop(EndOfStream)
    else if |rest| < 4 then Stop(CorruptStream)
    else if !header && rest[0] != IDENTIFIER then Stop(CorruptStream)
    else
      match ChunkBody(crc, rest[0], Uint24(rest[1], rest[2], rest[3]), rest[4..])
      case Data(text, size) => Data(text, 4 + size)
      case Skip(size) => Skip(4 + size)
      case Stop(error) => Stop(error)
  }

  function ReadStream(crc: Checksum, rest: seq<byte>, header: bool): Outcome
    decreases |rest|
  {
    match NextFrame(crc, rest, header)
    case Stop(error) => Outcome([], error)
    case Skip(size) => ReadStream(crc, rest[size..], true)
    case Data(text, size) =>
      var tail := ReadStream(crc, rest[size..], true);
      Outcome(text + tail.text, tail.error)
  }

  // ----- composition of streams

  /** Chunks are self-delimiting. */
  lemma NextFramePrefix(crc: Checksum, a: seq<byte>, b: seq<byte>, header: bool)
    requires !NextFrame(crc, a, header).Stop?
    ensures NextFrame(crc, a + b, header) == NextFrame(crc, a, header)
  {
    hide ChunkBody;
    assert (a + b)[4..] == a[4..] + b;
    ChunkBodyPrefix(crc, a[0], Uint24(a[1], a[2], a[3]), a[4..], b);
  }

  lemma ChunkBodyPrefix(crc: Checksum, kind: byte, length: nat, a: seq<byte>, b: seq<byte>)
    requires !ChunkBody(crc, kind, length, a).Stop?
    ensures ChunkBody(crc, kind, length, a + b) == ChunkBody(crc, kind, length, a)
  {
    hide BlockText;
    if kind == COMPRESSED || kind == UNCOMPRESSED {
      assert (a + b)[4..length] == a[4..length];
    } else if kind == IDENTIFIER {
      assert (a + b)[..length] == a[..length];
    }
  }

  /** More chunks behind a complete stream add their text to it. */
  lemma {:induction false} ReadStreamConcat(crc: Checksum, a: seq<byte>, b: seq<byte>, header: bool)
    requires ReadStream(crc, a, header).error == EndOfStream
    ensures var tail := ReadStream(crc, b, header || a != []);
            ReadStream(crc, a + b, header) == Outcome(ReadStream(crc, a, header).text + tail.text, tail.error)
    decreases |a|
  {
    hide NextFrame;
    var f := NextFrame(crc, a, header);
    if f.Stop? {
      StopsAtEnd(crc, a, header);
      assert a + b == b;
    } else {
      NextFramePrefix(crc, a, b, header);
      assert (a + b)[f.size..] == a[f.size..] + b;
      ReadStreamConcat(crc, a[f.size..], b, true);
      if f.Data? {
        assert f.text + (ReadStream(crc, a[f.size..], true).text + ReadStream(crc, b, true).text)
            == f.text + ReadStream(crc, a[f.size..], true).text + ReadStream(crc, b, true).text;
      }
    }
  }

  lemma StopsAtEnd(crc: Checksum, a: seq<byte>, header: bool)
    requires NextFrame(crc, a, header) == Stop(EndOfStream)
    ensures a == []
  {
    hide BlockText;
  }

  /** A chunk as the writer lays it out. */
  function DataChunk(kind: byte, sum: uint32, body: seq<byte>): seq<byte> {
    [kind] + ToLittleEndian(4 + |body|, 3) + ToLittleEndian(sum, 4) + body
  }

  /** A chunk written for `text`, stored or compressed, is read as `text`. */
  lemma DataChunkMeaning(crc: Checksum, kind: byte, body: seq<byte>, text: seq<byte>)
    requires (kind == COMPRESSED && Encodes(body, text, W64)) || (kind == UNCOMPRESSED && body == text)
    requires |text| <= MAX_BLOCK_SIZE && |body| <= MAX_ENCODED_LEN_OF_MAX_BLOCK_SIZE
    ensures ReadStream(crc, DataChunk(kind, crc(text), body), true) == Outcome(text, EndOfStream)
  {
    hide NextFrame, DataChunk;
    var c := DataChunk(kind, crc(text), body);
    DataChunkFrame(crc, kind, body, text);
    assert c[|c|..] == [];
    assert NextFrame(crc, [], true) == Stop(EndOfStream) by { NoMoreFrames(crc); }
    assert ReadStream(crc, [], true) == Outcome([], EndOfStream);
    AddNothing(text);
  }

  lemma NoMoreFrames(crc: Checksum)
    ensures NextFrame(crc, [], true) == Stop(EndOfStream)
  {
  }

  lemma DataChunkFrame(crc: Checksum, kind: byte, body: seq<byte>, text: seq<byte>)
    requires (kind == COMPRESSED && Encodes(body, text, W64)) || (kind == UNCOMPRESSED && body == text)
    requires |text| <= MAX_BLOCK_SIZE && |body| <= MAX_ENCODED_LEN_OF_MAX_BLOCK_SIZE
    ensures var c := DataChunk(kind, crc(text), body); c != [] && NextFrame(crc, c, true) == Data(text, |c|)
  {
    hide ToLittleEndian, BlockText, Encodes, Expand;
    var c := DataChunk(kind, crc(text), body);
    ChunkLayout(kind, crc(text), body);
    Bytes3(4 + |body|);
    Bytes4(crc(text));
    if kind == COMPRESSED {
      BlockTextUnique(body, text);
    }
  }

  /** Where the parts of a data chunk are. */
  lemma ChunkLayout(kind: byte, sum: uint32, body: seq<byte>)
    ensures var c, length, s := DataChunk(kind, sum, body), ToLittleEndian(4 + |body|, 3), ToLittleEndian(sum, 4);
      && |c| == 8 + |body| && c[0] == kind && c[1] == length[0] && c[2] == length[1] && c[3] == length[2]
      && c[4..][0] == s[0] && c[4..][1] == s[1] && c[4..][2] == s[2] && c[4..][3] == s[3]
      && c[4..][4..4 + |body|] == body
  {
    hide ToLittleEndian;
  }

  lemma BlockTextUnique(body: seq<byte>, text: seq<byte>)
    requires Encodes(body, text, W64)
    ensures BlockText(body) == Some(text)
  {
  }

  /** Chunks of a reserved kind: the lower half of them is not understood, the upper half is passed over. */
  lemma ReservedChunks(crc: Checksum, kind: byte, body: seq<byte>, rest: seq<byte>)
    requires 0x02 <= kind < 0xff && |body| <= 76494
    ensures ReadStream(crc, [kind] + ToLittleEndian(|body|, 3) + body + rest, true)
         == if kind < 0x80 then Outcome([], Unsupported) else ReadStream(crc, rest, true)
  {
    hide ToLittleEndian, BlockText;
    var length := ToLittleEndian(|body|, 3);
    var c := [kind] + length + body + rest;
    Bytes3(|body|);
    Cut([kind], length, body, rest);
    assert c[0] == kind && c[1] == length[0] && c[2] == length[1] && c[3] == length[2];
    assert c[4..] == body + rest;
    assert NextFrame(crc, c, true) == if kind < 0x80 then Stop(Unsupported) else Skip(4 + |body|);
  }

  /** The stream identifier spells "sNaPpY"; with any other body it is refused. */
  lemma IdentifierChunks(crc: Checksum, body: seq<byte>, rest: seq<byte>, header: bool)
    requires |body| <= 76494
    ensures ReadStream(crc, [0xff] + ToLittleEndian(|body|, 3) + body + rest, header)
         == if body == [0x73, 0x4e, 0x61, 0x50, 0x70, 0x59] then ReadStream(crc, rest, true) else Outcome([], CorruptStream)
  {
    hide ToLittleEndian, BlockText;
    var length := ToLittleEndian(|body|, 3);
    var c := [0xff] + length + body + rest;
    Bytes3(|body|);
    Cut([0xff], length, body, rest);
    assert c[0] == 0xff && c[1] == length[0] && c[2] == length[1] && c[3] == length[2];
    assert c[4..] == body + rest && (body + rest)[..|body|] == body;
    assert NextFrame(crc, c, header) == if body == MAGIC_BODY then Skip(4 + |body|) else Stop(CorruptStream);
  }

  /** Data chunks, compressed (0x00) or stored (0x01): the length and the checksum are little-endian, and the text counts
      if it is no longer than 65536 bytes and has that checksum. */
  lemma DataChunks(crc: Checksum, compressed: bool, sum: uint32, body: seq<byte>, rest: seq<byte>)
    requires |body| <= 76490
    ensures var text, tail := if compressed then BlockText(body) else Some(body), ReadStream(crc, rest, true);
      ReadStream(crc, [if compressed then 0x00 else 0x01] + ToLittleEndian(4 + |body|, 3) + ToLittleEndian(sum, 4) + body + rest, true)
      == if text.Some? && |text.value| <= 65536 && crc(text.value) == sum then Outcome(text.value + tail.text, tail.error)
         else Outcome([], CorruptStream)
  {
    hide ToLittleEndian, BlockText, ReadStream, DataChunk, ChunkBody;
    var kind := if compressed then COMPRESSED else UNCOMPRESSED;
    var c := DataChunk(kind, sum, body) + rest;
    DataLayout(kind, sum, body, rest);
    var text := if compressed then BlockText(body) else Some(body);
    DataBody(crc, kind, sum, body, rest);
    Bytes3(4 + |body|);
    ReadStreamStep(crc, c, Checked(crc, sum, text, 4 + |body|));
  }

  lemma DataLayout(kind: byte, sum: uint32, body: seq<byte>, rest: seq<byte>)
    ensures var c, length, s := DataChunk(kind, sum, body) + rest, ToLittleEndian(4 + |body|, 3), ToLittleEndian(sum, 4);
      && c == [kind] + length + s + body + rest && |c| >= 8 + |body|
      && c[0] == kind && c[1] == length[0] && c[2] == length[1] && c[3] == length[2]
      && c[4..] == s + body + rest && c[8 + |body|..] == rest
  {
    hide ToLittleEndian;
  }

  lemma DataBody(crc: Checksum, kind: byte, sum: uint32, body: seq<byte>, rest: seq<byte>)
    requires (kind == 0x00 || kind == 0x01) && |body| <= 76490
    ensures ChunkBody(crc, kind, 4 + |body|, ToLittleEndian(sum, 4) + body + rest)
         == Checked(crc, sum, if kind == 0x00 then BlockText(body) else Some(body), 4 + |body|)
  {
    hide ToLittleEndian, BlockText, Checked;
    var s := ToLittleEndian(sum, 4);
    Bytes4(sum);
    var more := s + body + rest;
    assert more[0] == s[0] && more[1] == s[1] && more[2] == s[2] && more[3] == s[3] && more[4..4 + |body|] == body;
  }

  lemma ReadStreamStep(crc: Checksum, c: seq<byte>, f: Frame)
    requires |c| >= 4 && ChunkBody(crc, c[0], Uint24(c[1], c[2], c[3]), c[4..]) == f && !f.Skip?
    ensures ReadStream(crc, c, true) ==
      if f.Stop? then Outcome([], f.error)
      else var tail := ReadStream(crc, c[4 + f.size..], true); Outcome(f.text + tail.text, tail.error)
  {
    hide ChunkBody;
  }

  /** A chunk that announces more than the reader's buffer holds is not supported, whatever its kind. */
  lemma TooLongChunks(crc: Checksum, kind: byte, length: nat, rest: seq<byte>)
    requires 76494 < length < 0x100_0000
    ensures ReadStream(crc, [kind] + ToLittleEndian(length, 3) + rest, true) == Outcome([], Unsupported)
  {
    hide ToLittleEndian, BlockText;
    var n := ToLittleEndian(length, 3);
    Bytes3(length);
    var c := [kind] + n + rest;
    assert c[0] == kind && c[1] == n[0] && c[2] == n[1] && c[3] == n[2];
  }

  lemma MagicChunkMeaning(crc: Checksum)
    ensures ReadStream(crc, MAGIC_CHUNK, false) == Outcome([], EndOfStream)
    ensures MAGIC_CHUNK == [0xff, 0x06, 0x00, 0x00, 0x73, 0x4e, 0x61, 0x50, 0x70, 0x59]
  {
    assert MAGIC_CHUNK[4..] == MAGIC_BODY && MAGIC_BODY[..6] == MAGIC_BODY;
    assert NextFrame(crc, MAGIC_CHUNK, false) == Skip(10);
    assert MAGIC_CHUNK[10..] == [];
  }
}
