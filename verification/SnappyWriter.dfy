/** The stream writer: buffers writes, cuts them into chunks and sends them to a sink. */
module SnappyWriter {
  import opened Bytes
  import opened Sequences
  import opened SnappyFormat
  import opened SnappyDecode
  import opened SnappyEncode
  import opened SnappyStream

  /** Where the writer sends its bytes. A broken sink accepts nothing and reports an error. */
  class Sink {
    var data: seq<byte>
    var broken: bool

    constructor (broken: bool)
      ensures data == [] && this.broken == broken
    {
      data, this.broken := [], broken;
    }

    method Write(p: seq<byte>) returns (ok: bool)
      modifies `data
      ensures ok == !broken
      ensures data == if ok then old(data) + p else old(data)
    {
      ok := !broken;
      if ok { data := data + p; }
    }
  }

  datatype WriteError = SinkFailed | Closed

  class Writer {
    const crc: Checksum
    const sink: Sink
    const obuf: array<byte>
    /** Whether incoming bytes are held back in `ibuf`. */
    const buffered: bool
    var ibuf: seq<byte>
    var wroteStreamHeader: bool
    var err: Option<WriteError>
    /** Every byte handed on to the sink so far, before compression. */
    ghost var sent: seq<byte>

    /** As long as the sink has not failed, what it holds is a complete stream of the bytes sent. */
    ghost predicate Valid()
      reads this, sink
    {
      && obuf.Length == MAX_ENCODED_LEN_OF_MAX_BLOCK_SIZE
      && |ibuf| <= MAX_BLOCK_SIZE
      && (!buffered ==> ibuf == [])
      && (err == Some(Closed) ==> ibuf == [])
      && (err != Some(SinkFailed) ==>
            && (wroteStreamHeader <==> sink.data != [])
            && ReadStream(crc, sink.data, false) == Outcome(sent, EndOfStream))
    }

    /** Every byte accepted from the caller. */
    ghost function Accepted(): seq<byte>
      reads this
    {
      sent + ibuf
    }

    constructor (crc: Checksum, sink: Sink, buffered: bool)
      requires sink.data == []
      ensures Valid() && fresh(obuf)
      ensures this.sink == sink && this.buffered == buffered && this.crc == crc
      ensures err.None? && Accepted() == []
    {
      this.crc, this.sink, this.buffered := crc, sink, buffered;
      obuf := new byte[MAX_ENCODED_LEN_OF_MAX_BLOCK_SIZE];
      ibuf, wroteStreamHeader, err, sent := [], false, None, [];
    }

    /** Sends one chunk of at most 64 KiB, stored unless compression saves an eighth of it. */
    method WriteChunk(u: seq<byte>)
      requires Valid() && err.None? && 1 <= |u| <= MAX_BLOCK_SIZE
      modifies `wroteStreamHeader, `err, `sent, sink`data, obuf
      ensures Valid()
      ensures sink.broken ==> err == Some(SinkFailed)
      ensures !sink.broken ==> err.None? && sent == old(sent) + u
    {
      hide ReadStream, DataChunk, Encodes, MAGIC_CHUNK;
      ghost var before := sink.data;
      var lead := [];
      if !wroteStreamHeader {
        wroteStreamHeader := true;
        lead := MAGIC_CHUNK;
      }
      var kind, body := Compress(u);
      var ok := Send(lead, kind, crc(u), body);
      if !ok {
        err := Some(SinkFailed);
        return;
      }
      sent := sent + u;
      ChunkParts(lead, kind, crc(u), body);
      SentChunk(crc, before, lead, kind, body, u);
    }

    /** Sends a chunk behind `lead`; the body of a stored chunk goes out in a write of its own. */
    method Send(lead: seq<byte>, kind: byte, sum: uint32, body: seq<byte>) returns (ok: bool)
      modifies sink`data
      ensures ok == !sink.broken
      ensures ok ==> sink.data == old(sink.data) + (lead + DataChunk(kind, sum, body))
    {
      hide DataChunk, ChunkHead;
      ChunkParts(lead, kind, sum, body);
      var first := lead + ChunkHead(kind, 4 + |body|, sum);
      if kind == UNCOMPRESSED {
        ok := sink.Write(first);
        if ok { ok := sink.Write(body); }
        assert ok ==> sink.data == old(sink.data) + (first + body);
      } else {
        ok := sink.Write(first + body);
      }
    }

    /** The body of a chunk for `u`: compressed, unless that saves less than an eighth. */
    method Compress(u: seq<byte>) returns (kind: byte, body: seq<byte>)
      requires obuf.Length == MAX_ENCODED_LEN_OF_MAX_BLOCK_SIZE && |u| <= MAX_BLOCK_SIZE
      modifies obuf
      ensures (kind == COMPRESSED && Encodes(body, u, W64)) || (kind == UNCOMPRESSED && body == u)
      ensures |body| <= MAX_ENCODED_LEN_OF_MAX_BLOCK_SIZE
      ensures kind == COMPRESSED ==> |body| < |u| - |u| / 8
    {
      hide Encodes;
      var encoded, d := Encode(obuf, u, W64);
      var compressed := obuf[..d];
      if |compressed| >= |u| - |u| / 8 { return UNCOMPRESSED, u; }
      return COMPRESSED, compressed;
    }

    /** The unbuffered write: cuts `p` into chunks. */
    method WriteDirect(p: seq<byte>) returns (n: nat)
      requires Valid()
      modifies `wroteStreamHeader, `err, `sent, sink`data, obuf
      ensures Valid()
      ensures old(err).Some? ==> n == 0 && err == old(err) && sent == old(sent) && sink.data == old(sink.data)
      ensures old(err).None? && !sink.broken ==> n == |p| && err.None? && sent == old(sent) + p
      ensures old(err).None? && sink.broken && p != [] ==> n == 0 && err == Some(SinkFailed)
      ensures old(err).None? && p == [] ==> n == 0 && err.None? && sent == old(sent)
    {
      hide ReadStream;
      n := 0;
      if err.Some? { return; }
      while n < |p|
        invariant Valid() && err.None? && n <= |p|
        invariant sent == old(sent) + p[..n]
        invariant sink.broken ==> n == 0
      {
        var end := if |p| - n > MAX_BLOCK_SIZE then n + MAX_BLOCK_SIZE else |p|;
        WriteChunk(p[n..end]);
        if err.Some? { return; }
        Prefixes(p, n, end);
        Regroup(old(sent), p[..n], p[n..end]);
        n := end;
      }
    }

    method Flush()
      requires Valid()
      modifies `ibuf, `wroteStreamHeader, `err, `sent, sink`data, obuf
      ensures Valid()
      ensures old(err).Some? ==> err == old(err) && sink.data == old(sink.data) && sent == old(sent) && ibuf == old(ibuf)
      ensures old(err).None? ==> ibuf == []
      ensures old(err).None? && !sink.broken ==> err.None? && Accepted() == old(Accepted())
      ensures old(err).None? && old(ibuf) == [] ==> err.None? && sent == old(sent)
      ensures old(err).None? && sink.broken && old(ibuf) != [] ==> err == Some(SinkFailed)
    {
      if err.Some? || ibuf == [] { return; }
      var _ := WriteDirect(ibuf);
      ibuf := [];
    }

    /** Accepts all of `p` unless the sink fails: bytes go to the buffer as long as they fit, and a large
        write that meets an empty buffer is sent directly. */
    method Write(p: seq<byte>) returns (n: nat)
      requires Valid()
      modifies `ibuf, `wroteStreamHeader, `err, `sent, sink`data, obuf
      ensures Valid()
      ensures old(err).Some? ==> n == 0 && err == old(err) && sink.data == old(sink.data) && sent == old(sent)
      ensures old(err).None? && !sink.broken ==> n == |p| && err.None? && Accepted() == old(Accepted()) + p
    {
      hide ReadStream;
      if !buffered {
        n := WriteDirect(p);
        assert Accepted() == sent && old(Accepted()) == old(sent);
        return;
      }
      n := 0;
      while |p| - n > MAX_BLOCK_SIZE - |ibuf| && err.None?
        invariant Valid() && n <= |p|
        invariant old(err).Some? ==> n == 0 && err == old(err) && sink.data == old(sink.data) && sent == old(sent)
        invariant old(err).None? && !sink.broken ==> err.None? && Accepted() == old(Accepted()) + p[..n]
        decreases |p| - n, |ibuf|, err.None?
      {
        var k := WriteAcross(p[n..]);
        Prefixes(p, n, n + k);
        Regroup(old(Accepted()), p[..n], p[n..n + k]);
        n := n + k;
      }
      if err.Some? { return; }
      Regroup(sent, ibuf, p[n..]);
      Prefixes(p, n, |p|);
      Regroup(old(Accepted()), p[..n], p[n..]);
      ibuf := ibuf + p[n..];
      n := |p|;
    }

    /** More than the buffer has room for: it is filled up and flushed, or passed by if it is empty. */
    method WriteAcross(p: seq<byte>) returns (k: nat)
      requires Valid() && buffered && err.None? && |p| > MAX_BLOCK_SIZE - |ibuf|
      modifies `ibuf, `wroteStreamHeader, `err, `sent, sink`data, obuf
      ensures Valid() && k <= |p|
      ensures !sink.broken ==> err.None? && Accepted() == old(Accepted()) + p[..k]
      ensures k == 0 ==> |ibuf| < |old(ibuf)| || (|ibuf| == |old(ibuf)| && err.Some?)
    {
      hide ReadStream;
      if ibuf == [] {
        AddNothing(sent);
        k := WriteDirect(p);
        AddNothing(sent);
        assert p[..|p|] == p;
      } else {
        k := MAX_BLOCK_SIZE - |ibuf|;
        Regroup(sent, ibuf, p[..k]);
        ibuf := ibuf + p[..k];
        Flush();
      }
    }

    /** Flushes and shuts the writer; every later call fails. */
    method Close() returns (ret: Option<WriteError>)
      requires Valid()
      modifies `ibuf, `wroteStreamHeader, `err, `sent, sink`data, obuf
      ensures Valid() && err.Some?
      ensures old(err).Some? ==> ret == err == old(err) && sink.data == old(sink.data)
      ensures old(err).None? && !sink.broken ==> ret == None && err == Some(Closed) && sent == old(Accepted())
    {
      Flush();
      ret := err;
      if err.None? { err := Some(Closed); }
    }
  }

  /** The eight bytes in front of a chunk's body. */
  function ChunkHead(kind: byte, length: nat, sum: uint32): seq<byte> {
    [kind] + ToLittleEndian(length, 3) + ToLittleEndian(sum, 4)
  }

  lemma ChunkParts(lead: seq<byte>, kind: byte, sum: uint32, body: seq<byte>)
    ensures lead + ChunkHead(kind, 4 + |body|, sum) + body == lead + DataChunk(kind, sum, body)
    ensures DataChunk(kind, sum, body) != []
  {
    hide ToLittleEndian;
  }

  /** Sending the stream identifier if it is missing, then a chunk for `u`, adds `u` to the stream. */
  lemma SentChunk(crc: Checksum, data: seq<byte>, lead: seq<byte>, kind: byte, body: seq<byte>, u: seq<byte>)
    requires ReadStream(crc, data, false).error == EndOfStream
    requires lead == if data == [] then MAGIC_CHUNK else []
    requires (kind == COMPRESSED && Encodes(body, u, W64)) || (kind == UNCOMPRESSED && body == u)
    requires |u| <= MAX_BLOCK_SIZE && |body| <= MAX_ENCODED_LEN_OF_MAX_BLOCK_SIZE
    ensures ReadStream(crc, data + (lead + DataChunk(kind, crc(u), body)), false)
         == Outcome(ReadStream(crc, data, false).text + u, EndOfStream)
  {
    hide ReadStream, DataChunk, Encodes;
    var chunk := DataChunk(kind, crc(u), body);
    DataChunkMeaning(crc, kind, body, u);
    if data == [] {
      MagicChunkMeaning(crc);
      ReadStreamConcat(crc, MAGIC_CHUNK, chunk, false);
      assert data + (lead + chunk) == MAGIC_CHUNK + chunk;
      EmptyStream(crc);
    } else {
      ReadStreamConcat(crc, data, chunk, false);
      assert data + (lead + chunk) == data + chunk;
    }
  }

  lemma EmptyStream(crc: Checksum)
    ensures ReadStream(crc, [], false) == Outcome([], EndOfStream)
  {
  }
}
