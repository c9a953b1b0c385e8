/** The sending half of a connection: messages cut into frames in one buffer, header and mask in place. */
module WebSocketSender {
  import opened Bytes
  import opened Sequences
  import opened WebSocketMask
  import opened WebSocketFrame
  import opened WebSocketMessage
  import opened WebSocketFragments

  datatype WriteError = WriteClosed | CloseSent | BadOpcode | InvalidControlFrame | ExtraInClientMode

  const MAX_HEADER := 14

  /** The wire holds the completed messages and, after them, the frames of the message under way. */
  predicate Recorded(isServer: bool, kind: nat, completed: seq<seq<Frame>>, log: seq<Frame>, sent: seq<byte>) {
    && EachWhole(isServer, completed) && EachFormed(completed)
    && Partial(isServer, kind, false, log) && AllFormed(log)
    && sent == Wires(completed) + Wire(log)
  }

  /** The frames of a message are those of its kind, its payload and the controls in between. */
  predicate Carries(m: seq<Frame>, kind: nat, payload: seq<byte>, controls: seq<(nat, seq<byte>)>) {
    Kind(m) == kind && Payload(m) == payload && Controls(m) == controls
  }

  lemma ByFormed(isServer: bool, opcode: nat, f: Frame)
    requires ControlBy(isServer, f) || DataBy(isServer, opcode, f)
    ensures Formed(f)
  {
  }

  lemma RecordFrame(isServer: bool, kind: nat, completed: seq<seq<Frame>>, log: seq<Frame>, sent: seq<byte>, f: Frame)
    requires Recorded(isServer, kind, completed, log, sent)
    requires if IsControl(f.header.opcode) then ControlBy(isServer, f)
             else DataBy(isServer, NextOpcode(kind, HasData(log)), f) && !f.header.final
    ensures Formed(f) && Recorded(isServer, kind, completed, log + [f], sent + FrameBytes(f))
    ensures HasData(log + [f]) == (HasData(log) || !IsControl(f.header.opcode))
    ensures Payload(log + [f]) == Payload(log) + (if IsControl(f.header.opcode) then [] else f.payload)
    ensures Controls(log + [f]) == Controls(log) + (if IsControl(f.header.opcode) then [(f.header.opcode, f.payload)] else [])
  {
    hide Partial, FrameBytes, Wire, Wires, HasData, Payload, Controls, ControlBy, DataBy, AllFormed, Formed, EachWhole, EachFormed;
    ByFormed(isServer, NextOpcode(kind, HasData(log)), f);
    PartialAppend(isServer, kind, false, log, f);
    WireAppend(log, f);
    PayloadAppend(log, f);
    ControlsAppend(log, f);
    assert Wires(completed) + Wire(log) + FrameBytes(f) == Wires(completed) + (Wire(log) + FrameBytes(f));
  }

  lemma RecordFinal(isServer: bool, kind: nat, completed: seq<seq<Frame>>, log: seq<Frame>, sent: seq<byte>, f: Frame)
    requires Recorded(isServer, kind, completed, log, sent) && IsData(kind) && NoClose(log)
    requires DataBy(isServer, NextOpcode(kind, HasData(log)), f) && f.header.final
    ensures Formed(f) && Recorded(isServer, kind, completed + [log + [f]], [], sent + FrameBytes(f))
    ensures Carries(log + [f], kind, Payload(log) + f.payload, Controls(log)) && !HasData([])
  {
    hide Partial, FrameBytes, Wire, Wires, Payload, Kind, Controls, Whole, HasData, AllFormed, EachWhole, EachFormed;
    var all := log + [f];
    Finished(isServer, kind, log, f);
    WireAppend(log, f);
    PayloadAppend(log, f);
    ControlsAppend(log, f);
    assert Controls(log) + [] == Controls(log);
    WiresAppend(completed, all);
    EachWholeAppend(isServer, completed, all);
    NothingLogged(isServer, kind);
    assert Wires(completed) + Wire(log) + FrameBytes(f) == Wires(completed) + (Wire(log) + FrameBytes(f)) + [];
  }

  lemma Finished(isServer: bool, kind: nat, log: seq<Frame>, f: Frame)
    requires Partial(isServer, kind, false, log) && IsData(kind) && NoClose(log)
    requires DataBy(isServer, NextOpcode(kind, HasData(log)), f) && f.header.final
    ensures Formed(f) && Whole(isServer, log + [f]) && Kind(log + [f]) == kind
  {
    var all := log + [f];
    assert all[..|all| - 1] == log && all[|all| - 1] == f;
    hide Partial, Kind, HasData;
    PartialWhole(isServer, kind, false, log, f);
  }

  lemma NothingLogged(isServer: bool, kind: nat)
    ensures Partial(isServer, kind, false, []) && !HasData([]) && AllFormed([]) && Wire([]) == []
  {
  }

  /** A new kind may be chosen as long as no data frame is on the wire. */
  lemma {:induction false} NewKind(isServer: bool, kind: nat, kind': nat, begun: bool, log: seq<Frame>)
    requires Partial(isServer, kind, begun, log) && !HasData(log)
    ensures Partial(isServer, kind', begun, log)
    decreases |log|
  {
    if log != [] {
      HasDataFirst(log);
      NewKind(isServer, kind, kind', begun, log[1..]);
    }
  }

  function HeaderStart(final: bool, opcode: nat, masked: bool, length: nat): seq<byte>
    requires opcode < 16
  {
    [FirstByte(final, 0, opcode), SecondByte(masked, LengthCode(WidthFor(length), length))]
    + LengthBytes(WidthFor(length), length)
  }

  class Sender {
    const isServer: bool
    const writeBuf: array<byte>
    const keys: nat -> Key             // the masking keys, in the order they are drawn
    var keysUsed: nat
    var sent: seq<byte>                // what the connection has been given
    var writeErr: Option<WriteError>   // permanent
    var writer: bool                   // a message writer is in use
    var pos: nat                       // end of data in `writeBuf`
    var frameType: nat
    var err: Option<WriteError>        // of the message writer
    ghost var kind: nat
    ghost var completed: seq<seq<Frame>>
    ghost var log: seq<Frame>

    ghost predicate Valid()
      reads this
    {
      && MAX_HEADER < writeBuf.Length < LENGTH_LIMIT
      && Recorded(isServer, kind, completed, log, sent)
      && (err.None? ==>
            && MAX_HEADER <= pos <= writeBuf.Length
            && (IsData(kind) || (IsControl(kind) && !HasData(log)))
            && frameType == NextOpcode(kind, HasData(log)))
      && (writer ==> err.None?)
      && (HasData(log) && err.Some? ==> writeErr.Some?)
      && (writeErr.None? ==> NoClose(log))
    }

    /** Every message writer in progress is the one in use. */
    ghost predicate Ready()
      reads this
    {
      Valid() && (err.None? ==> writer)
    }

    /** The payload of the message under way, sent or still in the buffer. */
    ghost function Contents(): seq<byte>
      requires MAX_HEADER <= pos <= writeBuf.Length
      reads this, writeBuf
    {
      Payload(log) + writeBuf[MAX_HEADER..pos]
    }

    constructor (isServer: bool, bufferSize: nat, keys: nat -> Key)
      requires bufferSize < LENGTH_LIMIT - 5000
      ensures Ready() && fresh(writeBuf) && completed == [] && log == [] && writeErr.None? && !writer
      ensures this.isServer == isServer
      ensures writeBuf.Length == MAX_HEADER + if bufferSize == 0 then 4096 else bufferSize
    {
      this.isServer, this.keys, keysUsed, sent, writeErr, writer := isServer, keys, 0, [], None, false;
      writeBuf := new byte[MAX_HEADER + if bufferSize == 0 then 4096 else bufferSize];
      pos, frameType, err := 0, 0, Some(WriteClosed);
      kind, completed, log := 0, [], [];
    }

    method EndMessage(e: WriteError)
      modifies this`err, this`writer
      ensures err == if old(err).None? then Some(e) else old(err)
      ensures writer == (old(err).Some? && old(writer))
    {
      if err.Some? {
        return;
      }
      err := Some(e);
      writer := false;
    }

    /** The header goes right before the payload, or right before the key that precedes the payload. */
    method PlaceHeader(final: bool, length: nat) returns (framePos: nat)
      requires MAX_HEADER < writeBuf.Length && frameType < 16 && length < LENGTH_LIMIT
      modifies writeBuf
      ensures framePos <= (if isServer then MAX_HEADER else 10)
      ensures writeBuf[framePos..if isServer then MAX_HEADER else 10] == HeaderStart(final, frameType, !isServer, length)
      ensures writeBuf[MAX_HEADER..] == old(writeBuf[MAX_HEADER..])
    {
      hide ToBigEndian, FirstByte, SecondByte;
      framePos := if isServer then 4 else 0;
      if length < 65536 {
        framePos := framePos + if length > 125 then 6 else 8;
      }
      var start := HeaderStart(final, frameType, !isServer, length);
      CopyInto(writeBuf, framePos, start);
      ghost var end := framePos + |start|;
      assert writeBuf[..end][framePos..] == start;
      assert writeBuf[..end][framePos..] == writeBuf[framePos..end];
    }

    /** The key that the next frame will be masked with. */
    function NextKey(): Option<Key>
      reads this
    {
      if isServer then None else Some(keys(keysUsed))
    }

    /** Header, key and payload end up next to each other, the payload masked where it is. */
    method BuildFrame(final: bool, length: nat) returns (framePos: nat)
      requires MAX_HEADER <= pos <= writeBuf.Length && MAX_HEADER < writeBuf.Length
      requires frameType < 16 && length < LENGTH_LIMIT
      modifies writeBuf, this`keysUsed
      ensures var h := HeaderFor(final, frameType, length, old(NextKey()));
        && WellFormed(h) && framePos <= pos
        && writeBuf[framePos..pos] == HeaderBytes(h) + Unmask(h.key, 0, old(writeBuf[MAX_HEADER..pos]))
      ensures !isServer ==> KeyedBy(writeBuf[..], old(writeBuf[..]), old(NextKey()).value, pos)
    {
      hide HeaderStart, Mask, MaskedRange;
      ghost var data := writeBuf[MAX_HEADER..pos];
      ghost var start := HeaderStart(final, frameType, !isServer, length);
      HeaderParts(final, frameType, length, NextKey());
      SliceOfTail(writeBuf, MAX_HEADER, pos);
      framePos := PlaceHeader(final, length);
      SliceOfTail(writeBuf, MAX_HEADER, pos);
      assert writeBuf[MAX_HEADER..pos] == data;
      if isServer {
        ArraySlices(writeBuf, framePos, MAX_HEADER, pos);
        AddNothing(start);
        return;
      }
      var key := keys(keysUsed);
      keysUsed := keysUsed + 1;
      Seal(key, framePos);
    }

    /** Puts the key before the payload and masks the payload. */
    method Seal(key: Key, framePos: nat)
      requires MAX_HEADER <= pos <= writeBuf.Length && framePos <= 10
      modifies writeBuf
      ensures writeBuf[framePos..pos] == old(writeBuf[framePos..10]) + key + Mask(key, 0, old(writeBuf[MAX_HEADER..pos]))
      ensures KeyedBy(writeBuf[..], old(writeBuf[..]), key, pos)
    {
      hide Mask, MaskedRange;
      ghost var was := writeBuf[..];
      CopyInto(writeBuf, 10, key);
      ghost var keyed := writeBuf[..];
      SliceOfTail(writeBuf, MAX_HEADER, pos);
      assert keyed[..MAX_HEADER] == was[..10] + key && keyed[MAX_HEADER..pos] == was[MAX_HEADER..pos];
      var _ := MaskBytes(key, 0, writeBuf, MAX_HEADER, pos, 0, 8);
      MaskedRangeIs(writeBuf[..], keyed, key, 0, MAX_HEADER, pos);
      Sealed(writeBuf[..], was[..10], key, Mask(key, 0, was[MAX_HEADER..pos]), keyed[pos..], framePos, pos);
    }

    method Transmit(op: nat, buf0: seq<byte>, buf1: seq<byte>) returns (e: Option<WriteError>)
      modifies this`sent, this`writeErr
      ensures e == old(writeErr)
      ensures old(writeErr).Some? ==> sent == old(sent) && writeErr == old(writeErr)
      ensures old(writeErr).None? ==> sent == old(sent) + (buf0 + buf1)
                                      && writeErr == if op == CLOSE then Some(CloseSent) else None
    {
      if writeErr.Some? {
        return writeErr;
      }
      sent := sent + (buf0 + buf1);
      if op == CLOSE {
        writeErr := Some(CloseSent);
      }
      return None;
    }

    ghost method Record(f: Frame, before: seq<byte>)
      requires Recorded(isServer, kind, completed, log, before) && Formed(f) && sent == before + FrameBytes(f)
      requires if IsControl(f.header.opcode) then ControlBy(isServer, f)
               else DataBy(isServer, NextOpcode(kind, HasData(log)), f) && IsData(kind) && NoClose(log)
      modifies this`log, this`completed
      ensures Recorded(isServer, kind, completed, log, sent)
      ensures f.header.final && !IsControl(f.header.opcode) ==>
        var m := old(log) + [f];
        && completed == old(completed) + [m] && log == [] && !HasData(log) && NoClose(log)
        && Carries(m, kind, Payload(old(log)) + f.payload, Controls(old(log)))
      ensures !f.header.final || IsControl(f.header.opcode) ==>
        && completed == old(completed) && log == old(log) + [f]
        && HasData(log) == (old(HasData(log)) || !IsControl(f.header.opcode))
        && Payload(log) == Payload(old(log)) + (if IsControl(f.header.opcode) then [] else f.payload)
        && Controls(log) == Controls(old(log)) + (if IsControl(f.header.opcode) then [(f.header.opcode, f.payload)] else [])
        && (NoClose(log) <==> old(NoClose(log)) && f.header.opcode != CLOSE)
    {
      hide Recorded, HasData, Payload, Kind, Controls, FrameBytes;
      if f.header.final && !IsControl(f.header.opcode) {
        RecordFinal(isServer, kind, completed, log, before, f);
        completed := completed + [log + [f]];
        log := [];
      } else {
        RecordFrame(isServer, kind, completed, log, before, f);
        log := log + [f];
        NoCloseAppend(old(log), f);
      }
    }

    /** Whether a frame with these contents can go out now. */
    ghost predicate CanFlush(final: bool, extra: seq<byte>)
      reads this
    {
      && writeErr.None? && (isServer || extra == [])
      && (IsControl(kind) ==> final && pos - MAX_HEADER + |extra| <= MAX_CONTROL_PAYLOAD)
    }

    /** Builds the frame, hands it to the connection, and accounts for it. */
    method SendFrame(final: bool, extra: seq<byte>) returns (e: Option<WriteError>)
      requires Valid() && err.None? && writeBuf.Length + |extra| < LENGTH_LIMIT
      requires IsControl(kind) ==> final && pos - MAX_HEADER + |extra| <= MAX_CONTROL_PAYLOAD
      modifies this`keysUsed, this`sent, this`writeErr, this`log, this`completed, writeBuf
      ensures e.None? <==> old(CanFlush(final, extra))
      ensures e.Some? ==> writeErr.Some? && sent == old(sent) && completed == old(completed) && log == old(log)
      ensures Recorded(isServer, kind, completed, log, sent)
      ensures e.None? ==> writeErr == (if kind == CLOSE then Some(CloseSent) else None)
      ensures e.None? && !final ==>
        && completed == old(completed) && HasData(log) && NoClose(log)
        && Payload(log) == old(Payload(log)) + (old(writeBuf[MAX_HEADER..pos]) + extra)
        && Controls(log) == old(Controls(log))
      ensures e.None? && final && IsData(kind) ==>
        && log == [] && !HasData(log) && NoClose(log) && |completed| == |old(completed)| + 1
        && var m := completed[|old(completed)|];
        && completed == old(completed) + [m]
        && Carries(m, kind, old(Payload(log)) + (old(writeBuf[MAX_HEADER..pos]) + extra), old(Controls(log)))
      ensures e.None? && final && IsControl(kind) ==>
        && completed == old(completed) && !HasData(log) && (kind != CLOSE ==> NoClose(log)) && |log| == |old(log)| + 1
        && var f := log[|old(log)|];
        && log == old(log) + [f] && f.header.opcode == kind && f.payload == old(writeBuf[MAX_HEADER..pos]) + extra
      ensures old(writeErr).Some? ==> writeErr == old(writeErr)
    {
      hide Recorded, HasData, NoClose, Controls, Payload, Kind, HeaderBytes, Unmask, FrameBytes, ControlBy, DataBy, Formed;
      var length := pos - MAX_HEADER + |extra|;
      ghost var f := Frame(HeaderFor(final, frameType, length, NextKey()), writeBuf[MAX_HEADER..pos] + extra);
      var framePos := BuildFrame(final, length);
      if !isServer && |extra| > 0 {
        writeErr := if writeErr.None? then Some(ExtraInClientMode) else writeErr;
        return Some(ExtraInClientMode);
      }
      FrameBy(isServer, f, frameType);
      FrameSplit(f, old(writeBuf[MAX_HEADER..pos]), extra);
      e := Transmit(frameType, writeBuf[framePos..pos], extra);
      if e.None? {
        Record(f, old(sent));
        assert Controls(old(log)) + [] == Controls(old(log));
      }
    }

    /** One frame with the buffered data and `extra`: it continues or completes the message under way. */
    method FlushFrame(final: bool, extra: seq<byte>) returns (e: Option<WriteError>)
      requires Valid() && err.None? && writeBuf.Length + |extra| < LENGTH_LIMIT
      modifies this, writeBuf
      ensures Valid() && kind == old(kind)
      ensures e.None? <==> old(CanFlush(final, extra))
      ensures e.Some? ==> err == e && !writer && sent == old(sent) && completed == old(completed) && log == old(log)
      ensures e.None? ==> writeErr == (if kind == CLOSE then Some(CloseSent) else None)
      ensures e.None? && !final ==>
        && err.None? && writer == old(writer) && completed == old(completed)
        && pos == MAX_HEADER && Contents() == old(Contents()) + extra && Controls(log) == old(Controls(log))
      ensures e.None? && final ==> err == Some(WriteClosed) && !writer
      ensures e.None? && final && IsData(kind) ==>
        && log == [] && |completed| == |old(completed)| + 1
        && var m := completed[|old(completed)|];
        && completed == old(completed) + [m] && Carries(m, kind, old(Contents()) + extra, old(Controls(log)))
      ensures e.None? && final && IsControl(kind) ==>
        && completed == old(completed) && |log| == |old(log)| + 1
        && var f := log[|old(log)|];
        && log == old(log) + [f] && f.header.opcode == kind && f.payload == old(writeBuf[MAX_HEADER..pos]) + extra
      ensures old(writeErr).Some? ==> writeErr == old(writeErr)
    {
      hide Recorded, HasData, NoClose, Controls, Payload, Kind;
      var length := pos - MAX_HEADER + |extra|;
      if IsControl(frameType) && (!final || length > MAX_CONTROL_PAYLOAD) {
        EndMessage(InvalidControlFrame);
        return Some(InvalidControlFrame);
      }
      ghost var earlier, data := Payload(log), writeBuf[MAX_HEADER..pos];
      e := SendFrame(final, extra);
      assert earlier + (data + extra) == earlier + data + extra;
      if e.Some? {
        EndMessage(e.value);
        return;
      }
      if final {
        EndMessage(WriteClosed);
        return None;
      }
      pos := MAX_HEADER;
      frameType := CONTINUATION;
      return None;
    }

    /** Room in the buffer for up to `max` bytes, after a flush if it is full. */
    method Ncopy(max: nat) returns (n: nat, e: Option<WriteError>)
      requires Valid() && err.None?
      modifies this, writeBuf
      ensures Valid() && kind == old(kind) && completed == old(completed)
      ensures e.Some? ==> err == e && !writer && sent == old(sent) && log == old(log)
      ensures e.None? <==> old(pos < writeBuf.Length || CanFlush(false, []))
      ensures e.None? ==>
        && err.None? && writer == old(writer) && Contents() == old(Contents()) && writeErr == old(writeErr)
        && n <= max && pos + n <= writeBuf.Length && (max > 0 ==> n > 0) && (pos == old(pos) || IsData(kind))
        && n == (if writeBuf.Length - pos > max then max else writeBuf.Length - pos)
        && (old(pos) < writeBuf.Length ==> pos == old(pos) && sent == old(sent) && log == old(log))
        && Controls(log) == old(Controls(log))
      ensures old(writeErr).Some? ==> writeErr == old(writeErr)
    {
      hide Recorded, HasData, NoClose, Controls, Payload;
      n := writeBuf.Length - pos;
      if n == 0 {
        e := FlushFrame(false, []);
        if e.Some? {
          return 0, e;
        }
        n := writeBuf.Length - pos;
      }
      n := if n > max then max else n;
      e := None;
    }

    /** Appends to the message under way: buffered, flushed as the buffer fills, or, for a server's large
        write, sent directly. It fails exactly when a frame is needed and none can go out. */
    method Write(p: seq<byte>) returns (n: nat, e: Option<WriteError>)
      requires Valid() && writeBuf.Length + |p| < LENGTH_LIMIT
      modifies this, writeBuf
      ensures Valid() && kind == old(kind) && completed == old(completed)
      ensures old(err).Some? ==> e == err == old(err) && sent == old(sent) && log == old(log) && writeErr == old(writeErr)
      ensures old(err).None? ==>
        && (e.None? <==> old(pos) + |p| <= writeBuf.Length || (old(writeErr).None? && IsData(kind)))
        && (e.Some? ==> err == e && !writer && n == 0 && sent == old(sent) && log == old(log))
        && (e.None? ==> err.None? && writer == old(writer) && writeErr == old(writeErr)
                        && n == |p| && Contents() == old(Contents()) + p && Controls(log) == old(Controls(log)))
        && (e.None? && IsControl(kind) ==> log == old(log) && pos == old(pos) + |p|)
      ensures old(writeErr).Some? ==> writeErr == old(writeErr)
    {
      hide Recorded, HasData, NoClose, Controls, Payload;
      if err.Some? {
        return 0, err;
      }
      if |p| > 2 * writeBuf.Length && isServer {
        e := FlushFrame(false, p);
        n := if e.Some? then 0 else |p|;
        return;
      }
      e := WriteBuffered(p);
      n := if e.Some? then 0 else |p|;
    }

    method WriteBuffered(p: seq<byte>) returns (e: Option<WriteError>)
      requires Valid() && err.None?
      modifies this, writeBuf
      ensures Valid() && kind == old(kind) && completed == old(completed)
      ensures e.None? <==> old(pos) + |p| <= writeBuf.Length || (old(writeErr).None? && IsData(kind))
      ensures e.Some? ==> err == e && !writer && sent == old(sent) && log == old(log)
      ensures e.None? ==>
        && err.None? && writer == old(writer) && writeErr == old(writeErr) && Contents() == old(Contents()) + p
        && Controls(log) == old(Controls(log))
        && (IsControl(kind) ==> log == old(log) && pos == old(pos) + |p|)
      ensures old(writeErr).Some? ==> writeErr == old(writeErr)
    {
      hide Recorded, HasData, NoClose, Controls, Payload;
      var rest: seq<byte> := p;
      ghost var start, done: seq<byte> := Contents(), [];
      assert start + [] == start && [] + p == p;
      while |rest| > 0
        invariant Valid() && err.None? && kind == old(kind) && completed == old(completed)
        invariant writer == old(writer) && writeErr == old(writeErr)
        invariant done + rest == p && Contents() == start + done && Controls(log) == old(Controls(log))
        invariant (pos == old(pos) + |done| && sent == old(sent) && log == old(log)) || (writeErr.None? && IsData(kind))
        decreases |rest|
      {
        var k;
        k, e := Ncopy(|rest|);
        if e.Some? {
          return;
        }
        PutData(rest[..k]);
        Moved(start, done, rest, k);
        done := done + rest[..k];
        rest := rest[k..];
      }
      assert done == p;
      return None;
    }

    method PutData(data: seq<byte>)
      requires Valid() && err.None? && pos + |data| <= writeBuf.Length
      modifies writeBuf, this`pos
      ensures Valid() && pos == old(pos) + |data| && Contents() == old(Contents()) + data
    {
      hide Recorded, HasData, NoClose, Controls, Payload;
      CopyInto(writeBuf, pos, data);
      ghost var was := old(writeBuf[..pos]);
      pos := pos + |data|;
      assert writeBuf[..pos] == was + data;
      assert writeBuf[MAX_HEADER..pos] == writeBuf[..pos][MAX_HEADER..];
      assert was[MAX_HEADER..] == old(writeBuf[MAX_HEADER..pos]);
      assert Payload(log) + (was[MAX_HEADER..] + data) == Payload(log) + was[MAX_HEADER..] + data;
    }

    /** Sends the final frame. */
    method Close() returns (e: Option<WriteError>)
      requires Valid()
      modifies this, writeBuf
      ensures Valid() && kind == old(kind) && err.Some? && (old(err).None? ==> !writer)
      ensures old(err).Some? ==>
        e == err == old(err) && sent == old(sent) && completed == old(completed) && log == old(log) && writeErr == old(writeErr)
      ensures old(err).None? ==> (e.None? <==> old(CanFlush(true, [])))
      ensures old(err).None? && e.Some? ==> sent == old(sent) && completed == old(completed) && log == old(log)
      ensures e.None? ==> writeErr == (if kind == CLOSE then Some(CloseSent) else None)
      ensures e.None? && IsData(kind) ==>
        && log == [] && |completed| == |old(completed)| + 1
        && var m := completed[|old(completed)|];
        && completed == old(completed) + [m] && Carries(m, kind, old(Contents()), old(Controls(log)))
      ensures e.None? && IsControl(kind) ==>
        && completed == old(completed) && |log| == |old(log)| + 1
        && var f := log[|old(log)|];
        && log == old(log) + [f] && f.header.opcode == kind && f.payload == old(writeBuf[MAX_HEADER..pos])
      ensures old(writeErr).Some? ==> writeErr == old(writeErr)
    {
      hide Recorded, HasData, NoClose, Controls, Payload, Kind;
      if err.Some? {
        return err;
      }
      e := FlushFrame(true, []);
    }

    /** A message left open is closed first; then a new one is begun. */
    method BeginMessage(t: nat) returns (e: Option<WriteError>)
      requires Ready()
      modifies this, writeBuf
      ensures Valid() && !writer
      ensures e.None? <==> err.None?
      ensures e.None? ==> writeErr.None? && (IsData(t) || IsControl(t)) && kind == t && pos == MAX_HEADER && Contents() == Payload(log)
      ensures !old(writer) ==>
        && completed == old(completed) && log == old(log) && sent == old(sent) && writeErr == old(writeErr)
        && (e.None? <==> old(writeErr).None? && (IsData(t) || IsControl(t)))
      ensures old(writer) && IsData(old(kind)) && old(writeErr).None? ==>
        && log == [] && |completed| == |old(completed)| + 1
        && var m := completed[|old(completed)|];
        && completed == old(completed) + [m] && Carries(m, old(kind), old(Contents()), old(Controls(log)))
        && writeErr.None? && (e.None? <==> IsData(t) || IsControl(t))
      ensures |completed| >= |old(completed)| && completed[..|old(completed)|] == old(completed)
      ensures !HasData(log) || e.Some?
      ensures old(writeErr).Some? ==> writeErr == old(writeErr)
    {
      hide Recorded, HasData, NoClose, Controls, Payload, Kind;
      if writer {
        var _ := Close();
      }
      if !IsControl(t) && !IsData(t) {
        return Some(BadOpcode);
      }
      if writeErr.Some? {
        return writeErr;
      }
      Rekind(isServer, kind, t, completed, log, sent);
      kind, frameType, pos, err := t, t, MAX_HEADER, None;
      assert Payload(log) + [] == Payload(log) && writeBuf[MAX_HEADER..pos] == [];
      return None;
    }

    method NextWriter(t: nat) returns (e: Option<WriteError>)
      requires Ready()
      modifies this, writeBuf
      ensures Ready() && (e.None? <==> writer)
      ensures e.None? ==> writeErr.None? && (IsData(t) || IsControl(t)) && kind == t && pos == MAX_HEADER && Contents() == Payload(log)
      ensures e.None? ==> !HasData(log)
      ensures !old(writer) ==>
        && completed == old(completed) && log == old(log) && sent == old(sent) && writeErr == old(writeErr)
        && (e.None? <==> old(writeErr).None? && (IsData(t) || IsControl(t)))
      ensures old(writer) && IsData(old(kind)) && old(writeErr).None? ==>
        && log == [] && |completed| == |old(completed)| + 1
        && var m := completed[|old(completed)|];
        && completed == old(completed) + [m] && Carries(m, old(kind), old(Contents()), old(Controls(log)))
        && writeErr.None? && (e.None? <==> IsData(t) || IsControl(t))
      ensures |completed| >= |old(completed)| && completed[..|old(completed)|] == old(completed)
      ensures old(writeErr).Some? ==> writeErr == old(writeErr)
    {
      hide Recorded, HasData, NoClose, Controls, Payload, Kind;
      e := BeginMessage(t);
      if e.None? {
        writer := true;
      }
    }

    /** A ping, a pong or a close may go out at any time, in the middle of a message too. */
    method WriteControl(t: nat, data: seq<byte>) returns (e: Option<WriteError>)
      requires Valid()
      modifies this`keysUsed, this`sent, this`writeErr, this`log, this`completed
      ensures Valid() && (old(Ready()) ==> Ready()) && completed == old(completed)
      ensures e.None? <==> IsControl(t) && |data| <= 125 && old(writeErr).None?
      ensures e.Some? ==> sent == old(sent) && log == old(log) && writeErr == old(writeErr)
      ensures e.None? ==>
        && writeErr == (if t == CLOSE then Some(CloseSent) else None) && |log| == |old(log)| + 1
        && var f := log[|old(log)|];
        && log == old(log) + [f] && f.header.opcode == t && f.payload == data
      ensures Payload(log) == Payload(old(log))
      ensures e.None? ==> Controls(log) == Controls(old(log)) + [(t, data)]
    {
      hide Recorded, HasData, NoClose, Controls, Payload, Kind, HeaderStart, HeaderBytes, Unmask, FrameBytes, ControlBy, DataBy, Formed;
      if !IsControl(t) {
        return Some(BadOpcode);
      }
      if |data| > MAX_CONTROL_PAYLOAD {
        return Some(InvalidControlFrame);
      }
      var key := NextKey();
      ghost var f := Frame(HeaderFor(true, t, |data|, key), data);
      FrameBy(isServer, f, t);
      var body: seq<byte> := data;
      if !isServer {
        keysUsed := keysUsed + 1;
        body := MaskCopy(key.value, data);
      } else {
        NoMask(data);
      }
      var buf := [FirstByte(true, 0, t), SecondByte(!isServer, |data|)] + KeyBytes(key) + body;
      ControlBytes(f, body);
      e := Transmit(t, buf, []);
      assert buf + [] == buf;
      if e.None? {
        Record(f, old(sent));
        assert Payload(old(log)) + [] == Payload(old(log));
      }
    }

    method MaskCopy(key: Key, data: seq<byte>) returns (masked: seq<byte>)
      ensures masked == Unmask(Some(key), 0, data)
    {
      hide Mask, MaskedRange;
      var a := new byte[|data|];
      CopyInto(a, 0, data);
      assert a[..] == data;
      var _ := MaskBytes(key, 0, a, 0, a.Length, 0, 8);
      MaskedRangeIs(a[..], data, key, 0, 0, a.Length);
      assert data[0..a.Length] == data;
      masked := a[..];
    }

    /** One message in one call; a server sends it as a single frame. */
    method WriteMessage(t: nat, data: seq<byte>) returns (e: Option<WriteError>)
      requires Ready() && writeBuf.Length + |data| < LENGTH_LIMIT
      modifies this, writeBuf
      ensures Ready() && !writer
      ensures |completed| >= |old(completed)| && completed[..|old(completed)|] == old(completed)
      ensures !old(writer) || IsData(old(kind)) ==> (e.None? <==> old(writeErr).None? && Sendable(t, data))
      ensures e.None? ==> writeErr == (if t == CLOSE then Some(CloseSent) else None)
      ensures e.None? && !old(writer) ==> Out(data, t, old(completed), old(log))
      ensures e.None? && old(writer) && IsData(old(kind)) ==>
        && |completed| > |old(completed)|
        && var m := completed[|old(completed)|];
        && Carries(m, old(kind), old(Contents()), old(Controls(log))) && Out(data, t, old(completed) + [m], [])
      ensures e.None? ==> exists before, earlier :: Out(data, t, before, earlier) && old(completed) <= before
      ensures old(writeErr).Some? ==> writeErr == old(writeErr)
    {
      hide Recorded, HasData, NoClose, Controls, Kind, Payload;
      if isServer {
        e := BeginMessage(t);
        if e.None? {
          e := SendWhole(data);
        }
        return;
      }
      e := NextWriter(t);
      if e.None? {
        e := WriteAndClose(data);
      }
    }

    /** What one call can send. A client's ping must fit its buffer, whatever the limit for control frames. */
    predicate Sendable(t: nat, data: seq<byte>) {
      IsData(t) ||
      (IsControl(t) && |data| <= 125 && (isServer || MAX_HEADER + |data| <= writeBuf.Length))
    }

    /** What has happened once the message begun by the caller is out. */
    ghost predicate Out(data: seq<byte>, kind0: nat, completed0: seq<seq<Frame>>, log0: seq<Frame>)
      reads this
    {
      && (IsData(kind0) ==>
            && log == [] && |completed| == |completed0| + 1
            && var m := completed[|completed0|];
            && completed == completed0 + [m] && Carries(m, kind0, data, Controls(log0)))
      && (IsControl(kind0) ==>
            && completed == completed0 && |log| == |log0| + 1
            && var f := log[|log0|];
            && log == log0 + [f] && f.header.opcode == kind0 && f.payload == data)
    }

    method SendWhole(data: seq<byte>) returns (e: Option<WriteError>)
      requires Valid() && err.None? && isServer && writeBuf.Length + |data| < LENGTH_LIMIT
      requires pos == MAX_HEADER && !HasData(log) && writeErr.None?
      modifies this, writeBuf
      ensures Valid() && err.Some? && !writer
      ensures e.None? <==> old(Sendable(kind, data))
      ensures e.None? ==> Out(data, old(kind), old(completed), old(log))
      ensures e.None? ==> writeErr == (if old(kind) == CLOSE then Some(CloseSent) else None)
      ensures e.Some? ==> completed == old(completed) && log == old(log)
    {
      hide Recorded, HasData, NoClose, Controls, Kind, Payload;
      NoPayload(log);
      var n := if |data| < writeBuf.Length - pos then |data| else writeBuf.Length - pos;
      PutData(data[..n]);
      assert writeBuf[MAX_HEADER..pos] == data[..n] by {
        assert Contents() == writeBuf[MAX_HEADER..pos];
      }
      assert data[..n] + data[n..] == data;
      e := FlushFrame(true, data[n..]);
    }

    method WriteAndClose(data: seq<byte>) returns (e: Option<WriteError>)
      requires Valid() && err.None? && !isServer && writeBuf.Length + |data| < LENGTH_LIMIT
      requires pos == MAX_HEADER && !HasData(log) && writeErr.None?
      modifies this, writeBuf
      ensures Valid() && err.Some? && !writer
      ensures e.None? <==> old(Sendable(kind, data))
      ensures e.None? ==> Out(data, old(kind), old(completed), old(log))
      ensures e.None? ==> writeErr == (if old(kind) == CLOSE then Some(CloseSent) else None)
      ensures e.Some? ==> completed == old(completed) && log == old(log)
    {
      hide Recorded, HasData, NoClose, Controls, Kind, Payload;
      NoPayload(log);
      var n;
      n, e := Write(data);
      if e.None? {
        assert Contents() == data;
        if IsControl(kind) {
          assert Contents() == writeBuf[MAX_HEADER..pos];
        }
        e := Close();
      }
    }
  }

  lemma Sealed(now: seq<byte>, start: seq<byte>, key: seq<byte>, body: seq<byte>, tail: seq<byte>, framePos: nat, pos: nat)
    requires |start| == 10 && |key| == 4 && framePos <= 10 && pos == MAX_HEADER + |body|
    requires now == start + key + body + tail
    ensures now[framePos..pos] == start[framePos..] + key + body
  {
  }

  /** The key is right before the payload, and byte `i` of the payload is combined with byte `i` modulo 4 of it. */
  ghost predicate KeyedBy(now: seq<byte>, was: seq<byte>, key: Key, end: nat) {
    && |now| == |was| && MAX_HEADER <= end <= |was| && now[MAX_HEADER - 4..MAX_HEADER] == key
    && forall i :: MAX_HEADER <= i < end ==> now[i] == XorByte(was[i], key[(i - MAX_HEADER) % 4])
  }

  lemma NoMask(data: seq<byte>)
    ensures Unmask(None, 0, data) == data
  {
  }

  lemma ControlBytes(f: Frame, body: seq<byte>)
    requires Formed(f) && f.header == HeaderFor(true, f.header.opcode, |f.payload|, f.header.key)
    requires |f.payload| <= MAX_CONTROL_PAYLOAD && body == Unmask(f.header.key, 0, f.payload)
    ensures FrameBytes(f) ==
            [FirstByte(true, 0, f.header.opcode), SecondByte(f.header.key.Some?, |f.payload|)] + KeyBytes(f.header.key) + body
  {
    hide FirstByte, SecondByte, Unmask;
    assert LengthBytes(0, |f.payload|) == [];
  }

  lemma Rekind(isServer: bool, kind: nat, t: nat, completed: seq<seq<Frame>>, log: seq<Frame>, sent: seq<byte>)
    requires Recorded(isServer, kind, completed, log, sent) && !HasData(log)
    ensures Recorded(isServer, t, completed, log, sent)
  {
    hide Wire, Wires, HasData;
    NewKind(isServer, kind, t, false, log);
  }

  lemma {:induction false} NoPayload(log: seq<Frame>)
    requires !HasData(log)
    ensures Payload(log) == []
  {
    if log != [] {
      HasDataFirst(log);
      NoPayload(log[1..]);
    }
  }


  lemma Moved(start: seq<byte>, done: seq<byte>, rest: seq<byte>, k: nat)
    requires k <= |rest|
    ensures start + (done + rest[..k]) == start + done + rest[..k] && done + rest[..k] + rest[k..] == done + rest
  {
  }

  lemma NoCloseAppend(log: seq<Frame>, f: Frame)
    ensures NoClose(log + [f]) <==> NoClose(log) && f.header.opcode != CLOSE
  {
    assert (log + [f])[|log|] == f;
    assert forall i :: 0 <= i < |log| ==> (log + [f])[i] == log[i];
  }

  lemma FrameBy(isServer: bool, f: Frame, opcode: nat)
    requires f.header == HeaderFor(f.header.final, opcode, |f.payload|, f.header.key)
    requires f.header.key.Some? != isServer && |f.payload| < LENGTH_LIMIT && opcode < 16
    ensures Formed(f)
    ensures IsControl(opcode) && f.header.final && |f.payload| <= MAX_CONTROL_PAYLOAD ==> ControlBy(isServer, f)
    ensures IsData(opcode) || opcode == CONTINUATION ==> DataBy(isServer, opcode, f)
  {
  }

  lemma FrameSplit(f: Frame, data: seq<byte>, extra: seq<byte>)
    requires Formed(f) && f.payload == data + extra && (f.header.key.Some? ==> extra == [])
    ensures FrameBytes(f) == HeaderBytes(f.header) + Unmask(f.header.key, 0, data) + extra
  {
    hide HeaderBytes, Mask;
    if f.header.key.Some? {
      assert data + extra == data;
    }
  }

  lemma HeaderParts(final: bool, opcode: nat, length: nat, key: Option<Key>)
    requires opcode < 16 && length < LENGTH_LIMIT
    ensures WellFormed(HeaderFor(final, opcode, length, key))
    ensures HeaderBytes(HeaderFor(final, opcode, length, key)) == HeaderStart(final, opcode, key.Some?, length) + KeyBytes(key)
  {
    hide FirstByte, SecondByte, LengthBytes;
  }
}
