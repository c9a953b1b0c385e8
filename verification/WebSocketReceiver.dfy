/** The receiving half of a connection: the frame state machine and the message reader on top of it. */
module WebSocketReceiver {
  import opened Bytes
  import opened WebSocketMask
  import opened WebSocketFrame
  import opened WebSocketMessage
  import opened Utf8

  datatype ReadError =
    | EndOfStream
    | UnexpectedEnd
    | Protocol
    | LimitExceeded
    | Closed(code: nat, text: seq<byte>)
    | Refused
    | UnexpectedOpening

  const CLOSE_NO_STATUS := 1005

  predicate ValidReceivedCloseCode(code: nat) {
    1000 <= code <= 1003 || 1007 <= code <= 1013 || 3000 <= code <= 4999
  }

  /** The codes of section 7.4.1 of RFC 6455 that may be sent, those registered since, and the free ranges. */
  lemma ReceivedCloseCodes(code: nat)
    ensures ValidReceivedCloseCode(code) <==>
      code in {1000, 1001, 1002, 1003, 1007, 1008, 1009, 1010, 1011, 1012, 1013} || 3000 <= code < 5000
  {
  }

  /** The conversion of an unsigned 64-bit value to a signed one. */
  function Signed64(n: nat): int {
    if n < LENGTH_LIMIT then n else n - 2 * LENGTH_LIMIT
  }

  /** Signed 64-bit addition, wrapping around. */
  function Add64(a: int, b: int): int {
    if a + b >= LENGTH_LIMIT then a + b - 2 * LENGTH_LIMIT else a + b
  }

  function NextOf(c: Settings, open: bool, length: nat, skip: nat, b: seq<byte>): Step {
    if |b| < skip then Fault else NextFrame(c, open, length, b[skip..])
  }

  /** How much one read of the connection gives: at least one byte if there is any and it is wanted. */
  function Amount(wanted: nat, available: nat, chunk: nat): (n: nat)
    ensures n <= wanted && n <= available && (wanted > 0 && available > 0 ==> n > 0)
  {
    var most := if available < wanted then available else wanted;
    if most > 0 && chunk < most then (if chunk == 0 then 1 else chunk) else most
  }

  class Receiver {
    const settings: Settings
    var input: seq<byte>                     // what the connection has yet to deliver
    var controls: seq<(nat, seq<byte>)>      // pings and pongs handed to the handlers
    var readErr: Option<ReadError>
    var readRemaining: int                   // bytes left in the current frame
    var readFinal: bool                      // no more frames in the current message
    var readLength: int                      // size of the message so far
    var readMaskPos: nat
    var readMaskKey: Key
    var messageReader: nat                   // number of the reader in use; 0 when there is none
    var readers: nat                         // readers handed out so far
    ghost var delivered: nat                 // bytes handed to the current reader

    /** While there is no error the message size counts at least what was and will be delivered of the
        current frames, and it is within the limit; what was delivered is within the limit always. */
    ghost predicate Valid()
      reads this
    {
      && 0 <= readRemaining < LENGTH_LIMIT
      && (readErr.None? ==> 0 <= readLength && WithinLimit(settings, readLength))
      && (readErr.None? && messageReader != 0 ==> delivered + readRemaining <= readLength)
      && WithinLimit(settings, delivered)
      && readErr != Some(UnexpectedOpening)
      && messageReader <= readers
    }

    function KeyInUse(): Option<Key>
      reads this
    {
      if settings.isServer then Some(readMaskKey) else None
    }

    /** What is left of the message being read. */
    ghost function Pending(): Tail
      requires readRemaining >= 0 && readLength >= 0
      reads this
    {
      Rest(settings, readLength, readRemaining, readFinal, KeyInUse(), readMaskPos, input)
    }

    constructor (settings: Settings, input: seq<byte>)
      ensures Valid() && readErr.None? && readFinal && readRemaining == 0 && messageReader == 0
      ensures this.settings == settings && this.input == input && controls == []
    {
      this.settings, this.input, controls := settings, input, [];
      readErr, readRemaining, readFinal, readLength := None, 0, true, 0;
      readMaskPos, readMaskKey, messageReader, readers, delivered := 0, [0, 0, 0, 0], 0, 0, 0;
    }

    /** Exactly `n` bytes, or whatever is left. */
    method Take(n: nat) returns (p: seq<byte>, ok: bool)
      modifies this`input
      ensures ok == (|old(input)| >= n)
      ensures ok ==> p == old(input)[..n] && input == old(input)[n..]
      ensures !ok ==> input == []
    {
      ok := |input| >= n;
      if ok {
        p := input[..n];
        input := input[n..];
      } else {
        p := input;
        input := [];
      }
    }

    method SetReadRemaining(n: int) returns (err: Option<ReadError>)
      modifies this`readRemaining
      ensures n < 0 ==> err == Some(LimitExceeded) && readRemaining == old(readRemaining)
      ensures n >= 0 ==> err.None? && readRemaining == n
    {
      if n < 0 {
        return Some(LimitExceeded);
      }
      readRemaining := n;
      return None;
    }

    /** The first two bytes: what kind of frame it is, and whether it may come now. */
    method TakeStart() returns (frameType: nat, mask: bool, err: Option<ReadError>)
      modifies this`input, this`readRemaining, this`readFinal
      ensures 0 <= readRemaining < 128 || readRemaining == old(readRemaining)
      ensures err.Some? ==> err == Some(if |old(input)| < 2 then UnexpectedEnd else Protocol)
      ensures |old(input)| < 2 ==> err.Some?
      ensures |old(input)| >= 2 ==>
        && var b := old(input);
        && frameType == LowBits(b[0]) && mask == (b[1] >= 128)
        && (err.None? <==> Startable(b[0], b[1], !old(readFinal)))
        && (err.None? ==> input == b[2..] && readRemaining == CodeOf(b[1])
                          && readFinal == if IsControl(frameType) then old(readFinal) else b[0] >= 128)
    {
      frameType, mask := 0, false;
      var p, ok := Take(2);
      if !ok {
        return 0, false, Some(UnexpectedEnd);
      }
      var final := p[0] >= 128;
      frameType := LowBits(p[0]);
      mask := p[1] >= 128;
      err := SetReadRemaining(CodeOf(p[1]));
      if ReservedBits(p[0]) != 0 {
        return frameType, mask, Some(Protocol);
      }
      if IsControl(frameType) {
        if readRemaining > MAX_CONTROL_PAYLOAD || !final {
          return frameType, mask, Some(Protocol);
        }
      } else if IsData(frameType) {
        if !readFinal {
          return frameType, mask, Some(Protocol);
        }
        readFinal := final;
      } else if frameType == CONTINUATION {
        if readFinal {
          return frameType, mask, Some(Protocol);
        }
        readFinal := final;
      } else {
        return frameType, mask, Some(Protocol);
      }
      return frameType, mask, None;
    }

    /** The extended length and the masking key. */
    method TakeLengthAndKey(mask: bool) returns (err: Option<ReadError>)
      requires 0 <= readRemaining < 128
      modifies this`input, this`readRemaining, this`readMaskPos, this`readMaskKey
      ensures 0 <= readRemaining < LENGTH_LIMIT
      ensures err.None? <==> Extendable(old(readRemaining), old(input), mask) && mask == settings.isServer
      ensures err.None? ==> ExtendedTo(old(readRemaining), old(input), mask, readRemaining, KeyInUse(), input)
      ensures err.None? && mask ==> readMaskPos == 0
      ensures err.Some? ==>
        var w := WidthOf(old(readRemaining));
        err == Some(if |old(input)| < w then UnexpectedEnd
                    else if LengthOf(old(readRemaining), old(input)[..w]) >= LENGTH_LIMIT then LimitExceeded
                    else if mask != settings.isServer then Protocol
                    else UnexpectedEnd)
    {
      ghost var code, b := readRemaining, input;
      if readRemaining == 126 || readRemaining == 127 {
        var p, ok := Take(WidthOf(readRemaining));
        if !ok {
          return Some(UnexpectedEnd);
        }
        LengthUnique(code, p);
        err := SetReadRemaining(Signed64(BigEndian(p)));
        if err.Some? {
          return;
        }
      } else {
        assert b[..0] == [];
      }
      ghost var w := WidthOf(code);
      assert readRemaining == LengthOf(code, b[..w]) && input == b[w..];
      if mask != settings.isServer {
        return Some(Protocol);
      }
      if mask {
        readMaskPos := 0;
        var p, ok := Take(4);
        if !ok {
          return Some(UnexpectedEnd);
        }
        readMaskKey := p;
        assert b[w..][..4] == b[w..w + 4] && b[w..][4..] == b[w + 4..];
      }
      return None;
    }

    /** A whole header: accepted exactly when it is there and acceptable. */
    method TakeHeader() returns (frameType: nat, err: Option<ReadError>)
      requires Valid()
      modifies this`input, this`readRemaining, this`readFinal, this`readMaskPos, this`readMaskKey
      ensures 0 <= readRemaining < LENGTH_LIMIT
      ensures err.None? <==> ReadHeader(old(input)).Some?
                             && Acceptable(ReadHeader(old(input)).value.0, settings.isServer, !old(readFinal))
      ensures err.None? ==> var (h, rest) := ReadHeader(old(input)).value;
                            frameType == h.opcode && input == rest && readRemaining == h.length && KeyInUse() == h.key
                            && readFinal == if IsControl(h.opcode) then old(readFinal) else h.final
      ensures err.None? && settings.isServer ==> readMaskPos == 0
      ensures err.None? && IsControl(frameType) ==> readRemaining <= MAX_CONTROL_PAYLOAD
      ensures err.Some? ==> err.value in [UnexpectedEnd, Protocol, LimitExceeded]
      ensures err.Some? && ReadHeader(old(input)).Some? ==>
        err == Some(Protocol) || (err == Some(LimitExceeded) && ReadHeader(old(input)).value.0.length >= LENGTH_LIMIT)
    {
      ghost var b := input;
      var mask;
      frameType, mask, err := TakeStart();
      if err.Some? {
        return;
      }
      err := TakeLengthAndKey(mask);
      Assembled(b);
      if err.None? {
        HeaderUnique(b);
      }
    }

    /** The payload of a control frame goes to a handler; a close frame always ends in an error. */
    method TakeControl(frameType: nat) returns (err: Option<ReadError>)
      requires IsControl(frameType) && 0 <= readRemaining <= MAX_CONTROL_PAYLOAD
      modifies this`input, this`readRemaining, this`controls
      ensures readRemaining == 0 || (err.Some? && readRemaining == old(readRemaining))
      ensures var n, b := old(readRemaining), old(input);
        && (err.None? <==> |b| >= n && Survives(settings, frameType, Unmask(KeyInUse(), 0, b[..n])))
        && (err.None? ==> input == b[n..] && readRemaining == 0
                          && controls == old(controls) + [(frameType, Unmask(KeyInUse(), 0, b[..n]))])
      ensures err != Some(UnexpectedOpening)
    {
      hide Mask, MaskedRange;
      var payload: seq<byte> := [];
      ghost var n, b := readRemaining, input;
      if readRemaining > 0 {
        var p, ok := Take(readRemaining);
        readRemaining := 0;
        if !ok {
          return Some(UnexpectedEnd);
        }
        payload := Clear(p);
      }
      assert |b| >= n && payload == Unmask(KeyInUse(), 0, b[..n]) && input == b[n..];
      if frameType == CLOSE {
        err := CloseReason(payload);
        return;
      }
      controls := controls + [(frameType, payload)];
      if settings.refuses(frameType, payload) {
        return Some(Refused);
      }
      return None;
    }

    method Clear(p: seq<byte>) returns (payload: seq<byte>)
      ensures payload == Unmask(KeyInUse(), 0, p)
    {
      if !settings.isServer {
        return p;
      }
      var a := new byte[|p|];
      CopyInto(a, 0, p);
      assert a[..] == p;
      var _ := MaskBytes(readMaskKey, 0, a, 0, a.Length, 0, 8);
      MaskedRangeIs(a[..], p, readMaskKey, 0, 0, a.Length);
      assert p[0..a.Length] == p;
      payload := a[..];
    }

    method CloseReason(payload: seq<byte>) returns (err: Option<ReadError>)
      ensures err == Some(
        if |payload| >= 2 && !(ValidReceivedCloseCode(BigEndian(payload[..2])) && ValidUtf8(payload[2..])) then Protocol
        else if settings.refuses(CLOSE, payload) then Refused
        else if |payload| >= 2 then Closed(BigEndian(payload[..2]), payload[2..])
        else Closed(CLOSE_NO_STATUS, []))
    {
      var closeCode: nat, closeText: seq<byte> := CLOSE_NO_STATUS, [];
      if |payload| >= 2 {
        closeCode := BigEndian(payload[..2]);
        if !ValidReceivedCloseCode(closeCode) {
          return Some(Protocol);
        }
        closeText := payload[2..];
        if !ValidUtf8(closeText) {
          return Some(Protocol);
        }
      }
      if settings.refuses(CLOSE, payload) {
        return Some(Refused);
      }
      return Some(Closed(closeCode, closeText));
    }

    /** One frame, after whatever is left of the one before. It is accepted exactly when the bytes
        there are an acceptable frame, and the state then is that frame's. */
    method AdvanceFrame() returns (frameType: int, err: Option<ReadError>)
      requires Valid() && readErr.None?
      modifies this`input, this`controls, this`readRemaining, this`readFinal, this`readLength, this`readMaskPos, this`readMaskKey
      ensures 0 <= readRemaining < LENGTH_LIMIT && err != Some(UnexpectedOpening)
      ensures var next := NextOf(settings, !old(readFinal), old(readLength), old(readRemaining), old(input));
        && (err.Some? <==> next.Fault?)
        && match next
           case Fault => true
           case Data(h, rest) =>
             && frameType == h.opcode && input == rest && controls == old(controls)
             && readFinal == h.final && readRemaining == h.length && KeyInUse() == h.key
             && readLength == old(readLength) + h.length && WithinLimit(settings, readLength)
           case Control(opcode, payload, rest) =>
             && frameType == opcode && input == rest && controls == old(controls) + [(opcode, payload)]
             && readFinal == old(readFinal) && readRemaining == 0 && readLength == old(readLength)
      ensures err.None? && settings.isServer ==> readMaskPos == 0
      ensures old(readRemaining) > |old(input)| ==> err == Some(EndOfStream)
      ensures old(readRemaining) <= |old(input)| ==>
        var header := ReadHeader(old(input)[old(readRemaining)..]);
        header.Some? ==>
          var h := header.value.0;
          if !Acceptable(h, settings.isServer, !old(readFinal)) then
            err == Some(Protocol) || (err == Some(LimitExceeded) && h.length >= LENGTH_LIMIT)
          else
            !IsControl(h.opcode) && !WithinLimit(settings, old(readLength) + h.length) ==> err == Some(LimitExceeded)
    {
      hide ReadHeader, Unmask, Acceptable, Survives, IsData;
      if readRemaining > 0 {
        if readRemaining > |input| {
          input := [];
          return -1, Some(EndOfStream);
        }
        input := input[readRemaining..];
      }
      frameType, err := TakeHeader();
      if err.Some? {
        return;
      }
      if !IsControl(frameType) {
        readLength := Add64(readLength, readRemaining);
        if readLength < 0 {
          return -1, Some(LimitExceeded);
        }
        if settings.limit > 0 && readLength > settings.limit {
          return -1, Some(LimitExceeded);
        }
        return;
      }
      err := TakeControl(frameType);
    }

    /** Moves on to the next message, over what is left of the one before. An error is permanent. */
    method NextReader() returns (frameType: int, r: nat, err: Option<ReadError>)
      requires Valid()
      modifies this
      ensures Valid() && err == readErr && delivered == 0
      ensures old(readErr).Some? ==> readErr == old(readErr) && input == old(input) && controls == old(controls)
      ensures old(readErr).None? ==>
        match NextMessage(settings, !old(readFinal), old(readRemaining), 0, old(input))
        case Shut => err.Some?
        case Opening(h, length, passed, rest) =>
          && err.None? && frameType == h.opcode && IsData(frameType) && r == messageReader == old(readers) + 1
          && readLength == length && readRemaining == h.length && readFinal == h.final && KeyInUse() == h.key
          && (settings.isServer ==> readMaskPos == 0)
          && input == rest && controls == old(controls) + passed
    {
      hide NextMessage, NextOf, NextFrame, Unmask, WithinLimit, Earlier;
      messageReader := 0;
      readLength := 0;
      delivered := 0;
      ghost var o := NextMessage(settings, !readFinal, readRemaining, 0, input);
      ghost var passed: seq<(nat, seq<byte>)> := [];
      EarlierNone(o);
      NothingWithinLimit(settings);
      while readErr.None?
        invariant Valid() && messageReader == 0 && delivered == 0 && readers == old(readers)
        invariant old(readErr).Some? ==> readErr == old(readErr) && input == old(input)
        invariant controls == old(controls) + passed
        invariant old(readErr).Some? ==> passed == []
        invariant readErr.None? ==>
          readLength >= 0 && o == Earlier(passed, NextMessage(settings, !readFinal, readRemaining, readLength, input))
        invariant old(readErr).None? && readErr.Some? ==> o.Shut?
        decreases |input|, readErr.None?
      {
        ghost var next := NextOf(settings, !readFinal, readLength, readRemaining, input);
        NextMessageStep(settings, !readFinal, readRemaining, readLength, input, passed);
        frameType, err := AdvanceFrame();
        if err.Some? {
          readErr := err;
          break;
        }
        if IsData(frameType) {
          readers := readers + 1;
          messageReader := readers;
          return frameType, messageReader, None;
        }
        if next.Control? {
          passed := passed + [(next.opcode, next.payload)];
        }
      }
      return -1, 0, readErr;
    }

    /** Payload bytes of the current frame, as many as the connection has at hand (`chunk`) and fit. */
    method Deliver(buf: array<byte>, chunk: nat) returns (n: nat)
      requires Valid() && readErr.None? && messageReader != 0 && readRemaining > 0 && |input| > 0
      modifies this`input, this`readMaskPos, this`readRemaining, this`delivered, buf
      ensures Valid() && n <= buf.Length && (buf.Length > 0 ==> n > 0)
      ensures |input| + n == |old(input)| && delivered == old(delivered) + n && buf[n..] == old(buf[n..])
      ensures old(Pending()) == Prepend(buf[..n], [], Pending())
    {
      hide Rest, Unmask, WithinLimit, Phase, Amount, Prepend;
      n := Amount(if buf.Length < readRemaining then buf.Length else readRemaining, |input|, chunk);
      Fill(buf, input[..n]);
      input := input[n..];
      UnmaskInPlace(buf, n);
      RestSplit(settings, readLength, readRemaining, readFinal, KeyInUse(), old(readMaskPos), old(input), n, readMaskPos);
      readRemaining := readRemaining - n;
      delivered := delivered + n;
      StillWithinLimit(settings, delivered, readLength);
    }

    method Fill(buf: array<byte>, data: seq<byte>)
      requires |data| <= buf.Length
      modifies buf
      ensures buf[..|data|] == data && buf[|data|..] == old(buf[|data|..])
    {
      CopyInto(buf, 0, data);
    }

    method UnmaskInPlace(buf: array<byte>, n: nat)
      requires n <= buf.Length
      modifies this`readMaskPos, buf
      ensures buf[..n] == Unmask(KeyInUse(), old(readMaskPos), old(buf[..n])) && buf[n..] == old(buf[n..])
      ensures settings.isServer ==> Phase(readMaskPos) == Phase(old(readMaskPos) + n)
    {
      hide Mask, MaskedRange;
      if settings.isServer {
        ghost var was, pos := buf[..], readMaskPos;
        readMaskPos := MaskBytes(readMaskKey, readMaskPos, buf, 0, n, 0, 8);
        MaskedRangeIs(buf[..], was, readMaskKey, pos, 0, n);
        PhaseWords(pos + n, 0);
        assert was[0..n] == was[..n];
      }
    }

    /** More of the message: bytes, its end, or an error that is then permanent. An earlier reader is at its end. */
    method Read(r: nat, buf: array<byte>, chunk: nat) returns (n: nat, err: Option<ReadError>)
      requires Valid() && r != 0
      modifies this, buf
      ensures Valid() && n <= buf.Length && readers == old(readers)
      ensures old(messageReader) != r ==>
        && n == 0 && err == Some(EndOfStream) && input == old(input) && readErr == old(readErr)
        && messageReader == old(messageReader)
      ensures old(readErr).Some? ==> n == 0 && err.Some? && readErr == old(readErr) && input == old(input)
      ensures old(messageReader) == r && old(readErr).None? ==>
        && (readErr.Some? ==> n == 0 && err.Some? && old(Pending()).Broken?)
        && (readErr.None? ==> |controls| >= |old(controls)| && controls[..|old(controls)|] == old(controls))
        && (readErr.None? && err.Some? ==>
              var passed := controls[|old(controls)|..];
              && n == 0 && err == Some(EndOfStream) && messageReader == 0 && readFinal && readRemaining == 0
              && old(Pending()) == Tail([], passed, input))
        && (readErr.None? && err.None? ==>
              var passed := controls[|old(controls)|..];
              && messageReader == r && (buf.Length > 0 ==> n > 0) && |input| + n <= |old(input)|
              && delivered == old(delivered) + n
              && old(Pending()) == Prepend(buf[..n], passed, Pending()))
    {
      hide Rest, NextOf, NextFrame, Unmask, WithinLimit, Prepend;
      n := 0;
      if messageReader != r {
        return 0, Some(EndOfStream);
      }
      ghost var passed: seq<(nat, seq<byte>)> := [];
      ghost var whole := if readErr.None? then Pending() else Broken;
      PrependNone(whole);
      while readErr.None?
        invariant Valid() && messageReader == r && readers == old(readers) && delivered == old(delivered)
        invariant old(readErr).Some? ==> readErr == old(readErr) && input == old(input)
        invariant readErr.None? ==> controls == old(controls) + passed && |input| <= |old(input)|
        invariant readErr.None? ==> whole == Prepend([], passed, Pending())
        invariant old(readErr).None? && readErr.Some? ==> whole.Broken?
        decreases readErr.None?, |input|
      {
        if readRemaining > 0 {
          if |input| == 0 {
            RestCutOff(settings, readLength, readRemaining, readFinal, KeyInUse(), readMaskPos, passed);
            readErr := Some(UnexpectedEnd);
            return 0, readErr;
          }
          ghost var pending := Pending();
          n := Deliver(buf, chunk);
          PrependAfter(passed, buf[..n], Pending());
          return n, None;
        }
        if readFinal {
          RestAtEnd(settings, readLength, KeyInUse(), readMaskPos, input, passed);
          messageReader := 0;
          return 0, Some(EndOfStream);
        }
        ghost var length, key, pos, b := readLength, KeyInUse(), readMaskPos, input;
        ghost var next := NextOf(settings, true, readLength, 0, input);
        var frameType, e := AdvanceFrame();
        RestStep(settings, length, key, pos, b, passed, KeyInUse(), readMaskPos);
        readErr := if e.Some? then e else if IsData(frameType) then Some(UnexpectedOpening) else None;
        if next.Control? {
          passed := passed + [(next.opcode, next.payload)];
        }
      }
      err := readErr;
      if err == Some(EndOfStream) && messageReader == r {
        err := Some(UnexpectedEnd);
      }
      return 0, err;
    }

    /** The whole of the message that reader `r` has begun, in reads of any sizes. */
    method ReadAll(r: nat, sizes: nat -> nat, chunks: nat -> nat) returns (p: seq<byte>, err: Option<ReadError>)
      requires Valid() && readErr.None? && messageReader == r != 0
      modifies this
      ensures Valid()
      ensures match old(Pending())
              case Broken => err.Some? && readErr.Some?
              case Tail(payload, passed, rest) =>
                && err.None? && p == payload && input == rest && controls == old(controls) + passed
                && readErr.None? && readFinal && readRemaining == 0 && messageReader == 0
      ensures WithinLimit(settings, |p| + old(delivered))
    {
      hide Rest, Prepend, WithinLimit;
      ghost var whole, passed: seq<(nat, seq<byte>)> := Pending(), [];
      PrependNone(whole);
      p, err := [], None;
      var i: nat, more := 0, true;
      while more
        invariant Valid()
        invariant more ==> readErr.None? && messageReader == r && whole == Prepend(p, passed, Pending())
        invariant readErr.None? ==> controls == old(controls) + passed
        invariant !more && readErr.Some? ==> whole.Broken? && err.Some?
        invariant !more && readErr.None? ==>
          whole == Tail(p, passed, input) && err.None? && readFinal && readRemaining == 0 && messageReader == 0
        invariant WithinLimit(settings, |p| + old(delivered)) && (more ==> |p| + old(delivered) == delivered)
        decreases more, |input|
      {
        ghost var was := controls;
        var buf := new byte[sizes(i) + 1];
        var n, e := Read(r, buf, chunks(i));
        if e.Some? {
          more := false;
          err := if readErr.Some? then e else None;
          if readErr.None? {
            PrependEnd(p, passed, controls[|was|..], input);
            passed := passed + controls[|was|..];
          } else {
            PrependPrepend(p, passed, [], [], Broken);
          }
        } else {
          PrependPrepend(p, passed, buf[..n], controls[|was|..], Pending());
          p := p + buf[..n];
          passed := passed + controls[|was|..];
        }
        i := i + 1;
      }
    }

    /** The next message: received exactly when the bytes to come carry one. */
    method ReadMessage(sizes: nat -> nat, chunks: nat -> nat) returns (frameType: int, p: seq<byte>, err: Option<ReadError>)
      requires Valid()
      modifies this
      ensures Valid() && (err.Some? <==> readErr.Some?) && WithinLimit(settings, |p|)
      ensures old(readErr).Some? ==> err == readErr == old(readErr) && input == old(input)
      ensures old(readErr).None? ==>
        match ReceiveAfter(settings, !old(readFinal), old(readRemaining), old(input))
        case Nothing => err.Some?
        case Received(opcode, payload, passed, rest) =>
          && err.None? && frameType == opcode && p == payload && controls == old(controls) + passed
          && input == rest && readFinal && readRemaining == 0
    {
      hide Rest, NextMessage, WithinLimit;
      NothingWithinLimit(settings);
      var r;
      frameType, r, err := NextReader();
      if err.Some? {
        return frameType, [], err;
      }
      if !settings.isServer {
        RestClient(settings, readLength, readRemaining, readFinal, readMaskPos, input);
      }
      p, err := ReadAll(r, sizes, chunks);
    }
  }

  lemma PrependEnd(p: seq<byte>, passed: seq<(nat, seq<byte>)>, more: seq<(nat, seq<byte>)>, rest: seq<byte>)
    ensures Prepend(p, passed, Tail([], more, rest)) == Tail(p, passed + more, rest)
  {
    assert p + [] == p;
  }

  lemma PrependPrepend(p: seq<byte>, a: seq<(nat, seq<byte>)>, q: seq<byte>, b: seq<(nat, seq<byte>)>, t: Tail)
    ensures Prepend(p, a, Prepend(q, b, t)) == Prepend(p + q, a + b, t)
    ensures t.Broken? ==> Prepend(p, a, t) == Broken
  {
    if t.Tail? {
      assert p + (q + t.payload) == p + q + t.payload && a + (b + t.controls) == a + b + t.controls;
    }
  }

  lemma PrependNone(t: Tail)
    ensures Prepend([], [], t) == t
  {
    if t.Tail? { assert [] + t.payload == t.payload && [] + t.controls == t.controls; }
  }

  lemma PrependAfter(passed: seq<(nat, seq<byte>)>, data: seq<byte>, t: Tail)
    ensures Prepend([], passed, Prepend(data, [], t)) == Prepend(data, passed, t)
  {
    if t.Tail? {
      assert [] + (data + t.payload) == data + t.payload && passed + ([] + t.controls) == passed + t.controls;
    }
  }

  lemma RestCutOff(c: Settings, length: nat, remaining: nat, final: bool, key: Option<Key>, pos: nat,
                   passed: seq<(nat, seq<byte>)>)
    requires remaining > 0
    ensures Prepend([], passed, Rest(c, length, remaining, final, key, pos, [])) == Broken
  {
  }

  lemma RestAtEnd(c: Settings, length: nat, key: Option<Key>, pos: nat, b: seq<byte>, passed: seq<(nat, seq<byte>)>)
    ensures Prepend([], passed, Rest(c, length, 0, true, key, pos, b)) == Tail([], passed, b)
  {
    assert b[0..] == b && b[..0] == [] && Unmask(key, pos, []) == [];
    assert passed + [] == passed;
  }

  /** From the end of one frame to the next, while the message is open. */
  lemma RestStep(c: Settings, length: nat, key: Option<Key>, pos: nat, b: seq<byte>, passed: seq<(nat, seq<byte>)>,
                 key': Option<Key>, pos': nat)
    ensures var whole, next := Prepend([], passed, Rest(c, length, 0, false, key, pos, b)), NextOf(c, true, length, 0, b);
      && (next.Fault? ==> whole == Broken)
      && (next.Control? ==>
            && IsControl(next.opcode) && |next.rest| < |b|
            && whole == Prepend([], passed + [(next.opcode, next.payload)], Rest(c, length, 0, false, key', pos', next.rest)))
      && (next.Data? ==>
            var h := next.header;
            && !IsControl(h.opcode) && !IsData(h.opcode) && |next.rest| < |b|
            && (h.key == key' && (key'.Some? ==> pos' == 0) ==>
                  whole == Prepend([], passed, Rest(c, length + h.length, h.length, h.final, key', pos', next.rest))))
  {
    hide Rest, Prepend, Unmask, IsControl, IsData;
    var next := NextOf(c, true, length, 0, b);
    RestIsOnward(c, length, key, pos, b);
    OnwardStep(c, length, b);
    hide Onward, NextOf;
    if next.Control? {
      RestIsOnward(c, length, key', pos', next.rest);
      PrependControl(passed, (next.opcode, next.payload), Onward(c, length, false, next.rest));
    } else if next.Data? {
      RestClient(c, length + next.header.length, next.header.length, next.header.final, pos', next.rest);
    } else {
      PrependBroken(passed);
    }
  }

  lemma RestClient(c: Settings, length: nat, remaining: nat, final: bool, pos: nat, b: seq<byte>)
    ensures Rest(c, length, remaining, final, None, pos, b) == Rest(c, length, remaining, final, None, 0, b)
  {
    hide Onward;
  }

  lemma PrependBroken(passed: seq<(nat, seq<byte>)>)
    ensures Prepend([], passed, Broken) == Broken
  {
  }

  lemma PrependControl(passed: seq<(nat, seq<byte>)>, control: (nat, seq<byte>), t: Tail)
    ensures Prepend([], passed, Prepend([], [control], t)) == Prepend([], passed + [control], t)
  {
    if t.Tail? {
      assert [] + ([] + t.payload) == [] + t.payload;
      assert passed + ([control] + t.controls) == passed + [control] + t.controls;
    }
  }

  lemma RestIsOnward(c: Settings, length: nat, key: Option<Key>, pos: nat, b: seq<byte>)
    ensures Rest(c, length, 0, false, key, pos, b) == Onward(c, length, false, b)
  {
    assert b[0..] == b && Unmask(key, pos, b[..0]) == [];
    PrependNone(Onward(c, length, false, b));
    hide Onward;
  }

  lemma OnwardStep(c: Settings, length: nat, b: seq<byte>)
    ensures var next := NextOf(c, true, length, 0, b);
      Onward(c, length, false, b) ==
      if next.Fault? then Broken
      else if next.Control? then Prepend([], [(next.opcode, next.payload)], Onward(c, length, false, next.rest))
      else Rest(c, length + next.header.length, next.header.length, next.header.final, next.header.key, 0, next.rest)
    ensures var next := NextOf(c, true, length, 0, b);
      && (next.Control? ==> IsControl(next.opcode) && |next.rest| < |b|)
      && (next.Data? ==> !IsControl(next.header.opcode) && !IsData(next.header.opcode) && |next.rest| < |b|)
  {
    hide ReadHeader, Unmask, Rest, Prepend;
    assert b[0..] == b;
  }

  lemma NothingWithinLimit(c: Settings)
    ensures WithinLimit(c, 0)
  {
  }

  lemma NextMessageStep(c: Settings, open: bool, skip: nat, length: nat, b: seq<byte>, passed: seq<(nat, seq<byte>)>)
    ensures Earlier(passed, NextMessage(c, open, skip, length, b)) ==
            match NextOf(c, open, length, skip, b)
            case Fault => Shut
            case Control(op, p, rest) => Earlier(passed + [(op, p)], NextMessage(c, open, 0, length, rest))
            case Data(h, rest) =>
              if IsData(h.opcode) then Opening(h, length + h.length, passed, rest)
              else Earlier(passed, NextMessage(c, !h.final, h.length, length + h.length, rest))
    ensures !NextOf(c, open, length, skip, b).Fault? ==> |NextOf(c, open, length, skip, b).rest| < |b|
    ensures NextOf(c, open, length, skip, b).Data? ==> !IsControl(NextOf(c, open, length, skip, b).header.opcode)
    ensures NextOf(c, open, length, skip, b).Control? ==> IsControl(NextOf(c, open, length, skip, b).opcode)
  {
    hide ReadHeader, Unmask;
    var next := NextOf(c, open, length, skip, b);
    if next.Control? {
      EarlierTwice(passed, (next.opcode, next.payload), NextMessage(c, open, 0, length, next.rest));
    } else if next.Data? {
      assert passed + [] == passed;
    }
  }

  lemma EarlierTwice(a: seq<(nat, seq<byte>)>, b: (nat, seq<byte>), o: Opening)
    ensures Earlier(a, Earlier([b], o)) == Earlier(a + [b], o)
  {
    if o.Opening? {
      assert a + ([b] + o.controls) == a + [b] + o.controls;
    }
  }

  /** What the two header stages establish amounts to reading the header. */
  lemma Assembled(b: seq<byte>)
    requires |b| >= 2
    ensures var code, mask := CodeOf(b[1]), b[1] >= 128;
      && (ReadHeader(b).Some? <==> |b| >= 2 + WidthOf(code) + (if mask then 4 else 0))
      && (ReadHeader(b).Some? && ReadHeader(b).value.0.length < LENGTH_LIMIT <==> Extendable(code, b[2..], mask))
      && (ReadHeader(b).Some? ==> var (h, rest) := ReadHeader(b).value;
            && (h.key.Some? == mask)
            && (h.opcode == LowBits(b[0]) && h.final == (b[0] >= 128) && h.reserved == ReservedBits(b[0]))
            && (h.width == 0 <==> code <= MAX_CONTROL_PAYLOAD)
            && ExtendedTo(code, b[2..], mask, h.length, h.key, rest))
  {
    hide ReservedBits, LowBits;
    var code, mask := CodeOf(b[1]), b[1] >= 128;
    assert code < 128;
    hide CodeOf;
    var w := WidthOf(code);
    if |b| >= 2 + w {
      assert b[2..][..w] == b[2..2 + w];
      hide BigEndian;
      if mask && |b| >= 6 + w {
        assert b[2..][w..w + 4] == b[2 + w..6 + w];
      }
    }
  }

  /** The length is there in full and fits a signed integer; so is the key, if there must be one. */
  predicate Extendable(code: nat, b: seq<byte>, mask: bool) {
    var w := WidthOf(code);
    |b| >= w + (if mask then 4 else 0) && LengthOf(code, b[..w]) < LENGTH_LIMIT
  }

  predicate ExtendedTo(code: nat, b: seq<byte>, mask: bool, length: nat, key: Option<Key>, rest: seq<byte>) {
    var w := WidthOf(code);
    && |b| >= w + (if mask then 4 else 0)
    && length == LengthOf(code, b[..w])
    && (mask ==> key == Some(b[w..w + 4]) && rest == b[w + 4..])
    && (!mask ==> key == None && rest == b[w..])
  }

  predicate Startable(b0: byte, b1: byte, open: bool) {
    var op := LowBits(b0);
    && ReservedBits(b0) == 0
    && (IsControl(op) || IsData(op) || op == CONTINUATION)
    && (IsControl(op) ==> b0 >= 128 && CodeOf(b1) <= MAX_CONTROL_PAYLOAD)
    && (IsData(op) ==> !open)
    && (op == CONTINUATION ==> open)
  }
}
