/** Which frames make up a message for a receiver, as a meaning of the bytes it reads. */
module WebSocketMessage {
  import opened Bytes
  import opened WebSocketMask
  import opened WebSocketFrame

  /** The receiving side: its role, its limit on message size (none when not positive), and the
      control payloads that the application's handlers refuse with an error. */
  datatype Settings = Settings(isServer: bool, limit: int, refuses: (nat, seq<byte>) -> bool)

  /** A frame with its payload in the clear. */
  datatype Frame = Frame(header: Header, payload: seq<byte>)

  function Unmask(key: Option<Key>, pos: nat, b: seq<byte>): (r: seq<byte>)
    ensures |r| == |b|
  {
    if key.Some? then Mask(key.value, pos, b) else b
  }

  predicate Formed(f: Frame) {
    WellFormed(f.header) && f.header.length == |f.payload|
  }

  predicate AllFormed(frames: seq<Frame>) {
    forall i :: 0 <= i < |frames| ==> Formed(frames[i])
  }

  function FrameBytes(f: Frame): (b: seq<byte>)
    requires Formed(f)
    ensures |b| >= 2
  {
    HeaderBytes(f.header) + Unmask(f.header.key, 0, f.payload)
  }

  function Wire(frames: seq<Frame>): seq<byte>
    requires AllFormed(frames)
  {
    if frames == [] then [] else FrameBytes(frames[0]) + Wire(frames[1..])
  }

  // ----- one frame

  /** Sections 5.1, 5.2, 5.4 and 5.5 of RFC 6455: no reserved bits, masked exactly when sent to a
      server, control frames final and short, a message opened only when none is open. */
  predicate Acceptable(h: Header, isServer: bool, open: bool) {
    && h.reserved == 0 && h.key.Some? == isServer && h.length < LENGTH_LIMIT
    && (IsControl(h.opcode) || IsData(h.opcode) || h.opcode == CONTINUATION)
    && (IsControl(h.opcode) ==> h.final && h.width == 0)
    && (IsData(h.opcode) ==> !open)
    && (h.opcode == CONTINUATION ==> open)
  }

  predicate WithinLimit(c: Settings, length: nat) {
    length < LENGTH_LIMIT && (c.limit > 0 ==> length <= c.limit)
  }

  /** A close frame ends the connection; a handler may end it too. */
  predicate Survives(c: Settings, opcode: nat, payload: seq<byte>) {
    opcode != CLOSE && !c.refuses(opcode, payload)
  }

  datatype Step =
    | Data(header: Header, rest: seq<byte>)
    | Control(opcode: nat, payload: seq<byte>, rest: seq<byte>)
    | Fault

  /** What the receiver makes of `b` at a frame boundary, `length` payload bytes into the message. */
  function NextFrame(c: Settings, open: bool, length: nat, b: seq<byte>): (s: Step)
    ensures !s.Fault? ==> |s.rest| + 2 <= |b|
  {
    match ReadHeader(b)
    case None => Fault
    case Some((h, rest)) =>
      if !Acceptable(h, c.isServer, open) then Fault
      else if IsControl(h.opcode) then
        if |rest| < h.length then Fault else
        var payload := Unmask(h.key, 0, rest[..h.length]);
        if Survives(c, h.opcode, payload) then Control(h.opcode, payload, rest[h.length..]) else Fault
      else if WithinLimit(c, length + h.length) then Data(h, rest)
      else Fault
  }

  // ----- one message

  datatype Tail = Tail(payload: seq<byte>, controls: seq<(nat, seq<byte>)>, rest: seq<byte>) | Broken

  function Prepend(payload: seq<byte>, controls: seq<(nat, seq<byte>)>, t: Tail): Tail {
    if t.Tail? then Tail(payload + t.payload, controls + t.controls, t.rest) else Broken
  }

  /** What is left of the open message: the rest of its current frame, then frames up to the final one. */
  function Rest(c: Settings, length: nat, remaining: nat, final: bool, key: Option<Key>, pos: nat, b: seq<byte>): Tail
    decreases |b|, 1
  {
    if |b| < remaining then Broken
    else Prepend(Unmask(key, pos, b[..remaining]), [], Onward(c, length, final, b[remaining..]))
  }

  /** What follows the current frame: nothing if it was the final one. */
  function Onward(c: Settings, length: nat, final: bool, b: seq<byte>): Tail
    decreases |b|, 0
  {
    if final then Tail([], [], b) else
    match NextFrame(c, true, length, b)
    case Fault => Broken
    case Control(op, p, rest) => Prepend([], [(op, p)], Onward(c, length, false, rest))
    case Data(h, rest) => Rest(c, length + h.length, h.length, h.final, h.key, 0, rest)
  }

  datatype Opening = Opening(header: Header, length: nat, controls: seq<(nat, seq<byte>)>, rest: seq<byte>) | Shut

  function Earlier(controls: seq<(nat, seq<byte>)>, o: Opening): Opening {
    if o.Opening? then o.(controls := controls + o.controls) else Shut
  }

  lemma EarlierNone(o: Opening)
    ensures Earlier([], o) == o
  {
    if o.Opening? { assert [] + o.controls == o.controls; }
  }

  /** Up to the first frame of the next message: the rest of the current frame and of the message it
      belongs to is discarded, but still counted in `length`. */
  function NextMessage(c: Settings, open: bool, skip: nat, length: nat, b: seq<byte>): Opening
    decreases |b|
  {
    if |b| < skip then Shut else
    match NextFrame(c, open, length, b[skip..])
    case Fault => Shut
    case Control(op, p, rest) => Earlier([(op, p)], NextMessage(c, open, 0, length, rest))
    case Data(h, rest) =>
      if IsData(h.opcode) then Opening(h, length + h.length, [], rest)
      else NextMessage(c, !h.final, h.length, length + h.length, rest)
  }

  datatype Received =
    | Received(opcode: nat, payload: seq<byte>, controls: seq<(nat, seq<byte>)>, rest: seq<byte>)
    | Nothing

  /** The next whole message, from between messages. */
  function Receive(c: Settings, b: seq<byte>): Received {
    ReceiveAfter(c, false, 0, b)
  }

  /** The next whole message, after what is left of the one before. */
  function ReceiveAfter(c: Settings, open: bool, skip: nat, b: seq<byte>): Received {
    match NextMessage(c, open, skip, 0, b)
    case Shut => Nothing
    case Opening(h, length, controls, rest) =>
      match Rest(c, length, h.length, h.final, h.key, 0, rest)
      case Broken => Nothing
      case Tail(payload, more, after) => Received(h.opcode, payload, controls + more, after)
  }

  // ----- the same, as a property of a sequence of frames

  predicate Admits(c: Settings, open: bool, length: nat, f: Frame) {
    && Formed(f) && Acceptable(f.header, c.isServer, open)
    && if IsControl(f.header.opcode) then Survives(c, f.header.opcode, f.payload)
       else WithinLimit(c, length + |f.payload|)
  }

  /** The frames complete exactly one message (`open`: the message has begun), ending with its final frame. */
  predicate Completes(c: Settings, open: bool, length: nat, frames: seq<Frame>)
    decreases |frames|
  {
    && frames != [] && Admits(c, open, length, frames[0])
    && if IsControl(frames[0].header.opcode) then Completes(c, open, length, frames[1..])
       else if frames[0].header.final then |frames| == 1
       else Completes(c, true, length + |frames[0].payload|, frames[1..])
  }

  /** What one frame adds to the payload of its message. */
  function DataOf(f: Frame): seq<byte> {
    if IsControl(f.header.opcode) then [] else f.payload
  }

  function ControlOf(f: Frame): seq<(nat, seq<byte>)> {
    if IsControl(f.header.opcode) then [(f.header.opcode, f.payload)] else []
  }

  function Payload(frames: seq<Frame>): seq<byte> {
    if frames == [] then [] else DataOf(frames[0]) + Payload(frames[1..])
  }

  function Controls(frames: seq<Frame>): seq<(nat, seq<byte>)> {
    if frames == [] then [] else ControlOf(frames[0]) + Controls(frames[1..])
  }

  /** The opcode of the first frame that is not a control frame. */
  function Kind(frames: seq<Frame>): nat {
    if frames == [] then CONTINUATION
    else if IsControl(frames[0].header.opcode) then Kind(frames[1..])
    else frames[0].header.opcode
  }

  lemma {:induction false} CompletesFormed(c: Settings, open: bool, length: nat, frames: seq<Frame>)
    requires Completes(c, open, length, frames)
    ensures AllFormed(frames)
    decreases |frames|
  {
    if |frames| > 1 {
      if IsControl(frames[0].header.opcode) {
        CompletesFormed(c, open, length, frames[1..]);
      } else {
        CompletesFormed(c, true, length + |frames[0].payload|, frames[1..]);
      }
      assert forall i :: 0 < i < |frames| ==> frames[i] == frames[1..][i - 1];
    }
  }

  lemma StillWithinLimit(c: Settings, less: nat, length: nat)
    requires WithinLimit(c, length) && less <= length
    ensures WithinLimit(c, less)
  {
  }

  /** The first of the frames that complete a message, and the rest of them. */
  lemma CompletesStep(c: Settings, open: bool, length: nat, frames: seq<Frame>)
    requires Completes(c, open, length, frames)
    ensures frames != [] && AllFormed(frames)
    ensures var f, more := frames[0], frames[1..];
      && Admits(c, open, length, f) && Formed(f) && AllFormed(more) && Wire(frames) == FrameBytes(f) + Wire(more)
      && (IsControl(f.header.opcode) ==>
            && Completes(c, open, length, more) && Payload(frames) == Payload(more)
            && Controls(frames) == [(f.header.opcode, f.payload)] + Controls(more) && Kind(frames) == Kind(more))
      && (!IsControl(f.header.opcode) ==>
            && Payload(frames) == f.payload + Payload(more) && Controls(frames) == Controls(more)
            && Kind(frames) == f.header.opcode
            && (f.header.final ==> more == [] && Payload(frames) == f.payload && Controls(frames) == [] && Wire(more) == [])
            && (!f.header.final ==> Completes(c, true, length + |f.payload|, more)))
  {
    hide FrameBytes;
    CompletesFormed(c, open, length, frames);
    assert Controls([]) == [] && Payload([]) == [];
  }

  lemma UnmaskTwice(key: Option<Key>, pos: nat, b: seq<byte>)
    ensures Unmask(key, pos, Unmask(key, pos, b)) == b
  {
    if key.Some? {
      MaskTwice(key.value, pos, b);
    }
  }

  /** A frame on the wire is taken as itself. */
  lemma NextFrameOf(c: Settings, open: bool, length: nat, f: Frame, rest: seq<byte>)
    requires Admits(c, open, length, f)
    ensures NextFrame(c, open, length, FrameBytes(f) + rest) ==
            if IsControl(f.header.opcode) then Control(f.header.opcode, f.payload, rest)
            else Data(f.header, Unmask(f.header.key, 0, f.payload) + rest)
  {
    hide HeaderBytes, ReadHeader, Unmask;
    var body := Unmask(f.header.key, 0, f.payload);
    HeaderRoundTrip(f.header, body + rest);
    assert FrameBytes(f) + rest == HeaderBytes(f.header) + (body + rest);
    assert (body + rest)[..|body|] == body && (body + rest)[|body|..] == rest;
    UnmaskTwice(f.header.key, 0, f.payload);
  }

  /** And what is taken was such a frame on the wire. */
  lemma FrameOfNext(c: Settings, open: bool, length: nat, b: seq<byte>) returns (h: Header, body: seq<byte>)
    requires !NextFrame(c, open, length, b).Fault?
    ensures WellFormed(h) && b == HeaderBytes(h) + body && Acceptable(h, c.isServer, open)
    ensures NextFrame(c, open, length, b).Data? ==>
      !IsControl(h.opcode) && WithinLimit(c, length + h.length) && NextFrame(c, open, length, b) == Data(h, body)
    ensures NextFrame(c, open, length, b).Control? ==>
      IsControl(h.opcode) && h.length <= |body| && Survives(c, h.opcode, Unmask(h.key, 0, body[..h.length]))
      && NextFrame(c, open, length, b) == Control(h.opcode, Unmask(h.key, 0, body[..h.length]), body[h.length..])
  {
    hide HeaderBytes, ReadHeader, Unmask;
    HeaderUnique(b);
    h, body := ReadHeader(b).value.0, ReadHeader(b).value.1;
  }

  // ----- reading in pieces

  lemma UnmaskConcat(key: Option<Key>, pos: nat, pos': nat, a: seq<byte>, b: seq<byte>)
    requires key.Some? ==> Phase(pos') == Phase(pos + |a|)
    ensures Unmask(key, pos, a + b) == Unmask(key, pos, a) + Unmask(key, pos', b)
  {
    if key.Some? {
      hide Mask;
      MaskConcat(key.value, pos, a, b);
      PhaseWords(pos + |a|, 0);
      MaskPhase(key.value, pos', Phase(pos + |a|), b);
    }
  }

  /** The payload of a frame may be taken in pieces of any size. */
  lemma RestSplit(c: Settings, length: nat, remaining: nat, final: bool, key: Option<Key>, pos: nat, b: seq<byte>,
                  n: nat, pos': nat)
    requires n <= remaining && n <= |b| && (key.Some? ==> Phase(pos') == Phase(pos + n))
    ensures Rest(c, length, remaining, final, key, pos, b)
         == Prepend(Unmask(key, pos, b[..n]), [], Rest(c, length, remaining - n, final, key, pos', b[n..]))
  {
    if remaining <= |b| {
      hide Unmask, NextFrame;
      UnmaskConcat(key, pos, pos', b[..n], b[n..remaining]);
      assert b[..remaining] == b[..n] + b[n..remaining];
      assert b[n..][..remaining - n] == b[n..remaining] && b[n..][remaining - n..] == b[remaining..];
      var on := Onward(c, length, final, b[remaining..]);
      hide Onward;
      PrependTwice(Unmask(key, pos, b[..n]), Unmask(key, pos', b[n..remaining]), on);
    }
  }

  lemma PrependTwice(a: seq<byte>, b: seq<byte>, t: Tail)
    ensures Prepend(a, [], Prepend(b, [], t)) == Prepend(a + b, [], t)
  {
    if t.Tail? {
      assert a + (b + t.payload) == (a + b) + t.payload;
    }
  }

  lemma RestOfFrame(c: Settings, length: nat, final: bool, key: Option<Key>, payload: seq<byte>, after: seq<byte>)
    ensures Rest(c, length, |payload|, final, key, 0, Unmask(key, 0, payload) + after)
         == Prepend(payload, [], Onward(c, length, final, after))
  {
    hide Unmask, Onward;
    var body := Unmask(key, 0, payload);
    assert (body + after)[..|payload|] == body && (body + after)[|payload|..] == after;
    UnmaskTwice(key, 0, payload);
  }

  lemma OnwardOfFrame(c: Settings, length: nat, f: Frame, after: seq<byte>)
    requires Admits(c, true, length, f)
    ensures Onward(c, length, false, FrameBytes(f) + after) ==
            if IsControl(f.header.opcode)
            then Prepend([], [(f.header.opcode, f.payload)], Onward(c, length, false, after))
            else Prepend(f.payload, [], Onward(c, length + |f.payload|, f.header.final, after))
  {
    hide NextFrame, Unmask, FrameBytes, Rest;
    NextFrameOf(c, true, length, f, after);
    RestOfFrame(c, length + |f.payload|, f.header.final, f.header.key, f.payload, after);
  }

  /** Frames that complete an open message are delivered as its payload. */
  lemma {:induction false} OnwardOfFrames(c: Settings, length: nat, frames: seq<Frame>, rest: seq<byte>)
    requires Completes(c, true, length, frames)
    ensures AllFormed(frames)
         && Onward(c, length, false, Wire(frames) + rest) == Tail(Payload(frames), Controls(frames), rest)
    decreases |frames|
  {
    hide Unmask, FrameBytes, Onward, Admits;
    CompletesFormed(c, true, length, frames);
    var f, more := frames[0], frames[1..];
    var after := Wire(more) + rest;
    assert Wire(frames) + rest == FrameBytes(f) + after;
    OnwardOfFrame(c, length, f, after);
    if IsControl(f.header.opcode) {
      OnwardOfFrames(c, length, more, rest);
    } else if f.header.final {
      OnwardAtEnd(c, length + |f.payload|, rest);
      assert after == rest;
    } else {
      OnwardOfFrames(c, length + |f.payload|, more, rest);
    }
  }

  lemma OnwardAtEnd(c: Settings, length: nat, b: seq<byte>)
    ensures Onward(c, length, true, b) == Tail([], [], b)
  {
  }

  /** Only frames that complete the message are ever delivered as its payload. */
  lemma {:induction false} FramesOfOnward(c: Settings, length: nat, b: seq<byte>) returns (frames: seq<Frame>)
    requires Onward(c, length, false, b).Tail?
    ensures Completes(c, true, length, frames) && AllFormed(frames)
    ensures b == Wire(frames) + Onward(c, length, false, b).rest
    decreases |b|
  {
    hide Unmask, FrameBytes, Onward, Admits, Completes, Wire, AllFormed;
    var f, after := FrameOfOnward(c, length, b);
    OnwardOfFrame(c, length, f, after);
    var more: seq<Frame> := [];
    if IsControl(f.header.opcode) {
      more := FramesOfOnward(c, length, after);
    } else if f.header.final {
      OnwardAtEnd(c, length + |f.payload|, after);
    } else {
      more := FramesOfOnward(c, length + |f.payload|, after);
    }
    frames := [f] + more;
    FirstFrame(c, true, length, f, more);
  }

  lemma FirstFrame(c: Settings, open: bool, length: nat, f: Frame, more: seq<Frame>)
    requires Admits(c, open, length, f)
    requires if IsControl(f.header.opcode) then Completes(c, open, length, more)
             else if f.header.final then more == []
             else Completes(c, true, length + |f.payload|, more)
    ensures AllFormed(more) && AllFormed([f] + more)
    ensures Completes(c, open, length, [f] + more)
    ensures forall rest :: Wire([f] + more) + rest == FrameBytes(f) + (Wire(more) + rest)
    ensures more == [] ==> forall rest :: Wire([f] + more) + rest == FrameBytes(f) + rest
  {
    assert ([f] + more)[1..] == more;
    CompletesFormed(c, open, length, [f] + more);
    assert forall i :: 0 <= i < |more| ==> more[i] == ([f] + more)[i + 1];
    hide FrameBytes;
    assert Wire([f] + more) == FrameBytes(f) + Wire(more);
  }

  lemma FrameOfOnward(c: Settings, length: nat, b: seq<byte>) returns (f: Frame, after: seq<byte>)
    requires Onward(c, length, false, b).Tail?
    ensures Admits(c, true, length, f) && b == FrameBytes(f) + after
  {
    hide NextFrame, Unmask;
    var h, body := FrameOfNext(c, true, length, b);
    f, after := SplitFrame(h, body);
  }

  // ----- whole messages

  function Before(controls: seq<(nat, seq<byte>)>, r: Received): Received {
    if r.Received? then r.(controls := controls + r.controls) else Nothing
  }

  lemma ReceiveFirst(c: Settings, f: Frame, after: seq<byte>)
    requires Admits(c, false, 0, f)
    ensures Receive(c, FrameBytes(f) + after) ==
            if IsControl(f.header.opcode) then Before([(f.header.opcode, f.payload)], Receive(c, after))
            else match Prepend(f.payload, [], Onward(c, |f.payload|, f.header.final, after))
                 case Broken => Nothing
                 case Tail(payload, controls, rest) => Received(f.header.opcode, payload, controls, rest)
  {
    hide NextFrame, Unmask, FrameBytes, Rest, Onward;
    NextFrameOf(c, false, 0, f, after);
    assert (FrameBytes(f) + after)[0..] == FrameBytes(f) + after;
    if IsControl(f.header.opcode) {
      var o := NextMessage(c, false, 0, 0, after);
      if o.Opening? {
        var t := Rest(c, o.length, o.header.length, o.header.final, o.header.key, 0, o.rest);
        if t.Tail? {
          var first := [(f.header.opcode, f.payload)];
          assert first + o.controls + t.controls == first + (o.controls + t.controls);
        }
      }
    } else {
      RestOfFrame(c, |f.payload|, f.header.final, f.header.key, f.payload, after);
    }
  }

  /** The wire form of any message that the settings admit is received as that message: its kind, its
      payload, the control payloads in between, and nothing of what follows. */
  lemma {:induction false} ReceiveOfFrames(c: Settings, frames: seq<Frame>, rest: seq<byte>)
    requires Completes(c, false, 0, frames)
    ensures AllFormed(frames)
    ensures Receive(c, Wire(frames) + rest) == Received(Kind(frames), Payload(frames), Controls(frames), rest)
    decreases |frames|
  {
    hide Receive, Unmask, FrameBytes, Onward, Admits;
    CompletesFormed(c, false, 0, frames);
    var f, more := frames[0], frames[1..];
    var after := Wire(more) + rest;
    assert Wire(frames) + rest == FrameBytes(f) + after;
    ReceiveFirst(c, f, after);
    if IsControl(f.header.opcode) {
      ReceiveOfFrames(c, more, rest);
    } else if f.header.final {
      OnwardAtEnd(c, |f.payload|, rest);
      assert after == rest;
    } else {
      OnwardOfFrames(c, |f.payload|, more, rest);
    }
  }

  /** Conversely, a message is received only when the wire carried such frames. */
  lemma {:induction false} FramesOfReceive(c: Settings, b: seq<byte>) returns (frames: seq<Frame>)
    requires Receive(c, b).Received?
    ensures Completes(c, false, 0, frames) && AllFormed(frames)
    ensures b == Wire(frames) + Receive(c, b).rest
    decreases |b|
  {
    hide Receive, Unmask, FrameBytes, Onward, Admits, Completes, Wire, AllFormed;
    var f, after := FrameOfReceive(c, b);
    ReceiveFirst(c, f, after);
    var more: seq<Frame> := [];
    if IsControl(f.header.opcode) {
      more := FramesOfReceive(c, after);
    } else if f.header.final {
      OnwardAtEnd(c, |f.payload|, after);
    } else {
      more := FramesOfOnward(c, |f.payload|, after);
    }
    frames := [f] + more;
    FirstFrame(c, false, 0, f, more);
  }

  lemma FrameOfReceive(c: Settings, b: seq<byte>) returns (f: Frame, after: seq<byte>)
    requires Receive(c, b).Received?
    ensures Admits(c, false, 0, f) && b == FrameBytes(f) + after
  {
    hide NextFrame, Unmask, Onward;
    assert b[0..] == b;
    var h, body := FrameOfNext(c, false, 0, b);
    f, after := SplitFrame(h, body);
  }

  lemma SplitFrame(h: Header, body: seq<byte>) returns (f: Frame, after: seq<byte>)
    requires WellFormed(h) && h.length <= |body|
    ensures f == Frame(h, Unmask(h.key, 0, body[..h.length])) && Formed(f)
    ensures HeaderBytes(h) + body == FrameBytes(f) + after
  {
    hide Unmask, HeaderBytes;
    f := Frame(h, Unmask(h.key, 0, body[..h.length]));
    after := body[h.length..];
    UnmaskTwice(h.key, 0, body[..h.length]);
    assert body == body[..h.length] + after;
  }
}
