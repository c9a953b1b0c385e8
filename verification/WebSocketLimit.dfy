/** The limit on message size, when a message is abandoned before its end: what is left of it counts
    against the next one. */
module WebSocketLimit {
  import opened Bytes
  import opened WebSocketFrame
  import opened WebSocketMessage

  /** The same receiver without a limit. */
  function Unlimited(c: Settings): Settings {
    c.(limit := 0)
  }

  /** A frame that would be taken without a limit is taken exactly when the message stays within it. */
  lemma LimitedNext(c: Settings, open: bool, length: nat, extra: nat, f: Frame, rest: seq<byte>)
    requires Admits(Unlimited(c), open, length, f)
    ensures var b := FrameBytes(f) + rest;
      NextFrame(c, open, length + extra, b) ==
      if IsControl(f.header.opcode) then Control(f.header.opcode, f.payload, rest)
      else if WithinLimit(c, length + extra + |f.payload|) then Data(f.header, Unmask(f.header.key, 0, f.payload) + rest)
      else Fault
  {
    hide FrameBytes, Unmask;
    if IsControl(f.header.opcode) || WithinLimit(c, length + extra + |f.payload|) {
      NextFrameOf(c, open, length + extra, f, rest);
    } else {
      TooLong(c, open, length + extra, f, rest);
    }
  }

  lemma TooLong(c: Settings, open: bool, length: nat, f: Frame, rest: seq<byte>)
    requires Formed(f) && !IsControl(f.header.opcode) && !WithinLimit(c, length + |f.payload|)
    ensures NextFrame(c, open, length, FrameBytes(f) + rest).Fault?
  {
    hide HeaderBytes, ReadHeader, Unmask;
    var body := Unmask(f.header.key, 0, f.payload);
    HeaderRoundTrip(f.header, body + rest);
    assert FrameBytes(f) + rest == HeaderBytes(f.header) + (body + rest);
  }

  /** What is left of an abandoned message is passed over, and its size is kept. */
  lemma {:induction false} PassOver(c: Settings, length: nat, frames: seq<Frame>, after: seq<byte>)
    requires Completes(Unlimited(c), true, length, frames)
    ensures AllFormed(frames)
    ensures NextMessage(c, true, 0, length, Wire(frames) + after) ==
            if WithinLimit(c, length + |Payload(frames)|)
            then Earlier(Controls(frames), NextMessage(c, false, 0, length + |Payload(frames)|, after))
            else Shut
    decreases |frames|
  {
    hide Unmask, FrameBytes, Admits, NextFrame, NextMessage, Earlier, Completes, Wire, Payload, Controls, AllFormed, WithinLimit;
    CompletesStep(Unlimited(c), true, length, frames);
    var f, more := frames[0], frames[1..];
    var rest := Wire(more) + after;
    assert Wire(frames) + after == FrameBytes(f) + rest;
    PassFrame(c, length, f, rest);
    var control, total := (f.header.opcode, f.payload), length + |Payload(frames)|;
    EarlierShut([control]);
    if IsControl(f.header.opcode) {
      PassOver(c, length, more, after);
      EarlierFirst(control, Controls(more), NextMessage(c, false, 0, total, after));
    } else {
      if WithinLimit(c, total) {
        StillWithinLimit(c, length + |f.payload|, total);
      }
      if f.header.final {
        assert rest == after;
        EarlierNone(NextMessage(c, false, 0, total, after));
      } else {
        PassOver(c, length + |f.payload|, more, after);
      }
    }
  }

  lemma PassFrame(c: Settings, length: nat, f: Frame, rest: seq<byte>)
    requires Admits(Unlimited(c), true, length, f)
    ensures NextMessage(c, true, 0, length, FrameBytes(f) + rest) ==
            if IsControl(f.header.opcode)
            then Earlier([(f.header.opcode, f.payload)], NextMessage(c, true, 0, length, rest))
            else if WithinLimit(c, length + |f.payload|) then NextMessage(c, !f.header.final, 0, length + |f.payload|, rest)
            else Shut
  {
    hide Unmask, FrameBytes, NextFrame;
    LimitedNext(c, true, length, 0, f, rest);
    var b := FrameBytes(f) + rest;
    assert b[0..] == b;
    var body := Unmask(f.header.key, 0, f.payload);
    assert (body + rest)[|f.payload|..] == rest && rest[0..] == rest;
  }

  lemma EarlierFirst(a: (nat, seq<byte>), cs: seq<(nat, seq<byte>)>, o: Opening)
    ensures Earlier([a], Earlier(cs, o)) == Earlier([a] + cs, o)
  {
    if o.Opening? {
      assert [a] + (cs + o.controls) == [a] + cs + o.controls;
    }
  }

  lemma EarlierShut(cs: seq<(nat, seq<byte>)>)
    ensures Earlier(cs, Shut) == Shut
  {
  }

  /** The rest of a message comes through exactly when it stays within the limit, counted from `extra` on. */
  lemma {:induction false} OnwardWithin(c: Settings, length: nat, extra: nat, frames: seq<Frame>, rest: seq<byte>)
    requires Completes(Unlimited(c), true, length, frames)
    ensures AllFormed(frames)
    ensures Onward(c, length + extra, false, Wire(frames) + rest).Tail?
       <==> WithinLimit(c, length + extra + |Payload(frames)|)
    decreases |frames|
  {
    hide Unmask, FrameBytes, Admits, Onward, Completes, Wire, Payload, AllFormed;
    CompletesStep(Unlimited(c), true, length, frames);
    var f, more := frames[0], frames[1..];
    var after := Wire(more) + rest;
    assert Wire(frames) + rest == FrameBytes(f) + after;
    LimitedOnward(c, length, extra, f, after);
    if IsControl(f.header.opcode) {
      OnwardWithin(c, length, extra, more, rest);
    } else if f.header.final {
      OnwardAtEnd(c, length + extra + |f.payload|, after);
    } else {
      OnwardWithin(c, length + |f.payload|, extra, more, rest);
    }
  }

  lemma LimitedOnward(c: Settings, length: nat, extra: nat, f: Frame, after: seq<byte>)
    requires Admits(Unlimited(c), true, length, f)
    ensures Onward(c, length + extra, false, FrameBytes(f) + after).Tail? <==>
            if IsControl(f.header.opcode) then Onward(c, length + extra, false, after).Tail?
            else WithinLimit(c, length + extra + |f.payload|) && Onward(c, length + extra + |f.payload|, f.header.final, after).Tail?
  {
    hide NextFrame, Unmask, FrameBytes, Rest;
    LimitedNext(c, true, length, extra, f, after);
    RestOfFrame(c, length + extra + |f.payload|, f.header.final, f.header.key, f.payload, after);
  }

  /** The next message, after `extra` bytes already counted, is received exactly when it and they are within the limit. */
  lemma {:induction false} OpenedWithin(c: Settings, extra: nat, frames: seq<Frame>, rest: seq<byte>)
    requires Completes(Unlimited(c), false, 0, frames)
    ensures AllFormed(frames)
    ensures Opened(c, NextMessage(c, false, 0, extra, Wire(frames) + rest)) <==> WithinLimit(c, extra + |Payload(frames)|)
    decreases |frames|
  {
    hide Unmask, FrameBytes, Admits, NextMessage, Opened, Onward, Completes, Wire, Payload, AllFormed;
    CompletesStep(Unlimited(c), false, 0, frames);
    var f, more := frames[0], frames[1..];
    var after := Wire(more) + rest;
    assert Wire(frames) + rest == FrameBytes(f) + after;
    OpenFrame(c, extra, f, after);
    if IsControl(f.header.opcode) {
      OpenedWithin(c, extra, more, rest);
    } else if f.header.final {
      OnwardAtEnd(c, extra + |f.payload|, after);
    } else {
      OnwardWithin(c, |f.payload|, extra, more, rest);
    }
  }

  /** The message just opened comes through. */
  predicate Opened(c: Settings, o: Opening) {
    o.Opening? && Rest(c, o.length, o.header.length, o.header.final, o.header.key, 0, o.rest).Tail?
  }

  lemma OpenFrame(c: Settings, extra: nat, f: Frame, after: seq<byte>)
    requires Admits(Unlimited(c), false, 0, f)
    ensures Opened(c, NextMessage(c, false, 0, extra, FrameBytes(f) + after)) <==>
            if IsControl(f.header.opcode) then Opened(c, NextMessage(c, false, 0, extra, after))
            else WithinLimit(c, extra + |f.payload|) && Onward(c, extra + |f.payload|, f.header.final, after).Tail?
  {
    hide NextFrame, Unmask, FrameBytes, Rest, Onward;
    LimitedNext(c, false, 0, extra, f, after);
    var b := FrameBytes(f) + after;
    assert b[0..] == b;
    RestOfFrame(c, extra + |f.payload|, f.header.final, f.header.key, f.payload, after);
  }

  /** The unread rest of a frame is passed over without being counted: the frame's size was. */
  lemma SkipRest(c: Settings, open: bool, length: nat, unread: seq<byte>, b: seq<byte>)
    ensures NextMessage(c, open, |unread|, length, unread + b) == NextMessage(c, open, 0, length, b)
  {
    hide NextFrame, Earlier;
    assert (unread + b)[|unread|..] == b && b[0..] == b;
  }

  /** So after a message was abandoned, however much of its current frame is unread, the next one is received
      exactly when the frames still to come of the one and all of the other are together within the limit:
      a message within the limit may be refused. */
  lemma LimitAfterAbandoned(c: Settings, unread: seq<byte>, left: seq<Frame>, message: seq<Frame>, rest: seq<byte>)
    requires Completes(Unlimited(c), true, 0, left) && Completes(Unlimited(c), false, 0, message)
    ensures AllFormed(left) && AllFormed(message)
    ensures ReceiveAfter(c, true, |unread|, unread + (Wire(left) + (Wire(message) + rest))).Received?
       <==> WithinLimit(c, |Payload(left)| + |Payload(message)|)
  {
    hide NextMessage, Completes, Wire, Payload, Controls, Rest;
    OpenedWithin(c, |Payload(left)|, message, rest);
    PassOver(c, 0, left, Wire(message) + rest);
    SkipRest(c, true, 0, unread, Wire(left) + (Wire(message) + rest));
  }

  /** When the abandoned frame was its message's last, nothing of it counts against the next message. */
  lemma LimitAfterLastFrame(c: Settings, unread: seq<byte>, message: seq<Frame>, rest: seq<byte>)
    requires Completes(Unlimited(c), false, 0, message)
    ensures AllFormed(message)
    ensures ReceiveAfter(c, false, |unread|, unread + (Wire(message) + rest)).Received?
       <==> WithinLimit(c, |Payload(message)|)
  {
    hide NextMessage, Completes, Wire, Payload, Controls, Rest;
    OpenedWithin(c, 0, message, rest);
    SkipRest(c, false, 0, unread, Wire(message) + rest);
  }

  const LEFT := [Frame(Header(true, 0, CONTINUATION, 0, 1, None), [0x61])]
  const NEXT := [Frame(Header(true, 0, TEXT, 0, 1, None), [0x62])]

  /** With a limit of one byte, a message of one byte is refused after one more byte of another was abandoned. */
  lemma RefusedWithinLimit()
    ensures var c := Settings(false, 1, (_, _) => false);
      && WithinLimit(c, |Payload(NEXT)|) && Completes(c, false, 0, NEXT) && AllFormed(LEFT) && AllFormed(NEXT)
      && ReceiveAfter(c, true, 0, [] + (Wire(LEFT) + (Wire(NEXT) + []))).Nothing?
  {
    var c := Settings(false, 1, (_, _) => false);
    assert LEFT[1..] == [] && NEXT[1..] == [] && Payload([]) == [];
    assert Payload(LEFT) == [0x61] && Payload(NEXT) == [0x62];
    assert Completes(Unlimited(c), true, 0, LEFT) && Completes(Unlimited(c), false, 0, NEXT);
    hide ReceiveAfter, Wire;
    LimitAfterAbandoned(c, [], LEFT, NEXT, []);
  }
}
