/** What a sender puts on the wire, frame by frame, and why the other side takes it as the messages sent. */
module WebSocketFragments {
  import opened Bytes
  import opened WebSocketMask
  import opened WebSocketFrame
  import opened WebSocketMessage

  /** The shortest form of the length is used. */
  function WidthFor(length: nat): nat {
    if length >= 65536 then 8 else if length > 125 then 2 else 0
  }

  function HeaderFor(final: bool, opcode: nat, length: nat, key: Option<Key>): Header {
    Header(final, 0, opcode, WidthFor(length), length, key)
  }

  /** The header of a frame that is sent, byte by byte (section 5.2 of RFC 6455). */
  lemma HeaderLayout(final: bool, opcode: nat, length: nat, key: Option<Key>)
    requires opcode < 16 && length < LENGTH_LIMIT
    ensures var h := HeaderFor(final, opcode, length, key);
      var first, mask := (if final then 0x80 else 0) + opcode, if key.Some? then 0x80 else 0;
      WellFormed(h) && HeaderBytes(h) ==
        (if length < 126 then [first, mask + length]
         else if length < 65536 then [first, mask + 126, length / 256, length % 256]
         else [first, mask + 127] + ToBigEndian(length, 8))
        + (if key.Some? then key.value else [])
    ensures [CONTINUATION, TEXT, BINARY, CLOSE, PING, PONG] == [0, 1, 2, 8, 9, 10]
  {
    hide ToBigEndian;
    if length >= 126 && length < 65536 {
      BigEndianPair(length);
    }
  }

  lemma BigEndianPair(v: nat)
    requires v < 65536
    ensures ToBigEndian(v, 2) == [v / 256, v % 256]
  {
    assert ToBigEndian(v / 256, 1) == ToBigEndian(v / 65536, 0) + [v / 256 % 256];
  }

  /** Frames of a server are not masked, frames of a client are. */
  predicate SentBy(isServer: bool, f: Frame) {
    Formed(f) && f.header == HeaderFor(f.header.final, f.header.opcode, |f.payload|, f.header.key)
    && f.header.key.Some? != isServer && |f.payload| < LENGTH_LIMIT
  }

  predicate ControlBy(isServer: bool, f: Frame) {
    SentBy(isServer, f) && IsControl(f.header.opcode) && f.header.final && |f.payload| <= 125
  }

  predicate DataBy(isServer: bool, opcode: nat, f: Frame) {
    SentBy(isServer, f) && f.header.opcode == opcode && (IsData(opcode) || opcode == CONTINUATION)
  }

  /** Which opcode the next frame of a message must have. */
  function NextOpcode(kind: nat, begun: bool): nat {
    if begun then CONTINUATION else kind
  }

  predicate HasData(frames: seq<Frame>) {
    exists i :: 0 <= i < |frames| && !IsControl(frames[i].header.opcode)
  }

  /** The beginning of a message of the given kind, control frames in between. */
  predicate Partial(isServer: bool, kind: nat, begun: bool, frames: seq<Frame>)
    decreases |frames|
  {
    frames == [] ||
    var f := frames[0];
    if IsControl(f.header.opcode) then ControlBy(isServer, f) && Partial(isServer, kind, begun, frames[1..])
    else DataBy(isServer, NextOpcode(kind, begun), f) && !f.header.final && Partial(isServer, kind, true, frames[1..])
  }

  predicate NoClose(frames: seq<Frame>) {
    forall i :: 0 <= i < |frames| ==> frames[i].header.opcode != CLOSE
  }

  /** A whole message: a beginning and a final frame. */
  predicate Whole(isServer: bool, frames: seq<Frame>) {
    frames != [] && NoClose(frames) &&
    var init, last := frames[..|frames| - 1], frames[|frames| - 1];
    && IsData(Kind(frames)) && Partial(isServer, Kind(frames), false, init)
    && DataBy(isServer, NextOpcode(Kind(frames), HasData(init)), last) && last.header.final
  }

  lemma {:induction false} PartialAppend(isServer: bool, kind: nat, begun: bool, frames: seq<Frame>, f: Frame)
    requires Partial(isServer, kind, begun, frames)
    requires if IsControl(f.header.opcode) then ControlBy(isServer, f)
             else DataBy(isServer, NextOpcode(kind, begun || HasData(frames)), f) && !f.header.final
    ensures Partial(isServer, kind, begun, frames + [f])
    ensures HasData(frames + [f]) == (HasData(frames) || !IsControl(f.header.opcode))
    decreases |frames|
  {
    hide ControlBy, DataBy;
    HasDataAppend(frames, f);
    if frames == [] {
      assert ([] + [f])[1..] == [];
    } else {
      var more := frames[1..];
      HasDataFirst(frames);
      assert (frames + [f])[1..] == more + [f];
      PartialAppend(isServer, kind, begun || !IsControl(frames[0].header.opcode), more, f);
    }
  }

  lemma HasDataAppend(frames: seq<Frame>, f: Frame)
    ensures HasData(frames + [f]) == (HasData(frames) || !IsControl(f.header.opcode))
  {
    var all := frames + [f];
    assert all[|frames|] == f;
    assert forall i :: 0 <= i < |frames| ==> all[i] == frames[i];
  }

  lemma HasDataFirst(frames: seq<Frame>)
    requires frames != []
    ensures HasData(frames) == (!IsControl(frames[0].header.opcode) || HasData(frames[1..]))
  {
    assert forall i :: 0 < i < |frames| ==> frames[i] == frames[1..][i - 1];
    assert forall i :: 0 <= i < |frames| - 1 ==> frames[1..][i] == frames[i + 1];
  }

  predicate AllSurvive(c: Settings, frames: seq<Frame>) {
    forall i :: 0 <= i < |frames| && IsControl(frames[i].header.opcode) ==>
      Survives(c, frames[i].header.opcode, frames[i].payload)
  }

  /** What a sender sends as a message, a receiver of the other role accepts as one. */
  lemma {:induction false} PartialCompletes(c: Settings, kind: nat, begun: bool, length: nat, frames: seq<Frame>, last: Frame)
    requires Partial(!c.isServer, kind, begun, frames) && IsData(kind) && last.header.final
    requires DataBy(!c.isServer, NextOpcode(kind, begun || HasData(frames)), last)
    requires AllSurvive(c, frames + [last]) && WithinLimit(c, length + |Payload(frames + [last])|)
    ensures Completes(c, begun, length, frames + [last])
    ensures !begun ==> Kind(frames + [last]) == kind
    decreases |frames|
  {
    var all := frames + [last];
    if frames == [] {
      assert all[1..] == [] && Payload(all) == last.payload + Payload([]);
    } else {
      var f, more := frames[0], frames[1..];
      assert all[0] == f && all[1..] == more + [last];
      HasDataFirst(frames);
      assert AllSurvive(c, more + [last]) by {
        assert forall i :: 0 <= i < |more + [last]| ==> (more + [last])[i] == all[i + 1];
      }
      if IsControl(f.header.opcode) {
        PartialCompletes(c, kind, begun, length, more, last);
      } else {
        PartialCompletes(c, kind, true, length + |f.payload|, more, last);
      }
    }
  }

  /** The handlers refuse none of the pings and pongs among the frames. */
  predicate NoneRefused(c: Settings, frames: seq<Frame>) {
    forall i :: 0 <= i < |frames| && IsControl(frames[i].header.opcode) ==>
      !c.refuses(frames[i].header.opcode, frames[i].payload)
  }

  lemma WholeCompletes(c: Settings, frames: seq<Frame>)
    requires Whole(!c.isServer, frames) && NoneRefused(c, frames) && WithinLimit(c, |Payload(frames)|)
    ensures Completes(c, false, 0, frames)
  {
    hide Partial, DataBy, Payload, Kind, Completes, WithinLimit;
    var init, last := frames[..|frames| - 1], frames[|frames| - 1];
    assert frames == init + [last];
    PartialCompletes(c, Kind(frames), false, 0, init, last);
  }

  lemma {:induction false} PartialWhole(isServer: bool, kind: nat, begun: bool, frames: seq<Frame>, last: Frame)
    requires Partial(isServer, kind, begun, frames) && !IsControl(last.header.opcode)
    requires last.header.opcode == NextOpcode(kind, begun || HasData(frames))
    ensures !begun ==> Kind(frames + [last]) == kind
    decreases |frames|
  {
    if frames != [] {
      HasDataFirst(frames);
      assert (frames + [last])[1..] == frames[1..] + [last];
      PartialWhole(isServer, kind, begun || !IsControl(frames[0].header.opcode), frames[1..], last);
    }
  }

  lemma {:induction false} PayloadAppend(frames: seq<Frame>, f: Frame)
    ensures Payload(frames + [f]) == Payload(frames) + DataOf(f)
  {
    hide DataOf;
    if frames == [] {
      assert ([] + [f])[1..] == [];
    } else {
      var first, more := DataOf(frames[0]), frames[1..];
      PayloadAppend(more, f);
      assert (frames + [f])[1..] == more + [f];
      assert first + (Payload(more) + DataOf(f)) == first + Payload(more) + DataOf(f);
    }
  }

  lemma {:induction false} ControlsAppend(frames: seq<Frame>, f: Frame)
    ensures Controls(frames + [f]) == Controls(frames) + ControlOf(f)
  {
    hide ControlOf;
    if frames == [] {
      assert ([] + [f])[1..] == [];
    } else {
      var first, more := ControlOf(frames[0]), frames[1..];
      ControlsAppend(more, f);
      assert (frames + [f])[1..] == more + [f];
      assert first + (Controls(more) + ControlOf(f)) == first + Controls(more) + ControlOf(f);
    }
  }

  lemma {:induction false} WireAppend(frames: seq<Frame>, f: Frame)
    requires AllFormed(frames) && Formed(f)
    ensures AllFormed(frames + [f]) && Wire(frames + [f]) == Wire(frames) + FrameBytes(f)
  {
    hide FrameBytes;
    var all := frames + [f];
    if frames == [] {
      assert all[1..] == [];
    } else {
      WireAppend(frames[1..], f);
      assert all[1..] == frames[1..] + [f];
      assert all[0] == frames[0];
    }
  }

  predicate EachFormed(messages: seq<seq<Frame>>) {
    forall i :: 0 <= i < |messages| ==> AllFormed(messages[i])
  }

  predicate EachWhole(isServer: bool, messages: seq<seq<Frame>>) {
    forall i :: 0 <= i < |messages| ==> Whole(isServer, messages[i])
  }

  lemma EachWholeAppend(isServer: bool, messages: seq<seq<Frame>>, m: seq<Frame>)
    requires EachWhole(isServer, messages) && Whole(isServer, m)
    ensures EachWhole(isServer, messages + [m])
  {
  }

  /** The wire of several messages. */
  function Wires(messages: seq<seq<Frame>>): seq<byte>
    requires EachFormed(messages)
  {
    if messages == [] then [] else Wire(messages[0]) + Wires(messages[1..])
  }

  lemma {:induction false} WiresAppend(messages: seq<seq<Frame>>, m: seq<Frame>)
    requires AllFormed(m) && EachFormed(messages)
    ensures EachFormed(messages + [m])
    ensures Wires(messages + [m]) == Wires(messages) + Wire(m)
  {
    hide Wire, AllFormed;
    var all := messages + [m];
    if messages == [] {
      assert all[1..] == [];
    } else {
      WiresAppend(messages[1..], m);
      assert all[1..] == messages[1..] + [m];
      assert all[0] == messages[0];
    }
  }

  lemma {:induction false} PartialFormed(isServer: bool, kind: nat, begun: bool, frames: seq<Frame>)
    requires Partial(isServer, kind, begun, frames)
    ensures AllFormed(frames)
    decreases |frames|
  {
    if frames != [] {
      PartialFormed(isServer, kind, begun || !IsControl(frames[0].header.opcode), frames[1..]);
      assert forall i :: 0 < i < |frames| ==> frames[i] == frames[1..][i - 1];
    }
  }
}
