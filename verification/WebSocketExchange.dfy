/** From one end of a connection to the other. */
module WebSocketExchange {
  import opened Bytes
  import opened WebSocketMask
  import opened WebSocketFrame
  import opened WebSocketMessage
  import opened WebSocketFragments
  import opened WebSocketSender
  import opened WebSocketReceiver

  /** The receiver's handlers take every ping and pong, and its limit allows every message. */
  predicate Welcomes(c: Settings, messages: seq<seq<Frame>>) {
    forall i :: 0 <= i < |messages| ==> NoneRefused(c, messages[i]) && WithinLimit(c, |Payload(messages[i])|)
  }

  function Told(messages: seq<seq<Frame>>): (told: seq<(int, seq<byte>)>)
    ensures |told| == |messages|
    ensures forall i :: 0 <= i < |messages| ==> told[i] == (Kind(messages[i]), Payload(messages[i]))
  {
    if messages == [] then []
    else [(Kind(messages[0]), Payload(messages[0]))] + Told(messages[1..])
  }

  /** The control payloads among the frames of several messages. */
  function AllControls(messages: seq<seq<Frame>>): seq<(nat, seq<byte>)> {
    if messages == [] then [] else Controls(messages[0]) + AllControls(messages[1..])
  }

  lemma {:induction false} AllControlsAppend(messages: seq<seq<Frame>>, m: seq<Frame>)
    ensures AllControls(messages + [m]) == AllControls(messages) + Controls(m)
  {
    hide Controls;
    if messages == [] {
      assert ([] + [m])[1..] == [];
    } else {
      var first, more := Controls(messages[0]), messages[1..];
      AllControlsAppend(more, m);
      assert (messages + [m])[1..] == more + [m];
      assert first + (AllControls(more) + Controls(m)) == first + AllControls(more) + Controls(m);
    }
  }

  /** One message after another comes out as it went in, and what follows them is left on the wire. */
  method ReceiveAll(r: Receiver, n: nat, sizes: nat -> nat, chunks: nat -> nat,
                    ghost messages: seq<seq<Frame>>, ghost rest: seq<byte>)
    returns (got: seq<(int, seq<byte>)>)
    requires n == |messages|
    requires EachWhole(!r.settings.isServer, messages) && EachFormed(messages) && Welcomes(r.settings, messages)
    requires r.Valid() && r.readErr.None? && r.readFinal && r.readRemaining == 0 && r.input == Wires(messages) + rest
    modifies r
    ensures got == Told(messages) && r.controls == old(r.controls) + AllControls(messages)
    ensures r.Valid() && r.readErr.None? && r.readFinal && r.readRemaining == 0 && r.input == rest
    decreases n
  {
    hide Whole, AllFormed, Wire, Kind, Payload, Controls, ReceiveAfter, WithinLimit, NoneRefused;
    got := [];
    if n == 0 {
      assert Wires(messages) + rest == rest && r.controls + [] == r.controls;
      return;
    }
    ghost var m, later := messages[0], messages[1..];
    WholeCompletes(r.settings, m);
    ReceiveOfFrames(r.settings, m, Wires(later) + rest);
    assert Wires(messages) + rest == Wire(m) + (Wires(later) + rest);
    ReceiveIdle(r.settings, r.input);
    var t, p, e := r.ReadMessage(sizes, chunks);
    assert old(r.controls) + Controls(m) + AllControls(later) == old(r.controls) + (Controls(m) + AllControls(later));
    var more := ReceiveAll(r, n - 1, sizes, chunks, later, rest);
    got := [(t, p)] + more;
  }

  /** After any run of a sender's operations (writers, single-call messages, controls in between), a peer
      of the other role reads exactly the messages completed, with the frames of the one under way still to come. */
  method ReadBack(s: Sender, r: Receiver, n: nat, sizes: nat -> nat, chunks: nat -> nat) returns (got: seq<(int, seq<byte>)>)
    requires s.Valid() && n == |s.completed|
    requires r.settings.isServer != s.isServer && Welcomes(r.settings, s.completed)
    requires r.Valid() && r.readErr.None? && r.readFinal && r.readRemaining == 0 && r.input == s.sent
    modifies r
    ensures got == Told(s.completed) && r.controls == old(r.controls) + AllControls(s.completed) && AllFormed(s.log)
    ensures r.Valid() && r.readErr.None? && r.input == Wire(s.log)
  {
    hide EachWhole, EachFormed, Wires, AllFormed, Wire, Welcomes, Kind, Payload, Partial, Controls, AllControls;
    got := ReceiveAll(r, n, sizes, chunks, s.completed, Wire(s.log));
  }

  lemma ReceiveIdle(c: Settings, b: seq<byte>)
    ensures Receive(c, b) == ReceiveAfter(c, false, 0, b)
  {
  }

  // ----- any calls at all

  /** What an application may call, in any order: a writer is opened, written to and closed, a message is sent
      in one call, and pings and pongs go out at any time. */
  datatype Call =
    | Open(kind: nat)
    | Part(data: seq<byte>)
    | Finish
    | Single(kind: nat, data: seq<byte>)
    | Control(opcode: nat, data: seq<byte>)

  predicate Proper(call: Call) {
    match call
    case Open(kind) => IsData(kind)
    case Part(data) => |data| < LENGTH_LIMIT / 4
    case Finish => true
    case Single(kind, data) => IsData(kind) && |data| < LENGTH_LIMIT / 4
    case Control(opcode, data) => (opcode == PING || opcode == PONG) && |data| <= 125
  }

  /** What the calls amount to: the messages completed, the controls sent before the last of them, the controls
      sent since, and the message under way. */
  datatype Session = Session(done: seq<(int, seq<byte>)>, passed: seq<(nat, seq<byte>)>, since: seq<(nat, seq<byte>)>,
                             open: Option<(nat, seq<byte>)>)

  const START := Session([], [], [], None)

  function Finished(x: Session): Session {
    if x.open.None? then x
    else Session(x.done + [(x.open.value.0, x.open.value.1)], x.passed + x.since, [], None)
  }

  function Step(x: Session, call: Call): Session {
    match call
    case Open(kind) => Finished(x).(open := Some((kind, [])))
    case Part(data) => if x.open.None? then x else x.(open := Some((x.open.value.0, x.open.value.1 + data)))
    case Finish => Finished(x)
    case Single(kind, data) => Finished(Finished(x).(open := Some((kind, data))))
    case Control(opcode, data) => x.(since := x.since + [(opcode, data)])
  }

  function Outcome(x: Session, calls: seq<Call>): Session
    decreases |calls|
  {
    if calls == [] then x else Outcome(Step(x, calls[0]), calls[1..])
  }

  /** The sender has done what the calls amount to. */
  ghost predicate Matches(x: Session, s: Sender)
    reads s, s.writeBuf
  {
    && s.Ready() && s.writeErr.None? && s.writer == x.open.Some?
    && Told(s.completed) == x.done && AllControls(s.completed) == x.passed && Controls(s.log) == x.since
    && (s.writer ==> IsData(s.kind) && s.kind == x.open.value.0 && s.Contents() == x.open.value.1)
  }

  /** One more message on record. */
  lemma OneMore(messages: seq<seq<Frame>>, m: seq<Frame>, kind: nat, payload: seq<byte>, controls: seq<(nat, seq<byte>)>)
    requires Carries(m, kind, payload, controls)
    ensures Told(messages + [m]) == Told(messages) + [(kind, payload)]
    ensures AllControls(messages + [m]) == AllControls(messages) + controls
  {
    hide Kind, Payload, Controls, AllControls;
    AllControlsAppend(messages, m);
    assert forall i :: 0 <= i < |messages| ==> (messages + [m])[i] == messages[i];
  }

  method Perform(s: Sender, call: Call, ghost x: Session)
    requires Matches(x, s) && Proper(call) && s.writeBuf.Length < LENGTH_LIMIT / 2 + 5000
    modifies s, s.writeBuf
    ensures Matches(Step(x, call), s)
  {
    hide Recorded, HasData, NoClose, Kind, Payload, Controls, Told, AllControls, Carries;
    match call {
      case Open(kind) => PerformOpen(s, kind, x);
      case Part(data) =>
        var n, e := s.Write(data);
      case Finish => PerformFinish(s, x);
      case Single(kind, data) => PerformSingle(s, kind, data, x);
      case Control(opcode, data) =>
        var e := s.WriteControl(opcode, data);
    }
  }

  method PerformOpen(s: Sender, kind: nat, ghost x: Session)
    requires Matches(x, s) && IsData(kind)
    modifies s, s.writeBuf
    ensures Matches(Step(x, Open(kind)), s)
  {
    hide Recorded, HasData, NoClose, Kind, Payload, Told, AllControls, Carries;
    ghost var open, completed := s.writer, s.completed;
    var e := s.NextWriter(kind);
    NoPayload(s.log);
    if open {
      OneMore(completed, s.completed[|completed|], x.open.value.0, x.open.value.1, x.since);
    }
  }

  method PerformFinish(s: Sender, ghost x: Session)
    requires Matches(x, s)
    modifies s, s.writeBuf
    ensures Matches(Step(x, Finish), s)
  {
    hide Recorded, HasData, NoClose, Kind, Payload, Told, AllControls, Carries;
    ghost var open, completed := s.writer, s.completed;
    var e := s.Close();
    if open {
      OneMore(completed, s.completed[|completed|], x.open.value.0, x.open.value.1, x.since);
    }
  }

  method PerformSingle(s: Sender, kind: nat, data: seq<byte>, ghost x: Session)
    requires Matches(x, s) && IsData(kind) && s.writeBuf.Length + |data| < LENGTH_LIMIT
    modifies s, s.writeBuf
    ensures Matches(Step(x, Single(kind, data)), s)
  {
    hide Recorded, HasData, NoClose, Kind, Payload, Told, AllControls, Carries;
    ghost var open, completed := s.writer, s.completed;
    var e := s.WriteMessage(kind, data);
    if open {
      ghost var m := s.completed[|completed|];
      OneMore(completed, m, x.open.value.0, x.open.value.1, x.since);
      OneMore(completed + [m], s.completed[|completed| + 1], kind, data, []);
    } else {
      OneMore(completed, s.completed[|completed|], kind, data, x.since);
    }
  }

  /** The round trip: whatever the roles, the buffer size, the masking keys, the calls on one side (writers and
      their writes, single-call messages, controls in between) and the sizes of the reads on the other, the peer
      reads the messages that were completed, and its handlers get the controls sent before the last of them. */
  method RoundTrip(isServer: bool, bufferSize: nat, keys: nat -> Key, calls: seq<Call>, limit: int,
                   sizes: nat -> nat, chunks: nat -> nat)
    returns (got: seq<(int, seq<byte>)>, handled: seq<(nat, seq<byte>)>)
    requires bufferSize < LENGTH_LIMIT / 2 && forall i :: 0 <= i < |calls| ==> Proper(calls[i])
    requires forall i :: 0 <= i < |Outcome(START, calls).done| ==>
      var n := |Outcome(START, calls).done[i].1|; n < LENGTH_LIMIT && (limit > 0 ==> n <= limit)
    ensures got == Outcome(START, calls).done && handled == Outcome(START, calls).passed
  {
    hide Recorded, HasData, NoClose, Kind, Payload, Controls, EachWhole, EachFormed, Wires, Step, AllControls;
    var s := new Sender(isServer, bufferSize, keys);
    ghost var x := START;
    NothingSent(s);
    var i := 0;
    assert calls[0..] == calls;
    while i < |calls|
      invariant i <= |calls| && Matches(x, s) && fresh(s) && fresh(s.writeBuf)
      invariant s.isServer == isServer && s.writeBuf.Length < LENGTH_LIMIT / 2 + 5000
      invariant Outcome(x, calls[i..]) == Outcome(START, calls)
    {
      assert calls[i..][0] == calls[i] && calls[i..][1..] == calls[i + 1..];
      Perform(s, calls[i], x);
      x := Step(x, calls[i]);
      i := i + 1;
    }
    assert calls[i..] == [];
    var settings := Settings(!isServer, limit, (_, _) => false);
    assert Welcomes(settings, s.completed);
    var r := new Receiver(settings, s.sent);
    got := ReadBack(s, r, |Outcome(START, calls).done|, sizes, chunks);
    handled := r.controls;
  }

  lemma NothingSent(s: Sender)
    requires s.Ready() && s.completed == [] && s.log == [] && s.writeErr.None? && !s.writer
    ensures Matches(START, s)
  {
  }

  /** A client's control message must fit its write buffer: with one of 10 bytes, a ping of 11 is refused, though
      control payloads of up to 125 bytes are allowed. */
  method RefusedPing(keys: nat -> Key) returns (e: Option<WriteError>)
    ensures e.Some?
  {
    var s := new Sender(false, 10, keys);
    var ping := seq(11, _ => 0);
    e := s.WriteMessage(PING, ping);
  }
}
