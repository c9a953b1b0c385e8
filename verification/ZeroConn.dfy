/** The wire format of the agent's protocol, and the loop that reads messages from a connection. */
module ZeroConn {
  import opened Bytes
  import opened Sequences
  import opened ZeroMessage

  method CalcChecksum(m: Message) returns (checksum: uint32)
    ensures checksum == Checksum(m.msgID, m.data)
  {
    var data: seq<byte> := Int32Bytes(m.msgID);
    data := data + m.data;
    checksum := Adler32(data);
  }

  /** Where the fields are on the wire: each takes four bytes, least significant first, and the data is in between. */
  lemma WireLayout(m: Message)
    ensures var b, n := Encoding(m), |m.data|;
      && |b| == n + 12 && b[8..8 + n] == m.data
      && Uint32(b[0], b[1], b[2], b[3]) == m.msgSize % 0x1_0000_0000
      && Uint32(b[4], b[5], b[6], b[7]) == m.msgID % 0x1_0000_0000
      && Uint32(b[n + 8], b[n + 9], b[n + 10], b[n + 11]) == m.checksum
  {
    hide ToLittleEndian;
    Bytes4(m.msgSize % 0x1_0000_0000);
    Bytes4(m.msgID % 0x1_0000_0000);
    Bytes4(m.checksum);
    FieldsAt(Int32Bytes(m.msgSize), Int32Bytes(m.msgID), m.data, ToLittleEndian(m.checksum, 4));
  }

  lemma FieldsAt(size: seq<byte>, id: seq<byte>, data: seq<byte>, sum: seq<byte>)
    requires |size| == |id| == |sum| == 4
    ensures var b, n := size + (id + data + sum), |data|;
      && |b| == n + 12 && b[..4] == size && b[4..8] == id && b[8..8 + n] == data && b[8 + n..] == sum
      && (forall k :: 0 <= k < 4 ==> b[k] == size[k] && b[4 + k] == id[k] && b[n + 8 + k] == sum[k])
  {
  }

  method Encode(m: Message) returns (buffer: seq<byte>)
    ensures buffer == Encoding(m)
    ensures |buffer| == |m.data| + 12 && buffer[8..8 + |m.data|] == m.data
    ensures forall k :: 0 <= k < 4 ==> buffer[k] == Int32Bytes(m.msgSize)[k] && buffer[4 + k] == Int32Bytes(m.msgID)[k]
  {
    hide Int32Bytes, ToLittleEndian;
    FieldsAt(Int32Bytes(m.msgSize), Int32Bytes(m.msgID), m.data, ToLittleEndian(m.checksum, 4));
    buffer := Int32Bytes(m.msgSize);
    buffer := buffer + Int32Bytes(m.msgID);
    buffer := buffer + m.data;
    buffer := buffer + ToLittleEndian(m.checksum, 4);
  }

  /** A reader over a byte slice. */
  class Cursor {
    const data: seq<byte>
    var pos: nat

    constructor (data: seq<byte>)
      ensures this.data == data && pos == 0
    {
      this.data, pos := data, 0;
    }

    /** The next `n` bytes, all of them or an error. */
    method Read(n: nat) returns (b: seq<byte>, ok: bool)
      requires pos <= |data|
      modifies this
      ensures pos <= |data| && ok == (old(pos) + n <= |data|)
      ensures ok ==> pos == old(pos) + n && b == data[old(pos)..pos]
    {
      if pos + n <= |data| {
        b, ok := data[pos..pos + n], true;
        pos := pos + n;
      } else {
        b, ok, pos := [], false, |data|;
      }
    }
  }

  method Decode(data: seq<byte>) returns (r: Decoded)
    ensures r == Parse(data)
  {
    hide Int32Bytes, LittleEndian, Checksum, Pow256;
    var reader := new Cursor(data);
    var id, ok := reader.Read(4);
    if !ok {
      return Truncated;
    }
    var msgID := BytesInt32(id);
    var length := |data| - 4 - 4;
    if length < 0 {
      return Panicked;
    }
    var dataBuf;
    dataBuf, ok := reader.Read(length);
    var sum;
    sum, ok := reader.Read(4);
    LittleEndianUnique(sum);
    Pow256Of4();
    var message := Message(ToInt32(|data|), msgID, dataBuf, LittleEndian(sum));
    assert data[..4] == data[0..4] && data[|data| - 4..] == data[|data| - 4..|data|];
    var checksum := CalcChecksum(message);
    if message.checksum == checksum {
      return Decoded(message);
    }
    return BadChecksum;
  }

  // ----- the reading loop

  function Encoding(m: Message): seq<byte> {
    Int32Bytes(m.msgSize) + Body(m)
  }

  datatype End = Exhausted | Rejected | Crashed

  datatype Step = Got(message: Message, rest: seq<byte>) | Stop(end: End)

  /** One turn of the loop: a size, then a body of that size. */
  function Next(input: seq<byte>): (s: Step)
    ensures s.Got? ==> |s.rest| < |input|
  {
    if |input| < 4 then Stop(Exhausted) else
    var size := BytesInt32(input[..4]);
    if size < 0 then Stop(Crashed)
    else if |input| < 4 + size then Stop(Exhausted)
    else match Parse(input[4..4 + size])
      case Decoded(m) => Got(m, input[4 + size..])
      case Panicked => Stop(Crashed)
      case _ => Stop(Rejected)
  }

  function Kept(messages: seq<Message>): seq<Message> {
    if messages == [] then []
    else (if messages[0].msgID == HEARTBEAT then [] else [messages[0]]) + Kept(messages[1..])
  }

  /** Everything the loop hands on, and how it ends. */
  function Run(input: seq<byte>): (seq<Message>, End)
    decreases |input|
  {
    match Next(input)
    case Stop(end) => ([], end)
    case Got(m, rest) => (Kept([m]) + Run(rest).0, Run(rest).1)
  }

  class Conn {
    var input: seq<byte>
    var messageCh: seq<Message>

    constructor (input: seq<byte>)
      ensures this.input == input && messageCh == []
    {
      this.input, messageCh := input, [];
    }

    method ReadFull(n: nat) returns (b: seq<byte>, ok: bool)
      modifies this`input
      ensures ok == (n <= |old(input)|)
      ensures ok ==> b == old(input)[..n] && input == old(input)[n..]
    {
      ok := n <= |input|;
      if ok {
        b, input := input[..n], input[n..];
      } else {
        b, input := input, [];
      }
    }

    method ReadCoroutine() returns (end: End)
      modifies this
      ensures messageCh == old(messageCh) + Run(old(input)).0 && end == Run(old(input)).1
    {
      hide Next, Run, Kept;
      ghost var whole, got: seq<Message> := Run(input), [];
      AddNothing(Run(input).0);
      while true
        invariant messageCh == old(messageCh) + got && whole == (got + Run(input).0, Run(input).1)
        decreases |input|
      {
        RunStep(input);
        AddNothing(got);
        var step := ReadOne();
        if step.Stop? {
          return step.end;
        }
        Later(got, step.message, Run(input).0);
        Regroup(old(messageCh), got, Kept([step.message]));
        AddNothing(messageCh);
        got := got + Kept([step.message]);
        if step.message.msgID != HEARTBEAT {
          messageCh := messageCh + [step.message];
        }
      }
    }

    /** One turn: a size, a body of that size, and its decoding. */
    method ReadOne() returns (step: Step)
      modifies this`input
      ensures step == Next(old(input)) && (step.Got? ==> input == step.rest)
    {
      hide BytesInt32, Parse;
      ghost var start := input;
      var buf, ok := ReadFull(4);
      if !ok {
        return Stop(Exhausted);
      }
      var dataSize := BytesInt32(buf);
      if dataSize < 0 {
        return Stop(Crashed);
      }
      var databuf;
      databuf, ok := ReadFull(dataSize);
      if !ok {
        return Stop(Exhausted);
      }
      assert databuf == start[4..4 + dataSize] && input == start[4 + dataSize..];
      var r := Decode(databuf);
      if r.Decoded? {
        return Got(r.message, input);
      }
      return Stop(if r.Panicked? then Crashed else Rejected);
    }
  }

  lemma RunStep(input: seq<byte>)
    ensures Run(input) == match Next(input)
                          case Stop(end) => ([], end)
                          case Got(m, rest) => (Kept([m]) + Run(rest).0, Run(rest).1)
  {
    hide Next;
  }

  lemma Later(got: seq<Message>, m: Message, more: seq<Message>)
    ensures got + (Kept([m]) + more) == got + Kept([m]) + more
    ensures Kept([m]) == if m.msgID == HEARTBEAT then [] else [m]
  {
    assert [m][1..] == [];
  }

  /** Only heartbeats, which have identifier 0, are dropped. */
  lemma {:induction false} OnlyHeartbeats(before: seq<Message>, m: Message, after: seq<Message>)
    ensures Kept(before + ([m] + after)) == Kept(before) + ((if m.msgID == 0 then [] else [m]) + Kept(after))
    decreases |before|
  {
    var all := before + ([m] + after);
    if before == [] {
      AddNothing([m] + after);
      assert all[1..] == after;
      AddNothing((if m.msgID == 0 then [] else [m]) + Kept(after));
    } else {
      assert all[0] == before[0] && all[1..] == before[1..] + ([m] + after);
      OnlyHeartbeats(before[1..], m, after);
      Regroup(if before[0].msgID == 0 then [] else [before[0]], Kept(before[1..]), (if m.msgID == 0 then [] else [m]) + Kept(after));
    }
  }

  // ----- what is sent is what is handed on

  /** The size field is 32 bits wide: data of this length and no more can be framed. */
  predicate Frameable(data: seq<byte>) {
    |data| + 8 < 0x8000_0000
  }

  lemma SizeField(n: nat)
    ensures ToInt32(ToInt32(n) + 8) == ToInt32(n + 8)
    ensures n < 0x8000_0000 ==> ToInt32(n) == n
    ensures n >= 0x8000_0000 ==> ToInt32(n) != n
  {
    var low := n % 0x1_0000_0000;
    assert ToInt32(n) == if low < 0x8000_0000 then low else low - 0x1_0000_0000;
    assert (ToInt32(n) + 8) % 0x1_0000_0000 == (n + 8) % 0x1_0000_0000;
  }

  /** One message comes back as itself, with what follows untouched, exactly when its size fits. */
  lemma NextRoundTrip(msgID: int32, data: seq<byte>, rest: seq<byte>)
    ensures var m := NewMessage(msgID, data);
            Next(Encoding(m) + rest) == Got(m, rest) <==> Frameable(data)
  {
    hide Int32Bytes, BytesInt32, ToLittleEndian, ToInt32, Checksum;
    var m := NewMessage(msgID, data);
    var size, input := m.msgSize, Encoding(m) + rest;
    SizeField(|data|);
    SizeField(|data| + 8);
    Int32RoundTrip(size);
    assert input[..4] == Int32Bytes(size);
    assert |Body(m)| == |data| + 8;
    if Frameable(data) {
      hide Parse, Body;
      BodyRoundTrip(m);
      assert input[4..4 + size] == Body(m) && input[4 + size..] == rest;
    }
  }

  function Encodings(messages: seq<Message>): seq<byte> {
    if messages == [] then [] else Encoding(messages[0]) + Encodings(messages[1..])
  }

  predicate Sendable(m: Message) {
    m == NewMessage(m.msgID, m.data) && Frameable(m.data)
  }

  lemma KeptFirst(messages: seq<Message>, later: seq<Message>)
    requires messages != []
    ensures Kept(messages) + later == Kept([messages[0]]) + (Kept(messages[1..]) + later)
  {
    var m, rest := messages[0], messages[1..];
    Later([], m, []);
    assert Kept(messages) == Kept([m]) + Kept(rest);
    hide Kept;
    Regroup(Kept([m]), Kept(rest), later);
  }

  /** Any list of messages sent one after another is handed on in order, without the heartbeats, and
      the loop goes on with what follows. */
  lemma {:induction false} RunRoundTrip(messages: seq<Message>, rest: seq<byte>)
    requires forall i :: 0 <= i < |messages| ==> Sendable(messages[i])
    ensures Run(Encodings(messages) + rest) == (Kept(messages) + Run(rest).0, Run(rest).1)
    decreases |messages|
  {
    hide Next, Encoding, Frameable;
    if messages == [] {
      assert Encodings(messages) + rest == rest;
      assert [] + Run(rest).0 == Run(rest).0;
    } else {
      var m, more := messages[0], messages[1..];
      var after := Encodings(more) + rest;
      assert Encodings(messages) + rest == Encoding(m) + after;
      NextRoundTrip(m.msgID, m.data, after);
      RunRoundTrip(more, rest);
      assert Run(Encoding(m) + after) == (Kept([m]) + Run(after).0, Run(after).1);
      hide Run, Encodings;
      KeptFirst(messages, Run(rest).0);
    }
  }
}
