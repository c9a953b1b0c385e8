/** Messages of the agent's own protocol, their checksum, and their encoding. */
module ZeroMessage {
  import opened Bytes

  type int32 = x: int | -0x8000_0000 <= x < 0x8000_0000

  /** The conversion of any integer to 32 bits, keeping the low bits. */
  function ToInt32(v: int): int32 {
    var low := v % 0x1_0000_0000;
    if low < 0x8000_0000 then low else low - 0x1_0000_0000
  }

  function Int32Bytes(v: int32): (b: seq<byte>)
    ensures |b| == 4
  {
    ToLittleEndian(v % 0x1_0000_0000, 4)
  }

  function BytesInt32(b: seq<byte>): int32 {
    ToInt32(LittleEndian(b))
  }

  lemma Pow256Of4()
    ensures Pow256(4) == 0x1_0000_0000
  {
    assert Pow256(1) == 256 && Pow256(2) == 65536;
  }

  lemma Int32RoundTrip(v: int32)
    ensures BytesInt32(Int32Bytes(v)) == v
  {
    Pow256Of4();
    hide LittleEndian, ToLittleEndian, Pow256;
    LittleEndianRoundTrip(v % 0x1_0000_0000, 4);
  }

  // ----- Adler-32, section 2.2 of RFC 1950

  const ADLER_BASE := 65521

  datatype Adler = Adler(a: nat, b: nat)

  function AdlerStep(s: Adler, x: byte): Adler {
    var a := (s.a + x) % ADLER_BASE;
    Adler(a, (s.b + a) % ADLER_BASE)
  }

  function AdlerRun(s: Adler, text: seq<byte>): Adler
    decreases |text|
  {
    if text == [] then s else AdlerRun(AdlerStep(s, text[0]), text[1..])
  }

  function Join16(a: nat, b: nat): nat { 65536 * b + a }

  lemma {:induction false} AdlerBound(s: Adler, text: seq<byte>)
    requires s.a < ADLER_BASE && s.b < ADLER_BASE
    ensures AdlerRun(s, text).a < ADLER_BASE && AdlerRun(s, text).b < ADLER_BASE
    decreases |text|
  {
    if text != [] {
      AdlerBound(AdlerStep(s, text[0]), text[1..]);
    }
  }

  function Adler32(text: seq<byte>): uint32 {
    AdlerBound(Adler(1, 0), text);
    var s := AdlerRun(Adler(1, 0), text);
    Join16(s.a, s.b)
  }

  function Sum(text: seq<byte>): nat {
    if text == [] then 0 else text[0] as nat + Sum(text[1..])
  }

  /** The low half of the checksum is the sum of the bytes. */
  lemma {:induction false} AdlerSum(s: Adler, text: seq<byte>)
    requires s.a < ADLER_BASE
    ensures AdlerRun(s, text).a == (s.a + Sum(text)) % ADLER_BASE
    decreases |text|
  {
    if text != [] {
      var n := AdlerStep(s, text[0]);
      AdlerSum(n, text[1..]);
      ModSum(s.a + text[0], Sum(text[1..]));
    }
  }

  /** Every byte counts once for itself and for each byte after it. */
  function Weighted(text: seq<byte>): nat {
    if text == [] then 0 else |text| * text[0] as nat + Weighted(text[1..])
  }

  /** The high half is the sum of the low halves after each byte: the first byte counts in all of them. */
  lemma {:induction false} AdlerWeighted(s: Adler, text: seq<byte>)
    requires s.a < ADLER_BASE && s.b < ADLER_BASE
    ensures AdlerRun(s, text).b == (s.b + |text| * s.a + Weighted(text)) % ADLER_BASE
    decreases |text|
  {
    if text != [] {
      hide AdlerStep;
      var t := AdlerStep(s, text[0]);
      StepWeight(s, text[0], |text|, Weighted(text[1..]));
      AdlerWeighted(t, text[1..]);
      Regrouped(s.b + |text| * s.a, |text| * text[0] as nat, Weighted(text[1..]));
    }
  }

  lemma Regrouped(x: nat, y: nat, z: nat)
    ensures (x + y + z) % ADLER_BASE == (x + (y + z)) % ADLER_BASE
  {
  }

  /** What one byte adds to the high half, once for itself and once for every byte after it. */
  lemma StepWeight(s: Adler, x: byte, n: nat, w: nat)
    requires n >= 1
    ensures var t := AdlerStep(s, x);
      && t.a < ADLER_BASE && t.b < ADLER_BASE
      && (t.b + (n - 1) * t.a + w) % ADLER_BASE == (s.b + n * s.a + n * x as nat + w) % ADLER_BASE
  {
    ModScaled(s.b, s.a + x, n, w);
    assert n * (s.a + x) == n * s.a + n * x;
  }

  lemma ModScaled(b: nat, z: nat, n: nat, w: nat)
    requires n >= 1
    ensures var a := z % ADLER_BASE; ((b + a) % ADLER_BASE + (n - 1) * a + w) % ADLER_BASE == (b + n * z + w) % ADLER_BASE
  {
    var a, q := z % ADLER_BASE, z / ADLER_BASE;
    var more := (n - 1) * a + w;
    Product(n, a);
    ModSum(b + a, more);
    assert z == a + ADLER_BASE * q;
    Distribute(n, a, q);
    ModShift(b + n * a + w, n * q);
  }

  lemma Product(n: nat, a: nat)
    requires n >= 1
    ensures (n - 1) * a >= 0 && (n - 1) * a + a == n * a
  {
  }

  lemma Distribute(n: nat, a: nat, q: nat)
    ensures n * (a + ADLER_BASE * q) == n * a + ADLER_BASE * (n * q) && n * a >= 0
  {
  }

  /** The checksum of a text, in closed form (section 2.2 of RFC 1950). */
  lemma AdlerValue(text: seq<byte>)
    ensures Adler32(text) == 65536 * ((|text| + Weighted(text)) % 65521) + (1 + Sum(text)) % 65521
  {
    AdlerWeighted(Adler(1, 0), text);
    AdlerSum(Adler(1, 0), text);
  }

  lemma ModSum(x: nat, y: nat)
    ensures (x % ADLER_BASE + y) % ADLER_BASE == (x + y) % ADLER_BASE
  {
    var q := x / ADLER_BASE;
    assert x + y == ADLER_BASE * q + (x % ADLER_BASE + y);
    ModShift(x % ADLER_BASE + y, q);
  }

  lemma {:induction false} ModShift(z: nat, q: nat)
    ensures (ADLER_BASE * q + z) % ADLER_BASE == z % ADLER_BASE
  {
    if q > 0 {
      ModShift(z, q - 1);
      assert ADLER_BASE * q + z == ADLER_BASE * (q - 1) + z + ADLER_BASE;
    }
  }

  lemma {:induction false} SumConcat(x: seq<byte>, y: seq<byte>)
    ensures Sum(x + y) == Sum(x) + Sum(y)
  {
    if x == [] {
      assert x + y == y;
    } else {
      SumConcat(x[1..], y);
      assert (x + y)[1..] == x[1..] + y;
    }
  }

  /** One changed byte always shows in the checksum. */
  lemma AdlerDetects(text: seq<byte>, i: nat, x: byte)
    requires i < |text| && x != text[i]
    ensures Adler32(text[i := x]) != Adler32(text)
  {
    hide AdlerRun;
    var before, after, changed := text[..i], text[i + 1..], text[i := x];
    assert text == before + ([text[i]] + after) && changed == before + ([x] + after);
    SumConcat(before, [text[i]] + after);
    SumConcat(before, [x] + after);
    SumConcat([text[i]], after);
    SumConcat([x], after);
    SumOne(x);
    SumOne(text[i]);
    AdlerSum(Adler(1, 0), text);
    AdlerSum(Adler(1, 0), changed);
    ModDiffers(1 + Sum(before) + Sum(after), x, text[i]);
    AdlerBound(Adler(1, 0), text);
    AdlerBound(Adler(1, 0), changed);
    var s, t := AdlerRun(Adler(1, 0), text), AdlerRun(Adler(1, 0), changed);
    JoinLow(s.a, s.b);
    JoinLow(t.a, t.b);
  }

  lemma SumOne(x: byte)
    ensures Sum([x]) == x
  {
    assert [x][1..] == [];
  }

  lemma JoinLow(a: nat, b: nat)
    requires a < 65536
    ensures Join16(a, b) % 65536 == a
  {
  }

  lemma ModDiffers(n: nat, x: byte, y: byte)
    requires x != y
    ensures (n + x) % ADLER_BASE != (n + y) % ADLER_BASE
  {
    var m := n % ADLER_BASE;
    ModSum(n, x);
    ModSum(n, y);
  }

  // ----- messages

  datatype Message = Message(msgSize: int32, msgID: int32, data: seq<byte>, checksum: uint32)

  const HEARTBEAT := 0

  function Checksum(msgID: int32, data: seq<byte>): uint32 {
    Adler32(Int32Bytes(msgID) + data)
  }

  function NewMessage(msgID: int32, data: seq<byte>): Message {
    Message(ToInt32(ToInt32(|data|) + 8), msgID, data, Checksum(msgID, data))
  }

  predicate Verify(m: Message) {
    m.checksum == Checksum(m.msgID, m.data)
  }

  /** What follows the size on the wire. */
  function Body(m: Message): seq<byte> {
    Int32Bytes(m.msgID) + m.data + ToLittleEndian(m.checksum, 4)
  }

  datatype Decoded = Decoded(message: Message) | Truncated | BadChecksum | Panicked

  /** The body of a message that verifies, of at most the length that 32 bits can hold. */
  function Parse(body: seq<byte>): Decoded {
    if |body| < 4 then Truncated
    else if |body| < 8 then Panicked
    else
      var n := |body| - 4;
      LittleEndianUnique(body[n..]);
      Pow256Of4();
      var m := Message(ToInt32(|body|), BytesInt32(body[..4]), body[4..n], LittleEndian(body[n..]));
      if Verify(m) then Decoded(m) else BadChecksum
  }

  /** A body is read back as the message it was made of; only the size may have been cut to 32 bits. */
  lemma BodyRoundTrip(m: Message)
    requires Verify(m)
    ensures Parse(Body(m)) == Decoded(m.(msgSize := ToInt32(|m.data| + 8)))
  {
    hide LittleEndian, ToLittleEndian, Checksum, Int32Bytes, BytesInt32, Pow256;
    Int32RoundTrip(m.msgID);
    Pow256Of4();
    LittleEndianRoundTrip(m.checksum, 4);
    var body, n := Body(m), |m.data| + 4;
    assert body[..4] == Int32Bytes(m.msgID) && body[4..n] == m.data && body[n..] == ToLittleEndian(m.checksum, 4);
  }

  /** Every body that differs from a genuine one in exactly one byte is rejected. */
  lemma Corruption(m: Message, i: nat, x: byte)
    requires Verify(m) && i < |Body(m)| && x != Body(m)[i]
    ensures Parse(Body(m)[i := x]) == BadChecksum
  {
    var body, n := Body(m), |m.data| + 4;
    var bad := body[i := x];
    hide Adler32, Pow256, ToLittleEndian, LittleEndian;
    Pow256Of4();
    LittleEndianRoundTrip(m.checksum, 4);
    LittleEndianUnique(bad[n..]);
    LittleEndianUnique(bad[..4]);
    assert body[..n] == Int32Bytes(m.msgID) + m.data && body[n..] == ToLittleEndian(m.checksum, 4);
    IdBytes(bad[..4]);
    assert Int32Bytes(BytesInt32(bad[..4])) + bad[4..n] == bad[..n];
    if i < n {
      AdlerDetects(body[..n], i, x);
      assert bad[..n] == body[..n][i := x] && bad[n..] == body[n..];
    } else {
      assert bad[..n] == body[..n];
      assert bad[n..][i - n] == x && body[n..][i - n] == body[i];
    }
  }

  lemma IdBytes(b: seq<byte>)
    requires |b| == 4
    ensures Int32Bytes(BytesInt32(b)) == b
  {
    Pow256Of4();
    LittleEndianUnique(b);
    hide LittleEndian, ToLittleEndian;
  }
}
