/** The writer that holds back the last four bytes of a compressed stream. */
module WebSocketTrunc {
  import opened Bytes

  /** How much of a stream of `n` bytes is held back. */
  function Held(n: nat): nat {
    if n < 4 then n else 4
  }

  /** What `Valid` means: the sink has all but the last four bytes, in order, and the buffer has exactly those. */
  lemma HeldBack(stream: seq<byte>, sink: seq<byte>, hold: seq<byte>)
    requires stream == sink + hold && |hold| == Held(|stream|)
    ensures var k := |stream| - Held(|stream|); sink == stream[..k] && hold == stream[k..]
  {
  }

  class TruncWriter {
    var sink: seq<byte>        // what the underlying writer has received
    var n: nat                 // bytes of `p` in use
    const p: array<byte>
    ghost var stream: seq<byte>  // everything written so far

    ghost predicate Valid()
      reads this, p
    {
      p.Length == 4 && n == Held(|stream|) && stream == sink + p[..n]
    }

    constructor ()
      ensures Valid() && fresh(p) && stream == []
    {
      sink, n, stream := [], 0, [];
      p := new byte[4];
    }

    /** Bytes first fill the buffer; from then on each new byte pushes out an old one. */
    method Write(b: seq<byte>)
      requires Valid()
      modifies this, p
      ensures Valid() && stream == old(stream) + b
    {
      var rest: seq<byte> := b;
      if n < p.Length {
        var k := if p.Length - n < |b| then p.Length - n else |b|;
        CopyInto(p, n, b[..k]);
        rest := b[k..];
        n := n + k;
        stream := stream + b[..k];
        assert sink + (old(p[..n]) + b[..k]) == stream;
        assert b[..k] + rest == b;
        if |rest| == 0 {
          return;
        }
      }
      assert stream + rest == old(stream) + b;
      Shift(rest);
    }

    /** The buffer is full: what it no longer holds goes to the sink, ahead of the new bytes. */
    method Shift(b: seq<byte>)
      requires Valid() && n == 4
      modifies this, p
      ensures Valid() && stream == old(stream) + b
    {
      var m := if |b| > p.Length then p.Length else |b|;
      ghost var hold := p[..];
      assert p[..4] == hold;
      sink := sink + p[..m];
      Slide(b[|b| - m..]);
      sink := sink + b[..|b| - m];
      stream := stream + b;
      assert b == b[..|b| - m] + b[|b| - m..];
      Regroup(old(sink), hold, m, b[..|b| - m], b[|b| - m..]);
    }

    /** Drops the oldest bytes of a full buffer to make room for `last`. */
    method Slide(last: seq<byte>)
      requires |last| <= 4 == p.Length
      modifies p
      ensures p[..4] == old(p[..])[|last|..] + last
    {
      var hold := p[..];
      CopyInto(p, 0, hold[|last|..]);
      CopyInto(p, p.Length - |last|, last);
    }
  }

  /** Either everything new is held, and only old bytes leave, or nothing old is held any longer. */
  lemma Regroup(sink: seq<byte>, hold: seq<byte>, m: nat, direct: seq<byte>, last: seq<byte>)
    requires m <= |hold| && (direct == [] || m == |hold|)
    ensures sink + hold + (direct + last) == sink + hold[..m] + direct + (hold[m..] + last)
  {
    assert hold == hold[..m] + hold[m..];
  }

  /** Any run of writes. */
  method WriteAll(w: TruncWriter, writes: seq<seq<byte>>)
    requires w.Valid()
    modifies w, w.p
    ensures w.Valid() && w.stream == old(w.stream) + Joined(writes)
  {
    var i := 0;
    assert writes[..0] == [];
    while i < |writes|
      invariant i <= |writes| && w.Valid() && w.stream == old(w.stream) + Joined(writes[..i])
    {
      w.Write(writes[i]);
      assert writes[..i + 1] == writes[..i] + [writes[i]];
      JoinedAppend(writes[..i], writes[i]);
      i := i + 1;
    }
    assert writes[..i] == writes;
  }
}
