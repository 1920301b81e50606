/** Stream and message buffers: a byte ring between one writer and one reader. */
module StreamBuffer {
  type Byte = x: int | 0 <= x < 256

  const LENGTH_BYTES := 4

  /** A ring index that has run past the end once. */
  function Wrapped(x: nat, len: nat): nat { if x >= len then x - len else x }

  /** Distance from tail to head: prvBytesInBuffer. */
  function Distance(tail: nat, head: nat, len: nat): nat
    requires tail < len && head < len
  {
    Wrapped(len + head - tail, len)
  }

  /** The first n bytes of a ring from index tail on. */
  function From(ring: seq<Byte>, tail: nat, n: nat): (s: seq<Byte>)
    requires tail < |ring| && n <= |ring|
    ensures |s| == n
  {
    seq(n, i requires 0 <= i < n => ring[Wrapped(tail + i, |ring|)])
  }

  /** The n bytes of a ring from at on become d, and nothing else changes. */
  ghost predicate Replaced(before: seq<Byte>, after: seq<Byte>, at: nat, d: seq<Byte>) {
    && |after| == |before| && at < |before| && |d| < |before|
    && (forall i :: 0 <= i < |d| ==> after[Wrapped(at + i, |before|)] == d[i])
    && forall j :: 0 <= j < |before| && Distance(at, j, |before|) >= |d| ==> after[j] == before[j]
  }

  /** Writing behind the unread bytes keeps them and extends them. */
  lemma WriteExtends(before: seq<Byte>, after: seq<Byte>, tail: nat, n: nat, d: seq<Byte>)
    requires tail < |before| && n + |d| < |before|
    requires Replaced(before, after, Wrapped(tail + n, |before|), d)
    ensures From(after, tail, n + |d|) == From(before, tail, n) + d
  {
    var len, at := |before|, Wrapped(tail + n, |before|);
    forall i | 0 <= i < n + |d|
      ensures From(after, tail, n + |d|)[i] == (From(before, tail, n) + d)[i]
    {
      if i < n {
        assert Distance(at, Wrapped(tail + i, len), len) >= |d|;
      } else {
        assert Wrapped(tail + i, len) == Wrapped(at + (i - n), len);
      }
    }
  }

  /** Reading k bytes leaves the others. */
  lemma ReadDrops(ring: seq<Byte>, tail: nat, n: nat, k: nat)
    requires tail < |ring| && k <= n < |ring|
    ensures From(ring, Wrapped(tail + k, |ring|), n - k) == From(ring, tail, n)[k..]
    ensures From(ring, tail, k) == From(ring, tail, n)[..k]
  {
    var next := Wrapped(tail + k, |ring|);
    forall i | 0 <= i < n - k
      ensures From(ring, next, n - k)[i] == From(ring, tail, n)[k..][i]
    {
      assert Wrapped(next + i, |ring|) == Wrapped(tail + (k + i), |ring|);
    }
  }

  /** The n bytes from tail on, as one or two pieces of the ring. */
  lemma Pieces(ring: seq<Byte>, tail: nat, n: nat)
    requires tail < |ring| && n <= |ring|
    ensures From(ring, tail, n) ==
              if n <= |ring| - tail then ring[tail..tail + n] else ring[tail..] + ring[..n - (|ring| - tail)]
  {
    var k := |ring| - tail;
    var s := if n <= k then ring[tail..tail + n] else ring[tail..] + ring[..n - k];
    forall i | 0 <= i < n
      ensures From(ring, tail, n)[i] == s[i]
    {
      assert s[i] == ring[Wrapped(tail + i, |ring|)];
    }
  }

  // ---- Messages --------------------------------------------------------------------------

  function Low(x: nat): Byte { x % 0x100 }

  /** A message length as the bytes of a 32-bit word in memory. */
  function LengthBytes(n: nat): (b: seq<Byte>)
    ensures |b| == LENGTH_BYTES
  {
    [Low(n), Low(n / 0x100), Low(n / 0x1_0000), Low(n / 0x100_0000)]
  }

  function LengthOf(b: seq<Byte>): nat
    requires |b| == LENGTH_BYTES
  {
    b[0] as int + 0x100 * (b[1] as int) + 0x1_0000 * (b[2] as int) + 0x100_0000 * (b[3] as int)
  }

  lemma LengthRoundTrip(n: nat)
    requires n < 0x1_0000_0000
    ensures LengthOf(LengthBytes(n)) == n
  {
    var a := n / 0x100;
    var b := a / 0x100;
    assert n / 0x1_0000 == b && n / 0x100_0000 == b / 0x100;
  }

  /** The bytes of messages, each behind its length. */
  function Encoded(msgs: seq<seq<Byte>>): seq<Byte> {
    if msgs == [] then [] else LengthBytes(|msgs[0]|) + msgs[0] + Encoded(msgs[1..])
  }

  lemma {:induction false} EncodedMore(msgs: seq<seq<Byte>>, m: seq<Byte>)
    ensures Encoded(msgs + [m]) == Encoded(msgs) + LengthBytes(|m|) + m
  {
    if msgs == [] {
      assert Encoded([m]) == LengthBytes(|m|) + m + Encoded([]);
    } else {
      EncodedMore(msgs[1..], m);
      assert (msgs + [m])[1..] == msgs[1..] + [m];
    }
  }

  ghost predicate Sound(msgs: seq<seq<Byte>>) {
    forall i :: 0 <= i < |msgs| ==> 0 < |msgs[i]| < 0x1_0000_0000
  }

  /** The first message, as its bytes show it. */
  lemma EncodedHead(msgs: seq<seq<Byte>>)
    requires Sound(msgs)
    ensures msgs == [] ==> Encoded(msgs) == []
    ensures msgs != [] ==>
              && |Encoded(msgs)| > LENGTH_BYTES && LengthOf(Encoded(msgs)[..LENGTH_BYTES]) == |msgs[0]|
              && |Encoded(msgs)| >= LENGTH_BYTES + |msgs[0]|
              && Encoded(msgs)[LENGTH_BYTES..][..|msgs[0]|] == msgs[0]
              && Encoded(msgs)[LENGTH_BYTES..][|msgs[0]|..] == Encoded(msgs[1..])
  {
    hide LengthOf, LengthBytes;
    if msgs != [] {
      var m := msgs[0];
      LengthRoundTrip(|m|);
      TakeApart(LengthBytes(|m|), m, Encoded(msgs[1..]));
    }
  }

  lemma TakeApart(a: seq<Byte>, m: seq<Byte>, r: seq<Byte>)
    ensures (a + m + r)[..|a|] == a
    ensures (a + m + r)[|a|..][..|m|] == m
    ensures (a + m + r)[|a|..][|m|..] == r
  {}

  class Buffer {
    const ring: array<Byte>
    const isMessages: bool
    var head: nat  // next byte to write; only the writer changes it
    var tail: nat  // next byte to read; only the reader changes it
    ghost var msgs: seq<seq<Byte>>

    ghost predicate Indexed()
      reads this
    {
      1 < ring.Length < 0x1_0000_0000 && head < ring.Length && tail < ring.Length
    }

    /** The unread bytes. */
    ghost function Contents(): seq<Byte>
      requires Indexed()
      reads this, ring
    {
      From(ring[..], tail, Distance(tail, head, ring.Length))
    }

    /** A message buffer holds whole messages, none of them empty. */
    ghost predicate Valid()
      reads this, ring
    {
      Indexed() && (isMessages ==> Sound(msgs) && Contents() == Encoded(msgs))
    }

    /** xStreamBufferGenericCreate: one byte more than asked for. */
    constructor (size: nat, isMessages: bool)
      requires (if isMessages then LENGTH_BYTES else 0) < size < 0xFFFF_FFFF
      ensures Valid() && Contents() == [] && msgs == [] && ring.Length == size + 1 && this.isMessages == isMessages
      ensures fresh(ring)
    {
      ring := new Byte[size + 1](i => 0);
      head, tail, msgs, this.isMessages := 0, 0, [], isMessages;
    }

    /** prvBytesInBuffer. */
    method BytesInBuffer() returns (n: nat)
      requires Indexed()
      ensures n == |Contents()|
    {
      n := ring.Length + head - tail;
      if n >= ring.Length {
        n := n - ring.Length;
      }
    }

    /** xStreamBufferSpacesAvailable: bytes and spaces add up to the length less one. */
    method SpacesAvailable() returns (n: nat)
      requires Indexed()
      ensures n + |Contents()| == ring.Length - 1
    {
      n := ring.Length + tail - head - 1;
      if n >= ring.Length {
        n := n - ring.Length;
      }
    }

    /** memcpy into the ring. */
    method CopyIn(at: nat, d: seq<Byte>)
      requires at + |d| <= ring.Length
      modifies ring
      ensures forall j :: 0 <= j < ring.Length ==> ring[j] == if at <= j < at + |d| then d[j - at] else old(ring[j])
    {
      var i := 0;
      while i < |d|
        invariant 0 <= i <= |d|
        invariant forall j :: 0 <= j < ring.Length ==> ring[j] == if at <= j < at + i then d[j - at] else old(ring[j])
      {
        ring[at + i] := d[i];
        i := i + 1;
      }
    }

    /** prvWriteBytesToBuffer: the bytes join the unread ones at their end. */
    method WriteBytes(d: seq<Byte>)
      requires Indexed() && 0 < |d| && |d| + |Contents()| < ring.Length
      modifies this`head, ring
      ensures Indexed() && Contents() == old(Contents()) + d
    {
      ghost var before, n := ring[..], |Contents()|;
      CopyWrapped(d);
      WriteExtends(before, ring[..], tail, n, d);
      head := Wrapped(head + |d|, ring.Length);
    }

    /** The two copies of a write that may run past the end of the ring. */
    method CopyWrapped(d: seq<Byte>)
      requires head < ring.Length && |d| < ring.Length
      modifies ring
      ensures Replaced(old(ring[..]), ring[..], head, d)
    {
      var first := if ring.Length - head < |d| then ring.Length - head else |d|;
      CopyIn(head, d[..first]);
      if |d| > first {
        CopyIn(0, d[first..]);
      }
    }

    /** prvReadBytesFromBuffer: the oldest bytes leave, up to the number asked for. */
    method ReadBytes(max: nat, available: nat) returns (d: seq<Byte>)
      requires Indexed() && available <= |Contents()|
      modifies this`tail
      ensures Indexed() && d + Contents() == old(Contents())
      ensures |d| == if available < max then available else max
    {
      var count := if available < max then available else max;
      ghost var n := |Contents()|;
      ReadDrops(ring[..], tail, n, count);
      d := [];
      if count > 0 {
        var first := if ring.Length - tail < count then ring.Length - tail else count;
        Pieces(ring[..], tail, count);
        d := ring[tail..tail + first];
        if count > first {
          d := d + ring[..count - first];
        }
        assert d == From(ring[..], tail, count);
        tail := Wrapped(tail + count, ring.Length);
      }
    }

    /**
    xStreamBufferSend without waiting: as many bytes as there is space for, or, in a message
    buffer, the whole message or nothing.
    */
    method Send(d: seq<Byte>) returns (n: nat)
      requires Valid() && 0 < |d| < 0x1_0000_0000
      modifies this`head, this`msgs, ring
      ensures Valid()
      ensures !isMessages ==>
                && n == (if |d| + |old(Contents())| < ring.Length then |d| else ring.Length - 1 - |old(Contents())|)
                && Contents() == old(Contents()) + d[..n] && msgs == old(msgs)
      ensures isMessages ==>
                if |d| + LENGTH_BYTES + |old(Contents())| < ring.Length then n == |d| && msgs == old(msgs) + [d]
                else n == 0 && msgs == old(msgs) && Contents() == old(Contents())
    {
      hide LengthBytes;
      var space := SpacesAvailable();
      n := 0;
      if space == 0 {
      } else if !isMessages {
        n := if |d| < space then |d| else space;
        WriteBytes(d[..n]);
      } else if space >= |d| + LENGTH_BYTES {
        EncodedMore(msgs, d);
        WriteBytes(LengthBytes(|d|));
        WriteBytes(d);
        n := |d|;
        msgs := msgs + [d];
      }
    }

    /**
    xStreamBufferReceive without waiting: up to max bytes, or, in a message buffer, the first
    message, which stays in place when it is longer than max.
    */
    method Receive(max: nat) returns (d: seq<Byte>)
      requires Valid()
      modifies this`tail, this`msgs
      ensures Valid()
      ensures !isMessages ==>
                && d + Contents() == old(Contents()) && msgs == old(msgs)
                && |d| == if |old(Contents())| < max then |old(Contents())| else max
      ensures isMessages ==>
                if old(msgs) != [] && |old(msgs)[0]| <= max then d == old(msgs)[0] && msgs == old(msgs)[1..]
                else d == [] && msgs == old(msgs) && tail == old(tail)
    {
      hide LengthOf, Encoded, From;
      d := [];
      var available := BytesInBuffer();
      if isMessages {
        EncodedHead(msgs);
        if available > LENGTH_BYTES {
          var original := tail;
          ghost var all := Contents();
          var l := ReadBytes(LENGTH_BYTES, available);
          assert l == all[..LENGTH_BYTES] && Contents() == all[LENGTH_BYTES..];
          var next := LengthOf(l);
          if next > max {
            tail := original;
          } else {
            ghost var rest := Contents();
            d := ReadBytes(next, available - LENGTH_BYTES);
            assert d == rest[..next] && Contents() == rest[next..];
            msgs := msgs[1..];
          }
        }
      } else if available > 0 {
        d := ReadBytes(max, available);
      }
    }
  }
}
