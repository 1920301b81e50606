/**
One writer and one reader of a stream buffer, interleaved byte by byte. Each side looks at the
other's index once, copies its bytes in any order, and then moves its own index.
*/
module StreamRace {
  import opened StreamBuffer

  /** A write in progress: the bytes that fit, and which of them are in the ring. */
  datatype Writer = NotWriting | Writing(data: seq<Byte>, done: set<nat>)

  /** A read in progress: how many bytes, and those that were copied out. */
  datatype Reader = NotReading | Reading(count: nat, got: map<nat, Byte>)

  datatype State = State(
    ring: seq<Byte>, head: nat, tail: nat, writer: Writer, reader: Reader,
    sent: seq<Byte>,       // history: bytes of finished writes
    received: seq<Byte>)   // history: bytes of finished reads

  datatype Step =
    | BeginWrite(data: seq<Byte>)
    | CopyIn(i: nat)
    | EndWrite
    | BeginRead(max: nat)
    | CopyOut(i: nat)
    | EndRead

  function Spaces(tail: nat, head: nat, len: nat): nat
    requires tail < len && head < len
  {
    Wrapped(len + tail - head - 1, len)
  }

  function Min(a: nat, b: nat): nat { if a < b then a else b }

  predicate Indexed(s: State) { s.tail < |s.ring| && s.head < |s.ring| }

  function Unread(s: State): seq<Byte>
    requires Indexed(s)
  {
    From(s.ring, s.tail, Distance(s.tail, s.head, |s.ring|))
  }

  predicate Enabled(s: State, e: Step) {
    && Indexed(s)
    && match e
       case BeginWrite(data) => s.writer.NotWriting? && data != []
       case CopyIn(i) => s.writer.Writing? && i < |s.writer.data| && i !in s.writer.done
       case EndWrite => s.writer.Writing? && forall i :: 0 <= i < |s.writer.data| ==> i in s.writer.done
       case BeginRead(_) => s.reader.NotReading?
       case CopyOut(i) => s.reader.Reading? && i < s.reader.count && i !in s.reader.got
       case EndRead => s.reader.Reading? && forall i :: 0 <= i < s.reader.count ==> i in s.reader.got
  }

  function Next(s: State, e: Step): State
    requires Enabled(s, e)
  {
    var len := |s.ring|;
    match e
    case BeginWrite(data) =>
      var n := Min(|data|, Spaces(s.tail, s.head, len));
      if n == 0 then s else s.(writer := Writing(data[..n], {}))
    case CopyIn(i) =>
      var at := Wrapped(s.head + i, len);
      if at < len then s.(ring := s.ring[at := s.writer.data[i]], writer := s.writer.(done := s.writer.done + {i})) else s
    case EndWrite =>
      s.(head := Wrapped(s.head + |s.writer.data|, len), sent := s.sent + s.writer.data, writer := NotWriting)
    case BeginRead(max) =>
      var n := Min(max, Distance(s.tail, s.head, len));
      if n == 0 then s else s.(reader := Reading(n, map[]))
    case CopyOut(i) =>
      var at := Wrapped(s.tail + i, len);
      if at < len then s.(reader := s.reader.(got := s.reader.got[i := s.ring[at]])) else s
    case EndRead =>
      var d := seq(s.reader.count, i requires 0 <= i < s.reader.count => s.reader.got[i]);
      s.(tail := Wrapped(s.tail + s.reader.count, len), received := s.received + d, reader := NotReading)
  }

  /** An empty buffer that nobody uses. */
  predicate Initial(s: State) {
    |s.ring| > 1 && s.head == s.tail < |s.ring| && s.writer.NotWriting? && s.reader.NotReading? && s.sent == s.received
  }

  /** The bytes written so far lie behind the unread ones, where there is space for all of them. */
  ghost predicate WriterOk(s: State)
    requires Indexed(s)
  {
    s.writer.Writing? ==>
      && 0 < |s.writer.data| && |s.writer.data| + |Unread(s)| < |s.ring|
      && forall i :: i in s.writer.done ==> i < |s.writer.data| && s.ring[Wrapped(s.head + i, |s.ring|)] == s.writer.data[i]
  }

  /** The bytes read so far are the oldest unread ones. */
  ghost predicate ReaderOk(s: State)
    requires Indexed(s)
  {
    s.reader.Reading? ==>
      && 0 < s.reader.count <= |Unread(s)|
      && forall i :: i in s.reader.got ==> i < s.reader.count && s.reader.got[i] == Unread(s)[i]
  }

  /** What was sent is what was received and what is unread, in this order. */
  ghost predicate Inv(s: State) {
    && |s.ring| > 1 && Indexed(s)
    && WriterOk(s) && ReaderOk(s)
    && s.sent == s.received + Unread(s)
  }

  /** Storing a byte behind the unread ones changes none of them. */
  lemma StoreBehind(ring: seq<Byte>, tail: nat, head: nat, i: nat, x: Byte)
    requires tail < |ring| && head < |ring| && Distance(tail, head, |ring|) + i < |ring|
    ensures var n := Distance(tail, head, |ring|);
            From(ring[Wrapped(head + i, |ring|) := x], tail, n) == From(ring, tail, n)
  {
    var n, at := Distance(tail, head, |ring|), Wrapped(head + i, |ring|);
    forall k | 0 <= k < n
      ensures From(ring[at := x], tail, n)[k] == From(ring, tail, n)[k]
    {
      assert Wrapped(tail + k, |ring|) != at;
    }
  }

  lemma CopyInKeeps(s: State, i: nat)
    requires Inv(s) && Enabled(s, CopyIn(i))
    ensures Inv(Next(s, CopyIn(i)))
  {
    var t := Next(s, CopyIn(i));
    var d, done, len := s.writer.data, s.writer.done, |s.ring|;
    StoreBehind(s.ring, s.tail, s.head, i, d[i]);
    assert Unread(t) == Unread(s);
    forall k | k in t.writer.done
      ensures k < |d| && t.ring[Wrapped(s.head + k, len)] == d[k]
    {
      assert k != i ==> Wrapped(s.head + k, len) != Wrapped(s.head + i, len);
    }
  }

  lemma EndWriteKeeps(s: State)
    requires Inv(s) && Enabled(s, EndWrite)
    ensures Inv(Next(s, EndWrite))
  {
    var t, d, n := Next(s, EndWrite), s.writer.data, |Unread(s)|;
    assert Replaced(s.ring, s.ring, s.head, d);
    WriteExtends(s.ring, s.ring, s.tail, n, d);
    assert Unread(t) == Unread(s) + d;
  }

  lemma EndReadKeeps(s: State)
    requires Inv(s) && Enabled(s, EndRead)
    ensures Inv(Next(s, EndRead))
  {
    var t, k, n := Next(s, EndRead), s.reader.count, |Unread(s)|;
    ReadDrops(s.ring, s.tail, n, k);
    assert Unread(t) == Unread(s)[k..];
    var d := seq(k, i requires 0 <= i < k => s.reader.got[i]);
    assert d == Unread(s)[..k];
    assert Unread(s)[..k] + Unread(s)[k..] == Unread(s);
  }

  /** Every step of either side keeps the invariant. */
  lemma StepKeeps(s: State, e: Step)
    requires Inv(s) && Enabled(s, e)
    ensures Inv(Next(s, e))
  {
    match e
    case BeginWrite(data) =>
    case CopyIn(i) => CopyInKeeps(s, i);
    case EndWrite => EndWriteKeeps(s);
    case BeginRead(max) =>
    case CopyOut(i) =>
      var t := Next(s, e);
      assert t.reader.got[i] == Unread(s)[i];
      assert Unread(t) == Unread(s);
    case EndRead => EndReadKeeps(s);
  }

  /** The states of a run, one per step, each step enabled where it is taken. */
  ghost predicate IsRun(states: seq<State>, steps: seq<Step>) {
    && |states| == |steps| + 1
    && Initial(states[0])
    && forall i :: 0 <= i < |steps| ==> Enabled(states[i], steps[i]) && states[i + 1] == Next(states[i], steps[i])
  }

  lemma {:induction false} RunKeeps(states: seq<State>, steps: seq<Step>, k: nat)
    requires IsRun(states, steps) && k < |states|
    ensures Inv(states[k])
  {
    if k == 0 {
      assert Unread(states[0]) == [];
    } else {
      RunKeeps(states, steps, k - 1);
      StepKeeps(states[k - 1], steps[k - 1]);
    }
  }

  /**
  In every interleaving, at every point: bytes come out in the order they went in, what has
  not come out yet is still in the ring, and bytes and spaces add up to the length less one.
  */
  lemma FifoOrder(states: seq<State>, steps: seq<Step>, k: nat)
    requires IsRun(states, steps) && k < |states|
    ensures var s := states[k];
            && Indexed(s)
            && s.received <= s.sent
            && s.sent[|s.received|..] == Unread(s)
            && |Unread(s)| + Spaces(s.tail, s.head, |s.ring|) == |s.ring| - 1
  {
    RunKeeps(states, steps, k);
  }

  // ---- What one call transfers -------------------------------------------------------------

  /** Bytes for which there is space. */
  function Room(s: State): int
    requires Indexed(s)
  {
    |s.ring| - 1 - |Unread(s)|
  }

  lemma {:induction false} WriteGoesOn(states: seq<State>, steps: seq<Step>, i: nat, j: nat, data: seq<Byte>)
    requires IsRun(states, steps) && i < j < |states| && steps[i] == BeginWrite(data)
    requires forall k :: i < k < j ==> !steps[k].BeginWrite? && !steps[k].EndWrite?
    ensures Indexed(states[i]) && 0 <= Room(states[i])
    ensures var n := Min(|data|, Room(states[i]));
            if n == 0 then states[j].writer == NotWriting else states[j].writer.Writing? && states[j].writer.data == data[..n]
    decreases j
  {
    FifoOrder(states, steps, i);
    if j > i + 1 {
      WriteGoesOn(states, steps, i, j - 1, data);
      assert Enabled(states[j - 1], steps[j - 1]);
    }
  }

  /** A write sends the first bytes of what it is given, as many as there was space for when it began. */
  lemma WriteSends(states: seq<State>, steps: seq<Step>, i: nat, j: nat, data: seq<Byte>)
    requires IsRun(states, steps) && i < j < |steps| && steps[i] == BeginWrite(data) && steps[j] == EndWrite
    requires forall k :: i < k < j ==> !steps[k].BeginWrite? && !steps[k].EndWrite?
    ensures Indexed(states[i]) && 0 < Room(states[i])
    ensures states[j + 1].sent == states[j].sent + data[..Min(|data|, Room(states[i]))]
  {
    WriteGoesOn(states, steps, i, j, data);
  }

  lemma {:induction false} ReadGoesOn(states: seq<State>, steps: seq<Step>, i: nat, j: nat, max: nat)
    requires IsRun(states, steps) && i < j < |states| && steps[i] == BeginRead(max)
    requires forall k :: i < k < j ==> !steps[k].BeginRead? && !steps[k].EndRead?
    ensures Indexed(states[i])
    ensures var n := Min(max, |Unread(states[i])|);
            if n == 0 then states[j].reader == NotReading else states[j].reader.Reading? && states[j].reader.count == n
    decreases j
  {
    FifoOrder(states, steps, i);
    if j > i + 1 {
      ReadGoesOn(states, steps, i, j - 1, max);
      assert Enabled(states[j - 1], steps[j - 1]);
    }
  }

  /** A read receives the oldest unread bytes, at most max and as many as there were when it began. */
  lemma ReadReceives(states: seq<State>, steps: seq<Step>, i: nat, j: nat, max: nat)
    requires IsRun(states, steps) && i < j < |steps| && steps[i] == BeginRead(max) && steps[j] == EndRead
    requires forall k :: i < k < j ==> !steps[k].BeginRead? && !steps[k].EndRead?
    ensures Indexed(states[i]) && Indexed(states[j])
    ensures var n := Min(max, |Unread(states[i])|);
            n <= |Unread(states[j])| && states[j + 1].received == states[j].received + Unread(states[j])[..n]
  {
    ReadGoesOn(states, steps, i, j, max);
    RunKeeps(states, steps, j);
    var s := states[j];
    assert Enabled(s, steps[j]) && ReaderOk(s);
    var d := seq(s.reader.count, i requires 0 <= i < s.reader.count => s.reader.got[i]);
    assert d == Unread(s)[..s.reader.count];
  }
}
