/**
Runs of calls on one event group by any number of tasks: nobody ever waits for bits that are
there, and a waiter stays until it is handed a value that meets its condition.
*/
module EventGroupRun {
  import opened EventGroups

  /** Calls by running tasks, the end of a block time, and a task that runs again after it had blocked. */
  datatype Op =
    | DoSet(more: Bits)
    | DoClear(gone: Bits)
    | DoWait(t: Task, waitFor: Bits, clear: bool, all: bool, wait: bool)
    | DoSync(t: Task, more: Bits, waitFor: Bits, wait: bool)
    | DoTimeOut(k: nat)
    | DoAfter(t: Task, waitFor: Bits, clear: bool, all: bool)

  /** Whether the caller blocks, and if not the value it gets. */
  datatype Reply = Reply(blocked: bool, value: Bits)

  predicate Blocked(ws: seq<Waiter>, t: Task) { exists i :: 0 <= i < |ws| && ws[i].task == t }

  predicate Enabled(s: Seen, op: Op) {
    match op
    case DoSet(_) => true
    case DoClear(_) => true
    case DoWait(t, waitFor, _, _, _) => waitFor != {} && t !in s.stored && !Blocked(s.waiting, t)
    case DoSync(t, _, waitFor, _) => waitFor != {} && t !in s.stored && !Blocked(s.waiting, t)
    case DoTimeOut(k) => k < |s.waiting|
    case DoAfter(t, _, _, _) => !Blocked(s.waiting, t)
  }

  /** The value b releases its waiters, and the bits they claim go, and those of gone. */
  ghost predicate Released(s: Seen, b: Bits, gone: Bits, t: Seen) {
    && t.stored == Handed(s.stored, s.waiting, b)
    && forall x :: x in t.bits <==> x in b && !Claimed(s.waiting, b, x) && x !in gone
  }

  ghost predicate Step(s: Seen, op: Op, r: Reply, t: Seen)
    requires Enabled(s, op)
  {
    match op
    case DoSet(more) => !r.blocked && Released(s, s.bits + more, {}, t) && t.waiting == Unmet(s.waiting, s.bits + more)
    case DoClear(gone) => r == Reply(false, s.bits) && t == s.(bits := s.bits - gone)
    case DoWait(t0, waitFor, clear, all, wait) =>
      if WaitMet(s.bits, waitFor, all) then
        r == Reply(false, s.bits) && t == s.(bits := if clear then s.bits - waitFor else s.bits)
      else if wait then r.blocked && t == s.(waiting := s.waiting + [Waiter(t0, waitFor, clear, all)])
      else r == Reply(false, s.bits) && t == s
    case DoSync(t0, more, waitFor, wait) =>
      var b := s.bits + more;
      && Released(s, b, if waitFor <= b then waitFor else {}, t)
      && t.waiting == Unmet(s.waiting, b) + (if r.blocked then [Waiter(t0, waitFor, true, true)] else [])
      && (r.blocked <==> !(waitFor <= b) && wait)
      && (!r.blocked ==> r.value == if waitFor <= b then b else t.bits)
    case DoTimeOut(k) => !r.blocked && t == s.(waiting := s.waiting[..k] + s.waiting[k + 1..])
    case DoAfter(t0, waitFor, clear, all) =>
      var late := t0 !in s.stored;
      && r == Reply(false, if late then s.bits else s.stored[t0])
      && t == s.(stored := s.stored - {t0},
                 bits := if late && WaitMet(s.bits, waitFor, all) && clear then s.bits - waitFor else s.bits)
  }

  method Perform(g: EventGroup, op: Op) returns (r: Reply)
    requires g.Valid() && Enabled(SeenOf(g), op)
    modifies g
    ensures g.Valid() && Step(old(SeenOf(g)), op, r, SeenOf(g))
  {
    hide Unmet, Handed, Claimed, NoneMet, WaitMet;
    var blocked, value, late := false, {}, false;
    match op {
      case DoSet(more) =>
        g.SetBits(more);
      case DoClear(gone) =>
        value := g.ClearBits(gone);
      case DoWait(t, waitFor, clear, all, wait) =>
        blocked, value := g.WaitBits(t, waitFor, clear, all, wait);
      case DoSync(t, more, waitFor, wait) =>
        blocked, value := g.Sync(t, more, waitFor, wait);
      case DoTimeOut(k) =>
        g.TimeOut(k);
      case DoAfter(t, waitFor, clear, all) =>
        late, value := g.AfterBlock(t, waitFor, clear, all);
    }
    r := Reply(blocked, value);
  }

  /** What holds of a group in every state: see EventGroup.Valid. */
  ghost predicate Fit(s: Seen) {
    && NoneMet(s.waiting, s.bits) && TasksDiffer(s.waiting)
    && forall i :: 0 <= i < |s.waiting| ==> s.waiting[i].task !in s.stored
  }

  /** The states and replies of a sequence of operations; those that are not enabled are passed over. */
  ghost predicate IsRun(trace: seq<Seen>, ops: seq<Op>, replies: seq<Reply>) {
    && |trace| == |ops| + 1 && |replies| == |ops| && (forall i :: 0 <= i < |trace| ==> Fit(trace[i]))
    && forall i :: 0 <= i < |ops| ==>
         if Enabled(trace[i], ops[i]) then Step(trace[i], ops[i], replies[i], trace[i + 1]) else trace[i + 1] == trace[i]
  }

  /** Every sequence of calls is a run, and in no state of it does a task wait for bits that are there. */
  method Run(g: EventGroup, ops: seq<Op>) returns (replies: seq<Reply>, ghost trace: seq<Seen>)
    requires g.Valid()
    modifies g
    ensures g.Valid() && IsRun(trace, ops, replies) && trace[0] == old(SeenOf(g)) && trace[|ops|] == SeenOf(g)
  {
    hide Step, Enabled;
    replies, trace := [], [SeenOf(g)];
    while |replies| < |ops|
      invariant g.Valid() && |replies| <= |ops| && |trace| == |replies| + 1
      invariant trace[0] == old(SeenOf(g)) && trace[|replies|] == SeenOf(g)
      invariant forall i :: 0 <= i < |trace| ==> Fit(trace[i])
      invariant forall i :: 0 <= i < |replies| ==>
                  if Enabled(trace[i], ops[i]) then Step(trace[i], ops[i], replies[i], trace[i + 1]) else trace[i + 1] == trace[i]
    {
      var r, n := Reply(false, {}), |replies|;
      if Enabled(Seen(g.bits, g.waiting, g.stored), ops[n]) {
        r := Perform(g, ops[n]);
      }
      replies, trace := replies + [r], trace + [SeenOf(g)];
    }
  }

  /**
  In every state of every run a task that waits for all of its bits misses one of them, and one
  that waits for any of them finds none.
  */
  lemma NobodyInVain(trace: seq<Seen>, ops: seq<Op>, replies: seq<Reply>, i: nat, w: Waiter)
    requires IsRun(trace, ops, replies) && i < |trace| && w in trace[i].waiting
    ensures if w.all then exists x :: x in w.bits && x !in trace[i].bits else forall x :: x in w.bits ==> x !in trace[i].bits
  {
    hide Step, Enabled;
    assert Fit(trace[i]);
    WaitMetIs(trace[i].bits, w.bits, w.all);
  }

  // ---- What becomes of a waiter ----------------------------------------------------------------

  /** The waiter still waits, or has been handed a value that meets its condition. */
  ghost predicate Served(s: Seen, w: Waiter) {
    w in s.waiting || (w.task in s.stored && Enough(s.stored[w.task], w.bits, w.all))
  }

  /** The operation neither ends the wait of w nor lets its task go on. */
  predicate Spares(s: Seen, op: Op, w: Waiter) {
    match op
    case DoTimeOut(k) => k < |s.waiting| ==> s.waiting[k] != w
    case DoAfter(t, _, _, _) => t != w.task
    case _ => true
  }

  lemma ReleasedServes(s: Seen, b: Bits, w: Waiter, ws: seq<Waiter>, stored: map<Task, Bits>)
    requires Fit(s) && Served(s, w) && ws == Unmet(s.waiting, b) && stored == Handed(s.stored, s.waiting, b)
    ensures w in ws || (w.task in stored && Enough(stored[w.task], w.bits, w.all))
  {
    WaitMetIs(b, w.bits, w.all);
    UnmetSays(s.waiting, b);
    HandedSays(s.stored, s.waiting, b);
  }

  lemma StepServes(s: Seen, op: Op, r: Reply, t: Seen, w: Waiter)
    requires Fit(s) && Served(s, w) && Enabled(s, op) && Step(s, op, r, t) && Spares(s, op, w)
    ensures Served(t, w)
  {
    hide Unmet, Handed, Claimed, NoneMet, WaitMet, TasksDiffer;
    match op
    case DoSet(more) => ReleasedServes(s, s.bits + more, w, t.waiting, t.stored);
    case DoSync(_, more, _, _) => ReleasedServes(s, s.bits + more, w, Unmet(s.waiting, s.bits + more), t.stored);
    case DoTimeOut(k) =>
      if w in s.waiting {
        var i :| 0 <= i < |s.waiting| && s.waiting[i] == w;
        assert i < k ==> t.waiting[i] == w;
        assert i > k ==> t.waiting[i - 1] == w;
      }
    case _ =>
  }

  /** In every run a waiter waits until it is handed a value that meets its condition, or its time ends. */
  lemma {:induction false} WaitsUntilServed(trace: seq<Seen>, ops: seq<Op>, replies: seq<Reply>, w: Waiter, i: nat, j: nat)
    requires IsRun(trace, ops, replies) && i <= j < |trace| && w in trace[i].waiting
    requires forall k :: i <= k < j ==> Spares(trace[k], ops[k], w)
    ensures Served(trace[j], w)
    decreases j
  {
    hide Fit, Enabled, Step, Spares;
    if i < j {
      WaitsUntilServed(trace, ops, replies, w, i, j - 1);
      if Enabled(trace[j - 1], ops[j - 1]) {
        StepServes(trace[j - 1], ops[j - 1], replies[j - 1], trace[j], w);
      }
    }
  }
}
