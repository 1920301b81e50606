/**
The items behind the counter of QueueProtocol: what has been sent and what has been received
in a run of tasks and interrupts on one queue.
*/
module QueueHistory {
  import opened Optional
  import opened TaskLists
  import opened QueueProtocol

  type Item = int

  /** The items that wait in the queue, and those that went in and came out, each in their order. */
  datatype Hist = Hist(items: seq<Item>, sent: seq<Item>, received: seq<Item>)

  /** What a step would send, and whether to the front. */
  datatype Data = Data(x: Item, front: bool)

  /** Whether a step tries to send, and if so whether it overwrites. */
  function Sending(s: Sys, a: Step): Option<bool> {
    match a
    case Attempt(t, _) => if t in s.pc && s.pc[t].Trying? && s.pc[t].k.Send? then Some(s.pc[t].k.overwrite) else None
    case IsrSend(over) => Some(over)
    case _ => None
  }

  predicate Receiving(s: Sys, a: Step) {
    match a
    case Attempt(t, _) => t in s.pc && s.pc[t] == Trying(Receive)
    case IsrReceive => true
    case _ => false
  }

  /** An item joins the others at the back or, before all that wait, at the front. */
  function Joined(h: Hist, d: Data): Hist {
    if d.front then
      var k := Min(|h.received|, |h.sent|);
      h.(items := [d.x] + h.items, sent := h.sent[..k] + [d.x] + h.sent[k..])
    else h.(items := h.items + [d.x], sent := h.sent + [d.x])
  }

  function Min(a: nat, b: nat): nat { if a < b then a else b }

  /** The item in a queue of one is replaced: it is as if the new one had been sent in its place. */
  function Replaced(h: Hist, d: Data): Hist
    requires h.items != []
  {
    h.(items := h.items[..|h.items| - 1] + [d.x], sent := h.sent[..if |h.sent| > 0 then |h.sent| - 1 else 0] + [d.x])
  }

  /** What a step does with the items, in terms of the items alone. */
  function After(s: Sys, h: Hist, a: Step, d: Data): Hist {
    match Sending(s, a)
    case Some(over) =>
      if over && h.items != [] then Replaced(h, d)
      else if |h.items| < s.length then Joined(h, if over then d.(front := false) else d)
      else h
    case None =>
      if Receiving(s, a) && h.items != [] then h.(items := h.items[1..], received := h.received + [h.items[0]])
      else if a.Reset? then h.(items := [], sent := h.sent[..Min(|h.received|, |h.sent|)])
      else h
  }

  /** Overwriting is for queues of length one. */
  predicate OverwritesOne(s: Sys) {
    s.length > 0 && forall t :: t in s.pc && Overwrites(s.pc[t]) ==> s.length == 1
  }

  predicate Overwrites(p: Pc) { p != Outside && p.k == Send(true) }

  /** What was sent is what was received and then what waits; the counter counts what waits, for which there is room. */
  ghost predicate Accounted(s: Sys, h: Hist) {
    h.sent == h.received + h.items && s.n == |h.items| <= s.length && OverwritesOne(s)
  }

  lemma WakesKeep(s: Sys, k: int)
    ensures WakeReceivers(s, k).(recvList := [], recvWoken := {}) == s.(recvList := [], recvWoken := {})
    ensures WakeSenders(s, k).(sendList := [], sendWoken := {}) == s.(sendList := [], sendWoken := {})
    decreases k
  {
    if k > 0 {
      WakesKeep(WakeReceiver(s), k - 1);
      WakesKeep(WakeSender(s), k - 1);
    }
  }

  lemma StepAccounts(s: Sys, h: Hist, a: Step, d: Data)
    requires Accounted(s, h) && Enabled(s, a)
    ensures Accounted(Apply(s, a), After(s, h, a, d))
  {
    StepItems(s, h, a, d);
    StepOverwrites(s, a);
  }

  lemma AttemptItems(s: Sys, h: Hist, a: Step, d: Data)
    requires Accounted(s, h) && Enabled(s, a) && a.Attempt?
    ensures var g, u := After(s, h, a, d), Apply(s, a);
            g.sent == g.received + g.items && u.n == |g.items| <= u.length == s.length
  {
    hide OverwritesOne;
    SendItems(h, d);
    LengthOne(s, a.t);
  }

  lemma InterruptItems(s: Sys, h: Hist, a: Step, d: Data)
    requires Accounted(s, h) && Enabled(s, a) && (a.IsrSend? || a.IsrReceive?)
    ensures var g, u := After(s, h, a, d), Apply(s, a);
            g.sent == g.received + g.items && u.n == |g.items| <= u.length == s.length
  {
    hide OverwritesOne;
    SendItems(h, d);
  }

  lemma DrainItems(s: Sys, h: Hist, a: Step, d: Data)
    requires Accounted(s, h) && Enabled(s, a) && (a.DrainTx? || a.DrainRx?)
    ensures var g, u := After(s, h, a, d), Apply(s, a);
            g.sent == g.received + g.items && u.n == |g.items| <= u.length == s.length
  {
    WakesKeep(s, s.txLock);
    WakesKeep(s, s.rxLock);
  }

  /** Items that are sent keep their account. */
  lemma SendItems(h: Hist, d: Data)
    requires h.sent == h.received + h.items
    ensures var g := Joined(h, d); g.sent == g.received + g.items && |g.items| == |h.items| + 1
    ensures h.items != [] ==> var g := Replaced(h, d); g.sent == g.received + g.items && |g.items| == |h.items|
  {}

  lemma LengthOne(s: Sys, t: Task)
    requires OverwritesOne(s)
    ensures t in s.pc && s.pc[t] == Trying(Send(true)) ==> s.length == 1
  {}

  lemma StepItems(s: Sys, h: Hist, a: Step, d: Data)
    requires Accounted(s, h) && Enabled(s, a)
    ensures var g, u := After(s, h, a, d), Apply(s, a);
            g.sent == g.received + g.items && u.n == |g.items| <= u.length == s.length
  {
    if a.Attempt? {
      AttemptItems(s, h, a, d);
    } else if a.IsrSend? || a.IsrReceive? {
      InterruptItems(s, h, a, d);
    } else if a.DrainTx? || a.DrainRx? {
      DrainItems(s, h, a, d);
    }
  }

  lemma StepOverwrites(s: Sys, a: Step)
    requires OverwritesOne(s) && Enabled(s, a)
    ensures OverwritesOne(Apply(s, a))
  {
    hide OverwritesOne, Apply, Enabled;
    if a.DrainTx? || a.DrainRx? {
      DrainOverwrites(s, a);
    } else if a.IsrSend? || a.IsrReceive? || a.TimeOut? || a.Reset? {
      OtherOverwrites(s, a);
    } else {
      TaskOverwrites(s, a);
    }
  }

  lemma DrainOverwrites(s: Sys, a: Step)
    requires OverwritesOne(s) && Enabled(s, a) && (a.DrainTx? || a.DrainRx?)
    ensures OverwritesOne(Apply(s, a))
  {
    WakesKeep(s, s.txLock);
    WakesKeep(s, s.rxLock);
  }

  lemma OtherOverwrites(s: Sys, a: Step)
    requires OverwritesOne(s) && Enabled(s, a) && (a.IsrSend? || a.IsrReceive? || a.TimeOut? || a.Reset?)
    ensures OverwritesOne(Apply(s, a))
  {}

  lemma TaskOverwrites(s: Sys, a: Step)
    requires OverwritesOne(s) && Enabled(s, a)
    requires a.Call? || a.Attempt? || a.Lock? || a.Check? || a.Block? || a.ResumeAll? || a.LookAgain?
    ensures OverwritesOne(Apply(s, a))
  {}

  /** A run from a fresh queue, with any resets. */
  ghost predicate IsCourse(run: seq<Sys>, steps: seq<Step>) {
    && |run| == |steps| + 1 && Fresh(run[0])
    && forall i :: 0 <= i < |steps| ==> Enabled(run[i], steps[i]) && run[i + 1] == Apply(run[i], steps[i])
  }

  /** The items of a run whose steps carry the given data. */
  ghost predicate IsHistory(run: seq<Sys>, steps: seq<Step>, data: seq<Data>, hist: seq<Hist>) {
    && IsCourse(run, steps) && |data| == |steps| && |hist| == |run| && hist[0] == Hist([], [], [])
    && forall i :: 0 <= i < |steps| ==> hist[i + 1] == After(run[i], hist[i], steps[i], data[i])
  }

  /** No item is lost, doubled or out of order in any run, whatever is locked and whoever waits. */
  lemma {:induction false} EveryItem(run: seq<Sys>, steps: seq<Step>, data: seq<Data>, hist: seq<Hist>, i: nat)
    requires IsHistory(run, steps, data, hist) && i < |run|
    ensures Accounted(run[i], hist[i])
  {
    hide Enabled, Apply, After;
    if i > 0 {
      EveryItem(run, steps, data, hist, i - 1);
      StepAccounts(run[i - 1], hist[i - 1], steps[i - 1], data[i - 1]);
    }
  }

  /** What a call comes to at its first look at the queue: done, to be repeated after a wait, or failed. */
  lemma AttemptTells(s: Sys, h: Hist, t: Task, wait: bool)
    requires Accounted(s, h) && Enabled(s, Attempt(t, wait))
    ensures var k := s.pc[t].k;
            var done := if k.Send? then |h.items| < s.length || k.overwrite else h.items != [];
            t in Apply(s, Attempt(t, wait)).pc && Apply(s, Attempt(t, wait)).pc[t] == if done || !wait then Outside else Refused(k)
  {}

  /** Under the lock: a call blocks exactly when its time is not over and it still has nothing to do. */
  lemma CheckTells(s: Sys, h: Hist, t: Task, expired: bool)
    requires Accounted(s, h) && Enabled(s, Check(t, expired))
    ensures var k := s.pc[t].k;
            var vain := if k.Send? then |h.items| == s.length else h.items == [];
            && t in Apply(s, Check(t, expired)).pc
            && Apply(s, Check(t, expired)).pc[t] == if !expired && vain then MustBlock(k) else UnlockTx(k, expired)
  {}

  /** A call that blocks waits in the list for what it wants, and in no other. */
  lemma BlockTells(s: Sys, t: Task, pos: nat)
    requires Enabled(s, Block(t, pos))
    ensures var u := Apply(s, Block(t, pos));
            && (forall x :: x in u.sendList <==> x in s.sendList || (x == t && s.pc[t].k.Send?))
            && (forall x :: x in u.recvList <==> x in s.recvList || (x == t && !s.pc[t].k.Send?))
  {}

  /** When its time is over a send fails, and a receive or peek looks once more. */
  lemma LookTells(s: Sys, h: Hist, t: Task)
    requires Accounted(s, h) && Enabled(s, LookAgain(t))
    ensures var k := s.pc[t].k;
            && t in Apply(s, LookAgain(t)).pc
            && Apply(s, LookAgain(t)).pc[t] == if k.Send? || h.items == [] then Outside else Trying(k)
  {}
}
