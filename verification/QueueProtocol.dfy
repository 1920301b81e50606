/**
The blocking protocol of a queue: tasks that send, receive and peek, interrupts that send
and receive, the two lock counters and the two event lists. Every critical section is one
step; while a task has the scheduler suspended only that task and interrupts take steps.
*/
module QueueProtocol {
  import opened Optional
  import opened TaskLists

  datatype Kind = Receive | Peek | Send(overwrite: bool)

  /** Where a task is in xQueueReceive, xQueuePeek or xQueueGenericSend. */
  datatype Pc =
    | Outside
    | Trying(k: Kind)                   // about to run the first critical section of the loop
    | Refused(k: Kind)                  // nothing to be had, and it may block
    | Locked(k: Kind)                   // scheduler suspended and queue locked
    | MustBlock(k: Kind)                // has seen the queue empty (or full) under the lock
    | UnlockTx(k: Kind, expired: bool)
    | UnlockRx(k: Kind, expired: bool)
    | Resuming(k: Kind, expired: bool)
    | Expired(k: Kind)                  // timed out, looks at the queue once more

  const UNLOCKED := -1
  const INT8_MAX := 127

  /**
  recvWoken and sendWoken are the tasks that an event has taken off an event list and that
  have not looked at the queue since.
  */
  datatype Sys = Sys(
    length: nat,
    n: nat,                // uxMessagesWaiting
    rxLock: int,
    txLock: int,
    recvList: seq<Task>,   // xTasksWaitingToReceive
    sendList: seq<Task>,   // xTasksWaitingToSend
    pc: map<Task, Pc>,
    recvWoken: set<Task>,
    sendWoken: set<Task>,
    owner: Option<Task>)   // the task that has suspended the scheduler

  datatype Step =
    | Call(t: Task, k: Kind)
    | Attempt(t: Task, wait: bool)
    | Lock(t: Task)
    | Check(t: Task, expired: bool)
    | Block(t: Task, pos: nat)
    | DrainTx(t: Task)
    | DrainRx(t: Task)
    | ResumeAll(t: Task)
    | LookAgain(t: Task)
    | TimeOut(t: Task)
    | IsrSend(overwrite: bool)
    | IsrReceive
    | Reset(t: Task)

  // ---- Pieces of the critical sections ---------------------------------------------------

  /** xTaskRemoveFromEventList on the receivers, if there are any. */
  function WakeReceiver(s: Sys): Sys {
    if s.recvList == [] then s
    else s.(recvList := s.recvList[1..], recvWoken := s.recvWoken + {s.recvList[0]})
  }

  function WakeSender(s: Sys): Sys {
    if s.sendList == [] then s
    else s.(sendList := s.sendList[1..], sendWoken := s.sendWoken + {s.sendList[0]})
  }

  /** The first loop of prvUnlockQueue: one receiver for each item sent while locked. */
  function WakeReceivers(s: Sys, k: int): Sys
    decreases k
  {
    if k <= 0 || s.recvList == [] then s else WakeReceivers(WakeReceiver(s), k - 1)
  }

  function WakeSenders(s: Sys, k: int): Sys
    decreases k
  {
    if k <= 0 || s.sendList == [] then s else WakeSenders(WakeSender(s), k - 1)
  }

  /** prvCopyDataToQueue, as far as the number of items goes. */
  function Stored(n: nat, overwrite: bool): nat {
    if overwrite && n > 0 then n else n + 1
  }

  predicate IsSend(k: Kind) { k.Send? }

  /** Task t has looked at the queue and goes on to p; n items are left. */
  function Tried(s: Sys, t: Task, p: Pc, n: nat): Sys {
    s.(recvWoken := s.recvWoken - {t}, sendWoken := s.sendWoken - {t}, pc := s.pc[t := p], n := n)
  }

  /** The first critical section of the loop. */
  function Attempted(s: Sys, t: Task, k: Kind, wait: bool): Sys {
    var failed := Tried(s, t, if wait then Refused(k) else Outside, s.n);
    match k
    case Receive => if s.n > 0 then WakeSender(Tried(s, t, Outside, s.n - 1)) else failed
    case Peek => if s.n > 0 then WakeReceiver(Tried(s, t, Outside, s.n)) else failed
    case Send(over) => if CanSend(s, over) then WakeReceiver(Tried(s, t, Outside, Stored(s.n, over))) else failed
  }

  /** Nothing to receive, or no room to send. */
  predicate Nothing(s: Sys, k: Kind) {
    if IsSend(k) then s.n == s.length else s.n == 0
  }

  // ---- The steps ------------------------------------------------------------------------

  /** A task can run: no other task has suspended the scheduler, and it is not blocked. */
  predicate Running(s: Sys, t: Task) {
    t in s.pc && s.owner == None && t !in s.recvList && t !in s.sendList
  }

  predicate Enabled(s: Sys, a: Step) {
    match a
    case Call(t, k) => Running(s, t) && s.pc[t] == Outside && (k == Send(true) ==> s.length == 1)
    case Attempt(t, wait) => Running(s, t) && s.pc[t].Trying?
    case Lock(t) => Running(s, t) && s.pc[t].Refused?
    case Check(t, expired) => s.owner == Some(t) && t in s.pc && s.pc[t].Locked?
    case Block(t, pos) =>
      && s.owner == Some(t) && t in s.pc && s.pc[t].MustBlock?
      && pos <= if IsSend(s.pc[t].k) then |s.sendList| else |s.recvList|
    case DrainTx(t) => s.owner == Some(t) && t in s.pc && s.pc[t].UnlockTx?
    case DrainRx(t) => s.owner == Some(t) && t in s.pc && s.pc[t].UnlockRx?
    case ResumeAll(t) => s.owner == Some(t) && t in s.pc && s.pc[t].Resuming?
    case LookAgain(t) => Running(s, t) && s.pc[t].Expired?
    case TimeOut(t) => t in s.recvList || t in s.sendList
    case IsrSend(over) => (over ==> s.length == 1) && (CanSend(s, over) ==> s.txLock < INT8_MAX)
    case IsrReceive => s.n > 0 ==> s.rxLock < INT8_MAX
    case Reset(t) => Running(s, t) && s.pc[t] == Outside
  }

  predicate CanSend(s: Sys, over: bool) { s.n < s.length || over }

  function Apply(s: Sys, a: Step): Sys
    requires Enabled(s, a)
  {
    match a
    case Call(t, k) => s.(pc := s.pc[t := Trying(k)])
    case Attempt(t, wait) => Attempted(s, t, s.pc[t].k, wait)
    case Lock(t) =>
      s.(owner := Some(t), pc := s.pc[t := Locked(s.pc[t].k)],
         rxLock := if s.rxLock == UNLOCKED then 0 else s.rxLock,
         txLock := if s.txLock == UNLOCKED then 0 else s.txLock)
    case Check(t, expired) =>
      var k := s.pc[t].k;
      s.(pc := s.pc[t := if !expired && Nothing(s, k) then MustBlock(k) else UnlockTx(k, expired)])
    case Block(t, pos) =>
      var k := s.pc[t].k;
      var u := s.(pc := s.pc[t := UnlockTx(k, false)]);
      if IsSend(k) then u.(sendList := s.sendList[..pos] + [t] + s.sendList[pos..])
      else u.(recvList := s.recvList[..pos] + [t] + s.recvList[pos..])
    case DrainTx(t) =>
      WakeReceivers(s, s.txLock).(txLock := UNLOCKED, pc := s.pc[t := UnlockRx(s.pc[t].k, s.pc[t].expired)])
    case DrainRx(t) =>
      WakeSenders(s, s.rxLock).(rxLock := UNLOCKED, pc := s.pc[t := Resuming(s.pc[t].k, s.pc[t].expired)])
    case ResumeAll(t) =>
      var k := s.pc[t].k;
      s.(owner := None, pc := s.pc[t := if s.pc[t].expired then Expired(k) else Trying(k)])
    case LookAgain(t) =>
      var k := s.pc[t].k;
      s.(pc := s.pc[t := if IsSend(k) || s.n == 0 then Outside else Trying(k)])
    case TimeOut(t) => s.(recvList := Without(s.recvList, t), sendList := Without(s.sendList, t))
    case IsrSend(over) =>
      if !CanSend(s, over) then s
      else if s.txLock == UNLOCKED then WakeReceiver(s.(n := Stored(s.n, over)))
      else s.(n := Stored(s.n, over), txLock := s.txLock + 1)
    case IsrReceive =>
      if s.n == 0 then s
      else if s.rxLock == UNLOCKED then WakeSender(s.(n := s.n - 1))
      else s.(n := s.n - 1, rxLock := s.rxLock + 1)
    case Reset(t) => WakeSender(s.(n := 0, rxLock := UNLOCKED, txLock := UNLOCKED))
  }

  // ---- The invariant ---------------------------------------------------------------------

  function Max(a: int, b: int): int { if a < b then b else a }

  /** The owner has seen an empty queue and is about to wait for an item. */
  predicate MustWaitToReceive(s: Sys) {
    s.owner.Some? && s.owner.value in s.pc && s.pc[s.owner.value].MustBlock? && !IsSend(s.pc[s.owner.value].k)
  }

  predicate MustWaitToSend(s: Sys) {
    s.owner.Some? && s.owner.value in s.pc && s.pc[s.owner.value].MustBlock? && IsSend(s.pc[s.owner.value].k)
  }

  /** A waiting receiver: every item is spoken for by a woken receiver or by the lock counter. */
  predicate NoLostItem(s: Sys) {
    s.recvList != [] || MustWaitToReceive(s) ==> s.n <= |s.recvWoken| + Max(s.txLock, 0)
  }

  /** A waiting sender: every free place is spoken for. */
  predicate NoLostSpace(s: Sys) {
    s.sendList != [] || MustWaitToSend(s) ==> s.length - s.n <= |s.sendWoken| + Max(s.rxLock, 0)
  }

  /** The lock counters follow the task that has suspended the scheduler. */
  predicate LocksFit(s: Sys) {
    && UNLOCKED <= s.txLock <= INT8_MAX && UNLOCKED <= s.rxLock <= INT8_MAX
    && match s.owner
       case None => s.txLock == UNLOCKED && s.rxLock == UNLOCKED
       case Some(t) =>
         && t in s.pc
         && match s.pc[t]
            case Locked(_) => s.txLock >= 0 && s.rxLock >= 0
            case MustBlock(_) => s.txLock >= 0 && s.rxLock >= 0
            case UnlockTx(_, _) => s.txLock >= 0 && s.rxLock >= 0
            case UnlockRx(_, _) => s.txLock == UNLOCKED && s.rxLock >= 0
            case Resuming(_, _) => s.txLock == UNLOCKED && s.rxLock == UNLOCKED
            case _ => false
  }

  predicate Counted(s: Sys) { 0 <= s.n <= s.length }


  /** Where a task on an event list, or taken off one by an event, can be. */
  predicate Waiting(s: Sys, t: Task, send: bool) {
    t in s.pc && match s.pc[t]
    case Trying(k) => IsSend(k) == send
    case UnlockTx(k, e) => IsSend(k) == send && !e
    case UnlockRx(k, e) => IsSend(k) == send && !e
    case Resuming(k, e) => IsSend(k) == send && !e
    case _ => false
  }

  ghost predicate ListsFit(s: Sys) {
    && NoDup(s.recvList) && NoDup(s.sendList)
    && (forall t :: t in s.recvList ==> Waiting(s, t, false) && t !in s.recvWoken)
    && (forall t :: t in s.sendList ==> Waiting(s, t, true) && t !in s.sendWoken)
    && (forall t :: t in s.recvWoken ==> Waiting(s, t, false))
    && (forall t :: t in s.sendWoken ==> Waiting(s, t, true))
  }

  /** A call that overwrites never gets past its first attempt, and is for queues of length 1. */
  predicate OverwriteFits(length: nat, p: Pc) {
    match p
    case Outside => true
    case Trying(k) => k == Send(true) ==> length == 1
    case Refused(k) => k != Send(true)
    case Locked(k) => k != Send(true)
    case MustBlock(k) => k != Send(true)
    case UnlockTx(k, _) => k != Send(true)
    case UnlockRx(k, _) => k != Send(true)
    case Resuming(k, _) => k != Send(true)
    case Expired(k) => k != Send(true)
  }

  /** Everything but the two properties this is about. */
  ghost predicate Shape(s: Sys) {
    && Counted(s) && LocksFit(s) && ListsFit(s)
    && forall t :: t in s.pc ==> OverwriteFits(s.length, s.pc[t])
  }

  ghost predicate Inv(s: Sys) {
    Shape(s) && NoLostItem(s) && NoLostSpace(s)
  }

  // ---- What one step keeps ---------------------------------------------------------------

  lemma WakeReceiverKeeps(s: Sys)
    requires ListsFit(s)
    ensures ListsFit(WakeReceiver(s))
    ensures |WakeReceiver(s).recvWoken| == |s.recvWoken| + if s.recvList == [] then 0 else 1
  {
    if s.recvList != [] {
      var u := WakeReceiver(s);
      assert s.recvList[0] in s.recvList;
      assert forall t :: t in u.recvList ==> t in s.recvList && t != s.recvList[0];
      assert forall t :: Waiting(u, t, false) == Waiting(s, t, false) && Waiting(u, t, true) == Waiting(s, t, true);
    }
  }

  lemma WakeSenderKeeps(s: Sys)
    requires ListsFit(s)
    ensures ListsFit(WakeSender(s))
    ensures |WakeSender(s).sendWoken| == |s.sendWoken| + if s.sendList == [] then 0 else 1
  {
    if s.sendList != [] {
      var u := WakeSender(s);
      assert s.sendList[0] in s.sendList;
      assert forall t :: t in u.sendList ==> t in s.sendList && t != s.sendList[0];
      assert forall t :: Waiting(u, t, false) == Waiting(s, t, false) && Waiting(u, t, true) == Waiting(s, t, true);
    }
  }

  /** Unlocking wakes a receiver for every item counted, or all of them. */
  lemma {:induction false} WakeReceiversKeeps(s: Sys, k: int)
    requires ListsFit(s)
    ensures var u := WakeReceivers(s, k);
            && ListsFit(u)
            && u == s.(recvList := u.recvList, recvWoken := u.recvWoken)
            && (u.recvList != [] ==> s.recvList != [] && |u.recvWoken| == |s.recvWoken| + Max(k, 0))
    decreases k
  {
    if k > 0 && s.recvList != [] {
      WakeReceiverKeeps(s);
      WakeReceiversKeeps(WakeReceiver(s), k - 1);
    }
  }

  lemma {:induction false} WakeSendersKeeps(s: Sys, k: int)
    requires ListsFit(s)
    ensures var u := WakeSenders(s, k);
            && ListsFit(u)
            && u == s.(sendList := u.sendList, sendWoken := u.sendWoken)
            && (u.sendList != [] ==> s.sendList != [] && |u.sendWoken| == |s.sendWoken| + Max(k, 0))
    decreases k
  {
    if k > 0 && s.sendList != [] {
      WakeSenderKeeps(s);
      WakeSendersKeeps(WakeSender(s), k - 1);
    }
  }

  /** Moving a task that is on no event list and not woken. */
  lemma MoveKeepsLists(s: Sys, t: Task, p: Pc)
    requires ListsFit(s) && t !in s.recvList && t !in s.sendList && t !in s.recvWoken && t !in s.sendWoken
    ensures ListsFit(s.(pc := s.pc[t := p]))
  {
    var u := s.(pc := s.pc[t := p]);
    assert forall x, b :: x != t ==> Waiting(u, x, b) == Waiting(s, x, b);
  }

  /** Moving a task on from one waiting place to another. */
  lemma StepKeepsLists(s: Sys, t: Task, p: Pc)
    requires ListsFit(s)
    requires forall b :: Waiting(s, t, b) ==> Waiting(s.(pc := s.pc[t := p]), t, b)
    ensures ListsFit(s.(pc := s.pc[t := p]))
  {
    var u := s.(pc := s.pc[t := p]);
    assert forall x, b :: x != t ==> Waiting(u, x, b) == Waiting(s, x, b);
  }

  /** A task that looks at the queue is no longer counted as woken. */
  lemma LookKeepsLists(s: Sys, t: Task, p: Pc)
    requires ListsFit(s) && t !in s.recvList && t !in s.sendList
    ensures ListsFit(s.(pc := s.pc[t := p], recvWoken := s.recvWoken - {t}, sendWoken := s.sendWoken - {t}))
    ensures |s.recvWoken - {t}| == |s.recvWoken| - if t in s.recvWoken then 1 else 0
    ensures |s.sendWoken - {t}| == |s.sendWoken| - if t in s.sendWoken then 1 else 0
  {
    var u := s.(recvWoken := s.recvWoken - {t}, sendWoken := s.sendWoken - {t});
    assert forall x, b :: Waiting(u, x, b) == Waiting(s, x, b);
    MoveKeepsLists(u, t, p);
    if t in s.recvWoken { assert s.recvWoken == (s.recvWoken - {t}) + {t}; } else { assert s.recvWoken - {t} == s.recvWoken; }
    if t in s.sendWoken { assert s.sendWoken == (s.sendWoken - {t}) + {t}; } else { assert s.sendWoken - {t} == s.sendWoken; }
  }

  lemma CountsKeepLists(s: Sys, n: nat, rx: int, tx: int, o: Option<Task>)
    requires ListsFit(s)
    ensures ListsFit(s.(n := n, rxLock := rx, txLock := tx, owner := o))
  {
    var u := s.(n := n, rxLock := rx, txLock := tx, owner := o);
    assert forall x, b :: Waiting(u, x, b) == Waiting(s, x, b);
  }

  lemma WokenKind(s: Sys, t: Task)
    requires ListsFit(s) && t in s.pc && s.pc[t].Trying?
    ensures t in s.recvWoken ==> !IsSend(s.pc[t].k)
    ensures t in s.sendWoken ==> IsSend(s.pc[t].k)
  {
    assert t in s.recvWoken ==> Waiting(s, t, false);
    assert t in s.sendWoken ==> Waiting(s, t, true);
  }

  /** Waking a receiver changes nothing else. */
  lemma WakeReceiverShape(s: Sys)
    requires Shape(s)
    ensures var u := WakeReceiver(s);
            && Shape(u) && u == s.(recvList := u.recvList, recvWoken := u.recvWoken)
            && (u.recvList != [] ==> s.recvList != [])
            && |u.recvWoken| == |s.recvWoken| + (if s.recvList == [] then 0 else 1)
  {
    hide ListsFit, OverwriteFits;
    WakeReceiverKeeps(s);
  }

  lemma WakeSenderShape(s: Sys)
    requires Shape(s)
    ensures var u := WakeSender(s);
            && Shape(u) && u == s.(sendList := u.sendList, sendWoken := u.sendWoken)
            && (u.sendList != [] ==> s.sendList != [])
            && |u.sendWoken| == |s.sendWoken| + (if s.sendList == [] then 0 else 1)
  {
    hide ListsFit, OverwriteFits;
    WakeSenderKeeps(s);
  }

  lemma TriedShape(s: Sys, t: Task, p: Pc, n: nat)
    requires Inv(s) && Running(s, t) && n <= s.length && OverwriteFits(s.length, p)
    ensures var u := Tried(s, t, p, n);
            && Shape(u) && u.n == n && u.length == s.length && u.owner == s.owner
            && u.recvList == s.recvList && u.sendList == s.sendList && u.txLock == s.txLock && u.rxLock == s.rxLock
            && |u.recvWoken| == |s.recvWoken| - (if t in s.recvWoken then 1 else 0)
            && |u.sendWoken| == |s.sendWoken| - (if t in s.sendWoken then 1 else 0)
  {
    hide ListsFit, OverwriteFits;
    LookKeepsLists(s, t, p);
    CountsKeepLists(Tried(s, t, p, s.n), n, s.rxLock, s.txLock, s.owner);
  }

  lemma OutsideFits(length: nat, k: Kind)
    requires k != Send(true)
    ensures OverwriteFits(length, Outside) && OverwriteFits(length, Refused(k))
  {}

  lemma Unlocked(s: Sys)
    requires Shape(s) && s.owner == None
    ensures s.txLock == s.rxLock == UNLOCKED && s.n <= s.length
  {}

  lemma RunningKind(s: Sys, t: Task)
    requires Shape(s) && t in s.pc && s.pc[t].Trying?
    ensures t in s.recvWoken ==> !IsSend(s.pc[t].k)
    ensures t in s.sendWoken ==> IsSend(s.pc[t].k)
    ensures OverwriteFits(s.length, s.pc[t])
  {
    WokenKind(s, t);
  }

  lemma AttemptReceiveKeeps(s: Sys, t: Task, wait: bool)
    requires Inv(s) && Running(s, t) && s.pc[t] == Trying(Receive)
    ensures Inv(Attempted(s, t, Receive, wait))
  {
    hide Shape, WakeSender, Tried;
    Unlocked(s);
    RunningKind(s, t);
    OutsideFits(s.length, Receive);
    if s.n > 0 {
      TriedShape(s, t, Outside, s.n - 1);
      WakeSenderShape(Tried(s, t, Outside, s.n - 1));
    } else {
      TriedShape(s, t, if wait then Refused(Receive) else Outside, s.n);
    }
  }

  lemma AttemptPeekKeeps(s: Sys, t: Task, wait: bool)
    requires Inv(s) && Running(s, t) && s.pc[t] == Trying(Peek)
    ensures Inv(Attempted(s, t, Peek, wait))
  {
    hide Shape, WakeReceiver, Tried;
    Unlocked(s);
    RunningKind(s, t);
    OutsideFits(s.length, Peek);
    if s.n > 0 {
      TriedShape(s, t, Outside, s.n);
      WakeReceiverShape(Tried(s, t, Outside, s.n));
    } else {
      TriedShape(s, t, if wait then Refused(Peek) else Outside, s.n);
    }
  }

  lemma AttemptSendKeeps(s: Sys, t: Task, over: bool, wait: bool)
    requires Inv(s) && Running(s, t) && s.pc[t] == Trying(Send(over))
    ensures Inv(Attempted(s, t, Send(over), wait))
  {
    hide Shape, WakeReceiver, Tried;
    Unlocked(s);
    RunningKind(s, t);
    if CanSend(s, over) {
      var n := Stored(s.n, over);
      TriedShape(s, t, Outside, n);
      WakeReceiverShape(Tried(s, t, Outside, n));
    } else {
      OutsideFits(s.length, Send(over));
      TriedShape(s, t, if wait then Refused(Send(over)) else Outside, s.n);
    }
  }

  lemma LockKeeps(s: Sys, t: Task)
    requires Inv(s) && Enabled(s, Lock(t))
    ensures Inv(Apply(s, Lock(t)))
  {
    hide ListsFit;
    NotWoken(s, t);
    MoveKeepsLists(s, t, Locked(s.pc[t].k));
    CountsKeepLists(s.(pc := s.pc[t := Locked(s.pc[t].k)]), s.n, 0, 0, Some(t));
  }

  /** A task in the middle of locking is neither woken nor on a list. */
  lemma NotWoken(s: Sys, t: Task)
    requires ListsFit(s) && t in s.pc && (s.pc[t].Refused? || s.pc[t].Locked? || s.pc[t].MustBlock?)
    ensures t !in s.recvList && t !in s.sendList && t !in s.recvWoken && t !in s.sendWoken
  {
    assert !Waiting(s, t, false) && !Waiting(s, t, true);
  }

  lemma CheckKeeps(s: Sys, t: Task, expired: bool)
    requires Inv(s) && Enabled(s, Check(t, expired))
    ensures Inv(Apply(s, Check(t, expired)))
  {
    hide ListsFit;
    NotWoken(s, t);
    MoveKeepsLists(s, t, Apply(s, Check(t, expired)).pc[t]);
  }

  lemma InsertKeepsLists(s: Sys, t: Task, pos: nat, send: bool)
    requires ListsFit(s) && Waiting(s, t, send) && pos <= if send then |s.sendList| else |s.recvList|
    requires t !in s.recvList && t !in s.sendList && t !in s.recvWoken && t !in s.sendWoken
    ensures if send then ListsFit(s.(sendList := s.sendList[..pos] + [t] + s.sendList[pos..]))
            else ListsFit(s.(recvList := s.recvList[..pos] + [t] + s.recvList[pos..]))
  {
    var l := if send then s.sendList else s.recvList;
    var m := l[..pos] + [t] + l[pos..];
    forall x | x in m
      ensures x == t || x in l
    {}
    assert NoDup(m);
    var u := if send then s.(sendList := m) else s.(recvList := m);
    assert forall x, b :: Waiting(u, x, b) == Waiting(s, x, b);
  }

  lemma BlockKeeps(s: Sys, t: Task, pos: nat)
    requires Inv(s) && Enabled(s, Block(t, pos))
    ensures Inv(Apply(s, Block(t, pos)))
  {
    hide ListsFit;
    NotWoken(s, t);
    var p := UnlockTx(s.pc[t].k, false);
    MoveKeepsLists(s, t, p);
    InsertKeepsLists(s.(pc := s.pc[t := p]), t, pos, IsSend(s.pc[t].k));
  }

  lemma DrainTxKeeps(s: Sys, t: Task)
    requires Inv(s) && Enabled(s, DrainTx(t))
    ensures Inv(Apply(s, DrainTx(t)))
  {
    hide ListsFit, WakeReceivers;
    WakeReceiversKeeps(s, s.txLock);
    var u := WakeReceivers(s, s.txLock);
    var p := UnlockRx(s.pc[t].k, s.pc[t].expired);
    CountsKeepLists(u, u.n, u.rxLock, UNLOCKED, u.owner);
    StepKeepsLists(u.(txLock := UNLOCKED), t, p);
  }

  lemma DrainRxKeeps(s: Sys, t: Task)
    requires Inv(s) && Enabled(s, DrainRx(t))
    ensures Inv(Apply(s, DrainRx(t)))
  {
    hide ListsFit, WakeSenders;
    WakeSendersKeeps(s, s.rxLock);
    var u := WakeSenders(s, s.rxLock);
    var p := Resuming(s.pc[t].k, s.pc[t].expired);
    CountsKeepLists(u, u.n, UNLOCKED, u.txLock, u.owner);
    StepKeepsLists(u.(rxLock := UNLOCKED), t, p);
  }

  lemma ResumeKeeps(s: Sys, t: Task)
    requires Inv(s) && Enabled(s, ResumeAll(t))
    ensures Inv(Apply(s, ResumeAll(t)))
  {
    hide ListsFit;
    StepKeepsLists(s, t, Apply(s, ResumeAll(t)).pc[t]);
    CountsKeepLists(s.(pc := Apply(s, ResumeAll(t)).pc), s.n, s.rxLock, s.txLock, None);
  }

  lemma TimeOutKeeps(s: Sys, t: Task)
    requires Inv(s) && Enabled(s, TimeOut(t))
    ensures Inv(Apply(s, TimeOut(t)))
  {
    WithoutMembers(s.recvList, t);
    WithoutMembers(s.sendList, t);
    var u := Apply(s, TimeOut(t));
    assert forall x, b :: Waiting(u, x, b) == Waiting(s, x, b);
  }

  /** An interrupt changes the number of items, and perhaps a lock counter that is in use. */
  lemma CountShape(s: Sys, n: nat, rx: int, tx: int)
    requires Shape(s) && n <= s.length
    requires rx == s.rxLock || 0 <= s.rxLock < rx <= INT8_MAX
    requires tx == s.txLock || 0 <= s.txLock < tx <= INT8_MAX
    ensures Shape(s.(n := n, rxLock := rx, txLock := tx))
  {
    hide ListsFit, OverwriteFits;
    CountsKeepLists(s, n, rx, tx, s.owner);
  }

  lemma InRange(s: Sys)
    requires Shape(s)
    ensures UNLOCKED <= s.txLock && UNLOCKED <= s.rxLock && s.n <= s.length
    ensures MustWaitToReceive(s) ==> s.txLock >= 0
    ensures MustWaitToSend(s) ==> s.rxLock >= 0
  {}

  lemma IsrSendKeeps(s: Sys, over: bool)
    requires Inv(s) && Enabled(s, IsrSend(over))
    ensures Inv(Apply(s, IsrSend(over)))
  {
    hide Shape, WakeReceiver;
    InRange(s);
    if CanSend(s, over) {
      var n := Stored(s.n, over);
      if s.txLock == UNLOCKED {
        CountShape(s, n, s.rxLock, s.txLock);
        WakeReceiverShape(s.(n := n));
        assert Apply(s, IsrSend(over)) == WakeReceiver(s.(n := n));
      } else {
        CountShape(s, n, s.rxLock, s.txLock + 1);
        assert Apply(s, IsrSend(over)) == s.(n := n, txLock := s.txLock + 1);
      }
    }
  }

  lemma IsrReceiveKeeps(s: Sys)
    requires Inv(s) && Enabled(s, IsrReceive)
    ensures Inv(Apply(s, IsrReceive))
  {
    hide Shape, WakeSender;
    InRange(s);
    if s.n > 0 {
      if s.rxLock == UNLOCKED {
        CountShape(s, s.n - 1, s.rxLock, s.txLock);
        WakeSenderShape(s.(n := s.n - 1));
      } else {
        CountShape(s, s.n - 1, s.rxLock + 1, s.txLock);
      }
    }
  }

  lemma OtherKeeps(s: Sys, a: Step)
    requires Inv(s) && Enabled(s, a) && (a.Call? || a.LookAgain?)
    ensures Inv(Apply(s, a))
  {
    var t := a.t;
    assert !Waiting(s, t, false) && !Waiting(s, t, true);
    MoveKeepsLists(s, t, Apply(s, a).pc[t]);
  }

  /**
  xQueueGenericReset wakes one sender, whatever room it makes: it keeps the invariant exactly
  when at most one sender waits, or the room is spoken for by the senders woken then.
  */
  lemma ResetKeepsIff(s: Sys, t: Task)
    requires Inv(s) && Enabled(s, Reset(t))
    ensures Inv(Apply(s, Reset(t))) <==> |s.sendList| <= 1 || s.length <= |s.sendWoken| + 1
  {
    hide ListsFit;
    CountsKeepLists(s, 0, UNLOCKED, UNLOCKED, s.owner);
    WakeSenderKeeps(s.(n := 0, rxLock := UNLOCKED, txLock := UNLOCKED));
  }

  lemma AttemptKeeps(s: Sys, t: Task, wait: bool)
    requires Inv(s) && Enabled(s, Attempt(t, wait))
    ensures Inv(Apply(s, Attempt(t, wait)))
  {
    hide Inv, Attempted;
    match s.pc[t].k
    case Receive => AttemptReceiveKeeps(s, t, wait);
    case Peek => AttemptPeekKeeps(s, t, wait);
    case Send(over) => AttemptSendKeeps(s, t, over, wait);
  }

  /** What a step other than a reset needs to keep the invariant: nothing. */
  predicate Keeping(s: Sys, a: Step) {
    a.Reset? ==> |s.sendList| <= 1 || s.length <= |s.sendWoken| + 1
  }

  lemma StepKeeps(s: Sys, a: Step)
    requires Inv(s) && Enabled(s, a) && Keeping(s, a)
    ensures Inv(Apply(s, a))
  {
    hide Inv, Apply, Enabled;
    match a
    case Call(t, k) => OtherKeeps(s, a);
    case Attempt(t, wait) => AttemptKeeps(s, t, wait);
    case Lock(t) => LockKeeps(s, t);
    case Check(t, expired) => CheckKeeps(s, t, expired);
    case Block(t, pos) => BlockKeeps(s, t, pos);
    case DrainTx(t) => DrainTxKeeps(s, t);
    case DrainRx(t) => DrainRxKeeps(s, t);
    case ResumeAll(t) => ResumeKeeps(s, t);
    case LookAgain(t) => OtherKeeps(s, a);
    case TimeOut(t) => TimeOutKeeps(s, t);
    case IsrSend(over) => IsrSendKeeps(s, over);
    case IsrReceive => IsrReceiveKeeps(s);
    case Reset(t) => ResetKeepsIff(s, t);
  }

  // ---- Whole runs ------------------------------------------------------------------------

  /** A queue just created, with tasks that have not called it yet. */
  predicate Fresh(s: Sys) {
    && s.n == 0 && s.length > 0 && s.rxLock == UNLOCKED && s.txLock == UNLOCKED && s.owner == None
    && s.recvList == [] && s.sendList == [] && s.recvWoken == {} && s.sendWoken == {}
    && forall t :: t in s.pc ==> s.pc[t] == Outside
  }

  /** run is a sequence of states, each reached from the one before by the step of the same number. */
  ghost predicate IsRun(run: seq<Sys>, steps: seq<Step>) {
    && |run| == |steps| + 1 && Fresh(run[0])
    && forall i :: 0 <= i < |steps| ==>
         Enabled(run[i], steps[i]) && Keeping(run[i], steps[i]) && run[i + 1] == Apply(run[i], steps[i])
  }

  /** No wake-up is lost in any run: the invariant holds in every state of it. */
  lemma {:induction false} NoLostWakeUp(run: seq<Sys>, steps: seq<Step>, i: nat)
    requires IsRun(run, steps) && i < |run|
    ensures Inv(run[i])
  {
    if i > 0 {
      NoLostWakeUp(run, steps, i - 1);
      StepKeeps(run[i - 1], steps[i - 1]);
    }
  }

  /** In particular nobody waits for an item that is there, once the woken tasks have looked. */
  lemma QuietQueue(run: seq<Sys>, steps: seq<Step>, i: nat)
    requires IsRun(run, steps) && i < |run|
    ensures run[i].owner == None && run[i].recvWoken == {} && run[i].recvList != [] ==> run[i].n == 0
    ensures run[i].owner == None && run[i].sendWoken == {} && run[i].sendList != [] ==> run[i].n == run[i].length
  {
    NoLostWakeUp(run, steps, i);
  }

  // ---- A reset that strands a sender -------------------------------------------------------

  /** A sender on its way to block: where it is after j steps. */
  function Phase(j: nat): Pc {
    var k := Send(false);
    if j == 0 then Outside
    else if j == 1 then Trying(k)
    else if j == 2 then Refused(k)
    else if j == 3 then Locked(k)
    else if j == 4 then MustBlock(k)
    else if j == 5 then UnlockTx(k, false)
    else if j == 6 then UnlockRx(k, false)
    else if j == 7 then Resuming(k, false)
    else Trying(k)
  }

  /** The step that task t takes then, which enters the list behind others. */
  function Move(t: Task, j: nat, others: nat): Step {
    if j == 0 then Call(t, Send(false))
    else if j == 1 then Attempt(t, true)
    else if j == 2 then Lock(t)
    else if j == 3 then Check(t, false)
    else if j == 4 then Block(t, others)
    else if j == 5 then DrainTx(t)
    else if j == 6 then DrainRx(t)
    else ResumeAll(t)
  }

  /** A full queue of length 2 on which task t is in phase j, and others have blocked before; pc is that of the others. */
  function Blocking(pc: map<Task, Pc>, others: seq<Task>, t: Task, j: nat): Sys {
    Sys(2, 2, if 3 <= j <= 6 then 0 else UNLOCKED, if 3 <= j <= 5 then 0 else UNLOCKED, [],
        if j >= 5 then others + [t] else others, pc[t := Phase(j)], {}, {}, if 3 <= j <= 7 then Some(t) else None)
  }

  lemma BlockingStep(pc: map<Task, Pc>, others: seq<Task>, t: Task, j: nat)
    requires t !in others && j < 8
    ensures var s, a := Blocking(pc, others, t, j), Move(t, j, |others|);
            Enabled(s, a) && Keeping(s, a) && Apply(s, a) == Blocking(pc, others, t, j + 1)
  {
    assert others[..|others|] + [t] + others[|others|..] == others + [t];
    assert pc[t := Phase(j)][t := Phase(j + 1)] == pc[t := Phase(j + 1)];
  }

  /** A queue of length 2 is filled, and two senders block. */
  function Stages(): seq<Sys> {
    var none := map[0 := Outside, 1 := Outside, 2 := Outside];
    var empty := Sys(2, 0, UNLOCKED, UNLOCKED, [], [], none, {}, {}, None);
    [empty, empty.(n := 1)] + seq(8, (j: nat) => Blocking(none, [], 1, j)) + seq(9, (j: nat) => Blocking(none[1 := Phase(8)], [1], 2, j))
  }

  function Course(): seq<Step> {
    [IsrSend(false), IsrSend(false)] + seq(8, (j: nat) => Move(1, j, 0)) + seq(8, (j: nat) => Move(2, j, 1))
  }

  lemma StagesStep(i: nat)
    requires i < 18
    ensures |Stages()| == 19 && |Course()| == 18
    ensures var s, a := Stages()[i], Course()[i]; Enabled(s, a) && Keeping(s, a) && Stages()[i + 1] == Apply(s, a)
  {
    hide Enabled, Apply, Keeping, Blocking, Move, Phase;
    var none := map[0 := Outside, 1 := Outside, 2 := Outside];
    if i < 2 {
      Filling(i);
    } else if i < 10 {
      BlockingStep(none, [], 1, i - 2);
      Handover();
    } else {
      BlockingStep(none[1 := Phase(8)], [1], 2, i - 10);
    }
  }

  lemma Filling(i: nat)
    requires i < 2
    ensures var s, a := Stages()[i], Course()[i]; Enabled(s, a) && Keeping(s, a) && Stages()[i + 1] == Apply(s, a)
  {
    var none := map[0 := Outside, 1 := Outside, 2 := Outside];
    assert none[1 := Outside] == none;
    if i == 0 {
      assert Stages()[1] == Stages()[0].(n := 1);
    } else {
      assert Stages()[2] == Blocking(none, [], 1, 0) == Stages()[1].(n := 2);
    }
  }

  lemma Handover()
    ensures var none := map[0 := Outside, 1 := Outside, 2 := Outside];
            Blocking(none, [], 1, 8) == Blocking(none[1 := Phase(8)], [1], 2, 0)
  {
    var none := map[0 := Outside, 1 := Outside, 2 := Outside];
    assert none[1 := Phase(8)][2 := Outside] == none[1 := Phase(8)];
  }

  lemma StagesRun()
    ensures IsRun(Stages(), Course()) && |Stages()| == 19
  {
    hide Enabled, Apply, Keeping, Blocking, Move;
    StagesStep(0);
    forall i | 0 <= i < 18
      ensures Enabled(Stages()[i], Course()[i]) && Keeping(Stages()[i], Course()[i]) && Stages()[i + 1] == Apply(Stages()[i], Course()[i])
    {
      StagesStep(i);
    }
  }

  /**
  A reset that strands a sender: in a run from a fresh queue two senders have come to wait for
  a full queue of length 2, and the reset wakes one of them.
  */
  lemma ResetStrands()
    ensures IsRun(Stages(), Course()) && |Stages()| == 19
    ensures var s := Stages()[18];
            && Inv(s) && s.sendList == [1, 2] && Enabled(s, Reset(0))
            && Apply(s, Reset(0)).sendList == [2] && Apply(s, Reset(0)).n == 0 && Apply(s, Reset(0)).sendWoken == {1}
            && !NoLostSpace(Apply(s, Reset(0)))
  {
    StagesRun();
    NoLostWakeUp(Stages(), Course(), 18);
  }
}
