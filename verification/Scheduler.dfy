/**
The task lists of the kernel and the tick. The tick counter wraps at a modulus; `time` is
the number of ticks processed since the start, which the program does not have.
*/
module Scheduler {
  import opened TaskLists
  import Sectors

  /** Which kind of list holds the state item of a task. */
  datatype Place = Ready | Timed | Indefinite | Terminating

  predicate IsBlocked(k: Place) { k == Timed || k == Indefinite }

  // ---- The lists as values -----------------------------------------------------------------

  /** The list holds the ready tasks of priority p, each once. */
  ghost predicate ReadyList(l: seq<Task>, prio: map<Task, nat>, place: map<Task, Place>, p: nat)
    requires prio.Keys == place.Keys
  {
    NoDup(l) && forall t :: t in l <==> t in place && place[t] == Ready && prio[t] == p
  }

  ghost predicate ReadyLists(ready: seq<seq<Task>>, prio: map<Task, nat>, place: map<Task, Place>) {
    && prio.Keys == place.Keys
    && (forall t :: t in prio ==> prio[t] < |ready|)
    && (forall p :: 0 <= p < |ready| ==> ReadyList(ready[p], prio, place, p))
  }

  /** No list above top is in use. */
  ghost predicate Tops(ready: seq<seq<Task>>, top: nat) {
    top < |ready| && forall p :: top < p < |ready| ==> ready[p] == []
  }

  /** The list holds the tasks of kind k that are due between lo and hi, each once. */
  ghost predicate OneList(l: seq<Task>, place: map<Task, Place>, wakeAt: map<Task, nat>, k: Place, lo: nat, hi: nat) {
    wakeAt.Keys == place.Keys && NoDup(l) && forall t :: t in l <==> t in place && place[t] == k && lo <= wakeAt[t] < hi
  }

  ghost predicate Holds(l: seq<Task>, place: map<Task, Place>, k: Place) {
    NoDup(l) && forall t :: t in l <==> t in place && place[t] == k
  }

  /** next does not exceed the value of the first item. */
  ghost predicate NotLater(next: nat, l: seq<Task>, item: map<Task, nat>) {
    l != [] ==> l[0] in item && next <= item[l[0]]
  }

  ghost predicate Pending(l: seq<Task>, place: map<Task, Place>) {
    NoDup(l) && forall t :: t in l ==> t in place && IsBlocked(place[t])
  }

  /** Item values are wake times without the wraps; every timed task is due after the given time. */
  ghost predicate Values(place: map<Task, Place>, wakeAt: map<Task, nat>, item: map<Task, nat>, base: nat, modulus: nat, after: int) {
    && item.Keys == place.Keys == wakeAt.Keys
    && forall t :: t in place && place[t] == Timed ==>
         && after < wakeAt[t] < base + 2 * modulus
         && item[t] == wakeAt[t] - base - (if wakeAt[t] < base + modulus then 0 else modulus)
  }

  /** All the lists fit together; what the parts of the kernel's invariant say of them. */
  ghost predicate AllFit(ready: seq<seq<Task>>, top: nat, prio: map<Task, nat>, place: map<Task, Place>, delayed: seq<Task>,
                         overflow: seq<Task>, waiting: seq<Task>, terminating: seq<Task>, pendingReady: seq<Task>,
                         wakeAt: map<Task, nat>, item: map<Task, nat>, base: nat, modulus: nat, time: nat) {
    && ReadyLists(ready, prio, place) && Tops(ready, top)
    && OneList(delayed, place, wakeAt, Timed, 0, base + modulus)
    && OneList(overflow, place, wakeAt, Timed, base + modulus, base + 2 * modulus)
    && Holds(waiting, place, Indefinite) && Holds(terminating, place, Terminating)
    && Values(place, wakeAt, item, base, modulus, time) && Sorted(delayed, item) && Sorted(overflow, item)
    && Pending(pendingReady, place)
  }

  /** A task is given a wake time less than a round ahead. */
  lemma ValuesWith(place: map<Task, Place>, wakeAt: map<Task, nat>, item: map<Task, nat>, base: nat, modulus: nat,
                   time: nat, t: Task, d: nat, wake: nat)
    requires Values(place, wakeAt, item, base, modulus, time) && t in place && base <= time < base + modulus && 1 <= d < modulus
    requires wake == time - base + d - (if time + d < base + modulus then 0 else modulus)
    ensures Values(place[t := Timed], wakeAt[t := time + d], item[t := wake], base, modulus, time)
  {}

  lemma ValuesLeave(place: map<Task, Place>, wakeAt: map<Task, nat>, item: map<Task, nat>, base: nat, modulus: nat, after: int, t: Task)
    requires Values(place, wakeAt, item, base, modulus, after) && t in place
    ensures Values(place[t := Indefinite], wakeAt, item, base, modulus, after)
    ensures Values(place[t := Ready], wakeAt, item, base, modulus, after)
    ensures item.Keys == place.Keys
  {}

  lemma SortedHead(l: seq<Task>, v: map<Task, nat>)
    requires Sorted(l, v)
    ensures l != [] ==> l[0] in v
  {}

  lemma JoinReady(l: seq<Task>, prio: map<Task, nat>, place: map<Task, Place>, p: nat, t: Task)
    requires prio.Keys == place.Keys && ReadyList(l, prio, place, p) && t in place && place[t] != Ready
    ensures ReadyList(if prio[t] == p then l + [t] else l, prio, place[t := Ready], p)
  {}

  lemma QuitReady(l: seq<Task>, prio: map<Task, nat>, place: map<Task, Place>, p: nat, t: Task, k: Place)
    requires prio.Keys == place.Keys && ReadyList(l, prio, place, p) && t in place && place[t] == Ready && k != Ready
    ensures ReadyList(if prio[t] == p then Without(l, t) else l, prio, place[t := k], p)
  {
    WithoutMembers(l, t);
  }

  lemma AddReady(ready: seq<seq<Task>>, prio: map<Task, nat>, place: map<Task, Place>, t: Task)
    requires ReadyLists(ready, prio, place) && t in place && place[t] != Ready
    ensures ReadyLists(ready[prio[t] := ready[prio[t]] + [t]], prio, place[t := Ready])
  {
    hide ReadyList;
    var r := ready[prio[t] := ready[prio[t]] + [t]];
    forall p | 0 <= p < |r|
      ensures ReadyList(r[p], prio, place[t := Ready], p)
    {
      JoinReady(ready[p], prio, place, p, t);
    }
  }

  lemma DropReady(ready: seq<seq<Task>>, prio: map<Task, nat>, place: map<Task, Place>, t: Task, k: Place)
    requires ReadyLists(ready, prio, place) && t in place && place[t] == Ready && k != Ready
    ensures ReadyLists(ready[prio[t] := Without(ready[prio[t]], t)], prio, place[t := k])
  {
    hide ReadyList;
    var r := ready[prio[t] := Without(ready[prio[t]], t)];
    forall p | 0 <= p < |r|
      ensures ReadyList(r[p], prio, place[t := k], p)
    {
      QuitReady(ready[p], prio, place, p, t, k);
    }
  }

  lemma KeepReady(ready: seq<seq<Task>>, prio: map<Task, nat>, place: map<Task, Place>, t: Task, p: nat)
    requires ReadyLists(ready, prio, place) && t in place && place[t] != Ready && p < |ready|
    ensures ReadyLists(ready, prio[t := p], place)
  {
    forall q | 0 <= q < |ready|
      ensures ReadyList(ready[q], prio[t := p], place, q)
    {
      assert ReadyList(ready[q], prio, place, q);
    }
  }

  /** Changing the priority of a ready task: out of one list, into the other. */
  lemma MoveReady(ready: seq<seq<Task>>, prio: map<Task, nat>, place: map<Task, Place>, t: Task, p: nat)
    requires ReadyLists(ready, prio, place) && t in place && place[t] == Ready && p < |ready|
    ensures var r := ready[prio[t] := Without(ready[prio[t]], t)];
            ReadyLists(r[p := r[p] + [t]], prio[t := p], place)
  {
    hide ReadyLists;
    InRange(ready, prio, place, t);
    DropReady(ready, prio, place, t, Timed);
    var r, q := ready[prio[t] := Without(ready[prio[t]], t)], place[t := Timed];
    KeepReady(r, prio, q, t, p);
    AddReady(r, prio[t := p], q, t);
    assert q[t := Ready] == place;
  }

  lemma InRange(ready: seq<seq<Task>>, prio: map<Task, nat>, place: map<Task, Place>, t: Task)
    requires ReadyLists(ready, prio, place) && t in place
    ensures t in prio && prio[t] < |ready|
  {}

  lemma LeaveList(l: seq<Task>, place: map<Task, Place>, wakeAt: map<Task, nat>, k: Place, lo: nat, hi: nat, t: Task)
    requires OneList(l, place, wakeAt, k, lo, hi) && t in place && k != Ready
    ensures OneList(Without(l, t), place[t := Ready], wakeAt, k, lo, hi)
  {
    WithoutMembers(l, t);
  }

  lemma LeaveHolds(l: seq<Task>, place: map<Task, Place>, k: Place, t: Task)
    requires Holds(l, place, k) && t in place && k != Ready
    ensures Holds(Without(l, t), place[t := Ready], k)
  {
    WithoutMembers(l, t);
  }

  lemma TopsUp(ready: seq<seq<Task>>, top: nat, p: nat, l: seq<Task>)
    requires Tops(ready, top) && p < |ready|
    ensures Tops(ready[p := l], if p > top then p else top)
  {}

  lemma TopsDown(ready: seq<seq<Task>>, top: nat, p: nat, l: seq<Task>)
    requires Tops(ready, top) && p < |ready| && (ready[p] == [] ==> l == [])
    ensures Tops(ready[p := l], top)
  {}

  lemma KeysKept(m: map<Task, nat>, t: Task, x: nat)
    requires t in m
    ensures m[t := x].Keys == m.Keys
  {}

  /** A ready task joins a list. */
  lemma JoinHolds(l: seq<Task>, place: map<Task, Place>, k: Place, t: Task)
    requires Holds(l, place, k) && t in place && place[t] != k
    ensures Holds(l + [t], place[t := k], k)
  {}

  lemma OtherHolds(l: seq<Task>, place: map<Task, Place>, k: Place, t: Task, j: Place)
    requires Holds(l, place, k) && t in place && place[t] != k && j != k
    ensures Holds(l, place[t := j], k)
  {}

  lemma JoinList(l: seq<Task>, place: map<Task, Place>, wakeAt: map<Task, nat>, k: Place, lo: nat, hi: nat,
                 t: Task, w: nat, v: map<Task, nat>)
    requires v.Keys == place.Keys && OneList(l, place, wakeAt, k, lo, hi) && t in place && place[t] != k
    requires lo <= w < hi
    ensures OneList(Insert(l, v, t), place[t := k], wakeAt[t := w], k, lo, hi)
  {
    InsertMembers(l, v, t);
  }

  lemma OtherList(l: seq<Task>, place: map<Task, Place>, wakeAt: map<Task, nat>, k: Place, lo: nat, hi: nat,
                  t: Task, w: nat, j: Place)
    requires OneList(l, place, wakeAt, k, lo, hi) && t in place && place[t] != k
    requires j != k || !(lo <= w < hi)
    ensures OneList(l, place[t := j], wakeAt[t := w], k, lo, hi)
  {}

  // ---- Tasks that come and go ----------------------------------------------------------------

  lemma NewReady(ready: seq<seq<Task>>, prio: map<Task, nat>, place: map<Task, Place>, t: Task, p: nat)
    requires ReadyLists(ready, prio, place) && t !in place && p < |ready|
    ensures ReadyLists(ready[p := ready[p] + [t]], prio[t := p], place[t := Ready])
  {
    var r := ready[p := ready[p] + [t]];
    forall q | 0 <= q < |r|
      ensures ReadyList(r[q], prio[t := p], place[t := Ready], q)
    {
      assert ReadyList(ready[q], prio, place, q);
    }
  }

  lemma GoneReady(ready: seq<seq<Task>>, prio: map<Task, nat>, place: map<Task, Place>, t: Task)
    requires ReadyLists(ready, prio, place) && t in place
    ensures t in prio && prio[t] < |ready|
    ensures ReadyLists(ready[prio[t] := Without(ready[prio[t]], t)], prio - {t}, place - {t})
  {
    var r := ready[prio[t] := Without(ready[prio[t]], t)];
    forall q | 0 <= q < |r|
      ensures ReadyList(r[q], prio - {t}, place - {t}, q)
    {
      assert ReadyList(ready[q], prio, place, q);
      WithoutMembers(ready[q], t);
    }
  }

  lemma NewElsewhere(l: seq<Task>, place: map<Task, Place>, wakeAt: map<Task, nat>, k: Place, lo: nat, hi: nat, t: Task)
    requires t !in place && k != Ready
    ensures OneList(l, place, wakeAt, k, lo, hi) ==> OneList(l, place[t := Ready], wakeAt[t := 0], k, lo, hi)
    ensures Holds(l, place, k) ==> Holds(l, place[t := Ready], k)
  {}

  lemma GoneElsewhere(l: seq<Task>, place: map<Task, Place>, wakeAt: map<Task, nat>, k: Place, lo: nat, hi: nat, t: Task)
    requires NoDup(l)
    ensures OneList(l, place, wakeAt, k, lo, hi) ==> OneList(Without(l, t), place - {t}, wakeAt - {t}, k, lo, hi)
    ensures Holds(l, place, k) ==> Holds(Without(l, t), place - {t}, k)
  {
    WithoutMembers(l, t);
  }

  /** Item values of the others, when a task comes or goes. */
  lemma OtherValues(place: map<Task, Place>, wakeAt: map<Task, nat>, item: map<Task, nat>, base: nat, modulus: nat, after: int, t: Task)
    requires Values(place, wakeAt, item, base, modulus, after)
    ensures t !in place ==> Values(place[t := Ready], wakeAt[t := 0], item[t := 0], base, modulus, after)
    ensures Values(place - {t}, wakeAt - {t}, item - {t}, base, modulus, after)
  {}

  lemma OtherSorted(l: seq<Task>, item: map<Task, nat>, t: Task)
    requires NoDup(l) && Sorted(l, item)
    ensures t !in l ==> Sorted(l, item[t := 0])
    ensures Sorted(Without(l, t), item - {t})
  {
    WithoutSorted(l, item, t);
    WithoutMembers(l, t);
    SortedSame(Without(l, t), item, item - {t});
    if t !in l {
      SortedSame(l, item, item[t := 0]);
    }
  }

  class Kernel {
    const modulus: nat        // number of values of TickType_t
    const priorities: nat     // configMAX_PRIORITIES
    var tick: nat             // xTickCount
    var pended: nat           // xPendedTicks
    var nextUnblock: nat      // xNextTaskUnblockTime
    var overflows: nat        // xNumOfOverflows
    var suspended: nat        // uxSchedulerSuspended
    var delayed: seq<Task>    // pxDelayedTaskList
    var overflow: seq<Task>   // pxOverflowDelayedTaskList
    var waiting: seq<Task>    // xSuspendedTaskList
    var pendingReady: seq<Task>
    var terminating: seq<Task> // xTasksWaitingTermination
    var running: bool         // xSchedulerRunning
    var ready: seq<seq<Task>> // pxReadyTasksLists
    var topReady: nat         // uxTopReadyPriority
    var current: Task         // pxCurrentTCB
    var item: map<Task, nat>  // value of the state item
    var prio: map<Task, nat>  // uxPriority
    ghost var time: nat
    ghost var base: nat               // the time of the last wrap
    ghost var wakeAt: map<Task, nat>  // the time at which a timed task is due
    ghost var place: map<Task, Place>

    ghost predicate Clock()
      reads this`tick, this`time, this`base, this`nextUnblock
    {
      2 <= modulus && tick < modulus && nextUnblock < modulus && time == base + tick
    }

    ghost predicate ReadyFit()
      reads this`ready, this`prio, this`place, this`topReady
    {
      |ready| == priorities && ReadyLists(ready, prio, place) && Tops(ready, topReady)
    }

    /** A timed task is in the current list if it is due before the next wrap, else in the overflow list. */
    ghost predicate ListsFit()
      reads this`delayed, this`overflow, this`waiting, this`wakeAt, this`place, this`base
    {
      && OneList(delayed, place, wakeAt, Timed, 0, base + modulus)
      && OneList(overflow, place, wakeAt, Timed, base + modulus, base + 2 * modulus)
      && Holds(waiting, place, Indefinite)
    }

    /** The lists are in the order of the item values. */
    ghost predicate ItemsFit(after: int)
      reads this`delayed, this`overflow, this`wakeAt, this`item, this`place, this`base
    {
      Values(place, wakeAt, item, base, modulus, after) && Sorted(delayed, item) && Sorted(overflow, item)
    }

    /** xNextTaskUnblockTime does not exceed the first wake time of the current list. */
    ghost predicate NextFit()
      reads this`delayed, this`item, this`nextUnblock
    {
      NotLater(nextUnblock, delayed, item)
    }

    /** Tasks that an event has readied while the scheduler was suspended; their state items stay where they are. */
    ghost predicate PendingTasks()
      reads this`pendingReady, this`place
    {
      Pending(pendingReady, place)
    }

    ghost predicate PendingFit()
      reads this`pendingReady, this`place, this`suspended
    {
      PendingTasks() && (suspended == 0 ==> pendingReady == [])
    }

    /** Tasks that have deleted themselves and wait for the idle task to clean up. */
    ghost predicate EndFit()
      reads this`terminating, this`place
    {
      Holds(terminating, place, Terminating)
    }

    /** The wraps are counted. */
    ghost predicate WrapsFit()
      reads this`base, this`overflows
    {
      base == overflows * modulus
    }

    ghost predicate Valid()
      reads this
    {
      && Clock() && WrapsFit() && ReadyFit() && ListsFit() && ItemsFit(time) && NextFit() && PendingFit() && EndFit()
      && current in place
      && (suspended == 0 ==> pended == 0)
    }

    constructor (modulus: nat, priorities: nat, first: Task, p: nat)
      requires 2 <= modulus && p < priorities
      ensures Valid() && place == map[first := Ready] && time == 0 && tick == 0 && suspended == 0 && !running
      ensures this.modulus == modulus && this.priorities == priorities && prio == map[first := p] && current == first
      ensures wakeAt == map[first := 0] && pended == 0 && pendingReady == [] && terminating == []
    {
      this.modulus, this.priorities := modulus, priorities;
      tick, pended, nextUnblock, overflows, suspended := 0, 0, modulus - 1, 0, 0;
      delayed, overflow, waiting, pendingReady, terminating, running := [], [], [], [], [], false;
      ready := seq(priorities, i => if i == p then [first] else []);
      topReady, current, item, prio := p, first, map[first := 0], map[first := p];
      time, base, wakeAt, place := 0, 0, map[first := 0], map[first := Ready];
    }

    /** prvAddTaskToReadyList. */
    method AppendReady(t: Task, p: nat)
      requires p < |ready|
      modifies this`ready, this`topReady
      ensures ready == old(ready)[p := old(ready)[p] + [t]] && topReady == if p > old(topReady) then p else old(topReady)
    {
      if p > topReady {
        topReady := p;
      }
      ready := ready[p := ready[p] + [t]];
    }

    /** prvAddTaskToReadyList of a task taken off its list. */
    method MakeReady(t: Task)
      requires ReadyFit() && ListsFit() && t in place && place[t] != Ready
      modifies this`delayed, this`overflow, this`waiting, this`ready, this`topReady, this`place
      ensures ReadyFit() && ListsFit()
      ensures place == old(place)[t := Ready]
      ensures delayed == Without(old(delayed), t) && overflow == Without(old(overflow), t)
    {
      hide ReadyLists, OneList, Holds, Tops, Without;
      LeaveList(delayed, place, wakeAt, Timed, 0, base + modulus, t);
      LeaveList(overflow, place, wakeAt, Timed, base + modulus, base + 2 * modulus, t);
      LeaveHolds(waiting, place, Indefinite, t);
      AddReady(ready, prio, place, t);
      ReadyRange(t);
      TopsUp(ready, topReady, prio[t], ready[prio[t]] + [t]);
      delayed, overflow, waiting := Without(delayed, t), Without(overflow, t), Without(waiting, t);
      AppendReady(t, prio[t]);
      place := place[t := Ready];
    }

    lemma ReadyRange(t: Task)
      requires ReadyFit() && t in place
      ensures t in prio && prio[t] < priorities == |ready|
      ensures t in ready[prio[t]] <==> place[t] == Ready
    {
      assert ReadyList(ready[prio[t]], prio, place, prio[t]);
    }

    /** prvResetNextTaskUnblockTime. */
    method ResetNext()
      requires 2 <= modulus && tick < modulus && time == base + tick && ItemsFit(time - 1) && ListsFit()
      modifies this`nextUnblock
      ensures Clock() && NextFit()
    {
      hide OneList, Holds;
      nextUnblock := modulus - 1;
      if delayed != [] {
        HeadFits(delayed[0]);
        nextUnblock := item[delayed[0]];
      }
    }

    lemma HeadFits(t: Task)
      requires ListsFit() && ItemsFit(time - 1) && t in delayed && time >= base
      ensures t in item && t in place && place[t] == Timed && item[t] < modulus && wakeAt[t] == base + item[t]
    {}

    /** The tick and the number of wraps, which is all that a program has, determine the time. */
    lemma TickAndWraps()
      requires Valid()
      ensures tick == time % modulus && overflows == time / modulus
    {
      hide ReadyFit, ListsFit, ItemsFit, NextFit, PendingFit, EndFit;
      Sectors.WithinUnit(overflows, modulus, tick);
    }

    /** What ends a task is no concern of the other lists. */
    lemma EndSame(was: map<Task, Place>)
      requires Holds(terminating, was, Terminating) && place.Keys == was.Keys
      requires forall t :: t in place ==> (place[t] == Terminating <==> was[t] == Terminating)
      ensures EndFit()
    {}

    /** Exactly the timed tasks that are due now have become ready since then. */
    ghost predicate WokeDue(was: map<Task, Place>)
      reads this`place, this`wakeAt, this`time
    {
      && place.Keys == was.Keys == wakeAt.Keys
      && forall t :: t in place ==>
           place[t] == if was[t] == Timed && wakeAt[t] <= time then Ready else was[t]
    }

    /** The loop of xTaskIncrementTick: make the tasks at the head of the list ready while they are due. */
    method WakeDue()
      requires Clock() && ReadyFit() && ListsFit() && ItemsFit(time - 1)
      modifies this`delayed, this`overflow, this`waiting, this`ready, this`topReady, this`place, this`nextUnblock
      ensures Clock() && ReadyFit() && ListsFit() && ItemsFit(time) && NextFit()
      ensures WokeDue(old(place))
    {
      hide ReadyFit, ListsFit, ItemsFit, WokeDue;
      ghost var was := place;
      ListMembers();
      while true
        invariant Clock() && ReadyFit() && ListsFit() && ItemsFit(time - 1)
        invariant place.Keys == was.Keys == wakeAt.Keys
        invariant forall t :: t in place ==> place[t] == was[t] || (place[t] == Ready && was[t] == Timed && wakeAt[t] <= time)
        decreases |delayed|
      {
        if delayed == [] {
          nextUnblock := modulus - 1;
          AllLater(was);
          return;
        }
        var t := delayed[0];
        HeadFits(t);
        if tick < item[t] {
          nextUnblock := item[t];
          AllLater(was);
          return;
        }
        WakeHead(t);
      }
    }

    /** A task that is not ready becomes ready; the rest of the lists stays in order. */
    method Unblock(t: Task, ghost after: int)
      requires ReadyFit() && ListsFit() && ItemsFit(after) && t in place && place[t] != Ready
      modifies this`delayed, this`overflow, this`waiting, this`ready, this`topReady, this`place
      ensures ReadyFit() && ListsFit() && ItemsFit(after)
      ensures old(NextFit()) ==> NextFit()
      ensures place == old(place)[t := Ready] && delayed == Without(old(delayed), t)
    {
      hide ReadyFit, NoDup, Values, OneList, Holds, Without, Sorted;
      ghost var d, o := delayed, overflow;
      ListMembers();
      ValuesLeave(place, wakeAt, item, base, modulus, after, t);
      MakeReady(t);
      WithoutSorted(d, item, t);
      WithoutSorted(o, item, t);
      SortedHead(delayed, item);
    }

    /** The first task of the current list becomes ready. */
    method WakeHead(t: Task)
      requires ReadyFit() && ListsFit() && ItemsFit(time - 1) && delayed != [] && t == delayed[0]
      modifies this`delayed, this`overflow, this`waiting, this`ready, this`topReady, this`place
      ensures ReadyFit() && ListsFit() && ItemsFit(time - 1)
      ensures place == old(place)[t := Ready] && |delayed| < |old(delayed)|
    {
      hide ReadyFit, ListsFit, ItemsFit;
      ListMembers();
      HeadIn(delayed);
      Unblock(t, time - 1);
    }

    lemma ListMembers()
      requires ListsFit()
      ensures NoDup(delayed) && NoDup(overflow) && wakeAt.Keys == place.Keys
      ensures forall t :: t in delayed ==> t in place && place[t] == Timed
    {}

    /** When the head of the current list is not due, no timed task is. */
    lemma AllLater(was: map<Task, Place>)
      requires Clock() && ListsFit() && ItemsFit(time - 1)
      requires delayed != [] ==> tick < item[delayed[0]]
      requires place.Keys == was.Keys
      requires forall t :: t in place ==> place[t] == was[t] || (place[t] == Ready && was[t] == Timed && wakeAt[t] <= time)
      ensures ItemsFit(time) && WokeDue(was)
    {
      forall t | t in place && place[t] == Timed
        ensures time < wakeAt[t]
      {
        if wakeAt[t] < base + modulus {
          assert t in delayed;
          var i :| 0 <= i < |delayed| && delayed[i] == t;
          assert item[delayed[0]] <= item[delayed[i]];
        }
      }
    }

    /** taskSWITCH_DELAYED_LISTS: at a wrap the current list is empty and the overflow list takes its place. */
    method SwitchLists()
      requires 2 <= modulus && ListsFit() && ItemsFit(time) && time == base + modulus - 1
      modifies this`delayed, this`overflow, this`overflows, this`nextUnblock, this`tick, this`time, this`base
      ensures old(delayed) == [] && overflow == [] && delayed == old(overflow)
      ensures tick == 0 && time == old(time) + 1 && overflows == old(overflows) + 1
      ensures Clock() && ListsFit() && ItemsFit(time - 1) && NextFit() && (old(WrapsFit()) ==> WrapsFit())
    {
      hide OneList, Holds, Sorted, WrapsFit;
      NoneLeft();
      ghost var wraps, b, o := WrapsFit(), base, overflows;
      if wraps {
        WrapsSay();
      }
      tick, time := 0, time + 1;
      delayed, overflow, overflows := overflow, delayed, overflows + 1;
      base := base + modulus;
      Switched();
      ResetNext();
      if wraps {
        OneMoreWrap(b, o);
      }
    }

    lemma WrapsSay()
      requires WrapsFit()
      ensures base == overflows * modulus
    {}

    lemma OneMoreWrap(b: nat, o: nat)
      requires b == o * modulus && base == b + modulus && overflows == o + 1
      ensures WrapsFit()
    {
      assert (o + 1) * modulus == o * modulus + modulus;
    }

    /** Just before a wrap no timed task is due in this round. */
    lemma NoneLeft()
      requires ListsFit() && ItemsFit(time) && time == base + modulus - 1
      ensures delayed == []
      ensures forall t :: t in place && place[t] == Timed ==> base + modulus <= wakeAt[t]
    {
      HeadIn(delayed);
    }

    /** The lists of the last round, read in the new one. */
    lemma Switched()
      requires base >= modulus && wakeAt.Keys == place.Keys == item.Keys && overflow == []
      requires OneList(delayed, place, wakeAt, Timed, base, base + modulus) && Holds(waiting, place, Indefinite)
      requires forall t :: t in place && place[t] == Timed ==>
                 base <= wakeAt[t] < base + modulus && time - 1 < wakeAt[t] && item[t] == wakeAt[t] - base
      requires Sorted(delayed, item)
      ensures ListsFit() && ItemsFit(time - 1)
    {}

    /** xTaskIncrementTick with the scheduler running. */
    method Tick()
      requires Clock() && ReadyFit() && ListsFit() && ItemsFit(time) && NextFit()
      modifies this`tick, this`time, this`base, this`delayed, this`overflow, this`overflows, this`waiting,
               this`ready, this`topReady, this`place, this`nextUnblock
      ensures Clock() && ReadyFit() && ListsFit() && ItemsFit(time) && NextFit()
      ensures time == old(time) + 1 && tick == (if old(tick) + 1 == modulus then 0 else old(tick) + 1)
      ensures old(tick) + 1 == modulus ==> old(delayed) == [] && overflows == old(overflows) + 1
      ensures WokeDue(old(place)) && (old(WrapsFit()) ==> WrapsFit())
    {
      hide ReadyFit, ListsFit, ItemsFit, WokeDue, WrapsFit;
      if tick + 1 == modulus {
        SwitchLists();
      } else {
        tick, time := tick + 1, time + 1;
      }
      if tick >= nextUnblock {
        WakeDue();
      } else {
        ListMembers();
        AllLater(place);
      }
    }

    /** xTaskIncrementTick: while the scheduler is suspended the tick is only counted. */
    method IncrementTick()
      requires Valid()
      modifies this`tick, this`time, this`base, this`delayed, this`overflow, this`overflows, this`waiting,
               this`ready, this`topReady, this`place, this`nextUnblock, this`pended
      ensures Valid()
      ensures suspended > 0 ==> pended == old(pended) + 1 && time == old(time) && place == old(place)
      ensures suspended == 0 ==> pended == old(pended) && time == old(time) + 1 && WokeDue(old(place))
    {
      hide Clock, WrapsFit, ReadyFit, ListsFit, ItemsFit, NextFit, Holds;
      ghost var was := place;
      if suspended == 0 {
        Tick();
        EndSame(was);
      } else {
        pended := pended + 1;
      }
    }

    /** The current task leaves its ready list. */
    method LeaveReady(ghost k: Place)
      requires ReadyFit() && current in place && place[current] == Ready && k != Ready
      modifies this`ready, this`place
      ensures ReadyFit() && place == old(place)[current := k]
    {
      hide ReadyLists, Tops;
      var t := current;
      ReadyRange(t);
      DropReady(ready, prio, place, t, k);
      TopsDown(ready, topReady, prio[t], Without(ready[prio[t]], t));
      ready := ready[prio[t] := Without(ready[prio[t]], t)];
      place := place[t := k];
    }

    /** The current task, no longer ready, waits without a time limit. */
    method WaitForever(ghost was: map<Task, Place>)
      requires current in was && was[current] == Ready && place == was[current := Indefinite]
      requires Holds(waiting, was, Indefinite)
      requires OneList(delayed, was, wakeAt, Timed, 0, base + modulus)
      requires OneList(overflow, was, wakeAt, Timed, base + modulus, base + 2 * modulus)
      modifies this`waiting
      ensures ListsFit()
    {
      hide OneList, Holds;
      var t := current;
      ListMembersOf(delayed, was, 0, base + modulus);
      JoinHolds(waiting, was, Indefinite, t);
      OtherList(delayed, was, wakeAt, Timed, 0, base + modulus, t, wakeAt[t], Indefinite);
      OtherList(overflow, was, wakeAt, Timed, base + modulus, base + 2 * modulus, t, wakeAt[t], Indefinite);
      assert wakeAt[t := wakeAt[t]] == wakeAt;
      waiting := waiting + [t];
    }

    /** prvAddCurrentTaskToDelayedList: the current task blocks for d ticks, or for good. */
    method DelayCurrent(d: nat, indefinitely: bool)
      requires Valid() && 1 <= d < modulus && place[current] == Ready
      modifies this`delayed, this`overflow, this`waiting, this`ready, this`place, this`item, this`nextUnblock, this`wakeAt
      ensures Valid()
      ensures d == modulus - 1 && indefinitely ==> place == old(place)[current := Indefinite] && wakeAt == old(wakeAt)
      ensures !(d == modulus - 1 && indefinitely) ==>
                place == old(place)[current := Timed] && wakeAt == old(wakeAt)[current := time + d]
    {
      hide Clock, WrapsFit, ReadyFit, ListsFit, ItemsFit, NextFit, Holds, NoDup;
      ghost var was := place;
      if d == modulus - 1 && indefinitely {
        BlockForGood();
      } else {
        BlockFor(d);
      }
      EndSame(was);
    }

    method BlockForGood()
      requires Clock() && ReadyFit() && ListsFit() && ItemsFit(time) && NextFit() && current in place && place[current] == Ready
      modifies this`waiting, this`ready, this`place
      ensures Clock() && ReadyFit() && ListsFit() && ItemsFit(time) && NextFit() && place == old(place)[current := Indefinite]
    {
      hide ReadyFit, OneList, Holds, Sorted, NoDup, Values;
      ghost var was := place;
      ValuesLeave(was, wakeAt, item, base, modulus, time, current);
      LeaveReady(Indefinite);
      WaitForever(was);
    }

    method BlockFor(d: nat)
      requires Clock() && ReadyFit() && ListsFit() && ItemsFit(time) && NextFit() && current in place && place[current] == Ready
      requires 1 <= d < modulus
      modifies this`delayed, this`overflow, this`ready, this`place, this`item, this`nextUnblock, this`wakeAt
      ensures Clock() && ReadyFit() && ListsFit() && ItemsFit(time) && NextFit()
      ensures place == old(place)[current := Timed] && wakeAt == old(wakeAt)[current := time + d]
    {
      hide ReadyFit, OneList, Holds, Sorted, NoDup, Values;
      ghost var was := place;
      ValuesLeave(was, wakeAt, item, base, modulus, time, current);
      LeaveReady(Timed);
      OtherHolds(waiting, was, Indefinite, current, Timed);
      var wake := if tick + d < modulus then tick + d else tick + d - modulus;
      ValuesWith(was, wakeAt, item, base, modulus, time, current, d, wake);
      if wake < tick {
        EnterOverflow(d, wake, was);
      } else {
        EnterDelayed(d, wake, was);
      }
    }

    /** Put the current task on the overflow list. */
    method EnterOverflow(d: nat, wake: nat, ghost was: map<Task, Place>)
      requires Clock() && 1 <= d < modulus && current in was && was[current] == Ready && place == was[current := Timed]
      requires wake == if tick + d < modulus then tick + d else tick + d - modulus
      requires item.Keys == was.Keys
      requires OneList(delayed, was, wakeAt, Timed, 0, base + modulus)
      requires OneList(overflow, was, wakeAt, Timed, base + modulus, base + 2 * modulus)
      requires Holds(waiting, place, Indefinite)
      requires Values(place, wakeAt[current := time + d], item[current := wake], base, modulus, time)
      requires Sorted(delayed, item) && Sorted(overflow, item) && NextFit()
      requires wake < tick
      modifies this`item, this`overflow, this`wakeAt
      ensures Clock() && ListsFit() && ItemsFit(time) && NextFit()
      ensures wakeAt == old(wakeAt)[current := time + d]
    {
      hide OneList, Holds, Values, Sorted, Insert, NoDup;
      var t := current;
      KeysKept(item, t, wake);
      ListMembersOf(delayed, was, 0, base + modulus);
      ListMembersOf(overflow, was, base + modulus, base + 2 * modulus);
      ghost var w := time + d;
      var v := item[t := wake];
      EnterSorted(delayed, item, t, wake);
      EnterSorted(overflow, item, t, wake);
      JoinList(overflow, was, wakeAt, Timed, base + modulus, base + 2 * modulus, t, w, v);
      OtherList(delayed, was, wakeAt, Timed, 0, base + modulus, t, w, Timed);
      overflow := Insert(overflow, v, t);
      item, wakeAt := v, wakeAt[t := w];
    }

    /** Put the current task on the current list. */
    method EnterDelayed(d: nat, wake: nat, ghost was: map<Task, Place>)
      requires Clock() && 1 <= d < modulus && current in was && was[current] == Ready && place == was[current := Timed]
      requires wake == if tick + d < modulus then tick + d else tick + d - modulus
      requires item.Keys == was.Keys
      requires OneList(delayed, was, wakeAt, Timed, 0, base + modulus)
      requires OneList(overflow, was, wakeAt, Timed, base + modulus, base + 2 * modulus)
      requires Holds(waiting, place, Indefinite)
      requires Values(place, wakeAt[current := time + d], item[current := wake], base, modulus, time)
      requires Sorted(delayed, item) && Sorted(overflow, item) && NextFit()
      requires wake >= tick
      modifies this`item, this`delayed, this`nextUnblock, this`wakeAt
      ensures Clock() && ListsFit() && ItemsFit(time) && NextFit()
      ensures wakeAt == old(wakeAt)[current := time + d]
    {
      hide OneList, Holds, Values, Sorted, Insert, NoDup;
      var t := current;
      KeysKept(item, t, wake);
      ListMembersOf(delayed, was, 0, base + modulus);
      ListMembersOf(overflow, was, base + modulus, base + 2 * modulus);
      ghost var w := time + d;
      var v := item[t := wake];
      EnterSorted(delayed, item, t, wake);
      EnterSorted(overflow, item, t, wake);
      JoinList(delayed, was, wakeAt, Timed, 0, base + modulus, t, w, v);
      OtherList(overflow, was, wakeAt, Timed, base + modulus, base + 2 * modulus, t, w, Timed);
      InsertMembers(delayed, v, t);
      delayed := Insert(delayed, v, t);
      if wake < nextUnblock {
        nextUnblock := wake;
      }
      item, wakeAt := v, wakeAt[t := w];
    }

    lemma ListMembersOf(l: seq<Task>, was: map<Task, Place>, lo: nat, hi: nat)
      requires OneList(l, was, wakeAt, Timed, lo, hi)
      ensures wakeAt.Keys == was.Keys && NoDup(l) && forall t :: t in l ==> t in was && was[t] == Timed
    {}

    // ---- Events, suspending and resuming the scheduler ------------------------------------

    /** xTaskRemoveFromEventList for the task t at the head of an event list. */
    method RemoveFromEventList(t: Task)
      requires Valid() && t in place && IsBlocked(place[t]) && t !in pendingReady
      modifies this`delayed, this`overflow, this`waiting, this`ready, this`topReady, this`place, this`pendingReady
      ensures Valid()
      ensures suspended == 0 ==> place == old(place)[t := Ready] && pendingReady == old(pendingReady)
      ensures suspended > 0 ==> place == old(place) && pendingReady == old(pendingReady) + [t]
    {
      hide Clock, WrapsFit, ReadyFit, ListsFit, ItemsFit, NextFit, Holds;
      ghost var was := place;
      if suspended == 0 {
        Unblock(t, time);
        EndSame(was);
      } else {
        pendingReady := pendingReady + [t];
      }
    }

    /** vTaskSuspendAll. */
    method SuspendAll()
      requires Valid()
      modifies this`suspended
      ensures Valid() && suspended == old(suspended) + 1
    {
      hide Clock, WrapsFit, ReadyFit, ListsFit, ItemsFit, NextFit;
      suspended := suspended + 1;
    }

    /** The pending tasks have become ready since then, and no others. */
    ghost predicate Readied(was: map<Task, Place>, pending: seq<Task>)
      reads this`place
    {
      place.Keys == was.Keys && forall t :: t in place ==> place[t] == if t in pending then Ready else was[t]
    }

    /** The first loop of xTaskResumeAll: the tasks readied by events while the scheduler was suspended. */
    method ReadyPending()
      requires Clock() && ReadyFit() && ListsFit() && ItemsFit(time) && NextFit() && PendingTasks()
      modifies this`delayed, this`overflow, this`waiting, this`ready, this`topReady, this`place, this`pendingReady,
               this`nextUnblock
      ensures Clock() && ReadyFit() && ListsFit() && ItemsFit(time) && NextFit() && pendingReady == []
      ensures Readied(old(place), old(pendingReady))
    {
      hide ReadyFit, ListsFit, ItemsFit, NextFit;
      ghost var was, all := place, pendingReady;
      var any := false;
      while pendingReady != []
        invariant Clock() && ReadyFit() && ListsFit() && ItemsFit(time) && NextFit() && NoDup(pendingReady)
        invariant place.Keys == was.Keys
        invariant forall t :: t in pendingReady ==> t in all && t in place && place[t] != Ready
        invariant forall t :: t in place ==> place[t] == if t in all && t !in pendingReady then Ready else was[t]
        decreases |pendingReady|
      {
        var t := pendingReady[0];
        assert t !in pendingReady[1..];
        Unblock(t, time);
        pendingReady := pendingReady[1..];
        any := true;
      }
      if any {
        Weaker();
        ResetNext();
      }
    }

    lemma Weaker()
      requires ItemsFit(time)
      ensures ItemsFit(time - 1)
    {}

    /** The pending tasks, and the timed tasks due by now, have become ready since then. */
    ghost predicate Replayed(was: map<Task, Place>, pending: seq<Task>)
      reads this`place, this`wakeAt, this`time
    {
      && place.Keys == was.Keys == wakeAt.Keys
      && forall t :: t in place ==>
           place[t] == if t in pending || (was[t] == Timed && wakeAt[t] <= time) then Ready else was[t]
    }

    lemma ReplayMore(was: map<Task, Place>, pending: seq<Task>, mid: map<Task, Place>, then_: nat)
      requires WokeDue(mid) && was.Keys == mid.Keys && then_ <= time
      requires forall t :: t in mid ==>
                 mid[t] == if t in pending || (was[t] == Timed && wakeAt[t] <= then_) then Ready else was[t]
      ensures Replayed(was, pending)
    {}

    /** The last loop of xTaskResumeAll: the ticks counted while the scheduler was suspended. */
    method ReplayTicks(ghost was: map<Task, Place>, ghost pending: seq<Task>)
      requires Clock() && WrapsFit() && ReadyFit() && ListsFit() && ItemsFit(time) && NextFit() && Replayed(was, pending)
      modifies this`tick, this`time, this`base, this`delayed, this`overflow, this`overflows, this`waiting,
               this`ready, this`topReady, this`place, this`nextUnblock, this`pended
      ensures Clock() && WrapsFit() && ReadyFit() && ListsFit() && ItemsFit(time) && NextFit() && Replayed(was, pending)
      ensures pended == 0 && time == old(time) + old(pended)
    {
      hide WrapsFit, ReadyFit, ListsFit, ItemsFit, NextFit, WokeDue;
      var counts := pended;
      ghost var end := time + counts;
      while counts > 0
        invariant Clock() && WrapsFit() && ReadyFit() && ListsFit() && ItemsFit(time) && NextFit() && Replayed(was, pending)
        invariant 0 <= counts && time + counts == end
      {
        ghost var mid, now := place, time;
        Tick();
        ReplayMore(was, pending, mid, now);
        counts := counts - 1;
      }
      pended := 0;
    }

    /** xTaskResumeAll: at the last resume nothing that happened meanwhile is lost. */
    method ResumeAll()
      requires Valid() && suspended > 0
      modifies this`suspended, this`pended, this`pendingReady, this`tick, this`time, this`base, this`delayed, this`overflow,
               this`overflows, this`waiting, this`ready, this`topReady, this`place, this`nextUnblock
      ensures Valid() && suspended == old(suspended) - 1
      ensures suspended > 0 ==> time == old(time) && pended == old(pended) && place == old(place) && pendingReady == old(pendingReady)
      ensures suspended == 0 ==> time == old(time) + old(pended) && pended == 0 && pendingReady == []
      ensures suspended == 0 ==> Replayed(old(place), old(pendingReady))
    {
      hide Clock, WrapsFit, ReadyFit, ListsFit, ItemsFit, NextFit, Holds, Replayed, PendingTasks;
      suspended := suspended - 1;
      if suspended == 0 {
        CatchUp();
      }
    }

    /** What the last resume has to make up for. */
    method CatchUp()
      requires Clock() && WrapsFit() && ReadyFit() && ListsFit() && ItemsFit(time) && NextFit() && PendingTasks() && EndFit()
      requires current in place
      modifies this`pended, this`pendingReady, this`tick, this`time, this`base, this`delayed, this`overflow,
               this`overflows, this`waiting, this`ready, this`topReady, this`place, this`nextUnblock
      ensures Clock() && WrapsFit() && ReadyFit() && ListsFit() && ItemsFit(time) && NextFit() && PendingTasks() && EndFit()
      ensures current in place && time == old(time) + old(pended) && pended == 0 && pendingReady == []
      ensures Replayed(old(place), old(pendingReady))
    {
      hide Clock, WrapsFit, ReadyFit, ListsFit, ItemsFit, NextFit, Holds, Readied;
      ghost var was, pending := place, pendingReady;
      ReadyPending();
      StillTimed(was, pending);
      ReplayTicks(was, pending);
      EndSame(was);
    }

    lemma StillTimed(was: map<Task, Place>, pending: seq<Task>)
      requires ListsFit() && ItemsFit(time) && Readied(was, pending)
      ensures Replayed(was, pending)
    {}

    // ---- Creating and deleting tasks -------------------------------------------------------

    /** vTaskStartScheduler, as far as the lists go. */
    method Start()
      requires Valid()
      modifies this`running
      ensures Valid() && running
    {
      hide Clock, WrapsFit, ReadyFit, ListsFit, ItemsFit, NextFit, PendingFit, EndFit;
      running := true;
    }

    /** prvAddNewTaskToReadyList: before the scheduler runs, the task that will run first is chosen here. */
    method CreateTask(t: Task, p: nat)
      requires Valid() && t !in place && p < priorities
      modifies this`ready, this`topReady, this`place, this`prio, this`item, this`wakeAt, this`current
      ensures Valid()
      ensures place == old(place)[t := Ready] && prio == old(prio)[t := p] && wakeAt == old(wakeAt)[t := 0]
      ensures old(current) in old(prio) && current == if !running && old(prio)[old(current)] <= p then t else old(current)
    {
      hide Clock, WrapsFit, ReadyFit, ListsFit, ItemsFit, NextFit, PendingFit, EndFit;
      CurrentKnown();
      var next := if !running && prio[current] <= p then t else current;
      AddTask(t, p);
      current := next;
    }

    lemma CurrentKnown()
      requires Valid()
      ensures current in prio
    {}

    method AddTask(t: Task, p: nat)
      requires Valid() && t !in place && p < priorities
      modifies this`ready, this`topReady, this`place, this`prio, this`item, this`wakeAt
      ensures Valid() && place == old(place)[t := Ready] && prio == old(prio)[t := p] && wakeAt == old(wakeAt)[t := 0]
    {
      hide Valid, AllFit, NotLater, Clock, WrapsFit;
      CreateFits(t, p);
      AppendReady(t, p);
      Enrol(t, p);
      Assembled();
    }

    /** uxListRemove of the state item and of the event item. */
    method Unlist(t: Task)
      requires t in prio && prio[t] < |ready|
      modifies this`delayed, this`overflow, this`waiting, this`ready, this`pendingReady
      ensures delayed == Without(old(delayed), t) && overflow == Without(old(overflow), t)
      ensures waiting == Without(old(waiting), t) && pendingReady == Without(old(pendingReady), t)
      ensures ready == old(ready)[prio[t] := Without(old(ready)[prio[t]], t)]
    {
      delayed, overflow, waiting := Without(delayed, t), Without(overflow, t), Without(waiting, t);
      ready := ready[prio[t] := Without(ready[prio[t]], t)];
      pendingReady := Without(pendingReady, t);
    }

    /** A new task control block. */
    method Enrol(t: Task, p: nat)
      modifies this`place, this`prio, this`item, this`wakeAt
      ensures place == old(place)[t := Ready] && prio == old(prio)[t := p]
      ensures item == old(item)[t := 0] && wakeAt == old(wakeAt)[t := 0]
    {
      place, prio, item, wakeAt := place[t := Ready], prio[t := p], item[t := 0], wakeAt[t := 0];
    }

    /** prvDeleteTCB. */
    method Forget(t: Task)
      modifies this`place, this`prio, this`item, this`wakeAt
      ensures place == old(place) - {t} && prio == old(prio) - {t} && item == old(item) - {t} && wakeAt == old(wakeAt) - {t}
    {
      place, prio, item, wakeAt := place - {t}, prio - {t}, item - {t}, wakeAt - {t};
    }

    /** The parts of the invariant, in terms of the lists. */
    lemma Assembled()
      requires Clock() && WrapsFit() && current in place && (suspended == 0 ==> pended == 0 && pendingReady == []) && |ready| == priorities
      requires AllFit(ready, topReady, prio, place, delayed, overflow, waiting, terminating, pendingReady, wakeAt, item, base, modulus, time)
      requires NotLater(nextUnblock, delayed, item)
      ensures Valid()
    {
      hide OneList, Holds, Sorted, Values, NotLater, Pending, ReadyLists, Tops, WrapsFit;
    }

    /** The lists with one more task. */
    lemma CreateFits(t: Task, p: nat)
      requires Valid() && t !in place && p < priorities
      ensures current in prio && current in place && p < |ready| == priorities && Clock() && WrapsFit()
      ensures suspended == 0 ==> pended == 0 && pendingReady == []
      ensures NotLater(nextUnblock, delayed, item[t := 0])
      ensures AllFit(ready[p := ready[p] + [t]], if p > topReady then p else topReady, prio[t := p], place[t := Ready], delayed,
                     overflow, waiting, terminating, pendingReady, wakeAt[t := 0], item[t := 0], base, modulus, time)
    {
      hide OneList, Holds, Sorted, Values, ReadyLists, Tops, WrapsFit;
      Strangers(t);
      NewElsewhere(delayed, place, wakeAt, Timed, 0, base + modulus, t);
      NewElsewhere(overflow, place, wakeAt, Timed, base + modulus, base + 2 * modulus, t);
      NewElsewhere(waiting, place, wakeAt, Indefinite, 0, 0, t);
      NewElsewhere(terminating, place, wakeAt, Terminating, 0, 0, t);
      OtherValues(place, wakeAt, item, base, modulus, time, t);
      OtherSorted(delayed, item, t);
      OtherSorted(overflow, item, t);
      NewReady(ready, prio, place, t, p);
      TopsUp(ready, topReady, p, ready[p] + [t]);
    }

    /** The lists hold tasks of the kernel only, none of them twice. */
    lemma Strangers(t: Task)
      requires Valid()
      ensures t !in place ==> t !in delayed && t !in overflow && t !in pendingReady
      ensures NoDup(delayed) && NoDup(overflow) && NoDup(waiting) && NoDup(terminating) && NoDup(pendingReady)
      ensures prio.Keys == place.Keys
    {}

    /** vTaskDelete of another task, ready or blocked, perhaps made ready by an event meanwhile. */
    method Delete(t: Task)
      requires Valid() && t in place && t != current && place[t] != Terminating
      modifies this`delayed, this`overflow, this`waiting, this`ready, this`place, this`prio, this`item, this`wakeAt,
               this`pendingReady, this`nextUnblock
      ensures Valid()
      ensures place == old(place) - {t} && prio == old(prio) - {t} && wakeAt == old(wakeAt) - {t}
      ensures pendingReady == Without(old(pendingReady), t)
    {
      hide Valid, AllFit, NotLater, Clock, WrapsFit, Without;
      GoneFits(t);
      Unlist(t);
      Forget(t);
      FindNext();
      Assembled();
    }

    /** prvResetNextTaskUnblockTime with lists that are in order. */
    method FindNext()
      requires Clock()
      requires AllFit(ready, topReady, prio, place, delayed, overflow, waiting, terminating, pendingReady, wakeAt, item, base, modulus, time)
      modifies this`nextUnblock
      ensures Clock() && NotLater(nextUnblock, delayed, item)
    {
      hide OneList, Holds, Sorted, Values;
      Weaker();
      ResetNext();
    }

    /** The lists without a task. */
    lemma GoneFits(t: Task)
      requires Valid() && t in place
      ensures t in prio && prio[t] < |ready| == priorities && Clock() && WrapsFit() && current in place
      ensures suspended == 0 ==> pended == 0 && pendingReady == [] && Without(pendingReady, t) == []
      ensures place[t] != Terminating ==> Without(terminating, t) == terminating
      ensures AllFit(ready[prio[t] := Without(ready[prio[t]], t)], topReady, prio - {t}, place - {t}, Without(delayed, t),
                     Without(overflow, t), Without(waiting, t), Without(terminating, t), Without(pendingReady, t),
                     wakeAt - {t}, item - {t}, base, modulus, time)
    {
      hide OneList, Sorted, Values, ReadyLists, Tops, WrapsFit, Without;
      Strangers(t);
      GoneElsewhere(delayed, place, wakeAt, Timed, 0, base + modulus, t);
      GoneElsewhere(overflow, place, wakeAt, Timed, base + modulus, base + 2 * modulus, t);
      GoneElsewhere(waiting, place, wakeAt, Indefinite, 0, 0, t);
      GoneElsewhere(terminating, place, wakeAt, Terminating, 0, 0, t);
      if place[t] != Terminating {
        WithoutOther(terminating, t);
      }
      OtherValues(place, wakeAt, item, base, modulus, time, t);
      OtherSorted(delayed, item, t);
      OtherSorted(overflow, item, t);
      GoneReady(ready, prio, place, t);
      WithoutMembers(pendingReady, t);
      WithoutEmpty(pendingReady, t);
      WithoutEmpty(ready[prio[t]], t);
      TopsDown(ready, topReady, prio[t], Without(ready[prio[t]], t));
    }

    /** vTaskDelete of the running task: it goes to the list of tasks to be cleaned up. */
    method DeleteSelf()
      requires Valid() && place[current] == Ready
      modifies this`ready, this`place, this`terminating
      ensures Valid() && place == old(place)[current := Terminating] && terminating == old(terminating) + [current]
    {
      hide OneList, Holds, Sorted, Values, NoDup, WrapsFit, ReadyFit;
      ghost var was := place;
      ListMembersOf(delayed, was, 0, base + modulus);
      OtherList(delayed, was, wakeAt, Timed, 0, base + modulus, current, wakeAt[current], Terminating);
      OtherList(overflow, was, wakeAt, Timed, base + modulus, base + 2 * modulus, current, wakeAt[current], Terminating);
      OtherHolds(waiting, was, Indefinite, current, Terminating);
      JoinHolds(terminating, was, Terminating, current);
      EndingValues(current);
      LeaveReady(Terminating);
      terminating := terminating + [current];
      assert wakeAt[current := wakeAt[current]] == wakeAt;
    }

    lemma EndingValues(t: Task)
      requires Values(place, wakeAt, item, base, modulus, time) && t in place
      ensures Values(place[t := Terminating], wakeAt, item, base, modulus, time)
    {}

    /** prvCheckTasksWaitingTermination: the idle task disposes of a task that has ended. */
    method CleanUp()
      requires Valid() && terminating != [] && terminating[0] != current
      modifies this`place, this`prio, this`item, this`wakeAt, this`terminating
      ensures Valid() && terminating == old(terminating)[1..]
      ensures var t := old(terminating)[0]; place == old(place) - {t} && prio == old(prio) - {t} && wakeAt == old(wakeAt) - {t}
    {
      hide Valid, AllFit, NotLater, Clock, WrapsFit, Without;
      var t := terminating[0];
      Ended(t);
      GoneFits(t);
      terminating := terminating[1..];
      Forget(t);
      Assembled();
    }

    /** A task that has ended is in no other list. */
    lemma Ended(t: Task)
      requires Valid() && terminating != [] && t == terminating[0]
      ensures t in place && t in prio && prio[t] < |ready| && place[t] == Terminating && Without(terminating, t) == terminating[1..]
      ensures Without(pendingReady, t) == pendingReady && NotLater(nextUnblock, delayed, item - {t})
      ensures Without(delayed, t) == delayed && Without(overflow, t) == overflow && Without(waiting, t) == waiting
      ensures ready[prio[t] := Without(ready[prio[t]], t)] == ready
    {
      HeadIn(terminating);
      assert ReadyList(ready[prio[t]], prio, place, prio[t]);
      WithoutOther(pendingReady, t);
      WithoutOther(delayed, t);
      WithoutOther(overflow, t);
      WithoutOther(waiting, t);
      WithoutOther(ready[prio[t]], t);
    }

    // ---- Selection and priorities ----------------------------------------------------------

    /** taskSELECT_HIGHEST_PRIORITY_TASK: some task must be ready, as the idle task always is. */
    method SwitchContext(ghost idle: Task)
      requires Valid() && suspended == 0 && idle in place && place[idle] == Ready
      modifies this`topReady, this`current
      ensures Valid() && current in place && place[current] == Ready
      ensures forall t :: t in place && place[t] == Ready ==> prio[t] <= prio[current]
    {
      hide ListsFit, ItemsFit, NextFit, PendingFit;
      var top := topReady;
      IdleBelow(idle);
      while ready[top] == []
        invariant prio[idle] <= top <= topReady && Tops(ready, top)
        decreases top
      {
        assert idle in ready[prio[idle]];
        top := top - 1;
      }
      assert ready[top][0] in ready[top];
      var next :| next in ready[top];  // listGET_OWNER_OF_NEXT_ENTRY shares the processor among them
      current, topReady := next, top;
      HighestReady(top);
    }

    lemma IdleBelow(idle: Task)
      requires ReadyFit() && idle in place && place[idle] == Ready
      ensures idle in prio && prio[idle] <= topReady < |ready| && idle in ready[prio[idle]]
    {
      assert ReadyList(ready[prio[idle]], prio, place, prio[idle]);
    }

    lemma HighestReady(top: nat)
      requires ReadyFit() && Tops(ready, top) && current in ready[top]
      ensures current in place && place[current] == Ready && prio[current] == top
      ensures forall t :: t in place && place[t] == Ready ==> prio[t] <= top
    {
      assert ReadyList(ready[top], prio, place, top);
      forall t | t in place && place[t] == Ready
        ensures prio[t] <= top
      {
        assert ReadyList(ready[prio[t]], prio, place, prio[t]);
      }
    }

    /** Give a task another priority, moving it to the ready list of that priority if it is ready. */
    method SetPriority(t: Task, p: nat)
      requires Valid() && t in place && p < priorities
      modifies this`prio, this`ready, this`topReady
      ensures Valid() && prio == old(prio)[t := p]
    {
      hide ListsFit, ItemsFit, NextFit, PendingFit, ReadyLists, Tops;
      ReadyRange(t);
      if t in ready[prio[t]] {
        MoveReady(ready, prio, place, t, p);
        var l := Without(ready[prio[t]], t);
        TopsDown(ready, topReady, prio[t], l);
        ready := ready[prio[t] := l];
        prio := prio[t := p];
        TopsUp(ready, topReady, p, ready[p] + [t]);
        AppendReady(t, p);
      } else {
        KeepReady(ready, prio, place, t, p);
        prio := prio[t := p];
      }
    }
  }
}
