/**
Priority inheritance: tasks that take, wait for, time out on and give back mutexes. Every
critical section is one step.
*/
module MutexPriority {
  import opened Optional
  import opened TaskLists

  type Mutex = nat

  /** item is the priority coded in the event list item: the order of a waiting list goes by it. */
  datatype Tcb = Tcb(basePriority: nat, priority: nat, mutexesHeld: nat, item: nat)

  /** The waiters are xTasksWaitingToReceive, highest priority first. */
  datatype MutexState = MutexState(holder: Option<Task>, waiters: seq<Task>)

  datatype Sys = Sys(
    tcb: seq<Tcb>,
    mutex: seq<MutexState>,
    blamed: set<Task>,         // tasks whose call saw xInheritanceOccurred
    late: map<Task, Mutex>,    // tasks that have timed out and not yet looked at the mutex again
    woken: map<Task, Mutex>)   // tasks that a give has woken and that have not yet got the mutex

  datatype Step =
    | Take(t: Task, m: Mutex)
    | Block(t: Task, m: Mutex)
    | Give(t: Task, m: Mutex)
    | TimeOut(t: Task, m: Mutex)
    | GiveUp(t: Task, m: Mutex)

  /** Holders and waiters are tasks of the system. */
  ghost predicate Known(s: Sys) {
    forall m :: 0 <= m < |s.mutex| ==> KnownMutex(s.mutex[m], |s.tcb|)
  }

  predicate KnownMutex(x: MutexState, n: nat) {
    (x.holder.Some? ==> x.holder.value < n) && Within(x.waiters, n)
  }

  predicate Within(l: seq<Task>, n: nat) { forall i :: 0 <= i < |l| ==> l[i] < n }

  // ---- The kernel functions ---------------------------------------------------------------

  /** xTaskPriorityInherit: a mutex holder inherits the priority p of a task that will wait. */
  function Inherit(h: Tcb, p: nat): Tcb {
    if h.priority < p then h.(priority := p, item := p) else h
  }

  /** What xTaskPriorityInherit returns. */
  predicate Inherited(h: Tcb, p: nat) {
    h.priority < p || h.basePriority < p
  }

  /** xTaskPriorityDisinherit: the running task gives a mutex back. */
  function Disinherit(t: Tcb): Tcb
    requires t.mutexesHeld > 0
  {
    var u := t.(mutexesHeld := t.mutexesHeld - 1);
    if t.priority != t.basePriority && u.mutexesHeld == 0
    then u.(priority := t.basePriority, item := t.basePriority) else u
  }

  /** prvGetDisinheritPriorityAfterTimeout. */
  function HighestWaiting(tcb: seq<Tcb>, waiters: seq<Task>): nat
    requires Within(waiters, |tcb|)
  {
    if waiters == [] then 0 else tcb[waiters[0]].item
  }

  /** vTaskPriorityDisinheritAfterTimeout. */
  function DisinheritAfterTimeout(h: Tcb, highest: nat): Tcb {
    var p := if h.basePriority < highest then highest else h.basePriority;
    if h.priority != p && h.mutexesHeld == 1 then h.(priority := p, item := p) else h
  }

  /** vListInsert into a waiting list: behind the waiters of the same or a higher priority. */
  function Enter(l: seq<Task>, tcb: seq<Tcb>, t: Task): seq<Task>
    requires t < |tcb| && Within(l, |tcb|)
  {
    if l == [] then [t]
    else if tcb[l[0]].item >= tcb[t].item then [l[0]] + Enter(l[1..], tcb, t)
    else [t] + l
  }

  // ---- The steps ------------------------------------------------------------------------

  ghost predicate Waits(s: Sys, t: Task) {
    exists m :: 0 <= m < |s.mutex| && t in s.mutex[m].waiters
  }

  /** The task is not blocked, and if it has just been it goes on with the same mutex. */
  ghost predicate Attends(s: Sys, t: Task, m: Mutex) {
    !Waits(s, t) && (t in s.late ==> s.late[t] == m) && (t in s.woken ==> s.woken[t] == m)
  }

  /**
  A task that has come off a waiting list tries to take the mutex again; failing that, it
  blocks once more or, when its time is over, gives up. The time may be over while the task
  waits, or when it has been woken and finds that another task was faster.
  */
  ghost predicate Enabled(s: Sys, a: Step) {
    && Known(s) && a.t < |s.tcb| && a.m < |s.mutex|
    && match a
       case Take(t, m) => Attends(s, t, m) && s.mutex[m].holder == None
       case Block(t, m) => Attends(s, t, m) && t !in s.late && s.mutex[m].holder.Some?
       case Give(t, m) => !Waits(s, t) && t !in s.late && t !in s.woken && s.mutex[m].holder == Some(t) && s.tcb[t].mutexesHeld > 0
       case TimeOut(t, m) =>
         t in s.mutex[m].waiters || (Attends(s, t, m) && t in s.woken && s.mutex[m].holder.Some?)
       case GiveUp(t, m) => Attends(s, t, m) && t in s.late
  }

  function Taken(s: Sys, t: Task, m: Mutex): Sys
    requires t < |s.tcb| && m < |s.mutex|
  {
    s.(tcb := s.tcb[t := s.tcb[t].(mutexesHeld := s.tcb[t].mutexesHeld + 1)],
       mutex := s.mutex[m := s.mutex[m].(holder := Some(t))], late := s.late - {t}, woken := s.woken - {t})
  }

  /** The task control blocks when t is about to wait for a mutex of h. */
  function Inheriting(tcb: seq<Tcb>, h: Task, t: Task): seq<Tcb>
    requires h < |tcb| && t < |tcb|
  {
    var u := tcb[h := Inherit(tcb[h], tcb[t].priority)];
    u[t := u[t].(item := u[t].priority)]
  }

  ghost function Apply(s: Sys, a: Step): Sys
    requires Enabled(s, a)
  {
    var x := s.mutex[a.m];
    match a
    case Take(t, m) => Taken(s, t, m)
    case Block(t, m) =>
      var h := x.holder.value;
      var tcb := Inheriting(s.tcb, h, t);
      s.(tcb := tcb, mutex := s.mutex[m := x.(waiters := Enter(x.waiters, tcb, t))], woken := s.woken - {t},
         blamed := if Inherited(s.tcb[h], s.tcb[t].priority) then s.blamed + {t} else s.blamed - {t})
    case Give(t, m) =>
      s.(tcb := s.tcb[t := Disinherit(s.tcb[t])],
         mutex := s.mutex[m := MutexState(None, if x.waiters == [] then [] else x.waiters[1..])],
         woken := if x.waiters == [] then s.woken else s.woken[x.waiters[0] := m])
    case TimeOut(t, m) =>
      if t in x.waiters then s.(mutex := s.mutex[m := x.(waiters := Without(x.waiters, t))], late := s.late[t := m])
      else s.(late := s.late[t := m], woken := s.woken - {t})
    case GiveUp(t, m) =>
      var u := s.(late := s.late - {t});
      if t in s.blamed && x.holder.Some? then
        var h := x.holder.value;
        u.(tcb := s.tcb[h := DisinheritAfterTimeout(s.tcb[h], HighestWaiting(s.tcb, x.waiters))])
      else u
  }

  // ---- What every run keeps ----------------------------------------------------------------

  ghost function Owned(mutex: seq<MutexState>, t: Task): set<Mutex> {
    set m | 0 <= m < |mutex| && mutex[m].holder == Some(t)
  }

  /** uxMutexesHeld counts the mutexes held. */
  ghost predicate Counts(s: Sys) {
    forall t :: 0 <= t < |s.tcb| ==> s.tcb[t].mutexesHeld == |Owned(s.mutex, t)|
  }

  /** No task runs below its base priority, and one that holds nothing runs at it. */
  predicate Floor(t: Tcb) {
    t.basePriority <= t.priority && (t.mutexesHeld == 0 ==> t.priority == t.basePriority)
  }

  ghost predicate Inv(s: Sys) {
    Known(s) && Counts(s) && forall t :: 0 <= t < |s.tcb| ==> Floor(s.tcb[t])
  }

  lemma {:induction false} EnterMembers(l: seq<Task>, tcb: seq<Tcb>, t: Task)
    requires t < |tcb| && Within(l, |tcb|)
    ensures forall x :: x in Enter(l, tcb, t) <==> x in l || x == t
    ensures Within(Enter(l, tcb, t), |tcb|) && (NoDup(l) && t !in l ==> NoDup(Enter(l, tcb, t)))
  {
    if l != [] && tcb[l[0]].item >= tcb[t].item {
      EnterMembers(l[1..], tcb, t);
      assert l == [l[0]] + l[1..];
      assert NoDup(l) ==> l[0] !in l[1..];
    }
  }

  /** A waiter comes behind those of the same or a higher priority, and before all others of a list in order. */
  lemma {:induction false} EnterPlace(l: seq<Task>, tcb: seq<Tcb>, t: Task) returns (k: nat)
    requires t < |tcb| && Within(l, |tcb|)
    ensures k <= |l| && Enter(l, tcb, t) == l[..k] + [t] + l[k..]
    ensures (forall i :: 0 <= i < k ==> tcb[l[i]].item >= tcb[t].item) && (k < |l| ==> tcb[l[k]].item < tcb[t].item)
  {
    k := 0;
    if l != [] && tcb[l[0]].item >= tcb[t].item {
      var j := EnterPlace(l[1..], tcb, t);
      k := j + 1;
      assert l[..k] == [l[0]] + l[1..][..j] && l[k..] == l[1..][j..];
      forall i | 0 <= i < k
        ensures tcb[l[i]].item >= tcb[t].item
      {
        assert i > 0 ==> l[i] == l[1..][i - 1];
      }
    }
  }

  lemma {:induction false} WithoutWithin(l: seq<Task>, t: Task, n: nat)
    requires Within(l, n)
    ensures Within(Without(l, t), n)
  {
    if l != [] {
      WithoutWithin(l[1..], t, n);
    }
  }

  /** Mutexes change without changing hands, task control blocks without the number of mutexes. */
  lemma CountsSame(s: Sys, u: Sys)
    requires Counts(s) && |u.tcb| == |s.tcb| && |u.mutex| == |s.mutex|
    requires forall m :: 0 <= m < |s.mutex| ==> u.mutex[m].holder == s.mutex[m].holder
    requires forall t :: 0 <= t < |s.tcb| ==> u.tcb[t].mutexesHeld == s.tcb[t].mutexesHeld
    ensures Counts(u)
  {
    forall t ensures Owned(u.mutex, t) == Owned(s.mutex, t) {}
  }

  /** A task gets a mutex, or gives one back. */
  lemma CountsChange(s: Sys, u: Sys, t: Task, m: Mutex)
    requires Counts(s) && t < |s.tcb| == |u.tcb| && m < |s.mutex| == |u.mutex|
    requires forall k :: 0 <= k < |s.mutex| && k != m ==> u.mutex[k].holder == s.mutex[k].holder
    requires forall x :: 0 <= x < |s.tcb| && x != t ==> u.tcb[x].mutexesHeld == s.tcb[x].mutexesHeld
    requires (u.mutex[m].holder == Some(t) && s.mutex[m].holder == None && u.tcb[t].mutexesHeld == s.tcb[t].mutexesHeld + 1)
          || (u.mutex[m].holder == None && s.mutex[m].holder == Some(t) && u.tcb[t].mutexesHeld == s.tcb[t].mutexesHeld - 1)
    ensures Counts(u)
  {
    if u.mutex[m].holder == None {
      assert Owned(s.mutex, t) == Owned(u.mutex, t) + {m};
    } else {
      assert Owned(u.mutex, t) == Owned(s.mutex, t) + {m};
    }
    forall x | x != t ensures Owned(u.mutex, x) == Owned(s.mutex, x) {}
  }

  lemma HolderHolds(s: Sys, m: Mutex)
    requires Inv(s) && m < |s.mutex| && s.mutex[m].holder.Some?
    ensures s.mutex[m].holder.value < |s.tcb| && s.tcb[s.mutex[m].holder.value].mutexesHeld > 0
  {
    assert KnownMutex(s.mutex[m], |s.tcb|);
    assert m in Owned(s.mutex, s.mutex[m].holder.value);
  }

  lemma TakeKeeps(s: Sys, t: Task, m: Mutex)
    requires Inv(s) && Enabled(s, Take(t, m))
    ensures Inv(Apply(s, Take(t, m)))
  {
    hide Counts;
    CountsChange(s, Apply(s, Take(t, m)), t, m);
  }

  lemma GiveKeeps(s: Sys, t: Task, m: Mutex)
    requires Inv(s) && Enabled(s, Give(t, m))
    ensures Inv(Apply(s, Give(t, m)))
  {
    hide Counts;
    CountsChange(s, Apply(s, Give(t, m)), t, m);
    var l := s.mutex[m].waiters;
    assert KnownMutex(s.mutex[m], |s.tcb|);
    assert l != [] ==> forall x :: x in l[1..] ==> x in l;
  }

  lemma BlockKeeps(s: Sys, t: Task, m: Mutex)
    requires Inv(s) && Enabled(s, Block(t, m))
    ensures Inv(Apply(s, Block(t, m)))
  {
    hide Counts, Enter;
    HolderHolds(s, m);
    assert KnownMutex(s.mutex[m], |s.tcb|);
    var tcb := Inheriting(s.tcb, s.mutex[m].holder.value, t);
    EnterMembers(s.mutex[m].waiters, tcb, t);
    CountsSame(s, Apply(s, Block(t, m)));
  }

  lemma TimeOutKeeps(s: Sys, t: Task, m: Mutex)
    requires Inv(s) && Enabled(s, TimeOut(t, m))
    ensures Inv(Apply(s, TimeOut(t, m)))
  {
    hide Counts;
    assert KnownMutex(s.mutex[m], |s.tcb|);
    WithoutWithin(s.mutex[m].waiters, t, |s.tcb|);
    CountsSame(s, Apply(s, TimeOut(t, m)));
  }

  lemma GiveUpKeeps(s: Sys, t: Task, m: Mutex)
    requires Inv(s) && Enabled(s, GiveUp(t, m))
    ensures Inv(Apply(s, GiveUp(t, m)))
  {
    hide Counts;
    if s.mutex[m].holder.Some? {
      HolderHolds(s, m);
    }
    CountsSame(s, Apply(s, GiveUp(t, m)));
  }

  lemma StepKeeps(s: Sys, a: Step)
    requires Inv(s) && Enabled(s, a)
    ensures Inv(Apply(s, a))
  {
    hide Inv, Apply, Enabled;
    match a
    case Take(t, m) => TakeKeeps(s, t, m);
    case Block(t, m) => BlockKeeps(s, t, m);
    case Give(t, m) => GiveKeeps(s, t, m);
    case TimeOut(t, m) => TimeOutKeeps(s, t, m);
    case GiveUp(t, m) => GiveUpKeeps(s, t, m);
  }

  /** All mutexes free, all tasks at their base priority. */
  ghost predicate Fresh(s: Sys) {
    && (forall t :: 0 <= t < |s.tcb| ==> s.tcb[t].mutexesHeld == 0 && s.tcb[t].priority == s.tcb[t].basePriority)
    && (forall m :: 0 <= m < |s.mutex| ==> s.mutex[m] == MutexState(None, []))
    && s.late == map[] && s.woken == map[]
  }

  ghost predicate IsRun(run: seq<Sys>, steps: seq<Step>) {
    && |run| == |steps| + 1 && Fresh(run[0])
    && forall i :: 0 <= i < |steps| ==> Enabled(run[i], steps[i]) && run[i + 1] == Apply(run[i], steps[i])
  }

  /** In every state of every run. */
  lemma {:induction false} EveryRun(run: seq<Sys>, steps: seq<Step>, i: nat)
    requires IsRun(run, steps) && i < |run|
    ensures Inv(run[i])
  {
    if i == 0 {
      forall t ensures Owned(run[0].mutex, t) == {} {}
    } else {
      EveryRun(run, steps, i - 1);
      StepKeeps(run[i - 1], steps[i - 1]);
    }
  }

  // ---- Without nested locking --------------------------------------------------------------

  /** The list goes by decreasing coded priority. */
  ghost predicate Descending(l: seq<Task>, tcb: seq<Tcb>) {
    && (forall i :: 0 <= i < |l| ==> l[i] < |tcb|)
    && forall i, j :: 0 <= i < j < |l| ==> tcb[l[i]].item >= tcb[l[j]].item
  }

  /** A waiting task holds no mutex and is coded with its priority. */
  predicate Plain(t: Tcb) { t.mutexesHeld == 0 && t.item == t.priority }

  ghost predicate FlatList(l: seq<Task>, tcb: seq<Tcb>) {
    Descending(l, tcb) && forall i :: 0 <= i < |l| ==> Plain(tcb[l[i]])
  }

  ghost predicate Flat(s: Sys) {
    forall m :: 0 <= m < |s.mutex| ==> FlatList(s.mutex[m].waiters, s.tcb)
  }

  /** A task that holds a mutex does not wait for another. */
  ghost predicate NotNested(s: Sys, a: Step)
    requires Enabled(s, a)
  {
    a.Block? ==> s.tcb[a.t].mutexesHeld == 0
  }

  lemma DescendingFrom(x: Task, l: seq<Task>, tcb: seq<Tcb>)
    requires x < |tcb| && Descending(l, tcb) && forall j :: 0 <= j < |l| ==> tcb[x].item >= tcb[l[j]].item
    ensures Descending([x] + l, tcb)
  {}

  lemma {:induction false} EnterDescending(l: seq<Task>, tcb: seq<Tcb>, t: Task)
    requires t < |tcb| && Descending(l, tcb)
    ensures Descending(Enter(l, tcb, t), tcb)
  {
    if l != [] && tcb[l[0]].item >= tcb[t].item {
      EnterDescending(l[1..], tcb, t);
      EnterMembers(l[1..], tcb, t);
      var m := Enter(l[1..], tcb, t);
      forall j | 0 <= j < |m|
        ensures tcb[l[0]].item >= tcb[m[j]].item
      {
        assert m[j] in l[1..] || m[j] == t;
      }
      DescendingFrom(l[0], m, tcb);
    }
  }

  lemma {:induction false} WithoutDescending(l: seq<Task>, tcb: seq<Tcb>, t: Task)
    requires Descending(l, tcb)
    ensures Descending(Without(l, t), tcb)
  {
    if l != [] && l[0] != t {
      WithoutDescending(l[1..], tcb, t);
      WithoutSome(l[1..], t);
      var m := Without(l[1..], t);
      forall j | 0 <= j < |m|
        ensures tcb[l[0]].item >= tcb[m[j]].item
      {
        assert m[j] in m;
        var i :| 0 <= i < |l[1..]| && l[1..][i] == m[j];
        assert tcb[l[0]].item >= tcb[l[i + 1]].item;
      }
      DescendingFrom(l[0], m, tcb);
    }
  }

  /** Task control blocks of tasks that do not wait in the list may change. */
  lemma FlatListSame(l: seq<Task>, tcb: seq<Tcb>, tcb2: seq<Tcb>)
    requires FlatList(l, tcb) && |tcb2| == |tcb| && forall i :: 0 <= i < |l| ==> tcb2[l[i]] == tcb[l[i]]
    ensures FlatList(l, tcb2)
  {}

  /** The task control block of a task that does not wait changes. */
  lemma FlatTcb(s: Sys, t: Task, x: Tcb, m: Mutex)
    requires Flat(s) && t < |s.tcb| && m < |s.mutex|
    requires s.tcb[t].mutexesHeld > 0 || t !in s.mutex[m].waiters
    ensures FlatList(s.mutex[m].waiters, s.tcb[t := x])
  {
    var l := s.mutex[m].waiters;
    assert FlatList(l, s.tcb);
    FlatListSame(l, s.tcb, s.tcb[t := x]);
  }

  lemma FlatWithout(l: seq<Task>, tcb: seq<Tcb>, t: Task)
    requires FlatList(l, tcb)
    ensures FlatList(Without(l, t), tcb)
    ensures l != [] ==> FlatList(l[1..], tcb)
  {
    WithoutDescending(l, tcb, t);
    WithoutSome(l, t);
    forall i | 0 <= i < |Without(l, t)|
      ensures Plain(tcb[Without(l, t)[i]])
    {
      assert Without(l, t)[i] in l;
    }
  }

  lemma FlatEnter(l: seq<Task>, tcb: seq<Tcb>, t: Task)
    requires FlatList(l, tcb) && t < |tcb| && Plain(tcb[t])
    ensures FlatList(Enter(l, tcb, t), tcb)
  {
    EnterDescending(l, tcb, t);
    EnterMembers(l, tcb, t);
    forall i | 0 <= i < |Enter(l, tcb, t)|
      ensures Plain(tcb[Enter(l, tcb, t)[i]])
    {
      assert Enter(l, tcb, t)[i] in l || Enter(l, tcb, t)[i] == t;
    }
  }

  lemma FlatBlock(s: Sys, t: Task, m: Mutex)
    requires Inv(s) && Flat(s) && Enabled(s, Block(t, m)) && s.tcb[t].mutexesHeld == 0
    ensures Flat(Apply(s, Block(t, m)))
  {
    hide FlatList, Enter, Counts;
    HolderHolds(s, m);
    var h := s.mutex[m].holder.value;
    var tcb := Inheriting(s.tcb, h, t);
    forall k | 0 <= k < |s.mutex|
      ensures FlatList(s.mutex[k].waiters, tcb)
    {
      NotWaiting(s, t, k);
      FlatTcb(s, h, Inherit(s.tcb[h], s.tcb[t].priority), k);
      FlatListOther(s.mutex[k].waiters, s.tcb[h := Inherit(s.tcb[h], s.tcb[t].priority)], tcb, t);
    }
    FlatEnter(s.mutex[m].waiters, tcb, t);
  }

  lemma NotWaiting(s: Sys, t: Task, k: Mutex)
    requires !Waits(s, t) && k < |s.mutex|
    ensures t !in s.mutex[k].waiters
  {}

  lemma FlatListOther(l: seq<Task>, tcb: seq<Tcb>, tcb2: seq<Tcb>, t: Task)
    requires FlatList(l, tcb) && t !in l && |tcb2| == |tcb|
    requires forall x :: 0 <= x < |tcb| && x != t ==> tcb2[x] == tcb[x]
    ensures FlatList(l, tcb2)
  {
    FlatListSame(l, tcb, tcb2);
  }

  lemma FlatOthers(s: Sys, a: Step)
    requires Inv(s) && Flat(s) && Enabled(s, a) && !a.Block?
    ensures Flat(Apply(s, a))
  {
    hide FlatList, Without, Counts;
    var u := Apply(s, a);
    if s.mutex[a.m].holder.Some? {
      HolderHolds(s, a.m);
    }
    forall k | 0 <= k < |s.mutex|
      ensures FlatList(u.mutex[k].waiters, u.tcb)
    {
      match a {
        case Take(t, m) =>
          NotWaiting(s, t, k);
          FlatTcb(s, t, u.tcb[t], k);
        case Give(t, m) =>
          FlatTcb(s, t, u.tcb[t], k);
          FlatWithout(s.mutex[k].waiters, u.tcb, t);
        case TimeOut(t, m) =>
          FlatWithout(s.mutex[k].waiters, u.tcb, t);
        case GiveUp(t, m) =>
          if t in s.blamed && s.mutex[m].holder.Some? {
            var h := s.mutex[m].holder.value;
            FlatTcb(s, h, u.tcb[h], k);
          }
      }
    }
  }

  /** In every state of every run without nested locking the waiting lists are in the order of the priorities. */
  lemma {:induction false} EveryFlatRun(run: seq<Sys>, steps: seq<Step>, i: nat)
    requires IsRun(run, steps) && i < |run|
    requires forall k :: 0 <= k < |steps| ==> NotNested(run[k], steps[k])
    ensures Inv(run[i]) && Flat(run[i])
  {
    EveryRun(run, steps, i);
    if i > 0 {
      EveryFlatRun(run, steps, i - 1);
      var a := steps[i - 1];
      assert NotNested(run[i - 1], a);
      if a.Block? { FlatBlock(run[i - 1], a.t, a.m); } else { FlatOthers(run[i - 1], a); }
    }
  }

  /** p is the greater of the base priority of h and the highest priority of the tasks that wait. */
  ghost predicate RightPriority(tcb: seq<Tcb>, h: Task, waiters: seq<Task>)
    requires h < |tcb| && Within(waiters, |tcb|)
  {
    && (forall t :: t in waiters ==> tcb[t].priority <= tcb[h].priority)
    && (tcb[h].priority == tcb[h].basePriority || exists t :: t in waiters && tcb[t].priority == tcb[h].priority)
    && tcb[h].basePriority <= tcb[h].priority
  }

  /**
  A task that gives up leaves a holder of one mutex at the priority the remaining waiters call
  for if and only if its wait raised somebody's priority, or the priority was right anyway.
  */
  lemma TimeOutIsRight(s: Sys, t: Task, m: Mutex)
    requires Inv(s) && Flat(s) && Enabled(s, GiveUp(t, m))
    requires s.mutex[m].holder.Some? && s.tcb[s.mutex[m].holder.value].mutexesHeld == 1
    ensures KnownMutex(s.mutex[m], |s.tcb|)
    ensures var h, l := s.mutex[m].holder.value, s.mutex[m].waiters;
            RightPriority(Apply(s, GiveUp(t, m)).tcb, h, l) <==> t in s.blamed || RightPriority(s.tcb, h, l)
  {
    assert KnownMutex(s.mutex[m], |s.tcb|);
    if t in s.blamed {
      var l, h, u := s.mutex[m].waiters, s.mutex[m].holder.value, Apply(s, GiveUp(t, m));
      assert FlatList(l, s.tcb);
      FlatTcb(s, h, u.tcb[h], m);
      assert l != [] ==> l[0] in l && u.tcb[l[0]] == s.tcb[l[0]];
      forall x | x in l
        ensures u.tcb[x].priority <= u.tcb[h].priority
      {
        HeadHighest(s, m, x);
      }
    }
  }

  /** In a list in order the first waiter has the highest priority. */
  lemma HeadHighest(s: Sys, m: Mutex, x: Task)
    requires Flat(s) && m < |s.mutex| && x in s.mutex[m].waiters
    ensures x < |s.tcb| && s.mutex[m].waiters[0] < |s.tcb|
    ensures s.tcb[x].priority <= s.tcb[s.mutex[m].waiters[0]].priority && s.tcb[x].mutexesHeld == 0
    ensures s.tcb[x].item == s.tcb[x].priority
  {
    var l := s.mutex[m].waiters;
    assert FlatList(l, s.tcb);
    var i :| 0 <= i < |l| && l[i] == x;
    assert i > 0 ==> s.tcb[l[0]].item >= s.tcb[l[i]].item;
    assert Plain(s.tcb[l[i]]) && Plain(s.tcb[l[0]]);
  }

  /** The stages of a run with two mutexes and tasks of base priority 1, 5 and 1. */
  function Stage(i: nat): Sys {
    var a, b, free, held := Tcb(5, 5, 0, 5), Tcb(1, 1, 0, 1), MutexState(None, []), MutexState(Some(0), []);
    if i == 0 then Sys([Tcb(1, 1, 0, 1), a, b], [free, free], {}, map[], map[])
    else if i == 1 then Sys([Tcb(1, 1, 1, 1), a, b], [held, free], {}, map[], map[])
    else if i == 2 then Sys([Tcb(1, 1, 2, 1), a, b], [held, held], {}, map[], map[])
    else if i == 3 then Sys([Tcb(1, 5, 2, 5), a, b], [held, held.(waiters := [1])], {1}, map[], map[])
    else if i == 4 then Sys([Tcb(1, 5, 2, 5), a, b], [held.(waiters := [2]), held.(waiters := [1])], {1}, map[], map[])
    else if i == 5 then Sys([Tcb(1, 5, 1, 5), a, b], [held.(waiters := [2]), free], {1}, map[], map[1 := 1])
    else Sys([Tcb(1, 5, 1, 5), a, b], [held, free], {1}, if i == 6 then map[2 := 0] else map[], map[1 := 1])
  }

  const Course: seq<Step> := [Take(0, 0), Take(0, 1), Block(1, 1), Block(2, 0), Give(0, 1), TimeOut(2, 0), GiveUp(2, 0)]

  lemma StageTakes(i: nat)
    requires i < 2 && Enabled(Stage(i), Course[i])
    ensures Apply(Stage(i), Course[i]) == Stage(i + 1)
  {
    var s, a, u := Stage(i), Course[i], Stage(i + 1);
    assert Apply(s, a).tcb == u.tcb;
    assert Apply(s, a).mutex == u.mutex;
    assert Apply(s, a).late == u.late && Apply(s, a).woken == u.woken;
  }

  lemma StageBlocks(i: nat)
    requires 2 <= i < 4 && Enabled(Stage(i), Course[i])
    ensures Apply(Stage(i), Course[i]) == Stage(i + 1)
  {
    var s, a, u := Stage(i), Course[i], Stage(i + 1);
    assert Apply(s, a).tcb == u.tcb;
    assert Apply(s, a).mutex == u.mutex;
    assert Apply(s, a).late == u.late && Apply(s, a).woken == u.woken;
  }

  lemma StageEnds(i: nat)
    requires 4 <= i < 7 && Enabled(Stage(i), Course[i])
    ensures Apply(Stage(i), Course[i]) == Stage(i + 1)
  {
    var s, a, u := Stage(i), Course[i], Stage(i + 1);
    var one, two: seq<Task> := [1], [2];
    assert one[1..] == [] && two[1..] == [] && Without(two, 2) == two[1..];
    assert Apply(s, a).tcb == u.tcb;
    assert Apply(s, a).mutex[0] == u.mutex[0] && Apply(s, a).mutex[1] == u.mutex[1];
    assert Apply(s, a).mutex == u.mutex;
    assert Apply(s, a).late == u.late && Apply(s, a).woken == u.woken;
  }

  lemma StageSteps(i: nat)
    requires i < 7
    ensures Enabled(Stage(i), Course[i]) && Apply(Stage(i), Course[i]) == Stage(i + 1) && NotNested(Stage(i), Course[i])
  {
    hide Enabled, Apply;
    StageEnabled(i);
    if i < 2 {
      StageTakes(i);
    } else if i < 4 {
      StageBlocks(i);
    } else {
      StageEnds(i);
    }
  }

  lemma StageEnabled(i: nat)
    requires i < 7
    ensures Enabled(Stage(i), Course[i])
  {
    var s, a := Stage(i), Course[i];
    assert Known(s);
    assert a.t != 2 || i != 5 ==> !Waits(s, a.t);
  }

  /** Two mutexes: the higher priority of a waiter for one of them stays when that one is given back. */
  lemma StaysRaised(run: seq<Sys>)
    requires run == seq(8, (i: nat) => Stage(i))
    ensures IsRun(run, Course) && forall k :: 0 <= k < 7 ==> NotNested(run[k], Course[k])
    ensures var s := run[7];
            s.mutex[0] == MutexState(Some(0), []) && s.tcb[0] == Tcb(1, 5, 1, 5) && !RightPriority(s.tcb, 0, [])
  {
    forall k | 0 <= k < 7
      ensures Enabled(run[k], Course[k]) && run[k + 1] == Apply(run[k], Course[k]) && NotNested(run[k], Course[k])
    {
      StageSteps(k);
    }
  }

  // ---- One mutex at a time -----------------------------------------------------------------

  /** A task that holds a mutex neither takes nor waits for another. */
  ghost predicate OneAtATime(s: Sys, a: Step)
    requires Enabled(s, a)
  {
    a.Take? || a.Block? ==> s.tcb[a.t].mutexesHeld == 0
  }

  /** Task x has come off the waiting list of m and has not yet looked at the mutex again. */
  ghost predicate Looks(s: Sys, x: Task, m: Mutex) {
    (x in s.late && s.late[x] == m) || (x in s.woken && s.woken[x] == m)
  }

  /** The task that runs has the highest priority of those that could: it takes no mutex before them. */
  ghost predicate Prompt(s: Sys, a: Step)
    requires Enabled(s, a)
  {
    a.Take? ==> forall x :: 0 <= x < |s.tcb| && Looks(s, x, a.m) ==> s.tcb[x].priority <= s.tcb[a.t].priority
  }

  ghost predicate Concerned(s: Sys, x: Task, m: Mutex)
    requires m < |s.mutex|
  {
    x < |s.tcb| && (x in s.mutex[m].waiters || Looks(s, x, m))
  }

  /** A task that runs at the priority of h before it, if it is not its own, is concerned with the mutex m. */
  ghost predicate Raised(s: Sys, h: Task, m: Mutex)
    requires m < |s.mutex| && h < |s.tcb|
  {
    s.tcb[h].priority == s.tcb[h].basePriority || exists x: Task :: Concerned(s, x, m) && s.tcb[x].priority == s.tcb[h].priority
  }

  /** Those whose wait raised nobody's priority do not exceed the holder's own. */
  ghost predicate Harmless(s: Sys, h: Task, m: Mutex)
    requires m < |s.mutex| && h < |s.tcb|
  {
    forall x: Task :: Concerned(s, x, m) && x !in s.blamed ==> s.tcb[x].priority <= s.tcb[h].basePriority
  }

  /** The first waiter does not exceed the priority p. */
  ghost predicate HeadAtMost(s: Sys, m: Mutex, p: nat)
    requires m < |s.mutex|
  {
    var l := s.mutex[m].waiters;
    l != [] ==> l[0] < |s.tcb| && s.tcb[l[0]].priority <= p
  }

  /** Somebody has been woken for the mutex whose priority is not below that of any waiter. */
  ghost predicate Attended(s: Sys, m: Mutex)
    requires m < |s.mutex|
  {
    s.mutex[m].waiters == [] || exists y :: 0 <= y < |s.tcb| && y in s.woken && s.woken[y] == m && HeadAtMost(s, m, s.tcb[y].priority)
  }

  /**
  Inheritance at the mutex m: no waiter has a higher priority than the holder, whose priority
  is its own or that of a task concerned with the mutex.
  */
  ghost predicate Inherits(s: Sys, m: Mutex)
    requires m < |s.mutex|
  {
    match s.mutex[m].holder
    case None => Attended(s, m)
    case Some(h) => h < |s.tcb| && HeadAtMost(s, m, s.tcb[h].priority) && Harmless(s, h, m) && Raised(s, h, m)
  }

  /** Tasks between waiting and looking hold no mutex, and nobody holds two. */
  ghost predicate Single(s: Sys) {
    && (forall t :: 0 <= t < |s.tcb| ==> s.tcb[t].mutexesHeld <= 1)
    && (forall t :: 0 <= t < |s.tcb| && (t in s.late || t in s.woken) ==> s.tcb[t].mutexesHeld == 0)
  }

  /** A task is on one list at most, and no longer on it once it has been woken or is late. */
  ghost predicate Placed(s: Sys) {
    forall m, x :: 0 <= m < |s.mutex| && x in s.mutex[m].waiters ==> PlacedAt(s, m, x)
  }

  ghost predicate PlacedAt(s: Sys, m: Mutex, x: Task)
    requires m < |s.mutex|
  {
    && NoDup(s.mutex[m].waiters) && x !in s.late && x !in s.woken
    && forall k :: 0 <= k < |s.mutex| && k != m ==> x !in s.mutex[k].waiters
  }

  ghost predicate Orderly(s: Sys) {
    Inv(s) && Flat(s) && Single(s) && Placed(s) && forall m :: 0 <= m < |s.mutex| ==> Inherits(s, m)
  }

  /** A task that holds one mutex holds no other. */
  lemma OneHeld(s: Sys, k: Mutex, m: Mutex)
    requires Inv(s) && Single(s) && k < |s.mutex| && m < |s.mutex|
    requires s.mutex[k].holder.Some? && s.mutex[k].holder == s.mutex[m].holder
    ensures k == m
  {
    var h := s.mutex[k].holder.value;
    HolderHolds(s, k);
    if k != m {
      TwoMembers(Owned(s.mutex, h), k, m);
    }
  }

  lemma TwoMembers(o: set<Mutex>, k: Mutex, m: Mutex)
    requires k in o && m in o && k != m
    ensures |o| >= 2
  {
    assert o == {k} + (o - {k}) && m in o - {k};
    assert |o - {k}| > 0;
  }

  /** A task concerned with a mutex holds none, and runs at its base priority. */
  lemma ConcernedPlain(s: Sys, x: Task, m: Mutex)
    requires Inv(s) && Flat(s) && Single(s) && m < |s.mutex| && Concerned(s, x, m)
    ensures s.tcb[x].mutexesHeld == 0 && s.tcb[x].priority == s.tcb[x].basePriority
  {
    if x in s.mutex[m].waiters {
      HeadHighest(s, m, x);
    }
    assert Floor(s.tcb[x]);
  }

  /** Nothing has happened at the mutex k. */
  lemma InheritsSame(s: Sys, u: Sys, k: Mutex)
    requires Inv(s) && Flat(s) && Single(s) && k < |s.mutex| == |u.mutex| && |u.tcb| == |s.tcb| && Inherits(s, k)
    requires u.mutex[k] == s.mutex[k]
    requires forall x :: 0 <= x < |s.tcb| && s.tcb[x].mutexesHeld == 0 ==> u.tcb[x].priority == s.tcb[x].priority
    requires forall h: Task :: s.mutex[k].holder == Some(h) && h < |s.tcb| ==>
               u.tcb[h].priority == s.tcb[h].priority && u.tcb[h].basePriority == s.tcb[h].basePriority
    requires forall x: Task :: Concerned(u, x, k) <==> Concerned(s, x, k)
    requires forall x: Task :: Concerned(s, x, k) ==> (x in u.blamed <==> x in s.blamed)
    requires s.mutex[k].holder == None ==>
               forall x :: x in s.woken && s.woken[x] == k ==> x in u.woken && u.woken[x] == k
    ensures Inherits(u, k)
  {
    forall x: Task | Concerned(s, x, k)
      ensures s.tcb[x].mutexesHeld == 0 && u.tcb[x].priority == s.tcb[x].priority
    {
      ConcernedPlain(s, x, k);
    }
    var l := s.mutex[k].waiters;
    if l != [] {
      HeadHighest(s, k, l[0]);
    }
    match s.mutex[k].holder
    case None =>
      if l != [] {
        var y :| 0 <= y < |s.tcb| && y in s.woken && s.woken[y] == k && HeadAtMost(s, k, s.tcb[y].priority);
        assert Concerned(s, y, k);
        assert HeadAtMost(u, k, u.tcb[y].priority);
      }
    case Some(h) =>
      if s.tcb[h].priority != s.tcb[h].basePriority {
        var x: Task :| Concerned(s, x, k) && s.tcb[x].priority == s.tcb[h].priority;
        assert Concerned(u, x, k);
      }
  }

  lemma GiveElsewhere(s: Sys, t: Task, m: Mutex, k: Mutex)
    requires Orderly(s) && Enabled(s, Give(t, m)) && k < |s.mutex| && k != m
    ensures Inherits(Apply(s, Give(t, m)), k)
  {
    hide Counts, Flat, Inherits;
    var l := s.mutex[m].waiters;
    assert l != [] ==> PlacedAt(s, m, l[0]);
    if s.mutex[k].holder == Some(t) { OneHeld(s, k, m); }
    InheritsSame(s, Apply(s, Give(t, m)), k);
  }

  lemma OrderlyGive(s: Sys, t: Task, m: Mutex)
    requires Orderly(s) && Enabled(s, Give(t, m))
    ensures Inherits(Apply(s, Give(t, m)), m)
  {
    hide Counts, Flat, Placed;
    var u, l := Apply(s, Give(t, m)), s.mutex[m].waiters;
    if |l| > 1 {
      HeadHighest(s, m, l[0]);
      HeadHighest(s, m, l[1]);
      assert HeadAtMost(u, m, u.tcb[l[0]].priority);
    }
  }

  lemma OrderlyTake(s: Sys, t: Task, m: Mutex, k: Mutex)
    requires Orderly(s) && Enabled(s, Take(t, m)) && s.tcb[t].mutexesHeld == 0 && Prompt(s, Take(t, m)) && k < |s.mutex|
    ensures Inherits(Apply(s, Take(t, m)), k)
  {
    hide Counts, Flat;
    var u := Apply(s, Take(t, m));
    assert Floor(s.tcb[t]);
    if k != m {
      InheritsSame(s, u, k);
    } else {
      forall x: Task | Concerned(s, x, m)
        ensures s.tcb[x].priority <= s.tcb[t].priority
      {
        if x in s.mutex[m].waiters {
          HeadHighest(s, m, x);
        }
      }
      if s.mutex[m].waiters != [] {
        assert Concerned(s, s.mutex[m].waiters[0], m);
      }
      assert forall x: Task :: Concerned(u, x, m) ==> Concerned(s, x, m);
    }
  }

  lemma PlacedKept(s: Sys, a: Step)
    requires Known(s) && Placed(s) && Enabled(s, a)
    ensures Placed(Apply(s, a))
  {
    var u, l := Apply(s, a), s.mutex[a.m].waiters;
    if a.Block? {
      assert KnownMutex(s.mutex[a.m], |s.tcb|);
      EnterMembers(l, u.tcb, a.t);
    } else if a.TimeOut? && a.t in l {
      assert PlacedAt(s, a.m, a.t);
      WithoutMembers(l, a.t);
    } else if a.Give? && l != [] {
      assert PlacedAt(s, a.m, l[0]);
      assert l[0] !in l[1..] && forall x :: x in l[1..] ==> x in l;
    }
    forall m, x | 0 <= m < |u.mutex| && x in u.mutex[m].waiters
      ensures PlacedAt(u, m, x)
    {
      if a.Block? && x == a.t {
        if l != [] {
          assert PlacedAt(s, a.m, l[0]);
        }
      } else {
        assert PlacedAt(s, m, x);
      }
    }
  }

  lemma BlockElsewhere(s: Sys, t: Task, m: Mutex, k: Mutex)
    requires Orderly(s) && Enabled(s, Block(t, m)) && s.tcb[t].mutexesHeld == 0 && k < |s.mutex| && k != m
    ensures Inherits(Apply(s, Block(t, m)), k)
  {
    hide Counts, Flat, Enter, Placed, Inherits;
    HolderHolds(s, m);
    if s.mutex[k].holder == s.mutex[m].holder { OneHeld(s, k, m); }
    InheritsSame(s, Apply(s, Block(t, m)), k);
  }

  lemma OrderlyBlock(s: Sys, t: Task, m: Mutex)
    requires Orderly(s) && Enabled(s, Block(t, m)) && s.tcb[t].mutexesHeld == 0
    ensures Inherits(Apply(s, Block(t, m)), m)
  {
    hide Counts, Flat, Enter, Placed;
    HolderHolds(s, m);
    assert KnownMutex(s.mutex[m], |s.tcb|);
    var u, l, h := Apply(s, Block(t, m)), s.mutex[m].waiters, s.mutex[m].holder.value;
    EnterMembers(l, u.tcb, t);
    assert Floor(s.tcb[h]) && Inherits(s, m);
    forall x: Task | Concerned(s, x, m)
      ensures u.tcb[x].priority == s.tcb[x].priority
    {
      ConcernedPlain(s, x, m);
    }
    var w := u.mutex[m].waiters;
    assert w[0] in w;
    if w[0] != t {
      HeadHighest(s, m, w[0]);
    }
    assert Concerned(u, t, m);
    if s.tcb[t].priority <= s.tcb[h].priority != s.tcb[h].basePriority {
      var x: Task :| Concerned(s, x, m) && s.tcb[x].priority == s.tcb[h].priority;
      assert Concerned(u, x, m);
    }
    assert forall x: Task :: Concerned(u, x, m) ==> Concerned(s, x, m) || x == t;
  }

  lemma TimeOutElsewhere(s: Sys, t: Task, m: Mutex, k: Mutex)
    requires Orderly(s) && Enabled(s, TimeOut(t, m)) && k < |s.mutex| && k != m
    ensures Inherits(Apply(s, TimeOut(t, m)), k)
  {
    hide Counts, Flat, Without, Inherits;
    if t in s.mutex[m].waiters {
      assert PlacedAt(s, m, t);
    }
    InheritsSame(s, Apply(s, TimeOut(t, m)), k);
  }

  lemma OrderlyTimeOut(s: Sys, t: Task, m: Mutex)
    requires Orderly(s) && Enabled(s, TimeOut(t, m))
    ensures Inherits(Apply(s, TimeOut(t, m)), m)
  {
    hide Counts, Flat, Without;
    var u, l := Apply(s, TimeOut(t, m)), s.mutex[m].waiters;
    if t in l {
      assert PlacedAt(s, m, t);
      WithoutMembers(l, t);
    }
    assert Inherits(s, m);
    assert forall x: Task :: Concerned(u, x, m) <==> Concerned(s, x, m);
    var w := u.mutex[m].waiters;
    if w != [] {
      assert w[0] in w;
      HeadHighest(s, m, w[0]);
    }
    if s.mutex[m].holder == None && w != [] {
      var y :| 0 <= y < |s.tcb| && y in s.woken && s.woken[y] == m && HeadAtMost(s, m, s.tcb[y].priority);
      assert HeadAtMost(u, m, u.tcb[y].priority);
    }
  }

  lemma GiveUpElsewhere(s: Sys, t: Task, m: Mutex, k: Mutex)
    requires Orderly(s) && Enabled(s, GiveUp(t, m)) && k < |s.mutex| && k != m
    ensures Inherits(Apply(s, GiveUp(t, m)), k)
  {
    hide Counts, Flat, Placed, Inherits;
    if s.mutex[m].holder.Some? {
      HolderHolds(s, m);
    }
    if s.mutex[k].holder.Some? && s.mutex[k].holder == s.mutex[m].holder { OneHeld(s, k, m); }
    InheritsSame(s, Apply(s, GiveUp(t, m)), k);
  }

  lemma OrderlyGiveUp(s: Sys, t: Task, m: Mutex)
    requires Orderly(s) && Enabled(s, GiveUp(t, m))
    ensures Inherits(Apply(s, GiveUp(t, m)), m)
  {
    hide Counts, Flat, Placed;
    var u, l := Apply(s, GiveUp(t, m)), s.mutex[m].waiters;
    assert Inherits(s, m);
    if s.mutex[m].holder.Some? {
      HolderHolds(s, m);
      var h := s.mutex[m].holder.value;
      if l != [] {
        HeadHighest(s, m, l[0]);
        assert Concerned(u, l[0], m);
      }
      assert forall x: Task :: Concerned(u, x, m) ==> Concerned(s, x, m);
      assert Concerned(s, t, m);
      if t !in s.blamed && s.tcb[h].priority != s.tcb[h].basePriority {
        assert Floor(s.tcb[h]);
        var x: Task :| Concerned(s, x, m) && s.tcb[x].priority == s.tcb[h].priority;
        assert Concerned(u, x, m);
      }
    }
  }

  lemma SingleKept(s: Sys, a: Step)
    requires Orderly(s) && Enabled(s, a) && OneAtATime(s, a)
    ensures Single(Apply(s, a))
  {
    hide Counts, Flat, Placed, Enter, Without, Inherits;
    var l := s.mutex[a.m].waiters;
    if a.Give? && l != [] {
      HeadHighest(s, a.m, l[0]);
    } else if a.TimeOut? && a.t in l {
      HeadHighest(s, a.m, a.t);
    }
  }

  /** Every step keeps inheritance at every mutex. */
  lemma OrderlyStep(s: Sys, a: Step)
    requires Orderly(s) && Enabled(s, a) && OneAtATime(s, a) && Prompt(s, a)
    ensures Orderly(Apply(s, a))
  {
    hide Inv, Flat, Single, Placed, Inherits, Enabled, Apply;
    StepKeeps(s, a);
    SingleKept(s, a);
    PlacedStep(s, a);
    forall k | 0 <= k < |Apply(s, a).mutex|
      ensures Inherits(Apply(s, a), k)
    {
      SameMutexes(s, a);
      match a {
        case Take(t, m) => OrderlyTake(s, t, m, k);
        case Block(t, m) => if k == m { OrderlyBlock(s, t, m); } else { BlockElsewhere(s, t, m, k); }
        case Give(t, m) => if k == m { OrderlyGive(s, t, m); } else { GiveElsewhere(s, t, m, k); }
        case TimeOut(t, m) => if k == m { OrderlyTimeOut(s, t, m); } else { TimeOutElsewhere(s, t, m, k); }
        case GiveUp(t, m) => if k == m { OrderlyGiveUp(s, t, m); } else { GiveUpElsewhere(s, t, m, k); }
      }
    }
  }

  lemma PlacedStep(s: Sys, a: Step)
    requires Orderly(s) && Enabled(s, a) && OneAtATime(s, a)
    ensures Placed(Apply(s, a)) && Flat(Apply(s, a))
  {
    hide Flat, Placed, Inherits, Apply;
    PlacedKept(s, a);
    if a.Block? { FlatBlock(s, a.t, a.m); } else { FlatOthers(s, a); }
  }

  lemma SameMutexes(s: Sys, a: Step)
    requires Enabled(s, a)
    ensures |Apply(s, a).mutex| == |s.mutex|
  {}

  /** In every state of every run with one mutex at a time on a prompt scheduler. */
  lemma {:induction false} EveryOrderlyRun(run: seq<Sys>, steps: seq<Step>, i: nat)
    requires IsRun(run, steps) && i < |run|
    requires forall k :: 0 <= k < |steps| ==> OneAtATime(run[k], steps[k]) && Prompt(run[k], steps[k])
    ensures Orderly(run[i])
  {
    hide Orderly, Enabled, Apply;
    if i == 0 {
      EveryRun(run, steps, 0);
      FreshOrderly(run[0]);
    } else {
      EveryOrderlyRun(run, steps, i - 1);
      OrderlyStep(run[i - 1], steps[i - 1]);
    }
  }

  lemma FreshOrderly(s: Sys)
    requires Inv(s) && Fresh(s)
    ensures Orderly(s)
  {}

  /**
  At every mutex that nobody is about to look at again the holder runs at exactly the greater
  of its base priority and the highest priority of the waiters, after every time-out too.
  */
  lemma HolderIsRight(run: seq<Sys>, steps: seq<Step>, i: nat, m: Mutex)
    requires IsRun(run, steps) && i < |run| && m < |run[i].mutex|
    requires forall k :: 0 <= k < |steps| ==> OneAtATime(run[k], steps[k]) && Prompt(run[k], steps[k])
    requires run[i].mutex[m].holder.Some? && forall x: Task :: !Looks(run[i], x, m)
    ensures KnownMutex(run[i].mutex[m], |run[i].tcb|)
    ensures RightPriority(run[i].tcb, run[i].mutex[m].holder.value, run[i].mutex[m].waiters)
  {
    hide Enabled, Apply, Flat, Fresh;
    EveryOrderlyRun(run, steps, i);
    var s := run[i];
    assert KnownMutex(s.mutex[m], |s.tcb|) && Inherits(s, m);
    var h := s.mutex[m].holder.value;
    assert Floor(s.tcb[h]);
    forall x | x in s.mutex[m].waiters
      ensures s.tcb[x].priority <= s.tcb[h].priority
    {
      HeadHighest(s, m, x);
    }
  }
}
