/**
Runs of the kernel, seen as runs of a machine without lists: all it knows of a task is its
state, its priority and the time at which it is due.
*/
module SchedulerRun {
  import opened TaskLists
  import opened Scheduler

  /** What the tick interrupt, other interrupts and the running tasks may do. */
  datatype Op =
    | Tick
    | Suspend
    | Resume
    | Event(x: Task)
    | Delay(d: nat, indefinitely: bool)
    | Switch(idle: Task)
    | Reprioritise(x: Task, p: nat)
    | Create(x: Task, p: nat)
    | Delete(x: Task)
    | DeleteSelf
    | CleanUp
    | Start

  /** The kernel without its lists. */
  datatype Snap = Snap(
    time: nat, suspended: nat, pended: nat, running: bool, current: Task, pendingReady: seq<Task>,
    terminating: seq<Task>, place: map<Task, Place>, wakeAt: map<Task, nat>, prio: map<Task, nat>)

  ghost function SnapOf(k: Kernel): Snap
    reads k
  {
    Snap(k.time, k.suspended, k.pended, k.running, k.current, k.pendingReady, k.terminating, k.place, k.wakeAt, k.prio)
  }

  // ---- The machine without lists -------------------------------------------------------------

  ghost predicate Enabled(m: nat, n: nat, s: Snap, op: Op) {
    match op
    case Tick => true
    case Suspend => true
    case Resume => s.suspended > 0
    case Event(x) => x in s.place && IsBlocked(s.place[x]) && x !in s.pendingReady
    case Delay(d, _) => 1 <= d < m && s.current in s.place && s.place[s.current] == Ready
    case Switch(idle) => s.suspended == 0 && idle in s.place && s.place[idle] == Ready
    case Reprioritise(x, p) => x in s.place && p < n
    case Create(x, p) => x !in s.place && p < n
    case Delete(x) => x in s.place && x != s.current && s.place[x] != Terminating
    case DeleteSelf => s.current in s.place && s.place[s.current] == Ready
    case CleanUp => s.terminating != [] && s.terminating[0] != s.current
    case Start => true
  }

  /** The states of the tasks at a time: those in l are ready, and so are those that are due. */
  ghost predicate Awakened(place: map<Task, Place>, wakeAt: map<Task, nat>, l: seq<Task>, time: nat, after: map<Task, Place>) {
    && after.Keys == place.Keys <= wakeAt.Keys
    && forall t :: t in place ==>
         after[t] == if t in l || (place[t] == Timed && wakeAt[t] <= time) then Ready else place[t]
  }

  /** A ready task than which no ready task has a higher priority. */
  ghost predicate Highest(s: Snap, t: Task) {
    && s.prio.Keys == s.place.Keys && t in s.place && s.place[t] == Ready
    && forall x :: x in s.place && s.place[x] == Ready ==> s.prio[x] <= s.prio[t]
  }

  ghost predicate Step(m: nat, s: Snap, op: Op, t: Snap) {
    match op
    case Tick =>
      if s.suspended > 0 then t == s.(pended := s.pended + 1)
      else t == s.(time := s.time + 1, place := t.place) && Awakened(s.place, s.wakeAt, [], t.time, t.place)
    case Suspend => t == s.(suspended := s.suspended + 1)
    case Resume =>
      if s.suspended > 1 then t == s.(suspended := s.suspended - 1)
      else
        && t == s.(suspended := 0, time := s.time + s.pended, pended := 0, pendingReady := [], place := t.place)
        && Awakened(s.place, s.wakeAt, s.pendingReady, t.time, t.place)
    case Event(x) =>
      t == if s.suspended == 0 then s.(place := s.place[x := Ready]) else s.(pendingReady := s.pendingReady + [x])
    case Delay(d, indefinitely) =>
      t == if d == m - 1 && indefinitely then s.(place := s.place[s.current := Indefinite])
           else s.(place := s.place[s.current := Timed], wakeAt := s.wakeAt[s.current := s.time + d])
    case Switch(_) => t == s.(current := t.current) && Highest(s, t.current)
    case Reprioritise(x, p) => t == s.(prio := s.prio[x := p])
    case Create(x, p) =>
      && s.current in s.prio
      && t == s.(place := s.place[x := Ready], prio := s.prio[x := p], wakeAt := s.wakeAt[x := 0],
                 current := if !s.running && s.prio[s.current] <= p then x else s.current)
    case Delete(x) =>
      t == s.(place := s.place - {x}, prio := s.prio - {x}, wakeAt := s.wakeAt - {x}, pendingReady := Without(s.pendingReady, x))
    case DeleteSelf => t == s.(place := s.place[s.current := Terminating], terminating := s.terminating + [s.current])
    case CleanUp =>
      && s.terminating != []
      && var x := s.terminating[0];
         t == s.(place := s.place - {x}, prio := s.prio - {x}, wakeAt := s.wakeAt - {x}, terminating := s.terminating[1..])
    case Start => t == s.(running := true)
  }

  // ---- The kernel follows the machine ----------------------------------------------------------

  predicate InReadyList(k: Kernel, x: Task)
    reads k`prio, k`ready
  {
    x in k.prio && k.prio[x] < |k.ready| && x in k.ready[k.prio[x]]
  }

  predicate InBlockedList(k: Kernel, x: Task)
    reads k`delayed, k`overflow, k`waiting
  {
    x in k.delayed || x in k.overflow || x in k.waiting
  }

  /** Whether an operation can be performed, as the lists tell. */
  predicate CanDo(k: Kernel, op: Op)
    reads k
  {
    match op
    case Tick => true
    case Suspend => true
    case Resume => k.suspended > 0
    case Event(x) => InBlockedList(k, x) && x !in k.pendingReady
    case Delay(d, _) => 1 <= d < k.modulus && InReadyList(k, k.current)
    case Switch(idle) => k.suspended == 0 && InReadyList(k, idle)
    case Reprioritise(x, p) => x in k.prio && p < k.priorities
    case Create(x, p) => x !in k.prio && p < k.priorities
    case Delete(x) => x in k.prio && x != k.current && x !in k.terminating
    case DeleteSelf => InReadyList(k, k.current)
    case CleanUp => k.terminating != [] && k.terminating[0] != k.current
    case Start => true
  }

  /** Lists and states say the same: every task is in exactly one list, the one for its state and priority. */
  lemma Listed(k: Kernel, x: Task)
    requires k.Valid()
    ensures k.prio.Keys == k.place.Keys == k.wakeAt.Keys
    ensures InReadyList(k, x) <==> x in k.place && k.place[x] == Ready
    ensures InBlockedList(k, x) <==> x in k.place && IsBlocked(k.place[x])
    ensures x in k.delayed || x in k.overflow <==> x in k.place && k.place[x] == Timed
    ensures x in k.waiting <==> x in k.place && k.place[x] == Indefinite
    ensures x in k.terminating <==> x in k.place && k.place[x] == Terminating
    ensures !(x in k.delayed && x in k.overflow)
    ensures forall p :: 0 <= p < |k.ready| && x in k.ready[p] ==> x in k.prio && k.prio[x] == p <= k.topReady
  {
    forall p | 0 <= p < |k.ready| && x in k.ready[p]
      ensures x in k.prio && k.prio[x] == p <= k.topReady
    {
      assert ReadyList(k.ready[p], k.prio, k.place, p);
    }
    if x in k.place {
      assert ReadyList(k.ready[k.prio[x]], k.prio, k.place, k.prio[x]);
    }
  }

  lemma CanDoIsEnabled(k: Kernel, op: Op)
    requires k.Valid()
    ensures CanDo(k, op) <==> Enabled(k.modulus, k.priorities, SnapOf(k), op)
  {
    hide Kernel.Valid, InReadyList, InBlockedList;
    Listed(k, k.current);
    match op
    case Event(x) => Listed(k, x);
    case Switch(idle) => Listed(k, idle);
    case Reprioritise(x, p) => Listed(k, x);
    case Create(x, p) => Listed(k, x);
    case Delete(x) => Listed(k, x);
    case _ =>
  }

  method PerformTime(k: Kernel, op: Op)
    requires k.Valid() && CanDo(k, op) && (op.Tick? || op.Suspend? || op.Resume?)
    modifies k
    ensures k.Valid() && Step(k.modulus, old(SnapOf(k)), op, SnapOf(k))
  {
    hide Kernel.Valid;
    Listed(k, k.current);
    match op
    case Tick => k.IncrementTick();
    case Suspend => k.SuspendAll();
    case Resume => k.ResumeAll();
  }

  method PerformEvent(k: Kernel, op: Op)
    requires k.Valid() && CanDo(k, op) && (op.Event? || op.Delay?)
    modifies k
    ensures k.Valid() && Step(k.modulus, old(SnapOf(k)), op, SnapOf(k))
  {
    hide Kernel.Valid, CanDo;
    CanDoIsEnabled(k, op);
    match op
    case Event(x) => k.RemoveFromEventList(x);
    case Delay(d, indefinitely) => k.DelayCurrent(d, indefinitely);
  }

  method PerformChoice(k: Kernel, op: Op)
    requires k.Valid() && CanDo(k, op) && (op.Switch? || op.Reprioritise?)
    modifies k
    ensures k.Valid() && Step(k.modulus, old(SnapOf(k)), op, SnapOf(k))
  {
    hide Kernel.Valid, CanDo, InReadyList, InBlockedList;
    CanDoIsEnabled(k, op);
    Listed(k, k.current);
    match op
    case Switch(idle) => k.SwitchContext(idle);
    case Reprioritise(x, p) => k.SetPriority(x, p);
  }

  method PerformLife(k: Kernel, op: Op)
    requires k.Valid() && CanDo(k, op) && (op.Create? || op.Delete? || op.DeleteSelf? || op.CleanUp? || op.Start?)
    modifies k
    ensures k.Valid() && Step(k.modulus, old(SnapOf(k)), op, SnapOf(k))
  {
    hide Kernel.Valid, CanDo;
    CanDoIsEnabled(k, op);
    match op
    case Create(x, p) => k.CreateTask(x, p);
    case Delete(x) => k.Delete(x);
    case DeleteSelf => k.DeleteSelf();
    case CleanUp => k.CleanUp();
    case Start => k.Start();
  }

  /** One operation of the kernel is one step of the machine. */
  method Perform(k: Kernel, op: Op)
    requires k.Valid() && CanDo(k, op)
    modifies k
    ensures k.Valid() && Step(k.modulus, old(SnapOf(k)), op, SnapOf(k))
  {
    hide Kernel.Valid, CanDo, Step, SnapOf;
    if op.Tick? || op.Suspend? || op.Resume? {
      PerformTime(k, op);
    } else if op.Event? || op.Delay? {
      PerformEvent(k, op);
    } else if op.Switch? || op.Reprioritise? {
      PerformChoice(k, op);
    } else {
      PerformLife(k, op);
    }
  }

  // ---- Runs ------------------------------------------------------------------------------------

  /** A run: each operation is a step, or is passed over where it is not enabled. */
  ghost predicate IsRun(m: nat, n: nat, trace: seq<Snap>, ops: seq<Op>) {
    && |trace| == |ops| + 1
    && forall i :: 0 <= i < |ops| ==>
         if Enabled(m, n, trace[i], ops[i]) then Step(m, trace[i], ops[i], trace[i + 1]) else trace[i + 1] == trace[i]
  }

  /** Every sequence of operations of the kernel is a run of the machine. */
  method Run(k: Kernel, ops: seq<Op>) returns (ghost trace: seq<Snap>)
    requires k.Valid()
    modifies k
    ensures k.Valid() && IsRun(k.modulus, k.priorities, trace, ops)
    ensures trace[0] == old(SnapOf(k)) && trace[|ops|] == SnapOf(k)
  {
    hide Kernel.Valid, CanDo, Enabled, Step;
    trace := [SnapOf(k)];
    var n := 0;
    while n < |ops|
      invariant n <= |ops| && k.Valid() && |trace| == n + 1 && trace[0] == old(SnapOf(k)) && trace[n] == SnapOf(k)
      invariant forall i :: 0 <= i < n ==>
                  if Enabled(k.modulus, k.priorities, trace[i], ops[i]) then Step(k.modulus, trace[i], ops[i], trace[i + 1])
                  else trace[i + 1] == trace[i]
    {
      CanDoIsEnabled(k, ops[n]);
      if CanDo(k, ops[n]) {
        Perform(k, ops[n]);
      }
      trace := trace + [SnapOf(k)];
      n := n + 1;
    }
  }

  /** The scheduler invariant, for one task x: one list, the right one, and none above the top. */
  ghost predicate InOneList(k: Kernel, x: Task)
    reads k
  {
    && x in k.place && x in k.prio
    && (forall p :: 0 <= p < |k.ready| ==> (x in k.ready[p] <==> p == k.prio[x] && k.place[x] == Ready))
    && (x in k.delayed || x in k.overflow <==> k.place[x] == Timed) && !(x in k.delayed && x in k.overflow)
    && (x in k.waiting <==> k.place[x] == Indefinite)
    && (x in k.terminating <==> k.place[x] == Terminating)
    && (k.place[x] == Ready ==> k.prio[x] <= k.topReady < |k.ready|)
  }

  lemma AllInOneList(k: Kernel)
    requires k.Valid()
    ensures forall x :: x in k.place ==> InOneList(k, x)
    ensures forall p :: k.topReady < p < |k.ready| ==> k.ready[p] == []
  {
    forall x | x in k.place
      ensures InOneList(k, x)
    {
      hide Kernel.Valid;
      Listed(k, x);
    }
  }

  /**
  Whatever is done to a kernel from the start, every task is then in exactly one list, the one
  of its state and priority, and the top priority bounds the lists in use.
  */
  method RunFromStart(modulus: nat, priorities: nat, first: Task, p: nat, ops: seq<Op>) returns (k: Kernel, ghost trace: seq<Snap>)
    requires 2 <= modulus && p < priorities
    ensures k.Valid() && IsRun(modulus, priorities, trace, ops) && trace[|ops|] == SnapOf(k)
    ensures trace[0] == Snap(0, 0, 0, false, first, [], [], map[first := Ready], map[first := 0], map[first := p])
    ensures forall x :: x in k.place ==> InOneList(k, x)
    ensures forall q :: k.topReady < q < |k.ready| ==> k.ready[q] == []
  {
    hide Kernel.Valid, IsRun, InOneList;
    k := new Kernel(modulus, priorities, first, p);
    trace := Run(k, ops);
    AllInOneList(k);
  }

  // ---- Sleeping --------------------------------------------------------------------------------

  /** Task t sleeps until due, and no event has readied it. */
  ghost predicate Asleep(s: Snap, t: Task, due: nat) {
    t in s.place && s.place[t] == Timed && t in s.wakeAt && s.wakeAt[t] == due && t !in s.pendingReady
  }

  ghost predicate Awake(s: Snap, t: Task) { t in s.place && s.place[t] == Ready }

  /** The operation is not about t. */
  predicate Spares(op: Op, t: Task) { op != Event(t) && op != Delete(t) }

  /** Tasks that have ended, and tasks made ready by an event while the scheduler is suspended, are what their states say. */
  ghost predicate Fit(s: Snap) {
    && NoDup(s.terminating) && (forall x :: x in s.terminating ==> x in s.place && s.place[x] == Terminating)
    && NoDup(s.pendingReady) && (forall x :: x in s.pendingReady ==> x in s.place && IsBlocked(s.place[x]))
    && (s.suspended == 0 ==> s.pendingReady == [])
  }

  lemma FitTail(l: seq<Task>, place: map<Task, Place>)
    requires l != [] && NoDup(l) && forall x :: x in l ==> x in place && place[x] == Terminating
    ensures NoDup(l[1..]) && l[0] in place && place[l[0]] == Terminating
    ensures forall x :: x in l[1..] ==> x in place - {l[0]} && place[x] == Terminating
  {
    HeadIn(l);
    forall x | x in l[1..]
      ensures x in l && x != l[0]
    {
      var i :| 0 <= i < |l[1..]| && l[1..][i] == x;
      assert l[i + 1] == x;
    }
  }

  lemma FitTime(m: nat, n: nat, s: Snap, op: Op, u: Snap)
    requires Fit(s) && Enabled(m, n, s, op) && Step(m, s, op, u) && (op.Tick? || op.Suspend? || op.Resume?)
    ensures Fit(u) && u.time >= s.time
  {
    assert forall x :: x in s.terminating ==> x !in s.pendingReady;
  }

  lemma FitState(m: nat, n: nat, s: Snap, op: Op, u: Snap)
    requires Fit(s) && Enabled(m, n, s, op) && Step(m, s, op, u) && (op.Event? || op.Delay? || op.Switch? || op.Reprioritise? || op.Start?)
    ensures Fit(u) && u.time >= s.time
  {
    hide Highest, NoDup;
    if op.Event? {
      JoinNoDup(s.pendingReady, op.x);
    }
  }

  lemma JoinNoDup(l: seq<Task>, x: Task)
    requires NoDup(l) && x !in l
    ensures NoDup(l + [x])
  {}

  lemma FitLife(m: nat, n: nat, s: Snap, op: Op, u: Snap)
    requires Fit(s) && Enabled(m, n, s, op) && Step(m, s, op, u) && (op.Create? || op.Delete?)
    ensures Fit(u) && u.time >= s.time
  {
    if op.Delete? {
      WithoutMembers(s.pendingReady, op.x);
      WithoutEmpty(s.pendingReady, op.x);
    }
  }

  lemma FitDeath(m: nat, n: nat, s: Snap, op: Op, u: Snap)
    requires Fit(s) && Enabled(m, n, s, op) && Step(m, s, op, u) && (op.DeleteSelf? || op.CleanUp?)
    ensures Fit(u) && u.time >= s.time
  {
    if op.CleanUp? {
      FitTail(s.terminating, s.place);
    } else {
      assert s.current !in s.terminating;
    }
  }

  lemma FitStep(m: nat, n: nat, s: Snap, op: Op, u: Snap)
    requires Fit(s) && Enabled(m, n, s, op) && Step(m, s, op, u)
    ensures Fit(u) && u.time >= s.time
  {
    hide Fit, Enabled, Step;
    if op.Tick? || op.Suspend? || op.Resume? {
      FitTime(m, n, s, op, u);
    } else if op.Create? || op.Delete? {
      FitLife(m, n, s, op, u);
    } else if op.DeleteSelf? || op.CleanUp? {
      FitDeath(m, n, s, op, u);
    } else {
      FitState(m, n, s, op, u);
    }
  }

  /** One step leaves a sleeper asleep as long as its time has not come, and awake when it has. */
  lemma SleepStep(m: nat, n: nat, s: Snap, op: Op, u: Snap, t: Task, due: nat)
    requires Asleep(s, t, due) && s.time < due && Fit(s) && Spares(op, t)
    requires Enabled(m, n, s, op) && Step(m, s, op, u)
    ensures op.Tick? ==> u.time <= s.time + 1
    ensures if u.time < due then Asleep(u, t, due) else Awake(u, t)
  {
    match op
    case Delete(x) => WithoutSome(s.pendingReady, x);
    case CleanUp => HeadIn(s.terminating);
    case _ =>
  }

  lemma {:induction false} RunFit(m: nat, n: nat, trace: seq<Snap>, ops: seq<Op>, i: nat, j: nat)
    requires IsRun(m, n, trace, ops) && Fit(trace[0]) && i <= j < |trace|
    ensures Fit(trace[j]) && trace[i].time <= trace[j].time
    decreases j
  {
    hide Fit, Enabled, Step;
    if j > 0 {
      RunFit(m, n, trace, ops, if i < j then i else j - 1, j - 1);
      if Enabled(m, n, trace[j - 1], ops[j - 1]) {
        FitStep(m, n, trace[j - 1], ops[j - 1], trace[j]);
      }
    }
  }

  /**
  In every run a task that sleeps until due is asleep in every state before that time, and
  awake in the first one after: with ticks that are not pended, exactly at that time.
  */
  lemma {:induction false} SleepsUntilDue(m: nat, n: nat, trace: seq<Snap>, ops: seq<Op>, t: Task, due: nat, j: nat)
    requires IsRun(m, n, trace, ops) && Fit(trace[0]) && Asleep(trace[0], t, due) && trace[0].time < due && j < |trace|
    requires forall i :: 0 <= i < |ops| ==> Spares(ops[i], t)
    ensures trace[j].time < due ==> Asleep(trace[j], t, due)
    ensures j > 0 && trace[j - 1].time < due <= trace[j].time ==>
              Awake(trace[j], t) && (trace[j].time == due || (ops[j - 1].Resume? && trace[j - 1].pended > 0))
    decreases j
  {
    hide Fit, Asleep, Awake, Enabled, Step;
    if j > 0 {
      RunFit(m, n, trace, ops, j - 1, j);
      RunFit(m, n, trace, ops, 0, j - 1);
      SleepsUntilDue(m, n, trace, ops, t, due, j - 1);
      if trace[j - 1].time < due && Enabled(m, n, trace[j - 1], ops[j - 1]) {
        SleepStep(m, n, trace[j - 1], ops[j - 1], trace[j], t, due);
        StepTime(m, n, trace[j - 1], ops[j - 1], trace[j]);
      }
    }
  }

  /** Time passes by ticks, one at a time, and by the last resume, which replays the pended ones. */
  lemma StepTime(m: nat, n: nat, s: Snap, op: Op, u: Snap)
    requires Enabled(m, n, s, op) && Step(m, s, op, u)
    ensures u.time == s.time || (op.Tick? && u.time == s.time + 1) || (op.Resume? && u.time == s.time + s.pended)
  {}

  lemma ValidFits(k: Kernel)
    requires k.Valid()
    ensures Fit(SnapOf(k))
    ensures forall t :: t in k.place && k.place[t] == Timed ==> t in k.wakeAt && k.time < k.wakeAt[t]
  {}

  /**
  The kernel performs any sequence of operations that are not about t, which sleeps until due:
  before that time t is asleep after every one of them, and it is awake after the first one
  that brings the time there.
  */
  method Sleep(k: Kernel, ops: seq<Op>, t: Task, ghost due: nat) returns (ghost trace: seq<Snap>)
    requires k.Valid() && Asleep(SnapOf(k), t, due) && forall i :: 0 <= i < |ops| ==> Spares(ops[i], t)
    modifies k
    ensures k.Valid() && IsRun(k.modulus, k.priorities, trace, ops)
    ensures trace[0] == old(SnapOf(k)) && trace[|ops|] == SnapOf(k)
    ensures forall j :: 0 <= j < |trace| && trace[j].time < due ==> Asleep(trace[j], t, due)
    ensures forall j :: 0 < j < |trace| && trace[j - 1].time < due <= trace[j].time ==>
              Awake(trace[j], t) && (trace[j].time == due || (ops[j - 1].Resume? && trace[j - 1].pended > 0))
  {
    hide Kernel.Valid, Fit, IsRun, Awake;
    ValidFits(k);
    trace := Run(k, ops);
    RunLength(k.modulus, k.priorities, trace, ops);
    forall j | 0 <= j < |trace|
      ensures trace[j].time < due ==> Asleep(trace[j], t, due)
      ensures j > 0 && trace[j - 1].time < due <= trace[j].time ==>
                Awake(trace[j], t) && (trace[j].time == due || (ops[j - 1].Resume? && trace[j - 1].pended > 0))
    {
      SleepsUntilDue(k.modulus, k.priorities, trace, ops, t, due, j);
    }
  }

  lemma RunLength(m: nat, n: nat, trace: seq<Snap>, ops: seq<Op>)
    requires IsRun(m, n, trace, ops)
    ensures |trace| == |ops| + 1
  {}
}
