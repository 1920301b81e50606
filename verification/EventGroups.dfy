/**
Event groups: tasks that wait for bits, alone or at a rendezvous, and the walk that releases them.
A bit value is the set of its bit numbers; the control bits of a list item are fields of Waiter.
*/
module EventGroups {
  type Task = nat
  type Bits = set<nat>

  /** A blocked task, with what its event list item says. */
  datatype Waiter = Waiter(task: Task, bits: Bits, clear: bool, all: bool)

  /** prvTestWaitCondition. */
  predicate WaitMet(current: Bits, bits: Bits, all: bool) {
    if all then bits <= current else current * bits != {}
  }

  predicate Met(current: Bits, w: Waiter) { WaitMet(current, w.bits, w.all) }

  /** The value v has every bit of need, or one of them will do and v has it. */
  ghost predicate Enough(v: Bits, need: Bits, all: bool) {
    if all then forall x :: x in need ==> x in v else exists x :: x in need && x in v
  }

  lemma WaitMetIs(v: Bits, need: Bits, all: bool)
    ensures WaitMet(v, need, all) <==> Enough(v, need, all)
  {
    assert v * need != {} ==> exists x :: x in v * need;
    assert forall x :: x in v * need <==> x in v && x in need;
  }

  /** The waiters a bit value leaves blocked, in their order. */
  function Unmet(ws: seq<Waiter>, b: Bits): seq<Waiter> {
    if ws == [] then []
    else
      var n := |ws| - 1;
      Unmet(ws[..n], b) + if Met(b, ws[n]) then [] else [ws[n]]
  }

  /** Some waiter that the bit value releases clears bit x. */
  ghost predicate Claimed(ws: seq<Waiter>, b: Bits, x: nat) {
    exists i :: 0 <= i < |ws| && Met(b, ws[i]) && ws[i].clear && x in ws[i].bits
  }

  ghost predicate NoneMet(ws: seq<Waiter>, b: Bits) {
    forall i :: 0 <= i < |ws| ==> !Met(b, ws[i])
  }

  ghost predicate TasksDiffer(ws: seq<Waiter>) {
    forall i, j :: 0 <= i < j < |ws| ==> ws[i].task != ws[j].task
  }

  /** The bits that the released waiters clear. */
  function ToClear(ws: seq<Waiter>, b: Bits): Bits {
    if ws == [] then {}
    else
      var n := |ws| - 1;
      ToClear(ws[..n], b) + if Met(b, ws[n]) && ws[n].clear then ws[n].bits else {}
  }

  /** The values handed out, once the released waiters have theirs. */
  function Handed(held: map<Task, Bits>, ws: seq<Waiter>, b: Bits): map<Task, Bits> {
    if ws == [] then held
    else
      var n := |ws| - 1;
      var m := Handed(held, ws[..n], b);
      if Met(b, ws[n]) then m[ws[n].task := b] else m
  }

  lemma OneMore(held: map<Task, Bits>, ws: seq<Waiter>, i: nat, b: Bits)
    requires i < |ws|
    ensures Unmet(ws[..i + 1], b) == Unmet(ws[..i], b) + if Met(b, ws[i]) then [] else [ws[i]]
    ensures ToClear(ws[..i + 1], b) == ToClear(ws[..i], b) + if Met(b, ws[i]) && ws[i].clear then ws[i].bits else {}
    ensures Handed(held, ws[..i + 1], b) ==
              if Met(b, ws[i]) then Handed(held, ws[..i], b)[ws[i].task := b] else Handed(held, ws[..i], b)
  {
    assert ws[..i + 1][..i] == ws[..i];
  }

  lemma NoneYet(held: map<Task, Bits>, b: Bits)
    ensures Unmet([], b) == [] && ToClear([], b) == {} && Handed(held, [], b) == held
  {}

  /** Bit x is cleared exactly when a released waiter claims it: the list's order is no matter. */
  lemma {:induction false} ToClearSays(ws: seq<Waiter>, b: Bits)
    ensures forall x :: x in ToClear(ws, b) <==> Claimed(ws, b, x)
  {
    if ws != [] {
      var n := |ws| - 1;
      ToClearSays(ws[..n], b);
      forall x
        ensures Claimed(ws, b, x) <==> Claimed(ws[..n], b, x) || (Met(b, ws[n]) && ws[n].clear && x in ws[n].bits)
      {
        if Claimed(ws[..n], b, x) {
          var j :| 0 <= j < n && Met(b, ws[..n][j]) && ws[..n][j].clear && x in ws[..n][j].bits;
          assert ws[j] == ws[..n][j];
        }
        if Claimed(ws, b, x) {
          var j :| 0 <= j < |ws| && Met(b, ws[j]) && ws[j].clear && x in ws[j].bits;
          assert j < n ==> ws[j] == ws[..n][j];
        }
      }
    }
  }

  /** Exactly the released tasks are handed the value. */
  lemma {:induction false} HandedSays(held: map<Task, Bits>, ws: seq<Waiter>, b: Bits)
    ensures forall i :: 0 <= i < |ws| && Met(b, ws[i]) ==> ws[i].task in Handed(held, ws, b) && Handed(held, ws, b)[ws[i].task] == b
    ensures forall t :: t in Handed(held, ws, b) ==>
              (t in held && Handed(held, ws, b)[t] == held[t]) || exists i :: 0 <= i < |ws| && ws[i].task == t && Met(b, ws[i])
    ensures forall t :: t in held ==> t in Handed(held, ws, b)
  {
    if ws != [] {
      var n := |ws| - 1;
      var m := Handed(held, ws[..n], b);
      HandedSays(held, ws[..n], b);
      forall t | t in Handed(held, ws, b)
        ensures (t in held && Handed(held, ws, b)[t] == held[t]) || exists i :: 0 <= i < |ws| && ws[i].task == t && Met(b, ws[i])
      {
        if t != ws[n].task && !(t in held && m[t] == held[t]) {
          var j :| 0 <= j < n && ws[..n][j].task == t && Met(b, ws[..n][j]);
          assert ws[j] == ws[..n][j];
        }
      }
      forall i | 0 <= i < |ws| && Met(b, ws[i])
        ensures ws[i].task in Handed(held, ws, b) && Handed(held, ws, b)[ws[i].task] == b
      {
        assert i < n ==> ws[i] == ws[..n][i];
      }
    }
  }

  /** The waiters that stay are exactly those whose condition the bit value does not meet. */
  lemma {:induction false} UnmetSays(ws: seq<Waiter>, b: Bits)
    ensures NoneMet(Unmet(ws, b), b)
    ensures forall w :: w in Unmet(ws, b) <==> w in ws && !Met(b, w)
    ensures TasksDiffer(ws) ==> TasksDiffer(Unmet(ws, b))
  {
    if ws != [] {
      var n := |ws| - 1;
      UnmetSays(ws[..n], b);
      assert ws == ws[..n] + [ws[n]];
      forall i | 0 <= i < |Unmet(ws[..n], b)|
        ensures TasksDiffer(ws) ==> Unmet(ws[..n], b)[i].task != ws[n].task
      {
        assert Unmet(ws[..n], b)[i] in ws[..n];
      }
    }
  }

  /** Who stays, and which bits go, in terms of bits. */
  lemma SetInBits(ws: seq<Waiter>, b: Bits)
    ensures forall w :: w in Unmet(ws, b) <==> w in ws && !Enough(b, w.bits, w.all)
    ensures forall x :: Claimed(ws, b, x) <==> exists w :: w in ws && w.clear && x in w.bits && Enough(b, w.bits, w.all)
  {
    hide Enough;
    UnmetSays(ws, b);
    forall w: Waiter ensures Met(b, w) <==> Enough(b, w.bits, w.all) {
      WaitMetIs(b, w.bits, w.all);
    }
  }

  /** With fewer bits no further wait condition is met. */
  lemma NoneMetWithFewer(ws: seq<Waiter>, b: Bits, c: Bits)
    requires NoneMet(ws, b) && c <= b
    ensures NoneMet(ws, c)
  {
    forall i | 0 <= i < |ws|
      ensures !Met(c, ws[i])
    {
      assert c * ws[i].bits <= b * ws[i].bits;
    }
  }

  /** Those who stay after a release wait in vain and have been handed nothing. */
  lemma ReleaseFits(held: map<Task, Bits>, ws: seq<Waiter>, b: Bits)
    requires TasksDiffer(ws) && forall i :: 0 <= i < |ws| ==> ws[i].task !in held
    ensures NoneMet(Unmet(ws, b), b) && TasksDiffer(Unmet(ws, b))
    ensures forall i :: 0 <= i < |Unmet(ws, b)| ==> Unmet(ws, b)[i].task !in Handed(held, ws, b)
    ensures forall i :: 0 <= i < |ws| && Met(b, ws[i]) ==> ws[i].task in Handed(held, ws, b) && Handed(held, ws, b)[ws[i].task] == b
  {
    hide Unmet, Handed, Met;
    UnmetSays(ws, b);
    HandedSays(held, ws, b);
    forall i | 0 <= i < |Unmet(ws, b)|
      ensures Unmet(ws, b)[i].task !in Handed(held, ws, b)
    {
      var w := Unmet(ws, b)[i];
      assert w in ws && !Met(b, w);
    }
  }

  /** A list whose part from i on has yet to be looked at, without and with its element i. */
  lemma AtWalk(kept: seq<Waiter>, ws: seq<Waiter>, i: nat)
    requires i < |ws|
    ensures var l, k := kept + ws[i..], |kept|;
            l[k] == ws[i] && l[..k] + l[k + 1..] == kept + ws[i + 1..] && l == kept + [ws[i]] + ws[i + 1..]
  {}

  class EventGroup {
    var bits: Bits
    var waiting: seq<Waiter>
    var stored: map<Task, Bits>  // the bits handed to tasks that were released and have not run yet

    /** No task waits for bits that are there. */
    ghost predicate Valid()
      reads this
    {
      && NoneMet(waiting, bits)
      && TasksDiffer(waiting)
      && (forall i :: 0 <= i < |waiting| ==> waiting[i].task !in stored)
    }

    /** A task that is running: neither blocked on the group nor released and yet to run. */
    ghost predicate Runs(t: Task)
      reads this
    {
      t !in stored && forall i :: 0 <= i < |waiting| ==> waiting[i].task != t
    }

    constructor ()
      ensures Valid() && bits == {} && waiting == [] && stored == map[]
    {
      bits, waiting, stored := {}, [], map[];
    }

    /** The walk over the waiting list: release the tasks whose condition is met. */
    method Release() returns (toClear: Bits)
      modifies this`waiting, this`stored
      ensures waiting == Unmet(old(waiting), bits)
      ensures toClear == ToClear(old(waiting), bits)
      ensures stored == Handed(old(stored), old(waiting), bits)
    {
      hide Unmet, ToClear, Handed, Met, Valid, Claimed, TasksDiffer;
      toClear := {};
      NoneYet(stored, bits);
      assert waiting[..0] == [];
      ghost var ws, i, held := waiting, 0, stored;
      var k := 0;
      while k < |waiting|
        invariant 0 <= i <= |ws| && k == |Unmet(ws[..i], bits)| && waiting == Unmet(ws[..i], bits) + ws[i..]
        invariant toClear == ToClear(ws[..i], bits)
        invariant stored == Handed(held, ws[..i], bits)
        decreases |ws| - i
      {
        var w := waiting[k];
        OneMore(held, ws, i, bits);
        ghost var kept := Unmet(ws[..i], bits);
        AtWalk(kept, ws, i);
        if Met(bits, w) {
          if w.clear {
            toClear := toClear + w.bits;
          }
          stored := stored[w.task := bits];
          waiting := waiting[..k] + waiting[k + 1..];
        } else {
          k := k + 1;
        }
        i := i + 1;
      }
      assert ws[..i] == ws;
    }

    /**
    xEventGroupSetBits: exactly the tasks satisfied by the old bits and the new ones are
    released, whatever their order, each with that whole value; then the bits they claim go.
    */
    method SetBits(more: Bits)
      requires Valid()
      modifies this
      ensures Valid()
      ensures waiting == Unmet(old(waiting), old(bits) + more)
      ensures forall x :: x in bits <==> x in old(bits) + more && !Claimed(old(waiting), old(bits) + more, x)
      ensures forall i :: 0 <= i < |old(waiting)| && Met(old(bits) + more, old(waiting)[i]) ==>
                old(waiting)[i].task in stored && stored[old(waiting)[i].task] == old(bits) + more
      ensures stored == Handed(old(stored), old(waiting), old(bits) + more)
      ensures forall w :: w in waiting <==> w in old(waiting) && !Enough(old(bits) + more, w.bits, w.all)
      ensures forall x :: x in bits <==>
                && x in old(bits) + more
                && forall w :: w in old(waiting) && w.clear && x in w.bits ==> !Enough(old(bits) + more, w.bits, w.all)
    {
      hide Unmet, ToClear, Handed, Met, Enough, Claimed, TasksDiffer, NoneMet;
      bits := bits + more;
      SetInBits(waiting, bits);
      ReleaseFits(stored, waiting, bits);
      ToClearSays(waiting, bits);
      var c := Release();
      NoneMetWithFewer(waiting, bits, bits - c);
      bits := bits - c;
    }

    /** xEventGroupClearBits. */
    method ClearBits(clear: Bits) returns (before: Bits)
      requires Valid()
      modifies this`bits
      ensures Valid() && before == old(bits) && bits == old(bits) - clear
    {
      NoneMetWithFewer(waiting, bits, bits - clear);
      before := bits;
      bits := bits - clear;
    }

    /** xEventGroupWaitBits up to the point where the task blocks. */
    method WaitBits(t: Task, waitFor: Bits, clear: bool, all: bool, wait: bool) returns (blocked: bool, value: Bits)
      requires Valid() && Runs(t) && waitFor != {}
      modifies this`bits, this`waiting
      ensures Valid()
      ensures blocked <==> !Enough(old(bits), waitFor, all) && wait
      ensures bits == if Enough(old(bits), waitFor, all) && clear then old(bits) - waitFor else old(bits)
      ensures blocked <==> !WaitMet(old(bits), waitFor, all) && wait
      ensures blocked ==> bits == old(bits) && waiting == old(waiting) + [Waiter(t, waitFor, clear, all)]
      ensures !blocked ==> waiting == old(waiting) && value == old(bits)
      ensures !blocked ==> bits == if WaitMet(old(bits), waitFor, all) && clear then old(bits) - waitFor else old(bits)
    {
      WaitMetIs(bits, waitFor, all);
      blocked, value := false, bits;
      if WaitMet(bits, waitFor, all) {
        if clear {
          NoneMetWithFewer(waiting, bits, bits - waitFor);
          bits := bits - waitFor;
        }
      } else if wait {
        waiting := waiting + [Waiter(t, waitFor, clear, all)];
        blocked := true;
      }
    }

    /** The block time of a waiting task ends: it leaves the list. */
    method TimeOut(k: nat)
      requires Valid() && k < |waiting|
      modifies this`waiting
      ensures Valid() && waiting == old(waiting)[..k] + old(waiting)[k + 1..]
      ensures Runs(old(waiting)[k].task)
    {
      waiting := waiting[..k] + waiting[k + 1..];
    }

    /**
    A task that had blocked runs again: it takes the bits handed to it, or finds that it timed
    out and looks at the bits once more.
    */
    method AfterBlock(t: Task, waitFor: Bits, clear: bool, all: bool) returns (timedOut: bool, value: Bits)
      requires Valid() && forall i :: 0 <= i < |waiting| ==> waiting[i].task != t
      modifies this`bits, this`stored
      ensures Valid() && Runs(t)
      ensures timedOut <==> t !in old(stored)
      ensures value == if timedOut then old(bits) else old(stored)[t]
      ensures bits == if timedOut && WaitMet(old(bits), waitFor, all) && clear then old(bits) - waitFor else old(bits)
      ensures stored == old(stored) - {t}
      ensures bits == if timedOut && Enough(old(bits), waitFor, all) && clear then old(bits) - waitFor else old(bits)
    {
      WaitMetIs(bits, waitFor, all);
      timedOut := t !in stored;
      if timedOut {
        value := bits;
        if WaitMet(bits, waitFor, all) && clear {
          NoneMetWithFewer(waiting, bits, bits - waitFor);
          bits := bits - waitFor;
        }
      } else {
        value := stored[t];
      }
      stored := stored - {t};
    }

    /**
    xEventGroupSync up to the point where the task blocks. The last task to arrive releases
    all that wait for the same bits, with all those bits, and leaves the bits clear.
    */
    method Sync(t: Task, more: Bits, waitFor: Bits, wait: bool) returns (blocked: bool, value: Bits)
      requires Valid() && Runs(t) && waitFor != {}
      modifies this
      ensures Valid()
      ensures blocked <==> !(waitFor <= old(bits) + more) && wait
      ensures waiting == Unmet(old(waiting), old(bits) + more) + if blocked then [Waiter(t, waitFor, true, true)] else []
      ensures waitFor <= old(bits) + more ==> value == old(bits) + more
      ensures !blocked && !(waitFor <= old(bits) + more) ==> value == bits
      ensures forall x :: x in bits <==>
                && x in old(bits) + more
                && !Claimed(old(waiting), old(bits) + more, x)
                && !(waitFor <= old(bits) + more && x in waitFor)
      ensures forall i :: 0 <= i < |old(waiting)| && Met(old(bits) + more, old(waiting)[i]) ==>
                old(waiting)[i].task in stored && stored[old(waiting)[i].task] == old(bits) + more
      ensures stored == Handed(old(stored), old(waiting), old(bits) + more)
    {
      var original := bits;
      ghost var ws := waiting;
      UnmetSays(waiting, original + more);
      HandedSays(stored, waiting, original + more);
      SetBits(more);
      blocked := false;
      if waitFor <= original + more {
        value := original + more;
        NoneMetWithFewer(waiting, bits, bits - waitFor);
        bits := bits - waitFor;
      } else {
        value := bits;
        if wait {
          forall i | 0 <= i < |waiting|
            ensures waiting[i].task != t
          {
            assert waiting[i] in ws;
          }
          waiting := waiting + [Waiter(t, waitFor, true, true)];
          blocked := true;
        }
      }
    }
  }

  /** Each party's own bit. */
  function BitsOf(parties: seq<nat>): Bits { set p | p in parties }

  /** The waiters at a rendezvous of some parties: each waits for every party's bit. */
  function AtRendezvous(parties: seq<nat>, all: Bits): (ws: seq<Waiter>)
    ensures |ws| == |parties|
    ensures forall i :: 0 <= i < |ws| ==> ws[i] == Waiter(parties[i], all, true, true)
  {
    seq(|parties|, i requires 0 <= i < |parties| => Waiter(parties[i], all, true, true))
  }

  /** While a bit is missing, everybody stays. */
  lemma {:induction false} AllStay(ws: seq<Waiter>, b: Bits)
    requires NoneMet(ws, b)
    ensures Unmet(ws, b) == ws
  {
    if ws != [] {
      AllStay(ws[..|ws| - 1], b);
      assert ws == ws[..|ws| - 1] + [ws[|ws| - 1]];
    }
  }

  /** When every condition is met, everybody goes. */
  lemma {:induction false} AllGo(ws: seq<Waiter>, b: Bits)
    requires forall i :: 0 <= i < |ws| ==> Met(b, ws[i])
    ensures Unmet(ws, b) == []
  {
    if ws != [] {
      AllGo(ws[..|ws| - 1], b);
    }
  }

  /** The last party's bit releases all the others and claims every party's bit. */
  lemma AllArrive(ws: seq<Waiter>, parties: seq<nat>, all: Bits, was: Bits)
    requires parties != [] && all == BitsOf(parties)
    requires ws == AtRendezvous(parties[..|parties| - 1], all)
    ensures var n := |parties| - 1;
            var b := was + BitsOf(parties[..n]) + {parties[n]};
            b == was + all && Unmet(ws, b) == [] && (forall i :: 0 <= i < n ==> Met(b, ws[i]) && ws[i].task == parties[i])
            && (forall x: nat :: Claimed(ws, b, x) ==> x in all)
  {
    var n := |parties| - 1;
    var b := was + BitsOf(parties[..n]) + {parties[n]};
    assert parties == parties[..n] + [parties[n]];
    assert b == was + all;
    AllGo(ws, b);
  }

  /** A party that is not the last one releases nobody. */
  lemma OneArrives(parties: seq<nat>, k: nat, was: Bits, held: map<Task, Bits>)
    requires k < |parties| - 1
    requires forall i, j :: 0 <= i < j < |parties| ==> parties[i] != parties[j]
    requires parties[|parties| - 1] !in was
    ensures var all, ws := BitsOf(parties), AtRendezvous(parties[..k], BitsOf(parties));
            var b := was + BitsOf(parties[..k]) + {parties[k]};
            && b == was + BitsOf(parties[..k + 1])
            && all != {} && !(all <= b)
            && Unmet(ws, b) == ws
            && ws + [Waiter(parties[k], all, true, true)] == AtRendezvous(parties[..k + 1], all)
            && (forall x :: !Claimed(ws, b, x))
            && (forall t :: t in Handed(held, ws, b) ==> t in held)
  {
    var all, ws := BitsOf(parties), AtRendezvous(parties[..k], BitsOf(parties));
    var b := was + BitsOf(parties[..k]) + {parties[k]};
    var n := |parties| - 1;
    assert parties[..k + 1] == parties[..k] + [parties[k]];
    assert parties[n] in all && parties[n] !in b;
    AllStay(ws, b);
    HandedSays(held, ws, b);
  }

  /** What is to be seen of an event group. */
  datatype Seen = Seen(bits: Bits, waiting: seq<Waiter>, stored: map<Task, Bits>)

  ghost function SeenOf(g: EventGroup): Seen
    reads g
  {
    Seen(g.bits, g.waiting, g.stored)
  }

  /** A task sets its bit p and is ready to wait for all of some bits. */
  ghost predicate Arrives(s: Seen, p: nat, all: Bits, t: Seen) {
    var b := s.bits + {p};
    && t.waiting == Unmet(s.waiting, b) + (if all <= b then [] else [Waiter(p, all, true, true)])
    && t.stored == Handed(s.stored, s.waiting, b)
    && forall x :: x in t.bits <==> x in b && !Claimed(s.waiting, b, x) && !(all <= b && x in all)
  }

  /** Some parties, not all, have arrived: they wait, their bits are set, and no party has passed. */
  ghost predicate Gathered(s: Seen, parties: seq<nat>, k: nat, was: Bits) {
    && k < |parties|
    && s.waiting == AtRendezvous(parties[..k], BitsOf(parties)) && s.bits == was + BitsOf(parties[..k])
    && forall i :: 0 <= i < |parties| ==> parties[i] !in s.stored
  }

  /** Parties differ, and their bits are free. */
  predicate Parties(parties: seq<nat>, was: Bits) {
    && parties != [] && (forall i, j :: 0 <= i < j < |parties| ==> parties[i] != parties[j])
    && forall i :: 0 <= i < |parties| ==> parties[i] !in was
  }

  lemma Nobody(s: Seen, parties: seq<nat>)
    requires Parties(parties, s.bits) && s.waiting == []
    requires forall i :: 0 <= i < |parties| ==> parties[i] !in s.stored
    ensures parties != [] && Gathered(s, parties, 0, s.bits)
  {
    assert parties[..0] == [];
  }

  /** One more party arrives and a bit is still missing. */
  method Arrive(g: EventGroup, parties: seq<nat>, k: nat, ghost was: Bits)
    requires g.Valid() && Parties(parties, was) && k < |parties| - 1 && Gathered(SeenOf(g), parties, k, was)
    modifies g
    ensures g.Valid() && Gathered(SeenOf(g), parties, k + 1, was)
    ensures Arrives(old(SeenOf(g)), parties[k], BitsOf(parties), SeenOf(g))
  {
    hide Unmet, Handed, Claimed, NoneMet;
    OneArrives(parties, k, was, g.stored);
    var blocked, value := g.Sync(parties[k], {parties[k]}, BitsOf(parties), true);
  }

  /** The last party arrives, and all pass. */
  method ArriveLast(g: EventGroup, parties: seq<nat>, ghost was: Bits) returns (last: Bits)
    requires g.Valid() && Parties(parties, was) && Gathered(SeenOf(g), parties, |parties| - 1, was)
    modifies g
    ensures g.Valid() && g.waiting == [] && g.bits == was && last == was + BitsOf(parties)
    ensures forall i :: 0 <= i < |parties| - 1 ==> parties[i] in g.stored && g.stored[parties[i]] == last
    ensures Arrives(old(SeenOf(g)), parties[|parties| - 1], BitsOf(parties), SeenOf(g))
  {
    var n, all := |parties| - 1, BitsOf(parties);
    assert parties[n] in all;
    AllArrive(g.waiting, parties, all, was);
    var blocked;
    blocked, last := g.Sync(parties[n], {parties[n]}, all, true);
  }

  /**
  A rendezvous of any number of parties, each setting its own bit and waiting for all of them,
  in any order of arrival: nobody passes before the last one arrives, everybody passes then
  with every bit, and the group is left as it was found, ready for the next rendezvous. The
  trace shows the group from one arrival to the next.
  */
  method Rendezvous(g: EventGroup, parties: seq<nat>) returns (last: Bits, ghost trace: seq<Seen>)
    requires g.Valid() && g.waiting == [] && Parties(parties, g.bits)
    requires forall i :: 0 <= i < |parties| ==> parties[i] !in g.stored
    modifies g
    ensures g.Valid() && g.waiting == [] && g.bits == old(g.bits)
    ensures last == old(g.bits) + BitsOf(parties)
    ensures forall i :: 0 <= i < |parties| - 1 ==> parties[i] in g.stored && g.stored[parties[i]] == last
    ensures |trace| == |parties| + 1 && trace[0] == old(SeenOf(g)) && trace[|parties|] == SeenOf(g)
    ensures forall k :: 0 <= k < |parties| ==> Arrives(trace[k], parties[k], BitsOf(parties), trace[k + 1])
    ensures forall k :: 0 <= k < |parties| ==> Gathered(trace[k], parties, k, old(g.bits))
  {
    hide Arrives, Gathered, Parties, BitsOf, EventGroup.Valid;
    ghost var was := g.bits;
    Nobody(SeenOf(g), parties);
    var n, k := |parties| - 1, 0;
    trace := [SeenOf(g)];
    while k < n
      invariant 0 <= k <= n && g.Valid()
      invariant |trace| == k + 1 && trace[0] == old(SeenOf(g)) && trace[k] == SeenOf(g)
      invariant forall j :: 0 <= j < k ==> Arrives(trace[j], parties[j], BitsOf(parties), trace[j + 1])
      invariant forall j :: 0 <= j <= k ==> Gathered(trace[j], parties, j, was)
    {
      Arrive(g, parties, k, was);
      k := k + 1;
      trace := trace + [SeenOf(g)];
    }
    last := ArriveLast(g, parties, was);
    trace := trace + [SeenOf(g)];
  }
}
