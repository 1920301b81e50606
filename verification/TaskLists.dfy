/** Lists of tasks as sequences: insertion in the order of item values, and removal. */
module TaskLists {
  type Task = nat

  ghost predicate NoDup(l: seq<Task>) { forall i, j :: 0 <= i < j < |l| ==> l[i] != l[j] }

  /** The list is in the order of the item values v. */
  ghost predicate Sorted(l: seq<Task>, v: map<Task, nat>) {
    && (forall i :: 0 <= i < |l| ==> l[i] in v)
    && forall i, j :: 0 <= i < j < |l| ==> v[l[i]] <= v[l[j]]
  }

  /** vListInsert: before the first item with a larger value. */
  function Insert(l: seq<Task>, v: map<Task, nat>, t: Task): seq<Task>
    requires t in v && forall i :: 0 <= i < |l| ==> l[i] in v
  {
    if l == [] then [t]
    else if v[l[0]] <= v[t] then [l[0]] + Insert(l[1..], v, t)
    else [t] + l
  }

  function Without(l: seq<Task>, t: Task): seq<Task> {
    if l == [] then [] else if l[0] == t then l[1..] else [l[0]] + Without(l[1..], t)
  }

  lemma {:induction false} InsertMembers(l: seq<Task>, v: map<Task, nat>, t: Task)
    requires t in v && forall i :: 0 <= i < |l| ==> l[i] in v
    ensures forall x :: x in Insert(l, v, t) <==> x in l || x == t
    ensures NoDup(l) && t !in l ==> NoDup(Insert(l, v, t))
    ensures Insert(l, v, t) != []
    ensures Insert(l, v, t)[0] == if l == [] || v[t] < v[l[0]] then t else l[0]
  {
    if l != [] && v[l[0]] <= v[t] {
      InsertMembers(l[1..], v, t);
      assert l == [l[0]] + l[1..];
      var m := Insert(l[1..], v, t);
      if NoDup(l) && t !in l {
        assert l[0] !in l[1..];
        assert l[0] !in m;
      }
    }
  }

  lemma {:induction false} InsertSorted(l: seq<Task>, v: map<Task, nat>, t: Task)
    requires t in v && Sorted(l, v)
    ensures Sorted(Insert(l, v, t), v)
  {
    if l != [] && v[l[0]] <= v[t] {
      InsertSorted(l[1..], v, t);
      InsertMembers(l[1..], v, t);
      var m := Insert(l[1..], v, t);
      forall j | 0 <= j < |m|
        ensures v[l[0]] <= v[m[j]]
      {
        assert m[j] in l[1..] || m[j] == t;
      }
    }
  }

  lemma {:induction false} WithoutMembers(l: seq<Task>, t: Task)
    requires NoDup(l)
    ensures NoDup(Without(l, t))
    ensures forall x :: x in Without(l, t) <==> x in l && x != t
  {
    if l != [] {
      WithoutMembers(l[1..], t);
      assert l == [l[0]] + l[1..];
      assert l[0] !in l[1..];
    }
  }

  lemma {:induction false} WithoutSorted(l: seq<Task>, v: map<Task, nat>, t: Task)
    requires NoDup(l) && Sorted(l, v)
    ensures Sorted(Without(l, t), v)
    ensures Without(l, t) != [] ==> l != [] && v[l[0]] <= v[Without(l, t)[0]]
  {
    if l != [] && l[0] != t {
      WithoutSorted(l[1..], v, t);
      WithoutMembers(l[1..], t);
      var m := Without(l[1..], t);
      forall j | 0 <= j < |m|
        ensures v[l[0]] <= v[m[j]]
      {
        assert m[j] in l[1..];
      }
    }
  }

  /** Giving a task its item value and inserting it. */
  lemma EnterSorted(l: seq<Task>, v: map<Task, nat>, t: Task, x: nat)
    requires Sorted(l, v) && t !in l
    ensures Sorted(l, v[t := x]) && forall i :: 0 <= i < |l| ==> l[i] in v[t := x]
    ensures Sorted(Insert(l, v[t := x], t), v[t := x])
  {
    SortedSame(l, v, v[t := x]);
    InsertSorted(l, v[t := x], t);
  }

  lemma HeadIn(l: seq<Task>)
    ensures l == [] || l[0] in l
  {}

  /** The values of the members are all that matters. */
  lemma SortedSame(l: seq<Task>, v: map<Task, nat>, w: map<Task, nat>)
    requires Sorted(l, v) && forall x :: x in l ==> x in w && w[x] == v[x]
    ensures Sorted(l, w)
  {}

  lemma {:induction false} WithoutOther(l: seq<Task>, t: Task)
    requires t !in l
    ensures Without(l, t) == l
  {
    if l != [] {
      WithoutOther(l[1..], t);
    }
  }

  lemma WithoutEmpty(l: seq<Task>, t: Task)
    ensures l == [] ==> Without(l, t) == []
  {}

  lemma {:induction false} WithoutSome(l: seq<Task>, t: Task)
    ensures forall x :: x in Without(l, t) ==> x in l
  {
    if l != [] {
      WithoutSome(l[1..], t);
    }
  }
}
