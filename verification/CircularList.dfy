/** The kernel's doubly linked circular list, on the level of its pointers. */
module CircularList {
  import TaskLists

  const MAX_DELAY := 0xFFFF_FFFF

  class Item {
    var value: nat
    var next: Item?
    var prev: Item?
    var container: List?

    /** vListInitialiseItem. */
    constructor (value: nat)
      requires value <= MAX_DELAY
      ensures this.value == value && container == null
    {
      this.value, container := value, null;
    }
  }

  /** The position after i in a ring of n. */
  function Succ(i: nat, n: nat): nat { if i + 1 == n then 0 else i + 1 }

  /** The position before i in a ring of n. */
  function Pred(i: nat, n: nat): int { if i == 0 then n - 1 else i - 1 }

  ghost predicate Apart(r: seq<Item>) { forall i, j :: 0 <= i < j < |r| ==> r[i] != r[j] }

  /** The pointers of the items lead around the ring r in both directions. */
  ghost predicate Linked(r: seq<Item>)
    reads r`next, r`prev
  {
    && Apart(r)
    && (forall i :: 0 <= i < |r| ==> r[i].next == r[Succ(i, |r|)])
    && (forall i :: 0 <= i < |r| ==> r[i].prev == r[Pred(i, |r|)])
  }

  /** How many leading values do not exceed v. */
  function Place(values: seq<nat>, v: nat): (k: nat)
    ensures k <= |values|
    ensures forall i :: 0 <= i < k ==> values[i] <= v
    ensures k < |values| ==> values[k] > v
  {
    if values == [] || values[0] > v then 0 else 1 + Place(values[1..], v)
  }

  lemma {:induction false} PlaceIs(values: seq<nat>, v: nat, k: nat)
    requires k <= |values| && (forall i :: 0 <= i < k ==> values[i] <= v) && (k < |values| ==> values[k] > v)
    ensures Place(values, v) == k
  {
    if k > 0 {
      PlaceIs(values[1..], v, k - 1);
    }
  }

  function Inserted<T>(s: seq<T>, k: nat, x: T): seq<T>
    requires k <= |s|
  {
    s[..k] + [x] + s[k..]
  }

  function Deleted<T>(s: seq<T>, k: nat): seq<T>
    requires k < |s|
  {
    s[..k] + s[k + 1..]
  }

  lemma InsertedTail<T>(s: seq<T>, k: nat, x: T)
    requires s != [] && k < |s|
    ensures Inserted(s, k + 1, x) == [s[0]] + Inserted(s[1..], k, x)
    ensures Inserted(s, k + 1, x)[1..] == Inserted(s[1..], k, x)
  {}

  ghost predicate Ascending(values: seq<nat>) { forall i, j :: 0 <= i < j < |values| ==> values[i] <= values[j] }

  /** Inserting at its place keeps a list of values ascending. */
  lemma InsertAscending(values: seq<nat>, v: nat)
    requires Ascending(values)
    ensures Ascending(Inserted(values, Place(values, v), v))
  {}

  function TaskValues(l: seq<TaskLists.Task>, v: map<TaskLists.Task, nat>): (s: seq<nat>)
    requires forall i :: 0 <= i < |l| ==> l[i] in v
    ensures |s| == |l| && forall i :: 0 <= i < |l| ==> s[i] == v[l[i]]
  {
    if l == [] then [] else [v[l[0]]] + TaskValues(l[1..], v)
  }

  /** The sequence operation of the scheduler's lists is insertion at this place. */
  lemma {:induction false} SameInsert(l: seq<TaskLists.Task>, v: map<TaskLists.Task, nat>, t: TaskLists.Task)
    requires t in v && forall i :: 0 <= i < |l| ==> l[i] in v
    ensures TaskLists.Insert(l, v, t) == Inserted(l, Place(TaskValues(l, v), v[t]), t)
  {
    if l != [] && v[l[0]] <= v[t] {
      SameInsert(l[1..], v, t);
      assert TaskValues(l, v)[1..] == TaskValues(l[1..], v);
      InsertedTail(l, Place(TaskValues(l[1..], v), v[t]), t);
    }
  }

  ghost function ValuesOf(r: seq<Item>): (v: seq<nat>)
    reads r`value
    ensures |v| == |r| && forall i :: 0 <= i < |r| ==> v[i] == r[i].value
  {
    if r == [] then [] else [r[0].value] + ValuesOf(r[1..])
  }

  class List {
    const end: Item
    var index: Item
    var count: nat
    ghost var ring: seq<Item>  // the end marker and then the items

    ghost predicate Valid()
      reads this, ring
    {
      && ring != [] && ring[0] == end && end.value == MAX_DELAY
      && Linked(ring)
      && (forall i :: 1 <= i < |ring| ==> ring[i].container == this && ring[i].value <= MAX_DELAY)
      && end.container == null
      && index in ring
      && count == |ring| - 1
    }

    ghost function Items(): seq<Item>
      requires ring != []
      reads this
    {
      ring[1..]
    }

    /** The values of the items in order. */
    ghost function Values(): (v: seq<nat>)
      requires ring != []
      reads this`ring, ring`value
    {
      ValuesOf(ring[1..])
    }

    /** vListInitialise. */
    constructor ()
      ensures Valid() && Items() == [] && index == end && fresh(end)
    {
      end := new Item(MAX_DELAY);
      index := end;
      count := 0;
      ring := [end];
      new;
      end.next := end;
      end.prev := end;
    }

    /** An item that is in no list, or in another one. */
    ghost predicate Foreign(x: Item)
      reads this, x
    {
      x !in ring && x.value <= MAX_DELAY
    }

    /** Take x into the ring behind position k. */
    method Join(at: Item, x: Item, ghost k: nat)
      requires Valid() && k < |ring| && at == ring[k] && Foreign(x)
      modifies this`count, this`ring, x`next, x`prev, x`container, ring`next, ring`prev
      ensures Valid() && ring == Inserted(old(ring), k + 1, x)
    {
      hide Linked, Inserted;
      Joining(ring, k, x);
      LinkAfter(at, x, ring, k);
      x.container := this;
      count := count + 1;
      ring := Inserted(ring, k + 1, x);
    }

    /** vListInsertEnd: just before the index, so that the item is the last one to be reached from it. */
    method InsertEnd(x: Item, ghost p: nat)
      requires Valid() && Foreign(x) && p < |ring| && ring[p] == index
      modifies this`count, this`ring, x`next, x`prev, x`container, ring`next, ring`prev
      ensures Valid() && ring == Inserted(old(ring), if p == 0 then |old(ring)| else p, x)
    {
      Join(index.prev, x, Pred(p, |ring|));
    }

    /**
    vListInsert: behind all leading items with a value not above the new one, so that a sorted
    list stays sorted and equal values keep their order. The end marker stops the search.
    */
    method Insert(x: Item)
      requires Valid() && Foreign(x)
      modifies this`count, this`ring, x`next, x`prev, x`container, ring`next, ring`prev
      ensures Valid()
      ensures Items() == Inserted(old(Items()), Place(old(Values()), x.value), x)
      ensures Values() == Inserted(old(Values()), Place(old(Values()), x.value), x.value)
    {
      hide Place, Valid, ValuesOf, Inserted;
      NotEmpty();
      ghost var r := ring;
      var at, k := FindPlace(x.value);
      ValuesInserted(Items(), k, x);
      InsertedTail(r, k, x);
      ghost var q := Inserted(Items(), k, x);
      ghost var vs := ValuesOf(q);
      Join(at, x, k);
      NotEmpty();
      assert Items() == q;
      assert ValuesOf(q) == vs;
    }

    lemma NotEmpty()
      requires Valid()
      ensures ring != []
    {}

    /** The search of vListInsert: the item to insert behind, at position k of the ring. */
    method FindPlace(v: nat) returns (at: Item, ghost k: nat)
      requires Valid() && v <= MAX_DELAY
      ensures k < |ring| && at == ring[k] && k == Place(Values(), v)
    {
      at, k := end, 0;
      ghost var values := Values();
      if v == MAX_DELAY {
        at, k := end.prev, |ring| - 1;
      } else {
        while at.next.value <= v
          invariant 0 <= k < |ring| && at == ring[k]
          invariant forall i :: 0 <= i < k ==> values[i] <= v
          decreases |ring| - k
        {
          at, k := at.next, k + 1;
        }
      }
      PlaceIs(values, v, k);
    }

    /** uxListRemove: the index stays on an item of the list, and the count stays exact. */
    method Remove(x: Item, ghost k: nat) returns (left: nat)
      requires Valid() && 1 <= k < |ring| && ring[k] == x
      modifies this`count, this`ring, this`index, x`container, ring`next, ring`prev
      ensures Valid() && ring == Deleted(old(ring), k) && x !in ring && x.container == null
      ensures left == count == old(count) - 1
      ensures index == if old(index) == x then old(ring)[k - 1] else old(index)
    {
      hide Linked, Apart;
      ghost var r := ring;
      Leaving(r, k);
      Unlink(x, r, k);
      if index == x {
        index := x.prev;
      }
      x.container := null;
      count := count - 1;
      ring := Deleted(r, k);
      left := count;
    }
  }

  /** Who is left when position k leaves a ring. */
  lemma Leaving(r: seq<Item>, k: nat)
    requires Linked(r) && 1 <= k < |r|
    ensures forall y :: y in Deleted(r, k) <==> y in r && y != r[k]
    ensures r[k - 1] in Deleted(r, k) && r[k - 1] != r[k]
    ensures forall i :: 1 <= i < |r| - 1 ==> exists j :: 1 <= j < |r| && j != k && Deleted(r, k)[i] == r[j] && r[j] != r[k]
  {
    assert r == r[..k] + [r[k]] + r[k + 1..];
    forall i | 1 <= i < |r| - 1
      ensures exists j :: 1 <= j < |r| && j != k && Deleted(r, k)[i] == r[j] && r[j] != r[k]
    {
      var j := if i < k then i else i + 1;
      assert Deleted(r, k)[i] == r[j] && r[j] != r[k];
    }
    assert Deleted(r, k)[k - 1] == r[k - 1];
  }

  lemma {:induction false} ValuesInserted(r: seq<Item>, k: nat, x: Item)
    requires k <= |r|
    ensures ValuesOf(Inserted(r, k, x)) == Inserted(ValuesOf(r), k, x.value)
  {
    if k == 0 {
      assert Inserted(r, 0, x) == [x] + r;
    } else {
      ValuesInserted(r[1..], k - 1, x);
      InsertedTail(r, k - 1, x);
      InsertedTail(ValuesOf(r), k - 1, x.value);
    }
  }

  /** Who is there when x joins a ring behind position k. */
  lemma Joining(r: seq<Item>, k: nat, x: Item)
    requires k < |r|
    ensures |Inserted(r, k + 1, x)| == |r| + 1 && Inserted(r, k + 1, x)[0] == r[0]
    ensures forall y :: y in r ==> y in Inserted(r, k + 1, x)
    ensures var q := Inserted(r, k + 1, x);
            forall i :: 1 <= i < |q| ==> q[i] == x || exists j :: 1 <= j < |r| && q[i] == r[j]
  {
    var q := Inserted(r, k + 1, x);
    forall y | y in r
      ensures y in q
    {
      var j :| 0 <= j < |r| && r[j] == y;
      assert q[if j <= k then j else j + 1] == y;
    }
    forall i | 1 <= i <= |r| && i != k + 1
      ensures exists j :: 1 <= j < |r| && q[i] == r[j]
    {
      assert q[i] == r[if i <= k then i else i - 1];
    }
  }

  /** Unlink position k of the ring r. */
  method Unlink(x: Item, ghost r: seq<Item>, ghost k: nat)
    requires Linked(r) && 1 <= k < |r| && x == r[k]
    modifies r`next, r`prev
    ensures Linked(Deleted(r, k)) && x.prev == r[k - 1]
  {
    hide Linked, Apart;
    ghost var n := |r|;
    Around(r, k - 1, Succ(k, n));
    x.next.prev := x.prev;
    x.prev.next := x.next;
    assert forall i :: 0 <= i < n && i != k - 1 ==> r[i].next == old(r[i].next);
    assert forall i :: 0 <= i < n && i != Succ(k, n) ==> r[i].prev == old(r[i].prev);
    DeletedLinks(r, k);
  }

  lemma DeletedLinks(r: seq<Item>, k: nat)
    requires 1 <= k < |r|
    requires Apart(r)
    requires forall i :: 0 <= i < |r| ==> r[i].next == r[if i == k - 1 then Succ(k, |r|) else Succ(i, |r|)]
    requires forall i :: 0 <= i < |r| ==> r[i].prev == r[if i == Succ(k, |r|) then k - 1 else Pred(i, |r|)]
    ensures Linked(Deleted(r, k))
  {
    var q := Deleted(r, k);
    forall i | 0 <= i < |q|
      ensures q[i].next == q[Succ(i, |q|)] && q[i].prev == q[Pred(i, |q|)]
    {
      if i < k {
        assert q[i] == r[i];
      } else {
        assert q[i] == r[i + 1];
      }
    }
  }

  /** The pointers of a ring, and two positions of it that no other position shares. */
  lemma Around(r: seq<Item>, a: nat, b: nat)
    requires Linked(r) && a < |r| && b < |r|
    ensures Apart(r)
    ensures forall i :: 0 <= i < |r| ==> r[i].next == r[Succ(i, |r|)]
    ensures forall i :: 0 <= i < |r| ==> r[i].prev == r[Pred(i, |r|)]
    ensures forall i :: 0 <= i < |r| ==> (r[i] == r[a] <==> i == a) && (r[i] == r[b] <==> i == b)
  {}

  /** Link x between position k of the ring r and the next one. */
  method LinkAfter(at: Item, x: Item, ghost r: seq<Item>, ghost k: nat)
    requires Linked(r) && k < |r| && at == r[k] && x !in r
    modifies x`next, x`prev, r`next, r`prev
    ensures Linked(Inserted(r, k + 1, x))
  {
    hide Linked, Apart;
    ghost var n, s := |r|, Succ(k, |r|);
    Around(r, k, s);
    x.next := at.next;
    x.next.prev := x;
    x.prev := at;
    at.next := x;
    assert forall i :: 0 <= i < n && i != k ==> r[i].next == old(r[i].next);
    assert forall i :: 0 <= i < n && i != s ==> r[i].prev == old(r[i].prev);
    InsertedLinks(r, k, x);
  }

  lemma InsertedLinks(r: seq<Item>, k: nat, x: Item)
    requires k < |r| && x !in r
    requires Apart(r)
    requires forall i :: 0 <= i < |r| ==> r[i].next == if i == k then x else r[Succ(i, |r|)]
    requires forall i :: 0 <= i < |r| ==> r[i].prev == if i == Succ(k, |r|) then x else r[Pred(i, |r|)]
    requires x.next == r[Succ(k, |r|)] && x.prev == r[k]
    ensures Linked(Inserted(r, k + 1, x))
  {
    var q := Inserted(r, k + 1, x);
    forall i | 0 <= i < |q|
      ensures q[i].next == q[Succ(i, |q|)] && q[i].prev == q[Pred(i, |q|)]
    {
      if i <= k {
        assert q[i] == r[i];
      } else if i > k + 1 {
        assert q[i] == r[i - 1];
      }
    }
  }
}
