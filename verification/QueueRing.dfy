/**
The storage area of a queue: items in a ring, with the place to write next and the place
last read from. One element of the array is one item of uxItemSize bytes.
*/
module QueueRing {
  import opened Sectors

  datatype Position = SendToBack | SendToFront | Overwrite

  /** An index one or more places on, around the end of the storage area. */
  function Wrap(i: nat, length: nat): nat {
    if i >= length then i - length else i
  }

  /** The write place in terms of the read place and the number of items. */
  lemma WriteIndex(r: nat, n: nat, length: nat)
    requires r < length && n <= length
    ensures Wrap(Wrap(r + 1, length) + n, length) == (r + 1 + n) % length
  {
    var x := r + 1 + n;
    WithinUnit(0, length, if x < length then x else 0);
    WithinUnit(1, length, if length <= x < 2 * length then x - length else 0);
    WithinUnit(2, length, 0);
  }

  /** The storage s read around from place f. */
  function Around<T>(s: seq<T>, f: nat): (c: seq<T>)
    requires f <= |s|
    ensures |c| == |s|
  {
    s[f..] + s[..f]
  }

  /** The n items of the storage s behind the place r last read from. */
  function Items<T>(s: seq<T>, r: nat, n: nat): (c: seq<T>)
    requires r < |s| && n <= |s|
    ensures |c| == n
  {
    Around(s, Wrap(r + 1, |s|))[..n]
  }

  /** Writing behind the last item appends. */
  lemma ItemsBack<T>(s: seq<T>, r: nat, n: nat, x: T)
    requires r < |s| && n < |s|
    ensures Items(s[Wrap(Wrap(r + 1, |s|) + n, |s|) := x], r, n + 1) == Items(s, r, n) + [x]
  {
    var f := Wrap(r + 1, |s|);
    var t := s[Wrap(f + n, |s|) := x];
    assert Around(t, f) == Around(s, f)[n := x];
  }

  /** Writing at the place last read from, and stepping back, prepends. */
  lemma ItemsFront<T>(s: seq<T>, r: nat, n: nat, x: T)
    requires r < |s| && n < |s|
    ensures Items(s[r := x], if r == 0 then |s| - 1 else r - 1, n + 1) == [x] + Items(s, r, n)
  {
    var f := Wrap(r + 1, |s|);
    assert Around(s[r := x], r) == [x] + Around(s, f)[..|s| - 1];
  }

  /** Stepping forward drops the first item. */
  lemma ItemsRest<T>(s: seq<T>, r: nat, n: nat)
    requires r < |s| && 0 < n <= |s|
    ensures Items(s, r, n)[0] == s[Wrap(r + 1, |s|)]
    ensures Items(s, Wrap(r + 1, |s|), n - 1) == Items(s, r, n)[1..]
  {
    var f := Wrap(r + 1, |s|);
    assert Around(s, f) == [s[f]] + Around(s, Wrap(f + 1, |s|))[..|s| - 1];
  }

  lemma ItemsOne<T>(s: seq<T>)
    requires |s| == 1
    ensures Items(s, 0, 1) == s
  {}

  class Ring<T> {
    const length: nat
    const storage: array<T>
    var writeTo: nat
    var readFrom: nat
    var waiting: nat

    /** The write place is one item behind the last of the waiting ones. */
    ghost predicate Valid()
      reads this
    {
      && 0 < length == storage.Length
      && readFrom < length && waiting <= length
      && writeTo == Wrap(Wrap(readFrom + 1, length) + waiting, length)
    }

    /** The waiting items, the next one to be received first. */
    ghost function Contents(): (c: seq<T>)
      requires Valid()
      reads this, storage
      ensures |c| == waiting
    {
      Items(storage[..], readFrom, waiting)
    }

    /** xQueueGenericReset of the storage area, as done when the queue is created. */
    constructor (items: array<T>)
      requires items.Length > 0
      ensures Valid() && storage == items && length == items.Length && Contents() == []
    {
      length, storage := items.Length, items;
      waiting, writeTo, readFrom := 0, 0, items.Length - 1;
    }

    method Reset()
      requires Valid()
      modifies this
      ensures Valid() && Contents() == []
    {
      waiting, writeTo, readFrom := 0, 0, length - 1;
    }

    /** prvCopyDataToQueue for an item with a size. */
    method CopyIn(x: T, position: Position)
      requires Valid() && (waiting < length || position == Overwrite)
      requires position == Overwrite ==> length == 1
      modifies this, storage
      ensures Valid()
      ensures Contents() == match position
                            case SendToBack => old(Contents()) + [x]
                            case SendToFront => [x] + old(Contents())
                            case Overwrite => [x]
    {
      hide Items;
      var n := waiting;
      ghost var s := storage[..];
      if position == SendToBack {
        ItemsBack(s, readFrom, n, x);
        storage[writeTo] := x;
        assert storage[..] == s[writeTo := x];
        writeTo := writeTo + 1;
        if writeTo >= length {
          writeTo := 0;
        }
      } else {
        if position == SendToFront {
          ItemsFront(s, readFrom, n, x);
        }
        storage[readFrom] := x;
        assert storage[..] == s[readFrom := x];
        readFrom := if readFrom == 0 then length - 1 else readFrom - 1;
        if position == Overwrite {
          ItemsOne(storage[..]);
          if n > 0 {
            n := n - 1;
          }
        }
      }
      waiting := n + 1;
    }

    /** prvCopyDataFromQueue: move on to the next item and copy it out. */
    method CopyOut() returns (x: T)
      requires Valid() && waiting > 0
      modifies this`readFrom
      ensures readFrom == Wrap(old(readFrom) + 1, length)
      ensures x == old(Contents())[0]
    {
      ItemsRest(storage[..], readFrom, waiting);
      readFrom := readFrom + 1;
      if readFrom >= length {
        readFrom := 0;
      }
      x := storage[readFrom];
    }

    /** The data part of xQueueReceive. */
    method Receive() returns (x: T)
      requires Valid() && waiting > 0
      modifies this
      ensures Valid() && x == old(Contents())[0] && Contents() == old(Contents())[1..]
    {
      ItemsRest(storage[..], readFrom, waiting);
      x := CopyOut();
      waiting := waiting - 1;
    }

    /** The data part of xQueuePeek. */
    method Peek() returns (x: T)
      requires Valid() && waiting > 0
      modifies this`readFrom
      ensures Valid() && x == Contents()[0] && Contents() == old(Contents())
    {
      var original := readFrom;
      x := CopyOut();
      readFrom := original;
    }
  }
}
