/** utils::CircularQueue: a fixed array used as a ring, with absolute head and tail counters. */
module CircularQueue {
  import opened Align

  /** Absolute indices less than n apart live in different slots. */
  lemma SlotsDiffer(n: nat, a: nat, b: nat)
    requires 0 < n && a < b < a + n
    ensures a % n != b % n
  {
    if a % n == b % n {
      var qa, qb := a / n, b / n;
      assert b - a == (qb - qa) * n;
      if qb > qa {
        MulMonotone(1, qb - qa, n);
      } else {
        MulMonotone(qb, qa, n);
      }
    }
  }

  class Queue<T(0)> {
    const arr: array<T>
    var head: nat
    var tail: nat

    ghost predicate Valid()
      reads this
    {
      0 < arr.Length && head <= tail <= head + arr.Length
    }

    /** The queued elements, front first. */
    ghost function Contents(): (s: seq<T>)
      requires Valid()
      reads this, arr
      ensures |s| == tail - head
      ensures forall i :: 0 <= i < |s| ==> s[i] == arr[(head + i) % arr.Length]
    {
      seq(tail - head, i requires 0 <= i reads this, arr => arr[(head + i) % arr.Length])
    }

    constructor (capacity: nat)
      requires 0 < capacity
      ensures Valid() && fresh(arr) && arr.Length == capacity && Contents() == [] && head == 0
    {
      arr := new T[capacity];
      head, tail := 0, 0;
    }

    predicate Full()
      reads this
    {
      tail - head >= arr.Length
    }

    predicate Empty()
      reads this
    {
      head == tail
    }

    /**
      Appends x and returns its absolute index, or refuses when the queue is full. No slot of a queued
      element is touched, so a pointer to one stays good until that element is erased.
     */
    method EmplaceBack(x: T) returns (slot: int)
      requires Valid()
      modifies this`tail, arr
      ensures Valid() && head == old(head)
      ensures old(Full()) ==> slot == -1 && Contents() == old(Contents())
      ensures !old(Full()) ==> slot == old(tail) && Contents() == old(Contents()) + [x]
      ensures forall a: nat :: head <= a < old(tail) ==> arr[a % arr.Length] == old(arr[a % arr.Length])
    {
      if Full() {
        return -1;
      }
      slot := tail;
      forall a: nat | head <= a < tail
        ensures a % arr.Length != tail % arr.Length
      {
        SlotsDiffer(arr.Length, a, tail);
      }
      arr[tail % arr.Length] := x;
      tail := tail + 1;
      assert Contents() == old(Contents()) + [x];
    }

    /**
      Erases the longest prefix whose elements satisfy pred and returns its length; the last erased element is still in
      its slot.
     */
    method EraseFrontWhile(pred: T -> bool) returns (k: nat, last: T)
      requires Valid()
      modifies this`head
      ensures Valid() && tail == old(tail)
      ensures k <= |old(Contents())| && head == old(head) + k && Contents() == old(Contents())[k..]
      ensures forall i :: 0 <= i < k ==> pred(old(Contents())[i])
      ensures k < |old(Contents())| ==> !pred(old(Contents())[k])
      ensures k > 0 ==> last == old(Contents())[k - 1]
    {
      k := 0;
      last := arr[0];
      while !Empty() && pred(arr[head % arr.Length])
        invariant Valid() && tail == old(tail) && head == old(head) + k
        invariant forall i :: 0 <= i < k ==> pred(old(Contents())[i])
        invariant k > 0 ==> last == old(Contents())[k - 1]
        decreases tail - head
      {
        last := arr[head % arr.Length];
        assert last == old(Contents())[k];
        head := head + 1;
        k := k + 1;
      }
      assert Contents() == old(Contents())[k..];
      assert k < |old(Contents())| ==> arr[head % arr.Length] == old(Contents())[k];
    }
  }
}
