/** The ring buffer of Assignment10/src/bounded_deque.h, which checks neither its
    capacity nor its emptiness: those are the caller's business. */
module BoundedDeques {
  import W = Words

  /** The position of element i when the front position is `front`, in a ring of n cells. */
  function Cell(front: nat, i: nat, n: nat): (p: nat)
    requires front < n && i <= n
    ensures p < n
  {
    var x := front + 1 + i;
    if x < n then x else if x < 2 * n then x - n else x - 2 * n
  }

  /** The remainders that the code computes are positions of the ring. */
  lemma RemainderIsCell(front: nat, i: nat, n: nat)
    requires front < n && i <= n
    ensures (front + 1 + i) % n == Cell(front, i, n)
  {
    var x := front + 1 + i;
    Unique(x, n, if x < n then 0 else if x < 2 * n then 1 else 2, Cell(front, i, n));
  }

  lemma Unique(x: nat, n: nat, q: nat, r: nat)
    requires r < n && x == q * n + r
    ensures x % n == r
  {
    W.NoMultipleBetween(x / n - q, n);
  }

  /** One position back, as the code computes it. */
  lemma StepBack(front: nat, i: nat, n: nat)
    requires front < n && 0 < i <= n
    ensures (Cell(front, i, n) + n - 1) % n == Cell(front, i - 1, n)
  {
    var p := Cell(front, i, n);
    Unique(p + n - 1, n, if p == 0 then 0 else 1, if p == 0 then n - 1 else p - 1);
  }

  /** One position forward, as the code computes it. */
  lemma StepForward(front: nat, i: nat, n: nat)
    requires front < n && i < n
    ensures (Cell(front, i, n) + 1) % n == Cell(front, i + 1, n)
  {
    var p := Cell(front, i, n);
    Unique(p + 1, n, if p + 1 == n then 1 else 0, if p + 1 == n then 0 else p + 1);
  }

  ghost function Ring<T>(a: seq<T>, front: nat, count: nat): (s: seq<T>)
    requires count <= |a| && (|a| > 0 ==> front < |a|)
    ensures |s| == count
  {
    seq(count, i requires 0 <= i < count => a[Cell(front, i, |a|)])
  }

  /** While there is room, the two end positions are not the cells of elements. */
  lemma EndsAreFree(front: nat, count: nat, i: nat, n: nat)
    requires front < n && i < count < n
    ensures Cell(front, i, n) != Cell(front, count, n) && Cell(front, i, n) != front
  {}

  lemma RingPushBack<T>(a: seq<T>, front: nat, count: nat, item: T)
    requires count < |a| && front < |a|
    ensures Ring(a[Cell(front, count, |a|) := item], front, count + 1) == Ring(a, front, count) + [item]
  {
    forall i | 0 <= i < count
      ensures a[Cell(front, count, |a|) := item][Cell(front, i, |a|)] == a[Cell(front, i, |a|)]
    {
      EndsAreFree(front, count, i, |a|);
    }
  }

  lemma RingPushFront<T>(a: seq<T>, front: nat, before: nat, count: nat, item: T)
    requires count < |a| && front < |a| && before < |a| && Cell(before, 0, |a|) == front
    ensures Ring(a[front := item], before, count + 1) == [item] + Ring(a, front, count)
  {
    forall i | 0 <= i < count
      ensures a[front := item][Cell(before, i + 1, |a|)] == a[Cell(front, i, |a|)]
    {
      EndsAreFree(front, count, i, |a|);
    }
  }

  lemma RingPopFront<T>(a: seq<T>, front: nat, count: nat)
    requires 0 < count <= |a| && front < |a|
    ensures Ring(a, Cell(front, 0, |a|), count - 1) == Ring(a, front, count)[1..]
    ensures count < |a| ==> Cell(Cell(front, 0, |a|), count - 1, |a|) == Cell(front, count, |a|)
    ensures count == |a| ==> Cell(Cell(front, 0, |a|), count - 1, |a|) == Cell(front, 0, |a|)
  {
    var next := Cell(front, 0, |a|);
    assert forall i :: 0 <= i < count - 1 ==> Cell(next, i, |a|) == Cell(front, i + 1, |a|);
  }

  class BoundedDeque<T(0)> {
    const container: array<T>
    var frontPos: nat
    var backPos: nat
    var count: nat

    ghost predicate Valid()
      reads this
    {
      var n := container.Length;
      && count <= n
      && if n == 0 then frontPos == 0 && backPos == 0
         else frontPos < n && backPos == Cell(frontPos, count, n)
    }

    /** The elements from front to back. */
    ghost function Contents(): (s: seq<T>)
      requires Valid()
      reads this, container
      ensures |s| == count
    {
      Ring(container[..], frontPos, count)
    }

    constructor (capacity: nat)
      ensures Valid() && Contents() == [] && container.Length == capacity && fresh(container)
    {
      container := new T[capacity];
      frontPos := if capacity != 0 then capacity / 2 else 0;
      backPos := if capacity != 0 then (capacity / 2 + 1) % capacity else 0;
      count := 0;
      if capacity != 0 { RemainderIsCell(capacity / 2, 0, capacity); }
    }

    predicate Empty()
      requires Valid()
      reads this, container
      ensures Empty() <==> Contents() == []
    {
      count == 0
    }

    method Front() returns (item: T)
      requires Valid() && Contents() != []
      ensures item == Contents()[0]
    {
      RemainderIsCell(frontPos, 0, container.Length);
      item := container[(frontPos + 1) % container.Length];
    }

    method Back() returns (item: T)
      requires Valid() && Contents() != []
      ensures item == Contents()[|Contents()| - 1]
    {
      StepBack(frontPos, count, container.Length);
      item := container[(backPos + container.Length - 1) % container.Length];
    }

    method PushBack(item: T)
      requires Valid() && |Contents()| < container.Length
      modifies this, container
      ensures Valid() && Contents() == old(Contents()) + [item]
    {
      StepForward(frontPos, count, container.Length);
      RingPushBack(container[..], frontPos, count, item);
      container[backPos] := item;
      count := count + 1;
      backPos := (backPos + 1) % container.Length;
    }

    method PopBack()
      requires Valid() && Contents() != []
      modifies this
      ensures Valid() && Contents() == old(Contents()[..|Contents()| - 1])
    {
      StepBack(frontPos, count, container.Length);
      backPos := (backPos + container.Length - 1) % container.Length;
      count := count - 1;
    }

    method PushFront(item: T)
      requires Valid() && |Contents()| < container.Length
      modifies this, container
      ensures Valid() && Contents() == [item] + old(Contents())
    {
      ghost var before := if frontPos == 0 then container.Length - 1 else frontPos - 1;
      Unique(frontPos + container.Length - 1, container.Length, if frontPos == 0 then 0 else 1, before);
      RingPushFront(container[..], frontPos, before, count, item);
      container[frontPos] := item;
      count := count + 1;
      frontPos := (frontPos + container.Length - 1) % container.Length;
    }

    method PopFront()
      requires Valid() && Contents() != []
      modifies this
      ensures Valid() && Contents() == old(Contents()[1..])
    {
      RemainderIsCell(frontPos, 0, container.Length);
      RingPopFront(container[..], frontPos, count);
      frontPos := (frontPos + 1) % container.Length;
      count := count - 1;
    }
  }
}
