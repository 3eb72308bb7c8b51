/** The growing ring buffer that queues client values (carray.c). */
module CArrays {
  import opened PaxosTypes

  /** The remainder by `size` of an index that has wrapped at most once. */
  function Index(x: nat, size: nat): (i: nat)
    requires 0 < size && x < 2 * size
    ensures i < size
  {
    if x < size then x else x - size
  }

  lemma IndexIsRemainder(x: nat, size: nat)
    requires 0 < size && x < 2 * size
    ensures Index(x, size) == x % size
  {
    if x >= size {
      assert x == size * 1 + (x - size);
    }
  }

  /** What a ring buffer holds, oldest first. */
  function Queue<T>(buffer: seq<T>, head: nat, count: nat): (q: seq<T>)
    requires head < |buffer| && count <= |buffer|
    ensures |q| == count
    ensures forall i :: 0 <= i < count ==> q[i] == buffer[Index(head + i, |buffer|)]
  {
    seq(count, i requires 0 <= i < count => buffer[Index(head + i, |buffer|)])
  }

  lemma Pushed<T>(buffer: seq<T>, head: nat, count: nat, x: T)
    requires head < |buffer| && count < |buffer|
    ensures Queue(buffer[Index(head + count, |buffer|) := x], head, count + 1) == Queue(buffer, head, count) + [x]
  {
  }

  lemma Popped<T>(buffer: seq<T>, head: nat, count: nat)
    requires head < |buffer| && 0 < count <= |buffer|
    ensures Queue(buffer, Index(head + 1, |buffer|), count - 1) == Queue(buffer, head, count)[1..]
  {
  }

  class CArray<T(0)> {
    var head: nat
    var tail: nat
    var size: nat
    var count: nat
    var buffer: array<T>
    ghost var Repr: set<object>

    ghost predicate Valid()
      reads this, Repr
      ensures Valid() ==> this in Repr
    {
      && this in Repr && buffer in Repr
      && 0 < size == buffer.Length
      && head < size && count <= size
      && tail == Index(head + count, size)
    }

    ghost function Contents(): (s: seq<T>)
      requires Valid()
      reads this, Repr
    {
      Queue(buffer[..], head, count)
    }

    constructor (initialSize: nat)
      requires initialSize > 0
      ensures Valid() && fresh(Repr) && Contents() == [] && size == initialSize && head == 0
    {
      head, tail, size, count := 0, 0, initialSize, 0;
      buffer := new T[initialSize];
      new;
      Repr := {this, buffer};
    }

    method At(i: nat) returns (x: T)
      requires Valid() && i < count
      ensures x == Contents()[i]
    {
      x := buffer[Index(head + i, size)];
    }

    method PushBack(x: T)
      requires Valid()
      modifies Repr
      ensures Valid() && fresh(Repr - old(Repr))
      ensures Contents() == old(Contents()) + [x]
      ensures old(count) < old(size) ==> size == old(size) && head == old(head) && Repr == old(Repr)
      ensures old(count) == old(size) ==> size == 2 * old(size) && head == 0
      decreases if count == size then 2 else 0
    {
      if count == size {
        Grow();
      }
      ghost var b := buffer[..];
      Pushed(b, head, count, x);
      buffer[tail] := x;
      assert buffer[..] == b[tail := x];
      tail := Index(tail + 1, size);
      count := count + 1;
    }

    /** Empty gives `None`, the null pointer of the source. */
    method PopFront() returns (x: Option<T>)
      requires Valid()
      modifies this
      ensures Valid() && Repr == old(Repr)
      ensures old(Contents()) == [] ==> x == None && Contents() == []
      ensures old(Contents()) != [] ==> x == Some(old(Contents())[0]) && Contents() == old(Contents())[1..]
    {
      if count == 0 {
        return None;
      }
      Popped(buffer[..], head, count);
      x := Some(buffer[head]);
      head := Index(head + 1, size);
      count := count - 1;
    }

    /** Doubles the buffer by pushing everything into a new one. */
    method Grow()
      requires Valid() && count == size
      modifies Repr
      ensures Valid() && fresh(Repr - old(Repr))
      ensures Contents() == old(Contents()) && size == 2 * old(size) && count == old(count) && head == 0
      decreases 1
    {
      ghost var before := Contents();
      var tmp := new CArray<T>(2 * size);
      ghost var tmpRepr := tmp.Repr;
      var i := 0;
      while i < count
        invariant 0 <= i <= count
        invariant tmp.Valid() && tmp.Repr == tmpRepr && tmp.size == 2 * size && tmp.head == 0
        invariant tmp.Contents() == before[..i]
        modifies tmpRepr
      {
        var x := At(i);
        assert before[..i + 1] == before[..i] + [x];
        tmp.PushBack(x);
        i := i + 1;
      }
      assert tmp.Contents() == before;
      hide Queue;
      head, tail, size, buffer := 0, tmp.tail, tmp.size, tmp.buffer;
      Repr := {this, buffer};
    }
  }
}
