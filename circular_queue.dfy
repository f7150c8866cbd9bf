/** `CircularQueue<T>`: a fixed-capacity FIFO queue stored in an array whose
    length is a power of two, with a start index that wraps around.

    The source reduces indices with `& _mask`, where `_mask = Capacity - 1`;
    because the capacity is a power of two this is the remainder modulo the
    capacity, for negative operands too (two's complement), and the model
    writes it as `%`, which in Dafny is never negative. */
module CircularQueues {
  import opened Errors
  import Int32

  /** The array slot that holds logical position i of a queue whose front
      is at `start` in an array of n slots. */
  function SlotOf(start: int, i: int, n: int): int
    requires n >= 1
  {
    (start + i) % n
  }

  /** `new CircularQueue<T>(sizeLog)` with its failure: a shift count of
      31 (modulo 32) gives `1 << sizeLog == int.MinValue`, and allocating
      an array of negative length throws `OverflowException`. Any other
      count gives an empty queue of capacity 2^(sizeLog mod 32); a count
      of 32 or 0 gives capacity 1. */
  method Create<T(0)>(sizeLog: int) returns (r: Result<CircularQueue<T>>)
    ensures r.Fail? <==> sizeLog % 32 == 31
    ensures r.Fail? ==> r.error == OverflowException
    ensures r.Ok? ==> fresh(r.value) && fresh(r.value.elements) && r.value.Valid()
    ensures r.Ok? ==> r.value.Contents == [] && r.value.Capacity() == Int32.Pow2(sizeLog % 32)
  {
    if sizeLog % 32 == 31 {
      return Fail(OverflowException);
    }
    var q := new CircularQueue<T>(sizeLog);
    r := Ok(q);
  }

  class CircularQueue<T(0)> {
    /** The logical contents, front first. */
    ghost var Contents: seq<T>

    const elements: array<T>
    var start: int
    var length: int

    ghost predicate Valid()
      reads this, elements
    {
      1 <= elements.Length < Int32.Two31 &&
      0 <= start < elements.Length &&
      0 <= length <= elements.Length &&
      |Contents| == length &&
      forall i :: 0 <= i < length ==> Contents[i] == elements[SlotOf(start, i, elements.Length)]
    }

    function Capacity(): (c: int)
      reads this
    {
      elements.Length
    }

    function Length(): (n: int)
      reads this, elements
      requires Valid()
      ensures n == |Contents|
    {
      length
    }

    /** `new CircularQueue<T>(sizeLog)`: an empty queue of capacity
        `1 << sizeLog`. C# takes the shift count modulo 32; a count of 31
        makes the length negative and `new` throw, which `Create` models. */
    constructor (sizeLog: int)
      requires sizeLog % 32 != 31
      ensures Valid() && fresh(elements)
      ensures Contents == [] && Capacity() == Int32.Pow2(sizeLog % 32)
    {
      Int32.Pow2Small(sizeLog % 32);
      elements := new T[Int32.Pow2(sizeLog % 32)];
      start, length := 0, 0;
      Contents := [];
    }

    /** Appends v at the back; a full queue throws and is left unchanged. */
    method Queue(v: T) returns (o: Outcome)
      requires Valid()
      modifies this, elements
      ensures Valid()
      ensures o == if old(length) == elements.Length then Throw(IndexOutOfRangeException) else Pass
      ensures Contents == if o.Pass? then old(Contents) + [v] else old(Contents)
    {
      if length == elements.Length {
        return Throw(IndexOutOfRangeException);
      }
      var n := elements.Length;
      var insertIndex := (start + length) % n;
      forall i | 0 <= i < length
        ensures SlotOf(start, i, n) != insertIndex
      {
        SlotsDistinct(start, i, length, n);
      }
      elements[insertIndex] := v;
      length := length + 1;
      Contents := Contents + [v];
      o := Pass;
    }

    /** Removes and returns the front element. The source does not check for
        an empty queue (its length would go to -1); callers never dequeue
        from an empty one. */
    method Dequeue() returns (v: T)
      requires Valid() && length > 0
      modifies this
      ensures Valid()
      ensures v == old(Contents)[0] && Contents == old(Contents)[1..]
    {
      var n := elements.Length;
      ModOfSmall(start, 0, n);
      v := elements[start];
      ghost var was, oldStart := Contents, start;
      start := (start + 1) % n;
      ModOfSmall(oldStart + 1, if oldStart + 1 < n then 0 else 1, n);
      length := length - 1;
      Contents := Contents[1..];
      forall i | 0 <= i < length
        ensures Contents[i] == elements[SlotOf(start, i, n)]
      {
        assert Contents[i] == was[i + 1];
        SlotAdvance(oldStart, i, n);
      }
    }

    /** Empties the queue; the array keeps its old values. */
    method Clear()
      requires Valid()
      modifies this
      ensures Valid() && Contents == [] && start == old(start)
    {
      length := 0;
      Contents := [];
    }

    /** The indexer's getter. An index at or past the length throws. A negative
        index is not rejected: it reads slot (start + index) modulo the
        capacity, which is the logical element index mod Capacity when that is
        inside the queue and a stale array value otherwise. */
    method Get(index: int) returns (r: Result<T>)
      requires Valid() && Int32.InRange(index)
      ensures index >= length ==> r == Fail(IndexOutOfRangeException)
      ensures 0 <= index < length ==> r == Ok(Contents[index])
      ensures index < length && index % elements.Length < length ==>
        r == Ok(Contents[index % elements.Length])
      ensures index < length ==> r == Ok(elements[SlotOf(start, index, elements.Length)])
    {
      if index >= length {
        return Fail(IndexOutOfRangeException);
      }
      SlotOfAnyIndex(start, index, elements.Length);
      if 0 <= index {
        ModOfSmall(index, 0, elements.Length);
      }
      r := Ok(elements[(start + index) % elements.Length]);
    }

    /** The indexer's setter: the same slot as the getter. Inside the queue
        it replaces exactly one logical element; a negative index whose slot
        lies outside the queue changes no logical element. */
    method Set(index: int, v: T) returns (o: Outcome)
      requires Valid() && Int32.InRange(index)
      modifies this, elements
      ensures Valid() && length == old(length) && start == old(start)
      ensures o == if index >= length then Throw(IndexOutOfRangeException) else Pass
      ensures o.Pass? && index % elements.Length < length ==>
        Contents == old(Contents)[index % elements.Length := v]
      ensures o.Throw? || index % elements.Length >= length ==> Contents == old(Contents)
    {
      if index >= length {
        return Throw(IndexOutOfRangeException);
      }
      var n := elements.Length;
      var slot := (start + index) % n;
      var j := index % n;
      SlotOfAnyIndex(start, index, n);
      assert slot == SlotOf(start, j, n);
      forall i | 0 <= i < length && i != j
        ensures SlotOf(start, i, n) != slot
      {
        SlotsDistinct(start, i, j, n);
      }
      elements[slot] := v;
      if j < length {
        Contents := Contents[j := v];
      }
      o := Pass;
    }

    /** The enumerator: this[0], ..., this[Length - 1] in order. */
    method Elements() returns (s: seq<T>)
      requires Valid()
      ensures s == Contents
    {
      s := [];
      var i := 0;
      while i < length
        invariant 0 <= i <= length
        invariant s == Contents[..i]
      {
        var r := Get(i);
        s := s + [r.value];
        i := i + 1;
      }
    }
  }

  /** Division with remainder has a unique answer: if a == q * n + r with
      0 <= r < n then r is a % n. */
  lemma ModUnique(a: int, q: int, r: int, n: int)
    requires n >= 1 && 0 <= r < n && a == q * n + r
    ensures a % n == r
  {
    var q0, r0 := a / n, a % n;
    assert a == q0 * n + r0;
    assert (q - q0) * n == r0 - r;
    MulBound(q - q0, n);
  }

  /** A non-zero multiple of n is at least n away from zero. */
  lemma MulBound(d: int, n: int)
    requires n >= 1
    ensures d >= 1 ==> d * n >= n
    ensures d <= -1 ==> d * n <= -n
  {
  }

  /** For 0 <= k - q * n < n, k % n is k - q * n. */
  lemma ModOfSmall(k: int, q: int, n: int)
    requires n >= 1 && 0 <= k - q * n < n
    ensures k % n == k - q * n
  {
    ModUnique(k, q, k - q * n, n);
  }

  /** After the front moves one slot on, logical position i sits where
      position i + 1 sat before. */
  lemma SlotAdvance(start: int, i: int, n: int)
    requires n >= 1 && 0 <= start < n && 0 <= i
    ensures SlotOf((start + 1) % n, i, n) == SlotOf(start, i + 1, n)
  {
    var q := (start + i + 1) / n;
    var r := (start + i + 1) % n;
    assert start + i + 1 == q * n + r;
    if start + 1 < n {
      ModOfSmall(start + 1, 0, n);
    } else {
      ModOfSmall(start + 1, 1, n);
      ModUnique(i, q - 1, r, n);
    }
  }

  /** Any index, negative ones included, names the slot of logical position
      index mod n. */
  lemma SlotOfAnyIndex(start: int, index: int, n: int)
    requires n >= 1
    ensures SlotOf(start, index, n) == SlotOf(start, index % n, n)
  {
    var q, j := index / n, index % n;
    assert index == q * n + j;
    var q2, r2 := (start + j) / n, (start + j) % n;
    assert start + j == q2 * n + r2;
    ModUnique(start + index, q + q2, r2, n);
  }

  /** Distinct logical positions below n occupy distinct slots. */
  lemma SlotsDistinct(start: int, i: int, j: int, n: int)
    requires n >= 1 && 0 <= i < n && 0 <= j < n && i != j
    ensures SlotOf(start, i, n) != SlotOf(start, j, n)
  {
    var qi, qj := (start + i) / n, (start + j) / n;
    var ri, rj := (start + i) % n, (start + j) % n;
    assert start + i == qi * n + ri;
    assert start + j == qj * n + rj;
    if ri == rj {
      assert i == (qi - qj) * n + j;
      ModUnique(i, qi - qj, j, n);
      ModUnique(i, 0, i, n);
    }
  }

  /** The unit test's scenario: a queue of capacity 16 takes 0 .. 15, its
      length growing by one each time, refuses a seventeenth element, and
      after eight rounds of dequeue-then-queue, in which it dequeues 0 .. 7
      and stays full, holds 8 .. 23. */
  method QueueingScenario() returns (filling: seq<int>, refused: Outcome, dequeued: seq<int>, full: seq<int>, all: seq<int>)
    ensures filling == seq(16, k => k + 1)
    ensures refused == Throw(IndexOutOfRangeException)
    ensures dequeued == seq(8, k => k) && full == seq(8, k => 16)
    ensures all == seq(16, k => k + 8)
  {
    var q := new CircularQueue<int>(4);
    assert q.Capacity() == 16;
    filling := [];
    var i := 0;
    while i < 16
      invariant 0 <= i <= 16 && q.Valid() && q.Capacity() == 16
      invariant |q.Contents| == i && forall k :: 0 <= k < i ==> q.Contents[k] == k
      invariant filling == seq(i, k => k + 1)
    {
      var o := q.Queue(i);
      filling := filling + [q.Length()];
      i := i + 1;
    }
    refused := q.Queue(10);
    dequeued, full := [], [];
    i := 0;
    while i < 8
      invariant 0 <= i <= 8 && q.Valid() && q.Capacity() == 16
      invariant |q.Contents| == 16 && forall k :: 0 <= k < 16 ==> q.Contents[k] == k + i
      invariant dequeued == seq(i, k => k) && full == seq(i, k => 16)
    {
      var v := q.Dequeue();
      var o := q.Queue(i + 16);
      dequeued, full := dequeued + [v], full + [q.Length()];
      i := i + 1;
    }
    all := q.Elements();
  }
}
