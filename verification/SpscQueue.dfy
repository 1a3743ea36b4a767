/** The queue as one thread at a time uses it: the class, against the bounded FIFO it stands for. */
module SpscQueue {
  import opened Wrappers
  import opened RingArithmetic

  const SIZE_MAX: nat := 0xFFFF_FFFF_FFFF_FFFF
  const CACHE_LINE_SIZE: nat := 64

  datatype HeapError = NotPositive | TooLarge

  datatype Layout = Layout(ring: nat, padding: nat, length: nat)

  function Padding(elementSize: nat): nat
    requires elementSize > 0
  {
    (CACHE_LINE_SIZE - 1) / elementSize + 1
  }

  /** The slots a capacity asks for, in the arithmetic of size_t. */
  function HeapLayout(capacity: nat, elementSize: nat): Result<Layout, HeapError>
    requires capacity <= SIZE_MAX && elementSize > 0
  {
    var ring := (capacity + 1) % (SIZE_MAX + 1);
    var padding := Padding(elementSize);
    if capacity < 1 then Err(NotPositive)
    else if ring > SIZE_MAX - 2 * padding then Err(TooLarge)
    else Ok(Layout(ring, padding, ring + 2 * padding))
  }

  /**
   What the size check lets through. Besides the capacities that fit it accepts SIZE_MAX, whose
   spare slot wraps the ring to no slots at all; for every other accepted capacity there is one
   spare slot and the padded buffer fits size_t.
   */
  lemma LayoutExact(capacity: nat, elementSize: nat)
    requires capacity <= SIZE_MAX && elementSize > 0
    ensures HeapLayout(capacity, elementSize).Ok? <==>
            capacity >= 1 && (capacity + 1 + 2 * Padding(elementSize) <= SIZE_MAX || capacity == SIZE_MAX)
    ensures HeapLayout(capacity, elementSize).Ok? ==>
            var l := HeapLayout(capacity, elementSize).value;
            && l.length == l.ring + 2 * l.padding <= SIZE_MAX
            && (capacity != SIZE_MAX ==> l.ring == capacity + 1)
            && (capacity == SIZE_MAX ==> l.ring == 0)
    ensures HeapLayout(capacity, elementSize) == Err(NotPositive) <==> capacity == 0
    ensures HeapLayout(capacity, elementSize) == Err(TooLarge) <==>
              0 < capacity < SIZE_MAX && capacity + 1 + 2 * Padding(elementSize) > SIZE_MAX
  {
    assert 1 <= Padding(elementSize) <= 64 by { PaddingBounds(elementSize); }
    assert capacity < SIZE_MAX ==> (capacity + 1) % (SIZE_MAX + 1) == capacity + 1;
  }

  /** The fewest elements that fill more than 63 bytes, one short of a cache line. */
  lemma PaddingIsLeast(elementSize: nat)
    requires elementSize > 0
    ensures elementSize * (Padding(elementSize) - 1) <= 63 < elementSize * Padding(elementSize)
  {
    var q, r := 63 / elementSize, 63 % elementSize;
    assert 63 == elementSize * q + r;
    assert elementSize * (q + 1) == elementSize * q + elementSize;
  }

  lemma PaddingBounds(elementSize: nat)
    requires elementSize > 0
    ensures 1 <= Padding(elementSize) <= 64
  {
    var q: int := (CACHE_LINE_SIZE - 1) / elementSize;
    assert elementSize * q <= CACHE_LINE_SIZE - 1;
    if q >= 1 {
      AtLeastOneLap(elementSize, q);
    }
  }

  class SpscQueue<T(0)> {
    // HeapBuffer
    const ring: nat
    const padding: nat
    const buffer: array<T>
    // WriterCacheLine
    var writeIndex: nat
    var readIndexCache: nat
    // ReaderCacheLine
    var readIndex: nat
    var writeIndexCache: nat

    // The unbounded counters behind the four indices.
    ghost var w: nat
    ghost var r: nat
    ghost var rc: nat
    ghost var wc: nat

    ghost predicate Valid()
      reads this, buffer
    {
      && ring > 1 && buffer.Length == ring + 2 * padding
      && rc <= r <= wc <= w <= rc + ring - 1
      && writeIndex == Slot(w, ring) && readIndex == Slot(r, ring)
      && readIndexCache == Slot(rc, ring) && writeIndexCache == Slot(wc, ring)
    }

    /** The elements pushed and not popped, oldest first. */
    ghost function Contents(): (q: seq<T>)
      requires Valid()
      reads this, buffer
      ensures |q| == w - r <= ring - 1
    {
      seq(w - r, j requires 0 <= j reads this, buffer requires Valid() => buffer[padding + Slot(r + j, ring)])
    }

    constructor (layout: Layout)
      requires layout.length == layout.ring + 2 * layout.padding
      ensures ring == layout.ring && padding == layout.padding && fresh(buffer)
      ensures layout.ring > 1 ==> Valid() && Contents() == []
    {
      ring, padding := layout.ring, layout.padding;
      buffer := new T[layout.length];
      writeIndex, readIndexCache, readIndex, writeIndexCache := 0, 0, 0, 0;
      w, r, rc, wc := 0, 0, 0, 0;
    }

    function Capacity(): int {
      ring - 1
    }

    /** The end of both pushes: the slot, then the write index. */
    method WriteAndPublish(index: nat, next: nat, value: T)
      requires Valid() && w < rc + ring - 1
      requires index == writeIndex && next == NextIndex(index, ring)
      modifies this`writeIndex, this`w, buffer
      ensures Valid() && Contents() == old(Contents()) + [value]
    {
      NotYetWritten(r, w, ring);
      buffer[index + padding] := value;
      writeIndex, w := next, w + 1;
      assert Contents() == old(Contents()) + [value];
    }

    /** The end of both pops: the slot, then the read index. */
    method ReadAndPublish(index: nat) returns (value: T)
      requires Valid() && r < wc && index == readIndex
      modifies this`readIndex, this`r
      ensures Valid() && old(Contents()) == [value] + Contents()
    {
      value := buffer[index + padding];
      readIndex, r := NextIndex(index, ring), r + 1;
      assert old(Contents()) == [value] + Contents();
    }

    /** Fails exactly on a full queue and then leaves it alone; otherwise appends. */
    method TryEmplace(value: T) returns (ok: bool)
      requires Valid()
      modifies this`writeIndex, this`readIndexCache, this`w, this`rc, buffer
      ensures Valid()
      ensures ok <==> |old(Contents())| < Capacity()
      ensures Contents() == if ok then old(Contents()) + [value] else old(Contents())
    {
      var index := writeIndex;
      var next := NextIndex(index, ring);
      FullTest(w, rc, ring);
      if next == readIndexCache {
        readIndexCache, rc := readIndex, r;
        FullTest(w, rc, ring);
        if next == readIndexCache {
          return false;
        }
      }
      WriteAndPublish(index, next, value);
      return true;
    }

    /** Fails exactly on an empty queue and then leaves it alone; otherwise removes the oldest. */
    method TryPop() returns (result: Option<T>)
      requires Valid()
      modifies this`readIndex, this`writeIndexCache, this`r, this`wc
      ensures Valid()
      ensures result.None? <==> old(Contents()) == []
      ensures result.None? ==> Contents() == old(Contents())
      ensures result.Some? ==> old(Contents()) == [result.value] + Contents()
    {
      var index := readIndex;
      SameSlotSameCounter(r, wc, ring);
      if index == writeIndexCache {
        writeIndexCache, wc := writeIndex, w;
        SameSlotSameCounter(r, wc, ring);
        if index == writeIndexCache {
          return None;
        }
      }
      var value := ReadAndPublish(index);
      return Some(value);
    }

    /** The spinning push. With no other thread to make room it needs a free slot to return. */
    method Emplace(value: T)
      requires Valid() && |Contents()| < Capacity()
      modifies this`writeIndex, this`readIndexCache, this`w, this`rc, buffer
      ensures Valid() && Contents() == old(Contents()) + [value]
    {
      var index := writeIndex;
      var next := NextIndex(index, ring);
      FullTest(w, rc, ring);
      while next == readIndexCache
        invariant Valid() && Contents() == old(Contents()) && index == Slot(w, ring)
        invariant w == old(w) && r == old(r)
        invariant next == readIndexCache <==> w == rc + ring - 1
        decreases r - rc
      {
        readIndexCache, rc := readIndex, r;
        FullTest(w, rc, ring);
      }
      WriteAndPublish(index, next, value);
    }

    /** The spinning pop. With no other thread to push it needs an element to return. */
    method Pop() returns (value: T)
      requires Valid() && Contents() != []
      modifies this`readIndex, this`writeIndexCache, this`r, this`wc
      ensures Valid() && old(Contents()) == [value] + Contents()
    {
      var index := readIndex;
      SameSlotSameCounter(r, wc, ring);
      while index == writeIndexCache
        invariant Valid() && Contents() == old(Contents()) && index == Slot(r, ring)
        invariant w == old(w) && r == old(r)
        invariant index == writeIndexCache <==> r == wc
        decreases w - wc
      {
        writeIndexCache, wc := writeIndex, w;
        SameSlotSameCounter(r, wc, ring);
      }
      value := ReadAndPublish(index);
    }

    method Size() returns (n: nat)
      requires Valid()
      ensures n == |Contents()|
    {
      DistanceOfCounters(w, r, ring);
      if writeIndex >= readIndex {
        return writeIndex - readIndex;
      }
      return (ring - readIndex) + writeIndex;
    }

    method Empty() returns (empty: bool)
      requires Valid()
      ensures empty <==> Contents() == []
    {
      SameSlotSameCounter(r, w, ring);
      return writeIndex == readIndex;
    }
  }

  /** The constructor's two exceptions, and the queue it builds otherwise. */
  method Create<T(0)>(capacity: nat, elementSize: nat) returns (result: Result<SpscQueue<T>, HeapError>)
    requires capacity <= SIZE_MAX && elementSize > 0
    ensures result.Err? <==> HeapLayout(capacity, elementSize).Err?
    ensures result == Err(NotPositive) <==> capacity == 0
    ensures result == Err(TooLarge) <==>
              0 < capacity < SIZE_MAX && capacity + 1 + 2 * Padding(elementSize) > SIZE_MAX
    ensures result.Ok? ==> fresh(result.value) && fresh(result.value.buffer)
    ensures result.Ok? && capacity != SIZE_MAX ==>
              && result.value.Valid() && result.value.Contents() == []
              && result.value.Capacity() == capacity
    ensures result.Ok? && capacity == SIZE_MAX ==> !result.value.Valid()
  {
    LayoutExact(capacity, elementSize);
    match HeapLayout(capacity, elementSize)
    case Err(e) => return Err(e);
    case Ok(layout) =>
      var queue := new SpscQueue<T>(layout);
      return Ok(queue);
  }
}
