/** Arithmetic of a ring of n slots addressed by unbounded counters. */
module RingArithmetic {

  /** The successor of an index, computed by comparison as the queue does it. */
  function NextIndex(index: nat, n: nat): nat
    requires n > 0
  {
    if index == n - 1 then 0 else index + 1
  }

  /** Number of elements between a read index and a write index, without a signed type. */
  function Distance(n: nat, writeIndex: nat, readIndex: nat): nat
    requires readIndex <= n
  {
    if writeIndex >= readIndex then writeIndex - readIndex else (n - readIndex) + writeIndex
  }

  /** The index an unbounded counter has reached, stepping from 0. */
  function Slot(counter: nat, n: nat): (index: nat)
    requires n > 0
    ensures index < n
  {
    if counter == 0 then 0 else NextIndex(Slot(counter - 1, n), n)
  }

  lemma {:induction false} LapEarlier(counter: nat, n: nat)
    requires n > 0
    ensures counter < n ==> Slot(counter, n) == counter
    ensures Slot(counter + n, n) == Slot(counter, n)
    decreases counter, 1
  {
    if counter == 0 {
      FirstLap(n - 1, n);
    } else {
      LapEarlier(counter - 1, n);
    }
  }

  lemma {:induction false} FirstLap(counter: nat, n: nat)
    requires counter < n
    ensures Slot(counter, n) == counter
  {
    if counter > 0 {
      FirstLap(counter - 1, n);
    }
  }

  lemma AtLeastOneLap(laps: int, n: nat)
    requires laps >= 1
    ensures laps * n >= n
  {
    assert laps * n == (laps - 1) * n + n;
  }

  lemma RemainderUnique(q: int, r: nat, q': int, r': nat, n: nat)
    requires r < n && r' < n && q * n + r == q' * n + r'
    ensures r == r'
  {
    if q < q' {
      assert (q' - q) * n == q' * n - q * n;
      AtLeastOneLap(q' - q, n);
    } else if q' < q {
      assert (q - q') * n == q * n - q' * n;
      AtLeastOneLap(q - q', n);
    }
  }

  lemma RemainderOf(counter: int, q: int, r: nat, n: nat)
    requires r < n && counter == q * n + r
    ensures counter % n == r
  {
    RemainderUnique(q, r, counter / n, counter % n, n);
  }

  lemma NextRemainder(counter: nat, n: nat)
    requires n > 0
    ensures (counter + 1) % n == NextIndex(counter % n, n)
  {
    var q, r := counter / n, counter % n;
    if r == n - 1 {
      assert (q + 1) * n == q * n + n;
      RemainderOf(counter + 1, q + 1, 0, n);
    } else {
      RemainderOf(counter + 1, q, r + 1, n);
    }
  }

  /** Stepping by comparison is counting modulo the size of the ring. */
  lemma {:induction false} SlotIsModulo(counter: nat, n: nat)
    requires n > 0
    ensures Slot(counter, n) == counter % n
  {
    if counter > 0 {
      SlotIsModulo(counter - 1, n);
      NextRemainder(counter - 1, n);
    }
  }

  /** Two different counters share a slot only when they are at least a whole lap apart. */
  lemma {:induction false} SameSlotLapApart(a: nat, b: nat, n: nat)
    requires n > 0 && a < b && Slot(a, n) == Slot(b, n)
    ensures a + n <= b
  {
    if b < n {
      FirstLap(a, n);
      FirstLap(b, n);
    } else if a >= n {
      LapEarlier(a - n, n);
      LapEarlier(b - n, n);
      SameSlotLapApart(a - n, b - n, n);
    } else {
      LapEarlier(b - n, n);
      if a > b - n {
        SameSlotLapApart(b - n, a, n);
      }
    }
  }

  /** For counters less than a lap apart, equal slots mean equal counters. */
  lemma SameSlotSameCounter(a: nat, b: nat, n: nat)
    requires n > 0 && a <= b < a + n
    ensures Slot(a, n) == Slot(b, n) <==> a == b
  {
    if a != b && Slot(a, n) == Slot(b, n) {
      SameSlotLapApart(a, b, n);
    }
  }

  /** The slot about to be written holds none of the elements not yet read. */
  lemma NotYetWritten(read: nat, write: nat, n: nat)
    requires n > 0 && read <= write < read + n
    ensures forall counter :: read <= counter < write ==> Slot(counter, n) != Slot(write, n)
  {
    forall counter | read <= counter < write ensures Slot(counter, n) != Slot(write, n) {
      SameSlotSameCounter(counter, write, n);
    }
  }

  /** "Full" as the code tests it, against a cached or loaded read counter. */
  lemma FullTest(w: nat, rc: nat, ring: nat)
    requires ring > 1 && rc <= w < rc + ring
    ensures NextIndex(Slot(w, ring), ring) == Slot(rc, ring) <==> w == rc + ring - 1
  {
    if w + 1 == rc + ring {
      LapEarlier(rc, ring);
    } else {
      SameSlotSameCounter(rc, w + 1, ring);
    }
  }

  /** The comparison-based distance is the distance of the counters when they are within a lap. */
  lemma {:induction false} DistanceOfCounters(w: nat, r: nat, n: nat)
    requires n > 0 && r <= w < r + n
    ensures Distance(n, Slot(w, n), Slot(r, n)) == w - r
  {
    if w > r {
      DistanceOfCounters(w - 1, r, n);
      SameSlotSameCounter(r, w, n);
    }
  }

  lemma QuotientsDiffer(w: nat, r: nat, n: nat)
    requires n > 0
    ensures w - r == (w / n - r / n) * n + (w % n - r % n)
  {
    var q, q' := w / n, r / n;
    assert w == q * n + w % n && r == q' * n + r % n;
    assert (q - q') * n == q * n - q' * n;
  }

  lemma RemaindersDiffer(w: nat, r: nat, n: nat)
    requires n > 0
    ensures (w - r) % n == if w % n >= r % n then w % n - r % n else (n - r % n) + w % n
  {
    var q, d := w / n - r / n, w % n - r % n;
    QuotientsDiffer(w, r, n);
    if d >= 0 {
      RemainderOf(w - r, q, d, n);
    } else {
      assert (q - 1) * n + (d + n) == q * n + d;
      RemainderOf(w - r, q - 1, d + n, n);
    }
  }

  /** For any two counters, however far apart, it is their difference modulo the ring. */
  lemma DistanceIsModulo(w: nat, r: nat, n: nat)
    requires n > 0
    ensures Distance(n, Slot(w, n), Slot(r, n)) == (w - r) % n
  {
    hide Slot;
    SlotIsModulo(w, n);
    SlotIsModulo(r, n);
    RemaindersDiffer(w, r, n);
  }

  /** A number within a lap is the remainder of another exactly when they differ by whole laps. */
  lemma RemainderIs(a: nat, b: int, n: nat)
    requires a < n
    ensures b % n == a <==> (a - b) % n == 0
  {
    if b % n == a {
      assert a - b == (-(b / n)) * n + 0;
      RemainderOf(a - b, -(b / n), 0, n);
    }
    if (a - b) % n == 0 {
      var q := (a - b) / n;
      assert b == (-q) * n + a;
      RemainderOf(b, -q, a, n);
    }
  }

  /** A write index against another lap's read index shows a length exactly when laps are whole. */
  lemma LengthIff(w: nat, r: nat, w': nat, r': nat, n: nat)
    requires n > 0 && r <= w < r + n && r' <= w' < r' + n
    ensures Distance(n, Slot(w, n), Slot(r', n)) == (w - r') % n
    ensures (w - r') % n == w - r <==> (r' - r) % n == 0
    ensures (w - r') % n == w' - r' <==> (w' - w) % n == 0
    ensures r' <= w && w < r' + n ==> (w - r') % n == w - r'
  {
    hide Slot, Distance;
    DistanceIsModulo(w, r', n);
    RemainderIs(w - r, w - r', n);
    RemainderIs(w' - r', w - r', n);
    if r' <= w < r' + n { RemainderOf(w - r', 0, w - r', n); }
  }
}
