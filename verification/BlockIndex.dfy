/**
 The arithmetic of a block index: a ring of entries, one for each block of elements, in which the entry
 of an element is found from two wrapped 64-bit indices and the place of the newest entry.
 */
module BlockIndex {
  import Tickets

  const BLOCK_SIZE: nat := 32

  /** A key that is no multiple of the block size: the entry was never used. */
  const INVALID: nat := 1

  function Pow2(n: nat): (p: nat)
    ensures p > 0
  {
    if n == 0 then 1 else 2 * Pow2(n - 1)
  }

  // ---------------------------------------------------------------- the lookup arithmetic

  /** The wrapped first index of block c. */
  function Base(c: nat): nat {
    Tickets.Wrap(BLOCK_SIZE * c)
  }

  function DivideTowardsZero(a: int, b: nat): int
    requires b > 0
  {
    if a >= 0 then a / b else -(-a / b)
  }

  function AsSigned(x: nat): int {
    if x < Tickets.RANGE / 2 then x else x - Tickets.RANGE
  }

  function Offset(index: nat, tailBase: nat): int {
    var start := index - index % BLOCK_SIZE;
    DivideTowardsZero(AsSigned(Tickets.Wrap(start - tailBase)), BLOCK_SIZE)
  }

  /** get_block_index_index_for_index, on wrapped values; masks are remainders. */
  function Lookup(index: nat, tail: nat, tailBase: nat, capacity: nat): (idx: nat)
    requires capacity > 0
    ensures idx < capacity
  {
    Tickets.Wrap(tail + Tickets.Wrap(Offset(index, tailBase))) % capacity
  }

  /** Where the ring of a header keeps block c. */
  function Position(c: int, off: int, capacity: nat): nat
    requires capacity > 0
  {
    (c + off) % capacity
  }

  lemma {:induction false} PowSplit(a: nat, b: nat)
    ensures Pow2(a + b) == Pow2(a) * Pow2(b)
  {
    if a > 0 {
      PowSplit(a - 1, b);
      assert Pow2(a + b) == 2 * (Pow2(a - 1) * Pow2(b));
      assert 2 * (Pow2(a - 1) * Pow2(b)) == (2 * Pow2(a - 1)) * Pow2(b);
    }
  }

  lemma {:induction false} AtLeastOnce(z: int, m: nat)
    requires z >= 1
    ensures z * m >= m
    decreases z
  {
    if z > 1 {
      AtLeastOnce(z - 1, m);
      assert z * m == (z - 1) * m + m;
    }
  }

  lemma Distribute(a: int, b: int, m: int)
    ensures (a - b) * m == a * m - b * m && (a + b) * m == a * m + b * m
  {
  }

  /** The only multiple of m strictly between -m and m is zero. */
  lemma SmallMultiple(z: int, m: nat)
    requires -(m as int) < z * m < m
    ensures z == 0
  {
    if z >= 1 {
      AtLeastOnce(z, m);
    } else if z <= -1 {
      AtLeastOnce(-z, m);
      Distribute(0, z, m);
    }
  }

  lemma DivModUnique(x: int, m: nat, q: int, r: nat)
    requires m > 0 && r < m && x == q * m + r
    ensures x % m == r && x / m == q
  {
    var q', r' := x / m, x % m;
    assert x == q' * m + r' by {
      DivMod(x, m);
    }
    Distribute(q', q, m);
    SmallMultiple(q' - q, m);
  }

  lemma DivMod(x: int, m: nat)
    requires m > 0
    ensures x == (x / m) * m + x % m && 0 <= x % m < m
  {
  }

  lemma ModShift(x: int, m: nat, k: int)
    requires m > 0
    ensures (x + k * m) % m == x % m
  {
    DivMod(x, m);
    Distribute(x / m, k, m);
    DivModUnique(x + k * m, m, x / m + k, x % m);
  }

  lemma RangeIsPower()
    ensures Pow2(64) == Tickets.RANGE
  {
    assert Pow2(8) == 0x100;
    PowSplit(8, 8);
    PowSplit(16, 16);
    PowSplit(32, 32);
  }

  lemma CapacityDividesRange(k: nat)
    requires k <= 64
    ensures Tickets.RANGE == Pow2(64 - k) * Pow2(k)
  {
    PowSplit(64 - k, k);
    RangeIsPower();
  }

  /** A wrapped index, rounded down to its block. */
  lemma StartOfBlock(i: nat)
    ensures Tickets.Wrap(i) - Tickets.Wrap(i) % BLOCK_SIZE == Base(i / BLOCK_SIZE)
  {
    var b, r := i / BLOCK_SIZE, i % BLOCK_SIZE;
    var q, w := BLOCK_SIZE * b / Tickets.RANGE, Base(b);
    assert BLOCK_SIZE * b == q * Tickets.RANGE + w;
    assert w % BLOCK_SIZE == 0;
    assert w + r < Tickets.RANGE;
    DivModUnique(i, Tickets.RANGE, q, w + r);
  }

  /** The distance from the tail's block back to an earlier block, recovered from two wrapped keys. */
  lemma OffsetOfBlock(i: nat, last: nat)
    requires i / BLOCK_SIZE <= last && BLOCK_SIZE * (last - i / BLOCK_SIZE) <= Tickets.RANGE / 2
    ensures Offset(Tickets.Wrap(i), Base(last)) == i / BLOCK_SIZE - last
  {
    StartOfBlock(i);
    KeyDistance(i / BLOCK_SIZE, last);
  }

  lemma KeyDistance(b: nat, last: nat)
    requires b <= last && BLOCK_SIZE * (last - b) <= Tickets.RANGE / 2
    ensures DivideTowardsZero(AsSigned(Tickets.Wrap(Base(b) - Base(last))), BLOCK_SIZE) == b - last
  {
    var d := BLOCK_SIZE * (last - b);
    Tickets.WrapDifference(BLOCK_SIZE * b, BLOCK_SIZE * last);
    assert BLOCK_SIZE * b - BLOCK_SIZE * last == -d;
    if d > 0 {
      DivModUnique(-d, Tickets.RANGE, -1, Tickets.RANGE - d);
    }
  }

  /** From a position in the ring, back by d. */
  lemma StepBack(t: nat, d: nat, x: int, capacity: nat, k: nat)
    requires k <= 63 && capacity == Pow2(k) && d < capacity && t == x % capacity
    ensures Tickets.Wrap(t + Tickets.Wrap(0 - d)) % capacity == (x - d) % capacity
  {
    CapacityFits(k);
    DivMod(x, capacity);
    ModShift(t - d, capacity, x / capacity);
    if d > 0 {
      DivModUnique(0 - d, Tickets.RANGE, -1, Tickets.RANGE - d);
    }
    if t < d {
      CapacityDividesRange(k);
      ModShift(t - d, capacity, Pow2(64 - k));
    }
    WrapBack(t, d, capacity);
  }

  lemma WrapBack(t: nat, d: nat, capacity: nat)
    requires t < capacity <= Tickets.RANGE / 2 && d < capacity
    requires Tickets.Wrap(0 - d) == if d > 0 then Tickets.RANGE - d else 0
    ensures Tickets.Wrap(t + Tickets.Wrap(0 - d)) == if t >= d then t - d else t - d + Tickets.RANGE
  {
  }

  lemma CapacityFits(k: nat)
    requires k <= 63
    ensures Pow2(k) <= Tickets.RANGE / 2
  {
    CapacityDividesRange(k);
    AtLeastOnce(Pow2(63 - k), Pow2(k));
    Double(Pow2(63 - k), Pow2(k));
  }

  lemma Double(a: nat, b: nat)
    ensures (2 * a) * b == 2 * (a * b)
  {
  }

  /** The lookup is exact for every block that is less than one ring length behind the tail. */
  lemma LookupHits(i: nat, last: nat, off: int, tail: nat, capacity: nat, k: nat)
    requires k <= 58 && capacity == Pow2(k) && tail == Position(last, off, capacity)
    requires i / BLOCK_SIZE <= last < i / BLOCK_SIZE + capacity
    ensures Lookup(Tickets.Wrap(i), tail, Base(last), capacity) == Position(i / BLOCK_SIZE, off, capacity)
  {
    var d := last - i / BLOCK_SIZE;
    CapacityIsSmall(k);
    OffsetOfBlock(i, last);
    StepBack(tail, d, last + off, capacity, k);
  }

  lemma CapacityIsSmall(k: nat)
    requires k <= 58
    ensures BLOCK_SIZE * Pow2(k) <= Tickets.RANGE / 2
  {
    CapacityFits(k + 5);
    PowSplit(5, k);
    assert Pow2(5) == BLOCK_SIZE;
  }

  /** Blocks less than one ring length apart have different places. */
  lemma PositionsDiffer(c: int, d: int, off: int, capacity: nat)
    requires capacity > 0 && c < d < c + capacity
    ensures Position(c, off, capacity) != Position(d, off, capacity)
  {
    if Position(c, off, capacity) == Position(d, off, capacity) {
      var p, q := (c + off) / capacity, (d + off) / capacity;
      DivMod(c + off, capacity);
      DivMod(d + off, capacity);
      Distribute(q, p, capacity);
      SmallMultiple(q - p, capacity);
      assert false;
    }
  }

  lemma NextPosition(c: int, off: int, capacity: nat)
    requires capacity > 1
    ensures (Position(c, off, capacity) + 1) % capacity == Position(c + 1, off, capacity)
    ensures (Position(c, off, capacity) - 1) % capacity == Position(c - 1, off, capacity)
  {
    var x := c + off;
    var q := x / capacity;
    DivMod(x, capacity);
    ModShift(x % capacity + 1, capacity, q);
    ModShift(x % capacity - 1, capacity, q);
  }
}
