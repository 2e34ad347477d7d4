/** One block of a hive as an object: its skipfield and its cells are arrays edited in place. */
module HiveGroup {
  import opened HiveBlock

  class Group<T> {
    const capacity: nat
    const skipfield: array<nat>
    const elements: array<Cell<T>>
    var freeListHead: nat
    var size: nat

    /** How many cells have ever been used, and the starts of the erased runs as the free list has them. */
    ghost var used: nat
    ghost var runs: seq<nat>

    ghost predicate Sound()
      reads this, skipfield, elements
    {
      && elements.Length == capacity <= NPOS
      && BlockOk(skipfield[..], elements[..], used, freeListHead, runs)
    }

    ghost predicate Valid()
      reads this, skipfield, elements
    {
      Sound() && size == |Contents()|
    }

    ghost function Contents(): map<nat, T>
      requires Sound()
      reads this, skipfield, elements
    {
      Elements(skipfield[..], elements[..], used)
    }

    /** A fresh block whose first cell holds the given element. */
    constructor (capacity: nat, x: T)
      requires 1 <= capacity <= NPOS
      ensures Valid() && fresh(skipfield) && fresh(elements) && this.capacity == capacity
      ensures used == 1 && runs == [] && Contents() == map[0 := x]
    {
      this.capacity := capacity;
      skipfield := new nat[capacity + 1](_ => 0);
      elements := new Cell<T>[capacity](_ => Stale);
      freeListHead, size := NPOS, 1;
      used, runs := 1, [];
      new;
      elements[0] := Live(x);
      assert Contents() == map[0 := x];
    }

    // ---------------------------------------------------------------- free-list edits in the cells

    method EditFreeListNext(p: nat, next: nat)
      requires p < elements.Length && elements[p].Erased?
      modifies elements
      ensures elements[..] == old(elements[..])[p := old(elements[p]).(next := next)]
    {
      elements[p] := elements[p].(next := next);
    }

    method EditFreeListPrev(p: nat, prev: nat)
      requires p < elements.Length && elements[p].Erased?
      modifies elements
      ensures elements[..] == old(elements[..])[p := old(elements[p]).(prev := prev)]
    {
      elements[p] := elements[p].(prev := prev);
    }

    /** Puts cell i into the list between two runs. */
    method Relink(i: nat, prev: nat, next: nat)
      requires i < elements.Length <= NPOS
      requires Neighbour(elements[..], prev, i) && Neighbour(elements[..], next, i) && (prev == next ==> prev == NPOS)
      modifies elements
      ensures elements[..] == Relinked(old(elements[..]), prev, next, i)
    {
      elements[i] := Erased(prev, next);
      if prev != NPOS { EditFreeListNext(prev, i); }
      if next != NPOS { EditFreeListPrev(next, i); }
    }

    /** Links two runs to each other, past the one that was between them. */
    method Unlink(prev: nat, next: nat)
      requires elements.Length <= NPOS && (prev == next ==> prev == NPOS)
      requires prev == NPOS || (prev < elements.Length && elements[prev].Erased?)
      requires next == NPOS || (next < elements.Length && elements[next].Erased?)
      modifies elements
      ensures elements[..] == Unlinked(old(elements[..]), prev, next)
    {
      if prev != NPOS { EditFreeListNext(prev, next); }
      if next != NPOS { EditFreeListPrev(next, prev); }
    }

    // ---------------------------------------------------------------- erasing

    ghost predicate Ready(i: nat)
      reads this, skipfield, elements
    {
      && elements.Length == capacity <= NPOS
      && BlockOk(skipfield[..], elements[..], used, freeListHead, runs)
      && i < used && skipfield[i] == 0
    }

    /** No erased neighbour: a new run of one cell joins the free list as its head. */
    method EraseAlone(i: nat)
      requires Ready(i) && (i == 0 || skipfield[i - 1] == 0) && skipfield[i + 1] == 0
      modifies skipfield, elements, this`freeListHead, this`runs
      ensures Sound() && Contents() == old(Contents()) - {i}
    {
      ghost var skip, cells := skipfield[..], elements[..];
      HiveBlock.EraseSolo(skip, cells, used, freeListHead, runs, i);
      skipfield[i] := 1;
      if freeListHead != NPOS { EditFreeListNext(freeListHead, i); }
      elements[i] := Erased(freeListHead, NPOS);
      assert skipfield[..] == SoloSkip(skip, i);
      assert elements[..] == WithNext(cells, freeListHead, i)[i := Erased(freeListHead, NPOS)];
      freeListHead, runs := i, runs + [i];
    }

    /** An erased run on the left grows by this cell. */
    method EraseAfterRun(i: nat)
      requires Ready(i) && i > 0 && skipfield[i - 1] != 0 && skipfield[i + 1] == 0
      modifies skipfield
      ensures Sound() && Contents() == old(Contents()) - {i}
    {
      ghost var skip := skipfield[..];
      HiveBlock.EraseLeft(skip, elements[..], used, freeListHead, runs, i);
      var length := skipfield[i - 1] + 1;
      skipfield[i - (length - 1)] := length;
      skipfield[i] := length;
      assert skipfield[..] == LeftSkip(skip, i);
    }

    /** An erased run on the right now starts at this cell, which takes over its place in the free list. */
    method EraseBeforeRun(i: nat) returns (length: nat)
      requires Ready(i) && (i == 0 || skipfield[i - 1] == 0) && skipfield[i + 1] != 0
      modifies skipfield, elements, this`freeListHead, this`runs
      ensures Sound() && Contents() == old(Contents()) - {i}
      ensures length == old(skipfield[i + 1]) + 1
    {
      ghost var skip, cells := skipfield[..], elements[..];
      assert IsStart(skip, i + 1);
      ghost var j: nat :| j < |runs| && runs[j] == i + 1;
      assert LinkOk(cells, runs, j);
      HiveBlock.EraseRight(skip, cells, used, freeListHead, runs, i, j);
      Neighbours(cells, runs, freeListHead, j);
      length := skipfield[i + 1] + 1;
      skipfield[i + length - 1] := length;
      skipfield[i] := length;
      var prev, next := elements[i + 1].prev, elements[i + 1].next;
      Relink(i, prev, next);
      assert skipfield[..] == RightSkip(skip, i);
      freeListHead, runs := if next == NPOS then i else freeListHead, runs[j := i];
    }

    /** The skipfield of two runs that join around cell i. */
    method JoinRuns(i: nat) returns (length: nat)
      requires 0 < i && i + 1 < skipfield.Length && skipfield[i - 1] <= i
      requires i + 1 + skipfield[i + 1] <= skipfield.Length
      requires skipfield[i - 1] > 0
      modifies skipfield
      ensures skipfield[..] == BothSkip(old(skipfield[..]), i) && length == old(skipfield[i + 1]) + 1
    {
      ghost var skip := skipfield[..];
      skipfield[i] := 1;
      var preceding := skipfield[i - 1];
      length := skipfield[i + 1] + 1;
      skipfield[i + length - 1] := preceding + length;
      skipfield[i - preceding] := preceding + length;
      assert skipfield[..] == BothSkip(skip, i);
    }

    /** Erased runs on both sides join, and the right one leaves the free list. */
    method EraseBetweenRuns(i: nat) returns (length: nat)
      requires Ready(i) && i > 0 && skipfield[i - 1] != 0 && skipfield[i + 1] != 0
      modifies skipfield, elements, this`freeListHead, this`runs
      ensures Sound() && Contents() == old(Contents()) - {i}
      ensures length == old(skipfield[i + 1]) + 1
    {
      ghost var skip, cells := skipfield[..], elements[..];
      assert IsStart(skip, i + 1);
      ghost var j: nat :| j < |runs| && runs[j] == i + 1;
      assert LinkOk(cells, runs, j);
      HiveBlock.EraseBoth(skip, cells, used, freeListHead, runs, i, j);
      Neighbours(cells, runs, freeListHead, j);
      length := JoinRuns(i);
      var prev, next := elements[i + 1].prev, elements[i + 1].next;
      Unlink(prev, next);
      freeListHead, runs := if next == NPOS then prev else freeListHead, runs[..j] + runs[j + 1..];
    }

    /** Erases a live cell of a block that keeps at least one other; returns where ++ would have led. */
    method Erase(i: nat) returns (next: nat)
      requires Valid() && i in Contents() && size > 1
      modifies skipfield, elements, this`freeListHead, this`runs, this`size
      ensures Valid() && Contents() == old(Contents()) - {i} && size == old(size) - 1
      ensures next == NextOf(old(skipfield[..]), i) && freeListHead != NPOS
    {
      ghost var skip := skipfield[..];
      var prevSkipfield := i > 0 && skipfield[i - 1] != 0;
      var afterSkipfield := skipfield[i + 1] != 0;
      var updateValue := 1;
      if !prevSkipfield && !afterSkipfield {
        EraseAlone(i);
      } else if prevSkipfield && !afterSkipfield {
        EraseAfterRun(i);
      } else if !prevSkipfield && afterSkipfield {
        updateValue := EraseBeforeRun(i);
      } else {
        updateValue := EraseBetweenRuns(i);
      }
      next := i + updateValue;
      ErasedMeansListed(i);
      Shrink(i, old(Contents()));
    }

    method Shrink(ghost i: nat, ghost m: map<nat, T>)
      requires Sound() && Contents() == m - {i} && i in m && size == |m|
      modifies this`size
      ensures Valid() && Contents() == m - {i} && size == old(size) - 1
    {
      assert (m - {i}).Keys == m.Keys - {i};
      size := size - 1;
    }

    lemma ErasedMeansListed(i: nat)
      requires Sound() && i < used && skipfield[i] != 0
      ensures freeListHead != NPOS
    {
      assert StartOf(skipfield[..], i) in runs;
      assert LinkOk(elements[..], runs, |runs| - 1);
    }

    // ---------------------------------------------------------------- writing through an iterator

    /** The element in a cell, as an iterator sees it. */
    method At(i: nat) returns (x: T)
      requires Sound() && i in Contents()
      ensures x == Contents()[i]
    {
      x := elements[i].val;
    }

    /** Overwrites an element in place. */
    method Assign(i: nat, x: T)
      requires Valid() && i in Contents()
      modifies elements
      ensures Valid() && Contents() == old(Contents())[i := x]
    {
      ghost var cells, m := elements[..], Contents();
      HiveBlock.Assign(skipfield[..], cells, used, freeListHead, runs, i, x);
      elements[i] := Live(x);
      assert elements[..] == cells[i := Live(x)];
      assert m[i := x].Keys == m.Keys;
      assert |m[i := x]| == |m[i := x].Keys|;
    }

    // ---------------------------------------------------------------- inserting

    method Grow(ghost i: nat, x: T, ghost m: map<nat, T>)
      requires Sound() && i !in m && Contents() == m[i := x] && size == |m|
      modifies this`size
      ensures Valid() && Contents() == m[i := x] && size == old(size) + 1
    {
      assert m[i := x].Keys == m.Keys + {i};
      size := size + 1;
    }

    /** Stores an element in the first cell that has never been used. */
    method Append(at: nat, x: T)
      requires Valid() && at == used < capacity
      modifies elements, this`used, this`size
      ensures Valid() && Contents() == old(Contents())[at := x] && at !in old(Contents())
      ensures used == old(used) + 1 && size == old(size) + 1
    {
      ghost var cells := elements[..];
      HiveBlock.Append(skipfield[..], cells, used, freeListHead, runs, x);
      elements[at] := Live(x);
      assert elements[..] == cells[at := Live(x)];
      used := used + 1;
      Grow(at, x, old(Contents()));
    }

    /** Stores an element in the first cell of the most recent run of erased cells. */
    method Reuse(x: T) returns (at: nat)
      requires Valid() && freeListHead != NPOS
      modifies skipfield, elements, this`freeListHead, this`runs, this`size
      ensures Valid() && Contents() == old(Contents())[at := x] && at !in old(Contents())
      ensures at == old(freeListHead) < used && size == old(size) + 1
    {
      assert LinkOk(elements[..], runs, |runs| - 1) && runs[|runs| - 1] in runs;
      at := freeListHead;
      if skipfield[at] == 1 { ReuseWholeRun(x); } else { ReuseRunStart(x); }
      Grow(at, x, old(Contents()));
    }

    method ReuseWholeRun(x: T)
      requires Sound() && runs != [] && freeListHead < elements.Length && skipfield[freeListHead] == 1
      modifies skipfield, elements, this`freeListHead, this`runs
      ensures Sound() && Contents() == old(Contents())[old(freeListHead) := x] && old(freeListHead) !in old(Contents())
    {
      ghost var skip, cells := skipfield[..], elements[..];
      HiveBlock.ReuseLast(skip, cells, used, freeListHead, runs, x);
      assert LinkOk(cells, runs, |runs| - 1);
      var at, prev := freeListHead, elements[freeListHead].prev;
      elements[at] := Live(x);
      if prev != NPOS { EditFreeListNext(prev, NPOS); }
      skipfield[at] := 0;
      assert skipfield[..] == ReuseSkip(skip, at);
      assert elements[..] == WithNext(cells, prev, NPOS)[at := Live(x)];
      freeListHead, runs := prev, runs[..|runs| - 1];
    }

    method ReuseRunStart(x: T)
      requires Sound() && runs != [] && freeListHead < elements.Length && skipfield[freeListHead] > 1
      modifies skipfield, elements, this`freeListHead, this`runs
      ensures Sound() && Contents() == old(Contents())[old(freeListHead) := x] && old(freeListHead) !in old(Contents())
    {
      ghost var skip, cells := skipfield[..], elements[..];
      HiveBlock.ReuseFirst(skip, cells, used, freeListHead, runs, x);
      assert LinkOk(cells, runs, |runs| - 1);
      var at, prev, length := freeListHead, elements[freeListHead].prev, skipfield[freeListHead] - 1;
      elements[at] := Live(x);
      skipfield[at + length] := length;
      skipfield[at + 1] := length;
      if prev != NPOS { EditFreeListNext(prev, at + 1); }
      elements[at + 1] := Erased(prev, NPOS);
      skipfield[at] := 0;
      assert skipfield[..] == ReuseSkip(skip, at);
      assert elements[..] == Relinked(cells, prev, NPOS, at + 1)[at := Live(x)];
      freeListHead, runs := at + 1, runs[|runs| - 1 := at + 1];
    }

    /** Forgets everything the block held. */
    method Reset()
      requires Sound()
      modifies skipfield, this`freeListHead, this`size, this`used, this`runs
      ensures Valid() && used == 0 && Contents() == map[] && freeListHead == NPOS
    {
      var i := 0;
      while i < capacity
        invariant 0 <= i <= capacity
        invariant forall j | 0 <= j < i :: skipfield[j] == 0
        invariant skipfield.Length == capacity + 1 && skipfield[capacity] == 0
      {
        skipfield[i] := 0;
        i := i + 1;
      }
      freeListHead, size, used, runs := NPOS, 0, 0, [];
      assert Contents() == map[];
    }

    // ---------------------------------------------------------------- iterating

    /** The first live cell, or the end of the used cells. */
    method First() returns (i: nat)
      requires Sound()
      ensures i == skipfield[0] <= used && AllErased(skipfield[..], 0, i)
      ensures i < used ==> i in Contents()
    {
      FirstIsLive(skipfield[..], used);
      i := skipfield[0];
    }

    /** ++ within the block. */
    method Next(i: nat) returns (n: nat)
      requires Sound() && i in Contents()
      ensures n == NextOf(skipfield[..], i) && i < n <= used && AllErased(skipfield[..], i + 1, n)
      ensures n < used ==> n in Contents()
    {
      NextIsNextLive(skipfield[..], used, i);
      n := i + 1 + skipfield[i + 1];
    }

    /** -- within the block; -1 leads to the block before. */
    method Prev(p: nat) returns (q: int)
      requires Sound() && 0 < p && (p in Contents() || p == used)
      ensures q == PrevOf(skipfield[..], p) && -1 <= q < p && AllErased(skipfield[..], q + 1, p)
      ensures q >= 0 ==> q in Contents()
    {
      PrevIsPrevLive(skipfield[..], used, p);
      q := p - 1 - skipfield[p - 1];
    }

    /** The live cells in the order in which ++ visits them. */
    method Visit(end: nat) returns (cells: seq<nat>)
      requires Sound() && end == used
      ensures cells == LiveFrom(skipfield[..], used, 0)
    {
      IterationIsComplete(skipfield[..], used);
      var i := First();
      cells := [];
      while i < end
        invariant i <= used && skipfield[i] == 0
        invariant cells + Walk(skipfield[..], used, i) == LiveFrom(skipfield[..], used, 0)
        decreases end - i
      {
        NextIsNextLive(skipfield[..], used, i);
        assert Walk(skipfield[..], used, i) == [i] + Walk(skipfield[..], used, NextOf(skipfield[..], i));
        cells := cells + [i];
        i := Next(i);
      }
    }
  }
}
