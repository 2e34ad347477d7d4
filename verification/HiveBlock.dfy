/**
 One memory block of a hive: element cells and a skipfield with one number per cell. A run of erased
 cells has its length at both ends and non-zero numbers inside; the first cell of each run holds the
 links of a doubly linked free list of runs.
 */
module HiveBlock {

  /** The largest skipfield value stands for no index. */
  const NPOS: nat := 0xFFFF

  /** A cell holds an element or, at the start of an erased run, two links; anything else is stale. */
  datatype Cell<T> = Live(val: T) | Erased(prev: nat, next: nat) | Stale

  // ---------------------------------------------------------------- the skipfield

  predicate IsStart(skip: seq<nat>, s: nat) {
    s < |skip| && skip[s] != 0 && (s == 0 || skip[s - 1] == 0)
  }

  /** The run of erased cells that starts at s: its length is at both ends, and it is maximal. */
  predicate RunOk(skip: seq<nat>, s: nat, end: nat)
    requires s < |skip|
  {
    && s + skip[s] <= end < |skip| && skip[s] > 0
    && skip[s + skip[s] - 1] == skip[s]
    && skip[s + skip[s]] == 0
    && forall j | s <= j < s + skip[s] :: skip[j] != 0
  }

  ghost predicate Runs(skip: seq<nat>, end: nat) {
    && end < |skip|
    && (forall i | end <= i < |skip| :: skip[i] == 0)
    && (forall s: nat | IsStart(skip, s) :: RunOk(skip, s, end))
  }

  function StartOf(skip: seq<nat>, i: nat): (s: nat)
    requires i < |skip| && skip[i] != 0
    ensures s <= i && IsStart(skip, s)
    ensures forall j | s <= j <= i :: skip[j] != 0
  {
    if i == 0 || skip[i - 1] == 0 then i else StartOf(skip, i - 1)
  }

  /** At the last cell of a run, the number there leads back to the start. */
  lemma RunOfEnd(skip: seq<nat>, end: nat, e: nat)
    requires Runs(skip, end) && e + 1 < |skip| && skip[e] != 0 && skip[e + 1] == 0
    ensures skip[e] <= e + 1 && IsStart(skip, e + 1 - skip[e]) && skip[e + 1 - skip[e]] == skip[e]
    ensures RunOk(skip, e + 1 - skip[e], end)
  {
    var s := StartOf(skip, e);
    assert RunOk(skip, s, end);
    assert s + skip[s] > e;
  }

  /** A live cell lies outside every run, and one that ends a run has an erased predecessor. */
  lemma RunAvoids(skip: seq<nat>, end: nat, s: nat, i: nat)
    requires Runs(skip, end) && IsStart(skip, s) && i < |skip| && skip[i] == 0
    ensures i < s || i >= s + skip[s]
    ensures i == s + skip[s] ==> i > 0 && skip[i - 1] != 0
  {
    assert RunOk(skip, s, end);
  }

  /** Runs neither overlap nor touch. */
  lemma RunsApart(skip: seq<nat>, end: nat, r: nat, s: nat)
    requires Runs(skip, end) && IsStart(skip, r) && IsStart(skip, s) && r < s
    ensures r + skip[r] < s
  {
    assert RunOk(skip, r, end);
  }

  // the four ways in which an erasure changes the runs

  function SoloSkip(skip: seq<nat>, i: nat): seq<nat>
    requires i < |skip|
  {
    skip[i := 1]
  }

  lemma SoloRuns(skip: seq<nat>, end: nat, i: nat)
    requires Runs(skip, end) && i < end && skip[i] == 0 && (i == 0 || skip[i - 1] == 0) && skip[i + 1] == 0
    ensures Runs(SoloSkip(skip, i), end)
    ensures forall s: nat :: IsStart(SoloSkip(skip, i), s) <==> IsStart(skip, s) || s == i
  {
    var skip' := SoloSkip(skip, i);
    forall s: nat | IsStart(skip', s) ensures RunOk(skip', s, end) {
      if s != i {
        assert IsStart(skip, s) && RunOk(skip, s, end);
        RunAvoids(skip, end, s, i);
      }
    }
  }

  function LeftSkip(skip: seq<nat>, i: nat): seq<nat>
    requires 0 < i < |skip| && skip[i - 1] <= i
  {
    var v := skip[i - 1] + 1;
    skip[i + 1 - v := v][i := v]
  }

  lemma LeftRuns(skip: seq<nat>, end: nat, i: nat)
    requires Runs(skip, end) && 0 < i < end && skip[i] == 0 && skip[i - 1] != 0 && skip[i + 1] == 0
    ensures skip[i - 1] <= i && Runs(LeftSkip(skip, i), end)
    ensures forall s: nat :: IsStart(LeftSkip(skip, i), s) <==> IsStart(skip, s)
  {
    RunOfEnd(skip, end, i - 1);
    var skip' := LeftSkip(skip, i);
    var first := i - skip[i - 1];
    forall s: nat | IsStart(skip', s) ensures RunOk(skip', s, end) {
      assert IsStart(skip, s) && RunOk(skip, s, end);
      if s != first {
        RunAvoids(skip, end, s, i);
        if s < first { RunsApart(skip, end, s, first); }
      }
    }
  }

  function RightSkip(skip: seq<nat>, i: nat): seq<nat>
    requires i + 1 < |skip| && i + 1 + skip[i + 1] <= |skip|
  {
    var v := skip[i + 1] + 1;
    skip[i + v - 1 := v][i := v]
  }

  lemma RightRuns(skip: seq<nat>, end: nat, i: nat)
    requires Runs(skip, end) && i < end && skip[i] == 0 && (i == 0 || skip[i - 1] == 0) && skip[i + 1] != 0
    ensures IsStart(skip, i + 1) && RunOk(skip, i + 1, end) && Runs(RightSkip(skip, i), end)
    ensures forall s: nat :: IsStart(RightSkip(skip, i), s) <==> (IsStart(skip, s) && s != i + 1) || s == i
  {
    assert IsStart(skip, i + 1) && RunOk(skip, i + 1, end);
    var skip' := RightSkip(skip, i);
    forall s: nat | IsStart(skip', s) ensures RunOk(skip', s, end) {
      if s != i {
        assert IsStart(skip, s) && RunOk(skip, s, end);
        RunAvoids(skip, end, s, i);
        if s > i { RunsApart(skip, end, i + 1, s); }
      }
    }
  }

  function BothSkip(skip: seq<nat>, i: nat): seq<nat>
    requires 0 < i && i + 1 < |skip| && skip[i - 1] <= i && i + 1 + skip[i + 1] <= |skip|
  {
    var p, v := skip[i - 1], skip[i + 1] + 1;
    skip[i := 1][i + v - 1 := p + v][i - p := p + v]
  }

  lemma BothStarts(skip: seq<nat>, end: nat, i: nat, s: nat)
    requires Runs(skip, end) && 0 < i < end && skip[i] == 0 && skip[i - 1] != 0 && skip[i + 1] != 0
    ensures IsStart(skip, i + 1) && RunOk(skip, i + 1, end) && skip[i - 1] <= i
    ensures IsStart(BothSkip(skip, i), s) <==> IsStart(skip, s) && s != i + 1
  {
    assert IsStart(skip, i + 1) && RunOk(skip, i + 1, end);
    RunOfEnd(skip, end, i - 1);
  }

  lemma BothRunAt(skip: seq<nat>, end: nat, i: nat, s: nat)
    requires Runs(skip, end) && 0 < i < end && skip[i] == 0 && skip[i - 1] != 0 && skip[i + 1] != 0
    requires IsStart(skip, s) && s != i + 1
    ensures skip[i - 1] <= i && i + 1 + skip[i + 1] <= |skip| && RunOk(BothSkip(skip, i), s, end)
  {
    assert IsStart(skip, i + 1) && RunOk(skip, i + 1, end) && RunOk(skip, s, end);
    RunOfEnd(skip, end, i - 1);
    var first := i - skip[i - 1];
    if s != first {
      RunAvoids(skip, end, s, i);
      if s < first { RunsApart(skip, end, s, first); } else { RunsApart(skip, end, first, s); }
      if s > i { RunsApart(skip, end, i + 1, s); }
    }
  }

  lemma BothRuns(skip: seq<nat>, end: nat, i: nat)
    requires Runs(skip, end) && 0 < i < end && skip[i] == 0 && skip[i - 1] != 0 && skip[i + 1] != 0
    ensures IsStart(skip, i + 1) && RunOk(skip, i + 1, end) && skip[i - 1] <= i && Runs(BothSkip(skip, i), end)
    ensures forall s: nat :: IsStart(BothSkip(skip, i), s) <==> IsStart(skip, s) && s != i + 1
  {
    BothStarts(skip, end, i, 0);
    forall s: nat ensures IsStart(BothSkip(skip, i), s) <==> IsStart(skip, s) && s != i + 1 {
      BothStarts(skip, end, i, s);
    }
    forall s: nat | IsStart(BothSkip(skip, i), s) ensures RunOk(BothSkip(skip, i), s, end) {
      BothRunAt(skip, end, i, s);
    }
    forall j | end <= j < |skip| ensures BothSkip(skip, i)[j] == 0 {
      assert j > i + skip[i + 1];
    }
  }

  /** Reusing the first cell of a run shortens the run from the front. */
  function ReuseSkip(skip: seq<nat>, s: nat): seq<nat>
    requires s < |skip| && s + skip[s] <= |skip|
  {
    var v := skip[s];
    if v <= 1 then skip[s := 0] else skip[s + v - 1 := v - 1][s + 1 := v - 1][s := 0]
  }

  lemma ReuseRuns(skip: seq<nat>, end: nat, s: nat)
    requires Runs(skip, end) && IsStart(skip, s)
    ensures RunOk(skip, s, end) && Runs(ReuseSkip(skip, s), end)
    ensures forall r: nat ::
      IsStart(ReuseSkip(skip, s), r) <==> (IsStart(skip, r) && r != s) || (r == s + 1 && skip[s] > 1)
  {
    assert RunOk(skip, s, end);
    var skip' := ReuseSkip(skip, s);
    forall r: nat ensures IsStart(skip', r) <==> (IsStart(skip, r) && r != s) || (r == s + 1 && skip[s] > 1) {
      if r == s + 1 && skip[s] > 1 { assert skip[s + 1] != 0; }
    }
    forall r: nat | IsStart(skip', r) ensures RunOk(skip', r, end) {
      if r != s + 1 || skip[s] == 1 {
        assert IsStart(skip, r) && RunOk(skip, r, end);
        if r < s { RunsApart(skip, end, r, s); } else { RunsApart(skip, end, s, r); }
      }
    }
  }

  // ---------------------------------------------------------------- the free list

  function PrevIn(fl: seq<nat>, j: nat): nat
    requires j < |fl|
  {
    if j == 0 then NPOS else fl[j - 1]
  }

  function NextIn(fl: seq<nat>, j: nat): nat
    requires j < |fl|
  {
    if j + 1 < |fl| then fl[j + 1] else NPOS
  }

  predicate LinkOk<T(==)>(cells: seq<Cell<T>>, fl: seq<nat>, j: nat)
    requires j < |fl|
  {
    fl[j] < |cells| && cells[fl[j]] == Erased(PrevIn(fl, j), NextIn(fl, j))
  }

  predicate Distinct(fl: seq<nat>) {
    forall i, j | 0 <= i < j < |fl| :: fl[i] != fl[j]
  }

  function HeadOf(fl: seq<nat>): nat {
    if fl == [] then NPOS else fl[|fl| - 1]
  }

  /** The cells link up the list fl, last to first from the head. */
  ghost predicate Links<T>(cells: seq<Cell<T>>, fl: seq<nat>, head: nat) {
    && |cells| <= NPOS && Distinct(fl) && head == HeadOf(fl)
    && forall j | 0 <= j < |fl| :: LinkOk(cells, fl, j)
  }

  function WithNext<T>(cells: seq<Cell<T>>, p: nat, next: nat): seq<Cell<T>>
    requires p == NPOS || (p < |cells| && cells[p].Erased?)
  {
    if p == NPOS then cells else cells[p := cells[p].(next := next)]
  }

  function WithPrev<T>(cells: seq<Cell<T>>, p: nat, prev: nat): seq<Cell<T>>
    requires p == NPOS || (p < |cells| && cells[p].Erased?)
  {
    if p == NPOS then cells else cells[p := cells[p].(prev := prev)]
  }

  lemma LinksPush<T>(cells: seq<Cell<T>>, fl: seq<nat>, head: nat, i: nat)
    requires Links(cells, fl, head) && i < |cells| && i !in fl
    ensures head == NPOS || (head < |cells| && cells[head].Erased?)
    ensures Links(WithNext(cells, head, i)[i := Erased(head, NPOS)], fl + [i], i)
  {
    if fl != [] { assert LinkOk(cells, fl, |fl| - 1); }
    var cells', fl' := WithNext(cells, head, i)[i := Erased(head, NPOS)], fl + [i];
    forall j | 0 <= j < |fl'| ensures LinkOk(cells', fl', j) {
      if j < |fl| { assert LinkOk(cells, fl, j) && fl[j] in fl; }
    }
  }

  lemma Neighbours<T>(cells: seq<Cell<T>>, fl: seq<nat>, head: nat, j: nat)
    requires Links(cells, fl, head) && j < |fl|
    ensures PrevIn(fl, j) == NPOS || (PrevIn(fl, j) < |cells| && cells[PrevIn(fl, j)].Erased?)
    ensures NextIn(fl, j) == NPOS || (NextIn(fl, j) < |cells| && cells[NextIn(fl, j)].Erased?)
    ensures PrevIn(fl, j) == NPOS <==> j == 0
    ensures NextIn(fl, j) == NPOS <==> j == |fl| - 1
    ensures j == |fl| - 1 <==> fl[j] == head
  {
    if j > 0 { assert LinkOk(cells, fl, j - 1); }
    if j + 1 < |fl| { assert LinkOk(cells, fl, j + 1); }
    assert LinkOk(cells, fl, j);
  }

  function Relinked<T>(cells: seq<Cell<T>>, prev: nat, next: nat, i: nat): seq<Cell<T>>
    requires i < |cells| <= NPOS
    requires prev == NPOS || (prev < |cells| && cells[prev].Erased? && prev != i)
    requires next == NPOS || (next < |cells| && cells[next].Erased? && next != i && next != prev)
  {
    WithPrev(WithNext(cells[i := Erased(prev, next)], prev, i), next, i)
  }

  /** A run that starts one cell earlier or later takes the place of its old start in the list. */
  lemma LinksReplace<T>(cells: seq<Cell<T>>, fl: seq<nat>, head: nat, j: nat, i: nat)
    requires Links(cells, fl, head) && j < |fl| && i < |cells| && i !in fl
    ensures Neighbour(cells, PrevIn(fl, j), i) && Neighbour(cells, NextIn(fl, j), i)
    ensures PrevIn(fl, j) == NextIn(fl, j) ==> PrevIn(fl, j) == NPOS
    ensures Links(Relinked(cells, PrevIn(fl, j), NextIn(fl, j), i), fl[j := i], if j == |fl| - 1 then i else head)
  {
    Neighbours(cells, fl, head, j);
    assert j > 0 ==> fl[j - 1] in fl;
    assert j + 1 < |fl| ==> fl[j + 1] in fl;
    var cells', fl' := Relinked(cells, PrevIn(fl, j), NextIn(fl, j), i), fl[j := i];
    forall k | 0 <= k < |fl'| ensures LinkOk(cells', fl', k) {
      assert LinkOk(cells, fl, k) && fl[k] in fl;
    }
  }

  predicate Neighbour<T>(cells: seq<Cell<T>>, p: nat, i: nat) {
    p == NPOS || (p < |cells| && cells[p].Erased? && p != i)
  }

  function Unlinked<T>(cells: seq<Cell<T>>, prev: nat, next: nat): seq<Cell<T>>
    requires prev == NPOS || (prev < |cells| && cells[prev].Erased?)
    requires next == NPOS || (next < |cells| && cells[next].Erased?)
  {
    WithPrev(WithNext(cells, prev, next), next, prev)
  }

  /** A run that is swallowed by another, or used up, leaves the list. */
  lemma LinksRemove<T>(cells: seq<Cell<T>>, fl: seq<nat>, head: nat, j: nat)
    requires Links(cells, fl, head) && j < |fl|
    ensures Neighbour(cells, PrevIn(fl, j), fl[j]) && Neighbour(cells, NextIn(fl, j), fl[j])
    ensures Links(Unlinked(cells, PrevIn(fl, j), NextIn(fl, j)), fl[..j] + fl[j + 1..],
                  if j == |fl| - 1 then PrevIn(fl, j) else head)
  {
    Neighbours(cells, fl, head, j);
    var cells', fl' := Unlinked(cells, PrevIn(fl, j), NextIn(fl, j)), fl[..j] + fl[j + 1..];
    forall k | 0 <= k < |fl'| ensures LinkOk(cells', fl', k) {
      assert LinkOk(cells, fl, if k < j then k else k + 1);
    }
  }

  lemma LinksIgnore<T>(cells: seq<Cell<T>>, fl: seq<nat>, head: nat, i: nat, c: Cell<T>)
    requires Links(cells, fl, head) && i < |cells| && i !in fl
    ensures Links(cells[i := c], fl, head)
  {
    var cells' := cells[i := c];
    forall k | 0 <= k < |fl| ensures LinkOk(cells', fl, k) {
      assert LinkOk(cells, fl, k) && fl[k] in fl;
    }
  }

  // ---------------------------------------------------------------- one block

  predicate IsLive(skip: seq<nat>, end: nat, i: nat) {
    i < end && i < |skip| && skip[i] == 0
  }

  /** Skipfield, links and elements of a block whose first end cells have been used. */
  ghost predicate BlockOk<T>(skip: seq<nat>, cells: seq<Cell<T>>, end: nat, head: nat, fl: seq<nat>) {
    && |skip| == |cells| + 1
    && Runs(skip, end)
    && Links(cells, fl, head)
    && (forall s: nat :: s in fl <==> IsStart(skip, s))
    && (forall i | 0 <= i < end && skip[i] == 0 :: cells[i].Live?)
  }

  /** The elements of a block, by cell. */
  ghost function Elements<T>(skip: seq<nat>, cells: seq<Cell<T>>, end: nat): map<nat, T>
    requires end <= |cells| && |cells| < |skip|
    requires forall i | 0 <= i < end && skip[i] == 0 :: cells[i].Live?
  {
    map i | 0 <= i < end && skip[i] == 0 :: cells[i].val
  }

  ghost predicate ErasedAt<T>(skip: seq<nat>, cells: seq<Cell<T>>, end: nat, head: nat, fl: seq<nat>,
                              skip': seq<nat>, cells': seq<Cell<T>>, head': nat, fl': seq<nat>, i: nat)
    requires BlockOk(skip, cells, end, head, fl)
  {
    && BlockOk(skip', cells', end, head', fl') && |cells'| == |cells|
    && Elements(skip', cells', end) == Elements(skip, cells, end) - {i}
  }

  lemma EraseSolo<T>(skip: seq<nat>, cells: seq<Cell<T>>, end: nat, head: nat, fl: seq<nat>, i: nat)
    requires BlockOk(skip, cells, end, head, fl) && i < end && skip[i] == 0
    requires (i == 0 || skip[i - 1] == 0) && skip[i + 1] == 0
    ensures head == NPOS || (head < |cells| && cells[head].Erased?)
    ensures ErasedAt(skip, cells, end, head, fl,
                     SoloSkip(skip, i), WithNext(cells, head, i)[i := Erased(head, NPOS)], i, fl + [i], i)
  {
    SoloRuns(skip, end, i);
    assert !IsStart(skip, i);
    LinksPush(cells, fl, head, i);
    if fl != [] { assert head in fl; }
  }

  lemma EraseLeft<T>(skip: seq<nat>, cells: seq<Cell<T>>, end: nat, head: nat, fl: seq<nat>, i: nat)
    requires BlockOk(skip, cells, end, head, fl) && 0 < i < end && skip[i] == 0 && skip[i - 1] != 0 && skip[i + 1] == 0
    ensures skip[i - 1] <= i
    ensures ErasedAt(skip, cells, end, head, fl, LeftSkip(skip, i), cells, head, fl, i)
  {
    LeftRuns(skip, end, i);
    RunOfEnd(skip, end, i - 1);
  }

  lemma EraseRight<T>(skip: seq<nat>, cells: seq<Cell<T>>, end: nat, head: nat, fl: seq<nat>, i: nat, j: nat)
    requires BlockOk(skip, cells, end, head, fl) && i < end && skip[i] == 0
    requires (i == 0 || skip[i - 1] == 0) && skip[i + 1] != 0 && j < |fl| && fl[j] == i + 1
    ensures i + 1 + skip[i + 1] <= |skip| && i < |cells| <= NPOS
    ensures Neighbour(cells, PrevIn(fl, j), i) && Neighbour(cells, NextIn(fl, j), i)
    ensures PrevIn(fl, j) == NextIn(fl, j) ==> PrevIn(fl, j) == NPOS
    ensures ErasedAt(skip, cells, end, head, fl, RightSkip(skip, i),
                     Relinked(cells, PrevIn(fl, j), NextIn(fl, j), i), if j == |fl| - 1 then i else head, fl[j := i], i)
  {
    RightRuns(skip, end, i);
    assert !IsStart(skip, i);
    LinksReplace(cells, fl, head, j, i);
    forall s: nat ensures s in fl[j := i] <==> (s in fl && s != fl[j]) || s == i { ReplacedMember(fl, j, i, s); }
    LinksAreStarts(skip, cells, end, head, fl, j);
  }

  /** The cells a list operation writes besides its own are starts of runs, so no element is touched. */
  lemma LinksAreStarts<T>(skip: seq<nat>, cells: seq<Cell<T>>, end: nat, head: nat, fl: seq<nat>, j: nat)
    requires BlockOk(skip, cells, end, head, fl) && j < |fl|
    ensures PrevIn(fl, j) != NPOS ==> PrevIn(fl, j) < |skip| && skip[PrevIn(fl, j)] != 0
    ensures NextIn(fl, j) != NPOS ==> NextIn(fl, j) < |skip| && skip[NextIn(fl, j)] != 0
  {
    assert j > 0 ==> fl[j - 1] in fl;
    assert j + 1 < |fl| ==> fl[j + 1] in fl;
  }

  lemma ReplacedMember(fl: seq<nat>, j: nat, i: nat, s: nat)
    requires Distinct(fl) && j < |fl|
    ensures s in fl[j := i] <==> (s in fl && s != fl[j]) || s == i
  {
    if s in fl && s != fl[j] {
      var k :| 0 <= k < |fl| && fl[k] == s;
      assert fl[j := i][k] == s;
    }
    if s == i { assert fl[j := i][j] == s; }
    if s in fl[j := i] {
      var k :| 0 <= k < |fl| && fl[j := i][k] == s;
      assert k != j ==> fl[k] == s && fl[k] in fl && fl[k] != fl[j];
    }
  }

  lemma RemovedMembers(fl: seq<nat>, j: nat)
    requires Distinct(fl) && j < |fl|
    ensures forall s: nat :: s in fl[..j] + fl[j + 1..] <==> s in fl && s != fl[j]
  {
    var fl' := fl[..j] + fl[j + 1..];
    forall s: nat ensures s in fl' <==> s in fl && s != fl[j] {
      if s in fl && s != fl[j] {
        var k :| 0 <= k < |fl| && fl[k] == s;
        assert fl'[if k < j then k else k - 1] == s;
      }
      if s in fl' {
        var k :| 0 <= k < |fl'| && fl'[k] == s;
        assert fl[if k < j then k else k + 1] == s;
      }
    }
  }

  lemma EraseBoth<T>(skip: seq<nat>, cells: seq<Cell<T>>, end: nat, head: nat, fl: seq<nat>, i: nat, j: nat)
    requires BlockOk(skip, cells, end, head, fl) && 0 < i < end && skip[i] == 0
    requires skip[i - 1] != 0 && skip[i + 1] != 0 && j < |fl| && fl[j] == i + 1
    ensures skip[i - 1] <= i && i + 1 + skip[i + 1] <= |skip|
    ensures Neighbour(cells, PrevIn(fl, j), i + 1) && Neighbour(cells, NextIn(fl, j), i + 1)
    ensures ErasedAt(skip, cells, end, head, fl, BothSkip(skip, i), Unlinked(cells, PrevIn(fl, j), NextIn(fl, j)),
                     if j == |fl| - 1 then PrevIn(fl, j) else head, fl[..j] + fl[j + 1..], i)
  {
    BothRuns(skip, end, i);
    RunOfEnd(skip, end, i - 1);
    LinksRemove(cells, fl, head, j);
    RemovedMembers(fl, j);
    LinksAreStarts(skip, cells, end, head, fl, j);
  }

  ghost predicate InsertedAt<T>(skip: seq<nat>, cells: seq<Cell<T>>, end: nat, head: nat, fl: seq<nat>,
                                skip': seq<nat>, cells': seq<Cell<T>>, end': nat, head': nat, fl': seq<nat>,
                                i: nat, x: T)
    requires BlockOk(skip, cells, end, head, fl)
  {
    && BlockOk(skip', cells', end', head', fl') && |cells'| == |cells|
    && i !in Elements(skip, cells, end)
    && Elements(skip', cells', end') == Elements(skip, cells, end)[i := x]
  }

  lemma ReuseLast<T>(skip: seq<nat>, cells: seq<Cell<T>>, end: nat, head: nat, fl: seq<nat>, x: T)
    requires BlockOk(skip, cells, end, head, fl) && fl != [] && head < |skip| && skip[head] == 1
    ensures IsStart(skip, head) && head + skip[head] <= |skip| && head < |cells|
    ensures Neighbour(cells, PrevIn(fl, |fl| - 1), head)
    ensures InsertedAt(skip, cells, end, head, fl,
                       ReuseSkip(skip, head), WithNext(cells, PrevIn(fl, |fl| - 1), NPOS)[head := Live(x)], end,
                       PrevIn(fl, |fl| - 1), fl[..|fl| - 1], head, x)
  {
    var j := |fl| - 1;
    assert head in fl;
    ReuseRuns(skip, end, head);
    LinksRemove(cells, fl, head, j);
    assert fl[..j] + fl[j + 1..] == fl[..j];
    RemovedMembers(fl, j);
    LinksAreStarts(skip, cells, end, head, fl, j);
    LinksIgnore(WithNext(cells, PrevIn(fl, j), NPOS), fl[..j], PrevIn(fl, j), head, Live(x));
  }

  lemma ReuseFirst<T>(skip: seq<nat>, cells: seq<Cell<T>>, end: nat, head: nat, fl: seq<nat>, x: T)
    requires BlockOk(skip, cells, end, head, fl) && fl != [] && head < |skip| && skip[head] > 1
    ensures IsStart(skip, head) && head + skip[head] <= |skip| && head + 1 < |cells| <= NPOS
    ensures Neighbour(cells, PrevIn(fl, |fl| - 1), head + 1)
    ensures InsertedAt(skip, cells, end, head, fl,
                       ReuseSkip(skip, head), Relinked(cells, PrevIn(fl, |fl| - 1), NPOS,
                                                       head + 1)[head := Live(x)], end,
                       head + 1, fl[|fl| - 1 := head + 1], head, x)
  {
    var j := |fl| - 1;
    assert head in fl;
    ReuseRuns(skip, end, head);
    assert !IsStart(skip, head + 1) by { assert RunOk(skip, head, end); }
    LinksReplace(cells, fl, head, j, head + 1);
    var fl' := fl[j := head + 1];
    forall s: nat ensures s in fl' <==> (s in fl && s != head) || s == head + 1 { ReplacedMember(fl, j, head + 1, s); }
    LinksAreStarts(skip, cells, end, head, fl, j);
    LinksIgnore(Relinked(cells, PrevIn(fl, j), NPOS, head + 1), fl', head + 1, head, Live(x));
  }

  /** Writing to an element disturbs neither the skipfield nor the links, which lie in other cells. */
  lemma Assign<T>(skip: seq<nat>, cells: seq<Cell<T>>, end: nat, head: nat, fl: seq<nat>, i: nat, x: T)
    requires BlockOk(skip, cells, end, head, fl) && i < end && skip[i] == 0
    ensures i < |cells| && BlockOk(skip, cells[i := Live(x)], end, head, fl)
    ensures Elements(skip, cells[i := Live(x)], end) == Elements(skip, cells, end)[i := x]
  {
    var cells' := cells[i := Live(x)];
    forall j | 0 <= j < |fl| ensures LinkOk(cells', fl, j) {
      assert LinkOk(cells, fl, j);
    }
  }

  lemma Append<T>(skip: seq<nat>, cells: seq<Cell<T>>, end: nat, head: nat, fl: seq<nat>, x: T)
    requires BlockOk(skip, cells, end, head, fl) && end < |cells|
    ensures InsertedAt(skip, cells, end, head, fl, skip, cells[end := Live(x)], end + 1, head, fl, end, x)
  {
    assert !IsStart(skip, end);
    LinksIgnore(cells, fl, head, end, Live(x));
    forall s: nat | IsStart(skip, s) ensures RunOk(skip, s, end + 1) {
      assert RunOk(skip, s, end);
    }
  }

  // ---------------------------------------------------------------- iteration

  /** Where ++ leads from a live cell, within the block. */
  function NextOf(skip: seq<nat>, i: nat): nat
    requires i + 1 < |skip|
  {
    i + 1 + skip[i + 1]
  }

  /** Where -- leads from a position, within the block; -1 is before its first cell. */
  function PrevOf(skip: seq<nat>, p: nat): int
    requires 0 < p <= |skip|
  {
    p - 1 - skip[p - 1]
  }

  predicate AllErased(skip: seq<nat>, a: nat, b: nat) {
    b <= |skip| && forall k | a <= k < b :: skip[k] != 0
  }

  lemma FirstIsLive(skip: seq<nat>, end: nat)
    requires Runs(skip, end)
    ensures skip[0] <= end && AllErased(skip, 0, skip[0]) && skip[skip[0]] == 0
  {
    if skip[0] != 0 { assert IsStart(skip, 0) && RunOk(skip, 0, end); }
  }

  /** ++ leads to the next live cell, or to the end when there is none. */
  lemma NextIsNextLive(skip: seq<nat>, end: nat, i: nat)
    requires Runs(skip, end) && IsLive(skip, end, i)
    ensures i < NextOf(skip, i) <= end && AllErased(skip, i + 1, NextOf(skip, i)) && skip[NextOf(skip, i)] == 0
  {
    if skip[i + 1] != 0 { assert IsStart(skip, i + 1) && RunOk(skip, i + 1, end); }
  }

  /** -- leads to the last live cell before, or before the block when there is none. */
  lemma PrevIsPrevLive(skip: seq<nat>, end: nat, p: nat)
    requires Runs(skip, end) && 0 < p <= end && skip[p] == 0
    ensures -1 <= PrevOf(skip, p) < p && AllErased(skip, PrevOf(skip, p) + 1, p)
    ensures PrevOf(skip, p) >= 0 ==> IsLive(skip, end, PrevOf(skip, p))
  {
    if skip[p - 1] != 0 {
      RunOfEnd(skip, end, p - 1);
    }
  }

  /** ++ and -- undo each other. */
  lemma NextAndPrevAreInverse(skip: seq<nat>, end: nat, i: nat)
    requires Runs(skip, end) && IsLive(skip, end, i)
    ensures NextOf(skip, i) <= end && PrevOf(skip, NextOf(skip, i)) == i
    ensures i > 0 && PrevOf(skip, i) >= 0 ==> NextOf(skip, PrevOf(skip, i)) == i
  {
    var n := NextOf(skip, i);
    NextIsNextLive(skip, end, i);
    PrevIsPrevLive(skip, end, n);
    if i > 0 && PrevOf(skip, i) >= 0 {
      PrevIsPrevLive(skip, end, i);
      NextIsNextLive(skip, end, PrevOf(skip, i));
    }
  }

  /** The live cells from a on, in ascending order. */
  function LiveFrom(skip: seq<nat>, end: nat, a: nat): seq<nat>
    requires end < |skip|
    decreases end - a
  {
    if a >= end then [] else (if skip[a] == 0 then [a] else []) + LiveFrom(skip, end, a + 1)
  }

  lemma {:induction false} LiveFromErased(skip: seq<nat>, end: nat, a: nat, b: nat)
    requires end < |skip| && a <= b <= end && AllErased(skip, a, b)
    ensures LiveFrom(skip, end, a) == LiveFrom(skip, end, b)
    decreases b - a
  {
    if a < b { LiveFromErased(skip, end, a + 1, b); }
  }

  /** The cells that ++ visits from a live cell, or from the end. */
  ghost function Walk(skip: seq<nat>, end: nat, i: nat): seq<nat>
    requires Runs(skip, end) && i <= end && skip[i] == 0
    decreases end - i
  {
    if i == end then []
    else
      NextIsNextLive(skip, end, i);
      [i] + Walk(skip, end, NextOf(skip, i))
  }

  lemma {:induction false} WalkVisitsTheLive(skip: seq<nat>, end: nat, i: nat)
    requires Runs(skip, end) && i <= end && skip[i] == 0
    ensures Walk(skip, end, i) == LiveFrom(skip, end, i)
    decreases end - i
  {
    if i < end {
      NextIsNextLive(skip, end, i);
      WalkVisitsTheLive(skip, end, NextOf(skip, i));
      LiveFromErased(skip, end, i + 1, NextOf(skip, i));
    }
  }

  /** From the cell that the first skipfield number points to, ++ visits exactly the live cells, in order. */
  lemma IterationIsComplete(skip: seq<nat>, end: nat)
    requires Runs(skip, end)
    ensures skip[0] <= end && skip[skip[0]] == 0
    ensures Walk(skip, end, skip[0]) == LiveFrom(skip, end, 0)
  {
    FirstIsLive(skip, end);
    WalkVisitsTheLive(skip, end, skip[0]);
    LiveFromErased(skip, end, 0, skip[0]);
  }
}
