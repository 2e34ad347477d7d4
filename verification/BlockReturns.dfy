/**
 Where the blocks are: none is lost, and a block goes back to the free list as soon as the last of its
 elements has been taken and the consumer that counted it has finished.
 */
module BlockReturns {
  import opened Sums
  import opened Types
  import opened BlockQueue
  import opened BlockIndex
  import QueueProgress
  import WholeQueue

  /** Whoever is responsible for a block still has a reason to be. */
  ghost predicate OwnerOk<T>(o: Owner, x: nat, blocks: seq<nat>, done: set<nat>, pcs: map<Tid, Consumer>,
                             p: Producer<T>)
  {
    match o
    case Ring(b) => b < |blocks| && blocks[b] == x && !AllDone(done, b)
    case Holder(t) => t in pcs && (pcs[t].Release? || pcs[t].GiveBack?) && pcs[t].block == x
    case Filling => p.HasBlock? && p.block == x
  }

  ghost predicate OwnersOk<T>(s: State<T>) {
    forall x | x in s.owner :: OwnerOk(s.owner[x], x, s.blocks, s.done, s.pcs, s.producer)
  }

  /** Every block is on the free list or has someone responsible for it. */
  function Everywhere<T>(s: State<T>): set<nat> {
    s.free + s.owner.Keys
  }

  // ---------------------------------------------------------------- the producer

  lemma ProducerKeepsOwners<T>(s: State<T>, x: T, ok: bool, block: nat, s': State<T>)
    requires Inv(s) && OwnersOk(s) && ProducerStep(s, x, ok, block, s')
    ensures OwnersOk(s') && Everywhere(s') == Everywhere(s)
  {
    if s.producer.Insert? || s.producer.Grown? {
      InsertLeavesOwners(s, x, ok, block);
    } else if s.producer.Reserved? {
      RequisitionKeepsOwners(s, x, ok, block);
    } else if s.producer.HasBlock? {
      InstallKeepsOwners(s, x, ok, block);
    } else {
      OthersLeaveOwners(s, x, ok, block);
    }
  }

  /** Nothing that matters for the owners has changed, and the producer has no block in hand before or after. */
  ghost predicate Untouched<T>(s: State<T>, s': State<T>) {
    && s'.owner == s.owner && s'.free == s.free && s'.blocks == s.blocks && s'.done == s.done && s'.pcs == s.pcs
    && !s.producer.HasBlock? && !s'.producer.HasBlock?
  }

  lemma InsertLeavesOwners<T>(s: State<T>, x: T, ok: bool, block: nat)
    requires Shape(s) && OwnersOk(s) && (s.producer.Insert? || s.producer.Grown?)
    ensures var s' := Produce(s, x, ok, block); OwnersOk(s') && Everywhere(s') == Everywhere(s)
  {
    var y := s.producer.x;
    assert Untouched(s, StoreKey(s, y)) && Untouched(s, Grow(s, y));
    assert Untouched(s, Produce(s, x, ok, block));
  }

  lemma OthersLeaveOwners<T>(s: State<T>, x: T, ok: bool, block: nat)
    requires Shape(s) && OwnersOk(s)
    requires s.producer.Outside? || s.producer.Keyed? || s.producer.Write? || s.producer.Publish?
    ensures var s' := Produce(s, x, ok, block); OwnersOk(s') && Everywhere(s') == Everywhere(s)
  {
    assert Untouched(s, Produce(s, x, ok, block));
  }

  lemma RequisitionKeepsOwners<T>(s: State<T>, x: T, ok: bool, block: nat)
    requires Shape(s) && OwnersOk(s) && s.producer.Reserved? && (ok ==> block in s.free)
    ensures var s' := Produce(s, x, ok, block); OwnersOk(s') && Everywhere(s') == Everywhere(s)
  {
  }

  lemma InstallKeepsOwners<T>(s: State<T>, x: T, ok: bool, block: nat)
    requires Inv(s) && OwnersOk(s) && s.producer.HasBlock?
    ensures var s' := Produce(s, x, ok, block); OwnersOk(s') && Everywhere(s') == Everywhere(s)
  {
    NothingDoneYet(s.done, |s.blocks|);
  }

  // ---------------------------------------------------------------- the consumers

  lemma FullBlock(done: set<nat>, b: nat)
    requires AllDone(done, b)
    ensures |DoneIn(done, b)| >= BLOCK_SIZE
  {
    var all := Span(BLOCK_SIZE * b, BLOCK_SIZE);
    SpanSize(BLOCK_SIZE * b, BLOCK_SIZE);
    assert all <= DoneIn(done, b);
    SubsetSize(all, DoneIn(done, b));
  }

  lemma AtMostFull(done: set<nat>, b: nat)
    ensures |DoneIn(done, b)| <= BLOCK_SIZE
  {
    var all := Span(BLOCK_SIZE * b, BLOCK_SIZE);
    SpanSize(BLOCK_SIZE * b, BLOCK_SIZE);
    assert DoneIn(done, b) <= all;
    SubsetSize(DoneIn(done, b), all);
  }

  /** A consumer that does not count: it changes its own place, and may give the block it holds back. */
  lemma MovingKeepsOwners<T>(s: State<T>, t: Tid, s': State<T>)
    requires OwnersOk(s) && t in s.pcs && t in s'.pcs && s'.pcs == s.pcs[t := s'.pcs[t]]
    requires s'.owner == s.owner && s'.free == s.free && s'.blocks == s.blocks && s'.done == s.done
    requires s'.producer == s.producer
    requires s.pcs[t].Release? || s.pcs[t].GiveBack? ==> s'.pcs[t] == GiveBack(s.pcs[t].block)
    ensures OwnersOk(s') && Everywhere(s') == Everywhere(s)
  {
  }

  lemma GiveBackKeepsOwners<T>(s: State<T>, t: Tid)
    requires Inv(s) && OwnersOk(s) && t in s.pcs && s.pcs[t].GiveBack?
    ensures OwnersOk(Consume(s, t)) && Everywhere(Consume(s, t)) == Everywhere(s)
  {
    assert ReleasePc(s.pcs[t], t, s.owner, s.vals, s.slots, |s.blocks|, s.lo, s.done);
    GivenBack(s, t, Consume(s, t));
  }

  lemma GivenBack<T>(s: State<T>, t: Tid, s': State<T>)
    requires OwnersOk(s) && t in s.pcs && s.pcs[t].GiveBack?
    requires s.pcs[t].block in s.owner && s.owner[s.pcs[t].block] == Holder(t)
    requires s'.free == s.free + {s.pcs[t].block} && s'.owner == s.owner - {s.pcs[t].block}
    requires s'.blocks == s.blocks && s'.done == s.done && s'.producer == s.producer && s'.pcs == s.pcs[t := Idle]
    ensures OwnersOk(s') && Everywhere(s') == Everywhere(s)
  {
    forall x | x in s'.owner ensures OwnerOk(s'.owner[x], x, s'.blocks, s'.done, s'.pcs, s'.producer) {
      assert OwnerOk(s.owner[x], x, s.blocks, s.done, s.pcs, s.producer);
    }
  }

  lemma CountKeepsOwners<T>(s: State<T>, t: Tid)
    requires Inv(s) && OwnersOk(s) && t in s.pcs && s.pcs[t].Count?
    ensures OwnersOk(Consume(s, t)) && Everywhere(Consume(s, t)) == Everywhere(s)
  {
    CountsOwnBlock(s, t);
    CountedOwners(s, t, s.pcs[t].i, s.pcs[t].e, s.pcs[t].block);
  }

  lemma CountedOwners<T>(s: State<T>, t: Tid, i: nat, e: nat, block: nat)
    requires OwnersOk(s) && Counting(s, t, i, e, block)
    ensures var s' := CountDown(s, t, i, e, block); OwnersOk(s') && Everywhere(s') == Everywhere(s)
  {
    var s', b := CountDown(s, t, i, e, block), i / BLOCK_SIZE;
    assert s'.owner.Keys == s.owner.Keys;
    OneMoreDone(s.done, i, b);
    forall x | x in s'.owner ensures OwnerOk(s'.owner[x], x, s'.blocks, s'.done, s'.pcs, s'.producer) {
      assert OwnerOk(s.owner[x], x, s.blocks, s.done, s.pcs, s.producer);
      if s.owner[x].Ring? {
        if s.owner[x].b == b {
          assert x == block;
          if s'.owner[x].Ring? && AllDone(s'.done, b) {
            FullBlock(s'.done, b);
            AtMostFull(s'.done, b);
          }
        } else if AllDone(s'.done, s.owner[x].b) {
          OtherBlockNotDone(s.done, i, s.owner[x].b);
        }
      }
    }
  }

  lemma OtherBlockNotDone(done: set<nat>, i: nat, b: nat)
    requires i / BLOCK_SIZE != b && AllDone(done + {i}, b)
    ensures AllDone(done, b)
  {
    forall j | BLOCK_SIZE * b <= j < BLOCK_SIZE * (b + 1) ensures j in done {
      assert j in done + {i} && j / BLOCK_SIZE == b;
    }
  }

  lemma ConsumerKeepsOwners<T>(s: State<T>, t: Tid)
    requires Inv(s) && OwnersOk(s) && t in s.pcs
    ensures OwnersOk(Consume(s, t)) && Everywhere(Consume(s, t)) == Everywhere(s)
  {
    NoFault(s, t);
    QueueProgress.ConsumerAdvances(s, t);
    if s.pcs[t].Count? {
      CountKeepsOwners(s, t);
    } else if s.pcs[t].GiveBack? {
      GiveBackKeepsOwners(s, t);
    } else {
      OnlyMoves(s, t);
      MovingKeepsOwners(s, t, Consume(s, t));
    }
  }

  ghost predicate OnlyMoved<T>(s: State<T>, t: Tid, s': State<T>)
    requires t in s.pcs
  {
    && s'.owner == s.owner && s'.free == s.free && s'.blocks == s.blocks && s'.done == s.done
    && s'.producer == s.producer
    && (s.pcs[t].Release? ==> t in s'.pcs && s'.pcs[t] == GiveBack(s.pcs[t].block))
  }

  lemma OnlyMoves<T>(s: State<T>, t: Tid)
    requires Shape(s) && t in s.pcs && !s.pcs[t].Count? && !s.pcs[t].GiveBack?
    ensures OnlyMoved(s, t, Consume(s, t))
  {
    if WholeQueue.IsLooking(s.pcs[t]) {
      var pc := WholeQueue.LookingOnlyMoves(s, t);
    } else if s.pcs[t].Take? {
      TakesOnlyMove(s, t);
    } else {
      RestOnlyMoves(s, t);
    }
  }

  lemma TakesOnlyMove<T>(s: State<T>, t: Tid)
    requires Shape(s) && t in s.pcs && s.pcs[t].Take?
    ensures OnlyMoved(s, t, Consume(s, t))
  {
  }

  lemma RestOnlyMoves<T>(s: State<T>, t: Tid)
    requires Shape(s) && t in s.pcs && (s.pcs[t].Idle? || s.pcs[t].Release? || s.pcs[t].Fault?)
    ensures OnlyMoved(s, t, Consume(s, t))
  {
  }

  // ---------------------------------------------------------------- whole runs

  lemma StepKeepsOwners<T(!new)>(run: seq<State<T>>, k: nat)
    requires Run(run) && k + 1 < |run| && OwnersOk(run[k])
    ensures OwnersOk(run[k + 1]) && Everywhere(run[k + 1]) == Everywhere(run[k])
  {
    RunKeepsInv(run, k);
    assert Follows(run, k);
    var s, s' := run[k], run[k + 1];
    if x, ok, block :| ProducerStep(s, x, ok, block, s') {
      ProducerKeepsOwners(s, x, ok, block, s');
    } else {
      var t :| ConsumerStep(s, t, s');
      ConsumerKeepsOwners(s, t);
    }
  }

  lemma {:induction false} RunKeepsOwners<T(!new)>(run: seq<State<T>>, k: nat)
    requires Run(run) && k < |run|
    ensures OwnersOk(run[k]) && Everywhere(run[k]) == run[0].free
    decreases k
  {
    if k > 0 {
      RunKeepsOwners(run, k - 1);
      StepKeepsOwners(run, k - 1);
    }
  }

  /** A block has room for an element, or holds one that has not been taken. */
  ghost predicate InUse<T>(s: State<T>, x: nat) {
    exists b | 0 <= b < |s.blocks| :: s.blocks[b] == x && !AllDone(s.done, b)
  }

  /**
   Whenever nobody is inside an operation, the blocks that the queue started with are either in use or free
   again, and free exactly when every element they held has been taken.
   */
  lemma BlocksComeBack<T(!new)>(run: seq<State<T>>, k: nat, x: nat)
    requires Run(run) && k < |run| && x in run[0].free
    requires run[k].producer.Outside? && forall t | t in run[k].pcs :: run[k].pcs[t].Idle?
    ensures x in run[k].free <==> !InUse(run[k], x)
  {
    RunKeepsOwners(run, k);
    RunKeepsInv(run, k);
    var s := run[k];
    if x in s.owner {
      assert OwnerOk(s.owner[x], x, s.blocks, s.done, s.pcs, s.producer);
    }
    if b: nat :| b < |s.blocks| && s.blocks[b] == x && !AllDone(s.done, b) {
      assert LiveOk(s.vals, s.slots, s.lo, s.blocks[b], b, s.owner, s.counts, s.done);
    }
  }
}
