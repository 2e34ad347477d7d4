/**
 A whole dequeue: a consumer first obtains an index with its ticket, then looks up the block of that
 index and takes the element out of it. The ticket machine and the block machine run in lock step;
 each is the other's missing half, and a queue with one consumer is a plain sequence.
 */
module WholeQueue {
  import Tickets
  import BlockQueue
  import BlockIndex

  type Tid = nat

  datatype State<T> = State(tickets: Tickets.State<T>, blocks: BlockQueue.State<T>)

  /** The producer publishes an element in both views at once; its other operations only concern blocks. */
  ghost predicate ProducerStep<T(!new)>(s: State<T>, x: T, ok: bool, block: nat, s': State<T>) {
    && BlockQueue.ProducerStep(s.blocks, x, ok, block, s'.blocks)
    && s'.tickets == if s.blocks.producer.Publish?
                     then s.tickets.(elements := s.tickets.elements + [s.blocks.producer.x]) else s.tickets
  }

  /**
   A consumer claims its index in both views at once, then works on the block while the ticket view waits,
   and takes the element in both views at once. What it does to an emptied block comes after.
   */
  ghost predicate ConsumerStep<T(!new)>(s: State<T>, t: Tid, s': State<T>) {
    && t in s.tickets.pcs && t in s.blocks.pcs && BlockQueue.Shape(s.blocks)
    && var tp, bp := s.tickets.pcs[t], s.blocks.pcs[t];
       if tp.ClaimIndex? || (tp.Read? && bp.Take?) then
         s' == State(Tickets.Advance(s.tickets, t), BlockQueue.Consume(s.blocks, t))
       else if tp.Read? || (tp.Outside? && !bp.Idle?) then
         s' == s.(blocks := BlockQueue.Consume(s.blocks, t))
       else
         s' == s.(tickets := Tickets.Advance(s.tickets, t))
  }

  ghost predicate Next<T(!new)>(s: State<T>, s': State<T>) {
    || (exists x, ok, block :: ProducerStep(s, x, ok, block, s'))
    || (exists t :: ConsumerStep(s, t, s'))
  }

  ghost predicate Init<T>(s: State<T>) {
    Tickets.Init(s.tickets) && BlockQueue.Init(s.blocks) && s.tickets.pcs.Keys == s.blocks.pcs.Keys
  }

  ghost predicate Steps<T(!new)>(run: seq<State<T>>, i: nat)
    requires i + 1 < |run|
  {
    Next(run[i], run[i + 1])
  }

  ghost predicate Run<T(!new)>(run: seq<State<T>>) {
    run != [] && Init(run[0]) && forall i | 0 <= i < |run| - 1 :: Steps(run, i)
  }

  // ---------------------------------------------------------------- how the two views agree

  predicate IsReleasing(pc: BlockQueue.Consumer) {
    pc.Count? || pc.Release? || pc.GiveBack?
  }

  /** A consumer that is about to read its index in the ticket view is looking it up in the block view. */
  predicate PcsAgree(tp: Tickets.Pc, bp: BlockQueue.Consumer) {
    && (tp.Read? ==> BlockQueue.IsPending(bp, tp.index))
    && (tp.Outside? ==> bp.Idle? || IsReleasing(bp))
    && (!tp.Read? && !tp.Outside? ==> bp.Idle?)
  }

  ghost predicate Agree<T>(s: State<T>) {
    && s.tickets.elements == s.blocks.items && s.tickets.head == s.blocks.head
    && s.tickets.delivered == s.blocks.out && s.tickets.pcs.Keys == s.blocks.pcs.Keys
    && forall t | t in s.tickets.pcs :: PcsAgree(s.tickets.pcs[t], s.blocks.pcs[t])
  }

  ghost predicate Inv<T>(s: State<T>) {
    Tickets.Inv(s.tickets) && Tickets.TailsAreOld(s.tickets) && BlockQueue.Inv(s.blocks) && Agree(s)
  }

  /** The operations so far bound what has been counted. */
  ghost predicate Small<T>(s: State<T>, k: nat) {
    s.tickets.count <= k && s.tickets.Tail() <= k
  }

  // ---------------------------------------------------------------- each step keeps the agreement

  lemma ProducerKeepsInv<T(!new)>(s: State<T>, x: T, ok: bool, block: nat, s': State<T>)
    requires Inv(s) && ProducerStep(s, x, ok, block, s')
    ensures Inv(s') && (s'.tickets == s.tickets || Tickets.Enqueue(s.tickets, s'.tickets))
  {
    BlockQueue.ProduceKeepsInv(s.blocks, x, ok, block, s'.blocks);
    ProducerLeavesConsumers(s.blocks, x, ok, block, s'.blocks);
    if s.blocks.producer.Publish? {
      assert s'.tickets == s.tickets.(elements := s.tickets.elements + [s.blocks.producer.x]);
      Tickets.EnqueueKeepsInv(s.tickets, s'.tickets);
      Tickets.StepsAreSmall(s.tickets, s'.tickets);
    }
  }

  /** What consumers and the history of elements look like to the producer's operations. */
  ghost predicate SameElements<T>(b: BlockQueue.State<T>, b': BlockQueue.State<T>) {
    b'.items == b.items && b'.head == b.head && b'.out == b.out
  }

  lemma StoringLeaves<T>(b: BlockQueue.State<T>, y: T)
    requires BlockQueue.Shape(b)
    ensures SameElements(b, BlockQueue.StoreKey(b, y)) && BlockQueue.StoreKey(b, y).pcs == b.pcs
  {
  }

  lemma GrowingLeaves<T>(b: BlockQueue.State<T>, y: T)
    requires BlockQueue.Shape(b)
    ensures SameElements(b, BlockQueue.Grow(b, y)) && BlockQueue.Grow(b, y).pcs == b.pcs
  {
  }

  lemma InsertingLeaves<T>(b: BlockQueue.State<T>, x: T, ok: bool, block: nat)
    requires BlockQueue.Shape(b) && (b.producer.Insert? || b.producer.Grown?)
    ensures SameElements(b, BlockQueue.Produce(b, x, ok, block)) && BlockQueue.Produce(b, x, ok, block).pcs == b.pcs
  {
    var y := b.producer.x;
    StoringLeaves(b, y);
    GrowingLeaves(b, y);
    var b' := BlockQueue.Produce(b, x, ok, block);
    assert b' == BlockQueue.StoreKey(b, y) || b' == BlockQueue.Grow(b, y)
        || b' == b.(producer := BlockQueue.Producer<T>.Outside);
  }

  lemma MovingTailLeaves<T>(b: BlockQueue.State<T>, x: T, ok: bool, block: nat)
    requires BlockQueue.Shape(b) && (b.producer.Keyed? || b.producer.Reserved? || b.producer.HasBlock?)
    ensures SameElements(b, BlockQueue.Produce(b, x, ok, block)) && BlockQueue.Produce(b, x, ok, block).pcs == b.pcs
  {
  }

  lemma WritingLeaves<T>(b: BlockQueue.State<T>, x: T, ok: bool, block: nat)
    requires BlockQueue.Shape(b) && (b.producer.Outside? || b.producer.Write?)
    ensures SameElements(b, BlockQueue.Produce(b, x, ok, block)) && BlockQueue.Produce(b, x, ok, block).pcs == b.pcs
  {
  }

  lemma PublishingAdds<T>(b: BlockQueue.State<T>, x: T, ok: bool, block: nat)
    requires BlockQueue.Shape(b) && b.producer.Publish?
    ensures BlockQueue.Produce(b, x, ok, block)
      == b.(items := b.items + [b.producer.x], producer := BlockQueue.Producer<T>.Outside)
  {
  }

  lemma ProducerLeavesConsumers<T>(b: BlockQueue.State<T>, x: T, ok: bool, block: nat, b': BlockQueue.State<T>)
    requires BlockQueue.ProducerStep(b, x, ok, block, b')
    ensures b'.pcs == b.pcs && b'.head == b.head && b'.out == b.out
    ensures b'.items == if b.producer.Publish? then b.items + [b.producer.x] else b.items
  {
    if b.producer.Publish? {
      PublishingAdds(b, x, ok, block);
    } else if b.producer.Outside? || b.producer.Write? {
      WritingLeaves(b, x, ok, block);
    } else if b.producer.Insert? || b.producer.Grown? {
      InsertingLeaves(b, x, ok, block);
    } else {
      MovingTailLeaves(b, x, ok, block);
    }
  }

  predicate IsLooking(pc: BlockQueue.Consumer) {
    pc.LoadIndex? || pc.LoadTail? || pc.LoadBase? || pc.Find? || pc.LoadBlock?
  }

  /** Between its claim and its read a consumer only gathers what it needs. */
  lemma LookingOnlyMoves<T>(b: BlockQueue.State<T>, t: Tid) returns (pc: BlockQueue.Consumer)
    requires BlockQueue.Shape(b) && t in b.pcs && IsLooking(b.pcs[t])
    ensures BlockQueue.Consume(b, t) == BlockQueue.Move(b, t, pc)
    ensures pc.Fault? || BlockQueue.IsPending(pc, b.pcs[t].i)
  {
    if b.pcs[t].Find? || b.pcs[t].LoadBlock? {
      pc := FindingOnlyMoves(b, t);
    } else {
      pc := LoadingOnlyMoves(b, t);
    }
  }

  lemma LoadingOnlyMoves<T>(b: BlockQueue.State<T>, t: Tid) returns (pc: BlockQueue.Consumer)
    requires BlockQueue.Shape(b) && t in b.pcs
    requires b.pcs[t].LoadIndex? || b.pcs[t].LoadTail? || b.pcs[t].LoadBase?
    ensures BlockQueue.Consume(b, t) == BlockQueue.Move(b, t, pc)
    ensures pc.Fault? || BlockQueue.IsPending(pc, b.pcs[t].i)
  {
    pc := BlockQueue.Consume(b, t).pcs[t];
  }

  lemma FindingOnlyMoves<T>(b: BlockQueue.State<T>, t: Tid) returns (pc: BlockQueue.Consumer)
    requires BlockQueue.Shape(b) && t in b.pcs && (b.pcs[t].Find? || b.pcs[t].LoadBlock?)
    ensures BlockQueue.Consume(b, t) == BlockQueue.Move(b, t, pc)
    ensures pc.Fault? || BlockQueue.IsPending(pc, b.pcs[t].i)
  {
    pc := BlockQueue.Consume(b, t).pcs[t];
  }

  /** After its read it only looks after the block. */
  lemma ReleasingOnlyMoves<T>(b: BlockQueue.State<T>, t: Tid) returns (pc: BlockQueue.Consumer)
    requires BlockQueue.Shape(b) && t in b.pcs && IsReleasing(b.pcs[t])
    ensures SameElements(b, BlockQueue.Consume(b, t)) && BlockQueue.Consume(b, t).pcs == b.pcs[t := pc]
    ensures pc.Release? || pc.GiveBack? || pc.Idle?
  {
    pc := BlockQueue.Consume(b, t).pcs[t];
  }

  /** A consumer's operation other than a claim or a read. */
  lemma OnlyPlaceMoves<T>(b: BlockQueue.State<T>, t: Tid) returns (pc: BlockQueue.Consumer)
    requires BlockQueue.Shape(b) && t in b.pcs && (IsLooking(b.pcs[t]) || IsReleasing(b.pcs[t]))
    ensures SameElements(b, BlockQueue.Consume(b, t)) && BlockQueue.Consume(b, t).pcs == b.pcs[t := pc]
    ensures IsLooking(b.pcs[t]) ==> pc.Fault? || BlockQueue.IsPending(pc, b.pcs[t].i)
    ensures IsReleasing(b.pcs[t]) ==> pc.Release? || pc.GiveBack? || pc.Idle?
  {
    if IsLooking(b.pcs[t]) {
      pc := LookingOnlyMoves(b, t);
    } else {
      pc := ReleasingOnlyMoves(b, t);
    }
  }

  lemma ConsumeKeepsPcs<T>(b: BlockQueue.State<T>, t: Tid)
    requires BlockQueue.Shape(b) && t in b.pcs
    ensures BlockQueue.Consume(b, t).pcs.Keys == b.pcs.Keys
  {
    if IsLooking(b.pcs[t]) || IsReleasing(b.pcs[t]) {
      var pc := OnlyPlaceMoves(b, t);
    }
  }

  /** The claim: the ticket that passed guarantees an element at the head, which is what the block view needs. */
  lemma ClaimKeepsInv<T(!new)>(s: State<T>, t: Tid, s': State<T>)
    requires Inv(s) && t in s.tickets.pcs && s.tickets.pcs[t].ClaimIndex?
    requires s' == State(Tickets.Advance(s.tickets, t), BlockQueue.Consume(s.blocks, t))
    ensures Inv(s')
  {
    Tickets.ClaimKeepsInv(s.tickets, t);
    BlockQueue.ConsumeKeepsInv(s.blocks, t);
    assert PcsAgree(s.tickets.pcs[t], s.blocks.pcs[t]);
    OneTicketMoves(s.tickets, t);
    ClaimAgrees(s, t, s');
  }

  lemma ClaimAgrees<T(!new)>(s: State<T>, t: Tid, s': State<T>)
    requires Agree(s) && BlockQueue.Shape(s.blocks) && t in s.tickets.pcs && s.tickets.pcs[t].ClaimIndex?
    requires s.tickets.head < s.tickets.Tail()
    requires s' == State(Tickets.Advance(s.tickets, t), BlockQueue.Consume(s.blocks, t))
    ensures Agree(s')
  {
    assert PcsAgree(s.tickets.pcs[t], s.blocks.pcs[t]);
    forall u | u in s'.tickets.pcs ensures PcsAgree(s'.tickets.pcs[u], s'.blocks.pcs[u]) {
      assert PcsAgree(s.tickets.pcs[u], s.blocks.pcs[u]);
    }
  }

  /** Only the thread that moves changes its place, and what it has loaded stays old. */
  lemma OneTicketMoves<T(!new)>(tk: Tickets.State<T>, t: Tid)
    requires t in tk.pcs && Tickets.TailsAreOld(tk)
    ensures Tickets.TailsAreOld(Tickets.Advance(tk, t))
    ensures Tickets.Advance(tk, t).count <= tk.count + 1 && Tickets.Advance(tk, t).elements == tk.elements
  {
    assert Tickets.Next(tk, Tickets.Advance(tk, t));
    Tickets.StepsAreSmall(tk, Tickets.Advance(tk, t));
  }

  /** The read: what is taken out of the block is the element that the ticket view delivers. */
  lemma TakeKeepsInv<T(!new)>(s: State<T>, t: Tid, s': State<T>)
    requires Inv(s) && t in s.tickets.pcs && s.tickets.pcs[t].Read? && s.blocks.pcs[t].Take?
    requires s' == State(Tickets.Advance(s.tickets, t), BlockQueue.Consume(s.blocks, t))
    ensures Inv(s')
  {
    assert PcsAgree(s.tickets.pcs[t], s.blocks.pcs[t]);
    Tickets.ReadKeepsInv(s.tickets, t);
    BlockQueue.ConsumeKeepsInv(s.blocks, t);
    BlockQueue.TakeReadsTheElement(s.blocks, t);
    OneTicketMoves(s.tickets, t);
    TakeAgrees(s, t, s');
  }

  lemma TakeAgrees<T(!new)>(s: State<T>, t: Tid, s': State<T>)
    requires Agree(s) && BlockQueue.Shape(s.blocks) && t in s.tickets.pcs
    requires s.tickets.pcs[t].Read? && s.blocks.pcs[t].Take?
    requires var pc := s.blocks.pcs[t];
      && pc.i < |s.blocks.items| && (pc.block, pc.i % BlockIndex.BLOCK_SIZE) in s.blocks.mem
      && s.blocks.mem[(pc.block, pc.i % BlockIndex.BLOCK_SIZE)] == s.blocks.items[pc.i]
    requires s' == State(Tickets.Advance(s.tickets, t), BlockQueue.Consume(s.blocks, t))
    ensures Agree(s')
  {
    assert PcsAgree(s.tickets.pcs[t], s.blocks.pcs[t]);
    forall u | u in s'.tickets.pcs ensures PcsAgree(s'.tickets.pcs[u], s'.blocks.pcs[u]) {
      assert PcsAgree(s.tickets.pcs[u], s.blocks.pcs[u]);
    }
  }

  lemma LookupKeepsInv<T(!new)>(s: State<T>, t: Tid, s': State<T>)
    requires Inv(s) && t in s.tickets.pcs && !s.blocks.pcs[t].Take?
    requires s.tickets.pcs[t].Read? || (s.tickets.pcs[t].Outside? && !s.blocks.pcs[t].Idle?)
    requires s' == s.(blocks := BlockQueue.Consume(s.blocks, t))
    ensures Inv(s')
  {
    BlockQueue.ConsumeKeepsInv(s.blocks, t);
    ConsumeKeepsPcs(s.blocks, t);
    BlockQueue.NoFault(s'.blocks, t);
    LookupAgrees(s, t, s');
  }

  lemma LookupAgrees<T>(s: State<T>, t: Tid, s': State<T>)
    requires Agree(s) && BlockQueue.Shape(s.blocks) && t in s.tickets.pcs && !s.blocks.pcs[t].Take?
    requires s.tickets.pcs[t].Read? || (s.tickets.pcs[t].Outside? && !s.blocks.pcs[t].Idle?)
    requires s' == s.(blocks := BlockQueue.Consume(s.blocks, t)) && t in s'.blocks.pcs && !s'.blocks.pcs[t].Fault?
    ensures Agree(s')
  {
    assert PcsAgree(s.tickets.pcs[t], s.blocks.pcs[t]);
    var pc := OnlyPlaceMoves(s.blocks, t);
    OthersAgree(s, t, pc);
  }

  lemma OthersAgree<T>(s: State<T>, t: Tid, pc: BlockQueue.Consumer)
    requires Agree(s) && t in s.tickets.pcs && PcsAgree(s.tickets.pcs[t], pc)
    ensures forall u | u in s.tickets.pcs :: PcsAgree(s.tickets.pcs[u], s.blocks.pcs[t := pc][u])
  {
  }

  lemma TicketKeepsInv<T(!new)>(s: State<T>, t: Tid, s': State<T>)
    requires Inv(s) && Tickets.ComparesNear(s.tickets) && t in s.tickets.pcs && s.blocks.pcs[t].Idle?
    requires !s.tickets.pcs[t].ClaimIndex? && !s.tickets.pcs[t].Read?
    requires s' == s.(tickets := Tickets.Advance(s.tickets, t))
    ensures Inv(s')
  {
    Tickets.AdvanceKeepsInv(s.tickets, t);
    OneTicketMoves(s.tickets, t);
    TicketAgrees(s, t, s');
  }

  lemma TicketAgrees<T>(s: State<T>, t: Tid, s': State<T>)
    requires Agree(s) && t in s.tickets.pcs && s.blocks.pcs[t].Idle?
    requires !s.tickets.pcs[t].ClaimIndex? && !s.tickets.pcs[t].Read?
    requires s' == s.(tickets := Tickets.Advance(s.tickets, t))
    ensures Agree(s')
  {
    forall u | u in s'.tickets.pcs ensures PcsAgree(s'.tickets.pcs[u], s'.blocks.pcs[u]) {
      assert PcsAgree(s.tickets.pcs[u], s.blocks.pcs[u]);
    }
  }

  lemma ConsumerKeepsInv<T(!new)>(s: State<T>, t: Tid, s': State<T>)
    requires Inv(s) && Tickets.ComparesNear(s.tickets) && ConsumerStep(s, t, s')
    ensures Inv(s')
  {
    var tp, bp := s.tickets.pcs[t], s.blocks.pcs[t];
    assert PcsAgree(tp, bp);
    if tp.ClaimIndex? {
      ClaimKeepsInv(s, t, s');
    } else if tp.Read? && bp.Take? {
      TakeKeepsInv(s, t, s');
    } else if tp.Read? || !bp.Idle? {
      LookupKeepsInv(s, t, s');
    } else {
      TicketKeepsInv(s, t, s');
    }
  }

  // ---------------------------------------------------------------- the two views are refinements

  /** Every step of the whole queue is a step, or no step, of each of its two views. */
  lemma StepsProject<T(!new)>(s: State<T>, s': State<T>)
    requires Inv(s) && Next(s, s')
    ensures s'.tickets == s.tickets || Tickets.Next(s.tickets, s'.tickets)
    ensures s'.blocks == s.blocks || BlockQueue.Next(s.blocks, s'.blocks)
  {
    if x, ok, block :| ProducerStep(s, x, ok, block, s') {
      ProducerKeepsInv(s, x, ok, block, s');
    } else {
      var t :| ConsumerStep(s, t, s');
      if s'.blocks != s.blocks {
        assert BlockQueue.ConsumerStep(s.blocks, t, s'.blocks);
      }
    }
  }

  lemma NextKeepsInv<T(!new)>(s: State<T>, s': State<T>, k: nat)
    requires Inv(s) && Next(s, s') && Small(s, k) && k + 1 < Tickets.RANGE / 2
    ensures Inv(s') && Small(s', k + 1)
  {
    Tickets.SmallCountersCompareNear(s.tickets);
    StepsProject(s, s');
    if Tickets.Next(s.tickets, s'.tickets) {
      Tickets.StepsAreSmall(s.tickets, s'.tickets);
    }
    if x, ok, block :| ProducerStep(s, x, ok, block, s') {
      ProducerKeepsInv(s, x, ok, block, s');
    } else {
      var t :| ConsumerStep(s, t, s');
      ConsumerKeepsInv(s, t, s');
    }
  }

  lemma InitIsInv<T>(s: State<T>)
    requires Init(s)
    ensures Inv(s) && Small(s, 0)
  {
    Tickets.InitIsInv(s.tickets);
    BlockQueue.InitIsInv(s.blocks);
    InitAgrees(s);
  }

  lemma InitAgrees<T>(s: State<T>)
    requires Init(s)
    ensures Agree(s) && Tickets.TailsAreOld(s.tickets)
  {
  }

  lemma StepKeepsInv<T(!new)>(run: seq<State<T>>, k: nat)
    requires 0 < k < |run| < Tickets.RANGE / 2 && Steps(run, k - 1) && Inv(run[k - 1]) && Small(run[k - 1], k - 1)
    ensures Inv(run[k]) && Small(run[k], k)
  {
    NextKeepsInv(run[k - 1], run[k], k - 1);
  }

  lemma {:induction false} RunKeepsInv<T(!new)>(run: seq<State<T>>, k: nat)
    requires Run(run) && k < |run| < Tickets.RANGE / 2
    ensures Inv(run[k]) && Small(run[k], k)
    decreases k
  {
    if k == 0 {
      InitIsInv(run[0]);
    } else {
      RunKeepsInv(run, k - 1);
      assert Steps(run, k - 1);
      StepKeepsInv(run, k);
    }
  }

  /**
   In every run of fewer than 2^63 operations: a dequeue that passes its ticket check gets the element
   enqueued at its index, from a block that is still there; no lookup fails, and no element is read twice.
   */
  lemma DequeueGetsItsElement<T(!new)>(run: seq<State<T>>, k: nat, t: Tid)
    requires Run(run) && k < |run| < Tickets.RANGE / 2 && t in run[k].blocks.pcs
    ensures !run[k].blocks.pcs[t].Fault?
    ensures run[k].blocks.pcs[t].Take? ==>
      var pc := run[k].blocks.pcs[t];
      && t in run[k].tickets.pcs && run[k].tickets.pcs[t].Read? && run[k].tickets.pcs[t].index == pc.i
      && pc.i < run[k].tickets.Tail() && pc.i !in run[k].tickets.delivered
      && (pc.block, pc.i % BlockIndex.BLOCK_SIZE) in run[k].blocks.mem
      && run[k].blocks.mem[(pc.block, pc.i % BlockIndex.BLOCK_SIZE)] == run[k].tickets.elements[pc.i]
  {
    RunKeepsInv(run, k);
    var s := run[k];
    BlockQueue.NoFault(s.blocks, t);
    assert PcsAgree(s.tickets.pcs[t], s.blocks.pcs[t]);
    if s.blocks.pcs[t].Take? {
      BlockQueue.TakeReadsTheElement(s.blocks, t);
    }
  }

  /** When nobody is inside a dequeue, exactly the elements below the head have come out, each as it went in. */
  lemma QuietQueueIsFifo<T(!new)>(run: seq<State<T>>, k: nat)
    requires Run(run) && k < |run| < Tickets.RANGE / 2
    requires forall t | t in run[k].tickets.pcs :: run[k].tickets.pcs[t].Outside?
    ensures var s := run[k];
      && s.tickets.head <= s.tickets.Tail() && s.tickets.count == s.tickets.head + s.tickets.over
      && (forall i: nat :: i in s.blocks.out <==> i < s.tickets.head)
      && (forall i | i in s.blocks.out :: s.blocks.out[i] == s.tickets.elements[i])
  {
    RunKeepsInv(run, k);
    var s := run[k];
    assert Tickets.InFlight(s.tickets.pcs) == {};
    forall i: nat | i < s.tickets.head ensures i in s.blocks.out {
      if i !in s.blocks.out {
        assert BlockQueue.IsOpen(s.blocks.claims, s.blocks.pcs, i);
        OpenMeansReading(s, i);
      }
    }
  }

  lemma OpenMeansReading<T>(s: State<T>, i: nat)
    requires Agree(s) && BlockQueue.IsOpen(s.blocks.claims, s.blocks.pcs, i)
    ensures var t := s.blocks.claims[i]; t in s.tickets.pcs && s.tickets.pcs[t].Read?
  {
    var t := s.blocks.claims[i];
    assert PcsAgree(s.tickets.pcs[t], s.blocks.pcs[t]);
  }

  // ---------------------------------------------------------------- one consumer: a plain sequence

  /** What the only consumer of a queue has taken so far, and what is still in the queue. */
  function Taken<T>(b: BlockQueue.State<T>): seq<T> {
    if |b.out| <= |b.items| then b.items[..|b.out|] else b.items
  }

  function Waiting<T>(b: BlockQueue.State<T>): seq<T> {
    if |b.out| <= |b.items| then b.items[|b.out|..] else []
  }

  /** The only consumer works on the newest index, and all before it have come out. */
  ghost predicate Lone<T>(b: BlockQueue.State<T>, t: Tid) {
    && b.pcs.Keys == {t}
    && (BlockQueue.HasIndex(b.pcs[t]) ==> b.pcs[t].i + 1 == b.head)
  }

  lemma LoneOut<T>(b: BlockQueue.State<T>, t: Tid, n: nat)
    requires BlockQueue.ClaimsOk(b) && Lone(b, t)
    requires n == if BlockQueue.HasIndex(b.pcs[t]) && !b.pcs[t].Count? then b.head - 1 else b.head
    ensures forall i: nat :: i in b.out <==> i < n
  {
    assert BlockQueue.ClaimPc(b.pcs[t], t, b.head, b.claims, b.done, b.out);
    forall i: nat ensures i in b.out <==> i < n {
      if i < b.head && i !in b.out {
        assert BlockQueue.IsOpen(b.claims, b.pcs, i);
      }
    }
  }

  /** How many elements have come out: all below the head, but for one that is being looked up. */
  lemma LoneCount<T>(b: BlockQueue.State<T>, t: Tid)
    requires BlockQueue.Inv(b) && Lone(b, t)
    ensures var n := if BlockQueue.HasIndex(b.pcs[t]) && !b.pcs[t].Count? then b.head - 1 else b.head;
      && |b.out| == n <= |b.items| && b.out.Keys == BlockQueue.Span(0, n)
  {
    var n: nat := if BlockQueue.HasIndex(b.pcs[t]) && !b.pcs[t].Count? then b.head - 1 else b.head;
    LoneOut(b, t, n);
    assert b.out.Keys == BlockQueue.Span(0, n);
    BlockQueue.SpanSize(0, n);
  }

  /** What one step of the queue does for its only consumer. */
  ghost predicate SequenceStep<T(!new)>(b: BlockQueue.State<T>, b': BlockQueue.State<T>) {
    || (Taken(b') == Taken(b) && Waiting(b') == Waiting(b))
    || (Taken(b') == Taken(b) && exists x :: Waiting(b') == Waiting(b) + [x])
    || (Waiting(b) != [] && Taken(b') == Taken(b) + [Waiting(b)[0]] && Waiting(b') == Waiting(b)[1..])
  }

  /**
   With one consumer the queue is the sequence that the bucket threads of the exchange rely on: each step
   leaves it alone, puts a new element at its end, or takes the element at its front.
   */
  lemma LoneConsumerSeesASequence<T(!new)>(b: BlockQueue.State<T>, t: Tid, b': BlockQueue.State<T>)
    requires BlockQueue.Inv(b) && Lone(b, t) && BlockQueue.Next(b, b')
    ensures Lone(b', t) && SequenceStep(b, b')
  {
    LoneCount(b, t);
    BlockQueue.NextKeepsInv(b, b');
    if x, ok, block :| BlockQueue.ProducerStep(b, x, ok, block, b') {
      ProducerLeavesConsumers(b, x, ok, block, b');
      LoneEnqueue(b, t, b');
    } else {
      var u :| BlockQueue.ConsumerStep(b, u, b');
      LoneStep(b, t, b');
    }
  }

  lemma LoneStep<T>(b: BlockQueue.State<T>, t: Tid, b': BlockQueue.State<T>)
    requires BlockQueue.Inv(b) && Lone(b, t) && b' == BlockQueue.Consume(b, t) && BlockQueue.Inv(b')
    ensures Lone(b', t)
    ensures || (Taken(b') == Taken(b) && Waiting(b') == Waiting(b))
            || (Waiting(b) != [] && Taken(b') == Taken(b) + [Waiting(b)[0]] && Waiting(b') == Waiting(b)[1..])
  {
    ConsumeKeepsPcs(b, t);
    BlockQueue.NoFault(b, t);
    BlockQueue.NoFault(b', t);
    LoneMove(b, t, b');
    LoneProgress(b, t, b');
    LoneCount(b', t);
    LoneDequeue(b, t, b');
  }

  lemma LoneEnqueue<T(!new)>(b: BlockQueue.State<T>, t: Tid, b': BlockQueue.State<T>)
    requires Lone(b, t) && |b.out| <= |b.items| && b'.pcs == b.pcs && b'.head == b.head && b'.out == b.out
    requires b'.items == if b.producer.Publish? then b.items + [b.producer.x] else b.items
    ensures Lone(b', t) && Taken(b') == Taken(b)
    ensures Waiting(b') == Waiting(b) || exists x :: Waiting(b') == Waiting(b) + [x]
  {
    if b.producer.Publish? {
      assert Waiting(b') == Waiting(b) + [b.producer.x];
    }
  }

  lemma LoneMove<T>(b: BlockQueue.State<T>, t: Tid, b': BlockQueue.State<T>)
    requires BlockQueue.Shape(b) && Lone(b, t) && b' == BlockQueue.Consume(b, t) && !b.pcs[t].Fault?
    requires b'.pcs.Keys == b.pcs.Keys && !b'.pcs[t].Fault?
    ensures Lone(b', t) && b'.items == b.items
  {
    if IsLooking(b.pcs[t]) || IsReleasing(b.pcs[t]) {
      var pc := OnlyPlaceMoves(b, t);
    } else if b.pcs[t].Take? {
      TakeMoves(b, t);
    } else {
      IdleMoves(b, t);
    }
  }

  lemma TakeMoves<T>(b: BlockQueue.State<T>, t: Tid)
    requires BlockQueue.Shape(b) && t in b.pcs && b.pcs[t].Take?
    ensures var b' := BlockQueue.Consume(b, t);
      && b'.items == b.items && b'.head == b.head && t in b'.pcs
      && (b'.pcs[t].Fault? || (b'.pcs[t].Count? && b'.pcs[t].i == b.pcs[t].i))
  {
  }

  lemma IdleMoves<T>(b: BlockQueue.State<T>, t: Tid)
    requires BlockQueue.Shape(b) && t in b.pcs && b.pcs[t].Idle?
    ensures var b' := BlockQueue.Consume(b, t);
      && b'.items == b.items && b'.out == b.out && t in b'.pcs
      && (b'.pcs[t].Idle? || (b'.pcs[t] == BlockQueue.Consumer.LoadIndex(b.head) && b'.head == b.head + 1))
  {
  }

  /** From the number of elements that have come out before and after an operation of the only consumer. */
  lemma LoneProgress<T>(b: BlockQueue.State<T>, t: Tid, b': BlockQueue.State<T>)
    requires BlockQueue.Shape(b) && t in b.pcs && b' == BlockQueue.Consume(b, t) && !b.pcs[t].Fault?
    ensures |b.out| <= |b'.out| <= |b.out| + 1
  {
    if IsLooking(b.pcs[t]) || IsReleasing(b.pcs[t]) {
      var pc := OnlyPlaceMoves(b, t);
    } else if b.pcs[t].Take? {
      TakeAddsOne(b, t);
    } else {
      IdleMoves(b, t);
    }
  }

  lemma TakeAddsOne<T>(b: BlockQueue.State<T>, t: Tid)
    requires BlockQueue.Shape(b) && t in b.pcs && b.pcs[t].Take?
    ensures |b.out| <= |BlockQueue.Consume(b, t).out| <= |b.out| + 1
  {
    var pc := b.pcs[t];
    if (pc.block, pc.i % BlockIndex.BLOCK_SIZE) in b.mem {
      SizeAfterPut(b.out, pc.i, b.mem[(pc.block, pc.i % BlockIndex.BLOCK_SIZE)]);
    }
  }

  lemma SizeAfterPut<K, V>(m: map<K, V>, k: K, v: V)
    ensures |m| <= |m[k := v]| <= |m| + 1
  {
    assert m[k := v].Keys == m.Keys + {k};
    if k in m {
      assert m[k := v].Keys == m.Keys;
    }
  }

  lemma LoneDequeue<T>(b: BlockQueue.State<T>, t: Tid, b': BlockQueue.State<T>)
    requires b'.items == b.items && |b.out| <= |b'.out| <= |b.items| && |b'.out| <= |b.out| + 1
    ensures || (Taken(b') == Taken(b) && Waiting(b') == Waiting(b))
            || (Waiting(b) != [] && Taken(b') == Taken(b) + [Waiting(b)[0]] && Waiting(b') == Waiting(b)[1..])
  {
  }

  lemma LoneStart<T>(b: BlockQueue.State<T>, t: Tid)
    requires BlockQueue.Init(b) && b.pcs.Keys == {t}
    ensures Lone(b, t)
  {
    assert t in b.pcs;
  }

  lemma LoneFollows<T(!new)>(run: seq<State<T>>, k: nat, t: Tid)
    requires Run(run) && k + 1 < |run| < Tickets.RANGE / 2 && Lone(run[k].blocks, t)
    ensures Lone(run[k + 1].blocks, t) && SequenceStep(run[k].blocks, run[k + 1].blocks)
  {
    RunKeepsInv(run, k);
    assert Steps(run, k);
    StepsProject(run[k], run[k + 1]);
    if run[k + 1].blocks != run[k].blocks {
      LoneConsumerSeesASequence(run[k].blocks, t, run[k + 1].blocks);
    }
  }

  lemma {:induction false} RunStaysLone<T(!new)>(run: seq<State<T>>, k: nat, t: Tid)
    requires Run(run) && k < |run| < Tickets.RANGE / 2 && run[0].blocks.pcs.Keys == {t}
    ensures Lone(run[k].blocks, t)
    decreases k
  {
    if k == 0 {
      LoneStart(run[0].blocks, t);
    } else {
      RunStaysLone(run, k - 1, t);
      LoneFollows(run, k - 1, t);
    }
  }

  /**
   In every run of fewer than 2^63 operations with one consumer, every step is a step of a plain sequence,
   although the consumer claims by ticket and looks its blocks up operation by operation.
   */
  lemma LoneRunIsASequence<T(!new)>(run: seq<State<T>>, k: nat, t: Tid)
    requires Run(run) && k + 1 < |run| < Tickets.RANGE / 2 && run[0].blocks.pcs.Keys == {t}
    ensures SequenceStep(run[k].blocks, run[k + 1].blocks)
  {
    RunStaysLone(run, k, t);
    LoneFollows(run, k, t);
  }
}
