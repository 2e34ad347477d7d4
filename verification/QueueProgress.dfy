/**
 What the block machine achieves, and not only what it avoids: an enqueue ends after a few operations of the
 producer with its element in the queue unless an allocation fails, a dequeue that has claimed an index ends
 after a few operations of its thread with the element of that index, whatever the others do in between.
 */
module QueueProgress {
  import opened Sums
  import opened Types
  import opened BlockQueue
  import opened BlockIndex
  import WholeQueue

  // ---------------------------------------------------------------- one operation

  /** The operations an enqueue still has before it, at most. */
  function ProducerLeft<T>(p: Producer<T>): nat {
    match p
    case Outside => 0
    case Publish(_) => 1
    case Write(_) => 2
    case HasBlock(_, _, _) => 3
    case Reserved(_, _) => 4
    case Keyed(_, _, _) => 5
    case Grown(_) => 6
    case Insert(_) => 7
  }

  /** The operations a dequeue still has before it, at most. */
  function ConsumerLeft(pc: Consumer): nat {
    match pc
    case Idle => 0
    case GiveBack(_) => 1
    case Release(_, _, _) => 2
    case Count(_, _, _) => 3
    case Take(_, _, _) => 4
    case LoadBlock(_, _) => 5
    case Find(_, _, _, _, _) => 6
    case LoadBase(_, _, _, _) => 7
    case LoadTail(_, _) => 8
    case LoadIndex(_) => 9
    case Fault => 10
  }

  /** An allocation that the producer needs fails: of a larger ring, or of a block. */
  predicate AllocationFails<T>(s: State<T>, ok: bool)
    requires Shape(s)
  {
    var e := Last(s.headers).index[NextPlace(Last(s.headers))];
    !ok && (s.producer.Reserved? || (s.producer.Insert? && s.keys[e] != INVALID && s.vals[e].Some?))
  }

  /** How an enqueue of y goes on after one operation of the producer. */
  ghost predicate Advanced<T>(s: State<T>, ok: bool, s': State<T>)
    requires Shape(s) && !s.producer.Outside?
  {
    if AllocationFails(s, ok) then s'.producer.Outside? && s'.items == s.items
    else if s.producer.Publish? then s'.producer.Outside? && s'.items == s.items + [s.producer.x]
    else !s'.producer.Outside? && s'.producer.x == s.producer.x && s'.items == s.items
         && ProducerLeft(s'.producer) < ProducerLeft(s.producer)
  }

  /** The producer's own operation brings its enqueue nearer to its end. */
  lemma ProducerAdvances<T>(s: State<T>, x: T, ok: bool, block: nat, s': State<T>)
    requires ProducerStep(s, x, ok, block, s')
    ensures s.producer.Outside? ==> !s'.producer.Outside? && s'.producer.x == x && s'.items == s.items
    ensures !s.producer.Outside? ==> Advanced(s, ok, s')
  {
    if s.producer.Outside? {
      EnqueueStarts(s, x, ok, block);
    } else if s.producer.Insert? || s.producer.Grown? {
      InsertAdvances(s, x, ok, block);
    } else if s.producer.Keyed? || s.producer.Reserved? || s.producer.HasBlock? {
      BlockAdvances(s, x, ok, block);
    } else {
      ElementAdvances(s, x, ok, block);
    }
  }

  lemma EnqueueStarts<T>(s: State<T>, x: T, ok: bool, block: nat)
    requires Shape(s) && s.producer.Outside?
    ensures var s' := Produce(s, x, ok, block); !s'.producer.Outside? && s'.producer.x == x && s'.items == s.items
  {
  }

  lemma InsertAdvances<T>(s: State<T>, x: T, ok: bool, block: nat)
    requires Shape(s) && (s.producer.Insert? || s.producer.Grown?)
    ensures Advanced(s, ok, Produce(s, x, ok, block))
  {
    var y := s.producer.x;
    assert StoreKey(s, y).producer.Keyed? && StoreKey(s, y).producer.x == y && StoreKey(s, y).items == s.items;
    assert Grow(s, y).producer == Grown(y) && Grow(s, y).items == s.items;
  }

  lemma BlockAdvances<T>(s: State<T>, x: T, ok: bool, block: nat)
    requires Shape(s) && (s.producer.Keyed? || s.producer.Reserved? || s.producer.HasBlock?)
    ensures Advanced(s, ok, Produce(s, x, ok, block))
  {
  }

  lemma ElementAdvances<T>(s: State<T>, x: T, ok: bool, block: nat)
    requires Shape(s) && (s.producer.Write? || s.producer.Publish?)
    ensures Advanced(s, ok, Produce(s, x, ok, block))
  {
  }

  /** What one operation of consumer t leaves alone: the enqueue, and the other consumers. */
  ghost predicate OnlyMine<T>(s: State<T>, t: Tid, s': State<T>) {
    && s'.producer == s.producer && s'.items == s.items
    && t in s.pcs && t in s'.pcs && s'.pcs == s.pcs[t := s'.pcs[t]]
  }

  /** How a dequeue that has an index goes on after one operation of its thread. */
  ghost predicate Drawn<T>(s: State<T>, t: Tid, s': State<T>)
    requires t in s.pcs
  {
    && t in s'.pcs && ConsumerLeft(s'.pcs[t]) < ConsumerLeft(s.pcs[t])
    && (HasIndex(s'.pcs[t]) ==> HasIndex(s.pcs[t]) && s'.pcs[t].i == s.pcs[t].i)
    && (s.pcs[t].Take? <==> s'.pcs[t].Count?) && (HasIndex(s.pcs[t]) && !s.pcs[t].Count? ==> HasIndex(s'.pcs[t]))
  }

  /** A thread's own operation brings its dequeue nearer to its end, and nothing else. */
  lemma ConsumerAdvances<T>(s: State<T>, t: Tid)
    requires Inv(s) && t in s.pcs
    ensures OnlyMine(s, t, Consume(s, t))
    ensures !s.pcs[t].Idle? ==> Drawn(s, t, Consume(s, t))
    ensures s.pcs[t].Idle? ==>
      if s.head < s.Tail() then Consume(s, t).pcs[t] == LoadIndex(s.head) else Consume(s, t) == s
  {
    NoFault(s, t);
    ConsumeKeepsInv(s, t);
    var pc := s.pcs[t];
    assert OneAdvances(s, t) by {
      if pc.Idle? { ClaimAdvances(s, t); }
      else if pc.LoadIndex? || pc.LoadTail? || pc.LoadBase? { LoadAdvances(s, t); }
      else if pc.Find? || pc.LoadBlock? { FindAdvances(s, t); }
      else if pc.Take? { TakeAdvances(s, t); }
      else if pc.Count? { CountAdvances(s, t); }
      else { ReleaseAdvances(s, t); }
    }
    NoFault(Consume(s, t), t);
  }

  ghost predicate OneAdvances<T>(s: State<T>, t: Tid)
    requires Shape(s) && t in s.pcs
  {
    var s' := Consume(s, t);
    && OnlyMine(s, t, s')
    && (!s.pcs[t].Idle? ==> s'.pcs[t].Fault? || Drawn(s, t, s'))
    && (s.pcs[t].Idle? ==> if s.head < s.Tail() then s'.pcs[t] == LoadIndex(s.head) else s' == s)
  }

  lemma ClaimAdvances<T>(s: State<T>, t: Tid)
    requires Shape(s) && t in s.pcs && s.pcs[t].Idle?
    ensures OneAdvances(s, t)
  {
  }

  lemma LoadAdvances<T>(s: State<T>, t: Tid)
    requires Shape(s) && t in s.pcs && (s.pcs[t].LoadIndex? || s.pcs[t].LoadTail? || s.pcs[t].LoadBase?)
    ensures OneAdvances(s, t)
  {
    var pc := WholeQueue.LookingOnlyMoves(s, t);
    MoveIsMine(s, t, pc);
    if s.pcs[t].LoadIndex? {
      IndexLoaded(s, t);
    } else if s.pcs[t].LoadTail? {
      TailLoaded(s, t);
    } else {
      BaseLoaded(s, t);
    }
  }

  lemma IndexLoaded<T>(s: State<T>, t: Tid)
    requires Shape(s) && t in s.pcs && s.pcs[t].LoadIndex?
    ensures var pc := Consume(s, t).pcs[t]; pc.LoadTail? && pc.i == s.pcs[t].i
  {
  }

  lemma TailLoaded<T>(s: State<T>, t: Tid)
    requires Shape(s) && t in s.pcs && s.pcs[t].LoadTail?
    ensures var pc := Consume(s, t).pcs[t]; pc.Fault? || (pc.LoadBase? && pc.i == s.pcs[t].i)
  {
  }

  lemma BaseLoaded<T>(s: State<T>, t: Tid)
    requires Shape(s) && t in s.pcs && s.pcs[t].LoadBase?
    ensures var pc := Consume(s, t).pcs[t]; pc.Fault? || (pc.Find? && pc.i == s.pcs[t].i)
  {
  }

  lemma MoveIsMine<T>(s: State<T>, t: Tid, pc: Consumer)
    requires t in s.pcs
    ensures OnlyMine(s, t, Move(s, t, pc)) && Move(s, t, pc).pcs[t] == pc
  {
  }

  lemma FindAdvances<T>(s: State<T>, t: Tid)
    requires Shape(s) && t in s.pcs && (s.pcs[t].Find? || s.pcs[t].LoadBlock?)
    ensures OneAdvances(s, t)
  {
    var pc := WholeQueue.LookingOnlyMoves(s, t);
    MoveIsMine(s, t, pc);
    if s.pcs[t].Find? { EntryFoundNext(s, t); } else { BlockLoaded(s, t); }
  }

  lemma EntryFoundNext<T>(s: State<T>, t: Tid)
    requires Shape(s) && t in s.pcs && s.pcs[t].Find?
    ensures var pc := Consume(s, t).pcs[t]; pc.Fault? || (pc.LoadBlock? && pc.i == s.pcs[t].i)
  {
  }

  lemma BlockLoaded<T>(s: State<T>, t: Tid)
    requires Shape(s) && t in s.pcs && s.pcs[t].LoadBlock?
    ensures var pc := Consume(s, t).pcs[t]; pc.Fault? || (pc.Take? && pc.i == s.pcs[t].i)
  {
  }

  lemma TakeAdvances<T>(s: State<T>, t: Tid)
    requires Shape(s) && t in s.pcs && s.pcs[t].Take?
    ensures OneAdvances(s, t)
  {
  }

  lemma CountAdvances<T>(s: State<T>, t: Tid)
    requires Shape(s) && t in s.pcs && s.pcs[t].Count?
    ensures OneAdvances(s, t)
  {
  }

  lemma ReleaseAdvances<T>(s: State<T>, t: Tid)
    requires Shape(s) && t in s.pcs && (s.pcs[t].Release? || s.pcs[t].GiveBack?)
    ensures OneAdvances(s, t)
  {
  }

  /** What comes out: the element of the index when it is taken, and nothing at any other operation. */
  lemma TakeDelivers<T>(s: State<T>, t: Tid)
    requires Inv(s) && t in s.pcs
    ensures s.pcs[t].Take? ==> s.pcs[t].i < |s.items| && Consume(s, t).out == s.out[s.pcs[t].i := s.items[s.pcs[t].i]]
    ensures !s.pcs[t].Take? ==> Consume(s, t).out == s.out
  {
    if s.pcs[t].Take? {
      TakeReadsTheElement(s, t);
    } else {
      OutUntouched(s, t);
    }
  }

  lemma OutUntouched<T>(s: State<T>, t: Tid)
    requires Shape(s) && t in s.pcs && !s.pcs[t].Take?
    ensures Consume(s, t).out == s.out
  {
    if WholeQueue.IsLooking(s.pcs[t]) {
      var pc := WholeQueue.LookingOnlyMoves(s, t);
    }
  }

  // ---------------------------------------------------------------- whole operations in any interleaving

  /** Whose operation a step is. */
  datatype Label<T> = Produces(x: T, ok: bool, block: nat) | Consumes(t: Tid)

  predicate IsOf<T>(l: Label<T>, t: Tid) {
    l.Consumes? && l.t == t
  }

  ghost predicate Does<T>(s: State<T>, l: Label<T>, s': State<T>) {
    match l
    case Produces(x, ok, block) => ProducerStep(s, x, ok, block, s')
    case Consumes(t) => ConsumerStep(s, t, s')
  }

  ghost predicate Labelled<T>(run: seq<State<T>>, labels: seq<Label<T>>, i: nat)
    requires i < |labels| < |run|
  {
    Does(run[i], labels[i], run[i + 1])
  }

  ghost predicate History<T>(run: seq<State<T>>, labels: seq<Label<T>>) {
    |run| == |labels| + 1 && Init(run[0]) && forall i | 0 <= i < |labels| :: Labelled(run, labels, i)
  }

  lemma HistoryIsRun<T(!new)>(run: seq<State<T>>, labels: seq<Label<T>>, k: nat)
    requires History(run, labels) && k < |run|
    ensures Inv(run[k])
  {
    forall i | 0 <= i < |run| - 1 ensures Follows(run, i) {
      assert Labelled(run, labels, i);
    }
    RunKeepsInv(run, k);
  }

  /** How many of the operations from i up to j are the producer's, and how many are those of t. */
  function ProducerSteps<T>(labels: seq<Label<T>>, i: nat, j: nat): nat
    requires i <= j <= |labels|
    decreases j
  {
    if i == j then 0 else ProducerSteps(labels, i, j - 1) + if labels[j - 1].Produces? then 1 else 0
  }

  function ConsumerSteps<T>(labels: seq<Label<T>>, t: Tid, i: nat, j: nat): nat
    requires i <= j <= |labels|
    decreases j
  {
    if i == j then 0 else ConsumerSteps(labels, t, i, j - 1) + if IsOf(labels[j - 1], t) then 1 else 0
  }

  ghost predicate FailsAt<T>(run: seq<State<T>>, labels: seq<Label<T>>, k: nat) {
    k < |labels| && k < |run| && labels[k].Produces? && Shape(run[k]) && AllocationFails(run[k], labels[k].ok)
  }

  /** An enqueue that starts at i is still under way at every moment up to j. */
  ghost predicate Enqueuing<T>(run: seq<State<T>>, labels: seq<Label<T>>, i: nat, j: nat) {
    && i < j < |run| == |labels| + 1 && run[i].producer.Outside? && labels[i].Produces?
    && forall k | i < k < j :: !run[k].producer.Outside?
  }

  ghost predicate EnqueuedSoFar<T>(run: seq<State<T>>, labels: seq<Label<T>>, i: nat, j: nat)
    requires Enqueuing(run, labels, i, j)
  {
    var s := run[j];
    if s.producer.Outside? then
      && s.items == (if exists k :: i < k < j && FailsAt(run, labels, k) then run[i].items
                     else run[i].items + [labels[i].x])
      && ProducerSteps(labels, i, j) <= 8
    else
      && s.producer.x == labels[i].x && s.items == run[i].items
      && ProducerSteps(labels, i, j) + ProducerLeft(s.producer) <= 8
      && forall k | i < k < j :: !FailsAt(run, labels, k)
  }

  lemma EnqueueGoesOn<T(!new)>(run: seq<State<T>>, labels: seq<Label<T>>, i: nat, j: nat)
    requires History(run, labels) && Enqueuing(run, labels, i, j + 1) && i < j
    requires Enqueuing(run, labels, i, j) && EnqueuedSoFar(run, labels, i, j)
    ensures EnqueuedSoFar(run, labels, i, j + 1)
  {
    HistoryIsRun(run, labels, j);
    assert Labelled(run, labels, j);
    var s, s' := run[j], run[j + 1];
    match labels[j]
    case Produces(x, ok, block) =>
      ProducerAdvances(s, x, ok, block, s');
      assert FailsAt(run, labels, j) <==> AllocationFails(s, ok);
    case Consumes(t) =>
      ConsumerAdvances(s, t);
      assert !FailsAt(run, labels, j);
  }

  lemma {:induction false} EnqueueTrace<T(!new)>(run: seq<State<T>>, labels: seq<Label<T>>, i: nat, j: nat)
    requires History(run, labels) && Enqueuing(run, labels, i, j)
    ensures EnqueuedSoFar(run, labels, i, j)
    decreases j
  {
    if j == i + 1 {
      HistoryIsRun(run, labels, i);
      assert Labelled(run, labels, i);
      ProducerAdvances(run[i], labels[i].x, labels[i].ok, labels[i].block, run[j]);
    } else {
      EnqueueTrace(run, labels, i, j - 1);
      EnqueueGoesOn(run, labels, i, j - 1);
    }
  }

  /**
   However the consumers interleave, an enqueue of x has ended after at most eight operations of the producer,
   with x at the end of the queue, or with the queue as it was exactly if an allocation has failed on the way.
   */
  lemma EnqueueAppends<T(!new)>(run: seq<State<T>>, labels: seq<Label<T>>, i: nat, j: nat)
    requires History(run, labels) && Enqueuing(run, labels, i, j)
    ensures ProducerSteps(labels, i, j) >= 8 ==> run[j].producer.Outside?
    ensures run[j].producer.Outside? && (forall k | i < k < j :: !FailsAt(run, labels, k)) ==>
      run[j].items == run[i].items + [labels[i].x]
    ensures run[j].producer.Outside? && (exists k :: i < k < j && FailsAt(run, labels, k)) ==>
      run[j].items == run[i].items
    ensures !run[j].producer.Outside? ==> run[j].items == run[i].items
  {
    EnqueueTrace(run, labels, i, j);
  }

  /** The dequeue of t that claims its index at i is still under way at every moment up to j. */
  ghost predicate Dequeuing<T>(run: seq<State<T>>, labels: seq<Label<T>>, t: Tid, i: nat, j: nat) {
    && i < j < |run| == |labels| + 1 && t in run[i].pcs && run[i].pcs[t].Idle? && IsOf(labels[i], t)
    && run[i].head < run[i].Tail()
    && forall k | i < k < j :: t in run[k].pcs && !run[k].pcs[t].Idle?
  }

  /** A dequeue that has claimed c: either it still has to take the element of c, or that has come out. */
  ghost predicate Draws<T>(s: State<T>, t: Tid, c: nat) {
    && t in s.pcs
    && (HasIndex(s.pcs[t]) ==> s.pcs[t].i == c)
    && (IsPending(s.pcs[t], c) || (c < |s.items| && c in s.out && s.out[c] == s.items[c]))
  }

  lemma DrawsOn<T>(s: State<T>, t: Tid, c: nat)
    requires Inv(s) && Draws(s, t, c) && !s.pcs[t].Idle?
    ensures Draws(Consume(s, t), t, c) && ConsumerLeft(Consume(s, t).pcs[t]) < ConsumerLeft(s.pcs[t])
  {
    ConsumerAdvances(s, t);
    TakeDelivers(s, t);
    DrawnOn(s, t, c, Consume(s, t));
  }

  lemma DrawnOn<T>(s: State<T>, t: Tid, c: nat, s': State<T>)
    requires Draws(s, t, c) && Drawn(s, t, s') && s'.items == s.items
    requires s.pcs[t].Take? ==> s.pcs[t].i < |s.items| && s'.out == s.out[s.pcs[t].i := s.items[s.pcs[t].i]]
    requires !s.pcs[t].Take? ==> s'.out == s.out
    ensures Draws(s', t, c)
  {
  }

  lemma OthersLetDraw<T>(s: State<T>, t: Tid, c: nat, u: Tid)
    requires Inv(s) && Draws(s, t, c) && u in s.pcs && u != t
    ensures Draws(Consume(s, u), t, c) && Consume(s, u).pcs[t] == s.pcs[t]
  {
    ConsumerAdvances(s, u);
    TakeDelivers(s, u);
  }

  lemma ProducerLetsDraw<T>(s: State<T>, t: Tid, c: nat, x: T, ok: bool, block: nat, s': State<T>)
    requires Draws(s, t, c) && ProducerStep(s, x, ok, block, s')
    ensures Draws(s', t, c) && s'.pcs[t] == s.pcs[t]
  {
    WholeQueue.ProducerLeavesConsumers(s, x, ok, block, s');
  }

  lemma DequeueGoesOn<T(!new)>(s: State<T>, l: Label<T>, s': State<T>, t: Tid, c: nat)
    requires Inv(s) && Does(s, l, s') && Draws(s, t, c) && !s.pcs[t].Idle?
    ensures Draws(s', t, c)
    ensures ConsumerLeft(s'.pcs[t]) + (if IsOf(l, t) then 1 else 0) <= ConsumerLeft(s.pcs[t])
  {
    match l
    case Produces(x, ok, block) => ProducerLetsDraw(s, t, c, x, ok, block, s');
    case Consumes(u) => if u == t { DrawsOn(s, t, c); } else { OthersLetDraw(s, t, c, u); }
  }

  lemma ClaimDraws<T>(s: State<T>, t: Tid)
    requires Inv(s) && t in s.pcs && s.pcs[t].Idle? && s.head < s.Tail()
    ensures Draws(Consume(s, t), t, s.head) && Consume(s, t).pcs[t] == LoadIndex(s.head)
  {
    ConsumerAdvances(s, t);
  }

  lemma {:induction false} DequeueTrace<T(!new)>(run: seq<State<T>>, labels: seq<Label<T>>, t: Tid, i: nat, j: nat)
    requires History(run, labels) && Dequeuing(run, labels, t, i, j)
    ensures Draws(run[j], t, run[i].head)
    ensures ConsumerSteps(labels, t, i, j) + ConsumerLeft(run[j].pcs[t]) <= 10
    decreases j
  {
    HistoryIsRun(run, labels, j - 1);
    assert Labelled(run, labels, j - 1);
    if j == i + 1 {
      ClaimDraws(run[i], t);
      assert ConsumerSteps(labels, t, i, i) == 0;
    } else {
      DequeueTrace(run, labels, t, i, j - 1);
      DequeueGoesOn(run[j - 1], labels[j - 1], run[j], t, run[i].head);
    }
  }

  /**
   However the others interleave, a dequeue that has claimed an index has ended after at most ten operations
   of its thread, and by then the element of that index has come out.
   */
  lemma DequeueEnds<T(!new)>(run: seq<State<T>>, labels: seq<Label<T>>, t: Tid, i: nat, j: nat)
    requires History(run, labels) && Dequeuing(run, labels, t, i, j)
    ensures t in run[j].pcs
    ensures ConsumerSteps(labels, t, i, j) >= 10 ==> run[j].pcs[t].Idle?
    ensures run[j].pcs[t].Idle? ==>
      var c := run[i].head; c < |run[j].items| && c in run[j].out && run[j].out[c] == run[j].items[c]
  {
    DequeueTrace(run, labels, t, i, j);
  }
}
