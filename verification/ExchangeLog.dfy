/**
 What the exchange owes to those who use it: every order that arrives and has a bucket is put on its queue,
 in order, and the log of a bucket holds exactly the trades of the run that made its books.
 */
module ExchangeLog {
  import opened Types
  import opened BookModel
  import opened Aggressor
  import opened LevelRefinement
  import opened Exchange
  import opened Sharding

  // ---------------------------------------------------------------- what is received is accepted

  /** The orders whose symbol has a bucket. */
  function Routed(msgs: seq<Order>): seq<Order> {
    if msgs == [] then []
    else
      var n := |msgs| - 1;
      Routed(msgs[..n]) + if GetBucket(msgs[n].ticker) != "" then [msgs[n]] else []
  }

  lemma RoutedSnoc(msgs: seq<Order>, o: Order)
    ensures Routed(msgs + [o]) == Routed(msgs) + if GetBucket(o.ticker) != "" then [o] else []
  {
    assert (msgs + [o])[..|msgs|] == msgs;
  }

  /** The order that the receiver is working on. */
  function Working(r: Receiver): seq<Order> {
    match r
    case Idle => []
    case NeedBucket(_, pending) => InHand(pending)
    case NeedBook(_, pending) => InHand(pending)
    case NeedEnqueue(o) => [o]
  }

  ghost predicate Complete(s: State) {
    s.accepted + Working(s.receiver) == Routed(s.received)
  }

  lemma ReceiveKeepsComplete(s: State, s': State, sym: Ticker, pending: Option<Order>)
    requires Complete(s) && Receive(s, s', sym, pending)
    ensures Complete(s')
  {
    if pending.Some? {
      RoutedSnoc(s.received, pending.value);
    } else {
      assert s.received + [] == s.received;
    }
  }

  lemma StepKeepsComplete(s: State, s': State)
    requires Complete(s) && Next(s, s')
    ensures Complete(s')
  {
    if sym: Ticker, pending :| Receive(s, s', sym, pending) {
      ReceiveKeepsComplete(s, s', sym, pending);
    }
  }

  lemma {:induction false} RunKeepsComplete(run: seq<State>)
    requires Run(run)
    ensures Complete(run[|run| - 1])
    decreases |run|
  {
    if |run| > 1 {
      var n := |run| - 1;
      RunKeepsComplete(run[..n]);
      StepKeepsComplete(run[n - 1], run[n]);
    }
  }

  /**
   Whenever the receiver is between two messages, the orders that have been accepted are exactly those that
   have arrived and whose symbol starts with a letter, in the order of their arrival.
   */
  lemma AcceptedAreReceived(run: seq<State>)
    requires Run(run) && run[|run| - 1].receiver.Idle?
    ensures run[|run| - 1].accepted == Routed(run[|run| - 1].received)
  {
    RunKeepsComplete(run);
  }

  lemma FinishFrom(s: State, sym: Ticker, pending: Option<Order>) returns (s1: State, s2: State, s3: State)
    requires s.receiver == NeedBucket(sym, pending) && (pending.Some? ==> pending.value.ticker == sym)
    ensures EmplaceBucket(s, s1) && EmplaceBook(s1, s2) && if pending.Some? then Enqueue(s2, s3) else s3 == s2
    ensures Finished(s, sym, pending, s3)
  {
    var n := GetBucket(sym);
    s1 := s.(receiver := NeedBook(sym, pending),
             buckets := if n in s.buckets then s.buckets else s.buckets[n := NEW_BUCKET]);
    var bk := s1.buckets[n];
    s2 := s1.(receiver := if pending.Some? then NeedEnqueue(pending.value) else Idle,
              buckets := s1.buckets[n := if sym in bk.books then bk else bk.(books := bk.books[sym := EMPTY_BOOK])]);
    if pending.Some? {
      var o := pending.value;
      s3 := s2.(buckets := s2.buckets[n := s2.buckets[n].(queue := s2.buckets[n].queue + [o])],
                receiver := Idle, accepted := s2.accepted + [o]);
    } else {
      s3 := s2;
    }
  }

  /**
   The receiver can always finish the message it is working on: its steps lead to a bucket and a book for
   the symbol and the order at the end of the bucket's queue, and leave the other buckets alone.
   */
  lemma ReceiverFinishes(run: seq<State>, sym: Ticker, pending: Option<Order>) returns (s1: State, s2: State, s3: State)
    requires Run(run) && run[|run| - 1].receiver == NeedBucket(sym, pending)
    ensures var s := run[|run| - 1];
      && EmplaceBucket(s, s1) && EmplaceBook(s1, s2) && (if pending.Some? then Enqueue(s2, s3) else s3 == s2)
      && Finished(s, sym, pending, s3)
  {
    RunKeepsInv(run);
    s1, s2, s3 := FinishFrom(run[|run| - 1], sym, pending);
  }

  /** The message is done: there is a book for its symbol, and its order, if it brought one, waits in the queue. */
  ghost predicate Finished(s: State, sym: Ticker, pending: Option<Order>, s': State) {
    var n := GetBucket(sym);
    && s'.receiver.Idle? && s'.accepted == s.accepted + InHand(pending)
    && n in s'.buckets && sym in s'.buckets[n].books
    && s'.buckets[n].queue == (if n in s.buckets then s.buckets[n].queue else []) + InHand(pending)
    && s'.buckets.Keys == s.buckets.Keys + {n}
    && forall k | k in s.buckets && k != n :: s'.buckets[k] == s.buckets[k]
  }

  /** A waiting bucket thread can take the next order off its queue. */
  lemma WaitingWorkersCanTake(bk: Bucket)
    requires bk.worker.Waiting? && bk.queue != []
    ensures exists bk' :: Dequeue(bk, bk') && bk'.worker == Holding(bk.queue[0]) && bk'.queue == bk.queue[1..]
  {
    var bk' := bk.(queue := bk.queue[1..], taken := bk.taken + [bk.queue[0]], worker := Holding(bk.queue[0]));
    assert Dequeue(bk, bk');
  }

  // ---------------------------------------------------------------- the log

  function Messages(log: seq<(Order, seq<Trade>)>): seq<Order> {
    seq(|log|, i requires 0 <= i < |log| => log[i].0)
  }

  function EntriesFor(log: seq<(Order, seq<Trade>)>, sym: Ticker): seq<(Order, seq<Trade>)> {
    if log == [] then []
    else
      var n := |log| - 1;
      EntriesFor(log[..n], sym) + if log[n].0.ticker == sym then [log[n]] else []
  }

  lemma EntriesSnoc(log: seq<(Order, seq<Trade>)>, e: (Order, seq<Trade>), sym: Ticker)
    ensures EntriesFor(log + [e], sym) == EntriesFor(log, sym) + if e.0.ticker == sym then [e] else []
  {
    assert (log + [e])[..|log|] == log;
  }

  lemma {:induction false} EntriesAbsent(log: seq<(Order, seq<Trade>)>, sym: Ticker)
    requires forall e | e in log :: e.0.ticker != sym
    ensures EntriesFor(log, sym) == []
    decreases |log|
  {
    if log != [] { EntriesAbsent(log[..|log| - 1], sym); }
  }

  /** The book is what handling the messages one after the other gives, with exactly these trades. */
  ghost predicate Traced(entries: seq<(Order, seq<Trade>)>, b: Book)
    decreases |entries|
  {
    if entries == [] then b == EMPTY_BOOK
    else
      var n := |entries| - 1;
      exists prev :: Valid(prev) && Traced(entries[..n], prev) && Handled(prev, entries[n].0, entries[n].1, b)
  }

  lemma TracedExtended(entries: seq<(Order, seq<Trade>)>, prev: Book, o: Order, trades: seq<Trade>, b: Book)
    requires Traced(entries, prev) && Valid(prev) && Handled(prev, o, trades, b)
    ensures Traced(entries + [(o, trades)], b)
  {
    assert (entries + [(o, trades)])[..|entries|] == entries;
  }

  /** The book of a symbol before the message that its worker is in the middle of, if there is one. */
  function Settled(bk: Bucket, sym: Ticker): Book
    requires sym in bk.books
  {
    if bk.worker.Editing? && bk.worker.order.ticker == sym then bk.worker.before else bk.books[sym]
  }

  ghost predicate Logged(bk: Bucket) {
    && Messages(bk.log) == Done(bk)
    && forall sym | sym in bk.books :: Traced(EntriesFor(bk.log, sym), Settled(bk, sym))
  }

  lemma NewBookIsLogged(n: string, bk: Bucket, sym: Ticker)
    requires BucketOk(n, bk) && Logged(bk) && sym !in bk.books
    ensures Logged(bk.(books := bk.books[sym := EMPTY_BOOK]))
  {
    var bk' := bk.(books := bk.books[sym := EMPTY_BOOK]);
    assert Done(bk') == Done(bk);
    forall e | e in bk.log ensures e.0.ticker != sym {
      var i :| 0 <= i < |bk.log| && bk.log[i] == e;
      assert Messages(bk.log)[i] == e.0 && e.0 in bk.taken;
      assert MessageOk(e.0, n, bk.books);
    }
    EntriesAbsent(bk.log, sym);
    assert bk.worker.Editing? ==> bk.worker.order in bk.taken && MessageOk(bk.worker.order, n, bk.books);
    forall k | k in bk'.books ensures Traced(EntriesFor(bk'.log, k), Settled(bk', k)) {
      if k != sym { assert Settled(bk', k) == Settled(bk, k); }
    }
  }

  lemma DequeueKeepsLog(bk: Bucket, bk': Bucket)
    requires Logged(bk) && Dequeue(bk, bk')
    ensures Logged(bk')
  {
    assert Done(bk') == Done(bk);
    forall k | k in bk'.books ensures Traced(EntriesFor(bk'.log, k), Settled(bk', k)) {
      assert Settled(bk', k) == Settled(bk, k);
    }
  }

  lemma EditKeepsLog(n: string, bk: Bucket, bk': Bucket)
    requires BucketOk(n, bk) && Logged(bk) && Edit(bk, bk')
    ensures Logged(bk')
  {
    HeldBookIsReady(n, bk);
    assert Done(bk') == Done(bk);
    forall k | k in bk'.books ensures Traced(EntriesFor(bk'.log, k), Settled(bk', k)) {
      assert Settled(bk', k) == Settled(bk, k);
    }
  }

  lemma ExecuteKeepsLog(n: string, bk: Bucket, bk': Bucket)
    requires BucketOk(n, bk) && Logged(bk) && Execute(bk, bk')
    ensures Logged(bk')
  {
    var o, before := bk.worker.order, bk.worker.before;
    assert BookOk(bk, o.ticker);
    var trades, b' :| Executed(bk.books[o.ticker], trades, b')
                      && bk' == bk.(worker := Waiting, books := bk.books[o.ticker := b'],
                                    log := bk.log + [(o, trades)]);
    assert Handled(before, o, trades, b');
    ExecutedIsLogged(bk, bk', o, before, trades, b');
  }

  lemma ExecutedIsLogged(bk: Bucket, bk': Bucket, o: Order, before: Book, trades: seq<Trade>, b': Book)
    requires Logged(bk) && bk.worker == Editing(o, before) && bk.taken != [] && o == bk.taken[|bk.taken| - 1]
    requires o.ticker in bk.books && Valid(before) && Handled(before, o, trades, b')
    requires bk' == bk.(worker := Waiting, books := bk.books[o.ticker := b'], log := bk.log + [(o, trades)])
    ensures Logged(bk')
  {
    SplitLast(bk.taken);
    assert Messages(bk'.log) == Messages(bk.log) + [o];
    forall k | k in bk'.books ensures Traced(EntriesFor(bk'.log, k), Settled(bk', k)) {
      ExecutedIsTraced(bk, bk', o, before, trades, b', k);
    }
  }

  lemma ExecutedIsTraced(bk: Bucket, bk': Bucket, o: Order, before: Book, trades: seq<Trade>, b': Book, k: Ticker)
    requires bk.worker == Editing(o, before) && k in bk.books && Traced(EntriesFor(bk.log, k), Settled(bk, k))
    requires Valid(before) && Handled(before, o, trades, b')
    requires bk' == bk.(worker := Waiting, books := bk.books[o.ticker := b'], log := bk.log + [(o, trades)])
    ensures Traced(EntriesFor(bk'.log, k), Settled(bk', k))
  {
    if k == o.ticker {
      OwnEntryTraced(bk.log, k, before, o, trades, b');
    } else {
      OtherEntryTraced(bk.log, k, bk.books[k], o, trades);
    }
  }

  lemma OwnEntryTraced(log: seq<(Order, seq<Trade>)>, k: Ticker, before: Book, o: Order, trades: seq<Trade>, b': Book)
    requires o.ticker == k && Traced(EntriesFor(log, k), before) && Valid(before) && Handled(before, o, trades, b')
    ensures Traced(EntriesFor(log + [(o, trades)], k), b')
  {
    EntriesSnoc(log, (o, trades), k);
    TracedExtended(EntriesFor(log, k), before, o, trades, b');
  }

  lemma OtherEntryTraced(log: seq<(Order, seq<Trade>)>, k: Ticker, b: Book, o: Order, trades: seq<Trade>)
    requires o.ticker != k && Traced(EntriesFor(log, k), b)
    ensures Traced(EntriesFor(log + [(o, trades)], k), b)
  {
    EntriesSnoc(log, (o, trades), k);
    assert EntriesFor(log, k) + [] == EntriesFor(log, k);
  }

  ghost predicate AllLogged(s: State) {
    forall n | n in s.buckets :: Logged(s.buckets[n])
  }

  lemma StepKeepsLogs(s: State, s': State)
    requires Sharding.Inv(s) && AllLogged(s) && Next(s, s')
    ensures AllLogged(s')
  {
    if sym: Ticker, pending :| Receive(s, s', sym, pending) {
    } else if EmplaceBucket(s, s') {
      assert Logged(NEW_BUCKET);
    } else if EmplaceBook(s, s') {
      BookKeepsLogs(s, s');
    } else if Enqueue(s, s') {
      QueueKeepsLogs(s, s');
    } else {
      var n :| Work(s, s', n);
      WorkKeepsLogs(s, s', n);
    }
  }

  lemma BookKeepsLogs(s: State, s': State)
    requires Sharding.Inv(s) && AllLogged(s) && EmplaceBook(s, s')
    ensures AllLogged(s')
  {
    var sym := s.receiver.sym;
    var n := GetBucket(sym);
    assert BucketOk(n, s.buckets[n]) && Logged(s.buckets[n]);
    if sym !in s.buckets[n].books { NewBookIsLogged(n, s.buckets[n], sym); }
    assert Logged(s'.buckets[n]);
  }

  lemma QueueKeepsLogs(s: State, s': State)
    requires AllLogged(s) && Enqueue(s, s')
    ensures AllLogged(s')
  {
    var n := GetBucket(s.receiver.order.ticker);
    var bk, bk' := s.buckets[n], s'.buckets[n];
    assert Logged(bk) && Done(bk') == Done(bk);
    forall k | k in bk'.books ensures Traced(EntriesFor(bk'.log, k), Settled(bk', k)) {
      assert Settled(bk', k) == Settled(bk, k);
    }
    assert Logged(bk');
  }

  lemma WorkKeepsLogs(s: State, s': State, n: string)
    requires Sharding.Inv(s) && AllLogged(s) && Work(s, s', n)
    ensures AllLogged(s')
  {
    var bk := s.buckets[n];
    assert BucketOk(n, bk) && Logged(bk);
    var bk' :| (Dequeue(bk, bk') || Edit(bk, bk') || Execute(bk, bk')) && s' == s.(buckets := s.buckets[n := bk']);
    if Dequeue(bk, bk') {
      DequeueKeepsLog(bk, bk');
    } else if Edit(bk, bk') {
      EditKeepsLog(n, bk, bk');
    } else {
      ExecuteKeepsLog(n, bk, bk');
    }
  }

  lemma {:induction false} RunKeepsLogs(run: seq<State>)
    requires Run(run)
    ensures AllLogged(run[|run| - 1])
    decreases |run|
  {
    if |run| > 1 {
      var n := |run| - 1;
      RunKeepsLogs(run[..n]);
      RunKeepsInv(run[..n]);
      StepKeepsLogs(run[n - 1], run[n]);
    }
  }

  /**
   In every reachable state the log of a bucket has one entry for each message its thread has finished, in
   order, and a book is what handling the logged messages of its symbol gives, with exactly the logged trades.
   */
  lemma LogIsTheRun(run: seq<State>, sym: Ticker)
    requires Run(run)
    requires var s := run[|run| - 1]; GetBucket(sym) in s.buckets && sym in s.buckets[GetBucket(sym)].books
    ensures var bk := run[|run| - 1].buckets[GetBucket(sym)];
      && Messages(bk.log) == Done(bk) && Done(bk) <= ForBucket(run[|run| - 1].accepted, GetBucket(sym))
      && Traced(EntriesFor(bk.log, sym), Settled(bk, sym))
  {
    RunKeepsLogs(run);
    RunKeepsInv(run);
    var s, n := run[|run| - 1], GetBucket(sym);
    assert Logged(s.buckets[n]) && BucketOk(n, s.buckets[n]);
    assert s.buckets[n].taken + s.buckets[n].queue == ForBucket(s.accepted, n);
  }
}
