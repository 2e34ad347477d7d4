/**
 The exchange's threads as a step machine. One thread receives orders and routes each to the bucket
 of its symbol; one thread per bucket takes orders off its queue, edits the book of the symbol and
 runs the matching loop. Steps of different threads interleave freely.
 */
module Sharding {
  import opened Types
  import opened BookModel
  import opened Aggressor
  import opened LevelRefinement
  import opened Exchange
  import Progress

  datatype Receiver =
    | Idle
    | NeedBucket(sym: Ticker, pending: Option<Order>)
    | NeedBook(sym: Ticker, pending: Option<Order>)
    | NeedEnqueue(order: Order)

  datatype Worker =
    | Waiting
    | Holding(order: Order)
    | Editing(order: Order, before: Book)

  /** A bucket, with the history of what its worker took off the queue and what each message traded. */
  datatype Bucket = Bucket(books: map<Ticker, Book>, queue: seq<Order>, worker: Worker,
                           taken: seq<Order>, log: seq<(Order, seq<Trade>)>, dropped: nat)

  const NEW_BUCKET := Bucket(map[], [], Waiting, [], [], 0)

  /** History: the parsed orders that have arrived, and those that have been put on a queue. */
  datatype State = State(buckets: map<string, Bucket>, receiver: Receiver, accepted: seq<Order>, received: seq<Order>)

  function InHand(pending: Option<Order>): seq<Order> {
    if pending.Some? then [pending.value] else []
  }

  ghost predicate Init(s: State) {
    s == State(map[], Idle, [], [])
  }

  // ---------------------------------------------------------------- receiver steps

  /** A parsed order arrives, or a symbol is registered; one without a bucket is dropped at once. */
  ghost predicate Receive(s: State, s': State, sym: Ticker, pending: Option<Order>) {
    && s.receiver.Idle?
    && (pending.Some? ==> pending.value.ticker == sym && HasQuantity(pending.value))
    && s' == s.(received := s.received + InHand(pending),
                receiver := if GetBucket(sym) == "" then Idle else NeedBucket(sym, pending))
  }

  ghost predicate EmplaceBucket(s: State, s': State) {
    && s.receiver.NeedBucket?
    && var n := GetBucket(s.receiver.sym);
       s' == s.(receiver := NeedBook(s.receiver.sym, s.receiver.pending),
                buckets := if n in s.buckets then s.buckets else s.buckets[n := NEW_BUCKET])
  }

  ghost predicate EmplaceBook(s: State, s': State) {
    && s.receiver.NeedBook?
    && var sym, n := s.receiver.sym, GetBucket(s.receiver.sym);
    && n in s.buckets
    && var bk := s.buckets[n];
       s' == s.(receiver := if s.receiver.pending.Some? then NeedEnqueue(s.receiver.pending.value) else Idle,
                buckets := s.buckets[n := if sym in bk.books then bk else bk.(books := bk.books[sym := EMPTY_BOOK])])
  }

  ghost predicate Enqueue(s: State, s': State) {
    && s.receiver.NeedEnqueue?
    && var o := s.receiver.order;
       var n := GetBucket(o.ticker);
    && n in s.buckets
    && s' == s.(buckets := s.buckets[n := s.buckets[n].(queue := s.buckets[n].queue + [o])],
                receiver := Idle, accepted := s.accepted + [o])
  }

  // ---------------------------------------------------------------- worker steps

  ghost predicate Dequeue(bk: Bucket, bk': Bucket) {
    && bk.worker.Waiting? && bk.queue != []
    && bk' == bk.(queue := bk.queue[1..], taken := bk.taken + [bk.queue[0]], worker := Holding(bk.queue[0]))
  }

  /** The message edits the book of its symbol; without such a book it is lost. */
  ghost predicate Edit(bk: Bucket, bk': Bucket) {
    && bk.worker.Holding?
    && var o := bk.worker.order;
       if o.ticker !in bk.books then bk' == bk.(worker := Waiting, dropped := bk.dropped + 1)
       else
         var before := bk.books[o.ticker];
         && Valid(before)
         && exists mid :: Edited(before, o, mid)
                          && bk' == bk.(worker := Editing(o, before), books := bk.books[o.ticker := mid])
  }

  ghost predicate Execute(bk: Bucket, bk': Bucket) {
    && bk.worker.Editing?
    && var o := bk.worker.order;
    && o.ticker in bk.books
    && exists trades, b' :: Executed(bk.books[o.ticker], trades, b')
                            && bk' == bk.(worker := Waiting, books := bk.books[o.ticker := b'],
                                          log := bk.log + [(o, trades)])
  }

  ghost predicate Work(s: State, s': State, n: string) {
    && n in s.buckets
    && exists bk' :: (Dequeue(s.buckets[n], bk') || Edit(s.buckets[n], bk') || Execute(s.buckets[n], bk'))
                     && s' == s.(buckets := s.buckets[n := bk'])
  }

  ghost predicate Next(s: State, s': State) {
    || (exists sym: Ticker, pending :: Receive(s, s', sym, pending))
    || EmplaceBucket(s, s') || EmplaceBook(s, s') || Enqueue(s, s')
    || exists n :: Work(s, s', n)
  }

  ghost predicate Run(run: seq<State>) {
    && run != [] && Init(run[0])
    && forall i | 0 <= i < |run| - 1 :: Next(run[i], run[i + 1])
  }

  // ---------------------------------------------------------------- the sequential reference

  function ForSymbol(msgs: seq<Order>, sym: Ticker): seq<Order> {
    if msgs == [] then []
    else
      var n := |msgs| - 1;
      ForSymbol(msgs[..n], sym) + if msgs[n].ticker == sym then [msgs[n]] else []
  }

  function ForBucket(msgs: seq<Order>, bucket: string): seq<Order> {
    if msgs == [] then []
    else
      var n := |msgs| - 1;
      ForBucket(msgs[..n], bucket) + if GetBucket(msgs[n].ticker) == bucket then [msgs[n]] else []
  }

  /** b is a result of handling msgs one after the other on an empty book. */
  ghost predicate Sequential(msgs: seq<Order>, b: Book)
    decreases |msgs|
  {
    if msgs == [] then b == EMPTY_BOOK
    else
      var n := |msgs| - 1;
      exists prev, trades :: Sequential(msgs[..n], prev) && Valid(prev) && Handled(prev, msgs[n], trades, b)
  }

  lemma {:induction false} SequentialIsOrderly(msgs: seq<Order>, b: Book)
    requires Sequential(msgs, b) && forall m | m in msgs :: HasQuantity(m)
    ensures Valid(b) && !Crossed(b) && Positive(b)
    decreases |msgs|
  {
    if msgs != [] {
      var n := |msgs| - 1;
      var prev, trades :| Sequential(msgs[..n], prev) && Valid(prev) && Handled(prev, msgs[n], trades, b);
      SequentialIsOrderly(msgs[..n], prev);
      AggressorIsAParty(prev, msgs[n], trades, b);
      HandledKeepsPositive(prev, msgs[n], trades, b);
    }
  }

  lemma SequentialExtended(msgs: seq<Order>, prev: Book, o: Order, trades: seq<Trade>, b: Book)
    requires Sequential(msgs, prev) && Valid(prev) && Handled(prev, o, trades, b)
    ensures Sequential(msgs + [o], b)
  {
    var all := msgs + [o];
    assert all[..|all| - 1] == msgs && all[|all| - 1] == o;
    assert Sequential(all[..|all| - 1], prev) && Handled(prev, all[|all| - 1], trades, b);
  }

  lemma ForSymbolSnoc(msgs: seq<Order>, o: Order, sym: Ticker)
    ensures ForSymbol(msgs + [o], sym) == ForSymbol(msgs, sym) + if o.ticker == sym then [o] else []
  {
    assert (msgs + [o])[..|msgs|] == msgs;
  }

  lemma ForBucketSnoc(msgs: seq<Order>, o: Order, n: string)
    ensures ForBucket(msgs + [o], n) == ForBucket(msgs, n) + if GetBucket(o.ticker) == n then [o] else []
  {
    assert (msgs + [o])[..|msgs|] == msgs;
  }

  lemma {:induction false} ForSymbolPrefix(a: seq<Order>, b: seq<Order>, sym: Ticker)
    ensures ForSymbol(a, sym) <= ForSymbol(a + b, sym)
    decreases |b|
  {
    if b == [] {
      assert a + b == a;
    } else {
      var n := |b| - 1;
      ForSymbolPrefix(a, b[..n], sym);
      assert a + b == (a + b[..n]) + [b[n]];
      ForSymbolSnoc(a + b[..n], b[n], sym);
    }
  }

  /** Routing first loses nothing of a symbol's own messages. */
  lemma {:induction false} ForSymbolOfBucket(msgs: seq<Order>, sym: Ticker)
    ensures ForSymbol(ForBucket(msgs, GetBucket(sym)), sym) == ForSymbol(msgs, sym)
    decreases |msgs|
  {
    if msgs != [] {
      var n := |msgs| - 1;
      ForSymbolOfBucket(msgs[..n], sym);
      if GetBucket(msgs[n].ticker) == GetBucket(sym) {
        ForSymbolSnoc(ForBucket(msgs[..n], GetBucket(sym)), msgs[n], sym);
      } else {
        assert ForBucket(msgs, GetBucket(sym)) == ForBucket(msgs[..n], GetBucket(sym));
      }
    }
  }

  lemma {:induction false} ForSymbolElements(msgs: seq<Order>, sym: Ticker, m: Order)
    requires m in ForSymbol(msgs, sym)
    ensures m in msgs
    decreases |msgs|
  {
    var n := |msgs| - 1;
    if m in ForSymbol(msgs[..n], sym) { ForSymbolElements(msgs[..n], sym, m); }
  }

  lemma {:induction false} ForSymbolAbsent(msgs: seq<Order>, sym: Ticker)
    requires forall m | m in msgs :: m.ticker != sym
    ensures ForSymbol(msgs, sym) == []
    decreases |msgs|
  {
    if msgs != [] { ForSymbolAbsent(msgs[..|msgs| - 1], sym); }
  }

  // ---------------------------------------------------------------- invariant

  /** The messages of a bucket that are completely handled. */
  function Done(bk: Bucket): seq<Order> {
    if bk.worker.Waiting? || bk.taken == [] then bk.taken else bk.taken[..|bk.taken| - 1]
  }

  ghost predicate BookOk(bk: Bucket, sym: Ticker)
    requires sym in bk.books
  {
    if bk.worker.Editing? && bk.worker.order.ticker == sym then
      && Sequential(ForSymbol(Done(bk), sym), bk.worker.before)
      && Valid(bk.worker.before) && Edited(bk.worker.before, bk.worker.order, bk.books[sym])
    else Sequential(ForSymbol(Done(bk), sym), bk.books[sym])
  }

  predicate MessageOk(o: Order, n: string, books: map<Ticker, Book>) {
    GetBucket(o.ticker) == n && o.ticker in books && HasQuantity(o)
  }

  /** Each trade made for a message has the order of that message as a party. */
  predicate EntryOk(entry: (Order, seq<Trade>)) {
    forall t | t in entry.1 :: IsSide(entry.0.side) && Party(t, SideOf(entry.0.side)) == entry.0.id
  }

  ghost predicate BucketOk(n: string, bk: Bucket) {
    && (forall o | o in bk.taken :: MessageOk(o, n, bk.books))
    && (forall o | o in bk.queue :: MessageOk(o, n, bk.books))
    && (!bk.worker.Waiting? ==> bk.taken != [] && bk.worker.order == bk.taken[|bk.taken| - 1])
    && (forall sym | sym in bk.books :: GetBucket(sym) == n && BookOk(bk, sym))
    && (forall e | e in bk.log :: EntryOk(e))
    && bk.dropped == 0
  }

  ghost predicate ReceiverOk(s: State) {
    match s.receiver
    case Idle => true
    case NeedBucket(sym, pending) =>
      pending.Some? ==> pending.value.ticker == sym && HasQuantity(pending.value)
    case NeedBook(sym, pending) =>
      && (pending.Some? ==> pending.value.ticker == sym && HasQuantity(pending.value))
      && GetBucket(sym) in s.buckets
    case NeedEnqueue(o) =>
      var n := GetBucket(o.ticker);
      n in s.buckets && MessageOk(o, n, s.buckets[n].books)
  }

  ghost predicate Inv(s: State) {
    && ReceiverOk(s)
    && (forall n | n in s.buckets :: BucketOk(n, s.buckets[n]))
    && (forall n | n in s.buckets :: s.buckets[n].taken + s.buckets[n].queue == ForBucket(s.accepted, n))
    && (forall o | o in s.accepted :: GetBucket(o.ticker) in s.buckets)
  }

  lemma {:induction false} ForBucketAbsent(msgs: seq<Order>, n: string)
    requires forall o | o in msgs :: GetBucket(o.ticker) != n
    ensures ForBucket(msgs, n) == []
    decreases |msgs|
  {
    if msgs != [] { ForBucketAbsent(msgs[..|msgs| - 1], n); }
  }

  lemma EmplaceBucketKeepsInv(s: State, s': State)
    requires Inv(s) && EmplaceBucket(s, s')
    ensures Inv(s')
  {
    var n := GetBucket(s.receiver.sym);
    if n !in s.buckets {
      ForBucketAbsent(s.accepted, n);
      assert BucketOk(n, NEW_BUCKET);
    }
  }

  lemma NewBookIsOk(n: string, bk: Bucket, sym: Ticker)
    requires BucketOk(n, bk) && sym !in bk.books && GetBucket(sym) == n
    ensures BucketOk(n, bk.(books := bk.books[sym := EMPTY_BOOK]))
  {
    var bk' := bk.(books := bk.books[sym := EMPTY_BOOK]);
    forall k | k in bk'.books ensures GetBucket(k) == n && BookOk(bk', k) {
      if k == sym {
        assert forall o | o in Done(bk) :: o in bk.taken;
        ForSymbolAbsent(Done(bk), sym);
        assert bk.worker.Editing? ==> bk.worker.order in bk.taken;
        assert !(bk.worker.Editing? && bk.worker.order.ticker == sym);
      } else {
        assert BookOk(bk, k);
      }
    }
    assert forall o | o in bk.taken :: MessageOk(o, n, bk.books);
    assert forall o | o in bk.queue :: MessageOk(o, n, bk.books);
  }

  lemma EmplaceBookKeepsInv(s: State, s': State)
    requires Inv(s) && EmplaceBook(s, s')
    ensures Inv(s')
  {
    var sym := s.receiver.sym;
    var n := GetBucket(sym);
    assert BucketOk(n, s.buckets[n]);
    if sym !in s.buckets[n].books { NewBookIsOk(n, s.buckets[n], sym); }
    assert BucketOk(n, s'.buckets[n]);
  }

  lemma EnqueueKeepsBucket(n: string, bk: Bucket, o: Order)
    requires BucketOk(n, bk) && MessageOk(o, n, bk.books)
    ensures BucketOk(n, bk.(queue := bk.queue + [o]))
  {
    var bk' := bk.(queue := bk.queue + [o]);
    forall sym | sym in bk'.books ensures GetBucket(sym) == n && BookOk(bk', sym) {
      assert BookOk(bk, sym);
    }
  }

  lemma EnqueueKeepsInv(s: State, s': State)
    requires Inv(s) && Enqueue(s, s')
    ensures Inv(s')
  {
    var o := s.receiver.order;
    var n := GetBucket(o.ticker);
    assert BucketOk(n, s.buckets[n]);
    EnqueueKeepsBucket(n, s.buckets[n], o);
    forall k | k in s'.buckets ensures s'.buckets[k].taken + s'.buckets[k].queue == ForBucket(s'.accepted, k) {
      ForBucketSnoc(s.accepted, o, k);
    }
  }

  lemma DequeueKeepsBucket(n: string, bk: Bucket, bk': Bucket)
    requires BucketOk(n, bk) && Dequeue(bk, bk')
    ensures BucketOk(n, bk') && bk'.taken + bk'.queue == bk.taken + bk.queue
  {
    assert Done(bk') == Done(bk);
    forall sym | sym in bk'.books ensures GetBucket(sym) == n && BookOk(bk', sym) {
      assert BookOk(bk, sym);
    }
  }

  lemma EditKeepsBook(bk: Bucket, bk': Bucket, o: Order, before: Book, mid: Book, sym: Ticker)
    requires bk.worker.Holding? && bk.worker.order == o && o.ticker in bk.books && before == bk.books[o.ticker]
    requires Valid(before) && Edited(before, o, mid) && sym in bk.books && BookOk(bk, sym)
    requires bk' == bk.(worker := Editing(o, before), books := bk.books[o.ticker := mid])
    ensures BookOk(bk', sym)
  {
  }

  lemma EditKeepsBucket(n: string, bk: Bucket, bk': Bucket)
    requires BucketOk(n, bk) && Edit(bk, bk')
    ensures BucketOk(n, bk') && bk'.taken + bk'.queue == bk.taken + bk.queue
  {
    var o := bk.worker.order;
    assert o in bk.taken && MessageOk(o, n, bk.books);
    var before := bk.books[o.ticker];
    var mid :| Edited(before, o, mid) && bk' == bk.(worker := Editing(o, before), books := bk.books[o.ticker := mid]);
    forall sym | sym in bk'.books ensures GetBucket(sym) == n && BookOk(bk', sym) {
      assert BookOk(bk, sym);
      EditKeepsBook(bk, bk', o, before, mid, sym);
    }
    assert forall m | m in bk.taken :: MessageOk(m, n, bk.books);
    assert forall m | m in bk.queue :: MessageOk(m, n, bk.books);
  }

  lemma ExecuteKeepsBook(n: string, bk: Bucket, trades: seq<Trade>, b': Book)
    requires BucketOk(n, bk) && bk.worker.Editing? && bk.worker.order.ticker in bk.books
    requires Executed(bk.books[bk.worker.order.ticker], trades, b')
    ensures Sequential(ForSymbol(bk.taken, bk.worker.order.ticker), b')
    ensures EntryOk((bk.worker.order, trades))
  {
    var o, before := bk.worker.order, bk.worker.before;
    assert BookOk(bk, o.ticker);
    HandledIsSequential(bk, o, before, trades, b');
    DoneHasQuantities(n, bk, o.ticker);
    SequentialIsOrderly(ForSymbol(Done(bk), o.ticker), before);
    AggressorIsAParty(before, o, trades, b');
  }

  lemma SplitLast<T>(s: seq<T>)
    requires s != []
    ensures s == s[..|s| - 1] + [s[|s| - 1]]
  {
  }

  lemma HandledIsSequential(bk: Bucket, o: Order, before: Book, trades: seq<Trade>, b': Book)
    requires bk.worker == Editing(o, before) && bk.taken != [] && o == bk.taken[|bk.taken| - 1]
    requires Sequential(ForSymbol(Done(bk), o.ticker), before) && o.ticker in bk.books
    requires Valid(before) && Edited(before, o, bk.books[o.ticker]) && Executed(bk.books[o.ticker], trades, b')
    ensures Handled(before, o, trades, b') && Sequential(ForSymbol(bk.taken, o.ticker), b')
  {
    SequentialExtended(ForSymbol(Done(bk), o.ticker), before, o, trades, b');
    SplitLast(bk.taken);
    ForSymbolSnoc(Done(bk), o, o.ticker);
  }

  lemma ExecuteKeepsOtherBooks(bk: Bucket, bk': Bucket, o: Order, b': Book, sym: Ticker)
    requires bk.worker.Editing? && bk.worker.order == o && bk'.worker == Waiting
    requires bk.taken != [] && o == bk.taken[|bk.taken| - 1]
    requires bk'.taken == bk.taken && bk'.books == bk.books[o.ticker := b']
    requires sym in bk.books && sym != o.ticker && BookOk(bk, sym)
    ensures BookOk(bk', sym)
  {
    assert bk.taken == Done(bk) + [o];
    ForSymbolSnoc(Done(bk), o, sym);
    assert ForSymbol(Done(bk'), sym) == ForSymbol(Done(bk), sym);
  }

  lemma ExecuteKeepsBooks(n: string, bk: Bucket, bk': Bucket, o: Order, b': Book)
    requires BucketOk(n, bk) && bk.worker.Editing? && bk.worker.order == o && bk'.worker == Waiting
    requires bk'.taken == bk.taken && bk'.books == bk.books[o.ticker := b']
    requires o.ticker in bk.books && BookOk(bk', o.ticker)
    ensures forall sym | sym in bk'.books :: GetBucket(sym) == n && BookOk(bk', sym)
  {
    assert o in bk.taken && MessageOk(o, n, bk.books);
    forall sym | sym in bk'.books ensures GetBucket(sym) == n && BookOk(bk', sym) {
      if sym != o.ticker {
        assert BookOk(bk, sym);
        ExecuteKeepsOtherBooks(bk, bk', o, b', sym);
      }
    }
  }

  lemma ExecuteKeepsBucket(n: string, bk: Bucket, bk': Bucket)
    requires BucketOk(n, bk) && Execute(bk, bk')
    ensures BucketOk(n, bk') && bk'.taken + bk'.queue == bk.taken + bk.queue
  {
    var o := bk.worker.order;
    var trades, b' :| Executed(bk.books[o.ticker], trades, b')
                      && bk' == bk.(worker := Waiting, books := bk.books[o.ticker := b'],
                                    log := bk.log + [(o, trades)]);
    ExecuteKeepsBook(n, bk, trades, b');
    ExecuteKeepsBooks(n, bk, bk', o, b');
    ExecuteKeepsRest(n, bk, bk', o, b', trades);
  }

  lemma ExecuteKeepsRest(n: string, bk: Bucket, bk': Bucket, o: Order, b': Book, trades: seq<Trade>)
    requires BucketOk(n, bk) && o.ticker in bk.books && EntryOk((o, trades))
    requires bk' == bk.(worker := Waiting, books := bk.books[o.ticker := b'], log := bk.log + [(o, trades)])
    requires forall sym | sym in bk'.books :: GetBucket(sym) == n && BookOk(bk', sym)
    ensures BucketOk(n, bk')
  {
    assert bk'.books.Keys == bk.books.Keys;
    MessagesKeepTheirBooks(n, bk.taken, bk.books, bk'.books);
    MessagesKeepTheirBooks(n, bk.queue, bk.books, bk'.books);
  }

  lemma MessagesKeepTheirBooks(n: string, msgs: seq<Order>, books: map<Ticker, Book>, books': map<Ticker, Book>)
    requires (forall m | m in msgs :: MessageOk(m, n, books)) && books.Keys <= books'.Keys
    ensures forall m | m in msgs :: MessageOk(m, n, books')
  {
    forall m | m in msgs ensures MessageOk(m, n, books') {
      assert MessageOk(m, n, books);
    }
  }

  lemma WorkKeepsInv(s: State, s': State, n: string)
    requires Inv(s) && Work(s, s', n)
    ensures Inv(s')
  {
    var bk := s.buckets[n];
    var bk' :| (Dequeue(bk, bk') || Edit(bk, bk') || Execute(bk, bk')) && s' == s.(buckets := s.buckets[n := bk']);
    WorkKeepsBucket(n, bk, bk');
    WorkKeepsBooks(bk, bk');
    ReplacingABucket(s, n, bk');
  }

  lemma ReplacingABucket(s: State, n: string, bk': Bucket)
    requires Inv(s) && n in s.buckets && BucketOk(n, bk')
    requires bk'.taken + bk'.queue == s.buckets[n].taken + s.buckets[n].queue
    requires s.buckets[n].books.Keys <= bk'.books.Keys
    ensures Inv(s.(buckets := s.buckets[n := bk']))
  {
  }

  lemma WorkKeepsBucket(n: string, bk: Bucket, bk': Bucket)
    requires BucketOk(n, bk) && (Dequeue(bk, bk') || Edit(bk, bk') || Execute(bk, bk'))
    ensures BucketOk(n, bk') && bk'.taken + bk'.queue == bk.taken + bk.queue
  {
    if Dequeue(bk, bk') {
      DequeueKeepsBucket(n, bk, bk');
    } else if Edit(bk, bk') {
      EditKeepsBucket(n, bk, bk');
    } else {
      ExecuteKeepsBucket(n, bk, bk');
    }
  }

  lemma WorkKeepsBooks(bk: Bucket, bk': Bucket)
    requires Dequeue(bk, bk') || Edit(bk, bk') || Execute(bk, bk')
    ensures bk.books.Keys <= bk'.books.Keys
  {
  }

  lemma NextKeepsInv(s: State, s': State)
    requires Inv(s) && Next(s, s')
    ensures Inv(s')
  {
    if exists sym: Ticker, pending :: Receive(s, s', sym, pending) {
    } else if EmplaceBucket(s, s') {
      EmplaceBucketKeepsInv(s, s');
    } else if EmplaceBook(s, s') {
      EmplaceBookKeepsInv(s, s');
    } else if Enqueue(s, s') {
      EnqueueKeepsInv(s, s');
    } else {
      var n :| Work(s, s', n);
      WorkKeepsInv(s, s', n);
    }
  }

  lemma {:induction false} RunKeepsInv(run: seq<State>)
    requires Run(run)
    ensures Inv(run[|run| - 1])
    decreases |run|
  {
    if |run| > 1 {
      var n := |run| - 1;
      RunKeepsInv(run[..n]);
      NextKeepsInv(run[n - 1], run[n]);
    }
  }

  // ---------------------------------------------------------------- what a caller sees

  /**
   In every reachable state, the book of a symbol is a result of handling, one after the other, a
   prefix of that symbol's accepted messages, unless its worker is in the middle of a message for it.
   */
  lemma BooksAreSequential(run: seq<State>, sym: Ticker)
    requires Run(run)
    requires var s := run[|run| - 1];
             && GetBucket(sym) in s.buckets && sym in s.buckets[GetBucket(sym)].books
             && !(s.buckets[GetBucket(sym)].worker.Editing? && s.buckets[GetBucket(sym)].worker.order.ticker == sym)
    ensures var s := run[|run| - 1];
            var b := s.buckets[GetBucket(sym)].books[sym];
            && (exists handled :: handled <= ForSymbol(s.accepted, sym) && Sequential(handled, b))
            && Valid(b) && !Crossed(b) && Positive(b)
  {
    RunKeepsInv(run);
    var s := run[|run| - 1];
    var n := GetBucket(sym);
    var bk := s.buckets[n];
    assert BucketOk(n, bk) && BookOk(bk, sym);
    DoneIsAPrefix(s, sym);
    var handled := ForSymbol(Done(bk), sym);
    assert handled <= ForSymbol(s.accepted, sym) && Sequential(handled, bk.books[sym]);
    DoneHasQuantities(n, bk, sym);
    SequentialIsOrderly(handled, bk.books[sym]);
  }

  /**
   While its worker is in the middle of a message, the book is an edit, by the next accepted message of
   the symbol, of the result of handling those before it.
   */
  lemma EditedBooksAreSequential(run: seq<State>, sym: Ticker)
    requires Run(run)
    requires var s := run[|run| - 1];
             && GetBucket(sym) in s.buckets && sym in s.buckets[GetBucket(sym)].books
             && s.buckets[GetBucket(sym)].worker.Editing? && s.buckets[GetBucket(sym)].worker.order.ticker == sym
    ensures var s := run[|run| - 1];
            var bk := s.buckets[GetBucket(sym)];
            exists handled, before :: handled + [bk.worker.order] <= ForSymbol(s.accepted, sym)
              && Sequential(handled, before) && Valid(before) && !Crossed(before) && Positive(before)
              && Edited(before, bk.worker.order, bk.books[sym])
  {
    RunKeepsInv(run);
    var s := run[|run| - 1];
    var n := GetBucket(sym);
    var bk := s.buckets[n];
    assert BucketOk(n, bk) && BookOk(bk, sym);
    var handled, before := ForSymbol(Done(bk), sym), bk.worker.before;
    TakenIsAPrefix(s, sym);
    SplitLast(bk.taken);
    ForSymbolSnoc(Done(bk), bk.worker.order, sym);
    DoneHasQuantities(n, bk, sym);
    SequentialIsOrderly(handled, before);
    assert handled + [bk.worker.order] <= ForSymbol(s.accepted, sym);
  }

  lemma TakenIsAPrefix(s: State, sym: Ticker)
    requires Inv(s) && GetBucket(sym) in s.buckets
    ensures ForSymbol(s.buckets[GetBucket(sym)].taken, sym) <= ForSymbol(s.accepted, sym)
  {
    var bk := s.buckets[GetBucket(sym)];
    ForSymbolPrefix(bk.taken, bk.queue, sym);
    ForSymbolOfBucket(s.accepted, sym);
  }

  /**
   No worker is ever blocked: with a message in hand it can edit the book, which is there and in order,
   and with an edited book it can finish the matching loop.
   */
  lemma WorkersAreNeverBlocked(run: seq<State>, n: string)
    requires Run(run) && n in run[|run| - 1].buckets
    ensures var bk := run[|run| - 1].buckets[n];
      && (bk.worker.Holding? ==> bk.worker.order.ticker in bk.books && exists bk' :: Edit(bk, bk'))
      && (bk.worker.Editing? ==> exists bk' :: Execute(bk, bk'))
  {
    RunKeepsInv(run);
    var bk := run[|run| - 1].buckets[n];
    assert BucketOk(n, bk);
    if bk.worker.Holding? {
      HeldBookIsReady(n, bk);
      CanEditNow(bk);
    } else if bk.worker.Editing? {
      EditedBookIsReady(n, bk);
      CanExecuteNow(bk);
    }
  }

  lemma HeldBookIsReady(n: string, bk: Bucket)
    requires BucketOk(n, bk) && bk.worker.Holding?
    ensures bk.worker.order.ticker in bk.books && Valid(bk.books[bk.worker.order.ticker])
  {
    var o := bk.worker.order;
    assert o in bk.taken && MessageOk(o, n, bk.books);
    assert BookOk(bk, o.ticker);
    DoneHasQuantities(n, bk, o.ticker);
    SequentialIsOrderly(ForSymbol(Done(bk), o.ticker), bk.books[o.ticker]);
  }

  lemma EditedBookIsReady(n: string, bk: Bucket)
    requires BucketOk(n, bk) && bk.worker.Editing?
    ensures bk.worker.order.ticker in bk.books && Valid(bk.books[bk.worker.order.ticker])
  {
    var o := bk.worker.order;
    assert o in bk.taken && MessageOk(o, n, bk.books);
    assert BookOk(bk, o.ticker);
    Progress.EditKeepsValid(bk.worker.before, o, bk.books[o.ticker]);
  }

  lemma CanEditNow(bk: Bucket)
    requires bk.worker.Holding? && bk.worker.order.ticker in bk.books && Valid(bk.books[bk.worker.order.ticker])
    ensures exists bk' :: Edit(bk, bk')
  {
    var o := bk.worker.order;
    var before := bk.books[o.ticker];
    Progress.CanEdit(before, o);
    var mid :| Edited(before, o, mid);
    assert Edit(bk, bk.(worker := Editing(o, before), books := bk.books[o.ticker := mid]));
  }

  lemma CanExecuteNow(bk: Bucket)
    requires bk.worker.Editing? && bk.worker.order.ticker in bk.books && Valid(bk.books[bk.worker.order.ticker])
    ensures exists bk' :: Execute(bk, bk')
  {
    var o := bk.worker.order;
    var b := bk.books[o.ticker];
    Progress.RunCanFinish(b, [], b);
    var trades, b' :| Executed(b, trades, b');
    assert Execute(bk, bk.(worker := Waiting, books := bk.books[o.ticker := b'], log := bk.log + [(o, trades)]));
  }

  lemma DoneIsAPrefix(s: State, sym: Ticker)
    requires Inv(s) && GetBucket(sym) in s.buckets
    ensures ForSymbol(Done(s.buckets[GetBucket(sym)]), sym) <= ForSymbol(s.accepted, sym)
  {
    var bk := s.buckets[GetBucket(sym)];
    TakenIsAPrefix(s, sym);
    if !bk.worker.Waiting? && bk.taken != [] {
      SplitLast(bk.taken);
      ForSymbolPrefix(Done(bk), [bk.taken[|bk.taken| - 1]], sym);
    }
  }

  lemma DoneHasQuantities(n: string, bk: Bucket, sym: Ticker)
    requires BucketOk(n, bk)
    ensures forall m | m in ForSymbol(Done(bk), sym) :: HasQuantity(m)
  {
    forall m | m in ForSymbol(Done(bk), sym) ensures HasQuantity(m) {
      ForSymbolElements(Done(bk), sym, m);
      assert m in bk.taken && MessageOk(m, n, bk.books);
    }
  }

  /** Once every queue is drained, nothing that was accepted is missing from its book. */
  lemma DrainedBooksAreComplete(run: seq<State>, sym: Ticker)
    requires Run(run)
    requires var s := run[|run| - 1];
             && GetBucket(sym) in s.buckets && sym in s.buckets[GetBucket(sym)].books
             && s.buckets[GetBucket(sym)].worker.Waiting? && s.buckets[GetBucket(sym)].queue == []
    ensures var s := run[|run| - 1];
            Sequential(ForSymbol(s.accepted, sym), s.buckets[GetBucket(sym)].books[sym])
  {
    RunKeepsInv(run);
    var s := run[|run| - 1];
    var n := GetBucket(sym);
    assert BucketOk(n, s.buckets[n]) && BookOk(s.buckets[n], sym);
    assert s.buckets[n].taken + s.buckets[n].queue == s.buckets[n].taken;
    ForSymbolOfBucket(s.accepted, sym);
  }

  /** No message ever lacks its book, and in the whole log two resting orders never trade with each other. */
  lemma OnlyAggressorsTrade(run: seq<State>, n: string)
    requires Run(run) && n in run[|run| - 1].buckets
    ensures var bk := run[|run| - 1].buckets[n];
            && bk.dropped == 0
            && (bk.worker.Holding? ==> bk.worker.order.ticker in bk.books)
            && forall o, trades, t | (o, trades) in bk.log && t in trades ::
                 IsSide(o.side) && Party(t, SideOf(o.side)) == o.id
  {
    RunKeepsInv(run);
    var bk := run[|run| - 1].buckets[n];
    assert BucketOk(n, bk);
    forall o, trades, t | (o, trades) in bk.log && t in trades
      ensures IsSide(o.side) && Party(t, SideOf(o.side)) == o.id
    {
      assert EntryOk((o, trades));
    }
    if bk.worker.Holding? {
      assert bk.worker.order in bk.taken && MessageOk(bk.worker.order, n, bk.books);
    }
  }
}
