/**
 What one message does to the orders of a book, seen by their ids: the order it adds, replaces or cancels,
 and how much every order has lost to the trades that name it.
 */
module Messages {
  import opened Types
  import opened BookModel
  import opened BookInvariant
  import opened LevelRefinement
  import opened Aggressor
  import Progress

  /** The orders of a book by id. */
  function OrdersOf(b: Book): map<OrderId, Order> {
    map id | id in b.lookup && Resolves(b, id) :: Stored(b, id)
  }

  lemma OrdersAt(b: Book, id: OrderId)
    requires id in b.lookup ==> Resolves(b, id)
    ensures id in OrdersOf(b) <==> id in b.lookup
    ensures id in b.lookup ==> OrdersOf(b)[id] == Stored(b, id)
  {
  }

  lemma OrdersAre(b: Book, orders: map<OrderId, Order>)
    requires forall id | id in b.lookup :: Resolves(b, id)
    requires b.lookup.Keys == orders.Keys && forall id | id in b.lookup :: Stored(b, id) == orders[id]
    ensures OrdersOf(b) == orders
  {
  }

  /** An order rests in the book with what it carries: these are all of them. */
  lemma OrdersAreAll(b: Book, side: Side, p: nat, c: nat)
    requires Valid(b) && HasCell(b.On(side), p, c)
    ensures var o := b.On(side)[p].orders[c];
      o.id in OrdersOf(b) && OrdersOf(b)[o.id] == o && o.price == p && o.side == side.Code()
  {
    assert OrderOk(b.On(side)[p].orders[c], side, p, c, b.lookup);
  }

  // ---------------------------------------------------------------- the edits

  lemma InsertKeepsStored(b: Book, o: Order, cell: nat, id: OrderId)
    requires id in b.lookup && Resolves(b, id) && id != o.id && IsSide(o.side)
    requires cell !in LevelAt(b.On(SideOf(o.side)), o.price).orders
    ensures var b' := InsertAt(b, o, cell); id in b'.lookup && Resolves(b', id) && Stored(b', id) == Stored(b, id)
  {
    var loc := b.lookup[id];
    InsertKeepsResolved(b, o, cell, id);
    InsertAtCell(b.On(SideOf(o.side)), o, cell, loc.price, loc.iter.cell);
  }

  lemma InsertStores(b: Book, o: Order, cell: nat)
    requires IsSide(o.side) && cell !in LevelAt(b.On(SideOf(o.side)), o.price).orders
    ensures var b' := InsertAt(b, o, cell); o.id in b'.lookup && Resolves(b', o.id) && Stored(b', o.id) == o
  {
    InsertAtCell(b.On(SideOf(o.side)), o, cell, o.price, cell);
  }

  lemma InsertShows(b: Book, o: Order, cell: nat)
    requires (forall id | id in b.lookup :: Resolves(b, id)) && o.id !in b.lookup && IsSide(o.side)
    requires cell !in LevelAt(b.On(SideOf(o.side)), o.price).orders
    ensures OrdersOf(InsertAt(b, o, cell)) == OrdersOf(b)[o.id := o]
  {
    var b' := InsertAt(b, o, cell);
    InsertStores(b, o, cell);
    forall id | id in b'.lookup ensures Resolves(b', id) && Stored(b', id) == OrdersOf(b)[o.id := o][id] {
      if id != o.id {
        InsertKeepsStored(b, o, cell, id);
        OrdersAt(b, id);
      }
    }
    OrdersAre(b', OrdersOf(b)[o.id := o]);
  }

  lemma InsertedShows(b: Book, o: Order, b': Book)
    requires Valid(b) && o.id !in b.lookup && IsSide(o.side) && o.price <= MAX_PRICE && Inserted(b, o, b')
    ensures OrdersOf(b') == OrdersOf(b)[o.id := o]
  {
    var cell: nat :| cell !in LevelAt(b.On(SideOf(o.side)), o.price).orders && b' == InsertAt(b, o, cell);
    InsertShows(b, o, cell);
  }

  lemma RemoveKeepsStored(b: Book, id: OrderId, k: OrderId)
    requires id in b.lookup && Resolves(b, id) && k in b.lookup && Resolves(b, k) && k != id
    ensures var b' := Remove(b, id); k in b'.lookup && Resolves(b', k) && Stored(b', k) == Stored(b, k)
  {
    var loc, kept := b.lookup[id], b.lookup[k];
    RemoveKeepsResolved(b, id, k);
    EraseAtCell(b.On(loc.iter.side), loc.price, loc.iter.cell, kept.price, kept.iter.cell);
  }

  lemma RemoveShows(b: Book, id: OrderId)
    requires (forall k | k in b.lookup :: Resolves(b, k)) && id in b.lookup
    ensures OrdersOf(Remove(b, id)) == OrdersOf(b) - {id}
  {
    var b' := Remove(b, id);
    forall k | k in b'.lookup ensures Resolves(b', k) && Stored(b', k) == (OrdersOf(b) - {id})[k] {
      RemoveKeepsStored(b, id, k);
      OrdersAt(b, k);
    }
    OrdersAre(b', OrdersOf(b) - {id});
  }

  /** The orders after the edit that a message asks for, before any trade. */
  function Asked(orders: map<OrderId, Order>, o: Order): map<OrderId, Order> {
    var updates := o.status == STATUS_PARTIALLY_FILLED || o.status == STATUS_FILLED;
    if o.status == STATUS_CANCELLED then orders - {o.id}
    else if IsSide(o.side) && o.price <= MAX_PRICE
            && ((o.status == STATUS_NEW && o.id !in orders) || (updates && o.id in orders)) then orders[o.id := o]
    else orders
  }

  lemma NewJoins(b: Book, o: Order, mid: Book)
    requires Valid(b) && o.status == STATUS_NEW && Edited(b, o, mid)
    ensures OrdersOf(mid) == Asked(OrdersOf(b), o)
  {
    var res :| Added(b, o, res, mid);
    KnownById(b, o.id);
    AddShows(b, o, res, mid);
    AskedNew(OrdersOf(b), o);
  }

  lemma AddShows(b: Book, o: Order, res: OrderResult, mid: Book)
    requires Valid(b) && Added(b, o, res, mid)
    ensures OrdersOf(mid) == if o.id !in b.lookup && IsSide(o.side) && o.price <= MAX_PRICE
                             then OrdersOf(b)[o.id := o] else OrdersOf(b)
  {
    if res == Success { InsertedShows(b, o, mid); }
  }

  lemma AskedNew(orders: map<OrderId, Order>, o: Order)
    requires o.status == STATUS_NEW
    ensures Asked(orders, o) == if o.id !in orders && IsSide(o.side) && o.price <= MAX_PRICE
                                then orders[o.id := o] else orders
  {
  }

  lemma KnownById(b: Book, id: OrderId)
    requires Valid(b)
    ensures id in OrdersOf(b) <==> id in b.lookup
  {
    assert id in b.lookup ==> Resolves(b, id);
    OrdersAt(b, id);
  }

  lemma CancelledGoes(b: Book, o: Order, mid: Book)
    requires Valid(b) && o.status == STATUS_CANCELLED && Edited(b, o, mid)
    ensures OrdersOf(mid) == Asked(OrdersOf(b), o)
  {
    var res :| Cancelled(b, o.id, res, mid);
    KnownById(b, o.id);
    if o.id in b.lookup { RemoveShows(b, o.id); } else { NothingToRemove(OrdersOf(b), o.id); }
  }

  lemma NothingToRemove<K, V>(m: map<K, V>, k: K)
    requires k !in m
    ensures m - {k} == m
  {
  }

  lemma PutBack<K, V>(m: map<K, V>, k: K, v: V)
    ensures (m - {k})[k := v] == m[k := v]
  {
  }

  lemma UpdatedIsReplaced(b: Book, o: Order, mid: Book)
    requires Valid(b) && (o.status == STATUS_PARTIALLY_FILLED || o.status == STATUS_FILLED) && Edited(b, o, mid)
    ensures OrdersOf(mid) == Asked(OrdersOf(b), o)
  {
    var res :| Modified(b, o.id, o, res, mid);
    KnownById(b, o.id);
    ModifyShows(b, o, res, mid);
    AskedUpdate(OrdersOf(b), o);
  }

  lemma ModifyShows(b: Book, o: Order, res: OrderResult, mid: Book)
    requires Valid(b) && (o.id in b.lookup ==> Resolves(b, o.id)) && Modified(b, o.id, o, res, mid)
    ensures OrdersOf(mid) == if o.id in b.lookup && IsSide(o.side) && o.price <= MAX_PRICE
                             then OrdersOf(b)[o.id := o] else OrdersOf(b)
  {
    if res == Success { ReplacedShows(b, o, mid); }
  }

  lemma AskedUpdate(orders: map<OrderId, Order>, o: Order)
    requires o.status == STATUS_PARTIALLY_FILLED || o.status == STATUS_FILLED
    ensures Asked(orders, o) == if o.id in orders && IsSide(o.side) && o.price <= MAX_PRICE
                                then orders[o.id := o] else orders
  {
  }

  lemma ReplacedShows(b: Book, o: Order, mid: Book)
    requires Valid(b) && o.id in b.lookup && Resolves(b, o.id) && IsSide(o.side) && o.price <= MAX_PRICE
    requires Inserted(Remove(b, o.id), o, mid)
    ensures OrdersOf(mid) == OrdersOf(b)[o.id := o]
  {
    RemoveKeepsValid(b, o.id);
    RemoveShows(b, o.id);
    InsertedShows(Remove(b, o.id), o, mid);
    PutBack(OrdersOf(b), o.id, o);
  }

  /**
   A new order joins the others unless its id is taken; a cancel takes exactly its order out; an update
   replaces exactly its order; and whatever the book refuses leaves every order as it is.
   */
  lemma EditDoesWhatIsAsked(b: Book, o: Order, mid: Book)
    requires Valid(b) && Edited(b, o, mid)
    ensures OrdersOf(mid) == Asked(OrdersOf(b), o)
  {
    if o.status == STATUS_NEW {
      NewJoins(b, o, mid);
    } else if o.status == STATUS_CANCELLED {
      CancelledGoes(b, o, mid);
    } else if o.status == STATUS_PARTIALLY_FILLED || o.status == STATUS_FILLED {
      UpdatedIsReplaced(b, o, mid);
    }
  }

  // ---------------------------------------------------------------- the trades

  predicate Names(t: Trade, id: OrderId) {
    t.buyId == id || t.sellId == id
  }

  /** What the trades took out of an order. */
  function TradedBy(trades: seq<Trade>, id: OrderId): nat {
    if trades == [] then 0
    else
      var n := |trades| - 1;
      TradedBy(trades[..n], id) + if Names(trades[n], id) then trades[n].qty else 0
  }

  predicate Named(trades: seq<Trade>, id: OrderId) {
    exists t | t in trades :: Names(t, id)
  }

  /** An order has lost m: it rests with m less, or is gone because that was all a party to a trade had. */
  predicate Lost(orders: map<OrderId, Order>, orders': map<OrderId, Order>, id: OrderId, m: nat, named: bool) {
    && (id !in orders ==> id !in orders' && m == 0)
    && (id in orders ==> m <= orders[id].qty && if id in orders' then orders'[id] == Reduced(orders[id], m)
                                                else named && m == orders[id].qty)
  }

  lemma StepTakes(b: Book, t: Trade, b': Book, id: OrderId)
    requires Valid(b) && Step(b, t, b')
    ensures Valid(b') && Lost(OrdersOf(b), OrdersOf(b'), id, if Names(t, id) then t.qty else 0, Names(t, id))
  {
    var bc: nat, ac: nat :| StepAt(b, t, bc, ac, b');
    MatchKeepsValid(b, t, bc, ac, b');
    StepTakesAt(b, t, bc, ac, b', id);
  }

  lemma StepTakesAt(b: Book, t: Trade, bc: nat, ac: nat, b': Book, id: OrderId)
    requires Valid(b) && Valid(b') && StepAt(b, t, bc, ac, b')
    ensures Lost(OrdersOf(b), OrdersOf(b'), id, if Names(t, id) then t.qty else 0, Names(t, id))
  {
    NamedHaveEnough(b, t, bc, ac, id);
    StillThere(b, t, bc, ac, b', id);
    NoLongerThere(b, t, bc, ac, b', id);
    IsLost(OrdersOf(b), OrdersOf(b'), id, t);
  }

  lemma NamedHaveEnough(b: Book, t: Trade, bc: nat, ac: nat, id: OrderId)
    requires Valid(b) && HasCell(b.bids, t.bidPrice, bc) && HasCell(b.asks, t.askPrice, ac)
    requires t == TradeOf(b, t.bidPrice, bc, t.askPrice, ac)
    ensures Names(t, id) ==> id in OrdersOf(b) && t.qty <= OrdersOf(b)[id].qty
  {
    PartiesAre(b, t, bc, ac);
    if Names(t, id) { OrdersAt(b, id); }
  }

  lemma StillThere(b: Book, t: Trade, bc: nat, ac: nat, b': Book, id: OrderId)
    requires Valid(b) && Valid(b') && StepAt(b, t, bc, ac, b')
    ensures id in OrdersOf(b') ==> id in OrdersOf(b) && (Names(t, id) ==> t.qty <= OrdersOf(b)[id].qty)
    ensures id in OrdersOf(b') ==> OrdersOf(b')[id] == Reduced(OrdersOf(b)[id], if Names(t, id) then t.qty else 0)
  {
    if id in OrdersOf(b') {
      PartiesAre(b, t, bc, ac);
      KnownById(b', id);
      assert Resolves(b, id) && Resolves(b', id);
      OrdersAt(b, id);
      OrdersAt(b', id);
      StillStored(b, t, bc, ac, b', id);
    }
  }

  lemma NoLongerThere(b: Book, t: Trade, bc: nat, ac: nat, b': Book, id: OrderId)
    requires Valid(b) && Valid(b') && StepAt(b, t, bc, ac, b')
    ensures id in OrdersOf(b) && id !in OrdersOf(b') ==> Names(t, id) && OrdersOf(b)[id].qty == t.qty
  {
    if id in OrdersOf(b) && id !in OrdersOf(b') {
      PartiesAre(b, t, bc, ac);
      KnownById(b, id);
      KnownById(b', id);
      assert Resolves(b, id);
      OrdersAt(b, id);
      GoneWasUsedUp(b, t, bc, ac, b', id);
    }
  }

  lemma IsLost(orders: map<OrderId, Order>, orders': map<OrderId, Order>, id: OrderId, t: Trade)
    requires Names(t, id) ==> id in orders && t.qty <= orders[id].qty
    requires id in orders' ==> id in orders && orders'[id] == Reduced(orders[id], if Names(t, id) then t.qty else 0)
    requires id in orders && id !in orders' ==> Names(t, id) && orders[id].qty == t.qty
    ensures Lost(orders, orders', id, if Names(t, id) then t.qty else 0, Names(t, id))
  {
  }

  lemma GoneWasUsedUp(b: Book, t: Trade, bc: nat, ac: nat, b': Book, id: OrderId)
    requires StepAt(b, t, bc, ac, b') && id in b.lookup && Resolves(b, id) && id !in b'.lookup
    requires t.buyId in b.lookup && b.lookup[t.buyId] == Location(t.bidPrice, Iter(Buy, t.bidPrice, bc))
    requires t.sellId in b.lookup && b.lookup[t.sellId] == Location(t.askPrice, Iter(Sell, t.askPrice, ac))
    ensures Names(t, id) && Stored(b, id).qty == t.qty
  {
    assert b'.lookup == b.lookup - UsedUp(b, t, bc, ac);
  }

  /** The parties to a trade are where the trade found them. */
  lemma PartiesAre(b: Book, t: Trade, bc: nat, ac: nat)
    requires Valid(b) && HasCell(b.bids, t.bidPrice, bc) && HasCell(b.asks, t.askPrice, ac)
    requires t == TradeOf(b, t.bidPrice, bc, t.askPrice, ac)
    ensures t.buyId in b.lookup && b.lookup[t.buyId] == Location(t.bidPrice, Iter(Buy, t.bidPrice, bc))
    ensures t.sellId in b.lookup && b.lookup[t.sellId] == Location(t.askPrice, Iter(Sell, t.askPrice, ac))
    ensures Resolves(b, t.buyId) && Stored(b, t.buyId) == b.bids[t.bidPrice].orders[bc]
    ensures Resolves(b, t.sellId) && Stored(b, t.sellId) == b.asks[t.askPrice].orders[ac]
  {
    assert OrderOk(b.bids[t.bidPrice].orders[bc], Buy, t.bidPrice, bc, b.lookup);
    assert OrderOk(b.asks[t.askPrice].orders[ac], Sell, t.askPrice, ac, b.lookup);
  }

  lemma StillStored(b: Book, t: Trade, bc: nat, ac: nat, b': Book, id: OrderId)
    requires StepAt(b, t, bc, ac, b') && id in b'.lookup
    requires id in b.lookup && Resolves(b, id) && Resolves(b', id)
    requires t.buyId in b.lookup && b.lookup[t.buyId] == Location(t.bidPrice, Iter(Buy, t.bidPrice, bc))
    requires t.sellId in b.lookup && b.lookup[t.sellId] == Location(t.askPrice, Iter(Sell, t.askPrice, ac))
    ensures var m := if Names(t, id) then t.qty else 0;
      m <= Stored(b, id).qty && Stored(b', id) == Reduced(Stored(b, id), m)
  {
    var loc := b.lookup[id];
    assert b'.lookup[id] == loc;
    FillAtCell(b.bids, t.bidPrice, bc, t.qty, loc.price, loc.iter.cell);
    FillAtCell(b.asks, t.askPrice, ac, t.qty, loc.price, loc.iter.cell);
  }

  lemma NamedBefore(trades: seq<Trade>, id: OrderId)
    requires trades != []
    ensures var n := |trades| - 1; Named(trades, id) <==> Named(trades[..n], id) || Names(trades[n], id)
  {
    var n := |trades| - 1;
    assert forall t | t in trades :: t == trades[n] || t in trades[..n];
  }

  lemma LostOnceMore(a: map<OrderId, Order>, b: map<OrderId, Order>, c: map<OrderId, Order>, id: OrderId,
                     trades: seq<Trade>)
    requires trades != []
    requires Lost(a, b, id, TradedBy(trades[..|trades| - 1], id), Named(trades[..|trades| - 1], id))
    requires var t := trades[|trades| - 1]; Lost(b, c, id, if Names(t, id) then t.qty else 0, Names(t, id))
    ensures Lost(a, c, id, TradedBy(trades, id), Named(trades, id))
  {
    NamedBefore(trades, id);
  }

  lemma {:induction false} TradesTake(b: Book, trades: seq<Trade>, b': Book, id: OrderId)
    requires Valid(b) && Matching(b, trades, b')
    ensures Valid(b') && Lost(OrdersOf(b), OrdersOf(b'), id, TradedBy(trades, id), Named(trades, id))
    decreases |trades|
  {
    if trades != [] {
      var n := |trades| - 1;
      var mid :| Matching(b, trades[..n], mid) && Step(mid, trades[n], b');
      TradesTake(b, trades[..n], mid, id);
      StepTakes(mid, trades[n], b', id);
      LostOnceMore(OrdersOf(b), OrdersOf(mid), OrdersOf(b'), id, trades);
    }
  }

  // ---------------------------------------------------------------- a whole message

  /**
   What one message does to every order: it is as the message asked, less what the trades naming it took,
   and gone exactly when nothing is left.
   */
  lemma MessageEffect(b: Book, o: Order, trades: seq<Trade>, b': Book, id: OrderId)
    requires Valid(b) && Handled(b, o, trades, b')
    ensures Valid(b') && Lost(Asked(OrdersOf(b), o), OrdersOf(b'), id, TradedBy(trades, id), Named(trades, id))
  {
    var mid :| Edited(b, o, mid) && Executed(mid, trades, b');
    EditDoesWhatIsAsked(b, o, mid);
    Progress.EditKeepsValid(b, o, mid);
    TradesTake(mid, trades, b', id);
  }

  /** With positive quantities an order is still there exactly if the trades have left something of it. */
  lemma GoneMeansUsedUp(b: Book, o: Order, trades: seq<Trade>, b': Book, id: OrderId)
    requires Valid(b) && Positive(b) && HasQuantity(o) && Handled(b, o, trades, b')
    ensures Valid(b')
    ensures id in OrdersOf(b') <==> id in Asked(OrdersOf(b), o) && TradedBy(trades, id) < Asked(OrdersOf(b), o)[id].qty
  {
    MessageEffect(b, o, trades, b', id);
    HandledKeepsPositive(b, o, trades, b');
    if id in OrdersOf(b') {
      var loc := b'.lookup[id];
      assert Resolves(b', id) && HasCell(b'.On(loc.iter.side), loc.price, loc.iter.cell);
      assert OrdersOf(b')[id].qty > 0;
    }
  }

  /** A cancel on an uncrossed book takes its order out, makes no trade and touches no other order. */
  lemma CancelTakesOut(b: Book, o: Order, trades: seq<Trade>, b': Book)
    requires Valid(b) && !Crossed(b) && o.status == STATUS_CANCELLED && Handled(b, o, trades, b')
    ensures Valid(b') && trades == [] && OrdersOf(b') == OrdersOf(b) - {o.id}
  {
    AggressorIsAParty(b, o, trades, b');
    var mid :| Edited(b, o, mid) && Executed(mid, trades, b');
    EditDoesWhatIsAsked(b, o, mid);
  }
}
