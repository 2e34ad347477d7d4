/** The order book object, its fields updated in place. */
module OrderBooks {
  import opened Sums
  import opened Types
  import opened BookModel
  import opened BookInvariant

  /** The last key of a non-empty price-sorted map. */
  method LastPrice(levels: Levels) returns (p: nat)
    requires levels != map[]
    ensures p in levels && forall q | q in levels :: q <= p
  {
    p :| p in levels;
    var rest := levels.Keys - {p};
    while rest != {}
      invariant rest <= levels.Keys
      invariant p in levels && forall q | q in levels && q !in rest :: q <= p
      decreases rest
    {
      var q :| q in rest;
      rest := rest - {q};
      if q > p { p := q; }
    }
  }

  /** The first key of a non-empty price-sorted map. */
  method FirstPrice(levels: Levels) returns (p: nat)
    requires levels != map[]
    ensures p in levels && forall q | q in levels :: p <= q
  {
    p :| p in levels;
    var rest := levels.Keys - {p};
    while rest != {}
      invariant rest <= levels.Keys
      invariant p in levels && forall q | q in levels && q !in rest :: p <= q
      decreases rest
    {
      var q :| q in rest;
      rest := rest - {q};
      if q < p { p := q; }
    }
  }

  /** Some cell that a hive does not use at the moment. */
  method FreeCell(orders: map<nat, Order>) returns (cell: nat)
    ensures cell !in orders
  {
    cell := 0;
    var rest := orders.Keys;
    while rest != {}
      invariant rest <= orders.Keys
      invariant forall c | c in orders && c !in rest :: c < cell
      decreases rest
    {
      var c :| c in rest;
      rest := rest - {c};
      if c >= cell { cell := c + 1; }
    }
  }

  /** An order filed under another id than its own breaks the agreement of index and levels. */
  lemma MisfiledIsInvalid(b: Book, id: OrderId, o: Order, b': Book)
    requires id in b.lookup && Resolves(b, id) && IsSide(o.side) && o.id != id && Misfiled(b, id, o, b')
    ensures !Valid(b')
  {
    var side, rest := SideOf(o.side), Remove(b, id);
    var cell: nat :| cell !in LevelAt(rest.On(side), o.price).orders
      && b' == rest.With(side, InsertOrder(rest.On(side), o, cell))
               .(lookup := b.lookup[id := Location(o.price, Iter(side, o.price, cell))]);
    assert b'.On(side)[o.price].orders[cell] == o;
    assert !Resolves(b', id);
  }

  lemma SameLookup(lookup: map<OrderId, Location>, id: OrderId, loc: Location)
    ensures (lookup - {id})[id := loc] == lookup[id := loc]
  {
  }

  /** Erasing an order and inserting its replacement overwrites the index entry of the old one. */
  lemma ReplacedInPlace(b: Book, id: OrderId, erased: Book, o: Order, cell: nat, b': Book)
    requires Valid(b) && id in b.lookup && Resolves(b, id) && IsSide(o.side) && o.price <= MAX_PRICE
    requires erased == Remove(b, id).(lookup := b.lookup)
    requires var side := SideOf(o.side);
      && cell !in LevelAt(erased.On(side), o.price).orders
      && b' == erased.With(side, InsertOrder(erased.On(side), o, cell))
               .(lookup := erased.lookup[id := Location(o.price, Iter(side, o.price, cell))])
    ensures Modified(b, id, o, Success, b') && (Valid(b') <==> o.id == id)
  {
    var side, rest := SideOf(o.side), Remove(b, id);
    assert erased.On(side) == rest.On(side);
    SameLookup(b.lookup, id, b'.lookup[id]);
    if o.id == id {
      assert b' == InsertAt(rest, o, cell);
      RemoveKeepsValid(b, id);
      InsertedKeepsValid(rest, o, b');
    } else {
      assert b' == rest.With(side, InsertOrder(rest.On(side), o, cell))
                   .(lookup := b.lookup[id := Location(o.price, Iter(side, o.price, cell))]);
      MisfiledIsInvalid(b, id, o, b');
    }
  }

  class Orderbook {
    var bids: Levels
    var asks: Levels
    var lookup: map<OrderId, Location>

    function Value(): Book
      reads this
    {
      Book(bids, asks, lookup)
    }

    constructor ()
      ensures Value() == EMPTY_BOOK && Valid(Value())
    {
      bids, asks, lookup := map[], map[], map[];
    }

    method BestBid() returns (p: nat, found: bool)
      ensures found <==> bids != map[]
      ensures found ==> p in bids && forall q | q in bids :: q <= p
    {
      if bids == map[] { return 0, false; }
      p := LastPrice(bids);
      found := true;
    }

    method BestAsk() returns (p: nat, found: bool)
      ensures found <==> asks != map[]
      ensures found ==> p in asks && forall q | q in asks :: p <= q
    {
      if asks == map[] { return 0, false; }
      p := FirstPrice(asks);
      found := true;
    }

    /** Constructs the level on demand, stores the order in it and records under id where it went. */
    method InsertIntoLevel(id: OrderId, order: Order) returns (ghost cell: nat)
      requires IsSide(order.side)
      modifies this
      ensures var before, side := old(Value()), SideOf(order.side);
        && cell !in LevelAt(before.On(side), order.price).orders
        && Value() == before.With(side, InsertOrder(before.On(side), order, cell))
                      .(lookup := before.lookup[id := Location(order.price, Iter(side, order.price, cell))])
    {
      var side := SideOf(order.side);
      var container := if side.Buy? then bids else asks;
      var level := if order.price in container then container[order.price] else EMPTY_LEVEL;
      var c := FreeCell(level.orders);
      level := Level(level.orders[c := order], (level.totalQty + order.qty) % SIZE_T);
      container := container[order.price := level];
      if side.Buy? { bids := container; } else { asks := container; }
      lookup := lookup[id := Location(order.price, Iter(side, order.price, c))];
      cell := c;
    }

    /** Takes the order at an iterator out of its level, and the level out of the book if that empties it. */
    method EraseFromLevel(side: Side, price: nat, cell: nat)
      requires HasCell(Value().On(side), price, cell)
      modifies this`bids, this`asks
      ensures Value() == old(Value()).With(side, EraseOrder(old(Value()).On(side), price, cell))
    {
      var container := if side.Buy? then bids else asks;
      var level := container[price];
      level := Level(level.orders - {cell}, (level.totalQty - level.orders[cell].qty) % SIZE_T);
      if level.orders == map[] {
        container := container - {price};
      } else {
        container := container[price := level];
      }
      if side.Buy? { bids := container; } else { asks := container; }
    }

    method Add(order: Order) returns (res: OrderResult)
      requires Valid(Value())
      modifies this
      ensures Valid(Value())
      ensures Added(old(Value()), order, res, Value())
    {
      ghost var before := Value();
      if order.id in lookup { return DuplicateId; }
      if !IsSide(order.side) { return InvalidSide; }
      if order.price > MAX_PRICE { return InvalidPrice; }
      ghost var cell := InsertIntoLevel(order.id, order);
      assert Value() == InsertAt(before, order, cell);
      InsertedKeepsValid(before, order, Value());
      return Success;
    }

    /** The new order takes the place of the old one; the book stays in order exactly if it carries the same id. */
    method Modify(id: OrderId, order: Order) returns (res: OrderResult)
      requires Valid(Value())
      modifies this
      ensures Modified(old(Value()), id, order, res, Value())
      ensures Valid(Value()) <==> res != Success || order.id == id
    {
      ghost var before := Value();
      if id !in lookup { return OrderNotFound; }
      var loc := lookup[id];
      assert Resolves(Value(), id);
      if !IsSide(order.side) { return InvalidSide; }
      if order.price > MAX_PRICE { return InvalidPrice; }
      EraseFromLevel(loc.iter.side, loc.price, loc.iter.cell);
      ghost var erased := Value();
      ghost var cell := InsertIntoLevel(id, order);
      ReplacedInPlace(before, id, erased, order, cell, Value());
      return Success;
    }

    method Cancel(id: OrderId) returns (res: OrderResult)
      requires Valid(Value())
      modifies this
      ensures Valid(Value())
      ensures Cancelled(old(Value()), id, res, Value())
    {
      ghost var before := Value();
      if id !in lookup { return OrderNotFound; }
      var loc := lookup[id];
      assert Resolves(Value(), id);
      EraseFromLevel(loc.iter.side, loc.price, loc.iter.cell);
      lookup := lookup - {id};
      RemoveKeepsValid(before, id);
      return Success;
    }

    /** Takes m out of one resting order; a used-up order leaves its level and the index, an emptied level the book. */
    method FillFront(side: Side, price: nat, cell: nat, m: nat)
      requires HasCell(Value().On(side), price, cell) && m <= Value().On(side)[price].orders[cell].qty
      modifies this
      ensures var o := old(Value()).On(side)[price].orders[cell];
              Value() == old(Value()).With(side, FillOrder(old(Value()).On(side), price, cell, m))
                         .(lookup := old(lookup) - if o.qty == m then {o.id} else {})
    {
      var container := if side.Buy? then bids else asks;
      var level := container[price];
      var o := level.orders[cell];
      o := o.(qty := o.qty - m);
      level := Level(level.orders[cell := o], (level.totalQty - m) % SIZE_T);
      if o.qty == 0 {
        level := Level(level.orders - {cell}, level.totalQty);
        lookup := lookup - {o.id};
      }
      assert level.orders == Filled(container[price].orders, cell, m);
      if level.orders == map[] {
        container := container - {price};
      } else {
        container := container[price := level];
      }
      if side.Buy? { bids := container; } else { asks := container; }
    }

    /** One round of the loop: trades the fronts of the two best levels. */
    method TradeFronts(bid: nat, ask: nat) returns (t: Trade, ghost bc: nat, ghost ac: nat)
      requires IsBest(bid, ask, Value()) && bid >= ask
      requires bids[bid].orders != map[] && asks[ask].orders != map[]
      modifies this
      ensures StepAt(old(Value()), t, bc, ac, Value())
    {
      var b: nat :| b in bids[bid].orders;
      var a: nat :| a in asks[ask].orders;
      var buy, sell := bids[bid].orders[b], asks[ask].orders[a];
      t := Trade(buy.id, bid, if buy.qty < sell.qty then buy.qty else sell.qty, sell.id, ask);
      FillFront(Buy, bid, b, t.qty);
      FillFront(Sell, ask, a, t.qty);
      bc, ac := b, a;
    }

    /** Matches until no bid reaches an ask, and returns the trades it reports. */
    method Execute() returns (trades: seq<Trade>)
      requires Valid(Value())
      modifies this
      ensures Valid(Value())
      ensures Executed(old(Value()), trades, Value())
    {
      trades := [];
      while true
        invariant Valid(Value())
        invariant Matching(old(Value()), trades, Value())
        decreases |lookup|
      {
        if bids == map[] || asks == map[] { break; }
        var bid := LastPrice(bids);
        var ask := FirstPrice(asks);
        if bid < ask { break; }
        ghost var mid := Value();
        // A level without orders would end the loop here; Valid says there is none.
        assert bids[bid].orders != map[] && asks[ask].orders != map[];
        var t, bc, ac := TradeFronts(bid, ask);
        MatchingExtended(old(Value()), trades, mid, t, bc, ac, Value());
        trades := trades + [t];
      }
    }
  }
}
