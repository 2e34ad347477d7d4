/**
 What one order book holds, and what each of its operations does to it.

 A price level keeps its orders in a hive, which hands out stable cells but promises no order: an
 insertion may use any free cell, and the front of a level may be any of its orders. Both choices
 are therefore left open here, so every result below holds for all of them.
 */
module BookModel {
  import opened Sums
  import opened Types

  const MAX_PRICE: nat := 20000

  datatype OrderResult = Success | DuplicateId | OrderNotFound | InvalidSide | InvalidPrice

  /** A hive iterator names the level whose hive it walks, and a cell in that hive. */
  datatype Iter = Iter(side: Side, price: nat, cell: nat)
  datatype Location = Location(price: nat, iter: Iter)
  datatype Level = Level(orders: map<nat, Order>, totalQty: nat)
  type Levels = map<nat, Level>
  datatype Book = Book(bids: Levels, asks: Levels, lookup: map<OrderId, Location>) {
    function On(side: Side): Levels {
      if side.Buy? then bids else asks
    }

    function With(side: Side, levels: Levels): Book {
      if side.Buy? then this.(bids := levels) else this.(asks := levels)
    }
  }

  const EMPTY_BOOK := Book(map[], map[], map[])
  const EMPTY_LEVEL := Level(map[], 0)

  // ---------------------------------------------------------------- quantities

  function Qtys(orders: map<nat, Order>): map<nat, nat> {
    map c | c in orders :: orders[c].qty
  }

  ghost function LevelQty(orders: map<nat, Order>): nat {
    Sum(Qtys(orders))
  }

  /** The true quantity resting at each price; the cached totals are these, modulo 2^64. */
  ghost function Totals(levels: Levels): map<nat, nat> {
    map p | p in levels :: LevelQty(levels[p].orders)
  }

  datatype Prices = AllPrices | AtLeast(bound: nat) | AtMost(bound: nat) {
    predicate Has(p: nat) {
      match this
      case AllPrices => true
      case AtLeast(q) => p >= q
      case AtMost(q) => p <= q
    }
  }

  ghost function TotalsIn(levels: Levels, prices: Prices): map<nat, nat> {
    map p | p in levels && prices.Has(p) :: LevelQty(levels[p].orders)
  }

  ghost function QtyIn(levels: Levels, prices: Prices): nat {
    Sum(TotalsIn(levels, prices))
  }

  // ---------------------------------------------------------------- representation invariant

  predicate HasCell(levels: Levels, price: nat, cell: nat) {
    price in levels && cell in levels[price].orders
  }

  predicate OrderOk(o: Order, side: Side, price: nat, cell: nat, lookup: map<OrderId, Location>) {
    && o.price == price
    && o.side == side.Code()
    && o.id in lookup
    && lookup[o.id] == Location(price, Iter(side, price, cell))
  }

  ghost predicate TotalOk(level: Level) {
    level.totalQty == LevelQty(level.orders) % SIZE_T
  }

  /** Totals are right and no level is empty. */
  ghost predicate Counted(levels: Levels) {
    forall p | p in levels :: p <= MAX_PRICE && levels[p].orders != map[] && TotalOk(levels[p])
  }

  /** Every resting order has its own price, its own side, and an index entry leading to its cell. */
  ghost predicate Indexed(levels: Levels, side: Side, lookup: map<OrderId, Location>) {
    forall p, c | HasCell(levels, p, c) :: OrderOk(levels[p].orders[c], side, p, c, lookup)
  }

  /** The index entry of id leads to a resting order with that id. */
  predicate Resolves(b: Book, id: OrderId)
    requires id in b.lookup
  {
    var loc := b.lookup[id];
    && loc.iter.price == loc.price
    && HasCell(b.On(loc.iter.side), loc.price, loc.iter.cell)
    && b.On(loc.iter.side)[loc.price].orders[loc.iter.cell].id == id
  }

  /** Index and levels agree, totals are right, no level is empty. */
  ghost predicate Valid(b: Book) {
    && Counted(b.bids) && Counted(b.asks)
    && Indexed(b.bids, Buy, b.lookup) && Indexed(b.asks, Sell, b.lookup)
    && (forall id | id in b.lookup :: Resolves(b, id))
  }

  function Stored(b: Book, id: OrderId): Order
    requires id in b.lookup && Resolves(b, id)
  {
    var loc := b.lookup[id];
    b.On(loc.iter.side)[loc.price].orders[loc.iter.cell]
  }

  predicate Crossed(b: Book) {
    exists p, q | p in b.bids && q in b.asks :: p >= q
  }

  // ---------------------------------------------------------------- single edits of one side

  function LevelAt(levels: Levels, price: nat): Level {
    if price in levels then levels[price] else EMPTY_LEVEL
  }

  function InsertOrder(levels: Levels, o: Order, cell: nat): Levels
    requires cell !in LevelAt(levels, o.price).orders
  {
    var level := LevelAt(levels, o.price);
    levels[o.price := Level(level.orders[cell := o], (level.totalQty + o.qty) % SIZE_T)]
  }

  /** Stores a level, or drops it when no order is left in it. */
  function PutLevel(levels: Levels, price: nat, level: Level): Levels {
    if level.orders == map[] then levels - {price} else levels[price := level]
  }

  function EraseOrder(levels: Levels, price: nat, cell: nat): Levels
    requires HasCell(levels, price, cell)
  {
    var level := levels[price];
    PutLevel(levels, price, Level(level.orders - {cell}, (level.totalQty - level.orders[cell].qty) % SIZE_T))
  }

  function Reduced(o: Order, m: nat): Order
    requires m <= o.qty
  {
    o.(qty := o.qty - m)
  }

  function Filled(orders: map<nat, Order>, c: nat, m: nat): map<nat, Order>
    requires c in orders && m <= orders[c].qty
  {
    var o := orders[c];
    if o.qty == m then orders - {c} else orders[c := Reduced(o, m)]
  }

  /** Takes m out of one order, and the order out of its level when nothing is left of it. */
  function FillOrder(levels: Levels, price: nat, cell: nat, m: nat): Levels
    requires HasCell(levels, price, cell)
    requires m <= levels[price].orders[cell].qty
  {
    var level := levels[price];
    PutLevel(levels, price, Level(Filled(level.orders, cell, m), (level.totalQty - m) % SIZE_T))
  }

  // ---------------------------------------------------------------- operations

  function InsertAt(b: Book, o: Order, cell: nat): Book
    requires IsSide(o.side)
    requires cell !in LevelAt(b.On(SideOf(o.side)), o.price).orders
  {
    var side := SideOf(o.side);
    b.With(side, InsertOrder(b.On(side), o, cell))
    .(lookup := b.lookup[o.id := Location(o.price, Iter(side, o.price, cell))])
  }

  function Remove(b: Book, id: OrderId): Book
    requires id in b.lookup && Resolves(b, id)
  {
    var loc := b.lookup[id];
    b.With(loc.iter.side, EraseOrder(b.On(loc.iter.side), loc.price, loc.iter.cell))
    .(lookup := b.lookup - {id})
  }

  ghost predicate Inserted(b: Book, o: Order, b': Book)
    requires IsSide(o.side)
  {
    exists cell: nat | cell !in LevelAt(b.On(SideOf(o.side)), o.price).orders :: b' == InsertAt(b, o, cell)
  }

  ghost predicate Added(b: Book, o: Order, res: OrderResult, b': Book) {
    if o.id in b.lookup then res == DuplicateId && b' == b
    else if !IsSide(o.side) then res == InvalidSide && b' == b
    else if o.price > MAX_PRICE then res == InvalidPrice && b' == b
    else res == Success && Inserted(b, o, b')
  }

  ghost predicate Modified(b: Book, id: OrderId, o: Order, res: OrderResult, b': Book)
    requires id in b.lookup ==> Resolves(b, id)
  {
    if id !in b.lookup then res == OrderNotFound && b' == b
    else if !IsSide(o.side) then res == InvalidSide && b' == b
    else if o.price > MAX_PRICE then res == InvalidPrice && b' == b
    else if o.id == id then res == Success && Inserted(Remove(b, id), o, b')
    else res == Success && Misfiled(b, id, o, b')
  }

  /** An order that carries another id than the one it replaces: it rests under its own, but is filed under the old. */
  ghost predicate Misfiled(b: Book, id: OrderId, o: Order, b': Book)
    requires id in b.lookup && Resolves(b, id) && IsSide(o.side)
  {
    var side, rest := SideOf(o.side), Remove(b, id);
    exists cell: nat | cell !in LevelAt(rest.On(side), o.price).orders ::
      b' == rest.With(side, InsertOrder(rest.On(side), o, cell))
            .(lookup := b.lookup[id := Location(o.price, Iter(side, o.price, cell))])
  }

  ghost predicate Cancelled(b: Book, id: OrderId, res: OrderResult, b': Book)
    requires id in b.lookup ==> Resolves(b, id)
  {
    if id !in b.lookup then res == OrderNotFound && b' == b
    else res == Success && b' == Remove(b, id)
  }

  // ---------------------------------------------------------------- matching

  datatype Trade = Trade(buyId: OrderId, bidPrice: nat, qty: nat, sellId: OrderId, askPrice: nat)

  predicate IsBest(bestBid: nat, bestAsk: nat, b: Book) {
    && bestBid in b.bids && (forall p | p in b.bids :: p <= bestBid)
    && bestAsk in b.asks && (forall p | p in b.asks :: bestAsk <= p)
  }

  /** The trade between the order in cell bc of the best bid level and the one in ac of the best ask level. */
  function TradeOf(b: Book, bid: nat, bc: nat, ask: nat, ac: nat): Trade
    requires HasCell(b.bids, bid, bc) && HasCell(b.asks, ask, ac)
  {
    var buy, sell := b.bids[bid].orders[bc], b.asks[ask].orders[ac];
    Trade(buy.id, bid, Min(buy.qty, sell.qty), sell.id, ask)
  }

  function Match(b: Book, bid: nat, bc: nat, ask: nat, ac: nat): Book
    requires HasCell(b.bids, bid, bc) && HasCell(b.asks, ask, ac)
  {
    var t := TradeOf(b, bid, bc, ask, ac);
    var filled := (if b.bids[bid].orders[bc].qty == t.qty then {t.buyId} else {})
                  + (if b.asks[ask].orders[ac].qty == t.qty then {t.sellId} else {});
    Book(FillOrder(b.bids, bid, bc, t.qty), FillOrder(b.asks, ask, ac, t.qty), b.lookup - filled)
  }

  ghost predicate StepAt(b: Book, t: Trade, bc: nat, ac: nat, b': Book) {
    && IsBest(t.bidPrice, t.askPrice, b) && t.bidPrice >= t.askPrice
    && HasCell(b.bids, t.bidPrice, bc) && HasCell(b.asks, t.askPrice, ac)
    && t == TradeOf(b, t.bidPrice, bc, t.askPrice, ac)
    && b' == Match(b, t.bidPrice, bc, t.askPrice, ac)
  }

  /** One round of the matching loop, for some front order on each side. */
  ghost predicate Step(b: Book, t: Trade, b': Book) {
    exists bc: nat, ac: nat :: StepAt(b, t, bc, ac, b')
  }

  ghost predicate Matching(b: Book, trades: seq<Trade>, b': Book)
    decreases |trades|
  {
    if trades == [] then b' == b
    else
      var n := |trades| - 1;
      exists mid :: Matching(b, trades[..n], mid) && Step(mid, trades[n], b')
  }

  /** A finished matching loop: it stops only when no bid reaches an ask. */
  ghost predicate Executed(b: Book, trades: seq<Trade>, b': Book) {
    Matching(b, trades, b') && !Crossed(b')
  }

  // ---------------------------------------------------------------- what the edits do to quantities

  lemma LevelQtyRemove(orders: map<nat, Order>, c: nat)
    requires c in orders
    ensures LevelQty(orders) == orders[c].qty + LevelQty(orders - {c})
  {
    SumRemove(Qtys(orders), c);
    assert Qtys(orders) - {c} == Qtys(orders - {c});
  }

  lemma LevelQtyUpdate(orders: map<nat, Order>, c: nat, o: Order)
    ensures LevelQty(orders[c := o]) == o.qty + LevelQty(orders - {c})
  {
    LevelQtyRemove(orders[c := o], c);
    assert orders[c := o] - {c} == orders - {c};
  }

  /** The quantity in a price range is that of one level plus that of the others. */
  lemma QtyInSplit(levels: Levels, p: nat, prices: Prices)
    ensures QtyIn(levels, prices)
         == QtyIn(levels - {p}, prices) + if p in levels && prices.Has(p) then LevelQty(levels[p].orders) else 0
  {
    var m := TotalsIn(levels, prices);
    assert m - {p} == TotalsIn(levels - {p}, prices);
    if p in m {
      SumRemove(m, p);
    } else {
      assert m - {p} == m;
    }
  }

  lemma FilledQty(orders: map<nat, Order>, c: nat, m: nat)
    requires c in orders && m <= orders[c].qty
    ensures LevelQty(orders) == LevelQty(Filled(orders, c, m)) + m
  {
    LevelQtyRemove(orders, c);
    LevelQtyUpdate(orders, c, orders[c].(qty := orders[c].qty - m));
  }

  /** A fill lowers the quantity in a price range by m if the range holds the price, and not at all otherwise. */
  lemma FillQty(levels: Levels, p: nat, c: nat, m: nat, prices: Prices)
    requires HasCell(levels, p, c) && m <= levels[p].orders[c].qty
    ensures QtyIn(levels, prices) == QtyIn(FillOrder(levels, p, c, m), prices) + if prices.Has(p) then m else 0
  {
    var levels' := FillOrder(levels, p, c, m);
    FilledQty(levels[p].orders, c, m);
    QtyInSplit(levels, p, prices);
    QtyInSplit(levels', p, prices);
    assert levels' - {p} == levels - {p};
  }
}
