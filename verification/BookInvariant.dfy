/** Every edit of a book keeps its index, its totals and its levels in agreement. */
module BookInvariant {
  import opened Sums
  import opened Types
  import opened BookModel

  // ---------------------------------------------------------------- totals

  lemma WrapAdd(total: nat, sum: nat, q: nat)
    requires total == sum % SIZE_T
    ensures (total + q) % SIZE_T == (sum + q) % SIZE_T
  {
  }

  lemma InsertKeepsCounted(levels: Levels, o: Order, cell: nat)
    requires Counted(levels) && o.price <= MAX_PRICE
    requires cell !in LevelAt(levels, o.price).orders
    ensures Counted(InsertOrder(levels, o, cell))
  {
    var level := LevelAt(levels, o.price);
    assert TotalOk(level);
    InsertKeepsTotal(level, o, cell);
    var level' := Level(level.orders[cell := o], (level.totalQty + o.qty) % SIZE_T);
    assert cell in level'.orders && InsertOrder(levels, o, cell) == PutLevel(levels, o.price, level');
    PutKeepsCounted(levels, o.price, level');
  }

  lemma InsertKeepsTotal(level: Level, o: Order, cell: nat)
    requires TotalOk(level) && cell !in level.orders
    ensures TotalOk(Level(level.orders[cell := o], (level.totalQty + o.qty) % SIZE_T))
  {
    LevelQtyUpdate(level.orders, cell, o);
    assert level.orders - {cell} == level.orders;
    WrapAdd(level.totalQty, LevelQty(level.orders), o.qty);
  }

  lemma WrapSub(total: nat, sum: nat, rest: nat, q: nat)
    requires total == sum % SIZE_T && sum == rest + q
    ensures (total - q) % SIZE_T == rest % SIZE_T
  {
  }

  lemma EraseKeepsCounted(levels: Levels, p: nat, c: nat)
    requires Counted(levels) && HasCell(levels, p, c)
    ensures Counted(EraseOrder(levels, p, c))
  {
    var level := levels[p];
    EraseKeepsTotal(level, c);
    PutKeepsCounted(levels, p, Level(level.orders - {c}, (level.totalQty - level.orders[c].qty) % SIZE_T));
  }

  lemma EraseKeepsTotal(level: Level, c: nat)
    requires TotalOk(level) && c in level.orders
    ensures TotalOk(Level(level.orders - {c}, (level.totalQty - level.orders[c].qty) % SIZE_T))
  {
    LevelQtyRemove(level.orders, c);
    WrapSub(level.totalQty, LevelQty(level.orders), LevelQty(level.orders - {c}), level.orders[c].qty);
  }

  lemma FillKeepsCounted(levels: Levels, p: nat, c: nat, m: nat)
    requires Counted(levels) && HasCell(levels, p, c) && m <= levels[p].orders[c].qty
    ensures Counted(FillOrder(levels, p, c, m))
  {
    var orders := levels[p].orders;
    FilledQty(orders, c, m);
    assert TotalOk(levels[p]);
    WrapSub(levels[p].totalQty, LevelQty(orders), LevelQty(Filled(orders, c, m)), m);
    PutKeepsCounted(levels, p, Level(Filled(orders, c, m), (levels[p].totalQty - m) % SIZE_T));
  }

  lemma PutKeepsCounted(levels: Levels, p: nat, level: Level)
    requires Counted(levels) && p <= MAX_PRICE && TotalOk(level)
    ensures Counted(PutLevel(levels, p, level))
  {
  }

  // ---------------------------------------------------------------- index

  /** Distinct resting orders have distinct ids, because the index has one entry per id. */
  lemma IdsAreUnique(b: Book, s: Side, p: nat, c: nat, s': Side, p': nat, c': nat)
    requires Valid(b)
    requires HasCell(b.On(s), p, c) && HasCell(b.On(s'), p', c')
    requires b.On(s)[p].orders[c].id == b.On(s')[p'].orders[c'].id
    ensures s == s' && p == p' && c == c'
  {
    assert OrderOk(b.On(s)[p].orders[c], s, p, c, b.lookup);
    assert OrderOk(b.On(s')[p'].orders[c'], s', p', c', b.lookup);
  }

  /** What an insertion, an erasure and a fill do to one cell of one side. */
  lemma InsertAtCell(levels: Levels, o: Order, cell: nat, q: nat, d: nat)
    requires cell !in LevelAt(levels, o.price).orders
    ensures HasCell(InsertOrder(levels, o, cell), q, d) <==> HasCell(levels, q, d) || (q == o.price && d == cell)
    ensures HasCell(InsertOrder(levels, o, cell), q, d) ==>
              InsertOrder(levels, o, cell)[q].orders[d] == if q == o.price && d == cell then o else levels[q].orders[d]
  {
  }

  lemma EraseAtCell(levels: Levels, p: nat, c: nat, q: nat, d: nat)
    requires HasCell(levels, p, c)
    ensures HasCell(EraseOrder(levels, p, c), q, d) <==> HasCell(levels, q, d) && !(q == p && d == c)
    ensures HasCell(EraseOrder(levels, p, c), q, d) ==> EraseOrder(levels, p, c)[q].orders[d] == levels[q].orders[d]
  {
    assert HasCell(levels, p, d) && d != c ==> d in levels[p].orders - {c};
  }

  lemma FillAtCell(levels: Levels, p: nat, c: nat, m: nat, q: nat, d: nat)
    requires HasCell(levels, p, c) && m <= levels[p].orders[c].qty
    ensures HasCell(FillOrder(levels, p, c, m), q, d)
       <==> HasCell(levels, q, d) && !(q == p && d == c && levels[p].orders[c].qty == m)
    ensures HasCell(FillOrder(levels, p, c, m), q, d) ==>
              FillOrder(levels, p, c, m)[q].orders[d]
              == if q == p && d == c then levels[p].orders[c].(qty := levels[p].orders[c].qty - m)
                 else levels[q].orders[d]
  {
    assert HasCell(levels, p, d) && d != c ==> d in Filled(levels[p].orders, c, m);
  }

  lemma InsertKeepsIndexed(levels: Levels, side: Side, o: Order, cell: nat, lookup: map<OrderId, Location>)
    requires Indexed(levels, side, lookup) && o.id !in lookup && o.side == side.Code()
    requires cell !in LevelAt(levels, o.price).orders
    ensures Indexed(InsertOrder(levels, o, cell), side, lookup[o.id := Location(o.price, Iter(side, o.price, cell))])
  {
    var levels' := InsertOrder(levels, o, cell);
    var lookup' := lookup[o.id := Location(o.price, Iter(side, o.price, cell))];
    forall p, c | HasCell(levels', p, c) ensures OrderOk(levels'[p].orders[c], side, p, c, lookup') {
      InsertAtCell(levels, o, cell, p, c);
      if p != o.price || c != cell {
        assert OrderOk(levels[p].orders[c], side, p, c, lookup);
      }
    }
  }

  /** A larger index still covers a side none of whose ids were given a new entry. */
  lemma IndexedUnderNewId(levels: Levels, side: Side, lookup: map<OrderId, Location>, id: OrderId, loc: Location)
    requires Indexed(levels, side, lookup) && id !in lookup
    ensures Indexed(levels, side, lookup[id := loc])
  {
    forall p, c | HasCell(levels, p, c) ensures OrderOk(levels[p].orders[c], side, p, c, lookup[id := loc]) {
      assert OrderOk(levels[p].orders[c], side, p, c, lookup);
    }
  }

  lemma InsertKeepsResolved(b: Book, o: Order, cell: nat, id: OrderId)
    requires id in b.lookup && Resolves(b, id) && id != o.id && IsSide(o.side)
    requires cell !in LevelAt(b.On(SideOf(o.side)), o.price).orders
    ensures Resolves(InsertAt(b, o, cell), id)
  {
    var loc := b.lookup[id];
    InsertAtCell(b.On(SideOf(o.side)), o, cell, loc.price, loc.iter.cell);
  }

  lemma InsertKeepsValid(b: Book, o: Order, cell: nat)
    requires Valid(b) && o.id !in b.lookup && IsSide(o.side) && o.price <= MAX_PRICE
    requires cell !in LevelAt(b.On(SideOf(o.side)), o.price).orders
    ensures Valid(InsertAt(b, o, cell))
  {
    var side := SideOf(o.side);
    var b' := InsertAt(b, o, cell);
    InsertKeepsCounted(b.On(side), o, cell);
    InsertKeepsIndexed(b.On(side), side, o, cell, b.lookup);
    IndexedUnderNewId(b.bids, Buy, b.lookup, o.id, b'.lookup[o.id]);
    IndexedUnderNewId(b.asks, Sell, b.lookup, o.id, b'.lookup[o.id]);
    InsertAtCell(b.On(side), o, cell, o.price, cell);
    forall id | id in b'.lookup ensures Resolves(b', id) {
      if id != o.id { InsertKeepsResolved(b, o, cell, id); }
    }
  }

  lemma InsertedKeepsValid(b: Book, o: Order, b': Book)
    requires Valid(b) && o.id !in b.lookup && IsSide(o.side) && o.price <= MAX_PRICE && Inserted(b, o, b')
    ensures Valid(b')
  {
    var cell: nat :| cell !in LevelAt(b.On(SideOf(o.side)), o.price).orders && b' == InsertAt(b, o, cell);
    InsertKeepsValid(b, o, cell);
  }

  /** Erasing the order that an id leads to, and the id with it, keeps each side indexed. */
  lemma RemoveKeepsIndexed(b: Book, id: OrderId, s: Side)
    requires Valid(b) && id in b.lookup
    ensures Indexed(Remove(b, id).On(s), s, b.lookup - {id})
  {
    assert Resolves(b, id);
    var loc := b.lookup[id];
    var levels' := Remove(b, id).On(s);
    forall p, c | HasCell(levels', p, c) ensures OrderOk(levels'[p].orders[c], s, p, c, b.lookup - {id}) {
      EraseAtCell(b.On(loc.iter.side), loc.price, loc.iter.cell, p, c);
      assert HasCell(b.On(s), p, c) && levels'[p].orders[c] == b.On(s)[p].orders[c];
      if b.On(s)[p].orders[c].id == id {
        IdsAreUnique(b, s, p, c, loc.iter.side, loc.price, loc.iter.cell);
      }
      assert OrderOk(b.On(s)[p].orders[c], s, p, c, b.lookup);
    }
  }

  lemma RemoveKeepsResolved(b: Book, id: OrderId, k: OrderId)
    requires id in b.lookup && Resolves(b, id)
    requires k in b.lookup && Resolves(b, k) && k != id
    ensures Resolves(Remove(b, id), k)
  {
    var loc, kept := b.lookup[id], b.lookup[k];
    EraseAtCell(b.On(loc.iter.side), loc.price, loc.iter.cell, kept.price, kept.iter.cell);
  }

  lemma RemoveKeepsValid(b: Book, id: OrderId)
    requires Valid(b) && id in b.lookup
    ensures Valid(Remove(b, id))
  {
    assert Resolves(b, id);
    var loc := b.lookup[id];
    EraseKeepsCounted(b.On(loc.iter.side), loc.price, loc.iter.cell);
    RemoveKeepsIndexed(b, id, Buy);
    RemoveKeepsIndexed(b, id, Sell);
    forall k | k in Remove(b, id).lookup ensures Resolves(Remove(b, id), k) {
      RemoveKeepsResolved(b, id, k);
    }
  }

  /** A fill keeps one side indexed, once the ids it used up have left the index. */
  lemma FillKeepsIndexed(levels: Levels, side: Side, p: nat, c: nat, m: nat,
                         lookup: map<OrderId, Location>, gone: set<OrderId>)
    requires Indexed(levels, side, lookup)
    requires HasCell(levels, p, c) && m <= levels[p].orders[c].qty
    requires forall q, d | HasCell(levels, q, d) && levels[q].orders[d].id in gone ::
               q == p && d == c && levels[p].orders[c].qty == m
    ensures Indexed(FillOrder(levels, p, c, m), side, lookup - gone)
  {
    var levels' := FillOrder(levels, p, c, m);
    forall q, d | HasCell(levels', q, d) ensures OrderOk(levels'[q].orders[d], side, q, d, lookup - gone) {
      FillAtCell(levels, p, c, m, q, d);
      assert OrderOk(levels[q].orders[d], side, q, d, lookup);
    }
  }

  function UsedUp(b: Book, t: Trade, bc: nat, ac: nat): set<OrderId>
    requires HasCell(b.bids, t.bidPrice, bc) && HasCell(b.asks, t.askPrice, ac)
  {
    (if b.bids[t.bidPrice].orders[bc].qty == t.qty then {t.buyId} else {})
    + (if b.asks[t.askPrice].orders[ac].qty == t.qty then {t.sellId} else {})
  }

  lemma UsedUpIds(b: Book, t: Trade, bc: nat, ac: nat, b': Book, s: Side, q: nat, d: nat)
    requires Valid(b) && StepAt(b, t, bc, ac, b')
    requires HasCell(b.On(s), q, d) && b.On(s)[q].orders[d].id in UsedUp(b, t, bc, ac)
    ensures s.Buy? ==> q == t.bidPrice && d == bc && b.bids[q].orders[d].qty == t.qty
    ensures s.Sell? ==> q == t.askPrice && d == ac && b.asks[q].orders[d].qty == t.qty
  {
    if b.On(s)[q].orders[d].id == t.buyId { IdsAreUnique(b, s, q, d, Buy, t.bidPrice, bc); }
    if b.On(s)[q].orders[d].id == t.sellId { IdsAreUnique(b, s, q, d, Sell, t.askPrice, ac); }
  }

  lemma MatchKeepsResolved(b: Book, t: Trade, bc: nat, ac: nat, b': Book, id: OrderId)
    requires Valid(b) && StepAt(b, t, bc, ac, b') && id in b'.lookup
    ensures Resolves(b', id)
  {
    assert Resolves(b, id);
    var loc := b.lookup[id];
    FillAtCell(b.bids, t.bidPrice, bc, t.qty, loc.price, loc.iter.cell);
    FillAtCell(b.asks, t.askPrice, ac, t.qty, loc.price, loc.iter.cell);
    assert b'.lookup == b.lookup - UsedUp(b, t, bc, ac);
  }

  lemma MatchKeepsValid(b: Book, t: Trade, bc: nat, ac: nat, b': Book)
    requires Valid(b) && StepAt(b, t, bc, ac, b')
    ensures Valid(b')
  {
    var gone := UsedUp(b, t, bc, ac);
    forall q, d | HasCell(b.bids, q, d) && b.bids[q].orders[d].id in gone
      ensures q == t.bidPrice && d == bc && b.bids[q].orders[d].qty == t.qty
    {
      UsedUpIds(b, t, bc, ac, b', Buy, q, d);
    }
    forall q, d | HasCell(b.asks, q, d) && b.asks[q].orders[d].id in gone
      ensures q == t.askPrice && d == ac && b.asks[q].orders[d].qty == t.qty
    {
      UsedUpIds(b, t, bc, ac, b', Sell, q, d);
    }
    FillKeepsCounted(b.bids, t.bidPrice, bc, t.qty);
    FillKeepsCounted(b.asks, t.askPrice, ac, t.qty);
    FillKeepsIndexed(b.bids, Buy, t.bidPrice, bc, t.qty, b.lookup, gone);
    FillKeepsIndexed(b.asks, Sell, t.askPrice, ac, t.qty, b.lookup, gone);
    forall id | id in b'.lookup ensures Resolves(b', id) {
      MatchKeepsResolved(b, t, bc, ac, b', id);
    }
  }

  lemma {:induction false} MatchingKeepsValid(b: Book, trades: seq<Trade>, b': Book)
    requires Valid(b) && Matching(b, trades, b')
    ensures Valid(b')
    decreases |trades|
  {
    if trades != [] {
      var n := |trades| - 1;
      var mid :| Matching(b, trades[..n], mid) && Step(mid, trades[n], b');
      MatchingKeepsValid(b, trades[..n], mid);
      var bc: nat, ac: nat :| StepAt(mid, trades[n], bc, ac, b');
      MatchKeepsValid(mid, trades[n], bc, ac, b');
    }
  }

  // ---------------------------------------------------------------- a run grows by a round

  /** A round adds its trade to the run, keeps the book in order, and uses up at least one order. */
  lemma MatchingExtended(b0: Book, trades: seq<Trade>, b: Book, t: Trade, bc: nat, ac: nat, b': Book)
    requires Matching(b0, trades, b)
    requires Valid(b) && StepAt(b, t, bc, ac, b')
    ensures Matching(b0, trades + [t], b') && Valid(b') && |b'.lookup| < |b.lookup|
  {
    assert (trades + [t])[..|trades|] == trades;
    assert Step(b, t, b');
    MatchKeepsValid(b, t, bc, ac, b');
    RoundUsesAnOrder(b, t, bc, ac, b');
  }

  lemma RoundUsesAnOrder(b: Book, t: Trade, bc: nat, ac: nat, b': Book)
    requires Valid(b) && StepAt(b, t, bc, ac, b')
    ensures |b'.lookup| < |b.lookup|
  {
    var buy, sell := b.bids[t.bidPrice].orders[bc], b.asks[t.askPrice].orders[ac];
    assert OrderOk(buy, Buy, t.bidPrice, bc, b.lookup) && OrderOk(sell, Sell, t.askPrice, ac, b.lookup);
    var gone := if buy.qty == t.qty then buy.id else sell.id;
    assert b'.lookup.Keys <= b.lookup.Keys - {gone};
    SubsetSize(b'.lookup.Keys, b.lookup.Keys - {gone});
  }
}
