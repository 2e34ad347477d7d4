/** Whatever state a book in order is in, a message can be carried through to its end. */
module Progress {
  import opened Sums
  import opened Types
  import opened BookModel
  import opened BookInvariant
  import opened LevelRefinement
  import opened Aggressor

  lemma NextRound(b: Book) returns (t: Trade, bc: nat, ac: nat, b': Book)
    requires Valid(b) && Crossed(b)
    ensures StepAt(b, t, bc, ac, b')
  {
    var bid, ask := BestPrices(b);
    bc := SomeOrder(b.bids, bid);
    ac := SomeOrder(b.asks, ask);
    t := TradeOf(b, bid, bc, ask, ac);
    b' := Match(b, bid, bc, ask, ac);
  }

  /** No level is empty, so the loop never breaks off at one. */
  lemma SomeOrder(levels: Levels, p: nat) returns (c: nat)
    requires Counted(levels) && p in levels
    ensures HasCell(levels, p, c)
  {
    assert levels[p].orders != map[];
    c :| c in levels[p].orders;
  }

  lemma BestPrices(b: Book) returns (bid: nat, ask: nat)
    requires Crossed(b)
    ensures IsBest(bid, ask, b) && bid >= ask
  {
    var p0, q0 :| p0 in b.bids && q0 in b.asks && p0 >= q0;
    assert p0 in Totals(b.bids) && q0 in Totals(b.asks);
    bid, ask := Best(Totals(b.bids)), Cheapest(Totals(b.asks));
    BestReaches(b, bid, ask);
  }

  lemma BestReaches(b: Book, bid: nat, ask: nat)
    requires Crossed(b) && IsMax(Totals(b.bids), bid) && IsMin(Totals(b.asks), ask)
    ensures IsBest(bid, ask, b) && bid >= ask
  {
    var p, q :| p in b.bids && q in b.asks && p >= q;
    assert p in Totals(b.bids) && q in Totals(b.asks);
    forall p | p in b.bids ensures p <= bid {
      assert p in Totals(b.bids);
    }
    forall q | q in b.asks ensures ask <= q {
      assert q in Totals(b.asks);
    }
  }

  /** Every started run of the matching loop can be finished. */
  lemma {:induction false} RunCanFinish(b0: Book, trades: seq<Trade>, b: Book)
    requires Matching(b0, trades, b) && Valid(b)
    ensures exists all, b' :: Executed(b0, all, b')
    decreases |b.lookup|
  {
    if Crossed(b) {
      var t, bc, ac, b' := NextRound(b);
      MatchingExtended(b0, trades, b, t, bc, ac, b');
      RunCanFinish(b0, trades + [t], b');
    } else {
      assert Executed(b0, trades, b);
    }
  }

  lemma {:induction false} SomeCellIsFree(used: set<nat>) returns (cell: nat)
    ensures forall c | c in used :: c < cell
    decreases used
  {
    cell := 0;
    if used != {} {
      var c :| c in used;
      var rest := SomeCellIsFree(used - {c});
      cell := if rest <= c then c + 1 else rest;
      assert forall d | d in used :: d == c || d in used - {c};
    }
  }

  lemma CanInsert(b: Book, o: Order)
    requires IsSide(o.side)
    ensures exists b' :: Inserted(b, o, b')
  {
    var orders := LevelAt(b.On(SideOf(o.side)), o.price).orders;
    var cell := SomeCellIsFree(orders.Keys);
    assert cell !in orders;
    assert Inserted(b, o, InsertAt(b, o, cell));
  }

  /** Every message has an edit, which leaves the book in order. */
  lemma CanEdit(b: Book, o: Order)
    requires Valid(b)
    ensures exists mid :: Edited(b, o, mid)
  {
    if o.status == STATUS_NEW {
      CanAdd(b, o);
    } else if o.status == STATUS_CANCELLED {
      CanCancel(b, o.id);
      var res, mid :| Cancelled(b, o.id, res, mid);
      assert Edited(b, o, mid);
    } else if o.status == STATUS_PARTIALLY_FILLED || o.status == STATUS_FILLED {
      CanModify(b, o);
      var res, mid :| Modified(b, o.id, o, res, mid);
      assert Edited(b, o, mid);
    } else {
      assert Edited(b, o, b);
    }
  }

  lemma CanAdd(b: Book, o: Order)
    requires Valid(b) && o.status == STATUS_NEW
    ensures exists mid :: Edited(b, o, mid)
  {
    if o.id in b.lookup {
      assert Added(b, o, DuplicateId, b) && Edited(b, o, b);
    } else if !IsSide(o.side) {
      assert Added(b, o, InvalidSide, b) && Edited(b, o, b);
    } else if o.price > MAX_PRICE {
      assert Added(b, o, InvalidPrice, b) && Edited(b, o, b);
    } else {
      CanInsert(b, o);
      var b' :| Inserted(b, o, b');
      assert Added(b, o, Success, b') && Edited(b, o, b');
    }
  }

  lemma CanCancel(b: Book, id: OrderId)
    requires Valid(b)
    ensures exists res, mid :: Cancelled(b, id, res, mid)
  {
    if id in b.lookup {
      assert Resolves(b, id);
      assert Cancelled(b, id, Success, Remove(b, id));
    } else {
      assert Cancelled(b, id, OrderNotFound, b);
    }
  }

  lemma CanModify(b: Book, o: Order)
    requires Valid(b)
    ensures exists res, mid :: Modified(b, o.id, o, res, mid)
  {
    if o.id !in b.lookup {
      assert Modified(b, o.id, o, OrderNotFound, b);
    } else if !IsSide(o.side) {
      assert Modified(b, o.id, o, InvalidSide, b);
    } else if o.price > MAX_PRICE {
      assert Modified(b, o.id, o, InvalidPrice, b);
    } else {
      assert Resolves(b, o.id);
      CanInsert(Remove(b, o.id), o);
      var b' :| Inserted(Remove(b, o.id), o, b');
      assert Modified(b, o.id, o, Success, b');
    }
  }

  lemma EditKeepsValid(b: Book, o: Order, mid: Book)
    requires Valid(b) && Edited(b, o, mid)
    ensures Valid(mid)
  {
    if o.status == STATUS_NEW {
      var res :| Added(b, o, res, mid);
      if res == Success { InsertedKeepsValid(b, o, mid); }
    } else if o.id in b.lookup && o.status != STATUS_CANCELLED && mid != b {
      var res :| Modified(b, o.id, o, res, mid);
      assert Resolves(b, o.id);
      RemoveKeepsValid(b, o.id);
      InsertedKeepsValid(Remove(b, o.id), o, mid);
    } else if o.id in b.lookup && mid != b {
      var res :| Cancelled(b, o.id, res, mid);
      RemoveKeepsValid(b, o.id);
    }
  }
}
