/**
 Seen at the granularity of price levels, the matching loop refines a much simpler one that only
 knows the total at each price. With positive quantities its result is therefore the same for every
 order in which a hive may present the orders of a level.
 */
module LevelRefinement {
  import opened Sums
  import opened Types
  import opened BookModel
  import opened BookInvariant

  type TotalMap = map<nat, nat>

  ghost predicate IsMax(m: TotalMap, p: nat) {
    p in m && forall q | q in m :: q <= p
  }

  ghost predicate IsMin(m: TotalMap, p: nat) {
    p in m && forall q | q in m :: p <= q
  }

  lemma MaxExists(m: TotalMap)
    requires m != map[]
    ensures exists p :: IsMax(m, p)
  {
    var k :| k in m;
    assert forall q | q in m :: q == k || q in m - {k};
    if m - {k} == map[] {
      assert IsMax(m, k);
    } else {
      MaxExists(m - {k});
      var p :| IsMax(m - {k}, p);
      assert IsMax(m, if p <= k then k else p);
    }
  }

  lemma MinExists(m: TotalMap)
    requires m != map[]
    ensures exists p :: IsMin(m, p)
  {
    var k :| k in m;
    assert forall q | q in m :: q == k || q in m - {k};
    if m - {k} == map[] {
      assert IsMin(m, k);
    } else {
      MinExists(m - {k});
      var p :| IsMin(m - {k}, p);
      assert IsMin(m, if k <= p then k else p);
    }
  }

  ghost function Best(m: TotalMap): (p: nat)
    requires m != map[]
    ensures IsMax(m, p)
  {
    MaxExists(m);
    var p :| IsMax(m, p);
    p
  }

  ghost function Cheapest(m: TotalMap): (p: nat)
    requires m != map[]
    ensures IsMin(m, p)
  {
    MinExists(m);
    var p :| IsMin(m, p);
    p
  }

  function Less(m: TotalMap, p: nat, q: nat): TotalMap
    requires p in m && q <= m[p]
  {
    if m[p] == q then m - {p} else m[p := m[p] - q]
  }

  /** Repeatedly takes the smaller of the two best totals off both, until no bid reaches an ask. */
  ghost function LevelMatch(bids: TotalMap, asks: TotalMap): (TotalMap, TotalMap)
    decreases |bids| + |asks|
  {
    if bids == map[] || asks == map[] || Best(bids) < Cheapest(asks) then (bids, asks)
    else
      var p, q := Best(bids), Cheapest(asks);
      var m := Min(bids[p], asks[q]);
      LevelMatch(Less(bids, p, m), Less(asks, q, m))
  }

  /** Taking a smaller piece first does not change where the level loop ends. */
  lemma {:induction false} LevelMatchInPieces(bids: TotalMap, asks: TotalMap, p: nat, q: nat, m: nat)
    requires IsMax(bids, p) && IsMin(asks, q) && p >= q
    requires 0 < m <= bids[p] && m <= asks[q]
    ensures LevelMatch(bids, asks) == LevelMatch(Less(bids, p, m), Less(asks, q, m))
  {
    assert bids != map[] && asks != map[] && Best(bids) == p && Cheapest(asks) == q;
    var all := Min(bids[p], asks[q]);
    if m < all {
      var bids', asks' := Less(bids, p, m), Less(asks, q, m);
      assert bids'.Keys == bids.Keys && asks'.Keys == asks.Keys;
      assert IsMax(bids', p) && IsMin(asks', q);
      assert bids' != map[] && asks' != map[] && Best(bids') == p && Cheapest(asks') == q;
      assert Min(bids'[p], asks'[q]) == all - m;
      assert Less(bids', p, all - m) == Less(bids, p, all);
      assert Less(asks', q, all - m) == Less(asks, q, all);
    }
  }

  /** No level is empty and no order has quantity zero. */
  ghost predicate PositiveSide(levels: Levels) {
    && (forall p | p in levels :: levels[p].orders != map[])
    && (forall p, c | HasCell(levels, p, c) :: levels[p].orders[c].qty > 0)
  }

  ghost predicate Positive(b: Book) {
    PositiveSide(b.bids) && PositiveSide(b.asks)
  }

  lemma FillKeepsPositive(levels: Levels, p: nat, c: nat, m: nat)
    requires HasCell(levels, p, c) && m <= levels[p].orders[c].qty && PositiveSide(levels)
    ensures PositiveSide(FillOrder(levels, p, c, m))
  {
    var levels' := FillOrder(levels, p, c, m);
    forall q, d | HasCell(levels', q, d) ensures levels'[q].orders[d].qty > 0 {
      FillAtCell(levels, p, c, m, q, d);
    }
  }

  lemma LevelQtyPositive(orders: map<nat, Order>)
    requires orders != map[] && forall c | c in orders :: orders[c].qty > 0
    ensures LevelQty(orders) > 0
  {
    var c :| c in orders;
    LevelQtyRemove(orders, c);
  }

  /** With positive quantities, filling an order is subtracting from the total of its price. */
  lemma FillIsLess(levels: Levels, p: nat, c: nat, m: nat)
    requires HasCell(levels, p, c) && m <= levels[p].orders[c].qty && PositiveSide(levels)
    ensures p in Totals(levels) && m <= Totals(levels)[p]
    ensures Totals(FillOrder(levels, p, c, m)) == Less(Totals(levels), p, m)
  {
    var rest := Filled(levels[p].orders, c, m);
    FilledQty(levels[p].orders, c, m);
    if rest != map[] {
      assert forall d | d in levels[p].orders :: HasCell(levels, p, d);
      LevelQtyPositive(rest);
    }
    TotalsPut(levels, p, Level(rest, (levels[p].totalQty - m) % SIZE_T));
  }

  lemma TotalsPut(levels: Levels, p: nat, level: Level)
    ensures Totals(PutLevel(levels, p, level))
         == if level.orders == map[] then Totals(levels) - {p} else Totals(levels)[p := LevelQty(level.orders)]
  {
  }

  lemma StepRefines(b: Book, t: Trade, b': Book)
    requires Positive(b) && Step(b, t, b')
    ensures Positive(b')
    ensures LevelMatch(Totals(b.bids), Totals(b.asks)) == LevelMatch(Totals(b'.bids), Totals(b'.asks))
  {
    var bc: nat, ac: nat :| StepAt(b, t, bc, ac, b');
    assert t.qty > 0;
    FillKeepsPositive(b.bids, t.bidPrice, bc, t.qty);
    FillKeepsPositive(b.asks, t.askPrice, ac, t.qty);
    FillIsLess(b.bids, t.bidPrice, bc, t.qty);
    FillIsLess(b.asks, t.askPrice, ac, t.qty);
    assert IsMax(Totals(b.bids), t.bidPrice) && IsMin(Totals(b.asks), t.askPrice);
    LevelMatchInPieces(Totals(b.bids), Totals(b.asks), t.bidPrice, t.askPrice, t.qty);
  }

  lemma {:induction false} MatchingRefines(b: Book, trades: seq<Trade>, b': Book)
    requires Positive(b) && Matching(b, trades, b')
    ensures Positive(b')
    ensures LevelMatch(Totals(b.bids), Totals(b.asks)) == LevelMatch(Totals(b'.bids), Totals(b'.asks))
    decreases |trades|
  {
    if trades != [] {
      var n := |trades| - 1;
      var mid :| Matching(b, trades[..n], mid) && Step(mid, trades[n], b');
      MatchingRefines(b, trades[..n], mid);
      StepRefines(mid, trades[n], b');
    }
  }

  /** The totals a finished run leaves are those of the level loop on the totals it started from. */
  lemma ExecuteRefinesLevelMatch(b: Book, trades: seq<Trade>, b': Book)
    requires Positive(b) && Executed(b, trades, b')
    ensures (Totals(b'.bids), Totals(b'.asks)) == LevelMatch(Totals(b.bids), Totals(b.asks))
  {
    MatchingRefines(b, trades, b');
    var bids, asks := Totals(b'.bids), Totals(b'.asks);
    if bids != map[] && asks != map[] {
      assert Best(bids) in b'.bids && Cheapest(asks) in b'.asks;
    }
  }

  /** Two books with the same totals end with the same totals, whatever their hives hold and however they order it. */
  lemma HiveOrderDoesNotMatter(b1: Book, ts1: seq<Trade>, b1': Book, b2: Book, ts2: seq<Trade>, b2': Book)
    requires Positive(b1) && Positive(b2)
    requires Totals(b1.bids) == Totals(b2.bids) && Totals(b1.asks) == Totals(b2.asks)
    requires Executed(b1, ts1, b1') && Executed(b2, ts2, b2')
    ensures Totals(b1'.bids) == Totals(b2'.bids) && Totals(b1'.asks) == Totals(b2'.asks)
  {
    ExecuteRefinesLevelMatch(b1, ts1, b1');
    ExecuteRefinesLevelMatch(b2, ts2, b2');
  }
}
