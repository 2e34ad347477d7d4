/**
 One message at a time: an edit of the book followed by the matching loop. Between messages no bid
 reaches an ask, so every trade made for a message has the order of that message as a party.
 */
module Aggressor {
  import opened Types
  import opened BookModel
  import opened BookInvariant
  import opened Auction
  import opened LevelRefinement

  /** The edit that a message asks for; an unknown status edits nothing. */
  ghost predicate Edited(b: Book, o: Order, mid: Book)
    requires Valid(b)
  {
    if o.status == STATUS_NEW then exists res :: Added(b, o, res, mid)
    else if o.status == STATUS_CANCELLED then exists res :: Cancelled(b, o.id, res, mid)
    else if o.status == STATUS_PARTIALLY_FILLED || o.status == STATUS_FILLED then
      exists res :: Modified(b, o.id, o, res, mid)
    else mid == b
  }

  ghost predicate Handled(b: Book, o: Order, trades: seq<Trade>, b': Book)
    requires Valid(b)
  {
    exists mid :: Edited(b, o, mid) && Executed(mid, trades, b')
  }

  /** On the buy side a price reaches the asks at or below it; on the sell side, the bids at or above it. */
  predicate Reaches(side: Side, own: nat, other: nat) {
    if side.Buy? then own >= other else own <= other
  }

  function Opposite(side: Side): Side {
    if side.Buy? then Sell else Buy
  }

  /** Only the order named id reaches the other side. */
  ghost predicate FencedLevels(own: Levels, other: Levels, side: Side, id: OrderId) {
    forall p, c, q | HasCell(own, p, c) && q in other && Reaches(side, p, q) :: own[p].orders[c].id == id
  }

  ghost predicate Fenced(b: Book, side: Side, id: OrderId) {
    FencedLevels(b.On(side), b.On(Opposite(side)), side, id)
  }

  lemma InsertFences(own: Levels, other: Levels, side: Side, o: Order, cell: nat)
    requires forall p, q | p in own && q in other :: !Reaches(side, p, q)
    requires cell !in LevelAt(own, o.price).orders
    ensures FencedLevels(InsertOrder(own, o, cell), other, side, o.id)
  {
    var own' := InsertOrder(own, o, cell);
    forall p, c, q | HasCell(own', p, c) && q in other && Reaches(side, p, q) ensures own'[p].orders[c].id == o.id {
      InsertAtCell(own, o, cell, p, c);
    }
  }

  lemma FillKeepsFence(own: Levels, other: Levels, side: Side, id: OrderId, p: nat, c: nat, m: nat, other': Levels)
    requires FencedLevels(own, other, side, id) && other'.Keys <= other.Keys
    requires HasCell(own, p, c) && m <= own[p].orders[c].qty
    ensures FencedLevels(FillOrder(own, p, c, m), other', side, id)
  {
    var own' := FillOrder(own, p, c, m);
    forall q, d, r | HasCell(own', q, d) && r in other' && Reaches(side, q, r) ensures own'[q].orders[d].id == id {
      FillAtCell(own, p, c, m, q, d);
      assert r in other;
    }
  }

  function Party(t: Trade, side: Side): OrderId {
    if side.Buy? then t.buyId else t.sellId
  }

  function PriceFor(t: Trade, side: Side): nat {
    if side.Buy? then t.bidPrice else t.askPrice
  }

  /** A step seen from one side: it fills an order there, and brings no price to the other side. */
  lemma StepOnSide(b: Book, t: Trade, b': Book, side: Side) returns (c: nat)
    requires Step(b, t, b')
    ensures PriceFor(t, Opposite(side)) in b.On(Opposite(side))
    ensures Reaches(side, PriceFor(t, side), PriceFor(t, Opposite(side)))
    ensures HasCell(b.On(side), PriceFor(t, side), c)
    ensures var o := b.On(side)[PriceFor(t, side)].orders[c];
            && o.id == Party(t, side) && t.qty <= o.qty && (o.qty == t.qty ==> o.id !in b'.lookup)
            && b'.On(side) == FillOrder(b.On(side), PriceFor(t, side), c, t.qty)
    ensures b'.On(Opposite(side)).Keys <= b.On(Opposite(side)).Keys
  {
    var bc: nat, ac: nat :| StepAt(b, t, bc, ac, b');
    c := if side.Buy? then bc else ac;
  }

  /** The part of an order that still rests; nothing when its id is not in the index. */
  ghost function Resting(b: Book, id: OrderId): nat
    requires id in b.lookup ==> Resolves(b, id)
  {
    if id in b.lookup then Stored(b, id).qty else 0
  }

  lemma RestingAt(b: Book, side: Side, p: nat, c: nat)
    requires Indexed(b.On(side), side, b.lookup) && HasCell(b.On(side), p, c)
    ensures var o := b.On(side)[p].orders[c];
            o.id in b.lookup && Resolves(b, o.id) && Stored(b, o.id) == o
  {
    assert OrderOk(b.On(side)[p].orders[c], side, p, c, b.lookup);
  }

  /** The fenced order is a party to the trade, which takes its quantity out of that order. */
  lemma StepFillsTheFenced(b: Book, t: Trade, b': Book, side: Side, id: OrderId)
    requires Valid(b) && Valid(b') && Step(b, t, b') && Fenced(b, side, id)
    ensures Party(t, side) == id && Fenced(b', side, id)
    ensures Resting(b, id) == Resting(b', id) + t.qty
  {
    var c := StepOnSide(b, t, b', side);
    var p := PriceFor(t, side);
    var o := b.On(side)[p].orders[c];
    FillKeepsFence(b.On(side), b.On(Opposite(side)), side, id, p, c, t.qty, b'.On(Opposite(side)));
    FillAtCell(b.On(side), p, c, t.qty, p, c);
    RestingAt(b, side, p, c);
    if o.qty != t.qty {
      RestingAt(b', side, p, c);
    }
  }

  lemma {:induction false} FencedRun(b: Book, trades: seq<Trade>, b': Book, side: Side, id: OrderId)
    requires Valid(b) && Valid(b') && Matching(b, trades, b') && Fenced(b, side, id)
    ensures Fenced(b', side, id)
    ensures forall t | t in trades :: Party(t, side) == id
    ensures Resting(b, id) == Resting(b', id) + Volume(trades)
    decreases |trades|
  {
    if trades != [] {
      var n := |trades| - 1;
      var mid :| Matching(b, trades[..n], mid) && Step(mid, trades[n], b');
      MatchingKeepsValid(b, trades[..n], mid);
      FencedRun(b, trades[..n], mid, side, id);
      StepFillsTheFenced(mid, trades[n], b', side, id);
      assert forall t | t in trades :: t == trades[n] || t in trades[..n];
    }
  }

  lemma UncrossedDoesNotTrade(b: Book, trades: seq<Trade>, b': Book)
    requires !Crossed(b) && Matching(b, trades, b')
    ensures trades == []
    decreases |trades|
  {
    if trades != [] {
      MatchingStarts(b, trades, b');
    }
  }

  lemma {:induction false} MatchingStarts(b: Book, trades: seq<Trade>, b': Book)
    requires Matching(b, trades, b') && trades != []
    ensures Crossed(b)
    decreases |trades|
  {
    var n := |trades| - 1;
    var mid :| Matching(b, trades[..n], mid) && Step(mid, trades[n], b');
    if n > 0 {
      MatchingStarts(b, trades[..n], mid);
    } else {
      var c := StepOnSide(mid, trades[n], b', Buy);
      assert trades[n].bidPrice in b.bids && trades[n].askPrice in b.asks;
    }
  }

  lemma UncrossedDoesNotReach(b: Book, side: Side)
    requires !Crossed(b)
    ensures forall p, q | p in b.On(side) && q in b.On(Opposite(side)) :: !Reaches(side, p, q)
  {
  }

  lemma InsertedIsFenced(b: Book, o: Order, mid: Book)
    requires Valid(b) && !Crossed(b)
    requires o.id !in b.lookup && IsSide(o.side) && o.price <= MAX_PRICE && Inserted(b, o, mid)
    ensures Valid(mid) && Fenced(mid, SideOf(o.side), o.id)
    ensures Resting(mid, o.id) == o.qty
  {
    var side := SideOf(o.side);
    var cell: nat :| cell !in LevelAt(b.On(side), o.price).orders && mid == InsertAt(b, o, cell);
    InsertKeepsValid(b, o, cell);
    UncrossedDoesNotReach(b, side);
    InsertFences(b.On(side), b.On(Opposite(side)), side, o, cell);
    InsertAtCell(b.On(side), o, cell, o.price, cell);
    RestingAt(mid, side, o.price, cell);
  }

  /** An inserted order trades only as itself, and what it did not trade is what still rests. */
  lemma InsertedThenExecuted(b: Book, o: Order, mid: Book, trades: seq<Trade>, b': Book)
    requires Valid(b) && !Crossed(b)
    requires o.id !in b.lookup && IsSide(o.side) && o.price <= MAX_PRICE
    requires Inserted(b, o, mid) && Executed(mid, trades, b')
    ensures Valid(b')
    ensures forall t | t in trades :: Party(t, SideOf(o.side)) == o.id
    ensures Volume(trades) + Resting(b', o.id) == o.qty
  {
    InsertedIsFenced(b, o, mid);
    MatchingKeepsValid(mid, trades, b');
    FencedRun(mid, trades, b', SideOf(o.side), o.id);
  }

  lemma RemoveKeepsUncrossed(b: Book, id: OrderId)
    requires Valid(b) && !Crossed(b) && id in b.lookup
    ensures !Crossed(Remove(b, id))
  {
    assert Resolves(b, id);
    var b' := Remove(b, id);
    assert b'.bids.Keys <= b.bids.Keys && b'.asks.Keys <= b.asks.Keys;
  }

  /** The message put its own order into the book: a new id was added, or a resting one was replaced. */
  predicate Accepted(b: Book, o: Order) {
    && IsSide(o.side) && o.price <= MAX_PRICE
    && if o.id in b.lookup then o.status == STATUS_PARTIALLY_FILLED || o.status == STATUS_FILLED
       else o.status == STATUS_NEW
  }

  /**
   One message on an uncrossed book leaves it in order and uncrossed. All its trades are made by its
   own order, which trades exactly what does not stay in the book; a message that puts no order into
   the book causes no trade at all.
   */
  lemma AggressorIsAParty(b: Book, o: Order, trades: seq<Trade>, b': Book)
    requires Valid(b) && !Crossed(b) && Handled(b, o, trades, b')
    ensures Valid(b') && !Crossed(b')
    ensures !Accepted(b, o) ==> trades == []
    ensures Accepted(b, o) ==>
              && (forall t | t in trades :: Party(t, SideOf(o.side)) == o.id)
              && Volume(trades) + Resting(b', o.id) == o.qty
  {
    var mid :| Edited(b, o, mid) && Executed(mid, trades, b');
    if Accepted(b, o) {
      if o.id in b.lookup {
        RemoveKeepsValid(b, o.id);
        RemoveKeepsUncrossed(b, o.id);
        InsertedThenExecuted(Remove(b, o.id), o, mid, trades, b');
      } else {
        InsertedThenExecuted(b, o, mid, trades, b');
      }
    } else {
      if o.status == STATUS_CANCELLED && o.id in b.lookup {
        RemoveKeepsValid(b, o.id);
        RemoveKeepsUncrossed(b, o.id);
        assert mid == Remove(b, o.id);
      } else {
        assert mid == b;
      }
      UncrossedDoesNotTrade(mid, trades, b');
      assert b' == mid;
    }
  }

  /** What the parser lets through: only a cancel may come without a quantity. */
  predicate HasQuantity(o: Order) {
    o.status != STATUS_CANCELLED ==> o.qty > 0
  }

  lemma InsertKeepsPositiveSide(levels: Levels, o: Order, cell: nat)
    requires PositiveSide(levels) && o.qty > 0 && cell !in LevelAt(levels, o.price).orders
    ensures PositiveSide(InsertOrder(levels, o, cell))
  {
    var levels' := InsertOrder(levels, o, cell);
    forall p, c | HasCell(levels', p, c) ensures levels'[p].orders[c].qty > 0 {
      InsertAtCell(levels, o, cell, p, c);
    }
    InsertAtCell(levels, o, cell, o.price, cell);
  }

  lemma InsertKeepsPositive(b: Book, o: Order, b': Book)
    requires Positive(b) && IsSide(o.side) && o.qty > 0 && Inserted(b, o, b')
    ensures Positive(b')
  {
    var side := SideOf(o.side);
    var cell: nat :| cell !in LevelAt(b.On(side), o.price).orders && b' == InsertAt(b, o, cell);
    InsertKeepsPositiveSide(b.On(side), o, cell);
  }

  lemma EraseKeepsPositive(levels: Levels, p: nat, c: nat)
    requires PositiveSide(levels) && HasCell(levels, p, c)
    ensures PositiveSide(EraseOrder(levels, p, c))
  {
    var levels' := EraseOrder(levels, p, c);
    forall q, d | HasCell(levels', q, d) ensures levels'[q].orders[d].qty > 0 {
      EraseAtCell(levels, p, c, q, d);
    }
  }

  lemma RemoveKeepsPositive(b: Book, id: OrderId)
    requires Valid(b) && Positive(b) && id in b.lookup
    ensures Positive(Remove(b, id))
  {
    assert Resolves(b, id);
    var loc := b.lookup[id];
    EraseKeepsPositive(b.On(loc.iter.side), loc.price, loc.iter.cell);
  }

  /** Parsed messages keep every resting quantity positive, so the level refinement holds at every message. */
  lemma HandledKeepsPositive(b: Book, o: Order, trades: seq<Trade>, b': Book)
    requires Valid(b) && Positive(b) && HasQuantity(o) && Handled(b, o, trades, b')
    ensures Positive(b')
  {
    var mid :| Edited(b, o, mid) && Executed(mid, trades, b');
    if Accepted(b, o) {
      if o.id in b.lookup {
        RemoveKeepsPositive(b, o.id);
        InsertKeepsPositive(Remove(b, o.id), o, mid);
      } else {
        InsertKeepsPositive(b, o, mid);
      }
    } else if o.status == STATUS_CANCELLED && o.id in b.lookup {
      RemoveKeepsPositive(b, o.id);
    }
    MatchingRefines(mid, trades, b');
  }
}
