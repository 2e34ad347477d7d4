/**
 What a finished matching loop achieves: it trades exactly the volume of the best uniform-price
 auction, and loses the same quantity on both sides, whatever order it found at the front of a level.
 */
module Auction {
  import opened Sums
  import opened Types
  import opened BookModel

  /** Bid quantity willing to pay p, and ask quantity willing to take p. */
  ghost function Demand(b: Book, p: nat): nat {
    QtyIn(b.bids, AtLeast(p))
  }

  ghost function Supply(b: Book, p: nat): nat {
    QtyIn(b.asks, AtMost(p))
  }

  /** What an auction that trades everything at the one price p would trade. */
  ghost function AuctionVolume(b: Book, p: nat): nat {
    Min(Demand(b, p), Supply(b, p))
  }

  ghost function BoughtIn(trades: seq<Trade>, prices: Prices): nat {
    if trades == [] then 0
    else
      var n := |trades| - 1;
      BoughtIn(trades[..n], prices) + if prices.Has(trades[n].bidPrice) then trades[n].qty else 0
  }

  ghost function SoldIn(trades: seq<Trade>, prices: Prices): nat {
    if trades == [] then 0
    else
      var n := |trades| - 1;
      SoldIn(trades[..n], prices) + if prices.Has(trades[n].askPrice) then trades[n].qty else 0
  }

  function Volume(trades: seq<Trade>): nat {
    if trades == [] then 0 else Volume(trades[..|trades| - 1]) + trades[|trades| - 1].qty
  }

  lemma StepConserves(b: Book, t: Trade, b': Book, prices: Prices)
    requires Step(b, t, b')
    ensures QtyIn(b.bids, prices) == QtyIn(b'.bids, prices) + if prices.Has(t.bidPrice) then t.qty else 0
    ensures QtyIn(b.asks, prices) == QtyIn(b'.asks, prices) + if prices.Has(t.askPrice) then t.qty else 0
  {
    var bc: nat, ac: nat :| StepAt(b, t, bc, ac, b');
    FillQty(b.bids, t.bidPrice, bc, t.qty, prices);
    FillQty(b.asks, t.askPrice, ac, t.qty, prices);
  }

  /** In every price range, what a side loses is what the trades at those prices report. */
  lemma {:induction false} Conservation(b: Book, trades: seq<Trade>, b': Book, prices: Prices)
    requires Matching(b, trades, b')
    ensures QtyIn(b.bids, prices) == QtyIn(b'.bids, prices) + BoughtIn(trades, prices)
    ensures QtyIn(b.asks, prices) == QtyIn(b'.asks, prices) + SoldIn(trades, prices)
    decreases |trades|
  {
    if trades != [] {
      var n := |trades| - 1;
      var mid :| Matching(b, trades[..n], mid) && Step(mid, trades[n], b');
      Conservation(b, trades[..n], mid, prices);
      StepConserves(mid, trades[n], b', prices);
    }
  }

  lemma {:induction false} VolumeIsAnUpperBound(trades: seq<Trade>, prices: Prices)
    ensures BoughtIn(trades, prices) <= Volume(trades) && SoldIn(trades, prices) <= Volume(trades)
    decreases |trades|
  {
    if trades != [] { VolumeIsAnUpperBound(trades[..|trades| - 1], prices); }
  }

  lemma {:induction false} VolumeInRange(trades: seq<Trade>, bidPrices: Prices, askPrices: Prices)
    requires forall t | t in trades :: bidPrices.Has(t.bidPrice) && askPrices.Has(t.askPrice)
    ensures BoughtIn(trades, bidPrices) == Volume(trades) == SoldIn(trades, askPrices)
    decreases |trades|
  {
    if trades != [] {
      var n := |trades| - 1;
      assert trades[n] in trades && forall t | t in trades[..n] :: t in trades;
      VolumeInRange(trades[..n], bidPrices, askPrices);
    }
  }

  /** Bid quantity lost, ask quantity lost and reported quantity are one and the same number. */
  lemma BothSidesLoseTheVolume(b: Book, trades: seq<Trade>, b': Book)
    requires Matching(b, trades, b')
    ensures QtyIn(b.bids, AllPrices) - QtyIn(b'.bids, AllPrices) == Volume(trades)
    ensures QtyIn(b.asks, AllPrices) - QtyIn(b'.asks, AllPrices) == Volume(trades)
  {
    Conservation(b, trades, b', AllPrices);
    VolumeInRange(trades, AllPrices, AllPrices);
  }

  /** No auction price beats the loop: what is left over cannot trade at any one price. */
  lemma NoPriceBeatsTheVolume(b: Book, trades: seq<Trade>, b': Book, p: nat)
    requires Executed(b, trades, b')
    ensures AuctionVolume(b, p) <= Volume(trades)
  {
    Conservation(b, trades, b', AtLeast(p));
    Conservation(b, trades, b', AtMost(p));
    VolumeIsAnUpperBound(trades, AtLeast(p));
    VolumeIsAnUpperBound(trades, AtMost(p));
    LeftoversDoNotMeet(b', p);
  }

  lemma LeftoversDoNotMeet(b: Book, p: nat)
    requires !Crossed(b)
    ensures Demand(b, p) == 0 || Supply(b, p) == 0
  {
    if TotalsIn(b.bids, AtLeast(p)) != map[] {
      var q :| q in TotalsIn(b.bids, AtLeast(p));
      assert TotalsIn(b.asks, AtMost(p)) == map[];
    }
  }

  ghost predicate TradesOutside(trades: seq<Trade>, b: Book) {
    && (forall t, p | t in trades && p in b.bids :: t.bidPrice >= p)
    && (forall t, p | t in trades && p in b.asks :: t.askPrice <= p)
  }

  lemma StepWalksInwards(b: Book, t: Trade, b': Book)
    requires Step(b, t, b')
    ensures t.bidPrice in b.bids && t.askPrice in b.asks && t.bidPrice >= t.askPrice
    ensures forall p | p in b'.bids :: p in b.bids && p <= t.bidPrice
    ensures forall p | p in b'.asks :: p in b.asks && p >= t.askPrice
  {
    var bc: nat, ac: nat :| StepAt(b, t, bc, ac, b');
    assert b'.bids.Keys <= b.bids.Keys && b'.asks.Keys <= b.asks.Keys;
  }

  /** Trades walk down the bids and up the asks: each is at least as good as what still rests. */
  lemma {:induction false} TradesWalkInwards(b: Book, trades: seq<Trade>, b': Book)
    requires Matching(b, trades, b')
    ensures TradesOutside(trades, b')
    ensures trades != [] ==>
              var last := trades[|trades| - 1];
              last.bidPrice >= last.askPrice
              && forall t | t in trades :: t.bidPrice >= last.bidPrice && t.askPrice <= last.askPrice
    decreases |trades|
  {
    if trades != [] {
      var n := |trades| - 1;
      var mid :| Matching(b, trades[..n], mid) && Step(mid, trades[n], b');
      TradesWalkInwards(b, trades[..n], mid);
      StepWalksInwards(mid, trades[n], b');
      assert forall t | t in trades :: t == trades[n] || t in trades[..n];
    }
  }

  /** The bid price of the last trade is an auction price that reaches the volume. */
  lemma LastBidPriceReachesTheVolume(b: Book, trades: seq<Trade>, b': Book)
    requires Matching(b, trades, b') && trades != []
    ensures AuctionVolume(b, trades[|trades| - 1].bidPrice) >= Volume(trades)
  {
    var p := trades[|trades| - 1].bidPrice;
    AllTradesReach(b, trades, b', p);
    Conservation(b, trades, b', AtLeast(p));
    Conservation(b, trades, b', AtMost(p));
  }

  lemma AllTradesReach(b: Book, trades: seq<Trade>, b': Book, p: nat)
    requires Matching(b, trades, b') && trades != [] && p == trades[|trades| - 1].bidPrice
    ensures BoughtIn(trades, AtLeast(p)) == SoldIn(trades, AtMost(p)) == Volume(trades)
  {
    TradesWalkInwards(b, trades, b');
    VolumeInRange(trades, AtLeast(p), AtMost(p));
  }

  /** The volume traded is the maximum, over all prices, of what a uniform-price auction would trade. */
  lemma AuctionOptimum(b: Book, trades: seq<Trade>, b': Book)
    requires Executed(b, trades, b')
    ensures forall p: nat :: AuctionVolume(b, p) <= Volume(trades)
    ensures exists p: nat :: AuctionVolume(b, p) == Volume(trades)
  {
    forall p: nat ensures AuctionVolume(b, p) <= Volume(trades) {
      NoPriceBeatsTheVolume(b, trades, b', p);
    }
    if trades != [] {
      LastBidPriceReachesTheVolume(b, trades, b');
      assert AuctionVolume(b, trades[|trades| - 1].bidPrice) == Volume(trades);
    } else {
      assert AuctionVolume(b, 0) == Volume(trades);
    }
  }

  /** Every run of the loop on one book trades the same volume, whatever fronts it picks. */
  lemma VolumeIsDetermined(b: Book, ts1: seq<Trade>, b1: Book, ts2: seq<Trade>, b2: Book)
    requires Executed(b, ts1, b1) && Executed(b, ts2, b2)
    ensures Volume(ts1) == Volume(ts2)
  {
    AuctionOptimum(b, ts1, b1);
    AuctionOptimum(b, ts2, b2);
  }
}
