/**
 * The two books agree: for the same pair lists, the quotes `OrderBook.update_from_depth`
 * picks are the caches `FullOrderBook.apply_snapshot` leaves behind.
 */
module Agreement {
  import opened Options
  import opened Levels
  import OrderBookFull
  import OrderBookTop

  /** The best of the map a snapshot builds is the best positively quoted price of its pairs. */
  lemma SnapshotBestIsBestQuoted(side: Side, pairs: seq<Level>)
    ensures Best(side, OrderBookFull.SnapshotSide(pairs)) == OrderBookTop.BestQuoted(side, pairs)
  {
    var m := OrderBookFull.SnapshotSide(pairs);
    var q := OrderBookTop.BestQuoted(side, pairs);
    forall k
      ensures k in m <==> OrderBookTop.QuotedPositive(pairs, k)
    {
      OrderBookFull.SnapshotKeys(pairs, k);
    }
    if q.None? {
      if m != map[] {
        KeysNonEmpty(m);
        var k := Pick(m.Keys);
        assert false;
      }
    } else {
      forall k | k in m
        ensures !Before(side, k, q.value)
      {
        var i :| 0 <= i < |pairs| && pairs[i].0 == k && pairs[i].1 > 0.0;
      }
      BestIs(side, m, q.value);
    }
  }

  /** Feeding the same depth to both books yields the same best bid and best ask. */
  method BooksAgree(bids: seq<Level>, asks: seq<Level>)
    returns (full: OrderBookFull.FullOrderBook, top: OrderBookTop.OrderBook)
    ensures full.bestBid == top.bestBid && full.bestAsk == top.bestAsk
  {
    full := new OrderBookFull.FullOrderBook();
    full.ApplySnapshot(bids, asks);
    top := new OrderBookTop.OrderBook();
    top.UpdateFromDepth(bids, asks);
    SnapshotBestIsBestQuoted(Bid, bids);
    SnapshotBestIsBestQuoted(Ask, asks);
  }
}
