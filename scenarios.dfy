/**
 * Clients of both books that state, for all inputs or for fixed fixtures, what a
 * caller observes through the public operations.
 */
module Scenarios {
  import opened Options
  import opened Levels
  import OrderBookFull
  import OrderBookTop

  /** Applying the same snapshot twice serialises to the same depth as applying it once. */
  method SnapshotIdempotent(bidPairs: seq<Level>, askPairs: seq<Level>, n: int)
    returns (once: OrderBookFull.DepthJson, twice: OrderBookFull.DepthJson)
    ensures once == twice
    ensures once.bids == TopLevels(Bid, OrderBookFull.SnapshotSide(bidPairs), n)
    ensures once.asks == TopLevels(Ask, OrderBookFull.SnapshotSide(askPairs), n)
  {
    var a := new OrderBookFull.FullOrderBook();
    a.ApplySnapshot(bidPairs, askPairs);
    once := a.ToDepthJson(n);
    var b := new OrderBookFull.FullOrderBook();
    b.ApplySnapshot(bidPairs, askPairs);
    b.ApplySnapshot(bidPairs, askPairs);
    twice := b.ToDepthJson(n);
  }

  /** Applying the same depth twice leaves the same quotes as applying it once. */
  method DepthIdempotent(bids: seq<Level>, asks: seq<Level>)
    returns (once: OrderBookTop.TopOfBook, twice: OrderBookTop.TopOfBook)
    ensures once == twice
    ensures once.bid == OrderBookTop.BestQuoted(Bid, bids)
    ensures once.ask == OrderBookTop.BestQuoted(Ask, asks)
  {
    var a := new OrderBookTop.OrderBook();
    a.UpdateFromDepth(bids, asks);
    once := a.Top();
    a.UpdateFromDepth(bids, asks);
    twice := a.Top();
  }

  /**
   * Snapshot bids 100 x 1, 99 x 2 and asks 101 x 1, 102 x 3, then remove the 100 bid
   * with a "buy" change of size zero: the best bid falls to 99, which is also the single
   * top level, and the spread widens from 1 to 2.
   */
  method RemoveBestBid() returns (before: OrderBookFull.DepthJson, after: OrderBookFull.DepthJson)
    ensures before.bestBid == Some(100.0) && before.bestAsk == Some(101.0)
    ensures before.spread == Some(1.0) && before.mid == Some(100.5)
    ensures after.bestBid == Some(99.0) && after.bids == [(99.0, 2.0)]
    ensures after.spread == Some(2.0)
  {
    var book := FixtureBook();
    before := book.ToDepthJson(40);
    var changes := [OrderBookFull.Change("buy", 100.0, 0.0)];
    FixtureUpdate(book.bids, changes);
    book.ApplyUpdates(changes);
    assert book.bids == map[99.0 := 2.0] && |book.bids| == 1;
    assert book.bestBid == Some(99.0) && book.bestAsk == Some(101.0);
    after := book.ToDepthJson(1);
    assert |after.bids| == 1 && after.bids[0].0 in book.bids;
  }

  /** A fresh full book after the snapshot bids 100 x 1, 99 x 2 and asks 101 x 1, 102 x 3. */
  method FixtureBook() returns (book: OrderBookFull.FullOrderBook)
    ensures fresh(book) && book.Valid()
    ensures book.bids == map[100.0 := 1.0, 99.0 := 2.0] && book.asks == map[101.0 := 1.0, 102.0 := 3.0]
    ensures book.bestBid == Some(100.0) && book.bestAsk == Some(101.0)
  {
    book := new OrderBookFull.FullOrderBook();
    var bids := [(100.0, 1.0), (99.0, 2.0)];
    var asks := [(101.0, 1.0), (102.0, 3.0)];
    FixtureSnapshot(bids, asks);
    book.ApplySnapshot(bids, asks);
  }

  lemma FixtureSnapshot(bids: seq<Level>, asks: seq<Level>)
    requires bids == [(100.0, 1.0), (99.0, 2.0)] && asks == [(101.0, 1.0), (102.0, 3.0)]
    ensures OrderBookFull.SnapshotSide(bids) == map[100.0 := 1.0, 99.0 := 2.0]
    ensures OrderBookFull.SnapshotSide(asks) == map[101.0 := 1.0, 102.0 := 3.0]
    ensures Best(Bid, map[100.0 := 1.0, 99.0 := 2.0]) == Some(100.0)
    ensures Best(Ask, map[101.0 := 1.0, 102.0 := 3.0]) == Some(101.0)
  {
    assert bids[..1] == [(100.0, 1.0)] && bids[..1][..0] == [];
    assert asks[..1] == [(101.0, 1.0)] && asks[..1][..0] == [];
    assert OrderBookFull.SnapshotSide(bids[..1]) == map[100.0 := 1.0];
    assert OrderBookFull.SnapshotSide(asks[..1]) == map[101.0 := 1.0];
    BestIs(Bid, map[100.0 := 1.0, 99.0 := 2.0], 100.0);
    BestIs(Ask, map[101.0 := 1.0, 102.0 := 3.0], 101.0);
  }

  lemma FixtureUpdate(bids: map<real, real>, changes: seq<OrderBookFull.Change>)
    requires bids == map[100.0 := 1.0, 99.0 := 2.0]
    requires changes == [OrderBookFull.Change("buy", 100.0, 0.0)]
    ensures OrderBookFull.SideAfter(Bid, bids, changes) == map[99.0 := 2.0]
    ensures Best(Bid, map[99.0 := 2.0]) == Some(99.0)
  {
    assert changes[..0] == [];
    assert OrderBookFull.Route(changes[0].sideWord) == Bid;
    assert SetLevel(bids, 100.0, 0.0) == map[99.0 := 2.0];
    BestIs(Bid, map[99.0 := 2.0], 99.0);
  }

  /** Nothing has been applied: no quotes, no spread, no mid and no levels. */
  method EmptyBook() returns (j: OrderBookFull.DepthJson, t: OrderBookTop.TopOfBook)
    ensures j == OrderBookFull.DepthJson([], [], None, None, None, None)
    ensures t == OrderBookTop.TopOfBook(None, None)
  {
    var full := new OrderBookFull.FullOrderBook();
    j := full.ToDepthJson(5);
    var top := new OrderBookTop.OrderBook();
    t := top.Top();
  }
}
