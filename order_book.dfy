/**
 * Top-of-book tracker (order_book.py): keeps only the best bid and best ask,
 * recomputed from each full depth snapshot it is given.
 */
module OrderBookTop {
  import opened Options
  import opened Levels
  import Quotes

  /** The pair of quotes `top()` hands out. */
  datatype TopOfBook = TopOfBook(bid: Option<real>, ask: Option<real>)

  /** Some pair of a depth list quotes price p with a positive quantity. */
  predicate QuotedPositive(pairs: seq<Level>, p: real) {
    exists i :: 0 <= i < |pairs| && pairs[i].0 == p && pairs[i].1 > 0.0
  }

  /**
   * `max(...)` (bids) or `min(...)` (asks) over the prices whose quantity is positive,
   * with `default=None` when there is none.
   */
  function BestQuoted(side: Side, pairs: seq<Level>): (r: Option<real>)
    ensures r.None? <==> forall i :: 0 <= i < |pairs| ==> pairs[i].1 <= 0.0
    ensures r.Some? ==> QuotedPositive(pairs, r.value)
    ensures r.Some? ==> forall i :: 0 <= i < |pairs| && pairs[i].1 > 0.0 ==> !Before(side, pairs[i].0, r.value)
  {
    if pairs == [] then None
    else
      var init := pairs[..|pairs| - 1];
      var rest := BestQuoted(side, init);
      var last := pairs[|pairs| - 1];
      assert forall i :: 0 <= i < |init| ==> pairs[i] == init[i];
      var r :=
        if last.1 <= 0.0 then rest
        else if rest.None? || Before(side, last.0, rest.value) then Some(last.0)
        else rest;
      assert r.Some? ==> QuotedPositive(pairs, r.value) by {
        if r.Some? && r != Some(last.0) {
          var i :| 0 <= i < |init| && init[i].0 == r.value && init[i].1 > 0.0;
          assert pairs[i] == init[i];
        }
      }
      r
  }

  class OrderBook {
    var bestBid: Option<real>
    var bestAsk: Option<real>

    constructor ()
      ensures bestBid == None && bestAsk == None
    {
      bestBid, bestAsk := None, None;
    }

    /**
     * `update_from_depth`: the best bid becomes the highest bid price with a positive
     * quantity and the best ask the lowest such ask price; either is absent when its
     * list is empty or holds no positive quantity. Prior state plays no part.
     */
    method UpdateFromDepth(bids: seq<Level>, asks: seq<Level>)
      modifies this
      ensures bestBid == BestQuoted(Bid, bids) && bestAsk == BestQuoted(Ask, asks)
    {
      if bids != [] {
        bestBid := BestQuoted(Bid, bids);
      } else {
        bestBid := None;
      }
      if asks != [] {
        bestAsk := BestQuoted(Ask, asks);
      } else {
        bestAsk := None;
      }
    }

    /** `top()`: both quotes as they stand. */
    function Top(): (t: TopOfBook)
      reads this
      ensures t.bid == bestBid && t.ask == bestAsk
    {
      TopOfBook(bestBid, bestAsk)
    }

    /** `spread()`: best ask minus best bid, absent when either quote is absent. */
    function Spread(): (r: Option<real>)
      reads this
      ensures r.Some? <==> bestBid.Some? && bestAsk.Some?
      ensures r.Some? ==> bestBid.value + r.value == bestAsk.value
      ensures r.Some? ==> (r.value <= 0.0 <==> bestBid.value >= bestAsk.value)
    {
      Quotes.Spread(bestBid, bestAsk)
    }

    /** `mid()`: the average of both quotes, absent when either is absent; it lies between them. */
    function Mid(): (r: Option<real>)
      reads this
      ensures r.Some? <==> bestBid.Some? && bestAsk.Some?
      ensures r.Some? ==> r.value - bestBid.value == bestAsk.value - r.value
      ensures r.Some? && bestBid.value <= bestAsk.value ==> bestBid.value <= r.value <= bestAsk.value
      ensures r.Some? && bestAsk.value <= bestBid.value ==> bestAsk.value <= r.value <= bestBid.value
    {
      Quotes.Mid(bestBid, bestAsk)
    }
  }
}
