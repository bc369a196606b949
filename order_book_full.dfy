/**
 * Full-depth order book rebuilt from a snapshot followed by incremental updates
 * (order_book_full.py). Both sides are price -> size maps; the best bid and best
 * ask are cached and refreshed at most once per side per batch of updates.
 */
module OrderBookFull {
  import opened Options
  import opened Levels
  import Quotes

  /** One incremental update: side word ("buy" or anything else), price, new absolute size. */
  datatype Change = Change(sideWord: string, price: real, size: real)

  /** `[[p, s], ...]` serialised depth, with both quotes, spread and mid. */
  datatype DepthJson = DepthJson(
    bids: seq<Level>,
    asks: seq<Level>,
    bestBid: Option<real>,
    bestAsk: Option<real>,
    spread: Option<real>,
    mid: Option<real>)

  /** The side an update's side word routes to: "buy" is a bid, every other word an ask. */
  function Route(sideWord: string): (s: Side)
    ensures s == Bid <==> sideWord == "buy"
  {
    if sideWord == "buy" then Bid else Ask
  }

  /**
   * The map one side of `apply_snapshot` builds from its pairs, read left to right:
   * a pair with a positive size sets its level, any other pair is skipped.
   */
  function SnapshotSide(pairs: seq<Level>): (m: map<real, real>)
    ensures PositiveSizes(m)
  {
    if pairs == [] then map[]
    else
      var m := SnapshotSide(pairs[..|pairs| - 1]);
      var last := pairs[|pairs| - 1];
      if last.1 > 0.0 then m[last.0 := last.1] else m
  }

  /** A price rests after a snapshot exactly when some pair quotes it with a positive size. */
  lemma {:induction false} SnapshotKeys(pairs: seq<Level>, k: real)
    ensures k in SnapshotSide(pairs) <==> exists i :: 0 <= i < |pairs| && pairs[i].0 == k && pairs[i].1 > 0.0
  {
    if pairs != [] {
      var init := pairs[..|pairs| - 1];
      SnapshotKeys(init, k);
      if exists i :: 0 <= i < |init| && init[i].0 == k && init[i].1 > 0.0 {
        var i :| 0 <= i < |init| && init[i].0 == k && init[i].1 > 0.0;
        assert pairs[i] == init[i];
      }
      if exists i :: 0 <= i < |pairs| && pairs[i].0 == k && pairs[i].1 > 0.0 {
        var i :| 0 <= i < |pairs| && pairs[i].0 == k && pairs[i].1 > 0.0;
        if i < |init| {
          assert init[i] == pairs[i];
        }
      }
    }
  }

  /**
   * The last positive pair at a price decides its size: a later pair at that price
   * overwrites an earlier one, and a later pair of size zero or less does not delete it.
   */
  lemma {:induction false} SnapshotLastWins(pairs: seq<Level>, i: nat)
    requires i < |pairs| && pairs[i].1 > 0.0
    requires forall j :: i < j < |pairs| && pairs[j].0 == pairs[i].0 ==> pairs[j].1 <= 0.0
    ensures pairs[i].0 in SnapshotSide(pairs) && SnapshotSide(pairs)[pairs[i].0] == pairs[i].1
  {
    if i < |pairs| - 1 {
      var init := pairs[..|pairs| - 1];
      SnapshotLastWins(init, i);
    }
  }

  /**
   * One side of the book after a batch of updates, applied left to right: each change
   * routed to this side sets or removes its level, every other change is ignored.
   */
  function SideAfter(side: Side, m: map<real, real>, changes: seq<Change>): (r: map<real, real>)
    ensures PositiveSizes(m) ==> PositiveSizes(r)
  {
    if changes == [] then m
    else
      var prev := SideAfter(side, m, changes[..|changes| - 1]);
      var c := changes[|changes| - 1];
      if Route(c.sideWord) == side then SetLevel(prev, c.price, c.size) else prev
  }

  /** A price that no change of this side mentions keeps its level (or its absence). */
  lemma {:induction false} SideAfterUntouched(side: Side, m: map<real, real>, changes: seq<Change>, k: real)
    requires forall j :: 0 <= j < |changes| && Route(changes[j].sideWord) == side ==> changes[j].price != k
    ensures k in SideAfter(side, m, changes) <==> k in m
    ensures k in m ==> SideAfter(side, m, changes)[k] == m[k]
  {
    if changes != [] {
      SideAfterUntouched(side, m, changes[..|changes| - 1], k);
    }
  }

  /**
   * The last change of this side at a price decides that level: it rests with the
   * change's size when that size is positive and is absent otherwise.
   */
  lemma {:induction false} SideAfterLastWins(side: Side, m: map<real, real>, changes: seq<Change>, i: nat)
    requires i < |changes| && Route(changes[i].sideWord) == side
    requires forall j :: i < j < |changes| && Route(changes[j].sideWord) == side ==> changes[j].price != changes[i].price
    ensures var r := SideAfter(side, m, changes);
      (changes[i].price in r <==> changes[i].size > 0.0) &&
      (changes[i].size > 0.0 ==> r[changes[i].price] == changes[i].size)
  {
    if i < |changes| - 1 {
      SideAfterLastWins(side, m, changes[..|changes| - 1], i);
    }
  }

  class FullOrderBook {
    var bids: map<real, real>
    var asks: map<real, real>
    var bestBid: Option<real>
    var bestAsk: Option<real>

    /** Every resting size is positive and each cache holds its side's best price. */
    ghost predicate Valid()
      reads this
      ensures Valid() ==> (bestBid.None? <==> bids == map[]) && (bestAsk.None? <==> asks == map[])
      ensures Valid() && bestBid.Some? ==> bestBid.value in bids && forall p :: p in bids ==> p <= bestBid.value
      ensures Valid() && bestAsk.Some? ==> bestAsk.value in asks && forall p :: p in asks ==> bestAsk.value <= p
    {
      PositiveSizes(bids) && PositiveSizes(asks) &&
      bestBid == Best(Bid, bids) && bestAsk == Best(Ask, asks)
    }

    constructor ()
      ensures Valid()
      ensures bids == map[] && asks == map[] && bestBid == None && bestAsk == None
    {
      bids, asks := map[], map[];
      bestBid, bestAsk := None, None;
    }

    /** `_recalc_best_bid`: the highest bid price, or absent when there are no bids. */
    method RecalcBestBid()
      modifies this`bestBid
      ensures bestBid == Best(Bid, bids)
    {
      bestBid := if bids == map[] then None else Some(BestKey(Bid, bids.Keys));
    }

    /** `_recalc_best_ask`: the lowest ask price, or absent when there are no asks. */
    method RecalcBestAsk()
      modifies this`bestAsk
      ensures bestAsk == Best(Ask, asks)
    {
      bestAsk := if asks == map[] then None else Some(BestKey(Ask, asks.Keys));
    }

    /** `_update_side`: set or remove one level of one side; the caches are left alone. */
    method UpdateSide(side: Side, price: real, size: real)
      modifies this`bids, this`asks
      ensures side == Bid ==> bids == SetLevel(old(bids), price, size) && asks == old(asks)
      ensures side == Ask ==> asks == SetLevel(old(asks), price, size) && bids == old(bids)
    {
      if side == Bid {
        bids := SetLevel(bids, price, size);
      } else {
        asks := SetLevel(asks, price, size);
      }
    }

    /** `apply_snapshot`: replace both sides with the snapshot's positive pairs, then refresh both caches. */
    method ApplySnapshot(bidPairs: seq<Level>, askPairs: seq<Level>)
      modifies this
      ensures Valid()
      ensures bids == SnapshotSide(bidPairs) && asks == SnapshotSide(askPairs)
    {
      bids, asks := map[], map[];
      for i := 0 to |bidPairs|
        invariant bids == SnapshotSide(bidPairs[..i]) && asks == map[]
      {
        assert bidPairs[..i + 1][..i] == bidPairs[..i];
        var (p, s) := bidPairs[i];
        if s > 0.0 {
          bids := bids[p := s];
        }
      }
      assert bidPairs[..|bidPairs|] == bidPairs;
      for i := 0 to |askPairs|
        invariant asks == SnapshotSide(askPairs[..i])
        invariant bids == SnapshotSide(bidPairs)
      {
        assert askPairs[..i + 1][..i] == askPairs[..i];
        var (p, s) := askPairs[i];
        if s > 0.0 {
          asks := asks[p := s];
        }
      }
      assert askPairs[..|askPairs|] == askPairs;
      RecalcBestBid();
      RecalcBestAsk();
    }

    /**
     * `apply_updates`: apply the changes in order. A change only raises its side's
     * "touched" flag when the cache held before the batch was absent, the price is at
     * least as aggressive as it, or the size is exactly zero; a side is rescanned once,
     * after the loop, only if its flag is up. The caches are right either way.
     */
    method ApplyUpdates(changes: seq<Change>)
      requires Valid()
      modifies this
      ensures Valid()
      ensures bids == SideAfter(Bid, old(bids), changes)
      ensures asks == SideAfter(Ask, old(asks), changes)
    {
      var touchedBid, touchedAsk := false, false;
      for i := 0 to |changes|
        invariant bids == SideAfter(Bid, old(bids), changes[..i])
        invariant asks == SideAfter(Ask, old(asks), changes[..i])
        invariant PositiveSizes(bids) && PositiveSizes(asks)
        invariant bestBid == old(bestBid) && bestAsk == old(bestAsk)
        invariant !touchedBid ==> bestBid == Best(Bid, bids)
        invariant !touchedAsk ==> bestAsk == Best(Ask, asks)
      {
        assert changes[..i + 1][..i] == changes[..i];
        var c := changes[i];
        if c.sideWord == "buy" {
          ghost var before := bids;
          UpdateSide(Bid, c.price, c.size);
          if bestBid.None? || c.price >= bestBid.value || c.size == 0.0 {
            touchedBid := true;
          } else if !touchedBid {
            SetLevelKeepsBest(Bid, before, bestBid.value, c.price, c.size);
          }
        } else {
          ghost var before := asks;
          UpdateSide(Ask, c.price, c.size);
          if bestAsk.None? || c.price <= bestAsk.value || c.size == 0.0 {
            touchedAsk := true;
          } else if !touchedAsk {
            SetLevelKeepsBest(Ask, before, bestAsk.value, c.price, c.size);
          }
        }
      }
      assert changes[..|changes|] == changes;
      if touchedBid {
        RecalcBestBid();
      }
      if touchedAsk {
        RecalcBestAsk();
      }
    }

    /** `best_bid()`: the cache, which on a valid book is the highest bid price. */
    function BestBid(): (r: Option<real>)
      reads this
      ensures Valid() ==> (r.None? <==> bids == map[])
      ensures Valid() && r.Some? ==> r.value in bids && forall p :: p in bids ==> p <= r.value
    {
      bestBid
    }

    /** `best_ask()`: the cache, which on a valid book is the lowest ask price. */
    function BestAsk(): (r: Option<real>)
      reads this
      ensures Valid() ==> (r.None? <==> asks == map[])
      ensures Valid() && r.Some? ==> r.value in asks && forall p :: p in asks ==> r.value <= p
    {
      bestAsk
    }

    /** `spread()`: best ask minus best bid, absent when either side is empty. */
    function Spread(): (r: Option<real>)
      reads this
      ensures r.Some? <==> bestBid.Some? && bestAsk.Some?
      ensures Valid() ==> (r.Some? <==> bids != map[] && asks != map[])
      ensures r.Some? ==> bestBid.value + r.value == bestAsk.value
      ensures r.Some? ==> (r.value <= 0.0 <==> bestBid.value >= bestAsk.value)
    {
      Quotes.Spread(bestBid, bestAsk)
    }

    /** `mid()`: the average of best bid and best ask, absent when either side is empty. */
    function Mid(): (r: Option<real>)
      reads this
      ensures r.Some? <==> bestBid.Some? && bestAsk.Some?
      ensures Valid() ==> (r.Some? <==> bids != map[] && asks != map[])
      ensures r.Some? ==> r.value - bestBid.value == bestAsk.value - r.value
    {
      Quotes.Mid(bestBid, bestAsk)
    }

    /**
     * `top_n(n)`: bids by descending price and asks by ascending price, each cut with
     * Python's `[:n]`. For n >= 0 these are the min(n, |side|) best levels of each side.
     */
    function TopN(n: int := 20): (r: (seq<Level>, seq<Level>))
      reads this
      ensures Ordered(Bid, r.0) && EntriesOf(r.0, bids) && Dominates(Bid, r.0, bids)
      ensures Ordered(Ask, r.1) && EntriesOf(r.1, asks) && Dominates(Ask, r.1, asks)
      ensures n >= 0 ==> |r.0| == Min(n, |bids|) && |r.1| == Min(n, |asks|)
      ensures n < 0 ==> |r.0| == Max(0, |bids| + n) && |r.1| == Max(0, |asks| + n)
    {
      (TopLevels(Bid, bids, n), TopLevels(Ask, asks, n))
    }

    /**
     * `to_depth_json(n)`: the top n levels of both sides with the cached quotes, spread
     * and mid. On a valid book with n > 0 the first level of each list is that side's
     * quote, and each list is empty exactly when its quote is absent.
     */
    function ToDepthJson(n: int := 40): (r: DepthJson)
      reads this
      ensures (r.bids, r.asks) == TopN(n)
      ensures r.bestBid == bestBid && r.bestAsk == bestAsk
      ensures r.spread == Spread() && r.mid == Mid()
      ensures Valid() && n > 0 ==> (r.bids == [] <==> r.bestBid.None?) && (r.asks == [] <==> r.bestAsk.None?)
      ensures Valid() && n > 0 && r.bids != [] ==> r.bids[0].0 == r.bestBid.value
      ensures Valid() && n > 0 && r.asks != [] ==> r.asks[0].0 == r.bestAsk.value
    {
      var (b, a) := TopN(n);
      DepthJson(b, a, bestBid, bestAsk, Spread(), Mid())
    }
  }
}
