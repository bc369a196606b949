/**
 * Price levels of one side of a book: a map from price to resting size,
 * ordered by aggressiveness (highest price first for bids, lowest first for asks).
 */
module Levels {
  import opened Options

  datatype Side = Bid | Ask

  /** A (price, size) pair. */
  type Level = (real, real)

  function Min(a: int, b: int): int { if a <= b then a else b }
  function Max(a: int, b: int): int { if a >= b then a else b }

  /** Price a is strictly more aggressive than price b on this side. */
  predicate Before(side: Side, a: real, b: real) {
    match side
    case Bid => a > b
    case Ask => a < b
  }

  /** Some element of a non-empty set. */
  lemma Pick(ks: set<real>) returns (x: real)
    requires ks != {}
    ensures x in ks
  {
    // Without this step the witness for the such-that below is not found.
    if forall y :: y !in ks {
      assert false;
    }
    x :| x in ks;
  }

  /** A map that is not empty has a key. */
  lemma KeysNonEmpty(m: map<real, real>)
    requires m != map[]
    ensures m.Keys != {}
  {
  }

  /** b is the most aggressive price in ks: max for bids, min for asks. */
  predicate IsBest(side: Side, ks: set<real>, b: real) {
    b in ks && forall k :: k in ks ==> !Before(side, k, b)
  }

  /** No level rests with a size of zero or less. */
  predicate PositiveSizes(m: map<real, real>) {
    forall p :: p in m ==> m[p] > 0.0
  }

  /** Every finite non-empty set of prices has a most aggressive one. */
  lemma {:induction false} BestExists(side: Side, ks: set<real>)
    requires ks != {}
    ensures exists b :: IsBest(side, ks, b)
  {
    var x := Pick(ks);
    if ks == {x} {
      assert IsBest(side, ks, x);
    } else {
      var rest := ks - {x};
      assert rest != {} by {
        var y := Pick(ks - {x});
      }
      BestExists(side, rest);
      var b :| IsBest(side, rest, b);
      if Before(side, x, b) {
        forall k | k in ks
          ensures !Before(side, k, x)
        {
          if k != x {
            assert k in rest;
          }
        }
        assert IsBest(side, ks, x);
      } else {
        assert IsBest(side, ks, b);
      }
    }
  }

  /** `max(keys)` for bids, `min(keys)` for asks. */
  function BestKey(side: Side, ks: set<real>): (b: real)
    requires ks != {}
    ensures IsBest(side, ks, b)
  {
    BestExists(side, ks);
    var b :| b in ks && IsBest(side, ks, b);
    b
  }

  /** The best price of a side, absent exactly when the side is empty. */
  function Best(side: Side, m: map<real, real>): (r: Option<real>)
    ensures r.None? <==> m == map[]
    ensures r.Some? ==> IsBest(side, m.Keys, r.value)
  {
    if m == map[] then None
    else
      KeysNonEmpty(m);
      Some(BestKey(side, m.Keys))
  }

  /** A price that is in m and no key of m beats is the best of m. */
  lemma BestIs(side: Side, m: map<real, real>, b: real)
    requires IsBest(side, m.Keys, b)
    ensures Best(side, m) == Some(b)
  {
  }

  /**
   * What `_update_side` does to the chosen map: a size of zero or less removes the
   * level (nothing happens when it is absent), any other size sets it. Only that
   * one price changes.
   */
  function SetLevel(m: map<real, real>, price: real, size: real): (r: map<real, real>)
    ensures price in r <==> size > 0.0
    ensures price in r ==> r[price] == size
    ensures forall p :: p != price ==> (p in r <==> p in m)
    ensures forall p :: p != price && p in r ==> r[p] == m[p]
    ensures PositiveSizes(m) ==> PositiveSizes(r)
  {
    if size <= 0.0 then
      if price in m then m - {price} else m
    else
      m[price := size]
  }

  /**
   * Changing a level strictly less aggressive than the best leaves the best where it is,
   * whether the level is set or removed.
   */
  lemma SetLevelKeepsBest(side: Side, m: map<real, real>, b: real, price: real, size: real)
    requires Best(side, m) == Some(b)
    requires Before(side, b, price)
    ensures Best(side, SetLevel(m, price, size)) == Some(b)
  {
    var r := SetLevel(m, price, size);
    assert IsBest(side, r.Keys, b);
    BestIs(side, r, b);
  }

  /** Prices strictly decrease (bids) or strictly increase (asks) along r. */
  predicate Ordered(side: Side, r: seq<Level>) {
    forall i, j :: 0 <= i < j < |r| ==> Before(side, r[i].0, r[j].0)
  }

  /** Every pair of r is an actual (price, size) entry of m. */
  predicate EntriesOf(r: seq<Level>, m: map<real, real>) {
    forall i :: 0 <= i < |r| ==> r[i].0 in m && m[r[i].0] == r[i].1
  }

  /** k is the price of some pair of r. */
  predicate InPrices(k: real, r: seq<Level>) {
    exists i :: 0 <= i < |r| && r[i].0 == k
  }

  /** Every price of m appears in r. */
  predicate Covers(r: seq<Level>, m: map<real, real>) {
    forall k :: k in m ==> InPrices(k, r)
  }

  /** Every price of m left out of r is less aggressive than every price in r. */
  predicate Dominates(side: Side, r: seq<Level>, m: map<real, real>) {
    forall i, k :: 0 <= i < |r| && k in m && !InPrices(k, r) ==> Before(side, r[i].0, k)
  }

  /** `sorted(m.items())`, descending by price for bids and ascending for asks. */
  function SortedLevels(side: Side, m: map<real, real>): (r: seq<Level>)
    ensures Ordered(side, r) && EntriesOf(r, m) && Covers(r, m)
    ensures |r| == |m|
    decreases |m|
  {
    if m == map[] then []
    else
      KeysNonEmpty(m);
      var b := BestKey(side, m.Keys);
      var rest := m - {b};
      assert |rest| == |m| - 1 by {
        assert rest.Keys == m.Keys - {b};
      }
      var tail := SortedLevels(side, rest);
      ConsBest(side, m, b, tail);
      [(b, m[b])] + tail
  }

  /** Putting the best level in front of the sorted rest keeps order, entries and coverage. */
  lemma ConsBest(side: Side, m: map<real, real>, b: real, tail: seq<Level>)
    requires IsBest(side, m.Keys, b)
    requires Ordered(side, tail) && EntriesOf(tail, m - {b}) && Covers(tail, m - {b})
    ensures var r := [(b, m[b])] + tail;
      Ordered(side, r) && EntriesOf(r, m) && Covers(r, m)
  {
    var r := [(b, m[b])] + tail;
    forall k | k in m
      ensures InPrices(k, r)
    {
      if k == b {
        assert r[0].0 == k;
      } else {
        assert k in m - {b};
        var i :| 0 <= i < |tail| && tail[i].0 == k;
        assert r[i + 1].0 == k;
      }
    }
    forall i, j | 0 <= i < j < |r|
      ensures Before(side, r[i].0, r[j].0)
    {
      if i == 0 {
        assert r[j].0 in m - {b} by {
          assert r[j] == tail[j - 1];
        }
      } else {
        assert r[i] == tail[i - 1] && r[j] == tail[j - 1];
      }
    }
  }

  /** Python's `s[:n]`: the first n items, or, for a negative n, all but the last -n. */
  function SlicePrefix<T>(s: seq<T>, n: int): (r: seq<T>)
    ensures r <= s
    ensures |r| == if n >= 0 then Min(n, |s|) else Max(0, |s| + n)
  {
    if n >= 0 then
      if n <= |s| then s[..n] else s
    else
      if |s| + n >= 0 then s[..|s| + n] else []
  }

  /** A prefix of the sorted levels keeps out only prices below everything it holds. */
  lemma PrefixDominates(side: Side, m: map<real, real>, s: seq<Level>, r: seq<Level>)
    requires Ordered(side, s) && Covers(s, m)
    requires r <= s
    ensures Dominates(side, r, m)
  {
    forall i, k | 0 <= i < |r| && k in m && !InPrices(k, r)
      ensures Before(side, r[i].0, k)
    {
      var j :| 0 <= j < |s| && s[j].0 == k;
      assert j >= |r|;
    }
  }

  /**
   * The first n levels of one side in order of aggressiveness: `sorted(...)[:n]`.
   * For n >= 0 these are the min(n, |m|) most aggressive levels.
   */
  function TopLevels(side: Side, m: map<real, real>, n: int): (r: seq<Level>)
    ensures Ordered(side, r) && EntriesOf(r, m) && Dominates(side, r, m)
    ensures n >= 0 ==> |r| == Min(n, |m|)
    ensures n < 0 ==> |r| == Max(0, |m| + n)
  {
    var s := SortedLevels(side, m);
    var r := SlicePrefix(s, n);
    PrefixDominates(side, m, s, r);
    r
  }
}
