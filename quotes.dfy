/**
 * Spread and mid-price of a pair of quotes. Both order books compute these
 * the same way from their best bid and best ask; either quote may be absent.
 */
module Quotes {
  import opened Options

  /** `best_ask - best_bid`, absent when either quote is absent. A crossed book is not an error. */
  function Spread(bid: Option<real>, ask: Option<real>): (r: Option<real>)
    ensures r.Some? <==> bid.Some? && ask.Some?
    ensures r.Some? ==> bid.value + r.value == ask.value
    ensures r.Some? ==> (r.value <= 0.0 <==> bid.value >= ask.value)
  {
    if bid.None? || ask.None? then None else Some(ask.value - bid.value)
  }

  /** `0.5 * (best_bid + best_ask)`, absent when either quote is absent. */
  function Mid(bid: Option<real>, ask: Option<real>): (r: Option<real>)
    ensures r.Some? <==> bid.Some? && ask.Some?
    ensures r.Some? ==> r.value - bid.value == ask.value - r.value
    ensures r.Some? && bid.value <= ask.value ==> bid.value <= r.value <= ask.value
    ensures r.Some? && ask.value <= bid.value ==> ask.value <= r.value <= bid.value
  {
    if bid.None? || ask.None? then None else Some(0.5 * (bid.value + ask.value))
  }
}
