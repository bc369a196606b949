# Order-book reconstruction, modelled in Dafny

This project models the order-book core of a BTC-USD market-data tool. It covers two files.

- `FullOrderBook` (order_book_full.py) keeps a full-depth book: two price → size maps, `bids` and `asks`, and two cached quotes, the best bid and the best ask. It is reset by a snapshot and changed by batches of incremental updates. During a batch each update only raises a per-side "touched" flag. The raised test compares against the cache as it was before the batch, and each side is rescanned at most once, after the loop. The book answers best bid/ask, spread, mid, top-N depth and a serialised depth record.
- `OrderBook` (order_book.py) is a top-of-book tracker. It recomputes its best bid and best ask from every depth snapshot it is given, and answers `top`, `spread` and `mid`.

Prices and sizes are exact `real`s, and inputs arrive already parsed. Both classes are Dafny classes whose methods change their fields. The queries are functions that read the object.

Files, one module each:
- `options.dfy` (`Options`): the `Option` type.
- `quotes.dfy` (`Quotes`): spread and mid of two optional quotes. Both books compute these the same way.
- `levels.dfy` (`Levels`): sides and their price order, best price, the `_update_side` edit, sorting and Python `[:n]` slicing.
- `order_book_full.dfy` (`OrderBookFull`): `FullOrderBook`, the snapshot and update folds, and `DepthJson`.
- `order_book.dfy` (`OrderBookTop`): `OrderBook`, and the datatype `TopOfBook`, which models the `TopOfBook` dataclass of order_book.py:5-8 (an optional bid and an optional ask).
- `agreement.dfy` (`Agreement`): both books give the same quotes for the same depth.
- `scenarios.dfy` (`Scenarios`): clients that apply snapshots and updates and state what a caller observes.

The main result is `FullOrderBook.Valid()`: every resting size is positive, and each cache equals the best price of its side (absent iff the side is empty).
- `ApplySnapshot` and `ApplyUpdates` both re-establish `Valid()`.
- For `ApplyUpdates` this holds even when a side's flag stays down and its rescan is skipped. In that case every change on that side touched a price strictly worse than the cached best, and `SetLevelKeepsBest` shows such a change cannot move the best.
- The proof never uses the `size == 0.0` disjunct of the touched test. A removal below the best (size zero or negative) cannot move the best either.

## Model

| member | source | states |
|---|---|---|
| `Levels.BestExists` | order_book_full.py:18 | every non-empty finite set of prices has a maximum (bids) or minimum (asks), so `max`/`min` over the keys is defined |
| `Levels.BestKey` | order_book_full.py:17-21 | the chosen price is in the key set and no key beats it |
| `Levels.Best` | order_book_full.py:17-21 | a side's best is absent iff the map is empty; otherwise it is a key that no key beats |
| `Levels.SetLevel` | order_book_full.py:25-29 | after the edit, the price rests iff the size is positive, with that size; every other price keeps its presence and size; positive sizes stay positive |
| `Levels.SetLevelKeepsBest` | order_book_full.py:63-70 | setting or removing a level strictly worse than the current best leaves the best unchanged |
| `Levels.SortedLevels` | order_book_full.py:97-98 | the sorted items are strictly ordered by aggressiveness, are actual entries of the map, cover every key and have the map's length |
| `Levels.SlicePrefix` | order_book_full.py:97-98 | Python's `s[:n]` is a prefix of `s` of length min(n, \|s\|) for n ≥ 0, and max(0, \|s\|+n) for negative n |
| `Levels.TopLevels` | order_book_full.py:93-99 | one side of `top_n`: strictly ordered, actual entries, every left-out price worse than every listed one, with the Python slice length |
| `Quotes.Spread` | order_book_full.py:83-86 | absent iff either quote is absent; otherwise bid + spread = ask, and spread ≤ 0 iff the book is crossed (bid ≥ ask) |
| `Quotes.Mid` | order_book.py:44-47 | absent iff either quote is absent; otherwise equidistant from both quotes and between them |
| `OrderBookFull.SnapshotSide` | order_book_full.py:40-48 | the map a snapshot builds holds only positive sizes |
| `OrderBookFull.SnapshotKeys` | order_book_full.py:40-48 | a price rests after a snapshot iff some pair quotes it with a positive size |
| `OrderBookFull.SnapshotLastWins` | order_book_full.py:40-48 | a price's size is that of its last positive pair: later duplicates overwrite, and later pairs of size ≤ 0 do not delete |
| `OrderBookFull.SideAfter` | order_book_full.py:60-70 | folding a batch's changes into one side keeps all sizes positive |
| `OrderBookFull.SideAfterUntouched` | order_book_full.py:60-70 | a price that no change of the side mentions keeps its level, or stays absent; changes routed to the other side never matter |
| `OrderBookFull.SideAfterLastWins` | order_book_full.py:60-70 | the last change of a side at a price decides it: the level rests with that size iff the size is positive |
| `OrderBookFull.Route` | order_book_full.py:63-69 | an update goes to the bids exactly when its side word is "buy"; every other word goes to the asks |
| `OrderBookFull.FullOrderBook.Valid` | order_book_full.py:9-21 | the class invariant: all sizes positive and each cache is its side's best. It implies that each cache is absent iff its side is empty, and otherwise is a bid ≥ every bid (an ask ≤ every ask) |
| `OrderBookFull.FullOrderBook.constructor` | order_book_full.py:9-14 | a new book has empty maps and both caches absent, and is valid |
| `OrderBookFull.FullOrderBook.RecalcBestBid` | order_book_full.py:17-18 | the bid cache becomes the highest bid price, or absent when there are no bids |
| `OrderBookFull.FullOrderBook.RecalcBestAsk` | order_book_full.py:20-21 | the ask cache becomes the lowest ask price, or absent when there are no asks |
| `OrderBookFull.FullOrderBook.UpdateSide` | order_book_full.py:23-29 | exactly one side changes, by `SetLevel`; the other side and both caches are unchanged |
| `OrderBookFull.FullOrderBook.ApplySnapshot` | order_book_full.py:32-51 | both sides become the snapshot maps of their pairs, whatever the prior state; the book is valid afterwards |
| `OrderBookFull.FullOrderBook.ApplyUpdates` | order_book_full.py:53-75 | each side becomes the left-to-right fold of its changes ("buy" → bids, any other word → asks); the book stays valid, with caches exact even when a rescan is skipped |
| `OrderBookFull.FullOrderBook.BestBid` | order_book_full.py:77-78 | on a valid book: absent iff there are no bids, otherwise a bid price ≥ every bid price |
| `OrderBookFull.FullOrderBook.BestAsk` | order_book_full.py:80-81 | on a valid book: absent iff there are no asks, otherwise an ask price ≤ every ask price |
| `OrderBookFull.FullOrderBook.Spread` | order_book_full.py:83-86 | absent iff a cache is absent (on a valid book: iff a side is empty); otherwise bid + spread = ask; non-positive iff crossed |
| `OrderBookFull.FullOrderBook.Mid` | order_book_full.py:88-91 | absent iff a cache is absent (on a valid book: iff a side is empty); otherwise equidistant from bid and ask |
| `OrderBookFull.FullOrderBook.TopN` | order_book_full.py:93-99 | bids strictly descending and asks strictly ascending; actual entries; the n best of their side; length min(n, \|side\|) for n ≥ 0 and the Python slice length for n < 0 |
| `OrderBookFull.FullOrderBook.ToDepthJson` | order_book_full.py:101-111 | the lists are `TopN(n)`, and the quotes, spread and mid are the book's; on a valid book with n > 0 each list is empty iff its quote is absent, and starts at that quote; as a function it changes nothing |
| `OrderBookTop.BestQuoted` | order_book.py:24-34 | absent iff no pair has a positive quantity; otherwise a positively quoted price that no positively quoted price beats |
| `OrderBookTop.OrderBook.constructor` | order_book.py:15-17 | a new tracker has both quotes absent |
| `OrderBookTop.OrderBook.UpdateFromDepth` | order_book.py:19-34 | the best bid depends only on the bid list and the best ask only on the ask list, each the best positively quoted price; prior state plays no part |
| `OrderBookTop.OrderBook.Top` | order_book.py:36-37 | returns exactly the two current quotes and, as a function, changes nothing |
| `OrderBookTop.OrderBook.Spread` | order_book.py:39-42 | absent iff either quote is absent; otherwise bid + spread = ask; non-positive iff crossed |
| `OrderBookTop.OrderBook.Mid` | order_book.py:44-47 | absent iff either quote is absent; otherwise equidistant from both quotes, i.e. their average, and lies between them |
| `Agreement.SnapshotBestIsBestQuoted` | order_book.py:24-34 | for any pair list, the best of the map `apply_snapshot` builds is the quote `update_from_depth` picks |
| `Agreement.BooksAgree` | order_book_full.py:32-51 | a full book after `apply_snapshot` and a tracker after `update_from_depth` on the same lists hold the same best bid and best ask |
| `Scenarios.SnapshotIdempotent` | order_book_full.py:32-51 | applying a snapshot twice gives the same depth record as applying it once, and its lists are the top levels of the snapshot maps |
| `Scenarios.DepthIdempotent` | order_book.py:19-37 | applying the same depth twice leaves the same top of book as applying it once |
| `Scenarios.RemoveBestBid` | order_book_full.py:53-111 | snapshot 100×1, 99×2 / 101×1, 102×3 gives bid 100, ask 101, spread 1, mid 100.5; a "buy" change of size 0 at 100 then gives best bid 99, top-1 bids [(99, 2)] and spread 2 |
| `Scenarios.EmptyBook` | order_book_full.py:101-111 | a new full book serialises to empty lists with all four quotes absent, and a new tracker's top is (absent, absent) |

## Left out

- String parsing (`float(p)`, `float(s)`) is not modelled. Prices, sizes and quantities arrive as exact numbers. So the exception path is not modelled either: in the source, a malformed triple raises partway through `apply_updates`, leaving earlier triples applied and skipping the final rescan.
- IEEE floating point is not modelled: rounding in `spread`/`mid`, and NaN keys and comparisons. Exact reals are used instead.
- The internal side strings `"B"`/`"A"` of `_update_side` are the `Side` values `Bid`/`Ask`. The update triples keep their side word as a string: `"buy"` goes to the bids and every other word to the asks, as in the code. A side word such as `"bid"` therefore updates the asks.
- `top_n` follows Python slicing: a negative `n` drops the last `-n` levels; it does not return empty lists.
- A batch of updates is not rejected as a whole when one triple is malformed; the code applies triples one by one, and malformed input is outside this model (see the first line).
- The default arguments `n = 20` (`top_n`) and `n = 40` (`to_depth_json`) are kept as Dafny default parameter values.
- Websocket handling, reconnects, message routing, CSV and JSON file output, REST polling and plotting (run_ws_full.py, run_live.py, live_plot.py, live_depth_plot.py) are I/O and UI. They are not part of this model.
