# Streaming OHLCV aggregation, modelled in Dafny

docker-ohlcv collects trades from a Binance futures trade stream and folds
them into OHLCV candles (open, high, low, close, volume). The repository has
two independent versions of that fold, and this project models both.

- **`OHLCVAggregator`** (bitcoin-1s.py) buckets trades by the epoch second of
  their trade time. A trade whose second differs from the open bucket's
  finalizes that bucket into a candle and reseeds the bucket with itself.
  Module `SecondAggregator`, file `second_aggregator.dfy`.
- **`PriceFeed`** (price_feed.py) keeps a running `current_tick` that every
  trade message updates. A separate periodic flush snapshots the tick into a
  record and resets it. Module `PriceFeedModel`, file `price_feed.dfy`.

Shared vocabulary lives in module `Ohlc` (`ohlc.dfy`): the candle, Python's
`max`/`min`, sums, and the console colours.

## How the model is built

Each class keeps the source's fields along with a ghost record of what it has
received. In `OHLCVAggregator` that record is the open bucket's trades. In
`PriceFeed` it is the fills since the last reset. Each method states its new
fields exactly. Its `Valid()` invariant ties the fields to a specification
function of the ghost record.

- **Per-second side.** `Runs` cuts a trade stream into maximal runs of trades
  that share a second. `Completed` is the candles of every run but the last.
  `CollectTrades` drives one aggregator through a message stream, reconnects
  included, and proves that the candles it emits are exactly `Completed`.
- **Price-feed side.** `Accumulated` folds the code's per-trade `Step` over the
  fills. `AccumulatedIsSummary` proves the fold equals a summary defined directly from the fills, not as a fold:
  first price, largest and smallest price, last price, total quantity.
- **Interleaving.** In the source the trade loop and the flush are two asyncio
  tasks on one object. Neither task yields between reading a message and
  updating the tick, or inside the flush. So `OnMessage` and `Flush` are
  methods that may be called in any order, and that covers every interleaving.

Two behaviours of the code are easy to misread:

- **Late trades.** One might expect a trade stamped earlier than the open
  second to be dropped. The rollover test is `!=`, so it is not. Suppose the
  bucket for second S + 1 is open and a trade stamped in an earlier second S
  arrives. That trade finalizes the S + 1 bucket and opens a bucket for S.
  The next trade in S + 1 finalizes the S bucket and opens a new bucket for
  S + 1. When a trade in yet another second arrives, the new S + 1 bucket is
  emitted. S + 1 then has two candles. The model follows the code; see
  `LateTradeReopensSecond` and `LateTradeDuplicatesSecond`.
- **Flush failures.** In the price feed, if writing the record raises, the
  reset at price_feed.py:108-114 is skipped. The tick is kept and the next
  flush covers both periods. If the CSV write succeeded and only the database
  write raised, that period's row has already gone to the CSV file, and the
  next flush writes a record that covers that period again. `Flush` models
  this as its `writeFails` parameter.

`ReactionsTo` (the reactions to a stream, each judged against the price of
the last trade before it) and `LastPriceAfter` (`last_price` after a run of
fills: the last fill's price, or the old value) are specification functions.
`ProcessTrades` is stated in terms of them, and `ReactionsToMeaning` unfolds
`ReactionsTo` message by message.

`ThreeTradeExample` and the client method `FlushAcrossReconnect` are worked
scenarios. The first runs the per-second aggregator over three concrete
trades. The second runs the price feed through a trade, a lost connection, an
ignored message, another trade and two flushes.

Prices and quantities are exact reals. Every `Trade` field and `Fill` field
stands for an already-parsed number. Wall-clock time comes in as a parameter.

## Model

| member | source | states |
|---|---|---|
| Ohlc.Max | price_feed.py:59 | Python's two-argument `max`: at least both arguments and equal to one of them |
| Ohlc.Min | price_feed.py:60 | Python's two-argument `min`: at most both arguments and equal to one of them |
| Ohlc.SeqMax | bitcoin-1s.py:51 | `max(self.prices)` of a non-empty list is an element that bounds every element from above |
| Ohlc.SeqMin | bitcoin-1s.py:52 | `min(self.prices)` of a non-empty list is an element that bounds every element from below |
| SecondAggregator.TimestampSecond | bitcoin-1s.py:29 | `int(ms / 1000)` truncates toward zero: for ms >= 0 the second s satisfies 1000·s <= ms < 1000·s + 1000; for negative ms the bracket is mirrored |
| SecondAggregator.BoundaryBelongsToNewSecond | bitcoin-1s.py:29 | for every positive second k, the timestamp k·1000 ms belongs to second k and the millisecond before it to second k − 1 (for k <= 0 truncation puts that millisecond in second k as well) |
| SecondAggregator.TruncationTowardZero | bitcoin-1s.py:29 | -1 ms and 999 ms both fall in second 0, so the rounding is truncation, not flooring |
| SecondAggregator.BucketCandle | bitcoin-1s.py:48-55 | the candle of a bucket: time is the bucket's second, open is the first price, close is the last price, high and low are prices of the bucket that bound every price in it, volume is its total quantity, and low <= open, close <= high |
| SecondAggregator.CandleStyle | bitcoin-1s.py:67-80 | green exactly when close >= open, otherwise red; bold exactly when the change exceeds 0.1 in either direction |
| SecondAggregator.OHLCVAggregator.constructor | bitcoin-1s.py:21-24 | starts with no current second, no prices and volume 0, with an empty open bucket |
| SecondAggregator.OHLCVAggregator.CurrentCandle | bitcoin-1s.py:43-55 | no candle exactly when no trade has been collected (the `if not self.prices` guard); otherwise the open bucket's `BucketCandle` |
| SecondAggregator.OHLCVAggregator.ProcessTrade | bitcoin-1s.py:27-41 | in the current second: appends the price, adds the quantity, leaves the second unchanged, emits nothing. In any other second, earlier or later: emits the old bucket's candle unless this is the first trade, then reseeds with this trade alone. `prices` is non-empty afterwards |
| SecondAggregator.Runs | bitcoin-1s.py:32-41 | the buckets of a stream are non-empty, there is one at most per trade, and there are none only for an empty stream |
| SecondAggregator.RunsFlatten | bitcoin-1s.py:32-41 | concatenated in order, the buckets give back the stream: no trade is lost, duplicated or reordered |
| SecondAggregator.RunsSameSecond | bitcoin-1s.py:32-41 | every bucket holds trades of a single second |
| SecondAggregator.RunsAdjacentDiffer | bitcoin-1s.py:32-38 | neighbouring buckets are in different seconds, so each bucket is a maximal run |
| SecondAggregator.CompletedSnoc | bitcoin-1s.py:32-41 | one more trade either joins the open bucket and emits nothing, or emits exactly the open bucket's candle and leaves a bucket holding only itself |
| SecondAggregator.BucketRollover | bitcoin-1s.py:32-33 | the code's test (`current_second` set and different from the trade's second) is exactly the stream-level rollover condition |
| SecondAggregator.VolumeConserved | bitcoin-1s.py:36-54 | the emitted volumes plus the open bucket's volume equal the total quantity of the stream |
| SecondAggregator.TradeOf | bitcoin-1s.py:94-98 | a message yields a trade exactly when it carries a trade time, a price and a quantity, and that trade is exactly (trade time, price, quantity) as passed to `process_trade` |
| SecondAggregator.ReconnectContinuity | bitcoin-1s.py:82-103 | the aggregator is created once, outside the reconnect loop, so a dropped connection or a malformed message changes neither the trades seen nor the candles emitted |
| SecondAggregator.CollectTrades | bitcoin-1s.py:82-103 | over any finite message stream, reconnects included, the candles emitted are exactly `Completed` of the trades received |
| SecondAggregator.TwoThenNext | bitcoin-1s.py:32-41 | two trades of one second followed by a trade of another: the first two stay open, then the third emits their candle and is left open alone |
| SecondAggregator.ThreeTradeExample | bitcoin-1s.py:27-55 | worked example: trades at ...100 ms and ...400 ms stay open; a trade at ...1050 ms emits the candle (1700000000, 50000, 50010, 50000, 50010, 0.03) and opens the next second |
| SecondAggregator.LateTradeReopensSecond | bitcoin-1s.py:32 | a trade from an earlier second finalizes the open bucket instead of being dropped, and the next trade in the old second emits the late trade's own one-trade candle and reopens the old second's bucket, which was already emitted |
| SecondAggregator.LateTradeDuplicatesSecond | bitcoin-1s.py:32-38 | continuing that scenario, the next trade in any other second emits the reopened bucket. The emitted candles are then the original bucket of the old second, the late trade's candle and the reopened bucket. The first and the last are both stamped with the old second |
| PriceFeedModel.Accumulated | price_feed.py:54-63 | the folded tick has open, high, low and close all set or all None, and open is None exactly when no fill has arrived since the reset |
| PriceFeedModel.Step | price_feed.py:54-63 | one trade's update: afterwards open, high, low and close are all set, close is the price, the price lies between low and high, and the quantity is added to volume. On a tick that already has an open price, open is kept, high never falls and low never rises |
| PriceFeedModel.SummarySnoc | price_feed.py:54-63 | the summary of one more fill is `Step` applied to the previous summary: seed all four prices on an empty tick, otherwise keep open, take `max`/`min`, replace close and add the quantity |
| PriceFeedModel.AccumulatedIsSummary | price_feed.py:54-63 | the per-trade updates yield the first price, the largest price, the smallest price, the last price and the total quantity of the fills since the reset |
| PriceFeedModel.AccumulatedMeaning | price_feed.py:54-63 | after at least one fill: open is the first price, close is the last price, high and low are received prices that bound every price, low <= open, close <= high, and volume is the total quantity |
| PriceFeedModel.Snapshot | price_feed.py:91-100 | no record exactly when nothing has been accumulated; otherwise a record stamped with the flush time whose open is the first price, close the last price, high and low fill prices that bound every fill price (so the largest and the smallest), volume the total quantity, and which is ordered |
| PriceFeedModel.HasSubstring | price_feed.py:75 | `'BTC' in symbol`: true exactly when the substring occurs at some index |
| PriceFeedModel.Truthy | price_feed.py:66 | `if self.last_price:` is false exactly for None and for 0 |
| PriceFeedModel.BoldThreshold | price_feed.py:75 | the bold threshold is 100 exactly when "BTC" occurs in the symbol, and 0.1 exactly when it does not |
| PriceFeedModel.TickStyle | price_feed.py:66-78 | white and plain when `last_price` is falsy (None or 0). Otherwise green exactly on a rise, red exactly on a fall, white exactly when unchanged, and bold exactly when the move exceeds 100 for a BTC symbol and 0.1 otherwise |
| PriceFeedModel.StyleSymmetric | price_feed.py:66-75 | swapping the new and the previous price swaps green and red and keeps boldness |
| PriceFeedModel.FillOf | price_feed.py:50-52 | a message contributes a fill exactly when it carries both a price and a quantity, and the fill is those two values |
| PriceFeedModel.ReconnectContinuity | price_feed.py:82-84 | an error between two trades leaves the accumulated fills unchanged, so accumulation continues across reconnects |
| PriceFeedModel.PriceFeed.constructor | price_feed.py:22-32 | starts with the empty tick (all None, volume 0) and no last price |
| PriceFeedModel.ReactionTo | price_feed.py:47-80 | the reaction to one message, checked in the code's order: a lost connection reconnects, a message without `'p'` is ignored, one without `'q'` reconnects. A message is shown exactly when it is a trade, ignored exactly when it lacks `'p'`, and a shown message is styled by `TickStyle` against the previous price |
| PriceFeedModel.PriceFeed.OnMessage | price_feed.py:47-80 | with no `'p'`: ignored, nothing changes. With `'p'` but no `'q'`, or a lost connection: reconnect, nothing changes. A trade: the fill is appended, the tick takes one `Step`, the echo style is `TickStyle` against the previous price, and `last_price` becomes the price |
| PriceFeedModel.ReactionsToMeaning | price_feed.py:50-80 | in a message stream, message i is shown exactly when it is a trade. Its reaction is the one-message reaction judged against the last trade price before it, or against the initial `last_price` when no trade came first |
| PriceFeedModel.PriceFeed.ProcessTrades | price_feed.py:39-84 | over any finite message stream, reconnects included: the fills accumulated are exactly the stream's fills in order, and `last_price` is the last fill's price, or unchanged if there was none. The reactions are `ReactionsTo` of the stream, so each shown style compares the trade with the price of the previous trade |
| PriceFeedModel.PriceFeed.Flush | price_feed.py:86-117 | the record is the `Snapshot` of the fills since the reset, and its fields are the tick's open, high, low, close and volume, stamped with the flush time. When there is a record and the write succeeds, the tick is reset to empty; with nothing accumulated, or when the write raises, nothing changes. `last_price` is never touched |

## Left out

- Network I/O: the WebSocket connection, `recv`, JSON decoding and the 5-second reconnect sleep. A message is given as already-decoded optional fields. A field that is present but does not parse as a number raises like a lost connection, so the model represents it as `ConnectionLost`.
- Concurrency: `asyncio.gather` of trade, flush and upload tasks. These run at message and flush granularity, as method calls in sequence.
- Persistence: CSV files and headers, pandas, `os.makedirs`, the SQLite handler (db_handler.py) and S3 uploads (data_uploader.py, `upload_task`). Only whether the price-feed write raised is modelled, as the `writeFails` parameter of `Flush`.
- SecondAggregator.OHLCVAggregator.ProcessTrade: does not model `_save_current_candle` raising. The file write (bitcoin-1s.py:62-64) can raise, and so can `datetime.fromtimestamp` (bitcoin-1s.py:59) for a second outside the datetime range. Either one aborts `process_trade` at line 34, before the reseed at lines 36-38, and the exception reaches the reconnect handler. The trade that triggered the save is lost, and the old bucket stays open. A next trade in another second retries the save. A next trade in the old second is appended to the old bucket (lines 32, 39-41). The model assumes the save completes.
- Console output: `cprint`/`colored` and the number formatting (`:.2f`, `:.8f`). Only the colour and bold decision is modelled.
- Time: timezone conversion, `strftime` and `datetime.now`. The flush time is an integer parameter, and the per-second candle keeps the epoch second.
- Floating point: prices and quantities are exact reals. `int(timestamp_ms / 1000)` is modelled as exact truncating division, which ignores float rounding of timestamps beyond 2^53 ms.
- `last_save_time` (bitcoin-1s.py:25): set and never read.
- Configuration loading through yaml and its `ValueError` checks, and the `main` entry points: start-up plumbing.
