/** The one-second OHLCV aggregator of bitcoin-1s.py: trades are bucketed by
    the epoch second of their trade time; a trade whose second differs from
    the open bucket's finalizes that bucket into a candle and reseeds it.

    The specification side describes the whole stream at once: `Runs` cuts
    the received trades into maximal runs of consecutive trades that share a
    second, every run but the last has been finalized (`Completed`), and the
    last one is the open bucket. The class `OHLCVAggregator` keeps its fields
    in step with the trades of its open bucket, and `CollectTrades` shows
    that this bucket is the stream's last run and that the candles emitted
    along the way are exactly `Completed`. */
module SecondAggregator {
  import opened Ohlc

  /** `int(timestamp_ms / 1000)`: the quotient truncated toward zero. */
  function TimestampSecond(ms: int): (s: int)
    ensures ms >= 0 ==> s * 1000 <= ms < s * 1000 + 1000
    ensures ms < 0 ==> s * 1000 - 1000 < ms <= s * 1000
  {
    if ms >= 0 then ms / 1000 else -((-ms) / 1000)
  }

  /** A timestamp on an exact multiple of 1000 ms opens the new second; the
      millisecond before it still belongs to the previous one. */
  lemma BoundaryBelongsToNewSecond(k: int)
    requires k >= 1
    ensures TimestampSecond(k * 1000) == k
    ensures TimestampSecond(k * 1000 - 1) == k - 1
  {
  }

  /** Truncation, not flooring: the millisecond just before the epoch lands
      in second 0 together with the first millisecond after it. */
  lemma TruncationTowardZero()
    ensures TimestampSecond(-1) == 0 && TimestampSecond(999) == 0
    ensures TimestampSecond(-1000) == -1
  {
  }

  datatype Trade = Trade(timestampMs: int, price: real, quantity: real)

  function SecondOf(t: Trade): int
  {
    TimestampSecond(t.timestampMs)
  }

  function Prices(ts: seq<Trade>): (ps: seq<real>)
    ensures |ps| == |ts|
    ensures forall i :: 0 <= i < |ts| ==> ps[i] == ts[i].price
  {
    if ts == [] then [] else Prices(ts[..|ts| - 1]) + [ts[|ts| - 1].price]
  }

  function Quantities(ts: seq<Trade>): (qs: seq<real>)
    ensures |qs| == |ts|
    ensures forall i :: 0 <= i < |ts| ==> qs[i] == ts[i].quantity
  {
    if ts == [] then [] else Quantities(ts[..|ts| - 1]) + [ts[|ts| - 1].quantity]
  }

  /** Total quantity traded in `ts`. */
  function Volume(ts: seq<Trade>): real
  {
    Sum(Quantities(ts))
  }

  /** The candle of one bucket: first and last price, their extremes, and
      the quantity traded, stamped with the bucket's second. */
  function BucketCandle(run: seq<Trade>): (c: Candle)
    requires |run| > 0
    ensures c.time == SecondOf(run[0])
    ensures c.open == run[0].price && c.close == run[|run| - 1].price
    ensures exists i :: 0 <= i < |run| && c.high == run[i].price
    ensures exists i :: 0 <= i < |run| && c.low == run[i].price
    ensures forall i :: 0 <= i < |run| ==> c.low <= run[i].price <= c.high
    ensures c.volume == Volume(run)
    ensures Ordered(c)
  {
    var ps := Prices(run);
    var c := Candle(SecondOf(run[0]), ps[0], SeqMax(ps), SeqMin(ps), ps[|ps| - 1], Volume(run));
    assert ps[0] == run[0].price && ps[|ps| - 1] == run[|run| - 1].price;
    c
  }

  /** All trades of `run` fall in the same second. */
  predicate SameSecond(run: seq<Trade>)
  {
    forall i :: 0 <= i < |run| ==> SecondOf(run[i]) == SecondOf(run[0])
  }

  /** The buckets the trades of `ts` were folded into, oldest first. A trade
      joins the last bucket when its second equals that bucket's second and
      opens a new bucket otherwise, whether its second is later or earlier. */
  function Runs(ts: seq<Trade>): (rs: seq<seq<Trade>>)
    ensures |rs| <= |ts| && (|rs| == 0 <==> |ts| == 0)
    ensures forall i :: 0 <= i < |rs| ==> |rs[i]| > 0
  {
    if ts == [] then []
    else
      var rs := Runs(ts[..|ts| - 1]);
      var t := ts[|ts| - 1];
      if rs != [] && SecondOf(rs[|rs| - 1][0]) == SecondOf(t)
      then rs[..|rs| - 1] + [rs[|rs| - 1] + [t]]
      else rs + [[t]]
  }

  function Flatten(rs: seq<seq<Trade>>): seq<Trade>
  {
    if rs == [] then [] else Flatten(rs[..|rs| - 1]) + rs[|rs| - 1]
  }

  lemma {:induction false} FlattenSnoc(rs: seq<seq<Trade>>, r: seq<Trade>)
    ensures Flatten(rs + [r]) == Flatten(rs) + r
  {
    assert (rs + [r])[..|rs|] == rs;
  }

  /** How one more trade changes the buckets: it extends the last one when
      it falls in that bucket's second and starts a new one otherwise. */
  lemma RunsSnoc(ts: seq<Trade>, t: Trade)
    ensures var rs := Runs(ts);
            Runs(ts + [t]) ==
              if rs != [] && SecondOf(rs[|rs| - 1][0]) == SecondOf(t)
              then rs[..|rs| - 1] + [rs[|rs| - 1] + [t]]
              else rs + [[t]]
  {
    assert (ts + [t])[..|ts|] == ts;
  }

  /** Concatenated, the buckets give back the stream in order. */
  lemma {:induction false} RunsFlatten(ts: seq<Trade>)
    ensures Flatten(Runs(ts)) == ts
  {
    if ts != [] {
      var pre := ts[..|ts| - 1];
      var t := ts[|ts| - 1];
      assert pre + [t] == ts;
      RunsFlatten(pre);
      RunsSnoc(pre, t);
      var rs := Runs(pre);
      if rs != [] && SecondOf(rs[|rs| - 1][0]) == SecondOf(t) {
        var front := rs[..|rs| - 1];
        assert rs == front + [rs[|rs| - 1]];
        FlattenSnoc(front, rs[|rs| - 1]);
        FlattenSnoc(front, rs[|rs| - 1] + [t]);
      } else {
        FlattenSnoc(rs, [t]);
      }
    }
  }

  /** Every bucket holds trades of a single second. */
  lemma {:induction false} RunsSameSecond(ts: seq<Trade>)
    ensures forall i :: 0 <= i < |Runs(ts)| ==> SameSecond(Runs(ts)[i])
  {
    if ts != [] {
      var pre := ts[..|ts| - 1];
      var t := ts[|ts| - 1];
      assert pre + [t] == ts;
      RunsSameSecond(pre);
      RunsSnoc(pre, t);
      var rs, rs' := Runs(pre), Runs(ts);
      if rs != [] && SecondOf(rs[|rs| - 1][0]) == SecondOf(t) {
        var n := |rs| - 1;
        assert rs' == rs[..n] + [rs[n] + [t]];
        SameSecondSnoc(rs[n], t);
        forall i | 0 <= i < |rs'|
          ensures SameSecond(rs'[i])
        {
          if i < n {
            assert rs'[i] == rs[i];
          }
        }
      } else {
        assert rs' == rs + [[t]];
        forall i | 0 <= i < |rs'|
          ensures SameSecond(rs'[i])
        {
          if i < |rs| {
            assert rs'[i] == rs[i];
          }
        }
      }
    }
  }

  lemma SameSecondSnoc(run: seq<Trade>, t: Trade)
    requires run != [] && SameSecond(run) && SecondOf(t) == SecondOf(run[0])
    ensures SameSecond(run + [t])
  {
  }

  /** Neighbouring buckets are in different seconds, so every bucket is a
      maximal run of same-second trades. */
  lemma {:induction false} RunsAdjacentDiffer(ts: seq<Trade>)
    ensures forall i :: 0 <= i < |Runs(ts)| - 1 ==>
              SecondOf(Runs(ts)[i][0]) != SecondOf(Runs(ts)[i + 1][0])
  {
    if ts != [] {
      var pre := ts[..|ts| - 1];
      var t := ts[|ts| - 1];
      assert pre + [t] == ts;
      RunsAdjacentDiffer(pre);
      RunsSnoc(pre, t);
    }
  }

  /** The candles of a list of buckets, in order. */
  function CandlesOf(rs: seq<seq<Trade>>): (cs: seq<Candle>)
    requires forall i :: 0 <= i < |rs| ==> |rs[i]| > 0
    ensures |cs| == |rs|
  {
    if rs == [] then [] else CandlesOf(rs[..|rs| - 1]) + [BucketCandle(rs[|rs| - 1])]
  }

  /** The candles emitted after feeding `ts` to a fresh aggregator: one per
      bucket except the still-open last one. */
  function Completed(ts: seq<Trade>): seq<Candle>
  {
    var rs := Runs(ts);
    if rs == [] then [] else CandlesOf(rs[..|rs| - 1])
  }

  /** The trades of the bucket still open after `ts`. */
  function OpenBucket(ts: seq<Trade>): seq<Trade>
  {
    var rs := Runs(ts);
    if rs == [] then [] else rs[|rs| - 1]
  }

  /** Whether trade `t` arriving after `ts` finalizes the open bucket. */
  predicate RollsOver(ts: seq<Trade>, t: Trade)
  {
    OpenBucket(ts) != [] && SecondOf(OpenBucket(ts)[0]) != SecondOf(t)
  }

  /** One more trade either joins the open bucket and emits nothing, or
      emits exactly the open bucket's candle and reseeds the bucket with
      this trade alone. */
  lemma {:induction false} CompletedSnoc(ts: seq<Trade>, t: Trade)
    ensures RollsOver(ts, t) ==>
              Completed(ts + [t]) == Completed(ts) + [BucketCandle(OpenBucket(ts))] &&
              OpenBucket(ts + [t]) == [t]
    ensures !RollsOver(ts, t) ==>
              Completed(ts + [t]) == Completed(ts) &&
              OpenBucket(ts + [t]) == OpenBucket(ts) + [t]
  {
    var ts' := ts + [t];
    RunsSnoc(ts, t);
    var rs := Runs(ts);
    if rs != [] {
      var front := rs[..|rs| - 1];
      if SecondOf(rs[|rs| - 1][0]) == SecondOf(t) {
        assert Runs(ts') == front + [rs[|rs| - 1] + [t]];
        assert Runs(ts')[..|Runs(ts')| - 1] == front;
      } else {
        assert Runs(ts') == rs + [[t]];
        assert Runs(ts')[..|Runs(ts')| - 1] == rs;
        assert rs[..|rs| - 1] == front;
      }
    } else {
      assert Runs(ts') == [[t]];
    }
  }

  /** Every bucket's volume is the total quantity it received, and the
      emitted volumes together with the open bucket's account for every
      trade of the stream. */
  lemma {:induction false} VolumeConserved(ts: seq<Trade>)
    ensures SumVolumes(Completed(ts)) + Volume(OpenBucket(ts)) == Volume(ts)
  {
    if ts != [] {
      var pre := ts[..|ts| - 1];
      var t := ts[|ts| - 1];
      assert pre + [t] == ts;
      VolumeConserved(pre);
      CompletedSnoc(pre, t);
      VolumeSnoc(pre, t);
      if RollsOver(pre, t) {
        SumVolumesSnoc(Completed(pre), BucketCandle(OpenBucket(pre)));
        VolumeSnoc([], t);
      } else {
        VolumeSnoc(OpenBucket(pre), t);
      }
    }
  }

  function SumVolumes(cs: seq<Candle>): real
  {
    if cs == [] then 0.0 else SumVolumes(cs[..|cs| - 1]) + cs[|cs| - 1].volume
  }

  lemma {:induction false} SumVolumesSnoc(cs: seq<Candle>, c: Candle)
    ensures SumVolumes(cs + [c]) == SumVolumes(cs) + c.volume
  {
    assert (cs + [c])[..|cs|] == cs;
  }

  lemma {:induction false} VolumeSnoc(ts: seq<Trade>, t: Trade)
    ensures Volume(ts + [t]) == Volume(ts) + t.quantity
  {
    assert (ts + [t])[..|ts|] == ts;
    assert Quantities(ts + [t]) == Quantities(ts) + [t.quantity];
    SumSnoc(Quantities(ts), t.quantity);
  }

  lemma {:induction false} PricesSnoc(ts: seq<Trade>, t: Trade)
    ensures Prices(ts + [t]) == Prices(ts) + [t.price]
  {
    assert (ts + [t])[..|ts|] == ts;
  }

  /** The console colour of a finalized candle: green when it closed at or
      above its open, red otherwise; bold when it moved by more than 0.1. */
  function CandleStyle(c: Candle): (s: Style)
    ensures s.colour == Green <==> c.close >= c.open
    ensures s.colour == Red <==> c.close < c.open
    ensures s.bold <==> (c.close - c.open > 0.1 || c.open - c.close > 0.1)
  {
    var change := c.close - c.open;
    Style(if change >= 0.0 then Green else Red, Abs(change) > 0.1)
  }

  /** A trade in the bucket's second extends it: same second throughout,
      its price appended, its quantity added. */
  lemma BucketJoin(bucket: seq<Trade>, t: Trade)
    requires bucket != [] && SameSecond(bucket) && SecondOf(t) == SecondOf(bucket[0])
    ensures (bucket + [t])[0] == bucket[0] && SameSecond(bucket + [t])
    ensures Prices(bucket + [t]) == Prices(bucket) + [t.price]
    ensures Volume(bucket + [t]) == Volume(bucket) + t.quantity
  {
    PricesSnoc(bucket, t);
    VolumeSnoc(bucket, t);
  }

  /** A bucket seeded by one trade. */
  lemma BucketSeed(t: Trade)
    ensures SameSecond([t]) && Prices([t]) == [t.price] && Volume([t]) == t.quantity
  {
    VolumeSnoc([], t);
    assert [] + [t] == [t];
  }

  /** The aggregator object of bitcoin-1s.py. `bucket` is the trades of
      the open bucket, oldest first; it exists only for the proof. */
  class OHLCVAggregator {
    var currentSecond: Option<int>
    var prices: seq<real>
    var volume: real
    ghost var bucket: seq<Trade>

    /** The fields describe the open bucket: its second, its prices in
        arrival order and its total quantity. With no trade yet they are
        the initial empty state. */
    ghost predicate Valid()
      reads this
    {
      (bucket == [] ==> currentSecond == None && prices == [] && volume == 0.0) &&
      (bucket != [] ==>
         currentSecond == Some(SecondOf(bucket[0])) &&
         SameSecond(bucket) &&
         prices == Prices(bucket) &&
         volume == Volume(bucket))
    }

    constructor ()
      ensures Valid() && bucket == []
      ensures currentSecond == None && prices == [] && volume == 0.0
    {
      currentSecond := None;
      prices := [];
      volume := 0.0;
      bucket := [];
    }

    /** The candle `_save_current_candle` would write now: none when no
        price has been collected, otherwise the open bucket's candle. */
    function CurrentCandle(): (c: Option<Candle>)
      reads this
      requires Valid()
      ensures c.None? <==> bucket == []
      ensures c.Some? ==> c.value == BucketCandle(bucket)
    {
      if prices == [] then None
      else Some(Candle(currentSecond.value, prices[0], SeqMax(prices), SeqMin(prices),
                       prices[|prices| - 1], volume))
    }

    /** `process_trade`: returns the candle finalized by this trade, if any.
        A trade in the current second is appended to the bucket; a trade in
        any other second, later or earlier, finalizes the open bucket (when
        there is one) and reseeds it with this trade alone. */
    method ProcessTrade(timestampMs: int, price: real, quantity: real) returns (emitted: Option<Candle>)
      requires Valid()
      modifies this
      ensures Valid()
      ensures old(currentSecond) == Some(TimestampSecond(timestampMs)) ==>
                currentSecond == old(currentSecond) &&
                prices == old(prices) + [price] &&
                volume == old(volume) + quantity &&
                bucket == old(bucket) + [Trade(timestampMs, price, quantity)] &&
                emitted == None
      ensures old(currentSecond) != Some(TimestampSecond(timestampMs)) ==>
                currentSecond == Some(TimestampSecond(timestampMs)) &&
                prices == [price] &&
                volume == quantity &&
                bucket == [Trade(timestampMs, price, quantity)] &&
                emitted == old(CurrentCandle())
      ensures prices != []
      ensures old(currentSecond).Some? && old(currentSecond) != Some(TimestampSecond(timestampMs)) ==>
                emitted == Some(BucketCandle(old(bucket)))
    {
      var t := Trade(timestampMs, price, quantity);
      var timestampS := TimestampSecond(timestampMs);
      emitted := None;
      if currentSecond != Some(timestampS) {
        if currentSecond.Some? {
          emitted := CurrentCandle();
        }
        currentSecond := Some(timestampS);
        prices := [price];
        volume := quantity;
        bucket := [t];
        BucketSeed(t);
      } else {
        BucketJoin(bucket, t);
        prices := prices + [price];
        volume := volume + quantity;
        bucket := bucket + [t];
      }
    }
  }

  /** Whether the aggregator's open bucket is the one the stream `ts` leaves
      open; then the next trade finalizes it exactly when the stream
      specification says it rolls over. */
  lemma BucketRollover(second: Option<int>, bucket: seq<Trade>, ts: seq<Trade>, t: Trade)
    requires bucket == OpenBucket(ts)
    requires bucket == [] ==> second == None
    requires bucket != [] ==> second == Some(SecondOf(bucket[0]))
    ensures RollsOver(ts, t) <==> second.Some? && second != Some(SecondOf(t))
  {
  }

  /** One message of the trade stream. A message lacking its trade time,
      price or quantity raises before the aggregator is touched, and so does
      a dropped connection; both lead to a reconnect. */
  datatype Message =
    | Message(tradeTime: Option<int>, price: Option<real>, quantity: Option<real>)
    | ConnectionLost

  function TradeOf(m: Message): (t: Option<Trade>)
    ensures t.Some? <==> m.Message? && m.tradeTime.Some? && m.price.Some? && m.quantity.Some?
    ensures t.Some? ==> t.value == Trade(m.tradeTime.value, m.price.value, m.quantity.value)
  {
    match m
    case Message(Some(time), Some(p), Some(q)) => Some(Trade(time, p, q))
    case _ => None
  }

  /** The trades the aggregator sees from a message stream. */
  function TradesOf(ms: seq<Message>): seq<Trade>
  {
    if ms == [] then []
    else
      var m := ms[|ms| - 1];
      TradesOf(ms[..|ms| - 1]) + (if TradeOf(m).Some? then [TradeOf(m).value] else [])
  }

  lemma {:induction false} TradesOfAppend(a: seq<Message>, b: seq<Message>)
    ensures TradesOf(a + b) == TradesOf(a) + TradesOf(b)
    decreases |b|
  {
    if b == [] {
      assert a + b == a;
    } else {
      var b' := b[..|b| - 1];
      assert (a + b)[..|a + b| - 1] == a + b';
      TradesOfAppend(a, b');
    }
  }

  /** The aggregator outlives a reconnect: a dropped connection or a broken
      message between two trades changes neither the emitted candles nor the
      open bucket. */
  lemma ReconnectContinuity(before: seq<Message>, after: seq<Message>, failure: Message)
    requires TradeOf(failure).None?
    ensures TradesOf(before + [failure] + after) == TradesOf(before + after)
    ensures Completed(TradesOf(before + [failure] + after)) == Completed(TradesOf(before + after))
  {
    TradesOfAppend(before + [failure], after);
    TradesOfAppend(before, [failure]);
    TradesOfAppend(before, after);
    assert TradesOf([failure]) == [] by {
      assert [failure][..0] == [];
    }
  }

  /** `collect_trades` over a finite prefix of the feed: one aggregator,
      created before the reconnect loop, receives every well-formed trade;
      the result is the candles finalized along the way. */
  method CollectTrades(messages: seq<Message>) returns (candles: seq<Candle>)
    ensures candles == Completed(TradesOf(messages))
  {
    var aggregator := new OHLCVAggregator();
    candles := [];
    for i := 0 to |messages|
      invariant aggregator.Valid()
      invariant aggregator.bucket == OpenBucket(TradesOf(messages[..i]))
      invariant candles == Completed(TradesOf(messages[..i]))
    {
      ghost var seen := TradesOf(messages[..i]);
      assert messages[..i + 1][..i] == messages[..i];
      var trade := TradeOf(messages[i]);
      if trade.Some? {
        var t := trade.value;
        assert TradesOf(messages[..i + 1]) == seen + [t];
        CompletedSnoc(seen, t);
        BucketRollover(aggregator.currentSecond, aggregator.bucket, seen, t);
        var emitted := aggregator.ProcessTrade(t.timestampMs, t.price, t.quantity);
        if emitted.Some? {
          candles := candles + [emitted.value];
        }
      } else {
        assert TradesOf(messages[..i + 1]) == seen;
      }
    }
    assert messages[..|messages|] == messages;
  }

  /** The worked example of a three-trade second: two trades in second S
      stay open; the third, 1050 ms after S began, finalizes S. */
  lemma ThreeTradeExample(t0: Trade, t1: Trade, t2: Trade)
    requires t0 == Trade(1700000000100, 50000.00, 0.01)
    requires t1 == Trade(1700000000400, 50010.00, 0.02)
    requires t2 == Trade(1700000001050, 50005.00, 0.05)
    ensures Completed([t0, t1]) == []
    ensures Completed([t0, t1, t2]) == [Candle(1700000000, 50000.00, 50010.00, 50000.00, 50010.00, 0.03)]
    ensures OpenBucket([t0, t1, t2]) == [t2]
  {
    ExampleSeconds(t0, t1, t2);
    TwoThenNext(t0, t1, t2);
    ExampleCandle(t0, t1);
  }

  /** Two trades of one second followed by a trade of another: the first
      two stay open, the third finalizes them and is left open alone. */
  lemma TwoThenNext(t0: Trade, t1: Trade, t2: Trade)
    requires SecondOf(t0) == SecondOf(t1) != SecondOf(t2)
    ensures Completed([t0, t1]) == [] && OpenBucket([t0, t1]) == [t0, t1]
    ensures Completed([t0, t1, t2]) == [BucketCandle([t0, t1])] && OpenBucket([t0, t1, t2]) == [t2]
  {
    var s1 := [t0];
    var s2 := s1 + [t1];
    OpenFirstTrade(t0);
    JoinBucket(s1, t1);
    RollBucket(s2, t2);
    assert s2 == [t0, t1] && s2 + [t2] == [t0, t1, t2];
  }

  /** The seconds of the example's trades. */
  lemma ExampleSeconds(t0: Trade, t1: Trade, t2: Trade)
    requires t0.timestampMs == 1700000000100 && t1.timestampMs == 1700000000400
    requires t2.timestampMs == 1700000001050
    ensures SecondOf(t0) == SecondOf(t1) == 1700000000 && SecondOf(t2) == 1700000001
  {
  }

  /** The candle of the example's first second, computed field by field. */
  lemma ExampleCandle(t0: Trade, t1: Trade)
    requires t0 == Trade(1700000000100, 50000.00, 0.01) && t1 == Trade(1700000000400, 50010.00, 0.02)
    ensures BucketCandle([t0, t1]) == Candle(1700000000, 50000.00, 50010.00, 50000.00, 50010.00, 0.03)
  {
    assert Prices([t0, t1]) == [50000.00, 50010.00];
    assert SeqMax([50000.00, 50010.00]) == 50010.00 by {
      assert [50000.00, 50010.00][..1] == [50000.00];
    }
    assert SeqMin([50000.00, 50010.00]) == 50000.00 by {
      assert [50000.00, 50010.00][..1] == [50000.00];
    }
    assert Volume([t0, t1]) == 0.03 by {
      VolumeSnoc([], t0);
      assert [] + [t0] == [t0];
      VolumeSnoc([t0], t1);
      assert [t0] + [t1] == [t0, t1];
    }
  }

  /** The first trade opens a bucket and emits nothing. */
  lemma OpenFirstTrade(t: Trade)
    ensures Completed([t]) == [] && OpenBucket([t]) == [t]
  {
    CompletedSnoc([], t);
    assert [] + [t] == [t];
  }

  /** A trade in the open bucket's second joins it. */
  lemma JoinBucket(ts: seq<Trade>, t: Trade)
    requires OpenBucket(ts) != [] && SecondOf(OpenBucket(ts)[0]) == SecondOf(t)
    ensures Completed(ts + [t]) == Completed(ts) && OpenBucket(ts + [t]) == OpenBucket(ts) + [t]
  {
    CompletedSnoc(ts, t);
  }

  /** A trade in any other second finalizes the open bucket. */
  lemma RollBucket(ts: seq<Trade>, t: Trade)
    requires OpenBucket(ts) != [] && SecondOf(OpenBucket(ts)[0]) != SecondOf(t)
    ensures Completed(ts + [t]) == Completed(ts) + [BucketCandle(OpenBucket(ts))]
    ensures OpenBucket(ts + [t]) == [t]
  {
    CompletedSnoc(ts, t);
  }

  /** A late trade is not discarded: while the bucket of second S + 1 is
      open, a trade stamped in an earlier second S finalizes it and opens a
      bucket for S, and a following trade in S + 1 finalizes that one and
      opens a second bucket for S + 1, which has been emitted already. */
  lemma LateTradeReopensSecond(ts: seq<Trade>, late: Trade, next: Trade)
    requires OpenBucket(ts) != []
    requires SecondOf(late) < SecondOf(OpenBucket(ts)[0]) == SecondOf(next)
    ensures Completed(ts + [late]) == Completed(ts) + [BucketCandle(OpenBucket(ts))]
    ensures OpenBucket(ts + [late]) == [late]
    ensures Completed(ts + [late] + [next]) ==
              Completed(ts) + [BucketCandle(OpenBucket(ts)), BucketCandle([late])]
    ensures OpenBucket(ts + [late] + [next]) == [next]
    ensures BucketCandle(OpenBucket(ts)).time == SecondOf(OpenBucket(ts + [late] + [next])[0])
  {
    RollBucket(ts, late);
    RollBucket(ts + [late], next);
    var a, b := BucketCandle(OpenBucket(ts)), BucketCandle([late]);
    assert Completed(ts + [late] + [next]) == Completed(ts) + [a] + [b];
    AppendTwo(Completed(ts), a, b);
  }

  /** Two candles for one second: after the late trade and the trade
      `next` that returns to the old second, any trade `after` in another
      second emits the reopened bucket, so the emitted candles hold the
      original bucket of that second and the reopened one, both stamped
      with `SecondOf(next)`. */
  lemma LateTradeDuplicatesSecond(ts: seq<Trade>, late: Trade, next: Trade, after: Trade)
    requires OpenBucket(ts) != []
    requires SecondOf(late) < SecondOf(OpenBucket(ts)[0]) == SecondOf(next)
    requires SecondOf(after) != SecondOf(next)
    ensures Completed(ts + [late] + [next] + [after]) ==
              Completed(ts) + [BucketCandle(OpenBucket(ts)), BucketCandle([late]), BucketCandle([next])]
    ensures BucketCandle(OpenBucket(ts)).time == SecondOf(next) && BucketCandle([next]).time == SecondOf(next)
  {
    var a, b, c := BucketCandle(OpenBucket(ts)), BucketCandle([late]), BucketCandle([next]);
    var u := ts + [late] + [next];
    LateTradeReopensSecond(ts, late, next);
    assert Completed(u) == Completed(ts) + [a, b] && OpenBucket(u) == [next];
    RollBucket(u, after);
    assert Completed(u + [after]) == Completed(ts) + [a, b] + [c];
    AppendThird(Completed(ts), a, b, c);
    assert a.time == SecondOf(next) && c.time == SecondOf(next);
  }

  lemma AppendThird(cs: seq<Candle>, a: Candle, b: Candle, c: Candle)
    ensures cs + [a, b] + [c] == cs + [a, b, c]
  {
  }

  lemma AppendTwo(cs: seq<Candle>, a: Candle, b: Candle)
    ensures cs + [a] + [b] == cs + [a, b]
  {
  }
}
