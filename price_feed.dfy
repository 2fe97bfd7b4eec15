/** The tick accumulator of price_feed.py. Every trade message folds its
    price and quantity into `current_tick` (open, high, low, close, volume)
    and is echoed to the console in a colour that compares it with the
    previous price; a separate periodic flush snapshots `current_tick` into a
    record and resets it. The two run as separate tasks on one object, so the
    model gives them as two methods that may be called in any order.

    The specification side is `Accumulated`: what `current_tick` holds after
    the fills received since the last reset, stated through their first and
    last price, their extremes and their total quantity. */
module PriceFeedModel {
  import opened Ohlc

  /** The price and quantity of one trade message. */
  datatype Fill = Fill(price: real, quantity: real)

  /** The `current_tick` dictionary; `None` stands for Python's None. */
  datatype TickState = TickState(open: Option<real>, high: Option<real>, low: Option<real>,
                                 close: Option<real>, volume: real)

  /** The state the feed starts in and every successful flush returns to. */
  const EmptyTick: TickState := TickState(None, None, None, None, 0.0)

  function Prices(fs: seq<Fill>): (ps: seq<real>)
    ensures |ps| == |fs|
    ensures forall i :: 0 <= i < |fs| ==> ps[i] == fs[i].price
  {
    if fs == [] then [] else Prices(fs[..|fs| - 1]) + [fs[|fs| - 1].price]
  }

  function Quantities(fs: seq<Fill>): (qs: seq<real>)
    ensures |qs| == |fs|
    ensures forall i :: 0 <= i < |fs| ==> qs[i] == fs[i].quantity
  {
    if fs == [] then [] else Quantities(fs[..|fs| - 1]) + [fs[|fs| - 1].quantity]
  }

  /** Total quantity of `fs`, added to the initial 0 one fill at a time. */
  function Volume(fs: seq<Fill>): real
  {
    Sum(Quantities(fs))
  }

  lemma {:induction false} VolumeSnoc(fs: seq<Fill>, f: Fill)
    ensures Volume(fs + [f]) == Volume(fs) + f.quantity
  {
    assert (fs + [f])[..|fs|] == fs;
    assert Quantities(fs + [f]) == Quantities(fs) + [f.quantity];
    SumSnoc(Quantities(fs), f.quantity);
  }

  /** Open, high, low and close are set together: all None or all present.
      `max` and `min` on a None high or low would raise. */
  predicate Seeded(t: TickState)
  {
    t.open.Some? == t.high.Some? == t.low.Some? == t.close.Some?
  }

  /** The update `process_trades` applies to `current_tick` for one fill:
      the first fill after a reset seeds open, high and low with its price;
      a later one keeps open, raises high with `max` and lowers low with
      `min`. Either way close becomes the price and the quantity is added to
      volume. */
  function Step(t: TickState, f: Fill): (r: TickState)
    requires Seeded(t)
    ensures Seeded(r) && r.open.Some?
    ensures r.close == Some(f.price) && r.volume == t.volume + f.quantity
    ensures r.low.value <= f.price <= r.high.value
    ensures t.open.Some? ==>
              r.open == t.open && r.low.value <= t.low.value && t.high.value <= r.high.value
  {
    var open := if t.open.None? then Some(f.price) else t.open;
    var high := if t.open.None? then Some(f.price) else Some(Max(t.high.value, f.price));
    var low := if t.open.None? then Some(f.price) else Some(Min(t.low.value, f.price));
    TickState(open, high, low, Some(f.price), t.volume + f.quantity)
  }

  /** What `current_tick` holds after the fills `fs` since the last reset:
      `Step` applied to each in turn, starting from `EmptyTick`. */
  function Accumulated(fs: seq<Fill>): (t: TickState)
    ensures Seeded(t)
    ensures t.open.None? <==> fs == []
  {
    if fs == [] then EmptyTick else Step(Accumulated(fs[..|fs| - 1]), fs[|fs| - 1])
  }

  /** The candle the fills `fs` describe, independently of the order they
      were folded in: first price, largest and smallest price, last price,
      total quantity. */
  function Summary(fs: seq<Fill>): TickState
  {
    if fs == [] then EmptyTick
    else
      var ps := Prices(fs);
      TickState(Some(ps[0]), Some(SeqMax(ps)), Some(SeqMin(ps)), Some(ps[|ps| - 1]), Volume(fs))
  }

  /** The summary of one more fill is one more `Step` on the summary. */
  lemma SummarySnoc(fs: seq<Fill>, f: Fill)
    ensures Summary(fs + [f]) == Step(Summary(fs), f)
  {
    VolumeSnoc(fs, f);
    assert (fs + [f])[..|fs|] == fs;
    assert Prices(fs + [f]) == Prices(fs) + [f.price];
    if fs != [] {
      SeqMaxSnoc(Prices(fs), f.price);
      SeqMinSnoc(Prices(fs), f.price);
    }
  }

  /** Folding `Step` over the fills yields their summary. */
  lemma {:induction false} AccumulatedIsSummary(fs: seq<Fill>)
    ensures Accumulated(fs) == Summary(fs)
  {
    if fs != [] {
      var init, f := fs[..|fs| - 1], fs[|fs| - 1];
      assert fs == init + [f];
      AccumulatedIsSummary(init);
      SummarySnoc(init, f);
    }
  }

  /** Once a fill has arrived every field is set; open and close are the
      first and last price, high and low are the largest and smallest price
      received, so both open and close lie between low and high, and volume
      is the total quantity since the last reset. */
  lemma AccumulatedMeaning(fs: seq<Fill>)
    requires fs != []
    ensures var t := Accumulated(fs);
            t.open == Some(fs[0].price) && t.close == Some(fs[|fs| - 1].price) &&
            t.high.Some? && t.low.Some? && t.volume == Volume(fs) &&
            (forall i :: 0 <= i < |fs| ==> t.low.value <= fs[i].price <= t.high.value) &&
            (exists i :: 0 <= i < |fs| && t.high.value == fs[i].price) &&
            (exists i :: 0 <= i < |fs| && t.low.value == fs[i].price) &&
            t.low.value <= t.open.value <= t.high.value &&
            t.low.value <= t.close.value <= t.high.value
  {
    AccumulatedIsSummary(fs);
    var ps := Prices(fs);
    var hi, lo := SeqMax(ps), SeqMin(ps);
    assert hi in ps && lo in ps;
    var a :| 0 <= a < |ps| && ps[a] == hi;
    var b :| 0 <= b < |ps| && ps[b] == lo;
    assert fs[a].price == hi && fs[b].price == lo;
  }

  /** One more fill is one more `Step`. */
  lemma AccumulateSnoc(fs: seq<Fill>, f: Fill)
    ensures Accumulated(fs + [f]) == Step(Accumulated(fs), f)
  {
    assert (fs + [f])[..|fs|] == fs;
  }

  /** The record a flush writes: none while nothing has been accumulated,
      otherwise the accumulated open, high, low, close and volume, stamped
      with the flush time. */
  function Snapshot(fs: seq<Fill>, now: int): (r: Option<Candle>)
    ensures r.None? <==> fs == []
    ensures r.Some? ==>
              r.value.time == now &&
              r.value.open == fs[0].price && r.value.close == fs[|fs| - 1].price &&
              r.value.volume == Volume(fs) &&
              (forall i :: 0 <= i < |fs| ==> r.value.low <= fs[i].price <= r.value.high) &&
              (exists i :: 0 <= i < |fs| && r.value.high == fs[i].price) &&
              (exists i :: 0 <= i < |fs| && r.value.low == fs[i].price) &&
              Ordered(r.value)
  {
    var t := Accumulated(fs);
    if t.open.None? then None
    else
      AccumulatedMeaning(fs);
      Some(Candle(now, t.open.value, t.high.value, t.low.value, t.close.value, t.volume))
  }

  /** `if self.last_price:` is false for None and for 0. */
  function Truthy(last: Option<real>): (b: bool)
    ensures !b <==> last == None || last == Some(0.0)
  {
    last.Some? && last.value != 0.0
  }

  /** `sub` occurs in `s` starting at index `i`. */
  predicate OccursAt(s: string, sub: string, i: int)
  {
    0 <= i <= |s| - |sub| && s[i..i + |sub|] == sub
  }

  /** Whether `sub` occurs in `s` at index `from` or later, searched
      left to right. */
  function OccursFrom(s: string, sub: string, from: nat): (b: bool)
    requires from <= |s|
    ensures b <==> exists i :: from <= i && OccursAt(s, sub, i)
    decreases |s| - from
  {
    if from + |sub| > |s| then false
    else if s[from..from + |sub|] == sub then assert OccursAt(s, sub, from); true
    else OccursFrom(s, sub, from + 1)
  }

  /** Python's `sub in s` on strings. */
  function HasSubstring(s: string, sub: string): (b: bool)
    ensures b <==> exists i :: OccursAt(s, sub, i)
  {
    OccursFrom(s, sub, 0)
  }

  /** A move counts as significant above 100 for a BTC pair and above 0.1
      for anything else. */
  function BoldThreshold(symbol: string): (r: real)
    ensures r == 100.0 <==> exists i :: OccursAt(symbol, "BTC", i)
    ensures r == 0.1 <==> !exists i :: OccursAt(symbol, "BTC", i)
  {
    if HasSubstring(symbol, "BTC") then 100.0 else 0.1
  }

  /** How a trade at `price` is echoed: white and plain when there is no
      truthy previous price; otherwise green on a rise, red on a fall, white
      when unchanged, and bold when the move exceeds the symbol's threshold. */
  function TickStyle(price: real, last: Option<real>, symbol: string): (s: Style)
    ensures !Truthy(last) ==> s == Style(White, false)
    ensures Truthy(last) ==>
              (s.colour == Green <==> price > last.value) &&
              (s.colour == Red <==> price < last.value) &&
              (s.colour == White <==> price == last.value) &&
              (s.bold <==> Abs(price - last.value) > BoldThreshold(symbol))
  {
    if Truthy(last) then
      var colour := if price > last.value then Green else if price < last.value then Red else White;
      Style(colour, Abs(price - last.value) > BoldThreshold(symbol))
    else Style(White, false)
  }

  /** Swapping the new and the previous price swaps green and red and keeps
      boldness: the classification depends only on the direction and size of
      the move. */
  lemma StyleSymmetric(a: real, b: real, symbol: string)
    requires a != 0.0 && b != 0.0
    ensures TickStyle(a, Some(b), symbol).colour == Green <==> TickStyle(b, Some(a), symbol).colour == Red
    ensures TickStyle(a, Some(b), symbol).bold == TickStyle(b, Some(a), symbol).bold
  {
    assert Abs(a - b) == Abs(b - a);
  }

  /** One message of the trade stream, or the connection failing. */
  datatype FeedMessage =
    | Message(price: Option<real>, quantity: Option<real>)
    | ConnectionLost

  /** What one message does: a message without a price is ignored; one with
      a price but no quantity raises before any state changes, as does a lost
      connection, and the feed reconnects; otherwise the trade is shown. */
  datatype Reaction = Ignored | Reconnect | Shown(style: Style)

  /** How the feed reacts to `m` when the previous price is `last`. */
  function ReactionTo(m: FeedMessage, last: Option<real>, symbol: string): (r: Reaction)
    ensures r.Shown? <==> IsTrade(m)
    ensures r == Ignored <==> m.Message? && m.price.None?
    ensures r.Shown? ==> r.style == TickStyle(m.price.value, last, symbol)
  {
    if m.ConnectionLost? then Reconnect
    else if m.price.None? then Ignored
    else if m.quantity.None? then Reconnect
    else Shown(TickStyle(m.price.value, last, symbol))
  }

  /** A message that carries both a price and a quantity. */
  predicate IsTrade(m: FeedMessage)
  {
    m.Message? && m.price.Some? && m.quantity.Some?
  }

  function FillOf(m: FeedMessage): (f: Option<Fill>)
    ensures f.Some? <==> IsTrade(m)
    ensures f.Some? ==> f.value == Fill(m.price.value, m.quantity.value)
  {
    if IsTrade(m) then Some(Fill(m.price.value, m.quantity.value)) else None
  }

  /** The fills a message stream contributes, in order. */
  function FillsOf(ms: seq<FeedMessage>): seq<Fill>
  {
    if ms == [] then []
    else
      var m := ms[|ms| - 1];
      FillsOf(ms[..|ms| - 1]) + (if FillOf(m).Some? then [FillOf(m).value] else [])
  }

  lemma FillsOfSnoc(ms: seq<FeedMessage>, m: FeedMessage)
    ensures FillsOf(ms + [m]) == if IsTrade(m) then FillsOf(ms) + [Fill(m.price.value, m.quantity.value)] else FillsOf(ms)
  {
    assert (ms + [m])[..|ms|] == ms;
  }

  lemma {:induction false} FillsOfAppend(a: seq<FeedMessage>, b: seq<FeedMessage>)
    ensures FillsOf(a + b) == FillsOf(a) + FillsOf(b)
    decreases |b|
  {
    if b == [] {
      assert a + b == a;
    } else {
      var b' := b[..|b| - 1];
      assert (a + b)[..|a + b| - 1] == a + b';
      FillsOfAppend(a, b');
    }
  }

  /** The reactions to `ms` in order, when the previous price before the
      stream is `last`: each message is judged against the price of the
      last trade before it. */
  function ReactionsTo(ms: seq<FeedMessage>, last: Option<real>, symbol: string): (rs: seq<Reaction>)
    ensures |rs| == |ms|
  {
    if ms == [] then []
    else
      var init := ms[..|ms| - 1];
      ReactionsTo(init, last, symbol) + [ReactionTo(ms[|ms| - 1], LastPriceAfter(last, FillsOf(init)), symbol)]
  }

  /** Message `i` is shown exactly when it is a trade, and its reaction is
      judged against the last price before it. */
  lemma {:induction false} ReactionsToMeaning(ms: seq<FeedMessage>, last: Option<real>, symbol: string)
    ensures forall i :: 0 <= i < |ms| ==>
              ReactionsTo(ms, last, symbol)[i] == ReactionTo(ms[i], LastPriceAfter(last, FillsOf(ms[..i])), symbol)
    ensures forall i :: 0 <= i < |ms| ==> (ReactionsTo(ms, last, symbol)[i].Shown? <==> FillOf(ms[i]).Some?)
  {
    if ms != [] {
      var init := ms[..|ms| - 1];
      ReactionsToMeaning(init, last, symbol);
      forall i | 0 <= i < |ms|
        ensures ReactionsTo(ms, last, symbol)[i] == ReactionTo(ms[i], LastPriceAfter(last, FillsOf(ms[..i])), symbol)
      {
        if i < |init| {
          assert ms[..i] == init[..i];
        }
      }
    }
  }

  /** Errors in the feed loop only log and sleep, so a lost connection or a
      message that raises between two trades leaves the accumulated fills as
      if it had not happened. */
  lemma ReconnectContinuity(before: seq<FeedMessage>, after: seq<FeedMessage>, failure: FeedMessage)
    requires FillOf(failure).None?
    ensures FillsOf(before + [failure] + after) == FillsOf(before + after)
  {
    FillsOfAppend(before + [failure], after);
    FillsOfAppend(before, [failure]);
    FillsOfAppend(before, after);
    assert FillsOf([failure]) == [] by {
      assert [failure][..0] == [];
    }
  }

  /** `last_price` after the fills `fs`: the last fill's price, or the old
      value when there was none. */
  function LastPriceAfter(last: Option<real>, fs: seq<Fill>): Option<real>
  {
    if fs == [] then last else Some(fs[|fs| - 1].price)
  }

  /** `PriceFeed`: the accumulator and the last price seen. `pending` is the
      fills since the last reset; it exists only for the proof. */
  class PriceFeed {
    const symbol: string
    var currentTick: TickState
    var lastPrice: Option<real>
    ghost var pending: seq<Fill>

    ghost predicate Valid()
      reads this
    {
      currentTick == Accumulated(pending)
    }

    constructor (symbol: string)
      ensures Valid() && this.symbol == symbol
      ensures pending == [] && currentTick == EmptyTick && lastPrice == None
    {
      this.symbol := symbol;
      currentTick := EmptyTick;
      lastPrice := None;
      pending := [];
    }

    /** The body of the receive loop in `process_trades` for one message. */
    method OnMessage(m: FeedMessage) returns (r: Reaction)
      requires Valid()
      modifies this
      ensures Valid()
      ensures !IsTrade(m) ==>
                currentTick == old(currentTick) && pending == old(pending) &&
                lastPrice == old(lastPrice) &&
                r == (if m.Message? && m.price.None? then Ignored else Reconnect)
      ensures IsTrade(m) ==>
                var f := Fill(m.price.value, m.quantity.value);
                pending == old(pending) + [f] &&
                currentTick == Step(old(currentTick), f) &&
                lastPrice == Some(f.price) &&
                r == Shown(TickStyle(f.price, old(lastPrice), symbol))
      ensures r == ReactionTo(m, old(lastPrice), symbol)
    {
      if m.ConnectionLost? {
        // the receive raised: log, sleep and reconnect
        r := Reconnect;
      } else if m.price.None? {
        r := Ignored;
      } else if m.quantity.None? {
        // `data['q']` raised before anything was updated
        r := Reconnect;
      } else {
        var price, volume := m.price.value, m.quantity.value;
        var open, high, low := currentTick.open, currentTick.high, currentTick.low;
        if open.None? {
          open, high, low := Some(price), Some(price), Some(price);
        } else {
          high, low := Some(Max(high.value, price)), Some(Min(low.value, price));
        }
        AccumulateSnoc(pending, Fill(price, volume));
        currentTick := TickState(open, high, low, Some(price), currentTick.volume + volume);
        r := Shown(TickStyle(price, lastPrice, symbol));
        lastPrice := Some(price);
        pending := pending + [Fill(price, volume)];
      }
    }

    /** `process_trades` over a finite prefix of the feed, reconnects
        included: every well-formed trade is accumulated, in order, and
        nothing else touches the state. */
    method ProcessTrades(messages: seq<FeedMessage>) returns (reactions: seq<Reaction>)
      requires Valid()
      modifies this
      ensures Valid()
      ensures pending == old(pending) + FillsOf(messages)
      ensures lastPrice == LastPriceAfter(old(lastPrice), FillsOf(messages))
      ensures reactions == ReactionsTo(messages, old(lastPrice), symbol)
      ensures |reactions| == |messages|
      ensures forall i :: 0 <= i < |messages| ==> (reactions[i].Shown? <==> FillOf(messages[i]).Some?)
      ensures forall i :: 0 <= i < |messages| ==>
                reactions[i] == ReactionTo(messages[i], LastPriceAfter(old(lastPrice), FillsOf(messages[..i])), symbol)
    {
      reactions := [];
      for i := 0 to |messages|
        invariant Valid()
        invariant pending == old(pending) + FillsOf(messages[..i])
        invariant lastPrice == LastPriceAfter(old(lastPrice), FillsOf(messages[..i]))
        invariant reactions == ReactionsTo(messages[..i], old(lastPrice), symbol)
      {
        var m := messages[i];
        assert messages[..i + 1] == messages[..i] + [m];
        assert messages[..i + 1][..i] == messages[..i];
        FillsOfSnoc(messages[..i], m);
        var r := OnMessage(m);
        reactions := reactions + [r];
      }
      assert messages[..|messages|] == messages;
      ReactionsToMeaning(messages, old(lastPrice), symbol);
    }

    /** One pass of the `save_ticks` loop at wall-clock time `now`. When
        nothing has been accumulated it does nothing; otherwise it hands the
        snapshot to the sinks and resets the accumulator, unless writing
        raised (`writeFails`), in which case the accumulator is kept and the
        next flush covers both periods. */
    method Flush(now: int, writeFails: bool) returns (record: Option<Candle>)
      requires Valid()
      modifies this
      ensures Valid()
      ensures record == Snapshot(old(pending), now)
      ensures lastPrice == old(lastPrice)
      ensures record.Some? ==>
                record.value == Candle(now, old(currentTick).open.value, old(currentTick).high.value,
                                       old(currentTick).low.value, old(currentTick).close.value,
                                       old(currentTick).volume)
      ensures record.Some? && !writeFails ==> pending == [] && currentTick == EmptyTick
      ensures record.None? || writeFails ==>
                pending == old(pending) && currentTick == old(currentTick)
    {
      record := None;
      if currentTick.open.Some? {
        record := Some(Candle(now, currentTick.open.value, currentTick.high.value,
                              currentTick.low.value, currentTick.close.value, currentTick.volume));
        if !writeFails {
          currentTick := EmptyTick;
          pending := [];
        }
      }
    }
  }

  /** A trade, a lost connection, a second trade and a flush, then a flush
      with nothing accumulated: the first record covers both trades, the
      second flush writes nothing. */
  method FlushAcrossReconnect()
  {
    var feed := new PriceFeed("BTCUSDT");
    var r := feed.OnMessage(Message(Some(50000.0), Some(0.01)));
    assert r == Shown(Style(White, false));
    r := feed.OnMessage(ConnectionLost);
    assert r == Reconnect;
    r := feed.OnMessage(Message(None, Some(1.0)));
    assert r == Ignored;
    r := feed.OnMessage(Message(Some(50200.0), Some(0.02)));
    assert r.style.colour == Green;
    var record := feed.Flush(10, false);
    assert record == Some(Candle(10, 50000.0, 50200.0, 50000.0, 50200.0, 0.03));
    record := feed.Flush(11, false);
    assert record == None;
  }
}
