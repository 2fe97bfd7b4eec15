/** Vocabulary shared by the two OHLCV aggregators: optional values, the
    finalized candle, the order statistics a candle is made of, and the
    console colours the feeds print with. Prices and quantities are exact
    reals. */
module Ohlc {

  datatype Option<T> = None | Some(value: T)

  /** A finalized OHLCV record. `time` is the bucket key: the epoch second
      for the per-second aggregator, the flush instant for the price feed. */
  datatype Candle = Candle(time: int, open: real, high: real, low: real, close: real, volume: real)

  /** The bounds every candle must respect: low <= open, close <= high. */
  predicate Ordered(c: Candle)
  {
    c.low <= c.open <= c.high && c.low <= c.close <= c.high
  }

  datatype Colour = Green | Red | White

  /** How a line is printed: its colour and whether it is bold. */
  datatype Style = Style(colour: Colour, bold: bool)

  function Abs(x: real): (r: real)
    ensures r >= 0.0 && (r == x || r == -x)
  {
    if x < 0.0 then -x else x
  }

  /** Python's two-argument `max`: the first argument unless the second is
      larger. */
  function Max(a: real, b: real): (m: real)
    ensures m >= a && m >= b && (m == a || m == b)
  {
    if b > a then b else a
  }

  /** Python's two-argument `min`: the first argument unless the second is
      smaller. */
  function Min(a: real, b: real): (m: real)
    ensures m <= a && m <= b && (m == a || m == b)
  {
    if b < a then b else a
  }

  /** Python's `max` over a non-empty list. */
  function SeqMax(s: seq<real>): (m: real)
    requires |s| > 0
    ensures m in s
    ensures forall i :: 0 <= i < |s| ==> s[i] <= m
  {
    if |s| == 1 then s[0]
    else
      var m' := SeqMax(s[..|s| - 1]);
      assert m' in s[..|s| - 1];
      Max(m', s[|s| - 1])
  }

  /** Python's `min` over a non-empty list. */
  function SeqMin(s: seq<real>): (m: real)
    requires |s| > 0
    ensures m in s
    ensures forall i :: 0 <= i < |s| ==> m <= s[i]
  {
    if |s| == 1 then s[0]
    else
      var m' := SeqMin(s[..|s| - 1]);
      assert m' in s[..|s| - 1];
      Min(m', s[|s| - 1])
  }

  /** Sum of a sequence, accumulated left to right as `+=` does. */
  function Sum(s: seq<real>): real
  {
    if s == [] then 0.0 else Sum(s[..|s| - 1]) + s[|s| - 1]
  }

  /** Appending one element raises the maximum to it or leaves it. */
  lemma {:induction false} SeqMaxSnoc(s: seq<real>, x: real)
    requires |s| > 0
    ensures SeqMax(s + [x]) == Max(SeqMax(s), x)
  {
    assert (s + [x])[..|s|] == s;
  }

  /** Appending one element lowers the minimum to it or leaves it. */
  lemma {:induction false} SeqMinSnoc(s: seq<real>, x: real)
    requires |s| > 0
    ensures SeqMin(s + [x]) == Min(SeqMin(s), x)
  {
    assert (s + [x])[..|s|] == s;
  }

  lemma {:induction false} SumSnoc(s: seq<real>, x: real)
    ensures Sum(s + [x]) == Sum(s) + x
  {
    assert (s + [x])[..|s|] == s;
  }
}
