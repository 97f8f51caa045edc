/** Ticks, candles and the two ways the repository aggregates ticks into one candle:
    the tick-by-tick update of `Bar.update_with_tick` and the column aggregation of the batch renderer. */
module Bars {
  import opened Prelude
  import opened Calendar

  datatype Tick = Tick(symbol: string, time: int, bid: real, ask: real, volume: real) {
    function Mid(): real {
      (bid + ask) / 2.0
    }
  }

  /** The part of a bar that both renderers produce. */
  datatype Candle = Candle(start: int, open: real, high: real, low: real, close: real, volume: real, count: nat)

  datatype Bar = Bar(symbol: string, timeframe: Timeframe, candle: Candle, isComplete: bool)

  predicate TimeSorted(ticks: seq<Tick>) {
    forall i, j :: 0 <= i < j < |ticks| ==> ticks[i].time <= ticks[j].time
  }

  // ---- tick by tick -----------------------------------------------------------------------------

  function FreshCandle(start: int): Candle {
    Candle(start, 0.0, 0.0, 0.0, 0.0, 0.0, 0)
  }

  /** `Bar.update_with_tick`: an open of zero means "no price yet". */
  function UpdateWithTick(c: Candle, price: real, volume: real): Candle {
    if c.open == 0.0 then
      Candle(c.start, price, price, price, price, c.volume + volume, c.count + 1)
    else
      Candle(c.start, c.open, MaxReal(c.high, price), MinReal(c.low, price), price, c.volume + volume, c.count + 1)
  }

  function StreamCandle(start: int, ticks: seq<Tick>): Candle {
    if ticks == [] then FreshCandle(start)
    else UpdateWithTick(StreamCandle(start, Init(ticks)), Last(ticks).Mid(), Last(ticks).volume)
  }

  // ---- batch aggregation ------------------------------------------------------------------------

  function MaxMid(ticks: seq<Tick>): real
    requires ticks != []
  {
    if |ticks| == 1 then ticks[0].Mid() else MaxReal(MaxMid(Init(ticks)), Last(ticks).Mid())
  }

  function MinMid(ticks: seq<Tick>): real
    requires ticks != []
  {
    if |ticks| == 1 then ticks[0].Mid() else MinReal(MinMid(Init(ticks)), Last(ticks).Mid())
  }

  function SumVolume(ticks: seq<Tick>): real {
    if ticks == [] then 0.0 else SumVolume(Init(ticks)) + Last(ticks).volume
  }

  /** first / max / min / last of the mid price, the row count and the volume sum. */
  function BatchCandle(start: int, ticks: seq<Tick>): Candle
    requires ticks != []
  {
    Candle(start, ticks[0].Mid(), MaxMid(ticks), MinMid(ticks), Last(ticks).Mid(), SumVolume(ticks), |ticks|)
  }

  // ---- where the two aggregations agree ---------------------------------------------------------

  /** The number of ticks before the first non-zero mid price. */
  function LeadingZeros(ticks: seq<Tick>): (n: nat)
    ensures n <= |ticks|
    ensures forall i :: 0 <= i < n ==> ticks[i].Mid() == 0.0
    ensures n < |ticks| ==> ticks[n].Mid() != 0.0
  {
    if ticks == [] then 0
    else
      var n := LeadingZeros(Init(ticks));
      if n == |ticks| - 1 && Last(ticks).Mid() == 0.0 then |ticks| else n
  }

  /** The bar opens at a mid price of zero and trades at another price later. */
  predicate OpensAtZero(ticks: seq<Tick>) {
    && ticks != []
    && ticks[0].Mid() == 0.0
    && exists i :: 0 <= i < |ticks| && ticks[i].Mid() != 0.0
  }

  /** The streamed candle carries the prices of the ticks from the first non-zero mid on,
      and the close, volume and count of all of them. */
  lemma {:induction false} StreamCandleShape(start: int, ticks: seq<Tick>)
    requires ticks != []
    ensures var c, n := StreamCandle(start, ticks), LeadingZeros(ticks);
            && c.start == start && c.close == Last(ticks).Mid()
            && c.volume == SumVolume(ticks) && c.count == |ticks|
            && (n == |ticks| ==> c.open == c.high == c.low == 0.0)
            && (n < |ticks| ==> c.open == ticks[n].Mid() && c.high == MaxMid(ticks[n..]) && c.low == MinMid(ticks[n..]))
  {
    var n := LeadingZeros(ticks);
    if |ticks| > 1 {
      StreamCandleShape(start, Init(ticks));
      if n < |ticks| - 1 {
        assert Init(ticks[n..]) == Init(ticks)[n..];
      } else if n == |ticks| - 1 {
        assert ticks[n..] == [Last(ticks)];
      }
    } else {
      assert Init(ticks) == [];
      assert n == 0 ==> ticks[n..] == ticks;
    }
  }

  lemma {:induction false} AllZeroExtremes(ticks: seq<Tick>)
    requires ticks != [] && LeadingZeros(ticks) == |ticks|
    ensures MaxMid(ticks) == MinMid(ticks) == 0.0
  {
    if |ticks| > 1 {
      AllZeroExtremes(Init(ticks));
    }
  }

  /** Tick-by-tick and batch aggregation of the same ticks agree exactly when the bar does not open at a
      price of zero and move away from it; close, volume and count agree always. */
  lemma StreamCandleIsBatchCandle(start: int, ticks: seq<Tick>)
    requires ticks != []
    ensures StreamCandle(start, ticks) == BatchCandle(start, ticks) <==> !OpensAtZero(ticks)
    ensures var c, b := StreamCandle(start, ticks), BatchCandle(start, ticks);
            c.start == b.start && c.close == b.close && c.volume == b.volume && c.count == b.count
  {
    StreamCandleShape(start, ticks);
    var n := LeadingZeros(ticks);
    if n == 0 {
      assert ticks[n..] == ticks;
    } else if n == |ticks| {
      AllZeroExtremes(ticks);
    } else {
      assert ticks[n].Mid() != 0.0;
    }
  }

  // ---- prices and quotes --------------------------------------------------------------------------

  /** A price as far above the tick's bid as below its ask. */
  predicate Midway(price: real, t: Tick) {
    price - t.bid == t.ask - price
  }

  /** No tick is quoted higher or lower in the middle than the two prices, and each is the middle of some tick. */
  predicate Spans(low: real, high: real, ticks: seq<Tick>) {
    && (forall i :: 0 <= i < |ticks| ==> 2.0 * low <= ticks[i].bid + ticks[i].ask <= 2.0 * high)
    && (exists i :: 0 <= i < |ticks| && Midway(low, ticks[i]))
    && (exists i :: 0 <= i < |ticks| && Midway(high, ticks[i]))
  }

  lemma {:induction false} ExtremesSpan(ticks: seq<Tick>)
    requires ticks != []
    ensures Spans(MinMid(ticks), MaxMid(ticks), ticks)
  {
    if |ticks| == 1 {
      assert Midway(MinMid(ticks), ticks[0]) && Midway(MaxMid(ticks), ticks[0]);
    } else {
      var p, t := Init(ticks), ticks[|ticks| - 1];
      ExtremesSpan(p);
      var i :| 0 <= i < |p| && Midway(MinMid(p), p[i]);
      var j :| 0 <= j < |p| && Midway(MaxMid(p), p[j]);
      assert ticks[i] == p[i] && ticks[j] == p[j];
      assert Midway(MinMid(ticks), ticks[i]) || Midway(MinMid(ticks), t);
      assert Midway(MaxMid(ticks), ticks[j]) || Midway(MaxMid(ticks), t);
      SpansMore(MinMid(p), MaxMid(p), p, t, MinMid(ticks), MaxMid(ticks), ticks);
    }
  }

  lemma SpansMore(low: real, high: real, p: seq<Tick>, t: Tick, low': real, high': real, ticks: seq<Tick>)
    requires Spans(low, high, p) && ticks == p + [t] && low' <= low && high <= high'
    requires 2.0 * low' <= t.bid + t.ask <= 2.0 * high'
    ensures forall i :: 0 <= i < |ticks| ==> 2.0 * low' <= ticks[i].bid + ticks[i].ask <= 2.0 * high'
  {
  }

  /** The batch row in terms of the quotes: it opens midway between bid and ask of the first tick, closes midway between
      those of the last, and spans the middles of all. */
  lemma BatchCandleIsQuoted(start: int, ticks: seq<Tick>)
    requires ticks != []
    ensures var b := BatchCandle(start, ticks);
            Midway(b.open, ticks[0]) && Midway(b.close, Last(ticks)) && Spans(b.low, b.high, ticks)
  {
    ExtremesSpan(ticks);
  }

  /** The streamed candle likewise, from the first tick on whose quotes do not cancel out; before there is one, its
      prices are zero. */
  lemma {:induction false} StreamCandleIsQuoted(start: int, ticks: seq<Tick>, n: nat)
    requires n < |ticks| && ticks[n].bid + ticks[n].ask != 0.0
    requires forall i :: 0 <= i < n ==> ticks[i].bid + ticks[i].ask == 0.0
    ensures var c := StreamCandle(start, ticks);
            && Midway(c.open, ticks[n]) && Midway(c.close, Last(ticks)) && Spans(c.low, c.high, ticks[n..])
  {
    StreamCandleShape(start, ticks);
    var m := LeadingZeros(ticks);
    assert !(m < n) && !(n < m);
    ExtremesSpan(ticks[n..]);
  }

  lemma {:induction false} VolumesAddUp(a: seq<Tick>, b: seq<Tick>)
    ensures SumVolume(a + b) == SumVolume(a) + SumVolume(b)
  {
    if b == [] {
      assert a + b == a;
    } else {
      VolumesAddUp(a, Init(b));
      assert Init(a + b) == a + Init(b);
    }
  }

  /** The volume of a bar is what its ticks bring, each once: a tick anywhere in the bar raises it by its own volume. */
  lemma {:induction false} CandleVolume(start: int, a: seq<Tick>, t: Tick, b: seq<Tick>)
    ensures var with, without := StreamCandle(start, a + [t] + b), StreamCandle(start, a + b);
            with.volume == without.volume + t.volume && with.count == without.count + 1
  {
    StreamTotal(start, a + [t] + b);
    StreamTotal(start, a + b);
    VolumesAddUp(a + [t], b);
    VolumesAddUp(a, [t]);
    VolumesAddUp(a, b);
    assert Init([t]) == [];
  }

  lemma {:induction false} StreamTotal(start: int, ticks: seq<Tick>)
    ensures var c := StreamCandle(start, ticks); c.volume == SumVolume(ticks) && c.count == |ticks|
  {
    if ticks != [] {
      StreamCandleShape(start, ticks);
    }
  }

  // ---- where they differ --------------------------------------------------------------------------

  /** A quote of 0 and one of 5 in the same bar: the streamed bar opens at 5, the batch row at 0. */
  lemma {:induction false} ZeroOpenCounterexample(ticks: seq<Tick>)
    requires ticks == [Tick("X", 0, 0.0, 0.0, 1.0), Tick("X", 1, 5.0, 5.0, 1.0)]
    ensures StreamCandle(0, ticks) != BatchCandle(0, ticks)
  {
    assert ticks[0].Mid() == 0.0 && ticks[1].Mid() != 0.0;
    StreamCandleIsBatchCandle(0, ticks);
  }
}
