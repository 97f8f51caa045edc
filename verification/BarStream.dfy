/** The life of one (timeframe, symbol) series of the streaming renderer: its bounded history and its current bar.
    `Step` is what one tick does to it; the lemmas compare whole runs with the batch renderer. */
module BarStream {
  import opened Prelude
  import opened Calendar
  import opened Bars
  import opened Periods

  datatype Series = Series(history: seq<Bar>, current: Option<Bar>)

  const EMPTY: Series := Series([], None)

  /** The tick belongs to another period than the current bar. */
  predicate Closes(s: Series, tf: Timeframe, t: Tick) {
    s.current.Some? && s.current.value.candle.start != BarStart(t.time, tf)
  }

  function Archived(b: Bar): Bar {
    b.(isComplete := true)
  }

  /** The current bar after the tick; the time-based completion test is part of every update. */
  function Updated(s: Series, tf: Timeframe, t: Tick): Bar {
    var start := BarStart(t.time, tf);
    var base :=
      if s.current.None? || Closes(s, tf, t) then Bar(t.symbol, tf, FreshCandle(start), false) else s.current.value;
    base.(candle := UpdateWithTick(base.candle, t.Mid(), t.volume),
          isComplete := base.isComplete || t.time >= start + tf.Width())
  }

  /** One tick: close the old bar into the bounded history if its period ended, then update the current bar. */
  function Step(tf: Timeframe, cap: nat, s: Series, t: Tick): Series {
    Series(if Closes(s, tf, t) then LastN(cap, s.history + [Archived(s.current.value)]) else s.history,
           Some(Updated(s, tf, t)))
  }

  /** Warmup bars appended to the bounded history. */
  function WithWarmup(cap: nat, s: Series, bars: seq<Bar>): Series {
    s.(history := LastN(cap, s.history + bars))
  }

  function Run(tf: Timeframe, cap: nat, s: Series, ticks: seq<Tick>): Series {
    if ticks == [] then s else Step(tf, cap, Run(tf, cap, s, Init(ticks)), Last(ticks))
  }

  /** The bar of one period as the stream leaves it. */
  function StreamBar(symbol: string, tf: Timeframe, b: Bin, complete: bool): Bar {
    Bar(symbol, tf, StreamCandle(b.start, b.ticks), complete)
  }

  /** The bars of finished periods, in order. */
  function ClosedBars(symbol: string, tf: Timeframe, bins: seq<Bin>): (bars: seq<Bar>)
    ensures |bars| == |bins|
  {
    seq(|bins|, i requires 0 <= i < |bins| => StreamBar(symbol, tf, bins[i], true))
  }

  predicate OfSymbol(symbol: string, ticks: seq<Tick>) {
    forall i :: 0 <= i < |ticks| ==> ticks[i].symbol == symbol
  }

  /** A moment lies before the end of its own bar, so no update marks the current bar complete. */
  lemma UpdateLeavesOpen(s: Series, tf: Timeframe, t: Tick)
    requires s.current.Some? ==> !s.current.value.isComplete
    ensures !Updated(s, tf, t).isComplete
  {
    BarStartIsEpochFloor(t.time, tf);
  }

  /** What a run from `warm` with no current bar has produced after at least one tick. */
  ghost predicate Produced(symbol: string, tf: Timeframe, cap: nat, warm: seq<Bar>, bins: seq<Bin>, s: Series) {
    && bins != []
    && s.history == LastN(cap, warm + ClosedBars(symbol, tf, Init(bins)))
    && s.current == Some(StreamBar(symbol, tf, Last(bins), false))
  }

  lemma ProducedFirst(symbol: string, tf: Timeframe, cap: nat, warm: seq<Bar>, t: Tick)
    requires |warm| <= cap && t.symbol == symbol
    ensures Produced(symbol, tf, cap, warm, [Bin(BarStart(t.time, tf), [t])], Step(tf, cap, Series(warm, None), t))
  {
    var bin := Bin(BarStart(t.time, tf), [t]);
    UpdateLeavesOpen(Series(warm, None), tf, t);
    assert Init([t]) == [] && Init([bin]) == [];
    assert warm + ClosedBars(symbol, tf, []) == warm;
    assert StreamCandle(bin.start, [t]) == UpdateWithTick(StreamCandle(bin.start, []), t.Mid(), t.volume);
  }

  /** One more tick extends the last period or closes it into the history. */
  lemma ProducedNext(symbol: string, tf: Timeframe, cap: nat, warm: seq<Bar>, bins: seq<Bin>, s: Series, t: Tick)
    requires Produced(symbol, tf, cap, warm, bins, s) && t.symbol == symbol
    ensures Produced(symbol, tf, cap, warm, Extend(bins, BarStart(t.time, tf), t), Step(tf, cap, s, t))
  {
    UpdateLeavesOpen(s, tf, t);
    var start, last := BarStart(t.time, tf), Last(bins);
    StreamCandleStart(last.start, last.ticks);
    if last.start == start {
      var grown := last.ticks + [t];
      assert Init(grown) == last.ticks && Last(grown) == t;
      assert Init(Extend(bins, start, t)) == Init(bins);
    } else {
      ProducedClosing(symbol, tf, cap, warm, bins);
      assert Init([t]) == [];
      assert StreamCandle(start, [t]) == UpdateWithTick(StreamCandle(start, []), t.Mid(), t.volume);
      assert Init(Extend(bins, start, t)) == bins;
    }
  }

  lemma {:induction false} StreamCandleStart(start: int, ticks: seq<Tick>)
    ensures StreamCandle(start, ticks).start == start
  {
    if ticks != [] {
      StreamCandleStart(start, Init(ticks));
    }
  }

  lemma ProducedClosing(symbol: string, tf: Timeframe, cap: nat, warm: seq<Bar>, bins: seq<Bin>)
    requires bins != []
    ensures LastN(cap, LastN(cap, warm + ClosedBars(symbol, tf, Init(bins)))
            + [StreamBar(symbol, tf, Last(bins), true)])
         == LastN(cap, warm + ClosedBars(symbol, tf, bins))
  {
    var closed, next := ClosedBars(symbol, tf, Init(bins)), [StreamBar(symbol, tf, Last(bins), true)];
    LastNOfAppend(cap, warm + closed, next);
    assert warm + closed + next == warm + ClosedBars(symbol, tf, bins);
  }

  /** Every run: the history is the newest `cap` bars of the warmup followed by one bar per finished period,
      every one of them complete; the current bar is the last period's, never complete. */
  lemma {:induction false} RunProduces(symbol: string, tf: Timeframe, cap: nat, warm: seq<Bar>, ticks: seq<Tick>)
    requires |warm| <= cap && ticks != [] && OfSymbol(symbol, ticks)
    ensures Produced(symbol, tf, cap, warm, Runs(StartOf(tf), ticks), Run(tf, cap, Series(warm, None), ticks))
    decreases |ticks|
  {
    var t, p := Last(ticks), Init(ticks);
    RunsLast(StartOf(tf), ticks);
    if p == [] {
      ProducedFirst(symbol, tf, cap, warm, t);
    } else {
      RunProduces(symbol, tf, cap, warm, p);
      ProducedNext(symbol, tf, cap, warm, Runs(StartOf(tf), p), Run(tf, cap, Series(warm, None), p), t);
    }
  }

  function StreamCandles(bins: seq<Bin>): (cs: seq<Candle>)
    ensures |cs| == |bins|
  {
    seq(|bins|, i requires 0 <= i < |bins| => StreamCandle(bins[i].start, bins[i].ticks))
  }

  predicate NoZeroOpen(bins: seq<Bin>) {
    forall i :: 0 <= i < |bins| ==> !OpensAtZero(bins[i].ticks)
  }

  lemma StreamCandlesAreBatchCandles(bins: seq<Bin>)
    requires Filled(bins)
    ensures StreamCandles(bins) == BatchCandles(bins) <==> NoZeroOpen(bins)
  {
    forall i | 0 <= i < |bins|
      ensures StreamCandles(bins)[i] == BatchCandles(bins)[i] <==> !OpensAtZero(bins[i].ticks)
    {
      StreamCandleIsBatchCandle(bins[i].start, bins[i].ticks);
    }
  }

  /** The streaming renderer refines the batch renderer. For time-sorted ticks its bars are those of the batch
      periods: the newest `cap` of the warmup and all finished periods in the history, the last period in the
      current bar. The candles are the batch rows exactly when no period opens at a price of zero and then
      trades at another price. */
  lemma StreamRefinesBatch(symbol: string, tf: Timeframe, cap: nat, warm: seq<Bar>, ticks: seq<Tick>)
    requires |warm| <= cap && ticks != [] && OfSymbol(symbol, ticks) && TimeSorted(ticks)
    ensures var bins, s := ResampleAll(tf, ticks), Run(tf, cap, Series(warm, None), ticks);
            && Produced(symbol, tf, cap, warm, bins, s)
            && (StreamCandles(bins) == BatchRender(tf, ticks) <==> NoZeroOpen(bins))
  {
    ResampleAllIsRuns(tf, ticks);
    RunProduces(symbol, tf, cap, warm, ticks);
    StreamCandlesAreBatchCandles(ResampleAll(tf, ticks));
  }
}
