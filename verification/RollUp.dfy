/** Timeframes that divide each other: closing together, and wide bars as merges of narrow ones. */
module RollUp {
  import opened Prelude
  import opened Calendar
  import opened Bars
  import opened Periods
  import opened BarStream

  /** The ordered merge of two adjacent candles. */
  function Merge(x: Candle, y: Candle): Candle {
    Candle(x.start, x.open, MaxReal(x.high, y.high), MinReal(x.low, y.low), y.close, x.volume + y.volume,
      x.count + y.count)
  }

  /** Resampling candles: a candle joins the last row when it falls into the same wide period. */
  function Absorb(rows: seq<Candle>, start: int, c: Candle): seq<Candle> {
    if rows != [] && Last(rows).start == start then Init(rows) + [Merge(Last(rows), c)]
    else rows + [c.(start := start)]
  }

  function Coarsen(start: int -> int, rows: seq<Candle>): seq<Candle> {
    if rows == [] then [] else Absorb(Coarsen(start, Init(rows)), start(Last(rows).start), Last(rows))
  }

  /** One tick as a candle, and a tick added to a candle. */
  function Single(start: int, t: Tick): Candle {
    Candle(start, t.Mid(), t.Mid(), t.Mid(), t.Mid(), t.volume, 1)
  }

  function Grow(c: Candle, t: Tick): Candle {
    Merge(c, Single(c.start, t))
  }

  function Rows(start: int -> int, ticks: seq<Tick>): seq<Candle> {
    RunsFilled(start, ticks);
    BatchCandles(Runs(start, ticks))
  }

  lemma BatchCandleGrows(start: int, ticks: seq<Tick>, t: Tick)
    requires ticks != []
    ensures BatchCandle(start, ticks + [t]) == Grow(BatchCandle(start, ticks), t)
  {
    assert Init(ticks + [t]) == ticks;
  }

  lemma BatchCandleOfOne(start: int, t: Tick)
    ensures BatchCandle(start, [t]) == Single(start, t)
  {
    assert Init([t]) == [] && SumVolume([t]) == SumVolume([]) + t.volume;
  }

  lemma RowsAppend(start: int -> int, p: seq<Tick>, t: Tick)
    ensures var rows, s := Rows(start, p), start(t.time);
            Rows(start, p + [t]) == if rows != [] && Last(rows).start == s then Init(rows) + [Grow(Last(rows), t)]
                                    else rows + [Single(s, t)]
  {
    RunsAppend(start, p, t);
    BatchCandleOfOne(start(t.time), t);
    var bins := Runs(start, p);
    if bins != [] {
      BatchCandleGrows(Last(bins).start, Last(bins).ticks, t);
    }
  }

  /** Rendering the wide timeframe from ticks is coarsening the rendered narrow timeframe. */
  lemma {:induction false} RowsCoarsen(narrow: int -> int, wide: int -> int, ticks: seq<Tick>)
    requires forall t :: wide(narrow(t)) == wide(t)
    ensures Rows(wide, ticks) == Coarsen(wide, Rows(narrow, ticks))
    decreases |ticks|
  {
    if ticks != [] {
      var t, p := Last(ticks), Init(ticks);
      assert ticks == p + [t];
      RowsCoarsen(narrow, wide, p);
      RowsAppend(narrow, p, t);
      RowsAppend(wide, p, t);
      CoarsenStep(wide, Rows(narrow, p), narrow(t.time), t, Rows(wide, p));
    }
  }

  lemma CoarsenStep(wide: int -> int, rows: seq<Candle>, s: int, t: Tick, coarse: seq<Candle>)
    requires coarse == Coarsen(wide, rows) && wide(s) == wide(t.time)
    requires coarse != [] <==> rows != []
    ensures var rows' :=
              if rows != [] && Last(rows).start == s then Init(rows) + [Grow(Last(rows), t)] else rows + [Single(s, t)];
            var c := wide(t.time);
            Coarsen(wide, rows') ==
              if coarse != [] && Last(coarse).start == c then Init(coarse) + [Grow(Last(coarse), t)]
                                    else coarse + [Single(c, t)]
  {
    if rows != [] && Last(rows).start == s {
      var x, grown := Last(rows), Init(rows) + [Grow(Last(rows), t)];
      assert Init(grown) == Init(rows);
      var before := Coarsen(wide, Init(rows));
      assert Coarsen(wide, grown) == Absorb(before, wide(s), Grow(x, t));
      assert coarse == Absorb(before, wide(s), x);
    } else {
      var longer := rows + [Single(s, t)];
      assert Init(longer) == rows;
    }
  }

  /** The current bar of a run starts at the bar start of the last tick. */
  lemma CurrentStart(tf: Timeframe, cap: nat, s: Series, ticks: seq<Tick>)
    requires ticks != []
    ensures var r := Run(tf, cap, s, ticks);
            r.current.Some? && r.current.value.candle.start == BarStart(Last(ticks).time, tf)
  {
  }

  /** On every tick, a close of the wide timeframe comes with a close of the narrow one. */
  lemma WideCloseImpliesNarrowClose(narrow: Timeframe, wide: Timeframe, cap: nat, a: seq<Bar>, b: seq<Bar>,
                                    ticks: seq<Tick>, t: Tick)
    requires wide.Minutes() % narrow.Minutes() == 0
    ensures Closes(Run(wide, cap, Series(b, None), ticks), wide, t) ==>
              Closes(Run(narrow, cap, Series(a, None), ticks), narrow, t)
  {
    if ticks != [] {
      CurrentStart(wide, cap, Series(b, None), ticks);
      CurrentStart(narrow, cap, Series(a, None), ticks);
      BarStartNests(t.time, narrow, wide);
      BarStartNests(Last(ticks).time, narrow, wide);
    }
  }

  /** The batch rows of the wide timeframe are the ordered merges of the narrow rows, for all prices. */
  lemma BatchRowsCoarsen(narrow: Timeframe, wide: Timeframe, ticks: seq<Tick>)
    requires wide.Minutes() % narrow.Minutes() == 0 && TimeSorted(ticks)
    ensures BatchRender(wide, ticks) == Coarsen(StartOf(wide), BatchRender(narrow, ticks))
  {
    forall t ensures StartOf(wide)(StartOf(narrow)(t)) == StartOf(wide)(t) {
      BarStartNests(t, narrow, wide);
    }
    RowsCoarsen(StartOf(narrow), StartOf(wide), ticks);
    ResampleAllIsRuns(narrow, ticks);
    ResampleAllIsRuns(wide, ticks);
  }
}
