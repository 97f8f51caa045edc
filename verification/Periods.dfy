/** Grouping a tick sequence into periods, as maximal runs (streaming) and as the bins of a resample (batch). */
module Periods {
  import opened Prelude
  import opened Division
  import opened Calendar
  import opened Bars

  /** One period with at least one tick: its start and its ticks in arrival order. */
  datatype Bin = Bin(start: int, ticks: seq<Tick>)

  /** The two clocks of a timeframe: the bar start of a moment and its bin counted from a midnight. */
  function StartOf(tf: Timeframe): int -> int {
    t => BarStart(t, tf)
  }

  function IndexOf(tf: Timeframe, origin: int): int -> int {
    t => BinIndex(t, origin, tf)
  }

  function LabelOf(tf: Timeframe, origin: int): int -> int {
    k => BinLabel(k, origin, tf)
  }

  /** No period is empty. */
  predicate Filled(bins: seq<Bin>) {
    forall i :: 0 <= i < |bins| ==> bins[i].ticks != []
  }

  /** Maximal runs of consecutive ticks that share a start. */
  function Runs(start: int -> int, ticks: seq<Tick>): (bins: seq<Bin>)
    ensures ticks == [] <==> bins == []
    ensures bins != [] ==> Last(bins).start == start(Last(ticks).time)
  {
    if ticks == [] then [] else Extend(Runs(start, Init(ticks)), start(Last(ticks).time), Last(ticks))
  }

  /** A tick joins the last period when it has the same start, and opens a new one otherwise. */
  function Extend(bins: seq<Bin>, start: int, t: Tick): seq<Bin> {
    if bins != [] && Last(bins).start == start then
      Init(bins) + [Bin(start, Last(bins).ticks + [t])]
    else
      bins + [Bin(start, [t])]
  }

  lemma ExtendOpens(bins: seq<Bin>, held: seq<Tick>, start: int, t: Tick)
    requires held == [] && (bins == [] || Last(bins).start != start)
    ensures Extend(bins, start, t) == bins + [Bin(start, held + [t])]
  {
    assert held + [t] == [t];
  }

  lemma ExtendJoins(bins: seq<Bin>, bin: Bin, t: Tick)
    ensures Extend(bins + [bin], bin.start, t) == bins + [Bin(bin.start, bin.ticks + [t])]
  {
    assert Init(bins + [bin]) == bins;
  }

  lemma {:induction false} RunsLast(start: int -> int, ticks: seq<Tick>)
    requires ticks != []
    ensures Runs(start, ticks) == Extend(Runs(start, Init(ticks)), start(Last(ticks).time), Last(ticks))
  {
  }

  lemma RunsAppend(start: int -> int, p: seq<Tick>, t: Tick)
    ensures Runs(start, p + [t]) == Extend(Runs(start, p), start(t.time), t)
  {
    assert Init(p + [t]) == p;
  }

  function InBin(index: int -> int, k: int, ticks: seq<Tick>): seq<Tick> {
    if ticks == [] then []
    else if index(Last(ticks).time) == k then InBin(index, k, Init(ticks)) + [Last(ticks)]
    else InBin(index, k, Init(ticks))
  }

  /** The bins `lo..hi` in ascending order, bins without ticks dropped. */
  function Resample(index: int -> int, mark: int -> int, lo: int, hi: int, ticks: seq<Tick>): (bins: seq<Bin>)
    decreases hi - lo
  {
    if hi < lo then []
    else
      var inBin := InBin(index, hi, ticks);
      if inBin == [] then Resample(index, mark, lo, hi - 1, ticks)
      else Resample(index, mark, lo, hi - 1, ticks) + [Bin(mark(hi), inBin)]
  }

  lemma {:induction false} RunsFilled(start: int -> int, ticks: seq<Tick>)
    ensures Filled(Runs(start, ticks))
  {
    if ticks != [] {
      RunsFilled(start, Init(ticks));
    }
  }

  lemma {:induction false} ResampleFilled(index: int -> int, mark: int -> int, lo: int, hi: int, ticks: seq<Tick>)
    ensures Filled(Resample(index, mark, lo, hi, ticks))
    decreases hi - lo
  {
    if lo <= hi {
      ResampleFilled(index, mark, lo, hi - 1, ticks);
    }
  }

  /** `resample(rule)` of a time-sorted frame: from the bin of the first row to the bin of the last one,
      counted from midnight of the first row's day. */
  function ResampleAll(tf: Timeframe, ticks: seq<Tick>): (bins: seq<Bin>)
    ensures Filled(bins)
  {
    if ticks == [] then []
    else
      var origin := Midnight(ticks[0].time);
      var index := IndexOf(tf, origin);
      ResampleFilled(index, LabelOf(tf, origin), index(ticks[0].time), index(Last(ticks).time), ticks);
      Resample(index, LabelOf(tf, origin), index(ticks[0].time), index(Last(ticks).time), ticks)
  }

  function BatchCandles(bins: seq<Bin>): (cs: seq<Candle>)
    requires Filled(bins)
    ensures |cs| == |bins|
  {
    seq(|bins|, i requires 0 <= i < |bins| => BatchCandle(bins[i].start, bins[i].ticks))
  }

  /** `VectorizedBarRenderer._render_single_timeframe` on a time-sorted frame. */
  function BatchRender(tf: Timeframe, ticks: seq<Tick>): seq<Candle> {
    BatchCandles(ResampleAll(tf, ticks))
  }

  // ---- the resample bins are the runs -----------------------------------------------------------

  /** Over these ticks, bins follow arrival order and starts identify bins by their label. */
  predicate Aligned(start: int -> int, index: int -> int, mark: int -> int, ticks: seq<Tick>) {
    && (forall i :: 0 <= i < |ticks| ==> mark(index(ticks[i].time)) == start(ticks[i].time))
    && (forall i, j :: 0 <= i < j < |ticks| ==>
          && index(ticks[i].time) <= index(ticks[j].time)
          && (index(ticks[i].time) < index(ticks[j].time) ==> start(ticks[i].time) < start(ticks[j].time)))
  }

  lemma TimeframeAligned(tf: Timeframe, first: int, ticks: seq<Tick>)
    requires TimeSorted(ticks)
    ensures Aligned(StartOf(tf), IndexOf(tf, Midnight(first)), LabelOf(tf, Midnight(first)), ticks)
  {
    var origin, w := Midnight(first), tf.Width();
    forall t ensures BinLabel(BinIndex(t, origin, tf), origin, tf) == BarStart(t, tf) {
      BinLabelIsBarStart(t, first, tf);
    }
    forall i, j | 0 <= i < j < |ticks|
      ensures && IndexOf(tf, origin)(ticks[i].time) <= IndexOf(tf, origin)(ticks[j].time)
              && (IndexOf(tf, origin)(ticks[i].time) < IndexOf(tf, origin)(ticks[j].time) ==>
                    StartOf(tf)(ticks[i].time) < StartOf(tf)(ticks[j].time))
    {
      BinOrder(tf, origin, ticks[i].time, ticks[j].time);
    }
  }

  lemma BinOrder(tf: Timeframe, origin: int, t: int, u: int)
    requires t <= u
    ensures BinIndex(t, origin, tf) <= BinIndex(u, origin, tf)
    ensures BinIndex(t, origin, tf) < BinIndex(u, origin, tf) ==>
              BinLabel(BinIndex(t, origin, tf), origin, tf) < BinLabel(BinIndex(u, origin, tf), origin, tf)
  {
    var w, j, k := tf.Width(), BinIndex(t, origin, tf), BinIndex(u, origin, tf);
    DivBounds(t - origin, w);
    DivBounds(u - origin, w);
    MulCancel(j, k, w);
    if j < k {
      MulMonotone(j + 1, k, w);
    }
  }

  predicate AllUpTo(index: int -> int, m: int, ticks: seq<Tick>) {
    forall i :: 0 <= i < |ticks| ==> index(ticks[i].time) <= m
  }

  lemma {:induction false} InBinEmptyAbove(index: int -> int, k: int, ticks: seq<Tick>)
    requires AllUpTo(index, k - 1, ticks)
    ensures InBin(index, k, ticks) == []
  {
    if ticks != [] {
      InBinEmptyAbove(index, k, Init(ticks));
    }
  }

  lemma {:induction false} ResampleSkips(index: int -> int, mark: int -> int, lo: int, hi: int, ticks: seq<Tick>)
    requires lo <= hi && InBin(index, hi, ticks) == []
    ensures Resample(index, mark, lo, hi, ticks) == Resample(index, mark, lo, hi - 1, ticks)
  {
  }

  lemma {:induction false} ResampleEmptyAbove(index: int -> int, mark: int -> int, lo: int, m: int, hi: int,
                                              ticks: seq<Tick>)
    requires lo <= m <= hi
    requires AllUpTo(index, m, ticks)
    ensures Resample(index, mark, lo, hi, ticks) == Resample(index, mark, lo, m, ticks)
    decreases hi - lo
  {
    if m < hi {
      InBinEmptyAbove(index, hi, ticks);
      ResampleSkips(index, mark, lo, hi, ticks);
      ResampleEmptyAbove(index, mark, lo, m, hi - 1, ticks);
    }
  }

  lemma {:induction false} ResampleBelowLast(index: int -> int, mark: int -> int, lo: int, hi: int, ticks: seq<Tick>)
    requires ticks != [] && index(Last(ticks).time) > hi
    ensures Resample(index, mark, lo, hi, ticks) == Resample(index, mark, lo, hi, Init(ticks))
    decreases hi - lo
  {
    if lo <= hi {
      ResampleBelowLast(index, mark, lo, hi - 1, ticks);
      assert InBin(index, hi, ticks) == InBin(index, hi, Init(ticks));
    }
  }

  /** The last tick falls into the last bin, after whatever that bin already held. */
  lemma {:induction false} ResampleLastBin(index: int -> int, mark: int -> int, lo: int, ticks: seq<Tick>)
    requires ticks != [] && lo <= index(Last(ticks).time)
    ensures var k := index(Last(ticks).time);
            Resample(index, mark, lo, k, ticks)
            == Resample(index, mark, lo, k - 1, Init(ticks))
              + [Bin(mark(k), InBin(index, k, Init(ticks)) + [Last(ticks)])]
  {
    var k := index(Last(ticks).time);
    ResampleBelowLast(index, mark, lo, k - 1, ticks);
    assert InBin(index, k, ticks) == InBin(index, k, Init(ticks)) + [Last(ticks)];
  }

  lemma {:induction false} InBinHasLast(index: int -> int, p: seq<Tick>)
    requires p != []
    ensures InBin(index, index(Last(p).time), p) != []
  {
  }

  lemma {:induction false} ResampleEndsIn(index: int -> int, mark: int -> int, lo: int, k: int, p: seq<Tick>)
    requires lo <= k && InBin(index, k, p) != []
    ensures Resample(index, mark, lo, k, p) == Resample(index, mark, lo, k - 1, p) + [Bin(mark(k), InBin(index, k, p))]
  {
  }

  /** The last tick belongs to the last bin already. */
  lemma {:induction false} ResampleJoins(runs: seq<Bin>, s: int, index: int -> int, mark: int -> int, lo: int,
                                         p: seq<Tick>, t: Tick)
    requires p != [] && lo <= index(Last(p).time) == index(t.time)
    requires mark(index(t.time)) == s
    requires Resample(index, mark, lo, index(t.time), p) == runs
    ensures var k := index(t.time);
            Resample(index, mark, lo, k - 1, p) + [Bin(mark(k), InBin(index, k, p) + [t])]
            == Extend(runs, s, t)
  {
    var k := index(t.time);
    InBinHasLast(index, p);
    ResampleEndsIn(index, mark, lo, k, p);
    ExtendJoins(Resample(index, mark, lo, k - 1, p), Bin(mark(k), InBin(index, k, p)), t);
  }

  lemma {:induction false} GapIsEmpty(index: int -> int, mark: int -> int, lo: int, j: int, k: int, p: seq<Tick>)
    requires lo <= j < k && AllUpTo(index, j, p)
    ensures Resample(index, mark, lo, k - 1, p) == Resample(index, mark, lo, j, p) && InBin(index, k, p) == []
  {
    InBinEmptyAbove(index, k, p);
    ResampleEmptyAbove(index, mark, lo, j, k - 1, p);
  }

  /** The last tick opens a later bin; the bins in between are empty. */
  lemma {:induction false} ResampleOpens(runs: seq<Bin>, s: int, index: int -> int, mark: int -> int, lo: int,
                                         p: seq<Tick>, t: Tick)
    requires p != [] && lo <= index(Last(p).time) < index(t.time)
    requires AllUpTo(index, index(Last(p).time), p)
    requires runs != [] && Last(runs).start != s == mark(index(t.time))
    requires Resample(index, mark, lo, index(Last(p).time), p) == runs
    ensures var k := index(t.time);
            Resample(index, mark, lo, k - 1, p) + [Bin(mark(k), InBin(index, k, p) + [t])]
            == Extend(runs, s, t)
  {
    var j, k := index(Last(p).time), index(t.time);
    GapIsEmpty(index, mark, lo, j, k, p);
    ExtendOpens(runs, InBin(index, k, p), s, t);
  }

  lemma AlignedPrefix(start: int -> int, index: int -> int, mark: int -> int, p: seq<Tick>, t: Tick)
    requires p != [] && Aligned(start, index, mark, p + [t])
    ensures Aligned(start, index, mark, p)
    ensures index(p[0].time) <= index(Last(p).time) <= index(t.time)
    ensures index(Last(p).time) < index(t.time) ==> start(Last(p).time) < start(t.time)
    ensures mark(index(t.time)) == start(t.time)
    ensures AllUpTo(index, index(Last(p).time), p)
  {
    var ticks := p + [t];
    assert forall i :: 0 <= i < |p| ==> ticks[i] == p[i];
    assert ticks[|p|] == t;
  }

  lemma {:induction false} ResampleOfOne(start: int -> int, index: int -> int, mark: int -> int, t: Tick)
    requires mark(index(t.time)) == start(t.time)
    ensures Resample(index, mark, index(t.time), index(t.time), [t]) == Runs(start, [t])
  {
    var k := index(t.time);
    assert Init([t]) == [];
    ResampleLastBin(index, mark, k, [t]);
    assert InBin(index, k, []) + [t] == [t];
    assert Resample(index, mark, k, k - 1, []) == [];
    RunsAppend(start, [], t);
    assert [] + [t] == [t];
  }

  /** One more tick does to the bins what it does to the runs. */
  lemma {:induction false} ResampleGrows(runs: seq<Bin>, s: int, index: int -> int, mark: int -> int, lo: int,
                                         p: seq<Tick>, t: Tick)
    requires p != [] && lo <= index(Last(p).time) <= index(t.time)
    requires AllUpTo(index, index(Last(p).time), p)
    requires index(Last(p).time) < index(t.time) ==> runs != [] && Last(runs).start != s
    requires mark(index(t.time)) == s
    requires Resample(index, mark, lo, index(Last(p).time), p) == runs
    ensures var k := index(t.time);
            Resample(index, mark, lo, k - 1, p) + [Bin(mark(k), InBin(index, k, p) + [t])]
            == Extend(runs, s, t)
  {
    if index(Last(p).time) < index(t.time) {
      ResampleOpens(runs, s, index, mark, lo, p, t);
    } else {
      ResampleJoins(runs, s, index, mark, lo, p, t);
    }
  }

  /** The step of the induction, with the runs of the prefix and of the whole named by the sequences they equal. */
  lemma {:induction false} ResampleAppend(index: int -> int, mark: int -> int, lo: int, ticks: seq<Tick>, k: int,
                                          next: seq<Bin>)
    requires ticks != [] && k == index(Last(ticks).time) && lo <= k
    requires Resample(index, mark, lo, k - 1, Init(ticks))
             + [Bin(mark(k), InBin(index, k, Init(ticks)) + [Last(ticks)])] == next
    ensures Resample(index, mark, lo, k, ticks) == next
  {
    ResampleLastBin(index, mark, lo, ticks);
  }

  lemma {:induction false} ResampleStep(runs: seq<Bin>, s: int, index: int -> int, mark: int -> int, lo: int,
                                        ticks: seq<Tick>,
                                        p: seq<Tick>, t: Tick, next: seq<Bin>)
    requires ticks != [] && p == Init(ticks) && t == Last(ticks)
    requires p != [] && lo <= index(Last(p).time) <= index(t.time)
    requires AllUpTo(index, index(Last(p).time), p)
    requires index(Last(p).time) < index(t.time) ==> runs != [] && Last(runs).start != s
    requires mark(index(t.time)) == s
    requires Resample(index, mark, lo, index(Last(p).time), p) == runs
    requires Extend(runs, s, t) == next
    ensures Resample(index, mark, lo, index(t.time), ticks) == next
  {
    ResampleGrows(runs, s, index, mark, lo, p, t);
    ResampleAppend(index, mark, lo, ticks, index(t.time), next);
  }

  /** Over aligned clocks a frame resamples to its runs: no period is split and none is invented for a gap. */
  lemma {:induction false} ResampleIsRuns(start: int -> int, index: int -> int, mark: int -> int, ticks: seq<Tick>)
    requires ticks != [] && Aligned(start, index, mark, ticks)
    ensures Resample(index, mark, index(ticks[0].time), index(Last(ticks).time), ticks) == Runs(start, ticks)
    decreases |ticks|
  {
    var t, p := Last(ticks), Init(ticks);
    assert ticks == p + [t];
    if p == [] {
      assert ticks == [t];
      ResampleOfOne(start, index, mark, t);
    } else {
      AlignedPrefix(start, index, mark, p, t);
      ResampleIsRuns(start, index, mark, p);
      RunsLast(start, ticks);
      ResampleStep(Runs(start, p), start(t.time), index, mark, index(p[0].time), ticks, p, t, Runs(start, ticks));
    }
  }

  /** The batch renderer's non-empty periods are the streaming renderer's. */
  lemma ResampleAllIsRuns(tf: Timeframe, ticks: seq<Tick>)
    requires TimeSorted(ticks)
    ensures ResampleAll(tf, ticks) == Runs(StartOf(tf), ticks)
  {
    if ticks != [] {
      var origin := Midnight(ticks[0].time);
      TimeframeAligned(tf, ticks[0].time, ticks);
      ResampleIsRuns(StartOf(tf), IndexOf(tf, origin), LabelOf(tf, origin), ticks);
    }
  }
}
