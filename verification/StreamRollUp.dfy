/** When the streamed bars of a wide timeframe are the merges of the streamed bars of a narrow one. */
module StreamRollUp {
  import opened Prelude
  import opened Calendar
  import opened Bars
  import opened Periods
  import opened BarStream
  import opened RollUp

  // ---- one more tick sequence into a streamed candle ---------------------------------------------

  predicate AllZero(ticks: seq<Tick>) {
    forall i :: 0 <= i < |ticks| ==> ticks[i].Mid() == 0.0
  }

  lemma AllZeroIs(ticks: seq<Tick>)
    ensures AllZero(ticks) <==> LeadingZeros(ticks) == |ticks|
  {
  }

  /** The ticks whose prices a streamed candle carries: from the first non-zero mid on, or all if there is none. */
  function Counted(ticks: seq<Tick>): (r: seq<Tick>)
    ensures ticks != [] ==> r != []
  {
    if LeadingZeros(ticks) == |ticks| then ticks else ticks[LeadingZeros(ticks)..]
  }

  lemma {:induction false} StreamPrices(start: int, ticks: seq<Tick>)
    requires ticks != []
    ensures var c := StreamCandle(start, ticks);
            && c.open == Counted(ticks)[0].Mid() && c.high == MaxMid(Counted(ticks)) && c.low == MinMid(Counted(ticks))
            && (c.open == 0.0 <==> AllZero(ticks))
  {
    StreamCandleShape(start, ticks);
    AllZeroIs(ticks);
    if AllZero(ticks) {
      AllZeroExtremes(ticks);
    }
  }

  lemma {:induction false} StreamAppend(start: int, a: seq<Tick>, t: Tick)
    ensures StreamCandle(start, a + [t]) == UpdateWithTick(StreamCandle(start, a), t.Mid(), t.volume)
  {
    assert Init(a + [t]) == a;
  }

  /** Once a candle has a price, more ticks extend it by all their prices. */
  lemma {:induction false} StreamContinues(start: int, a: seq<Tick>, b: seq<Tick>)
    requires b != [] && StreamCandle(start, a).open != 0.0
    ensures var x, y := StreamCandle(start, a), StreamCandle(start, a + b);
            y.open == x.open && y.high == MaxReal(x.high, MaxMid(b)) && y.low == MinReal(x.low, MinMid(b))
  {
    var p, t := Init(b), Last(b);
    assert a + b == (a + p) + [t];
    StreamAppend(start, a + p, t);
    if p == [] {
      assert a + p == a && b == [t];
    } else {
      StreamContinues(start, a, p);
    }
  }

  /** Close, volume and count never depend on where the ticks are split. */
  lemma {:induction false} StreamTotals(start: int, other: int, a: seq<Tick>, b: seq<Tick>)
    requires b != []
    ensures var x, y, z := StreamCandle(start, a), StreamCandle(other, b), StreamCandle(start, a + b);
            z.start == x.start && z.close == y.close && z.volume == x.volume + y.volume && z.count == x.count + y.count
  {
    var p, t := Init(b), Last(b);
    assert a + b == (a + p) + [t] && p + [t] == b;
    StreamAppend(start, a + p, t);
    StreamAppend(other, p, t);
    if p == [] {
      assert a + p == a;
    } else {
      StreamTotals(start, other, a, p);
    }
  }

  /** A bar that opens at zero and moves: its leading zeros do not count in its own candle. */
  lemma {:induction false} ExtremesWithZero(ticks: seq<Tick>)
    requires ticks != []
    ensures var c := Counted(ticks);
            if OpensAtZero(ticks) then
              MaxMid(ticks) == MaxReal(MaxMid(c), 0.0) && MinMid(ticks) == MinReal(MinMid(c), 0.0)
            else MaxMid(ticks) == MaxMid(c) && MinMid(ticks) == MinMid(c)
  {
    AllZeroIs(ticks);
    var n := LeadingZeros(ticks);
    if n == 0 {
      assert ticks[n..] == ticks;
    } else if n < |ticks| {
      assert ticks[n].Mid() != 0.0;
      var zeros, c := ticks[..n], ticks[n..];
      assert zeros + c == ticks;
      ExtremesConcat(zeros, c);
      AllZeroIs(zeros);
      AllZeroExtremes(zeros);
    }
  }

  lemma {:induction false} ExtremesConcat(a: seq<Tick>, b: seq<Tick>)
    requires a != [] && b != []
    ensures MaxMid(a + b) == MaxReal(MaxMid(a), MaxMid(b)) && MinMid(a + b) == MinReal(MinMid(a), MinMid(b))
  {
    var p, t := Init(b), Last(b);
    assert Init(a + b) == a + p && Last(a + b) == t;
    if p == [] {
      assert a + p == a;
    } else {
      ExtremesConcat(a, p);
    }
  }

  // ---- one wide bar -------------------------------------------------------------------------------

  function Flat(parts: seq<Bin>): seq<Tick> {
    if parts == [] then [] else Flat(Init(parts)) + Last(parts).ticks
  }

  function PartCandle(b: Bin): Candle {
    StreamCandle(b.start, b.ticks)
  }

  /** The ordered merge of the streamed candles of the parts. */
  function MergeParts(start: int, parts: seq<Bin>): Candle
    requires parts != []
  {
    if |parts| == 1 then PartCandle(parts[0]).(start := start)
      else Merge(MergeParts(start, Init(parts)), PartCandle(Last(parts)))
  }

  predicate NoPrice(parts: seq<Bin>) {
    forall i :: 0 <= i < |parts| ==> AllZero(parts[i].ticks)
  }

  /** A part after the first opens at zero and moves, so its own candle skips a price of zero. */
  predicate Skips(parts: seq<Bin>) {
    exists i :: 1 <= i < |parts| && OpensAtZero(parts[i].ticks)
  }

  /** Some counted price is at most zero, and some is at least zero. */
  predicate SpansZero(parts: seq<Bin>)
    requires Filled(parts)
  {
    SomeLow(parts) && SomeHigh(parts)
  }

  predicate SomeLow(parts: seq<Bin>)
    requires Filled(parts)
  {
    parts != [] && (SomeLow(Init(parts)) || MinMid(Counted(Last(parts).ticks)) <= 0.0)
  }

  predicate SomeHigh(parts: seq<Bin>)
    requires Filled(parts)
  {
    parts != [] && (SomeHigh(Init(parts)) || MaxMid(Counted(Last(parts).ticks)) >= 0.0)
  }

  /** The first part has a price or none has, and a skipped zero lies within the counted prices anyway. */
  predicate MergesExactly(parts: seq<Bin>)
    requires Filled(parts) && parts != []
  {
    && (AllZero(parts[0].ticks) ==> NoPrice(parts))
    && (Skips(parts) ==> SpansZero(parts))
  }

  lemma {:induction false} FlatAppend(p: seq<Bin>, b: Bin)
    ensures Flat(p + [b]) == Flat(p) + b.ticks
  {
    assert Init(p + [b]) == p;
  }

  lemma {:induction false} FlatZero(parts: seq<Bin>)
    ensures AllZero(Flat(parts)) <==> NoPrice(parts)
  {
    if parts != [] {
      var p, b := Init(parts), Last(parts);
      FlatZero(p);
      AllZeroConcat(Flat(p), b.ticks);
      assert forall i :: 0 <= i < |p| ==> parts[i] == p[i];
    }
  }

  lemma AllZeroConcat(a: seq<Tick>, b: seq<Tick>)
    ensures AllZero(a + b) <==> AllZero(a) && AllZero(b)
  {
    var c := a + b;
    assert forall i :: 0 <= i < |a| ==> c[i] == a[i];
    assert forall i :: 0 <= i < |b| ==> c[|a| + i] == b[i];
  }

  lemma {:induction false} FlatNonEmpty(parts: seq<Bin>)
    requires Filled(parts) && parts != []
    ensures Flat(parts) != []
  {
  }

  lemma {:induction false} MergeTotals(start: int, parts: seq<Bin>)
    requires Filled(parts) && parts != []
    ensures var m, w := MergeParts(start, parts), StreamCandle(start, Flat(parts));
            m.start == w.start && m.close == w.close && m.volume == w.volume && m.count == w.count
    ensures MergeParts(start, parts).open == PartCandle(parts[0]).open
  {
    var p, b := Init(parts), Last(parts);
    StreamTotals(start, b.start, Flat(p), b.ticks);
    StreamCandleStart(start, Flat(parts));
    if p != [] {
      MergeTotals(start, p);
    } else {
      assert Flat(p) == [];
    }
  }

  lemma SkipsStep(p: seq<Bin>, b: Bin)
    requires p != []
    ensures Skips(p + [b]) <==> Skips(p) || OpensAtZero(b.ticks)
  {
    var parts := p + [b];
    assert parts[|p|] == b && forall i :: 0 <= i < |p| ==> parts[i] == p[i];
  }

  lemma {:induction false} PartExtremes(b: Bin)
    requires b.ticks != []
    ensures var c, zero := PartCandle(b), OpensAtZero(b.ticks);
            && MaxMid(b.ticks) == (if zero then MaxReal(c.high, 0.0) else c.high)
            && MinMid(b.ticks) == (if zero then MinReal(c.low, 0.0) else c.low)
  {
    StreamPrices(b.start, b.ticks);
    ExtremesWithZero(b.ticks);
  }

  /** With a price in the first part, the wide candle is the merged one, widened to zero if a part skips a zero. */
  lemma {:induction false} MergePrices(start: int, parts: seq<Bin>)
    requires Filled(parts) && parts != [] && !AllZero(parts[0].ticks)
    ensures var m, w := MergeParts(start, parts), StreamCandle(start, Flat(parts));
            && w.open == m.open != 0.0
            && w.high == (if Skips(parts) then MaxReal(m.high, 0.0) else m.high)
            && w.low == (if Skips(parts) then MinReal(m.low, 0.0) else m.low)
  {
    var p, b := Init(parts), Last(parts);
    if p == [] {
      assert Flat(p) == [] && Flat(parts) == b.ticks;
      StreamPrices(b.start, b.ticks);
      StreamPrices(start, b.ticks);
    } else {
      MergePrices(start, p);
      StreamContinues(start, Flat(p), b.ticks);
      PartExtremes(b);
      assert parts == p + [b];
      SkipsStep(p, b);
    }
  }

  lemma {:induction false} MergeOfZeros(start: int, parts: seq<Bin>)
    requires Filled(parts) && parts != [] && NoPrice(parts)
    ensures var m := MergeParts(start, parts); m.open == m.high == m.low == 0.0
  {
    var b := Last(parts);
    StreamPrices(b.start, b.ticks);
    AllZeroIs(b.ticks);
    AllZeroExtremes(b.ticks);
    if |parts| > 1 {
      MergeOfZeros(start, Init(parts));
    }
  }

  lemma {:induction false} MergedSpans(start: int, parts: seq<Bin>)
    requires Filled(parts) && parts != []
    ensures MergeParts(start, parts).low <= 0.0 <==> SomeLow(parts)
    ensures MergeParts(start, parts).high >= 0.0 <==> SomeHigh(parts)
  {
    var p, b := Init(parts), Last(parts);
    StreamPrices(b.start, b.ticks);
    if p != [] {
      MergedSpans(start, p);
    }
  }

  /** One wide bar is the merge of its narrow bars exactly under the condition on their ticks. */
  lemma {:induction false} WideBarMergesExactly(start: int, parts: seq<Bin>)
    requires Filled(parts) && parts != []
    ensures StreamCandle(start, Flat(parts)) == MergeParts(start, parts) <==> MergesExactly(parts)
  {
    MergeTotals(start, parts);
    FlatZero(parts);
    FlatNonEmpty(parts);
    StreamPrices(start, Flat(parts));
    StreamPrices(parts[0].start, parts[0].ticks);
    if !AllZero(parts[0].ticks) {
      MergePrices(start, parts);
      MergedSpans(start, parts);
    } else if NoPrice(parts) {
      MergeOfZeros(start, parts);
      StreamCandleShape(start, Flat(parts));
      AllZeroIs(Flat(parts));
    }
  }

  // ---- all bars of a run --------------------------------------------------------------------------

  /** The narrow bars of one wide bar. */
  datatype Cluster = Cluster(start: int, parts: seq<Bin>)

  function AddPart(cs: seq<Cluster>, start: int, b: Bin): seq<Cluster> {
    if cs != [] && Last(cs).start == start then Init(cs) + [Cluster(start, Last(cs).parts + [b])]
    else cs + [Cluster(start, [b])]
  }

  function Clusters(wide: int -> int, bins: seq<Bin>): seq<Cluster> {
    if bins == [] then [] else AddPart(Clusters(wide, Init(bins)), wide(Last(bins).start), Last(bins))
  }

  predicate Sound(cs: seq<Cluster>) {
    forall i :: 0 <= i < |cs| ==> cs[i].parts != [] && Filled(cs[i].parts)
  }

  lemma {:induction false} AddPartSound(cs: seq<Cluster>, start: int, b: Bin)
    requires Sound(cs) && b.ticks != []
    ensures Sound(AddPart(cs, start, b)) && AddPart(cs, start, b) != []
  {
    if cs != [] && Last(cs).start == start {
      var parts := Last(cs).parts;
      assert Filled(parts + [b]);
      assert forall i :: 0 <= i < |cs| - 1 ==> Init(cs)[i] == cs[i];
    } else {
      assert Filled([b]);
    }
  }

  lemma {:induction false} ClustersSound(wide: int -> int, bins: seq<Bin>)
    requires Filled(bins)
    ensures Sound(Clusters(wide, bins)) && (bins != [] ==> Clusters(wide, bins) != [])
  {
    if bins != [] {
      ClustersSound(wide, Init(bins));
      AddPartSound(Clusters(wide, Init(bins)), wide(Last(bins).start), Last(bins));
    }
  }

  function Merges(cs: seq<Cluster>): (rows: seq<Candle>)
    requires Sound(cs)
    ensures |rows| == |cs| && forall i :: 0 <= i < |cs| ==> rows[i] == MergeParts(cs[i].start, cs[i].parts)
  {
    seq(|cs|, i requires 0 <= i < |cs| => MergeParts(cs[i].start, cs[i].parts))
  }

  function Wholes(cs: seq<Cluster>): (bins: seq<Bin>)
    ensures |bins| == |cs| && forall i :: 0 <= i < |cs| ==> bins[i] == Bin(cs[i].start, Flat(cs[i].parts))
  {
    seq(|cs|, i requires 0 <= i < |cs| => Bin(cs[i].start, Flat(cs[i].parts)))
  }

  lemma {:induction false} MergeStart(start: int, parts: seq<Bin>)
    requires parts != []
    ensures MergeParts(start, parts).start == start
  {
    if |parts| > 1 {
      MergeStart(start, Init(parts));
    }
  }

  lemma {:induction false} MergePartsAppend(start: int, parts: seq<Bin>, b: Bin)
    requires parts != []
    ensures MergeParts(start, parts + [b]) == Merge(MergeParts(start, parts), PartCandle(b))
  {
    assert Init(parts + [b]) == parts;
  }

  /** Adding a part absorbs its candle. */
  lemma {:induction false} MergesAddPart(cs: seq<Cluster>, start: int, b: Bin)
    requires Sound(cs) && b.ticks != []
    ensures Sound(AddPart(cs, start, b))
    ensures Merges(AddPart(cs, start, b)) == Absorb(Merges(cs), start, PartCandle(b))
  {
    AddPartSound(cs, start, b);
    if cs != [] {
      MergeStart(Last(cs).start, Last(cs).parts);
    }
    if cs != [] && Last(cs).start == start {
      MergePartsAppend(start, Last(cs).parts, b);
      MergesJoin(cs, b);
    } else {
      MergesOpen(cs, start, b);
    }
  }

  lemma {:induction false} MergesOpen(cs: seq<Cluster>, start: int, b: Bin)
    requires Sound(cs) && Sound(cs + [Cluster(start, [b])])
    ensures Merges(cs + [Cluster(start, [b])]) == Merges(cs) + [PartCandle(b).(start := start)]
  {
  }

  lemma {:induction false} MergesJoin(cs: seq<Cluster>, b: Bin)
    requires cs != [] && Sound(cs)
    requires var c := Last(cs); Sound(Init(cs) + [Cluster(c.start, c.parts + [b])])
    ensures var c := Last(cs);
            Merges(Init(cs) + [Cluster(c.start, c.parts + [b])]) ==
              Init(Merges(cs)) + [MergeParts(c.start, c.parts + [b])]
  {
  }

  lemma {:induction false} CoarsenIsMerges(wide: int -> int, bins: seq<Bin>)
    requires Filled(bins)
    ensures Sound(Clusters(wide, bins)) && Coarsen(wide, StreamCandles(bins)) == Merges(Clusters(wide, bins))
  {
    ClustersSound(wide, bins);
    if bins != [] {
      var p, b := Init(bins), Last(bins);
      CoarsenIsMerges(wide, p);
      assert Init(StreamCandles(bins)) == StreamCandles(p) && Last(StreamCandles(bins)) == PartCandle(b);
      StreamCandleStart(b.start, b.ticks);
      MergesAddPart(Clusters(wide, p), wide(b.start), b);
    }
  }

  /** A part that opens with a tick extends the wide periods by that tick. */
  lemma {:induction false} WholesOpen(cs: seq<Cluster>, w: int, s: int, t: Tick)
    ensures Wholes(AddPart(cs, w, Bin(s, [t]))) == Extend(Wholes(cs), w, t)
  {
    var b := Bin(s, [t]);
    if cs != [] && Last(cs).start == w {
      var parts := Last(cs).parts;
      FlatAppend(parts, b);
      GrowLast(Wholes(Init(cs)), w, Flat(parts), t);
      assert Wholes(cs) == Wholes(Init(cs)) + [Bin(w, Flat(parts))];
      assert Wholes(AddPart(cs, w, b)) == Wholes(Init(cs)) + [Bin(w, Flat(parts + [b]))];
    } else {
      FlatOne(b);
      assert Wholes(AddPart(cs, w, b)) == Wholes(cs) + [Bin(w, [t])];
    }
  }

  /** A part that grows by a tick extends the wide periods by that tick. */
  lemma {:induction false} WholesGrow(cs: seq<Cluster>, w: int, b: Bin, t: Tick)
    ensures Wholes(AddPart(cs, w, Bin(b.start, b.ticks + [t]))) == Extend(Wholes(AddPart(cs, w, b)), w, t)
  {
    var grown := Bin(b.start, b.ticks + [t]);
    if cs != [] && Last(cs).start == w {
      var parts := Last(cs).parts;
      FlatAppend(parts, b);
      FlatAppend(parts, grown);
      assert Flat(parts) + (b.ticks + [t]) == Flat(parts) + b.ticks + [t];
      GrowLast(Wholes(Init(cs)), w, Flat(parts + [b]), t);
      assert Wholes(AddPart(cs, w, b)) == Wholes(Init(cs)) + [Bin(w, Flat(parts + [b]))];
      assert Wholes(AddPart(cs, w, grown)) == Wholes(Init(cs)) + [Bin(w, Flat(parts + [grown]))];
    } else {
      FlatOne(b);
      FlatOne(grown);
      GrowLast(Wholes(cs), w, b.ticks, t);
      assert Wholes(AddPart(cs, w, b)) == Wholes(cs) + [Bin(w, b.ticks)];
      assert Wholes(AddPart(cs, w, grown)) == Wholes(cs) + [Bin(w, b.ticks + [t])];
    }
  }

  lemma {:induction false} FlatOne(b: Bin)
    ensures Flat([b]) == b.ticks
  {
    var none := Init([b]);
    assert none == [] && Flat(none) == [];
  }

  lemma GrowLast(bins: seq<Bin>, w: int, ticks: seq<Tick>, t: Tick)
    ensures Extend(bins + [Bin(w, ticks)], w, t) == bins + [Bin(w, ticks + [t])]
  {
    ExtendJoins(bins, Bin(w, ticks), t);
  }

  lemma {:induction false} ClustersExtend(wide: int -> int, bins: seq<Bin>, s: int, t: Tick)
    ensures Wholes(Clusters(wide, Extend(bins, s, t))) == Extend(Wholes(Clusters(wide, bins)), wide(s), t)
  {
    var next := Extend(bins, s, t);
    if bins != [] && Last(bins).start == s {
      assert Init(next) == Init(bins);
      WholesGrow(Clusters(wide, Init(bins)), wide(s), Last(bins), t);
    } else {
      assert Init(next) == bins;
      WholesOpen(Clusters(wide, bins), wide(s), s, t);
    }
  }

  /** The wide periods of the ticks are the clusters of their narrow periods. */
  lemma {:induction false} RunsAreClusters(narrow: int -> int, wide: int -> int, ticks: seq<Tick>)
    requires forall t :: wide(narrow(t)) == wide(t)
    ensures Runs(wide, ticks) == Wholes(Clusters(wide, Runs(narrow, ticks)))
  {
    if ticks != [] {
      var p, t := Init(ticks), Last(ticks);
      RunsAreClusters(narrow, wide, p);
      RunsLast(narrow, ticks);
      RunsLast(wide, ticks);
      ClustersExtend(wide, Runs(narrow, p), narrow(t.time), t);
    }
  }

  lemma {:induction false} StreamOfWholes(cs: seq<Cluster>)
    requires Sound(cs)
    ensures StreamCandles(Wholes(cs)) == Merges(cs) <==> forall i :: 0 <= i < |cs| ==> MergesExactly(cs[i].parts)
    ensures forall i :: 0 <= i < |cs| ==> SameTotals(StreamCandles(Wholes(cs))[i], Merges(cs)[i])
  {
    var a, b := StreamCandles(Wholes(cs)), Merges(cs);
    forall i | 0 <= i < |cs| ensures (a[i] == b[i] <==> MergesExactly(cs[i].parts)) && SameTotals(a[i], b[i]) {
      WideBarMergesExactly(cs[i].start, cs[i].parts);
      MergeTotals(cs[i].start, cs[i].parts);
    }
    assert a == b <==> forall i :: 0 <= i < |cs| ==> a[i] == b[i];
  }

  predicate SameTotals(a: Candle, b: Candle) {
    a.start == b.start && a.close == b.close && a.volume == b.volume && a.count == b.count
  }

  /** For every tick sequence and every timeframe that divides another: the streamed wide bars are the ordered merges of
      the streamed narrow bars exactly when, in every wide bar, the first narrow bar has a price or none has, and no
      later one skips a zero that the other prices do not span. Starts, closes, volumes and counts agree always. */
  lemma {:induction false} StreamedBarsCoarsen(narrow: Timeframe, wide: Timeframe, ticks: seq<Tick>)
    requires wide.Minutes() % narrow.Minutes() == 0
    ensures var bins, bars := Runs(StartOf(narrow), ticks), StreamCandles(Runs(StartOf(wide), ticks));
            var cs, merged := Clusters(StartOf(wide), bins), Coarsen(StartOf(wide), StreamCandles(bins));
            && Sound(cs) && |bars| == |merged| == |cs|
            && (bars == merged <==> forall i :: 0 <= i < |cs| ==> MergesExactly(cs[i].parts))
            && forall i :: 0 <= i < |bars| ==> SameTotals(bars[i], merged[i])
  {
    var n, w := StartOf(narrow), StartOf(wide);
    forall t ensures w(n(t)) == w(t) {
      BarStartNests(t, narrow, wide);
    }
    RunsAreClusters(n, w, ticks);
    RunsFilled(n, ticks);
    CoarsenIsMerges(w, Runs(n, ticks));
    StreamOfWholes(Clusters(w, Runs(n, ticks)));
  }

  lemma FirstTwoMinutes()
    ensures BarStart(0, M1) == 0 == BarStart(0, M5)
    ensures BarStart(60_000_000, M1) == 60_000_000 && BarStart(60_000_000, M5) == 0
  {
    FirstMinute();
    FirstFiveMinutes();
  }

  lemma FirstMinute()
    ensures BarStart(0, M1) == 0 && BarStart(60_000_000, M1) == 60_000_000
  {
    BarStartIsEpochFloor(0, M1);
    BarStartIsEpochFloor(60_000_000, M1);
    assert M1.Width() == 60_000_000;
  }

  lemma FirstFiveMinutes()
    ensures BarStart(0, M5) == 0 == BarStart(60_000_000, M5)
  {
    BarStartIsEpochFloor(0, M5);
    BarStartIsEpochFloor(60_000_000, M5);
    assert M5.Width() == 300_000_000;
  }

  lemma {:induction false} TwoRuns(start: int -> int, a: Tick, b: Tick)
    requires start(a.time) != start(b.time)
    ensures Runs(start, [a, b]) == [Bin(start(a.time), [a]), Bin(start(b.time), [b])]
  {
    assert Init([a, b]) == [a] && Init([a]) == [];
    assert Runs(start, [a]) == [Bin(start(a.time), [a])];
  }

  lemma {:induction false} OneCluster(wide: int -> int, p: Bin, q: Bin)
    requires wide(p.start) == wide(q.start)
    ensures Clusters(wide, [p, q]) == [Cluster(wide(p.start), [p, q])]
  {
    assert Init([p, q]) == [p] && Init([p]) == [];
    assert Clusters(wide, [p]) == [Cluster(wide(p.start), [p])] && [p] + [q] == [p, q];
  }

  lemma {:induction false} ZeroFirstIsNotExact(parts: seq<Bin>)
    requires |parts| == 2 && Filled(parts) && AllZero(parts[0].ticks) && !AllZero(parts[1].ticks)
    ensures !MergesExactly(parts)
  {
  }

  /** A first minute quoted at zero and a second at 5: the streamed five minutes open at 5, the merged minutes at 0. */
  lemma {:induction false} ZeroMinuteCounterexample(ticks: seq<Tick>)
    requires ticks == [Tick("X", 0, 0.0, 0.0, 1.0), Tick("X", 60_000_000, 5.0, 5.0, 1.0)]
    ensures StreamCandles(Runs(StartOf(M5), ticks)) != Coarsen(StartOf(M5), StreamCandles(Runs(StartOf(M1), ticks)))
  {
    var a, b := ticks[0], ticks[1];
    ZeroThenPrice(ticks, a, b);
  }

  lemma {:induction false} ZeroThenPrice(ticks: seq<Tick>, a: Tick, b: Tick)
    requires ticks == [a, b] && a.time == 0 && b.time == 60_000_000 && a.Mid() == 0.0 && b.Mid() != 0.0
    ensures StreamCandles(Runs(StartOf(M5), ticks)) != Coarsen(StartOf(M5), StreamCandles(Runs(StartOf(M1), ticks)))
  {
    FirstTwoMinutes();
    TwoRuns(StartOf(M1), a, b);
    var p, q := Bin(0, [a]), Bin(60_000_000, [b]);
    var bins := Runs(StartOf(M1), ticks);
    assert bins == [p, q];
    OneCluster(StartOf(M5), p, q);
    var cs := Clusters(StartOf(M5), bins);
    assert cs == [Cluster(0, [p, q])];
    assert !AllZero(q.ticks) by {
      assert q.ticks[0] == b;
    }
    ZeroFirstIsNotExact([p, q]);
    StreamedBarsCoarsen(M1, M5, ticks);
    assert !MergesExactly(cs[0].parts);
  }
}
