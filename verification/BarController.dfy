/** The controller above the renderer: a per-timeframe history cache and the set of closes waiting to be consumed.
    `Engine` is its state as a value and `After` what each call does; the class is proved to take those steps, and the
    lemmas speak about every interleaving of calls. */
module BarControllers {
  import opened Prelude
  import opened Calendar
  import opened Bars
  import opened Periods
  import opened BarStream
  import opened BarRenderers

  /** The series the renderer holds; a slot never touched is empty. */
  type Table = map<Slot, Series>

  function At(m: Table, tf: Timeframe, symbol: string): Series {
    if Slot(tf, symbol) in m then m[Slot(tf, symbol)] else EMPTY
  }

  datatype Engine = Engine(
    cap: nat,
    required: set<Timeframe>,
    series: Table,
    cached: map<Timeframe, seq<Bar>>,
    valid: map<Timeframe, bool>,
    pending: set<Timeframe>)

  datatype Event =
    | Ticked(t: Tick)
    | Injected(symbol: string, warm: map<Timeframe, seq<Bar>>)
    | Read(symbol: string)
    | Consumed

  function Fresh(cap: nat, required: set<Timeframe>): Engine {
    Engine(cap, required, map[], map[], map[], {})
  }

  /** One tick steps the required series of its symbol. */
  function TickedTable(cap: nat, required: set<Timeframe>, m: Table, t: Tick): (r: Table)
    ensures forall tf, symbol :: At(r, tf, symbol) ==
              if tf in required && symbol == t.symbol then Step(tf, cap, At(m, tf, symbol), t) else At(m, tf, symbol)
  {
    m + map tf | tf in required :: Slot(tf, t.symbol) := Step(tf, cap, At(m, tf, t.symbol), t)
  }

  function InjectedTable(cap: nat, m: Table, symbol: string, warm: map<Timeframe, seq<Bar>>): (r: Table)
    ensures forall tf, other :: At(r, tf, other) ==
              if tf in warm && other == symbol then WithWarmup(cap, At(m, tf, other), warm[tf]) else At(m, tf, other)
  {
    m + map tf | tf in warm :: Slot(tf, symbol) := WithWarmup(cap, At(m, tf, symbol), warm[tf])
  }

  /** The required timeframes whose bar this tick closes. */
  function ClosedByTick(required: set<Timeframe>, m: Table, t: Tick): set<Timeframe> {
    set tf | tf in required && Closes(At(m, tf, t.symbol), tf, t)
  }

  function ClosedBy(e: Engine, ev: Event): set<Timeframe> {
    if ev.Ticked? then ClosedByTick(e.required, e.series, ev.t) else {}
  }

  predicate Hit(valid: map<Timeframe, bool>, cached: map<Timeframe, seq<Bar>>, tf: Timeframe) {
    tf in valid && valid[tf] && tf in cached
  }

  /** What `get_all_bar_history(symbol)` answers. */
  function Answer(e: Engine, symbol: string): map<Timeframe, seq<Bar>> {
    map tf | tf in e.required ::
      if Hit(e.valid, e.cached, tf) then e.cached[tf] else At(e.series, tf, symbol).history
  }

  function Marked(valid: map<Timeframe, bool>, tfs: set<Timeframe>, flag: bool): map<Timeframe, bool> {
    valid + map tf | tf in tfs :: flag
  }

  lemma MarkedStep(valid: map<Timeframe, bool>, tfs: set<Timeframe>, tf: Timeframe, flag: bool)
    ensures Marked(valid, tfs, flag)[tf := flag] == Marked(valid, tfs + {tf}, flag)
  {
  }

  function After(e: Engine, ev: Event): Engine {
    match ev
    case Ticked(t) =>
      e.(series := TickedTable(e.cap, e.required, e.series, t),
         valid := Marked(e.valid, ClosedBy(e, ev), false),
         pending := e.pending + ClosedBy(e, ev))
    case Injected(symbol, warm) =>
      e.(series := InjectedTable(e.cap, e.series, symbol, warm), valid := Marked(e.valid, warm.Keys, false))
    case Read(symbol) =>
      e.(cached := e.cached + Answer(e, symbol), valid := Marked(e.valid, e.required, true))
    case Consumed =>
      e.(pending := {})
  }

  function Session(e: Engine, evs: seq<Event>): Engine {
    if evs == [] then e else After(Session(e, Init(evs)), Last(evs))
  }

  // ---- the history cache ------------------------------------------------------------------------

  /** The symbol whose read filled each timeframe's cache entry. */
  function Owners(e: Engine, evs: seq<Event>): map<Timeframe, string> {
    if evs == [] then map[]
    else
      var before, owners := Session(e, Init(evs)), Owners(e, Init(evs));
      if Last(evs).Read? then
        owners + map tf | tf in before.required && !Hit(before.valid, before.cached, tf) :: Last(evs).symbol
      else owners
  }

  /** A cache hit holds the live history of the symbol that filled it. */
  ghost predicate Coherent(e: Engine, owners: map<Timeframe, string>) {
    forall tf :: Hit(e.valid, e.cached, tf) ==> tf in owners && e.cached[tf] == At(e.series, tf, owners[tf]).history
  }

  /** Only a close or an injection changes a history, and both invalidate their timeframe. */
  lemma HistoryChangeInvalidates(e: Engine, ev: Event, tf: Timeframe, symbol: string)
    requires At(e.series, tf, symbol).history != At(After(e, ev).series, tf, symbol).history
    ensures !Hit(After(e, ev).valid, After(e, ev).cached, tf)
  {
    if ev.Ticked? {
      assert Closes(At(e.series, tf, symbol), tf, ev.t);
    }
  }

  /** No interleaving of ticks, injections, reads and consumes, over any symbols, makes the cache hold anything but
      the live history of the symbol that filled it. */
  lemma {:induction false} CacheCoherent(cap: nat, required: set<Timeframe>, evs: seq<Event>)
    ensures Coherent(Session(Fresh(cap, required), evs), Owners(Fresh(cap, required), evs))
    decreases |evs|
  {
    var e0 := Fresh(cap, required);
    if evs != [] {
      CacheCoherent(cap, required, Init(evs));
      var e, ev, owners := Session(e0, Init(evs)), Last(evs), Owners(e0, Init(evs));
      var e', owners' := After(e, ev), Owners(e0, evs);
      forall tf | Hit(e'.valid, e'.cached, tf)
        ensures tf in owners' && e'.cached[tf] == At(e'.series, tf, owners'[tf]).history
      {
        if Hit(e.valid, e.cached, tf) {
          if At(e.series, tf, owners[tf]).history != At(e'.series, tf, owners[tf]).history {
            HistoryChangeInvalidates(e, ev, tf, owners[tf]);
          }
        }
      }
    }
  }

  predicate ReadsOnly(symbol: string, evs: seq<Event>) {
    forall ev :: ev in evs && ev.Read? ==> ev.symbol == symbol
  }

  lemma {:induction false} OwnerIsReader(symbol: string, e: Engine, evs: seq<Event>)
    requires ReadsOnly(symbol, evs)
    ensures forall tf :: tf in Owners(e, evs) ==> Owners(e, evs)[tf] == symbol
    decreases |evs|
  {
    if evs != [] {
      assert Last(evs) in evs;
      OwnerIsReader(symbol, e, Init(evs));
    }
  }

  /** A session whose reads are all of one symbol is always answered with that symbol's live histories,
      whatever symbols its ticks and injections have. */
  lemma ReadsAreLive(cap: nat, required: set<Timeframe>, symbol: string, evs: seq<Event>)
    requires ReadsOnly(symbol, evs)
    ensures var e := Session(Fresh(cap, required), evs);
            Answer(e, symbol) == map tf | tf in e.required :: At(e.series, tf, symbol).history
  {
    CacheCoherent(cap, required, evs);
    OwnerIsReader(symbol, Fresh(cap, required), evs);
  }

  /** In general a read of `symbol` is right for a timeframe exactly when it misses, or the symbol whose read filled
      the entry has the same history. */
  lemma ReadIsLiveIff(cap: nat, required: set<Timeframe>, symbol: string, evs: seq<Event>, tf: Timeframe)
    requires tf in Session(Fresh(cap, required), evs).required
    ensures var e, owners := Session(Fresh(cap, required), evs), Owners(Fresh(cap, required), evs);
            Answer(e, symbol)[tf] == At(e.series, tf, symbol).history <==>
              (Hit(e.valid, e.cached, tf) ==>
                 tf in owners && At(e.series, tf, owners[tf]).history == At(e.series, tf, symbol).history)
  {
    CacheCoherent(cap, required, evs);
  }

  /** Warm up and read one symbol, then read another: the answer is the first symbol's bars. */
  lemma TwoSymbolCounterexample(tf: Timeframe, bar: Bar, a: string, b: string)
    requires a != b
    ensures var e := Session(Fresh(1, {tf}), [Injected(a, map[tf := [bar]]), Read(a)]);
            && tf in Answer(e, b)
            && Answer(e, b)[tf] == [bar] && At(e.series, tf, b).history == []
  {
    var e0, inject := Fresh(1, {tf}), Injected(a, map[tf := [bar]]);
    SessionOfTwo(e0, inject, Read(a));
    var e1 := After(e0, inject);
    assert At(e1.series, tf, a) == WithWarmup(1, EMPTY, [bar]);
    assert At(e1.series, tf, b) == EMPTY;
    assert [] + [bar] == [bar];
    ReadFillsCache(e1, a, b, tf);
  }

  /** A miss is filled for the symbol that reads; the next reader of any symbol is answered from it. */
  lemma ReadFillsCache(e: Engine, first: string, second: string, tf: Timeframe)
    requires tf in e.required && !Hit(e.valid, e.cached, tf)
    ensures var e' := After(e, Read(first));
            && tf in Answer(e', second) && Answer(e', second)[tf] == At(e.series, tf, first).history
            && e'.series == e.series
  {
  }

  lemma SessionOfTwo(e: Engine, first: Event, second: Event)
    ensures Session(e, [first, second]) == After(After(e, first), second)
  {
    assert Init([first, second]) == [first] && Init([first]) == [];
    assert Session(e, [first]) == After(Session(e, []), first);
  }

  // ---- consuming closes -------------------------------------------------------------------------

  /** `tf` closed at some event from `since` on. */
  ghost predicate ClosedSince(e: Engine, evs: seq<Event>, since: nat, tf: Timeframe) {
    exists i :: since <= i < |evs| && tf in ClosedBy(Session(e, evs[..i]), evs[i])
  }

  lemma ClosedSinceStep(e: Engine, p: seq<Event>, ev: Event, since: nat, tf: Timeframe)
    requires since <= |p|
    ensures ClosedSince(e, p + [ev], since, tf) <==> ClosedSince(e, p, since, tf) || tf in ClosedBy(Session(e, p), ev)
  {
    var evs := p + [ev];
    assert evs[..|p|] == p && evs[|p|] == ev;
    forall i | 0 <= i < |p| ensures evs[..i] == p[..i] && evs[i] == p[i] {
    }
  }

  lemma PendingStep(e: Engine, ev: Event, tf: Timeframe)
    requires !ev.Consumed?
    ensures tf in After(e, ev).pending <==> tf in e.pending || tf in ClosedBy(e, ev)
  {
  }

  /** What a consume returns: exactly the timeframes closed since the previous consume (or since the start),
      so no close is lost and none is reported by two consumes. */
  lemma {:induction false} ConsumeReportsClosesSince(e: Engine, evs: seq<Event>, since: nat, tf: Timeframe)
    requires since <= |evs|
    requires if since == 0 then e.pending == {} else evs[since - 1].Consumed?
    requires forall i :: since <= i < |evs| ==> !evs[i].Consumed?
    ensures tf in Session(e, evs).pending <==> ClosedSince(e, evs, since, tf)
    decreases |evs|
  {
    if evs != [] {
      var p, ev := Init(evs), Last(evs);
      if since < |evs| {
        assert evs == p + [ev];
        ConsumeReportsClosesSince(e, p, since, tf);
        ClosedSinceStep(e, p, ev, since, tf);
        PendingStep(Session(e, p), ev, tf);
      }
    }
  }

  // ---- closes, by the ticks -----------------------------------------------------------------------

  /** The required series of a symbol has a current bar exactly if the symbol has ticked, and it starts with the bar of
      the last of those ticks. */
  lemma {:induction false} CurrentByTicks(cap: nat, required: set<Timeframe>, evs: seq<Event>, tf: Timeframe,
                                          symbol: string)
    requires tf in required
    ensures var current, ticks := At(Session(Fresh(cap, required), evs).series, tf, symbol).current,
              TicksOf(symbol, evs);
            if ticks == [] then current == None
            else current.Some? && current.value.candle.start == BarStart(Last(ticks).time, tf)
    decreases |evs|
  {
    if evs != [] {
      CurrentByTicks(cap, required, Init(evs), tf, symbol);
      SessionKeepsShape(Fresh(cap, required), Init(evs));
      CurrentStep(Session(Fresh(cap, required), Init(evs)), Last(evs), tf, symbol);
    }
  }

  /** One event leaves the current bar alone, or it is a tick of the symbol and the bar starts with the tick's. */
  lemma CurrentStep(e: Engine, ev: Event, tf: Timeframe, symbol: string)
    requires tf in e.required
    ensures var before, after := At(e.series, tf, symbol).current, At(After(e, ev).series, tf, symbol).current;
            if ev.Ticked? && ev.t.symbol == symbol then
              after.Some? && after.value.candle.start == BarStart(ev.t.time, tf)
            else after == before
  {
  }

  /** The event is a tick of a symbol that has ticked before, in another bar of the timeframe. */
  predicate Crosses(evs: seq<Event>, i: nat, tf: Timeframe)
    requires i < |evs|
  {
    && evs[i].Ticked? && TicksOf(evs[i].t.symbol, evs[..i]) != []
    && BarStart(Last(TicksOf(evs[i].t.symbol, evs[..i])).time, tf) != BarStart(evs[i].t.time, tf)
  }

  lemma {:induction false} CloseExactly(cap: nat, required: set<Timeframe>, evs: seq<Event>, i: nat, tf: Timeframe)
    requires i < |evs|
    ensures tf in ClosedBy(Session(Fresh(cap, required), evs[..i]), evs[i]) <==> tf in required && Crosses(evs, i, tf)
  {
    SessionKeepsShape(Fresh(cap, required), evs[..i]);
    if evs[i].Ticked? && tf in required {
      CurrentByTicks(cap, required, evs[..i], tf, evs[i].t.symbol);
    }
  }

  /** What a consume hands out: the required timeframes in which, since the consume before it, some symbol's tick fell
      into another bar than the symbol's tick before. */
  lemma {:induction false} ConsumeExactly(cap: nat, required: set<Timeframe>, evs: seq<Event>, since: nat,
                                          tf: Timeframe)
    requires since <= |evs| && (since > 0 ==> evs[since - 1].Consumed?)
    requires forall i :: since <= i < |evs| ==> !evs[i].Consumed?
    ensures tf in Session(Fresh(cap, required), evs).pending <==>
              tf in required && exists i :: since <= i < |evs| && Crosses(evs, i, tf)
  {
    ConsumeReportsClosesSince(Fresh(cap, required), evs, since, tf);
    forall i | since <= i < |evs|
      ensures tf in ClosedBy(Session(Fresh(cap, required), evs[..i]), evs[i]) <==> tf in required && Crosses(evs, i, tf)
    {
      CloseExactly(cap, required, evs, i, tf);
    }
  }

  lemma InjectOnce(e: Engine, symbol: string, tf: Timeframe, bars: seq<Bar>)
    ensures var e' := After(e, Injected(symbol, map[tf := bars]));
            e'.cap == e.cap && At(e'.series, tf, symbol).history ==
              LastN(e.cap, At(e.series, tf, symbol).history + bars)
  {
  }

  /** Warmup bars injected later stand behind those injected earlier, and behind what was there. */
  lemma InjectTwice(e: Engine, symbol: string, tf: Timeframe, a: seq<Bar>, b: seq<Bar>)
    ensures var twice := After(After(e, Injected(symbol, map[tf := a])), Injected(symbol, map[tf := b]));
            At(twice.series, tf, symbol).history == LastN(e.cap, At(e.series, tf, symbol).history + a + b)
  {
    var once := After(e, Injected(symbol, map[tf := a]));
    InjectOnce(e, symbol, tf, a);
    InjectOnce(once, symbol, tf, b);
    LastNOfAppend(e.cap, At(e.series, tf, symbol).history + a, b);
  }

  // ---- from events to bars ----------------------------------------------------------------------

  function TicksOf(symbol: string, evs: seq<Event>): (ticks: seq<Tick>)
    ensures OfSymbol(symbol, ticks)
  {
    if evs == [] then []
    else if Last(evs).Ticked? && Last(evs).t.symbol == symbol then TicksOf(symbol, Init(evs)) + [Last(evs).t]
    else TicksOf(symbol, Init(evs))
  }

  predicate NoInjection(symbol: string, evs: seq<Event>) {
    forall ev :: ev in evs && ev.Injected? ==> ev.symbol != symbol
  }

  lemma {:induction false} SessionKeepsShape(e: Engine, evs: seq<Event>)
    ensures Session(e, evs).cap == e.cap && Session(e, evs).required == e.required
  {
    if evs != [] {
      SessionKeepsShape(e, Init(evs));
    }
  }

  /** What one event does to one required series it does not inject into. */
  lemma SeriesStep(e: Engine, ev: Event, tf: Timeframe, symbol: string)
    requires tf in e.required && (ev.Injected? ==> ev.symbol != symbol)
    ensures At(After(e, ev).series, tf, symbol) ==
              if ev.Ticked? && ev.t.symbol == symbol then Step(tf, e.cap, At(e.series, tf, symbol), ev.t)
              else At(e.series, tf, symbol)
  {
  }

  lemma RunAppend(tf: Timeframe, cap: nat, s: Series, p: seq<Tick>, t: Tick)
    ensures Run(tf, cap, s, p + [t]) == Step(tf, cap, Run(tf, cap, s, p), t)
  {
    assert Init(p + [t]) == p;
  }

  /** A required series depends on its own symbol's ticks only. */
  lemma {:induction false} SeriesIsRun(e: Engine, evs: seq<Event>, tf: Timeframe, symbol: string)
    requires tf in e.required && NoInjection(symbol, evs)
    ensures At(Session(e, evs).series, tf, symbol) == Run(tf, e.cap, At(e.series, tf, symbol), TicksOf(symbol, evs))
    decreases |evs|
  {
    if evs != [] {
      var p, ev := Init(evs), Last(evs);
      assert ev in evs;
      SeriesIsRun(e, p, tf, symbol);
      SessionKeepsShape(e, p);
      SeriesStep(Session(e, p), ev, tf, symbol);
      if ev.Ticked? && ev.t.symbol == symbol {
        RunAppend(tf, e.cap, At(e.series, tf, symbol), TicksOf(symbol, p), ev.t);
      } else {
        assert TicksOf(symbol, evs) == TicksOf(symbol, p);
      }
    }
  }

  /** End to end: inject warmup bars, then let ticks, reads and consumes interleave in any way. A read answers with
      the newest `cap` bars of the warmup followed by the bars of the finished batch periods of the symbol's ticks. */
  lemma ReadIsBatchHistory(cap: nat, required: set<Timeframe>, symbol: string, warm: map<Timeframe, seq<Bar>>,
                           evs: seq<Event>, tf: Timeframe)
    requires tf in required && NoInjection(symbol, evs) && ReadsOnly(symbol, evs) && TimeSorted(TicksOf(symbol, evs))
    ensures var e := Session(Fresh(cap, required), [Injected(symbol, warm)] + evs);
            && tf in e.required
            && Reads(cap, symbol, tf, WarmOf(warm, tf), TicksOf(symbol, evs), Answer(e, symbol)[tf],
                     At(e.series, tf, symbol).current)
  {
    var inject := Injected(symbol, warm);
    var e1, all := After(Fresh(cap, required), inject), [inject] + evs;
    SessionSplit(Fresh(cap, required), inject, evs, all);
    SessionKeepsShape(e1, evs);
    InjectionAllowed(symbol, inject, evs, all);
    ReadsAreLive(cap, required, symbol, all);
    SeriesIsRun(e1, evs, tf, symbol);
    WarmStart(cap, required, symbol, warm, tf);
    RunReads(cap, symbol, tf, WarmOf(warm, tf), TicksOf(symbol, evs));
  }

  /** The bars injected for a timeframe; none if it is not among them. */
  function WarmOf(warm: map<Timeframe, seq<Bar>>, tf: Timeframe): seq<Bar> {
    if tf in warm then warm[tf] else []
  }

  /** A history and a current bar are those of the warmup followed by the batch periods of the ticks. */
  ghost predicate Reads(cap: nat, symbol: string, tf: Timeframe, warm: seq<Bar>, ticks: seq<Tick>, history: seq<Bar>,
                        current: Option<Bar>) {
    var bins := ResampleAll(tf, ticks);
    if ticks == [] then history == LastN(cap, warm) && current == None
    else
      && bins != []
      && history == LastN(cap, warm + ClosedBars(symbol, tf, Init(bins)))
      && current == Some(StreamBar(symbol, tf, Last(bins), false))
  }

  lemma InjectionAllowed(symbol: string, inject: Event, evs: seq<Event>, all: seq<Event>)
    requires ReadsOnly(symbol, evs) && inject.Injected? && all == [inject] + evs
    ensures ReadsOnly(symbol, all)
  {
  }

  lemma WarmStart(cap: nat, required: set<Timeframe>, symbol: string, warm: map<Timeframe, seq<Bar>>, tf: Timeframe)
    ensures At(After(Fresh(cap, required), Injected(symbol, warm)).series, tf, symbol) ==
              Series(LastN(cap, WarmOf(warm, tf)), None)
  {
    if tf in warm {
      assert [] + warm[tf] == warm[tf];
    }
  }

  lemma RunReads(cap: nat, symbol: string, tf: Timeframe, warm: seq<Bar>, ticks: seq<Tick>)
    requires OfSymbol(symbol, ticks) && TimeSorted(ticks)
    ensures var s := Run(tf, cap, Series(LastN(cap, warm), None), ticks);
            Reads(cap, symbol, tf, warm, ticks, s.history, s.current)
  {
    if ticks != [] {
      StreamRefinesBatch(symbol, tf, cap, LastN(cap, warm), ticks);
      LastNOfAppend(cap, warm, ClosedBars(symbol, tf, Init(ResampleAll(tf, ticks))));
    }
  }

  lemma {:induction false} SessionSplit(e: Engine, first: Event, evs: seq<Event>, all: seq<Event>)
    requires all == [first] + evs
    ensures Session(e, all) == Session(After(e, first), evs)
    decreases |evs|
  {
    var p := Init(all);
    if evs == [] {
      assert p == [] && Last(all) == first;
    } else {
      assert p == [first] + Init(evs) && Last(all) == Last(evs);
      SessionSplit(e, first, Init(evs), p);
    }
  }

  function Trues(flags: map<Timeframe, bool>): set<Timeframe> {
    set tf | tf in flags && flags[tf]
  }

  // ---- the object -------------------------------------------------------------------------------

  class BarRenderingController {
    const renderer: BarRenderer
    const requiredTimeframes: set<Timeframe>
    var cachedBarHistory: map<Timeframe, seq<Bar>>
    var cacheValidPerTimeframe: map<Timeframe, bool>
    var pendingClosedTimeframes: set<Timeframe>
    ghost var model: Engine

    /** The renderer's slots are the series of the engine. */
    ghost predicate Mirrors(m: Table)
      reads renderer
    {
      forall tf, symbol :: renderer.SeriesAt(Slot(tf, symbol)) == At(m, tf, symbol)
    }

    ghost predicate Valid()
      reads this, renderer
    {
      && renderer.Valid() && Mirrors(model.series)
      && model == Engine(renderer.maxHistory, requiredTimeframes, model.series, cachedBarHistory,
                         cacheValidPerTimeframe, pendingClosedTimeframes)
    }

    constructor (required: set<Timeframe>, maxHistory: nat := 1000)
      ensures Valid() && fresh(renderer)
      ensures model == Fresh(maxHistory, required)
    {
      renderer := new BarRenderer(maxHistory);
      requiredTimeframes := required;
      cachedBarHistory, cacheValidPerTimeframe, pendingClosedTimeframes := map[], map[], {};
      model := Fresh(maxHistory, required);
    }

    /** The loop over the reported closes: invalidate their cache entry and remember them. */
    static method RecordCloses(closed: map<Timeframe, bool>, valid: map<Timeframe, bool>, pending: set<Timeframe>)
      returns (valid': map<Timeframe, bool>, pending': set<Timeframe>)
      ensures valid' == Marked(valid, Trues(closed), false) && pending' == pending + Trues(closed)
    {
      valid', pending' := valid, pending;
      var todo := closed.Keys;
      ghost var done: set<Timeframe> := {};
      while todo != {}
        invariant todo <= closed.Keys
        invariant forall tf :: tf in done <==> tf in closed && tf !in todo && closed[tf]
        invariant valid' == Marked(valid, done, false) && pending' == pending + done
      {
        var tf :| tf in todo;
        todo := todo - {tf};
        if closed[tf] {
          MarkedStep(valid, done, tf, false);
          valid', pending' := valid'[tf := false], pending' + {tf};
          done := done + {tf};
        }
      }
      assert done == Trues(closed);
    }

    /** The renderer's part of a tick: every series steps, and the closes are those of the session machine. */
    method RenderTick(t: Tick) returns (currentBars: map<Timeframe, Bar>, closed: map<Timeframe, bool>)
      requires Valid()
      modifies renderer
      ensures renderer.Valid() && Mirrors(TickedTable(model.cap, model.required, model.series, t))
      ensures Trues(closed) == ClosedByTick(model.required, model.series, t)
      ensures currentBars.Keys == requiredTimeframes
      ensures forall tf :: tf in currentBars ==>
                Some(currentBars[tf]) ==
                  At(TickedTable(model.cap, model.required, model.series, t), tf, t.symbol).current
    {
      currentBars, closed := renderer.UpdateCurrentBars(t, requiredTimeframes);
    }

    method ProcessTick(t: Tick) returns (currentBars: map<Timeframe, Bar>)
      requires Valid()
      modifies this, renderer
      ensures Valid() && model == After(old(model), Ticked(t))
      ensures currentBars.Keys == requiredTimeframes
      ensures forall tf :: tf in currentBars ==> Some(currentBars[tf]) == At(model.series, tf, t.symbol).current
    {
      var closed;
      currentBars, closed := RenderTick(t);
      cacheValidPerTimeframe, pendingClosedTimeframes :=
        RecordCloses(closed, cacheValidPerTimeframe, pendingClosedTimeframes);
      model := After(model, Ticked(t));
    }

    /** Hand over the closes since the last consume and forget them. */
    method ConsumeBarRenderState() returns (closedTimeframes: set<Timeframe>)
      requires Valid()
      modifies this
      ensures Valid() && model == After(old(model), Consumed)
      ensures closedTimeframes == old(model).pending
    {
      closedTimeframes := pendingClosedTimeframes;
      pendingClosedTimeframes := {};
      model := After(model, Consumed);
    }

    /** One timeframe of a read: the cached list on a hit, the renderer's history otherwise. */
    method HistoryFor(symbol: string, tf: Timeframe) returns (history: seq<Bar>)
      requires Mirrors(model.series)
      ensures history == if Hit(cacheValidPerTimeframe, cachedBarHistory, tf) then cachedBarHistory[tf]
                         else At(model.series, tf, symbol).history
    {
      if Hit(cacheValidPerTimeframe, cachedBarHistory, tf) {
        history := cachedBarHistory[tf];
      } else {
        history := renderer.GetBarHistory(symbol, tf);
      }
    }

    method GetAllBarHistory(symbol: string) returns (result: map<Timeframe, seq<Bar>>)
      requires Valid()
      modifies this
      ensures Valid() && model == After(old(model), Read(symbol))
      ensures result == Answer(old(model), symbol)
    {
      result := map[];
      var todo := requiredTimeframes;
      ghost var answer := Answer(model, symbol);
      while todo != {}
        modifies {}
        invariant todo <= requiredTimeframes && result.Keys == requiredTimeframes - todo
        invariant forall tf :: tf in result ==> result[tf] == answer[tf]
      {
        var tf :| tf in todo;
        var history := HistoryFor(symbol, tf);
        result := result[tf := history];
        todo := todo - {tf};
      }
      assert result == answer;
      cachedBarHistory := cachedBarHistory + result;
      cacheValidPerTimeframe := Marked(cacheValidPerTimeframe, requiredTimeframes, true);
      model := After(model, Read(symbol));
    }

    /** Initialize every injected timeframe of the symbol in the renderer. */
    method InitializeAll(symbol: string, warm: map<Timeframe, seq<Bar>>)
      requires renderer.Valid()
      modifies renderer
      ensures renderer.Valid()
      ensures forall slot :: renderer.SeriesAt(slot) ==
                if slot.timeframe in warm && slot.symbol == symbol
                then WithWarmup(renderer.maxHistory, old(renderer.SeriesAt(slot)), warm[slot.timeframe])
                else old(renderer.SeriesAt(slot))
    {
      var todo := warm.Keys;
      while todo != {}
        invariant todo <= warm.Keys && renderer.Valid()
        invariant forall slot :: renderer.SeriesAt(slot) ==
                    if slot.timeframe in warm && slot.timeframe !in todo && slot.symbol == symbol
                    then WithWarmup(renderer.maxHistory, old(renderer.SeriesAt(slot)), warm[slot.timeframe])
                    else old(renderer.SeriesAt(slot))
      {
        var tf :| tf in todo;
        renderer.InitializeHistoricalBars(symbol, tf, warm[tf]);
        todo := todo - {tf};
      }
    }

    /** The renderer's part of an injection. */
    method WarmRenderer(symbol: string, warm: map<Timeframe, seq<Bar>>)
      requires Valid()
      modifies renderer
      ensures renderer.Valid() && Mirrors(InjectedTable(model.cap, model.series, symbol, warm))
    {
      InitializeAll(symbol, warm);
    }

    method InjectWarmupBars(symbol: string, warm: map<Timeframe, seq<Bar>>)
      requires Valid()
      modifies this, renderer
      ensures Valid() && model == After(old(model), Injected(symbol, warm))
    {
      WarmRenderer(symbol, warm);
      cacheValidPerTimeframe := Marked(cacheValidPerTimeframe, warm.Keys, false);
      model := After(model, Injected(symbol, warm));
    }
  }
}
