/** The streaming renderer as the object it is: current bars, their cached starts, the bounded histories and the
    evicting cache of bar starts, all updated in place. Its methods are proved against `BarStream`. */
module BarRenderers {
  import opened Prelude
  import opened Calendar
  import opened Bars
  import opened BarStream

  const CACHE_LIMIT: nat := 10_000
  const CACHE_EVICTION: nat := 5_000

  datatype Slot = Slot(timeframe: Timeframe, symbol: string)
  datatype CacheKey = CacheKey(minute: Minute, timeframe: Timeframe)

  lemma DistinctSplit<T>(s: seq<T>, n: nat)
    requires Distinct(s) && n <= |s|
    ensures Distinct(s[n..])
    ensures forall k :: k in s <==> k in s[..n] || k in s[n..]
    ensures forall k :: k in s[..n] ==> k !in s[n..]
  {
    assert s == s[..n] + s[n..];
  }

  lemma MoveTimeframe(done: set<Timeframe>, todo: set<Timeframe>, tf: Timeframe)
    requires done !! todo && tf in todo
    ensures (done + {tf}) + (todo - {tf}) == done + todo && (done + {tf}) !! (todo - {tf})
  {
  }

  class BarRenderer {
    const maxHistory: nat
    var barStartCache: map<CacheKey, int>
    var cacheOrder: seq<CacheKey>  // the insertion order of the cache's keys
    var currentBars: map<Slot, Bar>
    var currentBarStarts: map<Slot, int>
    var completedBars: map<Slot, seq<Bar>>
    var lastTickTime: Option<int>

    /** Every cached start is the one the calendar arithmetic gives, and the cache is bounded. */
    ghost predicate CacheValid()
      reads this`barStartCache, this`cacheOrder
    {
      && Distinct(cacheOrder) && |cacheOrder| <= CACHE_LIMIT
      && (forall k :: k in barStartCache <==> k in cacheOrder)
      && (forall k :: k in barStartCache ==> barStartCache[k] == BarStartOfMinute(k.minute, k.timeframe))
    }

    ghost predicate BarsValid()
      reads this`currentBars, this`currentBarStarts, this`completedBars
    {
      && currentBarStarts.Keys == currentBars.Keys
      && (forall k :: k in currentBars ==> currentBarStarts[k] == currentBars[k].candle.start)
      && (forall k :: k in completedBars ==> |completedBars[k]| <= maxHistory)
    }

    ghost predicate Valid()
      reads this
    {
      CacheValid() && BarsValid()
    }

    ghost function SeriesAt(slot: Slot): Series
      reads this`currentBars, this`completedBars
    {
      Series(if slot in completedBars then completedBars[slot] else [],
             if slot in currentBars then Some(currentBars[slot]) else None)
    }

    constructor (maxHistory: nat := 1000)
      ensures Valid() && this.maxHistory == maxHistory
      ensures forall slot :: SeriesAt(slot) == EMPTY
    {
      this.maxHistory := maxHistory;
      barStartCache, cacheOrder := map[], [];
      currentBars, currentBarStarts, completedBars := map[], map[], map[];
      lastTickTime := None;
    }

    /** Whatever was cached or evicted before, the answer is the epoch floor of the moment. */
    method GetBarStartTime(t: int, tf: Timeframe) returns (start: int)
      requires CacheValid()
      modifies this`barStartCache, this`cacheOrder
      ensures CacheValid()
      ensures start == BarStart(t, tf)
    {
      var key := CacheKey(MinuteOf(t), tf);
      if key in barStartCache {
        return barStartCache[key];
      }
      start := BarStartOfMinute(key.minute, tf);
      barStartCache := barStartCache[key := start];
      cacheOrder := cacheOrder + [key];
      if |cacheOrder| > CACHE_LIMIT {
        DistinctSplit(cacheOrder, CACHE_EVICTION);
        barStartCache := barStartCache - (set k | k in cacheOrder[..CACHE_EVICTION]);
        cacheOrder := cacheOrder[CACHE_EVICTION..];
      }
    }

    /** A bar is complete when every moment of it has passed. */
    method IsBarComplete(start: int, now: int, tf: Timeframe) returns (complete: bool)
      ensures complete <==> forall t :: Contains(start, tf, t) ==> t < now
    {
      assert Contains(start, tf, start + tf.Width() - 1);
      complete := now >= start + tf.Width();
    }

    method ArchiveCompletedBar(slot: Slot, bar: Bar)
      modifies this`completedBars
      ensures completedBars == old(completedBars)[slot := LastN(maxHistory, old(SeriesAt(slot).history) + [bar])]
    {
      var history := if slot in completedBars then completedBars[slot] else [];
      completedBars := completedBars[slot := LastN(maxHistory, history + [bar])];
    }

    /** Close the slot's bar if its period ended, and give the bar the tick goes into. */
    method RollOver(slot: Slot, start: int) returns (bar: Bar, wasClosed: bool)
      requires BarsValid()
      modifies this`completedBars, this`currentBarStarts
      ensures wasClosed <==> slot in currentBars && currentBars[slot].candle.start != start
      ensures bar == if slot in currentBars && !wasClosed then currentBars[slot]
                     else Bar(slot.symbol, slot.timeframe, FreshCandle(start), false)
      ensures currentBarStarts == old(currentBarStarts)[slot := start]
      ensures completedBars ==
                if wasClosed then
                  var kept := LastN(maxHistory, old(SeriesAt(slot).history) + [Archived(currentBars[slot])]);
                  old(completedBars)[slot := kept]
                else old(completedBars)
    {
      wasClosed := false;
      bar := Bar(slot.symbol, slot.timeframe, FreshCandle(start), false);
      if slot in currentBars {
        if currentBarStarts[slot] != start {
          ArchiveCompletedBar(slot, currentBars[slot].(isComplete := true));
          wasClosed := true;
        } else {
          bar := currentBars[slot];
        }
      }
      if slot !in currentBars || wasClosed {
        currentBarStarts := currentBarStarts[slot := start];
      }
    }

    /** Roll the slot over and update its bar with the tick. */
    method UpdateSlot(t: Tick, tf: Timeframe, start: int) returns (bar: Bar, wasClosed: bool)
      requires BarsValid() && start == BarStart(t.time, tf)
      modifies this`currentBars, this`completedBars, this`currentBarStarts
      ensures BarsValid()
      ensures SeriesAt(Slot(tf, t.symbol)) == Step(tf, maxHistory, old(SeriesAt(Slot(tf, t.symbol))), t)
      ensures forall other :: other != Slot(tf, t.symbol) ==> SeriesAt(other) == old(SeriesAt(other))
      ensures Some(bar) == SeriesAt(Slot(tf, t.symbol)).current
      ensures wasClosed == Closes(old(SeriesAt(Slot(tf, t.symbol))), tf, t)
    {
      var slot := Slot(tf, t.symbol);
      bar, wasClosed := RollOver(slot, start);
      bar := bar.(candle := UpdateWithTick(bar.candle, t.Mid(), t.volume));
      var complete := IsBarComplete(start, t.time, tf);
      assert Contains(start, tf, start + tf.Width() - 1);
      if complete {
        bar := bar.(isComplete := true);
      }
      currentBars := currentBars[slot := bar];
    }

    /** The body of the loop over timeframes. */
    method UpdateTimeframe(t: Tick, tf: Timeframe) returns (bar: Bar, wasClosed: bool)
      requires Valid()
      modifies this`barStartCache, this`cacheOrder, this`currentBars, this`completedBars, this`currentBarStarts
      ensures Valid()
      ensures SeriesAt(Slot(tf, t.symbol)) == Step(tf, maxHistory, old(SeriesAt(Slot(tf, t.symbol))), t)
      ensures forall other :: other != Slot(tf, t.symbol) ==> SeriesAt(other) == old(SeriesAt(other))
      ensures Some(bar) == SeriesAt(Slot(tf, t.symbol)).current
      ensures wasClosed == Closes(old(SeriesAt(Slot(tf, t.symbol))), tf, t)
    {
      var start := GetBarStartTime(t.time, tf);
      bar, wasClosed := UpdateSlot(t, tf, start);
    }

    /** All series at one moment. */
    ghost function Snapshot(): imap<Slot, Series>
      reads this`currentBars, this`completedBars
    {
      imap slot | true :: SeriesAt(slot)
    }

    /** The series of the symbol have taken their step in the timeframes done, all others are as before. */
    ghost predicate Stepped(before: imap<Slot, Series>, t: Tick, done: set<Timeframe>)
      reads this`currentBars, this`completedBars
    {
      && (forall slot: Slot :: slot in before)
      && forall slot :: SeriesAt(slot) == if slot.timeframe in done && slot.symbol == t.symbol
                                          then Step(slot.timeframe, maxHistory, before[slot], t) else before[slot]
    }

    ghost predicate Reported(before: imap<Slot, Series>, t: Tick, tf: Timeframe, bar: Bar, wasClosed: bool) {
      && Slot(tf, t.symbol) in before
      && Some(bar) == Step(tf, maxHistory, before[Slot(tf, t.symbol)], t).current
      && wasClosed == Closes(before[Slot(tf, t.symbol)], tf, t)
    }

    /** One more timeframe takes its step. */
    method StepInto(t: Tick, tf: Timeframe, ghost before: imap<Slot, Series>, ghost done: set<Timeframe>)
      returns (bar: Bar, wasClosed: bool)
      requires Valid() && Stepped(before, t, done) && tf !in done
      modifies this`barStartCache, this`cacheOrder, this`currentBars, this`completedBars, this`currentBarStarts
      ensures Valid() && Stepped(before, t, done + {tf})
      ensures Reported(before, t, tf, bar, wasClosed)
    {
      assert SeriesAt(Slot(tf, t.symbol)) == before[Slot(tf, t.symbol)];
      bar, wasClosed := UpdateTimeframe(t, tf);
    }

    /** What the loop over the timeframes has done. */
    ghost predicate Progress(before: imap<Slot, Series>, t: Tick, done: set<Timeframe>, updated: map<Timeframe, Bar>,
                             closed: map<Timeframe, bool>)
      reads this
    {
      Valid() && Stepped(before, t, done) && AllReported(before, t, done, updated, closed)
    }

    ghost predicate AllReported(before: imap<Slot, Series>, t: Tick, done: set<Timeframe>,
                                updated: map<Timeframe, Bar>, closed: map<Timeframe, bool>) {
      && updated.Keys == closed.Keys == done
      && forall tf :: tf in done ==> Reported(before, t, tf, updated[tf], closed[tf])
    }

    lemma ReportedMore(before: imap<Slot, Series>, t: Tick, done: set<Timeframe>, updated: map<Timeframe, Bar>,
                       closed: map<Timeframe, bool>,
                       tf: Timeframe, bar: Bar, wasClosed: bool)
      requires AllReported(before, t, done, updated, closed) && Reported(before, t, tf, bar, wasClosed)
      ensures AllReported(before, t, done + {tf}, updated[tf := bar], closed[tf := wasClosed])
    {
    }

    /** The loop over the required timeframes. */
    method StepAll(t: Tick, required: set<Timeframe>, ghost before: imap<Slot, Series>)
      returns (updated: map<Timeframe, Bar>, closed: map<Timeframe, bool>)
      requires Valid() && Stepped(before, t, {})
      modifies this`barStartCache, this`cacheOrder, this`currentBars, this`completedBars, this`currentBarStarts
      ensures Progress(before, t, required, updated, closed)
    {
      updated, closed := map[], map[];
      var todo := required;
      ghost var done: set<Timeframe> := {};
      while todo != {}
        invariant done + todo == required && done !! todo
        invariant Progress(before, t, done, updated, closed)
      {
        var tf :| tf in todo;
        MoveTimeframe(done, todo, tf);
        var bar, wasClosed := StepInto(t, tf, before, done);
        ReportedMore(before, t, done, updated, closed, tf, bar, wasClosed);
        todo, done := todo - {tf}, done + {tf};
        updated, closed := updated[tf := bar], closed[tf := wasClosed];
      }
      assert done == required;
    }

    /** One tick takes every required series of its symbol one step and leaves all others alone. */
    method UpdateCurrentBars(t: Tick, required: set<Timeframe>)
      returns (updated: map<Timeframe, Bar>, closed: map<Timeframe, bool>)
      requires Valid()
      modifies this
      ensures Valid() && lastTickTime == Some(t.time)
      ensures forall slot :: SeriesAt(slot) ==
                if slot.timeframe in required && slot.symbol == t.symbol
                then Step(slot.timeframe, maxHistory, old(SeriesAt(slot)), t) else old(SeriesAt(slot))
      ensures updated.Keys == closed.Keys == required
      ensures forall tf :: tf in required ==>
                && Some(updated[tf]) == SeriesAt(Slot(tf, t.symbol)).current
                && closed[tf] == Closes(old(SeriesAt(Slot(tf, t.symbol))), tf, t)
      ensures forall tf :: tf in required ==> Midway(updated[tf].candle.close, t)
    {
      ghost var before := Snapshot();
      updated, closed := StepAll(t, required, before);
      lastTickTime := Some(t.time);
    }

    /** Append bar by bar to a deque of bounded length. */
    static method AppendBounded(limit: nat, before: seq<Bar>, bars: seq<Bar>) returns (history: seq<Bar>)
      requires |before| <= limit
      ensures history == LastN(limit, before + bars)
    {
      history := before;
      assert before + bars[..0] == before;
      for i := 0 to |bars|
        invariant history == LastN(limit, before + bars[..i])
      {
        LastNOfAppend(limit, before + bars[..i], [bars[i]]);
        assert before + bars[..i] + [bars[i]] == before + bars[..i + 1];
        history := LastN(limit, history + [bars[i]]);
      }
      assert bars[..|bars|] == bars;
    }

    /** Warmup bars are appended to the bounded history, and to nothing else. */
    method InitializeHistoricalBars(symbol: string, tf: Timeframe, bars: seq<Bar>)
      requires Valid()
      modifies this`completedBars
      ensures Valid()
      ensures SeriesAt(Slot(tf, symbol)) == WithWarmup(maxHistory, old(SeriesAt(Slot(tf, symbol))), bars)
      ensures forall other :: other != Slot(tf, symbol) ==> SeriesAt(other) == old(SeriesAt(other))
    {
      var slot := Slot(tf, symbol);
      var history := AppendBounded(maxHistory, if slot in completedBars then completedBars[slot] else [], bars);
      completedBars := completedBars[slot := history];
    }

    method GetBarHistory(symbol: string, tf: Timeframe) returns (history: seq<Bar>)
      ensures history == SeriesAt(Slot(tf, symbol)).history
    {
      var slot := Slot(tf, symbol);
      history := if slot in completedBars then completedBars[slot] else [];
    }
  }
}
