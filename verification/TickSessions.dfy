/** What a session of the live tick loop did, told from its events alone: which of them were handled, what was decided
    on them, when the breaker was set, what the monitor measured and when the market was stale. */
module TickSessions {
  import opened Prelude
  import opened ClippingMonitors
  import opened MarketData
  import opened TickLoops

  // ---- which events are handled -------------------------------------------------------------------

  /** Events that end the loop: a stop, the end of the stream, an exhausted source, and a requested session end. */
  predicate Ends(ev: Event) {
    match ev
    case Tick(_, _, _, _, _, _, _, _, _, sessionEnd, _, _, _, _) => sessionEnd
    case Heartbeat(exhausted, _, _, _, _, _, sessionEnd) => exhausted || sessionEnd
    case Sentinel => true
    case Stop => true
  }

  predicate Alive(events: seq<Event>) {
    forall i :: 0 <= i < |events| ==> !Ends(events[i])
  }

  /** Only the last event may end the loop. */
  predicate Live(events: seq<Event>) {
    events == [] || Alive(Init(events))
  }

  lemma {:induction false} RunningExactly(c: Config, monotonic: real, events: seq<Event>)
    ensures Session(c, FreshSession(monotonic), events).running <==> Alive(events)
  {
    if events != [] {
      RunningExactly(c, monotonic, Init(events));
      assert forall i :: 0 <= i < |events| - 1 ==> events[i] == Init(events)[i];
    }
  }

  /** The loop handles its events up to the first one that ends it, and none behind that. */
  lemma {:induction false} HandledExactly(c: Config, monotonic: real, events: seq<Event>, n: nat)
    requires 0 < n <= |events| && Alive(events[..n - 1]) && Ends(events[n - 1])
    ensures Session(c, FreshSession(monotonic), events) == Session(c, FreshSession(monotonic), events[..n])
  {
    RunningExactly(c, monotonic, events[..n]);
    assert events[..n][n - 1] == events[n - 1];
    StoppedStays(c, FreshSession(monotonic), events, n);
  }

  // ---- decisions ----------------------------------------------------------------------------------

  /** A tick decides, and so does a heartbeat with a ghost decision, unless the source is exhausted. */
  predicate Decides(ev: Event) {
    ev.Tick? || (ev.Heartbeat? && !ev.exhausted && ev.ghostDecision.Some?)
  }

  function ActionOf(ev: Event): Action
    requires Decides(ev)
  {
    if ev.Tick? then ev.action else ev.ghostDecision.value
  }

  /** The positions of the deciding events, in order. */
  function Deciding(events: seq<Event>): (d: seq<nat>)
    ensures forall k :: 0 <= k < |d| ==> d[k] < |events| && Decides(events[d[k]])
    ensures forall j, k :: 0 <= j < k < |d| ==> d[j] < d[k]
  {
    if events == [] then []
    else if Decides(Last(events)) then Deciding(Init(events)) + [|events| - 1]
    else Deciding(Init(events))
  }

  /** None of them is left out. */
  lemma {:induction false} DecidingHas(events: seq<Event>, i: nat)
    requires i < |events| && Decides(events[i])
    ensures i in Deciding(events)
  {
    if i < |events| - 1 {
      DecidingHas(Init(events), i);
    }
  }

  /** The equity at the first tick. */
  function FirstEquity(events: seq<Event>): Option<real> {
    if events == [] then None
    else if FirstEquity(Init(events)).Some? then FirstEquity(Init(events))
    else if Last(events).Tick? then Some(Last(events).firstEquity)
    else None
  }

  /** What the loss is measured against: on spot the first tick's equity, if positive, else the initial balance. */
  function LossBase(c: Config, events: seq<Event>): real
    requires events != [] && Last(events).Tick?
  {
    var first := FirstEquity(events);
    if c.spot && first.Some? && first.value > 0.0 then first.value else Last(events).initialBalance
  }

  function CheckedValue(c: Config, ev: Event): real
    requires ev.Tick?
  {
    if c.spot then ev.equity else ev.balance
  }

  /** The last tick's value lies under the floor, or the loss exceeds its share of the base. */
  predicate Breaks(c: Config, events: seq<Event>)
    requires events != [] && Last(events).Tick?
  {
    var value, base := CheckedValue(c, Last(events)), LossBase(c, events);
    var floor := if c.spot then c.safety.minEquity else c.safety.minBalance;
    || (floor > 0.0 && floor > value)
    || (c.safety.maxDrawdownPct > 0.0 && base > 0.0 && (base - value) * 100.0 > c.safety.maxDrawdownPct * base)
  }

  /** The breaker after these events: set exactly if checks are enabled and the last tick breaks a threshold. */
  predicate Blocked(c: Config, events: seq<Event>) {
    c.safety.enabled && events != [] && if Last(events).Tick? then Breaks(c, events) else Blocked(c, Init(events))
  }

  /** The decision of the event at `i`, taken with the breaker as it is after the event's own check. */
  function DecisionAt(c: Config, events: seq<Event>, i: nat): Execution
    requires i < |events| && Decides(events[i])
  {
    var blocked := Blocked(c, events[..i + 1]);
    Execution(if blocked then Flat else ActionOf(events[i]), blocked, events[i].Tick?)
  }

  /** One execution for every deciding event, in order: the event's own action, or FLAT while the breaker is set. */
  predicate Executed(c: Config, events: seq<Event>, executions: seq<Execution>) {
    && |executions| == |Deciding(events)|
    && forall k :: 0 <= k < |executions| ==> executions[k] == DecisionAt(c, events, Deciding(events)[k])
  }

  lemma DrawdownExactly(value: real, base: real, pct: real)
    requires base > 0.0
    ensures Drawdown(value, base) > pct <==> (base - value) * 100.0 > pct * base
    ensures Drawdown(value, base) * base == (base - value) * 100.0
  {
    QuotientTimes(base - value, base);
    var q := (base - value) / base;
    assert q * 100.0 * base == (base - value) * 100.0;
    if Drawdown(value, base) > pct {
      Scale(pct, q * 100.0, base);
    } else {
      Scale(q * 100.0, pct, base);
    }
  }

  lemma Scale(a: real, b: real, n: real)
    requires n > 0.0 && a <= b
    ensures a * n <= b * n && (a < b ==> a * n < b * n)
  {
  }

  /** What the loop's fields hold, by the events. */
  ghost predicate Fields(c: Config, s: Loop, events: seq<Event>) {
    && (s.running <==> Alive(events))
    && s.ticksProcessed == TicksIn(events)
    && (c.spot && FirstEquity(events).Some? ==> s.initialSpotEquity == FirstEquity(events).value)
    && (FirstEquity(events).None? ==> s.initialSpotEquity == 0.0)
    && (s.breaker.blocked <==> Blocked(c, events))
  }

  function TicksIn(events: seq<Event>): nat {
    if events == [] then 0 else TicksIn(Init(events)) + if Last(events).Tick? then 1 else 0
  }

  lemma {:induction false} NoTickNoEquity(events: seq<Event>)
    ensures FirstEquity(events).None? <==> TicksIn(events) == 0
  {
    if events != [] {
      NoTickNoEquity(Init(events));
    }
  }

  lemma {:induction false} AliveNext(events: seq<Event>)
    requires events != []
    ensures Alive(events) <==> Alive(Init(events)) && !Ends(Last(events))
  {
    assert forall i :: 0 <= i < |events| - 1 ==> events[i] == Init(events)[i];
  }

  /** The safety check of an entered tick sets the breaker by the thresholds. */
  lemma {:induction false} CheckExactly(c: Config, s: Loop, events: seq<Event>)
    requires events != [] && Last(events).Tick? && Fields(c, s, Init(events))
    ensures var ev := Last(events);
            var e := Enter(c, s, ev);
            Checked(c, e.breaker, SafetyValue(c, ev), Baseline(c, e, ev)).blocked <==> Blocked(c, events)
  {
    var ev := Last(events);
    var e := Enter(c, s, ev);
    NoTickNoEquity(Init(events));
    assert Baseline(c, e, ev) == LossBase(c, events);
    if LossBase(c, events) > 0.0 {
      DrawdownExactly(CheckedValue(c, ev), LossBase(c, events), c.safety.maxDrawdownPct);
    }
    if !c.safety.enabled {
      BlockedNeedsSafety(c, Init(events));
    }
  }

  lemma {:induction false} BlockedNeedsSafety(c: Config, events: seq<Event>)
    requires !c.safety.enabled
    ensures !Blocked(c, events)
  {
  }

  lemma {:induction false} FieldsStep(c: Config, s: Loop, events: seq<Event>)
    requires events != [] && Alive(Init(events)) && Fields(c, s, Init(events))
    ensures Fields(c, Step(c, s, Last(events)), events)
  {
    AliveNext(events);
    NoTickNoEquity(Init(events));
    if Last(events).Tick? {
      CheckExactly(c, s, events);
    }
  }

  lemma {:induction false} SamePrefix(c: Config, events: seq<Event>, i: nat)
    requires i + 1 < |events| && Decides(events[i])
    ensures Init(events)[i] == events[i] && DecisionAt(c, events, i) == DecisionAt(c, Init(events), i)
  {
    assert events[..i + 1] == Init(events)[..i + 1];
  }

  lemma {:induction false} ExecutedNext(c: Config, events: seq<Event>, executions: seq<Execution>)
    requires events != [] && Executed(c, Init(events), executions)
    ensures !Decides(Last(events)) ==> Executed(c, events, executions)
    ensures Decides(Last(events)) ==> Executed(c, events, executions + [DecisionAt(c, events, |events| - 1)])
  {
    var d := Deciding(Init(events));
    forall k | 0 <= k < |d| ensures DecisionAt(c, events, d[k]) == DecisionAt(c, Init(events), d[k]) {
      SamePrefix(c, events, d[k]);
    }
  }

  lemma {:induction false} DecisionNow(c: Config, s: Loop, events: seq<Event>)
    requires events != [] && Alive(Init(events)) && Fields(c, s, Init(events)) && Decides(Last(events))
    ensures Step(c, s, Last(events)).executions == s.executions + [DecisionAt(c, events, |events| - 1)]
  {
    assert events[..|events|] == events;
    if Last(events).Tick? {
      CheckExactly(c, s, events);
    }
  }

  /** Over every run: the executions are, in order, one for each tick and each ghost decision. Each carries its event's
      own action, or FLAT exactly if safety checks are enabled and the last tick up to then broke a threshold. */
  lemma {:induction false} DecisionsExactly(c: Config, monotonic: real, events: seq<Event>)
    requires Live(events)
    ensures var s := Session(c, FreshSession(monotonic), events);
            Fields(c, s, events) && Executed(c, events, s.executions)
  {
    if events != [] {
      var p := Init(events);
      AliveIsLive(p);
      DecisionsExactly(c, monotonic, p);
      var s := Session(c, FreshSession(monotonic), p);
      FieldsStep(c, s, events);
      ExecutedNext(c, events, s.executions);
      if Decides(Last(events)) {
        DecisionNow(c, s, events);
      }
    }
  }

  lemma AliveIsLive(events: seq<Event>)
    requires Alive(events)
    ensures Live(events)
  {
  }

  // ---- what the executions come back with ---------------------------------------------------------

  /** The positions of the deciding events whose order was rejected, in order. */
  function Rejecting(events: seq<Event>): (d: seq<nat>)
    ensures forall k :: 0 <= k < |d| ==> d[k] < |events| && Decides(events[d[k]]) && events[d[k]].order.Rejected?
    ensures forall j, k :: 0 <= j < k < |d| ==> d[j] < d[k]
  {
    if events == [] then []
    else if Decides(Last(events)) && Last(events).order.Rejected? then Rejecting(Init(events)) + [|events| - 1]
    else Rejecting(Init(events))
  }

  lemma {:induction false} RejectingHas(events: seq<Event>, i: nat)
    requires i < |events| && Decides(events[i]) && events[i].order.Rejected?
    ensures i in Rejecting(events)
  {
    if i < |events| - 1 {
      RejectingHas(Init(events), i);
    }
  }

  /** The rejection of the event at `i` as the panel lists it under a number. */
  function RejectionOf(c: Config, events: seq<Event>, i: nat, number: nat): Rejection
    requires i < |events| && Decides(events[i]) && events[i].order.Rejected?
  {
    Rejection(number, events[i].order.reason, DecisionAt(c, events, i).action, events[i].clock)
  }

  /** The panel counts all rejected orders and lists the newest five, each with its number, the broker's reason, the
      side that was executed and the time of its event. */
  predicate Listed(c: Config, events: seq<Event>, r: Rejections) {
    && r.count == |Rejecting(events)|
    && |r.recent| == (if r.count < 5 then r.count else 5)
    && forall i :: 0 <= i < |r.recent| ==> Lists(c, events, r.recent[i], r.count - |r.recent| + i)
  }

  predicate Lists(c: Config, events: seq<Event>, x: Rejection, n: nat) {
    n < |Rejecting(events)| && x == RejectionOf(c, events, Rejecting(events)[n], n + 1)
  }

  lemma {:induction false} SameRejections(c: Config, events: seq<Event>, n: nat)
    requires events != [] && n < |Rejecting(Init(events))|
    ensures var d, p := Rejecting(events), Rejecting(Init(events));
            && n < |d| && d[n] == p[n]
            && RejectionOf(c, events, d[n], n + 1) == RejectionOf(c, Init(events), p[n], n + 1)
  {
    SamePrefix(c, events, Rejecting(Init(events))[n]);
  }

  lemma {:induction false} StillLists(c: Config, events: seq<Event>, x: Rejection, n: nat)
    requires events != [] && Lists(c, Init(events), x, n)
    ensures Lists(c, events, x, n)
  {
    SameRejections(c, events, n);
  }

  lemma {:induction false} ListedSame(c: Config, events: seq<Event>, r: Rejections)
    requires events != [] && Listed(c, Init(events), r) && |Rejecting(events)| == |Rejecting(Init(events))|
    ensures Listed(c, events, r)
  {
    forall i | 0 <= i < |r.recent| ensures Lists(c, events, r.recent[i], r.count - |r.recent| + i) {
      StillLists(c, events, r.recent[i], r.count - |r.recent| + i);
    }
  }

  lemma {:induction false} ListsNext(c: Config, events: seq<Event>, r: Rejections, x: Rejection, y: Rejection, j: nat)
    requires events != [] && Listed(c, Init(events), r) && Lists(c, events, x, r.count)
    requires j <= |r.recent| <= r.count && y == if j < |r.recent| then r.recent[j] else x
    ensures Lists(c, events, y, r.count - |r.recent| + j)
  {
    if j < |r.recent| {
      StillLists(c, events, r.recent[j], r.count - |r.recent| + j);
    }
  }

  /** The panel `next` shows the newest five of `recent` and `x`. */
  predicate Panel(recent: seq<Rejection>, x: Rejection, next: seq<Rejection>) {
    && |next| == (if |recent| < 5 then |recent| + 1 else 5)
    && forall i :: 0 <= i < |next| ==> PanelEntry(recent, x, next, i)
  }

  predicate PanelEntry(recent: seq<Rejection>, x: Rejection, next: seq<Rejection>, i: nat)
    requires i < |next|
  {
    var j := |recent| + 1 - |next| + i;
    0 <= j <= |recent| && next[i] == if j < |recent| then recent[j] else x
  }

  lemma PanelIsLast(recent: seq<Rejection>, x: Rejection)
    ensures Panel(recent, x, LastN(RECENT, recent + [x]))
  {
    var next := LastN(RECENT, recent + [x]);
    PanelEntryAt(recent, x, next, 0);
    forall i | 0 <= i < |next| ensures PanelEntry(recent, x, next, i) {
      PanelEntryAt(recent, x, next, i);
    }
  }

  lemma PanelEntryAt(recent: seq<Rejection>, x: Rejection, next: seq<Rejection>, i: nat)
    requires next == LastN(RECENT, recent + [x])
    ensures |next| == if |recent| < 5 then |recent| + 1 else 5
    ensures i < |next| ==> PanelEntry(recent, x, next, i)
  {
    LastNExactly(RECENT, recent + [x]);
  }

  lemma {:induction false} ListedMore(c: Config, events: seq<Event>, r: Rejections, x: Rejection, next: seq<Rejection>)
    requires events != [] && Listed(c, Init(events), r) && Panel(r.recent, x, next)
    requires |Rejecting(events)| == r.count + 1 && Lists(c, events, x, r.count)
    ensures Listed(c, events, Rejections(next, r.count + 1))
  {
    forall i | 0 <= i < |next| ensures Lists(c, events, next[i], r.count + 1 - |next| + i) {
      assert PanelEntry(r.recent, x, next, i);
      ListsNext(c, events, r, x, next[i], |r.recent| + 1 - |next| + i);
    }
  }

  lemma {:induction false} ListedNext(c: Config, events: seq<Event>, r: Rejections)
    requires events != [] && Listed(c, Init(events), r)
    ensures var ev := Last(events);
            if Decides(ev) then
              var x := DecisionAt(c, events, |events| - 1);
              Listed(c, events, WithRejection(r, ev.order, x.action, ev.clock))
            else Listed(c, events, r)
  {
    var ev := Last(events);
    if Decides(ev) && ev.order.Rejected? {
      var x := RejectionOf(c, events, |events| - 1, r.count + 1);
      PanelIsLast(r.recent, x);
      ListedMore(c, events, r, x, LastN(RECENT, r.recent + [x]));
    } else {
      ListedSame(c, events, r);
    }
  }

  lemma {:induction false} RejectionNow(c: Config, s: Loop, events: seq<Event>)
    requires events != [] && Alive(Init(events)) && Fields(c, s, Init(events))
    ensures var ev, next := Last(events), Step(c, s, Last(events)).rejections;
            next == if Decides(ev) then
                      WithRejection(s.rejections, ev.order, DecisionAt(c, events, |events| - 1).action, ev.clock)
                    else s.rejections
  {
    assert events[..|events|] == events;
    if Last(events).Tick? {
      CheckExactly(c, s, events);
    }
  }

  /** Over every run the panel lists the rejected orders of the events. */
  lemma {:induction false} RejectionsExactly(c: Config, monotonic: real, events: seq<Event>)
    requires Live(events)
    ensures Listed(c, events, Session(c, FreshSession(monotonic), events).rejections)
  {
    if events != [] {
      var p := Init(events);
      AliveIsLive(p);
      RejectionsExactly(c, monotonic, p);
      DecisionsExactly(c, monotonic, p);
      var s := Session(c, FreshSession(monotonic), p);
      RejectionNow(c, s, events);
      ListedNext(c, events, s.rejections);
    }
  }

  function GhostsIn(events: seq<Event>): nat {
    if events == [] then 0
    else GhostsIn(Init(events)) + if Decides(Last(events)) && Last(events).Heartbeat? then 1 else 0
  }

  function GhostOrdersIn(events: seq<Event>): nat {
    if events == [] then 0
    else
      var ev := Last(events);
      GhostOrdersIn(Init(events)) + if Decides(ev) && ev.Heartbeat? && !ev.order.NoOrder? then 1 else 0
  }

  lemma GhostStep(c: Config, s: Loop, ev: Event)
    requires s.running
    ensures var next := Step(c, s, ev);
            if Decides(ev) && ev.Heartbeat? then
              && next.ghostPasses == s.ghostPasses + 1
              && next.ghostActions == s.ghostActions + if ev.order.NoOrder? then 0 else 1
            else next.ghostPasses == s.ghostPasses && next.ghostActions == s.ghostActions
  {
  }

  /** Every ghost decision is a ghost pass, and those that came back with an order are ghost actions. */
  lemma {:induction false} GhostsExactly(c: Config, monotonic: real, events: seq<Event>)
    requires Live(events)
    ensures var s := Session(c, FreshSession(monotonic), events);
            s.ghostPasses == GhostsIn(events) && s.ghostActions == GhostOrdersIn(events)
  {
    if events != [] {
      var p := Init(events);
      AliveIsLive(p);
      GhostsExactly(c, monotonic, p);
      RunningExactly(c, monotonic, p);
      GhostStep(c, Session(c, FreshSession(monotonic), p), Last(events));
    }
  }

  /** The value, and the loss in percent of its base if a limit is set, never below zero. */
  predicate Shows(c: Config, b: Breaker, value: real, base: real) {
    && b.value == value
    && if c.safety.maxDrawdownPct > 0.0 && base > 0.0 then
         b.drawdownPct * base == if value < base then (base - value) * 100.0 else 0.0
       else b.drawdownPct == 0.0
  }

  /** What the panel shows of the breaker after a checked tick. */
  lemma {:induction false} BreakerShows(c: Config, monotonic: real, events: seq<Event>)
    requires events != [] && Live(events) && Last(events).Tick? && c.safety.enabled
    ensures Shows(c, Session(c, FreshSession(monotonic), events).breaker, CheckedValue(c, Last(events)),
              LossBase(c, events))
  {
    var p := Init(events);
    AliveIsLive(p);
    DecisionsExactly(c, monotonic, p);
    var s := Session(c, FreshSession(monotonic), p);
    BreakerNow(c, s, events);
    assert Session(c, FreshSession(monotonic), events) == Step(c, s, Last(events));
    CheckShows(c, Enter(c, s, Last(events)).breaker, CheckedValue(c, Last(events)), LossBase(c, events));
  }

  lemma {:induction false} BreakerNow(c: Config, s: Loop, events: seq<Event>)
    requires events != [] && Last(events).Tick? && Alive(Init(events)) && Fields(c, s, Init(events))
    ensures var ev := Last(events);
            Step(c, s, ev).breaker ==
              Checked(c, Enter(c, s, ev).breaker, CheckedValue(c, ev), LossBase(c, events))
  {
    NoTickNoEquity(Init(events));
    assert Baseline(c, Enter(c, s, Last(events)), Last(events)) == LossBase(c, events);
  }

  lemma CheckShows(c: Config, before: Breaker, value: real, base: real)
    requires c.safety.enabled
    ensures Shows(c, Checked(c, before, value, base), value, base)
  {
    if base > 0.0 {
      DrawdownExactly(value, base, 0.0);
    }
  }

  // ---- what the monitor measures ------------------------------------------------------------------

  /** A tick's arrival stamp: the collection time if it has one. */
  function Stamp(ev: Event): int
    requires ev.Tick?
  {
    if ev.collectedMsc > 0 then ev.collectedMsc else ev.timeMsc
  }

  /** The last positive stamp, 0 if there is none. */
  function LastStamp(events: seq<Event>): int {
    if events == [] then 0
    else if Last(events).Tick? && Stamp(Last(events)) > 0 then Stamp(Last(events))
    else LastStamp(Init(events))
  }

  /** The milliseconds from the last stamp to the tick that follows `before`; 0 if unknown or not positive. */
  function GapMs(before: seq<Event>, ev: Event): real
    requires ev.Tick?
  {
    var gap := Stamp(ev) - LastStamp(before);
    if LastStamp(before) > 0 && gap > 0 then gap as real else 0.0
  }

  /** What the monitor is told: each tick that did not end the session is timed against its gap, with the depth of the
      queue behind it, and then asked for a report. */
  function Measurements(events: seq<Event>): seq<Op> {
    if events == [] then []
    else if Last(events).Tick? && !Last(events).sessionEnd then
      var ev, p := Last(events), Init(events);
      Measurements(p) + [RecordTick(ev.elapsedNs, GapMs(p, ev)), RecordQueueDepth(ev.queueDepth), Poll(ev.monotonic)]
    else Measurements(Init(events))
  }

  lemma {:induction false} RunThree(m: Monitor, ops: seq<Op>, a: Op, b: Op, d: Op, every: real)
    requires !a.Poll? && !b.Poll?
    ensures RunOps(m, ops + [a, b, d], every) ==
              Apply(Apply(Apply(RunOps(m, ops, every), a, every), b, every), d, every)
    ensures Reports(m, ops + [a, b, d], every) ==
              Reports(m, ops, every) + Emitted(Apply(Apply(RunOps(m, ops, every), a, every), b, every), d, every)
  {
    var one, two, three := ops + [a], ops + [a, b], ops + [a, b, d];
    assert Init(one) == ops && Init(two) == one && Init(three) == two;
    assert Last(one) == a && Last(two) == b && Last(three) == d;
    assert Reports(m, one, every) == Reports(m, ops, every);
    assert Reports(m, two, every) == Reports(m, ops, every);
  }

  ghost predicate Measuring(c: Config, s: Loop, monotonic: real, events: seq<Event>) {
    && s.prevMsc == LastStamp(events)
    && s.monitor == RunOps(ClippingMonitors.Started(monotonic), Measurements(events), c.reportEvery)
    && s.reports == Reports(ClippingMonitors.Started(monotonic), Measurements(events), c.reportEvery)
  }

  lemma {:induction false} MeasuringStep(c: Config, s: Loop, monotonic: real, events: seq<Event>)
    requires events != [] && s.running && Measuring(c, s, monotonic, Init(events))
    ensures Measuring(c, Step(c, s, Last(events)), monotonic, events)
  {
    var ev, p, m := Last(events), Init(events), ClippingMonitors.Started(monotonic);
    if ev.Tick? && !ev.sessionEnd {
      assert DeltaMs(s, ev) == GapMs(p, ev);
      RunThree(m, Measurements(p), RecordTick(ev.elapsedNs, GapMs(p, ev)), RecordQueueDepth(ev.queueDepth),
               Poll(ev.monotonic), c.reportEvery);
    }
  }

  /** Over every run the monitor holds what these measurements leave, and the session's reports are the ones they
      emit. */
  lemma {:induction false} MonitorSeesTicks(c: Config, monotonic: real, events: seq<Event>)
    requires Live(events)
    ensures Measuring(c, Session(c, FreshSession(monotonic), events), monotonic, events)
  {
    if events != [] {
      var p := Init(events);
      AliveIsLive(p);
      MonitorSeesTicks(c, monotonic, p);
      RunningExactly(c, monotonic, p);
      MeasuringStep(c, Session(c, FreshSession(monotonic), p), monotonic, events);
    }
  }

  // ---- when the market is stale -------------------------------------------------------------------

  /** The wall time at which the last tick was done, 0 before the first. */
  function LastWall(events: seq<Event>): real {
    if events == [] then 0.0
    else if Last(events).Tick? && !Last(events).sessionEnd then Last(events).wall
    else LastWall(Init(events))
  }

  /** The highest reconnect count that a pulse has seen. */
  function MostReconnects(events: seq<Event>): nat {
    if events == [] then 0
    else
      var ev, most := Last(events), MostReconnects(Init(events));
      if ev.Heartbeat? && !ev.exhausted && ev.reconnects > most then ev.reconnects else most
  }

  /** A pulse that comes later after the last tick than allowed. */
  predicate Late(c: Config, events: seq<Event>, ev: Event)
    requires ev.Heartbeat?
  {
    c.staleAfter > 0.0 && LastWall(events) > 0.0 && ev.wall > LastWall(events) + c.staleAfter
  }

  predicate Outstanding(signals: seq<Signal>) {
    signals != [] && Last(signals).StaleBeat?
  }

  lemma {:induction false} StaleIsOutstanding(s: Loop)
    requires Staleness(s)
    ensures s.market.stale <==> Outstanding(s.signals)
  {
    if s.signals != [] {
      PrefixUnbroken(s.signals, |s.signals| - 1);
      assert s.signals[..|s.signals| - 1] == Init(s.signals);
    }
  }

  ghost predicate Timed(s: Loop, events: seq<Event>) {
    s.market.lastWall == LastWall(events) && s.market.reconnects == MostReconnects(events)
  }

  lemma {:induction false} TimedStep(c: Config, s: Loop, events: seq<Event>)
    requires events != [] && s.running && Timed(s, Init(events))
    ensures Timed(Step(c, s, Last(events)), events)
  {
  }

  lemma {:induction false} TimedAlways(c: Config, monotonic: real, events: seq<Event>)
    requires Live(events)
    ensures Timed(Session(c, FreshSession(monotonic), events), events)
  {
    if events != [] {
      var p := Init(events);
      AliveIsLive(p);
      TimedAlways(c, monotonic, p);
      RunningExactly(c, monotonic, p);
      TimedStep(c, Session(c, FreshSession(monotonic), p), events);
    }
  }

  /** The signal of a late pulse: it tells the time since the last tick and the reconnects so far, and it is the one
      that fires the hook and begins the outage exactly if no outage is outstanding. */
  predicate TellsOutage(c: Config, events: seq<Event>, ev: Event, before: seq<Signal>, x: Signal)
    requires ev.Heartbeat?
  {
    && x.StaleBeat? && x.status.isStale
    && x.status.secondsSinceTick == ev.wall - LastWall(events)
    && x.status.reconnects == MostReconnects(events + [ev])
    && (x.hookFired <==> !Outstanding(before))
    && (x.hookFired ==> x.status.staleSince == Some(ev.clock))
  }

  /** In every run that still goes on, an idle pulse signals an outage exactly when it is late. */
  lemma {:induction false} StaleExactly(c: Config, monotonic: real, events: seq<Event>, ev: Event)
    requires Alive(events) && ev.Heartbeat? && !ev.exhausted
    ensures var before := Session(c, FreshSession(monotonic), events).signals;
            var after := Session(c, FreshSession(monotonic), events + [ev]).signals;
            if Late(c, events, ev) then
              |after| == |before| + 1 && Init(after) == before && TellsOutage(c, events, ev, before, Last(after))
            else after == before
  {
    var more := events + [ev];
    assert Init(more) == events && Last(more) == ev;
    var s := Session(c, FreshSession(monotonic), events);
    RunningExactly(c, monotonic, events);
    AliveIsLive(events);
    TimedAlways(c, monotonic, events);
    StalenessAgrees(c, monotonic, events);
    StaleIsOutstanding(s);
    PulseSignals(c, s, ev);
  }

  lemma {:induction false} PulseSignals(c: Config, s: Loop, ev: Event)
    requires s.running && ev.Heartbeat? && !ev.exhausted
    ensures Step(c, s, ev).signals == s.signals + BeatSignals(s.market, c.staleAfter, ev.clock, ev.wall, ev.reconnects)
  {
  }

  /** A tick signals its arrival, and that it ends an outage exactly if one is outstanding; then the executor's status
      is fresh again, with the reconnects so far. */
  lemma {:induction false} RecoveryExactly(c: Config, monotonic: real, events: seq<Event>, ev: Event)
    requires Alive(events) && ev.Tick?
    ensures var before, after := Session(c, FreshSession(monotonic), events),
              Session(c, FreshSession(monotonic), events + [ev]);
            && after.signals == before.signals + [TickSeen(ev.clock, Outstanding(before.signals))]
            && after.market.status ==
                 if Outstanding(before.signals) then Status(false, None, 0.0, MostReconnects(events))
                 else before.market.status
  {
    AliveIsLive(events);
    TimedAlways(c, monotonic, events);
    var more := events + [ev];
    assert Init(more) == events && Last(more) == ev;
    RunningExactly(c, monotonic, events);
    StalenessAgrees(c, monotonic, events);
    StaleIsOutstanding(Session(c, FreshSession(monotonic), events));
  }
}
