/** The live tick loop as a state machine over its events: ticks, idle heartbeats, the end-of-stream sentinel and a
    stop request. What the executor, the decision logic and the clocks answer is part of the event. */
module TickLoops {
  import opened Prelude
  import opened ClippingMonitors
  import opened MarketData

  datatype Action = Buy | Sell | Flat

  datatype Safety = Safety(enabled: bool, minBalance: real, minEquity: real, maxDrawdownPct: real)

  datatype Config = Config(spot: bool, safety: Safety, staleAfter: real, reportEvery: real)

  /** The order result of an executed decision. */
  datatype Order = NoOrder | Accepted | Rejected(reason: string)

  datatype Event =
    | Tick(timeMsc: int, collectedMsc: int, clock: int, action: Action, firstEquity: real, equity: real, balance: real,
           initialBalance: real, order: Order, sessionEnd: bool, elapsedNs: nat, queueDepth: nat, monotonic: real,
           wall: real)
    | Heartbeat(exhausted: bool, clock: int, wall: real, reconnects: nat, ghostDecision: Option<Action>, order: Order,
                sessionEnd: bool)
    | Sentinel
    | Stop

  // ---- circuit breaker --------------------------------------------------------------------------

  datatype Breaker = Breaker(blocked: bool, value: real, drawdownPct: real)

  function MinThreshold(c: Config): real {
    if c.spot then c.safety.minEquity else c.safety.minBalance
  }

  function Drawdown(value: real, baseline: real): real
    requires baseline > 0.0
  {
    (baseline - value) / baseline * 100.0
  }

  /** The value breaks an enabled threshold. */
  predicate Violates(c: Config, value: real, baseline: real) {
    || (MinThreshold(c) > 0.0 && value < MinThreshold(c))
    || (c.safety.maxDrawdownPct > 0.0 && baseline > 0.0 && Drawdown(value, baseline) > c.safety.maxDrawdownPct)
  }

  function Checked(c: Config, b: Breaker, value: real, baseline: real): Breaker {
    if !c.safety.enabled then b
    else
      Breaker(Violates(c, value, baseline), value,
              if c.safety.maxDrawdownPct > 0.0 && baseline > 0.0 then MaxReal(0.0, Drawdown(value, baseline)) else 0.0)
  }

  // ---- rejections -------------------------------------------------------------------------------

  datatype Rejection = Rejection(number: nat, reason: string, side: Action, clock: int)

  datatype Rejections = Rejections(recent: seq<Rejection>, count: nat)

  const RECENT: nat := 5

  function WithRejection(r: Rejections, order: Order, side: Action, clock: int): Rejections {
    if order.Rejected? then
      Rejections(LastN(RECENT, r.recent + [Rejection(r.count + 1, order.reason, side, clock)]), r.count + 1)
    else r
  }

  /** The panel holds the newest five rejections, consecutively numbered up to the count. */
  predicate Numbered(r: Rejections) {
    && |r.recent| == (if r.count < RECENT then r.count else RECENT)
    && forall i :: 0 <= i < |r.recent| ==> r.recent[i].number == r.count - |r.recent| + 1 + i
  }

  lemma RejectionNumbers(r: Rejections, order: Order, side: Action, clock: int)
    requires Numbered(r)
    ensures Numbered(WithRejection(r, order, side, clock))
  {
  }

  // ---- the loop ---------------------------------------------------------------------------------

  /** A decision handed to the decision logic for execution, and whether the breaker was set then. */
  datatype Execution = Execution(action: Action, blocked: bool, onTick: bool)

  datatype Loop = Loop(
    running: bool,
    endedOnTick: bool,        // a session end requested on the tick path broke the loop
    ticksProcessed: nat,
    ticksClipped: nat,
    prevMsc: int,
    market: Market,
    tracker: Tracker,
    breaker: Breaker,
    initialSpotEquity: real,
    ghostPasses: nat,
    ghostActions: nat,
    rejections: Rejections,
    monitor: Monitor,
    signals: seq<Signal>,     // the staleness contract as observed
    executions: seq<Execution>,
    reports: seq<Report>)

  function FreshSession(monotonic: real): Loop {
    Loop(true, false, 0, 0, 0, Market(false, None, FRESH, 0, 0.0), NO_EPISODES, Breaker(false, 0.0, 0.0), 0.0, 0, 0,
         Rejections([], 0), ClippingMonitors.Started(monotonic), [], [], [])
  }

  function CurrentMsc(ev: Event): int
    requires ev.Tick?
  {
    if ev.collectedMsc > 0 then ev.collectedMsc else ev.timeMsc
  }

  /** Time since the previous tick, 0 when unknown or not positive. */
  function DeltaMs(s: Loop, ev: Event): real
    requires ev.Tick?
  {
    if s.prevMsc > 0 && CurrentMsc(ev) > s.prevMsc then (CurrentMsc(ev) - s.prevMsc) as real else 0.0
  }

  /** The tick enters: counters, recovery from an outage, the observer, the equity baseline of the first tick. */
  function Enter(c: Config, s: Loop, ev: Event): Loop
    requires ev.Tick?
  {
    var signal := TickSeen(ev.clock, s.market.stale);
    s.(ticksProcessed := s.ticksProcessed + 1,
       prevMsc := if CurrentMsc(ev) > 0 then CurrentMsc(ev) else s.prevMsc,
       market := Arrive(s.market),
       tracker := ObserveTick(s.tracker, ev.clock, Arrive(s.market).status.isStale),
       initialSpotEquity := if s.ticksProcessed == 0 && c.spot then ev.firstEquity else s.initialSpotEquity,
       signals := s.signals + [signal])
  }

  function SafetyValue(c: Config, ev: Event): real
    requires ev.Tick?
  {
    if c.spot then ev.equity else ev.balance
  }

  function Baseline(c: Config, s: Loop, ev: Event): real
    requires ev.Tick?
  {
    if c.spot && s.initialSpotEquity > 0.0 then s.initialSpotEquity else ev.initialBalance
  }

  /** Execute a decision: FLAT while the breaker is set. */
  function Execute(s: Loop, action: Action, order: Order, clock: int, onTick: bool): Loop {
    var final := if s.breaker.blocked then Flat else action;
    s.(executions := s.executions + [Execution(final, s.breaker.blocked, onTick)],
       rejections := WithRejection(s.rejections, order, final, clock))
  }

  /** Safety check and order execution. */
  function Decide(c: Config, s: Loop, ev: Event): Loop
    requires ev.Tick?
  {
    var checked := s.(breaker := Checked(c, s.breaker, SafetyValue(c, ev), Baseline(c, s, ev)));
    Execute(checked, ev.action, ev.order, ev.clock, true)
  }

  function Measured(m: Monitor, ev: Event, delta: real, every: real): Monitor
    requires ev.Tick?
  {
    Apply(Apply(m, RecordTick(ev.elapsedNs, delta), every), RecordQueueDepth(ev.queueDepth), every)
  }

  /** The clipping monitor, its periodic report, and the wall time of the finished tick. */
  function Finish(c: Config, s: Loop, ev: Event, delta: real): Loop
    requires ev.Tick?
  {
    var m := Measured(s.monitor, ev, delta, c.reportEvery);
    var report := Emitted(m, Poll(ev.monotonic), c.reportEvery);
    s.(monitor := Apply(m, Poll(ev.monotonic), c.reportEvery),
       reports := s.reports + report,
       ticksClipped := s.ticksClipped + (if report == [] then 0 else report[0].clipped),
       market := s.market.(lastWall := ev.wall))
  }

  function OnTick(c: Config, s: Loop, ev: Event): Loop
    requires ev.Tick?
  {
    var decided := Decide(c, Enter(c, s, ev), ev);
    if ev.sessionEnd then decided.(running := false, endedOnTick := true)
    else Finish(c, decided, ev, DeltaMs(s, ev))
  }

  /** The idle evaluation of the last tick's age. */
  function Evaluate(c: Config, s: Loop, ev: Event): Loop
    requires ev.Heartbeat?
  {
    var signals := BeatSignals(s.market, c.staleAfter, ev.clock, ev.wall, ev.reconnects);
    s.(market := Beat(s.market, c.staleAfter, ev.clock, ev.wall, ev.reconnects),
       tracker := if signals == [] then s.tracker else ObserveBeat(s.tracker, ev.clock, true),
       signals := s.signals + signals)
  }

  /** The ghost pass: an opt-in decision between ticks, under the last evaluated breaker. */
  function GhostPass(s: Loop, ev: Event): Loop
    requires ev.Heartbeat?
  {
    if ev.ghostDecision.None? then s
    else
      Execute(s, ev.ghostDecision.value, ev.order, ev.clock, false)
        .(ghostPasses := s.ghostPasses + 1, ghostActions := s.ghostActions + (if ev.order.NoOrder? then 0 else 1))
  }

  function OnHeartbeat(c: Config, s: Loop, ev: Event): Loop
    requires ev.Heartbeat?
  {
    if ev.exhausted then s.(running := false)
    else
      var passed := GhostPass(Evaluate(c, s, ev), ev);
      if ev.sessionEnd then passed.(running := false) else passed
  }

  /** One iteration of the loop; once it has ended, nothing happens any more. */
  function Step(c: Config, s: Loop, ev: Event): Loop {
    if !s.running then s
    else match ev
      case Tick(_, _, _, _, _, _, _, _, _, _, _, _, _, _) => OnTick(c, s, ev)
      case Heartbeat(_, _, _, _, _, _, _) => OnHeartbeat(c, s, ev)
      case Sentinel => s.(running := false)
      case Stop => s.(running := false)
  }

  function Session(c: Config, s: Loop, events: seq<Event>): Loop {
    if events == [] then s else Step(c, Session(c, s, Init(events)), Last(events))
  }

  // ---- what every run keeps ---------------------------------------------------------------------

  /** The loop's counters and its monitor's. */
  predicate Balanced(s: Loop) {
    && s.ticksClipped + s.monitor.interval.clipped == s.monitor.session.clipped
    && s.ticksProcessed == s.monitor.session.ticks + (if s.endedOnTick then 1 else 0)
    && (s.endedOnTick ==> !s.running)
  }

  ghost predicate Counted(s: Loop) {
    Conserved(s.monitor, s.reports) && Balanced(s)
  }

  /** Flag, executor status and observer agree with the signals. */
  ghost predicate Staleness(s: Loop) {
    && InPhase(s.market, s.signals)
    && MarketData.Recorded(s.tracker, s.signals)
    && TickCount(s.signals) == s.ticksProcessed
    && (s.market.lastWall > 0.0 ==> LastTick(s.signals).Some?)
  }

  /** Every decision executed while the breaker was set is FLAT; without safety checks it is never set. */
  ghost predicate Guarded(c: Config, s: Loop) {
    && (forall x :: x in s.executions && x.blocked ==> x.action == Flat)
    && (!c.safety.enabled ==> !s.breaker.blocked)
  }

  lemma FinishCounts(c: Config, s: Loop, ev: Event, delta: real)
    requires ev.Tick? && !s.endedOnTick && Conserved(s.monitor, s.reports)
    requires s.ticksClipped + s.monitor.interval.clipped == s.monitor.session.clipped
    requires s.ticksProcessed == s.monitor.session.ticks + 1
    ensures Counted(Finish(c, s, ev, delta))
  {
    var every, tick, depth := c.reportEvery, RecordTick(ev.elapsedNs, delta), RecordQueueDepth(ev.queueDepth);
    var m1 := Apply(s.monitor, tick, every);
    ApplyConserves(s.monitor, s.reports, tick, every);
    assert s.reports + [] == s.reports;
    ApplyConserves(m1, s.reports, depth, every);
    ApplyConserves(Apply(m1, depth, every), s.reports, Poll(ev.monotonic), every);
  }

  lemma StepCounts(c: Config, s: Loop, ev: Event)
    requires Counted(s)
    ensures Counted(Step(c, s, ev))
  {
    if s.running && ev.Tick? && !ev.sessionEnd {
      FinishCounts(c, Decide(c, Enter(c, s, ev), ev), ev, DeltaMs(s, ev));
    }
  }

  lemma EnterStaleness(c: Config, s: Loop, ev: Event)
    requires ev.Tick? && Staleness(s)
    ensures Staleness(Enter(c, s, ev))
  {
    var signal := TickSeen(ev.clock, s.market.stale);
    ArriveKeepsPhase(s.market, s.signals, ev.clock);
    FollowRecords(s.tracker, s.signals, ev.clock, signal);
    assert Init(s.signals + [signal]) == s.signals;
  }

  lemma EvaluateStaleness(c: Config, s: Loop, ev: Event)
    requires ev.Heartbeat? && Staleness(s)
    ensures Staleness(Evaluate(c, s, ev))
  {
    BeatKeepsPhase(s.market, s.signals, c.staleAfter, ev.clock, ev.wall, ev.reconnects);
    var signals := BeatSignals(s.market, c.staleAfter, ev.clock, ev.wall, ev.reconnects);
    if signals != [] {
      FollowRecords(s.tracker, s.signals, ev.clock, signals[0]);
      assert Init(s.signals + signals) == s.signals;
    } else {
      assert s.signals + signals == s.signals;
    }
  }

  lemma StepStaleness(c: Config, s: Loop, ev: Event)
    requires Staleness(s)
    ensures Staleness(Step(c, s, ev))
  {
    if s.running && ev.Tick? {
      EnterStaleness(c, s, ev);
      assert LastTick(Enter(c, s, ev).signals).Some?;
    } else if s.running && ev.Heartbeat? {
      EvaluateStaleness(c, s, ev);
    }
  }

  lemma ExecuteGuards(c: Config, s: Loop, action: Action, order: Order, clock: int, onTick: bool)
    requires Guarded(c, s) && Numbered(s.rejections)
    ensures Guarded(c, Execute(s, action, order, clock, onTick))
    ensures Numbered(Execute(s, action, order, clock, onTick).rejections)
  {
    RejectionNumbers(s.rejections, order, if s.breaker.blocked then Flat else action, clock);
  }

  lemma CheckGuards(c: Config, s: Loop, b: Breaker)
    requires Guarded(c, s) && (c.safety.enabled || b == s.breaker)
    ensures Guarded(c, s.(breaker := b))
  {
  }

  lemma StepGuards(c: Config, s: Loop, ev: Event)
    requires Guarded(c, s) && Numbered(s.rejections)
    ensures Guarded(c, Step(c, s, ev)) && Numbered(Step(c, s, ev).rejections)
  {
    if s.running && ev.Tick? {
      var e := Enter(c, s, ev);
      var b := Checked(c, e.breaker, SafetyValue(c, ev), Baseline(c, e, ev));
      CheckGuards(c, e, b);
      ExecuteGuards(c, e.(breaker := b), ev.action, ev.order, ev.clock, true);
    } else if s.running && ev.Heartbeat? && ev.ghostDecision.Some? {
      ExecuteGuards(c, Evaluate(c, s, ev), ev.ghostDecision.value, ev.order, ev.clock, false);
    }
  }

  // ---- over every run from a fresh session ------------------------------------------------------

  /** Session totals are the emitted reports plus the pending interval; the loop's clipped count plus the pending
      clipped ticks is the monitor's; and the loop has counted one tick more than the monitor exactly when a session
      end requested on the tick path broke it. */
  lemma {:induction false} CountersBalance(c: Config, monotonic: real, events: seq<Event>)
    ensures Counted(Session(c, FreshSession(monotonic), events))
  {
    if events == [] {
      assert Balanced(FreshSession(monotonic));
      StartConserves(FreshSession(monotonic).monitor, monotonic, FreshSession(monotonic).reports);
    } else {
      CountersBalance(c, monotonic, Init(events));
      StepCounts(c, Session(c, FreshSession(monotonic), Init(events)), Last(events));
    }
  }

  lemma StartStaleness(s: Loop, monotonic: real)
    requires s == FreshSession(monotonic)
    ensures Staleness(s)
  {
    assert s.signals == [];
  }

  /** After every event the executor's status agrees with the loop's flag and the observer's record with both. */
  lemma {:induction false} StalenessAgrees(c: Config, monotonic: real, events: seq<Event>)
    ensures Staleness(Session(c, FreshSession(monotonic), events))
  {
    if events == [] {
      StartStaleness(Session(c, FreshSession(monotonic), events), monotonic);
    } else {
      StalenessAgrees(c, monotonic, Init(events));
      StepStaleness(c, Session(c, FreshSession(monotonic), Init(events)), Last(events));
    }
  }

  /** In every run the stale hook has fired once for every outage that ended and once for one still open. */
  lemma OneHookPerOutage(c: Config, monotonic: real, events: seq<Event>)
    ensures var s := Session(c, FreshSession(monotonic), events);
            Hooks(s.signals) == Recoveries(s.signals) + (if s.market.stale then 1 else 0)
  {
    StalenessAgrees(c, monotonic, events);
    OneHookPerEpisode(Session(c, FreshSession(monotonic), events).signals);
  }

  /** In every run a processed tick lies between any two firings of the hook. */
  lemma TickBetweenStaleHooks(c: Config, monotonic: real, events: seq<Event>, i: nat, j: nat)
    requires var signals := Session(c, FreshSession(monotonic), events).signals;
             && i < j < |signals|
             && signals[i].StaleBeat? && signals[i].hookFired && signals[j].StaleBeat? && signals[j].hookFired
    ensures exists k :: i < k < j && Session(c, FreshSession(monotonic), events).signals[k].TickSeen?
  {
    StalenessAgrees(c, monotonic, events);
    TickBetweenHooks(Session(c, FreshSession(monotonic), events).signals, i, j);
  }

  /** In every run all heartbeats of one outage hand the executor the same start. */
  lemma OutageStartIsConstant(c: Config, monotonic: real, events: seq<Event>, i: nat, j: nat)
    requires var signals := Session(c, FreshSession(monotonic), events).signals;
             && i < j < |signals| && NoTickBetween(signals, i, j)
             && signals[i].StaleBeat? && signals[j].StaleBeat?
    ensures var signals := Session(c, FreshSession(monotonic), events).signals;
            signals[i].status.staleSince == signals[j].status.staleSince && !signals[j].hookFired
  {
    StalenessAgrees(c, monotonic, events);
    EpisodeIsUniform(Session(c, FreshSession(monotonic), events).signals, i, j);
  }

  /** In every run each decision executed while the breaker is set is FLAT, on ticks and on ghost passes. */
  lemma {:induction false} BlockedDecisionsAreFlat(c: Config, monotonic: real, events: seq<Event>)
    ensures Guarded(c, Session(c, FreshSession(monotonic), events))
    ensures Numbered(Session(c, FreshSession(monotonic), events).rejections)
  {
    if events != [] {
      BlockedDecisionsAreFlat(c, monotonic, Init(events));
      StepGuards(c, Session(c, FreshSession(monotonic), Init(events)), Last(events));
    }
  }

  /** After a processed tick the breaker is set exactly when that tick's value breaks an enabled threshold, whatever
      happened before; a heartbeat leaves it as it is. */
  lemma BreakerFollowsLastTick(c: Config, monotonic: real, events: seq<Event>, ev: Event)
    requires Session(c, FreshSession(monotonic), events).running
    ensures var s := Session(c, FreshSession(monotonic), events);
            && (ev.Tick? ==> (Step(c, s, ev).breaker.blocked <==>
                              c.safety.enabled && Violates(c, SafetyValue(c, ev), Baseline(c, Enter(c, s, ev), ev))))
            && (!ev.Tick? ==> Step(c, s, ev).breaker == s.breaker)
  {
    BlockedDecisionsAreFlat(c, monotonic, events);
  }

  // ---- the object -------------------------------------------------------------------------------

  class AutotraderTickLoop {
    const config: Config
    const clippingMonitor: LiveClippingMonitor
    var running: bool
    var market: Market
    var tracker: Tracker
    var breaker: Breaker
    var initialSpotEquity: real
    var ghostPasses: nat
    var ghostActions: nat
    var rejections: Rejections
    ghost var signals: seq<Signal>
    ghost var executions: seq<Execution>

    constructor (config: Config, monitor: LiveClippingMonitor)
      requires monitor.reportIntervalS == config.reportEvery
      ensures this.config == config && clippingMonitor == monitor
      ensures Core() == FreshSession(0.0).(running := false, monitor := Core().monitor)
    {
      this.config, clippingMonitor, running := config, monitor, false;
      market, tracker, breaker := Market(false, None, FRESH, 0, 0.0), NO_EPISODES, Breaker(false, 0.0, 0.0);
      initialSpotEquity, ghostPasses, ghostActions, rejections := 0.0, 0, 0, Rejections([], 0);
      signals, executions := [], [];
    }

    /** The loop's fields; the counters that are local to a run are 0 here. */
    ghost function Core(): Loop
      reads this, clippingMonitor
    {
      Loop(running, false, 0, 0, 0, market, tracker, breaker, initialSpotEquity, ghostPasses, ghostActions, rejections,
           clippingMonitor.State(), signals, executions, [])
    }

    /** The state of a run: the fields and the run's local counters. */
    ghost function State(ended: bool, processed: nat, clipped: nat, prevMsc: int, reports: seq<Report>): Loop
      reads this, clippingMonitor
    {
      Core().(endedOnTick := ended, ticksProcessed := processed, ticksClipped := clipped, prevMsc := prevMsc,
              reports := reports)
    }

    /** Ending an episode is what an arriving tick does to a stale market: flag and status agree on fresh again. */
    method EndMarketStaleEpisode()
      requires market.stale
      modifies this`market
      ensures market == Arrive(old(market)) && Agrees(market) && !market.stale
    {
      market := market.(stale := false, since := None);
      market := market.(status := Status(false, None, 0.0, market.reconnects));
    }

    method EvaluateMarketDataStaleness(clock: int, wall: real, reconnects: nat)
      modifies this`market, this`tracker, this`signals
      ensures market == Beat(old(market), config.staleAfter, clock, wall, reconnects)
      ensures var fired := BeatSignals(old(market), config.staleAfter, clock, wall, reconnects);
              && signals == old(signals) + fired
              && tracker == if fired == [] then old(tracker) else ObserveBeat(old(tracker), clock, true)
    {
      if reconnects > market.reconnects {
        market := market.(reconnects := reconnects);
      }
      if config.staleAfter <= 0.0 {
        return;
      }
      if market.lastWall <= 0.0 {
        return;
      }
      var secondsSince := wall - market.lastWall;
      if secondsSince <= config.staleAfter {
        return;
      }
      var flipped := !market.stale;
      if flipped {
        market := market.(stale := true, since := Some(clock));
      }
      var status := Status(true, market.since, secondsSince, market.reconnects);
      market := market.(status := status);
      tracker := ObserveBeat(tracker, clock, status.isStale);
      signals := signals + [StaleBeat(status, flipped)];
    }

    method CheckSafety(value: real, baseline: real)
      modifies this`breaker
      ensures breaker == Checked(config, old(breaker), value, baseline)
    {
      var safety := config.safety;
      if !safety.enabled {
        return;
      }
      breaker := Breaker(false, value, breaker.drawdownPct);
      var minThreshold := if config.spot then safety.minEquity else safety.minBalance;
      if minThreshold > 0.0 && value < minThreshold {
        breaker := breaker.(blocked := true);
      }
      if safety.maxDrawdownPct > 0.0 && baseline > 0.0 {
        var drawdownPct := (baseline - value) / baseline * 100.0;
        breaker := breaker.(drawdownPct := MaxReal(0.0, drawdownPct));
        if drawdownPct > safety.maxDrawdownPct {
          breaker := breaker.(blocked := true);
        }
      } else {
        breaker := breaker.(drawdownPct := 0.0);
      }
    }

    method RecordRejection(order: Order, side: Action, clock: int)
      modifies this`rejections
      ensures rejections == WithRejection(old(rejections), order, side, clock)
    {
      if !order.Rejected? {
        return;
      }
      var number := rejections.count + 1;
      rejections := Rejections(LastN(RECENT, rejections.recent + [Rejection(number, order.reason, side, clock)]),
        number);
    }

    method ExecuteDecision(action: Action, order: Order, clock: int, onTick: bool)
      modifies this`executions, this`rejections
      ensures Core() == Execute(old(Core()), action, order, clock, onTick)
    {
      var final := if breaker.blocked then Flat else action;
      executions := executions + [Execution(final, breaker.blocked, onTick)];
      RecordRejection(order, final, clock);
    }

    method RunDecisionHeartbeat(ev: Event)
      requires ev.Heartbeat?
      modifies this`executions, this`rejections, this`ghostPasses, this`ghostActions
      ensures Core() == GhostPass(old(Core()), ev)
    {
      if ev.ghostDecision.None? {
        return;
      }
      ghostPasses := ghostPasses + 1;
      ExecuteDecision(ev.ghostDecision.value, ev.order, ev.clock, false);
      if !ev.order.NoOrder? {
        ghostActions := ghostActions + 1;
      }
    }

    /** Recovery, observation and the equity baseline of an arriving tick. */
    method EnterTick(ev: Event, ticksProcessed: nat)
      requires ev.Tick?
      modifies this`market, this`tracker, this`initialSpotEquity, this`signals
      ensures market == Arrive(old(market)) && signals == old(signals) + [TickSeen(ev.clock, old(market).stale)]
      ensures tracker == ObserveTick(old(tracker), ev.clock, market.status.isStale)
      ensures initialSpotEquity == if ticksProcessed == 1 && config.spot then ev.firstEquity else old(initialSpotEquity)
    {
      signals := signals + [TickSeen(ev.clock, market.stale)];
      if market.stale {
        EndMarketStaleEpisode();
      }
      tracker := ObserveTick(tracker, ev.clock, market.status.isStale);
      if ticksProcessed == 1 && config.spot {
        initialSpotEquity := ev.firstEquity;
      }
    }

    /** Safety check and order execution of a tick. */
    method DecideTick(ev: Event)
      requires ev.Tick?
      modifies this`breaker, this`executions, this`rejections
      ensures Core() == Decide(config, old(Core()), ev)
    {
      var value := if config.spot then ev.equity else ev.balance;
      var baseline := if config.spot && initialSpotEquity > 0.0 then initialSpotEquity else ev.initialBalance;
      CheckSafety(value, baseline);
      ExecuteDecision(ev.action, ev.order, ev.clock, true);
    }

    /** Measure the finished tick; the number of clipped ticks in an emitted report is handed back. */
    method FinishTick(ev: Event, deltaMs: real, ghost reports: seq<Report>)
      returns (clipped: nat, ghost reports': seq<Report>)
      requires ev.Tick? && clippingMonitor.reportIntervalS == config.reportEvery
      modifies this`market, clippingMonitor
      ensures var m := Measured(old(clippingMonitor.State()), ev, deltaMs, config.reportEvery);
              var emitted := Emitted(m, Poll(ev.monotonic), config.reportEvery);
              && clippingMonitor.State() == Apply(m, Poll(ev.monotonic), config.reportEvery)
              && reports' == reports + emitted && clipped == (if emitted == [] then 0 else emitted[0].clipped)
      ensures market == old(market).(lastWall := ev.wall)
    {
      clippingMonitor.RecordTick(ev.elapsedNs, deltaMs);
      clippingMonitor.RecordQueueDepth(ev.queueDepth);
      var report := clippingMonitor.GetPeriodicReport(ev.monotonic);
      clipped, reports' := 0, reports;
      if report.Some? {
        clipped, reports' := report.value.clipped, reports + [report.value];
      }
      market := market.(lastWall := ev.wall);
    }

    /** Everything of a tick up to the execution of its decision. */
    method EnterAndDecide(ev: Event, processed: nat, prevMsc: int, ghost clipped: nat, ghost reports: seq<Report>)
      returns (prevMsc': int, deltaMs: real)
      requires ev.Tick?
      modifies this`market, this`tracker, this`initialSpotEquity, this`signals, this`breaker, this`executions,
        this`rejections
      ensures var s := old(State(false, processed, clipped, prevMsc, reports));
              && State(false, processed + 1, clipped, prevMsc', reports) == Decide(config, Enter(config, s, ev), ev)
              && deltaMs == DeltaMs(s, ev)
    {
      ghost var s := State(false, processed, clipped, prevMsc, reports);
      var currentMsc := if ev.collectedMsc > 0 then ev.collectedMsc else ev.timeMsc;
      deltaMs := 0.0;
      if prevMsc > 0 && currentMsc > prevMsc {
        deltaMs := (currentMsc - prevMsc) as real;
      }
      prevMsc' := if currentMsc > 0 then currentMsc else prevMsc;
      EnterTick(ev, processed + 1);
      ghost var e := State(false, processed + 1, clipped, prevMsc', reports);
      assert e == Enter(config, s, ev);
      DecideTick(ev);
    }

    /** One tick of the loop, from its arrival to its measurement. */
    method ProcessTick(ev: Event, processed: nat, clipped: nat, prevMsc: int, ghost reports: seq<Report>)
      returns (clipped': nat, prevMsc': int, ghost reports': seq<Report>, ghost ended: bool)
      requires ev.Tick? && running && clippingMonitor.reportIntervalS == config.reportEvery
      modifies this, clippingMonitor
      ensures State(ended, processed + 1, clipped', prevMsc', reports') ==
                OnTick(config, old(State(false, processed, clipped, prevMsc, reports)), ev)
    {
      var deltaMs;
      prevMsc', deltaMs := EnterAndDecide(ev, processed, prevMsc, clipped, reports);
      clipped', reports', ended := clipped, reports, false;
      if ev.sessionEnd {
        running, ended := false, true;
      } else {
        var more;
        more, reports' := FinishTick(ev, deltaMs, reports);
        clipped' := clipped + more;
      }
    }

    /** One idle pass of the loop. */
    method ProcessHeartbeat(ev: Event)
      requires ev.Heartbeat? && running
      modifies this
      ensures Core() == OnHeartbeat(config, old(Core()), ev)
    {
      if ev.exhausted {
        running := false;
        return;
      }
      EvaluateMarketDataStaleness(ev.clock, ev.wall, ev.reconnects);
      RunDecisionHeartbeat(ev);
      if ev.sessionEnd {
        running := false;
      }
    }

    /** One iteration of the loop. */
    method Dispatch(ev: Event, processed: nat, clipped: nat, prevMsc: int, ghost reports: seq<Report>)
      returns (processed': nat, clipped': nat, prevMsc': int, ghost reports': seq<Report>, ghost ended: bool)
      requires running && clippingMonitor.reportIntervalS == config.reportEvery
      modifies this, clippingMonitor
      ensures State(ended, processed', clipped', prevMsc', reports') ==
                Step(config, old(State(false, processed, clipped, prevMsc, reports)), ev)
      ensures running ==> !ended
    {
      processed', clipped', prevMsc', reports', ended := processed, clipped, prevMsc, reports, false;
      if ev.Tick? {
        clipped', prevMsc', reports', ended := ProcessTick(ev, processed, clipped, prevMsc, reports);
        processed' := processed + 1;
      } else if ev.Heartbeat? {
        ProcessHeartbeat(ev);
      } else {
        running := false;
      }
    }

    /** Pull events until the loop stops or they run out. The result is that of the state machine, so the returned
        counts are those every run lemma speaks about. */
    method Run(events: seq<Event>) returns (ticksProcessed: nat, ticksClipped: nat, ghost final: Loop)
      requires clippingMonitor.reportIntervalS == config.reportEvery
      modifies this, clippingMonitor
      ensures final == Session(config, old(Core()).(running := true), events)
      ensures ticksProcessed == final.ticksProcessed && ticksClipped == final.ticksClipped
      ensures !running
      ensures Core() == final.(running := false, endedOnTick := false, ticksProcessed := 0, ticksClipped := 0,
                               prevMsc := 0, reports := [])
    {
      ghost var start := Core().(running := true);
      running, ticksProcessed, ticksClipped := true, 0, 0;
      var prevMsc, i := 0, 0;
      ghost var ended, reports := false, [];
      final := State(ended, ticksProcessed, ticksClipped, prevMsc, reports);
      while running && i < |events|
        invariant i <= |events|
        invariant running ==> !ended
        invariant final == State(ended, ticksProcessed, ticksClipped, prevMsc, reports)
        invariant final == Session(config, start, events[..i])
      {
        assert Init(events[..i + 1]) == events[..i];
        ticksProcessed, ticksClipped, prevMsc, reports, ended :=
          Dispatch(events[i], ticksProcessed, ticksClipped, prevMsc, reports);
        final := State(ended, ticksProcessed, ticksClipped, prevMsc, reports);
        i := i + 1;
      }
      StoppedStays(config, start, events, i);
      running := false;
    }
  }

  lemma {:induction false} StoppedStays(c: Config, s: Loop, events: seq<Event>, i: nat)
    requires i <= |events| && (i == |events| || !Session(c, s, events[..i]).running)
    ensures Session(c, s, events) == Session(c, s, events[..i])
    decreases |events|
  {
    if i == |events| {
      assert events[..i] == events;
    } else {
      assert Init(events)[..i] == events[..i];
      StoppedStays(c, s, Init(events), i);
    }
  }
}
