/** The market-data staleness contract of a live session: the loop's edge-triggered flag, the status it hands to the
    executor, and the observer that turns status changes into episode records. */
module MarketData {
  import opened Prelude

  /** What the executor holds and the decision logic reads. Clock times are the session's canonical clock. */
  datatype Status = Status(isStale: bool, staleSince: Option<int>, secondsSinceTick: real, reconnects: nat)

  const FRESH: Status := Status(false, None, 0.0, 0)

  /** The loop's edge state beside the executor's status; `lastWall` is 0 before the first tick is done. */
  datatype Market = Market(stale: bool, since: Option<int>, status: Status, reconnects: nat, lastWall: real)

  /** What an outside observer sees of the contract: ticks, and heartbeats that found the stream stale. */
  datatype Signal =
    | TickSeen(clock: int, recovered: bool)
    | StaleBeat(status: Status, hookFired: bool)

  // ---- the loop's two steps ---------------------------------------------------------------------

  /** A real tick ends a stale episode. */
  function Arrive(m: Market): Market {
    if m.stale then m.(stale := false, since := None, status := Status(false, None, 0.0, m.reconnects)) else m
  }

  predicate Overdue(m: Market, staleAfter: real, wall: real) {
    staleAfter > 0.0 && m.lastWall > 0.0 && wall - m.lastWall > staleAfter
  }

  function Reconnected(m: Market, reconnects: nat): Market {
    m.(reconnects := if reconnects > m.reconnects then reconnects else m.reconnects)
  }

  /** A heartbeat that finds the last tick overdue flips the flag once and refreshes the executor's status. */
  function Beat(m: Market, staleAfter: real, clock: int, wall: real, reconnects: nat): Market {
    var m := Reconnected(m, reconnects);
    if !Overdue(m, staleAfter, wall) then m
    else
      var since := if m.stale then m.since else Some(clock);
      m.(stale := true, since := since, status := Status(true, since, wall - m.lastWall, m.reconnects))
  }

  /** The signals of the two steps. */
  function BeatSignals(m: Market, staleAfter: real, clock: int, wall: real, reconnects: nat): seq<Signal> {
    if Overdue(m, staleAfter, wall) then [StaleBeat(Beat(m, staleAfter, clock, wall, reconnects).status, !m.stale)]
      else []
  }

  predicate Agrees(m: Market) {
    && m.status.isStale == m.stale
    && m.status.staleSince == m.since
    && m.since.Some? == m.stale
  }

  // ---- the shape of a session's signals ---------------------------------------------------------

  datatype Phase = Calm | Outage(since: int) | Broken

  /** An outage begins with the one beat that fires the hook, repeats its start on every further beat, and ends with
      the tick that reports recovery. */
  function Advance(p: Phase, s: Signal): Phase {
    match (p, s)
    case (Calm, TickSeen(_, recovered)) => if recovered then Broken else Calm
    case (Calm, StaleBeat(status, fired)) =>
      if fired && status.staleSince.Some? then Outage(status.staleSince.value) else Broken
    case (Outage(since), TickSeen(_, recovered)) => if recovered then Calm else Broken
    case (Outage(since), StaleBeat(status, fired)) => if !fired && status.staleSince == Some(since) then p else Broken
    case (Broken, _) => Broken
  }

  function PhaseOf(signals: seq<Signal>): Phase {
    if signals == [] then Calm else Advance(PhaseOf(Init(signals)), Last(signals))
  }

  /** The loop's flag is in the phase its signals say. */
  ghost predicate InPhase(m: Market, signals: seq<Signal>) {
    Agrees(m) && PhaseOf(signals) == if m.stale then Outage(m.since.value) else Calm
  }

  lemma {:induction false} PhaseAppend(signals: seq<Signal>, s: Signal)
    ensures PhaseOf(signals + [s]) == Advance(PhaseOf(signals), s)
  {
    assert Init(signals + [s]) == signals;
  }

  lemma ArriveKeepsPhase(m: Market, signals: seq<Signal>, clock: int)
    requires InPhase(m, signals)
    ensures InPhase(Arrive(m), signals + [TickSeen(clock, m.stale)])
  {
    PhaseAppend(signals, TickSeen(clock, m.stale));
  }

  lemma BeatKeepsPhase(m: Market, signals: seq<Signal>, staleAfter: real, clock: int, wall: real, reconnects: nat)
    requires InPhase(m, signals)
    ensures InPhase(Beat(m, staleAfter, clock, wall, reconnects),
              signals + BeatSignals(m, staleAfter, clock, wall, reconnects))
  {
    if Overdue(m, staleAfter, wall) {
      PhaseAppend(signals, StaleBeat(Beat(m, staleAfter, clock, wall, reconnects).status, !m.stale));
    } else {
      assert signals + BeatSignals(m, staleAfter, clock, wall, reconnects) == signals;
    }
  }

  // ---- what an unbroken signal sequence says ----------------------------------------------------

  lemma {:induction false} PrefixUnbroken(signals: seq<Signal>, i: nat)
    requires PhaseOf(signals) != Broken && i <= |signals|
    ensures PhaseOf(signals[..i]) != Broken
    decreases |signals|
  {
    if i == |signals| {
      assert signals[..i] == signals;
    } else {
      assert Init(signals)[..i] == signals[..i];
      PrefixUnbroken(Init(signals), i);
    }
  }

  predicate NoTickBetween(signals: seq<Signal>, i: nat, j: nat)
    requires j <= |signals|
  {
    forall k :: i <= k < j ==> !signals[k].TickSeen?
  }

  /** From a stale beat on, as long as no tick is seen, the session is in the outage of that beat. */
  lemma {:induction false} OutageLasts(signals: seq<Signal>, i: nat, j: nat)
    requires PhaseOf(signals) != Broken && i < j <= |signals| && signals[i].StaleBeat? && NoTickBetween(signals, i, j)
    ensures signals[i].status.staleSince.Some?
    ensures PhaseOf(signals[..j]) == Outage(signals[i].status.staleSince.value)
  {
    PrefixUnbroken(signals, j);
    PrefixUnbroken(signals, j - 1);
    assert Init(signals[..j]) == signals[..j - 1] && Last(signals[..j]) == signals[j - 1];
    if i < j - 1 {
      OutageLasts(signals, i, j - 1);
    }
  }

  /** Within an episode the start never changes and the hook fires on the first beat only. */
  lemma EpisodeIsUniform(signals: seq<Signal>, i: nat, j: nat)
    requires PhaseOf(signals) != Broken && i < j < |signals|
    requires signals[i].StaleBeat? && signals[j].StaleBeat? && NoTickBetween(signals, i, j)
    ensures signals[i].status.staleSince == signals[j].status.staleSince && !signals[j].hookFired
  {
    OutageLasts(signals, i, j);
    PrefixUnbroken(signals, j + 1);
    assert Init(signals[..j + 1]) == signals[..j] && Last(signals[..j + 1]) == signals[j];
  }

  /** Between any two firings of the hook a tick was processed. */
  lemma TickBetweenHooks(signals: seq<Signal>, i: nat, j: nat)
    requires PhaseOf(signals) != Broken && i < j < |signals|
    requires signals[i].StaleBeat? && signals[i].hookFired && signals[j].StaleBeat? && signals[j].hookFired
    ensures exists k :: i < k < j && signals[k].TickSeen?
  {
    if NoTickBetween(signals, i, j) {
      EpisodeIsUniform(signals, i, j);
    }
  }

  function Hooks(signals: seq<Signal>): nat {
    if signals == [] then 0
    else Hooks(Init(signals)) + (if Last(signals).StaleBeat? && Last(signals).hookFired then 1 else 0)
  }

  function Recoveries(signals: seq<Signal>): nat {
    if signals == [] then 0
    else Recoveries(Init(signals)) + (if Last(signals).TickSeen? && Last(signals).recovered then 1 else 0)
  }

  /** The hook fires exactly once per episode: as often as episodes ended, plus once for one still open. */
  lemma {:induction false} OneHookPerEpisode(signals: seq<Signal>)
    requires PhaseOf(signals) != Broken
    ensures Hooks(signals) == Recoveries(signals) + (if PhaseOf(signals).Outage? then 1 else 0)
  {
    if signals != [] {
      OneHookPerEpisode(Init(signals));
    }
  }

  // ---- the observer -----------------------------------------------------------------------------

  /** One observed outage: from the last tick still seen as fresh to the tick that ended it. */
  datatype Episode = Episode(start: int, end: int)

  datatype Tracker = Tracker(episodes: seq<Episode>, openFrom: Option<int>, lastTick: Option<int>,
                             freshTicks: nat, staleTicks: nat)

  const NO_EPISODES: Tracker := Tracker([], None, None, 0, 0)

  function Observe(t: Tracker, now: int, isStale: bool, start: int): Tracker {
    if isStale then
      if t.openFrom.None? then t.(openFrom := Some(start)) else t
    else if t.openFrom.Some? then
      t.(episodes := t.episodes + [Episode(t.openFrom.value, now)], openFrom := None)
    else t
  }

  function ObserveTick(t: Tracker, now: int, isStale: bool): Tracker {
    var counted := if isStale then t.(staleTicks := t.staleTicks + 1) else t.(freshTicks := t.freshTicks + 1);
    Observe(counted, now, isStale, now).(lastTick := Some(now))
  }

  function ObserveBeat(t: Tracker, now: int, isStale: bool): Tracker {
    Observe(t, now, isStale, if t.lastTick.Some? then t.lastTick.value else now)
  }

  /** The observer follows the loop: it is called with the executor's status after every tick, and on stale beats. */
  function Follow(t: Tracker, clock: int, s: Signal): Tracker {
    match s
    case TickSeen(now, _) => ObserveTick(t, now, false)
    case StaleBeat(status, _) => ObserveBeat(t, clock, status.isStale)
  }

  function LastTick(signals: seq<Signal>): Option<int> {
    if signals == [] then None
    else if Last(signals).TickSeen? then Some(Last(signals).clock) else LastTick(Init(signals))
  }

  function TickCount(signals: seq<Signal>): nat {
    if signals == [] then 0 else TickCount(Init(signals)) + (if Last(signals).TickSeen? then 1 else 0)
  }

  /** The outages of a session: each ends at a recovering tick and starts at the tick before it. */
  function EpisodesOf(signals: seq<Signal>): seq<Episode> {
    if signals == [] then []
    else
      var p, s := Init(signals), Last(signals);
      EpisodesOf(p) +
      (if s.TickSeen? && s.recovered && LastTick(p).Some? then [Episode(LastTick(p).value, s.clock)] else [])
  }

  /** What the observer knows after a session. */
  ghost predicate Recorded(t: Tracker, signals: seq<Signal>) {
    && t.episodes == EpisodesOf(signals)
    && t.lastTick == LastTick(signals)
    && t.freshTicks == TickCount(signals) && t.staleTicks == 0
    && (t.openFrom.Some? <==> PhaseOf(signals).Outage?)
    && (t.openFrom.Some? ==> t.openFrom == t.lastTick)
  }

  /** The record is honest: every episode runs from the last fresh tick to the recovering one, an outage still open is
      open in the record, and every tick of a live session is counted as fresh. */
  lemma {:induction false} FollowRecords(t: Tracker, signals: seq<Signal>, clock: int, s: Signal)
    requires Recorded(t, signals) && PhaseOf(signals + [s]) != Broken
    requires s.StaleBeat? ==> s.status.isStale && LastTick(signals).Some?
    ensures Recorded(Follow(t, clock, s), signals + [s])
  {
    PhaseAppend(signals, s);
    assert Init(signals + [s]) == signals;
  }
}
