/** The live clipping monitor: paired session and interval counters, with periodic reports that reset the interval. */
module ClippingMonitors {
  import opened Prelude

  /** One set of counters; the monitor keeps one for the session and one for the current interval. */
  datatype Tally = Tally(ticks: nat, clipped: nat, staleMs: real, maxStaleMs: real,
                         processingMs: real, maxProcessingMs: real, maxQueueDepth: nat)

  const ZERO: Tally := Tally(0, 0, 0.0, 0.0, 0.0, 0.0, 0)

  /** The next tick arrived before this one was done. */
  predicate IsClipped(processingMs: real, deltaMs: real) {
    0.0 < deltaMs < processingMs
  }

  function WithTick(t: Tally, processingMs: real, deltaMs: real): Tally {
    var timed := t.(ticks := t.ticks + 1,
                    processingMs := t.processingMs + processingMs,
                    maxProcessingMs := MaxReal(t.maxProcessingMs, processingMs));
    if IsClipped(processingMs, deltaMs) then
      timed.(clipped := t.clipped + 1,
             staleMs := t.staleMs + (processingMs - deltaMs),
             maxStaleMs := MaxReal(t.maxStaleMs, processingMs - deltaMs))
    else timed
  }

  function WithDepth(t: Tally, depth: nat): Tally {
    t.(maxQueueDepth := if depth > t.maxQueueDepth then depth else t.maxQueueDepth)
  }

  datatype Report = Report(ticks: nat, clipped: nat, maxStaleMs: real, avgStaleMs: real,
                           maxProcessingMs: real, avgProcessingMs: real, maxQueueDepth: nat)

  function ReportOf(t: Tally): Report
    requires t.ticks > 0
  {
    Report(t.ticks, t.clipped, t.maxStaleMs, if t.clipped > 0 then t.staleMs / t.clipped as real else 0.0,
           t.maxProcessingMs, t.processingMs / t.ticks as real, t.maxQueueDepth)
  }

  /** The counters an emitted report stands for: its averages times its counts are the sums. */
  function TallyOf(r: Report): Tally {
    Tally(r.ticks, r.clipped, r.avgStaleMs * r.clipped as real, r.maxStaleMs,
          r.avgProcessingMs * r.ticks as real, r.maxProcessingMs, r.maxQueueDepth)
  }

  /** Counts and sums add up, maxima are the larger one. */
  function Plus(a: Tally, b: Tally): Tally {
    Tally(a.ticks + b.ticks, a.clipped + b.clipped, a.staleMs + b.staleMs, MaxReal(a.maxStaleMs, b.maxStaleMs),
          a.processingMs + b.processingMs, MaxReal(a.maxProcessingMs, b.maxProcessingMs),
          if b.maxQueueDepth > a.maxQueueDepth then b.maxQueueDepth else a.maxQueueDepth)
  }

  function Total(reports: seq<Report>): Tally {
    if reports == [] then ZERO else Plus(Total(Init(reports)), TallyOf(Last(reports)))
  }

  // ---- the monitor as a value -------------------------------------------------------------------

  datatype Monitor = Monitor(session: Tally, interval: Tally, times: seq<real>, lastReportTime: real)

  datatype Op =
    | RecordTick(processingNs: nat, deltaMs: real)
    | RecordQueueDepth(depth: nat)
    | Poll(now: real)

  function Milliseconds(ns: nat): (ms: real)
    ensures ms >= 0.0
  {
    ns as real / 1_000_000.0
  }

  /** The report a poll at `now` emits, if the interval has elapsed and saw a tick. */
  function Due(m: Monitor, now: real, every: real): Option<Report> {
    if now - m.lastReportTime < every || m.interval.ticks == 0 then None else Some(ReportOf(m.interval))
  }

  function Apply(m: Monitor, op: Op, every: real): Monitor {
    match op
    case RecordTick(ns, delta) =>
      m.(session := WithTick(m.session, Milliseconds(ns), delta),
         interval := WithTick(m.interval, Milliseconds(ns), delta),
         times := m.times + [Milliseconds(ns)])
    case RecordQueueDepth(depth) =>
      m.(session := WithDepth(m.session, depth), interval := WithDepth(m.interval, depth))
    case Poll(now) =>
      if now - m.lastReportTime < every then m
      else if m.interval.ticks == 0 then m.(lastReportTime := now)
      else m.(interval := ZERO, lastReportTime := now)
  }

  function Emitted(m: Monitor, op: Op, every: real): seq<Report> {
    if op.Poll? && Due(m, op.now, every).Some? then [Due(m, op.now, every).value] else []
  }

  // ---- conservation -----------------------------------------------------------------------------

  /** What the averages need: no stale time without a clipped tick, nothing negative. */
  predicate Consistent(t: Tally) {
    && (t.clipped == 0 ==> t.staleMs == 0.0) && t.clipped <= t.ticks
    && t.maxStaleMs >= 0.0 && t.maxProcessingMs >= 0.0
  }

  /** A report loses nothing of its interval but the split into single ticks. */
  lemma TallyOfReport(t: Tally)
    requires t.ticks > 0 && Consistent(t)
    ensures TallyOf(ReportOf(t)) == t
  {
    QuotientTimes(t.processingMs, t.ticks as real);
    if t.clipped > 0 {
      QuotientTimes(t.staleMs, t.clipped as real);
    }
  }

  lemma QuotientTimes(a: real, b: real)
    requires b != 0.0
    ensures a / b * b == a
  {
  }

  /** Counting a tick or a depth on the session is counting it on the interval. */
  lemma PlusWith(a: Tally, b: Tally, ms: real, delta: real, depth: nat)
    ensures WithTick(Plus(a, b), ms, delta) == Plus(a, WithTick(b, ms, delta))
    ensures WithDepth(Plus(a, b), depth) == Plus(a, WithDepth(b, depth))
  {
  }

  /** The session is the total of all emitted reports plus the pending interval. */
  ghost predicate Conserved(m: Monitor, reports: seq<Report>) {
    ConservedWith(m, Total(reports))
  }

  ghost predicate ConservedWith(m: Monitor, emitted: Tally) {
    && Consistent(m.interval) && Consistent(m.session)
    && m.session == Plus(emitted, m.interval)
    && m.session.ticks == |m.times|
  }

  lemma {:induction false} TotalConsistent(reports: seq<Report>, r: Report)
    ensures Total(reports + [r]) == Plus(Total(reports), TallyOf(r))
  {
    assert Init(reports + [r]) == reports;
  }

  /** Every operation of the monitor conserves the counters. */
  lemma ApplyConserves(m: Monitor, reports: seq<Report>, op: Op, every: real)
    requires Conserved(m, reports)
    ensures Conserved(Apply(m, op, every), reports + Emitted(m, op, every))
  {
    match op {
      case RecordTick(ns, delta) =>
        PlusWith(Total(reports), m.interval, Milliseconds(ns), delta, 0);
        assert reports + Emitted(m, op, every) == reports;
      case RecordQueueDepth(depth) =>
        PlusWith(Total(reports), m.interval, 0.0, 0.0, depth);
        assert reports + Emitted(m, op, every) == reports;
      case Poll(now) =>
        if Due(m, now, every).Some? {
          TallyOfReport(m.interval);
          TotalConsistent(reports, ReportOf(m.interval));
          assert Plus(m.session, ZERO) == m.session;
        } else {
          assert reports + Emitted(m, op, every) == reports;
        }
    }
  }

  function Started(now: real): Monitor {
    Monitor(ZERO, ZERO, [], now)
  }

  lemma {:induction false} StartConserves(m: Monitor, now: real, reports: seq<Report>)
    requires m == Started(now) && reports == []
    ensures Conserved(m, reports) && m.session.clipped == m.interval.clipped == m.session.ticks == 0
  {
    TotalOfNone(reports);
    StartConservesWith(m, now);
    ConsistentZero(m.session);
  }

  lemma StartConservesWith(m: Monitor, now: real)
    requires m == Started(now)
    ensures ConservedWith(m, ZERO)
  {
    ConsistentZero(m.session);
    PlusZero(m.session);
    assert m.interval == m.session && |m.times| == 0;
  }

  lemma ConsistentZero(t: Tally)
    requires t == ZERO
    ensures Consistent(t) && t.clipped == 0 && t.ticks == 0
  {
  }

  lemma {:induction false} TotalOfNone(reports: seq<Report>)
    requires reports == []
    ensures Total(reports) == ZERO
  {
  }

  lemma PlusZero(t: Tally)
    requires t.maxStaleMs >= 0.0 && t.maxProcessingMs >= 0.0
    ensures Plus(ZERO, t) == t
  {
  }

  function RunOps(m: Monitor, ops: seq<Op>, every: real): Monitor {
    if ops == [] then m else Apply(RunOps(m, Init(ops), every), Last(ops), every)
  }

  function Reports(m: Monitor, ops: seq<Op>, every: real): seq<Report> {
    if ops == [] then []
    else Reports(m, Init(ops), every) + Emitted(RunOps(m, Init(ops), every), Last(ops), every)
  }

  /** For every sequence of calls: session totals are the sum of all emitted reports plus the pending interval, in
      ticks, clipped ticks, stale time and processing time, and the larger one in each maximum. */
  lemma {:induction false} SessionIsReportsPlusInterval(now: real, ops: seq<Op>, every: real)
    ensures Conserved(RunOps(Started(now), ops, every), Reports(Started(now), ops, every))
  {
    if ops == [] {
      StartConserves(Started(now), now, Reports(Started(now), ops, every));
    } else {
      SessionIsReportsPlusInterval(now, Init(ops), every);
      ApplyConserves(RunOps(Started(now), Init(ops), every), Reports(Started(now), Init(ops), every), Last(ops), every);
    }
  }

  // ---- what is measured, in nanoseconds -----------------------------------------------------------

  /** A timed tick whose processing took longer than the positive gap to the tick before it. */
  predicate Overtaken(op: Op) {
    op.RecordTick? && op.deltaMs > 0.0 && op.processingNs as real > op.deltaMs * 1_000_000.0
  }

  /** The nanoseconds by which it did. */
  function Excess(op: Op): real {
    if Overtaken(op) then op.processingNs as real - op.deltaMs * 1_000_000.0 else 0.0
  }

  function TicksAmong(ops: seq<Op>): nat {
    if ops == [] then 0 else TicksAmong(Init(ops)) + if Last(ops).RecordTick? then 1 else 0
  }

  function OvertakenAmong(ops: seq<Op>): nat {
    if ops == [] then 0 else OvertakenAmong(Init(ops)) + if Overtaken(Last(ops)) then 1 else 0
  }

  function NsAmong(ops: seq<Op>): nat {
    if ops == [] then 0 else NsAmong(Init(ops)) + if Last(ops).RecordTick? then Last(ops).processingNs else 0
  }

  function ExcessAmong(ops: seq<Op>): real {
    if ops == [] then 0.0 else ExcessAmong(Init(ops)) + Excess(Last(ops))
  }

  /** Counts and sums of a session, in whole nanoseconds. */
  predicate Sums(t: Tally, ops: seq<Op>) {
    && t.ticks == TicksAmong(ops) && t.clipped == OvertakenAmong(ops)
    && t.processingMs * 1_000_000.0 == NsAmong(ops) as real
    && t.staleMs * 1_000_000.0 == ExcessAmong(ops)
  }

  /** The maxima of a session bound every tick and every depth. */
  predicate Bounds(t: Tally, ops: seq<Op>) {
    && t.maxProcessingMs >= 0.0 && t.maxStaleMs >= 0.0
    && forall i :: 0 <= i < |ops| ==> Bounded(t, ops[i])
  }

  predicate Bounded(t: Tally, op: Op) {
    && (op.RecordTick? ==> op.processingNs as real <= t.maxProcessingMs * 1_000_000.0)
    && Excess(op) <= t.maxStaleMs * 1_000_000.0
    && (op.RecordQueueDepth? ==> op.depth <= t.maxQueueDepth)
  }

  /** Each maximum is zero or was reached. */
  predicate Reached(t: Tally, ops: seq<Op>) {
    && (t.maxProcessingMs == 0.0 ||
        exists i :: 0 <= i < |ops| && ops[i].RecordTick? &&
                    ops[i].processingNs as real == t.maxProcessingMs * 1_000_000.0)
    && (t.maxStaleMs == 0.0 || exists i :: 0 <= i < |ops| && Excess(ops[i]) == t.maxStaleMs * 1_000_000.0)
    && (t.maxQueueDepth == 0 ||
        exists i :: 0 <= i < |ops| && ops[i].RecordQueueDepth? && ops[i].depth == t.maxQueueDepth)
  }

  /** One operation on the session's counters. */
  function Stepped(t: Tally, op: Op): Tally {
    match op
    case RecordTick(ns, delta) => WithTick(t, Milliseconds(ns), delta)
    case RecordQueueDepth(depth) => WithDepth(t, depth)
    case Poll(_) => t
  }

  lemma ClippedIsOvertaken(ns: nat, delta: real)
    ensures IsClipped(Milliseconds(ns), delta) <==> Overtaken(RecordTick(ns, delta))
    ensures Milliseconds(ns) * 1_000_000.0 == ns as real
    ensures IsClipped(Milliseconds(ns), delta) ==>
              (Milliseconds(ns) - delta) * 1_000_000.0 == Excess(RecordTick(ns, delta))
  {
  }

  lemma {:induction false} SumsStep(t: Tally, ops: seq<Op>)
    requires ops != [] && Sums(t, Init(ops))
    ensures Sums(Stepped(t, Last(ops)), ops)
  {
    if Last(ops).RecordTick? {
      ClippedIsOvertaken(Last(ops).processingNs, Last(ops).deltaMs);
    }
  }

  lemma {:induction false} BoundsStep(t: Tally, ops: seq<Op>)
    requires ops != [] && Bounds(t, Init(ops))
    ensures Bounds(Stepped(t, Last(ops)), ops)
  {
    var p, u := Init(ops), Stepped(t, Last(ops));
    if Last(ops).RecordTick? {
      ClippedIsOvertaken(Last(ops).processingNs, Last(ops).deltaMs);
    }
    assert u.maxProcessingMs >= t.maxProcessingMs && u.maxStaleMs >= t.maxStaleMs && u.maxQueueDepth >= t.maxQueueDepth;
    assert Bounded(u, Last(ops));
    forall i | 0 <= i < |p| ensures Bounded(u, ops[i]) {
      assert ops[i] == p[i];
    }
  }

  lemma {:induction false} ReachedStep(t: Tally, ops: seq<Op>)
    requires ops != [] && Reached(t, Init(ops))
    ensures Reached(Stepped(t, Last(ops)), ops)
  {
    var p, n := Init(ops), |ops| - 1;
    assert forall i :: 0 <= i < n ==> ops[i] == p[i];
    if Last(ops).RecordTick? {
      ClippedIsOvertaken(Last(ops).processingNs, Last(ops).deltaMs);
      assert ops[n].RecordTick?;
    }
  }

  lemma {:induction false} SessionSteps(now: real, ops: seq<Op>, every: real)
    requires ops != []
    ensures RunOps(Started(now), ops, every).session ==
              Stepped(RunOps(Started(now), Init(ops), every).session, Last(ops))
  {
  }

  /** Over every sequence of calls: the session counts the timed ticks and those that were overtaken, its sums are
      theirs to the nanosecond, and its maxima are the largest of each, or zero. */
  lemma {:induction false} SessionMeasures(now: real, ops: seq<Op>, every: real)
    ensures var t := RunOps(Started(now), ops, every).session; Sums(t, ops) && Bounds(t, ops) && Reached(t, ops)
  {
    if ops != [] {
      SessionMeasures(now, Init(ops), every);
      SessionSteps(now, ops, every);
      var t := RunOps(Started(now), Init(ops), every).session;
      SumsStep(t, ops);
      BoundsStep(t, ops);
      ReachedStep(t, ops);
    }
  }

  /** The last poll that came at least an interval after the one before it; the start if there is none. */
  function LastElapsed(now: real, ops: seq<Op>, every: real): real {
    if ops == [] then now
    else
      var before := LastElapsed(now, Init(ops), every);
      if Last(ops).Poll? && Last(ops).now >= before + every then Last(ops).now else before
  }

  /** The ticks timed since then. */
  function TicksSince(now: real, ops: seq<Op>, every: real): nat {
    if ops == [] then 0
    else if Last(ops).Poll? && Last(ops).now >= LastElapsed(now, Init(ops), every) + every then 0
    else TicksSince(now, Init(ops), every) + if Last(ops).RecordTick? then 1 else 0
  }

  lemma {:induction false} IntervalExactly(now: real, ops: seq<Op>, every: real)
    ensures var m := RunOps(Started(now), ops, every);
            m.lastReportTime == LastElapsed(now, ops, every) && m.interval.ticks == TicksSince(now, ops, every)
  {
    if ops != [] {
      IntervalExactly(now, Init(ops), every);
    }
  }

  /** A report tells the counters of its interval as they are, and its sums as averages. */
  lemma ReportTells(t: Tally)
    requires t.ticks > 0
    ensures var r := ReportOf(t);
            && r.ticks == t.ticks && r.clipped == t.clipped && r.avgProcessingMs * t.ticks as real == t.processingMs
            && (if t.clipped > 0 then r.avgStaleMs * t.clipped as real == t.staleMs else r.avgStaleMs == 0.0)
            && r.maxStaleMs == t.maxStaleMs && r.maxProcessingMs == t.maxProcessingMs
            && r.maxQueueDepth == t.maxQueueDepth
  {
    QuotientTimes(t.processingMs, t.ticks as real);
    if t.clipped > 0 {
      QuotientTimes(t.staleMs, t.clipped as real);
    }
  }

  /** A poll emits a report exactly when an interval has passed since the last poll of which that is true, and a tick
      was timed since; the report counts those ticks. */
  lemma {:induction false} ReportsExactly(now: real, ops: seq<Op>, every: real, t: real)
    ensures var emitted := Reports(Started(now), ops + [Poll(t)], every);
            if t >= LastElapsed(now, ops, every) + every && TicksSince(now, ops, every) > 0 then
              && |emitted| == |Reports(Started(now), ops, every)| + 1
              && Last(emitted).ticks == TicksSince(now, ops, every)
            else emitted == Reports(Started(now), ops, every)
  {
    var more := ops + [Poll(t)];
    assert Init(more) == ops && Last(more) == Poll(t);
    IntervalExactly(now, ops, every);
  }

  // ---- the object -------------------------------------------------------------------------------

  datatype Summary = Summary(ticks: nat, clipped: nat, clippingRatio: real, maxStaleMs: real, avgStaleMs: real,
                             maxProcessingMs: real, avgProcessingMs: real, maxQueueDepth: nat, times: seq<real>)

  class LiveClippingMonitor {
    const reportIntervalS: real
    var session: Tally
    var interval: Tally
    var processingTimesMs: seq<real>
    var lastReportTime: real

    ghost function State(): Monitor
      reads this
    {
      Monitor(session, interval, processingTimesMs, lastReportTime)
    }

    constructor (reportIntervalS: real, now: real)
      ensures State() == Started(now) && this.reportIntervalS == reportIntervalS
    {
      this.reportIntervalS := reportIntervalS;
      session, interval, processingTimesMs, lastReportTime := ZERO, ZERO, [], now;
    }

    method RecordTick(processingNs: nat, deltaMs: real)
      modifies this
      ensures State() == Apply(old(State()), Op.RecordTick(processingNs, deltaMs), reportIntervalS)
    {
      var ms := Milliseconds(processingNs);
      session := session.(ticks := session.ticks + 1, processingMs := session.processingMs + ms);
      interval := interval.(ticks := interval.ticks + 1, processingMs := interval.processingMs + ms);
      processingTimesMs := processingTimesMs + [ms];
      if ms > session.maxProcessingMs {
        session := session.(maxProcessingMs := ms);
      }
      if ms > interval.maxProcessingMs {
        interval := interval.(maxProcessingMs := ms);
      }
      if deltaMs > 0.0 && ms > deltaMs {
        var stale := ms - deltaMs;
        session := session.(clipped := session.clipped + 1, staleMs := session.staleMs + stale);
        interval := interval.(clipped := interval.clipped + 1, staleMs := interval.staleMs + stale);
        if stale > session.maxStaleMs {
          session := session.(maxStaleMs := stale);
        }
        if stale > interval.maxStaleMs {
          interval := interval.(maxStaleMs := stale);
        }
      }
    }

    method RecordQueueDepth(depth: nat)
      modifies this
      ensures State() == Apply(old(State()), Op.RecordQueueDepth(depth), reportIntervalS)
    {
      if depth > session.maxQueueDepth {
        session := session.(maxQueueDepth := depth);
      }
      if depth > interval.maxQueueDepth {
        interval := interval.(maxQueueDepth := depth);
      }
    }

    method GetPeriodicReport(now: real) returns (report: Option<Report>)
      modifies this
      ensures State() == Apply(old(State()), Poll(now), reportIntervalS)
      ensures report == Due(old(State()), now, reportIntervalS)
    {
      if now - lastReportTime < reportIntervalS {
        return None;
      }
      if interval.ticks == 0 {
        lastReportTime := now;
        return None;
      }
      report := Some(ReportOf(interval));
      interval := ZERO;
      lastReportTime := now;
    }

    /** The summary's ratio is a fraction and its averages times its counts are the session sums. */
    method GetSessionSummary() returns (s: Summary)
      requires Consistent(session)
      ensures s.ticks == session.ticks && s.clipped == session.clipped && s.times == processingTimesMs
      ensures 0.0 <= s.clippingRatio <= 1.0 && s.clippingRatio * s.ticks as real == s.clipped as real
      ensures s.avgStaleMs * s.clipped as real == session.staleMs
      ensures session.ticks > 0 ==> s.avgProcessingMs * s.ticks as real == session.processingMs
      ensures s.maxStaleMs == session.maxStaleMs && s.maxProcessingMs == session.maxProcessingMs
      ensures s.maxQueueDepth == session.maxQueueDepth
    {
      var ticks, clipped := session.ticks, session.clipped;
      var ratio, avgStale, avgProcessing := 0.0, 0.0, 0.0;
      if ticks > 0 {
        ratio := clipped as real / ticks as real;
        avgProcessing := session.processingMs / ticks as real;
        FractionBounds(clipped as real, ticks as real);
        QuotientTimes(session.processingMs, ticks as real);
      }
      if clipped > 0 {
        avgStale := session.staleMs / clipped as real;
        QuotientTimes(session.staleMs, clipped as real);
      }
      s := Summary(ticks, clipped, ratio, session.maxStaleMs, avgStale, session.maxProcessingMs, avgProcessing,
                   session.maxQueueDepth, processingTimesMs);
    }
  }

  lemma FractionBounds(a: real, b: real)
    requires 0.0 <= a <= b && b > 0.0
    ensures 0.0 <= a / b <= 1.0 && a / b * b == a
  {
  }
}
