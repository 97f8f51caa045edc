/** The V3 repair of collection times: one shift per anchor group of a chronological chain of segments,
    chosen by a three-way rule and lifted at the seams between groups. Times are milliseconds. */
module AnchorRepair {
  import opened Prelude

  const HOUR: int := 3_600_000
  const TIMEZONE_LIMIT: int := 86_400_000
  const WINDOW: int := 300_000
  const TOLERANCE: int := 60_000
  const SPLIT_FORWARD: int := 604_800_000

  datatype Branch = Noop | HourSnap | MinFilter

  /** A shift, the branch that chose it, and whether it was lifted at a seam. */
  datatype Decision = Decision(shift: int, branch: Branch, seam: bool)

  // ---- the rule for one lag ---------------------------------------------------------------------

  /** Python's `round(a / b)`: to the nearest integer, halves to the even one. */
  function RoundHalfEven(a: int, b: int): int
    requires b > 0
  {
    var q, r := a / b, a % b;
    if 2 * r < b then q else if 2 * r > b then q + 1 else if q % 2 == 0 then q else q + 1
  }

  function PlanSegment(lag: int): Decision {
    var hours := RoundHalfEven(lag, HOUR);
    if AbsInt(lag) <= WINDOW then Decision(0, Noop, false)
    else if AbsInt(lag) < TIMEZONE_LIMIT && hours != 0 && AbsInt(lag - hours * HOUR) <= WINDOW then
      Decision(-hours * HOUR, HourSnap, false)
    else Decision(-lag, MinFilter, false)
  }

  /** `h` whole hours explain the lag up to the window. */
  predicate ExplainsLag(lag: int, h: int) {
    h != 0 && AbsInt(lag - h * HOUR) <= WINDOW
  }

  /** The shifted lag is plausible, and deciding again changes nothing. */
  lemma PlanLandsInWindow(lag: int)
    ensures AbsInt(lag + PlanSegment(lag).shift) <= WINDOW
    ensures PlanSegment(lag + PlanSegment(lag).shift) == Decision(0, Noop, false)
  {
  }

  lemma NearestHour(lag: int, h: int)
    requires AbsInt(lag - h * HOUR) <= WINDOW
    ensures RoundHalfEven(lag, HOUR) == h
  {
    var r := lag - h * HOUR;
    if r >= 0 {
      assert lag / HOUR == h && lag % HOUR == r;
    } else {
      assert lag / HOUR == h - 1 && lag % HOUR == r + HOUR;
    }
  }

  /** The hour branch is taken exactly for lags outside the window, under a day, that some whole number of hours
      explains; that number is unique and the shift removes it. */
  lemma HourSnapExactly(lag: int)
    ensures PlanSegment(lag).branch == HourSnap <==>
              WINDOW < AbsInt(lag) < TIMEZONE_LIMIT && exists h :: ExplainsLag(lag, h)
    ensures forall h :: PlanSegment(lag).branch == HourSnap && ExplainsLag(lag, h) ==>
              PlanSegment(lag).shift == -h * HOUR
  {
    forall h | ExplainsLag(lag, h) ensures RoundHalfEven(lag, HOUR) == h {
      NearestHour(lag, h);
    }
    if PlanSegment(lag).branch == HourSnap {
      assert ExplainsLag(lag, RoundHalfEven(lag, HOUR));
    }
  }

  // ---- a chain of segments ----------------------------------------------------------------------

  /** What planning reads of a segment: its smallest lag and its first and last collection time. */
  datatype Raw = Raw(lag: int, first: int, last: int)

  /** The first segment of the anchor group that segment `i` belongs to. */
  function Head(c: seq<Raw>, i: nat): (h: nat)
    requires i < |c|
    ensures h <= i
  {
    if i == 0 then 0
    else
      var h := Head(c, i - 1);
      if AbsInt(c[i].lag - c[h].lag) > TOLERANCE then i else h
  }

  /** One past the last segment of the group that `i` belongs to. */
  function GroupEnd(c: seq<Raw>, i: nat): (e: nat)
    requires i < |c|
    ensures i < e <= |c|
    decreases |c| - i
  {
    if i + 1 == |c| || Head(c, i + 1) == i + 1 then i + 1 else GroupEnd(c, i + 1)
  }

  function MinLag(c: seq<Raw>, lo: nat, hi: nat): int
    requires lo < hi <= |c|
  {
    if hi == lo + 1 then c[lo].lag
    else
      var m := MinLag(c, lo, hi - 1);
      if c[hi - 1].lag < m then c[hi - 1].lag else m
  }

  lemma {:induction false} MinLagIs(c: seq<Raw>, lo: nat, hi: nat)
    requires lo < hi <= |c|
    ensures forall i :: lo <= i < hi ==> MinLag(c, lo, hi) <= c[i].lag
    ensures exists i :: lo <= i < hi && MinLag(c, lo, hi) == c[i].lag
  {
    if lo + 1 < hi {
      MinLagIs(c, lo, hi - 1);
      if MinLag(c, lo, hi) == c[hi - 1].lag {
        assert lo <= hi - 1 < hi;
      } else {
        var k :| lo <= k < hi - 1 && MinLag(c, lo, hi - 1) == c[k].lag;
      }
    } else {
      assert MinLag(c, lo, hi) == c[lo].lag;
    }
  }

  /** Raise a decision by the least amount that puts `first` at or after `previousEnd`. */
  function Lift(d: Decision, first: int, previousEnd: Option<int>): Decision {
    if previousEnd.Some? && previousEnd.value > first + d.shift then
      d.(shift := previousEnd.value - first, seam := true)
    else d
  }

  function BaseDecision(c: seq<Raw>, h: nat): Decision
    requires h < |c|
  {
    PlanSegment(MinLag(c, h, GroupEnd(c, h)))
  }

  /** The decision of the group that segment `i` belongs to. */
  function DecisionAt(c: seq<Raw>, i: nat): Decision
    requires i < |c|
  {
    var h := Head(c, i);
    Lift(BaseDecision(c, h), c[h].first, if h == 0 then None else Some(c[h - 1].last + DecisionAt(c, h - 1).shift))
  }

  function RepairedFirst(c: seq<Raw>, i: nat): int
    requires i < |c|
  {
    c[i].first + DecisionAt(c, i).shift
  }

  function RepairedLast(c: seq<Raw>, i: nat): int
    requires i < |c|
  {
    c[i].last + DecisionAt(c, i).shift
  }

  // ---- groups are contiguous --------------------------------------------------------------------

  lemma {:induction false} HeadOfHead(c: seq<Raw>, i: nat)
    requires i < |c|
    ensures Head(c, Head(c, i)) == Head(c, i)
  {
    if i > 0 {
      HeadOfHead(c, i - 1);
    }
  }

  lemma {:induction false} HeadBetween(c: seq<Raw>, i: nat, j: nat)
    requires i < |c| && Head(c, i) <= j <= i
    ensures Head(c, j) == Head(c, i)
    decreases i - j
  {
    if j < i {
      assert Head(c, i - 1) == Head(c, i);
      HeadBetween(c, i - 1, j);
    }
  }

  lemma {:induction false} InGroup(c: seq<Raw>, h: nat, i: nat)
    requires h <= i < |c| && Head(c, h) == h
    ensures Head(c, i) == h <==> i < GroupEnd(c, h)
  {
    GroupEndCovers(c, h, h);
    if i < GroupEnd(c, h) {
      HeadsInGroup(c, h, h, i);
    } else {
      HeadPast(c, GroupEnd(c, h), i);
    }
  }

  lemma {:induction false} GroupEndCovers(c: seq<Raw>, h: nat, j: nat)
    requires h <= j < |c|
    ensures GroupEnd(c, j) < |c| ==> Head(c, GroupEnd(c, j)) == GroupEnd(c, j)
    decreases |c| - j
  {
    if j + 1 < |c| && Head(c, j + 1) != j + 1 {
      GroupEndCovers(c, h, j + 1);
    }
  }

  lemma {:induction false} HeadsInGroup(c: seq<Raw>, h: nat, j: nat, i: nat)
    requires h <= j <= i < |c| && Head(c, j) == h && i < GroupEnd(c, j)
    ensures Head(c, i) == h
    decreases i - j
  {
    if j < i {
      HeadsInGroup(c, h, j + 1, i);
    }
  }

  lemma {:induction false} HeadPast(c: seq<Raw>, e: nat, i: nat)
    requires e <= i < |c| && Head(c, e) == e
    ensures Head(c, i) >= e
  {
    if e < i {
      HeadPast(c, e, i - 1);
    }
  }

  // ---- what the plan promises -------------------------------------------------------------------

  /** All segments of a group get one identical decision, so distances inside a group are those of the source. */
  lemma {:induction false} GroupDistancesUnchanged(c: seq<Raw>, i: nat, j: nat)
    requires i < |c| && j < |c| && Head(c, i) == Head(c, j)
    ensures DecisionAt(c, i) == DecisionAt(c, j)
    ensures RepairedFirst(c, j) - RepairedLast(c, i) == c[j].first - c[i].last
  {
  }

  /** Between groups arrival never steps back. */
  lemma {:induction false} SeamNeverStepsBack(c: seq<Raw>, i: nat)
    requires 0 < i < |c| && Head(c, i) == i
    ensures RepairedFirst(c, i) >= RepairedLast(c, i - 1)
  {
  }

  /** After repair, arrival steps back between neighbouring segments exactly where the source did inside one group. */
  lemma {:induction false} StepsBackExactly(c: seq<Raw>, i: nat)
    requires 0 < i < |c|
    ensures RepairedFirst(c, i) < RepairedLast(c, i - 1) <==> Head(c, i) == Head(c, i - 1) && c[i].first < c[i - 1].last
  {
    if Head(c, i) == i {
      SeamNeverStepsBack(c, i);
    } else {
      GroupDistancesUnchanged(c, i - 1, i);
    }
  }

  /** The lift is the least: any shift at or above the group's own decision that keeps order at the seam is at least
      it. */
  lemma {:induction false} LiftIsLeast(c: seq<Raw>, i: nat, shift: int)
    requires i < |c|
    requires var h := Head(c, i);
             && shift >= BaseDecision(c, h).shift
             && (h > 0 ==> c[h].first + shift >= RepairedLast(c, h - 1))
    ensures shift >= DecisionAt(c, i).shift >= BaseDecision(c, Head(c, i)).shift
    ensures DecisionAt(c, i).seam <==> DecisionAt(c, i).shift != BaseDecision(c, Head(c, i)).shift
  {
  }

  /** What one lag is decided to be, in minutes and hours: left alone within five minutes, moved by whole hours within
      five minutes of some (but not a day or more), and otherwise removed. */
  lemma LagIsDecided(lag: int)
    ensures var d := PlanSegment(lag);
            && !d.seam
            && (d.branch == Noop <==> -5 * 60_000 <= lag <= 5 * 60_000)
            && (d.branch == Noop ==> d.shift == 0)
            && (d.branch == HourSnap ==> -24 * 3_600_000 < lag < 24 * 3_600_000 && d.shift % 3_600_000 == 0)
            && (d.branch == HourSnap ==> -5 * 60_000 <= lag + d.shift <= 5 * 60_000)
            && (d.branch == MinFilter ==> lag + d.shift == 0)
  {
    var hours := RoundHalfEven(lag, HOUR);
    assert -hours * HOUR % 3_600_000 == 0;
  }

  /** A lag of under a day, more than five minutes, and within five minutes of `h` whole hours loses exactly these
      hours. */
  lemma HoursAreTakenOff(lag: int, h: int)
    requires h != 0 && -5 * 60_000 <= lag - h * 3_600_000 <= 5 * 60_000
    requires -24 * 3_600_000 < lag < 24 * 3_600_000 && (lag < -5 * 60_000 || lag > 5 * 60_000)
    ensures PlanSegment(lag) == Decision(-h * 3_600_000, HourSnap, false)
  {
    assert ExplainsLag(lag, h);
    HourSnapExactly(lag);
    NearestHour(lag, h);
  }

  /** Segments `i` and `k` belong to one anchor group. */
  predicate Together(c: seq<Raw>, i: nat, k: nat) {
    i < |c| && k < |c| && Head(c, i) == Head(c, k)
  }

  /** In a group that was not lifted the fastest segment `k` decides for all: if it lies within five minutes nothing
      moves, if whole hours explain it they are taken off, and otherwise its lag is removed to zero. */
  ghost predicate DecidedByFastest(c: seq<Raw>, i: nat, k: nat) {
    && Together(c, i, k)
    && (forall j: nat :: Together(c, i, j) ==> c[j].lag >= c[k].lag)
    && var d := DecisionAt(c, i);
       && (d.branch == Noop <==> -5 * 60_000 <= c[k].lag <= 5 * 60_000)
       && (d.branch == Noop ==> d.shift == 0)
       && (d.branch == HourSnap ==> d.shift % 3_600_000 == 0 && -5 * 60_000 <= c[k].lag + d.shift <= 5 * 60_000)
       && (d.branch == MinFilter ==> c[k].lag + d.shift == 0)
  }

  lemma {:induction false} GroupIsDecided(c: seq<Raw>, i: nat) returns (k: nat)
    requires i < |c| && !DecisionAt(c, i).seam
    ensures DecidedByFastest(c, i, k)
  {
    var h := Head(c, i);
    HeadOfHead(c, i);
    InGroup(c, h, i);
    var e := GroupEnd(c, h);
    MinLagIs(c, h, e);
    k :| h <= k < e && MinLag(c, h, e) == c[k].lag;
    InGroup(c, h, k);
    forall j: nat | Together(c, i, j) ensures c[j].lag >= c[k].lag {
      InGroup(c, h, j);
    }
    LagIsDecided(c[k].lag);
  }

  /** Where a group's lag is removed and no seam interferes, no tick of the group keeps a negative lag, and the lag of
      some segment becomes exactly zero. */
  lemma {:induction false} MinFilterLeavesNoLag(c: seq<Raw>, i: nat)
    requires i < |c| && DecisionAt(c, i).branch == MinFilter && !DecisionAt(c, i).seam
    ensures forall j: nat :: Together(c, i, j) ==> c[j].lag + DecisionAt(c, j).shift >= 0
    ensures exists k: nat :: Together(c, i, k) && c[k].lag + DecisionAt(c, k).shift == 0
  {
    var k := GroupIsDecided(c, i);
    GroupDistancesUnchanged(c, i, k);
    forall j: nat | Together(c, i, j) ensures c[j].lag + DecisionAt(c, j).shift >= 0 {
      GroupDistancesUnchanged(c, i, j);
    }
  }

  /** A lifted group begins exactly where the group before it ends. */
  lemma {:induction false} SeamMeets(c: seq<Raw>, i: nat)
    requires i < |c| && DecisionAt(c, i).seam
    ensures Head(c, i) > 0 && RepairedFirst(c, Head(c, i)) == RepairedLast(c, Head(c, i) - 1)
  {
    HeadOfHead(c, i);
    LagIsDecided(MinLag(c, Head(c, i), GroupEnd(c, Head(c, i))));
  }

  /** A segment opens a group of its own exactly when its lag differs by more than a minute from that of the segment
      which opened the group before it. */
  lemma {:induction false} GroupOpensExactly(c: seq<Raw>, i: nat)
    requires 0 < i < |c|
    ensures Together(c, i - 1, i) <==> -60_000 <= c[i].lag - c[Head(c, i - 1)].lag <= 60_000
  {
  }

  /** Members of a group have a lag within the tolerance of its head. */
  lemma {:induction false} WithinTolerance(c: seq<Raw>, i: nat)
    requires i < |c|
    ensures AbsInt(c[i].lag - c[Head(c, i)].lag) <= TOLERANCE
  {
  }

  /** Before lifting, the residual lag of every segment lies in [-W, W + 2T]. */
  lemma {:induction false} ResidualBounds(c: seq<Raw>, i: nat)
    requires i < |c|
    ensures var residual := c[i].lag + BaseDecision(c, Head(c, i)).shift;
            -WINDOW <= residual <= WINDOW + 2 * TOLERANCE
  {
    var h := Head(c, i);
    HeadOfHead(c, i);
    InGroup(c, h, i);
    var e := GroupEnd(c, h);
    var m := MinLag(c, h, e);
    MinLagIs(c, h, e);
    PlanLandsInWindow(m);
    var k :| h <= k < e && m == c[k].lag;
    InGroup(c, h, k);
    WithinTolerance(c, i);
    WithinTolerance(c, k);
  }

  // ---- planning again ---------------------------------------------------------------------------

  function Shifted(c: seq<Raw>, s: int): (r: seq<Raw>)
    ensures |r| == |c|
  {
    seq(|c|, i requires 0 <= i < |c| => Raw(c[i].lag + s, c[i].first + s, c[i].last + s))
  }

  lemma {:induction false} ShiftedHead(c: seq<Raw>, s: int, i: nat)
    requires i < |c|
    ensures Head(Shifted(c, s), i) == Head(c, i)
  {
    if i > 0 {
      ShiftedHead(c, s, i - 1);
    }
  }

  lemma {:induction false} ShiftedEnd(c: seq<Raw>, s: int, i: nat)
    requires i < |c|
    ensures GroupEnd(Shifted(c, s), i) == GroupEnd(c, i)
    decreases |c| - i
  {
    if i + 1 < |c| {
      ShiftedHead(c, s, i + 1);
      ShiftedEnd(c, s, i + 1);
    }
  }

  lemma {:induction false} ShiftedMin(c: seq<Raw>, s: int, lo: nat, hi: nat)
    requires lo < hi <= |c|
    ensures MinLag(Shifted(c, s), lo, hi) == MinLag(c, lo, hi) + s
  {
    if lo + 1 < hi {
      ShiftedMin(c, s, lo, hi - 1);
      assert Shifted(c, s)[hi - 1].lag == c[hi - 1].lag + s;
    } else {
      assert Shifted(c, s)[lo].lag == c[lo].lag + s;
    }
  }

  /** Planning a repaired chain of one group again decides to leave every segment alone. */
  lemma {:induction false} ReplanningOneGroupIsNoop(c: seq<Raw>, i: nat)
    requires i < |c| && Head(c, |c| - 1) == 0
    ensures DecisionAt(Shifted(c, DecisionAt(c, 0).shift), i) == Decision(0, Noop, false)
  {
    var s := DecisionAt(c, 0).shift;
    HeadBetween(c, |c| - 1, i);
    ShiftedHead(c, s, i);
    ShiftedHead(c, s, 0);
    ShiftedEnd(c, s, 0);
    ShiftedMin(c, s, 0, GroupEnd(c, 0));
    PlanLandsInWindow(MinLag(c, 0, GroupEnd(c, 0)));
  }
}
