/** The V3 tool's re-check of a file it has rewritten, and when a repair passes it. */
module RepairVerification {
  import opened Prelude
  import opened AnchorRepair
  import opened AnchorPlanning
  import opened RepairedFile
  import opened RepairRun

  // ---- the check ----------------------------------------------------------------------------------

  datatype Verdict = Fine | StepsBack(count: nat) | Implausible(lag: int)

  function StepCount(y: seq<int>, n: nat): (count: nat)
    requires n < |y| || n == 0
    ensures count == 0 <==> forall i :: 0 <= i < n ==> y[i + 1] >= y[i]
  {
    if n == 0 then 0 else if y[n] < y[n - 1] then StepCount(y, n - 1) + 1 else StepCount(y, n - 1)
  }

  predicate StepAt(y: seq<int>, i: nat)
    requires i + 1 < |y|
  {
    y[i + 1] < y[i]
  }

  function StepsAt(y: seq<int>, n: nat): set<nat>
    requires n < |y| || n == 0
  {
    set i: nat | i < n && StepAt(y, i)
  }

  /** The count is the number of steps back. */
  lemma {:induction false} StepCountExactly(y: seq<int>, n: nat)
    requires n < |y| || n == 0
    ensures StepCount(y, n) == |StepsAt(y, n)|
  {
    if n == 0 {
      assert StepsAt(y, n) == {};
    } else {
      StepCountExactly(y, n - 1);
      var before := StepsAt(y, n - 1);
      assert n - 1 !in before;
      assert StepsAt(y, n) == if StepAt(y, n - 1) then before + {n - 1} else before;
    }
  }

  /** The smallest lag of a segment. */
  function SegmentLag(y: seq<int>, e: seq<int>, k: nat): int
    requires y != [] && |e| == |y| && k < |Split(y)|
  {
    SpanWithin(y, k);
    SmallestDiff(y, e, Split(y)[k].start, Split(y)[k].end)
  }

  predicate Plausible(y: seq<int>, e: seq<int>, k: nat)
    requires y != [] && |e| == |y| && k < |Split(y)|
  {
    AbsInt(SegmentLag(y, e, k)) <= WINDOW
  }

  /** Arrival never steps back, and every segment lies within the plausible window of its events. */
  predicate Passes(y: seq<int>, e: seq<int>)
    requires |e| == |y|
  {
    y != [] ==>
      && (forall i :: 0 <= i < |y| - 1 ==> y[i + 1] >= y[i])
      && forall k :: 0 <= k < |Split(y)| ==> Plausible(y, e, k)
  }

  method CountSteps(y: seq<int>) returns (count: nat)
    requires y != []
    ensures count == StepCount(y, |y| - 1)
  {
    count := 0;
    for i := 0 to |y| - 1
      invariant count == StepCount(y, i)
    {
      if y[i + 1] < y[i] {
        count := count + 1;
      }
    }
  }

  /** No segment before `k` lags more than `worst`, which is the lag of one of them or nothing to report. */
  predicate WorstUpTo(y: seq<int>, e: seq<int>, k: nat, worst: int)
    requires y != [] && |e| == |y| && k <= |Split(y)|
  {
    && (forall j :: 0 <= j < k ==> AbsInt(SegmentLag(y, e, j)) <= AbsInt(worst))
    && (worst == 0 || exists j :: 0 <= j < k && worst == SegmentLag(y, e, j))
  }

  lemma WorstNext(y: seq<int>, e: seq<int>, k: nat, worst: int, lag: int)
    requires y != [] && |e| == |y| && k < |Split(y)| && WorstUpTo(y, e, k, worst) && lag == SegmentLag(y, e, k)
    ensures WorstUpTo(y, e, k + 1, if AbsInt(lag) > AbsInt(worst) then lag else worst)
  {
  }

  method WorstLag(y: seq<int>, e: seq<int>) returns (worst: int)
    requires y != [] && |e| == |y|
    ensures WorstUpTo(y, e, |Split(y)|, worst)
  {
    worst := 0;
    for k := 0 to |Split(y)|
      invariant WorstUpTo(y, e, k, worst)
    {
      var lag := SegmentLag(y, e, k);
      WorstNext(y, e, k, worst, lag);
      if AbsInt(lag) > AbsInt(worst) {
        worst := lag;
      }
    }
  }

  /** `verify_file` on the scanned series. */
  method VerifyFile(y: seq<int>, e: seq<int>) returns (v: Verdict)
    requires |e| == |y|
    ensures v == Fine <==> Passes(y, e)
    ensures v.StepsBack? ==> y != [] && v.count == StepCount(y, |y| - 1) > 0
    ensures v.Implausible? ==> y != [] && AbsInt(v.lag) > WINDOW && WorstUpTo(y, e, |Split(y)|, v.lag)
  {
    if |y| == 0 {
      return Fine;
    }
    var backwards := CountSteps(y);
    if backwards > 0 {
      return StepsBack(backwards);
    }
    var worst := WorstLag(y, e);
    if AbsInt(worst) > WINDOW {
      ghost var k :| 0 <= k < |Split(y)| && worst == SegmentLag(y, e, k);
      assert !Plausible(y, e, k);
      return Implausible(worst);
    }
    return Fine;
  }

  // ---- segments of the source inside segments of the repaired series ------------------------------

  lemma {:induction false} HolderFrom(x: seq<int>, i: nat, k: nat) returns (j: nat)
    requires i < |x| && k < |Split(x)| && Split(x)[k].start <= i
    ensures j < |Split(x)| && Split(x)[j].start <= i < Split(x)[j].end
    decreases |Split(x)| - k
  {
    if i < Split(x)[k].end {
      j := k;
    } else {
      SplitSeam(x, k);
      j := HolderFrom(x, i, k + 1);
    }
  }

  /** Inside a segment of the source the repaired series has no break. */
  lemma {:induction false} NoBreakInside(x: seq<int>, ds: seq<Decision>, k: nat, i: nat)
    requires x != [] && |ds| == |Split(x)|
    requires k < |Split(x)| && Split(x)[k].start <= i && i + 1 < Split(x)[k].end
    ensures i + 1 < |x| && !IsBreak(Repaired(x, ds), i)
  {
    SpanWithin(x, k);
    RepairedAt(x, ds, k, i);
    RepairedAt(x, ds, k, i + 1);
    SplitAtBreaks(x, k, i);
  }

  lemma {:induction false} BreakIsOutside(x: seq<int>, ds: seq<Decision>, k: nat, b: nat)
    requires x != [] && |ds| == |Split(x)| && k < |Split(x)|
    requires 0 < b < |x| && IsBreak(Repaired(x, ds), b - 1)
    ensures b <= Split(x)[k].start || Split(x)[k].end <= b
  {
    if Split(x)[k].start < b < Split(x)[k].end {
      NoBreakInside(x, ds, k, b - 1);
    }
  }

  /** So a segment of the source that shares a tick with a segment of the repaired series lies within it. */
  lemma {:induction false} SegmentInside(x: seq<int>, ds: seq<Decision>, y: seq<int>, k: nat, j: nat, i: nat)
    requires x != [] && |ds| == |Split(x)| && y == Repaired(x, ds)
    requires k < |Split(x)| && Split(x)[k].start <= i < Split(x)[k].end
    requires j < |Split(y)| && Split(y)[j].start <= i < Split(y)[j].end
    ensures Split(y)[j].start <= Split(x)[k].start && Split(x)[k].end <= Split(y)[j].end
  {
    var a, b := Split(y)[j].start, Split(y)[j].end;
    SpanWithin(x, k);
    SpanWithin(y, j);
    if a > 0 {
      CutPointsAscend(y, 0, j);
      BreakIsOutside(x, ds, k, a);
    }
    if b < |y| {
      SplitAtBreaks(y, j, b - 1);
      BreakIsOutside(x, ds, k, b);
    }
  }

  // ---- order --------------------------------------------------------------------------------------

  /** A scanned file in the chain of its symbol, with the decisions planning gave its segments. */
  predicate FileIn(x: seq<int>, e: seq<int>, c: seq<Raw>, offset: nat, ds: seq<Decision>) {
    && x != [] && |e| == |x| && offset + |Split(x)| <= |c|
    && c[offset..offset + |Split(x)|] == RawsOf(x, e)
    && |ds| == |Split(x)| && DecidedIn(ds, x, c, offset)
  }

  /** The source does not step back from segment `k` to the next, or the next belongs to another anchor group. */
  predicate SeamKeepsOrder(x: seq<int>, c: seq<Raw>, offset: nat, k: nat)
    requires x != [] && offset + |Split(x)| <= |c| && k + 1 < |Split(x)|
  {
    SpanWithin(x, k);
    SpanWithin(x, k + 1);
    Head(c, offset + k + 1) == Head(c, offset + k) ==> x[Split(x)[k].end] >= x[Split(x)[k].end - 1]
  }

  predicate KeepsOrder(x: seq<int>, c: seq<Raw>, offset: nat)
    requires x != [] && offset + |Split(x)| <= |c|
  {
    forall k :: 0 <= k < |Split(x)| - 1 ==> SeamKeepsOrder(x, c, offset, k)
  }

  lemma {:induction false} InChain(x: seq<int>, e: seq<int>, c: seq<Raw>, offset: nat, ds: seq<Decision>)
    requires FileIn(x, e, c, offset, ds)
    ensures Placed(x, c, offset)
  {
    ScannedIsPlaced(x, e, c, offset);
  }

  lemma {:induction false} SeamSteps(x: seq<int>, c: seq<Raw>, offset: nat, ds: seq<Decision>, k: nat, b: nat)
    requires x != [] && Placed(x, c, offset) && DecidedIn(ds, x, c, offset) && |ds| == |Split(x)|
    requires k + 1 < |Split(x)| && b == Split(x)[k].end
    ensures 0 < b < |x| && (Repaired(x, ds)[b] >= Repaired(x, ds)[b - 1] <==> SeamKeepsOrder(x, c, offset, k))
  {
    SpanWithin(x, k);
    SpanWithin(x, k + 1);
    RepairedAcross(x, c, offset, ds, k, b - 1);
  }

  lemma {:induction false} TickKeepsOrder(x: seq<int>, e: seq<int>, c: seq<Raw>, offset: nat, ds: seq<Decision>, i: nat)
    requires FileIn(x, e, c, offset, ds) && KeepsOrder(x, c, offset) && i + 1 < |x|
    ensures Repaired(x, ds)[i + 1] >= Repaired(x, ds)[i]
  {
    SplitCovers(x);
    InChain(x, e, c, offset, ds);
    var k := HolderFrom(x, i, 0);
    if i + 1 == Split(x)[k].end {
      SplitSeam(x, k);
      SeamSteps(x, c, offset, ds, k, i + 1);
    } else {
      RepairedInside(x, c, offset, ds, k, i);
    }
  }

  // ---- lags ---------------------------------------------------------------------------------------

  /** What is left of a segment's lag. */
  function Residual(c: seq<Raw>, offset: nat, ds: seq<Decision>, k: nat): int
    requires offset + k < |c| && k < |ds|
  {
    c[offset + k].lag + ds[k].shift
  }

  lemma {:induction false} ResidualIs(x: seq<int>, e: seq<int>, c: seq<Raw>, offset: nat, ds: seq<Decision>, k: nat)
    requires FileIn(x, e, c, offset, ds) && k < |Split(x)|
    ensures Residual(c, offset, ds, k) == SegmentLag(x, e, k) + ds[k].shift
    ensures Residual(c, offset, ds, k) >= -WINDOW
  {
    SpanWithin(x, k);
    assert c[offset + k] == c[offset..offset + |Split(x)|][k] == RawsOf(x, e)[k];
    DecidedInAt(ds, x, c, offset, k);
    ResidualBounds(c, offset + k);
  }

  /** A tick's lag is at least the residual of its segment. */
  lemma {:induction false} TickLag(x: seq<int>, e: seq<int>, c: seq<Raw>, offset: nat, ds: seq<Decision>, k: nat,
                                   i: nat)
    requires FileIn(x, e, c, offset, ds) && k < |Split(x)| && Split(x)[k].start <= i < Split(x)[k].end
    ensures i < |x| && Repaired(x, ds)[i] - e[i] >= Residual(c, offset, ds, k)
  {
    SpanWithin(x, k);
    ResidualIs(x, e, c, offset, ds, k);
    RepairedAt(x, ds, k, i);
    SmallestDiffIs(x, e, Split(x)[k].start, Split(x)[k].end);
  }

  /** Some tick of the segment has it. */
  lemma {:induction false} LaggingTick(x: seq<int>, e: seq<int>, c: seq<Raw>, offset: nat, ds: seq<Decision>, k: nat)
    returns (i: nat)
    requires FileIn(x, e, c, offset, ds) && k < |Split(x)|
    ensures i < |x| && Split(x)[k].start <= i < Split(x)[k].end
    ensures Repaired(x, ds)[i] - e[i] == Residual(c, offset, ds, k)
  {
    SpanWithin(x, k);
    var a, b := Split(x)[k].start, Split(x)[k].end;
    SmallestDiffIs(x, e, a, b);
    i :| a <= i < b && SmallestDiff(x, e, a, b) == x[i] - e[i];
    ResidualIs(x, e, c, offset, ds, k);
    RepairedAt(x, ds, k, i);
  }

  /** Segment `j` of the repaired series holds a segment of the source whose residual is within the window. */
  predicate RunIsPlausible(x: seq<int>, c: seq<Raw>, offset: nat, ds: seq<Decision>, j: nat)
    requires offset + |Split(x)| <= |c| && |ds| == |Split(x)| && j < |Split(Repaired(x, ds))|
  {
    var run := Split(Repaired(x, ds))[j];
    exists k :: 0 <= k < |ds| && run.start <= Split(x)[k].start < run.end && Residual(c, offset, ds, k) <= WINDOW
  }

  lemma {:induction false} PlausibleHolds(x: seq<int>, e: seq<int>, c: seq<Raw>, offset: nat, ds: seq<Decision>, j: nat)
    requires FileIn(x, e, c, offset, ds) && j < |Split(Repaired(x, ds))| && Plausible(Repaired(x, ds), e, j)
    ensures RunIsPlausible(x, c, offset, ds, j)
  {
    var y := Repaired(x, ds);
    var a, b := Split(y)[j].start, Split(y)[j].end;
    SpanWithin(y, j);
    SmallestDiffIs(y, e, a, b);
    var i :| a <= i < b && SmallestDiff(y, e, a, b) == y[i] - e[i];
    SplitCovers(x);
    var k := HolderFrom(x, i, 0);
    SegmentInside(x, ds, y, k, j, i);
    TickLag(x, e, c, offset, ds, k, i);
    SpanWithin(x, k);
  }

  lemma {:induction false} NeverBelowWindow(x: seq<int>, e: seq<int>, c: seq<Raw>, offset: nat, ds: seq<Decision>,
                                            j: nat)
    requires FileIn(x, e, c, offset, ds) && j < |Split(Repaired(x, ds))|
    ensures SegmentLag(Repaired(x, ds), e, j) >= -WINDOW
  {
    var y := Repaired(x, ds);
    var a, b := Split(y)[j].start, Split(y)[j].end;
    SpanWithin(y, j);
    SmallestDiffIs(y, e, a, b);
    var i :| a <= i < b && SmallestDiff(y, e, a, b) == y[i] - e[i];
    SplitCovers(x);
    var k := HolderFrom(x, i, 0);
    TickLag(x, e, c, offset, ds, k, i);
    ResidualIs(x, e, c, offset, ds, k);
  }

  lemma {:induction false} HeldIsPlausible(x: seq<int>, e: seq<int>, c: seq<Raw>, offset: nat, ds: seq<Decision>,
                                           j: nat)
    requires FileIn(x, e, c, offset, ds) && j < |Split(Repaired(x, ds))| && RunIsPlausible(x, c, offset, ds, j)
    ensures Plausible(Repaired(x, ds), e, j)
  {
    var y := Repaired(x, ds);
    var run := Split(y)[j];
    var k :| 0 <= k < |ds| && run.start <= Split(x)[k].start < run.end && Residual(c, offset, ds, k) <= WINDOW;
    var i := LaggingTick(x, e, c, offset, ds, k);
    SpanWithin(x, k);
    SegmentInside(x, ds, y, k, j, Split(x)[k].start);
    SpanWithin(y, j);
    SmallestDiffIs(y, e, run.start, run.end);
    NeverBelowWindow(x, e, c, offset, ds, j);
  }

  /** The tool accepts its own repair of a file exactly when no two neighbouring segments of one anchor group step back
      in the source, and every stretch of the repaired series holds a segment that came within the window. */
  lemma {:induction false} RepairPassesExactly(x: seq<int>, e: seq<int>, c: seq<Raw>, offset: nat, ds: seq<Decision>)
    requires FileIn(x, e, c, offset, ds)
    ensures Passes(Repaired(x, ds), e) <==>
              && KeepsOrder(x, c, offset)
              && forall j :: 0 <= j < |Split(Repaired(x, ds))| ==> RunIsPlausible(x, c, offset, ds, j)
  {
    var y := Repaired(x, ds);
    if Passes(y, e) {
      forall k | 0 <= k < |Split(x)| - 1 ensures SeamKeepsOrder(x, c, offset, k) {
        InChain(x, e, c, offset, ds);
        SeamSteps(x, c, offset, ds, k, Split(x)[k].end);
        assert y[Split(x)[k].end - 1 + 1] >= y[Split(x)[k].end - 1];
      }
      forall j | 0 <= j < |Split(y)| ensures RunIsPlausible(x, c, offset, ds, j) {
        PlausibleHolds(x, e, c, offset, ds, j);
      }
    }
    if KeepsOrder(x, c, offset) && forall j :: 0 <= j < |Split(y)| ==> RunIsPlausible(x, c, offset, ds, j) {
      forall i | 0 <= i < |y| - 1 ensures y[i + 1] >= y[i] {
        TickKeepsOrder(x, e, c, offset, ds, i);
      }
      forall j | 0 <= j < |Split(y)| ensures Plausible(y, e, j) {
        HeldIsPlausible(x, e, c, offset, ds, j);
      }
    }
  }

  // ---- a repair that is rejected ------------------------------------------------------------------

  lemma {:induction false} SplitOfTwo(x: seq<int>)
    requires |x| == 2 && IsBreak(x, 0)
    ensures Split(x) == [Span(0, 1), Span(1, 2)]
  {
    assert Breaks(Init(x)) == [];
    assert Breaks(x) == [1];
    assert CutPoints(x) == [0, 1, 2];
  }

  lemma {:induction false} PlanOfTwo(c: seq<Raw>)
    requires |c| == 2 && c[0].lag == 3_900_000 && c[1].lag == 3_960_000
    ensures DecisionAt(c, 0) == DecisionAt(c, 1) == Decision(-3_600_000, HourSnap, false)
  {
    assert Head(c, 1) == 0 && GroupEnd(c, 1) == 2 && GroupEnd(c, 0) == 2;
    assert MinLag(c, 0, 1) == 3_900_000 && MinLag(c, 0, 2) == 3_900_000;
    NearestHour(3_900_000, 1);
  }

  /** One anchor group, two ticks more than seven days apart, with lags of 65 and 66 minutes. The plan takes one hour
      off both; the second keeps a lag of six minutes, so the tool rejects the file it has just written. */
  lemma {:induction false} RejectedRepairCounterexample(x: seq<int>, e: seq<int>, ds: seq<Decision>)
    requires x == [3_900_000, 700_000_000] && e == [0, 696_040_000] && ds == Decisions(RawsOf(x, e))
    ensures FileIn(x, e, RawsOf(x, e), 0, ds) && Repaired(x, ds) == [300_000, 696_400_000]
    ensures !Passes(Repaired(x, ds), e)
  {
    var c, y := RawsOf(x, e), Repaired(x, ds);
    SplitOfTwo(x);
    PlanOfTwo(c);
    RepairedAt(x, ds, 0, 0);
    RepairedAt(x, ds, 1, 1);
    SplitOfTwo(y);
    assert SegmentLag(y, e, 1) == 360_000;
    assert !Plausible(y, e, 1);
  }
}
