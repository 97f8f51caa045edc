/** The V3 planner as it runs: scanning a file into anchor segments, planning all files of a symbol in place, and
    checking arrival across file boundaries. */
module AnchorPlanning {
  import opened Prelude
  import opened AnchorRepair

  // ---- scanning: where the collector's anchor changed -------------------------------------------

  datatype Span = Span(start: nat, end: nat)

  predicate IsBreak(x: seq<int>, i: nat)
    requires i + 1 < |x|
  {
    x[i + 1] - x[i] < 0 || x[i + 1] - x[i] > SPLIT_FORWARD
  }

  /** The positions right after a break, ascending. */
  function Breaks(x: seq<int>): (b: seq<nat>)
    ensures forall k :: 0 <= k < |b| ==> 0 < b[k] < |x| && IsBreak(x, b[k] - 1)
    ensures forall j, k :: 0 <= j < k < |b| ==> b[j] < b[k]
    ensures forall i :: 0 < i < |x| && IsBreak(x, i - 1) ==> i in b
  {
    if |x| < 2 then []
    else if IsBreak(x, |x| - 2) then Breaks(Init(x)) + [|x| - 1]
    else Breaks(Init(x))
  }

  function CutPoints(x: seq<int>): (b: seq<nat>)
    ensures |b| == |Breaks(x)| + 2 && b[0] == 0 && Last(b) == |x|
    ensures forall k :: 0 < k < |b| - 1 ==> b[k] == Breaks(x)[k - 1]
  {
    [0] + Breaks(x) + [|x|]
  }

  lemma {:induction false} CutPointsAscend(x: seq<int>, j: nat, k: nat)
    requires x != [] && j < k < |CutPoints(x)|
    ensures CutPoints(x)[j] < CutPoints(x)[k] <= |x|
    ensures k < |CutPoints(x)| - 1 ==> CutPoints(x)[k] < |x| && IsBreak(x, CutPoints(x)[k] - 1)
  {
    var b, n := CutPoints(x), |CutPoints(x)|;
    assert j > 0 && k < n - 1 ==> Breaks(x)[j - 1] < Breaks(x)[k - 1];
  }

  lemma {:induction false} BreakIsCut(x: seq<int>, i: nat) returns (k: nat)
    requires 0 < i < |x| && IsBreak(x, i - 1)
    ensures k < |CutPoints(x)| && CutPoints(x)[k] == i
  {
    var b := Breaks(x);
    assert i in b;
    var j :| 0 <= j < |b| && b[j] == i;
    k := j + 1;
  }

  /** `split_anchor_segments`: the spans between neighbouring bounds (one empty span for an empty series). */
  function Split(x: seq<int>): (spans: seq<Span>)
    ensures |spans| == |CutPoints(x)| - 1
    ensures forall k :: 0 <= k < |spans| ==> spans[k] == Span(CutPoints(x)[k], CutPoints(x)[k + 1])
  {
    var b := CutPoints(x);
    seq(|b| - 1, k requires 0 <= k < |b| - 1 => Span(b[k], b[k + 1]))
  }

  lemma {:induction false} SpanWithin(x: seq<int>, k: nat)
    requires x != [] && k < |Split(x)|
    ensures Split(x)[k].start < Split(x)[k].end <= |x|
  {
    CutPointsAscend(x, k, k + 1);
  }

  /** The spans cut a non-empty series into consecutive non-empty pieces ... */
  lemma {:induction false} SplitCovers(x: seq<int>)
    requires x != []
    ensures Split(x)[0].start == 0 && Last(Split(x)).end == |x|
    ensures forall k :: 0 <= k < |Split(x)| ==> Split(x)[k].start < Split(x)[k].end <= |x|
    ensures forall j, k :: 0 <= j < |Split(x)| && 0 <= k < |Split(x)| && k == j + 1 ==>
              Split(x)[j].end == Split(x)[k].start
  {
    forall k | 0 <= k < |Split(x)| ensures Split(x)[k].start < Split(x)[k].end <= |x| {
      SpanWithin(x, k);
    }
  }

  lemma {:induction false} CutEarlier(x: seq<int>, j: nat, k: nat)
    requires x != [] && j <= k < |CutPoints(x)|
    ensures CutPoints(x)[j] <= CutPoints(x)[k]
  {
    if j < k {
      CutPointsAscend(x, j, k);
    }
  }

  /** ... exactly at its breaks. */
  lemma {:induction false} SplitAtBreaks(x: seq<int>, k: nat, i: nat)
    requires x != [] && k < |Split(x)| && Split(x)[k].start <= i < Split(x)[k].end && i + 1 < |x|
    ensures IsBreak(x, i) <==> i + 1 == Split(x)[k].end
    ensures i + 1 == Split(x)[k].end <==> x[i + 1] < x[i] || x[i + 1] > x[i] + 7 * 24 * 3_600_000
  {
    var b := CutPoints(x);
    CutPointsAscend(x, k, k + 1);
    if IsBreak(x, i) {
      var j := BreakIsCut(x, i + 1);
      if j <= k {
        CutEarlier(x, j, k);
      } else if k + 1 < j {
        CutPointsAscend(x, k + 1, j);
      }
    }
  }

  /** The chain holds the segments of this file from `offset` on. */
  predicate Placed(x: seq<int>, c: seq<Raw>, offset: nat) {
    && offset + |Split(x)| <= |c|
    && forall k :: 0 <= k < |Split(x)| ==>
         && 0 <= Split(x)[k].start < Split(x)[k].end <= |x|
         && c[offset + k].first == x[Split(x)[k].start] && c[offset + k].last == x[Split(x)[k].end - 1]
  }

  /** Where a span ends before the series does, the next span begins. */
  lemma {:induction false} SplitSeam(x: seq<int>, k: nat)
    requires k < |Split(x)| && Split(x)[k].end < |x|
    ensures k + 1 < |Split(x)| && Split(x)[k + 1].start == Split(x)[k].end
  {
  }

  lemma {:induction false} PlacedSeam(x: seq<int>, c: seq<Raw>, offset: nat, k: nat)
    requires Placed(x, c, offset) && k + 1 < |Split(x)| && Split(x)[k + 1].start == Split(x)[k].end
    ensures var end := Split(x)[k].end;
            0 < end < |x| && c[offset + k].last == x[end - 1] && c[offset + k + 1].first == x[end]
  {
    var n := k + 1;
    assert 0 <= Split(x)[k].start && Split(x)[n].end <= |x|;
  }

  /** The repaired series of one file, tick by tick: inside a segment arrival keeps the source's order, and between
      two segments it steps back exactly where the source did inside one anchor group. */
  lemma {:induction false} RepairedTicks(x: seq<int>, c: seq<Raw>, offset: nat, k: nat, i: nat)
    requires x != [] && Placed(x, c, offset)
    requires k < |Split(x)| && Split(x)[k].start <= i < Split(x)[k].end && i + 1 < |x|
    ensures i + 1 < Split(x)[k].end ==> x[i + 1] >= x[i]
    ensures i + 1 == Split(x)[k].end ==>
              && k + 1 < |Split(x)|
              && (x[i + 1] + DecisionAt(c, offset + k + 1).shift < x[i] + DecisionAt(c, offset + k).shift <==>
                  Head(c, offset + k + 1) == Head(c, offset + k) && x[i + 1] < x[i])
  {
    SplitAtBreaks(x, k, i);
    if i + 1 == Split(x)[k].end {
      SplitSeam(x, k);
      PlacedSeam(x, c, offset, k);
      StepsBackExactly(c, offset + k + 1);
    }
  }

  // ---- planning in place ------------------------------------------------------------------------

  class SegmentPlan {
    const raw: Raw
    var decision: Option<Decision>  // None while pending

    constructor (raw: Raw)
      ensures this.raw == raw && decision == None
    {
      this.raw := raw;
      decision := None;
    }
  }

  function Raws(chain: seq<SegmentPlan>): (c: seq<Raw>)
    ensures |c| == |chain|
  {
    seq(|chain|, i requires 0 <= i < |chain| => chain[i].raw)
  }

  /** The heads of all groups in order, each group ending where the next begins. */
  predicate IsHeads(c: seq<Raw>, heads: seq<nat>) {
    && heads != [] && heads[0] == 0
    && (forall k :: 0 <= k < |heads| ==> heads[k] < |c| && Head(c, heads[k]) == heads[k])
    && (forall k :: 0 <= k < |heads| ==> GroupEnd(c, heads[k]) == if k + 1 < |heads| then heads[k + 1] else |c|)
  }

  lemma {:induction false} EndsAtNextHead(c: seq<Raw>, h: nat, i: nat)
    requires 0 < i < |c| && Head(c, i - 1) == h && Head(c, i) == i
    ensures Head(c, h) == h && GroupEnd(c, h) == i
  {
    HeadOfHead(c, i - 1);
    InGroup(c, h, i - 1);
    InGroup(c, h, i);
  }

  lemma {:induction false} EndsAtChainEnd(c: seq<Raw>, h: nat)
    requires c != [] && Head(c, |c| - 1) == h
    ensures Head(c, h) == h && GroupEnd(c, h) == |c|
  {
    HeadOfHead(c, |c| - 1);
    InGroup(c, h, |c| - 1);
  }

  /** Start a new group whenever a segment's lag departs from the current group's first lag. */
  method FindGroups(c: seq<Raw>) returns (heads: seq<nat>)
    requires c != []
    ensures IsHeads(c, heads)
  {
    heads := [0];
    for i := 1 to |c|
      invariant heads != [] && heads[0] == 0 && Last(heads) == Head(c, i - 1)
      invariant forall k :: 0 <= k < |heads| ==> heads[k] < i && Head(c, heads[k]) == heads[k]
      invariant forall k :: 0 <= k < |heads| - 1 ==> GroupEnd(c, heads[k]) == heads[k + 1]
    {
      if AbsInt(c[i].lag - c[Last(heads)].lag) > TOLERANCE {
        EndsAtNextHead(c, Last(heads), i);
        heads := heads + [i];
      }
    }
    EndsAtChainEnd(c, Last(heads));
  }

  method SmallestLag(c: seq<Raw>, lo: nat, hi: nat) returns (m: int)
    requires lo < hi <= |c|
    ensures m == MinLag(c, lo, hi)
  {
    m := c[lo].lag;
    for i := lo + 1 to hi
      invariant m == MinLag(c, lo, i)
    {
      if c[i].lag < m {
        m := c[i].lag;
      }
    }
  }

  lemma {:induction false} GroupDecision(c: seq<Raw>, lo: nat, hi: nat, i: nat)
    requires lo < |c| && Head(c, lo) == lo && GroupEnd(c, lo) == hi && lo <= i < hi
    ensures DecisionAt(c, i) == DecisionAt(c, lo)
  {
    InGroup(c, lo, i);
  }

  method Assign(chain: seq<SegmentPlan>, lo: nat, hi: nat, d: Decision)
    requires lo <= hi <= |chain| && Distinct(chain)
    modifies chain
    ensures forall i :: lo <= i < hi ==> chain[i].decision == Some(d)
    ensures forall i :: 0 <= i < |chain| && !(lo <= i < hi) ==> chain[i].decision == old(chain[i].decision)
  {
    for i := lo to hi
      invariant forall j :: lo <= j < i ==> chain[j].decision == Some(d)
      invariant forall j :: 0 <= j < |chain| && !(lo <= j < i) ==> chain[j].decision == old(chain[j].decision)
    {
      chain[i].decision := Some(d);
    }
  }

  /** Where group `k` begins; the chain's end after the last group. */
  function Cut(c: seq<Raw>, heads: seq<nat>, k: nat): nat {
    if k < |heads| then heads[k] else |c|
  }

  /** The decisions of a whole chain. */
  function Decisions(c: seq<Raw>): (ds: seq<Decision>)
    ensures |ds| == |c|
  {
    seq(|c|, i requires 0 <= i < |c| => DecisionAt(c, i))
  }

  predicate DecidedUpTo(chain: seq<SegmentPlan>, ds: seq<Decision>, n: nat)
    requires n <= |chain| == |ds|
    reads chain
  {
    forall i :: 0 <= i < n ==> chain[i].decision == Some(ds[i])
  }

  /** The repaired end of the segment before position `n`. */
  function EndBefore(c: seq<Raw>, ds: seq<Decision>, n: nat): Option<int>
    requires n <= |c| == |ds|
  {
    if n == 0 then None else Some(c[n - 1].last + ds[n - 1].shift)
  }

  /** A group's decision follows from the end of the group before it, and all its members share it. */
  lemma {:induction false} GroupDecides(c: seq<Raw>, lo: nat, hi: nat, ds: seq<Decision>)
    requires lo < hi <= |c| && Head(c, lo) == lo && GroupEnd(c, lo) == hi && ds == Decisions(c)
    ensures ds[lo] == Lift(PlanSegment(MinLag(c, lo, hi)), c[lo].first, EndBefore(c, ds, lo))
    ensures forall i :: lo <= i < hi ==> ds[i] == ds[lo]
  {
    forall i | lo <= i < hi ensures ds[i] == ds[lo] {
      GroupDecision(c, lo, hi, i);
    }
  }

  /** The decision of the group that spans `lo..hi`, from the end of the group before it. */
  method DecideGroup(c: seq<Raw>, lo: nat, hi: nat, previousEnd: Option<int>, ghost ds: seq<Decision>)
    returns (d: Decision)
    requires ds == Decisions(c) && lo < hi <= |c| && Head(c, lo) == lo && GroupEnd(c, lo) == hi
    requires previousEnd == EndBefore(c, ds, lo)
    ensures forall i :: lo <= i < hi ==> ds[i] == d
  {
    var groupLag := SmallestLag(c, lo, hi);
    d := Lift(PlanSegment(groupLag), c[lo].first, previousEnd);
    GroupDecides(c, lo, hi, ds);
  }

  /** Decide one group and write its decision into every segment of it. */
  method PlanGroup(chain: seq<SegmentPlan>, c: seq<Raw>, lo: nat, hi: nat, previousEnd: Option<int>,
                   ghost ds: seq<Decision>) returns (groupEnd: Option<int>)
    requires Distinct(chain) && |c| == |chain| && ds == Decisions(c)
    requires lo < hi <= |c| && Head(c, lo) == lo && GroupEnd(c, lo) == hi
    requires previousEnd == EndBefore(c, ds, lo)
    requires DecidedUpTo(chain, ds, lo)
    modifies chain
    ensures DecidedUpTo(chain, ds, hi)
    ensures groupEnd == EndBefore(c, ds, hi)
  {
    var d := DecideGroup(c, lo, hi, previousEnd, ds);
    Assign(chain, lo, hi, d);
    groupEnd := Some(c[hi - 1].last + d.shift);
  }

  lemma {:induction false} CutIsGroup(c: seq<Raw>, heads: seq<nat>, k: nat)
    requires IsHeads(c, heads) && k < |heads|
    ensures Cut(c, heads, k) < Cut(c, heads, k + 1) <= |c|
    ensures Head(c, Cut(c, heads, k)) == Cut(c, heads, k)
    ensures GroupEnd(c, Cut(c, heads, k)) == Cut(c, heads, k + 1)
  {
  }

  /** Group the chain and decide every segment of it. */
  method PlanChain(chain: seq<SegmentPlan>)
    requires chain != [] && Distinct(chain)
    modifies chain
    ensures DecidedUpTo(chain, Decisions(Raws(chain)), |chain|)
  {
    var c := Raws(chain);
    ghost var ds := Decisions(c);
    var heads := FindGroups(c);
    var previousEnd: Option<int> := None;
    var lo := 0;
    for k := 0 to |heads|
      invariant lo == Cut(c, heads, k) <= |c|
      invariant DecidedUpTo(chain, ds, lo)
      invariant previousEnd == EndBefore(c, ds, lo)
    {
      CutIsGroup(c, heads, k);
      var hi := Cut(c, heads, k + 1);
      previousEnd := PlanGroup(chain, c, lo, hi, previousEnd, ds);
      lo := hi;
    }
  }
}
