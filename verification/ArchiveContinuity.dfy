/** Planning all files of one symbol, and the check that arrival does not run backwards between files. */
module ArchiveContinuity {
  import opened Prelude
  import opened AnchorRepair
  import opened AnchorPlanning

  /** A file's first and last collection time after its shifts. */
  datatype Bounds = Bounds(first: int, last: int)

  // ---- files in a chain -------------------------------------------------------------------------

  /** The files' shares of a chain of `n` segments: consecutive, none empty. */
  predicate IsLayout(files: seq<Span>, n: nat) {
    && (forall k :: 0 <= k < |files| ==> files[k].start < files[k].end <= n)
    && (forall j, k :: 0 <= j < |files| && 0 <= k < |files| && k == j + 1 ==> files[j].end == files[k].start)
  }

  function FileBounds(c: seq<Raw>, ds: seq<Decision>, file: Span): Bounds
    requires |ds| == |c| && file.start < file.end <= |c|
  {
    Bounds(c[file.start].first + ds[file.start].shift, c[file.end - 1].last + ds[file.end - 1].shift)
  }

  function BoundsOf(c: seq<Raw>, ds: seq<Decision>, files: seq<Span>): (b: seq<Bounds>)
    requires |ds| == |c| && IsLayout(files, |c|)
    ensures |b| == |files|
  {
    seq(|files|, k requires 0 <= k < |files| => FileBounds(c, ds, files[k]))
  }

  // ---- the check --------------------------------------------------------------------------------

  /** Files whose last bound is zero are left out of the check. */
  function Kept(b: seq<Bounds>): (kept: seq<nat>)
    ensures forall j :: 0 <= j < |kept| ==> kept[j] < |b|
  {
    if b == [] then [] else if Last(b).last != 0 then Kept(Init(b)) + [|b| - 1] else Kept(Init(b))
  }

  /** The kept files are those with a non-zero last bound, in order. */
  lemma {:induction false} KeptExactly(b: seq<Bounds>)
    ensures forall j, k :: 0 <= j < k < |Kept(b)| ==> Kept(b)[j] < Kept(b)[k]
    ensures forall j :: 0 <= j < |Kept(b)| ==> Kept(b)[j] < |b| && b[Kept(b)[j]].last != 0
    ensures forall i :: 0 <= i < |b| && b[i].last != 0 ==> i in Kept(b)
  {
    if b != [] {
      var p := Init(b);
      KeptExactly(p);
      assert forall i :: 0 <= i < |p| ==> b[i] == p[i];
    }
  }

  /** `p` and `q` are kept and nothing between them is. */
  predicate Neighbours(b: seq<Bounds>, p: nat, q: nat) {
    p < q < |b| && b[p].last != 0 && b[q].last != 0 && forall j :: p < j < q ==> b[j].last == 0
  }

  lemma {:induction false} NeighboursAreAdjacent(b: seq<Bounds>, p: nat, q: nat) returns (m: nat)
    requires Neighbours(b, p, q)
    ensures 0 < m < |Kept(b)| && Kept(b)[m - 1] == p && Kept(b)[m] == q
  {
    KeptExactly(b);
    m := AdjacentIn(b, Kept(b), p, q);
  }

  lemma AdjacentIn(b: seq<Bounds>, kept: seq<nat>, p: nat, q: nat) returns (m: nat)
    requires Neighbours(b, p, q) && p in kept && q in kept
    requires forall j, k :: 0 <= j < k < |kept| ==> kept[j] < kept[k]
    requires forall j :: 0 <= j < |kept| ==> kept[j] < |b| && b[kept[j]].last != 0
    ensures 0 < m < |kept| && kept[m - 1] == p && kept[m] == q
  {
    var x :| 0 <= x < |kept| && kept[x] == p;
    m :| 0 <= m < |kept| && kept[m] == q;
    assert x < m;
    assert forall y :: x < y < m ==> p < kept[y] < q;
  }

  lemma {:induction false} AdjacentAreNeighbours(b: seq<Bounds>, m: nat)
    requires 0 < m < |Kept(b)|
    ensures Neighbours(b, Kept(b)[m - 1], Kept(b)[m])
  {
    KeptExactly(b);
    var kept := Kept(b);
    var p, q := kept[m - 1], kept[m];
    assert forall x :: 0 <= x < |kept| ==> kept[x] <= p || q <= kept[x];
  }

  lemma {:induction false} FileStarts(files: seq<Span>, n: nat, k: nat)
    requires IsLayout(files, n) && k + 1 < |files|
    ensures 0 < files[k].end == files[k + 1].start < n
  {
    var m := k + 1;
    assert files[k].end == files[m].start;
  }

  lemma {:induction false} StepAtSeam(c: seq<Raw>, ds: seq<Decision>, files: seq<Span>, k: nat)
    requires ds == Decisions(c) && IsLayout(files, |c|) && k + 1 < |files|
    ensures var b, i := BoundsOf(c, ds, files), files[k + 1].start;
            && 0 < i < |c|
            && (b[k + 1].first < b[k].last <==> Head(c, i) == Head(c, i - 1) && c[i].first < c[i - 1].last)
  {
    FileStarts(files, |c|, k);
    BoundsAtSeam(c, ds, files, k, files[k + 1].start);
    DecidedSteps(c, ds, files[k + 1].start);
  }

  lemma {:induction false} BoundsAtSeam(c: seq<Raw>, ds: seq<Decision>, files: seq<Span>, k: nat, i: nat)
    requires |ds| == |c| && IsLayout(files, |c|)
    requires k + 1 < |files| && 0 < i < |c| && files[k].end == i == files[k + 1].start
    ensures var b := BoundsOf(c, ds, files);
            b[k].last == c[i - 1].last + ds[i - 1].shift && b[k + 1].first == c[i].first + ds[i].shift
  {
  }

  lemma {:induction false} DecidedAt(c: seq<Raw>, ds: seq<Decision>, i: nat)
    requires ds == Decisions(c) && i < |c|
    ensures c[i].first + ds[i].shift == RepairedFirst(c, i) && c[i].last + ds[i].shift == RepairedLast(c, i)
  {
  }

  lemma {:induction false} DecidedSteps(c: seq<Raw>, ds: seq<Decision>, i: nat)
    requires ds == Decisions(c) && 0 < i < |c|
    ensures c[i].first + ds[i].shift < c[i - 1].last + ds[i - 1].shift <==>
            Head(c, i) == Head(c, i - 1) && c[i].first < c[i - 1].last
  {
    var j := i - 1;
    DecidedAt(c, ds, j);
    DecidedAt(c, ds, i);
    StepsBackExactly(c, i);
  }

  // ---- the loops --------------------------------------------------------------------------------

  /** The files that are planned together. */
  datatype Key = Key(broker: string, symbol: string)

  class FilePlan {
    const key: Key
    const skipped: bool
    const firstEvent: int
    const segments: seq<SegmentPlan>
    var firstCollected: int
    var lastCollected: int

    constructor (key: Key, skipped: bool, firstEvent: int, segments: seq<SegmentPlan>)
      ensures this.key == key && this.skipped == skipped && this.firstEvent == firstEvent && this.segments == segments
      ensures firstCollected == 0 && lastCollected == 0
    {
      this.key, this.skipped, this.firstEvent, this.segments := key, skipped, firstEvent, segments;
      firstCollected, lastCollected := 0, 0;
    }
  }

  /** All segments of the files, in order, and the files' shares of them. */
  function Chain(plans: seq<FilePlan>): seq<SegmentPlan> {
    if plans == [] then [] else Chain(Init(plans)) + Last(plans).segments
  }

  function Shares(plans: seq<FilePlan>): (files: seq<Span>)
    ensures |files| == |plans|
  {
    if plans == [] then []
    else Shares(Init(plans)) + [Span(|Chain(Init(plans))|, |Chain(plans)|)]
  }

  predicate NonEmpty(plans: seq<FilePlan>) {
    forall k :: 0 <= k < |plans| ==> plans[k].segments != []
  }

  lemma {:induction false} SharesAreLayout(plans: seq<FilePlan>)
    requires NonEmpty(plans)
    ensures IsLayout(Shares(plans), |Chain(plans)|)
    ensures plans != [] ==> Last(Shares(plans)).end == |Chain(plans)|
  {
    if plans != [] {
      SharesAreLayout(Init(plans));
    }
  }

  lemma {:induction false} ShareAt(plans: seq<FilePlan>, k: nat)
    requires NonEmpty(plans) && k < |plans|
    ensures var file, chain := Shares(plans)[k], Chain(plans);
            file.start < file.end <= |chain| && chain[file.start..file.end] == plans[k].segments
  {
    if k < |plans| - 1 {
      var p := Init(plans);
      assert p[k] == plans[k];
      ShareAt(p, k);
      var file := Shares(p)[k];
      assert Chain(plans)[file.start..file.end] == Chain(p)[file.start..file.end];
    } else {
      var before, own := Chain(Init(plans)), Last(plans).segments;
      assert Chain(plans) == before + own;
      assert (before + own)[|before|..|before + own|] == own;
    }
  }

  lemma {:induction false} ShareEnds(plans: seq<FilePlan>, k: nat)
    requires NonEmpty(plans) && k < |plans|
    ensures var file, chain := Shares(plans)[k], Chain(plans);
            && file.start < file.end <= |chain|
            && chain[file.start] == plans[k].segments[0] && chain[file.end - 1] == Last(plans[k].segments)
  {
    ShareAt(plans, k);
    var file := Shares(plans)[k];
    var own := Chain(plans)[file.start..file.end];
    assert own[0] == Chain(plans)[file.start] && Last(own) == Chain(plans)[file.end - 1];
  }

  /** Fill in the bounds of one planned file. */
  method SetBounds(plan: FilePlan)
    requires plan.segments != []
    requires plan.segments[0].decision.Some? && Last(plan.segments).decision.Some?
    modifies plan
    ensures plan.firstCollected == plan.segments[0].raw.first + plan.segments[0].decision.value.shift
    ensures plan.lastCollected == Last(plan.segments).raw.last + Last(plan.segments).decision.value.shift
  {
    plan.firstCollected := plan.segments[0].raw.first + plan.segments[0].decision.value.shift;
    plan.lastCollected := Last(plan.segments).raw.last + Last(plan.segments).decision.value.shift;
  }

  /** Flatten the files to the chronological chain of their segments. */
  method Flatten(plans: seq<FilePlan>) returns (chain: seq<SegmentPlan>)
    ensures chain == Chain(plans)
  {
    chain := [];
    for k := 0 to |plans|
      invariant chain == Chain(plans[..k])
    {
      assert Init(plans[..k + 1]) == plans[..k];
      chain := chain + plans[k].segments;
    }
    assert plans[..|plans|] == plans;
  }

  /** The bounds that a file's own outer segments give, once they are decided. */
  predicate EndsGive(plan: FilePlan, b: Bounds)
    requires plan.segments != []
    reads plan.segments
  {
    var first, last := plan.segments[0], Last(plan.segments);
    && first.decision.Some? && last.decision.Some?
    && b == Bounds(first.raw.first + first.decision.value.shift, last.raw.last + last.decision.value.shift)
  }

  /** Once the chain is decided, every file's bounds are those of its share of the chain. */
  lemma {:induction false} EndsDecided(plans: seq<FilePlan>, chain: seq<SegmentPlan>, ds: seq<Decision>, k: nat)
    requires NonEmpty(plans) && chain == Chain(plans) && |ds| == |chain| && k < |plans|
    requires IsLayout(Shares(plans), |chain|) && DecidedUpTo(chain, ds, |chain|)
    ensures EndsGive(plans[k], BoundsOf(Raws(chain), ds, Shares(plans))[k])
  {
    var file := Shares(plans)[k];
    ShareEnds(plans, k);
    assert chain[file.start].decision == Some(ds[file.start]) && chain[file.end - 1].decision == Some(ds[file.end - 1]);
    assert BoundsOf(Raws(chain), ds, Shares(plans))[k] == FileBounds(Raws(chain), ds, file);
  }

  predicate BoundsSet(plans: seq<FilePlan>, b: seq<Bounds>, n: nat)
    requires n <= |plans| == |b|
    reads plans
  {
    forall k :: 0 <= k < n ==> Bounds(plans[k].firstCollected, plans[k].lastCollected) == b[k]
  }

  method SetAllBounds(plans: seq<FilePlan>, ghost b: seq<Bounds>)
    requires NonEmpty(plans) && Distinct(plans) && |b| == |plans|
    requires forall k :: 0 <= k < |plans| ==> EndsGive(plans[k], b[k])
    modifies plans
    ensures BoundsSet(plans, b, |plans|)
  {
    for k := 0 to |plans|
      invariant forall j :: 0 <= j < |plans| ==> EndsGive(plans[j], b[j])
      invariant BoundsSet(plans, b, k)
    {
      assert EndsGive(plans[k], b[k]);
      SetBounds(plans[k]);
    }
  }

  /** The files are planned: every segment carries its decision, every file its bounds. */
  ghost predicate Planned(plans: seq<FilePlan>)
    reads plans, Chain(plans)
  {
    && IsLayout(Shares(plans), |Chain(plans)|)
    && Carries(plans, Chain(plans), DecisionsOf(plans), PlannedBounds(plans))
  }

  /** The objects carry the decisions and bounds given. */
  ghost predicate Carries(plans: seq<FilePlan>, chain: seq<SegmentPlan>, ds: seq<Decision>, b: seq<Bounds>)
    reads plans, chain
  {
    |ds| == |chain| && |b| == |plans| && DecidedUpTo(chain, ds, |chain|) && BoundsSet(plans, b, |plans|)
  }

  function DecisionsOf(plans: seq<FilePlan>): (ds: seq<Decision>)
    ensures |ds| == |Chain(plans)|
  {
    Decisions(Raws(Chain(plans)))
  }

  function PlannedBounds(plans: seq<FilePlan>): (b: seq<Bounds>)
    requires IsLayout(Shares(plans), |Chain(plans)|)
  {
    BoundsOf(Raws(Chain(plans)), DecisionsOf(plans), Shares(plans))
  }

  /** Plan every segment of a symbol's files in place and fill in the files' bounds. */
  method PlanSymbol(plans: seq<FilePlan>, ghost all: seq<SegmentPlan>, ghost ds: seq<Decision>, ghost b: seq<Bounds>)
    requires NonEmpty(plans) && Distinct(plans) && Distinct(all) && all == Chain(plans)
    requires IsLayout(Shares(plans), |all|) && ds == DecisionsOf(plans) && b == PlannedBounds(plans)
    modifies plans, all
    ensures Carries(plans, all, ds, b)
  {
    var chain := Flatten(plans);
    if chain == [] {
      ChainEmpty(plans);
    } else {
      PlanChain(chain);
      forall k | 0 <= k < |plans| ensures EndsGive(plans[k], b[k]) {
        EndsDecided(plans, chain, ds, k);
      }
      SetAllBounds(plans, b);
    }
  }

  lemma {:induction false} ChainEmpty(plans: seq<FilePlan>)
    requires NonEmpty(plans) && Chain(plans) == []
    ensures plans == []
  {
  }

  /** What is left of a planned segment's lag. */
  function LagLeft(s: SegmentPlan): int
    requires s.decision.Some?
    reads s
  {
    s.raw.lag + s.decision.value.shift
  }

  lemma {:induction false} PlannedAt(plans: seq<FilePlan>, i: nat)
    requires Planned(plans) && i < |Chain(plans)|
    ensures var c, s := Raws(Chain(plans)), Chain(plans)[i];
            s.decision == Some(DecisionAt(c, i)) && LagLeft(s) == c[i].lag + DecisionAt(c, i).shift
  {
    assert DecidedUpTo(Chain(plans), DecisionsOf(plans), |Chain(plans)|);
  }

  /** In planned files, where a group's lag was removed and no seam interfered, no segment object of the group is left
      with a negative lag, and one is left with none. */
  lemma {:induction false} PlannedLeavesNoLag(plans: seq<FilePlan>, i: nat)
    requires Planned(plans) && i < |Chain(plans)| && Chain(plans)[i].decision.Some?
    requires Chain(plans)[i].decision.value.branch == MinFilter && !Chain(plans)[i].decision.value.seam
    ensures var c, chain := Raws(Chain(plans)), Chain(plans);
            && (forall j: nat :: Together(c, i, j) ==> chain[j].decision.Some? && LagLeft(chain[j]) >= 0)
            && exists k: nat :: Together(c, i, k) && chain[k].decision.Some? && LagLeft(chain[k]) == 0
  {
    var c, chain := Raws(Chain(plans)), Chain(plans);
    PlannedAt(plans, i);
    MinFilterLeavesNoLag(c, i);
    forall j: nat | Together(c, i, j) ensures chain[j].decision.Some? && LagLeft(chain[j]) >= 0 {
      PlannedAt(plans, j);
    }
    var k: nat :| Together(c, i, k) && c[k].lag + DecisionAt(c, k).shift == 0;
    PlannedAt(plans, k);
  }
}
