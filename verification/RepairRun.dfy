/** The V3 tool end to end: scan a file, plan its segments in the archive's chain, rewrite it, scan it again. */
module RepairRun {
  import opened Prelude
  import opened TickText
  import AnchorRepair
  import opened AnchorPlanning
  import ArchiveContinuity
  import opened RepairedFile
  import opened RepairedText

  // ---- the loops that rewrite a file --------------------------------------------------------------

  lemma {:induction false} OverrunStays(lines: seq<Line>, i: nat, shifts: seq<int>, note: seq<string>)
    requires i <= |lines| && Pass(lines[..i], shifts, note).Overrun?
    ensures Pass(lines, shifts, note).Overrun?
    decreases |lines|
  {
    if i < |lines| {
      assert Init(lines)[..i] == lines[..i];
      OverrunStays(Init(lines), i, shifts, note);
    } else {
      assert lines[..i] == lines;
    }
  }

  method FillShifts(n: nat, segments: seq<PlannedSegment>) returns (shifts: array<int>)
    ensures fresh(shifts) && shifts[..] == ShiftPerTick(n, segments)
  {
    shifts := new int[n](i => 0);
    assert shifts[..] == ShiftPerTick(n, segments[..0]);
    for k := 0 to |segments|
      invariant shifts[..] == ShiftPerTick(n, segments[..k])
    {
      var seg := segments[k];
      ghost var before := shifts[..];
      var i := seg.start;
      while i < seg.end && i < n
        invariant seg.start <= i && (i <= n || i == seg.start)
        invariant forall j :: 0 <= j < n ==>
                    shifts[j] == if seg.start <= j < i && j < seg.end then seg.shift else before[j]
      {
        shifts[i] := seg.shift;
        i := i + 1;
      }
      assert Init(segments[..k + 1]) == segments[..k];
      assert shifts[..] == Paint(before, seg);
    }
    assert segments[..|segments|] == segments;
  }

  /** The branch that names a file's repair: the strongest of its segments. */
  function BranchName(segments: seq<PlannedSegment>): (name: string)
    ensures NoQuote(name)
  {
    if exists i :: 0 <= i < |segments| && segments[i].branch == AnchorRepair.MinFilter then "min_filter"
    else if exists i :: 0 <= i < |segments| && segments[i].branch == AnchorRepair.HourSnap then "hour_snap"
    else "noop"
  }

  /** A file is named after the strongest branch of any of its segments. */
  lemma BranchExactly(segments: seq<PlannedSegment>, i: nat)
    requires i < |segments|
    ensures segments[i].branch == AnchorRepair.MinFilter ==> BranchName(segments) == "min_filter"
    ensures segments[i].branch == AnchorRepair.HourSnap ==>
              BranchName(segments) == "min_filter" || BranchName(segments) == "hour_snap"
    ensures (forall k :: 0 <= k < |segments| ==> segments[k].branch != AnchorRepair.MinFilter) ==>
              BranchName(segments) != "min_filter"
    ensures (forall k :: 0 <= k < |segments| ==> segments[k].branch == AnchorRepair.Noop) ==>
              BranchName(segments) == "noop"
  {
    assert |"min_filter"| == 10 && |"hour_snap"| == 9 && |"noop"| == 4;
  }

  function Shifts(segments: seq<PlannedSegment>): seq<int> {
    seq(|segments|, i requires 0 <= i < |segments| => segments[i].shift)
  }

  function NoteOf(segments: seq<PlannedSegment>, applied: string): seq<string> {
    MarkerNote(applied, BranchName(segments), Shifts(segments))
  }

  /** The body of the rewriting loop. */
  method RewriteLine(p: Progress, l: Line, shifts: seq<int>, note: seq<string>) returns (q: Progress)
    requires p.Progress?
    ensures q == PassLine(p, l, shifts, note)
  {
    if !p.marked && l.Version? {
      return Progress(p.out + [l] + Marker(l.indent, note), p.ordinal, true);
    }
    if l.Collected? {
      if p.ordinal >= |shifts| {
        return Overrun;
      }
      return Progress(p.out + [Shifted(l, shifts[p.ordinal])], p.ordinal + 1, p.marked);
    }
    return Progress(p.out + [l], p.ordinal, p.marked);
  }

  method RewriteAll(texts: seq<string>, shifts: seq<int>, note: seq<string>) returns (p: Progress)
    ensures p == Pass(ParseAll(texts), shifts, note)
  {
    ghost var parsed := ParseAll(texts);
    p := Progress([], 0, false);
    for i := 0 to |texts|
      invariant p.Progress? && p == Pass(parsed[..i], shifts, note)
    {
      assert Init(parsed[..i + 1]) == parsed[..i];
      p := RewriteLine(p, Parse(texts[i]), shifts, note);
      if p.Overrun? {
        OverrunStays(parsed, i + 1, shifts, note);
        return;
      }
    }
    assert parsed[..|texts|] == parsed;
  }

  class TickFile {
    var lines: seq<string>

    constructor (lines: seq<string>)
      ensures this.lines == lines
    {
      this.lines := lines;
    }

    /** Replace the file by its rewritten form, or leave it untouched and say why. */
    method ApplyPlan(tickCount: nat, segments: seq<PlannedSegment>, applied: string) returns (failure: Option<Failure>)
      modifies this
      ensures match Outcome(ParseAll(old(lines)), ShiftPerTick(tickCount, segments), NoteOf(segments, applied))
              case Ok(out) => failure == None && lines == Texts(out)
              case Err(error) => failure == Some(error) && lines == old(lines)
    {
      var shifts := FillShifts(tickCount, segments);
      var p := RewriteAll(lines, shifts[..], NoteOf(segments, applied));
      if p.Overrun? {
        return Some(TooManyTicks);
      }
      if p.ordinal != tickCount {
        return Some(CountMismatch);
      }
      if !p.marked {
        return Some(NoVersionLine);
      }
      lines := Texts(p.out);
      return None;
    }
  }

  // ---- from a scan to a plan ----------------------------------------------------------------------

  /** The smallest lag of the ticks in `[lo, hi)` behind their events. */
  function SmallestDiff(x: seq<int>, e: seq<int>, lo: nat, hi: nat): int
    requires lo < hi <= |x| == |e|
  {
    if hi == lo + 1 then x[lo] - e[lo]
    else
      var m := SmallestDiff(x, e, lo, hi - 1);
      if x[hi - 1] - e[hi - 1] < m then x[hi - 1] - e[hi - 1] else m
  }

  lemma {:induction false} SmallestDiffIs(x: seq<int>, e: seq<int>, lo: nat, hi: nat)
    requires lo < hi <= |x| == |e|
    ensures forall i :: lo <= i < hi ==> SmallestDiff(x, e, lo, hi) <= x[i] - e[i]
    ensures exists i :: lo <= i < hi && SmallestDiff(x, e, lo, hi) == x[i] - e[i]
  {
    if lo + 1 < hi {
      SmallestDiffIs(x, e, lo, hi - 1);
      if SmallestDiff(x, e, lo, hi) == x[hi - 1] - e[hi - 1] {
        assert lo <= hi - 1 < hi;
      } else {
        var k :| lo <= k < hi - 1 && SmallestDiff(x, e, lo, hi - 1) == x[k] - e[k];
      }
    } else {
      assert SmallestDiff(x, e, lo, hi) == x[lo] - e[lo];
    }
  }

  /** What scanning a file with times `x` at events `e` hands to planning, one entry per anchor segment. */
  function RawsOf(x: seq<int>, e: seq<int>): (raws: seq<AnchorRepair.Raw>)
    requires x != [] && |e| == |x|
    ensures |raws| == |Split(x)|
  {
    SplitCovers(x);
    seq(|Split(x)|, k requires 0 <= k < |Split(x)| =>
      var s := Split(x)[k]; AnchorRepair.Raw(SmallestDiff(x, e, s.start, s.end), x[s.start], x[s.end - 1]))
  }

  /** The broker-local event times the scanner finds in a file, line by line. */
  function EventTexts(texts: seq<string>): seq<int> {
    if texts == [] then []
    else if ScanFor(Last(texts), TIME) == [] then EventTexts(Init(texts))
    else EventTexts(Init(texts)) + ScanFor(Last(texts), TIME)
  }

  /** Event times in UTC, by the broker's offset in the registry. */
  function UtcEvents(times: seq<int>, hours: int): (e: seq<int>)
    ensures |e| == |times|
  {
    seq(|times|, i requires 0 <= i < |times| => times[i] + hours * AnchorRepair.HOUR)
  }

  datatype SkipReason = NoCollectedValues | PairMismatch

  /** `scan_file` for a file without a marker: the raw segments, or why the file is skipped. */
  function ScanFile(texts: seq<string>, hours: int): Result<seq<AnchorRepair.Raw>, SkipReason> {
    var x, times := ScanTexts(texts), EventTexts(texts);
    if x == [] then Err(NoCollectedValues)
    else if |times| != |x| then Err(PairMismatch)
    else Ok(RawsOf(x, UtcEvents(times, hours)))
  }

  /** A file whose scan stands at `offset` in a chain is placed there. */
  lemma {:induction false} ScannedIsPlaced(x: seq<int>, e: seq<int>, c: seq<AnchorRepair.Raw>, offset: nat)
    requires x != [] && |e| == |x| && offset + |Split(x)| <= |c| && c[offset..offset + |Split(x)|] == RawsOf(x, e)
    ensures Placed(x, c, offset)
  {
    forall k | 0 <= k < |Split(x)|
      ensures 0 <= Split(x)[k].start < Split(x)[k].end <= |x|
      ensures c[offset + k].first == x[Split(x)[k].start] && c[offset + k].last == x[Split(x)[k].end - 1]
    {
      SpanWithin(x, k);
      assert c[offset + k] == c[offset..offset + |Split(x)|][k] == RawsOf(x, e)[k];
    }
  }

  /** The plan of one file: its segments with their decisions. */
  function PlanFor(x: seq<int>, ds: seq<AnchorRepair.Decision>): (segments: seq<PlannedSegment>)
    requires |ds| == |Split(x)|
    ensures |segments| == |Split(x)|
  {
    seq(|Split(x)|, k requires 0 <= k < |Split(x)| =>
      PlannedSegment(Split(x)[k].start, Split(x)[k].end, ds[k].shift, ds[k].branch))
  }

  lemma {:induction false} PlanIsDisjoint(x: seq<int>, ds: seq<AnchorRepair.Decision>)
    requires x != [] && |ds| == |Split(x)|
    ensures Disjoint(PlanFor(x, ds))
  {
    forall j, k | 0 <= j < k < |Split(x)| ensures Split(x)[j].end <= Split(x)[k].start {
      CutEarlier(x, j + 1, k);
    }
  }

  /** The repaired series of a file. */
  function Repaired(x: seq<int>, ds: seq<AnchorRepair.Decision>): (r: seq<int>)
    requires |ds| == |Split(x)|
    ensures |r| == |x|
  {
    Sums(x, ShiftPerTick(|x|, PlanFor(x, ds)))
  }

  /** Every tick moves by the shift of the segment that holds it. */
  lemma {:induction false} RepairedAt(x: seq<int>, ds: seq<AnchorRepair.Decision>, k: nat, i: nat)
    requires x != [] && |ds| == |Split(x)| && k < |Split(x)| && Split(x)[k].start <= i < Split(x)[k].end
    ensures i < |x| && Repaired(x, ds)[i] == x[i] + ds[k].shift
  {
    SpanWithin(x, k);
    PlanIsDisjoint(x, ds);
    var segments := PlanFor(x, ds);
    assert segments[k].start == Split(x)[k].start && segments[k].end == Split(x)[k].end;
    ShiftOfHolder(|x|, segments, k, i);
  }

  /** End to end: a file is scanned, its segments are decided, and the plan is applied. Scanning the text written gives
      every time plus the shift of its segment, exactly when none of them is negative. */
  lemma {:induction false} RepairedFileRescans(texts: seq<string>, ds: seq<AnchorRepair.Decision>, applied: string,
                                               x: seq<int>)
    requires NoQuote(applied) && x == ScanTexts(texts) && x != [] && |ds| == |Split(x)|
    requires Outcome(ParseAll(texts), ShiftPerTick(|x|, PlanFor(x, ds)), NoteOf(PlanFor(x, ds), applied)).Ok?
    ensures forall k, i :: 0 <= k < |Split(x)| && Split(x)[k].start <= i < Split(x)[k].end ==>
              i < |x| && Repaired(x, ds)[i] == x[i] + ds[k].shift
    ensures var segments := PlanFor(x, ds);
            var out := Outcome(ParseAll(texts), ShiftPerTick(|x|, segments), NoteOf(segments, applied)).value;
            ScanTexts(Texts(out)) == Repaired(x, ds) <==> forall i :: 0 <= i < |x| ==> Repaired(x, ds)[i] >= 0
  {
    var segments := PlanFor(x, ds);
    forall k, i | 0 <= k < |Split(x)| && Split(x)[k].start <= i < Split(x)[k].end
      ensures i < |x| && Repaired(x, ds)[i] == x[i] + ds[k].shift
    {
      RepairedAt(x, ds, k, i);
    }
    RewrittenTextRescans(texts, ShiftPerTick(|x|, segments), applied, BranchName(segments), Shifts(segments));
  }

  /** The decisions that planning the whole chain gives a file placed at `offset`. */
  predicate DecidedIn(ds: seq<AnchorRepair.Decision>, x: seq<int>, c: seq<AnchorRepair.Raw>, offset: nat)
    requires offset + |Split(x)| <= |c|
  {
    ds == Decisions(c)[offset..offset + |Split(x)|]
  }

  lemma RawsOfSlice(chain: seq<SegmentPlan>, a: nat, b: nat, own: seq<SegmentPlan>)
    requires a <= b <= |chain| && own == chain[a..b]
    ensures Raws(chain)[a..b] == Raws(own)
  {
  }

  /** A file of a symbol, scanned to `x`, stands in the symbol's chain at its share. */
  lemma {:induction false} FileIsPlaced(g: seq<ArchiveContinuity.FilePlan>, k: nat, x: seq<int>, e: seq<int>)
    requires ArchiveContinuity.NonEmpty(g) && k < |g|
    requires x != [] && |e| == |x| && Raws(g[k].segments) == RawsOf(x, e)
    ensures Placed(x, Raws(ArchiveContinuity.Chain(g)), ArchiveContinuity.Shares(g)[k].start)
  {
    var chain, file := ArchiveContinuity.Chain(g), ArchiveContinuity.Shares(g)[k];
    ArchiveContinuity.ShareAt(g, k);
    RawsOfSlice(chain, file.start, file.end, g[k].segments);
    ScannedIsPlaced(x, e, Raws(chain), file.start);
  }

  /** Once the symbol is planned, the file's segments carry the decisions of that place. */
  lemma {:induction false} PlannedFileIsDecided(g: seq<ArchiveContinuity.FilePlan>, k: nat, x: seq<int>, e: seq<int>,
                                                ds: seq<AnchorRepair.Decision>)
    requires ArchiveContinuity.NonEmpty(g) && ArchiveContinuity.Planned(g) && k < |g|
    requires x != [] && |e| == |x| && Raws(g[k].segments) == RawsOf(x, e)
    requires |ds| == |g[k].segments| && forall i :: 0 <= i < |ds| ==> g[k].segments[i].decision == Some(ds[i])
    ensures var c, offset := Raws(ArchiveContinuity.Chain(g)), ArchiveContinuity.Shares(g)[k].start;
            Placed(x, c, offset) && DecidedIn(ds, x, c, offset)
  {
    FileIsPlaced(g, k, x, e);
    PlannedDecides(g);
    FileIsDecided(g, k, ds);
    assert |ds| == |Split(x)|;
  }

  lemma PlannedDecides(g: seq<ArchiveContinuity.FilePlan>)
    requires ArchiveContinuity.Planned(g)
    ensures DecidedUpTo(ArchiveContinuity.Chain(g), ArchiveContinuity.DecisionsOf(g), |ArchiveContinuity.Chain(g)|)
  {
  }

  lemma {:induction false} FileIsDecided(g: seq<ArchiveContinuity.FilePlan>, k: nat, ds: seq<AnchorRepair.Decision>)
    requires ArchiveContinuity.NonEmpty(g) && k < |g|
    requires DecidedUpTo(ArchiveContinuity.Chain(g), ArchiveContinuity.DecisionsOf(g), |ArchiveContinuity.Chain(g)|)
    requires |ds| == |g[k].segments| && forall i :: 0 <= i < |ds| ==> g[k].segments[i].decision == Some(ds[i])
    ensures var a := ArchiveContinuity.Shares(g)[k].start;
            a + |ds| <= |ArchiveContinuity.DecisionsOf(g)| && ds == ArchiveContinuity.DecisionsOf(g)[a..a + |ds|]
  {
    var chain, file := ArchiveContinuity.Chain(g), ArchiveContinuity.Shares(g)[k];
    ArchiveContinuity.ShareAt(g, k);
    CarriedSlice(chain, ArchiveContinuity.DecisionsOf(g), g[k].segments, file.start, file.end, ds);
  }

  lemma CarriedSlice(chain: seq<SegmentPlan>, all: seq<AnchorRepair.Decision>, own: seq<SegmentPlan>, a: nat, b: nat,
                     ds: seq<AnchorRepair.Decision>)
    requires a <= b <= |chain| == |all| && own == chain[a..b] && DecidedUpTo(chain, all, |chain|)
    requires |ds| == |own| && forall i :: 0 <= i < |ds| ==> own[i].decision == Some(ds[i])
    ensures ds == all[a..b]
  {
    forall i | 0 <= i < |ds| ensures ds[i] == all[a..b][i] {
      assert own[i] == chain[a + i];
    }
  }

  /** The repaired series, tick by tick: time steps back between two ticks exactly where the source did between two
      segments of one anchor group. */
  lemma {:induction false} RepairedSteps(x: seq<int>, c: seq<AnchorRepair.Raw>, offset: nat,
                                         ds: seq<AnchorRepair.Decision>, k: nat, i: nat)
    requires x != [] && Placed(x, c, offset) && DecidedIn(ds, x, c, offset)
    requires k < |Split(x)| && Split(x)[k].start <= i < Split(x)[k].end && i + 1 < |x|
    ensures Repaired(x, ds)[i + 1] < Repaired(x, ds)[i] <==>
            && i + 1 == Split(x)[k].end && x[i + 1] < x[i]
            && AnchorRepair.Head(c, offset + k + 1) == AnchorRepair.Head(c, offset + k)
  {
    if i + 1 == Split(x)[k].end {
      RepairedAcross(x, c, offset, ds, k, i);
    } else {
      RepairedInside(x, c, offset, ds, k, i);
    }
  }

  lemma {:induction false} RepairedAcross(x: seq<int>, c: seq<AnchorRepair.Raw>, offset: nat,
                                          ds: seq<AnchorRepair.Decision>, k: nat, i: nat)
    requires x != [] && Placed(x, c, offset) && DecidedIn(ds, x, c, offset)
    requires k < |Split(x)| && Split(x)[k].start <= i && i + 1 == Split(x)[k].end < |x|
    ensures offset + k + 1 < |c|
    ensures Repaired(x, ds)[i + 1] < Repaired(x, ds)[i] <==>
            AnchorRepair.Head(c, offset + k + 1) == AnchorRepair.Head(c, offset + k) && x[i + 1] < x[i]
  {
    SeamCompare(x, c, offset, ds, k, i);
    RepairedPair(x, ds, k, i);
  }

  lemma {:induction false} SeamCompare(x: seq<int>, c: seq<AnchorRepair.Raw>, offset: nat,
                                       ds: seq<AnchorRepair.Decision>, k: nat, i: nat)
    requires x != [] && Placed(x, c, offset) && DecidedIn(ds, x, c, offset)
    requires k < |Split(x)| && Split(x)[k].start <= i && i + 1 == Split(x)[k].end < |x|
    ensures k + 1 < |ds| == |Split(x)| && offset + k + 1 < |c|
    ensures x[i + 1] + ds[k + 1].shift < x[i] + ds[k].shift <==>
            AnchorRepair.Head(c, offset + k + 1) == AnchorRepair.Head(c, offset + k) && x[i + 1] < x[i]
  {
    SplitSeam(x, k);
    DecidedInAt(ds, x, c, offset, k);
    DecidedInAt(ds, x, c, offset, k + 1);
    SeamWith(x, c, offset, k, i, ds[k].shift, ds[k + 1].shift);
  }

  lemma {:induction false} RepairedInside(x: seq<int>, c: seq<AnchorRepair.Raw>, offset: nat,
                                          ds: seq<AnchorRepair.Decision>, k: nat, i: nat)
    requires x != [] && Placed(x, c, offset) && DecidedIn(ds, x, c, offset)
    requires k < |Split(x)| && Split(x)[k].start <= i && i + 1 < Split(x)[k].end && i + 1 < |x|
    ensures Repaired(x, ds)[i + 1] >= Repaired(x, ds)[i] && x[i + 1] >= x[i]
  {
    RepairedPair(x, ds, k, i);
    InsideNeverSteps(x, c, offset, k, i);
  }

  lemma {:induction false} SeamWith(x: seq<int>, c: seq<AnchorRepair.Raw>, offset: nat, k: nat, i: nat, s: int, t: int)
    requires x != [] && Placed(x, c, offset)
    requires k + 1 < |Split(x)| && Split(x)[k].start <= i && i + 1 == Split(x)[k].end < |x|
    requires s == AnchorRepair.DecisionAt(c, offset + k).shift && t == AnchorRepair.DecisionAt(c, offset + k + 1).shift
    ensures x[i + 1] + t < x[i] + s <==>
            AnchorRepair.Head(c, offset + k + 1) == AnchorRepair.Head(c, offset + k) && x[i + 1] < x[i]
  {
    RepairedTicks(x, c, offset, k, i);
  }

  lemma {:induction false} InsideNeverSteps(x: seq<int>, c: seq<AnchorRepair.Raw>, offset: nat, k: nat, i: nat)
    requires x != [] && Placed(x, c, offset)
    requires k < |Split(x)| && Split(x)[k].start <= i && i + 1 < Split(x)[k].end && i + 1 < |x|
    ensures x[i + 1] >= x[i]
  {
    RepairedTicks(x, c, offset, k, i);
  }

  lemma {:induction false} DecidedInAt(ds: seq<AnchorRepair.Decision>, x: seq<int>, c: seq<AnchorRepair.Raw>,
                                       offset: nat, k: nat)
    requires offset + |Split(x)| <= |c| && DecidedIn(ds, x, c, offset) && k < |Split(x)|
    ensures |ds| == |Split(x)| && ds[k] == AnchorRepair.DecisionAt(c, offset + k)
  {
    assert ds[k] == Decisions(c)[offset + k];
  }

  lemma {:induction false} RepairedPair(x: seq<int>, ds: seq<AnchorRepair.Decision>, k: nat, i: nat)
    requires x != [] && |ds| == |Split(x)|
    requires k < |Split(x)| && Split(x)[k].start <= i < Split(x)[k].end && i + 1 < |x|
    ensures Repaired(x, ds)[i] == x[i] + ds[k].shift
    ensures i + 1 < Split(x)[k].end ==> Repaired(x, ds)[i + 1] == x[i + 1] + ds[k].shift
    ensures i + 1 == Split(x)[k].end ==> k + 1 < |ds| && Repaired(x, ds)[i + 1] == x[i + 1] + ds[k + 1].shift
  {
    RepairedAt(x, ds, k, i);
    if i + 1 == Split(x)[k].end {
      SplitSeam(x, k);
      SpanWithin(x, k + 1);
      RepairedAt(x, ds, k + 1, i + 1);
    } else {
      RepairedAt(x, ds, k, i + 1);
    }
  }

  // ---- a file that does not survive ---------------------------------------------------------------

  /** A number under another name is passed over. */
  lemma {:induction false} OtherNumberIsQuiet(name: string, rest: string, s: string, other: string)
    requires NoQuote(name) && NoQuote(other) && name != other && other != []
    requires NoQuote(rest) && rest != [] && rest[0] != other[0] && s == Quoted(name) + rest
    ensures ScanFor(s, other) == []
  {
    OtherNameIsQuiet(name, rest, other);
    ScanPastQuoted(name, rest, other);
    ScanOfPlain(rest, other);
  }

  lemma {:induction false} VersionLineParses(s: string)
    requires s == Quoted(VERSION) + ": 1,"
    ensures Parse(s).Version? && Parse(s).embedded == [] && ScanFor(s, TIME) == []
  {
    var rest: string, gap: string := " 1,", "";
    assert s == Keyed(VERSION, gap) + rest;
    AfterNameOf(VERSION, gap, rest);
    NamesHaveNoQuotes();
    OtherNumberIsQuiet(VERSION, ": 1,", s, COLLECTED);
    assert |TIME| == 8;
    OtherNumberIsQuiet(VERSION, ": 1,", s, TIME);
    assert SkipSpace(s) == s;
  }

  lemma {:induction false} EventLineParses(s: string)
    requires s == Quoted(TIME) + ": 0,"
    ensures Parse(s) == Other(s, []) && ScanFor(s, TIME) == [0]
  {
    var gap: string, blank: string, zero: string, comma: string := "", " ", "0", ",";
    assert s == Keyed(TIME, gap) + blank + zero + comma;
    MatchOf(TIME, gap, blank, zero, comma);
    assert Init(zero) == [] && ParseNat(Init(zero)) == 0;
    ScanOfPlain(comma, TIME);
    NamesHaveNoQuotes();
    assert |TIME| == 8;
    NotVersion(TIME, ": 0,");
    OtherNameIsQuiet(TIME, ": 0,", COLLECTED);
    OtherNumberIsQuiet(TIME, ": 0,", s, COLLECTED);
    assert SkipSpace(s) == s;
  }

  lemma {:induction false} TimeLineParses(s: string)
    requires s == Quoted(COLLECTED) + ": 5"
    ensures Parse(s).Collected? && Parse(s).value == 5 && Parse(s).embedded == [] && ScanFor(s, TIME) == []
  {
    var none: string, blank: string, five: string := "", " ", "5";
    assert s == Lead(none, none, blank) + five + none;
    ParseOf(none, none, blank, five, none);
    var zero := Init(five);
    assert zero == [] && ParseNat(zero) == 0;
    NamesHaveNoQuotes();
    assert |TIME| == 8;
    OtherNumberIsQuiet(COLLECTED, ": 5", s, TIME);
  }

  lemma {:induction false} PlanOfOne(c: seq<AnchorRepair.Raw>)
    requires c == [AnchorRepair.Raw(10_800_005, 5, 5)]
    ensures |Decisions(c)| == 1 && Decisions(c)[0].shift == -10_800_000
  {
    assert AnchorRepair.Head(c, 0) == 0 && AnchorRepair.GroupEnd(c, 0) == 1
           && AnchorRepair.MinLag(c, 0, 1) == 10_800_005;
    AnchorRepair.NearestHour(10_800_005, 3);
  }

  lemma {:induction false} ScanOfThree(lines: seq<Line>)
    requires |lines| == 3 && lines[0].Version? && lines[1].Other? && lines[2].Collected?
    requires lines[0].embedded == [] && lines[1].embedded == [] && lines[2].embedded == []
    ensures Scan(lines) == Values(lines) == [lines[2].value] && FirstVersion(lines) == 0
  {
    var two := Init(lines);
    var one := Init(two);
    var none := Init(one);
    assert none == [] && Last(one) == lines[0] && Last(two) == lines[1];
    assert Scan(none) == [] && Values(none) == [];
    assert Scan(one) == [] && Values(one) == [];
    assert Scan(two) == [] && Values(two) == [];
  }

  lemma {:induction false} EventsOfThree(texts: seq<string>)
    requires |texts| == 3
    requires ScanFor(texts[0], TIME) == [] && ScanFor(texts[1], TIME) == [0] && ScanFor(texts[2], TIME) == []
    ensures EventTexts(texts) == [0]
  {
    var two := Init(texts);
    var one := Init(two);
    assert Init(one) == [] && Last(one) == texts[0] && Last(two) == texts[1];
    assert EventTexts(one) == [];
  }

  /** The file is rewritten, but the repaired times are not what the next scan finds. */
  predicate LosesTimes(texts: seq<string>, x: seq<int>, ds: seq<AnchorRepair.Decision>, applied: string)
    requires |ds| == |Split(x)|
  {
    var segments := PlanFor(x, ds);
    var outcome := Outcome(ParseAll(texts), ShiftPerTick(|x|, segments), NoteOf(segments, applied));
    outcome.Ok? && ScanTexts(Texts(outcome.value)) != Repaired(x, ds)
  }

  /** One tick of a broker three hours ahead, at the epoch by its own clock and collected at 5: its lag is a clean three
      hours, the plan takes them off, and the file is rewritten, but the time written is negative and the next scan does
      not find it. */
  lemma {:induction false} NegativeTimeCounterexample(texts: seq<string>, applied: string,
                                                      scan: Result<seq<AnchorRepair.Raw>, SkipReason>)
    requires texts == [Quoted(VERSION) + ": 1,", Quoted(TIME) + ": 0,", Quoted(COLLECTED) + ": 5"] && NoQuote(applied)
    requires scan == ScanFile(texts, -3)
    ensures var x := ScanTexts(texts);
            && scan.Ok? && x == [5] && |scan.value| == |Split(x)| == 1
            && Repaired(x, Decisions(scan.value))[0] == -10_799_995
            && LosesTimes(texts, x, Decisions(scan.value), applied)
  {
    ThreeLinesParse(texts);
    OneTickScans(texts);
    OneTickTurnsNegative(texts, ScanTexts(texts), scan.value, applied);
  }

  lemma {:induction false} OneTickScans(texts: seq<string>)
    requires ScanTexts(texts) == [5] && EventTexts(texts) == [0]
    ensures ScanFile(texts, -3) == Ok([AnchorRepair.Raw(10_800_005, 5, 5)])
  {
    ScanFileOfOne(texts, -3, 5, 0);
  }

  lemma {:induction false} ThreeLinesParse(texts: seq<string>)
    requires texts == [Quoted(VERSION) + ": 1,", Quoted(TIME) + ": 0,", Quoted(COLLECTED) + ": 5"]
    ensures ScanTexts(texts) == [5] == Values(ParseAll(texts)) && FirstVersion(ParseAll(texts)) == 0
    ensures EventTexts(texts) == [0]
  {
    VersionLineParses(texts[0]);
    EventLineParses(texts[1]);
    TimeLineParses(texts[2]);
    ScanOfParsed(texts);
    ScanOfThree(ParseAll(texts));
    EventsOfThree(texts);
  }

  lemma {:induction false} OneTickTurnsNegative(texts: seq<string>, x: seq<int>, c: seq<AnchorRepair.Raw>,
                                                applied: string)
    requires x == ScanTexts(texts) == Values(ParseAll(texts)) && |x| == 1 && x[0] == 5
    requires c == [AnchorRepair.Raw(10_800_005, 5, 5)]
    requires FirstVersion(ParseAll(texts)) < |texts| && NoQuote(applied)
    ensures |Split(x)| == 1 && Repaired(x, Decisions(c))[0] == -10_799_995
            && LosesTimes(texts, x, Decisions(c), applied)
  {
    OneSpan(x);
    PlanOfOne(c);
    NegativeTimeIsLost(texts, x, Decisions(c), applied);
  }

  /** A single time that the plan makes negative is written and not found again. */
  lemma {:induction false} NegativeTimeIsLost(texts: seq<string>, x: seq<int>, ds: seq<AnchorRepair.Decision>,
                                              applied: string)
    requires x == ScanTexts(texts) == Values(ParseAll(texts)) && FirstVersion(ParseAll(texts)) < |texts|
             && NoQuote(applied)
    requires |x| == |ds| == |Split(x)| == 1 && x[0] + ds[0].shift < 0
    ensures Repaired(x, ds)[0] == x[0] + ds[0].shift && LosesTimes(texts, x, ds, applied)
  {
    OneSpan(x);
    RepairedAt(x, ds, 0, 0);
    var segments := PlanFor(x, ds);
    OutcomeExactly(ParseAll(texts), ShiftPerTick(|x|, segments), NoteOf(segments, applied));
    RepairedFileRescans(texts, ds, applied, x);
  }

  /** The file is not skipped; its one segment has the lag of its tick. */
  lemma {:induction false} ScanFileOfOne(texts: seq<string>, hours: int, t: int, u: int)
    requires |ScanTexts(texts)| == |EventTexts(texts)| == 1 && ScanTexts(texts)[0] == t && EventTexts(texts)[0] == u
    ensures ScanFile(texts, hours) == Ok([AnchorRepair.Raw(t - u - hours * AnchorRepair.HOUR, t, t)])
  {
    var e := UtcEvents(EventTexts(texts), hours);
    assert e[0] == u + hours * AnchorRepair.HOUR;
    RawOfOne(ScanTexts(texts), e);
  }

  lemma {:induction false} RawOfOne(x: seq<int>, e: seq<int>)
    requires |x| == |e| == 1
    ensures RawsOf(x, e) == [AnchorRepair.Raw(x[0] - e[0], x[0], x[0])]
  {
    OneSpan(x);
  }

  lemma {:induction false} OneSpan(x: seq<int>)
    requires |x| == 1
    ensures |Split(x)| == 1 && Split(x)[0] == Span(0, 1)
  {
    assert Breaks(x) == [];
  }
}
