/** Applying a V3 plan to one file: rewrite the collection times line by line and insert one marker block.
    A line is its text together with what the tool's patterns find in it. */
module RepairedFile {
  import opened Prelude
  import opened TickText
  import AnchorRepair

  /** `embedded` are the collection times the scanner finds in the line beyond a leading one. */
  datatype Line =
    | Version(text: string, indent: string, embedded: seq<int>)
    | Collected(text: string, prefix: string, value: nat, suffix: string, embedded: seq<int>)
    | Other(text: string, embedded: seq<int>)

  datatype PlannedSegment = PlannedSegment(start: nat, end: nat, shift: int, branch: AnchorRepair.Branch)

  datatype Failure = CountMismatch | NoVersionLine | TooManyTicks

  // ---- what the scanner sees --------------------------------------------------------------------

  function ScanLine(l: Line): seq<int> {
    if l.Collected? then [l.value] + l.embedded else l.embedded
  }

  function Scan(lines: seq<Line>): seq<int> {
    if lines == [] then []
    else if ScanLine(Last(lines)) == [] then Scan(Init(lines))
    else Scan(Init(lines)) + ScanLine(Last(lines))
  }

  /** The collection times at the head of a line, which the rewriter handles. */
  function Values(lines: seq<Line>): seq<int> {
    if lines == [] then []
    else if Last(lines).Collected? then Values(Init(lines)) + [Last(lines).value]
    else Values(Init(lines))
  }

  predicate NoneEmbedded(lines: seq<Line>) {
    forall i :: 0 <= i < |lines| ==> lines[i].embedded == []
  }

  // ---- the rewriting pass -----------------------------------------------------------------------

  function Shifted(l: Line, shift: int): Line
    requires l.Collected?
  {
    var text := l.prefix + DecInt(l.value + shift) + l.suffix;
    if l.value + shift >= 0 then Collected(text, l.prefix, l.value + shift, l.suffix, l.embedded)
      else Other(text, l.embedded)
  }

  /** The block that records the repair, below the version line. */
  function Marker(indent: string, note: seq<string>): (block: seq<Line>)
    ensures |block| == |note| && NoneEmbedded(block)
  {
    seq(|note|, i requires 0 <= i < |note| => Other(indent + note[i], []))
  }

  datatype Progress = Overrun | Progress(out: seq<Line>, ordinal: nat, marked: bool)

  function PassLine(p: Progress, l: Line, shifts: seq<int>, note: seq<string>): Progress {
    if p.Overrun? then Overrun
    else if !p.marked && l.Version? then Progress(p.out + [l] + Marker(l.indent, note), p.ordinal, true)
    else if l.Collected? then
      if p.ordinal < |shifts| then Progress(p.out + [Shifted(l, shifts[p.ordinal])], p.ordinal + 1, p.marked)
        else Overrun
    else Progress(p.out + [l], p.ordinal, p.marked)
  }

  function Pass(lines: seq<Line>, shifts: seq<int>, note: seq<string>): Progress {
    if lines == [] then Progress([], 0, false) else PassLine(Pass(Init(lines), shifts, note), Last(lines), shifts, note)
  }

  /** The outcome for the file: the new lines, or a failure that leaves it as it is. */
  function Outcome(lines: seq<Line>, shifts: seq<int>, note: seq<string>): Result<seq<Line>, Failure> {
    var p := Pass(lines, shifts, note);
    if p.Overrun? then Err(TooManyTicks)
    else if p.ordinal != |shifts| then Err(CountMismatch)
    else if !p.marked then Err(NoVersionLine)
    else Ok(p.out)
  }

  // ---- what the pass yields ---------------------------------------------------------------------

  /** Every leading collection time shifted by its ordinal's shift, every other line kept. */
  function ShiftedLines(lines: seq<Line>, shifts: seq<int>): (r: seq<Line>)
    requires |Values(lines)| <= |shifts|
    ensures |r| == |lines|
  {
    if lines == [] then []
    else
      var l := Last(lines);
      ShiftedLines(Init(lines), shifts) + [if l.Collected? then Shifted(l, shifts[|Values(lines)| - 1]) else l]
  }

  lemma {:induction false} ShiftedAppend(p: seq<Line>, l: Line, lines: seq<Line>, shifts: seq<int>)
    requires lines == p + [l] && |Values(lines)| <= |shifts|
    ensures |Values(lines)| == |Values(p)| + (if l.Collected? then 1 else 0)
    ensures ShiftedLines(lines, shifts) ==
              ShiftedLines(p, shifts) + [if l.Collected? then Shifted(l, shifts[|Values(p)|]) else l]
  {
    assert Init(lines) == p && Last(lines) == l;
  }

  /** The position of the first version line, or the number of lines. */
  function FirstVersion(lines: seq<Line>): (v: nat)
    ensures v <= |lines|
    ensures forall i :: 0 <= i < v ==> !lines[i].Version?
    ensures v < |lines| ==> lines[v].Version?
  {
    if lines == [] then 0
    else
      var v := FirstVersion(Init(lines));
      if v == |lines| - 1 && !Last(lines).Version? then |lines| else v
  }

  /** The shifted lines with the marker block below the first version line, if there is one. */
  function WithMarker(lines: seq<Line>, shifted: seq<Line>, note: seq<string>): seq<Line>
    requires |shifted| == |lines|
  {
    var v := FirstVersion(lines);
    if v == |lines| then shifted else shifted[..v + 1] + Marker(lines[v].indent, note) + shifted[v + 1..]
  }

  lemma {:induction false} PassOverruns(lines: seq<Line>, shifts: seq<int>, note: seq<string>)
    ensures Pass(lines, shifts, note).Overrun? <==> |Values(lines)| > |shifts|
    ensures |Values(lines)| <= |shifts| ==>
              && Pass(lines, shifts, note).ordinal == |Values(lines)|
              && (Pass(lines, shifts, note).marked <==> FirstVersion(lines) < |lines|)
  {
    if lines != [] {
      PassOverruns(Init(lines), shifts, note);
    }
  }

  /** One line of the pass, from the marked shifted lines before it to those with it. */
  lemma {:induction false} PassLineYields(q: Progress, p: seq<Line>, l: Line, shifted: seq<Line>, l': Line,
                                          shifts: seq<int>, note: seq<string>)
    requires |shifted| == |p| && q.Progress? && q.out == WithMarker(p, shifted, note)
    requires (q.marked <==> FirstVersion(p) < |p|) && (l.Collected? ==> q.ordinal < |shifts|)
    requires l' == if l.Collected? then Shifted(l, shifts[q.ordinal]) else l
    ensures PassLine(q, l, shifts, note).Progress?
    ensures PassLine(q, l, shifts, note).out == WithMarker(p + [l], shifted + [l'], note)
  {
    MarkerStep(p, l, shifted, l', note);
  }

  lemma {:induction false} PassAppend(p: seq<Line>, l: Line, lines: seq<Line>, shifts: seq<int>, note: seq<string>)
    requires lines == p + [l]
    ensures Pass(lines, shifts, note) == PassLine(Pass(p, shifts, note), l, shifts, note)
  {
    assert Init(lines) == p && Last(lines) == l;
  }

  lemma {:induction false} PassYields(lines: seq<Line>, shifts: seq<int>, note: seq<string>)
    requires |Values(lines)| <= |shifts|
    ensures Pass(lines, shifts, note).Progress?
    ensures Pass(lines, shifts, note).out == WithMarker(lines, ShiftedLines(lines, shifts), note)
  {
    if lines != [] {
      var p, l := Init(lines), Last(lines);
      assert lines == p + [l];
      PassOverruns(p, shifts, note);
      PassYields(p, shifts, note);
      ShiftedAppend(p, l, lines, shifts);
      PassAppend(p, l, lines, shifts, note);
      var last := Last(ShiftedLines(lines, shifts));
      PassLineYields(Pass(p, shifts, note), p, l, ShiftedLines(p, shifts), last, shifts, note);
    }
  }

  /** Appending a line commutes with placing the marker, which is placed when the first version line appears. */
  lemma {:induction false} MarkerStep(p: seq<Line>, l: Line, shifted: seq<Line>, l': Line, note: seq<string>)
    requires |shifted| == |p| && (l.Version? ==> l' == l)
    ensures var before, after := WithMarker(p, shifted, note), WithMarker(p + [l], shifted + [l'], note);
            after ==
              if FirstVersion(p) == |p| && l.Version? then before + [l] + Marker(l.indent, note) else before + [l']
  {
    var v, lines, both := FirstVersion(p), p + [l], shifted + [l'];
    assert Init(lines) == p && Last(lines) == l;
    if v < |p| {
      SplitGrows(shifted, v + 1, Marker(p[v].indent, note), l');
    } else if l.Version? {
      SplitAtEnd(both, Marker(l.indent, note));
    }
  }

  lemma SplitAtEnd(s: seq<Line>, block: seq<Line>)
    ensures s[..|s|] + block + s[|s|..] == s + block
  {
  }

  lemma SplitGrows(s: seq<Line>, n: nat, block: seq<Line>, l: Line)
    requires n <= |s|
    ensures var t := s + [l]; t[..n] + block + t[n..] == s[..n] + block + s[n..] + [l]
  {
    var t := s + [l];
    assert t[..n] == s[..n] && t[n..] == s[n..] + [l];
  }

  /** A plan is applied exactly when it has one shift per leading collection time and the file has a version line;
      then every other line stays, and one marker block is added below the first version line. */
  lemma OutcomeExactly(lines: seq<Line>, shifts: seq<int>, note: seq<string>)
    ensures Outcome(lines, shifts, note).Ok? <==> |Values(lines)| == |shifts| && FirstVersion(lines) < |lines|
    ensures Outcome(lines, shifts, note).Ok? ==>
              Outcome(lines, shifts, note).value == WithMarker(lines, ShiftedLines(lines, shifts), note)
    ensures Outcome(lines, shifts, note) == Err(TooManyTicks) <==> |Values(lines)| > |shifts|
    ensures Outcome(lines, shifts, note) == Err(CountMismatch) <==> |Values(lines)| < |shifts|
  {
    PassOverruns(lines, shifts, note);
    if |Values(lines)| <= |shifts| {
      PassYields(lines, shifts, note);
    }
  }

  // ---- line by line -------------------------------------------------------------------------------

  lemma {:induction false} ShiftedAt(lines: seq<Line>, shifts: seq<int>, k: nat)
    requires |Values(lines)| <= |shifts| && k < |lines|
    ensures |Values(lines[..k])| <= |Values(lines)|
    ensures lines[k].Collected? ==> |Values(lines[..k])| < |shifts|
    ensures ShiftedLines(lines, shifts)[k] ==
              if lines[k].Collected? then Shifted(lines[k], shifts[|Values(lines[..k])|]) else lines[k]
  {
    var p := Init(lines);
    if k < |p| {
      ShiftedAt(p, shifts, k);
      assert p[..k] == lines[..k];
    } else {
      assert lines[..k] == p;
    }
  }

  /** The place of a line in the rewritten file: version line and everything in front stay, the rest moves behind the
      block. */
  function Moved(lines: seq<Line>, note: seq<string>, k: nat): nat {
    if k <= FirstVersion(lines) then k else k + |note|
  }

  /** The rewritten file, line by line: the block stands right below the first version line, with that line's indent; of
      all other lines only those with a leading collection time change, the n-th of them by the n-th shift in front of
      what followed its digits. */
  lemma {:induction false} RewrittenExactly(lines: seq<Line>, shifts: seq<int>, note: seq<string>, k: nat)
    requires Outcome(lines, shifts, note).Ok? && k < |lines|
    ensures var out, l := Outcome(lines, shifts, note).value, lines[k];
            && |out| == |lines| + |note|
            && (!l.Collected? ==> out[Moved(lines, note, k)] == l)
            && (l.Collected? ==>
                  && |Values(lines[..k])| < |shifts|
                  && out[Moved(lines, note, k)].text ==
                       l.prefix + DecInt(l.value + shifts[|Values(lines[..k])|]) + l.suffix)
  {
    OutcomeExactly(lines, shifts, note);
    ShiftedAt(lines, shifts, k);
  }

  lemma {:induction false} BlockExactly(lines: seq<Line>, shifts: seq<int>, note: seq<string>, j: nat)
    requires Outcome(lines, shifts, note).Ok? && j < |note|
    ensures var out, v := Outcome(lines, shifts, note).value, FirstVersion(lines);
            && v < |lines| && lines[v].Version? && (forall i :: 0 <= i < v ==> !lines[i].Version?)
            && v + 1 + j < |out| && out[v + 1 + j].text == lines[v].indent + note[j]
  {
    OutcomeExactly(lines, shifts, note);
  }

  // ---- scanning again ---------------------------------------------------------------------------

  lemma {:induction false} ScanAppend(a: seq<Line>, l: Line)
    ensures Scan(a + [l]) == if ScanLine(l) == [] then Scan(a) else Scan(a) + ScanLine(l)
  {
    assert Init(a + [l]) == a;
  }

  lemma {:induction false} ScanSkips(a: seq<Line>, block: seq<Line>)
    requires NoneEmbedded(block) && forall i :: 0 <= i < |block| ==> !block[i].Collected?
    ensures Scan(a + block) == Scan(a)
  {
    if block == [] {
      assert a + block == a;
    } else {
      ScanSkips(a, Init(block));
      assert Init(a + block) == a + Init(block) && Last(a + block) == Last(block);
    }
  }

  lemma {:induction false} ScanIgnoresBlock(front: seq<Line>, block: seq<Line>, back: seq<Line>)
    requires front != [] && NoneEmbedded(block) && forall i :: 0 <= i < |block| ==> !block[i].Collected?
    ensures Scan(front + block + back) == Scan(front + back)
  {
    if back == [] {
      ScanSkips(front, block);
      assert front + block + back == front + block && front + back == front;
    } else {
      var p, l := Init(back), Last(back);
      ScanIgnoresBlock(front, block, p);
      assert front + block + back == (front + block + p) + [l] && front + back == (front + p) + [l];
      ScanAppend(front + block + p, l);
      ScanAppend(front + p, l);
    }
  }

  lemma Rejoin(s: seq<Line>, n: nat)
    requires n <= |s|
    ensures s[..n] + s[n..] == s
  {
  }

  /** The marker block adds no collection time. */
  lemma {:induction false} ScanIgnoresMarker(lines: seq<Line>, shifted: seq<Line>, note: seq<string>)
    requires |shifted| == |lines|
    ensures Scan(WithMarker(lines, shifted, note)) == Scan(shifted)
  {
    var v := FirstVersion(lines);
    if v < |lines| {
      var front, block, back := shifted[..v + 1], Marker(lines[v].indent, note), shifted[v + 1..];
      ScanIgnoresBlock(front, block, back);
      Rejoin(shifted, v + 1);
    }
  }

  /** The scanner counts at least the leading times; when it counts no more, there are no others. */
  lemma {:induction false} ScanCountsValues(lines: seq<Line>)
    ensures |Scan(lines)| >= |Values(lines)|
    ensures |Scan(lines)| == |Values(lines)| ==> NoneEmbedded(lines) && Scan(lines) == Values(lines)
  {
    if lines != [] {
      ScanCountsValues(Init(lines));
      assert |Scan(lines)| == |Scan(Init(lines))| + |ScanLine(Last(lines))|;
    }
  }

  function NonNegatives(x: seq<int>): seq<int> {
    if x == [] then [] else if Last(x) >= 0 then NonNegatives(Init(x)) + [Last(x)] else NonNegatives(Init(x))
  }

  lemma {:induction false} NonNegativesShort(x: seq<int>)
    ensures |NonNegatives(x)| <= |x|
    ensures (exists i :: 0 <= i < |x| && x[i] < 0) ==> |NonNegatives(x)| < |x|
  {
    if x != [] {
      var p := Init(x);
      NonNegativesShort(p);
      assert forall i :: 0 <= i < |p| ==> x[i] == p[i];
    }
  }

  lemma {:induction false} NonNegativesAll(x: seq<int>)
    requires forall i :: 0 <= i < |x| ==> x[i] >= 0
    ensures NonNegatives(x) == x
  {
    if x != [] {
      NonNegativesAll(Init(x));
      assert Init(x) + [Last(x)] == x;
    }
  }

  function Sums(x: seq<int>, shifts: seq<int>): (r: seq<int>)
    requires |x| <= |shifts|
    ensures |r| == |x|
  {
    seq(|x|, i requires 0 <= i < |x| => x[i] + shifts[i])
  }

  lemma {:induction false} SumsLast(lines: seq<Line>, shifts: seq<int>)
    requires lines != [] && Last(lines).Collected? && |Values(lines)| <= |shifts|
    ensures var x := Values(Init(lines));
            Sums(Values(lines), shifts) == Sums(x, shifts) + [Last(lines).value + shifts[|x|]]
  {
  }

  lemma {:induction false} ScanShiftedLine(before: seq<Line>, l: Line, y: seq<int>, shift: int)
    requires l.Collected? && l.embedded == [] && Scan(before) == NonNegatives(y)
    ensures Scan(before + [Shifted(l, shift)]) == NonNegatives(y + [l.value + shift])
  {
    var s, z := Shifted(l, shift), y + [l.value + shift];
    assert Init(before + [s]) == before && Init(z) == y;
    if l.value + shift >= 0 {
      assert ScanLine(s) == [l.value + shift];
      assert Scan(before + [s]) == Scan(before) + [l.value + shift];
    } else {
      assert ScanLine(s) == [];
      assert Scan(before + [s]) == Scan(before);
    }
  }

  /** Re-scanning the shifted lines sees the shifted times that are not negative, in order. */
  lemma {:induction false} ScanShifted(lines: seq<Line>, shifts: seq<int>)
    requires NoneEmbedded(lines) && |Values(lines)| <= |shifts|
    ensures Scan(ShiftedLines(lines, shifts)) == NonNegatives(Sums(Values(lines), shifts))
  {
    if lines != [] {
      var p, l := Init(lines), Last(lines);
      ScanShifted(p, shifts);
      assert lines == p + [l];
      ShiftedAppend(p, l, lines, shifts);
      if l.Collected? {
        ScanShiftedLine(ShiftedLines(p, shifts), l, Sums(Values(p), shifts), shifts[|Values(p)|]);
        SumsLast(lines, shifts);
      } else {
        ScanAppend(ShiftedLines(p, shifts), l);
      }
    }
  }

  /** For a plan made from the file's own scan, applying it yields a file whose re-scanned series is every time plus
      its shift exactly when no shifted time is negative: a negative one is written but no longer recognised. */
  lemma RescanIsShifted(lines: seq<Line>, shifts: seq<int>, note: seq<string>)
    requires |shifts| == |Scan(lines)| && Outcome(lines, shifts, note).Ok?
    ensures Scan(lines) == Values(lines)
    ensures var x := Sums(Scan(lines), shifts);
            Scan(Outcome(lines, shifts, note).value) == x <==> forall i :: 0 <= i < |x| ==> x[i] >= 0
  {
    OutcomeExactly(lines, shifts, note);
    ScanCountsValues(lines);
    ScanIgnoresMarker(lines, ShiftedLines(lines, shifts), note);
    ScanShifted(lines, shifts);
    var x := Sums(Scan(lines), shifts);
    NonNegativesShort(x);
    if forall i :: 0 <= i < |x| ==> x[i] >= 0 {
      NonNegativesAll(x);
    }
  }

  // ---- the shifts of all ticks ------------------------------------------------------------------

  function Paint(s: seq<int>, seg: PlannedSegment): (r: seq<int>)
    ensures |r| == |s|
  {
    seq(|s|, i requires 0 <= i < |s| => if seg.start <= i < seg.end then seg.shift else s[i])
  }

  function ShiftPerTick(n: nat, segments: seq<PlannedSegment>): (s: seq<int>)
    ensures |s| == n
  {
    if segments == [] then seq(n, i => 0) else Paint(ShiftPerTick(n, Init(segments)), Last(segments))
  }

  predicate Disjoint(segments: seq<PlannedSegment>) {
    forall j, k :: 0 <= j < k < |segments| ==> segments[j].end <= segments[k].start
  }

  /** Every tick gets the shift of the segment that holds it. */
  lemma {:induction false} ShiftOfHolder(n: nat, segments: seq<PlannedSegment>, k: nat, i: nat)
    requires Disjoint(segments) && k < |segments| && segments[k].start <= i < segments[k].end && i < n
    ensures ShiftPerTick(n, segments)[i] == segments[k].shift
  {
    if k < |segments| - 1 {
      ShiftOfHolder(n, Init(segments), k, i);
    }
  }
}
