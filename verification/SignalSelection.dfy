/** Selecting the signal files of a time window, such that resolving the latest snapshot at or before a tick gives the
    answer the whole archive would give. Stamps are milliseconds. */
module SignalSelection {
  import opened Prelude
  import StreamIdentity

  /** One row of a file: when the snapshot was collected, whether the row is the symbol's own or the envelope's, when
      the producer made it available (not known in the early archive), and its place in the producer's stream. */
  datatype Row = Row(collected: int, own: bool, available: Option<int>, identity: Option<StreamIdentity.Identity>)

  function Collected(rows: seq<Row>): (s: seq<int>)
    ensures |s| == |rows| && forall i :: 0 <= i < |rows| ==> s[i] == rows[i].collected
  {
    seq(|rows|, i requires 0 <= i < |rows| => rows[i].collected)
  }

  /** One indexed file: its path, the range in the index, its rows and their stamps. */
  datatype Entry = Entry(path: string, start: int, end: int, stamps: seq<int>, rows: seq<Row>)

  /** The index holds the smallest and the largest stamp of a file's rows. */
  predicate Scanned(e: Entry) {
    && e.stamps == Collected(e.rows)
    && e.start in e.stamps && e.end in e.stamps
    && forall v :: v in e.stamps ==> e.start <= v <= e.end
  }

  predicate AllScanned(es: seq<Entry>) {
    forall i :: 0 <= i < |es| ==> Scanned(es[i])
  }

  predicate Has(es: seq<Entry>, v: int) {
    exists i :: 0 <= i < |es| && v in es[i].stamps
  }

  // ---- the latest snapshot at or before a moment ------------------------------------------------

  function Later(a: Option<int>, b: Option<int>): Option<int> {
    if a.None? then b else if b.None? then a else Some(MaxInt(a.value, b.value))
  }

  function LatestIn(stamps: seq<int>, t: int): (r: Option<int>)
    ensures r.None? ==> forall v :: v in stamps ==> v > t
    ensures r.Some? ==> r.value in stamps && r.value <= t && forall v :: v in stamps && v <= t ==> v <= r.value
  {
    if stamps == [] then None
    else
      assert stamps == Init(stamps) + [Last(stamps)];
      Later(LatestIn(Init(stamps), t), if Last(stamps) <= t then Some(Last(stamps)) else None)
  }

  /** The latest snapshot at or before `t` over a list of files. */
  function Latest(es: seq<Entry>, t: int): (r: Option<int>)
    ensures r.None? ==> forall v :: Has(es, v) ==> v > t
    ensures r.Some? ==> Has(es, r.value) && r.value <= t && forall v :: Has(es, v) && v <= t ==> v <= r.value
  {
    if es == [] then None
    else
      assert forall v :: Has(es, v) ==> Has(Init(es), v) || v in Last(es).stamps;
      assert forall i :: 0 <= i < |Init(es)| ==> Init(es)[i] == es[i];
      assert es[|es| - 1] == Last(es);
      Later(Latest(Init(es), t), LatestIn(Last(es).stamps, t))
  }

  // ---- the selection ----------------------------------------------------------------------------

  predicate Overlaps(e: Entry, lo: int, hi: int) {
    e.start <= hi && e.end >= lo
  }

  function Overlapping(es: seq<Entry>, lo: int, hi: int): seq<Entry> {
    if es == [] then []
    else if Overlaps(Last(es), lo, hi) then Overlapping(Init(es), lo, hi) + [Last(es)]
    else Overlapping(Init(es), lo, hi)
  }

  predicate CoversStart(es: seq<Entry>, lo: int, hi: int) {
    exists i :: 0 <= i < |es| && Overlaps(es[i], lo, hi) && es[i].start <= lo
  }

  /** The position of the last file that ended before the window, or -1. */
  function Preceding(es: seq<Entry>, lo: int): (p: int)
    ensures -1 <= p < |es|
    ensures p >= 0 ==> es[p].end < lo
    ensures forall i :: p < i < |es| ==> es[i].end >= lo
  {
    if es == [] then -1
    else if Last(es).end < lo then |es| - 1
    else Preceding(Init(es), lo)
  }

  function Selected(es: seq<Entry>, lo: int, hi: int): seq<Entry> {
    var p := Preceding(es, lo);
    (if !CoversStart(es, lo, hi) && p >= 0 then [es[p]] else []) + Overlapping(es, lo, hi)
  }

  lemma {:induction false} CoversStartAppend(es: seq<Entry>, e: Entry, lo: int, hi: int)
    ensures CoversStart(es + [e], lo, hi) <==> CoversStart(es, lo, hi) || (Overlaps(e, lo, hi) && e.start <= lo)
  {
    var more := es + [e];
    assert more[|es|] == e && forall i :: 0 <= i < |es| ==> more[i] == es[i];
  }

  /** What one more entry does to the three loop variables. */
  lemma {:induction false} SelectionStep(es: seq<Entry>, i: nat, lo: int, hi: int)
    requires i < |es|
    ensures var p, n, e := es[..i], es[..i + 1], es[i];
            && Overlapping(n, lo, hi) ==
                 (if Overlaps(e, lo, hi) then Overlapping(p, lo, hi) + [e] else Overlapping(p, lo, hi))
            && (CoversStart(n, lo, hi) <==> CoversStart(p, lo, hi) || (Overlaps(e, lo, hi) && e.start <= lo))
            && Preceding(n, lo) == if e.end < lo then i else Preceding(p, lo)
  {
    assert Init(es[..i + 1]) == es[..i] && Last(es[..i + 1]) == es[i];
    assert es[..i + 1] == es[..i] + [es[i]];
    CoversStartAppend(es[..i], es[i], lo, hi);
  }

  /** `get_relevant_files` for one (source, symbol) entry list. */
  method GetRelevantFiles(index: map<string, map<string, seq<Entry>>>, source: string, symbol: string, lo: int, hi: int)
    returns (files: seq<Entry>)
    ensures source !in index || symbol !in index[source] ==> files == []
    ensures source in index && symbol in index[source] ==> files == Selected(index[source][symbol], lo, hi)
  {
    if source !in index {
      return [];
    }
    if symbol !in index[source] {
      return [];
    }
    var entries := index[source][symbol];
    files := [];
    var coversStart, preceding := false, -1;
    for i := 0 to |entries|
      invariant files == Overlapping(entries[..i], lo, hi)
      invariant coversStart == CoversStart(entries[..i], lo, hi)
      invariant preceding == Preceding(entries[..i], lo)
    {
      var e := entries[i];
      SelectionStep(entries, i, lo, hi);
      if e.start <= hi && e.end >= lo {
        files := files + [e];
        if e.start <= lo {
          coversStart := true;
        }
      } else if e.end < lo {
        preceding := i;
      }
    }
    assert entries[..|entries|] == entries;
    if !coversStart && preceding >= 0 {
      files := [entries[preceding]] + files;
    }
  }

  // ---- what the selection holds -----------------------------------------------------------------

  ghost predicate OverlapHas(es: seq<Entry>, lo: int, hi: int, v: int) {
    exists i :: 0 <= i < |es| && Overlaps(es[i], lo, hi) && v in es[i].stamps
  }

  lemma OverlapHasLast(es: seq<Entry>, lo: int, hi: int, v: int)
    requires es != []
    ensures OverlapHas(es, lo, hi, v) <==>
              OverlapHas(Init(es), lo, hi, v) || (Overlaps(Last(es), lo, hi) && v in Last(es).stamps)
  {
    if OverlapHas(Init(es), lo, hi, v) {
      var i :| 0 <= i < |Init(es)| && Overlaps(Init(es)[i], lo, hi) && v in Init(es)[i].stamps;
      assert es[i] == Init(es)[i];
    }
    if OverlapHas(es, lo, hi, v) {
      var i :| 0 <= i < |es| && Overlaps(es[i], lo, hi) && v in es[i].stamps;
      assert i < |es| - 1 ==> Init(es)[i] == es[i];
    }
  }

  lemma HasOne(e: Entry, v: int)
    ensures Has([e], v) <==> v in e.stamps
  {
    if v in e.stamps {
      assert [e][0] == e;
    }
  }

  lemma {:induction false} OverlappingHolds(es: seq<Entry>, lo: int, hi: int, v: int)
    ensures Has(Overlapping(es, lo, hi), v) <==> OverlapHas(es, lo, hi, v)
  {
    if es != [] {
      OverlappingHolds(Init(es), lo, hi, v);
      OverlapHasLast(es, lo, hi, v);
      HasOne(Last(es), v);
      if Overlaps(Last(es), lo, hi) {
        HasAppend(Overlapping(Init(es), lo, hi), [Last(es)], v);
      } else {
        assert Overlapping(es, lo, hi) == Overlapping(Init(es), lo, hi);
      }
    }
  }

  lemma HasAppend(a: seq<Entry>, b: seq<Entry>, v: int)
    ensures Has(a + b, v) <==> Has(a, v) || Has(b, v)
  {
    var both := a + b;
    if Has(a, v) {
      var i :| 0 <= i < |a| && v in a[i].stamps;
      assert both[i] == a[i];
    }
    if Has(b, v) {
      var i :| 0 <= i < |b| && v in b[i].stamps;
      assert both[|a| + i] == b[i];
    }
    if Has(both, v) {
      var i :| 0 <= i < |both| && v in both[i].stamps;
      assert if i < |a| then both[i] == a[i] else both[i] == b[i - |a|];
    }
  }

  /** A selected stamp is one of an overlapping file or of the added preceding one. */
  lemma SelectedHolds(es: seq<Entry>, lo: int, hi: int, v: int)
    ensures var p := Preceding(es, lo);
            Has(Selected(es, lo, hi), v) <==>
              || OverlapHas(es, lo, hi, v)
              || (!CoversStart(es, lo, hi) && p >= 0 && v in es[p].stamps)
  {
    var p := Preceding(es, lo);
    OverlappingHolds(es, lo, hi, v);
    if !CoversStart(es, lo, hi) && p >= 0 {
      HasOne(es[p], v);
      HasAppend([es[p]], Overlapping(es, lo, hi), v);
    } else {
      assert [] + Overlapping(es, lo, hi) == Overlapping(es, lo, hi);
    }
  }

  // ---- when the selection answers like the archive ----------------------------------------------

  /** Some overlapping file holds a snapshot at or before the window's start that is at least as late as `end`. */
  ghost predicate HeldInside(es: seq<Entry>, lo: int, hi: int, end: int) {
    exists v :: end <= v <= lo && OverlapHas(es, lo, hi, v)
  }

  /** What the index must promise about the files that ended before the window. If no overlapping file covers the start,
      the last of them in index order ended last; otherwise every one of them ended at or before some snapshot that an
      overlapping file holds up to the start. */
  ghost predicate PastIsCarried(es: seq<Entry>, lo: int, hi: int) {
    forall i :: 0 <= i < |es| && es[i].end < lo ==>
      if CoversStart(es, lo, hi) then HeldInside(es, lo, hi, es[i].end) else es[i].end <= es[Preceding(es, lo)].end
  }

  /** The last snapshot of every file that ended before the window is matched by a selected one up to its start. */
  predicate CarriesPast(es: seq<Entry>, lo: int, hi: int) {
    var from := Latest(Selected(es, lo, hi), lo);
    forall i :: 0 <= i < |es| && es[i].end < lo ==> from.Some? && es[i].end <= from.value
  }

  /** A selected snapshot up to the window's start, by the branch that selected its file. */
  lemma SelectedUpToStart(es: seq<Entry>, lo: int, hi: int, v: int)
    requires AllScanned(es) && lo <= hi && Has(Selected(es, lo, hi), v) && v <= lo
    ensures if CoversStart(es, lo, hi) then OverlapHas(es, lo, hi, v)
            else Preceding(es, lo) >= 0 && v in es[Preceding(es, lo)].stamps
  {
    SelectedHolds(es, lo, hi, v);
    if OverlapHas(es, lo, hi, v) {
      var i :| 0 <= i < |es| && Overlaps(es[i], lo, hi) && v in es[i].stamps;
      assert Scanned(es[i]);
    }
  }

  lemma CarriedIsMatched(es: seq<Entry>, lo: int, hi: int)
    requires AllScanned(es) && lo <= hi
    ensures PastIsCarried(es, lo, hi) ==> CarriesPast(es, lo, hi)
  {
    if PastIsCarried(es, lo, hi) {
      forall i | 0 <= i < |es| && es[i].end < lo
        ensures Latest(Selected(es, lo, hi), lo).Some? && es[i].end <= Latest(Selected(es, lo, hi), lo).value
      {
        if CoversStart(es, lo, hi) {
          assert HeldInside(es, lo, hi, es[i].end);
          var v :| es[i].end <= v <= lo && OverlapHas(es, lo, hi, v);
          SelectedHolds(es, lo, hi, v);
        } else {
          var p := Preceding(es, lo);
          assert Scanned(es[p]);
          SelectedHolds(es, lo, hi, es[p].end);
        }
      }
    }
  }

  lemma MatchedIsCarried(es: seq<Entry>, lo: int, hi: int)
    requires AllScanned(es) && lo <= hi
    ensures CarriesPast(es, lo, hi) ==> PastIsCarried(es, lo, hi)
  {
    if CarriesPast(es, lo, hi) {
      var from := Latest(Selected(es, lo, hi), lo);
      forall i | 0 <= i < |es| && es[i].end < lo
        ensures if CoversStart(es, lo, hi) then HeldInside(es, lo, hi, es[i].end)
                else es[i].end <= es[Preceding(es, lo)].end
      {
        SelectedUpToStart(es, lo, hi, from.value);
        if !CoversStart(es, lo, hi) {
          assert Scanned(es[Preceding(es, lo)]);
        }
      }
    }
  }

  lemma SelectionIsPart(es: seq<Entry>, lo: int, hi: int, v: int)
    requires Has(Selected(es, lo, hi), v)
    ensures Has(es, v)
  {
    SelectedHolds(es, lo, hi, v);
  }

  /** A stamp of the archive at or before a moment of the window is matched by a selected stamp at least as late. */
  lemma ArchiveIsMatched(es: seq<Entry>, lo: int, hi: int, t: int, w: int)
    requires AllScanned(es) && CarriesPast(es, lo, hi) && lo <= t <= hi && Has(es, w) && w <= t
    ensures Latest(Selected(es, lo, hi), t).Some? && w <= Latest(Selected(es, lo, hi), t).value
  {
    var i :| 0 <= i < |es| && w in es[i].stamps;
    assert Scanned(es[i]);
    if es[i].end < lo {
      var from := Latest(Selected(es, lo, hi), lo);
      assert w <= from.value <= t;
    } else {
      assert Overlaps(es[i], lo, hi);
      SelectedHolds(es, lo, hi, w);
    }
  }

  lemma SelectionAnswers(es: seq<Entry>, lo: int, hi: int, t: int)
    requires AllScanned(es) && CarriesPast(es, lo, hi) && lo <= t <= hi
    ensures Latest(Selected(es, lo, hi), t) == Latest(es, t)
  {
    var all, sel := Latest(es, t), Latest(Selected(es, lo, hi), t);
    if all.Some? {
      ArchiveIsMatched(es, lo, hi, t, all.value);
    }
    if sel.Some? {
      SelectionIsPart(es, lo, hi, sel.value);
    }
    assert all == sel;
  }

  /** Right at the start is enough: the archive's answer there is at least as late as every file that ended before. */
  lemma AnswerAtStartCarries(es: seq<Entry>, lo: int, hi: int)
    requires AllScanned(es) && Latest(Selected(es, lo, hi), lo) == Latest(es, lo)
    ensures CarriesPast(es, lo, hi)
  {
    var from := Latest(es, lo);
    forall i | 0 <= i < |es| && es[i].end < lo ensures from.Some? && es[i].end <= from.value {
      assert Scanned(es[i]);
      assert Has(es, es[i].end);
    }
  }

  predicate AnswersLikeArchive(es: seq<Entry>, lo: int, hi: int, t: int) {
    Latest(Selected(es, lo, hi), t) == Latest(es, t)
  }

  /** The selection resolves every moment of the window like the whole archive exactly when the past is carried. */
  lemma SelectionAnswersExactly(es: seq<Entry>, lo: int, hi: int)
    requires AllScanned(es) && lo <= hi
    ensures (forall t :: lo <= t <= hi ==> AnswersLikeArchive(es, lo, hi, t)) <==> PastIsCarried(es, lo, hi)
  {
    CarriedIsMatched(es, lo, hi);
    MatchedIsCarried(es, lo, hi);
    if CarriesPast(es, lo, hi) {
      forall t | lo <= t <= hi ensures AnswersLikeArchive(es, lo, hi, t) {
        SelectionAnswers(es, lo, hi, t);
      }
    }
    if AnswersLikeArchive(es, lo, hi, lo) {
      AnswerAtStartCarries(es, lo, hi);
    }
  }

  // ---- disjoint files ---------------------------------------------------------------------------

  predicate Disjoint(es: seq<Entry>) {
    forall i, j :: 0 <= i < j < |es| ==> es[i].end < es[j].start
  }

  /** Files in chronological order with disjoint ranges always carry the past. */
  lemma DisjointCarriesPast(es: seq<Entry>, lo: int, hi: int)
    requires AllScanned(es) && Disjoint(es)
    ensures CarriesPast(es, lo, hi)
  {
    var from := Latest(Selected(es, lo, hi), lo);
    forall i | 0 <= i < |es| && es[i].end < lo ensures from.Some? && es[i].end <= from.value {
      if CoversStart(es, lo, hi) {
        var k :| 0 <= k < |es| && Overlaps(es[k], lo, hi) && es[k].start <= lo;
        assert Scanned(es[k]) && i < k;
        SelectedHolds(es, lo, hi, es[k].start);
      } else {
        var p := Preceding(es, lo);
        assert Scanned(es[p]) && i <= p;
        SelectedHolds(es, lo, hi, es[p].end);
      }
    }
  }

  /** For disjoint file ranges and every moment of the window, the latest snapshot at or before it over the selected
      files is the latest over the whole archive. */
  lemma DisjointSelectionAnswers(es: seq<Entry>, lo: int, hi: int, t: int)
    requires AllScanned(es) && Disjoint(es) && lo <= t <= hi
    ensures Latest(Selected(es, lo, hi), t) == Latest(es, t)
  {
    DisjointCarriesPast(es, lo, hi);
    SelectionAnswers(es, lo, hi, t);
  }

  lemma {:induction false} OverlappingInOrder(es: seq<Entry>, lo: int, hi: int)
    requires Disjoint(es)
    ensures Disjoint(Overlapping(es, lo, hi))
    ensures forall e :: e in Overlapping(es, lo, hi) ==> e in es && Overlaps(e, lo, hi)
  {
    if es != [] {
      OverlappingInOrder(Init(es), lo, hi);
      forall e | e in Overlapping(Init(es), lo, hi) ensures e.end < Last(es).start {
        var i :| 0 <= i < |Init(es)| && Init(es)[i] == e;
      }
    }
  }

  /** The selection is chronological and every file but possibly the first one overlaps the window. */
  lemma SelectionInOrder(es: seq<Entry>, lo: int, hi: int)
    requires AllScanned(es) && Disjoint(es)
    ensures Disjoint(Selected(es, lo, hi))
    ensures forall i :: 0 < i < |Selected(es, lo, hi)| ==> Overlaps(Selected(es, lo, hi)[i], lo, hi)
  {
    OverlappingInOrder(es, lo, hi);
    var p, picked := Preceding(es, lo), Overlapping(es, lo, hi);
    if !CoversStart(es, lo, hi) && p >= 0 {
      forall e | e in picked ensures es[p].end < e.start {
        var i :| 0 <= i < |es| && es[i] == e;
        assert Scanned(es[p]) && Scanned(es[i]);
      }
    }
  }

  /** Overlapping ranges: the long file covers the start of the window, so the short one that ended at 90 is dropped,
      and a tick at 100 gets the snapshot of 0 instead of that of 90. */
  lemma OverlapCounterexample(es: seq<Entry>, long: seq<Row>, short: seq<Row>)
    requires Collected(long) == [0, 500] && Collected(short) == [10, 90]
    requires es == [Entry("a", 0, 500, [0, 500], long), Entry("b", 10, 90, [10, 90], short)]
    ensures AllScanned(es) && Latest(Selected(es, 100, 100), 100) == Some(0) && Latest(es, 100) == Some(90)
  {
    var long, short := es[0], es[1];
    assert 0 in long.stamps && 500 in long.stamps && 10 in short.stamps && 90 in short.stamps;
    LongHidesShort(es, long, short);
  }

  lemma LongHidesShort(es: seq<Entry>, long: Entry, short: Entry)
    requires es == [long, short] && long.stamps == [0, 500] && short.stamps == [10, 90]
    requires Scanned(long) && Scanned(short) && long.start == 0 && long.end == 500 && short.start == 10
             && short.end == 90
    ensures Latest(Selected(es, 100, 100), 100) == Some(0) && Latest(es, 100) == Some(90)
  {
    assert 90 in es[1].stamps && 0 in es[0].stamps;
    assert Has(es, 90) && Has(es, 0);
    assert Overlaps(es[0], 100, 100) && CoversStart(es, 100, 100);
    SelectedHolds(es, 100, 100, 0);
    var sel := Latest(Selected(es, 100, 100), 100);
    SelectedHolds(es, 100, 100, sel.value);
  }
}
