/** The reader of the signal archive: it merges the rows of the selected files, one per stamp, and trims them to the
    window by collection time. For disjoint files the result is a slice of the series of the whole archive. */
module SignalReader {
  import opened Prelude
  import opened Bisection
  import opened SignalSelection

  // ---- the reader: one row per stamp, ascending ---------------------------------------------------

  /** A later row replaces an earlier one of the same stamp, except that the envelope's row never replaces the
      symbol's. */
  function InsertRow(s: seq<Row>, r: Row): seq<Row> {
    if s == [] || Last(s).collected < r.collected then s + [r]
    else if Last(s).collected == r.collected then if Last(s).own && !r.own then s else Init(s) + [r]
    else InsertRow(Init(s), r) + [Last(s)]
  }

  function MergeRows(rows: seq<Row>): seq<Row> {
    if rows == [] then [] else InsertRow(MergeRows(Init(rows)), Last(rows))
  }

  function RowsOf(es: seq<Entry>): seq<Row> {
    if es == [] then [] else RowsOf(Init(es)) + Last(es).rows
  }

  /** The series the reader builds from a list of files. */
  function Merged(es: seq<Entry>): seq<Row> {
    MergeRows(RowsOf(es))
  }

  predicate Ascending(s: seq<Row>) {
    forall i, j :: 0 <= i < j < |s| ==> s[i].collected < s[j].collected
  }

  predicate AllBefore(s: seq<Row>, t: int) {
    forall i :: 0 <= i < |s| ==> s[i].collected < t
  }

  predicate Precedes(a: seq<Row>, b: seq<Row>) {
    forall i, j :: 0 <= i < |a| && 0 <= j < |b| ==> a[i].collected < b[j].collected
  }

  lemma {:induction false} InsertStamps(s: seq<Row>, r: Row, v: int)
    ensures v in Collected(InsertRow(s, r)) <==> v in Collected(s) || v == r.collected
  {
    if s == [] || Last(s).collected < r.collected {
      CollectedAppend(s, r);
    } else {
      var p, l := Init(s), Last(s);
      assert s == p + [l];
      CollectedAppend(p, l);
      CollectedAppend(p, r);
      if r.collected < l.collected {
        InsertStamps(p, r, v);
        CollectedAppend(InsertRow(p, r), l);
      }
    }
  }

  lemma CollectedAppend(s: seq<Row>, r: Row)
    ensures Collected(s + [r]) == Collected(s) + [r.collected]
  {
  }

  lemma {:induction false} StampIsSome(s: seq<Row>, i: nat)
    requires i < |s|
    ensures s[i].collected in Collected(s)
  {
    assert Collected(s)[i] == s[i].collected;
  }

  lemma {:induction false} InsertAscends(s: seq<Row>, r: Row)
    requires Ascending(s)
    ensures Ascending(InsertRow(s, r))
  {
    if s != [] && Last(s).collected > r.collected {
      var p, l := Init(s), Last(s);
      InsertAscends(p, r);
      var q := InsertRow(p, r);
      forall i | 0 <= i < |q| ensures q[i].collected < l.collected {
        StampIsSome(q, i);
        InsertStamps(p, r, q[i].collected);
        assert q[i].collected in Collected(p) || q[i].collected == r.collected;
        if q[i].collected in Collected(p) {
          var j :| 0 <= j < |p| && Collected(p)[j] == q[i].collected;
        }
      }
    }
  }

  lemma {:induction false} MergeAscends(rows: seq<Row>)
    ensures Ascending(MergeRows(rows))
  {
    if rows != [] {
      MergeAscends(Init(rows));
      InsertAscends(MergeRows(Init(rows)), Last(rows));
    }
  }

  lemma {:induction false} MergeStamps(rows: seq<Row>, v: int)
    ensures v in Collected(MergeRows(rows)) <==> v in Collected(rows)
  {
    if rows != [] {
      var p, r := Init(rows), Last(rows);
      MergeStamps(p, v);
      InsertStamps(MergeRows(p), r, v);
      assert rows == p + [r];
      CollectedAppend(p, r);
    }
  }

  /** A row that comes after a whole front part is inserted behind it. */
  lemma {:induction false} InsertBehind(a: seq<Row>, b: seq<Row>, r: Row)
    requires AllBefore(a, r.collected)
    ensures InsertRow(a + b, r) == a + InsertRow(b, r)
  {
    if b == [] {
      assert a + b == a;
    } else {
      var p, l := Init(b), Last(b);
      assert Init(a + b) == a + p && Last(a + b) == l;
      if r.collected < l.collected {
        InsertBehind(a, p, r);
        assert a + InsertRow(p, r) + [l] == a + (InsertRow(p, r) + [l]);
      } else if l.collected < r.collected {
        assert a + b + [r] == a + (b + [r]);
      } else {
        assert a + p + [r] == a + (p + [r]);
      }
    }
  }

  lemma {:induction false} MergeIsBefore(rows: seq<Row>, t: int)
    requires AllBefore(rows, t)
    ensures AllBefore(MergeRows(rows), t)
  {
    var m := MergeRows(rows);
    forall i | 0 <= i < |m| ensures m[i].collected < t {
      StampIsSome(m, i);
      MergeStamps(rows, m[i].collected);
      var j :| 0 <= j < |rows| && Collected(rows)[j] == m[i].collected;
    }
  }

  /** Parts that follow each other in time are merged one by one. */
  lemma {:induction false} MergeConcat(a: seq<Row>, b: seq<Row>)
    requires Precedes(a, b)
    ensures MergeRows(a + b) == MergeRows(a) + MergeRows(b)
  {
    if b == [] {
      assert a + b == a && MergeRows(a) + [] == MergeRows(a);
    } else {
      var p, r := Init(b), Last(b);
      assert Init(a + b) == a + p && Last(a + b) == r;
      MergeConcat(a, p);
      assert AllBefore(a, r.collected) by {
        assert r == b[|b| - 1];
      }
      MergeIsBefore(a, r.collected);
      InsertBehind(MergeRows(a), MergeRows(p), r);
    }
  }

  // ---- the reader's trim --------------------------------------------------------------------------

  lemma AscendingClimbs(s: seq<Row>)
    requires Ascending(s)
    ensures Climbs(Collected(s))
  {
  }

  /** Where the window ends in a series, and where what it needs begins: at the last row up to its start. */
  function TrimTo(s: seq<Row>, hi: int): (n: nat)
    requires Ascending(s)
    ensures n <= |s|
  {
    AscendingClimbs(s);
    CountUpTo(Collected(s), hi)
  }

  function TrimFrom(s: seq<Row>, lo: int): (n: nat)
    requires Ascending(s)
    ensures n <= |s| && (n > 0 ==> n < |s| && s[n].collected <= lo)
    ensures forall i :: n < i < |s| ==> s[i].collected > lo
  {
    AscendingClimbs(s);
    var n := CountUpTo(Collected(s), lo);
    if n == 0 then 0 else n - 1
  }

  /** The series trimmed to a window: nothing behind it, and in front of it only the last row up to its start. */
  function Trim(s: seq<Row>, lo: int, hi: int): seq<Row>
    requires Ascending(s)
  {
    var kept := s[..TrimTo(s, hi)];
    kept[TrimFrom(kept, lo)..]
  }

  /** The reader's two loops. */
  method TrimSeries(s: seq<Row>, lo: int, hi: int) returns (r: seq<Row>)
    requires Ascending(s)
    ensures r == Trim(s, lo, hi)
  {
    ghost var to := TrimTo(s, hi);
    UpToEnd(s, hi);
    var kept: seq<Row> := [];
    for i := 0 to |s|
      invariant kept == s[..if i < to then i else to]
    {
      if s[i].collected <= hi {
        kept := kept + [s[i]];
      }
    }
    var from := LastUpTo(kept, lo);
    r := kept[from..];
  }

  lemma UpToEnd(s: seq<Row>, hi: int)
    requires Ascending(s)
    ensures forall i :: 0 <= i < |s| ==> (s[i].collected <= hi <==> i < TrimTo(s, hi))
  {
    AscendingClimbs(s);
    assert forall i :: 0 <= i < |s| ==> Collected(s)[i] == s[i].collected;
  }

  /** In a window that does not end before it starts, the trim is a slice of the series. */
  lemma TrimIsSlice(s: seq<Row>, lo: int, hi: int)
    requires Ascending(s) && lo <= hi
    ensures TrimFrom(s, lo) <= TrimTo(s, hi) && (TrimFrom(s, lo) == 0 || TrimFrom(s, lo) < TrimTo(s, hi))
    ensures Trim(s, lo, hi) == s[TrimFrom(s, lo)..TrimTo(s, hi)]
  {
    var to := TrimTo(s, hi);
    var kept := s[..to];
    UpToEnd(s, hi);
    UpToEnd(s, lo);
    AscendingClimbs(kept);
    assert TrimTo(s, lo) <= to by {
      assert to < |s| ==> s[to].collected > hi;
    }
    CountIs(Collected(kept), lo, TrimTo(s, lo));
  }

  /** The position of the last row up to the start, or 0. */
  method LastUpTo(kept: seq<Row>, lo: int) returns (from: nat)
    requires Ascending(kept)
    ensures from == TrimFrom(kept, lo)
  {
    AscendingClimbs(kept);
    from := 0;
    var i := 0;
    while i < |kept| && kept[i].collected <= lo
      invariant i <= |kept| && from == (if i == 0 then 0 else i - 1)
      invariant forall j :: 0 <= j < i ==> kept[j].collected <= lo
    {
      from := i;
      i := i + 1;
    }
    CountIs(Collected(kept), lo, i);
  }

  /** A front part up to the moment counts in full, a back part behind it not at all. */
  lemma CountParts(a: seq<int>, b: seq<int>, c: seq<int>, all: seq<int>, t: int)
    requires all == a + b + c && Climbs(all) && Climbs(b)
    requires forall i :: 0 <= i < |a| ==> a[i] <= t
    requires forall i :: 0 <= i < |c| ==> c[i] > t
    ensures CountUpTo(all, t) == |a| + CountUpTo(b, t)
  {
    var n := CountUpTo(b, t);
    var k := |a| + n;
    assert k > 0 ==> all[k - 1] == if n > 0 then b[n - 1] else a[|a| - 1];
    assert k < |all| ==> all[k] == if n < |b| then b[n] else c[0];
    CountIs(all, t, k);
  }

  lemma CollectedParts(p: seq<Row>, m: seq<Row>, q: seq<Row>)
    ensures Collected(p + m + q) == Collected(p) + Collected(m) + Collected(q)
  {
  }

  lemma MiddleAscends(p: seq<Row>, m: seq<Row>, q: seq<Row>, all: seq<Row>)
    requires all == p + m + q && Ascending(all)
    ensures Ascending(m) && (p != [] && m != [] ==> forall i :: 0 <= i < |p| ==> p[i].collected < m[0].collected)
  {
    assert forall i :: 0 <= i < |m| ==> m[i] == all[|p| + i];
    assert forall i :: 0 <= i < |p| ==> p[i] == all[i];
  }

  lemma TrimParts(p: seq<Row>, m: seq<Row>, q: seq<Row>, all: seq<Row>, lo: int, hi: int)
    requires all == p + m + q && Ascending(all) && Ascending(m) && lo <= hi
    requires forall i :: 0 <= i < |q| ==> q[i].collected > hi
    requires forall i :: 0 <= i < |p| ==> p[i].collected <= lo
    requires p == [] || (m != [] && m[0].collected <= lo)
    ensures TrimTo(all, hi) == |p| + TrimTo(m, hi) && TrimFrom(all, lo) == |p| + TrimFrom(m, lo)
  {
    AscendingClimbs(all);
    AscendingClimbs(m);
    CollectedParts(p, m, q);
    CountParts(Collected(p), Collected(m), Collected(q), Collected(all), hi);
    CountParts(Collected(p), Collected(m), Collected(q), Collected(all), lo);
    if p != [] {
      assert Collected(m)[0] <= lo;
    }
  }

  lemma SliceOfParts(p: seq<Row>, m: seq<Row>, q: seq<Row>, all: seq<Row>, a: nat, b: nat)
    requires a <= b <= |m| && all == p + m + q
    ensures all[|p| + a..|p| + b] == m[a..b]
  {
  }

  lemma FrontIsPast(p: seq<Row>, m: seq<Row>, lo: int)
    requires p != [] && m != [] ==> forall i :: 0 <= i < |p| ==> p[i].collected < m[0].collected
    requires p == [] || (m != [] && m[0].collected <= lo)
    ensures forall i :: 0 <= i < |p| ==> p[i].collected <= lo
  {
  }

  lemma TrimMiddle(p: seq<Row>, m: seq<Row>, q: seq<Row>, all: seq<Row>, lo: int, hi: int)
    requires all == p + m + q && Ascending(all) && Ascending(m) && lo <= hi
    requires TrimTo(all, hi) == |p| + TrimTo(m, hi) && TrimFrom(all, lo) == |p| + TrimFrom(m, lo)
    ensures Trim(m, lo, hi) == Trim(all, lo, hi)
  {
    TrimIsSlice(m, lo, hi);
    TrimIsSlice(all, lo, hi);
    SliceOfParts(p, m, q, all, TrimFrom(m, lo), TrimTo(m, hi));
  }

  /** Dropping a front part that ended before the window, up to a row the window's start still reaches, and a back part
      behind the window changes nothing of what the trim keeps. */
  lemma TrimOfParts(p: seq<Row>, m: seq<Row>, q: seq<Row>, all: seq<Row>, lo: int, hi: int)
    requires all == p + m + q && Ascending(all) && lo <= hi
    requires forall i :: 0 <= i < |q| ==> q[i].collected > hi
    requires p == [] || (m != [] && m[0].collected <= lo)
    ensures Ascending(m) && Trim(m, lo, hi) == Trim(all, lo, hi)
  {
    MiddleAscends(p, m, q, all);
    FrontIsPast(p, m, lo);
    TrimParts(p, m, q, all, lo, hi);
    TrimMiddle(p, m, q, all, lo, hi);
  }

  // ---- the selected files are a slice of the archive ----------------------------------------------

  lemma {:induction false} RowsConcat(a: seq<Entry>, b: seq<Entry>)
    ensures RowsOf(a + b) == RowsOf(a) + RowsOf(b)
  {
    if b == [] {
      assert a + b == a && RowsOf(a) + [] == RowsOf(a);
    } else {
      var p, e := Init(b), Last(b);
      RowsConcat(a, p);
      assert Init(a + b) == a + p && Last(a + b) == e;
      assert RowsOf(a) + RowsOf(p) + e.rows == RowsOf(a) + (RowsOf(p) + e.rows);
    }
  }

  /** Every row of the files comes from one of them. */
  lemma {:induction false} RowFrom(es: seq<Entry>, i: nat) returns (k: nat)
    requires AllScanned(es) && i < |RowsOf(es)|
    ensures k < |es| && es[k].start <= RowsOf(es)[i].collected <= es[k].end
  {
    var p, e := Init(es), Last(es);
    var n := |RowsOf(p)|;
    if i < n {
      k := RowFrom(p, i);
    } else {
      k := |es| - 1;
      assert Scanned(es[k]);
      assert e.stamps[i - n] == e.rows[i - n].collected && e.stamps[i - n] in e.stamps;
    }
  }

  lemma {:induction false} FilesPrecede(a: seq<Entry>, b: seq<Entry>)
    requires AllScanned(a) && AllScanned(b)
    requires forall i, j :: 0 <= i < |a| && 0 <= j < |b| ==> a[i].end < b[j].start
    ensures Precedes(RowsOf(a), RowsOf(b))
  {
    forall i, j | 0 <= i < |RowsOf(a)| && 0 <= j < |RowsOf(b)|
      ensures RowsOf(a)[i].collected < RowsOf(b)[j].collected
    {
      var k := RowFrom(a, i);
      var l := RowFrom(b, j);
    }
  }

  /** Disjoint files in order are merged one part after the other. */
  lemma {:induction false} MergedSplits(es: seq<Entry>, a: nat)
    requires AllScanned(es) && Disjoint(es) && a <= |es|
    ensures Merged(es) == Merged(es[..a]) + Merged(es[a..])
  {
    assert es == es[..a] + es[a..];
    FilesPrecede(es[..a], es[a..]);
    RowsConcat(es[..a], es[a..]);
    MergeConcat(RowsOf(es[..a]), RowsOf(es[a..]));
  }

  /** The number of leading files that start up to the window's end. */
  function StartedUpTo(es: seq<Entry>, hi: int): (n: nat)
    ensures n <= |es|
  {
    if es == [] then 0 else if Last(es).start <= hi then |es| else StartedUpTo(Init(es), hi)
  }

  lemma {:induction false} StartedIs(es: seq<Entry>, hi: int)
    requires AllScanned(es) && Disjoint(es)
    ensures forall i :: 0 <= i < StartedUpTo(es, hi) ==> es[i].start <= hi
    ensures forall i :: StartedUpTo(es, hi) <= i < |es| ==> es[i].start > hi
  {
    if es != [] {
      if Last(es).start <= hi {
        forall i | 0 <= i < |es| ensures es[i].start <= hi {
          assert Scanned(es[i]);
        }
      } else {
        StartedIs(Init(es), hi);
      }
    }
  }

  /** Files up to a point, with the ended ones in front, overlap the window from the first that has not ended. */
  lemma {:induction false} OverlappingUpTo(es: seq<Entry>, lo: int, hi: int, x: nat, y: nat)
    requires x <= |es| && y <= |es|
    requires forall i :: 0 <= i < |es| ==> (Overlaps(es[i], lo, hi) <==> x <= i < y)
    ensures Overlapping(es, lo, hi) == if x <= y then es[x..y] else []
    decreases |es|
  {
    if es != [] {
      var p, n := Init(es), |es| - 1;
      assert forall i :: 0 <= i < n ==> p[i] == es[i];
      OverlappingUpTo(p, lo, hi, if x < n then x else n, if y < n then y else n);
      if x <= n < y {
        assert es[x..y] == p[x..n] + [Last(es)];
      }
    }
  }

  lemma {:induction false} OverlappingIsSlice(es: seq<Entry>, lo: int, hi: int, x: nat, y: nat)
    requires AllScanned(es) && Disjoint(es) && lo <= hi && x == Preceding(es, lo) + 1 && y == StartedUpTo(es, hi)
    ensures x <= y && Overlapping(es, lo, hi) == es[x..y]
  {
    StartedIs(es, hi);
    forall i | 0 <= i < |es| ensures Overlaps(es[i], lo, hi) <==> x <= i < y {
      assert Scanned(es[i]);
      if i < x {
        assert es[i].end <= es[x - 1].end;
      }
    }
    if x > 0 {
      assert Scanned(es[x - 1]) && es[x - 1].start <= hi;
    }
    OverlappingUpTo(es, lo, hi, x, y);
  }

  lemma SelectedIs(es: seq<Entry>, lo: int, hi: int, x: nat, b: nat)
    requires x == Preceding(es, lo) + 1 && x <= b <= |es| && Overlapping(es, lo, hi) == es[x..b]
    ensures Selected(es, lo, hi) == if !CoversStart(es, lo, hi) && x > 0 then es[x - 1..b] else es[x..b]
  {
  }

  lemma {:induction false} CoveringIsFirst(es: seq<Entry>, lo: int, hi: int, x: nat, k: nat)
    requires AllScanned(es) && Disjoint(es) && x == Preceding(es, lo) + 1
    requires k < |es| && Overlaps(es[k], lo, hi) && es[k].start <= lo && lo <= hi
    ensures x <= k < StartedUpTo(es, hi) && es[x].start <= lo
  {
    StartedIs(es, hi);
    assert x <= k by {
      assert x > 0 ==> Scanned(es[x - 1]) && es[x - 1].end < lo;
    }
    assert Scanned(es[x]);
  }

  /** The selection is a run of neighbouring files: nothing behind it starts in the window, and if anything is left out
      in front, the first selected file starts at or before the window. */
  lemma {:induction false} SelectedIsSlice(es: seq<Entry>, lo: int, hi: int) returns (a: nat, b: nat)
    requires AllScanned(es) && Disjoint(es) && lo <= hi
    ensures a <= b <= |es| && Selected(es, lo, hi) == es[a..b]
    ensures forall i :: b <= i < |es| ==> es[i].start > hi
    ensures a > 0 ==> a < b && es[a].start <= lo
  {
    var x := Preceding(es, lo) + 1;
    b := StartedUpTo(es, hi);
    OverlappingIsSlice(es, lo, hi, x, b);
    SelectedIs(es, lo, hi, x, b);
    StartedIs(es, hi);
    a := x;
    if CoversStart(es, lo, hi) {
      var k :| 0 <= k < |es| && Overlaps(es[k], lo, hi) && es[k].start <= lo;
      CoveringIsFirst(es, lo, hi, x, k);
    } else if x > 0 {
      a := x - 1;
      assert Scanned(es[a]);
    }
  }

  // ---- what a window resolves to ------------------------------------------------------------------

  lemma {:induction false} CollectedConcat(a: seq<Row>, b: seq<Row>)
    ensures Collected(a + b) == Collected(a) + Collected(b)
  {
  }

  lemma {:induction false} RowsHave(es: seq<Entry>, v: int)
    requires AllScanned(es)
    ensures v in Collected(RowsOf(es)) <==> Has(es, v)
  {
    if es != [] {
      var p, e := Init(es), Last(es);
      RowsHave(p, v);
      assert Scanned(es[|es| - 1]);
      CollectedConcat(RowsOf(p), e.rows);
      assert es == p + [e];
      HasAppend(p, [e], v);
      HasOne(e, v);
    }
  }

  /** The stamps of the merged series are those of the files. */
  lemma {:induction false} MergedHolds(es: seq<Entry>, v: int)
    requires AllScanned(es)
    ensures v in Collected(Merged(es)) <==> Has(es, v)
  {
    MergeStamps(RowsOf(es), v);
    RowsHave(es, v);
  }

  /** The series the reader hands to the provider. */
  function Resolved(es: seq<Entry>, lo: int, hi: int): seq<Row> {
    MergeAscends(RowsOf(Selected(es, lo, hi)));
    Trim(Merged(Selected(es, lo, hi)), lo, hi)
  }

  lemma {:induction false} LateFiles(es: seq<Entry>, hi: int)
    requires AllScanned(es) && forall i :: 0 <= i < |es| ==> es[i].start > hi
    ensures forall i :: 0 <= i < |Merged(es)| ==> Merged(es)[i].collected > hi
  {
    var m := Merged(es);
    forall i | 0 <= i < |m| ensures m[i].collected > hi {
      StampIsSome(m, i);
      MergedHolds(es, m[i].collected);
      var k :| 0 <= k < |es| && m[i].collected in es[k].stamps;
      assert Scanned(es[k]);
    }
  }

  lemma {:induction false} FirstRowUpTo(es: seq<Entry>, lo: int)
    requires AllScanned(es) && es != [] && es[0].start <= lo
    ensures Merged(es) != [] && Merged(es)[0].collected <= lo
  {
    var m := Merged(es);
    assert Scanned(es[0]) && Has(es, es[0].start);
    MergedHolds(es, es[0].start);
    var j :| 0 <= j < |m| && Collected(m)[j] == es[0].start;
    MergeAscends(RowsOf(es));
    assert m[0].collected <= m[j].collected;
  }

  lemma {:induction false} MergedInThree(es: seq<Entry>, a: nat, b: nat)
    requires AllScanned(es) && Disjoint(es) && a <= b <= |es|
    ensures Merged(es) == Merged(es[..a]) + Merged(es[a..b]) + Merged(es[b..])
  {
    MergedSplits(es, b);
    MergedSplits(es[..b], a);
    assert es[..b][..a] == es[..a] && es[..b][a..] == es[a..b];
  }

  lemma {:induction false} RunOfFilesTrims(es: seq<Entry>, a: nat, b: nat, lo: int, hi: int)
    requires AllScanned(es) && Disjoint(es) && lo <= hi && a <= b <= |es|
    requires forall i :: b <= i < |es| ==> es[i].start > hi
    requires a > 0 ==> a < b && es[a].start <= lo
    ensures Ascending(Merged(es)) && Ascending(Merged(es[a..b]))
    ensures Trim(Merged(es[a..b]), lo, hi) == Trim(Merged(es), lo, hi)
  {
    var p, m, q, all := Merged(es[..a]), Merged(es[a..b]), Merged(es[b..]), Merged(es);
    assert all == p + m + q by {
      MergedInThree(es, a, b);
    }
    assert Ascending(all) by {
      MergeAscends(RowsOf(es));
    }
    assert forall i :: 0 <= i < |q| ==> q[i].collected > hi by {
      LateFiles(es[b..], hi);
    }
    assert p == [] || (m != [] && m[0].collected <= lo) by {
      if a > 0 {
        FirstRowUpTo(es[a..b], lo);
      } else {
        assert es[..a] == [];
      }
    }
    TrimOfParts(p, m, q, all, lo, hi);
  }

  /** For disjoint files selecting, merging and trimming is trimming the series of the whole archive. */
  lemma {:induction false} ResolvedIsSlice(es: seq<Entry>, lo: int, hi: int)
    requires AllScanned(es) && Disjoint(es) && lo <= hi
    ensures Ascending(Merged(es)) && Resolved(es, lo, hi) == Trim(Merged(es), lo, hi)
  {
    var a, b := SelectedIsSlice(es, lo, hi);
    RunOfFilesTrims(es, a, b, lo, hi);
  }

  // ---- which row of a stamp survives --------------------------------------------------------------

  /** Row `k` outdoes every other row of its stamp: the later one wins, but the symbol's row is never replaced by the
      envelope's. */
  predicate Wins(rows: seq<Row>, k: nat)
    requires k < |rows|
  {
    forall j :: 0 <= j < |rows| && rows[j].collected == rows[k].collected ==>
      && (j < k ==> rows[k].own || !rows[j].own)
      && (k < j ==> rows[k].own && !rows[j].own)
  }

  lemma {:induction false} InsertedFrom(s: seq<Row>, r: Row, i: nat) returns (j: nat)
    requires Ascending(s) && i < |InsertRow(s, r)|
    ensures j <= |s|
    ensures j < |s| ==> InsertRow(s, r)[i] == s[j] && (s[j].collected == r.collected ==> s[j].own && !r.own)
    ensures j == |s| ==> InsertRow(s, r)[i] == r &&
                         forall k :: 0 <= k < |s| && s[k].collected == r.collected ==> r.own || !s[k].own
  {
    if s == [] || Last(s).collected < r.collected {
      j := i;
    } else if Last(s).collected == r.collected {
      j := if i < |s| - 1 || (Last(s).own && !r.own) then i else |s|;
    } else if i == |InsertRow(s, r)| - 1 {
      j := |s| - 1;
    } else {
      j := InsertedFrom(Init(s), r, i);
      if j == |s| - 1 {
        j := |s|;
      }
    }
  }

  lemma StillWins(p: seq<Row>, r: Row, k: nat)
    requires k < |p| && Wins(p, k) && (p[k].collected == r.collected ==> p[k].own && !r.own)
    ensures Wins(p + [r], k)
  {
  }

  /** Every row of the merged series is the one that wins its stamp. */
  lemma {:induction false} MergedRowWins(rows: seq<Row>, i: nat) returns (k: nat)
    requires i < |MergeRows(rows)|
    ensures k < |rows| && rows[k] == MergeRows(rows)[i] && Wins(rows, k)
    decreases |rows|
  {
    var p, r := Init(rows), Last(rows);
    var s := MergeRows(p);
    MergeAscends(p);
    var j := InsertedFrom(s, r, i);
    assert rows == p + [r];
    if j < |s| {
      k := MergedRowWins(p, j);
      StillWins(p, r, k);
    } else {
      k := |p|;
      forall l | 0 <= l < |p| && p[l].collected == r.collected ensures r.own || !p[l].own {
        StampIsSome(p, l);
        MergeStamps(p, r.collected);
        var m :| 0 <= m < |s| && Collected(s)[m] == r.collected;
        var w := MergedRowWins(p, m);
      }
    }
  }
}
