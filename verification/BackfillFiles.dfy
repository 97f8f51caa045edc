/** Backfilling all files of a symbol at once: gather the ticks of the files that need it, stamp the whole stream,
    and write the ticks back to the files they came from. */
module BackfillFiles {
  import opened Prelude
  import opened Backfill

  // ---- Kraken -----------------------------------------------------------------------------------

  /** A tick as the backfill sees it. */
  datatype Row = Row(second: int, timeMsc: int, isTicker: bool, serverTime: bool, collected: Option<int>)

  /** The first row of the block around `i`: a ticker row stands alone; a trade row opens a block of all
      directly following rows with its time. */
  function BlockStart(rows: seq<Row>, i: nat): (j: nat)
    requires i < |rows|
    ensures j <= i && rows[j].timeMsc == rows[i].timeMsc
  {
    if i == 0 then 0
    else
      var j := BlockStart(rows, i - 1);
      if !rows[j].isTicker && rows[i].timeMsc == rows[j].timeMsc then j else i
  }

  function KrakenStamp(rows: seq<Row>, i: nat): int
    requires i < |rows|
  {
    rows[i].timeMsc + (i - BlockStart(rows, i))
  }

  function KrakenStamps(rows: seq<Row>): (r: seq<int>)
    ensures |r| == |rows|
  {
    seq(|rows|, i requires 0 <= i < |rows| => KrakenStamp(rows, i))
  }

  lemma {:induction false} BlockStartIn(rows: seq<Row>, i: nat, k: nat)
    requires i <= k < |rows| && BlockStart(rows, i) == i
    requires k > i ==> !rows[i].isTicker
    requires forall m :: i <= m <= k ==> rows[m].timeMsc == rows[i].timeMsc
    ensures BlockStart(rows, k) == i
  {
    if i < k {
      BlockStartIn(rows, i, k - 1);
    }
  }

  /** `_synthesize_kraken`, in place. */
  method SynthesizeKraken(rows: seq<Row>, stamps: array<int>)
    requires stamps.Length == |rows|
    modifies stamps
    ensures stamps[..] == KrakenStamps(rows)
  {
    var i := 0;
    while i < |rows|
      invariant i <= |rows| && (i < |rows| ==> BlockStart(rows, i) == i)
      invariant forall k :: 0 <= k < i ==> stamps[k] == KrakenStamp(rows, k)
    {
      if rows[i].isTicker {
        stamps[i] := rows[i].timeMsc;
        i := i + 1;
      } else {
        var j := i + 1;
        while j < |rows| && rows[j].timeMsc == rows[i].timeMsc
          invariant i < j <= |rows| && forall m :: i <= m < j ==> rows[m].timeMsc == rows[i].timeMsc
        {
          j := j + 1;
        }
        for k := 0 to j - i
          invariant forall m :: 0 <= m < i + k ==> stamps[m] == KrakenStamp(rows, m)
        {
          BlockStartIn(rows, i, i + k);
          stamps[i + k] := rows[i].timeMsc + k;
        }
        BlockStartIn(rows, i, j - 1);
        i := j;
      }
    }
  }

  /** Row `i` continues its block, or begins one that leaves the block before it a millisecond for each of its rows. */
  predicate LeavesTime(rows: seq<Row>, i: nat)
    requires 0 < i < |rows|
  {
    BlockStart(rows, i) == i ==> rows[i].timeMsc - rows[i - 1].timeMsc >= i - BlockStart(rows, i - 1)
  }

  predicate BlocksApart(rows: seq<Row>) {
    forall i :: 0 < i < |rows| ==> LeavesTime(rows, i)
  }

  lemma {:induction false} KrakenStep(rows: seq<Row>, i: nat)
    requires 0 < i < |rows|
    ensures KrakenStamps(rows)[i - 1] < KrakenStamps(rows)[i] <==> LeavesTime(rows, i)
  {
    assert BlockStart(rows, i) == i || BlockStart(rows, i) == BlockStart(rows, i - 1);
  }

  lemma {:induction false} ApartIncreases(rows: seq<Row>)
    requires BlocksApart(rows)
    ensures StrictlyIncreasing(KrakenStamps(rows))
  {
    var r := KrakenStamps(rows);
    forall i | 0 < i < |r| ensures r[i - 1] < r[i] {
      KrakenStep(rows, i);
    }
    StepwiseIncreasing(r, |r|);
    assert r[..|r|] == r;
  }

  lemma {:induction false} IncreasingIsApart(rows: seq<Row>)
    requires StrictlyIncreasing(KrakenStamps(rows))
    ensures BlocksApart(rows)
  {
    forall i | 0 < i < |rows| ensures LeavesTime(rows, i) {
      KrakenStep(rows, i);
    }
  }

  /** The Kraken stamps increase strictly, and the monotonicity pass corrects nothing, exactly when every block begins
      at least as many milliseconds after the one before it as that one has rows. */
  lemma {:induction false} KrakenSufficesExactly(rows: seq<Row>)
    ensures StrictlyIncreasing(KrakenStamps(rows)) <==> BlocksApart(rows)
    ensures Changed(KrakenStamps(rows), Raised(KrakenStamps(rows))) == 0 <==> BlocksApart(rows)
  {
    NoCorrectionExactly(KrakenStamps(rows));
    if BlocksApart(rows) {
      ApartIncreases(rows);
    }
    if StrictlyIncreasing(KrakenStamps(rows)) {
      IncreasingIsApart(rows);
    }
  }

  /** A ticker row that keeps its own time: it does not belong to a block of trades. */
  predicate Alone(rows: seq<Row>, i: nat)
    requires i < |rows|
  {
    rows[i].isTicker && KrakenStamps(rows)[i] == rows[i].timeMsc
  }

  /** The Kraken stamps row by row: the first keeps its time; another one lies a millisecond behind the row before it if
      it has the same time and that row is no ticker row of its own, and keeps its time otherwise. */
  lemma {:induction false} KrakenExactly(rows: seq<Row>, i: nat)
    requires i < |rows|
    ensures var r := KrakenStamps(rows);
            if i > 0 && rows[i].timeMsc == rows[i - 1].timeMsc && !Alone(rows, i - 1) then r[i] == r[i - 1] + 1
            else r[i] == rows[i].timeMsc
  {
    BlockOpens(rows, i);
    if i > 0 {
      BlockOpens(rows, i - 1);
      assert BlockStart(rows, i) == i || BlockStart(rows, i) == BlockStart(rows, i - 1);
    }
  }

  lemma {:induction false} BlockOpens(rows: seq<Row>, i: nat)
    requires i < |rows|
    ensures BlockStart(rows, i) < i ==> !rows[BlockStart(rows, i)].isTicker
  {
    if i > 0 {
      BlockOpens(rows, i - 1);
    }
  }

  // ---- gather and scatter -----------------------------------------------------------------------

  datatype File = File(rows: seq<Row>)

  /** Already carries collection times and is not forced: skipped. */
  predicate Skipped(f: File, force: bool) {
    f.rows != [] && f.rows[0].collected.Some? && !force
  }

  /** The rows of all files that are not skipped, in order. */
  function Gather(files: seq<File>, skip: seq<bool>): seq<Row>
    requires |skip| == |files|
  {
    if files == [] then []
    else if Last(skip) then Gather(Init(files), Init(skip))
    else Gather(Init(files), Init(skip)) + Last(files).rows
  }

  /** Each file that is not skipped takes its share of the rows back; skipped files stay. */
  function Scatter(files: seq<File>, skip: seq<bool>, all: seq<Row>): (r: seq<File>)
    requires |skip| == |files| && |all| == |Gather(files, skip)|
    ensures |r| == |files|
  {
    if files == [] then []
    else
      var n := |Gather(Init(files), Init(skip))|;
      Scatter(Init(files), Init(skip), all[..n]) + [if Last(skip) then Last(files) else File(all[n..])]
  }

  /** Scattering and gathering again gives the rows back: none is lost, duplicated or reordered. */
  lemma {:induction false} GatherOfScatter(files: seq<File>, skip: seq<bool>, all: seq<Row>)
    requires |skip| == |files| && |all| == |Gather(files, skip)|
    ensures Gather(Scatter(files, skip, all), skip) == all
  {
    if files != [] {
      var n, r := |Gather(Init(files), Init(skip))|, Scatter(files, skip, all);
      GatherOfScatter(Init(files), Init(skip), all[..n]);
      assert Init(r) == Scatter(Init(files), Init(skip), all[..n]);
      if !Last(skip) {
        assert Last(r).rows == all[n..] && all[..n] + all[n..] == all;
      } else {
        assert all[..n] == all && all + [] == all;
      }
    }
  }

  /** Every file keeps its number of rows, and a skipped one its rows. */
  lemma {:induction false} ScatterAt(files: seq<File>, skip: seq<bool>, all: seq<Row>, k: nat)
    requires |skip| == |files| && |all| == |Gather(files, skip)| && k < |files|
    ensures |Scatter(files, skip, all)[k].rows| == |files[k].rows|
    ensures skip[k] ==> Scatter(files, skip, all)[k] == files[k]
  {
    if k < |files| - 1 {
      ScatterAt(Init(files), Init(skip), all[..|Gather(Init(files), Init(skip))|], k);
    }
  }

  /** The file each gathered row came from. */
  function Origins(files: seq<File>, skip: seq<bool>): (o: seq<nat>)
    requires |skip| == |files|
    ensures |o| == |Gather(files, skip)|
    ensures forall i :: 0 <= i < |o| ==> o[i] < |files|
  {
    if files == [] then []
    else
      var n := |files| - 1;
      if Last(skip) then Origins(Init(files), Init(skip))
      else Origins(Init(files), Init(skip)) + seq(|Last(files).rows|, i => n)
  }

  /** The rows whose origin is file `k`. */
  function Select(all: seq<Row>, o: seq<nat>, k: nat): seq<Row>
    requires |o| == |all|
  {
    if all == [] then []
    else if Last(o) == k then Select(Init(all), Init(o), k) + [Last(all)]
    else Select(Init(all), Init(o), k)
  }

  /** Rows of other files behind do not matter ... */
  lemma {:induction false} SelectBefore(a: seq<Row>, oa: seq<nat>, b: seq<Row>, ob: seq<nat>, k: nat)
    requires |a| == |oa| && |b| == |ob| && forall i :: 0 <= i < |ob| ==> ob[i] != k
    ensures Select(a + b, oa + ob, k) == Select(a, oa, k)
  {
    if b == [] {
      assert a + b == a && oa + ob == oa;
    } else {
      SelectBefore(a, oa, Init(b), Init(ob), k);
      assert Init(a + b) == a + Init(b) && Init(oa + ob) == oa + Init(ob);
    }
  }

  /** ... and neither do rows of other files in front. */
  lemma {:induction false} SelectAfter(a: seq<Row>, oa: seq<nat>, b: seq<Row>, ob: seq<nat>, k: nat)
    requires |a| == |oa| && |b| == |ob| && forall i :: 0 <= i < |oa| ==> oa[i] != k
    ensures Select(a + b, oa + ob, k) == Select(b, ob, k)
  {
    if b == [] {
      assert a + b == a && oa + ob == oa;
      SelectAbsent(a, oa, k);
    } else {
      SelectAfter(a, oa, Init(b), Init(ob), k);
      assert Init(a + b) == a + Init(b) && Init(oa + ob) == oa + Init(ob);
    }
  }

  lemma {:induction false} SelectUniform(b: seq<Row>, n: nat, k: nat)
    ensures Select(b, seq(|b|, i => n), k) == if k == n then b else []
  {
    if b != [] {
      SelectUniform(Init(b), n, k);
      assert Init(seq(|b|, i => n)) == seq(|b| - 1, i => n);
    }
  }

  lemma {:induction false} SelectAbsent(b: seq<Row>, o: seq<nat>, k: nat)
    requires |o| == |b| && forall i :: 0 <= i < |o| ==> o[i] != k
    ensures Select(b, o, k) == []
  {
    if b != [] {
      SelectAbsent(Init(b), Init(o), k);
    }
  }

  /** Collecting rows by origin is scattering them. */
  lemma {:induction false} SelectIsShare(files: seq<File>, skip: seq<bool>, all: seq<Row>, k: nat)
    requires |skip| == |files| && |all| == |Gather(files, skip)| && k < |files|
    ensures Select(all, Origins(files, skip), k) == if skip[k] then [] else Scatter(files, skip, all)[k].rows
  {
    var last, n := |files| - 1, |Gather(Init(files), Init(skip))|;
    var oa := Origins(Init(files), Init(skip));
    if Last(skip) {
      assert all[..n] == all;
      if k == last {
        SelectAbsent(all, oa, k);
      } else {
        SelectIsShare(Init(files), Init(skip), all, k);
      }
    } else {
      var a, b := all[..n], all[n..];
      assert all == a + b;
      var ob := seq(|b|, i => last);
      if k == last {
        SelectAfter(a, oa, b, ob, k);
        SelectUniform(b, last, k);
      } else {
        SelectBefore(a, oa, b, ob, k);
        SelectIsShare(Init(files), Init(skip), a, k);
      }
    }
  }

  function WithStamps(all: seq<Row>, stamps: seq<int>): (r: seq<Row>)
    requires |stamps| == |all|
    ensures |r| == |all|
  {
    seq(|all|, i requires 0 <= i < |all| => all[i].(collected := Some(stamps[i])))
  }

  function Seconds(rows: seq<Row>): (x: seq<int>)
    ensures |x| == |rows|
  {
    seq(|rows|, i requires 0 <= i < |rows| => rows[i].second)
  }

  /** The stamps of the whole stream: synthesized, then forced to increase. */
  function StreamStamps(rows: seq<Row>, kraken: bool): (s: seq<int>)
    ensures |s| == |rows|
  {
    Raised(if kraken then KrakenStamps(rows) else Mt5Stamps(Seconds(rows)))
  }

  function SkipFlags(files: seq<File>, force: bool): (skip: seq<bool>)
    ensures |skip| == |files|
  {
    seq(|files|, k requires 0 <= k < |files| => Skipped(files[k], force))
  }

  /** `process_symbol_files` as a function: the files after the run. */
  function Processed(files: seq<File>, kraken: bool, force: bool): seq<File> {
    var skip := SkipFlags(files, force);
    var all := Gather(files, skip);
    Scatter(files, skip, WithStamps(all, StreamStamps(all, kraken)))
  }

  /** After a run the stamps increase strictly over all processed files together, across file boundaries; every file
      keeps its number of rows, and the rows keep their other fields. */
  lemma ProcessedStreamIncreases(files: seq<File>, kraken: bool, force: bool)
    ensures var skip := SkipFlags(files, force);
            var before, after := Gather(files, skip), Gather(Processed(files, kraken, force), skip);
            && |after| == |before|
            && (forall i :: 0 <= i < |after| ==>
                 after[i].collected.Some? && after[i] == before[i].(collected := after[i].collected))
            && (forall i, j :: 0 <= i < j < |after| ==> after[i].collected.value < after[j].collected.value)
  {
    var skip := SkipFlags(files, force);
    var all := Gather(files, skip);
    var s := StreamStamps(all, kraken);
    GatherOfScatter(files, skip, WithStamps(all, s));
    RaisedIncreases(if kraken then KrakenStamps(all) else Mt5Stamps(Seconds(all)));
  }

  /** The stamps of the processed stream are the least that increase strictly and lie at or above what is synthesized
      for each tick. */
  lemma {:induction false} StampsAreLeast(files: seq<File>, kraken: bool, force: bool, t: seq<int>, i: nat)
    requires var all := Gather(files, SkipFlags(files, force));
             && |t| == |all| && StrictlyIncreasing(t) && i < |t|
             && forall j :: 0 <= j < |t| ==> t[j] >= if kraken then KrakenStamps(all)[j] else Mt5Stamps(Seconds(all))[j]
    ensures var after := Gather(Processed(files, kraken, force), SkipFlags(files, force));
            && |after| == |t| && after[i].collected.Some? && after[i].collected.value <= t[i]
            && after[i].collected.value >= if kraken then after[i].timeMsc else 1000 * after[i].second
  {
    var skip := SkipFlags(files, force);
    var all := Gather(files, skip);
    var base := if kraken then KrakenStamps(all) else Mt5Stamps(Seconds(all));
    GatherOfScatter(files, skip, WithStamps(all, Raised(base)));
    RaisedIsLeast(base, t, i);
    RaisedIs(base, i);
    if !kraken {
      StampInSecond(Seconds(all), i);
    }
  }

  /** All rows of all files. */
  function AllRows(files: seq<File>): seq<Row> {
    if files == [] then [] else AllRows(Init(files)) + Last(files).rows
  }

  lemma {:induction false} NothingSkipped(files: seq<File>, skip: seq<bool>)
    requires |skip| == |files| && forall k :: 0 <= k < |skip| ==> !skip[k]
    ensures Gather(files, skip) == AllRows(files)
  {
    if files != [] {
      NothingSkipped(Init(files), Init(skip));
    }
  }

  /** With force every file is stamped anew: the stamps increase strictly over all rows of all files. */
  lemma {:induction false} ForcedStreamIncreases(files: seq<File>, kraken: bool)
    ensures var rows := AllRows(Processed(files, kraken, true));
            && |rows| == |AllRows(files)|
            && (forall i :: 0 <= i < |rows| ==> rows[i].collected.Some?)
            && (forall i, j :: 0 <= i < j < |rows| ==> rows[i].collected.value < rows[j].collected.value)
  {
    var skip := SkipFlags(files, true);
    NothingSkipped(files, skip);
    NothingSkipped(Processed(files, kraken, true), skip);
    ProcessedStreamIncreases(files, kraken, true);
  }

  /** Without force a file whose first tick has a collection time stays as it is, and every tick of any other file gets
      one. */
  lemma {:induction false} ProcessedExactly(files: seq<File>, kraken: bool, k: nat)
    requires k < |files|
    ensures var f, g := files[k], Processed(files, kraken, false)[k];
            && |g.rows| == |f.rows|
            && (f.rows != [] && f.rows[0].collected != None ==> g == f)
            && (f.rows == [] || f.rows[0].collected == None ==>
                  forall i :: 0 <= i < |g.rows| ==> g.rows[i].collected != None)
  {
    var skip := SkipFlags(files, false);
    var all := Gather(files, skip);
    var stamped := WithStamps(all, StreamStamps(all, kraken));
    ScatterAt(files, skip, stamped, k);
    ScatteredStamps(files, skip, stamped, k);
  }

  /** Before stamping the legacy field goes: from every row of a file whose first row has it, and from no other file. */
  lemma {:induction false} CleanedExactly(files: seq<File>, k: nat)
    requires k < |files|
    ensures var f, g := files[k], CleanAll(files)[k];
            && |g.rows| == |f.rows|
            && (forall i :: 0 <= i < |g.rows| ==> g.rows[i] == f.rows[i].(serverTime := g.rows[i].serverTime))
            && (forall i :: 0 <= i < |g.rows| ==>
                 (g.rows[i].serverTime <==> f.rows[i].serverTime && !f.rows[0].serverTime))
  {
  }

  // ---- the legacy field, dry runs and second runs --------------------------------------------------

  function WithoutServerTime(rows: seq<Row>): (r: seq<Row>)
    ensures |r| == |rows| && forall i :: 0 <= i < |rows| ==> r[i] == rows[i].(serverTime := false)
  {
    seq(|rows|, i requires 0 <= i < |rows| => rows[i].(serverTime := false))
  }

  /** The legacy field is dropped from a whole file when its first tick has it. */
  function Cleaned(f: File): File {
    if f.rows != [] && f.rows[0].serverTime then File(WithoutServerTime(f.rows)) else f
  }

  function CleanAll(files: seq<File>): (r: seq<File>)
    ensures |r| == |files| && forall k :: 0 <= k < |files| ==> r[k] == Cleaned(files[k])
  {
    seq(|files|, k requires 0 <= k < |files| => Cleaned(files[k]))
  }

  /** Dropping the field decides nothing about which files are stamped. */
  lemma CleaningKeepsSkips(files: seq<File>, force: bool)
    ensures SkipFlags(CleanAll(files), force) == SkipFlags(files, force)
  {
  }

  predicate Settled(f: File) {
    f.rows == [] || Skipped(f, false)
  }

  lemma {:induction false} NothingGathered(files: seq<File>, skip: seq<bool>)
    requires |skip| == |files| && forall k :: 0 <= k < |files| ==> skip[k] || files[k].rows == []
    ensures Gather(files, skip) == []
  {
    if files != [] {
      NothingGathered(Init(files), Init(skip));
    }
  }

  lemma {:induction false} ScatterNothing(files: seq<File>, skip: seq<bool>, all: seq<Row>)
    requires |skip| == |files| && all == [] && |Gather(files, skip)| == 0
    requires forall k :: 0 <= k < |files| ==> skip[k] || files[k].rows == []
    ensures Scatter(files, skip, all) == files
  {
    if files != [] {
      NothingGathered(Init(files), Init(skip));
      ScatterNothing(Init(files), Init(skip), all);
      assert all[..0] == all && all[0..] == [];
    }
  }

  lemma {:induction false} SettledStays(files: seq<File>, kraken: bool)
    requires forall k :: 0 <= k < |files| ==> Settled(files[k])
    ensures Processed(files, kraken, false) == files
  {
    var skip := SkipFlags(files, false);
    NothingGathered(files, skip);
    var all := Gather(files, skip);
    ScatterNothing(files, skip, WithStamps(all, StreamStamps(all, kraken)));
  }

  predicate AllStamped(rows: seq<Row>) {
    forall i :: 0 <= i < |rows| ==> rows[i].collected.Some?
  }

  lemma {:induction false} ScatteredStamps(files: seq<File>, skip: seq<bool>, all: seq<Row>, k: nat)
    requires |skip| == |files| && |all| == |Gather(files, skip)| && k < |files| && AllStamped(all)
    ensures var f := Scatter(files, skip, all)[k]; if skip[k] then f == files[k] else AllStamped(f.rows)
    decreases |files|
  {
    var n := |Gather(Init(files), Init(skip))|;
    if k < |files| - 1 {
      ScatteredStamps(Init(files), Init(skip), all[..n], k);
      assert Scatter(files, skip, all)[k] == Scatter(Init(files), Init(skip), all[..n])[k];
      assert Init(skip)[k] == skip[k] && Init(files)[k] == files[k];
    } else if !skip[k] {
      assert Scatter(files, skip, all)[k] == File(all[n..]);
    }
  }

  lemma {:induction false} StampedIsSettled(files: seq<File>, skip: seq<bool>, all: seq<Row>, k: nat)
    requires skip == SkipFlags(files, false) && |all| == |Gather(files, skip)| && k < |files| && AllStamped(all)
    ensures Settled(Scatter(files, skip, all)[k])
  {
    ScatteredStamps(files, skip, all, k);
    var f := Scatter(files, skip, all)[k];
    if !skip[k] && f.rows != [] {
      assert f.rows[0].collected.Some?;
    }
  }

  /** Without force, a second run over the files of the first changes nothing: every file with ticks is stamped now. */
  lemma {:induction false} SecondRunChangesNothing(files: seq<File>, kraken: bool)
    ensures var once := Processed(files, kraken, false); Processed(once, kraken, false) == once
  {
    var skip := SkipFlags(files, false);
    var all := Gather(files, skip);
    var stamped := WithStamps(all, StreamStamps(all, kraken));
    var once := Scatter(files, skip, stamped);
    assert AllStamped(stamped);
    forall k | 0 <= k < |once| ensures Settled(once[k]) {
      StampedIsSettled(files, skip, stamped, k);
    }
    assert once == Processed(files, kraken, false);
    SettledStays(once, kraken);
  }

  // ---- the loops --------------------------------------------------------------------------------

  lemma {:induction false} GatherStep(files: seq<File>, force: bool, k: nat)
    requires k < |files|
    ensures var p, n := files[..k], files[..k + 1];
            var a, b := SkipFlags(p, force), SkipFlags(n, force);
            && Gather(n, b) == (if Skipped(files[k], force) then Gather(p, a) else Gather(p, a) + files[k].rows)
            && Origins(n, b)
               == if Skipped(files[k], force) then Origins(p, a) else Origins(p, a) + seq(|files[k].rows|, _ => k)
  {
    var p, n := files[..k], files[..k + 1];
    assert Init(n) == p && Last(n) == files[k];
    assert Init(SkipFlags(n, force)) == SkipFlags(p, force);
    assert Last(SkipFlags(n, force)) == Skipped(files[k], force);
    assert seq(|files[k].rows|, i => k) == seq(|files[k].rows|, _ => k);
  }

  /** Gather the rows of the files that are not skipped, each with its file of origin. */
  method GatherRows(files: seq<File>, force: bool) returns (all: seq<Row>, origins: seq<nat>)
    ensures all == Gather(files, SkipFlags(files, force)) && origins == Origins(files, SkipFlags(files, force))
  {
    all, origins := [], [];
    for k := 0 to |files|
      invariant all == Gather(files[..k], SkipFlags(files[..k], force))
      invariant origins == Origins(files[..k], SkipFlags(files[..k], force))
    {
      GatherStep(files, force, k);
      if !Skipped(files[k], force) {
        all := all + files[k].rows;
        origins := origins + seq(|files[k].rows|, _ => k);
      }
    }
    assert files[..|files|] == files;
  }

  /** Collect the rows per file of origin. */
  method CollectByOrigin(all: seq<Row>, origins: seq<nat>) returns (perFile: map<nat, seq<Row>>)
    requires |origins| == |all|
    ensures forall k :: (if k in perFile then perFile[k] else []) == Select(all, origins, k)
    ensures forall k :: k in perFile ==> perFile[k] != []
  {
    perFile := map[];
    for i := 0 to |all|
      invariant forall k :: (if k in perFile then perFile[k] else []) == Select(all[..i], origins[..i], k)
      invariant forall k :: k in perFile ==> perFile[k] != []
    {
      assert Init(all[..i + 1]) == all[..i] && Init(origins[..i + 1]) == origins[..i];
      var k := origins[i];
      if k !in perFile {
        perFile := perFile[k := []];
      }
      perFile := perFile[k := perFile[k] + [all[i]]];
    }
    assert all[..|all|] == all && origins[..|origins|] == origins;
  }

  /** A file with selected rows gets them; one without keeps its own, and both are its share of the scatter. */
  lemma {:induction false} ShareOrOwn(files: seq<File>, skip: seq<bool>, all: seq<Row>, k: nat)
    requires |skip| == |files| && |all| == |Gather(files, skip)| && k < |files|
    ensures var rows := Select(all, Origins(files, skip), k);
            Scatter(files, skip, all)[k] == if rows != [] then File(rows) else files[k]
  {
    SelectIsShare(files, skip, all, k);
    ScatterAt(files, skip, all, k);
  }

  method WriteBack(files: seq<File>, perFile: map<nat, seq<Row>>, ghost skip: seq<bool>, ghost stamped: seq<Row>)
    returns (out: seq<File>)
    requires |skip| == |files| && |stamped| == |Gather(files, skip)|
    requires forall k :: (if k in perFile then perFile[k] else []) == Select(stamped, Origins(files, skip), k)
    requires forall k :: k in perFile ==> perFile[k] != []
    ensures out == Scatter(files, skip, stamped)
  {
    out := [];
    ghost var shares := Scatter(files, skip, stamped);
    for k := 0 to |files|
      invariant |out| == k && forall j :: 0 <= j < k ==> out[j] == shares[j]
    {
      ShareOrOwn(files, skip, stamped, k);
      assert shares[k] == if k in perFile then File(perFile[k]) else files[k];
      out := out + [if k in perFile then File(perFile[k]) else files[k]];
    }
  }

  /** Stamp the files that are not skipped. */
  method StampFiles(files: seq<File>, kraken: bool, force: bool) returns (out: seq<File>, corrections: nat)
    ensures out == Processed(files, kraken, force)
    ensures var all := Gather(files, SkipFlags(files, force));
            var synthesized := if kraken then KrakenStamps(all) else Mt5Stamps(Seconds(all));
            corrections == Changed(synthesized, Raised(synthesized))
  {
    var all, origins := GatherRows(files, force);
    var stamps := new int[|all|];
    if kraken {
      SynthesizeKraken(all, stamps);
    } else {
      SynthesizeMt5(Seconds(all), stamps);
    }
    corrections := EnsureGlobalMonotonicity(stamps);
    var stamped := WithStamps(all, stamps[..]);
    var perFile := CollectByOrigin(stamped, origins);
    out := WriteBack(files, perFile, SkipFlags(files, force), stamped);
  }

  method CleanFiles(files: seq<File>) returns (out: seq<File>)
    ensures out == CleanAll(files)
  {
    out := [];
    for k := 0 to |files|
      invariant |out| == k && forall j :: 0 <= j < k ==> out[j] == Cleaned(files[j])
    {
      var f := files[k];
      if f.rows != [] && f.rows[0].serverTime {
        f := File(WithoutServerTime(f.rows));
      }
      out := out + [f];
    }
  }

  /** `process_symbol_files`: a dry run reports the corrections and leaves the files; otherwise the legacy field goes
      from every file that has it, and the files that are not skipped are stamped together. */
  method ProcessSymbolFiles(files: seq<File>, kraken: bool, force: bool, dryRun: bool)
    returns (out: seq<File>, corrections: nat)
    ensures out == if dryRun then files else Processed(CleanAll(files), kraken, force)
    ensures var all := Gather(CleanAll(files), SkipFlags(files, force));
            var synthesized := if kraken then KrakenStamps(all) else Mt5Stamps(Seconds(all));
            corrections == Changed(synthesized, Raised(synthesized))
  {
    CleaningKeepsSkips(files, force);
    var cleaned := CleanFiles(files);
    out, corrections := StampFiles(cleaned, kraken, force);
    if dryRun {
      out := files;
    }
  }
}
