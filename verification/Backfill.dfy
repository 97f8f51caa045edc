/** The V1 backfill of collection times: interpolate inside each second (MT5) or count fills (Kraken), then force the
    whole stream of a symbol to increase strictly. Times are milliseconds, the ticks' own timestamps seconds. */
module Backfill {
  import opened Prelude
  import opened Division

  predicate StrictlyIncreasing(s: seq<int>) {
    forall i, j :: 0 <= i < j < |s| ==> s[i] < s[j]
  }

  // ---- forcing monotonicity ---------------------------------------------------------------------

  function Raised(s: seq<int>): (r: seq<int>)
    ensures |r| == |s|
  {
    if |s| <= 1 then s
    else
      var r := Raised(Init(s));
      r + [if Last(s) <= Last(r) then Last(r) + 1 else Last(s)]
  }

  /** The number of positions at which two series differ. */
  function Changed(s: seq<int>, t: seq<int>): nat
    requires |s| == |t|
  {
    if s == [] then 0 else Changed(Init(s), Init(t)) + (if Last(s) != Last(t) then 1 else 0)
  }

  /** The raised series increases strictly. */
  lemma {:induction false} RaisedIncreases(s: seq<int>)
    ensures StrictlyIncreasing(Raised(s))
  {
    if |s| > 1 {
      RaisedIncreases(Init(s));
      var r := Raised(s);
      assert forall i :: 0 <= i < |s| - 1 ==> r[i] == Raised(Init(s))[i];
    }
  }

  lemma {:induction false} RaisedPrefix(s: seq<int>, i: nat)
    requires i < |s|
    ensures Raised(s)[i] == Last(Raised(s[..i + 1]))
  {
    if i == |s| - 1 {
      assert s[..i + 1] == s;
    } else {
      assert Init(s)[..i + 1] == s[..i + 1];
      RaisedPrefix(Init(s), i);
    }
  }

  /** Closed form: the last raised value is the largest of `s[j]` plus its distance from the end. */
  lemma {:induction false} RaisedLast(s: seq<int>) returns (k: nat)
    requires s != []
    ensures k < |s| && Last(Raised(s)) == s[k] + (|s| - 1 - k)
    ensures forall j :: 0 <= j < |s| ==> Last(Raised(s)) >= s[j] + (|s| - 1 - j)
  {
    k := 0;
    if |s| > 1 {
      var m := RaisedLast(Init(s));
      k := if Last(s) <= Last(Raised(Init(s))) then m else |s| - 1;
    }
  }

  /** At `i` the raised value is the largest of `s[j] + (i - j)` over `j <= i`. */
  lemma {:induction false} RaisedIs(s: seq<int>, i: nat)
    requires i < |s|
    ensures forall j :: 0 <= j <= i ==> Raised(s)[i] >= s[j] + (i - j)
    ensures exists j :: 0 <= j <= i && Raised(s)[i] == s[j] + (i - j)
  {
    RaisedPrefix(s, i);
    var p := s[..i + 1];
    var k := RaisedLast(p);
    assert Raised(s)[i] == s[k] + (i - k);
    forall j | 0 <= j <= i ensures Raised(s)[i] >= s[j] + (i - j) {
      assert p[j] == s[j];
    }
  }

  /** It is the least strictly increasing series at or above the input. */
  lemma {:induction false} RaisedIsLeast(s: seq<int>, t: seq<int>, i: nat)
    requires |t| == |s| && StrictlyIncreasing(t) && forall j :: 0 <= j < |s| ==> t[j] >= s[j]
    requires i < |s|
    ensures Raised(s)[i] <= t[i]
  {
    RaisedIs(s, i);
    var j :| 0 <= j <= i && Raised(s)[i] == s[j] + (i - j);
    StepsAddUp(t, j, i);
  }

  lemma {:induction false} StepsAddUp(t: seq<int>, j: nat, i: nat)
    requires StrictlyIncreasing(t) && j <= i < |t|
    ensures t[i] >= t[j] + (i - j)
  {
    if j < i {
      StepsAddUp(t, j, i - 1);
    }
  }

  lemma {:induction false} ChangedNone(s: seq<int>, t: seq<int>)
    requires |s| == |t|
    ensures Changed(s, t) == 0 <==> s == t
  {
    if s != [] {
      ChangedNone(Init(s), Init(t));
      assert s == Init(s) + [Last(s)] && t == Init(t) + [Last(t)];
    }
  }

  function Differing(s: seq<int>, t: seq<int>): set<nat>
    requires |s| == |t|
  {
    set i: nat | i < |s| && s[i] != t[i]
  }

  lemma {:induction false} DifferingLast(s: seq<int>, t: seq<int>)
    requires |s| == |t| > 0
    ensures var before, n := Differing(Init(s), Init(t)), |s| - 1;
            n !in before && Differing(s, t) == if Last(s) != Last(t) then before + {n} else before
  {
    forall i: nat
      ensures i in Differing(s, t) <==> i in Differing(Init(s), Init(t)) || (i == |s| - 1 && Last(s) != Last(t))
    {
    }
  }

  /** The count of a pass is the number of positions it changed. */
  lemma {:induction false} ChangedExactly(s: seq<int>, t: seq<int>)
    requires |s| == |t|
    ensures Changed(s, t) == |Differing(s, t)|
  {
    if s == [] {
      assert Differing(s, t) == {};
    } else {
      ChangedExactly(Init(s), Init(t));
      DifferingLast(s, t);
    }
  }

  /** Nothing is corrected exactly when the series increases strictly already; so a second pass corrects nothing. */
  lemma {:induction false} NoCorrectionExactly(s: seq<int>)
    ensures Changed(s, Raised(s)) == 0 <==> StrictlyIncreasing(s)
    ensures Raised(Raised(s)) == Raised(s) && Changed(Raised(s), Raised(Raised(s))) == 0
  {
    RaisedIncreases(s);
    RaisedFixed(Raised(s));
    ChangedNone(s, Raised(s));
    ChangedNone(Raised(s), Raised(Raised(s)));
    if StrictlyIncreasing(s) {
      RaisedFixed(s);
    }
  }

  lemma {:induction false} RaisedFixed(s: seq<int>)
    requires StrictlyIncreasing(s)
    ensures Raised(s) == s
  {
    if |s| > 1 {
      RaisedFixed(Init(s));
      assert s == Init(s) + [Last(s)];
    }
  }

  /** `_ensure_global_monotonicity`, in place. */
  method EnsureGlobalMonotonicity(a: array<int>) returns (corrections: nat)
    modifies a
    ensures a[..] == Raised(old(a[..]))
    ensures corrections == Changed(old(a[..]), a[..])
  {
    corrections := 0;
    ghost var s := a[..];
    if a.Length == 0 {
      return;
    }
    assert a[..1] == s[..1] && Init(s[..1]) == [];
    for i := 1 to a.Length
      invariant a[..i] == Raised(s[..i])
      invariant a[i..] == s[i..]
      invariant corrections == Changed(s[..i], a[..i])
    {
      assert a[i] == a[i..][0] == s[i];
      assert Init(s[..i + 1]) == s[..i] && Last(a[..i]) == a[i - 1];
      if a[i] <= a[i - 1] {
        a[i] := a[i - 1] + 1;
        corrections := corrections + 1;
      }
      assert a[..i + 1] == a[..i] + [a[i]];
      assert Init(a[..i + 1]) == a[..i];
      assert a[i + 1..] == s[i + 1..];
    }
    assert a[..a.Length] == a[..] && s[..a.Length] == s;
  }

  // ---- interpolation inside a second ------------------------------------------------------------

  /** The first position of the run of equal seconds around `i`, and one past its last. */
  function RunStart(x: seq<int>, i: nat): (j: nat)
    requires i < |x|
    ensures j <= i && (j > 0 ==> x[j - 1] != x[i])
    ensures forall k :: j <= k <= i ==> x[k] == x[i]
  {
    if i == 0 || x[i - 1] != x[i] then i else RunStart(x, i - 1)
  }

  function RunEnd(x: seq<int>, i: nat): (j: nat)
    requires i < |x|
    ensures i < j <= |x| && (j < |x| ==> x[j] != x[i])
    ensures forall k :: i <= k < j ==> x[k] == x[i]
    decreases |x| - i
  {
    if i + 1 == |x| || x[i + 1] != x[i] then i + 1 else RunEnd(x, i + 1)
  }

  /** Tick `k` of `size` ticks spread evenly over 0..999 ms. */
  function Offset(k: nat, size: nat): (o: int)
    requires k < size
  {
    if size == 1 then 0 else k * 999 / (size - 1)
  }

  function Mt5Stamp(x: seq<int>, i: nat): int
    requires i < |x|
  {
    x[i] * 1000 + Offset(i - RunStart(x, i), RunEnd(x, i) - RunStart(x, i))
  }

  function Mt5Stamps(x: seq<int>): (r: seq<int>)
    ensures |r| == |x|
  {
    seq(|x|, i requires 0 <= i < |x| => Mt5Stamp(x, i))
  }

  lemma OffsetRange(k: nat, size: nat)
    requires k < size
    ensures 0 <= Offset(k, size) <= 999
  {
    if size > 1 {
      var n := size - 1;
      DivBounds(k * 999, n);
      MulMonotone(k, n, 999);
      MulCancel(k * 999 / n, 999, n);
      MulCancel(0, k * 999 / n, n);
    }
  }

  lemma OffsetGrows(k: nat, size: nat)
    requires k + 1 < size <= 1000
    ensures Offset(k, size) < Offset(k + 1, size)
  {
    var n, q := size - 1, k * 999 / (size - 1);
    DivBounds(k * 999, n);
    DivBounds((k + 1) * 999, n);
    assert (q + 1) * n == q * n + n;
    MulCancel(q + 1, (k + 1) * 999 / n, n);
  }

  /** Every stamp lies in its tick's own second. */
  lemma StampInSecond(x: seq<int>, i: nat)
    requires i < |x|
    ensures x[i] * 1000 <= Mt5Stamps(x)[i] <= x[i] * 1000 + 999
  {
    OffsetRange(i - RunStart(x, i), RunEnd(x, i) - RunStart(x, i));
  }

  /** The positions `a` to `b` are a whole run of one second. */
  predicate IsRun(x: seq<int>, a: nat, b: nat) {
    && a < b <= |x| && (forall i :: a <= i < b ==> x[i] == x[a])
    && (a > 0 ==> x[a - 1] != x[a]) && (b < |x| ==> x[b] != x[a])
  }

  /** The `k`-th of `steps` even steps over 999 ms, in whole milliseconds. */
  predicate Share(ms: int, k: nat, steps: int) {
    && (k == 0 ==> ms == 0)
    && (steps > 0 && k == steps ==> ms == 999)
    && (steps > 0 ==> ms * steps <= 999 * k < (ms + 1) * steps)
  }

  /** The ticks of a run share its second evenly: a single one stands at its start, and of more the first stands at the
      start, the last at 999 ms, and each at its share of the way in whole milliseconds. */
  lemma {:induction false} RunIsSpread(x: seq<int>, a: nat, b: nat, i: nat)
    requires IsRun(x, a, b) && a <= i < b
    ensures var ms, steps := Mt5Stamps(x)[i] - 1000 * x[a], b - a - 1;
            Share(ms, i - a, steps)
  {
    RunBounds(x, a, b, i);
    assert x[i] == x[a];
    OffsetIsShare(i - a, b - a);
  }

  lemma OffsetIsShare(k: nat, size: nat)
    requires k < size
    ensures Share(Offset(k, size), k, size - 1)
  {
    if size > 1 {
      ShareOfFloor(k, size - 1, k * 999 / (size - 1));
    }
  }

  lemma ShareOfFloor(k: nat, n: nat, q: int)
    requires k <= n && n > 0 && q == k * 999 / n
    ensures Share(q, k, n)
  {
    DivBounds(k * 999, n);
    NextStep(q, n);
    if k == n {
      DivUnique(k * 999, n, 999);
    }
  }

  lemma NextStep(q: int, n: int)
    ensures (q + 1) * n == q * n + n
  {
  }

  /** Seconds never run backwards, and no run is longer than 1000 ticks. */
  predicate Spreadable(x: seq<int>) {
    && (forall i :: 0 < i < |x| ==> x[i - 1] <= x[i])
    && (forall i :: 0 <= i < |x| ==> RunEnd(x, i) - RunStart(x, i) <= 1000)
  }

  lemma StampGrows(x: seq<int>, i: nat)
    requires i + 1 < |x| && x[i] <= x[i + 1] && RunEnd(x, i) - RunStart(x, i) <= 1000
    ensures Mt5Stamps(x)[i] < Mt5Stamps(x)[i + 1]
  {
    if x[i] == x[i + 1] {
      OffsetGrows(i - RunStart(x, i), RunEnd(x, i) - RunStart(x, i));
    } else {
      StampInSecond(x, i);
      StampInSecond(x, i + 1);
    }
  }

  lemma {:induction false} StepwiseIncreasing(s: seq<int>, n: nat)
    requires n <= |s| && forall i :: 0 < i < |s| ==> s[i - 1] < s[i]
    ensures StrictlyIncreasing(s[..n])
  {
    if n > 0 {
      StepwiseIncreasing(s, n - 1);
      if n > 1 {
        assert s[n - 1 - 1] < s[n - 1];
        assert s[..n - 1] == s[..n][..n - 1];
        forall i, j | 0 <= i < j < n ensures s[..n][i] < s[..n][j] {
          if j < n - 1 {
            assert s[..n - 1][i] < s[..n - 1][j];
          } else if i < n - 2 {
            assert s[..n - 1][i] < s[..n - 1][n - 2];
          }
        }
      }
    }
  }

  lemma {:induction false} SpreadableIncreases(x: seq<int>)
    requires Spreadable(x)
    ensures StrictlyIncreasing(Mt5Stamps(x))
  {
    var r := Mt5Stamps(x);
    forall i | 0 < i < |r| ensures r[i - 1] < r[i] {
      StampGrows(x, i - 1);
    }
    StepwiseIncreasing(r, |r|);
    assert r[..|r|] == r;
  }

  lemma {:induction false} IncreasingIsSpreadable(x: seq<int>)
    requires StrictlyIncreasing(Mt5Stamps(x))
    ensures Spreadable(x)
  {
    forall i | 0 < i < |x| ensures x[i - 1] <= x[i] {
      StampInSecond(x, i - 1);
      StampInSecond(x, i);
    }
    forall i | 0 <= i < |x| ensures RunEnd(x, i) - RunStart(x, i) <= 1000 {
      var lo, hi := RunStart(x, i), RunEnd(x, i);
      StampInSecond(x, lo);
      StampInSecond(x, hi - 1);
      StepsAddUp(Mt5Stamps(x), lo, hi - 1);
    }
  }

  /** The interpolated stamps increase strictly, and the monotonicity pass corrects nothing, exactly when seconds never
      run backwards and no second holds more than 1000 ticks in a row. */
  lemma {:induction false} InterpolationSufficesExactly(x: seq<int>)
    ensures StrictlyIncreasing(Mt5Stamps(x)) <==> Spreadable(x)
    ensures Changed(Mt5Stamps(x), Raised(Mt5Stamps(x))) == 0 <==> Spreadable(x)
  {
    NoCorrectionExactly(Mt5Stamps(x));
    if Spreadable(x) {
      SpreadableIncreases(x);
    }
    if StrictlyIncreasing(Mt5Stamps(x)) {
      IncreasingIsSpreadable(x);
    }
  }

  lemma {:induction false} RunBounds(x: seq<int>, i: nat, j: nat, k: nat)
    requires i <= k < j <= |x|
    requires (i > 0 ==> x[i - 1] != x[i]) && (j < |x| ==> x[j] != x[i]) && forall m :: i <= m < j ==> x[m] == x[i]
    ensures RunStart(x, k) == i && RunEnd(x, k) == j
  {
  }

  /** `_synthesize_mt5`, in place: `stamps[i]` is the `collected_msc` of tick `i`. */
  method SynthesizeMt5(x: seq<int>, stamps: array<int>)
    requires stamps.Length == |x|
    modifies stamps
    ensures stamps[..] == Mt5Stamps(x)
  {
    var i := 0;
    while i < |x|
      invariant i <= |x| && (0 < i < |x| ==> x[i - 1] != x[i])
      invariant forall k :: 0 <= k < i ==> stamps[k] == Mt5Stamp(x, k)
    {
      var j := i + 1;
      while j < |x| && x[j] == x[i]
        invariant i < j <= |x| && forall m :: i <= m < j ==> x[m] == x[i]
      {
        j := j + 1;
      }
      var size := j - i;
      for k := 0 to size
        invariant forall m :: 0 <= m < i + k ==> stamps[m] == Mt5Stamp(x, m)
      {
        RunBounds(x, i, j, i + k);
        stamps[i + k] := x[i] * 1000 + (if size == 1 then 0 else k * 999 / (size - 1));
      }
      i := j;
    }
  }
}
