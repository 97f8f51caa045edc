/** From the window to the answer. The reader cuts the archive's series by collection time; the provider orders and
    opens what is left by the producer's stamps. When does a moment of the window still get the archive's answer? */
module SignalLookup {
  import opened Prelude
  import opened Bisection
  import StreamIdentity
  import opened SignalSelection
  import opened SignalReader
  import opened SignalProvider

  // ---- a part of a series -------------------------------------------------------------------------

  predicate Within(r: Row, first: int, last: int) {
    first <= r.collected <= last
  }

  /** The rows collected between two moments, in the order of the series. */
  function Kept(s: seq<Row>, first: int, last: int): seq<Row> {
    if s == [] then []
    else if Within(Last(s), first, last) then Kept(Init(s), first, last) + [Last(s)]
    else Kept(Init(s), first, last)
  }

  /** The first position from `n` on whose row is kept, or the length. */
  function NextKept(s: seq<Row>, n: nat, first: int, last: int): (j: nat)
    requires n <= |s|
    ensures n <= j <= |s| && (j < |s| ==> Within(s[j], first, last))
    ensures forall i :: n <= i < j ==> !Within(s[i], first, last)
    decreases |s| - n
  {
    if n == |s| || Within(s[n], first, last) then n else NextKept(s, n + 1, first, last)
  }

  lemma {:induction false} KeptFrom(s: seq<Row>, first: int, last: int, i: nat) returns (j: nat)
    requires i < |Kept(s, first, last)|
    ensures i <= j < |s| && s[j] == Kept(s, first, last)[i] && Within(s[j], first, last)
  {
    if Within(Last(s), first, last) && i == |Kept(Init(s), first, last)| {
      j := |s| - 1;
      KeptIsShorter(Init(s), first, last);
    } else {
      j := KeptFrom(Init(s), first, last, i);
    }
  }

  lemma {:induction false} KeptIsShorter(s: seq<Row>, first: int, last: int)
    ensures |Kept(s, first, last)| <= |s|
  {
    if s != [] {
      KeptIsShorter(Init(s), first, last);
    }
  }

  lemma {:induction false} KeptConcat(a: seq<Row>, b: seq<Row>, first: int, last: int)
    ensures Kept(a + b, first, last) == Kept(a, first, last) + Kept(b, first, last)
  {
    if b == [] {
      assert a + b == a && Kept(a, first, last) + [] == Kept(a, first, last);
    } else {
      KeptConcat(a, Init(b), first, last);
      assert Init(a + b) == a + Init(b) && Last(a + b) == Last(b);
    }
  }

  lemma {:induction false} NoneKept(s: seq<Row>, first: int, last: int)
    requires forall i :: 0 <= i < |s| ==> !Within(s[i], first, last)
    ensures Kept(s, first, last) == []
  {
    if s != [] {
      NoneKept(Init(s), first, last);
    }
  }

  lemma {:induction false} AllStay(s: seq<Row>, first: int, last: int)
    requires forall i :: 0 <= i < |s| ==> Within(s[i], first, last)
    ensures |Kept(s, first, last)| == |s| && forall i :: 0 <= i < |s| ==> Kept(s, first, last)[i] == s[i]
  {
    if s != [] {
      AllStay(Init(s), first, last);
    }
  }

  lemma AllKept(s: seq<Row>, first: int, last: int)
    requires forall i :: 0 <= i < |s| ==> Within(s[i], first, last)
    ensures Kept(s, first, last) == s
  {
    AllStay(s, first, last);
  }

  // ---- sorting a part is taking the part of what was sorted ---------------------------------------

  lemma {:induction false} PlaceBehind(s: seq<Row>, r: Row)
    requires s == [] || !Before(r, Last(s))
    ensures Place(s, r) == s + [r]
  {
  }

  lemma {:induction false} KeptLastIsNotAfter(s: seq<Row>, r: Row, first: int, last: int)
    requires InOrder(s) && (s == [] || !Before(r, Last(s)))
    ensures Kept(s, first, last) == [] || !Before(r, Last(Kept(s, first, last)))
  {
    var k := Kept(s, first, last);
    if k != [] {
      var j := KeptFrom(s, first, last, |k| - 1);
      assert j < |s| - 1 ==> !Before(Last(s), s[j]);
    }
  }

  lemma {:induction false} KeptPlace(s: seq<Row>, r: Row, first: int, last: int)
    requires InOrder(s)
    ensures var k := Kept(s, first, last);
            Kept(Place(s, r), first, last) == if Within(r, first, last) then Place(k, r) else k
  {
    if s == [] || !Before(r, Last(s)) {
      KeptLastIsNotAfter(s, r, first, last);
      PlaceBehind(Kept(s, first, last), r);
      assert Init(s + [r]) == s;
    } else {
      var p, l := Init(s), Last(s);
      KeptPlace(p, r, first, last);
      var q := Place(p, r);
      assert Init(q + [l]) == q;
      if Within(l, first, last) && Within(r, first, last) {
        var k := Kept(p, first, last);
        assert Init(k + [l]) == k && Last(k + [l]) == l;
      }
    }
  }

  lemma {:induction false} KeptOrdered(s: seq<Row>, first: int, last: int)
    ensures Kept(Ordered(s), first, last) == Ordered(Kept(s, first, last))
  {
    if s != [] {
      var p, r := Init(s), Last(s);
      KeptOrdered(p, first, last);
      OrderedInOrder(p);
      KeptPlace(Ordered(p), r, first, last);
      if Within(r, first, last) {
        assert Init(Kept(p, first, last) + [r]) == Kept(p, first, last);
      }
    }
  }

  // ---- one moment ---------------------------------------------------------------------------------

  /** The row whose gate opened last is part of what was kept, and the next kept row opens later than the moment. */
  predicate PartAnswers(s: seq<Row>, first: int, last: int, t: int) {
    var n := Open(s, t);
    var j := NextKept(s, n, first, last);
    && (n > 0 ==> Within(s[n - 1], first, last))
    && (j < |s| ==> Key(s[j]) > t)
  }

  lemma {:induction false} NextKeptIsFirst(s: seq<Row>, n: nat, first: int, last: int)
    requires n <= |s|
    ensures var j, b := NextKept(s, n, first, last), Kept(s[n..], first, last);
            if j == |s| then b == [] else b != [] && b[0] == s[j]
  {
    var j := NextKept(s, n, first, last);
    NoneKept(s[n..j], first, last);
    assert s[n..] == s[n..j] + s[j..];
    KeptConcat(s[n..j], s[j..], first, last);
    if j < |s| {
      assert s[j..] == [s[j]] + s[j + 1..];
      KeptConcat([s[j]], s[j + 1..], first, last);
      AllKept([s[j]], first, last);
    }
  }

  lemma {:induction false} LastKept(s: seq<Row>, first: int, last: int)
    requires s != []
    ensures Within(Last(s), first, last) ==> Kept(s, first, last) != [] && Last(Kept(s, first, last)) == Last(s)
    ensures !Within(Last(s), first, last) && Kept(s, first, last) != [] ==> Last(Kept(s, first, last)) != Last(s)
  {
    var k := Kept(s, first, last);
    if k != [] {
      var j := KeptFrom(s, first, last, |k| - 1);
    }
  }

  /** The kept rows up to the last open gate are open as well. */
  lemma {:induction false} FrontIsOpen(s: seq<Row>, first: int, last: int, t: int)
    ensures var a := Kept(s[..Open(s, t)], first, last); UpTo(a, |a|, t)
  {
    var n := Open(s, t);
    OpenIs(s, t, n);
    var a := Kept(s[..n], first, last);
    forall i | 0 <= i < |a| ensures Key(a[i]) <= t {
      var j := KeptFrom(s[..n], first, last, i);
      assert s[..n][j] == s[j];
    }
  }

  /** If the next kept row opens later, the part answers with its last row up to the archive's. */
  lemma {:induction false} AnswerInFront(a: seq<Row>, b: seq<Row>, t: int)
    requires UpTo(a, |a|, t)
    requires b == [] || Key(b[0]) > t
    ensures Answer(a + b, t) == if a == [] then None else Some(Last(a))
  {
    var s := a + b;
    assert UpTo(s, |a|, t) by {
      assert forall i :: 0 <= i < |a| ==> s[i] == a[i];
    }
    OpenIs(s, t, |a|);
  }

  /** If it is open already, the part answers with a row behind the archive's. */
  lemma {:induction false} AnswerBehind(a: seq<Row>, b: seq<Row>, t: int) returns (i: nat)
    requires UpTo(a, |a|, t)
    requires b != [] && Key(b[0]) <= t
    ensures i < |b| && Answer(a + b, t) == Some(b[i])
  {
    var s := a + b;
    assert UpTo(s, |a| + 1, t) by {
      assert s[|a|] == b[0] && forall i :: 0 <= i < |a| ==> s[i] == a[i];
    }
    OpenExactly(s, t, |a| + 1);
    var n := Open(s, t);
    i := n - 1 - |a|;
  }

  lemma {:induction false} AnswerInFrontIs(p: seq<Row>, b: seq<Row>, first: int, last: int, t: int)
    requires UpTo(Kept(p, first, last), |Kept(p, first, last)|, t)
    requires b == [] || Key(b[0]) > t
    ensures var whole := if p == [] then None else Some(Last(p));
            Answer(Kept(p, first, last) + b, t) == whole <==> p == [] || Within(Last(p), first, last)
  {
    AnswerInFront(Kept(p, first, last), b, t);
    if p != [] {
      LastKept(p, first, last);
    }
  }

  lemma {:induction false} AnswerBehindIsNot(s: seq<Row>, n: nat, first: int, last: int, t: int)
    requires Distinct(s) && n <= |s|
    requires UpTo(Kept(s[..n], first, last), |Kept(s[..n], first, last)|, t)
    requires Kept(s[n..], first, last) != [] && Key(Kept(s[n..], first, last)[0]) <= t
    ensures Answer(Kept(s[..n], first, last) + Kept(s[n..], first, last), t) != if n == 0 then None else Some(s[n - 1])
  {
    var i := AnswerBehind(Kept(s[..n], first, last), Kept(s[n..], first, last), t);
    var j := KeptFrom(s[n..], first, last, i);
    assert s[n..][j] == s[n + j];
  }

  /** A part of a series answers a moment like the whole series exactly when the whole one's answer is in it and nothing
      kept behind it is open. */
  lemma {:induction false} PartAnswersExactly(s: seq<Row>, first: int, last: int, t: int)
    requires Distinct(s)
    ensures Answer(Kept(s, first, last), t) == Answer(s, t) <==> PartAnswers(s, first, last, t)
  {
    var n := Open(s, t);
    var b := Kept(s[n..], first, last);
    KeptSplits(s, n, first, last);
    FrontIsOpen(s, first, last, t);
    NextKeptIsFirst(s, n, first, last);
    if b == [] || Key(b[0]) > t {
      AnswerInFrontIs(s[..n], b, first, last, t);
      assert n > 0 ==> Last(s[..n]) == s[n - 1];
    } else {
      AnswerBehindIsNot(s, n, first, last, t);
    }
  }

  lemma {:induction false} KeptSplits(s: seq<Row>, n: nat, first: int, last: int)
    requires n <= |s|
    ensures Kept(s, first, last) == Kept(s[..n], first, last) + Kept(s[n..], first, last)
  {
    assert s == s[..n] + s[n..];
    KeptConcat(s[..n], s[n..], first, last);
  }

  // ---- a slice of the archive ---------------------------------------------------------------------

  lemma {:induction false} SliceIsKept(s: seq<Row>, from: nat, to: nat)
    requires Ascending(s) && from < to <= |s|
    ensures Kept(s, s[from].collected, s[to - 1].collected) == s[from..to]
  {
    assert s == s[..from] + s[from..to] + s[to..];
    KeptMiddle(s[..from], s[from..to], s[to..], s[from].collected, s[to - 1].collected);
  }

  lemma {:induction false} KeptMiddle(a: seq<Row>, b: seq<Row>, c: seq<Row>, first: int, last: int)
    requires forall i :: 0 <= i < |a| ==> !Within(a[i], first, last)
    requires forall i :: 0 <= i < |b| ==> Within(b[i], first, last)
    requires forall i :: 0 <= i < |c| ==> !Within(c[i], first, last)
    ensures Kept(a + b + c, first, last) == b
  {
    KeptConcat(a + b, c, first, last);
    KeptConcat(a, b, first, last);
    NoneKept(a, first, last);
    NoneKept(c, first, last);
    AllKept(b, first, last);
  }

  lemma AscendingIsDistinct(s: seq<Row>)
    requires Ascending(s)
    ensures Distinct(s)
  {
  }

  function FirstStamp(s: seq<Row>): int {
    if s == [] then 1 else s[0].collected
  }

  function LastStamp(s: seq<Row>): int {
    if s == [] then 0 else Last(s).collected
  }

  /** The rows of a slice are those collected from its first stamp to its last. */
  lemma {:induction false} SliceIsPart(s: seq<Row>, from: nat, to: nat)
    requires Ascending(s) && from <= to <= |s|
    ensures Kept(s, FirstStamp(s[from..to]), LastStamp(s[from..to])) == s[from..to]
  {
    if from < to {
      SliceIsKept(s, from, to);
    } else {
      NoneKept(s, 1, 0);
    }
  }

  lemma {:induction false} SliceAnswersExactly(s: seq<Row>, from: nat, to: nat, t: int)
    requires Ascending(s) && from <= to <= |s|
    ensures Lookup(s[from..to], t) == Lookup(s, t) <==>
              PartAnswers(Ordered(s), FirstStamp(s[from..to]), LastStamp(s[from..to]), t)
  {
    var x, y := FirstStamp(s[from..to]), LastStamp(s[from..to]);
    SliceIsPart(s, from, to);
    KeptOrdered(s, x, y);
    AscendingIsDistinct(s);
    OrderedDistinct(s);
    PartAnswersExactly(Ordered(s), x, y, t);
  }

  /** End to end, for disjoint files and every moment: the selected, merged and trimmed rows give the archive's answer
      exactly when the row whose gate opened last in the archive was kept, and the next kept row opens later. */
  lemma {:induction false} ResolvedAnswersExactly(es: seq<Entry>, lo: int, hi: int, t: int)
    requires AllScanned(es) && Disjoint(es) && lo <= hi
    ensures var kept := Resolved(es, lo, hi);
            Lookup(kept, t) == Lookup(Merged(es), t) <==>
              PartAnswers(Ordered(Merged(es)), FirstStamp(kept), LastStamp(kept), t)
  {
    ResolvedIsSlice(es, lo, hi);
    TrimIsSlice(Merged(es), lo, hi);
    SliceAnswersExactly(Merged(es), TrimFrom(Merged(es), lo), TrimTo(Merged(es), hi), t);
  }

  // ---- the whole window, when the producer's order is the order of collection --------------------

  /** What the gates of the archive say about one moment. */
  predicate FitsAt(keys: seq<int>, gates: seq<int>, from: nat, to: nat, t: int)
    requires |keys| == |gates| && from <= to <= |gates| && (from == 0 || from < to)
  {
    && (to == |gates| || gates[to] > t)
    && (from == 0 || gates[from] <= t || (gates[0] > t && keys[from] > t))
  }

  /** What they say about a window: the first row cut off behind opens after it, and the first kept row is open when it
      starts; if the archive itself opens later, the first kept row opens right then. */
  predicate GatesFit(keys: seq<int>, gates: seq<int>, from: nat, to: nat, lo: int, hi: int)
    requires |keys| == |gates| && from <= to <= |gates| && (from == 0 || from < to)
  {
    && (to == |gates| || gates[to] > hi)
    && (from == 0 ||
        if gates[0] <= lo then gates[from] <= lo
        else if gates[0] <= hi then keys[from] == gates[from] == gates[0]
        else keys[from] > hi)
  }

  lemma FirstKeptGate(keys: seq<int>, from: nat)
    requires from < |keys|
    ensures GateKeys(keys)[0] <= GateKeys(keys)[from] && keys[from] <= GateKeys(keys)[from]
  {
    GatesClimb(keys);
    GateOpensExactly(keys, from, GateKeys(keys)[from]);
  }

  /** The start, the end, and the moments around the archive's first gate decide the whole window. */
  lemma FourMomentsDecide(keys: seq<int>, from: nat, to: nat, lo: int, hi: int)
    requires from <= to <= |keys| && (from == 0 || from < to) && lo <= hi
    requires FitsAt(keys, GateKeys(keys), from, to, lo) && FitsAt(keys, GateKeys(keys), from, to, hi)
    requires from > 0 && lo < GateKeys(keys)[0] <= hi ==>
               FitsAt(keys, GateKeys(keys), from, to, GateKeys(keys)[0]) &&
               FitsAt(keys, GateKeys(keys), from, to, GateKeys(keys)[0] - 1)
    ensures GatesFit(keys, GateKeys(keys), from, to, lo, hi)
  {
    if from > 0 {
      FirstKeptGate(keys, from);
    }
  }

  lemma WindowFits(keys: seq<int>, from: nat, to: nat, lo: int, hi: int)
    requires from <= to <= |keys| && (from == 0 || from < to) && lo <= hi
    ensures (forall t :: lo <= t <= hi ==> FitsAt(keys, GateKeys(keys), from, to, t)) <==>
              GatesFit(keys, GateKeys(keys), from, to, lo, hi)
  {
    if forall t :: lo <= t <= hi ==> FitsAt(keys, GateKeys(keys), from, to, t) {
      FourMomentsDecide(keys, from, to, lo, hi);
    }
    if GatesFit(keys, GateKeys(keys), from, to, lo, hi) {
      forall t | lo <= t <= hi ensures FitsAt(keys, GateKeys(keys), from, to, t) {
        FitsInside(keys, from, to, lo, hi, t);
      }
    }
  }

  lemma FitsInside(keys: seq<int>, from: nat, to: nat, lo: int, hi: int, t: int)
    requires from <= to <= |keys| && (from == 0 || from < to) && lo <= t <= hi
    requires GatesFit(keys, GateKeys(keys), from, to, lo, hi)
    ensures FitsAt(keys, GateKeys(keys), from, to, t)
  {
  }

  lemma SliceWithin(s: seq<Row>, from: nat, to: nat, i: nat)
    requires Ascending(s) && from <= to <= |s| && i < |s|
    ensures Within(s[i], FirstStamp(s[from..to]), LastStamp(s[from..to])) <==> from <= i < to
  {
  }

  lemma {:induction false} NextInSlice(s: seq<Row>, from: nat, to: nat, n: nat)
    requires Ascending(s) && from <= to <= |s| && n <= |s| && (from == 0 || from < to)
    ensures NextKept(s, n, FirstStamp(s[from..to]), LastStamp(s[from..to])) ==
              if n < from then from else if n < to then n else |s|
  {
    var x, y := FirstStamp(s[from..to]), LastStamp(s[from..to]);
    var j := NextKept(s, n, x, y);
    var k := if n < from then from else if n < to then n else |s|;
    if j < |s| {
      SliceWithin(s, from, to, j);
    }
    if k < |s| {
      SliceWithin(s, from, to, k);
    }
  }

  /** For a slice: the archive's answer is in it, or there is none and the slice's first row is not open either. */
  lemma {:induction false} SlicePartAnswers(s: seq<Row>, from: nat, to: nat, t: int)
    requires Ascending(s) && from <= to <= |s| && (from == 0 || from < to)
    ensures PartAnswers(s, FirstStamp(s[from..to]), LastStamp(s[from..to]), t) <==>
              && Open(s, t) <= to
              && (from == 0 || from < Open(s, t) || (Open(s, t) == 0 && Key(s[from]) > t))
  {
    var n := Open(s, t);
    OpenIs(s, t, n);
    NextInSlice(s, from, to, n);
    if n > 0 {
      SliceWithin(s, from, to, n - 1);
    }
  }

  /** A slice of rows in order answers a moment like the whole exactly when the gates fit at that moment. */
  lemma {:induction false} SliceFits(s: seq<Row>, from: nat, to: nat, t: int)
    requires Ascending(s) && InOrder(s) && from <= to <= |s| && (from == 0 || from < to)
    ensures Lookup(s[from..to], t) == Lookup(s, t) <==> FitsAt(Keys(s), GateKeys(Keys(s)), from, to, t)
  {
    SliceAnswersExactly(s, from, to, t);
    InOrderIsOrdered(s);
    SlicePartAnswers(s, from, to, t);
    if to < |s| {
      OpenGate(s, t, to);
    }
    if from > 0 {
      OpenGate(s, t, from);
      OpenGate(s, t, 0);
    }
  }

  predicate AnswersAlike(es: seq<Entry>, lo: int, hi: int, t: int) {
    Lookup(Resolved(es, lo, hi), t) == Lookup(Merged(es), t)
  }

  /** For disjoint files whose rows the producer numbered in the order of collection: every moment of the window gets
      the archive's answer exactly when the gates fit. */
  lemma {:induction false} WindowAnswersExactly(es: seq<Entry>, lo: int, hi: int)
    requires AllScanned(es) && Disjoint(es) && lo <= hi && InOrder(Merged(es))
    ensures var all := Merged(es);
            && Ascending(all) && TrimFrom(all, lo) <= TrimTo(all, hi)
            && (TrimFrom(all, lo) == 0 || TrimFrom(all, lo) < TrimTo(all, hi))
            && ((forall t :: lo <= t <= hi ==> AnswersAlike(es, lo, hi, t)) <==>
                GatesFit(Keys(all), GateKeys(Keys(all)), TrimFrom(all, lo), TrimTo(all, hi), lo, hi))
  {
    var all := Merged(es);
    ResolvedIsSlice(es, lo, hi);
    TrimIsSlice(all, lo, hi);
    var from, to := TrimFrom(all, lo), TrimTo(all, hi);
    forall t ensures AnswersAlike(es, lo, hi, t) <==> FitsAt(Keys(all), GateKeys(Keys(all)), from, to, t) {
      SliceFits(all, from, to, t);
    }
    WindowFits(Keys(all), from, to, lo, hi);
  }

  // ---- the archive from before the stream ---------------------------------------------------------

  /** No producer stamps and no places in a stream. */
  predicate Plain(s: seq<Row>) {
    forall i :: 0 <= i < |s| ==> s[i].available.None? && s[i].identity.None?
  }

  lemma {:induction false} PlainGates(s: seq<Row>)
    requires Plain(s) && Ascending(s)
    ensures InOrder(s) && Keys(s) == Collected(s) && GateKeys(Keys(s)) == Keys(s)
  {
    assert Keys(s) == Collected(s);
    AscendingClimbs(s);
    ClimbingGates(Keys(s));
  }

  lemma {:induction false} PlainFits(s: seq<Row>, lo: int, hi: int)
    requires Plain(s) && Ascending(s) && lo <= hi
    requires TrimFrom(s, lo) <= TrimTo(s, hi) && (TrimFrom(s, lo) == 0 || TrimFrom(s, lo) < TrimTo(s, hi))
    ensures GatesFit(Keys(s), GateKeys(Keys(s)), TrimFrom(s, lo), TrimTo(s, hi), lo, hi)
  {
    PlainGates(s);
    UpToEnd(s, hi);
    AscendingClimbs(s);
  }

  lemma {:induction false} PlainOpen(s: seq<Row>, t: int)
    requires Plain(s) && Ascending(s)
    ensures Lookup(s, t) == Answer(s, t)
    ensures forall i :: 0 <= i < |s| ==> (i < Open(s, t) <==> s[i].collected <= t)
  {
    PlainGates(s);
    InOrderIsOrdered(s);
    forall i | 0 <= i < |s| ensures i < Open(s, t) <==> s[i].collected <= t {
      OpenGate(s, t, i);
      assert Collected(s)[i] == s[i].collected;
    }
  }

  lemma {:induction false} PlainAnswer(s: seq<Row>, t: int)
    requires Plain(s) && Ascending(s)
    ensures var r := StampOf(Lookup(s, t));
            && (r.Some? ==> r.value in Collected(s) && r.value <= t)
            && forall i :: 0 <= i < |s| && s[i].collected <= t ==> r.Some? && s[i].collected <= r.value
  {
    PlainOpen(s, t);
    var n := Open(s, t);
    if n > 0 {
      StampIsSome(s, n - 1);
    }
  }

  lemma {:induction false} PlainLookup(es: seq<Entry>, t: int)
    requires AllScanned(es) && Plain(Merged(es))
    ensures StampOf(Lookup(Merged(es), t)) == Latest(es, t)
  {
    var all := Merged(es);
    MergeAscends(RowsOf(es));
    PlainAnswer(all, t);
    var near, latest := StampOf(Lookup(all, t)), Latest(es, t);
    if latest.Some? {
      MergedHolds(es, latest.value);
      var i :| 0 <= i < |all| && Collected(all)[i] == latest.value;
      assert near.Some? && latest.value <= near.value;
    }
    if near.Some? {
      MergedHolds(es, near.value);
      assert latest.Some? && near.value <= latest.value;
    }
  }

  function StampOf(r: Option<Row>): Option<int> {
    if r.None? then None else Some(r.value.collected)
  }

  lemma {:induction false} PlainTrim(s: seq<Row>, lo: int, hi: int, t: int)
    requires Plain(s) && Ascending(s) && lo <= t <= hi
    ensures Lookup(Trim(s, lo, hi), t) == Lookup(s, t)
  {
    TrimIsSlice(s, lo, hi);
    PlainFits(s, lo, hi);
    FitsInside(Keys(s), TrimFrom(s, lo), TrimTo(s, hi), lo, hi, t);
    PlainGates(s);
    SliceFits(s, TrimFrom(s, lo), TrimTo(s, hi), t);
  }

  predicate AllPlain(es: seq<Entry>) {
    forall i :: 0 <= i < |es| ==> Plain(es[i].rows)
  }

  lemma {:induction false} PlainFiles(es: seq<Entry>)
    requires AllPlain(es)
    ensures Plain(RowsOf(es))
  {
    if es != [] {
      PlainFiles(Init(es));
      assert Plain(es[|es| - 1].rows);
    }
  }

  lemma {:induction false} PlainMerged(es: seq<Entry>)
    requires AllPlain(es)
    ensures Plain(Merged(es))
  {
    PlainFiles(es);
    forall i | 0 <= i < |Merged(es)| ensures Merged(es)[i].available.None? && Merged(es)[i].identity.None? {
      var k := MergedRowWins(RowsOf(es), i);
    }
  }

  lemma {:induction false} OverlappingAre(es: seq<Entry>, lo: int, hi: int)
    requires AllScanned(es) && AllPlain(es)
    ensures AllScanned(Overlapping(es, lo, hi)) && AllPlain(Overlapping(es, lo, hi))
  {
    if es != [] {
      OverlappingAre(Init(es), lo, hi);
      assert Scanned(es[|es| - 1]) && Plain(es[|es| - 1].rows);
    }
  }

  lemma {:induction false} SelectedAre(es: seq<Entry>, lo: int, hi: int)
    requires AllScanned(es) && AllPlain(es)
    ensures AllScanned(Selected(es, lo, hi)) && AllPlain(Selected(es, lo, hi))
  {
    OverlappingAre(es, lo, hi);
    var p := Preceding(es, lo);
    assert p >= 0 ==> Scanned(es[p]) && Plain(es[p].rows);
  }

  lemma {:induction false} PlainAnswerIsSelected(es: seq<Entry>, lo: int, hi: int, t: int)
    requires AllScanned(es) && AllPlain(es) && lo <= t <= hi
    ensures StampOf(Lookup(Resolved(es, lo, hi), t)) == Latest(Selected(es, lo, hi), t)
  {
    var picked := Selected(es, lo, hi);
    SelectedAre(es, lo, hi);
    PlainMerged(picked);
    MergeAscends(RowsOf(picked));
    PlainTrim(Merged(picked), lo, hi, t);
    PlainLookup(picked, t);
  }

  /** There the trim loses nothing. For any files, disjoint or not, every moment of the window gets the latest snapshot
      that the archive collected up to it exactly when the past is carried. */
  lemma {:induction false} PlainWindowAnswersExactly(es: seq<Entry>, lo: int, hi: int)
    requires AllScanned(es) && AllPlain(es) && lo <= hi
    ensures (forall t :: lo <= t <= hi ==> StampOf(Lookup(Resolved(es, lo, hi), t)) == Latest(es, t)) <==>
              PastIsCarried(es, lo, hi)
  {
    SelectionAnswersExactly(es, lo, hi);
    forall t | lo <= t <= hi
      ensures StampOf(Lookup(Resolved(es, lo, hi), t)) == Latest(es, t) <==> AnswersLikeArchive(es, lo, hi, t)
    {
      PlainAnswerIsSelected(es, lo, hi, t);
    }
  }

  // ---- where the trim and the gates disagree ------------------------------------------------------

  /** Two snapshots of one file: the first was available when it was collected, the second only at 200. The window
      starts at 100, so the trim keeps only the second, and a tick at 100 finds nothing although the archive
      answers it. */
  lemma {:induction false} LateGateCounterexample(es: seq<Entry>, early: Row, late: Row)
    requires early == Row(10, true, Some(10), Some(StreamIdentity.Identity(1, 1)))
    requires late == Row(90, true, Some(200), Some(StreamIdentity.Identity(1, 2)))
    requires es == [Entry("a", 10, 90, [10, 90], [early, late])]
    ensures AllScanned(es) && Resolved(es, 100, 300) == [late]
    ensures Lookup(Resolved(es, 100, 300), 100) == None && Lookup(Merged(es), 100) == Some(early)
  {
    var rows := [early, late];
    assert Collected(rows) == [10, 90] && 10 in [10, 90] && 90 in [10, 90];
    OneFileMerges(es[0], early, late);
    ResolvedIsSlice(es, 100, 300);
    TrimKeepsLate(early, late);
    NoneOpen([late], 100);
    FirstOpen([early, late], 100);
  }

  lemma TrimKeepsLate(early: Row, late: Row)
    requires early.collected == 10 && late.collected == 90
    ensures Ascending([early, late]) && Trim([early, late], 100, 300) == [late]
  {
    var rows := [early, late];
    TrimIsSlice(rows, 100, 300);
    assert Collected(rows)[0] == 10 && Collected(rows)[1] == 90;
    AscendingClimbs(rows);
    CountIs(Collected(rows), 100, 2);
    CountIs(Collected(rows), 300, 2);
  }

  lemma NoneOpen(s: seq<Row>, t: int)
    requires |s| == 1 && Key(s[0]) > t
    ensures Lookup(s, t) == None
  {
    InOrderIsOrdered(s);
    OpenIs(s, t, 0);
  }

  lemma FirstOpen(s: seq<Row>, t: int)
    requires |s| == 2 && Key(s[0]) <= t < Key(s[1]) && !Before(s[1], s[0])
    ensures Lookup(s, t) == Some(s[0])
  {
    InOrderIsOrdered(s);
    OpenIs(s, t, 1);
  }

  lemma OneFileMerges(e: Entry, early: Row, late: Row)
    requires e.rows == [early, late] && early.collected < late.collected
    ensures Merged([e]) == [early, late]
  {
    assert Init([e]) == [] && RowsOf([e]) == e.rows;
    assert Init([early, late]) == [early] && Init([early]) == [];
    assert MergeRows([early]) == [early] && Last([early, late]) == late;
  }
}
