/** The provider of point-in-time signals: snapshots stand in the producer's order, each opens at its gate, and a lookup
    bisects the gates. */
module SignalProvider {
  import opened Prelude
  import opened Bisection
  import StreamIdentity
  import opened SignalSelection

  /** When a snapshot became usable: the producer's stamp where there is one, else the time of receipt. */
  function Key(r: Row): int {
    if r.available.Some? then r.available.value else r.collected
  }

  function Keys(s: seq<Row>): (k: seq<int>)
    ensures |k| == |s| && forall i :: 0 <= i < |s| ==> k[i] == Key(s[i])
  {
    seq(|s|, i requires 0 <= i < |s| => Key(s[i]))
  }

  // ---- the producer's order -----------------------------------------------------------------------

  /** The sort key: rows without a place in the stream come by their resolution key, ahead of every numbered epoch. */
  datatype OrderKey = OrderKey(epoch: int, seqNo: int, tie: int)

  function OrderOf(r: Row): OrderKey {
    if r.identity.None? then OrderKey(-1, -1, Key(r)) else OrderKey(r.identity.value.epoch, r.identity.value.seqNo, 0)
  }

  predicate Before(a: Row, b: Row) {
    var x, y := OrderOf(a), OrderOf(b);
    || x.epoch < y.epoch
    || (x.epoch == y.epoch && (x.seqNo < y.seqNo || (x.seqNo == y.seqNo && x.tie < y.tie)))
  }

  predicate InOrder(s: seq<Row>) {
    forall i, j :: 0 <= i < j < |s| ==> !Before(s[j], s[i])
  }

  function Place(s: seq<Row>, r: Row): (q: seq<Row>)
    ensures |q| == |s| + 1
  {
    if s == [] || !Before(r, Last(s)) then s + [r] else Place(Init(s), r) + [Last(s)]
  }

  /** The stable sort. */
  function Ordered(s: seq<Row>): (q: seq<Row>)
    ensures |q| == |s|
  {
    if s == [] then [] else Place(Ordered(Init(s)), Last(s))
  }

  lemma {:induction false} PlaceHas(s: seq<Row>, r: Row, x: Row)
    ensures x in Place(s, r) <==> x in s || x == r
  {
    if s != [] && Before(r, Last(s)) {
      PlaceHas(Init(s), r, x);
      assert s == Init(s) + [Last(s)];
    }
  }

  lemma {:induction false} OrderedHas(s: seq<Row>, x: Row)
    ensures x in Ordered(s) <==> x in s
  {
    if s != [] {
      OrderedHas(Init(s), x);
      PlaceHas(Ordered(Init(s)), Last(s), x);
      assert s == Init(s) + [Last(s)];
    }
  }

  lemma {:induction false} PlaceInOrder(s: seq<Row>, r: Row)
    requires InOrder(s)
    ensures InOrder(Place(s, r))
  {
    if s != [] && Before(r, Last(s)) {
      var p, l := Init(s), Last(s);
      PlaceInOrder(p, r);
      var q := Place(p, r);
      forall i | 0 <= i < |q| ensures !Before(l, q[i]) {
        PlaceHas(p, r, q[i]);
        assert q[i] in q;
        if q[i] != r {
          var j :| 0 <= j < |p| && p[j] == q[i];
          assert s[j] == q[i];
        }
      }
    }
  }

  lemma {:induction false} OrderedInOrder(s: seq<Row>)
    ensures InOrder(Ordered(s))
  {
    if s != [] {
      OrderedInOrder(Init(s));
      PlaceInOrder(Ordered(Init(s)), Last(s));
    }
  }

  lemma {:induction false} InOrderStays(s: seq<Row>, i: nat)
    requires InOrder(s) && i < |s|
    ensures Ordered(s)[i] == s[i]
  {
    var p := Init(s);
    if i < |p| {
      InOrderStays(p, i);
    }
    if p != [] {
      InOrderStays(p, |p| - 1);
    }
  }

  /** Rows that already stand in order stay where they are. */
  lemma InOrderIsOrdered(s: seq<Row>)
    requires InOrder(s)
    ensures Ordered(s) == s
  {
    forall i | 0 <= i < |s| ensures Ordered(s)[i] == s[i] {
      InOrderStays(s, i);
    }
  }

  /** Sorting what was sorted before together with more rows is sorting all of them once. */
  lemma {:induction false} OrderedTwice(s: seq<Row>, more: seq<Row>)
    ensures Ordered(Ordered(s) + more) == Ordered(s + more)
  {
    if more == [] {
      OrderedInOrder(s);
      InOrderIsOrdered(Ordered(s));
      assert Ordered(s) + [] == Ordered(s) && s + [] == s;
    } else {
      OrderedTwice(s, Init(more));
      assert Init(Ordered(s) + more) == Ordered(s) + Init(more) && Init(s + more) == s + Init(more);
    }
  }

  lemma {:induction false} PlaceDistinct(s: seq<Row>, r: Row)
    requires Distinct(s) && r !in s
    ensures Distinct(Place(s, r))
  {
    if s != [] && Before(r, Last(s)) {
      var p, l := Init(s), Last(s);
      assert s == p + [l];
      PlaceDistinct(p, r);
      PlaceHas(p, r, l);
      assert l !in p by {
        assert forall i :: 0 <= i < |p| ==> p[i] == s[i];
      }
    }
  }

  lemma {:induction false} OrderedDistinct(s: seq<Row>)
    requires Distinct(s)
    ensures Distinct(Ordered(s))
  {
    if s != [] {
      var p, r := Init(s), Last(s);
      OrderedDistinct(p);
      OrderedHas(p, r);
      PlaceDistinct(Ordered(p), r);
    }
  }

  // ---- the gates ----------------------------------------------------------------------------------

  /** The latest key up to a position. */
  function Highest(keys: seq<int>, i: nat): int
    requires i < |keys|
  {
    if i > 0 && keys[i] < Highest(keys, i - 1) then Highest(keys, i - 1) else keys[i]
  }

  /** The lookup keys of a series: each at least the one before. */
  function GateKeys(keys: seq<int>): (g: seq<int>)
    ensures |g| == |keys| && forall i :: 0 <= i < |keys| ==> g[i] == Highest(keys, i)
  {
    seq(|keys|, i requires 0 <= i < |keys| => Highest(keys, i))
  }

  lemma {:induction false} HighestIs(keys: seq<int>, i: nat, t: int)
    requires i < |keys|
    ensures Highest(keys, i) <= t <==> forall j :: 0 <= j <= i ==> keys[j] <= t
  {
    if i > 0 {
      HighestIs(keys, i - 1, t);
    }
  }

  /** A snapshot's gate is the latest key up to it, so it opens at `t` exactly when no key up to it is later: no
      snapshot becomes visible before one that precedes it. */
  lemma GateOpensExactly(keys: seq<int>, i: nat, t: int)
    requires i < |keys|
    ensures GateKeys(keys)[i] <= t <==> forall j :: 0 <= j <= i ==> keys[j] <= t
  {
    HighestIs(keys, i, t);
  }

  lemma {:induction false} HighestClimbs(keys: seq<int>, i: nat, j: nat)
    requires i <= j < |keys|
    ensures Highest(keys, i) <= Highest(keys, j)
  {
    if i < j {
      HighestClimbs(keys, i, j - 1);
    }
  }

  lemma GatesClimb(keys: seq<int>)
    ensures Climbs(GateKeys(keys))
  {
    forall i, j | 0 <= i < j < |keys| ensures GateKeys(keys)[i] <= GateKeys(keys)[j] {
      HighestClimbs(keys, i, j);
    }
  }

  /** Keys that climb are their own gates. */
  lemma ClimbingGates(keys: seq<int>)
    requires Climbs(keys)
    ensures GateKeys(keys) == keys
  {
    forall i | 0 <= i < |keys| ensures Highest(keys, i) == keys[i] {
      HighestIs(keys, i, keys[i]);
    }
  }

  /** How many gates are open at a moment. */
  function Open(s: seq<Row>, t: int): (n: nat)
    ensures n <= |s|
  {
    GatesClimb(Keys(s));
    CountUpTo(GateKeys(Keys(s)), t)
  }

  predicate UpTo(s: seq<Row>, n: nat, t: int)
    requires n <= |s|
  {
    forall i :: 0 <= i < n ==> Key(s[i]) <= t
  }

  lemma {:induction false} OpenGate(s: seq<Row>, t: int, i: nat)
    requires i < |s|
    ensures i < Open(s, t) <==> GateKeys(Keys(s))[i] <= t
  {
    GatesClimb(Keys(s));
  }

  lemma {:induction false} OpenExactly(s: seq<Row>, t: int, n: nat)
    requires n <= |s|
    ensures n <= Open(s, t) <==> UpTo(s, n, t)
  {
    if n > 0 {
      var keys := Keys(s);
      OpenGate(s, t, n - 1);
      GateOpensExactly(keys, n - 1, t);
      assert forall i :: 0 <= i < n ==> keys[i] == Key(s[i]);
    }
  }

  /** The open gates belong to the longest front part whose keys are all up to the moment. */
  lemma {:induction false} OpenIs(s: seq<Row>, t: int, n: nat)
    requires n <= |s|
    ensures Open(s, t) == n <==> UpTo(s, n, t) && (n < |s| ==> Key(s[n]) > t)
  {
    OpenExactly(s, t, n);
    if n < |s| {
      OpenExactly(s, t, n + 1);
    }
  }

  /** What a provider over `s`, in its order, answers at a moment. */
  function Answer(s: seq<Row>, t: int): Option<Row> {
    var n := Open(s, t);
    if n == 0 then None else Some(s[n - 1])
  }

  function Lookup(s: seq<Row>, t: int): Option<Row> {
    Answer(Ordered(s), t)
  }

  // ---- the provider -------------------------------------------------------------------------------

  /** What a redelivered snapshot is recognised by. */
  function IdentityOf(r: Row): (int, int) {
    if r.identity.None? then (-1, Key(r)) else (r.identity.value.epoch, r.identity.value.seqNo)
  }

  function Identities(s: seq<Row>): set<(int, int)> {
    set i | 0 <= i < |s| :: IdentityOf(s[i])
  }

  /** The rows of a batch that the provider has not seen. */
  function Fresh(batch: seq<Row>, seen: set<(int, int)>): seq<Row> {
    if batch == [] then []
    else if IdentityOf(Last(batch)) in seen then Fresh(Init(batch), seen)
    else Fresh(Init(batch), seen) + [Last(batch)]
  }

  function Extended(s: seq<Row>, batch: seq<Row>): seq<Row> {
    Ordered(s + Fresh(batch, Identities(s)))
  }

  class SignalDataProvider {
    var snapshots: seq<Row>
    var gates: seq<int>
    var seen: set<(int, int)>

    ghost predicate Valid()
      reads this
    {
      InOrder(snapshots) && gates == GateKeys(Keys(snapshots)) && seen == Identities(snapshots)
    }

    constructor (series: seq<Row>)
      ensures Valid() && snapshots == Ordered(series)
    {
      snapshots, gates, seen := [], [], {};
      new;
      Reindex(series);
    }

    /** Sort the series and clamp the gates. */
    method Reindex(series: seq<Row>)
      modifies this
      ensures Valid() && snapshots == Ordered(series)
    {
      var ordered := Ordered(series);
      var keys: seq<int> := [];
      ghost var all := Keys(ordered);
      for i := 0 to |ordered|
        invariant |keys| == i && forall j :: 0 <= j < i ==> keys[j] == Highest(all, j)
      {
        var key := Key(ordered[i]);
        if keys != [] && key < Last(keys) {
          key := Last(keys);
        }
        keys := keys + [key];
      }
      snapshots, gates := ordered, keys;
      seen := set i | 0 <= i < |ordered| :: IdentityOf(ordered[i]);
      OrderedInOrder(series);
    }

    /** Take in a batch of the live stream; what was seen before is dropped. */
    method Extend(batch: seq<Row>) returns (added: nat)
      requires Valid()
      modifies this
      ensures Valid() && snapshots == Extended(old(snapshots), batch)
      ensures added == |snapshots| - |old(snapshots)|
    {
      var unseen: seq<Row> := [];
      for i := 0 to |batch|
        invariant unseen == Fresh(batch[..i], seen)
        invariant Valid() && snapshots == old(snapshots)
      {
        assert Init(batch[..i + 1]) == batch[..i];
        if IdentityOf(batch[i]) !in seen {
          unseen := unseen + [batch[i]];
        }
      }
      assert batch[..|batch|] == batch;
      added := |unseen|;
      if unseen == [] {
        InOrderIsOrdered(snapshots);
        assert snapshots + [] == snapshots;
      } else {
        Reindex(snapshots + unseen);
      }
    }

    method Nearest(t: int) returns (r: Option<Row>)
      requires Valid()
      ensures r == Answer(snapshots, t)
    {
      GatesClimb(Keys(snapshots));
      var n := CountUpTo(gates, t);
      r := if n == 0 then None else Some(snapshots[n - 1]);
    }
  }

  // ---- what the live stream adds ------------------------------------------------------------------

  /** A provider that took a batch in answers like one built from all the rows at once. */
  lemma {:induction false} ExtendIsRebuild(s: seq<Row>, batch: seq<Row>, t: int)
    ensures Answer(Extended(Ordered(s), batch), t) == Lookup(s + Fresh(batch, Identities(s)), t)
  {
    OrderedKeepsDistinct(s);
    OrderedTwice(s, Fresh(batch, Identities(s)));
  }

  lemma {:induction false} FreshIsSeen(s: seq<Row>, batch: seq<Row>, i: nat)
    requires i < |batch|
    ensures IdentityOf(batch[i]) in Identities(s + Fresh(batch, Identities(s)))
  {
    var all := s + Fresh(batch, Identities(s));
    if IdentityOf(batch[i]) in Identities(s) {
      var j :| 0 <= j < |s| && IdentityOf(s[j]) == IdentityOf(batch[i]);
      assert all[j] == s[j];
    } else {
      var j := FreshHas(batch, Identities(s), i);
      assert all[|s| + j] == batch[i];
    }
  }

  lemma {:induction false} FreshHas(batch: seq<Row>, seen: set<(int, int)>, i: nat) returns (j: nat)
    requires i < |batch| && IdentityOf(batch[i]) !in seen
    ensures j < |Fresh(batch, seen)| && Fresh(batch, seen)[j] == batch[i]
  {
    if i == |batch| - 1 {
      j := |Fresh(Init(batch), seen)|;
    } else {
      j := FreshHas(Init(batch), seen, i);
    }
  }

  lemma {:induction false} NothingFresh(batch: seq<Row>, seen: set<(int, int)>)
    requires forall i :: 0 <= i < |batch| ==> IdentityOf(batch[i]) in seen
    ensures Fresh(batch, seen) == []
  {
    if batch != [] {
      NothingFresh(Init(batch), seen);
    }
  }

  /** Delivering a batch again changes nothing. */
  lemma {:induction false} RedeliveryChangesNothing(s: seq<Row>, batch: seq<Row>)
    ensures Extended(Extended(s, batch), batch) == Extended(s, batch)
  {
    var all := s + Fresh(batch, Identities(s));
    var next := Ordered(all);
    forall i | 0 <= i < |batch| ensures IdentityOf(batch[i]) in Identities(next) {
      FreshIsSeen(s, batch, i);
      OrderedKeepsDistinct(all);
    }
    NothingFresh(batch, Identities(next));
    assert next + [] == next;
    OrderedInOrder(all);
    InOrderIsOrdered(next);
  }

  // ---- duplicates ---------------------------------------------------------------------------------

  predicate DistinctIdentities(s: seq<Row>) {
    forall i, j :: 0 <= i < j < |s| ==> IdentityOf(s[i]) != IdentityOf(s[j])
  }

  lemma {:induction false} DistinctAppend(s: seq<Row>, r: Row)
    ensures DistinctIdentities(s + [r]) <==> DistinctIdentities(s) && IdentityOf(r) !in Identities(s)
    ensures Identities(s + [r]) == Identities(s) + {IdentityOf(r)}
  {
    var t := s + [r];
    assert t[|s|] == r && forall i :: 0 <= i < |s| ==> t[i] == s[i];
  }

  lemma {:induction false} PlaceKeepsDistinct(s: seq<Row>, r: Row)
    ensures DistinctIdentities(Place(s, r)) <==> DistinctIdentities(s) && IdentityOf(r) !in Identities(s)
    ensures Identities(Place(s, r)) == Identities(s) + {IdentityOf(r)}
  {
    DistinctAppend(s, r);
    if s != [] && Before(r, Last(s)) {
      var p, l := Init(s), Last(s);
      PlaceKeepsDistinct(p, r);
      DistinctAppend(Place(p, r), l);
      DistinctAppend(p, l);
      assert s == p + [l];
    }
  }

  lemma {:induction false} OrderedKeepsDistinct(s: seq<Row>)
    ensures DistinctIdentities(Ordered(s)) <==> DistinctIdentities(s)
    ensures Identities(Ordered(s)) == Identities(s)
  {
    if s != [] {
      var p, r := Init(s), Last(s);
      OrderedKeepsDistinct(p);
      PlaceKeepsDistinct(Ordered(p), r);
      DistinctAppend(p, r);
      assert s == p + [r];
    }
  }

  lemma {:induction false} DistinctConcat(a: seq<Row>, b: seq<Row>)
    requires DistinctIdentities(a) && Identities(a) !! Identities(b)
    ensures DistinctIdentities(a + b) <==> DistinctIdentities(b)
  {
    var t := a + b;
    assert forall i :: 0 <= i < |b| ==> t[|a| + i] == b[i];
    assert forall i :: 0 <= i < |a| ==> IdentityOf(a[i]) in Identities(a);
    assert forall i :: 0 <= i < |b| ==> IdentityOf(b[i]) in Identities(b);
  }

  lemma {:induction false} FreshIsUnseen(batch: seq<Row>, seen: set<(int, int)>)
    ensures seen !! Identities(Fresh(batch, seen))
  {
    if batch != [] {
      FreshIsUnseen(Init(batch), seen);
      DistinctAppend(Fresh(Init(batch), seen), Last(batch));
    }
  }

  /** A batch leaves no snapshot twice in the series exactly when it does not hold an unseen one twice itself: what
      arrives is compared with the series, not with the rest of its batch. */
  lemma {:induction false} NoDuplicatesExactly(s: seq<Row>, batch: seq<Row>)
    requires DistinctIdentities(s)
    ensures DistinctIdentities(Extended(s, batch)) <==> DistinctIdentities(Fresh(batch, Identities(s)))
  {
    var more := Fresh(batch, Identities(s));
    OrderedKeepsDistinct(s + more);
    FreshIsUnseen(batch, Identities(s));
    DistinctConcat(s, more);
  }

  lemma {:induction false} UnseenTwice(batch: seq<Row>, seen: set<(int, int)>)
    requires |batch| == 2 && batch[0] == batch[1] && IdentityOf(batch[0]) !in seen
    ensures Fresh(batch, seen) == batch
  {
    var one := Init(batch);
    assert Init(one) == [] && Fresh(one, seen) == one;
  }

  lemma {:induction false} TwiceInOrder(batch: seq<Row>)
    requires |batch| == 2 && batch[0] == batch[1]
    ensures Ordered(batch) == batch
  {
    assert !Before(batch[1], batch[0]);
    InOrderIsOrdered(batch);
  }

  /** One snapshot delivered twice in one batch stands twice in the series. */
  lemma {:induction false} DuplicateCounterexample(s: seq<Row>, batch: seq<Row>)
    requires s == [] && |batch| == 2 && batch[0] == batch[1]
    ensures Extended(s, batch) == batch
  {
    UnseenTwice(batch, Identities(s));
    assert s + batch == batch;
    TwiceInOrder(batch);
  }

  // ---- what a batch leaves, in terms of the rows' own fields ---------------------------------------

  /** The moment a row counts from: the producer's stamp, or the receipt where there is none. */
  predicate UsableFrom(r: Row, t: int) {
    if r.available.None? then t == r.collected else t == r.available.value
  }

  /** One snapshot delivered twice: the same place in the stream, or neither has a place and both count from one
      moment. */
  ghost predicate Redelivered(a: Row, b: Row) {
    if a.identity.Some? && b.identity.Some? then
      a.identity.value.epoch == b.identity.value.epoch && a.identity.value.seqNo == b.identity.value.seqNo
    else a.identity.None? && b.identity.None? && exists t :: UsableFrom(a, t) && UsableFrom(b, t)
  }

  /** A numbered row in the epoch that marks rows without a number, whose number is the other's moment. */
  predicate Confused(numbered: Row, other: Row) {
    && numbered.identity.Some? && numbered.identity.value.epoch == -1
    && other.identity.None? && UsableFrom(other, numbered.identity.value.seqNo)
  }

  /** The provider takes two rows for one exactly when they are one snapshot, or an epoch -1 makes them look alike. */
  lemma IdentityExactly(a: Row, b: Row)
    ensures IdentityOf(a) == IdentityOf(b) <==> Redelivered(a, b) || Confused(a, b) || Confused(b, a)
  {
    assert UsableFrom(a, Key(a)) && UsableFrom(b, Key(b));
  }

  /** The series holds the row, or one that the provider takes for it. */
  ghost predicate Knows(s: seq<Row>, r: Row) {
    exists i :: 0 <= i < |s| && (Redelivered(s[i], r) || Confused(s[i], r) || Confused(r, s[i]))
  }

  lemma {:induction false} KnowsIsSeen(s: seq<Row>, r: Row)
    ensures IdentityOf(r) in Identities(s) <==> Knows(s, r)
  {
    forall i | 0 <= i < |s|
      ensures IdentityOf(s[i]) == IdentityOf(r) <==> Redelivered(s[i], r) || Confused(s[i], r) || Confused(r, s[i])
    {
      IdentityExactly(s[i], r);
    }
  }

  lemma {:induction false} PlaceCounts(s: seq<Row>, r: Row)
    ensures multiset(Place(s, r)) == multiset(s) + multiset{r}
  {
    if s != [] && Before(r, Last(s)) {
      PlaceCounts(Init(s), r);
      assert s == Init(s) + [Last(s)];
    }
  }

  lemma {:induction false} OrderedCounts(s: seq<Row>)
    ensures multiset(Ordered(s)) == multiset(s)
  {
    if s != [] {
      OrderedCounts(Init(s));
      PlaceCounts(Ordered(Init(s)), Last(s));
      assert s == Init(s) + [Last(s)];
    }
  }

  lemma {:induction false} FreshCounts(batch: seq<Row>, seen: set<(int, int)>, r: Row)
    ensures multiset(Fresh(batch, seen))[r] == if IdentityOf(r) in seen then 0 else multiset(batch)[r]
  {
    if batch != [] {
      FreshCounts(Init(batch), seen, r);
      assert batch == Init(batch) + [Last(batch)];
    }
  }

  /** After a batch the series holds every row as often as before, and a row of the batch as often as it was delivered
      if nothing in the series was known to be it; rows that were known come in no more. */
  lemma {:induction false} ExtendedExactly(s: seq<Row>, batch: seq<Row>, r: Row)
    ensures multiset(Extended(s, batch))[r] == multiset(s)[r] + if Knows(s, r) then 0 else multiset(batch)[r]
  {
    var more := Fresh(batch, Identities(s));
    OrderedCounts(s + more);
    FreshCounts(batch, Identities(s), r);
    KnowsIsSeen(s, r);
  }

  /** A numbered snapshot is taken in exactly when its place in the stream is new. */
  lemma {:induction false} NewSnapshotIsTaken(s: seq<Row>, batch: seq<Row>, r: Row)
    requires r in batch && r.identity.Some? && r.identity.value.epoch != -1
    requires forall i :: 0 <= i < |s| ==> s[i].identity != r.identity
    ensures r in Extended(s, batch) && |Extended(s, batch)| > |s|
  {
    KnowsIsSeen(s, r);
    assert !Knows(s, r);
    ExtendedExactly(s, batch, r);
    ExtendedIsLonger(s, batch, r);
  }

  lemma {:induction false} ExtendedIsLonger(s: seq<Row>, batch: seq<Row>, r: Row)
    requires r in batch && !Knows(s, r)
    ensures |Extended(s, batch)| > |s|
  {
    KnowsIsSeen(s, r);
    FreshCounts(batch, Identities(s), r);
    assert r in Fresh(batch, Identities(s));
  }

  /** A numbered row in epoch -1 and an unnumbered row from the moment of its number: the second is dropped as a
      redelivery of the first. */
  lemma {:induction false} MarkerCounterexample(s: seq<Row>, batch: seq<Row>)
    requires |s| == |batch| == 1 && s[0].identity == Some(StreamIdentity.Identity(-1, 5))
    requires batch[0].identity == None && batch[0].available == Some(5)
    ensures Extended(s, batch) == s && batch[0] !in Extended(s, batch)
  {
    assert Confused(s[0], batch[0]);
    KnowsIsSeen(s, batch[0]);
    NothingFresh(batch, Identities(s));
    assert s + [] == s;
    InOrderIsOrdered(s);
  }

  // ---- the producer's order, in terms of the rows' own fields --------------------------------------

  /** `a` does not belong behind `b`: by epoch and number if both are numbered, by their moments if neither is, and an
      unnumbered row in front of the epochs from 0 on. */
  ghost predicate MayPrecede(a: Row, b: Row) {
    match (a.identity, b.identity)
    case (Some(x), Some(y)) => x.epoch < y.epoch || (x.epoch == y.epoch && x.seqNo <= y.seqNo)
    case (None, None) => exists t, u :: UsableFrom(a, t) && UsableFrom(b, u) && t <= u
    case (None, Some(y)) => y.epoch >= -1
    case (Some(x), None) => x.epoch <= -1
  }

  /** The series is a rearrangement of the rows delivered, in the producer's order. */
  lemma {:induction false} OrderedExactly(s: seq<Row>)
    ensures multiset(Ordered(s)) == multiset(s)
    ensures forall i, j :: 0 <= i < j < |s| ==> MayPrecede(Ordered(s)[i], Ordered(s)[j])
  {
    OrderedCounts(s);
    OrderedInOrder(s);
    var q := Ordered(s);
    forall i, j | 0 <= i < j < |s| ensures MayPrecede(q[i], q[j]) {
      OrderedHas(s, q[i]);
      OrderedHas(s, q[j]);
      assert UsableFrom(q[i], Key(q[i])) && UsableFrom(q[j], Key(q[j]));
    }
  }

  /** What a lookup finds: the row up to which every row of the series counts from the moment or earlier, the next one
      later; nothing exactly if the first row counts from later or there is none. */
  lemma {:induction false} AnswerExactly(s: seq<Row>, t: int, n: nat)
    requires n <= |s|
    requires forall i, u :: 0 <= i < n && UsableFrom(s[i], u) ==> u <= t
    requires forall u :: n < |s| && UsableFrom(s[n], u) ==> u > t
    ensures Answer(s, t) == if n == 0 then None else Some(s[n - 1])
  {
    assert forall i :: 0 <= i < |s| ==> UsableFrom(s[i], Key(s[i]));
    OpenIs(s, t, n);
  }
}
