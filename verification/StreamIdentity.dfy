/** The stream-identity gate of the signal importer: which files it accepts, and what its hole count means. */
module StreamIdentity {
  import opened Prelude

  /** A snapshot with a stream identity; lines without one are not checked. */
  datatype Identity = Identity(epoch: int, seqNo: int)

  datatype Snapshot = Snapshot(epoch: Option<int>, seqNo: Option<int>)

  function Identified(snapshots: seq<Snapshot>): seq<Identity> {
    if snapshots == [] then []
    else
      var s := Last(snapshots);
      if s.epoch.Some? && s.seqNo.Some? then Identified(Init(snapshots)) + [Identity(s.epoch.value, s.seqNo.value)]
      else Identified(Init(snapshots))
  }

  predicate NotAfter(a: Identity, b: Identity) {
    a.epoch < b.epoch || (a.epoch == b.epoch && a.seqNo <= b.seqNo)
  }

  /** The (epoch, seq) pairs never go backwards lexicographically. */
  predicate NonDecreasing(ids: seq<Identity>) {
    forall i, j :: 0 <= i < j < |ids| ==> NotAfter(ids[i], ids[j])
  }

  datatype Refusal = EpochWentBackwards | SeqWentBackwards

  /** A soft finding: sequence numbers of an epoch that were never received. */
  datatype Holes = Holes(epoch: int, missing: nat)

  // ---- the sequence numbers of one epoch --------------------------------------------------------

  function SeqsOf(ids: seq<Identity>, epoch: int): seq<int> {
    if ids == [] then []
    else if Last(ids).epoch == epoch then SeqsOf(Init(ids), epoch) + [Last(ids).seqNo]
    else SeqsOf(Init(ids), epoch)
  }

  /** Sum of the gaps between neighbours. */
  function GapSum(s: seq<int>): nat {
    if |s| < 2 then 0
    else GapSum(Init(s)) + (if s[|s| - 1] - s[|s| - 2] > 1 then s[|s| - 1] - s[|s| - 2] - 1 else 0)
  }

  function Range(lo: int, hi: int): (r: set<int>)
    ensures forall n :: n in r <==> lo <= n <= hi
    ensures hi >= lo - 1 ==> |r| == hi - lo + 1
    decreases hi - lo
  {
    if hi < lo then {}
    else
      var r := Range(lo, hi - 1);
      assert hi !in r;
      r + {hi}
  }

  /** The integers from the first to the last number that never occur. */
  function Missing(s: seq<int>): set<int>
    requires s != []
  {
    set n | n in Range(s[0], Last(s)) && n !in s
  }

  predicate Ascending(s: seq<int>) {
    forall i, j :: 0 <= i < j < |s| ==> s[i] <= s[j]
  }

  lemma {:induction false} GapSumIsMissing(s: seq<int>)
    requires s != [] && Ascending(s)
    ensures GapSum(s) == |Missing(s)|
  {
    if |s| == 1 {
      assert Missing(s) == {};
    } else {
      GapSumIsMissing(Init(s));
      MissingGrows(s);
    }
  }

  /** One more number adds the integers strictly between it and the one before. */
  lemma MissingGrows(s: seq<int>)
    requires |s| >= 2 && Ascending(s)
    ensures |Missing(s)| == |Missing(Init(s))|
            + (if s[|s| - 1] - s[|s| - 2] > 1 then s[|s| - 1] - s[|s| - 2] - 1 else 0)
  {
    var a, b, p := s[|s| - 2], s[|s| - 1], Init(s);
    var between := Range(a + 1, b - 1);
    forall n ensures n in Missing(s) <==> n in Missing(p) || n in between {
      MissingStep(s, n);
    }
    UnionSize(Missing(s), Missing(p), between);
  }

  lemma UnionSize(u: set<int>, a: set<int>, b: set<int>)
    requires forall n :: n in u <==> n in a || n in b
    requires a !! b
    ensures |u| == |a| + |b|
  {
    forall n ensures n in u <==> n in a + b {
      assert n in u <==> n in a || n in b;
    }
    assert u == a + b;
  }

  lemma {:induction false} OccursInit(s: seq<int>, n: int)
    requires s != []
    ensures n in s <==> n in Init(s) || n == Last(s)
  {
    assert s == Init(s) + [Last(s)];
  }

  lemma {:induction false} AtMostLast(s: seq<int>, n: int)
    requires Ascending(s) && n in s
    ensures s[0] <= n <= Last(s)
  {
    var i :| 0 <= i < |s| && s[i] == n;
  }

  lemma {:induction false} MissingStep(s: seq<int>, n: int)
    requires |s| >= 2 && Ascending(s)
    ensures n in Missing(s) <==> n in Missing(Init(s)) || n in Range(s[|s| - 2] + 1, s[|s| - 1] - 1)
  {
    var p := Init(s);
    OccursInit(s, n);
    if n in p {
      AtMostLast(p, n);
    }
  }

  lemma {:induction false} SeqsHold(ids: seq<Identity>, epoch: int, n: int)
    ensures n in SeqsOf(ids, epoch) <==> Identity(epoch, n) in ids
  {
    if ids != [] {
      SeqsHold(Init(ids), epoch, n);
      assert ids == Init(ids) + [Last(ids)];
    }
  }

  lemma {:induction false} SeqsAscending(ids: seq<Identity>, epoch: int)
    requires NonDecreasing(ids)
    ensures Ascending(SeqsOf(ids, epoch))
  {
    if ids != [] {
      var p, seqs := Init(ids), SeqsOf(Init(ids), epoch);
      SeqsAscending(p, epoch);
      if Last(ids).epoch == epoch {
        forall i | 0 <= i < |seqs| ensures seqs[i] <= Last(ids).seqNo {
          SeqsHold(p, epoch, seqs[i]);
          var k :| 0 <= k < |p| && p[k] == Identity(epoch, seqs[i]);
          assert NotAfter(ids[k], ids[|ids| - 1]);
        }
      }
    }
  }

  /** For every epoch of an accepted file the reported hole count is the number of sequence numbers between its first
      and its last that never occur. */
  lemma HolesAreMissing(ids: seq<Identity>, epoch: int)
    requires NonDecreasing(ids) && SeqsOf(ids, epoch) != []
    ensures GapSum(SeqsOf(ids, epoch)) == |Missing(SeqsOf(ids, epoch))|
  {
    SeqsAscending(ids, epoch);
    GapSumIsMissing(SeqsOf(ids, epoch));
  }

  // ---- the gate ---------------------------------------------------------------------------------

  /** What the loop's dictionaries hold after the pairs `ids`. */
  ghost predicate Grouped(ids: seq<Identity>, seqs: map<int, seq<int>>) {
    forall e :: if e in seqs then seqs[e] == SeqsOf(ids, e) != [] else SeqsOf(ids, e) == []
  }

  predicate LastOfEach(seqs: map<int, seq<int>>, lastSeq: map<int, int>) {
    && lastSeq.Keys == seqs.Keys
    && forall e :: e in seqs ==> seqs[e] != [] && lastSeq[e] == Last(seqs[e])
  }

  ghost predicate Keys(seqs: map<int, seq<int>>, epochs: seq<int>) {
    && (forall e :: e in epochs <==> e in seqs)
    && Distinct(epochs)
  }

  function Push(seqs: map<int, seq<int>>, e: int, n: int): map<int, seq<int>> {
    seqs[e := (if e in seqs then seqs[e] else []) + [n]]
  }

  /** Some pair goes back against an earlier one, for the reason named. */
  predicate Falls(ids: seq<Identity>, reason: Refusal) {
    exists j, k :: 0 <= j < k < |ids| && FallsBetween(ids[j], ids[k], reason)
  }

  predicate FallsBetween(a: Identity, b: Identity, reason: Refusal) {
    match reason
    case EpochWentBackwards => b.epoch < a.epoch
    case SeqWentBackwards => b.epoch == a.epoch && b.seqNo < a.seqNo
  }

  lemma FallsAt(ids: seq<Identity>, j: nat, k: nat, reason: Refusal)
    requires j < k < |ids| && FallsBetween(ids[j], ids[k], reason)
    ensures Falls(ids, reason) && !NonDecreasing(ids)
  {
    assert !NotAfter(ids[j], ids[k]);
  }

  lemma BackwardsSeq(ids: seq<Identity>, i: nat)
    requires i < |ids| && SeqsOf(ids[..i], ids[i].epoch) != []
    requires ids[i].seqNo < Last(SeqsOf(ids[..i], ids[i].epoch))
    ensures Falls(ids, SeqWentBackwards) && !NonDecreasing(ids)
  {
    var last := Last(SeqsOf(ids[..i], ids[i].epoch));
    SeqsHold(ids[..i], ids[i].epoch, last);
    var k :| 0 <= k < i && ids[..i][k] == Identity(ids[i].epoch, last);
    FallsAt(ids, k, i, SeqWentBackwards);
  }

  lemma ForwardStep(ids: seq<Identity>, i: nat)
    requires i < |ids| && NonDecreasing(ids[..i])
    requires i > 0 ==> ids[i - 1].epoch <= ids[i].epoch
    requires SeqsOf(ids[..i], ids[i].epoch) != [] ==> Last(SeqsOf(ids[..i], ids[i].epoch)) <= ids[i].seqNo
    ensures NonDecreasing(ids[..i + 1])
  {
    var p, epoch := ids[..i], ids[i].epoch;
    forall j | 0 <= j < i ensures NotAfter(ids[j], ids[i]) {
      assert p[j] == ids[j] && p[i - 1] == ids[i - 1];
      assert j < i - 1 ==> NotAfter(p[j], p[i - 1]);
      if ids[j].epoch == epoch {
        SeqsHold(p, epoch, ids[j].seqNo);
        SeqsAscending(p, epoch);
        var s := SeqsOf(p, epoch);
        var k :| 0 <= k < |s| && s[k] == ids[j].seqNo;
        assert s[k] <= Last(s);
      }
    }
    var q := ids[..i + 1];
    forall j, k | 0 <= j < k < |q| ensures NotAfter(q[j], q[k]) {
      if k < i {
        assert NotAfter(p[j], p[k]);
      }
    }
  }

  lemma {:induction false} SeqsStep(ids: seq<Identity>, i: nat, x: int)
    requires i < |ids|
    ensures SeqsOf(ids[..i + 1], x) ==
              if ids[i].epoch == x then SeqsOf(ids[..i], x) + [ids[i].seqNo] else SeqsOf(ids[..i], x)
  {
    assert Init(ids[..i + 1]) == ids[..i] && Last(ids[..i + 1]) == ids[i];
  }

  lemma {:induction false} GroupedStep(ids: seq<Identity>, i: nat, seqs: map<int, seq<int>>)
    requires i < |ids| && Grouped(ids[..i], seqs)
    ensures Grouped(ids[..i + 1], Push(seqs, ids[i].epoch, ids[i].seqNo))
  {
    var pushed, next := Push(seqs, ids[i].epoch, ids[i].seqNo), ids[..i + 1];
    forall x ensures if x in pushed then pushed[x] == SeqsOf(next, x) != [] else SeqsOf(next, x) == [] {
      SeqsStep(ids, i, x);
    }
  }

  lemma DictionariesStep(seqs: map<int, seq<int>>, lastSeq: map<int, int>, epochs: seq<int>, e: int, n: int)
    requires LastOfEach(seqs, lastSeq) && Keys(seqs, epochs)
    ensures LastOfEach(Push(seqs, e, n), lastSeq[e := n])
    ensures Keys(Push(seqs, e, n), if e in seqs then epochs else epochs + [e])
  {
  }

  /** Accept or refuse the identities of one file; on acceptance, the dictionary of sequence numbers per epoch. */
  method CheckOrder(ids: seq<Identity>) returns (r: Result<map<int, seq<int>>, Refusal>, epochs: seq<int>)
    ensures r.Ok? <==> NonDecreasing(ids)
    ensures r.Ok? ==> forall e :: e in r.value <==> SeqsOf(ids, e) != []
    ensures r.Ok? ==> forall e :: e in r.value ==> r.value[e] == SeqsOf(ids, e)
    ensures r.Ok? ==> forall e :: e in epochs <==> e in r.value
    ensures r.Ok? ==> Distinct(epochs)
    ensures r.Err? ==> Falls(ids, r.error)
  {
    var lastSeq: map<int, int>, seqs: map<int, seq<int>> := map[], map[];
    epochs := [];
    if ids == [] {
      return Ok(seqs), [];
    }
    var highestEpoch := ids[0].epoch;
    for i := 0 to |ids|
      invariant NonDecreasing(ids[..i])
      invariant highestEpoch == if i == 0 then ids[0].epoch else ids[i - 1].epoch
      invariant Grouped(ids[..i], seqs) && LastOfEach(seqs, lastSeq) && Keys(seqs, epochs)
    {
      var e, n := ids[i].epoch, ids[i].seqNo;
      if e < highestEpoch {
        FallsAt(ids, i - 1, i, EpochWentBackwards);
        return Err(EpochWentBackwards), epochs;
      }
      if e in lastSeq && n < lastSeq[e] {
        BackwardsSeq(ids, i);
        return Err(SeqWentBackwards), epochs;
      }
      assert SeqsOf(ids[..i], e) != [] ==> lastSeq[e] == Last(SeqsOf(ids[..i], e));
      ForwardStep(ids, i);
      DictionariesStep(seqs, lastSeq, epochs, e, n);
      GroupedStep(ids, i, seqs);
      highestEpoch := e;
      lastSeq := lastSeq[e := n];
      if e !in seqs {
        epochs := epochs + [e];
      }
      seqs := Push(seqs, e, n);
    }
    assert ids[..|ids|] == ids;
    return Ok(seqs), epochs;
  }

  /** One finding per epoch with a gap. */
  method ReportHoles(epochs: seq<int>, seqs: map<int, seq<int>>) returns (errors: seq<Holes>)
    requires forall e :: e in epochs ==> e in seqs
    requires Distinct(epochs)
    ensures forall h :: h in errors <==> h.epoch in epochs && h.missing == GapSum(seqs[h.epoch]) > 0
    ensures forall i, j :: 0 <= i < j < |errors| ==> errors[i].epoch != errors[j].epoch
  {
    errors := [];
    for k := 0 to |epochs|
      invariant forall i, j :: 0 <= i < j < |errors| ==> errors[i].epoch != errors[j].epoch
      invariant forall h :: h in errors <==> h.epoch in epochs[..k] && h.missing == GapSum(seqs[h.epoch]) > 0
    {
      var e := epochs[k];
      var holes := GapSum(seqs[e]);
      assert epochs[..k + 1] == epochs[..k] + [e] && e !in epochs[..k];
      if holes > 0 {
        errors := errors + [Holes(e, holes)];
      }
    }
    assert epochs[..|epochs|] == epochs;
  }

  /** The findings are the epochs with missing numbers, each once and with the number of them. */
  ghost predicate ReportsMissing(ids: seq<Identity>, errors: seq<Holes>) {
    && (forall h :: h in errors <==>
          SeqsOf(ids, h.epoch) != [] && h.missing == |Missing(SeqsOf(ids, h.epoch))| > 0)
    && (forall i, j :: 0 <= i < j < |errors| ==> errors[i].epoch != errors[j].epoch)
  }

  // ---- the gate, in terms of the snapshots --------------------------------------------------------

  /** The snapshot carries this place in the stream. */
  predicate Carries(s: Snapshot, epoch: int, seqNo: int) {
    s.epoch == Some(epoch) && s.seqNo == Some(seqNo)
  }

  /** Both carry a place, and the later one lies in an earlier epoch. */
  predicate EpochBack(earlier: Snapshot, later: Snapshot) {
    && earlier.epoch.Some? && earlier.seqNo.Some? && later.epoch.Some? && later.seqNo.Some?
    && later.epoch.value < earlier.epoch.value
  }

  /** Both lie in one epoch, and the later one has the smaller number. */
  predicate SeqBack(earlier: Snapshot, later: Snapshot) {
    && earlier.epoch.Some? && earlier.seqNo.Some? && later.epoch.Some? && later.seqNo.Some?
    && later.epoch.value == earlier.epoch.value && later.seqNo.value < earlier.seqNo.value
  }

  predicate SomeEpochBack(snapshots: seq<Snapshot>) {
    exists i, j :: 0 <= i < j < |snapshots| && EpochBack(snapshots[i], snapshots[j])
  }

  predicate SomeSeqBack(snapshots: seq<Snapshot>) {
    exists i, j :: 0 <= i < j < |snapshots| && SeqBack(snapshots[i], snapshots[j])
  }

  lemma {:induction false} IdentifiedHas(snapshots: seq<Snapshot>, epoch: int, seqNo: int)
    ensures Identity(epoch, seqNo) in Identified(snapshots) <==>
              exists i :: 0 <= i < |snapshots| && Carries(snapshots[i], epoch, seqNo)
  {
    if snapshots != [] {
      var p, s := Init(snapshots), snapshots[|snapshots| - 1];
      IdentifiedHas(p, epoch, seqNo);
      assert forall i :: 0 <= i < |p| ==> snapshots[i] == p[i];
      assert Carries(s, epoch, seqNo) ==> Identity(epoch, seqNo) in Identified(snapshots);
    }
  }

  /** Two identified pairs come from two snapshots in the same order. */
  lemma {:induction false} IdentifiedFrom(snapshots: seq<Snapshot>, j: nat, k: nat) returns (a: nat, b: nat)
    requires j < k < |Identified(snapshots)|
    ensures a < b < |snapshots|
    ensures var x, y := Identified(snapshots)[j], Identified(snapshots)[k];
            Carries(snapshots[a], x.epoch, x.seqNo) && Carries(snapshots[b], y.epoch, y.seqNo)
  {
    var p := Init(snapshots);
    if k < |Identified(p)| {
      a, b := IdentifiedFrom(p, j, k);
    } else {
      var x := Identified(p)[j];
      assert Identity(x.epoch, x.seqNo) in Identified(p);
      IdentifiedHas(p, x.epoch, x.seqNo);
      a :| 0 <= a < |p| && Carries(p[a], x.epoch, x.seqNo);
      b := |snapshots| - 1;
    }
  }

  lemma {:induction false} IdentifiedInOrder(snapshots: seq<Snapshot>, i: nat, j: nat)
    requires i < j < |snapshots| && (EpochBack(snapshots[i], snapshots[j]) || SeqBack(snapshots[i], snapshots[j]))
    ensures !NonDecreasing(Identified(snapshots))
  {
    var p, ids := Init(snapshots), Identified(snapshots);
    if j < |p| {
      IdentifiedInOrder(p, i, j);
      var m, n :| 0 <= m < n < |Identified(p)| && !NotAfter(Identified(p)[m], Identified(p)[n]);
      assert !NotAfter(ids[m], ids[n]);
    } else {
      var s := snapshots[i];
      assert Carries(p[i], s.epoch.value, s.seqNo.value);
      IdentifiedHas(p, s.epoch.value, s.seqNo.value);
      var m :| 0 <= m < |Identified(p)| && Identified(p)[m] == Identity(s.epoch.value, s.seqNo.value);
      assert !NotAfter(ids[m], ids[|ids| - 1]);
    }
  }

  /** The identified pairs never go backwards exactly when no snapshot lies in an earlier epoch than one before it, nor
      has a smaller number than one before it in its epoch. */
  lemma {:induction false} OrderExactly(snapshots: seq<Snapshot>)
    ensures NonDecreasing(Identified(snapshots)) <==> !SomeEpochBack(snapshots) && !SomeSeqBack(snapshots)
  {
    var ids := Identified(snapshots);
    if !NonDecreasing(ids) {
      var j, k :| 0 <= j < k < |ids| && !NotAfter(ids[j], ids[k]);
      var a, b := IdentifiedFrom(snapshots, j, k);
      assert EpochBack(snapshots[a], snapshots[b]) || SeqBack(snapshots[a], snapshots[b]);
    }
    if SomeEpochBack(snapshots) || SomeSeqBack(snapshots) {
      var i, j :| 0 <= i < j < |snapshots| &&
        (EpochBack(snapshots[i], snapshots[j]) || SeqBack(snapshots[i], snapshots[j]));
      IdentifiedInOrder(snapshots, i, j);
    }
  }

  /** The snapshot belongs to the epoch and has a number. */
  predicate Belongs(s: Snapshot, epoch: int) {
    s.epoch == Some(epoch) && s.seqNo.Some?
  }

  /** The number lies between those of two snapshots of the epoch. */
  predicate Around(lower: Snapshot, upper: Snapshot, epoch: int, n: int) {
    Belongs(lower, epoch) && Belongs(upper, epoch) && lower.seqNo.value < n < upper.seqNo.value
  }

  lemma {:induction false} NumbersOf(snapshots: seq<Snapshot>, epoch: int, n: int)
    ensures n in SeqsOf(Identified(snapshots), epoch) <==>
              exists i :: 0 <= i < |snapshots| && Carries(snapshots[i], epoch, n)
  {
    SeqsHold(Identified(snapshots), epoch, n);
    IdentifiedHas(snapshots, epoch, n);
  }

  /** A number is missing from an epoch of an accepted file exactly when a smaller and a larger one were received in
      that epoch, and it was not. */
  lemma {:induction false} MissingExactly(snapshots: seq<Snapshot>, epoch: int, n: int)
    requires NonDecreasing(Identified(snapshots)) && SeqsOf(Identified(snapshots), epoch) != []
    ensures n in Missing(SeqsOf(Identified(snapshots), epoch)) <==>
              && (exists i, j :: 0 <= i < |snapshots| && 0 <= j < |snapshots| &&
                                 Around(snapshots[i], snapshots[j], epoch, n))
              && forall i :: 0 <= i < |snapshots| ==> !Carries(snapshots[i], epoch, n)
  {
    var s := SeqsOf(Identified(snapshots), epoch);
    SeqsAscending(Identified(snapshots), epoch);
    NumbersOf(snapshots, epoch, n);
    if n in Missing(s) {
      NumbersOf(snapshots, epoch, s[0]);
      NumbersOf(snapshots, epoch, Last(s));
      var i :| 0 <= i < |snapshots| && Carries(snapshots[i], epoch, s[0]);
      var j :| 0 <= j < |snapshots| && Carries(snapshots[j], epoch, Last(s));
      assert Around(snapshots[i], snapshots[j], epoch, n);
    }
    if i, j :| 0 <= i < |snapshots| && 0 <= j < |snapshots| && Around(snapshots[i], snapshots[j], epoch, n) {
      NumberWithin(snapshots, epoch, i);
      NumberWithin(snapshots, epoch, j);
    }
  }

  lemma {:induction false} NumberWithin(snapshots: seq<Snapshot>, epoch: int, i: nat)
    requires NonDecreasing(Identified(snapshots)) && i < |snapshots| && Belongs(snapshots[i], epoch)
    ensures var s := SeqsOf(Identified(snapshots), epoch);
            s != [] && s[0] <= snapshots[i].seqNo.value <= Last(s)
  {
    var n := snapshots[i].seqNo.value;
    assert Carries(snapshots[i], epoch, n);
    NumbersOf(snapshots, epoch, n);
    SeqsAscending(Identified(snapshots), epoch);
    AtMostLast(SeqsOf(Identified(snapshots), epoch), n);
  }

  /** `_validate_stream_identity`: a file is refused exactly when its identified snapshots go back in epoch or number,
      for the reason named, and the errors of an accepted file are the epochs with holes, each with the number of
      missing sequence numbers. */
  method ValidateStreamIdentity(snapshots: seq<Snapshot>) returns (r: Result<seq<Holes>, Refusal>)
    ensures r.Err? <==> SomeEpochBack(snapshots) || SomeSeqBack(snapshots)
    ensures r == Err(EpochWentBackwards) ==> SomeEpochBack(snapshots)
    ensures r == Err(SeqWentBackwards) ==> SomeSeqBack(snapshots)
    ensures r.Ok? ==> NonDecreasing(Identified(snapshots)) && ReportsMissing(Identified(snapshots), r.value)
  {
    OrderExactly(snapshots);
    var ids := Identified(snapshots);
    var checked, epochs := CheckOrder(ids);
    if checked.Err? {
      RefusalFrom(snapshots, checked.error);
      return Err(checked.error);
    }
    var errors := ReportHoles(epochs, checked.value);
    forall e | SeqsOf(ids, e) != [] ensures GapSum(SeqsOf(ids, e)) == |Missing(SeqsOf(ids, e))| {
      HolesAreMissing(ids, e);
    }
    return Ok(errors);
  }

  lemma {:induction false} RefusalFrom(snapshots: seq<Snapshot>, e: Refusal)
    requires Falls(Identified(snapshots), e)
    ensures if e == EpochWentBackwards then SomeEpochBack(snapshots) else SomeSeqBack(snapshots)
  {
    var ids := Identified(snapshots);
    var j, k :| 0 <= j < k < |ids| && FallsBetween(ids[j], ids[k], e);
    var a, b := IdentifiedFrom(snapshots, j, k);
    assert if e == EpochWentBackwards then EpochBack(snapshots[a], snapshots[b])
           else SeqBack(snapshots[a], snapshots[b]);
  }
}
