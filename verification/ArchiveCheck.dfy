/** The continuity check over the whole archive: group the files, leave out those without a last time, sort, compare
    neighbours. */
module ArchiveCheck {
  import opened Prelude
  import opened AnchorRepair
  import opened AnchorPlanning
  import opened ArchiveContinuity
  import opened Archive

  /** A reported step between two files. */
  datatype Report = Report(previous: FilePlan, current: FilePlan, step: int)

  /** The bounds of files, as their fields say. */
  type BoundsMap = map<FilePlan, Bounds>

  ghost predicate Reads(m: BoundsMap, plans: seq<FilePlan>)
    reads plans
  {
    forall i :: 0 <= i < |plans| ==>
      plans[i] in m && m[plans[i]] == Bounds(plans[i].firstCollected, plans[i].lastCollected)
  }

  predicate Covers(m: BoundsMap, g: seq<FilePlan>) {
    forall i :: 0 <= i < |g| ==> g[i] in m
  }

  function BoundsIn(g: seq<FilePlan>, m: BoundsMap): (b: seq<Bounds>)
    requires Covers(m, g)
    ensures |b| == |g| && forall i :: 0 <= i < |g| ==> b[i] == m[g[i]]
  {
    seq(|g|, i requires 0 <= i < |g| => m[g[i]])
  }

  /** The files whose last time is not zero. */
  function NonZero(g: seq<FilePlan>, m: BoundsMap): (r: seq<FilePlan>)
    requires Covers(m, g)
    ensures Covers(m, r)
  {
    if g == [] then []
    else if m[Last(g)].last != 0 then NonZero(Init(g), m) + [Last(g)]
    else NonZero(Init(g), m)
  }

  /** The steps back between neighbours of a list. */
  function StepsIn(ks: seq<FilePlan>, m: BoundsMap): seq<Report>
    requires Covers(m, ks)
  {
    if |ks| < 2 then []
    else
      var p, q := ks[|ks| - 2], ks[|ks| - 1];
      if m[q].first >= m[p].last then StepsIn(Init(ks), m)
      else StepsIn(Init(ks), m) + [Report(p, q, m[p].last - m[q].first)]
  }

  // ---- leaving files out before sorting is leaving them out after ----------------------------------

  lemma {:induction false} NonZeroHas(g: seq<FilePlan>, m: BoundsMap, x: FilePlan)
    requires Covers(m, g) && x in NonZero(g, m)
    ensures x in g
  {
    if x !in NonZero(Init(g), m) {
      assert x == Last(g);
    } else {
      NonZeroHas(Init(g), m, x);
    }
  }

  lemma InsertCovers(s: seq<FilePlan>, p: FilePlan, m: BoundsMap)
    requires Covers(m, s) && p in m
    ensures Covers(m, Insert(s, p))
  {
    forall i | 0 <= i < |Insert(s, p)| ensures Insert(s, p)[i] in m {
      InsertHas(s, p, Insert(s, p)[i]);
    }
  }

  lemma NonZeroAppend(s: seq<FilePlan>, x: FilePlan, m: BoundsMap)
    requires Covers(m, s) && x in m
    ensures NonZero(s + [x], m) == if m[x].last != 0 then NonZero(s, m) + [x] else NonZero(s, m)
  {
    assert Init(s + [x]) == s;
  }

  lemma {:induction false} InsertLast(s: seq<FilePlan>, p: FilePlan)
    requires forall i :: 0 <= i < |s| ==> s[i].firstEvent <= p.firstEvent
    ensures Insert(s, p) == s + [p]
  {
  }

  lemma {:induction false} InsertBefore(s: seq<FilePlan>, x: FilePlan, p: FilePlan)
    requires x.firstEvent > p.firstEvent
    ensures Insert(s + [x], p) == Insert(s, p) + [x]
  {
    assert Init(s + [x]) == s;
  }

  lemma {:induction false} NonZeroInsert(s: seq<FilePlan>, p: FilePlan, m: BoundsMap)
    requires Covers(m, s) && p in m && InEventOrder(s)
    ensures Covers(m, Insert(s, p))
    ensures NonZero(Insert(s, p), m) == if m[p].last != 0 then Insert(NonZero(s, m), p) else NonZero(s, m)
  {
    InsertCovers(s, p, m);
    if s == [] || Last(s).firstEvent <= p.firstEvent {
      NonZeroAppend(s, p, m);
      var ks := NonZero(s, m);
      forall i | 0 <= i < |ks| ensures ks[i].firstEvent <= p.firstEvent {
        NonZeroHas(s, m, ks[i]);
      }
      InsertLast(ks, p);
    } else {
      var q, x := Init(s), Last(s);
      NonZeroInsert(q, p, m);
      NonZeroAppend(Insert(q, p), x, m);
      InsertBefore(NonZero(q, m), x, p);
    }
  }

  lemma {:induction false} SortCovers(s: seq<FilePlan>, m: BoundsMap)
    requires Covers(m, s)
    ensures Covers(m, SortByEvent(s))
  {
    forall i | 0 <= i < |SortByEvent(s)| ensures SortByEvent(s)[i] in m {
      SortHas(s, SortByEvent(s)[i]);
    }
  }

  lemma {:induction false} NonZeroSort(s: seq<FilePlan>, m: BoundsMap)
    requires Covers(m, s)
    ensures Covers(m, SortByEvent(s)) && SortByEvent(NonZero(s, m)) == NonZero(SortByEvent(s), m)
  {
    SortCovers(s, m);
    if s != [] {
      var p, x := Init(s), Last(s);
      NonZeroSort(p, m);
      SortInOrder(p);
      NonZeroInsert(SortByEvent(p), x, m);
      if m[x].last != 0 {
        assert Init(NonZero(p, m) + [x]) == NonZero(p, m);
      }
    }
  }

  // ---- the steps are the findings -----------------------------------------------------------------

  function Pick(g: seq<FilePlan>, at: seq<nat>): (r: seq<FilePlan>)
    requires forall j :: 0 <= j < |at| ==> at[j] < |g|
    ensures |r| == |at| && forall j :: 0 <= j < |at| ==> r[j] == g[at[j]]
  {
    seq(|at|, j requires 0 <= j < |at| => g[at[j]])
  }

  lemma {:induction false} NonZeroIsKept(g: seq<FilePlan>, m: BoundsMap)
    requires Covers(m, g)
    ensures NonZero(g, m) == Pick(g, Kept(BoundsIn(g, m)))
  {
    if g != [] {
      var p := Init(g);
      NonZeroIsKept(p, m);
      assert Init(BoundsIn(g, m)) == BoundsIn(p, m);
    }
  }

  lemma {:induction false} StepsArePairs(ks: seq<FilePlan>, m: BoundsMap, r: Report)
    requires Covers(m, ks)
    ensures r in StepsIn(ks, m) <==> exists n :: 0 < n < |ks| && PairAt(ks, m, n, r)
  {
    if |ks| >= 2 {
      var p, n := Init(ks), |ks| - 1;
      StepsArePairs(p, m, r);
      assert forall i :: 0 < i < n ==> (PairAt(ks, m, i, r) <==> PairAt(p, m, i, r));
      assert PairAt(ks, m, n, r) <==>
               m[ks[n]].first < m[ks[n - 1]].last &&
               r == Report(ks[n - 1], ks[n], m[ks[n - 1]].last - m[ks[n]].first);
    }
  }

  ghost predicate PairAt(ks: seq<FilePlan>, m: BoundsMap, n: nat, r: Report)
    requires Covers(m, ks)
  {
    0 < n < |ks| && r == Report(ks[n - 1], ks[n], m[ks[n - 1]].last - m[ks[n]].first) && r.step > 0
  }

  /** The report of a step between the files at `p` and `q` of a group. */
  ghost predicate ReportedAt(g: seq<FilePlan>, b: seq<Bounds>, p: nat, q: nat, r: Report)
    requires |b| == |g|
  {
    Neighbours(b, p, q) && b[q].first < b[p].last && r == Report(g[p], g[q], b[p].last - b[q].first)
  }

  /** In a group, exactly the steps back between files with a last time are reported, over files without one. */
  lemma {:induction false} GroupReportsExactly(g: seq<FilePlan>, m: BoundsMap, r: Report)
    requires Covers(m, g)
    ensures r in StepsIn(NonZero(g, m), m) <==> exists p, q :: ReportedAt(g, BoundsIn(g, m), p, q, r)
  {
    var b, ks := BoundsIn(g, m), NonZero(g, m);
    NonZeroIsKept(g, m);
    StepsArePairs(ks, m, r);
    if r in StepsIn(ks, m) {
      var n :| 0 < n < |ks| && PairAt(ks, m, n, r);
      AdjacentAreNeighbours(b, n);
      assert ReportedAt(g, b, Kept(b)[n - 1], Kept(b)[n], r);
    }
    if p, q :| ReportedAt(g, b, p, q, r) {
      var n := NeighboursAreAdjacent(b, p, q);
      assert PairAt(ks, m, n, r);
    }
  }

  // ---- the loops ----------------------------------------------------------------------------------

  /** The files the check groups: not skipped and with a last time. */
  function Checked(plans: seq<FilePlan>, key: Key, m: BoundsMap): (r: seq<FilePlan>)
    requires Covers(m, plans)
    ensures Covers(m, r)
  {
    if plans == [] then []
    else if Last(plans).key == key && !Last(plans).skipped && m[Last(plans)].last != 0 then
      Checked(Init(plans), key, m) + [Last(plans)]
    else Checked(Init(plans), key, m)
  }

  lemma {:induction false} CheckedIsNonZero(plans: seq<FilePlan>, key: Key, m: BoundsMap)
    requires Covers(m, plans)
    ensures Covers(m, Of(plans, key)) && Checked(plans, key, m) == NonZero(Of(plans, key), m)
  {
    if plans != [] {
      CheckedIsNonZero(Init(plans), key, m);
      if Last(plans).key == key && !Last(plans).skipped {
        NonZeroAppend(Of(Init(plans), key), Last(plans), m);
      }
    }
  }

  /** Sorting what is checked gives the group without its files that have no last time. */
  lemma {:induction false} CheckedInOrder(plans: seq<FilePlan>, key: Key, m: BoundsMap)
    requires Covers(m, plans)
    ensures Covers(m, Group(plans, key)) && SortByEvent(Checked(plans, key, m)) == NonZero(Group(plans, key), m)
  {
    CheckedIsNonZero(plans, key, m);
    NonZeroSort(Of(plans, key), m);
  }

  method GroupChecked(plans: seq<FilePlan>, ghost m: BoundsMap) returns (groups: map<Key, seq<FilePlan>>)
    requires Covers(m, plans) && Reads(m, plans)
    ensures forall key :: Held(groups, key) == Checked(plans, key, m)
  {
    groups := map[];
    for i := 0 to |plans|
      invariant forall key :: Held(groups, key) == Checked(plans[..i], key, m)
    {
      assert Init(plans[..i + 1]) == plans[..i] && Last(plans[..i + 1]) == plans[i];
      if !(plans[i].skipped || plans[i].lastCollected == 0) {
        groups := Added(groups, plans[i]);
      }
    }
    assert plans[..|plans|] == plans;
  }

  /** The comparison of neighbours in one group. */
  method CompareNeighbours(ks: seq<FilePlan>, ghost m: BoundsMap) returns (reports: seq<Report>)
    requires Covers(m, ks) && Reads(m, ks)
    ensures reports == StepsIn(ks, m)
  {
    reports := [];
    if ks == [] {
      return;
    }
    for n := 1 to |ks|
      invariant reports == StepsIn(ks[..n], m)
    {
      assert Init(ks[..n + 1]) == ks[..n];
      var previous, current := ks[n - 1], ks[n];
      if current.firstCollected < previous.lastCollected {
        reports := reports + [Report(previous, current, previous.lastCollected - current.firstCollected)];
      }
    }
    assert ks[..|ks|] == ks;
  }

  /** The reports of one key. */
  function ReportsOf(plans: seq<FilePlan>, key: Key, m: BoundsMap): seq<Report>
    requires Covers(m, plans)
  {
    StepsIn(Ordered(plans, key, m), m)
  }

  function Ordered(plans: seq<FilePlan>, key: Key, m: BoundsMap): (r: seq<FilePlan>)
    requires Covers(m, plans)
    ensures Covers(m, r)
  {
    SortCovers(Checked(plans, key, m), m);
    SortByEvent(Checked(plans, key, m))
  }

  lemma {:induction false} OrderedWithin(plans: seq<FilePlan>, key: Key, m: BoundsMap, i: nat)
    requires Covers(m, plans) && i < |Ordered(plans, key, m)|
    ensures Ordered(plans, key, m)[i] in plans
  {
    var x := Ordered(plans, key, m)[i];
    CheckedInOrder(plans, key, m);
    NonZeroHas(Group(plans, key), m, x);
    GroupHas(plans, key, x);
  }

  /** Together, the lists of the keys hold what `reports` holds. */
  ghost predicate Collects(reports: seq<Report>, plans: seq<FilePlan>, keys: set<Key>, m: BoundsMap)
    requires Covers(m, plans)
  {
    && (forall i :: 0 <= i < |reports| ==> OfSomeKey(reports[i], plans, keys, m))
    && (forall key :: key in keys ==> Includes(reports, ReportsOf(plans, key, m)))
  }

  ghost predicate OfSomeKey(r: Report, plans: seq<FilePlan>, keys: set<Key>, m: BoundsMap)
    requires Covers(m, plans)
  {
    exists key :: key in keys && r in ReportsOf(plans, key, m)
  }

  ghost predicate HasKey(r: Report, plans: seq<FilePlan>, m: BoundsMap)
    requires Covers(m, plans)
  {
    exists key :: r in ReportsOf(plans, key, m)
  }

  ghost predicate Includes(reports: seq<Report>, some: seq<Report>) {
    forall i :: 0 <= i < |some| ==> some[i] in reports
  }

  method CheckKey(plans: seq<FilePlan>, key: Key, ks: seq<FilePlan>, ghost m: BoundsMap) returns (reports: seq<Report>)
    requires Covers(m, plans) && Reads(m, plans) && ks == Ordered(plans, key, m)
    ensures reports == ReportsOf(plans, key, m)
  {
    forall i | 0 <= i < |ks| ensures ks[i] in m && m[ks[i]] == Bounds(ks[i].firstCollected, ks[i].lastCollected) {
      OrderedWithin(plans, key, m, i);
    }
    reports := CompareNeighbours(ks, m);
  }

  lemma {:induction false} CollectsMore(reports: seq<Report>, more: seq<Report>, plans: seq<FilePlan>, keys: set<Key>,
                                        key: Key, m: BoundsMap)
    requires Covers(m, plans) && Collects(reports, plans, keys, m) && more == ReportsOf(plans, key, m)
    ensures Collects(reports + more, plans, keys + {key}, m)
  {
    var all := reports + more;
    forall i | 0 <= i < |all| ensures OfSomeKey(all[i], plans, keys + {key}, m) {
      if i < |reports| {
        assert all[i] == reports[i] && OfSomeKey(reports[i], plans, keys, m);
        var k :| k in keys && reports[i] in ReportsOf(plans, k, m);
        assert k in keys + {key};
      } else {
        assert key in keys + {key} && all[i] == more[i - |reports|];
      }
    }
    forall k | k in keys + {key} ensures Includes(all, ReportsOf(plans, k, m)) {
      assert k in keys ==> Includes(reports, ReportsOf(plans, k, m));
    }
  }

  /** `check_archive_continuity`: the reports of all keys. */
  method CheckArchiveContinuity(plans: seq<FilePlan>, ghost m: BoundsMap) returns (reports: seq<Report>)
    requires Covers(m, plans) && Reads(m, plans)
    ensures forall i :: 0 <= i < |reports| ==> HasKey(reports[i], plans, m)
    ensures forall key :: Includes(reports, ReportsOf(plans, key, m))
  {
    var groups := GroupChecked(plans, m);
    var todo := groups.Keys;
    ghost var done := {};
    reports := [];
    while todo != {}
      invariant done + todo == groups.Keys && done !! todo
      invariant Collects(reports, plans, done, m)
    {
      var key :| key in todo;
      assert Held(groups, key) == Checked(plans, key, m);
      var more := CheckKey(plans, key, SortByEvent(groups[key]), m);
      CollectsMore(reports, more, plans, done, key, m);
      MoveKey(done, todo, key);
      reports, todo, done := reports + more, todo - {key}, done + {key};
    }
    forall key ensures Includes(reports, ReportsOf(plans, key, m)) {
      assert Held(groups, key) == Checked(plans, key, m);
    }
    forall i | 0 <= i < |reports| ensures HasKey(reports[i], plans, m) {
      assert OfSomeKey(reports[i], plans, done, m);
    }
  }

  /** The check, file by file: a step is reported exactly when it lies between two files of one key, neighbours in the
      order of first events up to files without a last time. */
  lemma {:induction false} ArchiveReportsExactly(plans: seq<FilePlan>, key: Key, m: BoundsMap, r: Report)
    requires Covers(m, plans)
    ensures Covers(m, Group(plans, key))
    ensures r in ReportsOf(plans, key, m) <==>
            exists p, q :: ReportedAt(Group(plans, key), BoundsIn(Group(plans, key), m), p, q, r)
  {
    CheckedInOrder(plans, key, m);
    GroupReportsExactly(Group(plans, key), m, r);
  }

  ghost predicate Reported(reports: seq<Report>, p: FilePlan, q: FilePlan) {
    exists r :: r in reports && r.previous == p && r.current == q
  }

  /** The source stepped back, inside one anchor group, where file `k` of a group meets the next one. */
  ghost predicate SourceSteps(g: seq<FilePlan>, k: nat)
    requires k + 1 < |g|
  {
    var c, i := Raws(Chain(g)), Shares(g)[k + 1].start;
    0 < i < |c| && Head(c, i) == Head(c, i - 1) && c[i].first < c[i - 1].last
  }

  lemma {:induction false} SeamOfPlan(g: seq<FilePlan>, k: nat)
    requires k + 1 < |g| && IsLayout(Shares(g), |Chain(g)|)
    ensures PlannedBounds(g)[k + 1].first < PlannedBounds(g)[k].last <==> SourceSteps(g, k)
  {
    var c := Raws(Chain(g));
    StepAtSeam(c, Decisions(c), Shares(g), k);
  }

  /** Plan, then check: between two neighbouring files of a key a step is reported exactly when they meet inside one
      anchor group, the source itself stepped back there, and neither repaired last time is zero. */
  lemma {:induction false} PlannedArchiveReports(plans: seq<FilePlan>, key: Key, m: BoundsMap, g: seq<FilePlan>, k: nat)
    requires Covers(m, plans) && Distinct(plans) && g == Group(plans, key) && k + 1 < |g|
    requires Planned(g) && Reads(m, plans)
    ensures Covers(m, g)
    ensures Reported(ReportsOf(plans, key, m), g[k], g[k + 1]) <==>
            SourceSteps(g, k) && m[g[k]].last != 0 && m[g[k + 1]].last != 0
  {
    CheckedInOrder(plans, key, m);
    PlannedBoundsAre(plans, key, m, g, k);
    PlannedBoundsAre(plans, key, m, g, k + 1);
    SeamOfPlan(g, k);
    GroupDistinct(plans, key);
    PairReported(plans, key, m, g, k);
  }

  lemma {:induction false} PlannedBoundsAre(plans: seq<FilePlan>, key: Key, m: BoundsMap, g: seq<FilePlan>, k: nat)
    requires Covers(m, plans) && g == Group(plans, key) && k < |g| && Planned(g) && Reads(m, plans)
    ensures g[k] in m && m[g[k]] == PlannedBounds(g)[k]
  {
    GroupHas(plans, key, g[k]);
    var i :| 0 <= i < |plans| && plans[i] == g[k];
  }

  lemma {:induction false} ChainOfTwo(g: seq<FilePlan>)
    requires |g| == 2
    ensures Chain(g) == g[0].segments + g[1].segments && Shares(g)[1].start == |g[0].segments|
  {
    var one := Init(g);
    var none := Init(one);
    assert none == [] && Chain(none) == [] && Chain(one) == g[0].segments;
  }

  lemma {:induction false} PlanOfTwo(c: seq<Raw>)
    requires c == [Raw(0, 5, 10), Raw(0, 0, 0)]
    ensures Head(c, 0) == 0 == Head(c, 1) && Decisions(c)[1] == Decision(0, Noop, false)
  {
    assert GroupEnd(c, 1) == 2 && GroupEnd(c, 0) == 2;
    assert MinLag(c, 0, 1) == 0 && MinLag(c, 0, 2) == 0;
  }

  lemma {:induction false} TwoInOrder(plans: seq<FilePlan>, key: Key)
    requires |plans| == 2 && forall i :: 0 <= i < 2 ==> plans[i].key == key && !plans[i].skipped
    requires plans[0].firstEvent <= plans[1].firstEvent
    ensures Group(plans, key) == plans
  {
    var one := Init(plans);
    var none := Init(one);
    assert none == [] && Of(one, key) == one && Of(plans, key) == plans;
    assert SortByEvent(none) == [] && SortByEvent(one) == one;
  }

  lemma {:induction false} SecondEndsAtZero(g: seq<FilePlan>, m: BoundsMap)
    requires |g| == 2 && Covers(m, g) && m[g[1]].last == 0
    ensures StepsIn(NonZero(g, m), m) == []
  {
    var one := Init(g);
    assert NonZero(g, m) == NonZero(one, m);
    assert Init(one) == [] && NonZero(Init(one), m) == [];
  }

  /** Two planned files of one key, both with a first event at 0: times 5 to 10 in the first, a single 0 in the second.
      The source stepped back, nothing is shifted, and the check stays silent because the second file ends at zero. */
  lemma {:induction false} ZeroBoundCounterexample(plans: seq<FilePlan>, key: Key, m: BoundsMap, s: SegmentPlan,
                                                   t: SegmentPlan)
    requires |plans| == 2 && plans[0].segments == [s] && plans[1].segments == [t]
    requires forall i :: 0 <= i < 2 ==> plans[i].key == key && !plans[i].skipped && plans[i].firstEvent == 0
    requires s.raw == Raw(0, 5, 10) && t.raw == Raw(0, 0, 0)
    requires Planned(plans) && Covers(m, plans) && Reads(m, plans)
    ensures Group(plans, key) == plans && SourceSteps(plans, 0) && ReportsOf(plans, key, m) == []
  {
    TwoInOrder(plans, key);
    ChainOfTwo(plans);
    PlanOfTwo(Raws(Chain(plans)));
    PlannedBoundsAre(plans, key, m, plans, 1);
    assert m[plans[1]].last == 0;
    CheckedInOrder(plans, key, m);
    SecondEndsAtZero(plans, m);
  }

  lemma {:induction false} GroupDistinct(plans: seq<FilePlan>, key: Key)
    requires Distinct(plans)
    ensures Distinct(Group(plans, key))
  {
    OfDistinct(plans, key);
    SortDistinct(Of(plans, key));
  }

  lemma {:induction false} PairReported(plans: seq<FilePlan>, key: Key, m: BoundsMap, g: seq<FilePlan>, k: nat)
    requires Covers(m, plans) && g == Group(plans, key) && Distinct(g) && k + 1 < |g| && Covers(m, g)
    ensures Reported(ReportsOf(plans, key, m), g[k], g[k + 1]) <==>
            m[g[k]].last != 0 && m[g[k + 1]].last != 0 && m[g[k + 1]].first < m[g[k]].last
  {
    var b := BoundsIn(g, m);
    var r := Report(g[k], g[k + 1], b[k].last - b[k + 1].first);
    ArchiveReportsExactly(plans, key, m, r);
    if m[g[k]].last != 0 && m[g[k + 1]].last != 0 && m[g[k + 1]].first < m[g[k]].last {
      assert ReportedAt(g, b, k, k + 1, r);
    }
    if s :| s in ReportsOf(plans, key, m) && s.previous == g[k] && s.current == g[k + 1] {
      ArchiveReportsExactly(plans, key, m, s);
      var p, q :| ReportedAt(g, b, p, q, s);
      assert p == k && q == k + 1;
    }
  }
}
