/** The whole archive: grouping its files by broker and symbol, planning every group, and checking every group. */
module Archive {
  import opened Prelude
  import opened AnchorRepair
  import opened AnchorPlanning
  import opened ArchiveContinuity

  // ---- the files of one key, in order of their first event ----------------------------------------

  /** The files of a key that are not skipped, in the order given. */
  function Of(plans: seq<FilePlan>, key: Key): seq<FilePlan> {
    if plans == [] then []
    else if Last(plans).key == key && !Last(plans).skipped then Of(Init(plans), key) + [Last(plans)]
    else Of(Init(plans), key)
  }

  /** A stable sort by first event. */
  function Insert(s: seq<FilePlan>, p: FilePlan): seq<FilePlan> {
    if s == [] || Last(s).firstEvent <= p.firstEvent then s + [p] else Insert(Init(s), p) + [Last(s)]
  }

  function SortByEvent(s: seq<FilePlan>): seq<FilePlan> {
    if s == [] then [] else Insert(SortByEvent(Init(s)), Last(s))
  }

  function Group(plans: seq<FilePlan>, key: Key): seq<FilePlan> {
    SortByEvent(Of(plans, key))
  }

  predicate InEventOrder(s: seq<FilePlan>) {
    forall i, j :: 0 <= i < j < |s| ==> s[i].firstEvent <= s[j].firstEvent
  }

  lemma {:induction false} InsertHas(s: seq<FilePlan>, p: FilePlan, x: FilePlan)
    ensures x in Insert(s, p) <==> x in s || x == p
  {
    if s != [] && Last(s).firstEvent > p.firstEvent {
      InsertHas(Init(s), p, x);
      assert s == Init(s) + [Last(s)];
    }
  }

  lemma {:induction false} SortHas(s: seq<FilePlan>, x: FilePlan)
    ensures x in SortByEvent(s) <==> x in s
  {
    if s != [] {
      SortHas(Init(s), x);
      InsertHas(SortByEvent(Init(s)), Last(s), x);
      assert s == Init(s) + [Last(s)];
    }
  }

  lemma {:induction false} OfHas(plans: seq<FilePlan>, key: Key, x: FilePlan)
    ensures x in Of(plans, key) <==> x in plans && x.key == key && !x.skipped
  {
    if plans != [] {
      OfHas(Init(plans), key, x);
      assert plans == Init(plans) + [Last(plans)];
    }
  }

  /** A group holds exactly the files of its key that are not skipped. */
  lemma {:induction false} GroupHas(plans: seq<FilePlan>, key: Key, x: FilePlan)
    ensures x in Group(plans, key) <==> x in plans && x.key == key && !x.skipped
  {
    OfHas(plans, key, x);
    SortHas(Of(plans, key), x);
  }

  lemma {:induction false} InsertDistinct(s: seq<FilePlan>, p: FilePlan)
    requires Distinct(s) && p !in s
    ensures Distinct(Insert(s, p))
  {
    if s != [] && Last(s).firstEvent > p.firstEvent {
      var q := Init(s);
      InsertDistinct(q, p);
      InsertHas(q, p, Last(s));
      assert Last(s) !in q;
      AppendDistinct(Insert(q, p), Last(s));
    } else {
      AppendDistinct(s, p);
    }
  }

  lemma AppendDistinct<T>(s: seq<T>, x: T)
    requires Distinct(s) && x !in s
    ensures Distinct(s + [x])
  {
  }

  lemma {:induction false} SortDistinct(s: seq<FilePlan>)
    requires Distinct(s)
    ensures Distinct(SortByEvent(s))
  {
    if s != [] {
      SortDistinct(Init(s));
      SortHas(Init(s), Last(s));
      InsertDistinct(SortByEvent(Init(s)), Last(s));
    }
  }

  lemma {:induction false} OfDistinct(plans: seq<FilePlan>, key: Key)
    requires Distinct(plans)
    ensures Distinct(Of(plans, key))
  {
    if plans != [] {
      OfDistinct(Init(plans), key);
      OfHas(Init(plans), key, Last(plans));
    }
  }

  lemma {:induction false} InsertInOrder(s: seq<FilePlan>, p: FilePlan)
    requires InEventOrder(s)
    ensures InEventOrder(Insert(s, p))
  {
    if s != [] && Last(s).firstEvent > p.firstEvent {
      var q, x := Init(s), Last(s);
      InsertInOrder(q, p);
      var r := Insert(q, p);
      forall i | 0 <= i < |r| ensures r[i].firstEvent <= x.firstEvent {
        InsertHas(q, p, r[i]);
      }
    }
  }

  /** A group is in the order of its files' first events. */
  lemma {:induction false} SortInOrder(s: seq<FilePlan>)
    ensures InEventOrder(SortByEvent(s))
  {
    if s != [] {
      SortInOrder(Init(s));
      InsertInOrder(SortByEvent(Init(s)), Last(s));
    }
  }

  // ---- no two groups share anything ---------------------------------------------------------------

  /** Every segment belongs to one file, once. */
  ghost predicate OwnSegments(plans: seq<FilePlan>) {
    && (forall p :: p in plans ==> Distinct(p.segments))
    && (forall p, q :: p in plans && q in plans && p != q ==> Separate(p, q))
  }

  ghost predicate Separate(p: FilePlan, q: FilePlan) {
    forall s :: s in p.segments ==> s !in q.segments
  }

  lemma {:induction false} ChainHas(plans: seq<FilePlan>, s: SegmentPlan)
    ensures s in Chain(plans) <==> exists i :: 0 <= i < |plans| && s in plans[i].segments
  {
    if plans != [] {
      ChainHas(Init(plans), s);
      assert forall i :: 0 <= i < |plans| - 1 ==> plans[i] == Init(plans)[i];
    }
  }

  lemma ConcatDistinct<T>(a: seq<T>, b: seq<T>)
    requires Distinct(a) && Distinct(b) && forall x :: x in a ==> x !in b
    ensures Distinct(a + b)
  {
    var c := a + b;
    forall i, j | 0 <= i < j < |c| ensures c[i] != c[j] {
      if i < |a| <= j {
        assert c[i] in a && c[j] in b;
      }
    }
  }

  lemma {:induction false} ChainDistinct(plans: seq<FilePlan>)
    requires Distinct(plans) && OwnSegments(plans)
    ensures Distinct(Chain(plans))
  {
    if plans != [] {
      var p, x := Init(plans), Last(plans);
      ChainDistinct(p);
      forall s | s in Chain(p) ensures s !in x.segments {
        ChainHas(p, s);
        var i :| 0 <= i < |p| && s in p[i].segments;
        assert Separate(p[i], x);
      }
      ConcatDistinct(Chain(p), x.segments);
    }
  }

  /** A group can be planned like a symbol of its own. */
  lemma {:induction false} GroupReady(plans: seq<FilePlan>, key: Key)
    requires Distinct(plans) && OwnSegments(plans)
    requires forall p :: p in plans && !p.skipped ==> p.segments != []
    ensures var g := Group(plans, key); NonEmpty(g) && Distinct(g) && Distinct(Chain(g))
  {
    var g := Group(plans, key);
    OfDistinct(plans, key);
    SortDistinct(Of(plans, key));
    forall x | x in g ensures x in plans && !x.skipped {
      GroupHas(plans, key, x);
    }
    ChainDistinct(g);
  }

  lemma {:induction false} OwnerOf(plans: seq<FilePlan>, key: Key, s: SegmentPlan) returns (p: FilePlan)
    requires s in Chain(Group(plans, key))
    ensures p in plans && p.key == key && s in p.segments
  {
    var g := Group(plans, key);
    ChainHas(g, s);
    var i :| 0 <= i < |g| && s in g[i].segments;
    p := g[i];
    GroupHas(plans, key, p);
  }

  lemma {:induction false} SegmentsApart(plans: seq<FilePlan>, k: Key, l: Key, s: SegmentPlan)
    requires OwnSegments(plans) && k != l && s in Chain(Group(plans, k))
    ensures s !in Chain(Group(plans, l))
  {
    var p := OwnerOf(plans, k, s);
    if s in Chain(Group(plans, l)) {
      var q := OwnerOf(plans, l, s);
      assert false;
    }
  }

  lemma {:induction false} GroupWithin(plans: seq<FilePlan>, all: seq<SegmentPlan>, key: Key, g: seq<FilePlan>,
                                       chain: seq<SegmentPlan>)
    requires all == Chain(plans) && g == Group(plans, key) && chain == Chain(g)
    ensures forall i :: 0 <= i < |g| ==> g[i] in plans
    ensures forall i :: 0 <= i < |chain| ==> chain[i] in all
  {
    forall i | 0 <= i < |g| ensures g[i] in plans {
      GroupHas(plans, key, g[i]);
    }
    forall i | 0 <= i < |chain| ensures chain[i] in all {
      var p := OwnerOf(plans, key, chain[i]);
      ChainHas(plans, chain[i]);
    }
  }

  // ---- planning -----------------------------------------------------------------------------------

  /** What a grouping dictionary holds for a key. */
  function Held(groups: map<Key, seq<FilePlan>>, key: Key): seq<FilePlan> {
    if key in groups then groups[key] else []
  }

  /** Append a file to the list of its key. */
  function Added(groups: map<Key, seq<FilePlan>>, p: FilePlan): map<Key, seq<FilePlan>> {
    groups[p.key := Held(groups, p.key) + [p]]
  }

  method GroupByKey(plans: seq<FilePlan>) returns (groups: map<Key, seq<FilePlan>>)
    ensures forall key :: Held(groups, key) == Of(plans, key)
  {
    groups := map[];
    for i := 0 to |plans|
      invariant forall key :: Held(groups, key) == Of(plans[..i], key)
    {
      assert Init(plans[..i + 1]) == plans[..i] && Last(plans[..i + 1]) == plans[i];
      if !plans[i].skipped {
        groups := Added(groups, plans[i]);
      }
    }
    assert plans[..|plans|] == plans;
  }

  /** The values planning has written so far, object by object. */
  datatype Written = Written(ds: map<SegmentPlan, Decision>, b: map<FilePlan, Bounds>)

  ghost predicate Stands(w: Written)
    reads w.ds.Keys, w.b.Keys
  {
    && (forall s :: s in w.ds ==> s.decision == Some(w.ds[s]))
    && (forall p :: p in w.b ==> Bounds(p.firstCollected, p.lastCollected) == w.b[p])
  }

  /** The values are those a group should carry. */
  ghost predicate Records(w: Written, files: seq<FilePlan>, chain: seq<SegmentPlan>, ds: seq<Decision>,
                          b: seq<Bounds>) {
    && |ds| == |chain| && |b| == |files|
    && (forall i :: 0 <= i < |chain| ==> chain[i] in w.ds && w.ds[chain[i]] == ds[i])
    && (forall k :: 0 <= k < |files| ==> files[k] in w.b && w.b[files[k]] == b[k])
  }

  lemma RecordsCarry(w: Written, files: seq<FilePlan>, chain: seq<SegmentPlan>, ds: seq<Decision>, b: seq<Bounds>)
    requires Stands(w) && Records(w, files, chain, ds, b)
    ensures Carries(files, chain, ds, b)
  {
  }

  ghost predicate Untouched(w: Written, files: seq<FilePlan>, chain: seq<SegmentPlan>) {
    && (forall s :: s in w.ds ==> s !in chain)
    && (forall p :: p in w.b ==> p !in files)
  }

  ghost predicate Grows(w: Written, w': Written, files: seq<FilePlan>, chain: seq<SegmentPlan>) {
    && w'.ds.Keys == w.ds.Keys + (set s | s in chain) && (forall s :: s in w.ds ==> w'.ds[s] == w.ds[s])
    && w'.b.Keys == w.b.Keys + (set p | p in files) && (forall p :: p in w.b ==> w'.b[p] == w.b[p])
  }

  /** Note down what the objects of a planned group carry. */
  lemma NoteDown(w: Written, files: seq<FilePlan>, chain: seq<SegmentPlan>, ds: seq<Decision>, b: seq<Bounds>)
    returns (w': Written)
    requires Stands(w) && Untouched(w, files, chain) && Carries(files, chain, ds, b)
    ensures Stands(w') && Grows(w, w', files, chain) && Records(w', files, chain, ds, b)
  {
    assert forall s :: s in chain ==> s.decision.Some?;
    w' := Written(w.ds + map s | s in chain :: s.decision.value,
                  w.b + map p | p in files :: Bounds(p.firstCollected, p.lastCollected));
  }

  /** Plan one group and leave what was written before. */
  method PlanBeside(g: seq<FilePlan>, ghost chain: seq<SegmentPlan>, ghost ds: seq<Decision>, ghost b: seq<Bounds>,
                    ghost w: Written)
    requires NonEmpty(g) && Distinct(g) && Distinct(chain) && chain == Chain(g)
    requires IsLayout(Shares(g), |chain|) && ds == DecisionsOf(g) && b == PlannedBounds(g)
    requires Stands(w) && Untouched(w, g, chain)
    modifies g, chain
    ensures Carries(g, chain, ds, b) && Stands(w)
  {
    PlanSymbol(g, chain, ds, b);
  }

  lemma StillRecords(w: Written, w': Written, files: seq<FilePlan>, chain: seq<SegmentPlan>,
                     a: seq<FilePlan>, c: seq<SegmentPlan>, ds: seq<Decision>, b: seq<Bounds>)
    requires Grows(w, w', files, chain) && Records(w, a, c, ds, b)
    ensures Records(w', a, c, ds, b)
  {
  }

  ghost predicate Recorded(w: Written, g: seq<FilePlan>) {
    && IsLayout(Shares(g), |Chain(g)|)
    && Records(w, g, Chain(g), DecisionsOf(g), PlannedBounds(g))
  }

  /** The groups of the keys in `done` are planned, and nothing else is written. */
  ghost predicate Progress(plans: seq<FilePlan>, done: set<Key>, w: Written) {
    && (forall k :: k in done ==> Recorded(w, Group(plans, k)))
    && (forall p :: p in w.b ==> p.key in done)
    && (forall s :: s in w.ds ==> WithinDone(plans, done, s))
  }

  lemma {:induction false} NextIsUntouched(plans: seq<FilePlan>, done: set<Key>, w: Written, key: Key)
    requires OwnSegments(plans) && Progress(plans, done, w) && key !in done
    ensures Untouched(w, Group(plans, key), Chain(Group(plans, key)))
  {
    forall s | s in w.ds ensures s !in Chain(Group(plans, key)) {
      var k :| k in done && s in Chain(Group(plans, k));
      SegmentsApart(plans, k, key, s);
    }
    forall p | p in w.b ensures p !in Group(plans, key) {
      GroupHas(plans, key, p);
    }
  }

  lemma {:induction false} ProgressGrows(plans: seq<FilePlan>, done: set<Key>, w: Written, w': Written, key: Key,
                                         g: seq<FilePlan>)
    requires Progress(plans, done, w) && g == Group(plans, key) && Grows(w, w', g, Chain(g)) && Recorded(w', g)
    ensures Progress(plans, done + {key}, w')
  {
    forall k | k in done ensures Recorded(w', Group(plans, k)) {
      StillRecorded(w, w', g, Group(plans, k));
    }
    FilesOfDone(plans, done, w, w', key, g);
    SegmentsOfDone(plans, done, w, w', key, g);
  }

  lemma {:induction false} StillRecorded(w: Written, w': Written, g: seq<FilePlan>, a: seq<FilePlan>)
    requires Grows(w, w', g, Chain(g)) && Recorded(w, a)
    ensures Recorded(w', a)
  {
    StillRecords(w, w', g, Chain(g), a, Chain(a), DecisionsOf(a), PlannedBounds(a));
  }

  lemma {:induction false} FilesOfDone(plans: seq<FilePlan>, done: set<Key>, w: Written, w': Written, key: Key,
                                       g: seq<FilePlan>)
    requires (forall p :: p in w.b ==> p.key in done) && g == Group(plans, key) && Grows(w, w', g, Chain(g))
    ensures forall p :: p in w'.b ==> p.key in done + {key}
  {
    forall p | p in w'.b ensures p.key in done + {key} {
      GroupHas(plans, key, p);
    }
  }

  ghost predicate WithinDone(plans: seq<FilePlan>, done: set<Key>, s: SegmentPlan) {
    exists k :: k in done && s in Chain(Group(plans, k))
  }

  lemma {:induction false} SegmentsOfDone(plans: seq<FilePlan>, done: set<Key>, w: Written, w': Written, key: Key,
                                          g: seq<FilePlan>)
    requires (forall s :: s in w.ds ==> WithinDone(plans, done, s)) && g == Group(plans, key)
             && Grows(w, w', g, Chain(g))
    ensures forall s :: s in w'.ds ==> WithinDone(plans, done + {key}, s)
  {
    forall s | s in w'.ds ensures WithinDone(plans, done + {key}, s) {
      if s in w.ds {
        var k :| k in done && s in Chain(Group(plans, k));
        assert k in done + {key};
      } else {
        assert key in done + {key} && s in Chain(Group(plans, key));
      }
    }
  }

  /** One key of the loop. */
  method PlanKey(plans: seq<FilePlan>, key: Key, g: seq<FilePlan>, ghost chain: seq<SegmentPlan>, ghost done: set<Key>,
                 ghost w: Written)
    returns (ghost w': Written)
    requires Distinct(plans) && OwnSegments(plans) && g == Group(plans, key) && chain == Chain(g)
    requires forall p :: p in plans && !p.skipped ==> p.segments != []
    requires key !in done && Progress(plans, done, w) && Stands(w)
    modifies g, chain
    ensures Progress(plans, done + {key}, w') && Stands(w')
  {
    GroupReady(plans, key);
    SharesAreLayout(g);
    NextIsUntouched(plans, done, w, key);
    ghost var ds, b := DecisionsOf(g), PlannedBounds(g);
    PlanBeside(g, chain, ds, b, w);
    w' := NoteDown(w, g, chain, ds, b);
    ProgressGrows(plans, done, w, w', key, g);
  }

  /** `plan_shifts`: every group of files that are not skipped ends up planned, in the order of first events. */
  method PlanShifts(plans: seq<FilePlan>, ghost all: seq<SegmentPlan>)
    requires Distinct(plans) && OwnSegments(plans) && all == Chain(plans)
    requires forall p :: p in plans && !p.skipped ==> p.segments != []
    modifies plans, all
    ensures forall key :: Planned(Group(plans, key))
  {
    var groups := GroupByKey(plans);
    var todo := groups.Keys;
    ghost var done, w := {}, Written(map[], map[]);
    while todo != {}
      invariant done + todo == groups.Keys && done !! todo
      invariant Progress(plans, done, w) && Stands(w)
    {
      var key :| key in todo;
      var g := SortByEvent(groups[key]);
      assert Held(groups, key) == Of(plans, key);
      ghost var chain := Chain(g);
      GroupWithin(plans, all, key, g, chain);
      w := PlanKey(plans, key, g, chain, done, w);
      MoveKey(done, todo, key);
      todo, done := todo - {key}, done + {key};
    }
    forall key ensures Planned(Group(plans, key)) {
      assert Held(groups, key) == Of(plans, key);
      PlannedWhenRecorded(plans, key, done, w);
    }
  }

  lemma MoveKey(done: set<Key>, todo: set<Key>, key: Key)
    requires done !! todo && key in todo
    ensures (done + {key}) + (todo - {key}) == done + todo && (done + {key}) !! (todo - {key})
  {
  }

  lemma {:induction false} PlannedWhenRecorded(plans: seq<FilePlan>, key: Key, done: set<Key>, w: Written)
    requires Progress(plans, done, w) && Stands(w) && (key !in done ==> Of(plans, key) == [])
    ensures Planned(Group(plans, key))
  {
    var g := Group(plans, key);
    if key in done {
      RecordsCarry(w, g, Chain(g), DecisionsOf(g), PlannedBounds(g));
    } else {
      assert g == [];
    }
  }
}
