/** The execution coordinator: running scenarios one by one, or collecting them from a pool in any order. */
module ScenarioExecution {
  import opened Prelude

  datatype Issue = Text(text: string) | NoPackage(index: nat, name: string, packages: nat)

  datatype Validation = Validation(isValid: bool, scenarioName: string, errors: seq<Issue>, warnings: seq<string>)

  datatype Scenario = Scenario(name: string, settings: string, validation: seq<Validation>)

  type Package = string

  datatype Config = Config(scenario: Scenario, index: nat, runGroup: Option<string>)

  datatype Message =
    | NoMessage | Plain(text: string) | Logged(errors: nat) | NoResults | NoFailures | Failed(failures: seq<Validation>)

  datatype ProcessResult = ProcessResult(
    success: bool, scenarioName: string, scenarioIndex: nat, errorType: Option<string>, message: Message,
    traceback: Option<string>, tickLoopResults: Option<string>, logBuffer: Option<string>)

  datatype Crash = Crash(errorType: string, text: string, traceback: string)

  // ---- one run ------------------------------------------------------------------------------------

  /** How the guarded part of a run ends: with the results of the tick loop, or with an exception, which finds a log
      buffer only once the scenario's logger exists. */
  datatype Ending =
    | Finished(loopError: Option<Crash>, loggedErrors: nat, results: string, log: string)
    | Escaped(crash: Crash, buffer: Option<string>)

  /** The run group only chooses where the logs go, so an ending is a function of the scenario, its index and its
      package. */
  type Work = (Scenario, nat, Package) -> Ending

  /** `process_main`: whatever happens in the guarded part, a result comes back. */
  function ProcessMain(work: Work, c: Config, p: Package): ProcessResult {
    var name, i := c.scenario.name, c.index;
    match work(c.scenario, i, p)
    case Finished(Some(e), _, results, log) =>
      ProcessResult(false, name, i, Some(e.errorType), Plain(e.text), Some(e.traceback), Some(results), Some(log))
    case Finished(None, errors, results, log) =>
      if errors > 0 then
        ProcessResult(false, name, i, Some("LoggedErrors"), Logged(errors), None, Some(results), Some(log))
      else ProcessResult(true, name, i, None, NoMessage, None, Some(results), Some(log))
    case Escaped(e, buffer) =>
      ProcessResult(false, name, i, Some(e.errorType), Plain(e.text), Some(e.traceback), None, buffer)
  }

  /** The directory of a run's logs; an empty group is no group. */
  function LogDirectory(root: string, group: Option<string>, scenarioSet: string, stamp: string): string {
    var groupRoot := if group.Some? && group.value != "" then root + "/" + group.value else root;
    groupRoot + "/" + scenarioSet + "/" + stamp
  }

  // ---- validation -------------------------------------------------------------------------------

  predicate IsValid(s: Scenario) {
    forall k :: 0 <= k < |s.validation| ==> s.validation[k].isValid
  }

  function Failures(vs: seq<Validation>): (r: seq<Validation>)
    ensures forall k :: 0 <= k < |r| ==> !r[k].isValid
  {
    if vs == [] then [] else if Last(vs).isValid then Failures(Init(vs)) else Failures(Init(vs)) + [Last(vs)]
  }

  function ListReport(vs: seq<Validation>): Message {
    if vs == [] then NoResults else if Failures(vs) == [] then NoFailures else Failed(Failures(vs))
  }

  function FailedResult(s: Scenario, idx: nat): ProcessResult {
    ProcessResult(false, s.name, idx, Some("ValidationError"), ListReport(s.validation), None, None, None)
  }

  /** What the coordinator files for a future that fails in the pool. */
  function CrashResult(name: string, idx: nat, c: Crash): ProcessResult {
    ProcessResult(false, name, idx, Some(c.errorType), Plain(c.text), Some(c.traceback), None, None)
  }

  function Missing(s: Scenario, idx: nat, packages: nat): Validation {
    Validation(false, s.name, [NoPackage(idx, s.name, packages)], [])
  }

  // ---- what every slot should hold ----------------------------------------------------------------

  predicate Runnable(ss: seq<Scenario>, ps: map<nat, Package>, i: nat)
    requires i < |ss|
  {
    IsValid(ss[i]) && i in ps
  }

  /** A valid scenario without a package gains a validation error. */
  function Marked(s: Scenario, ps: map<nat, Package>, i: nat): Scenario {
    if IsValid(s) && i !in ps then s.(validation := s.validation + [Missing(s, i, |ps|)]) else s
  }

  function MarkUpTo(ss: seq<Scenario>, ps: map<nat, Package>, n: nat): (r: seq<Scenario>)
    requires n <= |ss|
    ensures |r| == |ss|
    ensures forall i :: 0 <= i < |ss| ==> r[i] == if i < n then Marked(ss[i], ps, i) else ss[i]
  {
    seq(|ss|, i requires 0 <= i < |ss| => if i < n then Marked(ss[i], ps, i) else ss[i])
  }

  /** The result of scenario i when the futures in `lost` fail in the pool; nothing is lost without a pool. */
  function Slot(ss: seq<Scenario>, ps: map<nat, Package>, work: Work, lost: map<nat, Crash>, i: nat): ProcessResult
    requires i < |ss|
  {
    if !Runnable(ss, ps, i) then FailedResult(Marked(ss[i], ps, i), i)
    else if i in lost then CrashResult(ss[i].name, i, lost[i])
    else ProcessMain(work, Config(ss[i], i, None), ps[i])
  }

  /** The result list in scenario order. */
  function Slots(ss: seq<Scenario>, ps: map<nat, Package>, work: Work, lost: map<nat, Crash>)
    : (r: seq<Option<ProcessResult>>)
    ensures |r| == |ss| && forall i :: 0 <= i < |ss| ==> r[i] == Some(Slot(ss, ps, work, lost, i))
  {
    seq(|ss|, i requires 0 <= i < |ss| => Some(Slot(ss, ps, work, lost, i)))
  }

  /** The configurations of the runnable scenarios among the first n. */
  function ConfigsAmong(ss: seq<Scenario>, ps: map<nat, Package>, group: Option<string>, n: nat): set<Config>
    requires n <= |ss|
  {
    set i: nat | i < n && Runnable(ss, ps, i) :: Config(ss[i], i, group)
  }

  /** `ran` lists the runs of the runnable scenarios among the first n, each exactly once. */
  predicate RanExactly(ss: seq<Scenario>, ps: map<nat, Package>, group: Option<string>, n: nat, ran: seq<Config>)
    requires n <= |ss|
  {
    multiset(ran) == multiset(ConfigsAmong(ss, ps, group, n))
  }

  lemma RanOneMore(ss: seq<Scenario>, ps: map<nat, Package>, group: Option<string>, n: nat, ran: seq<Config>)
    requires n < |ss| && RanExactly(ss, ps, group, n, ran)
    ensures RanExactly(ss, ps, group, n + 1, if Runnable(ss, ps, n) then ran + [Config(ss[n], n, group)] else ran)
  {
    ConfigsOneMore(ss, ps, group, n);
  }

  lemma ConfigsOneMore(ss: seq<Scenario>, ps: map<nat, Package>, group: Option<string>, n: nat)
    requires n < |ss|
    ensures var before, c := ConfigsAmong(ss, ps, group, n), Config(ss[n], n, group);
            c !in before && ConfigsAmong(ss, ps, group, n + 1) == if Runnable(ss, ps, n) then before + {c} else before
  {
    forall c: Config
      ensures c in ConfigsAmong(ss, ps, group, n) <==>
              c.index < n && Runnable(ss, ps, c.index) && c == Config(ss[c.index], c.index, group)
      ensures c in ConfigsAmong(ss, ps, group, n + 1) <==>
              c.index < n + 1 && Runnable(ss, ps, c.index) && c == Config(ss[c.index], c.index, group)
    {
    }
  }

  // ---- theorems -----------------------------------------------------------------------------------

  lemma {:induction false} NoFailuresExactly(vs: seq<Validation>)
    ensures Failures(vs) == [] <==> forall k :: 0 <= k < |vs| ==> vs[k].isValid
  {
    if vs != [] {
      NoFailuresExactly(Init(vs));
      assert forall k :: 0 <= k < |vs| - 1 ==> vs[k] == Init(vs)[k];
    }
  }

  lemma {:induction false} FailuresConcat(a: seq<Validation>, b: seq<Validation>)
    ensures Failures(a + b) == Failures(a) + Failures(b)
  {
    if b == [] {
      assert a + b == a;
    } else {
      FailuresConcat(a, Init(b));
      assert Init(a + b) == a + Init(b);
    }
  }

  /** The failures are the invalid validations, each as often as it occurs, in their order: those of `a` before the ones
      that follow. */
  lemma {:induction false} FailuresExactly(a: seq<Validation>, v: Validation, b: seq<Validation>)
    ensures Failures(a + [v] + b) == Failures(a) + (if v.isValid then [] else [v]) + Failures(b)
  {
    FailuresConcat(a + [v], b);
    FailuresConcat(a, [v]);
    assert Init([v]) == [];
  }

  /** The scenario was not filtered out: every validation holds and it has its data. */
  predicate MayRun(ss: seq<Scenario>, ps: map<nat, Package>, i: nat)
    requires i < |ss|
  {
    i in ps && forall k :: 0 <= k < |ss[i].validation| ==> ss[i].validation[k].isValid
  }

  /** A result that reports an exception: its type, text and traceback, and whatever was saved. */
  predicate Reports(r: ProcessResult, e: Crash, results: Option<string>, log: Option<string>) {
    && !r.success && r.errorType == Some(e.errorType) && r.message == Plain(e.text) && r.traceback == Some(e.traceback)
    && r.tickLoopResults == results && r.logBuffer == log
  }

  /** Every slot of the vector, by what happened to its scenario: it succeeds exactly if it may run, its future is not
      lost, its tick loop ends without an error and nothing was logged as one; whatever a failed run saved is kept, and
      each kind of failure names its error. */
  lemma ResultExactly(ss: seq<Scenario>, ps: map<nat, Package>, work: Work, lost: map<nat, Crash>, i: nat)
    requires i < |ss|
    ensures Slots(ss, ps, work, lost)[i].Some?
    ensures var r := Slots(ss, ps, work, lost)[i].value;
            && r.scenarioName == ss[i].name && r.scenarioIndex == i
            && (r.success <==> r.errorType == None)
            && if !MayRun(ss, ps, i) then
                 r.errorType == Some("ValidationError") && r.tickLoopResults == None && r.logBuffer == None
               else if i in lost then Reports(r, lost[i], None, None)
               else
                 match work(ss[i], i, ps[i])
                 case Escaped(e, buffer) => Reports(r, e, None, buffer)
                 case Finished(Some(e), _, results, log) => Reports(r, e, Some(results), Some(log))
                 case Finished(None, errors, results, log) =>
                   && r.tickLoopResults == Some(results) && r.logBuffer == Some(log)
                   && (r.success <==> errors == 0)
                   && (errors > 0 ==> r.errorType == Some("LoggedErrors") && r.message == Logged(errors))
  {
  }

  /** A skipped scenario always names its failures; one skipped for its package names exactly that. */
  lemma {:induction false} SkipNamesFailures(ss: seq<Scenario>, ps: map<nat, Package>, work: Work,
                                             lost: map<nat, Crash>, i: nat)
    requires i < |ss| && !Runnable(ss, ps, i)
    ensures var r := Slot(ss, ps, work, lost, i);
            && !r.success && r.scenarioName == ss[i].name && r.scenarioIndex == i
            && r.message.Failed? && r.message.failures != []
            && (IsValid(ss[i]) ==>
                  r.message.failures == [Validation(false, ss[i].name, [NoPackage(i, ss[i].name, |ps|)], [])])
            && (!IsValid(ss[i]) ==> r.message.failures == Failures(ss[i].validation))
  {
    var vs := ss[i].validation;
    NoFailuresExactly(vs);
    var more := vs + [Missing(ss[i], i, |ps|)];
    assert Init(more) == vs;
  }

  /** Marking again changes nothing, and a marked list is judged like the list it came from. */
  lemma MarkedAgain(ss: seq<Scenario>, ps: map<nat, Package>, i: nat)
    requires i < |ss|
    ensures var m := MarkUpTo(ss, ps, |ss|);
            && Marked(m[i], ps, i) == m[i] && (Runnable(m, ps, i) <==> Runnable(ss, ps, i))
            && (Runnable(ss, ps, i) ==> m[i] == ss[i])
  {
    var s := ss[i];
    if IsValid(s) && i !in ps {
      var more := s.validation + [Missing(s, i, |ps|)];
      assert !more[|s.validation|].isValid;
    }
  }

  /** A second execution over the marked scenarios gives the same vector, and marks no more. */
  lemma RerunGivesSameVector(ss: seq<Scenario>, ps: map<nat, Package>, work: Work, lost: map<nat, Crash>)
    ensures var m := MarkUpTo(ss, ps, |ss|);
            && Slots(m, ps, work, lost) == Slots(ss, ps, work, lost)
            && MarkUpTo(m, ps, |m|) == m
  {
    var m := MarkUpTo(ss, ps, |ss|);
    forall i | 0 <= i < |ss|
      ensures Slot(m, ps, work, lost, i) == Slot(ss, ps, work, lost, i) && Marked(m[i], ps, i) == m[i]
    {
      MarkedAgain(ss, ps, i);
    }
  }

  /** The guarded part of scenario i escaped before its logger existed, with the very exception of the pool. */
  predicate EscapesAlike(ss: seq<Scenario>, ps: map<nat, Package>, work: Work, crash: Crash, i: nat)
    requires i < |ss| && Runnable(ss, ps, i)
  {
    work(ss[i], i, ps[i]) == Escaped(crash, None)
  }

  lemma LostSlot(ss: seq<Scenario>, ps: map<nat, Package>, work: Work, lost: map<nat, Crash>, i: nat)
    requires i < |ss|
    ensures Slot(ss, ps, work, lost, i) == Slot(ss, ps, work, map[], i) <==>
            (i in lost && Runnable(ss, ps, i) ==> EscapesAlike(ss, ps, work, lost[i], i))
  {
  }

  /** The pool changes the vector exactly through a future that fails in it, unless the run itself would have ended in
      the same exception before it had a logger. */
  lemma ParallelIsSequentialExactly(ss: seq<Scenario>, ps: map<nat, Package>, work: Work, lost: map<nat, Crash>)
    ensures Slots(ss, ps, work, lost) == Slots(ss, ps, work, map[]) <==>
            forall i :: 0 <= i < |ss| && i in lost && Runnable(ss, ps, i) ==> EscapesAlike(ss, ps, work, lost[i], i)
  {
    var a, b := Slots(ss, ps, work, lost), Slots(ss, ps, work, map[]);
    forall i | 0 <= i < |ss|
      ensures a[i] == b[i] <==> (i in lost && Runnable(ss, ps, i) ==> EscapesAlike(ss, ps, work, lost[i], i))
    {
      LostSlot(ss, ps, work, lost, i);
    }
    assert a == b <==> forall i :: 0 <= i < |ss| ==> a[i] == b[i];
  }

  /** For runs that reach their logger, both executions agree exactly when no run is lost in the pool. */
  lemma AgreeUnlessLost(ss: seq<Scenario>, ps: map<nat, Package>, work: Work, lost: map<nat, Crash>)
    requires forall i :: 0 <= i < |ss| && Runnable(ss, ps, i) ==>
               work(ss[i], i, ps[i]).Finished? || work(ss[i], i, ps[i]).buffer.Some?
    ensures Slots(ss, ps, work, lost) == Slots(ss, ps, work, map[]) <==>
            forall i :: 0 <= i < |ss| && Runnable(ss, ps, i) ==> i !in lost
  {
    ParallelIsSequentialExactly(ss, ps, work, lost);
    forall i | 0 <= i < |ss| && i in lost && Runnable(ss, ps, i) ensures !EscapesAlike(ss, ps, work, lost[i], i) {
    }
  }

  function LogDirectories(configs: set<Config>, root: string, scenarioSet: string, stamp: string): set<string> {
    set c | c in configs :: LogDirectory(root, c.runGroup, scenarioSet, stamp)
  }

  /** Where the logs of a sweep's run lie, and those of a run without a group. */
  lemma LogPaths()
    ensures LogDirectory("l", Some("g/7"), "s", "t") == "l/g/7/s/t" && LogDirectory("l", None, "s", "t") == "l/s/t"
  {
  }

  lemma DirectoryOfGroup(root: string, group: Option<string>, scenarioSet: string, stamp: string)
    ensures LogDirectory(root, group, scenarioSet, stamp) == LogDirectory(root, None, scenarioSet, stamp) <==>
            group.None? || group.value == ""
  {
    if group.Some? && group.value != "" {
      assert |LogDirectory(root, group, scenarioSet, stamp)| > |LogDirectory(root, None, scenarioSet, stamp)|;
    }
  }

  /** Only sequential execution passes the run group on. The logs of the two land in the same place exactly when there
      is no group or nothing runs. */
  lemma GroupReachesLogsExactly(ss: seq<Scenario>, ps: map<nat, Package>, group: Option<string>, root: string,
                                scenarioSet: string, stamp: string)
    ensures LogDirectories(ConfigsAmong(ss, ps, group, |ss|), root, scenarioSet, stamp)
            == LogDirectories(ConfigsAmong(ss, ps, None, |ss|), root, scenarioSet, stamp) <==>
            group.None? || group.value == "" || forall i :: 0 <= i < |ss| ==> !Runnable(ss, ps, i)
  {
    var a, b := ConfigsAmong(ss, ps, group, |ss|), ConfigsAmong(ss, ps, None, |ss|);
    var x, y := LogDirectory(root, group, scenarioSet, stamp), LogDirectory(root, None, scenarioSet, stamp);
    DirectoryOfGroup(root, group, scenarioSet, stamp);
    if i :| 0 <= i < |ss| && Runnable(ss, ps, i) {
      assert Config(ss[i], i, group) in a && Config(ss[i], i, None) in b;
      assert LogDirectories(a, root, scenarioSet, stamp) == {x};
      assert LogDirectories(b, root, scenarioSet, stamp) == {y};
      assert x in {x} && (x in {y} ==> x == y);
    } else {
      assert a == {} && b == {};
    }
  }

  // ---- the coordinator ----------------------------------------------------------------------------

  /** A submitted run: the snapshot of its arguments. */
  datatype Future = Future(config: Config, package: Package)

  function FutureOf(ss: seq<Scenario>, ps: map<nat, Package>, i: nat): Future
    requires i < |ss| && Runnable(ss, ps, i)
  {
    Future(Config(ss[i], i, None), ps[i])
  }

  /** The futures of the runnable scenarios among the first n, each mapped to its scenario. */
  predicate FuturesOf(ss: seq<Scenario>, ps: map<nat, Package>, n: nat, futures: map<Future, nat>)
    requires n <= |ss|
  {
    && (forall f :: f in futures ==> var i := futures[f]; i < n && Runnable(ss, ps, i) && f == FutureOf(ss, ps, i))
    && (forall i :: 0 <= i < n && Runnable(ss, ps, i) ==>
         FutureOf(ss, ps, i) in futures && futures[FutureOf(ss, ps, i)] == i)
  }

  function NotPending(ss: seq<Scenario>, ps: map<nat, Package>, pending: set<Future>): set<Config> {
    set i: nat | i < |ss| && Runnable(ss, ps, i) && FutureOf(ss, ps, i) !in pending :: Config(ss[i], i, None)
  }

  /** `ran` lists the runs whose futures are no longer pending, each exactly once. */
  predicate Completed(ss: seq<Scenario>, ps: map<nat, Package>, pending: set<Future>, ran: seq<Config>) {
    multiset(ran) == multiset(NotPending(ss, ps, pending))
  }

  lemma CompletedOneMore(ss: seq<Scenario>, ps: map<nat, Package>, pending: set<Future>, ran: seq<Config>, i: nat)
    requires Completed(ss, ps, pending, ran) && i < |ss| && Runnable(ss, ps, i) && FutureOf(ss, ps, i) in pending
    ensures Completed(ss, ps, pending - {FutureOf(ss, ps, i)}, ran + [Config(ss[i], i, None)])
  {
    var before, c := NotPending(ss, ps, pending), Config(ss[i], i, None);
    assert c !in before;
    assert NotPending(ss, ps, pending - {FutureOf(ss, ps, i)}) == before + {c};
  }

  lemma NonePending(ss: seq<Scenario>, ps: map<nat, Package>, futures: map<Future, nat>)
    requires FuturesOf(ss, ps, |ss|, futures)
    ensures NotPending(ss, ps, {}) == ConfigsAmong(ss, ps, None, |ss|) && NotPending(ss, ps, futures.Keys) == {}
  {
  }

  /** The slots of the first n scenarios are filled. */
  predicate FilledUpTo(ss: seq<Scenario>, ps: map<nat, Package>, work: Work, n: nat,
                       results: seq<Option<ProcessResult>>) {
    n <= |ss| == |results| && forall i :: 0 <= i < n ==> results[i] == Some(Slot(ss, ps, work, map[], i))
  }

  lemma FilledOneMore(ss: seq<Scenario>, ps: map<nat, Package>, work: Work, n: nat, results: seq<Option<ProcessResult>>)
    requires FilledUpTo(ss, ps, work, n, results) && n < |ss|
    ensures FilledUpTo(ss, ps, work, n + 1, results[n := Some(Slot(ss, ps, work, map[], n))])
  {
  }

  lemma FilledIsSlots(ss: seq<Scenario>, ps: map<nat, Package>, work: Work, results: seq<Option<ProcessResult>>)
    requires FilledUpTo(ss, ps, work, |ss|, results)
    ensures results == Slots(ss, ps, work, map[])
  {
  }

  class ExecutionCoordinator {
    const runGroup: Option<string>
    const work: Work

    constructor (runGroup: Option<string>, work: Work)
      ensures this.runGroup == runGroup && this.work == work
    {
      this.runGroup := runGroup;
      this.work := work;
    }

    /** Skip a scenario: append the extra error, if there is one, and report all its failures. */
    method CreateValidationFailedResult(scenarios: array<Scenario>, idx: nat, extra: Option<Issue>)
      returns (r: ProcessResult)
      requires idx < scenarios.Length
      modifies scenarios
      ensures scenarios[..] == old(scenarios[..])[idx := scenarios[idx]]
      ensures extra.None? ==> scenarios[idx] == old(scenarios[idx])
      ensures extra.Some? ==>
        var s := old(scenarios[idx]);
        scenarios[idx] == s.(validation := s.validation + [Validation(false, s.name, [extra.value], [])])
      ensures r == FailedResult(scenarios[idx], idx)
    {
      var s := scenarios[idx];
      if extra.Some? {
        s := s.(validation := s.validation + [Validation(false, s.name, [extra.value], [])]);
        scenarios[idx] := s;
      }
      r := FailedResult(s, idx);
    }

    /** Skip the scenario at idx if it cannot run; every other scenario stays as it is. */
    method SkipUnlessRunnable(scenarios: array<Scenario>, ps: map<nat, Package>, idx: nat, ghost ss: seq<Scenario>)
      returns (skipped: Option<ProcessResult>)
      requires idx < scenarios.Length == |ss| && scenarios[..] == MarkUpTo(ss, ps, idx)
      modifies scenarios
      ensures scenarios[..] == MarkUpTo(ss, ps, idx + 1)
      ensures skipped.None? <==> Runnable(ss, ps, idx)
      ensures skipped.Some? ==> skipped.value == FailedResult(Marked(ss[idx], ps, idx), idx)
      ensures skipped.None? ==> scenarios[idx] == ss[idx]
    {
      skipped := None;
      assert scenarios[idx] == scenarios[..][idx] == ss[idx];
      if !IsValid(scenarios[idx]) {
        var r := CreateValidationFailedResult(scenarios, idx, None);
        skipped := Some(r);
      } else if idx !in ps {
        var r := CreateValidationFailedResult(scenarios, idx, Some(NoPackage(idx, scenarios[idx].name, |ps|)));
        skipped := Some(r);
      }
      assert scenarios[idx] == Marked(ss[idx], ps, idx);
      assert scenarios[..] == MarkUpTo(ss, ps, idx + 1);
    }

    /** One scenario of the sequential loop: skipped or run to its result. */
    method ExecuteOne(scenarios: array<Scenario>, ps: map<nat, Package>, idx: nat, ghost ss: seq<Scenario>)
      returns (r: ProcessResult, ran: Option<Config>)
      requires idx < scenarios.Length == |ss| && scenarios[..] == MarkUpTo(ss, ps, idx)
      modifies scenarios
      ensures scenarios[..] == MarkUpTo(ss, ps, idx + 1)
      ensures ran == if Runnable(ss, ps, idx) then Some(Config(ss[idx], idx, runGroup)) else None
      ensures r == Slot(ss, ps, work, map[], idx)
    {
      var skipped := SkipUnlessRunnable(scenarios, ps, idx, ss);
      if skipped.Some? {
        return skipped.value, None;
      }
      var config := Config(scenarios[idx], idx, runGroup);
      return ProcessMain(work, config, ps[idx]), Some(config);
    }

    /** Scenarios in order. Every run comes back with a result, so the whole list does. */
    method ExecuteSequential(scenarios: array<Scenario>, ps: map<nat, Package>)
      returns (r: seq<Option<ProcessResult>>, ran: seq<Config>)
      modifies scenarios
      ensures r == Slots(old(scenarios[..]), ps, work, map[])
      ensures scenarios[..] == MarkUpTo(old(scenarios[..]), ps, scenarios.Length)
      ensures RanExactly(old(scenarios[..]), ps, runGroup, scenarios.Length, ran)
    {
      ghost var ss := scenarios[..];
      r := seq(scenarios.Length, _ => None);
      ran := [];
      for idx := 0 to scenarios.Length
        invariant scenarios[..] == MarkUpTo(ss, ps, idx)
        invariant FilledUpTo(ss, ps, work, idx, r)
        invariant RanExactly(ss, ps, runGroup, idx, ran)
      {
        RanOneMore(ss, ps, runGroup, idx, ran);
        FilledOneMore(ss, ps, work, idx, r);
        var one, executed := ExecuteOne(scenarios, ps, idx, ss);
        if executed.Some? {
          ran := ran + [executed.value];
        }
        r := r[idx := Some(one)];
      }
      FilledIsSlots(ss, ps, work, r);
    }

    /** Submit every runnable scenario; fill the slots of the others at once. */
    method Submit(scenarios: array<Scenario>, ps: map<nat, Package>, ghost lost: map<nat, Crash>)
      returns (results: seq<Option<ProcessResult>>, futures: map<Future, nat>)
      modifies scenarios
      ensures var ss := old(scenarios[..]);
              && scenarios[..] == MarkUpTo(ss, ps, |ss|)
              && FuturesOf(ss, ps, |ss|, futures)
              && |results| == |ss|
              && forall i :: 0 <= i < |ss| ==>
                results[i] == if Runnable(ss, ps, i) then None else Some(Slot(ss, ps, work, lost, i))
    {
      ghost var ss := scenarios[..];
      results := seq(scenarios.Length, _ => None);
      futures := map[];
      for idx := 0 to scenarios.Length
        invariant scenarios[..] == MarkUpTo(ss, ps, idx)
        invariant |results| == |ss|
        invariant forall i :: 0 <= i < |ss| ==>
          results[i] == if i >= idx || Runnable(ss, ps, i) then None else Some(Slot(ss, ps, work, lost, i))
        invariant FuturesOf(ss, ps, idx, futures)
      {
        var skipped := SkipUnlessRunnable(scenarios, ps, idx, ss);
        if skipped.Some? {
          results := results[idx := skipped];
          continue;
        }
        futures := futures[Future(Config(scenarios[idx], idx, None), ps[idx]) := idx];
      }
    }

    /** Collect the futures in whatever order they complete; one that fails in the pool becomes a failed result. */
    method Collect(scenarios: array<Scenario>, ghost ps: map<nat, Package>, submitted: seq<Option<ProcessResult>>,
                   futures: map<Future, nat>, lost: map<nat, Crash>, ghost ss: seq<Scenario>)
      returns (results: seq<Option<ProcessResult>>, ran: seq<Config>)
      requires |submitted| == scenarios.Length == |ss| && FuturesOf(ss, ps, |ss|, futures)
      requires scenarios[..] == MarkUpTo(ss, ps, |ss|)
      requires forall i :: 0 <= i < |ss| ==>
        submitted[i] == if Runnable(ss, ps, i) then None else Some(Slot(ss, ps, work, lost, i))
      ensures results == Slots(ss, ps, work, lost)
      ensures RanExactly(ss, ps, None, |ss|, ran)
    {
      var pending := futures.Keys;
      NonePending(ss, ps, futures);
      results, ran := submitted, [];
      while pending != {}
        invariant pending <= futures.Keys && |results| == |ss|
        invariant forall i :: 0 <= i < |ss| ==>
          results[i] == if Runnable(ss, ps, i) && FutureOf(ss, ps, i) in pending then None
                        else Some(Slot(ss, ps, work, lost, i))
        invariant Completed(ss, ps, pending, ran)
      {
        var future :| future in pending;
        var idx := futures[future];
        assert future == FutureOf(ss, ps, idx);
        CompletedOneMore(ss, ps, pending, ran, idx);
        var result := if idx in lost then CrashResult(scenarios[idx].name, idx, lost[idx])
                      else ProcessMain(work, future.config, future.package);
        results := results[idx := Some(result)];
        pending := pending - {future};
        ran := ran + [future.config];
      }
    }

    /** All futures first, then all results: the vector does not depend on the completion order. */
    method ExecuteParallel(scenarios: array<Scenario>, ps: map<nat, Package>, lost: map<nat, Crash>)
      returns (r: seq<Option<ProcessResult>>, ran: seq<Config>)
      modifies scenarios
      ensures r == Slots(old(scenarios[..]), ps, work, lost)
      ensures scenarios[..] == MarkUpTo(old(scenarios[..]), ps, scenarios.Length)
      ensures RanExactly(old(scenarios[..]), ps, None, scenarios.Length, ran)
    {
      ghost var ss := scenarios[..];
      var results, futures := Submit(scenarios, ps, lost);
      r, ran := Collect(scenarios, ps, results, futures, lost, ss);
    }

    /** The batch's choice between the two, which no result shows unless the pool loses a run. */
    method Execute(parallelScenarios: bool, scenarios: array<Scenario>, ps: map<nat, Package>, lost: map<nat, Crash>)
      returns (r: seq<Option<ProcessResult>>, ran: seq<Config>)
      modifies scenarios
      ensures lost == map[] ==> r == Slots(old(scenarios[..]), ps, work, map[])
      ensures r == Slots(old(scenarios[..]), ps, work,
                         if parallelScenarios && scenarios.Length > 1 then lost else map[])
      ensures scenarios[..] == MarkUpTo(old(scenarios[..]), ps, scenarios.Length)
    {
      if parallelScenarios && scenarios.Length > 1 {
        r, ran := ExecuteParallel(scenarios, ps, lost);
      } else {
        r, ran := ExecuteSequential(scenarios, ps);
      }
    }
  }
}
