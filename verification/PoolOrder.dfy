/** In which orders the runner can deliver its findings. */
module PoolOrder {
  import opened Sequences
  import opened Sorting
  import opened Findings
  import opened Registry
  import opened Pool
  import opened PoolLaws

  // ---------- One worker ----------

  /** How many checks have been executed, when a single worker takes them in turn. */
  function ExecutedByOne(s: State): nat
    requires |s.workers| == 1
  {
    if s.workers[0].Running? && s.next > 0 then s.next - 1 else s.next
  }

  ghost predicate InTurn(s: State) {
    && |s.workers| == 1
    && (s.workers[0].Running? || s.workers[0].Sending? ==> s.workers[0].job == s.next - 1)
    && s.report + Unsent(s.workers[0]) == Concat(Outputs(s.outputs, ExecutedByOne(s)))
  }

  lemma {:induction false} OutputsBefore(outputs: map<nat, seq<Finding>>, n: nat, job: nat, out: seq<Finding>)
    requires n <= job
    ensures Outputs(outputs[job := out], n) == Outputs(outputs, n)
  {
    if n > 0 {
      OutputsBefore(outputs, n - 1, job, out);
    }
  }

  lemma ExecuteInTurn(cfg: Config, s: State, w: nat, out: seq<Finding>)
    requires Good(cfg, s) && Enabled(cfg, s, Execute(w, out)) && InTurn(s)
    ensures InTurn(Apply(cfg, s, Execute(w, out)))
  {
    hide WorkersOk, JobsOk, ShutdownOk, Outputs, Concat;
    OneExecutes(cfg, s);
    assert s.workers[0] == Running(s.next - 1);
    OutputsExtended(s.outputs, s.next - 1, out);
  }

  lemma OneExecutes(cfg: Config, s: State)
    requires Good(cfg, s) && InTurn(s) && s.workers[0].Running?
    ensures s.next > 0
  {
    assert WorkerOk(s, s.workers[0]);
  }

  lemma OutputsExtended(outputs: map<nat, seq<Finding>>, n: nat, out: seq<Finding>)
    ensures Concat(Outputs(outputs[n := out], n + 1)) == Concat(Outputs(outputs, n)) + out
  {
    OutputsBefore(outputs, n, n, out);
    ConcatSnoc(Outputs(outputs, n), out);
  }

  lemma SendInTurn(cfg: Config, s: State, w: nat)
    requires Good(cfg, s) && Enabled(cfg, s, Send(w)) && InTurn(s)
    ensures InTurn(Apply(cfg, s, Send(w)))
  {
    MoveOne(s.report, s.workers[0].rest);
  }

  lemma StepInTurn(cfg: Config, s: State, step: Step)
    requires Good(cfg, s) && Enabled(cfg, s, step) && InTurn(s)
    ensures InTurn(Apply(cfg, s, step))
  {
    hide Concat, Outputs, Good, Allowed;
    match step
    case Execute(w, out) => ExecuteInTurn(cfg, s, w, out);
    case Send(w) => SendInTurn(cfg, s, w);
    case _ =>
  }

  lemma {:induction false} RunInTurn(cfg: Config, steps: seq<Step>)
    requires IsRun(cfg, steps) && WorkerCount(cfg) == 1
    ensures InTurn(EndOf(cfg, steps))
    decreases |steps|
  {
    hide InTurn, Enabled, Apply;
    if steps == [] {
      StartInTurn(cfg);
    } else {
      var init := steps[..|steps| - 1];
      RunInTurn(cfg, init);
      ReachableIsGood(cfg, init);
      StepInTurn(cfg, EndOf(cfg, init), steps[|steps| - 1]);
    }
  }

  lemma StartInTurn(cfg: Config)
    requires WorkerCount(cfg) == 1
    ensures InTurn(Start(cfg))
  {
  }

  /** A single worker reports what the checks returned in list order. */
  lemma OneWorkerKeepsOrder(cfg: Config, steps: seq<Step>)
    requires Finished(cfg, steps) && WorkerCount(cfg) == 1
    ensures EndOf(cfg, steps).report == Concat(Results(cfg, steps))
  {
    RunInTurn(cfg, steps);
    ReachableIsGood(cfg, steps);
    var s := EndOf(cfg, steps);
    assert s.workers[0] == Exited;
  }

  // ---------- When the findings come out sorted ----------

  ghost predicate SortedByCheck(report: seq<Finding>) {
    forall i, j :: 0 <= i < j < |report| ==> StrLe(report[i].check, report[j].check)
  }

  ghost predicate FromChecks(list: seq<Check>, outs: seq<seq<Finding>>) {
    && |outs| <= |list|
    && forall j, f {:trigger f in outs[j]} :: 0 <= j < |outs| && f in outs[j] ==> f.check == list[j].id
  }

  lemma OriginNamesCheck(list: seq<Check>, report: seq<Finding>, outs: seq<seq<Finding>>, origin: seq<nat>, i: nat)
    requires FromChecks(list, outs) && MergedBy(report, outs, origin) && i < |report|
    ensures origin[i] < |outs| && report[i].check == list[origin[i]].id
  {
    FromContains(report, origin, i);
    assert report[i] in outs[origin[i]];
  }

  lemma DistinctIdsOf(list: seq<Check>, i: nat, j: nat)
    requires IdsIncrease(list) && i < |list| && j < |list|
    ensures list[i].id == list[j].id <==> i == j
  {
    StrLeTotal(list[i].id, list[i].id);
    if i < j {
      assert StrLt(list[i].id, list[j].id);
    } else if j < i {
      assert StrLt(list[j].id, list[i].id);
    }
  }

  lemma {:induction false} ConcatSorted(list: seq<Check>, outs: seq<seq<Finding>>)
    requires IdsIncrease(list) && FromChecks(list, outs)
    ensures SortedByCheck(Concat(outs))
  {
    if outs != [] {
      var init, last := outs[..|outs| - 1], outs[|outs| - 1];
      assert forall j, f :: 0 <= j < |init| && f in init[j] ==> f in outs[j];
      ConcatSorted(list, init);
      var all := Concat(init) + last;
      forall i, j | 0 <= i < j < |all|
        ensures StrLe(all[i].check, all[j].check)
      {
        if j >= |Concat(init)| {
          assert all[j] in outs[|outs| - 1];
          EarlierCheck(list, outs, all[i], i < |Concat(init)|);
        }
      }
    }
  }

  lemma EarlierCheck(list: seq<Check>, outs: seq<seq<Finding>>, f: Finding, earlier: bool)
    requires IdsIncrease(list) && FromChecks(list, outs) && outs != []
    requires if earlier then f in Concat(outs[..|outs| - 1]) else f in outs[|outs| - 1]
    ensures StrLe(f.check, list[|outs| - 1].id)
  {
    StrLeTotal(f.check, list[|outs| - 1].id);
    if earlier {
      ConcatMembers(outs[..|outs| - 1], f);
      var k :| 0 <= k < |outs| - 1 && f in outs[..|outs| - 1][k];
      assert f in outs[k];
      assert StrLt(list[k].id, list[|outs| - 1].id);
    }
  }

  /** The promise of a report sorted by check ID, over all complete runs that are not cut short. */
  ghost predicate AlwaysSorted(cfg: Config) {
    forall steps {:trigger Finished(cfg, steps)} ::
      Finished(cfg, steps) && EndOf(cfg, steps).ctx == Live && OwnIds(cfg, EndOf(cfg, steps)) ==>
        SortedByCheck(EndOf(cfg, steps).report)
  }

  lemma ResultsFromChecks(cfg: Config, steps: seq<Step>)
    requires Finished(cfg, steps) && OwnIds(cfg, EndOf(cfg, steps))
    ensures FromChecks(cfg.list, Results(cfg, steps))
  {
    ReachableIsGood(cfg, steps);
  }

  lemma FewChecksSorted(cfg: Config, steps: seq<Step>)
    requires Finished(cfg, steps) && OwnIds(cfg, EndOf(cfg, steps)) && |cfg.list| <= 1
    ensures SortedByCheck(EndOf(cfg, steps).report)
  {
    var report, outs := EndOf(cfg, steps).report, Results(cfg, steps);
    RunDelivers(cfg, steps);
    ResultsFromChecks(cfg, steps);
    forall i, j | 0 <= i < j < |report|
      ensures StrLe(report[i].check, report[j].check)
    {
      assert report[i] in multiset(report) && report[j] in multiset(report);
      ConcatMembers(outs, report[i]);
      ConcatMembers(outs, report[j]);
      StrLeTotal(report[i].check, report[j].check);
    }
  }

  /** The second worker executes the second check while the first is still at the first one. */
  lemma SecondIsFaster(cfg: Config) returns (steps: seq<Step>)
    requires WorkerCount(cfg) >= 2 && |cfg.list| >= 2
    ensures IsRun(cfg, steps)
    ensures var s := EndOf(cfg, steps);
      && s.ctx == Live && s.main == WaitingForWorkers && !s.findingsClosed && !s.collectorDone && !s.panicked
      && |s.workers| >= 2 && s.workers[0] == Running(0) && s.workers[1] == Sending(1, [Skipped(cfg.list[1].id)])
      && s.report == [] && s.outputs == map[1 := [Skipped(cfg.list[1].id)]]
  {
    steps := [];
    steps := Then(cfg, steps, Dispatch(0));
    steps := Then(cfg, steps, Dispatch(1));
    steps := Then(cfg, steps, Execute(1, [Skipped(cfg.list[1].id)]));
  }

  /** Two workers can overtake each other: the second check's finding arrives first. */
  lemma OvertakingRun(cfg: Config) returns (steps: seq<Step>)
    requires WorkerCount(cfg) >= 2 && |cfg.list| >= 2
    ensures IsRun(cfg, steps) && EndOf(cfg, steps).ctx == Live && OwnIds(cfg, EndOf(cfg, steps))
    ensures EndOf(cfg, steps).report == [Skipped(cfg.list[1].id), Skipped(cfg.list[0].id)]
  {
    steps := SecondIsFaster(cfg);
    steps := Then(cfg, steps, Send(1));
    steps := Then(cfg, steps, Execute(0, [Skipped(cfg.list[0].id)]));
    steps := Then(cfg, steps, Send(0));
  }

  lemma Then(cfg: Config, steps: seq<Step>, step: Step) returns (more: seq<Step>)
    requires IsRun(cfg, steps) && Enabled(cfg, EndOf(cfg, steps), step)
    ensures IsRun(cfg, more) && EndOf(cfg, more) == Apply(cfg, EndOf(cfg, steps), step) && more == steps + [step]
  {
    RunSnoc(cfg, Start(cfg), steps, step);
    more := steps + [step];
  }

  /**
    The report is always sorted by check ID exactly when there is one worker or at most
    one check; in every other case some complete run delivers it unsorted.
   */
  lemma SortedExactly(cfg: Config)
    requires IdsIncrease(cfg.list)
    ensures AlwaysSorted(cfg) <==> WorkerCount(cfg) == 1 || |cfg.list| <= 1
  {
    if WorkerCount(cfg) == 1 || |cfg.list| <= 1 {
      forall steps | Finished(cfg, steps) && OwnIds(cfg, EndOf(cfg, steps))
        ensures SortedByCheck(EndOf(cfg, steps).report)
      {
        if WorkerCount(cfg) == 1 {
          OneWorkerKeepsOrder(cfg, steps);
          ResultsFromChecks(cfg, steps);
          ConcatSorted(cfg.list, Results(cfg, steps));
        } else {
          FewChecksSorted(cfg, steps);
        }
      }
    } else {
      var start := OvertakingRun(cfg);
      var steps := Complete(cfg, start);
      var report := EndOf(cfg, steps).report;
      assert report[0] == Skipped(cfg.list[1].id) && report[1] == Skipped(cfg.list[0].id);
      assert StrLt(cfg.list[0].id, cfg.list[1].id);
    }
  }
}
