/** Safety and liveness of the check runner, over every schedule. */
module PoolLaws {
  import opened Sequences
  import opened Findings
  import opened Registry
  import opened Pool

  // ---------- Conservation ----------

  function Unsent(worker: Worker): seq<Finding> {
    if worker.Sending? then worker.rest else []
  }

  /** How many copies of `f` the workers still have to send. */
  function Pending(workers: seq<Worker>, f: Finding): nat {
    if workers == [] then 0
    else Pending(workers[..|workers| - 1], f) + multiset(Unsent(workers[|workers| - 1]))[f]
  }

  function OutputAt(outputs: map<nat, seq<Finding>>, job: nat): seq<Finding> {
    if job in outputs then outputs[job] else []
  }

  /** What the first `n` checks of the list have returned so far, check by check. */
  function Outputs(outputs: map<nat, seq<Finding>>, n: nat): (outs: seq<seq<Finding>>)
    ensures |outs| == n
    ensures forall j {:trigger outs[j]} :: 0 <= j < n ==> outs[j] == OutputAt(outputs, j)
  {
    if n == 0 then [] else Outputs(outputs, n - 1) + [OutputAt(outputs, n - 1)]
  }

  /** How many copies of `f` the first `n` checks have returned. */
  function Produced(outputs: map<nat, seq<Finding>>, n: nat, f: Finding): nat {
    if n == 0 then 0 else Produced(outputs, n - 1, f) + multiset(OutputAt(outputs, n - 1))[f]
  }

  ghost predicate Conserved(s: State, f: Finding) {
    multiset(s.report)[f] + Pending(s.workers, f) == Produced(s.outputs, s.next, f)
  }

  lemma {:induction false} PendingSet(workers: seq<Worker>, w: nat, worker: Worker, f: Finding)
    requires w < |workers|
    ensures Pending(workers[w := worker], f)
      == Pending(workers, f) - multiset(Unsent(workers[w]))[f] + multiset(Unsent(worker))[f]
  {
    hide Unsent;
    UpdateInit(workers, w, worker);
    if w < |workers| - 1 {
      PendingSet(workers[..|workers| - 1], w, worker, f);
    }
  }

  lemma {:induction false} NothingPending(workers: seq<Worker>, f: Finding)
    requires forall w {:trigger workers[w]} :: 0 <= w < |workers| ==> Unsent(workers[w]) == []
    ensures Pending(workers, f) == 0
  {
    if workers != [] {
      NothingPending(workers[..|workers| - 1], f);
    }
  }

  lemma {:induction false} ProducedSet(outputs: map<nat, seq<Finding>>, n: nat, job: nat, out: seq<Finding>, f: Finding)
    requires job !in outputs
    ensures Produced(outputs[job := out], n, f) == Produced(outputs, n, f) + if job < n then multiset(out)[f] else 0
  {
    if n > 0 {
      ProducedSet(outputs, n - 1, job, out, f);
    }
  }

  lemma {:induction false} ProducedIsCount(outputs: map<nat, seq<Finding>>, n: nat, f: Finding)
    ensures Produced(outputs, n, f) == multiset(Concat(Outputs(outputs, n)))[f]
  {
    hide Concat, OutputAt;
    if n == 0 {
      assert Outputs(outputs, 0) == [];
      NothingConcatenated<Finding>();
    } else {
      ProducedIsCount(outputs, n - 1, f);
      ConcatSnoc(Outputs(outputs, n - 1), OutputAt(outputs, n - 1));
    }
  }

  lemma NothingConcatenated<T>()
    ensures Concat<T>([]) == []
  {
  }

  lemma TakeOne(rest: seq<Finding>, f: Finding)
    requires rest != []
    ensures multiset(rest)[f] == multiset(rest[1..])[f] + if rest[0] == f then 1 else 0
  {
    assert rest == [rest[0]] + rest[1..];
  }

  lemma {:induction false} SendConserves(cfg: Config, s: State, w: nat, f: Finding)
    requires Good(cfg, s) && Enabled(cfg, s, Send(w)) && !s.findingsClosed && Conserved(s, f)
    ensures Conserved(Apply(cfg, s, Send(w)), f)
  {
    hide Good;
    var rest := s.workers[w].rest;
    PendingSet(s.workers, w, Sending(s.workers[w].job, rest[1..]), f);
    TakeOne(rest, f);
  }

  lemma ExecuteConserves(cfg: Config, s: State, w: nat, out: seq<Finding>, f: Finding)
    requires Good(cfg, s) && Enabled(cfg, s, Execute(w, out)) && Conserved(s, f)
    ensures Conserved(Apply(cfg, s, Execute(w, out)), f)
  {
    assert WorkerOk(s, s.workers[w]);
    PendingSet(s.workers, w, Sending(s.workers[w].job, out), f);
    ProducedSet(s.outputs, s.next, s.workers[w].job, out, f);
  }

  lemma DispatchConserves(cfg: Config, s: State, w: nat, f: Finding)
    requires Good(cfg, s) && Enabled(cfg, s, Dispatch(w)) && Conserved(s, f)
    ensures Conserved(Apply(cfg, s, Dispatch(w)), f)
  {
    hide WorkersOk, ShutdownOk;
    PendingSet(s.workers, w, Running(s.next), f);
    assert s.next !in s.outputs;
  }

  lemma NextJobConserves(cfg: Config, s: State, w: nat, f: Finding)
    requires Enabled(cfg, s, NextJob(w)) && Conserved(s, f)
    ensures Conserved(Apply(cfg, s, NextJob(w)), f)
  {
    PendingSet(s.workers, w, Idle, f);
  }

  lemma WorkerExitsConserves(cfg: Config, s: State, w: nat, f: Finding)
    requires Enabled(cfg, s, WorkerExits(w)) && Conserved(s, f)
    ensures Conserved(Apply(cfg, s, WorkerExits(w)), f)
  {
    PendingSet(s.workers, w, Exited, f);
  }

  /** Nothing else touches a worker or a finding. */
  lemma ControlConserves(cfg: Config, s: State, step: Step, f: Finding)
    requires Enabled(cfg, s, step) && Conserved(s, f)
    requires !step.Dispatch? && !step.Execute? && !step.NextJob? && !step.WorkerExits?
    requires step.Send? ==> s.findingsClosed
    ensures Conserved(Apply(cfg, s, step), f)
  {
  }

  lemma StepConserves(cfg: Config, s: State, step: Step, f: Finding)
    requires Good(cfg, s) && Enabled(cfg, s, step) && Conserved(s, f)
    ensures Conserved(Apply(cfg, s, step), f)
  {
    hide Apply, Conserved, Good;
    match step
    case Dispatch(w) => DispatchConserves(cfg, s, w, f);
    case Execute(w, out) => ExecuteConserves(cfg, s, w, out, f);
    case Send(w) =>
      if s.findingsClosed {
        ControlConserves(cfg, s, step, f);
      } else {
        SendConserves(cfg, s, w, f);
      }
    case NextJob(w) => NextJobConserves(cfg, s, w, f);
    case WorkerExits(w) => WorkerExitsConserves(cfg, s, w, f);
    case _ => ControlConserves(cfg, s, step, f);
  }

  lemma {:induction false} RunConserves(cfg: Config, s: State, steps: seq<Step>, f: Finding)
    requires Good(cfg, s) && Conserved(s, f) && CanRun(cfg, s, steps)
    ensures Conserved(After(cfg, s, steps), f)
    decreases |steps|
  {
    hide Conserved;
    if steps != [] {
      var init := steps[..|steps| - 1];
      RunConserves(cfg, s, init, f);
      RunKeepsGood(cfg, s, init);
      StepConserves(cfg, After(cfg, s, init), steps[|steps| - 1], f);
    }
  }

  /**
    In every reachable state, every finding has been collected or is still to be sent
    exactly as often as the checks executed so far have returned it.
   */
  lemma {:induction false} NothingLostOrInvented(cfg: Config, steps: seq<Step>, f: Finding)
    requires IsRun(cfg, steps)
    ensures var s := EndOf(cfg, steps);
      multiset(s.report)[f] + Pending(s.workers, f) == multiset(Concat(Outputs(s.outputs, s.next)))[f]
  {
    StartIsGood(cfg);
    NothingPending(Start(cfg).workers, f);
    RunConserves(cfg, Start(cfg), steps, f);
    ProducedIsCount(EndOf(cfg, steps).outputs, EndOf(cfg, steps).next, f);
  }

  // ---------- What a finished run returns ----------

  /** `report` merges the sequences in `outs`: nothing added, nothing dropped, each in its own order. */
  ghost predicate MergedBy(report: seq<Finding>, outs: seq<seq<Finding>>, origin: seq<nat>) {
    && |origin| == |report|
    && (forall i {:trigger origin[i]} :: 0 <= i < |origin| ==> origin[i] < |outs|)
    && forall j: nat {:trigger outs[j]} :: j < |outs| ==> From(report, origin, j) == outs[j]
  }

  ghost predicate Interleaves(report: seq<Finding>, outs: seq<seq<Finding>>) {
    exists origin :: MergedBy(report, outs, origin)
  }

  lemma {:induction false} MergedSubsequence(report: seq<Finding>, origin: seq<nat>, job: nat)
    requires |report| == |origin|
    ensures Subsequence(From(report, origin, job), report)
  {
    if report == [] {
      assert OccursAt(From(report, origin, job), report, []);
    } else {
      var init, f := report[..|report| - 1], report[|report| - 1];
      MergedSubsequence(init, origin[..|origin| - 1], job);
      SubsequenceSnoc(From(init, origin[..|origin| - 1], job), init, f);
      assert report == init + [f];
    }
  }

  lemma {:induction false} FromContains(report: seq<Finding>, origin: seq<nat>, i: nat)
    requires |report| == |origin| && i < |report|
    ensures report[i] in From(report, origin, origin[i])
  {
    if i < |report| - 1 {
      FromContains(report[..|report| - 1], origin[..|origin| - 1], i);
    }
  }

  lemma {:induction false} ShortenOne(outs: seq<seq<Finding>>, job: nat, init: seq<Finding>, f: Finding, g: Finding)
    requires job < |outs| && outs[job] == init + [f]
    ensures multiset(Concat(outs))[g] == multiset(Concat(outs[job := init]))[g] + if g == f then 1 else 0
  {
    UpdateInit(outs, job, init);
    if job < |outs| - 1 {
      ShortenOne(outs[..|outs| - 1], job, init, f, g);
    }
  }

  lemma {:induction false} AllEmpty(outs: seq<seq<Finding>>)
    requires forall j {:trigger outs[j]} :: 0 <= j < |outs| ==> outs[j] == []
    ensures Concat(outs) == []
  {
    if outs != [] {
      AllEmpty(outs[..|outs| - 1]);
    }
  }

  lemma MergedInit(report: seq<Finding>, outs: seq<seq<Finding>>, origin: seq<nat>)
    requires MergedBy(report, outs, origin) && report != []
    ensures var init, before, job := report[..|report| - 1], origin[..|origin| - 1], origin[|origin| - 1];
      && outs[job] == From(init, before, job) + [report[|report| - 1]]
      && MergedBy(init, outs[job := From(init, before, job)], before)
  {
    var init, before, job := report[..|report| - 1], origin[..|origin| - 1], origin[|origin| - 1];
    forall j: nat | j < |outs| && j != job
      ensures From(init, before, j) == outs[j]
    {
      assert From(report, origin, j) == From(init, before, j) + [];
    }
  }

  lemma {:induction false} MergedCount(report: seq<Finding>, outs: seq<seq<Finding>>, origin: seq<nat>, g: Finding)
    requires MergedBy(report, outs, origin)
    ensures multiset(report)[g] == multiset(Concat(outs))[g]
    decreases |report|
  {
    hide From;
    if report == [] {
      NothingMerged(outs, origin);
    } else {
      var init, f := report[..|report| - 1], report[|report| - 1];
      var before, job := origin[..|origin| - 1], origin[|origin| - 1];
      MergedInit(report, outs, origin);
      MergedCount(init, outs[job := From(init, before, job)], before, g);
      ShortenOne(outs, job, From(init, before, job), f, g);
      assert report == init + [f];
    }
  }

  lemma NothingMerged(outs: seq<seq<Finding>>, origin: seq<nat>)
    requires MergedBy([], outs, origin)
    ensures Concat(outs) == []
  {
    AllEmpty(outs);
  }

  lemma MergeFacts(report: seq<Finding>, outs: seq<seq<Finding>>)
    requires Interleaves(report, outs)
    ensures multiset(report) == multiset(Concat(outs))
    ensures forall j {:trigger outs[j]} :: 0 <= j < |outs| ==> Subsequence(outs[j], report)
  {
    var origin: seq<nat> :| MergedBy(report, outs, origin);
    forall g
      ensures multiset(report)[g] == multiset(Concat(outs))[g]
    {
      MergedCount(report, outs, origin, g);
    }
    forall j: nat | j < |outs|
      ensures Subsequence(outs[j], report)
    {
      MergedSubsequence(report, origin, j);
    }
  }

  ghost predicate Finished(cfg: Config, steps: seq<Step>) {
    IsRun(cfg, steps) && EndOf(cfg, steps).main.Returned?
  }

  /** What each dispatched check returned in the run, in list order. */
  ghost function Results(cfg: Config, steps: seq<Step>): seq<seq<Finding>>
    requires IsRun(cfg, steps)
  {
    Outputs(EndOf(cfg, steps).outputs, EndOf(cfg, steps).next)
  }

  lemma ExitedIsMerged(cfg: Config, s: State)
    requires Good(cfg, s) && s.main.Returned?
    ensures MergedBy(s.report, Outputs(s.outputs, s.next), s.origin)
    ensures forall j: nat {:trigger OutputAt(s.outputs, j)} :: j < s.next ==> Allowed(cfg, j, OutputAt(s.outputs, j))
  {
    forall j: nat | j < s.next
      ensures j in s.outputs && Allowed(cfg, j, s.outputs[j]) && From(s.report, s.origin, j) == s.outputs[j]
    {
      assert JobOk(cfg, s, j);
      assert !Busy(s, j);
    }
  }

  /**
    When `Run` returns, the dispatched checks are a prefix of the list (all of it if the
    context was never ended), the report merges exactly what they returned, and no
    goroutine is left behind.
   */
  lemma {:induction false} RunDelivers(cfg: Config, steps: seq<Step>)
    requires Finished(cfg, steps)
    ensures var s, outs := EndOf(cfg, steps), Results(cfg, steps);
      && |outs| <= |cfg.list|
      && (s.ctx == Live ==> |outs| == |cfg.list|)
      && (forall j {:trigger outs[j]} :: 0 <= j < |outs| ==> Allowed(cfg, j, outs[j]))
      && Interleaves(s.report, outs)
      && multiset(s.report) == multiset(Concat(outs))
      && (forall j {:trigger outs[j]} :: 0 <= j < |outs| ==> Subsequence(outs[j], s.report))
      && s.feeder == Gone && s.collectorDone
      && (forall w {:trigger s.workers[w]} :: 0 <= w < |s.workers| ==> s.workers[w] == Exited)
  {
    ReachableIsGood(cfg, steps);
    var s, outs := EndOf(cfg, steps), Results(cfg, steps);
    ExitedIsMerged(cfg, s);
    assert Interleaves(s.report, outs);
    MergeFacts(s.report, outs);
    assert WorkerOk(s, s.workers[0]);
  }

  /** The caller sees an error exactly when the deadline ended the run; a plain cancellation is not reported. */
  lemma ErrorExactly(cfg: Config, steps: seq<Step>)
    requires Finished(cfg, steps)
    ensures EndOf(cfg, steps).main.failed <==> EndOf(cfg, steps).ctx == DeadlineExceeded
  {
    ReachableIsGood(cfg, steps);
  }

  /** No send on a closed channel, and `findings` is closed only once every worker has left. */
  lemma {:induction false} NeverPanics(cfg: Config, steps: seq<Step>)
    requires IsRun(cfg, steps)
    ensures var s := EndOf(cfg, steps);
      && !s.panicked
      && (s.findingsClosed ==> forall w {:trigger s.workers[w]} :: 0 <= w < |s.workers| ==> s.workers[w] == Exited)
  {
    ReachableIsGood(cfg, steps);
  }

  /** A check whose capabilities are missing is reported as skipped, in every finished run that dispatched it. */
  lemma {:induction false} MissingIsSkipped(cfg: Config, steps: seq<Step>, job: nat)
    requires Finished(cfg, steps) && job < |Results(cfg, steps)| && job < |cfg.list|
    requires !AddsNothing(cfg.capabilities, cfg.list[job].needs)
    ensures Results(cfg, steps)[job]
         == [Finding(cfg.list[job].id, "SKIP", "", "missing required capability for this environment", map[], 0)]
    ensures Results(cfg, steps)[job][0] in EndOf(cfg, steps).report
  {
    hide Results, Interleaves, Subsequence, HasAll, AddsNothing;
    RunDelivers(cfg, steps);
    var outs := Results(cfg, steps);
    HasAllExactly(cfg.capabilities, cfg.list[job].needs);
    assert Allowed(cfg, job, outs[job]);
    ConcatMembers(outs, outs[job][0]);
    assert outs[job][0] in multiset(EndOf(cfg, steps).report);
  }

  /** All findings of one check carry the same duration. */
  lemma {:induction false} OneDurationPerCheck(cfg: Config, steps: seq<Step>, job: nat, i: nat, j: nat)
    requires Finished(cfg, steps) && job < |Results(cfg, steps)|
    requires i < |Results(cfg, steps)[job]| && j < |Results(cfg, steps)[job]|
    ensures Results(cfg, steps)[job][i].duration == Results(cfg, steps)[job][j].duration
  {
    hide Results, Interleaves, Subsequence, HasAll;
    RunDelivers(cfg, steps);
    var out := Results(cfg, steps)[job];
    assert Allowed(cfg, job, out);
    if i < j {
      assert out[i].duration == out[j].duration;
    } else if j < i {
      assert out[j].duration == out[i].duration;
    }
  }

  function JobsRunning(workers: seq<Worker>): set<nat> {
    set w {:trigger workers[w]} | 0 <= w < |workers| && workers[w].Running? :: workers[w].job
  }

  /** Never more checks at once than there are workers, and no check runs twice. */
  lemma {:induction false} BoundedConcurrency(cfg: Config, steps: seq<Step>)
    requires IsRun(cfg, steps)
    ensures var s := EndOf(cfg, steps);
      && |s.workers| == (if cfg.requested <= 0 then 8 else cfg.requested)
      && |JobsRunning(s.workers)| <= |s.workers|
      && (forall v, w {:trigger s.workers[v], s.workers[w]} ::
           0 <= v < w < |s.workers| && s.workers[v].Running? && s.workers[w].Running?
           ==> s.workers[v].job != s.workers[w].job)
      && (forall j {:trigger j in s.outputs} :: j in JobsRunning(s.workers) ==> j !in s.outputs)
  {
    ReachableIsGood(cfg, steps);
    var s := EndOf(cfg, steps);
    FewRunning(s.workers);
    forall v, w | 0 <= v < w < |s.workers| && s.workers[v].Running? && s.workers[w].Running?
      ensures s.workers[v].job != s.workers[w].job
    {
      assert Holds(s.workers[v], s.workers[v].job);
    }
    forall j | j in JobsRunning(s.workers)
      ensures j !in s.outputs
    {
      var w :| 0 <= w < |s.workers| && s.workers[w].Running? && s.workers[w].job == j;
      assert WorkerOk(s, s.workers[w]);
    }
  }

  lemma {:induction false} FewRunning(workers: seq<Worker>)
    ensures |JobsRunning(workers)| <= |workers|
  {
    if workers != [] {
      var init, last := workers[..|workers| - 1], workers[|workers| - 1];
      FewRunning(init);
      var more := if last.Running? then {last.job} else {};
      forall j | j in JobsRunning(workers)
        ensures j in JobsRunning(init) + more
      {
        var w :| 0 <= w < |workers| && workers[w].Running? && workers[w].job == j;
        assert w < |init| ==> init[w].Running? && init[w].job == j;
      }
      assert JobsRunning(workers) <= JobsRunning(init) + more;
      SubsetSize(JobsRunning(workers), JobsRunning(init) + more);
    }
  }

  lemma {:induction false} SubsetSize(a: set<nat>, b: set<nat>)
    requires a <= b
    ensures |a| <= |b|
  {
    if a != {} {
      var x :| x in a;
      SubsetSize(a - {x}, b - {x});
    }
  }

  // ---------- Progress ----------

  /** One way of returning that is always open to a check. */
  function SomeOutput(cfg: Config, job: nat): (out: seq<Finding>)
    requires job < |cfg.list|
    ensures Allowed(cfg, job, out)
  {
    if HasAll(cfg.capabilities, cfg.list[job].needs) then [] else [Skipped(cfg.list[job].id)]
  }

  /** As long as `Run` has not returned, some goroutine can move, whatever the context does. */
  lemma SomeStep(cfg: Config, s: State) returns (step: Step)
    requires Good(cfg, s) && !s.main.Returned?
    ensures !step.End? && Enabled(cfg, s, step)
    ensures step.Execute? ==> step.out == SomeOutput(cfg, s.workers[step.w].job)
  {
    if w :| 0 <= w < |s.workers| && (s.workers[w].Running? || s.workers[w].Sending?) {
      step := WorkerStep(cfg, s, w);
    } else if s.main != WaitingForWorkers {
      step := if s.main == ClosingFindings then CloseFindings
              else if s.collectorDone then MainReturns else CollectorEnds;
    } else {
      step := QuietStep(cfg, s);
    }
  }

  lemma WorkerStep(cfg: Config, s: State, w: nat) returns (step: Step)
    requires Good(cfg, s) && !s.main.Returned?
    requires w < |s.workers| && (s.workers[w].Running? || s.workers[w].Sending?)
    ensures !step.End? && Enabled(cfg, s, step)
    ensures step.Execute? ==> step.out == SomeOutput(cfg, s.workers[step.w].job)
  {
    assert WorkerOk(s, s.workers[w]);
    match s.workers[w]
    case Running(j) => step := Execute(w, SomeOutput(cfg, j));
    case Sending(j, rest) => step := if rest == [] then NextJob(w) else Send(w);
  }

  lemma QuietStep(cfg: Config, s: State) returns (step: Step)
    requires Good(cfg, s) && s.main == WaitingForWorkers
    requires forall w {:trigger s.workers[w]} :: 0 <= w < |s.workers| ==> s.workers[w] == Idle || s.workers[w] == Exited
    ensures !step.End? && !step.Execute? && Enabled(cfg, s, step)
  {
    NoneAtWork(s.workers);
    if w :| 0 <= w < |s.workers| && s.workers[w] == Idle {
      match s.feeder
      case Feeding => step := if s.next < |cfg.list| then Dispatch(w) else FeederLeaves;
      case Leaving => step := CloseJobs;
      case Gone => step := WorkerExits(w);
    } else {
      step := MainWakes;
    }
  }

  /** The pool is never stuck: a reachable state has no next step exactly when `Run` has returned. */
  lemma {:induction false} NoDeadlock(cfg: Config, steps: seq<Step>)
    requires IsRun(cfg, steps)
    ensures (exists step :: Enabled(cfg, EndOf(cfg, steps), step)) <==> !EndOf(cfg, steps).main.Returned?
  {
    ReachableIsGood(cfg, steps);
    var s := EndOf(cfg, steps);
    if !s.main.Returned? {
      var step := SomeStep(cfg, s);
    }
  }

  // ---------- Termination ----------

  function CountRunning(workers: seq<Worker>): nat {
    if workers == [] then 0
    else CountRunning(workers[..|workers| - 1]) + if workers[|workers| - 1].Running? then 1 else 0
  }

  function Load(worker: Worker): nat {
    match worker
    case Exited => 0
    case Sending(_, rest) => 2 + |rest|
    case _ => 1
  }

  function TotalLoad(workers: seq<Worker>): nat {
    if workers == [] then 0 else TotalLoad(workers[..|workers| - 1]) + Load(workers[|workers| - 1])
  }

  /** Executions still to come. */
  function Outer(cfg: Config, s: State): int {
    2 * (|cfg.list| - s.next) + CountRunning(s.workers)
  }

  /** Everything else still to come before the next execution. */
  function Inner(s: State): nat {
    TotalLoad(s.workers)
    + (match s.feeder case Feeding => 2 case Leaving => 1 case Gone => 0)
    + (match s.main
       case WaitingForWorkers => 3
       case ClosingFindings => 2
       case WaitingForCollector => 1
       case Returned(_) => 0)
    + (if s.collectorDone then 0 else 1)
    + (if s.ctx == Live then 1 else 0)
  }

  ghost predicate Less(cfg: Config, t: State, s: State) {
    0 <= Outer(cfg, t) <= Outer(cfg, s) && (Outer(cfg, t) == Outer(cfg, s) ==> Inner(t) < Inner(s))
  }

  lemma {:induction false} CountsSet(workers: seq<Worker>, w: nat, worker: Worker)
    requires w < |workers|
    ensures CountRunning(workers[w := worker])
         == CountRunning(workers) - (if workers[w].Running? then 1 else 0) + (if worker.Running? then 1 else 0)
    ensures TotalLoad(workers[w := worker]) == TotalLoad(workers) - Load(workers[w]) + Load(worker)
  {
    UpdateInit(workers, w, worker);
    if w < |workers| - 1 {
      CountsSet(workers[..|workers| - 1], w, worker);
    }
  }

  lemma DispatchDescends(cfg: Config, s: State, w: nat)
    requires Good(cfg, s) && Enabled(cfg, s, Dispatch(w))
    ensures Less(cfg, Apply(cfg, s, Dispatch(w)), s)
  {
    CountsSet(s.workers, w, Running(s.next));
  }

  lemma ExecuteDescends(cfg: Config, s: State, w: nat, out: seq<Finding>)
    requires Good(cfg, s) && Enabled(cfg, s, Execute(w, out))
    ensures Less(cfg, Apply(cfg, s, Execute(w, out)), s)
  {
    CountsSet(s.workers, w, Sending(s.workers[w].job, out));
  }

  lemma SendDescends(cfg: Config, s: State, w: nat)
    requires Good(cfg, s) && Enabled(cfg, s, Send(w))
    ensures Less(cfg, Apply(cfg, s, Send(w)), s)
  {
    SendsFindOpenChannel(cfg, s, w);
    CountsSet(s.workers, w, Sending(s.workers[w].job, s.workers[w].rest[1..]));
  }

  lemma NextJobDescends(cfg: Config, s: State, w: nat)
    requires Good(cfg, s) && Enabled(cfg, s, NextJob(w))
    ensures Less(cfg, Apply(cfg, s, NextJob(w)), s)
  {
    CountsSet(s.workers, w, Idle);
  }

  lemma WorkerExitsDescends(cfg: Config, s: State, w: nat)
    requires Good(cfg, s) && Enabled(cfg, s, WorkerExits(w))
    ensures Less(cfg, Apply(cfg, s, WorkerExits(w)), s)
  {
    CountsSet(s.workers, w, Exited);
  }

  /** Every step of every schedule lowers the measure lexicographically. */
  lemma StepDescends(cfg: Config, s: State, step: Step)
    requires Good(cfg, s) && Enabled(cfg, s, step)
    ensures Less(cfg, Apply(cfg, s, step), s)
  {
    hide WorkersOk, ShutdownOk, Allowed;
    match step
    case Dispatch(w) => DispatchDescends(cfg, s, w);
    case Execute(w, out) => ExecuteDescends(cfg, s, w, out);
    case Send(w) => SendDescends(cfg, s, w);
    case NextJob(w) => NextJobDescends(cfg, s, w);
    case WorkerExits(w) => WorkerExitsDescends(cfg, s, w);
    case _ =>
  }

  lemma SendsFindOpenChannel(cfg: Config, s: State, w: nat)
    requires Good(cfg, s) && Enabled(cfg, s, Send(w))
    ensures !s.findingsClosed
  {
    assert s.workers[w] != Exited;
  }

  ghost predicate Next(cfg: Config, s: State, t: State) {
    exists step :: Enabled(cfg, s, step) && t == Apply(cfg, s, step)
  }

  /** No schedule goes on for ever: any endless list of states contains a place that is no step. */
  lemma NoEndlessRun(cfg: Config, states: nat -> State)
    requires Good(cfg, states(0))
    ensures exists i: nat :: !Next(cfg, states(i), states(i + 1))
  {
    var i := FindStop(cfg, states, 0);
  }

  lemma {:induction false} FindStop(cfg: Config, states: nat -> State, from: nat) returns (i: nat)
    requires Good(cfg, states(from))
    ensures !Next(cfg, states(i), states(i + 1))
    decreases Outer(cfg, states(from)), Inner(states(from))
  {
    hide Outer, Inner, Apply, Enabled, Good;
    if Next(cfg, states(from), states(from + 1)) {
      var step :| Enabled(cfg, states(from), step) && states(from + 1) == Apply(cfg, states(from), step);
      StepKeepsGood(cfg, states(from), step);
      StepDescends(cfg, states(from), step);
      i := FindStop(cfg, states, from + 1);
    } else {
      i := from;
    }
  }

  /** Every finding carries the ID of the check that returned it. */
  ghost predicate OwnIds(cfg: Config, s: State) {
    forall j, f {:trigger f in OutputAt(s.outputs, j)} :: 0 <= j < |cfg.list| && f in OutputAt(s.outputs, j) ==>
      f.check == cfg.list[j].id
  }

  ghost predicate Extends(cfg: Config, s: State, t: State) {
    && s.report <= t.report
    && s.ctx == t.ctx
    && s.late <= t.late
    && (forall j {:trigger j in s.outputs} {:trigger j in t.outputs} :: j in s.outputs ==>
         j in t.outputs && t.outputs[j] == s.outputs[j])
    && (s.feeder != Feeding ==> t.feeder != Feeding && t.next == s.next)
    && (OwnIds(cfg, s) ==> OwnIds(cfg, t))
  }

  lemma ExtendsItself(cfg: Config, s: State)
    ensures Extends(cfg, s, s)
  {
  }

  lemma ExtendsTransitive(cfg: Config, s: State, t: State, u: State)
    requires Extends(cfg, s, t) && Extends(cfg, t, u)
    ensures Extends(cfg, s, u)
  {
    hide OwnIds;
  }

  lemma ExecuteExtends(cfg: Config, s: State, w: nat, out: seq<Finding>)
    requires Good(cfg, s) && Enabled(cfg, s, Execute(w, out)) && out == SomeOutput(cfg, s.workers[w].job)
    ensures Extends(cfg, s, Apply(cfg, s, Execute(w, out)))
  {
    assert WorkerOk(s, s.workers[w]);
    var t := Apply(cfg, s, Execute(w, out));
    if OwnIds(cfg, s) {
      forall j, f | 0 <= j < |cfg.list| && f in OutputAt(t.outputs, j)
        ensures f.check == cfg.list[j].id
      {
        assert j != s.workers[w].job ==> f in OutputAt(s.outputs, j);
      }
    }
  }

  lemma SomeStepExtends(cfg: Config, s: State) returns (step: Step)
    requires Good(cfg, s) && !s.main.Returned?
    ensures !step.End? && Enabled(cfg, s, step) && Extends(cfg, s, Apply(cfg, s, step))
  {
    step := SomeStep(cfg, s);
    if step.Execute? {
      ExecuteExtends(cfg, s, step.w, step.out);
    } else {
      assert Apply(cfg, s, step).outputs == s.outputs;
    }
  }

  /** Every partial run can be finished without ending the context, and what is already collected stays. */
  lemma {:induction false} Complete(cfg: Config, steps: seq<Step>) returns (all: seq<Step>)
    requires IsRun(cfg, steps)
    ensures Finished(cfg, all) && steps <= all
    ensures Extends(cfg, EndOf(cfg, steps), EndOf(cfg, all))
    decreases Outer(cfg, EndOf(cfg, steps)), Inner(EndOf(cfg, steps))
  {
    hide Outer, Inner, Good, Extends;
    var s := EndOf(cfg, steps);
    if s.main.Returned? {
      all := steps;
      ExtendsItself(cfg, s);
    } else {
      ReachableIsGood(cfg, steps);
      var step := SomeStepExtends(cfg, s);
      RunSnoc(cfg, Start(cfg), steps, step);
      StepDescends(cfg, s, step);
      all := Complete(cfg, steps + [step]);
      ExtendsTransitive(cfg, s, Apply(cfg, s, step), EndOf(cfg, all));
    }
  }
}
