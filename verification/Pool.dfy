/**
  The check runner as a concurrent protocol (internal/runner/runner.go).

  Every goroutine has a program counter. A send and the matching receive on an
  unbuffered channel are one joint step. The context may end at any step, and after
  that the feeder may still hand out jobs, since `select` picks freely among ready
  cases. What a check returns is chosen by the step that executes it.
 */
module Pool {
  import opened Sequences
  import opened Findings
  import opened Registry

  const DEFAULT_WORKERS := 8
  const MISSING_CAPABILITY := "missing required capability for this environment"

  datatype Config = Config(list: seq<Check>, requested: int, capabilities: Capabilities)

  function WorkerCount(cfg: Config): (n: nat)
    ensures n > 0
  {
    if cfg.requested <= 0 then DEFAULT_WORKERS else cfg.requested
  }

  /** A worker waits for a job, runs one, sends what it returned, or has left its loop. */
  datatype Worker = Idle | Running(job: nat) | Sending(job: nat, rest: seq<Finding>) | Exited

  /** The feeder offers `list[next]`, is about to close `jobs`, or has closed it. */
  datatype Feeder = Feeding | Leaving | Gone

  /** Where `Run` itself is: at `wg.Wait()`, at `close(findings)`, at `<-doneCollect`, or back at its caller. */
  datatype Main = WaitingForWorkers | ClosingFindings | WaitingForCollector | Returned(failed: bool)

  datatype Context = Live | Canceled | DeadlineExceeded

  /**
    `outputs`, `origin` and `late` record history: what each executed check returned, which
    check each reported finding came from, and which checks returned after the context had ended.
   */
  datatype State = State(
    workers: seq<Worker>,
    feeder: Feeder,
    next: nat,
    wg: int,
    findingsClosed: bool,
    collectorDone: bool,
    report: seq<Finding>,
    main: Main,
    ctx: Context,
    panicked: bool,
    outputs: map<nat, seq<Finding>>,
    origin: seq<nat>,
    late: set<nat>)

  datatype Step =
    | End(why: Context)
    | Dispatch(w: nat)
    | FeederLeaves
    | CloseJobs
    | Execute(w: nat, out: seq<Finding>)
    | Send(w: nat)
    | NextJob(w: nat)
    | WorkerExits(w: nat)
    | MainWakes
    | CloseFindings
    | CollectorEnds
    | MainReturns

  function Start(cfg: Config): State {
    State(seq(WorkerCount(cfg), _ => Idle), Feeding, 0, WorkerCount(cfg), false, false, [],
      WaitingForWorkers, Live, false, map[], [], {})
  }

  /** What `runOne` may return: the SKIP finding for a missing capability, or anything with one duration. */
  ghost predicate Allowed(cfg: Config, job: nat, out: seq<Finding>)
    requires job < |cfg.list|
  {
    if !HasAll(cfg.capabilities, cfg.list[job].needs) then
      out == [Skipped(cfg.list[job].id)]
    else
      forall i, j :: 0 <= i < j < |out| ==> out[i].duration == out[j].duration
  }

  function Skipped(id: string): Finding {
    Finding(id, SKIP, "", MISSING_CAPABILITY, map[], 0)
  }

  /**
    `runOne`: `produced` is the slice the check's own `Run` gives back, if it is called
    at all; its durations are overwritten where they are.
   */
  method RunOne(cfg: Config, job: nat, produced: array<Finding>, elapsed: int) returns (out: seq<Finding>)
    requires job < |cfg.list|
    modifies produced
    ensures Allowed(cfg, job, out)
    ensures !AddsNothing(cfg.capabilities, cfg.list[job].needs) ==>
      && produced[..] == old(produced[..])
      && out == [Finding(cfg.list[job].id, "SKIP", "", "missing required capability for this environment", map[], 0)]
    ensures AddsNothing(cfg.capabilities, cfg.list[job].needs) ==>
      && produced[..] == out
      && forall i :: 0 <= i < produced.Length ==> out[i] == old(produced[i]).(duration := elapsed)
  {
    hide HasAll, AddsNothing;
    var c := cfg.list[job];
    HasAllExactly(cfg.capabilities, c.needs);
    if !HasAll(cfg.capabilities, c.needs) {
      return [Finding(c.id, SKIP, "", MISSING_CAPABILITY, map[], 0)];
    }
    for i := 0 to produced.Length
      invariant forall k :: 0 <= k < produced.Length ==>
        produced[k] == if k < i then old(produced[k]).(duration := elapsed) else old(produced[k])
    {
      produced[i] := produced[i].(duration := elapsed);
    }
    out := produced[..];
  }

  ghost predicate Enabled(cfg: Config, s: State, step: Step) {
    && !s.panicked && !s.main.Returned?
    && match step
       case End(why) => s.ctx == Live && why != Live
       case Dispatch(w) => s.feeder == Feeding && s.next < |cfg.list| && w < |s.workers| && s.workers[w] == Idle
       case FeederLeaves => s.feeder == Feeding && (s.next == |cfg.list| || s.ctx != Live)
       case CloseJobs => s.feeder == Leaving
       case Execute(w, out) => w < |s.workers| && s.workers[w].Running?
         && s.workers[w].job < |cfg.list| && Allowed(cfg, s.workers[w].job, out)
       case Send(w) => w < |s.workers| && s.workers[w].Sending? && s.workers[w].rest != []
         && (s.findingsClosed || !s.collectorDone)
       case NextJob(w) => w < |s.workers| && s.workers[w].Sending? && s.workers[w].rest == []
       case WorkerExits(w) => w < |s.workers| && s.workers[w] == Idle && s.feeder == Gone
       case MainWakes => s.main == WaitingForWorkers && s.wg == 0
       case CloseFindings => s.main == ClosingFindings
       case CollectorEnds => s.findingsClosed && !s.collectorDone
       case MainReturns => s.main == WaitingForCollector && s.collectorDone
  }

  function SetWorker(s: State, w: nat, worker: Worker): State
    requires w < |s.workers|
  {
    s.(workers := s.workers[w := worker])
  }

  ghost function Apply(cfg: Config, s: State, step: Step): State
    requires Enabled(cfg, s, step)
  {
    match step
    case End(why) => s.(ctx := why)
    case Dispatch(w) => SetWorker(s, w, Running(s.next)).(next := s.next + 1)
    case FeederLeaves => s.(feeder := Leaving)
    case CloseJobs => s.(feeder := Gone)
    case Execute(w, out) =>
      SetWorker(s, w, Sending(s.workers[w].job, out)).(
        outputs := s.outputs[s.workers[w].job := out],
        late := if s.ctx == Live then s.late else s.late + {s.workers[w].job})
    case Send(w) =>
      if s.findingsClosed then s.(panicked := true)
      else
        SetWorker(s, w, Sending(s.workers[w].job, s.workers[w].rest[1..])).(
          report := s.report + [s.workers[w].rest[0]], origin := s.origin + [s.workers[w].job])
    case NextJob(w) => SetWorker(s, w, Idle)
    case WorkerExits(w) => SetWorker(s, w, Exited).(wg := s.wg - 1)
    case MainWakes => s.(main := ClosingFindings)
    case CloseFindings => s.(main := WaitingForCollector, findingsClosed := true)
    case CollectorEnds => s.(collectorDone := true)
    case MainReturns => s.(main := Returned(s.ctx == DeadlineExceeded))
  }

  /** `steps` can be taken one after the other from `s`. */
  ghost predicate CanRun(cfg: Config, s: State, steps: seq<Step>)
    decreases |steps|, 0
  {
    steps == []
    || (CanRun(cfg, s, steps[..|steps| - 1])
        && Enabled(cfg, After(cfg, s, steps[..|steps| - 1]), steps[|steps| - 1]))
  }

  ghost function After(cfg: Config, s: State, steps: seq<Step>): State
    requires CanRun(cfg, s, steps)
    decreases |steps|, 1
  {
    if steps == [] then s
    else Apply(cfg, After(cfg, s, steps[..|steps| - 1]), steps[|steps| - 1])
  }

  /** A schedule of the whole pool, from the start. */
  ghost predicate IsRun(cfg: Config, steps: seq<Step>) {
    CanRun(cfg, Start(cfg), steps)
  }

  ghost function EndOf(cfg: Config, steps: seq<Step>): State
    requires IsRun(cfg, steps)
  {
    After(cfg, Start(cfg), steps)
  }

  lemma RunSnoc(cfg: Config, s: State, steps: seq<Step>, step: Step)
    requires CanRun(cfg, s, steps) && Enabled(cfg, After(cfg, s, steps), step)
    ensures CanRun(cfg, s, steps + [step])
    ensures After(cfg, s, steps + [step]) == Apply(cfg, After(cfg, s, steps), step)
  {
    assert (steps + [step])[..|steps|] == steps;
  }

  // ---------- What every reachable state satisfies ----------

  /** The reported findings that came from one job, in the order they were received. */
  function From(report: seq<Finding>, origin: seq<nat>, job: nat): seq<Finding>
    requires |report| == |origin|
  {
    if report == [] then []
    else
      From(report[..|report| - 1], origin[..|origin| - 1], job)
      + if origin[|origin| - 1] == job then [report[|report| - 1]] else []
  }

  lemma FromSnoc(report: seq<Finding>, origin: seq<nat>, f: Finding, from: nat, job: nat)
    requires |report| == |origin|
    ensures From(report + [f], origin + [from], job) == From(report, origin, job) + if from == job then [f] else []
  {
    assert (report + [f])[..|report|] == report && (origin + [from])[..|origin|] == origin;
  }

  lemma {:induction false} FromNone(report: seq<Finding>, origin: seq<nat>, job: nat)
    requires |report| == |origin| && job !in origin
    ensures From(report, origin, job) == []
  {
    if report != [] {
      FromNone(report[..|report| - 1], origin[..|origin| - 1], job);
    }
  }

  predicate Holds(worker: Worker, job: nat) {
    (worker.Running? || worker.Sending?) && worker.job == job
  }

  /** A worker's job has been dispatched, and what it has not sent is what the report still lacks of it. */
  ghost predicate WorkerOk(s: State, worker: Worker)
    requires |s.report| == |s.origin|
  {
    match worker
    case Idle => true
    case Running(j) => j < s.next && j !in s.outputs
    case Sending(j, rest) => j in s.outputs && From(s.report, s.origin, j) + rest == s.outputs[j]
    case Exited => s.feeder == Gone
  }

  ghost predicate Busy(s: State, job: nat) {
    exists w :: 0 <= w < |s.workers| && Holds(s.workers[w], job)
  }

  ghost predicate JobOk(cfg: Config, s: State, job: nat)
    requires |s.report| == |s.origin|
  {
    && job < |cfg.list|
    && (job !in s.outputs ==> Busy(s, job))
    && (job in s.outputs ==>
         Allowed(cfg, job, s.outputs[job]) && (Busy(s, job) || From(s.report, s.origin, job) == s.outputs[job]))
  }

  ghost predicate WorkersOk(cfg: Config, s: State)
    requires |s.report| == |s.origin|
  {
    && |s.workers| == WorkerCount(cfg)
    && (forall w {:trigger s.workers[w]} :: 0 <= w < |s.workers| ==> WorkerOk(s, s.workers[w]))
    && (forall v, w, j {:trigger Holds(s.workers[v], j), Holds(s.workers[w], j)} ::
         0 <= v < w < |s.workers| && Holds(s.workers[v], j) ==> !Holds(s.workers[w], j))
  }

  ghost predicate JobsOk(cfg: Config, s: State)
    requires |s.report| == |s.origin|
  {
    && s.next <= |cfg.list|
    && (forall j {:trigger j in s.outputs} :: j in s.outputs ==> j < s.next)
    && (forall j: nat {:trigger JobOk(cfg, s, j)} :: j < s.next ==> JobOk(cfg, s, j))
    && (forall i {:trigger s.origin[i]} :: 0 <= i < |s.origin| ==> s.origin[i] in s.outputs)
  }

  /** How many workers have not yet called `wg.Done()`. */
  function AtWork(workers: seq<Worker>): nat {
    if workers == [] then 0
    else AtWork(workers[..|workers| - 1]) + if workers[|workers| - 1] == Exited then 0 else 1
  }

  ghost predicate ShutdownOk(cfg: Config, s: State) {
    && !s.panicked
    && s.wg == AtWork(s.workers)
    && (s.feeder != Feeding && s.ctx == Live ==> s.next == |cfg.list|)
    && (s.ctx == Live ==> s.late == {})
    && (s.main != WaitingForWorkers ==> forall w {:trigger s.workers[w]} :: 0 <= w < |s.workers| ==>
         s.workers[w] == Exited)
    && (s.findingsClosed <==> s.main.WaitingForCollector? || s.main.Returned?)
    && (s.collectorDone ==> s.findingsClosed)
    && (s.main.Returned? ==> s.collectorDone && s.main.failed == (s.ctx == DeadlineExceeded))
  }

  ghost predicate Good(cfg: Config, s: State) {
    && |s.report| == |s.origin|
    && WorkersOk(cfg, s)
    && JobsOk(cfg, s)
    && ShutdownOk(cfg, s)
  }

  lemma {:induction false} AtWorkSet(workers: seq<Worker>, w: nat, worker: Worker)
    requires w < |workers|
    ensures AtWork(workers[w := worker])
         == AtWork(workers) - (if workers[w] == Exited then 0 else 1) + (if worker == Exited then 0 else 1)
  {
    UpdateInit(workers, w, worker);
    if w < |workers| - 1 {
      AtWorkSet(workers[..|workers| - 1], w, worker);
    }
  }

  lemma {:induction false} NoneAtWork(workers: seq<Worker>)
    ensures AtWork(workers) <= |workers|
    ensures AtWork(workers) == 0 <==> forall w {:trigger workers[w]} :: 0 <= w < |workers| ==> workers[w] == Exited
    ensures (forall w {:trigger workers[w]} :: 0 <= w < |workers| ==> workers[w] != Exited) ==>
      AtWork(workers) == |workers|
  {
    if workers != [] {
      NoneAtWork(workers[..|workers| - 1]);
    }
  }

  lemma StartIsGood(cfg: Config)
    ensures Good(cfg, Start(cfg))
  {
    NoneAtWork(Start(cfg).workers);
  }

  lemma StepKeepsShutdown(cfg: Config, s: State, step: Step)
    requires Good(cfg, s) && Enabled(cfg, s, step)
    ensures ShutdownOk(cfg, Apply(cfg, s, step))
  {
    match step
    case Dispatch(w) => AtWorkSet(s.workers, w, Running(s.next));
    case Execute(w, out) => AtWorkSet(s.workers, w, Sending(s.workers[w].job, out));
    case Send(w) => AtWorkSet(s.workers, w, Sending(s.workers[w].job, s.workers[w].rest[1..]));
    case NextJob(w) => AtWorkSet(s.workers, w, Idle);
    case WorkerExits(w) => AtWorkSet(s.workers, w, Exited);
    case MainWakes => NoneAtWork(s.workers);
    case _ =>
  }

  /** A job nobody has executed yet has contributed nothing to the report. */
  lemma UnexecutedIsAbsent(cfg: Config, s: State, job: nat)
    requires Good(cfg, s) && job !in s.outputs
    ensures From(s.report, s.origin, job) == []
  {
    assert job !in s.origin;
    FromNone(s.report, s.origin, job);
  }

  /** No two workers hold the same job. */
  lemma OthersHoldOtherJobs(cfg: Config, s: State, w: nat, v: nat, job: nat)
    requires |s.report| == |s.origin| && WorkersOk(cfg, s)
    requires w < |s.workers| && v < |s.workers| && v != w && Holds(s.workers[w], job)
    ensures !Holds(s.workers[v], job)
  {
  }

  lemma ExecuteKeepsWorker(cfg: Config, s: State, w: nat, out: seq<Finding>, v: nat)
    requires Good(cfg, s) && Enabled(cfg, s, Execute(w, out)) && v < |s.workers|
    ensures WorkerOk(Apply(cfg, s, Execute(w, out)), Apply(cfg, s, Execute(w, out)).workers[v])
  {
    assert WorkerOk(s, s.workers[v]);
    if v == w {
      UnexecutedIsAbsent(cfg, s, s.workers[w].job);
    } else {
      OthersHoldOtherJobs(cfg, s, w, v, s.workers[w].job);
    }
  }

  lemma MoveOne(sent: seq<Finding>, rest: seq<Finding>)
    requires rest != []
    ensures (sent + [rest[0]]) + rest[1..] == sent + rest
  {
  }

  lemma SendKeepsWorker(cfg: Config, s: State, w: nat, v: nat)
    requires Good(cfg, s) && Enabled(cfg, s, Send(w)) && v < |s.workers| && !s.findingsClosed
    ensures var t := Apply(cfg, s, Send(w));
      |t.report| == |t.origin| && WorkerOk(t, t.workers[v])
  {
    hide From, JobsOk, ShutdownOk;
    assert WorkerOk(s, s.workers[v]);
    var job, rest := s.workers[w].job, s.workers[w].rest;
    if v == w {
      FromSnoc(s.report, s.origin, rest[0], job, job);
      MoveOne(From(s.report, s.origin, job), rest);
    } else if s.workers[v].Sending? {
      OthersHoldOtherJobs(cfg, s, w, v, job);
      FromSnoc(s.report, s.origin, rest[0], job, s.workers[v].job);
    }
  }

  lemma StepKeepsWorker(cfg: Config, s: State, step: Step, v: nat)
    requires Good(cfg, s) && Enabled(cfg, s, step) && v < |s.workers|
    ensures var t := Apply(cfg, s, step);
      |t.report| == |t.origin| && |t.workers| == |s.workers| && WorkerOk(t, t.workers[v])
  {
    match step
    case Execute(w, out) =>
      ExecuteKeepsWorker(cfg, s, w, out, v);
    case Send(w) =>
      if s.findingsClosed {
        assert WorkerOk(s, s.workers[v]);
      } else {
        SendKeepsWorker(cfg, s, w, v);
      }
    case _ =>
      assert WorkerOk(s, s.workers[v]);
  }

  /** What a worker holds after a step it held before, or it was just dispatched to it. */
  lemma HoldsBefore(cfg: Config, s: State, step: Step, v: nat, job: nat)
    requires Good(cfg, s) && Enabled(cfg, s, step) && v < |s.workers|
    requires |Apply(cfg, s, step).workers| == |s.workers| && Holds(Apply(cfg, s, step).workers[v], job)
    ensures Holds(s.workers[v], job) || (step == Dispatch(v) && job == s.next)
  {
  }

  lemma StepKeepsWorkers(cfg: Config, s: State, step: Step)
    requires Good(cfg, s) && Enabled(cfg, s, step)
    ensures |Apply(cfg, s, step).report| == |Apply(cfg, s, step).origin| && WorkersOk(cfg, Apply(cfg, s, step))
  {
    hide Apply, Enabled;
    var t := Apply(cfg, s, step);
    StepKeepsWorker(cfg, s, step, 0);
    forall v | 0 <= v < |s.workers|
      ensures WorkerOk(t, t.workers[v])
    {
      StepKeepsWorker(cfg, s, step, v);
    }
    forall v, w, j: nat | 0 <= v < w < |t.workers| && Holds(t.workers[v], j)
      ensures !Holds(t.workers[w], j)
    {
      assert WorkerOk(s, s.workers[v]) && WorkerOk(s, s.workers[w]);
      HoldsBefore(cfg, s, step, v, j);
      if Holds(t.workers[w], j) {
        HoldsBefore(cfg, s, step, w, j);
      }
    }
  }

  lemma {:induction false} StepKeepsJobs(cfg: Config, s: State, step: Step)
    requires Good(cfg, s) && Enabled(cfg, s, step)
    ensures |Apply(cfg, s, step).report| == |Apply(cfg, s, step).origin| && JobsOk(cfg, Apply(cfg, s, step))
  {
    var t := Apply(cfg, s, step);
    forall j: nat | j < t.next
      ensures JobOk(cfg, t, j)
    {
      StepKeepsJob(cfg, s, step, j);
    }
  }

  lemma {:induction false} SendKeepsJob(cfg: Config, s: State, w: nat, j: nat)
    requires Good(cfg, s) && Enabled(cfg, s, Send(w)) && j < s.next && !s.findingsClosed
    ensures var t := Apply(cfg, s, Send(w));
      |t.report| == |t.origin| && JobOk(cfg, t, j)
  {
    assert JobOk(cfg, s, j);
    SetKeepsBusy(s, Apply(cfg, s, Send(w)), w, j);
    FromSnoc(s.report, s.origin, s.workers[w].rest[0], s.workers[w].job, j);
  }

  lemma {:induction false} ExecuteKeepsJob(cfg: Config, s: State, w: nat, out: seq<Finding>, j: nat)
    requires Good(cfg, s) && Enabled(cfg, s, Execute(w, out)) && j < s.next
    ensures JobOk(cfg, Apply(cfg, s, Execute(w, out)), j)
  {
    assert JobOk(cfg, s, j);
    SetKeepsBusy(s, Apply(cfg, s, Execute(w, out)), w, j);
  }

  lemma {:induction false} NextJobKeepsJob(cfg: Config, s: State, w: nat, j: nat)
    requires Good(cfg, s) && Enabled(cfg, s, NextJob(w)) && j < s.next
    ensures JobOk(cfg, Apply(cfg, s, NextJob(w)), j)
  {
    assert JobOk(cfg, s, j);
    assert WorkerOk(s, s.workers[w]);
    SetKeepsBusy(s, Apply(cfg, s, NextJob(w)), w, j);
  }

  lemma {:induction false} StepKeepsJob(cfg: Config, s: State, step: Step, j: nat)
    requires Good(cfg, s) && Enabled(cfg, s, step) && j < Apply(cfg, s, step).next
    ensures |Apply(cfg, s, step).report| == |Apply(cfg, s, step).origin| && JobOk(cfg, Apply(cfg, s, step), j)
  {
    if j < s.next {
      assert JobOk(cfg, s, j);
    }
    match step
    case Execute(w, out) =>
      ExecuteKeepsJob(cfg, s, w, out, j);
    case Send(w) =>
      if !s.findingsClosed {
        SendKeepsJob(cfg, s, w, j);
      } else {
        assert Busy(s, j) == Busy(Apply(cfg, s, step), j);
      }
    case NextJob(w) =>
      NextJobKeepsJob(cfg, s, w, j);
    case Dispatch(w) =>
      SetKeepsBusy(s, Apply(cfg, s, step), w, j);
    case WorkerExits(w) =>
      SetKeepsBusy(s, Apply(cfg, s, step), w, j);
    case _ =>
      assert Busy(s, j) == Busy(Apply(cfg, s, step), j);
  }

  lemma {:induction false} SetKeepsBusy(s: State, t: State, w: nat, job: nat)
    requires w < |s.workers| == |t.workers| && t.workers == s.workers[w := t.workers[w]]
    ensures Busy(s, job) && !Holds(s.workers[w], job) ==> Busy(t, job)
    ensures Holds(t.workers[w], job) ==> Busy(t, job)
    ensures Busy(t, job) && !Holds(t.workers[w], job) ==> Busy(s, job)
  {
    if Busy(s, job) && !Holds(s.workers[w], job) {
      var v :| 0 <= v < |s.workers| && Holds(s.workers[v], job);
      assert Holds(t.workers[v], job);
    }
    if Busy(t, job) && !Holds(t.workers[w], job) {
      var v :| 0 <= v < |t.workers| && Holds(t.workers[v], job);
      assert Holds(s.workers[v], job);
    }
  }

  /** Every step, in every schedule and for every worker count, keeps the invariant. */
  lemma {:induction false} StepKeepsGood(cfg: Config, s: State, step: Step)
    requires Good(cfg, s) && Enabled(cfg, s, step)
    ensures Good(cfg, Apply(cfg, s, step))
  {
    hide Apply, WorkersOk, JobsOk, ShutdownOk, Enabled;
    StepKeepsWorkers(cfg, s, step);
    StepKeepsJobs(cfg, s, step);
    StepKeepsShutdown(cfg, s, step);
  }

  lemma {:induction false} RunKeepsGood(cfg: Config, s: State, steps: seq<Step>)
    requires Good(cfg, s) && CanRun(cfg, s, steps)
    ensures Good(cfg, After(cfg, s, steps))
    decreases |steps|
  {
    if steps != [] {
      var init := steps[..|steps| - 1];
      RunKeepsGood(cfg, s, init);
      StepKeepsGood(cfg, After(cfg, s, init), steps[|steps| - 1]);
    }
  }

  lemma {:induction false} ReachableIsGood(cfg: Config, steps: seq<Step>)
    requires IsRun(cfg, steps)
    ensures Good(cfg, EndOf(cfg, steps))
  {
    StartIsGood(cfg);
    RunKeepsGood(cfg, Start(cfg), steps);
  }
}
