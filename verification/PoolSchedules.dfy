/** Exactly which reports the pool can deliver, for every number of workers. */
module PoolSchedules {
  import opened Sequences
  import opened Findings
  import opened Pool
  import opened PoolLaws
  import opened PoolOrder

  /** How many checks have to be dispatched before findings with these origins can arrive. */
  function Reach(origin: seq<nat>): nat {
    if origin == [] then 0
    else
      var r := Reach(origin[..|origin| - 1]);
      if origin[|origin| - 1] >= r then origin[|origin| - 1] + 1 else r
  }

  /** Among the first `d` checks, those not yet delivered in full. */
  function OpenJobs(report: seq<Finding>, origin: seq<nat>, outputs: map<nat, seq<Finding>>, d: nat): set<nat>
    requires |report| == |origin|
  {
    set j: nat | j < d && (j !in outputs || From(report, origin, j) != outputs[j])
  }

  /**
    At every delivery, no more than `n` of the checks dispatched by then are unfinished:
    the findings of a check can be overtaken only by checks that fit beside it.
   */
  ghost predicate Fits(report: seq<Finding>, origin: seq<nat>, outputs: map<nat, seq<Finding>>, n: nat)
    requires |report| == |origin|
  {
    report == [] ||
    (Fits(report[..|report| - 1], origin[..|origin| - 1], outputs, n)
     && |OpenJobs(report[..|report| - 1], origin[..|origin| - 1], outputs, Reach(origin))| <= n)
  }

  function AsMap(outs: seq<seq<Finding>>): map<nat, seq<Finding>> {
    map j: nat | j < |outs| :: outs[j]
  }

  /** Some finished run has these results, delivers this report, and ends with the context in this state. */
  ghost predicate Possible(cfg: Config, outs: seq<seq<Finding>>, report: seq<Finding>, ctx: Context) {
    exists steps {:trigger Finished(cfg, steps)} ::
      Finished(cfg, steps) && Results(cfg, steps) == outs && EndOf(cfg, steps).report == report
        && EndOf(cfg, steps).ctx == ctx
  }

  /** The merges that a pool of `n` workers has room for. */
  ghost predicate Schedulable(outs: seq<seq<Finding>>, report: seq<Finding>, n: nat) {
    exists origin :: MergedBy(report, outs, origin) && Fits(report, origin, AsMap(outs), n)
  }

  // ---------- Every run fits ----------

  function Held(workers: seq<Worker>): set<nat> {
    set w {:trigger workers[w]} | 0 <= w < |workers| && (workers[w].Running? || workers[w].Sending?) :: workers[w].job
  }

  lemma HeldSnoc(init: seq<Worker>, last: Worker)
    ensures Held(init + [last]) == Held(init) + if last.Running? || last.Sending? then {last.job} else {}
  {
    var workers := init + [last];
    assert workers[|init|] == last;
    assert forall w :: 0 <= w < |init| ==> workers[w] == init[w];
  }

  lemma {:induction false} FewHeld(workers: seq<Worker>)
    ensures |Held(workers)| <= |workers|
  {
    if workers != [] {
      var init, last := workers[..|workers| - 1], workers[|workers| - 1];
      FewHeld(init);
      HeldSnoc(init, last);
      assert workers == init + [last];
    }
  }

  lemma {:induction false} ReachBelow(origin: seq<nat>, n: nat)
    requires forall i {:trigger origin[i]} :: 0 <= i < |origin| ==> origin[i] < n
    ensures Reach(origin) <= n
  {
    if origin != [] {
      ReachBelow(origin[..|origin| - 1], n);
    }
  }

  lemma FitsSnoc(report: seq<Finding>, origin: seq<nat>, f: Finding, job: nat, outputs: map<nat, seq<Finding>>, n: nat)
    requires |report| == |origin|
    ensures Fits(report + [f], origin + [job], outputs, n)
       <==> Fits(report, origin, outputs, n) && |OpenJobs(report, origin, outputs, Reach(origin + [job]))| <= n
  {
    assert (report + [f])[..|report|] == report && (origin + [job])[..|origin|] == origin;
  }

  /** Learning what a check returned only closes jobs. */
  lemma {:induction false} FitsLater(report: seq<Finding>, origin: seq<nat>, outputs: map<nat, seq<Finding>>, job: nat,
      out: seq<Finding>, n: nat)
    requires |report| == |origin| && job !in outputs && Fits(report, origin, outputs, n)
    ensures Fits(report, origin, outputs[job := out], n)
  {
    if report != [] {
      var init, before, d := report[..|report| - 1], origin[..|origin| - 1], Reach(origin);
      FitsLater(init, before, outputs, job, out, n);
      SubsetSize(OpenJobs(init, before, outputs[job := out], d), OpenJobs(init, before, outputs, d));
    }
  }

  /** What is still open when a finding is delivered sits in some worker. */
  lemma OpenIsHeld(cfg: Config, s: State, w: nat)
    requires Good(cfg, s) && w < |s.workers| && s.workers[w].Sending?
    ensures |OpenJobs(s.report, s.origin, s.outputs, Reach(s.origin + [s.workers[w].job]))| <= |s.workers|
  {
    hide From;
    var origin := s.origin + [s.workers[w].job];
    assert WorkerOk(s, s.workers[w]);
    forall i {:trigger origin[i]} | 0 <= i < |origin|
      ensures origin[i] < s.next
    {
      assert i < |s.origin| ==> s.origin[i] in s.outputs;
    }
    ReachBelow(origin, s.next);
    var open := OpenJobs(s.report, s.origin, s.outputs, Reach(origin));
    forall j | j in open
      ensures j in Held(s.workers)
    {
      assert JobOk(cfg, s, j);
      var v :| 0 <= v < |s.workers| && Holds(s.workers[v], j);
      assert s.workers[v].job == j;
    }
    SubsetSize(open, Held(s.workers));
    FewHeld(s.workers);
  }

  lemma StepFits(cfg: Config, s: State, step: Step)
    requires Good(cfg, s) && Enabled(cfg, s, step) && Fits(s.report, s.origin, s.outputs, WorkerCount(cfg))
    ensures var t := Apply(cfg, s, step);
      |t.report| == |t.origin| && Fits(t.report, t.origin, t.outputs, WorkerCount(cfg))
  {
    hide OpenJobs;
    match step
    case Send(w) =>
      OpenIsHeld(cfg, s, w);
      FitsSnoc(s.report, s.origin, s.workers[w].rest[0], s.workers[w].job, s.outputs, WorkerCount(cfg));
    case Execute(w, out) =>
      assert WorkerOk(s, s.workers[w]);
      FitsLater(s.report, s.origin, s.outputs, s.workers[w].job, out, WorkerCount(cfg));
    case _ =>
  }

  lemma {:induction false} RunFits(cfg: Config, steps: seq<Step>)
    requires IsRun(cfg, steps)
    ensures var s := EndOf(cfg, steps);
      |s.report| == |s.origin| && Fits(s.report, s.origin, s.outputs, WorkerCount(cfg))
    decreases |steps|
  {
    hide Fits, Enabled, Apply;
    if steps == [] {
      NothingFits(cfg);
    } else {
      var init := steps[..|steps| - 1];
      RunFits(cfg, init);
      ReachableIsGood(cfg, init);
      StepFits(cfg, EndOf(cfg, init), steps[|steps| - 1]);
    }
  }

  lemma NothingFits(cfg: Config)
    ensures Fits([], [], map[], WorkerCount(cfg))
  {
  }

  lemma RunIsSchedulable(cfg: Config, steps: seq<Step>)
    requires Finished(cfg, steps)
    ensures Schedulable(Results(cfg, steps), EndOf(cfg, steps).report, WorkerCount(cfg))
  {
    ReachableIsGood(cfg, steps);
    RunFits(cfg, steps);
    var s := EndOf(cfg, steps);
    ExitedIsMerged(cfg, s);
    ExitedHasAll(cfg, s);
  }

  lemma ExitedHasAll(cfg: Config, s: State)
    requires Good(cfg, s) && s.main.Returned?
    ensures s.outputs == AsMap(Outputs(s.outputs, s.next))
  {
    forall j: nat | j < s.next
      ensures j in s.outputs
    {
      assert JobOk(cfg, s, j);
    }
  }

  // ---------- Everything that fits can be run ----------

  /**
    In the middle of such a run: all dispatched checks are executed, and workers hold only what
    is still to be sent.
   */
  ghost predicate Serving(cfg: Config, s: State, outs: seq<seq<Finding>>, report: seq<Finding>, origin: seq<nat>) {
    && Good(cfg, s)
    && s.feeder == Feeding && s.main == WaitingForWorkers && s.ctx == Live && !s.findingsClosed && !s.collectorDone
    && s.report == report && s.origin == origin && s.next <= |outs|
    && (forall j {:trigger j in s.outputs} {:trigger outs[j]} :: 0 <= j < s.next ==>
         j in s.outputs && s.outputs[j] == outs[j])
    && (forall w {:trigger s.workers[w]} :: 0 <= w < |s.workers| ==>
         s.workers[w] == Idle || (s.workers[w].Sending? && s.workers[w].rest != []))
  }

  lemma {:induction false} HeldByAll(cfg: Config, s: State, n: nat)
    requires |s.report| == |s.origin| && WorkersOk(cfg, s) && n <= |s.workers|
    requires forall w {:trigger s.workers[w]} :: 0 <= w < |s.workers| ==> s.workers[w].Sending?
    ensures |Held(s.workers[..n])| == n
  {
    if n > 0 {
      HeldByAll(cfg, s, n - 1);
      HeldSnoc(s.workers[..n - 1], s.workers[n - 1]);
      assert s.workers[..n] == s.workers[..n - 1] + [s.workers[n - 1]];
      var job := s.workers[n - 1].job;
      if job in Held(s.workers[..n - 1]) {
        var v :| 0 <= v < n - 1 && s.workers[..n - 1][v].job == job;
        assert s.workers[..n - 1][v] == s.workers[v];
        assert Holds(s.workers[v], job) && Holds(s.workers[n - 1], job);
      }
    }
  }

  /** What a serving worker holds is open, since it still has something to send. */
  lemma HeldIsOpen(cfg: Config, s: State, outs: seq<seq<Finding>>, report: seq<Finding>, origin: seq<nat>, d: nat)
    requires Serving(cfg, s, outs, report, origin) && s.next <= d
    ensures |report| == |origin|
    ensures forall j {:trigger j in Held(s.workers)} :: j in Held(s.workers) ==>
      j < s.next && j in OpenJobs(report, origin, AsMap(outs), d)
  {
    hide From;
    forall j | j in Held(s.workers)
      ensures j < s.next && j in OpenJobs(report, origin, AsMap(outs), d)
    {
      var w :| 0 <= w < |s.workers| && s.workers[w].Sending? && s.workers[w].job == j;
      assert WorkerOk(s, s.workers[w]);
      assert |From(report, origin, j)| < |outs[j]|;
    }
  }

  /** While a later check of the window is still to come, some worker is free. */
  lemma SomeIdle(cfg: Config, s: State, outs: seq<seq<Finding>>, report: seq<Finding>, origin: seq<nat>, d: nat,
      later: nat) returns (w: nat)
    requires Serving(cfg, s, outs, report, origin) && s.next <= later < d && |report| == |origin|
    requires later in OpenJobs(report, origin, AsMap(outs), d)
    requires |OpenJobs(report, origin, AsMap(outs), d)| <= WorkerCount(cfg)
    ensures w < |s.workers| && s.workers[w] == Idle
  {
    hide OpenJobs;
    if v :| 0 <= v < |s.workers| && s.workers[v] == Idle {
      w := v;
    } else {
      HeldByAll(cfg, s, |s.workers|);
      assert s.workers[..|s.workers|] == s.workers;
      HeldIsOpen(cfg, s, outs, report, origin, d);
      SubsetSize(Held(s.workers) + {later}, OpenJobs(report, origin, AsMap(outs), d));
      assert false;
    }
  }

  function ServedNext(s: State, w: nat, out: seq<Finding>): State
    requires w < |s.workers|
  {
    s.(workers := s.workers[w := if out == [] then Idle else Sending(s.next, out)],
       next := s.next + 1, outputs := s.outputs[s.next := out])
  }

  lemma SetTwice<T>(s: seq<T>, i: nat, x: T, y: T)
    requires i < |s|
    ensures s[i := x][i := y] == s[i := y]
  {
  }

  /** A free worker takes the next check, executes it, and is free again if there is nothing to send. */
  lemma ServeSteps(cfg: Config, steps: seq<Step>, out: seq<Finding>, w: nat) returns (more: seq<Step>)
    requires IsRun(cfg, steps)
    requires var s := EndOf(cfg, steps);
      && s.feeder == Feeding && s.main == WaitingForWorkers && s.ctx == Live && !s.panicked
      && s.next < |cfg.list| && Allowed(cfg, s.next, out)
      && w < |s.workers| && s.workers[w] == Idle
    ensures IsRun(cfg, more) && EndOf(cfg, more) == ServedNext(EndOf(cfg, steps), w, out)
  {
    hide Allowed;
    var s := EndOf(cfg, steps);
    SetTwice(s.workers, w, Running(s.next), Sending(s.next, out));
    more := Then(cfg, steps, Dispatch(w));
    more := Then(cfg, more, Execute(w, out));
    if out == [] {
      SetTwice(s.workers, w, Sending(s.next, out), Idle);
      more := Then(cfg, more, NextJob(w));
    }
  }

  lemma ServedNextServes(cfg: Config, s: State, outs: seq<seq<Finding>>, report: seq<Finding>, origin: seq<nat>, w: nat)
    requires Serving(cfg, s, outs, report, origin) && s.next < |outs| && w < |s.workers|
    requires Good(cfg, ServedNext(s, w, outs[s.next]))
    ensures Serving(cfg, ServedNext(s, w, outs[s.next]), outs, report, origin)
  {
    hide Good;
  }

  lemma ServeNext(cfg: Config, steps: seq<Step>, outs: seq<seq<Finding>>, report: seq<Finding>, origin: seq<nat>,
      w: nat) returns (more: seq<Step>)
    requires IsRun(cfg, steps) && Serving(cfg, EndOf(cfg, steps), outs, report, origin)
    requires EndOf(cfg, steps).next < |outs| <= |cfg.list|
      && Allowed(cfg, EndOf(cfg, steps).next, outs[EndOf(cfg, steps).next])
    requires w < |EndOf(cfg, steps).workers| && EndOf(cfg, steps).workers[w] == Idle
    ensures IsRun(cfg, more) && Serving(cfg, EndOf(cfg, more), outs, report, origin)
    ensures EndOf(cfg, more).next == EndOf(cfg, steps).next + 1
  {
    hide Allowed, WorkersOk, JobsOk;
    var s := EndOf(cfg, steps);
    more := ServeSteps(cfg, steps, outs[s.next], w);
    ReachableIsGood(cfg, more);
    ServedNextServes(cfg, s, outs, report, origin, w);
  }

  lemma {:induction false} ServeUpTo(cfg: Config, steps: seq<Step>, outs: seq<seq<Finding>>, report: seq<Finding>,
      origin: seq<nat>,
      d: nat, later: nat) returns (more: seq<Step>)
    requires IsRun(cfg, steps) && Serving(cfg, EndOf(cfg, steps), outs, report, origin)
    requires later < d <= |outs| <= |cfg.list| && EndOf(cfg, steps).next <= d == later + 1
    requires forall j {:trigger outs[j]} :: 0 <= j < |outs| ==> Allowed(cfg, j, outs[j])
    requires |report| == |origin| && later in OpenJobs(report, origin, AsMap(outs), d)
    requires |OpenJobs(report, origin, AsMap(outs), d)| <= WorkerCount(cfg)
    ensures IsRun(cfg, more) && Serving(cfg, EndOf(cfg, more), outs, report, origin) && EndOf(cfg, more).next == d
    decreases d - EndOf(cfg, steps).next
  {
    hide Serving, OpenJobs, Allowed;
    if EndOf(cfg, steps).next == d {
      more := steps;
    } else {
      var w := SomeIdle(cfg, EndOf(cfg, steps), outs, report, origin, d, later);
      more := ServeNext(cfg, steps, outs, report, origin, w);
      more := ServeUpTo(cfg, more, outs, report, origin, d, later);
    }
  }

  lemma SendFits(cfg: Config, s: State, outs: seq<seq<Finding>>, report: seq<Finding>, origin: seq<nat>, f: Finding,
      w: nat)
    requires Serving(cfg, s, outs, report, origin) && w < |s.workers| && s.workers[w].Sending?
      && s.workers[w].rest[0] == f
    ensures Enabled(cfg, s, Send(w))
    ensures var t := Apply(cfg, s, Send(w));
      && t.report == report + [f] && t.origin == origin + [s.workers[w].job]
      && (t.workers[w].rest != [] && Good(cfg, t) ==> Serving(cfg, t, outs, t.report, t.origin))
      && (t.workers[w].rest == [] ==> Enabled(cfg, t, NextJob(w)))
      && (t.workers[w].rest == [] && Good(cfg, Apply(cfg, t, NextJob(w))) ==>
            Serving(cfg, Apply(cfg, t, NextJob(w)), outs, t.report, t.origin))
  {
    hide WorkersOk, JobsOk;
  }

  /** One more finding of the merge is sent, and the worker freed if it was its last. */
  lemma ServeSend(cfg: Config, steps: seq<Step>, outs: seq<seq<Finding>>, report: seq<Finding>, origin: seq<nat>,
      f: Finding, w: nat)
    returns (more: seq<Step>)
    requires IsRun(cfg, steps) && Serving(cfg, EndOf(cfg, steps), outs, report, origin)
    requires var s := EndOf(cfg, steps);
      w < |s.workers| && s.workers[w].Sending? && s.workers[w].rest[0] == f
    ensures IsRun(cfg, more)
    ensures Serving(cfg, EndOf(cfg, more), outs, report + [f], origin + [EndOf(cfg, steps).workers[w].job])
    ensures EndOf(cfg, more).next == EndOf(cfg, steps).next
  {
    hide Good;
    SendFits(cfg, EndOf(cfg, steps), outs, report, origin, f, w);
    more := Then(cfg, steps, Send(w));
    ReachableIsGood(cfg, more);
    if EndOf(cfg, more).workers[w].rest == [] {
      more := Then(cfg, more, NextJob(w));
      ReachableIsGood(cfg, more);
    }
  }

  lemma {:induction false} FromPrefix(report: seq<Finding>, origin: seq<nat>, i: nat, job: nat)
    requires i <= |report| == |origin|
    ensures From(report[..i], origin[..i], job) <= From(report, origin, job)
  {
    if i == |report| {
      assert report[..i] == report && origin[..i] == origin;
    } else {
      FromPrefix(report[..|report| - 1], origin[..|report| - 1], i, job);
      assert report[..|report| - 1][..i] == report[..i] && origin[..|report| - 1][..i] == origin[..i];
    }
  }

  /** The part of a merge that is to be delivered next: its findings are the next ones of their checks. */
  ghost predicate PartOf(report: seq<Finding>, origin: seq<nat>, outs: seq<seq<Finding>>) {
    && |report| == |origin|
    && (forall i {:trigger origin[i]} :: 0 <= i < |origin| ==> origin[i] < |outs|)
    && forall j: nat {:trigger outs[j]} :: j < |outs| ==> From(report, origin, j) <= outs[j]
  }

  lemma PartLengths(report: seq<Finding>, origin: seq<nat>, outs: seq<seq<Finding>>)
    requires PartOf(report, origin, outs)
    ensures |report| == |origin| && (report != [] ==> origin[|origin| - 1] < |outs|)
    ensures report == [] ==> Reach(origin) == 0
  {
  }

  lemma PartInit(report: seq<Finding>, origin: seq<nat>, outs: seq<seq<Finding>>)
    requires PartOf(report, origin, outs) && report != []
    ensures PartOf(report[..|report| - 1], origin[..|origin| - 1], outs)
    ensures var init, before, job := report[..|report| - 1], origin[..|origin| - 1], origin[|origin| - 1];
      From(init, before, job) + [report[|report| - 1]] <= outs[job]
  {
    forall j: nat | j < |outs|
      ensures From(report[..|report| - 1], origin[..|origin| - 1], j) <= outs[j]
    {
      FromPrefix(report, origin, |report| - 1, j);
    }
  }

  /** The worker that holds a job which is not finished. */
  lemma WhoSends(cfg: Config, s: State, outs: seq<seq<Finding>>, report: seq<Finding>, origin: seq<nat>, job: nat,
      f: Finding) returns (w: nat)
    requires Serving(cfg, s, outs, report, origin) && job < s.next
    requires |report| == |origin| && From(report, origin, job) + [f] <= outs[job]
    ensures w < |s.workers| && s.workers[w].Sending? && s.workers[w].job == job && s.workers[w].rest[0] == f
  {
    assert JobOk(cfg, s, job);
    var sent := From(report, origin, job);
    assert outs[job][|sent|] == f;
    assert Busy(s, job);
    w :| 0 <= w < |s.workers| && Holds(s.workers[w], job);
    assert WorkerOk(s, s.workers[w]);
    assert (sent + s.workers[w].rest)[|sent|] == f;
  }

  lemma JobIsOpen(report: seq<Finding>, origin: seq<nat>, outs: seq<seq<Finding>>, job: nat, f: Finding)
    requires |report| == |origin| && job < |outs| && From(report, origin, job) + [f] <= outs[job]
    ensures job in OpenJobs(report, origin, AsMap(outs), job + 1)
    ensures Reach(origin) <= job ==> Reach(origin + [job]) == job + 1
    ensures Reach(origin) > job ==> Reach(origin + [job]) == Reach(origin)
  {
    assert |From(report, origin, job)| < |outs[job]|;
    assert (origin + [job])[..|origin|] == origin;
  }

  lemma NothingServed(cfg: Config, outs: seq<seq<Finding>>)
    ensures Serving(cfg, Start(cfg), outs, [], [])
  {
    StartIsGood(cfg);
  }

  /** A merge with room for its open checks can be delivered finding by finding. */
  lemma {:induction false} Serve(cfg: Config, outs: seq<seq<Finding>>, report: seq<Finding>, origin: seq<nat>)
    returns (steps: seq<Step>)
    requires |outs| <= |cfg.list| && PartOf(report, origin, outs) && Fits(report, origin, AsMap(outs), WorkerCount(cfg))
    requires forall j {:trigger outs[j]} :: 0 <= j < |outs| ==> Allowed(cfg, j, outs[j])
    ensures IsRun(cfg, steps) && Serving(cfg, EndOf(cfg, steps), outs, report, origin)
      && EndOf(cfg, steps).next == Reach(origin)
    decreases |report|
  {
    hide Serving, Allowed, OpenJobs, PartOf, From, Reach;
    PartLengths(report, origin, outs);
    if report == [] {
      steps := [];
      NothingServed(cfg, outs);
    } else {
      var init, f := report[..|report| - 1], report[|report| - 1];
      var before, job := origin[..|origin| - 1], origin[|origin| - 1];
      assert report == init + [f] && origin == before + [job];
      PartInit(report, origin, outs);
      steps := Serve(cfg, outs, init, before);
      JobIsOpen(init, before, outs, job, f);
      if Reach(before) <= job {
        steps := ServeUpTo(cfg, steps, outs, init, before, job + 1, job);
      }
      var w := WhoSends(cfg, EndOf(cfg, steps), outs, init, before, job, f);
      steps := ServeSend(cfg, steps, outs, init, before, f, w);
    }
  }

  /** Once the whole merge is delivered no worker holds anything. */
  lemma NobodyHolds(cfg: Config, s: State, outs: seq<seq<Finding>>, report: seq<Finding>, origin: seq<nat>)
    requires Serving(cfg, s, outs, report, origin) && MergedBy(report, outs, origin)
    ensures |s.workers| > 0 && s.workers[0] == Idle
  {
    assert WorkerOk(s, s.workers[0]);
  }

  /** The checks behind the last delivered finding return nothing; they are dispatched one by one. */
  lemma {:induction false} ServeRest(cfg: Config, steps: seq<Step>, outs: seq<seq<Finding>>, report: seq<Finding>,
      origin: seq<nat>)
    returns (more: seq<Step>)
    requires IsRun(cfg, steps) && Serving(cfg, EndOf(cfg, steps), outs, report, origin)
    requires MergedBy(report, outs, origin) && EndOf(cfg, steps).next <= |outs| <= |cfg.list|
    requires forall j {:trigger outs[j]} :: 0 <= j < |outs| ==> Allowed(cfg, j, outs[j])
    ensures IsRun(cfg, more) && Serving(cfg, EndOf(cfg, more), outs, report, origin) && EndOf(cfg, more).next == |outs|
    decreases |outs| - EndOf(cfg, steps).next
  {
    hide Serving, Allowed, MergedBy;
    if EndOf(cfg, steps).next == |outs| {
      more := steps;
    } else {
      NobodyHolds(cfg, EndOf(cfg, steps), outs, report, origin);
      more := ServeNext(cfg, steps, outs, report, origin, 0);
      more := ServeRest(cfg, more, outs, report, origin);
    }
  }

  /** The feeder stops: at the end of the list, or anywhere because the context has ended. */
  lemma StopFeeding(cfg: Config, steps: seq<Step>, ctx: Context) returns (more: seq<Step>)
    requires IsRun(cfg, steps)
    requires var s := EndOf(cfg, steps);
      && s.feeder == Feeding && s.main == WaitingForWorkers && s.ctx == Live && !s.panicked
      && (ctx == Live ==> s.next == |cfg.list|)
    ensures IsRun(cfg, more)
    ensures EndOf(cfg, more) == EndOf(cfg, steps).(feeder := Leaving, ctx := ctx)
  {
    more := steps;
    if ctx != Live {
      more := Then(cfg, more, End(ctx));
    }
    more := Then(cfg, more, FeederLeaves);
  }

  lemma SameSizePrefix(a: seq<Finding>, b: seq<Finding>)
    requires a <= b && multiset(a) == multiset(b)
    ensures a == b
  {
    assert |multiset(a)| == |a| && |multiset(b)| == |b|;
  }

  /** Once all results are sent and the feeder has stopped, finishing the run adds nothing. */
  lemma {:induction false} NothingIsAdded(cfg: Config, outs: seq<seq<Finding>>, s: State, steps: seq<Step>)
    requires Interleaves(s.report, outs) && s.feeder == Leaving && s.next == |outs|
    requires forall j {:trigger j in s.outputs} {:trigger outs[j]} :: 0 <= j < |outs| ==>
      j in s.outputs && s.outputs[j] == outs[j]
    requires Finished(cfg, steps) && Extends(cfg, s, EndOf(cfg, steps))
    ensures Results(cfg, steps) == outs && EndOf(cfg, steps).report == s.report && EndOf(cfg, steps).ctx == s.ctx
  {
    hide Allowed, Interleaves, Subsequence, OwnIds;
    var t := EndOf(cfg, steps);
    forall j: nat | j < |outs|
      ensures OutputAt(t.outputs, j) == outs[j]
    {
      assert j in s.outputs;
    }
    assert Results(cfg, steps) == outs;
    RunDelivers(cfg, steps);
    MergeFacts(s.report, outs);
    SameSizePrefix(s.report, t.report);
  }

  lemma ServedAll(cfg: Config, s: State, outs: seq<seq<Finding>>, report: seq<Finding>, origin: seq<nat>)
    requires Serving(cfg, s, outs, report, origin) && s.next == |outs|
    ensures s.feeder == Feeding && s.main == WaitingForWorkers && s.ctx == Live && !s.panicked && s.report == report
    ensures forall j {:trigger j in s.outputs} {:trigger outs[j]} :: 0 <= j < |outs| ==>
      j in s.outputs && s.outputs[j] == outs[j]
  {
  }

  lemma {:induction false} ScheduleRuns(cfg: Config, outs: seq<seq<Finding>>, report: seq<Finding>, ctx: Context)
    requires |outs| <= |cfg.list| && (ctx == Live ==> |outs| == |cfg.list|)
    requires forall j {:trigger outs[j]} :: 0 <= j < |outs| ==> Allowed(cfg, j, outs[j])
    requires Schedulable(outs, report, WorkerCount(cfg))
    ensures Possible(cfg, outs, report, ctx)
  {
    hide Allowed, Extends, Serving, Results, From;
    var origin: seq<nat> :| MergedBy(report, outs, origin) && Fits(report, origin, AsMap(outs), WorkerCount(cfg));
    MergeIsPart(report, outs, origin);
    assert Interleaves(report, outs);
    var most := Serve(cfg, outs, report, origin);
    ServingBounds(cfg, EndOf(cfg, most), outs, report, origin);
    most := ServeRest(cfg, most, outs, report, origin);
    ServedAll(cfg, EndOf(cfg, most), outs, report, origin);
    most := StopFeeding(cfg, most, ctx);
    var steps := Complete(cfg, most);
    NothingIsAdded(cfg, outs, EndOf(cfg, most), steps);
  }

  lemma ServingBounds(cfg: Config, s: State, outs: seq<seq<Finding>>, report: seq<Finding>, origin: seq<nat>)
    requires Serving(cfg, s, outs, report, origin)
    ensures s.next <= |outs|
  {
  }

  lemma MergeIsPart(report: seq<Finding>, outs: seq<seq<Finding>>, origin: seq<nat>)
    requires MergedBy(report, outs, origin)
    ensures PartOf(report, origin, outs)
  {
  }

  /**
    What a pool can deliver, over all its schedules and all moments at which the context may
    end: for any results of any prefix of the checks, exactly the merges in which never more
    checks are open than there are workers; all of the list only if the context stays live.
   */
  lemma {:induction false} PossibleExactly(cfg: Config, outs: seq<seq<Finding>>, report: seq<Finding>, ctx: Context)
    requires |outs| <= |cfg.list|
    requires forall j {:trigger outs[j]} :: 0 <= j < |outs| ==> Allowed(cfg, j, outs[j])
    ensures Possible(cfg, outs, report, ctx)
       <==> Schedulable(outs, report, WorkerCount(cfg)) && (ctx == Live ==> |outs| == |cfg.list|)
  {
    hide Schedulable;
    if Schedulable(outs, report, WorkerCount(cfg)) && (ctx == Live ==> |outs| == |cfg.list|) {
      ScheduleRuns(cfg, outs, report, ctx);
    }
    if Possible(cfg, outs, report, ctx) {
      PossibleIsSchedulable(cfg, outs, report, ctx);
    }
  }

  lemma {:induction false} PossibleIsSchedulable(cfg: Config, outs: seq<seq<Finding>>, report: seq<Finding>,
      ctx: Context)
    requires Possible(cfg, outs, report, ctx)
    ensures Schedulable(outs, report, WorkerCount(cfg)) && (ctx == Live ==> |outs| == |cfg.list|)
  {
    hide Schedulable, Results;
    var steps :| Finished(cfg, steps) && Results(cfg, steps) == outs && EndOf(cfg, steps).report == report
      && EndOf(cfg, steps).ctx == ctx;
    RunIsSchedulable(cfg, steps);
    RunDelivers(cfg, steps);
  }

  /** Some finished run with these results and this report returns an error, or some does without one. */
  ghost predicate ReturnsWith(cfg: Config, outs: seq<seq<Finding>>, report: seq<Finding>, failed: bool) {
    exists steps {:trigger Finished(cfg, steps)} ::
      && Finished(cfg, steps) && Results(cfg, steps) == outs && EndOf(cfg, steps).report == report
      && EndOf(cfg, steps).main.failed == failed
  }

  /**
    The error says nothing about the report: whatever can be delivered, complete or cut
    short, can be delivered with an error and without one.
   */
  lemma {:induction false} ErrorTellsNothing(cfg: Config, outs: seq<seq<Finding>>, report: seq<Finding>, failed: bool)
    requires |outs| <= |cfg.list|
    requires forall j {:trigger outs[j]} :: 0 <= j < |outs| ==> Allowed(cfg, j, outs[j])
    ensures ReturnsWith(cfg, outs, report, failed) <==> Schedulable(outs, report, WorkerCount(cfg))
  {
    hide Schedulable, Allowed, Results;
    if Schedulable(outs, report, WorkerCount(cfg)) {
      var ctx := if failed then DeadlineExceeded else Canceled;
      ScheduleRuns(cfg, outs, report, ctx);
      var steps :| Finished(cfg, steps) && Results(cfg, steps) == outs && EndOf(cfg, steps).report == report
        && EndOf(cfg, steps).ctx == ctx;
      ErrorExactly(cfg, steps);
    }
    if ReturnsWith(cfg, outs, report, failed) {
      var steps :| Finished(cfg, steps) && Results(cfg, steps) == outs && EndOf(cfg, steps).report == report
        && EndOf(cfg, steps).main.failed == failed;
      RunIsSchedulable(cfg, steps);
    }
  }

  /** With a worker for every check there is always room, so every merge can be delivered. */
  lemma RoomForAll(outs: seq<seq<Finding>>, report: seq<Finding>, n: nat)
    requires |outs| <= n
    ensures Schedulable(outs, report, n) <==> Interleaves(report, outs)
  {
    if Interleaves(report, outs) {
      var origin: seq<nat> :| MergedBy(report, outs, origin);
      FitsWide(report, origin, outs, n);
    }
  }

  lemma {:induction false} FitsWide(report: seq<Finding>, origin: seq<nat>, outs: seq<seq<Finding>>, n: nat)
    requires |outs| <= n && |report| == |origin|
    requires forall i {:trigger origin[i]} :: 0 <= i < |origin| ==> origin[i] < |outs|
    ensures Fits(report, origin, AsMap(outs), n)
  {
    if report != [] {
      var init, before := report[..|report| - 1], origin[..|origin| - 1];
      FitsWide(init, before, outs, n);
      ReachBelow(origin, |outs|);
      SubsetSize(OpenJobs(init, before, AsMap(outs), Reach(origin)), UpTo(|outs|));
    }
  }

  function UpTo(n: nat): (s: set<nat>)
    ensures |s| == n
    ensures forall j {:trigger j in s} :: j in s <==> 0 <= j < n
  {
    if n == 0 then {} else UpTo(n - 1) + {n - 1}
  }
}
