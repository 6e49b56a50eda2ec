/**
  What a canceled context does to the verdict and the exit code. It is not reported as an
  error, it can leave checks undispatched, and it can make interrupted checks answer differently.
 */
module Cancellation {
  import opened Sequences
  import opened Findings
  import opened Registry
  import opened Pool
  import opened PoolLaws
  import opened PoolOrder
  import opened PoolSchedules

  /** Some finding that a check returned after the context had ended outranks `s`. */
  ghost predicate LateOutranks(cfg: Config, steps: seq<Step>, s: Status)
    requires Finished(cfg, steps)
  {
    exists j, f {:trigger f in Results(cfg, steps)[j]} ::
      && 0 <= j < |Results(cfg, steps)| && j in EndOf(cfg, steps).late
      && f in Results(cfg, steps)[j] && Rank(f.status) > Rank(s)
  }

  /** What a run reports is what its checks returned. */
  lemma {:induction false} ReportIsResults(cfg: Config, steps: seq<Step>, f: Finding)
    requires Finished(cfg, steps)
    ensures f in EndOf(cfg, steps).report <==>
      exists j {:trigger Results(cfg, steps)[j]} :: 0 <= j < |Results(cfg, steps)| && f in Results(cfg, steps)[j]
  {
    hide Results, Interleaves, Subsequence, Allowed;
    var report, outs := EndOf(cfg, steps).report, Results(cfg, steps);
    RunDelivers(cfg, steps);
    assert f in report <==> f in multiset(report);
    assert f in Concat(outs) <==> f in multiset(Concat(outs));
    ConcatMembers(outs, f);
  }

  /**
    A run that was cut short has fewer results, and those of the checks that the ended context
    interrupted are different ones. Where the others agree with a second run, the cut one looks
    worse exactly when such an interrupted check returned a finding that outranks all of that run.
   */
  lemma {:induction false} CutOutranksExactly(cfg: Config, cut: seq<Step>, full: seq<Step>)
    requires Finished(cfg, cut) && Finished(cfg, full)
    requires forall j {:trigger Results(cfg, cut)[j]} :: 0 <= j < |Results(cfg, cut)| && j !in EndOf(cfg, cut).late ==>
      j < |Results(cfg, full)| && Results(cfg, cut)[j] == Results(cfg, full)[j]
    ensures Rank(Verdict(EndOf(cfg, cut).report)) > Rank(Verdict(EndOf(cfg, full).report))
       <==> LateOutranks(cfg, cut, Verdict(EndOf(cfg, full).report))
  {
    hide Rank, Verdict, Results;
    var part, whole := EndOf(cfg, cut).report, EndOf(cfg, full).report;
    if LateOutranks(cfg, cut, Verdict(whole)) {
      var j, f :| 0 <= j < |Results(cfg, cut)| && f in Results(cfg, cut)[j] && Rank(f.status) > Rank(Verdict(whole));
      ReportIsResults(cfg, cut, f);
      NoneOutranks(part, f);
    }
    if Rank(Verdict(part)) > Rank(Verdict(whole)) {
      var f := FindVerdict(part, whole);
      ReportIsResults(cfg, cut, f);
      var j :| 0 <= j < |Results(cfg, cut)| && f in Results(cfg, cut)[j];
      if j !in EndOf(cfg, cut).late {
        assert f in Results(cfg, full)[j];
        ReportIsResults(cfg, full, f);
        NoneOutranks(whole, f);
      }
    }
  }

  lemma NoneOutranks(fs: seq<Finding>, f: Finding)
    requires f in fs
    ensures Rank(f.status) <= Rank(Verdict(fs))
  {
    VerdictIsMaximal(fs);
  }

  lemma FindVerdict(fs: seq<Finding>, other: seq<Finding>) returns (f: Finding)
    requires Rank(Verdict(fs)) > Rank(Verdict(other))
    ensures f in fs && f.status == Verdict(fs)
  {
    VerdictIsMaximal(fs);
    var i :| 0 <= i < |fs| && fs[i].status == Verdict(fs);
    f := fs[i];
  }

  /**
    Whenever a run without an error delivers the results of some of these checks, its exit code
    is that of them all.
   */
  ghost predicate ExitSurvivesCancel(cfg: Config, outs: seq<seq<Finding>>, strict: bool) {
    forall steps {:trigger Finished(cfg, steps)} ::
      Finished(cfg, steps) && !EndOf(cfg, steps).main.failed && Results(cfg, steps) <= outs ==>
        ExitCodeOf(EndOf(cfg, steps).report, strict) == ExitCodeOf(Concat(outs), strict)
  }

  /**
    A cancellation is no error, and it can hide what the remaining checks would have found: the
    exit code survives every cancellation exactly when it is 0 in the first place.
   */
  lemma {:induction false} CancelKeepsExitExactly(cfg: Config, outs: seq<seq<Finding>>, strict: bool)
    requires |outs| <= |cfg.list|
    requires forall j {:trigger outs[j]} :: 0 <= j < |outs| ==> Allowed(cfg, j, outs[j])
    ensures ExitSurvivesCancel(cfg, outs, strict) <==> ExitCodeOf(Concat(outs), strict) == 0
  {
    hide Results, Allowed, Schedulable;
    if ExitCodeOf(Concat(outs), strict) == 0 {
      forall steps | Finished(cfg, steps) && Results(cfg, steps) <= outs
        ensures ExitCodeOf(EndOf(cfg, steps).report, strict) == 0
      {
        forall f | f in EndOf(cfg, steps).report
          ensures f in Concat(outs)
        {
          ReportIsResults(cfg, steps, f);
          var j :| 0 <= j < |Results(cfg, steps)| && f in Results(cfg, steps)[j];
          assert f in outs[j];
          ConcatMembers(outs, f);
        }
        FewerExitNoWorse(EndOf(cfg, steps).report, Concat(outs), strict);
      }
    } else {
      var steps := CancelledAtOnce(cfg);
      assert Results(cfg, steps) <= outs;
      assert ExitCodeOf([], strict) == 0;
    }
  }

  lemma FewerExitNoWorse(part: seq<Finding>, whole: seq<Finding>, strict: bool)
    requires (forall f {:trigger f in part} :: f in part ==> f in whole) && ExitCodeOf(whole, strict) == 0
    ensures ExitCodeOf(part, strict) == 0
  {
    forall s | Has(part, s)
      ensures Has(whole, s)
    {
      var i :| 0 <= i < |part| && part[i].status == s;
      assert part[i] in part;
      var k :| 0 <= k < |whole| && whole[k] == part[i];
      assert whole[k].status == s;
    }
  }

  /** Cancelled before anything was dispatched. */
  lemma {:induction false} CancelledAtOnce(cfg: Config) returns (steps: seq<Step>)
    ensures Finished(cfg, steps) && !EndOf(cfg, steps).main.failed
    ensures Results(cfg, steps) == [] && EndOf(cfg, steps).report == []
  {
    assert MergedBy([], [], []);
    assert Fits([], [], AsMap([]), WorkerCount(cfg));
    ScheduleRuns(cfg, [], [], Canceled);
    steps :| Finished(cfg, steps) && Results(cfg, steps) == [] && EndOf(cfg, steps).report == []
      && EndOf(cfg, steps).ctx == Canceled;
    ErrorExactly(cfg, steps);
  }

  /** A single check runs to its end, whether the context is canceled before it returns or not at all. */
  lemma {:induction false} OneCheckRun(cfg: Config, out: seq<Finding>, cut: bool) returns (steps: seq<Step>)
    requires |cfg.list| == 1 && Allowed(cfg, 0, out)
    ensures Finished(cfg, steps) && !EndOf(cfg, steps).main.failed
    ensures EndOf(cfg, steps).ctx == if cut then Canceled else Live
    ensures Results(cfg, steps) == [out] && (cut ==> 0 in EndOf(cfg, steps).late)
  {
    hide Allowed;
    steps := [];
    steps := Then(cfg, steps, Dispatch(0));
    if cut {
      steps := Then(cfg, steps, End(Canceled));
    }
    steps := Then(cfg, steps, Execute(0, out));
    var most := EndOf(cfg, steps);
    steps := Complete(cfg, steps);
    ReachableIsGood(cfg, steps);
    ErrorExactly(cfg, steps);
    OnlyResult(cfg, EndOf(cfg, steps), out);
  }

  lemma OnlyResult(cfg: Config, s: State, out: seq<Finding>)
    requires Good(cfg, s) && |cfg.list| == 1 && 0 in s.outputs && s.outputs[0] == out
    ensures Outputs(s.outputs, s.next) == [out]
  {
    assert Outputs(s.outputs, 0) == [];
  }

  lemma {:induction false} ExitOfOne(cfg: Config, steps: seq<Step>, f: Finding, strict: bool)
    requires Finished(cfg, steps) && Results(cfg, steps) == [[f]]
    ensures ExitCodeOf(EndOf(cfg, steps).report, strict)
         == if f.status == CRIT then 1 else if f.status == WARN && strict then 2 else 0
  {
    hide Results, Interleaves, Subsequence, Allowed;
    RunDelivers(cfg, steps);
    ConcatOne([f]);
    VerdictIgnoresOrder(EndOf(cfg, steps).report, [f]);
    assert [f][0].status == f.status;
  }

  /** A finished run without an error, its results, and the exit code its report gives. */
  ghost predicate Gives(cfg: Config, steps: seq<Step>, outs: seq<seq<Finding>>, strict: bool, code: int) {
    && Finished(cfg, steps) && !EndOf(cfg, steps).main.failed
    && Results(cfg, steps) == outs && ExitCodeOf(EndOf(cfg, steps).report, strict) == code
  }

  /** Cancelled before its only check starts, the command exits 0; the check would have found a CRIT. */
  lemma {:induction false} CancelHidesFinding(cfg: Config, crit: Finding, strict: bool)
    returns (cut: seq<Step>, full: seq<Step>)
    requires |cfg.list| == 1 && HasAll(cfg.capabilities, cfg.list[0].needs) && crit.status == CRIT
    ensures Gives(cfg, cut, [], strict, 0) && Gives(cfg, full, [[crit]], strict, 1) && EndOf(cfg, full).ctx == Live
  {
    hide Results;
    cut := CancelledAtOnce(cfg);
    full := OneCheckRun(cfg, [crit], false);
    ExitOfOne(cfg, full, crit, strict);
    assert ExitCodeOf([], strict) == 0;
  }

  /**
    Cancelled while its only check runs, so that it answers with a CRIT, the command exits 1;
    else nothing is wrong.
   */
  lemma {:induction false} CancelLooksWorse(cfg: Config, crit: Finding, ok: Finding, strict: bool)
    returns (cut: seq<Step>, full: seq<Step>)
    requires |cfg.list| == 1 && HasAll(cfg.capabilities, cfg.list[0].needs)
    requires crit.status == CRIT && ok.status == Findings.OK
    ensures Gives(cfg, cut, [[crit]], strict, 1) && 0 in EndOf(cfg, cut).late
    ensures Gives(cfg, full, [[ok]], strict, 0) && EndOf(cfg, full).ctx == Live
  {
    hide Results;
    cut := OneCheckRun(cfg, [crit], true);
    full := OneCheckRun(cfg, [ok], false);
    ExitOfOne(cfg, cut, crit, strict);
    ExitOfOne(cfg, full, ok, strict);
  }

  /**
    The end of the context does not stop the feeder at once: `select` may still pick the send,
    so a check can be dispatched, and return, after the context has ended.
   */
  lemma {:induction false} DispatchAfterEnd(cfg: Config, why: Context) returns (steps: seq<Step>)
    requires cfg.list != [] && why != Live
    ensures Finished(cfg, steps) && EndOf(cfg, steps).ctx == why
    ensures exists i, w {:trigger steps[i], Dispatch(w)} ::
      0 < i < |steps| && steps[i] == Dispatch(w) && steps[i - 1] == End(why)
    ensures Results(cfg, steps) != [] && 0 in EndOf(cfg, steps).late
  {
    hide Allowed;
    steps := [];
    steps := Then(cfg, steps, End(why));
    steps := Then(cfg, steps, Dispatch(0));
    steps := Then(cfg, steps, Execute(0, SomeOutput(cfg, 0)));
    var begun := steps;
    assert begun[0] == End(why) && begun[1] == Dispatch(0);
    steps := Complete(cfg, begun);
    ReachableIsGood(cfg, steps);
    assert steps[0] == End(why) && steps[1] == Dispatch(0);
    assert 0 in EndOf(cfg, steps).outputs;
  }
}
