/**
  From the runner to the exit code and the screen: what does not depend on how the
  goroutines were scheduled, although the order of the report does.
 */
module Determinism {
  import opened Sequences
  import opened Sorting
  import opened Findings
  import opened Baseline
  import opened Cli
  import opened Registry
  import opened Grouping
  import opened Pool
  import opened PoolLaws
  import opened PoolOrder
  import opened PoolSchedules
  import Compact
  import TableSection

  // ---------- Exit code ----------

  /** What `Run` hands to the command when this schedule is over. */
  ghost function RanOf(cfg: Config, steps: seq<Step>, cluster: string): Ran
    requires Finished(cfg, steps)
  {
    Ran(Report(cluster, "", EndOf(cfg, steps).report), EndOf(cfg, steps).main.failed)
  }

  /**
    For given results, what a schedule can change about the exit status is whether the deadline
    ended the run before `Run` returned. Without that, any number of workers and any interleaving
    give the status of the results taken in list order, whatever is hidden or tagged. (Which
    results there are is another matter when the context ends: see the module `Cancellation`.)
   */
  lemma {:induction false} ExitIsScheduleIndependent(cfg: Config, steps: seq<Step>, cluster: string, flags: Flags)
    requires Finished(cfg, steps)
    ensures var o, outs := CheckCommand(RanOf(cfg, steps, cluster), flags), Results(cfg, steps);
      && (o.RunFailed? <==> EndOf(cfg, steps).ctx == DeadlineExceeded)
      && (ToolError(RanOf(cfg, steps, cluster), flags) ==> ExitStatus(o) == 3)
      && (!ToolError(RanOf(cfg, steps, cluster), flags) ==> ExitStatus(o) == ExitCodeOf(Concat(outs), flags.strict))
      && (o.Done? ==> o.exit == ExitOf(Concat(outs), flags.strict))
  {
    hide Results, Interleaves, Subsequence, Allowed;
    var report, outs := EndOf(cfg, steps).report, Results(cfg, steps);
    RunDelivers(cfg, steps);
    ErrorExactly(cfg, steps);
    VerdictIgnoresOrder(report, Concat(outs));
    CommandKeepsExit(RanOf(cfg, steps, cluster), flags);
    ExitAgrees(Concat(outs), flags.strict);
  }

  lemma ExitAgrees(fs: seq<Finding>, strict: bool)
    ensures ExitOf(fs, strict) == Clean ==> ExitCodeOf(fs, strict) == 0
    ensures ExitOf(fs, strict) != Clean ==> ExitOf(fs, strict).code == ExitCodeOf(fs, strict)
  {
  }

  // ---------- What is shown ----------

  /** Every check's findings come in the same order in both lists. */
  ghost predicate SamePerCheck(a: seq<Finding>, b: seq<Finding>) {
    forall c {:trigger OfCheck(a, c)} {:trigger OfCheck(b, c)} :: OfCheck(a, c) == OfCheck(b, c)
  }

  lemma {:induction false} FromIsOfCheck(report: seq<Finding>, origin: seq<nat>, c: string, job: nat)
    requires |report| == |origin|
    requires forall i {:trigger origin[i]} :: 0 <= i < |report| ==> (report[i].check == c <==> origin[i] == job)
    ensures OfCheck(report, c) == From(report, origin, job)
  {
    if report != [] {
      FromIsOfCheck(report[..|report| - 1], origin[..|origin| - 1], c, job);
      assert (report[|report| - 1].check == c) <==> (origin[|origin| - 1] == job);
    }
  }

  /** What a report says about one check is what that check returned. */
  lemma MergeOfCheck(list: seq<Check>, report: seq<Finding>, outs: seq<seq<Finding>>, c: string)
    requires IdsIncrease(list) && FromChecks(list, outs) && Interleaves(report, outs)
    ensures forall j {:trigger outs[j]} :: 0 <= j < |outs| && list[j].id == c ==> OfCheck(report, c) == outs[j]
    ensures (forall j {:trigger list[j]} :: 0 <= j < |outs| ==> list[j].id != c) ==> OfCheck(report, c) == []
  {
    var origin: seq<nat> :| MergedBy(report, outs, origin);
    forall i | 0 <= i < |report|
      ensures origin[i] < |outs| && report[i].check == list[origin[i]].id
    {
      OriginNamesCheck(list, report, outs, origin, i);
    }
    forall j: nat | j < |outs| && list[j].id == c
      ensures OfCheck(report, c) == outs[j]
    {
      forall i | 0 <= i < |report|
        ensures report[i].check == c <==> origin[i] == j
      {
        DistinctIdsOf(list, origin[i], j);
      }
      FromIsOfCheck(report, origin, c, j);
    }
    if forall j {:trigger list[j]} :: 0 <= j < |outs| ==> list[j].id != c {
      FilterNone(report, (f: Finding) => f.check == c);
    }
  }

  lemma MergesAgreePerCheck(list: seq<Check>, outs: seq<seq<Finding>>, a: seq<Finding>, b: seq<Finding>)
    requires IdsIncrease(list) && FromChecks(list, outs) && Interleaves(a, outs) && Interleaves(b, outs)
    ensures SamePerCheck(a, b)
  {
    forall c
      ensures OfCheck(a, c) == OfCheck(b, c)
    {
      MergeOfCheck(list, a, outs, c);
      MergeOfCheck(list, b, outs, c);
      if j :| 0 <= j < |outs| && list[j].id == c {
        assert OfCheck(a, c) == outs[j] == OfCheck(b, c);
      }
    }
  }

  function Both(p: Finding -> bool, q: Finding -> bool): Finding -> bool {
    f => p(f) && q(f)
  }

  lemma OfCheckFilter(fs: seq<Finding>, p: Finding -> bool, c: string)
    ensures OfCheck(Filter(fs, p), c) == Filter(OfCheck(fs, c), p)
  {
    var q := (f: Finding) => f.check == c;
    FilterFilter(fs, p, q, Both(p, q));
    FilterFilter(fs, q, p, Both(p, q));
  }

  /** Dropping findings by any criterion keeps the agreement. */
  lemma FilterKeepsAgreement(a: seq<Finding>, b: seq<Finding>, p: Finding -> bool)
    requires SamePerCheck(a, b)
    ensures SamePerCheck(Filter(a, p), Filter(b, p))
  {
    forall c
      ensures OfCheck(Filter(a, p), c) == OfCheck(Filter(b, p), c)
    {
      OfCheckFilter(a, p, c);
      OfCheckFilter(b, p, c);
    }
  }

  lemma {:induction false} OfCheckTagAll(fs: seq<Finding>, base: seq<Finding>, c: string)
    ensures OfCheck(TagAll(fs, base), c) == TagAll(OfCheck(fs, c), base)
  {
    hide OfCheck, TagAll, KeysOf;
    if fs == [] {
      NothingToTag(base, c);
    } else {
      var init, f := fs[..|fs| - 1], fs[|fs| - 1];
      OfCheckTagAll(init, base, c);
      OfCheckSnoc(TagAll(init, base), Tag(f, KeysOf(base)), c);
      OfCheckSnoc(init, f, c);
      TagAllSnoc(init, f, base);
      TagAllSnoc(OfCheck(init, c), f, base);
      assert fs == init + [f];
    }
  }

  lemma NothingToTag(base: seq<Finding>, c: string)
    ensures OfCheck(TagAll([], base), c) == TagAll(OfCheck([], c), base)
  {
  }

  lemma OfCheckSnoc(fs: seq<Finding>, f: Finding, c: string)
    ensures OfCheck(fs + [f], c) == if f.check == c then OfCheck(fs, c) + [f] else OfCheck(fs, c)
  {
    FilterSnoc(fs, f, (g: Finding) => g.check == c);
  }

  lemma TagAllSnoc(fs: seq<Finding>, f: Finding, base: seq<Finding>)
    ensures TagAll(fs + [f], base) == TagAll(fs, base) + [Tag(f, KeysOf(base))]
  {
    assert (fs + [f])[..|fs|] == fs;
  }

  /** So does tagging against any baseline. */
  lemma TaggingKeepsAgreement(a: seq<Finding>, b: seq<Finding>, base: seq<Finding>)
    requires SamePerCheck(a, b)
    ensures SamePerCheck(TagAll(a, base), TagAll(b, base))
  {
    forall c
      ensures OfCheck(TagAll(a, base), c) == OfCheck(TagAll(b, base), c)
    {
      OfCheckTagAll(a, base, c);
      OfCheckTagAll(b, base, c);
    }
  }

  lemma TiesWithinCheck(fs: seq<Finding>, x: Finding)
    ensures Ties(fs, ByCheckThenResource, x) == Filter(OfCheck(fs, x.check), Tied(ByCheckThenResource, x))
  {
    forall y
      ensures ByCheckThenResource(x, y) && ByCheckThenResource(y, x) ==> x.check == y.check
    {
      TiesShareFields(x, y);
    }
    FilterFilter(fs, (g: Finding) => g.check == x.check, Tied(ByCheckThenResource, x), Tied(ByCheckThenResource, x));
  }

  /** The flat order sees a list only through its checks' own sublists. */
  lemma AgreementFixesOrder(a: seq<Finding>, b: seq<Finding>)
    requires SamePerCheck(a, b)
    ensures FlatOrder(a) == FlatOrder(b)
  {
    OrdersArePreorders();
    StableSortCorrect(a, ByCheckThenResource);
    forall x
      ensures Ties(FlatOrder(a), ByCheckThenResource, x) == Ties(b, ByCheckThenResource, x)
    {
      TiesWithinCheck(a, x);
      TiesWithinCheck(b, x);
      assert OfCheck(a, x.check) == OfCheck(b, x.check);
    }
    StableSortUnique(FlatOrder(a), b, ByCheckThenResource);
  }

  lemma AgreementFixesListing(a: seq<Finding>, b: seq<Finding>, s: Status)
    requires SamePerCheck(a, b)
    ensures FlatOrder(OfStatus(a, s)) == FlatOrder(OfStatus(b, s))
  {
    FilterKeepsAgreement(a, b, (f: Finding) => f.status == s);
    AgreementFixesOrder(OfStatus(a, s), OfStatus(b, s));
  }

  lemma {:induction false} CommandKeepsAgreement(a: Ran, b: Ran, flags: Flags)
    requires SamePerCheck(a.report.findings, b.report.findings)
    ensures var o, o' := CheckCommand(a, flags), CheckCommand(b, flags);
      o.Done? && o'.Done? ==> SamePerCheck(o.shown.findings, o'.shown.findings)
  {
    FilterKeepsAgreement(a.report.findings, b.report.findings, Unhealthy);
    var u := OnlyUnhealthy(a.report.(distro := flags.distro), flags.onlyUnhealthy).findings;
    var v := OnlyUnhealthy(b.report.(distro := flags.distro), flags.onlyUnhealthy).findings;
    assert SamePerCheck(u, v);
    if flags.loaded.LoadedBaseline? {
      TaggingKeepsAgreement(u, v, flags.loaded.findings);
    }
  }

  /** A section looks the same in the pretty groups, in the compact rows, and in the table at every terminal width. */
  ghost predicate SectionLooksSame(fs: seq<Finding>, fs': seq<Finding>) {
    && FlatOrder(fs) == FlatOrder(fs')
    && (forall gs, gs' {:trigger GroupedAs(gs, fs), GroupedAs(gs', fs')} ::
         GroupedAs(gs, fs) && GroupedAs(gs', fs') ==> gs == gs')
    && Compact.CompactLines(fs) == Compact.CompactLines(fs')
    && forall w {:trigger TableSection.SectionLines(fs, w)} ::
      TableSection.SectionLines(fs, w) == TableSection.SectionLines(fs', w)
  }

  /**
    In the pretty, compact and table outputs the two outcomes cannot be told apart: the same
    tool error, or the same exit and the same sections.
   */
  ghost predicate LooksSame(o: Outcome, o': Outcome) {
    match (o, o')
    case (Done(a, e), Done(b, e')) =>
      && a.cluster == b.cluster && a.distro == b.distro && e == e'
      && forall s {:trigger OfStatus(a.findings, s)} ::
        SectionLooksSame(OfStatus(a.findings, s), OfStatus(b.findings, s))
    case _ => o == o'
  }

  /**
    Merges of the same results are not the same report, but whatever is filtered and tagged
    afterwards, each status section lists the same findings in the same order, and the
    pretty, the compact and the table renderer print the same for it.
   */
  lemma {:induction false} MergesShowTheSame(list: seq<Check>, outs: seq<seq<Finding>>, a: Ran, b: Ran, flags: Flags,
      s: Status)
    requires IdsIncrease(list) && FromChecks(list, outs)
    requires Interleaves(a.report.findings, outs) && Interleaves(b.report.findings, outs)
    ensures var o, o' := CheckCommand(a, flags), CheckCommand(b, flags);
      o.Done? && o'.Done? ==> SectionLooksSame(OfStatus(o.shown.findings, s), OfStatus(o'.shown.findings, s))
  {
    hide FlatOrder, OfStatus, FromChecks, CheckCommand, SamePerCheck;
    MergesAgreePerCheck(list, outs, a.report.findings, b.report.findings);
    CommandKeepsAgreement(a, b, flags);
    var o, o' := CheckCommand(a, flags), CheckCommand(b, flags);
    if o.Done? && o'.Done? {
      AgreementFixesListing(o.shown.findings, o'.shown.findings, s);
      OrderFixesGroups(OfStatus(o.shown.findings, s), OfStatus(o'.shown.findings, s));
    }
  }

  lemma OrderFixesGroups(fs: seq<Finding>, fs': seq<Finding>)
    requires FlatOrder(fs) == FlatOrder(fs')
    ensures forall gs, gs' {:trigger GroupedAs(gs, fs), GroupedAs(gs', fs')} ::
      GroupedAs(gs, fs) && GroupedAs(gs', fs') ==> gs == gs'
  {
    hide FlatOrder, Flatten;
    forall gs, gs' | GroupedAs(gs, fs) && GroupedAs(gs', fs')
      ensures gs == gs'
    {
      GroupsFixed(gs, gs');
    }
  }

  lemma ShownKeepsHeader(ran: Ran, flags: Flags)
    ensures var o := CheckCommand(ran, flags);
      o.Done? ==> o.shown.cluster == ran.report.cluster && o.shown.distro == flags.distro
  {
  }

  /**
    Two finished runs with the same results, whatever their interleavings and worker counts,
    end the command in the same way exactly when both or neither of them returned an error.
   */
  lemma {:induction false} OutcomeAgreesExactly(cfg: Config, steps: seq<Step>, cfg': Config, steps': seq<Step>,
      cluster: string, flags: Flags)
    requires Finished(cfg, steps) && Finished(cfg', steps') && Results(cfg, steps) == Results(cfg', steps')
    requires IdsIncrease(cfg.list) && FromChecks(cfg.list, Results(cfg, steps))
    ensures LooksSame(CheckCommand(RanOf(cfg, steps, cluster), flags),
              CheckCommand(RanOf(cfg', steps', cluster), flags))
       <==> EndOf(cfg, steps).main.failed == EndOf(cfg', steps').main.failed
  {
    hide FlatOrder, OfStatus, Results, FromChecks, SectionLooksSame, Interleaves, Subsequence, Allowed;
    var a, b := RanOf(cfg, steps, cluster), RanOf(cfg', steps', cluster);
    var o, o' := CheckCommand(a, flags), CheckCommand(b, flags);
    if o.Done? && o'.Done? {
      RunDelivers(cfg, steps);
      RunDelivers(cfg', steps');
      ExitIsScheduleIndependent(cfg, steps, cluster, flags);
      ExitIsScheduleIndependent(cfg', steps', cluster, flags);
      ShownKeepsHeader(a, flags);
      ShownKeepsHeader(b, flags);
      forall s
        ensures SectionLooksSame(OfStatus(o.shown.findings, s), OfStatus(o'.shown.findings, s))
      {
        MergesShowTheSame(cfg.list, Results(cfg, steps), a, b, flags, s);
      }
    }
  }

  /**
    Both cases occur: every finished run has a twin with the same results and report that ends
    the command differently.
   */
  lemma {:induction false} ErrorIsUpToTheSchedule(cfg: Config, steps: seq<Step>)
    requires Finished(cfg, steps)
    ensures exists steps' {:trigger Finished(cfg, steps')} ::
      && Finished(cfg, steps') && Results(cfg, steps') == Results(cfg, steps)
      && EndOf(cfg, steps').report == EndOf(cfg, steps).report
      && EndOf(cfg, steps').main.failed != EndOf(cfg, steps).main.failed
  {
    hide Results, Allowed, Schedulable, Interleaves, Subsequence;
    RunDelivers(cfg, steps);
    RunIsSchedulable(cfg, steps);
    ErrorTellsNothing(cfg, Results(cfg, steps), EndOf(cfg, steps).report, !EndOf(cfg, steps).main.failed);
  }
}
