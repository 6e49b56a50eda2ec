/** Runs that overlap: when the watch screen can show an older run than it should, and highlight against a newer one. */
module WatchOrder {
  import opened Sequences
  import opened Sorting
  import opened Findings
  import opened Baseline
  import opened Watch
  import opened WatchLaws

  /** A delivered report with the number of the run it came from; runs are numbered as they are started. */
  datatype Delivery = Delivery(run: nat, rep: Report)

  function Deliveries(es: seq<Event>): seq<Delivery> {
    if es == [] then []
    else
      var e := es[|es| - 1];
      Deliveries(es[..|es| - 1]) + if e.Delivers? then [Delivery(e.run, e.rep)] else []
  }

  function Reps(ds: seq<Delivery>): (reps: seq<Report>)
    ensures |reps| == |ds|
    ensures forall i {:trigger reps[i]} :: 0 <= i < |ds| ==> reps[i] == ds[i].rep
  {
    if ds == [] then [] else Reps(ds[..|ds| - 1]) + [ds[|ds| - 1].rep]
  }

  predicate ByRun(a: Delivery, b: Delivery) {
    a.run <= b.run
  }

  /** The delivered reports in the order in which their runs were started. */
  function InStartOrder(ds: seq<Delivery>): seq<Report> {
    Reps(StableSort(ds, ByRun))
  }

  /**
    If findings are on the screen, they are those of the latest started run that has
    reported, and the highlights compare them with the one started before it.
   */
  ghost predicate UpToDate(es: seq<Event>)
    requires IsHistory(es)
  {
    match ViewOf(WorldAfter(es).screen)
    case FindingsShown(rep, newKeys) =>
      rep == Latest(InStartOrder(Deliveries(es))) && newKeys == Fresh(InStartOrder(Deliveries(es)))
    case _ => true
  }

  /** Refreshing, and a tick outside a pause, start a run. */
  predicate Starts(w: World, e: Event) {
    e == Input(Pressed("r")) || (e.TimerFires? && !w.screen.paused)
  }

  /** Until the program quits, no run is ever started while another is in flight. */
  predicate NoOverlap(es: seq<Event>)
    requires IsHistory(es)
  {
    es == [] ||
    (NoOverlap(es[..|es| - 1])
     && var w := WorldAfter(es[..|es| - 1]);
        Starts(w, es[|es| - 1]) && !w.screen.quitting ==> w.inFlight == {})
  }

  predicate OnlyOutcomes(es: seq<Event>) {
    forall i {:trigger es[i]} :: 0 <= i < |es| ==> es[i].Delivers? || es[i].Breaks?
  }

  /** At every point of the history, however the runs then in flight come back, the screen stays up to date. */
  ghost predicate AlwaysUpToDate(es: seq<Event>) {
    forall k, more {:trigger IsHistory(es[..k] + more)} ::
      0 <= k <= |es| && OnlyOutcomes(more) && IsHistory(es[..k] + more) ==> UpToDate(es[..k] + more)
  }

  // ---------- Without overlap ----------

  lemma {:induction false} PrefixIsHistory(es: seq<Event>, k: nat)
    requires IsHistory(es) && k <= |es|
    ensures IsHistory(es[..k])
    ensures NoOverlap(es) ==> NoOverlap(es[..k])
  {
    if k == |es| {
      assert es[..k] == es;
    } else {
      PrefixIsHistory(es[..|es| - 1], k);
      assert es[..|es| - 1][..k] == es[..k];
    }
  }

  lemma {:induction false} OutcomesKeepNoOverlap(es: seq<Event>, more: seq<Event>)
    requires IsHistory(es + more) && OnlyOutcomes(more) && IsHistory(es) && NoOverlap(es)
    ensures NoOverlap(es + more)
    decreases |more|
  {
    if more == [] {
      assert es + more == es;
    } else {
      var init := more[..|more| - 1];
      assert (es + more)[..|es + more| - 1] == es + init;
      OutcomesKeepNoOverlap(es, init);
    }
  }

  /** The run in flight, if any, is newer than every run that has reported, and those came in order. */
  ghost predicate Orderly(w: World, ds: seq<Delivery>) {
    && (forall x, y {:trigger x in w.inFlight, y in w.inFlight} :: x in w.inFlight && y in w.inFlight ==> x == y)
    && (forall x {:trigger x in w.inFlight} :: x in w.inFlight ==> x < w.started)
    && (forall i, x {:trigger ds[i], x in w.inFlight} :: 0 <= i < |ds| && x in w.inFlight ==> ds[i].run < x)
    && (forall i {:trigger ds[i]} :: 0 <= i < |ds| ==> ds[i].run < w.started)
    && (forall i, j {:trigger ds[i], ds[j]} :: 0 <= i < j < |ds| ==> ds[i].run < ds[j].run)
  }

  lemma OrderlyStep(w: World, e: Event, ds: seq<Delivery>)
    requires CanHappen(w, e) && Orderly(w, ds) && (Starts(w, e) ==> w.inFlight == {})
    ensures Orderly(Happened(w, e), if e.Delivers? then ds + [Delivery(e.run, e.rep)] else ds)
  {
    hide Happened;
    HappenedIs(w, e);
  }

  lemma QuittingStays(w: World, e: Event)
    requires CanHappen(w, e) && w.screen.quitting
    ensures Happened(w, e).screen.quitting
  {
    HappenedIs(w, e);
  }

  /** While no run is started over another, runs report in the order of their start. */
  lemma {:induction false} NoOverlapIsOrderly(es: seq<Event>)
    requires IsHistory(es) && NoOverlap(es) && !WorldAfter(es).screen.quitting
    ensures Orderly(WorldAfter(es), Deliveries(es))
  {
    hide Orderly, CanHappen, Happened, Starts;
    if es == [] {
      FirstIsOrderly();
    } else {
      var init, e := es[..|es| - 1], es[|es| - 1];
      if WorldAfter(init).screen.quitting {
        QuittingStays(WorldAfter(init), e);
      } else {
        NoOverlapIsOrderly(init);
        OrderlyStep(WorldAfter(init), e, Deliveries(init));
        assert !e.Delivers? ==> Deliveries(es) == Deliveries(init);
      }
    }
  }

  lemma FirstIsOrderly()
    ensures Orderly(FirstWorld(), [])
  {
    ObeyRunAndTimer(World(FIRST_SCREEN, 0, 0, {}, false));
  }

  lemma ByRunIsPreorder()
    ensures TotalPreorder(ByRun)
  {
  }

  lemma {:induction false} OrderlyStaysAsItIs(w: World, ds: seq<Delivery>)
    requires Orderly(w, ds)
    ensures StableSort(ds, ByRun) == ds
  {
    ByRunIsPreorder();
    StableSortUnique(ds, ds, ByRun);
  }

  lemma {:induction false} RepsOfDeliveries(es: seq<Event>)
    ensures Reps(Deliveries(es)) == Reports(es)
  {
    if es != [] {
      var init, e := es[..|es| - 1], es[|es| - 1];
      RepsOfDeliveries(init);
      if e.Delivers? {
        assert Deliveries(es)[..|Deliveries(init)|] == Deliveries(init);
      } else {
        assert Deliveries(es) == Deliveries(init) && Reports(es) == Reports(init);
      }
    }
  }

  lemma {:induction false} NoOverlapIsUpToDate(es: seq<Event>)
    requires IsHistory(es) && NoOverlap(es)
    ensures UpToDate(es)
  {
    hide StableSort, Orderly, Fresh;
    if !WorldAfter(es).screen.quitting {
      NoOverlapIsOrderly(es);
      OrderlyStaysAsItIs(WorldAfter(es), Deliveries(es));
      RepsOfDeliveries(es);
      ScreenShowsHistory(es);
    }
  }

  // ---------- With overlap ----------

  lemma {:induction false} FindOverlap(es: seq<Event>) returns (k: nat)
    requires IsHistory(es) && !NoOverlap(es)
    ensures k < |es| && IsHistory(es[..k]) && CanHappen(WorldAfter(es[..k]), es[k])
    ensures var w := WorldAfter(es[..k]);
      Starts(w, es[k]) && !w.screen.quitting && w.inFlight != {}
  {
    var init := es[..|es| - 1];
    if NoOverlap(init) {
      k := |es| - 1;
    } else {
      k := FindOverlap(init);
      assert init[..k] == es[..k];
    }
  }

  /** After an overlapping start two runs are in flight, and the screen is still there. */
  lemma OverlapLeavesTwo(es: seq<Event>, e: Event) returns (a: nat, b: nat)
    requires IsHistory(es) && CanHappen(WorldAfter(es), e) && Starts(WorldAfter(es), e)
    requires !WorldAfter(es).screen.quitting && WorldAfter(es).inFlight != {}
    ensures a < b && {a, b} <= Happened(WorldAfter(es), e).inFlight && !Happened(WorldAfter(es), e).screen.quitting
  {
    hide Happened;
    var w := WorldAfter(es);
    EveryRunAccountedFor(es);
    HappenedIs(w, e);
    a :| a in w.inFlight;
    b := w.started;
  }

  lemma {:induction false} LongerThanKeys(fs: seq<Finding>) returns (n: nat)
    ensures forall i {:trigger fs[i]} :: 0 <= i < |fs| ==> |Key(fs[i])| < n
  {
    if fs == [] {
      n := 0;
    } else {
      n := LongerThanKeys(fs[..|fs| - 1]);
      var last := |Key(fs[|fs| - 1])|;
      n := if last < n then n else last + 1;
    }
  }

  lemma FindingWithNewKey(fs: seq<Finding>) returns (f: Finding)
    ensures Key(f) !in KeysOf(fs)
  {
    var n := LongerThanKeys(fs);
    f := Finding("", WARN, Repeat('x', n), "", map[], 0);
    assert |Key(f)| >= n;
  }

  /** A late report from an older run does not become the latest. */
  lemma {:induction false} OlderIsNotLatest(ds: seq<Delivery>, newer: Delivery, older: Delivery)
    requires older.run < newer.run
    ensures Latest(InStartOrder(ds + [newer] + [older])) == Latest(InStartOrder(ds + [newer]))
    ensures |InStartOrder(ds + [newer] + [older])| == |ds| + 2
  {
    var some := ds + [newer];
    var sorted := StableSort(some, ByRun);
    ByRunIsPreorder();
    StableSortSorted(some, ByRun);
    StableSortPermutes(some, ByRun);
    StableSortPermutes(some + [older], ByRun);
    assert |multiset(sorted)| == |multiset(some)|;
    assert |multiset(StableSort(some + [older], ByRun))| == |multiset(some + [older])|;
    assert some[|ds|] == newer;
    assert newer in multiset(some);
    assert newer in multiset(sorted);
    var i :| 0 <= i < |sorted| && sorted[i] == newer;
    var last := sorted[|sorted| - 1];
    assert i == |sorted| - 1 || ByRun(sorted[i], last);
    assert (some + [older])[..|some|] == some;
    assert StableSort(some + [older], ByRun) == Insert(sorted, older, ByRun);
    assert Insert(sorted, older, ByRun) == Insert(sorted[..|sorted| - 1], older, ByRun) + [last];
  }

  lemma FreshIsPart(reports: seq<Report>)
    ensures Fresh(reports) <= KeysOf(Latest(reports).findings)
  {
  }

  lemma HistorySnoc(es: seq<Event>, e: Event)
    requires IsHistory(es) && CanHappen(WorldAfter(es), e)
    ensures IsHistory(es + [e]) && WorldAfter(es + [e]) == Happened(WorldAfter(es), e)
    ensures Deliveries(es + [e]) == Deliveries(es) + if e.Delivers? then [Delivery(e.run, e.rep)] else []
  {
    assert (es + [e])[..|es|] == es;
  }

  /** A delivered report is shown at once, and compared with the one delivered before it. */
  lemma {:induction false} DeliveryShows(es: seq<Event>, e: Event)
    requires IsHistory(es) && e.Delivers? && CanHappen(WorldAfter(es), e) && !WorldAfter(es).screen.quitting
    ensures var s := Happened(WorldAfter(es), e).screen;
      && !s.quitting && ViewOf(s) == FindingsShown(e.rep, s.newKeys) && s.prev == KeysOf(e.rep.findings) && s.comparing
      && (WorldAfter(es).screen.comparing ==> s.newKeys == KeysOf(e.rep.findings) - WorldAfter(es).screen.prev)
    ensures Happened(WorldAfter(es), e).inFlight == WorldAfter(es).inFlight - {e.run}
  {
    HappenedIs(WorldAfter(es), e);
  }

  /**
    With two runs in flight the program can come to show the report of an older run as if it
    were the latest, with highlights that are not the difference between the latest two.
   */
  lemma {:induction false} TwoInFlightMislead(es: seq<Event>, a: nat, b: nat) returns (more: seq<Event>)
    requires IsHistory(es) && a < b && {a, b} <= WorldAfter(es).inFlight && !WorldAfter(es).screen.quitting
    ensures OnlyOutcomes(more) && IsHistory(es + more)
    ensures var view, started := ViewOf(WorldAfter(es + more).screen), InStartOrder(Deliveries(es + more));
      && view.FindingsShown?
      && Delivery(a, view.rep) in Deliveries(es + more) && Delivery(b, NO_REPORT) in Deliveries(es + more)
      && view.rep != Latest(started) && view.newKeys != Fresh(started)
  {
    hide Happened, InStartOrder, Fresh;
    var newer := Delivers(b, NO_REPORT, 0, 0);
    HistorySnoc(es, newer);
    DeliveryShows(es, newer);
    var latest := Latest(InStartOrder(Deliveries(es) + [Delivery(b, NO_REPORT)]));
    var f := FindingWithNewKey(latest.findings);
    var older := Delivers(a, Report("", "", [f]), 0, 0);
    HistorySnoc(es + [newer], older);
    DeliveryShows(es + [newer], older);
    more := [newer, older];
    assert es + more == es + [newer] + [older];
    OlderIsNotLatest(Deliveries(es), Delivery(b, NO_REPORT), Delivery(a, older.rep));
    FreshIsPart(InStartOrder(Deliveries(es + more)));
    assert Key(f) in KeysOf(older.rep.findings) by {
      assert f in older.rep.findings;
    }
    assert KeysOf(NO_REPORT.findings) == {};
  }

  /**
    The screen is always up to date, however the runs in flight come back, exactly when no
    run was ever started while another one was in flight.
   */
  lemma {:induction false} UpToDateExactly(es: seq<Event>)
    requires IsHistory(es)
    ensures AlwaysUpToDate(es) <==> NoOverlap(es)
  {
    hide UpToDate, CanHappen, Happened;
    if NoOverlap(es) {
      forall k: nat, more | k <= |es| && OnlyOutcomes(more) && IsHistory(es[..k] + more)
        ensures UpToDate(es[..k] + more)
      {
        PrefixIsHistory(es, k);
        OutcomesKeepNoOverlap(es[..k], more);
        NoOverlapIsUpToDate(es[..k] + more);
      }
    } else {
      var k := FindOverlap(es);
      assert es[..k + 1] == es[..k] + [es[k]];
      HistorySnoc(es[..k], es[k]);
      var a, b := OverlapLeavesTwo(es[..k], es[k]);
      var more := TwoInFlightMislead(es[..k + 1], a, b);
      MisleadingIsNotUpToDate(es[..k + 1] + more);
    }
  }

  lemma MisleadingIsNotUpToDate(es: seq<Event>)
    requires IsHistory(es)
    requires var view := ViewOf(WorldAfter(es).screen);
      view.FindingsShown? && view.rep != Latest(InStartOrder(Deliveries(es)))
    ensures !UpToDate(es)
  {
  }

  /** Pressing `r` while a run is in flight is enough. */
  lemma {:induction false} RefreshOverlaps(es: seq<Event>)
    requires IsHistory(es) && !WorldAfter(es).screen.quitting && WorldAfter(es).inFlight != {}
    ensures IsHistory(es + [Input(Pressed("r"))]) && !AlwaysUpToDate(es + [Input(Pressed("r"))])
  {
    hide AlwaysUpToDate, Happened;
    var e := Input(Pressed("r"));
    HistorySnoc(es, e);
    assert (es + [e])[..|es|] == es;
    assert !NoOverlap(es + [e]);
    UpToDateExactly(es + [e]);
  }

  /** For instance right at the start, before the first report. */
  lemma {:induction false} RefreshAtStart()
    ensures IsHistory([Input(Pressed("r"))]) && !AlwaysUpToDate([Input(Pressed("r"))])
  {
    hide AlwaysUpToDate, NoOverlap, IsHistory;
    ObeyRunAndTimer(World(FIRST_SCREEN, 0, 0, {}, false));
    StartIsHistory();
    assert 0 in WorldAfter([]).inFlight;
    RefreshOverlaps([]);
    assert [] + [Input(Pressed("r"))] == [Input(Pressed("r"))];
  }

  lemma StartIsHistory()
    ensures IsHistory([]) && WorldAfter([]) == FirstWorld()
  {
  }
}
