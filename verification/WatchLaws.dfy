/** What the watch screen shows, over every history of ticks, keys, reports and errors. */
module WatchLaws {
  import opened Sequences
  import opened Findings
  import opened Baseline
  import opened Watch

  // ---------- Reading a history ----------

  /** The reports delivered so far, in the order of delivery. */
  function Reports(es: seq<Event>): seq<Report> {
    if es == [] then []
    else Reports(es[..|es| - 1]) + if es[|es| - 1].Delivers? then [es[|es| - 1].rep] else []
  }

  function Errors(es: seq<Event>): nat {
    if es == [] then 0 else Errors(es[..|es| - 1]) + if es[|es| - 1].Breaks? then 1 else 0
  }

  function Presses(es: seq<Event>, key: string): nat {
    if es == [] then 0
    else Presses(es[..|es| - 1], key) + if es[|es| - 1] == Input(Pressed(key)) then 1 else 0
  }

  /** The timers that fired while `p` had been pressed an even number of times. */
  function LiveTicks(es: seq<Event>): nat {
    if es == [] then 0
    else
      LiveTicks(es[..|es| - 1])
      + if es[|es| - 1].TimerFires? && Presses(es[..|es| - 1], "p") % 2 == 0 then 1 else 0
  }

  /** The error of the last outcome, if the last outcome was an error. */
  function LastError(es: seq<Event>): Option<string> {
    if es == [] then None
    else
      match es[|es| - 1]
      case Delivers(_, _, _, _) => None
      case Breaks(_, err, _) => Some(err)
      case _ => LastError(es[..|es| - 1])
  }

  /** What the last two delivered reports say is new. */
  function Fresh(reports: seq<Report>): set<string> {
    var n := |reports|;
    if n < 2 then {} else KeysOf(reports[n - 1].findings) - KeysOf(reports[n - 2].findings)
  }

  function Latest(reports: seq<Report>): Report {
    if reports == [] then NO_REPORT else reports[|reports| - 1]
  }

  // ---------- Accounting ----------

  ghost predicate Balanced(w: World, delivered: nat, failed: nat, refreshes: nat, ticks: nat, toggles: nat) {
    && w.timers == 1
    && w.started == delivered + failed + |w.inFlight|
    && w.started == 1 + refreshes + ticks
    && (forall r {:trigger r in w.inFlight} :: r in w.inFlight ==> r < w.started)
    && w.screen.paused == (toggles % 2 == 1)
  }

  lemma ObeyOne(w: World, c: Command)
    ensures Obey(w, [c]) ==
      match c
      case StartRun => w.(started := w.started + 1, inFlight := w.inFlight + {w.started})
      case StartTimer => w.(timers := w.timers + 1)
      case StopProgram => w.(stopped := true)
  {
    assert [c][..0] == [];
  }

  lemma ObeyRunAndTimer(w: World)
    ensures Obey(w, [StartRun, StartTimer])
         == w.(started := w.started + 1, inFlight := w.inFlight + {w.started}, timers := w.timers + 1)
  {
    ObeyOne(w, StartRun);
    assert [StartRun, StartTimer][..1] == [StartRun];
  }

  /** One event, spelled out. */
  lemma HappenedIs(w: World, e: Event)
    requires CanHappen(w, e)
    ensures var t, u := Happened(w, e), Consumed(w, e);
      var runs := if e == Input(Pressed("r")) || (e.TimerFires? && !w.screen.paused) then 1 else 0;
      && t.screen == Updated(w.screen, MsgOf(e))
      && t.timers == u.timers + (if e.TimerFires? then 1 else 0)
      && t.started == w.started + runs
      && t.inFlight == (if runs == 1 then u.inFlight + {w.started} else u.inFlight)
      && t.stopped == (w.stopped || (e.Input? && e.msg.Pressed? && e.msg.key in {"q", "ctrl+c", "esc"}))
  {
    var u := Consumed(w, e).(screen := Updated(w.screen, MsgOf(e)));
    ObeyRunAndTimer(u);
    ObeyOne(u, StartTimer);
    ObeyOne(u, StartRun);
    ObeyOne(u, StopProgram);
  }

  function One(b: bool): nat {
    if b then 1 else 0
  }

  lemma BalancedTick(w: World, delivered: nat, failed: nat, refreshes: nat, ticks: nat, toggles: nat)
    requires CanHappen(w, TimerFires) && Balanced(w, delivered, failed, refreshes, ticks, toggles)
    ensures Balanced(Happened(w, TimerFires), delivered, failed, refreshes, ticks + One(toggles % 2 == 0), toggles)
  {
    hide Happened;
    HappenedIs(w, TimerFires);
  }

  lemma BalancedOutcome(w: World, e: Event, delivered: nat, failed: nat, refreshes: nat, ticks: nat, toggles: nat)
    requires CanHappen(w, e) && (e.Delivers? || e.Breaks?) && Balanced(w, delivered, failed, refreshes, ticks, toggles)
    ensures Balanced(Happened(w, e), delivered + One(e.Delivers?), failed + One(e.Breaks?), refreshes, ticks, toggles)
  {
    hide Happened;
    HappenedIs(w, e);
  }

  lemma BalancedInput(w: World, msg: Msg, delivered: nat, failed: nat, refreshes: nat, ticks: nat, toggles: nat)
    requires CanHappen(w, Input(msg)) && Balanced(w, delivered, failed, refreshes, ticks, toggles)
    ensures Balanced(Happened(w, Input(msg)), delivered, failed, refreshes + One(msg == Pressed("r")), ticks,
              toggles + One(msg == Pressed("p")))
  {
    hide Happened;
    HappenedIs(w, Input(msg));
  }

  lemma BalancedStep(w: World, e: Event, delivered: nat, failed: nat, refreshes: nat, ticks: nat, toggles: nat)
    requires CanHappen(w, e) && Balanced(w, delivered, failed, refreshes, ticks, toggles)
    ensures Balanced(Happened(w, e), delivered + One(e.Delivers?), failed + One(e.Breaks?),
              refreshes + One(e == Input(Pressed("r"))), ticks + One(e.TimerFires? && toggles % 2 == 0),
              toggles + One(e == Input(Pressed("p"))))
  {
    hide Happened, Balanced, CanHappen;
    match e
    case Input(msg) => BalancedInput(w, msg, delivered, failed, refreshes, ticks, toggles);
    case TimerFires => BalancedTick(w, delivered, failed, refreshes, ticks, toggles);
    case _ => BalancedOutcome(w, e, delivered, failed, refreshes, ticks, toggles);
  }

  /**
    In every reachable state exactly one timer is outstanding, every run ever started is
    delivered, failed or still in flight, and runs come from the start, from `r` and from
    the ticks that were not paused, and from nowhere else.
   */
  lemma {:induction false} EveryRunAccountedFor(es: seq<Event>)
    requires IsHistory(es)
    ensures Balanced(WorldAfter(es), |Reports(es)|, Errors(es), Presses(es, "r"), LiveTicks(es), Presses(es, "p"))
  {
    hide Happened, CanHappen, Balanced;
    if es == [] {
      FirstIsBalanced();
    } else {
      var init, e := es[..|es| - 1], es[|es| - 1];
      EveryRunAccountedFor(init);
      BalancedStep(WorldAfter(init), e, |Reports(init)|, Errors(init), Presses(init, "r"), LiveTicks(init),
        Presses(init, "p"));
    }
  }

  lemma FirstIsBalanced()
    ensures Balanced(FirstWorld(), 0, 0, 0, 0, 0)
  {
    ObeyRunAndTimer(World(FIRST_SCREEN, 0, 0, {}, false));
  }

  /** A paused tick starts no run, and neither do a report, an error, a resize or another key. */
  lemma PausedStartsNothing(es: seq<Event>, e: Event)
    requires IsHistory(es) && CanHappen(WorldAfter(es), e)
    ensures Happened(WorldAfter(es), e).started == WorldAfter(es).started
       <==> e != Input(Pressed("r")) && (e.TimerFires? ==> Presses(es, "p") % 2 == 1)
  {
    EveryRunAccountedFor(es);
    HappenedIs(WorldAfter(es), e);
  }

  // ---------- What is shown ----------

  ghost predicate Shows(s: Screen, reports: seq<Report>, error: Option<string>) {
    && s.runs == |reports|
    && s.rep == Latest(reports)
    && s.comparing == (reports != [])
    && s.prev == KeysOf(Latest(reports).findings)
    && s.newKeys == Fresh(reports)
    && s.err == error
  }

  lemma ReportedShows(s: Screen, reports: seq<Report>, error: Option<string>, rep: Report, dur: int, now: int)
    requires Shows(s, reports, error)
    ensures Shows(Updated(s, Reported(rep, dur, now)), reports + [rep], None)
  {
  }

  lemma NothingShown()
    ensures Shows(FirstWorld().screen, [], None)
  {
    ObeyRunAndTimer(World(FIRST_SCREEN, 0, 0, {}, false));
  }

  function ErrorAfter(e: Event, error: Option<string>): Option<string> {
    match e
    case Delivers(_, _, _, _) => None
    case Breaks(_, err, _) => Some(err)
    case _ => error
  }

  lemma ShowsStep(w: World, e: Event, reports: seq<Report>, error: Option<string>)
    requires CanHappen(w, e) && Shows(w.screen, reports, error)
    ensures Shows(Happened(w, e).screen, if e.Delivers? then reports + [e.rep] else reports, ErrorAfter(e, error))
  {
    hide Happened, Fresh, KeysOf;
    HappenedIs(w, e);
    if e.Delivers? {
      ReportedShows(w.screen, reports, error, e.rep, e.dur, e.now);
    }
  }

  /** The screen is determined by the delivered reports and the last outcome; errors in between change nothing else. */
  lemma {:induction false} ScreenShowsHistory(es: seq<Event>)
    requires IsHistory(es)
    ensures Shows(WorldAfter(es).screen, Reports(es), LastError(es))
  {
    hide Happened, CanHappen, Shows;
    if es == [] {
      NothingShown();
    } else {
      var init, e := es[..|es| - 1], es[|es| - 1];
      ScreenShowsHistory(init);
      ShowsStep(WorldAfter(init), e, Reports(init), LastError(init));
      assert !e.Delivers? ==> Reports(es) == Reports(init);
    }
  }

  lemma AddedByKey(base: seq<Finding>, cur: seq<Finding>, f: Finding)
    requires f in cur
    ensures f in CompareOf(base, cur).added <==> Key(f) in KeysOf(CompareOf(base, cur).added)
  {
    CompareKeys(base, cur);
    FilterIn(cur, (g: Finding) => Key(g) !in KeysOf(base), f);
  }

  /**
    What is highlighted as new after at least two reports is what the baseline comparison of
    the last two reports calls new; after the first report nothing is highlighted.
   */
  lemma HighlightsAreTheDiff(es: seq<Event>, f: Finding)
    requires IsHistory(es)
    ensures var s, reports := WorldAfter(es).screen, Reports(es);
      var n := |reports|;
      && (n <= 1 ==> s.newKeys == {})
      && (n >= 2 ==> s.newKeys == KeysOf(CompareOf(reports[n - 2].findings, reports[n - 1].findings).added))
      && (n >= 2 && f in s.rep.findings ==>
            (Key(f) in s.newKeys <==> f in CompareOf(reports[n - 2].findings, reports[n - 1].findings).added))
  {
    hide CompareOf;
    ScreenShowsHistory(es);
    var reports := Reports(es);
    var n := |reports|;
    if n >= 2 {
      CompareKeys(reports[n - 2].findings, reports[n - 1].findings);
      if f in reports[n - 1].findings {
        AddedByKey(reports[n - 2].findings, reports[n - 1].findings, f);
      }
    }
  }

  /**
    In the documented terms: among statuses and checks whose headers cannot be confused, a shown
    finding is highlighted exactly when no finding with its status, check and resource was in
    the report delivered before.
   */
  lemma {:induction false} HighlightsOnTriples(es: seq<Event>, heads: set<Head>, f: Finding)
    requires IsHistory(es) && |Reports(es)| >= 2 && PrefixFree(heads)
    requires var reports := Reports(es);
      HeadsIn(reports[|reports| - 1].findings, heads) && HeadsIn(reports[|reports| - 2].findings, heads)
    ensures var s, reports := WorldAfter(es).screen, Reports(es);
      f in s.rep.findings ==>
        (Key(f) in s.newKeys <==> Triple(f) !in TriplesOf(reports[|reports| - 2].findings))
  {
    hide IsHistory;
    ScreenShowsHistory(es);
    var reports := Reports(es);
    var base, cur := reports[|reports| - 2].findings, reports[|reports| - 1].findings;
    if f in cur {
      KeyInBase(heads, base, f);
    }
  }

  lemma KeyInBase(heads: set<Head>, base: seq<Finding>, f: Finding)
    requires PrefixFree(heads) && HeadsIn(base, heads) && HeadOf(f) in heads
    ensures Key(f) in KeysOf(base) <==> Triple(f) in TriplesOf(base)
  {
    forall g | g in base
      ensures Key(f) == Key(g) <==> Triple(f) == Triple(g)
    {
      KeyFaithful(heads, f, g);
    }
  }

  /** One of the three quit keys has been pressed. */
  ghost predicate QuitPressed(es: seq<Event>) {
    exists i :: 0 <= i < |es| &&
      (es[i] == Input(Pressed("q")) || es[i] == Input(Pressed("ctrl+c")) || es[i] == Input(Pressed("esc")))
  }

  predicate IsQuitEvent(e: Event) {
    e.Input? && e.msg.Pressed? && e.msg.key in {"q", "ctrl+c", "esc"}
  }

  lemma QuitPressedSnoc(es: seq<Event>, e: Event)
    ensures QuitPressed(es + [e]) <==> QuitPressed(es) || IsQuitEvent(e)
  {
    var all := es + [e];
    assert all[|es|] == e;
    if QuitPressed(es) {
      var i :| 0 <= i < |es| && IsQuitEvent(es[i]);
      assert IsQuitEvent(all[i]);
    }
    if QuitPressed(all) {
      var i :| 0 <= i < |all| && IsQuitEvent(all[i]);
      assert i < |es| ==> IsQuitEvent(es[i]);
    }
  }

  lemma QuitStep(w: World, e: Event)
    requires CanHappen(w, e)
    ensures Happened(w, e).stopped <==> w.stopped || IsQuitEvent(e)
    ensures Happened(w, e).screen.quitting <==> w.screen.quitting || IsQuitEvent(e)
  {
    HappenedIs(w, e);
  }

  /**
    The program is told to stop, and its screen goes blank, exactly when one of `q`, `ctrl+c`
    and `esc` has ever been pressed; nothing takes it back.
   */
  lemma {:induction false} QuittingIsFinal(es: seq<Event>)
    requires IsHistory(es)
    ensures WorldAfter(es).stopped <==> QuitPressed(es)
    ensures WorldAfter(es).screen.quitting <==> QuitPressed(es)
    ensures ViewOf(WorldAfter(es).screen) == Blank <==> QuitPressed(es)
  {
    hide QuitPressed, Happened, CanHappen;
    if es == [] {
      NothingQuit();
    } else {
      var init, e := es[..|es| - 1], es[|es| - 1];
      QuittingIsFinal(init);
      InitLast(es);
      QuitPressedSnoc(init, e);
      QuitStep(WorldAfter(init), e);
    }
  }

  lemma NothingQuit()
    ensures !FirstWorld().stopped && !FirstWorld().screen.quitting && !QuitPressed([])
  {
    ObeyRunAndTimer(World(FIRST_SCREEN, 0, 0, {}, false));
  }

  // ---------- The rest of the screen ----------

  /** The last window size, the time of the last outcome, and the duration of the last report. */
  datatype Extras = Extras(width: int, height: int, lastRun: int, lastDur: int)

  function ExtrasOf(es: seq<Event>): Extras {
    if es == [] then Extras(0, 0, 0, 0) else ExtrasAfter(ExtrasOf(es[..|es| - 1]), es[|es| - 1])
  }

  /** Size and times on the screen are those of the last message that brought them. */
  lemma {:induction false} ScreenKeepsExtras(es: seq<Event>)
    requires IsHistory(es)
    ensures KeepsExtras(WorldAfter(es).screen, ExtrasOf(es))
  {
    hide Happened, CanHappen;
    if es == [] {
      ObeyRunAndTimer(World(FIRST_SCREEN, 0, 0, {}, false));
    } else {
      ScreenKeepsExtras(es[..|es| - 1]);
      ExtrasStep(WorldAfter(es[..|es| - 1]), es[|es| - 1], ExtrasOf(es[..|es| - 1]));
    }
  }

  function ExtrasAfter(x: Extras, e: Event): Extras {
    match e
    case Input(WindowSize(w, h)) => x.(width := w, height := h)
    case Delivers(_, _, dur, now) => x.(lastRun := now, lastDur := dur)
    case Breaks(_, _, now) => x.(lastRun := now)
    case _ => x
  }

  ghost predicate KeepsExtras(s: Screen, x: Extras) {
    s.width == x.width && s.height == x.height && s.lastRun == x.lastRun && s.lastDur == x.lastDur
  }

  lemma ExtrasStep(w: World, e: Event, x: Extras)
    requires CanHappen(w, e) && KeepsExtras(w.screen, x)
    ensures KeepsExtras(Happened(w, e).screen, ExtrasAfter(x, e))
  {
    HappenedIs(w, e);
  }

  // ---------- The view ----------

  /**
    What the user sees, over every history: nothing once a quit key was pressed, else the last
    outcome if it was an error, else the loading screen until the first report, else the last
    report with what its predecessor did not have.
   */
  lemma {:induction false} ViewExactly(es: seq<Event>)
    requires IsHistory(es)
    ensures var reports, error := Reports(es), LastError(es);
      ViewOf(WorldAfter(es).screen) ==
        if QuitPressed(es) then Blank
        else if error.Some? then ErrorShown(error.value)
        else if reports == [] then Loading
        else FindingsShown(reports[|reports| - 1], Fresh(reports))
  {
    hide QuitPressed, Fresh;
    QuittingIsFinal(es);
    ScreenShowsHistory(es);
  }
}
