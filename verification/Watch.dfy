/** The `khealth watch` model: messages, the shared tracker, and the commands they start (internal/watch). */
module Watch {
  import opened Sequences
  import opened Findings
  import opened Baseline

  /** Remembers the finding keys of the previous report (internal/watch/diff.go). */
  class Tracker {
    var prev: set<string>
    var firstTickNew: bool
    var seenAny: bool

    constructor ()
      ensures prev == {} && !firstTickNew && !seenAny
    {
      prev, firstTickNew, seenAny := {}, false, false;
    }

    /** `Diff`: the keys that the previous report did not have; none on a first report, unless asked for. */
    method Diff(fs: seq<Finding>) returns (newKeys: set<string>)
      modifies this
      ensures newKeys == if old(seenAny) || old(firstTickNew) then KeysOf(fs) - old(prev) else {}
      ensures prev == KeysOf(fs) && seenAny && firstTickNew == old(firstTickNew)
    {
      newKeys := {};
      var cur: set<string> := {};
      for i := 0 to |fs|
        invariant cur == KeysOf(fs[..i])
        invariant newKeys == NewKeys(prev, seenAny || firstTickNew, fs[..i])
      {
        assert fs[..i + 1] == fs[..i] + [fs[i]];
        var k := Key(fs[i]);
        cur := cur + {k};
        if !seenAny && !firstTickNew {
          continue;
        }
        if k !in prev {
          newKeys := newKeys + {k};
        }
      }
      assert fs[..|fs|] == fs;
      prev := cur;
      seenAny := true;
    }
  }

  function NewKeys(prev: set<string>, comparing: bool, fs: seq<Finding>): set<string> {
    if comparing then KeysOf(fs) - prev else {}
  }

  /** The bubbletea model: copied on every update, except for the tracker all copies share. */
  datatype Model = Model(
    tracker: Tracker, rep: Report, newKeys: set<string>, err: Option<string>, paused: bool, runs: nat,
    lastRun: int, lastDur: int, width: int, height: int, quitting: bool)

  datatype Msg =
    | Pressed(key: string)
    | WindowSize(w: int, h: int)
    | Ticked
    | Reported(rep: Report, dur: int, now: int)
    | Failed(err: string, now: int)
    | Other

  /** What bubbletea is asked to do: start a run of the checks, start a timer, stop the program. */
  datatype Command = StartRun | StartTimer | StopProgram

  const NO_REPORT := Report("", "", [])

  /** A model together with the contents of its tracker. */
  datatype Screen = Screen(
    prev: set<string>, comparing: bool, firstTickNew: bool, rep: Report, newKeys: set<string>, err: Option<string>,
    paused: bool, runs: nat, lastRun: int, lastDur: int, width: int, height: int, quitting: bool)

  function ScreenOf(m: Model): Screen
    reads m.tracker
  {
    Screen(m.tracker.prev, m.tracker.seenAny || m.tracker.firstTickNew, m.tracker.firstTickNew, m.rep, m.newKeys, m.err,
      m.paused, m.runs, m.lastRun, m.lastDur, m.width, m.height, m.quitting)
  }

  const FIRST_SCREEN := Screen({}, false, false, NO_REPORT, {}, None, false, 0, 0, 0, 0, 0, false)

  predicate IsQuit(key: string) {
    key == "q" || key == "ctrl+c" || key == "esc"
  }

  function Updated(s: Screen, msg: Msg): Screen {
    match msg
    case Pressed(key) => if IsQuit(key) then s.(quitting := true) else if key == "p" then s.(paused := !s.paused) else s
    case WindowSize(w, h) => s.(width := w, height := h)
    case Reported(rep, dur, now) =>
      s.(rep := rep, lastDur := dur, lastRun := now, runs := s.runs + 1, err := None,
         newKeys := NewKeys(s.prev, s.comparing, rep.findings), prev := KeysOf(rep.findings), comparing := true)
    case Failed(err, now) => s.(err := Some(err), lastRun := now)
    case _ => s
  }

  function CommandsFor(s: Screen, msg: Msg): seq<Command> {
    match msg
    case Pressed(key) => if IsQuit(key) then [StopProgram] else if key == "r" then [StartRun] else []
    case Ticked => if s.paused then [StartTimer] else [StartRun, StartTimer]
    case _ => []
  }

  /** What the screen shows, before any layout. */
  datatype View = Blank | ErrorShown(err: string) | Loading | FindingsShown(rep: Report, newKeys: set<string>)

  function ViewOf(s: Screen): View {
    if s.quitting then Blank
    else if s.err.Some? then ErrorShown(s.err.value)
    else if s.runs == 0 then Loading
    else FindingsShown(s.rep, s.newKeys)
  }

  method NewModel() returns (m: Model)
    ensures fresh(m.tracker) && ScreenOf(m) == FIRST_SCREEN
  {
    var t := new Tracker();
    m := Model(t, NO_REPORT, {}, None, false, 0, 0, 0, 0, 0, false);
  }

  /** What the program is asked to do before the first message. */
  function FirstCommands(): seq<Command> {
    [StartRun, StartTimer]
  }

  method Init(m: Model) returns (cmds: seq<Command>)
    ensures cmds == FirstCommands()
  {
    cmds := [StartRun, StartTimer];
  }

  method Update(model: Model, msg: Msg) returns (m: Model, cmds: seq<Command>)
    modifies model.tracker
    ensures m.tracker == model.tracker
    ensures ScreenOf(m) == Updated(old(ScreenOf(model)), msg)
    ensures cmds == CommandsFor(old(ScreenOf(model)), msg)
  {
    m := model;
    match msg
    case Pressed(key) =>
      if key == "q" || key == "ctrl+c" || key == "esc" {
        m := m.(quitting := true);
        return m, [StopProgram];
      } else if key == "p" {
        m := m.(paused := !m.paused);
        return m, [];
      } else if key == "r" {
        return m, [StartRun];
      }
      return m, [];
    case WindowSize(w, h) =>
      m := m.(width := w);
      m := m.(height := h);
      return m, [];
    case Ticked =>
      if m.paused {
        return m, [StartTimer];
      }
      return m, [StartRun, StartTimer];
    case Reported(rep, dur, now) =>
      m := m.(rep := rep);
      m := m.(lastDur := dur);
      m := m.(lastRun := now);
      m := m.(runs := m.runs + 1);
      var newKeys := m.tracker.Diff(rep.findings);
      m := m.(newKeys := newKeys);
      m := m.(err := None);
      return m, [];
    case Failed(e, now) =>
      m := m.(err := Some(e));
      m := m.(lastRun := now);
      return m, [];
    case Other =>
      return m, [];
  }

  // ---------- The program around the model ----------

  /**
    The model, the timers that have not fired, the runs that have not delivered, and whether
    bubbletea has been told to stop the program. Runs are numbered as they are started, and
    deliver in any order; messages already under way may still arrive after the stop.
   */
  datatype World = World(screen: Screen, timers: nat, started: nat, inFlight: set<nat>, stopped: bool)

  /** One thing that happens: a message from outside, a timer, or the outcome of a run. */
  datatype Event =
    | Input(msg: Msg)
    | TimerFires
    | Delivers(run: nat, rep: Report, dur: int, now: int)
    | Breaks(run: nat, err: string, now: int)

  function MsgOf(e: Event): Msg {
    match e
    case Input(msg) => msg
    case TimerFires => Ticked
    case Delivers(_, rep, dur, now) => Reported(rep, dur, now)
    case Breaks(_, err, now) => Failed(err, now)
  }

  predicate CanHappen(w: World, e: Event) {
    match e
    case Input(msg) => msg.Pressed? || msg.WindowSize? || msg.Other?
    case TimerFires => w.timers > 0
    case Delivers(run, _, _, _) => run in w.inFlight
    case Breaks(run, _, _) => run in w.inFlight
  }

  /** The event takes its timer or run out of the world. */
  function Consumed(w: World, e: Event): World
    requires CanHappen(w, e)
  {
    match e
    case Input(_) => w
    case TimerFires => w.(timers := w.timers - 1)
    case Delivers(run, _, _, _) => w.(inFlight := w.inFlight - {run})
    case Breaks(run, _, _) => w.(inFlight := w.inFlight - {run})
  }

  function Obey(w: World, cmds: seq<Command>): World {
    if cmds == [] then w
    else
      var before := Obey(w, cmds[..|cmds| - 1]);
      match cmds[|cmds| - 1]
      case StartRun => before.(started := before.started + 1, inFlight := before.inFlight + {before.started})
      case StartTimer => before.(timers := before.timers + 1)
      case StopProgram => before.(stopped := true)
  }

  function Happened(w: World, e: Event): World
    requires CanHappen(w, e)
  {
    Obey(Consumed(w, e).(screen := Updated(w.screen, MsgOf(e))), CommandsFor(w.screen, MsgOf(e)))
  }

  function FirstWorld(): World {
    Obey(World(FIRST_SCREEN, 0, 0, {}, false), FirstCommands())
  }

  predicate IsHistory(es: seq<Event>)
    decreases |es|, 0
  {
    es == [] || (IsHistory(es[..|es| - 1]) && CanHappen(WorldAfter(es[..|es| - 1]), es[|es| - 1]))
  }

  function WorldAfter(es: seq<Event>): World
    requires IsHistory(es)
    decreases |es|, 1
  {
    if es == [] then FirstWorld() else Happened(WorldAfter(es[..|es| - 1]), es[|es| - 1])
  }
}
