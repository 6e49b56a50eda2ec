/** What `khealth check` does to a report between the runner and the renderer (internal/cli/check.go). */
module Cli {
  import opened Sequences
  import opened Findings
  import opened Baseline

  const SEEN_BEFORE := "[seen-before] "

  /** What reading the baseline file gave: an error, nothing (empty path), or its findings. */
  datatype Loaded = LoadFailed(error: string) | NoBaseline | LoadedBaseline(findings: seq<Finding>)

  datatype BaselineResult = BaselineFailed(report: Report, error: string) | Tagged(report: Report)

  datatype Exit = Clean | ExitError(code: int, worst: Status)

  predicate Unhealthy(f: Finding) {
    f.status != OK && f.status != SKIP
  }

  /**
    `applyOnlyUnhealthy` on the backing array of `rep.Findings`: `Findings[:0]` shares
    the array that the loop is still reading, and the kept findings are written over its
    front. The result is the slice `a[..n]`; what lies behind it stays as it was.
   */
  method KeepUnhealthy(a: array<Finding>) returns (n: nat)
    modifies a
    ensures n <= a.Length
    ensures a[..n] == Filter(old(a[..]), Unhealthy)
    ensures a[n..] == old(a[n..])
  {
    hide Filter;
    n := 0;
    NothingKept();
    assert old(a[..0]) == [];
    for i := 0 to a.Length
      invariant n <= i
      invariant a[..n] == Filter(old(a[..i]), Unhealthy)
      invariant forall k :: n <= k < a.Length ==> a[k] == old(a[k])
    {
      var f := a[i];
      assert old(a[..i + 1]) == old(a[..i]) + [f];
      FilterSnoc(old(a[..i]), f, Unhealthy);
      if Unhealthy(f) {
        a[n] := f;
        n := n + 1;
      }
    }
    assert old(a[..]) == old(a[..a.Length]);
  }

  lemma NothingKept()
    ensures Filter([], Unhealthy) == []
  {
  }

  method ApplyOnlyUnhealthy(rep: Report, onlyUnhealthy: bool) returns (out: Report)
    ensures out == OnlyUnhealthy(rep, onlyUnhealthy)
  {
    if !onlyUnhealthy {
      return rep;
    }
    var backing := new Finding[|rep.findings|](i requires 0 <= i < |rep.findings| => rep.findings[i]);
    assert backing[..] == rep.findings;
    var n := KeepUnhealthy(backing);
    out := rep.(findings := backing[..n]);
  }

  function OnlyUnhealthy(rep: Report, onlyUnhealthy: bool): Report {
    if onlyUnhealthy then rep.(findings := Filter(rep.findings, Unhealthy)) else rep
  }

  /** Hiding healthy findings hides nothing from the verdict or the exit code. */
  lemma OnlyUnhealthyKeepsVerdict(rep: Report, onlyUnhealthy: bool)
    ensures Verdict(OnlyUnhealthy(rep, onlyUnhealthy).findings) == Verdict(rep.findings)
    ensures forall strict ::
      ExitCodeOf(OnlyUnhealthy(rep, onlyUnhealthy).findings, strict) == ExitCodeOf(rep.findings, strict)
  {
    var kept := OnlyUnhealthy(rep, onlyUnhealthy).findings;
    forall i | 0 <= i < |kept|
      ensures Has(rep.findings, kept[i].status)
    {
      FilterIn(rep.findings, Unhealthy, kept[i]);
      assert kept[i] in rep.findings;
    }
    forall i | 0 <= i < |rep.findings| && Rank(rep.findings[i].status) > 0
      ensures Has(kept, rep.findings[i].status)
    {
      FilterIn(rep.findings, Unhealthy, rep.findings[i]);
      assert rep.findings[i] in kept;
    }
    VerdictDependsOnSeverities(kept, rep.findings);
  }

  predicate NotOk(f: Finding) {
    f.status != OK
  }

  /** The flag's description, to suppress findings with status OK, is met exactly when no finding is a SKIP. */
  lemma OnlyUnhealthyAsDescribedExactly(rep: Report)
    ensures OnlyUnhealthy(rep, true).findings == Filter(rep.findings, NotOk)
       <==> forall f :: f in rep.findings ==> f.status != SKIP
  {
    var fs := rep.findings;
    if forall f :: f in fs ==> f.status != SKIP {
      FilterAgree(fs, Unhealthy, NotOk);
    } else {
      var f :| f in fs && f.status == SKIP;
      FilterIn(fs, Unhealthy, f);
      FilterIn(fs, NotOk, f);
    }
  }

  /** A skipped check disappears although it is not OK. */
  lemma SkipDisappears()
    ensures var f := Finding("etcd.health", SKIP, "", "", map[], 0);
      Filter([f], Unhealthy) == [] && Filter([f], NotOk) == [f]
  {
    var f := Finding("etcd.health", SKIP, "", "", map[], 0);
    assert [] + [f] == [f];
    FilterSnoc([], f, Unhealthy);
    FilterSnoc([], f, NotOk);
  }

  /** A finding the baseline already had, by key, gets its resource tagged; no other field changes. */
  function Tag(f: Finding, keys: set<string>): Finding {
    if Key(f) in keys then f.(resource := SEEN_BEFORE + f.resource) else f
  }

  function TagAll(fs: seq<Finding>, base: seq<Finding>): (r: seq<Finding>)
    ensures |r| == |fs|
    ensures forall i {:trigger r[i]} :: 0 <= i < |fs| ==> r[i] == Tag(fs[i], KeysOf(base))
  {
    if fs == [] then [] else TagAll(fs[..|fs| - 1], base) + [Tag(fs[|fs| - 1], KeysOf(base))]
  }

  method ApplyBaseline(rep: Report, loaded: Loaded) returns (res: BaselineResult)
    ensures res == BaselineApplied(rep, loaded)
  {
    match loaded
    case LoadFailed(e) => return BaselineFailed(rep, e);
    case NoBaseline => return Tagged(rep);
    case LoadedBaseline(base) =>
      var diff := Compare(base, rep.findings);
      CompareKeys(base, rep.findings);
      var persisting := KeySet(diff.persisting);
      var out := TagPersisting(rep.findings, persisting, base);
      res := Tagged(rep.(findings := out));
  }

  /** The second loop of `applyBaseline`, which fills a fresh slice. */
  method TagPersisting(fs: seq<Finding>, persisting: set<string>, ghost base: seq<Finding>) returns (out: seq<Finding>)
    requires persisting == KeysOf(fs) * KeysOf(base)
    ensures out == TagAll(fs, base)
  {
    var slots := new Finding[|fs|](i requires 0 <= i < |fs| => fs[i]);
    for i := 0 to |fs|
      invariant forall k {:trigger slots[k]} :: 0 <= k < i ==> slots[k] == Tag(fs[k], KeysOf(base))
    {
      var f := fs[i];
      assert Key(f) in KeysOf(fs);
      if Key(f) in persisting {
        f := f.(resource := SEEN_BEFORE + f.resource);
      }
      slots[i] := f;
    }
    out := slots[..];
  }

  function BaselineApplied(rep: Report, loaded: Loaded): BaselineResult {
    match loaded
    case LoadFailed(e) => BaselineFailed(rep, e)
    case NoBaseline => Tagged(rep)
    case LoadedBaseline(base) => Tagged(rep.(findings := TagAll(rep.findings, base)))
  }

  /** Tagging touches resources only, so a baseline never softens the exit code. */
  lemma {:induction false} BaselineKeepsVerdict(rep: Report, loaded: Loaded)
    ensures var out := BaselineApplied(rep, loaded).report.findings;
      && |out| == |rep.findings|
      && (forall i {:trigger out[i]} :: 0 <= i < |out| ==>
           out[i].(resource := rep.findings[i].resource) == rep.findings[i])
      && Verdict(out) == Verdict(rep.findings)
      && forall strict :: ExitCodeOf(out, strict) == ExitCodeOf(rep.findings, strict)
  {
    hide Verdict, Rank, TagAll, KeysOf;
    SameStatusesSameVerdict(BaselineApplied(rep, loaded).report.findings, rep.findings);
  }

  lemma {:induction false} SameStatusesSameVerdict(a: seq<Finding>, b: seq<Finding>)
    requires |a| == |b| && forall i {:trigger a[i]} {:trigger b[i]} :: 0 <= i < |a| ==> a[i].status == b[i].status
    ensures Verdict(a) == Verdict(b)
    ensures forall strict :: ExitCodeOf(a, strict) == ExitCodeOf(b, strict)
  {
    forall s
      ensures Has(a, s) == Has(b, s)
    {
      if i :| 0 <= i < |a| && a[i].status == s {
        assert b[i].status == s;
      }
      if i :| 0 <= i < |b| && b[i].status == s {
        assert a[i].status == s;
      }
    }
  }

  /** The compact renderer's reading of a tag (internal/render/compact.go). */
  function StripSeenBefore(res: string): (bool, string) {
    if SEEN_BEFORE <= res then (false, res[|SEEN_BEFORE|..]) else (true, res)
  }

  /** The tag is read back correctly exactly when no new finding's own resource looks tagged. */
  lemma TagRoundTrip(fs: seq<Finding>, base: seq<Finding>)
    ensures (forall i :: 0 <= i < |fs| ==>
               StripSeenBefore(TagAll(fs, base)[i].resource) == (Key(fs[i]) !in KeysOf(base), fs[i].resource))
       <==> (forall i :: 0 <= i < |fs| && SEEN_BEFORE <= fs[i].resource ==> Key(fs[i]) in KeysOf(base))
  {
    forall i | 0 <= i < |fs|
      ensures StripSeenBefore(TagAll(fs, base)[i].resource) == (Key(fs[i]) !in KeysOf(base), fs[i].resource)
         <==> (SEEN_BEFORE <= fs[i].resource ==> Key(fs[i]) in KeysOf(base))
    {
      if Key(fs[i]) in KeysOf(base) {
        assert SEEN_BEFORE <= SEEN_BEFORE + fs[i].resource;
        assert (SEEN_BEFORE + fs[i].resource)[|SEEN_BEFORE|..] == fs[i].resource;
      }
    }
  }

  /** A resource that was already spelled with the tag is taken for a known finding. */
  lemma LookalikeResourceMisread()
    ensures var f := Finding("pods.backoff", CRIT, "[seen-before] pod/a", "", map[], 0);
      StripSeenBefore(TagAll([f], [])[0].resource) == (false, "pod/a")
  {
    var f := Finding("pods.backoff", CRIT, "[seen-before] pod/a", "", map[], 0);
    assert f.resource == SEEN_BEFORE + "pod/a";
    assert f.resource[|SEEN_BEFORE|..] == "pod/a";
  }

  /** With untagged resources and headers that cannot be confused, a tagged finding has a key no raw finding has. */
  lemma TaggedKeyIsNew(heads: set<Head>, f: Finding, g: Finding, keys: set<string>)
    requires PrefixFree(heads) && HeadOf(f) in heads && HeadOf(g) in heads && !(SEEN_BEFORE <= f.resource)
    ensures Key(f) == Key(Tag(g, keys)) <==> Key(f) == Key(g) && Key(g) !in keys
  {
    var t := Tag(g, keys);
    assert HeadOf(t) == HeadOf(g);
    KeyFaithful(heads, f, t);
    if Key(g) in keys {
      assert SEEN_BEFORE <= t.resource;
    }
  }

  lemma RetaggedKeys(heads: set<Head>, fs: seq<Finding>, base: seq<Finding>, f: Finding)
    requires PrefixFree(heads) && HeadsIn(fs, heads) && f in fs && !(SEEN_BEFORE <= f.resource)
    ensures Key(f) in KeysOf(TagAll(fs, base)) <==> Key(f) !in KeysOf(base)
  {
    var keys, tagged := KeysOf(base), TagAll(fs, base);
    if Key(f) in KeysOf(tagged) {
      var t :| t in tagged && Key(t) == Key(f);
      var i :| 0 <= i < |tagged| && tagged[i] == t;
      assert fs[i] in fs;
      TaggedKeyIsNew(heads, f, fs[i], keys);
    }
    if Key(f) !in keys {
      var i :| 0 <= i < |fs| && fs[i] == f;
      assert tagged[i] == f;
    }
  }

  /**
    Report output is meant to be reusable as a baseline. A report shown against a baseline
    carries tagged resources: read back as a baseline it makes exactly the known findings
    look new, so it is reusable exactly when nothing was known.
   */
  lemma TaggedReportAsBaseline(heads: set<Head>, fs: seq<Finding>, base: seq<Finding>)
    requires PrefixFree(heads) && HeadsIn(fs, heads) && forall f :: f in fs ==> !(SEEN_BEFORE <= f.resource)
    ensures CompareOf(TagAll(fs, base), fs).added == CompareOf(base, fs).persisting
    ensures CompareOf(TagAll(fs, base), fs).added == [] <==> forall f :: f in fs ==> Key(f) !in KeysOf(base)
  {
    var p := (f: Finding) => Key(f) !in KeysOf(TagAll(fs, base));
    var q := (f: Finding) => Key(f) in KeysOf(base);
    forall f | f in fs
      ensures p(f) == q(f)
    {
      RetaggedKeys(heads, fs, base, f);
    }
    FilterAgree(fs, p, q);
    forall f
      ensures f in Filter(fs, q) <==> f in fs && q(f)
    {
      FilterIn(fs, q, f);
    }
    if Filter(fs, q) != [] {
      assert Filter(fs, q)[0] in Filter(fs, q);
    }
  }

  /** A known finding, shown tagged, is taken for a new one when that report is the baseline. */
  lemma KnownComesBackAsNew()
    ensures var f := Finding("a", CRIT, "r", "", map[], 0);
      CompareOf(TagAll([f], [f]), [f]).added == [f]
  {
    var f := Finding("a", CRIT, "r", "", map[], 0);
    var heads: set<Head> := {HeadOf(f)};
    TaggedReportAsBaseline(heads, [f], [f]);
    assert Key(f) in KeysOf([f]);
    CompareMirrors([f], [f]);
  }

  method CheckExit(rep: Report, strict: bool) returns (e: Exit)
    ensures e == ExitOf(rep.findings, strict)
  {
    var code := ExitCode(rep, strict);
    if code == 0 {
      return Clean;
    }
    var worst := Worst(rep);
    e := ExitError(code, worst);
  }

  /** 1 and CRIT, or (strict only) 2 and WARN; nothing else is an exit error. */
  function ExitOf(fs: seq<Finding>, strict: bool): Exit {
    match Verdict(fs)
    case "CRIT" => ExitError(1, CRIT)
    case "WARN" => if strict then ExitError(2, WARN) else Clean
    case _ => Clean
  }

  /** What `runner.Run` gives back: the report, and whether an error came with it. */
  datatype Ran = Ran(report: Report, failed: bool)

  /** The command's flags, with what the two baseline files gave: `saved` is the error of writing the new one. */
  datatype Flags = Flags(distro: string, onlyUnhealthy: bool, saved: Option<string>, loaded: Loaded, strict: bool)

  /** How `khealth check` ends: with a tool error of one of three kinds, or by showing a report. */
  datatype Outcome =
    | RunFailed
    | SaveFailed(error: string)
    | BadBaseline(error: string)
    | Done(shown: Report, exit: Exit)

  function CheckCommand(ran: Ran, flags: Flags): Outcome {
    if ran.failed then RunFailed
    else if flags.saved.Some? then SaveFailed(flags.saved.value)
    else
      match BaselineApplied(OnlyUnhealthy(ran.report.(distro := flags.distro), flags.onlyUnhealthy), flags.loaded)
      case BaselineFailed(_, e) => BadBaseline(e)
      case Tagged(shown) => Done(shown, ExitOf(shown.findings, flags.strict))
  }

  /** `runChecks` after the runner, then the command's `RunE`; an unset baseline flag is `NoBaseline`. */
  method RunCheck(ran: Ran, flags: Flags) returns (o: Outcome)
    ensures o == CheckCommand(ran, flags)
  {
    if ran.failed {
      return RunFailed;
    }
    var rep := ran.report;
    rep := rep.(distro := flags.distro);
    var kept := ApplyOnlyUnhealthy(rep, flags.onlyUnhealthy);
    if flags.saved.Some? {
      return SaveFailed(flags.saved.value);
    }
    var applied := ApplyBaseline(kept, flags.loaded);
    if applied.BaselineFailed? {
      return BadBaseline(applied.error);
    }
    var exit := CheckExit(applied.report, flags.strict);
    o := Done(applied.report, exit);
  }

  /** The process exit status: an exit error's own code, 3 for every other error. */
  function ExitStatus(o: Outcome): int {
    match o
    case Done(_, ExitError(code, _)) => code
    case Done(_, Clean) => 0
    case _ => 3
  }

  predicate ToolError(ran: Ran, flags: Flags) {
    ran.failed || flags.saved.Some? || flags.loaded.LoadFailed?
  }

  /** The filter and the baseline leave no trace in the exit of a command that gets as far as showing its report. */
  lemma CommandKeepsExit(ran: Ran, flags: Flags)
    ensures var done := CheckCommand(ran, flags);
      && (done.Done? <==> !ToolError(ran, flags))
      && (done.Done? ==>
            done.exit == ExitOf(ran.report.findings, flags.strict)
              && Verdict(done.shown.findings) == Verdict(ran.report.findings))
  {
    var rep := ran.report.(distro := flags.distro);
    OnlyUnhealthyKeepsVerdict(rep, flags.onlyUnhealthy);
    BaselineKeepsVerdict(OnlyUnhealthy(rep, flags.onlyUnhealthy), flags.loaded);
  }

  /** The exit table, for every report and all flags. A canceled run is not a tool error: its report decides. */
  lemma ExitStatusExactly(ran: Ran, flags: Flags)
    ensures var n, fs := ExitStatus(CheckCommand(ran, flags)), ran.report.findings;
      && (n == 3 <==> ToolError(ran, flags))
      && (n == 1 <==> !ToolError(ran, flags) && Has(fs, CRIT))
      && (n == 2 <==> !ToolError(ran, flags) && !Has(fs, CRIT) && Has(fs, WARN) && flags.strict)
      && n in {0, 1, 2, 3}
  {
    CommandKeepsExit(ran, flags);
  }

  // ---------- What the command shows ----------

  /** The same status, check and resource as some finding of `base`. */
  ghost predicate KnownIn(base: seq<Finding>, f: Finding) {
    exists g :: g in base && g.status == f.status && g.check == f.check && g.resource == f.resource
  }

  lemma KnownByKey(heads: set<Head>, base: seq<Finding>, f: Finding)
    requires PrefixFree(heads) && HeadsIn(base, heads) && HeadOf(f) in heads
    ensures Key(f) in KeysOf(base) <==> KnownIn(base, f)
  {
    forall g | g in base
      ensures Key(f) == Key(g) <==> Triple(f) == Triple(g)
    {
      KeyFaithful(heads, f, g);
    }
  }

  /** The findings that the flag leaves: all of them, or those that are neither OK nor SKIP. */
  function Kept(fs: seq<Finding>, onlyUnhealthy: bool): seq<Finding> {
    if onlyUnhealthy then Filter(fs, (f: Finding) => f.status != "OK" && f.status != "SKIP") else fs
  }

  lemma {:induction false} OnlyUnhealthyKeeps(rep: Report, onlyUnhealthy: bool)
    ensures OnlyUnhealthy(rep, onlyUnhealthy) == rep.(findings := Kept(rep.findings, onlyUnhealthy))
  {
    FilterAgree(rep.findings, Unhealthy, (f: Finding) => f.status != "OK" && f.status != "SKIP");
  }

  /**
    What a command that gets that far shows: the report's findings, without OK and SKIP if so
    asked, in their order; with a baseline, those whose status, check and resource it has are
    tagged, and every other finding, like every other field, is as it was.
   */
  lemma {:induction false} CommandShowsExactly(ran: Ran, flags: Flags, heads: set<Head>)
    requires flags.loaded.LoadedBaseline? ==>
      PrefixFree(heads) && HeadsIn(flags.loaded.findings, heads) && HeadsIn(ran.report.findings, heads)
    ensures var o, kept := CheckCommand(ran, flags), Kept(ran.report.findings, flags.onlyUnhealthy);
      o.Done? ==>
        && o.shown.cluster == ran.report.cluster && o.shown.distro == flags.distro
        && |o.shown.findings| == |kept|
        && forall i {:trigger o.shown.findings[i]} :: 0 <= i < |kept| ==>
             o.shown.findings[i] ==
               if flags.loaded.LoadedBaseline? && KnownIn(flags.loaded.findings, kept[i])
               then kept[i].(resource := "[seen-before] " + kept[i].resource) else kept[i]
  {
    var rep := ran.report.(distro := flags.distro);
    var kept := Kept(ran.report.findings, flags.onlyUnhealthy);
    OnlyUnhealthyKeeps(rep, flags.onlyUnhealthy);
    if flags.loaded.LoadedBaseline? {
      forall i | 0 <= i < |kept|
        ensures Key(kept[i]) in KeysOf(flags.loaded.findings) <==> KnownIn(flags.loaded.findings, kept[i])
      {
        KeptIsPart(ran.report.findings, flags.onlyUnhealthy, kept[i]);
        KnownByKey(heads, flags.loaded.findings, kept[i]);
      }
    }
  }

  lemma KeptIsPart(fs: seq<Finding>, onlyUnhealthy: bool, f: Finding)
    requires f in Kept(fs, onlyUnhealthy)
    ensures f in fs
  {
    if onlyUnhealthy {
      FilterIn(fs, (g: Finding) => g.status != "OK" && g.status != "SKIP", f);
    }
  }

  /** Which of the failures ends the command, and with which exit a shown report ends it. */
  lemma OutcomeExactly(ran: Ran, flags: Flags, error: string)
    ensures var o, fs := CheckCommand(ran, flags), ran.report.findings;
      && (o == RunFailed <==> ran.failed)
      && (o == SaveFailed(error) <==> !ran.failed && flags.saved == Some(error))
      && (o == BadBaseline(error) <==> !ran.failed && flags.saved == None && flags.loaded == LoadFailed(error))
      && (o.Done? ==>
            o.exit == if Has(fs, "CRIT") then ExitError(1, "CRIT")
                      else if Has(fs, "WARN") && flags.strict then ExitError(2, "WARN") else Clean)
  {
    CommandKeepsExit(ran, flags);
  }
}
