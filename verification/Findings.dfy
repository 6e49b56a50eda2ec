/** The finding and report types, and the severity and exit-code contract (internal/result/result.go). */
module Findings {

  /** An open string type, as in the source: a decoded baseline may hold any text. */
  type Status = string

  const OK: Status := "OK"
  const WARN: Status := "WARN"
  const CRIT: Status := "CRIT"
  const UNKNOWN: Status := "UNKNOWN"
  const SKIP: Status := "SKIP"

  datatype Finding = Finding(
    check: string, status: Status, resource: string, message: string,
    detail: map<string, string>, duration: int)

  datatype Report = Report(cluster: string, distro: string, findings: seq<Finding>)

  function Rank(s: Status): nat {
    if s == CRIT then 3
    else if s == WARN then 2
    else if s == UNKNOWN then 1
    else 0
  }

  predicate Has(fs: seq<Finding>, s: Status) {
    exists i :: 0 <= i < |fs| && fs[i].status == s
  }

  /** The verdict in the words of the exit-code contract: which severities occur at all. */
  function Verdict(fs: seq<Finding>): Status {
    if Has(fs, CRIT) then CRIT
    else if Has(fs, WARN) then WARN
    else if Has(fs, UNKNOWN) then UNKNOWN
    else OK
  }

  method Worst(r: Report) returns (worst: Status)
    ensures worst == Verdict(r.findings)
  {
    worst := OK;
    for i := 0 to |r.findings|
      invariant worst == Verdict(r.findings[..i])
    {
      var f := r.findings[i];
      VerdictSnoc(r.findings[..i], f);
      assert r.findings[..i + 1] == r.findings[..i] + [f];
      if Rank(f.status) > Rank(worst) {
        worst := f.status;
      }
    }
    assert r.findings[..|r.findings|] == r.findings;
  }

  lemma HasSnoc(fs: seq<Finding>, f: Finding, s: Status)
    ensures Has(fs + [f], s) <==> Has(fs, s) || f.status == s
  {
    if Has(fs, s) {
      var i :| 0 <= i < |fs| && fs[i].status == s;
      assert (fs + [f])[i].status == s;
    }
    assert (fs + [f])[|fs|] == f;
  }

  lemma VerdictSnoc(fs: seq<Finding>, f: Finding)
    ensures Verdict(fs + [f]) == if Rank(f.status) > Rank(Verdict(fs)) then f.status else Verdict(fs)
  {
    HasSnoc(fs, f, CRIT);
    HasSnoc(fs, f, WARN);
    HasSnoc(fs, f, UNKNOWN);
  }

  method ExitCode(r: Report, strict: bool) returns (code: int)
    ensures code == ExitCodeOf(r.findings, strict)
  {
    var worst := Worst(r);
    if worst == CRIT {
      code := 1;
    } else if worst == WARN {
      if strict {
        return 2;
      }
      code := 0;
    } else {
      code := 0;
    }
  }

  /** The exit-code table of the output-format decision record. */
  function ExitCodeOf(fs: seq<Finding>, strict: bool): int {
    if Has(fs, CRIT) then 1
    else if Has(fs, WARN) && strict then 2
    else 0
  }

  /** The verdict is a status of maximal rank, and OK stands in only when nothing outranks it. */
  lemma VerdictIsMaximal(fs: seq<Finding>)
    ensures forall i :: 0 <= i < |fs| ==> Rank(fs[i].status) <= Rank(Verdict(fs))
    ensures Verdict(fs) == OK || Has(fs, Verdict(fs))
    ensures Verdict(fs) == OK <==> forall i :: 0 <= i < |fs| ==> Rank(fs[i].status) == 0
  {
    forall i | 0 <= i < |fs|
      ensures Rank(fs[i].status) <= Rank(Verdict(fs))
    {
      assert Has(fs, fs[i].status);
    }
    if Verdict(fs) != OK {
      var i :| 0 <= i < |fs| && fs[i].status == Verdict(fs);
      assert Rank(fs[i].status) != 0;
    }
  }

  ghost predicate SameSeverities(a: seq<Finding>, b: seq<Finding>) {
    && (forall i :: 0 <= i < |a| && Rank(a[i].status) > 0 ==> Has(b, a[i].status))
    && (forall i :: 0 <= i < |b| && Rank(b[i].status) > 0 ==> Has(a, b[i].status))
  }

  /** The verdict and both exit codes see nothing of a report but which severities it contains. */
  lemma VerdictDependsOnSeverities(a: seq<Finding>, b: seq<Finding>)
    requires SameSeverities(a, b)
    ensures Verdict(a) == Verdict(b)
    ensures forall strict :: ExitCodeOf(a, strict) == ExitCodeOf(b, strict)
  {
    forall s | Rank(s) > 0
      ensures Has(a, s) == Has(b, s)
    {
      if Has(a, s) {
        var i :| 0 <= i < |a| && a[i].status == s;
      }
      if Has(b, s) {
        var i :| 0 <= i < |b| && b[i].status == s;
      }
    }
    assert Rank(CRIT) > 0 && Rank(WARN) > 0 && Rank(UNKNOWN) > 0;
    assert Has(a, CRIT) == Has(b, CRIT) && Has(a, WARN) == Has(b, WARN) && Has(a, UNKNOWN) == Has(b, UNKNOWN);
  }

  /** In particular the order in which the findings arrived cannot change the verdict. */
  lemma VerdictIgnoresOrder(a: seq<Finding>, b: seq<Finding>)
    requires multiset(a) == multiset(b)
    ensures Verdict(a) == Verdict(b)
    ensures forall strict :: ExitCodeOf(a, strict) == ExitCodeOf(b, strict)
  {
    forall i | 0 <= i < |a|
      ensures Has(b, a[i].status)
    {
      assert a[i] in multiset(b);
      var j :| 0 <= j < |b| && b[j] == a[i];
      assert b[j].status == a[i].status;
    }
    forall i | 0 <= i < |b|
      ensures Has(a, b[i].status)
    {
      assert b[i] in multiset(a);
      var j :| 0 <= j < |a| && a[j] == b[i];
      assert a[j].status == b[i].status;
    }
    VerdictDependsOnSeverities(a, b);
  }

  // ---------- The declared order of the statuses ----------

  /** The place of a status in its declaration, which is commented as running from least to most severe. */
  function Declared(s: Status): nat {
    if s == SKIP then 4
    else if s == UNKNOWN then 3
    else if s == CRIT then 2
    else if s == WARN then 1
    else 0
  }

  /** The worst status if severity followed the declaration. */
  function WorstDeclared(fs: seq<Finding>): Status {
    if fs == [] then OK
    else
      var worst := WorstDeclared(fs[..|fs| - 1]);
      if Declared(fs[|fs| - 1].status) > Declared(worst) then fs[|fs| - 1].status else worst
  }

  lemma {:induction false} WorstDeclaredIs(fs: seq<Finding>)
    ensures WorstDeclared(fs)
         == if Has(fs, SKIP) then SKIP else if Has(fs, UNKNOWN) then UNKNOWN
            else if Has(fs, CRIT) then CRIT else if Has(fs, WARN) then WARN else OK
  {
    if fs != [] {
      var init, f := fs[..|fs| - 1], fs[|fs| - 1];
      WorstDeclaredIs(init);
      assert fs == init + [f];
      HasSnoc(init, f, SKIP);
      HasSnoc(init, f, UNKNOWN);
      HasSnoc(init, f, CRIT);
      HasSnoc(init, f, WARN);
    }
  }

  /** The declared order gives the verdict exactly when nothing was skipped and UNKNOWN meets no WARN or CRIT. */
  lemma DeclaredOrderExactly(fs: seq<Finding>)
    ensures WorstDeclared(fs) == Verdict(fs)
       <==> !Has(fs, SKIP) && (Has(fs, UNKNOWN) ==> !Has(fs, WARN) && !Has(fs, CRIT))
  {
    WorstDeclaredIs(fs);
  }

  /** One unknown and one warning: the declared order says UNKNOWN, the verdict is WARN. */
  lemma DeclaredOrderMisleads()
    ensures var fs := [Finding("a", UNKNOWN, "", "", map[], 0), Finding("b", WARN, "", "", map[], 0)];
      WorstDeclared(fs) == UNKNOWN && Verdict(fs) == WARN
  {
    var fs := [Finding("a", UNKNOWN, "", "", map[], 0), Finding("b", WARN, "", "", map[], 0)];
    WorstDeclaredIs(fs);
    assert fs[0].status == UNKNOWN && fs[1].status == WARN;
  }
}
