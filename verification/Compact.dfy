/** The rows of the compact renderer, with colours off (internal/render/compact.go). */
module Compact {
  import opened Sequences
  import opened Findings
  import opened Sorting
  import opened Grouping
  import opened Cli

  const CHECK_CAP: nat := 32
  const RESOURCE_CAP: nat := 56
  const ELLIPSIS: char := '\U{2026}'
  const BAR: char := '\U{258C}'

  function Truncate(s: string, w: int): string {
    if w <= 0 || |s| <= w then s
    else if w <= 1 then s[..w]
    else s[..w - 1] + [ELLIPSIS]
  }

  function PadRight(s: string, w: int): string {
    if w - |s| <= 0 then s else s + Repeat(' ', w - |s|)
  }

  function PadBy(s: string, w: int): nat {
    if w - |s| <= 0 then 0 else w - |s|
  }

  /** The resource column: the tag taken off, and a dash for nothing. */
  function ShownResource(f: Finding): string {
    var res := StripSeenBefore(f.resource).1;
    if res == "" then "-" else res
  }

  function Widest(cells: seq<string>): nat {
    if cells == [] then 0
    else
      var w := Widest(cells[..|cells| - 1]);
      if |cells[|cells| - 1]| > w then |cells[|cells| - 1]| else w
  }

  function Capped(w: nat, cap: nat): nat {
    if w > cap then cap else w
  }

  function Checks(fs: seq<Finding>): seq<string> {
    Map(fs, (f: Finding) => f.check)
  }

  function Resources(fs: seq<Finding>): seq<string> {
    Map(fs, ShownResource)
  }

  method CompactWidths(fs: seq<Finding>) returns (checkW: nat, resW: nat)
    ensures checkW == Capped(Widest(Checks(fs)), CHECK_CAP)
    ensures resW == Capped(Widest(Resources(fs)), RESOURCE_CAP)
  {
    checkW, resW := 0, 0;
    for i := 0 to |fs|
      invariant checkW == Widest(Checks(fs[..i])) && resW == Widest(Resources(fs[..i]))
    {
      assert fs[..i + 1] == fs[..i] + [fs[i]];
      WidestSnoc(fs[..i], fs[i]);
      if |fs[i].check| > checkW {
        checkW := |fs[i].check|;
      }
      var res := StripSeenBefore(fs[i].resource).1;
      if res == "" {
        res := "-";
      }
      if |res| > resW {
        resW := |res|;
      }
    }
    assert fs[..|fs|] == fs;
    if checkW > CHECK_CAP {
      checkW := CHECK_CAP;
    }
    if resW > RESOURCE_CAP {
      resW := RESOURCE_CAP;
    }
  }

  lemma WidestSnoc(fs: seq<Finding>, f: Finding)
    ensures Widest(Checks(fs + [f])) == if |f.check| > Widest(Checks(fs)) then |f.check| else Widest(Checks(fs))
    ensures Widest(Resources(fs + [f]))
         == if |ShownResource(f)| > Widest(Resources(fs)) then |ShownResource(f)| else Widest(Resources(fs))
  {
    MapSnoc(fs, f, (g: Finding) => g.check);
    MapSnoc(fs, f, ShownResource);
    assert Checks(fs + [f])[..|fs|] == Checks(fs);
    assert Resources(fs + [f])[..|fs|] == Resources(fs);
  }

  function CompactLine(f: Finding, checkW: nat, resW: nat): string {
    var check := Truncate(f.check, checkW);
    var res := Truncate(ShownResource(f), resW);
    "  " + [BAR] + "  " + PadRight(check, checkW) + "  " + (res + Repeat(' ', PadBy(res, resW))) + "  " + f.message
  }

  function LineWith(checkW: nat, resW: nat): Finding -> string {
    f => CompactLine(f, checkW, resW)
  }

  function LinesOf(sorted: seq<Finding>, checkW: nat, resW: nat): seq<string> {
    Map(sorted, LineWith(checkW, resW))
  }

  function CheckWidth(fs: seq<Finding>): nat {
    Capped(Widest(Checks(FlatOrder(fs))), CHECK_CAP)
  }

  function ResourceWidth(fs: seq<Finding>): nat {
    Capped(Widest(Resources(FlatOrder(fs))), RESOURCE_CAP)
  }

  function CompactLines(fs: seq<Finding>): seq<string> {
    LinesOf(FlatOrder(fs), CheckWidth(fs), ResourceWidth(fs))
  }

  method WriteCompactSection(fs: seq<Finding>) returns (lines: seq<string>)
    ensures lines == CompactLines(fs)
  {
    hide CompactLine, StableSort, Map, Widest;
    var sorted := StableSort(fs, ByCheckThenResource);
    var checkW, resW := CompactWidths(sorted);
    lines := [];
    for i := 0 to |sorted|
      invariant lines == LinesOf(sorted[..i], checkW, resW)
    {
      assert sorted[..i + 1] == sorted[..i] + [sorted[i]];
      MapSnoc(sorted[..i], sorted[i], LineWith(checkW, resW));
      var line := WriteRow(sorted[i], checkW, resW);
      lines := lines + [line];
    }
    assert sorted[..|sorted|] == sorted;
  }

  /** The body of the row loop. */
  method WriteRow(f: Finding, checkW: nat, resW: nat) returns (line: string)
    ensures line == CompactLine(f, checkW, resW)
  {
    var res := StripSeenBefore(f.resource).1;
    var check := Truncate(f.check, checkW);
    var resPlain := res;
    if resPlain == "" {
      resPlain := "-";
    }
    resPlain := Truncate(resPlain, resW);
    var resPad := Repeat(' ', PadBy(resPlain, resW));
    line := "  " + [BAR] + "  " + PadRight(check, checkW) + "  " + (resPlain + resPad) + "  " + f.message;
  }

  // ---------- Alignment ----------

  /** The cell shows `s` whole and padded with spaces, or cut to the cap with an ellipsis. */
  ghost predicate Fitted(cell: string, s: string, cap: nat)
    requires cap > 0
  {
    if |s| <= cap then s <= cell && forall i :: |s| <= i < |cell| ==> cell[i] == ' '
    else cell == s[..cap - 1] + [ELLIPSIS]
  }

  lemma {:induction false} WidestBounds(cells: seq<string>, i: nat)
    requires i < |cells|
    ensures |cells[i]| <= Widest(cells)
  {
    if i < |cells| - 1 {
      WidestBounds(cells[..|cells| - 1], i);
    }
  }

  /** The resource without the tag that marks known findings, and a dash where that leaves nothing. */
  function Untagged(resource: string): string {
    var own := if "[seen-before] " <= resource then resource[14..] else resource;
    if own == "" then "-" else own
  }

  lemma ShownIsUntagged(f: Finding)
    ensures ShownResource(f) == Untagged(f.resource)
  {
  }

  /** Truncating to a capped column and padding fills the column exactly. */
  lemma CellFits(cells: seq<string>, i: nat, cap: nat)
    requires i < |cells| && cap > 1
    ensures var w := Capped(Widest(cells), cap);
      var cell := PadRight(Truncate(cells[i], w), w);
      |cell| == w && Fitted(cell, cells[i], cap)
  {
    WidestBounds(cells, i);
  }

  lemma PadsAgree(s: string, w: nat)
    ensures PadRight(s, w) == s + Repeat(' ', PadBy(s, w))
  {
    assert s + Repeat(' ', 0) == s;
  }

  lemma RowLayout(a: string, check: string, res: string, message: string)
    requires |a| == 5
    ensures var line := a + check + "  " + res + "  " + message;
      && |line| == 9 + |check| + |res| + |message|
      && line[..5] == a && line[5..5 + |check|] == check && line[5 + |check|..7 + |check|] == "  "
      && line[7 + |check|..7 + |check| + |res|] == res
      && line[7 + |check| + |res|..9 + |check| + |res|] == "  " && line[9 + |check| + |res|..] == message
  {
  }

  /**
    Every row of a section has its check, resource and message at the same columns, shown
    whole unless longer than the caps of 32 and 56, and no row is missing.
   */
  lemma {:induction false} CompactRowsAlign(fs: seq<Finding>, k: nat)
    requires k < |FlatOrder(fs)|
    ensures var f, line, cw, rw := FlatOrder(fs)[k], CompactLines(fs)[k], CheckWidth(fs), ResourceWidth(fs);
      && |line| == 9 + cw + rw + |f.message|
      && line[..5] == "  \U{258C}  " && line[5 + cw..7 + cw] == "  " && line[7 + cw + rw..9 + cw + rw] == "  "
      && Fitted(line[5..5 + cw], f.check, 32)
      && Fitted(line[7 + cw..7 + cw + rw], Untagged(f.resource), 56)
      && line[9 + cw + rw..] == f.message
    ensures |CompactLines(fs)| == |fs|
  {
    hide Fitted, PadRight, Truncate, StableSort, Widest, StripSeenBefore;
    ShownIsUntagged(FlatOrder(fs)[k]);
    var sorted := FlatOrder(fs);
    var f, cw, rw := sorted[k], CheckWidth(fs), ResourceWidth(fs);
    StableSortPermutes(fs, ByCheckThenResource);
    assert |multiset(sorted)| == |multiset(fs)|;
    assert Checks(sorted)[k] == f.check && Resources(sorted)[k] == ShownResource(f);
    CellFits(Checks(sorted), k, CHECK_CAP);
    CellFits(Resources(sorted), k, RESOURCE_CAP);
    var check, res := Truncate(f.check, cw), Truncate(ShownResource(f), rw);
    PadsAgree(res, rw);
    RowLayout("  " + [BAR] + "  ", PadRight(check, cw), PadRight(res, rw), f.message);
  }

  lemma {:induction false} WidestExactly(cells: seq<string>)
    ensures cells == [] ==> Widest(cells) == 0
    ensures cells != [] ==> exists i :: 0 <= i < |cells| && |cells[i]| == Widest(cells)
  {
    if cells != [] {
      var init := cells[..|cells| - 1];
      WidestExactly(init);
      if init != [] && |cells[|cells| - 1]| <= Widest(init) {
        var i :| 0 <= i < |init| && |init[i]| == Widest(init);
        assert |cells[i]| == Widest(cells);
      } else {
        assert |cells[|cells| - 1]| == Widest(cells);
      }
    }
  }

  /** No column is wider than its widest cell: some row fills it, or it is at its cap. */
  lemma {:induction false} ColumnsAreTight(fs: seq<Finding>)
    requires fs != []
    ensures CheckWidth(fs) <= 32 && ResourceWidth(fs) <= 56
    ensures CheckWidth(fs) == 32 || exists f :: f in fs && |f.check| == CheckWidth(fs)
    ensures ResourceWidth(fs) == 56 || exists f :: f in fs && |Untagged(f.resource)| == ResourceWidth(fs)
  {
    hide StableSort, Widest, Untagged, StripSeenBefore;
    var sorted := FlatOrder(fs);
    StableSortPermutes(fs, ByCheckThenResource);
    assert |multiset(sorted)| == |multiset(fs)|;
    WidestExactly(Checks(sorted));
    WidestExactly(Resources(sorted));
    var i :| 0 <= i < |sorted| && |Checks(sorted)[i]| == Widest(Checks(sorted));
    var j :| 0 <= j < |sorted| && |Resources(sorted)[j]| == Widest(Resources(sorted));
    assert sorted[i] in multiset(fs) && sorted[j] in multiset(fs);
    ShownIsUntagged(sorted[j]);
  }
}
