/**
  One status section of the table renderer, from findings to lines (`writeTableSection` in
  internal/render/table.go).
 */
module TableSection {
  import opened Sequences
  import opened Findings
  import opened Sorting
  import opened Grouping
  import opened Wrapping
  import opened Columns
  import opened Table
  import opened TableLaws

  function RowOf(f: Finding): seq<string> {
    [f.check, if f.resource == "" then "-" else f.resource, f.message]
  }

  function RowsOf(fs: seq<Finding>): seq<seq<string>> {
    Map(fs, RowOf)
  }

  function SectionLines(fs: seq<Finding>, maxWidth: int): seq<string> {
    TableLines(FINDING_HEADERS, RowsOf(FlatOrder(fs)), maxWidth)
  }

  method WriteTableSection(fs: seq<Finding>, maxWidth: int) returns (lines: seq<string>)
    ensures lines == SectionLines(fs, maxWidth)
  {
    var sorted := StableSort(fs, ByCheckThenResource);
    var rows: seq<seq<string>> := [];
    for i := 0 to |sorted|
      invariant rows == RowsOf(sorted[..i])
    {
      assert sorted[..i + 1] == sorted[..i] + [sorted[i]];
      MapSnoc(sorted[..i], sorted[i], RowOf);
      var res := sorted[i].resource;
      if res == "" {
        res := "-";
      }
      rows := rows + [[sorted[i].check, res, sorted[i].message]];
    }
    assert sorted[..|sorted|] == sorted;
    lines := DrawTable(FINDING_HEADERS, rows, maxWidth);
  }

  /** Any findings: from 34 columns on, the section is a rectangle inside the terminal. */
  lemma SectionFits(fs: seq<Finding>, maxWidth: int)
    requires maxWidth >= 34
    ensures var lines := SectionLines(fs, maxWidth);
      && AllOfLength(lines, |lines[0]|)
      && |lines[0]| <= maxWidth
  {
    hide TableLines, RowsOf;
    var rows := RowsOf(FlatOrder(fs));
    FindingsTableFits(rows, maxWidth);
    TableIsRectangle(FINDING_HEADERS, rows, maxWidth);
    HasTopLine(rows, maxWidth);
  }

  lemma HasTopLine(rows: seq<seq<string>>, maxWidth: int)
    ensures |TableLines(FINDING_HEADERS, rows, maxWidth)| > 0
  {
  }

  /**
    Reading the columns of the k-th row from top to bottom spells out the check, resource
    and message of the k-th finding in flat order, up to spaces.
   */
  lemma {:induction false} SectionShowsFindings(fs: seq<Finding>, maxWidth: int, k: nat, col: nat)
    requires k < |FlatOrder(fs)| && col < 3
    ensures var ws := ColumnWidths(FINDING_HEADERS, RowsOf(FlatOrder(fs)), maxWidth);
      var wrapped := WrappedRow(RowOf(FlatOrder(fs)[k]), ws);
      Filter(ColumnText(wrapped, ws, col, Height(wrapped, |wrapped|)), NotSpace)
      == Filter(RowOf(FlatOrder(fs)[k])[col], NotSpace)
  {
    hide WrapLines;
    TableShowsCells(FINDING_HEADERS, RowsOf(FlatOrder(fs)), maxWidth, k, col);
  }

  /**
    Not every emitted line is one line on the screen: a message of at most seven characters
    is never wrapped, so a line break in it is printed as it is, at every terminal width.
   */
  lemma {:induction false} ShortMessageBreaks(fs: seq<Finding>, maxWidth: int, f: Finding)
    requires f in fs && '\n' in f.message && |f.message| <= 7
    ensures BreaksIn(SectionLines(fs, maxWidth))
  {
    hide TableLines, BreaksIn;
    var sorted := FlatOrder(fs);
    var rows := RowsOf(sorted);
    StableSortPermutes(fs, ByCheckThenResource);
    assert f in multiset(fs);
    assert f in multiset(sorted);
    var k :| 0 <= k < |sorted| && sorted[k] == f;
    assert rows[k] == RowOf(f);
    var ws := ColumnWidths(FINDING_HEADERS, rows, maxWidth);
    WidthAtLeast(FINDING_HEADERS, rows, maxWidth, 2);
    NaturalWidthIsLeast(FINDING_HEADERS, rows, 2);
    assert RawBreak(rows[k], ws) by {
      assert CellAt(rows[k], 2) == f.message;
    }
    TableBreaksExactly(FINDING_HEADERS, rows, maxWidth);
  }

  /** One such message. */
  lemma {:induction false} LineBreakInMessage()
    ensures BreaksIn(SectionLines([Finding("a", WARN, "r", "x\ny", map[], 0)], 80))
  {
    hide SectionLines, BreaksIn;
    var f := Finding("a", WARN, "r", "x\ny", map[], 0);
    assert f.message[1] == '\n';
    ShortMessageBreaks([f], 80, f);
  }
}
