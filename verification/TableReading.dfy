/** Reading the emitted lines of a table back: which line belongs to which row, and what stands in it. */
module TableReading {
  import opened Sequences
  import opened Findings
  import opened Grouping
  import opened Wrapping
  import opened Columns
  import opened Table
  import opened TableLaws
  import opened TableSection

  /** The cell of a row: missing ones are empty. */
  function Cell(row: seq<string>, col: nat): string {
    if col < |row| then row[col] else ""
  }

  /** How many lines a row takes. */
  function RowHeight(row: seq<string>, widths: seq<nat>): nat {
    Height(WrappedRow(row, widths), |widths|)
  }

  lemma {:induction false} HeightExactly(wrapped: seq<seq<string>>, n: nat)
    requires n <= |wrapped|
    ensures 1 <= Height(wrapped, n)
    ensures forall i :: 0 <= i < n ==> |wrapped[i]| <= Height(wrapped, n)
    ensures Height(wrapped, n) == 1 || exists i :: 0 <= i < n && |wrapped[i]| == Height(wrapped, n)
  {
    if n > 0 {
      HeightExactly(wrapped, n - 1);
    }
  }

  /** A row is as high as its highest wrapped cell, and never without a line. */
  lemma {:induction false} RowHeightExactly(row: seq<string>, widths: seq<nat>)
    ensures 1 <= RowHeight(row, widths)
    ensures forall i {:trigger widths[i]} :: 0 <= i < |widths| ==>
      |WrapLines(Cell(row, i), widths[i])| <= RowHeight(row, widths)
    ensures RowHeight(row, widths) == 1 ||
      exists i {:trigger widths[i]} ::
        0 <= i < |widths| && |WrapLines(Cell(row, i), widths[i])| == RowHeight(row, widths)
  {
    hide WrapLines;
    HeightExactly(WrappedRow(row, widths), |widths|);
    forall i | 0 <= i < |widths|
      ensures WrappedRow(row, widths)[i] == WrapLines(Cell(row, i), widths[i])
    {
      WrappedAt(row, widths, |widths|, i);
    }
  }

  /** How many lines the first `n` rows take. */
  function LinesOfRows(rows: seq<seq<string>>, widths: seq<nat>, n: nat): nat
    requires n <= |rows|
  {
    if n == 0 then 0 else LinesOfRows(rows, widths, n - 1) + RowHeight(rows[n - 1], widths)
  }

  lemma {:induction false} RowLineAt(wrapped: seq<seq<string>>, widths: seq<nat>, h: nat, k: nat)
    requires |wrapped| == |widths| && k < h
    ensures RowLinesTo(wrapped, widths, h)[k] == RowPrefix(wrapped, widths, k, |widths|)
  {
    if k < h - 1 {
      RowLineAt(wrapped, widths, h - 1, k);
    }
  }

  lemma {:induction false} LinesOfInit(rows: seq<seq<string>>, widths: seq<nat>, n: nat)
    requires n < |rows|
    ensures LinesOfRows(rows[..|rows| - 1], widths, n) == LinesOfRows(rows, widths, n)
  {
    if n > 0 {
      LinesOfInit(rows, widths, n - 1);
    }
  }

  lemma {:induction false} AllLinesLength(rows: seq<seq<string>>, widths: seq<nat>)
    ensures |AllRowLines(rows, widths)| == LinesOfRows(rows, widths, |rows|)
  {
    hide WrappedRow, Height, RowPrefix;
    if rows != [] {
      AllLinesLength(rows[..|rows| - 1], widths);
      LinesOfInit(rows, widths, |rows| - 1);
    }
  }

  lemma {:induction false} LinesGrow(rows: seq<seq<string>>, widths: seq<nat>, m: nat, n: nat)
    requires m <= n <= |rows|
    ensures LinesOfRows(rows, widths, m) <= LinesOfRows(rows, widths, n)
  {
    hide RowHeight;
    if m < n {
      LinesGrow(rows, widths, m, n - 1);
    }
  }

  /** The lines of the rows stand one row behind the other. */
  lemma {:induction false} AllLineAt(rows: seq<seq<string>>, widths: seq<nat>, r: nat, k: nat)
    requires r < |rows| && k < RowHeight(rows[r], widths)
    ensures LinesOfRows(rows, widths, r) + k < |AllRowLines(rows, widths)|
    ensures AllRowLines(rows, widths)[LinesOfRows(rows, widths, r) + k]
         == RowPrefix(WrappedRow(rows[r], widths), widths, k, |widths|)
  {
    hide WrappedRow, Height, RowPrefix;
    var init, last := rows[..|rows| - 1], rows[|rows| - 1];
    AllLinesLength(init, widths);
    LinesOfInit(rows, widths, |rows| - 1);
    if r < |init| {
      AllLineAt(init, widths, r, k);
      LinesOfInit(rows, widths, r);
    } else {
      RowLineAt(WrappedRow(last, widths), widths, RowHeight(last, widths), k);
    }
  }

  /** Where a row's first line stands: behind the top rule, the header, the middle rule, and the rows before it. */
  function FirstLine(headers: seq<string>, rows: seq<seq<string>>, widths: seq<nat>, r: nat): nat
    requires r <= |rows|
  {
    2 + RowHeight(headers, widths) + LinesOfRows(rows, widths, r)
  }

  lemma {:induction false} Parts(top: string, head: seq<string>, mid: string, body: seq<string>, bot: string)
    ensures var all := [top] + head + [mid] + body + [bot];
      && |all| == 3 + |head| + |body|
      && all[0] == top && all[1 + |head|] == mid && all[2 + |head| + |body|] == bot
      && (forall k {:trigger head[k]} :: 0 <= k < |head| ==> all[1 + k] == head[k])
      && (forall k {:trigger body[k]} :: 0 <= k < |body| ==> all[2 + |head| + k] == body[k])
  {
  }

  /** What the rules are, how many lines there are, and what each line of the header is. */
  lemma {:induction false} FrameLineIs(headers: seq<string>, rows: seq<seq<string>>, maxWidth: int, k: nat)
    ensures var ws, lines := ColumnWidths(headers, rows, maxWidth), TableLines(headers, rows, maxWidth);
      && |lines| == FirstLine(headers, rows, ws, |rows|) + 1
      && lines[0] == BorderOf(TOP, ws) && lines[1 + RowHeight(headers, ws)] == BorderOf(MIDDLE, ws)
      && lines[|lines| - 1] == BorderOf(BOTTOM, ws)
      && (k < RowHeight(headers, ws) ==> lines[1 + k] == RowPrefix(WrappedRow(headers, ws), ws, k, |ws|))
  {
    hide ColumnWidths, WrappedRow, Height, RowPrefix, BorderOf, AllRowLines, LinesOfRows;
    var ws := ColumnWidths(headers, rows, maxWidth);
    var head := RowLines(WrappedRow(headers, ws), ws);
    Parts(BorderOf(TOP, ws), head, BorderOf(MIDDLE, ws), AllRowLines(rows, ws), BorderOf(BOTTOM, ws));
    AllLinesLength(rows, ws);
    if k < RowHeight(headers, ws) {
      RowLineAt(WrappedRow(headers, ws), ws, RowHeight(headers, ws), k);
    }
  }

  /** What each line of a row is. */
  lemma {:induction false} LineIs(headers: seq<string>, rows: seq<seq<string>>, maxWidth: int, r: nat, k: nat)
    requires r < |rows| && k < RowHeight(rows[r], ColumnWidths(headers, rows, maxWidth))
    ensures var ws, lines := ColumnWidths(headers, rows, maxWidth), TableLines(headers, rows, maxWidth);
      && FirstLine(headers, rows, ws, r) + k < |lines| - 1
      && lines[FirstLine(headers, rows, ws, r) + k] == RowPrefix(WrappedRow(rows[r], ws), ws, k, |ws|)
  {
    hide ColumnWidths, WrappedRow, Height, RowPrefix, BorderOf, AllRowLines, LinesOfRows;
    var ws := ColumnWidths(headers, rows, maxWidth);
    var head := RowLines(WrappedRow(headers, ws), ws);
    Parts(BorderOf(TOP, ws), head, BorderOf(MIDDLE, ws), AllRowLines(rows, ws), BorderOf(BOTTOM, ws));
    AllLineAt(rows, ws, r, k);
  }

  /** What stands in a column of `h` lines from line `at` on, top to bottom. */
  function Reading(lines: seq<string>, at: nat, h: nat, widths: seq<nat>, col: nat): string
    requires at + h <= |lines| && col < |widths|
  {
    if h == 0 then "" else Reading(lines, at, h - 1, widths, col) + Slot(lines[at + h - 1], widths, col)
  }

  /** The row's `h` lines stand from line `at` on. */
  ghost predicate RowStandsAt(lines: seq<string>, at: nat, h: nat, row: seq<string>, widths: seq<nat>) {
    && at + h <= |lines|
    && forall i {:trigger lines[i]} :: at <= i < at + h ==>
         lines[i] == RowPrefix(WrappedRow(row, widths), widths, i - at, |widths|)
  }

  lemma {:induction false} ReadingIsColumnText(lines: seq<string>, at: nat, h: nat, row: seq<string>,
      widths: seq<nat>, col: nat)
    requires col < |widths| && RowStandsAt(lines, at, h, row, widths)
    ensures Reading(lines, at, h, widths, col) == ColumnText(WrappedRow(row, widths), widths, col, h)
  {
    hide WrappedRow, RowPrefix, Slot;
    if h > 0 {
      ReadingIsColumnText(lines, at, h - 1, row, widths, col);
    }
  }

  /** A bar and a space on either side of the column. */
  ghost predicate Framed(line: string, widths: seq<nat>, col: nat)
    requires col < |widths|
  {
    var left, right := Offset(widths, col), Offset(widths, col + 1);
    && right < |line|
    && line[left] == '\U{2502}' && line[left + 1] == ' '
    && line[right - 1] == ' ' && line[right] == '\U{2502}'
  }

  /** A line shows one line of the wrapped cell, from the column's left edge on, and spaces behind it. */
  ghost predicate ShowsPart(line: string, widths: seq<nat>, col: nat, part: string)
    requires col < |widths|
  {
    var slot := Slot(line, widths, col);
    && Framed(line, widths, col)
    && |slot| == widths[col] && part <= slot && forall i :: |part| <= i < |slot| ==> slot[i] == ' '
  }

  lemma PartAt(before: string, slab: string, line: string, i: nat)
    requires before + slab <= line && i < |slab|
    ensures |before| + i < |line| && line[|before| + i] == slab[i]
  {
    assert (before + slab)[|before| + i] == slab[i];
  }

  lemma SlabIsFramed(before: string, slab: string, line: string, widths: seq<nat>, col: nat)
    requires col < |widths| && before + slab <= line
    requires |before| == Offset(widths, col) + 1 && before[Offset(widths, col)] == '\U{2502}'
    requires |slab| == widths[col] + 3 && slab[0] == slab[widths[col] + 1] == ' ' && slab[widths[col] + 2] == '\U{2502}'
    ensures Framed(line, widths, col)
  {
    assert before <= before + slab;
    PartAt(before, slab, line, 0);
    PartAt(before, slab, line, widths[col] + 1);
    PartAt(before, slab, line, widths[col] + 2);
  }

  lemma SlabEnds(lines: seq<string>, width: nat, k: nat)
    requires Confined(lines, width)
    ensures var slab := Slab(lines, width, k);
      |slab| == width + 3 && slab[0] == slab[width + 1] == ' ' && slab[width + 2] == '\U{2502}'
  {
    SlabLength(lines, width, k);
  }

  lemma {:induction false} RowIsFramed(wrapped: seq<seq<string>>, widths: seq<nat>, k: nat, col: nat)
    requires col < |widths| && RowConfined(wrapped, widths)
    ensures Framed(RowPrefix(wrapped, widths, k, |widths|), widths, col)
  {
    hide Slab, Framed, Confined;
    RowPrefixLength(wrapped, widths, k, col);
    RowKeepsPrefix(wrapped, widths, k, col + 1, |widths|);
    SlabEnds(wrapped[col], widths[col], k);
    SlabIsFramed(RowPrefix(wrapped, widths, k, col), Slab(wrapped[col], widths[col], k),
      RowPrefix(wrapped, widths, k, |widths|), widths, col);
  }

  /** The k-th line of the wrapped cell, if it has so many. */
  function PartOf(cell: string, width: nat, k: nat): string {
    if k < |WrapLines(cell, width)| then WrapLines(cell, width)[k] else ""
  }

  lemma {:induction false} RowLineShows(row: seq<string>, widths: seq<nat>, k: nat, col: nat)
    requires col < |widths| && RowConfined(WrappedRow(row, widths), widths)
    ensures ShowsPart(RowPrefix(WrappedRow(row, widths), widths, k, |widths|), widths, col,
              PartOf(Cell(row, col), widths[col], k))
  {
    hide WrapLines, RowPrefix, Slot, Framed;
    RowIsFramed(WrappedRow(row, widths), widths, k, col);
    SlotShowsSegment(WrappedRow(row, widths), widths, k, col);
    WrappedAt(row, widths, |widths|, col);
    assert Confined(WrappedRow(row, widths)[col], widths[col]);
  }

  /**
    In one column the `h` lines from `at` on show the wrapped cell line by line, and read
    from top to bottom they spell out the whole cell, up to spaces.
   */
  ghost predicate ReadsAs(lines: seq<string>, at: nat, h: nat, widths: seq<nat>, col: nat, cell: string)
    requires col < |widths|
  {
    && at + h < |lines|
    && (forall i {:trigger lines[i]} :: at <= i < at + h ==>
          ShowsPart(lines[i], widths, col, PartOf(cell, widths[col], i - at)))
    && Filter(Reading(lines, at, h, widths, col), NotSpace) == Filter(cell, NotSpace)
  }

  lemma {:induction false} RowStands(headers: seq<string>, rows: seq<seq<string>>, maxWidth: int, r: nat)
    requires r < |rows|
    ensures var ws, lines := ColumnWidths(headers, rows, maxWidth), TableLines(headers, rows, maxWidth);
      var at, h := FirstLine(headers, rows, ws, r), RowHeight(rows[r], ws);
      RowStandsAt(lines, at, h, rows[r], ws) && at + h < |lines|
  {
    hide TableLines, ColumnWidths, WrappedRow, RowPrefix;
    var ws, lines := ColumnWidths(headers, rows, maxWidth), TableLines(headers, rows, maxWidth);
    var at, h := FirstLine(headers, rows, ws, r), RowHeight(rows[r], ws);
    FrameLineIs(headers, rows, maxWidth, 0);
    LinesGrow(rows, ws, r + 1, |rows|);
    forall i: nat {:trigger lines[i]} | at <= i < at + h
      ensures i < |lines| && lines[i] == RowPrefix(WrappedRow(rows[r], ws), ws, i - at, |ws|)
    {
      LineIs(headers, rows, maxWidth, r, i - at);
    }
  }

  lemma {:induction false} RowReadsAs(lines: seq<string>, at: nat, h: nat, row: seq<string>, widths: seq<nat>,
      col: nat)
    requires col < |widths| && RowStandsAt(lines, at, h, row, widths) && RowConfined(WrappedRow(row, widths), widths)
    requires at + h < |lines|
    requires Filter(ColumnText(WrappedRow(row, widths), widths, col, h), NotSpace)
          == Filter(Cell(row, col), NotSpace)
    ensures ReadsAs(lines, at, h, widths, col, Cell(row, col))
  {
    hide WrappedRow, RowConfined, RowPrefix, Slot, ShowsPart, PartOf, Filter, Cell;
    forall i: nat {:trigger lines[i]} | at <= i < at + h
      ensures ShowsPart(lines[i], widths, col, PartOf(Cell(row, col), widths[col], i - at))
    {
      RowLineShows(row, widths, i - at, col);
    }
    ReadingIsColumnText(lines, at, h, row, widths, col);
  }

  /**
    The emitted table, read back. The header's lines stand behind the top rule; row r's lines
    stand behind the middle rule and the lines of the rows before it, and read as its cells.
    Nothing stands behind the last row but the bottom rule.
   */
  lemma {:induction false} TableReadsBack(headers: seq<string>, rows: seq<seq<string>>, maxWidth: int, r: nat, col: nat)
    requires col < |headers| && r < |rows|
    ensures var ws, lines := ColumnWidths(headers, rows, maxWidth), TableLines(headers, rows, maxWidth);
      && |lines| == FirstLine(headers, rows, ws, |rows|) + 1
      && ReadsAs(lines, FirstLine(headers, rows, ws, r), RowHeight(rows[r], ws), ws, col, Cell(rows[r], col))
  {
    hide WrapLines, TableLines, ColumnWidths, WrappedRow, RowPrefix, RowConfined, RowStandsAt, ReadsAs, ColumnText,
      Filter;
    var ws, lines := ColumnWidths(headers, rows, maxWidth), TableLines(headers, rows, maxWidth);
    FrameLineIs(headers, rows, maxWidth, 0);
    RowStands(headers, rows, maxWidth, r);
    CellsConfined(headers, rows, maxWidth);
    TableShowsCells(headers, rows, maxWidth, r, col);
    CellIs(rows[r], col);
    RowReadsAs(lines, FirstLine(headers, rows, ws, r), RowHeight(rows[r], ws), rows[r], ws, col);
  }

  lemma CellIs(row: seq<string>, col: nat)
    ensures Cell(row, col) == CellAt(row, col)
  {
  }

  /** The header read back in the same way, from line 1 on. */
  lemma {:induction false} HeaderReadsBack(headers: seq<string>, rows: seq<seq<string>>, maxWidth: int,
      k: nat, col: nat)
    requires col < |headers| && k < RowHeight(headers, ColumnWidths(headers, rows, maxWidth))
    ensures var ws, lines := ColumnWidths(headers, rows, maxWidth), TableLines(headers, rows, maxWidth);
      1 + k < |lines| && ShowsPart(lines[1 + k], ws, col, PartOf(headers[col], ws[col], k))
  {
    hide WrapLines, TableLines, ColumnWidths, WrappedRow, RowPrefix, Slot, ShowsPart, PartOf;
    var ws := ColumnWidths(headers, rows, maxWidth);
    FrameLineIs(headers, rows, maxWidth, k);
    LinesGrow(rows, ws, 0, |rows|);
    CellsConfined(headers, rows, maxWidth);
    RowLineShows(headers, ws, k, col);
  }

  // ---------- Rules ----------

  /** A rule with these corners and junction: dashes everywhere but at the column boundaries. */
  ghost predicate IsRule(line: string, widths: seq<nat>, left: char, sep: char, right: char) {
    && |line| == LineWidth(widths)
    && (forall col {:trigger Offset(widths, col)} :: 0 <= col <= |widths| ==>
          Offset(widths, col) < |line|
          && line[Offset(widths, col)] == if col == 0 then left else if col < |widths| then sep else right)
    && forall col: nat, i {:trigger Offset(widths, col), line[i]} ::
         col < |widths| && Offset(widths, col) < i < Offset(widths, col + 1) ==> line[i] == '\U{2500}'
  }

  lemma {:induction false} BorderDashes(rule: Rule, widths: seq<nat>, n: nat, col: nat, i: nat)
    requires col < n <= |widths| && Offset(widths, col) < i < Offset(widths, col + 1)
    ensures |BorderPrefix(rule, widths, n)| == Offset(widths, n) + if n < |widths| then 1 else 0
    ensures i < |BorderPrefix(rule, widths, n)| && BorderPrefix(rule, widths, n)[i] == '\U{2500}'
  {
    BorderPrefixLength(rule, widths, n);
    BorderPrefixLength(rule, widths, n - 1);
    OffsetGrows(widths, col + 1, n);
    if col < n - 1 {
      BorderDashes(rule, widths, n - 1, col, i);
    }
  }

  lemma {:induction false} OffsetGrows(widths: seq<nat>, m: nat, n: nat)
    requires m <= n <= |widths|
    ensures Offset(widths, m) + 3 * (n - m) <= Offset(widths, n)
  {
    if m < n {
      OffsetGrows(widths, m, n - 1);
    }
  }

  lemma {:induction false} BorderIsRule(rule: Rule, widths: seq<nat>)
    requires widths != []
    ensures IsRule(BorderOf(rule, widths), widths, rule.left, rule.sep, rule.right)
  {
    hide BorderPrefix;
    var line := BorderOf(rule, widths);
    forall col: nat {:trigger Offset(widths, col)} | col <= |widths|
      ensures Offset(widths, col) < |line|
      ensures line[Offset(widths, col)]
           == if col == 0 then rule.left else if col < |widths| then rule.sep else rule.right
    {
      BorderJunction(rule, widths, col);
    }
    BorderJunction(rule, widths, 0);
    forall col: nat, i: nat {:trigger Offset(widths, col), line[i]} |
        col < |widths| && Offset(widths, col) < i < Offset(widths, col + 1)
      ensures i < |line| && line[i] == '\U{2500}'
    {
      BorderDashes(rule, widths, |widths|, col, i);
    }
  }

  /** The first line is the top rule, the line behind the header the middle one, the last line the bottom one. */
  lemma {:induction false} RulesInPlace(headers: seq<string>, rows: seq<seq<string>>, maxWidth: int)
    requires headers != []
    ensures var ws, lines := ColumnWidths(headers, rows, maxWidth), TableLines(headers, rows, maxWidth);
      && |lines| == FirstLine(headers, rows, ws, |rows|) + 1
      && IsRule(lines[0], ws, '\U{250C}', '\U{252C}', '\U{2510}')
      && IsRule(lines[1 + RowHeight(headers, ws)], ws, '\U{251C}', '\U{253C}', '\U{2524}')
      && IsRule(lines[|lines| - 1], ws, '\U{2514}', '\U{2534}', '\U{2518}')
  {
    hide WrapLines, TableLines, ColumnWidths, WrappedRow, RowPrefix, IsRule, BorderOf;
    var ws := ColumnWidths(headers, rows, maxWidth);
    FrameLineIs(headers, rows, maxWidth, 0);
    BorderIsRule(TOP, ws);
    BorderIsRule(MIDDLE, ws);
    BorderIsRule(BOTTOM, ws);
  }

  // ---------- A section of findings ----------

  /** What the table shows of a finding in each of its three columns. */
  function ShownField(f: Finding, col: nat): string {
    if col == 0 then f.check
    else if col == 1 then (if f.resource == "" then "-" else f.resource)
    else f.message
  }

  lemma RowFields(f: Finding, col: nat)
    requires col < 3
    ensures Cell(RowOf(f), col) == ShownField(f, col)
  {
  }

  /**
    The emitted lines of a section, read back: under the headings CHECK, RESOURCE and MESSAGE
    the k-th finding in flat order stands behind those before it.
   */
  lemma {:induction false} SectionReadsBack(fs: seq<Finding>, maxWidth: int, k: nat, col: nat)
    requires k < |FlatOrder(fs)| && col < 3
    ensures var lines, rows := SectionLines(fs, maxWidth), RowsOf(FlatOrder(fs));
      var ws := ColumnWidths(FINDING_HEADERS, rows, maxWidth);
      ReadsAs(lines, FirstLine(FINDING_HEADERS, rows, ws, k), RowHeight(rows[k], ws), ws, col,
        ShownField(FlatOrder(fs)[k], col))
  {
    hide TableLines, ColumnWidths, RowHeight, FirstLine, ReadsAs;
    var rows := RowsOf(FlatOrder(fs));
    TableReadsBack(FINDING_HEADERS, rows, maxWidth, k, col);
    RowFields(FlatOrder(fs)[k], col);
  }

  /** The headings stand behind the top rule. */
  lemma {:induction false} SectionHeadings(fs: seq<Finding>, maxWidth: int, k: nat, col: nat)
    requires col < 3
    requires k < RowHeight(FINDING_HEADERS, ColumnWidths(FINDING_HEADERS, RowsOf(FlatOrder(fs)), maxWidth))
    ensures var ws := ColumnWidths(FINDING_HEADERS, RowsOf(FlatOrder(fs)), maxWidth);
      1 + k < |SectionLines(fs, maxWidth)|
      && ShowsPart(SectionLines(fs, maxWidth)[1 + k], ws, col,
           PartOf(["CHECK", "RESOURCE", "MESSAGE"][col], ws[col], k))
  {
    hide TableLines, ColumnWidths, RowHeight, ShowsPart, PartOf, RowsOf;
    HeaderReadsBack(FINDING_HEADERS, RowsOf(FlatOrder(fs)), maxWidth, k, col);
  }
}
