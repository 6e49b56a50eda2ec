/** What the drawn table looks like: a rectangle that fits, with aligned borders and every cell complete. */
module TableLaws {
  import opened Sequences
  import opened Wrapping
  import opened WrapLaws
  import opened Columns
  import opened Table

  /** No line of a wrapped cell is wider than its column. */
  ghost predicate Confined(lines: seq<string>, width: nat) {
    forall k {:trigger lines[k]} :: 0 <= k < |lines| ==> |lines[k]| <= width
  }

  ghost predicate RowConfined(wrapped: seq<seq<string>>, widths: seq<nat>) {
    && |wrapped| == |widths|
    && forall i {:trigger wrapped[i]} :: 0 <= i < |widths| ==> Confined(wrapped[i], widths[i])
  }

  lemma WrapConfined(cell: string, width: nat)
    requires width == 0 ==> cell == ""
    ensures Confined(WrapLines(cell, width), width)
  {
    if width > 0 {
      WrapFits(cell, width);
    }
  }

  lemma {:induction false} WrappedAt(cells: seq<string>, widths: seq<nat>, n: nat, i: nat)
    requires i < n <= |widths|
    ensures WrappedTo(cells, widths, n)[i] == WrapLines(CellAt(cells, i), widths[i])
  {
    hide WrapLines;
    if i < n - 1 {
      WrappedAt(cells, widths, n - 1, i);
    }
  }

  /** A column of width zero has nothing to show in this row. */
  ghost predicate EmptyWhereZero(cells: seq<string>, widths: seq<nat>) {
    forall i {:trigger widths[i]} :: 0 <= i < |widths| && widths[i] == 0 ==> CellAt(cells, i) == ""
  }

  lemma ZeroColumnsAreEmpty(headers: seq<string>, rows: seq<seq<string>>, maxWidth: int)
    ensures EmptyWhereZero(headers, ColumnWidths(headers, rows, maxWidth))
    ensures forall r {:trigger rows[r]} :: 0 <= r < |rows| ==>
      EmptyWhereZero(rows[r], ColumnWidths(headers, rows, maxWidth))
  {
    var ws := ColumnWidths(headers, rows, maxWidth);
    forall i | 0 <= i < |ws| && ws[i] == 0
      ensures CellAt(headers, i) == ""
      ensures forall r {:trigger rows[r]} :: 0 <= r < |rows| ==> CellAt(rows[r], i) == ""
    {
      NaturalWidthIsLeast(headers, rows, i);
      ZeroWidthIsEmpty(headers, rows, maxWidth, i);
    }
  }

  lemma WrappedConfined(cells: seq<string>, widths: seq<nat>)
    requires EmptyWhereZero(cells, widths)
    ensures RowConfined(WrappedRow(cells, widths), widths)
  {
    forall i | 0 <= i < |widths|
      ensures Confined(WrappedRow(cells, widths)[i], widths[i])
    {
      WrappedAt(cells, widths, |widths|, i);
      WrapConfined(CellAt(cells, i), widths[i]);
    }
  }

  ghost predicate AllConfined(rows: seq<seq<string>>, widths: seq<nat>) {
    forall r {:trigger rows[r]} :: 0 <= r < |rows| ==> RowConfined(WrappedRow(rows[r], widths), widths)
  }

  /** Whatever the cells, each column is wide enough for every line it shows. */
  lemma CellsConfined(headers: seq<string>, rows: seq<seq<string>>, maxWidth: int)
    ensures RowConfined(WrappedRow(headers, ColumnWidths(headers, rows, maxWidth)),
              ColumnWidths(headers, rows, maxWidth))
    ensures AllConfined(rows, ColumnWidths(headers, rows, maxWidth))
  {
    var ws := ColumnWidths(headers, rows, maxWidth);
    ZeroColumnsAreEmpty(headers, rows, maxWidth);
    WrappedConfined(headers, ws);
    forall r | 0 <= r < |rows|
      ensures RowConfined(WrappedRow(rows[r], ws), ws)
    {
      WrappedConfined(rows[r], ws);
    }
  }

  lemma SlabLength(lines: seq<string>, width: nat, k: nat)
    requires Confined(lines, width)
    ensures |Slab(lines, width, k)| == width + 3
    ensures Slab(lines, width, k)[width + 2] == VERTICAL
    ensures Slab(lines, width, k)[1..width + 1] == Padded(Segment(lines, k), width)
  {
  }

  lemma {:induction false} RowPrefixLength(wrapped: seq<seq<string>>, widths: seq<nat>, k: nat, n: nat)
    requires n <= |widths| && RowConfined(wrapped, widths)
    ensures |RowPrefix(wrapped, widths, k, n)| == Offset(widths, n) + 1
    ensures RowPrefix(wrapped, widths, k, n)[Offset(widths, n)] == VERTICAL
  {
    if n > 0 {
      RowPrefixLength(wrapped, widths, k, n - 1);
      SlabLength(wrapped[n - 1], widths[n - 1], k);
    }
  }

  lemma {:induction false} BorderPrefixLength(rule: Rule, widths: seq<nat>, n: nat)
    requires n <= |widths|
    ensures |BorderPrefix(rule, widths, n)| == Offset(widths, n) + if n < |widths| || n == 0 then 1 else 0
  {
    if n > 0 {
      BorderPrefixLength(rule, widths, n - 1);
    }
  }

  ghost predicate AllOfLength(lines: seq<string>, n: nat) {
    forall i {:trigger lines[i]} :: 0 <= i < |lines| ==> |lines[i]| == n
  }

  lemma {:induction false} RowLinesLength(wrapped: seq<seq<string>>, widths: seq<nat>, h: nat)
    requires RowConfined(wrapped, widths)
    ensures AllOfLength(RowLinesTo(wrapped, widths, h), LineWidth(widths))
  {
    if h > 0 {
      RowLinesLength(wrapped, widths, h - 1);
      RowPrefixLength(wrapped, widths, h - 1, |widths|);
    }
  }

  lemma {:induction false} RowsAreStraight(rows: seq<seq<string>>, widths: seq<nat>)
    requires AllConfined(rows, widths)
    ensures AllOfLength(AllRowLines(rows, widths), LineWidth(widths))
  {
    if rows != [] {
      var last := WrappedRow(rows[|rows| - 1], widths);
      RowsAreStraight(rows[..|rows| - 1], widths);
      RowLinesLength(last, widths, Height(last, |last|));
    }
  }

  /** Every line of the table has 1 + sum of (width + 3) runes, exactly when there is a column at all. */
  lemma TableIsRectangle(headers: seq<string>, rows: seq<seq<string>>, maxWidth: int)
    ensures AllOfLength(TableLines(headers, rows, maxWidth), LineWidth(ColumnWidths(headers, rows, maxWidth)))
       <==> headers != []
  {
    var ws := ColumnWidths(headers, rows, maxWidth);
    CellsConfined(headers, rows, maxWidth);
    RowLinesLength(WrappedRow(headers, ws), ws, Height(WrappedRow(headers, ws), |ws|));
    RowsAreStraight(rows, ws);
    BorderPrefixLength(TOP, ws, |ws|);
    BorderPrefixLength(MIDDLE, ws, |ws|);
    BorderPrefixLength(BOTTOM, ws, |ws|);
    assert TableLines(headers, rows, maxWidth)[0] == BorderOf(TOP, ws);
  }

  /** The table stays within the terminal exactly when its fully shrunk columns do. */
  lemma {:induction false} TableFitsExactly(headers: seq<string>, rows: seq<seq<string>>, maxWidth: int)
    requires headers != []
    ensures var lines := TableLines(headers, rows, maxWidth);
      (forall i {:trigger lines[i]} :: 0 <= i < |lines| ==> |lines[i]| <= maxWidth)
      <==> 1 + 3 * |headers| + Sum(Floored(NaturalWidths(headers, rows), Floors(headers))) <= maxWidth
  {
    TableIsRectangle(headers, rows, maxWidth);
    FitsExactly(headers, rows, maxWidth);
    var lines := TableLines(headers, rows, maxWidth);
    assert |lines[0]| == LineWidth(ColumnWidths(headers, rows, maxWidth));
  }

  const FINDING_HEADERS: seq<string> := ["CHECK", "RESOURCE", "MESSAGE"]

  /** 34 columns are enough for any findings table, and not one less will do once each column needs its 8. */
  lemma FindingsTableFits(rows: seq<seq<string>>, maxWidth: int)
    ensures maxWidth >= 34 ==>
      var lines := TableLines(FINDING_HEADERS, rows, maxWidth);
      forall i {:trigger lines[i]} :: 0 <= i < |lines| ==> |lines[i]| <= maxWidth
    ensures
      maxWidth < 34 && NaturalWidth(FINDING_HEADERS, rows, 0) >= 8 && NaturalWidth(FINDING_HEADERS, rows, 2) >= 8 ==>
      var lines := TableLines(FINDING_HEADERS, rows, maxWidth);
      exists i :: 0 <= i < |lines| && |lines[i]| > maxWidth
  {
    TableFitsExactly(FINDING_HEADERS, rows, maxWidth);
    var natural, floors := NaturalWidths(FINDING_HEADERS, rows), Floors(FINDING_HEADERS);
    var low := Floored(natural, floors);
    assert floors[0] == 8 && floors[1] == 8 && floors[2] == 8;
    NaturalWidthIsLeast(FINDING_HEADERS, rows, 1);
    assert Sum(low) == SumTo(low, 2) + low[2] == SumTo(low, 1) + low[1] + low[2] == low[0] + low[1] + low[2];
  }

  // ---------- Borders ----------

  lemma {:induction false} RowKeepsPrefix(wrapped: seq<seq<string>>, widths: seq<nat>, k: nat, m: nat, n: nat)
    requires m <= n <= |widths| == |wrapped|
    ensures RowPrefix(wrapped, widths, k, m) <= RowPrefix(wrapped, widths, k, n)
  {
    if m < n {
      RowKeepsPrefix(wrapped, widths, k, m, n - 1);
      PrefixExtends(RowPrefix(wrapped, widths, k, m), RowPrefix(wrapped, widths, k, n - 1),
        Slab(wrapped[n - 1], widths[n - 1], k));
    }
  }

  lemma {:induction false} BorderKeepsPrefix(rule: Rule, widths: seq<nat>, m: nat, n: nat)
    requires m <= n <= |widths|
    ensures BorderPrefix(rule, widths, m) <= BorderPrefix(rule, widths, n)
  {
    if m < n {
      BorderKeepsPrefix(rule, widths, m, n - 1);
    }
  }

  lemma PrefixExtends(a: string, b: string, c: string)
    requires a <= b
    ensures a <= b + c
  {
  }

  lemma PrefixAt(a: string, b: string, i: nat)
    requires a <= b && i < |a|
    ensures i < |b| && b[i] == a[i]
  {
  }

  lemma RowJunction(wrapped: seq<seq<string>>, widths: seq<nat>, k: nat, col: nat)
    requires RowConfined(wrapped, widths) && col <= |widths|
    ensures |RowPrefix(wrapped, widths, k, |widths|)| == LineWidth(widths)
    ensures Offset(widths, col) < LineWidth(widths)
    ensures RowPrefix(wrapped, widths, k, |widths|)[Offset(widths, col)] == VERTICAL
  {
    RowPrefixLength(wrapped, widths, k, col);
    RowPrefixLength(wrapped, widths, k, |widths|);
    RowKeepsPrefix(wrapped, widths, k, col, |widths|);
    PrefixAt(RowPrefix(wrapped, widths, k, col), RowPrefix(wrapped, widths, k, |widths|), Offset(widths, col));
  }

  lemma BorderJunction(rule: Rule, widths: seq<nat>, col: nat)
    requires widths != [] && col <= |widths|
    ensures |BorderOf(rule, widths)| == LineWidth(widths)
    ensures Offset(widths, col) < LineWidth(widths)
    ensures BorderOf(rule, widths)[Offset(widths, col)]
         == if col == 0 then rule.left else if col < |widths| then rule.sep else rule.right
  {
    BorderPrefixLength(rule, widths, |widths|);
    BorderPrefixLength(rule, widths, col);
    BorderKeepsPrefix(rule, widths, col, |widths|);
    if col < |widths| {
      if col > 0 {
        BorderPrefixLength(rule, widths, col - 1);
      }
      PrefixAt(BorderPrefix(rule, widths, col), BorderPrefix(rule, widths, |widths|), Offset(widths, col));
    }
  }

  /** At every column boundary a row line shows the vertical bar and a border line its junction or end. */
  lemma JunctionsAlign(wrapped: seq<seq<string>>, widths: seq<nat>, k: nat, rule: Rule, col: nat)
    requires widths != [] && RowConfined(wrapped, widths) && col <= |widths|
    ensures |RowPrefix(wrapped, widths, k, |widths|)| == |BorderOf(rule, widths)| > Offset(widths, col)
    ensures RowPrefix(wrapped, widths, k, |widths|)[Offset(widths, col)] == VERTICAL
    ensures BorderOf(rule, widths)[Offset(widths, col)]
         == if col == 0 then rule.left else if col < |widths| then rule.sep else rule.right
  {
    RowJunction(wrapped, widths, k, col);
    BorderJunction(rule, widths, col);
  }

  // ---------- Cells read back ----------

  /** The text a line shows in a column, without borders and the single spaces around it. */
  function Slot(line: string, widths: seq<nat>, col: nat): string
    requires col < |widths|
  {
    var at := Offset(widths, col) + 2;
    if at + widths[col] <= |line| then line[at..at + widths[col]] else ""
  }

  lemma SlotIn(before: string, slab: string, line: string, widths: seq<nat>, col: nat)
    requires col < |widths| && before + slab <= line
    requires |before| == Offset(widths, col) + 1 && |slab| == widths[col] + 3
    ensures Slot(line, widths, col) == slab[1..widths[col] + 1]
  {
    var lo, hi := |before| + 1, |before| + 1 + widths[col];
    assert line[lo..hi] == (before + slab)[lo..hi] == slab[1..widths[col] + 1];
  }

  lemma {:induction false} SlotShowsSegment(wrapped: seq<seq<string>>, widths: seq<nat>, k: nat, col: nat)
    requires col < |widths| && RowConfined(wrapped, widths)
    ensures Slot(RowPrefix(wrapped, widths, k, |widths|), widths, col) == Padded(Segment(wrapped[col], k), widths[col])
  {
    RowPrefixLength(wrapped, widths, k, col);
    RowKeepsPrefix(wrapped, widths, k, col + 1, |widths|);
    SlabLength(wrapped[col], widths[col], k);
    SlotIn(RowPrefix(wrapped, widths, k, col), Slab(wrapped[col], widths[col], k),
      RowPrefix(wrapped, widths, k, |widths|), widths, col);
  }

  /** What the first `h` lines of a row show in a column, top to bottom. */
  function ColumnText(wrapped: seq<seq<string>>, widths: seq<nat>, col: nat, h: nat): string
    requires col < |widths| == |wrapped|
  {
    if h == 0 then ""
    else
      ColumnText(wrapped, widths, col, h - 1)
      + Slot(RowPrefix(wrapped, widths, h - 1, |widths|), widths, col)
  }

  lemma PaddingIsSpace(seg: string, width: nat)
    ensures Filter(Padded(seg, width), NotSpace) == Filter(seg, NotSpace)
  {
    var pad := Repeat(' ', if |seg| < width then width - |seg| else 0);
    FilterNone(pad, NotSpace);
    FilterAppend(seg, pad, NotSpace);
  }

  /** The first `h` segments of a cell, one after the other. */
  function SegmentsTo(lines: seq<string>, h: nat): string {
    if h == 0 then "" else SegmentsTo(lines, h - 1) + Segment(lines, h - 1)
  }

  lemma {:induction false} SegmentsAreLines(lines: seq<string>, h: nat)
    ensures SegmentsTo(lines, h) == Concat(if h <= |lines| then lines[..h] else lines)
  {
    if h > 0 {
      SegmentsAreLines(lines, h - 1);
      if h <= |lines| {
        assert lines[..h][..h - 1] == lines[..h - 1];
      } else {
        assert lines[..|lines|] == lines;
      }
    }
  }

  lemma FilterSameTail(a: string, b: string, x: string, y: string)
    requires Filter(a, NotSpace) == Filter(b, NotSpace) && Filter(x, NotSpace) == Filter(y, NotSpace)
    ensures Filter(a + x, NotSpace) == Filter(b + y, NotSpace)
  {
    FilterAppend(a, x, NotSpace);
    FilterAppend(b, y, NotSpace);
  }

  lemma AllSegments(lines: seq<string>, h: nat)
    requires |lines| <= h
    ensures SegmentsTo(lines, h) == Concat(lines)
  {
    SegmentsAreLines(lines, h);
    assert lines[..|lines|] == lines;
  }

  lemma {:induction false} SlotText(wrapped: seq<seq<string>>, widths: seq<nat>, k: nat, col: nat)
    requires col < |widths| && RowConfined(wrapped, widths)
    ensures Filter(Slot(RowPrefix(wrapped, widths, k, |widths|), widths, col), NotSpace)
         == Filter(Segment(wrapped[col], k), NotSpace)
  {
    SlotShowsSegment(wrapped, widths, k, col);
    PaddingIsSpace(Segment(wrapped[col], k), widths[col]);
  }

  lemma {:induction false} ColumnShowsSegments(wrapped: seq<seq<string>>, widths: seq<nat>, col: nat, h: nat)
    requires col < |widths| && RowConfined(wrapped, widths)
    ensures Filter(ColumnText(wrapped, widths, col, h), NotSpace) == Filter(SegmentsTo(wrapped[col], h), NotSpace)
  {
    hide Slot, Segment, RowPrefix, Filter;
    if h > 0 {
      ColumnShowsSegments(wrapped, widths, col, h - 1);
      SlotText(wrapped, widths, h - 1, col);
      FilterSameTail(ColumnText(wrapped, widths, col, h - 1), SegmentsTo(wrapped[col], h - 1),
        Slot(RowPrefix(wrapped, widths, h - 1, |widths|), widths, col), Segment(wrapped[col], h - 1));
    }
  }

  lemma {:induction false} HeightCovers(wrapped: seq<seq<string>>, col: nat, n: nat)
    requires col < n <= |wrapped|
    ensures |wrapped[col]| <= Height(wrapped, n)
  {
    if col < n - 1 {
      HeightCovers(wrapped, col, n - 1);
    }
  }

  lemma WrappedCellSpelled(cell: string, width: nat)
    requires width == 0 ==> cell == ""
    ensures Filter(Concat(WrapLines(cell, width)), NotSpace) == Filter(cell, NotSpace)
  {
    if width > 0 {
      WrapKeepsText(cell, width);
    } else {
      ConcatOne(cell);
    }
  }

  lemma {:induction false} ColumnShowsLines(wrapped: seq<seq<string>>, widths: seq<nat>, col: nat)
    requires col < |widths| && RowConfined(wrapped, widths)
    ensures Filter(ColumnText(wrapped, widths, col, Height(wrapped, |wrapped|)), NotSpace)
         == Filter(Concat(wrapped[col]), NotSpace)
  {
    var h := Height(wrapped, |wrapped|);
    ColumnShowsSegments(wrapped, widths, col, h);
    HeightCovers(wrapped, col, |wrapped|);
    AllSegments(wrapped[col], h);
  }

  /** Reading a column of a drawn row from top to bottom gives the whole text of its cell. */
  lemma {:induction false} RowShowsCell(cells: seq<string>, widths: seq<nat>, col: nat)
    requires col < |widths| && RowConfined(WrappedRow(cells, widths), widths)
    requires widths[col] == 0 ==> CellAt(cells, col) == ""
    ensures var wrapped := WrappedRow(cells, widths);
      Filter(ColumnText(wrapped, widths, col, Height(wrapped, |wrapped|)), NotSpace)
      == Filter(CellAt(cells, col), NotSpace)
  {
    hide WrapLines;
    ColumnShowsLines(WrappedRow(cells, widths), widths, col);
    WrappedAt(cells, widths, |widths|, col);
    WrappedCellSpelled(CellAt(cells, col), widths[col]);
  }

  lemma EmptyColumnsShowNothing(headers: seq<string>, rows: seq<seq<string>>, maxWidth: int, r: nat, col: nat)
    requires r < |rows| && col < |headers| && ColumnWidths(headers, rows, maxWidth)[col] == 0
    ensures CellAt(rows[r], col) == "" && CellAt(headers, col) == ""
  {
    NaturalWidthIsLeast(headers, rows, col);
    ZeroWidthIsEmpty(headers, rows, maxWidth, col);
  }

  /** Nothing in a table is cut off: every cell can be read in full from its row's lines. */
  lemma {:induction false} TableShowsCells(headers: seq<string>, rows: seq<seq<string>>, maxWidth: int, r: nat,
      col: nat)
    requires r < |rows| && col < |headers|
    ensures var ws := ColumnWidths(headers, rows, maxWidth);
      var wrapped := WrappedRow(rows[r], ws);
      Filter(ColumnText(wrapped, ws, col, Height(wrapped, |wrapped|)), NotSpace)
      == Filter(CellAt(rows[r], col), NotSpace)
  {
    hide WrapLines;
    var ws := ColumnWidths(headers, rows, maxWidth);
    CellsConfined(headers, rows, maxWidth);
    if ws[col] == 0 {
      EmptyColumnsShowNothing(headers, rows, maxWidth, r, col);
    }
    RowShowsCell(rows[r], ws, col);
  }

  // ---------- Line breaks inside cells ----------

  ghost predicate BreaksIn(lines: seq<string>) {
    exists k :: 0 <= k < |lines| && '\n' in lines[k]
  }

  /** The row has a cell with a line break that is short enough to be shown as it is. */
  ghost predicate RawBreak(cells: seq<string>, widths: seq<nat>) {
    exists i :: 0 <= i < |widths| && '\n' in CellAt(cells, i) && |CellAt(cells, i)| <= widths[i]
  }

  lemma {:induction false} JoinHasNoBreak(words: seq<string>)
    requires AllWords(words)
    ensures '\n' !in Join(words)
  {
    if words != [] {
      var init, w := words[..|words| - 1], words[|words| - 1];
      assert AllWords(init);
      JoinHasNoBreak(init);
      assert forall i :: 0 <= i < |w| ==> w[i] != '\n';
    }
  }

  lemma {:induction false} LinesHaveNoBreak(lines: seq<seq<Item>>)
    requires AllWords(Texts(Concat(lines)))
    ensures !BreaksIn(RenderAll(lines))
  {
    if lines != [] {
      var init, line := lines[..|lines| - 1], lines[|lines| - 1];
      TextsAppend(Concat(init), line);
      AllWordsAppend(Texts(Concat(init)), Texts(line));
      LinesHaveNoBreak(init);
      JoinHasNoBreak(Texts(line));
    }
  }

  lemma LongTextHasNoBreak(cell: string, width: nat)
    requires 0 < width < |cell|
    ensures !BreaksIn(WrapLines(cell, width))
  {
    WrapIsGreedy(cell, width);
    if Fields(cell) != [] {
      FieldsAreWords(cell);
      PiecesAreWords(Fields(cell), width);
      LinesHaveNoBreak(Greedy(ItemsOf(Fields(cell), width), width));
    }
  }

  /** Wrapping replaces line breaks by spaces, but a cell that fits keeps them. */
  lemma CellBreaksExactly(cell: string, width: nat)
    requires width == 0 ==> cell == ""
    ensures BreaksIn(WrapLines(cell, width)) <==> '\n' in cell && |cell| <= width
  {
    if |cell| <= width {
      assert WrapLines(cell, width) == [cell];
      if '\n' in cell {
        assert '\n' in WrapLines(cell, width)[0];
      }
    } else {
      LongTextHasNoBreak(cell, width);
    }
  }

  lemma SlabBreaks(lines: seq<string>, width: nat, k: nat)
    ensures '\n' in Slab(lines, width, k) <==> '\n' in Segment(lines, k)
  {
    var seg := Segment(lines, k);
    assert '\n' !in Repeat(' ', if |seg| < width then width - |seg| else 0);
  }

  lemma {:induction false} RowPrefixBreaks(wrapped: seq<seq<string>>, widths: seq<nat>, k: nat, n: nat)
    requires n <= |widths| == |wrapped|
    ensures '\n' in RowPrefix(wrapped, widths, k, n)
       <==> exists i :: 0 <= i < n && '\n' in Segment(wrapped[i], k)
  {
    if n > 0 {
      hide Slab, Segment;
      RowPrefixBreaks(wrapped, widths, k, n - 1);
      SlabBreaks(wrapped[n - 1], widths[n - 1], k);
    }
  }

  lemma {:induction false} RowLinesBreak(wrapped: seq<seq<string>>, widths: seq<nat>, h: nat)
    requires |widths| == |wrapped|
    ensures BreaksIn(RowLinesTo(wrapped, widths, h))
       <==> exists k: nat, i: nat :: k < h && i < |wrapped| && '\n' in Segment(wrapped[i], k)
  {
    if h > 0 {
      RowLinesBreak(wrapped, widths, h - 1);
      RowPrefixBreaks(wrapped, widths, h - 1, |widths|);
      BreaksInSnoc(RowLinesTo(wrapped, widths, h - 1), RowPrefix(wrapped, widths, h - 1, |widths|));
    }
  }

  lemma BreaksInSnoc(lines: seq<string>, line: string)
    ensures BreaksIn(lines + [line]) <==> BreaksIn(lines) || '\n' in line
  {
    var all := lines + [line];
    assert all[|lines|] == line;
    if BreaksIn(lines) {
      var k :| 0 <= k < |lines| && '\n' in lines[k];
      assert '\n' in all[k];
    }
  }

  lemma BreaksInAppend(a: seq<string>, b: seq<string>)
    ensures BreaksIn(a + b) <==> BreaksIn(a) || BreaksIn(b)
  {
    var all := a + b;
    if BreaksIn(a) {
      var k :| 0 <= k < |a| && '\n' in a[k];
      assert '\n' in all[k];
    }
    if BreaksIn(b) {
      var k :| 0 <= k < |b| && '\n' in b[k];
      assert '\n' in all[|a| + k];
    }
    if BreaksIn(all) {
      var k :| 0 <= k < |all| && '\n' in all[k];
      assert if k < |a| then '\n' in a[k] else '\n' in b[k - |a|];
    }
  }

  lemma RowBreaks(wrapped: seq<seq<string>>, widths: seq<nat>)
    requires |widths| == |wrapped|
    ensures BreaksIn(RowLines(wrapped, widths)) <==> exists i :: 0 <= i < |wrapped| && BreaksIn(wrapped[i])
  {
    var h := Height(wrapped, |wrapped|);
    RowLinesBreak(wrapped, widths, h);
    if i :| 0 <= i < |wrapped| && BreaksIn(wrapped[i]) {
      var k :| 0 <= k < |wrapped[i]| && '\n' in wrapped[i][k];
      HeightCovers(wrapped, i, |wrapped|);
      assert k < h && '\n' in Segment(wrapped[i], k);
    }
    if BreaksIn(RowLines(wrapped, widths)) {
      var k: nat, i: nat :| k < h && i < |wrapped| && '\n' in Segment(wrapped[i], k);
      assert '\n' in wrapped[i][k];
    }
  }

  lemma CellsBreakExactly(cells: seq<string>, widths: seq<nat>)
    requires EmptyWhereZero(cells, widths)
    ensures BreaksIn(RowLines(WrappedRow(cells, widths), widths)) <==> RawBreak(cells, widths)
  {
    hide WrapLines;
    RowBreaks(WrappedRow(cells, widths), widths);
    forall i | 0 <= i < |widths|
      ensures BreaksIn(WrappedRow(cells, widths)[i])
         <==> '\n' in CellAt(cells, i) && |CellAt(cells, i)| <= widths[i]
    {
      WrappedAt(cells, widths, |widths|, i);
      CellBreaksExactly(CellAt(cells, i), widths[i]);
    }
  }

  ghost predicate AnyRawBreak(rows: seq<seq<string>>, widths: seq<nat>) {
    exists r :: 0 <= r < |rows| && RawBreak(rows[r], widths)
  }

  lemma {:induction false} AnyRawBreakSnoc(rows: seq<seq<string>>, widths: seq<nat>)
    requires rows != []
    ensures AnyRawBreak(rows, widths)
       <==> AnyRawBreak(rows[..|rows| - 1], widths) || RawBreak(rows[|rows| - 1], widths)
  {
    hide RawBreak;
    var init := rows[..|rows| - 1];
    if AnyRawBreak(init, widths) {
      var r :| 0 <= r < |init| && RawBreak(init[r], widths);
      assert RawBreak(rows[r], widths);
    }
    if AnyRawBreak(rows, widths) {
      var r :| 0 <= r < |rows| && RawBreak(rows[r], widths);
      assert r < |init| ==> RawBreak(init[r], widths);
    }
  }

  lemma {:induction false} RowsBreakExactly(rows: seq<seq<string>>, widths: seq<nat>)
    requires forall r {:trigger rows[r]} :: 0 <= r < |rows| ==> EmptyWhereZero(rows[r], widths)
    ensures BreaksIn(AllRowLines(rows, widths)) <==> AnyRawBreak(rows, widths)
  {
    hide RawBreak, EmptyWhereZero, RowLines, WrappedRow, BreaksIn;
    if rows != [] {
      var init, last := rows[..|rows| - 1], rows[|rows| - 1];
      RowsBreakExactly(init, widths);
      CellsBreakExactly(last, widths);
      BreaksInAppend(AllRowLines(init, widths), RowLines(WrappedRow(last, widths), widths));
      AnyRawBreakSnoc(rows, widths);
    } else {
      NothingBreaks();
    }
  }

  lemma NothingBreaks()
    ensures !BreaksIn([])
  {
  }

  lemma {:induction false} BorderHasNoBreak(rule: Rule, widths: seq<nat>, n: nat)
    requires n <= |widths| && rule.left != '\n' && rule.sep != '\n'
    ensures '\n' !in BorderPrefix(rule, widths, n)
  {
    if n > 0 {
      BorderHasNoBreak(rule, widths, n - 1);
    }
  }

  /**
    Every emitted line is one line on the screen exactly when no cell that fits its
    column contains a line break; with one, the rectangle is broken there.
   */
  lemma {:induction false} TableBreaksExactly(headers: seq<string>, rows: seq<seq<string>>, maxWidth: int)
    ensures var ws := ColumnWidths(headers, rows, maxWidth);
      BreaksIn(TableLines(headers, rows, maxWidth))
      <==> RawBreak(headers, ws) || AnyRawBreak(rows, ws)
  {
    var ws := ColumnWidths(headers, rows, maxWidth);
    ZeroColumnsAreEmpty(headers, rows, maxWidth);
    CellsBreakExactly(headers, ws);
    RowsBreakExactly(rows, ws);
    BorderHasNoBreak(TOP, ws, |ws|);
    BorderHasNoBreak(MIDDLE, ws, |ws|);
    BorderHasNoBreak(BOTTOM, ws, |ws|);
    TableBreakParts(BorderOf(TOP, ws), RowLines(WrappedRow(headers, ws), ws), BorderOf(MIDDLE, ws),
      AllRowLines(rows, ws), BorderOf(BOTTOM, ws));
  }

  lemma TableBreakParts(top: string, head: seq<string>, mid: string, body: seq<string>, bot: string)
    requires '\n' !in top && '\n' !in mid && '\n' !in bot
    ensures BreaksIn([top] + head + [mid] + body + [bot]) <==> BreaksIn(head) || BreaksIn(body)
  {
    BreaksInSnoc([], top);
    assert [] + [top] == [top];
    BreaksInAppend([top], head);
    BreaksInSnoc([top] + head, mid);
    BreaksInAppend([top] + head + [mid], body);
    BreaksInSnoc([top] + head + [mid] + body, bot);
  }
}
