/**
  Drawing the bordered table, with colours off (`drawTable`, `writeWrappedRow`, `borderLine` in
  internal/render/table.go).
 */
module Table {
  import opened Sequences
  import opened Wrapping
  import opened Columns

  const VERTICAL: char := '\U{2502}'
  const HORIZONTAL: char := '\U{2500}'

  /** The three border characters of one horizontal rule: left end, junction, right end. */
  datatype Rule = Rule(left: char, sep: char, right: char)

  const TOP: Rule := Rule('\U{250C}', '\U{252C}', '\U{2510}')
  const MIDDLE: Rule := Rule('\U{251C}', '\U{253C}', '\U{2524}')
  const BOTTOM: Rule := Rule('\U{2514}', '\U{2534}', '\U{2518}')

  function CellAt(cells: seq<string>, col: nat): string {
    if col < |cells| then cells[col] else ""
  }

  /** The cells of a row, each wrapped to its column; missing cells are empty. */
  function WrappedTo(cells: seq<string>, widths: seq<nat>, n: nat): (wrapped: seq<seq<string>>)
    requires n <= |widths|
    ensures |wrapped| == n
  {
    if n == 0 then [] else WrappedTo(cells, widths, n - 1) + [WrapLines(CellAt(cells, n - 1), widths[n - 1])]
  }

  function WrappedRow(cells: seq<string>, widths: seq<nat>): (wrapped: seq<seq<string>>)
    ensures |wrapped| == |widths|
  {
    WrappedTo(cells, widths, |widths|)
  }

  /** What line `k` of a row shows of a wrapped cell. */
  function Segment(lines: seq<string>, k: nat): string {
    if k < |lines| then lines[k] else ""
  }

  function Padded(seg: string, width: nat): string {
    seg + Repeat(' ', if |seg| < width then width - |seg| else 0)
  }

  /** One column's part of a row line: a space, the padded segment, a space and the border. */
  function Slab(lines: seq<string>, width: nat, k: nat): string {
    " " + Padded(Segment(lines, k), width) + " " + [VERTICAL]
  }

  /** Line `k` of a row, up to and including the border after its first `n` columns. */
  function RowPrefix(wrapped: seq<seq<string>>, widths: seq<nat>, k: nat, n: nat): string
    requires n <= |widths| == |wrapped|
  {
    if n == 0 then [VERTICAL]
    else RowPrefix(wrapped, widths, k, n - 1) + Slab(wrapped[n - 1], widths[n - 1], k)
  }

  /** How many lines the first `n` cells of a row need; a row has at least one. */
  function Height(wrapped: seq<seq<string>>, n: nat): nat
    requires n <= |wrapped|
  {
    if n == 0 then 1
    else
      var h := Height(wrapped, n - 1);
      if |wrapped[n - 1]| > h then |wrapped[n - 1]| else h
  }

  function RowLinesTo(wrapped: seq<seq<string>>, widths: seq<nat>, h: nat): (lines: seq<string>)
    requires |widths| == |wrapped|
    ensures |lines| == h
  {
    if h == 0 then []
    else RowLinesTo(wrapped, widths, h - 1) + [RowPrefix(wrapped, widths, h - 1, |widths|)]
  }

  function RowLines(wrapped: seq<seq<string>>, widths: seq<nat>): seq<string>
    requires |widths| == |wrapped|
  {
    RowLinesTo(wrapped, widths, Height(wrapped, |wrapped|))
  }

  function AllRowLines(rows: seq<seq<string>>, widths: seq<nat>): seq<string> {
    if rows == [] then []
    else AllRowLines(rows[..|rows| - 1], widths) + RowLines(WrappedRow(rows[|rows| - 1], widths), widths)
  }

  function BorderPrefix(rule: Rule, widths: seq<nat>, n: nat): string
    requires n <= |widths|
  {
    if n == 0 then [rule.left]
    else
      BorderPrefix(rule, widths, n - 1)
      + (Repeat(HORIZONTAL, widths[n - 1] + 2) + if n < |widths| then [rule.sep] else [])
  }

  function BorderOf(rule: Rule, widths: seq<nat>): string {
    BorderPrefix(rule, widths, |widths|) + [rule.right]
  }

  function TableLines(headers: seq<string>, rows: seq<seq<string>>, maxWidth: int): seq<string> {
    var ws := ColumnWidths(headers, rows, maxWidth);
    var head := RowLines(WrappedRow(headers, ws), ws);
    [BorderOf(TOP, ws)] + head + [BorderOf(MIDDLE, ws)] + AllRowLines(rows, ws) + [BorderOf(BOTTOM, ws)]
  }

  method BorderLine(rule: Rule, widths: seq<nat>) returns (b: string)
    ensures b == BorderOf(rule, widths)
  {
    b := [rule.left];
    for i := 0 to |widths|
      invariant b == BorderPrefix(rule, widths, i)
    {
      var dashes := Repeat(HORIZONTAL, widths[i] + 2);
      BorderStep(rule, widths, i + 1);
      b := b + dashes;
      if i < |widths| - 1 {
        b := b + [rule.sep];
      }
    }
    b := b + [rule.right];
  }

  lemma BorderStep(rule: Rule, widths: seq<nat>, n: nat)
    requires 0 < n <= |widths|
    ensures BorderPrefix(rule, widths, n)
         == if n < |widths| then BorderPrefix(rule, widths, n - 1) + Repeat(HORIZONTAL, widths[n - 1] + 2) + [rule.sep]
            else BorderPrefix(rule, widths, n - 1) + Repeat(HORIZONTAL, widths[n - 1] + 2)
  {
  }

  /** The first loop of `writeWrappedRow`: every cell wrapped, and the height of the row. */
  method WrapCells(cells: seq<string>, widths: seq<nat>) returns (wrapped: seq<seq<string>>, height: nat)
    ensures wrapped == WrappedRow(cells, widths)
    ensures height == Height(wrapped, |wrapped|)
  {
    wrapped := [];
    height := 1;
    for i := 0 to |widths|
      invariant wrapped == WrappedTo(cells, widths, i)
      invariant height == Height(wrapped, i)
    {
      var val := "";
      if i < |cells| {
        val := cells[i];
      }
      var lines := WrapCell(val, widths[i]);
      HeightSnoc(wrapped, lines, i);
      wrapped := wrapped + [lines];
      if |lines| > height {
        height := |lines|;
      }
    }
  }

  lemma {:induction false} HeightSnoc(wrapped: seq<seq<string>>, lines: seq<string>, n: nat)
    requires n <= |wrapped|
    ensures Height(wrapped + [lines], n) == Height(wrapped, n)
  {
    if n > 0 {
      HeightSnoc(wrapped, lines, n - 1);
    }
  }

  method RowLine(wrapped: seq<seq<string>>, widths: seq<nat>, line: nat) returns (b: string)
    requires |wrapped| == |widths|
    ensures b == RowPrefix(wrapped, widths, line, |widths|)
  {
    b := [VERTICAL];
    for i := 0 to |widths|
      invariant b == RowPrefix(wrapped, widths, line, i)
    {
      var cw := widths[i];
      var seg := "";
      if line < |wrapped[i]| {
        seg := wrapped[i][line];
      }
      SlabOf(b, wrapped[i], cw, line);
      var pad: int := cw - |seg|;
      if pad < 0 {
        pad := 0;
      }
      b := b + " ";
      b := b + seg;
      b := b + Repeat(' ', pad);
      b := b + " ";
      b := b + [VERTICAL];
    }
  }

  lemma SlabOf(b: string, lines: seq<string>, width: nat, k: nat)
    ensures var seg := Segment(lines, k);
      b + Slab(lines, width, k)
      == b + " " + seg + Repeat(' ', if |seg| < width then width - |seg| else 0) + " " + [VERTICAL]
  {
  }

  method WriteWrappedRow(cells: seq<string>, widths: seq<nat>) returns (lines: seq<string>)
    ensures lines == RowLines(WrappedRow(cells, widths), widths)
  {
    var wrapped, height := WrapCells(cells, widths);
    lines := [];
    for line := 0 to height
      invariant lines == RowLinesTo(wrapped, widths, line)
    {
      var b := RowLine(wrapped, widths, line);
      lines := lines + [b];
    }
  }

  method WriteRows(rows: seq<seq<string>>, widths: seq<nat>) returns (lines: seq<string>)
    ensures lines == AllRowLines(rows, widths)
  {
    lines := [];
    for r := 0 to |rows|
      invariant lines == AllRowLines(rows[..r], widths)
    {
      assert rows[..r + 1][..r] == rows[..r];
      var drawn := WriteWrappedRow(rows[r], widths);
      lines := lines + drawn;
    }
    assert rows[..|rows|] == rows;
  }

  method DrawTable(headers: seq<string>, rows: seq<seq<string>>, maxWidth: int) returns (lines: seq<string>)
    ensures lines == TableLines(headers, rows, maxWidth)
  {
    var computed := ComputeWidths(headers, rows, maxWidth);
    var widths: seq<nat> := computed[..];
    var top := BorderLine(TOP, widths);
    var mid := BorderLine(MIDDLE, widths);
    var bot := BorderLine(BOTTOM, widths);
    var head := WriteWrappedRow(headers, widths);
    var body := WriteRows(rows, widths);
    lines := [top] + head + [mid] + body + [bot];
  }
}
