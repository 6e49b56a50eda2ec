/**
  Column widths: natural widths, floors, and shrinking from the right (`computeWidths` in
  internal/render/table.go).
 */
module Columns {
  /** The widest of a column's header and cells. */
  function NaturalWidth(headers: seq<string>, rows: seq<seq<string>>, col: nat): nat
    requires col < |headers|
  {
    if rows == [] then |headers[col]|
    else
      var w := NaturalWidth(headers, rows[..|rows| - 1], col);
      var r := rows[|rows| - 1];
      if col < |r| && |r[col]| > w then |r[col]| else w
  }

  function NaturalUpTo(headers: seq<string>, rows: seq<seq<string>>, n: nat): (ws: seq<nat>)
    requires n <= |headers|
    ensures |ws| == n
    ensures forall i {:trigger ws[i]} :: 0 <= i < n ==> ws[i] == NaturalWidth(headers, rows, i)
  {
    if n == 0 then [] else NaturalUpTo(headers, rows, n - 1) + [NaturalWidth(headers, rows, n - 1)]
  }

  function NaturalWidths(headers: seq<string>, rows: seq<seq<string>>): (ws: seq<nat>)
    ensures |ws| == |headers|
    ensures forall i {:trigger ws[i]} :: 0 <= i < |headers| ==> ws[i] == NaturalWidth(headers, rows, i)
  {
    NaturalUpTo(headers, rows, |headers|)
  }

  /** A column is never shrunk below this: its header, and at least 8. */
  function MinColWidth(header: string): nat {
    if |header| < 8 then 8 else |header|
  }

  function Floors(headers: seq<string>): (fs: seq<nat>)
    ensures |fs| == |headers|
    ensures forall i {:trigger fs[i]} :: 0 <= i < |headers| ==> fs[i] == MinColWidth(headers[i])
  {
    if headers == [] then []
    else Floors(headers[..|headers| - 1]) + [MinColWidth(headers[|headers| - 1])]
  }

  function Min(a: int, b: int): int {
    if a <= b then a else b
  }

  function Max(a: int, b: int): int {
    if a >= b then a else b
  }

  /** Each column at its floor, or at its natural width if that is smaller. */
  function Floored(natural: seq<nat>, floors: seq<nat>): (ws: seq<nat>)
    requires |natural| == |floors|
    ensures |ws| == |natural|
    ensures forall i {:trigger ws[i]} :: 0 <= i < |natural| ==> ws[i] == Min(natural[i], floors[i])
  {
    if natural == [] then []
    else
      var n := |natural| - 1;
      Floored(natural[..n], floors[..n]) + [Min(natural[n], floors[n])]
  }

  /** What the columns from `col` on can give up together. */
  function RoomFrom(natural: seq<nat>, floors: seq<nat>, col: nat): (r: nat)
    requires |natural| == |floors| && col <= |natural|
    decreases |natural| - col
  {
    if col == |natural| then 0
    else natural[col] - Min(natural[col], floors[col]) + RoomFrom(natural, floors, col + 1)
  }

  /** The width of one column once the columns to its right have taken what they can of the excess. */
  function ShrunkWidth(natural: seq<nat>, floors: seq<nat>, excess: nat, col: nat): (w: nat)
    requires |natural| == |floors| && col < |natural|
    ensures Min(natural[col], floors[col]) <= w <= natural[col]
  {
    var room := natural[col] - Min(natural[col], floors[col]);
    natural[col] - Min(room, Max(0, excess - RoomFrom(natural, floors, col + 1)))
  }

  /** The first `col` columns at their natural width, those up to `n` shrunk. */
  function PartlyShrunk(natural: seq<nat>, floors: seq<nat>, excess: nat, col: nat, n: nat): (ws: seq<nat>)
    requires |natural| == |floors| && n <= |natural|
    ensures |ws| == n
    ensures forall i {:trigger ws[i]} :: 0 <= i < n ==>
      ws[i] == if i < col then natural[i] else ShrunkWidth(natural, floors, excess, i)
  {
    if n == 0 then []
    else
      PartlyShrunk(natural, floors, excess, col, n - 1)
      + [if n - 1 < col then natural[n - 1] else ShrunkWidth(natural, floors, excess, n - 1)]
  }

  function ShrunkWidths(natural: seq<nat>, floors: seq<nat>, excess: nat): (ws: seq<nat>)
    requires |natural| == |floors|
    ensures |ws| == |natural|
    ensures forall i {:trigger ws[i]} :: 0 <= i < |natural| ==> ws[i] == ShrunkWidth(natural, floors, excess, i)
  {
    PartlyShrunk(natural, floors, excess, 0, |natural|)
  }

  /** The sum of the first `n` widths. */
  function SumTo(ws: seq<int>, n: nat): int
    requires n <= |ws|
  {
    if n == 0 then 0 else SumTo(ws, n - 1) + ws[n - 1]
  }

  function Sum(ws: seq<int>): int {
    SumTo(ws, |ws|)
  }

  /** What is left for cell text once the borders and padding of `cols` columns are taken off. */
  function Available(maxWidth: int, cols: nat): int {
    maxWidth - (1 + 3 * cols)
  }

  function ColumnWidths(headers: seq<string>, rows: seq<seq<string>>, maxWidth: int): (ws: seq<nat>)
    ensures |ws| == |headers|
  {
    var natural := NaturalWidths(headers, rows);
    var avail := Available(maxWidth, |headers|);
    if avail <= 0 || Sum(natural) <= avail then natural
    else ShrunkWidths(natural, Floors(headers), Sum(natural) - avail)
  }

  method Total(xs: array<int>) returns (s: int)
    ensures s == Sum(xs[..])
  {
    s := 0;
    for i := 0 to xs.Length
      invariant s == SumTo(xs[..], i)
    {
      s := s + xs[i];
    }
  }

  method MeasureColumns(headers: seq<string>, rows: seq<seq<string>>) returns (widths: array<int>)
    ensures fresh(widths)
    ensures widths[..] == NaturalWidths(headers, rows)
  {
    var cols := |headers|;
    widths := new int[cols];
    for i := 0 to cols
      invariant forall j :: 0 <= j < i ==> widths[j] == |headers[j]|
    {
      widths[i] := |headers[i]|;
    }
    for k := 0 to |rows|
      invariant forall j :: 0 <= j < cols ==> widths[j] == NaturalWidth(headers, rows[..k], j)
    {
      var r := rows[k];
      assert rows[..k + 1][..k] == rows[..k];
      var i := 0;
      while i < cols && i < |r|
        invariant 0 <= i <= cols && i <= |r|
        invariant forall j :: 0 <= j < i ==> widths[j] == NaturalWidth(headers, rows[..k + 1], j)
        invariant forall j :: i <= j < cols ==> widths[j] == NaturalWidth(headers, rows[..k], j)
      {
        if |r[i]| > widths[i] {
          widths[i] := |r[i]|;
        }
        i := i + 1;
      }
    }
    assert rows[..|rows|] == rows;
  }

  ghost predicate IsShrunk(ws: seq<int>, natural: seq<nat>, floors: seq<nat>, excess: nat)
    requires |natural| == |floors|
  {
    && |ws| == |natural|
    && forall i {:trigger ws[i]} :: 0 <= i < |ws| ==> ws[i] == ShrunkWidth(natural, floors, excess, i)
  }

  lemma ShrunkIsColumnWidths(ws: seq<int>, headers: seq<string>, rows: seq<seq<string>>, maxWidth: int)
    requires 0 < Available(maxWidth, |headers|) < Sum(NaturalWidths(headers, rows))
    requires IsShrunk(ws, NaturalWidths(headers, rows), Floors(headers),
               Sum(NaturalWidths(headers, rows)) - Available(maxWidth, |headers|))
    ensures ws == ColumnWidths(headers, rows, maxWidth)
  {
  }

  /** The shrinking loop of `computeWidths`. */
  method ShrinkFromRight(widths: array<int>, floors: array<int>, avail: int, ghost natural: seq<nat>)
    requires widths[..] == natural && floors.Length == |natural| && widths != floors
    requires forall i :: 0 <= i < floors.Length ==> floors[i] >= 0
    requires avail < Sum(natural)
    modifies widths
    ensures IsShrunk(widths[..], natural, floors[..], Sum(natural) - avail)
  {
    hide ShrunkWidth, RoomFrom, SumTo;
    ghost var fs: seq<nat>, excess := floors[..], Sum(natural) - avail;
    var col := widths.Length - 1;
    while col >= 0
      invariant -1 <= col < widths.Length
      invariant forall i {:trigger widths[i]} :: 0 <= i < widths.Length ==>
        widths[i] == if i <= col then natural[i] else ShrunkWidth(natural, fs, excess, i)
      decreases col
    {
      PartlyShrunkSum(natural, fs, excess, col + 1, widths[..]);
      var total := Total(widths);
      if total <= avail {
        RoomCoversExcess(natural, fs, excess, col + 1);
        return;
      }
      var room := widths[col] - floors[col];
      if room > 0 {
        var shrinkBy := total - avail;
        if shrinkBy > room {
          shrinkBy := room;
        }
        widths[col] := widths[col] - shrinkBy;
      }
      ShrinkOne(natural, fs, excess, col);
      col := col - 1;
    }
  }

  lemma ShrinkOne(natural: seq<nat>, floors: seq<nat>, excess: nat, col: nat)
    requires |natural| == |floors| && col < |natural| && RoomFrom(natural, floors, col + 1) < excess
    ensures ShrunkWidth(natural, floors, excess, col)
         == if natural[col] > floors[col]
            then natural[col] - Min(natural[col] - floors[col], excess - RoomFrom(natural, floors, col + 1))
            else natural[col]
  {
  }

  method ColumnFloors(headers: seq<string>) returns (floors: array<int>)
    ensures fresh(floors)
    ensures floors[..] == Floors(headers)
  {
    floors := new int[|headers|];
    for i := 0 to |headers|
      invariant forall j {:trigger floors[j]} :: 0 <= j < i ==> floors[j] == MinColWidth(headers[j])
    {
      floors[i] := MinColWidth(headers[i]);
    }
  }

  method ComputeWidths(headers: seq<string>, rows: seq<seq<string>>, maxWidth: int) returns (widths: array<int>)
    ensures fresh(widths)
    ensures widths[..] == ColumnWidths(headers, rows, maxWidth)
  {
    var cols := |headers|;
    widths := MeasureColumns(headers, rows);
    var overhead := 1 + 3 * cols;
    var avail := maxWidth - overhead;
    if avail <= 0 {
      return;
    }
    var total := Total(widths);
    if total <= avail {
      return;
    }
    var floors := ColumnFloors(headers);
    ShrinkFromRight(widths, floors, avail, NaturalWidths(headers, rows));
    ShrunkIsColumnWidths(widths[..], headers, rows, maxWidth);
  }

  /** Two width lists that differ in one column differ by as much in their sums. */
  lemma {:induction false} SumChange(a: seq<int>, b: seq<int>, col: nat, n: nat)
    requires |a| == |b| && n <= |a| && col < |a|
    requires forall i :: 0 <= i < |a| && i != col ==> a[i] == b[i]
    ensures SumTo(a, n) - SumTo(b, n) == if col < n then a[col] - b[col] else 0
  {
    if n > 0 {
      SumChange(a, b, col, n - 1);
    }
  }

  lemma {:induction false} SumSame(a: seq<int>, b: seq<int>, n: nat)
    requires |a| == |b| && n <= |a|
    requires forall i :: 0 <= i < n ==> a[i] == b[i]
    ensures SumTo(a, n) == SumTo(b, n)
  {
    if n > 0 {
      SumSame(a, b, n - 1);
    }
  }

  /** After the columns from `col` on have been visited, the total has dropped by what they could give. */
  lemma {:induction false} PartlyShrunkSum(natural: seq<nat>, floors: seq<nat>, excess: nat, col: nat, ws: seq<int>)
    requires |natural| == |floors| == |ws| && col <= |natural|
    requires forall i {:trigger ws[i]} :: 0 <= i < |ws| ==>
      ws[i] == if i < col then natural[i] else ShrunkWidth(natural, floors, excess, i)
    ensures Sum(ws) == Sum(natural) - Min(excess, RoomFrom(natural, floors, col))
    decreases |natural| - col
  {
    if col == |natural| {
      SumSame(ws, natural, |ws|);
    } else {
      var before := ws[col := natural[col]];
      PartlyShrunkSum(natural, floors, excess, col + 1, before);
      SumChange(ws, before, col, |ws|);
    }
  }

  /** Once the excess is gone the remaining columns keep their natural width. */
  lemma RoomCoversExcess(natural: seq<nat>, floors: seq<nat>, excess: nat, col: nat)
    requires |natural| == |floors| && col <= |natural|
    requires excess <= RoomFrom(natural, floors, col)
    ensures forall i {:trigger ShrunkWidth(natural, floors, excess, i)} :: 0 <= i < col ==>
      ShrunkWidth(natural, floors, excess, i) == natural[i]
  {
    forall i | 0 <= i < col
      ensures ShrunkWidth(natural, floors, excess, i) == natural[i]
    {
      RoomFromAntitone(natural, floors, i + 1, col);
    }
  }

  // ---------- What the widths are ----------

  /** The natural width is the least that holds the header and every cell. */
  lemma {:induction false} NaturalWidthIsLeast(headers: seq<string>, rows: seq<seq<string>>, col: nat)
    requires col < |headers|
    ensures |headers[col]| <= NaturalWidth(headers, rows, col)
    ensures forall r :: 0 <= r < |rows| && col < |rows[r]| ==> |rows[r][col]| <= NaturalWidth(headers, rows, col)
    ensures || NaturalWidth(headers, rows, col) == |headers[col]|
            || exists r :: 0 <= r < |rows| && col < |rows[r]| && |rows[r][col]| == NaturalWidth(headers, rows, col)
  {
    if rows != [] {
      var init := rows[..|rows| - 1];
      NaturalWidthIsLeast(headers, init, col);
      forall r | 0 <= r < |rows| && col < |rows[r]|
        ensures |rows[r][col]| <= NaturalWidth(headers, rows, col)
      {
        assert r < |init| ==> rows[r] == init[r];
      }
      if NaturalWidth(headers, init, col) != |headers[col]| {
        var r :| 0 <= r < |init| && col < |init[r]| && |init[r][col]| == NaturalWidth(headers, init, col);
        assert rows[r] == init[r];
      }
    }
  }

  /** The columns can give up exactly what separates them from their floors. */
  lemma {:induction false} FlooredSum(natural: seq<nat>, floors: seq<nat>, col: nat, ws: seq<int>)
    requires |natural| == |floors| == |ws| && col <= |natural|
    requires forall i {:trigger ws[i]} :: 0 <= i < |ws| ==>
      ws[i] == if i < col then natural[i] else Min(natural[i], floors[i])
    ensures Sum(ws) == Sum(natural) - RoomFrom(natural, floors, col)
    decreases |natural| - col
  {
    if col == |natural| {
      SumSame(ws, natural, |ws|);
    } else {
      var before := ws[col := natural[col]];
      FlooredSum(natural, floors, col + 1, before);
      SumChange(ws, before, col, |ws|);
    }
  }

  ghost predicate PivotAt(ws: seq<nat>, natural: seq<nat>, floors: seq<nat>, p: nat)
    requires |ws| == |natural| == |floors|
  {
    && p < |ws|
    && (forall i {:trigger ws[i]} :: 0 <= i < p ==> ws[i] == natural[i])
    && Min(natural[p], floors[p]) <= ws[p] <= natural[p]
    && (forall i {:trigger ws[i]} :: p < i < |ws| ==> ws[i] == Min(natural[i], floors[i]))
  }

  /**
    The documented allocation: the total is exactly the room there is (or the least
    possible total, if that is more), columns left of a pivot are untouched and
    columns right of it are fully shrunk.
   */
  ghost predicate Allocates(ws: seq<nat>, natural: seq<nat>, floors: seq<nat>, avail: int)
    requires |natural| == |floors|
  {
    && |ws| == |natural|
    && Sum(ws) == Max(avail, Sum(Floored(natural, floors)))
    && exists p :: PivotAt(ws, natural, floors, p)
  }

  /**
    When the natural widths overflow, `computeWidths` gives the documented allocation and
    nothing else would be one.
   */
  lemma {:induction false} WidthsExact(headers: seq<string>, rows: seq<seq<string>>, maxWidth: int, ws: seq<nat>)
    requires var natural := NaturalWidths(headers, rows);
      var avail := Available(maxWidth, |headers|);
      0 < avail < Sum(natural)
    ensures Allocates(ws, NaturalWidths(headers, rows), Floors(headers), Available(maxWidth, |headers|))
       <==> ws == ColumnWidths(headers, rows, maxWidth)
  {
    var natural, floors := NaturalWidths(headers, rows), Floors(headers);
    var avail := Available(maxWidth, |headers|);
    var widths := ColumnWidths(headers, rows, maxWidth);
    assert Allocates(widths, natural, floors, avail) by {
      ShrinkingAllocates(natural, floors, avail);
    }
    if Allocates(ws, natural, floors, avail) {
      AllocationUnique(ws, widths, natural, floors, avail);
    }
  }

  lemma {:induction false} ShrinkingAllocates(natural: seq<nat>, floors: seq<nat>, avail: int)
    requires |natural| == |floors| && 0 < avail < Sum(natural)
    ensures Allocates(ShrunkWidths(natural, floors, Sum(natural) - avail), natural, floors, avail)
  {
    assert natural != [];
    var p := FindPivot(natural, floors, Sum(natural) - avail, |natural| - 1);
    PivotShape(natural, floors, Sum(natural) - avail, p);
    ShrunkTotal(natural, floors, Sum(natural) - avail);
    PivotAllocates(ShrunkWidths(natural, floors, Sum(natural) - avail), natural, floors, avail, p);
  }

  lemma PivotAllocates(ws: seq<nat>, natural: seq<nat>, floors: seq<nat>, avail: int, p: nat)
    requires |ws| == |natural| == |floors|
    requires Sum(ws) == Max(avail, Sum(Floored(natural, floors))) && PivotAt(ws, natural, floors, p)
    ensures Allocates(ws, natural, floors, avail)
  {
  }

  lemma {:induction false} ShrunkTotal(natural: seq<nat>, floors: seq<nat>, excess: nat)
    requires |natural| == |floors|
    ensures Sum(ShrunkWidths(natural, floors, excess))
         == Max(Sum(natural) - excess, Sum(Floored(natural, floors)))
  {
    PartlyShrunkSum(natural, floors, excess, 0, ShrunkWidths(natural, floors, excess));
    FlooredSum(natural, floors, 0, Floored(natural, floors));
  }

  /** The first column whose right neighbours alone cannot absorb more than the excess. */
  lemma {:induction false} FindPivot(natural: seq<nat>, floors: seq<nat>, excess: nat, from: nat) returns (p: nat)
    requires |natural| == |floors| && from < |natural|
    requires RoomFrom(natural, floors, from + 1) <= excess
    ensures p < |natural| && RoomFrom(natural, floors, p + 1) <= excess
    ensures p == 0 || excess <= RoomFrom(natural, floors, p)
  {
    if from == 0 || excess <= RoomFrom(natural, floors, from) {
      p := from;
    } else {
      p := FindPivot(natural, floors, excess, from - 1);
    }
  }

  lemma {:induction false} RoomFromAntitone(natural: seq<nat>, floors: seq<nat>, i: nat, j: nat)
    requires |natural| == |floors| && i <= j <= |natural|
    ensures RoomFrom(natural, floors, i) >= RoomFrom(natural, floors, j)
    decreases j - i
  {
    if i < j {
      RoomFromAntitone(natural, floors, i + 1, j);
    }
  }

  lemma PivotShape(natural: seq<nat>, floors: seq<nat>, excess: nat, p: nat)
    requires |natural| == |floors| && p < |natural|
    requires RoomFrom(natural, floors, p + 1) <= excess
    requires p == 0 || excess <= RoomFrom(natural, floors, p)
    ensures PivotAt(ShrunkWidths(natural, floors, excess), natural, floors, p)
  {
    forall i | 0 <= i < p
      ensures ShrunkWidth(natural, floors, excess, i) == natural[i]
    {
      RoomFromAntitone(natural, floors, i + 1, p);
    }
    forall i | p < i < |natural|
      ensures ShrunkWidth(natural, floors, excess, i) == Min(natural[i], floors[i])
    {
      RoomFromAntitone(natural, floors, p + 1, i);
    }
  }

  /** A list that is nowhere larger has no larger sum, and the same sum only if it is the same. */
  lemma {:induction false} SumMonotone(a: seq<nat>, b: seq<nat>, n: nat)
    requires |a| == |b| && n <= |a| && forall i :: 0 <= i < n ==> a[i] <= b[i]
    ensures SumTo(a, n) <= SumTo(b, n)
    ensures SumTo(a, n) == SumTo(b, n) ==> forall i :: 0 <= i < n ==> a[i] == b[i]
  {
    if n > 0 {
      SumMonotone(a, b, n - 1);
    }
  }

  lemma {:induction false} AllocationUnique(a: seq<nat>, b: seq<nat>, natural: seq<nat>, floors: seq<nat>, avail: int)
    requires |natural| == |floors|
    requires Allocates(a, natural, floors, avail) && Allocates(b, natural, floors, avail)
    ensures a == b
  {
    var p: nat :| PivotAt(a, natural, floors, p);
    var q: nat :| PivotAt(b, natural, floors, q);
    if p < q || (p == q && a[p] <= b[p]) {
      SumMonotone(a, b, |a|);
    } else {
      SumMonotone(b, a, |a|);
    }
  }

  /** Where column `col` begins: the position of the border character on its left. */
  function Offset(ws: seq<nat>, col: nat): nat
    requires col <= |ws|
  {
    if col == 0 then 0 else Offset(ws, col - 1) + ws[col - 1] + 3
  }

  /** Runes per line of a table with these column widths. */
  function LineWidth(ws: seq<nat>): nat {
    1 + Offset(ws, |ws|)
  }

  lemma {:induction false} LineWidthSum(ws: seq<nat>, col: nat)
    requires col <= |ws|
    ensures Offset(ws, col) == SumTo(ws, col) + 3 * col
    ensures col == |ws| ==> LineWidth(ws) == 1 + 3 * |ws| + Sum(ws)
  {
    if col > 0 {
      LineWidthSum(ws, col - 1);
    }
  }

  /** The table fits exactly when its fully shrunk columns do. */
  lemma {:induction false} FitsExactly(headers: seq<string>, rows: seq<seq<string>>, maxWidth: int)
    ensures LineWidth(ColumnWidths(headers, rows, maxWidth)) <= maxWidth
       <==> 1 + 3 * |headers| + Sum(Floored(NaturalWidths(headers, rows), Floors(headers))) <= maxWidth
  {
    var natural, floors := NaturalWidths(headers, rows), Floors(headers);
    var low, avail := Floored(natural, floors), Available(maxWidth, |headers|);
    var ws := ColumnWidths(headers, rows, maxWidth);
    LineWidthSum(ws, |ws|);
    SumMonotone(low, natural, |low|);
    if 0 < avail < Sum(natural) {
      WidthsExact(headers, rows, maxWidth, ws);
    } else if avail <= 0 {
      ZeroSum(low, |low|);
      if Sum(low) == 0 {
        assert forall i :: 0 <= i < |natural| ==> low[i] == natural[i] == 0;
        SumSame(low, natural, |low|);
      }
    }
  }

  lemma {:induction false} ZeroSum(ws: seq<nat>, n: nat)
    requires n <= |ws|
    ensures SumTo(ws, n) >= 0
    ensures SumTo(ws, n) == 0 ==> forall i :: 0 <= i < n ==> ws[i] == 0
  {
    if n > 0 {
      ZeroSum(ws, n - 1);
    }
  }

  /** A column of width zero has nothing to show. */
  lemma ZeroWidthIsEmpty(headers: seq<string>, rows: seq<seq<string>>, maxWidth: int, col: nat)
    requires col < |headers| && ColumnWidths(headers, rows, maxWidth)[col] == 0
    ensures NaturalWidth(headers, rows, col) == 0
  {
  }

  /** No column is shrunk below its floor, or below what it needs if that is less. */
  lemma WidthAtLeast(headers: seq<string>, rows: seq<seq<string>>, maxWidth: int, col: nat)
    requires col < |headers|
    ensures Min(NaturalWidth(headers, rows, col), MinColWidth(headers[col]))
         <= ColumnWidths(headers, rows, maxWidth)[col]
  {
  }

  /** Without an overflow, or without any room for text, every column is exactly as wide as its content. */
  lemma ContentDecides(headers: seq<string>, rows: seq<seq<string>>, maxWidth: int, col: nat, w: nat)
    requires col < |headers|
    requires maxWidth <= 1 + 3 * |headers| || 1 + 3 * |headers| + Sum(NaturalWidths(headers, rows)) <= maxWidth
    requires |headers[col]| <= w && forall r :: 0 <= r < |rows| && col < |rows[r]| ==> |rows[r][col]| <= w
    requires |headers[col]| == w || exists r :: 0 <= r < |rows| && col < |rows[r]| && |rows[r][col]| == w
    ensures ColumnWidths(headers, rows, maxWidth)[col] == w
  {
    NaturalWidthIsLeast(headers, rows, col);
  }

  /** A column never loses its header, nor, where it has that much to show, the first eight characters. */
  lemma HeadersKeepTheirWidth(headers: seq<string>, rows: seq<seq<string>>, maxWidth: int, col: nat)
    requires col < |headers|
    ensures |headers[col]| <= ColumnWidths(headers, rows, maxWidth)[col]
    ensures forall r :: 0 <= r < |rows| && col < |rows[r]| ==>
      |rows[r][col]| <= ColumnWidths(headers, rows, maxWidth)[col] || 8 <= ColumnWidths(headers, rows, maxWidth)[col]
  {
    WidthAtLeast(headers, rows, maxWidth, col);
    NaturalWidthIsLeast(headers, rows, col);
  }

  /** In a terminal too narrow for all columns at once each gives up all it can: down to its header and to eight. */
  lemma {:induction false} NarrowestExactly(headers: seq<string>, rows: seq<seq<string>>, maxWidth: int, col: nat)
    requires col < |headers| && Available(maxWidth, |headers|) > 0
    requires Available(maxWidth, |headers|) <= Sum(Floored(NaturalWidths(headers, rows), Floors(headers)))
    requires Available(maxWidth, |headers|) < Sum(NaturalWidths(headers, rows))
    ensures var least := if |headers[col]| < 8 then 8 else |headers[col]|;
      ColumnWidths(headers, rows, maxWidth)[col]
      == if NaturalWidth(headers, rows, col) < least then NaturalWidth(headers, rows, col) else least
  {
    var natural, floors := NaturalWidths(headers, rows), Floors(headers);
    var low, ws := Floored(natural, floors), ColumnWidths(headers, rows, maxWidth);
    WidthsExact(headers, rows, maxWidth, ws);
    SumMonotone(low, ws, |low|);
    assert Sum(ws) == Sum(low);
    assert ws[col] == low[col];
  }
}
