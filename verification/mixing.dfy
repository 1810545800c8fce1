/**
 * `create_mixed_tusd_or_te_worksheet` (app/modules/tabs/tusd_or_te_data.py):
 * the main tabs of several files stacked, their first 17 columns joined
 * vertically, and one column per (header, tariff) pair to the right, each
 * file contributing its values for the pair or placeholders where it lacks it.
 */
module Mixing {
  import opened Wrappers
  import opened Cells
  import opened Grid
  import opened Tables
  import opened Tariffs
  import opened Pairs

  /** The text written where a file lacks a pair. */
  const Placeholder: Cell := T("Nao se aplica")

  /** The first sheet row a file contributes: row 1 for the first file, row 3 for the others. */
  function FirstRow(first: bool): nat {
    if first then 1 else 3
  }

  /** How many rows a file contributes: all of the first file's, the others' from row 3 on. */
  function KeptRows(g: Grid, first: bool): nat {
    if first then g.maxRow else if g.maxRow >= 2 then g.maxRow - 2 else 0
  }

  /**
   * What a file lacking the pair contributes: the pair's two cells when it is
   * the first file, then one placeholder for each of rows 3 to `max_row`.
   */
  function MissingSegment(g: Grid, p: Pair, first: bool): (r: seq<Cell>)
    ensures |r| == (if first then 2 else 0) + (if g.maxRow >= 2 then g.maxRow - 2 else 0)
    ensures first ==> r[0] == p.0 && r[1] == p.1
    ensures forall k :: (if first then 2 else 0) <= k < |r| ==> r[k] == Placeholder
  {
    (if first then [p.0, p.1] else []) + Repeat(Placeholder, if g.maxRow >= 2 then g.maxRow - 2 else 0)
  }

  /**
   * What a file contributes to a pair's column, as written: a found column is
   * read with `load_values` from its first row, so trailing empty cells are
   * trimmed away. Every value it does give is the expected one for its row;
   * the rows past the last value are empty in that column.
   */
  function SegmentAsWritten(g: Grid, p: Pair, col: Option<nat>, first: bool): (r: seq<Cell>)
    requires col.Some? ==> col.value >= 1
    ensures forall k :: 0 <= k < |r| ==> r[k] == Expected(g, p, col, first, k)
    ensures col.None? ==> |r| == (if first then 2 else 0) + (if g.maxRow >= 2 then g.maxRow - 2 else 0)
    ensures col.Some? ==> |r| <= KeptRows(g, first)
    ensures col.Some? && |r| > 0 ==> r[|r| - 1].Some?
    ensures col.Some? ==> forall q :: FirstRow(first) + |r| <= q <= g.maxRow ==> Resolve(g, q, col.value).None?
  {
    match col
    case None => MissingSegment(g, p, first)
    case Some(c) =>
      FoundColumn(g, p, c, first);
      LoadValues(g, c - 1, AlongColumn, FirstRow(first)).value
  }

  /** A found column as written, stated against the rows the file contributes. */
  lemma FoundColumn(g: Grid, p: Pair, c: nat, first: bool)
    requires c >= 1
    ensures var values := LoadValues(g, c - 1, AlongColumn, FirstRow(first)).value;
      (forall k :: 0 <= k < |values| ==> values[k] == Expected(g, p, Some(c), first, k))
      && |values| <= KeptRows(g, first)
      && (|values| > 0 ==> values[|values| - 1].Some?)
      && forall q :: FirstRow(first) + |values| <= q <= g.maxRow ==> Resolve(g, q, c).None?
  {
    var values := LoadValues(g, c - 1, AlongColumn, FirstRow(first)).value;
    TrimmedColumn(g, c, FirstRow(first));
    forall k | 0 <= k < |values|
      ensures values[k] == Expected(g, p, Some(c), first, k)
    {
      assert values[k] == Resolve(g, FirstRow(first) + k, c);
    }
  }

  /**
   * Column c read from row `start` on: value k is row `start + k`'s, the last
   * holds a value, and every row after it up to `max_row` is empty.
   */
  lemma TrimmedColumn(g: Grid, c: nat, start: nat)
    requires c >= 1 && start >= 1
    ensures var values := LoadValues(g, c - 1, AlongColumn, start).value;
      (forall k :: 0 <= k < |values| ==> values[k] == Resolve(g, start + k, c))
      && (|values| > 0 ==> start + |values| <= g.maxRow + 1 && values[|values| - 1].Some?)
      && forall q :: start + |values| <= q <= g.maxRow ==> Resolve(g, q, c).None?
  {
    ColumnValues(g, c, start);
    ColumnTail(g, c, start);
  }

  /** The values read down column c from row `start` are that column's resolved cells. */
  lemma ColumnValues(g: Grid, c: nat, start: nat)
    requires c >= 1 && start >= 1
    ensures var values := LoadValues(g, c - 1, AlongColumn, start).value;
      forall k :: 0 <= k < |values| ==> values[k] == Resolve(g, start + k, c)
  {
    var values := LoadValues(g, c - 1, AlongColumn, start).value;
    forall k | 0 <= k < |values|
      ensures values[k] == Resolve(g, start + k, c)
    {
      assert Position(AlongColumn, c, start + k) == (start + k, c);
    }
  }

  /** Below the values read down column c from row `start`, the column is empty. */
  lemma ColumnTail(g: Grid, c: nat, start: nat)
    requires c >= 1 && start >= 1
    ensures forall q :: start + |LoadValues(g, c - 1, AlongColumn, start).value| <= q <= g.maxRow ==> Resolve(g, q, c).None?
  {
    var values := LoadValues(g, c - 1, AlongColumn, start).value;
    LoadValuesDropped(g, c - 1, AlongColumn, start);
    forall q | start + |values| <= q <= g.maxRow
      ensures Resolve(g, q, c).None?
    {
      assert EmptyAlong(g, c - 1, AlongColumn, q);
    }
  }

  /**
   * The misalignment of the code as written: a found column whose last row
   * is empty gives fewer values than the file has rows.
   */
  lemma TrimmedSegmentShort(g: Grid, p: Pair, c: nat, first: bool)
    requires c >= 1 && g.maxRow >= FirstRow(first)
    requires Resolve(g, g.maxRow, c).None?
    ensures |SegmentAsWritten(g, p, Some(c), first)| < KeptRows(g, first)
  {
    TrimmedColumnShort(g, c, FirstRow(first));
  }

  /** Read from row `start` on, a column whose last row is empty stops short of `max_row`. */
  lemma TrimmedColumnShort(g: Grid, c: nat, start: nat)
    requires c >= 1 && 1 <= start <= g.maxRow
    requires Resolve(g, g.maxRow, c).None?
    ensures start + |LoadValues(g, c - 1, AlongColumn, start).value| <= g.maxRow
  {
    var values := LoadValues(g, c - 1, AlongColumn, start).value;
    if |values| > 0 {
      var last := |values| - 1;
      assert values[last] == Resolve(g, start + last, c);
    }
  }

  /**
   * What a file contributes to a pair's column, aligned with its rows: a
   * found column is read as written and padded with empty cells to the
   * file's row count.
   */
  function Segment(g: Grid, p: Pair, col: Option<nat>, first: bool): seq<Cell>
    requires col.Some? ==> col.value >= 1
  {
    match col
    case None => MissingSegment(g, p, first)
    case Some(c) => PaddedColumn(g, c, FirstRow(first), KeptRows(g, first))
  }

  /** The value the file's row `FirstRow + r` should give the pair's column. */
  function Expected(g: Grid, p: Pair, col: Option<nat>, first: bool, r: nat): Cell {
    match col
    case Some(c) => Resolve(g, FirstRow(first) + r, c)
    case None => if first && r == 0 then p.0 else if first && r == 1 then p.1 else Placeholder
  }

  /** Column c read with `load_values` from row `start`, padded with empty cells to n. */
  function PaddedColumn(g: Grid, c: nat, start: nat, n: nat): seq<Cell>
    requires c >= 1 && start >= 1
  {
    Pad(LoadValues(g, c - 1, AlongColumn, start).value, n)
  }

  /**
   * A column read from row `start` and padded to the n rows from `start` to
   * `max_row` holds exactly those rows' resolved values.
   */
  lemma PaddedColumnCells(g: Grid, c: nat, start: nat, n: nat)
    requires c >= 1 && start >= 1 && start + n == g.maxRow + 1
    ensures |PaddedColumn(g, c, start, n)| == n
    ensures forall r :: 0 <= r < n ==> PaddedColumn(g, c, start, n)[r] == Resolve(g, start + r, c)
  {
    var values := LoadValues(g, c - 1, AlongColumn, start).value;
    LoadValuesDropped(g, c - 1, AlongColumn, start);
    var s := PaddedColumn(g, c, start, n);
    forall r | 0 <= r < n
      ensures s[r] == Resolve(g, start + r, c)
    {
      if r >= |values| {
        assert EmptyAlong(g, c - 1, AlongColumn, start + r);
      } else {
        assert s[..|values|] == values;
        assert s[r] == values[r];
      }
    }
  }

  /**
   * The aligned contribution has exactly one cell per row of the file, and
   * the cell for row `FirstRow + r` is that row's resolved value in the found
   * column, or the pair cells and placeholders when there is none.
   */
  lemma SegmentCells(g: Grid, p: Pair, col: Option<nat>, first: bool)
    requires col.Some? ==> col.value >= 1
    requires g.maxRow >= 2
    ensures |Segment(g, p, col, first)| == KeptRows(g, first)
    ensures forall r :: 0 <= r < KeptRows(g, first) ==> Segment(g, p, col, first)[r] == Expected(g, p, col, first, r)
  {
    if col.Some? {
      FoundSegmentCells(g, p, col.value, first);
    } else {
      MissingSegmentCells(g, p, first);
    }
  }

  lemma FoundSegmentCells(g: Grid, p: Pair, c: nat, first: bool)
    requires c >= 1 && g.maxRow >= 2
    ensures |Segment(g, p, Some(c), first)| == KeptRows(g, first)
    ensures forall r :: 0 <= r < KeptRows(g, first) ==> Segment(g, p, Some(c), first)[r] == Resolve(g, FirstRow(first) + r, c)
  {
    PaddedColumnCells(g, c, FirstRow(first), KeptRows(g, first));
  }

  lemma MissingSegmentCells(g: Grid, p: Pair, first: bool)
    requires g.maxRow >= 2
    ensures |MissingSegment(g, p, first)| == KeptRows(g, first)
    ensures forall r :: 0 <= r < KeptRows(g, first) ==> MissingSegment(g, p, first)[r] == Expected(g, p, None, first, r)
  {
  }

  /** The aligned contribution has one cell per row the file contributes. */
  lemma SegmentLength(g: Grid, p: Pair, col: Option<nat>, first: bool)
    requires col.Some? ==> col.value >= 1
    requires g.maxRow >= 2
    ensures |Segment(g, p, col, first)| == KeptRows(g, first)
  {
    SegmentCells(g, p, col, first);
  }

  /**
   * The correction changes nothing when the found column's last row holds a
   * value: then nothing is trimmed and the written values already fill the
   * file's rows.
   */
  lemma SegmentAgrees(g: Grid, p: Pair, col: Option<nat>, first: bool)
    requires col.Some? ==> col.value >= 1 && Resolve(g, g.maxRow, col.value).Some?
    requires g.maxRow >= 2
    ensures Segment(g, p, col, first) == SegmentAsWritten(g, p, col, first)
  {
    if col.Some? {
      var c := col.value;
      var start := FirstRow(first);
      var values := LoadValues(g, c - 1, AlongColumn, start).value;
      LoadValuesDropped(g, c - 1, AlongColumn, start);
      if start + |values| <= g.maxRow {
        assert false;
      }
    }
  }

  /** Each file's contribution to the pair's column, aligned, in file order. */
  function Segments(wss: seq<Grid>, p: Pair): (r: seq<seq<Cell>>)
    ensures |r| == |wss|
  {
    if |wss| == 0 then []
    else Segments(wss[..|wss| - 1], p) + [Segment(wss[|wss| - 1], p, FirstColumn(wss[|wss| - 1], p), |wss| == 1)]
  }

  lemma {:induction false} SegmentsAt(wss: seq<Grid>, p: Pair, j: nat)
    requires j < |wss|
    ensures Segments(wss, p)[j] == Segment(wss[j], p, FirstColumn(wss[j], p), j == 0)
  {
    if j < |wss| - 1 {
      SegmentsAt(wss[..|wss| - 1], p, j);
    }
  }

  /**
   * The column for pair p under the correction: every file's aligned
   * contribution, file after file, so that it has one cell per row of the
   * cleaned sheet.
   */
  function PairColumn(wss: seq<Grid>, p: Pair): (r: seq<Cell>)
    ensures (forall m :: 0 <= m < |wss| ==> wss[m].maxRow >= 2) ==> |r| == RowOffset(wss, |wss|)
  {
    if forall m :: 0 <= m < |wss| ==> wss[m].maxRow >= 2 then
      SegmentLengths(wss, p);
      FlattenLength(Segments(wss, p));
      assert Lengths(Segments(wss, p)) == KeptRowCounts(wss);
      Flatten(Segments(wss, p))
    else Flatten(Segments(wss, p))
  }

  /** Each file's contribution to a pair's column as written, with entry i of its files-columns list. */
  function SegmentsAsWritten(wss: seq<Grid>, pairs: seq<Pair>, i: nat): (r: seq<seq<Cell>>)
    requires i < |pairs|
    ensures |r| == |wss|
  {
    if |wss| == 0 then []
    else
      var last := wss[|wss| - 1];
      SegmentsAsWritten(wss[..|wss| - 1], pairs, i) + [SegmentAsWritten(last, pairs[i], FilesColumnsAsWritten(last, pairs)[i], |wss| == 1)]
  }

  lemma {:induction false} SegmentsAsWrittenAt(wss: seq<Grid>, pairs: seq<Pair>, i: nat, j: nat)
    requires i < |pairs| && j < |wss|
    ensures SegmentsAsWritten(wss, pairs, i)[j] == SegmentAsWritten(wss[j], pairs[i], FilesColumnsAsWritten(wss[j], pairs)[i], j == 0)
  {
    if j < |wss| - 1 {
      SegmentsAsWrittenAt(wss[..|wss| - 1], pairs, i, j);
    }
  }

  /** Where file j's contribution to pair i's column starts as written, counted from 0. */
  function AsWrittenOffset(wss: seq<Grid>, pairs: seq<Pair>, i: nat, j: nat): nat
    requires i < |pairs| && j <= |wss|
  {
    Offset(Lengths(SegmentsAsWritten(wss, pairs, i)), j)
  }

  /**
   * The column for pair i as written: every file's contribution, file after
   * file, each starting where the previous one ended. It is never longer
   * than the cleaned sheet, and shorter as soon as a contribution is trimmed.
   */
  function PairColumnAsWritten(wss: seq<Grid>, pairs: seq<Pair>, i: nat): (r: seq<Cell>)
    requires i < |pairs|
    ensures |r| == AsWrittenOffset(wss, pairs, i, |wss|)
    ensures (forall m :: 0 <= m < |wss| ==> wss[m].maxRow >= 2) ==> |r| <= RowOffset(wss, |wss|)
  {
    FlattenLength(SegmentsAsWritten(wss, pairs, i));
    AsWrittenBelow(wss, pairs, i);
    Flatten(SegmentsAsWritten(wss, pairs, i))
  }

  /** As written, the contributions together never outgrow the rows the files contribute. */
  lemma AsWrittenBelow(wss: seq<Grid>, pairs: seq<Pair>, i: nat)
    requires i < |pairs|
    ensures (forall m :: 0 <= m < |wss| ==> wss[m].maxRow >= 2) ==>
      AsWrittenOffset(wss, pairs, i, |wss|) <= RowOffset(wss, |wss|)
  {
    if forall m :: 0 <= m < |wss| ==> wss[m].maxRow >= 2 {
      SegmentsAsWrittenShort(wss, pairs, i);
      OffsetBelow(Lengths(SegmentsAsWritten(wss, pairs, i)), KeptRowCounts(wss), |wss|);
    }
  }

  /** As written, no file contributes more cells than it has rows to contribute. */
  lemma SegmentsAsWrittenShort(wss: seq<Grid>, pairs: seq<Pair>, i: nat)
    requires i < |pairs| && forall m :: 0 <= m < |wss| ==> wss[m].maxRow >= 2
    ensures forall j :: 0 <= j < |wss| ==> |SegmentsAsWritten(wss, pairs, i)[j]| <= KeptRowCounts(wss)[j]
  {
    forall j | 0 <= j < |wss|
      ensures |SegmentsAsWritten(wss, pairs, i)[j]| <= KeptRowCounts(wss)[j]
    {
      SegmentsAsWrittenAt(wss, pairs, i, j);
    }
  }

  lemma SegmentAsWrittenAt(g: Grid, p: Pair, col: Option<nat>, first: bool, k: nat)
    requires col.Some? ==> col.value >= 1
    requires k < |SegmentAsWritten(g, p, col, first)|
    ensures SegmentAsWritten(g, p, col, first)[k] == Expected(g, p, col, first, k)
  {
  }

  /** Sums of pointwise smaller lengths are smaller. */
  lemma {:induction false} OffsetBelow(ls: seq<nat>, ms: seq<nat>, k: nat)
    requires |ls| == |ms| && k <= |ls|
    requires forall j :: 0 <= j < |ls| ==> ls[j] <= ms[j]
    ensures Offset(ls, k) <= Offset(ms, k)
  {
    if k > 0 {
      OffsetBelow(ls, ms, k - 1);
    }
  }

  /**
   * As written, pair i's column holds file j's k-th value at index
   * `AsWrittenOffset(i, j) + k`: the value of the file's row `FirstRow + k`
   * in the column its as-written files-columns entry i names.
   */
  lemma PairColumnAsWrittenAt(wss: seq<Grid>, pairs: seq<Pair>, i: nat, j: nat, k: nat)
    requires i < |pairs| && j < |wss| && k < |SegmentsAsWritten(wss, pairs, i)[j]|
    ensures AsWrittenOffset(wss, pairs, i, j) + k < |PairColumnAsWritten(wss, pairs, i)|
    ensures PairColumnAsWritten(wss, pairs, i)[AsWrittenOffset(wss, pairs, i, j) + k]
      == Expected(wss[j], pairs[i], FilesColumnsAsWritten(wss[j], pairs)[i], j == 0, k)
  {
    PairColumnAsWrittenIndex(wss, pairs, i, j, k);
    SegmentsAsWrittenCell(wss, pairs, i, j, k);
  }

  /** As written, pair i's column holds file j's k-th contributed value at index `AsWrittenOffset(i, j) + k`. */
  lemma PairColumnAsWrittenIndex(wss: seq<Grid>, pairs: seq<Pair>, i: nat, j: nat, k: nat)
    requires i < |pairs| && j < |wss| && k < |SegmentsAsWritten(wss, pairs, i)[j]|
    ensures AsWrittenOffset(wss, pairs, i, j) + k < |PairColumnAsWritten(wss, pairs, i)|
    ensures PairColumnAsWritten(wss, pairs, i)[AsWrittenOffset(wss, pairs, i, j) + k] == SegmentsAsWritten(wss, pairs, i)[j][k]
  {
    var segs := SegmentsAsWritten(wss, pairs, i);
    assert PairColumnAsWritten(wss, pairs, i) == Flatten(segs);
    assert AsWrittenOffset(wss, pairs, i, j) == Offset(Lengths(segs), j);
    FlattenIndex(segs, j, k);
  }

  /** As written, file j's k-th contributed value is its row `FirstRow + k`'s in the column its entry names. */
  lemma SegmentsAsWrittenCell(wss: seq<Grid>, pairs: seq<Pair>, i: nat, j: nat, k: nat)
    requires i < |pairs| && j < |wss| && k < |SegmentsAsWritten(wss, pairs, i)[j]|
    ensures SegmentsAsWritten(wss, pairs, i)[j][k] == Expected(wss[j], pairs[i], FilesColumnsAsWritten(wss[j], pairs)[i], j == 0, k)
  {
    var col := FilesColumnsAsWritten(wss[j], pairs)[i];
    SegmentsAsWrittenAt(wss, pairs, i, j);
    SegmentAsWrittenAt(wss[j], pairs[i], col, j == 0, k);
  }

  /**
   * Where the code as written goes wrong: when the first file's contribution
   * is trimmed short, the second file's first value is placed at an index
   * that still belongs to the first file's rows.
   */
  lemma PairColumnShifted(wss: seq<Grid>, pairs: seq<Pair>, i: nat)
    requires i < |pairs| && |wss| >= 2
    requires |SegmentsAsWritten(wss, pairs, i)[0]| < KeptRows(wss[0], true)
    requires |SegmentsAsWritten(wss, pairs, i)[1]| > 0
    ensures var n := |SegmentsAsWritten(wss, pairs, i)[0]|;
      n < KeptRows(wss[0], true) && n < |PairColumnAsWritten(wss, pairs, i)|
      && PairColumnAsWritten(wss, pairs, i)[n] == SegmentsAsWritten(wss, pairs, i)[1][0]
  {
    var segs := SegmentsAsWritten(wss, pairs, i);
    FlattenIndex(segs, 1, 0);
    assert Offset(Lengths(segs), 1) == |segs[0]| by {
      assert Offset(Lengths(segs), 0) == 0;
    }
  }

  /** Every file's row count, in file order. */
  function KeptRowCounts(wss: seq<Grid>): (r: seq<nat>)
    ensures |r| == |wss| && forall j :: 0 <= j < |wss| ==> r[j] == KeptRows(wss[j], j == 0)
  {
    seq(|wss|, j requires 0 <= j < |wss| => KeptRows(wss[j], j == 0))
  }

  /** The index of the first row file j contributes, counted from 0. */
  function RowOffset(wss: seq<Grid>, j: nat): nat
    requires j <= |wss|
  {
    Offset(KeptRowCounts(wss), j)
  }

  /**
   * The aligned pair column places file j's cell for its row `FirstRow + r`
   * at index `RowOffset(j) + r`.
   */
  lemma PairColumnAligned(wss: seq<Grid>, p: Pair, j: nat, r: nat)
    requires forall k :: 0 <= k < |wss| ==> wss[k].maxRow >= 2
    requires j < |wss| && r < KeptRows(wss[j], j == 0)
    ensures RowOffset(wss, j) + r < |PairColumn(wss, p)|
    ensures PairColumn(wss, p)[RowOffset(wss, j) + r] == Expected(wss[j], p, FirstColumn(wss[j], p), j == 0, r)
  {
    var segs := Segments(wss, p);
    var counts := KeptRowCounts(wss);
    SegmentLengths(wss, p);
    assert segs[j][r] == Expected(wss[j], p, FirstColumn(wss[j], p), j == 0, r) by {
      SegmentsAt(wss, p, j);
      SegmentCells(wss[j], p, FirstColumn(wss[j], p), j == 0);
    }
    FlattenAt(segs, counts, j, r);
    assert Flatten(segs)[Offset(counts, j) + r] == segs[j][r];
    assert Flatten(segs)[Offset(counts, j) + r] == Expected(wss[j], p, FirstColumn(wss[j], p), j == 0, r);
    assert PairColumn(wss, p) == Flatten(segs);
    assert RowOffset(wss, j) == Offset(counts, j);
  }

  /** Every file's aligned contribution is as long as its contributed rows. */
  lemma SegmentLengths(wss: seq<Grid>, p: Pair)
    requires forall k :: 0 <= k < |wss| ==> wss[k].maxRow >= 2
    ensures forall k :: 0 <= k < |wss| ==> |Segments(wss, p)[k]| == KeptRowCounts(wss)[k]
  {
    forall k | 0 <= k < |wss|
      ensures |Segments(wss, p)[k]| == KeptRowCounts(wss)[k]
    {
      SegmentsAt(wss, p, k);
      SegmentLength(wss[k], p, FirstColumn(wss[k], p), k == 0);
    }
  }

  function Min(a: nat, b: nat): nat {
    if a <= b then a else b
  }

  /** Row `row` of a worksheet after `delete_cols(18, ...)`: its first 17 cells at most. */
  function TruncatedRow(g: Grid, row: nat): (r: Row)
    ensures |r| == Min(17, g.maxCol)
    ensures forall k :: 1 <= k <= |r| ==> r[k - 1] == CellAt(g, row, k)
  {
    seq(Min(17, g.maxCol), k requires 0 <= k < Min(17, g.maxCol) => CellAt(g, row, k + 1))
  }

  /** A worksheet's rows after `delete_cols(18, ...)`. */
  function Truncated(g: Grid): Sheet {
    seq(g.maxRow, i requires 0 <= i < g.maxRow => TruncatedRow(g, i + 1))
  }

  /**
   * The cut worksheet keeps every row, each as wide as the first 17 columns,
   * with every kept cell where it was.
   */
  lemma TruncatedCell(g: Grid, row: nat, c: nat)
    requires 1 <= row <= g.maxRow && 1 <= c <= Min(17, g.maxCol)
    ensures |Truncated(g)| == g.maxRow && |Truncated(g)[row - 1]| == Min(17, g.maxCol)
    ensures Truncated(g)[row - 1][c - 1] == CellAt(g, row, c)
  {
  }


  /** Every worksheet cut to 17 columns, the later ones with row 1 deleted. */
  function CleanedParts(wss: seq<Grid>): (r: seq<Sheet>)
    ensures |r| == |wss|
  {
    seq(|wss|, j requires 0 <= j < |wss| =>
      if j == 0 then Truncated(wss[0]) else DropFirst(Truncated(wss[j])))
  }

  /**
   * `_get_cleaned_worksheet`: every worksheet cut to 17 columns, later ones
   * with row 1 deleted, then joined vertically (which skips the later ones'
   * new first row as well). The result is the files' kept rows, file after
   * file, one row per contributed row.
   */
  function Cleaned(wss: seq<Grid>): (r: Sheet)
    ensures |wss| == 0 ==> r == []
    ensures |wss| > 0 ==> r == Flatten(CleanedBlocks(wss))
    ensures |wss| > 0 ==> |r| == RowOffset(wss, |wss|)
  {
    if |wss| > 0 then
      PartsAreBlocks(wss);
      BlockLengths(wss);
      FlattenLength(CleanedBlocks(wss));
      assert Lengths(CleanedBlocks(wss)) == KeptRowCounts(wss);
      JoinVertically(CleanedParts(wss))
    else JoinVertically(CleanedParts(wss))
  }

  /** The rows each file keeps in the cleaned sheet. */
  function CleanedBlocks(wss: seq<Grid>): (r: seq<Sheet>)
    ensures |r| == |wss|
  {
    seq(|wss|, j requires 0 <= j < |wss| =>
      if j == 0 then Truncated(wss[0]) else DropFirst(DropFirst(Truncated(wss[j]))))
  }

  /** Joining the cut worksheets vertically gives the files' kept rows, file after file. */
  lemma PartsAreBlocks(wss: seq<Grid>)
    requires |wss| > 0
    ensures JoinVertically(CleanedParts(wss)) == Flatten(CleanedBlocks(wss))
  {
    var sheets := CleanedParts(wss);
    var blocks := CleanedBlocks(wss);
    FirstPartIsBlock(wss, sheets);
    assert Tails(sheets[1..]) == blocks[1..] by {
      forall j | 1 <= j < |sheets|
        ensures Tails(sheets[1..])[j - 1] == blocks[j]
      {
        assert sheets[1..][j - 1] == sheets[j];
        LaterPartIsBlock(wss, sheets, j);
      }
    }
    JoinVerticallyOfParts(sheets, blocks);
  }

  /** The first part of the vertical join is the first file's block of kept rows. */
  lemma FirstPartIsBlock(wss: seq<Grid>, sheets: seq<Sheet>)
    requires |wss| > 0 && sheets == CleanedParts(wss)
    ensures Rect(sheets[0]) == CleanedBlocks(wss)[0]
  {
    var t := Truncated(wss[0]);
    RectTruncated(wss[0]);
    assert sheets[0] == t && CleanedBlocks(wss)[0] == t;
  }

  /** Every later part of the vertical join, without its first row, is that file's block of kept rows. */
  lemma LaterPartIsBlock(wss: seq<Grid>, sheets: seq<Sheet>, j: nat)
    requires 0 < j < |wss| && sheets == CleanedParts(wss)
    ensures DropFirst(Rect(sheets[j])) == CleanedBlocks(wss)[j]
  {
    var t := Truncated(wss[j]);
    RectTruncated(wss[j]);
    assert sheets[j] == DropFirst(t) && CleanedBlocks(wss)[j] == DropFirst(DropFirst(t));
  }

  /** A worksheet cut to 17 columns is rectangular, with or without its first row: reading it changes nothing. */
  lemma RectTruncated(g: Grid)
    ensures Rect(Truncated(g)) == Truncated(g)
    ensures Rect(DropFirst(Truncated(g))) == DropFirst(Truncated(g))
  {
    var t := Truncated(g);
    RectOfUniform(t, Min(17, g.maxCol));
    RectOfUniform(DropFirst(t), Min(17, g.maxCol));
  }

  /** File j keeps one cleaned row per kept row: its row `FirstRow + r`, cut to 17 columns. */
  lemma CleanedBlock(wss: seq<Grid>, j: nat)
    requires j < |wss|
    ensures |CleanedBlocks(wss)[j]| == KeptRows(wss[j], j == 0)
    ensures forall r :: 0 <= r < KeptRows(wss[j], j == 0) ==>
      CleanedBlocks(wss)[j][r] == TruncatedRow(wss[j], FirstRow(j == 0) + r)
  {
    var t := Truncated(wss[j]);
    if j > 0 && |t| >= 2 {
      assert CleanedBlocks(wss)[j] == t[2..];
    }
  }

  /**
   * The cleaned sheet's row `RowOffset(j) + r` (counted from 0) is file j's
   * row `FirstRow + r`, cut to 17 columns.
   */
  lemma CleanedAligned(wss: seq<Grid>, j: nat, r: nat)
    requires j < |wss| && r < KeptRows(wss[j], j == 0)
    ensures RowOffset(wss, j) + r < |Cleaned(wss)|
    ensures Cleaned(wss)[RowOffset(wss, j) + r] == TruncatedRow(wss[j], FirstRow(j == 0) + r)
  {
    BlocksAligned(wss, j, r);
  }

  /**
   * With any sheet to its right, the row of file j's row `FirstRow + r`
   * holds that row's cells in its first 17 columns.
   */
  lemma CleanedLeft(wss: seq<Grid>, right: Sheet, j: nat, r: nat, c: nat)
    requires j < |wss| && r < KeptRows(wss[j], j == 0)
    requires 1 <= c <= Min(17, wss[j].maxCol)
    ensures SheetCell(SideBySide([Cleaned(wss), right]), RowOffset(wss, j) + r + 1, c) == CellAt(wss[j], FirstRow(j == 0) + r, c)
  {
    var row := RowOffset(wss, j) + r + 1;
    var cleaned := Cleaned(wss);
    CleanedAligned(wss, j, r);
    assert |cleaned[row - 1]| <= Width(cleaned);
    SideBySideLeft(cleaned, right, row, c);
  }

  /** The joined blocks place file j's row `FirstRow + r` at index `RowOffset(j) + r`. */
  lemma BlocksAligned(wss: seq<Grid>, j: nat, r: nat)
    requires j < |wss| && r < KeptRows(wss[j], j == 0)
    ensures RowOffset(wss, j) + r < |Flatten(CleanedBlocks(wss))|
    ensures Flatten(CleanedBlocks(wss))[RowOffset(wss, j) + r] == TruncatedRow(wss[j], FirstRow(j == 0) + r)
  {
    CleanedRowAt(wss, j, r);
    CleanedBlock(wss, j);
  }

  /** Row r of file j's block sits after the rows of the earlier files' blocks. */
  lemma CleanedRowAt(wss: seq<Grid>, j: nat, r: nat)
    requires j < |wss| && r < KeptRows(wss[j], j == 0)
    ensures RowOffset(wss, j) + r < |Flatten(CleanedBlocks(wss))|
    ensures r < |CleanedBlocks(wss)[j]|
    ensures Flatten(CleanedBlocks(wss))[RowOffset(wss, j) + r] == CleanedBlocks(wss)[j][r]
  {
    var blocks, counts := CleanedBlocks(wss), KeptRowCounts(wss);
    BlockLengths(wss);
    assert r < counts[j];
    FlattenAt(blocks, counts, j, r);
    assert RowOffset(wss, j) == Offset(counts, j);
  }

  /** Every block is as long as its file's contributed rows. */
  lemma BlockLengths(wss: seq<Grid>)
    ensures forall k :: 0 <= k < |wss| ==> |CleanedBlocks(wss)[k]| == KeptRowCounts(wss)[k]
  {
    forall k | 0 <= k < |wss|
      ensures |CleanedBlocks(wss)[k]| == KeptRowCounts(wss)[k]
    {
      CleanedBlock(wss, k);
    }
  }

  /** The longest of the columns. */
  function Longest(cols: seq<seq<Cell>>): (h: nat)
    ensures forall j :: 0 <= j < |cols| ==> |cols[j]| <= h
    ensures h == 0 || exists j :: 0 <= j < |cols| && |cols[j]| == h
  {
    if |cols| == 0 then 0
    else
      var h := Longest(cols[..|cols| - 1]);
      assert forall j :: 0 <= j < |cols| - 1 ==> cols[j] == cols[..|cols| - 1][j];
      if |cols[|cols| - 1]| <= h then h else |cols[|cols| - 1]|
  }

  /** `_get_worksheet_from_data(data)`: column i of the sheet holds `data[i]` from row 1. */
  function DataSheet(cols: seq<seq<Cell>>): (r: Sheet)
    ensures |r| == Longest(cols)
    ensures forall i :: 0 <= i < |r| ==> |r[i]| == |cols|
  {
    seq(Longest(cols), i requires 0 <= i < Longest(cols) =>
      seq(|cols|, j requires 0 <= j < |cols| => if i < |cols[j]| then cols[j][i] else None))
  }

  /** Cell (i, j) of the data sheet is value i of column j; the rest are empty. */
  lemma DataSheetCell(cols: seq<seq<Cell>>, i: int, j: int)
    ensures SheetCell(DataSheet(cols), i, j) == if 1 <= j <= |cols| && 1 <= i <= |cols[j - 1]| then cols[j - 1][i - 1] else None
    ensures Longest(cols) > 0 ==> Width(DataSheet(cols)) == |cols|
  {
    if Longest(cols) > 0 {
      WidthOfUniform(DataSheet(cols), |cols|);
    }
  }

  /** Placed to the right of any sheet, the data sheet keeps value i of column j in its column (both 1-based). */
  lemma DataSheetBeside(left: Sheet, cols: seq<seq<Cell>>, i: nat, j: nat)
    requires 1 <= j <= |cols| && 1 <= i <= |cols[j - 1]|
    ensures SheetCell(SideBySide([left, DataSheet(cols)]), i, Width(left) + j) == cols[j - 1][i - 1]
  {
    var data := DataSheet(cols);
    assert SheetCell(data, i, j) == cols[j - 1][i - 1] && 1 <= j <= Width(data) by {
      assert |cols[j - 1]| <= Longest(cols);
      DataSheetCell(cols, i, j);
    }
    SideBySideRight(left, data, i, j);
  }

  /** DataSheetBeside with value q of column i counted from 0. */
  lemma DataSheetBesideAt(left: Sheet, cols: seq<seq<Cell>>, q: nat, i: nat, row: nat, col: nat)
    requires i < |cols| && q < |cols[i]|
    requires row == q + 1 && col == i + 1
    ensures SheetCell(SideBySide([left, DataSheet(cols)]), row, Width(left) + col) == cols[i][q]
  {
    DataSheetBeside(left, cols, row, col);
  }

  /**
   * One column per pair, in pair order, as the code builds them: column i
   * is `PairColumnAsWritten(i)`, never longer than the cleaned sheet.
   */
  function MixedData(wss: seq<Grid>, pairs: seq<Pair>): (r: seq<seq<Cell>>)
    ensures |r| == |pairs|
    ensures forall i :: 0 <= i < |pairs| ==> |r[i]| == AsWrittenOffset(wss, pairs, i, |wss|)
    ensures (forall m :: 0 <= m < |wss| ==> wss[m].maxRow >= 2) ==>
      forall i :: 0 <= i < |pairs| ==> |r[i]| <= RowOffset(wss, |wss|)
  {
    seq(|pairs|, i requires 0 <= i < |pairs| => PairColumnAsWritten(wss, pairs, i))
  }

  /**
   * The final sheet as written: the cleaned rows with the as-written pair
   * columns to their right. It is as tall as the cleaned sheet: one row per
   * contributed row.
   */
  function MixedSheet(wss: seq<Grid>, pairs: seq<Pair>): (r: Sheet)
    ensures |Cleaned(wss)| <= |r|
    ensures forall i :: 0 <= i < |pairs| ==> |PairColumnAsWritten(wss, pairs, i)| <= |r|
    ensures |wss| > 0 && (forall m :: 0 <= m < |wss| ==> wss[m].maxRow >= 2) ==> |r| == RowOffset(wss, |wss|)
  {
    var cols := MixedData(wss, pairs);
    var sheets := [Cleaned(wss), DataSheet(cols)];
    assert forall i :: 0 <= i < |pairs| ==> |PairColumnAsWritten(wss, pairs, i)| == |cols[i]| <= |sheets[1]|;
    SideBySide(sheets)
  }

  /**
   * In the final sheet as written, file j's k-th value for pair i sits at
   * row `AsWrittenOffset(i, j) + k + 1` of the pair's column: the file's row
   * `FirstRow + k` in the column its as-written entry i names.
   */
  lemma MixedSheetData(wss: seq<Grid>, pairs: seq<Pair>, i: nat, j: nat, k: nat, row: nat, col: nat)
    requires i < |pairs| && j < |wss| && k < |SegmentsAsWritten(wss, pairs, i)[j]|
    requires row == AsWrittenOffset(wss, pairs, i, j) + k + 1 && col == i + 1
    ensures SheetCell(MixedSheet(wss, pairs), row, Width(Cleaned(wss)) + col)
      == Expected(wss[j], pairs[i], FilesColumnsAsWritten(wss[j], pairs)[i], j == 0, k)
  {
    AsWrittenColumnsBeside(Cleaned(wss), wss, pairs, i, j, k, row, col);
  }

  /** MixedDataCell, seen through the as-written pair columns placed right of any sheet. */
  lemma AsWrittenColumnsBeside(left: Sheet, wss: seq<Grid>, pairs: seq<Pair>, i: nat, j: nat, k: nat, row: nat, col: nat)
    requires i < |pairs| && j < |wss| && k < |SegmentsAsWritten(wss, pairs, i)[j]|
    requires row == AsWrittenOffset(wss, pairs, i, j) + k + 1 && col == i + 1
    ensures SheetCell(SideBySide([left, DataSheet(MixedData(wss, pairs))]), row, Width(left) + col)
      == Expected(wss[j], pairs[i], FilesColumnsAsWritten(wss[j], pairs)[i], j == 0, k)
  {
    var cols := MixedData(wss, pairs);
    var q := AsWrittenOffset(wss, pairs, i, j) + k;
    var v := Expected(wss[j], pairs[i], FilesColumnsAsWritten(wss[j], pairs)[i], j == 0, k);
    var column := PairColumnAsWritten(wss, pairs, i);
    assert q < |column| && column[q] == v by {
      PairColumnAsWrittenAt(wss, pairs, i, j, k);
    }
    assert cols[i] == column;
    ColumnBeside(left, cols, q, i, row, col, v);
  }

  /** DataSheetBesideAt for a cell known to hold v. */
  lemma ColumnBeside(left: Sheet, cols: seq<seq<Cell>>, q: nat, i: nat, row: nat, col: nat, v: Cell)
    requires i < |cols| && q < |cols[i]| && cols[i][q] == v
    requires row == q + 1 && col == i + 1
    ensures SheetCell(SideBySide([left, DataSheet(cols)]), row, Width(left) + col) == v
  {
    DataSheetBesideAt(left, cols, q, i, row, col);
  }

  /** As written, the column of pair i holds file j's k-th value at index `AsWrittenOffset(i, j) + k`. */
  lemma MixedDataCell(wss: seq<Grid>, pairs: seq<Pair>, i: nat, j: nat, k: nat)
    requires i < |pairs| && j < |wss| && k < |SegmentsAsWritten(wss, pairs, i)[j]|
    ensures AsWrittenOffset(wss, pairs, i, j) + k < |MixedData(wss, pairs)[i]|
    ensures MixedData(wss, pairs)[i][AsWrittenOffset(wss, pairs, i, j) + k]
      == Expected(wss[j], pairs[i], FilesColumnsAsWritten(wss[j], pairs)[i], j == 0, k)
  {
    assert MixedData(wss, pairs)[i] == PairColumnAsWritten(wss, pairs, i);
    PairColumnAsWrittenAt(wss, pairs, i, j, k);
  }

  /**
   * The corrected pair columns, in pair order: column i has one cell per
   * row of the cleaned sheet.
   */
  function AlignedData(wss: seq<Grid>, pairs: seq<Pair>): (r: seq<seq<Cell>>)
    ensures |r| == |pairs|
    ensures (forall m :: 0 <= m < |wss| ==> wss[m].maxRow >= 2) ==>
      forall i :: 0 <= i < |pairs| ==> |r[i]| == RowOffset(wss, |wss|)
  {
    seq(|pairs|, i requires 0 <= i < |pairs| => PairColumn(wss, pairs[i]))
  }

  /** The corrected final sheet: the cleaned rows with the aligned pair columns to their right. */
  function AlignedSheet(wss: seq<Grid>, pairs: seq<Pair>): (r: Sheet)
    ensures |Cleaned(wss)| <= |r|
    ensures |wss| > 0 && (forall m :: 0 <= m < |wss| ==> wss[m].maxRow >= 2) ==> |r| == RowOffset(wss, |wss|)
  {
    var cols := AlignedData(wss, pairs);
    var sheets := [Cleaned(wss), DataSheet(cols)];
    SideBySide(sheets)
  }

  /** The corrected column of pair i holds, at file j's index for its row `FirstRow + r`, the value that row should give. */
  lemma AlignedDataCell(wss: seq<Grid>, pairs: seq<Pair>, i: nat, j: nat, r: nat)
    requires forall m :: 0 <= m < |wss| ==> wss[m].maxRow >= 2
    requires i < |pairs| && j < |wss| && r < KeptRows(wss[j], j == 0)
    ensures RowOffset(wss, j) + r < |AlignedData(wss, pairs)[i]|
    ensures AlignedData(wss, pairs)[i][RowOffset(wss, j) + r] == Expected(wss[j], pairs[i], FirstColumn(wss[j], pairs[i]), j == 0, r)
  {
    assert AlignedData(wss, pairs)[i] == PairColumn(wss, pairs[i]);
    PairColumnAligned(wss, pairs[i], j, r);
  }

  /** AlignedDataCell, seen through the pair columns placed right of any sheet. */
  lemma PairColumnsBeside(left: Sheet, wss: seq<Grid>, pairs: seq<Pair>, i: nat, j: nat, r: nat, row: nat, col: nat)
    requires forall m :: 0 <= m < |wss| ==> wss[m].maxRow >= 2
    requires i < |pairs| && j < |wss| && r < KeptRows(wss[j], j == 0)
    requires row == RowOffset(wss, j) + r + 1 && col == i + 1
    ensures SheetCell(SideBySide([left, DataSheet(AlignedData(wss, pairs))]), row, Width(left) + col)
      == Expected(wss[j], pairs[i], FirstColumn(wss[j], pairs[i]), j == 0, r)
  {
    var cols := AlignedData(wss, pairs);
    var q := RowOffset(wss, j) + r;
    assert q < |cols[i]| && cols[i][q] == Expected(wss[j], pairs[i], FirstColumn(wss[j], pairs[i]), j == 0, r) by {
      AlignedDataCell(wss, pairs, i, j, r);
    }
    DataSheetBesideAt(left, cols, q, i, row, col);
  }

  /**
   * In the corrected final sheet, the row of file j's row `FirstRow + r`
   * holds, in the column of pair i, the file's value for the pair, or the
   * pair cells and placeholders when the file lacks it.
   */
  lemma AlignedSheetData(wss: seq<Grid>, pairs: seq<Pair>, i: nat, j: nat, r: nat, row: nat, col: nat)
    requires forall m :: 0 <= m < |wss| ==> wss[m].maxRow >= 2
    requires i < |pairs| && j < |wss| && r < KeptRows(wss[j], j == 0)
    requires row == RowOffset(wss, j) + r + 1 && col == i + 1
    ensures SheetCell(AlignedSheet(wss, pairs), row, Width(Cleaned(wss)) + col)
      == Expected(wss[j], pairs[i], FirstColumn(wss[j], pairs[i]), j == 0, r)
  {
    PairColumnsBeside(Cleaned(wss), wss, pairs, i, j, r, row, col);
  }

  /**
   * When no file carries a pair in two columns and every file's column for
   * a pair is filled down to its last row, nothing is trimmed or shifted:
   * the code as written gives the corrected sheet.
   */
  lemma MixedSheetAgrees(wss: seq<Grid>, pairs: seq<Pair>)
    requires forall m :: 0 <= m < |wss| ==> wss[m].maxRow >= 2
    requires forall j, i :: 0 <= j < |wss| && 0 <= i < |pairs| ==> |CommonColumns(wss[j], pairs[i])| <= 1
    requires forall j, i :: 0 <= j < |wss| && 0 <= i < |pairs| && FirstColumn(wss[j], pairs[i]).Some? ==>
      Resolve(wss[j], wss[j].maxRow, FirstColumn(wss[j], pairs[i]).value).Some?
    ensures MixedSheet(wss, pairs) == AlignedSheet(wss, pairs)
  {
    var mixed, aligned := MixedData(wss, pairs), AlignedData(wss, pairs);
    assert mixed == aligned by {
      forall i | 0 <= i < |pairs|
        ensures mixed[i] == aligned[i]
      {
        assert mixed[i] == PairColumnAsWritten(wss, pairs, i) && aligned[i] == PairColumn(wss, pairs[i]);
        SegmentsAsWrittenAgree(wss, pairs, i);
      }
    }
    assert MixedSheet(wss, pairs) == SideBySide([Cleaned(wss), DataSheet(mixed)]);
  }

  /** Under the conditions of MixedSheetAgrees, every file contributes the same cells to pair i's column either way. */
  lemma SegmentsAsWrittenAgree(wss: seq<Grid>, pairs: seq<Pair>, i: nat)
    requires i < |pairs|
    requires forall m :: 0 <= m < |wss| ==> wss[m].maxRow >= 2
    requires forall j, i :: 0 <= j < |wss| && 0 <= i < |pairs| ==> |CommonColumns(wss[j], pairs[i])| <= 1
    requires forall j :: 0 <= j < |wss| && FirstColumn(wss[j], pairs[i]).Some? ==>
      Resolve(wss[j], wss[j].maxRow, FirstColumn(wss[j], pairs[i]).value).Some?
    ensures SegmentsAsWritten(wss, pairs, i) == Segments(wss, pairs[i])
  {
    forall j | 0 <= j < |wss|
      ensures SegmentsAsWritten(wss, pairs, i)[j] == Segments(wss, pairs[i])[j]
    {
      FilesColumnsAgree(wss[j], pairs);
      assert FilesColumnsAsWritten(wss[j], pairs)[i] == FirstColumn(wss[j], pairs[i]);
      SegmentsAsWrittenAt(wss, pairs, i, j);
      SegmentsAt(wss, pairs[i], j);
      SegmentAgrees(wss[j], pairs[i], FirstColumn(wss[j], pairs[i]), j == 0);
    }
  }

  /**
   * `create_mixed_tusd_or_te_worksheet(workbooks, tusd_or_te, ...)` as
   * written: the rows of the sheet it adds under the main tab's name, or the
   * IndexError a short header column raises.
   */
  function CreateMixed(workbooks: seq<Workbook>, kind: TusdOrTe): (r: Outcome<Sheet>)
    ensures r.Failure? ==> r.error == IndexOutOfRange
    ensures var wss := MainWorksheets(workbooks, kind);
      r.Success? <==> FoundPairs(wss, HeaderLabels(wss)).Success?
  {
    var wss := MainWorksheets(workbooks, kind);
    var pairs :- HeadersAndTariffs(wss, HeaderLabels(wss));
    Success(MixedSheet(wss, pairs))
  }

  /** The corrected `create_mixed_tusd_or_te_worksheet`: the same sheet with aligned pair columns. */
  function CreateMixedAligned(workbooks: seq<Workbook>, kind: TusdOrTe): (r: Outcome<Sheet>)
    ensures r.Failure? ==> r.error == IndexOutOfRange
    ensures var wss := MainWorksheets(workbooks, kind);
      r.Success? <==> FoundPairs(wss, HeaderLabels(wss)).Success?
  {
    var wss := MainWorksheets(workbooks, kind);
    var pairs :- HeadersAndTariffs(wss, HeaderLabels(wss));
    Success(AlignedSheet(wss, pairs))
  }

  /**
   * Both sheets, as written and corrected, are exactly as tall as the rows
   * the files keep: one row per kept row, none added below.
   */
  lemma CreateMixedHeight(workbooks: seq<Workbook>, kind: TusdOrTe, wss: seq<Grid>, pairs: seq<Pair>)
    requires wss == MainWorksheets(workbooks, kind)
    requires HeadersAndTariffs(wss, HeaderLabels(wss)) == Success(pairs)
    requires |wss| > 0 && forall m :: 0 <= m < |wss| ==> wss[m].maxRow >= 2
    ensures CreateMixed(workbooks, kind).Success? && |CreateMixed(workbooks, kind).value| == RowOffset(wss, |wss|)
    ensures CreateMixedAligned(workbooks, kind).Success? && |CreateMixedAligned(workbooks, kind).value| == RowOffset(wss, |wss|)
  {
    CreateMixedSheet(workbooks, kind, wss, pairs);
  }

  /** Both sheets are built from the main worksheets and the pairs the header search finds in them. */
  lemma CreateMixedSheet(workbooks: seq<Workbook>, kind: TusdOrTe, wss: seq<Grid>, pairs: seq<Pair>)
    requires wss == MainWorksheets(workbooks, kind)
    requires HeadersAndTariffs(wss, HeaderLabels(wss)) == Success(pairs)
    ensures CreateMixed(workbooks, kind) == Success(MixedSheet(wss, pairs))
    ensures CreateMixedAligned(workbooks, kind) == Success(AlignedSheet(wss, pairs))
  {
  }

  /**
   * The sheet as written holds, in pair i's column at row
   * `AsWrittenOffset(i, j) + k + 1`, file j's k-th value for the pair.
   */
  lemma CreateMixedCells(workbooks: seq<Workbook>, kind: TusdOrTe, wss: seq<Grid>, pairs: seq<Pair>,
                         i: nat, j: nat, k: nat, row: nat, col: nat)
    requires wss == MainWorksheets(workbooks, kind)
    requires HeadersAndTariffs(wss, HeaderLabels(wss)) == Success(pairs)
    requires i < |pairs| && j < |wss| && k < |SegmentsAsWritten(wss, pairs, i)[j]|
    requires row == AsWrittenOffset(wss, pairs, i, j) + k + 1 && col == i + 1
    ensures CreateMixed(workbooks, kind).Success?
    ensures SheetCell(CreateMixed(workbooks, kind).value, row, Width(Cleaned(wss)) + col)
      == Expected(wss[j], pairs[i], FilesColumnsAsWritten(wss[j], pairs)[i], j == 0, k)
  {
    CreateMixedSheet(workbooks, kind, wss, pairs);
    MixedSheetData(wss, pairs, i, j, k, row, col);
  }

  /**
   * The corrected sheet holds, in pair i's column at the row of file j's row
   * `FirstRow + r`, that row's value for the pair.
   */
  lemma CreateMixedAlignedCells(workbooks: seq<Workbook>, kind: TusdOrTe, wss: seq<Grid>, pairs: seq<Pair>,
                                i: nat, j: nat, r: nat, row: nat, col: nat)
    requires wss == MainWorksheets(workbooks, kind)
    requires HeadersAndTariffs(wss, HeaderLabels(wss)) == Success(pairs)
    requires forall m :: 0 <= m < |wss| ==> wss[m].maxRow >= 2
    requires i < |pairs| && j < |wss| && r < KeptRows(wss[j], j == 0)
    requires row == RowOffset(wss, j) + r + 1 && col == i + 1
    ensures CreateMixedAligned(workbooks, kind).Success?
    ensures SheetCell(CreateMixedAligned(workbooks, kind).value, row, Width(Cleaned(wss)) + col)
      == Expected(wss[j], pairs[i], FirstColumn(wss[j], pairs[i]), j == 0, r)
  {
    CreateMixedSheet(workbooks, kind, wss, pairs);
    AlignedSheetData(wss, pairs, i, j, r, row, col);
  }

  /**
   * Both sheets hold, in the row of file j's row `FirstRow + r`, that row's
   * cells in their first 17 columns.
   */
  lemma CreateMixedLeft(workbooks: seq<Workbook>, kind: TusdOrTe, wss: seq<Grid>, pairs: seq<Pair>,
                        j: nat, r: nat, c: nat, row: nat)
    requires wss == MainWorksheets(workbooks, kind)
    requires HeadersAndTariffs(wss, HeaderLabels(wss)) == Success(pairs)
    requires j < |wss| && r < KeptRows(wss[j], j == 0) && 1 <= c <= Min(17, wss[j].maxCol)
    requires row == RowOffset(wss, j) + r + 1
    ensures CreateMixed(workbooks, kind).Success? && CreateMixedAligned(workbooks, kind).Success?
    ensures SheetCell(CreateMixed(workbooks, kind).value, row, c) == CellAt(wss[j], FirstRow(j == 0) + r, c)
    ensures SheetCell(CreateMixedAligned(workbooks, kind).value, row, c) == CellAt(wss[j], FirstRow(j == 0) + r, c)
  {
    CreateMixedSheet(workbooks, kind, wss, pairs);
    CleanedLeft(wss, DataSheet(MixedData(wss, pairs)), j, r, c);
    CleanedLeft(wss, DataSheet(AlignedData(wss, pairs)), j, r, c);
  }
}
