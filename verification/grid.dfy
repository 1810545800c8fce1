/**
 * The grid value access layer (app/modules/utils.py): a worksheet as a sparse
 * map of cells with merged ranges, and reading a row or column of it with
 * merged-cell propagation and trailing-None trimming.
 */
module Grid {
  import opened Wrappers
  import opened Cells

  /** A merged rectangle; its value lives in its top-left cell. */
  datatype Range = Range(minRow: int, minCol: int, maxRow: int, maxCol: int) {
    predicate Contains(r: int, c: int) {
      minRow <= r <= maxRow && minCol <= c <= maxCol
    }
  }

  /** A worksheet: stored values at 1-based (row, column), its extent, and its merged ranges in list order. */
  datatype Grid = Grid(cells: map<(int, int), Value>, maxRow: nat, maxCol: nat, merged: seq<Range>)

  /** A workbook: its tabs by name. */
  type Workbook = map<string, Grid>

  /** `workbook[name]`: a KeyError when the tab is absent. */
  function Tab(wb: Workbook, name: string): (r: Outcome<Grid>)
    ensures r.Success? <==> name in wb
    ensures r.Success? ==> r.value == wb[name]
    ensures r.Failure? ==> r.error == MissingSheet(name)
  {
    if name in wb then Success(wb[name]) else Failure(MissingSheet(name))
  }

  /** The raw value of a cell (`worksheet.cell(r, c).value`); merges are not consulted. */
  function CellAt(g: Grid, r: int, c: int): Cell {
    if (r, c) in g.cells then Some(g.cells[(r, c)]) else None
  }

  /** Index of the first merged range, in list order, that contains (r, c). */
  function FirstCover(ranges: seq<Range>, r: int, c: int): (k: Option<nat>)
    ensures k.Some? ==> k.value < |ranges| && ranges[k.value].Contains(r, c)
    ensures k.Some? ==> forall j :: 0 <= j < k.value ==> !ranges[j].Contains(r, c)
    ensures k.None? ==> forall j :: 0 <= j < |ranges| ==> !ranges[j].Contains(r, c)
  {
    if |ranges| == 0 then None
    else if ranges[0].Contains(r, c) then Some(0)
    else
      match FirstCover(ranges[1..], r, c)
      case None => None
      case Some(k) => Some(k + 1)
  }

  /**
   * The value read at (r, c) by `_propagate_merged_values`: a stored value as
   * is; for an empty cell, the top-left value of the first merged range that
   * contains it; otherwise None.
   */
  function Resolve(g: Grid, r: int, c: int): Cell {
    if CellAt(g, r, c).Some? then CellAt(g, r, c)
    else
      match FirstCover(g.merged, r, c)
      case None => None
      case Some(k) => CellAt(g, g.merged[k].minRow, g.merged[k].minCol)
  }

  /**
   * The three ways a read resolves: a stored value wins; an empty cell takes
   * the top-left value of the first range covering it; an uncovered empty
   * cell stays None.
   */
  lemma ResolveCases(g: Grid, r: int, c: int)
    ensures CellAt(g, r, c).Some? ==> Resolve(g, r, c) == CellAt(g, r, c)
    ensures CellAt(g, r, c).None? ==>
      forall k :: 0 <= k < |g.merged| && g.merged[k].Contains(r, c)
        && (forall j :: 0 <= j < k ==> !g.merged[j].Contains(r, c))
        ==> Resolve(g, r, c) == CellAt(g, g.merged[k].minRow, g.merged[k].minCol)
    ensures (forall k :: 0 <= k < |g.merged| ==> !g.merged[k].Contains(r, c)) ==> Resolve(g, r, c) == CellAt(g, r, c)
  {
    if CellAt(g, r, c).None? {
      match FirstCover(g.merged, r, c)
      case None =>
      case Some(k0) =>
        forall k | 0 <= k < |g.merged| && g.merged[k].Contains(r, c)
            && (forall j :: 0 <= j < k ==> !g.merged[j].Contains(r, c))
          ensures k == k0
        {
        }
    }
  }

  /** Which way a sequence is read: along a row (varying column) or down a column (varying row). */
  datatype Direction = AlongRow | AlongColumn

  /** The coordinate of the `offset`-th position along `dir` at the fixed `anchor`. */
  function Position(dir: Direction, anchor: int, offset: int): (int, int) {
    if dir == AlongRow then (anchor, offset) else (offset, anchor)
  }

  /** One past the last position read along `dir`: `max_column + 1` or `max_row + 1`. */
  function End(g: Grid, dir: Direction): nat {
    if dir == AlongRow then g.maxCol + 1 else g.maxRow + 1
  }

  /**
   * `_propagate_merged_values(worksheet, index, direction, start)`: one
   * resolved value per position from `start` to the sheet's extent, none when
   * `start` is past it; openpyxl raises when a coordinate below 1 is read.
   */
  function PropagateMergedValues(g: Grid, index: int, dir: Direction, start: int): (r: Outcome<seq<Cell>>)
    ensures r.Success? <==> start >= End(g, dir) || (index >= 1 && start >= 1)
    ensures r.Failure? ==> r.error == BadCoordinate
    ensures r.Success? ==> |r.value| == if start >= End(g, dir) then 0 else End(g, dir) - start
    ensures r.Success? ==> forall k :: 0 <= k < |r.value| ==>
      var p := Position(dir, index, start + k);
      r.value[k] == Resolve(g, p.0, p.1)
  {
    if start >= End(g, dir) then Success([])
    else if index < 1 || start < 1 then Failure(BadCoordinate)
    else Success(seq(End(g, dir) - start, k requires 0 <= k < End(g, dir) - start =>
      var p := Position(dir, index, start + k); Resolve(g, p.0, p.1)))
  }

  /**
   * `_remove_empty_values`: the longest prefix that ends in a non-None value;
   * everything dropped is None.
   */
  function RemoveEmptyValues(values: seq<Cell>): (r: seq<Cell>)
    ensures |r| <= |values|
    ensures forall k :: 0 <= k < |r| ==> r[k] == values[k]
    ensures forall k :: |r| <= k < |values| ==> values[k].None?
    ensures |r| > 0 ==> r[|r| - 1].Some?
  {
    if |values| == 0 then []
    else if values[|values| - 1].Some? then values
    else RemoveEmptyValues(values[..|values| - 1])
  }

  /** An all-None sequence trims to nothing. */
  lemma RemoveEmptyValuesAllNone(values: seq<Cell>)
    requires forall k :: 0 <= k < |values| ==> values[k].None?
    ensures RemoveEmptyValues(values) == []
  {
  }

  /** The trimmed prefix is unique: any prefix with the two defining properties is it. */
  lemma RemoveEmptyValuesUnique(values: seq<Cell>, p: seq<Cell>)
    requires |p| <= |values| && forall k :: 0 <= k < |p| ==> p[k] == values[k]
    requires forall k :: |p| <= k < |values| ==> values[k].None?
    requires |p| > 0 ==> p[|p| - 1].Some?
    ensures RemoveEmptyValues(values) == p
  {
  }

  /** Trimming is idempotent. */
  lemma RemoveEmptyValuesIdempotent(values: seq<Cell>)
    ensures RemoveEmptyValues(RemoveEmptyValues(values)) == RemoveEmptyValues(values)
  {
    var r := RemoveEmptyValues(values);
    RemoveEmptyValuesUnique(r, r);
  }

  /**
   * `load_values(worksheet, index, direction, start)`: the 0-based `index`
   * names row or column `index + 1`; the propagated values are read from
   * `start` and trimmed, so the result never ends in None.
   */
  function LoadValues(g: Grid, index: int, dir: Direction, start: int): (r: Outcome<seq<Cell>>)
    ensures index >= 0 && start >= 1 ==> r.Success?
    ensures r.Success? ==> |r.value| > 0 ==> r.value[|r.value| - 1].Some?
    ensures r.Success? ==> start + |r.value| <= End(g, dir) || |r.value| == 0
    ensures r.Success? ==> forall k :: 0 <= k < |r.value| ==>
      var p := Position(dir, index + 1, start + k);
      r.value[k] == Resolve(g, p.0, p.1)
  {
    var propagated :- PropagateMergedValues(g, index + 1, dir, start);
    Success(RemoveEmptyValues(propagated))
  }

  /** The values read down the 0-based column `index` from row `start` are that column's resolved cells. */
  lemma ColumnReads(g: Grid, index: nat, start: nat)
    requires start >= 1
    ensures var values := LoadValues(g, index, AlongColumn, start).value;
      forall k :: 0 <= k < |values| ==> values[k] == Resolve(g, start + k, index + 1)
  {
    var values := LoadValues(g, index, AlongColumn, start).value;
    forall k | 0 <= k < |values|
      ensures values[k] == Resolve(g, start + k, index + 1)
    {
      ColumnRead(g, index, start, k);
    }
  }

  /** Value k read down the 0-based column `index` from row `start` is that column's resolved cell in row `start + k`. */
  lemma ColumnRead(g: Grid, index: nat, start: nat, k: nat)
    requires start >= 1
    requires k < |LoadValues(g, index, AlongColumn, start).value|
    ensures LoadValues(g, index, AlongColumn, start).value[k] == Resolve(g, start + k, index + 1)
  {
    assert Position(AlongColumn, index + 1, start + k) == (start + k, index + 1);
  }

  /** Whether position q along `dir` of the 0-based row or column `index` resolves to None. */
  predicate EmptyAlong(g: Grid, index: int, dir: Direction, q: int) {
    var p := Position(dir, index + 1, q);
    Resolve(g, p.0, p.1).None?
  }

  /** Every position read but dropped by the trimming resolves to None. */
  lemma LoadValuesDropped(g: Grid, index: int, dir: Direction, start: int)
    requires index >= 0 && start >= 1
    ensures forall q :: start + |LoadValues(g, index, dir, start).value| <= q < End(g, dir) ==> EmptyAlong(g, index, dir, q)
  {
    var propagated := PropagateMergedValues(g, index + 1, dir, start).value;
    var values := LoadValues(g, index, dir, start).value;
    forall q | start + |values| <= q < End(g, dir)
      ensures EmptyAlong(g, index, dir, q)
    {
      assert propagated[q - start].None?;
    }
  }

  /** Without merged ranges, a read is the raw cells from `start` with trailing empties stripped. */
  lemma LoadValuesWithoutMerges(g: Grid, index: nat, dir: Direction, start: int)
    requires |g.merged| == 0 && start >= 1
    ensures LoadValues(g, index, dir, start) == Success(RemoveEmptyValues(
      seq(if start >= End(g, dir) then 0 else End(g, dir) - start, k =>
        var p := Position(dir, index + 1, start + k); CellAt(g, p.0, p.1))))
  {
    var direct := seq(if start >= End(g, dir) then 0 else End(g, dir) - start, k =>
        var p := Position(dir, index + 1, start + k); CellAt(g, p.0, p.1));
    var propagated := PropagateMergedValues(g, index + 1, dir, start).value;
    assert propagated == direct;
  }

  /** The cells of one row, `max_column` wide, as `iter_rows(min_row=row, max_row=row, values_only=True)` yields them. */
  function RowValues(g: Grid, row: int): (r: seq<Cell>)
    ensures |r| == g.maxCol
    ensures forall c :: 1 <= c <= g.maxCol ==> r[c - 1] == CellAt(g, row, c)
  {
    seq(g.maxCol, k => CellAt(g, row, k + 1))
  }

  /** `list.index(x)`: the first position holding x, a ValueError when there is none. */
  function IndexOf(xs: seq<Cell>, x: Cell): (r: Outcome<nat>)
    ensures r.Success? <==> x in xs
    ensures r.Success? ==> r.value < |xs| && xs[r.value] == x
    ensures r.Success? ==> forall k :: 0 <= k < r.value ==> xs[k] != x
    ensures r.Failure? ==> r.error == NotInList(x)
  {
    if |xs| == 0 then Failure(NotInList(x))
    else if xs[0] == x then Success(0)
    else
      match IndexOf(xs[1..], x)
      case Success(k) => Success(k + 1)
      case Failure(e) => Failure(e)
  }

  /**
   * The column under the header cell `name`, read from row 2:
   * `load_values(tab, header.index(name), "column", 2)`.
   */
  function ColumnByHeader(tab: Grid, header: seq<Cell>, name: string): (r: Outcome<seq<Cell>>)
    ensures r.Success? <==> T(name) in header
    ensures r.Failure? ==> r.error == NotInList(T(name))
    ensures r.Success? ==> exists j :: (0 <= j < |header| && header[j] == T(name)
      && (forall i :: 0 <= i < j ==> header[i] != T(name))
      && r.value == LoadValues(tab, j, AlongColumn, 2).value)
  {
    var j :- IndexOf(header, T(name));
    Success(LoadValues(tab, j, AlongColumn, 2).value)
  }

  /**
   * The columns under several header cells, looked up in order; the first
   * name missing from the header is the error.
   */
  function ColumnsByHeaders(tab: Grid, header: seq<Cell>, names: seq<string>): (r: Outcome<seq<seq<Cell>>>)
    ensures r.Success? <==> forall j :: 0 <= j < |names| ==> T(names[j]) in header
    ensures r.Success? ==> |r.value| == |names|
    ensures r.Success? ==> forall j :: 0 <= j < |names| ==> Success(r.value[j]) == ColumnByHeader(tab, header, names[j])
    ensures r.Failure? ==> exists j :: (0 <= j < |names| && r.error == NotInList(T(names[j]))
      && T(names[j]) !in header && (forall i :: 0 <= i < j ==> T(names[i]) in header))
  {
    ColumnsByHeadersFacts(tab, header, names);
    Sequence(ColumnOutcomes(tab, header, names))
  }

  /** Every name's lookup, in order. */
  function ColumnOutcomes(tab: Grid, header: seq<Cell>, names: seq<string>): (outs: seq<Outcome<seq<Cell>>>)
    ensures |outs| == |names|
    ensures forall j :: 0 <= j < |names| ==> outs[j] == ColumnByHeader(tab, header, names[j])
  {
    seq(|names|, j requires 0 <= j < |names| => ColumnByHeader(tab, header, names[j]))
  }

  /** Running the lookups in order succeeds exactly when every name is in the header, and fails at the first missing one. */
  lemma ColumnsByHeadersFacts(tab: Grid, header: seq<Cell>, names: seq<string>)
    ensures var r := Sequence(ColumnOutcomes(tab, header, names));
      (r.Success? <==> forall j :: 0 <= j < |names| ==> T(names[j]) in header)
      && (r.Failure? ==> exists j :: (0 <= j < |names| && r.error == NotInList(T(names[j]))
        && T(names[j]) !in header && (forall i :: 0 <= i < j ==> T(names[i]) in header)))
  {
    var outs := ColumnOutcomes(tab, header, names);
    var r := Sequence(outs);
    if r.Failure? {
      var k :| 0 <= k < |outs| && outs[k] == Failure(r.error) && forall i :: 0 <= i < k ==> outs[i].Success?;
      assert T(names[k]) !in header && r.error == NotInList(T(names[k]));
      assert forall i :: 0 <= i < k ==> T(names[i]) in header by {
        forall i | 0 <= i < k
          ensures T(names[i]) in header
        {
          assert outs[i].Success?;
        }
      }
    }
  }
}
