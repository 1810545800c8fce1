/**
 * The "TABELAS REH" tab (app/modules/tabs/reh_tables_data.py): two tariff
 * tables found by their header labels wherever they sit on the tab, read
 * column by column below each label and zipped into one twelve-column table.
 * Columns only one of the two tables has are padded with "Não se aplica".
 */
module Reh {
  import opened Wrappers
  import opened Cells
  import opened Grid
  import opened Locator
  import opened Tables

  const RehTab: string := "TABELAS REH"

  /** The placeholder for a column a table does not have. */
  const NotApplicable: Cell := T("Não se aplica")

  const RehHeader: Row := [
    T("SUBGRUPO"), T("MODALIDADE"), T("ACESSANTE"), T("CLASSE"), T("SUBCLASSE"), T("Posto Tarifário"),
    T("TUSD Aplicação R$/kW"), T("TUSD Aplicação R$/MWh"), T("TE Aplicação R$/MWh"),
    T("TUSD BE R$/kW"), T("TUSD BE R$/MWh"), T("TE BE R$/MWh")
  ]

  /** A position the locator can report: inside the sheet's extent, rows and columns from 1. */
  predicate InSheet(g: Grid, p: Coord) {
    1 <= p.0 <= g.maxRow && 1 <= p.1 <= g.maxCol
  }

  predicate AllInSheet(g: Grid, ps: seq<Coord>) {
    forall k :: 0 <= k < |ps| ==> InSheet(g, ps[k])
  }

  /** Everything the locator reports lies in the sheet. */
  lemma {:induction false} LocatedInSheet(g: Grid, value: Cell)
    ensures AllInSheet(g, RowsAndColumnsFrom(g, value))
  {
    var ps := RowsAndColumnsFrom(g, value);
    forall k | 0 <= k < |ps|
      ensures InSheet(g, ps[k])
    {
      assert ps[k] in ps;
    }
  }

  /**
   * `load_values(tab, column - 1, "column", row + jump)` for the label at
   * (row, column): the values `jump` rows below it and down, never ending in None.
   */
  function ColumnBelow(g: Grid, p: Coord, jump: nat): (r: seq<Cell>)
    requires p.0 >= 1 && p.1 >= 1
    ensures forall k :: 0 <= k < |r| ==> r[k] == Resolve(g, p.0 + jump + k, p.1)
    ensures |r| > 0 ==> r[|r| - 1].Some?
  {
    LoadValues(g, p.1 - 1, AlongColumn, p.0 + jump).value
  }

  /** The column below each position of `ps`, in list order. */
  function ColumnsBelow(g: Grid, ps: seq<Coord>, jump: nat): (cols: seq<seq<Cell>>)
    requires AllInSheet(g, ps)
    ensures |cols| == |ps| && forall k {:trigger cols[k]} :: 0 <= k < |ps| ==> cols[k] == ColumnBelow(g, ps[k], jump)
  {
    seq(|ps|, k requires 0 <= k < |ps| => ColumnBelow(g, ps[k], jump))
  }

  /**
   * The loop body of `_get_info_from`, `info += load_values(...)`, run over
   * `ps`: the columns below each position, one after another in list order.
   */
  function Gather(g: Grid, ps: seq<Coord>, jump: nat): (r: seq<Cell>)
    requires AllInSheet(g, ps)
    ensures r == Flatten(ColumnsBelow(g, ps, jump))
  {
    if |ps| == 0 then []
    else
      var init := ps[..|ps| - 1];
      assert ColumnsBelow(g, ps, jump)[..|ps| - 1] == ColumnsBelow(g, init, jump);
      Gather(g, init, jump) + ColumnBelow(g, ps[|ps| - 1], jump)
  }

  /** Every gathered value was read below one of the positions. */
  lemma {:induction false} GatherProvenance(g: Grid, ps: seq<Coord>, jump: nat)
    requires AllInSheet(g, ps)
    ensures forall i :: 0 <= i < |Gather(g, ps, jump)| ==>
      exists k :: 0 <= k < |ps| && Gather(g, ps, jump)[i] in ColumnBelow(g, ps[k], jump)
  {
    var cols := ColumnsBelow(g, ps, jump);
    forall i | 0 <= i < |Gather(g, ps, jump)|
      ensures exists k :: 0 <= k < |ps| && Gather(g, ps, jump)[i] in ColumnBelow(g, ps[k], jump)
    {
      FlattenMember(cols, i);
      var k :| 0 <= k < |cols| && Flatten(cols)[i] in cols[k];
    }
  }

  /** Gathering over one more position appends its column. */
  lemma GatherSnoc(g: Grid, ps: seq<Coord>, p: Coord, jump: nat)
    requires AllInSheet(g, ps) && InSheet(g, p)
    ensures AllInSheet(g, ps + [p])
    ensures Gather(g, ps + [p], jump) == Gather(g, ps, jump) + ColumnBelow(g, p, jump)
  {
    assert (ps + [p])[..|ps|] == ps;
  }

  /** Gathering over two lists of positions is gathering over each, joined. */
  lemma {:induction false} GatherConcat(g: Grid, ps: seq<Coord>, qs: seq<Coord>, jump: nat)
    requires AllInSheet(g, ps) && AllInSheet(g, qs)
    ensures AllInSheet(g, ps + qs)
    ensures Gather(g, ps + qs, jump) == Gather(g, ps, jump) + Gather(g, qs, jump)
  {
    var cp, cq := ColumnsBelow(g, ps, jump), ColumnsBelow(g, qs, jump);
    ColumnsBelowConcat(g, ps, qs, jump);
    FlattenConcat(cp, cq);
  }

  /** The columns below two lists of positions, one list after the other. */
  lemma {:induction false} ColumnsBelowConcat(g: Grid, ps: seq<Coord>, qs: seq<Coord>, jump: nat)
    requires AllInSheet(g, ps) && AllInSheet(g, qs)
    ensures AllInSheet(g, ps + qs)
    ensures ColumnsBelow(g, ps + qs, jump) == ColumnsBelow(g, ps, jump) + ColumnsBelow(g, qs, jump)
  {
    assert AllInSheet(g, ps + qs);
    var f := (p: Coord) => if p.0 >= 1 && p.1 >= 1 then ColumnBelow(g, p, jump) else [];
    ConcatOfPointwise(ps, qs, ColumnsBelow(g, ps + qs, jump), ColumnsBelow(g, ps, jump), ColumnsBelow(g, qs, jump), f);
  }

  /**
   * `_get_info_from(name, tab, jump)`: for every cell holding `name`, in
   * locator order, the column from `jump` rows below it, all joined.
   */
  function InfoFrom(g: Grid, name: string, jump: nat): (r: seq<Cell>)
    ensures AllInSheet(g, RowsAndColumnsFrom(g, T(name)))
    ensures r == Flatten(ColumnsBelow(g, RowsAndColumnsFrom(g, T(name)), jump))
    ensures forall i :: 0 <= i < |r| ==> exists p :: IsMatch(g, T(name), p) && r[i] in ColumnBelow(g, p, jump)
  {
    var ps := RowsAndColumnsFrom(g, T(name));
    LocatedInSheet(g, T(name));
    GatherProvenance(g, ps, jump);
    assert forall k :: 0 <= k < |ps| ==> IsMatch(g, T(name), ps[k]) by {
      forall k | 0 <= k < |ps| ensures IsMatch(g, T(name), ps[k]) { assert ps[k] in ps; }
    }
    Gather(g, ps, jump)
  }

  /** Without the label on the tab there is nothing to read. */
  lemma {:induction false} InfoFromAbsent(g: Grid, name: string, jump: nat)
    requires forall p :: !IsMatch(g, T(name), p)
    ensures InfoFrom(g, name, jump) == []
  {
    RowsAndColumnsFromUnique(g, T(name), []);
  }

  /** A label found at exactly p and q, p first: the locator reports [p, q]. */
  lemma LocatedTwo(g: Grid, value: Cell, p: Coord, q: Coord)
    requires CoordLess(p, q)
    requires forall s :: IsMatch(g, value, s) <==> s == p || s == q
    ensures InSheet(g, p) && InSheet(g, q)
    ensures RowsAndColumnsFrom(g, value) == [p, q]
  {
    assert IsMatch(g, value, p) && IsMatch(g, value, q);
    assert Sorted([p, q]);
    RowsAndColumnsFromUnique(g, value, [p, q]);
  }

  /** Gathering below two positions is p's column, then q's. */
  lemma GatherTwo(g: Grid, p: Coord, q: Coord, jump: nat)
    requires InSheet(g, p) && InSheet(g, q)
    ensures AllInSheet(g, [p, q])
    ensures Gather(g, [p, q], jump) == ColumnBelow(g, p, jump) + ColumnBelow(g, q, jump)
  {
    var cols := ColumnsBelow(g, [p, q], jump);
    assert cols == [ColumnBelow(g, p, jump)] + [ColumnBelow(g, q, jump)];
    FlattenSnoc([ColumnBelow(g, p, jump)], ColumnBelow(g, q, jump));
    FlattenSingle(ColumnBelow(g, p, jump));
  }

  /** Labels at p and q, p first in locator order: p's column, then q's. */
  lemma InfoFromTwo(g: Grid, name: string, jump: nat, p: Coord, q: Coord)
    requires CoordLess(p, q)
    requires forall s :: IsMatch(g, T(name), s) <==> s == p || s == q
    ensures InSheet(g, p) && InSheet(g, q)
    ensures InfoFrom(g, name, jump) == ColumnBelow(g, p, jump) + ColumnBelow(g, q, jump)
  {
    LocatedTwo(g, T(name), p, q);
    GatherTwo(g, p, q, jump);
  }

  /**
   * The label cell `_get_table_length` measures from: the first ("SUBGRUPO"
   * of the first table) or second located "SUBGRUPO", or the fixed (2, 1) or
   * (2, 12) when there is none; asking for the second of only one is an IndexError.
   */
  function TableAnchor(g: Grid, firstTable: bool): (r: Outcome<Coord>)
    ensures r.Failure? <==> !firstTable && |RowsAndColumnsFrom(g, T("SUBGRUPO"))| == 1
    ensures r.Failure? ==> r.error == IndexOutOfRange
    ensures r.Success? ==> r.value.0 >= 1 && r.value.1 >= 1
    ensures r.Success? && (forall p :: !IsMatch(g, T("SUBGRUPO"), p)) ==> r.value == (if firstTable then (2, 1) else (2, 12))
    ensures r.Success? && firstTable && (exists p :: IsMatch(g, T("SUBGRUPO"), p)) ==>
      IsMatch(g, T("SUBGRUPO"), r.value)
      && forall p :: IsMatch(g, T("SUBGRUPO"), p) && p != r.value ==> CoordLess(r.value, p)
    ensures r.Success? && !firstTable && (exists p :: IsMatch(g, T("SUBGRUPO"), p)) ==>
      IsMatch(g, T("SUBGRUPO"), r.value)
      && (exists p :: IsMatch(g, T("SUBGRUPO"), p) && CoordLess(p, r.value))
      && forall p, q :: (IsMatch(g, T("SUBGRUPO"), p) && CoordLess(p, r.value)
        && IsMatch(g, T("SUBGRUPO"), q) && CoordLess(q, r.value)) ==> p == q
  {
    var subs := RowsAndColumnsFrom(g, T("SUBGRUPO"));
    if |subs| > 0 then
      var index := if firstTable then 0 else 1;
      if index < |subs| then
        AnchorIsRanked(g, subs, index);
        Success(subs[index])
      else Failure(IndexOutOfRange)
    else
      NoMatchesWhenEmpty(g, T("SUBGRUPO"));
      Success(if firstTable then (2, 1) else (2, 12))
  }

  lemma {:induction false} NoMatchesWhenEmpty(g: Grid, value: Cell)
    requires |RowsAndColumnsFrom(g, value)| == 0
    ensures forall p :: !IsMatch(g, value, p)
  {
  }

  /** The first located cell precedes every other match; the second is preceded by the first alone. */
  lemma {:induction false} AnchorIsRanked(g: Grid, subs: seq<Coord>, index: nat)
    requires subs == RowsAndColumnsFrom(g, T("SUBGRUPO")) && index < |subs| && index <= 1
    ensures IsMatch(g, T("SUBGRUPO"), subs[index])
    ensures index == 0 ==> forall p :: IsMatch(g, T("SUBGRUPO"), p) && p != subs[0] ==> CoordLess(subs[0], p)
    ensures index == 1 ==> IsMatch(g, T("SUBGRUPO"), subs[0]) && CoordLess(subs[0], subs[1])
    ensures index == 1 ==> forall p :: IsMatch(g, T("SUBGRUPO"), p) && CoordLess(p, subs[1]) ==> p == subs[0]
  {
    assert subs[index] in subs;
    if index == 0 {
      forall p | IsMatch(g, T("SUBGRUPO"), p) && p != subs[0]
        ensures CoordLess(subs[0], p)
      {
        SortedHeadIsLeast(subs, p);
      }
    } else {
      assert subs[0] in subs;
      forall p | IsMatch(g, T("SUBGRUPO"), p) && CoordLess(p, subs[1])
        ensures p == subs[0]
      {
        var m :| 0 <= m < |subs| && subs[m] == p;
        SortedPrecedes(subs, m, 1);
      }
    }
  }

  /** `_get_table_length(first_table, tab)`: how many values lie three rows below the anchor. */
  function TableLength(g: Grid, firstTable: bool): (r: Outcome<nat>)
    ensures r.Failure? <==> TableAnchor(g, firstTable).Failure?
    ensures r.Failure? ==> r.error == IndexOutOfRange
    ensures r.Success? ==> r.value == |ColumnBelow(g, TableAnchor(g, firstTable).value, 3)|
  {
    var anchor :- TableAnchor(g, firstTable);
    Success(|ColumnBelow(g, anchor, 3)|)
  }

  /**
   * `n` placeholders put before the values (`before`) or after them: the
   * values keep their order, and every other position is a placeholder.
   */
  function Padded(values: seq<Cell>, n: nat, before: bool): (r: seq<Cell>)
    ensures |r| == n + |values|
    ensures before ==> forall k :: 0 <= k < n ==> r[k] == NotApplicable
    ensures before ==> forall k :: 0 <= k < |values| ==> r[n + k] == values[k]
    ensures !before ==> forall k :: 0 <= k < |values| ==> r[k] == values[k]
    ensures !before ==> forall k :: |values| <= k < |r| ==> r[k] == NotApplicable
  {
    if before then Repeat(NotApplicable, n) + values else values + Repeat(NotApplicable, n)
  }

  /**
   * `_get_extended_info_from(name, first_table, tab)`: the column's values
   * with one placeholder per row of the table that lacks it — before them for
   * the first table, after them for the second. Only the second table's
   * length lookup can fail.
   */
  function ExtendedInfo(g: Grid, name: string, firstTable: bool): (r: Outcome<seq<Cell>>)
    ensures firstTable ==> r.Success?
    ensures r.Failure? <==> !firstTable && |RowsAndColumnsFrom(g, T("SUBGRUPO"))| == 1
    ensures r.Failure? ==> r.error == IndexOutOfRange
    ensures r.Success? ==> r.value == Padded(InfoFrom(g, name, 3), TableLength(g, firstTable).value, firstTable)
  {
    var length :- TableLength(g, firstTable);
    Success(Padded(InfoFrom(g, name, 3), length, firstTable))
  }

  /**
   * With the two tables' "SUBGRUPO" labels at p and q, the subgroup column
   * is p's rows then q's, and a column only one table has is padded so its
   * values line up with that table's rows: the first table's padding is as
   * long as p's rows, the second table's as long as q's.
   */
  lemma ExtendedInfoLinesUp(g: Grid, name: string, p: Coord, q: Coord)
    requires CoordLess(p, q)
    requires forall s :: IsMatch(g, T("SUBGRUPO"), s) <==> s == p || s == q
    ensures InSheet(g, p) && InSheet(g, q)
    ensures InfoFrom(g, "SUBGRUPO", 3) == ColumnBelow(g, p, 3) + ColumnBelow(g, q, 3)
    ensures ExtendedInfo(g, name, true) == Success(Padded(InfoFrom(g, name, 3), |ColumnBelow(g, p, 3)|, true))
    ensures ExtendedInfo(g, name, false) == Success(Padded(InfoFrom(g, name, 3), |ColumnBelow(g, q, 3)|, false))
  {
    LocatedTwo(g, T("SUBGRUPO"), p, q);
    GatherTwo(g, p, q, 3);
    TableLengthsOfTwo(g, p, q);
  }

  /** With the "SUBGRUPO" labels located at [p, q], the first table is measured below p, the second below q. */
  lemma TableLengthsOfTwo(g: Grid, p: Coord, q: Coord)
    requires InSheet(g, p) && InSheet(g, q)
    requires RowsAndColumnsFrom(g, T("SUBGRUPO")) == [p, q]
    ensures TableLength(g, true) == Success(|ColumnBelow(g, p, 3)|)
    ensures TableLength(g, false) == Success(|ColumnBelow(g, q, 3)|)
  {
    assert TableAnchor(g, true) == Success(p);
    assert TableAnchor(g, false) == Success(q);
  }

  /** Whether row `row` resolves to None everywhere from column `col` to the sheet's edge. */
  predicate BlankFrom(g: Grid, row: int, col: int) {
    forall k :: col <= k <= g.maxCol ==> Resolve(g, row, k).None?
  }

  /**
   * The first value of the row d above the label at p, read rightwards from
   * p's column: openpyxl refuses a row below 1, and indexing an empty read
   * is an IndexError.
   */
  function UpperValue(g: Grid, p: Coord, d: nat): (r: Outcome<Cell>)
    requires InSheet(g, p)
    ensures p.0 <= d ==> r == Failure(BadCoordinate)
    ensures p.0 > d ==> (r.Success? <==> !BlankFrom(g, p.0 - d, p.1))
    ensures p.0 > d && r.Failure? ==> r.error == IndexOutOfRange
    ensures r.Success? ==> r.value == Resolve(g, p.0 - d, p.1)
  {
    var values :- LoadValues(g, p.0 - d - 1, AlongRow, p.1);
    if |values| == 0 then
      EmptyReadIsBlank(g, p, d);
      Failure(IndexOutOfRange)
    else
      ValuesFromRow(g, p, d, values);
      Success(values[0])
  }

  lemma {:induction false} EmptyReadIsBlank(g: Grid, p: Coord, d: nat)
    requires InSheet(g, p)
    requires LoadValues(g, p.0 - d - 1, AlongRow, p.1) == Success([])
    ensures p.0 > d && BlankFrom(g, p.0 - d, p.1)
  {
    var row := p.0 - d;
    var propagated := PropagateMergedValues(g, row, AlongRow, p.1).value;
    assert RemoveEmptyValues(propagated) == [];
    forall k | p.1 <= k <= g.maxCol
      ensures Resolve(g, row, k).None?
    {
      assert propagated[k - p.1] == Resolve(g, row, k);
    }
  }

  lemma {:induction false} ValuesFromRow(g: Grid, p: Coord, d: nat, values: seq<Cell>)
    requires InSheet(g, p)
    requires LoadValues(g, p.0 - d - 1, AlongRow, p.1) == Success(values) && |values| > 0
    ensures p.0 > d && !BlankFrom(g, p.0 - d, p.1)
    ensures values[0] == Resolve(g, p.0 - d, p.1)
  {
    var last := |values| - 1;
    assert values[last] == Resolve(g, p.0 - d, p.1 + last);
  }

  /**
   * Whether the column under the unit label at p belongs to the wanted
   * block: "TUSD" or "TE" one row above it and the tariff type two rows above.
   */
  predicate Qualifies(g: Grid, p: Coord, kind: string, typ: string) {
    p.0 > 2 && Resolve(g, p.0 - 1, p.1) == T(kind) && Resolve(g, p.0 - 2, p.1) == T(typ)
  }

  /** One pass of the loop in `_get_tusd_or_te_info`: the label's column when both labels above it match. */
  function TusdOrTeStep(g: Grid, p: Coord, kind: string, typ: string): (r: Outcome<seq<Cell>>)
    requires InSheet(g, p)
    ensures r.Success? && Qualifies(g, p, kind, typ) ==> r.value == ColumnBelow(g, p, 1)
    ensures r.Success? && !Qualifies(g, p, kind, typ) ==> r.value == []
    ensures Qualifies(g, p, kind, typ) ==> r.Success?
    ensures p.0 == 1 ==> r == Failure(BadCoordinate)
    ensures p.0 >= 2 && BlankFrom(g, p.0 - 1, p.1) ==> r == Failure(IndexOutOfRange)
    ensures p.0 == 2 && Resolve(g, 1, p.1) == T(kind) ==> r == Failure(BadCoordinate)
    ensures r.Failure? ==> r.error == BadCoordinate || r.error == IndexOutOfRange
  {
    var upper :- UpperValue(g, p, 1);
    if upper != T(kind) then Success([])
    else
      var upperType :- UpperValue(g, p, 2);
      if upperType != T(typ) then Success([]) else Success(ColumnBelow(g, p, 1))
  }

  /** The steps over `ps` in order; the first failing step ends the loop. */
  function TusdOrTeLoop(g: Grid, ps: seq<Coord>, kind: string, typ: string): (r: Outcome<seq<Cell>>)
    requires AllInSheet(g, ps)
    ensures r.Failure? ==> r.error == BadCoordinate || r.error == IndexOutOfRange
  {
    if |ps| == 0 then Success([])
    else
      var front :- TusdOrTeLoop(g, ps[..|ps| - 1], kind, typ);
      var step :- TusdOrTeStep(g, ps[|ps| - 1], kind, typ);
      Success(front + step)
  }

  /** Every step of the loop over `ps`, taken whether or not an earlier one failed. */
  function TusdOrTeSteps(g: Grid, ps: seq<Coord>, kind: string, typ: string): (r: seq<Outcome<seq<Cell>>>)
    requires AllInSheet(g, ps)
    ensures |r| == |ps|
  {
    if |ps| == 0 then []
    else TusdOrTeSteps(g, ps[..|ps| - 1], kind, typ) + [TusdOrTeStep(g, ps[|ps| - 1], kind, typ)]
  }

  lemma {:induction false} TusdOrTeStepsAt(g: Grid, ps: seq<Coord>, kind: string, typ: string, k: nat)
    requires AllInSheet(g, ps) && k < |ps|
    ensures TusdOrTeSteps(g, ps, kind, typ)[k] == TusdOrTeStep(g, ps[k], kind, typ)
  {
    var init := ps[..|ps| - 1];
    var front := TusdOrTeSteps(g, init, kind, typ);
    var last := TusdOrTeStep(g, ps[|ps| - 1], kind, typ);
    assert TusdOrTeSteps(g, ps, kind, typ) == front + [last];
    if k < |ps| - 1 {
      TusdOrTeStepsAt(g, init, kind, typ, k);
      assert init[k] == ps[k];
      assert (front + [last])[k] == front[k];
    }
  }

  /** The loop stops where running every step in order would first fail, with that step's error. */
  lemma {:induction false} TusdOrTeLoopIsSequence(g: Grid, ps: seq<Coord>, kind: string, typ: string)
    requires AllInSheet(g, ps)
    ensures TusdOrTeLoop(g, ps, kind, typ).Success? == Sequence(TusdOrTeSteps(g, ps, kind, typ)).Success?
    ensures TusdOrTeLoop(g, ps, kind, typ).Failure? ==>
      TusdOrTeLoop(g, ps, kind, typ).error == Sequence(TusdOrTeSteps(g, ps, kind, typ)).error
  {
    if |ps| > 0 {
      var steps := TusdOrTeSteps(g, ps, kind, typ);
      var init := ps[..|ps| - 1];
      TusdOrTeLoopIsSequence(g, init, kind, typ);
      assert steps[..|steps| - 1] == TusdOrTeSteps(g, init, kind, typ);
    }
  }

  /** The loop fails exactly when one of its steps does, and then with the first step's error. */
  lemma TusdOrTeLoopFails(g: Grid, ps: seq<Coord>, kind: string, typ: string)
    requires AllInSheet(g, ps)
    ensures TusdOrTeLoop(g, ps, kind, typ).Success? <==>
      forall k :: 0 <= k < |ps| ==> TusdOrTeStep(g, ps[k], kind, typ).Success?
    ensures TusdOrTeLoop(g, ps, kind, typ).Failure? ==> exists k :: (0 <= k < |ps|
      && TusdOrTeStep(g, ps[k], kind, typ) == Failure(TusdOrTeLoop(g, ps, kind, typ).error)
      && forall j :: 0 <= j < k ==> TusdOrTeStep(g, ps[j], kind, typ).Success?)
  {
    TusdOrTeLoopIsSequence(g, ps, kind, typ);
    forall k | 0 <= k < |ps|
      ensures TusdOrTeSteps(g, ps, kind, typ)[k] == TusdOrTeStep(g, ps[k], kind, typ)
    {
      TusdOrTeStepsAt(g, ps, kind, typ, k);
    }
  }

  /** The positions of `ps` whose column the loop keeps, in order. */
  function Selected(g: Grid, ps: seq<Coord>, kind: string, typ: string): (r: seq<Coord>)
    requires AllInSheet(g, ps)
    ensures AllInSheet(g, r)
    ensures forall p :: p in r <==> p in ps && Qualifies(g, p, kind, typ)
    ensures Sorted(ps) ==> Sorted(r)
  {
    if |ps| == 0 then []
    else
      var init := Selected(g, ps[..|ps| - 1], kind, typ);
      assert ps == ps[..|ps| - 1] + [ps[|ps| - 1]];
      assert Sorted(ps) ==> forall i :: 0 <= i < |init| ==> CoordLess(init[i], ps[|ps| - 1]) by {
        if Sorted(ps) {
          forall i | 0 <= i < |init|
            ensures CoordLess(init[i], ps[|ps| - 1])
          {
            assert init[i] in init;
            var k :| 0 <= k < |ps| - 1 && ps[..|ps| - 1][k] == init[i];
            assert ps[k] == init[i];
          }
        }
      }
      init + (if Qualifies(g, ps[|ps| - 1], kind, typ) then [ps[|ps| - 1]] else [])
  }

  /** A successful loop yields the columns of exactly the qualifying positions, in order. */
  lemma {:induction false} TusdOrTeLoopValue(g: Grid, ps: seq<Coord>, kind: string, typ: string)
    requires AllInSheet(g, ps)
    requires TusdOrTeLoop(g, ps, kind, typ).Success?
    ensures TusdOrTeLoop(g, ps, kind, typ).value == Gather(g, Selected(g, ps, kind, typ), 1)
  {
    if |ps| > 0 {
      var init := ps[..|ps| - 1];
      var last := ps[|ps| - 1];
      TusdOrTeLoopValue(g, init, kind, typ);
      var sel := Selected(g, init, kind, typ);
      if Qualifies(g, last, kind, typ) {
        GatherSnoc(g, sel, last, 1);
      } else {
        assert sel + [] == sel;
      }
    }
  }

  /**
   * `_get_tusd_or_te_info(kind, unit, type, tab)`: for every cell holding the
   * unit, in locator order, its column from the next row down, kept only when
   * the cells above it name the tariff kind and the tariff type.
   */
  function TusdOrTeInfo(g: Grid, kind: string, unit: string, typ: string): (r: Outcome<seq<Cell>>)
    ensures r.Failure? ==> r.error == BadCoordinate || r.error == IndexOutOfRange
  {
    LocatedInSheet(g, T(unit));
    TusdOrTeLoop(g, RowsAndColumnsFrom(g, T(unit)), kind, typ)
  }

  /**
   * When it succeeds, the result is the columns below the unit labels whose
   * two upper neighbours name the tariff kind and type, in locator order.
   */
  lemma {:induction false} TusdOrTeInfoValue(g: Grid, kind: string, unit: string, typ: string)
    requires TusdOrTeInfo(g, kind, unit, typ).Success?
    ensures AllInSheet(g, RowsAndColumnsFrom(g, T(unit)))
    ensures TusdOrTeInfo(g, kind, unit, typ).value == Gather(g, Selected(g, RowsAndColumnsFrom(g, T(unit)), kind, typ), 1)
  {
    LocatedInSheet(g, T(unit));
    TusdOrTeLoopValue(g, RowsAndColumnsFrom(g, T(unit)), kind, typ);
  }

  /** A unit label in the sheet's first row has no row above it to read: the lookup fails. */
  lemma {:induction false} TusdOrTeInfoTopRow(g: Grid, kind: string, unit: string, typ: string, c: nat)
    requires IsMatch(g, T(unit), (1, c))
    ensures TusdOrTeInfo(g, kind, unit, typ) == Failure(BadCoordinate)
      || TusdOrTeInfo(g, kind, unit, typ) == Failure(IndexOutOfRange)
  {
    LocatedInSheet(g, T(unit));
    var ps := RowsAndColumnsFrom(g, T(unit));
    assert (1, c) in ps;
    var k :| 0 <= k < |ps| && ps[k] == (1, c);
    assert TusdOrTeStep(g, ps[k], kind, typ).Failure?;
    TusdOrTeLoopFails(g, ps, kind, typ);
  }

  /** The twelve columns in header order, zipped under the header. */
  function RehTable(cols: seq<seq<Cell>>): (r: Sheet)
    requires |cols| == 12
    ensures |r| == 1 + MinLen(cols) && r[0] == RehHeader
    ensures forall i :: 1 <= i < |r| ==> |r[i]| == 12
    ensures forall i, j :: 1 <= i < |r| && 0 <= j < 12 ==> r[i][j] == cols[j][i - 1]
  {
    [RehHeader] + Zip(cols)
  }

  /**
   * The seven reads of `load_reh_tables_sheet` that can fail, in the source's
   * order: the accessor column, then the three applied and the three base
   * tariff columns.
   */
  function RehReads(g: Grid): (r: seq<Outcome<seq<Cell>>>)
    ensures |r| == 7
    ensures r[0] == ExtendedInfo(g, "ACESSANTE", false)
    ensures forall k :: 0 <= k < 7 && r[k].Failure? ==> r[k].error == BadCoordinate || r[k].error == IndexOutOfRange
  {
    [ExtendedInfo(g, "ACESSANTE", false),
     TusdOrTeInfo(g, "TUSD", "R$/kW", "TARIFAS DE APLICAÇÃO"),
     TusdOrTeInfo(g, "TUSD", "R$/MWh", "TARIFAS DE APLICAÇÃO"),
     TusdOrTeInfo(g, "TE", "R$/MWh", "TARIFAS DE APLICAÇÃO"),
     TusdOrTeInfo(g, "TUSD", "R$/kW", "BASE ECONÔMICA"),
     TusdOrTeInfo(g, "TUSD", "R$/MWh", "BASE ECONÔMICA"),
     TusdOrTeInfo(g, "TE", "R$/MWh", "BASE ECONÔMICA")]
  }

  /**
   * The twelve columns `load_reh_tables_sheet` zips, in header order: the
   * subgroup, modality, class, subclass and post columns never fail, and the
   * whole succeeds exactly when the seven other reads do, each then filling
   * its column; otherwise the error is that of the first of them to fail.
   */
  function RehColumns(g: Grid): (r: Outcome<seq<seq<Cell>>>)
    ensures r.Success? ==> |r.value| == 12
    ensures r.Success? <==> forall k :: 0 <= k < 7 ==> RehReads(g)[k].Success?
    ensures r.Success? ==>
      && r.value[0] == InfoFrom(g, "SUBGRUPO", 3)
      && r.value[1] == InfoFrom(g, "MODALIDADE", 3)
      && r.value[2] == RehReads(g)[0].value
      && r.value[3] == ExtendedInfo(g, "CLASSE", true).value
      && r.value[4] == ExtendedInfo(g, "SUBCLASSE", true).value
      && r.value[5] == InfoFrom(g, "POSTO", 3)
      && forall k :: 1 <= k < 7 ==> r.value[5 + k] == RehReads(g)[k].value
    ensures r.Failure? ==> exists k :: (0 <= k < 7 && RehReads(g)[k] == Failure(r.error)
      && forall j :: 0 <= j < k ==> RehReads(g)[j].Success?)
  {
    RehColumnsOf(InfoFrom(g, "SUBGRUPO", 3), InfoFrom(g, "MODALIDADE", 3),
      ExtendedInfo(g, "CLASSE", true).value, ExtendedInfo(g, "SUBCLASSE", true).value, InfoFrom(g, "POSTO", 3),
      RehReads(g))
  }

  /** The five columns that cannot fail and the seven reads that can, placed in header order. */
  function RehColumnsOf(subgroup: seq<Cell>, modality: seq<Cell>, classes: seq<Cell>, subclasses: seq<Cell>, post: seq<Cell>,
    outcomes: seq<Outcome<seq<Cell>>>): (r: Outcome<seq<seq<Cell>>>)
    requires |outcomes| == 7
    ensures r.Success? ==> |r.value| == 12
    ensures r.Success? <==> forall k :: 0 <= k < 7 ==> outcomes[k].Success?
    ensures r.Success? ==>
      && r.value[0] == subgroup && r.value[1] == modality && r.value[2] == outcomes[0].value
      && r.value[3] == classes && r.value[4] == subclasses && r.value[5] == post
      && forall k :: 1 <= k < 7 ==> r.value[5 + k] == outcomes[k].value
    ensures r.Failure? ==> exists k :: (0 <= k < 7 && outcomes[k] == Failure(r.error)
      && forall j :: 0 <= j < k ==> outcomes[j].Success?)
  {
    var values :- Sequence(outcomes);
    Success([subgroup, modality, values[0], classes, subclasses, post,
      values[1], values[2], values[3], values[4], values[5], values[6]])
  }

  /** A failed read of the columns is a bad coordinate or an index out of range, and a tab with one "SUBGRUPO" label fails on the accessor column. */
  lemma RehColumnsErrors(g: Grid)
    ensures RehColumns(g).Failure? ==> RehColumns(g).error == BadCoordinate || RehColumns(g).error == IndexOutOfRange
    ensures |RowsAndColumnsFrom(g, T("SUBGRUPO"))| == 1 ==> RehColumns(g) == Failure(IndexOutOfRange)
  {
    var outcomes := RehReads(g);
    if RehColumns(g).Failure? {
      var k :| 0 <= k < 7 && outcomes[k] == Failure(RehColumns(g).error);
    }
  }

  /**
   * `load_reh_tables_sheet(workbook)`: nothing without the tab; otherwise
   * the twelve columns under the header, cut to the shortest. The second
   * table's length is read from the second "SUBGRUPO" label, so a tab with a
   * single one fails.
   */
  function LoadRehSheet(wb: Workbook): (r: Outcome<Option<Sheet>>)
    ensures r.Success? && r.value.None? <==> RehTab !in wb
    ensures r.Failure? ==> RehTab in wb && (r.error == BadCoordinate || r.error == IndexOutOfRange)
    ensures RehTab in wb && |RowsAndColumnsFrom(wb[RehTab], T("SUBGRUPO"))| == 1 ==> r == Failure(IndexOutOfRange)
    ensures r.Success? && r.value.Some? ==> |r.value.value| >= 1 && r.value.value[0] == RehHeader
    ensures r.Success? && r.value.Some? ==> forall i :: 1 <= i < |r.value.value| ==> |r.value.value[i]| == 12
    ensures RehTab in wb ==> (r.Success? <==> RehColumns(wb[RehTab]).Success?)
    ensures r.Success? && r.value.Some? ==> r.value.value == RehTable(RehColumns(wb[RehTab]).value)
  {
    if RehTab !in wb then Success(None)
    else
      RehColumnsErrors(wb[RehTab]);
      var cols :- RehColumns(wb[RehTab]);
      Success(Some(RehTable(cols)))
  }
}
