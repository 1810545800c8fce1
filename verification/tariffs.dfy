/**
 * The "TUSD" and "TE" tariff-schedule tabs (app/modules/tabs/tusd_or_te_data.py):
 * an attribute block read from the four tariff tabs, one column per tab after
 * another, with the tariff columns of each tab stacked and placed to its right.
 */
module Tariffs {
  import opened Wrappers
  import opened Cells
  import opened Grid
  import opened Tables

  /** Which tariff component is processed, and the tabs that describe it. */
  datatype TusdOrTe = TUSD | TE {
    function MainTab(): string {
      if this == TUSD then "TUSD" else "TE"
    }

    function ReferenceTab(): string {
      if this == TUSD then "TR TUSD" else "TR TE"
    }

    /** The four tariff tabs, the reference tab first. */
    function TariffTypes(): (r: seq<string>)
      ensures |r| == 4 && r[0] == ReferenceTab()
    {
      if this == TUSD then ["TR TUSD", "TUSD BE", "TUSD BF", "TUSD CVA"]
      else ["TR TE", "TE BE", "TE BF", "TE CVA"]
    }
  }

  /** Each type repeated n times, type after type. */
  function Blocks(types: seq<string>, n: nat): (r: seq<Cell>)
    ensures |r| == |types| * n
  {
    if |types| == 0 then []
    else
      var init := Blocks(types[..|types| - 1], n);
      assert |init| + n == |types| * n by {
        assert (|types| - 1) * n + n == |types| * n;
      }
      init + Repeat(T(types[|types| - 1]), n)
  }

  /** Position b * n + t of the blocks holds the b-th type. */
  lemma {:induction false} BlocksAt(types: seq<string>, n: nat, b: nat, t: nat)
    requires b < |types| && t < n
    ensures b * n + t < |Blocks(types, n)|
    ensures Blocks(types, n)[b * n + t] == T(types[b])
  {
    var init := types[..|types| - 1];
    BlockBound(b, |types|, n, t);
    if b < |types| - 1 {
      BlockBound(b, |types| - 1, n, t);
      BlocksAt(init, n, b, t);
      assert init[b] == types[b];
    } else {
      assert b * n == |Blocks(init, n)|;
    }
  }

  /** Offset t of block b lies inside m blocks of n when b < m. */
  lemma {:induction false} BlockBound(b: nat, m: nat, n: nat, t: nat)
    requires b < m && t < n
    ensures b * n + t < m * n
    decreases m
  {
    if m == b + 1 {
      NextBlock(b, n);
    } else {
      BlockBound(b, m - 1, n, t);
      NextBlock(m - 1, n);
    }
  }

  /** One more block of n cells starts n cells further on. */
  lemma NextBlock(a: nat, n: nat)
    ensures (a + 1) * n == a * n + n
  {
  }

  /** `_load_tariff_type_info(length, types)`: an empty first cell, then each type `length` times. */
  function TariffTypeInfo(length: nat, types: seq<string>): (r: seq<Cell>)
    ensures |r| == 1 + |types| * length && r[0] == T("")
    ensures forall k :: 0 <= k < |types| * length ==> r[1 + k] == Blocks(types, length)[k]
  {
    [T("")] + Blocks(types, length)
  }

  /**
   * One pass of the loop of `_load_info_at`: the tab (a KeyError when it is
   * absent), then the position of `column` in the main header (a ValueError
   * when it is not there), then that column of the tab read from row 5.
   */
  function TabColumn(wb: Workbook, header: seq<Cell>, tab: string, column: Cell): (r: Outcome<seq<Cell>>)
    ensures r.Success? <==> tab in wb && column in header
    ensures tab !in wb ==> r == Failure(MissingSheet(tab))
    ensures tab in wb && column !in header ==> r == Failure(NotInList(column))
  {
    var ws :- Tab(wb, tab);
    var j :- IndexOf(header, column);
    Success(LoadValues(ws, j, AlongColumn, 5).value)
  }

  /** The passes of the loop over `tabs`, in order. */
  function TabColumns(wb: Workbook, header: seq<Cell>, tabs: seq<string>, column: Cell): (r: seq<Outcome<seq<Cell>>>)
    ensures |r| == |tabs| && forall k :: 0 <= k < |tabs| ==> r[k] == TabColumn(wb, header, tabs[k], column)
  {
    seq(|tabs|, k requires 0 <= k < |tabs| => TabColumn(wb, header, tabs[k], column))
  }

  /**
   * The loop of `_load_info_at`: the tabs' columns one after another. A
   * missing tab is a KeyError and a column absent from the header a
   * ValueError, the first in loop order winning.
   */
  function InfoAtTabs(wb: Workbook, header: seq<Cell>, tabs: seq<string>, column: Cell): (r: Outcome<seq<Cell>>)
    ensures r.Failure? ==> r.error.MissingSheet? || r.error.NotInList?
  {
    var outs := TabColumns(wb, header, tabs, column);
    var columns :- Sequence(outs);
    Success(Flatten(columns))
  }

  /**
   * The loop succeeds exactly when every tab exists and, if there is any
   * tab, the column is in the header; otherwise the first tab in loop order
   * that is missing, or the missing column, is the error.
   */
  lemma InfoAtTabsOutcome(wb: Workbook, header: seq<Cell>, tabs: seq<string>, column: Cell)
    ensures InfoAtTabs(wb, header, tabs, column).Success?
      <==> (forall k :: 0 <= k < |tabs| ==> tabs[k] in wb) && (|tabs| == 0 || column in header)
    ensures |tabs| > 0 && tabs[0] !in wb ==> InfoAtTabs(wb, header, tabs, column) == Failure(MissingSheet(tabs[0]))
    ensures |tabs| > 0 && tabs[0] in wb && column !in header ==> InfoAtTabs(wb, header, tabs, column) == Failure(NotInList(column))
    ensures InfoAtTabs(wb, header, tabs, column).Failure? && column in header ==> exists k :: (0 <= k < |tabs| && tabs[k] !in wb
      && InfoAtTabs(wb, header, tabs, column).error == MissingSheet(tabs[k]) && forall i :: 0 <= i < k ==> tabs[i] in wb)
  {
  }

  /** Reading two runs of tabs one after the other is reading them together. */
  lemma InfoAtTabsConcat(wb: Workbook, header: seq<Cell>, tabs: seq<string>, more: seq<string>, column: Cell)
    requires InfoAtTabs(wb, header, tabs, column).Success? && InfoAtTabs(wb, header, more, column).Success?
    ensures InfoAtTabs(wb, header, tabs + more, column)
      == Success(InfoAtTabs(wb, header, tabs, column).value + InfoAtTabs(wb, header, more, column).value)
  {
    var outs := TabColumns(wb, header, tabs, column);
    var outsMore := TabColumns(wb, header, more, column);
    TabColumnsConcat(wb, header, tabs, more, column);
    SequenceConcat(outs, outsMore);
    FlattenConcat(Sequence(outs).value, Sequence(outsMore).value);
  }

  lemma TabColumnsConcat(wb: Workbook, header: seq<Cell>, tabs: seq<string>, more: seq<string>, column: Cell)
    ensures TabColumns(wb, header, tabs + more, column)
      == TabColumns(wb, header, tabs, column) + TabColumns(wb, header, more, column)
  {
    var all := tabs + more;
    forall k | 0 <= k < |all|
      ensures TabColumns(wb, header, all, column)[k]
        == (TabColumns(wb, header, tabs, column) + TabColumns(wb, header, more, column))[k]
    {
      if k >= |tabs| {
        assert all[k] == more[k - |tabs|];
      }
    }
  }

  /** One tab's contribution: its column under `column`'s header position, from row 5. */
  lemma InfoAtSingleTab(wb: Workbook, header: seq<Cell>, tab: string, column: Cell)
    requires tab in wb && column in header
    ensures InfoAtTabs(wb, header, [tab], column) == Success(LoadValues(wb[tab], IndexOf(header, column).value, AlongColumn, 5).value)
  {
    var outs := TabColumns(wb, header, [tab], column);
    var values := LoadValues(wb[tab], IndexOf(header, column).value, AlongColumn, 5).value;
    assert outs == [Success(values)];
    assert Sequence(outs).value == [values];
    FlattenSingle(values);
  }

  /**
   * `_load_info_at(workbook, header, types, column, insert_new_row)`: the
   * tabs' columns, after an empty cell exactly when `insert_new_row` is set.
   */
  function LoadInfoAt(wb: Workbook, header: seq<Cell>, tabs: seq<string>, column: Cell, insertNewRow: bool): (r: Outcome<seq<Cell>>)
    ensures r.Success? <==> InfoAtTabs(wb, header, tabs, column).Success?
    ensures r.Failure? ==> r.error == InfoAtTabs(wb, header, tabs, column).error
    ensures r.Success? && insertNewRow ==>
      |r.value| >= 1 && r.value[0] == T("") && r.value[1..] == InfoAtTabs(wb, header, tabs, column).value
    ensures r.Success? && !insertNewRow ==> r.value == InfoAtTabs(wb, header, tabs, column).value
  {
    var info :- InfoAtTabs(wb, header, tabs, column);
    Success((if insertNewRow then [T("")] else []) + info)
  }

  /**
   * `_get_length(workbook, header, reference_tab)`: how many values the
   * reference tab holds from row 5 in the main header's "SUBGRUPO" column.
   */
  function GetLength(wb: Workbook, header: seq<Cell>, referenceTab: string): (r: Outcome<nat>)
    ensures r.Success? <==> referenceTab in wb && T("SUBGRUPO") in header
    ensures referenceTab !in wb ==> r == Failure(MissingSheet(referenceTab))
    ensures referenceTab in wb && T("SUBGRUPO") !in header ==> r == Failure(NotInList(T("SUBGRUPO")))
    ensures r.Success? ==> exists j :: (0 <= j < |header| && header[j] == T("SUBGRUPO")
      && (forall i :: 0 <= i < j ==> header[i] != T("SUBGRUPO"))
      && r.value == |LoadValues(wb[referenceTab], j, AlongColumn, 5).value|)
  {
    var reference :- Tab(wb, referenceTab);
    var j :- IndexOf(header, T("SUBGRUPO"));
    Success(|LoadValues(reference, j, AlongColumn, 5).value|)
  }

  /** The main sheet's header; the seventh title is whatever cell F1 of the main tab holds. */
  function MainHeader(uc: Cell): Row {
    [T("TIPO DE TARIFA"), T("SUBGRUPO"), T("MODALIDADE"), T("CLASSE"), T("SUBCLASSE"), T("DETALHE"),
     uc, T("POSTO"), T("UNIDADE")]
  }

  /** The attribute columns, in header order after the tariff type. */
  function AttributeColumns(uc: Cell): seq<Cell> {
    [T("SUBGRUPO"), T("MODALIDADE"), T("CLASSE"), T("SUBCLASSE"), T("DETALHE"), uc, T("POSTO"), T("UNIDADE")]
  }

  /** The eight attribute columns of `_load_main_sheet`, each read with an empty first cell. */
  function AttributeInfo(wb: Workbook, header: seq<Cell>, tabs: seq<string>, columns: seq<Cell>): (r: Outcome<seq<seq<Cell>>>)
    ensures r.Success? ==> |r.value| == |columns|
    ensures r.Success? ==> forall j :: 0 <= j < |columns| ==> |r.value[j]| >= 1 && r.value[j][0] == T("")
    ensures r.Success? ==> forall j :: 0 <= j < |columns| ==>
      Success(r.value[j]) == LoadInfoAt(wb, header, tabs, columns[j], true)
    ensures r.Failure? ==> exists j :: 0 <= j < |columns| && Failure(r.error) == LoadInfoAt(wb, header, tabs, columns[j], true)
  {
    Sequence(seq(|columns|, j requires 0 <= j < |columns| => LoadInfoAt(wb, header, tabs, columns[j], true)))
  }

  /**
   * `_load_main_sheet(workbook, header, length, tusd_or_te)`: the header and
   * the zipped tariff-type and attribute columns. Every column begins with an
   * empty cell, so the first data row is nine empty strings.
   */
  function MainSheet(wb: Workbook, header: seq<Cell>, length: nat, kind: TusdOrTe): (r: Outcome<Sheet>)
    ensures r.Failure? ==> r.error.MissingSheet? || r.error.NotInList?
    ensures r.Success? ==> kind.MainTab() in wb
    ensures r.Success? ==> |r.value| >= 2 && r.value[0] == MainHeader(CellAt(wb[kind.MainTab()], 1, 6))
    ensures r.Success? ==> r.value[1] == Repeat(T(""), 9)
    ensures r.Success? ==> forall i :: 0 <= i < |r.value| ==> |r.value[i]| == 9
    ensures r.Success? ==> AttributeInfo(wb, header, kind.TariffTypes(), AttributeColumns(CellAt(wb[kind.MainTab()], 1, 6))).Success?
    ensures r.Success? ==> |r.value| == 1 + MinLen([TariffTypeInfo(length, kind.TariffTypes())]
      + AttributeInfo(wb, header, kind.TariffTypes(), AttributeColumns(CellAt(wb[kind.MainTab()], 1, 6))).value)
  {
    var types := kind.TariffTypes();
    var main :- Tab(wb, kind.MainTab());
    var uc := CellAt(main, 1, 6);
    var attributes :- AttributeInfo(wb, header, types, AttributeColumns(uc));
    var typeInfo := TariffTypeInfo(length, types);
    MainRowsShape(uc, typeInfo, attributes);
    Success(MainRows(uc, typeInfo, attributes))
  }

  /**
   * Data row i of the main sheet: the tariff type's (i - 1)-th cell, then
   * the (i - 1)-th cell of each of the eight attribute columns as
   * `_load_info_at` reads them, in header order.
   */
  lemma MainSheetRow(wb: Workbook, header: seq<Cell>, length: nat, kind: TusdOrTe, i: nat, j: nat)
    requires MainSheet(wb, header, length, kind).Success?
    requires 1 <= i < |MainSheet(wb, header, length, kind).value| && 1 <= j < 9
    ensures kind.MainTab() in wb
    ensures i - 1 < |TariffTypeInfo(length, kind.TariffTypes())|
    ensures MainSheet(wb, header, length, kind).value[i][0] == TariffTypeInfo(length, kind.TariffTypes())[i - 1]
    ensures var column := AttributeColumns(CellAt(wb[kind.MainTab()], 1, 6))[j - 1];
      LoadInfoAt(wb, header, kind.TariffTypes(), column, true).Success?
      && i - 1 < |LoadInfoAt(wb, header, kind.TariffTypes(), column, true).value|
      && MainSheet(wb, header, length, kind).value[i][j] == LoadInfoAt(wb, header, kind.TariffTypes(), column, true).value[i - 1]
  {
    var types := kind.TariffTypes();
    var uc := CellAt(wb[kind.MainTab()], 1, 6);
    var columns := AttributeColumns(uc);
    var info := AttributeInfo(wb, header, types, columns);
    var typeInfo := TariffTypeInfo(length, types);
    assert MainSheet(wb, header, length, kind).value == MainRows(uc, typeInfo, info.value) by {
      MainSheetIs(wb, header, length, kind);
    }
    assert Success(info.value[j - 1]) == LoadInfoAt(wb, header, types, columns[j - 1], true);
    MainRowsAt(uc, typeInfo, info.value, i, j);
  }

  /** A successful main sheet is the header over the zipped columns its tabs give. */
  lemma MainSheetIs(wb: Workbook, header: seq<Cell>, length: nat, kind: TusdOrTe)
    requires MainSheet(wb, header, length, kind).Success?
    ensures kind.MainTab() in wb
    ensures var uc := CellAt(wb[kind.MainTab()], 1, 6);
      AttributeInfo(wb, header, kind.TariffTypes(), AttributeColumns(uc)).Success?
      && MainSheet(wb, header, length, kind).value
         == MainRows(uc, TariffTypeInfo(length, kind.TariffTypes()), AttributeInfo(wb, header, kind.TariffTypes(), AttributeColumns(uc)).value)
  {
  }

  /** Data row i of the zipped columns: the i-th tariff type, then the i-th value of each attribute column. */
  lemma MainRowsAt(uc: Cell, typeInfo: seq<Cell>, attributes: seq<seq<Cell>>, i: nat, j: nat)
    requires 1 <= i < |MainRows(uc, typeInfo, attributes)| && 1 <= j <= |attributes|
    ensures i - 1 < |typeInfo| && MainRows(uc, typeInfo, attributes)[i][0] == typeInfo[i - 1]
    ensures i - 1 < |attributes[j - 1]| && MainRows(uc, typeInfo, attributes)[i][j] == attributes[j - 1][i - 1]
  {
    var cols := [typeInfo] + attributes;
    assert MinLen(cols) <= |cols[0]| && MinLen(cols) <= |cols[j]|;
    assert cols[j] == attributes[j - 1];
  }

  /** The header over the zipped tariff-type and attribute columns. */
  function MainRows(uc: Cell, typeInfo: seq<Cell>, attributes: seq<seq<Cell>>): Sheet {
    [MainHeader(uc)] + Zip([typeInfo] + attributes)
  }

  /** Nine columns that all open with an empty cell give nine-wide rows whose first data row is empty strings. */
  lemma MainRowsShape(uc: Cell, typeInfo: seq<Cell>, attributes: seq<seq<Cell>>)
    requires |typeInfo| >= 1 && typeInfo[0] == T("")
    requires |attributes| == 8 && forall j :: 0 <= j < 8 ==> |attributes[j]| >= 1 && attributes[j][0] == T("")
    ensures |MainRows(uc, typeInfo, attributes)| >= 2
    ensures MainRows(uc, typeInfo, attributes)[0] == MainHeader(uc)
    ensures MainRows(uc, typeInfo, attributes)[1] == Repeat(T(""), 9)
    ensures forall i :: 0 <= i < |MainRows(uc, typeInfo, attributes)| ==> |MainRows(uc, typeInfo, attributes)[i]| == 9
  {
    var cols := [typeInfo] + attributes;
    assert forall j :: 0 <= j < 9 ==> |cols[j]| >= 1 && cols[j][0] == T("");
    assert MinLen(cols) >= 1;
    assert Zip(cols)[0] == Repeat(T(""), 9);
  }

  /**
   * `_filtered_header(values)`: the values up to the first None, which is
   * the longest prefix without one.
   */
  function FilteredHeader(values: seq<Cell>): (r: seq<Cell>)
    ensures |r| <= |values|
    ensures forall k :: 0 <= k < |r| ==> r[k] == values[k] && r[k].Some?
    ensures |r| < |values| ==> values[|r|].None?
  {
    if |values| == 0 || values[0].None? then []
    else [values[0]] + FilteredHeader(values[1..])
  }

  /** The cut is idempotent. */
  lemma {:induction false} FilteredHeaderIdempotent(values: seq<Cell>)
    ensures FilteredHeader(FilteredHeader(values)) == FilteredHeader(values)
  {
    var r := FilteredHeader(values);
    FilteredHeaderOfNoneFree(r);
  }

  /** A list without None is kept whole. */
  lemma {:induction false} FilteredHeaderOfNoneFree(values: seq<Cell>)
    requires forall k :: 0 <= k < |values| ==> values[k].Some?
    ensures FilteredHeader(values) == values
  {
    if |values| > 0 {
      FilteredHeaderOfNoneFree(values[1..]);
    }
  }

  /** `_get_remaining_header(workbook, reference_tab)`: row 3 of the reference tab from column 12, up to the first gap. */
  function RemainingHeader(reference: Grid): seq<Cell> {
    FilteredHeader(LoadValues(reference, 2, AlongRow, 12).value)
  }

  /** The titles are the resolved cells of row 3 from column 12 on, none of them None, within the sheet. */
  lemma RemainingHeaderCells(reference: Grid)
    ensures forall k :: 0 <= k < |RemainingHeader(reference)| ==>
      RemainingHeader(reference)[k].Some? && RemainingHeader(reference)[k] == Resolve(reference, 3, 12 + k)
    ensures 12 + |RemainingHeader(reference)| <= End(reference, AlongRow) || |RemainingHeader(reference)| == 0
    ensures |RemainingHeader(reference)| < |LoadValues(reference, 2, AlongRow, 12).value| ==>
      Resolve(reference, 3, 12 + |RemainingHeader(reference)|).None?
  {
    HeaderRowValues(reference);
  }

  /** The values read along row 3 from column 12 are that row's resolved cells. */
  lemma HeaderRowValues(reference: Grid)
    ensures forall k :: 0 <= k < |LoadValues(reference, 2, AlongRow, 12).value| ==>
      LoadValues(reference, 2, AlongRow, 12).value[k] == Resolve(reference, 3, 12 + k)
  {
  }

  /** `values[:n]` */
  function Take(values: seq<Cell>, n: nat): (r: seq<Cell>)
    ensures |r| == if n < |values| then n else |values|
    ensures forall k :: 0 <= k < |r| ==> r[k] == values[k]
  {
    if n < |values| then values[..n] else values
  }

  /** How many of the titles are text. */
  function TextCount(titles: seq<Cell>): (n: nat)
    ensures n <= |titles|
  {
    if |titles| == 0 then 0
    else TextCount(titles[..|titles| - 1]) + (if IsStr(titles[|titles| - 1]) then 1 else 0)
  }

  /** One title's column: the 0-based column c read from row 4, cut to `length + 1` values. */
  function TitleColumn(ws: Grid, c: nat, length: nat): (r: seq<Cell>)
    ensures |r| <= length + 1
    ensures forall v :: 0 <= v < |r| ==> r[v] == Resolve(ws, 4 + v, c + 1)
  {
    var values := LoadValues(ws, c, AlongColumn, 4).value;
    ColumnReads(ws, c, 4);
    Take(values, length + 1)
  }

  /**
   * The column loop of `_get_sheet_from_tab`: title k sits over column
   * `start + k`; a text title contributes that column read from row 4 and cut
   * to `length + 1` values, any other title contributes nothing.
   */
  function TitleColumns(ws: Grid, titles: seq<Cell>, start: nat, length: nat): (r: seq<seq<Cell>>)
    ensures |r| == TextCount(titles)
    ensures forall j :: 0 <= j < |r| ==> |r[j]| <= length + 1
  {
    if |titles| == 0 then []
    else
      var k := |titles| - 1;
      TitleColumns(ws, titles[..k], start, length)
        + (if IsStr(titles[k]) then [TitleColumn(ws, start + k, length)] else [])
  }

  /** The text title k is answered by the column at `start + k`, placed after the columns of the earlier text titles. */
  lemma {:induction false} TitleColumnsAt(ws: Grid, titles: seq<Cell>, start: nat, length: nat, k: nat)
    requires k < |titles| && IsStr(titles[k])
    ensures TextCount(titles[..k]) < TextCount(titles)
    ensures TitleColumns(ws, titles, start, length)[TextCount(titles[..k])] == TitleColumn(ws, start + k, length)
  {
    var init := titles[..|titles| - 1];
    if k < |titles| - 1 {
      assert init[..k] == titles[..k];
      TitleColumnsAt(ws, init, start, length, k);
    } else {
      assert init == titles[..k];
    }
  }

  /**
   * `_get_sheet_from_tab(workbook, reference_tab, tab, length, first_tab)`:
   * the reference tab's titles as row 1 and, under them, the tab's columns
   * found from the position of the first title in its row 3. Tabs after the
   * first drop their first two rows.
   */
  function SheetFromTab(wb: Workbook, referenceTab: string, tab: string, length: nat, firstTab: bool): (r: Outcome<Sheet>)
    ensures referenceTab !in wb ==> r == Failure(MissingSheet(referenceTab))
    ensures referenceTab in wb && tab !in wb ==> r == Failure(MissingSheet(tab))
    ensures referenceTab in wb && tab in wb && |RemainingHeader(wb[referenceTab])| == 0 ==> r == Failure(IndexOutOfRange)
    ensures referenceTab in wb && tab in wb && |RemainingHeader(wb[referenceTab])| > 0
      && RemainingHeader(wb[referenceTab])[0] !in RowValues(wb[tab], 3)
      ==> r == Failure(NotInList(RemainingHeader(wb[referenceTab])[0]))
    ensures r.Success? <==> (referenceTab in wb && tab in wb && |RemainingHeader(wb[referenceTab])| > 0
      && RemainingHeader(wb[referenceTab])[0] in RowValues(wb[tab], 3))
    ensures r.Success? ==>
      var titles := RemainingHeader(wb[referenceTab]);
      var start := IndexOf(RowValues(wb[tab], 3), titles[0]).value;
      r.value == StackedColumns(titles, TitleColumns(wb[tab], titles, start, length), length, firstTab)
    ensures r.Success? && firstTab ==> 1 <= |r.value| <= length + 2 && r.value[0] == RemainingHeader(wb[referenceTab])
    ensures r.Success? && !firstTab ==> |r.value| <= length
  {
    var reference :- Tab(wb, referenceTab);
    var titles := RemainingHeader(reference);
    var ws :- Tab(wb, tab);
    if |titles| == 0 then Failure(IndexOutOfRange)
    else
      var start :- IndexOf(RowValues(ws, 3), titles[0]);
      Success(StackedColumns(titles, TitleColumns(ws, titles, start, length), length, firstTab))
  }

  /**
   * With `start` the position of the first title in the tab's row 3, every
   * text title k of a loaded tab heads the tab's column `start + k + 1`: the
   * first tab's data row i (after the titles) holds that column's row 3 + i,
   * a later tab's row i holds its row 5 + i, the two rows dropped.
   */
  lemma SheetFromTabCell(wb: Workbook, referenceTab: string, tab: string, length: nat, firstTab: bool, sheet: Sheet, start: nat, k: nat, i: nat)
    requires SheetFromTab(wb, referenceTab, tab, length, firstTab) == Success(sheet)
    requires IndexOf(RowValues(wb[tab], 3), RemainingHeader(wb[referenceTab])[0]) == Success(start)
    requires k < |RemainingHeader(wb[referenceTab])| && IsStr(RemainingHeader(wb[referenceTab])[k])
    requires firstTab ==> 1 <= i < |sheet|
    requires !firstTab ==> i < |sheet|
    ensures TextCount(RemainingHeader(wb[referenceTab])[..k]) < |sheet[i]|
    ensures firstTab ==> sheet[i][TextCount(RemainingHeader(wb[referenceTab])[..k])] == Resolve(wb[tab], 3 + i, start + k + 1)
    ensures !firstTab ==> sheet[i][TextCount(RemainingHeader(wb[referenceTab])[..k])] == Resolve(wb[tab], 5 + i, start + k + 1)
  {
    TitleCell(wb[tab], RemainingHeader(wb[referenceTab]), start, length, firstTab, sheet, k, i);
  }

  /** The cell under text title k in a stacked sheet built from the grid `ws`. */
  lemma TitleCell(ws: Grid, titles: seq<Cell>, start: nat, length: nat, firstTab: bool, sheet: Sheet, k: nat, i: nat)
    requires sheet == StackedColumns(titles, TitleColumns(ws, titles, start, length), length, firstTab)
    requires k < |titles| && IsStr(titles[k])
    requires firstTab ==> 1 <= i < |sheet|
    requires !firstTab ==> i < |sheet|
    ensures TextCount(titles[..k]) < |sheet[i]|
    ensures firstTab ==> sheet[i][TextCount(titles[..k])] == Resolve(ws, 3 + i, start + k + 1)
    ensures !firstTab ==> sheet[i][TextCount(titles[..k])] == Resolve(ws, 5 + i, start + k + 1)
  {
    if firstTab {
      FirstTabCell(ws, titles, start, length, sheet, k, i);
    } else {
      LaterTabCell(ws, titles, start, length, sheet, k, i);
    }
  }

  /** TitleCell for the first tab: its data row i is the column's row 3 + i. */
  lemma FirstTabCell(ws: Grid, titles: seq<Cell>, start: nat, length: nat, sheet: Sheet, k: nat, i: nat)
    requires sheet == StackedColumns(titles, TitleColumns(ws, titles, start, length), length, true)
    requires k < |titles| && IsStr(titles[k])
    requires 1 <= i < |sheet|
    ensures TextCount(titles[..k]) < |sheet[i]| && sheet[i][TextCount(titles[..k])] == Resolve(ws, 3 + i, start + k + 1)
  {
    TitleColumnCell(ws, titles, start, length, k, i - 1);
    StackedColumnsCell(titles, TitleColumns(ws, titles, start, length), length, true, sheet, TextCount(titles[..k]), i);
  }

  /** TitleCell for a later tab: its row i is the column's row 5 + i. */
  lemma LaterTabCell(ws: Grid, titles: seq<Cell>, start: nat, length: nat, sheet: Sheet, k: nat, i: nat)
    requires sheet == StackedColumns(titles, TitleColumns(ws, titles, start, length), length, false)
    requires k < |titles| && IsStr(titles[k])
    requires i < |sheet|
    ensures TextCount(titles[..k]) < |sheet[i]| && sheet[i][TextCount(titles[..k])] == Resolve(ws, 5 + i, start + k + 1)
  {
    TitleColumnCell(ws, titles, start, length, k, i + 1);
    StackedColumnsCell(titles, TitleColumns(ws, titles, start, length), length, false, sheet, TextCount(titles[..k]), i);
  }

  /** Value v of the column under text title k is the tab's cell in row 4 + v of column `start + k + 1`. */
  lemma TitleColumnCell(ws: Grid, titles: seq<Cell>, start: nat, length: nat, k: nat, v: nat)
    requires k < |titles| && IsStr(titles[k])
    ensures TextCount(titles[..k]) < |TitleColumns(ws, titles, start, length)|
    ensures v < |TitleColumns(ws, titles, start, length)[TextCount(titles[..k])]| ==>
      TitleColumns(ws, titles, start, length)[TextCount(titles[..k])][v] == Resolve(ws, 4 + v, start + k + 1)
  {
    TitleColumnsAt(ws, titles, start, length, k);
  }

  /** Cell (i, m) of a stacked sheet is value i - 1 of column m for the first tab and value i + 1 for a later one. */
  lemma StackedColumnsCell(titles: seq<Cell>, cols: seq<seq<Cell>>, length: nat, firstTab: bool, sheet: Sheet, m: nat, i: nat)
    requires forall j :: 0 <= j < |cols| ==> |cols[j]| <= length + 1
    requires sheet == StackedColumns(titles, cols, length, firstTab)
    requires m < |cols|
    requires firstTab ==> 1 <= i < |sheet|
    requires !firstTab ==> i < |sheet|
    ensures m < |sheet[i]|
    ensures firstTab ==> i - 1 < |cols[m]| && sheet[i][m] == cols[m][i - 1]
    ensures !firstTab ==> i + 1 < |cols[m]| && sheet[i][m] == cols[m][i + 1]
  {
    assert MinLen(cols) <= |cols[m]|;
  }

  /**
   * The titles over the zipped columns. A later tab keeps only what
   * `iter_rows(min_row=3)` reads back: the titles and its first data row
   * are dropped, and the rest is read as wide as the sheet.
   */
  function StackedColumns(titles: seq<Cell>, cols: seq<seq<Cell>>, length: nat, firstTab: bool): (r: Sheet)
    requires forall j :: 0 <= j < |cols| ==> |cols[j]| <= length + 1
    ensures firstTab ==> |r| == 1 + MinLen(cols) && r[0] == titles
    ensures firstTab ==> forall i :: 1 <= i < |r| ==> |r[i]| == |cols|
    ensures firstTab ==> forall i, j :: 1 <= i < |r| && 0 <= j < |cols| ==> r[i][j] == cols[j][i - 1]
    ensures !firstTab ==> r == RowsFromThird(titles, cols)
    ensures firstTab ==> |r| <= length + 2
    ensures !firstTab ==> |r| <= length
  {
    assert |cols| > 0 ==> MinLen(cols) <= |cols[0]|;
    if firstTab then [titles] + Zip(cols) else RowsFromThird(titles, cols)
  }

  /**
   * `iter_rows(min_row=3, values_only=True)` over the titles and the zipped
   * columns: zipped row i + 1 for each i, padded with None to the wider of
   * the title row and the data rows.
   */
  function RowsFromThird(titles: seq<Cell>, cols: seq<seq<Cell>>): (r: Sheet)
    ensures |r| == if MinLen(cols) <= 1 then 0 else MinLen(cols) - 1
    ensures forall i :: 0 <= i < |r| ==> |r[i]| == if |titles| < |cols| then |cols| else |titles|
    ensures forall i, j :: 0 <= i < |r| && 0 <= j < |cols| ==> r[i][j] == cols[j][i + 1]
    ensures forall i, j :: 0 <= i < |r| && |cols| <= j < |r[i]| ==> r[i][j].None?
  {
    var sheet := [titles] + Zip(cols);
    if |sheet| <= 2 then []
    else
      RowsFromThirdCells(titles, cols);
      Rect(sheet)[2..]
  }

  lemma RowsFromThirdCells(titles: seq<Cell>, cols: seq<seq<Cell>>)
    requires MinLen(cols) >= 2
    ensures var sheet := [titles] + Zip(cols);
      Width(sheet) == (if |titles| < |cols| then |cols| else |titles|)
      && forall i :: 2 <= i < |sheet| ==> Rect(sheet)[i] == Pad(Zip(cols)[i - 1], Width(sheet))
  {
    var sheet := [titles] + Zip(cols);
    assert |sheet[0]| == |titles| && |sheet[1]| == |cols|;
    assert forall i :: 1 <= i < |sheet| ==> sheet[i] == Zip(cols)[i - 1];
  }

  /** `_get_remaining_sheets`: one sheet per tariff tab, in order, only the first keeping its title rows. */
  function RemainingSheets(wb: Workbook, referenceTab: string, tabs: seq<string>, length: nat): (r: Outcome<seq<Sheet>>)
    ensures r.Success? <==> forall k :: 0 <= k < |tabs| ==> SheetFromTab(wb, referenceTab, tabs[k], length, k == 0).Success?
    ensures r.Success? ==> |r.value| == |tabs| && forall k :: 0 <= k < |tabs| ==>
      Success(r.value[k]) == SheetFromTab(wb, referenceTab, tabs[k], length, k == 0)
    ensures r.Failure? ==> exists k :: (0 <= k < |tabs|
      && SheetFromTab(wb, referenceTab, tabs[k], length, k == 0) == Failure(r.error)
      && forall i :: 0 <= i < k ==> SheetFromTab(wb, referenceTab, tabs[i], length, i == 0).Success?)
  {
    var outs := seq(|tabs|, k requires 0 <= k < |tabs| => SheetFromTab(wb, referenceTab, tabs[k], length, k == 0));
    assert forall k :: 0 <= k < |tabs| ==> outs[k] == SheetFromTab(wb, referenceTab, tabs[k], length, k == 0);
    Sequence(outs)
  }

  /** Every sheet squared off to its own width. */
  function Rects(sheets: seq<Sheet>): (r: seq<Sheet>)
    ensures |r| == |sheets| && forall k {:trigger r[k]} :: 0 <= k < |sheets| ==> r[k] == Rect(sheets[k])
  {
    seq(|sheets|, k requires 0 <= k < |sheets| => Rect(sheets[k]))
  }

  /**
   * The loop of `load_tusd_or_te_sheet` that appends each remaining
   * sheet's rows: every sheet's rows, sheet after sheet, each as wide as its
   * own sheet.
   */
  function StackedRows(sheets: seq<Sheet>): (r: Sheet)
    ensures r == Flatten(Rects(sheets))
  {
    if |sheets| == 0 then []
    else
      var init := sheets[..|sheets| - 1];
      assert Rects(sheets)[..|sheets| - 1] == Rects(init);
      StackedRows(init) + Rect(sheets[|sheets| - 1])
  }

  /**
   * `load_tusd_or_te_sheet(workbook, tusd_or_te)`: nothing without the main
   * tab; otherwise the main sheet with the tariff tabs' rows, stacked, to its
   * right.
   */
  function LoadTusdOrTeSheet(wb: Workbook, kind: TusdOrTe): (r: Outcome<Option<Sheet>>)
    ensures r.Success? && r.value.None? <==> kind.MainTab() !in wb
    ensures r.Success? && r.value.Some? ==> |r.value.value| >= 2
    ensures r.Failure? ==> kind.MainTab() in wb
    ensures r.Success? && r.value.Some? ==>
      var header := RowValues(wb[kind.MainTab()], 1);
      GetLength(wb, header, kind.ReferenceTab()).Success?
      && var length := GetLength(wb, header, kind.ReferenceTab()).value;
      MainSheet(wb, header, length, kind).Success?
      && RemainingSheets(wb, kind.ReferenceTab(), kind.TariffTypes(), length).Success?
      && r.value.value == Combined(MainSheet(wb, header, length, kind).value,
                                   RemainingSheets(wb, kind.ReferenceTab(), kind.TariffTypes(), length).value)
  {
    if kind.MainTab() !in wb then Success(None)
    else
      var header := RowValues(wb[kind.MainTab()], 1);
      var length :- GetLength(wb, header, kind.ReferenceTab());
      var main :- MainSheet(wb, header, length, kind);
      var remaining :- RemainingSheets(wb, kind.ReferenceTab(), kind.TariffTypes(), length);
      Success(Some(Combined(main, remaining)))
  }

  /**
   * The main sheet with the stacked tariff rows to its right: as tall as
   * the taller of the two, the main sheet's cells in its own columns and the
   * stacked rows' cells shifted right by the main sheet's width.
   */
  function Combined(main: Sheet, remaining: seq<Sheet>): (r: Sheet)
    ensures |r| == if |main| < |StackedRows(remaining)| then |StackedRows(remaining)| else |main|
    ensures forall i, j :: 1 <= j <= Width(main) ==> SheetCell(r, i, j) == SheetCell(main, i, j)
    ensures forall i, j :: 1 <= j <= Width(StackedRows(remaining)) ==>
      SheetCell(r, i, Width(main) + j) == SheetCell(StackedRows(remaining), i, j)
  {
    var data := StackedRows(remaining);
    assert forall i, j :: 1 <= j <= Width(main) ==> SheetCell(SideBySide([main, data]), i, j) == SheetCell(main, i, j) by {
      forall i, j | 1 <= j <= Width(main)
        ensures SheetCell(SideBySide([main, data]), i, j) == SheetCell(main, i, j)
      {
        SideBySideLeft(main, data, i, j);
      }
    }
    assert forall i, j :: 1 <= j <= Width(data) ==> SheetCell(SideBySide([main, data]), i, Width(main) + j) == SheetCell(data, i, j) by {
      forall i, j | 1 <= j <= Width(data)
        ensures SheetCell(SideBySide([main, data]), i, Width(main) + j) == SheetCell(data, i, j)
      {
        SideBySideRight(main, data, i, j);
      }
    }
    assert MaxHeight([main, data]) == if |main| < |data| then |data| else |main| by {
      assert [main, data][0] == main && [main, data][1] == data;
    }
    SideBySide([main, data])
  }

  /**
   * The layout of the combined sheet: the main sheet's cells stay in
   * columns 1 to 9, and cell (i, j) of the stacked tariff rows lands at
   * (i, 9 + j).
   */
  lemma {:induction false} TusdOrTeLayout(main: Sheet, data: Sheet, i: int, j: int)
    requires |main| >= 2 && forall r :: 0 <= r < |main| ==> |main[r]| == 9
    ensures 1 <= j <= 9 ==> SheetCell(SideBySide([main, data]), i, j) == SheetCell(main, i, j)
    ensures 1 <= j <= Width(data) ==> SheetCell(SideBySide([main, data]), i, 9 + j) == SheetCell(data, i, j)
  {
    WidthOfUniform(main, 9);
    if 1 <= j <= 9 {
      SideBySideLeft(main, data, i, j);
    }
    if 1 <= j <= Width(data) {
      SideBySideRight(main, data, i, j);
    }
  }
}
