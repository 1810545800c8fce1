/**
 * The "MERCADO TUSD" and "MERCADO TE" tabs
 * (app/modules/tabs/tusd_or_te_market_data.py): nine columns picked by their
 * header, zipped under renamed headers, with the last row deleted.
 */
module Market {
  import opened Wrappers
  import opened Cells
  import opened Grid
  import opened Tables
  import opened Tariffs

  function MarketTab(kind: TusdOrTe): string {
    "MERCADO " + kind.MainTab()
  }

  /** The source columns, in output order. */
  const MarketLabels: seq<string> :=
    ["SUBGRUPO", "MODALIDADE", "CLASSE", "SUBCLASSE", "DETALHE", "NOME UC", "POSTO", "UNIDADE", "SOMA MERCADO"]

  /** The output header: "NOME UC" becomes "UC" and "SOMA MERCADO" becomes "MERCADO DE REFERÊNCIA". */
  const MarketHeader: Row :=
    [T("SUBGRUPO"), T("MODALIDADE"), T("CLASSE"), T("SUBCLASSE"), T("DETALHE"), T("UC"), T("POSTO"),
     T("UNIDADE"), T("MERCADO DE REFERÊNCIA")]

  /** `delete_rows(max_row)`: the sheet without its last row. */
  function DropLast(s: Sheet): (r: Sheet)
    ensures |s| > 0 ==> |r| == |s| - 1 && forall i :: 0 <= i < |r| ==> r[i] == s[i]
    ensures |s| == 0 ==> r == []
  {
    if |s| == 0 then [] else s[..|s| - 1]
  }

  /**
   * `load_tusd_or_te_market_sheet(workbook, kind)`: nothing without the tab;
   * the first header label missing from row 1 is an error; otherwise the
   * renamed header and the zipped columns, except that the last row written
   * is deleted.
   */
  function LoadMarketSheet(wb: Workbook, kind: TusdOrTe): (r: Outcome<Option<Sheet>>)
    ensures r.Success? && r.value.None? <==> MarketTab(kind) !in wb
    ensures r.Failure? <==> (MarketTab(kind) in wb
      && exists j :: 0 <= j < |MarketLabels| && T(MarketLabels[j]) !in RowValues(wb[MarketTab(kind)], 1))
    ensures r.Failure? ==> exists j :: (0 <= j < |MarketLabels| && r.error == NotInList(T(MarketLabels[j]))
      && forall i :: 0 <= i < j ==> T(MarketLabels[i]) in RowValues(wb[MarketTab(kind)], 1))
  {
    if MarketTab(kind) !in wb then Success(None)
    else
      var tab := wb[MarketTab(kind)];
      var cols :- ColumnsByHeaders(tab, RowValues(tab, 1), MarketLabels);
      Success(Some(MarketTable(cols)))
  }

  /** The renamed header over the zipped columns, last row deleted. */
  function MarketTable(cols: seq<seq<Cell>>): (r: Sheet)
    ensures |r| == MinLen(cols)
    ensures |r| > 0 ==> r[0] == MarketHeader
    ensures forall i :: 1 <= i < |r| ==> |r[i]| == |cols|
  {
    DropLast([MarketHeader] + Zip(cols))
  }

  /**
   * The header stays (unless there are no data rows at all, when the header
   * itself is the row deleted) and every zipped row but the last follows it.
   */
  lemma {:induction false} MarketTableRows(cols: seq<seq<Cell>>)
    ensures |MarketTable(cols)| == MinLen(cols)
    ensures |MarketTable(cols)| > 0 ==> MarketTable(cols)[0] == MarketHeader
    ensures forall i :: 1 <= i < |MarketTable(cols)| ==> MarketTable(cols)[i] == Zip(cols)[i - 1]
  {
    var full := [MarketHeader] + Zip(cols);
    assert forall i :: 1 <= i < |full| ==> full[i] == Zip(cols)[i - 1];
  }
}
