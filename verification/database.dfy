/**
 * The database workbook (data_base.py): one tab per extracted table, every
 * data row prefixed with the distributor's identification, and the merge of
 * many such files into sheets that never outgrow a row ceiling.
 */
module Database {
  import opened Wrappers
  import opened Cells
  import opened Grid
  import opened Tables
  import opened Tariffs
  import Costs
  import Market
  import Effect
  import Reh
  import Coordinates

  /** One sheet of an output workbook: its title and its rows. */
  datatype Tab = Tab(title: string, rows: Sheet)

  // ---------------------------------------------------------------------
  // Distributor identification
  // ---------------------------------------------------------------------

  /**
   * The identification of a distributor; `get_distributor_info` is not part
   * of this model, so the fields it supplies arrive as cells.
   */
  datatype DistributorInfo = DistributorInfo(
    name: Cell, acronym: string, agent: Cell, companyCode: Cell,
    agentId: Cell, concessionId: Cell, tariffProcess: string, processDate: Cell)

  /** `list(distributor_info.keys())`, in insertion order. */
  const InfoHeader: Row := [T("Nome"), T("Sigla"), T("Concessionária/Permissionária"),
    T("Código da Empresa"), T("ID Agente"), T("ID Concessão"), T("Processo Tarifário"),
    T("Data do processo tarifário em processamento")]

  /** `list(distributor_info.values())`, in the order of the keys. */
  function InfoValues(d: DistributorInfo): (r: Row)
    ensures |r| == |InfoHeader|
    ensures r[1] == T(d.acronym) && r[6] == T(d.tariffProcess)
  {
    [d.name, T(d.acronym), d.agent, d.companyCode, d.agentId, d.concessionId,
     T(d.tariffProcess), d.processDate]
  }

  // ---------------------------------------------------------------------
  // _create_db_tab
  // ---------------------------------------------------------------------

  /** `all(cell is None for cell in row)` */
  predicate AllNone(row: Row) {
    forall k :: 0 <= k < |row| ==> row[k].None?
  }

  /** The rows among the first n that hold at least one value, in order. */
  function KeptOf(rows: Sheet, n: nat): (r: Sheet)
    requires n <= |rows|
    ensures |r| <= n
    ensures forall k :: 0 <= k < |r| ==> !AllNone(r[k])
  {
    if n == 0 then []
    else KeptOf(rows, n - 1) + (if AllNone(rows[n - 1]) then [] else [rows[n - 1]])
  }

  /** The rows that hold at least one value, in order. */
  function Kept(rows: Sheet): Sheet {
    KeptOf(rows, |rows|)
  }

  /** A row is kept exactly when it occurs and holds a value. */
  lemma {:induction false} KeptOfMembers(rows: Sheet, n: nat, x: Row)
    requires n <= |rows|
    ensures x in KeptOf(rows, n) <==> exists k :: 0 <= k < n && rows[k] == x && !AllNone(x)
  {
    if n > 0 {
      KeptOfMembers(rows, n - 1, x);
      if x == rows[n - 1] && !AllNone(x) {
        assert KeptOf(rows, n)[|KeptOf(rows, n)| - 1] == x;
      }
    }
  }

  /** Filtering never drops a row that holds a value. */
  lemma {:induction false} KeptOfAll(rows: Sheet, n: nat)
    requires n <= |rows|
    requires forall k :: 0 <= k < n ==> !AllNone(rows[k])
    ensures KeptOf(rows, n) == rows[..n]
  {
    if n > 0 {
      KeptOfAll(rows, n - 1);
      assert rows[..n] == rows[..n - 1] + [rows[n - 1]];
    }
  }

  /** The cells a data row starts with: blanks for the first kept row of a hidden tab, the identification otherwise. */
  function Prefix(d: DistributorInfo, hidden: bool, k: nat): (p: Row)
    ensures |p| == |InfoHeader|
  {
    if hidden && k == 0 then Repeat(T(""), |InfoHeader|) else InfoValues(d)
  }

  /** The data rows of a tab: each kept source row after its prefix. */
  function DataRows(d: DistributorInfo, rows: Sheet, hidden: bool): (r: Sheet)
    ensures |r| == |Kept(rows)|
    ensures forall k :: 0 <= k < |r| ==> r[k] == Prefix(d, hidden, k) + Kept(rows)[k]
  {
    seq(|Kept(rows)|, k requires 0 <= k < |Kept(rows)| => Prefix(d, hidden, k) + Kept(rows)[k])
  }

  /**
   * The row loop of `_create_db_tab`: empty rows are skipped; with
   * `hide_first_line` the first row written gets blank cells instead of the
   * identification, tracked by the same counter the source keeps.
   */
  method AppendDataRows(d: DistributorInfo, rows: Sheet, hidden: bool) returns (out: Sheet)
    ensures out == DataRows(d, rows, hidden)
  {
    out := [];
    var counter := 0;
    var i := 0;
    while i < |rows|
      invariant 0 <= i <= |rows|
      invariant |out| == |KeptOf(rows, i)|
      invariant counter == if hidden && |out| > 0 then 1 else 0
      invariant forall k :: 0 <= k < |out| ==> out[k] == Prefix(d, hidden, k) + KeptOf(rows, i)[k]
    {
      var row := rows[i];
      if !AllNone(row) {
        if hidden && counter == 0 {
          out := out + [Repeat(T(""), |InfoHeader|) + row];
          counter := counter + 1;
        } else {
          out := out + [InfoValues(d) + row];
        }
      }
      i := i + 1;
    }
  }

  /** The first row as `iter_rows` yields it: a sheet with no rows still reads one empty cell. */
  function HeaderOf(s: Sheet): (h: Row)
    ensures |s| > 0 ==> |h| == Width(s)
  {
    if |s| == 0 then [None] else Rect(s)[0]
  }

  /** `all(cell is None or str(cell).strip() == "" for cell in worksheet_header)` */
  predicate BlankHeader(s: Sheet) {
    forall k :: 0 <= k < |HeaderOf(s)| ==> IsBlank(HeaderOf(s)[k])
  }

  /**
   * `_create_db_tab`: no tab without a sheet; an empty tab when the sheet's
   * first row is blank; otherwise the identification keys before the header,
   * then the data rows.
   */
  function CreateDbTab(d: DistributorInfo, ws: Option<Sheet>, title: string, hidden: bool): (r: Option<Tab>)
    ensures r.Some? <==> ws.Some?
    ensures r.Some? ==> r.value.title == title
    ensures r.Some? ==> (r.value.rows == [] <==> BlankHeader(ws.value))
  {
    match ws
    case None => None
    case Some(s) =>
      if BlankHeader(s) then Some(Tab(title, []))
      else Some(Tab(title, [InfoHeader + HeaderOf(s)] + DataRows(d, DropFirst(Rect(s)), hidden)))
  }

  /** Every row of a filled tab is as wide as the keys plus the source's `max_column`. */
  lemma CreateDbTabRectangular(d: DistributorInfo, s: Sheet, title: string, hidden: bool)
    requires !BlankHeader(s)
    ensures var rows := CreateDbTab(d, Some(s), title, hidden).value.rows;
      forall i :: 0 <= i < |rows| ==> |rows[i]| == |InfoHeader| + Width(s)
  {
    assert |s| > 0;
    var body := DropFirst(Rect(s));
    var kept := Kept(body);
    forall k | 0 <= k < |kept|
      ensures |kept[k]| == Width(s)
    {
      KeptOfMembers(body, |body|, kept[k]);
    }
  }

  /**
   * A filled tab is the keys before the sheet's header, then one row per
   * kept source row: the cells after the prefix of data row k are the k-th
   * source row after the header that holds a value.
   */
  lemma CreateDbTabData(d: DistributorInfo, s: Sheet, title: string, hidden: bool, k: nat)
    requires !BlankHeader(s)
    ensures var rows := CreateDbTab(d, Some(s), title, hidden).value.rows;
      var kept := Kept(DropFirst(Rect(s)));
      |rows| == 1 + |kept| && rows[0] == InfoHeader + HeaderOf(s)
      && (k < |kept| ==> rows[k + 1][|InfoHeader|..] == kept[k])
  {
    var kept := Kept(DropFirst(Rect(s)));
    if k < |kept| {
      var rows := CreateDbTab(d, Some(s), title, hidden).value.rows;
      assert rows[k + 1] == Prefix(d, hidden, k) + kept[k];
    }
  }

  /** Only the first data row of a hidden tab loses the identification. */
  lemma CreateDbTabHidden(d: DistributorInfo, s: Sheet, title: string, hidden: bool, k: nat)
    requires !BlankHeader(s)
    requires 1 <= k < |CreateDbTab(d, Some(s), title, hidden).value.rows|
    ensures var row := CreateDbTab(d, Some(s), title, hidden).value.rows[k];
      row[..|InfoHeader|] == if hidden && k == 1 then Repeat(T(""), |InfoHeader|) else InfoValues(d)
  {
    var body := DropFirst(Rect(s));
    assert CreateDbTab(d, Some(s), title, hidden).value.rows[k] == Prefix(d, hidden, k - 1) + Kept(body)[k - 1];
  }

  // ---------------------------------------------------------------------
  // _filtered_workbook
  // ---------------------------------------------------------------------

  /** The tabs of the database workbook, in the order they are created. */
  const TabTitles: seq<string> := ["CUSTOS", "MERCADO TUSD", "TUSD", "MERCADO TE", "TE", "EFEITO", "TABELAS REH"]

  /** Only the TUSD and TE tabs hide their first data line. */
  predicate HidesFirstLine(k: nat) {
    k == 2 || k == 4
  }

  /** The slots below n whose loader returned a sheet, in increasing order. */
  function SlotsOf(sheets: seq<Option<Sheet>>, n: nat): (ks: seq<nat>)
    requires n <= |sheets|
    ensures forall a :: 0 <= a < |ks| ==> ks[a] < n && sheets[ks[a]].Some?
    ensures forall a, b :: 0 <= a < b < |ks| ==> ks[a] < ks[b]
  {
    if n == 0 then []
    else SlotsOf(sheets, n - 1) + (if sheets[n - 1].Some? then [n - 1] else [])
  }

  /** A slot is taken exactly when its loader returned a sheet. */
  lemma {:induction false} SlotsOfMembers(sheets: seq<Option<Sheet>>, n: nat, k: nat)
    requires n <= |sheets|
    ensures k in SlotsOf(sheets, n) <==> k < n && sheets[k].Some?
  {
    if n > 0 {
      SlotsOfMembers(sheets, n - 1, k);
      if k == n - 1 && sheets[k].Some? {
        assert SlotsOf(sheets, n)[|SlotsOf(sheets, n)| - 1] == k;
      }
    }
  }

  /** The seven loaders, called in tab order; the effect loader never raises. */
  function Loaded(wb: Workbook): (outs: seq<Outcome<Option<Sheet>>>)
    ensures |outs| == |TabTitles|
  {
    [Costs.LoadCostsSheet(wb), Market.LoadMarketSheet(wb, TUSD), LoadTusdOrTeSheet(wb, TUSD),
     Market.LoadMarketSheet(wb, TE), LoadTusdOrTeSheet(wb, TE), Success(Effect.LoadEffectSheet(wb)),
     Reh.LoadRehSheet(wb)]
  }

  /** The tab `_create_db_tab` makes for a taken slot. */
  function SlotTab(d: DistributorInfo, sheets: seq<Option<Sheet>>, k: nat): Tab
    requires k < |TabTitles| <= |sheets| && sheets[k].Some?
  {
    CreateDbTab(d, sheets[k], TabTitles[k], HidesFirstLine(k)).value
  }

  /** One tab per taken slot, in slot order. */
  function Tabs(d: DistributorInfo, sheets: seq<Option<Sheet>>): (r: seq<Tab>)
    requires |sheets| == |TabTitles|
    ensures |r| == |SlotsOf(sheets, |sheets|)|
  {
    var ks := SlotsOf(sheets, |sheets|);
    seq(|ks|, a requires 0 <= a < |ks| => SlotTab(d, sheets, ks[a]))
  }

  /**
   * `_filtered_workbook`: the first loader that raises aborts the whole
   * workbook; otherwise one tab per loaded sheet, and a lone empty "Sheet"
   * when no loader found its table.
   */
  function FilteredWorkbook(wb: Workbook, d: DistributorInfo): (r: Outcome<seq<Tab>>)
    ensures r.Success? <==> forall k :: 0 <= k < |TabTitles| ==> Loaded(wb)[k].Success?
    ensures r.Failure? ==> exists k :: (0 <= k < |TabTitles| && Loaded(wb)[k] == Failure(r.error)
      && forall i :: 0 <= i < k ==> Loaded(wb)[i].Success?)
    ensures r.Success? ==> |r.value| >= 1
  {
    var sheets :- Sequence(Loaded(wb));
    var tabs := Tabs(d, sheets);
    if |tabs| == 0 then Success([Tab("Sheet", [])]) else Success(tabs)
  }

  /**
   * On success the tabs follow the fixed order: slot k has a tab exactly when
   * its loader returned a sheet, titled as the order says and hiding the first
   * line only for TUSD and TE; with no sheet at all there is one empty "Sheet".
   */
  lemma FilteredWorkbookTabs(wb: Workbook, d: DistributorInfo, k: nat)
    requires FilteredWorkbook(wb, d).Success? && k < |TabTitles|
    ensures var tabs := FilteredWorkbook(wb, d).value;
      var ks := SlotsOf(Sequence(Loaded(wb)).value, |TabTitles|);
      (k in ks <==> Loaded(wb)[k].value.Some?)
      && (|ks| == 0 ==> tabs == [Tab("Sheet", [])])
      && (|ks| > 0 ==> |tabs| == |ks| && forall a :: 0 <= a < |ks| ==>
            Some(tabs[a]) == CreateDbTab(d, Loaded(wb)[ks[a]].value, TabTitles[ks[a]], HidesFirstLine(ks[a])))
  {
    var sheets := Sequence(Loaded(wb)).value;
    SlotsOfMembers(sheets, |TabTitles|, k);
  }

  // ---------------------------------------------------------------------
  // _add_header_rows
  // ---------------------------------------------------------------------

  /** n rows without cells. */
  function EmptyRows(n: nat): (r: Sheet)
    ensures |r| == n && forall i :: 0 <= i < n ==> r[i] == []
  {
    if n == 0 then [] else EmptyRows(n - 1) + [[]]
  }

  /** `ws.cell(row=i, column=j).value = v`: missing rows and cells spring into being empty. */
  function WriteCell(s: Sheet, i: nat, j: nat, v: Cell): (t: Sheet)
    requires i >= 1 && j >= 1
    ensures |t| == if |s| < i then i else |s|
    ensures forall a, b {:trigger SheetCell(t, a, b)} :: SheetCell(t, a, b) == if a == i && b == j then v else SheetCell(s, a, b)
  {
    var grown := if |s| < i then s + EmptyRows(i - |s|) else s;
    assert forall a, b {:trigger SheetCell(grown, a, b)} :: SheetCell(grown, a, b) == SheetCell(s, a, b);
    var row := Pad(grown[i - 1], j);
    assert forall b :: 1 <= b <= |row| ==> row[b - 1] == SheetCell(grown, i, b);
    grown[i - 1 := row[j - 1 := v]]
  }

  /**
   * `_add_header_rows`: every header cell's value lands at its own 1-based
   * position of the target sheet; every other cell keeps its value.
   */
  method AddHeaderRows(header: Sheet, s: Sheet) returns (t: Sheet)
    ensures forall a, b {:trigger SheetCell(t, a, b)} :: (SheetCell(t, a, b) ==
      if 1 <= a <= |header| && 1 <= b <= |header[a - 1]| then header[a - 1][b - 1] else SheetCell(s, a, b))
  {
    t := s;
    var i := 0;
    while i < |header|
      invariant 0 <= i <= |header|
      invariant forall a, b {:trigger SheetCell(t, a, b)} :: (SheetCell(t, a, b) ==
        if 1 <= a <= i && 1 <= b <= |header[a - 1]| then header[a - 1][b - 1] else SheetCell(s, a, b))
    {
      var j := 0;
      while j < |header[i]|
        invariant 0 <= j <= |header[i]|
        invariant forall a, b {:trigger SheetCell(t, a, b)} :: (SheetCell(t, a, b) ==
          if (1 <= a <= i && 1 <= b <= |header[a - 1]|) || (a == i + 1 && 1 <= b <= j) then header[a - 1][b - 1]
          else SheetCell(s, a, b))
      {
        t := WriteCell(t, i + 1, j + 1, header[i][j]);
        j := j + 1;
      }
      i := i + 1;
    }
  }

  // ---------------------------------------------------------------------
  // _mix_db_files
  // ---------------------------------------------------------------------

  /** `max_row_per_sheet`: the most rows a spreadsheet sheet can hold. */
  const MaxRowsPerSheet: nat := 1048576

  /** The title of output sheet k. */
  function PageTitle(k: nat): (t: string)
    ensures k == 0 <==> t == "BANCO DE DADOS"
  {
    if k == 0 then "BANCO DE DADOS" else "BANCO DE DADOS - Ext " + Coordinates.Digits(k)
  }

  /** Output sheets never share a title. */
  lemma PageTitlesDistinct(k: nat, m: nat)
    requires k != m
    ensures PageTitle(k) != PageTitle(m)
  {
    if k > 0 && m > 0 && PageTitle(k) == PageTitle(m) {
      var p := "BANCO DE DADOS - Ext ";
      assert Coordinates.Digits(k) == PageTitle(k)[|p|..];
      Coordinates.ParseDigitsOfDigits(k);
      Coordinates.ParseDigitsOfDigits(m);
    }
  }

  /** The header rows of the first file: its rows 1 .. header_max_row, as read. */
  function HeaderRows(f: Sheet, h: nat): (r: Sheet)
    ensures |r| <= h
  {
    if |f| <= h then Rect(f) else Rect(f)[..h]
  }

  /** The rows of one file after its header: rows header_max_row + 1 .. max_row, as read. */
  function Body(f: Sheet, h: nat): Sheet {
    if |f| <= h then [] else Rect(f)[h..]
  }

  /** The body of every file, in order. */
  function Bodies(files: seq<Sheet>, h: nat): (r: seq<Sheet>)
    ensures |r| == |files| && forall k :: 0 <= k < |files| ==> r[k] == Body(files[k], h)
  {
    seq(|files|, k requires 0 <= k < |files| => Body(files[k], h))
  }

  /**
   * One appended row: a new page is started first when the current one
   * already counts `ceiling` rows, header included.
   */
  function Step<X>(pages: seq<seq<X>>, row: X, h: nat, ceiling: nat): (r: seq<seq<X>>)
    requires |pages| > 0
    ensures |r| > 0
  {
    var full := h + |pages[|pages| - 1]| >= ceiling;
    ExtendLast(if full then pages + [[]] else pages, row)
  }

  /** The data rows of every page after appending the rows one by one. */
  function Paginate<X>(data: seq<X>, h: nat, ceiling: nat): (pages: seq<seq<X>>)
    ensures |pages| > 0
  {
    if |data| == 0 then [[]]
    else Step(Paginate(data[..|data| - 1], h, ceiling), data[|data| - 1], h, ceiling)
  }

  /** Paginating one more row is one more step. */
  lemma PaginateSnoc<X>(data: seq<X>, row: X, h: nat, ceiling: nat)
    ensures Paginate(data + [row], h, ceiling) == Step(Paginate(data, h, ceiling), row, h, ceiling)
  {
    assert (data + [row])[..|data|] == data;
  }

  /** The output sheets: each page under the first file's header rows. */
  function Layout(header: Sheet, pages: seq<Sheet>): (r: seq<Tab>)
    ensures |r| == |pages|
    ensures forall k :: 0 <= k < |r| ==> r[k] == Tab(PageTitle(k), header + pages[k])
  {
    seq(|pages|, k requires 0 <= k < |pages| => Tab(PageTitle(k), header + pages[k]))
  }

  /**
   * One pass of the row loop of `_mix_db_files`: when the current sheet
   * already counts `ceiling` rows, a new sheet is begun and its count reset to
   * the header's rows; then the row is appended and counted.
   */
  method AppendRow<X>(pages: seq<seq<X>>, count: nat, sheetIndex: nat, row: X, h: nat, ceiling: nat)
    returns (pages': seq<seq<X>>, count': nat, sheetIndex': nat)
    requires |pages| > 0 && count == h + |pages[|pages| - 1]| && sheetIndex == |pages| - 1
    ensures pages' == Step(pages, row, h, ceiling)
    ensures count' == h + |pages'[|pages'| - 1]| && sheetIndex' == |pages'| - 1
  {
    pages', count', sheetIndex' := pages, count, sheetIndex;
    if count' >= ceiling {
      sheetIndex' := sheetIndex' + 1;
      pages' := pages' + [[]];
      count' := h;
    }
    pages' := ExtendLast(pages', row);
    count' := count' + 1;
  }

  /** The row loop of `_mix_db_files` over one file's body. */
  method AppendRows<X>(pages: seq<seq<X>>, count: nat, sheetIndex: nat, rows: seq<X>, h: nat, ceiling: nat, ghost done: seq<X>)
    returns (pages': seq<seq<X>>, count': nat, sheetIndex': nat)
    requires pages == Paginate(done, h, ceiling)
    requires count == h + |pages[|pages| - 1]| && sheetIndex == |pages| - 1
    ensures pages' == Paginate(done + rows, h, ceiling)
    ensures count' == h + |pages'[|pages'| - 1]| && sheetIndex' == |pages'| - 1
  {
    pages', count', sheetIndex' := pages, count, sheetIndex;
    AppendTakeNone(done, rows);
    ghost var written := done;
    var j := 0;
    while j < |rows|
      invariant 0 <= j <= |rows|
      invariant written == done + rows[..j]
      invariant pages' == Paginate(written, h, ceiling)
      invariant count' == h + |pages'[|pages'| - 1]| && sheetIndex' == |pages'| - 1
    {
      pages', count', sheetIndex' := AppendRow(pages', count', sheetIndex', rows[j], h, ceiling);
      PaginateSnoc(written, rows[j], h, ceiling);
      AppendTakeNext(written, done, rows, j);
      written := written + [rows[j]];
      j := j + 1;
    }
    AppendTakeAll(done, rows);
  }

  /** The file loop of `_mix_db_files`: every file's body appended in turn. */
  method AppendFiles<X>(bodies: seq<seq<X>>, h: nat, ceiling: nat) returns (pages: seq<seq<X>>)
    ensures pages == Paginate(Flatten(bodies), h, ceiling)
  {
    pages := [[]];
    var count := h;
    var sheetIndex := 0;
    ghost var done: seq<X> := [];
    var i := 0;
    while i < |bodies|
      invariant 0 <= i <= |bodies|
      invariant done == Flatten(bodies[..i])
      invariant pages == Paginate(done, h, ceiling)
      invariant count == h + |pages[|pages| - 1]| && sheetIndex == |pages| - 1
    {
      pages, count, sheetIndex := AppendRows(pages, count, sheetIndex, bodies[i], h, ceiling, done);
      FlattenTakeNext(bodies, i);
      done := done + bodies[i];
      i := i + 1;
    }
    assert bodies[..|bodies|] == bodies;
  }

  /**
   * `_mix_db_files`, without the file I/O: nothing when there are no files;
   * otherwise the first file's header rows on every sheet, under them every
   * file's body appended in order, a new sheet begun whenever the count
   * reaches the ceiling.
   */
  method MixDbFiles(files: seq<Sheet>, h: nat, ceiling: nat) returns (r: Option<seq<Tab>>)
    ensures r.None? <==> |files| == 0
    ensures r.Some? ==> r.value == Layout(HeaderRows(files[0], h), Paginate(Flatten(Bodies(files, h)), h, ceiling))
  {
    if |files| == 0 {
      return None;
    }
    var header := HeaderRows(files[0], h);
    var pages := AppendFiles(Bodies(files, h), h, ceiling);
    r := Some(Layout(header, pages));
  }

  /** One step appends the row to the rows read back in order. */
  lemma StepFlatten<X>(pages: seq<seq<X>>, row: X, h: nat, ceiling: nat)
    requires |pages| > 0
    ensures Flatten(Step(pages, row, h, ceiling)) == Flatten(pages) + [row]
  {
    if h + |pages[|pages| - 1]| >= ceiling {
      FlattenSnoc(pages, []);
      FlattenExtendLast(pages + [[]], row);
    } else {
      FlattenExtendLast(pages, row);
    }
  }

  /** Reading the pages back in order gives every data row exactly once, in order. */
  lemma {:induction false} PaginateFlatten<X>(data: seq<X>, h: nat, ceiling: nat)
    ensures Flatten(Paginate(data, h, ceiling)) == data
  {
    if |data| > 0 {
      var init := data[..|data| - 1];
      PaginateFlatten(init, h, ceiling);
      StepFlatten(Paginate(init, h, ceiling), data[|data| - 1], h, ceiling);
      DropLastSnoc(data);
    }
  }

  /**
   * Pages below a ceiling above the header: none holds more than
   * `ceiling - h` data rows, all but the last exactly that many, and none
   * after the first is empty.
   */
  predicate PagesFit<X>(pages: seq<seq<X>>, h: nat, ceiling: nat) {
    (forall k :: 0 <= k < |pages| ==> h + |pages[k]| <= ceiling)
    && (forall k :: 0 <= k < |pages| - 1 ==> h + |pages[k]| == ceiling)
    && (forall k :: 1 <= k < |pages| ==> |pages[k]| > 0)
  }

  /** One step keeps the pages fitting. */
  lemma StepFits<X>(pages: seq<seq<X>>, row: X, h: nat, ceiling: nat)
    requires h < ceiling && |pages| > 0 && PagesFit(pages, h, ceiling)
    ensures PagesFit(Step(pages, row, h, ceiling), h, ceiling)
  {
    var grown := if h + |pages[|pages| - 1]| >= ceiling then pages + [[]] else pages;
    assert forall k :: 0 <= k < |pages| ==> grown[k] == pages[k];
  }

  /** Every pagination below the ceiling fits. */
  lemma {:induction false} PaginateBounds<X>(data: seq<X>, h: nat, ceiling: nat)
    requires h < ceiling
    ensures PagesFit(Paginate(data, h, ceiling), h, ceiling)
  {
    if |data| > 0 {
      PaginateBounds(data[..|data| - 1], h, ceiling);
      StepFits(Paginate(data[..|data| - 1], h, ceiling), data[|data| - 1], h, ceiling);
    }
  }

  /** An empty first page, then one page per row of data, in order. */
  ghost predicate OnePerPage<X>(pages: seq<seq<X>>, data: seq<X>) {
    |pages| == |data| + 1 && pages[0] == [] && forall k :: 1 <= k < |pages| ==> pages[k] == [data[k - 1]]
  }

  /** A page holding only the next row keeps one row per page. */
  lemma OnePerPageSnoc<X>(pages: seq<seq<X>>, data: seq<X>, row: X)
    requires OnePerPage(pages, data)
    ensures OnePerPage(pages + [[row]], data + [row])
  {
    var q := pages + [[row]];
    var d := data + [row];
    forall k | 1 <= k < |q|
      ensures q[k] == [d[k - 1]]
    {
      if k < |pages| {
        assert q[k] == pages[k] && d[k - 1] == data[k - 1];
      }
    }
  }

  /** At or above the ceiling the first page holds no data and every other page one row. */
  lemma {:induction false} PaginateAtCeiling<X>(data: seq<X>, h: nat, ceiling: nat)
    requires h >= ceiling
    ensures OnePerPage(Paginate(data, h, ceiling), data)
  {
    if |data| > 0 {
      var init := data[..|data| - 1];
      var row := data[|data| - 1];
      PaginateAtCeiling(init, h, ceiling);
      ExtendLastEmpty(Paginate(init, h, ceiling), row);
      OnePerPageSnoc(Paginate(init, h, ceiling), init, row);
      DropLastSnoc(data);
    }
  }

  /**
   * With the default single header row and the real ceiling, no output sheet
   * outgrows a spreadsheet and the first keeps the plain title.
   */
  lemma MixDbFilesFits(files: seq<Sheet>)
    requires |files| > 0
    ensures var sheets := Layout(HeaderRows(files[0], 1), Paginate(Flatten(Bodies(files, 1)), 1, MaxRowsPerSheet));
      (forall k :: 0 <= k < |sheets| ==> |sheets[k].rows| <= MaxRowsPerSheet)
      && sheets[0].title == "BANCO DE DADOS"
  {
    PaginateBounds(Flatten(Bodies(files, 1)), 1, MaxRowsPerSheet);
  }

  /** The rows of the output sheets after their headers are all the files' bodies, in order. */
  lemma MixDbFilesKeepsRows(files: seq<Sheet>, h: nat, ceiling: nat)
    requires |files| > 0
    ensures var header := HeaderRows(files[0], h);
      var sheets := Layout(header, Paginate(Flatten(Bodies(files, h)), h, ceiling));
      Flatten(seq(|sheets|, k requires 0 <= k < |sheets| => sheets[k].rows[|header|..])) == Flatten(Bodies(files, h))
  {
    var header := HeaderRows(files[0], h);
    var p := Paginate(Flatten(Bodies(files, h)), h, ceiling);
    var sheets := Layout(header, p);
    assert seq(|sheets|, k requires 0 <= k < |sheets| => sheets[k].rows[|header|..]) == p;
    PaginateFlatten(Flatten(Bodies(files, h)), h, ceiling);
  }
}
