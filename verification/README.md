# Tariff workbook extraction, modelled in Dafny

This project models the extraction core of a tool that reads the tariff
spreadsheets of Brazilian electricity distributors and writes a database
workbook. Each input workbook holds tabs such as "CUSTOS", "MERCADO TUSD",
"TUSD", "TE", "EFEITO" and "TABELAS REH". For each tab, the tool:

- locates labelled columns, reading merged cells through their top-left value;
- trims the trailing empty cells;
- zips the columns into a plain table;
- writes the table as a tab of the database workbook, each data row
  prefixed with the distributor's identification.

Database files are then merged into sheets of at most 1,048,576 rows.

Modules, one per component of the source:

| module | source | what it holds |
|---|---|---|
| `Wrappers` | — | `Option`, `Result` and `Sequence`, which runs a loop of fallible steps and stops at the first failure |
| `Cells` | — | cell values, the exceptions the code can raise, and Python's ordering of strings |
| `Grid` | `utils.py` | a worksheet as a sparse map of cells with merged ranges; `load_values` and its two helpers |
| `Coordinates` | `utils.py` | column letters, the `_sorting_key` of a coordinate, and coordinate parsing |
| `Locator` | `utils.py` | `get_rows_and_columns_from` |
| `Tables` | `utils.py`, `tusd_or_te_data.py` | output sheets as rows; `zip`, `join_sheets_vertically` and `_create_side_by_side_worksheet` |
| `Costs`, `Market`, `Effect`, `Reh` | the four tab loaders of the same names | one loader each |
| `Tariffs` | `tusd_or_te_data.py` | the "TUSD"/"TE" loader: `TusdOrTe`, `_load_tariff_type_info`, `_load_info_at`, `_filtered_header`, `_get_sheet_from_tab`, `load_tusd_or_te_sheet` |
| `Pairs` | `tusd_or_te_data.py` | the cross-file (header, tariff) pairs: `_get_files_dict`, `_get_headers_and_tariffs`, `_get_files_columns` |
| `Mixing` | `tusd_or_te_data.py` | `create_mixed_tusd_or_te_worksheet`, its placeholder logic and the cleaned and data sheets |
| `Database` | `data_base.py` | `_create_db_tab`, `_filtered_workbook`, `_add_header_rows` and the pagination of `_mix_db_files` |

How Python maps onto the model:

- An exception becomes a `Failure` carrying a `Fault`:
  - `NotInList` for `list.index`;
  - `MissingSheet` for `workbook[name]`;
  - `IndexOutOfRange` for an `IndexError`;
  - `BadCoordinate` for openpyxl refusing a row or column below 1.
- A loader's `None` (tab absent) is `Success(None)`.
- A worksheet being read is a `Grid`. A worksheet the code builds is a `Sheet`, a sequence of rows.
- Reading a built sheet pads every row to the sheet's width, as `iter_rows(values_only=True)` does.

## Model

| member | source | states |
|---|---|---|
| `Grid.Tab` | app/modules/tabs/tusd_or_te_data.py:217 | indexing a workbook by tab name succeeds exactly when the tab exists, and otherwise fails with the missing name |
| `Grid.FirstCover` | app/modules/utils.py:56-64 | the merged range consulted is the first one, in list order, that contains the cell; no earlier range contains it; None means that no range contains it |
| `Grid.ResolveCases` | app/modules/utils.py:51-66 | a stored value is read as is; an empty cell takes the top-left value of the first merged range containing it; an empty cell outside every range stays None |
| `Grid.PropagateMergedValues` | app/modules/utils.py:34-68 | one resolved value per position from `start` to `max_column`/`max_row`, or none when `start` is past the end; a coordinate below 1 is refused |
| `Grid.RemoveEmptyValues` | app/modules/utils.py:71-76 | the result is a prefix of the input; everything dropped is None; the result never ends in None |
| `Grid.RemoveEmptyValuesAllNone` | app/modules/utils.py:71-76 | a list of only None trims to the empty list |
| `Grid.RemoveEmptyValuesUnique` | app/modules/utils.py:71-76 | any prefix that drops only None and does not end in None is the trimmed result |
| `Grid.RemoveEmptyValuesIdempotent` | app/modules/utils.py:71-76 | trimming twice is trimming once |
| `Grid.LoadValues` | app/modules/utils.py:16-31 | a 0-based index and a start from 1 always succeed; value k is the resolved cell at row or column `index + 1`, position `start + k`; the result stays inside the sheet and never ends in None |
| `Grid.LoadValuesDropped` | app/modules/utils.py:16-31 | every position after the returned values, up to the sheet's edge, resolves to None |
| `Grid.LoadValuesWithoutMerges` | app/modules/utils.py:34-76 | on a sheet without merged ranges, `load_values` is the raw cells with the trailing empties stripped |
| `Grid.RowValues` | app/modules/tabs/tusd_or_te_data.py:45-46 | the header row is `max_column` cells wide, and cell c is the raw cell (1, c) |
| `Grid.IndexOf` | app/modules/tabs/costs_data.py:19 | `list.index` gives the first position holding the value, and a ValueError exactly when the value is absent |
| `Grid.ColumnByHeader` | app/modules/tabs/costs_data.py:17-22 | a column under a header label succeeds exactly when the label is in the header; it is then the column at the label's first position, read from row 2 |
| `Grid.ColumnsByHeaders` | app/modules/tabs/tusd_or_te_market_data.py:17-78 | several lookups succeed exactly when every label is in the header; otherwise the error names the first missing label, in call order |
| `Coordinates.ColumnLetters` | app/modules/utils.py:104-105 | column letters are upper case, and are empty only for column 0 |
| `Coordinates.ColumnIndexOfLetters` | app/modules/utils.py:104-105 | `column_index_from_string` inverts the column letters |
| `Coordinates.ColumnLettersOfIndex` | app/modules/utils.py:104-105 | the column letters invert `column_index_from_string` on every upper-case string |
| `Coordinates.ColumnLettersInjective` | app/modules/utils.py:104-105 | distinct columns have distinct letters |
| `Coordinates.Digits` | app/modules/utils.py:113 | the numeral of a row is a non-empty string of digits |
| `Coordinates.ParseDigitsOfDigits` | app/modules/utils.py:113 | `int` of a row's numeral gives the row back |
| `Coordinates.Letters` | app/modules/utils.py:112 | `filter(str.isalpha)` keeps only letters |
| `Coordinates.Numerals` | app/modules/utils.py:113 | `filter(str.isdigit)` keeps only digits |
| `Coordinates.SortingKey` | app/modules/utils.py:111-114 | the key exists exactly when the coordinate has digits, `int('')` failing otherwise; the key's first part is the coordinate's letters |
| `Coordinates.SortingKeyOfCoordinate` | app/modules/utils.py:111-114 | the key of the coordinate of cell (r, c) is (letters of c, r) |
| `Coordinates.LeadingLetters` | app/modules/utils.py:104 | the split point of a coordinate: every character before it is an upper-case letter, and the one at it is not |
| `Coordinates.ParseCoordinate` | app/modules/utils.py:103-106 | a parsed coordinate has a row of at least 1 and a column from 1 to 18278 ("ZZZ"); a refused one fails with a coordinate error |
| `Coordinates.ParseCoordinateRoundTrip` | app/modules/utils.py:103-106 | parsing the coordinate of cell (r, c) gives (r, c) back |
| `Cells.StrLessIrreflexive` | app/modules/utils.py:99 | Python's string order never puts a string before itself |
| `Cells.StrLessTransitive` | app/modules/utils.py:99 | Python's string order is transitive |
| `Cells.StrLessTotal` | app/modules/utils.py:99 | any two distinct strings are ordered one way or the other |
| `Cells.CellLessIrreflexive` | app/modules/tabs/tusd_or_te_data.py:437 | the order used to sort cell values is irreflexive |
| `Cells.CellLessTransitive` | app/modules/tabs/tusd_or_te_data.py:437 | the order used to sort cell values is transitive |
| `Cells.CellLessTotal` | app/modules/tabs/tusd_or_te_data.py:437 | the order used to sort cell values is total on distinct values |
| `Locator.CoordLessIrreflexive` | app/modules/utils.py:99 | the order of located cells is irreflexive |
| `Locator.CoordLessTransitive` | app/modules/utils.py:99 | the order of located cells is transitive |
| `Locator.CoordLessTotal` | app/modules/utils.py:111-114 | no two distinct cells share a sorting key |
| `Locator.ScanRow` | app/modules/utils.py:95-97 | the scan of one row finds exactly the columns whose raw value equals the searched value |
| `Locator.Scan` | app/modules/utils.py:94-97 | the `iter_rows` scan finds exactly the cells in the sheet's extent whose raw value equals the searched value |
| `Locator.Insert` | app/modules/utils.py:99 | inserting into a sorted list keeps it sorted and adds exactly the new cell |
| `Locator.SortCoords` | app/modules/utils.py:99 | `sorted(..., key=_sorting_key)` is a sorted list with the same members |
| `Locator.RowsAndColumnsFrom` | app/modules/utils.py:91-108 | the located cells are exactly the matching cells, each once, in strictly increasing (column letters, row) order |
| `Locator.SortedUnique` | app/modules/utils.py:99 | two strictly sorted lists with the same members are equal |
| `Locator.RowsAndColumnsFromUnique` | app/modules/utils.py:91-108 | any strictly sorted list of exactly the matching cells is the locator's result |
| `Locator.ColumnAABeforeColumnB` | app/modules/utils.py:111-114 | columns sort as text: a match in column AA is listed before a match in column B, whatever the rows |
| `Tables.Repeat` | app/modules/data_base.py:333-337 | the append loop gives n copies of the value |
| `Tables.MinLen` | app/modules/tabs/tusd_or_te_data.py:180 | `zip` stops at the shortest column, and with no columns at 0 |
| `Tables.MinLenUniform` | app/modules/tabs/tusd_or_te_data.py:180 | columns of one common length zip to that many rows |
| `Tables.Zip` | app/modules/tabs/tusd_or_te_data.py:180-181 | row i holds the i-th value of every column, for as many rows as the shortest column |
| `Tables.Width` | app/modules/tabs/tusd_or_te_data.py:509 | `max_column` is the length of the longest row, and 0 for a sheet without rows |
| `Tables.WidthOfUniform` | app/modules/tabs/tusd_or_te_data.py:509 | a sheet whose rows share a width has that `max_column` |
| `Tables.Pad` | app/modules/utils.py:124 | a row read from a sheet keeps its cells and is extended with None to the sheet's width |
| `Tables.Rect` | app/modules/utils.py:124 | `iter_rows(values_only=True)` yields every row at the sheet's width, and changes no cell except by filling in None |
| `Tables.RectOfUniform` | app/modules/utils.py:124 | reading a sheet whose rows share one width returns it unchanged |
| `Tables.RectReadsSame` | app/modules/utils.py:124 | reading a sheet never changes the value of a cell |
| `Tables.DropFirst` | app/modules/utils.py:125-126 | skipping row 1 leaves the rest of the rows, and nothing when there are none |
| `Tables.Tails` | app/modules/utils.py:123-126 | each later sheet contributes its rows, as read, after the first |
| `Tables.JoinVertically` | app/modules/utils.py:117-133 | the joined sheet begins with every row of the first sheet, as read, and is empty for no sheets |
| `Tables.JoinVerticallyAppend` | app/modules/utils.py:123-131 | joining one more sheet appends exactly its rows after the first |
| `Tables.JoinVerticallyFlatten` | app/modules/utils.py:117-133 | the joined sheet is the first sheet's rows followed by each later sheet's rows after the first, in order |
| `Tables.MaxHeight` | app/modules/tabs/tusd_or_te_data.py:508 | the combined sheet's height is the tallest sheet's `max_row` |
| `Tables.ColumnsBeforeMonotone` | app/modules/tabs/tusd_or_te_data.py:505-516 | `current_column` only grows: each sheet's columns end before the next sheet's begin |
| `Tables.SideRow` | app/modules/tabs/tusd_or_te_data.py:511-514 | every combined row is as wide as all the sheets' `max_column` together |
| `Tables.SideBySide` | app/modules/tabs/tusd_or_te_data.py:501-518 | the combined sheet is as tall as the tallest sheet and as wide as all the sheets together |
| `Tables.SideBySidePlacement` | app/modules/tabs/tusd_or_te_data.py:501-518 | cell (i, j) of the k-th sheet lands at (i, offset + j); the offset is the sum of the earlier sheets' `max_column` |
| `Tables.SideBySideLeft` | app/modules/tabs/tusd_or_te_data.py:505-514 | of two sheets side by side, the left one keeps its cells in place |
| `Tables.SideBySideRight` | app/modules/tabs/tusd_or_te_data.py:505-516 | of two sheets side by side, the right one moves right by the left one's `max_column` |
| `Tables.SideBySideWidth` | app/modules/tabs/tusd_or_te_data.py:501-518 | a combined sheet with rows is as wide as its parts together |
| `Tariffs.Blocks` | app/modules/tabs/tusd_or_te_data.py:189-191 | the loop writes each tariff type `length` times, giving `length` cells per type |
| `Tariffs.BlocksAt` | app/modules/tabs/tusd_or_te_data.py:189-191 | position b * length + t holds the b-th tariff type |
| `Tariffs.TariffTypeInfo` | app/modules/tabs/tusd_or_te_data.py:186-193 | an empty first cell, then the tariff-type blocks |
| `Tariffs.TabColumn` | app/modules/tabs/tusd_or_te_data.py:217-224 | one pass succeeds exactly when the tab exists and the column is in the main header; a missing tab raises before a missing column |
| `Tariffs.TabColumns` | app/modules/tabs/tusd_or_te_data.py:216-224 | one pass per tariff tab, in order |
| `Tariffs.InfoAtTabs` | app/modules/tabs/tusd_or_te_data.py:216-226 | the loop fails only with a missing tab or a missing column |
| `Tariffs.InfoAtTabsOutcome` | app/modules/tabs/tusd_or_te_data.py:216-226 | the loop succeeds exactly when every tab exists and (with any tab) the column is in the header; a failure is at the first bad tab in loop order |
| `Tariffs.InfoAtTabsConcat` | app/modules/tabs/tusd_or_te_data.py:216-226 | reading two runs of tabs in turn is reading them together: the values are concatenated |
| `Tariffs.InfoAtSingleTab` | app/modules/tabs/tusd_or_te_data.py:217-226 | one tab contributes its column at the header position of the name, read from row 5 |
| `Tariffs.LoadInfoAt` | app/modules/tabs/tusd_or_te_data.py:207-228 | the result is the tabs' columns one after another, after an empty cell exactly when `insert_new_row` is set; the loop's error is passed on |
| `Tariffs.GetLength` | app/modules/tabs/tusd_or_te_data.py:196-204 | the length succeeds exactly when the reference tab exists and "SUBGRUPO" is in the header; it is then the count of values from row 5 of that column |
| `Tariffs.AttributeInfo` | app/modules/tabs/tusd_or_te_data.py:99-163 | the attribute columns, each opening with an empty cell; on a failure, the error is that of one of the columns |
| `Tariffs.MainSheet` | app/modules/tabs/tusd_or_te_data.py:88-183 | fails only with a missing tab or label; the main sheet is nine columns wide, its header built around the unit in cell F1 of the main tab, its first data row nine empty strings; it has one row after the header per position of the shortest of the nine columns, the tariff-type column and the eight attribute columns |
| `Tariffs.MainSheetRow` | app/modules/tabs/tusd_or_te_data.py:180-181 | data row i holds the i-th tariff type in column 1 and, in column j, the i-th value `_load_info_at` reads for the j-th attribute |
| `Tariffs.MainRowsShape` | app/modules/tabs/tusd_or_te_data.py:168-181 | nine columns that each open with an empty cell zip under the header into nine-wide rows, the first data row empty strings |
| `Tariffs.FilteredHeader` | app/modules/tabs/tusd_or_te_data.py:314-323 | `_filtered_header` keeps the values before the first None: a prefix with no None, stopped only at a None |
| `Tariffs.FilteredHeaderIdempotent` | app/modules/tabs/tusd_or_te_data.py:314-323 | filtering twice is filtering once |
| `Tariffs.FilteredHeaderOfNoneFree` | app/modules/tabs/tusd_or_te_data.py:314-323 | a list without None is kept whole |
| `Tariffs.RemainingHeaderCells` | app/modules/tabs/tusd_or_te_data.py:301-311 | the titles are the resolved cells of row 3 from column 12, none of them None, and they stop at the first gap |
| `Tariffs.Take` | app/modules/tabs/tusd_or_te_data.py:281 | `values[:length+1]` keeps the first values, at most that many |
| `Tariffs.TextCount` | app/modules/tabs/tusd_or_te_data.py:272-273 | there are at most as many text titles as titles |
| `Tariffs.TitleColumn` | app/modules/tabs/tusd_or_te_data.py:272-281 | one title's column holds at most `length + 1` values, value v being the tab's resolved cell in row 4 + v of that column |
| `Tariffs.TitleColumns` | app/modules/tabs/tusd_or_te_data.py:269-284 | one column per text title, each cut to `length + 1` values |
| `Tariffs.TitleColumnsAt` | app/modules/tabs/tusd_or_te_data.py:269-284 | the k-th title, if text, is answered by the tab's column at the first title's position plus k, read from row 4, after the columns of the earlier text titles |
| `Tariffs.TitleColumnCell` | app/modules/tabs/tusd_or_te_data.py:267-284 | value v of the column under text title k is the tab's cell in row 4 + v of column `start + k + 1` |
| `Tariffs.SheetFromTab` | app/modules/tabs/tusd_or_te_data.py:248-298 | succeeds exactly when both tabs exist, the title row is not empty and the first title is in the tab's row 3; otherwise a missing reference tab or tariff tab fails with its name, an empty title row with an IndexError, and a first title missing from row 3 with the `ValueError` of `header.index`; a sheet is the titles stacked over the title columns read from the first title's position; the first tab keeps the titles as row 1 and at most `length + 2` rows, later tabs at most `length` |
| `Tariffs.SheetFromTabCell` | app/modules/tabs/tusd_or_te_data.py:267-296 | with `start` the first title's position in row 3, the cell under text title k in data row i is the tab's cell in column `start + k + 1`, row 3 + i for the first tab and row 5 + i for a later one, which lost its first two rows |
| `Tariffs.StackedColumns` | app/modules/tabs/tusd_or_te_data.py:286-296 | the first tab has the titles as row 0 over one row per position of the shortest column, row i holding value i - 1 of every column; a later tab has what `iter_rows(min_row=3)` reads back, the titles and first data row dropped |
| `Tariffs.StackedColumnsCell` | app/modules/tabs/tusd_or_te_data.py:286-296 | cell (i, m) of a stacked sheet is value i - 1 of column m for the first tab and value i + 1 for a later one |
| `Tariffs.RowsFromThird` | app/modules/tabs/tusd_or_te_data.py:290-296 | a later tab keeps one row fewer than the shortest column (none when it has at most one value); row i holds value i + 1 of each column and is padded with None to the wider of the title row and the data rows |
| `Tariffs.RemainingSheets` | app/modules/tabs/tusd_or_te_data.py:231-245 | one sheet per tariff tab, in order, only the first keeping its title rows; the whole fails exactly when one tab does, with the first failure |
| `Tariffs.LoadTusdOrTeSheet` | app/modules/tabs/tusd_or_te_data.py:38-85 | nothing exactly when the main tab is absent; a failure needs the main tab present; a sheet is the main sheet combined with the tariff tabs' stacked rows, both built from the header and the length read from the reference tab |
| `Tariffs.StackedRows` | app/modules/tabs/tusd_or_te_data.py:74-78 | the remaining sheets' rows, sheet after sheet, each read as wide as its own sheet |
| `Tariffs.Combined` | app/modules/tabs/tusd_or_te_data.py:66-84 | as tall as the taller of the main sheet and the stacked rows; the main sheet's cells stay in its own columns and stacked cell (i, j) lands at (i, main width + j) |
| `Tariffs.TusdOrTeLayout` | app/modules/tabs/tusd_or_te_data.py:70-83 | the main sheet stays in columns 1 to 9, and cell (i, j) of the stacked tariff rows lands at (i, 9 + j) |
| `Pairs.MainWorksheets` | app/modules/tabs/tusd_or_te_data.py:334-339 | exactly the main tabs of the files that have one; files without it are skipped |
| `Pairs.HeaderLabels` | app/modules/tabs/tusd_or_te_data.py:334-347 | the label set is exactly the row-1 cells from column 18 to `max_column` of every main worksheet, and empty when no worksheet reaches column 18 |
| `Pairs.LabelledColumns` | app/modules/tabs/tusd_or_te_data.py:399-417 | exactly the columns whose row-1 cell is a header label, ascending |
| `Pairs.Entries` | app/modules/tabs/tusd_or_te_data.py:399-417 | one dictionary entry per worksheet, in file order, each that worksheet's labelled row-1 columns |
| `Pairs.FilesDictEntryLocated` | app/modules/tabs/tusd_or_te_data.py:399-417 | a worksheet's entry lists column c exactly when the locator finds (1, c) for some label, in ascending order |
| `Pairs.PairAt` | app/modules/tabs/tusd_or_te_data.py:427-434 | the pair under a column is its resolved row-1 and row-2 values; a column too short raises an IndexError |
| `Pairs.PairAtFails` | app/modules/tabs/tusd_or_te_data.py:427-434 | the read raises exactly when nothing from row 2 down to `max_row` resolves to a value |
| `Pairs.Lookups` | app/modules/tabs/tusd_or_te_data.py:423-426 | the reads visit exactly the (worksheet, column) entries of the files dictionary |
| `Pairs.FoundPairs` | app/modules/tabs/tusd_or_te_data.py:420-435 | the reading loop fails only with an IndexError |
| `Pairs.ReadsSucceed` | app/modules/tabs/tusd_or_te_data.py:423-435 | the reads succeed exactly when every looked-up column has a value below row 1 |
| `Pairs.ReadsFind` | app/modules/tabs/tusd_or_te_data.py:423-435 | successful reads find exactly the (row 1, row 2) values of the looked-up columns |
| `Pairs.FoundPairsMembers` | app/modules/tabs/tusd_or_te_data.py:420-435 | both facts above, for the files dictionary built from the header labels |
| `Pairs.PairLessIrreflexive` | app/modules/tabs/tusd_or_te_data.py:437-442 | the pair order is irreflexive |
| `Pairs.PairLessTransitive` | app/modules/tabs/tusd_or_te_data.py:437-442 | the pair order is transitive |
| `Pairs.PairLessTotal` | app/modules/tabs/tusd_or_te_data.py:437-442 | any two distinct pairs are ordered |
| `Pairs.InsertPair` | app/modules/tabs/tusd_or_te_data.py:440-442 | insertion keeps the pairs sorted and adds exactly the new pair, once |
| `Pairs.SortPairs` | app/modules/tabs/tusd_or_te_data.py:437-442 | sorting, grouping and deduplicating gives a strictly sorted list with the same members |
| `Pairs.PairsSortedUnique` | app/modules/tabs/tusd_or_te_data.py:437-444 | a strictly sorted list of pairs is fixed by its members |
| `Pairs.PairsSortedGroups` | app/modules/tabs/tusd_or_te_data.py:437-444 | in the result, headers never decrease and no pair repeats; within a header a SUBTOTAL pair comes after every other |
| `Pairs.HeadersAndTariffs` | app/modules/tabs/tusd_or_te_data.py:420-445 | every pair found, each once, in pair order; it fails exactly when the reading loop does |
| `Pairs.CarryingColumns` | app/modules/tabs/tusd_or_te_data.py:455-467 | exactly the columns holding the header in row 1 and the tariff in row 2, ascending |
| `Pairs.CommonColumnsLocated` | app/modules/tabs/tusd_or_te_data.py:455-467 | a common column is one where the locator finds the header at row 1 and the tariff at row 2 |
| `Pairs.EntriesAsWritten` | app/modules/tabs/tusd_or_te_data.py:469-473 | one pair adds `[None]` when no column carries it and every carrying column otherwise; it adds several entries exactly when several columns carry it |
| `Pairs.FilesColumnsAsWritten` | app/modules/tabs/tusd_or_te_data.py:448-477 | as written, the list has at least one entry per pair and begins with the first pair's entries |
| `Pairs.FirstColumn` | app/modules/tabs/tusd_or_te_data.py:465-473 | the first column carrying the pair, and None exactly when no column does |
| `Pairs.FilesColumns` | app/modules/tabs/tusd_or_te_data.py:448-477 | corrected: exactly one entry per pair, its first carrying column or None |
| `Pairs.FilesColumnsAgree` | app/modules/tabs/tusd_or_te_data.py:448-477 | when no pair is carried by two columns, the code as written and the corrected list coincide |
| `Pairs.FilesColumnsMisaligned` | app/modules/tabs/tusd_or_te_data.py:465-473 | when the first pair is carried by two columns, the entry read for the second pair is the first pair's second column, unlike the corrected list |
| `Mixing.MissingSegment` | app/modules/tabs/tusd_or_te_data.py:368-376 | a file lacking the pair gives the pair's two cells when it is first, then one "Nao se aplica" for each of rows 3 to `max_row` |
| `Mixing.TrimmedSegmentShort` | app/modules/tabs/tusd_or_te_data.py:378-385 | as written, a found column whose last row is empty contributes fewer values than the file has rows |
| `Mixing.TrimmedColumnShort` | app/modules/tabs/tusd_or_te_data.py:378-383 | a column read from `start` whose last row is empty stops short of `max_row` |
| `Mixing.SegmentCells` | app/modules/tabs/tusd_or_te_data.py:362-387 | corrected: each file contributes one cell per row it keeps, the row's resolved value in the found column or the pair cells and placeholders |
| `Mixing.SegmentLength` | app/modules/tabs/tusd_or_te_data.py:362-387 | corrected: each contribution is as long as the file's kept rows |
| `Mixing.SegmentAgrees` | app/modules/tabs/tusd_or_te_data.py:378-385 | when the found column's last row holds a value, the code as written and the correction coincide |
| `Mixing.Segments` | app/modules/tabs/tusd_or_te_data.py:365-385 | corrected: one contribution per file |
| `Mixing.PairColumn` | app/modules/tabs/tusd_or_te_data.py:362-387 | corrected: one cell per row of the cleaned sheet |
| `Mixing.SegmentAsWritten` | app/modules/tabs/tusd_or_te_data.py:366-385 | as written, a file's contribution: value k is what its row `FirstRow + k` gives, from the column its entry names or the pair cells and placeholders; a found column contributes at most the file's kept rows, stops at its last value and leaves only empty rows below |
| `Mixing.SegmentsAsWritten` | app/modules/tabs/tusd_or_te_data.py:365-385 | as written: one contribution per file, file j read with entry i of its as-written files-columns list |
| `Mixing.PairColumnAsWritten` | app/modules/tabs/tusd_or_te_data.py:362-387 | as written, the pair column is the files' contributions one after another, never longer than the cleaned sheet |
| `Mixing.PairColumnAsWrittenAt` | app/modules/tabs/tusd_or_te_data.py:362-387 | as written, file j's k-th value for pair i sits at index `AsWrittenOffset(i, j) + k`, the value of its row `FirstRow + k` in the column its as-written entry names |
| `Mixing.SegmentsAsWrittenAgree` | app/modules/tabs/tusd_or_te_data.py:362-387 | when no file carries a pair twice and each found column is filled to the last row, every file contributes the same cells either way |
| `Mixing.PairColumnShifted` | app/modules/tabs/tusd_or_te_data.py:362-387 | as written, a short first contribution puts the second file's first value at an index that belongs to the first file's rows |
| `Mixing.PairColumnAligned` | app/modules/tabs/tusd_or_te_data.py:362-387 | corrected: the pair column holds file j's value for its row `FirstRow + r` at index `RowOffset(j) + r` |
| `Mixing.TruncatedRow` | app/modules/tabs/tusd_or_te_data.py:482 | `delete_cols(18, ...)` keeps at most the first 17 cells of a row, unchanged |
| `Mixing.TruncatedCell` | app/modules/tabs/tusd_or_te_data.py:482 | cutting a worksheet at column 17 keeps every row, each exactly as wide as the first 17 columns, with every kept cell in its place |
| `Mixing.CleanedBlocks` | app/modules/tabs/tusd_or_te_data.py:480-487 | one block of kept rows per file |
| `Mixing.Cleaned` | app/modules/tabs/tusd_or_te_data.py:480-487 | the cleaned sheet is the files' kept rows, file after file, the first file from row 1 and the others from row 3; it has as many rows as the files keep, and no rows without files |
| `Mixing.PartsAreBlocks` | app/modules/tabs/tusd_or_te_data.py:480-487 | joining the cut worksheets vertically, later ones with row 1 deleted, keeps the first file whole and the others from row 3 |
| `Mixing.CleanedBlock` | app/modules/tabs/tusd_or_te_data.py:480-487 | file j keeps one cleaned row per kept row, its row `FirstRow + r` cut to 17 columns |
| `Mixing.CleanedAligned` | app/modules/tabs/tusd_or_te_data.py:480-487 | the cleaned sheet's row `RowOffset(j) + r` is file j's row `FirstRow + r`, cut to 17 columns |
| `Mixing.Longest` | app/modules/tabs/tusd_or_te_data.py:494-496 | the data sheet is as tall as the longest column |
| `Mixing.DataSheet` | app/modules/tabs/tusd_or_te_data.py:490-498 | one row per value of the longest column, each row one cell per column |
| `Mixing.DataSheetCell` | app/modules/tabs/tusd_or_te_data.py:490-498 | cell (i, j) of the data sheet is value i of column j, and empty past the column's end |
| `Mixing.DataSheetBeside` | app/modules/tabs/tusd_or_te_data.py:389-391 | placed right of any sheet, the data sheet keeps value i of column j in its own column |
| `Mixing.MixedData` | app/modules/tabs/tusd_or_te_data.py:360-387 | as written: one column per pair, each as long as the files' contributions together and never longer than the cleaned sheet |
| `Mixing.MixedDataCell` | app/modules/tabs/tusd_or_te_data.py:360-387 | as written, the column of pair i holds file j's k-th value at index `AsWrittenOffset(i, j) + k` |
| `Mixing.MixedSheet` | app/modules/tabs/tusd_or_te_data.py:389-391 | as written: the cleaned rows with the pair columns to their right, never shorter than any of them and exactly as tall as the cleaned sheet |
| `Mixing.AlignedData` | app/modules/tabs/tusd_or_te_data.py:360-387 | corrected: one column per pair, each exactly as long as the cleaned sheet |
| `Mixing.AlignedDataCell` | app/modules/tabs/tusd_or_te_data.py:360-387 | corrected: the column of pair i holds, at file j's index for its row `FirstRow + r`, the value that row gives the pair |
| `Mixing.AlignedSheet` | app/modules/tabs/tusd_or_te_data.py:389-391 | corrected: the cleaned rows with the aligned pair columns to their right, exactly as tall as the cleaned sheet |
| `Mixing.MixedSheetData` | app/modules/tabs/tusd_or_te_data.py:389-396 | as written: in the final sheet, pair i's column holds file j's k-th value at row `AsWrittenOffset(i, j) + k + 1` |
| `Mixing.AlignedSheetData` | app/modules/tabs/tusd_or_te_data.py:389-396 | corrected: in the final sheet, file j's row holds the file's value for pair i in the column of that pair |
| `Mixing.MixedSheetAgrees` | app/modules/tabs/tusd_or_te_data.py:362-391 | when no file carries a pair twice and each found column is filled to the last row, the sheet as written is the corrected sheet |
| `Mixing.CleanedLeft` | app/modules/tabs/tusd_or_te_data.py:389-391 | with any sheet to its right, the row of file j's row `FirstRow + r` holds that row's own cells in its first 17 columns |
| `Mixing.CreateMixed` | app/modules/tabs/tusd_or_te_data.py:326-396 | as written: it fails only with an IndexError, exactly when reading the (header, tariff) pairs of the files' main tabs fails |
| `Mixing.CreateMixedAligned` | app/modules/tabs/tusd_or_te_data.py:326-396 | corrected: the same failures as the sheet as written |
| `Mixing.CreateMixedHeight` | app/modules/tabs/tusd_or_te_data.py:389-396 | both sheets are exactly as tall as the rows the files keep, whichever way the pair columns are built |
| `Mixing.CreateMixedCells` | app/modules/tabs/tusd_or_te_data.py:360-396 | as written, the sheet added holds in pair i's column, at row `AsWrittenOffset(i, j) + k + 1`, file j's k-th value for the pair |
| `Mixing.CreateMixedAlignedCells` | app/modules/tabs/tusd_or_te_data.py:360-396 | corrected: the sheet holds in pair i's column, at the row of file j's row `FirstRow + r`, that row's value for the pair |
| `Mixing.CreateMixedLeft` | app/modules/tabs/tusd_or_te_data.py:389-396 | both sheets hold, in the row of file j's row `FirstRow + r`, that row's own cells in their first 17 columns |
| `Costs.TotalsIndexes` | app/modules/tabs/costs_data.py:87-97 | the positions of the total labels, ascending, and exactly those |
| `Costs.DelAt` | app/modules/tabs/costs_data.py:103-105 | `del values[k]` succeeds exactly for -len <= k < len, and removes one value |
| `Costs.RemoveValuesAt` | app/modules/tabs/costs_data.py:100-105 | the removal fails only with an IndexError |
| `Costs.KeepLength` | app/modules/tabs/costs_data.py:100-105 | removing distinct positions in range leaves the length minus their count |
| `Costs.RemoveValuesAtKeeps` | app/modules/tabs/costs_data.py:100-105 | with ascending indexes, the shifted deletions succeed exactly when the last index is in range, and then remove exactly the listed positions |
| `Costs.RemovedLength` | app/modules/tabs/costs_data.py:100-105 | ascending in-range removals shorten the list by their count |
| `Costs.KeepTotals` | app/modules/tabs/costs_data.py:87-105 | keeping the positions that are not totals is dropping the totals |
| `Costs.RemoveOwnTotals` | app/modules/tabs/costs_data.py:24-29 | removing the cost column's own totals never fails, and leaves exactly its non-total values |
| `Costs.Appended` | app/modules/tabs/costs_data.py:108-114 | three copies: values t, len + t and 2 len + t are all the t-th value |
| `Costs.CostTypeInfo` | app/modules/tabs/costs_data.py:117-127 | length copies of "BASE ECONÔMICA", then of "BASE FINANCEIRA", then of "CVA" |
| `Costs.ColumnWithoutTotals` | app/modules/tabs/costs_data.py:34-44 | a column with the totals removed fails with a ValueError exactly when its label is missing, and otherwise only with an IndexError |
| `Costs.CostsTable` | app/modules/tabs/costs_data.py:70-84 | the header, then one five-wide row per position of the shortest of the five columns, so at most 3 m rows for m costs |
| `Costs.LoadCostsSheet` | app/modules/tabs/costs_data.py:7-84 | nothing exactly when "CUSTOS" is absent; errors are a missing label or an IndexError; the sheet has the header and five-wide rows, and no data row's cost is a total |
| `Costs.CostColumnHasNoTotals` | app/modules/tabs/costs_data.py:73-82 | a cost column without totals gives a table without totals in its cost column |
| `Costs.CostsTableRows` | app/modules/tabs/costs_data.py:81-82 | with equal-length columns of m values, the table has 3m data rows, and row b * m + t pairs cost row t with basis b and that basis' t-th value |
| `Costs.CostsTableRow` | app/modules/tabs/costs_data.py:81-82 | row 1 + i of the table is row i of the five zipped columns |
| `Costs.CostColumnsAt` | app/modules/tabs/costs_data.py:108-169 | at row t of block b, every stacked column holds its t-th value and the basis label is the b-th |
| `Market.DropLast` | app/modules/tabs/tusd_or_te_market_data.py:98-99 | `delete_rows(max_row)` removes the last row and keeps the others |
| `Market.MarketTable` | app/modules/tabs/tusd_or_te_market_data.py:83-99 | after the last row is deleted, the table has as many rows as the shortest column, the header first, every data row one cell per column |
| `Market.LoadMarketSheet` | app/modules/tabs/tusd_or_te_market_data.py:7-101 | nothing exactly when the tab is absent; it fails exactly when a label is missing from row 1, naming the first missing one |
| `Market.MarketTableRows` | app/modules/tabs/tusd_or_te_market_data.py:83-99 | the renamed header, then every zipped row but the last; without data rows the header itself is deleted |
| `Effect.TariffTypeInfo` | app/modules/tabs/effect_data.py:60-68 | length copies of "TUSD", then of "TE", then of "TOTAL" |
| `Effect.EffectLength` | app/modules/tabs/effect_data.py:49-57 | the length is the row, counted from 2, of the last value of the first RA0 column: that cell holds a value and every row below it down to `max_row` is empty |
| `Effect.LoadInfo` | app/modules/tabs/effect_data.py:71-84 | the columns `start`, `start + 5` and `start + 10` read from row 2, one after another: value k of each block is the resolved cell of its column at row 2 + k |
| `Effect.EffectTableOf` | app/modules/tabs/effect_data.py:33-46 | the header, then one four-wide row per position of the shortest of the four columns; data row i holds the i-th cell of each column |
| `Effect.LoadEffectSheet` | app/modules/tabs/effect_data.py:7-46 | nothing exactly when "EFEITO" is absent; the read cannot fail; the sheet has the header and four-wide rows |
| `Effect.EffectTableRows` | app/modules/tabs/effect_data.py:43-44 | with nine columns of n values, the table has 3n data rows, and row b * n + t holds block b's t-th values under the b-th tariff type |
| `Effect.StackAt` | app/modules/tabs/effect_data.py:71-84 | position b * n + t of the three stacked blocks is value t of block b |
| `Reh.LocatedInSheet` | app/modules/utils.py:94-97 | every located cell lies in the sheet's extent |
| `Reh.ColumnBelow` | app/modules/tabs/reh_tables_data.py:113-118 | the values from `jump` rows below the label down its column, never ending in None |
| `Reh.Gather` | app/modules/tabs/reh_tables_data.py:112-120 | the loop's result is the columns below each located label, joined in the labels' order |
| `Reh.GatherSnoc` | app/modules/tabs/reh_tables_data.py:112-120 | one more label appends its column below |
| `Reh.GatherProvenance` | app/modules/tabs/reh_tables_data.py:112-120 | every gathered value was read below one of the located labels |
| `Reh.GatherConcat` | app/modules/tabs/reh_tables_data.py:112-120 | gathering over two runs of labels is gathering over each, joined |
| `Reh.InfoFrom` | app/modules/tabs/reh_tables_data.py:104-122 | the columns read `jump` rows below every located label, joined in locator order; so every value read comes from the column below a cell holding the label |
| `Reh.InfoFromAbsent` | app/modules/tabs/reh_tables_data.py:104-122 | without the label on the tab there is nothing to read |
| `Reh.InfoFromTwo` | app/modules/tabs/reh_tables_data.py:104-122 | labels at p and q, p first in locator order: p's column, then q's |
| `Reh.TableAnchor` | app/modules/tabs/reh_tables_data.py:147-157 | the first or second "SUBGRUPO", or (2, 1) / (2, 12) when there is none; asking for the second of a single one is an IndexError |
| `Reh.AnchorIsRanked` | app/modules/tabs/reh_tables_data.py:153-155 | the first anchor precedes every other match; the second is preceded by the first alone |
| `Reh.TableLength` | app/modules/tabs/reh_tables_data.py:147-166 | the count of values three rows below the anchor, failing exactly when the anchor does |
| `Reh.Padded` | app/modules/tabs/reh_tables_data.py:133-142 | n "Não se aplica" before the values when the flag is set and after them otherwise; the values keep their order |
| `Reh.ExtendedInfo` | app/modules/tabs/reh_tables_data.py:125-144 | the label's values, padded with as many "Não se aplica" as the flagged table has rows: before them for the first table, after them for the second; it fails exactly when the second table is asked of a tab with a single "SUBGRUPO" |
| `Reh.ExtendedInfoLinesUp` | app/modules/tabs/reh_tables_data.py:125-166 | with the tables' "SUBGRUPO" labels at p and q, the subgroup column is the first table's rows then the second's, and a column padded for the first table gets exactly that table's row count before it (for the second, after it), so it lines up with the subgroup column |
| `Reh.TableLengthsOfTwo` | app/modules/tabs/reh_tables_data.py:147-166 | the first table is measured below the first label, the second below the second |
| `Reh.UpperValue` | app/modules/tabs/reh_tables_data.py:183-190 | the first value d rows above the label: a row below 1 is refused, an all-empty row is an IndexError, otherwise the resolved cell there |
| `Reh.TusdOrTeStep` | app/modules/tabs/reh_tables_data.py:182-210 | a successful pass yields the column below the label when both labels above it match and nothing otherwise; a matching label never fails; a label in row 1 fails with a coordinate error; an empty row above the label is an IndexError; a label in row 2 under the kind fails with a coordinate error when reading the type |
| `Reh.TusdOrTeLoop` | app/modules/tabs/reh_tables_data.py:182-212 | the loop fails only with a refused coordinate or an IndexError |
| `Reh.TusdOrTeLoopIsSequence` | app/modules/tabs/reh_tables_data.py:182-212 | the loop stops where running every step in order would first fail, with that step's error |
| `Reh.TusdOrTeLoopFails` | app/modules/tabs/reh_tables_data.py:182-212 | the loop fails exactly when some step does, with the first failing step's error |
| `Reh.Selected` | app/modules/tabs/reh_tables_data.py:192-202 | exactly the located labels whose two upper neighbours name the kind and the type, kept in locator order |
| `Reh.TusdOrTeLoopValue` | app/modules/tabs/reh_tables_data.py:182-212 | a successful loop yields the columns of exactly the qualifying labels, in order |
| `Reh.TusdOrTeInfo` | app/modules/tabs/reh_tables_data.py:169-212 | the lookup fails only with a refused coordinate or an IndexError |
| `Reh.TusdOrTeInfoValue` | app/modules/tabs/reh_tables_data.py:169-212 | on success, the columns below the unit labels whose upper neighbours name the kind and type, in locator order |
| `Reh.TusdOrTeInfoTopRow` | app/modules/tabs/reh_tables_data.py:183-188 | a unit label in row 1 has no row above it: the lookup fails |
| `Reh.RehTable` | app/modules/tabs/reh_tables_data.py:83-99 | the header, then row i holds the i-th value of each of the twelve columns, up to the shortest |
| `Reh.RehReads` | app/modules/tabs/reh_tables_data.py:18-78 | the seven reads that can fail, "ACESSANTE" first, then the six TUSD/TE reads in the source's order; each fails only with a coordinate error or an IndexError |
| `Reh.RehColumnsOf` | app/modules/tabs/reh_tables_data.py:15-99 | the twelve columns in header order, built exactly when every failing read succeeds; otherwise the error of the first read that fails |
| `Reh.RehColumns` | app/modules/tabs/reh_tables_data.py:15-99 | succeeds exactly when all seven failing reads succeed; column k is the read the header names (SUBGRUPO, MODALIDADE, ACESSANTE, CLASSE, SUBCLASSE, POSTO, then the six tariff reads); a failure carries the error of the first read, in source order, that fails |
| `Reh.RehColumnsErrors` | app/modules/tabs/reh_tables_data.py:15-78 | a failure is a coordinate error or an IndexError; a tab with a single "SUBGRUPO" fails with an IndexError |
| `Reh.LoadRehSheet` | app/modules/tabs/reh_tables_data.py:7-101 | nothing exactly when the tab is absent; otherwise it succeeds exactly when the column reads do, and the sheet is the header with the zipped rows of those twelve columns; a single "SUBGRUPO" is an IndexError |
| `Wrappers.Sequence` | app/modules/data_base.py:179-235 | running fallible steps in order: success exactly when every step succeeds, with their values in order; otherwise the first failure |
| `Database.InfoValues` | app/modules/data_base.py:161-171 | one identification value per key, the acronym and the tariff process in their slots |
| `Database.KeptOf` | app/modules/data_base.py:330-331 | the kept rows hold at least one value each |
| `Database.KeptOfMembers` | app/modules/data_base.py:330-331 | a row is kept exactly when it occurs and is not all None |
| `Database.KeptOfAll` | app/modules/data_base.py:330-331 | no row holding a value is dropped |
| `Database.Prefix` | app/modules/data_base.py:332-345 | every data row starts with eight cells, as many as the keys |
| `Database.DataRows` | app/modules/data_base.py:328-346 | one output row per kept source row, the prefix before it |
| `Database.AppendDataRows` | app/modules/data_base.py:328-346 | the counting row loop writes exactly the data rows: the kept rows after their prefix, only the first of a hidden tab blank |
| `Database.HeaderOf` | app/modules/data_base.py:317 | the header read from a sheet with rows is `max_column` cells wide |
| `Database.CreateDbTab` | app/modules/data_base.py:305-346 | a tab exactly when the loader gave a sheet, with the given title; the tab is empty exactly when the sheet's first row is blank |
| `Database.CreateDbTabRectangular` | app/modules/data_base.py:323-346 | every row of a filled tab is the keys plus the sheet's `max_column` wide |
| `Database.CreateDbTabData` | app/modules/data_base.py:323-346 | the keys before the sheet's header, then one row per kept row; data row k ends with the k-th kept source row |
| `Database.CreateDbTabHidden` | app/modules/data_base.py:328-346 | a data row starts with the identification, except the first row of a hidden tab, which starts with eight empty strings |
| `Database.SlotsOf` | app/modules/data_base.py:179-235 | the slots with a sheet, strictly increasing |
| `Database.SlotsOfMembers` | app/modules/data_base.py:179-235 | a slot is taken exactly when its loader returned a sheet |
| `Database.Loaded` | app/modules/data_base.py:179-235 | one load per tab title, in creation order |
| `Database.Tabs` | app/modules/data_base.py:179-235 | one tab per taken slot |
| `Database.FilteredWorkbook` | app/modules/data_base.py:155-240 | the workbook is made exactly when every loader succeeds; otherwise the first loader's error, in tab order; a workbook always has a tab |
| `Database.FilteredWorkbookTabs` | app/modules/data_base.py:175-240 | slot k has a tab exactly when its loader gave a sheet, titled in the fixed order and hiding the first line only for TUSD and TE; with no sheet, one empty "Sheet" |
| `Database.WriteCell` | app/modules/data_base.py:252 | writing a cell sets it and leaves every other cell as it was |
| `Database.AddHeaderRows` | app/modules/data_base.py:243-252 | every header cell lands at its own 1-based position; every other cell keeps its value |
| `Database.PageTitle` | app/modules/data_base.py:273-294 | only the first sheet is titled "BANCO DE DADOS" |
| `Database.PageTitlesDistinct` | app/modules/data_base.py:273-294 | no two output sheets share a title |
| `Database.HeaderRows` | app/modules/data_base.py:284-285 | at most `header_max_row` header rows |
| `Database.Bodies` | app/modules/data_base.py:288-291 | each file's rows after its header, in file order |
| `Database.Step` | app/modules/data_base.py:292-300 | appending a row always leaves a current sheet |
| `Database.Paginate` | app/modules/data_base.py:291-300 | appending rows one by one always leaves a current sheet |
| `Database.PaginateSnoc` | app/modules/data_base.py:291-300 | paginating one more row is one more step of the loop |
| `Database.Layout` | app/modules/data_base.py:271-297 | sheet k is titled by its index and holds the header rows over its page |
| `Database.AppendRow` | app/modules/data_base.py:292-300 | one pass of the row loop keeps `current_row_count` equal to the header plus the current sheet's rows, and `sheet_index` equal to the last sheet |
| `Database.AppendRows` | app/modules/data_base.py:291-300 | the row loop over a file appends its rows to the pagination so far |
| `Database.AppendFiles` | app/modules/data_base.py:281-300 | the file loop paginates all the bodies, in order |
| `Database.MixDbFiles` | app/modules/data_base.py:255-302 | nothing exactly when there are no files; otherwise the first file's header on every sheet over the pages of all the bodies |
| `Database.PaginateFlatten` | app/modules/data_base.py:281-300 | reading the pages back in order gives every data row exactly once, in order |
| `Database.PaginateBounds` | app/modules/data_base.py:292-300 | with a header below the ceiling, every sheet's header plus data fits the ceiling, every sheet but the last fills it exactly, and no sheet after the first is empty |
| `Database.PaginateAtCeiling` | app/modules/data_base.py:292-300 | with a header of at least `ceiling` rows, the first sheet holds no data and each later sheet exactly one row, the rows in order |
| `Database.MixDbFilesFits` | app/modules/data_base.py:269-300 | with one header row and the ceiling 1048576, no output sheet exceeds 1048576 rows, and the first is "BANCO DE DADOS" |
| `Database.MixDbFilesKeepsRows` | app/modules/data_base.py:281-300 | the sheets' rows after their headers are all the files' bodies, in order |

## Left out

- I/O of every kind is left out, and each call is represented as follows:
  - `load_workbook`, `save` and the temporary files are absent. Workbooks are given as values.
  - `get_distributor_info` (`distributor_info.py`) is not part of this model. Its fields are a parameter.
  - `print` and `tqdm` progress are absent.
  - `_mix_db_files` returns the sheets it would save.
- `arrange.py`, `merge_last_dbs`, `process_data_base` and `process_workbooks` walk directories. They are not modelled.
- `get_suffix`, `normalize` and `get_date_from` are not modelled. The process date arrives as a cell.
- openpyxl internals are modelled through their observable behaviour only:
  - merged ranges;
  - `max_row` and `max_column`;
  - `cell()` refusing coordinates below 1;
  - `iter_rows` padding every row to `max_column`.

  The model does not cover:
  - the one phantom cell openpyxl reports for a sheet with no cells;
  - styles, formulas, and the difference between read-only and normal worksheets;
  - the recomputation of `max_row` and `max_column` after `delete_cols`.
- Mixing.TruncatedCell: the width after `delete_cols(idx=18, ...)` is fixed at the smaller of 17 and the original `max_column` (tusd_or_te_data.py:482). openpyxl recomputes `max_column` from the cells that remain, so a main tab with no cell left in column 17 reports a smaller width. `join_sheets_vertically` then pads the cleaned rows to that smaller width, and the pair columns follow right after it. `Mixing.TruncatedRow`, `Mixing.Cleaned`, `Mixing.CreateMixed` and `Mixing.CreateMixedAligned` therefore place the pair columns further right than the source in that case. The model agrees with the source whenever every main tab keeps a cell in column 17, or is narrower than 17 columns to begin with and keeps one in its last column.
- Cell values are compared as text, or as opaque values by identity. Python would raise a `TypeError` when sorting a mix of text and numbers; the model uses a fixed total order instead. Numbers are not distinguished from their text, so `str(cell).strip()` on a non-text value is treated as never blank.
- Iterating a Python `set` has no defined order; where the code depends on one, the model fixes one:
  - `_get_files_dict` iterates `set(headers)`. The model gives each worksheet's columns in ascending order, which is what the later `sorted(key=column)` produces.
  - `list(set(a) & set(b))` in `_get_files_columns` is taken in ascending column order.
- `str.isalpha`, `str.isdigit` and `str.strip` are restricted to ASCII.
- The page ceiling and `header_max_row` of `_mix_db_files` are parameters of the model. `Database.MixDbFilesFits` instantiates them at 1048576 and 1, the source's values.
- In `_mix_db_files` the header rows are computed once, before the loop. The source computes them when `file_index == 0`, which gives the same rows.
- A header row in `_mix_db_files` is read with `iter_rows(values_only=False)` in read-only mode. The model reads the same values with `values_only=True`.
- In `_filtered_workbook` the seven loaders run in tab order. A loader that raises aborts the workbook; the caller in `process_workbooks` catches that and skips the file.
- These lemmas assume every file's main tab has `max_row >= 2`, which is true of a tab holding the header and tariff rows the code reads:
  - `Mixing.SegmentCells`
  - `Mixing.SegmentLength`
  - `Mixing.SegmentAgrees`
  - `Mixing.PairColumnAligned`
  - `Mixing.AlignedDataCell`
  - `Mixing.AlignedSheetData`
  - `Mixing.CreateMixedAlignedCells`
  - `Mixing.CreateMixedHeight`
  - `Mixing.MixedSheetAgrees`
  - `Mixing.SegmentsAsWrittenAgree`
- `Tariffs.TusdOrTeLayout` states the layout for a main sheet exactly nine columns wide, the width `Tariffs.MainSheet` proves.
- `Costs.LoadCostsSheet` states the table's shape and that no cost is a total. The row-by-row content is stated separately by `Costs.CostsTableRows`, for columns of equal length.
- `Effect.LoadEffectSheet` states the table's shape. The row-by-row content is stated by `Effect.EffectTableOf` for any columns, and by `Effect.EffectTableRows` block by block for columns of equal length.
- `Mixing.CreateMixed` models the code as written, with both findings below. `Mixing.CreateMixedAligned` is the corrected sheet. Their cells are stated by `Mixing.CreateMixedCells` and `Mixing.CreateMixedAlignedCells`. The two sheets coincide under the conditions of `Mixing.MixedSheetAgrees`.
- `Coordinates.ParseCoordinate` accepts only upper-case column letters and no `$` signs, although openpyxl's `coordinate_from_string` accepts both. Only coordinates the model itself produces reach it, and those are upper case without `$`.

## Findings

| source | as written | input that shows it | evidently intended | confidence | as-written member | corrected member |
|---|---|---|---|---|---|---|
| app/modules/tabs/tusd_or_te_data.py:465-473 | `_get_files_columns` appends every common column of a pair (`all_common_columns += common_columns`). A pair carried by two columns therefore adds two entries, and `files_columns[worksheet][i]` for every later pair reads the previous pair's entry. | A worksheet whose row 1 holds header H in columns 20 and 21 and whose row 2 holds tariff T in both. The pair (H, T) then fills entries 0 and 1. The next pair's lookup at index 1 returns column 21, which does not carry that pair. | Exactly one entry per pair: the first column carrying it, or None. | not executed | `Pairs.FilesColumnsAsWritten`, `Pairs.FilesColumnsMisaligned`, `Mixing.CreateMixed` | `Pairs.FilesColumns`, `Pairs.FilesColumnsAgree`, `Mixing.CreateMixedAligned` |
| app/modules/tabs/tusd_or_te_data.py:362-385 | A found column is read with `load_values`, which trims trailing empty cells. A file whose last rows are empty in that column then contributes fewer values than its rows. The following files' values move up into its rows. The placeholder branch, by contrast, writes one cell per row. | The first file has `max_row` 5 and an empty cell at row 5 of the pair's column. It contributes 4 values instead of 5. The second file's first value lands at index 4, which belongs to the first file's row 5. | Each file contributes exactly one cell per row it keeps: the read values padded with empty cells to the file's row count. The pair column then lines up with the cleaned rows on the left. | not executed | `Mixing.SegmentAsWritten`, `Mixing.TrimmedSegmentShort`, `Mixing.PairColumnShifted`, `Mixing.MixedSheetData`, `Mixing.CreateMixed` | `Mixing.SegmentCells`, `Mixing.PairColumnAligned`, `Mixing.SegmentAgrees`, `Mixing.AlignedSheetData`, `Mixing.CreateMixedAligned`, `Mixing.MixedSheetAgrees` |
