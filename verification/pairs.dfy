/**
 * The cross-file (header, tariff) pairs of `create_mixed_tusd_or_te_worksheet`
 * (app/modules/tabs/tusd_or_te_data.py): the header labels of every file, the
 * columns that carry them (`_get_files_dict`), the pairs read under those
 * columns and their order (`_get_headers_and_tariffs`), and the column each
 * file holds for each pair (`_get_files_columns`).
 */
module Pairs {
  import opened Wrappers
  import opened Cells
  import opened Grid
  import opened Locator
  import opened Tables
  import opened Tariffs

  /** A (header, tariff) pair: the values of rows 1 and 2 of a column. */
  type Pair = (Cell, Cell)

  /** The main tab of every file that has one, in file order; files without it are skipped. */
  function MainWorksheets(workbooks: seq<Workbook>, kind: TusdOrTe): (r: seq<Grid>)
    ensures |r| <= |workbooks|
    ensures forall g :: g in r ==>
      exists i :: 0 <= i < |workbooks| && kind.MainTab() in workbooks[i] && workbooks[i][kind.MainTab()] == g
    ensures forall i :: 0 <= i < |workbooks| && kind.MainTab() in workbooks[i] ==> workbooks[i][kind.MainTab()] in r
    ensures (forall i :: 0 <= i < |workbooks| ==> kind.MainTab() in workbooks[i]) ==> |r| == |workbooks|
  {
    if |workbooks| == 0 then []
    else
      var init := workbooks[..|workbooks| - 1];
      var last := workbooks[|workbooks| - 1];
      assert forall i :: 0 <= i < |init| ==> init[i] == workbooks[i];
      MainWorksheets(init, kind) + (if kind.MainTab() in last then [last[kind.MainTab()]] else [])
  }

  /**
   * `set(headers)`: the row-1 values from column 18 on of every worksheet.
   * An empty cell in that range makes None a label too.
   */
  function HeaderLabels(wss: seq<Grid>): (r: set<Cell>)
    ensures forall j, c :: 0 <= j < |wss| && 18 <= c <= wss[j].maxCol ==> CellAt(wss[j], 1, c) in r
    ensures forall h :: h in r ==> exists j, c :: 0 <= j < |wss| && 18 <= c <= wss[j].maxCol && h == CellAt(wss[j], 1, c)
    ensures (forall j :: 0 <= j < |wss| ==> wss[j].maxCol < 18) ==> r == {}
  {
    set j, c | 0 <= j < |wss| && 18 <= c <= wss[j].maxCol :: CellAt(wss[j], 1, c)
  }

  /** Columns 1..n whose row-1 cell is one of the labels, ascending. */
  function LabelledColumns(g: Grid, labels: set<Cell>, n: nat): (r: seq<nat>)
    ensures forall c :: c in r <==> 1 <= c <= n && CellAt(g, 1, c) in labels
    ensures forall i, j :: 0 <= i < j < |r| ==> r[i] < r[j]
    ensures forall i :: 0 <= i < |r| ==> 1 <= r[i] <= n
  {
    if n == 0 then []
    else LabelledColumns(g, labels, n - 1) + (if CellAt(g, 1, n) in labels then [n] else [])
  }

  /**
   * `_get_files_dict` for one worksheet: the located cells of every label,
   * kept to row 1 and sorted by column; as a cell holds one value, each
   * column appears once and only its number is kept.
   */
  function FilesDictEntry(g: Grid, labels: set<Cell>): seq<nat> {
    if g.maxRow == 0 then [] else LabelledColumns(g, labels, g.maxCol)
  }

  /**
   * The entry lists column c exactly when the locator finds (1, c) for some
   * label, in strictly ascending column order.
   */
  lemma FilesDictEntryLocated(g: Grid, labels: set<Cell>, c: nat)
    ensures c in FilesDictEntry(g, labels) <==> exists h :: h in labels && (1, c) in RowsAndColumnsFrom(g, h)
    ensures forall i, j :: 0 <= i < j < |FilesDictEntry(g, labels)| ==> FilesDictEntry(g, labels)[i] < FilesDictEntry(g, labels)[j]
  {
    if c in FilesDictEntry(g, labels) {
      var h := CellAt(g, 1, c);
      assert IsMatch(g, h, (1, c));
    }
    if exists h :: h in labels && (1, c) in RowsAndColumnsFrom(g, h) {
      var h :| h in labels && (1, c) in RowsAndColumnsFrom(g, h);
      assert IsMatch(g, h, (1, c));
    }
  }

  /**
   * The pair under column c: `load_values(worksheet, c - 1, "column", 1)`
   * and its first two values, an IndexError when fewer than two remain.
   */
  function PairAt(g: Grid, c: nat): (r: Outcome<Pair>)
    requires c >= 1
    ensures r.Failure? ==> r.error == IndexOutOfRange
    ensures r.Success? ==> r.value == (Resolve(g, 1, c), Resolve(g, 2, c))
  {
    var values := LoadValues(g, c - 1, AlongColumn, 1).value;
    if |values| < 2 then Failure(IndexOutOfRange) else Success((values[0], values[1]))
  }

  /** The read fails exactly when nothing from row 2 down to `max_row` resolves to a value. */
  lemma PairAtFails(g: Grid, c: nat)
    requires c >= 1
    ensures PairAt(g, c).Failure? <==> forall row :: 2 <= row <= g.maxRow ==> Resolve(g, row, c).None?
  {
    var values := LoadValues(g, c - 1, AlongColumn, 1).value;
    LoadValuesDropped(g, c - 1, AlongColumn, 1);
    if |values| < 2 {
      forall row | 2 <= row <= g.maxRow
        ensures Resolve(g, row, c).None?
      {
        assert EmptyAlong(g, c - 1, AlongColumn, row);
      }
    } else {
      var last := |values| - 1;
      assert values[last] == Resolve(g, 1 + last, c);
    }
  }

  /** The entry of every worksheet, in worksheet order. */
  function Entries(wss: seq<Grid>, labels: set<Cell>): (r: seq<seq<nat>>)
    ensures |r| == |wss| && forall j :: 0 <= j < |wss| ==> r[j] == FilesDictEntry(wss[j], labels)
  {
    seq(|wss|, j requires 0 <= j < |wss| => FilesDictEntry(wss[j], labels))
  }

  /** Whether column c of worksheet j is one the pairs are read from. */
  predicate Looked(entries: seq<seq<nat>>, j: nat, c: nat) {
    j < |entries| && c in entries[j]
  }

  /** Every (worksheet, column) the pairs are read from, worksheet after worksheet, columns in entry order. */
  function Lookups(entries: seq<seq<nat>>): (r: seq<(nat, nat)>)
    ensures forall k :: 0 <= k < |r| ==> Looked(entries, r[k].0, r[k].1)
    ensures forall j: nat, c: nat :: Looked(entries, j, c) ==> (j, c) in r
  {
    if |entries| == 0 then []
    else
      var n := |entries| - 1;
      var front := Lookups(entries[..n]);
      var here := seq(|entries[n]|, k requires 0 <= k < |entries[n]| => (n, entries[n][k]));
      LookupsExtend(entries, n, front, here);
      front + here
  }

  lemma LookupsExtend(entries: seq<seq<nat>>, n: nat, front: seq<(nat, nat)>, here: seq<(nat, nat)>)
    requires n == |entries| - 1
    requires forall k :: 0 <= k < |front| ==> Looked(entries[..n], front[k].0, front[k].1)
    requires forall j: nat, c: nat :: Looked(entries[..n], j, c) ==> (j, c) in front
    requires here == seq(|entries[n]|, k requires 0 <= k < |entries[n]| => (n, entries[n][k]))
    ensures forall k :: 0 <= k < |front + here| ==> Looked(entries, (front + here)[k].0, (front + here)[k].1)
    ensures forall j: nat, c: nat :: Looked(entries, j, c) ==> (j, c) in front + here
  {
    var init := entries[..n];
    forall k | 0 <= k < |front + here|
      ensures Looked(entries, (front + here)[k].0, (front + here)[k].1)
    {
      if k < |front| {
        assert Looked(init, front[k].0, front[k].1);
        assert init[front[k].0] == entries[front[k].0];
      } else {
        assert (front + here)[k] == here[k - |front|];
      }
    }
    forall j: nat, c: nat | Looked(entries, j, c)
      ensures (j, c) in front + here
    {
      if j < n {
        assert init[j] == entries[j];
        assert Looked(init, j, c);
      } else {
        var k :| 0 <= k < |entries[n]| && entries[n][k] == c;
        assert here[k] == (j, c);
      }
    }
  }

  /** Whether every entry belongs to a worksheet and names a real column. */
  predicate ValidEntries(wss: seq<Grid>, entries: seq<seq<nat>>) {
    |entries| == |wss| && forall j, k :: 0 <= j < |entries| && 0 <= k < |entries[j]| ==> entries[j][k] >= 1
  }

  lemma EntriesValid(wss: seq<Grid>, labels: set<Cell>)
    ensures ValidEntries(wss, Entries(wss, labels))
  {
  }

  /** The reads of the loop, one per lookup, in loop order. */
  function PairReads(wss: seq<Grid>, entries: seq<seq<nat>>): (r: seq<Outcome<Pair>>)
    requires ValidEntries(wss, entries)
    ensures |r| == |Lookups(entries)|
    ensures forall k :: 0 <= k < |r| ==> (Lookups(entries)[k].0 < |wss| && Lookups(entries)[k].1 >= 1
      && r[k] == PairAt(wss[Lookups(entries)[k].0], Lookups(entries)[k].1))
  {
    var lookups := Lookups(entries);
    seq(|lookups|, k requires 0 <= k < |lookups| => PairAt(wss[lookups[k].0], lookups[k].1))
  }

  /**
   * The reading loop of `_get_headers_and_tariffs`: a pair per looked-up
   * column, the first short column raising.
   */
  function FoundPairs(wss: seq<Grid>, labels: set<Cell>): (r: Outcome<seq<Pair>>)
    ensures r.Failure? ==> r.error == IndexOutOfRange
  {
    EntriesValid(wss, labels);
    Sequence(PairReads(wss, Entries(wss, labels)))
  }

  /** Reading the looked-up columns succeeds exactly when each of them has a value below row 1. */
  lemma {:induction false} ReadsSucceed(wss: seq<Grid>, entries: seq<seq<nat>>)
    requires ValidEntries(wss, entries)
    ensures Sequence(PairReads(wss, entries)).Success? <==>
      forall j: nat, c: nat :: Looked(entries, j, c) ==> PairAt(wss[j], c).Success?
  {
    var lookups := Lookups(entries);
    var outs := PairReads(wss, entries);
    if !forall j: nat, c: nat :: Looked(entries, j, c) ==> PairAt(wss[j], c).Success? {
      var j: nat, c: nat :| Looked(entries, j, c) && PairAt(wss[j], c).Failure?;
      var k :| 0 <= k < |lookups| && lookups[k] == (j, c);
      assert outs[k].Failure?;
    }
  }

  /** Successful reads find exactly the (row 1, row 2) values of the looked-up columns. */
  lemma {:induction false} ReadsFind(wss: seq<Grid>, entries: seq<seq<nat>>, p: Pair)
    requires ValidEntries(wss, entries) && Sequence(PairReads(wss, entries)).Success?
    ensures p in Sequence(PairReads(wss, entries)).value <==>
      exists j: nat, c: nat :: Looked(entries, j, c) && p == (Resolve(wss[j], 1, c), Resolve(wss[j], 2, c))
  {
    var lookups := Lookups(entries);
    var outs := PairReads(wss, entries);
    var v := Sequence(outs).value;
    if p in v {
      var k :| 0 <= k < |v| && v[k] == p;
      assert Looked(entries, lookups[k].0, lookups[k].1);
    }
    if exists j: nat, c: nat :: Looked(entries, j, c) && p == (Resolve(wss[j], 1, c), Resolve(wss[j], 2, c)) {
      var j: nat, c: nat :| Looked(entries, j, c) && p == (Resolve(wss[j], 1, c), Resolve(wss[j], 2, c));
      var k :| 0 <= k < |lookups| && lookups[k] == (j, c);
      assert outs[k].Success?;
      assert v[k] == p;
    }
  }

  /**
   * The reading succeeds exactly when every column of every entry has a
   * value below row 1; it then finds exactly the (row 1, row 2) values of
   * those columns.
   */
  lemma FoundPairsMembers(wss: seq<Grid>, labels: set<Cell>, p: Pair)
    ensures FoundPairs(wss, labels).Success? <==>
      forall j: nat, c: nat :: Looked(Entries(wss, labels), j, c) ==> PairAt(wss[j], c).Success?
    ensures FoundPairs(wss, labels).Success? ==> (p in FoundPairs(wss, labels).value <==>
      exists j: nat, c: nat :: Looked(Entries(wss, labels), j, c) && p == (Resolve(wss[j], 1, c), Resolve(wss[j], 2, c)))
  {
    EntriesValid(wss, labels);
    ReadsSucceed(wss, Entries(wss, labels));
    if FoundPairs(wss, labels).Success? {
      ReadsFind(wss, Entries(wss, labels), p);
    }
  }

  /** Whether the tariff is the literal "SUBTOTAL". */
  predicate IsSubtotal(p: Pair) {
    p.1 == T("SUBTOTAL")
  }

  /**
   * The order of the deduplicated pairs: by header; within a header, the
   * sort key `(tariff == 'SUBTOTAL', pair)` puts SUBTOTAL pairs last and
   * orders the rest by tariff.
   */
  predicate PairLess(a: Pair, b: Pair) {
    CellLess(a.0, b.0)
    || (a.0 == b.0 && !IsSubtotal(a) && IsSubtotal(b))
    || (a.0 == b.0 && IsSubtotal(a) == IsSubtotal(b) && CellLess(a.1, b.1))
  }

  lemma PairLessIrreflexive(a: Pair)
    ensures !PairLess(a, a)
  {
    CellLessIrreflexive(a.0);
    CellLessIrreflexive(a.1);
  }

  lemma PairLessTransitive(a: Pair, b: Pair, c: Pair)
    requires PairLess(a, b) && PairLess(b, c)
    ensures PairLess(a, c)
  {
    if CellLess(a.0, b.0) && CellLess(b.0, c.0) {
      CellLessTransitive(a.0, b.0, c.0);
    }
    if a.0 == b.0 && b.0 == c.0 && CellLess(a.1, b.1) && CellLess(b.1, c.1) {
      CellLessTransitive(a.1, b.1, c.1);
    }
  }

  lemma PairLessTotal(a: Pair, b: Pair)
    requires a != b
    ensures PairLess(a, b) || PairLess(b, a)
  {
    if a.0 != b.0 {
      CellLessTotal(a.0, b.0);
    } else {
      CellLessTotal(a.1, b.1);
    }
  }

  predicate PairsSorted(xs: seq<Pair>) {
    forall i, j :: 0 <= i < j < |xs| ==> PairLess(xs[i], xs[j])
  }

  /** x placed into a sorted list; a copy already present is not added twice. */
  function InsertPair(xs: seq<Pair>, x: Pair): (r: seq<Pair>)
    requires PairsSorted(xs)
    ensures forall p :: p in r <==> p in xs || p == x
    ensures PairsSorted(r)
  {
    if |xs| == 0 then [x]
    else if x == xs[0] then xs
    else if PairLess(x, xs[0]) then
      InsertPairFront(xs, x);
      [x] + xs
    else
      PairLessTotal(x, xs[0]);
      var rest := InsertPair(xs[1..], x);
      InsertPairCons(xs[0], rest, xs[1..], x);
      [xs[0]] + rest
  }

  lemma {:induction false} InsertPairFront(xs: seq<Pair>, x: Pair)
    requires PairsSorted(xs) && |xs| > 0 && PairLess(x, xs[0])
    ensures PairsSorted([x] + xs)
  {
    forall j | 0 <= j < |xs|
      ensures PairLess(x, xs[j])
    {
      if j > 0 {
        PairLessTransitive(x, xs[0], xs[j]);
      }
    }
  }

  lemma {:induction false} InsertPairCons(h: Pair, rest: seq<Pair>, tail: seq<Pair>, x: Pair)
    requires PairsSorted([h] + tail) && PairsSorted(rest) && PairLess(h, x)
    requires forall p :: p in rest ==> p in tail || p == x
    ensures PairsSorted([h] + rest)
  {
    forall k | 0 <= k < |rest|
      ensures PairLess(h, rest[k])
    {
      assert rest[k] in rest;
      if rest[k] != x {
        var m :| 0 <= m < |tail| && tail[m] == rest[k];
        var ht := [h] + tail;
        assert ht[0] == h && ht[m + 1] == tail[m];
      }
    }
  }

  /**
   * `sorted(..., key=header)`, `groupby(header)`, `set(group)` and the
   * SUBTOTAL-last sort of each group: the distinct pairs in PairLess order.
   */
  function SortPairs(xs: seq<Pair>): (r: seq<Pair>)
    ensures PairsSorted(r)
    ensures forall p :: p in r <==> p in xs
  {
    if |xs| == 0 then []
    else
      var r := InsertPair(SortPairs(xs[..|xs| - 1]), xs[|xs| - 1]);
      assert xs == xs[..|xs| - 1] + [xs[|xs| - 1]];
      r
  }

  /** A sorted list of pairs is fixed by its members: grouping and deduplicating leave no other choice. */
  lemma {:induction false} PairsSortedUnique(xs: seq<Pair>, ys: seq<Pair>)
    requires PairsSorted(xs) && PairsSorted(ys)
    requires forall p :: p in xs <==> p in ys
    ensures xs == ys
  {
    if |xs| > 0 && |ys| > 0 {
      assert xs[0] in xs && ys[0] in ys;
      if xs[0] != ys[0] {
        var i :| 0 < i < |xs| && xs[i] == ys[0];
        var j :| 0 < j < |ys| && ys[j] == xs[0];
        PairLessTransitive(xs[0], ys[0], xs[0]);
        PairLessIrreflexive(xs[0]);
        assert false;
      }
      forall p
        ensures p in xs[1..] <==> p in ys[1..]
      {
        PairsTailMembers(xs, p);
        PairsTailMembers(ys, p);
      }
      PairsSortedUnique(xs[1..], ys[1..]);
      assert xs == [xs[0]] + xs[1..] && ys == [ys[0]] + ys[1..];
    } else if |xs| > 0 {
      HeadIsMember(xs);
      assert false;
    } else if |ys| > 0 {
      HeadIsMember(ys);
      assert false;
    }
  }

  lemma {:induction false} PairsTailMembers(xs: seq<Pair>, p: Pair)
    requires PairsSorted(xs) && |xs| > 0
    ensures p in xs[1..] <==> p in xs && p != xs[0]
  {
    if p in xs[1..] {
      var m :| 0 <= m < |xs[1..]| && xs[1..][m] == p;
      PairLessIrreflexive(p);
    }
    if p in xs && p != xs[0] {
      var m :| 0 <= m < |xs| && xs[m] == p;
      assert xs[1..][m - 1] == p;
    }
  }

  /**
   * In the sorted pairs, headers never decrease and no pair repeats; within
   * a header, every non-SUBTOTAL pair comes before the SUBTOTAL one, which is
   * the header's last.
   */
  lemma PairsSortedGroups(xs: seq<Pair>, i: nat, j: nat)
    requires PairsSorted(xs) && i < j < |xs|
    ensures !CellLess(xs[j].0, xs[i].0)
    ensures xs[i] != xs[j]
    ensures xs[i].0 == xs[j].0 ==> !IsSubtotal(xs[i])
  {
    assert PairLess(xs[i], xs[j]);
    PairLessIrreflexive(xs[i]);
    CellLessIrreflexive(xs[i].0);
    CellLessIrreflexive(xs[i].1);
    if CellLess(xs[i].0, xs[j].0) && CellLess(xs[j].0, xs[i].0) {
      CellLessTransitive(xs[i].0, xs[j].0, xs[i].0);
    }
  }

  /**
   * `_get_headers_and_tariffs(worksheets, files_dict)`: every pair found,
   * each once, SUBTOTAL last within its header.
   */
  function HeadersAndTariffs(wss: seq<Grid>, labels: set<Cell>): (r: Outcome<seq<Pair>>)
    ensures r.Success? <==> FoundPairs(wss, labels).Success?
    ensures r.Failure? ==> r.error == IndexOutOfRange
    ensures r.Success? ==> PairsSorted(r.value)
    ensures r.Success? ==> forall p :: p in r.value <==> p in FoundPairs(wss, labels).value
  {
    var found :- FoundPairs(wss, labels);
    Success(SortPairs(found))
  }

  /** Whether column c holds the header in row 1 and the tariff in row 2, as raw cells the locator finds. */
  predicate Carries(g: Grid, p: Pair, c: nat) {
    2 <= g.maxRow && 1 <= c <= g.maxCol && CellAt(g, 1, c) == p.0 && CellAt(g, 2, c) == p.1
  }

  /** The columns among 1..n that carry the pair, ascending. */
  function CarryingColumns(g: Grid, p: Pair, n: nat): (r: seq<nat>)
    requires n <= g.maxCol
    ensures forall c :: c in r <==> 1 <= c <= n && Carries(g, p, c)
    ensures forall i, j :: 0 <= i < j < |r| ==> r[i] < r[j]
    ensures forall i :: 0 <= i < |r| ==> 1 <= r[i] <= n
  {
    if n == 0 then []
    else CarryingColumns(g, p, n - 1) + (if Carries(g, p, n) then [n] else [])
  }

  /** `set(header_columns) & set(tariff_columns)`, listed in ascending order. */
  function CommonColumns(g: Grid, p: Pair): seq<nat> {
    CarryingColumns(g, p, g.maxCol)
  }

  /**
   * A common column is one where the locator finds the header in row 1 and
   * the tariff in row 2.
   */
  lemma CommonColumnsLocated(g: Grid, p: Pair, c: nat)
    ensures c in CommonColumns(g, p) <==> (1, c) in RowsAndColumnsFrom(g, p.0) && (2, c) in RowsAndColumnsFrom(g, p.1)
  {
    assert IsMatch(g, p.0, (1, c)) <==> (1, c) in RowsAndColumnsFrom(g, p.0);
    assert IsMatch(g, p.1, (2, c)) <==> (2, c) in RowsAndColumnsFrom(g, p.1);
  }

  /** Every common column carries the pair. */
  lemma CommonColumnsCarry(g: Grid, p: Pair)
    ensures forall k :: 0 <= k < |CommonColumns(g, p)| ==> Carries(g, p, CommonColumns(g, p)[k])
  {
    var common := CommonColumns(g, p);
    forall k | 0 <= k < |common|
      ensures Carries(g, p, common[k])
    {
      assert common[k] in common;
    }
  }

  /** The entries one pair adds as written: `[None]` when no column carries it, else every carrying column. */
  function EntriesAsWritten(g: Grid, p: Pair): (r: seq<Option<nat>>)
    ensures |r| >= 1
    ensures |r| == 1 <==> |CommonColumns(g, p)| <= 1
    ensures r[0].None? <==> |CommonColumns(g, p)| == 0
    ensures forall k :: 0 <= k < |r| && r[k].Some? ==> Carries(g, p, r[k].value)
    ensures |CommonColumns(g, p)| >= 2 ==> r[1] == Some(CommonColumns(g, p)[1])
  {
    var common := CommonColumns(g, p);
    CommonColumnsCarry(g, p);
    if |common| == 0 then [None] else Present(common)
  }

  /** Every column, as a present entry. */
  function Present(cs: seq<nat>): (r: seq<Option<nat>>)
    ensures |r| == |cs| && forall k :: 0 <= k < |cs| ==> r[k] == Some(cs[k])
  {
    seq(|cs|, k requires 0 <= k < |cs| => Some(cs[k]))
  }

  /**
   * `_get_files_columns` for one worksheet as written: the entries of every
   * pair concatenated, so a pair carried by several columns shifts the
   * entries of the pairs after it.
   */
  function FilesColumnsAsWritten(g: Grid, pairs: seq<Pair>): (r: seq<Option<nat>>)
    ensures |r| >= |pairs|
    ensures forall k :: 0 <= k < |r| && r[k].Some? ==> r[k].value >= 1
    ensures |pairs| > 0 ==> |r| >= |EntriesAsWritten(g, pairs[0])|
    ensures |pairs| > 0 ==> r[..|EntriesAsWritten(g, pairs[0])|] == EntriesAsWritten(g, pairs[0])
  {
    if |pairs| == 0 then []
    else EntriesAsWritten(g, pairs[0]) + FilesColumnsAsWritten(g, pairs[1..])
  }

  /** The first column carrying the pair, if any. */
  function FirstColumn(g: Grid, p: Pair): (r: Option<nat>)
    ensures r.None? <==> forall c :: 1 <= c <= g.maxCol ==> !Carries(g, p, c)
    ensures r.Some? ==> Carries(g, p, r.value) && forall c :: 1 <= c < r.value ==> !Carries(g, p, c)
  {
    var common := CommonColumns(g, p);
    if |common| == 0 then None
    else
      assert common[0] in common;
      Some(common[0])
  }

  /**
   * `_get_files_columns` for one worksheet, one entry per pair: None exactly
   * when no column carries the pair, otherwise the first that does.
   */
  function FilesColumns(g: Grid, pairs: seq<Pair>): (r: seq<Option<nat>>)
    ensures |r| == |pairs|
    ensures forall i :: 0 <= i < |pairs| ==> r[i] == FirstColumn(g, pairs[i])
  {
    seq(|pairs|, i requires 0 <= i < |pairs| => FirstColumn(g, pairs[i]))
  }

  /** When no pair is carried by more than one column, the code as written gives the one-entry-per-pair list. */
  lemma {:induction false} FilesColumnsAgree(g: Grid, pairs: seq<Pair>)
    requires forall i :: 0 <= i < |pairs| ==> |CommonColumns(g, pairs[i])| <= 1
    ensures FilesColumnsAsWritten(g, pairs) == FilesColumns(g, pairs)
  {
    if |pairs| > 0 {
      var rest := pairs[1..];
      assert forall i :: 0 <= i < |rest| ==> |CommonColumns(g, rest[i])| <= 1 by {
        forall i | 0 <= i < |rest|
          ensures |CommonColumns(g, rest[i])| <= 1
        {
          assert rest[i] == pairs[i + 1];
        }
      }
      FilesColumnsAgree(g, rest);
      SingleEntryFirst(g, pairs);
      FilesColumnsCons(g, pairs);
    }
  }

  /** Unfolding the as-written columns when the first pair is carried at most once. */
  lemma SingleEntryFirst(g: Grid, pairs: seq<Pair>)
    requires |pairs| > 0 && |CommonColumns(g, pairs[0])| <= 1
    ensures FilesColumnsAsWritten(g, pairs) == [FirstColumn(g, pairs[0])] + FilesColumnsAsWritten(g, pairs[1..])
  {
    assert EntriesAsWritten(g, pairs[0]) == [FirstColumn(g, pairs[0])];
  }

  /** The aligned columns are the first pair's column followed by the rest's. */
  lemma FilesColumnsCons(g: Grid, pairs: seq<Pair>)
    requires |pairs| > 0
    ensures FilesColumns(g, pairs) == [FirstColumn(g, pairs[0])] + FilesColumns(g, pairs[1..])
  {
    ConsOfPointwise(pairs, FilesColumns(g, pairs), FilesColumns(g, pairs[1..]), p => FirstColumn(g, p));
  }

  /**
   * The misalignment of the code as written: when the first pair is carried
   * by two columns, the entry read for the second pair is the first pair's
   * second column, which cannot carry the second pair.
   */
  lemma FilesColumnsMisaligned(g: Grid, pairs: seq<Pair>)
    requires |pairs| >= 2 && pairs[0] != pairs[1]
    requires |CommonColumns(g, pairs[0])| >= 2
    ensures FilesColumnsAsWritten(g, pairs)[1] == Some(CommonColumns(g, pairs[0])[1])
    ensures FilesColumnsAsWritten(g, pairs)[1] != FilesColumns(g, pairs)[1]
  {
    var entries := EntriesAsWritten(g, pairs[0]);
    var r := FilesColumnsAsWritten(g, pairs);
    assert r[..|entries|] == entries;
    assert r[1] == entries[1];
    var c := CommonColumns(g, pairs[0])[1];
    assert c in CommonColumns(g, pairs[0]);
    assert !Carries(g, pairs[1], c);
  }
}
