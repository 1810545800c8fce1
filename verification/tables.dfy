/**
 * Worksheets produced by the reshapers, as rows of cells, and the positional
 * combinators the source builds them with: zip, repetition, vertical joining
 * (app/modules/utils.py) and side-by-side placement
 * (app/modules/tabs/tusd_or_te_data.py).
 */
module Tables {
  import opened Wrappers
  import opened Cells

  type Row = seq<Cell>

  /** A worksheet as its rows, row 1 first; rows may differ in length. */
  type Sheet = seq<Row>

  /** Concatenation of a sequence of sequences, in order. */
  function Flatten<X>(xss: seq<seq<X>>): seq<X> {
    if |xss| == 0 then [] else Flatten(xss[..|xss| - 1]) + xss[|xss| - 1]
  }

  lemma {:induction false} FlattenConcat<X>(xss: seq<seq<X>>, yss: seq<seq<X>>)
    ensures Flatten(xss + yss) == Flatten(xss) + Flatten(yss)
  {
    if |yss| > 0 {
      assert (xss + yss)[..|xss + yss| - 1] == xss + yss[..|yss| - 1];
      FlattenConcat(xss, yss[..|yss| - 1]);
    } else {
      assert xss + yss == xss;
    }
  }

  lemma FlattenSnoc<X>(xss: seq<seq<X>>, ys: seq<X>)
    ensures Flatten(xss + [ys]) == Flatten(xss) + ys
  {
    assert (xss + [ys])[..|xss|] == xss;
  }

  /** Every element of the concatenation comes from one of the sequences. */
  lemma {:induction false} FlattenMember<X>(xss: seq<seq<X>>, i: nat)
    requires i < |Flatten(xss)|
    ensures exists k :: 0 <= k < |xss| && Flatten(xss)[i] in xss[k]
  {
    var n := |xss|;
    var init := xss[..n - 1];
    if i < |Flatten(init)| {
      FlattenMember(init, i);
      var k :| 0 <= k < |init| && Flatten(init)[i] in init[k];
      assert Flatten(xss)[i] == Flatten(init)[i];
      assert xss[k] == init[k];
    } else {
      assert Flatten(xss)[i] == xss[n - 1][i - |Flatten(init)|];
    }
  }

  /** The sequences with x appended to the last one. */
  function ExtendLast<X>(xss: seq<seq<X>>, x: X): (r: seq<seq<X>>)
    requires |xss| > 0
    ensures |r| == |xss| && r[|r| - 1] == xss[|xss| - 1] + [x]
    ensures forall k :: 0 <= k < |xss| - 1 ==> r[k] == xss[k]
  {
    xss[..|xss| - 1] + [xss[|xss| - 1] + [x]]
  }

  lemma FlattenExtendLast<X>(xss: seq<seq<X>>, x: X)
    requires |xss| > 0
    ensures Flatten(ExtendLast(xss, x)) == Flatten(xss) + [x]
  {
    FlattenSnoc(xss[..|xss| - 1], xss[|xss| - 1] + [x]);
  }

  lemma ExtendLastEmpty<X>(xss: seq<seq<X>>, x: X)
    ensures ExtendLast(xss + [[]], x) == xss + [[x]]
  {
    assert (xss + [[]])[..|xss|] == xss;
    assert [] + [x] == [x];
  }

  lemma DropLastSnoc<X>(s: seq<X>)
    requires |s| > 0
    ensures s[..|s| - 1] + [s[|s| - 1]] == s
  {
  }

  lemma FlattenTakeNext<X>(xss: seq<seq<X>>, i: nat)
    requires i < |xss|
    ensures Flatten(xss[..i + 1]) == Flatten(xss[..i]) + xss[i]
  {
    assert xss[..i + 1] == xss[..i] + [xss[i]];
    FlattenSnoc(xss[..i], xss[i]);
  }

  lemma AppendTakeNone<X>(a: seq<X>, s: seq<X>)
    ensures a + s[..0] == a
  {
    assert s[..0] == [];
  }

  lemma AppendTakeAll<X>(a: seq<X>, s: seq<X>)
    ensures a + s[..|s|] == a + s
  {
    assert s[..|s|] == s;
  }

  lemma AppendTakeNext<X>(w: seq<X>, a: seq<X>, s: seq<X>, j: nat)
    requires j < |s| && w == a + s[..j]
    ensures w + [s[j]] == a + s[..j + 1]
  {
    assert s[..j + 1] == s[..j] + [s[j]];
  }

  lemma FlattenSingle<X>(xs: seq<X>)
    ensures Flatten([xs]) == xs
  {
    assert [xs][..0] == [];
  }

  /** `[v] * n`, built by the source with an append loop. */
  function Repeat(v: Cell, n: nat): (r: seq<Cell>)
    ensures |r| == n
    ensures forall k :: 0 <= k < n ==> r[k] == v
  {
    if n == 0 then [] else Repeat(v, n - 1) + [v]
  }

  /** The number of rows `zip` produces: the shortest length (0 for no sequences). */
  function MinLen(cols: seq<seq<Cell>>): (m: nat)
    ensures forall j :: 0 <= j < |cols| ==> m <= |cols[j]|
    ensures |cols| > 0 ==> exists j :: 0 <= j < |cols| && m == |cols[j]|
    ensures |cols| == 0 ==> m == 0
  {
    if |cols| == 0 then 0 else MinFrom(cols, 0)
  }

  /** The shortest length among `cols[k..]`. */
  function MinFrom(cols: seq<seq<Cell>>, k: nat): (m: nat)
    requires k < |cols|
    ensures forall j :: k <= j < |cols| ==> m <= |cols[j]|
    ensures exists j :: k <= j < |cols| && m == |cols[j]|
    decreases |cols| - k
  {
    if k == |cols| - 1 then |cols[k]|
    else
      var rest := MinFrom(cols, k + 1);
      if |cols[k]| <= rest then |cols[k]| else rest
  }

  /** Sequences of one common length zip to that many rows. */
  lemma {:induction false} MinLenUniform(cols: seq<seq<Cell>>, n: nat)
    requires |cols| > 0 && forall j :: 0 <= j < |cols| ==> |cols[j]| == n
    ensures MinLen(cols) == n
  {
  }

  /** `zip(*cols)`: row i holds the i-th value of every sequence, up to the shortest one. */
  function Zip(cols: seq<seq<Cell>>): (rows: Sheet)
    ensures |rows| == MinLen(cols)
    ensures forall i :: 0 <= i < |rows| ==> |rows[i]| == |cols|
    ensures forall i, j :: 0 <= i < |rows| && 0 <= j < |cols| ==> rows[i][j] == cols[j][i]
  {
    seq(MinLen(cols), i requires 0 <= i < MinLen(cols) => seq(|cols|, j requires 0 <= j < |cols| => cols[j][i]))
  }

  /** `max_column` of a sheet: its longest row. */
  function Width(s: Sheet): (w: nat)
    ensures forall i :: 0 <= i < |s| ==> |s[i]| <= w
    ensures |s| > 0 ==> exists i :: 0 <= i < |s| && |s[i]| == w
    ensures |s| == 0 ==> w == 0
  {
    WidthOf(s, |s|)
  }

  /** The longest of the first n rows. */
  function WidthOf(s: Sheet, n: nat): (w: nat)
    requires n <= |s|
    ensures forall i :: 0 <= i < n ==> |s[i]| <= w
    ensures n > 0 ==> exists i :: 0 <= i < n && |s[i]| == w
    ensures n == 0 ==> w == 0
  {
    if n == 0 then 0
    else
      var w := WidthOf(s, n - 1);
      if |s[n - 1]| <= w then w else |s[n - 1]|
  }

  lemma WidthOfUniform(s: Sheet, w: nat)
    requires forall i :: 0 <= i < |s| ==> |s[i]| == w
    requires |s| > 0 || w == 0
    ensures Width(s) == w
  {
  }

  /** A row extended with None up to width w. */
  function Pad(row: Row, w: nat): (r: Row)
    ensures |r| == if |row| < w then w else |row|
    ensures r[..|row|] == row
    ensures forall k :: |row| <= k < |r| ==> r[k].None?
  {
    if |row| < w then row + Repeat(None, w - |row|) else row
  }

  /** The cell at 1-based (i, j); None outside the stored rows. */
  function SheetCell(s: Sheet, i: int, j: int): Cell {
    if 1 <= i <= |s| && 1 <= j <= |s[i - 1]| then s[i - 1][j - 1] else None
  }

  /** The rows `iter_rows(values_only=True)` yields: every row padded to `max_column`. */
  function Rect(s: Sheet): (r: Sheet)
    ensures |r| == |s|
    ensures forall i :: 0 <= i < |r| ==> |r[i]| == Width(s)
    ensures forall i, j {:trigger SheetCell(r, i, j)} :: SheetCell(r, i, j) == SheetCell(s, i, j) || (1 <= i <= |s| && |s[i - 1]| < j <= Width(s))
  {
    seq(|s|, i requires 0 <= i < |s| => Pad(s[i], Width(s)))
  }

  /** Reading a sheet whose rows share one width returns it unchanged. */
  lemma RectOfUniform(s: Sheet, w: nat)
    requires forall i :: 0 <= i < |s| ==> |s[i]| == w
    ensures Rect(s) == s
  {
    if |s| > 0 {
      WidthOfUniform(s, w);
      assert forall i :: 0 <= i < |s| ==> Rect(s)[i] == Pad(s[i], w) == s[i];
    }
  }

  /** Reading a sheet never changes a cell: padding only adds empty cells. */
  lemma RectReadsSame(s: Sheet, i: int, j: int)
    ensures SheetCell(Rect(s), i, j) == SheetCell(s, i, j)
  {
    var r := Rect(s);
    if 1 <= i <= |s| && |s[i - 1]| < j <= Width(s) {
      assert r[i - 1] == Pad(s[i - 1], Width(s));
    }
  }

  /** All rows but the first (`iter_rows` skipping row 1). */
  function DropFirst(s: Sheet): (r: Sheet)
    ensures |s| > 0 ==> r == s[1..]
    ensures |s| == 0 ==> r == []
  {
    if |s| == 0 then [] else s[1..]
  }

  /** Each sheet's rows, as read, without its first row. */
  function Tails(sheets: seq<Sheet>): (r: seq<Sheet>)
    ensures |r| == |sheets|
    ensures forall i :: 0 <= i < |sheets| ==> r[i] == DropFirst(Rect(sheets[i]))
  {
    seq(|sheets|, i requires 0 <= i < |sheets| => DropFirst(Rect(sheets[i])))
  }

  /**
   * `join_sheets_vertically`: every row of the first sheet, then the rows of
   * each later sheet without its first row, in order.
   */
  function JoinVertically(sheets: seq<Sheet>): (r: Sheet)
    ensures |sheets| > 0 ==> |r| >= |sheets[0]| && r[..|sheets[0]|] == Rect(sheets[0])
    ensures |sheets| == 0 ==> r == []
  {
    if |sheets| == 0 then [] else Rect(sheets[0]) + Flatten(Tails(sheets[1..]))
  }

  /** Joining one more sheet appends exactly its rows after the first. */
  lemma JoinVerticallyAppend(sheets: seq<Sheet>, s: Sheet)
    requires |sheets| > 0
    ensures JoinVertically(sheets + [s]) == JoinVertically(sheets) + DropFirst(Rect(s))
  {
    var all := sheets + [s];
    assert all[1..] == sheets[1..] + [s];
    assert Tails(all[1..]) == Tails(sheets[1..]) + [DropFirst(Rect(s))];
    FlattenConcat(Tails(sheets[1..]), [DropFirst(Rect(s))]);
    FlattenSingle(DropFirst(Rect(s)));
  }

  /** The length of every sequence, in order. */
  function Lengths<X>(xss: seq<seq<X>>): (ls: seq<nat>)
    ensures |ls| == |xss| && forall k :: 0 <= k < |xss| ==> ls[k] == |xss[k]|
  {
    seq(|xss|, k requires 0 <= k < |xss| => |xss[k]|)
  }

  /** Offsets into a prefix agree with offsets into the whole. */
  lemma {:induction false} OffsetOfPrefix(ws: seq<nat>, m: nat, k: nat)
    requires k <= m <= |ws|
    ensures Offset(ws[..m], k) == Offset(ws, k)
  {
    if k > 0 {
      OffsetOfPrefix(ws, m, k - 1);
    }
  }

  /** The concatenation is as long as all sequences together. */
  lemma {:induction false} FlattenLength<X>(xss: seq<seq<X>>)
    ensures |Flatten(xss)| == Offset(Lengths(xss), |xss|)
  {
    if |xss| > 0 {
      var n := |xss|;
      var init := xss[..n - 1];
      FlattenLength(init);
      assert Lengths(init) == Lengths(xss)[..n - 1];
      OffsetOfPrefix(Lengths(xss), n - 1, n - 1);
    }
  }

  /** Element r of the j-th sequence sits after the elements of the sequences before it. */
  lemma {:induction false} FlattenIndex<X>(xss: seq<seq<X>>, j: nat, r: nat)
    requires j < |xss| && r < |xss[j]|
    ensures Offset(Lengths(xss), j) + r < |Flatten(xss)|
    ensures Flatten(xss)[Offset(Lengths(xss), j) + r] == xss[j][r]
  {
    var n := |xss|;
    var init := xss[..n - 1];
    FlattenLength(init);
    assert Lengths(init) == Lengths(xss)[..n - 1];
    OffsetOfPrefix(Lengths(xss), n - 1, n - 1);
    OffsetOfPrefix(Lengths(xss), n - 1, j);
    if j < n - 1 {
      FlattenIndex(init, j, r);
      OffsetMonotone(Lengths(xss), j, n - 1);
    }
  }

  /** FlattenIndex with the lengths given by any sequence that lists them. */
  lemma FlattenAt<X>(xss: seq<seq<X>>, ls: seq<nat>, j: nat, r: nat)
    requires |ls| == |xss| && forall k :: 0 <= k < |xss| ==> |xss[k]| == ls[k]
    requires j < |xss| && r < ls[j]
    ensures Offset(ls, j) + r < |Flatten(xss)|
    ensures Flatten(xss)[Offset(ls, j) + r] == xss[j][r]
  {
    assert Lengths(xss) == ls;
    FlattenIndex(xss, j, r);
  }

  /** Joining sheets vertically is concatenating the first sheet's rows with the later sheets' rows after the first. */
  lemma JoinVerticallyFlatten(sheets: seq<Sheet>)
    requires |sheets| > 0
    ensures JoinVertically(sheets) == Flatten([Rect(sheets[0])] + Tails(sheets[1..]))
  {
    FlattenConcat([Rect(sheets[0])], Tails(sheets[1..]));
    FlattenSingle(Rect(sheets[0]));
  }

  /** A sequence given pointwise by f over xs + ys is f over xs followed by f over ys. */
  lemma ConcatOfPointwise<X, Y>(xs: seq<X>, ys: seq<X>, r: seq<Y>, a: seq<Y>, b: seq<Y>, f: X -> Y)
    requires |r| == |xs| + |ys| && |a| == |xs| && |b| == |ys|
    requires forall i :: 0 <= i < |r| ==> r[i] == f((xs + ys)[i])
    requires forall i :: 0 <= i < |a| ==> a[i] == f(xs[i])
    requires forall i :: 0 <= i < |b| ==> b[i] == f(ys[i])
    ensures r == a + b
  {
    forall i | 0 <= i < |r|
      ensures r[i] == (a + b)[i]
    {
      if i >= |xs| {
        assert (xs + ys)[i] == ys[i - |xs|];
      }
    }
  }

  /** A sequence given pointwise by f over xs is f of the head followed by f over the tail. */
  lemma ConsOfPointwise<X, Y>(xs: seq<X>, r: seq<Y>, t: seq<Y>, f: X -> Y)
    requires |xs| > 0 && |r| == |xs| && |t| == |xs| - 1
    requires forall i :: 0 <= i < |xs| ==> r[i] == f(xs[i])
    requires forall i :: 0 <= i < |t| ==> t[i] == f(xs[1..][i])
    ensures r == [f(xs[0])] + t
  {
    forall i | 0 <= i < |t|
      ensures r[i + 1] == t[i]
    {
      assert xs[1..][i] == xs[i + 1];
    }
  }

  /** A vertical join whose parts, as read, are the given blocks is their concatenation. */
  lemma JoinVerticallyOfParts(sheets: seq<Sheet>, blocks: seq<Sheet>)
    requires |sheets| > 0 && |blocks| == |sheets|
    requires Rect(sheets[0]) == blocks[0] && Tails(sheets[1..]) == blocks[1..]
    ensures JoinVertically(sheets) == Flatten(blocks)
  {
    assert JoinVertically(sheets) == Flatten([Rect(sheets[0])] + Tails(sheets[1..])) by {
      JoinVerticallyFlatten(sheets);
    }
    assert [blocks[0]] + blocks[1..] == blocks;
  }

  /** The tallest sheet's row count: `max_row` of sheets placed side by side. */
  function MaxHeight(sheets: seq<Sheet>): (h: nat)
    ensures forall k :: 0 <= k < |sheets| ==> |sheets[k]| <= h
    ensures h == 0 || exists k :: 0 <= k < |sheets| && |sheets[k]| == h
  {
    HeightOf(sheets, |sheets|)
  }

  /** The tallest of the first n sheets. */
  function HeightOf(sheets: seq<Sheet>, n: nat): (h: nat)
    requires n <= |sheets|
    ensures forall k :: 0 <= k < n ==> |sheets[k]| <= h
    ensures h == 0 || exists k :: 0 <= k < n && |sheets[k]| == h
  {
    if n == 0 then 0
    else
      var h := HeightOf(sheets, n - 1);
      if |sheets[n - 1]| <= h then h else |sheets[n - 1]|
  }

  /** The columns before the k-th sheet's first: the earlier sheets' `max_column` summed. */
  function ColumnsBefore(sheets: seq<Sheet>, k: nat): nat
    requires k <= |sheets|
  {
    if k == 0 then 0 else ColumnsBefore(sheets, k - 1) + Width(sheets[k - 1])
  }

  /** Each sheet's columns end at or before the next sheet's start. */
  lemma {:induction false} ColumnsBeforeMonotone(sheets: seq<Sheet>, k: nat, m: nat)
    requires k < m <= |sheets|
    ensures ColumnsBefore(sheets, k) + Width(sheets[k]) <= ColumnsBefore(sheets, m)
  {
    if m > k + 1 {
      ColumnsBeforeMonotone(sheets, k, m - 1);
    }
  }

  /** The column before the k-th block's first: the first k widths summed. */
  function Offset(ws: seq<nat>, k: nat): nat
    requires k <= |ws|
  {
    if k == 0 then 0 else Offset(ws, k - 1) + ws[k - 1]
  }

  /** Offsets never decrease, and each block ends where the next may begin. */
  lemma {:induction false} OffsetMonotone(ws: seq<nat>, k: nat, m: nat)
    requires k < m <= |ws|
    ensures Offset(ws, k) + ws[k] <= Offset(ws, m)
  {
    if m > k + 1 {
      OffsetMonotone(ws, k, m - 1);
    }
  }

  /**
   * The first n cells of 0-based row i of s, as `cell(row, column).value`
   * reads them: empty past the stored rows and cells.
   */
  function ReadRow(s: Sheet, i: nat, n: nat): (b: Row)
    ensures |b| == n
  {
    if n == 0 then [] else ReadRow(s, i, n - 1) + [SheetCell(s, i + 1, n)]
  }

  lemma {:induction false} ReadRowAt(s: Sheet, i: nat, n: nat, j: nat)
    requires j < n
    ensures ReadRow(s, i, n)[j] == SheetCell(s, i + 1, j + 1)
  {
    if j < n - 1 {
      ReadRowAt(s, i, n - 1, j);
    }
  }

  /** Row i of the combined sheet: each sheet's row i, left to right. */
  function SideRow(sheets: seq<Sheet>, i: nat): (row: Row)
    ensures |row| == ColumnsBefore(sheets, |sheets|)
  {
    SideRowOf(sheets, i, |sheets|)
  }

  /** Row i of the first n sheets placed side by side. */
  function SideRowOf(sheets: seq<Sheet>, i: nat, n: nat): (row: Row)
    requires n <= |sheets|
    ensures |row| == ColumnsBefore(sheets, n)
  {
    if n == 0 then [] else SideRowOf(sheets, i, n - 1) + ReadRow(sheets[n - 1], i, Width(sheets[n - 1]))
  }

  /** The k-th sheet's block of row i starts after the earlier sheets' widths. */
  lemma {:induction false} SideRowOfAt(sheets: seq<Sheet>, i: nat, n: nat, k: nat, j: nat)
    requires n <= |sheets| && k < n && j < Width(sheets[k])
    requires ColumnsBefore(sheets, k) + j < ColumnsBefore(sheets, n)
    ensures SideRowOf(sheets, i, n)[ColumnsBefore(sheets, k) + j] == ReadRow(sheets[k], i, Width(sheets[k]))[j]
  {
    if k < n - 1 {
      ColumnsBeforeMonotone(sheets, k, n - 1);
      SideRowOfAt(sheets, i, n - 1, k, j);
      SideRowOfEarlier(sheets, i, n, ColumnsBefore(sheets, k) + j);
    } else {
      SideRowOfLast(sheets, i, n, j);
    }
  }

  /** Extending the row by the n-th sheet's block keeps the earlier cells. */
  lemma SideRowOfEarlier(sheets: seq<Sheet>, i: nat, n: nat, p: nat)
    requires 0 < n <= |sheets| && p < ColumnsBefore(sheets, n - 1)
    ensures p < |SideRowOf(sheets, i, n)| && SideRowOf(sheets, i, n)[p] == SideRowOf(sheets, i, n - 1)[p]
  {
  }

  /** The n-th sheet's block comes right after the earlier sheets' columns. */
  lemma SideRowOfLast(sheets: seq<Sheet>, i: nat, n: nat, j: nat)
    requires 0 < n <= |sheets| && j < Width(sheets[n - 1])
    ensures ColumnsBefore(sheets, n - 1) + j < |SideRowOf(sheets, i, n)|
    ensures SideRowOf(sheets, i, n)[ColumnsBefore(sheets, n - 1) + j] == ReadRow(sheets[n - 1], i, Width(sheets[n - 1]))[j]
  {
  }

  /**
   * `_create_side_by_side_worksheet`: every sheet's cells copied into one
   * sheet, the k-th sheet starting right after the earlier sheets' columns.
   */
  function SideBySide(sheets: seq<Sheet>): (r: Sheet)
    ensures |r| == MaxHeight(sheets)
    ensures forall i :: 0 <= i < |r| ==> |r[i]| == ColumnsBefore(sheets, |sheets|)
  {
    SideRows(sheets, MaxHeight(sheets))
  }

  /** The first n rows of the sheets placed side by side. */
  function SideRows(sheets: seq<Sheet>, n: nat): (r: Sheet)
    ensures |r| == n
    ensures forall i :: 0 <= i < n ==> |r[i]| == ColumnsBefore(sheets, |sheets|)
  {
    if n == 0 then [] else SideRows(sheets, n - 1) + [SideRow(sheets, n - 1)]
  }

  lemma {:induction false} SideRowsAt(sheets: seq<Sheet>, n: nat, i: nat)
    requires i < n
    ensures SideRows(sheets, n)[i] == SideRow(sheets, i)
  {
    if i < n - 1 {
      SideRowsAt(sheets, n - 1, i);
    }
  }

  /**
   * Cell (i, j) of the k-th sheet lands at (i, offset + j), where offset is the
   * sum of the earlier sheets' `max_column`; rows past the tallest sheet are
   * empty in both.
   */
  lemma {:induction false} SideBySidePlacement(sheets: seq<Sheet>, k: nat, i: int, j: int)
    requires k < |sheets| && 1 <= j <= Width(sheets[k])
    ensures SheetCell(SideBySide(sheets), i, ColumnsBefore(sheets, k) + j) == SheetCell(sheets[k], i, j)
  {
    if 1 <= i <= MaxHeight(sheets) {
      PlacementInRows(sheets, k, i, j);
    } else {
      PlacementBelowRows(sheets, k, i, j);
    }
  }

  lemma {:induction false} PlacementInRows(sheets: seq<Sheet>, k: nat, i: int, j: int)
    requires k < |sheets| && 1 <= j <= Width(sheets[k]) && 1 <= i <= MaxHeight(sheets)
    ensures SheetCell(SideBySide(sheets), i, ColumnsBefore(sheets, k) + j) == SheetCell(sheets[k], i, j)
  {
    SideBySideBound(sheets, k, i, j);
    SideBySideInside(sheets, k, i, j);
    CellWithin(SideBySide(sheets), i, ColumnsBefore(sheets, k) + j, SheetCell(sheets[k], i, j));
  }

  lemma {:induction false} PlacementBelowRows(sheets: seq<Sheet>, k: nat, i: int, j: int)
    requires k < |sheets| && !(1 <= i <= MaxHeight(sheets))
    ensures SheetCell(SideBySide(sheets), i, ColumnsBefore(sheets, k) + j) == None
    ensures SheetCell(sheets[k], i, j) == None
  {
    CellBeyond(SideBySide(sheets), i, ColumnsBefore(sheets, k) + j);
    assert |sheets[k]| <= MaxHeight(sheets);
    CellBeyond(sheets[k], i, j);
  }

  /** A cell inside the stored rows is read at its 1-based position. */
  lemma CellWithin(s: Sheet, i: int, j: int, v: Cell)
    requires 1 <= i <= |s| && 1 <= j <= |s[i - 1]| && s[i - 1][j - 1] == v
    ensures SheetCell(s, i, j) == v
  {
  }

  /** Rows past the stored ones read as empty. */
  lemma CellBeyond(s: Sheet, i: int, j: int)
    requires !(1 <= i <= |s|)
    ensures SheetCell(s, i, j) == None
  {
  }

  /** The k-th sheet's columns fit inside every combined row. */
  lemma SideBySideBound(sheets: seq<Sheet>, k: nat, i: nat, j: nat)
    requires k < |sheets| && 1 <= j <= Width(sheets[k]) && 1 <= i <= MaxHeight(sheets)
    ensures ColumnsBefore(sheets, k) + j <= |SideBySide(sheets)[i - 1]|
  {
    ColumnsBeforeMonotone(sheets, k, |sheets|);
  }

  /** The k-th sheet's cell at 1-based (i, j) is stored in the combined row i after the earlier widths. */
  lemma {:induction false} SideBySideInside(sheets: seq<Sheet>, k: nat, i: nat, j: nat)
    requires k < |sheets| && 1 <= j <= Width(sheets[k]) && 1 <= i <= MaxHeight(sheets)
    requires ColumnsBefore(sheets, k) + j <= |SideBySide(sheets)[i - 1]|
    ensures SideBySide(sheets)[i - 1][ColumnsBefore(sheets, k) + j - 1] == SheetCell(sheets[k], i, j)
  {
    SideRowOfAt(sheets, i - 1, |sheets|, k, j - 1);
    SideRowsAt(sheets, MaxHeight(sheets), i - 1);
    ReadRowAt(sheets[k], i - 1, Width(sheets[k]), j - 1);
  }

  /** Two sheets side by side: the left one stays in place. */
  lemma {:induction false} SideBySideLeft(left: Sheet, right: Sheet, i: int, j: int)
    requires 1 <= j <= Width(left)
    ensures SheetCell(SideBySide([left, right]), i, j) == SheetCell(left, i, j)
  {
    var sheets := [left, right];
    assert ColumnsBefore(sheets, 0) == 0;
    SideBySidePlacement(sheets, 0, i, j);
  }

  /** Two sheets side by side: the right one moves right by the left one's width. */
  lemma {:induction false} SideBySideRight(left: Sheet, right: Sheet, i: int, j: int)
    requires 1 <= j <= Width(right)
    ensures SheetCell(SideBySide([left, right]), i, Width(left) + j) == SheetCell(right, i, j)
  {
    var sheets := [left, right];
    assert ColumnsBefore(sheets, 1) == Width(left) by {
      assert ColumnsBefore(sheets, 0) == 0;
    }
    SideBySidePlacement(sheets, 1, i, j);
  }

  /** The combined sheet is as wide as all sheets together, whenever it has a row. */
  lemma SideBySideWidth(sheets: seq<Sheet>)
    ensures MaxHeight(sheets) > 0 ==> Width(SideBySide(sheets)) == ColumnsBefore(sheets, |sheets|)
  {
    var r := SideBySide(sheets);
    if |r| > 0 {
      WidthOfUniform(r, ColumnsBefore(sheets, |sheets|));
    }
  }
}
