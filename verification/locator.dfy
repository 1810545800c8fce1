/**
 * `get_rows_and_columns_from(value, worksheet)` (app/modules/utils.py): every
 * cell of the sheet whose raw value equals `value`, as (row, column) pairs in
 * the order of their coordinates' sorting key (column letters as text, then
 * row number).
 */
module Locator {
  import opened Wrappers
  import opened Cells
  import opened Grid
  import opened Coordinates

  type Coord = (nat, nat)

  /** Python's tuple order on (letters, row) keys. */
  predicate KeyLess(a: (string, nat), b: (string, nat)) {
    StrLess(a.0, b.0) || (a.0 == b.0 && a.1 < b.1)
  }

  /** The key `_sorting_key` derives from the coordinate of cell (row, column). */
  function Key(p: Coord): (string, nat) {
    (ColumnLetters(p.1), p.0)
  }

  /** The order in which the located cells are listed. */
  predicate CoordLess(p: Coord, q: Coord) {
    KeyLess(Key(p), Key(q))
  }

  lemma CoordLessIrreflexive(p: Coord)
    ensures !CoordLess(p, p)
  {
    StrLessIrreflexive(ColumnLetters(p.1));
  }

  lemma CoordLessTransitive(p: Coord, q: Coord, s: Coord)
    requires CoordLess(p, q) && CoordLess(q, s)
    ensures CoordLess(p, s)
  {
    var a, b, c := ColumnLetters(p.1), ColumnLetters(q.1), ColumnLetters(s.1);
    if StrLess(a, b) && StrLess(b, c) {
      StrLessTransitive(a, b, c);
    }
  }

  /** Distinct cells always compare: no two coordinates share a key. */
  lemma CoordLessTotal(p: Coord, q: Coord)
    requires p != q
    ensures CoordLess(p, q) || CoordLess(q, p)
  {
    var a, b := ColumnLetters(p.1), ColumnLetters(q.1);
    if a == b {
      ColumnLettersInjective(p.1, q.1);
    } else {
      StrLessTotal(a, b);
    }
  }

  predicate Sorted(xs: seq<Coord>) {
    forall i, j :: 0 <= i < j < |xs| ==> CoordLess(xs[i], xs[j])
  }

  /** Whether the cell at p lies in the sheet's extent and holds exactly `value`. */
  predicate IsMatch(g: Grid, value: Cell, p: Coord) {
    1 <= p.0 <= g.maxRow && 1 <= p.1 <= g.maxCol && CellAt(g, p.0, p.1) == value
  }

  /** Matching cells of row r among columns 1..c, left to right. */
  function ScanRow(g: Grid, value: Cell, r: nat, c: nat): (xs: seq<Coord>)
    ensures forall p :: p in xs <==> p.0 == r && 1 <= p.1 <= c && CellAt(g, r, p.1) == value
  {
    if c == 0 then []
    else ScanRow(g, value, r, c - 1) + (if CellAt(g, r, c) == value then [(r, c)] else [])
  }

  /** Matching cells of rows 1..r, row by row, as `iter_rows()` visits them. */
  function Scan(g: Grid, value: Cell, r: nat): (xs: seq<Coord>)
    ensures forall p :: p in xs <==> 1 <= p.0 <= r && 1 <= p.1 <= g.maxCol && CellAt(g, p.0, p.1) == value
  {
    if r == 0 then []
    else Scan(g, value, r - 1) + ScanRow(g, value, r, g.maxCol)
  }

  /** x placed into a sorted list; a copy already present is not added twice. */
  function Insert(xs: seq<Coord>, x: Coord): (r: seq<Coord>)
    requires Sorted(xs)
    ensures forall p :: p in r <==> p in xs || p == x
    ensures Sorted(r)
  {
    if |xs| == 0 then [x]
    else if x == xs[0] then xs
    else if CoordLess(x, xs[0]) then
      InsertFrontSorted(xs, x);
      [x] + xs
    else
      CoordLessTotal(x, xs[0]);
      var rest := Insert(xs[1..], x);
      InsertConsSorted(xs[0], rest, xs[1..], x);
      [xs[0]] + rest
  }

  lemma {:induction false} InsertFrontSorted(xs: seq<Coord>, x: Coord)
    requires Sorted(xs) && |xs| > 0 && CoordLess(x, xs[0])
    ensures Sorted([x] + xs)
  {
    forall j | 0 <= j < |xs|
      ensures CoordLess(x, xs[j])
    {
      if j > 0 {
        CoordLessTransitive(x, xs[0], xs[j]);
      }
    }
  }

  lemma {:induction false} InsertConsSorted(h: Coord, rest: seq<Coord>, tail: seq<Coord>, x: Coord)
    requires Sorted([h] + tail) && Sorted(rest) && CoordLess(h, x)
    requires forall p :: p in rest ==> p in tail || p == x
    ensures Sorted([h] + rest)
  {
    forall k | 0 <= k < |rest|
      ensures CoordLess(h, rest[k])
    {
      assert rest[k] in rest;
      if rest[k] != x {
        var m :| 0 <= m < |tail| && tail[m] == rest[k];
        var ht := [h] + tail;
        assert ht[0] == h && ht[m + 1] == tail[m];
        assert CoordLess(ht[0], ht[m + 1]);
      }
    }
  }

  /** `sorted(coordinates, key=_sorting_key)` on distinct cells. */
  function SortCoords(xs: seq<Coord>): (r: seq<Coord>)
    ensures Sorted(r)
    ensures forall p :: p in r <==> p in xs
  {
    if |xs| == 0 then []
    else
      var r := Insert(SortCoords(xs[..|xs| - 1]), xs[|xs| - 1]);
      assert xs == xs[..|xs| - 1] + [xs[|xs| - 1]];
      r
  }

  /**
   * `get_rows_and_columns_from(value, worksheet)`: exactly the matching cells,
   * each once, in strictly increasing key order.
   */
  function RowsAndColumnsFrom(g: Grid, value: Cell): (r: seq<Coord>)
    ensures Sorted(r)
    ensures forall p :: p in r <==> IsMatch(g, value, p)
  {
    SortCoords(Scan(g, value, g.maxRow))
  }

  /** A sorted list is determined by its members. */
  lemma {:induction false} SortedUnique(xs: seq<Coord>, ys: seq<Coord>)
    requires Sorted(xs) && Sorted(ys)
    requires forall p :: p in xs <==> p in ys
    ensures xs == ys
  {
    if |xs| > 0 && |ys| > 0 {
      if xs[0] != ys[0] {
        assert ys[0] in ys && xs[0] in xs;
        SortedHeadIsLeast(xs, ys[0]);
        SortedHeadIsLeast(ys, xs[0]);
        CoordLessTransitive(xs[0], ys[0], xs[0]);
        CoordLessIrreflexive(xs[0]);
        assert false;
      }
      forall p
        ensures p in xs[1..] <==> p in ys[1..]
      {
        SortedTailMembers(xs, p);
        SortedTailMembers(ys, p);
      }
      SortedUnique(xs[1..], ys[1..]);
      assert xs == [xs[0]] + xs[1..] && ys == [ys[0]] + ys[1..];
    } else if |xs| > 0 {
      HeadIsMember(xs);
      assert false;
    } else if |ys| > 0 {
      HeadIsMember(ys);
      assert false;
    }
  }

  lemma HeadIsMember<T>(xs: seq<T>)
    requires |xs| > 0
    ensures xs[0] in xs
  {
  }

  lemma {:induction false} SortedHeadIsLeast(xs: seq<Coord>, p: Coord)
    requires Sorted(xs) && |xs| > 0 && p in xs && p != xs[0]
    ensures CoordLess(xs[0], p)
  {
  }

  lemma {:induction false} SortedTailMembers(xs: seq<Coord>, p: Coord)
    requires Sorted(xs) && |xs| > 0
    ensures p in xs[1..] <==> p in xs && p != xs[0]
  {
    if p in xs[1..] {
      var m :| 0 <= m < |xs[1..]| && xs[1..][m] == p;
      CoordLessIrreflexive(p);
    }
    if p in xs && p != xs[0] {
      var m :| 0 <= m < |xs| && xs[m] == p;
      assert xs[1..][m - 1] == p;
    }
  }

  /**
   * The located cells are fixed by the matches alone: any strictly sorted list
   * of exactly the matching cells is the locator's result.
   */
  lemma RowsAndColumnsFromUnique(g: Grid, value: Cell, xs: seq<Coord>)
    requires Sorted(xs)
    requires forall p :: p in xs <==> IsMatch(g, value, p)
    ensures RowsAndColumnsFrom(g, value) == xs
  {
    SortedUnique(RowsAndColumnsFrom(g, value), xs);
  }

  /**
   * Columns are ordered by their letters as text, not by number: a match in
   * column AA (27) is listed before a match in column B (2), whatever the rows.
   */
  lemma {:induction false} ColumnAABeforeColumnB(g: Grid, value: Cell, r1: nat, r2: nat)
    requires IsMatch(g, value, (r1, 27)) && IsMatch(g, value, (r2, 2))
    ensures exists i, j :: (0 <= i < j < |RowsAndColumnsFrom(g, value)|
      && RowsAndColumnsFrom(g, value)[i] == (r1, 27) && RowsAndColumnsFrom(g, value)[j] == (r2, 2))
  {
    var xs := RowsAndColumnsFrom(g, value);
    assert (r1, 27) in xs && (r2, 2) in xs;
    var i :| 0 <= i < |xs| && xs[i] == (r1, 27);
    var j :| 0 <= j < |xs| && xs[j] == (r2, 2);
    assert CoordLess(xs[i], xs[j]) by {
      ColumnAABeforeB(r1, r2);
    }
    SortedPrecedes(xs, i, j);
  }

  /** "AA" sorts before "B" as text. */
  lemma ColumnAABeforeB(r1: nat, r2: nat)
    ensures CoordLess((r1, 27), (r2, 2))
  {
    assert ColumnLetters(1) == "A";
    assert ColumnLetters(27) == "AA";
    assert ColumnLetters(2) == "B";
  }

  /** In a sorted list, a smaller element sits at a smaller index. */
  lemma {:induction false} SortedPrecedes(xs: seq<Coord>, i: nat, j: nat)
    requires Sorted(xs) && i < |xs| && j < |xs| && CoordLess(xs[i], xs[j])
    ensures i < j
  {
    if j < i {
      CoordLessTransitive(xs[i], xs[j], xs[i]);
      CoordLessIrreflexive(xs[i]);
      assert false;
    } else if j == i {
      CoordLessIrreflexive(xs[i]);
      assert false;
    }
  }
}
