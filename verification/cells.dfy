/**
 * Cell values of a spreadsheet, the exceptions the extraction code can raise,
 * and the orders Python uses to compare strings and cells.
 */
module Cells {
  import opened Wrappers

  /** A non-empty cell value: text is compared by content; every other value
      (numbers, dates) is opaque and only compared for equality. */
  datatype Value = Text(s: string) | Opaque(id: nat)

  /** A cell as openpyxl reports it: `None` when empty. */
  type Cell = Option<Value>

  /** A text cell. */
  function T(s: string): Cell {
    Some(Text(s))
  }

  /** `isinstance(value, str)` */
  predicate IsStr(c: Cell) {
    c.Some? && c.value.Text?
  }

  /** What the extraction code can raise. */
  datatype Fault =
    | NotInList(item: Cell)      // list.index(item) raises ValueError
    | MissingSheet(name: string) // workbook[name] raises KeyError
    | IndexOutOfRange            // list[i] or del list[i] raises IndexError
    | BadCoordinate              // openpyxl refuses a row or column below 1, or a malformed coordinate
    | NotANumber                 // int(text) raises ValueError

  type Outcome<T> = Result<T, Fault>

  /** The characters Python's `str.strip()` removes, restricted to ASCII. */
  predicate IsSpace(ch: char) {
    ch == ' ' || ch == '\t' || ch == '\n' || ch == '\r' || ch == '\U{000B}' || ch == '\U{000C}'
  }

  /** `cell is None or str(cell).strip() == ""`: opaque values never print as blank. */
  predicate IsBlank(c: Cell) {
    c.None? || (c.value.Text? && forall k :: 0 <= k < |c.value.s| ==> IsSpace(c.value.s[k]))
  }

  /** Python's `a < b` on strings: code-point lexicographic order. */
  predicate StrLess(a: string, b: string) {
    |b| > 0 && (|a| == 0 || a[0] < b[0] || (a[0] == b[0] && StrLess(a[1..], b[1..])))
  }

  lemma {:induction false} StrLessIrreflexive(a: string)
    ensures !StrLess(a, a)
  {
    if |a| > 0 {
      StrLessIrreflexive(a[1..]);
    }
  }

  lemma {:induction false} StrLessTransitive(a: string, b: string, c: string)
    requires StrLess(a, b) && StrLess(b, c)
    ensures StrLess(a, c)
  {
    if |a| > 0 && a[0] == b[0] && b[0] == c[0] {
      StrLessTransitive(a[1..], b[1..], c[1..]);
    }
  }

  lemma {:induction false} StrLessTotal(a: string, b: string)
    requires a != b
    ensures StrLess(a, b) || StrLess(b, a)
  {
    if |a| > 0 && |b| > 0 && a[0] == b[0] {
      StrLessTotal(a[1..], b[1..]);
    }
  }

  /**
   * A fixed strict total order on cells: None first, then opaque values by
   * identity, then text in Python's string order. Python only orders
   * comparable values (it raises TypeError on `None < "x"`); the model uses
   * this order wherever the source sorts cells.
   */
  predicate CellLess(a: Cell, b: Cell) {
    match (a, b)
    case (None, None) => false
    case (None, Some(_)) => true
    case (Some(_), None) => false
    case (Some(x), Some(y)) =>
      match (x, y)
      case (Opaque(i), Opaque(j)) => i < j
      case (Opaque(_), Text(_)) => true
      case (Text(_), Opaque(_)) => false
      case (Text(s), Text(t)) => StrLess(s, t)
  }

  lemma CellLessIrreflexive(a: Cell)
    ensures !CellLess(a, a)
  {
    if a.Some? && a.value.Text? {
      StrLessIrreflexive(a.value.s);
    }
  }

  lemma CellLessTransitive(a: Cell, b: Cell, c: Cell)
    requires CellLess(a, b) && CellLess(b, c)
    ensures CellLess(a, c)
  {
    if a.Some? && b.Some? && c.Some? && a.value.Text? && b.value.Text? && c.value.Text? {
      StrLessTransitive(a.value.s, b.value.s, c.value.s);
    }
  }

  lemma CellLessTotal(a: Cell, b: Cell)
    requires a != b
    ensures CellLess(a, b) || CellLess(b, a)
  {
    if a.Some? && b.Some? && a.value.Text? && b.value.Text? {
      StrLessTotal(a.value.s, b.value.s);
    }
  }
}
