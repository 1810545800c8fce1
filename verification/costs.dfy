/**
 * The "CUSTOS" tab (app/modules/tabs/costs_data.py): the cost rows without
 * their subtotal and total lines, stacked three times, once per cost basis
 * (economic, financial, CVA), next to that basis' values.
 */
module Costs {
  import opened Wrappers
  import opened Cells
  import opened Grid
  import opened Tables

  /** The labels of the rows `_get_totals_indexes` picks out. */
  const TotalsLabels: seq<string> := ["SUBTOTAL", "TOTAL", "TOTAL ABAS", "AVALIAÇÃO"]

  /** `value in totals`: only text equal to one of the labels. */
  predicate IsTotal(c: Cell) {
    c.Some? && c.value.Text? && c.value.s in TotalsLabels
  }

  predicate StrictlyIncreasing(idx: seq<int>) {
    forall i, j :: 0 <= i < j < |idx| ==> idx[i] < idx[j]
  }

  /** `_get_totals_indexes(values)`: the positions of total rows, ascending. */
  function TotalsIndexes(values: seq<Cell>): (r: seq<int>)
    ensures StrictlyIncreasing(r)
    ensures forall i :: 0 <= i < |r| ==> 0 <= r[i] < |values|
    ensures forall k :: k in r <==> 0 <= k < |values| && IsTotal(values[k])
  {
    if |values| == 0 then []
    else
      var init := TotalsIndexes(values[..|values| - 1]);
      assert forall k :: 0 <= k < |values| - 1 ==> values[..|values| - 1][k] == values[k];
      init + (if IsTotal(values[|values| - 1]) then [|values| - 1] else [])
  }

  /** `del xs[k]`: negative k counts from the end; out of range raises IndexError. */
  function DelAt(xs: seq<Cell>, k: int): (r: Outcome<seq<Cell>>)
    ensures r.Success? <==> -|xs| <= k < |xs|
    ensures r.Failure? ==> r.error == IndexOutOfRange
    ensures r.Success? ==> |r.value| == |xs| - 1
  {
    if 0 <= k < |xs| then Success(xs[..k] + xs[k + 1..])
    else if -|xs| <= k < 0 then Success(xs[..|xs| + k] + xs[|xs| + k + 1..])
    else Failure(IndexOutOfRange)
  }

  /**
   * `_remove_values_at(totals_indexes, values)`: the i-th deletion is at
   * `totals_indexes[i] - i`, since i values before it are already gone.
   */
  function RemoveValuesAt(idx: seq<int>, values: seq<Cell>): (r: Outcome<seq<Cell>>)
    ensures r.Failure? ==> r.error == IndexOutOfRange
  {
    if |idx| == 0 then Success(values)
    else
      var earlier :- RemoveValuesAt(idx[..|idx| - 1], values);
      DelAt(earlier, idx[|idx| - 1] - (|idx| - 1))
  }

  /** The values at the positions not listed in idx, in order: the reference for removal. */
  function Keep(values: seq<Cell>, idx: seq<int>): (r: seq<Cell>)
    ensures |r| <= |values|
  {
    if |values| == 0 then []
    else Keep(values[..|values| - 1], idx) + (if |values| - 1 in idx then [] else [values[|values| - 1]])
  }

  /** The values that are not totals, in order. */
  function NonTotals(values: seq<Cell>): (r: seq<Cell>)
    ensures forall k :: 0 <= k < |r| ==> !IsTotal(r[k])
  {
    if |values| == 0 then []
    else NonTotals(values[..|values| - 1]) + (if IsTotal(values[|values| - 1]) then [] else [values[|values| - 1]])
  }

  lemma {:induction false} KeepSameMembers(values: seq<Cell>, idx: seq<int>, jdx: seq<int>)
    requires forall p :: 0 <= p < |values| ==> (p in idx <==> p in jdx)
    ensures Keep(values, idx) == Keep(values, jdx)
  {
    if |values| > 0 {
      KeepSameMembers(values[..|values| - 1], idx, jdx);
    }
  }

  /** Positions from q on that are not listed are kept unchanged after the kept prefix. */
  lemma {:induction false} KeepSplit(values: seq<Cell>, idx: seq<int>, q: nat)
    requires q <= |values|
    requires forall p :: q <= p < |values| ==> p !in idx
    ensures Keep(values, idx) == Keep(values[..q], idx) + values[q..]
  {
    if |values| > q {
      var init := values[..|values| - 1];
      KeepSplit(init, idx, q);
      assert init[..q] == values[..q];
      assert init[q..] + [values[|values| - 1]] == values[q..];
    } else {
      assert values[..q] == values;
    }
  }

  /** Removing |idx| distinct positions, all in range, leaves |values| - |idx| values. */
  lemma {:induction false} KeepLength(values: seq<Cell>, idx: seq<int>)
    requires StrictlyIncreasing(idx)
    requires forall i :: 0 <= i < |idx| ==> 0 <= idx[i] < |values|
    ensures |Keep(values, idx)| == |values| - |idx|
  {
    if |values| > 0 {
      var n := |values|;
      if n - 1 in idx {
        var last := idx[|idx| - 1];
        var m :| 0 <= m < |idx| && idx[m] == n - 1;
        assert m == |idx| - 1;
        var shorter := idx[..|idx| - 1];
        KeepSameMembers(values[..n - 1], idx, shorter);
        KeepLength(values[..n - 1], shorter);
      } else {
        if |idx| > 0 {
          assert idx[|idx| - 1] < n - 1;
        }
        KeepLength(values[..n - 1], idx);
      }
    } else if |idx| > 0 {
      assert false;
    }
  }

  /**
   * Removal with ascending, non-negative indexes: it succeeds exactly when the
   * last index is within the values, and then it removes exactly those positions.
   */
  lemma {:induction false} RemoveValuesAtKeeps(idx: seq<int>, values: seq<Cell>)
    requires StrictlyIncreasing(idx)
    requires forall i :: 0 <= i < |idx| ==> 0 <= idx[i]
    ensures RemoveValuesAt(idx, values).Success? <==> |idx| == 0 || idx[|idx| - 1] < |values|
    ensures RemoveValuesAt(idx, values).Success? ==> RemoveValuesAt(idx, values).value == Keep(values, idx)
  {
    if |idx| == 0 {
      KeepNone(values, idx);
    } else {
      var n := |idx|;
      var init := idx[..n - 1];
      var q := idx[n - 1];
      RemoveValuesAtKeeps(init, values);
      var earlier := RemoveValuesAt(init, values);
      assert RemoveValuesAt(idx, values) == (if earlier.Success? then DelAt(earlier.value, q - (n - 1)) else earlier);
      if q < |values| {
        assert earlier.Success?;
        DeleteNextKept(idx, values);
      } else if earlier.Success? {
        RemovedLength(init, values);
      }
    }
  }

  /** After the first n - 1 removals, the n-th index names the value at its original position. */
  lemma {:induction false} DeleteNextKept(idx: seq<int>, values: seq<Cell>)
    requires StrictlyIncreasing(idx) && |idx| > 0
    requires forall i :: 0 <= i < |idx| ==> 0 <= idx[i]
    requires idx[|idx| - 1] < |values|
    ensures DelAt(Keep(values, idx[..|idx| - 1]), idx[|idx| - 1] - (|idx| - 1)) == Success(Keep(values, idx))
  {
    var n := |idx|;
    var q := idx[n - 1];
    var head := Keep(values[..q], idx[..n - 1]);
    var k := q - (n - 1);
    KeptBeforeLast(idx, values);
    KeptWithoutLast(idx, values);
    assert (head + values[q..])[..k] + (head + values[q..])[k + 1..] == head + values[q + 1..];
  }

  /** Without the last index, the kept values are the kept prefix before it, then everything from it on. */
  lemma {:induction false} KeptBeforeLast(idx: seq<int>, values: seq<Cell>)
    requires StrictlyIncreasing(idx) && |idx| > 0
    requires forall i :: 0 <= i < |idx| ==> 0 <= idx[i]
    requires idx[|idx| - 1] < |values|
    ensures |Keep(values[..idx[|idx| - 1]], idx[..|idx| - 1])| == idx[|idx| - 1] - (|idx| - 1)
    ensures Keep(values, idx[..|idx| - 1]) == Keep(values[..idx[|idx| - 1]], idx[..|idx| - 1]) + values[idx[|idx| - 1]..]
  {
    var n := |idx|;
    var init := idx[..n - 1];
    var q := idx[n - 1];
    KeepSplit(values, init, q);
    KeepLength(values[..q], init);
  }

  /** With the last index, the kept values are the same prefix, then everything after it. */
  lemma {:induction false} KeptWithoutLast(idx: seq<int>, values: seq<Cell>)
    requires StrictlyIncreasing(idx) && |idx| > 0
    requires forall i :: 0 <= i < |idx| ==> 0 <= idx[i]
    requires idx[|idx| - 1] < |values|
    ensures Keep(values, idx) == Keep(values[..idx[|idx| - 1]], idx[..|idx| - 1]) + values[idx[|idx| - 1] + 1..]
  {
    var n := |idx|;
    var init := idx[..n - 1];
    var q := idx[n - 1];
    KeepSplit(values, idx, q + 1);
    KeepSkipsListed(values, idx, q);
    KeepSameMembers(values[..q], idx, init);
  }

  /** A listed position adds nothing to the kept values. */
  lemma KeepSkipsListed(values: seq<Cell>, idx: seq<int>, q: nat)
    requires q < |values| && q in idx
    ensures Keep(values[..q + 1], idx) == Keep(values[..q], idx)
  {
    assert values[..q + 1][..q] == values[..q];
  }

  /** Ascending in-range removals shorten the values by their count. */
  lemma {:induction false} RemovedLength(idx: seq<int>, values: seq<Cell>)
    requires StrictlyIncreasing(idx)
    requires forall i :: 0 <= i < |idx| ==> 0 <= idx[i]
    requires |idx| == 0 || idx[|idx| - 1] < |values|
    ensures forall i :: 0 <= i < |idx| ==> idx[i] < |values|
    ensures |Keep(values, idx)| == |values| - |idx|
  {
    forall i | 0 <= i < |idx|
      ensures idx[i] < |values|
    {
      assert idx[i] <= idx[|idx| - 1];
    }
    KeepLength(values, idx);
  }

  lemma {:induction false} KeepNone(values: seq<Cell>, idx: seq<int>)
    requires |idx| == 0
    ensures Keep(values, idx) == values
  {
    if |values| > 0 {
      KeepNone(values[..|values| - 1], idx);
    }
  }

  /** Keeping every position that is not a total is dropping the totals. */
  lemma {:induction false} KeepTotals(values: seq<Cell>)
    ensures Keep(values, TotalsIndexes(values)) == NonTotals(values)
  {
    if |values| > 0 {
      var init := values[..|values| - 1];
      KeepSameMembers(init, TotalsIndexes(values), TotalsIndexes(init));
      KeepTotals(init);
    }
  }

  /** Removing a column's own totals never fails and leaves exactly its non-total values. */
  lemma {:induction false} RemoveOwnTotals(values: seq<Cell>)
    ensures RemoveValuesAt(TotalsIndexes(values), values) == Success(NonTotals(values))
  {
    var idx := TotalsIndexes(values);
    RemoveValuesAtKeeps(idx, values);
    KeepTotals(values);
  }

  /** `_appended_values(values)`: three copies one after another. */
  function Appended(values: seq<Cell>): (r: seq<Cell>)
    ensures |r| == 3 * |values|
    ensures forall t :: 0 <= t < |values| ==>
      r[t] == values[t] && r[|values| + t] == values[t] && r[2 * |values| + t] == values[t]
  {
    values + values + values
  }

  /** The cost basis labels, in the order the blocks are stacked. */
  const CostTypes: seq<string> := ["BASE ECONÔMICA", "BASE FINANCEIRA", "CVA"]

  /** `_load_cost_type_info(length)`: each basis label repeated length times, block by block. */
  function CostTypeInfo(length: nat): (r: seq<Cell>)
    ensures |r| == 3 * length
    ensures forall k :: 0 <= k < |r| ==>
      r[k] == T(CostTypes[if k < length then 0 else if k < 2 * length then 1 else 2])
  {
    Repeat(T(CostTypes[0]), length) + Repeat(T(CostTypes[1]), length) + Repeat(T(CostTypes[2]), length)
  }

  const CostsHeader: Row := [T("TIPO TARIFA"), T("GRUPO DE CUSTO"), T("CUSTO"), T("TIPO DE CUSTO"), T("VALORES")]

  /** A column below its header with the cost column's total rows removed. */
  function ColumnWithoutTotals(tab: Grid, header: seq<Cell>, name: string, totals: seq<int>): (r: Outcome<seq<Cell>>)
    ensures r.Failure? ==> r.error == NotInList(T(name)) || r.error == IndexOutOfRange
    ensures r.Failure? && r.error.NotInList? <==> T(name) !in header
  {
    var values :- ColumnByHeader(tab, header, name);
    RemoveValuesAt(totals, values)
  }

  /** The output sheet from the six cleaned columns. */
  function CostsTable(tariff: seq<Cell>, group: seq<Cell>, cost: seq<Cell>, typeValues: seq<Cell>): (r: Sheet)
    ensures |r| >= 1 && r[0] == CostsHeader
    ensures forall i :: 0 <= i < |r| ==> |r[i]| == 5
    ensures |r| == 1 + MinLen([Appended(tariff), Appended(group), Appended(cost), CostTypeInfo(|cost|), typeValues])
    ensures |r| <= 1 + 3 * |cost| && |r| <= 1 + |typeValues|
  {
    var cols := [Appended(tariff), Appended(group), Appended(cost), CostTypeInfo(|cost|), typeValues];
    assert MinLen(cols) <= |cols[0]| && MinLen(cols) <= |cols[1]| && MinLen(cols) <= |cols[2]|;
    assert MinLen(cols) <= |cols[3]| && MinLen(cols) <= |cols[4]|;
    [CostsHeader] + Zip(cols)
  }

  /**
   * `load_costs_sheet(workbook)`: nothing without a "CUSTOS" tab; otherwise
   * the header, then one row per (basis, cost row) pair, up to the shortest
   * column. A missing header label or a column too short for a total's
   * position is an error.
   */
  function LoadCostsSheet(wb: Workbook): (r: Outcome<Option<Sheet>>)
    ensures r.Success? && r.value.None? <==> "CUSTOS" !in wb
    ensures r.Failure? ==> r.error == IndexOutOfRange || r.error.NotInList?
    ensures r.Success? && r.value.Some? ==> |r.value.value| >= 1 && r.value.value[0] == CostsHeader
    ensures r.Success? && r.value.Some? ==> forall i :: 0 <= i < |r.value.value| ==> |r.value.value[i]| == 5
    ensures r.Success? && r.value.Some? ==> forall i :: 1 <= i < |r.value.value| ==> !IsTotal(r.value.value[i][2])
  {
    if "CUSTOS" !in wb then Success(None)
    else
      var tab := wb["CUSTOS"];
      var header := RowValues(tab, 1);
      var costValues :- ColumnByHeader(tab, header, "CUSTO");
      var totals := TotalsIndexes(costValues);
      RemoveOwnTotals(costValues);
      var cost := RemoveValuesAt(totals, costValues).value;
      var tariff :- ColumnWithoutTotals(tab, header, "TIPO TARIFA", totals);
      var group :- ColumnWithoutTotals(tab, header, "GRUPO DE CUSTO", totals);
      var economic :- ColumnWithoutTotals(tab, header, "BASE ECONÔMICA", totals);
      var financial :- ColumnWithoutTotals(tab, header, "BASE FINANCEIRA", totals);
      var cva :- ColumnWithoutTotals(tab, header, "CVA", totals);
      var sheet := CostsTable(tariff, group, cost, economic + financial + cva);
      CostColumnHasNoTotals(tariff, group, cost, economic + financial + cva);
      Success(Some(sheet))
  }

  lemma {:induction false} CostColumnHasNoTotals(tariff: seq<Cell>, group: seq<Cell>, cost: seq<Cell>, typeValues: seq<Cell>)
    requires forall k :: 0 <= k < |cost| ==> !IsTotal(cost[k])
    ensures forall i :: 1 <= i < |CostsTable(tariff, group, cost, typeValues)| ==>
      !IsTotal(CostsTable(tariff, group, cost, typeValues)[i][2])
  {
    var sheet := CostsTable(tariff, group, cost, typeValues);
    forall i | 1 <= i < |sheet|
      ensures !IsTotal(sheet[i][2])
    {
      CostsTableCostCell(tariff, group, cost, typeValues, i - 1);
      AppendedAt(cost, i - 1);
    }
  }

  /** The third cell of each data row is the repeated cost column's value for that row. */
  lemma CostsTableCostCell(tariff: seq<Cell>, group: seq<Cell>, cost: seq<Cell>, typeValues: seq<Cell>, row: nat)
    requires 1 + row < |CostsTable(tariff, group, cost, typeValues)|
    ensures row < |Appended(cost)| && CostsTable(tariff, group, cost, typeValues)[1 + row][2] == Appended(cost)[row]
  {
    var cols := [Appended(tariff), Appended(group), Appended(cost), CostTypeInfo(|cost|), typeValues];
    CostsTableRow(tariff, group, cost, typeValues, row);
    assert MinLen(cols) <= |cols[2]|;
    assert Zip(cols)[row][2] == cols[2][row];
  }

  /** Every value of a column repeated three times is one of the column's values. */
  lemma AppendedAt(values: seq<Cell>, row: nat)
    requires row < |Appended(values)|
    ensures var t := if row < |values| then row else if row < 2 * |values| then row - |values| else row - 2 * |values|;
      0 <= t < |values| && Appended(values)[row] == values[t]
  {
  }

  /** A row of five zipped columns holds each column's entry at that row. */
  lemma ZipRowOfFive(cols: seq<seq<Cell>>, row: nat)
    requires |cols| == 5 && row < MinLen(cols)
    ensures Zip(cols)[row] == [cols[0][row], cols[1][row], cols[2][row], cols[3][row], cols[4][row]]
  {
    var z := Zip(cols)[row];
    assert |z| == 5;
    assert z[0] == cols[0][row] && z[1] == cols[1][row] && z[2] == cols[2][row];
    assert z[3] == cols[3][row] && z[4] == cols[4][row];
  }

  /**
   * When every cleaned column has m values, the table has 3m rows: row
   * b * m + t (after the header) pairs cost row t with basis b and that
   * basis' t-th value.
   */
  lemma {:induction false} CostsTableRows(tariff: seq<Cell>, group: seq<Cell>, cost: seq<Cell>,
                       economic: seq<Cell>, financial: seq<Cell>, cva: seq<Cell>, b: nat, t: nat)
    requires |tariff| == |group| == |cost| == |economic| == |financial| == |cva|
    requires b < 3 && t < |cost|
    ensures |CostsTable(tariff, group, cost, economic + financial + cva)| == 1 + 3 * |cost|
    ensures CostsTable(tariff, group, cost, economic + financial + cva)[1 + b * |cost| + t]
      == [tariff[t], group[t], cost[t], T(CostTypes[b]), [economic, financial, cva][b][t]]
  {
    var m := |cost|;
    var values := economic + financial + cva;
    var cols := [Appended(tariff), Appended(group), Appended(cost), CostTypeInfo(m), values];
    var row := if b == 0 then t else if b == 1 then m + t else 2 * m + t;
    BlockRow(b, m, t);
    CostColumnsAt(tariff, group, cost, economic, financial, cva, b, t, row);
    MinLenUniform(cols, 3 * m);
    ZipRowOfFive(cols, row);
    CostsTableRow(tariff, group, cost, values, row);
  }

  /** Row t of block b (of three blocks of m rows) is row b * m + t. */
  lemma BlockRow(b: nat, m: nat, t: nat)
    requires b < 3
    ensures b * m + t == if b == 0 then t else if b == 1 then m + t else 2 * m + t
  {
    if b == 2 {
      assert b * m == 2 * m;
    }
  }

  /** Below the header, row `1 + row` of the table is row `row` of the zipped columns. */
  lemma CostsTableRow(tariff: seq<Cell>, group: seq<Cell>, cost: seq<Cell>, typeValues: seq<Cell>, row: nat)
    requires row < MinLen([Appended(tariff), Appended(group), Appended(cost), CostTypeInfo(|cost|), typeValues])
    ensures 1 + row < |CostsTable(tariff, group, cost, typeValues)|
    ensures CostsTable(tariff, group, cost, typeValues)[1 + row]
      == Zip([Appended(tariff), Appended(group), Appended(cost), CostTypeInfo(|cost|), typeValues])[row]
  {
  }

  /** Row `row` of block b holds cost row t's entries in every column. */
  lemma CostColumnsAt(tariff: seq<Cell>, group: seq<Cell>, cost: seq<Cell>,
                      economic: seq<Cell>, financial: seq<Cell>, cva: seq<Cell>, b: nat, t: nat, row: nat)
    requires |tariff| == |group| == |cost| == |economic| == |financial| == |cva|
    requires b < 3 && t < |cost|
    requires row == if b == 0 then t else if b == 1 then |cost| + t else 2 * |cost| + t
    ensures Appended(tariff)[row] == tariff[t] && Appended(group)[row] == group[t] && Appended(cost)[row] == cost[t]
    ensures CostTypeInfo(|cost|)[row] == T(CostTypes[b])
    ensures (economic + financial + cva)[row] == [economic, financial, cva][b][t]
  {
  }

}
