/**
 * The "EFEITO" tab (app/modules/tabs/effect_data.py): three side-by-side
 * blocks of (subgroup, RA0, RA1) columns, one per tariff type, stacked into
 * one table labelled TUSD, TE and TOTAL.
 */
module Effect {
  import opened Wrappers
  import opened Cells
  import opened Grid
  import opened Tables

  /** The block labels, in stacking order. */
  const TariffTypes: seq<string> := ["TUSD", "TE", "TOTAL"]

  const EffectHeader: Row := [T("TIPO TARIFA"), T("SUBGRUPO"), T("RA0"), T("RA1")]

  /** A column of the tab read from row 2, by 0-based index. */
  function EffectColumn(tab: Grid, index: nat): (r: seq<Cell>)
    ensures forall k :: 0 <= k < |r| ==> r[k] == Resolve(tab, 2 + k, index + 1)
  {
    LoadValues(tab, index, AlongColumn, 2).value
  }

  /**
   * `_get_length`: how many values the first RA0 column (index 35, the
   * 36th) holds from row 2 on: the row after the header of its last value.
   */
  function EffectLength(tab: Grid): (n: nat)
    ensures n > 0 ==> 1 + n <= tab.maxRow && Resolve(tab, 1 + n, 36).Some?
    ensures forall q :: 2 + n <= q <= tab.maxRow ==> Resolve(tab, q, 36).None?
  {
    LoadValuesDropped(tab, 35, AlongColumn, 2);
    assert forall q {:trigger Resolve(tab, q, 36)} :: 2 + |EffectColumn(tab, 35)| <= q <= tab.maxRow ==>
      EmptyAlong(tab, 35, AlongColumn, q);
    |EffectColumn(tab, 35)|
  }

  /** `_load_tariff_type_info(length)`: each label repeated length times, block by block. */
  function TariffTypeInfo(length: nat): (r: seq<Cell>)
    ensures |r| == 3 * length
    ensures forall k :: 0 <= k < |r| ==>
      r[k] == T(TariffTypes[if k < length then 0 else if k < 2 * length then 1 else 2])
  {
    Repeat(T(TariffTypes[0]), length) + Repeat(T(TariffTypes[1]), length) + Repeat(T(TariffTypes[2]), length)
  }

  /**
   * `_load_info(tab, start)`: the columns start, start + 5 and start + 10
   * (0-based), each read from row 2 with its trailing empties dropped, one
   * after another.
   */
  function LoadInfo(tab: Grid, start: nat): (r: seq<Cell>)
    ensures var a := |EffectColumn(tab, start)|;
      var b := |EffectColumn(tab, start + 5)|;
      |r| == a + b + |EffectColumn(tab, start + 10)| &&
      (forall k :: 0 <= k < a ==> r[k] == Resolve(tab, 2 + k, start + 1)) &&
      (forall k :: a <= k < a + b ==> r[k] == Resolve(tab, 2 + k - a, start + 6)) &&
      (forall k :: a + b <= k < |r| ==> r[k] == Resolve(tab, 2 + k - a - b, start + 11))
  {
    LoadInfoCells(tab, start);
    Stack([EffectColumn(tab, start), EffectColumn(tab, start + 5), EffectColumn(tab, start + 10)])
  }

  /** Where each value of the three stacked columns was read. */
  lemma LoadInfoCells(tab: Grid, start: nat)
    ensures var a := |EffectColumn(tab, start)|;
      var b := |EffectColumn(tab, start + 5)|;
      var r := Stack([EffectColumn(tab, start), EffectColumn(tab, start + 5), EffectColumn(tab, start + 10)]);
      |r| == a + b + |EffectColumn(tab, start + 10)| &&
      (forall k :: 0 <= k < a ==> r[k] == Resolve(tab, 2 + k, start + 1)) &&
      (forall k :: a <= k < a + b ==> r[k] == Resolve(tab, 2 + k - a, start + 6)) &&
      (forall k :: a + b <= k < |r| ==> r[k] == Resolve(tab, 2 + k - a - b, start + 11))
  {
    var a, b, c := EffectColumn(tab, start), EffectColumn(tab, start + 5), EffectColumn(tab, start + 10);
    StackedReads(tab, a, b, c, start + 1, start + 6, start + 11);
  }

  /** Three columns read from row 2, stacked: each position reads its column's row. */
  lemma StackedReads(tab: Grid, a: seq<Cell>, b: seq<Cell>, c: seq<Cell>, ca: int, cb: int, cc: int)
    requires forall k :: 0 <= k < |a| ==> a[k] == Resolve(tab, 2 + k, ca)
    requires forall k :: 0 <= k < |b| ==> b[k] == Resolve(tab, 2 + k, cb)
    requires forall k :: 0 <= k < |c| ==> c[k] == Resolve(tab, 2 + k, cc)
    ensures var r := Stack([a, b, c]);
      |r| == |a| + |b| + |c| &&
      (forall k :: 0 <= k < |a| ==> r[k] == Resolve(tab, 2 + k, ca)) &&
      (forall k :: |a| <= k < |a| + |b| ==> r[k] == Resolve(tab, 2 + k - |a|, cb)) &&
      (forall k :: |a| + |b| <= k < |r| ==> r[k] == Resolve(tab, 2 + k - |a| - |b|, cc))
  {
    StackCells(a, b, c);
  }

  /** The header over the zipped tariff-type, subgroup, RA0 and RA1 columns. */
  function EffectTableOf(length: nat, subgroup: seq<Cell>, ra0: seq<Cell>, ra1: seq<Cell>): (r: Sheet)
    ensures |r| >= 1 && r[0] == EffectHeader
    ensures forall i :: 0 <= i < |r| ==> |r[i]| == 4
    ensures |r| == 1 + MinLen([TariffTypeInfo(length), subgroup, ra0, ra1])
    ensures |r| <= 1 + 3 * length && |r| <= 1 + |subgroup| && |r| <= 1 + |ra0| && |r| <= 1 + |ra1|
    ensures forall i :: 1 <= i < |r| ==>
      r[i] == [TariffTypeInfo(length)[i - 1], subgroup[i - 1], ra0[i - 1], ra1[i - 1]]
  {
    var cols := [TariffTypeInfo(length), subgroup, ra0, ra1];
    assert MinLen(cols) <= |cols[0]| && MinLen(cols) <= |cols[1]| && MinLen(cols) <= |cols[2]| && MinLen(cols) <= |cols[3]|;
    [EffectHeader] + Zip([TariffTypeInfo(length), subgroup, ra0, ra1])
  }

  function EffectTable(tab: Grid): Sheet {
    EffectTableOf(EffectLength(tab), LoadInfo(tab, 34), LoadInfo(tab, 35), LoadInfo(tab, 36))
  }

  /** `load_effect_sheet(workbook)`: nothing without an "EFEITO" tab; reading it cannot fail. */
  function LoadEffectSheet(wb: Workbook): (r: Option<Sheet>)
    ensures r.None? <==> "EFEITO" !in wb
    ensures r.Some? ==> |r.value| >= 1 && r.value[0] == EffectHeader
    ensures r.Some? ==> forall i :: 0 <= i < |r.value| ==> |r.value[i]| == 4
  {
    if "EFEITO" !in wb then None else Some(EffectTable(wb["EFEITO"]))
  }

  /** Three blocks one after another. */
  function Stack(blocks: seq<seq<Cell>>): seq<Cell>
    requires |blocks| == 3
  {
    blocks[0] + blocks[1] + blocks[2]
  }

  /** Where each value of three stacked blocks comes from. */
  lemma StackCells(a: seq<Cell>, b: seq<Cell>, c: seq<Cell>)
    ensures |Stack([a, b, c])| == |a| + |b| + |c|
    ensures forall k :: 0 <= k < |a| ==> Stack([a, b, c])[k] == a[k]
    ensures forall k :: |a| <= k < |a| + |b| ==> Stack([a, b, c])[k] == b[k - |a|]
    ensures forall k :: |a| + |b| <= k < |a| + |b| + |c| ==> Stack([a, b, c])[k] == c[k - |a| - |b|]
  {
  }

  /**
   * When each of the nine source columns holds n values, the table has 3n
   * rows after the header, and row b * n + t holds the t-th values of block
   * b labelled with the b-th tariff type.
   */
  lemma {:induction false} EffectTableRows(n: nat, subgroup: seq<seq<Cell>>, ra0: seq<seq<Cell>>, ra1: seq<seq<Cell>>,
                                           b: nat, t: nat)
    requires |subgroup| == |ra0| == |ra1| == 3
    requires forall k :: 0 <= k < 3 ==> |subgroup[k]| == |ra0[k]| == |ra1[k]| == n
    requires b < 3 && t < n
    ensures |EffectTableOf(n, Stack(subgroup), Stack(ra0), Stack(ra1))| == 1 + 3 * n
    ensures EffectTableOf(n, Stack(subgroup), Stack(ra0), Stack(ra1))[1 + b * n + t]
      == [T(TariffTypes[b]), subgroup[b][t], ra0[b][t], ra1[b][t]]
  {
    var cols := [TariffTypeInfo(n), Stack(subgroup), Stack(ra0), Stack(ra1)];
    MinLenUniform(cols, 3 * n);
    var row := if b == 0 then t else if b == 1 then n + t else 2 * n + t;
    assert row == b * n + t;
    StackAt(subgroup, n, b, t);
    StackAt(ra0, n, b, t);
    StackAt(ra1, n, b, t);
    assert Zip(cols)[row] == [T(TariffTypes[b]), subgroup[b][t], ra0[b][t], ra1[b][t]];
  }

  /** Position b * n + t of three stacked n-value blocks is value t of block b. */
  lemma {:induction false} StackAt(blocks: seq<seq<Cell>>, n: nat, b: nat, t: nat)
    requires |blocks| == 3 && forall k :: 0 <= k < 3 ==> |blocks[k]| == n
    requires b < 3 && t < n
    ensures |Stack(blocks)| == 3 * n
    ensures Stack(blocks)[if b == 0 then t else if b == 1 then n + t else 2 * n + t] == blocks[b][t]
  {
    assert |blocks[0]| == |blocks[1]| == |blocks[2]| == n;
  }
}
