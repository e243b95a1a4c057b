/**
 * The detail table of one line: rows of eight cells (title, number, length,
 * width, height, factor, total, comments) ending in a 'Total' row. Every row
 * but the last gets as total the product of its five factors, and the last
 * row, when it is labelled 'Total', the sum of those products.
 */
module MetreDetailTable {
  import opened Cells
  import opened Grid

  /** `number * length * width * height * factor`, each read with `parseFloat(x) || 0`. */
  function Product(r: Row): real
  {
    RealTimes(RealTimes(RealTimes(RealTimes(ParseNum(At(r, 1)), ParseNum(At(r, 2))), ParseNum(At(r, 3))), ParseNum(At(r, 4))), ParseNum(At(r, 5)))
  }

  /** The sum of the products of the rows. */
  function SumProducts(rows: seq<Row>): real
  {
    if rows == [] then 0.0 else SumProducts(rows[..|rows| - 1]) + Product(rows[|rows| - 1])
  }

  lemma {:induction false} SumProductsAppend(a: seq<Row>, b: seq<Row>)
    ensures SumProducts(a + b) == SumProducts(a) + SumProducts(b)
    decreases |b|
  {
    if b == [] {
      assert a + b == a;
    } else {
      var b' := b[..|b| - 1];
      assert (a + b)[..|a + b| - 1] == a + b';
      SumProductsAppend(a, b');
    }
  }

  /** The sum only depends on the factors. */
  lemma {:induction false} SumProductsSame(a: seq<Row>, b: seq<Row>)
    requires |a| == |b|
    requires forall i :: 0 <= i < |a| ==> Product(a[i]) == Product(b[i])
    ensures SumProducts(a) == SumProducts(b)
  {
    if a != [] {
      SumProductsSame(a[..|a| - 1], b[..|b| - 1]);
    }
  }

  /** The last row is the total row exactly when its first cell is the string 'Total'. */
  predicate IsTotalRow(r: Row)
  {
    At(r, 0) == CStr("Total")
  }

  /** A row with its total (column 6) set; every other column is kept. */
  function WithRowTotal(r: Row, v: real): (p: Row)
    ensures At(p, 6) == CNum(v)
    ensures forall j: nat :: j != 6 ==> At(p, j) == At(r, j)
  {
    SetAt(r, 6, CNum(v))
  }

  /** `calculateTotals` as a function of the rows it receives. */
  function Totals(rows: seq<Row>): (r: seq<Row>)
    ensures |r| == |rows|
    ensures forall i :: 0 <= i < |rows| - 1 ==> r[i] == WithRowTotal(rows[i], Product(rows[i]))
    ensures |rows| >= 1 && IsTotalRow(rows[|rows| - 1]) ==>
      r[|rows| - 1] == WithRowTotal(rows[|rows| - 1], SumProducts(rows[..|rows| - 1]))
    ensures |rows| >= 1 && !IsTotalRow(rows[|rows| - 1]) ==> r[|rows| - 1] == rows[|rows| - 1]
  {
    if rows == [] then []
    else
      var last := |rows| - 1;
      var lines := seq(last, i requires 0 <= i < last => WithRowTotal(rows[i], Product(rows[i])));
      lines + [if IsTotalRow(rows[last]) then WithRowTotal(rows[last], SumProducts(rows[..last])) else rows[last]]
  }

  /** Every row but the last shows its product. */
  predicate RowsTotalled(rows: seq<Row>)
  {
    forall i :: 0 <= i < |rows| - 1 ==> At(rows[i], 6) == CNum(Product(rows[i]))
  }

  /**
   * After `calculateTotals` every row but the last holds its product and the
   * total row the sum of the products; no column but the total changes.
   */
  lemma {:induction false} TotalsMeaning(rows: seq<Row>)
    ensures RowsTotalled(Totals(rows))
    ensures |rows| >= 1 && IsTotalRow(rows[|rows| - 1]) ==>
      IsTotalRow(Totals(rows)[|rows| - 1]) && At(Totals(rows)[|rows| - 1], 6) == CNum(SumProducts(Totals(rows)[..|rows| - 1]))
    ensures forall i, j: nat :: 0 <= i < |rows| && j != 6 ==> At(Totals(rows)[i], j) == At(rows[i], j)
  {
    var r := Totals(rows);
    if rows != [] {
      var last := |rows| - 1;
      assert forall i :: 0 <= i < last ==> Product(r[i]) == Product(rows[i]);
      SumProductsSame(r[..last], rows[..last]);
    }
  }

  /** Setting a row's total keeps its product, and setting the same total again changes nothing. */
  lemma TotalledRow(x: Row, v: real)
    ensures Product(WithRowTotal(x, v)) == Product(x)
    ensures WithRowTotal(WithRowTotal(x, v), v) == WithRowTotal(x, v)
  {
    var p := WithRowTotal(x, v);
    SameFactors(p, x);
    var pp := WithRowTotal(p, v);
    assert |pp| == |p|;
    assert forall j :: 0 <= j < |pp| ==> pp[j] == p[j];
  }

  /** Rows that agree on the five factor columns have the same product. */
  lemma SameFactors(a: Row, b: Row)
    requires forall j: nat :: 1 <= j <= 5 ==> At(a, j) == At(b, j)
    ensures Product(a) == Product(b)
  {
    assert At(a, 1) == At(b, 1) && At(a, 2) == At(b, 2) && At(a, 3) == At(b, 3) && At(a, 4) == At(b, 4) && At(a, 5) == At(b, 5);
  }

  /** `calculateTotals` writes only totals computed from the factors, so a second run changes nothing. */
  lemma {:induction false} TotalsIdempotent(rows: seq<Row>)
    ensures Totals(Totals(rows)) == Totals(rows)
  {
    var r := Totals(rows);
    var rr := Totals(r);
    if rows != [] {
      var last := |rows| - 1;
      forall i | 0 <= i < last
        ensures rr[i] == r[i] && Product(r[i]) == Product(rows[i])
      {
        TotalledRow(rows[i], Product(rows[i]));
      }
      SumProductsSame(r[..last], rows[..last]);
      if IsTotalRow(rows[last]) {
        TotalledRow(rows[last], SumProducts(rows[..last]));
      }
    }
  }

  /** The loop of `calculateTotals`: each row's product is written in place and added to a running sum. */
  method CalculateTotals(rows: array<Row>)
    modifies rows
    ensures rows[..] == Totals(old(rows[..]))
  {
    ghost var s0 := rows[..];
    var lastRowIndex := rows.Length - 1;
    var sum := 0.0;
    var i := 0;
    while i < lastRowIndex
      invariant 0 <= i <= rows.Length
      invariant i <= lastRowIndex || rows.Length == 0
      invariant forall k :: 0 <= k < i ==> rows[k] == WithRowTotal(s0[k], Product(s0[k]))
      invariant forall k :: i <= k < rows.Length ==> rows[k] == s0[k]
      invariant sum == SumProducts(s0[..i])
    {
      var number := ParseNum(At(rows[i], 1));
      var length := ParseNum(At(rows[i], 2));
      var width := ParseNum(At(rows[i], 3));
      var height := ParseNum(At(rows[i], 4));
      var factor := ParseNum(At(rows[i], 5));
      var total := RealTimes(RealTimes(RealTimes(RealTimes(number, length), width), height), factor);
      assert total == Product(s0[i]);
      SumProductsStep(s0, i);
      rows[i] := SetAt(rows[i], 6, CNum(total));
      assert rows[i] == WithRowTotal(s0[i], Product(s0[i]));
      sum := sum + total;
      i := i + 1;
    }
    if 0 <= lastRowIndex && At(rows[lastRowIndex], 0) == CStr("Total") {
      rows[lastRowIndex] := SetAt(rows[lastRowIndex], 6, CNum(sum));
    }
    TotalsByRows(s0, rows[..]);
  }

  /** The product is the five factors multiplied from left to right. */
  lemma ProductOfFactors(r: Row)
    ensures Product(r) == ParseNum(At(r, 1)) * ParseNum(At(r, 2)) * ParseNum(At(r, 3)) * ParseNum(At(r, 4)) * ParseNum(At(r, 5))
  {
  }

  /** One more row adds its product to the running sum. */
  lemma SumProductsStep(s: seq<Row>, i: nat)
    requires i < |s|
    ensures SumProducts(s[..i + 1]) == SumProducts(s[..i]) + Product(s[i])
  {
    assert s[..i + 1][..i] == s[..i];
  }

  /** Rows that hold what `Totals` gives, row by row, are `Totals`. */
  lemma TotalsByRows(rows: seq<Row>, r: seq<Row>)
    requires |r| == |rows|
    requires forall k :: 0 <= k < |rows| - 1 ==> r[k] == WithRowTotal(rows[k], Product(rows[k]))
    requires |rows| >= 1 && IsTotalRow(rows[|rows| - 1]) ==>
      r[|rows| - 1] == WithRowTotal(rows[|rows| - 1], SumProducts(rows[..|rows| - 1]))
    requires |rows| >= 1 && !IsTotalRow(rows[|rows| - 1]) ==> r[|rows| - 1] == rows[|rows| - 1]
    ensures r == Totals(rows)
  {
    var t := Totals(rows);
    assert forall k :: 0 <= k < |rows| ==> r[k] == t[k];
  }

  /** The line `handleAddRow` inserts: every factor 1. */
  function NewDetailRow(): Row
  {
    [CStr(""), CNum(1.0), CNum(1.0), CNum(1.0), CNum(1.0), CNum(1.0), CNum(0.0), CStr(""), CStr("")]
  }

  /** The total row `handleAddRow` falls back on when the table is empty. */
  function FallbackTotalRow(): Row
  {
    [CStr("Total"), CStr(""), CStr(""), CStr(""), CStr(""), CStr(""), CNum(0.0), CStr(""), CStr("")]
  }

  /** `handleAddRow` before the totals are recomputed: one new line right before the total row. */
  function WithNewDetail(rows: seq<Row>): (r: seq<Row>)
    ensures |rows| >= 1 ==>
      |r| == |rows| + 1 && r[..|rows| - 1] == rows[..|rows| - 1] && r[|rows| - 1] == NewDetailRow() && r[|rows|] == rows[|rows| - 1]
    ensures rows == [] ==> r == [NewDetailRow(), FallbackTotalRow()]
  {
    if rows == [] then [NewDetailRow(), FallbackTotalRow()]
    else rows[..|rows| - 1] + [NewDetailRow(), rows[|rows| - 1]]
  }

  /**
   * After adding a line and recomputing, the new line's total is 1 and the
   * total row's total is the sum of the old lines' products plus 1.
   */
  lemma {:induction false} AddDetailTotals(rows: seq<Row>)
    requires |rows| >= 1 && IsTotalRow(rows[|rows| - 1])
    ensures At(Totals(WithNewDetail(rows))[|rows| - 1], 6) == CNum(1.0)
    ensures At(Totals(WithNewDetail(rows))[|rows|], 6) == CNum(SumProducts(rows[..|rows| - 1]) + 1.0)
    ensures At(Totals(rows)[|rows| - 1], 6) == CNum(SumProducts(rows[..|rows| - 1]))
  {
    var w := WithNewDetail(rows);
    var last := |rows| - 1;
    assert Product(NewDetailRow()) == 1.0;
    assert w[..|rows|] == rows[..last] + [NewDetailRow()];
    SumProductsAppend(rows[..last], [NewDetailRow()]);
    assert [NewDetailRow()][..0] == [];
  }

  /** The adding button on an empty table: a line of total 1 and the fallback total row, which sums it. */
  lemma {:induction false} AddDetailEmpty()
    ensures Totals(WithNewDetail([])) ==
      [WithRowTotal(NewDetailRow(), 1.0), WithRowTotal(FallbackTotalRow(), 1.0)]
  {
    var w := WithNewDetail([]);
    ProductOfFactors(NewDetailRow());
    assert Product(NewDetailRow()) == 1.0;
    assert w[..1] == [NewDetailRow()];
    assert [NewDetailRow()][..0] == [];
  }

  class MetreDetailTableState {
    var localData: seq<Row>

    /** Mounting: the rows received, with the totals computed when there are any. */
    constructor(data: seq<Row>)
      ensures localData == Totals(data)
    {
      var rows := new Row[|data|](i requires 0 <= i < |data| => data[i]);
      assert rows[..] == data;
      if |data| > 0 {
        CalculateTotals(rows);
      }
      localData := rows[..];
    }

    /** New rows from the parent replace the local ones as they are. */
    method SetData(data: seq<Row>)
      modifies this
      ensures localData == data
    {
      localData := data;
    }

    /**
     * `handleChange`: nothing without edits or for the grid's own loading;
     * otherwise every edit is written on a copy, the totals are recomputed, and
     * the new rows are handed to the parent.
     */
    method HandleChange(changes: Option<seq<CellChange>>, source: string) returns (published: Option<seq<Row>>)
      requires changes.Some? ==> InRange(changes.value, |localData|)
      modifies this
      ensures changes.None? || source == "loadData" ==> published == None && localData == old(localData)
      ensures changes.Some? && source != "loadData" ==>
        published == Some(Totals(WriteCells(old(localData), changes.value))) && localData == published.value
    {
      if changes.None? || source == "loadData" {
        return None;
      }
      var written := WriteAll(localData, changes.value);
      var newData := new Row[|written|](i requires 0 <= i < |written| => written[i]);
      assert newData[..] == written;
      CalculateTotals(newData);
      localData := newData[..];
      published := Some(localData);
    }

    /** `handleAddRow`: a line of factors 1 before the total row, then the totals; the rows go to the parent too. */
    method AddRow() returns (published: seq<Row>)
      modifies this
      ensures published == Totals(WithNewDetail(old(localData))) && localData == published
    {
      var added := WithNewDetail(localData);
      var newData := new Row[|added|](i requires 0 <= i < |added| => added[i]);
      assert newData[..] == added;
      CalculateTotals(newData);
      localData := newData[..];
      published := localData;
    }
  }

  /** The `forEach` over the edits: each value written into the copied rows. */
  method WriteAll(rows: seq<Row>, changes: seq<CellChange>) returns (r: seq<Row>)
    requires InRange(changes, |rows|)
    ensures r == WriteCells(rows, changes)
  {
    r := rows;
    for k := 0 to |changes|
      invariant InRange(changes[..k], |rows|)
      invariant r == WriteCells(rows, changes[..k])
    {
      assert changes[..k + 1][..k] == changes[..k];
      r := r[changes[k].row := SetAt(r[changes[k].row], changes[k].col, changes[k].value)];
    }
    assert changes[..|changes|] == changes;
  }
}
