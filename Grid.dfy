/**
 * What the line table and the detail table share: the cell edits the grid
 * reports after a change, writing them into a copy of the rows, and the sum of
 * one column read with `parseFloat(x) || 0`, and the filter that drops a
 * chapter table's 'Total' rows.
 */
module Grid {
  import opened Cells

  /** One edit `[row, col, oldValue, newValue]` reported by the grid; the old value is not used. */
  datatype CellChange = CellChange(row: nat, col: nat, value: Cell)

  /** Every edit names an existing row (the grid reports edits of rows it shows). */
  predicate InRange(changes: seq<CellChange>, n: nat)
  {
    forall k :: 0 <= k < |changes| ==> changes[k].row < n
  }

  /** `rows.reduce((sum, row) => sum + (parseFloat(row[c]) || 0), 0)`. */
  function SumCol(rows: seq<Row>, c: nat): real
  {
    if rows == [] then 0.0 else SumCol(rows[..|rows| - 1], c) + ParseNum(At(rows[|rows| - 1], c))
  }

  lemma {:induction false} SumColAppend(a: seq<Row>, b: seq<Row>, c: nat)
    ensures SumCol(a + b, c) == SumCol(a, c) + SumCol(b, c)
    decreases |b|
  {
    if b == [] {
      assert a + b == a;
    } else {
      var b' := b[..|b| - 1];
      assert (a + b)[..|a + b| - 1] == a + b';
      SumColAppend(a, b', c);
    }
  }

  /** The sum only depends on the column it adds up. */
  lemma {:induction false} SumColSame(a: seq<Row>, b: seq<Row>, c: nat)
    requires |a| == |b|
    requires forall i :: 0 <= i < |a| ==> At(a[i], c) == At(b[i], c)
    ensures SumCol(a, c) == SumCol(b, c)
  {
    if a != [] {
      SumColSame(a[..|a| - 1], b[..|b| - 1], c);
    }
  }

  /** `rows[row][col] = value` on a copy of the rows. */
  function WriteCell(rows: seq<Row>, ch: CellChange): (r: seq<Row>)
    requires ch.row < |rows|
    ensures |r| == |rows|
    ensures forall i :: 0 <= i < |rows| && i != ch.row ==> r[i] == rows[i]
    ensures At(r[ch.row], ch.col) == ch.value
    ensures forall j: nat :: j != ch.col ==> At(r[ch.row], j) == At(rows[ch.row], j)
  {
    rows[ch.row := SetAt(rows[ch.row], ch.col, ch.value)]
  }

  /** The edits written one after the other. */
  function WriteCells(rows: seq<Row>, changes: seq<CellChange>): (r: seq<Row>)
    requires InRange(changes, |rows|)
    ensures |r| == |rows|
  {
    if changes == [] then rows
    else
      assert InRange(changes[..|changes| - 1], |rows|);
      WriteCell(WriteCells(rows, changes[..|changes| - 1]), changes[|changes| - 1])
  }

  /** A cell no edit aims at keeps its value. */
  lemma {:induction false} WriteCellsUntouched(rows: seq<Row>, changes: seq<CellChange>, i: nat, j: nat)
    requires InRange(changes, |rows|) && i < |rows|
    requires forall k :: 0 <= k < |changes| ==> changes[k].row != i || changes[k].col != j
    ensures At(WriteCells(rows, changes)[i], j) == At(rows[i], j)
  {
    if changes != [] {
      var init := changes[..|changes| - 1];
      assert InRange(init, |rows|);
      assert forall k :: 0 <= k < |init| ==> init[k] == changes[k];
      WriteCellsUntouched(rows, init, i, j);
    }
  }

  /** After the edits, a cell holds the value of the last edit aimed at it. */
  lemma {:induction false} WriteCellsLast(rows: seq<Row>, changes: seq<CellChange>, k: nat)
    requires InRange(changes, |rows|) && k < |changes|
    requires forall k2 :: k < k2 < |changes| ==> changes[k2].row != changes[k].row || changes[k2].col != changes[k].col
    ensures At(WriteCells(rows, changes)[changes[k].row], changes[k].col) == changes[k].value
  {
    var init := changes[..|changes| - 1];
    assert InRange(init, |rows|);
    if k < |init| {
      assert forall k2 :: k < k2 < |init| ==> init[k2] == changes[k2];
      WriteCellsLast(rows, init, k);
    }
  }

  // ---------------------------------------------------------------------------
  // The 'Total' row filter both summary pages apply to a chapter table
  // ---------------------------------------------------------------------------

  /** `tables[node.key] || []`. */
  function TableOf(tables: map<string, seq<Row>>, key: string): seq<Row>
  {
    if key in tables then tables[key] else []
  }

  /** `row[0] === 'Total'`: the synthetic last row of a chapter table, or any row labelled so. */
  predicate IsTotalLabel(r: Row)
  {
    At(r, 0) == CStr("Total")
  }

  /** `tableData.filter(row => row[0] !== 'Total')`. */
  function NonTotal(rows: seq<Row>): (r: seq<Row>)
    ensures |r| <= |rows|
  {
    if rows == [] then []
    else (if IsTotalLabel(rows[0]) then [] else [rows[0]]) + NonTotal(rows[1..])
  }

  /** The filter keeps exactly the rows not labelled 'Total'. */
  lemma {:induction false} NonTotalMembers(rows: seq<Row>, x: Row)
    ensures x in NonTotal(rows) <==> x in rows && !IsTotalLabel(x)
  {
    if rows != [] {
      NonTotalMembers(rows[1..], x);
      assert rows == [rows[0]] + rows[1..];
    }
  }

  /** The filter of a head row: kept or not. */
  function Kept(r: Row): seq<Row>
  {
    if IsTotalLabel(r) then [] else [r]
  }

  lemma {:induction false} NonTotalHead(rows: seq<Row>)
    requires rows != []
    ensures NonTotal(rows) == Kept(rows[0]) + NonTotal(rows[1..])
  {
  }

  lemma {:induction false} NonTotalSplit(rows: seq<Row>, i: nat)
    requires i < |rows|
    ensures NonTotal(rows) == NonTotal(rows[..i]) + Kept(rows[i]) + NonTotal(rows[i + 1..])
  {
    NonTotalHead(rows);
    if i > 0 {
      var t := rows[1..];
      NonTotalSplit(t, i - 1);
      assert t[..i - 1] == rows[..i][1..];
      assert t[i - 1] == rows[i];
      assert t[i..] == rows[i + 1..];
      NonTotalHead(rows[..i]);
      assert rows[..i][0] == rows[0];
      var a, b, c := Kept(rows[0]), NonTotal(t[..i - 1]), Kept(rows[i]);
      AppendAssoc(a, b + c, NonTotal(rows[i + 1..]));
      AppendAssoc(a, b, c);
    } else {
      assert NonTotal(rows[..0]) == [];
      assert rows[1..] == rows[i + 1..];
    }
  }
}
