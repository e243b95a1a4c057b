/**
 * The line table of one chapter: rows of nine cells (gr, num, title, nm, unit,
 * quantity, unit price, price, comments) ending in a 'Total' row. The table
 * keeps every line's price at quantity times unit price and the total row's
 * price at the sum of the line prices; it adds empty lines before the total,
 * deletes lines together with their detail table, and opens or closes the
 * detail table of a line.
 */
module MetreTable {
  import opened Cells
  import opened Grid

  // ---------------------------------------------------------------------------
  // Prices and the total row
  // ---------------------------------------------------------------------------

  /** The price of a line: `(parseFloat(row[5]) || 0) * (parseFloat(row[6]) || 0)`. */
  function Price(r: Row): real
  {
    ParseNum(At(r, 5)) * ParseNum(At(r, 6))
  }

  /** A row with column 7 set to its price; every other column is kept. */
  function Priced(r: Row): (p: Row)
    ensures At(p, 7) == CNum(Price(r)) && Price(p) == Price(r)
    ensures forall j: nat :: j != 7 ==> At(p, j) == At(r, j)
  {
    SetAt(r, 7, CNum(Price(r)))
  }

  /** Two rows agree on every column but `c`. */
  ghost predicate SameExcept(a: Row, b: Row, c: nat)
  {
    forall j: nat :: j != c ==> At(a, j) == At(b, j)
  }

  /** The rows before the total row. */
  function Lines(rows: seq<Row>): seq<Row>
    requires |rows| >= 1
  {
    rows[..|rows| - 1]
  }

  /** `updateTotalRow`: column 7 of the last row becomes the sum of column 7 over the other rows. */
  function WithTotal(rows: seq<Row>): (r: seq<Row>)
    requires |rows| >= 1
    ensures |r| == |rows| && Lines(r) == Lines(rows)
    ensures At(r[|rows| - 1], 7) == CNum(SumCol(Lines(rows), 7))
    ensures SameExcept(r[|rows| - 1], rows[|rows| - 1], 7)
  {
    rows[|rows| - 1 := SetAt(rows[|rows| - 1], 7, CNum(SumCol(Lines(rows), 7)))]
  }

  /** Every line shows its price. */
  predicate LinesPriced(rows: seq<Row>)
    requires |rows| >= 1
  {
    forall i :: 0 <= i < |rows| - 1 ==> At(rows[i], 7) == CNum(Price(rows[i]))
  }

  /** The invariant the table keeps: every line shows its price and the total row their sum. */
  predicate Consistent(rows: seq<Row>)
  {
    |rows| >= 1 && LinesPriced(rows) && At(rows[|rows| - 1], 7) == CNum(SumCol(Lines(rows), 7))
  }

  /** Re-summing the total makes a table whose lines are priced consistent, and only then. */
  lemma {:induction false} WithTotalConsistent(rows: seq<Row>)
    requires |rows| >= 1
    ensures Consistent(WithTotal(rows)) <==> LinesPriced(rows)
  {
    var r := WithTotal(rows);
    assert forall i :: 0 <= i < |rows| - 1 ==> r[i] == Lines(r)[i] == Lines(rows)[i] == rows[i];
  }

  /** Re-summing twice is re-summing once. */
  lemma {:induction false} WithTotalIdempotent(rows: seq<Row>)
    requires |rows| >= 1
    ensures WithTotal(WithTotal(rows)) == WithTotal(rows)
  {
    var r := WithTotal(rows);
    var last := |rows| - 1;
    assert SetAt(r[last], 7, CNum(SumCol(Lines(r), 7))) == r[last];
  }

  /** `updateTotalRow(rows)`: sums column 7 of the lines in a loop and writes the total row in place. */
  method UpdateTotalRow(rows: array<Row>)
    requires rows.Length >= 1
    modifies rows
    ensures rows[..] == WithTotal(old(rows[..]))
  {
    var totalRowIndex := rows.Length - 1;
    var total := 0.0;
    for i := 0 to totalRowIndex
      invariant total == SumCol(rows[..i], 7)
    {
      assert rows[..i + 1][..i] == rows[..i];
      total := total + ParseNum(At(rows[i], 7));
    }
    assert rows[..totalRowIndex] == Lines(rows[..]);
    rows[totalRowIndex] := SetAt(rows[totalRowIndex], 7, CNum(total));
  }

  // ---------------------------------------------------------------------------
  // The data effect
  // ---------------------------------------------------------------------------

  /** Every line priced, the total row kept. */
  function PriceLines(rows: seq<Row>): (r: seq<Row>)
    requires |rows| >= 1
    ensures |r| == |rows| && r[|rows| - 1] == rows[|rows| - 1]
    ensures forall i :: 0 <= i < |rows| - 1 ==> r[i] == Priced(rows[i])
  {
    seq(|rows|, i requires 0 <= i < |rows| => if i < |rows| - 1 then Priced(rows[i]) else rows[i])
  }

  /** The loop of the data effect: every line priced in place. */
  method PriceLinesInPlace(rows: array<Row>)
    requires rows.Length >= 1
    modifies rows
    ensures rows[..] == PriceLines(old(rows[..]))
  {
    var totalRowIndex := rows.Length - 1;
    for i := 0 to totalRowIndex
      invariant forall k :: 0 <= k < i ==> rows[k] == Priced(old(rows[k]))
      invariant forall k :: i <= k < rows.Length ==> rows[k] == old(rows[k])
    {
      var qte := ParseNum(At(rows[i], 5));
      var pu := ParseNum(At(rows[i], 6));
      assert qte * pu == Price(rows[i]);
      rows[i] := SetAt(rows[i], 7, CNum(qte * pu));
    }
  }

  /** The table the data effect shows for the rows it receives: lines priced, then the total re-summed. */
  function Recomputed(data: seq<Row>): seq<Row>
    requires |data| >= 1
  {
    WithTotal(PriceLines(data))
  }

  /**
   * After the data effect every line's price is its quantity times its unit
   * price, the total row's price is the sum of those prices, and no other cell
   * changes.
   */
  lemma {:induction false} RecomputedMeaning(data: seq<Row>)
    requires |data| >= 1
    ensures Consistent(Recomputed(data)) && |Recomputed(data)| == |data|
    ensures forall i :: 0 <= i < |data| - 1 ==> At(Recomputed(data)[i], 7) == CNum(Price(data[i]))
    ensures forall i, j: nat :: 0 <= i < |data| && j != 7 ==> At(Recomputed(data)[i], j) == At(data[i], j)
  {
    var p := PriceLines(data);
    WithTotalConsistent(p);
    var r := Recomputed(data);
    assert forall i :: 0 <= i < |data| - 1 ==> r[i] == Lines(r)[i] == Lines(p)[i] == p[i];
  }

  // ---------------------------------------------------------------------------
  // Edits
  // ---------------------------------------------------------------------------

  /** One edit of `afterChange`: the cell is written, and an edit of the quantity or the unit price re-prices the row. */
  function AfterEdit(rows: seq<Row>, ch: CellChange): (r: seq<Row>)
    requires ch.row < |rows|
    ensures |r| == |rows|
    ensures forall i :: 0 <= i < |rows| && i != ch.row ==> r[i] == rows[i]
    ensures ch.col != 7 ==> At(r[ch.row], ch.col) == ch.value
    ensures ch.col == 5 || ch.col == 6 ==> At(r[ch.row], 7) == CNum(Price(r[ch.row]))
    ensures forall j: nat :: j != ch.col && (j != 7 || (ch.col != 5 && ch.col != 6)) ==> At(r[ch.row], j) == At(rows[ch.row], j)
  {
    var w := WriteCell(rows, ch);
    if ch.col == 5 || ch.col == 6 then w[ch.row := Priced(w[ch.row])] else w
  }

  function AfterEdits(rows: seq<Row>, changes: seq<CellChange>): (r: seq<Row>)
    requires InRange(changes, |rows|)
    ensures |r| == |rows|
  {
    if changes == [] then rows
    else
      assert InRange(changes[..|changes| - 1], |rows|);
      AfterEdit(AfterEdits(rows, changes[..|changes| - 1]), changes[|changes| - 1])
  }

  /** An edit that leaves the read-only price column alone keeps every line priced. */
  lemma {:induction false} AfterEditPriced(rows: seq<Row>, ch: CellChange)
    requires |rows| >= 1 && ch.row < |rows| && ch.col != 7 && LinesPriced(rows)
    ensures LinesPriced(AfterEdit(rows, ch))
  {
    var r := AfterEdit(rows, ch);
    if ch.col != 5 && ch.col != 6 && ch.row < |rows| - 1 {
      assert Price(r[ch.row]) == Price(rows[ch.row]);
    }
  }

  lemma {:induction false} AfterEditsPriced(rows: seq<Row>, changes: seq<CellChange>)
    requires |rows| >= 1 && InRange(changes, |rows|) && LinesPriced(rows)
    requires forall k :: 0 <= k < |changes| ==> changes[k].col != 7
    ensures LinesPriced(AfterEdits(rows, changes))
  {
    if changes != [] {
      var init := changes[..|changes| - 1];
      assert InRange(init, |rows|);
      assert forall k :: 0 <= k < |init| ==> init[k] == changes[k];
      AfterEditsPriced(rows, init);
      AfterEditPriced(AfterEdits(rows, init), changes[|changes| - 1]);
    }
  }

  /** `afterChange` keeps the table consistent: edits of the editable columns, then the total re-summed. */
  lemma {:induction false} AfterChangeConsistent(rows: seq<Row>, changes: seq<CellChange>)
    requires Consistent(rows) && InRange(changes, |rows|)
    requires forall k :: 0 <= k < |changes| ==> changes[k].col != 7
    ensures Consistent(WithTotal(AfterEdits(rows, changes)))
  {
    AfterEditsPriced(rows, changes);
    WithTotalConsistent(AfterEdits(rows, changes));
  }

  /** The loop of `afterChange` over the edits, on the copied rows. */
  method ApplyEdits(rows: array<Row>, changes: seq<CellChange>)
    requires InRange(changes, rows.Length)
    modifies rows
    ensures rows[..] == AfterEdits(old(rows[..]), changes)
  {
    for k := 0 to |changes|
      invariant InRange(changes[..k], rows.Length)
      invariant rows[..] == AfterEdits(old(rows[..]), changes[..k])
    {
      assert changes[..k + 1][..k] == changes[..k];
      var ch := changes[k];
      ghost var prev := rows[..];
      rows[ch.row] := SetAt(rows[ch.row], ch.col, ch.value);
      assert rows[..] == WriteCell(prev, ch);
      if ch.col == 5 || ch.col == 6 {
        ghost var w := rows[..];
        var qte := ParseNum(At(rows[ch.row], 5));
        var pu := ParseNum(At(rows[ch.row], 6));
        assert qte * pu == Price(w[ch.row]);
        rows[ch.row] := SetAt(rows[ch.row], 7, CNum(qte * pu));
        assert rows[..] == w[ch.row := Priced(w[ch.row])];
      }
    }
    assert changes[..|changes|] == changes;
  }

  // ---------------------------------------------------------------------------
  // Adding and deleting lines
  // ---------------------------------------------------------------------------

  /** The empty line `handleAddRow` inserts. */
  function NewLineRow(): Row
  {
    [CStr(""), CStr(""), CStr(""), CStr(""), CStr(""), CNum(0.0), CNum(0.0), CNum(0.0), CStr("")]
  }

  /** The total row `handleAddRow` falls back on when the table is empty. */
  function FallbackTotalRow(): Row
  {
    [CStr("Total"), CStr(""), CStr(""), CStr(""), CStr(""), CStr(""), CNum(0.0), CNum(0.0), CNum(0.0), CStr("")]
  }

  /** `handleAddRow`: one empty line right before the total row. */
  function WithNewLine(rows: seq<Row>): (r: seq<Row>)
    ensures |rows| >= 1 ==> |r| == |rows| + 1 && Lines(r) == Lines(rows) + [NewLineRow()] && r[|rows|] == rows[|rows| - 1]
    ensures rows == [] ==> r == [NewLineRow(), FallbackTotalRow()]
  {
    if rows == [] then [NewLineRow(), FallbackTotalRow()]
    else Lines(rows) + [NewLineRow(), rows[|rows| - 1]]
  }

  /** The new line costs nothing, so a consistent table stays consistent with the same total. */
  lemma {:induction false} WithNewLineConsistent(rows: seq<Row>)
    requires Consistent(rows)
    ensures Consistent(WithNewLine(rows))
    ensures At(WithNewLine(rows)[|rows|], 7) == At(rows[|rows| - 1], 7)
  {
    var r := WithNewLine(rows);
    SumColAppend(Lines(rows), [NewLineRow()], 7);
    assert SumCol([NewLineRow()], 7) == 0.0 by {
      assert [NewLineRow()][..0] == [];
    }
    NewLinePriced(rows);
  }

  /** The lines of a priced table with the new line after them are priced. */
  lemma NewLinePriced(rows: seq<Row>)
    requires |rows| >= 1 && LinesPriced(rows)
    ensures LinesPriced(WithNewLine(rows))
  {
    var r := WithNewLine(rows);
    assert At(NewLineRow(), 7) == CNum(Price(NewLineRow()));
    assert forall i :: 0 <= i < |rows| - 1 ==> r[i] == Lines(r)[i] == Lines(rows)[i];
  }

  /** `newData.splice(row, 1)`. */
  function Without(rows: seq<Row>, row: nat): (r: seq<Row>)
    requires row < |rows|
    ensures |r| == |rows| - 1
    ensures forall i :: 0 <= i < row ==> r[i] == rows[i]
    ensures forall i :: row <= i < |r| ==> r[i] == rows[i + 1]
  {
    rows[..row] + rows[row + 1..]
  }

  /** The delete button, shown on every row but the total row. */
  predicate ActionsOffered(rows: seq<Row>, row: nat)
  {
    row < |rows| - 1
  }

  /** Deleting a line of a consistent table and re-summing keeps it consistent, with the line's price taken off the total. */
  lemma {:induction false} DeleteConsistent(rows: seq<Row>, row: nat)
    requires Consistent(rows) && ActionsOffered(rows, row)
    ensures Consistent(WithTotal(Without(rows, row)))
    ensures At(WithTotal(Without(rows, row))[|rows| - 2], 7) == CNum(SumCol(Lines(rows), 7) - ParseNum(At(rows[row], 7)))
  {
    var w := Without(rows, row);
    WithTotalConsistent(w);
    assert Lines(w) == rows[..row] + rows[row + 1..|rows| - 1];
    assert Lines(rows) == rows[..row] + [rows[row]] + rows[row + 1..|rows| - 1];
    SumColAppend(rows[..row] + [rows[row]], rows[row + 1..|rows| - 1], 7);
    SumColAppend(rows[..row], [rows[row]], 7);
    SumColAppend(rows[..row], rows[row + 1..|rows| - 1], 7);
    assert SumCol([rows[row]], 7) == ParseNum(At(rows[row], 7)) by {
      assert [rows[row]][..0] == [];
    }
  }

  // ---------------------------------------------------------------------------
  // Detail keys and the open-details list
  // ---------------------------------------------------------------------------

  /** `getDetailKey(title)`: `${tableKey}::${title}`. */
  function DetailKey(tableKey: string, title: Cell): string
  {
    tableKey + "::" + CellText(title)
  }

  /** `prev.filter(k => k !== key)`. */
  function Remove(s: seq<string>, key: string): (r: seq<string>)
    ensures forall x :: x in r <==> x in s && x != key
    ensures |r| <= |s|
  {
    if s == [] then [] else if s[0] == key then Remove(s[1..], key) else [s[0]] + Remove(s[1..], key)
  }

  /** `toggleDetail`: the key is appended when absent, and every copy of it is removed when present. */
  function Toggled(open: seq<string>, key: string): (r: seq<string>)
  {
    if key in open then Remove(open, key) else open + [key]
  }

  /** Toggling flips the key's membership and leaves the other keys' membership alone; twice restores it. */
  lemma {:induction false} ToggledMeaning(open: seq<string>, key: string, other: string)
    requires other != key
    ensures key in Toggled(open, key) <==> key !in open
    ensures other in Toggled(open, key) <==> other in open
    ensures key in Toggled(Toggled(open, key), key) <==> key in open
    ensures other in Toggled(Toggled(open, key), key) <==> other in open
  {
  }

  /** The detail table shown for a key: the stored one, or a single empty line and its total. */
  function DetailDataFor(details: map<string, seq<Row>>, key: string): (t: seq<Row>)
    ensures key in details ==> t == details[key]
    ensures key !in details ==> |t| == 2 && |t[1]| == 8 && t[1][0] == CStr("Total")
  {
    if key in details then details[key]
    else [[CStr(""), CNum(1.0), CNum(1.0), CNum(1.0), CNum(1.0), CNum(1.0), CNum(0.0), CStr("")],
          [CStr("Total"), CStr(""), CStr(""), CStr(""), CStr(""), CStr(""), CNum(0.0), CStr("")]]
  }

  /** `updatedDetail.at(-1)?.[6] ?? 0`: the detail total a detail table reports. */
  function DetailTotal(detail: seq<Row>): (c: Cell)
    ensures detail == [] ==> c == CNum(0.0)
    ensures detail != [] && At(detail[|detail| - 1], 6) != CUndef ==> c == At(detail[|detail| - 1], 6)
    ensures c != CUndef
  {
    if detail == [] then CNum(0.0)
    else match At(detail[|detail| - 1], 6)
      case CUndef => CNum(0.0)
      case c => c
  }

  /**
   * How the list of open details recovers a line's title from its key, as the
   * source writes it: `detailKey.split('::')[1]`, undefined when there is no
   * second part.
   */
  function TitleOfKeyAsWritten(detailKey: string): Cell
  {
    var parts := Split(detailKey, "::");
    if |parts| >= 2 then CStr(parts[1]) else CUndef
  }

  /** The title is everything after the table key and its separator. */
  function TitleOfKey(tableKey: string, detailKey: string): (c: Cell)
    ensures c != CUndef ==> StartsWith(detailKey, tableKey + "::")
  {
    if StartsWith(detailKey, tableKey + "::") then CStr(detailKey[|tableKey| + 2..]) else CUndef
  }

  /** The key of a text title gives the title back. */
  lemma {:induction false} TitleOfKeyRoundTrip(tableKey: string, title: string)
    ensures TitleOfKey(tableKey, DetailKey(tableKey, CStr(title))) == CStr(title)
  {
    var k := DetailKey(tableKey, CStr(title));
    assert k[..|tableKey + "::"|] == tableKey + "::";
    assert k[|tableKey| + 2..] == title;
  }

  lemma {:induction false} SplitTail()
    ensures Split("a::b", "::") == ["a", "b"]
  {
    var rest := "a::b";
    assert rest[..2][0] == 'a' && rest[..2] != "::";
    assert rest[1..] == "::b" && rest[1..][..2] == "::";
    assert IndexOf(rest[1..], "::") == Some(0);
    assert IndexOf(rest, "::") == Some(1);
    assert rest[3..] == "b" && rest[..1] == "a";
    assert IndexOf("b", "::") == None;
    assert Split("b", "::") == ["b"];
    assert Split(rest, "::") == [rest[..1]] + Split(rest[3..], "::");
  }

  lemma {:induction false} IndexOfKey()
    ensures IndexOf("7::a::b", "::") == Some(1)
  {
    var s := "7::a::b";
    assert s[..2][0] == '7' && s[..2] != "::";
    assert s[1..] == "::a::b" && s[1..][..2] == "::";
    assert IndexOf(s[1..], "::") == Some(0);
  }

  lemma {:induction false} SplitKey()
    ensures Split("7::a::b", "::") == ["7", "a", "b"]
  {
    var s := "7::a::b";
    IndexOfKey();
    assert s[3..] == "a::b" && s[..1] == "7";
    SplitTail();
    assert Split(s, "::") == [s[..1]] + Split(s[3..], "::");
  }

  /** A title holding the separator is cut at it: the key of line "a::b" of table "7" gives back "a". */
  lemma {:induction false} TitleOfKeyAsWrittenTruncates()
    ensures DetailKey("7", CStr("a::b")) == "7::a::b"
    ensures TitleOfKeyAsWritten("7::a::b") == CStr("a") != CStr("a::b")
  {
    assert CellText(CStr("a::b")) == "a::b";
    assert "7" + "::" + "a::b" == "7::a::b";
    SplitKey();
    assert Split("7::a::b", "::")[1] == "a";
  }

  /** `localData.findIndex(row => row[2] === title)`. */
  function FindTitle(rows: seq<Row>, title: Cell): (r: Option<nat>)
    ensures r.Some? ==> r.value < |rows| && At(rows[r.value], 2) == title
    ensures r.Some? ==> forall i :: 0 <= i < r.value ==> At(rows[i], 2) != title
    ensures r.None? ==> forall i :: 0 <= i < |rows| ==> At(rows[i], 2) != title
  {
    if rows == [] then None
    else if At(rows[0], 2) == title then Some(0)
    else match FindTitle(rows[1..], title)
      case None => None
      case Some(i) => Some(i + 1)
  }

  // ---------------------------------------------------------------------------
  // The component state
  // ---------------------------------------------------------------------------

  class MetreTableState {
    const tableKey: string
    var localData: seq<Row>
    var openDetails: seq<string>
    /** The parent's detail tables, which the table updates through its setter. */
    var detailDataMap: map<string, seq<Row>>

    /** Mounting runs the data effect on the rows received; no detail is open. */
    constructor(tableKey: string, data: seq<Row>, detailDataMap: map<string, seq<Row>>)
      requires |data| >= 1
      ensures this.tableKey == tableKey && localData == Recomputed(data)
      ensures openDetails == [] && this.detailDataMap == detailDataMap
    {
      this.tableKey := tableKey;
      openDetails := [];
      this.detailDataMap := detailDataMap;
      new;
      SetData(data);
    }

    /** The effect on new rows from the parent: a priced copy with the total re-summed. */
    method SetData(data: seq<Row>)
      requires |data| >= 1
      modifies this
      ensures localData == Recomputed(data)
      ensures openDetails == old(openDetails) && detailDataMap == old(detailDataMap)
    {
      var updated := new Row[|data|](i requires 0 <= i < |data| => data[i]);
      assert updated[..] == data;
      PriceLinesInPlace(updated);
      var totalRowIndex := updated.Length - 1;
      updated[totalRowIndex] := SetAt(updated[totalRowIndex], 7, CNum(SumCol(updated[..totalRowIndex], 7)));
      localData := updated[..];
    }

    method ToggleDetail(title: Cell)
      modifies this
      ensures openDetails == Toggled(old(openDetails), DetailKey(tableKey, title))
      ensures localData == old(localData) && detailDataMap == old(detailDataMap)
    {
      var key := DetailKey(tableKey, title);
      openDetails := if key in openDetails then Remove(openDetails, key) else openDetails + [key];
    }

    /** `handleAddRow`; the new rows are also handed to the parent, and returned here. */
    method AddRow() returns (published: seq<Row>)
      modifies this
      ensures published == WithNewLine(old(localData)) && localData == published
      ensures openDetails == old(openDetails) && detailDataMap == old(detailDataMap)
    {
      if localData == [] {
        published := [NewLineRow(), FallbackTotalRow()];
      } else {
        var copy := localData[..|localData| - 1];
        var total := localData[|localData| - 1];
        published := copy + [NewLineRow(), total];
      }
      localData := published;
    }

    /**
     * `afterChange`: nothing without edits or for the grid's own loading;
     * otherwise the edits on a copy, the total re-summed, and the new rows
     * handed to the parent.
     */
    method AfterChange(changes: Option<seq<CellChange>>, source: string) returns (published: Option<seq<Row>>)
      requires |localData| >= 1
      requires changes.Some? ==> InRange(changes.value, |localData|)
      modifies this
      ensures changes.None? || source == "loadData" ==> published == None && localData == old(localData)
      ensures changes.Some? && source != "loadData" ==>
        published == Some(WithTotal(AfterEdits(old(localData), changes.value))) && localData == published.value
      ensures openDetails == old(openDetails) && detailDataMap == old(detailDataMap)
    {
      if changes.None? || source == "loadData" {
        return None;
      }
      var data := localData;
      var newData := new Row[|data|](i requires 0 <= i < |data| => data[i]);
      assert newData[..] == data;
      ApplyEdits(newData, changes.value);
      UpdateTotalRow(newData);
      localData := newData[..];
      published := Some(localData);
    }

    /** `handleDetailChange`: the detail total goes into the quantity of the first line with that title, as an edit. */
    method HandleDetailChange(title: Cell, totalFromDetail: Cell)
      requires |localData| >= 1
      modifies this
      ensures FindTitle(old(localData), title).None? ==> localData == old(localData)
      ensures FindTitle(old(localData), title).Some? ==>
        localData == WithTotal(AfterEdits(old(localData), [CellChange(FindTitle(old(localData), title).value, 5, totalFromDetail)]))
      ensures openDetails == old(openDetails) && detailDataMap == old(detailDataMap)
    {
      var rowIndex := FindTitle(localData, title);
      if rowIndex.Some? {
        var _ := AfterChange(Some([CellChange(rowIndex.value, 5, totalFromDetail)]), "fromDetail");
      }
    }

    /** A detail table reporting new rows: they are stored under their key, and their total flows into the line. */
    method DetailChanged(detailKey: string, updatedDetail: seq<Row>)
      requires |localData| >= 1
      modifies this
      ensures detailDataMap == old(detailDataMap)[detailKey := updatedDetail]
      ensures var title := TitleOfKey(tableKey, detailKey);
        FindTitle(old(localData), title).Some? ==>
          localData == WithTotal(AfterEdits(old(localData), [CellChange(FindTitle(old(localData), title).value, 5, DetailTotal(updatedDetail))]))
      ensures FindTitle(old(localData), TitleOfKey(tableKey, detailKey)).None? ==> localData == old(localData)
      ensures openDetails == old(openDetails)
    {
      detailDataMap := detailDataMap[detailKey := updatedDetail];
      HandleDetailChange(TitleOfKey(tableKey, detailKey), DetailTotal(updatedDetail));
    }

    /** The delete button of a line: the line goes, the total is re-summed, and the line's detail table is dropped and closed. */
    method DeleteRow(row: nat)
      requires ActionsOffered(localData, row)
      modifies this
      ensures localData == WithTotal(Without(old(localData), row))
      ensures var key := DetailKey(tableKey, At(old(localData)[row], 2));
        detailDataMap == old(detailDataMap) - {key} && openDetails == Remove(old(openDetails), key)
    {
      var intitule := At(localData[row], 2);
      var spliced := Without(localData, row);
      var newData := new Row[|spliced|](i requires 0 <= i < |spliced| => spliced[i]);
      assert newData[..] == spliced;
      UpdateTotalRow(newData);
      localData := newData[..];
      var detailKey := DetailKey(tableKey, intitule);
      detailDataMap := detailDataMap - {detailKey};
      openDetails := Remove(openDetails, detailKey);
    }
  }
}
