/**
 * The project recap: one row per root chapter with the total of its whole
 * subtree, and the project total. A chapter's own total adds up the prices of
 * its table's rows that are not labelled 'Total' and hold a number.
 */
module Summary {
  import opened Cells
  import opened Grid
  import opened ChapterTree

  /** A row of the recap. */
  datatype SummaryRow = SummaryRow(chapter: string, totalPrice: real)

  /**
   * What one price cell adds: `row[7] && !isNaN(parseFloat(row[7]))` decides,
   * `parseFloat(row[7])` is the amount; `parseFloat` of a number is the number.
   */
  function Contribution(c: Cell): real
  {
    match c
    case CNum(x) => if Truthy(c) then x else 0.0
    case CStr(s) => if Truthy(c) && ParseFloat(s).Some? then ParseFloat(s).value else 0.0
    case CUndef => 0.0
  }

  /** The guard of the sum and the `parseFloat(x) || 0` reading agree on every cell. */
  lemma {:induction false} ContributionIsParseNum(c: Cell)
    ensures Contribution(c) == ParseNum(c)
  {
  }

  /** The chapter's own total over its table rows, accumulated from the first row to the last. */
  function OwnTotal(rows: seq<Row>): real
  {
    if rows == [] then 0.0
    else OwnTotal(rows[..|rows| - 1]) + (if IsTotalLabel(rows[|rows| - 1]) then 0.0 else Contribution(At(rows[|rows| - 1], 7)))
  }

  /** The own total is the price column summed over the rows the summary keeps as lines. */
  lemma {:induction false} OwnTotalMeaning(rows: seq<Row>)
    ensures OwnTotal(rows) == SumCol(NonTotal(rows), 7)
  {
    if rows != [] {
      var i := |rows| - 1;
      OwnTotalMeaning(rows[..i]);
      NonTotalSplit(rows, i);
      assert rows[i + 1..] == [];
      assert NonTotal(rows) == NonTotal(rows[..i]) + Kept(rows[i]);
      SumColAppend(NonTotal(rows[..i]), Kept(rows[i]), 7);
      ContributionIsParseNum(At(rows[i], 7));
      if !IsTotalLabel(rows[i]) {
        assert [rows[i]][..0] == [];
        assert SumCol([rows[i]], 7) == ParseNum(At(rows[i], 7));
      }
    }
  }

  /** `tableDataMap[node.key] || []` summed: a chapter without a table has nothing of its own. */
  function OwnOf(n: Node, tables: map<string, seq<Row>>): (t: real)
    ensures n.key !in tables ==> t == 0.0
    ensures n.key in tables ==> t == SumCol(NonTotal(tables[n.key]), 7)
  {
    OwnTotalMeaning(TableOf(tables, n.key));
    OwnTotal(TableOf(tables, n.key))
  }

  /** The totals of a forest: each tree's own total, then its children's, then the following trees. */
  function ForestTotal(ns: seq<Node>, tables: map<string, seq<Row>>): real
  {
    if ns == [] then 0.0 else OwnOf(ns[0], tables) + ForestTotal(ns[0].children, tables) + ForestTotal(ns[1..], tables)
  }

  /** `processNode`'s total: the node's own total and its children's reported totals. */
  function NodeTotal(n: Node, tables: map<string, seq<Row>>): real
  {
    OwnOf(n, tables) + ForestTotal(n.children, tables)
  }

  /** The reported totals of a list of trees added up in order, as the loops over children and roots do. */
  function SumNodeTotals(ns: seq<Node>, tables: map<string, seq<Row>>): real
  {
    if ns == [] then 0.0 else SumNodeTotals(ns[..|ns| - 1], tables) + NodeTotal(ns[|ns| - 1], tables)
  }

  /** The own totals, over a flat list of chapters. */
  function SumOwn(ns: seq<Node>, tables: map<string, seq<Row>>): real
  {
    if ns == [] then 0.0 else OwnOf(ns[0], tables) + SumOwn(ns[1..], tables)
  }

  lemma {:induction false} SumOwnConcat(a: seq<Node>, b: seq<Node>, tables: map<string, seq<Row>>)
    ensures SumOwn(a + b, tables) == SumOwn(a, tables) + SumOwn(b, tables)
  {
    if a == [] {
      assert a + b == b;
    } else {
      assert (a + b)[1..] == a[1..] + b;
      SumOwnConcat(a[1..], b, tables);
    }
  }

  /** The rollup counts every chapter of the forest exactly once: it is the sum of the own totals over the pre-order list. */
  lemma {:induction false} ForestTotalFlat(ns: seq<Node>, tables: map<string, seq<Row>>)
    ensures ForestTotal(ns, tables) == SumOwn(Flatten(ns), tables)
  {
    if ns != [] {
      ForestTotalFlat(ns[0].children, tables);
      ForestTotalFlat(ns[1..], tables);
      SumOwnConcat([ns[0]] + Flatten(ns[0].children), Flatten(ns[1..]), tables);
      SumOwnConcat([ns[0]], Flatten(ns[0].children), tables);
      assert ([ns[0]] + Flatten(ns[0].children))[1..] == Flatten(ns[0].children);
      assert [ns[0]][1..] == [];
    }
  }

  lemma {:induction false} ForestTotalConcat(a: seq<Node>, b: seq<Node>, tables: map<string, seq<Row>>)
    ensures ForestTotal(a + b, tables) == ForestTotal(a, tables) + ForestTotal(b, tables)
  {
    if a == [] {
      assert a + b == b;
    } else {
      assert (a + b)[0] == a[0] && (a + b)[1..] == a[1..] + b;
      ForestTotalConcat(a[1..], b, tables);
    }
  }

  /** Adding up the reported totals of the trees gives the forest's total. */
  lemma {:induction false} SumNodeTotalsIsForestTotal(ns: seq<Node>, tables: map<string, seq<Row>>)
    ensures SumNodeTotals(ns, tables) == ForestTotal(ns, tables)
  {
    if ns != [] {
      var init := ns[..|ns| - 1];
      var last := ns[|ns| - 1];
      SumNodeTotalsIsForestTotal(init, tables);
      assert ns == init + [last];
      ForestTotalConcat(init, [last], tables);
      assert [last][1..] == [];
    }
  }

  /** The loop of `processNode` over the table rows. */
  method SumChapterRows(rows: seq<Row>) returns (chapterTotal: real)
    ensures chapterTotal == OwnTotal(rows)
  {
    chapterTotal := 0.0;
    for i := 0 to |rows|
      invariant chapterTotal == OwnTotal(rows[..i])
    {
      assert rows[..i + 1][..i] == rows[..i];
      var row := rows[i];
      var price := At(row, 7);
      if At(row, 0) != CStr("Total") && Truthy(price) && (price.CNum? || ParseFloat(price.s).Some?) {
        chapterTotal := chapterTotal + (if price.CNum? then price.n else ParseFloat(price.s).value);
      }
    }
    assert rows[..|rows|] == rows;
  }

  /** `processNode`: the heading of the chapter and the total of its whole subtree. */
  method ProcessNode(node: Node, tables: map<string, seq<Row>>) returns (r: SummaryRow)
    ensures r == SummaryRow(Heading(node), NodeTotal(node, tables))
    decreases node
  {
    var chapterTotal := SumChapterRows(TableOf(tables, node.key));
    var childrenTotal := 0.0;
    for i := 0 to |node.children|
      invariant childrenTotal == SumNodeTotals(node.children[..i], tables)
    {
      assert node.children[..i + 1][..i] == node.children[..i];
      var childResult := ProcessNode(node.children[i], tables);
      childrenTotal := childrenTotal + childResult.totalPrice;
    }
    assert node.children[..|node.children|] == node.children;
    SumNodeTotalsIsForestTotal(node.children, tables);
    r := SummaryRow(Heading(node), chapterTotal + childrenTotal);
  }

  /**
   * `calculateSummaryData`: one row per root, in root order, and the project
   * total, which is the sum of the own totals of every chapter of the tree.
   */
  method CalculateSummaryData(treeData: seq<Node>, tables: map<string, seq<Row>>) returns (summary: seq<SummaryRow>, total: real)
    ensures |summary| == |treeData|
    ensures forall i :: 0 <= i < |treeData| ==> summary[i] == SummaryRow(Heading(treeData[i]), NodeTotal(treeData[i], tables))
    ensures total == ForestTotal(treeData, tables) && total == SumOwn(Flatten(treeData), tables)
  {
    summary := [];
    total := 0.0;
    for i := 0 to |treeData|
      invariant |summary| == i
      invariant forall k :: 0 <= k < i ==> summary[k] == SummaryRow(Heading(treeData[k]), NodeTotal(treeData[k], tables))
      invariant total == SumNodeTotals(treeData[..i], tables)
    {
      assert treeData[..i + 1][..i] == treeData[..i];
      var result := ProcessNode(treeData[i], tables);
      summary := summary + [result];
      total := total + result.totalPrice;
    }
    assert treeData[..|treeData|] == treeData;
    SumNodeTotalsIsForestTotal(treeData, tables);
    ForestTotalFlat(treeData, tables);
  }

  class SummaryState {
    var summaryData: seq<SummaryRow>
    var projectTotal: real

    constructor()
      ensures summaryData == [] && projectTotal == 0.0
    {
      summaryData := [];
      projectTotal := 0.0;
    }

    /** The data effect: the recap is computed once loading is over and there are both chapters and tables. */
    method OnData(loading: bool, treeData: seq<Node>, tables: map<string, seq<Row>>)
      modifies this
      ensures loading || treeData == [] || |tables| == 0 ==> summaryData == old(summaryData) && projectTotal == old(projectTotal)
      ensures !loading && treeData != [] && |tables| > 0 ==>
        |summaryData| == |treeData| && projectTotal == SumOwn(Flatten(treeData), tables)
        && forall i :: 0 <= i < |treeData| ==> summaryData[i] == SummaryRow(Heading(treeData[i]), NodeTotal(treeData[i], tables))
    {
      if !loading && treeData != [] && |tables| > 0 {
        summaryData, projectTotal := CalculateSummaryData(treeData, tables);
      }
    }
  }
}
