/**
 * The consolidated spreadsheet of the summary page: every chapter of the tree
 * (in pre-order) with its line table, sorted by chapter number, laid out as a
 * header row, the chapter's lines and an empty row per chapter, closed by one
 * grand TOTAL row. Each line row remembers which chapter line it shows, so an
 * edit in the spreadsheet is written back into that chapter's table.
 */
module SummarySpreadsheet {
  import opened Cells
  import opened NumOrder
  import opened ChapterTree
  import opened Grid

  // ---------------------------------------------------------------------------
  // From the stored tree and tables to chapters with lines
  // ---------------------------------------------------------------------------

  /** A line of a chapter as the summary reads it from the chapter's table. */
  datatype SumLine = SumLine(
    gr: Cell, num: Cell, title: Cell, nm: Cell, unit: Cell,
    quantity: real, unitPrice: real, totalPrice: real, comments: Cell)

  datatype SumChapter = SumChapter(id: string, num: string, caption: string, parentId: Option<string>, lines: seq<SumLine>)

  /**
   * One table row as a line. For a cell, `typeof x === 'string' ? parseFloat(x) || 0
   * : Number(x) || 0` reads like `parseFloat(x) || 0`; comments default to ''.
   */
  function ToLine(r: Row): (l: SumLine)
    ensures l.quantity == ParseNum(At(r, 5)) && l.unitPrice == ParseNum(At(r, 6))
    ensures l.totalPrice == RealTimes(l.quantity, l.unitPrice)
    ensures l.gr == At(r, 0) && l.title == At(r, 2)
    ensures Truthy(At(r, 8)) ==> l.comments == At(r, 8)
    ensures !Truthy(At(r, 8)) ==> l.comments == CStr("")
  {
    var quantity := ParseNum(At(r, 5));
    var unitPrice := ParseNum(At(r, 6));
    SumLine(At(r, 0), At(r, 1), At(r, 2), At(r, 3), At(r, 4), quantity, unitPrice, RealTimes(quantity, unitPrice),
            if Truthy(At(r, 8)) then At(r, 8) else CStr(""))
  }

  /** The position in `rows` of the `k`-th row that is kept by the filter. */
  function RawIndex(rows: seq<Row>, k: nat): (i: nat)
    requires k < |NonTotal(rows)|
    ensures i < |rows| && rows[i] == NonTotal(rows)[k] && !IsTotalLabel(rows[i])
    ensures |NonTotal(rows[..i])| == k
  {
    NonTotalHead(rows);
    var h := |Kept(rows[0])|;
    if k < h then
      assert rows[..0] == [];
      0
    else
      var j := RawIndex(rows[1..], k - h);
      RawIndexStep(rows, k, j);
      j + 1
  }

  /** The `k`-th kept row, found at `j` in the rest after the head, sits at `j + 1`. */
  lemma {:induction false} RawIndexStep(rows: seq<Row>, k: nat, j: nat)
    requires rows != [] && j + 1 < |rows| && |Kept(rows[0])| <= k < |NonTotal(rows)|
    requires k - |Kept(rows[0])| < |NonTotal(rows[1..])|
    requires rows[1..][j] == NonTotal(rows[1..])[k - |Kept(rows[0])|]
    requires |NonTotal(rows[1..][..j])| == k - |Kept(rows[0])|
    ensures rows[j + 1] == NonTotal(rows)[k] && |NonTotal(rows[..j + 1])| == k
  {
    NonTotalHead(rows);
    NonTotalPrefixHead(rows, j);
  }

  /** The kept rows of a prefix: the head, if kept, then the kept rows of the rest's prefix. */
  lemma {:induction false} NonTotalPrefixHead(rows: seq<Row>, j: nat)
    requires j < |rows| - 1
    ensures NonTotal(rows[..j + 1]) == Kept(rows[0]) + NonTotal(rows[1..][..j])
  {
    NonTotalHead(rows[..j + 1]);
    assert rows[..j + 1][1..] == rows[1..][..j];
  }

  /** A row labelled 'Total' before the end shifts the filtered positions: row `k` is not the `k`-th line. */
  lemma {:induction false} RawIndexShifted()
    ensures var rows := [[CStr("Total")], [CStr("a")], [CStr("Total")]];
      |NonTotal(rows)| == 1 && RawIndex(rows, 0) == 1
  {
    var rows := [[CStr("Total")], [CStr("a")], [CStr("Total")]];
    assert IsTotalLabel(rows[0]) && !IsTotalLabel(rows[1]) && IsTotalLabel(rows[2]);
    assert rows[1..][1..][1..] == [];
    assert NonTotal(rows) == [[CStr("a")]];
  }

  /** The lines of a chapter table: the rows not labelled 'Total', in order, each read with `ToLine`. */
  function TableLines(rows: seq<Row>): (ls: seq<SumLine>)
    ensures |ls| == |NonTotal(rows)|
  {
    var kept := NonTotal(rows);
    seq(|kept|, k requires 0 <= k < |kept| => ToLine(kept[k]))
  }

  /** Line `k` of a table is the `k`-th kept row read as a line, and that row sits at `RawIndex`. */
  lemma {:induction false} TableLinesAt(rows: seq<Row>, k: nat)
    requires k < |NonTotal(rows)|
    ensures TableLines(rows)[k] == ToLine(rows[RawIndex(rows, k)])
  {
  }

  /** One chapter per tree node; `node.parentId || null` turns an empty parent id into none. */
  function ConvertNode(n: Node, tables: map<string, seq<Row>>): (c: SumChapter)
    ensures c.id == n.key && c.num == n.num && c.caption == n.caption
    ensures c.parentId.Some? <==> n.parentId.Some? && n.parentId.value != ""
    ensures c.parentId.Some? ==> c.parentId == n.parentId
    ensures c.lines == TableLines(TableOf(tables, n.key))
  {
    SumChapter(n.key, n.num, n.caption, if n.parentId == Some("") then None else n.parentId, TableLines(TableOf(tables, n.key)))
  }

  /** `convertLocalStorageDataToChapters`: one chapter per node of the pre-order flattening. */
  function Convert(nodes: seq<Node>, tables: map<string, seq<Row>>): (r: seq<SumChapter>)
    ensures |r| == |Flatten(nodes)|
    ensures forall i :: 0 <= i < |r| ==> r[i] == ConvertNode(Flatten(nodes)[i], tables)
  {
    var flat := Flatten(nodes);
    seq(|flat|, i requires 0 <= i < |flat| => ConvertNode(flat[i], tables))
  }

  /** Every node of the tree yields a chapter, whatever its depth. */
  lemma {:induction false} ConvertCoversTree(nodes: seq<Node>, tables: map<string, seq<Row>>, p: seq<nat>)
    requires ValidPath(nodes, p)
    ensures exists i :: 0 <= i < |Convert(nodes, tables)| && Convert(nodes, tables)[i].id == NodeAt(nodes, p).key
  {
    FlattenAt(nodes, p);
    var i := PreIndex(nodes, p);
    assert Convert(nodes, tables)[i].id == NodeAt(nodes, p).key;
  }

  // ---------------------------------------------------------------------------
  // The consolidated rows
  // ---------------------------------------------------------------------------

  /** What a consolidated row stands for (the metadata attached to the row array). */
  datatype RowKind = Header(chapterId: string) | LineOf(chapterId: string, lineIndex: nat) | Blank | GrandTotal

  datatype SRow = SRow(cells: Row, kind: RowKind)

  /** A span `{row, col: 0, rowspan: 1, colspan}`. */
  datatype Merge = Merge(row: nat, colspan: nat)

  function Empties(n: nat): (r: Row)
    ensures |r| == n && forall j :: 0 <= j < n ==> r[j] == CStr("")
  {
    seq(n, _ => CStr(""))
  }

  /** The chapter header `${num} - ${label}` followed by eight empty cells. */
  function HeaderRow(ch: SumChapter): SRow
  {
    SRow([CStr(ch.num + " - " + ch.caption)] + Empties(8), Header(ch.id))
  }

  function LineCells(l: SumLine): Row
  {
    [l.gr, l.num, l.title, l.nm, l.unit, CNum(l.quantity), CNum(l.unitPrice), CNum(l.totalPrice), l.comments]
  }

  function LineRow(ch: SumChapter, l: nat): SRow
    requires l < |ch.lines|
  {
    SRow(LineCells(ch.lines[l]), LineOf(ch.id, l))
  }

  function BlankRow(): SRow
  {
    SRow(Empties(9), Blank)
  }

  /** `'TOTAL'`, six empty cells, the grand total and an empty cell. */
  function TotalRow(total: real): SRow
  {
    SRow([CStr("TOTAL")] + Empties(6) + [CNum(total), CStr("")], GrandTotal)
  }

  /** The rows of the first `n` lines of a chapter. */
  function LineRows(ch: SumChapter, n: nat): (r: seq<SRow>)
    requires n <= |ch.lines|
    ensures |r| == n
  {
    if n == 0 then [] else LineRows(ch, n - 1) + [LineRow(ch, n - 1)]
  }

  /** A chapter's block: its header, its lines in order, an empty row. */
  function Block(ch: SumChapter): (r: seq<SRow>)
    ensures |r| == |ch.lines| + 2
  {
    [HeaderRow(ch)] + LineRows(ch, |ch.lines|) + [BlankRow()]
  }

  function Blocks(chs: seq<SumChapter>): seq<SRow>
  {
    if chs == [] then [] else Blocks(chs[..|chs| - 1]) + Block(chs[|chs| - 1])
  }

  /** The sum of the line totals of the first `n` lines. */
  function ChapterTotal(ch: SumChapter, n: nat): real
    requires n <= |ch.lines|
  {
    if n == 0 then 0.0 else ChapterTotal(ch, n - 1) + ch.lines[n - 1].totalPrice
  }

  /** `globalTotal`: the sum of `Number(line.totalPrice) || 0` over all lines of all chapters. */
  function GlobalTotal(chs: seq<SumChapter>): real
  {
    if chs == [] then 0.0 else GlobalTotal(chs[..|chs| - 1]) + ChapterTotal(chs[|chs| - 1], |chs[|chs| - 1].lines|)
  }

  /** The rows `processProjectData` shows for chapters already sorted. */
  function Consolidated(chs: seq<SumChapter>): seq<SRow>
  {
    Blocks(chs) + [TotalRow(GlobalTotal(chs))]
  }

  /** The number of rows of the chapter blocks: each chapter's lines plus two. */
  function RowCount(chs: seq<SumChapter>): nat
  {
    if chs == [] then 0 else RowCount(chs[..|chs| - 1]) + |chs[|chs| - 1].lines| + 2
  }

  /** There are Σ(lines + 2) + 1 consolidated rows. */
  lemma {:induction false} ConsolidatedLength(chs: seq<SumChapter>)
    ensures |Blocks(chs)| == RowCount(chs)
    ensures |Consolidated(chs)| == RowCount(chs) + 1
  {
    if chs != [] {
      ConsolidatedLength(chs[..|chs| - 1]);
    }
  }

  lemma {:induction false} BlocksConcat(a: seq<SumChapter>, b: seq<SumChapter>)
    ensures Blocks(a + b) == Blocks(a) + Blocks(b)
    decreases |b|
  {
    if b == [] {
      assert a + b == a;
    } else {
      var b' := b[..|b| - 1];
      assert (a + b)[..|a + b| - 1] == a + b';
      BlocksConcat(a, b');
      AppendAssoc(Blocks(a), Blocks(b'), Block(b[|b| - 1]));
    }
  }

  /** Where chapter `c`'s block starts. */
  function Offset(chs: seq<SumChapter>, c: nat): nat
    requires c <= |chs|
  {
    |Blocks(chs[..c])|
  }

  lemma {:induction false} LineRowsAt(ch: SumChapter, n: nat, l: nat)
    requires l < n <= |ch.lines|
    ensures LineRows(ch, n)[l] == LineRow(ch, l)
  {
    if l < n - 1 {
      LineRowsAt(ch, n - 1, l);
    }
  }

  /** Chapter `c`'s block sits between the blocks of the chapters before and after it. */
  lemma {:induction false} BlocksAround(chs: seq<SumChapter>, c: nat)
    requires c < |chs|
    ensures Blocks(chs) == Blocks(chs[..c]) + Block(chs[c]) + Blocks(chs[c + 1..])
  {
    assert chs == chs[..c] + [chs[c]] + chs[c + 1..];
    BlocksConcat(chs[..c] + [chs[c]], chs[c + 1..]);
    BlocksConcat(chs[..c], [chs[c]]);
    assert Blocks([chs[c]]) == Block(chs[c]) by {
      assert [chs[c]][..0] == [];
    }
  }

  /** Row `k` of chapter `c`'s block is row `Offset(chs, c) + k` of all blocks. */
  lemma {:induction false} BlockAt(chs: seq<SumChapter>, c: nat, k: nat)
    requires c < |chs| && k < |chs[c].lines| + 2
    ensures Offset(chs, c) + |chs[c].lines| + 2 <= |Blocks(chs)|
    ensures Blocks(chs)[Offset(chs, c) + k] == Block(chs[c])[k]
  {
    BlocksAround(chs, c);
    var before, blk, after := Blocks(chs[..c]), Block(chs[c]), Blocks(chs[c + 1..]);
    assert (before + blk + after)[|before| + k] == blk[k];
  }

  /**
   * The layout: chapter `c`'s header at its offset, its line `l` right after
   * at offset + 1 + l, and an empty row after its lines.
   */
  lemma {:induction false} BlocksLayout(chs: seq<SumChapter>, c: nat, l: nat)
    requires c < |chs| && l < |chs[c].lines|
    ensures Offset(chs, c) + |chs[c].lines| + 2 <= |Blocks(chs)|
    ensures Blocks(chs)[Offset(chs, c)] == HeaderRow(chs[c])
    ensures Blocks(chs)[Offset(chs, c) + 1 + l] == LineRow(chs[c], l)
    ensures Blocks(chs)[Offset(chs, c) + 1 + |chs[c].lines|] == BlankRow()
  {
    var n := |chs[c].lines|;
    BlockAt(chs, c, 0);
    BlockAt(chs, c, 1 + l);
    BlockAt(chs, c, 1 + n);
    LineRowsAt(chs[c], n, l);
  }

  /** A line row shows a line of a chapter it names: every `LineOf` row points back at its source line. */
  lemma {:induction false} LineRowsPointBack(chs: seq<SumChapter>, r: nat)
    requires r < |Blocks(chs)| && Blocks(chs)[r].kind.LineOf?
    ensures exists c :: (0 <= c < |chs| && chs[c].id == Blocks(chs)[r].kind.chapterId
      && Blocks(chs)[r].kind.lineIndex < |chs[c].lines|
      && Blocks(chs)[r].cells == LineCells(chs[c].lines[Blocks(chs)[r].kind.lineIndex]))
  {
    var init := chs[..|chs| - 1];
    var last := |chs| - 1;
    if r < |Blocks(init)| {
      LineRowsPointBack(init, r);
      var c :| 0 <= c < |init| && init[c].id == Blocks(init)[r].kind.chapterId
        && Blocks(init)[r].kind.lineIndex < |init[c].lines|
        && Blocks(init)[r].cells == LineCells(init[c].lines[Blocks(init)[r].kind.lineIndex]);
      assert init[c] == chs[c];
    } else {
      var k := r - |Blocks(init)|;
      var ch := chs[last];
      assert Blocks(chs)[r] == Block(ch)[k];
      assert 1 <= k <= |ch.lines|;
      LineRowsAt(ch, |ch.lines|, k - 1);
    }
  }

  /** The sum of column 7 over the line rows. */
  function SumLinePrices(rows: seq<SRow>): real
  {
    if rows == [] then 0.0
    else SumLinePrices(rows[..|rows| - 1]) + (if rows[|rows| - 1].kind.LineOf? then ParseNum(At(rows[|rows| - 1].cells, 7)) else 0.0)
  }

  lemma {:induction false} SumLinePricesAppend(a: seq<SRow>, b: seq<SRow>)
    ensures SumLinePrices(a + b) == SumLinePrices(a) + SumLinePrices(b)
    decreases |b|
  {
    if b == [] {
      assert a + b == a;
    } else {
      var b' := b[..|b| - 1];
      assert (a + b)[..|a + b| - 1] == a + b';
      SumLinePricesAppend(a, b');
    }
  }

  lemma {:induction false} LineRowsPrices(ch: SumChapter, n: nat)
    requires n <= |ch.lines|
    ensures SumLinePrices(LineRows(ch, n)) == ChapterTotal(ch, n)
  {
    if n > 0 {
      LineRowsPrices(ch, n - 1);
      SumLinePricesAppend(LineRows(ch, n - 1), [LineRow(ch, n - 1)]);
      assert [LineRow(ch, n - 1)][..0] == [];
    }
  }

  /** The TOTAL row shows the sum of the prices of all line rows above it. */
  lemma {:induction false} GrandTotalSumsLines(chs: seq<SumChapter>)
    ensures SumLinePrices(Blocks(chs)) == GlobalTotal(chs)
    ensures At(Consolidated(chs)[|Blocks(chs)|].cells, 7) == CNum(SumLinePrices(Blocks(chs)))
  {
    if chs != [] {
      var init := chs[..|chs| - 1];
      var ch := chs[|chs| - 1];
      GrandTotalSumsLines(init);
      SumLinePricesAppend(Blocks(init), Block(ch));
      SumLinePricesAppend([HeaderRow(ch)], LineRows(ch, |ch.lines|));
      SumLinePricesAppend([HeaderRow(ch)] + LineRows(ch, |ch.lines|), [BlankRow()]);
      LineRowsPrices(ch, |ch.lines|);
      assert [HeaderRow(ch)][..0] == [] && [BlankRow()][..0] == [];
    }
  }

  /** The spans of the header rows, in order. */
  function Merges(rows: seq<SRow>): seq<Merge>
  {
    if rows == [] then []
    else Merges(rows[..|rows| - 1]) + (if rows[|rows| - 1].kind.Header? then [Merge(|rows| - 1, 9)] else [])
  }

  /** There is one nine-column span per header row and nothing else. */
  lemma {:induction false} MergesMeaning(rows: seq<SRow>, m: Merge)
    ensures m in Merges(rows) <==> m.colspan == 9 && m.row < |rows| && rows[m.row].kind.Header?
  {
    if rows != [] {
      var init := rows[..|rows| - 1];
      MergesMeaning(init, m);
      if m.row < |init| {
        assert rows[m.row] == init[m.row];
      }
    }
  }

  /** `dataMap` has an entry exactly for each line row, naming its chapter and line. */
  ghost predicate MapsLines(dataMap: map<nat, (string, nat)>, data: seq<SRow>)
  {
    (forall r: nat :: r in dataMap <==> r < |data| && data[r].kind.LineOf?)
    && (forall r: nat :: r in dataMap ==> r < |data| && dataMap[r] == (data[r].kind.chapterId, data[r].kind.lineIndex))
  }

  lemma {:induction false} MapsLinesPush(dataMap: map<nat, (string, nat)>, data: seq<SRow>, row: SRow)
    requires MapsLines(dataMap, data)
    ensures !row.kind.LineOf? ==> MapsLines(dataMap, data + [row])
    ensures row.kind.LineOf? ==> MapsLines(dataMap[|data| := (row.kind.chapterId, row.kind.lineIndex)], data + [row])
  {
    var d := data + [row];
    assert forall r: nat :: r < |data| ==> d[r] == data[r];
  }

  lemma {:induction false} MergesPush(rows: seq<SRow>, row: SRow)
    ensures Merges(rows + [row]) == Merges(rows) + (if row.kind.Header? then [Merge(|rows|, 9)] else [])
  {
    assert (rows + [row])[..|rows|] == rows;
  }

  /** What the loops of `processProjectData` keep: the spans and back references match the rows pushed. */
  ghost predicate Tracks(data: seq<SRow>, merged: seq<Merge>, dataMap: map<nat, (string, nat)>)
  {
    merged == Merges(data) && MapsLines(dataMap, data)
  }

  /** Pushing a row with its span (for a header) and its back reference (for a line) keeps the tracking. */
  lemma {:induction false} TracksPush(data: seq<SRow>, merged: seq<Merge>, dataMap: map<nat, (string, nat)>, row: SRow)
    requires Tracks(data, merged, dataMap)
    ensures Tracks(data + [row], merged + (if row.kind.Header? then [Merge(|data|, 9)] else []),
      if row.kind.LineOf? then dataMap[|data| := (row.kind.chapterId, row.kind.lineIndex)] else dataMap)
  {
    MapsLinesPush(dataMap, data, row);
    MergesPush(data, row);
  }

  lemma {:induction false} PrefixStep(chs: seq<SumChapter>, c: nat)
    requires c < |chs|
    ensures Blocks(chs[..c + 1]) == Blocks(chs[..c]) + Block(chs[c])
    ensures GlobalTotal(chs[..c + 1]) == GlobalTotal(chs[..c]) + ChapterTotal(chs[c], |chs[c].lines|)
  {
    assert chs[..c + 1][..c] == chs[..c];
  }

  /** The inner loop of `processProjectData`: one row and one back reference per line of the chapter. */
  method PushLines(ch: SumChapter, data0: seq<SRow>, merged: seq<Merge>, dataMap0: map<nat, (string, nat)>, total0: real)
    returns (data: seq<SRow>, dataMap: map<nat, (string, nat)>, total: real)
    requires Tracks(data0, merged, dataMap0)
    ensures data == data0 + LineRows(ch, |ch.lines|)
    ensures Tracks(data, merged, dataMap)
    ensures total == total0 + ChapterTotal(ch, |ch.lines|)
  {
    data, dataMap, total := data0, dataMap0, total0;
    for l := 0 to |ch.lines|
      invariant data == data0 + LineRows(ch, l) && Tracks(data, merged, dataMap)
      invariant total == total0 + ChapterTotal(ch, l)
    {
      var rowIndex := |data|;
      TracksPush(data, merged, dataMap, LineRow(ch, l));
      data := data + [LineRow(ch, l)];
      dataMap := dataMap[rowIndex := (ch.id, l)];
      total := total + ch.lines[l].totalPrice;
    }
  }

  /** The body of the chapter loop of `processProjectData`: the header with its span, the lines, the empty row. */
  method PushChapter(ch: SumChapter, data0: seq<SRow>, merged0: seq<Merge>, dataMap0: map<nat, (string, nat)>, total0: real)
    returns (data: seq<SRow>, merged: seq<Merge>, dataMap: map<nat, (string, nat)>, total: real)
    requires Tracks(data0, merged0, dataMap0)
    ensures data == data0 + Block(ch)
    ensures Tracks(data, merged, dataMap)
    ensures total == total0 + ChapterTotal(ch, |ch.lines|)
  {
    TracksPush(data0, merged0, dataMap0, HeaderRow(ch));
    merged := merged0 + [Merge(|data0|, 9)];
    data := data0 + [HeaderRow(ch)];
    data, dataMap, total := PushLines(ch, data, merged, dataMap0, total0);
    TracksPush(data, merged, dataMap, BlankRow());
    data := data + [BlankRow()];
  }

  /**
   * The loops of `processProjectData` on chapters already sorted: pushes the
   * rows, the spans and the back references, and sums `globalTotal`.
   */
  method Consolidate(chs: seq<SumChapter>) returns (data: seq<SRow>, merged: seq<Merge>, dataMap: map<nat, (string, nat)>)
    ensures data == Consolidated(chs)
    ensures merged == Merges(Blocks(chs)) + [Merge(|data| - 1, 7)]
    ensures forall r: nat :: r in dataMap <==> r < |data| && data[r].kind.LineOf?
    ensures forall r: nat :: r in dataMap ==> r < |data| && dataMap[r] == (data[r].kind.chapterId, data[r].kind.lineIndex)
  {
    data := [];
    merged := [];
    dataMap := map[];
    var globalTotal := 0.0;
    for c := 0 to |chs|
      invariant data == Blocks(chs[..c]) && Tracks(data, merged, dataMap)
      invariant globalTotal == GlobalTotal(chs[..c])
    {
      PrefixStep(chs, c);
      data, merged, dataMap, globalTotal := PushChapter(chs[c], data, merged, dataMap, globalTotal);
    }
    assert chs[..|chs|] == chs;
    TracksPush(data, merged, dataMap, TotalRow(globalTotal));
    merged := merged + [Merge(|data|, 7)];
    data := data + [TotalRow(globalTotal)];
  }

  /** The key `processProjectData` sorts by. */
  function NumOf(c: SumChapter): string
  {
    c.num
  }

  /** `processProjectData`: sorts the chapters in place by number (a stable sort), then lays them out. */
  method ProcessProjectData(chapters: array<SumChapter>) returns (data: seq<SRow>, merged: seq<Merge>, dataMap: map<nat, (string, nat)>)
    modifies chapters
    ensures StableSorted(chapters[..], old(chapters[..]), NumOf)
    ensures data == Consolidated(chapters[..])
    ensures merged == Merges(Blocks(chapters[..])) + [Merge(|data| - 1, 7)]
    ensures forall r: nat :: r in dataMap <==> r < |data| && data[r].kind.LineOf?
  {
    SortByNum(chapters, NumOf);
    data, merged, dataMap := Consolidate(chapters[..]);
  }

  // ---------------------------------------------------------------------------
  // Read-only cells and the edit filter
  // ---------------------------------------------------------------------------

  /** `isCellReadOnly`: headers, empty rows, the last row and the price column. */
  predicate IsCellReadOnly(data: seq<SRow>, row: nat, col: nat)
  {
    (row < |data| && (data[row].kind.Header? || data[row].kind.Blank? || data[row].kind.GrandTotal?))
    || row == |data| - 1
    || col == 7
  }

  /** Only the non-price cells of line rows can be edited. */
  lemma {:induction false} ReadOnlyMeaning(data: seq<SRow>, row: nat, col: nat)
    requires row < |data|
    ensures !IsCellReadOnly(data, row, col) <==> data[row].kind.LineOf? && row != |data| - 1 && col != 7
  {
  }

  /** `changes.filter(([row, col]) => !isCellReadOnly(row, col))`. */
  function Editable(data: seq<SRow>, changes: seq<CellChange>): (r: seq<CellChange>)
    ensures |r| <= |changes|
    ensures forall ch :: ch in r <==> ch in changes && !IsCellReadOnly(data, ch.row, ch.col)
  {
    if changes == [] then []
    else (if IsCellReadOnly(data, changes[0].row, changes[0].col) then [] else [changes[0]]) + Editable(data, changes[1..])
  }

  /** What `beforeChange` decides: let the edits through as they are, replace them by the editable ones, or cancel. */
  datatype Verdict = Pass | Filtered(kept: seq<CellChange>) | Cancel

  function BeforeChange(data: seq<SRow>, changes: Option<seq<CellChange>>, source: string): (v: Verdict)
    ensures changes.None? || source != "edit" ==> v == Pass
    ensures v.Filtered? ==> v.kept != [] && forall ch :: ch in v.kept <==> ch in changes.value && !IsCellReadOnly(data, ch.row, ch.col)
    ensures v == Cancel <==> changes.Some? && source == "edit" && forall ch :: ch in changes.value ==> IsCellReadOnly(data, ch.row, ch.col)
  {
    if changes.None? || source != "edit" then Pass
    else
      var kept := Editable(data, changes.value);
      if kept == [] then Cancel
      else
        assert kept[0] in kept;
        Filtered(kept)
  }

  // ---------------------------------------------------------------------------
  // Writing an edit back into the chapter tables
  // ---------------------------------------------------------------------------

  /** The edit re-prices the row when it changes the quantity or the unit price. */
  function Repriced(r: Row, col: nat): Row
  {
    if col == 5 || col == 6 then SetAt(r, 7, CNum(RealTimes(ParseNum(At(r, 5)), ParseNum(At(r, 6))))) else r
  }

  /** After a quantity or price edit the row's price is quantity times unit price, which are kept. */
  lemma {:induction false} RepricedPrice(r: Row, col: nat)
    requires col == 5 || col == 6
    ensures At(Repriced(r, col), 5) == At(r, 5) && At(Repriced(r, col), 6) == At(r, 6)
    ensures At(Repriced(r, col), 7) == CNum(RealTimes(ParseNum(At(r, 5)), ParseNum(At(r, 6))))
  {
  }

  /** A re-priced row shows as its price the total of the line read from it. */
  lemma {:induction false} RepricedLine(r: Row, col: nat)
    requires col == 5 || col == 6
    ensures At(Repriced(r, col), 7) == CNum(ToLine(Repriced(r, col)).totalPrice)
  {
    var r' := Repriced(r, col);
    RepricedPrice(r, col);
    var a5, a6 := At(r, 5), At(r, 6);
    assert At(r', 5) == a5 && At(r', 6) == a6;
    var l := ToLine(r');
    assert l.quantity == ParseNum(a5) && l.unitPrice == ParseNum(a6);
  }

  /** The rows a summary edit touches, as the source writes it: row `lineIndex` of the chapter table. */
  function WriteBackAsWritten(table: seq<Row>, lineIndex: nat, col: nat, v: Cell): seq<Row>
    requires lineIndex < |table|
  {
    table[lineIndex := Repriced(SetAt(table[lineIndex], col, v), col)]
  }

  /** The edit of the displayed line `lineIndex` goes to the table row that line was read from. */
  function WriteBack(table: seq<Row>, lineIndex: nat, col: nat, v: Cell): (t: seq<Row>)
    requires lineIndex < |NonTotal(table)|
    ensures |t| == |table|
    ensures forall i :: 0 <= i < |table| && i != RawIndex(table, lineIndex) ==> t[i] == table[i]
    ensures col != 7 ==> At(t[RawIndex(table, lineIndex)], col) == v
  {
    var i := RawIndex(table, lineIndex);
    table[i := Repriced(SetAt(table[i], col, v), col)]
  }

  /**
   * With a line labelled 'Total' in column Gr before the end, the summary shows
   * the next line at position 0, and an edit of it lands on the hidden row.
   */
  lemma {:induction false} WriteBackAsWrittenHitsHiddenRow()
    ensures var table := [[CStr("Total")], [CStr("a")], [CStr("Total")]];
      TableLines(table)[0].gr == CStr("a")
      && WriteBackAsWritten(table, 0, 2, CStr("x"))[0] != table[0]
      && WriteBackAsWritten(table, 0, 2, CStr("x"))[1] == table[1]
  {
    var table := [[CStr("Total")], [CStr("a")], [CStr("Total")]];
    RawIndexShifted();
    assert At(WriteBackAsWritten(table, 0, 2, CStr("x"))[0], 2) == CStr("x");
    assert At(table[0], 2) == CUndef;
  }

  /**
   * The corrected edit reads back: the lines read again from the table show the
   * new value at the same position, and after a quantity or unit price edit the
   * row's price is that line's new total.
   */
  lemma {:induction false} WriteBackHitsShownLine(table: seq<Row>, lineIndex: nat, col: nat, v: Cell)
    requires lineIndex < |NonTotal(table)| && col != 0 && col != 7
    ensures var t := WriteBack(table, lineIndex, col, v);
      lineIndex < |NonTotal(t)| && RawIndex(t, lineIndex) == RawIndex(table, lineIndex)
      && At(t[RawIndex(t, lineIndex)], col) == v
      && (col == 5 || col == 6 ==> At(t[RawIndex(t, lineIndex)], 7) == CNum(TableLines(t)[lineIndex].totalPrice))
  {
    var t := WriteBack(table, lineIndex, col, v);
    var i := RawIndex(table, lineIndex);
    assert t[..i] == table[..i];
    NonTotalSplit(table, i);
    NonTotalSplit(t, i);
    assert !IsTotalLabel(t[i]);
    RawIndexOfSplit(t, i, lineIndex);
    if col == 5 || col == 6 {
      var w := SetAt(table[i], col, v);
      assert t[i] == Repriced(w, col);
      RepricedLine(w, col);
      TableLinesAt(t, lineIndex);
    }
  }

  /** A kept row with `k` kept rows before it is the `k`-th kept row. */
  lemma {:induction false} RawIndexOfSplit(rows: seq<Row>, i: nat, k: nat)
    requires i < |rows| && !IsTotalLabel(rows[i]) && |NonTotal(rows[..i])| == k
    ensures k < |NonTotal(rows)| && RawIndex(rows, k) == i
  {
    NonTotalHead(rows);
    if i == 0 {
      assert rows[..0] == [];
    } else {
      var h := |Kept(rows[0])|;
      NonTotalPrefixHead(rows, i - 1);
      assert rows[1..][i - 1] == rows[i];
      RawIndexOfSplit(rows[1..], i - 1, k - h);
    }
  }

  /** `handleTableChange` acts on the change of a row that is a line with a chapter id. */
  predicate Applies(display: seq<SRow>, row: nat)
  {
    row < |display| && display[row].kind.LineOf? && display[row].kind.chapterId != ""
  }

  /**
   * The line a sheet row shows can be written back: the tables hold its chapter
   * and that chapter's table has the line. Otherwise the source throws: it spreads
   * an undefined table, or writes into an undefined row.
   */
  predicate Writable(tables: map<string, seq<Row>>, display: seq<SRow>, row: nat)
    requires Applies(display, row)
  {
    var kind := display[row].kind;
    kind.chapterId in tables && kind.lineIndex < |NonTotal(tables[kind.chapterId])|
  }

  predicate SameKinds(a: seq<SRow>, b: seq<SRow>)
  {
    |a| == |b| && forall i :: 0 <= i < |a| ==> a[i].kind == b[i].kind
  }

  /** The cells of the shown rows. */
  function CellsOf(display: seq<SRow>): (c: seq<Row>)
    ensures |c| == |display| && forall i :: 0 <= i < |c| ==> c[i] == display[i].cells
  {
    seq(|display|, i requires 0 <= i < |display| => display[i].cells)
  }

  /**
   * The grid shows `consolidatedData` itself (`data={consolidatedData}`), so it
   * has written every edit into the shown rows before it reports the edits.
   */
  function Entered(display: seq<SRow>, changes: seq<CellChange>): (d: seq<SRow>)
    requires InRange(changes, |display|)
    ensures SameKinds(d, display) && CellsOf(d) == WriteCells(CellsOf(display), changes)
  {
    var cells := WriteCells(CellsOf(display), changes);
    seq(|display|, i requires 0 <= i < |display| => SRow(cells[i], display[i].kind))
  }

  /** A shown cell holds the value of the last edit aimed at it. */
  lemma {:induction false} EnteredLast(display: seq<SRow>, changes: seq<CellChange>, k: nat)
    requires InRange(changes, |display|) && k < |changes|
    requires forall k2 :: k < k2 < |changes| ==> changes[k2].row != changes[k].row || changes[k2].col != changes[k].col
    ensures At(Entered(display, changes)[changes[k].row].cells, changes[k].col) == changes[k].value
  {
    assert Entered(display, changes)[changes[k].row].cells == WriteCells(CellsOf(display), changes)[changes[k].row];
    WriteCellsLast(CellsOf(display), changes, k);
  }

  /** A shown cell no edit aims at keeps its value. */
  lemma {:induction false} EnteredUntouched(display: seq<SRow>, changes: seq<CellChange>, row: nat, col: nat)
    requires InRange(changes, |display|) && row < |display|
    requires forall k :: 0 <= k < |changes| ==> changes[k].row != row || changes[k].col != col
    ensures At(Entered(display, changes)[row].cells, col) == At(display[row].cells, col)
  {
    assert Entered(display, changes)[row].cells == WriteCells(CellsOf(display), changes)[row];
    WriteCellsUntouched(CellsOf(display), changes, row, col);
  }

  /** Where the changes of `handleTableChange` have left the copied tables and the shown rows; `thrown` when it threw. */
  datatype Edited = Edited(tables: map<string, seq<Row>>, display: seq<SRow>, applied: bool, thrown: bool)

  /**
   * One change of `handleTableChange`: headers, empty rows and the TOTAL row are
   * skipped; a line edit goes back to the table row the line was read from, and
   * an edit of the quantity or unit price re-prices that row and the shown price.
   * A line whose chapter or table row is missing makes the handler throw.
   */
  function ApplyEdit(tables: map<string, seq<Row>>, display: seq<SRow>, ch: CellChange): (r: Edited)
    requires ch.row < |display|
    ensures r.tables.Keys == tables.Keys && SameKinds(r.display, display)
    ensures r.thrown <==> Applies(display, ch.row) && !Writable(tables, display, ch.row)
    ensures r.applied <==> Applies(display, ch.row) && !r.thrown
    ensures !r.applied ==> r.tables == tables && r.display == display
    ensures forall i :: 0 <= i < |display| && i != ch.row ==> r.display[i] == display[i]
    ensures r.applied ==>
      var id, k := display[ch.row].kind.chapterId, display[ch.row].kind.lineIndex;
      r.tables == tables[id := WriteBack(tables[id], k, ch.col, ch.value)]
      && (forall j: nat :: j != 7 ==> At(r.display[ch.row].cells, j) == At(display[ch.row].cells, j))
      && (ch.col == 5 || ch.col == 6 ==> At(r.display[ch.row].cells, 7) == At(r.tables[id][RawIndex(tables[id], k)], 7))
      && (ch.col != 5 && ch.col != 6 ==> r.display == display)
  {
    var kind := display[ch.row].kind;
    if !Applies(display, ch.row) then Edited(tables, display, false, false)
    else if !Writable(tables, display, ch.row) then Edited(tables, display, false, true)
    else
      var table := WriteBack(tables[kind.chapterId], kind.lineIndex, ch.col, ch.value);
      var i := RawIndex(tables[kind.chapterId], kind.lineIndex);
      var shown := if ch.col == 5 || ch.col == 6
        then display[ch.row := SRow(SetAt(display[ch.row].cells, 7, At(table[i], 7)), kind)]
        else display;
      Edited(tables[kind.chapterId := table], shown, true, false)
  }

  /**
   * The changes of one `afterChange`, the one after the other, until one throws;
   * `applied` says whether any of them was written back.
   */
  function ApplyEdits(tables: map<string, seq<Row>>, display: seq<SRow>, changes: seq<CellChange>): (r: Edited)
    requires InRange(changes, |display|)
    ensures r.tables.Keys == tables.Keys && SameKinds(r.display, display)
  {
    if changes == [] then Edited(tables, display, false, false)
    else
      var init := changes[..|changes| - 1];
      assert InRange(init, |display|);
      var p := ApplyEdits(tables, display, init);
      if p.thrown then p
      else
        var q := ApplyEdit(p.tables, p.display, changes[|changes| - 1]);
        Edited(q.tables, q.display, p.applied || q.applied, q.thrown)
  }

  /**
   * The changes are applied exactly when one aims at a line and none threw; a
   * throw comes from a line change, and a line of a chapter the tables do not
   * hold always throws; when nothing was applied nothing changed.
   */
  lemma {:induction false} ApplyEditsMeaning(tables: map<string, seq<Row>>, display: seq<SRow>, changes: seq<CellChange>)
    requires InRange(changes, |display|)
    ensures var r := ApplyEdits(tables, display, changes);
      (r.applied || r.thrown ==> AnyApplies(display, changes))
      && (!r.thrown ==> (r.applied <==> AnyApplies(display, changes)))
      && (!r.applied ==> r.tables == tables && r.display == display)
      && (AnyMissing(tables, display, changes) ==> r.thrown)
  {
    if changes != [] {
      var init := changes[..|changes| - 1];
      var last := changes[|changes| - 1];
      assert InRange(init, |display|);
      ApplyEditsMeaning(tables, display, init);
      AnyOfInit(tables, display, changes);
      var p := ApplyEdits(tables, display, init);
      if !p.thrown {
        assert Applies(p.display, last.row) == Applies(display, last.row);
        assert Applies(display, last.row) ==> p.display[last.row].kind == display[last.row].kind;
      }
    }
  }

  /** Some change aims at a line. */
  predicate AnyApplies(display: seq<SRow>, changes: seq<CellChange>)
  {
    exists k :: 0 <= k < |changes| && Applies(display, changes[k].row)
  }

  /** Some change aims at a line of a chapter the tables do not hold. */
  predicate AnyMissing(tables: map<string, seq<Row>>, display: seq<SRow>, changes: seq<CellChange>)
  {
    exists k :: 0 <= k < |changes| && Applies(display, changes[k].row) && display[changes[k].row].kind.chapterId !in tables
  }

  /** A change aims at a line when one of the earlier changes does or the last one does. */
  lemma {:induction false} AnyOfInit(tables: map<string, seq<Row>>, display: seq<SRow>, changes: seq<CellChange>)
    requires changes != []
    ensures var init, last := changes[..|changes| - 1], changes[|changes| - 1];
      (AnyApplies(display, changes) <==> AnyApplies(display, init) || Applies(display, last.row))
      && (AnyMissing(tables, display, changes) <==>
        AnyMissing(tables, display, init) || (Applies(display, last.row) && display[last.row].kind.chapterId !in tables))
  {
    var init := changes[..|changes| - 1];
    assert forall k :: 0 <= k < |init| ==> init[k] == changes[k];
    if AnyApplies(display, changes) {
      var k :| 0 <= k < |changes| && Applies(display, changes[k].row);
      if k < |init| {
        assert Applies(display, init[k].row);
      }
    }
    if AnyMissing(tables, display, changes) {
      var k :| 0 <= k < |changes| && Applies(display, changes[k].row) && display[changes[k].row].kind.chapterId !in tables;
      if k < |init| {
        assert Applies(display, init[k].row) && display[init[k].row].kind.chapterId !in tables;
      }
    }
  }

  /** A change that throws ends the `forEach`: the changes after it are not applied. */
  lemma {:induction false} ThrowEndsChanges(tables: map<string, seq<Row>>, display: seq<SRow>, changes: seq<CellChange>, k: nat)
    requires InRange(changes, |display|) && k <= |changes|
    requires ApplyEdits(tables, display, changes[..k]).thrown
    ensures ApplyEdits(tables, display, changes) == ApplyEdits(tables, display, changes[..k])
    decreases |changes|
  {
    if k < |changes| {
      var init := changes[..|changes| - 1];
      assert InRange(init, |display|);
      assert init[..k] == changes[..k];
      ThrowEndsChanges(tables, display, init, k);
    } else {
      assert changes[..k] == changes;
    }
  }

  /** The `forEach` of `handleTableChange`, which a throw ends. */
  method EditAll(tables: map<string, seq<Row>>, display: seq<SRow>, changes: seq<CellChange>)
    returns (updated: map<string, seq<Row>>, shown: seq<SRow>, hasChanges: bool, thrown: bool)
    requires InRange(changes, |display|)
    ensures Edited(updated, shown, hasChanges, thrown) == ApplyEdits(tables, display, changes)
  {
    updated, shown, hasChanges, thrown := tables, display, false, false;
    var k := 0;
    while k < |changes| && !thrown
      invariant 0 <= k <= |changes| && InRange(changes[..k], |display|)
      invariant Edited(updated, shown, hasChanges, thrown) == ApplyEdits(tables, display, changes[..k])
    {
      assert changes[..k + 1][..k] == changes[..k];
      var r := ApplyEdit(updated, shown, changes[k]);
      updated, shown := r.tables, r.display;
      hasChanges, thrown := hasChanges || r.applied, r.thrown;
      k := k + 1;
    }
    if thrown {
      ThrowEndsChanges(tables, display, changes, k);
    } else {
      assert changes[..k] == changes;
    }
  }

  /**
   * The layout of some chapters: they are stably sorted by number, then laid out
   * block by block, the grand total's label merged over the first seven
   * columns, and every line row recorded in the row map.
   */
  ghost predicate LaidOut(chs: seq<SumChapter>, sorted: seq<SumChapter>, data: seq<SRow>, merged: seq<Merge>, dataMap: map<nat, (string, nat)>)
  {
    StableSorted(sorted, chs, NumOf)
    && data == Consolidated(sorted)
    && merged == Merges(Blocks(sorted)) + [Merge(|data| - 1, 7)]
    && (forall r: nat :: r in dataMap <==> r < |data| && data[r].kind.LineOf?)
  }

  /** The chapters handed to `processProjectData` are a fresh array: it sorts them and lays them out. */
  method Summarize(chs: seq<SumChapter>) returns (sorted: seq<SumChapter>, data: seq<SRow>, merged: seq<Merge>, dataMap: map<nat, (string, nat)>)
    ensures LaidOut(chs, sorted, data, merged, dataMap)
  {
    var chapters := new SumChapter[|chs|](i requires 0 <= i < |chs| => chs[i]);
    assert chapters[..] == chs;
    data, merged, dataMap := ProcessProjectData(chapters);
    sorted := chapters[..];
  }

  class SummarySpreadsheetState {
    var consolidatedData: seq<SRow>
    var mergedCells: seq<Merge>
    var dataMap: map<nat, (string, nat)>
    var lastCheckedVersion: Option<string>
    /** The chapters last laid out, in the order they are shown. */
    ghost var chapters: seq<SumChapter>

    /** Mounting: nothing shown yet; the last seen version is the current one. */
    constructor(currentVersion: Option<string>)
      ensures consolidatedData == [] && mergedCells == [] && dataMap == map[]
      ensures lastCheckedVersion == currentVersion && chapters == []
    {
      chapters := [];
      consolidatedData := [];
      mergedCells := [];
      dataMap := map[];
      lastCheckedVersion := currentVersion;
    }

    /**
     * The data effect: when loading is over and there are both nodes and tables,
     * the tree is converted and laid out, with the chapters sorted by number.
     */
    method OnData(loading: bool, treeData: seq<Node>, tables: map<string, seq<Row>>)
      modifies this
      ensures lastCheckedVersion == old(lastCheckedVersion)
      ensures loading || treeData == [] || |tables| == 0 ==>
        consolidatedData == old(consolidatedData) && mergedCells == old(mergedCells) && dataMap == old(dataMap)
        && chapters == old(chapters)
      ensures !loading && treeData != [] && |tables| > 0 ==>
        LaidOut(Convert(treeData, tables), chapters, consolidatedData, mergedCells, dataMap)
    {
      if loading || treeData == [] || |tables| == 0 {
        return;
      }
      var sorted, data, merged, lines := Summarize(Convert(treeData, tables));
      consolidatedData, mergedCells, dataMap := data, merged, lines;
      chapters := sorted;
    }

    /**
     * `handleTableChange`, called once the grid has written the edits into the
     * shown rows: only user edits count; every change is written back into a copy
     * of the chapter tables, which is handed on when one was applied and none threw.
     * The chapter tables' own 'Total' rows and the grand TOTAL are not recomputed.
     */
    method HandleTableChange(tables: map<string, seq<Row>>, changes: Option<seq<CellChange>>, source: string)
      returns (published: Option<map<string, seq<Row>>>, thrown: bool)
      requires changes.Some? ==> InRange(changes.value, |consolidatedData|)
      modifies this
      ensures mergedCells == old(mergedCells) && dataMap == old(dataMap) && lastCheckedVersion == old(lastCheckedVersion)
      ensures chapters == old(chapters)
      ensures changes.None? ==> published == None && !thrown && consolidatedData == old(consolidatedData)
      ensures changes.Some? && (changes.value == [] || source != "edit") ==>
        published == None && !thrown && consolidatedData == Entered(old(consolidatedData), changes.value)
      ensures changes.Some? && changes.value != [] && source == "edit" ==>
        var r := ApplyEdits(tables, Entered(old(consolidatedData), changes.value), changes.value);
        consolidatedData == r.display && thrown == r.thrown
        && published == (if r.applied && !r.thrown then Some(r.tables) else None)
    {
      if changes.None? {
        return None, false;
      }
      consolidatedData := Entered(consolidatedData, changes.value);
      if changes.value == [] || source != "edit" {
        return None, false;
      }
      var updated, shown, hasChanges;
      updated, shown, hasChanges, thrown := EditAll(tables, consolidatedData, changes.value);
      consolidatedData := shown;
      published := if hasChanges && !thrown then Some(updated) else None;
    }

    /** `checkVersionChange`: a stored version other than the last one seen is remembered and asks for a refresh. */
    method CheckVersionChange(stored: Option<string>) returns (refresh: bool)
      modifies this
      ensures refresh <==> stored.Some? && stored.value != "" && stored != old(lastCheckedVersion)
      ensures lastCheckedVersion == if refresh then stored else old(lastCheckedVersion)
      ensures consolidatedData == old(consolidatedData) && mergedCells == old(mergedCells) && dataMap == old(dataMap)
      ensures chapters == old(chapters)
    {
      refresh := stored.Some? && stored.value != "" && stored != lastCheckedVersion;
      if refresh {
        lastCheckedVersion := stored;
      }
    }
  }

  /** A version change asks for one refresh: the next check that sees the same stored version does not. */
  method VersionChangeRefreshesOnce(s: SummarySpreadsheetState, stored: Option<string>) returns (first: bool, second: bool)
    modifies s
    ensures first <==> stored.Some? && stored.value != "" && stored != old(s.lastCheckedVersion)
    ensures !second
  {
    first := s.CheckVersionChange(stored);
    second := s.CheckVersionChange(stored);
  }
}
