/**
 * The Metre page's chapter tree component: it turns the full-project payload
 * into the nested chapter tree, one line table per chapter and one detail
 * table per line, hands out the table of the selected chapter, counts clicks
 * on a chapter (two select it, three start editing it), and applies the tree
 * edits of `TreeEdit` to its state.
 */
module MetreArbo {
  import opened Cells
  import opened ChapterTree
  import opened TreeBuild
  import opened TreeEdit
  import opened ProjectData

  // ---------------------------------------------------------------------------
  // Payload to tree and tables
  // ---------------------------------------------------------------------------

  /** `chapter.id.toString()`. */
  function ChapterKey(c: Chapter): string
  {
    IntToString(c.id)
  }

  /** `chapter.parentId ? chapter.parentId.toString() : null`: a parent id of 0 counts as none. */
  function ParentKey(c: Chapter): Option<string>
  {
    match c.parentId
    case None => None
    case Some(p) => if p == 0 then None else Some(IntToString(p))
  }

  function FlatChapter(c: Chapter): FlatNode
  {
    FlatNode(ChapterKey(c), c.num, c.caption, ParentKey(c))
  }

  function FlatChapters(chs: seq<ChapterWithLines>): (r: seq<FlatNode>)
    ensures |r| == |chs|
  {
    seq(|chs|, i requires 0 <= i < |chs| => FlatChapter(chs[i].chapter))
  }

  /** The line row `[gr, num, title, nm, unit, quantity, unitPrice, quantity * unitPrice, comments]`. */
  function LineRow(l: MainLine): Row
  {
    [CStr(l.gr), CStr(l.num), CStr(l.title), CStr(l.nm), CStr(l.unit),
     CNum(l.quantity), CNum(l.unitPrice), CNum(RealTimes(l.quantity, l.unitPrice)), CStr(l.comments)]
  }

  /** The synthetic last row of a line table: 'Total' with price 0. */
  function TotalLineRow(): Row
  {
    [CStr("Total"), CStr(""), CStr(""), CStr(""), CStr(""), CStr(""), CStr(""), CNum(0.0), CStr("")]
  }

  function DetailRow(d: DetailLine): Row
  {
    [CStr(d.title), CNum(d.number), CNum(d.length), CNum(d.width), CNum(d.height),
     CNum(d.factor), CNum(d.total), CStr(d.comments)]
  }

  /** `lineDetails.reduce((sum, d) => sum + d.total, 0)`. */
  function SumTotals(ds: seq<DetailLine>): real
  {
    if ds == [] then 0.0 else SumTotals(ds[..|ds| - 1]) + ds[|ds| - 1].total
  }

  function DetailTotalRow(sum: real): Row
  {
    [CStr("Total"), CStr(""), CStr(""), CStr(""), CStr(""), CStr(""), CNum(sum), CStr("")]
  }

  /** A chapter's line table: one row per line, priced, then the 'Total' row. */
  function ChapterTable(lines: seq<LineWithDetails>): (t: seq<Row>)
    ensures |t| == |lines| + 1
    ensures forall i :: 0 <= i < |lines| ==>
      |t[i]| == 9 && t[i][2] == CStr(lines[i].mainTableLine.title)
      && t[i][5] == CNum(lines[i].mainTableLine.quantity) && t[i][6] == CNum(lines[i].mainTableLine.unitPrice)
      && t[i][7] == CNum(RealTimes(lines[i].mainTableLine.quantity, lines[i].mainTableLine.unitPrice))
    ensures |t[|lines|]| == 9 && t[|lines|][0] == CStr("Total") && t[|lines|][7] == CNum(0.0)
  {
    var rows := seq(|lines|, i requires 0 <= i < |lines| => LineRow(lines[i].mainTableLine));
    var t := rows + [TotalLineRow()];
    assert forall i :: 0 <= i < |lines| ==> t[i] == LineRow(lines[i].mainTableLine);
    t
  }

  /** A line's detail table: its detail rows, then a 'Total' row holding the sum of their totals. */
  function DetailTable(ds: seq<DetailLine>): (t: seq<Row>)
    ensures |t| == |ds| + 1
    ensures forall i :: 0 <= i < |ds| ==> t[i] == DetailRow(ds[i]) && t[i][6] == CNum(ds[i].total)
    ensures |t[|ds|]| == 8 && t[|ds|][0] == CStr("Total") && t[|ds|][6] == CNum(SumTotals(ds))
  {
    seq(|ds|, i requires 0 <= i < |ds| => DetailRow(ds[i])) + [DetailTotalRow(SumTotals(ds))]
  }

  /** The detail-table key `${chapterId}::${title}`. */
  function LineKey(chapterId: string, l: MainLine): string
  {
    chapterId + "::" + l.title
  }

  /** The rows of the first `l + 1` lines extend those of the first `l`. */
  lemma {:induction false} LineRowsStep(lines: seq<LineWithDetails>, l: nat, rows: seq<Row>)
    requires l < |lines|
    requires rows == seq(l, i requires 0 <= i < l => LineRow(lines[i].mainTableLine))
    ensures rows + [LineRow(lines[l].mainTableLine)] == seq(l + 1, i requires 0 <= i < l + 1 => LineRow(lines[i].mainTableLine))
  {
  }

  /** Writing the pairs of `kv` into the dictionary `acc` one after the other. */
  function Writes<K, V>(acc: map<K, V>, kv: seq<(K, V)>): map<K, V>
  {
    if kv == [] then acc else Writes(acc, kv[..|kv| - 1])[kv[|kv| - 1].0 := kv[|kv| - 1].1]
  }

  lemma {:induction false} WritesStep<K, V>(acc: map<K, V>, kv: seq<(K, V)>, n: nat)
    requires n < |kv|
    ensures Writes(acc, kv[..n + 1]) == Writes(acc, kv[..n])[kv[n].0 := kv[n].1]
  {
    assert kv[..n + 1][..n] == kv[..n];
  }

  /** After a sequence of writes a key is present when it was or when it was written; the last write wins. */
  lemma {:induction false} WritesMeaning<K, V>(acc: map<K, V>, kv: seq<(K, V)>, k: K)
    ensures k in Writes(acc, kv) <==> k in acc || exists i :: 0 <= i < |kv| && kv[i].0 == k
    ensures forall i :: (0 <= i < |kv| && kv[i].0 == k && forall j :: i < j < |kv| ==> kv[j].0 != k) ==>
      Writes(acc, kv)[k] == kv[i].1
    ensures (forall i :: 0 <= i < |kv| ==> kv[i].0 != k) && k in acc ==> Writes(acc, kv)[k] == acc[k]
  {
    if kv != [] {
      var init := kv[..|kv| - 1];
      WritesMeaning(acc, init, k);
      assert forall i :: 0 <= i < |init| ==> init[i] == kv[i];
    }
  }

  /** The writes of several groups one group after the other. */
  function NestedWrites<K, V>(groups: seq<seq<(K, V)>>, n: nat): map<K, V>
    requires n <= |groups|
  {
    if n == 0 then map[] else Writes(NestedWrites(groups, n - 1), groups[n - 1])
  }

  /** Write `(c2, l2)` comes after write `(c, l)`: in a later group, or later in the same group. */
  predicate After(c: nat, l: nat, c2: nat, l2: nat)
  {
    c < c2 || (c == c2 && l < l2)
  }

  lemma {:induction false} NestedWritesMeaning<K, V>(groups: seq<seq<(K, V)>>, n: nat, k: K)
    requires n <= |groups|
    ensures k in NestedWrites(groups, n) <==>
      exists c, l :: 0 <= c < n && 0 <= l < |groups[c]| && groups[c][l].0 == k
    ensures forall c, l :: (0 <= c < n && 0 <= l < |groups[c]| && groups[c][l].0 == k
      && forall c2, l2 :: 0 <= c2 < n && 0 <= l2 < |groups[c2]| && After(c, l, c2, l2) ==> groups[c2][l2].0 != k) ==>
      NestedWrites(groups, n)[k] == groups[c][l].1
  {
    if n > 0 {
      var last := groups[n - 1];
      NestedWritesMeaning(groups, n - 1, k);
      WritesMeaning(NestedWrites(groups, n - 1), last, k);
      forall c, l | 0 <= c < n && 0 <= l < |groups[c]| && groups[c][l].0 == k
        && forall c2, l2 :: 0 <= c2 < n && 0 <= l2 < |groups[c2]| && After(c, l, c2, l2) ==> groups[c2][l2].0 != k
        ensures NestedWrites(groups, n)[k] == groups[c][l].1
      {
        if c < n - 1 {
          forall l2 | 0 <= l2 < |last| ensures last[l2].0 != k {
            assert After(c, l, n - 1, l2);
          }
        }
      }
      if k in NestedWrites(groups, n) && k !in NestedWrites(groups, n - 1) {
        var l :| 0 <= l < |last| && last[l].0 == k;
        assert groups[n - 1][l].0 == k;
      }
    }
  }

  /** The `tables[chapterId] = ...` writes, one per chapter. */
  function TableWrites(chs: seq<ChapterWithLines>): (kv: seq<(string, seq<Row>)>)
    ensures |kv| == |chs|
  {
    seq(|chs|, c requires 0 <= c < |chs| => (ChapterKey(chs[c].chapter), ChapterTable(chs[c].lines)))
  }

  /** The `details[lineKey] = ...` writes of one chapter, one per line. */
  function LineWrites(ch: ChapterWithLines): (kv: seq<(string, seq<Row>)>)
    ensures |kv| == |ch.lines|
  {
    var cid := ChapterKey(ch.chapter);
    seq(|ch.lines|, l requires 0 <= l < |ch.lines| => (LineKey(cid, ch.lines[l].mainTableLine), DetailTable(ch.lines[l].details)))
  }

  function DetailGroups(chs: seq<ChapterWithLines>): (g: seq<seq<(string, seq<Row>)>>)
    ensures |g| == |chs|
  {
    seq(|chs|, c requires 0 <= c < |chs| => LineWrites(chs[c]))
  }

  /** The tables dictionary the payload effect builds. */
  function Tables(chs: seq<ChapterWithLines>): map<string, seq<Row>>
  {
    Writes(map[], TableWrites(chs))
  }

  /** The details dictionary the payload effect builds. */
  function Details(chs: seq<ChapterWithLines>): map<string, seq<Row>>
  {
    NestedWrites(DetailGroups(chs), |chs|)
  }

  /** The key of line `l` of chapter `c`. */
  function KeyAt(chs: seq<ChapterWithLines>, c: nat, l: nat): string
    requires c < |chs| && l < |chs[c].lines|
  {
    LineKey(ChapterKey(chs[c].chapter), chs[c].lines[l].mainTableLine)
  }

  /**
   * The tables dictionary has an entry exactly for the ids of the chapters, and
   * the entry of an id is the table of the last chapter carrying it.
   */
  lemma {:induction false} TablesLookup(chs: seq<ChapterWithLines>, c: nat)
    requires c < |chs|
    requires forall c' :: c < c' < |chs| ==> ChapterKey(chs[c'].chapter) != ChapterKey(chs[c].chapter)
    ensures ChapterKey(chs[c].chapter) in Tables(chs)
    ensures Tables(chs)[ChapterKey(chs[c].chapter)] == ChapterTable(chs[c].lines)
  {
    var kv := TableWrites(chs);
    var k := ChapterKey(chs[c].chapter);
    WritesMeaning(map[], kv, k);
    assert kv[c] == (k, ChapterTable(chs[c].lines));
    assert forall j :: c < j < |kv| ==> kv[j].0 == ChapterKey(chs[j].chapter);
  }

  lemma {:induction false} TablesKeys(chs: seq<ChapterWithLines>, k: string)
    ensures k in Tables(chs) <==> exists c :: 0 <= c < |chs| && ChapterKey(chs[c].chapter) == k
  {
    var kv := TableWrites(chs);
    WritesMeaning(map[], kv, k);
    assert forall c :: 0 <= c < |chs| ==> kv[c].0 == ChapterKey(chs[c].chapter);
  }

  /**
   * The details dictionary has an entry exactly for the keys `${chapterId}::${title}`
   * of the lines, and the entry of a key is the detail table of the last line
   * carrying it.
   */
  lemma {:induction false} DetailsLookup(chs: seq<ChapterWithLines>, c: nat, l: nat)
    requires c < |chs| && l < |chs[c].lines|
    requires forall c2, l2 :: 0 <= c2 < |chs| && 0 <= l2 < |chs[c2].lines| && After(c, l, c2, l2) ==>
      KeyAt(chs, c2, l2) != KeyAt(chs, c, l)
    ensures KeyAt(chs, c, l) in Details(chs)
    ensures Details(chs)[KeyAt(chs, c, l)] == DetailTable(chs[c].lines[l].details)
  {
    var g := DetailGroups(chs);
    var k := KeyAt(chs, c, l);
    NestedWritesMeaning(g, |chs|, k);
    assert g[c][l] == (k, DetailTable(chs[c].lines[l].details));
    forall c2, l2 | 0 <= c2 < |chs| && 0 <= l2 < |g[c2]| && After(c, l, c2, l2)
      ensures g[c2][l2].0 != k
    {
      assert g[c2][l2].0 == KeyAt(chs, c2, l2);
    }
  }

  lemma {:induction false} DetailsKeys(chs: seq<ChapterWithLines>, k: string)
    ensures k in Details(chs) <==> exists c, l :: 0 <= c < |chs| && 0 <= l < |chs[c].lines| && KeyAt(chs, c, l) == k
  {
    var g: seq<seq<(string, seq<Row>)>> := DetailGroups(chs);
    NestedWritesMeaning(g, |chs|, k);
    assert forall c: nat, l: nat :: c < |chs| && l < |chs[c].lines| ==> g[c][l].0 == KeyAt(chs, c, l);
  }

  /**
   * The payload loop filling both dictionaries: for each chapter its line table
   * under the chapter id, and for each of its lines the detail table under the
   * line key.
   */
  method BuildTables(chs: seq<ChapterWithLines>) returns (tables: map<string, seq<Row>>, details: map<string, seq<Row>>)
    ensures tables == Tables(chs) && details == Details(chs)
  {
    tables := map[];
    details := map[];
    ghost var groups := DetailGroups(chs);
    var c := 0;
    while c < |chs|
      invariant 0 <= c <= |chs|
      invariant tables == Writes(map[], TableWrites(chs)[..c])
      invariant details == NestedWrites(groups, c)
    {
      var chapterId := ChapterKey(chs[c].chapter);
      var mainLines;
      mainLines, details := FillChapter(chs[c], details);
      WritesStep(map[], TableWrites(chs), c);
      tables := tables[chapterId := mainLines + [TotalLineRow()]];
      c := c + 1;
    }
    assert TableWrites(chs)[..|chs|] == TableWrites(chs);
  }

  /** The inner loop of the payload effect: one chapter's line rows, and one detail table per line written into `details`. */
  method FillChapter(ch: ChapterWithLines, details0: map<string, seq<Row>>) returns (mainLines: seq<Row>, details: map<string, seq<Row>>)
    ensures mainLines + [TotalLineRow()] == ChapterTable(ch.lines)
    ensures details == Writes(details0, LineWrites(ch))
  {
    var chapterId := ChapterKey(ch.chapter);
    var lines := ch.lines;
    ghost var kv := LineWrites(ch);
    mainLines := [];
    details := details0;
    var l := 0;
    while l < |lines|
      invariant 0 <= l <= |lines|
      invariant mainLines == seq(l, i requires 0 <= i < l => LineRow(lines[i].mainTableLine))
      invariant details == Writes(details0, kv[..l])
    {
      var line := lines[l].mainTableLine;
      var lineKey := chapterId + "::" + line.title;
      WritesStep(details0, kv, l);
      details := details[lineKey := DetailTable(lines[l].details)];
      LineRowsStep(lines, l, mainLines);
      mainLines := mainLines + [LineRow(line)];
      l := l + 1;
    }
    assert kv[..|lines|] == kv;
  }

  // ---------------------------------------------------------------------------
  // The default table of a chapter without lines
  // ---------------------------------------------------------------------------

  /** The default table as the source writes it: its first row has ten cells. */
  function DefaultTableAsWritten(): seq<Row>
  {
    [[CStr(""), CStr(""), CStr(""), CStr(""), CStr(""), CStr(""), CNum(0.0), CNum(0.0), CNum(0.0), CStr("")],
     TotalLineRow()]
  }

  /** The default table with the nine-column line layout: an empty line with quantity, unit price and price 0. */
  function DefaultTable(): seq<Row>
  {
    [[CStr(""), CStr(""), CStr(""), CStr(""), CStr(""), CNum(0.0), CNum(0.0), CNum(0.0), CStr("")],
     TotalLineRow()]
  }

  /**
   * The default line row as written is one cell too wide: the quantity column
   * holds '' instead of 0 and the comments column holds 0 instead of ''.
   */
  lemma {:induction false} DefaultTableAsWrittenMisaligned()
    ensures |DefaultTableAsWritten()[0]| == 10 != |TotalLineRow()|
    ensures DefaultTableAsWritten()[0][5] == CStr("") && DefaultTableAsWritten()[0][8] == CNum(0.0)
  {
  }

  /** The corrected default rows have the line layout: nine cells, numbers in columns 5 to 7, text elsewhere. */
  lemma {:induction false} DefaultTableAligned()
    ensures forall r :: r in DefaultTable() ==> |r| == 9
    ensures DefaultTable()[0][5] == CNum(0.0) && DefaultTable()[0][6] == CNum(0.0) && DefaultTable()[0][7] == CNum(0.0)
    ensures DefaultTable()[0][8] == CStr("")
    ensures DefaultTable()[1] == TotalLineRow()
  {
  }

  // ---------------------------------------------------------------------------
  // The component state
  // ---------------------------------------------------------------------------

  class MetreArboState {
    var treeData: seq<Node>
    var tableDataMap: map<string, seq<Row>>
    var detailDataMap: map<string, seq<Row>>
    var selectedKey: Option<string>
    var editingKey: Option<string>
    var clickCountMap: map<string, nat>

    /** A click count never stays above 2: the third click resets it. */
    predicate Valid()
      reads this
    {
      forall k :: k in clickCountMap ==> clickCountMap[k] <= 2
    }

    constructor()
      ensures Valid()
      ensures treeData == [] && tableDataMap == map[] && detailDataMap == map[]
      ensures selectedKey == None && editingKey == None && clickCountMap == map[]
    {
      treeData := [];
      tableDataMap := map[];
      detailDataMap := map[];
      selectedKey := None;
      editingKey := None;
      clickCountMap := map[];
    }

    /**
     * The effect on the backend data: nothing while there is none; otherwise the
     * tree is rebuilt from the chapters and both dictionaries are replaced.
     */
    method LoadProject(data: Option<ProjectFull>)
      modifies this
      ensures data.None? ==> unchanged(this)
      ensures data.Some? ==>
        treeData == Forest(FlatChapters(data.value.chapters))
        && tableDataMap == Tables(data.value.chapters)
        && detailDataMap == Details(data.value.chapters)
      ensures selectedKey == old(selectedKey) && editingKey == old(editingKey) && clickCountMap == old(clickCountMap)
    {
      if data.None? {
        return;
      }
      var chs := data.value.chapters;
      var flat := FlatChapters(chs);
      var roots, children := BuildTreeFromFlatData(flat);

      var tables, details := BuildTables(chs);
      treeData := Unfold(flat, roots, |flat|);
      tableDataMap := tables;
      detailDataMap := details;
    }

    /** The table of a chapter; a chapter without one gets the default table, which is also stored. */
    method GetOrCreateTableData(key: string) returns (rows: seq<Row>)
      modifies this
      ensures rows == if key in old(tableDataMap) then old(tableDataMap)[key] else DefaultTable()
      ensures tableDataMap == old(tableDataMap)[key := rows]
      ensures treeData == old(treeData) && detailDataMap == old(detailDataMap)
      ensures selectedKey == old(selectedKey) && editingKey == old(editingKey) && clickCountMap == old(clickCountMap)
    {
      if key !in tableDataMap {
        var defaultData := DefaultTable();
        tableDataMap := tableDataMap[key := defaultData];
        return defaultData;
      }
      return tableDataMap[key];
    }

    /**
     * A click on a chapter: the second click in a row selects it (and starts the
     * 400 ms timer that calls `ClickTimerElapsed`), the third starts editing it
     * and resets the count.
     */
    method HandleClick(key: string)
      requires Valid()
      modifies this
      ensures Valid()
      ensures var n := (if key in old(clickCountMap) then old(clickCountMap)[key] else 0) + 1;
        && (n == 2 ==> selectedKey == Some(key) && editingKey == old(editingKey) && clickCountMap == old(clickCountMap)[key := 2])
        && (n >= 3 ==> editingKey == Some(key) && selectedKey == old(selectedKey) && clickCountMap == old(clickCountMap)[key := 0])
        && (n < 2 ==> selectedKey == old(selectedKey) && editingKey == old(editingKey) && clickCountMap == old(clickCountMap)[key := n])
      ensures treeData == old(treeData) && tableDataMap == old(tableDataMap) && detailDataMap == old(detailDataMap)
    {
      var newCount := (if key in clickCountMap then clickCountMap[key] else 0) + 1;
      clickCountMap := clickCountMap[key := newCount];
      if newCount == 2 {
        selectedKey := Some(key);
      } else if newCount >= 3 {
        editingKey := Some(key);
        clickCountMap := clickCountMap[key := 0];
      }
    }

    /** The 400 ms timer started by a second click resets that chapter's count. */
    method ClickTimerElapsed(key: string)
      requires Valid()
      modifies this
      ensures Valid()
      ensures clickCountMap == old(clickCountMap)[key := 0]
      ensures treeData == old(treeData) && tableDataMap == old(tableDataMap) && detailDataMap == old(detailDataMap)
      ensures selectedKey == old(selectedKey) && editingKey == old(editingKey)
    {
      clickCountMap := clickCountMap[key := 0];
    }

    /** Entering a new number and label for the chapter being edited ends the editing. */
    method EditNode(key: string, newNum: string, newCaption: string)
      modifies this
      ensures treeData == UpdateNodeInfo(key, newNum, newCaption, old(treeData)) && editingKey == None
      ensures tableDataMap == old(tableDataMap) && detailDataMap == old(detailDataMap)
      ensures selectedKey == old(selectedKey) && clickCountMap == old(clickCountMap)
    {
      treeData := UpdateNodeInfo(key, newNum, newCaption, treeData);
      editingKey := None;
    }

    /** The add button of a chapter; `newKey` is the fresh uuid. */
    method AddChild(parentKey: string, newKey: string)
      modifies this
      ensures treeData == AddChildNode(parentKey, newKey, old(treeData))
      ensures tableDataMap == old(tableDataMap) && detailDataMap == old(detailDataMap)
      ensures selectedKey == old(selectedKey) && editingKey == old(editingKey) && clickCountMap == old(clickCountMap)
    {
      treeData := AddChildNode(parentKey, newKey, treeData);
    }

    /** The delete button of a chapter; its table and detail tables stay in the dictionaries. */
    method Delete(key: string)
      modifies this
      ensures treeData == DeleteNode(key, old(treeData))
      ensures tableDataMap == old(tableDataMap) && detailDataMap == old(detailDataMap)
      ensures selectedKey == old(selectedKey) && editingKey == old(editingKey) && clickCountMap == old(clickCountMap)
    {
      treeData := DeleteNode(key, treeData);
    }

    /** `addMainChapter`: one new root after the existing ones; `newKey` is the fresh uuid. */
    method AddMainChapter(newKey: string)
      modifies this
      ensures treeData == old(treeData) + [NewChapter(newKey, old(treeData))]
      ensures tableDataMap == old(tableDataMap) && detailDataMap == old(detailDataMap)
      ensures selectedKey == old(selectedKey) && editingKey == old(editingKey) && clickCountMap == old(clickCountMap)
    {
      treeData := treeData + [NewChapter(newKey, treeData)];
    }
  }

  /** Three clicks in a row on a chapter, with no timer in between, start editing it. */
  method ThreeClicksEdit(s: MetreArboState, key: string)
    requires s.Valid() && key !in s.clickCountMap
    modifies s
    ensures s.editingKey == Some(key) && s.selectedKey == Some(key)
    ensures key in s.clickCountMap && s.clickCountMap[key] == 0
  {
    s.HandleClick(key);
    s.HandleClick(key);
    s.HandleClick(key);
  }
}
