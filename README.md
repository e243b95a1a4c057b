# Bill of quantities: chapter tree, quantity tables, recap and project sync

This project models the core of a construction-estimating application
(a "métré": a bill of quantities) and proves properties of that model.

A project is a tree of chapters. Each chapter owns a table of lines:
- gr, number, title, nm, unit, quantity, unit price, price and comments.

Each line owns a table of detail rows:
- designation, number, length, width, height, factor, total and comments.

The model covers six parts of the system:

- **The quantities page.**
  - `MetreArbo` rebuilds the chapter tree from the backend payload.
  - It fills the dictionaries of chapter tables and detail tables, and edits the tree: renumbering, adding, deleting and the three-click edit.
  - `MetreTable` keeps a chapter table priced, with its total row re-summed after every edit, addition and deletion.
  - `MetreDetailTable` keeps a detail table's totals.
- **The recap pages.**
  - `Summary` rolls the chapter totals up the tree.
  - `SummarySpecifications` flattens the tree and sorts the chapter texts by number.
  - `SummarySpreadsheet` converts the tree into chapters, lays them out as one consolidated sheet, and filters and writes back the edits made on it.
- **Change signalling between pages.** `MetreUpdates` covers:
  - the in-window event bus;
  - the throttled trackers and listeners;
  - the modification and refresh records;
  - the read path of the stored project data.
- **Numeric conversion.** `NumericValues` models the conversion of stored project data to numbers. The source has two identical copies of `ensureNumericValues`, and one model covers both.
- **Chapter texts.** `ChapterStorage` models the per-key store of chapter texts.
- **The backend.** `ProjectController` and `ProjectRepository` model the full-project read and the full-project synchronisation. The synchronisation covers:
  - saving chapters;
  - resolving parents through temporary ids;
  - synchronising lines and details;
  - the recursive deletion of chapters that were not sent.

Shared modules:
- `Cells`: JavaScript cell values and the number readings `parseFloat`, `parseInt` and `Number`.
- `Grid`: cell edits, column sums and the filter that drops a chapter table's 'Total' rows.
- `ChapterTree`: tree paths and pre-order flattening.
- `NumOrder`: a model of the numeric collation `localeCompare(…, {numeric: true})`, and a stable in-place sort by it. The model agrees with the collation on numbers made of digit runs and dots, which is the form the pages give chapter numbers; see "## Left out" for the rest.
- `TreeBuild`: the flat-to-tree construction.
- `TreeEdit`: the pure tree edits.
- `ProjectData`: the backend records.

Modelling conventions:
- Component state becomes a class whose fields the methods update.
- Pure helpers become functions with lemmas.
- Loops become methods with invariants proved against those functions.
- The clock, `uuidv4()`, the browser store and storage events are parameters of the methods that use them.

## Model

| member | source | states |
|---|---|---|
| `Cells.SetAt` | frontend/src/pages/metre/MetreTable.tsx:122 | a write past the end pads with undefined; the written index reads back the value, every other index keeps its old value |
| `Cells.DigitRun` | frontend/src/pages/metre/MetreTable.tsx:54 | the digit run read at the start of a text is all digits and is followed by a non-digit |
| `Cells.NatToStringDigits` | frontend/src/pages/metre/MetreArbo.tsx:274 | `String(n)` is a non-empty digit string without a leading zero whose value is `n` |
| `Cells.NatToStringInjective` | frontend/src/pages/metre/MetreArbo.tsx:274 | different numbers have different decimal texts |
| `Cells.TrimStart` | frontend/src/pages/metre/MetreArbo.tsx:272 | the trimmed text is a suffix of the input that does not start with white space, and every character removed before it is white space |
| `Cells.TrimEnd` | frontend/src/hooks/useMetreUpdates.ts:409 | `Number` first trims its text; the end-trimmed text is a prefix of the input that does not end with white space, and every character removed after it is white space |
| `Cells.RadixRun` | frontend/src/pages/metre/MetreArbo.tsx:272 | the run of digits of a radix at the start of a text is made of such digits and ends at the text's end or at a character that is not one |
| `Cells.RadixPrefix` | frontend/src/hooks/useProjectDataStorage.ts:23 | `0x`, `0o` and `0b` (either case) name radix 16, 8 and 2; any other start names none |
| `Cells.ParseIntOfIntToString` | frontend/src/pages/metre/MetreArbo.tsx:272-274 | `parseInt(String(i))` is `i` for every integer, negative ones included |
| `Cells.ParseIntOfDigits` | frontend/src/pages/metre/MetreArbo.tsx:272 | `parseInt` of a digit string is the value of its digits |
| `Cells.DecimalPrefixOfDigits` | frontend/src/pages/metre/MetreTable.tsx:54-55 | a digit string is read in full as a decimal literal |
| `Cells.StringToNumberOfDigits` | frontend/src/hooks/useProjectDataStorage.ts:23 | `Number` of a digit string is the value of its digits |
| `Cells.StringToNumberOfWord` | frontend/src/hooks/useProjectDataStorage.ts:23 | `Number` of text that starts with neither a sign, a digit nor a point, and is not `Infinity`, is NaN |
| `Cells.HexLiteral` | frontend/src/hooks/useProjectDataStorage.ts:23 | `Number("0x1F")` is 31 |
| `Cells.OctalLiteral` | frontend/src/hooks/useProjectDataStorage.ts:23 | `Number("0o17")` is 15 |
| `Cells.BinaryLiteral` | frontend/src/hooks/useProjectDataStorage.ts:23 | `Number("0b101")` is 5 |
| `Cells.IndexOf` | frontend/src/pages/metre/MetreTable.tsx:241 | the position found holds the separator and no earlier position does; none is found only when the separator occurs nowhere |
| `Cells.Split` | frontend/src/pages/metre/MetreTable.tsx:241 | `split` always yields at least one part |
| `Cells.SplitJoin` | frontend/src/pages/metre/MetreTable.tsx:241 | joining the parts of `split` with the separator gives the text back |
| `Cells.SplitParts` | frontend/src/pages/metre/MetreTable.tsx:241 | `split` cuts at every occurrence: no part holds the separator |
| `Grid.SumColAppend` | frontend/src/pages/metre/MetreTable.tsx:59-61 | the column sum over two row lists is the sum of their sums |
| `Grid.SumColSame` | frontend/src/pages/metre/MetreTable.tsx:100-107 | the column sum depends on that column alone |
| `Grid.WriteCell` | frontend/src/pages/metre/MetreDetailTable.tsx:72-75 | one edit changes one cell: the edited cell holds the new value, every other cell and row is unchanged |
| `Grid.WriteCellsUntouched` | frontend/src/pages/metre/MetreDetailTable.tsx:72-75 | a cell no edit aims at keeps its value |
| `Grid.WriteCellsLast` | frontend/src/pages/metre/MetreDetailTable.tsx:72-75 | after several edits a cell holds the value of the last edit aimed at it |
| `Grid.NonTotal` | frontend/src/pages/summary/SummarySpreadsheet.tsx:231 | the filter never adds rows |
| `Grid.NonTotalMembers` | frontend/src/pages/summary/SummarySpreadsheet.tsx:231 | the filter keeps exactly the rows not labelled 'Total' |
| `ChapterTree.FlattenTreeNodes` | frontend/src/pages/summary/SummarySpecifications.tsx:48-59 | the loop yields the pre-order list: each node, then its subtree, then the next sibling |
| `ChapterTree.FlattenConcat` | frontend/src/pages/summary/SummarySpecifications.tsx:48-59 | flattening two forests one after the other is flattening them together |
| `ChapterTree.FlattenAt` | frontend/src/pages/summary/SummarySpecifications.tsx:48-59 | every node of the tree, at any depth, appears in the list at its pre-order position |
| `ChapterTree.FlattenOnto` | frontend/src/pages/summary/SummarySpecifications.tsx:48-59 | every element of the list is the node of some path: the list adds nothing |
| `ChapterTree.PreIndexOrder` | frontend/src/pages/summary/SummarySpecifications.tsx:48-59 | the list orders nodes in path pre-order: ancestors before descendants, earlier siblings first |
| `ChapterTree.AncestorFirst` | frontend/src/pages/summary/SummarySpecifications.tsx:50-55 | a chapter comes before every chapter below it |
| `ChapterTree.PreIndexInjective` | frontend/src/pages/summary/SummarySpecifications.tsx:48-59 | different paths have different positions: each node is listed exactly once |
| `ChapterTree.PathBeforeTotal` | frontend/src/pages/summary/SummarySpecifications.tsx:48-59 | pre-order compares any two distinct paths |
| `ChapterTree.KeysAt` | frontend/src/pages/metre/MetreArbo.tsx:127-136 | every node reached by a path carries a key of the forest |
| `NumOrder.TokenTrichotomy` | frontend/src/pages/metre/MetreArbo.tsx:211 | the token order of the collation is strict and total |
| `NumOrder.LexLeTotal` | frontend/src/pages/metre/MetreArbo.tsx:211 | any two token sequences compare one way or the other |
| `NumOrder.LexLeTrans` | frontend/src/pages/metre/MetreArbo.tsx:211 | the lexicographic order is transitive |
| `NumOrder.NumLeTotalPreorder` | frontend/src/pages/metre/MetreArbo.tsx:211 | the numeric collation is reflexive, total and transitive, which any sort by it needs |
| `NumOrder.NumLeRuns` | frontend/src/pages/metre/MetreArbo.tsx:211 | chapter numbers compare by the value of their digit runs: "2" before "10" and not the other way |
| `NumOrder.NumLeDotted` | frontend/src/pages/metre/MetreArbo.tsx:211 | runs after a separator compare by value: "1.2" before "1.10" and not the other way |
| `NumOrder.NumLePrefix` | frontend/src/pages/metre/MetreArbo.tsx:211 | a number comes before its sub-numbers: "1" before "1.1" and not the other way |
| `NumOrder.SortByNum` | frontend/src/pages/metre/MetreArbo.tsx:211 | sorts an array in place into the insertion sort of its old contents, which is ordered by the collation, a permutation of the input, and stable: elements the collation ties keep their relative order |
| `NumOrder.InsertAt` | frontend/src/pages/metre/MetreArbo.tsx:211 | one insertion step turns the prefix and the next element into `Insert` of them (the element goes after every element it does not sort before) and leaves the rest of the array alone |
| `NumOrder.InsertSorted` | frontend/src/pages/metre/MetreArbo.tsx:211 | inserting into an ordered sequence keeps it ordered |
| `NumOrder.InsertMultiset` | frontend/src/pages/metre/MetreArbo.tsx:211 | inserting adds exactly the inserted element |
| `NumOrder.InsertTies` | frontend/src/pages/metre/MetreArbo.tsx:211 | among the elements tied with any given number, the inserted one comes last and the others keep their order |
| `NumOrder.InsSortStable` | frontend/src/pages/metre/MetreArbo.tsx:211 | the insertion sort is ordered, a permutation, and keeps tied elements in their order |
| `NumOrder.TiedNumbersKeepOrder` | frontend/src/pages/metre/MetreArbo.tsx:211 | "01" and "1" tie under the collation, and the sort keeps them in whichever order they came |
| `TreeBuild.LastWithKey` | frontend/src/pages/metre/MetreArbo.tsx:35-38 | the key map's entry is a node with that key among those entered |
| `TreeBuild.LastWithKeyMeaning` | frontend/src/pages/metre/MetreArbo.tsx:35-38 | the key map keeps the last node with a key, and has no entry for a key no node carries |
| `TreeBuild.RootsUpToMeaning` | frontend/src/pages/metre/MetreArbo.tsx:40-46 | the roots list holds, in input order and once each, exactly the nodes with no parent |
| `TreeBuild.ChildrenUpToMeaning` | frontend/src/pages/metre/MetreArbo.tsx:40-46 | a node's children list holds, in input order and once each, exactly the nodes whose parent it is |
| `TreeBuild.BuildPlacement` | frontend/src/pages/metre/MetreArbo.tsx:40-46 | every node is placed exactly once: as a root when it has no parent, in its parent's children otherwise |
| `TreeBuild.ShadowedHasNoChildren` | frontend/src/pages/metre/MetreArbo.tsx:35-42 | a node shadowed in the key map by a later node with the same key never receives children |
| `TreeBuild.RootMeaning` | frontend/src/pages/metre/MetreArbo.tsx:41-44 | a node is a root exactly when its parent id is null, empty, or names no key of the list |
| `TreeBuild.ParentByMap` | frontend/src/pages/metre/MetreArbo.tsx:41 | the test on the key map names the same parent as the specification |
| `TreeBuild.BuildTreeFromFlatData` | frontend/src/pages/metre/MetreArbo.tsx:31-49 | the two passes produce exactly the specified roots and children lists, in linear passes whatever the parent ids |
| `TreeBuild.ForestComplete` | frontend/src/pages/metre/MetreArbo.tsx:31-49 | following children lists from the roots always ends: nodes on a parent cycle are never reached, and `\|flat\|` levels reach everything |
| `TreeBuild.ForestRoots` | frontend/src/pages/metre/MetreArbo.tsx:48 | the forest's roots are the root nodes in input order, each with its children below it |
| `TreeBuild.DepthBound` | frontend/src/pages/metre/MetreArbo.tsx:40-46 | a node reachable from a root is fewer than `\|flat\|` levels deep |
| `TreeBuild.ChainDistinct` | frontend/src/pages/metre/MetreArbo.tsx:41-42 | the ancestors of a reachable node are pairwise distinct |
| `TreeBuild.UnfoldStable` | frontend/src/pages/metre/MetreArbo.tsx:31-49 | unfolding one level deeper than needed changes nothing |
| `TreeBuild.ChildDepth` | frontend/src/pages/metre/MetreArbo.tsx:42 | a child sits one level below its parent |
| `TreeBuild.DistinctBound` | frontend/src/pages/metre/MetreArbo.tsx:31-49 | distinct indices below `n` number at most `n`, which bounds the depth |
| `TreeEdit.UpdateChildNums` | frontend/src/pages/metre/MetreArbo.tsx:154-163 | renumbering keeps keys, captions and shape and numbers every node `parent.position`, at every depth |
| `TreeEdit.NumberingDetermines` | frontend/src/pages/metre/MetreArbo.tsx:154-163 | shape and numbering determine a forest |
| `TreeEdit.UpdateChildNumsIdempotent` | frontend/src/pages/metre/MetreArbo.tsx:154-163 | renumbering twice is renumbering once |
| `TreeEdit.UpdateChildNumsNumbered` | frontend/src/pages/metre/MetreArbo.tsx:154-163 | a forest already numbered under its parent is left as it is |
| `TreeEdit.UpdateChildNumsAt` | frontend/src/pages/metre/MetreArbo.tsx:156 | the node at relative path `q` keeps key and caption and is numbered by the dotted positions of `q` |
| `TreeEdit.NumberedAt` | frontend/src/pages/metre/MetreArbo.tsx:156 | in a forest numbered under a parent, each node's number is the dotted path to it |
| `TreeEdit.SameShapeAt` | frontend/src/pages/metre/MetreArbo.tsx:157-160 | forests of one shape have the same paths and agree on key and caption along them |
| `TreeEdit.MatchDepthMeaning` | frontend/src/pages/metre/MetreArbo.tsx:139-150 | the edits act at the shallowest node on a way down that carries the key |
| `TreeEdit.UpdateNodeInfo` | frontend/src/pages/metre/MetreArbo.tsx:138-152 | editing a chapter keeps every key at every position |
| `TreeEdit.UpdateNodeInfoAt` | frontend/src/pages/metre/MetreArbo.tsx:138-152 | every node with the key that has no such node above it (the shallowest match along each path) takes the new number and caption; below it every node keeps its caption and is renumbered from the new number; a node with no match on its path keeps its number and caption |
| `TreeEdit.UpdateNodeInfoAbsent` | frontend/src/pages/metre/MetreArbo.tsx:138-152 | editing a key that occurs nowhere leaves the tree unchanged |
| `TreeEdit.Without` | frontend/src/pages/metre/MetreArbo.tsx:166-167 | the filter keeps only nodes of the input without the key |
| `TreeEdit.WithoutAt` | frontend/src/pages/metre/MetreArbo.tsx:166-167 | a kept node keeps its place among the kept nodes |
| `TreeEdit.WithoutOnto` | frontend/src/pages/metre/MetreArbo.tsx:166-167 | every kept node comes from a position of the input |
| `TreeEdit.DeleteNodeCons` | frontend/src/pages/metre/MetreArbo.tsx:165-172 | the first node goes when it has the key, otherwise it stays with its own subtree cleaned |
| `TreeEdit.DeleteNodeIndex` | frontend/src/pages/metre/MetreArbo.tsx:165-172 | the deletion keeps the filtered nodes in order, each with its subtree cleaned |
| `TreeEdit.DeleteNodeOrder` | frontend/src/pages/metre/MetreArbo.tsx:165-172 | deleting keeps the other nodes in pre-order and leaves no node with the key at any depth |
| `TreeEdit.DeleteNodeKeys` | frontend/src/pages/metre/MetreArbo.tsx:165-172 | after deleting, the key is gone and no key was added |
| `TreeEdit.DeleteNodeAbsent` | frontend/src/pages/metre/MetreArbo.tsx:165-172 | deleting a key that occurs nowhere leaves the tree unchanged |
| `TreeEdit.DeleteNodeKeeps` | frontend/src/pages/metre/MetreArbo.tsx:165-172 | a node with no key on its way down survives, with its subtree cleaned |
| `TreeEdit.DeleteNodeFrom` | frontend/src/pages/metre/MetreArbo.tsx:165-172 | every node after the deletion is one that survived: no node on its way down had the key |
| `TreeEdit.KeptPathCons` | frontend/src/pages/metre/MetreArbo.tsx:168-171 | a surviving node's new path follows the filtered positions level by level |
| `TreeEdit.AddChildNodeAt` | frontend/src/pages/metre/MetreArbo.tsx:174-191 | the first node with the parent key on a way down gets one new last child, numbered `num.count`; nodes below it are untouched; nodes above keep their fields |
| `TreeEdit.AddChildNodeAbsent` | frontend/src/pages/metre/MetreArbo.tsx:174-191 | adding under a key that occurs nowhere leaves the tree unchanged |
| `TreeEdit.OldChildrenKept` | frontend/src/pages/metre/MetreArbo.tsx:185 | appending a child keeps every existing child at its path |
| `TreeEdit.FirstWithKey` | frontend/src/pages/metre/MetreArbo.tsx:128-129 | the position found carries the key and no earlier one does; none exactly when no node carries it |
| `TreeEdit.FindTitleByKeyFirst` | frontend/src/pages/metre/MetreArbo.tsx:127-136 | the title found is the heading `num - label` of the first node with the key in pre-order |
| `TreeEdit.FindTitleByKeyNone` | frontend/src/pages/metre/MetreArbo.tsx:127-136 | null is returned exactly when the key occurs nowhere in the tree |
| `TreeEdit.RootNums` | frontend/src/pages/metre/MetreArbo.tsx:272 | one parsed number per root |
| `TreeEdit.MaxParsed` | frontend/src/pages/metre/MetreArbo.tsx:272-273 | the maximum is one of the parsed numbers and no parsed number exceeds it; there is none only when no number parses |
| `TreeEdit.NextValueSpec` | frontend/src/pages/metre/MetreArbo.tsx:272-274 | the new main number exceeds every root number that parses; it is 1 when none parses, otherwise one more than a parsed root number |
| `TreeEdit.NextMainNumReadsBack` | frontend/src/pages/metre/MetreArbo.tsx:274 | the text of the new number reads back as that number |
| `TreeEdit.NextMainNumExample` | frontend/src/pages/metre/MetreArbo.tsx:271-284 | after roots "1" and "2" the next main chapter is "3" |
| `MetreArbo.FlatChapters` | frontend/src/pages/metre/MetreArbo.tsx:56-61 | one flat node per chapter of the payload |
| `MetreArbo.ChapterTable` | frontend/src/pages/metre/MetreArbo.tsx:73-104 | a chapter table has one priced row per line, with price quantity times unit price, then a nine-cell 'Total' row with price 0 |
| `MetreArbo.DetailTable` | frontend/src/pages/metre/MetreArbo.tsx:77-89 | a detail table has one row per detail holding its total, then a 'Total' row holding the sum of the totals |
| `MetreArbo.WritesMeaning` | frontend/src/pages/metre/MetreArbo.tsx:70-105 | after a sequence of dictionary writes a key is present exactly when written or already there, and the last write wins |
| `MetreArbo.WritesStep` | frontend/src/pages/metre/MetreArbo.tsx:77 | one more write updates the dictionary at its key |
| `MetreArbo.NestedWritesMeaning` | frontend/src/pages/metre/MetreArbo.tsx:70-105 | the writes of nested loops: a key is present exactly when written, and holds the value of its last write |
| `MetreArbo.TablesLookup` | frontend/src/pages/metre/MetreArbo.tsx:104 | each chapter id maps to the table of the last chapter carrying that id |
| `MetreArbo.TablesKeys` | frontend/src/pages/metre/MetreArbo.tsx:70-105 | the tables dictionary has an entry exactly for the chapter ids |
| `MetreArbo.DetailsLookup` | frontend/src/pages/metre/MetreArbo.tsx:75-89 | each `chapterId::title` key maps to the detail table of the last line carrying it |
| `MetreArbo.DetailsKeys` | frontend/src/pages/metre/MetreArbo.tsx:75-89 | the details dictionary has an entry exactly for the line keys |
| `MetreArbo.LineRowsStep` | frontend/src/pages/metre/MetreArbo.tsx:73 | the rows of `l + 1` lines extend those of `l` lines |
| `MetreArbo.FillChapter` | frontend/src/pages/metre/MetreArbo.tsx:73-104 | one chapter's rows are its line table without the 'Total' row, and each line's detail table is written under its key, in line order |
| `MetreArbo.BuildTables` | frontend/src/pages/metre/MetreArbo.tsx:70-108 | the payload loop fills both dictionaries exactly as specified |
| `MetreArbo.DefaultTableAsWrittenMisaligned` | frontend/src/pages/metre/MetreArbo.tsx:117-120 | the default line row as written has ten cells: '' in the quantity column and 0 in the comments column |
| `MetreArbo.DefaultTableAligned` | frontend/src/pages/metre/MetreArbo.tsx:117-120 | the corrected default rows have nine cells, with numbers in the quantity, unit price and price columns and the standard total row |
| `MetreArbo.MetreArboState.constructor` | frontend/src/pages/metre/MetreArbo.tsx:26-28 | the page starts with an empty tree and empty dictionaries, nothing selected or edited |
| `MetreArbo.MetreArboState.LoadProject` | frontend/src/pages/metre/MetreArbo.tsx:52-109 | without data nothing changes; otherwise the tree is rebuilt from the chapters and both dictionaries are replaced |
| `MetreArbo.MetreArboState.GetOrCreateTableData` | frontend/src/pages/metre/MetreArbo.tsx:115-125 | a stored table is returned as it is; otherwise the default table is returned and stored, here the corrected nine-cell `DefaultTable` |
| `MetreArbo.MetreArboState.HandleClick` | frontend/src/pages/metre/MetreArbo.tsx:193-207 | the second click selects, the third starts editing and resets the count; the count never stays above 2 |
| `MetreArbo.MetreArboState.ClickTimerElapsed` | frontend/src/pages/metre/MetreArbo.tsx:200 | the timer resets the chapter's count, nothing else |
| `MetreArbo.MetreArboState.EditNode` | frontend/src/pages/metre/MetreArbo.tsx:224-255 | the tree takes the edit and editing ends |
| `MetreArbo.MetreArboState.AddChild` | frontend/src/pages/metre/MetreArbo.tsx:263 | the tree takes the new child, nothing else changes |
| `MetreArbo.MetreArboState.Delete` | frontend/src/pages/metre/MetreArbo.tsx:264 | the tree loses the chapter; its tables stay in the dictionaries |
| `MetreArbo.MetreArboState.AddMainChapter` | frontend/src/pages/metre/MetreArbo.tsx:271-284 | one new root after the existing ones, numbered after the largest root number |
| `MetreArbo.ThreeClicksEdit` | frontend/src/pages/metre/MetreArbo.tsx:193-207 | three clicks in a row select a chapter and start editing it, with the count back at 0 |
| `MetreDetailTable.SumProductsAppend` | frontend/src/pages/metre/MetreDetailTable.tsx:49 | the running sum over two row lists is the sum of their sums |
| `MetreDetailTable.SumProductsSame` | frontend/src/pages/metre/MetreDetailTable.tsx:41-47 | a row's product depends on its five factors alone |
| `MetreDetailTable.WithRowTotal` | frontend/src/pages/metre/MetreDetailTable.tsx:48 | setting a row's total changes that column only |
| `MetreDetailTable.Totals` | frontend/src/pages/metre/MetreDetailTable.tsx:35-58 | every row but the last gets its product; the last row gets the sum only when it is labelled 'Total' |
| `MetreDetailTable.TotalsMeaning` | frontend/src/pages/metre/MetreDetailTable.tsx:35-58 | after recomputing, each line shows its product, the total row the sum of them, and no other column changes |
| `MetreDetailTable.TotalsIdempotent` | frontend/src/pages/metre/MetreDetailTable.tsx:35-58 | recomputing twice is recomputing once |
| `MetreDetailTable.CalculateTotals` | frontend/src/pages/metre/MetreDetailTable.tsx:35-58 | the in-place loop leaves exactly the recomputed rows |
| `MetreDetailTable.WithNewDetail` | frontend/src/pages/metre/MetreDetailTable.tsx:106-110 | a line of factors 1 is inserted right before the total row, or before a fallback total row on an empty table |
| `MetreDetailTable.AddDetailTotals` | frontend/src/pages/metre/MetreDetailTable.tsx:106-115 | after adding a line the new line's total is 1 and the table total grows by 1 |
| `MetreDetailTable.AddDetailEmpty` | frontend/src/pages/metre/MetreDetailTable.tsx:106-115 | adding on an empty table gives a line of total 1 and a total row holding 1 |
| `MetreDetailTable.MetreDetailTableState.constructor` | frontend/src/pages/metre/MetreDetailTable.tsx:19-32 | mounting shows the rows received with their totals computed |
| `MetreDetailTable.MetreDetailTableState.SetData` | frontend/src/pages/metre/MetreDetailTable.tsx:22-24 | new rows from the parent replace the local rows as they are |
| `MetreDetailTable.MetreDetailTableState.HandleChange` | frontend/src/pages/metre/MetreDetailTable.tsx:60-82 | no edits or a grid load change nothing; otherwise the edits are written, the totals recomputed, and the rows handed to the parent |
| `MetreDetailTable.MetreDetailTableState.AddRow` | frontend/src/pages/metre/MetreDetailTable.tsx:106-115 | the table and the parent get the rows with the new line and recomputed totals |
| `MetreDetailTable.WriteAll` | frontend/src/pages/metre/MetreDetailTable.tsx:72-75 | the edit loop writes the edits in order |
| `MetreTable.Priced` | frontend/src/pages/metre/MetreTable.tsx:54-56 | a row's price column becomes quantity times unit price, each read with `parseFloat(x) \|\| 0`; no other column changes |
| `MetreTable.WithTotal` | frontend/src/pages/metre/MetreTable.tsx:100-107 | the total row's price becomes the sum of the lines' prices; nothing else changes |
| `MetreTable.WithTotalConsistent` | frontend/src/pages/metre/MetreTable.tsx:100-107 | re-summing makes the table consistent exactly when every line is priced |
| `MetreTable.WithTotalIdempotent` | frontend/src/pages/metre/MetreTable.tsx:100-107 | re-summing twice is re-summing once |
| `MetreTable.UpdateTotalRow` | frontend/src/pages/metre/MetreTable.tsx:100-107 | the in-place loop leaves exactly the re-summed table |
| `MetreTable.PriceLines` | frontend/src/pages/metre/MetreTable.tsx:53-57 | every line is priced and the total row is kept |
| `MetreTable.PriceLinesInPlace` | frontend/src/pages/metre/MetreTable.tsx:53-57 | the in-place loop prices every line |
| `MetreTable.RecomputedMeaning` | frontend/src/pages/metre/MetreTable.tsx:48-64 | after the data effect each line's price is quantity times unit price, the total is their sum, and no other cell changes |
| `MetreTable.AfterEdit` | frontend/src/pages/metre/MetreTable.tsx:120-131 | an edit writes its cell; a quantity or unit price edit re-prices the row; other rows and cells are unchanged |
| `MetreTable.AfterEdits` | frontend/src/pages/metre/MetreTable.tsx:120-131 | the edits keep the table's length |
| `MetreTable.AfterEditPriced` | frontend/src/pages/metre/MetreTable.tsx:120-131 | an edit of an editable column keeps every line priced |
| `MetreTable.AfterEditsPriced` | frontend/src/pages/metre/MetreTable.tsx:120-131 | a sequence of such edits keeps every line priced |
| `MetreTable.AfterChangeConsistent` | frontend/src/pages/metre/MetreTable.tsx:109-139 | the edits followed by the re-sum leave the table consistent |
| `MetreTable.ApplyEdits` | frontend/src/pages/metre/MetreTable.tsx:120-131 | the in-place edit loop leaves exactly the specified rows |
| `MetreTable.WithNewLine` | frontend/src/pages/metre/MetreTable.tsx:75-88 | one empty line right before the total row, or before a fallback total row on an empty table |
| `MetreTable.WithNewLineConsistent` | frontend/src/pages/metre/MetreTable.tsx:75-88 | the new line costs nothing: a consistent table stays consistent with the same total |
| `MetreTable.Without` | frontend/src/pages/metre/MetreTable.tsx:156 | the splice removes one row and shifts the following rows down |
| `MetreTable.DeleteConsistent` | frontend/src/pages/metre/MetreTable.tsx:141-160 | deleting a line of a consistent table keeps it consistent, with the line's price taken off the total |
| `MetreTable.Remove` | frontend/src/pages/metre/MetreTable.tsx:168 | the filter keeps exactly the other keys |
| `MetreTable.ToggledMeaning` | frontend/src/pages/metre/MetreTable.tsx:68-73 | toggling flips the key's membership and leaves the other keys alone; toggling twice restores membership |
| `MetreTable.DetailDataFor` | frontend/src/pages/metre/MetreTable.tsx:242-245 | the stored detail table, or one empty line and a 'Total' row |
| `MetreTable.DetailTotal` | frontend/src/pages/metre/MetreTable.tsx:253 | the total cell of the last detail row, or 0 for an empty table or a missing cell |
| `MetreTable.TitleOfKeyAsWrittenTruncates` | frontend/src/pages/metre/MetreTable.tsx:241 | a title containing '::' is cut at it: the key of title "a::b" in table "7" gives back "a" |
| `MetreTable.TitleOfKey` | frontend/src/pages/metre/MetreTable.tsx:241 | a title is recovered only from a key that starts with the table key and the separator |
| `MetreTable.TitleOfKeyRoundTrip` | frontend/src/pages/metre/MetreTable.tsx:241 | the title recovered from a line's detail key is that line's title |
| `MetreTable.FindTitle` | frontend/src/pages/metre/MetreTable.tsx:94 | the first row with that title, or none when no row has it |
| `MetreTable.MetreTableState.constructor` | frontend/src/pages/metre/MetreTable.tsx:48-64 | mounting shows the rows received, priced and re-summed, with no detail open |
| `MetreTable.MetreTableState.SetData` | frontend/src/pages/metre/MetreTable.tsx:48-64 | new rows are shown priced and re-summed |
| `MetreTable.MetreTableState.ToggleDetail` | frontend/src/pages/metre/MetreTable.tsx:68-73 | the line's detail key is toggled in the open list |
| `MetreTable.MetreTableState.AddRow` | frontend/src/pages/metre/MetreTable.tsx:75-88 | the table and the parent get the rows with one new empty line |
| `MetreTable.MetreTableState.AfterChange` | frontend/src/pages/metre/MetreTable.tsx:109-139 | no edits or a grid load change nothing; otherwise the edits are applied, the total re-summed, and the rows handed on |
| `MetreTable.MetreTableState.HandleDetailChange` | frontend/src/pages/metre/MetreTable.tsx:90-98 | the detail total becomes the quantity of the first line with that title, which is re-priced; no such line changes nothing |
| `MetreTable.MetreTableState.DetailChanged` | frontend/src/pages/metre/MetreTable.tsx:251-253 | new detail rows are stored under their key and their total flows into the line whose title the corrected `TitleOfKey` recovers from the key |
| `MetreTable.MetreTableState.DeleteRow` | frontend/src/pages/metre/MetreTable.tsx:153-168 | the line goes, the total is re-summed, and the line's detail table is dropped and closed |
| `Summary.ContributionIsParseNum` | frontend/src/pages/summary/Summary.tsx:44-45 | the guard and the amount of the sum agree with `parseFloat(x) \|\| 0` on every cell |
| `Summary.OwnTotalMeaning` | frontend/src/pages/summary/Summary.tsx:42-47 | a chapter's own total is its price column summed over its lines |
| `Summary.OwnOf` | frontend/src/pages/summary/Summary.tsx:39 | a chapter without a table adds nothing; otherwise its lines' prices |
| `Summary.SumOwnConcat` | frontend/src/pages/summary/Summary.tsx:36-76 | own totals add up over consecutive lists |
| `Summary.ForestTotalConcat` | frontend/src/pages/summary/Summary.tsx:65-75 | the total of two forests is the sum of their totals |
| `Summary.ForestTotalFlat` | frontend/src/pages/summary/Summary.tsx:38-75 | the rollup counts every chapter of the tree exactly once: it is the sum of the own totals over the pre-order list |
| `Summary.SumNodeTotalsIsForestTotal` | frontend/src/pages/summary/Summary.tsx:49-55 | adding up the children's reported totals gives their forest's total |
| `Summary.SumChapterRows` | frontend/src/pages/summary/Summary.tsx:42-47 | the row loop computes the chapter's own total |
| `Summary.ProcessNode` | frontend/src/pages/summary/Summary.tsx:38-62 | a chapter's row holds its heading and the total of its whole subtree |
| `Summary.CalculateSummaryData` | frontend/src/pages/summary/Summary.tsx:36-76 | one row per root in order; the project total is the sum of the own totals of every chapter |
| `Summary.SummaryState.constructor` | frontend/src/pages/summary/Summary.tsx:30-31 | the recap starts empty with total 0 |
| `Summary.SummaryState.OnData` | frontend/src/pages/summary/Summary.tsx:34-80 | the recap is recomputed only once loading is over and there are both chapters and tables |
| `SummarySpecifications.Extract` | frontend/src/pages/summary/SummarySpecifications.tsx:34-40 | a chapter carries the node's key, number and label, its text or '', and a non-empty parent id |
| `SummarySpecifications.Extracted` | frontend/src/pages/summary/SummarySpecifications.tsx:29-40 | one chapter per node of the pre-order list, in that order |
| `SummarySpecifications.ExtractedCoversTree` | frontend/src/pages/summary/SummarySpecifications.tsx:29-40 | every node of the tree, at any depth, yields a chapter carrying its text |
| `SummarySpecifications.SortChapters` | frontend/src/pages/summary/SummarySpecifications.tsx:62-69 | the chapters are sorted in place by number, stably, and the same array is handed back as a permutation of the input |
| `SummarySpecifications.ProcessData` | frontend/src/pages/summary/SummarySpecifications.tsx:29-45 | the chapters are exactly those of the tree, in pre-order, stably sorted by number |
| `SummarySpecifications.SummarySpecificationsState.constructor` | frontend/src/pages/summary/SummarySpecifications.tsx:20 | no chapters are shown at first |
| `SummarySpecifications.SummarySpecificationsState.OnData` | frontend/src/pages/summary/SummarySpecifications.tsx:23-27 | the chapters are recomputed once loading is over and the tree is not empty |
| `SummarySpreadsheet.ToLine` | frontend/src/pages/summary/SummarySpreadsheet.tsx:232-251 | a row becomes a line with quantity and unit price read as numbers, total their product, and comments defaulting to '' |
| `SummarySpreadsheet.RawIndex` | frontend/src/pages/summary/SummarySpreadsheet.tsx:231 | the `k`-th kept row sits at a position with exactly `k` kept rows before it |
| `SummarySpreadsheet.RawIndexShifted` | frontend/src/pages/summary/SummarySpreadsheet.tsx:231 | a row labelled 'Total' before the end shifts the filtered positions |
| `SummarySpreadsheet.RawIndexOfSplit` | frontend/src/pages/summary/SummarySpreadsheet.tsx:231 | a kept row with `k` kept rows before it is the `k`-th kept row |
| `SummarySpreadsheet.TableLines` | frontend/src/pages/summary/SummarySpreadsheet.tsx:230-251 | one line per kept row |
| `SummarySpreadsheet.TableLinesAt` | frontend/src/pages/summary/SummarySpreadsheet.tsx:230-251 | line `k` is the `k`-th kept row read as a line |
| `SummarySpreadsheet.ConvertNode` | frontend/src/pages/summary/SummarySpreadsheet.tsx:226-262 | a chapter carries the node's fields, a non-empty parent id, and the lines of its table, or none |
| `SummarySpreadsheet.Convert` | frontend/src/pages/summary/SummarySpreadsheet.tsx:219-264 | one chapter per node of the pre-order flattening, in that order |
| `SummarySpreadsheet.ConvertCoversTree` | frontend/src/pages/summary/SummarySpreadsheet.tsx:219-278 | every node of the tree yields a chapter, whatever its depth |
| `SummarySpreadsheet.ConsolidatedLength` | frontend/src/pages/summary/SummarySpreadsheet.tsx:365-443 | the sheet has the sum over chapters of their lines plus two rows, then the TOTAL row |
| `SummarySpreadsheet.BlocksConcat` | frontend/src/pages/summary/SummarySpreadsheet.tsx:365-434 | the blocks of consecutive chapter lists are consecutive |
| `SummarySpreadsheet.BlockAt` | frontend/src/pages/summary/SummarySpreadsheet.tsx:365-434 | a chapter's block starts at its offset |
| `SummarySpreadsheet.BlocksLayout` | frontend/src/pages/summary/SummarySpreadsheet.tsx:365-434 | each chapter shows its header at its offset, its line `l` at offset + 1 + l, then an empty row |
| `SummarySpreadsheet.LineRowsPointBack` | frontend/src/pages/summary/SummarySpreadsheet.tsx:400-428 | every line row names a chapter of the sheet and a line of it, and shows that line |
| `SummarySpreadsheet.GrandTotalSumsLines` | frontend/src/pages/summary/SummarySpreadsheet.tsx:427-451 | the TOTAL row shows the sum of the prices of all line rows |
| `SummarySpreadsheet.MergesMeaning` | frontend/src/pages/summary/SummarySpreadsheet.tsx:390-395 | there is one nine-column span per header row and nothing else |
| `SummarySpreadsheet.TracksPush` | frontend/src/pages/summary/SummarySpreadsheet.tsx:390-425 | pushing a row with its span or back reference keeps the tracking exact |
| `SummarySpreadsheet.PushLines` | frontend/src/pages/summary/SummarySpreadsheet.tsx:400-428 | the line loop pushes one row and one back reference per line and adds up their prices |
| `SummarySpreadsheet.PushChapter` | frontend/src/pages/summary/SummarySpreadsheet.tsx:365-434 | the chapter body pushes the header with its span, the lines, and an empty row |
| `SummarySpreadsheet.Consolidate` | frontend/src/pages/summary/SummarySpreadsheet.tsx:365-475 | the loops produce the specified rows, one span per header plus the TOTAL span, and a back reference exactly for each line row |
| `SummarySpreadsheet.ProcessProjectData` | frontend/src/pages/summary/SummarySpreadsheet.tsx:348-475 | the chapters are sorted in place by number, stably and as a permutation, then laid out |
| `SummarySpreadsheet.Summarize` | frontend/src/pages/summary/SummarySpreadsheet.tsx:213-215 | the converted chapters are stably sorted by number and laid out |
| `SummarySpreadsheet.ReadOnlyMeaning` | frontend/src/pages/summary/SummarySpreadsheet.tsx:494-513 | only the cells outside the price column of line rows other than the last row can be edited |
| `SummarySpreadsheet.Editable` | frontend/src/pages/summary/SummarySpreadsheet.tsx:647-649 | the filter keeps exactly the changes to editable cells |
| `SummarySpreadsheet.BeforeChange` | frontend/src/pages/summary/SummarySpreadsheet.tsx:642-660 | only user edits are filtered; they are cancelled exactly when every change targets a read-only cell, otherwise the editable ones are kept |
| `SummarySpreadsheet.RepricedPrice` | frontend/src/pages/summary/SummarySpreadsheet.tsx:312-330 | after a quantity or unit price edit the row's price is quantity times unit price |
| `SummarySpreadsheet.RepricedLine` | frontend/src/pages/summary/SummarySpreadsheet.tsx:312-330 | the re-priced row's price is the total of the line read from it |
| `SummarySpreadsheet.WriteBackAsWrittenHitsHiddenRow` | frontend/src/pages/summary/SummarySpreadsheet.tsx:306-309 | as written, the edit of the first shown line lands on a hidden 'Total' row |
| `SummarySpreadsheet.WriteBack` | frontend/src/pages/summary/SummarySpreadsheet.tsx:306-309 | the edit lands on the table row the line was read from; other rows are unchanged |
| `SummarySpreadsheet.WriteBackHitsShownLine` | frontend/src/pages/summary/SummarySpreadsheet.tsx:306-330 | the edited value reads back at the same line position, and a re-priced row's price is that line's new total |
| `SummarySpreadsheet.Entered` | frontend/src/pages/summary/SummarySpreadsheet.tsx:629 | the grid shows the sheet's own rows, so before it reports the edits it has written each of them into its row; the row kinds are kept |
| `SummarySpreadsheet.EnteredLast` | frontend/src/pages/summary/SummarySpreadsheet.tsx:629 | a shown cell holds the value of the last edit aimed at it |
| `SummarySpreadsheet.EnteredUntouched` | frontend/src/pages/summary/SummarySpreadsheet.tsx:629 | a shown cell no edit aims at keeps its value |
| `SummarySpreadsheet.ApplyEdit` | frontend/src/pages/summary/SummarySpreadsheet.tsx:290-336 | headers, empty rows and the TOTAL row are skipped; a line change throws exactly when its chapter table or the table row is missing; otherwise it is applied: its chapter's table gets the edit written back, the shown row keeps every cell but the price, which after a quantity or unit price edit shows the table row's new price; nothing else changes |
| `SummarySpreadsheet.ApplyEdits` | frontend/src/pages/summary/SummarySpreadsheet.tsx:290-336 | the changes, one after the other until one throws, keep the chapter keys of the tables and the kinds of the shown rows |
| `SummarySpreadsheet.ApplyEditsMeaning` | frontend/src/pages/summary/SummarySpreadsheet.tsx:290-336 | when no change threw, the changes were applied exactly when one of them aims at a line; a throw comes from a line change; a line of a chapter the tables lack always throws; when nothing was applied, neither the tables nor the shown rows changed |
| `SummarySpreadsheet.ThrowEndsChanges` | frontend/src/pages/summary/SummarySpreadsheet.tsx:290-336 | once a change throws, the changes after it have no effect |
| `SummarySpreadsheet.EditAll` | frontend/src/pages/summary/SummarySpreadsheet.tsx:290-336 | the change loop, stopped by a throw, computes the tables, the shown rows and the flags of `ApplyEdits` |
| `SummarySpreadsheet.SummarySpreadsheetState.constructor` | frontend/src/pages/summary/SummarySpreadsheet.tsx:102-104 | nothing is shown yet and the current version counts as seen |
| `SummarySpreadsheet.SummarySpreadsheetState.OnData` | frontend/src/pages/summary/SummarySpreadsheet.tsx:210-216 | the sheet is rebuilt once loading is over and there are both nodes and tables |
| `SummarySpreadsheet.SummarySpreadsheetState.HandleTableChange` | frontend/src/pages/summary/SummarySpreadsheet.tsx:282-346 | the shown rows always carry the edits the grid entered; only a non-empty list of user edits goes further: the changes are written back into a copy of the tables, which is handed on exactly when one was applied and none threw, and the shown prices of re-priced lines are updated |
| `SummarySpreadsheet.SummarySpreadsheetState.CheckVersionChange` | frontend/src/pages/summary/SummarySpreadsheet.tsx:102-125 | a stored version other than the last seen is remembered and asks for a refresh |
| `SummarySpreadsheet.VersionChangeRefreshesOnce` | frontend/src/pages/summary/SummarySpreadsheet.tsx:102-125 | a version change asks for one refresh; the next check of the same version does not |
| `MetreUpdates.UpdateEventBus.constructor` | frontend/src/hooks/useMetreUpdates.ts:6 | the bus starts without callbacks |
| `MetreUpdates.UpdateEventBus.Subscribe` | frontend/src/hooks/useMetreUpdates.ts:8-9 | the callback joins the set |
| `MetreUpdates.UpdateEventBus.Unsubscribe` | frontend/src/hooks/useMetreUpdates.ts:10-12 | the callback leaves the set |
| `MetreUpdates.UpdateEventBus.Publish` | frontend/src/hooks/useMetreUpdates.ts:15-17 | every subscribed callback is called once, and no other |
| `MetreUpdates.SubscribeUnsubscribe` | frontend/src/hooks/useMetreUpdates.ts:8-13 | subscribing a new callback then unsubscribing it restores the bus |
| `MetreUpdates.RelevantKeys` | frontend/src/hooks/useMetreUpdates.ts:54-60 | the chapter, modification and project-data keys are relevant; a missing or empty key is not |
| `MetreUpdates.GlobalRefreshKeyIgnored` | frontend/src/hooks/useMetreUpdates.ts:54-60 | the global refresh record's key is not relevant to the tracker |
| `MetreUpdates.MetreUpdateTracker.constructor` | frontend/src/hooks/useMetreUpdates.ts:32-33 | the state and the reference start from two clock readings |
| `MetreUpdates.MetreUpdateTracker.OnBusSignal` | frontend/src/hooks/useMetreUpdates.ts:36-44 | a signal updates exactly when more than 200 ms passed since the last update |
| `MetreUpdates.MetreUpdateTracker.OnStorageEvent` | frontend/src/hooks/useMetreUpdates.ts:52-69 | a storage event updates exactly when its key is relevant and more than 200 ms passed |
| `MetreUpdates.MetreUpdateTracker.ForceUpdate` | frontend/src/hooks/useMetreUpdates.ts:82-86 | an update whatever the time |
| `MetreUpdates.BurstUpdatesOnce` | frontend/src/hooks/useMetreUpdates.ts:37-44 | two signals less than 200 ms apart re-render at most once |
| `MetreUpdates.PageVisibilityWatcher.constructor` | frontend/src/hooks/useMetreUpdates.ts:96 | no call has been recorded |
| `MetreUpdates.PageVisibilityWatcher.Mount` | frontend/src/hooks/useMetreUpdates.ts:114-118 | mounting calls back only while no call was ever recorded |
| `MetreUpdates.PageVisibilityWatcher.OnVisibilityChange` | frontend/src/hooks/useMetreUpdates.ts:100-109 | a visible page calls back exactly when more than 500 ms passed since the last call |
| `MetreUpdates.StorageKeyListener.constructor` | frontend/src/hooks/useMetreUpdates.ts:131 | the listener watches its key and has no call recorded |
| `MetreUpdates.StorageKeyListener.OnStorage` | frontend/src/hooks/useMetreUpdates.ts:136-145 | an event calls back exactly when it names the key and more than 300 ms passed |
| `MetreUpdates.MissingRecordNeverSuppresses` | frontend/src/hooks/useMetreUpdates.ts:254-268 | a missing or unparsable modification record never drops a signal |
| `MetreUpdates.SuppressedAfterSignal` | frontend/src/hooks/useMetreUpdates.ts:254-268 | after a signal, another is dropped exactly when it repeats the source within 300 ms |
| `MetreUpdates.RefreshSkippedAfterRefresh` | frontend/src/hooks/useMetreUpdates.ts:338-352 | after a refresh, another is skipped exactly within 2 s and without 'URGENCE' in its reason |
| `MetreUpdates.BrowserStore.constructor` | frontend/src/hooks/useMetreUpdates.ts:254 | the store holds the given records |
| `MetreUpdates.SignalProjectModification` | frontend/src/hooks/useMetreUpdates.ts:253-289 | unless dropped, the record is overwritten with time and source, the bus callbacks are called, and a storage event is dispatched |
| `MetreUpdates.ForceGlobalDataRefresh` | frontend/src/hooks/useMetreUpdates.ts:334-387 | unless skipped, the refresh record is written, the bus callbacks are called, a modification is signalled, and a delayed signal is scheduled when due |
| `MetreUpdates.LastModification` | frontend/src/hooks/useMetreUpdates.ts:296-306 | the parsed record, or time 0 and an empty source when it is missing or does not parse |
| `MetreUpdates.LastModificationAfterSignal` | frontend/src/hooks/useMetreUpdates.ts:253-306 | after a signal the last modification reads back its time and source |
| `MetreUpdates.SignalReachesTrackerOnce` | frontend/src/hooks/useMetreUpdates.ts:36-69 | a signal reaches the tracker by the bus and by its storage event, and it re-renders once |
| `MetreUpdates.MaterializeLine` | frontend/src/hooks/useMetreUpdates.ts:232 | a parsed line is a fresh object holding its fields |
| `MetreUpdates.MaterializeChapter` | frontend/src/hooks/useMetreUpdates.ts:232 | a parsed chapter is a fresh object graph holding its lines |
| `MetreUpdates.Materialize` | frontend/src/hooks/useMetreUpdates.ts:232 | `JSON.parse` of an object gives a fresh object graph holding the parsed chapters |
| `MetreUpdates.ConvertMirrored` | frontend/src/hooks/useMetreUpdates.ts:235 | the conversion of an object graph holding some chapters leaves it holding their conversion |
| `MetreUpdates.GetProjectData` | frontend/src/hooks/useMetreUpdates.ts:228-245 | null for a missing, unparsable or null record; a non-object as it is; an object converted to numbers |
| `NumericValues.Converted` | frontend/src/hooks/useProjectDataStorage.ts:22-28 | a defined value becomes `Number` of it; undefined stays undefined |
| `NumericValues.ToNumberExamples` | frontend/src/hooks/useProjectDataStorage.ts:23-31 | blank text and null become 0; a product with an absent operand is NaN |
| `NumericValues.ToNumberOfWord` | frontend/src/hooks/useProjectDataStorage.ts:23 | text that is not a number becomes NaN, not 0 |
| `NumericValues.ConvertFieldsIdempotent` | frontend/src/hooks/useProjectDataStorage.ts:22-31 | converting a line's fields a second time changes nothing |
| `NumericValues.ConvertChaptersMeaning` | frontend/src/hooks/useProjectDataStorage.ts:15-40 | chapters and lines keep their shape; every main table line afterwards has total price the product of its quantity and unit price, and each field is undefined exactly when it was |
| `NumericValues.ConvertChaptersIdempotent` | frontend/src/hooks/useProjectDataStorage.ts:7-47 | running the conversion on its own output changes nothing |
| `NumericValues.MainTableLine.constructor` | frontend/src/hooks/useProjectDataStorage.ts:19 | a main table line holds the given fields |
| `NumericValues.Line.constructor` | frontend/src/hooks/useProjectDataStorage.ts:17 | a line holds its main table line or none |
| `NumericValues.ChapterEntry.constructor` | frontend/src/hooks/useProjectDataStorage.ts:15 | a chapter holds its lines or none |
| `NumericValues.ProjectDoc.constructor` | frontend/src/hooks/useProjectDataStorage.ts:7 | project data holds its chapters or none |
| `NumericValues.ConvertInPlace` | frontend/src/hooks/useProjectDataStorage.ts:22-31 | one main table line is converted in place |
| `NumericValues.WalkedVisit` | frontend/src/hooks/useProjectDataStorage.ts:17-38 | a line shared by two lines and met twice is converted to the same fields |
| `NumericValues.ConvertChapterLines` | frontend/src/hooks/useProjectDataStorage.ts:16-39 | the walk over one chapter converts its lines and keeps the others as they were |
| `NumericValues.EnsureNumericValues` | frontend/src/hooks/useProjectDataStorage.ts:7-47 | data without a chapters array is returned unchanged; otherwise the same data is returned with every reachable main table line converted from its initial fields |
| `ChapterStorage.ChapterStore.constructor` | frontend/src/hooks/useLocalStorage.ts:12-23 | the stored map when the browser store holds one that parses, the initial chapters otherwise |
| `ChapterStorage.ChapterStore.Render` | frontend/src/hooks/useLocalStorage.ts:31 | the next render sees the map last written |
| `ChapterStorage.ChapterStore.ForceUpdateFromProps` | frontend/src/hooks/useChapterStorage.ts:18-24 | forced non-empty initial chapters replace the stored ones; otherwise nothing changes |
| `ChapterStorage.ChapterStore.RenderWithEffects` | frontend/src/hooks/useChapterStorage.ts:18-24 | the render shows the map last written; the setter is new on every render (useLocalStorage.ts line 26), so the props effect follows every render and, when forced with non-empty initial chapters, writes them again |
| `ChapterStorage.ChapterStore.SaveChapter` | frontend/src/hooks/useChapterStorage.ts:27-37 | corrected: the update starts from the latest stored map; the text is stored under its key, every other entry is kept, and the save time is recorded |
| `ChapterStorage.ChapterStore.SaveChapterAsWritten` | frontend/src/hooks/useChapterStorage.ts:31-35 | as written, the update starts from the render's map |
| `ChapterStorage.ChapterStore.LoadChapter` | frontend/src/hooks/useChapterStorage.ts:40-42 | the text of the key, or '' when the key is absent |
| `ChapterStorage.ChapterStore.ChapterKeys` | frontend/src/hooks/useChapterStorage.ts:45-47 | exactly the keys of the render's map, as a set |
| `ChapterStorage.ChapterStore.DeleteChapter` | frontend/src/hooks/useChapterStorage.ts:50-55 | corrected: the removal starts from the latest stored map; the key leaves it, every other entry is kept |
| `ChapterStorage.ChapterStore.DeleteChapterAsWritten` | frontend/src/hooks/useChapterStorage.ts:50-55 | as written, the removal starts from the render's map, so an earlier write of the same render is lost |
| `ChapterStorage.ChapterStore.ClearAllChapters` | frontend/src/hooks/useChapterStorage.ts:58-61 | the map becomes empty and the time is recorded |
| `ChapterStorage.SaveThenLoad` | frontend/src/hooks/useChapterStorage.ts:27-42 | as written, a saved text reads back on the next render, whatever the props effect then writes, and other keys read as before |
| `ChapterStorage.DeleteThenLoad` | frontend/src/hooks/useChapterStorage.ts:40-55 | as written, a deleted key reads as '' and is no longer listed; other keys read as before |
| `ChapterStorage.ClearThenKeys` | frontend/src/hooks/useChapterStorage.ts:40-61 | after clearing there are no keys and every key reads as '' |
| `ChapterStorage.TwoSaves` | frontend/src/hooks/useChapterStorage.ts:27-37 | two saves in one render keep both texts |
| `ChapterStorage.SaveThenDelete` | frontend/src/hooks/useChapterStorage.ts:27-55 | corrected: a save and a delete of another key in one render keep the saved text |
| `ChapterStorage.SaveThenDeleteAsWrittenLosesSave` | frontend/src/hooks/useChapterStorage.ts:50-55 | as written, a save and then a delete of another key in one render lose the saved text when its key was new |
| `ChapterStorage.TwoSavesAsWrittenLoseFirst` | frontend/src/hooks/useChapterStorage.ts:31-35 | as written, two saves in one render lose the first text when its key was new |
| `ChapterStorage.ForcedPropsUndoSave` | frontend/src/hooks/useChapterStorage.ts:18-24 | with forced, non-empty initial chapters a saved text is gone again one render later: the map is the initial chapters and the saved key reads as '' |
| `ProjectRepository.RemoveKeys` | backend/src/main/java/com/example/myProject/controller/ProjectController.java:204-207 | deleting rows keeps exactly the other rows, unchanged |
| `ProjectRepository.LinesOfChapter` | backend/src/main/java/com/example/myProject/controller/ProjectController.java:77 | `findByChapterId` selects exactly the lines of the chapter |
| `ProjectRepository.DetailsOfLine` | backend/src/main/java/com/example/myProject/controller/ProjectController.java:80 | `findByMainTableLineId` selects exactly the details of the line |
| `ProjectRepository.ChildIds` | backend/src/main/java/com/example/myProject/controller/ProjectController.java:190-192 | the children are exactly the chapters of any project whose parent is the chapter |
| `ProjectRepository.ProjectChapterIds` | backend/src/main/java/com/example/myProject/controller/ProjectController.java:74 | `findByProjectId` selects exactly the chapters of the project |
| `ProjectRepository.LinesUnder` | backend/src/main/java/com/example/myProject/controller/ProjectController.java:199 | the lines of a set of chapters |
| `ProjectRepository.DetailsUnder` | backend/src/main/java/com/example/myProject/controller/ProjectController.java:201 | the details of a set of lines |
| `ProjectRepository.DescendantsMeaning` | backend/src/main/java/com/example/myProject/controller/ProjectController.java:189-196 | the chapters below some chapters contain them and are closed under "child of" |
| `ProjectRepository.DescendantsLeast` | backend/src/main/java/com/example/myProject/controller/ProjectController.java:189-196 | and they are the least such set |
| `ProjectRepository.DescendantsSpare` | backend/src/main/java/com/example/myProject/controller/ProjectController.java:182-185 | chapters whose parents all stay inside a kept set are never reached from outside it |
| `ProjectRepository.DescendantsInSteps` | backend/src/main/java/com/example/myProject/controller/ProjectController.java:182-185 | the descendants of some chapters, then those of one more in what is left, are the descendants of all |
| `ProjectRepository.CascadeKeepsLinked` | backend/src/main/java/com/example/myProject/controller/ProjectController.java:198-207 | removing a closed set of chapters with their lines and those lines' details leaves no dangling reference |
| `ProjectRepository.Database.constructor` | backend/src/main/java/com/example/myProject/repository/ChapterRepository.java:8-11 | the tables and id counters are the given ones |
| `ProjectRepository.Database.SaveProject` | backend/src/main/java/com/example/myProject/controller/ProjectController.java:107 | the stored project is replaced, nothing else changes |
| `ProjectRepository.Database.SaveChapter` | backend/src/main/java/com/example/myProject/controller/ProjectController.java:120 | the chapter is stored under the id it carries when the table holds it, under a fresh id otherwise, and carries that id |
| `ProjectRepository.Database.SaveLine` | backend/src/main/java/com/example/myProject/controller/ProjectController.java:150 | the same for a line |
| `ProjectRepository.Database.SaveDetail` | backend/src/main/java/com/example/myProject/controller/ProjectController.java:157 | the same for a detail |
| `ProjectRepository.Enumerate` | backend/src/main/java/com/example/myProject/controller/ProjectController.java:171-172 | a query result lists each id of the set once, in some order |
| `ProjectRepository.DeleteUnsent` | backend/src/main/java/com/example/myProject/controller/ProjectController.java:171-176 | the loop deletes exactly the rows found that were not sent |
| `ProjectController.ReadDetails` | backend/src/main/java/com/example/myProject/controller/ProjectController.java:80 | a line's details, each stored detail of the line once |
| `ProjectController.ReadLines` | backend/src/main/java/com/example/myProject/controller/ProjectController.java:77-85 | a chapter's lines, each once and with exactly its details |
| `ProjectController.GetFullProject` | backend/src/main/java/com/example/myProject/controller/ProjectController.java:71-98 | an unknown project is an error; otherwise the project with each of its chapters once, each with exactly its lines and details |
| `ProjectController.TempIds` | backend/src/main/java/com/example/myProject/controller/ProjectController.java:121-123 | the temporary-id map has an entry exactly for the temporary ids sent, each naming the id of a chapter that carried it |
| `ProjectController.TempIdsLast` | backend/src/main/java/com/example/myProject/controller/ProjectController.java:121-123 | a temporary id maps to the id of the last chapter carrying it |
| `ProjectController.SaveChapters` | backend/src/main/java/com/example/myProject/controller/ProjectController.java:113-128 | every sent chapter is stored in the project without a parent, under its own id or a fresh one; other rows are untouched |
| `ProjectController.HandedBack` | backend/src/main/java/com/example/myProject/controller/ProjectController.java:120-126 | `save` hands back a new chapter as it is, and a merged copy without the transient temporary ids for a chapter sent with an id |
| `ProjectController.ParentOfAsWritten` | backend/src/main/java/com/example/myProject/controller/ProjectController.java:130-137 | as written, the second loop reads the parent's temporary id from the handed-back object: a chapter gets a parent exactly when it was sent without an id and its parent's temporary id was recorded, and the parent is the chapter stored for that id |
| `ProjectController.ParentOf` | backend/src/main/java/com/example/myProject/controller/ProjectController.java:130-137 | corrected: a chapter gets a parent exactly when its parent's temporary id, as sent, was recorded, whether or not it was sent with an id; the parent is the chapter stored for that id |
| `ProjectController.ExistingChapterLosesParentAsWritten` | backend/src/main/java/com/example/myProject/controller/ProjectController.java:119-137 | a chapter sent with an id and a recorded parent's temporary id gets no parent as written, and that parent with the corrected reading |
| `ProjectController.LinkParents` | backend/src/main/java/com/example/myProject/controller/ProjectController.java:130-139 | corrected: each chapter `ParentOf` gives a parent is stored again with it, in the project; no row is added or removed, and no other row changes |
| `ProjectController.SaveAllMeaning` | backend/src/main/java/com/example/myProject/controller/ProjectController.java:113-128 | storing the sent chapters in turn keeps every row, changes only the stored ones, stores each in the project without a parent, under its own id or a fresh one |
| `ProjectController.SaveAllPlaced` | backend/src/main/java/com/example/myProject/controller/ProjectController.java:113-128 | with distinct sent ids, the chapters are stored under distinct ids, each as sent |
| `ProjectController.PlaceOutcome` | backend/src/main/java/com/example/myProject/controller/ProjectController.java:113-139 | after the first two loops the table holds the old rows and the stored ones, the others unchanged, every stored chapter in the project with a stored parent or none |
| `ProjectController.PlaceOutcomePlaced` | backend/src/main/java/com/example/myProject/controller/ProjectController.java:113-139 | with distinct sent ids, each sent chapter is stored as sent under its own id, with the parent `ParentOf` gives it |
| `ProjectController.StoreDetailsMeaning` | backend/src/main/java/com/example/myProject/controller/ProjectController.java:155-159 | storing a line's details in turn changes only the stored details, each attached to the line, under its own id or a fresh one; with distinct sent ids, each detail is stored as sent under an id of its own |
| `ProjectController.PlaceChapters` | backend/src/main/java/com/example/myProject/controller/ProjectController.java:113-139 | the sent chapters are stored in the project, each parent a stored chapter; with distinct sent ids each holds the parent `ParentOf` gives it; the other rows are as they were |
| `ProjectController.PlacingKeepsLinked` | backend/src/main/java/com/example/myProject/controller/ProjectController.java:113-139 | the first two loops leave every chapter in a stored project with a stored parent |
| `ProjectController.SaveDetails` | backend/src/main/java/com/example/myProject/controller/ProjectController.java:155-159 | each sent detail is stored with its line, under its own or a fresh id |
| `ProjectController.SyncLine` | backend/src/main/java/com/example/myProject/controller/ProjectController.java:147-167 | the line is stored with its chapter, its details stored, and the line left with exactly the sent details |
| `ProjectController.RemoveUnsentLines` | backend/src/main/java/com/example/myProject/controller/ProjectController.java:171-176 | the other lines of the chapter are deleted with their details, so no detail is orphaned |
| `ProjectController.RemoveUnsentLinesAsWritten` | backend/src/main/java/com/example/myProject/controller/ProjectController.java:171-176 | as written, the other lines are deleted and their details are left |
| `ProjectController.OrphanedDetailAsWritten` | backend/src/main/java/com/example/myProject/controller/ProjectController.java:171-176 | a chapter sent without its one line leaves that line's detail pointing at a deleted line |
| `ProjectController.SyncLines` | backend/src/main/java/com/example/myProject/controller/ProjectController.java:146-168 | the line loop stores each sent line with its details |
| `ProjectController.SyncChapterLines` | backend/src/main/java/com/example/myProject/controller/ProjectController.java:142-176 | with the corrected line deletion (`RemoveUnsentLines`), the chapter's lines are afterwards exactly those sent, each with exactly its sent details, and no detail is orphaned |
| `ProjectController.SyncChapters` | backend/src/main/java/com/example/myProject/controller/ProjectController.java:142-177 | with the corrected line deletion, and distinct, read-back ids, every sent chapter holds exactly its sent lines and details |
| `ProjectController.PlaceAndSync` | backend/src/main/java/com/example/myProject/controller/ProjectController.java:103-177 | the project takes the sent fields; the sent chapters are stored in it with the parents `ParentOf` gives them; with the corrected line deletion and distinct read-back ids, each holds exactly its sent lines and details, and no reference dangles that did not before |
| `ProjectController.DeleteChapterRecursivelyAsWritten` | backend/src/main/java/com/example/myProject/controller/ProjectController.java:189-208 | as written, rows are only removed and none is stranded (no line of a removed chapter, no detail of a removed line stays); a run that finishes has removed the chapter and each of its children; a chapter that is its own parent is re-entered until the stack runs out |
| `ProjectController.DeleteOwnRows` | backend/src/main/java/com/example/myProject/controller/ProjectController.java:198-207 | the chapter's own lines, their details and the chapter are removed, and nothing else |
| `ProjectController.SelfParentNeverDeletedAsWritten` | backend/src/main/java/com/example/myProject/controller/ProjectController.java:189-196 | however deep the stack, the self-parent deletion never finishes |
| `ProjectController.DeleteChapterRecursively` | backend/src/main/java/com/example/myProject/controller/ProjectController.java:189-208 | the chapter and every chapter below it are removed, with their lines and those lines' details |
| `ProjectController.SelfParentDeleted` | backend/src/main/java/com/example/myProject/controller/ProjectController.java:189-208 | the corrected deletion removes a self-parent chapter with its line and detail |
| `ProjectController.CascadeInSteps` | backend/src/main/java/com/example/myProject/controller/ProjectController.java:182-185 | two cascades in a row remove what one cascade from both chapters removes |
| `ProjectController.DeleteUnsentChapters` | backend/src/main/java/com/example/myProject/controller/ProjectController.java:179-186 | with the corrected, terminating cascade (`DeleteChapterRecursively`), the project's chapters not stored are deleted with everything below them |
| `ProjectController.CascadeOutcome` | backend/src/main/java/com/example/myProject/controller/ProjectController.java:179-186 | the stored chapters survive and become the project's only chapters |
| `ProjectController.SyncProject` | backend/src/main/java/com/example/myProject/controller/ProjectController.java:100-187 | the project takes the sent fields; its chapters become exactly those sent, with the parents `ParentOf` gives them, each with exactly its sent lines and details; chapters not sent go with everything below them; with the corrected line deletion and cascade, no reference dangles |

## Left out

- Rendering, styles, Handsontable column settings, the Excel export and every `console.log` are left out. Text is not rendered as HTML.
- The text editor, the routing and the hooks outside the core are left out:
  - `useRouteTracking`;
  - `LAST_ROUTE`;
  - `useProjectLoader`, whose payload is a parameter.
- The other endpoints of the project controller are left out:
  - `getAll`, `getById`, `create`, `update` and `delete`;
  - the other CRUD controllers.
- The forced refresh of the version store in `SummarySpreadsheet` (lines 135-197) and its timers are left out. Only `checkVersionChange` is modelled.
- JSON text, `localStorage`, storage events, `Date.now()`, `setTimeout` and `setInterval` are not modelled directly:
  - stored records are parsed values or "unparsable";
  - times are `now` parameters;
  - scheduled calls are methods that the environment calls;
  - the direct `localStorage.setItem` saves of the tables (MetreTable.tsx 84, 138, 171, 256) are not modelled.
- `saveProjectData` and `getSimpleHash` (useMetreUpdates.ts 160-226) are left out. They hash with the clock and write JSON.
- Numbers are exact reals, not IEEE doubles, so rounding and infinities are not modelled. NaN is modelled where the source produces it (`Number`, `parseInt`).
- `uuidv4()` is a `newKey` parameter of the methods that use it.
- `TreeEdit.AddChildNode` takes one `newKey` per call, where the source draws a fresh `uuidv4()` for every node carrying the parent key (MetreArbo.tsx 180). The two differ only when keys are duplicated.
- The persistence of the open details in `localStorage` (MetreTable.tsx 30-46) is left out.
- Handsontable's `hot` null check in `handleDetailChange` is left out: the edit always reaches the table.
- Rendering sorts each children array in place by number (MetreArbo.tsx 211). The sort is `NumOrder.SortByNum`, but the tree state keeps insertion order.
- The sharing of row arrays between the component and its parent is left out:
  - the shallow copy before the delete splice;
  - the shallow copies in `MetreDetailTable`.
  Every table is a value.
- `MetreTable.MetreTableState.SetData` and `MetreTable.MetreTableState.constructor` require a non-empty table, because the source fails on an empty one. `MetreTable.MetreTableState.AfterChange` requires one too.
- `SummarySpreadsheet.SummarySpreadsheetState.HandleTableChange`, like the source, recomputes neither the chapter totals nor the grand total of the sheet.
- `TreeBuild.Unfold` follows the children lists with a fuel bound. `TreeBuild.ForestComplete` shows that `|flat|` levels reach every node.
- `ProjectController.DeleteChapterRecursivelyAsWritten` models the depth of the call stack as fuel.
- Nodes whose parent links form a cycle are unreachable from the roots, and the model follows the code in this. They do not fall back to being roots.
- `ProjectController.SyncProject` states exact line and detail contents only when the sent ids are distinct and read back (`ReadBack`). Otherwise it states that no reference dangles.
- `MetreArbo.MetreArboState.GetOrCreateTableData` stores and returns the corrected nine-cell default row (`MetreArbo.DefaultTable`), not the ten-cell row of MetreArbo.tsx 117-120, which `MetreArbo.DefaultTableAsWritten` models (see "## Findings").
- `MetreTable.MetreTableState.DetailChanged` finds the line through the corrected `MetreTable.TitleOfKey`, not through `detailKey.split('::')[1]` (MetreTable.tsx 241, 253), which `MetreTable.TitleOfKeyAsWrittenTruncates` models (see "## Findings").
- `SummarySpreadsheet.ApplyEdit` writes a summary edit to the table row the line was read from (`SummarySpreadsheet.WriteBack`, `SummarySpreadsheet.RawIndex`), not to row `lineIndex` as SummarySpreadsheet.tsx 306-309 does (see "## Findings"). Accordingly, it throws when the line is past the kept rows of its table; as written the source throws only past the raw rows.
- `SummarySpreadsheet.ApplyEdits` applies each edit through the corrected write-back of `SummarySpreadsheet.ApplyEdit`.
- `SummarySpreadsheet.EditAll` computes the corrected `SummarySpreadsheet.ApplyEdits`.
- `SummarySpreadsheet.SummarySpreadsheetState.HandleTableChange` applies the corrected write-back of `SummarySpreadsheet.ApplyEdit`.
- `SummarySpreadsheet.SummarySpreadsheetState.HandleTableChange` treats the tables and the shown rows as values. In the source, `[...updatedTableDataMap[chapterId]]` copies only the outer array, so the edit also changes, in place, the row arrays that the stored tables share, even when the handler throws or publishes nothing.
- `ProjectController.SyncChapterLines` deletes the unsent lines with their details (`ProjectController.RemoveUnsentLines`). ProjectController.java 171-176 leaves those details, which `ProjectController.RemoveUnsentLinesAsWritten` models (see "## Findings").
- `ProjectController.SyncChapters` builds on the corrected `ProjectController.SyncChapterLines`.
- `ProjectController.PlaceAndSync` builds on the corrected `ProjectController.SyncChapterLines`.
- `ProjectController.DeleteUnsentChapters` uses the terminating cascade `ProjectController.DeleteChapterRecursively`. ProjectController.java 189-208 never ends on a chapter that is its own parent, which `ProjectController.DeleteChapterRecursivelyAsWritten` models (see "## Findings").
- `ProjectController.SyncProject` models the program with three corrections: the line deletion, the cascade and the parent reading. Its "no reference dangles" does not hold as written, where an unsent line's details are left behind.
- `ProjectController.SyncProject` cannot receive a null in its payload: every list and record of the model is present. In the source, a missing `project`, `chapters`, `lines` or `details`, or a null chapter or line object, throws a NullPointerException part-way (ProjectController.java 104, 113, 146, 155). No transaction wraps the method, so the project save (line 107) and every save before the throw stay committed. That partial sync is not modelled.
- `ProjectController.LinkParents` reads the parent's temporary id as sent (`ProjectController.ParentOf`, corrected). ProjectController.java 131 reads it from the object `save` handed back, which `ProjectController.ParentOfAsWritten` models (see "## Findings").
- `ProjectController.PlaceOutcomePlaced` states the parents of the corrected `ProjectController.ParentOf`.
- `ProjectController.PlaceChapters` gives the parents of the corrected `ProjectController.ParentOf`.
- `ProjectController.PlaceAndSync` gives the parents of the corrected `ProjectController.ParentOf`.
- `NumOrder.SortByNum` orders by `NumOrder.NumLe`, so it inherits that order's gaps: letters are not compared case-blind, and punctuation is ordered by code point, not by the collation.
- `ProjectController.DeleteChapterRecursivelyAsWritten` states which chapters a finished run has removed only for the chapter and its children, not for every chapter below them.
- `ProjectData` and `ProjectController` give every field of a record a value. The Java fields are nullable objects (`Double`, `String`, `Long`): a null title reaches the pages as the text "null" (a table key such as "7::null"), and a null quantity or price multiplies as 0 in the pages.
- `NumericValues.EnsureNumericValues` assumes every chapter and line entry is an object. A null entry makes the source throw inside its `try`, and the catch (useMetreUpdates.ts 429, useProjectDataStorage.ts 43) returns the data converted only up to that entry.
- `NumOrder.NumLe` agrees with `localeCompare(…, {numeric: true})` on numbers made of digit runs and dots. It does not model the collation's case-blind comparison of letters, nor its order among punctuation (the collation puts "-" before ","; the model orders punctuation by code point).
- `ChapterStorage.ChapterStore.SaveChapter` applies its updater to the latest stored map (corrected). The source applies it to the render's map (useLocalStorage.ts line 29), which `ChapterStorage.ChapterStore.SaveChapterAsWritten` models.
- `ChapterStorage.ChapterStore.DeleteChapter` removes the key from the latest stored map (corrected). The source removes it from the render's map, which `ChapterStorage.ChapterStore.DeleteChapterAsWritten` models.
- `ChapterStorage.ChapterStore.ChapterKeys` returns a set. `Object.keys` returns an array in insertion order, and that order is not modelled.
- `Cells.StringToNumber` and `Cells.ParseFloat` read `Infinity`, with or without a sign, as NaN. JavaScript gives an infinity, which `Cells.Num` has no value for.

## Findings

| source | as written | input that shows it | evidently intended | confidence | as-written member | corrected member |
|---|---|---|---|---|---|---|
| frontend/src/pages/summary/SummarySpreadsheet.tsx:306-309 | a summary edit writes row `lineIndex` of the chapter table, where `lineIndex` counts only rows not labelled 'Total' (lines 231, 419) | chapter table `[["Total"], ["a"], ["Total"]]`: the shown line 0 is row 1, but the edit goes to row 0 | write to the table row the edited line was read from | not executed | `SummarySpreadsheet.WriteBackAsWrittenHitsHiddenRow` | `SummarySpreadsheet.WriteBackHitsShownLine` |
| frontend/src/pages/metre/MetreTable.tsx:241 | the title of an open detail is `detailKey.split('::')[1]` | table "7", line title "a::b": the key "7::a::b" gives back "a", so the detail total misses the line | everything after the table key and its separator | not executed | `MetreTable.TitleOfKeyAsWrittenTruncates` | `MetreTable.TitleOfKeyRoundTrip` |
| backend/src/main/java/com/example/myProject/controller/ProjectController.java:189-196 | the recursion follows parent links with no visited set | a chapter whose parent id is its own id (a new chapter sent with `parentTempId` equal to its `tempId`): the recursion never ends | delete each chapter below once | not executed | `ProjectController.SelfParentNeverDeletedAsWritten` | `ProjectController.SelfParentDeleted` |
| backend/src/main/java/com/example/myProject/controller/ProjectController.java:171-176 | lines not sent are deleted but their details are not | a chapter sent without its one line, which had one detail: the detail is left pointing at a deleted line | delete the line's details with it, as `deleteChapterRecursively` does | not executed | `ProjectController.OrphanedDetailAsWritten` | `ProjectController.RemoveUnsentLines` |
| frontend/src/pages/metre/MetreArbo.tsx:118 | the default line row has ten cells | any chapter without a table: column 5 (quantity) holds '' and column 8 (comments) holds 0 | the nine-cell line row with quantity, unit price and price 0 | not executed | `MetreArbo.DefaultTableAsWrittenMisaligned` | `MetreArbo.DefaultTableAligned` |
| frontend/src/hooks/useChapterStorage.ts:31-35 | the updater passed to `setChapters` is applied to the render's value (useLocalStorage.ts:29), not to the latest one | two `saveChapter` calls in one render with new keys: only the second text is kept | apply the updater to the latest stored value | not executed | `ChapterStorage.TwoSavesAsWrittenLoseFirst` | `ChapterStorage.TwoSaves` |
| frontend/src/hooks/useChapterStorage.ts:51-54 | the updater passed to `setChapters` removes the key from the render's value (useLocalStorage.ts:29), not from the latest one | `saveChapter` of a new key, then `deleteChapter` of another key, in one render: the saved text is lost | apply the updater to the latest stored value | not executed | `ChapterStorage.SaveThenDeleteAsWrittenLosesSave` | `ChapterStorage.SaveThenDelete` |
| backend/src/main/java/com/example/myProject/controller/ProjectController.java:119-137 | the second loop reads `parentTempId` from the object `save` handed back; for a chapter sent with an id, `save` merges it and hands back a managed copy without the transient `parentTempId` | a stored chapter 5 sent with id 5 and `parentTempId` "p", where "p" is the `tempId` of a sent chapter: chapter 5 is stored without a parent, on every sync | give each chapter the parent its sent `parentTempId` names | not executed | `ProjectController.ExistingChapterLosesParentAsWritten` | `ProjectController.ParentOf` |
