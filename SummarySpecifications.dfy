/**
 * The specifications summary: every chapter of the tree with the text written
 * for it, sorted by chapter number.
 */
module SummarySpecifications {
  import opened Cells
  import opened NumOrder
  import opened ChapterTree

  /** A chapter with its text. */
  datatype SpecChapter = SpecChapter(id: string, num: string, caption: string, parentId: Option<string>, content: string)

  /** `chapterTextMap[node.key] || ''` and `node.parentId || null`. */
  function Extract(n: Node, texts: map<string, string>): (c: SpecChapter)
    ensures c.id == n.key && c.num == n.num && c.caption == n.caption
    ensures n.key in texts ==> c.content == texts[n.key]
    ensures n.key !in texts ==> c.content == ""
    ensures c.parentId.Some? <==> n.parentId.Some? && n.parentId.value != ""
    ensures c.parentId.Some? ==> c.parentId == n.parentId
  {
    SpecChapter(n.key, n.num, n.caption, if n.parentId == Some("") then None else n.parentId,
                if n.key in texts && texts[n.key] != "" then texts[n.key] else "")
  }

  /** One chapter per node of the pre-order list, in that order. */
  function Extracted(nodes: seq<Node>, texts: map<string, string>): (r: seq<SpecChapter>)
    ensures |r| == |Flatten(nodes)|
    ensures forall i :: 0 <= i < |r| ==> r[i] == Extract(Flatten(nodes)[i], texts)
  {
    var flat := Flatten(nodes);
    seq(|flat|, i requires 0 <= i < |flat| => Extract(flat[i], texts))
  }

  /** Every node of the tree, at any depth, yields a chapter carrying its text. */
  lemma {:induction false} ExtractedCoversTree(nodes: seq<Node>, texts: map<string, string>, p: seq<nat>)
    requires ValidPath(nodes, p)
    ensures exists i :: 0 <= i < |Extracted(nodes, texts)| && Extracted(nodes, texts)[i] == Extract(NodeAt(nodes, p), texts)
  {
    FlattenAt(nodes, p);
    var i := PreIndex(nodes, p);
    assert Extracted(nodes, texts)[i] == Extract(NodeAt(nodes, p), texts);
  }

  /** The key `sortChapters` compares. */
  function NumOf(c: SpecChapter): string
  {
    c.num
  }

  /** `sortChapters`: sorts the array in place by number, ties in their order, and hands the same array back. */
  method SortChapters(chapters: array<SpecChapter>) returns (sorted: array<SpecChapter>)
    modifies chapters
    ensures sorted == chapters
    ensures StableSorted(chapters[..], old(chapters[..]), NumOf)
  {
    SortByNum(chapters, NumOf);
    sorted := chapters;
  }

  /** `processLocalStorageData`: flatten, extract, sort. */
  method ProcessData(treeData: seq<Node>, texts: map<string, string>) returns (chapters: seq<SpecChapter>)
    ensures StableSorted(chapters, Extracted(treeData, texts), NumOf)
  {
    var flatNodes := FlattenTreeNodes(treeData);
    var extracted := seq(|flatNodes|, i requires 0 <= i < |flatNodes| => Extract(flatNodes[i], texts));
    assert extracted == Extracted(treeData, texts);
    var arr := new SpecChapter[|extracted|](i requires 0 <= i < |extracted| => extracted[i]);
    assert arr[..] == extracted;
    var sorted := SortChapters(arr);
    chapters := sorted[..];
  }

  class SummarySpecificationsState {
    var chapters: seq<SpecChapter>

    constructor()
      ensures chapters == []
    {
      chapters := [];
    }

    /** The data effect: chapters are recomputed once loading is over and the tree is not empty. */
    method OnData(loading: bool, treeData: seq<Node>, texts: map<string, string>)
      modifies this
      ensures loading || treeData == [] ==> chapters == old(chapters)
      ensures !loading && treeData != [] ==>
        StableSorted(chapters, Extracted(treeData, texts), NumOf)
    {
      if !loading && |treeData| > 0 {
        chapters := ProcessData(treeData, texts);
      }
    }
  }
}
